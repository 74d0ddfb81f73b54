/** The stream rewriter: cuts chunks into server-sent events and rewrites the model name in `data:` lines. */
module SseStream {
  import opened Common

  /** What the JSON library does, as arbitrary total functions. */
  datatype Host = Host(
    restore: Bytes -> (Bytes, bool),         // restoreResponseModel: the new body and whether it changed
    decode: Bytes -> Option<seq<Bytes>>,     // the JSON values of a text, None when decoding fails
    valid: Bytes -> bool,                    // json.Valid
    frameRawJson: bool)                      // frameRawJSONAsSSE

  const CR: byte := 13
  const SPACE: byte := 32
  const TAB: byte := 9
  const COLON: byte := 58
  const DATA: Bytes := [100, 97, 116, 97, 58]
  const EVENT: Bytes := [101, 118, 101, 110, 116, 58]
  const ID: Bytes := [105, 100, 58]
  const RETRY: Bytes := [114, 101, 116, 114, 121, 58]
  const DONE: Bytes := [91, 68, 79, 78, 69, 93]
  const CAP: nat := 8 * 1024 * 1024

  // ------------------------------------------------------------------ trimming

  /** The length of the UTF-8 white space character at the front, 0 when there is none. */
  function LeadingSpace(b: Bytes): (n: nat)
    ensures n <= |b|
  {
    if |b| >= 1 && (9 <= b[0] <= 13 || b[0] == 32) then 1
    else if |b| >= 2 && b[0] == 0xc2 && (b[1] == 0x85 || b[1] == 0xa0) then 2
    else if |b| >= 3 && IsWideSpace(b[..3]) then 3
    else 0
  }

  function TrailingSpace(b: Bytes): (n: nat)
    ensures n <= |b|
  {
    var m := |b|;
    if m >= 1 && (9 <= b[m - 1] <= 13 || b[m - 1] == 32) then 1
    else if m >= 2 && b[m - 2] == 0xc2 && (b[m - 1] == 0x85 || b[m - 1] == 0xa0) then 2
    else if m >= 3 && IsWideSpace(b[m - 3..]) then 3
    else 0
  }

  /** U+1680, U+2000 to U+200A, U+2028, U+2029, U+202F, U+205F and U+3000 in UTF-8. */
  predicate IsWideSpace(c: Bytes)
    requires |c| == 3
  {
    c == [0xe1, 0x9a, 0x80] || c == [0xe3, 0x80, 0x80] || c == [0xe2, 0x81, 0x9f] ||
    (c[0] == 0xe2 && c[1] == 0x80 && (0x80 <= c[2] <= 0x8a || c[2] == 0xa8 || c[2] == 0xa9 || c[2] == 0xaf))
  }

  function TrimSpace(b: Bytes): Bytes
    decreases |b|
  {
    if LeadingSpace(b) > 0 then TrimSpace(b[LeadingSpace(b)..])
    else if TrailingSpace(b) > 0 then TrimSpace(b[..|b| - TrailingSpace(b)])
    else b
  }

  function TrimLeft(b: Bytes, cutset: set<byte>): Bytes {
    if b != [] && b[0] in cutset then TrimLeft(b[1..], cutset) else b
  }

  // -------------------------------------------------------------------- events

  /** Where the first event ends and how long its delimiter is; the length 0 means there is none. */
  function EventDelimiter(buf: Bytes): (nat, nat) {
    var lf := IndexFrom(buf, 0, [LF, LF]);
    var crlf := IndexFrom(buf, 0, [CR, LF, CR, LF]);
    if lf.None? && crlf.None? then (0, 0)
    else if lf.Some? && (crlf.None? || lf.value < crlf.value) then (lf.value, 2)
    else (crlf.value, 4)
  }

  function DelimiterBytes(n: nat): Bytes { if n == 4 then [CR, LF, CR, LF] else [LF, LF] }

  datatype Event = Event(body: Bytes, delimiter: nat)

  lemma DelimiterFits(buf: Bytes)
    ensures var (d, n) := EventDelimiter(buf);
            n > 0 ==> d + n <= |buf| && buf[d..d + n] == DelimiterBytes(n) && (n == 2 || n == 4)
  {}

  /** The complete events of a buffer, and the unterminated rest. */
  function Extract(buf: Bytes): (seq<Event>, Bytes)
    decreases |buf|
  {
    DelimiterFits(buf);
    var (d, n) := EventDelimiter(buf);
    if n == 0 then ([], buf)
    else
      var (events, rest) := Extract(buf[d + n..]);
      ([Event(buf[..d], n)] + events, rest)
  }

  // ----------------------------------------------------------------- rewriting

  function RewriteLine(host: Host, line: Bytes, lineBreak: Bytes): Bytes {
    if DATA <= line then
      var value := TrimSpace(line[|DATA|..]);
      if value == [] || value == DONE then line + lineBreak
      else
        var (restored, changed) := host.restore(value);
        if changed then DATA + [SPACE] + restored + lineBreak else line + lineBreak
    else line + lineBreak
  }

  /** The first line of an event without its line break, the line break to write, and the rest. */
  function FirstLine(event: Bytes): (r: (Bytes, Bytes, Bytes))
    requires event != []
    ensures |r.2| < |event|
  {
    var end := IndexFrom(event, 0, [LF]);
    var line := if end.Some? then event[..end.value] else event;
    var rest := if end.Some? then event[end.value + 1..] else [];
    if line != [] && line[|line| - 1] == CR then
      (line[..|line| - 1], if end.Some? then [CR, LF] else [], rest)
    else
      (line, if end.Some? then [LF] else [], rest)
  }

  function RewrittenLines(host: Host, event: Bytes): seq<Bytes>
    decreases |event|
  {
    if event == [] then []
    else
      var (line, lineBreak, rest) := FirstLine(event);
      [RewriteLine(host, line, lineBreak)] + RewrittenLines(host, rest)
  }

  function Emit(host: Host, e: Event): Bytes {
    Concat(RewrittenLines(host, e.body)) + DelimiterBytes(e.delimiter)
  }

  function EmitAll(host: Host, events: seq<Event>): seq<Bytes> {
    if events == [] then [] else [Emit(host, events[0])] + EmitAll(host, events[1..])
  }

  // -------------------------------------------------------------- the event buffer

  datatype SseState = SseState(buf: Bytes, overflowed: bool)

  function NeedsLineBreak(pending: Bytes, chunk: Bytes): bool {
    if pending == [] || chunk == [] then false
    else if pending[|pending| - 1] == LF || pending[|pending| - 1] == CR then false
    else if chunk[0] == LF || chunk[0] == CR then false
    else
      var trimmed := TrimLeft(chunk, {SPACE, TAB});
      DATA <= trimmed || EVENT <= trimmed || ID <= trimmed || RETRY <= trimmed || [COLON] <= trimmed
  }

  /** The bytes a write adds to the buffer. */
  function Added(buf: Bytes, p: Bytes): Bytes {
    if NeedsLineBreak(buf, p) then [LF] + p else p
  }

  function SseWrite(host: Host, st: SseState, p: Bytes): (SseState, seq<Bytes>) {
    if st.overflowed then (st, [p])
    else
      var (events, rest) := Extract(st.buf + Added(st.buf, p));
      if |rest| > CAP then (SseState([], true), EmitAll(host, events) + [rest])
      else (SseState(rest, false), EmitAll(host, events))
  }

  function SseFlush(host: Host, st: SseState): (SseState, seq<Bytes>) {
    if st.buf == [] then (st, [])
    else if st.overflowed then (SseState([], true), [st.buf])
    else (SseState([], false), RewrittenLines(host, st.buf))
  }

  lemma ExtractOne(buf: Bytes)
    requires EventDelimiter(buf).1 > 0
    ensures var (d, n) := EventDelimiter(buf);
            d + n <= |buf| && d <= |buf| &&
            Extract(buf) == ([Event(buf[..d], n)] + Extract(buf[d + n..]).0, Extract(buf[d + n..]).1)
  {
    DelimiterFits(buf);
  }

  lemma EmitFirst(host: Host, e: Event, more: seq<Event>)
    ensures EmitAll(host, [e] + more) == [Emit(host, e)] + EmitAll(host, more)
  {
    assert ([e] + more)[1..] == more;
  }

  /** One turn of the extraction loop. */
  lemma ExtractStep(host: Host, buf: Bytes, out: seq<Bytes>, whole: seq<Bytes>)
    requires EventDelimiter(buf).1 > 0 && whole == out + EmitAll(host, Extract(buf).0)
    ensures var (d, n) := EventDelimiter(buf);
            d + n <= |buf| && d <= |buf| && Extract(buf).1 == Extract(buf[d + n..]).1 &&
            whole == out + [Emit(host, Event(buf[..d], n))] + EmitAll(host, Extract(buf[d + n..]).0)
  {
    ExtractOne(buf);
    var (d, n) := EventDelimiter(buf);
    EmitFirst(host, Event(buf[..d], n), Extract(buf[d + n..]).0);
  }

  lemma LinesStep(host: Host, event: Bytes, out: seq<Bytes>, whole: seq<Bytes>)
    requires event != [] && whole == out + RewrittenLines(host, event)
    ensures var (line, lineBreak, rest) := FirstLine(event);
            whole == out + [RewriteLine(host, line, lineBreak)] + RewrittenLines(host, rest)
  {}

  class SseRewriter {
    const host: Host
    var buf: Bytes
    var overflowed: bool

    function State(): SseState
      reads this
    {
      SseState(buf, overflowed)
    }

    constructor (host: Host)
      ensures State() == SseState([], false) && this.host == host
    {
      this.host := host;
      buf := [];
      overflowed := false;
    }

    method Write(p: Bytes) returns (out: seq<Bytes>)
      modifies this
      ensures (State(), out) == SseWrite(host, old(State()), p)
    {
      if overflowed {
        return [p];
      }
      if NeedsLineBreak(buf, p) {
        assert buf + [LF] + p == buf + ([LF] + p);
        buf := buf + [LF];
      }
      buf := buf + p;
      out := ExtractEvents();
      if |buf| > CAP {
        overflowed := true;
        out := out + [buf];
        buf := [];
      }
    }

    /** The extraction loop. */
    method ExtractEvents() returns (out: seq<Bytes>)
      modifies `buf
      ensures buf == Extract(old(buf)).1 && out == EmitAll(host, Extract(old(buf)).0)
    {
      out := [];
      ghost var whole := EmitAll(host, Extract(buf).0);
      while true
        invariant Extract(buf).1 == Extract(old(buf)).1
        invariant whole == out + EmitAll(host, Extract(buf).0)
        decreases |buf|
      {
        var (delim, n) := EventDelimiter(buf);
        if n == 0 {
          break;
        }
        ExtractStep(host, buf, out, whole);
        var event := buf[..delim];
        buf := buf[delim + n..];
        var rewritten := RewriteEvent(event);
        out := out + [Concat(rewritten) + DelimiterBytes(n)];
      }
    }

    method RewriteEvent(body: Bytes) returns (out: seq<Bytes>)
      ensures out == RewrittenLines(host, body)
    {
      out := [];
      var event := body;
      ghost var whole := RewrittenLines(host, body);
      while |event| > 0
        invariant whole == out + RewrittenLines(host, event)
        decreases |event|
      {
        var line, lineBreak, rest := CutLine(event);
        ghost var before := out;
        var rewritten := RewriteOne(line, lineBreak);
        out := out + [rewritten];
        LinesStep(host, event, before, whole);
        event := rest;
      }
    }

    method CutLine(event: Bytes) returns (line: Bytes, lineBreak: Bytes, rest: Bytes)
      requires event != []
      ensures (line, lineBreak, rest) == FirstLine(event)
    {
      var lineEnd := IndexFrom(event, 0, [LF]);
      line := event;
      lineBreak := [];
      rest := [];
      if lineEnd.Some? {
        line := event[..lineEnd.value];
        lineBreak := [LF];
        rest := event[lineEnd.value + 1..];
      }
      if |line| > 0 && line[|line| - 1] == CR {
        line := line[..|line| - 1];
        if lineBreak != [] {
          lineBreak := [CR, LF];
        }
      }
    }

    method RewriteOne(line: Bytes, lineBreak: Bytes) returns (out: Bytes)
      ensures out == RewriteLine(host, line, lineBreak)
    {
      if DATA <= line {
        var value := TrimSpace(line[|DATA|..]);
        if value == [] || value == DONE {
          return line + lineBreak;
        }
        var (restored, changed) := host.restore(value);
        if changed {
          return DATA + [SPACE] + restored + lineBreak;
        }
      }
      return line + lineBreak;
    }

    method Flush() returns (out: seq<Bytes>)
      modifies this
      ensures (State(), out) == SseFlush(host, old(State()))
    {
      if buf == [] {
        return [];
      }
      var event := buf;
      buf := [];
      if overflowed {
        return [event];
      }
      out := RewriteEvent(event);
    }
  }

  // ------------------------------------------------------------ the chunk rewriter

  datatype StreamState = StreamState(sse: SseState, pending: Bytes, sseMode: bool)

  const START: StreamState := StreamState(SseState([], false), [], false)

  predicate IsSseChunk(p: Bytes) {
    var trimmed := TrimLeft(p, {SPACE, TAB, CR, LF});
    DATA <= trimmed || EVENT <= trimmed || [COLON] <= trimmed ||
    IndexFrom(p, 0, [LF, LF]).Some? || IndexFrom(p, 0, [CR, LF, CR, LF]).Some?
  }

  predicate IsIncompletePrefix(p: Bytes) {
    var trimmed := TrimLeft(p, {SPACE, TAB, CR, LF});
    trimmed != [] && CR !in trimmed && LF !in trimmed &&
    (trimmed < DATA || trimmed < EVENT || trimmed < [COLON])
  }

  /** The text up to the first line feed, and what follows it. */
  function Lines(p: Bytes): seq<Bytes>
    decreases |p|
  {
    var end := IndexFrom(p, 0, [LF]);
    if end.None? then [p] else [p[..end.value]] + Lines(p[end.value + 1..])
  }

  function FrameLines(lines: seq<Bytes>): Bytes {
    if lines == [] then [] else DATA + [SPACE] + lines[0] + [LF] + FrameLines(lines[1..])
  }

  function FrameData(p: Bytes): Bytes { FrameLines(Lines(p)) + [LF] }

  function SplitValues(host: Host, p: Bytes): Option<seq<Bytes>> {
    if TrimSpace(p) == [] then Some([])
    else
      var values := host.decode(p);
      if values.Some? && values.value != [] then values else None
  }

  function RawValues(host: Host, values: seq<Bytes>): seq<Bytes> {
    if values == [] then []
    else
      var restored := host.restore(values[0]).0;
      [if host.frameRawJson then FrameData(restored) else restored] + RawValues(host, values[1..])
  }

  function RawJsonChunks(host: Host, p: Bytes): seq<Bytes> {
    var values := SplitValues(host, p);
    if values.None? then [if host.frameRawJson && host.valid(p) then FrameData(p) else p]
    else RawValues(host, values.value)
  }

  function StreamWrite(host: Host, st: StreamState, chunk: Bytes): (StreamState, seq<Bytes>) {
    var p := st.pending + chunk;
    if st.sseMode || st.sse.buf != [] || IsSseChunk(p) then
      var (sse, out) := SseWrite(host, st.sse, p);
      (StreamState(sse, [], true), out)
    else if IsIncompletePrefix(p) then (StreamState(st.sse, p, false), [])
    else
      var (restored, changed) := host.restore(p);
      (StreamState(st.sse, [], false), RawJsonChunks(host, if changed then restored else p))
  }

  function StreamFlush(host: Host, st: StreamState): (StreamState, seq<Bytes>) {
    if st.pending != [] then
      var (sse, chunks) := SseWrite(host, st.sse, st.pending);
      var (sse', flushed) := SseFlush(host, sse);
      (StreamState(sse', [], st.sseMode), chunks + flushed)
    else
      var (sse, flushed) := SseFlush(host, st.sse);
      (StreamState(sse, [], st.sseMode), flushed)
  }

  lemma RawStep(host: Host, values: seq<Bytes>, out: seq<Bytes>, whole: seq<Bytes>)
    requires values != [] && whole == out + RawValues(host, values)
    ensures var restored := host.restore(values[0]).0;
            whole == out + [if host.frameRawJson then FrameData(restored) else restored] + RawValues(host, values[1..])
  {}

  class StreamChunkRewriter {
    const host: Host
    const sse: SseRewriter
    var pending: Bytes
    var sseMode: bool

    ghost predicate Valid()
      reads this
    {
      sse.host == host
    }

    function State(): StreamState
      reads this, sse
    {
      StreamState(sse.State(), pending, sseMode)
    }

    constructor (host: Host)
      ensures Valid() && fresh(sse) && State() == START && this.host == host
    {
      this.host := host;
      sse := new SseRewriter(host);
      pending := [];
      sseMode := false;
    }

    method Write(chunk: Bytes) returns (out: seq<Bytes>)
      requires Valid()
      modifies this, sse
      ensures Valid() && (State(), out) == StreamWrite(host, old(State()), chunk)
    {
      var p := chunk;
      if |pending| > 0 {
        p := pending + chunk;
        pending := [];
      } else {
        assert pending + chunk == chunk;
      }
      if sseMode || |sse.buf| > 0 {
        sseMode := true;
        out := sse.Write(p);
        return;
      }
      if IsSseChunk(p) {
        sseMode := true;
        out := sse.Write(p);
        return;
      }
      if IsIncompletePrefix(p) {
        assert [] + p == p;
        pending := pending + p;
        return [];
      }
      var (restored, changed) := host.restore(p);
      out := RawJson(if changed then restored else p);
    }

    method RawJson(p: Bytes) returns (out: seq<Bytes>)
      ensures out == RawJsonChunks(host, p)
    {
      var values := SplitValues(host, p);
      if values.None? {
        return [if host.frameRawJson && host.valid(p) then FrameData(p) else p];
      }
      out := [];
      assert values.value[0..] == values.value;
      ghost var whole := RawValues(host, values.value);
      for i := 0 to |values.value|
        invariant whole == out + RawValues(host, values.value[i..])
      {
        RawStep(host, values.value[i..], out, whole);
        assert values.value[i..][1..] == values.value[i + 1..];
        var (restored, _) := host.restore(values.value[i]);
        if host.frameRawJson {
          out := out + [FrameData(restored)];
        } else {
          out := out + [restored];
        }
      }
    }

    method Flush() returns (out: seq<Bytes>)
      requires Valid()
      modifies this, sse
      ensures Valid() && (State(), out) == StreamFlush(host, old(State()))
    {
      if |pending| > 0 {
        var held := pending;
        pending := [];
        var chunks := sse.Write(held);
        var flushed := sse.Flush();
        return chunks + flushed;
      }
      out := sse.Flush();
    }
  }
}
