/** Why the way a stream is cut into chunks does not matter. */
module SseChunking {
  import opened Common
  import opened SseStream

  // ----------------------------------------------- delimiters of longer buffers

  lemma OccursInPrefix(a: Bytes, b: Bytes, i: nat, pat: Bytes)
    requires i + |pat| <= |a|
    ensures OccursAt(a + b, i, pat) <==> OccursAt(a, i, pat)
  {
    assert (a + b)[i..i + |pat|] == a[i..i + |pat|];
  }

  lemma OccursByte(s: Bytes, i: nat, pat: Bytes, j: nat)
    requires OccursAt(s, i, pat) && j < |pat|
    ensures s[i + j] == pat[j]
  {
    assert s[i..i + |pat|][j] == pat[j];
  }

  lemma IndexIs(s: Bytes, pat: Bytes, k: nat)
    requires OccursAt(s, k, pat) && forall j :: 0 <= j < k ==> !OccursAt(s, j, pat)
    ensures IndexFrom(s, 0, pat) == Some(k)
  {
    var r := IndexFrom(s, 0, pat);
    assert r.Some?;
  }

  /** More bytes never move a first occurrence, and a new one reaches into them. */
  lemma FirstOccurrenceStays(a: Bytes, b: Bytes, pat: Bytes)
    ensures IndexFrom(a, 0, pat).Some? ==> IndexFrom(a + b, 0, pat) == IndexFrom(a, 0, pat)
    ensures IndexFrom(a, 0, pat).None? && IndexFrom(a + b, 0, pat).Some? ==>
              IndexFrom(a + b, 0, pat).value + |pat| > |a|
  {
    var before, after := IndexFrom(a, 0, pat), IndexFrom(a + b, 0, pat);
    forall i | 0 <= i && i + |pat| <= |a|
      ensures OccursAt(a + b, i, pat) <==> OccursAt(a, i, pat)
    {
      OccursInPrefix(a, b, i, pat);
    }
    if before.Some? {
      IndexIs(a + b, pat, before.value);
    } else if after.Some? {
      assert !OccursAt(a, after.value, pat);
    }
  }

  /** The first event of a buffer is cut the same way when more bytes follow. */
  lemma DelimiterStays(a: Bytes, b: Bytes)
    requires EventDelimiter(a).1 > 0
    ensures EventDelimiter(a + b) == EventDelimiter(a)
  {
    var lfPat: Bytes := [LF, LF];
    var crlfPat: Bytes := [CR, LF, CR, LF];
    FirstOccurrenceStays(a, b, lfPat);
    FirstOccurrenceStays(a, b, crlfPat);
    var lf, crlf := IndexFrom(a, 0, lfPat), IndexFrom(a, 0, crlfPat);
    var late := IndexFrom(a + b, 0, crlfPat);
    if lf.Some? && crlf.None? && late.Some? {
      // a late \r\n\r\n cannot start at the \n\n that is already there, nor right before it
      OccursByte(a, lf.value, lfPat, 0);
      OccursByte(a, lf.value, lfPat, 1);
      OccursByte(a + b, late.value, crlfPat, 0);
      OccursByte(a + b, late.value, crlfPat, 2);
      assert late.value != lf.value && late.value + 2 != lf.value + 1;
    }
  }

  lemma ExtractFirst(buf: Bytes, event: Event, rest: Bytes)
    requires EventDelimiter(buf).1 > 0 && EventDelimiter(buf).0 + EventDelimiter(buf).1 <= |buf|
    requires event == Event(buf[..EventDelimiter(buf).0], EventDelimiter(buf).1)
    requires rest == buf[EventDelimiter(buf).0 + EventDelimiter(buf).1..]
    ensures Extract(buf) == ([event] + Extract(rest).0, Extract(rest).1)
  {}

  lemma SlicesOver(a: Bytes, b: Bytes, d: nat, e: nat)
    requires d <= e <= |a|
    ensures e <= |a + b| && (a + b)[e..] == a[e..] + b && (a + b)[..d] == a[..d]
  {}

  /** Cutting a longer buffer continues where cutting the shorter one stopped. */
  lemma {:induction false} ExtractMore(a: Bytes, b: Bytes)
    ensures Extract(a + b) ==
            (Extract(a).0 + Extract(Extract(a).1 + b).0, Extract(Extract(a).1 + b).1)
    decreases |a|
  {
    var (d, n) := EventDelimiter(a);
    if n == 0 {
      assert [] + Extract(a + b).0 == Extract(a + b).0;
    } else {
      DelimiterFits(a);
      DelimiterStays(a, b);
      var event, rest := Event(a[..d], n), a[d + n..];
      SlicesOver(a, b, d, d + n);
      ExtractMore(rest, b);
      Associative([event], Extract(rest).0, Extract(Extract(rest).1 + b).0);
      ExtractFirst(a, event, rest);
      ExtractFirst(a + b, event, rest + b);
    }
  }

  lemma {:induction false} RestHasNoEvent(buf: Bytes)
    ensures Extract(Extract(buf).1) == ([], Extract(buf).1)
    decreases |buf|
  {
    var (d, n) := EventDelimiter(buf);
    if n > 0 {
      ExtractOne(buf);
      RestHasNoEvent(buf[d + n..]);
    }
  }

  lemma {:induction false} EmitAllConcat(host: Host, a: seq<Event>, b: seq<Event>)
    ensures EmitAll(host, a + b) == EmitAll(host, a) + EmitAll(host, b)
  {
    if a == [] {
      assert a + b == b;
    } else {
      var rest := a[1..];
      assert a == [a[0]] + rest;
      Associative([a[0]], rest, b);
      EmitAllConcat(host, rest, b);
      Associative([Emit(host, a[0])], EmitAll(host, rest), EmitAll(host, b));
      EmitFirst(host, a[0], rest);
      EmitFirst(host, a[0], rest + b);
    }
  }

  // ------------------------------------------------------- runs of the event buffer

  const EMPTY: SseState := SseState([], false)

  function SseRun(host: Host, st: SseState, pieces: seq<Bytes>): (SseState, seq<Bytes>)
    decreases |pieces|
  {
    if pieces == [] then (st, [])
    else
      var (next, out) := SseWrite(host, st, pieces[0]);
      var (last, more) := SseRun(host, next, pieces[1..]);
      (last, out + more)
  }

  /** Everything a run appends to the buffer: the pieces with the inserted line breaks. */
  function Fed(host: Host, st: SseState, pieces: seq<Bytes>): Bytes
    decreases |pieces|
  {
    if pieces == [] then []
    else Added(st.buf, pieces[0]) + Fed(host, SseWrite(host, st, pieces[0]).0, pieces[1..])
  }

  /** How many line breaks a run inserts. */
  function Breaks(host: Host, st: SseState, pieces: seq<Bytes>): nat
    decreases |pieces|
  {
    if pieces == [] then 0
    else
      (if NeedsLineBreak(st.buf, pieces[0]) then 1 else 0) +
      Breaks(host, SseWrite(host, st, pieces[0]).0, pieces[1..])
  }

  /** The unterminated tail stays within the cap throughout the run. */
  predicate WithinCap(host: Host, st: SseState, pieces: seq<Bytes>)
    decreases |pieces|
  {
    pieces == [] ||
    (!SseWrite(host, st, pieces[0]).0.overflowed && WithinCap(host, SseWrite(host, st, pieces[0]).0, pieces[1..]))
  }

  lemma WriteIsExtract(host: Host, buf: Bytes, p: Bytes)
    requires !SseWrite(host, SseState(buf, false), p).0.overflowed
    ensures var whole := Extract(buf + Added(buf, p));
            SseWrite(host, SseState(buf, false), p) == (SseState(whole.1, false), EmitAll(host, whole.0)) &&
            |whole.1| <= CAP
  {}

  lemma RunFirst(host: Host, st: SseState, p: Bytes, rest: seq<Bytes>)
    ensures SseRun(host, st, [p] + rest) ==
            (SseRun(host, SseWrite(host, st, p).0, rest).0,
             SseWrite(host, st, p).1 + SseRun(host, SseWrite(host, st, p).0, rest).1)
    ensures Fed(host, st, [p] + rest) == Added(st.buf, p) + Fed(host, SseWrite(host, st, p).0, rest)
    ensures WithinCap(host, st, [p] + rest) <==>
            !SseWrite(host, st, p).0.overflowed && WithinCap(host, SseWrite(host, st, p).0, rest)
  {
    assert ([p] + rest)[1..] == rest;
  }

  /** What `RunIsExtract` states. */
  ghost predicate RunMatches(host: Host, buf: Bytes, pieces: seq<Bytes>, events: seq<Event>, tail: Bytes) {
    && Extract(buf + Fed(host, SseState(buf, false), pieces)) == (events, tail)
    && SseRun(host, SseState(buf, false), pieces) == (SseState(tail, false), EmitAll(host, events))
    && |tail| <= CAP
  }

  lemma ExtractJoin(first: Bytes, more: Bytes, e1: seq<Event>, t1: Bytes, e2: seq<Event>, t2: Bytes)
    requires Extract(first) == (e1, t1) && Extract(t1 + more) == (e2, t2)
    ensures Extract(first + more) == (e1 + e2, t2)
  {
    ExtractMore(first, more);
  }

  lemma RunMatchesFirst(host: Host, buf: Bytes, p: Bytes, rest: seq<Bytes>,
                        e1: seq<Event>, t1: Bytes, e2: seq<Event>, t2: Bytes)
    requires Extract(buf + Added(buf, p)) == (e1, t1)
    requires SseWrite(host, SseState(buf, false), p) == (SseState(t1, false), EmitAll(host, e1))
    requires RunMatches(host, t1, rest, e2, t2)
    ensures RunMatches(host, buf, [p] + rest, e1 + e2, t2)
  {
    var more := Fed(host, SseState(t1, false), rest);
    RunFirst(host, SseState(buf, false), p, rest);
    ExtractJoin(buf + Added(buf, p), more, e1, t1, e2, t2);
    EmitAllConcat(host, e1, e2);
    Associative(buf, Added(buf, p), more);
  }

  /** A run within the cap emits the events of everything it was fed. */
  lemma {:induction false} RunIsExtract(host: Host, buf: Bytes, pieces: seq<Bytes>)
    returns (events: seq<Event>, tail: Bytes)
    requires Extract(buf) == ([], buf) && |buf| <= CAP && WithinCap(host, SseState(buf, false), pieces)
    ensures RunMatches(host, buf, pieces, events, tail)
    decreases |pieces|
  {
    if pieces == [] {
      assert buf + [] == buf;
      events, tail := [], buf;
    } else {
      var p, rest := pieces[0], pieces[1..];
      assert pieces == [p] + rest;
      RunFirst(host, SseState(buf, false), p, rest);
      WriteIsExtract(host, buf, p);
      var (e1, t1) := Extract(buf + Added(buf, p));
      RestHasNoEvent(buf + Added(buf, p));
      var e2, t2 := RunIsExtract(host, t1, rest);
      RunMatchesFirst(host, buf, p, rest, e1, t1, e2, t2);
      events, tail := e1 + e2, t2;
    }
  }

  lemma {:induction false} FedLength(host: Host, st: SseState, pieces: seq<Bytes>)
    ensures |Fed(host, st, pieces)| == |Concat(pieces)| + Breaks(host, st, pieces)
    ensures Breaks(host, st, pieces) == 0 ==> Fed(host, st, pieces) == Concat(pieces)
    decreases |pieces|
  {
    if pieces != [] {
      FedLength(host, SseWrite(host, st, pieces[0]).0, pieces[1..]);
    }
  }

  function SseOutput(host: Host, pieces: seq<Bytes>): seq<Bytes> {
    var (last, out) := SseRun(host, EMPTY, pieces);
    out + SseFlush(host, last).1
  }

  /** What one write of a whole text followed by a flush emits. */
  function WholeOutput(host: Host, text: Bytes): seq<Bytes> {
    EmitAll(host, Extract(text).0) + RewrittenLines(host, Extract(text).1)
  }

  lemma RunOutput(host: Host, pieces: seq<Bytes>)
    requires WithinCap(host, EMPTY, pieces)
    ensures SseOutput(host, pieces) == WholeOutput(host, Fed(host, EMPTY, pieces))
    ensures |Extract(Fed(host, EMPTY, pieces)).1| <= CAP
  {
    assert Extract([]) == ([], []);
    var events, tail := RunIsExtract(host, [], pieces);
    assert [] + Fed(host, EMPTY, pieces) == Fed(host, EMPTY, pieces);
  }

  // ------------------------------------------------------ runs of the chunk rewriter

  predicate StartsAsSse(text: Bytes) { DATA <= text || EVENT <= text || [COLON] <= text }

  function StreamRun(host: Host, st: StreamState, chunks: seq<Bytes>): (StreamState, seq<Bytes>)
    decreases |chunks|
  {
    if chunks == [] then (st, [])
    else
      var (next, out) := StreamWrite(host, st, chunks[0]);
      var (last, more) := StreamRun(host, next, chunks[1..]);
      (last, out + more)
  }

  /** All writes and the final flush. */
  function StreamOutput(host: Host, chunks: seq<Bytes>): seq<Bytes> {
    var (last, out) := StreamRun(host, START, chunks);
    out + StreamFlush(host, last).1
  }

  /** The writes that reach the event buffer: the chunks up to the first recognised start arrive as one. */
  function Pieces(held: Bytes, chunks: seq<Bytes>): seq<Bytes>
    decreases |chunks|
  {
    if chunks == [] then []
    else if IsSseChunk(held + chunks[0]) then [held + chunks[0]] + chunks[1..]
    else Pieces(held + chunks[0], chunks[1..])
  }

  lemma StartIsSse(text: Bytes)
    requires StartsAsSse(text)
    ensures IsSseChunk(text)
  {
    assert TrimLeft(text, {SPACE, TAB, CR, LF}) == text;
  }

  lemma PrefixOrder(p: Bytes, q: Bytes, text: Bytes)
    requires p <= text && q <= text
    ensures q <= p || p < q
  {}

  /** A proper start of a recognisable stream is empty, recognised, or held back. */
  lemma StartIsHeld(p: Bytes, text: Bytes)
    requires StartsAsSse(text) && p <= text
    ensures p == [] || IsSseChunk(p) || IsIncompletePrefix(p)
  {
    if p != [] && !StartsAsSse(p) {
      var field := if DATA <= text then DATA else if EVENT <= text then EVENT else [COLON];
      assert p[0] == text[0] == field[0];
      PrefixOrder(p, field, text);
      assert p == field[..|p|];
      assert TrimLeft(p, {SPACE, TAB, CR, LF}) == p;
      assert CR !in field && LF !in field;
      assert forall x :: x in p ==> x in field;
      assert p < field;
    } else if p != [] {
      StartIsSse(p);
    }
  }

  lemma EmptyIsNothing()
    ensures !IsSseChunk([]) && !IsIncompletePrefix([])
  {}

  lemma {:induction false} SseModeRun(host: Host, sse: SseState, chunks: seq<Bytes>)
    ensures var (last, out) := SseRun(host, sse, chunks);
            StreamRun(host, StreamState(sse, [], true), chunks) == (StreamState(last, [], true), out)
    decreases |chunks|
  {
    if chunks != [] {
      assert [] + chunks[0] == chunks[0];
      SseModeRun(host, SseWrite(host, sse, chunks[0]).0, chunks[1..]);
    }
  }

  /** A recognisable stream goes through the event buffer piece by piece, and nothing else is emitted. */
  lemma {:induction false} StreamIsSse(host: Host, held: Bytes, chunks: seq<Bytes>)
    requires StartsAsSse(held + Concat(chunks)) && !host.restore([]).1
    requires held == [] || IsIncompletePrefix(held)
    requires !IsSseChunk(held)
    ensures var (last, out) := SseRun(host, EMPTY, Pieces(held, chunks));
            StreamRun(host, StreamState(EMPTY, held, false), chunks) == (StreamState(last, [], true), out)
    ensures Concat(Pieces(held, chunks)) == held + Concat(chunks)
    ensures Pieces(held, chunks) != [] && IsSseChunk(Pieces(held, chunks)[0])
    decreases |chunks|
  {
    if chunks == [] {
      assert held + [] == held;
      StartIsSse(held);
    } else {
      var p, rest := held + chunks[0], chunks[1..];
      assert held + Concat(chunks) == p + Concat(rest);
      StartIsHeld(p, p + Concat(rest));
      if IsSseChunk(p) {
        SseModeRun(host, SseWrite(host, EMPTY, p).0, rest);
        assert ([p] + rest)[1..] == rest;
      } else {
        StreamIsSse(host, p, rest);
        if p == [] {
          EmptyIsNothing();
          BlankChunk(host);
        }
        var (last, out) := SseRun(host, EMPTY, Pieces(p, rest));
        assert [] + out == out;
      }
    }
  }

  /** An empty chunk before the stream is recognised does nothing. */
  lemma BlankChunk(host: Host)
    requires !host.restore([]).1
    ensures StreamWrite(host, START, []) == (START, [])
  {
    EmptyIsNothing();
    assert TrimSpace([]) == [];
  }

  // ------------------------------------------------------------------- main results

  /** Any chunking of a recognisable stream emits what one write of the bytes it feeds emits. */
  lemma ChunkingInvariance(host: Host, chunks: seq<Bytes>)
    requires StartsAsSse(Concat(chunks)) && !host.restore([]).1
    requires WithinCap(host, EMPTY, Pieces([], chunks))
    ensures var fed := Fed(host, EMPTY, Pieces([], chunks));
            StreamOutput(host, chunks) == WholeOutput(host, fed) &&
            |fed| == |Concat(chunks)| + Breaks(host, EMPTY, Pieces([], chunks))
  {
    var pieces := Pieces([], chunks);
    assert [] + Concat(chunks) == Concat(chunks);
    EmptyIsNothing();
    StreamIsSse(host, [], chunks);
    RunOutput(host, pieces);
    FedLength(host, EMPTY, pieces);
  }

  /** Without inserted line breaks every chunking emits exactly what one single chunk emits. */
  lemma ChunkingDoesNotMatter(host: Host, chunks: seq<Bytes>)
    requires StartsAsSse(Concat(chunks)) && !host.restore([]).1
    requires WithinCap(host, EMPTY, Pieces([], chunks)) && Breaks(host, EMPTY, Pieces([], chunks)) == 0
    ensures StreamOutput(host, chunks) == StreamOutput(host, [Concat(chunks)])
  {
    var text, pieces := Concat(chunks), Pieces([], chunks);
    ChunkingInvariance(host, chunks);
    assert [] + text == text;
    EmptyIsNothing();
    StreamIsSse(host, [], chunks);
    FedLength(host, EMPTY, pieces);
    RunOutput(host, pieces);
    assert [text][1..] == [] && Concat([text]) == text + [];
    StartIsSse(text);
    assert Pieces([], [text]) == [text];
    assert WithinCap(host, EMPTY, [text]);
    ChunkingInvariance(host, [text]);
    assert Fed(host, EMPTY, [text]) == text;
  }

  // ------------------------------------------------------------- unchanged payloads

  predicate KeepsLine(host: Host, line: Bytes) {
    DATA <= line ==>
      var value := TrimSpace(line[|DATA|..]);
      value == [] || value == DONE || !host.restore(value).1
  }

  /** No payload of the event is changed. */
  predicate KeepsPayloads(host: Host, event: Bytes)
    decreases |event|
  {
    event == [] || (KeepsLine(host, FirstLine(event).0) && KeepsPayloads(host, FirstLine(event).2))
  }

  predicate EndsInBareCr(event: Bytes) { event != [] && event[|event| - 1] == CR }

  function DropBareCr(event: Bytes): Bytes {
    if EndsInBareCr(event) then event[..|event| - 1] else event
  }

  lemma DropBehindLineFeed(head: Bytes, rest: Bytes)
    requires head != [] && head[|head| - 1] == LF
    ensures DropBareCr(head + rest) == head + DropBareCr(rest)
  {
    if rest == [] {
      assert head + rest == head;
    } else {
      assert (head + rest)[|head| + |rest| - 1] == rest[|rest| - 1];
      assert EndsInBareCr(rest) ==> (head + rest)[..|head| + |rest| - 1] == head + rest[..|rest| - 1];
    }
  }

  lemma OneByteMore(s: Bytes, n: nat)
    requires n < |s|
    ensures s[..n + 1] == s[..n] + [s[n]]
  {}

  lemma BreakSpells(text: Bytes)
    ensures text + [CR] + [LF] == text + [CR, LF]
  {}

  /** The line, its break and the rest are slices of the event. */
  lemma FirstLineSlices(event: Bytes, end: nat)
    requires end < |event| && IndexFrom(event, 0, [LF]) == Some(end)
    ensures var (line, lineBreak, rest) := FirstLine(event);
            line + lineBreak == event[..end + 1] && rest == event[end + 1..] && event[end] == LF
  {
    OccursByte(event, end, [LF], 0);
    OneByteMore(event, end);
    var line := event[..end];
    if line != [] && line[|line| - 1] == CR {
      OneByteMore(event, end - 1);
      assert line[..|line| - 1] == event[..end - 1];
      BreakSpells(event[..end - 1]);
    }
  }

  /** A line with its break and the rest of the event spell the event. */
  lemma FirstLineSpells(event: Bytes)
    requires event != []
    ensures var (line, lineBreak, rest) := FirstLine(event);
            line + lineBreak + DropBareCr(rest) == DropBareCr(event)
  {
    var end := IndexFrom(event, 0, [LF]);
    if end.Some? {
      FirstLineSlices(event, end.value);
      assert event == event[..end.value + 1] + event[end.value + 1..];
      DropBehindLineFeed(event[..end.value + 1], event[end.value + 1..]);
    } else {
      var (line, lineBreak, rest) := FirstLine(event);
      assert line + lineBreak + DropBareCr(rest) == line;
    }
  }

  lemma ConcatFirst(first: Bytes, lines: seq<Bytes>)
    ensures Concat([first] + lines) == first + Concat(lines)
  {
    assert ([first] + lines)[1..] == lines;
  }

  /** Rewriting an event without changes loses a CR at its very end and nothing else. */
  lemma {:induction false} RewriteKeeps(host: Host, event: Bytes)
    requires KeepsPayloads(host, event)
    ensures Concat(RewrittenLines(host, event)) == DropBareCr(event)
    decreases |event|
  {
    if event != [] {
      var (line, lineBreak, rest) := FirstLine(event);
      RewriteKeeps(host, rest);
      FirstLineSpells(event);
      assert RewriteLine(host, line, lineBreak) == line + lineBreak;
      ConcatFirst(line + lineBreak, RewrittenLines(host, rest));
    }
  }

  function Spell(events: seq<Event>): Bytes {
    if events == [] then [] else events[0].body + DelimiterBytes(events[0].delimiter) + Spell(events[1..])
  }

  /** The events and the rest are the buffer, byte for byte. */
  lemma {:induction false} ExtractSpells(buf: Bytes)
    ensures Spell(Extract(buf).0) + Extract(buf).1 == buf
    decreases |buf|
  {
    var (d, n) := EventDelimiter(buf);
    if n > 0 {
      DelimiterFits(buf);
      var event, rest := Event(buf[..d], n), buf[d + n..];
      ExtractFirst(buf, event, rest);
      ExtractSpells(rest);
      var (events, tail) := Extract(rest);
      SpellJoin(event, events, tail, rest);
      CutSpells(buf, d, n, DelimiterBytes(n));
    }
  }

  lemma SpellJoin(event: Event, events: seq<Event>, tail: Bytes, rest: Bytes)
    requires Spell(events) + tail == rest
    ensures Spell([event] + events) + tail == event.body + DelimiterBytes(event.delimiter) + rest
  {
    SpellFirst(event, events);
    Associative(event.body + DelimiterBytes(event.delimiter), Spell(events), tail);
  }

  lemma CutSpells(buf: Bytes, d: nat, n: nat, delimiter: Bytes)
    requires d + n <= |buf| && buf[d..d + n] == delimiter
    ensures buf[..d] + delimiter + buf[d + n..] == buf
  {}

  lemma SpellFirst(event: Event, more: seq<Event>)
    ensures Spell([event] + more) == event.body + DelimiterBytes(event.delimiter) + Spell(more)
  {
    assert ([event] + more)[1..] == more;
  }

  function BareCrs(events: seq<Event>): nat {
    if events == [] then 0 else (if EndsInBareCr(events[0].body) then 1 else 0) + BareCrs(events[1..])
  }

  lemma {:induction false} EmitKeeps(host: Host, events: seq<Event>)
    requires forall e :: e in events ==> KeepsPayloads(host, e.body)
    ensures |Concat(EmitAll(host, events))| + BareCrs(events) == |Spell(events)|
    ensures BareCrs(events) == 0 ==> Concat(EmitAll(host, events)) == Spell(events)
  {
    if events != [] {
      RewriteKeeps(host, events[0].body);
      EmitKeeps(host, events[1..]);
      assert EmitAll(host, events)[1..] == EmitAll(host, events[1..]);
    }
  }

  /** How many events of a text, the unterminated one included, end in a bare CR. */
  function LostCrs(text: Bytes): nat {
    BareCrs(Extract(text).0) + if EndsInBareCr(Extract(text).1) then 1 else 0
  }

  predicate KeepsAll(host: Host, text: Bytes) {
    (forall e :: e in Extract(text).0 ==> KeepsPayloads(host, e.body)) && KeepsPayloads(host, Extract(text).1)
  }

  lemma WholeKeeps(host: Host, text: Bytes)
    requires KeepsAll(host, text)
    ensures |Concat(WholeOutput(host, text))| + LostCrs(text) == |text|
    ensures LostCrs(text) == 0 ==> Concat(WholeOutput(host, text)) == text
  {
    var (events, rest) := Extract(text);
    EmitKeeps(host, events);
    RewriteKeeps(host, rest);
    ExtractSpells(text);
    ConcatAppend(EmitAll(host, events), RewrittenLines(host, rest));
  }

  /** With no payload changed and no line break inserted, the output is the input byte for byte
      exactly when no event ends in a bare CR; each such CR is lost. */
  lemma UnchangedStream(host: Host, chunks: seq<Bytes>)
    requires StartsAsSse(Concat(chunks)) && !host.restore([]).1
    requires WithinCap(host, EMPTY, Pieces([], chunks)) && Breaks(host, EMPTY, Pieces([], chunks)) == 0
    requires KeepsAll(host, Concat(chunks))
    ensures Concat(StreamOutput(host, chunks)) == Concat(chunks) <==> LostCrs(Concat(chunks)) == 0
    ensures |Concat(StreamOutput(host, chunks))| == |Concat(chunks)| - LostCrs(Concat(chunks))
  {
    assert [] + Concat(chunks) == Concat(chunks);
    EmptyIsNothing();
    StreamIsSse(host, [], chunks);
    ChunkingInvariance(host, chunks);
    FedLength(host, EMPTY, Pieces([], chunks));
    WholeKeeps(host, Concat(chunks));
  }

  /** With no payload changed and no bare CR, the output is the input exactly when no line break is inserted. */
  lemma UnbrokenStream(host: Host, chunks: seq<Bytes>)
    requires StartsAsSse(Concat(chunks)) && !host.restore([]).1
    requires WithinCap(host, EMPTY, Pieces([], chunks))
    requires var fed := Fed(host, EMPTY, Pieces([], chunks)); KeepsAll(host, fed) && LostCrs(fed) == 0
    ensures Concat(StreamOutput(host, chunks)) == Concat(chunks) <==> Breaks(host, EMPTY, Pieces([], chunks)) == 0
  {
    assert [] + Concat(chunks) == Concat(chunks);
    EmptyIsNothing();
    StreamIsSse(host, [], chunks);
    ChunkingInvariance(host, chunks);
    FedLength(host, EMPTY, Pieces([], chunks));
    WholeKeeps(host, Fed(host, EMPTY, Pieces([], chunks)));
  }
}
