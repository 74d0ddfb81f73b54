/** The append-only audit journal of one day: writes may be torn at any byte, the lines that survive are decoded. */
module AuditJournal {
  import opened Common

  datatype Change = Change(before: Bytes, after: Bytes)

  /** An absent map and an empty one read the same. Times count from Go's zero time. */
  datatype Event = Event(
    version: int, id: string, phase: string, at: int, actor: string, action: string, owner: string,
    objectType: string, objectRef: string, objectLabel: string, labels: map<string, string>, outcome: string,
    changed: Option<bool>, changes: map<string, Change>, errorCode: string)

  /** The JSON encoding of an event, and the strict decoder of one line. */
  datatype Codec = Codec(encode: Event -> Bytes, decode: Bytes -> Option<Event>)

  /** One JSON object per line: no newline inside, and cut anywhere it is no longer an object. */
  ghost predicate ValidCodec(c: Codec) {
    && (forall e :: c.encode(e) != [] && LF !in c.encode(e) && c.decode(c.encode(e)) == Some(e))
    && (forall e, n :: 0 <= n < |c.encode(e)| ==> c.decode(c.encode(e)[..n]) == None)
  }

  // ----------------------------------------------------------------- the append

  /** What the file system did with one append: refused before writing, or let `landed` bytes through. */
  datatype Disk = Refused | Wrote(landed: nat, writeError: bool, syncError: bool)

  function Separator(data: Bytes): Bytes {
    if data != [] && data[|data| - 1] != LF then [LF] else []
  }

  function RawLine(c: Codec, data: Bytes, e: Event): Bytes { Separator(data) + c.encode(e) + [LF] }

  predicate Possible(io: Disk, raw: Bytes) { io.Wrote? ==> io.landed <= |raw| }

  function Landed(io: Disk): nat { if io.Refused? then 0 else io.landed }

  /** The append reported success. */
  predicate Succeeds(io: Disk, raw: Bytes) {
    io.Wrote? && !io.writeError && io.landed == |raw| && !io.syncError
  }

  function AfterAppend(c: Codec, data: Bytes, e: Event, io: Disk): Bytes
    requires Possible(io, RawLine(c, data, e))
  {
    data + RawLine(c, data, e)[..Landed(io)]
  }

  // -------------------------------------------------------------------- lines

  /** The lines that end in a newline. */
  function Lines(d: Bytes): seq<Bytes> {
    if d == [] then []
    else if d[|d| - 1] == LF then Lines(d[..|d| - 1]) + [Tail(d[..|d| - 1])]
    else Lines(d[..|d| - 1])
  }

  /** What follows the last newline. */
  function Tail(d: Bytes): Bytes {
    if d == [] || d[|d| - 1] == LF then [] else Tail(d[..|d| - 1]) + [d[|d| - 1]]
  }

  lemma TakeOne(d: Bytes, b: byte)
    ensures Lines(d + [b]) == if b == LF then Lines(d) + [Tail(d)] else Lines(d)
    ensures Tail(d + [b]) == if b == LF then [] else Tail(d) + [b]
  {
    assert (d + [b])[..|d|] == d;
  }

  lemma {:induction false} TakeText(d: Bytes, r: Bytes)
    requires LF !in r
    ensures Lines(d + r) == Lines(d) && Tail(d + r) == Tail(d) + r
  {
    if r == [] {
      assert d + r == d && Tail(d) + r == Tail(d);
    } else {
      var init, last := r[..|r| - 1], r[|r| - 1];
      assert r == init + [last] && LF !in init;
      TakeText(d, init);
      TakeOne(d + init, last);
      Associative(d, init, [last]);
      Associative(Tail(d), init, [last]);
    }
  }

  /** The lines and the tail are the file cut at every newline. */
  lemma {:induction false} LinesSpell(d: Bytes)
    ensures d == Ended(Lines(d)) + Tail(d) && LF !in Tail(d)
    ensures forall l :: l in Lines(d) ==> LF !in l
  {
    if d != [] {
      LinesSpell(d[..|d| - 1]);
      var init := d[..|d| - 1];
      assert d == init + [d[|d| - 1]];
      EndedAppend(Lines(init), Tail(init));
    }
  }

  /** Every line with its newline, one after the other. */
  function Ended(lines: seq<Bytes>): Bytes {
    if lines == [] then [] else lines[0] + [LF] + Ended(lines[1..])
  }

  lemma {:induction false} EndedAppend(lines: seq<Bytes>, l: Bytes)
    ensures Ended(lines + [l]) == Ended(lines) + l + [LF]
  {
    if lines == [] {
      assert [l][1..] == [];
    } else {
      EndedAppend(lines[1..], l);
      assert (lines + [l])[1..] == lines[1..] + [l];
    }
  }

  // ------------------------------------------------------------------ decoding

  function DecodeLines(c: Codec, lines: seq<Bytes>): seq<Event> {
    if lines == [] then []
    else
      var e := c.decode(lines[0]);
      (if e.Some? then [e.value] else []) + DecodeLines(c, lines[1..])
  }

  lemma {:induction false} DecodeAppend(c: Codec, a: seq<Bytes>, b: seq<Bytes>)
    ensures DecodeLines(c, a + b) == DecodeLines(c, a) + DecodeLines(c, b)
  {
    if a == [] {
      assert a + b == b;
    } else {
      DecodeAppend(c, a[1..], b);
      assert (a + b)[1..] == a[1..] + b;
      var e := c.decode(a[0]);
      Associative(if e.Some? then [e.value] else [], DecodeLines(c, a[1..]), DecodeLines(c, b));
    }
  }

  /** The events the reader finds. */
  function Decoded(c: Codec, d: Bytes): seq<Event> { DecodeLines(c, Lines(d)) }

  /** The events it would find if the file got one more newline. */
  function Flushed(c: Codec, d: Bytes): seq<Event> { Decoded(c, d) + DecodeLines(c, [Tail(d)]) }

  lemma TailEmptyAfterLine(d: Bytes)
    ensures Separator(d) == [] <==> Tail(d) == []
  {}

  /** After the separator the file ends in a whole line, whose decoding is what was flushed. */
  lemma Separated(c: Codec, d: Bytes)
    requires ValidCodec(c)
    ensures Tail(d + Separator(d)) == [] && Decoded(c, d + Separator(d)) == Flushed(c, d)
  {
    TailEmptyAfterLine(d);
    NothingDecodesEmpty(c);
    if Separator(d) == [] {
      assert d + Separator(d) == d;
    } else {
      TakeOne(d, LF);
      DecodeAppend(c, Lines(d), [Tail(d)]);
    }
  }

  lemma NothingDecodesEmpty(c: Codec)
    requires ValidCodec(c)
    ensures DecodeLines(c, [[]]) == []
  {
    var e := Event(0, "", "", 0, "", "", "", "", "", "", map[], "", None, map[], "");
    assert c.encode(e)[..0] == [];
  }

  lemma DecodeOne(c: Codec, l: Bytes)
    ensures DecodeLines(c, [l]) == if c.decode(l).Some? then [c.decode(l).value] else []
  {
    assert [l][1..] == [];
  }

  /** Text of an event after a separated file. */
  lemma PartOfEvent(c: Codec, d: Bytes, e: Event, k: nat)
    requires ValidCodec(c) && Tail(d) == [] && k <= |c.encode(e)|
    ensures var d' := d + c.encode(e)[..k];
            Tail(d') == c.encode(e)[..k] && Decoded(c, d') == Decoded(c, d) &&
            Flushed(c, d') == Decoded(c, d) + if k == |c.encode(e)| then [e] else []
  {
    TakeText(d, c.encode(e)[..k]);
    DecodeOne(c, c.encode(e)[..k]);
    assert k == |c.encode(e)| ==> c.encode(e)[..k] == c.encode(e);
  }

  /** One append that lets some bytes through, wherever it is cut: what was there becomes readable, nothing is
      merged, and the new event is there when its text is complete. */
  lemma AppendDecoded(c: Codec, d: Bytes, e: Event, n: nat)
    requires ValidCodec(c) && 0 < n <= |RawLine(c, d, e)|
    ensures var raw := RawLine(c, d, e); var d' := d + raw[..n];
            && Decoded(c, d') == Flushed(c, d) + (if n == |raw| then [e] else [])
            && Flushed(c, d') == Flushed(c, d) + (if n + 1 >= |raw| then [e] else [])
  {
    var raw, sep, text := RawLine(c, d, e), Separator(d), c.encode(e);
    var base := d + sep;
    Separated(c, d);
    if n < |raw| {
      var k := n - |sep|;
      assert d + raw[..n] == base + text[..k];
      PartOfEvent(c, base, e, k);
    } else {
      assert raw[..n] == raw && d + raw == (base + text) + [LF];
      WholeEvent(c, base, e);
    }
  }

  /** The text of an event and its newline after a separated file. */
  lemma WholeEvent(c: Codec, d: Bytes, e: Event)
    requires ValidCodec(c) && Tail(d) == []
    ensures var d' := d + c.encode(e) + [LF];
            Decoded(c, d') == Decoded(c, d) + [e] && Flushed(c, d') == Decoded(c, d) + [e]
  {
    var text := c.encode(e);
    PartOfEvent(c, d, e, |text|);
    assert text[..|text|] == text;
    TakeOne(d + text, LF);
    DecodeAppend(c, Lines(d + text), [Tail(d + text)]);
    NothingDecodesEmpty(c);
  }

  // ------------------------------------------------------- any run of appends

  datatype Attempt = Attempt(event: Event, io: Disk)

  /** One append as it went: the event, the bytes it asked for and the bytes that landed. */
  datatype Entry = Entry(event: Event, size: nat, landed: nat)

  ghost predicate PossibleRun(c: Codec, d: Bytes, attempts: seq<Attempt>)
    decreases |attempts|
  {
    attempts == [] ||
    (Possible(attempts[0].io, RawLine(c, d, attempts[0].event)) &&
     PossibleRun(c, AfterAppend(c, d, attempts[0].event, attempts[0].io), attempts[1..]))
  }

  ghost function AfterRun(c: Codec, d: Bytes, attempts: seq<Attempt>): Bytes
    requires PossibleRun(c, d, attempts)
    decreases |attempts|
  {
    if attempts == [] then d
    else AfterRun(c, AfterAppend(c, d, attempts[0].event, attempts[0].io), attempts[1..])
  }

  ghost function Log(c: Codec, d: Bytes, attempts: seq<Attempt>): seq<Entry>
    requires PossibleRun(c, d, attempts)
    decreases |attempts|
  {
    if attempts == [] then []
    else
      [Entry(attempts[0].event, |RawLine(c, d, attempts[0].event)|, Landed(attempts[0].io))] +
      Log(c, AfterAppend(c, d, attempts[0].event, attempts[0].io), attempts[1..])
  }

  predicate Touched(log: seq<Entry>) { log != [] && (log[0].landed > 0 || Touched(log[1..])) }

  /** All of the event's text landed, with or without its newline. */
  predicate Whole(x: Entry) { x.landed + 1 >= x.size }

  function WholeEvents(log: seq<Entry>): seq<Event> {
    if log == [] then [] else (if Whole(log[0]) then [log[0].event] else []) + WholeEvents(log[1..])
  }

  /** The events whose text landed and got a newline, their own or the separator of a later append. */
  function Survivors(log: seq<Entry>): seq<Event> {
    if log == [] then []
    else
      (if Whole(log[0]) && (log[0].landed == log[0].size || Touched(log[1..])) then [log[0].event] else []) +
      Survivors(log[1..])
  }

  /** After any run of appends, each of which may leave only a prefix of its line, the reader finds what the file
      held before and then exactly the surviving events, in order. */
  lemma {:induction false} RunIsRecovered(c: Codec, d: Bytes, attempts: seq<Attempt>)
    requires ValidCodec(c) && PossibleRun(c, d, attempts)
    ensures Decoded(c, AfterRun(c, d, attempts)) ==
            (if Touched(Log(c, d, attempts)) then Flushed(c, d) else Decoded(c, d)) + Survivors(Log(c, d, attempts))
    decreases |attempts|
  {
    if attempts != [] {
      var e, io := attempts[0].event, attempts[0].io;
      var d' := AfterAppend(c, d, e, io);
      RunIsRecovered(c, d', attempts[1..]);
      LogStep(c, d, attempts);
      if Landed(io) == 0 {
        assert d' == d;
      } else {
        AppendDecoded(c, d, e, Landed(io));
      }
      SurvivorsStep(Log(c, d, attempts), Decoded(c, d), Flushed(c, d), Decoded(c, d'), Flushed(c, d'));
    }
  }

  /** The first append of a run: what it makes readable is what it adds to the survivors. */
  lemma SurvivorsStep(log: seq<Entry>, decoded: seq<Event>, flushed: seq<Event>, decoded': seq<Event>,
      flushed': seq<Event>)
    requires log != [] && log[0].landed <= log[0].size && log[0].size >= 2
    requires log[0].landed == 0 ==> decoded' == decoded && flushed' == flushed
    requires log[0].landed > 0 ==> decoded' == flushed + (if log[0].landed == log[0].size then [log[0].event] else [])
    requires log[0].landed > 0 ==> flushed' == flushed + (if Whole(log[0]) then [log[0].event] else [])
    ensures (if Touched(log[1..]) then flushed' else decoded') + Survivors(log[1..]) ==
            (if Touched(log) then flushed else decoded) + Survivors(log)
  {
    var own := if Whole(log[0]) && (log[0].landed == log[0].size || Touched(log[1..])) then [log[0].event] else [];
    Associative(flushed, own, Survivors(log[1..]));
    if log[0].landed == 0 {
      assert own == [] && [] + Survivors(log[1..]) == Survivors(log[1..]);
    } else {
      assert flushed + [] == flushed;
      assert (if Touched(log[1..]) then flushed' else decoded') == flushed + own;
    }
  }

  lemma LogStep(c: Codec, d: Bytes, attempts: seq<Attempt>)
    requires ValidCodec(c) && PossibleRun(c, d, attempts) && attempts != []
    ensures var e, io := attempts[0].event, attempts[0].io;
            var log := Log(c, d, attempts);
            log != [] && log[0] == Entry(e, |RawLine(c, d, e)|, Landed(io)) && log[0].size >= 2 &&
            log[1..] == Log(c, AfterAppend(c, d, e, io), attempts[1..])
  {
    assert c.encode(attempts[0].event) != [];
  }

  lemma {:induction false} SurvivorsConcat(a: seq<Entry>, b: seq<Entry>)
    requires Touched(b)
    ensures Survivors(a + b) == WholeEvents(a) + Survivors(b) && Touched(a + b)
  {
    if a == [] {
      assert a + b == b;
    } else {
      var own := if Whole(a[0]) then [a[0].event] else [];
      SurvivorsConcat(a[1..], b);
      assert (a + b)[0] == a[0] && (a + b)[1..] == a[1..] + b;
      assert Survivors(a + b) == own + Survivors(a[1..] + b);
      Associative(own, WholeEvents(a[1..]), Survivors(b));
    }
  }

  /** A completed append is decoded exactly once, after the events appended before it and before those after it,
      whatever was torn around it. */
  lemma CompletedIsDecodedOnce(c: Codec, d: Bytes, attempts: seq<Attempt>, i: nat)
    requires ValidCodec(c) && PossibleRun(c, d, attempts) && i < |attempts|
    ensures |Log(c, d, attempts)| == |attempts|
    ensures var log := Log(c, d, attempts);
            log[i].event == attempts[i].event &&
            (log[i].landed == log[i].size ==>
              Decoded(c, AfterRun(c, d, attempts)) ==
              Flushed(c, d) + WholeEvents(log[..i]) + [attempts[i].event] + Survivors(log[i + 1..]))
  {
    RunIsRecovered(c, d, attempts);
    LogEvents(c, d, attempts);
    var log := Log(c, d, attempts);
    if log[i].landed == log[i].size {
      var rest := log[i..];
      assert rest[0] == log[i] && rest[1..] == log[i + 1..] && log == log[..i] + rest;
      SurvivorsConcat(log[..i], rest);
      SpellOut(Flushed(c, d), WholeEvents(log[..i]), [attempts[i].event], Survivors(log[i + 1..]));
      assert Survivors(rest) == [attempts[i].event] + Survivors(log[i + 1..]);
    }
  }

  lemma SpellOut(a: seq<Event>, b: seq<Event>, x: seq<Event>, y: seq<Event>)
    ensures a + (b + (x + y)) == a + b + x + y
  {}

  lemma {:induction false} LogEvents(c: Codec, d: Bytes, attempts: seq<Attempt>)
    requires ValidCodec(c) && PossibleRun(c, d, attempts)
    ensures var log := Log(c, d, attempts);
            |log| == |attempts| &&
            forall i :: 0 <= i < |log| ==> log[i].event == attempts[i].event && log[i].size >= 2
    decreases |attempts|
  {
    if attempts != [] {
      LogEvents(c, AfterAppend(c, d, attempts[0].event, attempts[0].io), attempts[1..]);
      LogStep(c, d, attempts);
    }
  }

  // --------------------------------------------------------------- the journal

  /** The files by path, and the tables of this process. */
  datatype Journal = Journal(files: map<string, Bytes>, running: map<string, string>, unconfirmed: map<string, string>)

  datatype Ticket = Ticket(id: string, path: string, startedAt: int)

  function FileAt(files: map<string, Bytes>, path: string): Bytes { if path in files then files[path] else [] }

  function StartOf(e: Event, id: string, at: int): Event { e.(version := 2, id := id, phase := "start", at := at) }

  function FinishOf(e: Event, id: string, at: int): Event { e.(version := 2, id := id, phase := "finish", at := at) }

  predicate Accepts(c: Codec, j: Journal, path: string, e: Event, io: Disk) {
    Possible(io, RawLine(c, FileAt(j.files, path), e))
  }

  function Append(c: Codec, j: Journal, path: string, e: Event, io: Disk): Journal
    requires Accepts(c, j, path, e, io)
  {
    if io.Refused? then j else j.(files := j.files[path := AfterAppend(c, FileAt(j.files, path), e, io)])
  }

  predicate Confirmed(c: Codec, j: Journal, path: string, e: Event, io: Disk) {
    Succeeds(io, RawLine(c, FileAt(j.files, path), e))
  }

  function Begin(c: Codec, j: Journal, path: string, id: string, e: Event, at: int, io: Disk): Journal
    requires Accepts(c, j, path, StartOf(e, id, at), io)
  {
    var start := StartOf(e, id, at);
    var j' := Append(c, j, path, start, io);
    if Confirmed(c, j, path, start, io) then j'.(running := j'.running[id := path]) else j'
  }

  function Finish(c: Codec, j: Journal, ticket: Ticket, e: Event, at: int, io: Disk): Journal
    requires Accepts(c, j, ticket.path, FinishOf(e, ticket.id, at), io)
  {
    var fin := FinishOf(e, ticket.id, at);
    var j' := Append(c, j, ticket.path, fin, io);
    j'.(running := j'.running - {ticket.id},
        unconfirmed := if Confirmed(c, j, ticket.path, fin, io) then j'.unconfirmed
                       else j'.unconfirmed[ticket.id := ticket.path])
  }

  class AuditLog {
    const codec: Codec
    var files: map<string, Bytes>
    var running: map<string, string>
    var unconfirmed: map<string, string>

    function State(): Journal
      reads this
    {
      Journal(files, running, unconfirmed)
    }

    constructor (codec: Codec, files: map<string, Bytes>)
      ensures this.codec == codec && State() == Journal(files, map[], map[])
    {
      this.codec := codec;
      this.files := files;
      running := map[];
      unconfirmed := map[];
    }

    method AppendAuditEvent(path: string, e: Event, io: Disk) returns (ok: bool)
      requires Accepts(codec, State(), path, e, io)
      modifies `files
      ensures State() == Append(codec, old(State()), path, e, io)
      ensures ok <==> Confirmed(codec, old(State()), path, e, io)
    {
      var raw := codec.encode(e);
      var prefix := false;
      if path in files && files[path] != [] {
        prefix := files[path][|files[path]| - 1] != LF;
      }
      if io.Refused? {
        return false;
      }
      if prefix {
        raw := [LF] + raw;
      }
      raw := raw + [LF];
      assert raw == RawLine(codec, FileAt(files, path), e);
      files := files[path := FileAt(files, path) + raw[..io.landed]];
      if io.writeError {
        return false;
      }
      if io.landed != |raw| {
        return false;
      }
      ok := !io.syncError;
    }

    method BeginAudit(path: string, id: string, e: Event, now: int, io: Disk) returns (ticket: Option<Ticket>)
      requires Accepts(codec, State(), path, StartOf(e, id, now), io)
      modifies `files, `running
      ensures State() == Begin(codec, old(State()), path, id, e, now, io)
      ensures ticket == if Confirmed(codec, old(State()), path, StartOf(e, id, now), io) then
              Some(Ticket(id, path, now)) else None
    {
      var ok := AppendAuditEvent(path, StartOf(e, id, now), io);
      if !ok {
        return None;
      }
      running := running[id := path];
      ticket := Some(Ticket(id, path, now));
    }

    method FinishAudit(ticket: Ticket, e: Event, now: int, io: Disk) returns (ok: bool)
      requires Accepts(codec, State(), ticket.path, FinishOf(e, ticket.id, now), io)
      modifies `files, `running, `unconfirmed
      ensures State() == Finish(codec, old(State()), ticket, e, now, io)
      ensures ok <==> Confirmed(codec, old(State()), ticket.path, FinishOf(e, ticket.id, now), io)
    {
      ok := AppendAuditEvent(ticket.path, FinishOf(e, ticket.id, now), io);
      if !ok {
        unconfirmed := unconfirmed[ticket.id := ticket.path];
      }
      running := running - {ticket.id};
    }
  }
}
