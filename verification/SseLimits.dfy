/** Where the event buffer cuts, how it goes on from piece to piece, and what an event that never ends becomes. */
module SseLimits {
  import opened Common
  import opened SseStream
  import opened SseChunking
  import opened SseClient
  import opened SseSeams

  // ------------------------------------------------------------------------- cuts

  /** A blank line, in either spelling, starts at `i`. */
  predicate BlankLineAt(s: Bytes, i: int) {
    OccursAt(s, i, Ascii("\n\n")) || OccursAt(s, i, Ascii("\r\n\r\n"))
  }

  predicate NoneBefore(s: Bytes, d: nat) { forall i :: 0 <= i < d ==> !BlankLineAt(s, i) }

  /** An event ends at the first blank line of the text, whichever its spelling. */
  lemma FirstBlankLine(buf: Bytes)
    ensures var (d, n) := EventDelimiter(buf);
            match n
            case 0 => NoneBefore(buf, |buf|)
            case 2 => NoneBefore(buf, d) && OccursAt(buf, d, Ascii("\n\n"))
            case 4 => NoneBefore(buf, d) && OccursAt(buf, d, Ascii("\r\n\r\n"))
            case _ => false
  {
    BlankLines();
  }

  lemma BlankLines()
    ensures Ascii("\n\n") == [LF, LF] && Ascii("\r\n\r\n") == [CR, LF, CR, LF]
  {}

  /** The text is cut behind every blank line in turn: no event has one before its own, and the rest has none. With
      `SseChunking.ExtractSpells` this fixes the events. */
  lemma {:induction false} CutAtBlankLines(buf: Bytes)
    ensures forall e :: e in Extract(buf).0 ==>
              (e.delimiter == 2 || e.delimiter == 4) && NoneBefore(e.body + DelimiterBytes(e.delimiter), |e.body|)
    ensures NoneBefore(Extract(buf).1, |Extract(buf).1|)
    decreases |buf|
  {
    var (d, n) := EventDelimiter(buf);
    FirstBlankLine(buf);
    if n > 0 {
      DelimiterFits(buf);
      ExtractOne(buf);
      CutAtBlankLines(buf[d + n..]);
      CutAt(buf, d, n, DelimiterBytes(n));
    }
  }

  lemma CutAt(buf: Bytes, d: nat, n: nat, delimiter: Bytes)
    requires d + n <= |buf| && buf[d..d + n] == delimiter && NoneBefore(buf, d)
    ensures NoneBefore(buf[..d] + delimiter, d)
  {
    assert buf == buf[..d] + delimiter + buf[d + n..];
    NoneInPrefix(buf[..d] + delimiter, buf[d + n..], d);
  }

  lemma NoneInPrefix(a: Bytes, b: Bytes, d: nat)
    requires NoneBefore(a + b, d)
    ensures NoneBefore(a, d)
  {
    forall i | 0 <= i < d ensures !BlankLineAt(a, i) {
      assert !BlankLineAt(a + b, i);
      if i + 2 <= |a| {
        OccursInPrefix(a, b, i, Ascii("\n\n"));
      }
      if i + 4 <= |a| {
        OccursInPrefix(a, b, i, Ascii("\r\n\r\n"));
      }
    }
  }

  // ------------------------------------------------------------------ piece by piece

  lemma {:induction false} SeamedConcat(before: Bytes, a: seq<Bytes>, b: seq<Bytes>)
    ensures Seamed(before, a + b) == Seamed(Seamed(before, a), b)
    decreases |a|
  {
    if a == [] {
      assert a + b == b;
    } else {
      assert (a + b)[0] == a[0] && (a + b)[1..] == a[1..] + b;
      var added := (if SplitsLine(before, a[0]) then [LF] else []) + a[0];
      SeamedFirst(before, a, added);
      SeamedFirst(before, a + b, added);
      SeamedConcat(before + added, a[1..], b);
    }
  }

  lemma SeamedOne(before: Bytes, p: Bytes)
    ensures Seamed(before, [p]) == before + (if SplitsLine(before, p) then [LF] else []) + p
  {
    assert [p][1..] == [];
  }

  lemma {:induction false} WithinCapOfConcat(host: Host, st: SseState, a: seq<Bytes>, b: seq<Bytes>)
    ensures WithinCap(host, st, a + b) <==> WithinCap(host, st, a) && WithinCap(host, SseRun(host, st, a).0, b)
    decreases |a|
  {
    if a == [] {
      assert a + b == b;
    } else {
      assert (a + b)[0] == a[0] && (a + b)[1..] == a[1..] + b;
      WithinCapOfConcat(host, SseWrite(host, st, a[0]).0, a[1..], b);
    }
  }

  lemma {:induction false} RunConcat(host: Host, st: SseState, a: seq<Bytes>, b: seq<Bytes>)
    ensures var (middle, out) := SseRun(host, st, a); var (last, more) := SseRun(host, middle, b);
            SseRun(host, st, a + b) == (last, out + more)
    decreases |a|
  {
    if a == [] {
      assert a + b == b;
      assert [] + SseRun(host, st, b).1 == SseRun(host, st, b).1;
    } else {
      assert (a + b)[0] == a[0] && (a + b)[1..] == a[1..] + b;
      var (next, first) := SseWrite(host, st, a[0]);
      RunConcat(host, next, a[1..], b);
      var (middle, out) := SseRun(host, next, a[1..]);
      Associative(first, out, SseRun(host, middle, b).1);
    }
  }

  /** The state of a run within the cap: the rest of the seamed text behind its last delimiter. */
  lemma StateIs(host: Host, a: seq<Bytes>)
    requires WithinCap(host, EMPTY, a)
    ensures SseRun(host, EMPTY, a) ==
            (SseState(Extract(Seamed([], a)).1, false), EmitAll(host, Extract(Seamed([], a)).0))
  {
    var none: Bytes := [];
    assert Extract(none) == ([], none);
    var events, tail := RunIsExtract(host, none, a);
    FedIs(host, a);
    assert none + Fed(host, EMPTY, a) == Fed(host, EMPTY, a);
  }

  /** One more write behind a run. */
  lemma WriteBehind(host: Host, a: seq<Bytes>, p: Bytes)
    requires WithinCap(host, EMPTY, a)
    ensures var (events, rest) := Extract(Seamed([], a + [p]));
            SseRun(host, EMPTY, a + [p]) ==
            if |rest| > 8_388_608 then (SseState([], true), EmitAll(host, events) + [rest])
            else (SseState(rest, false), EmitAll(host, events))
  {
    var text := Seamed([], a);
    var st := SseState(Extract(text).1, false);
    var added := Added(st.buf, p);
    StateIs(host, a);
    RunConcat(host, EMPTY, a, [p]);
    assert [p][1..] == [];
    assert SseRun(host, st, [p]) == (SseWrite(host, st, p).0, SseWrite(host, st, p).1 + []);
    BreakIsSeam(text, p);
    SeamedConcat([], a, [p]);
    SeamedOne(text, p);
    Associative(text, if SplitsLine(text, p) then [LF] else [], p);
    ExtractMore(text, added);
    var (first, more) := (Extract(text).0, Extract(st.buf + added).0);
    EmitAllConcat(host, first, more);
    var none: seq<Bytes> := [];
    assert SseWrite(host, st, p).1 + none == SseWrite(host, st, p).1;
    Associative(EmitAll(host, first), EmitAll(host, more), [Extract(st.buf + added).1]);
  }

  /** How many bytes wait for a delimiter. */
  function Waiting(text: Bytes): nat { |Extract(text).1| }

  lemma OneMorePiece(host: Host, a: seq<Bytes>, p: Bytes)
    ensures WithinCap(host, EMPTY, a + [p]) <==>
            WithinCap(host, EMPTY, a) && Waiting(Seamed([], a + [p])) <= 8_388_608
  {
    WithinCapOfConcat(host, EMPTY, a, [p]);
    if WithinCap(host, EMPTY, a) {
      assert [p][1..] == [];
      WriteBehind(host, a, p);
      RunConcat(host, EMPTY, a, [p]);
    }
  }

  /** After every write at most 8388608 bytes wait for a delimiter. */
  predicate StaysSmall(pieces: seq<Bytes>) {
    pieces == [] || (StaysSmall(pieces[..|pieces| - 1]) && Waiting(Seamed([], pieces)) <= 8_388_608)
  }

  /** A run stays within the cap exactly then. */
  lemma {:induction false} WithinCapIs(host: Host, pieces: seq<Bytes>)
    ensures WithinCap(host, EMPTY, pieces) <==> StaysSmall(pieces)
    decreases |pieces|
  {
    if pieces != [] {
      var k := |pieces| - 1;
      assert pieces == pieces[..k] + [pieces[k]];
      WithinCapIs(host, pieces[..k]);
      OneMorePiece(host, pieces[..k], pieces[k]);
    }
  }

  /** What a piece adds to the text, and that a line feed put before it keeps the lines on its two sides apart. */
  lemma NextPiece(host: Host, pieces: seq<Bytes>, p: Bytes)
    requires WithinCap(host, EMPTY, pieces + [p])
    ensures WithinCap(host, EMPTY, pieces)
    ensures var text, more := Fed(host, EMPTY, pieces), Fed(host, EMPTY, pieces + [p]);
            more == text + (if SplitsLine(text, p) then [LF] else []) + p &&
            (SplitsLine(text, p) ==> ClientLines(more) == ClientLines(text) + ClientLines(p))
  {
    WithinCapOfConcat(host, EMPTY, pieces, [p]);
    FedIs(host, pieces);
    FedIs(host, pieces + [p]);
    SeamedConcat([], pieces, [p]);
    var text := Seamed([], pieces);
    SeamedOne(text, p);
    if SplitsLine(text, p) {
      SeamSeparates(text, p);
    }
  }

  // --------------------------------------------------------------------- overflow

  lemma {:induction false} OverflowedRun(host: Host, pieces: seq<Bytes>)
    ensures SseRun(host, SseState([], true), pieces) == (SseState([], true), pieces)
    decreases |pieces|
  {
    if pieces != [] {
      OverflowedRun(host, pieces[1..]);
      assert pieces == [pieces[0]] + pieces[1..];
    }
  }

  /** Once more than the cap waits for a delimiter, the waiting bytes and every later write go out as they are. */
  lemma OverflowPassesThrough(host: Host, a: seq<Bytes>, p: Bytes, b: seq<Bytes>)
    requires WithinCap(host, EMPTY, a) && |Extract(Seamed([], a + [p])).1| > 8_388_608
    ensures var (events, rest) := Extract(Seamed([], a + [p]));
            SseOutput(host, a + [p] + b) == EmitAll(host, events) + [rest] + b
  {
    WriteBehind(host, a, p);
    RunConcat(host, EMPTY, a + [p], b);
    OverflowedRun(host, b);
    var (events, rest) := Extract(Seamed([], a + [p]));
    var out, none: seq<Bytes> := EmitAll(host, events) + [rest] + b, [];
    assert out + none == out;
  }

  /** So with no payload changed and no bare CR, every byte of the seamed text and of the later writes arrives. */
  lemma OverflowLosesNothing(host: Host, a: seq<Bytes>, p: Bytes, b: seq<Bytes>)
    requires WithinCap(host, EMPTY, a) && |Extract(Seamed([], a + [p])).1| > 8_388_608
    requires var (events, rest) := Extract(Seamed([], a + [p]));
             BareCrs(events) == 0 && forall e :: e in events ==> KeepsPayloads(host, e.body)
    ensures Concat(SseOutput(host, a + [p] + b)) == Seamed([], a + [p]) + Concat(b)
  {
    var text := Seamed([], a + [p]);
    var (events, rest) := Extract(text);
    OverflowPassesThrough(host, a, p, b);
    EmitKeeps(host, events);
    ExtractSpells(text);
    ConcatAppend(EmitAll(host, events) + [rest], b);
    ConcatAppend(EmitAll(host, events), [rest]);
    assert [rest][1..] == [] && rest + [] == rest;
  }
}
