/** Rewriting works line by line and leaves the event delimiters where they were. */
module SseFraming {
  import opened Common
  import opened SseStream
  import opened SseChunking

  /** Restored payloads fit on one line, as JSON without line breaks does. */
  ghost predicate SingleLine(host: Host) {
    forall v :: host.restore(v).1 ==> LF !in host.restore(v).0 && !EndsInBareCr(host.restore(v).0)
  }

  // ------------------------------------------------------------------ line by line

  datatype Line = Line(text: Bytes, lineBreak: Bytes)

  function LinesOf(event: Bytes): seq<Line>
    decreases |event|
  {
    if event == [] then []
    else
      var (text, lineBreak, rest) := FirstLine(event);
      [Line(text, lineBreak)] + LinesOf(rest)
  }

  function Restored(host: Host, l: Line): Line { Line(RewriteLine(host, l.text, []), l.lineBreak) }

  function RestoredLines(host: Host, lines: seq<Line>): seq<Line> {
    if lines == [] then [] else [Restored(host, lines[0])] + RestoredLines(host, lines[1..])
  }

  /** A line and its break are cut off again. */
  lemma FirstLineIs(text: Bytes, lineBreak: Bytes, rest: Bytes)
    requires LF !in text && (lineBreak == [CR, LF] || !EndsInBareCr(text))
    requires lineBreak == [LF] || lineBreak == [CR, LF] || (lineBreak == [] && rest == [] && text != [])
    ensures text + lineBreak + rest != [] && FirstLine(text + lineBreak + rest) == (text, lineBreak, rest)
  {
    var s := text + lineBreak + rest;
    if lineBreak == [] {
      assert s == text;
      NoLineFeed(s);
    } else {
      var k := |text| + |lineBreak| - 1;
      assert s[k..k + 1] == [LF];
      forall j | 0 <= j < k ensures !OccursAt(s, j, [LF]) {
        assert s[j..j + 1] == [s[j]];
        assert s[j] == (text + lineBreak)[j];
      }
      IndexIs(s, [LF], k);
      assert s[..k] == if lineBreak == [LF] then text else text + [CR];
      assert s[k + 1..] == rest;
    }
  }

  lemma NoLineFeed(s: Bytes)
    requires LF !in s
    ensures IndexFrom(s, 0, [LF]).None?
  {
    forall j | 0 <= j < |s| ensures !OccursAt(s, j, [LF]) {
      assert s[j..j + 1] == [s[j]];
    }
  }

  /** What the first line of an event is, and that it spells the event unless a CR ends it. */
  lemma FirstLineFacts(event: Bytes)
    requires event != [] && !EndsInBareCr(event)
    ensures var (text, lineBreak, rest) := FirstLine(event);
            && event == text + lineBreak + rest && LF !in text && (lineBreak == [CR, LF] || !EndsInBareCr(text))
            && (lineBreak == [LF] || lineBreak == [CR, LF] || (lineBreak == [] && rest == [] && text != []))
            && !EndsInBareCr(rest)
  {
    var end := IndexFrom(event, 0, [LF]);
    forall j | 0 <= j < (if end.Some? then end.value else |event|) ensures event[j] != LF {
      assert event[j..j + 1] == [event[j]];
      assert !OccursAt(event, j, [LF]);
    }
    if end.Some? {
      OccursByte(event, end.value, [LF], 0);
      assert event == event[..end.value] + [LF] + event[end.value + 1..];
    }
  }

  lemma RestoredIsOneLine(host: Host, text: Bytes)
    requires SingleLine(host) && LF !in text
    ensures var r := RewriteLine(host, text, []);
            LF !in r && (r == [] <==> text == []) && (!EndsInBareCr(text) ==> !EndsInBareCr(r))
  {
    assert text + [] == text;
    if DATA <= text {
      var value := TrimSpace(text[|DATA|..]);
      var (restored, changed) := host.restore(value);
      if changed && value != [] && value != DONE {
        var r := DATA + [SPACE] + restored;
        assert r + [] == r && r[|r| - 1] == if restored == [] then SPACE else restored[|restored| - 1];
      }
    }
  }

  lemma BreakLast(host: Host, text: Bytes, lineBreak: Bytes)
    ensures RewriteLine(host, text, lineBreak) == RewriteLine(host, text, []) + lineBreak
  {
    assert text + [] == text;
    if DATA <= text {
      var restored := host.restore(TrimSpace(text[|DATA|..])).0;
      assert DATA + [SPACE] + restored + [] == DATA + [SPACE] + restored;
    }
  }

  /** What the first line of any event is. */
  lemma FirstLineKinds(event: Bytes)
    requires event != []
    ensures var (text, lineBreak, rest) := FirstLine(event);
            LF !in text && (lineBreak == [LF] ==> !EndsInBareCr(text)) &&
            (lineBreak == [LF] || lineBreak == [CR, LF] || (lineBreak == [] && rest == []))
  {
    var end := IndexFrom(event, 0, [LF]);
    forall j | 0 <= j < (if end.Some? then end.value else |event|) ensures event[j] != LF {
      assert event[j..j + 1] == [event[j]];
      assert !OccursAt(event, j, [LF]);
    }
  }

  /** The last line, if it has no break, comes out neither empty nor with a CR at its end. */
  predicate LastLineStands(host: Host, lines: seq<Line>) {
    lines != [] && lines[|lines| - 1].lineBreak == [] ==>
      var out := RewriteLine(host, lines[|lines| - 1].text, []);
      out != [] && !EndsInBareCr(out)
  }

  /** The output of one event has the event's lines, each with its own break and its payload restored, exactly when
      its last line stands; it does in every event that does not end in a bare CR. */
  lemma {:induction false} RewriteIsLinewise(host: Host, event: Bytes)
    requires SingleLine(host)
    ensures LinesOf(Concat(RewrittenLines(host, event))) == RestoredLines(host, LinesOf(event)) <==>
            LastLineStands(host, LinesOf(event))
    ensures !EndsInBareCr(event) ==> LastLineStands(host, LinesOf(event))
    decreases |event|
  {
    if event != [] {
      var (text, lineBreak, rest) := FirstLine(event);
      FirstLineKinds(event);
      RewriteIsLinewise(host, rest);
      if !EndsInBareCr(event) {
        FirstLineFacts(event);
        RestoredIsOneLine(host, text);
      }
      if lineBreak == [] {
        LastLineOut(host, event, text);
      } else {
        BrokenLineOut(host, event, text, lineBreak, rest);
      }
    }
  }

  lemma BrokenLineOut(host: Host, event: Bytes, text: Bytes, lineBreak: Bytes, rest: Bytes)
    requires SingleLine(host) && event != [] && FirstLine(event) == (text, lineBreak, rest)
    requires LF !in text && (lineBreak == [CR, LF] || (lineBreak == [LF] && !EndsInBareCr(text)))
    ensures LinesOf(Concat(RewrittenLines(host, event))) == RestoredLines(host, LinesOf(event)) <==>
            LinesOf(Concat(RewrittenLines(host, rest))) == RestoredLines(host, LinesOf(rest))
    ensures LastLineStands(host, LinesOf(event)) <==> LastLineStands(host, LinesOf(rest))
  {
    var out, more := RewriteLine(host, text, []), Concat(RewrittenLines(host, rest));
    RestoredIsOneLine(host, text);
    BreakLast(host, text, lineBreak);
    OutputFirstLine(host, event, text, lineBreak, rest);
    FirstLineIs(out, lineBreak, more);
    LineFirst(event, text, lineBreak, rest);
    LineFirst(out + lineBreak + more, out, lineBreak, more);
    RestoredFirst(host, Line(text, lineBreak), LinesOf(rest));
    SameRest(Line(out, lineBreak), LinesOf(more), RestoredLines(host, LinesOf(rest)));
    LastOfRest(host, Line(text, lineBreak), LinesOf(rest));
  }

  lemma LineFirst(s: Bytes, text: Bytes, lineBreak: Bytes, rest: Bytes)
    requires s != [] && FirstLine(s) == (text, lineBreak, rest)
    ensures LinesOf(s) == [Line(text, lineBreak)] + LinesOf(rest)
  {}

  lemma RestoredFirst(host: Host, first: Line, rest: seq<Line>)
    ensures RestoredLines(host, [first] + rest) == [Restored(host, first)] + RestoredLines(host, rest)
  {
    assert ([first] + rest)[1..] == rest;
  }

  lemma SameRest(first: Line, a: seq<Line>, b: seq<Line>)
    ensures [first] + a == [first] + b <==> a == b
  {
    assert ([first] + a)[1..] == a && ([first] + b)[1..] == b;
  }

  lemma LastLineOut(host: Host, event: Bytes, text: Bytes)
    requires SingleLine(host) && event != [] && FirstLine(event) == (text, [], []) && LF !in text
    ensures LinesOf(Concat(RewrittenLines(host, event))) == RestoredLines(host, LinesOf(event)) <==>
            LastLineStands(host, LinesOf(event))
    ensures LinesOf(event) == [Line(text, [])]
  {
    var out, none: Bytes := RewriteLine(host, text, []), [];
    RestoredIsOneLine(host, text);
    OneLine(host, event, text, none);
    LineFirst(event, text, none, none);
    assert LinesOf(none) == [] && [Line(text, none)] + LinesOf(none) == [Line(text, none)];
    RestoredFirst(host, Line(text, none), LinesOf(none));
    if out != [] {
      NoLineFeed(out);
      var (t, b, r) := FirstLine(out);
      LineFirst(out, t, b, r);
      assert r == none && LinesOf(out)[0] == Line(t, b) && (t == out <==> !EndsInBareCr(out));
      assert [Line(t, b)] + LinesOf(none) == [Line(t, b)];
    }
  }

  lemma LastOfRest(host: Host, first: Line, rest: seq<Line>)
    requires first.lineBreak != []
    ensures LastLineStands(host, [first] + rest) <==> LastLineStands(host, rest)
  {
    assert rest != [] ==> ([first] + rest)[|rest|] == rest[|rest| - 1];
  }

  // --------------------------------------------------------- no event ends early

  ghost predicate DelimiterFree(s: Bytes) {
    forall i :: !OccursAt(s, i, [LF, LF]) && !OccursAt(s, i, [CR, LF, CR, LF])
  }

  /** The break of the line before, then an empty line, is a delimiter. */
  predicate EndsEvent(before: Bytes, l: Line) {
    l.text == [] && (l.lineBreak == [LF] || (before == [CR, LF] && l.lineBreak == [CR, LF]))
  }

  predicate LinesFree(lines: seq<Line>) {
    |lines| < 2 || (!EndsEvent(lines[0].lineBreak, lines[1]) && LinesFree(lines[1..]))
  }

  /** An occurrence in a text is one in its rest, or reaches over the first line feed. */
  lemma OccurrenceOverBreak(s: Bytes, k: nat, i: int)
    requires 0 < k <= |s| && s[k - 1] == LF && forall j :: 0 <= j < k - 1 ==> s[j] != LF
    ensures OccursAt(s, i, [LF, LF]) <==>
              (k < |s| && i == k - 1 && s[k] == LF) || (i >= k && OccursAt(s[k..], i - k, [LF, LF]))
    ensures OccursAt(s, i, [CR, LF, CR, LF]) <==>
              (k + 1 < |s| && k >= 2 && i == k - 2 && s[k - 2] == CR && s[k] == CR && s[k + 1] == LF) ||
              (i >= k && OccursAt(s[k..], i - k, [CR, LF, CR, LF]))
  {
    if i >= k {
      assert i + 2 <= |s| ==> s[i..i + 2] == s[k..][i - k..i - k + 2];
      assert i + 4 <= |s| ==> s[i..i + 4] == s[k..][i - k..i - k + 4];
    } else if 0 <= i {
      if i + 2 <= |s| {
        assert s[i..i + 2] == [s[i], s[i + 1]];
      }
      if i + 4 <= |s| {
        assert s[i..i + 4] == [s[i], s[i + 1], s[i + 2], s[i + 3]];
      }
    }
  }

  lemma FreeStep(s: Bytes, k: nat)
    requires 0 < k <= |s| && s[k - 1] == LF && forall j :: 0 <= j < k - 1 ==> s[j] != LF
    ensures DelimiterFree(s) <==>
            DelimiterFree(s[k..]) && !(k < |s| && s[k] == LF) &&
            !(k + 1 < |s| && k >= 2 && s[k - 2] == CR && s[k] == CR && s[k + 1] == LF)
  {
    OccurrenceOverBreak(s, k, k - 1);
    OccurrenceOverBreak(s, k, k - 2);
    if DelimiterFree(s) {
      FreeRest(s, k);
    } else if DelimiterFree(s[k..]) {
      FreeWhole(s, k);
    }
  }

  lemma FreeRest(s: Bytes, k: nat)
    requires 0 < k <= |s| && s[k - 1] == LF && forall j :: 0 <= j < k - 1 ==> s[j] != LF
    requires DelimiterFree(s)
    ensures DelimiterFree(s[k..])
  {
    var rest := s[k..];
    forall i ensures !OccursAt(rest, i, [LF, LF]) && !OccursAt(rest, i, [CR, LF, CR, LF]) {
      if i >= 0 {
        OccurrenceOverBreak(s, k, i + k);
      }
    }
  }

  lemma FreeWhole(s: Bytes, k: nat)
    requires 0 < k <= |s| && s[k - 1] == LF && forall j :: 0 <= j < k - 1 ==> s[j] != LF
    requires DelimiterFree(s[k..])
    ensures !(k < |s| && s[k] == LF) && !(k + 1 < |s| && k >= 2 && s[k - 2] == CR && s[k] == CR && s[k + 1] == LF) ==>
              DelimiterFree(s)
  {
    if !(k < |s| && s[k] == LF) && !(k + 1 < |s| && k >= 2 && s[k - 2] == CR && s[k] == CR && s[k + 1] == LF) {
      forall i ensures !OccursAt(s, i, [LF, LF]) && !OccursAt(s, i, [CR, LF, CR, LF]) {
        OccurrenceOverBreak(s, k, i);
      }
    }
  }

  /** Being free of delimiters is a matter of empty lines and line breaks. */
  lemma {:induction false} FreeByLines(s: Bytes)
    requires !EndsInBareCr(s)
    ensures DelimiterFree(s) <==> LinesFree(LinesOf(s))
    decreases |s|
  {
    if s != [] {
      var (text, lineBreak, rest) := FirstLine(s);
      FirstLineFacts(s);
      if lineBreak == [] {
        assert s == text && rest == [];
        forall i ensures !OccursAt(s, i, [LF, LF]) && !OccursAt(s, i, [CR, LF, CR, LF]) {
          NoOccurrence(s, i);
        }
        assert LinesOf(s) == [Line(text, lineBreak)];
      } else {
        var k := |text| + |lineBreak|;
        assert s[k..] == rest;
        FreeStep(s, k);
        FreeByLines(rest);
        assert LinesOf(s)[1..] == LinesOf(rest);
        assert k >= 2 && s[k - 2] == CR <==> lineBreak == [CR, LF];
        if rest != [] {
          FirstOfRest(rest);
          assert LinesOf(s)[1] == LinesOf(rest)[0];
          assert s[k] == rest[0] && (|rest| > 1 ==> s[k + 1] == rest[1]);
        }
      }
    }
  }

  lemma NoOccurrence(s: Bytes, i: int)
    requires LF !in s
    ensures !OccursAt(s, i, [LF, LF]) && !OccursAt(s, i, [CR, LF, CR, LF])
  {
    if OccursAt(s, i, [LF, LF]) || OccursAt(s, i, [CR, LF, CR, LF]) {
      var pat: Bytes := if OccursAt(s, i, [LF, LF]) then [LF, LF] else [CR, LF, CR, LF];
      OccursByte(s, i, pat, 1);
      assert false;
    }
  }

  lemma FirstOfRest(rest: Bytes)
    requires rest != [] && !EndsInBareCr(rest)
    ensures var (text, lineBreak, _) := FirstLine(rest);
            (text == [] && lineBreak == [LF] <==> rest[0] == LF) &&
            (text == [] && lineBreak == [CR, LF] <==> |rest| > 1 && rest[0] == CR && rest[1] == LF)
  {
    FirstLineFacts(rest);
    var (text, lineBreak, more) := FirstLine(rest);
    assert text != [] ==> rest[0] == text[0];
    assert |text| > 1 ==> rest[1] == text[1];
    assert |text| == 1 && lineBreak != [] ==> rest[1] == lineBreak[0];
  }

  lemma {:induction false} RestoredFree(host: Host, lines: seq<Line>)
    requires SingleLine(host) && forall l :: l in lines ==> LF !in l.text
    ensures LinesFree(RestoredLines(host, lines)) <==> LinesFree(lines)
  {
    if |lines| >= 2 {
      RestoredFree(host, lines[1..]);
      RestoredIsOneLine(host, lines[1].text);
      assert lines[1] in lines && RestoredLines(host, lines)[1..] == RestoredLines(host, lines[1..]);
      assert RestoredLines(host, lines)[1] == Restored(host, lines[1]);
    }
  }

  lemma {:induction false} LinesHaveNoBreak(event: Bytes)
    requires !EndsInBareCr(event)
    ensures forall l :: l in LinesOf(event) ==> LF !in l.text
    decreases |event|
  {
    if event != [] {
      FirstLineFacts(event);
      LinesHaveNoBreak(FirstLine(event).2);
    }
  }

  lemma {:induction false} OutputEnd(host: Host, event: Bytes)
    requires SingleLine(host) && !EndsInBareCr(event)
    ensures !EndsInBareCr(Concat(RewrittenLines(host, event)))
    decreases |event|
  {
    if event != [] {
      var (text, lineBreak, rest) := FirstLine(event);
      FirstLineFacts(event);
      RestoredIsOneLine(host, text);
      BreakLast(host, text, lineBreak);
      OutputEnd(host, rest);
      ConcatFirst(RewriteLine(host, text, lineBreak), RewrittenLines(host, rest));
    }
  }

  /** Rewriting neither makes nor breaks a delimiter. */
  lemma RewriteKeepsFree(host: Host, event: Bytes)
    requires SingleLine(host) && !EndsInBareCr(event)
    ensures DelimiterFree(Concat(RewrittenLines(host, event))) <==> DelimiterFree(event)
  {
    var out := Concat(RewrittenLines(host, event));
    OutputEnd(host, event);
    FreeByLines(event);
    FreeByLines(out);
    RewriteIsLinewise(host, event);
    LinesHaveNoBreak(event);
    RestoredFree(host, LinesOf(event));
  }

  // ------------------------------------------------------------- the same events

  function HalfDelimiter(n: nat): Bytes { if n == 4 then [CR, LF] else [LF] }

  lemma NoneEarlier(half: Bytes, more: Bytes)
    requires DelimiterFree(half)
    ensures forall i :: i + 2 <= |half| ==> !OccursAt(half + more, i, [LF, LF])
    ensures forall i :: i + 4 <= |half| ==> !OccursAt(half + more, i, [CR, LF, CR, LF])
  {
    forall i | 0 <= i && i + 2 <= |half| ensures !OccursAt(half + more, i, [LF, LF]) {
      OccursInPrefix(half, more, i, [LF, LF]);
    }
    forall i | 0 <= i && i + 4 <= |half| ensures !OccursAt(half + more, i, [CR, LF, CR, LF]) {
      OccursInPrefix(half, more, i, [CR, LF, CR, LF]);
    }
  }

  lemma FourBytes(s: Bytes, i: int)
    ensures OccursAt(s, i, [CR, LF, CR, LF]) ==>
              0 <= i && i + 4 <= |s| && s[i] == CR && s[i + 1] == LF && s[i + 2] == CR && s[i + 3] == LF
  {
    if OccursAt(s, i, [CR, LF, CR, LF]) {
      assert s[i..i + 4] == [s[i], s[i + 1], s[i + 2], s[i + 3]];
    }
  }

  lemma LineFeedsEndHere(body: Bytes, tail: Bytes)
    requires DelimiterFree(body + [LF])
    ensures EventDelimiter(body + [LF, LF] + tail) == (|body|, 2)
  {
    var s := body + [LF, LF] + tail;
    assert s == body + [LF] + ([LF] + tail);
    NoneEarlier(body + [LF], [LF] + tail);
    assert s[|body|..|body| + 2] == [LF, LF];
    IndexIs(s, [LF, LF], |body|);
    var late := IndexFrom(s, 0, [CR, LF, CR, LF]);
    if late.Some? {
      FourBytes(s, late.value);
    }
  }

  lemma CrLfsEndHere(body: Bytes, tail: Bytes)
    requires DelimiterFree(body + [CR, LF])
    ensures EventDelimiter(body + [CR, LF, CR, LF] + tail) == (|body|, 4)
  {
    var s := body + [CR, LF, CR, LF] + tail;
    assert s == body + [CR, LF] + ([CR, LF] + tail);
    NoneEarlier(body + [CR, LF], [CR, LF] + tail);
    forall i | 0 <= i < |body| ensures !OccursAt(s, i, [CR, LF, CR, LF]) {
      FourBytes(s, i);
    }
    assert s[|body|..|body| + 4] == [CR, LF, CR, LF];
    IndexIs(s, [CR, LF, CR, LF], |body|);
  }

  /** An event ends where its delimiter stands when no other ends before it. */
  lemma EndsHere(body: Bytes, n: nat, tail: Bytes)
    requires (n == 2 || n == 4) && DelimiterFree(body + HalfDelimiter(n))
    ensures EventDelimiter(body + DelimiterBytes(n) + tail) == (|body|, n)
  {
    if n == 2 {
      LineFeedsEndHere(body, tail);
    } else {
      CrLfsEndHere(body, tail);
    }
  }

  lemma StartsWithLineFeed(s: Bytes, i: int)
    ensures OccursAt(s, i, [LF, LF]) ==> i < |s| && s[i] == LF
  {
    if OccursAt(s, i, [LF, LF]) {
      OccursByte(s, i, [LF, LF], 0);
    }
  }

  lemma EndedHere(buf: Bytes)
    requires EventDelimiter(buf).1 > 0
    ensures var (d, n) := EventDelimiter(buf);
            d + n <= |buf| && (n == 2 || n == 4) && buf[d..d + n] == DelimiterBytes(n) &&
            DelimiterFree(buf[..d] + HalfDelimiter(n))
  {
    DelimiterFits(buf);
    var (d, n) := EventDelimiter(buf);
    var half := buf[..d] + HalfDelimiter(n);
    assert buf[d..d + n][0] == buf[d] && buf[d..d + n][1] == buf[d + 1];
    assert half == buf[..|half|] && buf == half + buf[|half|..];
    forall i ensures !OccursAt(half, i, [LF, LF]) && !OccursAt(half, i, [CR, LF, CR, LF]) {
      if 0 <= i && i + 2 <= |half| {
        OccursInPrefix(half, buf[|half|..], i, [LF, LF]);
        StartsWithLineFeed(buf, i);
      }
      if 0 <= i && i + 4 <= |half| {
        OccursInPrefix(half, buf[|half|..], i, [CR, LF, CR, LF]);
      }
    }
  }

  /** A break after the event is a break after its output. */
  lemma {:induction false} RewriteThenBreak(host: Host, event: Bytes, n: nat)
    requires SingleLine(host) && !EndsInBareCr(event)
    ensures Concat(RewrittenLines(host, event + HalfDelimiter(n))) ==
            Concat(RewrittenLines(host, event)) + HalfDelimiter(n)
    decreases |event|
  {
    var half := HalfDelimiter(n);
    if event == [] {
      BreakAlone(host, half);
    } else {
      var (text, lineBreak, rest) := FirstLine(event);
      FirstLineFacts(event);
      if lineBreak == [] {
        BreakAfterLine(host, event, half);
      } else {
        RewriteThenBreak(host, rest, n);
        Associative(text + lineBreak, rest, half);
        FirstLineIs(text, lineBreak, rest + half);
        BreakFurtherOn(host, event, event + half, text, lineBreak, rest, rest + half, half);
      }
    }
  }

  lemma BreakAlone(host: Host, half: Bytes)
    requires half == [LF] || half == [CR, LF]
    ensures Concat(RewrittenLines(host, [] + half)) == Concat(RewrittenLines(host, [])) + half
  {
    var none: Bytes := [];
    assert none + half + none == half && none + half == half && half + none == half;
    FirstLineIs(none, half, none);
    OneLine(host, half, none, half);
  }

  lemma BreakAfterLine(host: Host, event: Bytes, half: Bytes)
    requires event != [] && LF !in event && !EndsInBareCr(event) && (half == [LF] || half == [CR, LF])
    ensures Concat(RewrittenLines(host, event + half)) == Concat(RewrittenLines(host, event)) + half
  {
    assert event + half == event + half + [] && event == event + [] + [];
    FirstLineIs(event, half, []);
    FirstLineIs(event, [], []);
    BreakLast(host, event, half);
    OneLine(host, event + half, event, half);
    OneLine(host, event, event, []);
  }

  /** Two events with the same first line, one with a break more at its end. */
  lemma BreakFurtherOn(host: Host, event: Bytes, event': Bytes, text: Bytes, lineBreak: Bytes, rest: Bytes,
      rest': Bytes, half: Bytes)
    requires event != [] && event' != []
    requires FirstLine(event) == (text, lineBreak, rest) && FirstLine(event') == (text, lineBreak, rest')
    requires Concat(RewrittenLines(host, rest')) == Concat(RewrittenLines(host, rest)) + half
    ensures Concat(RewrittenLines(host, event')) == Concat(RewrittenLines(host, event)) + half
  {
    OutputFirstLine(host, event, text, lineBreak, rest);
    OutputFirstLine(host, event', text, lineBreak, rest');
    Associative(RewriteLine(host, text, lineBreak), Concat(RewrittenLines(host, rest)), half);
  }

  lemma OutputFirstLine(host: Host, event: Bytes, text: Bytes, lineBreak: Bytes, rest: Bytes)
    requires event != [] && FirstLine(event) == (text, lineBreak, rest)
    ensures Concat(RewrittenLines(host, event)) ==
            RewriteLine(host, text, lineBreak) + Concat(RewrittenLines(host, rest))
  {
    ConcatFirst(RewriteLine(host, text, lineBreak), RewrittenLines(host, rest));
  }

  lemma OneLine(host: Host, event: Bytes, text: Bytes, lineBreak: Bytes)
    requires event != [] && FirstLine(event) == (text, lineBreak, [])
    ensures Concat(RewrittenLines(host, event)) == RewriteLine(host, text, lineBreak)
  {
    var l := RewriteLine(host, text, lineBreak);
    assert RewrittenLines(host, event) == [l] + [];
    assert [l][1..] == [] && l + [] == l;
  }

  function RewrittenEvents(host: Host, events: seq<Event>): seq<Event> {
    if events == [] then []
    else [Event(Concat(RewrittenLines(host, events[0].body)), events[0].delimiter)] + RewrittenEvents(host, events[1..])
  }

  lemma NoEventIsFree(s: Bytes)
    ensures EventDelimiter(s).1 == 0 <==> DelimiterFree(s)
  {}

  lemma OutputFirst(host: Host, text: Bytes, e: Event, rest: Bytes)
    requires Extract(text) == ([e] + Extract(rest).0, Extract(rest).1)
    ensures Concat(WholeOutput(host, text)) == Emit(host, e) + Concat(WholeOutput(host, rest))
    ensures RewrittenEvents(host, Extract(text).0) ==
            [Event(Concat(RewrittenLines(host, e.body)), e.delimiter)] + RewrittenEvents(host, Extract(rest).0)
  {
    EmitFirst(host, e, Extract(rest).0);
    Associative([Emit(host, e)], EmitAll(host, Extract(rest).0), RewrittenLines(host, Extract(rest).1));
    ConcatFirst(Emit(host, e), WholeOutput(host, rest));
    assert ([e] + Extract(rest).0)[1..] == Extract(rest).0;
  }

  /** Within the cap any chunking puts out what the text fed to the event buffer puts out as a whole; without inserted
      line breaks that is the stream itself. */
  lemma OutputIsWhole(host: Host, chunks: seq<Bytes>)
    requires StartsAsSse(Concat(chunks)) && !host.restore([]).1 && WithinCap(host, EMPTY, Pieces([], chunks))
    ensures StreamOutput(host, chunks) == WholeOutput(host, Fed(host, EMPTY, Pieces([], chunks)))
    ensures Breaks(host, EMPTY, Pieces([], chunks)) == 0 ==> Fed(host, EMPTY, Pieces([], chunks)) == Concat(chunks)
  {
    ChunkingInvariance(host, chunks);
    assert [] + Concat(chunks) == Concat(chunks);
    EmptyIsNothing();
    StreamIsSse(host, [], chunks);
    FedLength(host, EMPTY, Pieces([], chunks));
  }
}
