/** What a client that reads event streams by the WHATWG HTML Living Standard (sections 9.2.5 and 9.2.6) sees. */
module SseClient {
  import opened Common
  import opened SseStream
  import opened SseChunking
  import opened SseFraming

  // ---------------------------------------------------------------- the standard

  /** Lines end at CR LF, at LF or at CR. */
  function LineLength(s: Bytes): (n: nat)
    ensures n <= |s|
  {
    if s == [] || s[0] == CR || s[0] == LF then 0 else 1 + LineLength(s[1..])
  }

  function AfterBreak(s: Bytes): Bytes {
    if s == [] then [] else if s[0] == CR && |s| > 1 && s[1] == LF then s[2..] else s[1..]
  }

  function ClientLines(s: Bytes): seq<Bytes>
    decreases |s|
  {
    if s == [] then []
    else
      var n := LineLength(s);
      [s[..n]] + ClientLines(AfterBreak(s[n..]))
  }

  /** A blank line ends an event; lines after the last blank line are discarded. */
  function Blocks(lines: seq<Bytes>, open: seq<Bytes>): seq<seq<Bytes>>
    decreases |lines|
  {
    if lines == [] then []
    else if lines[0] == [] then (if open == [] then [] else [open]) + Blocks(lines[1..], [])
    else Blocks(lines[1..], open + [lines[0]])
  }

  function ClientEvents(s: Bytes): seq<seq<Bytes>> { Blocks(ClientLines(s), []) }

  /** The value of a `data:` line, without one leading space. */
  function FieldValue(line: Bytes): Bytes
    requires DATA <= line
  {
    var value := line[|DATA|..];
    if value != [] && value[0] == SPACE then value[1..] else value
  }

  function DataValues(event: seq<Bytes>): seq<Bytes> {
    if event == [] then []
    else
      (if DATA <= event[0] then [FieldValue(event[0])] else if event[0] == DATA[..4] then [[]] else []) +
      DataValues(event[1..])
  }

  /** The data of an event: its data lines joined by line feeds. */
  function DataOf(event: seq<Bytes>): Bytes { Join(DataValues(event), [LF]) }

  // -------------------------------------------------- both ways to cut into lines

  /** Every CR is the first half of a CR LF. */
  predicate NoLoneCr(s: Bytes) { forall i :: 0 <= i < |s| && s[i] == CR ==> i + 1 < |s| && s[i + 1] == LF }

  /** Restored payloads have no line break of any kind. */
  ghost predicate OneLinePayloads(host: Host) {
    forall v :: host.restore(v).1 ==> LF !in host.restore(v).0 && CR !in host.restore(v).0
  }

  function Texts(lines: seq<Line>): seq<Bytes> {
    if lines == [] then [] else [lines[0].text] + Texts(lines[1..])
  }

  lemma {:induction false} LineLengthIs(text: Bytes, rest: Bytes)
    requires LF !in text && CR !in text && (rest == [] || rest[0] == LF || rest[0] == CR)
    ensures LineLength(text + rest) == |text|
  {
    if text == [] {
      assert text + rest == rest;
    } else {
      assert (text + rest)[1..] == text[1..] + rest;
      LineLengthIs(text[1..], rest);
    }
  }

  lemma NoLoneCrParts(text: Bytes, lineBreak: Bytes, rest: Bytes)
    requires NoLoneCr(text + lineBreak + rest) && LF !in text && (lineBreak == [CR, LF] || !EndsInBareCr(text))
    requires lineBreak == [LF] || lineBreak == [CR, LF] || (lineBreak == [] && rest == [])
    ensures CR !in text && NoLoneCr(rest)
  {
    var s := text + lineBreak + rest;
    forall i | 0 <= i < |text| ensures text[i] != CR {
      assert s[i] == text[i];
      assert i + 1 < |text| ==> s[i + 1] == text[i + 1];
      assert i + 1 == |text| && lineBreak != [] ==> s[i + 1] == lineBreak[0];
    }
    var k := |text| + |lineBreak|;
    forall i | 0 <= i < |rest| && rest[i] == CR ensures i + 1 < |rest| && rest[i + 1] == LF {
      assert s[k + i] == rest[i];
      assert i + 1 < |rest| ==> s[k + i + 1] == rest[i + 1];
    }
  }

  /** Without lone CRs the standard's lines are those of the rewriter. */
  lemma {:induction false} ClientLinesAre(s: Bytes)
    requires NoLoneCr(s)
    ensures ClientLines(s) == Texts(LinesOf(s))
    decreases |s|
  {
    if s != [] {
      var (text, lineBreak, rest) := FirstLine(s);
      FirstLineFacts(s);
      NoLoneCrParts(text, lineBreak, rest);
      ClientLinesAre(rest);
      FirstClientLine(text, lineBreak, rest);
      assert LinesOf(s)[1..] == LinesOf(rest);
    }
  }

  lemma FirstClientLine(text: Bytes, lineBreak: Bytes, rest: Bytes)
    requires LF !in text && CR !in text && text + lineBreak + rest != []
    requires lineBreak == [LF] || lineBreak == [CR, LF] || (lineBreak == [] && rest == [])
    ensures ClientLines(text + lineBreak + rest) == [text] + ClientLines(rest)
  {
    var s := text + lineBreak + rest;
    assert s == text + (lineBreak + rest);
    LineLengthIs(text, lineBreak + rest);
    assert s[|text|..] == lineBreak + rest;
    assert s[..|text|] == text;
    if lineBreak == [CR, LF] {
      assert (lineBreak + rest)[2..] == rest;
    } else if lineBreak == [LF] {
      assert (lineBreak + rest)[1..] == rest;
    }
  }

  /** More text behind a line that has a break leaves the line alone. */
  lemma FirstLineThen(s: Bytes, more: Bytes)
    requires s != [] && !EndsInBareCr(s) && FirstLine(s).1 != []
    ensures s + more != [] && FirstLine(s + more) == (FirstLine(s).0, FirstLine(s).1, FirstLine(s).2 + more)
  {
    var (text, lineBreak, rest) := FirstLine(s);
    FirstLineFacts(s);
    Associative(text + lineBreak, rest, more);
    FirstLineIs(text, lineBreak, rest + more);
  }

  /** A text that ends in a line feed and what follows it have their lines one after the other. */
  lemma {:induction false} LinesConcat(a: Bytes, b: Bytes)
    requires a == [] || a[|a| - 1] == LF
    ensures LinesOf(a + b) == LinesOf(a) + LinesOf(b)
    decreases |a|
  {
    if a == [] {
      assert a + b == b && LinesOf(a) + LinesOf(b) == LinesOf(b);
    } else {
      var rest := FirstLine(a).2;
      EndedLine(a);
      FirstLineThen(a, b);
      LinesConcat(rest, b);
      LinesStep(a, a + b, b, rest, rest + b);
    }
  }

  lemma EndedLine(a: Bytes)
    requires a != [] && a[|a| - 1] == LF
    ensures FirstLine(a).1 != [] && (FirstLine(a).2 == [] || FirstLine(a).2[|FirstLine(a).2| - 1] == LF)
  {
    FirstLineFacts(a);
    var (text, lineBreak, rest) := FirstLine(a);
    assert lineBreak == [] ==> a == text;
    assert rest != [] ==> rest[|rest| - 1] == a[|a| - 1];
  }

  lemma LinesStep(a: Bytes, s: Bytes, b: Bytes, rest: Bytes, rest': Bytes)
    requires a != [] && s != [] && FirstLine(a).2 == rest && FirstLine(s) == (FirstLine(a).0, FirstLine(a).1, rest')
    requires LinesOf(rest') == LinesOf(rest) + LinesOf(b)
    ensures LinesOf(s) == LinesOf(a) + LinesOf(b)
  {
    var first := Line(FirstLine(a).0, FirstLine(a).1);
    LineFirst(a, first.text, first.lineBreak, rest);
    LineFirst(s, first.text, first.lineBreak, rest');
    Associative([first], LinesOf(rest), LinesOf(b));
  }

  /** Two texts with the same first line. */
  lemma SameFirstLine(s: Bytes, t: Bytes, rest: Bytes, rest': Bytes)
    requires s != [] && t != [] && FirstLine(s).0 == FirstLine(t).0
    requires FirstLine(s).2 == rest && FirstLine(t).2 == rest' && Texts(LinesOf(rest)) == Texts(LinesOf(rest'))
    ensures Texts(LinesOf(s)) == Texts(LinesOf(t))
  {
    LineFirst(s, FirstLine(s).0, FirstLine(s).1, rest);
    LineFirst(t, FirstLine(t).0, FirstLine(t).1, rest');
    TextsFirst(Line(FirstLine(s).0, FirstLine(s).1), LinesOf(rest));
    TextsFirst(Line(FirstLine(t).0, FirstLine(t).1), LinesOf(rest'));
  }

  lemma TextsFirst(first: Line, more: seq<Line>)
    ensures Texts([first] + more) == [first.text] + Texts(more)
  {
    assert ([first] + more)[1..] == more;
  }

  lemma {:induction false} TextsConcat(a: seq<Line>, b: seq<Line>)
    ensures Texts(a + b) == Texts(a) + Texts(b)
  {
    if a == [] {
      assert a + b == b;
    } else {
      assert (a + b)[0] == a[0] && (a + b)[1..] == a[1..] + b;
      TextsConcat(a[1..], b);
    }
  }

  lemma BlankLine(n: nat)
    ensures LinesOf(HalfDelimiter(n)) == [Line([], HalfDelimiter(n))]
  {
    var half, none: Bytes := HalfDelimiter(n), [];
    assert none + half + none == half;
    FirstLineIs(none, half, none);
    LineFirst(half, none, half, none);
  }

  /** The lines of an event, of the blank line behind it and of what follows. */
  lemma EventLines(body: Bytes, n: nat, rest: Bytes)
    ensures LinesOf(body + DelimiterBytes(n) + rest) ==
            LinesOf(body + HalfDelimiter(n)) + [Line([], HalfDelimiter(n))] + LinesOf(rest)
  {
    var half := HalfDelimiter(n);
    assert body + DelimiterBytes(n) + rest == body + half + (half + rest);
    LinesConcat(body + half, half + rest);
    LinesConcat(half, rest);
    BlankLine(n);
    Associative(LinesOf(body + half), LinesOf(half), LinesOf(rest));
  }

  lemma EventTexts(body: Bytes, n: nat, rest: Bytes)
    ensures Texts(LinesOf(body + DelimiterBytes(n) + rest)) ==
            Texts(LinesOf(body + HalfDelimiter(n))) + [[]] + Texts(LinesOf(rest))
  {
    EventLines(body, n, rest);
    var head, blank := LinesOf(body + HalfDelimiter(n)), [Line([], HalfDelimiter(n))];
    TextsConcat(head + blank, LinesOf(rest));
    TextsConcat(head, blank);
    assert blank[1..] == [] && Texts(blank) == [[]];
  }

  // ------------------------------------------------------- the dropped CR is unseen

  lemma {:induction false} DroppedCrOutput(host: Host, b: Bytes)
    requires !EndsInBareCr(b)
    ensures Concat(RewrittenLines(host, b + [CR])) == Concat(RewrittenLines(host, b))
    decreases |b|
  {
    var none: Bytes := [];
    if b == [] || FirstLine(b).1 == [] {
      if b != [] {
        FirstLineFacts(b);
        OneLine(host, b, b, none);
      }
      LastLineWithCr(b);
      OneLine(host, b + [CR], b, none);
      assert b == [] ==> RewriteLine(host, b, none) == none;
    } else {
      var (text, lineBreak, rest) := FirstLine(b);
      FirstLineFacts(b);
      DroppedCrOutput(host, rest);
      assert b + [CR] == text + lineBreak + (rest + [CR]);
      FirstLineIs(text, lineBreak, rest + [CR]);
      OutputFirstLine(host, b, text, lineBreak, rest);
      OutputFirstLine(host, b + [CR], text, lineBreak, rest + [CR]);
    }
  }

  lemma LastLineWithCr(text: Bytes)
    requires LF !in text
    ensures FirstLine(text + [CR]) == (text, [], [])
  {
    NoLineFeed(text + [CR]);
  }

  lemma DroppedCrLast(b: Bytes)
    requires LF !in b && !EndsInBareCr(b)
    ensures Texts(LinesOf(b + [CR, LF])) == Texts(LinesOf(b + [LF]))
  {
    var none: Bytes := [];
    FirstLineIs(b, [CR, LF], none);
    FirstLineIs(b, [LF], none);
    assert b + [CR, LF] + none == b + [CR, LF] && b + [LF] + none == b + [LF];
    SameFirstLine(b + [CR, LF], b + [LF], none, none);
  }

  lemma {:induction false} DroppedCrTexts(b: Bytes)
    requires !EndsInBareCr(b)
    ensures Texts(LinesOf(b + [CR, LF])) == Texts(LinesOf(b + [LF]))
    decreases |b|
  {
    if b == [] {
      DroppedCrLast(b);
    } else {
      FirstLineFacts(b);
      if FirstLine(b).1 == [] {
        DroppedCrLast(b);
      } else {
        var rest := FirstLine(b).2;
        DroppedCrTexts(rest);
        FirstLineThen(b, [CR, LF]);
        FirstLineThen(b, [LF]);
        SameFirstLine(b + [CR, LF], b + [LF], rest + [CR, LF], rest + [LF]);
      }
    }
  }

  // ------------------------------------------------------------ line by line again

  function RestoredTexts(host: Host, texts: seq<Bytes>): seq<Bytes> {
    if texts == [] then [] else [RewriteLine(host, texts[0], [])] + RestoredTexts(host, texts[1..])
  }

  lemma {:induction false} RestoredTextsConcat(host: Host, a: seq<Bytes>, b: seq<Bytes>)
    ensures RestoredTexts(host, a + b) == RestoredTexts(host, a) + RestoredTexts(host, b)
  {
    if a == [] {
      assert a + b == b;
    } else {
      assert (a + b)[0] == a[0] && (a + b)[1..] == a[1..] + b;
      RestoredTextsConcat(host, a[1..], b);
    }
  }

  lemma {:induction false} RestoredLinesTexts(host: Host, lines: seq<Line>)
    ensures Texts(RestoredLines(host, lines)) == RestoredTexts(host, Texts(lines))
  {
    if lines != [] {
      RestoredLinesTexts(host, lines[1..]);
    }
  }

  /** The lines of an event's output, with the break of its delimiter. */
  lemma EventRestored(host: Host, body: Bytes, n: nat)
    requires SingleLine(host) && (EndsInBareCr(body) ==> n != 4 && !EndsInBareCr(body[..|body| - 1]))
    ensures Texts(LinesOf(Concat(RewrittenLines(host, body)) + HalfDelimiter(n))) ==
            RestoredTexts(host, Texts(LinesOf(body + HalfDelimiter(n))))
  {
    if EndsInBareCr(body) {
      var b := body[..|body| - 1];
      assert body == b + [CR];
      CrEventRestored(host, b);
    } else {
      PlainEventRestored(host, body, n);
    }
  }

  lemma CrEventRestored(host: Host, b: Bytes)
    requires SingleLine(host) && !EndsInBareCr(b)
    ensures Texts(LinesOf(Concat(RewrittenLines(host, b + [CR])) + HalfDelimiter(2))) ==
            RestoredTexts(host, Texts(LinesOf(b + [CR] + HalfDelimiter(2))))
  {
    PlainEventRestored(host, b, 2);
    DroppedCrOutput(host, b);
    DroppedCrTexts(b);
    BreakSpells(b);
  }

  lemma PlainEventRestored(host: Host, b: Bytes, n: nat)
    requires SingleLine(host) && !EndsInBareCr(b)
    ensures Texts(LinesOf(Concat(RewrittenLines(host, b)) + HalfDelimiter(n))) ==
            RestoredTexts(host, Texts(LinesOf(b + HalfDelimiter(n))))
  {
    RewriteThenBreak(host, b, n);
    RewriteIsLinewise(host, b + HalfDelimiter(n));
    RestoredLinesTexts(host, LinesOf(b + HalfDelimiter(n)));
  }

  lemma EventHasNoLoneCr(text: Bytes)
    requires NoLoneCr(text) && EventDelimiter(text).1 > 0
    ensures var (d, n) := EventDelimiter(text);
            d + n <= |text| && NoLoneCr(text[d + n..]) &&
            (EndsInBareCr(text[..d]) ==> n != 4 && !EndsInBareCr(text[..d][..d - 1]))
  {
    DelimiterFits(text);
    var (d, n) := EventDelimiter(text);
    assert text[d..d + n][0] == text[d];
    var rest := text[d + n..];
    forall i | 0 <= i < |rest| && rest[i] == CR ensures i + 1 < |rest| && rest[i + 1] == LF {
      assert text[d + n + i] == rest[i];
    }
  }

  /** A standard client reads the same lines from the output of a text as from the text, each restored. */
  lemma {:induction false} OutputTexts(host: Host, text: Bytes)
    requires SingleLine(host) && NoLoneCr(text)
    ensures Texts(LinesOf(Concat(WholeOutput(host, text)))) == RestoredTexts(host, Texts(LinesOf(text)))
    decreases |text|
  {
    var (d, n) := EventDelimiter(text);
    if n == 0 {
      assert WholeOutput(host, text) == RewrittenLines(host, text);
      RewriteIsLinewise(host, text);
      RestoredLinesTexts(host, LinesOf(text));
    } else {
      EventHasNoLoneCr(text);
      DelimiterFits(text);
      var e, rest := Event(text[..d], n), text[d + n..];
      ExtractFirst(text, e, rest);
      OutputFirst(host, text, e, rest);
      OutputTexts(host, rest);
      CutSpells(text, d, n, DelimiterBytes(n));
      EventRestored(host, e.body, n);
      EventOutputTexts(host, e, rest, Concat(WholeOutput(host, rest)));
    }
  }

  lemma JoinTexts(host: Host, head: seq<Bytes>, headOut: seq<Bytes>, rest: seq<Bytes>, restOut: seq<Bytes>)
    requires headOut == RestoredTexts(host, head) && restOut == RestoredTexts(host, rest)
    ensures headOut + [[]] + restOut == RestoredTexts(host, head + [[]] + rest)
  {
    var blank: seq<Bytes> := [[]];
    RestoredTextsConcat(host, head + blank, rest);
    RestoredTextsConcat(host, head, blank);
    assert RewriteLine(host, [], []) == [];
    assert blank[1..] == [] && RestoredTexts(host, blank) == blank;
  }

  lemma EventOutputTexts(host: Host, e: Event, rest: Bytes, more: Bytes)
    requires Texts(LinesOf(more)) == RestoredTexts(host, Texts(LinesOf(rest)))
    requires Texts(LinesOf(Concat(RewrittenLines(host, e.body)) + HalfDelimiter(e.delimiter))) ==
             RestoredTexts(host, Texts(LinesOf(e.body + HalfDelimiter(e.delimiter))))
    ensures Texts(LinesOf(Emit(host, e) + more)) ==
            RestoredTexts(host, Texts(LinesOf(e.body + DelimiterBytes(e.delimiter) + rest)))
  {
    var out := Concat(RewrittenLines(host, e.body));
    var half := HalfDelimiter(e.delimiter);
    EventTexts(e.body, e.delimiter, rest);
    EventTexts(out, e.delimiter, more);
    JoinTexts(host, Texts(LinesOf(e.body + half)), Texts(LinesOf(out + half)), Texts(LinesOf(rest)),
        Texts(LinesOf(more)));
  }

  // ------------------------------------------------------- the output has no lone CR

  lemma {:induction false} RewrittenHasNoLoneCr(host: Host, event: Bytes)
    requires OneLinePayloads(host) && !EndsInBareCr(event) && NoLoneCr(event)
    ensures NoLoneCr(Concat(RewrittenLines(host, event)))
    decreases |event|
  {
    if event != [] {
      var (text, lineBreak, rest) := FirstLine(event);
      FirstLineFacts(event);
      NoLoneCrParts(text, lineBreak, rest);
      RewrittenHasNoLoneCr(host, rest);
      OutputFirstLine(host, event, text, lineBreak, rest);
      BreakLast(host, text, lineBreak);
      RestoredHasNoCr(host, text);
      NoLoneCrJoin(RewriteLine(host, text, []), lineBreak, Concat(RewrittenLines(host, rest)));
    }
  }

  lemma RestoredHasNoCr(host: Host, text: Bytes)
    requires OneLinePayloads(host) && CR !in text
    ensures CR !in RewriteLine(host, text, [])
  {
    assert text + [] == text;
  }

  lemma NoLoneCrJoin(text: Bytes, lineBreak: Bytes, rest: Bytes)
    requires CR !in text && (lineBreak == [LF] || lineBreak == [CR, LF] || lineBreak == []) && NoLoneCr(rest)
    ensures NoLoneCr(text + lineBreak + rest)
  {
    var s, k := text + lineBreak + rest, |text| + |lineBreak|;
    forall i | 0 <= i < |s| && s[i] == CR ensures i + 1 < |s| && s[i + 1] == LF {
      if i >= k {
        assert s[i] == rest[i - k];
        assert i + 1 < |s| ==> s[i + 1] == rest[i + 1 - k];
      } else {
        assert i >= |text| && s[i] == lineBreak[i - |text|] && s[i + 1] == lineBreak[1];
      }
    }
  }

  lemma BodyHasNoLoneCr(text: Bytes, d: nat)
    requires NoLoneCr(text) && d <= |text|
    ensures NoLoneCr(DropBareCr(text[..d]))
  {
    var b := DropBareCr(text[..d]);
    forall i | 0 <= i < |b| && b[i] == CR ensures i + 1 < |b| && b[i + 1] == LF {
      assert text[i] == b[i];
      assert i + 1 < d ==> text[..d][i + 1] == text[i + 1];
    }
  }

  lemma NoLoneCrConcat(a: Bytes, b: Bytes)
    requires NoLoneCr(a) && NoLoneCr(b)
    ensures NoLoneCr(a + b)
  {
    forall i | 0 <= i < |a + b| && (a + b)[i] == CR ensures i + 1 < |a + b| && (a + b)[i + 1] == LF {
      assert i < |a| ==> a[i] == CR && (a + b)[i + 1] == a[i + 1];
      assert i >= |a| ==> b[i - |a|] == CR && (a + b)[i + 1] == b[i + 1 - |a|];
    }
  }

  // ------------------------------------------------------------------- the events

  function RestoredBlocks(host: Host, blocks: seq<seq<Bytes>>): seq<seq<Bytes>> {
    if blocks == [] then [] else [RestoredTexts(host, blocks[0])] + RestoredBlocks(host, blocks[1..])
  }

  /** Restoring neither makes nor fills a blank line, so the events are the same blocks of lines. */
  lemma {:induction false} BlocksRestored(host: Host, lines: seq<Bytes>, open: seq<Bytes>)
    requires SingleLine(host) && forall l :: l in lines ==> LF !in l
    ensures Blocks(RestoredTexts(host, lines), RestoredTexts(host, open)) == RestoredBlocks(host, Blocks(lines, open))
    decreases |lines|
  {
    if lines != [] {
      assert lines[0] in lines;
      RestoredIsOneLine(host, lines[0]);
      assert RestoredTexts(host, lines)[1..] == RestoredTexts(host, lines[1..]);
      if lines[0] == [] {
        assert RestoredTexts(host, []) == [];
        BlocksRestored(host, lines[1..], []);
        BlockFirst(host, open, Blocks(lines[1..], []));
      } else {
        BlocksRestored(host, lines[1..], open + [lines[0]]);
        RestoredTextsConcat(host, open, [lines[0]]);
        assert [lines[0]][1..] == [];
        assert RestoredTexts(host, [lines[0]]) == [RestoredTexts(host, lines)[0]];
      }
    }
  }

  lemma BlockFirst(host: Host, open: seq<Bytes>, more: seq<seq<Bytes>>)
    ensures RestoredBlocks(host, (if open == [] then [] else [open]) + more) ==
            (if RestoredTexts(host, open) == [] then [] else [RestoredTexts(host, open)]) + RestoredBlocks(host, more)
  {
    if open == [] {
      assert [] + more == more && [] + RestoredBlocks(host, more) == RestoredBlocks(host, more);
    } else {
      assert ([open] + more)[1..] == more;
    }
  }

  lemma {:induction false} ClientLinesHaveNoBreak(s: Bytes)
    ensures forall l :: l in ClientLines(s) ==> LF !in l && CR !in l
    decreases |s|
  {
    if s != [] {
      LineHasNoBreak(s);
      ClientLinesHaveNoBreak(AfterBreak(s[LineLength(s)..]));
    }
  }

  lemma {:induction false} LineHasNoBreak(s: Bytes)
    ensures LF !in s[..LineLength(s)] && CR !in s[..LineLength(s)]
  {
    if LineLength(s) > 0 {
      LineHasNoBreak(s[1..]);
      assert s[..LineLength(s)] == [s[0]] + s[1..][..LineLength(s[1..])];
    }
  }

  /** A restored data line carries the restored payload, any other line what it carried. */
  lemma RestoredValue(host: Host, line: Bytes)
    ensures var out := RewriteLine(host, line, []); var value := if DATA <= line then TrimSpace(line[|DATA|..]) else [];
            if value != [] && value != DONE && host.restore(value).1 then
              DATA <= out && FieldValue(out) == host.restore(value).0
            else
              out == line
  {
    assert line + [] == line;
    if DATA <= line {
      var restored := host.restore(TrimSpace(line[|DATA|..])).0;
      var out := DATA + [SPACE] + restored;
      assert out + [] == out && out[..|DATA|] == DATA && out[|DATA|..] == [SPACE] + restored;
    }
  }
}
