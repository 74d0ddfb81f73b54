/** Whether the output of the rewriter cuts at its own delimiters into the events of the text. */
module SseCuts {
  import opened Common
  import opened SseStream
  import opened SseChunking
  import opened SseFraming
  import opened SseClient

  // ------------------------------------------------- the output of one event

  /** Two lists of lines with the same blank lines and the same breaks, up to the break of a last line with text. */
  predicate SameShape(a: seq<Line>, b: seq<Line>) {
    if a == [] || b == [] then a == b
    else
      (a[0].text == [] <==> b[0].text == []) &&
      ((|a| > 1 || |b| > 1 || a[0].text == []) ==> a[0].lineBreak == b[0].lineBreak) && SameShape(a[1..], b[1..])
  }

  lemma {:induction false} SameShapeFree(a: seq<Line>, b: seq<Line>)
    requires SameShape(a, b)
    ensures LinesFree(a) <==> LinesFree(b)
  {
    if |a| >= 2 {
      assert a[1..][0] == a[1] && b[1..][0] == b[1] && |b| >= 2;
      SameShapeFree(a[1..], b[1..]);
    }
  }

  lemma SameShapeCons(first: Line, out: Line, a: seq<Line>, b: seq<Line>)
    requires SameShape(a, b) && out.lineBreak == first.lineBreak && (out.text == [] <==> first.text == [])
    ensures SameShape([out] + a, [first] + b)
  {
    assert ([out] + a)[1..] == a && ([first] + b)[1..] == b;
  }

  /** An event that ends in two CRs, of which one is dropped. */
  lemma {:induction false} TwoCrsShape(host: Host, c: Bytes)
    requires SingleLine(host) && EndsInBareCr(c)
    ensures SameShape(LinesOf(Concat(RewrittenLines(host, c + [CR])) + [LF]), LinesOf(c + [LF]))
    decreases |c|
  {
    var (text, lineBreak, rest) := FirstLine(c);
    FirstLineKinds(c);
    if lineBreak == [] {
      TwoCrsLastLine(host, c);
    } else {
      BrokenLine(c);
      TwoCrsShape(host, rest);
      var out := RewriteLine(host, text, []);
      RestoredIsOneLine(host, text);
      BreakLast(host, text, lineBreak);
      BrokenLineThen(c, [CR]);
      BrokenLineThen(c, [LF]);
      OutputFirstLine(host, c + [CR], text, lineBreak, rest + [CR]);
      var more := Concat(RewrittenLines(host, rest + [CR]));
      Associative(out + lineBreak, more, [LF]);
      FirstLineIs(out, lineBreak, more + [LF]);
      LineFirst(c + [LF], text, lineBreak, rest + [LF]);
      LineFirst(out + lineBreak + (more + [LF]), out, lineBreak, more + [LF]);
      SameShapeCons(Line(text, lineBreak), Line(out, lineBreak), LinesOf(more + [LF]), LinesOf(rest + [LF]));
    }
  }

  /** A first line with a break is cut off, whatever follows. */
  lemma BrokenLine(s: Bytes)
    requires s != [] && FirstLine(s).1 != []
    ensures s == FirstLine(s).0 + FirstLine(s).1 + FirstLine(s).2
    ensures EndsInBareCr(s) <==> EndsInBareCr(FirstLine(s).2)
  {
    var end := IndexFrom(s, 0, [LF]);
    FirstLineSlices(s, end.value);
    assert s == s[..end.value + 1] + s[end.value + 1..];
  }

  lemma BrokenLineThen(s: Bytes, more: Bytes)
    requires s != [] && FirstLine(s).1 != []
    ensures s + more != [] && FirstLine(s + more) == (FirstLine(s).0, FirstLine(s).1, FirstLine(s).2 + more)
  {
    var (text, lineBreak, rest) := FirstLine(s);
    BrokenLine(s);
    FirstLineKinds(s);
    Associative(text + lineBreak, rest, more);
    FirstLineIs(text, lineBreak, rest + more);
  }

  lemma TwoCrsLastLine(host: Host, c: Bytes)
    requires SingleLine(host) && EndsInBareCr(c) && FirstLine(c).1 == []
    ensures SameShape(LinesOf(Concat(RewrittenLines(host, c + [CR])) + [LF]), LinesOf(c + [LF]))
  {
    var m, none: Bytes := c[..|c| - 1], [];
    UnbrokenLine(c);
    assert c == m + [CR];
    LastLineWithCr(c);
    OneLine(host, c + [CR], c, none);
    var out := RewriteLine(host, c, none);
    assert c + [LF] == m + [CR, LF] + none && out + [LF] == out + [LF] + none;
    FirstLineIs(m, [CR, LF], none);
    LineFirst(c + [LF], m, [CR, LF], none);
    if out != c {
      RestoredLineEnds(host, c);
      FirstLineIs(out, [LF], none);
      LineFirst(out + [LF], out, [LF], none);
    } else {
      assert c + none == c;
    }
  }

  lemma UnbrokenLine(c: Bytes)
    requires c != [] && FirstLine(c).1 == []
    ensures LF !in c
  {
    var end := IndexFrom(c, 0, [LF]);
    forall j | 0 <= j < |c| ensures c[j] != LF {
      assert c[j..j + 1] == [c[j]];
      assert !OccursAt(c, j, [LF]);
    }
  }

  /** A line that changes is a data line with text, and stays one. */
  lemma RestoredLineEnds(host: Host, line: Bytes)
    requires SingleLine(host) && RewriteLine(host, line, []) != line
    ensures var out := RewriteLine(host, line, []);
            |line| > 1 && out != [] && LF !in out && !EndsInBareCr(out)
  {
    assert line + [] == line;
    var restored := host.restore(TrimSpace(line[|DATA|..])).0;
    var out := DATA + [SPACE] + restored;
    assert out + [] == out && out[|out| - 1] == if restored == [] then SPACE else restored[|restored| - 1];
  }

  /** A CR LF behind an event, of which the CR may as well be the event's own. */
  lemma {:induction false} CrThenLf(host: Host, c: Bytes)
    ensures Concat(RewrittenLines(host, c + [CR, LF])) == Concat(RewrittenLines(host, c + [CR])) + [CR, LF]
    decreases |c|
  {
    if c == [] || FirstLine(c).1 == [] {
      CrThenLfLastLine(host, c);
    } else {
      var (text, lineBreak, rest) := FirstLine(c);
      BrokenLineThen(c, [CR, LF]);
      BrokenLineThen(c, [CR]);
      CrThenLf(host, rest);
      BreakFurtherOn(host, c + [CR], c + [CR, LF], text, lineBreak, rest + [CR], rest + [CR, LF], [CR, LF]);
    }
  }

  lemma CrThenLfLastLine(host: Host, c: Bytes)
    requires c == [] || FirstLine(c).1 == []
    ensures Concat(RewrittenLines(host, c + [CR, LF])) == Concat(RewrittenLines(host, c + [CR])) + [CR, LF]
  {
    var none: Bytes := [];
    if c != [] {
      UnbrokenLine(c);
    }
    LastLineWithCr(c);
    OneLine(host, c + [CR], c, none);
    assert c + [CR, LF] + none == c + [CR, LF];
    FirstLineIs(c, [CR, LF], none);
    OneLine(host, c + [CR, LF], c, [CR, LF]);
    BreakLast(host, c, [CR, LF]);
  }

  // -------------------------------------------------------- free of delimiters

  lemma FreePrefix(a: Bytes, b: Bytes)
    requires DelimiterFree(a + b)
    ensures DelimiterFree(a)
  {
    forall i ensures !OccursAt(a, i, [LF, LF]) && !OccursAt(a, i, [CR, LF, CR, LF]) {
      if 0 <= i && i + 2 <= |a| {
        OccursInPrefix(a, b, i, [LF, LF]);
      }
      if 0 <= i && i + 4 <= |a| {
        OccursInPrefix(a, b, i, [CR, LF, CR, LF]);
      }
    }
  }

  /** The output of an event and half its delimiter is free of delimiters exactly when the event without its bare CR
      and half its delimiter is. */
  lemma OutputFree(host: Host, body: Bytes, n: nat)
    requires SingleLine(host) && (n == 2 || n == 4)
    ensures DelimiterFree(Concat(RewrittenLines(host, body)) + HalfDelimiter(n)) <==>
            DelimiterFree(DropBareCr(body) + HalfDelimiter(n))
  {
    var c, half := DropBareCr(body), HalfDelimiter(n);
    if !EndsInBareCr(c) {
      RewriteThenBreak(host, c, n);
      RewriteKeepsFree(host, c + half);
      if EndsInBareCr(body) {
        assert body == c + [CR];
        DroppedCrOutput(host, c);
      }
    } else {
      assert body == c + [CR];
      if n == 4 {
        CrThenLf(host, c);
        RewriteKeepsFree(host, c + half);
      } else {
        TwoCrsShape(host, c);
        SameShapeFree(LinesOf(Concat(RewrittenLines(host, body)) + [LF]), LinesOf(c + [LF]));
        FreeByLines(c + [LF]);
        FreeByLines(Concat(RewrittenLines(host, body)) + [LF]);
      }
    }
  }

  /** The output of a text without a delimiter has none. */
  lemma TailFree(host: Host, tail: Bytes)
    requires SingleLine(host) && DelimiterFree(tail)
    ensures DelimiterFree(Concat(RewrittenLines(host, tail)))
  {
    var c := DropBareCr(tail);
    if EndsInBareCr(tail) {
      assert tail == c + [CR];
      FreePrefix(c, [CR]);
    }
    if !EndsInBareCr(c) {
      RewriteKeepsFree(host, c);
      if EndsInBareCr(tail) {
        DroppedCrOutput(host, c);
      }
    } else {
      LineFeedBehindCrs(c);
      CrThenLf(host, c);
      RewriteKeepsFree(host, c + [CR, LF]);
      FreePrefix(Concat(RewrittenLines(host, tail)), [CR, LF]);
    }
  }

  lemma LineFeedBehindCrs(c: Bytes)
    requires EndsInBareCr(c) && DelimiterFree(c + [CR])
    ensures DelimiterFree(c + [CR, LF])
  {
    var s := c + [CR, LF];
    assert s == c + [CR] + [LF];
    forall i ensures !OccursAt(s, i, [LF, LF]) && !OccursAt(s, i, [CR, LF, CR, LF]) {
      StartsWithLineFeed(s, i);
      if 0 <= i && i + 2 < |s| {
        OccursInPrefix(c + [CR], [LF], i, [LF, LF]);
      }
      FourBytes(s, i);
      if 0 <= i && i + 4 < |s| {
        OccursInPrefix(c + [CR], [LF], i, [CR, LF, CR, LF]);
      }
    }
  }

  // ---------------------------------------------------------------- the events

  function RewrittenEvent(host: Host, e: Event): Event { Event(Concat(RewrittenLines(host, e.body)), e.delimiter) }

  lemma EventEndsAgain(host: Host, e: Event, more: Bytes)
    requires SingleLine(host) && (e.delimiter == 2 || e.delimiter == 4)
    ensures EventDelimiter(Emit(host, e) + more) == (|Concat(RewrittenLines(host, e.body))|, e.delimiter) <==>
            DelimiterFree(DropBareCr(e.body) + HalfDelimiter(e.delimiter))
  {
    var out, s := Concat(RewrittenLines(host, e.body)), Emit(host, e) + more;
    OutputFree(host, e.body, e.delimiter);
    if DelimiterFree(out + HalfDelimiter(e.delimiter)) {
      EndsHere(out, e.delimiter, more);
    }
    if EventDelimiter(s) == (|out|, e.delimiter) {
      EndedHere(s);
      assert s[..|out|] == out;
    }
  }

  lemma EventCutOff(host: Host, e: Event, more: Bytes)
    requires e.delimiter == 2 || e.delimiter == 4
    requires EventDelimiter(Emit(host, e) + more) == (|Concat(RewrittenLines(host, e.body))|, e.delimiter)
    ensures Extract(Emit(host, e) + more) ==
            ([Event(Concat(RewrittenLines(host, e.body)), e.delimiter)] + Extract(more).0, Extract(more).1)
  {
    var out := Concat(RewrittenLines(host, e.body));
    var s := Emit(host, e) + more;
    assert s[..|out|] == out && s[|out| + e.delimiter..] == more;
    ExtractFirst(s, Event(out, e.delimiter), more);
  }

  /** Without its bare CR, no event of the text has a delimiter in it. */
  ghost predicate EndsStand(text: Bytes) {
    forall e :: e in Extract(text).0 ==> DelimiterFree(DropBareCr(e.body) + HalfDelimiter(e.delimiter))
  }

  lemma EndsStandStep(text: Bytes, e: Event, rest: Bytes)
    requires Extract(text) == ([e] + Extract(rest).0, Extract(rest).1)
    ensures EndsStand(text) <==> DelimiterFree(DropBareCr(e.body) + HalfDelimiter(e.delimiter)) && EndsStand(rest)
  {
    assert forall f :: f in Extract(text).0 <==> f == e || f in Extract(rest).0;
  }

  /** The output of a text cuts into the text's events, with the same delimiters and each rewritten, and its
      unfinished rest rewritten, exactly when no event gets a delimiter by losing its bare CR. */
  lemma {:induction false} SameEvents(host: Host, text: Bytes)
    requires SingleLine(host)
    ensures EndsStand(text) <==>
              Extract(Concat(WholeOutput(host, text))) ==
              (RewrittenEvents(host, Extract(text).0), Concat(RewrittenLines(host, Extract(text).1)))
    decreases |text|
  {
    var (d, n) := EventDelimiter(text);
    if n == 0 {
      assert WholeOutput(host, text) == RewrittenLines(host, text);
      NoEventIsFree(text);
      TailFree(host, text);
      NoEventIsFree(Concat(RewrittenLines(host, text)));
    } else {
      DelimiterFits(text);
      var e, rest := Event(text[..d], n), text[d + n..];
      ExtractFirst(text, e, rest);
      SameEvents(host, rest);
      EndsStandStep(text, e, rest);
      OutputFirst(host, text, e, rest);
      FirstOfOutput(host, e, Concat(WholeOutput(host, rest)), RewrittenEvents(host, Extract(rest).0),
                    Concat(RewrittenLines(host, Extract(rest).1)));
    }
  }

  /** The output begins with the rewritten event exactly when that event's end stands. */
  lemma FirstOfOutput(host: Host, e: Event, more: Bytes, events: seq<Event>, tail: Bytes)
    requires SingleLine(host) && (e.delimiter == 2 || e.delimiter == 4)
    ensures Extract(Emit(host, e) + more) == ([RewrittenEvent(host, e)] + events, tail) <==>
            DelimiterFree(DropBareCr(e.body) + HalfDelimiter(e.delimiter)) && Extract(more) == (events, tail)
  {
    var s, first := Emit(host, e) + more, RewrittenEvent(host, e);
    EventEndsAgain(host, e, more);
    if Extract(s) == ([first] + events, tail) {
      ExtractOne(s);
      assert Extract(s).0 != [] && Extract(s).0[0] == first;
    }
    if EventDelimiter(s) == (|first.body|, e.delimiter) {
      EventCutOff(host, e, more);
      assert ([first] + Extract(more).0)[1..] == Extract(more).0 && ([first] + events)[1..] == events;
    }
  }

  /** In particular when no event ends in a bare CR. */
  lemma {:induction false} NoBareCrStands(text: Bytes)
    requires LostCrs(text) == 0
    ensures EndsStand(text)
    decreases |text|
  {
    if EventDelimiter(text).1 > 0 {
      EndedHere(text);
      var (d, n) := EventDelimiter(text);
      var e, rest := Event(text[..d], n), text[d + n..];
      ExtractFirst(text, e, rest);
      assert ([e] + Extract(rest).0)[1..] == Extract(rest).0;
      NoBareCrStands(rest);
      EndsStandStep(text, e, rest);
    }
  }

  /** However the stream is cut into chunks, its output cuts at the program's own delimiters into the events of what
      was fed exactly when every end stands, and each has its event's lines restored in place exactly when its last
      line stands. */
  lemma StreamCutsAlike(host: Host, chunks: seq<Bytes>)
    requires StartsAsSse(Concat(chunks)) && !host.restore([]).1 && WithinCap(host, EMPTY, Pieces([], chunks))
    requires SingleLine(host)
    ensures var fed := Fed(host, EMPTY, Pieces([], chunks));
            EndsStand(fed) <==>
              Extract(Concat(StreamOutput(host, chunks))) ==
              (RewrittenEvents(host, Extract(fed).0), Concat(RewrittenLines(host, Extract(fed).1)))
    ensures forall e :: e in Extract(Fed(host, EMPTY, Pieces([], chunks))).0 ==>
              (LinesOf(Concat(RewrittenLines(host, e.body))) == RestoredLines(host, LinesOf(e.body)) <==>
               LastLineStands(host, LinesOf(e.body)))
    ensures Breaks(host, EMPTY, Pieces([], chunks)) == 0 ==> Fed(host, EMPTY, Pieces([], chunks)) == Concat(chunks)
  {
    var fed := Fed(host, EMPTY, Pieces([], chunks));
    OutputIsWhole(host, chunks);
    SameEvents(host, fed);
    forall e | e in Extract(fed).0
      ensures LinesOf(Concat(RewrittenLines(host, e.body))) == RestoredLines(host, LinesOf(e.body)) <==>
              LastLineStands(host, LinesOf(e.body))
    {
      RewriteIsLinewise(host, e.body);
    }
  }
}
