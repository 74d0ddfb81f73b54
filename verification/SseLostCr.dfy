/** What a client of the event-stream standard makes of a CR that the rewriter drops at the end of an event. */
module SseLostCr {
  import opened Common
  import opened SseStream
  import opened SseChunking
  import opened SseFraming
  import opened SseClient

  predicate IsBreak(b: byte) { b == LF || b == CR }

  // ------------------------------------------------------------ lines, first one off

  lemma {:induction false} LineStops(s: Bytes)
    ensures LineLength(s) < |s| ==> IsBreak(s[LineLength(s)])
  {
    if s != [] && !IsBreak(s[0]) {
      LineStops(s[1..]);
    }
  }

  /** The first line ends inside the text, whatever follows it. */
  predicate LineEndsInside(s: Bytes) {
    var n := LineLength(s);
    n < |s| && (s[n] == LF || n + 1 < |s|)
  }

  /** The first line, its break and what follows. */
  function Cut(s: Bytes): (Bytes, Bytes, Bytes)
    requires LineEndsInside(s)
  {
    var n := LineLength(s);
    var m := if s[n] == CR && s[n + 1] == LF then n + 2 else n + 1;
    (s[..n], s[n..m], s[m..])
  }

  predicate IsLine(line: Bytes, lineBreak: Bytes, rest: Bytes) {
    LF !in line && CR !in line &&
    (lineBreak == [LF] || lineBreak == [CR, LF] || (lineBreak == [CR] && rest != [] && rest[0] != LF))
  }

  lemma CutFacts(s: Bytes)
    requires LineEndsInside(s)
    ensures var (line, lineBreak, rest) := Cut(s); s == line + lineBreak + rest && IsLine(line, lineBreak, rest)
  {
    LineStops(s);
    LineHasNoBreak(s);
    var n := LineLength(s);
    assert s[n..n + 1] == [s[n]];
    if n + 1 < |s| {
      assert s[n..n + 2] == [s[n], s[n + 1]];
    }
  }

  /** A line that ends at a lone CR. */
  lemma FirstCrLine(text: Bytes, rest: Bytes)
    requires LF !in text && CR !in text && (rest == [] || rest[0] != LF)
    ensures ClientLines(text + [CR] + rest) == [text] + ClientLines(rest)
  {
    var s := text + [CR] + rest;
    assert s == text + ([CR] + rest);
    LineLengthIs(text, [CR] + rest);
    assert s[..|text|] == text && s[|text|..] == [CR] + rest && ([CR] + rest)[1..] == rest;
  }

  /** A cut line is the client's first line. */
  lemma CutLine(line: Bytes, lineBreak: Bytes, rest: Bytes)
    requires IsLine(line, lineBreak, rest)
    ensures ClientLines(line + lineBreak + rest) == [line] + ClientLines(rest)
  {
    if lineBreak == [CR] {
      FirstCrLine(line, rest);
    } else {
      FirstClientLine(line, lineBreak, rest);
    }
  }

  lemma FirstLineOff(s: Bytes, more: Bytes)
    requires LineEndsInside(s)
    ensures var (line, _, rest) := Cut(s);
            ClientLines(s + more) == [line] + ClientLines(rest + more) && ClientLines(s) == [line] + ClientLines(rest)
  {
    var (line, lineBreak, rest) := Cut(s);
    CutFacts(s);
    CutLine(line, lineBreak, rest);
    Associative(line + lineBreak, rest, more);
    CutLine(line, lineBreak, rest + more);
  }

  /** Without such a line the text is one line, perhaps with a CR behind it. */
  lemma NoCut(s: Bytes)
    requires !LineEndsInside(s)
    ensures var line := s[..LineLength(s)]; LF !in line && CR !in line && (s == line || s == line + [CR])
  {
    LineStops(s);
    LineHasNoBreak(s);
    if LineLength(s) < |s| {
      assert s == s[..LineLength(s)] + [CR];
    }
  }

  lemma EndedText(a: Bytes)
    requires a != [] && a[|a| - 1] == LF
    ensures LineEndsInside(a) && (Cut(a).2 == [] || Cut(a).2[|Cut(a).2| - 1] == LF)
  {
    LineStops(a);
    LineHasNoBreak(a);
    var n := LineLength(a);
    assert a[..|a|] == a && a[|a| - 1] in a[..|a|];
    CutFacts(a);
    var (line, lineBreak, rest) := Cut(a);
    EndOfCut(line, lineBreak, rest);
  }

  /** A text that ends in a line feed and what follows it have their lines one after the other. */
  lemma {:induction false} ClientLinesConcat(a: Bytes, b: Bytes)
    requires a == [] || a[|a| - 1] == LF
    ensures ClientLines(a + b) == ClientLines(a) + ClientLines(b)
    decreases |a|
  {
    if a == [] {
      assert a + b == b && ClientLines(a) + ClientLines(b) == ClientLines(b);
    } else {
      EndedText(a);
      var (line, _, rest) := Cut(a);
      CutFacts(a);
      FirstLineOff(a, b);
      ClientLinesConcat(rest, b);
      Associative([line], ClientLines(rest), ClientLines(b));
    }
  }

  // ------------------------------------------------------------------ blocks of lines

  function OpenAfter(line: Bytes, open: seq<Bytes>): seq<Bytes> { if line == [] then [] else open + [line] }

  function Ended(line: Bytes, open: seq<Bytes>): seq<seq<Bytes>> { if line == [] && open != [] then [open] else [] }

  lemma BlockStep(line: Bytes, lines: seq<Bytes>, open: seq<Bytes>)
    ensures Blocks([line] + lines, open) == Ended(line, open) + Blocks(lines, OpenAfter(line, open))
  {
    assert ([line] + lines)[1..] == lines;
    assert line != [] ==> Ended(line, open) + Blocks(lines, open + [line]) == Blocks(lines, open + [line]);
  }

  /** A list of lines that ends with a blank one is read apart from what follows. */
  lemma {:induction false} BlocksConcat(a: seq<Bytes>, b: seq<Bytes>, open: seq<Bytes>)
    requires a != [] && a[|a| - 1] == []
    ensures Blocks(a + b, open) == Blocks(a, open) + Blocks(b, [])
    decreases |a|
  {
    var rest := a[1..];
    assert a == [a[0]] + rest && a + b == [a[0]] + (rest + b);
    BlockStep(a[0], rest + b, open);
    BlockStep(a[0], rest, open);
    if rest == [] {
      assert rest + b == b && Blocks(rest, OpenAfter(a[0], open)) == [];
      assert Ended(a[0], open) + [] == Ended(a[0], open);
    } else {
      BlocksConcat(rest, b, OpenAfter(a[0], open));
      Associative(Ended(a[0], open), Blocks(rest, OpenAfter(a[0], open)), Blocks(b, []));
    }
  }

  function Blanks(k: nat): seq<Bytes> { if k == 0 then [] else [[]] + Blanks(k - 1) }

  lemma {:induction false} BlanksAreNothing(k: nat)
    ensures Blocks(Blanks(k), []) == []
  {
    if k > 0 {
      BlockStep([], Blanks(k - 1), []);
      BlanksAreNothing(k - 1);
    }
  }

  /** How many blank lines end an event does not matter. */
  lemma BlankTail(line: Bytes, k: nat, open: seq<Bytes>)
    requires k > 0
    ensures Blocks([line] + Blanks(k), open) == Ended(line, open) + Ended([], OpenAfter(line, open))
  {
    BlockStep(line, Blanks(k), open);
    BlockStep([], Blanks(k - 1), OpenAfter(line, open));
    BlanksAreNothing(k - 1);
    assert Ended([], OpenAfter(line, open)) + [] == Ended([], OpenAfter(line, open));
  }

  // ------------------------------------------------- a CR dropped before a delimiter

  lemma BlankLines()
    ensures ClientLines([LF]) == Blanks(1) && ClientLines([CR, LF]) == Blanks(1)
  {
    var none: Bytes := [];
    CutLine(none, [LF], none);
    CutLine(none, [CR, LF], none);
    assert none + [LF] + none == [LF] && none + [CR, LF] + none == [CR, LF];
  }

  /** A last line without a break, and the delimiter behind it. */
  lemma LastLine(line: Bytes, n: nat)
    requires LF !in line && CR !in line
    ensures ClientLines(line + DelimiterBytes(n)) == [line] + Blanks(1)
  {
    var half := HalfDelimiter(n);
    BlankLines();
    CutLine(line, half, half);
    assert half + half == DelimiterBytes(n);
    Associative(line, half, half);
  }

  /** The same with a CR between them. */
  lemma LastLineCr(line: Bytes, n: nat)
    requires LF !in line && CR !in line
    ensures ClientLines(line + [CR] + DelimiterBytes(n)) == [line] + Blanks(if n == 4 then 2 else 1)
  {
    BlankLines();
    if n == 4 {
      var none: Bytes := [];
      LastLine(none, 4);
      assert none + DelimiterBytes(4) == DelimiterBytes(4);
      CutLine(line, [CR], DelimiterBytes(4));
    } else {
      assert line + [CR] + DelimiterBytes(n) == line + [CR, LF] + [LF];
      CutLine(line, [CR, LF], [LF]);
    }
  }

  /** And with two. */
  lemma LastLineTwoCrs(line: Bytes, n: nat)
    requires LF !in line && CR !in line
    ensures ClientLines(line + [CR] + [CR] + DelimiterBytes(n)) == [line] + Blanks(if n == 4 then 3 else 2)
  {
    var none: Bytes := [];
    var rest := [CR] + DelimiterBytes(n);
    LastLineCr(none, n);
    assert none + [CR] + DelimiterBytes(n) == rest;
    CutLine(line, [CR], rest);
    assert line + [CR] + rest == line + [CR] + [CR] + DelimiterBytes(n);
  }

  /** A CR between an event and its delimiter makes no difference to the events. */
  lemma {:induction false} CrBeforeDelimiter(b: Bytes, n: nat, open: seq<Bytes>)
    ensures Blocks(ClientLines(b + [CR] + DelimiterBytes(n)), open) == Blocks(ClientLines(b + DelimiterBytes(n)), open)
    decreases |b|
  {
    var d := DelimiterBytes(n);
    if LineEndsInside(b) {
      var (line, _, rest) := Cut(b);
      CutFacts(b);
      FirstLineOff(b, [CR] + d);
      FirstLineOff(b, d);
      Associative(b, [CR], d);
      Associative(rest, [CR], d);
      CrBeforeDelimiter(rest, n, OpenAfter(line, open));
      BlockStep(line, ClientLines(rest + [CR] + d), open);
      BlockStep(line, ClientLines(rest + d), open);
    } else {
      NoCut(b);
      CrBehindLastLine(b, b[..LineLength(b)], n, open);
    }
  }

  lemma CrBehindLastLine(b: Bytes, line: Bytes, n: nat, open: seq<Bytes>)
    requires LF !in line && CR !in line && (b == line || b == line + [CR])
    ensures Blocks(ClientLines(b + [CR] + DelimiterBytes(n)), open) == Blocks(ClientLines(b + DelimiterBytes(n)), open)
  {
    LastLine(line, n);
    LastLineCr(line, n);
    LastLineTwoCrs(line, n);
    BlankTail(line, 1, open);
    BlankTail(line, 2, open);
    BlankTail(line, 3, open);
  }

  // --------------------------------------------------------- a CR dropped at the end

  /** The CR behind `t` would end a block that is open there: `t` ends in a line break and its last line is not
      blank. */
  predicate EndsBlock(t: Bytes, open: seq<Bytes>) { Closes(t, ClientLines(t), open) }

  predicate Closes(t: Bytes, lines: seq<Bytes>, open: seq<Bytes>) {
    if t == [] then open != [] else IsBreak(t[|t| - 1]) && lines != [] && lines[|lines| - 1] != []
  }

  /** What holds of two lists of events, the second of which has one more at its end if one is lost. */
  ghost predicate SameUnless(lost: bool, out: seq<seq<Bytes>>, whole: seq<seq<Bytes>>) {
    if lost then |whole| == |out| + 1 && whole[..|out|] == out else out == whole
  }

  lemma SameUnlessConcat(lost: bool, first: seq<seq<Bytes>>, out: seq<seq<Bytes>>, whole: seq<seq<Bytes>>)
    requires SameUnless(lost, out, whole)
    ensures SameUnless(lost, first + out, first + whole)
  {
    assert lost ==> (first + whole)[..|first + out|] == first + whole[..|out|];
  }

  lemma {:induction false} CrAtEnd(t: Bytes, open: seq<Bytes>)
    ensures SameUnless(EndsBlock(t, open), Blocks(ClientLines(t), open), Blocks(ClientLines(t + [CR]), open))
    decreases |t|
  {
    if LineEndsInside(t) {
      var (line, _, rest) := Cut(t);
      CutFacts(t);
      FirstLineOff(t, [CR]);
      CrAtEnd(rest, OpenAfter(line, open));
      BlockStep(line, ClientLines(rest + [CR]), open);
      BlockStep(line, ClientLines(rest), open);
      EndsBlockStep(t, open);
      SameUnlessConcat(EndsBlock(t, open), Ended(line, open), Blocks(ClientLines(rest), OpenAfter(line, open)),
                       Blocks(ClientLines(rest + [CR]), OpenAfter(line, open)));
    } else {
      NoCut(t);
      CrAtLastLine(t, t[..LineLength(t)], open);
    }
  }

  lemma EndsBlockStep(t: Bytes, open: seq<Bytes>)
    requires LineEndsInside(t)
    ensures EndsBlock(t, open) <==> EndsBlock(Cut(t).2, OpenAfter(Cut(t).0, open))
  {
    var (line, lineBreak, rest) := Cut(t);
    CutFacts(t);
    CutLine(line, lineBreak, rest);
    EndOfCut(line, lineBreak, rest);
    SomeLines(rest);
    ClosesStep(t, rest, line, ClientLines(rest), open);
  }

  lemma SomeLines(s: Bytes)
    ensures ClientLines(s) == [] <==> s == []
  {}

  lemma ClosesStep(t: Bytes, rest: Bytes, line: Bytes, lines: seq<Bytes>, open: seq<Bytes>)
    requires t != [] && if rest == [] then IsBreak(t[|t| - 1]) else t[|t| - 1] == rest[|rest| - 1]
    requires lines == [] <==> rest == []
    ensures Closes(t, [line] + lines, open) <==> Closes(rest, lines, OpenAfter(line, open))
  {
    if rest != [] {
      LastOf(line, lines);
    }
  }

  lemma EndOfCut(line: Bytes, lineBreak: Bytes, rest: Bytes)
    requires IsLine(line, lineBreak, rest)
    ensures var t := line + lineBreak + rest;
            t != [] && if rest == [] then IsBreak(t[|t| - 1]) else t[|t| - 1] == rest[|rest| - 1]
  {}

  lemma LastOf(line: Bytes, lines: seq<Bytes>)
    requires lines != []
    ensures ([line] + lines)[|[line] + lines| - 1] == lines[|lines| - 1]
  {}

  lemma CrAtLastLine(t: Bytes, line: Bytes, open: seq<Bytes>)
    requires LF !in line && CR !in line && (t == line || t == line + [CR])
    ensures SameUnless(EndsBlock(t, open), Blocks(ClientLines(t), open), Blocks(ClientLines(t + [CR]), open))
  {
    OnlyLine(line);
    BlankTail(line, 1, open);
    var none: seq<Bytes> := [];
    BlockStep(line, none, open);
    assert [line] + none == [line] && Ended(line, open) + Blocks(none, OpenAfter(line, open)) == Ended(line, open);
    if t == line && t == [] {
      assert t + [CR] == line + [CR];
      assert Ended([], open) == if open != [] then [open] else [];
    }
  }

  /** A line with nothing, one CR or two CRs behind it. */
  lemma OnlyLine(line: Bytes)
    requires LF !in line && CR !in line
    ensures ClientLines(line) == (if line == [] then [] else [line]) && ClientLines(line + [CR]) == [line]
    ensures ClientLines(line + [CR] + [CR]) == [line] + Blanks(1)
  {
    var none: Bytes := [];
    FirstCrLine(none, none);
    FirstCrLine(line, none);
    CutLine(line, [CR], [CR]);
    assert none + [CR] + none == [CR] && line + [CR] + none == line + [CR];
    assert [line] + ClientLines(none) == [line] && [none] + ClientLines(none) == [none] && Blanks(1) == [none];
    if line != [] {
      FirstClientLine(line, none, none);
      assert line + none + none == line;
    }
  }

  // ------------------------------------------------------------- the events of a text

  /** The events of an event's text and of the text behind it. */
  lemma EventApart(body: Bytes, n: nat, rest: Bytes)
    ensures ClientEvents(body + DelimiterBytes(n) + rest) == ClientEvents(body + DelimiterBytes(n)) + ClientEvents(rest)
  {
    var head := body + DelimiterBytes(n);
    var half := HalfDelimiter(n);
    assert head[|head| - 1] == LF && head == body + half + half;
    ClientLinesConcat(head, rest);
    ClientLinesConcat(body + half, half);
    BlankLines();
    assert Blanks(1) == [[]] && ClientLines(half) == [[]];
    BlocksConcat(ClientLines(head), ClientLines(rest), []);
  }

  /** The end of the text: a CR there that ends an event is not put out. */
  predicate LosesLast(text: Bytes) {
    var tail := Extract(text).1;
    EndsInBareCr(tail) && EndsBlock(DropBareCr(tail), [])
  }

  lemma TailEvents(tail: Bytes)
    ensures SameUnless(EndsInBareCr(tail) && EndsBlock(DropBareCr(tail), []),
              ClientEvents(DropBareCr(tail)), ClientEvents(tail))
  {
    if EndsInBareCr(tail) {
      assert tail == DropBareCr(tail) + [CR];
      CrAtEnd(DropBareCr(tail), []);
    }
  }

  lemma BodyEvents(body: Bytes, n: nat)
    ensures ClientEvents(DropBareCr(body) + DelimiterBytes(n)) == ClientEvents(body + DelimiterBytes(n))
  {
    if EndsInBareCr(body) {
      assert body == DropBareCr(body) + [CR];
      CrBeforeDelimiter(DropBareCr(body), n, []);
    }
  }

  lemma FirstOfText(text: Bytes)
    requires EventDelimiter(text).1 > 0
    ensures var (d, n) := EventDelimiter(text);
            d + n <= |text| && (n == 2 || n == 4) && text == text[..d] + DelimiterBytes(n) + text[d + n..]
  {
    DelimiterFits(text);
    var (d, n) := EventDelimiter(text);
    CutSpells(text, d, n, DelimiterBytes(n));
  }

  // --------------------------------------------------------------- unchanged payloads

  /** The same for a whole text, whatever its bytes. */
  lemma {:induction false} UnchangedEvents(host: Host, text: Bytes)
    requires KeepsAll(host, text)
    ensures SameUnless(LosesLast(text), ClientEvents(Concat(WholeOutput(host, text))), ClientEvents(text))
    decreases |text|
  {
    var (d, n) := EventDelimiter(text);
    if n == 0 {
      assert WholeOutput(host, text) == RewrittenLines(host, text);
      RewriteKeeps(host, text);
      TailEvents(text);
    } else {
      FirstOfText(text);
      var e, rest := Event(text[..d], n), text[d + n..];
      ExtractFirst(text, e, rest);
      assert e in Extract(text).0;
      assert forall f :: f in Extract(rest).0 ==> f in Extract(text).0;
      UnchangedEvents(host, rest);
      RewriteKeeps(host, e.body);
      OutputFirst(host, text, e, rest);
      BodyEvents(e.body, n);
      EventApart(e.body, n, rest);
      EventApart(DropBareCr(e.body), n, Concat(WholeOutput(host, rest)));
      SameUnlessConcat(LosesLast(rest), ClientEvents(e.body + DelimiterBytes(n)),
                       ClientEvents(Concat(WholeOutput(host, rest))), ClientEvents(rest));
    }
  }

  /** When no payload changes, a client of the standard reads the same events from the output, except that the last
      one is lost exactly when a CR at the very end of the text is all that ends it. */
  lemma UnchangedClient(host: Host, chunks: seq<Bytes>)
    requires StartsAsSse(Concat(chunks)) && !host.restore([]).1 && WithinCap(host, EMPTY, Pieces([], chunks))
    requires KeepsAll(host, Fed(host, EMPTY, Pieces([], chunks)))
    ensures var fed := Fed(host, EMPTY, Pieces([], chunks));
            var out := ClientEvents(Concat(StreamOutput(host, chunks)));
            (out == ClientEvents(fed) <==> !LosesLast(fed)) &&
            (LosesLast(fed) ==> |ClientEvents(fed)| == |out| + 1 && ClientEvents(fed)[..|out|] == out)
    ensures Breaks(host, EMPTY, Pieces([], chunks)) == 0 ==> Fed(host, EMPTY, Pieces([], chunks)) == Concat(chunks)
  {
    OutputIsWhole(host, chunks);
    UnchangedEvents(host, Fed(host, EMPTY, Pieces([], chunks)));
  }

  // ----------------------------------------------------------------- changed payloads

  /** A CR is the first half of a CR LF or the last byte of an event. */
  predicate PairedCrs(text: Bytes) {
    (forall e :: e in Extract(text).0 ==> NoLoneCr(DropBareCr(e.body))) && NoLoneCr(DropBareCr(Extract(text).1))
  }

  lemma {:induction false} RestoredBlocksConcat(host: Host, a: seq<seq<Bytes>>, b: seq<seq<Bytes>>)
    ensures RestoredBlocks(host, a + b) == RestoredBlocks(host, a) + RestoredBlocks(host, b)
    ensures |RestoredBlocks(host, a)| == |a|
  {
    if a == [] {
      assert a + b == b;
    } else {
      assert (a + b)[0] == a[0] && (a + b)[1..] == a[1..] + b;
      RestoredBlocksConcat(host, a[1..], b);
    }
  }

  lemma SameUnlessRestored(host: Host, lost: bool, out: seq<seq<Bytes>>, whole: seq<seq<Bytes>>)
    requires SameUnless(lost, out, whole)
    ensures SameUnless(lost, RestoredBlocks(host, out), RestoredBlocks(host, whole))
  {
    if lost {
      assert whole == out + whole[|out|..];
      RestoredBlocksConcat(host, out, whole[|out|..]);
      RestoredBlocksConcat(host, whole, []);
    }
  }

  /** A piece of output whose lines are the restored lines of a piece of text. */
  lemma PieceRestored(host: Host, piece: Bytes, out: Bytes)
    requires OneLinePayloads(host) && NoLoneCr(piece) && NoLoneCr(out)
    requires Texts(LinesOf(out)) == RestoredTexts(host, Texts(LinesOf(piece)))
    ensures ClientEvents(out) == RestoredBlocks(host, ClientEvents(piece))
  {
    ClientLinesAre(piece);
    ClientLinesAre(out);
    ClientLinesHaveNoBreak(piece);
    BlocksRestored(host, ClientLines(piece), []);
  }

  lemma DroppedOutput(host: Host, body: Bytes)
    requires NoLoneCr(DropBareCr(body))
    ensures Concat(RewrittenLines(host, body)) == Concat(RewrittenLines(host, DropBareCr(body)))
  {
    if EndsInBareCr(body) {
      assert body == DropBareCr(body) + [CR];
      DroppedCrOutput(host, DropBareCr(body));
    }
  }

  lemma EventEventsRestored(host: Host, body: Bytes, n: nat)
    requires OneLinePayloads(host) && NoLoneCr(DropBareCr(body))
    ensures ClientEvents(Concat(RewrittenLines(host, body)) + DelimiterBytes(n)) ==
            RestoredBlocks(host, ClientEvents(body + DelimiterBytes(n)))
  {
    DroppedOutput(host, body);
    BodyEvents(body, n);
    PairedEventRestored(host, DropBareCr(body), n);
  }

  lemma PairedEventRestored(host: Host, b: Bytes, n: nat)
    requires OneLinePayloads(host) && NoLoneCr(b)
    ensures ClientEvents(Concat(RewrittenLines(host, b)) + DelimiterBytes(n)) ==
            RestoredBlocks(host, ClientEvents(b + DelimiterBytes(n)))
  {
    var out, d := Concat(RewrittenLines(host, b)), DelimiterBytes(n);
    RewrittenHasNoLoneCr(host, b);
    NoLoneCrConcat(b, d);
    NoLoneCrConcat(out, d);
    PairedEventTexts(host, b, n);
    PieceRestored(host, b + d, out + d);
  }

  lemma PairedEventTexts(host: Host, b: Bytes, n: nat)
    requires OneLinePayloads(host) && NoLoneCr(b)
    ensures Texts(LinesOf(Concat(RewrittenLines(host, b)) + DelimiterBytes(n))) ==
            RestoredTexts(host, Texts(LinesOf(b + DelimiterBytes(n))))
  {
    var none: Bytes := [];
    var out, d := Concat(RewrittenLines(host, b)), DelimiterBytes(n);
    PlainEventRestored(host, b, n);
    EventOutputTexts(host, Event(b, n), none, none);
    assert out + d + none == out + d && b + d + none == b + d;
  }

  lemma TailEventsRestored(host: Host, tail: Bytes)
    requires OneLinePayloads(host) && NoLoneCr(DropBareCr(tail))
    ensures SameUnless(EndsInBareCr(tail) && EndsBlock(DropBareCr(tail), []),
              ClientEvents(Concat(RewrittenLines(host, tail))), RestoredBlocks(host, ClientEvents(tail)))
  {
    var t := DropBareCr(tail);
    DroppedOutput(host, tail);
    TailEvents(tail);
    SameUnlessRestored(host, EndsInBareCr(tail) && EndsBlock(t, []), ClientEvents(t), ClientEvents(tail));
    RewrittenHasNoLoneCr(host, t);
    RewriteIsLinewise(host, t);
    RestoredLinesTexts(host, LinesOf(t));
    PieceRestored(host, t, Concat(RewrittenLines(host, t)));
  }

  lemma {:induction false} RestoredEvents(host: Host, text: Bytes)
    requires OneLinePayloads(host) && PairedCrs(text)
    ensures SameUnless(LosesLast(text), ClientEvents(Concat(WholeOutput(host, text))),
              RestoredBlocks(host, ClientEvents(text)))
    decreases |text|
  {
    var (d, n) := EventDelimiter(text);
    if n == 0 {
      assert WholeOutput(host, text) == RewrittenLines(host, text);
      TailEventsRestored(host, text);
    } else {
      FirstOfText(text);
      var e, rest := Event(text[..d], n), text[d + n..];
      ExtractFirst(text, e, rest);
      assert e in Extract(text).0;
      assert forall f :: f in Extract(rest).0 ==> f in Extract(text).0;
      RestoredEvents(host, rest);
      OutputFirst(host, text, e, rest);
      EventEventsRestored(host, e.body, n);
      EventApart(e.body, n, rest);
      EventApart(Concat(RewrittenLines(host, e.body)), n, Concat(WholeOutput(host, rest)));
      RestoredBlocksConcat(host, ClientEvents(e.body + DelimiterBytes(n)), ClientEvents(rest));
      SameUnlessConcat(LosesLast(rest), RestoredBlocks(host, ClientEvents(e.body + DelimiterBytes(n))),
                       ClientEvents(Concat(WholeOutput(host, rest))), RestoredBlocks(host, ClientEvents(rest)));
    }
  }

  /** However the stream is cut into chunks, when every CR is half of a CR LF or ends an event: a client of the
      standard reads the events of what was fed, line for line, with the payloads of the data lines restored, except
      that the last one is lost exactly when a CR at the very end is all that ends it. */
  lemma ClientSeesSameEvents(host: Host, chunks: seq<Bytes>)
    requires StartsAsSse(Concat(chunks)) && !host.restore([]).1 && WithinCap(host, EMPTY, Pieces([], chunks))
    requires OneLinePayloads(host) && PairedCrs(Fed(host, EMPTY, Pieces([], chunks)))
    ensures var fed := Fed(host, EMPTY, Pieces([], chunks));
            var out := ClientEvents(Concat(StreamOutput(host, chunks)));
            var events := RestoredBlocks(host, ClientEvents(fed));
            (out == events <==> !LosesLast(fed)) &&
            (LosesLast(fed) ==> |events| == |out| + 1 && events[..|out|] == out)
    ensures Breaks(host, EMPTY, Pieces([], chunks)) == 0 ==> Fed(host, EMPTY, Pieces([], chunks)) == Concat(chunks)
  {
    OutputIsWhole(host, chunks);
    RestoredEvents(host, Fed(host, EMPTY, Pieces([], chunks)));
  }

  /** Without lone CRs nothing is ever lost. */
  lemma {:induction false} NoLoneCrIsPaired(text: Bytes)
    requires NoLoneCr(text)
    ensures PairedCrs(text) && !LosesLast(text)
    decreases |text|
  {
    var (d, n) := EventDelimiter(text);
    if n == 0 {
      assert text[..|text|] == text;
      BodyHasNoLoneCr(text, |text|);
    } else {
      EventHasNoLoneCr(text);
      FirstOfText(text);
      var e, rest := Event(text[..d], n), text[d + n..];
      ExtractFirst(text, e, rest);
      BodyHasNoLoneCr(text, d);
      NoLoneCrIsPaired(rest);
    }
  }

  // --------------------------------------------------------------------- the input

  /** `data:x`, CR LF, CR: the CR ends the event for a client. */
  const CLOSED_BY_CR: Bytes := [100, 97, 116, 97, 58, 120, CR, LF, CR]

  lemma ClosedByCrIsOpen()
    ensures Extract(CLOSED_BY_CR) == ([], CLOSED_BY_CR)
  {
    var s := CLOSED_BY_CR;
    forall i ensures !OccursAt(s, i, [LF, LF]) && !OccursAt(s, i, [CR, LF, CR, LF]) {
      if 0 <= i && i + 2 <= |s| {
        assert s[i..i + 2] == [s[i], s[i + 1]];
      }
      FourBytes(s, i);
    }
    NoEventIsFree(s);
  }

  lemma CrIsBlank()
    ensures ClientLines([CR]) == Blanks(1)
  {
    var none: Bytes := [];
    FirstCrLine(none, none);
    assert none + [CR] + none == [CR] && ClientLines(none) == [] && [none] + ClientLines(none) == [none];
  }

  lemma ClosedLines(line: Bytes)
    requires LF !in line && CR !in line
    ensures ClientLines(line + [CR, LF] + [CR]) == [line] + Blanks(1) && ClientLines(line + [CR, LF]) == [line]
  {
    var none: Bytes := [];
    CrIsBlank();
    FirstClientLine(line, [CR, LF], [CR]);
    FirstClientLine(line, [CR, LF], none);
    SomeLines(none);
    assert line + [CR, LF] + none == line + [CR, LF] && [line] + ClientLines(none) == [line];
  }

  lemma ClosedLine(line: Bytes)
    requires LF !in line && CR !in line && line != []
    ensures ClientEvents(line + [CR, LF] + [CR]) == [[line]] && EndsBlock(line + [CR, LF], [])
  {
    var open: seq<Bytes> := [];
    ClosedLines(line);
    BlankTail(line, 1, open);
    assert open + [line] == [line];
    var t := line + [CR, LF];
    assert t[|t| - 1] == LF;
  }

  lemma ClosedByCr()
    ensures LosesLast(CLOSED_BY_CR) && ClientEvents(CLOSED_BY_CR) == [[CLOSED_BY_CR[..6]]]
  {
    var line := CLOSED_BY_CR[..6];
    ClosedByCrIsOpen();
    ClosedLine(line);
    assert CLOSED_BY_CR == line + [CR, LF] + [CR] && DropBareCr(CLOSED_BY_CR) == line + [CR, LF];
  }

  lemma OneChunkIsWhole(host: Host, text: Bytes)
    requires StartsAsSse(text) && !host.restore([]).1 && |Extract(text).1| <= CAP
    ensures StreamOutput(host, [text]) == WholeOutput(host, text)
  {
    assert [text][1..] == [] && Concat([text]) == text + [] == text && [] + text == text;
    StartIsSse(text);
    EmptyIsNothing();
    assert Pieces([], [text]) == [text];
    assert WithinCap(host, EMPTY, [text]);
    OutputIsWhole(host, [text]);
    assert Fed(host, EMPTY, [text]) == text;
  }

  /** That event reaches the rewriter and does not leave it. */
  lemma EventLost(host: Host)
    requires !host.restore([]).1 && KeepsAll(host, CLOSED_BY_CR)
    ensures ClientEvents(CLOSED_BY_CR) == [[CLOSED_BY_CR[..6]]]
    ensures ClientEvents(Concat(StreamOutput(host, [CLOSED_BY_CR]))) == []
  {
    var s := CLOSED_BY_CR;
    ClosedByCrIsOpen();
    ClosedByCr();
    assert s[..5] == DATA;
    OneChunkIsWhole(host, s);
    UnchangedEvents(host, s);
  }
}
