/** Where a chunk boundary gets a line break, what counts as a stream, and what an overlong event becomes, told by
    the bytes alone. */
module SseSeams {
  import opened Common
  import opened SseStream
  import opened SseChunking
  import opened SseClient

  function Ascii(s: string): Bytes
    requires forall i :: 0 <= i < |s| ==> s[i] < 128 as char
  {
    seq(|s|, i requires 0 <= i < |s| => s[i] as int as byte)
  }

  /** Some name stands behind nothing but bytes of `blanks`. */
  predicate Leads(p: Bytes, blanks: set<byte>, names: seq<Bytes>) {
    exists k :: 0 <= k <= |p| && OnlyOf(p[..k], blanks) && StandsAt(p, k, names)
  }

  predicate OnlyOf(p: Bytes, blanks: set<byte>) { forall i :: 0 <= i < |p| ==> p[i] in blanks }

  predicate StandsAt(p: Bytes, k: nat, names: seq<Bytes>) { exists i :: 0 <= i < |names| && OccursAt(p, k, names[i]) }

  // ------------------------------------------------------------------- field names

  const FIELDS: seq<Bytes> := [Ascii("data:"), Ascii("event:"), Ascii("id:"), Ascii("retry:"), Ascii(":")]

  const STARTS: seq<Bytes> := [Ascii("data:"), Ascii("event:"), Ascii(":")]

  lemma NamesAreAscii()
    ensures DATA == Ascii("data:") && EVENT == Ascii("event:") && ID == Ascii("id:") && RETRY == Ascii("retry:")
    ensures [COLON] == Ascii(":") && DONE == Ascii("[DONE]")
    ensures [SPACE] == Ascii(" ") && [TAB] == Ascii("\t") && [CR] == Ascii("\r") && [LF] == Ascii("\n")
  {}

  /** Trimming stops at the first byte that is not in the cutset. */
  lemma {:induction false} TrimmedAt(b: Bytes, cutset: set<byte>) returns (k: nat)
    ensures k <= |b| && TrimLeft(b, cutset) == b[k..] && OnlyOf(b[..k], cutset) && (k < |b| ==> b[k] !in cutset)
  {
    if b != [] && b[0] in cutset {
      var j := TrimmedAt(b[1..], cutset);
      k := j + 1;
      assert b[..k] == [b[0]] + b[1..][..j];
    } else {
      k := 0;
    }
  }

  /** A name that does not start with a blank leads a text exactly when the trimmed text starts with it. */
  lemma LeadsIsPrefix(p: Bytes, blanks: set<byte>, name: Bytes)
    requires name != [] && name[0] !in blanks
    ensures Leads(p, blanks, [name]) <==> name <= TrimLeft(p, blanks)
  {
    var k := TrimmedAt(p, blanks);
    assert forall i :: 0 <= i < k ==> p[i] == p[..k][i];
    if name <= p[k..] {
      assert OccursAt(p, k, name) && [name][0] == name;
    }
    if j :| 0 <= j <= |p| && OnlyOf(p[..j], blanks) && StandsAt(p, j, [name]) {
      assert OccursAt(p, j, name);
      OccursByte(p, j, name, 0);
      assert forall i :: 0 <= i < j ==> p[i] == p[..j][i];
      assert j == k;
    }
  }

  lemma LeadsOneOf(p: Bytes, blanks: set<byte>, names: seq<Bytes>)
    ensures Leads(p, blanks, names) <==> exists i :: 0 <= i < |names| && Leads(p, blanks, [names[i]])
  {
    if k :| 0 <= k <= |p| && OnlyOf(p[..k], blanks) && StandsAt(p, k, names) {
      var i :| 0 <= i < |names| && OccursAt(p, k, names[i]);
      assert [names[i]][0] == names[i];
      assert StandsAt(p, k, [names[i]]);
      assert Leads(p, blanks, [names[i]]);
    }
    if i :| 0 <= i < |names| && Leads(p, blanks, [names[i]]) {
      var k :| 0 <= k <= |p| && OnlyOf(p[..k], blanks) && StandsAt(p, k, [names[i]]);
      assert OccursAt(p, k, names[i]);
      assert StandsAt(p, k, names);
    }
  }

  // ------------------------------------------------------------------------ seams

  predicate EndsLine(text: Bytes) { text != [] && (text[|text| - 1] == LF || text[|text| - 1] == CR) }

  predicate StartsLine(text: Bytes) { text != [] && (text[0] == LF || text[0] == CR) }

  /** The text so far stops inside a line, and what follows starts with a field name or a comment. */
  predicate SplitsLine(before: Bytes, p: Bytes) {
    before != [] && !EndsLine(before) && p != [] && !StartsLine(p) && Leads(p, {SPACE, TAB}, FIELDS)
  }

  /** The text a run has fed to the event buffer: each piece behind a line feed when it splits a line. */
  function Seamed(before: Bytes, pieces: seq<Bytes>): Bytes
    decreases |pieces|
  {
    if pieces == [] then before
    else Seamed(before + (if SplitsLine(before, pieces[0]) then [LF] else []) + pieces[0], pieces[1..])
  }

  lemma FieldsLead(p: Bytes)
    ensures Leads(p, {SPACE, TAB}, FIELDS) <==>
            var t := TrimLeft(p, {SPACE, TAB}); DATA <= t || EVENT <= t || ID <= t || RETRY <= t || [COLON] <= t
  {
    NamesAreAscii();
    var names := [DATA, EVENT, ID, RETRY, [COLON]];
    assert FIELDS == names;
    LeadsOneOf(p, {SPACE, TAB}, names);
    LeadsIsPrefix(p, {SPACE, TAB}, DATA);
    LeadsIsPrefix(p, {SPACE, TAB}, EVENT);
    LeadsIsPrefix(p, {SPACE, TAB}, ID);
    LeadsIsPrefix(p, {SPACE, TAB}, RETRY);
    LeadsIsPrefix(p, {SPACE, TAB}, [COLON]);
    assert names[0] == DATA && names[1] == EVENT && names[2] == ID && names[3] == RETRY && names[4] == [COLON];
  }

  /** `rest` is the end of `text`, and is empty only behind a line feed. */
  predicate IsOpenRest(text: Bytes, rest: Bytes) {
    |rest| <= |text| && text[|text| - |rest|..] == rest && (rest == [] && text != [] ==> text[|text| - 1] == LF)
  }

  lemma RestOfRest(text: Bytes, cut: nat, rest: Bytes)
    requires 0 < cut <= |text| && text[cut - 1] == LF && IsOpenRest(text[cut..], rest)
    ensures IsOpenRest(text, rest)
  {
    assert text[cut..][|text| - cut - |rest|..] == text[|text| - |rest|..];
  }

  lemma DelimiterEnds(text: Bytes, d: nat, n: nat)
    requires d + n <= |text| && (n == 2 || n == 4) && text[d..d + n] == DelimiterBytes(n)
    ensures text[d + n - 1] == LF
  {
    assert text[d + n - 1] == text[d..d + n][n - 1];
  }

  /** The unterminated rest of a text ends where the text ends, and is empty only behind a delimiter. */
  lemma {:induction false} RestEnds(text: Bytes)
    ensures IsOpenRest(text, Extract(text).1)
    decreases |text|
  {
    var (d, n) := EventDelimiter(text);
    if n > 0 {
      DelimiterFits(text);
      DelimiterEnds(text, d, n);
      ExtractOne(text);
      RestEnds(text[d + n..]);
      RestOfRest(text, d + n, Extract(text).1);
    }
  }

  lemma OpenRestSplits(text: Bytes, rest: Bytes, p: Bytes)
    requires IsOpenRest(text, rest)
    ensures NeedsLineBreak(rest, p) <==> SplitsLine(text, p)
  {
    FieldsLead(p);
    assert rest != [] ==> rest[|rest| - 1] == text[|text| - 1];
  }

  lemma BreakIsSeam(text: Bytes, p: Bytes)
    ensures NeedsLineBreak(Extract(text).1, p) <==> SplitsLine(text, p)
    ensures Added(Extract(text).1, p) == (if SplitsLine(text, p) then [LF] else []) + p
  {
    RestEnds(text);
    OpenRestSplits(text, Extract(text).1, p);
    AddedIs(Extract(text).1, p, SplitsLine(text, p));
  }

  lemma AddedIs(buf: Bytes, p: Bytes, splits: bool)
    requires NeedsLineBreak(buf, p) == splits
    ensures Added(buf, p) == (if splits then [LF] else []) + p
  {
    assert [] + p == p;
  }

  /** What a run feeds to the event buffer, byte for byte: a line feed stands at exactly those seams where a line
      would run into a new field. */
  lemma {:induction false} FedBySeams(host: Host, before: Bytes, pieces: seq<Bytes>)
    requires WithinCap(host, SseState(Extract(before).1, false), pieces)
    ensures before + Fed(host, SseState(Extract(before).1, false), pieces) == Seamed(before, pieces)
    decreases |pieces|
  {
    var st := SseState(Extract(before).1, false);
    if pieces == [] {
      assert before + [] == before;
    } else {
      var p, added := pieces[0], Added(st.buf, pieces[0]);
      BreakIsSeam(before, p);
      ExtractMore(before, added);
      WriteIsExtract(host, st.buf, p);
      assert SseWrite(host, st, p).0 == SseState(Extract(before + added).1, false);
      FedBySeams(host, before + added, pieces[1..]);
      SeamedFirst(before, pieces, added);
      Associative(before, added, Fed(host, SseState(Extract(before + added).1, false), pieces[1..]));
    }
  }

  lemma SeamedFirst(before: Bytes, pieces: seq<Bytes>, added: Bytes)
    requires pieces != [] && added == (if SplitsLine(before, pieces[0]) then [LF] else []) + pieces[0]
    ensures Seamed(before, pieces) == Seamed(before + added, pieces[1..])
  {
    Associative(before, if SplitsLine(before, pieces[0]) then [LF] else [], pieces[0]);
  }

  /** A run from the start. */
  lemma FedIs(host: Host, pieces: seq<Bytes>)
    requires WithinCap(host, EMPTY, pieces)
    ensures Fed(host, EMPTY, pieces) == Seamed([], pieces)
  {
    var none: Bytes := [];
    assert Extract(none) == ([], none);
    FedBySeams(host, none, pieces);
    assert none + Fed(host, EMPTY, pieces) == Fed(host, EMPTY, pieces);
  }

  /** So any chunking of a recognisable stream emits what one write of its seamed text emits. */
  lemma ChunksBySeams(host: Host, chunks: seq<Bytes>)
    requires StartsAsSse(Concat(chunks)) && !host.restore([]).1
    requires WithinCap(host, EMPTY, Pieces([], chunks))
    ensures StreamOutput(host, chunks) == WholeOutput(host, Seamed([], Pieces([], chunks)))
  {
    ChunkingInvariance(host, chunks);
    FedIs(host, Pieces([], chunks));
  }

  // --------------------------------------------------------------- separate lines

  lemma {:induction false} OpenLineLength(f: Bytes, more: Bytes)
    requires more != [] && (more[0] == LF || LineLength(f) < |f|)
    ensures LineLength(f + more) == LineLength(f)
  {
    if f == [] {
      assert f + more == more;
    } else if f[0] != CR && f[0] != LF {
      assert (f + more)[1..] == f[1..] + more;
      OpenLineLength(f[1..], more);
    }
  }

  lemma LineLengthStops(f: Bytes)
    ensures LineLength(f) < |f| ==> f[LineLength(f)] == CR || f[LineLength(f)] == LF
    decreases |f|
  {
    if f != [] && f[0] != CR && f[0] != LF {
      LineLengthStops(f[1..]);
    }
  }

  lemma OpenAfterBreak(rest: Bytes, more: Bytes)
    requires rest != [] && StartsLine(rest) && !EndsLine(rest)
    ensures AfterBreak(rest + more) == AfterBreak(rest) + more
    ensures AfterBreak(rest) != [] && !EndsLine(AfterBreak(rest)) && |AfterBreak(rest)| < |rest|
  {
    assert |rest| >= 2;
    assert (rest + more)[1..] == rest[1..] + more && (rest + more)[2..] == rest[2..] + more;
  }

  lemma FirstOfTwo(s: Bytes, n: nat, tail: Bytes)
    requires s != [] && n == LineLength(s) && AfterBreak(s[n..]) == tail
    ensures ClientLines(s) == [s[..n]] + ClientLines(tail)
  {}

  /** A line feed behind an open line keeps what follows on lines of its own. */
  lemma {:induction false} SeamSeparates(f: Bytes, p: Bytes)
    requires f != [] && !EndsLine(f)
    ensures ClientLines(f + [LF] + p) == ClientLines(f) + ClientLines(p)
    decreases |f|
  {
    var n := LineLength(f);
    var tail := AfterBreak(f[n..]);
    FirstOfTwo(f, n, tail);
    SeamFirstLine(f, p);
    if n < |f| {
      LineLengthStops(f);
      OpenAfterBreak(f[n..], [LF] + p);
      SeamSeparates(tail, p);
      Associative([f[..n]], ClientLines(tail), ClientLines(p));
    }
  }

  lemma SeamFirstLine(f: Bytes, p: Bytes)
    requires f != [] && !EndsLine(f)
    ensures var n := LineLength(f); var tail := AfterBreak(f[n..]);
            ClientLines(f + [LF] + p) == [f[..n]] + ClientLines(if n < |f| then tail + [LF] + p else p) &&
            (n == |f| ==> ClientLines(f) == [f[..n]])
  {
    var s, n, more := f + [LF] + p, LineLength(f), [LF] + p;
    assert s == f + more;
    OpenLineLength(f, more);
    LineLengthStops(f);
    assert s[..n] == f[..n] && s[n..] == f[n..] + more;
    if n < |f| {
      OpenAfterBreak(f[n..], more);
      FirstOfTwo(s, n, AfterBreak(f[n..]) + more);
      Associative(AfterBreak(f[n..]), [LF], p);
    } else {
      assert f[n..] + more == more && more[1..] == p;
      FirstOfTwo(s, n, p);
      FirstOfTwo(f, n, []);
    }
  }

  /** Exactly one field or comment, without a line break. */
  predicate OneField(p: Bytes) { LF !in p && CR !in p && Leads(p, {SPACE, TAB}, FIELDS) }

  lemma FieldIsThere(p: Bytes)
    requires OneField(p)
    ensures p != [] && !EndsLine(p) && !StartsLine(p)
  {
    NamesAreAscii();
    FieldsLead(p);
  }

  /** Chunks that are one field line each reach the event buffer as those lines, none run into another. */
  lemma {:induction false} FieldLinesStayApart(before: Bytes, pieces: seq<Bytes>)
    requires before != [] && !EndsLine(before) && forall p :: p in pieces ==> OneField(p)
    ensures Seamed(before, pieces) == Join([before] + pieces, [LF])
    ensures ClientLines(Seamed(before, pieces)) == ClientLines(before) + pieces
    decreases |pieces|
  {
    if pieces == [] {
      assert [before] + pieces == [before] && ClientLines(before) + pieces == ClientLines(before);
    } else {
      var p, rest := pieces[0], pieces[1..];
      FieldIsThere(p);
      var text := before + [LF] + p;
      assert text[|text| - 1] == p[|p| - 1];
      FieldLinesStayApart(text, rest);
      assert Seamed(before, pieces) == Seamed(text, rest);
      assert pieces == [p] + rest;
      FieldLinesOf(before, p, rest);
      JoinMore(before, p, rest);
      Associative([before], [p], rest);
      assert [before] + [p] == [before, p];
    }
  }

  lemma FieldLinesOf(before: Bytes, p: Bytes, rest: seq<Bytes>)
    requires before != [] && !EndsLine(before) && OneField(p)
    ensures ClientLines(before + [LF] + p) + rest == ClientLines(before) + ([p] + rest)
  {
    FieldIsThere(p);
    SeamSeparates(before, p);
    OneClientLine(p);
    Associative(ClientLines(before), [p], rest);
  }

  lemma OneClientLine(p: Bytes)
    requires p != [] && LF !in p && CR !in p
    ensures ClientLines(p) == [p]
  {
    var none: Bytes := [];
    FirstClientLine(p, none, none);
    assert p + none + none == p;
  }

  lemma JoinMore(a: Bytes, b: Bytes, rest: seq<Bytes>)
    ensures Join([a + [LF] + b] + rest, [LF]) == Join([a, b] + rest, [LF])
  {
    assert ([a, b] + rest)[1..] == [b] + rest;
    assert ([b] + rest)[1..] == rest && ([a + [LF] + b] + rest)[1..] == rest;
    if rest == [] {
      assert [b] + rest == [b] && [a + [LF] + b] + rest == [a + [LF] + b];
    } else {
      var tail := [LF] + Join(rest, [LF]);
      assert Join([b] + rest, [LF]) == b + [LF] + Join(rest, [LF]) == b + tail;
      assert a + [LF] + (b + tail) == a + [LF] + b + tail;
    }
  }

  /** From the start: the fed text is the fields joined by line feeds, and a client reads them one by one. */
  lemma FieldChunks(host: Host, pieces: seq<Bytes>)
    requires pieces != [] && (forall p :: p in pieces ==> OneField(p)) && WithinCap(host, EMPTY, pieces)
    ensures Fed(host, EMPTY, pieces) == Join(pieces, [LF]) && ClientLines(Fed(host, EMPTY, pieces)) == pieces
  {
    FedIs(host, pieces);
    var p := pieces[0];
    FieldIsThere(p);
    assert [] + [] + p == p;
    FieldLinesStayApart(p, pieces[1..]);
    OneClientLine(p);
    assert [p] + pieces[1..] == pieces;
  }
}
