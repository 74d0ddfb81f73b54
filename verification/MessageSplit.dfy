/** Cutting a message body into parts a platform accepts. */
module MessageSplit {
  import opened Common

  const SEP: Bytes := [10, 10]

  /** The body cut at every blank line, leftmost first. */
  function Sections(body: Bytes): (r: seq<Bytes>)
    ensures r != []
    decreases |body|
  {
    var k := IndexFrom(body, 0, SEP);
    if k.None? then [body] else [body[..k.value]] + Sections(body[k.value + 2..])
  }

  /** Gluing the sections gives the body back, and none has a blank line in it. */
  lemma {:induction false} SectionsSpell(body: Bytes)
    ensures var blank: Bytes := [10, 10];
            Join(Sections(body), blank) == body && forall s, i :: s in Sections(body) ==> !OccursAt(s, i, blank)
    decreases |body|
  {
    var k := IndexFrom(body, 0, SEP);
    if k.Some? {
      SectionsSpell(body[k.value + 2..]);
      var head := body[..k.value];
      forall i ensures !OccursAt(head, i, SEP) {
        HeadOccurrence(body, k.value, i);
      }
      assert body == head + SEP + body[k.value + 2..];
    }
  }

  lemma HeadOccurrence(body: Bytes, n: nat, i: int)
    requires n <= |body|
    ensures OccursAt(body[..n], i, SEP) ==> OccursAt(body, i, SEP) && i < n
  {
    if OccursAt(body[..n], i, SEP) {
      assert body[i..i + 2] == body[..n][i..i + 2];
    }
  }

  // ------------------------------------------------------- what the parts spell

  function Seps(n: nat): Bytes { if n == 0 then [] else Seps(n - 1) + SEP }

  /** The parts in order, part i after gaps[i] separators. */
  function Weave(parts: seq<Bytes>, gaps: seq<nat>): Bytes
    requires |parts| == |gaps|
  {
    if parts == [] then []
    else Weave(parts[..|parts| - 1], gaps[..|gaps| - 1]) + Seps(gaps[|gaps| - 1]) + parts[|parts| - 1]
  }

  predicate GoodParts(parts: seq<Bytes>, limit: nat) { forall p :: p in parts ==> 0 < |p| <= limit }

  /** Only separators are missing between the parts, and no two neighbours could have been one part. */
  ghost predicate Spells(parts: seq<Bytes>, body: Bytes, limit: nat) {
    exists gaps, last :: SpellsWith(parts, gaps, last, body) && Tight(parts, gaps, limit)
  }

  predicate SpellsWith(parts: seq<Bytes>, gaps: seq<nat>, last: nat, body: Bytes) {
    |gaps| == |parts| && body == Weave(parts, gaps) + Seps(last)
  }

  ghost predicate NoSeparator(s: Bytes) { forall i :: !OccursAt(s, i, SEP) }

  /** A part and `n` bytes behind `gap` separators do not fit together; without a separator between them the part is a
      full piece of one section. */
  ghost predicate Apart(part: Bytes, gap: nat, n: nat, limit: nat) {
    |part| + 2 * gap + n > limit && (gap == 0 ==> |part| == limit && NoSeparator(part))
  }

  /** Neighbouring parts could not have been one, and are cut between sections unless a section is too long. */
  ghost predicate Tight(parts: seq<Bytes>, gaps: seq<nat>, limit: nat) {
    |gaps| == |parts| &&
    forall i :: 0 <= i < |parts| - 1 ==> Apart(parts[i], gaps[i + 1], |parts[i + 1]|, limit)
  }

  /** The same with `n` more bytes to come after `gap` separators. */
  ghost predicate TightBefore(parts: seq<Bytes>, gaps: seq<nat>, gap: nat, n: nat, limit: nat) {
    Tight(parts, gaps, limit) && (parts != [] ==> Apart(parts[|parts| - 1], gap, n, limit))
  }

  /** The same while `rest` is still to be taken, behind a separator if one is owed. */
  ghost predicate TightSoFar(parts: seq<Bytes>, gaps: seq<nat>, gap: nat, current: Bytes, owed: Bytes, rest: Bytes,
      limit: nat) {
    if current != [] then TightBefore(parts, gaps, gap, |current|, limit)
    else TightBefore(parts, gaps, gap + (if owed == [] then 0 else 1), |rest|, limit)
  }

  lemma TightClose(parts: seq<Bytes>, gaps: seq<nat>, gap: nat, current: Bytes, limit: nat)
    requires TightBefore(parts, gaps, gap, |current|, limit)
    ensures Tight(parts + [current], gaps + [gap], limit)
  {}

  /** `text` has been cut into good parts, and after `gap` more separators `current` is still open. */
  predicate Packed(text: Bytes, parts: seq<Bytes>, gaps: seq<nat>, gap: nat, current: Bytes, limit: nat) {
    && |gaps| == |parts| && text == Weave(parts, gaps) + Seps(gap) + current
    && |current| <= limit && GoodParts(parts, limit)
  }

  lemma Close(text: Bytes, parts: seq<Bytes>, gaps: seq<nat>, gap: nat, current: Bytes, limit: nat)
    requires Packed(text, parts, gaps, gap, current, limit) && current != []
    ensures Packed(text, parts + [current], gaps + [gap], 0, [], limit)
  {
    assert (parts + [current])[..|parts|] == parts && (gaps + [gap])[..|gaps|] == gaps;
  }

  lemma Skip(text: Bytes, parts: seq<Bytes>, gaps: seq<nat>, gap: nat, limit: nat)
    requires Packed(text, parts, gaps, gap, [], limit)
    ensures Packed(text + SEP, parts, gaps, gap + 1, [], limit)
  {
    Associative(Weave(parts, gaps), Seps(gap), SEP);
  }

  lemma Extend(text: Bytes, parts: seq<Bytes>, gaps: seq<nat>, gap: nat, current: Bytes, more: Bytes, limit: nat)
    requires Packed(text, parts, gaps, gap, current, limit) && |current + more| <= limit
    ensures Packed(text + more, parts, gaps, gap, current + more, limit)
  {
    Associative(Weave(parts, gaps) + Seps(gap), current, more);
  }

  // ------------------------------------------------------------- fewest parts

  function Joined(groups: seq<seq<Bytes>>): seq<Bytes> {
    if groups == [] then [] else Joined(groups[..|groups| - 1]) + [Join(groups[|groups| - 1], SEP)]
  }

  /** A cut of the sections at section boundaries into parts that fit. */
  ghost predicate IsCut(groups: seq<seq<Bytes>>, sections: seq<Bytes>, limit: nat) {
    Concat(groups) == sections && forall g :: g in groups ==> g != [] && |Join(g, SEP)| <= limit
  }

  /** Every cut has more than `closed` parts, and one with just one more ends in a part of at least `len` bytes. */
  ghost predicate Ahead(sections: seq<Bytes>, closed: nat, len: nat, limit: nat) {
    forall groups :: IsCut(groups, sections, limit) ==> Behind(groups, closed, len)
  }

  ghost predicate Behind(groups: seq<seq<Bytes>>, closed: nat, len: nat) {
    |groups| > closed && (|groups| == closed + 1 ==> LastLength(groups) >= len)
  }

  function LastLength(groups: seq<seq<Bytes>>): nat
    requires groups != []
  {
    |Join(groups[|groups| - 1], SEP)|
  }

  lemma {:induction false} JoinAppend(parts: seq<Bytes>, x: Bytes)
    requires parts != []
    ensures Join(parts + [x], SEP) == Join(parts, SEP) + SEP + x
  {
    if |parts| == 1 {
      assert (parts + [x])[1..] == [x];
    } else {
      assert (parts + [x])[0] == parts[0] && (parts + [x])[1..] == parts[1..] + [x];
      JoinAppend(parts[1..], x);
      Regroup(parts[0] + SEP, Join(parts[1..], SEP), SEP, x);
    }
  }

  /** The cut without its last section: one part fewer, or its last part one section shorter. */
  lemma DropLast(groups: seq<seq<Bytes>>, sections: seq<Bytes>, x: Bytes, limit: nat) returns (shorter: seq<seq<Bytes>>)
    requires IsCut(groups, sections + [x], limit)
    ensures IsCut(shorter, sections, limit)
    ensures groups != [] && LastLength(groups) <= limit
    ensures (|shorter| == |groups| - 1 && LastLength(groups) == |x|) ||
            (|shorter| == |groups| && LastLength(groups) == LastLength(shorter) + 2 + |x|)
  {
    assert groups != [];
    var n := |groups| - 1;
    var front, last := groups[..n], groups[n];
    assert groups == front + [last] && last in groups;
    ConcatAppend(front, [last]);
    ConcatOne(last);
    assert Concat(front) + last == sections + [x];
    var m := |last| - 1;
    var init := last[..m];
    assert last == init + [last[m]] && last[m] == (Concat(front) + last)[|Concat(front)| + m] == x;
    assert sections == (Concat(front) + last)[..|Concat(front)| + m] == Concat(front) + init;
    if init == [] {
      shorter := front;
      assert last == [x] && Concat(front) + init == Concat(front);
    } else {
      shorter := front + [init];
      ConcatAppend(front, [init]);
      ConcatOne(init);
      JoinAppend(init, x);
      assert |Join(init, SEP)| <= limit;
    }
    forall g | g in shorter ensures g != [] && |Join(g, SEP)| <= limit {
      assert g == init || g in groups;
    }
  }

  /** Taking one more section: the packer stays ahead of every cut. */
  lemma StaysAhead(sections: seq<Bytes>, x: Bytes, closed: nat, len: nat, limit: nat)
    requires Ahead(sections, closed, len, limit)
    ensures len + 2 + |x| <= limit ==> Ahead(sections + [x], closed, len + 2 + |x|, limit)
    ensures len + 2 + |x| > limit ==> Ahead(sections + [x], closed + 1, |x|, limit)
  {
    forall groups | IsCut(groups, sections + [x], limit)
      ensures len + 2 + |x| <= limit ==> Behind(groups, closed, len + 2 + |x|)
      ensures len + 2 + |x| > limit ==> Behind(groups, closed + 1, |x|)
    {
      var shorter := DropLast(groups, sections, x, limit);
      assert Behind(shorter, closed, len);
    }
  }

  lemma AheadOfOne(x: Bytes, limit: nat)
    ensures Ahead([x], 0, |x|, limit)
  {
    forall groups | IsCut(groups, [x], limit)
      ensures Behind(groups, 0, |x|)
    {
      var none: seq<Bytes> := [];
      assert none + [x] == [x];
      var shorter := DropLast(groups, none, x, limit);
    }
  }

  /** The packer's groups after some sections: those closed and the one still open. */
  ghost predicate Greedy(sections: seq<Bytes>, closed: seq<seq<Bytes>>, open: seq<Bytes>, parts: seq<Bytes>,
      current: Bytes, limit: nat) {
    && parts == Joined(closed) && current == Join(open, SEP) && open != []
    && IsCut(closed + [open], sections, limit) && Ahead(sections, |closed|, |current|, limit)
  }

  lemma GreedyStart(x: Bytes, limit: nat)
    requires |x| <= limit
    ensures Greedy([x], [], [x], [], x, limit)
  {
    AheadOfOne(x, limit);
    ConcatOne([x]);
    var none: seq<seq<Bytes>> := [];
    assert none + [[x]] == [[x]];
  }

  lemma GreedyFits(sections: seq<Bytes>, closed: seq<seq<Bytes>>, open: seq<Bytes>, parts: seq<Bytes>,
      current: Bytes, x: Bytes, limit: nat)
    requires Greedy(sections, closed, open, parts, current, limit) && |current + SEP + x| <= limit
    ensures Greedy(sections + [x], closed, open + [x], parts, current + SEP + x, limit)
  {
    StaysAhead(sections, x, |closed|, |current|, limit);
    JoinAppend(open, x);
    var groups := closed + [open + [x]];
    ConcatAppend(closed, [open]);
    ConcatAppend(closed, [open + [x]]);
    ConcatOne(open);
    ConcatOne(open + [x]);
    Associative(Concat(closed), open, [x]);
    forall g | g in groups ensures g != [] && |Join(g, SEP)| <= limit {
      assert g == open + [x] || g in closed + [open];
    }
  }

  lemma ConcatOne(g: seq<Bytes>)
    ensures Concat([g]) == g
  {
    assert [g][1..] == [] && g + [] == g;
  }

  lemma GreedyCloses(sections: seq<Bytes>, closed: seq<seq<Bytes>>, open: seq<Bytes>, parts: seq<Bytes>,
      current: Bytes, x: Bytes, limit: nat)
    requires Greedy(sections, closed, open, parts, current, limit) && |current + SEP + x| > limit && |x| <= limit
    ensures Greedy(sections + [x], closed + [open], [x], parts + [current], x, limit)
  {
    StaysAhead(sections, x, |closed|, |current|, limit);
    ConcatAppend(closed + [open], [[x]]);
    ConcatOne([x]);
    assert (closed + [open])[..|closed|] == closed;
    var groups := closed + [open] + [[x]];
    forall g | g in groups ensures g != [] && |Join(g, SEP)| <= limit {
      assert g == [x] || g in closed + [open];
    }
  }

  /** Every section is there and fits. */
  predicate Plain(sections: seq<Bytes>, limit: nat) { forall s :: s in sections ==> 0 < |s| <= limit }

  /** The parts are a cut at section boundaries, and no cut has fewer. */
  ghost predicate FewestParts(parts: seq<Bytes>, sections: seq<Bytes>, limit: nat) {
    && (exists groups :: IsCut(groups, sections, limit) && parts == Joined(groups))
    && (forall groups :: IsCut(groups, sections, limit) ==> |parts| <= |groups|)
  }

  lemma {:induction false} JoinedLength(groups: seq<seq<Bytes>>)
    ensures |Joined(groups)| == |groups|
  {
    if groups != [] {
      JoinedLength(groups[..|groups| - 1]);
    }
  }

  lemma GreedyIsFewest(sections: seq<Bytes>, closed: seq<seq<Bytes>>, open: seq<Bytes>, parts: seq<Bytes>,
      current: Bytes, limit: nat)
    requires Greedy(sections, closed, open, parts, current, limit)
    ensures FewestParts(parts + [current], sections, limit)
  {
    var groups := closed + [open];
    assert groups[..|closed|] == closed;
    assert parts + [current] == Joined(groups);
    JoinedLength(closed);
  }

  lemma WholeIsFewest(body: Bytes, sections: seq<Bytes>, limit: nat)
    requires |body| <= limit && sections != [] && Join(sections, SEP) == body
    ensures FewestParts([body], sections, limit)
  {
    var groups := [sections];
    ConcatOne(sections);
    JoinedOne(sections);
    assert IsCut(groups, sections, limit) && [body] == Joined(groups);
    forall other | IsCut(other, sections, limit) ensures |[body]| <= |other| {
      assert Concat(other) != [];
    }
  }

  lemma JoinedOne(g: seq<Bytes>)
    ensures Joined([g]) == [Join(g, SEP)]
  {
    assert [g][..0] == [];
  }

  // ---------------------------------------------------------------- the splitter

  lemma WholeSpells(body: Bytes, limit: nat)
    ensures Spells([body], body, limit)
  {
    var gaps: seq<nat> := [0];
    assert [body][..0] == [] && gaps[..0] == [];
    assert SpellsWith([body], gaps, 0, body);
  }

  /** What closes `current` before a piece of the next section is taken; `owed` is the separator before that section. */
  lemma CloseAndSkip(text: Bytes, parts: seq<Bytes>, gaps: seq<nat>, gap: nat, current: Bytes, owed: Bytes, limit: nat)
    returns (gaps': seq<nat>, gap': nat)
    requires Packed(text, parts, gaps, gap, current, limit) && (owed == [] || owed == SEP)
    ensures Packed(text + owed, if current == [] then parts else parts + [current], gaps', gap', [], limit)
    ensures gaps' == if current == [] then gaps else gaps + [gap]
    ensures gap' == (if current == [] then gap else 0) + if owed == [] then 0 else 1
  {
    gaps', gap' := gaps, gap;
    if current != [] {
      Close(text, parts, gaps, gap, current, limit);
      gaps', gap' := gaps + [gap], 0;
    }
    if owed == [] {
      assert text + owed == text;
    } else {
      Skip(text, if current == [] then parts else parts + [current], gaps', gap', limit);
      gap' := gap' + 1;
    }
  }

  /** The inner loop: an oversized section is cut hard. */
  method HardCut(parts: seq<Bytes>, current: Bytes, section: Bytes, limit: nat,
                 ghost owed: Bytes, ghost text: Bytes, ghost gaps: seq<nat>, ghost gap: nat)
    returns (parts': seq<Bytes>, current': Bytes, rest: Bytes, ghost owed': Bytes, ghost text': Bytes,
        ghost gaps': seq<nat>, ghost gap': nat)
    requires limit > 0 && Packed(text, parts, gaps, gap, current, limit) && (owed == [] || owed == SEP)
    requires TightSoFar(parts, gaps, gap, current, owed, section, limit) && NoSeparator(section)
    requires current != [] ==> owed == SEP
    ensures Packed(text', parts', gaps', gap', current', limit) && (owed' == [] || owed' == SEP)
    ensures TightSoFar(parts', gaps', gap', current', owed', rest, limit)
    ensures text' + owed' + rest == text + owed + section && |rest| <= limit
    ensures owed == [] && current == [] ==> owed' == [] && current' == []
    ensures current' != [] ==> owed' == owed
    ensures |section| <= limit ==> parts' == parts && current' == current && rest == section
  {
    parts', current', rest, owed', text', gaps', gap' := parts, current, section, owed, text, gaps, gap;
    while |rest| > limit
      invariant Packed(text', parts', gaps', gap', current', limit) && (owed' == [] || owed' == SEP)
      invariant text' + owed' + rest == text + owed + section
      invariant |section| <= limit ==> parts' == parts && current' == current && rest == section
      invariant owed == [] && current == [] ==> owed' == [] && current' == []
      invariant current' != [] ==> owed' == owed
      invariant TightSoFar(parts', gaps', gap', current', owed', rest, limit) && NoSeparator(rest)
    {
      TightPiece(parts', gaps', gap', current', owed', rest, limit);
      gaps', gap' := CloseAndSkip(text', parts', gaps', gap', current', owed', limit);
      if current' != [] {
        parts' := parts' + [current'];
        current' := [];
      }
      var piece := rest[..limit];
      TakePiece(text' + owed', parts', gaps', gap', piece, limit);
      MovePiece(text' + owed', rest, limit);
      parts', gaps', gap' := parts' + [piece], gaps' + [gap'], 0;
      rest, text', owed' := rest[limit..], text' + owed' + piece, [];
    }
  }

  /** A full piece of the rest closes what is open and leaves the rest to come right behind it. */
  lemma TightPiece(parts: seq<Bytes>, gaps: seq<nat>, gap: nat, current: Bytes, owed: Bytes, rest: Bytes, limit: nat)
    requires limit > 0 && TightSoFar(parts, gaps, gap, current, owed, rest, limit) && |rest| > limit
    requires GoodParts(parts, limit) && NoSeparator(rest) && (current != [] ==> owed == SEP)
    ensures var closed := if current == [] then parts else parts + [current];
            var gaps' := if current == [] then gaps else gaps + [gap];
            var gap' := (if current == [] then gap else 0) + if owed == [] then 0 else 1;
            TightBefore(closed + [rest[..limit]], gaps' + [gap'], 0, |rest| - limit, limit)
    ensures NoSeparator(rest[limit..])
  {
    var closed := if current == [] then parts else parts + [current];
    var gaps' := if current == [] then gaps else gaps + [gap];
    var gap' := (if current == [] then gap else 0) + if owed == [] then 0 else 1;
    if current != [] {
      TightClose(parts, gaps, gap, current, limit);
    } else {
      assert parts != [] ==> parts[|parts| - 1] in parts;
    }
    TightClose(closed, gaps', gap', rest[..limit], limit);
    NoSeparatorParts(rest, limit);
  }

  lemma NoSeparatorParts(s: Bytes, k: nat)
    requires NoSeparator(s) && k <= |s|
    ensures NoSeparator(s[..k]) && NoSeparator(s[k..])
  {
    forall i ensures !OccursAt(s[..k], i, SEP) {
      HeadOccurrence(s, k, i);
    }
    forall i ensures !OccursAt(s[k..], i, SEP) {
      assert !OccursAt(s, k + i, SEP);
      assert 0 <= i && i + 2 <= |s| - k ==> s[k..][i..i + 2] == s[k + i..k + i + 2];
    }
  }

  lemma MovePiece(text: Bytes, rest: Bytes, limit: nat)
    requires limit <= |rest|
    ensures text + rest[..limit] + [] + rest[limit..] == text + rest
  {}

  lemma TakePiece(text: Bytes, parts: seq<Bytes>, gaps: seq<nat>, gap: nat, piece: Bytes, limit: nat)
    requires Packed(text, parts, gaps, gap, [], limit) && 0 < |piece| <= limit
    ensures Packed(text + piece, parts + [piece], gaps + [gap], 0, [], limit)
  {
    OpenPiece(text, parts, gaps, gap, piece, limit);
    Close(text + piece, parts, gaps, gap, piece, limit);
  }

  lemma OpenPiece(text: Bytes, parts: seq<Bytes>, gaps: seq<nat>, gap: nat, piece: Bytes, limit: nat)
    requires Packed(text, parts, gaps, gap, [], limit) && |piece| <= limit
    ensures Packed(text + piece, parts, gaps, gap, piece, limit)
  {
    var none: Bytes := [];
    assert none + piece == piece;
    Extend(text, parts, gaps, gap, [], piece, limit);
  }

  /** One turn of the section loop; `owed` is the separator before the section, empty at the first. */
  method TakeSection(parts: seq<Bytes>, current: Bytes, section: Bytes, limit: nat,
                     ghost owed: Bytes, ghost text: Bytes, ghost gaps: seq<nat>, ghost gap: nat)
    returns (parts': seq<Bytes>, current': Bytes, ghost gaps': seq<nat>, ghost gap': nat)
    requires limit > 0 && Packed(text, parts, gaps, gap, current, limit)
    requires owed == SEP || (owed == [] && current == [])
    requires TightBefore(parts, gaps, gap, |current|, limit) && NoSeparator(section)
    ensures Packed(text + owed + section, parts', gaps', gap', current', limit)
    ensures TightBefore(parts', gaps', gap', |current'|, limit)
    ensures 0 < |section| <= limit ==> (parts', current') == Taken(parts, current, section, limit)
  {
    var rest;
    ghost var due, before;
    parts', current', rest, due, before, gaps', gap' := HardCut(parts, current, section, limit, owed, text, gaps, gap);
    var candidate := rest;
    if current' != [] {
      candidate := current' + SEP + rest;
    }
    if |candidate| > limit {
      TightClose(parts', gaps', gap', current', limit);
      gaps', gap' := CloseAndSkip(before, parts', gaps', gap', current', due, limit);
      OpenPiece(before + due, parts' + [current'], gaps', gap', rest, limit);
      parts' := parts' + [current'];
      current' := rest;
    } else {
      if current' == [] {
        gaps', gap' := CloseAndSkip(before, parts', gaps', gap', current', due, limit);
        OpenPiece(before + due, parts', gaps', gap', rest, limit);
      } else {
        Associative(before, SEP, rest);
        Associative(current', SEP, rest);
        Extend(before, parts', gaps', gap', current', SEP + rest, limit);
      }
      current' := candidate;
    }
  }

  method SplitMessage(body: Bytes, limit: nat) returns (parts: seq<Bytes>)
    requires limit >= 1
    ensures |body| <= limit ==> parts == [body]
    ensures |body| > limit ==> GoodParts(parts, limit)
    ensures Spells(parts, body, limit)
    ensures Plain(Sections(body), limit) ==> FewestParts(parts, Sections(body), limit)
  {
    if |body| <= limit {
      SectionsSpell(body);
      WholeIsFewest(body, Sections(body), limit);
      WholeSpells(body, limit);
      return [body];
    }
    var sections := Sections(body);
    CleanSections(body);
    var current := [];
    parts := [];
    ghost var gaps, gap, closed, open := [], 0, [], [];
    for i := 0 to |sections|
      invariant Packed(Join(sections[..i], SEP), parts, gaps, gap, current, limit) && (i == 0 ==> current == [])
      invariant TightBefore(parts, gaps, gap, |current|, limit)
      invariant Grouped(sections, i, closed, open, parts, current, limit)
    {
      var section := sections[i];
      PrefixJoin(sections, i);
      if Plain(sections, limit) {
        closed, open := NextGroups(sections, i, closed, open, parts, current, limit);
      }
      ghost var owed, text := if i == 0 then [] else SEP, Join(sections[..i], SEP);
      parts, current, gaps, gap := TakeSection(parts, current, section, limit, owed, text, gaps, gap);
    }
    assert sections[..|sections|] == sections;
    if Plain(sections, limit) {
      GreedyIsFewest(sections, closed, open, parts, current, limit);
    }
    LastPart(body, parts, gaps, gap, current, limit);
    if current != [] {
      parts := parts + [current];
    }
  }

  /** Sections that all are there and fit have been grouped greedily so far. */
  ghost predicate Grouped(sections: seq<Bytes>, i: nat, closed: seq<seq<Bytes>>, open: seq<Bytes>, parts: seq<Bytes>,
      current: Bytes, limit: nat)
    requires i <= |sections|
  {
    Plain(sections, limit) ==>
      if i == 0 then parts == [] && current == []
      else Greedy(sections[..i], closed, open, parts, current, limit) && current != []
  }

  lemma CleanSections(body: Bytes)
    ensures Join(Sections(body), SEP) == body
    ensures forall k :: 0 <= k < |Sections(body)| ==> NoSeparator(Sections(body)[k])
  {
    SectionsSpell(body);
    forall k | 0 <= k < |Sections(body)| ensures NoSeparator(Sections(body)[k]) {
      assert Sections(body)[k] in Sections(body);
    }
  }

  lemma LastPart(body: Bytes, parts: seq<Bytes>, gaps: seq<nat>, gap: nat, current: Bytes, limit: nat)
    requires Packed(body, parts, gaps, gap, current, limit) && TightBefore(parts, gaps, gap, |current|, limit)
    ensures var all := if current != [] then parts + [current] else parts;
            GoodParts(all, limit) && Spells(all, body, limit)
  {
    if current != [] {
      TightClose(parts, gaps, gap, current, limit);
      Close(body, parts, gaps, gap, current, limit);
      assert SpellsWith(parts + [current], gaps + [gap], 0, body);
    } else {
      assert SpellsWith(parts, gaps, gap, body);
    }
  }

  lemma PrefixJoin(sections: seq<Bytes>, i: nat)
    requires i < |sections|
    ensures Join(sections[..i + 1], SEP) == Join(sections[..i], SEP) + (if i == 0 then [] else SEP) + sections[i]
  {
    assert sections[..i + 1] == sections[..i] + [sections[i]];
    if i > 0 {
      JoinAppend(sections[..i], sections[i]);
    }
  }

  /** What one turn of the section loop does with a section that is there and fits. */
  function Taken(parts: seq<Bytes>, current: Bytes, x: Bytes, limit: nat): (seq<Bytes>, Bytes) {
    if current == [] then (parts, x)
    else if |current + SEP + x| <= limit then (parts, current + SEP + x)
    else (parts + [current], x)
  }

  /** How one turn regroups the sections. */
  lemma NextGroups(sections: seq<Bytes>, i: nat, closed: seq<seq<Bytes>>, open: seq<Bytes>, parts: seq<Bytes>,
      current: Bytes, limit: nat)
    returns (closed': seq<seq<Bytes>>, open': seq<Bytes>)
    requires i < |sections| && Plain(sections, limit) && Grouped(sections, i, closed, open, parts, current, limit)
    ensures 0 < |sections[i]| <= limit
    ensures var (parts', current') := Taken(parts, current, sections[i], limit);
            Grouped(sections, i + 1, closed', open', parts', current', limit)
  {
    var x := sections[i];
    assert x in sections && 0 < |x| <= limit;
    var done := sections[..i];
    assert sections[..i + 1] == done + [x];
    closed', open' := TakeGroup(done, x, closed, open, parts, current, limit);
  }

  lemma TakeGroup(done: seq<Bytes>, x: Bytes, closed: seq<seq<Bytes>>, open: seq<Bytes>, parts: seq<Bytes>,
      current: Bytes, limit: nat)
    returns (closed': seq<seq<Bytes>>, open': seq<Bytes>)
    requires 0 < |x| <= limit
    requires done == [] ==> parts == [] && current == []
    requires done != [] ==> Greedy(done, closed, open, parts, current, limit) && current != []
    ensures var (parts', current') := Taken(parts, current, x, limit);
            Greedy(done + [x], closed', open', parts', current', limit) && current' != []
  {
    if done == [] {
      assert done + [x] == [x];
      GreedyStart(x, limit);
      closed', open' := [], [x];
    } else if |current + SEP + x| <= limit {
      GreedyFits(done, closed, open, parts, current, x, limit);
      closed', open' := closed, open + [x];
    } else {
      GreedyCloses(done, closed, open, parts, current, x, limit);
      closed', open' := closed + [open], [x];
    }
  }
}
