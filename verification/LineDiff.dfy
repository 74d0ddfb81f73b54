/** The line diff shown for an audited change: a longest-common-subsequence table and a walk through it. */
module LineDiff {

  datatype DiffLine = Keep(text: string) | Del(text: string) | Add(text: string)

  // ------------------------------------------------------------ what a diff is

  /** The lines a diff shows of the old text. */
  function OldLines(d: seq<DiffLine>): seq<string> {
    if d == [] then [] else (if d[0].Add? then [] else [d[0].text]) + OldLines(d[1..])
  }

  /** The lines a diff shows of the new text. */
  function NewLines(d: seq<DiffLine>): seq<string> {
    if d == [] then [] else (if d[0].Del? then [] else [d[0].text]) + NewLines(d[1..])
  }

  function Kept(d: seq<DiffLine>): seq<string> {
    if d == [] then [] else (if d[0].Keep? then [d[0].text] else []) + Kept(d[1..])
  }

  ghost predicate IsDiff(d: seq<DiffLine>, a: seq<string>, b: seq<string>) {
    OldLines(d) == a && NewLines(d) == b
  }

  /** `c` is `a` with some lines left out. */
  predicate Subsequence(c: seq<string>, a: seq<string>) {
    if c == [] then true
    else if a == [] then false
    else (c[0] == a[0] && Subsequence(c[1..], a[1..])) || Subsequence(c, a[1..])
  }

  // -------------------------------------------------------------- table values

  function Max(x: nat, y: nat): nat { if x >= y then x else y }

  /** The value the table holds for the suffixes `a` and `b`. */
  function Lcs(a: seq<string>, b: seq<string>): nat
    decreases |a| + |b|
  {
    if a == [] || b == [] then 0
    else if a[0] == b[0] then Lcs(a[1..], b[1..]) + 1
    else Max(Lcs(a[1..], b), Lcs(a, b[1..]))
  }

  /** Dropping one line costs at most one. */
  lemma {:induction false} LcsDrop(a: seq<string>, b: seq<string>)
    ensures a != [] ==> Lcs(a[1..], b) <= Lcs(a, b) <= Lcs(a[1..], b) + 1
    ensures b != [] ==> Lcs(a, b[1..]) <= Lcs(a, b) <= Lcs(a, b[1..]) + 1
    decreases |a| + |b|
  {
    if a != [] && b != [] {
      LcsDrop(a[1..], b);
      LcsDrop(a, b[1..]);
      LcsDrop(a[1..], b[1..]);
    }
  }

  /** No common subsequence is longer than the table says. */
  lemma {:induction false} LcsBound(c: seq<string>, a: seq<string>, b: seq<string>)
    requires Subsequence(c, a) && Subsequence(c, b)
    ensures |c| <= Lcs(a, b)
    decreases |a| + |b|
  {
    if c != [] {
      if a[0] == b[0] {
        var tail := if c[0] == a[0] then c[1..] else c;
        SubsequenceTail(c, a);
        SubsequenceTail(c, b);
        LcsBound(tail, a[1..], b[1..]);
      } else if c[0] == a[0] {
        SubsequenceTail(c, b);
        LcsBound(c, a, b[1..]);
      } else {
        SubsequenceTail(c, a);
        LcsBound(c, a[1..], b);
      }
    }
  }

  /** A subsequence is matched in the tail, possibly after using the head for its first line. */
  lemma {:induction false} SubsequenceTail(c: seq<string>, a: seq<string>)
    requires Subsequence(c, a) && c != []
    ensures a != []
    ensures Subsequence(if c[0] == a[0] then c[1..] else c, a[1..])
  {
    if c[0] == a[0] && !Subsequence(c[1..], a[1..]) {
      DropFirst(c, a[1..]);
    }
  }

  lemma {:induction false} DropFirst(c: seq<string>, a: seq<string>)
    requires Subsequence(c, a) && c != []
    ensures Subsequence(c[1..], a)
    decreases |a|
  {
    if c[0] == a[0] && Subsequence(c[1..], a[1..]) {
      Widen(c[1..], a);
    } else {
      DropFirst(c, a[1..]);
      Widen(c[1..], a);
    }
  }

  lemma Widen(c: seq<string>, a: seq<string>)
    requires a != [] && Subsequence(c, a[1..])
    ensures Subsequence(c, a)
  {}

  /** The kept lines of any diff are a common subsequence of the two texts. */
  lemma {:induction false} KeptIsCommon(d: seq<DiffLine>)
    ensures Subsequence(Kept(d), OldLines(d)) && Subsequence(Kept(d), NewLines(d))
  {
    if d != [] {
      KeptIsCommon(d[1..]);
      var k, o, n := Kept(d[1..]), OldLines(d[1..]), NewLines(d[1..]);
      assert [d[0].text] + k != [] && ([d[0].text] + k)[1..] == k;
      assert ([d[0].text] + o)[1..] == o && ([d[0].text] + n)[1..] == n;
      assert [] + k == k && [] + o == o && [] + n == n;
    }
  }

  // -------------------------------------------------------------------- the walk

  function All(lines: seq<string>, add: bool): seq<DiffLine> {
    if lines == [] then [] else [if add then Add(lines[0]) else Del(lines[0])] + All(lines[1..], add)
  }

  /** The diff the walk produces from the suffixes `a` and `b`. */
  function Walk(a: seq<string>, b: seq<string>): seq<DiffLine>
    decreases |a| + |b|
  {
    if a == [] then All(b, true)
    else if b == [] then All(a, false)
    else if a[0] == b[0] then [Keep(a[0])] + Walk(a[1..], b[1..])
    else if Lcs(a[1..], b) >= Lcs(a, b[1..]) then [Del(a[0])] + Walk(a[1..], b)
    else [Add(b[0])] + Walk(a, b[1..])
  }

  lemma {:induction false} AllLines(lines: seq<string>, add: bool)
    ensures OldLines(All(lines, add)) == if add then [] else lines
    ensures NewLines(All(lines, add)) == if add then lines else []
    ensures Kept(All(lines, add)) == []
  {
    if lines != [] {
      AllLines(lines[1..], add);
      assert lines == [lines[0]] + lines[1..];
    }
  }

  /** The walk rebuilds both texts and keeps as many lines as the table promises. */
  lemma {:induction false} WalkIsDiff(a: seq<string>, b: seq<string>)
    ensures IsDiff(Walk(a, b), a, b) && |Kept(Walk(a, b))| == Lcs(a, b)
    decreases |a| + |b|
  {
    var d := Walk(a, b);
    if a == [] {
      AllLines(b, true);
    } else if b == [] {
      AllLines(a, false);
    } else if a[0] == b[0] {
      WalkIsDiff(a[1..], b[1..]);
      assert d[1..] == Walk(a[1..], b[1..]);
      assert a == [a[0]] + a[1..] && b == [b[0]] + b[1..];
    } else if Lcs(a[1..], b) >= Lcs(a, b[1..]) {
      WalkIsDiff(a[1..], b);
      assert d[1..] == Walk(a[1..], b);
      assert a == [a[0]] + a[1..];
    } else {
      WalkIsDiff(a, b[1..]);
      assert d[1..] == Walk(a, b[1..]);
      assert b == [b[0]] + b[1..];
    }
  }

  /** No diff of the two texts keeps more lines, and no common subsequence is longer. */
  lemma WalkKeepsMost(a: seq<string>, b: seq<string>, d: seq<DiffLine>, c: seq<string>)
    requires IsDiff(d, a, b) && Subsequence(c, a) && Subsequence(c, b)
    ensures |Kept(d)| <= |Kept(Walk(a, b))| && |c| <= |Kept(Walk(a, b))|
    ensures Subsequence(Kept(Walk(a, b)), a) && Subsequence(Kept(Walk(a, b)), b)
  {
    WalkIsDiff(a, b);
    KeptIsCommon(Walk(a, b));
    KeptIsCommon(d);
    LcsBound(Kept(d), a, b);
    LcsBound(c, a, b);
  }

  // ------------------------------------------------------ which of the best diffs

  function Rank(l: DiffLine): nat {
    match l
    case Keep(_) => 0
    case Del(_) => 1
    case Add(_) => 2
  }

  /** Where the two diffs first differ, `d` keeps before it deletes and deletes before it adds. */
  predicate NoLater(d: seq<DiffLine>, e: seq<DiffLine>) {
    d == e || (d != [] && e != [] && (Rank(d[0]) < Rank(e[0]) || (d[0] == e[0] && NoLater(d[1..], e[1..]))))
  }

  /** What the first line of a diff says about the two texts. */
  lemma FirstLineOf(e: seq<DiffLine>, a: seq<string>, b: seq<string>)
    requires IsDiff(e, a, b) && e != []
    ensures match e[0]
            case Keep(t) => a != [] && b != [] && t == a[0] == b[0] && IsDiff(e[1..], a[1..], b[1..])
            case Del(t) => a != [] && t == a[0] && IsDiff(e[1..], a[1..], b)
            case Add(t) => b != [] && t == b[0] && IsDiff(e[1..], a, b[1..])
    ensures |Kept(e)| == |Kept(e[1..])| + if e[0].Keep? then 1 else 0
  {
    var text := [e[0].text];
    assert (text + OldLines(e[1..]))[1..] == OldLines(e[1..]) && (text + NewLines(e[1..]))[1..] == NewLines(e[1..]);
    assert [] + OldLines(e[1..]) == OldLines(e[1..]) && [] + NewLines(e[1..]) == NewLines(e[1..]);
  }

  lemma NoneKeepsMore(e: seq<DiffLine>, a: seq<string>, b: seq<string>)
    requires IsDiff(e, a, b)
    ensures |Kept(e)| <= Lcs(a, b)
  {
    KeptIsCommon(e);
    LcsBound(Kept(e), a, b);
  }

  lemma NoLaterFirst(first: DiffLine, d: seq<DiffLine>, e: seq<DiffLine>)
    requires e != [] && (Rank(first) < Rank(e[0]) || (first == e[0] && NoLater(d, e[1..])))
    ensures NoLater([first] + d, e)
  {
    assert ([first] + d)[1..] == d;
  }

  lemma {:induction false} OneSided(e: seq<DiffLine>, a: seq<string>, b: seq<string>)
    requires IsDiff(e, a, b) && (a == [] || b == [])
    ensures e == if a == [] then All(b, true) else All(a, false)
    decreases |e|
  {
    if e == [] {
      assert a == [] && b == [];
    } else {
      FirstLineOf(e, a, b);
      assert e == [e[0]] + e[1..];
      OneSided(e[1..], if e[0].Del? then a[1..] else a, if e[0].Add? then b[1..] else b);
    }
  }

  /** Of all diffs that keep as many lines, the walk's is the first when keeping comes before deleting and deleting
      before adding. */
  lemma {:induction false} WalkIsFirst(e: seq<DiffLine>, a: seq<string>, b: seq<string>)
    requires IsDiff(e, a, b) && |Kept(e)| == Lcs(a, b)
    ensures NoLater(Walk(a, b), e)
    decreases |a| + |b|
  {
    if a == [] || b == [] {
      OneSided(e, a, b);
    } else {
      assert e != [];
      FirstLineOf(e, a, b);
      if e[0].Del? {
        NoneKeepsMore(e[1..], a[1..], b);
      }
      if a[0] == b[0] {
        if e[0].Keep? {
          WalkIsFirst(e[1..], a[1..], b[1..]);
        }
        NoLaterFirst(Keep(a[0]), Walk(a[1..], b[1..]), e);
      } else if Lcs(a[1..], b) >= Lcs(a, b[1..]) {
        if e[0].Del? {
          WalkIsFirst(e[1..], a[1..], b);
        }
        NoLaterFirst(Del(a[0]), Walk(a[1..], b), e);
      } else {
        assert e[0].Add?;
        WalkIsFirst(e[1..], a, b[1..]);
        NoLaterFirst(Add(b[0]), Walk(a, b[1..]), e);
      }
    }
  }

  // ------------------------------------------------------------------ the program

  /** The table is right in row `i` from column `j` on and in all later rows. */
  ghost predicate FilledFrom(dp: array2<nat>, a: seq<string>, b: seq<string>, i: nat, j: nat)
    requires dp.Length0 == |a| + 1 && dp.Length1 == |b| + 1
    reads dp
  {
    forall r, k :: i <= r <= |a| && 0 <= k <= |b| && (r == i ==> j <= k) ==> dp[r, k] == Lcs(a[r..], b[k..])
  }

  method FillTable(a: seq<string>, b: seq<string>) returns (dp: array2<nat>)
    ensures fresh(dp) && dp.Length0 == |a| + 1 && dp.Length1 == |b| + 1
    ensures FilledFrom(dp, a, b, 0, 0)
  {
    var n, m := |a|, |b|;
    dp := new nat[n + 1, m + 1]((_, _) => 0);
    var i := n;
    while i > 0
      invariant 0 <= i <= n
      invariant FilledFrom(dp, a, b, i, 0)
      invariant forall r :: 0 <= r < i ==> dp[r, m] == 0
    {
      i := i - 1;
      FillRow(dp, a, b, i);
    }
  }

  method FillRow(dp: array2<nat>, a: seq<string>, b: seq<string>, i: nat)
    requires dp.Length0 == |a| + 1 && dp.Length1 == |b| + 1 && i < |a|
    requires FilledFrom(dp, a, b, i + 1, 0) && dp[i, |b|] == 0
    modifies dp
    ensures FilledFrom(dp, a, b, i, 0)
    ensures forall r, k :: 0 <= r < i && 0 <= k <= |b| ==> dp[r, k] == old(dp[r, k])
  {
    var j := |b|;
    while j > 0
      invariant 0 <= j <= |b|
      invariant FilledFrom(dp, a, b, i, j)
      invariant forall r, k :: 0 <= r < i && 0 <= k <= |b| ==> dp[r, k] == old(dp[r, k])
    {
      j := j - 1;
      assert a[i..][1..] == a[i + 1..] && b[j..][1..] == b[j + 1..];
      dp[i, j] := if a[i] == b[j] then dp[i + 1, j + 1] + 1 else Max(dp[i + 1, j], dp[i, j + 1]);
    }
  }

  /** How the walk chooses at `(i, j)`: 0 keeps the common line, 1 deletes the old one, 2 adds the new one. */
  ghost function Choice(a: seq<string>, b: seq<string>, i: nat, j: nat): nat
    requires i < |a| && j < |b|
  {
    if a[i] == b[j] then 0 else if Lcs(a[i + 1..], b[j..]) >= Lcs(a[i..], b[j + 1..]) then 1 else 2
  }

  lemma WalkStep(a: seq<string>, b: seq<string>, i: nat, j: nat, out: seq<DiffLine>, whole: seq<DiffLine>)
    requires i < |a| && j < |b| && whole == out + Walk(a[i..], b[j..])
    ensures Choice(a, b, i, j) == 0 ==> whole == out + [Keep(a[i])] + Walk(a[i + 1..], b[j + 1..])
    ensures Choice(a, b, i, j) == 1 ==> whole == out + [Del(a[i])] + Walk(a[i + 1..], b[j..])
    ensures Choice(a, b, i, j) == 2 ==> whole == out + [Add(b[j])] + Walk(a[i..], b[j + 1..])
  {
    assert a[i..][1..] == a[i + 1..] && b[j..][1..] == b[j + 1..];
  }

  lemma WalkEnd(a: seq<string>, b: seq<string>)
    requires a == [] || b == []
    ensures Walk(a, b) == All(a, false) + All(b, true)
  {}

  /** The walk while both texts have lines left. */
  method WalkTable(dp: array2<nat>, a: seq<string>, b: seq<string>) returns (out: seq<DiffLine>, i: nat, j: nat)
    requires dp.Length0 == |a| + 1 && dp.Length1 == |b| + 1 && FilledFrom(dp, a, b, 0, 0)
    ensures i <= |a| && j <= |b| && (i == |a| || j == |b|)
    ensures Walk(a, b) == out + Walk(a[i..], b[j..])
  {
    out, i, j := [], 0, 0;
    ghost var whole := Walk(a, b);
    assert a[0..] == a && b[0..] == b;
    while i < |a| && j < |b|
      invariant 0 <= i <= |a| && 0 <= j <= |b|
      invariant whole == out + Walk(a[i..], b[j..])
      decreases |a| + |b| - i - j
    {
      WalkStep(a, b, i, j, out, whole);
      assert dp[i + 1, j] == Lcs(a[i + 1..], b[j..]) && dp[i, j + 1] == Lcs(a[i..], b[j + 1..]);
      if a[i] == b[j] {
        out := out + [Keep(a[i])];
        i := i + 1;
        j := j + 1;
      } else if dp[i + 1, j] >= dp[i, j + 1] {
        out := out + [Del(a[i])];
        i := i + 1;
      } else {
        out := out + [Add(b[j])];
        j := j + 1;
      }
    }
  }

  /** One of the two closing loops: the remaining lines of one text. */
  method AppendRest(start: seq<DiffLine>, lines: seq<string>, from: nat, add: bool) returns (out: seq<DiffLine>)
    requires from <= |lines|
    ensures out == start + All(lines[from..], add)
  {
    out := start;
    var i := from;
    while i < |lines|
      invariant from <= i <= |lines|
      invariant start + All(lines[from..], add) == out + All(lines[i..], add)
    {
      assert lines[i..][1..] == lines[i + 1..];
      out := out + [if add then Add(lines[i]) else Del(lines[i])];
      i := i + 1;
    }
  }

  method DiffLines(a: seq<string>, b: seq<string>) returns (out: seq<DiffLine>)
    ensures out == Walk(a, b)
  {
    var dp := FillTable(a, b);
    var i, j;
    out, i, j := WalkTable(dp, a, b);
    WalkEnd(a[i..], b[j..]);
    out := AppendRest(out, a, i, false);
    out := AppendRest(out, b, j, true);
  }
}
