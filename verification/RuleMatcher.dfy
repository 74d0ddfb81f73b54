/** The backtracking glob matcher that applies one mapping rule to a model name. */
module RuleMatcher {
  import opened Common

  /** A literal piece of text or, when `literal` is empty, a capture. */
  datatype Token = Token(literal: string, capture: int)

  // ---------------------------------------------------------------- meaning

  function CaptureCount(tokens: seq<Token>): nat {
    if tokens == [] then 0
    else (if tokens[0].literal == "" then 1 else 0) + CaptureCount(tokens[1..])
  }

  /** The text a pattern stands for once its captures are given, left to right. */
  function Fill(tokens: seq<Token>, captures: seq<string>): string
    requires |captures| == CaptureCount(tokens)
  {
    if tokens == [] then ""
    else if tokens[0].literal != "" then tokens[0].literal + Fill(tokens[1..], captures)
    else captures[0] + Fill(tokens[1..], captures[1..])
  }

  /** `captures` are free texts that put between the literals rebuild `s`. */
  predicate Explains(tokens: seq<Token>, captures: seq<string>, s: string) {
    |captures| == CaptureCount(tokens) && Fill(tokens, captures) == s
  }

  /** The first literal in a token list, empty when there is none. */
  function NextLiteral(tokens: seq<Token>): string {
    if tokens == [] then ""
    else if tokens[0].literal != "" then tokens[0].literal
    else NextLiteral(tokens[1..])
  }

  /** Where a capture followed by `rest` may end: at the next literal, or at the end of the text. */
  predicate MayEnd(s: string, end: nat, rest: seq<Token>) {
    if NextLiteral(rest) == "" then end == |s| else OccursAt(s, end, NextLiteral(rest))
  }

  /** `captures` split `s[pos..]`, each one ending where a capture may end. */
  predicate Anchored(s: string, pos: nat, tokens: seq<Token>, captures: seq<string>)
    decreases |tokens|
  {
    if tokens == [] then pos == |s| && captures == []
    else if tokens[0].literal != "" then
      OccursAt(s, pos, tokens[0].literal) &&
      Anchored(s, pos + |tokens[0].literal|, tokens[1..], captures)
    else
      captures != [] && OccursAt(s, pos, captures[0]) &&
      MayEnd(s, pos + |captures[0]|, tokens[1..]) &&
      Anchored(s, pos + |captures[0]|, tokens[1..], captures[1..])
  }

  /** Captures compared left to right: the first one that differs in length decides. */
  predicate EndsNoLater(a: seq<string>, b: seq<string>) {
    a == [] || b == [] || |a[0]| < |b[0]| || (|a[0]| == |b[0]| && EndsNoLater(a[1..], b[1..]))
  }

  // ------------------------------------------------- the search without memo

  /** Plain backtracking from token list `tokens` at `pos`. */
  function Search(s: string, pos: nat, tokens: seq<Token>): Option<seq<string>>
    requires pos <= |s|
    decreases |tokens|, |s| + 1
  {
    if tokens == [] then
      if pos == |s| then Some([]) else None
    else if tokens[0].literal != "" then
      if OccursAt(s, pos, tokens[0].literal) then Search(s, pos + |tokens[0].literal|, tokens[1..]) else None
    else
      SearchEnd(s, pos, pos, tokens)
  }

  /** Tries the ends of a leading capture from `end` on, nearest first. */
  function SearchEnd(s: string, pos: nat, end: nat, tokens: seq<Token>): Option<seq<string>>
    requires tokens != [] && pos <= end <= |s|
    decreases |tokens|, |s| - end
  {
    var here := if MayEnd(s, end, tokens[1..]) then Search(s, end, tokens[1..]) else None;
    if here.Some? then Some([s[pos..end]] + here.value)
    else if end == |s| then None
    else SearchEnd(s, pos, end + 1, tokens)
  }

  // ------------------------------------------------------ search is correct

  /** Whatever the search returns is an anchored split. */
  lemma {:induction false} SearchIsAnchored(s: string, pos: nat, tokens: seq<Token>)
    requires pos <= |s| && Search(s, pos, tokens).Some?
    ensures Anchored(s, pos, tokens, Search(s, pos, tokens).value)
    decreases |tokens|, |s| + 1
  {
    if tokens != [] {
      if tokens[0].literal != "" {
        SearchIsAnchored(s, pos + |tokens[0].literal|, tokens[1..]);
      } else {
        SearchEndIsAnchored(s, pos, pos, tokens);
      }
    }
  }

  lemma {:induction false} SearchEndIsAnchored(s: string, pos: nat, end: nat, tokens: seq<Token>)
    requires tokens != [] && tokens[0].literal == "" && pos <= end <= |s|
    requires SearchEnd(s, pos, end, tokens).Some?
    ensures Anchored(s, pos, tokens, SearchEnd(s, pos, end, tokens).value)
    decreases |tokens|, |s| - end
  {
    if MayEnd(s, end, tokens[1..]) && Search(s, end, tokens[1..]).Some? {
      SearchIsAnchored(s, end, tokens[1..]);
      var r := [s[pos..end]] + Search(s, end, tokens[1..]).value;
      assert r[1..] == Search(s, end, tokens[1..]).value;
    } else {
      SearchEndIsAnchored(s, pos, end + 1, tokens);
    }
  }

  /** The search succeeds when an anchored split exists, and no anchored split ends earlier. */
  lemma {:induction false} SearchIsEarliest(s: string, pos: nat, tokens: seq<Token>, c: seq<string>)
    requires pos <= |s| && Anchored(s, pos, tokens, c)
    ensures Search(s, pos, tokens).Some? && EndsNoLater(Search(s, pos, tokens).value, c)
    decreases |tokens|, |s| + 1
  {
    if tokens != [] {
      if tokens[0].literal != "" {
        SearchIsEarliest(s, pos + |tokens[0].literal|, tokens[1..], c);
      } else {
        SearchEndIsEarliest(s, pos, pos, tokens, c);
      }
    }
  }

  lemma {:induction false} SearchEndIsEarliest(s: string, pos: nat, end: nat, tokens: seq<Token>, c: seq<string>)
    requires tokens != [] && tokens[0].literal == "" && pos <= end <= |s|
    requires Anchored(s, pos, tokens, c) && end <= pos + |c[0]|
    ensures SearchEnd(s, pos, end, tokens).Some? && EndsNoLater(SearchEnd(s, pos, end, tokens).value, c)
    decreases |tokens|, |s| - end
  {
    if pos + |c[0]| == end {
      SearchIsEarliest(s, end, tokens[1..], c[1..]);
      var r := [s[pos..end]] + Search(s, end, tokens[1..]).value;
      assert r[1..] == Search(s, end, tokens[1..]).value;
    } else {
      SearchEndIsEarliest(s, pos, end + 1, tokens, c);
    }
  }

  /** Anchored splits are in particular explanations of the text. */
  lemma {:induction false} AnchoredExplains(s: string, pos: nat, tokens: seq<Token>, c: seq<string>)
    requires pos <= |s| && Anchored(s, pos, tokens, c)
    ensures Explains(tokens, c, s[pos..])
    decreases |tokens|
  {
    if tokens != [] {
      if tokens[0].literal != "" {
        var next := pos + |tokens[0].literal|;
        AnchoredExplains(s, next, tokens[1..], c);
        assert s[pos..] == s[pos..next] + s[next..];
      } else {
        var next := pos + |c[0]|;
        AnchoredExplains(s, next, tokens[1..], c[1..]);
        assert s[pos..] == s[pos..next] + s[next..];
      }
    }
  }

  /** Any explanation can be moved to the anchors: a capture hands its text to the capture before it. */
  lemma {:induction false} AnchorExplanation(s: string, pos: nat, tokens: seq<Token>, c: seq<string>)
    returns (a: seq<string>)
    requires pos <= |s| && Explains(tokens, c, s[pos..])
    ensures Anchored(s, pos, tokens, a)
    decreases |tokens|
  {
    if tokens == [] {
      a := [];
    } else if tokens[0].literal != "" {
      var next := pos + |tokens[0].literal|;
      assert s[pos..next] == tokens[0].literal && s[next..] == s[pos..][|tokens[0].literal|..];
      a := AnchorExplanation(s, next, tokens[1..], c);
    } else {
      var next := pos + |c[0]|;
      assert s[pos..next] == c[0] && s[next..] == s[pos..][|c[0]|..];
      var rest := AnchorExplanation(s, next, tokens[1..], c[1..]);
      if tokens[1..] != [] && tokens[1].literal == "" {
        a := HandOver(s, pos, tokens, c[0], rest);
      } else {
        a := [c[0]] + rest;
        assert a[1..] == rest;
      }
    }
  }

  /** Of two adjacent captures the first can take the text of both. */
  lemma HandOver(s: string, pos: nat, tokens: seq<Token>, first: string, rest: seq<string>) returns (a: seq<string>)
    requires |tokens| >= 2 && tokens[0].literal == "" && tokens[1].literal == ""
    requires OccursAt(s, pos, first) && Anchored(s, pos + |first|, tokens[1..], rest)
    ensures Anchored(s, pos, tokens, a)
  {
    var next := pos + |first|;
    var end := next + |rest[0]|;
    a := [first + rest[0], ""] + rest[1..];
    assert a[1..] == [""] + rest[1..] && a[1..][1..] == rest[1..];
    assert s[pos..end] == s[pos..next] + s[next..end];
    assert Anchored(s, end, tokens[1..], a[1..]);
  }

  /** Two anchored splits that each end no later than the other are the same split. */
  lemma {:induction false} EarliestIsUnique(s: string, pos: nat, tokens: seq<Token>, a: seq<string>, b: seq<string>)
    requires Anchored(s, pos, tokens, a) && Anchored(s, pos, tokens, b)
    requires EndsNoLater(a, b) && EndsNoLater(b, a)
    ensures a == b
    decreases |tokens|
  {
    if tokens != [] {
      if tokens[0].literal != "" {
        EarliestIsUnique(s, pos + |tokens[0].literal|, tokens[1..], a, b);
      } else {
        EarliestIsUnique(s, pos + |a[0]|, tokens[1..], a[1..], b[1..]);
        assert a == [a[0]] + a[1..] && b == [b[0]] + b[1..];
      }
    }
  }

  /** A match exists exactly when the text has an explanation, and the returned captures are one. */
  lemma {:induction false} SearchSoundAndComplete(s: string, tokens: seq<Token>)
    ensures Search(s, 0, tokens).Some? <==> exists c :: Explains(tokens, c, s)
    ensures Search(s, 0, tokens).Some? ==> Explains(tokens, Search(s, 0, tokens).value, s)
  {
    assert s[0..] == s;
    if Search(s, 0, tokens).Some? {
      SearchIsAnchored(s, 0, tokens);
      AnchoredExplains(s, 0, tokens, Search(s, 0, tokens).value);
    }
    if c :| Explains(tokens, c, s) {
      var a := AnchorExplanation(s, 0, tokens, c);
      SearchIsEarliest(s, 0, tokens, a);
    }
  }

  /** An anchored split that no anchored split beats. */
  ghost predicate IsEarliest(s: string, tokens: seq<Token>, c: seq<string>) {
    Anchored(s, 0, tokens, c) && forall d :: Anchored(s, 0, tokens, d) ==> EndsNoLater(c, d)
  }

  lemma {:induction false} EarliestIsFound(s: string, tokens: seq<Token>, c: seq<string>)
    requires IsEarliest(s, tokens, c)
    ensures Search(s, 0, tokens) == Some(c)
  {
    SearchIsEarliest(s, 0, tokens, c);
    var r := Search(s, 0, tokens).value;
    SearchIsAnchored(s, 0, tokens);
    EarliestIsUnique(s, 0, tokens, c, r);
  }

  /** The result of a match is the one earliest split. */
  lemma {:induction false} SearchPriority(s: string, tokens: seq<Token>, c: seq<string>)
    ensures Search(s, 0, tokens) == Some(c) <==> IsEarliest(s, tokens, c)
  {
    if IsEarliest(s, tokens, c) {
      EarliestIsFound(s, tokens, c);
    }
    if Search(s, 0, tokens) == Some(c) {
      SearchIsAnchored(s, 0, tokens);
      forall d | Anchored(s, 0, tokens, d)
        ensures EndsNoLater(c, d)
      {
        SearchIsEarliest(s, 0, tokens, d);
      }
    }
  }

  // ------------------------------------------------- nearest ends, no retry

  /** The nearest place at or after `pos` where a capture followed by `rest` may end. */
  function NearestEnd(s: string, pos: nat, rest: seq<Token>): (r: Option<nat>)
    requires pos <= |s|
    ensures r.Some? ==> pos <= r.value <= |s| && MayEnd(s, r.value, rest)
    ensures forall k :: pos <= k && MayEnd(s, k, rest) ==> r.Some? && r.value <= k
  {
    if NextLiteral(rest) == "" then Some(|s|) else IndexFrom(s, pos, NextLiteral(rest))
  }

  /** Always taking the nearest end and never going back. */
  function Nearest(s: string, pos: nat, tokens: seq<Token>): Option<seq<string>>
    requires pos <= |s|
    decreases |tokens|
  {
    if tokens == [] then
      if pos == |s| then Some([]) else None
    else if tokens[0].literal != "" then
      if OccursAt(s, pos, tokens[0].literal) then Nearest(s, pos + |tokens[0].literal|, tokens[1..]) else None
    else
      var end := NearestEnd(s, pos, tokens[1..]);
      if end.None? then None else
        var rest := Nearest(s, end.value, tokens[1..]);
        if rest.None? then None else Some([s[pos..end.value]] + rest.value)
  }

  lemma {:induction false} NearestIsAnchored(s: string, pos: nat, tokens: seq<Token>)
    requires pos <= |s| && Nearest(s, pos, tokens).Some?
    ensures Anchored(s, pos, tokens, Nearest(s, pos, tokens).value)
    decreases |tokens|
  {
    if tokens != [] {
      var r := Nearest(s, pos, tokens).value;
      if tokens[0].literal != "" {
        NearestIsAnchored(s, pos + |tokens[0].literal|, tokens[1..]);
      } else {
        var end := pos + |r[0]|;
        NearestIsAnchored(s, end, tokens[1..]);
        assert r[1..] == Nearest(s, end, tokens[1..]).value;
      }
    }
  }

  lemma {:induction false} NearestIsEarliest(s: string, pos: nat, tokens: seq<Token>, c: seq<string>)
    requires pos <= |s| && Nearest(s, pos, tokens).Some? && Anchored(s, pos, tokens, c)
    ensures EndsNoLater(Nearest(s, pos, tokens).value, c)
    decreases |tokens|
  {
    if tokens != [] {
      if tokens[0].literal != "" {
        NearestIsEarliest(s, pos + |tokens[0].literal|, tokens[1..], c);
      } else {
        var r := Nearest(s, pos, tokens).value;
        var end := pos + |r[0]|;
        assert MayEnd(s, pos + |c[0]|, tokens[1..]);
        assert |r[0]| <= |c[0]|;
        if |r[0]| == |c[0]| {
          NearestIsEarliest(s, end, tokens[1..], c[1..]);
          assert r[1..] == Nearest(s, end, tokens[1..]).value;
        }
      }
    }
  }

  /** Backtracking never changes the outcome of a match that succeeds without it. */
  lemma {:induction false} NearestWins(s: string, tokens: seq<Token>)
    requires Nearest(s, 0, tokens).Some?
    ensures Search(s, 0, tokens) == Nearest(s, 0, tokens)
  {
    var c := Nearest(s, 0, tokens).value;
    NearestIsAnchored(s, 0, tokens);
    forall d | Anchored(s, 0, tokens, d)
      ensures EndsNoLater(c, d)
    {
      NearestIsEarliest(s, 0, tokens, d);
    }
    EarliestIsFound(s, tokens, c);
  }

  // ------------------------------------------------------- adjacent captures

  /** A found leading capture is followed by the search result from its end. */
  lemma {:induction false} SearchEndStep(s: string, pos: nat, end: nat, tokens: seq<Token>)
    requires tokens != [] && pos <= end <= |s| && SearchEnd(s, pos, end, tokens).Some?
    ensures var c := SearchEnd(s, pos, end, tokens).value;
            c != [] && end <= pos + |c[0]| <= |s| && c[0] == s[pos..pos + |c[0]|] &&
            Search(s, pos + |c[0]|, tokens[1..]) == Some(c[1..])
    decreases |s| - end
  {
    if !(MayEnd(s, end, tokens[1..]) && Search(s, end, tokens[1..]).Some?) {
      SearchEndStep(s, pos, end + 1, tokens);
    }
  }

  /** How many of the first `t` tokens are captures. */
  function CapturesBefore(tokens: seq<Token>, t: nat): nat
    requires t <= |tokens|
  {
    if t == 0 then 0 else (if tokens[0].literal == "" then 1 else 0) + CapturesBefore(tokens[1..], t - 1)
  }

  /** How much text the first `t` tokens take up when `c` are the captures. */
  function PlaceOf(tokens: seq<Token>, c: seq<string>, t: nat): nat
    requires t <= |tokens| && CapturesBefore(tokens, t) <= |c|
  {
    if t == 0 then 0
    else if tokens[0].literal != "" then |tokens[0].literal| + PlaceOf(tokens[1..], c, t - 1)
    else |c[0]| + PlaceOf(tokens[1..], c[1..], t - 1)
  }

  lemma PlaceStep(tokens: seq<Token>, c: seq<string>, t: nat)
    requires 0 < t <= |tokens|
    ensures tokens[1..][t - 1..] == tokens[t..]
    ensures var k := CapturesBefore(tokens[1..], t - 1);
            if tokens[0].literal != "" then
              CapturesBefore(tokens, t) == k &&
              (k <= |c| ==> PlaceOf(tokens, c, t) == |tokens[0].literal| + PlaceOf(tokens[1..], c, t - 1))
            else
              CapturesBefore(tokens, t) == k + 1 &&
              (k + 1 <= |c| ==> c[1..][k..] == c[k + 1..] &&
                                PlaceOf(tokens, c, t) == |c[0]| + PlaceOf(tokens[1..], c[1..], t - 1))
  {}

  /** The captures behind token `t` are what the search finds from there. */
  lemma {:induction false} SearchBehind(s: string, pos: nat, tokens: seq<Token>, t: nat)
    requires pos <= |s| && t <= |tokens| && Search(s, pos, tokens).Some?
    ensures var c, k := Search(s, pos, tokens).value, CapturesBefore(tokens, t);
            k <= |c| && pos + PlaceOf(tokens, c, t) <= |s| &&
            Search(s, pos + PlaceOf(tokens, c, t), tokens[t..]) == Some(c[k..])
    decreases t
  {
    var c := Search(s, pos, tokens).value;
    if t == 0 {
      assert tokens[0..] == tokens && c[0..] == c;
    } else {
      if tokens[0].literal != "" {
        PlaceStep(tokens, c, t);
        SearchBehind(s, pos + |tokens[0].literal|, tokens[1..], t - 1);
      } else {
        SearchEndStep(s, pos, pos, tokens);
        SearchBehind(s, pos + |c[0]|, tokens[1..], t - 1);
        PlaceStep(tokens, c, t);
      }
    }
  }

  /** Of two leading captures the first ends at the nearest place there is, and the second is empty exactly when
      the rest of the pattern fits from that place. */
  lemma {:induction false} LeadingPair(s: string, pos: nat, tokens: seq<Token>)
    requires pos <= |s| && |tokens| >= 2 && tokens[0].literal == "" && tokens[1].literal == ""
    requires Search(s, pos, tokens).Some?
    ensures var c, e := Search(s, pos, tokens).value, NearestEnd(s, pos, tokens[2..]);
            |c| >= 2 && e.Some? && c[0] == s[pos..e.value] &&
            (c[1] == "" <==> Search(s, e.value, tokens[2..]).Some?)
  {
    var c := Search(s, pos, tokens).value;
    SearchEndStep(s, pos, pos, tokens);
    SearchIsAnchored(s, pos, tokens);
    var m := pos + |c[0]|;
    assert tokens[1..][1..] == tokens[2..];
    assert MayEnd(s, m, tokens[2..]);
    var e := NearestEnd(s, pos, tokens[2..]).value;
    var d := TakeNearest(s, pos, tokens, c, e);
    SearchIsEarliest(s, pos, tokens, d);
    SearchEndStep(s, m, m, tokens[1..]);
    if Search(s, e, tokens[2..]).Some? {
      assert SearchEnd(s, e, e, tokens[1..]).value[0] == s[e..e];
    }
  }

  /** The second capture can take over whatever the first leaves behind the nearest end. */
  lemma TakeNearest(s: string, pos: nat, tokens: seq<Token>, c: seq<string>, e: nat) returns (d: seq<string>)
    requires |tokens| >= 2 && tokens[0].literal == "" && tokens[1].literal == "" && Anchored(s, pos, tokens, c)
    requires pos <= e <= pos + |c[0]| && MayEnd(s, e, tokens[2..])
    ensures Anchored(s, pos, tokens, d) && d != [] && |d[0]| == e - pos
  {
    var rest := c[1..];
    var m := pos + |c[0]|;
    var end := m + |rest[0]|;
    assert tokens[1..][1..] == tokens[2..] && Anchored(s, m, tokens[1..], rest);
    d := [s[pos..e], s[e..end]] + rest[1..];
    assert d[1..] == [s[e..end]] + rest[1..] && d[1..][1..] == rest[1..];
    assert Anchored(s, e, tokens[1..], d[1..]);
  }

  /** What adjacent captures at tokens `t` and `t + 1` hold in a match: the first everything up to the nearest
      occurrence of the next literal (the end of the text when there is none), the second nothing exactly when
      the rest of the pattern fits from that occurrence. */
  lemma AdjacentCaptures(s: string, tokens: seq<Token>, t: nat)
    requires Search(s, 0, tokens).Some? && t + 1 < |tokens|
    requires tokens[t].literal == "" && tokens[t + 1].literal == ""
    ensures var c, k := Search(s, 0, tokens).value, CapturesBefore(tokens, t);
            k + 1 < |c| && PlaceOf(tokens, c, t) <= |s| &&
            var pos, rest := PlaceOf(tokens, c, t), tokens[t + 2..];
            NearestEnd(s, pos, rest).Some? &&
            var e := NearestEnd(s, pos, rest).value;
            c[k] == s[pos..e] && (c[k + 1] == "" <==> Search(s, e, rest).Some?)
  {
    var c, k := Search(s, 0, tokens).value, CapturesBefore(tokens, t);
    SearchBehind(s, 0, tokens, t);
    var tail := tokens[t..];
    assert tail[0] == tokens[t] && tail[1] == tokens[t + 1] && tail[2..] == tokens[t + 2..];
    LeadingPair(s, PlaceOf(tokens, c, t), tail);
    assert c[k..][0] == c[k] && c[k..][1] == c[k + 1];
  }

  /** Going without retries from the start is going without retries from any token on. */
  lemma {:induction false} NearestBehind(s: string, pos: nat, tokens: seq<Token>, t: nat)
    requires pos <= |s| && t <= |tokens| && Nearest(s, pos, tokens).Some?
    ensures var c, k := Nearest(s, pos, tokens).value, CapturesBefore(tokens, t);
            k <= |c| && pos + PlaceOf(tokens, c, t) <= |s| &&
            Nearest(s, pos + PlaceOf(tokens, c, t), tokens[t..]) == Some(c[k..])
    decreases t
  {
    var c := Nearest(s, pos, tokens).value;
    if t == 0 {
      assert tokens[0..] == tokens && c[0..] == c;
    } else {
      if tokens[0].literal != "" {
        PlaceStep(tokens, c, t);
        NearestBehind(s, pos + |tokens[0].literal|, tokens[1..], t - 1);
      } else {
        NearestBehind(s, pos + |c[0]|, tokens[1..], t - 1);
        PlaceStep(tokens, c, t);
      }
    }
  }

  /** So the second of two adjacent captures is empty in every match that needs no retry. */
  lemma SecondIsEmptyWithoutRetry(s: string, tokens: seq<Token>, t: nat)
    requires Nearest(s, 0, tokens).Some? && t + 1 < |tokens|
    requires tokens[t].literal == "" && tokens[t + 1].literal == ""
    ensures Search(s, 0, tokens).Some?
    ensures var c, k := Search(s, 0, tokens).value, CapturesBefore(tokens, t);
            k + 1 < |c| && c[k + 1] == ""
  {
    NearestWins(s, tokens);
    NearestBehind(s, 0, tokens, t);
    AdjacentCaptures(s, tokens, t);
    var c := Search(s, 0, tokens).value;
    var pos, rest := PlaceOf(tokens, c, t), tokens[t + 2..];
    var tail := tokens[t..];
    assert tail[1..][1..] == rest;
    var e := NearestEnd(s, pos, rest).value;
    NearestIsAnchored(s, e, rest);
    SearchIsEarliest(s, e, rest, Nearest(s, e, rest).value);
  }

  /** The second of two adjacent captures is not always empty: `a**b` on `axbxb` captures `x` and `bx`. */
  lemma AdjacentCapturesCanBothBeFilled()
    ensures Search("axbxb", 0, [Token("a", 0), Token("", 1), Token("", 2), Token("b", 0)]) == Some(["x", "bx"])
  {
    var s, b := "axbxb", Token("b", 0);
    var tokens := [Token("a", 0), Token("", 1), Token("", 2), b];
    var c := ["x", "bx"];
    assert tokens[1..] == [Token("", 1), Token("", 2), b] && tokens[1..][1..] == [Token("", 2), b] &&
           [Token("", 2), b][1..] == [b];
    assert NextLiteral([b]) == "b" && NextLiteral([Token("", 2), b]) == "b";
    assert Anchored(s, 4, [b], []);
    assert c[1..] == ["bx"] && c[1..][1..] == [];
    assert Anchored(s, 2, [Token("", 2), b], ["bx"]);
    assert Anchored(s, 1, tokens[1..], c);
    forall d | Anchored(s, 0, tokens, d)
      ensures EndsNoLater(c, d)
    {
      OneWayToSplit(d);
    }
    EarliestIsFound(s, tokens, c);
  }

  lemma OneWayToSplit(d: seq<string>)
    requires Anchored("axbxb", 0, [Token("a", 0), Token("", 1), Token("", 2), Token("b", 0)], d)
    ensures |d| == 2 && |d[0]| >= 1 && (|d[0]| == 1 ==> |d[1]| == 2)
  {
    var s, b := "axbxb", Token("b", 0);
    var tokens := [Token("a", 0), Token("", 1), Token("", 2), b];
    assert tokens[1..] == [Token("", 1), Token("", 2), b] && tokens[1..][1..] == [Token("", 2), b] &&
           [Token("", 2), b][1..] == [b];
    assert NextLiteral([b]) == "b" && NextLiteral([Token("", 2), b]) == "b";
    assert Anchored(s, 1, tokens[1..], d);
    var p, e := 1 + |d[0]|, d[1..];
    assert NextLiteral(tokens[1..][1..]) == "b";
    assert MayEnd(s, p, tokens[1..][1..]);
    assert OccursAt(s, p, "b");
    assert s[p..p + 1][0] == s[p] == 'b';
    assert Anchored(s, p, [Token("", 2), b], e);
    var q := p + |e[0]|;
    assert e[0] == d[1];
    assert OccursAt(s, q, "b") && Anchored(s, q, [b], e[1..]);
    assert [b][1..] == [] && Anchored(s, q + 1, [], e[1..]);
  }

  // ------------------------------------------------------- the memo matcher

  /** The table key of a (token index, position) pair. */
  function Key(n: nat, ti: nat, pos: nat): int { ti * (n + 1) + pos }

  lemma RowsApart(n: nat, ti: nat, tj: nat)
    requires ti < tj
    ensures tj * (n + 1) >= ti * (n + 1) + n + 1
  {
    assert tj * (n + 1) == ti * (n + 1) + (tj - ti) * (n + 1);
    assert (tj - ti) * (n + 1) == n + 1 + (tj - ti - 1) * (n + 1);
    assert (tj - ti - 1) * (n + 1) >= 0;
  }

  lemma KeyInjective(n: nat, ti: nat, pos: nat, tj: nat, qos: nat)
    requires pos <= n && qos <= n && Key(n, ti, pos) == Key(n, tj, qos)
    ensures ti == tj && pos == qos
  {
    if ti < tj { RowsApart(n, ti, tj); }
    if tj < ti { RowsApart(n, tj, ti); }
  }

  /** No end in `[end, stop)` is allowed, so the search moves on to `stop`. */
  lemma {:induction false} SkipEnds(s: string, pos: nat, end: nat, stop: nat, tokens: seq<Token>)
    requires tokens != [] && pos <= end <= stop <= |s|
    requires forall k :: end <= k < stop ==> !MayEnd(s, k, tokens[1..])
    ensures SearchEnd(s, pos, end, tokens) == SearchEnd(s, pos, stop, tokens)
    decreases stop - end
  {
    if end < stop {
      SkipEnds(s, pos, end + 1, stop, tokens);
    }
  }

  function Prepend(captures: seq<string>, found: Option<seq<string>>): Option<seq<string>> {
    if found.None? then None else Some(captures + found.value)
  }

  lemma PrependOne(captures: seq<string>, text: string, found: Option<seq<string>>)
    ensures Prepend(captures + [text], found) ==
            Prepend(captures, if found.None? then None else Some([text] + found.value))
  {
    assert found.Some? ==> captures + [text] + found.value == captures + ([text] + found.value);
  }

  /** The table holds exactly the pairs in `pairs`. */
  ghost predicate TableHolds(n: nat, failed: map<int, bool>, pairs: set<(nat, nat)>) {
    forall ti: nat, pos: nat :: pos <= n ==> (Looked(failed, Key(n, ti, pos)) <==> (ti, pos) in pairs)
  }

  predicate Looked(failed: map<int, bool>, key: int) {
    key in failed && failed[key]
  }

  lemma TableLookup(n: nat, failed: map<int, bool>, pairs: set<(nat, nat)>, ti: nat, pos: nat)
    requires TableHolds(n, failed, pairs) && pos <= n
    ensures Looked(failed, ti * (n + 1) + pos) <==> (ti, pos) in pairs
  {
    assert Key(n, ti, pos) == ti * (n + 1) + pos;
  }

  lemma TableUpdate(n: nat, failed: map<int, bool>, pairs: set<(nat, nat)>, ti: nat, pos: nat)
    requires TableHolds(n, failed, pairs) && pos <= n
    ensures TableHolds(n, failed[ti * (n + 1) + pos := true], pairs + {(ti, pos)})
  {
    var key := Key(n, ti, pos);
    var failed' := failed[key := true];
    forall tj: nat, qos: nat | qos <= n
      ensures Looked(failed', Key(n, tj, qos)) <==> (tj, qos) in pairs + {(ti, pos)}
    {
      if Key(n, tj, qos) == key {
        KeyInjective(n, ti, pos, tj, qos);
      } else {
        assert Looked(failed, Key(n, tj, qos)) <==> (tj, qos) in pairs;
      }
    }
  }

  /** There are `rows * (n + 1)` pairs. */
  lemma {:induction false} PairsBound(pairs: set<(nat, nat)>, rows: nat, n: nat)
    requires forall p :: p in pairs ==> p.0 < rows && p.1 <= n
    ensures |pairs| <= rows * (n + 1)
  {
    if rows == 0 {
      assert pairs == {};
    } else {
      var last := set p | p in pairs && p.0 == rows - 1;
      var columns := set p | p in last :: p.1;
      PairsBound(pairs - last, rows - 1, n);
      ColumnsCount(last, columns, rows - 1);
      BoundedSetSize(columns, n + 1);
      assert pairs == (pairs - last) + last;
      assert rows * (n + 1) == (rows - 1) * (n + 1) + (n + 1);
    }
  }

  lemma {:induction false} ColumnsCount(row: set<(nat, nat)>, columns: set<nat>, r: nat)
    requires forall p :: p in row ==> p.0 == r
    requires columns == set p | p in row :: p.1
    ensures |row| == |columns|
  {
    if p :| p in row {
      var rest := row - {p};
      assert columns - {p.1} == set q | q in rest :: q.1;
      ColumnsCount(rest, columns - {p.1}, r);
      assert p.1 in columns;
    } else {
      assert row == {} && columns == {};
    }
  }

  class TokenMatcher {
    const s: string
    const tokens: seq<Token>
    var failed: map<int, bool>
    // the failed pairs the table stands for, every pair ever expanded, and the number of expansions
    ghost var failedPairs: set<(nat, nat)>
    ghost var expanded: set<(nat, nat)>
    ghost var work: nat

    ghost predicate Valid()
      reads this
    {
      && TableHolds(|s|, failed, failedPairs)
      && work == |expanded|
      && (forall p :: p in expanded ==> p.0 < |tokens| && p.1 <= |s|)
      && (forall p :: p in failedPairs ==> p.0 < |tokens| && p.1 <= |s| && Search(s, p.1, tokens[p.0..]).None?)
    }

    /** Every pair expanded at token `from` or later is known to have failed. */
    ghost predicate Settled(from: nat)
      reads this
    {
      forall p :: p in expanded && p.0 >= from ==> p in failedPairs
    }

    /** Since the old state only pairs at token `from` or later were expanded. */
    twostate predicate OnlyFrom(from: nat)
      reads this
    {
      && (forall p :: p in expanded && p.0 < from ==> p in old(expanded))
      && old(failedPairs) <= failedPairs
    }

    constructor (s: string, tokens: seq<Token>)
      ensures Valid() && Settled(0) && this.s == s && this.tokens == tokens && work == 0
    {
      this.s := s;
      this.tokens := tokens;
      failed := map[];
      failedPairs := {};
      expanded := {};
      work := 0;
    }

    /** Matches `tokens[ti..]` against `s[pos..]`, going through the table. */
    method Match(ti: nat, pos: nat, captures: seq<string>) returns (out: Option<seq<string>>)
      requires Valid() && Settled(ti) && ti <= |tokens| && pos <= |s|
      modifies this
      ensures Valid() && OnlyFrom(ti)
      ensures out == Prepend(captures, Search(s, pos, tokens[ti..]))
      ensures out.None? ==> Settled(ti)
      decreases |tokens| - ti, 1
    {
      if ti == |tokens| {
        assert captures + [] == captures;
        out := if pos == |s| then Some(captures) else None;
      } else {
        TableLookup(|s|, failed, failedPairs, ti, pos);
        if Looked(failed, ti * (|s| + 1) + pos) {
          out := None;
        } else {
          expanded := expanded + {(ti, pos)};
          work := work + 1;
          out := MatchToken(ti, pos, captures);
          if out.None? {
            Remember(ti, pos);
          }
        }
      }
    }

    /** Records the failed pair `(ti, pos)` in the table. */
    method Remember(ti: nat, pos: nat)
      requires Valid() && ti < |tokens| && pos <= |s| && Search(s, pos, tokens[ti..]).None?
      modifies `failed, `failedPairs
      ensures Valid() && failedPairs == old(failedPairs) + {(ti, pos)}
    {
      TableUpdate(|s|, failed, failedPairs, ti, pos);
      failed := failed[ti * (|s| + 1) + pos := true];
      failedPairs := failedPairs + {(ti, pos)};
    }

    /** Expands the pair `(ti, pos)`. */
    method MatchToken(ti: nat, pos: nat, captures: seq<string>) returns (out: Option<seq<string>>)
      requires Valid() && Settled(ti + 1) && ti < |tokens| && pos <= |s|
      modifies this
      ensures Valid() && OnlyFrom(ti + 1)
      ensures out == Prepend(captures, Search(s, pos, tokens[ti..]))
      ensures out.None? ==> Settled(ti + 1)
      decreases |tokens| - ti, 0, 1
    {
      var tok := tokens[ti];
      ghost var toks := tokens[ti..];
      assert toks[1..] == tokens[ti + 1..];
      if tok.literal != "" {
        if !OccursAt(s, pos, tok.literal) {
          return None;
        }
        out := Match(ti + 1, pos + |tok.literal|, captures);
        return;
      }
      var nextLit := LiteralAfter(ti);
      if nextLit == "" {
        SkipEnds(s, pos, pos, |s|, toks);
        out := Match(ti + 1, |s|, captures + [s[pos..]]);
        assert s[pos..] == s[pos..|s|];
        PrependOne(captures, s[pos..], Search(s, |s|, tokens[ti + 1..]));
      } else {
        out := MatchCapture(ti, pos, nextLit, captures);
      }
    }

    /** The literal that bounds the capture at `ti`. */
    method LiteralAfter(ti: nat) returns (nextLit: string)
      requires ti < |tokens|
      ensures nextLit == NextLiteral(tokens[ti + 1..])
    {
      nextLit := "";
      var k := ti + 1;
      while k < |tokens| && nextLit == ""
        invariant ti < k <= |tokens|
        invariant NextLiteral(tokens[ti + 1..]) == if nextLit != "" then nextLit else NextLiteral(tokens[k..])
      {
        assert tokens[k..][1..] == tokens[k + 1..];
        nextLit := tokens[k].literal;
        k := k + 1;
      }
    }

    /** Tries the occurrences of the bounding literal, nearest first. */
    method MatchCapture(ti: nat, pos: nat, nextLit: string, captures: seq<string>) returns (out: Option<seq<string>>)
      requires Valid() && Settled(ti + 1) && ti < |tokens| && pos <= |s|
      requires nextLit != "" && nextLit == NextLiteral(tokens[ti..][1..])
      modifies this
      ensures Valid() && OnlyFrom(ti + 1)
      ensures out == Prepend(captures, SearchEnd(s, pos, pos, tokens[ti..]))
      ensures out.None? ==> Settled(ti + 1)
      decreases |tokens| - ti, 0, 0
    {
      ghost var toks := tokens[ti..];
      assert toks[1..] == tokens[ti + 1..];
      var end := pos;
      while end + |nextLit| <= |s|
        invariant pos <= end <= |s|
        invariant Valid() && Settled(ti + 1) && OnlyFrom(ti + 1)
        invariant SearchEnd(s, pos, pos, toks) == SearchEnd(s, pos, end, toks)
      {
        var idx := IndexFrom(s, end, nextLit);
        if idx.None? {
          break;
        }
        SkipEnds(s, pos, end, idx.value, toks);
        end := idx.value;
        out := Match(ti + 1, end, captures + [s[pos..end]]);
        PrependOne(captures, s[pos..end], Search(s, end, tokens[ti + 1..]));
        if out.Some? {
          return;
        }
        end := end + 1;
      }
      SkipEnds(s, pos, end, |s|, toks);
      out := None;
    }
  }

  /** The memo table never changes the answer, and each pair is expanded at most once. */
  method MatchTokens(s: string, tokens: seq<Token>) returns (captures: Option<seq<string>>, ghost work: nat)
    ensures captures == Search(s, 0, tokens)
    ensures work <= |tokens| * (|s| + 1)
  {
    var m := new TokenMatcher(s, tokens);
    captures := m.Match(0, 0, []);
    assert tokens[0..] == tokens;
    ghost var found := Search(s, 0, tokens);
    assert found.Some? ==> [] + found.value == found.value;
    PairsBound(m.expanded, |tokens|, |s|);
    work := m.work;
  }
}
