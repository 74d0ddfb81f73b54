/** The pick told by the calls made so far: which position comes next, and when the turn starts again at the first. */
module RoundRobinRestart {
  import opened Common
  import opened Sorting
  import opened RoundRobin

  datatype Use = Picks(key: string, candidates: seq<Id>) | Resets

  predicate NoNul(ids: seq<Id>) { forall id :: id in ids ==> '\0' !in id }

  predicate Proper(uses: seq<Use>) { forall u :: u in uses && u.Picks? ==> u.candidates != [] }

  /** The service takes the candidates for the same ones. */
  predicate LookSame(a: seq<Id>, b: seq<Id>) { Signature(SortIds(a)) == Signature(SortIds(b)) }

  function After(states: map<string, Turn>, u: Use): map<string, Turn>
    requires u.Picks? ==> u.candidates != []
  {
    if u.Resets? then map[] else Pick(states, u.key, u.candidates).0
  }

  function StatesAfter(uses: seq<Use>): map<string, Turn>
    requires Proper(uses)
  {
    if uses == [] then map[]
    else
      var last := uses[|uses| - 1];
      After(StatesAfter(uses[..|uses| - 1]), last)
  }

  /** The candidates of the last pick for the key since the last reset. */
  function LastCandidates(uses: seq<Use>, key: string): Option<seq<Id>> {
    if uses == [] || uses[|uses| - 1].Resets? then None
    else if uses[|uses| - 1].key == key then Some(uses[|uses| - 1].candidates)
    else LastCandidates(uses[..|uses| - 1], key)
  }

  /** How many picks for the key came last, one after the other but for picks for other keys, over candidates that
      look the same. */
  function Streak(uses: seq<Use>, key: string, candidates: seq<Id>): nat {
    if uses == [] || uses[|uses| - 1].Resets? then 0
    else
      var init, last := uses[..|uses| - 1], uses[|uses| - 1];
      if last.key != key then Streak(init, key, candidates)
      else if LookSame(last.candidates, candidates) then 1 + Streak(init, key, candidates)
      else 0
  }

  // -------------------------------------------------------------------- signatures

  lemma FirstNul(s: string, a: string, rest: string)
    requires '\0' !in a && s == a + "\0" + rest
    ensures |a| < |s| && s[|a|] == '\0' && forall i :: 0 <= i < |a| ==> s[i] != '\0'
    ensures a == s[..|a|] && rest == s[|a| + 1..]
  {}

  lemma SignatureNul(ids: seq<Id>)
    requires ids != [] && NoNul(ids)
    ensures '\0' in Signature(ids) <==> |ids| > 1
  {
    assert ids[0] in ids;
    if |ids| > 1 {
      FirstNul(Signature(ids), ids[0], Signature(ids[1..]));
    }
  }

  /** Joined lists of IDs without NUL are equal only if the lists are. */
  lemma {:induction false} SignatureInjective(a: seq<Id>, b: seq<Id>)
    requires a != [] && b != [] && NoNul(a) && NoNul(b) && Signature(a) == Signature(b)
    ensures a == b
  {
    assert a[0] in a && b[0] in b;
    SignatureNul(a);
    SignatureNul(b);
    if |a| == 1 {
      assert a == [a[0]] && b == [b[0]];
    } else {
      FirstNul(Signature(a), a[0], Signature(a[1..]));
      FirstNul(Signature(b), b[0], Signature(b[1..]));
      SignatureInjective(a[1..], b[1..]);
      assert a == [a[0]] + a[1..] && b == [b[0]] + b[1..];
    }
  }

  /** With a NUL in an ID other candidates can look the same. */
  lemma NulConfuses()
    ensures LookSame(["a\0b"], ["a", "b"]) && multiset(["a\0b"]) != multiset(["a", "b"])
  {
    var one, two := ["a\0b"], ["a", "b"];
    assert two[1..] == ["b"] && Leq("a", "b");
    StringOrderIsTotal();
    SortsIds(one);
    ListedOnce(one, one);
    ListedOnce(two, two);
    assert Signature(one) == Signature(two);
    assert |multiset(one)| == 1 && |multiset(two)| == 2;
  }

  /** Without one, candidates look the same exactly when they are, in whatever order they are listed. */
  lemma SameSignature(a: seq<Id>, b: seq<Id>)
    requires a != [] && b != [] && NoNul(a) && NoNul(b)
    ensures LookSame(a, b) <==> multiset(a) == multiset(b)
  {
    SortsIds(a);
    SortsIds(b);
    forall id ensures (id in SortIds(a) <==> id in a) && (id in SortIds(b) <==> id in b) {
      assert (id in multiset(SortIds(a)) <==> id in multiset(a)) && (id in multiset(SortIds(b)) <==> id in multiset(b));
    }
    if multiset(a) == multiset(b) {
      ListedOnce(a, SortIds(b));
    }
    if Signature(SortIds(a)) == Signature(SortIds(b)) {
      SignatureInjective(SortIds(a), SortIds(b));
    }
  }

  // -------------------------------------------------------------------- the picks

  /** What is stored for a key after the uses. */
  predicate Stored(states: map<string, Turn>, uses: seq<Use>, key: string) {
    match LastCandidates(uses, key)
    case None => key !in states
    case Some(c) =>
      key in states && states[key] == Turn(Signature(SortIds(c)), Streak(uses, key, c) % WRAP)
  }

  lemma TurnIs(states: map<string, Turn>, uses: seq<Use>, key: string, candidates: seq<Id>)
    requires Stored(states, uses, key)
    ensures TurnFor(states, key, SortIds(candidates)) ==
            Turn(Signature(SortIds(candidates)), Streak(uses, key, candidates) % WRAP)
  {
    StreakOfLast(uses, key, candidates);
  }

  /** A streak is of the last candidates or there is none. */
  lemma {:induction false} StreakOfLast(uses: seq<Use>, key: string, candidates: seq<Id>)
    ensures match LastCandidates(uses, key)
            case None => Streak(uses, key, candidates) == 0
            case Some(c) =>
              Streak(uses, key, candidates) ==
              if LookSame(c, candidates) then Streak(uses, key, c) else 0
    decreases |uses|
  {
    if uses != [] && uses[|uses| - 1].Picks? {
      var last := uses[|uses| - 1];
      StreakOfLast(uses[..|uses| - 1], key, candidates);
      if last.key == key && LookSame(last.candidates, candidates) {
        SameStreak(uses[..|uses| - 1], key, candidates, last.candidates);
      }
    }
  }

  lemma {:induction false} SameStreak(uses: seq<Use>, key: string, a: seq<Id>, b: seq<Id>)
    requires LookSame(a, b)
    ensures Streak(uses, key, a) == Streak(uses, key, b)
    decreases |uses|
  {
    if uses != [] && uses[|uses| - 1].Picks? {
      SameStreak(uses[..|uses| - 1], key, a, b);
    }
  }

  lemma WrapAgain(x: nat)
    ensures (x % WRAP + 1) % WRAP == (x + 1) % WRAP
  {}

  lemma {:induction false} StatesStored(uses: seq<Use>, key: string)
    requires Proper(uses)
    ensures Stored(StatesAfter(uses), uses, key)
    decreases |uses|
  {
    if uses != [] {
      var init, last := uses[..|uses| - 1], uses[|uses| - 1];
      assert last in uses;
      StatesStored(init, key);
      if last.Picks? && last.key == key {
        TurnIs(StatesAfter(init), init, key, last.candidates);
        WrapAgain(Streak(init, key, last.candidates));
      }
    }
  }

  /** A pick returns the sorted candidates in turn, at the position that the picks over the same candidates have led
      to, counted in 64 bits. */
  lemma PickIs(uses: seq<Use>, key: string, candidates: seq<Id>)
    requires Proper(uses) && candidates != []
    ensures var ids, n := SortIds(candidates), Streak(uses, key, candidates);
            |ids| == |candidates| &&
            Pick(StatesAfter(uses), key, candidates).1 == ids[n % 0x1_0000_0000_0000_0000 % |ids|]
  {
    SortsIds(candidates);
    StatesStored(uses, key);
    TurnIs(StatesAfter(uses), uses, key, candidates);
  }

  /** So it starts again at the first for a key that is new, has been reset or whose candidates look changed. */
  lemma PickRestarts(uses: seq<Use>, key: string, candidates: seq<Id>)
    requires Proper(uses) && candidates != []
    requires var last := LastCandidates(uses, key); last == None || !LookSame(last.value, candidates)
    ensures |SortIds(candidates)| == |candidates|
    ensures Pick(StatesAfter(uses), key, candidates).1 == SortIds(candidates)[0]
  {
    PickIs(uses, key, candidates);
    StreakOfLast(uses, key, candidates);
    FirstPlace(|candidates|);
  }

  lemma FirstPlace(n: nat)
    requires n > 0
    ensures 0 % 0x1_0000_0000_0000_0000 % n == 0
  {}
}
