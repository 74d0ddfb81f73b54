/** How evenly the round robin spreads the picks of one key. */
module RoundRobinFairness {
  import opened Common
  import opened Sorting
  import opened RoundRobin

  // ------------------------------------------------------------ counting turns

  function Hit(n: nat, x: nat, k: nat): nat
    requires n > 0
  {
    if x % n == k then 1 else 0
  }

  /** How many counters below `x` point at position `k` of `n`. */
  function HitsTo(n: nat, x: nat, k: nat): nat
    requires n > 0
  {
    if x == 0 then 0 else HitsTo(n, x - 1, k) + Hit(n, x - 1, k)
  }

  lemma NextRest(n: nat, x: nat)
    requires n > 0
    ensures (x + 1) % n == if x % n + 1 == n then 0 else x % n + 1
  {
    var q := x / n;
    assert x + 1 == q * n + (x % n + 1);
    if x % n + 1 == n {
      RestIs(n, q + 1, 0, x + 1);
    } else {
      RestIs(n, q, x % n + 1, x + 1);
    }
  }

  lemma RestIs(n: nat, q: nat, r: nat, x: nat)
    requires n > 0 && r < n && x == q * n + r
    ensures x % n == r
  {
    var d := q - x / n;
    assert d * n + r - x % n == 0 by {
      assert x == (x / n) * n + x % n;
      assert d * n == q * n - (x / n) * n;
    }
    NoSmallMultiple(d, n);
  }

  lemma NoSmallMultiple(d: int, n: nat)
    ensures d > 0 ==> d * n >= n
    ensures d < 0 ==> d * n + n <= 0
  {}

  /** An earlier position is ahead by one while the counter is between the two. */
  lemma {:induction false} Gap(n: nat, x: nat, k: nat, l: nat)
    requires k < l < n
    ensures HitsTo(n, x, k) - HitsTo(n, x, l) == if k < x % n <= l then 1 else 0
  {
    if x > 0 {
      Gap(n, x - 1, k, l);
      NextRest(n, x - 1);
    }
  }

  /** How many of `w` picks from counter `c` on take position `k`; the counter wraps at 2^64. */
  function Picks(n: nat, c: nat, w: nat, k: nat): nat
    requires n > 0
    decreases w
  {
    if w == 0 then 0 else Hit(n, c % WRAP, k) + Picks(n, c + 1, w - 1, k)
  }

  lemma {:induction false} PicksWrap(n: nat, c: nat, d: nat, w: nat, k: nat)
    requires n > 0 && c % WRAP == d % WRAP
    ensures Picks(n, c, w, k) == Picks(n, d, w, k)
    decreases w
  {
    if w > 0 {
      NextWrap(c, d);
      PicksWrap(n, c + 1, d + 1, w - 1, k);
    }
  }

  lemma NextWrap(c: nat, d: nat)
    requires c % WRAP == d % WRAP
    ensures (c + 1) % WRAP == (d + 1) % WRAP
  {}

  lemma {:induction false} PicksOneMore(n: nat, c: nat, w: nat, k: nat)
    requires n > 0
    ensures Picks(n, c, w + 1, k) == Picks(n, c, w, k) + Hit(n, (c + w) % WRAP, k)
    decreases w
  {
    if w > 0 {
      PicksOneMore(n, c + 1, w - 1, k);
    }
  }

  /** The wrap does not show when it is not reached or when `n` divides 2^64. */
  predicate Seamless(n: nat, c: nat, w: nat)
    requires n > 0
  {
    c + w <= WRAP || WRAP % n == 0
  }

  lemma RestOfRest(n: nat, c: nat)
    requires n > 0 && WRAP % n == 0
    ensures (c % WRAP) % n == c % n
  {
    var q, d := WRAP / n, c / WRAP;
    assert WRAP == q * n;
    assert c == d * WRAP + c % WRAP;
    var e := (c % WRAP) / n;
    assert d * WRAP == (d * q) * n;
    assert c == (d * q + e) * n + (c % WRAP) % n;
    RestIs(n, d * q + e, (c % WRAP) % n, c);
  }

  lemma {:induction false} SeamlessPicks(n: nat, c: nat, w: nat, k: nat)
    requires n > 0 && Seamless(n, c, w)
    ensures Picks(n, c, w, k) == HitsTo(n, c + w, k) - HitsTo(n, c, k)
    decreases w
  {
    if w > 0 {
      SeamlessPicks(n, c + 1, w - 1, k);
      if WRAP % n == 0 {
        RestOfRest(n, c);
      }
    }
  }

  predicate Close(a: int, b: int) { -1 <= a - b <= 1 }

  lemma SeamlessIsEven(n: nat, c: nat, w: nat, k: nat, l: nat)
    requires k < n && l < n && Seamless(n, c, w)
    ensures Close(Picks(n, c, w, k), Picks(n, c, w, l))
  {
    SeamlessPicks(n, c, w, k);
    SeamlessPicks(n, c, w, l);
    if k < l {
      Gap(n, c + w, k, l);
      Gap(n, c, k, l);
    } else if l < k {
      Gap(n, c + w, l, k);
      Gap(n, c, l, k);
    }
  }

  /** When 2^64 is no multiple of `n`, the picks around the wrap are uneven: the first position comes twice
      before the last one comes at all. */
  lemma WrapIsUneven(n: nat)
    requires 0 < n <= WRAP && WRAP % n != 0
    ensures var r := WRAP % n;
            r < n && Picks(n, WRAP - r, r + 1, 0) == Picks(n, WRAP - r, r + 1, n - 1) + 2
  {
    var r := WRAP % n;
    var c := WRAP - r;
    assert c == (WRAP / n) * n + 0;
    RestIs(n, WRAP / n, 0, c);
    SeamlessPicks(n, c, r, 0);
    SeamlessPicks(n, c, r, n - 1);
    Gap(n, WRAP, 0, n - 1);
    Gap(n, c, 0, n - 1);
    PicksOneMore(n, c, r, 0);
    PicksOneMore(n, c, r, n - 1);
    RestIs(n, 0, 0, 0);
  }

  // --------------------------------------------------------------- runs of picks

  datatype Call = Call(key: string, candidates: seq<Id>)

  /** Every call has candidates; those of `key` list the given IDs in some order. */
  predicate Steady(calls: seq<Call>, key: string, ids: seq<Id>) {
    calls == [] ||
    (calls[0].candidates != [] && (calls[0].key == key ==> multiset(calls[0].candidates) == multiset(ids)) &&
     Steady(calls[1..], key, ids))
  }

  function CallsOf(calls: seq<Call>, key: string): nat {
    if calls == [] then 0 else (if calls[0].key == key then 1 else 0) + CallsOf(calls[1..], key)
  }

  /** How often `id` is what a pick for `key` returns. */
  function Chosen(states: map<string, Turn>, calls: seq<Call>, key: string, ids: seq<Id>, id: Id): nat
    requires Steady(calls, key, ids)
    decreases |calls|
  {
    if calls == [] then 0
    else
      var (states', picked) := Pick(states, calls[0].key, calls[0].candidates);
      (if calls[0].key == key && picked == id then 1 else 0) + Chosen(states', calls[1..], key, ids, id)
  }

  /** Counters are 64-bit numbers. */
  predicate Counters(states: map<string, Turn>) { forall key :: key in states ==> states[key].next < WRAP }

  lemma PickKeepsCounters(states: map<string, Turn>, key: string, candidates: seq<Id>)
    requires Counters(states) && candidates != []
    ensures Counters(Pick(states, key, candidates).0) && Pick(states, key, candidates).1 in candidates
  {
    SortsIds(candidates);
    var picked := Pick(states, key, candidates).1;
    assert picked in multiset(SortIds(candidates));
  }

  /** A pick takes the next position of the sorted listing, and leaves other keys alone. */
  lemma OnePick(states: map<string, Turn>, call: Call, key: string, ids: seq<Id>)
    requires Counters(states) && call.candidates != [] && InOrder(ids) && ids != []
    requires call.key == key ==> multiset(call.candidates) == multiset(ids)
    ensures var (states', picked) := Pick(states, call.key, call.candidates);
            var turn := TurnFor(states, key, ids);
            if call.key == key then
              picked == ids[turn.next % |ids|] && TurnFor(states', key, ids).next == (turn.next + 1) % WRAP
            else TurnFor(states', key, ids) == turn
  {
    SortsIds(call.candidates);
    if call.key == key {
      ListedOnce(call.candidates, ids);
    }
  }

  /** Whatever the other keys do, the picks of one key follow its counter. */
  lemma {:induction false} ChosenIsPicks(states: map<string, Turn>, calls: seq<Call>, key: string, ids: seq<Id>, k: nat)
    requires Counters(states) && Steady(calls, key, ids) && InOrder(ids) && Distinct(ids) && k < |ids|
    ensures Chosen(states, calls, key, ids, ids[k]) ==
            Picks(|ids|, TurnFor(states, key, ids).next, CallsOf(calls, key), k)
    decreases |calls|
  {
    if calls != [] {
      var call := calls[0];
      var (states', picked) := Pick(states, call.key, call.candidates);
      var c, w := TurnFor(states, key, ids).next, CallsOf(calls[1..], key);
      PickKeepsCounters(states, call.key, call.candidates);
      OnePick(states, call, key, ids);
      ChosenIsPicks(states', calls[1..], key, ids, k);
      ChosenFirst(states, calls, key, ids, ids[k]);
      if call.key == key {
        PicksStep(ids, c, w, k, picked);
      }
    }
  }

  lemma ChosenFirst(states: map<string, Turn>, calls: seq<Call>, key: string, ids: seq<Id>, id: Id)
    requires Steady(calls, key, ids) && calls != []
    ensures var (states', picked) := Pick(states, calls[0].key, calls[0].candidates);
            Chosen(states, calls, key, ids, id) ==
            (if calls[0].key == key && picked == id then 1 else 0) + Chosen(states', calls[1..], key, ids, id)
    ensures CallsOf(calls, key) == (if calls[0].key == key then 1 else 0) + CallsOf(calls[1..], key)
  {}

  lemma PicksStep(ids: seq<Id>, c: nat, w: nat, k: nat, picked: Id)
    requires c < WRAP && k < |ids| && Distinct(ids) && picked == ids[c % |ids|]
    ensures Picks(|ids|, c, w + 1, k) == (if picked == ids[k] then 1 else 0) + Picks(|ids|, (c + 1) % WRAP, w, k)
  {
    PicksWrap(|ids|, (c + 1) % WRAP, c + 1, w, k);
    SamePlace(ids, c % |ids|, k);
    PicksUnfold(|ids|, c, w, k);
  }

  lemma SamePlace(ids: seq<Id>, i: nat, k: nat)
    requires Distinct(ids) && i < |ids| && k < |ids|
    ensures i == k <==> ids[i] == ids[k]
  {}

  lemma PicksUnfold(n: nat, c: nat, w: nat, k: nat)
    requires n > 0 && c < WRAP
    ensures Picks(n, c, w + 1, k) == Hit(n, c, k) + Picks(n, c + 1, w, k)
  {}

  /** In any window of picks for one key over an unchanged set of distinct IDs, in whatever order they are listed
      and whatever other keys do, any two IDs are chosen equally often or once more, as long as the counter does
      not wrap in the window or the number of IDs divides 2^64. */
  lemma PicksAreEven(states: map<string, Turn>, calls: seq<Call>, key: string, listing: seq<Id>, a: Id, b: Id)
    requires Counters(states) && Steady(calls, key, listing) && Distinct(listing) && a in listing && b in listing
    requires Seamless(|listing|, TurnFor(states, key, SortIds(listing)).next, CallsOf(calls, key))
    ensures Close(Chosen(states, calls, key, listing, a), Chosen(states, calls, key, listing, b))
  {
    var ids := SortIds(listing);
    SortsIds(listing);
    DistinctIds(listing);
    SteadySorted(calls, key, listing);
    assert a in multiset(ids) && b in multiset(ids);
    var k :| 0 <= k < |ids| && ids[k] == a;
    var l :| 0 <= l < |ids| && ids[l] == b;
    ChosenIsPicks(states, calls, key, ids, k);
    ChosenIsPicks(states, calls, key, ids, l);
    SeamlessIsEven(|ids|, TurnFor(states, key, ids).next, CallsOf(calls, key), k, l);
    ChosenSorted(states, calls, key, listing, a);
    ChosenSorted(states, calls, key, listing, b);
  }

  // ------------------------------------------------------------- across the wrap

  function Repeat(key: string, ids: seq<Id>, w: nat): seq<Call> {
    if w == 0 then [] else [Call(key, ids)] + Repeat(key, ids, w - 1)
  }

  lemma {:induction false} RepeatIsSteady(key: string, ids: seq<Id>, w: nat)
    requires ids != []
    ensures Steady(Repeat(key, ids, w), key, ids) && CallsOf(Repeat(key, ids, w), key) == w
  {
    if w > 0 {
      RepeatIsSteady(key, ids, w - 1);
      assert Repeat(key, ids, w)[1..] == Repeat(key, ids, w - 1);
    }
  }

  ghost predicate EvenRun(states: map<string, Turn>, calls: seq<Call>, key: string, listing: seq<Id>)
    requires Steady(calls, key, listing)
  {
    forall a, b :: a in listing && b in listing ==>
      Close(Chosen(states, calls, key, listing, a), Chosen(states, calls, key, listing, b))
  }

  ghost predicate AlwaysEven(key: string, listing: seq<Id>) {
    forall states, calls | Counters(states) && Steady(calls, key, listing) && CallsOf(calls, key) < WRAP ::
      EvenRun(states, calls, key, listing)
  }

  /** When 2^64 is no multiple of the number of IDs, some short run of picks around the wrap is uneven. */
  lemma WrapBreaksEvenness(key: string, ids: seq<Id>) returns (states: map<string, Turn>, calls: seq<Call>)
    requires InOrder(ids) && Distinct(ids) && 0 < |ids| < WRAP && WRAP % |ids| != 0
    ensures Counters(states) && Steady(calls, key, ids) && CallsOf(calls, key) < WRAP
    ensures Chosen(states, calls, key, ids, ids[0]) == Chosen(states, calls, key, ids, ids[|ids| - 1]) + 2
  {
    var n := |ids|;
    var r := WRAP % n;
    WrapIsUneven(n);
    states, calls := map[key := Turn(Signature(ids), WRAP - r)], Repeat(key, ids, r + 1);
    RepeatIsSteady(key, ids, r + 1);
    ChosenIsPicks(states, calls, key, ids, 0);
    ChosenIsPicks(states, calls, key, ids, n - 1);
  }

  /** Every window of fewer than 2^64 picks is even exactly when the number of IDs divides 2^64. */
  lemma EvenExactlyWhen(key: string, listing: seq<Id>)
    requires Distinct(listing) && 0 < |listing| < WRAP
    ensures AlwaysEven(key, listing) <==> WRAP % |listing| == 0
  {
    SortsIds(listing);
    if WRAP % |listing| == 0 {
      forall states, calls | Counters(states) && Steady(calls, key, listing) && CallsOf(calls, key) < WRAP
        ensures EvenRun(states, calls, key, listing)
      {
        forall a, b | a in listing && b in listing
          ensures Close(Chosen(states, calls, key, listing, a), Chosen(states, calls, key, listing, b))
        {
          PicksAreEven(states, calls, key, listing, a, b);
        }
      }
    } else {
      var ids := SortIds(listing);
      SortsIds(listing);
      DistinctIds(listing);
      var states, calls := WrapBreaksEvenness(key, ids);
      SteadyUnsorted(calls, key, listing);
      ChosenSorted(states, calls, key, listing, ids[0]);
      ChosenSorted(states, calls, key, listing, ids[|ids| - 1]);
      assert ids[0] in multiset(listing) && ids[|ids| - 1] in multiset(listing);
      assert !EvenRun(states, calls, key, listing);
    }
  }

  lemma {:induction false} SteadyUnsorted(calls: seq<Call>, key: string, listing: seq<Id>)
    requires Steady(calls, key, SortIds(listing))
    ensures Steady(calls, key, listing)
    decreases |calls|
  {
    SortsIds(listing);
    if calls != [] {
      SteadyUnsorted(calls[1..], key, listing);
    }
  }

  lemma {:induction false} SteadySorted(calls: seq<Call>, key: string, listing: seq<Id>)
    requires Steady(calls, key, listing)
    ensures Steady(calls, key, SortIds(listing))
    decreases |calls|
  {
    SortsIds(listing);
    if calls != [] {
      SteadySorted(calls[1..], key, listing);
    }
  }

  lemma {:induction false} ChosenSorted(states: map<string, Turn>, calls: seq<Call>, key: string, listing: seq<Id>,
      id: Id)
    requires Steady(calls, key, listing) && Steady(calls, key, SortIds(listing))
    ensures Chosen(states, calls, key, listing, id) == Chosen(states, calls, key, SortIds(listing), id)
    decreases |calls|
  {
    if calls != [] {
      ChosenSorted(Pick(states, calls[0].key, calls[0].candidates).0, calls[1..], key, listing, id);
    }
  }

  lemma DistinctIds(listing: seq<Id>)
    requires Distinct(listing)
    ensures Distinct(SortIds(listing))
  {
    StringOrderIsTotal();
    SortedDistinct(StringOrder(), listing);
  }
}
