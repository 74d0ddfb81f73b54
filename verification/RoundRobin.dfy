/** The per-key round robin over the credentials that can serve a channel. */
module RoundRobin {
  import opened Common
  import opened Sorting

  type Id = string

  const WRAP: int := 0x1_0000_0000_0000_0000

  // -------------------------------------------------------------- sorted listings

  /** sort.Strings. */
  function SortIds(ids: seq<Id>): seq<Id> { Sort(StringOrder(), ids) }

  predicate InOrder(ids: seq<Id>) { Sorted(StringOrder(), ids) }

  lemma SortsIds(ids: seq<Id>)
    ensures InOrder(SortIds(ids)) && multiset(SortIds(ids)) == multiset(ids) && |SortIds(ids)| == |ids|
  {
    StringOrderIsTotal();
    SortSorts(StringOrder(), ids);
  }

  /** In whatever order the candidates are listed, they have one sorted listing. */
  lemma ListedOnce(candidates: seq<Id>, ids: seq<Id>)
    requires InOrder(ids) && multiset(candidates) == multiset(ids)
    ensures SortIds(candidates) == ids
  {
    StringOrderIsTotal();
    SortsIds(candidates);
    SortedOnce(StringOrder(), SortIds(candidates), ids);
  }

  // ------------------------------------------------------------------- the pick

  datatype Turn = Turn(signature: string, next: nat)

  function Signature(ids: seq<Id>): string { Join(ids, "\0") }

  /** The turn a pick starts from: the stored one if it is of the same candidates. */
  function TurnFor(states: map<string, Turn>, key: string, ids: seq<Id>): Turn {
    if key in states && states[key].signature == Signature(ids) then states[key] else Turn(Signature(ids), 0)
  }

  function Pick(states: map<string, Turn>, key: string, candidates: seq<Id>): (map<string, Turn>, Id)
    requires candidates != []
  {
    SortsIds(candidates);
    var ids := SortIds(candidates);
    var turn := TurnFor(states, key, ids);
    (states[key := turn.(next := (turn.next + 1) % WRAP)], ids[turn.next % |ids|])
  }

  class ChannelRoundRobin {
    var states: map<string, Turn>

    constructor ()
      ensures states == map[]
    {
      states := map[];
    }

    method Reset()
      modifies this
      ensures states == map[]
    {
      states := map[];
    }

    method PickNext(key: string, candidates: seq<Id>) returns (id: Id)
      requires candidates != []
      modifies this
      ensures (states, id) == Pick(old(states), key, candidates)
    {
      var ids := SortIds(candidates);
      SortsIds(candidates);
      var signature := Join(ids, "\0");
      var turn := if key in states then states[key] else Turn("", 0);
      if turn.signature != signature {
        turn := Turn(signature, 0);
      }
      id := ids[turn.next % |ids|];
      turn := turn.(next := (turn.next + 1) % WRAP);
      states := states[key := turn];
    }
  }
}
