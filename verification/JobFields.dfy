/** What the transactions of the notification store do to the rows, told in their fields. */
module JobFields {
  import opened Common
  import opened JobStore
  import opened JobProtocol
  import opened JobService

  // ------------------------------------------------------------------------ claims

  /** A job that is waiting to be sent and whose time has come. */
  predicate Ripe(j: Job, now: int) { j.state == Pending && j.nextAttempt <= now }

  /** `places` are where in the order the keys `due` stand, from `n` on. */
  predicate PlacesOf(order: seq<JobKey>, n: nat, due: seq<JobKey>, places: seq<nat>) {
    && |places| == |due|
    && (forall i :: 0 <= i < |places| ==> n <= places[i] < |order| && order[places[i]] == due[i])
    && (forall i, j :: 0 <= i < j < |places| ==> places[i] < places[j])
  }

  /** A ripe job at `p` is among the places, or the limit was reached before it. */
  predicate TakenOrFull(p: nat, limit: int, places: seq<nat>) {
    p in places || (limit > 0 && |places| == limit && forall i :: 0 <= i < |places| ==> places[i] < p)
  }

  predicate NoneLeft(jobs: map<JobKey, Job>, order: seq<JobKey>, n: nat, now: int, limit: int, places: seq<nat>) {
    forall p: nat :: n <= p < |order| && order[p] in jobs && Ripe(jobs[order[p]], now) ==>
      TakenOrFull(p, limit, places)
  }

  lemma {:induction false} DuePlaces(jobs: map<JobKey, Job>, order: seq<JobKey>, n: nat, now: int, limit: int)
    returns (places: seq<nat>)
    requires n <= |order|
    ensures PlacesOf(order, n, DueKeys(jobs, order[n..], now, limit), places)
    ensures forall i :: 0 <= i < |places| ==> order[places[i]] in jobs && Ripe(jobs[order[places[i]]], now)
    ensures limit > 0 ==> |places| <= limit
    ensures NoneLeft(jobs, order, n, now, limit, places)
    decreases |order| - n
  {
    places := [];
    if n < |order| {
      assert order[n..][0] == order[n] && order[n..][1..] == order[n + 1..];
      if order[n] !in jobs || !Ripe(jobs[order[n]], now) {
        places := DuePlaces(jobs, order, n + 1, now, limit);
      } else if limit == 1 {
        places := [n];
      } else {
        var left := if limit > 0 then limit - 1 else limit;
        var rest := DuePlaces(jobs, order, n + 1, now, left);
        places := [n] + rest;
        MorePlaces(jobs, order, n, now, limit, rest);
        PlaceFirst(order, n, DueKeys(jobs, order[n + 1..], now, left), rest);
      }
    }
  }

  lemma PlaceFirst(order: seq<JobKey>, n: nat, due: seq<JobKey>, rest: seq<nat>)
    requires n < |order| && PlacesOf(order, n + 1, due, rest)
    ensures PlacesOf(order, n, [order[n]] + due, [n] + rest)
  {}

  lemma MorePlaces(jobs: map<JobKey, Job>, order: seq<JobKey>, n: nat, now: int, limit: int, rest: seq<nat>)
    requires n < |order| && limit != 1 && forall i :: 0 <= i < |rest| ==> n < rest[i]
    requires NoneLeft(jobs, order, n + 1, now, if limit > 0 then limit - 1 else limit, rest)
    ensures NoneLeft(jobs, order, n, now, limit, [n] + rest)
  {
    var places := [n] + rest;
    forall p: nat | n <= p < |order| && order[p] in jobs && Ripe(jobs[order[p]], now)
      ensures TakenOrFull(p, limit, places)
    {
      if p > n {
        assert TakenOrFull(p, if limit > 0 then limit - 1 else limit, rest);
        assert p in rest ==> p in places;
      } else {
        assert places[0] == p;
      }
    }
  }

  /** A claim takes ripe jobs only: those at `places`, in cursor order, each becoming sending and nothing else. What it
      leaves is as it was, and a ripe job is left only behind a full batch. */
  lemma ClaimInFields(st: Store, order: seq<JobKey>, now: int, limit: int) returns (places: seq<nat>)
    requires IsOrder(order, st.jobs)
    ensures var (st', batch) := Claim(st, order, now, limit);
            && |places| == |batch| && (limit > 0 ==> |batch| <= limit)
            && (forall i, j :: 0 <= i < j < |places| ==> places[i] < places[j])
            && (forall i :: 0 <= i < |places| ==>
                  places[i] < |order| && order[places[i]] in st.jobs &&
                  Ripe(st.jobs[order[places[i]]], now) && batch[i] == st.jobs[order[places[i]]].(state := Sending))
            && st' == st.(jobs := st'.jobs) && st'.jobs.Keys == st.jobs.Keys
            && (forall i :: 0 <= i < |places| ==> st'.jobs[order[places[i]]] == batch[i])
            && (forall p: nat :: p < |order| && p !in places ==>
                  order[p] in st.jobs && st'.jobs[order[p]] == st.jobs[order[p]])
            && NoneLeft(st.jobs, order, 0, now, limit, places)
  {
    assert order[0..] == order;
    places := DuePlaces(st.jobs, order, 0, now, limit);
    var due := DueKeys(st.jobs, order, now, limit);
    DueKeysAreDue(st.jobs, order, now, limit);
    var jobs := MarkAll(st.jobs, due, Sending);
    JobsAtIndex(jobs, due);
    forall i | 0 <= i < |places| ensures order[places[i]] in due {
      assert due[i] == order[places[i]];
    }
    forall p: nat | p < |order| && p !in places ensures order[p] in st.jobs && order[p] !in due {
      NotTaken(order, due, places, p);
    }
  }

  lemma NotTaken(order: seq<JobKey>, due: seq<JobKey>, places: seq<nat>, p: nat)
    requires Distinct(order) && PlacesOf(order, 0, due, places) && p < |order| && p !in places
    ensures order[p] in order && order[p] !in due
  {
    forall i | 0 <= i < |due| ensures due[i] != order[p] {
      assert places[i] in places;
    }
  }

  // ----------------------------------------------------------------------- writes

  /** An upsert merges into a pending job of the same key, which keeps its identity, and otherwise starts a new job at
      the store's revision. Every other row and table stays. */
  lemma UpsertInFields(st: Store, j: Job, key: JobKey)
    requires key == JobKey(j.fingerprint, j.notification, if j.channel == "" then "-" else j.channel, j.platform,
                           j.period)
    ensures var (st', merged) := Upsert(st, j);
            && st' == st.(jobs := st'.jobs) && st'.jobs.Keys == st.jobs.Keys + {key}
            && (forall k :: k in st.jobs && k != key ==> st'.jobs[k] == st.jobs[k])
            && st'.jobs[key].payload == j.payload && st'.jobs[key].nextAttempt == j.nextAttempt
            && merged == st'.jobs[key].merged
            && var e := st'.jobs[key];
               if key in st.jobs && st.jobs[key].state == Pending then
                 var was := st.jobs[key];
                 e.state == Pending && e.merged == was.merged + 1 && e.revision == j.revision && e.id == was.id &&
                 SameRow(e, was)
               else
                 e.state == j.state && e.merged == 1 && e.revision == st.revision && e.id == j.id && SameRow(e, j)
  {}

  /** The same target, channel and period. */
  predicate SameRow(a: Job, b: Job) {
    a.fingerprint == b.fingerprint && a.notification == b.notification && a.platform == b.platform &&
    a.channel == b.channel && a.period == b.period
  }

  /** The revision guard drops the pending jobs of an older revision and nothing else, and counts them. */
  lemma SupersedeInFields(st: Store, order: seq<JobKey>, rev: nat)
    requires IsOrder(order, st.jobs)
    ensures var (st', dropped) := Supersede(st, order, rev);
            && st' == st.(jobs := st'.jobs) && st'.jobs.Keys == st.jobs.Keys
            && (forall k :: k in st.jobs ==>
                  var j := st.jobs[k];
                  st'.jobs[k] == if j.state == Pending && j.revision < rev then j.(state := Superseded) else j)
            && dropped == |set k | k in st.jobs && st.jobs[k].state == Pending && st.jobs[k].revision < rev|
  {
    var keys := KeysWhere(st.jobs, order, IsStale(rev));
    KeysWhereHold(st.jobs, order, IsStale(rev));
    KeysCount(keys, set k | k in st.jobs && st.jobs[k].state == Pending && st.jobs[k].revision < rev);
  }

  lemma {:induction false} KeysCount(keys: seq<JobKey>, all: set<JobKey>)
    requires Distinct(keys) && forall k :: k in keys <==> k in all
    ensures |keys| == |all|
  {
    if keys == [] {
      assert all == {};
    } else {
      assert keys == [keys[0]] + keys[1..];
      assert keys[0] !in keys[1..];
      KeysCount(keys[1..], all - {keys[0]});
    }
  }

  /** One delivered job: its record, the send clock of its dimension when it was accepted, and its row. A failure with
      a wait leaves a new pending job in the row, of the same target, period and payload, to be sent when the wait is
      over; any other result leaves the ended job. */
  lemma DeliverOneInFields(st: Store, order: seq<JobKey>, j: Job, r: SendResult, id: nat, now: int)
    requires IsOrder(order, st.jobs) && UniqueIds(st.jobs) && KeyOf(j) in st.jobs && st.jobs[KeyOf(j)] == j
    requires r.outcome != OtherOutcome
    ensures var st' := DeliverOne(st, order, j, r, id, now); var key := KeyOf(j);
            && st'.revision == st.revision && st'.jobs.Keys == st.jobs.Keys
            && st'.deliveries == st.deliveries + [Delivery(j.id, j.fingerprint, j.notification, j.platform, j.period,
                                                           r.outcome, r.errorCode)]
            && (forall k :: k in st.jobs && k != key ==> st'.jobs[k] == st.jobs[k])
    ensures var st' := DeliverOne(st, order, j, r, id, now);
            var scope := if j.fingerprint == "" then "global" else j.fingerprint;
            var dimension := ClockKey(j.notification, scope, if j.channel == "" then "-" else j.channel);
            st'.clock == if r.outcome == Accepted then st.clock[dimension := now - now % 1_000_000_000] else st.clock
    ensures DeliverOne(st, order, j, r, id, now).jobs[KeyOf(j)] ==
            if r.outcome == DeliveryFailed && r.retryAfter > 0 then
              Job(id, j.fingerprint, j.notification, j.platform, j.channel, j.period, Pending, j.payload, 1,
                  st.revision, now + r.retryAfter)
            else
              j.(state := if r.outcome == Accepted then Sent else if r.outcome == DeliveryFailed then Failed
                          else Unknown)
  {
    FindById(st.jobs, order, KeyOf(j));
    assert KeyOf(RetryJob(j, id, now + r.retryAfter)) == KeyOf(j);
  }

  /** A job of this target waits or is being sent. */
  ghost predicate TargetTaken(st: Store, j: Job) {
    exists k :: k in st.jobs && (st.jobs[k].state == Pending || st.jobs[k].state == Sending) &&
      st.jobs[k].fingerprint == j.fingerprint && st.jobs[k].notification == j.notification &&
      st.jobs[k].platform == j.platform && st.jobs[k].channel == j.channel
  }

  /** An enqueue is dropped exactly while a job of its target waits or is being sent; otherwise its job is pending
      under its key afterwards, at the current revision, with its payload and time. Everything else stays. */
  lemma EnqueueInFields(st: Store, j: Job, key: JobKey)
    requires KeysPresent(st.jobs) && j.state == Pending
    requires key == JobKey(j.fingerprint, j.notification, if j.channel == "" then "-" else j.channel, j.platform,
                           j.period)
    ensures TargetTaken(st, j) ==> Enqueued(st, j) == st
    ensures !TargetTaken(st, j) ==>
              var st' := Enqueued(st, j);
              && st' == st.(jobs := st'.jobs) && st'.jobs.Keys == st.jobs.Keys + {key}
              && (forall k :: k in st.jobs && k != key ==> st'.jobs[k] == st.jobs[k])
              && st'.jobs[key].state == Pending && st'.jobs[key].revision == st.revision
              && st'.jobs[key].payload == j.payload && st'.jobs[key].nextAttempt == j.nextAttempt
  {
    UpsertInFields(st, j.(revision := st.revision), key);
    if k :| k in st.jobs && (st.jobs[k].state == Pending || st.jobs[k].state == Sending) &&
            SameTarget(st.jobs[k], j.fingerprint, j.notification, j.platform, j.channel) {
      assert TargetBusy(st, j.fingerprint, j.notification, j.platform, j.channel);
    }
  }

  lemma {:induction false} RecordsOfBatch(st: Store, order: seq<JobKey>, batch: seq<Job>, turns: Turns, now: int)
    requires Cover(turns, |batch|)
    ensures st.deliveries <= DeliverAll(st, order, batch, turns, now).deliveries
    ensures |DeliverAll(st, order, batch, turns, now).deliveries| <= |st.deliveries| + |batch|
    decreases |batch|
  {
    if batch != [] && turns.stop > 0 {
      var next := DeliverOne(st, order, batch[0], turns.results[0], turns.ids[0], now);
      assert st.deliveries <= next.deliveries && |next.deliveries| <= |st.deliveries| + 1;
      RecordsOfBatch(next, order, batch[1..], Later(turns), now);
    }
  }

  /** A send pass only adds records, ten at most. */
  lemma PassIsBounded(st: Store, order: seq<JobKey>, turns: Turns, now: int)
    requires Cover(turns, 10)
    ensures st.deliveries <= SendPass(st, order, turns, now).deliveries
    ensures |SendPass(st, order, turns, now).deliveries| <= |st.deliveries| + 10
  {
    var swept := Supersede(st, order, st.revision).0;
    var (claimed, batch) := Claim(swept, order, now, 10);
    ClaimIsBounded(swept, order, now);
    RecordsOfBatch(claimed, order, batch, turns, now);
  }
}
