/** The notification store: jobs, delivery records, send clocks and the config revision.
    Every method is one database transaction. */
module JobStore {
  import opened Common

  datatype JobState = Pending | Sending | Sent | Failed | Unknown | Superseded

  datatype Outcome = Accepted | DeliveryFailed | DeliveryUnknown | OtherOutcome

  datatype Job = Job(
    id: nat, fingerprint: string, notification: string, platform: string, channel: string, period: string,
    state: JobState, payload: string, merged: nat, revision: nat, nextAttempt: int)

  /** The merge dimension of a job; an empty channel is stored as `-`. */
  datatype JobKey = JobKey(fingerprint: string, notification: string, channel: string, platform: string, period: string)

  datatype Delivery = Delivery(
    jobId: nat, fingerprint: string, notification: string, platform: string, period: string,
    outcome: Outcome, errorCode: string)

  datatype ClockKey = ClockKey(notification: string, scope: string, channel: string)

  datatype Store = Store(jobs: map<JobKey, Job>, deliveries: seq<Delivery>, clock: map<ClockKey, int>, revision: nat)

  function StoredChannel(channel: string): string { if channel == "" then "-" else channel }

  function KeyOf(j: Job): JobKey {
    JobKey(j.fingerprint, j.notification, StoredChannel(j.channel), j.platform, j.period)
  }

  predicate InFlight(j: Job) { j.state == Pending || j.state == Sending }

  predicate SameTarget(j: Job, fingerprint: string, notification: string, platform: string, channel: string) {
    j.fingerprint == fingerprint && j.notification == notification && j.platform == platform && j.channel == channel
  }

  /** The bucket's cursor order: every key once. */
  ghost predicate IsOrder(order: seq<JobKey>, jobs: map<JobKey, Job>) {
    (forall k :: k in order <==> k in jobs) && Distinct(order)
  }

  // --------------------------------------------------------------- transactions

  function Upsert(st: Store, j: Job): (Store, nat) {
    var key := KeyOf(j);
    if key in st.jobs && st.jobs[key].state == Pending then
      var e := st.jobs[key];
      var e' := e.(payload := j.payload, nextAttempt := j.nextAttempt, revision := j.revision, merged := e.merged + 1);
      (st.(jobs := st.jobs[key := e']), e'.merged)
    else
      (st.(jobs := st.jobs[key := j.(merged := 1, revision := st.revision)]), 1)
  }

  predicate IsDueJob(j: Job, now: int) { j.state == Pending && j.nextAttempt <= now }

  /** The first `limit` due keys in cursor order, all of them when `limit` is not positive. */
  function DueKeys(jobs: map<JobKey, Job>, order: seq<JobKey>, now: int, limit: int): seq<JobKey> {
    if order == [] then []
    else if order[0] in jobs && IsDueJob(jobs[order[0]], now) then
      [order[0]] + (if limit == 1 then [] else DueKeys(jobs, order[1..], now, if limit > 0 then limit - 1 else limit))
    else DueKeys(jobs, order[1..], now, limit)
  }

  /** The jobs under `keys` get the state `to`. */
  function MarkAll(jobs: map<JobKey, Job>, keys: seq<JobKey>, to: JobState): map<JobKey, Job> {
    map k | k in jobs :: if k in keys then jobs[k].(state := to) else jobs[k]
  }

  /** The jobs under `keys`, in that order. */
  function JobsAt(jobs: map<JobKey, Job>, keys: seq<JobKey>): seq<Job>
    requires forall k :: k in keys ==> k in jobs
  {
    if keys == [] then [] else [jobs[keys[0]]] + JobsAt(jobs, keys[1..])
  }

  lemma {:induction false} DueKeysAreDue(jobs: map<JobKey, Job>, order: seq<JobKey>, now: int, limit: int)
    ensures forall k :: k in DueKeys(jobs, order, now, limit) ==> k in order && k in jobs && IsDueJob(jobs[k], now)
    ensures limit > 0 ==> |DueKeys(jobs, order, now, limit)| <= limit
    decreases |order|
  {
    if order != [] {
      DueKeysAreDue(jobs, order[1..], now, if limit > 0 then limit - 1 else limit);
      DueKeysAreDue(jobs, order[1..], now, limit);
    }
  }

  function Claim(st: Store, order: seq<JobKey>, now: int, limit: int): (Store, seq<Job>) {
    var due := DueKeys(st.jobs, order, now, limit);
    var jobs := MarkAll(st.jobs, due, Sending);
    DueKeysAreDue(st.jobs, order, now, limit);
    (st.(jobs := jobs), JobsAt(jobs, due))
  }

  function StateFor(outcome: Outcome): Option<JobState> {
    match outcome
    case Accepted => Some(Sent)
    case DeliveryFailed => Some(Failed)
    case DeliveryUnknown => Some(Unknown)
    case OtherOutcome => None
  }

  /** The first key in cursor order whose job has the ID. */
  function FindJob(jobs: map<JobKey, Job>, order: seq<JobKey>, id: nat): Option<JobKey> {
    if order == [] then None
    else if order[0] in jobs && jobs[order[0]].id == id then Some(order[0])
    else FindJob(jobs, order[1..], id)
  }

  function RecordOf(j: Job, outcome: Outcome, errorCode: string): Delivery {
    Delivery(j.id, j.fingerprint, j.notification, j.platform, j.period, outcome, errorCode)
  }

  /** The outcome of one send; None when the job or the outcome is unknown and nothing changes. */
  function Finish(st: Store, order: seq<JobKey>, id: nat, outcome: Outcome, errorCode: string): Option<Store> {
    var key := FindJob(st.jobs, order, id);
    if key.None? || StateFor(outcome).None? || key.value !in st.jobs then None
    else
      var j := st.jobs[key.value].(state := StateFor(outcome).value);
      Some(st.(jobs := st.jobs[key.value := j], deliveries := st.deliveries + [RecordOf(j, outcome, errorCode)]))
  }

  /** The keys, in cursor order, of the jobs that satisfy `p`. */
  function KeysWhere(jobs: map<JobKey, Job>, order: seq<JobKey>, p: Job -> bool): seq<JobKey> {
    if order == [] then []
    else
      (if order[0] in jobs && p(jobs[order[0]]) then [order[0]] else []) + KeysWhere(jobs, order[1..], p)
  }

  function IsSending(): Job -> bool { (j: Job) => j.state == Sending }

  function IsStale(rev: nat): Job -> bool { (j: Job) => j.state == Pending && j.revision < rev }

  function RecoveryRecords(jobs: map<JobKey, Job>, keys: seq<JobKey>): seq<Delivery> {
    if keys == [] then []
    else
      (if keys[0] in jobs then [RecordOf(jobs[keys[0]], DeliveryUnknown, "restart_during_send")] else []) +
      RecoveryRecords(jobs, keys[1..])
  }

  function Recover(st: Store, order: seq<JobKey>): Store {
    var keys := KeysWhere(st.jobs, order, IsSending());
    st.(jobs := MarkAll(st.jobs, keys, Unknown), deliveries := st.deliveries + RecoveryRecords(st.jobs, keys))
  }

  function Supersede(st: Store, order: seq<JobKey>, rev: nat): (Store, nat) {
    var keys := KeysWhere(st.jobs, order, IsStale(rev));
    (st.(jobs := MarkAll(st.jobs, keys, Superseded)), |keys|)
  }

  ghost predicate TargetBusy(st: Store, fingerprint: string, notification: string, platform: string, channel: string) {
    exists k :: k in st.jobs && InFlight(st.jobs[k]) &&
      SameTarget(st.jobs[k], fingerprint, notification, platform, channel)
  }

  function ClockKeyOf(notification: string, scope: string, channel: string): ClockKey {
    ClockKey(notification, scope, StoredChannel(channel))
  }

  /** The send time a store holds for a dimension. */
  function ReadClock(st: Store, key: ClockKey): Option<int> { if key in st.clock then Some(st.clock[key]) else None }

  function SetClock(st: Store, key: ClockKey, t: int): Store {
    st.(clock := st.clock[key := Truncate(t)])
  }

  // ------------------------------------------------------------------ the store

  /** Marking `keys + [k]` is marking `keys` and then `k`. */
  lemma MarkOneMore(jobs: map<JobKey, Job>, keys: seq<JobKey>, k: JobKey, to: JobState)
    requires k in jobs && k !in keys
    ensures MarkAll(jobs, keys, to)[k := MarkAll(jobs, keys, to)[k].(state := to)] == MarkAll(jobs, keys + [k], to)
  {}

  lemma {:induction false} DueKeysDistinct(jobs: map<JobKey, Job>, order: seq<JobKey>, now: int, limit: int)
    requires Distinct(order)
    ensures Distinct(DueKeys(jobs, order, now, limit))
    decreases |order|
  {
    if order != [] {
      var rest := if limit > 0 then limit - 1 else limit;
      DueKeysDistinct(jobs, order[1..], now, rest);
      DueKeysDistinct(jobs, order[1..], now, limit);
      DueKeysAreDue(jobs, order[1..], now, rest);
      assert order[0] !in order[1..];
    }
  }

  lemma {:induction false} KeysWhereHold(jobs: map<JobKey, Job>, order: seq<JobKey>, p: Job -> bool)
    requires Distinct(order)
    ensures Distinct(KeysWhere(jobs, order, p))
    ensures forall k :: k in KeysWhere(jobs, order, p) <==> k in order && k in jobs && p(jobs[k])
    decreases |order|
  {
    if order != [] {
      KeysWhereHold(jobs, order[1..], p);
      assert order[0] !in order[1..];
      assert order == [order[0]] + order[1..];
    }
  }

  lemma RecoveryStep(jobs: map<JobKey, Job>, keys: seq<JobKey>, sent: seq<Delivery>, all: seq<Delivery>)
    requires keys != [] && keys[0] in jobs && all == sent + RecoveryRecords(jobs, keys)
    ensures all == sent + [RecordOf(jobs[keys[0]], DeliveryUnknown, "restart_during_send")] +
                   RecoveryRecords(jobs, keys[1..])
  {
    var first := RecordOf(jobs[keys[0]], DeliveryUnknown, "restart_during_send");
    Associative(sent, [first], RecoveryRecords(jobs, keys[1..]));
  }

  lemma DueStep(jobs: map<JobKey, Job>, order: seq<JobKey>, now: int, limit: int, due: seq<JobKey>, all: seq<JobKey>)
    requires order != [] && order[0] in jobs && all == due + DueKeys(jobs, order, now, limit)
    ensures !IsDueJob(jobs[order[0]], now) ==> all == due + DueKeys(jobs, order[1..], now, limit)
    ensures IsDueJob(jobs[order[0]], now) && limit == 1 ==> all == due + [order[0]]
    ensures IsDueJob(jobs[order[0]], now) && limit != 1 ==>
              all == due + [order[0]] + DueKeys(jobs, order[1..], now, if limit > 0 then limit - 1 else limit)
  {
    Associative(due, [order[0]], DueKeys(jobs, order[1..], now, if limit > 0 then limit - 1 else limit));
    var none: seq<JobKey> := [];
    assert [order[0]] + none == [order[0]];
  }

  lemma {:induction false} JobsAtIs(jobs: map<JobKey, Job>, keys: seq<JobKey>, listed: seq<Job>)
    requires |listed| == |keys| && forall a :: 0 <= a < |keys| ==> keys[a] in jobs && listed[a] == jobs[keys[a]]
    ensures forall k :: k in keys ==> k in jobs
    ensures JobsAt(jobs, keys) == listed
  {
    if keys != [] {
      JobsAtIs(jobs, keys[1..], listed[1..]);
    }
  }

  class NotificationStore {
    var jobs: map<JobKey, Job>
    var deliveries: seq<Delivery>
    var clock: map<ClockKey, int>
    var revision: nat

    function State(): Store
      reads this
    {
      Store(jobs, deliveries, clock, revision)
    }

    constructor ()
      ensures State() == Store(map[], [], map[], 0)
    {
      jobs := map[];
      deliveries := [];
      clock := map[];
      revision := 0;
    }

    method BumpRevision() returns (rev: nat)
      modifies `revision
      ensures rev == revision == old(revision) + 1
    {
      revision := revision + 1;
      rev := revision;
    }

    method Clock(notification: string, scope: string, channel: string) returns (t: Option<int>)
      ensures t == ReadClock(State(), ClockKeyOf(notification, scope, channel))
    {
      var key := ClockKeyOf(notification, scope, channel);
      t := if key in clock then Some(clock[key]) else None;
    }

    method StoreClock(notification: string, scope: string, channel: string, t: int)
      modifies `clock
      ensures State() == SetClock(old(State()), ClockKeyOf(notification, scope, channel), t)
    {
      clock := clock[ClockKeyOf(notification, scope, channel) := t - t % SECOND];
    }

    method UpsertJob(j: Job) returns (merged: nat)
      modifies `jobs
      ensures (State(), merged) == Upsert(old(State()), j)
    {
      var key := KeyOf(j);
      if key in jobs {
        var existing := jobs[key];
        if existing.state == Pending {
          existing := existing.(payload := j.payload, nextAttempt := j.nextAttempt, revision := j.revision);
          existing := existing.(merged := existing.merged + 1);
          jobs := jobs[key := existing];
          return existing.merged;
        }
      }
      jobs := jobs[key := j.(merged := 1, revision := revision)];
      merged := 1;
    }

    method ClaimDueJobs(order: seq<JobKey>, now: int, limit: int) returns (claimed: seq<Job>)
      requires IsOrder(order, jobs)
      modifies `jobs
      ensures (State(), claimed) == Claim(old(State()), order, now, limit)
    {
      var due := CollectDue(order, now, limit);
      DueKeysAreDue(jobs, order, now, limit);
      DueKeysDistinct(jobs, order, now, limit);
      claimed := MarkJobs(due, Sending);
    }

    /** The write loop shared by the claim and the revision guard. */
    method MarkJobs(keys: seq<JobKey>, to: JobState) returns (marked: seq<Job>)
      requires Distinct(keys) && forall k :: k in keys ==> k in jobs
      modifies `jobs
      ensures jobs == MarkAll(old(jobs), keys, to) && forall k :: k in keys ==> k in jobs
      ensures marked == JobsAt(jobs, keys)
    {
      ghost var before := jobs;
      marked := [];
      assert keys[..0] == [];
      assert jobs == MarkAll(before, [], to);
      for i := 0 to |keys|
        invariant jobs == MarkAll(before, keys[..i], to)
        invariant |marked| == i && forall a :: 0 <= a < i ==> marked[a] == before[keys[a]].(state := to)
      {
        var key := keys[i];
        assert key in keys && key !in keys[..i];
        MarkOneMore(before, keys[..i], key, to);
        assert keys[..i + 1] == keys[..i] + [key];
        var j := jobs[key].(state := to);
        jobs := jobs[key := j];
        marked := marked + [j];
      }
      assert keys[..|keys|] == keys;
      JobsAtIs(jobs, keys, marked);
    }

    method CollectDue(order: seq<JobKey>, now: int, limit: int) returns (due: seq<JobKey>)
      requires IsOrder(order, jobs)
      ensures due == DueKeys(jobs, order, now, limit)
    {
      due := [];
      assert order[0..] == order;
      ghost var all := DueKeys(jobs, order, now, limit);
      for i := 0 to |order|
        invariant limit > 0 ==> |due| < limit
        invariant all == due + DueKeys(jobs, order[i..], now, if limit > 0 then limit - |due| else limit)
      {
        assert order[i] in order && order[i..][1..] == order[i + 1..];
        DueStep(jobs, order[i..], now, if limit > 0 then limit - |due| else limit, due, all);
        if !IsDueJob(jobs[order[i]], now) {
          continue;
        }
        due := due + [order[i]];
        if limit > 0 && |due| >= limit {
          return;
        }
      }
    }

    method FinishJob(order: seq<JobKey>, id: nat, outcome: Outcome, errorCode: string) returns (ok: bool)
      requires IsOrder(order, jobs)
      modifies `jobs, `deliveries
      ensures ok <==> Finish(old(State()), order, id, outcome, errorCode).Some?
      ensures State() == if ok then Finish(old(State()), order, id, outcome, errorCode).value else old(State())
    {
      var found: Option<JobKey> := None;
      var i := 0;
      assert order[0..] == order;
      while i < |order| && found.None?
        invariant 0 <= i <= |order|
        invariant FindJob(jobs, order, id) == if found.Some? then found else FindJob(jobs, order[i..], id)
        invariant found.Some? ==> found.value in jobs
      {
        assert order[i] in order && order[i..][1..] == order[i + 1..];
        if jobs[order[i]].id == id {
          found := Some(order[i]);
        }
        i := i + 1;
      }
      if found.None? || StateFor(outcome).None? {
        return false;
      }
      var j := jobs[found.value].(state := StateFor(outcome).value);
      jobs := jobs[found.value := j];
      deliveries := deliveries + [RecordOf(j, outcome, errorCode)];
      ok := true;
    }

    /** The read loop that collects the keys to change. */
    method CollectWhere(order: seq<JobKey>, p: Job -> bool) returns (keys: seq<JobKey>)
      requires IsOrder(order, jobs)
      ensures keys == KeysWhere(jobs, order, p)
    {
      keys := [];
      assert order[0..] == order;
      ghost var all := KeysWhere(jobs, order, p);
      for i := 0 to |order|
        invariant all == keys + KeysWhere(jobs, order[i..], p)
      {
        assert order[i] in order && order[i..][1..] == order[i + 1..];
        if p(jobs[order[i]]) {
          keys := keys + [order[i]];
        }
      }
    }

    method RecoverOnBoot(order: seq<JobKey>)
      requires IsOrder(order, jobs)
      modifies `jobs, `deliveries
      ensures State() == Recover(old(State()), order)
    {
      var keys := CollectWhere(order, IsSending());
      KeysWhereHold(jobs, order, IsSending());
      WriteRecovered(keys);
    }

    method WriteRecovered(keys: seq<JobKey>)
      requires Distinct(keys) && forall k :: k in keys ==> k in jobs
      modifies `jobs, `deliveries
      ensures jobs == MarkAll(old(jobs), keys, Unknown)
      ensures deliveries == old(deliveries) + RecoveryRecords(old(jobs), keys)
    {
      ghost var before, sent := jobs, deliveries;
      ghost var all := sent + RecoveryRecords(before, keys);
      assert keys[..0] == [] && keys[0..] == keys;
      assert jobs == MarkAll(before, [], Unknown);
      for i := 0 to |keys|
        invariant jobs == MarkAll(before, keys[..i], Unknown)
        invariant all == deliveries + RecoveryRecords(before, keys[i..])
      {
        var key := keys[i];
        assert key in keys && key !in keys[..i];
        MarkOneMore(before, keys[..i], key, Unknown);
        assert keys[..i + 1] == keys[..i] + [key] && keys[i..][1..] == keys[i + 1..];
        var j := jobs[key];
        assert j == before[key];
        RecoveryStep(before, keys[i..], deliveries, all);
        jobs := jobs[key := j.(state := Unknown)];
        deliveries := deliveries + [RecordOf(j, DeliveryUnknown, "restart_during_send")];
      }
      assert keys[..|keys|] == keys;
    }

    method SupersedeStaleJobs(order: seq<JobKey>, rev: nat) returns (superseded: nat)
      requires IsOrder(order, jobs)
      modifies `jobs
      ensures (State(), superseded) == Supersede(old(State()), order, rev)
    {
      var keys := CollectWhere(order, IsStale(rev));
      KeysWhereHold(jobs, order, IsStale(rev));
      var marked := MarkJobs(keys, Superseded);
      superseded := |keys|;
    }

    method PendingJobExists(order: seq<JobKey>, fingerprint: string, notification: string, platform: string,
        channel: string)
      returns (busy: bool)
      requires IsOrder(order, jobs)
      ensures busy <==> TargetBusy(State(), fingerprint, notification, platform, channel)
    {
      for i := 0 to |order|
        invariant forall a :: 0 <= a < i ==>
          !(InFlight(jobs[order[a]]) && SameTarget(jobs[order[a]], fingerprint, notification, platform, channel))
      {
        var j := jobs[order[i]];
        if j.state != Pending && j.state != Sending {
          continue;
        }
        if SameTarget(j, fingerprint, notification, platform, channel) {
          return true;
        }
      }
      return false;
    }
  }
}
