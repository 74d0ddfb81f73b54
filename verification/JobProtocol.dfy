/** The life of notification jobs over any interleaving of enqueues, send passes, crashes and boots. */
module JobProtocol {
  import opened Common
  import opened JobStore

  const GLOBAL: string := "global"

  /** Jobs of global notifications name a channel, jobs of a key binding do not. */
  predicate WellFormed(j: Job) { j.fingerprint == GLOBAL <==> j.channel != "" }

  /** Where the send loop stands; `rev` is the revision its pass read at the start. */
  datatype Phase = Down | Idle | Read(rev: nat) | Swept(rev: nat) | Delivering(rev: nat)

  /** The store, the send pass in memory, and what has happened so far: IDs used, claimed and ended. */
  datatype System = System(
    store: Store, phase: Phase, batch: seq<Job>, retry: Option<Job>,
    used: set<nat>, claimed: set<nat>, ended: set<nat>)

  datatype Step =
    | Enqueue(job: Job)                     // pendingJobExists and UpsertJob taken together
    | ReadRevision
    | Sweep(order: seq<JobKey>)             // supersededStaleJobs
    | ClaimBatch(order: seq<JobKey>, now: int, limit: int)
    | Deliver(order: seq<JobKey>, outcome: Outcome, errorCode: string, retryAfter: bool)
    | Requeue(id: nat, next: int)           // requeueForRetry
    | EndPass
    | StoreClock(key: ClockKey, t: int)     // SetClock
    | Bump                                  // BumpRevision
    | Crash                                 // the process stops, or a cancelled pass returns
    | Boot(order: seq<JobKey>)              // RecoverOnBoot

  function Start(revision: nat): System {
    System(Store(map[], [], map[], revision), Down, [], None, {}, {}, {})
  }

  /** The job requeueForRetry builds: a new ID, the old target and payload, and no revision. */
  function RetryJob(j: Job, id: nat, next: int): Job {
    j.(id := id, state := Pending, merged := 0, revision := 0, nextAttempt := next)
  }

  ghost predicate Enabled(s: System, step: Step) {
    match step
    case Enqueue(j) => j.state == Pending && j.id !in s.used && WellFormed(j)
    case ReadRevision => s.phase == Idle
    case Sweep(order) => s.phase.Read? && IsOrder(order, s.store.jobs)
    case ClaimBatch(order, _, _) => s.phase.Swept? && IsOrder(order, s.store.jobs)
    case Deliver(order, outcome, _, _) =>
      s.phase.Delivering? && s.batch != [] && s.retry.None? && IsOrder(order, s.store.jobs) && outcome != OtherOutcome
    case Requeue(id, _) => s.phase.Delivering? && s.retry.Some? && id !in s.used
    case EndPass => s.phase.Delivering? && s.batch == [] && s.retry.None?
    case StoreClock(_, _) => s.phase != Down
    case Bump => true
    case Crash => s.phase != Down
    case Boot(order) => s.phase == Down && IsOrder(order, s.store.jobs)
  }

  function IdsOf(jobs: seq<Job>): set<nat> { set j | j in jobs :: j.id }

  function TerminalIds(jobs: map<JobKey, Job>): set<nat> {
    set k | k in jobs && !InFlight(jobs[k]) :: jobs[k].id
  }

  ghost function Effect(s: System, step: Step): System
    requires Enabled(s, step)
  {
    match step
    case Enqueue(j) =>
      if TargetBusy(s.store, j.fingerprint, j.notification, j.platform, j.channel) then s
      else s.(store := Upsert(s.store, j).0, used := s.used + {j.id})
    case ReadRevision => s.(phase := Read(s.store.revision))
    case Sweep(order) => s.(store := Supersede(s.store, order, s.phase.rev).0, phase := Swept(s.phase.rev))
    case ClaimBatch(order, now, limit) =>
      var (store, batch) := Claim(s.store, order, now, limit);
      s.(store := store, batch := batch, phase := Delivering(s.phase.rev), claimed := s.claimed + IdsOf(batch))
    case Deliver(order, outcome, errorCode, retryAfter) =>
      var j := s.batch[0];
      var store := Finish(s.store, order, j.id, outcome, errorCode);
      var retry := if store.Some? && outcome == DeliveryFailed && retryAfter then Some(j) else None;
      s.(store := if store.Some? then store.value else s.store, batch := s.batch[1..], retry := retry)
    case Requeue(id, next) =>
      s.(store := Upsert(s.store, RetryJob(s.retry.value, id, next)).0, retry := None, used := s.used + {id})
    case EndPass => s.(phase := Idle)
    case StoreClock(key, t) => s.(store := SetClock(s.store, key, t))
    case Bump => s.(store := s.store.(revision := s.store.revision + 1))
    case Crash => s.(phase := Down, batch := [], retry := None)
    case Boot(order) => s.(store := Recover(s.store, order), phase := Idle)
  }

  /** One step, with the IDs that are terminal afterwards noted. */
  ghost function Next(s: System, step: Step): System
    requires Enabled(s, step)
  {
    var t := Effect(s, step);
    t.(ended := t.ended + TerminalIds(t.store.jobs))
  }

  ghost predicate ValidRun(s: System, steps: seq<Step>)
    decreases |steps|
  {
    steps == [] || (Enabled(s, steps[0]) && ValidRun(Next(s, steps[0]), steps[1..]))
  }

  ghost function Run(s: System, steps: seq<Step>): System
    requires ValidRun(s, steps)
    decreases |steps|
  {
    if steps == [] then s else Run(Next(s, steps[0]), steps[1..])
  }

  // ------------------------------------------------------------------ invariants

  /** How many delivery records a job has. */
  function Count(ds: seq<Delivery>, id: nat): nat {
    if ds == [] then 0 else (if ds[0].jobId == id then 1 else 0) + Count(ds[1..], id)
  }

  ghost predicate IsSendingId(jobs: map<JobKey, Job>, id: nat) {
    exists k :: k in jobs && jobs[k].state == Sending && jobs[k].id == id
  }

  ghost predicate KeysMatch(jobs: map<JobKey, Job>) {
    forall k :: k in jobs ==> KeyOf(jobs[k]) == k && WellFormed(jobs[k])
  }

  ghost predicate UniqueIds(jobs: map<JobKey, Job>) {
    forall k, l :: k in jobs && l in jobs && jobs[k].id == jobs[l].id ==> k == l
  }

  /** Pending jobs were never claimed or ended; sending jobs were claimed and have not ended. */
  ghost predicate Tracked(s: System) {
    && s.claimed <= s.used && s.ended <= s.used
    && forall k :: k in s.store.jobs ==>
         var j := s.store.jobs[k];
         j.id in s.used &&
         (j.state == Pending ==> j.id !in s.claimed && j.id !in s.ended) &&
         (j.state == Sending ==> j.id in s.claimed && j.id !in s.ended)
  }

  ghost predicate EndedNoted(s: System) { TerminalIds(s.store.jobs) <= s.ended }

  /** A claimed job has one record unless it is still being sent; no other job has any. */
  ghost predicate Recorded(s: System) {
    forall id :: Count(s.store.deliveries, id) == if id in s.claimed && !IsSendingId(s.store.jobs, id) then 1 else 0
  }

  ghost predicate BatchHeld(s: System) {
    && (!s.phase.Delivering? ==> s.batch == [] && s.retry.None?)
    && (forall a, b :: 0 <= a < b < |s.batch| ==> s.batch[a].id != s.batch[b].id)
    && (forall j :: j in s.batch ==> KeyOf(j) in s.store.jobs && s.store.jobs[KeyOf(j)] == j && j.state == Sending)
    && (s.phase != Down ==>
          forall k :: k in s.store.jobs && s.store.jobs[k].state == Sending ==> s.store.jobs[k] in s.batch)
    && (s.retry.Some? ==> WellFormed(s.retry.value) && RetryKeyFree(s))
  }

  ghost predicate RetryKeyFree(s: System)
    requires s.retry.Some?
  {
    var k := KeyOf(s.retry.value); k in s.store.jobs ==> s.store.jobs[k].state != Sending
  }

  ghost predicate Inv(s: System) {
    KeysMatch(s.store.jobs) && UniqueIds(s.store.jobs) && Tracked(s) && Recorded(s) && BatchHeld(s)
  }

  /** Noting the terminal IDs keeps the invariant. */
  lemma NoteEnded(s: System)
    requires Inv(s)
    ensures Inv(s.(ended := s.ended + TerminalIds(s.store.jobs)))
  {
    var t := s.(ended := s.ended + TerminalIds(s.store.jobs));
    forall k | k in s.store.jobs && InFlight(s.store.jobs[k])
      ensures s.store.jobs[k].id !in TerminalIds(s.store.jobs)
    {
      assert forall l :: l in s.store.jobs && s.store.jobs[l].id == s.store.jobs[k].id ==> l == k;
    }
    forall id | id in TerminalIds(s.store.jobs) ensures id in s.used {
      var l :| l in s.store.jobs && !InFlight(s.store.jobs[l]) && s.store.jobs[l].id == id;
    }
    assert Tracked(t);
    assert Recorded(t) && BatchHeld(t);
  }

  lemma {:induction false} CountAppend(a: seq<Delivery>, b: seq<Delivery>, id: nat)
    ensures Count(a + b, id) == Count(a, id) + Count(b, id)
  {
    if a == [] {
      assert a + b == b;
    } else {
      CountAppend(a[1..], b, id);
      assert (a + b)[1..] == a[1..] + b;
    }
  }

  // ------------------------------------------------------- changes of the job table

  /** The jobs keep everything but their state. */
  ghost predicate Restated(jobs: map<JobKey, Job>, jobs': map<JobKey, Job>) {
    && jobs'.Keys == jobs.Keys
    && forall k :: k in jobs ==> jobs'[k] == jobs[k].(state := jobs'[k].state)
  }

  lemma RestatedKeeps(jobs: map<JobKey, Job>, jobs': map<JobKey, Job>)
    requires KeysMatch(jobs) && UniqueIds(jobs) && Restated(jobs, jobs')
    ensures KeysMatch(jobs') && UniqueIds(jobs')
  {
    forall k | k in jobs' ensures KeyOf(jobs'[k]) == k && WellFormed(jobs'[k]) {
      assert KeyOf(jobs[k]) == k;
    }
    forall k, l | k in jobs' && l in jobs' && jobs'[k].id == jobs'[l].id ensures k == l {
      assert jobs[k].id == jobs[l].id;
    }
  }

  /** Jobs that only leave the pending and sending states stay tracked. */
  lemma RestatedTracked(s: System, t: System)
    requires Tracked(s) && Restated(s.store.jobs, t.store.jobs)
    requires t.used == s.used && t.claimed == s.claimed && t.ended == s.ended
    requires forall k :: k in t.store.jobs && InFlight(t.store.jobs[k]) ==>
               t.store.jobs[k].state == s.store.jobs[k].state
    ensures Tracked(t)
  {
    forall k | k in t.store.jobs ensures t.store.jobs[k].id == s.store.jobs[k].id {}
  }

  lemma MarkedIsRestated(jobs: map<JobKey, Job>, keys: seq<JobKey>, to: JobState)
    ensures Restated(jobs, MarkAll(jobs, keys, to))
  {}

  /** A job table with one entry written, under a key that is not being sent before or after. */
  ghost predicate Written(jobs: map<JobKey, Job>, jobs': map<JobKey, Job>, e: Job) {
    && jobs' == jobs[KeyOf(e) := e] && WellFormed(e) && e.state == Pending
    && (KeyOf(e) in jobs ==> jobs[KeyOf(e)].state != Sending)
    && ((KeyOf(e) in jobs && jobs[KeyOf(e)].id == e.id) || forall k :: k in jobs ==> jobs[k].id != e.id)
  }

  lemma WrittenKeeps(jobs: map<JobKey, Job>, jobs': map<JobKey, Job>, e: Job)
    requires KeysMatch(jobs) && UniqueIds(jobs) && Written(jobs, jobs', e)
    ensures KeysMatch(jobs') && UniqueIds(jobs')
    ensures forall id :: IsSendingId(jobs', id) <==> IsSendingId(jobs, id)
  {
    forall id ensures IsSendingId(jobs', id) <==> IsSendingId(jobs, id) {
      if k :| k in jobs && jobs[k].state == Sending && jobs[k].id == id {
        assert jobs'[k] == jobs[k];
      }
    }
  }

  // ------------------------------------------------- what each step keeps

  /** Upsert of a pending job with an unused ID under a key that is not being sent. */
  lemma UpsertKeeps(s: System, j: Job, retry: Option<Job>)
    requires Inv(s) && WellFormed(j) && j.state == Pending && j.id !in s.used
    requires KeyOf(j) in s.store.jobs ==> s.store.jobs[KeyOf(j)].state != Sending
    requires retry.None? || retry == s.retry
    ensures Inv(s.(store := Upsert(s.store, j).0, retry := retry, used := s.used + {j.id}))
  {
    var t := s.(store := Upsert(s.store, j).0, retry := retry, used := s.used + {j.id});
    var key := KeyOf(j);
    var e := t.store.jobs[key];
    assert Written(s.store.jobs, t.store.jobs, e);
    WrittenKeeps(s.store.jobs, t.store.jobs, e);
    UpsertTracked(s, j, t);
    assert Recorded(t);
    UpsertBatch(s, j, t);
  }

  lemma UpsertTracked(s: System, j: Job, t: System)
    requires Tracked(s) && j.state == Pending && j.id !in s.used
    requires t.store == Upsert(s.store, j).0 && t.used == s.used + {j.id}
    requires t.claimed == s.claimed && t.ended == s.ended
    ensures Tracked(t)
  {}

  lemma UpsertBatch(s: System, j: Job, t: System)
    requires BatchHeld(s) && j.state == Pending
    requires KeyOf(j) in s.store.jobs ==> s.store.jobs[KeyOf(j)].state != Sending
    requires t.store == Upsert(s.store, j).0 && t.batch == s.batch && t.phase == s.phase
    requires t.retry.None? || t.retry == s.retry
    ensures BatchHeld(t)
  {}

  /** A target that is not busy has no job in flight under its key. */
  lemma FreeTargetKey(jobs: map<JobKey, Job>, j: Job)
    requires KeysMatch(jobs) && WellFormed(j) && KeyOf(j) in jobs && InFlight(jobs[KeyOf(j)])
    ensures SameTarget(jobs[KeyOf(j)], j.fingerprint, j.notification, j.platform, j.channel)
  {
    var e := jobs[KeyOf(j)];
    assert KeyOf(e) == KeyOf(j) && WellFormed(e);
  }

  lemma EnqueueKeeps(s: System, j: Job)
    requires Inv(s) && Enabled(s, Enqueue(j))
    ensures Inv(Effect(s, Enqueue(j)))
  {
    if !TargetBusy(s.store, j.fingerprint, j.notification, j.platform, j.channel) {
      if KeyOf(j) in s.store.jobs && InFlight(s.store.jobs[KeyOf(j)]) {
        FreeTargetKey(s.store.jobs, j);
      }
      UpsertKeeps(s, j, s.retry);
    }
  }

  lemma RequeueKeeps(s: System, id: nat, next: int)
    requires Inv(s) && Enabled(s, Requeue(id, next))
    ensures Inv(Effect(s, Requeue(id, next)))
  {
    assert KeyOf(RetryJob(s.retry.value, id, next)) == KeyOf(s.retry.value);
    UpsertKeeps(s, RetryJob(s.retry.value, id, next), None);
  }

  lemma SweepKeeps(s: System, order: seq<JobKey>)
    requires Inv(s) && Enabled(s, Sweep(order))
    ensures Inv(Effect(s, Sweep(order)))
  {
    var t := Effect(s, Sweep(order));
    var keys := KeysWhere(s.store.jobs, order, IsStale(s.phase.rev));
    KeysWhereHold(s.store.jobs, order, IsStale(s.phase.rev));
    MarkedIsRestated(s.store.jobs, keys, Superseded);
    RestatedKeeps(s.store.jobs, t.store.jobs);
    assert forall k :: k in s.store.jobs && s.store.jobs[k].state == Sending ==> t.store.jobs[k] == s.store.jobs[k];
    SameSending(s.store.jobs, t.store.jobs);
    RestatedTracked(s, t);
    assert Recorded(t);
  }

  lemma SameSending(jobs: map<JobKey, Job>, jobs': map<JobKey, Job>)
    requires Restated(jobs, jobs')
    requires forall k :: k in jobs ==> (jobs[k].state == Sending <==> jobs'[k].state == Sending)
    ensures forall id :: IsSendingId(jobs', id) <==> IsSendingId(jobs, id)
  {
    forall id ensures IsSendingId(jobs', id) <==> IsSendingId(jobs, id) {
      if k :| k in jobs && jobs[k].state == Sending && jobs[k].id == id {
        assert jobs'[k].id == id;
      }
    }
  }

  /** The jobs at distinct keys, by index. */
  lemma {:induction false} JobsAtIndex(jobs: map<JobKey, Job>, keys: seq<JobKey>)
    requires forall k :: k in keys ==> k in jobs
    ensures |JobsAt(jobs, keys)| == |keys|
    ensures forall i :: 0 <= i < |keys| ==> JobsAt(jobs, keys)[i] == jobs[keys[i]]
  {
    if keys != [] {
      JobsAtIndex(jobs, keys[1..]);
    }
  }

  lemma ClaimFacts(s: System, order: seq<JobKey>, now: int, limit: int) returns (due: seq<JobKey>)
    requires Inv(s) && Enabled(s, ClaimBatch(order, now, limit))
    ensures var t := Effect(s, ClaimBatch(order, now, limit));
            && Distinct(due) && t.store.jobs == MarkAll(s.store.jobs, due, Sending)
            && (forall k :: k in due ==> k in s.store.jobs && s.store.jobs[k].state == Pending)
            && |t.batch| == |due| && (forall i :: 0 <= i < |due| ==> t.batch[i] == t.store.jobs[due[i]])
            && Restated(s.store.jobs, t.store.jobs) && KeysMatch(t.store.jobs) && UniqueIds(t.store.jobs)
    ensures forall k :: k in s.store.jobs ==> s.store.jobs[k].state != Sending
  {
    due := DueKeys(s.store.jobs, order, now, limit);
    DueKeysAreDue(s.store.jobs, order, now, limit);
    DueKeysDistinct(s.store.jobs, order, now, limit);
    MarkedIsRestated(s.store.jobs, due, Sending);
    var jobs := MarkAll(s.store.jobs, due, Sending);
    JobsAtIndex(jobs, due);
    RestatedKeeps(s.store.jobs, jobs);
  }

  lemma ClaimKeeps(s: System, order: seq<JobKey>, now: int, limit: int)
    requires Inv(s) && Enabled(s, ClaimBatch(order, now, limit))
    ensures Inv(Effect(s, ClaimBatch(order, now, limit)))
  {
    var t := Effect(s, ClaimBatch(order, now, limit));
    var due := ClaimFacts(s, order, now, limit);
    ClaimIds(t, due);
    ClaimTracked(s, t, due);
    ClaimRecorded(s, t, due);
    ClaimBatchHeld(t, due);
  }

  /** The IDs of the batch are those of the jobs at the due keys. */
  lemma ClaimIds(t: System, due: seq<JobKey>)
    requires |t.batch| == |due|
    requires forall i :: 0 <= i < |due| ==> due[i] in t.store.jobs && t.batch[i] == t.store.jobs[due[i]]
    ensures forall k :: k in due ==>
              k in t.store.jobs && t.store.jobs[k] in t.batch && t.store.jobs[k].id in IdsOf(t.batch)
    ensures forall id :: id in IdsOf(t.batch) ==> exists k :: k in due && t.store.jobs[k].id == id
  {
    forall k | k in due
      ensures k in t.store.jobs && t.store.jobs[k] in t.batch && t.store.jobs[k].id in IdsOf(t.batch)
    {
      var i :| 0 <= i < |due| && due[i] == k;
      assert t.batch[i] == t.store.jobs[k];
    }
    forall id | id in IdsOf(t.batch)
      ensures exists k :: k in due && t.store.jobs[k].id == id
    {
      var j :| j in t.batch && j.id == id;
      var i :| 0 <= i < |t.batch| && t.batch[i] == j;
      assert due[i] in due;
    }
  }

  lemma ClaimTracked(s: System, t: System, due: seq<JobKey>)
    requires Tracked(s) && UniqueIds(s.store.jobs) && UniqueIds(t.store.jobs) && Restated(s.store.jobs, t.store.jobs)
    requires forall k :: k in due ==> k in s.store.jobs && s.store.jobs[k].state == Pending
    requires t.store.jobs == MarkAll(s.store.jobs, due, Sending)
    requires t.used == s.used && t.ended == s.ended && t.claimed == s.claimed + IdsOf(t.batch)
    requires forall k :: k in due ==> t.store.jobs[k].id in IdsOf(t.batch)
    requires forall id :: id in IdsOf(t.batch) ==> exists k :: k in due && t.store.jobs[k].id == id
    ensures Tracked(t)
  {
    forall id | id in IdsOf(t.batch) ensures id in t.used {
      var k :| k in due && t.store.jobs[k].id == id;
      assert s.store.jobs[k].id == id;
    }
    forall k | k in t.store.jobs && t.store.jobs[k].state == Pending ensures t.store.jobs[k].id !in IdsOf(t.batch) {
      assert forall l :: l in due && t.store.jobs[l].id == t.store.jobs[k].id ==> l == k;
    }
  }

  lemma ClaimRecorded(s: System, t: System, due: seq<JobKey>)
    requires Recorded(s) && Tracked(s) && Restated(s.store.jobs, t.store.jobs)
    requires forall k :: k in due ==> k in s.store.jobs && s.store.jobs[k].state == Pending
    requires forall k :: k in s.store.jobs ==> s.store.jobs[k].state != Sending
    requires t.store.jobs == MarkAll(s.store.jobs, due, Sending) && t.store.deliveries == s.store.deliveries
    requires t.claimed == s.claimed + IdsOf(t.batch)
    requires forall k :: k in due ==> t.store.jobs[k].id in IdsOf(t.batch)
    requires forall id :: id in IdsOf(t.batch) ==> exists k :: k in due && t.store.jobs[k].id == id
    ensures Recorded(t)
  {
    forall id
      ensures Count(t.store.deliveries, id) == if id in t.claimed && !IsSendingId(t.store.jobs, id) then 1 else 0
    {
      if id in IdsOf(t.batch) {
        var k :| k in due && t.store.jobs[k].id == id;
        assert s.store.jobs[k].id == id && t.store.jobs[k].state == Sending;
        assert IsSendingId(t.store.jobs, id) && !IsSendingId(s.store.jobs, id);
      } else {
        assert forall k :: k in t.store.jobs && t.store.jobs[k].state == Sending ==> k in due;
        assert !IsSendingId(s.store.jobs, id) && !IsSendingId(t.store.jobs, id);
      }
    }
  }

  lemma ClaimBatchHeld(t: System, due: seq<JobKey>)
    requires KeysMatch(t.store.jobs) && UniqueIds(t.store.jobs) && Distinct(due)
    requires t.phase.Delivering? && t.retry.None? && |t.batch| == |due|
    requires forall k :: k in due ==> k in t.store.jobs && t.store.jobs[k] in t.batch
    requires forall k :: k in t.store.jobs ==> (t.store.jobs[k].state == Sending <==> k in due)
    requires forall i :: 0 <= i < |due| ==> due[i] in t.store.jobs && t.batch[i] == t.store.jobs[due[i]]
    ensures BatchHeld(t)
  {
    forall j | j in t.batch ensures KeyOf(j) in t.store.jobs && t.store.jobs[KeyOf(j)] == j && j.state == Sending {
      var i :| 0 <= i < |t.batch| && t.batch[i] == j;
      assert due[i] in due;
    }
  }

  /** The job under a key is found by its ID. */
  lemma {:induction false} FindById(jobs: map<JobKey, Job>, order: seq<JobKey>, key: JobKey)
    requires UniqueIds(jobs) && key in jobs && key in order
    ensures FindJob(jobs, order, jobs[key].id) == Some(key)
  {
    if !(order[0] in jobs && jobs[order[0]].id == jobs[key].id) {
      FindById(jobs, order[1..], key);
    }
  }

  lemma DeliverFacts(s: System, step: Step)
    requires Inv(s) && step.Deliver? && Enabled(s, step)
    ensures var t := Effect(s, step); var j := s.batch[0]; var key := KeyOf(j);
            && key in s.store.jobs && s.store.jobs[key] == j
            && t.store.jobs == s.store.jobs[key := j.(state := StateFor(step.outcome).value)]
            && (exists d: Delivery :: d.jobId == j.id && t.store.deliveries == s.store.deliveries + [d])
            && Restated(s.store.jobs, t.store.jobs)
  {
    var j := s.batch[0];
    assert j in s.batch;
    FindById(s.store.jobs, step.order, KeyOf(j));
    var d := RecordOf(j.(state := StateFor(step.outcome).value), step.outcome, step.errorCode);
    assert d.jobId == j.id;
    assert Effect(s, step).store.deliveries == s.store.deliveries + [d];
  }

  lemma DeliverKeeps(s: System, step: Step)
    requires Inv(s) && step.Deliver? && Enabled(s, step)
    ensures Inv(Effect(s, step))
  {
    var t, j := Effect(s, step), s.batch[0];
    DeliverFacts(s, step);
    RestatedKeeps(s.store.jobs, t.store.jobs);
    RestatedTracked(s, t);
    DeliverRecorded(s, t, j);
    DeliverBatch(s, t);
  }

  lemma DeliverRecorded(s: System, t: System, j: Job)
    requires Recorded(s) && Tracked(s) && UniqueIds(s.store.jobs)
    requires KeyOf(j) in s.store.jobs && s.store.jobs[KeyOf(j)] == j && j.state == Sending
    requires t.store.jobs.Keys == s.store.jobs.Keys && t.claimed == s.claimed
    requires t.store.jobs[KeyOf(j)].state != Sending
    requires forall k :: k in s.store.jobs && k != KeyOf(j) ==> t.store.jobs[k] == s.store.jobs[k]
    requires exists d: Delivery :: d.jobId == j.id && t.store.deliveries == s.store.deliveries + [d]
    ensures Recorded(t)
  {
    var d: Delivery :| d.jobId == j.id && t.store.deliveries == s.store.deliveries + [d];
    forall id
      ensures Count(t.store.deliveries, id) == if id in t.claimed && !IsSendingId(t.store.jobs, id) then 1 else 0
    {
      CountAppend(s.store.deliveries, [d], id);
      assert [d][1..] == [];
      if id == j.id {
        assert IsSendingId(s.store.jobs, id);
      } else if k :| k in s.store.jobs && s.store.jobs[k].state == Sending && s.store.jobs[k].id == id {
        assert t.store.jobs[k] == s.store.jobs[k];
      }
    }
  }

  lemma DeliverBatch(s: System, t: System)
    requires BatchHeld(s) && s.phase.Delivering? && s.batch != [] && t.phase == s.phase && t.batch == s.batch[1..]
    requires var key := KeyOf(s.batch[0]);
             key in s.store.jobs && t.store.jobs.Keys == s.store.jobs.Keys && !InFlight(t.store.jobs[key]) &&
             (forall k :: k in s.store.jobs && k != key ==> t.store.jobs[k] == s.store.jobs[k])
    requires KeysMatch(s.store.jobs) && WellFormed(s.batch[0]) && (t.retry == Some(s.batch[0]) || t.retry.None?)
    ensures BatchHeld(t)
  {
    var j := s.batch[0];
    assert j in s.batch;
    forall i | i in t.batch
      ensures i in s.batch && KeyOf(i) != KeyOf(j)
    {
      var a :| 0 <= a < |t.batch| && t.batch[a] == i;
      assert s.batch[a + 1] == i && s.batch[0] == j;
      assert i in s.batch && j in s.batch && i.id != j.id;
    }
    forall k | k in t.store.jobs && t.store.jobs[k].state == Sending
      ensures t.store.jobs[k] in t.batch
    {
      assert k != KeyOf(j);
      var a :| 0 <= a < |s.batch| && s.batch[a] == s.store.jobs[k];
      assert KeyOf(s.store.jobs[k]) == k && a != 0;
      assert t.batch[a - 1] == s.store.jobs[k];
    }
  }

  // ------------------------------------------------------------------------ boot

  /** Recovery writes one record for every job it takes out of sending. */
  lemma {:induction false} RecoveryCounts(jobs: map<JobKey, Job>, keys: seq<JobKey>, id: nat)
    requires Distinct(keys) && UniqueIds(jobs) && forall k :: k in keys ==> k in jobs
    ensures Count(RecoveryRecords(jobs, keys), id) == if exists k :: k in keys && jobs[k].id == id then 1 else 0
  {
    if keys != [] {
      RecoveryCounts(jobs, keys[1..], id);
      assert keys == [keys[0]] + keys[1..];
      assert keys[0] !in keys[1..];
      var d := RecordOf(jobs[keys[0]], DeliveryUnknown, "restart_during_send");
      CountAppend([d], RecoveryRecords(jobs, keys[1..]), id);
      assert [d][1..] == [];
    }
  }

  lemma BootFacts(s: System, order: seq<JobKey>) returns (keys: seq<JobKey>)
    requires Inv(s) && Enabled(s, Boot(order))
    ensures var t := Effect(s, Boot(order));
            && Distinct(keys) && (forall k :: k in keys <==> k in s.store.jobs && s.store.jobs[k].state == Sending)
            && Restated(s.store.jobs, t.store.jobs) && KeysMatch(t.store.jobs) && UniqueIds(t.store.jobs)
            && (forall k :: k in t.store.jobs ==> t.store.jobs[k].state != Sending)
            && (forall k :: k in t.store.jobs && InFlight(t.store.jobs[k]) ==> t.store.jobs[k] == s.store.jobs[k])
            && t.store.deliveries == s.store.deliveries + RecoveryRecords(s.store.jobs, keys)
  {
    keys := KeysWhere(s.store.jobs, order, IsSending());
    KeysWhereHold(s.store.jobs, order, IsSending());
    MarkedIsRestated(s.store.jobs, keys, Unknown);
    RestatedKeeps(s.store.jobs, MarkAll(s.store.jobs, keys, Unknown));
  }

  lemma BootKeeps(s: System, order: seq<JobKey>)
    requires Inv(s) && Enabled(s, Boot(order))
    ensures Inv(Effect(s, Boot(order)))
  {
    var t := Effect(s, Boot(order));
    var keys := BootFacts(s, order);
    RestatedTracked(s, t);
    BootRecorded(s, t, keys);
    assert BatchHeld(t);
  }

  lemma BootRecorded(s: System, t: System, keys: seq<JobKey>)
    requires Recorded(s) && UniqueIds(s.store.jobs) && Distinct(keys) && t.claimed == s.claimed
    requires Tracked(s) && forall k :: k in keys <==> k in s.store.jobs && s.store.jobs[k].state == Sending
    requires t.store.deliveries == s.store.deliveries + RecoveryRecords(s.store.jobs, keys)
    requires forall k :: k in t.store.jobs ==> t.store.jobs[k].state != Sending
    ensures Recorded(t) && forall id :: !IsSendingId(t.store.jobs, id)
  {
    forall id
      ensures Count(t.store.deliveries, id) == if id in t.claimed && !IsSendingId(t.store.jobs, id) then 1 else 0
    {
      CountAppend(s.store.deliveries, RecoveryRecords(s.store.jobs, keys), id);
      RecoveryCounts(s.store.jobs, keys, id);
      SendingKeys(s.store.jobs, keys, id);
    }
  }

  lemma SendingKeys(jobs: map<JobKey, Job>, keys: seq<JobKey>, id: nat)
    requires forall k :: k in keys <==> k in jobs && jobs[k].state == Sending
    ensures IsSendingId(jobs, id) <==> exists k :: k in keys && jobs[k].id == id
  {}

  // ------------------------------------------------------------------ every run

  lemma NextKeeps(s: System, step: Step)
    requires Inv(s) && Enabled(s, step)
    ensures Inv(Next(s, step)) && EndedNoted(Next(s, step))
  {
    match step {
      case Enqueue(j) => EnqueueKeeps(s, j);
      case Requeue(id, next) => RequeueKeeps(s, id, next);
      case Sweep(order) => SweepKeeps(s, order);
      case ClaimBatch(order, now, limit) => ClaimKeeps(s, order, now, limit);
      case Deliver(_, _, _, _) => DeliverKeeps(s, step);
      case Boot(order) => BootKeeps(s, order);
      case _ =>
    }
    NoteEnded(Effect(s, step));
  }

  lemma {:induction false} RunKeeps(s: System, steps: seq<Step>)
    requires Inv(s) && EndedNoted(s) && ValidRun(s, steps)
    ensures Inv(Run(s, steps)) && EndedNoted(Run(s, steps))
    decreases |steps|
  {
    if steps != [] {
      NextKeeps(s, steps[0]);
      RunKeeps(Next(s, steps[0]), steps[1..]);
    }
  }

  lemma StartHolds(revision: nat)
    ensures Inv(Start(revision)) && EndedNoted(Start(revision))
  {}
}
