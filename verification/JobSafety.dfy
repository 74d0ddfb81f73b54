/** What holds of every run of the notification store. */
module JobSafety {
  import opened Common
  import opened JobStore
  import opened JobProtocol

  // ------------------------------------------------------------------ all runs

  /** A claimed job has exactly one delivery record once it is no longer being sent, in particular whenever
      no pass is running: after a pass ended or the store was booted. It never has two, and no other job has one. */
  lemma ExactlyOneRecord(revision: nat, steps: seq<Step>, id: nat)
    requires ValidRun(Start(revision), steps)
    ensures var s := Run(Start(revision), steps);
            && Count(s.store.deliveries, id) <= 1
            && (id !in s.claimed ==> Count(s.store.deliveries, id) == 0)
            && (id in s.claimed && !IsSendingId(s.store.jobs, id) ==> Count(s.store.deliveries, id) == 1)
            && (id in s.claimed && s.phase == Idle ==> Count(s.store.deliveries, id) == 1)
  {
    StartHolds(revision);
    RunKeeps(Start(revision), steps);
  }

  /** The finish of a job is its one record. */
  lemma FinishRecords(revision: nat, steps: seq<Step>, step: Step)
    requires ValidRun(Start(revision), steps) && step.Deliver? && Enabled(Run(Start(revision), steps), step)
    ensures var s := Run(Start(revision), steps); var id := s.batch[0].id;
            Count(s.store.deliveries, id) == 0 && Count(Next(s, step).store.deliveries, id) == 1 &&
            id in Next(s, step).ended
  {
    StartHolds(revision);
    RunKeeps(Start(revision), steps);
    var s := Run(Start(revision), steps);
    var j, t := s.batch[0], Effect(s, step);
    assert j in s.batch;
    assert IsSendingId(s.store.jobs, j.id);
    DeliverFacts(s, step);
    var d: Delivery :| d.jobId == j.id && t.store.deliveries == s.store.deliveries + [d];
    CountAppend(s.store.deliveries, [d], j.id);
    assert [d][1..] == [];
    assert t.store.jobs[KeyOf(j)].id in TerminalIds(t.store.jobs);
  }

  lemma {:induction false} RunConcat(s: System, a: seq<Step>, b: seq<Step>)
    requires ValidRun(s, a + b)
    ensures ValidRun(s, a) && ValidRun(Run(s, a), b) && Run(s, a + b) == Run(Run(s, a), b)
    decreases |a|
  {
    if a == [] {
      assert a + b == b;
    } else {
      assert (a + b)[0] == a[0] && (a + b)[1..] == a[1..] + b;
      RunConcat(Next(s, a[0]), a[1..], b);
    }
  }

  lemma {:induction false} EndedGrows(s: System, steps: seq<Step>)
    requires ValidRun(s, steps)
    ensures s.ended <= Run(s, steps).ended
    decreases |steps|
  {
    if steps != [] {
      EndedGrows(Next(s, steps[0]), steps[1..]);
    }
  }

  /** An ID that was terminal at some point is never pending or sending again. */
  lemma NoRevival(revision: nat, a: seq<Step>, b: seq<Step>, id: nat)
    requires ValidRun(Start(revision), a + b)
    ensures ValidRun(Start(revision), a)
    ensures id in TerminalIds(Run(Start(revision), a).store.jobs) ==>
              forall j :: j in Run(Start(revision), a + b).store.jobs.Values && j.id == id ==> !InFlight(j)
  {
    RunConcat(Start(revision), a, b);
    StartHolds(revision);
    RunKeeps(Start(revision), a);
    RunKeeps(Start(revision), a + b);
    EndedGrows(Run(Start(revision), a), b);
  }

  // ------------------------------------------------------------ the send clocks

  /** The last time the run stores for a dimension, in whole seconds; `before` when it stores none. */
  function LastStored(steps: seq<Step>, key: ClockKey, before: Option<int>): Option<int>
    decreases |steps|
  {
    if steps == [] then before
    else LastStored(steps[1..], key, if steps[0].StoreClock? && steps[0].key == key then
        Some(Truncate(steps[0].t)) else before)
  }

  /** Over every run each clock reads the last time stored for its dimension, cut to whole seconds: no other step and
      no other dimension changes it, and it survives crashes and boots. */
  lemma {:induction false} ClockReadsLastStored(s: System, steps: seq<Step>, key: ClockKey)
    requires ValidRun(s, steps)
    ensures ReadClock(Run(s, steps).store, key) == LastStored(steps, key, ReadClock(s.store, key))
    decreases |steps|
  {
    if steps != [] {
      ClockStep(s, steps[0], key);
      ClockReadsLastStored(Next(s, steps[0]), steps[1..], key);
    }
  }

  lemma ClockStep(s: System, step: Step, key: ClockKey)
    requires Enabled(s, step)
    ensures ReadClock(Next(s, step).store, key) ==
            if step.StoreClock? && step.key == key then Some(Truncate(step.t)) else ReadClock(s.store, key)
  {}

  // --------------------------------------------------------- the revision guard

  /** What a pass has swept and claimed is no older than the revision it read. */
  ghost predicate FreshBatch(s: System) {
    match s.phase
    case Read(rev) => rev <= s.store.revision
    case Swept(rev) =>
      rev <= s.store.revision &&
      forall k :: k in s.store.jobs && s.store.jobs[k].state == Pending ==> s.store.jobs[k].revision >= rev
    case Delivering(rev) => forall j :: j in s.batch ==> j.revision >= rev
    case _ => true
  }

  lemma FreshKeeps(s: System, step: Step)
    requires Inv(s) && FreshBatch(s) && Enabled(s, step)
    ensures FreshBatch(Next(s, step))
  {
    match step {
      case Enqueue(j) =>
        if !TargetBusy(s.store, j.fingerprint, j.notification, j.platform, j.channel) &&
           KeyOf(j) in s.store.jobs && InFlight(s.store.jobs[KeyOf(j)]) {
          FreeTargetKey(s.store.jobs, j);
        }
      case Sweep(order) =>
        KeysWhereHold(s.store.jobs, order, IsStale(s.phase.rev));
      case ClaimBatch(order, now, limit) =>
        var due := ClaimFacts(s, order, now, limit);
        var t := Effect(s, step);
        forall j | j in t.batch ensures j.revision >= s.phase.rev {
          var i :| 0 <= i < |t.batch| && t.batch[i] == j;
          assert due[i] in due && j.revision == s.store.jobs[due[i]].revision;
        }
      case _ =>
    }
  }

  lemma {:induction false} RunFresh(s: System, steps: seq<Step>)
    requires Inv(s) && EndedNoted(s) && FreshBatch(s) && ValidRun(s, steps)
    ensures FreshBatch(Run(s, steps))
    decreases |steps|
  {
    if steps != [] {
      NextKeeps(s, steps[0]);
      FreshKeeps(s, steps[0]);
      RunFresh(Next(s, steps[0]), steps[1..]);
    }
  }

  /** Every job a pass delivers carries a revision no older than the one the pass read. */
  lemma DeliveredIsFresh(revision: nat, steps: seq<Step>, step: Step)
    requires ValidRun(Start(revision), steps) && step.Deliver? && Enabled(Run(Start(revision), steps), step)
    ensures var s := Run(Start(revision), steps); s.batch[0].revision >= s.phase.rev
  {
    StartHolds(revision);
    RunFresh(Start(revision), steps);
    var s := Run(Start(revision), steps);
    assert s.batch[0] in s.batch;
  }

  // ------------------------------------------------------ one job per target

  predicate SameTargets(a: Job, b: Job) { SameTarget(a, b.fingerprint, b.notification, b.platform, b.channel) }

  /** No two jobs in flight have the same target. */
  ghost predicate OnePerTarget(jobs: map<JobKey, Job>) {
    forall k, l | k in jobs && l in jobs && InFlight(jobs[k]) && InFlight(jobs[l]) && SameTargets(jobs[k], jobs[l]) ::
      k == l
  }

  /** An enqueue that adds a job of another period to the free target of a retry that is due. */
  ghost predicate Collides(s: System, step: Step) {
    step.Enqueue? && s.retry.Some? && SameTargets(step.job, s.retry.value) && step.job.period != s.retry.value.period &&
    !TargetBusy(s.store, step.job.fingerprint, step.job.notification, step.job.platform, step.job.channel)
  }

  /** At most one job per target is in flight, and while a retry is due only a job under its key is, of its target. */
  ghost predicate Single(s: System) {
    && OnePerTarget(s.store.jobs)
    && (s.retry.Some? ==>
          forall k :: k in s.store.jobs && InFlight(s.store.jobs[k]) && SameTargets(s.store.jobs[k], s.retry.value) ==>
            k == KeyOf(s.retry.value))
  }

  /** A change that puts no job in flight keeps the targets single. */
  lemma FewerInFlight(s: System, t: System)
    requires Single(s) && Restated(s.store.jobs, t.store.jobs)
    requires forall k :: k in t.store.jobs && InFlight(t.store.jobs[k]) ==> InFlight(s.store.jobs[k])
    requires t.retry.None? || t.retry == s.retry
    ensures Single(t)
  {
    forall k, l | k in t.store.jobs && l in t.store.jobs && InFlight(t.store.jobs[k]) && InFlight(t.store.jobs[l]) &&
                  SameTargets(t.store.jobs[k], t.store.jobs[l])
      ensures k == l
    {
      assert SameTargets(s.store.jobs[k], s.store.jobs[l]);
    }
    if t.retry.Some? {
      forall k | k in t.store.jobs && InFlight(t.store.jobs[k]) && SameTargets(t.store.jobs[k], t.retry.value)
        ensures k == KeyOf(t.retry.value)
      {
        assert SameTargets(s.store.jobs[k], s.retry.value);
      }
    }
  }

  /** Upserting a job when only its own key may hold a job in flight of its target. */
  lemma UpsertSingle(jobs: map<JobKey, Job>, st: Store, j: Job)
    requires st.jobs == jobs && OnePerTarget(jobs) && KeysMatch(jobs) && WellFormed(j) && j.state == Pending
    requires forall k :: k in jobs && InFlight(jobs[k]) && SameTargets(jobs[k], j) ==> k == KeyOf(j)
    ensures OnePerTarget(Upsert(st, j).0.jobs)
  {
    var key, jobs' := KeyOf(j), Upsert(st, j).0.jobs;
    UpsertedTarget(st, j);
    forall k, l | k in jobs' && l in jobs' && InFlight(jobs'[k]) && InFlight(jobs'[l]) &&
        SameTargets(jobs'[k], jobs'[l])
      ensures k == l
    {
      assert k != key ==> jobs'[k] == jobs[k] && (SameTargets(jobs[k], j) ==> k == key);
      assert l != key ==> jobs'[l] == jobs[l] && (SameTargets(jobs[l], j) ==> l == key);
    }
  }

  /** What an upsert leaves under its key has the job's target. */
  lemma UpsertedTarget(st: Store, j: Job)
    requires KeysMatch(st.jobs) && WellFormed(j) && j.state == Pending
    ensures var e := Upsert(st, j).0.jobs[KeyOf(j)]; e.state == Pending && SameTargets(e, j)
  {
    if KeyOf(j) in st.jobs && st.jobs[KeyOf(j)].state == Pending {
      FreeTargetKey(st.jobs, j);
    }
  }

  lemma EnqueueSingle(s: System, step: Step)
    requires Inv(s) && Single(s) && step.Enqueue? && Enabled(s, step) && !Collides(s, step)
    ensures Single(Effect(s, step))
  {
    var t, j := Effect(s, step), step.job;
    if !TargetBusy(s.store, j.fingerprint, j.notification, j.platform, j.channel) {
      assert forall k :: k in s.store.jobs && InFlight(s.store.jobs[k]) ==> !SameTargets(s.store.jobs[k], j);
      UpsertSingle(s.store.jobs, s.store, j);
      UpsertedTarget(s.store, j);
      if s.retry.Some? && SameTargets(j, s.retry.value) {
        assert KeyOf(j) == KeyOf(s.retry.value);
      }
    }
  }

  lemma RequeueSingle(s: System, id: nat, next: int)
    requires Inv(s) && Single(s) && Enabled(s, Requeue(id, next))
    ensures Single(Effect(s, Requeue(id, next)))
  {
    var j := RetryJob(s.retry.value, id, next);
    assert KeyOf(j) == KeyOf(s.retry.value);
    assert forall k :: k in s.store.jobs && SameTargets(s.store.jobs[k], j) ==>
           SameTargets(s.store.jobs[k], s.retry.value);
    UpsertSingle(s.store.jobs, s.store, j);
  }

  lemma DeliverSingle(s: System, step: Step)
    requires Inv(s) && Single(s) && step.Deliver? && Enabled(s, step)
    ensures Single(Effect(s, step))
  {
    var t, j := Effect(s, step), s.batch[0];
    DeliverFacts(s, step);
    FewerInFlight(s, t.(retry := None));
    if t.retry.Some? {
      forall k | k in t.store.jobs && InFlight(t.store.jobs[k])
        ensures !SameTargets(t.store.jobs[k], j)
      {
        assert k != KeyOf(j) && t.store.jobs[k] == s.store.jobs[k];
        assert j in s.batch && s.store.jobs[KeyOf(j)] == j && InFlight(j);
      }
    }
  }

  lemma SingleKeeps(s: System, step: Step)
    requires Inv(s) && Single(s) && Enabled(s, step) && !Collides(s, step)
    ensures Single(Next(s, step))
  {
    var t := Effect(s, step);
    match step {
      case Enqueue(_) =>
        EnqueueSingle(s, step);
      case Requeue(id, next) =>
        RequeueSingle(s, id, next);
      case Sweep(order) =>
        KeysWhereHold(s.store.jobs, order, IsStale(s.phase.rev));
        MarkedIsRestated(s.store.jobs, KeysWhere(s.store.jobs, order, IsStale(s.phase.rev)), Superseded);
        FewerInFlight(s, t);
      case ClaimBatch(order, now, limit) =>
        var due := ClaimFacts(s, order, now, limit);
        FewerInFlight(s, t);
      case Deliver(_, _, _, _) =>
        DeliverSingle(s, step);
      case Boot(order) =>
        var keys := BootFacts(s, order);
        FewerInFlight(s, t);
      case _ =>
    }
  }

  /** No enqueue of the run collides with a retry that is due. */
  ghost predicate Collisionless(s: System, steps: seq<Step>)
    requires ValidRun(s, steps)
    decreases |steps|
  {
    steps == [] || (!Collides(s, steps[0]) && Collisionless(Next(s, steps[0]), steps[1..]))
  }

  lemma {:induction false} RunSingle(s: System, steps: seq<Step>)
    requires Inv(s) && EndedNoted(s) && Single(s) && ValidRun(s, steps) && Collisionless(s, steps)
    ensures Single(Run(s, steps))
    decreases |steps|
  {
    if steps != [] {
      NextKeeps(s, steps[0]);
      SingleKeeps(s, steps[0]);
      RunSingle(Next(s, steps[0]), steps[1..]);
    }
  }

  /** As long as no enqueue collides with a retry that is due, every store holds at most one pending or sending job
      per fingerprint, notification, platform and channel, whatever the period keys and however passes overlap. */
  lemma OneInFlightPerTarget(revision: nat, steps: seq<Step>)
    requires ValidRun(Start(revision), steps) && Collisionless(Start(revision), steps)
    ensures OnePerTarget(Run(Start(revision), steps).store.jobs)
  {
    StartHolds(revision);
    RunSingle(Start(revision), steps);
  }

  /** Enqueues happen only while no send pass is delivering. */
  ghost predicate SerialRun(s: System, steps: seq<Step>)
    requires ValidRun(s, steps)
    decreases |steps|
  {
    steps == [] || ((steps[0].Enqueue? ==> !s.phase.Delivering?) && SerialRun(Next(s, steps[0]), steps[1..]))
  }

  lemma {:induction false} SerialIsCollisionless(s: System, steps: seq<Step>)
    requires Inv(s) && ValidRun(s, steps) && SerialRun(s, steps)
    ensures Collisionless(s, steps)
    decreases |steps|
  {
    if steps != [] {
      NextKeeps(s, steps[0]);
      SerialIsCollisionless(Next(s, steps[0]), steps[1..]);
    }
  }

  /** In particular when schedule and send passes do not overlap. */
  lemma SerialPassesKeepOnePerTarget(revision: nat, steps: seq<Step>)
    requires ValidRun(Start(revision), steps) && SerialRun(Start(revision), steps)
    ensures OnePerTarget(Run(Start(revision), steps).store.jobs)
  {
    StartHolds(revision);
    SerialIsCollisionless(Start(revision), steps);
    OneInFlightPerTarget(revision, steps);
  }

  // ------------------------------------------------------------- a collision

  lemma {:induction false} RunOneMore(s: System, steps: seq<Step>, step: Step)
    requires ValidRun(s, steps) && Enabled(Run(s, steps), step)
    ensures ValidRun(s, steps + [step]) && Run(s, steps + [step]) == Next(Run(s, steps), step)
    decreases |steps|
  {
    if steps == [] {
      assert steps + [step] == [step] && [step][1..] == [];
    } else {
      assert (steps + [step])[1..] == steps[1..] + [step];
      RunOneMore(Next(s, steps[0]), steps[1..], step);
    }
  }

  /** What becomes of an enqueue of a retry's free target when the requeue follows: with another period two jobs of
      one target are in flight; with the same period the requeue merges into the enqueued job, and the targets stay
      single. */
  lemma EnqueueThenRequeue(s: System, j: Job, id: nat, next: int)
    requires Inv(s) && Enabled(s, Enqueue(j)) && s.retry.Some? && SameTargets(j, s.retry.value)
    requires !TargetBusy(s.store, j.fingerprint, j.notification, j.platform, j.channel)
    requires Enabled(Next(s, Enqueue(j)), Requeue(id, next))
    ensures var jobs := Next(Next(s, Enqueue(j)), Requeue(id, next)).store.jobs;
            (j.period != s.retry.value.period ==> !OnePerTarget(jobs)) &&
            (OnePerTarget(s.store.jobs) ==> (OnePerTarget(jobs) <==> j.period == s.retry.value.period)) &&
            (j.period == s.retry.value.period ==>
               KeyOf(j) in jobs && jobs[KeyOf(j)].state == Pending && jobs[KeyOf(j)].revision == 0)
  {
    RequeueRevision(Next(s, Enqueue(j)), id, next);
    var t := Next(s, Enqueue(j));
    NextKeeps(s, Enqueue(j));
    UpsertedTarget(s.store, j);
    if j.period != s.retry.value.period {
      TwoInFlight(s, j, RetryJob(s.retry.value, id, next));
    } else if OnePerTarget(s.store.jobs) {
      FreeTargetIsSingle(s, j);
      EnqueueSingle(s, Enqueue(j));
      RequeueSingle(t, id, next);
    }
  }

  /** The revision of the job a requeue leaves: none when it merges, else the store's. */
  function RetryRevision(s: System): nat
    requires s.retry.Some?
  {
    var key := KeyOf(s.retry.value);
    if key in s.store.jobs && s.store.jobs[key].state == Pending then 0 else s.store.revision
  }

  lemma RequeueRevision(s: System, id: nat, next: int)
    requires Enabled(s, Requeue(id, next))
    ensures var jobs, key := Next(s, Requeue(id, next)).store.jobs, KeyOf(s.retry.value);
            key in jobs && jobs[key].state == Pending && jobs[key].revision == RetryRevision(s)
  {
    assert KeyOf(RetryJob(s.retry.value, id, next)) == KeyOf(s.retry.value);
  }

  /** A sweep drops the requeued job exactly when it runs at a greater revision than that: a retry that merged is
      dropped at any revision but 0, and a retry of its own only once the configuration has changed. */
  lemma RetryIsSwept(s: System, id: nat, next: int, order: seq<JobKey>, rev: nat)
    requires Enabled(s, Requeue(id, next)) && IsOrder(order, Next(s, Requeue(id, next)).store.jobs)
    ensures var key := KeyOf(s.retry.value); var swept := Supersede(Next(s, Requeue(id, next)).store, order, rev).0;
            key in swept.jobs &&
            swept.jobs[key].state == (if rev > RetryRevision(s) then Superseded else Pending)
  {
    RequeueRevision(s, id, next);
    KeysWhereHold(Next(s, Requeue(id, next)).store.jobs, order, IsStale(rev));
  }

  lemma FreeTargetIsSingle(s: System, j: Job)
    requires OnePerTarget(s.store.jobs) && s.retry.Some? && SameTargets(j, s.retry.value)
    requires !TargetBusy(s.store, j.fingerprint, j.notification, j.platform, j.channel)
    ensures Single(s)
  {
    forall k | k in s.store.jobs && InFlight(s.store.jobs[k])
      ensures !SameTargets(s.store.jobs[k], s.retry.value)
    {
      assert !SameTarget(s.store.jobs[k], j.fingerprint, j.notification, j.platform, j.channel);
    }
  }

  lemma TwoInFlight(s: System, j: Job, r: Job)
    requires Inv(s) && WellFormed(j) && WellFormed(r) && j.state == Pending && r.state == Pending
    requires SameTargets(j, r) && j.period != r.period
    ensures !OnePerTarget(Upsert(Upsert(s.store, j).0, r).0.jobs)
  {
    var first := Upsert(s.store, j).0;
    var jobs := Upsert(first, r).0.jobs;
    UpsertedTarget(s.store, j);
    assert KeysMatch(first.jobs);
    UpsertedTarget(first, r);
    assert KeyOf(j) != KeyOf(r) && jobs[KeyOf(j)] == first.jobs[KeyOf(j)];
    assert SameTargets(jobs[KeyOf(j)], jobs[KeyOf(r)]);
  }

  /** Every run whose only collision is its last step goes wrong at the requeue: the condition is exact. */
  lemma CollisionBreaksSingle(revision: nat, steps: seq<Step>, step: Step, id: nat, next: int)
    requires ValidRun(Start(revision), steps) && Collisionless(Start(revision), steps)
    requires Enabled(Run(Start(revision), steps), step) && Collides(Run(Start(revision), steps), step)
    requires id !in Run(Start(revision), steps).used && id != step.job.id
    ensures var all := steps + [step] + [Requeue(id, next)];
            ValidRun(Start(revision), all) && !OnePerTarget(Run(Start(revision), all).store.jobs)
  {
    StartHolds(revision);
    RunKeeps(Start(revision), steps);
    RunSingle(Start(revision), steps);
    var s := Run(Start(revision), steps);
    RunOneMore(Start(revision), steps, step);
    assert s.phase.Delivering?;
    RunOneMore(Start(revision), steps + [step], Requeue(id, next));
    EnqueueThenRequeue(s, step.job, id, next);
  }

  // ----------------------------------------------------- a run with a collision

  function Sample(id: nat, period: string): Job {
    Job(id, "key", "n", "wecom", "", period, Pending, "text", 0, 0, 0)
  }

  const FIRST: Job := Sample(1, "first").(merged := 1)
  const SECOND_JOB: Job := Sample(2, "second").(merged := 1)
  const FIRST_KEY: JobKey := JobKey("key", "n", "-", "wecom", "first")
  const SECOND_KEY: JobKey := JobKey("key", "n", "-", "wecom", "second")
  const SENT_JOB: Job := FIRST.(state := Sending)

  function Snapshot(jobs: map<JobKey, Job>, phase: Phase, batch: seq<Job>, used: set<nat>, claimed: set<nat>): System {
    System(Store(jobs, [], map[], 0), phase, batch, None, used, claimed, {})
  }

  lemma SampleEnqueued()
    ensures var s := Snapshot(map[], Idle, [], {}, {}); var step := Enqueue(Sample(1, "first"));
            Enabled(s, step) && Next(s, step) == Snapshot(map[FIRST_KEY := FIRST], Idle, [], {1}, {})
  {
    var s := Snapshot(map[], Idle, [], {}, {});
    assert Next(s, Enqueue(Sample(1, "first"))).store.jobs == map[FIRST_KEY := FIRST];
  }

  lemma SampleSwept()
    ensures var s := Snapshot(map[FIRST_KEY := FIRST], Read(0), [], {1}, {}); var step := Sweep([FIRST_KEY]);
            Enabled(s, step) && Next(s, step) == s.(phase := Swept(0))
  {
    var jobs := map[FIRST_KEY := FIRST];
    assert [FIRST_KEY][1..] == [];
    assert KeysWhere(jobs, [FIRST_KEY], IsStale(0)) == [];
    assert MarkAll(jobs, [], Superseded) == jobs;
  }

  lemma SampleClaimed()
    ensures var s := Snapshot(map[FIRST_KEY := FIRST], Swept(0), [], {1}, {});
            var step := ClaimBatch([FIRST_KEY], 0, 10);
            Enabled(s, step) &&
            Next(s, step) == Snapshot(map[FIRST_KEY := SENT_JOB], Delivering(0), [SENT_JOB], {1}, {1})
  {
    var s := Snapshot(map[FIRST_KEY := FIRST], Swept(0), [], {1}, {});
    assert [FIRST_KEY][1..] == [];
    assert DueKeys(s.store.jobs, [FIRST_KEY], 0, 10) == [FIRST_KEY];
    var jobs := MarkAll(s.store.jobs, [FIRST_KEY], Sending);
    assert jobs == map[FIRST_KEY := SENT_JOB];
    assert JobsAt(jobs, [FIRST_KEY]) == [SENT_JOB];
    assert IdsOf([SENT_JOB]) == {1};
  }

  function AfterFailure(): System {
    System(Store(map[FIRST_KEY := FIRST.(state := Failed)],
                 [RecordOf(SENT_JOB, DeliveryFailed, "rate_limited")], map[], 0),
           Delivering(0), [], Some(SENT_JOB), {1}, {1}, {1})
  }

  lemma SampleFailed()
    ensures var s := Snapshot(map[FIRST_KEY := SENT_JOB], Delivering(0), [SENT_JOB], {1}, {1});
            var step := Deliver([FIRST_KEY], DeliveryFailed, "rate_limited", true);
            Enabled(s, step) && Next(s, step) == AfterFailure()
  {
    var s := Snapshot(map[FIRST_KEY := SENT_JOB], Delivering(0), [SENT_JOB], {1}, {1});
    assert FindJob(s.store.jobs, [FIRST_KEY], 1) == Some(FIRST_KEY);
    var t := Effect(s, Deliver([FIRST_KEY], DeliveryFailed, "rate_limited", true));
    assert t.store.jobs == map[FIRST_KEY := FIRST.(state := Failed)];
    assert t.store.jobs[FIRST_KEY].id in TerminalIds(t.store.jobs);
    assert TerminalIds(t.store.jobs) == {1};
  }

  lemma SampleOverlapped()
    ensures Enabled(AfterFailure(), Enqueue(Sample(2, "second")))
    ensures var t := Next(AfterFailure(), Enqueue(Sample(2, "second")));
            t.store.jobs == map[FIRST_KEY := FIRST.(state := Failed), SECOND_KEY := SECOND_JOB] &&
            t.phase == Delivering(0) && t.retry == Some(SENT_JOB) && t.used == {1, 2}
  {}

  /** A rate-limited delivery, up to the point where its requeue is due. */
  lemma SampleRun() returns (steps: seq<Step>)
    ensures ValidRun(Start(0), steps) && Run(Start(0), steps) == AfterFailure()
  {
    var s := Start(0);
    steps := [Boot([])];
    assert steps[1..] == [];
    assert Run(s, steps) == Snapshot(map[], Idle, [], {}, {}) by {
      assert Recover(s.store, []) == s.store;
    }
    SampleEnqueued();
    RunOneMore(s, steps, Enqueue(Sample(1, "first")));
    steps := steps + [Enqueue(Sample(1, "first"))];
    assert Next(Run(s, steps), ReadRevision) == Snapshot(map[FIRST_KEY := FIRST], Read(0), [], {1}, {});
    RunOneMore(s, steps, ReadRevision);
    steps := steps + [ReadRevision];
    SampleSwept();
    RunOneMore(s, steps, Sweep([FIRST_KEY]));
    steps := steps + [Sweep([FIRST_KEY])];
    SampleClaimed();
    RunOneMore(s, steps, ClaimBatch([FIRST_KEY], 0, 10));
    steps := steps + [ClaimBatch([FIRST_KEY], 0, 10)];
    SampleFailed();
    RunOneMore(s, steps, Deliver([FIRST_KEY], DeliveryFailed, "rate_limited", true));
    steps := steps + [Deliver([FIRST_KEY], DeliveryFailed, "rate_limited", true)];
  }

  /** Collisions do happen: an enqueue for the next period between a rate-limited finish and its requeue leaves two
      pending jobs for one target. */
  lemma OverlapBreaksSingle() returns (steps: seq<Step>)
    ensures ValidRun(Start(0), steps) && !OnePerTarget(Run(Start(0), steps).store.jobs)
  {
    var s := Start(0);
    steps := SampleRun();
    SampleOverlapped();
    RunOneMore(s, steps, Enqueue(Sample(2, "second")));
    steps := steps + [Enqueue(Sample(2, "second"))];
    var before := Run(s, steps);
    RunOneMore(s, steps, Requeue(3, 5));
    SampleRequeued(before);
    steps := steps + [Requeue(3, 5)];
  }

  lemma SampleRequeued(s: System)
    requires s.store.jobs == map[FIRST_KEY := FIRST.(state := Failed), SECOND_KEY := SECOND_JOB]
    requires s.phase == Delivering(0) && s.retry == Some(SENT_JOB) && s.used == {1, 2}
    ensures !OnePerTarget(Next(s, Requeue(3, 5)).store.jobs)
  {
    var jobs := Next(s, Requeue(3, 5)).store.jobs;
    assert FIRST_KEY != SECOND_KEY by {
      assert "first"[0] != "second"[0];
    }
    assert jobs[FIRST_KEY].state == Pending && jobs[SECOND_KEY].state == Pending;
    assert SameTargets(jobs[FIRST_KEY], jobs[SECOND_KEY]);
  }
}
