/** The send loop and the enqueue of the notification service, and how they are runs of the protocol. */
module JobService {
  import opened Common
  import opened JobStore
  import opened JobProtocol
  import opened JobSafety
  import opened Schedule

  const BATCH_LIMIT: int := 10

  /** What a platform send reported. */
  datatype SendResult = SendResult(outcome: Outcome, errorCode: string, retryAfter: int)

  function ClockScope(fingerprint: string): string {
    if fingerprint == "" || fingerprint == GLOBAL then GLOBAL else fingerprint
  }

  function ClockOf(j: Job): ClockKey { ClockKeyOf(j.notification, ClockScope(j.fingerprint), j.channel) }

  predicate Retries(r: SendResult) { r.outcome == DeliveryFailed && r.retryAfter > 0 }

  /** One turn of the delivery loop. */
  function DeliverOne(st: Store, order: seq<JobKey>, j: Job, r: SendResult, id: nat, now: int): Store {
    var finished := Finish(st, order, j.id, r.outcome, r.errorCode);
    if finished.None? then st
    else
      var clocked := if r.outcome == Accepted then SetClock(finished.value, ClockOf(j), now) else finished.value;
      if Retries(r) then Upsert(clocked, RetryJob(j, id, now + r.retryAfter)).0 else clocked
  }

  /** What the platforms and the clock yield for one claimed job each, and how many jobs are handled before the
      context is cancelled. */
  datatype Turns = Turns(results: seq<SendResult>, ids: seq<nat>, stop: nat)

  predicate Cover(turns: Turns, n: nat) { n <= |turns.results| && n <= |turns.ids| }

  function Later(turns: Turns): Turns
    requires Cover(turns, 1) && turns.stop > 0
  {
    Turns(turns.results[1..], turns.ids[1..], turns.stop - 1)
  }

  /** The jobs of the batch in turn, until the context is cancelled. */
  function DeliverAll(st: Store, order: seq<JobKey>, batch: seq<Job>, turns: Turns, now: int): Store
    requires Cover(turns, |batch|)
    decreases |batch|
  {
    if batch == [] || turns.stop == 0 then st
    else
      var next := DeliverOne(st, order, batch[0], turns.results[0], turns.ids[0], now);
      DeliverAll(next, order, batch[1..], Later(turns), now)
  }

  lemma {:induction false} ClaimIsBounded(st: Store, order: seq<JobKey>, now: int)
    ensures |Claim(st, order, now, BATCH_LIMIT).1| <= BATCH_LIMIT
  {
    DueKeysAreDue(st.jobs, order, now, BATCH_LIMIT);
    var due := DueKeys(st.jobs, order, now, BATCH_LIMIT);
    JobsAtIndex(MarkAll(st.jobs, due, Sending), due);
  }

  /** A whole pass. */
  function SendPass(st: Store, order: seq<JobKey>, turns: Turns, now: int): Store
    requires Cover(turns, BATCH_LIMIT)
  {
    var swept := Supersede(st, order, st.revision).0;
    var (claimed, batch) := Claim(swept, order, now, BATCH_LIMIT);
    ClaimIsBounded(swept, order, now);
    DeliverAll(claimed, order, batch, turns, now)
  }

  /** The enqueue of one target: nothing while it is busy, else an upsert at the current revision. */
  ghost function Enqueued(st: Store, j: Job): Store {
    if TargetBusy(st, j.fingerprint, j.notification, j.platform, j.channel) then st
    else Upsert(st, j.(revision := st.revision)).0
  }

  /** A turn of the schedule loop for one target: an enqueue when the plan is due by the target's clock. */
  ghost function Scheduled(st: Store, plan: Plan, j: Job, now: int): Store {
    if IsDue(plan, ReadClock(st, ClockOf(j)), now) then Enqueued(st, j) else st
  }

  class NotificationService {
    const store: NotificationStore

    constructor (store: NotificationStore)
      ensures this.store == store
    {
      this.store := store;
    }

    /** The throttle check and the upsert of one platform target. */
    method EnqueueTarget(order: seq<JobKey>, j: Job)
      requires IsOrder(order, store.jobs)
      modifies store`jobs
      ensures store.State() == Enqueued(old(store.State()), j)
    {
      var busy := store.PendingJobExists(order, j.fingerprint, j.notification, j.platform, j.channel);
      if busy {
        return;
      }
      var _ := store.UpsertJob(j.(revision := store.revision));
    }

    /** The schedule loop for one platform target of a plan. */
    method ScheduleTarget(order: seq<JobKey>, plan: Plan, j: Job, now: int)
      requires IsOrder(order, store.jobs)
      modifies store`jobs
      ensures store.State() == Scheduled(old(store.State()), plan, j, now)
    {
      var last := store.Clock(j.notification, ClockScope(j.fingerprint), j.channel);
      var due, _ := DueAt(plan, last, now);
      if due {
        EnqueueTarget(order, j);
      }
    }

    method RequeueForRetry(j: Job, id: nat, next: int)
      modifies store`jobs
      ensures store.State() == Upsert(old(store.State()), RetryJob(j, id, next)).0
    {
      var _ := store.UpsertJob(RetryJob(j, id, next));
    }

    /** One turn of the delivery loop of sendTick. */
    method DeliverJob(order: seq<JobKey>, j: Job, r: SendResult, id: nat, now: int)
      requires IsOrder(order, store.jobs)
      modifies store
      ensures store.State() == DeliverOne(old(store.State()), order, j, r, id, now)
    {
      var ok := store.FinishJob(order, j.id, r.outcome, r.errorCode);
      if !ok {
        return;
      }
      if r.outcome == Accepted {
        store.StoreClock(j.notification, ClockScope(j.fingerprint), j.channel, now);
      }
      if r.outcome == DeliveryFailed && r.retryAfter > 0 {
        RequeueForRetry(j, id, now + r.retryAfter);
      }
    }

    method SendTick(order: seq<JobKey>, turns: Turns, now: int)
      requires IsOrder(order, store.jobs) && KeysPresent(store.jobs) && Cover(turns, BATCH_LIMIT)
      modifies store
      ensures store.State() == SendPass(old(store.State()), order, turns, now)
    {
      var _ := store.SupersedeStaleJobs(order, store.revision);
      var jobs := ClaimForPass(order, now);
      DeliverJobs(order, jobs, turns, now);
    }

    method ClaimForPass(order: seq<JobKey>, now: int) returns (jobs: seq<Job>)
      requires IsOrder(order, store.jobs) && KeysPresent(store.jobs)
      modifies store`jobs
      ensures (store.State(), jobs) == Claim(old(store.State()), order, now, BATCH_LIMIT)
      ensures |jobs| <= BATCH_LIMIT && IsOrder(order, store.jobs) && forall j :: j in jobs ==> KeyOf(j) in store.jobs
    {
      ghost var before := store.State();
      jobs := store.ClaimDueJobs(order, now, BATCH_LIMIT);
      ClaimIsBounded(before, order, now);
      ClaimedKeysPresent(before, order, now);
      SameKeysSameOrder(order, before.jobs, store.jobs);
    }

    method DeliverJobs(order: seq<JobKey>, jobs: seq<Job>, turns: Turns, now: int)
      requires IsOrder(order, store.jobs) && Cover(turns, |jobs|)
      requires forall j :: j in jobs ==> KeyOf(j) in store.jobs
      modifies store
      ensures store.State() == DeliverAll(old(store.State()), order, jobs, turns, now)
    {
      ghost var last := DeliverAll(store.State(), order, jobs, turns, now);
      ghost var left := turns;
      assert jobs[0..] == jobs && turns.results[0..] == turns.results && turns.ids[0..] == turns.ids;
      for i := 0 to |jobs|
        invariant i <= turns.stop && left == Turns(turns.results[i..], turns.ids[i..], turns.stop - i)
        invariant last == DeliverAll(store.State(), order, jobs[i..], left, now)
        invariant IsOrder(order, store.jobs) && store.jobs.Keys == old(store.jobs).Keys
      {
        if i == turns.stop {
          return;
        }
        ghost var before := store.State();
        assert jobs[i] in jobs && KeyOf(jobs[i]) in store.jobs.Keys;
        DeliverStep(before, order, jobs[i..], left, now);
        assert jobs[i..][1..] == jobs[i + 1..];
        assert turns.results[i..][1..] == turns.results[i + 1..] && turns.ids[i..][1..] == turns.ids[i + 1..];
        DeliverJob(order, jobs[i], turns.results[i], turns.ids[i], now);
        DeliverOneKeys(before, order, jobs[i], turns.results[i], turns.ids[i], now);
        SameKeysSameOrder(order, before.jobs, store.jobs);
        left := Later(left);
      }
    }
  }

  lemma DeliverStep(st: Store, order: seq<JobKey>, batch: seq<Job>, turns: Turns, now: int)
    requires batch != [] && Cover(turns, |batch|) && turns.stop > 0
    ensures DeliverAll(st, order, batch, turns, now) ==
            DeliverAll(DeliverOne(st, order, batch[0], turns.results[0], turns.ids[0], now), order, batch[1..],
                       Later(turns), now)
  {}

  lemma DeliverOneKeys(st: Store, order: seq<JobKey>, j: Job, r: SendResult, id: nat, now: int)
    requires KeyOf(j) in st.jobs
    ensures DeliverOne(st, order, j, r, id, now).jobs.Keys == st.jobs.Keys
  {
    assert KeyOf(RetryJob(j, id, now + r.retryAfter)) == KeyOf(j);
  }

  /** Every job is stored under its own key. */
  ghost predicate KeysPresent(jobs: map<JobKey, Job>) { forall k :: k in jobs ==> KeyOf(jobs[k]) == k }

  lemma ClaimedKeysPresent(st: Store, order: seq<JobKey>, now: int)
    requires KeysPresent(st.jobs)
    ensures var (claimed, batch) := Claim(st, order, now, BATCH_LIMIT);
            claimed.jobs.Keys == st.jobs.Keys && forall j :: j in batch ==> KeyOf(j) in claimed.jobs
  {
    var due := DueKeys(st.jobs, order, now, BATCH_LIMIT);
    DueKeysAreDue(st.jobs, order, now, BATCH_LIMIT);
    var jobs := MarkAll(st.jobs, due, Sending);
    JobsAtIndex(jobs, due);
    forall j | j in JobsAt(jobs, due) ensures KeyOf(j) in jobs {
      var i :| 0 <= i < |due| && JobsAt(jobs, due)[i] == j;
      assert due[i] in due;
    }
  }

  // ------------------------------------------------ enqueues and passes are runs

  /** An enqueue leaves its target busy, so that no later enqueue of it, whatever its period or payload, changes
      anything: a job waiting for its retry keeps its wait. Jobs under other keys are left alone. With a new ID it is
      one step of the protocol, whenever it comes. */
  lemma EnqueueThrottles(s: System, j: Job, again: Job)
    requires KeysMatch(s.store.jobs) && WellFormed(j) && j.state == Pending && SameTargets(again, j)
    ensures var st, st' := s.store, Enqueued(s.store, j);
            && TargetBusy(st', j.fingerprint, j.notification, j.platform, j.channel)
            && Enqueued(st', again) == st'
            && (forall k :: k != KeyOf(j) ==> (k in st'.jobs <==> k in st.jobs))
            && (forall k :: k != KeyOf(j) && k in st.jobs ==> st'.jobs[k] == st.jobs[k])
    ensures var step := Enqueue(j.(revision := s.store.revision));
            j.id !in s.used ==> Enabled(s, step) && Next(s, step).store == Enqueued(s.store, j)
  {
    var st := s.store;
    if !TargetBusy(st, j.fingerprint, j.notification, j.platform, j.channel) {
      UpsertedTarget(st, j.(revision := st.revision));
      assert KeyOf(j.(revision := st.revision)) == KeyOf(j);
    }
  }

  /** The protocol steps of one turn of the delivery loop. */
  function TurnSteps(order: seq<JobKey>, j: Job, r: SendResult, id: nat, now: int): seq<Step> {
    [Deliver(order, r.outcome, r.errorCode, r.retryAfter > 0)] +
    (if r.outcome == Accepted then [StoreClock(ClockOf(j), now)] else []) +
    (if Retries(r) then [Requeue(id, now + r.retryAfter)] else [])
  }

  function LoopSteps(order: seq<JobKey>, batch: seq<Job>, turns: Turns, now: int): seq<Step>
    requires Cover(turns, |batch|)
    decreases |batch|
  {
    if batch == [] || turns.stop == 0 then []
    else
      TurnSteps(order, batch[0], turns.results[0], turns.ids[0], now) +
      LoopSteps(order, batch[1..], Later(turns), now)
  }

  lemma {:induction false} RunJoin(s: System, a: seq<Step>, b: seq<Step>)
    requires ValidRun(s, a) && ValidRun(Run(s, a), b)
    ensures ValidRun(s, a + b) && Run(s, a + b) == Run(Run(s, a), b)
    decreases |a|
  {
    if a == [] {
      assert a + b == b;
    } else {
      var first, rest := a[0], a[1..];
      assert a == [first] + rest;
      RunFirst(s, first, rest);
      RunJoin(Next(s, first), rest, b);
      RunFirst(s, first, rest + b);
      Associative([first], rest, b);
    }
  }

  lemma RunFirst(s: System, step: Step, rest: seq<Step>)
    requires Enabled(s, step)
    ensures ValidRun(s, [step] + rest) <==> ValidRun(Next(s, step), rest)
    ensures ValidRun(s, [step] + rest) ==> Run(s, [step] + rest) == Run(Next(s, step), rest)
  {
    assert ([step] + rest)[1..] == rest;
  }

  lemma RunOne(s: System, step: Step)
    requires Enabled(s, step)
    ensures ValidRun(s, [step]) && Run(s, [step]) == Next(s, step)
  {
    assert [step][1..] == [];
  }

  /** The finish of a turn: the retry is due exactly when the platform asked for one. */
  lemma FinishedTurn(s: System, order: seq<JobKey>, r: SendResult)
    requires Inv(s) && s.phase.Delivering? && s.batch != [] && s.retry.None? && IsOrder(order, s.store.jobs)
    requires r.outcome != OtherOutcome
    ensures Finished(s, Next(s, Deliver(order, r.outcome, r.errorCode, r.retryAfter > 0)), order, r)
  {
    FinishSucceeds(s, order, r);
    DeliverFacts(s, Deliver(order, r.outcome, r.errorCode, r.retryAfter > 0));
  }

  /** What one turn of the loop leaves. */
  ghost predicate TurnDone(s: System, t: System, order: seq<JobKey>, r: SendResult, id: nat, now: int)
    requires s.batch != []
  {
    t.store == DeliverOne(s.store, order, s.batch[0], r, id, now) && t.phase == s.phase && t.batch == s.batch[1..] &&
    t.retry.None? && t.store.jobs.Keys == s.store.jobs.Keys && t.used <= s.used + {id}
  }

  /** One turn of the loop is a run of the protocol that leads to the same store. */
  lemma TurnIsRun(s: System, order: seq<JobKey>, r: SendResult, id: nat, now: int)
    requires Inv(s) && s.phase.Delivering? && s.batch != [] && s.retry.None?
    requires IsOrder(order, s.store.jobs) && r.outcome != OtherOutcome && id !in s.used
    ensures var steps := TurnSteps(order, s.batch[0], r, id, now);
            ValidRun(s, steps) && TurnDone(s, Run(s, steps), order, r, id, now)
  {
    var j := s.batch[0];
    var step := Deliver(order, r.outcome, r.errorCode, r.retryAfter > 0);
    FinishedTurn(s, order, r);
    RunOne(s, step);
    var s1 := Next(s, step);
    if r.outcome == Accepted {
      AcceptedTurn(s, s1, order, r, id, now);
      RunOne(s1, StoreClock(ClockOf(j), now));
      RunJoin(s, [step], [StoreClock(ClockOf(j), now)]);
    } else if Retries(r) {
      RetriedTurn(s, s1, order, r, id, now);
      RunOne(s1, Requeue(id, now + r.retryAfter));
      RunJoin(s, [step], [Requeue(id, now + r.retryAfter)]);
    } else {
      PlainTurn(s, s1, order, r, id, now);
    }
    TurnStepsAre(order, j, r, id, now);
  }

  lemma TurnStepsAre(order: seq<JobKey>, j: Job, r: SendResult, id: nat, now: int)
    ensures var step := Deliver(order, r.outcome, r.errorCode, r.retryAfter > 0);
            TurnSteps(order, j, r, id, now) ==
            if r.outcome == Accepted then [step] + [StoreClock(ClockOf(j), now)]
            else if Retries(r) then [step] + [Requeue(id, now + r.retryAfter)]
            else [step]
  {}

  ghost predicate Finished(s: System, t: System, order: seq<JobKey>, r: SendResult)
    requires s.batch != []
  {
    var j := s.batch[0];
    Finish(s.store, order, j.id, r.outcome, r.errorCode) == Some(t.store) && t.phase == s.phase &&
    t.batch == s.batch[1..] && t.retry == (if Retries(r) then Some(j) else None) && t.used == s.used &&
    t.store.jobs.Keys == s.store.jobs.Keys && KeyOf(j) in t.store.jobs
  }

  lemma AcceptedTurn(s: System, s1: System, order: seq<JobKey>, r: SendResult, id: nat, now: int)
    requires s.batch != [] && s.phase.Delivering? && Finished(s, s1, order, r) && r.outcome == Accepted
    ensures Enabled(s1, StoreClock(ClockOf(s.batch[0]), now))
    ensures TurnDone(s, Next(s1, StoreClock(ClockOf(s.batch[0]), now)), order, r, id, now)
  {}

  lemma RetriedTurn(s: System, s1: System, order: seq<JobKey>, r: SendResult, id: nat, now: int)
    requires s.batch != [] && s.phase.Delivering? && Finished(s, s1, order, r) && Retries(r) && id !in s.used
    ensures Enabled(s1, Requeue(id, now + r.retryAfter))
    ensures TurnDone(s, Next(s1, Requeue(id, now + r.retryAfter)), order, r, id, now)
  {
    assert KeyOf(RetryJob(s.batch[0], id, now + r.retryAfter)) == KeyOf(s.batch[0]);
  }

  lemma PlainTurn(s: System, s1: System, order: seq<JobKey>, r: SendResult, id: nat, now: int)
    requires s.batch != [] && Finished(s, s1, order, r) && r.outcome != Accepted && !Retries(r)
    ensures TurnDone(s, s1, order, r, id, now)
  {}

  lemma FinishSucceeds(s: System, order: seq<JobKey>, r: SendResult)
    requires Inv(s) && s.phase.Delivering? && s.batch != [] && IsOrder(order, s.store.jobs) && r.outcome != OtherOutcome
    ensures Finish(s.store, order, s.batch[0].id, r.outcome, r.errorCode).Some?
  {
    assert s.batch[0] in s.batch;
    FindById(s.store.jobs, order, KeyOf(s.batch[0]));
  }

  /** The platforms report known outcomes, and the IDs for requeued jobs are new. */
  ghost predicate FreshTurns(turns: Turns, used: set<nat>) {
    (forall r :: r in turns.results ==> r.outcome != OtherOutcome) &&
    (forall i :: 0 <= i < |turns.ids| ==> turns.ids[i] !in used) &&
    (forall i, j :: 0 <= i < j < |turns.ids| ==> turns.ids[i] != turns.ids[j])
  }

  /** The delivery loop, cancelled or not, is a run of the protocol that leaves the jobs not handled in the batch. */
  lemma {:induction false} LoopIsRun(s: System, order: seq<JobKey>, turns: Turns, now: int)
    requires Inv(s) && EndedNoted(s) && s.phase.Delivering? && s.retry.None? && IsOrder(order, s.store.jobs)
    requires Cover(turns, |s.batch|) && FreshTurns(turns, s.used)
    ensures var steps := LoopSteps(order, s.batch, turns, now);
            ValidRun(s, steps) && var t := Run(s, steps);
            t.store == DeliverAll(s.store, order, s.batch, turns, now) && t.phase == s.phase && t.retry.None? &&
            t.batch == s.batch[if turns.stop < |s.batch| then turns.stop else |s.batch|..]
    decreases |s.batch|
  {
    if s.batch != [] && turns.stop > 0 {
      var turn := TurnSteps(order, s.batch[0], turns.results[0], turns.ids[0], now);
      assert turns.results[0] in turns.results;
      TurnIsRun(s, order, turns.results[0], turns.ids[0], now);
      RunKeeps(s, turn);
      var t := Run(s, turn);
      SameKeysSameOrder(order, s.store.jobs, t.store.jobs);
      LaterIsFresh(turns, s.used, t.used);
      LoopIsRun(t, order, Later(turns), now);
      LoopJoins(s, order, turns, now, t);
    }
  }

  /** The steps of the first turn and those of the rest are the steps of the loop. */
  lemma LoopJoins(s: System, order: seq<JobKey>, turns: Turns, now: int, t: System)
    requires s.batch != [] && turns.stop > 0 && Cover(turns, |s.batch|) && t.batch == s.batch[1..]
    requires var turn := TurnSteps(order, s.batch[0], turns.results[0], turns.ids[0], now);
             ValidRun(s, turn) && Run(s, turn) == t && ValidRun(t, LoopSteps(order, t.batch, Later(turns), now))
    ensures var steps := LoopSteps(order, s.batch, turns, now);
            ValidRun(s, steps) && Run(s, steps) == Run(t, LoopSteps(order, t.batch, Later(turns), now))
  {
    RunJoin(s, TurnSteps(order, s.batch[0], turns.results[0], turns.ids[0], now),
      LoopSteps(order, t.batch, Later(turns), now));
  }

  lemma LaterIsFresh(turns: Turns, used: set<nat>, used': set<nat>)
    requires Cover(turns, 1) && turns.stop > 0 && FreshTurns(turns, used) && used' <= used + {turns.ids[0]}
    ensures FreshTurns(Later(turns), used')
  {}

  lemma SameKeysSameOrder(order: seq<JobKey>, jobs: map<JobKey, Job>, jobs': map<JobKey, Job>)
    requires IsOrder(order, jobs) && jobs'.Keys == jobs.Keys
    ensures IsOrder(order, jobs')
  {
    forall k ensures k in order <==> k in jobs' {
      assert k in jobs <==> k in jobs.Keys;
    }
  }

  /** A pass that is cancelled with jobs left ends like a crash: those jobs stay in sending until the next boot. */
  function PassSteps(s: System, order: seq<JobKey>, turns: Turns, now: int): seq<Step>
    requires Cover(turns, BATCH_LIMIT)
  {
    var swept := Supersede(s.store, order, s.store.revision).0;
    ClaimIsBounded(swept, order, now);
    var batch := Claim(swept, order, now, BATCH_LIMIT).1;
    [ReadRevision, Sweep(order), ClaimBatch(order, now, BATCH_LIMIT)] + LoopSteps(order, batch, turns, now) +
    [if turns.stop < |batch| then Crash else EndPass]
  }

  /** A send pass from rest, cancelled or not, is a run of the protocol to the same store. */
  lemma SendPassIsRun(s: System, order: seq<JobKey>, turns: Turns, now: int)
    requires Inv(s) && EndedNoted(s) && s.phase == Idle && IsOrder(order, s.store.jobs)
    requires Cover(turns, BATCH_LIMIT) && FreshTurns(turns, s.used)
    ensures var steps := PassSteps(s, order, turns, now);
            ValidRun(s, steps) && Run(s, steps).store == SendPass(s.store, order, turns, now) &&
            (Run(s, steps).phase == Idle || Run(s, steps).phase == Down)
  {
    var start := [ReadRevision, Sweep(order), ClaimBatch(order, now, BATCH_LIMIT)];
    PassStart(s, order, now);
    RunKeeps(s, start);
    var t := Run(s, start);
    ClaimIsBounded(Supersede(s.store, order, s.store.revision).0, order, now);
    LoopIsRun(t, order, turns, now);
    var loop := LoopSteps(order, t.batch, turns, now);
    RunJoin(s, start, loop);
    RunOneMore(s, start + loop, if turns.stop < |t.batch| then Crash else EndPass);
  }

  lemma ReadSweep(s: System, order: seq<JobKey>)
    requires s.phase == Idle && IsOrder(order, s.store.jobs)
    ensures var steps := [ReadRevision] + [Sweep(order)];
            ValidRun(s, steps) && var t := Run(s, steps);
            t.store == Supersede(s.store, order, s.store.revision).0 && t.phase.Swept? && t.batch == s.batch &&
            t.retry == s.retry && t.used == s.used && IsOrder(order, t.store.jobs)
  {
    RunOne(s, ReadRevision);
    var s1 := Next(s, ReadRevision);
    RunOne(s1, Sweep(order));
    RunJoin(s, [ReadRevision], [Sweep(order)]);
    SameKeysSameOrder(order, s.store.jobs, Next(s1, Sweep(order)).store.jobs);
  }

  lemma PassStart(s: System, order: seq<JobKey>, now: int)
    requires Inv(s) && s.phase == Idle && IsOrder(order, s.store.jobs)
    ensures var start := [ReadRevision, Sweep(order), ClaimBatch(order, now, BATCH_LIMIT)];
            var swept := Supersede(s.store, order, s.store.revision).0;
            ValidRun(s, start) && var t := Run(s, start);
            t.store == Claim(swept, order, now, BATCH_LIMIT).0 && t.batch == Claim(swept, order, now, BATCH_LIMIT).1 &&
            t.phase.Delivering? && t.retry.None? && t.used == s.used && IsOrder(order, t.store.jobs)
  {
    ReadSweep(s, order);
    var steps := [ReadRevision] + [Sweep(order)];
    var t := Run(s, steps);
    RunOneMore(s, steps, ClaimBatch(order, now, BATCH_LIMIT));
    SameKeysSameOrder(order, t.store.jobs, Claim(t.store, order, now, BATCH_LIMIT).0.jobs);
    assert steps + [ClaimBatch(order, now, BATCH_LIMIT)] ==
           [ReadRevision, Sweep(order), ClaimBatch(order, now, BATCH_LIMIT)];
  }
}
