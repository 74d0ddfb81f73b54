/** How the store shows the runs of a plan: each turn of the schedule and send loops is an event of such a run. */
module PlanLoops {
  import opened Common
  import opened JobStore
  import opened JobProtocol
  import opened JobSafety
  import opened JobService
  import opened Schedule
  import opened ScheduleRuns

  ghost predicate Busy(st: Store, j: Job) { TargetBusy(st, j.fingerprint, j.notification, j.platform, j.channel) }

  /** The progress of the target of `j`: its clock, and whether a job of it is pending or sending. */
  ghost function ProgressOf(st: Store, j: Job): Progress { Progress(ReadClock(st, ClockOf(j)), Busy(st, j)) }

  /** A turn of the schedule loop is a tick of the run. */
  lemma ScheduleIsTick(st: Store, plan: Plan, j: Job, now: int)
    requires KeysMatch(st.jobs) && WellFormed(j) && j.state == Pending
    ensures ProgressOf(Scheduled(st, plan, j, now), j) == After(plan, ProgressOf(st, j), Tick(now))
  {
    if IsDue(plan, ReadClock(st, ClockOf(j)), now) && !Busy(st, j) {
      UpsertedTarget(st, j.(revision := st.revision));
      assert SameTargets(Enqueued(st, j).jobs[KeyOf(j)], j);
    }
  }

  /** What a turn of the delivery loop for `k` is to the target of `j`; a rate-limited job goes on waiting. */
  function EventOf(k: Job, r: SendResult, now: int, j: Job): Option<ScheduleRuns.Event> {
    if SameTargets(k, j) then
      if r.outcome == Accepted then Some(Send(now)) else if Retries(r) then None else Some(Fail(now))
    else if r.outcome == Accepted && ClockOf(k) == ClockOf(j) then Some(Sibling(now))
    else None
  }

  ghost function AfterOption(plan: Plan, p: Progress, e: Option<ScheduleRuns.Event>): Progress {
    if e.Some? then After(plan, p, e.value) else p
  }

  /** A job being sent, in a store with one job in flight per target. */
  ghost predicate InSending(st: Store, order: seq<JobKey>, k: Job) {
    && KeysMatch(st.jobs) && UniqueIds(st.jobs) && OnePerTarget(st.jobs) && IsOrder(order, st.jobs)
    && KeyOf(k) in st.jobs && st.jobs[KeyOf(k)] == k && k.state == Sending
  }

  /** What the finish of a job leaves: its own target is free, the others are as they were. */
  lemma FinishFrees(st: Store, order: seq<JobKey>, k: Job, r: SendResult, j: Job)
    requires InSending(st, order, k) && r.outcome != OtherOutcome
    ensures var finished := Finish(st, order, k.id, r.outcome, r.errorCode);
            finished.Some? && KeysMatch(finished.value.jobs) && finished.value.clock == st.clock &&
            (Busy(finished.value, j) <==> Busy(st, j) && !SameTargets(k, j))
    ensures SameTargets(k, j) ==> Busy(st, j)
  {
    FindById(st.jobs, order, KeyOf(k));
    EndedFrees(st.jobs, k, StateFor(r.outcome).value, Finish(st, order, k.id, r.outcome, r.errorCode).value, st, j);
  }

  /** A job taken out of flight. */
  lemma EndedFrees(before: map<JobKey, Job>, k: Job, to: JobState, finished: Store, st: Store, j: Job)
    requires st.jobs == before && KeysMatch(before) && OnePerTarget(before)
    requires KeyOf(k) in before && before[KeyOf(k)] == k && k.state == Sending && to != Pending && to != Sending
    requires finished.jobs == before[KeyOf(k) := k.(state := to)]
    ensures KeysMatch(finished.jobs) && (Busy(finished, j) <==> Busy(st, j) && !SameTargets(k, j))
    ensures SameTargets(k, j) ==> Busy(st, j)
  {
    var jobs := finished.jobs;
    assert InFlight(st.jobs[KeyOf(k)]);
    forall l | l in jobs && InFlight(jobs[l])
      ensures l != KeyOf(k) && jobs[l] == st.jobs[l] && !SameTargets(jobs[l], k)
    {
      assert l != KeyOf(k);
    }
    if Busy(st, j) && !SameTargets(k, j) {
      var l :| l in st.jobs && InFlight(st.jobs[l]) && SameTargets(st.jobs[l], j);
      assert l != KeyOf(k) && jobs[l] == st.jobs[l];
    }
  }

  lemma SameTargetsJoin(e: Job, k: Job, j: Job)
    ensures SameTargets(e, k) && SameTargets(e, j) ==> SameTargets(k, j)
  {}

  lemma OtherTargetOtherKey(jobs: map<JobKey, Job>, k: Job, l: JobKey, j: Job)
    requires KeysMatch(jobs) && WellFormed(k) && l in jobs && InFlight(jobs[l]) && SameTargets(jobs[l], j)
    ensures !SameTargets(k, j) ==> l != KeyOf(k)
  {
    if l == KeyOf(k) {
      FreeTargetKey(jobs, k);
    }
  }

  /** A requeue makes its own target busy and leaves the others as they were. */
  lemma RequeueBusies(st: Store, k: Job, j: Job)
    requires KeysMatch(st.jobs) && WellFormed(k) && k.state == Pending
    ensures Busy(Upsert(st, k).0, j) <==> Busy(st, j) || SameTargets(k, j)
    ensures Upsert(st, k).0.clock == st.clock
  {
    var jobs := Upsert(st, k).0.jobs;
    UpsertedTarget(st, k);
    assert InFlight(jobs[KeyOf(k)]);
    if Busy(st, j) && !SameTargets(k, j) {
      var l :| l in st.jobs && InFlight(st.jobs[l]) && SameTargets(st.jobs[l], j);
      OtherTargetOtherKey(st.jobs, k, l, j);
      assert jobs[l] == st.jobs[l];
    }
    if Busy(Upsert(st, k).0, j) {
      var l :| l in jobs && InFlight(jobs[l]) && SameTargets(jobs[l], j);
      assert l != KeyOf(k) ==> jobs[l] == st.jobs[l];
      SameTargetsJoin(jobs[l], k, j);
    }
  }

  /** A turn of the delivery loop for any job is the one event, or none, of the run of each target. */
  lemma DeliveryIsEvent(st: Store, order: seq<JobKey>, plan: Plan, k: Job, r: SendResult, id: nat, now: int, j: Job)
    requires InSending(st, order, k) && r.outcome != OtherOutcome
    ensures ProgressOf(DeliverOne(st, order, k, r, id, now), j) ==
            AfterOption(plan, ProgressOf(st, j), EventOf(k, r, now, j))
  {
    FinishFrees(st, order, k, r, j);
    var finished := Finish(st, order, k.id, r.outcome, r.errorCode).value;
    if Retries(r) {
      RetriedDelivery(st, finished, order, plan, k, r, id, now, j);
    } else {
      FinalDelivery(st, finished, order, plan, k, r, id, now, j);
    }
  }

  ghost predicate Freed(st: Store, finished: Store, order: seq<JobKey>, k: Job, r: SendResult, j: Job) {
    && Finish(st, order, k.id, r.outcome, r.errorCode) == Some(finished)
    && KeysMatch(finished.jobs) && finished.clock == st.clock
    && (Busy(finished, j) <==> Busy(st, j) && !SameTargets(k, j)) && (SameTargets(k, j) ==> Busy(st, j))
  }

  lemma RetriedDelivery(st: Store, finished: Store, order: seq<JobKey>, plan: Plan, k: Job, r: SendResult, id: nat,
      now: int, j: Job)
    requires Freed(st, finished, order, k, r, j) && Retries(r) && WellFormed(k)
    ensures ProgressOf(DeliverOne(st, order, k, r, id, now), j) ==
            AfterOption(plan, ProgressOf(st, j), EventOf(k, r, now, j))
  {
    var retry := RetryJob(k, id, now + r.retryAfter);
    assert WellFormed(retry) && SameTargets(retry, j) == SameTargets(k, j);
    RequeueBusies(finished, retry, j);
    assert DeliverOne(st, order, k, r, id, now) == Upsert(finished, retry).0;
  }

  lemma FinalDelivery(st: Store, finished: Store, order: seq<JobKey>, plan: Plan, k: Job, r: SendResult, id: nat,
      now: int, j: Job)
    requires Freed(st, finished, order, k, r, j) && !Retries(r)
    ensures ProgressOf(DeliverOne(st, order, k, r, id, now), j) ==
            AfterOption(plan, ProgressOf(st, j), EventOf(k, r, now, j))
  {
    assert SameTargets(k, j) ==> ClockOf(k) == ClockOf(j);
    if r.outcome == Accepted {
      assert DeliverOne(st, order, k, r, id, now) == SetClock(finished, ClockOf(k), now);
    } else {
      assert DeliverOne(st, order, k, r, id, now) == finished;
    }
  }

  /** A sweep or a boot may give a waiting job up and does nothing else to the run. */
  lemma SweepOrBootIsFail(s: System, step: Step, plan: Plan, at: int, j: Job)
    requires Inv(s) && Enabled(s, step) && (step.Sweep? || step.Boot?)
    ensures var p, p' := ProgressOf(s.store, j), ProgressOf(Next(s, step).store, j);
            p' == p || p' == After(plan, p, Fail(at))
  {
    if step.Sweep? {
      SweepFewer(s.store, step.order, s.phase.rev);
    } else {
      BootFewer(s.store, step.order);
    }
    FewerBusy(s.store, Next(s, step).store, j);
  }

  lemma SweepFewer(st: Store, order: seq<JobKey>, rev: nat)
    requires IsOrder(order, st.jobs)
    ensures forall l :: l in Supersede(st, order, rev).0.jobs && InFlight(Supersede(st, order, rev).0.jobs[l]) ==>
              l in st.jobs && Supersede(st, order, rev).0.jobs[l] == st.jobs[l]
  {
    KeysWhereHold(st.jobs, order, IsStale(rev));
  }

  lemma BootFewer(st: Store, order: seq<JobKey>)
    requires IsOrder(order, st.jobs)
    ensures forall l :: l in Recover(st, order).jobs && InFlight(Recover(st, order).jobs[l]) ==>
              l in st.jobs && Recover(st, order).jobs[l] == st.jobs[l]
  {
    KeysWhereHold(st.jobs, order, IsSending());
  }

  lemma FewerBusy(st: Store, st': Store, j: Job)
    requires forall l :: l in st'.jobs && InFlight(st'.jobs[l]) ==> l in st.jobs && st'.jobs[l] == st.jobs[l]
    ensures Busy(st', j) ==> Busy(st, j)
  {}
}
