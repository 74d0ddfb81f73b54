/** What a run of the notification store has written: the stored payloads and send times are those of the last write,
    and every ended job has its record. */
module JobHistory {
  import opened Common
  import opened JobStore
  import opened JobProtocol
  import opened JobFields

  // -------------------------------------------------------------- the last write

  datatype Note = Note(payload: string, nextAttempt: int)

  /** What a step writes under a key: the enqueued job when its target is free, or the job that failed with a wait. */
  ghost function NoteOf(s: System, step: Step, key: JobKey): Option<Note> {
    match step
    case Enqueue(j) =>
      if KeyOf(j) == key && !TargetBusy(s.store, j.fingerprint, j.notification, j.platform, j.channel) then
        Some(Note(j.payload, j.nextAttempt))
      else None
    case Requeue(_, next) =>
      if s.retry.Some? && KeyOf(s.retry.value) == key then Some(Note(s.retry.value.payload, next)) else None
    case _ => None
  }

  /** What the run writes last under a key; `before` when it writes nothing. */
  ghost function LastNote(s: System, steps: seq<Step>, key: JobKey, before: Option<Note>): Option<Note>
    requires ValidRun(s, steps)
    decreases |steps|
  {
    if steps == [] then before
    else
      var note := NoteOf(s, steps[0], key);
      LastNote(Next(s, steps[0]), steps[1..], key, if note.Some? then note else before)
  }

  function Stored(st: Store, key: JobKey): Option<Note> {
    if key in st.jobs then Some(Note(st.jobs[key].payload, st.jobs[key].nextAttempt)) else None
  }

  lemma StepStores(s: System, step: Step, key: JobKey)
    requires Enabled(s, step)
    ensures var note := NoteOf(s, step, key);
            Stored(Next(s, step).store, key) == if note.Some? then note else Stored(s.store, key)
  {
    if step.Requeue? {
      assert KeyOf(RetryJob(s.retry.value, step.id, step.next)) == KeyOf(s.retry.value);
    }
  }

  /** Over every run, what is stored under a key carries the payload and the send time of the last write to it: no
      claim, sweep, delivery, crash or boot changes them. */
  lemma {:induction false} LastNoteIsStored(s: System, steps: seq<Step>, key: JobKey)
    requires ValidRun(s, steps)
    ensures Stored(Run(s, steps).store, key) == LastNote(s, steps, key, Stored(s.store, key))
    decreases |steps|
  {
    if steps != [] {
      StepStores(s, steps[0], key);
      LastNoteIsStored(Next(s, steps[0]), steps[1..], key);
    }
  }

  /** No step of the run writes under the key. */
  ghost predicate NotWritten(s: System, steps: seq<Step>, key: JobKey)
    requires ValidRun(s, steps)
    decreases |steps|
  {
    steps == [] || (NoteOf(s, steps[0], key).None? && NotWritten(Next(s, steps[0]), steps[1..], key))
  }

  lemma {:induction false} NotWrittenStays(s: System, steps: seq<Step>, key: JobKey, before: Option<Note>)
    requires ValidRun(s, steps) && NotWritten(s, steps, key)
    ensures LastNote(s, steps, key, before) == before
    decreases |steps|
  {
    if steps != [] {
      NotWrittenStays(Next(s, steps[0]), steps[1..], key, before);
    }
  }

  /** A claim takes no job before the time that was last written for its key. */
  lemma ClaimWaits(s: System, order: seq<JobKey>, now: int, limit: int, key: JobKey)
    requires Inv(s) && Enabled(s, ClaimBatch(order, now, limit))
    requires Stored(s.store, key).Some? && now < Stored(s.store, key).value.nextAttempt
    ensures forall j :: j in Next(s, ClaimBatch(order, now, limit)).batch ==> KeyOf(j) != key
  {
    var places := ClaimInFields(s.store, order, now, limit);
    var batch := Next(s, ClaimBatch(order, now, limit)).batch;
    forall j | j in batch ensures KeyOf(j) != key {
      var i :| 0 <= i < |batch| && batch[i] == j;
      var k := order[places[i]];
      assert KeyOf(s.store.jobs[k]) == k && KeyOf(j) == k;
    }
  }

  /** A job requeued for `next` is in no batch claimed before `next`, however the run goes on, unless something is
      written over it. */
  lemma BackoffIsKept(revision: nat, a: seq<Step>, id: nat, next: int, b: seq<Step>, order: seq<JobKey>, now: int,
      limit: int)
    requires ValidRun(Start(revision), a) && Enabled(Run(Start(revision), a), Requeue(id, next))
    requires var s := Run(Start(revision), a); var t := Next(s, Requeue(id, next));
             ValidRun(t, b) && NotWritten(t, b, KeyOf(s.retry.value)) &&
             Enabled(Run(t, b), ClaimBatch(order, now, limit)) && now < next
    ensures var s := Run(Start(revision), a); var t := Next(s, Requeue(id, next));
            forall j :: j in Next(Run(t, b), ClaimBatch(order, now, limit)).batch ==> KeyOf(j) != KeyOf(s.retry.value)
  {
    var s := Run(Start(revision), a);
    var t := Next(s, Requeue(id, next));
    var key := KeyOf(s.retry.value);
    StartHolds(revision);
    RunKeeps(Start(revision), a);
    NextKeeps(s, Requeue(id, next));
    RunKeeps(t, b);
    StepStores(s, Requeue(id, next), key);
    LastNoteIsStored(t, b, key);
    NotWrittenStays(t, b, key, Stored(t.store, key));
    ClaimWaits(Run(t, b), order, now, limit, key);
  }

  // ---------------------------------------------------------------- ended jobs

  /** The record tells how the job ended. */
  predicate Tells(d: Delivery, j: Job) {
    && d.jobId == j.id && d.fingerprint == j.fingerprint && d.notification == j.notification
    && d.platform == j.platform && d.period == j.period
    && (d.outcome == Accepted <==> j.state == Sent)
    && (d.outcome == DeliveryFailed <==> j.state == Failed)
    && (d.outcome == DeliveryUnknown <==> j.state == Unknown)
  }

  predicate WasSent(j: Job) { j.state == Sent || j.state == Failed || j.state == Unknown }

  ghost predicate Told(ds: seq<Delivery>, j: Job) { exists d :: d in ds && Tells(d, j) }

  ghost predicate AllTold(st: Store) {
    forall k :: k in st.jobs && WasSent(st.jobs[k]) ==> Told(st.deliveries, st.jobs[k])
  }

  lemma ToldStays(ds: seq<Delivery>, more: seq<Delivery>, j: Job)
    requires Told(ds, j) || Told(more, j)
    ensures Told(ds + more, j)
  {
    if Told(ds, j) {
      var d :| d in ds && Tells(d, j);
      assert d in ds + more;
    } else {
      var d :| d in more && Tells(d, j);
      assert d in ds + more;
    }
  }

  /** New records tell of every job that ends. */
  lemma ToldGrows(st: Store, st': Store, more: seq<Delivery>)
    requires AllTold(st) && st'.deliveries == st.deliveries + more
    requires forall k :: k in st'.jobs && WasSent(st'.jobs[k]) ==>
               (k in st.jobs && st.jobs[k] == st'.jobs[k]) || Told(more, st'.jobs[k])
    ensures AllTold(st')
  {
    forall k | k in st'.jobs && WasSent(st'.jobs[k]) ensures Told(st'.deliveries, st'.jobs[k]) {
      ToldStays(st.deliveries, more, st'.jobs[k]);
    }
  }

  /** What a delivered job and its record say. */
  lemma DeliverInFields(s: System, step: Step)
    requires Inv(s) && step.Deliver? && Enabled(s, step)
    ensures var t := Next(s, step); var j := s.batch[0];
            var ended := j.(state := if step.outcome == Accepted then Sent
                                     else if step.outcome == DeliveryFailed then Failed else Unknown);
            && KeyOf(j) in s.store.jobs && s.store.jobs[KeyOf(j)] == j
            && t.store.jobs == s.store.jobs[KeyOf(j) := ended]
            && t.store.deliveries == s.store.deliveries + [Delivery(j.id, j.fingerprint, j.notification, j.platform,
                                                           j.period, step.outcome, step.errorCode)]
            && t.store.clock == s.store.clock && t.store.revision == s.store.revision
            && t.batch == s.batch[1..]
            && t.retry == (if step.outcome == DeliveryFailed && step.retryAfter then Some(j) else None)
  {
    var j := s.batch[0];
    assert j in s.batch;
    FindById(s.store.jobs, step.order, KeyOf(j));
  }

  /** The records a boot writes, by index. */
  lemma {:induction false} RecoveryIndex(jobs: map<JobKey, Job>, keys: seq<JobKey>)
    requires forall k :: k in keys ==> k in jobs
    ensures var records := RecoveryRecords(jobs, keys);
            |records| == |keys| && forall i :: 0 <= i < |keys| ==>
              records[i] == Delivery(jobs[keys[i]].id, jobs[keys[i]].fingerprint, jobs[keys[i]].notification,
                                     jobs[keys[i]].platform, jobs[keys[i]].period, DeliveryUnknown,
                                     "restart_during_send")
  {
    if keys != [] {
      RecoveryIndex(jobs, keys[1..]);
    }
  }

  /** Recovery gives up exactly the jobs that were being sent, each with one record of its own. */
  lemma RecoverInFields(st: Store, order: seq<JobKey>) returns (keys: seq<JobKey>)
    requires IsOrder(order, st.jobs)
    ensures Distinct(keys) && forall k :: k in keys <==> k in st.jobs && st.jobs[k].state == Sending
    ensures var st' := Recover(st, order);
            && st'.clock == st.clock && st'.revision == st.revision
            && |st'.deliveries| == |st.deliveries| + |keys| && st.deliveries <= st'.deliveries
            && (forall i :: 0 <= i < |keys| ==>
                  var j := st.jobs[keys[i]];
                  st'.deliveries[|st.deliveries| + i] ==
                  Delivery(j.id, j.fingerprint, j.notification, j.platform, j.period, DeliveryUnknown,
                           "restart_during_send"))
            && st'.jobs.Keys == st.jobs.Keys
            && (forall k :: k in st.jobs ==>
                  st'.jobs[k] == if st.jobs[k].state == Sending then st.jobs[k].(state := Unknown) else st.jobs[k])
  {
    keys := KeysWhere(st.jobs, order, IsSending());
    KeysWhereHold(st.jobs, order, IsSending());
    RecoveryIndex(st.jobs, keys);
  }

  lemma DeliverTold(s: System, step: Step)
    requires Inv(s) && step.Deliver? && Enabled(s, step) && AllTold(s.store)
    ensures AllTold(Next(s, step).store)
  {
    var t, j := Next(s, step), s.batch[0];
    DeliverInFields(s, step);
    var d := Delivery(j.id, j.fingerprint, j.notification, j.platform, j.period, step.outcome, step.errorCode);
    assert d in [d] && Tells(d, t.store.jobs[KeyOf(j)]);
    ToldGrows(s.store, t.store, [d]);
  }

  lemma BootTold(st: Store, order: seq<JobKey>)
    requires IsOrder(order, st.jobs) && AllTold(st)
    ensures AllTold(Recover(st, order))
  {
    var keys := RecoverInFields(st, order);
    var st' := Recover(st, order);
    var records := st'.deliveries[|st.deliveries|..];
    forall k | k in st'.jobs && WasSent(st'.jobs[k])
      ensures (k in st.jobs && st.jobs[k] == st'.jobs[k]) || Told(records, st'.jobs[k])
    {
      if st.jobs[k].state == Sending {
        var i :| 0 <= i < |keys| && keys[i] == k;
        assert records[i] == st'.deliveries[|st.deliveries| + i] && records[i] in records;
        assert Tells(records[i], st'.jobs[k]);
      }
    }
    ToldGrows(st, st', records);
  }

  lemma ClaimTold(s: System, step: Step)
    requires Inv(s) && step.ClaimBatch? && Enabled(s, step) && AllTold(s.store)
    ensures AllTold(Next(s, step).store)
  {
    var due := ClaimFacts(s, step.order, step.now, step.limit);
    NothingNew(s.store, Next(s, step).store);
  }

  /** Without a new record no job may come to an end. */
  lemma NothingNew(st: Store, st': Store)
    requires AllTold(st) && st'.deliveries == st.deliveries
    requires forall k :: k in st'.jobs && WasSent(st'.jobs[k]) ==> k in st.jobs && st.jobs[k] == st'.jobs[k]
    ensures AllTold(st')
  {
    assert st'.deliveries == st.deliveries + [];
    ToldGrows(st, st', []);
  }

  lemma SweepTold(s: System, order: seq<JobKey>)
    requires Enabled(s, Sweep(order)) && AllTold(s.store)
    ensures AllTold(Next(s, Sweep(order)).store)
  {
    KeysWhereHold(s.store.jobs, order, IsStale(s.phase.rev));
    NothingNew(s.store, Next(s, Sweep(order)).store);
  }

  lemma OtherTold(s: System, step: Step)
    requires Enabled(s, step) && AllTold(s.store)
    requires !step.Deliver? && !step.Boot? && !step.ClaimBatch? && !step.Sweep?
    ensures AllTold(Next(s, step).store)
  {
    NothingNew(s.store, Next(s, step).store);
  }

  lemma ToldKeeps(s: System, step: Step)
    requires Inv(s) && Enabled(s, step) && AllTold(s.store)
    ensures AllTold(Next(s, step).store)
  {
    match step {
      case Deliver(_, _, _, _) => DeliverTold(s, step);
      case Boot(order) => BootTold(s.store, order);
      case ClaimBatch(_, _, _) => ClaimTold(s, step);
      case Sweep(order) => SweepTold(s, order);
      case _ => OtherTold(s, step);
    }
  }

  lemma {:induction false} RunTold(s: System, steps: seq<Step>)
    requires Inv(s) && EndedNoted(s) && AllTold(s.store) && ValidRun(s, steps)
    ensures AllTold(Run(s, steps).store)
    decreases |steps|
  {
    if steps != [] {
      NextKeeps(s, steps[0]);
      ToldKeeps(s, steps[0]);
      RunTold(Next(s, steps[0]), steps[1..]);
    }
  }

  /** After every run a job that is sent, failed or unknown has a record with its target and period that says the
      same; with `ExactlyOneRecord` it is its only one. */
  lemma EndedJobsAreTold(revision: nat, steps: seq<Step>, key: JobKey)
    requires ValidRun(Start(revision), steps)
    ensures var st := Run(Start(revision), steps).store;
            key in st.jobs && WasSent(st.jobs[key]) ==> exists d :: d in st.deliveries && Tells(d, st.jobs[key])
  {
    StartHolds(revision);
    RunTold(Start(revision), steps);
    var st := Run(Start(revision), steps).store;
    if key in st.jobs && WasSent(st.jobs[key]) {
      assert Told(st.deliveries, st.jobs[key]);
    }
  }
}
