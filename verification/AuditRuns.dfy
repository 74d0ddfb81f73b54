/** What the audit reader reports after any run of operations, torn writes and restarts. */
module AuditRuns {
  import opened Common
  import opened AuditJournal
  import opened AuditReader
  import opened AuditFields

  /** What became of an operation whose start was confirmed. The last two belong to an earlier process. */
  datatype Status =
    | Open(path: string, start: Event)
    | Done(path: string, start: Event, fin: Event)
    | Doubtful(path: string, start: Event, fin: Event)
    | Lost(path: string, start: Event)
    | Undecided(path: string, start: Event, fin: Event)

  datatype System = System(journal: Journal, used: set<string>, status: map<string, Status>)

  datatype Step =
    | Begins(path: string, id: string, event: Event, at: int, io: Disk)
    | Finishes(id: string, event: Event, at: int, io: Disk)
    | Restart

  function TicketOf(id: string, st: Status): Ticket { Ticket(id, st.path, st.start.at) }

  /** IDs are fresh; a ticket is finished once, in the process that began it. */
  predicate Enabled(c: Codec, s: System, step: Step) {
    match step
    case Begins(path, id, event, at, io) => id !in s.used && Accepts(c, s.journal, path, StartOf(event, id, at), io)
    case Finishes(id, event, at, io) =>
      id in s.status && s.status[id].Open? && Accepts(c, s.journal, s.status[id].path, FinishOf(event, id, at), io)
    case Restart => true
  }

  function Forgotten(st: Status): Status {
    match st
    case Open(path, start) => Lost(path, start)
    case Doubtful(path, start, fin) => Undecided(path, start, fin)
    case _ => st
  }

  function Next(c: Codec, s: System, step: Step): System
    requires Enabled(c, s, step)
  {
    match step
    case Begins(path, id, event, at, io) =>
      var start := StartOf(event, id, at);
      System(Begin(c, s.journal, path, id, event, at, io), s.used + {id},
             if Confirmed(c, s.journal, path, start, io) then s.status[id := Open(path, start)] else s.status)
    case Finishes(id, event, at, io) =>
      var st, fin := s.status[id], FinishOf(event, id, at);
      s.(journal := Finish(c, s.journal, TicketOf(id, st), event, at, io),
         status := s.status[id := if Confirmed(c, s.journal, st.path, fin, io) then Done(st.path, st.start, fin)
                                  else Doubtful(st.path, st.start, fin)])
    case Restart =>
      s.(journal := Journal(s.journal.files, map[], map[]),
          status := map id | id in s.status :: Forgotten(s.status[id]))
  }

  ghost predicate ValidRun(c: Codec, s: System, steps: seq<Step>)
    decreases |steps|
  {
    steps == [] || (Enabled(c, s, steps[0]) && ValidRun(c, Next(c, s, steps[0]), steps[1..]))
  }

  ghost function Run(c: Codec, s: System, steps: seq<Step>): System
    requires ValidRun(c, s, steps)
    decreases |steps|
  {
    if steps == [] then s else Run(c, Next(c, s, steps[0]), steps[1..])
  }

  // -------------------------------------------------------------- the invariant

  /** The events of one operation: those the reader finds, and those it would find after one more newline. */
  function Found(c: Codec, files: map<string, Bytes>, path: string, id: string): seq<Event> {
    EventsOf(Decoded(c, FileAt(files, path)), id)
  }

  function Pending(c: Codec, files: map<string, Bytes>, path: string, id: string): seq<Event> {
    EventsOf(Flushed(c, FileAt(files, path)), id)
  }

  predicate MayHaveFinished(start: Event, fin: Event, events: seq<Event>) {
    events == [start] || events == [start, fin]
  }

  predicate Holds(st: Status, found: seq<Event>, pending: seq<Event>) {
    match st
    case Open(_, start) => found == [start] && pending == [start]
    case Lost(_, start) => found == [start] && pending == [start]
    case Done(_, start, fin) => found == [start, fin] && pending == [start, fin]
    case Doubtful(_, start, fin) => MayHaveFinished(start, fin, found) && MayHaveFinished(start, fin, pending)
    case Undecided(_, start, fin) => MayHaveFinished(start, fin, found) && MayHaveFinished(start, fin, pending)
  }

  predicate Labelled(id: string, st: Status) {
    && st.start.id == id && st.start.phase == "start"
    && (!st.Open? && !st.Lost? ==> st.fin.id == id && st.fin.phase == "finish")
  }

  /** The file of an operation holds what its status says. */
  predicate OnFile(c: Codec, files: map<string, Bytes>, id: string, st: Status) {
    Labelled(id, st) && Holds(st, Found(c, files, st.path, id), Pending(c, files, st.path, id))
  }

  ghost predicate Unused(c: Codec, s: System) {
    forall path, id :: id !in s.used ==> Pending(c, s.journal.files, path, id) == []
  }

  ghost predicate Tracked(c: Codec, s: System) {
    forall id :: id in s.status ==> id in s.used && OnFile(c, s.journal.files, id, s.status[id])
  }

  ghost predicate Tabled(s: System) {
    && (forall id, path :: IsRunning(s.journal.running, id, path) <==>
          id in s.status && s.status[id].Open? && s.status[id].path == path)
    && (forall id, path :: IsRunning(s.journal.unconfirmed, id, path) <==>
          id in s.status && s.status[id].Doubtful? && s.status[id].path == path)
  }

  ghost predicate Inv(c: Codec, s: System) { Unused(c, s) && Tracked(c, s) && Tabled(s) }

  /** Any files may be there at first; the IDs in them are used. */
  ghost predicate Start(c: Codec, s: System) {
    s.status == map[] && s.journal.running == map[] && s.journal.unconfirmed == map[] && Unused(c, s)
  }

  /** One append leaves the events of every other operation alone, and adds at most its own. */
  lemma AppendEvents(c: Codec, d: Bytes, e: Event, io: Disk, id: string)
    requires ValidCodec(c) && Possible(io, RawLine(c, d, e))
    ensures var d' := AfterAppend(c, d, e, io); var own := if id == e.id then [e] else [];
            var found, pending := EventsOf(Decoded(c, d), id), EventsOf(Flushed(c, d), id);
            && (EventsOf(Flushed(c, d'), id) == pending || EventsOf(Flushed(c, d'), id) == pending + own)
            && (EventsOf(Decoded(c, d'), id) == found || EventsOf(Decoded(c, d'), id) == pending ||
                EventsOf(Decoded(c, d'), id) == pending + own)
            && (Succeeds(io, RawLine(c, d, e)) ==>
                  EventsOf(Flushed(c, d'), id) == pending + own && EventsOf(Decoded(c, d'), id) == pending + own)
  {
    var raw := RawLine(c, d, e);
    if Landed(io) > 0 {
      AppendDecoded(c, d, e, Landed(io));
      OneMore(Flushed(c, d), e, id);
      assert Flushed(c, d) + [] == Flushed(c, d);
    } else {
      assert d + raw[..0] == d;
    }
  }

  lemma OneMore(events: seq<Event>, e: Event, id: string)
    ensures EventsOf(events + [e], id) == EventsOf(events, id) + if id == e.id then [e] else []
  {
    EventsOfConcat(events, [e], id);
    assert [e][1..] == [];
  }

  /** An operation that is not the one appended to. */
  lemma OtherOnFile(c: Codec, j: Journal, path: string, e: Event, io: Disk, id: string, st: Status)
    requires ValidCodec(c) && Accepts(c, j, path, e, io) && OnFile(c, j.files, id, st) && id != e.id
    ensures OnFile(c, Append(c, j, path, e, io).files, id, st)
  {
    if st.path == path {
      var files' := Append(c, j, path, e, io).files;
      AppendEvents(c, FileAt(j.files, path), e, io, id);
      HoldsStays(st, Found(c, j.files, path, id), Pending(c, j.files, path, id), Found(c, files', path, id),
          Pending(c, files', path, id));
    }
  }

  lemma HoldsStays(st: Status, found: seq<Event>, pending: seq<Event>, found': seq<Event>, pending': seq<Event>)
    requires Holds(st, found, pending)
    requires pending' == pending || pending' == pending + []
    requires found' == found || found' == pending || found' == pending + []
    ensures Holds(st, found', pending')
  {
    assert pending + [] == pending;
  }

  lemma OtherUnused(c: Codec, j: Journal, path: string, e: Event, io: Disk, id: string, q: string)
    requires ValidCodec(c) && Accepts(c, j, path, e, io) && id != e.id && Pending(c, j.files, q, id) == []
    ensures Pending(c, Append(c, j, path, e, io).files, q, id) == []
  {
    AppendEvents(c, FileAt(j.files, path), e, io, id);
  }

  lemma StartOnFile(c: Codec, j: Journal, path: string, e: Event, io: Disk)
    requires ValidCodec(c) && Accepts(c, j, path, e, io) && e.phase == "start" && Pending(c, j.files, path, e.id) == []
    requires Confirmed(c, j, path, e, io)
    ensures OnFile(c, Append(c, j, path, e, io).files, e.id, Open(path, e))
  {
    AppendEvents(c, FileAt(j.files, path), e, io, e.id);
    assert [] + [e] == [e];
  }

  lemma FinishOnFile(c: Codec, j: Journal, st: Status, e: Event, io: Disk)
    requires ValidCodec(c) && st.Open? && Accepts(c, j, st.path, e, io) && OnFile(c, j.files, e.id, st) &&
             e.phase == "finish"
    ensures OnFile(c, Append(c, j, st.path, e, io).files, e.id,
              if Confirmed(c, j, st.path, e, io) then Done(st.path, st.start, e) else Doubtful(st.path, st.start, e))
  {
    AppendEvents(c, FileAt(j.files, st.path), e, io, e.id);
    assert [st.start] + [e] == [st.start, e];
  }

  /** The other operations of a step that appends `e`. */
  lemma OthersKeep(c: Codec, s: System, t: System, path: string, e: Event, io: Disk)
    requires ValidCodec(c) && Inv(c, s) && Accepts(c, s.journal, path, e, io)
    requires t.journal.files == Append(c, s.journal, path, e, io).files && t.used == s.used + {e.id}
    requires forall id :: id != e.id ==> (id in t.status <==> id in s.status)
    requires forall id :: id != e.id && id in s.status ==> t.status[id] == s.status[id]
    ensures Unused(c, t)
    ensures forall id :: id != e.id && id in t.status ==> id in t.used && OnFile(c, t.journal.files, id, t.status[id])
  {
    forall q, id | id !in t.used ensures Pending(c, t.journal.files, q, id) == [] {
      OtherUnused(c, s.journal, path, e, io, id, q);
    }
    forall id | id != e.id && id in t.status ensures id in t.used && OnFile(c, t.journal.files, id, t.status[id]) {
      OtherOnFile(c, s.journal, path, e, io, id, s.status[id]);
    }
  }

  lemma BeginKeeps(c: Codec, s: System, step: Step)
    requires ValidCodec(c) && Inv(c, s) && step.Begins? && Enabled(c, s, step)
    ensures Inv(c, Next(c, s, step))
  {
    var t := Next(c, s, step);
    var start := StartOf(step.event, step.id, step.at);
    OthersKeep(c, s, t, step.path, start, step.io);
    if Confirmed(c, s.journal, step.path, start, step.io) {
      StartOnFile(c, s.journal, step.path, start, step.io);
    }
    BeginTables(c, s, step);
  }

  lemma BeginTables(c: Codec, s: System, step: Step)
    requires Tabled(s) && step.Begins? && Enabled(c, s, step) && step.id !in s.status
    ensures Tabled(Next(c, s, step))
  {
    var t := Next(c, s, step);
    assert forall path :: !IsRunning(s.journal.running, step.id, path);
    assert step.id in s.journal.running ==> IsRunning(s.journal.running, step.id, s.journal.running[step.id]);
    forall id, path | id != step.id
      ensures IsRunning(t.journal.running, id, path) == IsRunning(s.journal.running, id, path)
    {}
  }

  lemma FinishKeeps(c: Codec, s: System, step: Step)
    requires ValidCodec(c) && Inv(c, s) && step.Finishes? && Enabled(c, s, step)
    ensures Inv(c, Next(c, s, step))
  {
    var t := Next(c, s, step);
    var st, fin := s.status[step.id], FinishOf(step.event, step.id, step.at);
    OthersKeep(c, s, t, st.path, fin, step.io);
    FinishOnFile(c, s.journal, st, fin, step.io);
    FinishTables(c, s, step);
  }

  lemma FinishTables(c: Codec, s: System, step: Step)
    requires Tabled(s) && step.Finishes? && Enabled(c, s, step)
    ensures Tabled(Next(c, s, step))
  {
    var t := Next(c, s, step);
    assert !IsRunning(s.journal.unconfirmed, step.id, s.status[step.id].path);
    assert step.id in s.journal.unconfirmed ==> IsRunning(s.journal.unconfirmed, step.id,
           s.journal.unconfirmed[step.id]);
    forall id, path | id != step.id
      ensures IsRunning(t.journal.running, id, path) == IsRunning(s.journal.running, id, path)
      ensures IsRunning(t.journal.unconfirmed, id, path) == IsRunning(s.journal.unconfirmed, id, path)
    {}
  }

  lemma RestartKeeps(c: Codec, s: System)
    requires Inv(c, s)
    ensures Inv(c, Next(c, s, Restart))
  {
    var t := Next(c, s, Restart);
    forall id | id in t.status ensures id in t.used && OnFile(c, t.journal.files, id, t.status[id]) {
      ForgottenOnFile(c, s.journal.files, id, s.status[id]);
    }
    RestartTables(c, s);
  }

  lemma ForgottenOnFile(c: Codec, files: map<string, Bytes>, id: string, st: Status)
    requires OnFile(c, files, id, st)
    ensures OnFile(c, files, id, Forgotten(st))
  {}

  lemma RestartTables(c: Codec, s: System)
    ensures Tabled(Next(c, s, Restart))
  {}

  lemma {:induction false} RunKeeps(c: Codec, s: System, steps: seq<Step>)
    requires ValidCodec(c) && Inv(c, s) && ValidRun(c, s, steps)
    ensures Inv(c, Run(c, s, steps))
    decreases |steps|
  {
    if steps != [] {
      match steps[0] {
        case Begins(_, _, _, _, _) => BeginKeeps(c, s, steps[0]);
        case Finishes(_, _, _, _) => FinishKeeps(c, s, steps[0]);
        case Restart => RestartKeeps(c, s);
      }
      RunKeeps(c, Next(c, s, steps[0]), steps[1..]);
    }
  }

  // ---------------------------------------------------------- what is reported

  /** What the reader must say of an operation, field by field, from how its run went and not from the file. */
  ghost predicate Says(st: Status, item: Item) {
    var start := st.start;
    match st
    case Open(_, _) => IsBegun(item, start, "running")
    case Lost(_, _) => IsBegun(item, start, "unknown")
    case Done(_, _, fin) =>
      if ValidEvent(fin) && start.at <= fin.at then IsEnded(item, start, fin) else IsBegun(item, start, "unknown")
    case Doubtful(_, _, fin) => IsInDoubt(item, start, fin)
    case Undecided(_, _, fin) =>
      IsBegun(item, start, "unknown") || (ValidEvent(fin) && start.at <= fin.at && IsEnded(item, start, fin))
  }

  lemma FollowPair(start: Event, fin: Event, running: bool)
    requires start.phase == "start" && ValidEvent(start) && fin.phase == "finish"
    ensures Follow(None, [start], running) == Some(StartItem(start, running))
    ensures Follow(None, [start, fin], running) ==
            Some(if ValidEvent(fin) && start.at <= fin.at then Finished(StartItem(start, running), fin)
                else StartItem(start, running))
  {
    FollowOne(None, start, running);
    assert [start, fin][1..] == [fin];
    assert fin.phase[0] == 'f' && start.phase[0] == 's';
    FollowOne(Some(StartItem(start, running)), fin, running);
  }

  lemma FollowOne(item: Option<Item>, e: Event, running: bool)
    ensures Follow(item, [e], running) ==
            var next := Absorb(item, e, running); if next.Ok? then Some(next.value) else item
  {
    assert [e][1..] == [];
  }

  lemma ReportSays(st: Status, found: seq<Event>, pending: seq<Event>, id: string)
    requires Holds(st, found, pending) && Labelled(id, st) && ValidEvent(st.start)
    ensures var item := ReportOf(found, st.Open?, st.Doubtful?); item.Some? && Says(st, item.value)
  {
    var fin := if st.Open? || st.Lost? then FinishOf(st.start, id, 0) else st.fin;
    FollowPair(st.start, fin, st.Open?);
    var begun, outcome := StartItem(st.start, st.Open?), if st.Open? then "running" else "unknown";
    StartedItem(st.start, st.Open?);
    FinishedItem(begun, st.start, fin, outcome);
    DoubtedItem(begun, st.start, fin, outcome);
    DoubtedItem(Finished(begun, fin), st.start, fin, outcome);
  }

  /** After any run, whatever was torn: an operation still open in this process is running, a confirmed finish is
      reported as written, an unconfirmed one as unknown even when its line is complete, and after a restart the
      complete lines alone decide. */
  lemma RunIsReported(c: Codec, s: System, steps: seq<Step>, id: string)
    requires ValidCodec(c) && Start(c, s) && ValidRun(c, s, steps)
    requires id in Run(c, s, steps).status && ValidEvent(Run(c, s, steps).status[id].start)
    ensures var t := Run(c, s, steps); var report := Report(c, t.journal, t.status[id].path);
            id in report && Says(t.status[id], report[id])
  {
    RunKeeps(c, s, steps);
    var t := Run(c, s, steps);
    var st := t.status[id];
    ReportIs(c, t.journal, st.path, id);
    assert IsRunning(t.journal.running, id, st.path) <==> st.Open?;
    assert IsRunning(t.journal.unconfirmed, id, st.path) <==> st.Doubtful?;
    ReportSays(st, Found(c, t.journal.files, st.path, id), Pending(c, t.journal.files, st.path, id), id);
  }

  /** In particular a finish whose append failed is never reported as what it says. */
  lemma UnconfirmedIsUnknown(c: Codec, s: System, steps: seq<Step>, id: string)
    requires ValidCodec(c) && Start(c, s) && ValidRun(c, s, steps)
    requires id in Run(c, s, steps).status && ValidEvent(Run(c, s, steps).status[id].start)
    requires Run(c, s, steps).status[id].Doubtful?
    ensures var t := Run(c, s, steps); var report := Report(c, t.journal, t.status[id].path);
            id in report && report[id].outcome == "unknown" && report[id].changed == None &&
            report[id].finishedAt == None && report[id].errorCode == "audit_write_failed"
  {
    RunIsReported(c, s, steps, id);
  }

  lemma {:induction false} RunOneMore(c: Codec, s: System, steps: seq<Step>, step: Step)
    requires ValidRun(c, s, steps) && Enabled(c, Run(c, s, steps), step)
    ensures ValidRun(c, s, steps + [step]) && Run(c, s, steps + [step]) == Next(c, Run(c, s, steps), step)
    decreases |steps|
  {
    if steps == [] {
      assert steps + [step] == [step] && [step][1..] == [];
    } else {
      assert (steps + [step])[1..] == steps[1..] + [step];
      RunOneMore(c, Next(c, s, steps[0]), steps[1..], step);
    }
  }

  /** How many bytes an append of the event writes: the line, its newline, and one more behind a torn line. */
  function FullLength(c: Codec, file: Bytes, e: Event): nat {
    |c.encode(e)| + 1 + if file != [] && file[|file| - 1] != LF then 1 else 0
  }

  /** A finish whose every byte was written and synced ends the operation as it says. One that was refused, cut short,
      or met a write or sync error leaves the operation unknown, even if its whole line is in the file. */
  lemma FinishIsReported(c: Codec, s: System, steps: seq<Step>, step: Step)
    requires ValidCodec(c) && Start(c, s) && ValidRun(c, s, steps)
    requires step.Finishes? && Enabled(c, Run(c, s, steps), step)
    requires ValidEvent(Run(c, s, steps).status[step.id].start)
    ensures var before, after := Run(c, s, steps), Next(c, Run(c, s, steps), step);
            var path, start := before.status[step.id].path, before.status[step.id].start;
            var fin, report := FinishOf(step.event, step.id, step.at), Report(c, after.journal, path);
            step.id in report &&
            if step.io.Wrote? && step.io.landed == FullLength(c, FileAt(before.journal.files, path), fin) &&
               !step.io.writeError && !step.io.syncError
            then
              ValidEvent(fin) && start.at <= fin.at ==> IsEnded(report[step.id], start, fin)
            else IsInDoubt(report[step.id], start, fin)
  {
    RunOneMore(c, s, steps, step);
    RunIsReported(c, s, steps + [step], step.id);
  }
}
