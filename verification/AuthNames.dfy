/** The shared cache of credential names: one fetch at a time, and updates that outdate the fetch under way. */
module AuthNames {
  import opened Common

  datatype Name = Name(identity: string, authIndex: string, alias: string, display: string)

  datatype Response = Response(status: string, items: seq<Name>, fetchedAt: nat, errorCode: string,
      retryAfterSeconds: int)

  datatype Fetched = Names(items: seq<Name>) | FetchFailed(code: string, retryAfter: int)

  /** Times are nanoseconds since Go's zero time, so an unset time is 0. */
  datatype Service = Service(cached: Response, validUntil: nat, retryUntil: nat, flight: Option<nat>, generation: nat)

  /** What the first critical section of `get` decides. */
  datatype Decision = Answer(response: Response) | Join(flight: nat) | Lead(flight: nat, generation: nat)

  const FRESH: Service := Service(Response("", [], 0, "", 0), 0, 0, None, 0)

  function Unavailable(code: string): Response { Response("unavailable", [], 0, code, 0) }

  /** The least whole number of seconds that covers a positive wait. */
  function WholeSeconds(wait: nat): (s: nat)
    ensures s * SECOND >= wait && (s > 0 ==> (s - 1) * SECOND < wait)
  {
    (wait + SECOND - 1) / SECOND
  }

  function Enter(sv: Service, force: bool, now: nat, newFlight: nat): (Service, Decision) {
    if now < sv.retryUntil then (sv, Answer(sv.cached.(retryAfterSeconds := WholeSeconds(sv.retryUntil - now))))
    else if !force && sv.cached.status == "ready" && now < sv.validUntil then (sv, Answer(sv.cached))
    else if sv.flight.Some? then (sv, Join(sv.flight.value))
    else (sv.(flight := Some(newFlight)), Lead(newFlight, sv.generation))
  }

  function Cooldown(f: Fetched): int {
    if f.Names? then 0
    else if f.code == "authentication_failed" then 60 * SECOND
    else if f.code == "rate_limited" then f.retryAfter
    else 0
  }

  function Result(f: Fetched, now: nat): Response {
    if f.Names? then Response("ready", f.items, now, "", 0)
    else if Cooldown(f) > 0 then Unavailable(f.code).(retryAfterSeconds := WholeSeconds(Cooldown(f)))
    else Unavailable(f.code)
  }

  /** The second critical section of the leader of a flight begun at `generation`. */
  function Complete(sv: Service, generation: nat, f: Fetched, now: nat): (Service, Response) {
    if generation != sv.generation then (sv.(flight := None), sv.cached)
    else
      (sv.(cached := Result(f, now), flight := None,
           validUntil := if f.Names? then now + 60 * SECOND else 0,
           retryUntil := if Cooldown(f) > 0 then now + Cooldown(f) else 0),
       Result(f, now))
  }

  function Publish(sv: Service, items: Option<seq<Name>>, now: nat): Service {
    sv.(generation := sv.generation + 1, retryUntil := 0,
        validUntil := if items.Some? then now + 60 * SECOND else 0,
        cached := if items.Some? then Response("ready", items.value, now, "", 0) else Unavailable("refresh_required"))
  }

  class NameService {
    var cached: Response
    var validUntil: nat
    var retryUntil: nat
    var flight: Option<nat>
    var generation: nat

    function State(): Service
      reads this
    {
      Service(cached, validUntil, retryUntil, flight, generation)
    }

    constructor ()
      ensures State() == FRESH
    {
      cached := Response("", [], 0, "", 0);
      validUntil, retryUntil, flight, generation := 0, 0, None, 0;
    }

    method EnterGet(force: bool, now: nat, newFlight: nat) returns (d: Decision)
      modifies `flight
      ensures (State(), d) == Enter(old(State()), force, now, newFlight)
    {
      if now < retryUntil {
        var result := cached;
        result := result.(retryAfterSeconds := WholeSeconds(retryUntil - now));
        return Answer(result);
      }
      if !force && cached.status == "ready" && now < validUntil {
        return Answer(cached);
      }
      if flight.Some? {
        return Join(flight.value);
      }
      flight := Some(newFlight);
      d := Lead(newFlight, generation);
    }

    method CompleteGet(begun: nat, f: Fetched, now: nat) returns (result: Response)
      modifies `cached, `validUntil, `retryUntil, `flight
      ensures (State(), result) == Complete(old(State()), begun, f, now)
    {
      if begun != generation {
        flight := None;
        return cached;
      }
      validUntil, retryUntil := 0, 0;
      match f {
        case Names(items) =>
          result := Response("ready", items, now, "", 0);
          validUntil := now + 60 * SECOND;
        case FetchFailed(code, retryAfter) =>
          result := Unavailable(code);
          var cooldown := 0;
          if code == "authentication_failed" {
            cooldown := 60 * SECOND;
          }
          if code == "rate_limited" {
            cooldown := retryAfter;
          }
          if cooldown > 0 {
            retryUntil := now + cooldown;
            result := result.(retryAfterSeconds := WholeSeconds(cooldown));
          }
      }
      cached := result;
      flight := None;
    }

    method PublishUpdate(items: Option<seq<Name>>, now: nat)
      modifies `cached, `validUntil, `retryUntil, `generation
      ensures State() == Publish(old(State()), items, now)
    {
      generation := generation + 1;
      validUntil, retryUntil := 0, 0;
      cached := Unavailable("refresh_required");
      if items.Some? {
        cached := Response("ready", items.value, now, "", 0);
        validUntil := now + 60 * SECOND;
      }
    }
  }

  // ------------------------------------------------------- readers and updates

  /** `since` is the generation a reader came in at; `origin` the one its answer dates from: the generation at
      which the fetch behind it began, or which the update behind it opened. */
  datatype Reader =
    | Waiting(flight: nat, since: nat)
    | Leading(flight: nat, begun: nat, since: nat)
    | Answered(response: Response, origin: nat, since: nat)
    | TimedOut

  datatype System = System(service: Service, origin: nat, readers: map<nat, Reader>, results: map<nat, (Response, nat)>)

  datatype Step =
    | Enters(reader: nat, force: bool, now: nat, flight: nat)
    | Completes(reader: nat, fetched: Fetched, now: nat)
    | Wakes(reader: nat)
    | GivesUp(reader: nat)
    | Publishes(items: Option<seq<Name>>, now: nat)

  const START: System := System(FRESH, 0, map[], map[])

  predicate IsLeading(s: System, reader: nat) { reader in s.readers && s.readers[reader].Leading? }

  predicate IsWaiting(s: System, reader: nat) { reader in s.readers && s.readers[reader].Waiting? }

  predicate Enabled(s: System, step: Step) {
    match step
    case Enters(reader, _, _, flight) => reader !in s.readers && flight !in s.results &&
         s.service.flight != Some(flight)
    case Completes(reader, _, _) => IsLeading(s, reader)
    case Wakes(reader) => IsWaiting(s, reader) && s.readers[reader].flight in s.results
    case GivesUp(reader) => IsWaiting(s, reader)
    case Publishes(_, _) => true
  }

  function Next(s: System, step: Step): System
    requires Enabled(s, step)
  {
    match step
    case Enters(reader, force, now, flight) =>
      var (service, d) := Enter(s.service, force, now, flight);
      var since := s.service.generation;
      s.(service := service,
         readers := s.readers[reader := match d
                                        case Answer(response) => Answered(response, s.origin, since)
                                        case Join(f) => Waiting(f, since)
                                        case Lead(f, g) => Leading(f, g, since)])
    case Completes(reader, fetched, now) =>
      var r := s.readers[reader];
      var (service, response) := Complete(s.service, r.begun, fetched, now);
      var origin := if r.begun == s.service.generation then r.begun else s.origin;
      System(service, origin, s.readers[reader := Answered(response, origin, r.since)],
          s.results[r.flight := (response, origin)])
    case Wakes(reader) =>
      var r := s.readers[reader];
      s.(readers := s.readers[reader := Answered(s.results[r.flight].0, s.results[r.flight].1, r.since)])
    case GivesUp(reader) => s.(readers := s.readers[reader := TimedOut])
    case Publishes(items, now) => s.(service := Publish(s.service, items, now), origin := s.service.generation + 1)
  }

  ghost predicate ValidRun(s: System, steps: seq<Step>)
    decreases |steps|
  {
    steps == [] || (Enabled(s, steps[0]) && ValidRun(Next(s, steps[0]), steps[1..]))
  }

  ghost function Run(s: System, steps: seq<Step>): System
    requires ValidRun(s, steps)
    decreases |steps|
  {
    if steps == [] then s else Run(Next(s, steps[0]), steps[1..])
  }

  // -------------------------------------------------------------- the invariant

  ghost predicate OneLeader(s: System) {
    && (forall r, q :: IsLeading(s, r) && IsLeading(s, q) ==> r == q)
    && (forall r :: IsLeading(s, r) ==> s.service.flight == Some(s.readers[r].flight))
    && (s.service.flight.Some? ==> exists r :: IsLeading(s, r))
    && (s.service.flight.Some? ==> s.service.flight.value !in s.results)
  }

  predicate ReaderHolds(s: System, r: Reader) {
    match r
    case Waiting(f, since) =>
      since <= s.service.generation && (s.service.flight == Some(f) || (f in s.results && s.results[f].1 >= since))
    case Leading(_, begun, since) => begun == since <= s.service.generation
    case Answered(_, origin, since) => origin >= since
    case TimedOut => true
  }

  ghost predicate Inv(s: System) {
    s.origin == s.service.generation && OneLeader(s) && forall r :: r in s.readers ==> ReaderHolds(s, s.readers[r])
  }

  lemma OneLeaderKeeps(s: System, step: Step)
    requires Inv(s) && Enabled(s, step)
    ensures OneLeader(Next(s, step))
  {
    var t := Next(s, step);
    match step {
      case Enters(reader, _, _, _) =>
        assert forall r :: r != reader ==> IsLeading(t, r) == IsLeading(s, r);
        if IsLeading(t, reader) {
          assert s.service.flight.None? && forall r :: !IsLeading(s, r);
        } else if r :| IsLeading(s, r) {
          assert IsLeading(t, r);
        }
      case Completes(reader, _, _) =>
        assert forall r :: IsLeading(t, r) ==> r != reader && IsLeading(s, r);
        assert forall r :: !IsLeading(t, r);
      case Wakes(reader) =>
        assert forall r :: IsLeading(t, r) == IsLeading(s, r);
      case GivesUp(reader) =>
        assert forall r :: IsLeading(t, r) == IsLeading(s, r);
      case Publishes(_, _) =>
        assert forall r :: IsLeading(t, r) == IsLeading(s, r);
    }
  }

  lemma ReadersKeep(s: System, step: Step, r: nat)
    requires Inv(s) && Enabled(s, step) && r in Next(s, step).readers
    ensures ReaderHolds(Next(s, step), Next(s, step).readers[r])
  {
    if step.Completes? && r in s.readers && r != step.reader {
      assert ReaderHolds(s, s.readers[step.reader]);
    }
    if r in s.readers {
      assert ReaderHolds(s, s.readers[r]);
    }
  }

  lemma NextKeeps(s: System, step: Step)
    requires Inv(s) && Enabled(s, step)
    ensures Inv(Next(s, step)) && Next(s, step).service.generation >= s.service.generation
  {
    OneLeaderKeeps(s, step);
    forall r | r in Next(s, step).readers ensures ReaderHolds(Next(s, step), Next(s, step).readers[r]) {
      ReadersKeep(s, step, r);
    }
  }

  lemma {:induction false} RunKeeps(s: System, steps: seq<Step>)
    requires Inv(s) && ValidRun(s, steps)
    ensures Inv(Run(s, steps)) && Run(s, steps).service.generation >= s.service.generation
    decreases |steps|
  {
    if steps != [] {
      NextKeeps(s, steps[0]);
      RunKeeps(Next(s, steps[0]), steps[1..]);
    }
  }

  // ------------------------------------------------------------------- results

  /** Over every interleaving, at most one fetch is in flight. */
  lemma OneFetchInFlight(steps: seq<Step>, r: nat, q: nat)
    requires ValidRun(START, steps)
    requires IsLeading(Run(START, steps), r) && IsLeading(Run(START, steps), q)
    ensures r == q
  {
    RunKeeps(START, steps);
  }

  /** Every answer dates from the generation its reader came in at or a later one: no reader that comes after an
      update gets names from before it, not even by joining a fetch begun before it. */
  lemma AnswersAreCurrent(steps: seq<Step>, r: nat)
    requires ValidRun(START, steps)
    ensures var s := Run(START, steps);
            r in s.readers && s.readers[r].Answered? ==> s.readers[r].origin >= s.readers[r].since
  {
    RunKeeps(START, steps);
    if r in Run(START, steps).readers {
      assert ReaderHolds(Run(START, steps), Run(START, steps).readers[r]);
    }
  }

  /** Nobody waits for a flight that neither is under way nor has ended. */
  lemma WaitersAreServed(steps: seq<Step>, r: nat)
    requires ValidRun(START, steps)
    ensures var s := Run(START, steps);
            IsWaiting(s, r) ==>
              Enabled(s, Wakes(r)) || exists q :: IsLeading(s, q) && s.readers[q].flight == s.readers[r].flight
  {
    RunKeeps(START, steps);
    var s := Run(START, steps);
    if IsWaiting(s, r) {
      assert ReaderHolds(s, s.readers[r]);
    }
  }

  lemma {:induction false} LeaderStays(s: System, steps: seq<Step>, r: nat)
    requires Inv(s) && ValidRun(s, steps) && r in s.readers
    ensures IsLeading(Run(s, steps), r) ==> Run(s, steps).readers[r] == s.readers[r]
    ensures r in Run(s, steps).readers
    decreases |steps|
  {
    if steps != [] {
      NextKeeps(s, steps[0]);
      LeaderStays(Next(s, steps[0]), steps[1..], r);
    }
  }

  /** Once an update has been published, a fetch begun before it changes nothing but the flight, whenever it ends. */
  lemma OutdatedFetchChangesNothing(before: seq<Step>, items: Option<seq<Name>>, at: nat, after: seq<Step>, r: nat,
      fetched: Fetched, now: nat)
    requires ValidRun(START, before) && IsLeading(Run(START, before), r)
    requires ValidRun(Next(Run(START, before), Publishes(items, at)), after)
    requires IsLeading(Run(Next(Run(START, before), Publishes(items, at)), after), r)
    ensures var s := Run(Next(Run(START, before), Publishes(items, at)), after);
            Next(s, Completes(r, fetched, now)).service == s.service.(flight := None) &&
            Next(s, Completes(r, fetched, now)).readers[r].response == s.service.cached
  {
    var s0 := Run(START, before);
    var s1 := Next(s0, Publishes(items, at));
    RunKeeps(START, before);
    NextKeeps(s0, Publishes(items, at));
    RunKeeps(s1, after);
    LeaderStays(s1, after, r);
    assert ReaderHolds(s0, s0.readers[r]);
  }

  // ---------------------------------------------------------------- cooling down

  /** All of these steps happen before `until`, and none is an update. */
  predicate Quiet(steps: seq<Step>, until: nat) {
    steps == [] || (!steps[0].Publishes? && (steps[0].Enters? ==> steps[0].now < until) && Quiet(steps[1..], until))
  }

  lemma {:induction false} CoolingKeeps(s: System, steps: seq<Step>)
    requires Inv(s) && s.service.flight.None? && ValidRun(s, steps) && Quiet(steps, s.service.retryUntil)
    ensures Run(s, steps).service == s.service && forall r :: !IsLeading(Run(s, steps), r)
    decreases |steps|
  {
    if steps != [] {
      NextKeeps(s, steps[0]);
      assert forall r :: !IsLeading(s, r);
      CoolingKeeps(Next(s, steps[0]), steps[1..]);
    }
  }

  /** A current fetch that fails with a cooldown stops all fetching until the cooldown is over or an update comes. */
  lemma NoFetchWhileCooling(before: seq<Step>, r: nat, fetched: Fetched, now: nat, after: seq<Step>)
    requires ValidRun(START, before) && IsLeading(Run(START, before), r) && Cooldown(fetched) > 0
    requires Run(START, before).readers[r].begun == Run(START, before).service.generation
    requires var s := Next(Run(START, before), Completes(r, fetched, now));
             ValidRun(s, after) && Quiet(after, now + Cooldown(fetched))
    ensures var s := Next(Run(START, before), Completes(r, fetched, now));
            Run(s, after).service == s.service && forall q :: !IsLeading(Run(s, after), q)
  {
    RunKeeps(START, before);
    NextKeeps(Run(START, before), Completes(r, fetched, now));
    CoolingKeeps(Next(Run(START, before), Completes(r, fetched, now)), after);
  }
}
