/** Runs of the schedule and send loops for one platform of one plan. */
module ScheduleRuns {
  import opened Common
  import opened Calendar
  import opened Schedule

  /** A turn of the schedule loop; the waiting job being accepted, or given up after a failed or unknown send; or
      another platform of the plan having its job accepted, which is stored under the same clock. */
  datatype Event = Tick(at: int) | Send(at: int) | Fail(at: int) | Sibling(at: int)

  /** The stored time of the last send, and whether a job waits for its delivery. */
  datatype Progress = Progress(clock: Option<int>, waiting: bool)

  predicate Ordered(events: seq<Event>) { forall i, j :: 0 <= i < j < |events| ==> events[i].at <= events[j].at }

  /** A due tick adds a job unless one waits already. */
  ghost predicate Fires(s: Plan, p: Progress, e: Event) { e.Tick? && !p.waiting && IsDue(s, p.clock, e.at) }

  predicate Delivers(p: Progress, e: Event) { e.Send? && p.waiting }

  /** An accepted send stores its own time, in whole seconds; a failed one leaves the clock alone. */
  ghost function After(s: Plan, p: Progress, e: Event): Progress {
    match e
    case Tick(_) => if Fires(s, p, e) then p.(waiting := true) else p
    case Send(at) => if p.waiting then Progress(Some(Truncate(at)), false) else p
    case Fail(_) => p.(waiting := false)
    case Sibling(at) => p.(clock := Some(Truncate(at)))
  }

  lemma TruncateMonotone(a: int, b: int)
    requires a <= b
    ensures Truncate(a) <= Truncate(b) && Truncate(a) <= a < Truncate(a) + SECOND
    ensures a % SECOND == 0 ==> a <= Truncate(b)
  {
    assert Truncate(a) == a / SECOND * SECOND && Truncate(b) == b / SECOND * SECOND;
    assert a / SECOND <= b / SECOND;
  }

  lemma TruncateIsWhole(a: int)
    ensures Truncate(a) % SECOND == 0 && Truncate(a) <= a
  {
    assert Truncate(a) == a / SECOND * SECOND;
  }

  lemma OccursOnTheSecond(s: Plan, t: int)
    requires Occurs(s, t)
    ensures t % SECOND == 0
  {
    var day := t / DAY;
    assert t == day * DAY + s.time.value * SECOND;
    assert t == (day * 86_400 + s.time.value) * SECOND;
  }

  lemma RestIsOrdered(events: seq<Event>)
    requires events != [] && Ordered(events)
    ensures Ordered(events[1..]) && forall i :: 0 <= i < |events| ==> events[0].at <= events[i].at
  {
    forall i, j | 0 <= i < j < |events[1..]| ensures events[1..][i].at <= events[1..][j].at {
      assert events[i + 1].at <= events[j + 1].at;
    }
  }

  // ---------------------------------------------------------------- calendar plans

  /** `[o, q)` runs from one occurrence of the plan to the next. */
  ghost predicate IsSpan(s: Plan, o: int, q: int) { s.kind != IntervalKind && Occurs(s, o) && IsNext(s, o, q) }

  predicate Within(e: Event, o: int, q: int) { o <= e.at < q }

  /** How many ticks of the span fire. */
  ghost function FiresIn(s: Plan, p: Progress, events: seq<Event>, o: int, q: int): nat
    decreases |events|
  {
    if events == [] then 0
    else
      (if Fires(s, p, events[0]) && Within(events[0], o, q) then 1 else 0) +
      FiresIn(s, After(s, p, events[0]), events[1..], o, q)
  }

  /** How many jobs are accepted in the span. */
  ghost function SendsIn(s: Plan, p: Progress, events: seq<Event>, o: int, q: int): nat
    decreases |events|
  {
    if events == [] then 0
    else
      (if Delivers(p, events[0]) && Within(events[0], o, q) then 1 else 0) +
      SendsIn(s, After(s, p, events[0]), events[1..], o, q)
  }

  /** Whether a job from before `o` still waits at `o`. */
  ghost predicate WaitingAt(s: Plan, p: Progress, events: seq<Event>, o: int)
    decreases |events|
  {
    if events == [] || events[0].at >= o then p.waiting
    else WaitingAt(s, After(s, p, events[0]), events[1..], o)
  }

  /** The part of an ordered run that lies in the span. */
  function InSpan(events: seq<Event>, o: int, q: int): seq<Event> {
    if events == [] || events[0].at >= q then []
    else (if events[0].at >= o then [events[0]] else []) + InSpan(events[1..], o, q)
  }

  predicate SentBefore(p: Progress, o: int) { p.clock.Some? ==> p.clock.value < o }

  /** A span seen without plan and clock: whether a job waits, and whether one has been sent in the span. */
  datatype Mode = Mode(waiting: bool, served: bool)

  function Turn(m: Mode, e: Event): Mode {
    match e
    case Tick(_) => if m.served then m else m.(waiting := true)
    case Send(_) => if m.waiting then Mode(false, true) else m
    case Fail(_) => m.(waiting := false)
    case Sibling(_) => m.(served := true)
  }

  /** A tick adds a job when none waits and none has been sent. */
  function Attempts(m: Mode, events: seq<Event>): nat
    decreases |events|
  {
    if events == [] then 0
    else (if events[0].Tick? && m == Mode(false, false) then 1 else 0) + Attempts(Turn(m, events[0]), events[1..])
  }

  function SendsOf(m: Mode, events: seq<Event>): nat
    decreases |events|
  {
    if events == [] then 0
    else (if events[0].Send? && m.waiting then 1 else 0) + SendsOf(Turn(m, events[0]), events[1..])
  }

  function ModeOf(p: Progress, o: int): Mode { Mode(p.waiting, !SentBefore(p, o)) }

  /** In the span the due check sees of the clock only whether a job has been sent in the span. */
  lemma SpanStep(s: Plan, p: Progress, e: Event, o: int, q: int)
    requires IsSpan(s, o, q) && Within(e, o, q)
    ensures Fires(s, p, e) <==> e.Tick? && ModeOf(p, o) == Mode(false, false)
    ensures ModeOf(After(s, p, e), o) == Turn(ModeOf(p, o), e)
  {
    OccursOnTheSecond(s, o);
    TruncateMonotone(o, e.at);
  }

  lemma {:induction false} LaterIsNothing(s: Plan, p: Progress, events: seq<Event>, o: int, q: int)
    requires Ordered(events) && (events != [] ==> q <= events[0].at)
    ensures FiresIn(s, p, events, o, q) == 0 && SendsIn(s, p, events, o, q) == 0
    decreases |events|
  {
    if events != [] {
      RestIsOrdered(events);
      LaterIsNothing(s, After(s, p, events[0]), events[1..], o, q);
    }
  }

  lemma {:induction false} SpanRun(s: Plan, p: Progress, events: seq<Event>, o: int, q: int)
    requires IsSpan(s, o, q) && Ordered(events) && (events != [] ==> o <= events[0].at)
    ensures FiresIn(s, p, events, o, q) == Attempts(ModeOf(p, o), InSpan(events, o, q))
    ensures SendsIn(s, p, events, o, q) == SendsOf(ModeOf(p, o), InSpan(events, o, q))
    decreases |events|
  {
    if events != [] {
      if events[0].at >= q {
        LaterIsNothing(s, p, events, o, q);
      } else {
        RestIsOrdered(events);
        SpanStep(s, p, events[0], o, q);
        SpanRun(s, After(s, p, events[0]), events[1..], o, q);
        assert InSpan(events, o, q)[1..] == InSpan(events[1..], o, q);
      }
    }
  }

  /** Over any ordered run, what a calendar plan does in a span between two occurrences depends only on whether an
      earlier job still waits at its start and on the events in it: a tick fires when no job waits and none has been
      sent in the span. */
  lemma {:induction false} SpanIsAutomaton(s: Plan, p: Progress, events: seq<Event>, o: int, q: int)
    requires IsSpan(s, o, q) && Ordered(events) && SentBefore(p, o)
    ensures var m := Mode(WaitingAt(s, p, events, o), false);
            FiresIn(s, p, events, o, q) == Attempts(m, InSpan(events, o, q)) &&
            SendsIn(s, p, events, o, q) == SendsOf(m, InSpan(events, o, q))
    decreases |events|
  {
    if events == [] || events[0].at >= o {
      SpanRun(s, p, events, o, q);
    } else {
      RestIsOrdered(events);
      TruncateMonotone(events[0].at, events[0].at);
      assert InSpan(events, o, q) == InSpan(events[1..], o, q);
      SpanIsAutomaton(s, After(s, p, events[0]), events[1..], o, q);
    }
  }

  // ------------------------------------------------------------ how often it fires

  function Failures(events: seq<Event>): nat {
    if events == [] then 0 else (if events[0].Fail? then 1 else 0) + Failures(events[1..])
  }

  predicate HasTick(events: seq<Event>) { events != [] && (events[0].Tick? || HasTick(events[1..])) }

  predicate Smooth(events: seq<Event>) {
    events == [] || (!events[0].Fail? && !events[0].Sibling? && Smooth(events[1..]))
  }

  lemma {:induction false} AttemptsBound(m: Mode, events: seq<Event>)
    ensures Attempts(m, events) <= Failures(events) + if m == Mode(false, false) then 1 else 0
    ensures SendsOf(m, events) <= if m == Mode(false, true) then 0 else 1
    ensures m.served ==> Attempts(m, events) == 0
    decreases |events|
  {
    if events != [] {
      AttemptsBound(Turn(m, events[0]), events[1..]);
    }
  }

  lemma {:induction false} SmoothAttempts(m: Mode, events: seq<Event>)
    requires Smooth(events)
    ensures Attempts(m, events) == if m == Mode(false, false) && HasTick(events) then 1 else 0
    decreases |events|
  {
    if events != [] {
      SmoothAttempts(Turn(m, events[0]), events[1..]);
    }
  }

  /** However often sends fail, at most one job of the platform is accepted in a span, and every tick that fires after
      the first follows a failure of its own. */
  lemma OneSendPerSpan(s: Plan, p: Progress, events: seq<Event>, o: int, q: int)
    requires IsSpan(s, o, q) && Ordered(events) && SentBefore(p, o)
    ensures SendsIn(s, p, events, o, q) <= 1
    ensures FiresIn(s, p, events, o, q) <=
            Failures(InSpan(events, o, q)) + if WaitingAt(s, p, events, o) then 0 else 1
  {
    SpanIsAutomaton(s, p, events, o, q);
    AttemptsBound(Mode(WaitingAt(s, p, events, o), false), InSpan(events, o, q));
  }

  /** Without failures and other platforms: once when the span has a tick and no job from before still waits when it
      starts, and else never. A job that is only sent after the next occurrence has come takes the place of that
      occurrence. */
  lemma FiresPerSpan(s: Plan, p: Progress, events: seq<Event>, o: int, q: int)
    requires IsSpan(s, o, q) && Ordered(events) && SentBefore(p, o) && Smooth(InSpan(events, o, q))
    ensures FiresIn(s, p, events, o, q) ==
            if HasTick(InSpan(events, o, q)) && !WaitingAt(s, p, events, o) then 1 else 0
  {
    SpanIsAutomaton(s, p, events, o, q);
    SmoothAttempts(Mode(WaitingAt(s, p, events, o), false), InSpan(events, o, q));
  }

  /** After a failure the next tick of the span fires again, as long as no platform of the plan was served in it. */
  lemma FiresAgain(m: Mode, before: seq<Event>, fail: int, between: seq<Event>, tick: int)
    requires Served(m, before) == Mode(true, false) && !HasTick(between) && Quiet(between)
    ensures var events := before + [Fail(fail)] + between + [Tick(tick)];
            Attempts(m, events) == Attempts(m, before) + 1
  {
    AttemptsConcat(m, before, [Fail(fail)]);
    ServedConcat(m, before, [Fail(fail)]);
    AttemptsConcat(m, before + [Fail(fail)], between);
    ServedConcat(m, before + [Fail(fail)], between);
    AttemptsConcat(m, before + [Fail(fail)] + between, [Tick(tick)]);
    QuietStays(between);
    assert [Fail(fail)][1..] == [] && [Tick(tick)][1..] == [];
  }

  /** The mode after some events. */
  function Served(m: Mode, events: seq<Event>): Mode
    decreases |events|
  {
    if events == [] then m else Served(Turn(m, events[0]), events[1..])
  }

  predicate Quiet(events: seq<Event>) { events == [] || (!events[0].Sibling? && Quiet(events[1..])) }

  lemma {:induction false} AttemptsConcat(m: Mode, a: seq<Event>, b: seq<Event>)
    ensures Attempts(m, a + b) == Attempts(m, a) + Attempts(Served(m, a), b)
    decreases |a|
  {
    if a == [] {
      assert a + b == b;
    } else {
      assert (a + b)[0] == a[0] && (a + b)[1..] == a[1..] + b;
      AttemptsConcat(Turn(m, a[0]), a[1..], b);
    }
  }

  lemma {:induction false} ServedConcat(m: Mode, a: seq<Event>, b: seq<Event>)
    ensures Served(m, a + b) == Served(Served(m, a), b)
    decreases |a|
  {
    if a == [] {
      assert a + b == b;
    } else {
      assert (a + b)[0] == a[0] && (a + b)[1..] == a[1..] + b;
      ServedConcat(Turn(m, a[0]), a[1..], b);
    }
  }

  lemma {:induction false} QuietStays(events: seq<Event>)
    requires !HasTick(events) && Quiet(events)
    ensures Served(Mode(false, false), events) == Mode(false, false) && Attempts(Mode(false, false), events) == 0
  {
    if events != [] {
      QuietStays(events[1..]);
    }
  }

  // ------------------------------------------------------------- sent in good time

  /** Every job is sent or given up before the occurrence that follows the tick it fired at; `fired` is that tick. */
  ghost predicate Prompt(s: Plan, p: Progress, fired: int, events: seq<Event>)
    decreases |events|
  {
    events == [] ||
    ((p.waiting ==> forall t :: Occurs(s, t) && fired < t ==> events[0].at < t) &&
     Prompt(s, After(s, p, events[0]), if Fires(s, p, events[0]) then events[0].at else fired, events[1..]))
  }

  lemma {:induction false} PromptIsFree(s: Plan, p: Progress, fired: int, events: seq<Event>, o: int, q: int)
    requires Prompt(s, p, fired, events) && Ordered(events) && Occurs(s, o) && (p.waiting ==> fired < o)
    requires WaitingAt(s, p, events, o)
    ensures InSpan(events, o, q) == []
    decreases |events|
  {
    if events != [] && events[0].at < q {
      RestIsOrdered(events);
      assert events[0].at < o;
      var fired' := if Fires(s, p, events[0]) then events[0].at else fired;
      PromptIsFree(s, After(s, p, events[0]), fired', events[1..], o, q);
    }
  }

  /** When every job is sent before the next occurrence, a calendar plan fires exactly once in every span that has a
      tick, no failure and no other platform's send, and starts after the stored time. */
  lemma FiresOncePerSpan(s: Plan, p: Progress, events: seq<Event>, o: int, q: int)
    requires IsSpan(s, o, q) && Ordered(events) && SentBefore(p, o) && Smooth(InSpan(events, o, q))
    requires !p.waiting && Prompt(s, p, 0, events)
    ensures FiresIn(s, p, events, o, q) == if HasTick(InSpan(events, o, q)) then 1 else 0
  {
    FiresPerSpan(s, p, events, o, q);
    if WaitingAt(s, p, events, o) {
      PromptIsFree(s, p, 0, events, o, q);
    }
  }

  // ---------------------------------------------------------------- interval plans

  ghost function ProgressAt(s: Plan, p: Progress, events: seq<Event>, i: nat): Progress
    requires i <= |events|
    decreases i
  {
    if i == 0 then p else ProgressAt(s, After(s, p, events[0]), events[1..], i - 1)
  }

  ghost predicate DeliversAt(s: Plan, p: Progress, events: seq<Event>, i: nat) {
    i < |events| && Delivers(ProgressAt(s, p, events, i), events[i])
  }

  /** The next delivery comes no earlier than the stored time and the interval. */
  lemma {:induction false} NextDelivery(s: Plan, p: Progress, events: seq<Event>, j: nat)
    requires s.kind == IntervalKind && Ordered(events) && !p.waiting && p.clock.Some? && DeliversAt(s, p, events, j)
    requires p.clock.value % SECOND == 0 && p.clock.value <= events[0].at
    ensures events[j].at >= p.clock.value + s.interval * SECOND
    decreases |events|
  {
    RestIsOrdered(events);
    if !Fires(s, p, events[0]) {
      assert events[1..][j - 1] == events[j];
      TruncateMonotone(p.clock.value, events[0].at);
      TruncateIsWhole(events[0].at);
      NextDelivery(s, After(s, p, events[0]), events[1..], j - 1);
    }
  }

  /** Sends of an interval plan are more than the interval less one second apart, whatever fails between them. */
  lemma {:induction false} IntervalSpacing(s: Plan, p: Progress, events: seq<Event>, i: nat, j: nat)
    requires s.kind == IntervalKind && Ordered(events) && i < j
    requires DeliversAt(s, p, events, i) && DeliversAt(s, p, events, j)
    ensures events[j].at - events[i].at > (s.interval - 1) * SECOND
    decreases i
  {
    RestIsOrdered(events);
    assert events[1..][j - 1] == events[j];
    var next := After(s, p, events[0]);
    if i == 0 {
      TruncateMonotone(events[0].at, events[0].at);
      TruncateIsWhole(events[0].at);
      assert events[1..][0] == events[1];
      NextDelivery(s, next, events[1..], j - 1);
    } else {
      assert events[1..][i - 1] == events[i];
      IntervalSpacing(s, next, events[1..], i - 1, j - 1);
    }
  }

  /** And no send is missed: the first tick a whole interval after the stored time fires. */
  lemma {:induction false} IntervalFires(s: Plan, p: Progress, events: seq<Event>, j: nat)
    requires s.kind == IntervalKind && s.interval > 0 && !p.waiting && p.clock.Some?
    requires j < |events| && events[j].Tick? && events[j].at >= p.clock.value + s.interval * SECOND
    requires forall i :: 0 <= i < j && events[i].Tick? ==> events[i].at < p.clock.value + s.interval * SECOND
    requires forall i :: 0 <= i < j ==> !events[i].Sibling?
    ensures Fires(s, ProgressAt(s, p, events, j), events[j])
    decreases |events|
  {
    if j > 0 {
      assert events[1..][j - 1] == events[j];
      forall i | 0 <= i < j - 1
        ensures events[1..][i].Tick? ==> events[1..][i].at < p.clock.value + s.interval * SECOND
        ensures !events[1..][i].Sibling?
      {
        assert events[i + 1] == events[1..][i];
      }
      IntervalFires(s, p, events[1..], j - 1);
    }
  }
}
