/** What the names cache holds and answers, told by the steps of a run alone. */
module AuthNamesHistory {
  import opened Common
  import opened AuthNames

  /** The last event that the cache reflects: a current fetch or an update that brought names, a current fetch that
      failed, or an update without names. */
  datatype Last =
    | Nothing
    | Brought(items: seq<Name>, at: nat)
    | Broke(code: string, wait: int, at: nat)
    | Emptied

  /** How many updates there were, how many of them each reader found when it came in, and the last event. */
  datatype History = History(updates: nat, found: map<nat, nat>, last: Last)

  const NO_HISTORY: History := History(0, map[], Nothing)

  /** A fetch is current when no update came since its reader did. */
  predicate IsCurrent(h: History, reader: nat) { reader in h.found && h.found[reader] == h.updates }

  function After(h: History, step: Step): History {
    match step
    case Enters(reader, _, _, _) => h.(found := h.found[reader := h.updates])
    case Completes(reader, fetched, now) =>
      if !IsCurrent(h, reader) then h
      else h.(last := match fetched
                      case Names(items) => Brought(items, now)
                      case FetchFailed(code, wait) => Broke(code, wait, now))
    case Publishes(items, now) =>
      h.(updates := h.updates + 1, last := if items.Some? then Brought(items.value, now) else Emptied)
    case _ => h
  }

  function HistoryOf(steps: seq<Step>): History {
    if steps == [] then NO_HISTORY else After(HistoryOf(steps[..|steps| - 1]), steps[|steps| - 1])
  }

  lemma {:induction false} RunOneMore(s: System, steps: seq<Step>, step: Step)
    requires ValidRun(s, steps + [step])
    ensures ValidRun(s, steps) && Enabled(Run(s, steps), step) && Run(s, steps + [step]) == Next(Run(s, steps), step)
    decreases |steps|
  {
    if steps == [] {
      assert steps + [step] == [step] && [step][1..] == [];
    } else {
      assert (steps + [step])[0] == steps[0] && (steps + [step])[1..] == steps[1..] + [step];
      RunOneMore(Next(s, steps[0]), steps[1..], step);
    }
  }

  // ------------------------------------------------------------------ the cache

  /** How long a failure stops all fetching. */
  function Cooling(code: string, wait: int): int {
    if code == "authentication_failed" then 60_000_000_000
    else if code == "rate_limited" && wait > 0 then wait
    else 0
  }

  /** The least whole number of seconds not below `t` nanoseconds. */
  predicate Covers(seconds: int, t: int) { seconds * 1_000_000_000 >= t > (seconds - 1) * 1_000_000_000 }

  predicate IsFailure(r: Response, code: string, wait: int) {
    r.status == "unavailable" && r.items == [] && r.fetchedAt == 0 && r.errorCode == code &&
    Covers(r.retryAfterSeconds, wait)
  }

  /** The cache as the last event left it. */
  predicate Reflects(sv: Service, last: Last) {
    match last
    case Nothing => sv.cached == Response("", [], 0, "", 0) && sv.validUntil == 0 && sv.retryUntil == 0
    case Brought(items, at) =>
      sv.cached == Response("ready", items, at, "", 0) && sv.validUntil == at + 60_000_000_000 && sv.retryUntil == 0
    case Broke(code, wait, at) =>
      && IsFailure(sv.cached, code, Cooling(code, wait)) && sv.validUntil == 0
      && sv.retryUntil == (if Cooling(code, wait) > 0 then at + Cooling(code, wait) else 0)
    case Emptied =>
      sv.cached == Response("unavailable", [], 0, "refresh_required", 0) && sv.validUntil == 0 && sv.retryUntil == 0
  }

  /** The state of the service and of the fetches under way agree with the history. */
  ghost predicate Follows(s: System, h: History) {
    && s.service.generation == h.updates && Reflects(s.service, h.last)
    && (forall r :: r in s.readers ==> r in h.found)
    && (forall r :: IsLeading(s, r) ==> s.readers[r].begun == h.found[r])
  }

  lemma CompletesReflects(s: System, h: History, reader: nat, fetched: Fetched, now: nat)
    requires Follows(s, h) && Enabled(s, Completes(reader, fetched, now))
    ensures Reflects(Next(s, Completes(reader, fetched, now)).service, After(h, Completes(reader, fetched, now)).last)
  {
    assert IsLeading(s, reader);
    if IsCurrent(h, reader) && fetched.FetchFailed? {
      assert Cooldown(fetched) > 0 ==> Cooldown(fetched) == Cooling(fetched.code, fetched.retryAfter);
    }
  }

  lemma FollowsNext(s: System, h: History, step: Step)
    requires Follows(s, h) && Enabled(s, step)
    ensures Follows(Next(s, step), After(h, step))
  {
    var t, h' := Next(s, step), After(h, step);
    if step.Completes? {
      CompletesReflects(s, h, step.reader, step.fetched, step.now);
    }
    forall r | IsLeading(t, r) ensures r in h'.found && t.readers[r].begun == h'.found[r] {
      if !(step.Enters? && r == step.reader) {
        assert IsLeading(s, r);
      }
    }
  }

  lemma {:induction false} RunFollows(steps: seq<Step>)
    requires ValidRun(START, steps)
    ensures Follows(Run(START, steps), HistoryOf(steps))
    decreases |steps|
  {
    if steps != [] {
      var init, step := steps[..|steps| - 1], steps[|steps| - 1];
      assert steps == init + [step];
      RunOneMore(START, init, step);
      RunFollows(init);
      FollowsNext(Run(START, init), HistoryOf(init), step);
    }
  }

  /** Over every interleaving the cache holds what the last current fetch or update left: ready exactly when that
      brought names, with those names for a minute, and closed to fetching for as long as a failure cools down. */
  lemma CacheIsLast(steps: seq<Step>)
    requires ValidRun(START, steps)
    ensures Reflects(Run(START, steps).service, HistoryOf(steps).last)
    ensures var cached := Run(START, steps).service.cached;
            (cached.status == "ready" <==> HistoryOf(steps).last.Brought?) &&
            (cached.status == "ready" ==> cached.items == HistoryOf(steps).last.items)
  {
    RunFollows(steps);
    assert "ready"[0] == 'r' && "unavailable"[0] == 'u';
  }

  /** What a reader that comes in gets: the failure while it cools down, the names of the last minute unless it wants
      fresh ones, the fetch under way, or else a fetch of its own. */
  lemma EnterIs(steps: seq<Step>, reader: nat, force: bool, now: nat, flight: nat)
    requires ValidRun(START, steps) && Enabled(Run(START, steps), Enters(reader, force, now, flight))
    ensures var s, last := Run(START, steps), HistoryOf(steps).last;
            var t := Next(s, Enters(reader, force, now, flight)); var r := t.readers[reader];
            if last.Broke? && Cooling(last.code, last.wait) > 0 && now < last.at + Cooling(last.code, last.wait) then
              r.Answered? && IsFailure(r.response, last.code, last.at + Cooling(last.code, last.wait) - now)
            else if !force && last.Brought? && now < last.at + 60_000_000_000 then
              r.Answered? && r.response == Response("ready", last.items, last.at, "", 0)
            else if q :| IsLeading(s, q) then
              r.Waiting? && r.flight == s.readers[q].flight
            else
              r.Leading? && r.flight == flight
  {
    RunFollows(steps);
    RunKeeps(START, steps);
    assert "ready"[0] == 'r' && "unavailable"[0] == 'u';
  }

  // ----------------------------------------------------------------- the answers

  /** Step `i` brought these names when `g` updates had been made, its own included: it was the g-th update, or the
      end of a fetch by a reader that found `g` updates and saw no other. */
  predicate Brings(steps: seq<Step>, i: nat, items: seq<Name>, g: nat) {
    i < |steps| &&
    match steps[i]
    case Publishes(published, _) => published == Some(items) && HistoryOf(steps[..i]).updates + 1 == g
    case Completes(reader, fetched, _) =>
      fetched == Names(items) && IsCurrent(HistoryOf(steps[..i]), reader) && HistoryOf(steps[..i]).updates == g
    case _ => false
  }

  /** A ready answer carries names brought at update `g`. */
  ghost predicate Genuine(steps: seq<Step>, r: Response, g: nat) {
    r.status == "ready" ==> exists i: nat :: Brings(steps, i, r.items, g)
  }

  lemma GenuineMore(steps: seq<Step>, step: Step, r: Response, g: nat)
    requires Genuine(steps, r, g)
    ensures Genuine(steps + [step], r, g)
  {
    if r.status == "ready" {
      var i: nat :| Brings(steps, i, r.items, g);
      assert (steps + [step])[..i] == steps[..i] && (steps + [step])[i] == steps[i];
      assert Brings(steps + [step], i, r.items, g);
    }
  }

  ghost predicate AllGenuine(steps: seq<Step>, s: System) {
    && Genuine(steps, s.service.cached, s.origin)
    && (forall f :: f in s.results ==> Genuine(steps, s.results[f].0, s.results[f].1))
    && (forall r :: r in s.readers && s.readers[r].Answered? ==>
          Genuine(steps, s.readers[r].response, s.readers[r].origin))
  }

  lemma AllGenuineMore(steps: seq<Step>, step: Step, s: System)
    requires AllGenuine(steps, s)
    ensures AllGenuine(steps + [step], s)
  {
    GenuineMore(steps, step, s.service.cached, s.origin);
    forall f | f in s.results ensures Genuine(steps + [step], s.results[f].0, s.results[f].1) {
      GenuineMore(steps, step, s.results[f].0, s.results[f].1);
    }
    forall r | r in s.readers && s.readers[r].Answered?
      ensures Genuine(steps + [step], s.readers[r].response, s.readers[r].origin)
    {
      GenuineMore(steps, step, s.readers[r].response, s.readers[r].origin);
    }
  }

  /** The names a step puts into the cache are brought by it. */
  lemma CachedIsGenuine(steps: seq<Step>, s: System, step: Step)
    requires Inv(s) && Follows(s, HistoryOf(steps)) && Enabled(s, step) && AllGenuine(steps + [step], s)
    ensures Genuine(steps + [step], Next(s, step).service.cached, Next(s, step).origin)
  {
    var all := steps + [step];
    assert all[..|steps|] == steps && all[|steps|] == step;
    assert "ready"[0] == 'r' && "unavailable"[0] == 'u';
    match step {
      case Completes(reader, fetched, _) =>
        assert IsLeading(s, reader);
        if fetched.Names? && s.readers[reader].begun == s.service.generation {
          assert Brings(all, |steps|, fetched.items, s.service.generation);
        }
      case Publishes(items, _) =>
        if items.Some? {
          assert Brings(all, |steps|, items.value, s.service.generation + 1);
        }
      case _ =>
    }
  }

  lemma AllGenuineNext(steps: seq<Step>, s: System, step: Step)
    requires Inv(s) && Follows(s, HistoryOf(steps)) && Enabled(s, step) && AllGenuine(steps, s)
    ensures AllGenuine(steps + [step], Next(s, step))
  {
    AllGenuineMore(steps, step, s);
    CachedIsGenuine(steps, s, step);
    assert step.Completes? ==>
        Next(s, step).readers[step.reader].response == Next(s, step).service.cached;
  }

  lemma {:induction false} RunGenuine(steps: seq<Step>)
    requires ValidRun(START, steps)
    ensures AllGenuine(steps, Run(START, steps))
    decreases |steps|
  {
    if steps != [] {
      var init, step := steps[..|steps| - 1], steps[|steps| - 1];
      assert steps == init + [step];
      RunOneMore(START, init, step);
      RunGenuine(init);
      RunKeeps(START, init);
      RunFollows(init);
      AllGenuineNext(init, Run(START, init), step);
    }
  }

  /** The generation a reader came in at is the number of updates it found. */
  predicate SinceFound(r: Reader, found: nat) { !r.TimedOut? ==> r.since == found }

  ghost predicate SinceHolds(s: System, h: History, reader: nat) {
    reader in s.readers ==> reader in h.found && SinceFound(s.readers[reader], h.found[reader])
  }

  lemma SinceNext(s: System, h: History, step: Step, reader: nat)
    requires SinceHolds(s, h, reader) && s.service.generation == h.updates && Enabled(s, step)
    ensures SinceHolds(Next(s, step), After(h, step), reader)
  {}

  lemma {:induction false} RunSince(steps: seq<Step>, reader: nat)
    requires ValidRun(START, steps)
    ensures SinceHolds(Run(START, steps), HistoryOf(steps), reader)
    decreases |steps|
  {
    if steps != [] {
      var init, step := steps[..|steps| - 1], steps[|steps| - 1];
      assert steps == init + [step];
      RunOneMore(START, init, step);
      RunSince(init, reader);
      RunFollows(init);
      SinceNext(Run(START, init), HistoryOf(init), step, reader);
    }
  }

  /** A reader that is answered with names gets names that some update or some current fetch of the run brought, and
      not before the last update it found when it came in. */
  lemma AnswersAreBrought(steps: seq<Step>, reader: nat) returns (i: nat, g: nat)
    requires ValidRun(START, steps)
    requires var s := Run(START, steps);
             reader in s.readers && s.readers[reader].Answered? && s.readers[reader].response.status == "ready"
    ensures Brings(steps, i, Run(START, steps).readers[reader].response.items, g)
    ensures reader in HistoryOf(steps).found && g >= HistoryOf(steps).found[reader]
  {
    RunGenuine(steps);
    RunKeeps(START, steps);
    RunSince(steps, reader);
    var s := Run(START, steps);
    assert ReaderHolds(s, s.readers[reader]);
    g := s.readers[reader].origin;
    assert Genuine(steps, s.readers[reader].response, g);
    i :| Brings(steps, i, s.readers[reader].response.items, g);
  }

  /** The reader that fetched, and every reader that waited for it, get what the cache then holds. */
  lemma FlightGetsCache(s: System, reader: nat, fetched: Fetched, now: nat, waiter: nat)
    requires Enabled(s, Completes(reader, fetched, now)) && waiter != reader && IsWaiting(s, waiter)
    requires s.readers[waiter].flight == s.readers[reader].flight
    ensures var t := Next(s, Completes(reader, fetched, now));
            && t.readers[reader].Answered? && t.readers[reader].response == t.service.cached
            && Enabled(t, Wakes(waiter)) && Next(t, Wakes(waiter)).readers[waiter].Answered?
            && Next(t, Wakes(waiter)).readers[waiter].response == t.service.cached
  {}
}
