/** When a send plan fires: the last and next occurrence of a plan, and whether a tick is due. */
module Schedule {
  import opened Common
  import opened Calendar

  datatype Kind = IntervalKind | MonthlyKind | YearlyKind | UnknownKind

  type SecondOfDay = x: nat | x < 86_400

  /** A send plan; `time` is None when its text is malformed. */
  datatype Plan = Plan(kind: Kind, interval: int, monthEnd: bool, month: int, day: int, time: Option<SecondOfDay>)

  predicate ValidMonthDay(s: Plan) { 1 <= s.month <= 12 && 1 <= s.day <= 31 }

  function TimeOfDay(s: Plan): int
    requires s.time.Some?
  {
    s.time.value * SECOND
  }

  /** The day of the month a monthly plan fires on. */
  function MonthDay(s: Plan, y: int, m: int): int { if s.monthEnd then DaysInMonth(y, m) else 1 }

  /** `t` is one of the plan's calendar instants. */
  ghost predicate Occurs(s: Plan, t: int) {
    s.time.Some? && t % DAY == TimeOfDay(s) &&
    var date := DateOf(t);
    match s.kind
    case MonthlyKind => date.day == MonthDay(s, date.year, date.month)
    case YearlyKind => ValidMonthDay(s) && date.month == s.month && date.day == s.day
    case _ => false
  }

  ghost predicate IsLast(s: Plan, now: int, r: int) {
    Occurs(s, r) && r <= now && forall t :: Occurs(s, t) && t <= now ==> t <= r
  }

  ghost predicate IsNext(s: Plan, after: int, r: int) {
    Occurs(s, r) && r > after && forall t :: Occurs(s, t) && t > after ==> t >= r
  }

  // ------------------------------------------------------------------- monthly

  /** monthBoundary: day 0 of the following month is the last day of this one. */
  function MonthBoundary(s: Plan, y: int, m: int): int
    requires s.time.Some?
  {
    if s.monthEnd then TimeDate(y, m + 1, 0, TimeOfDay(s)) else TimeDate(y, m, 1, TimeOfDay(s))
  }

  predicate MonthBefore(y: int, m: int, z: int, n: int) { y < z || (y == z && m < n) }

  /** The date a monthly plan fires on in a month. */
  function MonthDate(s: Plan, y: int, m: int): Date { Date(y, m, MonthDay(s, y, m)) }

  lemma BoundaryDate(s: Plan, y: int, m: int)
    requires s.kind == MonthlyKind && s.time.Some? && 1 <= m <= 12
    ensures ValidDate(MonthDate(s, y, m))
    ensures MonthBoundary(s, y, m) == InstantOn(MonthDate(s, y, m), TimeOfDay(s))
    ensures DateOf(MonthBoundary(s, y, m)) == MonthDate(s, y, m) && Occurs(s, MonthBoundary(s, y, m))
  {
    TimeDateIs(y, m, 1, TimeOfDay(s));
    InstantParts(MonthDate(s, y, m), TimeOfDay(s));
  }

  lemma MonthlyOccurrence(s: Plan, t: int)
    requires s.kind == MonthlyKind && Occurs(s, t)
    ensures t == MonthBoundary(s, DateOf(t).year, DateOf(t).month) && 1 <= DateOf(t).month <= 12
  {
    InstantFromParts(t);
    BoundaryDate(s, DateOf(t).year, DateOf(t).month);
  }

  lemma BoundariesInOrder(s: Plan, y: int, m: int, z: int, n: int)
    requires s.kind == MonthlyKind && s.time.Some? && 1 <= m <= 12 && 1 <= n <= 12 && MonthBefore(y, m, z, n)
    ensures MonthBoundary(s, y, m) < MonthBoundary(s, z, n)
  {
    BoundaryDate(s, y, m);
    BoundaryDate(s, z, n);
    InstantsInOrder(MonthDate(s, y, m), TimeOfDay(s), MonthDate(s, z, n), TimeOfDay(s));
  }

  /** The boundaries of earlier months are past and those of later months are to come. */
  lemma BoundaryAndNow(s: Plan, now: int, y: int, m: int)
    requires s.kind == MonthlyKind && s.time.Some? && 1 <= m <= 12
    ensures MonthBefore(y, m, DateOf(now).year, DateOf(now).month) ==> MonthBoundary(s, y, m) < now
    ensures MonthBefore(DateOf(now).year, DateOf(now).month, y, m) ==> now < MonthBoundary(s, y, m)
  {
    var n, date := DateOf(now), MonthDate(s, y, m);
    BoundaryDate(s, y, m);
    InstantFromParts(now);
    if Before(date, n) {
      InstantsInOrder(date, TimeOfDay(s), n, now % DAY);
    }
    if Before(n, date) {
      InstantsInOrder(n, now % DAY, date, TimeOfDay(s));
    }
  }

  method LastMonthly(s: Plan, now: int) returns (r: int)
    requires s.kind == MonthlyKind && s.time.Some?
    ensures IsLast(s, now, r)
  {
    var n := DateParts(now);
    InstantFromParts(now);
    var cand := MonthBoundary(s, n.year, n.month);
    BoundaryDate(s, n.year, n.month);
    forall t | Occurs(s, t) && t <= now
      ensures t == cand || MonthBefore(DateOf(t).year, DateOf(t).month, n.year, n.month)
    {
      MonthlyOccurrence(s, t);
      BoundaryAndNow(s, now, DateOf(t).year, DateOf(t).month);
    }
    if !(cand > now) {
      forall t | Occurs(s, t) && t <= now ensures t <= cand {
        MonthlyOccurrence(s, t);
        if t != cand {
          BoundariesInOrder(s, DateOf(t).year, DateOf(t).month, n.year, n.month);
        }
      }
      return cand;
    }
    var y, mo := n.year, n.month - 1;
    if mo < 1 {
      y := y - 1;
      mo := 12;
    }
    r := MonthBoundary(s, y, mo);
    BoundaryDate(s, y, mo);
    BoundaryAndNow(s, now, y, mo);
    forall t | Occurs(s, t) && t <= now ensures t <= r {
      MonthlyOccurrence(s, t);
      if MonthBefore(DateOf(t).year, DateOf(t).month, y, mo) {
        BoundariesInOrder(s, DateOf(t).year, DateOf(t).month, y, mo);
      }
    }
  }

  method NextMonthly(s: Plan, after: int) returns (r: int)
    requires s.kind == MonthlyKind && s.time.Some?
    ensures IsNext(s, after, r)
  {
    var a := DateParts(after);
    InstantFromParts(after);
    r := MonthBoundary(s, a.year, a.month);
    BoundaryDate(s, a.year, a.month);
    ghost var here := r;
    forall t | Occurs(s, t) && t > after
      ensures t == here || MonthBefore(a.year, a.month, DateOf(t).year, DateOf(t).month)
    {
      MonthlyOccurrence(s, t);
      BoundaryAndNow(s, after, DateOf(t).year, DateOf(t).month);
    }
    if r > after {
      forall t | Occurs(s, t) && t > after ensures t >= r {
        MonthlyOccurrence(s, t);
        if t != r {
          BoundariesInOrder(s, a.year, a.month, DateOf(t).year, DateOf(t).month);
        }
      }
      return;
    }
    var y, mo := NextMonth(r);
    r := MonthBoundary(s, y, mo);
    BoundaryDate(s, y, mo);
    BoundaryAndNow(s, after, y, mo);
    forall t | Occurs(s, t) && t > after ensures t >= r {
      MonthlyOccurrence(s, t);
      if MonthBefore(y, mo, DateOf(t).year, DateOf(t).month) {
        BoundariesInOrder(s, y, mo, DateOf(t).year, DateOf(t).month);
      }
    }
  }

  method NextMonth(t: int) returns (y: int, m: int)
    ensures 1 <= m <= 12 && MonthBefore(DateOf(t).year, DateOf(t).month, y, m)
    ensures forall z, n :: 1 <= n <= 12 && MonthBefore(DateOf(t).year, DateOf(t).month, z, n) ==>
              (z, n) == (y, m) || MonthBefore(y, m, z, n)
  {
    var date := DateParts(t);
    InstantFromParts(t);
    y, m := date.year, date.month + 1;
    if m > 12 {
      return y + 1, 1;
    }
  }

  // -------------------------------------------------------------------- yearly

  predicate IsYearly(s: Plan) { s.kind == YearlyKind && s.time.Some? && ValidMonthDay(s) }

  function YearInstant(s: Plan, y: int): int
    requires s.time.Some?
  {
    TimeDate(y, s.month, s.day, TimeOfDay(s))
  }

  /** The plan's date exists in year `y`. */
  predicate DateExists(s: Plan, y: int) { s.day <= DaysInMonth(y, s.month) }

  /** The normalised date falls back to another day exactly when the date does not exist. */
  lemma YearInstantDate(s: Plan, y: int)
    requires IsYearly(s)
    ensures DateOf(YearInstant(s, y)).day == s.day <==> DateExists(s, y)
    ensures DateExists(s, y) ==> DateOf(YearInstant(s, y)) == YearDate(s, y) && Occurs(s, YearInstant(s, y))
    ensures DateExists(s, y) ==> YearInstant(s, y) == InstantOn(YearDate(s, y), TimeOfDay(s))
  {
    TimeDateIs(y, s.month, s.day, TimeOfDay(s));
    if DateExists(s, y) {
      InstantParts(YearDate(s, y), TimeOfDay(s));
    } else {
      var spill := Date(y, s.month + 1, s.day - DaysInMonth(y, s.month));
      assert DaysBeforeMonth(y, s.month + 1) == DaysBeforeMonth(y, s.month) + DaysInMonth(y, s.month);
      InstantParts(spill, TimeOfDay(s));
    }
  }

  function YearDate(s: Plan, y: int): Date { Date(y, s.month, s.day) }

  lemma YearlyOccurrence(s: Plan, t: int)
    requires IsYearly(s) && Occurs(s, t)
    ensures DateExists(s, DateOf(t).year) && t == YearInstant(s, DateOf(t).year)
  {
    InstantFromParts(t);
    YearInstantDate(s, DateOf(t).year);
  }

  lemma YearsInOrder(s: Plan, y: int, z: int)
    requires IsYearly(s) && y < z && DateExists(s, y) && DateExists(s, z)
    ensures YearInstant(s, y) < YearInstant(s, z)
  {
    YearInstantDate(s, y);
    YearInstantDate(s, z);
    InstantsInOrder(YearDate(s, y), TimeOfDay(s), YearDate(s, z), TimeOfDay(s));
  }

  lemma YearAndNow(s: Plan, now: int, y: int)
    requires IsYearly(s) && DateExists(s, y)
    ensures y < DateOf(now).year ==> YearInstant(s, y) < now
    ensures y > DateOf(now).year ==> now < YearInstant(s, y)
  {
    var n, date := DateOf(now), YearDate(s, y);
    YearInstantDate(s, y);
    InstantFromParts(now);
    if Before(date, n) {
      InstantsInOrder(date, TimeOfDay(s), n, now % DAY);
    }
    if Before(n, date) {
      InstantsInOrder(n, now % DAY, date, TimeOfDay(s));
    }
  }

  /** A date that exists in some year exists in one of any eight consecutive years. */
  lemma ExistsNearby(s: Plan, y: int, from: int) returns (z: int)
    requires IsYearly(s) && DateExists(s, y)
    ensures from <= z < from + 8 && DateExists(s, z)
  {
    if s.month == 2 {
      z := LeapYearNear(from);
    } else {
      z := from;
    }
  }

  method LastYearly(s: Plan, now: int) returns (r: Option<int>)
    requires IsYearly(s)
    ensures r.Some? ==> IsLast(s, now, r.value)
    ensures r.None? <==> forall t :: !Occurs(s, t)
  {
    var n := DateParts(now);
    var year := n.year;
    var y := year;
    forall z | z > year && DateExists(s, z) ensures YearInstant(s, z) > now {
      YearAndNow(s, now, z);
    }
    while y >= year - 8
      invariant year - 9 <= y <= year
      invariant forall z :: z > y && DateExists(s, z) ==> YearInstant(s, z) > now
    {
      var t := YearInstant(s, y);
      var date := DateParts(t);
      YearInstantDate(s, y);
      if date.day == s.day && !(t > now) {
        forall u | Occurs(s, u) && u <= now ensures u <= t {
          YearlyOccurrence(s, u);
          if DateOf(u).year < y {
            YearsInOrder(s, DateOf(u).year, y);
          }
        }
        return Some(t);
      }
      y := y - 1;
    }
    forall t ensures !Occurs(s, t) {
      if Occurs(s, t) {
        YearlyOccurrence(s, t);
        var z := ExistsNearby(s, DateOf(t).year, year - 8);
        YearAndNow(s, now, z);
        assert false;
      }
    }
    return None;
  }

  method NextYearly(s: Plan, after: int) returns (r: Option<int>)
    requires IsYearly(s)
    ensures r.Some? ==> IsNext(s, after, r.value)
    ensures r.None? <==> forall t :: !Occurs(s, t)
  {
    var a := DateParts(after);
    var year := a.year;
    forall z | z < year && DateExists(s, z) ensures YearInstant(s, z) <= after {
      YearAndNow(s, after, z);
    }
    for y := year to year + 9
      invariant forall z :: z < y && DateExists(s, z) ==> YearInstant(s, z) <= after
    {
      var t := YearInstant(s, y);
      var date := DateParts(t);
      YearInstantDate(s, y);
      if date.day != s.day || !(t > after) {
        continue;
      }
      forall u | Occurs(s, u) && u > after ensures u >= t {
        YearlyOccurrence(s, u);
        if DateOf(u).year > y {
          YearsInOrder(s, y, DateOf(u).year);
        }
      }
      return Some(t);
    }
    forall t ensures !Occurs(s, t) {
      if Occurs(s, t) {
        YearlyOccurrence(s, t);
        var z := ExistsNearby(s, DateOf(t).year, year + 1);
        YearAndNow(s, after, z);
        assert false;
      }
    }
    return None;
  }

  // -------------------------------------------------------------- the entry points

  /** The greatest occurrence not after `now`; None stands for the zero time. */
  method LastOccurrence(s: Plan, now: int) returns (r: Option<int>)
    ensures r.Some? ==> IsLast(s, now, r.value)
    ensures r.None? <==> forall t :: !Occurs(s, t)
  {
    match s.kind {
      case MonthlyKind =>
        if s.time.None? {
          return None;
        }
        var cand := LastMonthly(s, now);
        return Some(cand);
      case YearlyKind =>
        if s.time.None? || s.month < 1 || s.month > 12 || s.day < 1 || s.day > 31 {
          return None;
        }
        r := LastYearly(s, now);
      case _ =>
        return None;
    }
  }

  /** The least occurrence after `after`, or one interval later. */
  method NextTrigger(s: Plan, after: int) returns (r: Option<int>)
    ensures s.kind == IntervalKind ==> r == if s.interval <= 0 then None else Some(after + s.interval * SECOND)
    ensures s.kind != IntervalKind && r.Some? ==> IsNext(s, after, r.value)
    ensures s.kind != IntervalKind ==> (r.None? <==> forall t :: !Occurs(s, t))
  {
    match s.kind {
      case IntervalKind =>
        if s.interval <= 0 {
          return None;
        }
        return Some(after + s.interval * SECOND);
      case MonthlyKind =>
        if s.time.None? {
          return None;
        }
        var cand := NextMonthly(s, after);
        return Some(cand);
      case YearlyKind =>
        if s.time.None? || s.month < 1 || s.month > 12 || s.day < 1 || s.day > 31 {
          return None;
        }
        r := NextYearly(s, after);
      case _ =>
        return None;
    }
  }

  /** The search finds nothing exactly for dates that exist in no year. */
  lemma NeverOccurs(s: Plan)
    requires IsYearly(s)
    ensures (forall t :: !Occurs(s, t)) <==> s.day > (if s.month == 2 then 29 else DaysInMonth(1, s.month))
  {
    if s.day <= (if s.month == 2 then 29 else DaysInMonth(1, s.month)) {
      var y := if s.month == 2 then 4 else 1;
      YearInstantDate(s, y);
      assert Occurs(s, YearInstant(s, y));
    } else {
      forall t ensures !Occurs(s, t) {
        assert !DateExists(s, DateOf(t).year);
      }
    }
  }

  /** A plan is due: an occurrence has come since the last success, or the interval has passed. */
  ghost predicate IsDue(s: Plan, last: Option<int>, now: int) {
    if s.kind == IntervalKind then
      s.interval > 0 && (last.None? || now >= last.value + s.interval * SECOND)
    else
      exists t :: Occurs(s, t) && t <= now && (last.None? || last.value < t)
  }

  method DueAt(s: Plan, last: Option<int>, now: int) returns (due: bool, next: Option<int>)
    ensures due <==> IsDue(s, last, now)
    ensures due && s.kind == IntervalKind ==> next == Some(now)
    ensures due && s.kind != IntervalKind ==> next.Some? && IsLast(s, now, next.value)
    ensures !due && s.kind == IntervalKind && s.interval > 0 ==> next == Some(last.value + s.interval * SECOND)
    ensures !due && s.kind == IntervalKind && s.interval <= 0 ==> next == None
    ensures !due && s.kind != IntervalKind ==>
              (next.Some? ==> IsNext(s, now, next.value)) && (next.None? <==> forall t :: !Occurs(s, t))
  {
    if s.kind == IntervalKind {
      if s.interval <= 0 {
        return false, None;
      }
      if last.None? {
        return true, Some(now);
      }
      var ready := last.value + s.interval * SECOND;
      if !(now < ready) {
        return true, Some(now);
      }
      return false, Some(ready);
    } else if s.kind == MonthlyKind || s.kind == YearlyKind {
      var occ := LastOccurrence(s, now);
      if occ.None? {
        return false, None;
      }
      if last.None? || last.value < occ.value {
        return true, occ;
      }
      next := NextTrigger(s, now);
      return false, next;
    } else {
      return false, None;
    }
  }
}
