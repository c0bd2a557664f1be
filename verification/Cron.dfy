/** A parsed five-field cron expression and the search for its next firing. */
module Cron {
  import opened Calendar
  import opened Wrappers

  /** Instants are nanoseconds, in UTC, since the start of year 1. */
  const LOOKAHEAD := 158_112_000_000_000_000  // 5 * 366 days

  /** The instant minute `t` begins. */
  function At(t: nat): nat {
    t * 60_000_000_000
  }

  function MinuteOf(instant: nat): nat {
    instant / 60_000_000_000
  }

  /** The instant day `d` begins. */
  function Midnight(d: nat): nat {
    d * 86_400_000_000_000
  }

  function DayOf(instant: nat): nat {
    instant / 86_400_000_000_000
  }

  datatype Schedule = Schedule(
    minute: seq<bool>, hour: seq<bool>, dom: seq<bool>, month: seq<bool>, dow: seq<bool>,
    domStar: bool, dowStar: bool)

  /** The field arrays' sizes. */
  predicate Sized(s: Schedule) {
    |s.minute| == 60 && |s.hour| == 24 && |s.dom| == 32 && |s.month| == 13 && |s.dow| == 7
  }

  ghost predicate Some1(field: seq<bool>, lo: nat) {
    exists v :: lo <= v < |field| && field[v]
  }

  /** What a successful parse guarantees: every field names a value, and a `*` names them all. */
  ghost predicate Parsed(s: Schedule) {
    && Sized(s)
    && Some1(s.minute, 0) && Some1(s.hour, 0) && Some1(s.dom, 1) && Some1(s.month, 1) && Some1(s.dow, 0)
    && (s.domStar ==> forall v :: 1 <= v <= 31 ==> s.dom[v])
    && (s.dowStar ==> forall v :: 0 <= v <= 6 ==> s.dow[v])
  }

  /** Both day fields when either is `*`, otherwise either one; `n` counts days. */
  predicate MatchesDay(s: Schedule, n: nat)
    requires Sized(s)
  {
    DateOfNumber(n);
    var date := DateOf(n);
    s.month[date.month]
    && (if s.domStar || s.dowStar then s.dom[date.day] && s.dow[Weekday(n)]
        else s.dom[date.day] || s.dow[Weekday(n)])
  }

  /** `t` counts minutes. */
  predicate Matches(s: Schedule, t: nat)
    requires Sized(s)
  {
    MatchesDay(s, t / 1440) && s.hour[t % 1440 / 60] && s.minute[t % 60]
  }

  /** The day rule, field by field: a day must be in the month field and in each day field that is not a
      `*`, or, when neither is, in one of the two. */
  lemma DayRule(s: Schedule, date: Date)
    requires Parsed(s) && Valid(date) && DayNumber(date) >= 0
    ensures
      MatchesDay(s, DayNumber(date)) <==>
      && s.month[date.month]
      && (!s.domStar && !s.dowStar ==> s.dom[date.day] || s.dow[Weekday(DayNumber(date))])
      && (s.domStar && !s.dowStar ==> s.dow[Weekday(DayNumber(date))])
      && (s.dowStar && !s.domStar ==> s.dom[date.day])
  {
    NumberRoundTrip(date);
  }

  /** A time of day on a date matches exactly when the date does and its hour and minute are named. */
  lemma TimeRule(s: Schedule, day: nat, hour: nat, minute: nat)
    requires Sized(s) && hour < 24 && minute < 60
    ensures Matches(s, day * 1440 + hour * 60 + minute) <==> MatchesDay(s, day) && s.hour[hour] && s.minute[minute]
  {
    var t := day * 1440 + hour * 60 + minute;
    assert t / 1440 == day && t % 1440 == hour * 60 + minute;
    assert t % 60 == minute;
  }

  /** The instants the search considers. */
  predicate InWindow(after: nat, t: nat) {
    after < At(t) < after + LOOKAHEAD
  }

  /** `r` is the least matching minute strictly after `after` inside the lookahead, or none exists. */
  ghost predicate IsNext(s: Schedule, after: nat, r: Option<nat>)
    requires Sized(s)
  {
    match r
    case Some(t) => InWindow(after, t) && Matches(s, t) && forall u: nat :: InWindow(after, u) && u < t ==> !Matches(s, u)
    case None => forall u: nat :: InWindow(after, u) ==> !Matches(s, u)
  }

  lemma NextUnique(s: Schedule, after: nat, a: Option<nat>, b: Option<nat>)
    requires Sized(s) && IsNext(s, after, a) && IsNext(s, after, b)
    ensures a == b
  {
    if a.Some? && b.Some? {
      assert !(a.value < b.value) && !(b.value < a.value);
    }
  }

  /** The search, a whole day at a time where the date does not match. */
  method Next(s: Schedule, after: nat) returns (r: Option<nat>)
    requires Sized(s)
    ensures IsNext(s, after, r)
  {
    var t: nat := MinuteOf(after) + 1;
    while At(t) < after + LOOKAHEAD
      invariant after < At(t)
      invariant forall u: nat :: InWindow(after, u) && u < t ==> !Matches(s, u)
      decreases after + LOOKAHEAD - At(t)
    {
      var day := t / 1440;
      if !MatchesDay(s, day) {
        var midnight := (day + 1) * 1440;
        forall u: nat | InWindow(after, u) && u < midnight ensures !Matches(s, u) {
          if u >= t { SameDay(u, t); }
        }
        t := midnight;
        continue;
      }
      if s.hour[t % 1440 / 60] && s.minute[t % 60] {
        return Some(t);
      }
      t := t + 1;
    }
    return None;
  }

  lemma SameDay(u: nat, t: nat)
    requires t <= u < (t / 1440 + 1) * 1440
    ensures u / 1440 == t / 1440
  {
  }

  ghost function Search(s: Schedule, after: nat, t: nat): (r: Option<nat>)
    requires Sized(s) && after < At(t)
    requires forall u: nat :: InWindow(after, u) && u < t ==> !Matches(s, u)
    ensures IsNext(s, after, r)
    decreases after + LOOKAHEAD - At(t)
  {
    if At(t) >= after + LOOKAHEAD then None
    else if Matches(s, t) then Some(t)
    else Search(s, after, t + 1)
  }

  ghost function NextAt(s: Schedule, after: nat): (r: Option<nat>)
    requires Sized(s)
    ensures IsNext(s, after, r)
  {
    Search(s, after, MinuteOf(after) + 1)
  }

  /** Asking again before the firing gives the same firing. */
  lemma NextStable(s: Schedule, a: nat, b: nat)
    requires Sized(s) && a <= b
    requires NextAt(s, a).Some? && b < At(NextAt(s, a).value)
    ensures NextAt(s, b) == NextAt(s, a)
  {
    var n := NextAt(s, a);
    assert forall u: nat :: InWindow(b, u) && u < n.value ==> InWindow(a, u);
    assert IsNext(s, b, n);
    NextUnique(s, b, n, NextAt(s, b));
  }

  // ---- Which expressions fire, and when one is missed ----

  /** Day fields that some month can satisfy by day-of-month alone. */
  ghost predicate Reachable(s: Schedule, m: nat, d: nat)
    requires Sized(s)
  {
    1 <= m <= 12 && 1 <= d <= MaxLength(m) && s.month[m] && s.dom[d]
  }

  /** Only the day-of-month decides: the day-of-week is `*` and the day-of-month is not. */
  predicate ByDate(s: Schedule) {
    s.dowStar && !s.domStar
  }

  /** No date of any year matches, such as 30 February. */
  ghost predicate Never(s: Schedule)
    requires Sized(s)
  {
    ByDate(s) && forall m, d :: !Reachable(s, m, d)
  }

  /** 29 February is the only date that matches. */
  ghost predicate LeapOnly(s: Schedule)
    requires Sized(s)
  {
    ByDate(s) && Reachable(s, 2, 29) && forall m, d :: Reachable(s, m, d) ==> m == 2 && d == 29
  }

  lemma NeverMatches(s: Schedule, n: nat)
    requires Parsed(s) && Never(s)
    ensures !MatchesDay(s, n)
  {
    DateOfNumber(n);
    var date := DateOf(n);
    assert !Reachable(s, date.month, date.day);
  }

  lemma LeapOnlyMatches(s: Schedule, n: nat)
    requires Parsed(s) && LeapOnly(s)
    ensures MatchesDay(s, n) <==> DateOf(n).month == 2 && DateOf(n).day == 29
  {
    DateOfNumber(n);
    var date := DateOf(n);
    assert 0 <= Weekday(n) <= 6;
    if MatchesDay(s, n) {
      assert Reachable(s, date.month, date.day);
    }
  }

  /** Any seven days in a row hold every weekday. */
  lemma WeekdayWithin(n: nat, w: nat) returns (k: nat)
    requires w < 7
    ensures k < 7 && Weekday(n + k) == w
  {
    k := (w + 7 - Weekday(n)) % 7;
    WeekdayModulo(n);
    WeekdayModulo(n + k);
  }

  /** A date of next year is at most two years of days away. */
  lemma NextYear(n: nat, date: Date)
    requires Valid(date) && date.year == DateOf(n).year + 1
    ensures n < DayNumber(date) <= n + 731
  {
    DateOfNumber(n);
    var y := DateOf(n).year;
    WithinYear(DateOf(n));
    WithinYear(date);
    YearLength(y);
    YearLength(y + 1);
  }

  lemma EarlyInMonth(y: nat, m: nat, k: nat)
    requires 1 <= y && 1 <= m <= 12 && k < 7
    ensures Valid(Date(y, m, 1)) && Valid(Date(y, m, 1 + k))
    ensures DayNumber(Date(y, m, 1 + k)) == DayNumber(Date(y, m, 1)) + k
  {
  }

  /** Some day in the first week of a month falls on weekday `w`. */
  lemma EarlyWeekday(y: nat, m: nat, w: nat) returns (date: Date)
    requires 1 <= y && 1 <= m <= 12 && w < 7
    ensures Valid(date) && date.year == y && date.month == m
    ensures DayNumber(date) >= 0 && Weekday(DayNumber(date)) == w
  {
    EarlyInMonth(y, m, 0);
    NumberNotNegative(Date(y, m, 1));
    var k := WeekdayWithin(DayNumber(Date(y, m, 1)), w);
    EarlyInMonth(y, m, k);
    date := Date(y, m, 1 + k);
  }

  lemma FirstWeek(n: nat, m: nat, w: nat) returns (day: nat)
    requires 1 <= m <= 12 && w < 7
    ensures n < day <= n + 731 && DateOf(day).month == m && Weekday(day) == w
  {
    var date := EarlyWeekday(DateOf(n).year + 1, m, w);
    NextYear(n, date);
    NumberRoundTrip(date);
    day := DayNumber(date);
  }

  lemma FiresOnWeekday(s: Schedule, n: nat) returns (day: nat)
    requires Parsed(s) && !ByDate(s)
    ensures n < day <= n + 731 && MatchesDay(s, day)
  {
    var m :| 1 <= m < |s.month| && s.month[m];
    var w :| 0 <= w < |s.dow| && s.dow[w];
    day := FirstWeek(n, m, w);
    DateOfNumber(day);
    assert 1 <= DateOf(day).day <= 31;
  }

  lemma FiresOnDate(s: Schedule, n: nat, m: nat, d: nat) returns (day: nat)
    requires Parsed(s) && ByDate(s) && Reachable(s, m, d) && !(m == 2 && d == 29)
    ensures n < day <= n + 731 && MatchesDay(s, day)
  {
    var date := Date(DateOf(n).year + 1, m, d);
    NextYear(n, date);
    NumberRoundTrip(date);
    day := DayNumber(date);
    assert 0 <= Weekday(day) <= 6;
  }

  /** An expression that is not tied to 29 February alone fires within two years of any day. */
  lemma FiresEveryYear(s: Schedule, n: nat) returns (day: nat)
    requires Parsed(s) && !Never(s) && !LeapOnly(s)
    ensures n < day <= n + 731 && MatchesDay(s, day)
  {
    if ByDate(s) {
      var m, d :| Reachable(s, m, d) && !(m == 2 && d == 29);
      day := FiresOnDate(s, n, m, d);
    } else {
      day := FiresOnWeekday(s, n);
    }
  }

  /** Some minute of a matching day matches. */
  lemma MinuteOfDay(s: Schedule, day: nat) returns (t: nat)
    requires Parsed(s) && MatchesDay(s, day)
    ensures Matches(s, t) && t / 1440 == day
  {
    var h :| 0 <= h < |s.hour| && s.hour[h];
    var m :| 0 <= m < |s.minute| && s.minute[m];
    t := day * 1440 + h * 60 + m;
    Clock(day, h, m);
  }

  lemma Clock(day: nat, h: nat, m: nat)
    requires h < 24 && m < 60
    ensures var t := day * 1440 + h * 60 + m; t / 1440 == day && t % 1440 / 60 == h && t % 60 == m
  {
    var t := day * 1440 + h * 60 + m;
    assert t / 1440 == day && t % 1440 == h * 60 + m;
    assert t % 60 == m by {
      assert t == (day * 24 + h) * 60 + m;
    }
  }

  /** Every expression that some date satisfies, other than 29 February alone, fires from anywhere. */
  lemma OrdinaryAlwaysFires(s: Schedule, after: nat)
    requires Parsed(s) && !Never(s) && !LeapOnly(s)
    ensures NextAt(s, after).Some?
  {
    var day := FiresEveryYear(s, DayOf(after));
    var t := MinuteOfDay(s, day);
    assert At(t) >= Midnight(day) && At(t) < Midnight(day + 1);
    assert InWindow(after, t);
  }

  lemma NeverFires(s: Schedule, after: nat)
    requires Parsed(s) && Never(s)
    ensures NextAt(s, after).None?
  {
    var r := NextAt(s, after);
    if r.Some? {
      NeverMatches(s, r.value / 1440);
    }
  }

  /** Minute `m` of hour `h` on 29 February of leap year `y`. */
  ghost function LeapMinute(y: nat, h: nat, m: nat): nat
    requires y >= 1 && IsLeap(y)
  {
    LeapDay(y) * 1440 + h * 60 + m
  }

  /** `after` lies in the eight-year gap around a century year that is not leap, past the last firing
      before it and a full lookahead ahead of the first firing after it. */
  ghost predicate InCenturyGap(s: Schedule, after: nat, p: nat)
    requires Sized(s)
  {
    && 1 <= p && IsLeap(p) && !IsLeap(p + 4) && IsLeap(p + 8)
    && forall h, m :: 0 <= h < 24 && 0 <= m < 60 && s.hour[h] && s.minute[m] ==>
         && At(LeapMinute(p, h, m)) <= after
         && after + LOOKAHEAD <= At(LeapMinute(p + 8, h, m))
  }

  ghost predicate AtTime(s: Schedule, h: nat, m: nat)
    requires Sized(s)
  {
    h < 24 && m < 60 && s.hour[h] && s.minute[m]
  }

  /** A leap-only match is a named minute of some 29 February. */
  lemma LeapFiring(s: Schedule, t: nat) returns (y: nat, h: nat, m: nat)
    requires Parsed(s) && LeapOnly(s) && Matches(s, t)
    ensures 1 <= y && IsLeap(y) && AtTime(s, h, m) && t == LeapMinute(y, h, m)
  {
    var day := t / 1440;
    LeapOnlyMatches(s, day);
    DateOfNumber(day);
    y, h, m := DateOf(day).year, t % 1440 / 60, t % 60;
    LeapYearOf(day);
    LeapDayUnique(day, y);
    ClockSplit(t);
  }

  lemma LeapYearOf(n: nat)
    requires DateOf(n).month == 2 && DateOf(n).day == 29
    ensures DateOf(n).year >= 1 && IsLeap(DateOf(n).year)
  {
    DateOfNumber(n);
  }

  lemma ClockSplit(t: nat)
    ensures t == t / 1440 * 1440 + t % 1440 / 60 * 60 + t % 60
    ensures t % 1440 / 60 < 24
  {
  }

  lemma LeapMinuteMatches(s: Schedule, y: nat, h: nat, m: nat) returns (t: nat)
    requires Parsed(s) && LeapOnly(s) && 1 <= y && IsLeap(y) && AtTime(s, h, m)
    ensures t == LeapMinute(y, h, m) && Matches(s, t)
  {
    LeapOnlyMatches(s, LeapDay(y));
    t := LeapMinute(y, h, m);
    Clock(LeapDay(y), h, m);
  }

  lemma LeapMinuteWithin(y: nat, h: nat, m: nat)
    requires 1 <= y && IsLeap(y) && h < 24 && m < 60
    ensures Midnight(LeapDay(y)) <= At(LeapMinute(y, h, m)) < Midnight(LeapDay(y) + 1)
  {
  }

  lemma GapMisses(s: Schedule, after: nat, p: nat)
    requires Parsed(s) && LeapOnly(s) && InCenturyGap(s, after, p)
    ensures NextAt(s, after).None?
  {
    forall t: nat | Matches(s, t) ensures !InWindow(after, t) {
      var y, h, m := LeapFiring(s, t);
      LeapGapYears(p, y);
      OutsideGap(s, after, p, y, h, m);
    }
  }

  lemma LeapGapYears(p: nat, y: nat)
    requires IsLeap(p) && !IsLeap(p + 4) && IsLeap(y)
    ensures y <= p || p + 8 <= y
  {
  }

  lemma OutsideGap(s: Schedule, after: nat, p: nat, y: nat, h: nat, m: nat)
    requires Sized(s) && InCenturyGap(s, after, p) && AtTime(s, h, m)
    requires 1 <= y && IsLeap(y) && (y <= p || p + 8 <= y)
    ensures !InWindow(after, LeapMinute(y, h, m))
  {
    if y < p { LeapDayMonotone(y, p); }
    if p + 8 < y { LeapDayMonotone(p + 8, y); }
  }

  /** All firings of 29 February of year `y` are at or before `after`. */
  ghost predicate Passed(s: Schedule, after: nat, y: nat)
    requires Sized(s) && y >= 1 && IsLeap(y)
  {
    forall h, m :: AtTime(s, h, m) ==> At(LeapMinute(y, h, m)) <= after
  }

  lemma EarlierYearPassed(s: Schedule, after: nat, y: nat)
    requires Sized(s) && 1 <= y && IsLeap(y) && y < DateOf(DayOf(after)).year
    ensures Passed(s, after, y)
  {
    var n := DayOf(after);
    LeapDayBefore(y, n);
    forall h, m | AtTime(s, h, m) ensures At(LeapMinute(y, h, m)) <= after {
      LeapMinuteWithin(y, h, m);
      assert Midnight(LeapDay(y) + 1) <= Midnight(n) <= after;
    }
  }

  lemma LaterYearAhead(s: Schedule, after: nat, y: nat)
    requires Parsed(s) && IsLeap(y) && y > DateOf(DayOf(after)).year
    ensures !Passed(s, after, y)
  {
    var n := DayOf(after);
    LeapDayAfter(y, n);
    var h, m := SomeTime(s);
    LeapMinuteWithin(y, h, m);
    assert after < Midnight(n + 1) <= Midnight(LeapDay(y));
  }

  lemma SomeTime(s: Schedule) returns (h: nat, m: nat)
    requires Parsed(s)
    ensures AtTime(s, h, m)
  {
    h :| 0 <= h < |s.hour| && s.hour[h];
    m :| 0 <= m < |s.minute| && s.minute[m];
  }

  ghost predicate AllPassed(s: Schedule, after: nat, q: nat)
    requires Sized(s)
  {
    forall z: nat | 1 <= z < q && IsLeap(z) :: Passed(s, after, z)
  }

  lemma PassedBeforeNext(s: Schedule, after: nat, y: nat)
    requires Parsed(s) && y >= 1 && AllPassed(s, after, y)
    ensures AllPassed(s, after, NextLeap(y))
  {
  }

  /** The first leap year with a firing still ahead. */
  lemma AheadLeap(s: Schedule, after: nat) returns (q: nat)
    requires Parsed(s)
    ensures q >= 1 && IsLeap(q) && !Passed(s, after, q) && AllPassed(s, after, q)
  {
    DateOfNumber(DayOf(after));
    var year := DateOf(DayOf(after)).year;
    forall z: nat | 1 <= z < year && IsLeap(z) ensures Passed(s, after, z) {
      EarlierYearPassed(s, after, z);
    }
    PassedBeforeNext(s, after, year);
    q := NextLeap(year);
    if Passed(s, after, q) {
      q := AheadNext(s, after, q);
    }
  }

  lemma AheadNext(s: Schedule, after: nat, y: nat) returns (q: nat)
    requires Parsed(s) && y >= 1 && IsLeap(y) && Passed(s, after, y) && AllPassed(s, after, y)
    requires y >= DateOf(DayOf(after)).year
    ensures q >= 1 && IsLeap(q) && !Passed(s, after, q) && AllPassed(s, after, q)
  {
    assert AllPassed(s, after, y + 1);
    PassedBeforeNext(s, after, y + 1);
    q := NextLeap(y + 1);
    LaterYearAhead(s, after, q);
  }

  lemma LeapAheadFires(s: Schedule, after: nat, q: nat)
    requires Parsed(s) && LeapOnly(s) && q >= 1 && IsLeap(q) && !Passed(s, after, q)
    requires Midnight(LeapDay(q) + 1) <= after + LOOKAHEAD
    ensures NextAt(s, after).Some?
  {
    var h, m :| AtTime(s, h, m) && At(LeapMinute(q, h, m)) > after;
    var t := LeapMinuteMatches(s, q, h, m);
    LeapMinuteWithin(q, h, m);
    assert InWindow(after, t);
  }

  lemma FirstLeapDay()
    ensures LeapDay(4) == 1154
  {
    LeapDayNumber(4);
  }

  /** A leap-only expression is missed exactly in the gap around a non-leap century year. */
  lemma LeapOnlyMissed(s: Schedule, after: nat)
    requires Parsed(s) && LeapOnly(s)
    ensures NextAt(s, after).None? <==> exists p :: InCenturyGap(s, after, p)
  {
    if p :| InCenturyGap(s, after, p) {
      GapMisses(s, after, p);
    }
    if NextAt(s, after).None? {
      var p := MissedInGap(s, after);
    }
  }

  lemma MissedInGap(s: Schedule, after: nat) returns (p: nat)
    requires Parsed(s) && LeapOnly(s) && NextAt(s, after).None?
    ensures InCenturyGap(s, after, p)
  {
    var q := AheadLeap(s, after);
    OutOfReach(s, after, q);
    NoShortGap(s, after, q);
    LeapBefore(q);
    p := q - 8;
    forall h, m | 0 <= h < 24 && 0 <= m < 60 && s.hour[h] && s.minute[m]
      ensures At(LeapMinute(p, h, m)) <= after
      ensures after + LOOKAHEAD <= At(LeapMinute(q, h, m))
    {
      assert AtTime(s, h, m);
      BeyondWindow(s, after, q, h, m);
      assert Passed(s, after, p);
    }
  }

  lemma OutOfReach(s: Schedule, after: nat, q: nat)
    requires Parsed(s) && LeapOnly(s) && NextAt(s, after).None?
    requires q >= 1 && IsLeap(q) && !Passed(s, after, q)
    ensures Midnight(LeapDay(q) + 1) > after + LOOKAHEAD
  {
    if Midnight(LeapDay(q) + 1) <= after + LOOKAHEAD {
      LeapAheadFires(s, after, q);
    }
  }

  /** A leap day out of reach did not follow another by four years. */
  lemma NoShortGap(s: Schedule, after: nat, q: nat)
    requires Parsed(s) && q >= 1 && IsLeap(q) && AllPassed(s, after, q)
    requires Midnight(LeapDay(q) + 1) > after + LOOKAHEAD
    ensures q > 4 && !IsLeap(q - 4)
  {
    FirstLeapDay();
    if q > 4 && IsLeap(q - 4) {
      assert Passed(s, after, q - 4);
      PassedBound(s, after, q - 4);
      ShortGap(q - 4);
    }
  }

  lemma BeyondWindow(s: Schedule, after: nat, q: nat, h: nat, m: nat)
    requires Parsed(s) && LeapOnly(s) && IsNext(s, after, None)
    requires q >= 1 && IsLeap(q) && AtTime(s, h, m)
    requires Midnight(LeapDay(q) + 1) > after + LOOKAHEAD
    ensures after + LOOKAHEAD <= At(LeapMinute(q, h, m))
  {
    var t := LeapMinuteMatches(s, q, h, m);
    assert !InWindow(after, t);
    LastDay(after, LeapDay(q), t, LeapMinute(q, h, m)) by {
      LeapMinuteWithin(q, h, m);
    }
  }

  lemma LastDay(after: nat, day: nat, t: nat, u: nat)
    requires t == u && !InWindow(after, t)
    requires Midnight(day) <= At(u) && Midnight(day + 1) > after + LOOKAHEAD
    ensures after + LOOKAHEAD <= At(u)
  {
  }

  lemma PassedBound(s: Schedule, after: nat, y: nat)
    requires Parsed(s) && y >= 1 && IsLeap(y) && Passed(s, after, y)
    ensures Midnight(LeapDay(y)) <= after
  {
    var h, m := SomeTime(s);
    LeapMinuteWithin(y, h, m);
  }

  lemma LeapBefore(q: nat)
    requires q > 4 && IsLeap(q)
    ensures q >= 8
    ensures !IsLeap(q - 4) ==> q >= 9 && IsLeap(q - 8)
  {
  }

  /** Every expression some date satisfies fires from every instant, save 29 February alone across a
      century gap; 2096 is such a gap: after 29 February 2096 midnight fires next in 2104. */
  lemma NextFires(s: Schedule, after: nat)
    requires Parsed(s)
    ensures NextAt(s, after).None? <==> Never(s) || (LeapOnly(s) && exists p :: InCenturyGap(s, after, p))
  {
    if Never(s) {
      NeverFires(s, after);
    } else if LeapOnly(s) {
      LeapOnlyMissed(s, after);
    } else {
      OrdinaryAlwaysFires(s, after);
    }
  }

  /** Asked on 29 February 2096 at midnight, `0 0 29 2 *` reports "never", though 2104 is coming. */
  lemma CenturyGapExample(s: Schedule)
    requires Parsed(s) && LeapOnly(s) && AtTime(s, 0, 0)
    requires forall h, m :: AtTime(s, h, m) ==> h == 0 && m == 0
    ensures IsLeap(2096) && NextAt(s, Midnight(LeapDay(2096))).None?
    ensures exists t: nat :: At(t) > Midnight(LeapDay(2096)) && Matches(s, t)
  {
    GapAt2096(s);
    GapMisses(s, Midnight(LeapDay(2096)), 2096);
    FiresIn2104(s);
  }

  lemma GapAt2096(s: Schedule)
    requires Sized(s) && forall h, m :: AtTime(s, h, m) ==> h == 0 && m == 0
    ensures IsLeap(2096) && InCenturyGap(s, Midnight(LeapDay(2096)), 2096)
  {
    LongGap(2096);
    forall h, m | 0 <= h < 24 && 0 <= m < 60 && s.hour[h] && s.minute[m] ensures h == 0 && m == 0 {
      assert AtTime(s, h, m);
    }
  }

  lemma FiresIn2104(s: Schedule)
    requires Parsed(s) && LeapOnly(s) && AtTime(s, 0, 0)
    ensures exists t: nat :: At(t) > Midnight(LeapDay(2096)) && Matches(s, t)
  {
    var t := LeapMinuteMatches(s, 2104, 0, 0);
    LeapDayMonotone(2096, 2104);
    LeapMinuteWithin(2104, 0, 0);
  }

  /** `0 0 29 2 *` is such an expression. */
  lemma LeapMidnightExists() returns (s: Schedule)
    ensures Parsed(s) && LeapOnly(s) && AtTime(s, 0, 0)
    ensures forall h, m :: AtTime(s, h, m) ==> h == 0 && m == 0
  {
    s := Schedule(seq(60, i => i == 0), seq(24, i => i == 0), seq(32, i => i == 29), seq(13, i => i == 2),
                  seq(7, i => true), false, true);
    assert s.minute[0] && s.hour[0] && s.dom[29] && s.month[2] && s.dow[0];
    assert Reachable(s, 2, 29);
  }
}
