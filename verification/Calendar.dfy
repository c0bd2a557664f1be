/** The proleptic Gregorian calendar, in UTC, with days counted from Monday 1 January of year 1. */
module Calendar {

  datatype Date = Date(year: nat, month: nat, day: nat)

  predicate IsLeap(y: nat) {
    y % 4 == 0 && (y % 100 != 0 || y % 400 == 0)
  }

  /** The longest that month `m` ever is. */
  function MaxLength(m: nat): nat {
    if m == 2 then 29 else if m in {4, 6, 9, 11} then 30 else 31
  }

  function MonthLength(y: nat, m: nat): nat {
    if m == 2 && !IsLeap(y) then 28 else MaxLength(m)
  }

  predicate Valid(d: Date) {
    1 <= d.year && 1 <= d.month <= 12 && 1 <= d.day <= MonthLength(d.year, d.month)
  }

  /** The day after `d`: what adding one day to a date means. */
  function NextDate(d: Date): Date {
    if d.day < MonthLength(d.year, d.month) then Date(d.year, d.month, d.day + 1)
    else if d.month < 12 then Date(d.year, d.month + 1, 1)
    else Date(d.year + 1, 1, 1)
  }

  function DateOf(n: nat): Date {
    if n == 0 then Date(1, 1, 1) else NextDate(DateOf(n - 1))
  }

  /** Sunday is 0; 1 January of year 1 is a Monday. */
  function Weekday(n: nat): (w: nat)
    ensures w < 7
  {
    if n == 0 then 1 else if Weekday(n - 1) == 6 then 0 else Weekday(n - 1) + 1
  }

  lemma {:induction false} WeekdayModulo(n: nat)
    ensures Weekday(n) == (n + 1) % 7
  {
    if n > 0 { WeekdayModulo(n - 1); }
  }

  /** The days before 1 January of year `y`. */
  function YearStart(y: nat): int
    requires y >= 1
  {
    if y == 1 then 0 else YearStart(y - 1) + 365 + (if IsLeap(y - 1) then 1 else 0)
  }

  function DaysBefore(y: nat, m: nat): nat
    requires m >= 1
  {
    if m == 1 then 0 else DaysBefore(y, m - 1) + MonthLength(y, m - 1)
  }

  function DayNumber(d: Date): int
    requires Valid(d)
  {
    YearStart(d.year) + DaysBefore(d.year, d.month) + d.day - 1
  }

  lemma DaysBeforeTable(y: nat)
    ensures DaysBefore(y, 1) == 0 && DaysBefore(y, 2) == 31
    ensures DaysBefore(y, 3) == 59 + (if IsLeap(y) then 1 else 0)
    ensures DaysBefore(y, 4) == DaysBefore(y, 3) + 31 && DaysBefore(y, 5) == DaysBefore(y, 3) + 61
    ensures DaysBefore(y, 6) == DaysBefore(y, 3) + 92 && DaysBefore(y, 7) == DaysBefore(y, 3) + 122
    ensures DaysBefore(y, 8) == DaysBefore(y, 3) + 153 && DaysBefore(y, 9) == DaysBefore(y, 3) + 184
    ensures DaysBefore(y, 10) == DaysBefore(y, 3) + 214 && DaysBefore(y, 11) == DaysBefore(y, 3) + 245
    ensures DaysBefore(y, 12) == DaysBefore(y, 3) + 275
  {
    assert DaysBefore(y, 2) == DaysBefore(y, 1) + 31;
    assert DaysBefore(y, 3) == DaysBefore(y, 2) + MonthLength(y, 2);
    assert DaysBefore(y, 4) == DaysBefore(y, 3) + 31;
    assert DaysBefore(y, 5) == DaysBefore(y, 4) + 30;
    assert DaysBefore(y, 6) == DaysBefore(y, 5) + 31;
    assert DaysBefore(y, 7) == DaysBefore(y, 6) + 30;
    assert DaysBefore(y, 8) == DaysBefore(y, 7) + 31;
    assert DaysBefore(y, 9) == DaysBefore(y, 8) + 31;
    assert DaysBefore(y, 10) == DaysBefore(y, 9) + 30;
    assert DaysBefore(y, 11) == DaysBefore(y, 10) + 31;
    assert DaysBefore(y, 12) == DaysBefore(y, 11) + 30;
  }

  lemma YearLength(y: nat)
    requires y >= 1
    ensures YearStart(y + 1) == YearStart(y) + 365 + (if IsLeap(y) then 1 else 0)
  {
  }

  /** The Gregorian rule in closed form: a leap day every fourth year, but not every hundredth, but every
      four hundredth. */
  lemma {:induction false} YearStartFormula(y: nat)
    requires y >= 1
    ensures YearStart(y) == 365 * (y - 1) + (y - 1) / 4 - (y - 1) / 100 + (y - 1) / 400
  {
    if y > 1 {
      YearStartFormula(y - 1);
      NextQuotients(y - 2);
    }
  }

  lemma NextQuotients(n: nat)
    ensures (n + 1) / 4 == n / 4 + (if (n + 1) % 4 == 0 then 1 else 0)
    ensures (n + 1) / 100 == n / 100 + (if (n + 1) % 100 == 0 then 1 else 0)
    ensures (n + 1) / 400 == n / 400 + (if (n + 1) % 400 == 0 then 1 else 0)
    ensures (n + 1) % 400 == 0 ==> (n + 1) % 100 == 0
    ensures (n + 1) % 100 == 0 ==> (n + 1) % 4 == 0
  {
  }

  lemma NextDateNumber(d: Date)
    requires Valid(d)
    ensures Valid(NextDate(d)) && DayNumber(NextDate(d)) == DayNumber(d) + 1
  {
    DaysBeforeTable(d.year);
    YearLength(d.year);
  }

  lemma {:induction false} DateOfNumber(n: nat)
    ensures Valid(DateOf(n)) && DayNumber(DateOf(n)) == n
  {
    if n > 0 {
      DateOfNumber(n - 1);
      NextDateNumber(DateOf(n - 1));
    } else {
      DaysBeforeTable(1);
    }
  }

  lemma WithinYear(d: Date)
    requires Valid(d)
    ensures YearStart(d.year) <= DayNumber(d) < YearStart(d.year + 1)
  {
    DaysBeforeTable(d.year);
    YearLength(d.year);
  }

  lemma {:induction false} YearStartMonotone(a: nat, b: nat)
    requires 1 <= a <= b
    ensures YearStart(a) + 365 * (b - a) <= YearStart(b) <= YearStart(a) + 366 * (b - a)
  {
    if a < b {
      YearStartMonotone(a, b - 1);
      YearLength(b - 1);
    }
  }

  lemma SameNumberSameDate(a: Date, b: Date)
    requires Valid(a) && Valid(b) && DayNumber(a) == DayNumber(b)
    ensures a == b
  {
    SameYear(a, b);
    DaysBeforeTable(a.year);
  }

  lemma EarlierYear(a: Date, b: Date)
    requires Valid(a) && Valid(b) && a.year < b.year
    ensures DayNumber(a) < DayNumber(b)
  {
    WithinYear(a);
    WithinYear(b);
    YearStartMonotone(a.year + 1, b.year);
  }

  lemma SameYear(a: Date, b: Date)
    requires Valid(a) && Valid(b) && DayNumber(a) == DayNumber(b)
    ensures a.year == b.year
  {
    if a.year < b.year { EarlierYear(a, b); }
    if b.year < a.year { EarlierYear(b, a); }
  }

  lemma NumberNotNegative(d: Date)
    requires Valid(d)
    ensures DayNumber(d) >= 0
  {
    WithinYear(d);
    YearStartMonotone(1, d.year);
  }

  /** Counting days and naming dates are inverse to each other. */
  lemma NumberRoundTrip(d: Date)
    requires Valid(d)
    ensures DayNumber(d) >= 0 && DateOf(DayNumber(d)) == d
  {
    NumberNotNegative(d);
    DateOfNumber(DayNumber(d));
    SameNumberSameDate(DateOf(DayNumber(d)), d);
  }

  // ---- Leap days ----

  lemma LeapDayExists(y: nat)
    requires y >= 1 && IsLeap(y)
    ensures Valid(Date(y, 2, 29)) && DayNumber(Date(y, 2, 29)) == YearStart(y) + 59 >= 0
    ensures DateOf(DayNumber(Date(y, 2, 29))) == Date(y, 2, 29)
  {
    DaysBeforeTable(y);
    NumberRoundTrip(Date(y, 2, 29));
  }

  /** The day number of 29 February of leap year `y`. */
  ghost function LeapDay(y: nat): (n: nat)
    requires y >= 1 && IsLeap(y)
    ensures DateOf(n) == Date(y, 2, 29)
  {
    LeapDayExists(y);
    assert DateOf(DayNumber(Date(y, 2, 29))) == Date(y, 2, 29);
    var n: nat :| DateOf(n) == Date(y, 2, 29);
    n
  }

  lemma LeapDayNumber(y: nat)
    requires y >= 1 && IsLeap(y)
    ensures LeapDay(y) == YearStart(y) + 59
  {
    LeapDayExists(y);
    DateOfNumber(LeapDay(y));
  }

  /** Distinct day numbers are distinct dates. */
  lemma LeapDayUnique(n: nat, y: nat)
    requires y >= 1 && IsLeap(y) && DateOf(n) == Date(y, 2, 29)
    ensures n == LeapDay(y)
  {
    DateOfNumber(n);
    DateOfNumber(LeapDay(y));
  }

  lemma LeapDayMonotone(y: nat, z: nat)
    requires 1 <= y < z && IsLeap(y) && IsLeap(z)
    ensures LeapDay(y) < LeapDay(z)
  {
    LeapDayNumber(y);
    LeapDayNumber(z);
    YearStartMonotone(y, z);
  }

  /** A leap day of an earlier year lies wholly before any day of a later one. */
  lemma LeapDayBefore(y: nat, n: nat)
    requires 1 <= y && IsLeap(y) && y < DateOf(n).year
    ensures LeapDay(y) < n
  {
    DateOfNumber(n);
    LeapDayNumber(y);
    WithinYear(DateOf(n));
    YearLength(y);
    YearStartMonotone(y + 1, DateOf(n).year);
  }

  lemma LeapDayAfter(y: nat, n: nat)
    requires IsLeap(y) && DateOf(n).year < y
    ensures n < LeapDay(y)
  {
    DateOfNumber(n);
    LeapDayNumber(y);
    WithinYear(DateOf(n));
    YearStartMonotone(DateOf(n).year + 1, y);
  }

  /** The least leap year from `y` on. */
  function NextLeap(y: nat): (r: nat)
    requires y >= 1
    ensures y <= r && IsLeap(r)
    ensures forall z :: y <= z < r ==> !IsLeap(z)
  {
    var c := (y + 3) / 4 * 4;
    if IsLeap(c) then c else c + 4
  }

  lemma FourYears(p: nat)
    requires p >= 1 && p % 4 == 0
    ensures YearStart(p + 4) == YearStart(p) + 1460 + (if IsLeap(p) then 1 else 0)
  {
    YearLength(p);
    YearLength(p + 1);
    YearLength(p + 2);
    YearLength(p + 3);
  }

  lemma LeapAfterCentury(p: nat)
    requires IsLeap(p) && !IsLeap(p + 4)
    ensures (p + 4) % 100 == 0 && (p + 4) % 400 != 0 && IsLeap(p + 8)
  {
  }

  lemma {:induction false} ShortGap(p: nat)
    requires p >= 1 && IsLeap(p) && IsLeap(p + 4)
    ensures LeapDay(p + 4) == LeapDay(p) + 1461
  {
    LeapDayNumber(p);
    LeapDayNumber(p + 4);
    FourYears(p);
  }

  lemma EightYears(p: nat)
    requires p >= 1 && IsLeap(p) && !IsLeap(p + 4)
    ensures YearStart(p + 8) == YearStart(p) + 2921
  {
    FourYears(p);
    FourYears(p + 4);
  }

  lemma LongGap(p: nat)
    requires p >= 1 && IsLeap(p) && !IsLeap(p + 4)
    ensures IsLeap(p + 8) && LeapDay(p + 8) == LeapDay(p) + 2921
  {
    LeapAfterCentury(p);
    LeapDayNumber(p);
    LeapDayNumber(p + 8);
    EightYears(p);
  }
}
