/** UTC civil time as Go's time package computes it: a month counter, a day
    of the month and the nanoseconds into that day. Years are counted on the
    proleptic Gregorian calendar and may be negative. */
module Calendar {

  const NANOS_PER_DAY := 86_400_000_000_000
  const NANOS_PER_MILLI := 1_000_000
  const MILLIS_PER_DAY := 86_400_000

  /** January 1970 as a month counter (12 * year + month - 1). */
  const EPOCH_MONTH := 12 * 1970

  predicate IsLeap(year: int) {
    year % 4 == 0 && (year % 100 != 0 || year % 400 == 0)
  }

  /** Number of days of the month with counter `month`. */
  function DaysIn(month: int): (days: nat)
    ensures 28 <= days <= 31
  {
    var m := month % 12;
    if m == 1 then (if IsLeap(month / 12) then 29 else 28)
    else if m == 3 || m == 5 || m == 8 || m == 10 then 30
    else 31
  }

  datatype CivilTime = CivilTime(month: int, day: int, nanos: int)

  predicate InRange(t: CivilTime) {
    1 <= t.day <= DaysIn(t.month) && 0 <= t.nanos < NANOS_PER_DAY
  }

  type Time = t: CivilTime | InRange(t) witness CivilTime(12, 1, 0)

  /** Go's zero time, 1 January of year 1. */
  const ZERO_TIME: Time := CivilTime(12, 1, 0)

  /** `time.Time.Before` */
  predicate Before(a: Time, b: Time) {
    a.month < b.month
    || (a.month == b.month && a.day < b.day)
    || (a.month == b.month && a.day == b.day && a.nanos < b.nanos)
  }

  /** `t.AddDate(0, 1, 0)`: the same day of the next month; a day that month
      does not have spills over into the month after it. */
  function AddMonth(t: Time): (r: Time)
    ensures Before(t, r)
    ensures t.day <= DaysIn(t.month + 1) ==> r == t.(month := t.month + 1)
    ensures t.day > DaysIn(t.month + 1) ==> r.month == t.month + 2 && r.day <= 3
  {
    if t.day <= DaysIn(t.month + 1) then CivilTime(t.month + 1, t.day, t.nanos)
    else CivilTime(t.month + 2, t.day - DaysIn(t.month + 1), t.nanos)
  }

  /** Days from the Unix epoch to the first day of the month. */
  function DaysBefore(month: int): int
    decreases if month >= EPOCH_MONTH then month - EPOCH_MONTH else EPOCH_MONTH - month
  {
    if month == EPOCH_MONTH then 0
    else if month > EPOCH_MONTH then DaysBefore(month - 1) + DaysIn(month - 1)
    else DaysBefore(month + 1) - DaysIn(month)
  }

  /** `t.UnixMilli()`: whole milliseconds since the epoch, rounded down. */
  function UnixMilli(t: Time): int {
    (DaysBefore(t.month) + t.day - 1) * MILLIS_PER_DAY + t.nanos / NANOS_PER_MILLI
  }

  lemma DaysBeforeStep(month: int)
    ensures DaysBefore(month + 1) == DaysBefore(month) + DaysIn(month)
  {
  }

  lemma {:induction false} DaysBeforeMonotone(a: int, b: int)
    requires a < b
    ensures DaysBefore(a) + DaysIn(a) <= DaysBefore(b)
    decreases b - a
  {
    DaysBeforeStep(a);
    if a + 1 < b {
      DaysBeforeMonotone(a + 1, b);
    }
  }

  lemma MillisOfDay(t: Time)
    ensures 0 <= t.nanos / NANOS_PER_MILLI < MILLIS_PER_DAY
  {
  }

  /** An earlier month means an earlier stored millisecond timestamp, so the
      timestamp alone determines the month. */
  lemma MonthOrdersMillis(a: Time, b: Time)
    requires a.month < b.month
    ensures UnixMilli(a) < UnixMilli(b)
  {
    DaysBeforeMonotone(a.month, b.month);
    MillisOfDay(a);
    MillisOfDay(b);
    assert DaysBefore(a.month) + a.day - 1 < DaysBefore(b.month) + b.day - 1;
  }

  // ----- The Gregorian calendar in closed form

  /** The lengths of a year's months. */
  function Lengths(year: int): (r: seq<nat>)
    ensures |r| == 12
  {
    [31, if IsLeap(year) then 29 else 28, 31, 30, 31, 30, 31, 31, 30, 31, 30, 31]
  }

  lemma {:induction false} MonthSplit(year: int, k: nat)
    requires k < 12
    ensures (12 * year + k) / 12 == year && (12 * year + k) % 12 == k
  {
  }

  lemma {:induction false} MonthLengths(year: int, k: nat)
    requires k < 12
    ensures DaysIn(12 * year + k) == Lengths(year)[k]
  {
    MonthSplit(year, k);
  }

  function Total(lengths: seq<nat>): nat {
    if lengths == [] then 0 else Total(lengths[..|lengths| - 1]) + lengths[|lengths| - 1]
  }

  lemma {:induction false} MonthStart(year: int, k: nat)
    requires k <= 12
    ensures DaysBefore(12 * year + k) == DaysBefore(12 * year) + Total(Lengths(year)[..k])
  {
    if k > 0 {
      MonthStart(year, k - 1);
      MonthLengths(year, k - 1);
      DaysBeforeStep(12 * year + k - 1);
      assert Lengths(year)[..k][..k - 1] == Lengths(year)[..k - 1];
    }
  }

  lemma {:induction false} TotalSnoc(lengths: seq<nat>, k: nat)
    requires k < |lengths|
    ensures Total(lengths[..k + 1]) == Total(lengths[..k]) + lengths[k]
  {
    assert lengths[..k + 1][..k] == lengths[..k];
  }

  lemma {:induction false} YearLength(year: int)
    ensures DaysBefore(12 * year + 12) == DaysBefore(12 * year) + if IsLeap(year) then 366 else 365
  {
    MonthStart(year, 12);
    var l := Lengths(year);
    TotalSnoc(l, 0);
    TotalSnoc(l, 1);
    TotalSnoc(l, 2);
    TotalSnoc(l, 3);
    TotalSnoc(l, 4);
    TotalSnoc(l, 5);
    TotalSnoc(l, 6);
    TotalSnoc(l, 7);
    TotalSnoc(l, 8);
    TotalSnoc(l, 9);
    TotalSnoc(l, 10);
    TotalSnoc(l, 11);
  }

  /** Leap days up to the end of a year, counted from year 1. */
  function LeapDays(year: int): int {
    year / 4 - year / 100 + year / 400
  }

  lemma {:induction false} LeapDaysStep(year: int)
    ensures LeapDays(year) == LeapDays(year - 1) + if IsLeap(year) then 1 else 0
  {
    Fourth(year);
    Hundredth(year);
    FourHundredth(year);
  }

  lemma Fourth(n: int)
    ensures n / 4 == (n - 1) / 4 + if n % 4 == 0 then 1 else 0
  {
  }

  lemma Hundredth(n: int)
    ensures n / 100 == (n - 1) / 100 + if n % 100 == 0 then 1 else 0
    ensures n % 100 == 0 ==> n % 4 == 0
  {
    assert n % 100 == 0 ==> n == 4 * (25 * (n / 100));
  }

  lemma FourHundredth(n: int)
    ensures n / 400 == (n - 1) / 400 + if n % 400 == 0 then 1 else 0
    ensures n % 400 == 0 ==> n % 100 == 0
  {
    assert n % 400 == 0 ==> n == 100 * (4 * (n / 400));
  }

  /** A year starts 365 days per year and one per leap day after 1970. */
  lemma {:induction false} YearStart(year: int)
    ensures DaysBefore(12 * year) == 365 * (year - 1970) + LeapDays(year - 1) - LeapDays(1969)
    decreases if year >= 1970 then year - 1970 else 1970 - year
  {
    if year > 1970 {
      YearStart(year - 1);
      YearLength(year - 1);
      LeapDaysStep(year - 1);
    } else if year < 1970 {
      YearStart(year + 1);
      YearLength(year);
      LeapDaysStep(year);
    }
  }

  /** The stored timestamp never runs backwards. */
  lemma {:induction false} MillisOrdered(a: Time, b: Time)
    requires !Before(b, a)
    ensures UnixMilli(a) <= UnixMilli(b)
  {
    if a.month < b.month {
      MonthOrdersMillis(a, b);
    } else {
      MillisOfDay(a);
      MillisOfDay(b);
    }
  }
}
