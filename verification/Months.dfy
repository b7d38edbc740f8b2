/** Which month files a time range touches (internal/storage/sqlite.go). A
    month file is named by its month, here the month counter. */
module Months {
  import opened Calendar

  predicate After(a: Time, b: Time) {
    Before(b, a)
  }

  /** The walk from `from` jumps over month `m`: the first later month that
      is too short to have the day the walk started on. */
  ghost predicate Skips(from: Time, m: int) {
    && from.month < m
    && DaysIn(m) < from.day
    && forall k {:trigger DaysIn(k)} :: from.month < k < m ==> from.day <= DaysIn(k)
  }

  ghost predicate Increasing(months: seq<int>) {
    forall i, j :: 0 <= i < j < |months| ==> months[i] < months[j]
  }

  /** Month `m` belongs to the listing of the range. */
  ghost predicate Listed(from: Time, until: Time, m: int) {
    from.month <= m <= until.month && !(m < until.month && Skips(from, m))
  }

  /** Where the walk is: still on its starting day, or past its one jump. */
  ghost predicate Walking(from: Time, cur: Time) {
    && from.month <= cur.month
    && ((cur == from.(month := cur.month)
         && forall k {:trigger DaysIn(k)} :: from.month < k <= cur.month ==> from.day <= DaysIn(k))
        || (cur.day <= 3 && exists m {:trigger Skips(from, m)} :: Skips(from, m) && m < cur.month))
  }

  ghost predicate Visited(from: Time, cur: Time, months: seq<int>) {
    && Increasing(months)
    && forall m :: m in months <==> from.month <= m < cur.month && !Skips(from, m)
  }

  lemma SkipsOnce(from: Time, m: int, n: int)
    requires Skips(from, m) && Skips(from, n)
    ensures m == n
  {
  }

  lemma IncreasingAppend(months: seq<int>, m: int)
    requires Increasing(months) && forall k :: k in months ==> k < m
    ensures Increasing(months + [m])
  {
    var more := months + [m];
    forall i, j | 0 <= i < j < |more| ensures more[i] < more[j] {
      assert more[i] in months;
    }
  }

  /** One step of the walk lists its month and at most jumps one. */
  lemma {:induction false} WalkStep(from: Time, cur: Time, months: seq<int>)
    requires Walking(from, cur) && Visited(from, cur, months)
    ensures Walking(from, AddMonth(cur)) && Visited(from, AddMonth(cur), months + [cur.month])
  {
    var next := AddMonth(cur);
    if cur == from.(month := cur.month)
       && forall k {:trigger DaysIn(k)} :: from.month < k <= cur.month ==> from.day <= DaysIn(k) {
      if next.month == cur.month + 2 {
        assert Skips(from, cur.month + 1);
      }
    } else {
      var m :| Skips(from, m) && m < cur.month;
      assert next.month == cur.month + 1;
      forall n | Skips(from, n) ensures n == m {
        SkipsOnce(from, m, n);
      }
    }
    var more := months + [cur.month];
    IncreasingAppend(months, cur.month);
    forall n ensures n in more <==> from.month <= n < next.month && !Skips(from, n) {
      assert n in more <==> n in months || n == cur.month;
    }
  }

  /** Where the walk stops, adding the range's last month if need be. */
  lemma {:induction false} WalkEnd(from: Time, last: Time, until: Time, months: seq<int>)
    requires Visited(from, AddMonth(last), months) && Walking(from, last)
    requires !After(last, until) && After(AddMonth(last), until)
    ensures until.month in months ==> forall m :: m in months <==> Listed(from, until, m)
    ensures until.month !in months ==>
              Increasing(months + [until.month]) && forall m :: m in months + [until.month] <==> Listed(from, until, m)
  {
    var cur := AddMonth(last);
    assert cur.month <= until.month + 2;
    if cur.month == until.month + 2 {
      assert Skips(from, last.month + 1);
    }
    if until.month !in months {
      IncreasingAppend(months, until.month);
    }
  }

  method MonthsBetween(from: Time, until: Time) returns (months: seq<int>)
    ensures Before(until, from) ==> months == []
    ensures Increasing(months)
    ensures !Before(until, from) ==> forall m :: m in months <==> Listed(from, until, m)
  {
    if Before(until, from) {
      return [];
    }
    months := [];
    var seen: set<int> := {};
    var cur := from;
    ghost var last := from;
    while !After(cur, until)
      invariant Walking(from, cur) && Visited(from, cur, months)
      invariant seen == set m | m in months
      invariant !After(last, until) && Walking(from, last) && (cur == from || cur == AddMonth(last))
      decreases until.month + 1 - cur.month
    {
      WalkStep(from, cur, months);
      assert cur.month !in months;
      if cur.month !in seen {
        seen := seen + {cur.month};
        months := months + [cur.month];
      }
      last := cur;
      cur := AddMonth(cur);
    }
    WalkEnd(from, last, until, months);
    if until.month !in seen {
      months := months + [until.month];
    }
  }

  /** Some month strictly inside the range lacks the day it starts on. */
  ghost predicate ShortInside(from: Time, until: Time) {
    exists m {:trigger DaysIn(m)} :: from.month < m < until.month && DaysIn(m) < from.day
  }

  lemma {:induction false} FirstShort(from: Time, n: int)
    requires from.month < n && DaysIn(n) < from.day
    ensures exists m {:trigger Skips(from, m)} :: m <= n && Skips(from, m)
    decreases n - from.month
  {
    if k :| from.month < k < n && DaysIn(k) < from.day {
      FirstShort(from, k);
    } else {
      assert Skips(from, n);
    }
  }

  /** The listing is complete exactly when no inner month is too short for
      the day the range starts on. */
  lemma {:induction false} CompleteIff(from: Time, until: Time)
    requires !Before(until, from)
    ensures (forall m :: from.month <= m <= until.month ==> Listed(from, until, m)) <==> !ShortInside(from, until)
  {
    if ShortInside(from, until) {
      var n :| from.month < n < until.month && DaysIn(n) < from.day;
      FirstShort(from, n);
      var m :| m <= n && Skips(from, m);
      assert !Listed(from, until, m);
    }
  }

  /** It misses at most one month. */
  lemma {:induction false} MissesAtMostOne(from: Time, until: Time, m: int, n: int)
    requires from.month <= m <= until.month && !Listed(from, until, m)
    requires from.month <= n <= until.month && !Listed(from, until, n)
    ensures m == n
  {
    SkipsOnce(from, m, n);
  }

  /** Ranges that start by the 28th are always complete. */
  lemma {:induction false} CompleteUpTo28(from: Time, until: Time)
    requires from.day <= 28
    ensures !ShortInside(from, until)
  {
  }

  /** From 31 January to any time from March on, February is missed. */
  lemma {:induction false} FebruaryMissed(year: int, nanos: int, until: Time)
    requires 0 <= nanos < NANOS_PER_DAY && until.month >= 12 * year + 2
    ensures var from := CivilTime(12 * year, 31, nanos);
            InRange(from) && !Before(until, from) && !Listed(from, until, 12 * year + 1)
  {
    var from: Time := CivilTime(12 * year, 31, nanos);
    assert Skips(from, 12 * year + 1);
  }
}
