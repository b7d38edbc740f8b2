/** Inserting and listing events in both stores, and when they agree. */
module EventListing {
  import opened Calendar
  import opened Schema
  import opened Months
  import opened EventStore

  ghost function ListedMonths(from: Time, until: Time): set<int> {
    set m | from.month <= m <= until.month && Listed(from, until, m)
  }

  /** What the single table lists for a range. */
  ghost function FlatListing(es: seq<Event>, from: Time, until: Time, host: string): multiset<Row> {
    multiset(Select(Table(es), UnixMilli(from), UnixMilli(until), host))
  }

  /** What the month files list for a range. */
  ghost function ShardedListing(es: seq<Event>, from: Time, until: Time, host: string): multiset<Row> {
    if Before(until, from) then multiset{}
    else multiset(Select(Within(Table(es), ListedMonths(from, until)), UnixMilli(from), UnixMilli(until), host))
  }

  // ----- The stores

  function TableAt(dbs: map<int, seq<Row>>, m: int): seq<Row> {
    if m in dbs then dbs[m] else []
  }

  /** The month tables hold what inserting `es` leaves. */
  ghost predicate Sharded(dbs: map<int, seq<Row>>, es: seq<Event>) {
    forall m :: TableAt(dbs, m) == Table(OfMonth(es, m))
  }

  lemma {:induction false} OfMonthAppend(es: seq<Event>, e: Event, m: int)
    ensures OfMonth(es + [e], m) == OfMonth(es, m) + (if e.ts.month == m then [e] else [])
    ensures Table(es + [e]) == Inserted(Table(es), e)
  {
    assert (es + [e])[..|es|] == es;
  }

  lemma {:induction false} ShardedInsert(dbs: map<int, seq<Row>>, dbs': map<int, seq<Row>>, es: seq<Event>, e: Event)
    requires Sharded(dbs, es)
    requires forall m :: TableAt(dbs', m) == if m == e.ts.month then Inserted(TableAt(dbs, m), e) else TableAt(dbs, m)
    ensures Sharded(dbs', es + [e])
  {
    forall m ensures TableAt(dbs', m) == Table(OfMonth(es + [e], m)) {
      OfMonthAppend(es, e, m);
      OfMonthAppend(OfMonth(es, m), e, m);
    }
  }

  class SqliteStore {
    var dbs: map<int, seq<Row>>

    constructor ()
      ensures Sharded(dbs, [])
    {
      dbs := map[];
    }

    /** Opens a month file, creating an empty table if there is none. */
    method MonthDb(m: int)
      modifies this
      ensures m in dbs && forall n :: TableAt(dbs, n) == old(TableAt(dbs, n))
    {
      if m !in dbs {
        dbs := dbs[m := []];
      }
    }

    method InsertEvent(e: Event, ghost es: seq<Event>) returns (accepted: bool)
      requires Sharded(dbs, es)
      modifies this
      ensures accepted == ValidEvent(e)
      ensures Sharded(dbs, es + [e])
    {
      ghost var before := dbs;
      accepted := ValidEvent(e);
      if accepted {
        var month := e.ts.month;
        MonthDb(month);
        if !HasId(dbs[month], e.id) {
          dbs := dbs[month := dbs[month] + [RowOf(e)]];
        }
      }
      ShardedInsert(before, dbs, es, e);
    }

    method ListEvents(from: Time, until: Time, host: string, ghost es: seq<Event>) returns (rows: seq<Row>)
      requires Sharded(dbs, es)
      modifies this
      ensures Sharded(dbs, es)
      ensures SortedByTs(rows)
      ensures IdsKeepMonth(es) ==> multiset(rows) == ShardedListing(es, from, until, host)
      ensures forall r :: multiset(rows)[r] ==
                if !Before(until, from) && (exists m :: Listed(from, until, m) && r in TableAt(dbs, m))
                   && UnixMilli(from) <= r.ts <= UnixMilli(until) && (host == "" || r.hostId == host) then 1 else 0
    {
      var months := MonthsBetween(from, until);
      if months == [] {
        assert !Before(until, from) ==> Listed(from, until, until.month);
        return [];
      }
      for i := 0 to |months|
        invariant Sharded(dbs, es)
      {
        MonthDb(months[i]);
      }
      assert Before(until, from) ==> months == [];
      var all := Union(dbs, months, UnixMilli(from), UnixMilli(until), host, es);
      assert (set m | m in months) == ListedMonths(from, until);
      forall r ensures multiset(Select(all, UnixMilli(from), UnixMilli(until), host))[r]
                       == if UnixMilli(from) <= r.ts <= UnixMilli(until) && (host == "" || r.hostId == host)
                          then multiset(all)[r] else 0 {
        SelectCount(all, UnixMilli(from), UnixMilli(until), host, r);
      }
      return OrderByTs(Select(all, UnixMilli(from), UnixMilli(until), host));
    }
  }

  /** Some table of these months has the row. */
  ghost predicate Held(dbs: map<int, seq<Row>>, months: seq<int>, r: Row) {
    exists m :: m in months && r in TableAt(dbs, m)
  }

  lemma {:induction false} HeldOnce(dbs: map<int, seq<Row>>, es: seq<Event>, months: seq<int>, m: int, all: seq<Row>,
                                    r: Row)
    requires Sharded(dbs, es) && m !in months && multiset(all)[r] == if Held(dbs, months, r) then 1 else 0
    ensures multiset(all + TableAt(dbs, m))[r] == if Held(dbs, months + [m], r) then 1 else 0
  {
    assert TableAt(dbs, m) == Table(OfMonth(es, m));
    TableCount(OfMonth(es, m), r);
    assert Held(dbs, months + [m], r) <==> Held(dbs, months, r) || r in TableAt(dbs, m) by {
      assert m in months + [m];
    }
    if Held(dbs, months, r) && r in TableAt(dbs, m) {
      var n :| n in months && r in TableAt(dbs, n);
      assert TableAt(dbs, n) == Table(OfMonth(es, n));
      RowOfMonth(es, n, r);
      RowOfMonth(es, m, r);
      InOneMonth(r.ts, m, n);
    }
  }

  /** UNION ALL over the month tables. */
  method Union(dbs: map<int, seq<Row>>, months: seq<int>, ghost lo: int, ghost hi: int, ghost host: string,
               ghost es: seq<Event>)
      returns (all: seq<Row>)
    requires Increasing(months) && Sharded(dbs, es)
    ensures IdsKeepMonth(es) ==>
              multiset(Select(all, lo, hi, host))
              == multiset(Select(Within(Table(es), set m | m in months), lo, hi, host))
    ensures forall r :: multiset(all)[r] == if Held(dbs, months, r) then 1 else 0
  {
    all := [];
    ghost var done: set<int> := {};
    WithinNone(Table(es));
    for i := 0 to |months|
      invariant done == set m | m in months[..i]
      invariant IdsKeepMonth(es) ==>
                  multiset(Select(all, lo, hi, host)) == multiset(Select(Within(Table(es), done), lo, hi, host))
      invariant forall r :: multiset(all)[r] == if Held(dbs, months[..i], r) then 1 else 0
    {
      ghost var m := months[i];
      assert m !in done;
      if IdsKeepMonth(es) {
        ShardIsPart(es, m);
        AddMonthOfRows(Table(es), done, m, lo, hi, host);
      }
      SelectConcat(all, TableAt(dbs, m), lo, hi, host);
      forall r ensures multiset(all + TableAt(dbs, m))[r] == if Held(dbs, months[..i] + [m], r) then 1 else 0 {
        HeldOnce(dbs, es, months[..i], m, all, r);
      }
      all := all + TableAt(dbs, months[i]);
      done := done + {m};
      assert months[..i + 1] == months[..i] + [m];
    }
    assert months[..|months|] == months;
  }

  class PostgresStore {
    var rows: seq<Row>

    constructor ()
      ensures rows == Table([])
    {
      rows := [];
    }

    method InsertEvent(e: Event, ghost es: seq<Event>) returns (accepted: bool)
      requires rows == Table(es)
      modifies this
      ensures accepted == ValidEvent(e)
      ensures rows == Table(es + [e])
    {
      OfMonthAppend(es, e, 0);
      accepted := ValidEvent(e);
      if accepted && !HasId(rows, e.id) {
        rows := rows + [RowOf(e)];
      }
    }

    method ListEvents(from: Time, until: Time, host: string, ghost es: seq<Event>) returns (listed: seq<Row>)
      requires rows == Table(es)
      ensures SortedByTs(listed) && multiset(listed) == FlatListing(es, from, until, host)
      ensures forall r :: multiset(listed)[r] ==
                if r in rows && UnixMilli(from) <= r.ts <= UnixMilli(until) && (host == "" || r.hostId == host)
                then 1 else 0
    {
      forall r ensures multiset(Select(rows, UnixMilli(from), UnixMilli(until), host))[r]
                       == if r in rows && UnixMilli(from) <= r.ts <= UnixMilli(until)
                             && (host == "" || r.hostId == host) then 1 else 0 {
        SelectCount(rows, UnixMilli(from), UnixMilli(until), host, r);
        TableCount(es, r);
      }
      return OrderByTs(Select(rows, UnixMilli(from), UnixMilli(until), host));
    }
  }

  // ----- Which events are listed

  /** The single table lists an event that is the first with its id, once and
      with its own fields, exactly if its millisecond is in the range and the
      host is its own or not asked for. */
  lemma {:induction false} FlatListsEvent(es: seq<Event>, i: nat, from: Time, until: Time, host: string, r: Row)
    requires FirstOfId(es, i) && Shows(r, es[i])
    ensures FlatListing(es, from, until, host)[r] ==
              if UnixMilli(from) <= UnixMilli(es[i].ts) <= UnixMilli(until) && (host == "" || host == es[i].hostId)
              then 1 else 0
  {
    TableShows(es, r);
    TableCount(es, r);
    SelectCount(Table(es), UnixMilli(from), UnixMilli(until), host, r);
  }

  lemma {:induction false} WithinCount(rows: seq<Row>, months: set<int>, r: Row)
    ensures multiset(Within(rows, months))[r] == if InSome(r.ts, months) then multiset(rows)[r] else 0
    decreases |rows|
  {
    if rows != [] {
      assert rows == rows[..|rows| - 1] + [rows[|rows| - 1]];
      WithinCount(rows[..|rows| - 1], months, r);
    }
  }

  /** The month files do so exactly if the event's month is listed, too. */
  lemma {:induction false} ShardedListsEvent(es: seq<Event>, i: nat, from: Time, until: Time, host: string, r: Row)
    requires FirstOfId(es, i) && Shows(r, es[i])
    ensures ShardedListing(es, from, until, host)[r] ==
              if !Before(until, from) && Listed(from, until, es[i].ts.month)
                 && UnixMilli(from) <= UnixMilli(es[i].ts) <= UnixMilli(until) && (host == "" || host == es[i].hostId)
              then 1 else 0
  {
    var months, t := ListedMonths(from, until), es[i].ts;
    TableShows(es, r);
    TableCount(es, r);
    WithinCount(Table(es), months, r);
    assert InSome(r.ts, months) <==> t.month in months by {
      InMonthIff(t, t.month);
      if InSome(r.ts, months) {
        var m :| m in months && InMonth(r.ts, m);
        InMonthIff(t, m);
      }
    }
    SelectCount(Within(Table(es), months), UnixMilli(from), UnixMilli(until), host, r);
  }

  // ----- When the two listings agree

  lemma {:induction false} RowHasTime(es: seq<Event>, r: Row) returns (t: Time)
    requires r in Table(es)
    ensures r.ts == UnixMilli(t)
  {
    var front, e := es[..|es| - 1], es[|es| - 1];
    if r in Table(front) {
      t := RowHasTime(front, r);
    } else {
      t := e.ts;
    }
  }

  lemma {:induction false} MatchingRowListed(es: seq<Event>, r: Row, from: Time, until: Time, host: string)
    requires !Before(until, from) && !ShortInside(from, until)
    requires r in Table(es) && Matches(r, UnixMilli(from), UnixMilli(until), host)
    ensures InSome(r.ts, ListedMonths(from, until))
  {
    var t := RowHasTime(es, r);
    if t.month < from.month {
      MonthOrdersMillis(t, from);
    }
    if until.month < t.month {
      MonthOrdersMillis(until, t);
    }
    CompleteIff(from, until);
    InMonthIff(t, t.month);
    assert t.month in ListedMonths(from, until);
  }

  lemma {:induction false} SelectWithin(rows: seq<Row>, months: set<int>, lo: int, hi: int, host: string)
    requires forall r :: r in rows && Matches(r, lo, hi, host) ==> InSome(r.ts, months)
    ensures Select(Within(rows, months), lo, hi, host) == Select(rows, lo, hi, host)
    decreases |rows|
  {
    if rows != [] {
      var front, r := rows[..|rows| - 1], rows[|rows| - 1];
      SelectWithin(front, months, lo, hi, host);
      SelectConcat(Within(front, months), [r], lo, hi, host);
    }
  }

  /** A complete range lists the same rows from both stores. */
  lemma {:induction false} CompleteRangeAgrees(es: seq<Event>, from: Time, until: Time, host: string)
    requires !Before(until, from) && !ShortInside(from, until)
    ensures ShardedListing(es, from, until, host) == FlatListing(es, from, until, host)
  {
    var lo, hi := UnixMilli(from), UnixMilli(until);
    forall r | r in Table(es) && Matches(r, lo, hi, host) ensures InSome(r.ts, ListedMonths(from, until)) {
      MatchingRowListed(es, r, from, until, host);
    }
    SelectWithin(Table(es), ListedMonths(from, until), lo, hi, host);
  }

  /** The bounds the caller can check before listing. */
  ghost predicate Agreeable(from: Time, until: Time) {
    if Before(until, from) then UnixMilli(until) < UnixMilli(from) else !ShortInside(from, until)
  }

  lemma {:induction false} EmptyRange(rows: seq<Row>, lo: int, hi: int, host: string)
    requires hi < lo
    ensures Select(rows, lo, hi, host) == []
  {
    if rows != [] {
      EmptyRange(rows[..|rows| - 1], lo, hi, host);
    }
  }

  function SampleEvent(t: Time): (e: Event)
    ensures t != ZERO_TIME ==> ValidEvent(e)
  {
    Event("id", t, "host", "source", "a.b", "info", "title", 1, 0)
  }

  lemma {:induction false} OneEvent(e: Event, lo: int, hi: int, host: string)
    requires ValidEvent(e) && lo <= UnixMilli(e.ts) <= hi && host == ""
    ensures Table([e]) == [RowOf(e)] && IdsKeepMonth([e])
    ensures Select(Table([e]), lo, hi, host) == [RowOf(e)]
  {
    assert Table([]) == [];
    assert [e][..0] == [];
    assert [RowOf(e)][..0] == [];
  }

  /** An event in the jumped month is in the range and is not listed. */
  lemma {:induction false} JumpedEventMissed(from: Time, until: Time) returns (e: Event)
    requires !Before(until, from) && ShortInside(from, until)
    ensures IdsKeepMonth([e]) && FlatListing([e], from, until, "") == multiset{RowOf(e)}
    ensures ShardedListing([e], from, until, "") == multiset{}
  {
    var n :| from.month < n < until.month && DaysIn(n) < from.day;
    FirstShort(from, n);
    var m :| m <= n && Skips(from, m);
    e := SampleEvent(CivilTime(m, 2, 0));
    MonthOrdersMillis(from, e.ts);
    MonthOrdersMillis(e.ts, until);
    OneEvent(e, UnixMilli(from), UnixMilli(until), "");
    forall k | k in ListedMonths(from, until) ensures !InMonth(UnixMilli(e.ts), k) {
      InMonthIff(e.ts, k);
    }
    assert Table([e])[..0] == [];
    assert Within(Table([e]), ListedMonths(from, until)) == [];
  }

  /** A reversed range inside one millisecond: only the single table matches. */
  lemma {:induction false} ReversedEventMissed(from: Time, until: Time) returns (e: Event)
    requires Before(until, from) && UnixMilli(until) >= UnixMilli(from)
    ensures IdsKeepMonth([e]) && FlatListing([e], from, until, "") == multiset{RowOf(e)}
    ensures ShardedListing([e], from, until, "") == multiset{}
  {
    e := SampleEvent(from);
    assert from != ZERO_TIME by {
      if from == ZERO_TIME {
        MonthOrdersMillis(until, from);
      }
    }
    OneEvent(e, UnixMilli(from), UnixMilli(until), "");
  }

  /** For every range: all stores whose ids keep their month list the same
      from the month files as from one table, exactly when the range is not
      reversed within a millisecond and jumps no month. */
  lemma {:induction false} ListingsAgreeIff(from: Time, until: Time)
    ensures Agreeable(from, until) <==>
            forall es, host :: IdsKeepMonth(es) ==>
              ShardedListing(es, from, until, host) == FlatListing(es, from, until, host)
  {
    if Agreeable(from, until) {
      forall es, host | IdsKeepMonth(es)
        ensures ShardedListing(es, from, until, host) == FlatListing(es, from, until, host)
      {
        if Before(until, from) {
          EmptyRange(Table(es), UnixMilli(from), UnixMilli(until), host);
        } else {
          CompleteRangeAgrees(es, from, until, host);
        }
      }
    } else {
      var e: Event;
      if Before(until, from) {
        e := ReversedEventMissed(from, until);
      } else {
        e := JumpedEventMissed(from, until);
      }
      assert RowOf(e) in FlatListing([e], from, until, "");
    }
  }
}
