/** The two relational event stores (internal/storage): one table per month
    file (SQLite) and one table for everything (PostgreSQL). */
module EventStore {
  import opened Calendar
  import opened Schema

  /** A stored row; the timestamp column holds milliseconds. */
  datatype Row = Row(
    id: string, ts: int, hostId: string, source: string, kind: string,
    severity: string, title: string, schemaVersion: int, body: int)

  function RowOf(e: Event): Row {
    Row(e.id, UnixMilli(e.ts), e.hostId, e.source, e.kind, e.severity, e.title, e.schemaVersion, e.body)
  }

  // ----- A table, filled by insert-or-ignore

  predicate HasId(rows: seq<Row>, id: string) {
    exists i :: 0 <= i < |rows| && rows[i].id == id
  }

  function Inserted(rows: seq<Row>, e: Event): seq<Row> {
    if ValidEvent(e) && !HasId(rows, e.id) then rows + [RowOf(e)] else rows
  }

  /** One table after inserting these events. */
  function Table(es: seq<Event>): seq<Row> {
    if es == [] then [] else Inserted(Table(es[..|es| - 1]), es[|es| - 1])
  }

  /** The events whose timestamp lies in month `m`. */
  function OfMonth(es: seq<Event>, m: int): seq<Event> {
    if es == [] then []
    else
      var front, e := OfMonth(es[..|es| - 1], m), es[|es| - 1];
      if e.ts.month == m then front + [e] else front
  }

  ghost predicate Distinct(rows: seq<Row>) {
    forall i, j :: 0 <= i < j < |rows| ==> rows[i].id != rows[j].id
  }

  ghost predicate Contains(es: seq<Event>, id: string) {
    exists i :: 0 <= i < |es| && ValidEvent(es[i]) && es[i].id == id
  }

  /** A table has one row per valid event id and no other row. */
  lemma {:induction false} TableIds(es: seq<Event>, id: string)
    ensures HasId(Table(es), id) <==> Contains(es, id)
    ensures Distinct(Table(es))
  {
    if es != [] {
      var front, e := es[..|es| - 1], es[|es| - 1];
      TableIds(front, id);
      TableIds(front, e.id);
      assert Contains(es, id) <==> Contains(front, id) || (ValidEvent(e) && e.id == id);
      var rows := Table(front);
      assert HasId(rows + [RowOf(e)], id) <==> HasId(rows, id) || e.id == id by {
        assert (rows + [RowOf(e)])[|rows|].id == e.id;
        if i :| 0 <= i < |rows| && rows[i].id == id {
          assert (rows + [RowOf(e)])[i].id == id;
        }
      }
    }
  }

  /** Event `i` is the first valid one with its id. */
  ghost predicate FirstOfId(es: seq<Event>, i: int) {
    0 <= i < |es| && ValidEvent(es[i]) && forall j :: 0 <= j < i && ValidEvent(es[j]) ==> es[j].id != es[i].id
  }

  /** The row holds the event, with its time in milliseconds. */
  ghost predicate Shows(r: Row, e: Event) {
    && r.id == e.id && r.ts == UnixMilli(e.ts) && r.hostId == e.hostId && r.source == e.source && r.kind == e.kind
    && r.severity == e.severity && r.title == e.title && r.schemaVersion == e.schemaVersion && r.body == e.body
  }

  ghost predicate FirstShown(es: seq<Event>, r: Row) {
    exists i :: FirstOfId(es, i) && Shows(r, es[i])
  }

  lemma {:induction false} FirstOfIdSnoc(front: seq<Event>, e: Event, i: nat)
    requires i <= |front|
    ensures FirstOfId(front + [e], i) <==>
            if i < |front| then FirstOfId(front, i) else ValidEvent(e) && !Contains(front, e.id)
  {
    var es := front + [e];
    assert forall j :: 0 <= j < |front| ==> es[j] == front[j];
    if i == |front| && Contains(front, e.id) {
      var j :| 0 <= j < |front| && ValidEvent(front[j]) && front[j].id == e.id;
      assert es[j] == front[j];
    }
  }

  lemma {:induction false} FirstShownSnoc(front: seq<Event>, e: Event, r: Row)
    ensures FirstShown(front + [e], r) <==>
            FirstShown(front, r) || (ValidEvent(e) && !Contains(front, e.id) && Shows(r, e))
  {
    var es := front + [e];
    FirstOfIdSnoc(front, e, |front|);
    if FirstShown(front, r) {
      var i :| FirstOfId(front, i) && Shows(r, front[i]);
      FirstOfIdSnoc(front, e, i);
      assert Shows(r, es[i]);
    }
    if ValidEvent(e) && !Contains(front, e.id) && Shows(r, e) {
      assert FirstOfId(es, |front|) && Shows(r, es[|front|]);
    }
    if FirstShown(es, r) {
      var i :| FirstOfId(es, i) && Shows(r, es[i]);
      FirstOfIdSnoc(front, e, i);
      assert i < |front| ==> Shows(r, front[i]);
    }
  }

  /** A table shows exactly the first valid event of each id. */
  lemma {:induction false} TableShows(es: seq<Event>, r: Row)
    ensures r in Table(es) <==> FirstShown(es, r)
    decreases |es|
  {
    if es != [] {
      var front, e := es[..|es| - 1], es[|es| - 1];
      assert es == front + [e];
      TableShows(front, r);
      TableIds(front, e.id);
      FirstShownSnoc(front, e, r);
      assert Shows(r, e) <==> r == RowOf(e);
    }
  }

  // ----- Months of rows

  ghost predicate InMonth(ts: int, m: int) {
    DaysBefore(m) * MILLIS_PER_DAY <= ts < DaysBefore(m + 1) * MILLIS_PER_DAY
  }

  lemma {:induction false} InMonthIff(t: Time, m: int)
    ensures InMonth(UnixMilli(t), m) <==> t.month == m
  {
    MillisOfDay(t);
    DaysBeforeStep(t.month);
    if t.month < m {
      DaysBeforeMonotone(t.month, m);
    } else if m < t.month {
      DaysBeforeStep(m);
      DaysBeforeMonotone(m, t.month);
    }
  }

  lemma {:induction false} InOneMonth(ts: int, m: int, n: int)
    requires InMonth(ts, m) && InMonth(ts, n)
    ensures m == n
  {
    if m < n {
      DaysBeforeStep(m);
      DaysBeforeMonotone(m, n);
    } else if n < m {
      DaysBeforeStep(n);
      DaysBeforeMonotone(n, m);
    }
  }

  ghost predicate InSome(ts: int, months: set<int>) {
    exists m :: m in months && InMonth(ts, m)
  }

  /** The rows of one table that fall into the months. */
  ghost function Within(rows: seq<Row>, months: set<int>): seq<Row> {
    if rows == [] then []
    else
      var front, r := Within(rows[..|rows| - 1], months), rows[|rows| - 1];
      if InSome(r.ts, months) then front + [r] else front
  }

  lemma {:induction false} WithinAppend(rows: seq<Row>, r: Row, months: set<int>)
    ensures Within(rows + [r], months) == Within(rows, months) + (if InSome(r.ts, months) then [r] else [])
  {
    assert (rows + [r])[..|rows|] == rows;
  }

  lemma {:induction false} OfMonthContains(es: seq<Event>, m: int, i: nat)
    requires i < |es| && es[i].ts.month == m && ValidEvent(es[i])
    ensures Contains(OfMonth(es, m), es[i].id)
    decreases |es|
  {
    var last := |es| - 1;
    var front := OfMonth(es[..last], m);
    if i == last {
      assert OfMonth(es, m)[|front|] == es[i];
    } else {
      OfMonthContains(es[..last], m, i);
      var j :| 0 <= j < |front| && ValidEvent(front[j]) && front[j].id == es[i].id;
      assert OfMonth(es, m)[j] == front[j];
    }
  }

  lemma {:induction false} OfMonthFrom(es: seq<Event>, m: int, j: nat) returns (i: nat)
    requires j < |OfMonth(es, m)|
    ensures i < |es| && es[i] == OfMonth(es, m)[j] && es[i].ts.month == m
    decreases |es|
  {
    var last := |es| - 1;
    var front := OfMonth(es[..last], m);
    if j < |front| {
      i := OfMonthFrom(es[..last], m, j);
    } else {
      i := last;
    }
  }

  // ----- When sharding agrees with one table

  /** Valid events with equal ids lie in one month. */
  ghost predicate IdsKeepMonth(es: seq<Event>) {
    forall i, j :: 0 <= i < |es| && 0 <= j < |es| && ValidEvent(es[i]) && ValidEvent(es[j]) && es[i].id == es[j].id ==>
      es[i].ts.month == es[j].ts.month
  }

  lemma {:induction false} IdsKeepMonthFront(es: seq<Event>)
    requires es != [] && IdsKeepMonth(es)
    ensures IdsKeepMonth(es[..|es| - 1])
  {
  }

  /** Under that condition an id is new to its month iff it is new. */
  lemma {:induction false} NewInMonth(es: seq<Event>, e: Event)
    requires ValidEvent(e) && IdsKeepMonth(es + [e])
    ensures Contains(OfMonth(es, e.ts.month), e.id) <==> Contains(es, e.id)
  {
    var all := es + [e];
    if Contains(es, e.id) {
      var i :| 0 <= i < |es| && ValidEvent(es[i]) && es[i].id == e.id;
      assert all[i] == es[i] && all[|es|] == e;
      OfMonthContains(es, e.ts.month, i);
    }
    var sub := OfMonth(es, e.ts.month);
    if Contains(sub, e.id) {
      var j :| 0 <= j < |sub| && ValidEvent(sub[j]) && sub[j].id == e.id;
      var i := OfMonthFrom(es, e.ts.month, j);
    }
  }

  lemma InSingle(ts: int, m: int)
    ensures InSome(ts, {m}) <==> InMonth(ts, m)
  {
    assert m in {m};
  }

  /** Each month's table is the part of the single table in that month. */
  lemma {:induction false} ShardIsPart(es: seq<Event>, m: int)
    requires IdsKeepMonth(es)
    ensures Table(OfMonth(es, m)) == Within(Table(es), {m})
    decreases |es|
  {
    if es != [] {
      var front, e := es[..|es| - 1], es[|es| - 1];
      assert es == front + [e];
      IdsKeepMonthFront(es);
      ShardIsPart(front, m);
      var sub, rows := OfMonth(front, m), Table(front);
      WithinAppend(rows, RowOf(e), {m});
      InSingle(UnixMilli(e.ts), m);
      InMonthIff(e.ts, m);
      if e.ts.month == m {
        assert (sub + [e])[..|sub|] == sub;
        TableIds(sub, e.id);
        TableIds(front, e.id);
        if ValidEvent(e) {
          NewInMonth(front, e);
        }
      }
    }
  }

  lemma {:induction false} TableInMonth(es: seq<Event>, m: int, id: string) returns (r: Row)
    requires Contains(OfMonth(es, m), id)
    ensures r in Table(OfMonth(es, m)) && r.id == id
  {
    TableIds(OfMonth(es, m), id);
    var rows := Table(OfMonth(es, m));
    var i :| 0 <= i < |rows| && rows[i].id == id;
    r := rows[i];
  }

  lemma {:induction false} WithinSubset(rows: seq<Row>, m: int, r: Row)
    requires r in Within(rows, {m})
    ensures r in rows && InMonth(r.ts, m)
  {
    var last := rows[|rows| - 1];
    InSingle(last.ts, m);
    if r in Within(rows[..|rows| - 1], {m}) {
      WithinSubset(rows[..|rows| - 1], m, r);
    }
  }

  lemma DistinctRow(rows: seq<Row>, a: Row, b: Row)
    requires Distinct(rows) && a in rows && b in rows && a.id == b.id
    ensures a == b
  {
  }

  /** The shards are the parts of the single table exactly when equal ids
      never span months. */
  lemma {:induction false} ShardingIff(es: seq<Event>)
    ensures IdsKeepMonth(es) <==> forall m :: Table(OfMonth(es, m)) == Within(Table(es), {m})
  {
    if IdsKeepMonth(es) {
      forall m ensures Table(OfMonth(es, m)) == Within(Table(es), {m}) {
        ShardIsPart(es, m);
      }
    }
    if forall m :: Table(OfMonth(es, m)) == Within(Table(es), {m}) {
      forall i, j | 0 <= i < |es| && 0 <= j < |es| && ValidEvent(es[i]) && ValidEvent(es[j]) && es[i].id == es[j].id
        ensures es[i].ts.month == es[j].ts.month
      {
        SameMonth(es, i, j);
      }
    }
  }

  lemma {:induction false} SameMonth(es: seq<Event>, i: nat, j: nat)
    requires i < |es| && j < |es| && ValidEvent(es[i]) && ValidEvent(es[j]) && es[i].id == es[j].id
    requires forall m :: Table(OfMonth(es, m)) == Within(Table(es), {m})
    ensures es[i].ts.month == es[j].ts.month
  {
    var m, n := es[i].ts.month, es[j].ts.month;
    OfMonthContains(es, m, i);
    OfMonthContains(es, n, j);
    var a := TableInMonth(es, m, es[i].id);
    var b := TableInMonth(es, n, es[j].id);
    WithinSubset(Table(es), m, a);
    WithinSubset(Table(es), n, b);
    TableIds(es, es[i].id);
    DistinctRow(Table(es), a, b);
    InOneMonth(a.ts, m, n);
  }

  // ----- Listing

  /** The WHERE clause. */
  predicate Matches(r: Row, lo: int, hi: int, host: string) {
    lo <= r.ts <= hi && (host == "" || r.hostId == host)
  }

  function Select(rows: seq<Row>, lo: int, hi: int, host: string): seq<Row> {
    if rows == [] then []
    else
      var front, r := Select(rows[..|rows| - 1], lo, hi, host), rows[|rows| - 1];
      if Matches(r, lo, hi, host) then front + [r] else front
  }

  /** A matching row is selected as often as it occurs, and no other. */
  lemma {:induction false} SelectCount(rows: seq<Row>, lo: int, hi: int, host: string, r: Row)
    ensures multiset(Select(rows, lo, hi, host))[r]
         == if lo <= r.ts <= hi && (host == "" || r.hostId == host) then multiset(rows)[r] else 0
    decreases |rows|
  {
    if rows != [] {
      assert rows == rows[..|rows| - 1] + [rows[|rows| - 1]];
      SelectCount(rows[..|rows| - 1], lo, hi, host, r);
    }
  }

  lemma {:induction false} DistinctCount(rows: seq<Row>, r: Row)
    requires Distinct(rows)
    ensures multiset(rows)[r] == if r in rows then 1 else 0
    decreases |rows|
  {
    if rows != [] {
      assert rows == rows[..|rows| - 1] + [rows[|rows| - 1]];
      DistinctCount(rows[..|rows| - 1], r);
    }
  }

  lemma {:induction false} TableCount(es: seq<Event>, r: Row)
    ensures multiset(Table(es))[r] == if r in Table(es) then 1 else 0
  {
    TableIds(es, r.id);
    DistinctCount(Table(es), r);
  }

  lemma {:induction false} RowOfMonth(es: seq<Event>, m: int, r: Row)
    requires r in Table(OfMonth(es, m))
    ensures InMonth(r.ts, m)
  {
    var sub := OfMonth(es, m);
    TableShows(sub, r);
    var j :| FirstOfId(sub, j) && Shows(r, sub[j]);
    var i := OfMonthFrom(es, m, j);
    InMonthIff(es[i].ts, m);
  }

  ghost predicate SortedByTs(rows: seq<Row>) {
    forall i, j :: 0 <= i < j < |rows| ==> rows[i].ts <= rows[j].ts
  }

  lemma SameRows(a: seq<Row>, b: seq<Row>, bound: int)
    requires multiset(a) == multiset(b) && forall x :: x in b ==> x.ts <= bound
    ensures forall x :: x in a ==> x.ts <= bound
  {
    forall x | x in a ensures x.ts <= bound {
      assert x in multiset(a);
    }
  }

  lemma {:induction false} SortedAppend(rows: seq<Row>, r: Row)
    requires SortedByTs(rows) && forall x :: x in rows ==> x.ts <= r.ts
    ensures SortedByTs(rows + [r])
  {
  }

  lemma {:induction false} InsertedLower(rows: seq<Row>, s: seq<Row>, r: Row)
    requires SortedByTs(rows) && rows != [] && r.ts < rows[|rows| - 1].ts
    requires SortedByTs(s) && multiset(s) == multiset(rows[..|rows| - 1] + [r])
    ensures SortedByTs(s + [rows[|rows| - 1]]) && multiset(s + [rows[|rows| - 1]]) == multiset(rows + [r])
  {
    var front, last := rows[..|rows| - 1], rows[|rows| - 1];
    assert rows == front + [last];
    SameRows(s, front + [r], last.ts);
    SortedAppend(s, last);
  }

  function InsertByTs(rows: seq<Row>, r: Row): (s: seq<Row>)
    requires SortedByTs(rows)
    ensures SortedByTs(s) && multiset(s) == multiset(rows + [r])
  {
    if rows == [] || rows[|rows| - 1].ts <= r.ts then rows + [r]
    else
      var s := InsertByTs(rows[..|rows| - 1], r);
      InsertedLower(rows, s, r);
      s + [rows[|rows| - 1]]
  }

  /** ORDER BY ts ASC. */
  function OrderByTs(rows: seq<Row>): (s: seq<Row>)
    ensures SortedByTs(s) && multiset(s) == multiset(rows)
  {
    if rows == [] then []
    else
      assert rows == rows[..|rows| - 1] + [rows[|rows| - 1]];
      InsertByTs(OrderByTs(rows[..|rows| - 1]), rows[|rows| - 1])
  }

  lemma {:induction false} SelectConcat(a: seq<Row>, b: seq<Row>, lo: int, hi: int, host: string)
    ensures Select(a + b, lo, hi, host) == Select(a, lo, hi, host) + Select(b, lo, hi, host)
    decreases |b|
  {
    if b == [] {
      assert a + b == a;
    } else {
      assert (a + b)[..|a + b| - 1] == a + b[..|b| - 1];
      SelectConcat(a, b[..|b| - 1], lo, hi, host);
    }
  }

  lemma {:induction false} WithinNone(rows: seq<Row>)
    ensures Within(rows, {}) == []
  {
    if rows != [] {
      WithinNone(rows[..|rows| - 1]);
    }
  }

  /** Selecting within months, one month more at a time. */
  lemma {:induction false} AddMonthOfRows(rows: seq<Row>, months: set<int>, m: int, lo: int, hi: int, host: string)
    requires m !in months
    ensures multiset(Select(Within(rows, months + {m}), lo, hi, host))
         == multiset(Select(Within(rows, months), lo, hi, host)) + multiset(Select(Within(rows, {m}), lo, hi, host))
    decreases |rows|
  {
    if rows != [] {
      var front, r := rows[..|rows| - 1], rows[|rows| - 1];
      AddMonthOfRows(front, months, m, lo, hi, host);
      assert InSome(r.ts, months + {m}) <==> InSome(r.ts, months) || InSome(r.ts, {m}) by {
        InSingle(r.ts, m);
      }
      if InSome(r.ts, months) && InSome(r.ts, {m}) {
        InSingle(r.ts, m);
        var n :| n in months && InMonth(r.ts, n);
        InOneMonth(r.ts, m, n);
      }
      SelectConcat(Within(front, months), [r], lo, hi, host);
      SelectConcat(Within(front, {m}), [r], lo, hi, host);
      SelectConcat(Within(front, months + {m}), [r], lo, hi, host);
    }
  }
}
