/** Packing a batch on the agent (internal/agentbuffer/transportsender.go)
    and ingesting it on the hub (internal/transport, internal/ingestreceiver). */
module Ingest {
  import opened Common
  import opened Calendar
  import opened Schema
  import opened FlatLog
  import opened EventStore
  import opened EventListing

  datatype Batch = Batch(
    batchId: string, hostId: string,
    metrics: seq<Metric>, events: seq<Event>, logLines: seq<LogLine>, inventories: seq<int>)

  /** Timestamps travel as milliseconds. */
  function WireTime(t: Time): Time {
    CivilTime(t.month, t.day, t.nanos - t.nanos % NANOS_PER_MILLI)
  }

  function Wire(e: Event): Event {
    e.(ts := WireTime(e.ts))
  }

  /** The wire format loses nothing the store keeps. */
  lemma {:induction false} WireKeepsRow(e: Event)
    ensures RowOf(Wire(e)) == RowOf(e) && Wire(e).ts.month == e.ts.month
    ensures Wire(Wire(e)) == Wire(e)
  {
    var n := e.ts.nanos;
    assert (n - n % NANOS_PER_MILLI) / NANOS_PER_MILLI == n / NANOS_PER_MILLI;
  }

  // ----- ItemsToBatch

  function Events(items: seq<Item>): seq<Event> {
    if items == [] then []
    else
      var front, it := Events(items[..|items| - 1]), items[|items| - 1];
      if it.payload.EventPayload? then front + [Wire(it.payload.event)] else front
  }

  function Metrics(items: seq<Item>): seq<Metric> {
    if items == [] then []
    else
      var front, it := Metrics(items[..|items| - 1]), items[|items| - 1];
      if it.payload.MetricPayload? then front + [it.payload.metric] else front
  }

  function LogLines(items: seq<Item>): seq<LogLine> {
    if items == [] then []
    else
      var front, it := LogLines(items[..|items| - 1]), items[|items| - 1];
      if it.payload.LogPayload? then front + [it.payload.line] else front
  }

  function Inventories(items: seq<Item>): seq<int> {
    if items == [] then []
    else
      var front, it := Inventories(items[..|items| - 1]), items[|items| - 1];
      if it.payload.InventoryPayload? then front + [it.payload.inventory] else front
  }

  /** The item is in the batch. */
  ghost predicate Carries(b: Batch, it: Item) {
    match it.payload
    case MetricPayload(m) => m in b.metrics
    case EventPayload(e) => Wire(e) in b.events
    case LogPayload(l) => l in b.logLines
    case InventoryPayload(v) => v in b.inventories
  }

  function Count(b: Batch): nat {
    |b.metrics| + |b.events| + |b.logLines| + |b.inventories|
  }

  function Added(b: Batch, it: Item): Batch {
    match it.payload
    case MetricPayload(m) => b.(metrics := b.metrics + [m])
    case EventPayload(e) => b.(events := b.events + [Wire(e)])
    case LogPayload(l) => b.(logLines := b.logLines + [l])
    case InventoryPayload(v) => b.(inventories := b.inventories + [v])
  }

  /** The batch of these items. */
  function Packed(id: string, host: string, items: seq<Item>): Batch {
    if items == [] then Batch(id, host, [], [], [], [])
    else Added(Packed(id, host, items[..|items| - 1]), items[|items| - 1])
  }

  method ItemsToBatch(id: string, host: string, items: seq<Item>) returns (b: Batch)
    ensures b == Packed(id, host, items)
  {
    b := Batch(id, host, [], [], [], []);
    for i := 0 to |items|
      invariant b == Packed(id, host, items[..i])
    {
      assert items[..i + 1][..i] == items[..i];
      match items[i].payload
      case MetricPayload(m) => b := b.(metrics := b.metrics + [m]);
      case EventPayload(e) => b := b.(events := b.events + [Wire(e)]);
      case LogPayload(l) => b := b.(logLines := b.logLines + [l]);
      case InventoryPayload(v) => b := b.(inventories := b.inventories + [v]);
    }
    assert items[..|items|] == items;
  }

  /** A batch carries exactly its items, once each and each kind in order. */
  lemma {:induction false} PackedCarries(id: string, host: string, items: seq<Item>)
    ensures var b := Packed(id, host, items);
            && b.batchId == id && b.hostId == host && Count(b) == |items|
            && b.metrics == Metrics(items) && b.events == Events(items)
            && b.logLines == LogLines(items) && b.inventories == Inventories(items)
    ensures forall it :: it in items ==> Carries(Packed(id, host, items), it)
  {
    if items != [] {
      var front, last := items[..|items| - 1], items[|items| - 1];
      PackedCarries(id, host, front);
      forall it | it in items ensures Carries(Packed(id, host, items), it) {
        assert it in front || it == last;
        AddedCarries(Packed(id, host, front), last, it);
      }
    }
  }

  lemma {:induction false} AddedCarries(b: Batch, last: Item, it: Item)
    ensures Carries(Added(b, last), it) <== Carries(b, it) || it == last
  {
  }

  // ----- The idempotency key

  const SEPARATOR := '\U{1f}'

  function SeenKey(host: string, id: string): string {
    host + [SEPARATOR] + id
  }

  /** Batch ids are ULIDs: not empty, without the separator. */
  predicate ProperId(id: string) {
    id != "" && SEPARATOR !in id
  }

  /** Keys of different batches differ, whatever the host names contain. */
  lemma {:induction false} SeenKeyInjective(host: string, id: string, host': string, id': string)
    requires ProperId(id) && ProperId(id') && SeenKey(host, id) == SeenKey(host', id')
    ensures host == host' && id == id'
  {
    var k := SeenKey(host, id);
    assert k[|host|] == SEPARATOR && k[|host'|] == SEPARATOR;
    assert forall i :: |host| < i < |k| ==> k[i] == id[i - |host| - 1];
    assert forall i :: |host'| < i < |k| ==> k[i] == id'[i - |host'| - 1];
    assert forall i :: |host| < i < |k| ==> k[i] != SEPARATOR;
    assert forall i :: |host'| < i < |k| ==> k[i] != SEPARATOR;
    assert host == k[..|host|] && host' == k[..|host'|];
    assert id == k[|host| + 1..] && id' == k[|host'| + 1..];
  }

  // ----- The hub

  /** A batch sent with the token of a host. */
  datatype Request = Request(tokenHost: string, batch: Batch)

  /** A ReceiveBatch call that got as far as inserting. `failing` are the
      positions of events it did not insert: their insert failed and was only
      logged, or the process died first. `complete`: it returned success. */
  datatype Receipt = Receipt(request: Request, failing: set<nat>, complete: bool)

  /** `handlers` are the requests whose id is marked and whose receive is
      still under way; each is served by its own goroutine. */
  datatype HubState = HubState(seen: set<string>, handlers: set<Request>, receipts: seq<Receipt>)

  datatype Status = Accepted | Duplicate | Forbidden | MissingId | NotStored

  /** A handler up to and including MarkSeen: an answer, or it goes on. */
  function BeginStep(hub: HubState, q: Request): (HubState, Option<Status>) {
    var key, b := SeenKey(q.tokenHost, q.batch.batchId), q.batch;
    if b.hostId != q.tokenHost then (hub, Some(Forbidden))
    else if b.batchId == "" then (hub, Some(MissingId))
    else if key in hub.seen then (hub, Some(Duplicate))
    else (hub.(seen := hub.seen + {key}, handlers := hub.handlers + {q}), None)
  }

  /** How the receive of a handler ends: with success, because its context
      was already cancelled, or with the process. */
  datatype Ending = Completed(failing: set<nat>) | Cancelled | Died(failing: set<nat>)

  /** The rest of a handler; one that died does not answer. */
  function FinishStep(hub: HubState, q: Request, ending: Ending): (HubState, Option<Status>) {
    var left := hub.(handlers := hub.handlers - {q});
    match ending
    case Completed(failing) => (left.(receipts := hub.receipts + [Receipt(q, failing, true)]), Some(Accepted))
    case Cancelled => (left, Some(NotStored))
    case Died(failing) => (left.(receipts := hub.receipts + [Receipt(q, failing, false)]), None)
  }

  /** The events of one receipt that reached the store. */
  function Surviving(events: seq<Event>, failing: set<nat>): seq<Event> {
    if events == [] then []
    else
      var last := |events| - 1;
      Surviving(events[..last], failing) + (if last in failing then [] else [events[last]])
  }

  /** The inserts made on behalf of all receipts, in order. */
  function Inserts(receipts: seq<Receipt>): seq<Event> {
    if receipts == [] then []
    else
      var r := receipts[|receipts| - 1];
      Inserts(receipts[..|receipts| - 1]) + Surviving(r.request.batch.events, r.failing)
  }

  /** Inserts a batch's events; a failed insert is skipped. */
  method InsertAll(store: SqliteStore, events: seq<Event>, failing: set<nat>, ghost done: seq<Event>)
    requires Sharded(store.dbs, done)
    modifies store
    ensures Sharded(store.dbs, done + Surviving(events, failing))
  {
    ghost var now := done;
    for i := 0 to |events|
      invariant Sharded(store.dbs, now)
      invariant now == done + Surviving(events[..i], failing)
    {
      assert events[..i + 1][..i] == events[..i];
      if i !in failing {
        var _ := store.InsertEvent(events[i], now);
        now := now + [events[i]];
      }
    }
    assert events[..|events|] == events;
  }

  class Hub {
    var seen: set<string>
    ghost var handlers: set<Request>
    ghost var receipts: seq<Receipt>
    const store: SqliteStore

    ghost predicate Valid()
      reads this, store
    {
      Sharded(store.dbs, Inserts(receipts))
    }

    ghost function View(): HubState
      reads this
    {
      HubState(seen, handlers, receipts)
    }

    constructor ()
      ensures Valid() && View() == HubState({}, {}, []) && fresh(store)
    {
      seen, handlers, receipts := {}, {}, [];
      store := new SqliteStore();
    }

    method MarkSeen(host: string, id: string) returns (already: bool)
      modifies this`seen
      ensures already == (SeenKey(host, id) in old(seen))
      ensures seen == if already then old(seen) else old(seen) + {SeenKey(host, id)}
    {
      var key := SeenKey(host, id);
      if key in seen {
        return true;
      }
      seen := seen + {key};
      return false;
    }

    /** Inserts what is not in `failing` and returns success, unless the
        context is cancelled to begin with or the process dies on the way. */
    method ReceiveBatch(q: Request, ending: Ending) returns (ok: bool)
      requires Valid()
      modifies this`receipts, store
      ensures Valid()
      ensures ok == ending.Completed?
      ensures receipts == if ending.Cancelled? then old(receipts)
                          else old(receipts) + [Receipt(q, ending.failing, ending.Completed?)]
    {
      if ending.Cancelled? {
        return false;
      }
      InsertAll(store, q.batch.events, ending.failing, Inserts(receipts));
      receipts := receipts + [Receipt(q, ending.failing, ending.Completed?)];
      assert receipts[..|receipts| - 1] == old(receipts);
      return ending.Completed?;
    }

    /** The first atomic part of a handler. A batch that names another host
        than the token, or has no id, is refused and leaves no trace. */
    method Begin(tokenHost: string, b: Batch) returns (answer: Option<Status>)
      requires Valid()
      modifies this`seen, this`handlers
      ensures Valid()
      ensures (View(), answer) == BeginStep(old(View()), Request(tokenHost, b))
      ensures answer == Some(Forbidden) <==> b.hostId != tokenHost
      ensures answer == Some(MissingId) <==> b.hostId == tokenHost && b.batchId == ""
      ensures answer == Some(Duplicate) <==>
                b.hostId == tokenHost && b.batchId != "" && SeenKey(b.hostId, b.batchId) in old(seen)
      ensures answer.Some? ==> View() == old(View()) && answer.value in {Forbidden, MissingId, Duplicate}
      ensures answer.None? ==>
                && seen == old(seen) + {SeenKey(b.hostId, b.batchId)}
                && handlers == old(handlers) + {Request(b.hostId, b)}
    {
      if b.hostId != tokenHost {
        return Some(Forbidden);
      }
      if b.batchId == "" {
        return Some(MissingId);
      }
      var duplicate := MarkSeen(tokenHost, b.batchId);
      if duplicate {
        return Some(Duplicate);
      }
      handlers := handlers + {Request(tokenHost, b)};
      return None;
    }

    /** The second part, after anything other handlers did in between. */
    method Finish(q: Request, ending: Ending) returns (answer: Option<Status>)
      requires Valid()
      modifies this`handlers, this`receipts, store
      ensures Valid()
      ensures (View(), answer) == FinishStep(old(View()), q, ending)
      ensures handlers == old(handlers) - {q}
      ensures answer == Some(Accepted) <==> ending.Completed?
      ensures answer == Some(NotStored) <==> ending.Cancelled?
      ensures answer == None <==> ending.Died?
      ensures receipts == if ending.Cancelled? then old(receipts)
                          else old(receipts) + [Receipt(q, ending.failing, ending.Completed?)]
    {
      var ok := ReceiveBatch(q, ending);
      handlers := handlers - {q};
      match ending
      case Died(_) => return None;
      case _ => return Some(if ok then Accepted else NotStored);
    }

    /** A request served without interruption. */
    method HandleIngest(tokenHost: string, b: Batch, ending: Ending) returns (answer: Option<Status>)
      requires Valid()
      modifies this, store
      ensures Valid()
      ensures var q := Request(tokenHost, b);
              var (begun, early) := BeginStep(old(View()), q);
              (View(), answer) == if early.Some? then (begun, early) else FinishStep(begun, q, ending)
      ensures answer == Some(Forbidden) <==> b.hostId != tokenHost
      ensures answer == Some(MissingId) <==> b.hostId == tokenHost && b.batchId == ""
      ensures answer == Some(Duplicate) <==>
                b.hostId == tokenHost && b.batchId != "" && SeenKey(b.hostId, b.batchId) in old(seen)
      ensures answer == Some(Forbidden) || answer == Some(MissingId) || answer == Some(Duplicate) ==>
                View() == old(View()) && store.dbs == old(store.dbs)
      ensures answer == Some(Accepted) ==>
                ending.Completed? && receipts == old(receipts) + [Receipt(Request(b.hostId, b), ending.failing, true)]
      ensures receipts == old(receipts) || receipts[|receipts| - 1].request == Request(b.hostId, b)
    {
      answer := Begin(tokenHost, b);
      if answer.None? {
        answer := Finish(Request(tokenHost, b), ending);
      }
    }

    /** A restart forgets the ids, which are only kept in memory, and kills
        the handlers. */
    method Restart()
      requires Valid()
      modifies this`seen, this`handlers
      ensures Valid() && View() == HubState({}, {}, old(receipts))
    {
      seen, handlers := {}, {};
    }
  }

  // ----- What reaches the store

  lemma {:induction false} SurvivingHas(events: seq<Event>, failing: set<nat>, i: nat)
    requires i < |events| && i !in failing
    ensures events[i] in Surviving(events, failing)
    decreases |events|
  {
    if i < |events| - 1 {
      SurvivingHas(events[..|events| - 1], failing, i);
    }
  }

  lemma {:induction false} InsertsHas(receipts: seq<Receipt>, k: nat, e: Event)
    requires k < |receipts| && e in Surviving(receipts[k].request.batch.events, receipts[k].failing)
    ensures e in Inserts(receipts)
    decreases |receipts|
  {
    if k < |receipts| - 1 {
      InsertsHas(receipts[..|receipts| - 1], k, e);
    }
  }

  lemma {:induction false} SurvivingFrom(events: seq<Event>, failing: set<nat>, e: Event) returns (i: nat)
    requires e in Surviving(events, failing)
    ensures i < |events| && events[i] == e && i !in failing
    decreases |events|
  {
    var last := |events| - 1;
    if e in Surviving(events[..last], failing) {
      i := SurvivingFrom(events[..last], failing, e);
    } else {
      i := last;
    }
  }

  lemma {:induction false} InsertsFrom(receipts: seq<Receipt>, e: Event) returns (k: nat, i: nat)
    requires e in Inserts(receipts)
    ensures k < |receipts| && i < |receipts[k].request.batch.events|
    ensures receipts[k].request.batch.events[i] == e && i !in receipts[k].failing
    decreases |receipts|
  {
    var last := |receipts| - 1;
    if e in Inserts(receipts[..last]) {
      k, i := InsertsFrom(receipts[..last], e);
    } else {
      k := last;
      i := SurvivingFrom(receipts[last].request.batch.events, receipts[last].failing, e);
    }
  }

  /** What is inserted is what the received batches carry, without the failed
      inserts, and nothing else. */
  lemma {:induction false} InsertsIff(receipts: seq<Receipt>, e: Event)
    ensures e in Inserts(receipts) <==>
            exists k, i :: 0 <= k < |receipts| && 0 <= i < |receipts[k].request.batch.events|
                           && receipts[k].request.batch.events[i] == e && i !in receipts[k].failing
  {
    if e in Inserts(receipts) {
      var k, i := InsertsFrom(receipts, e);
    }
    if k, i :| 0 <= k < |receipts| && 0 <= i < |receipts[k].request.batch.events|
               && receipts[k].request.batch.events[i] == e && i !in receipts[k].failing {
      SurvivingHas(receipts[k].request.batch.events, receipts[k].failing, i);
      InsertsHas(receipts, k, e);
    }
  }

  /** The event was carried by a receipt that inserted it. */
  ghost predicate InsertedBy(receipts: seq<Receipt>, e: Event) {
    exists k, i :: 0 <= k < |receipts| && 0 <= i < |receipts[k].request.batch.events|
                   && receipts[k].request.batch.events[i] == Wire(e) && i !in receipts[k].failing
  }

  ghost predicate OnlyRowAt(rows: seq<Row>, id: string, i: nat) {
    i < |rows| && rows[i].id == id && forall j :: 0 <= j < |rows| && rows[j].id == id ==> j == i
  }

  /** However often an event is resent, the single table has one row for it,
      and so have the month tables together: one in its month, none in any
      other. */
  lemma {:induction false} StoredExactlyOnce(receipts: seq<Receipt>, e: Event)
    requires InsertedBy(receipts, e) && ValidEvent(Wire(e))
    ensures exists i :: OnlyRowAt(Table(Inserts(receipts)), e.id, i)
    ensures IdsKeepMonth(Inserts(receipts)) ==>
              && (exists i :: OnlyRowAt(Table(OfMonth(Inserts(receipts), e.ts.month)), e.id, i))
              && forall m :: m != e.ts.month ==> !HasId(Table(OfMonth(Inserts(receipts), m)), e.id)
  {
    var es := Inserts(receipts);
    var n := InsertedAt(receipts, e);
    OnlyRow(es, n);
    if IdsKeepMonth(es) {
      OnlyRowInMonth(es, n);
      forall m | m != e.ts.month ensures !HasId(Table(OfMonth(es, m)), e.id) {
        NotInMonth(es, n, m);
      }
    }
  }

  lemma {:induction false} InsertedAt(receipts: seq<Receipt>, e: Event) returns (n: nat)
    requires InsertedBy(receipts, e)
    ensures n < |Inserts(receipts)| && Inserts(receipts)[n] == Wire(e)
  {
    var k, i :| 0 <= k < |receipts| && 0 <= i < |receipts[k].request.batch.events|
                && receipts[k].request.batch.events[i] == Wire(e) && i !in receipts[k].failing;
    SurvivingHas(receipts[k].request.batch.events, receipts[k].failing, i);
    InsertsHas(receipts, k, Wire(e));
    n :| 0 <= n < |Inserts(receipts)| && Inserts(receipts)[n] == Wire(e);
  }

  lemma {:induction false} OnlyRow(es: seq<Event>, n: nat)
    requires n < |es| && ValidEvent(es[n])
    ensures exists i :: OnlyRowAt(Table(es), es[n].id, i)
  {
    var id := es[n].id;
    assert Contains(es, id);
    TableIds(es, id);
    var rows := Table(es);
    var i :| 0 <= i < |rows| && rows[i].id == id;
    assert OnlyRowAt(rows, id, i);
  }

  lemma {:induction false} OnlyRowInMonth(es: seq<Event>, n: nat)
    requires n < |es| && ValidEvent(es[n])
    ensures exists i :: OnlyRowAt(Table(OfMonth(es, es[n].ts.month)), es[n].id, i)
  {
    var sub, id := OfMonth(es, es[n].ts.month), es[n].id;
    OfMonthContains(es, es[n].ts.month, n);
    var j :| 0 <= j < |sub| && ValidEvent(sub[j]) && sub[j].id == id;
    OnlyRow(sub, j);
  }

  lemma {:induction false} NotInMonth(es: seq<Event>, n: nat, m: int)
    requires n < |es| && ValidEvent(es[n]) && IdsKeepMonth(es) && m != es[n].ts.month
    ensures !HasId(Table(OfMonth(es, m)), es[n].id)
  {
    var sub, id := OfMonth(es, m), es[n].id;
    TableIds(sub, id);
    if Contains(sub, id) {
      var j :| 0 <= j < |sub| && ValidEvent(sub[j]) && sub[j].id == id;
      var i := OfMonthFrom(es, m, j);
    }
  }
}
