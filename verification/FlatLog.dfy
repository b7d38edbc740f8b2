/** What the agent's outbound buffer means: one flat sequence of items in
    order of their sequence numbers. Every operation of the on-disk buffer
    is proved to refine an operation of this module. */
module FlatLog {
  import opened Common
  import opened Schema

  /** Declared in discard order; events are never discarded. */
  datatype Priority = LogLinePriority | MetricPriority | EventPriority

  datatype Payload =
    | MetricPayload(metric: Metric)
    | EventPayload(event: Event)
    | LogPayload(line: LogLine)
    | InventoryPayload(inventory: int)

  datatype Item = Item(seqNo: nat, priority: Priority, ts: int, payload: Payload)

  ghost predicate Increasing(items: seq<Item>) {
    forall i, j :: 0 <= i < j < |items| ==> items[i].seqNo < items[j].seqNo
  }

  /** Sequence numbers start at 1 and never exceed the last one assigned. */
  ghost predicate WellFormed(items: seq<Item>, next: nat) {
    Increasing(items) && forall i :: 0 <= i < |items| ==> 1 <= items[i].seqNo <= next
  }

  /** The items numbered above `lo` whose number is not in `gone`, in order. */
  function Keep(items: seq<Item>, lo: nat, gone: set<nat>): seq<Item> {
    if items == [] then []
    else
      (if items[0].seqNo > lo && items[0].seqNo !in gone then [items[0]] else [])
      + Keep(items[1..], lo, gone)
  }

  function ByPriority(items: seq<Item>, p: Priority): seq<Item> {
    if items == [] then []
    else (if items[0].priority == p then [items[0]] else []) + ByPriority(items[1..], p)
  }

  /** The order in which capacity enforcement gives items up. */
  function DiscardOrder(items: seq<Item>): seq<Item> {
    ByPriority(items, LogLinePriority) + ByPriority(items, MetricPriority)
  }

  function Seqs(items: seq<Item>): set<nat> {
    set i | 0 <= i < |items| :: items[i].seqNo
  }

  /** The highest buffered sequence number, 0 for an empty buffer. */
  function LastSeq(items: seq<Item>): nat {
    if items == [] then 0 else items[|items| - 1].seqNo
  }

  // ----- Keep

  lemma {:induction false} KeepConcat(a: seq<Item>, b: seq<Item>, lo: nat, gone: set<nat>)
    ensures Keep(a + b, lo, gone) == Keep(a, lo, gone) + Keep(b, lo, gone)
  {
    if a == [] {
      assert a + b == b;
    } else {
      assert (a + b)[1..] == a[1..] + b;
      KeepConcat(a[1..], b, lo, gone);
    }
  }

  lemma {:induction false} KeepMember(items: seq<Item>, lo: nat, gone: set<nat>, it: Item)
    ensures it in Keep(items, lo, gone) <==> it in items && it.seqNo > lo && it.seqNo !in gone
  {
    if items != [] {
      KeepMember(items[1..], lo, gone, it);
    }
  }

  lemma {:induction false} KeepEverything(items: seq<Item>, lo: nat, gone: set<nat>)
    requires forall i :: 0 <= i < |items| ==> items[i].seqNo > lo && items[i].seqNo !in gone
    ensures Keep(items, lo, gone) == items
  {
    if items != [] {
      KeepEverything(items[1..], lo, gone);
    }
  }

  lemma {:induction false} KeepNothing(items: seq<Item>, lo: nat, gone: set<nat>)
    requires forall i :: 0 <= i < |items| ==> items[i].seqNo <= lo || items[i].seqNo in gone
    ensures Keep(items, lo, gone) == []
  {
    if items != [] {
      KeepNothing(items[1..], lo, gone);
    }
  }

  /** Filtering twice is filtering once by both bounds. */
  lemma {:induction false} KeepKeep(items: seq<Item>, lo1: nat, gone1: set<nat>, lo2: nat, gone2: set<nat>)
    ensures Keep(Keep(items, lo1, gone1), lo2, gone2)
         == Keep(items, if lo1 < lo2 then lo2 else lo1, gone1 + gone2)
  {
    if items != [] {
      var head := if items[0].seqNo > lo1 && items[0].seqNo !in gone1 then [items[0]] else [];
      KeepConcat(head, Keep(items[1..], lo1, gone1), lo2, gone2);
      KeepKeep(items[1..], lo1, gone1, lo2, gone2);
    }
  }

  lemma {:induction false} KeepIncreasing(items: seq<Item>, lo: nat, gone: set<nat>)
    requires Increasing(items)
    ensures Increasing(Keep(items, lo, gone))
  {
    if items != [] {
      var rest := Keep(items[1..], lo, gone);
      KeepIncreasing(items[1..], lo, gone);
      forall i | 0 <= i < |rest| ensures items[0].seqNo < rest[i].seqNo {
        KeepMember(items[1..], lo, gone, rest[i]);
      }
    }
  }

  lemma {:induction false} KeepWellFormed(items: seq<Item>, next: nat, lo: nat, gone: set<nat>)
    requires WellFormed(items, next)
    ensures WellFormed(Keep(items, lo, gone), next)
  {
    KeepIncreasing(items, lo, gone);
    var kept := Keep(items, lo, gone);
    forall i | 0 <= i < |kept| ensures 1 <= kept[i].seqNo <= next {
      KeepMember(items, lo, gone, kept[i]);
    }
  }

  lemma {:induction false} ExtendWellFormed(items: seq<Item>, next: nat, it: Item)
    requires WellFormed(items, next) && it.seqNo == next + 1
    ensures WellFormed(items, next + 1) && WellFormed(items + [it], next + 1)
  {
  }

  lemma {:induction false} LastSeqBounds(items: seq<Item>, next: nat)
    requires WellFormed(items, next)
    ensures WellFormed(items, LastSeq(items)) && LastSeq(items) <= next
  {
  }

  /** Acknowledging up to the last item of a prefix removes that prefix. */
  lemma {:induction false} KeepAfterPrefix(prefix: seq<Item>, rest: seq<Item>)
    requires prefix != [] && Increasing(prefix + rest)
    ensures Keep(prefix + rest, LastSeq(prefix), {}) == rest
  {
    var items := prefix + rest;
    var last := LastSeq(prefix);
    assert items[|prefix| - 1].seqNo == last;
    forall i | 0 <= i < |prefix| ensures prefix[i].seqNo <= last {
      assert items[i] == prefix[i];
    }
    forall i | 0 <= i < |rest| ensures rest[i].seqNo > last {
      assert items[|prefix| + i] == rest[i];
    }
    KeepConcat(prefix, rest, last, {});
    KeepNothing(prefix, last, {});
    KeepEverything(rest, last, {});
  }

  /** Removing one number shortens an increasing sequence by exactly one. */
  lemma {:induction false} KeepAllButOne(items: seq<Item>, k: nat)
    requires Increasing(items) && k < |items| && forall i :: 0 <= i < |items| ==> items[i].seqNo >= 1
    ensures Keep(items, 0, {items[k].seqNo}) == items[..k] + items[k + 1..]
  {
    if k == 0 {
      KeepEverything(items[1..], 0, {items[0].seqNo});
      assert items[..0] + items[1..] == items[1..];
    } else {
      KeepAllButOne(items[1..], k - 1);
      assert items[1..][..k - 1] + items[1..][k..] == items[1..k] + items[k + 1..];
      assert [items[0]] + (items[1..k] + items[k + 1..]) == items[..k] + items[k + 1..];
    }
  }

  // ----- Priorities

  lemma {:induction false} ByPriorityConcat(a: seq<Item>, b: seq<Item>, p: Priority)
    ensures ByPriority(a + b, p) == ByPriority(a, p) + ByPriority(b, p)
  {
    if a == [] {
      assert a + b == b;
    } else {
      assert (a + b)[0] == a[0] && (a + b)[1..] == a[1..] + b;
      ByPriorityConcat(a[1..], b, p);
      Regroup(if a[0].priority == p then [a[0]] else [], ByPriority(a[1..], p), ByPriority(b, p));
    }
  }

  lemma {:induction false} ByPriorityMember(items: seq<Item>, p: Priority, it: Item)
    ensures it in ByPriority(items, p) <==> it in items && it.priority == p
  {
    if items != [] {
      ByPriorityMember(items[1..], p, it);
    }
  }

  /** The first item of a priority class is the oldest one, and taking it
      out leaves the rest of the class as it was. */
  lemma {:induction false} FirstOfPriority(items: seq<Item>, p: Priority) returns (k: nat)
    requires ByPriority(items, p) != []
    ensures k < |items| && items[k] == ByPriority(items, p)[0] && items[k].priority == p
    ensures forall i :: 0 <= i < k ==> items[i].priority != p
    ensures ByPriority(items[..k] + items[k + 1..], p) == ByPriority(items, p)[1..]
  {
    if items[0].priority == p {
      k := 0;
      assert items[..0] + items[1..] == items[1..];
    } else {
      var k' := FirstOfPriority(items[1..], p);
      k := k' + 1;
      var cut := items[..k] + items[k + 1..];
      assert cut[1..] == items[1..][..k'] + items[1..][k' + 1..];
    }
  }

  /** Taking out an item of another class leaves a priority class alone. */
  lemma {:induction false} OtherPriority(items: seq<Item>, k: nat, p: Priority)
    requires k < |items| && items[k].priority != p
    ensures ByPriority(items[..k] + items[k + 1..], p) == ByPriority(items, p)
  {
    var cut := items[..k] + items[k + 1..];
    if k == 0 {
      assert cut == items[1..];
    } else {
      OtherPriority(items[1..], k - 1, p);
      assert cut[1..] == items[1..][..k - 1] + items[1..][k..];
    }
  }

  /** Discarding the head of the discard order takes the oldest log line, or
      the oldest metric once no log line is left, and nothing else. */
  lemma {:induction false} DiscardHead(items: seq<Item>)
    requires Increasing(items) && DiscardOrder(items) != []
    requires forall i :: 0 <= i < |items| ==> items[i].seqNo >= 1
    ensures DiscardOrder(items)[0] in items
    ensures var rest := Keep(items, 0, {DiscardOrder(items)[0].seqNo});
            var logs, metrics := ByPriority(items, LogLinePriority), ByPriority(items, MetricPriority);
            && ByPriority(rest, LogLinePriority) == (if logs != [] then logs[1..] else [])
            && ByPriority(rest, MetricPriority) == (if logs != [] then metrics else metrics[1..])
            && ByPriority(rest, EventPriority) == ByPriority(items, EventPriority)
            && DiscardOrder(rest) == DiscardOrder(items)[1..]
  {
    var logs, metrics := ByPriority(items, LogLinePriority), ByPriority(items, MetricPriority);
    var p, q := LogLinePriority, MetricPriority;
    if logs == [] {
      p, q := MetricPriority, LogLinePriority;
      assert logs + metrics == metrics && [] + metrics[1..] == metrics[1..];
    } else {
      assert (logs + metrics)[1..] == logs[1..] + metrics;
    }
    var k := FirstOfPriority(items, p);
    OtherPriority(items, k, q);
    OtherPriority(items, k, EventPriority);
    KeepAllButOne(items, k);
  }

  /** What is left after the first `k` discards. */
  function AfterDiscards(items: seq<Item>, k: nat): seq<Item>
    requires k <= |DiscardOrder(items)|
  {
    Keep(items, 0, Seqs(DiscardOrder(items)[..k]))
  }

  lemma {:induction false} SeqsSnoc(items: seq<Item>, k: nat)
    requires k < |items|
    ensures Seqs(items[..k + 1]) == Seqs(items[..k]) + {items[k].seqNo}
  {
    forall x | x in Seqs(items[..k]) + {items[k].seqNo} ensures x in Seqs(items[..k + 1]) {
      if x in Seqs(items[..k]) {
        var i :| 0 <= i < |items[..k]| && items[..k][i].seqNo == x;
        assert items[..k + 1][i].seqNo == x;
      } else {
        assert items[..k + 1][k].seqNo == x;
      }
    }
  }

  lemma {:induction false} AfterDiscardsStep(items: seq<Item>, k: nat)
    requires k < |DiscardOrder(items)|
    ensures AfterDiscards(items, k + 1) == Keep(AfterDiscards(items, k), 0, {DiscardOrder(items)[k].seqNo})
  {
    var order := DiscardOrder(items);
    SeqsSnoc(order, k);
    KeepKeep(items, 0, Seqs(order[..k]), 0, {order[k].seqNo});
  }

  /** `rest` is what `k` discards leave of `items`: an oldest-first prefix of
      the log lines is gone, metrics only once no log line is left, and every
      event is in place. */
  ghost predicate Discarded(items: seq<Item>, k: nat, rest: seq<Item>) {
    var logs, metrics := ByPriority(items, LogLinePriority), ByPriority(items, MetricPriority);
    && k <= |logs| + |metrics|
    && ByPriority(rest, LogLinePriority) == (if k < |logs| then logs[k..] else [])
    && ByPriority(rest, MetricPriority) == (if k < |logs| then metrics else metrics[k - |logs|..])
    && ByPriority(rest, EventPriority) == ByPriority(items, EventPriority)
  }

  lemma {:induction false} DiscardedOrder(items: seq<Item>, k: nat, rest: seq<Item>)
    requires Discarded(items, k, rest)
    ensures DiscardOrder(rest) == DiscardOrder(items)[k..]
  {
    var logs, metrics := ByPriority(items, LogLinePriority), ByPriority(items, MetricPriority);
    if k < |logs| {
      assert (logs + metrics)[k..] == logs[k..] + metrics;
    } else {
      assert (logs + metrics)[k..] == metrics[k - |logs|..];
    }
  }

  lemma {:induction false} DiscardedStep(items: seq<Item>, next: nat, k: nat)
    requires k < |DiscardOrder(items)| && WellFormed(AfterDiscards(items, k), next)
    requires Discarded(items, k, AfterDiscards(items, k))
    ensures Discarded(items, k + 1, AfterDiscards(items, k + 1))
  {
    var rest := AfterDiscards(items, k);
    DiscardedOrder(items, k, rest);
    AfterDiscardsStep(items, k);
    DiscardHead(rest);
    ClassesAfterHead(items, k, rest, AfterDiscards(items, k + 1));
  }

  lemma {:induction false} ClassesAfterHead(items: seq<Item>, k: nat, rest: seq<Item>, rest': seq<Item>)
    requires Discarded(items, k, rest) && DiscardOrder(rest) != []
    requires var logs, metrics := ByPriority(rest, LogLinePriority), ByPriority(rest, MetricPriority);
             && ByPriority(rest', LogLinePriority) == (if logs != [] then logs[1..] else [])
             && ByPriority(rest', MetricPriority) == (if logs != [] then metrics else metrics[1..])
             && ByPriority(rest', EventPriority) == ByPriority(rest, EventPriority)
    ensures Discarded(items, k + 1, rest')
  {
  }

  lemma {:induction false} DiscardsInOrder(items: seq<Item>, next: nat, k: nat)
    requires WellFormed(items, next) && k <= |DiscardOrder(items)|
    ensures WellFormed(AfterDiscards(items, k), next)
    ensures Discarded(items, k, AfterDiscards(items, k))
  {
    KeepWellFormed(items, next, 0, Seqs(DiscardOrder(items)[..k]));
    if k == 0 {
      KeepEverything(items, 0, Seqs(DiscardOrder(items)[..0]));
    } else {
      DiscardsInOrder(items, next, k - 1);
      DiscardedStep(items, next, k - 1);
    }
  }
}
