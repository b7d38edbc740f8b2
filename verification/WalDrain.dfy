/** Draining the flat log: rounds that read a batch, send it and acknowledge
    it, while others append to the log and enforce its capacity. */
module WalDrain {
  import opened Common
  import opened FlatLog
  import opened WalDisk
  import opened WalSegments
  import opened WalCapacity
  import opened WalRuns

  datatype Outcome = Sent | SendFailed | Cancelled

  /** One round of the drain loop: what others do before the batch is read,
      what they do while it is being sent, and how it ends. A cancelled round
      ends before the read. */
  datatype Round = Round(before: seq<Op>, during: seq<Op>, outcome: Outcome)

  /** After the last scripted round nothing interferes any more. */
  const QUIET := Round([], [], Sent)

  function RoundAt(script: seq<Round>, i: nat): Round {
    if i < |script| then script[i] else QUIET
  }

  /** What others do: append, and enforce the capacity. */
  ghost predicate ByOthers(ops: seq<Op>) {
    forall i :: 0 <= i < |ops| ==> ops[i].DoAppend? || ops[i].DoEnforce?
  }

  ghost predicate Enforces(ops: seq<Op>) {
    exists i :: 0 <= i < |ops| && ops[i].DoEnforce?
  }

  /** The operations lead from one flat log to the other. */
  ghost predicate Reaches(c: Codec, a: Flat, ops: seq<Op>, b: Flat) {
    exists flats :: FlatRun(c, flats, ops) && flats[0] == a && flats[|ops|] == b
  }

  /** The items appended by operations that start at number `next`. */
  function Numbered(next: nat, ops: seq<Op>): seq<Item> {
    if ops == [] then []
    else
      var front, op := Numbered(next, ops[..|ops| - 1]), ops[|ops| - 1];
      if op.DoAppend? then front + [op.item.(seqNo := next + |front| + 1)] else front
  }

  function Flatten(batches: seq<seq<Item>>): seq<Item> {
    if batches == [] then [] else Flatten(batches[..|batches| - 1]) + batches[|batches| - 1]
  }

  // ----- A drain

  /** A round that sent `batch`: the oldest `n` items when it was read. What
      it acknowledges is everything up to the last of them. */
  ghost predicate RoundDone(c: Codec, n: int, round: Round, a: Flat, batch: seq<Item>, b: Flat) {
    && round.outcome == Sent && batch != []
    && exists read: Flat ::
         && Reaches(c, a, round.before, read) && batch == Take(read.items, n)
         && Acked(c, read, round.during, LastSeq(batch), b)
  }

  /** After the operations everything up to `upTo` is acknowledged. */
  ghost predicate Acked(c: Codec, a: Flat, ops: seq<Op>, upTo: nat, b: Flat) {
    exists ready: Flat :: Reaches(c, a, ops, ready) && FlatStep(c, ready, DoAck(upTo), b)
  }

  /** The round that ended the drain: cancelled, out of items, or failed. */
  ghost predicate LastRound(c: Codec, round: Round, a: Flat, ok: bool, b: Flat) {
    exists read: Flat ::
      && Reaches(c, a, round.before, read)
      && if round.outcome == Cancelled then !ok && b == read
         else if read.items == [] then ok && b == read
         else !ok && round.outcome == SendFailed && Reaches(c, read, round.during, b)
  }

  /** The rounds so far, with the flat log after each. */
  ghost predicate Rounds(c: Codec, n: int, script: seq<Round>, stops: seq<Flat>, sent: seq<seq<Item>>) {
    && |stops| == |sent| + 1
    && forall i :: 0 <= i < |sent| ==> RoundDone(c, n, RoundAt(script, i), stops[i], sent[i], stops[i + 1])
  }

  ghost predicate Drained(c: Codec, n: int, script: seq<Round>, stops: seq<Flat>, sent: seq<seq<Item>>, ok: bool,
                          end: Flat)
  {
    Rounds(c, n, script, stops, sent) && LastRound(c, RoundAt(script, |sent|), stops[|sent|], ok, end)
  }

  /** What others did in the first `m` rounds. */
  function OpsIn(script: seq<Round>, m: nat): seq<Op> {
    if m == 0 then [] else OpsIn(script, m - 1) + (RoundAt(script, m - 1).before + RoundAt(script, m - 1).during)
  }

  function RanIn(last: Round, ok: bool): seq<Op> {
    if ok || last.outcome == Cancelled then last.before else last.before + last.during
  }

  /** What others did in all, with the round that ended it. */
  function Ran(script: seq<Round>, m: nat, ok: bool): seq<Op> {
    OpsIn(script, m) + RanIn(RoundAt(script, m), ok)
  }

  ghost predicate OthersOnly(script: seq<Round>) {
    forall i :: 0 <= i < |script| ==> ByOthers(script[i].before) && ByOthers(script[i].during)
  }

  // ----- What others do

  /** Others added `more`, numbered on from the log, and of all that took what
      is in `gone`, which has no events. */
  ghost predicate Others(a: Flat, more: seq<Item>, gone: set<nat>, b: Flat) {
    && b.next == a.next + |more|
    && (forall i :: 0 <= i < |more| ==> more[i].seqNo == a.next + i + 1)
    && b.items == Keep(a.items + more, 0, gone)
    && (forall x :: x in gone ==> x <= b.next)
    && (forall it :: it in a.items + more && it.seqNo in gone ==> it.priority != EventPriority)
  }

  lemma {:induction false} OthersAppend(a: Flat, more: seq<Item>, gone: set<nat>, m: Flat, it: Item)
    requires Others(a, more, gone, m) && it.seqNo == m.next + 1
    ensures Others(a, more + [it], gone, Flat(m.items + [it], m.next + 1))
  {
    Regrouped(a.items, more, it);
    KeepConcat(a.items + more, [it], 0, gone);
    KeepEverything([it], 0, gone);
  }

  lemma Regrouped(a: seq<Item>, b: seq<Item>, it: Item)
    ensures a + (b + [it]) == (a + b) + [it]
  {
  }

  /** All numbers that were or came in are in order. */
  lemma {:induction false} AllInOrder(a: Flat, more: seq<Item>, gone: set<nat>, b: Flat)
    requires WellFormed(a.items, a.next) && Others(a, more, gone, b)
    ensures WellFormed(a.items + more, b.next) && WellFormed(b.items, b.next)
  {
    KeepWellFormed(a.items + more, b.next, 0, gone);
  }

  lemma {:induction false} OthersEnforce(c: Codec, a: Flat, more: seq<Item>, gone: set<nat>, m: Flat, op: Op, b: Flat)
      returns (gone': set<nat>)
    requires WellFormed(a.items, a.next) && Others(a, more, gone, m) && op.DoEnforce? && FlatStep(c, m, op, b)
    ensures Others(a, more, gone', b)
  {
    AllInOrder(a, more, gone, m);
    var k: nat :| k <= |DiscardOrder(m.items)| && b.items == AfterDiscards(m.items, k);
    var order := DiscardOrder(m.items)[..k];
    gone' := gone + Seqs(order);
    KeepKeep(a.items + more, 0, gone, 0, Seqs(order));
    forall x | x in Seqs(order) ensures DiscardedNumber(m, a.items + more, x) {
      var i :| 0 <= i < |order| && order[i].seqNo == x;
      OrderMember(m.items, i);
      KeepMember(a.items + more, 0, gone, order[i]);
      DiscardedOne(m, a.items + more, order[i]);
    }
  }

  /** The number is in use and stands for no event. */
  ghost predicate DiscardedNumber(m: Flat, all: seq<Item>, x: nat) {
    x <= m.next && forall it :: it in all && it.seqNo == x ==> it.priority != EventPriority
  }

  lemma {:induction false} DiscardedOne(m: Flat, all: seq<Item>, it: Item)
    requires WellFormed(all, m.next) && it in all && it.priority != EventPriority
    ensures DiscardedNumber(m, all, it.seqNo)
  {
    var i :| 0 <= i < |all| && all[i] == it;
    forall x | x in all && x.seqNo == it.seqNo ensures x.priority != EventPriority {
      var j :| 0 <= j < |all| && all[j] == x;
      assert i == j;
    }
  }

  lemma EnforcesSnoc(ops: seq<Op>, i: nat)
    requires i < |ops|
    ensures Enforces(ops[..i + 1]) <==> Enforces(ops[..i]) || ops[i].DoEnforce?
  {
    if Enforces(ops[..i]) {
      var k :| 0 <= k < |ops[..i]| && ops[..i][k].DoEnforce?;
      assert ops[..i + 1][k].DoEnforce?;
    }
    assert ops[..i + 1][i] == ops[i];
  }

  lemma {:induction false} NumberedSnoc(next: nat, ops: seq<Op>, i: nat)
    requires i < |ops|
    ensures Numbered(next, ops[..i + 1])
         == Numbered(next, ops[..i])
            + if ops[i].DoAppend? then [ops[i].item.(seqNo := next + |Numbered(next, ops[..i])| + 1)] else []
  {
    assert ops[..i + 1][..i] == ops[..i];
  }

  /** What a run of others' operations amounts to. */
  lemma {:induction false} RunSummary(c: Codec, flats: seq<Flat>, ops: seq<Op>, i: nat) returns (gone: set<nat>)
    requires FlatRun(c, flats, ops) && ByOthers(ops) && i <= |ops| && WellFormed(flats[0].items, flats[0].next)
    ensures Others(flats[0], Numbered(flats[0].next, ops[..i]), gone, flats[i])
    ensures !Enforces(ops[..i]) ==> gone == {}
  {
    if i == 0 {
      gone := {};
      NoOps(flats[0], ops);
    } else {
      gone := RunSummary(c, flats, ops, i - 1);
      assert FlatStep(c, flats[i - 1], ops[i - 1], flats[i]);
      gone := OpSummary(c, flats[0], ops, i - 1, gone, flats[i - 1], flats[i]);
    }
  }

  lemma {:induction false} NoOps(a: Flat, ops: seq<Op>)
    requires WellFormed(a.items, a.next)
    ensures Others(a, Numbered(a.next, ops[..0]), {}, a)
  {
    assert a.items + Numbered(a.next, ops[..0]) == a.items;
    KeepEverything(a.items, 0, {});
  }

  lemma {:induction false} OpSummary(c: Codec, a: Flat, ops: seq<Op>, i: nat, gone: set<nat>, m: Flat, b: Flat)
      returns (gone': set<nat>)
    requires i < |ops| && ByOthers(ops) && WellFormed(a.items, a.next) && FlatStep(c, m, ops[i], b)
    requires Others(a, Numbered(a.next, ops[..i]), gone, m) && (!Enforces(ops[..i]) ==> gone == {})
    ensures Others(a, Numbered(a.next, ops[..i + 1]), gone', b) && (!Enforces(ops[..i + 1]) ==> gone' == {})
  {
    EnforcesSnoc(ops, i);
    NumberedSnoc(a.next, ops, i);
    gone' := StepSummary(c, a, Numbered(a.next, ops[..i]), gone, m, ops[i], b);
  }

  lemma {:induction false} StepSummary(c: Codec, a: Flat, more: seq<Item>, gone: set<nat>, m: Flat, op: Op, b: Flat)
      returns (gone': set<nat>)
    requires WellFormed(a.items, a.next) && Others(a, more, gone, m) && FlatStep(c, m, op, b)
    requires op.DoAppend? || op.DoEnforce?
    ensures Others(a, more + if op.DoAppend? then [op.item.(seqNo := a.next + |more| + 1)] else [], gone', b)
    ensures op.DoAppend? ==> gone' == gone
  {
    gone' := gone;
    if op.DoAppend? {
      OthersAppend(a, more, gone, m, op.item.(seqNo := m.next + 1));
    } else {
      gone' := OthersEnforce(c, a, more, gone, m, op, b);
      assert more + [] == more;
    }
  }

  lemma {:induction false} Summary(c: Codec, a: Flat, ops: seq<Op>, b: Flat) returns (gone: set<nat>)
    requires Reaches(c, a, ops, b) && ByOthers(ops) && WellFormed(a.items, a.next)
    ensures Others(a, Numbered(a.next, ops), gone, b) && (!Enforces(ops) ==> gone == {})
  {
    var flats :| FlatRun(c, flats, ops) && flats[0] == a && flats[|ops|] == b;
    gone := RunSummary(c, flats, ops, |ops|);
    assert ops[..|ops|] == ops;
  }

  // ----- Accounting

  /** Of everything that was or came in (`all`), `sent` was sent and the log
      still has the rest, in order and nothing twice; only an enforcement can
      have taken something else, and no event. Without one nothing is missing. */
  ghost predicate Accounted(all: seq<Item>, sent: seq<Item>, now: Flat, enforced: bool) {
    && WellFormed(now.items, now.next)
    && Increasing(sent + now.items)
    && (forall it :: it in sent || it in now.items ==> it in all)
    && (forall it :: it in all ==> it.seqNo <= now.next)
    && (forall it :: it in all ==> it in sent || it in now.items || (enforced && it.priority != EventPriority))
    && (!enforced ==> sent + now.items == all)
  }

  lemma {:induction false} StartAccount(a: Flat)
    requires WellFormed(a.items, a.next)
    ensures Accounted(a.items, [], a, false)
  {
    assert [] + a.items == a.items;
    forall it | it in a.items ensures it.seqNo <= a.next {
      var i :| 0 <= i < |a.items| && a.items[i] == it;
    }
  }

  lemma {:induction false} SubIncreasing(sent: seq<Item>, items: seq<Item>, gone: set<nat>)
    requires Increasing(sent + items)
    ensures Increasing(sent + Keep(items, 0, gone))
  {
    var kept := Keep(items, 0, gone);
    assert forall i :: 0 <= i < |items| ==> items[i] == (sent + items)[|sent| + i];
    assert forall i :: 0 <= i < |sent| ==> sent[i] == (sent + items)[i];
    KeepIncreasing(items, 0, gone);
    forall i, j | 0 <= i < |sent| && 0 <= j < |kept| ensures sent[i].seqNo < kept[j].seqNo {
      KeepMember(items, 0, gone, kept[j]);
      var m :| 0 <= m < |items| && items[m] == kept[j];
      assert (sent + items)[i].seqNo < (sent + items)[|sent| + m].seqNo;
    }
  }

  /** New numbers go on top of everything sent or left. */
  lemma {:induction false} MoreIncreasing(all: seq<Item>, sent: seq<Item>, a: Flat, enforced: bool, more: seq<Item>)
    requires Accounted(all, sent, a, enforced) && forall i :: 0 <= i < |more| ==> more[i].seqNo == a.next + i + 1
    ensures Increasing(sent + (a.items + more))
  {
    var x := sent + a.items;
    assert sent + (a.items + more) == x + more;
    forall i | 0 <= i < |x| ensures x[i].seqNo <= a.next {
      assert x[i] in sent || x[i] in a.items;
    }
  }

  /** What others do keeps the account, with their items added to it. */
  lemma {:induction false} OthersKeep(all: seq<Item>, sent: seq<Item>, a: Flat, enforced: bool,
                                      more: seq<Item>, gone: set<nat>, b: Flat, enforced': bool)
    requires Accounted(all, sent, a, enforced) && Others(a, more, gone, b)
    requires (enforced ==> enforced') && (gone != {} ==> enforced')
    ensures Accounted(all + more, sent, b, enforced')
  {
    AllInOrder(a, more, gone, b);
    MoreIncreasing(all, sent, a, enforced, more);
    SubIncreasing(sent, a.items + more, gone);
    forall it ensures it in b.items <==> it in a.items + more && it.seqNo > 0 && it.seqNo !in gone {
      KeepMember(a.items + more, 0, gone, it);
    }
    AllCounted(all, sent, a, enforced, more, gone, b);
    if !enforced' {
      NoneMissing(sent, a.items, more, b.next);
    }
  }

  lemma {:induction false} NoneMissing(sent: seq<Item>, items: seq<Item>, more: seq<Item>, next: nat)
    requires WellFormed(items + more, next)
    ensures sent + Keep(items + more, 0, {}) == (sent + items) + more
  {
    KeepEverything(items + more, 0, {});
    Regroup(sent, items, more);
  }

  lemma {:induction false} AllCounted(all: seq<Item>, sent: seq<Item>, a: Flat, enforced: bool,
                                      more: seq<Item>, gone: set<nat>, b: Flat)
    requires Accounted(all, sent, a, enforced) && Others(a, more, gone, b) && WellFormed(a.items + more, b.next)
    ensures forall it :: it in all + more ==> it.seqNo <= b.next
    ensures forall it :: it in all + more ==>
              it in sent || it in b.items || ((enforced || gone != {}) && it.priority != EventPriority)
  {
    forall it | it in all + more
      ensures it.seqNo <= b.next
      ensures it in sent || it in b.items || ((enforced || gone != {}) && it.priority != EventPriority)
    {
      KeepMember(a.items + more, 0, gone, it);
      assert it in all || it in more;
      if it in a.items + more {
        var i :| 0 <= i < |a.items + more| && (a.items + more)[i] == it;
      }
    }
  }

  /** Whatever others do meanwhile, what is up to the last item of a batch was
      in the batch: an Ack takes nothing that was not sent. */
  lemma {:induction false} AckTakesBatch(n: int, read: Flat, more: seq<Item>, gone: set<nat>, ready: Flat, it: Item)
    requires WellFormed(read.items, read.next) && Others(read, more, gone, ready) && Take(read.items, n) != []
    requires it in ready.items && it !in Keep(ready.items, LastSeq(Take(read.items, n)), {})
    ensures it in Take(read.items, n)
  {
    var batch := Take(read.items, n);
    KeepMember(ready.items, LastSeq(batch), {}, it);
    KeepMember(read.items + more, 0, gone, it);
    var i :| 0 <= i < |read.items + more| && (read.items + more)[i] == it;
    assert batch[|batch| - 1] == read.items[|batch| - 1];
    if i < |batch| {
      assert batch[i] == it;
    }
  }

  /** Sent before, the batch, and what is left, in order. */
  lemma {:induction false} BatchInOrder(sent: seq<Item>, items: seq<Item>, batch: seq<Item>, left: seq<Item>)
    requires Increasing(sent + items) && batch != [] && batch <= items && Increasing(left)
    requires forall it :: it in left ==> it.seqNo > LastSeq(batch)
    ensures Increasing(sent + batch + left)
  {
    var s, t := sent + items, sent + batch;
    assert forall i :: 0 <= i < |t| ==> t[i] == s[i];
    assert t[|t| - 1] == batch[|batch| - 1];
    forall i, j | 0 <= i < |t| && 0 <= j < |left| ensures t[i].seqNo < left[j].seqNo {
      assert left[j] in left;
      assert i < |t| - 1 ==> s[i].seqNo < s[|t| - 1].seqNo;
    }
  }

  lemma {:induction false} NothingElse(read: Flat, more: seq<Item>, ready: Flat, batch: seq<Item>,
                                       all: seq<Item>, sent: seq<Item>)
    requires WellFormed(read.items, read.next) && Others(read, more, {}, ready) && all == sent + read.items
    requires batch != [] && batch <= read.items
    ensures (sent + batch) + Keep(ready.items, LastSeq(batch), {}) == all + more
  {
    AllInOrder(read, more, {}, ready);
    KeepEverything(read.items + more, 0, {});
    var rest := read.items[|batch|..];
    assert read.items == batch + rest;
    Regroup(batch, rest, more);
    KeepAfterPrefix(batch, rest + more);
    Spliced(sent, batch, rest, more);
  }

  lemma Spliced(a: seq<Item>, b: seq<Item>, c: seq<Item>, d: seq<Item>)
    ensures (a + b) + (c + d) == (a + (b + c)) + d
  {
  }

  /** Acknowledging a sent batch moves it from the log to what was sent. */
  lemma {:induction false} AckKeeps(n: int, read: Flat, more: seq<Item>, gone: set<nat>, ready: Flat,
                                    all: seq<Item>, sent: seq<Item>, enforced: bool, enforced': bool)
    requires Accounted(all, sent, read, enforced) && Others(read, more, gone, ready) && Take(read.items, n) != []
    requires (enforced ==> enforced') && (gone != {} ==> enforced')
    ensures var batch := Take(read.items, n);
            var left := Keep(ready.items, LastSeq(batch), {});
            Accounted(all + more, sent + batch, Flat(left, ready.next), enforced')
  {
    var batch := Take(read.items, n);
    var left := Keep(ready.items, LastSeq(batch), {});
    OthersKeep(all, sent, read, enforced, more, gone, ready, enforced');
    KeepWellFormed(ready.items, ready.next, LastSeq(batch), {});
    AckMembers(n, read, more, gone, ready);
    BatchInOrder(sent, read.items, batch, left);
    BatchCounted(n, read, all, more, sent);
    if !enforced' {
      NothingElse(read, more, ready, batch, all, sent);
    }
  }

  lemma {:induction false} AckMembers(n: int, read: Flat, more: seq<Item>, gone: set<nat>, ready: Flat)
    requires WellFormed(read.items, read.next) && Others(read, more, gone, ready) && Take(read.items, n) != []
    ensures var batch := Take(read.items, n);
            var left := Keep(ready.items, LastSeq(batch), {});
            && (forall it :: it in left ==> it in ready.items && it.seqNo > LastSeq(batch))
            && (forall it :: it in ready.items ==> it in left || it in batch)
  {
    var batch := Take(read.items, n);
    var left := Keep(ready.items, LastSeq(batch), {});
    forall it | it in left ensures it in ready.items && it.seqNo > LastSeq(batch) {
      KeepMember(ready.items, LastSeq(batch), {}, it);
    }
    forall it | it in ready.items && it !in left ensures it in batch {
      AckTakesBatch(n, read, more, gone, ready, it);
    }
  }

  lemma {:induction false} BatchCounted(n: int, read: Flat, all: seq<Item>, more: seq<Item>, sent: seq<Item>)
    requires forall it :: it in read.items ==> it in all
    ensures forall it :: it in Take(read.items, n) ==> it in all + more
  {
    forall it | it in Take(read.items, n) ensures it in all {
      assert it in read.items;
    }
  }

  // ----- Whole drains

  lemma {:induction false} NumberedConcat(next: nat, a: seq<Op>, b: seq<Op>)
    ensures Numbered(next, a + b) == Numbered(next, a) + Numbered(next + |Numbered(next, a)|, b)
    decreases |b|
  {
    if b == [] {
      assert a + b == a;
    } else {
      assert (a + b)[..|a + b| - 1] == a + b[..|b| - 1];
      NumberedConcat(next, a, b[..|b| - 1]);
    }
  }

  lemma {:induction false} EnforcesConcat(a: seq<Op>, b: seq<Op>)
    ensures Enforces(a + b) <==> Enforces(a) || Enforces(b)
  {
    if Enforces(a) {
      var i :| 0 <= i < |a| && a[i].DoEnforce?;
      assert (a + b)[i].DoEnforce?;
    }
    if Enforces(b) {
      var i :| 0 <= i < |b| && b[i].DoEnforce?;
      assert (a + b)[|a| + i].DoEnforce?;
    }
  }

  /** The account after operations `done` that began at number `next`, on top
      of what there was before. */
  ghost predicate AccountedFor(before: seq<Item>, next: nat, done: seq<Op>, sent: seq<Item>, now: Flat, enforced: bool)
  {
    && Accounted(before + Numbered(next, done), sent, now, enforced || Enforces(done))
    && now.next == next + |Numbered(next, done)|
  }

  lemma {:induction false} ForMore(before: seq<Item>, next: nat, done: seq<Op>, ops: seq<Op>, more: seq<Item>,
                                   sent: seq<Item>, now: Flat, enforced: bool)
    requires more == Numbered(next + |Numbered(next, done)|, ops)
    requires Accounted((before + Numbered(next, done)) + more, sent, now, enforced || Enforces(done) || Enforces(ops))
    requires now.next == next + |Numbered(next, done)| + |more|
    ensures AccountedFor(before, next, done + ops, sent, now, enforced)
  {
    NumberedConcat(next, done, ops);
    EnforcesConcat(done, ops);
    Regroup(before, Numbered(next, done), more);
  }

  /** Others' operations extend the account. */
  lemma {:induction false} OthersExtend(a: Flat, ops: seq<Op>, gone: set<nat>, b: Flat,
                                        before: seq<Item>, next: nat, done: seq<Op>, sent: seq<Item>, enforced: bool)
    requires AccountedFor(before, next, done, sent, a, enforced)
    requires Others(a, Numbered(a.next, ops), gone, b) && (!Enforces(ops) ==> gone == {})
    ensures AccountedFor(before, next, done + ops, sent, b, enforced)
  {
    OthersKeep(before + Numbered(next, done), sent, a, enforced || Enforces(done), Numbered(a.next, ops), gone, b,
               enforced || Enforces(done) || Enforces(ops));
    ForMore(before, next, done, ops, Numbered(a.next, ops), sent, b, enforced);
  }

  lemma {:induction false} AckExtends(n: int, read: Flat, ops: seq<Op>, gone: set<nat>, ready: Flat,
                                      before: seq<Item>, next: nat, done: seq<Op>, sent: seq<Item>, enforced: bool)
    requires AccountedFor(before, next, done, sent, read, enforced) && Take(read.items, n) != []
    requires Others(read, Numbered(read.next, ops), gone, ready) && (!Enforces(ops) ==> gone == {})
    ensures var batch := Take(read.items, n);
            var left := Keep(ready.items, LastSeq(batch), {});
            AccountedFor(before, next, done + ops, sent + batch, Flat(left, ready.next), enforced)
  {
    var batch := Take(read.items, n);
    var left := Keep(ready.items, LastSeq(batch), {});
    AckKeeps(n, read, Numbered(read.next, ops), gone, ready, before + Numbered(next, done), sent,
             enforced || Enforces(done), enforced || Enforces(done) || Enforces(ops));
    ForMore(before, next, done, ops, Numbered(read.next, ops), sent + batch, Flat(left, ready.next), enforced);
  }

  /** What happened in a finished round. */
  lemma {:induction false} RoundSummary(c: Codec, n: int, round: Round, a: Flat, batch: seq<Item>, b: Flat)
      returns (read: Flat, ready: Flat, gone1: set<nat>, gone2: set<nat>)
    requires RoundDone(c, n, round, a, batch, b) && WellFormed(a.items, a.next)
    requires ByOthers(round.before) && ByOthers(round.during)
    ensures batch == Take(read.items, n) != [] && b == Flat(Keep(ready.items, LastSeq(batch), {}), ready.next)
    ensures Others(a, Numbered(a.next, round.before), gone1, read) && (!Enforces(round.before) ==> gone1 == {})
    ensures Others(read, Numbered(read.next, round.during), gone2, ready) && (!Enforces(round.during) ==> gone2 == {})
  {
    read :|
      && Reaches(c, a, round.before, read) && batch == Take(read.items, n)
      && Acked(c, read, round.during, LastSeq(batch), b);
    ready :| Reaches(c, read, round.during, ready) && FlatStep(c, ready, DoAck(LastSeq(batch)), b);
    gone1 := Summary(c, a, round.before, read);
    AllInOrder(a, Numbered(a.next, round.before), gone1, read);
    gone2 := Summary(c, read, round.during, ready);
  }

  lemma {:induction false} RoundKeeps(c: Codec, n: int, round: Round, a: Flat, batch: seq<Item>, b: Flat,
                                      before: seq<Item>, next: nat, done: seq<Op>, sent: seq<Item>, enforced: bool)
    requires AccountedFor(before, next, done, sent, a, enforced) && ByOthers(round.before) && ByOthers(round.during)
    requires RoundDone(c, n, round, a, batch, b)
    ensures AccountedFor(before, next, done + (round.before + round.during), sent + batch, b, enforced)
  {
    var read, ready, gone1, gone2 := RoundSummary(c, n, round, a, batch, b);
    OthersExtend(a, round.before, gone1, read, before, next, done, sent, enforced);
    AckExtends(n, read, round.during, gone2, ready, before, next, done + round.before, sent, enforced);
    Regroup(done, round.before, round.during);
  }

  lemma {:induction false} FlattenSnoc(earlier: seq<Item>, sent: seq<seq<Item>>, m: nat)
    requires m < |sent|
    ensures earlier + Flatten(sent[..m + 1]) == (earlier + Flatten(sent[..m])) + sent[m]
  {
    assert sent[..m + 1][..m] == sent[..m];
  }

  lemma {:induction false} NextRoundKeeps(c: Codec, n: int, script: seq<Round>, stops: seq<Flat>, sent: seq<seq<Item>>,
                                          before: seq<Item>, earlier: seq<Item>, enforced: bool, m: nat)
    requires Rounds(c, n, script, stops, sent) && OthersOnly(script) && m < |sent|
    requires AccountedFor(before, stops[0].next, OpsIn(script, m), earlier + Flatten(sent[..m]), stops[m], enforced)
    ensures AccountedFor(before, stops[0].next, OpsIn(script, m + 1), earlier + Flatten(sent[..m + 1]), stops[m + 1],
                         enforced)
  {
    FlattenSnoc(earlier, sent, m);
    RoundKeeps(c, n, RoundAt(script, m), stops[m], sent[m], stops[m + 1],
               before, stops[0].next, OpsIn(script, m), earlier + Flatten(sent[..m]), enforced);
  }

  lemma {:induction false} RoundsKeep(c: Codec, n: int, script: seq<Round>, stops: seq<Flat>, sent: seq<seq<Item>>,
                                      before: seq<Item>, earlier: seq<Item>, enforced: bool, i: nat)
    requires Rounds(c, n, script, stops, sent) && OthersOnly(script) && i <= |sent|
    requires Accounted(before, earlier, stops[0], enforced)
    ensures AccountedFor(before, stops[0].next, OpsIn(script, i), earlier + Flatten(sent[..i]), stops[i], enforced)
  {
    if i == 0 {
      assert before + Numbered(stops[0].next, []) == before && earlier + Flatten(sent[..0]) == earlier;
    } else {
      RoundsKeep(c, n, script, stops, sent, before, earlier, enforced, i - 1);
      NextRoundKeeps(c, n, script, stops, sent, before, earlier, enforced, i - 1);
    }
  }

  lemma {:induction false} LastKeeps(c: Codec, round: Round, a: Flat, ok: bool, b: Flat,
                                     before: seq<Item>, next: nat, done: seq<Op>, sent: seq<Item>, enforced: bool)
    requires AccountedFor(before, next, done, sent, a, enforced) && ByOthers(round.before) && ByOthers(round.during)
    requires LastRound(c, round, a, ok, b)
    ensures AccountedFor(before, next, done + RanIn(round, ok), sent, b, enforced)
  {
    var read: Flat :|
      && Reaches(c, a, round.before, read)
      && if round.outcome == Cancelled then !ok && b == read
         else if read.items == [] then ok && b == read
         else !ok && round.outcome == SendFailed && Reaches(c, read, round.during, b);
    var gone := Summary(c, a, round.before, read);
    OthersExtend(a, round.before, gone, read, before, next, done, sent, enforced);
    if !ok && round.outcome != Cancelled {
      var gone' := Summary(c, read, round.during, b);
      OthersExtend(read, round.during, gone', b, before, next, done + round.before, sent, enforced);
      Regroup(done, round.before, round.during);
    }
  }

  /** A drain on top of an account: the batches follow what was sent earlier,
      in order and without gaps; everything that was or came in was sent, is
      still there or, if it is no event, went in an enforcement. Without one,
      what was sent and what is left are exactly what was and came in. */
  lemma {:induction false} DrainAccounts(c: Codec, n: int, script: seq<Round>, stops: seq<Flat>, sent: seq<seq<Item>>,
                                         ok: bool, end: Flat, before: seq<Item>, earlier: seq<Item>, enforced: bool)
    requires Drained(c, n, script, stops, sent, ok, end) && OthersOnly(script)
    requires Accounted(before, earlier, stops[0], enforced)
    ensures var ran := Ran(script, |sent|, ok);
            AccountedFor(before, stops[0].next, ran, earlier + Flatten(sent), end, enforced)
  {
    RoundsKeep(c, n, script, stops, sent, before, earlier, enforced, |sent|);
    assert sent[..|sent|] == sent;
    LastKeeps(c, RoundAt(script, |sent|), stops[|sent|], ok, end, before, stops[0].next, OpsIn(script, |sent|),
              earlier + Flatten(sent), enforced);
  }
}
