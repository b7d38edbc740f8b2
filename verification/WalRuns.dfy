/** Whole runs of the buffer, with clean and unclean restarts anywhere in
    between, refine runs of the flat log in which a restart loses nothing. */
module WalRuns {
  import opened Common
  import opened FlatLog
  import opened WalDisk
  import opened WalIndex
  import opened WalRecovery
  import opened WalSegments
  import opened WalBuffer
  import opened WalCapacity

  /** The log and the last sequence number handed out. */
  datatype Flat = Flat(items: seq<Item>, next: nat)

  /** `CrashInAppend` dies after `cut` bytes of the record line were written. */
  datatype Op =
    | DoAppend(item: Item)
    | DoAck(upTo: nat)
    | DoEnforce(clock: nat -> int)
    | DoClose
    | Restart
    | CrashInAppend(item: Item, cut: nat)

  /** One operation on the flat log. */
  ghost predicate FlatStep(c: Codec, a: Flat, op: Op, b: Flat) {
    match op
    case DoAppend(item) => b == Flat(a.items + [item.(seqNo := a.next + 1)], a.next + 1)
    case DoAck(upTo) => b == Flat(Keep(a.items, upTo, {}), a.next)
    case DoEnforce(_) =>
      b.next == a.next
      && exists k: nat :: k <= |DiscardOrder(a.items)| && b.items == AfterDiscards(a.items, k)
    case DoClose => b == a
    case Restart => b == Flat(a.items, LastSeq(a.items))
    case CrashInAppend(item, cut) =>
      var it := item.(seqNo := a.next + 1);
      var items := if cut >= |c.enc(it)| then a.items + [it] else a.items;
      b == Flat(items, LastSeq(items))
  }

  ghost predicate FlatRun(c: Codec, flats: seq<Flat>, ops: seq<Op>) {
    |flats| == |ops| + 1 && forall i :: 0 <= i < |ops| ==> FlatStep(c, flats[i], ops[i], flats[i + 1])
  }

  // ----- What a directory left behind recovers to

  /** A directory with no open segment. */
  lemma {:induction false} IntactSealed(files: Files, c: Codec, clock: nat, next: nat)
    requires WellFormed(Collect(files, 0, clock), next) && forall s :: s in files ==> s < clock
    ensures Intact(files, map[], c, clock) && RecoveredItems(files, map[], c, clock) == Collect(files, 0, clock)
  {
    assert Recovered(files, map[], c) == files;
    LastSeqBounds(Collect(files, 0, clock), next);
  }

  /** A directory whose one open segment is the newest and parses to `items`. */
  lemma {:induction false} IntactOpen(files: Files, c: Codec, clock: nat, stem: nat, bytes: seq<byte>, items: seq<Item>,
                                      next: nat)
    requires stem < clock && (forall s :: s in files ==> s < stem)
    requires Parse(c, bytes) == items && WellFormed(Collect(files, 0, clock) + items, next)
    ensures Intact(files, map[stem := bytes], c, clock)
    ensures RecoveredItems(files, map[stem := bytes], c, clock) == Collect(files, 0, clock) + items
  {
    var open := map[stem := bytes];
    assert Parsed(open, c) == map[stem := items];
    assert Recovered(files, open, c) == files[stem := items];
    CollectAppend(files, stem, items, clock);
    LastSeqBounds(Collect(files, 0, clock) + items, next);
  }

  // ----- Restarting

  method Reopen(b: Buffer, open: map<nat, seq<byte>>, clock: nat) returns (b': Buffer)
    requires Intact(b.files, open, b.codec, clock)
    ensures fresh(b') && b'.Valid() && b'.codec == b.codec
    ensures b'.Items() == RecoveredItems(b.files, open, b.codec, clock)
    ensures b'.nextSeq == LastSeq(b'.Items())
  {
    b' := new Buffer(b.codec, b.size, b.segmentBytes, b.maxAge, b.maxBytes, b.files, open, clock);
  }

  /** The process dies between two operations and the directory is opened
      again: same items, and numbering continues above all of them. */
  method CrashAndReopen(b: Buffer) returns (b': Buffer)
    requires b.Valid()
    ensures fresh(b') && b'.Valid() && b'.codec == b.codec
    ensures b'.Items() == b.Items() && b'.nextSeq == LastSeq(b.Items())
  {
    if b.active.None? {
      assert b.Items() == Collect(b.files, 0, b.clock);
      IntactSealed(b.files, b.codec, b.clock, b.nextSeq);
    } else {
      var w := b.active.value;
      ParseRendered(b.codec, w.items);
      IntactOpen(b.files, b.codec, b.clock, w.stem, b.open[w.stem], w.items, b.nextSeq);
    }
    b' := Reopen(b, b.open, b.clock);
  }

  /** An open segment when `cut` bytes of one more record reached it. */
  function Torn(c: Codec, items: seq<Item>, it: Item, cut: nat): seq<byte> {
    Render(c, items) + (if cut < |Line(c, it)| then Line(c, it)[..cut] else Line(c, it))
  }

  /** The process dies inside Append after `cut` bytes of the record. */
  method CrashDuringAppend(b: Buffer, item: Item, cut: nat) returns (b': Buffer)
    requires b.Valid() && Faithful(b.codec, item.(seqNo := b.nextSeq + 1))
    ensures fresh(b') && b'.Valid() && b'.codec == b.codec && b'.nextSeq == LastSeq(b'.Items())
    ensures var it := item.(seqNo := b.nextSeq + 1);
            b'.Items() == if cut >= |b.codec.enc(it)| then b.Items() + [it] else b.Items()
  {
    var it := item.(seqNo := b.nextSeq + 1);
    var open, clock := TornDirectory(b.files, b.active, b.codec, b.clock, b.nextSeq, it, cut);
    b' := Reopen(b, open, clock);
  }

  /** The open segment then on disk: the one in use, or a new one. */
  method TornDirectory(files: Files, active: Option<Writer>, c: Codec, clock: nat, ghost next: nat, it: Item, cut: nat)
      returns (open: map<nat, seq<byte>>, clock': nat)
    requires AllFaithful(c, ActiveItems(active)) && Faithful(c, it) && it.seqNo == next + 1
    requires forall s :: s in files ==> s < clock
    requires WellFormed(Collect(files, 0, clock) + ActiveItems(active), next)
    requires active.Some? ==> active.value.stem < clock && forall s :: s in files ==> s < active.value.stem
    ensures Intact(files, open, c, clock')
    ensures var items := Collect(files, 0, clock) + ActiveItems(active);
            RecoveredItems(files, open, c, clock') == if cut >= |c.enc(it)| then items + [it] else items
  {
    TornIntact(files, active, c, clock, next, it, cut);
    var stem := if active.Some? then active.value.stem else clock;
    clock' := if active.Some? then clock else clock + 1;
    open := map[stem := Torn(c, ActiveItems(active), it, cut)];
  }

  /** The directory a cut-off write leaves behind. */
  lemma {:induction false} TornIntact(files: Files, active: Option<Writer>, c: Codec, clock: nat, next: nat, it: Item,
                                      cut: nat)
    requires AllFaithful(c, ActiveItems(active)) && Faithful(c, it) && it.seqNo == next + 1
    requires forall s :: s in files ==> s < clock
    requires WellFormed(Collect(files, 0, clock) + ActiveItems(active), next)
    requires active.Some? ==> active.value.stem < clock && forall s :: s in files ==> s < active.value.stem
    ensures var stem := if active.Some? then active.value.stem else clock;
            var clock' := if active.Some? then clock else clock + 1;
            var open := map[stem := Torn(c, ActiveItems(active), it, cut)];
            var items := Collect(files, 0, clock) + ActiveItems(active);
            && Intact(files, open, c, clock')
            && RecoveredItems(files, open, c, clock') == if cut >= |c.enc(it)| then items + [it] else items
  {
    var stem := if active.Some? then active.value.stem else clock;
    var clock' := if active.Some? then clock else clock + 1;
    var front, back := Collect(files, 0, clock'), ActiveItems(active);
    if active.None? {
      assert At(files, clock) == [];
    }
    assert front == Collect(files, 0, clock);
    TornParses(c, back, it, cut);
    Regroup(front, back, [it]);
    ExtendWellFormed(front + back, next, it);
    IntactOpen(files, c, clock', stem, Torn(c, back, it, cut), Parse(c, Torn(c, back, it, cut)), next + 1);
  }

  lemma {:induction false} TornParses(c: Codec, items: seq<Item>, it: Item, cut: nat)
    requires AllFaithful(c, items) && Faithful(c, it)
    ensures Parse(c, Torn(c, items, it, cut)) == if cut >= |c.enc(it)| then items + [it] else items
  {
    var written := if cut < |Line(c, it)| then cut else |Line(c, it)|;
    assert Line(c, it)[..|Line(c, it)|] == Line(c, it);
    ParseTorn(c, items, it, written);
  }

  /** The process dies while sealing, after the sealed file appeared and
      before the open one was removed. The first reopening lists that segment
      twice; it loses nothing, counts correctly exactly when the segment is
      empty, and the next reopening is exact again. */
  method CrashDuringSeal(b: Buffer) returns (first: Buffer, second: Buffer)
    requires b.Valid() && b.active.Some?
    ensures ListItems(first.sealed, first.files) == b.Items() + b.active.value.items
    ensures first.totalLen == |b.Items()| <==> b.active.value.items == []
    ensures first.totalLen == |ListItems(first.sealed, first.files)|
    ensures b.active.value.items != [] ==> Twice(first.sealed, b.active.value.stem)
    ensures second.Valid() && second.Items() == b.Items()
  {
    var w := b.active.value;
    var files := b.files[w.stem := w.items];
    SealWindow(b.files, b.codec, b.clock, w, b.open);
    IntactSealed(files, b.codec, b.clock, b.nextSeq);
    first := new Buffer(b.codec, b.size, b.segmentBytes, b.maxAge, b.maxBytes, files, b.open, b.clock);
    second := Reopen(first, first.open, first.clock);
  }

  /** The directory with the open segment in both of its forms. */
  lemma {:induction false} SealWindow(files: Files, c: Codec, clock: nat, w: Writer, open: map<nat, seq<byte>>)
    requires ActiveOk(Some(w), files, open, c, clock)
    ensures var both := files[w.stem := w.items];
            && StemsBelow(both, open, clock)
            && Agree(both, Parsed(open, c))
            && Collect(both, 0, clock) == Collect(files, 0, clock) + w.items
            && Collect(Parsed(open, c), 0, clock) == w.items
            && Recovered(both, open, c) == both
            && (w.items != [] ==> ListedInBoth(both, Parsed(open, c), w.stem))
  {
    ParsedOpen(c, clock, w, open);
    CollectAppend(files, w.stem, w.items, clock);
    SameTwice(files, w.stem, w.items, Parsed(open, c));
  }

  lemma {:induction false} SameTwice(files: Files, stem: nat, items: seq<Item>, parsed: Files)
    requires parsed == map[stem := items]
    ensures Agree(files[stem := items], parsed) && files[stem := items] + parsed == files[stem := items]
  {
  }

  lemma {:induction false} ParsedOpen(c: Codec, clock: nat, w: Writer, open: map<nat, seq<byte>>)
    requires AllFaithful(c, w.items) && open == map[w.stem := Render(c, w.items)] && w.stem < clock
    ensures Parsed(open, c) == map[w.stem := w.items]
    ensures Collect(Parsed(open, c), 0, clock) == w.items
  {
    ParseRendered(c, w.items);
    assert Parsed(open, c) == map[w.stem := w.items];
    var none: Files := map[];
    CollectAppend(none, w.stem, w.items, clock);
    CollectEmpty(none, 0, clock);
    assert none[w.stem := w.items] == Parsed(open, c);
  }

  /** Recovering a recovered directory changes nothing. */
  method ReopenTwice(b: Buffer) returns (once: Buffer, twice: Buffer)
    requires b.Valid()
    ensures once.Valid() && twice.Valid()
    ensures once.Items() == b.Items() && twice.Items() == once.Items()
    ensures twice.nextSeq == once.nextSeq && twice.totalLen == once.totalLen
  {
    once := CrashAndReopen(b);
    twice := CrashAndReopen(once);
  }

  // ----- Runs

  /** The items an operation writes have records that read back. */
  ghost predicate Writable(c: Codec, op: Op) {
    match op
    case DoAppend(item) => Encodes(c, item)
    case CrashInAppend(item, _) => Encodes(c, item)
    case _ => true
  }

  method Perform(b: Buffer, op: Op) returns (b': Buffer)
    requires b.Valid() && Writable(b.codec, op)
    modifies b
    ensures b'.Valid() && b'.codec == b.codec && (b' == b || fresh(b'))
    ensures FlatStep(b.codec, old(Flat(b.Items(), b.nextSeq)), op, Flat(b'.Items(), b'.nextSeq))
  {
    match op {
      case Restart =>
        b' := CrashAndReopen(b);
      case CrashInAppend(item, cut) =>
        b' := CrashDuringAppend(b, item, cut);
      case _ =>
        Operate(b, op);
        b' := b;
    }
  }

  method Operate(b: Buffer, op: Op)
    requires b.Valid() && Writable(b.codec, op) && !op.Restart? && !op.CrashInAppend?
    modifies b
    ensures b.Valid()
    ensures FlatStep(b.codec, old(Flat(b.Items(), b.nextSeq)), op, Flat(b.Items(), b.nextSeq))
  {
    match op {
      case DoAppend(item) =>
        var _ := b.Append(item);
      case DoAck(upTo) =>
        b.Ack(upTo);
      case DoEnforce(clock) =>
        var discarded := EnforceCapacity(b, clock);
        assert b.Items() == AfterDiscards(old(b.Items()), |discarded|);
      case DoClose =>
        b.Close();
    }
  }

  /** Any sequence of operations, restarts and crashes is a run of the flat
      log; `flats` are its states. */
  method Run(b: Buffer, ops: seq<Op>) returns (b': Buffer, flats: seq<Flat>)
    requires b.Valid() && forall i :: 0 <= i < |ops| ==> Writable(b.codec, ops[i])
    modifies b
    ensures b'.Valid()
    ensures FlatRun(b.codec, flats, ops)
    ensures flats[0] == old(Flat(b.Items(), b.nextSeq)) && flats[|ops|] == Flat(b'.Items(), b'.nextSeq)
  {
    b' := b;
    var items := b.OldestItems(b.totalLen);
    assert items == b.Items();
    flats := [Flat(items, b.nextSeq)];
    for i := 0 to |ops|
      invariant b'.Valid() && b'.codec == b.codec && (b' == b || fresh(b'))
      invariant FlatRun(b.codec, flats, ops[..i])
      invariant flats[0] == old(Flat(b.Items(), b.nextSeq)) && flats[i] == Flat(b'.Items(), b'.nextSeq)
    {
      b' := Perform(b', ops[i]);
      items := b'.OldestItems(b'.totalLen);
      assert items == b'.Items();
      RunSnoc(b.codec, flats, ops[..i], Flat(items, b'.nextSeq), ops[i]);
      assert ops[..i + 1] == ops[..i] + [ops[i]];
      flats := flats + [Flat(items, b'.nextSeq)];
    }
    assert ops[..|ops|] == ops;
  }

  lemma {:induction false} RunSnoc(c: Codec, flats: seq<Flat>, ops: seq<Op>, b: Flat, op: Op)
    requires FlatRun(c, flats, ops) && FlatStep(c, flats[|ops|], op, b)
    ensures FlatRun(c, flats + [b], ops + [op])
  {
    var flats', ops' := flats + [b], ops + [op];
    forall i | 0 <= i < |ops'| ensures FlatStep(c, flats'[i], ops'[i], flats'[i + 1]) {
      if i < |ops| {
        assert flats'[i] == flats[i] && flats'[i + 1] == flats[i + 1] && ops'[i] == ops[i];
      }
    }
  }

  // ----- What runs of the flat log guarantee

  lemma {:induction false} StepWellFormed(c: Codec, a: Flat, op: Op, b: Flat)
    requires FlatStep(c, a, op, b) && WellFormed(a.items, a.next)
    ensures WellFormed(b.items, b.next)
  {
    match op {
      case DoAppend(item) =>
      case DoAck(upTo) => KeepWellFormed(a.items, a.next, upTo, {});
      case DoEnforce(_) =>
        var k: nat :| k <= |DiscardOrder(a.items)| && b.items == AfterDiscards(a.items, k);
        DiscardsInOrder(a.items, a.next, k);
      case DoClose =>
      case Restart =>
      case CrashInAppend(_, _) =>
    }
  }

  /** In every state of every run the sequence numbers increase and the next
      one is above all of them. */
  lemma {:induction false} RunWellFormed(c: Codec, flats: seq<Flat>, ops: seq<Op>, i: nat)
    requires FlatRun(c, flats, ops) && i <= |ops| && WellFormed(flats[0].items, flats[0].next)
    ensures WellFormed(flats[i].items, flats[i].next)
  {
    if i > 0 {
      RunWellFormed(c, flats, ops, i - 1);
      StepWellFormed(c, flats[i - 1], ops[i - 1], flats[i]);
    }
  }

  /** The operation may take `it` out of the log. */
  predicate MayRemove(op: Op, it: Item) {
    match op
    case DoAck(upTo) => it.seqNo <= upTo
    case DoEnforce(_) => it.priority != EventPriority
    case _ => false
  }

  lemma {:induction false} StepKeeps(c: Codec, a: Flat, op: Op, b: Flat, it: Item)
    requires FlatStep(c, a, op, b) && WellFormed(a.items, a.next) && it in a.items && it !in b.items
    ensures MayRemove(op, it)
  {
    match op {
      case DoAck(upTo) => KeepMember(a.items, upTo, {}, it);
      case DoEnforce(_) =>
        var k: nat :| k <= |DiscardOrder(a.items)| && b.items == AfterDiscards(a.items, k);
        var order := DiscardOrder(a.items);
        KeepMember(a.items, 0, Seqs(order[..k]), it);
        var i :| 0 <= i < |order[..k]| && order[..k][i].seqNo == it.seqNo;
        OrderMember(a.items, i);
        var j :| 0 <= j < |a.items| && a.items[j] == order[i];
        var j' :| 0 <= j' < |a.items| && a.items[j'] == it;
        assert j == j';
      case _ =>
    }
  }

  /** Durability over whole runs: an item leaves the log only through an
      acknowledgement that covers it or, if it is no event, through capacity
      enforcement; never through a restart or a crash. */
  lemma {:induction false} NothingLost(c: Codec, flats: seq<Flat>, ops: seq<Op>, i: nat, j: nat, it: Item)
    requires FlatRun(c, flats, ops) && WellFormed(flats[0].items, flats[0].next)
    requires i <= j <= |ops| && it in flats[i].items && it !in flats[j].items
    ensures exists m :: i <= m < j && MayRemove(ops[m], it)
    decreases j - i
  {
    if it in flats[j - 1].items {
      RunWellFormed(c, flats, ops, j - 1);
      StepKeeps(c, flats[j - 1], ops[j - 1], flats[j], it);
      assert MayRemove(ops[j - 1], it);
    } else {
      NothingLost(c, flats, ops, i, j - 1, it);
    }
  }
}
