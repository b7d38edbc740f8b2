/** Capacity enforcement (internal/agentbuffer/capacity.go). */
module WalCapacity {
  import opened Common
  import opened FlatLog
  import opened WalDisk
  import opened WalIndex
  import opened WalLayout
  import opened WalSegments
  import opened WalBuffer

  datatype DiscardedItem = DiscardedItem(seqNo: nat, priority: Priority, kind: string)

  function KindOf(it: Item): string {
    match it.payload
    case LogPayload(_) => "log_line"
    case MetricPayload(_) => "metric"
    case InventoryPayload(_) => "inventory"
    case EventPayload(_) => "event"
  }

  /** The kind tells which payload the item has. */
  lemma {:induction false} KindTells(it: Item)
    ensures KindOf(it) == "log_line" <==> it.payload.LogPayload?
    ensures KindOf(it) == "metric" <==> it.payload.MetricPayload?
    ensures KindOf(it) == "inventory" <==> it.payload.InventoryPayload?
    ensures KindOf(it) == "event" <==> it.payload.EventPayload?
  {
  }

  function Report(items: seq<Item>): (r: seq<DiscardedItem>)
    ensures |r| == |items|
  {
    if items == [] then []
    else
      var last := items[|items| - 1];
      Report(items[..|items| - 1]) + [DiscardedItem(last.seqNo, last.priority, KindOf(last))]
  }

  /** `discarded` reports the first discards of `before`, and `after` is what
      they leave. */
  ghost predicate Enforced(before: seq<Item>, discarded: seq<DiscardedItem>, after: seq<Item>) {
    && |discarded| <= |DiscardOrder(before)|
    && discarded == Report(DiscardOrder(before)[..|discarded|])
    && after == AfterDiscards(before, |discarded|)
  }

  function TotalBytes(segs: seq<SealedSegment>): nat {
    if segs == [] then 0 else TotalBytes(segs[..|segs| - 1]) + segs[|segs| - 1].byteSize
  }

  /** The item the age budget is measured from: the first one of the first
      listed segment or, if that one holds nothing, of the open segment. */
  function AgeItem(sealed: seq<SealedSegment>, files: Files, active: Option<Writer>): Option<Item> {
    if sealed != [] && At(files, sealed[0].stem) != [] then Some(At(files, sealed[0].stem)[0])
    else if ActiveItems(active) != [] then Some(ActiveItems(active)[0])
    else None
  }

  /** Some listed segment holds something. */
  ghost predicate Filled(segs: seq<SealedSegment>, files: Files) {
    exists i :: 0 <= i < |segs| && At(files, segs[i].stem) != []
  }

  /** An empty segment is listed first and hides items listed behind it. */
  ghost predicate Hides(sealed: seq<SealedSegment>, files: Files) {
    sealed != [] && At(files, sealed[0].stem) == [] && Filled(sealed, files)
  }

  /** The age is that of the oldest buffered item, unless an empty segment
      hides it: then it is that of a newer item, or of none. */
  lemma {:induction false} AgeItemIff(sealed: seq<SealedSegment>, files: Files, active: Option<Writer>,
                                      size: seq<Item> -> nat, clock: nat, next: nat)
    requires Indexes(sealed, files, size, clock)
    requires WellFormed(Collect(files, 0, clock) + ActiveItems(active), next)
    ensures var items := Collect(files, 0, clock) + ActiveItems(active);
            AgeItem(sealed, files, active) == (if items == [] then None else Some(items[0])) <==> !Hides(sealed, files)
  {
    var listed, items := ListItems(sealed, files), Collect(files, 0, clock) + ActiveItems(active);
    IndexLists(sealed, files, size, clock);
    if sealed != [] {
      ListedFirst(sealed, files);
    }
    ListedNothing(sealed, files);
    if Hides(sealed, files) {
      HiddenIsOlder(listed, ActiveItems(active), next);
    }
  }

  lemma {:induction false} HiddenIsOlder(front: seq<Item>, back: seq<Item>, next: nat)
    requires WellFormed(front + back, next) && front != []
    ensures (front + back)[0] == front[0] && (back != [] ==> front[0] != back[0])
  {
    ConcatWellFormed(front, back, next);
  }

  lemma {:induction false} FilledSnoc(segs: seq<SealedSegment>, files: Files)
    requires segs != []
    ensures Filled(segs, files) <==> Filled(segs[..|segs| - 1], files) || At(files, segs[|segs| - 1].stem) != []
  {
    var front := segs[..|segs| - 1];
    if Filled(front, files) {
      var i :| 0 <= i < |front| && At(files, front[i].stem) != [];
      assert segs[i] == front[i];
    }
    if Filled(segs, files) {
      var i :| 0 <= i < |segs| && At(files, segs[i].stem) != [];
      assert i < |front| ==> segs[i] == front[i];
    }
  }

  lemma {:induction false} ListedNothing(segs: seq<SealedSegment>, files: Files)
    ensures ListItems(segs, files) != [] <==> Filled(segs, files)
    decreases |segs|
  {
    if segs != [] {
      ListedNothing(segs[..|segs| - 1], files);
      FilledSnoc(segs, files);
    }
  }

  lemma {:induction false} ListedFirst(segs: seq<SealedSegment>, files: Files)
    requires segs != []
    ensures At(files, segs[0].stem) <= ListItems(segs, files)
    decreases |segs|
  {
    var front := segs[..|segs| - 1];
    if front == [] {
      assert ListItems(front, files) == [];
    } else {
      ListedFirst(front, files);
      assert front[0] == segs[0];
    }
  }

  /** Bytes of the sealed files with these stems. */
  ghost function FileBytes(files: Files, stems: set<nat>, size: seq<Item> -> nat, hi: nat): nat {
    if hi == 0 then 0
    else
      var s := hi - 1;
      FileBytes(files, stems, size, s) + if s in stems && s in files then size(files[s]) else 0
  }

  /** Bytes of the open files. */
  ghost function OpenBytes(open: map<nat, seq<byte>>, hi: nat): nat {
    if hi == 0 then 0 else OpenBytes(open, hi - 1) + if hi - 1 in open then |open[hi - 1]| else 0
  }

  /** Bytes on disk: every listed segment file, and every open one. */
  ghost function DiskBytes(b: Buffer): nat
    reads b
  {
    FileBytes(b.files, Stems(b.sealed), b.size, b.clock) + OpenBytes(b.open, b.clock)
  }

  /** A listed file adds exactly its size. */
  lemma {:induction false} FileCounts(files: Files, stems: set<nat>, size: seq<Item> -> nat, hi: nat, s: nat)
    requires s in files && s !in stems
    ensures FileBytes(files, stems + {s}, size, hi)
         == FileBytes(files, stems, size, hi) + if s < hi then size(files[s]) else 0
  {
    if hi > 0 {
      FileCounts(files, stems, size, hi - 1, s);
    }
  }

  lemma {:induction false} NoFiles(files: Files, size: seq<Item> -> nat, hi: nat)
    ensures FileBytes(files, {}, size, hi) == 0
  {
    if hi > 0 {
      NoFiles(files, size, hi - 1);
    }
  }

  /** The cached sizes add up to the bytes of the listed files. */
  lemma {:induction false} SizesAddUp(segs: seq<SealedSegment>, files: Files, size: seq<Item> -> nat, hi: nat)
    requires Sorted(segs) && Accurate(segs, files, size) && forall i :: 0 <= i < |segs| ==> segs[i].stem < hi
    ensures TotalBytes(segs) == FileBytes(files, Stems(segs), size, hi)
    decreases |segs|
  {
    if segs == [] {
      assert Stems(segs) == {};
      NoFiles(files, size, hi);
    } else {
      var front, last := segs[..|segs| - 1], segs[|segs| - 1];
      SizesAddUp(front, files, size, hi);
      StemsSnoc(segs);
      FileCounts(files, Stems(front), size, hi, last.stem);
    }
  }

  lemma {:induction false} StemsSnoc(segs: seq<SealedSegment>)
    requires Sorted(segs) && segs != []
    ensures var front, last := segs[..|segs| - 1], segs[|segs| - 1];
            last.stem !in Stems(front) && Stems(segs) == Stems(front) + {last.stem}
  {
    var front, last := segs[..|segs| - 1], segs[|segs| - 1];
    forall s | s in Stems(segs) ensures s in Stems(front) + {last.stem} {
      var i :| 0 <= i < |segs| && segs[i].stem == s;
      assert i < |front| ==> front[i].stem == s;
    }
    forall s | s in Stems(front) ensures s in Stems(segs) && s != last.stem {
      var i :| 0 <= i < |front| && front[i].stem == s;
      assert segs[i].stem == s;
    }
  }

  /** The open segment is the only open file. */
  lemma {:induction false} OpenAddsUp(open: map<nat, seq<byte>>, stem: nat, bytes: seq<byte>, hi: nat)
    requires open == map[stem := bytes]
    ensures OpenBytes(open, hi) == if stem < hi then |bytes| else 0
  {
    if hi > 0 {
      OpenAddsUp(open, stem, bytes, hi - 1);
    }
  }

  lemma {:induction false} NoneOpen(hi: nat)
    ensures OpenBytes(map[], hi) == 0
  {
    if hi > 0 {
      NoneOpen(hi - 1);
    }
  }

  /** What the code adds up is what is on disk. */
  lemma {:induction false} CountedOnDisk(c: Codec, size: seq<Item> -> nat, files: Files, open: map<nat, seq<byte>>,
                                         clock: nat, active: Option<Writer>, sealed: seq<SealedSegment>)
    requires Indexes(sealed, files, size, clock) && ActiveOk(active, files, open, c, clock)
    ensures TotalBytes(sealed) + (if active.Some? then active.value.rawBytes else 0)
         == FileBytes(files, Stems(sealed), size, clock) + OpenBytes(open, clock)
  {
    SizesAddUp(sealed, files, size, clock);
    if active.Some? {
      OpenAddsUp(open, active.value.stem, Render(c, active.value.items), clock);
    } else {
      NoneOpen(clock);
    }
  }

  /** Over the byte or the age budget at time `now`. */
  ghost predicate OverBudget(b: Buffer, now: int)
    reads b
  {
    || DiskBytes(b) > b.maxBytes
    || (var it := AgeItem(b.sealed, b.files, b.active); it.Some? && now - it.value.ts > b.maxAge)
  }

  // ----- The same for a layout

  ghost predicate IsFirst(stems: set<nat>, s: nat) {
    s in stems && forall t :: t in stems ==> s <= t
  }

  ghost function AgeIn(l: Layout): Option<Item> {
    if exists s :: IsFirst(l.stems, s) && At(l.files, s) != [] then
      var s :| IsFirst(l.stems, s) && At(l.files, s) != [];
      Some(At(l.files, s)[0])
    else if l.open != [] then Some(l.open[0])
    else None
  }

  lemma {:induction false} AgeInLayout(sealed: seq<SealedSegment>, files: Files, active: Option<Writer>)
    requires Sorted(sealed)
    ensures AgeIn(Layout(files, Stems(sealed), ActiveItems(active))) == AgeItem(sealed, files, active)
  {
    var stems := Stems(sealed);
    forall s ensures IsFirst(stems, s) <==> sealed != [] && s == sealed[0].stem {
      if sealed != [] {
        assert sealed[0].stem in stems;
        forall t | t in stems ensures sealed[0].stem <= t {
          var i :| 0 <= i < |sealed| && sealed[i].stem == t;
        }
      }
    }
    assert sealed != [] ==> IsFirst(stems, sealed[0].stem);
  }

  /** A buffer with this layout is over its budget. */
  ghost predicate OverIn(b: Buffer, l: Layout, now: int)
    reads b`clock
  {
    || FileBytes(l.files, l.stems, b.size, b.clock) + |Render(b.codec, l.open)| > b.maxBytes
    || (var it := AgeIn(l); it.Some? && now - it.value.ts > b.maxAge)
  }

  lemma {:induction false} OverInLayout(b: Buffer, now: int)
    requires b.Valid()
    ensures OverIn(b, b.Lay(), now) <==> OverBudget(b, now)
  {
    AgeInLayout(b.sealed, b.files, b.active);
    if b.active.Some? {
      OpenAddsUp(b.open, b.active.value.stem, Render(b.codec, b.active.value.items), b.clock);
    } else {
      NoneOpen(b.clock);
    }
  }

  /** The oldest buffered item is within the age budget, or hidden from it. */
  ghost predicate YoungUnlessHidden(b: Buffer, now: int)
    reads b
  {
    b.Items() == [] || Hides(b.sealed, b.files) || now - b.Items()[0].ts <= b.maxAge
  }

  method IsOverBudget(b: Buffer, now: int) returns (over: bool)
    requires b.Valid()
    ensures over == OverBudget(b, now)
    ensures over || (DiskBytes(b) <= b.maxBytes && YoungUnlessHidden(b, now))
  {
    var totalBytes := 0;
    for i := 0 to |b.sealed|
      invariant totalBytes == TotalBytes(b.sealed[..i])
    {
      totalBytes := totalBytes + b.sealed[i].byteSize;
      assert b.sealed[..i + 1][..i] == b.sealed[..i];
    }
    assert b.sealed[..|b.sealed|] == b.sealed;
    if b.active.Some? {
      totalBytes := totalBytes + b.active.value.rawBytes;
    }
    CountedOnDisk(b.codec, b.size, b.files, b.open, b.clock, b.active, b.sealed);
    if totalBytes > b.maxBytes {
      return true;
    }
    var oldest := OldestItem(b);
    return oldest.Some? && now - oldest.value.ts > b.maxAge;
  }

  method OldestItem(b: Buffer) returns (oldest: Option<Item>)
    requires b.Valid()
    ensures oldest == AgeItem(b.sealed, b.files, b.active)
    ensures oldest == (if b.Items() == [] then None else Some(b.Items()[0])) <==> !Hides(b.sealed, b.files)
  {
    AgeItemIff(b.sealed, b.files, b.active, b.size, b.clock, b.nextSeq);
    if |b.sealed| > 0 {
      var items := b.files[b.sealed[0].stem];
      if |items| > 0 {
        return Some(items[0]);
      }
    }
    if b.active.Some? && |b.active.value.items| > 0 {
      return Some(b.active.value.items[0]);
    }
    return None;
  }

  function First(items: seq<Item>, p: Priority): Option<Item> {
    if ByPriority(items, p) == [] then None else Some(ByPriority(items, p)[0])
  }

  /** Continues the search for the lowest number of class `p` through `more`. */
  method Consider(best0: Option<Item>, ghost seen: seq<Item>, more: seq<Item>, p: Priority, ghost next: nat)
      returns (best: Option<Item>)
    requires WellFormed(seen + more, next) && best0 == First(seen, p)
    ensures best == First(seen + more, p)
  {
    best := best0;
    assert seen + more[..0] == seen;
    for i := 0 to |more|
      invariant best == First(seen + more[..i], p)
    {
      ghost var before := seen + more[..i];
      assert seen + more[..i + 1] == before + [more[i]];
      ByPriorityConcat(before, [more[i]], p);
      if best.Some? {
        ByPriorityMember(before, p, best.value);
        ghost var k :| 0 <= k < |before| && before[k] == best.value;
        assert (seen + more)[k] == before[k] && (seen + more)[|seen| + i] == more[i];
      }
      if more[i].priority == p && (best.None? || more[i].seqNo < best.value.seqNo) {
        best := Some(more[i]);
      }
    }
    assert more[..|more|] == more;
  }

  /** The oldest buffered item of class `p`. */
  method OldestWithPriority(b: Buffer, p: Priority) returns (best: Option<Item>)
    requires b.Valid()
    ensures best == First(b.Items(), p)
  {
    IndexLists(b.sealed, b.files, b.size, b.clock);
    best := OldestSealed(b.sealed, b.files, p, ActiveItems(b.active), b.nextSeq);
    if b.active.Some? {
      best := Consider(best, ListItems(b.sealed, b.files), b.active.value.items, p, b.nextSeq);
    } else {
      assert b.Items() == ListItems(b.sealed, b.files);
    }
  }

  method OldestSealed(segs: seq<SealedSegment>, files: Files, p: Priority, ghost tail: seq<Item>, ghost next: nat)
      returns (best: Option<Item>)
    requires WellFormed(ListItems(segs, files) + tail, next) && forall i :: 0 <= i < |segs| ==> segs[i].stem in files
    ensures best == First(ListItems(segs, files), p)
  {
    best := None;
    ghost var seen: seq<Item> := [];
    for i := 0 to |segs|
      invariant seen == ListItems(segs[..i], files)
      invariant best == First(seen, p)
    {
      var items := files[segs[i].stem];
      ListStep(segs, i, files);
      ListPrefix(segs, i + 1, files, tail, next);
      best := Consider(best, seen, items, p, next);
      seen := seen + items;
    }
    assert segs[..|segs|] == segs;
  }

  lemma {:induction false} ListStep(segs: seq<SealedSegment>, i: nat, files: Files)
    requires i < |segs|
    ensures ListItems(segs[..i + 1], files) == ListItems(segs[..i], files) + At(files, segs[i].stem)
  {
    assert segs[..i + 1][..i] == segs[..i];
  }

  lemma {:induction false} ListPrefix(segs: seq<SealedSegment>, i: nat, files: Files, tail: seq<Item>, next: nat)
    requires i <= |segs| && WellFormed(ListItems(segs, files) + tail, next)
    ensures WellFormed(ListItems(segs[..i], files), next)
    decreases |segs|
  {
    ConcatWellFormed(ListItems(segs, files), tail, next);
    if i == |segs| {
      assert segs[..i] == segs;
    } else {
      var front := segs[..|segs| - 1];
      assert front[..i] == segs[..i];
      ListPrefix(front, i, files, At(files, segs[|segs| - 1].stem), next);
    }
  }

  method FindDiscardVictim(b: Buffer) returns (victim: Option<Item>)
    requires b.Valid()
    ensures victim == if DiscardOrder(b.Items()) == [] then None else Some(DiscardOrder(b.Items())[0])
  {
    victim := OldestWithPriority(b, LogLinePriority);
    if victim.None? {
      victim := OldestWithPriority(b, MetricPriority);
    }
  }

  /** The layout after the first `k` discards. */
  ghost function LaidOut(start: Layout, items: seq<Item>, k: nat): Layout
    requires k <= |DiscardOrder(items)|
  {
    Without(start, Seqs(DiscardOrder(items)[..k]))
  }

  lemma {:induction false} LaidOutStep(start: Layout, items: seq<Item>, k: nat)
    requires k < |DiscardOrder(items)|
    ensures LaidOut(start, items, k + 1) == Without(LaidOut(start, items, k), {DiscardOrder(items)[k].seqNo})
  {
    var order := DiscardOrder(items);
    SeqsSnoc(order, k);
    WithoutAgain(start, Seqs(order[..k]), {order[k].seqNo});
  }

  lemma {:induction false} LaidOutStart(start: Layout, items: seq<Item>, clock: nat, next: nat)
    requires (forall s :: s in start.files ==> s < clock)
    requires WellFormed(Collect(start.files, 0, clock) + start.open, next)
    ensures LaidOut(start, items, 0) == start
  {
    var none := Seqs(DiscardOrder(items)[..0]);
    assert none == {};
    ConcatWellFormed(Collect(start.files, 0, clock), start.open, next);
    AbsentNowhere(start.files, clock, next, none);
    WithoutNowhere(start.files, start.stems, none);
    KeepEverything(start.open, 0, none);
  }

  /** Each of the first `n` discards was made over budget. */
  ghost predicate Needed(b: Buffer, start: Layout, items: seq<Item>, clock: nat -> int, n: nat)
    requires n <= |DiscardOrder(items)|
    reads b`clock
  {
    forall k: nat :: k < n ==> OverIn(b, LaidOut(start, items, k), clock(k))
  }

  lemma {:induction false} NeededStep(b: Buffer, start: Layout, items: seq<Item>, clock: nat -> int, n: nat)
    requires n < |DiscardOrder(items)| && Needed(b, start, items, clock, n)
    requires OverIn(b, LaidOut(start, items, n), clock(n))
    ensures Needed(b, start, items, clock, n + 1)
  {
  }

  /** Where enforcement stands after these discards. */
  ghost predicate Progress(b: Buffer, items: seq<Item>, start: Layout, clock: nat -> int,
                           discarded: seq<DiscardedItem>)
    reads b
  {
    && b.Valid() && WellFormed(items, b.nextSeq) && Enforced(items, discarded, b.Items())
    && b.Lay() == LaidOut(start, items, |discarded|)
    && Needed(b, start, items, clock, |discarded|)
  }

  /** Discards the next item in discard order, if there is one. */
  method DiscardOne(b: Buffer, ghost items: seq<Item>, ghost start: Layout, ghost clock: nat -> int,
                    discarded: seq<DiscardedItem>) returns (victim: Option<Item>, discarded': seq<DiscardedItem>)
    requires Progress(b, items, start, clock, discarded) && OverBudget(b, clock(|discarded|))
    modifies b`files, b`open, b`active, b`sealed, b`totalLen
    ensures Progress(b, items, start, clock, discarded')
    ensures victim.None? ==> discarded' == discarded && |discarded| == |DiscardOrder(items)|
    ensures victim.Some? ==> |discarded'| == |discarded| + 1
  {
    NextVictim(items, b.nextSeq, discarded, b.Items());
    victim := FindDiscardVictim(b);
    discarded' := discarded;
    if victim.Some? {
      var v := victim.value;
      OverInLayout(b, clock(|discarded|));
      NeededStep(b, start, items, clock, |discarded|);
      LaidOutStep(start, items, |discarded|);
      var _ := b.RemoveItem(v.seqNo);
      discarded' := discarded + [DiscardedItem(v.seqNo, v.priority, KindOf(v))];
    }
  }

  /** The first item in discard order is the next one of the original order. */
  lemma {:induction false} NextVictim(items: seq<Item>, next: nat, discarded: seq<DiscardedItem>, now: seq<Item>)
    requires WellFormed(items, next) && Enforced(items, discarded, now)
    ensures DiscardOrder(now) == [] <==> |discarded| == |DiscardOrder(items)|
    ensures DiscardOrder(now) != [] ==>
              var v := DiscardOrder(now)[0];
              && v == DiscardOrder(items)[|discarded|]
              && Enforced(items, discarded + [DiscardedItem(v.seqNo, v.priority, KindOf(v))], Keep(now, 0, {v.seqNo}))
  {
    var k, order := |discarded|, DiscardOrder(items);
    DiscardsInOrder(items, next, k);
    DiscardedOrder(items, k, now);
    if k < |order| {
      EnforcedStep(items, discarded, now, order[k]);
    }
  }

  lemma {:induction false} EnforcedStep(items: seq<Item>, discarded: seq<DiscardedItem>, now: seq<Item>, v: Item)
    requires Enforced(items, discarded, now) && |discarded| < |DiscardOrder(items)|
             && v == DiscardOrder(items)[|discarded|]
    ensures Enforced(items, discarded + [DiscardedItem(v.seqNo, v.priority, KindOf(v))], Keep(now, 0, {v.seqNo}))
  {
    AfterDiscardsStep(items, |discarded|);
    ReportStep(DiscardOrder(items), |discarded|);
  }

  lemma {:induction false} ReportStep(order: seq<Item>, k: nat)
    requires k < |order|
    ensures Report(order[..k + 1])
         == Report(order[..k]) + [DiscardedItem(order[k].seqNo, order[k].priority, KindOf(order[k]))]
  {
    assert order[..k + 1][..k] == order[..k];
  }

  /** Discards items in discard order until the buffer is within budget or
      only events are left, and not one more. `clock(i)` is the time of the
      i-th check. */
  method EnforceCapacity(b: Buffer, clock: nat -> int) returns (discarded: seq<DiscardedItem>)
    requires b.Valid()
    modifies b`files, b`open, b`active, b`sealed, b`totalLen
    ensures b.Valid()
    ensures Enforced(old(b.Items()), discarded, b.Items())
    ensures b.Lay() == LaidOut(old(b.Lay()), old(b.Items()), |discarded|)
    ensures Needed(b, old(b.Lay()), old(b.Items()), clock, |discarded|)
    ensures |discarded| < |DiscardOrder(old(b.Items()))| ==> !OverBudget(b, clock(|discarded|))
    ensures |discarded| < |DiscardOrder(old(b.Items()))| ==>
              DiskBytes(b) <= b.maxBytes && YoungUnlessHidden(b, clock(|discarded|))
    ensures !old(OverBudget(b, clock(0))) ==> discarded == []
  {
    ghost var items, start := b.Items(), b.Lay();
    discarded := [];
    StartsHere(b, clock);
    var over := IsOverBudget(b, clock(0));
    while over
      invariant Progress(b, items, start, clock, discarded)
      invariant over == OverBudget(b, clock(|discarded|))
      invariant over || (DiskBytes(b) <= b.maxBytes && YoungUnlessHidden(b, clock(|discarded|)))
      invariant !old(OverBudget(b, clock(0))) ==> discarded == [] && !over
      decreases |DiscardOrder(items)| - |discarded|
    {
      var victim;
      victim, discarded := DiscardOne(b, items, start, clock, discarded);
      if victim.None? {
        break;
      }
      over := IsOverBudget(b, clock(|discarded|));
    }
  }

  lemma {:induction false} StartsHere(b: Buffer, clock: nat -> int)
    requires b.Valid()
    ensures Progress(b, b.Items(), b.Lay(), clock, [])
  {
    KeepEverything(b.Items(), 0, Seqs(DiscardOrder(b.Items())[..0]));
    LaidOutStart(b.Lay(), b.Items(), b.clock, b.nextSeq);
  }

  /** What enforcement means for the three classes: a prefix of the log lines
      goes first, then a prefix of the metrics; every event stays, in order;
      and the report lists what was removed and no event. */
  lemma {:induction false} EnforcedMeaning(before: seq<Item>, next: nat, discarded: seq<DiscardedItem>,
                                           after: seq<Item>)
    requires WellFormed(before, next) && Enforced(before, discarded, after)
    ensures Discarded(before, |discarded|, after)
    ensures forall it :: it in before && it !in after ==>
              it.priority != EventPriority && DiscardedItem(it.seqNo, it.priority, KindOf(it)) in discarded
    ensures forall i :: 0 <= i < |discarded| ==>
              discarded[i].priority != EventPriority && discarded[i].seqNo !in Seqs(after)
  {
    var k := |discarded|;
    var order := DiscardOrder(before);
    DiscardsInOrder(before, next, k);
    ReportAt(order[..k]);
    forall i | 0 <= i < k ensures discarded[i].priority != EventPriority && discarded[i].seqNo !in Seqs(after) {
      OrderMember(before, i);
      assert order[..k][i].seqNo in Seqs(order[..k]);
      if discarded[i].seqNo in Seqs(after) {
        var j :| 0 <= j < |after| && after[j].seqNo == discarded[i].seqNo;
        KeepMember(before, 0, Seqs(order[..k]), after[j]);
      }
    }
    forall it | it in before && it !in after
      ensures it.priority != EventPriority && DiscardedItem(it.seqNo, it.priority, KindOf(it)) in discarded
    {
      KeepMember(before, 0, Seqs(order[..k]), it);
      var i :| 0 <= i < |order[..k]| && order[..k][i].seqNo == it.seqNo;
      OrderMember(before, i);
      var j :| 0 <= j < |before| && before[j] == order[i];
      var j' :| 0 <= j' < |before| && before[j'] == it;
      assert j == j';
      assert discarded[i] == DiscardedItem(it.seqNo, it.priority, KindOf(it));
    }
  }

  lemma {:induction false} ReportAt(items: seq<Item>)
    ensures forall i :: 0 <= i < |items| ==>
              Report(items)[i] == DiscardedItem(items[i].seqNo, items[i].priority, KindOf(items[i]))
    decreases |items|
  {
    if items != [] {
      ReportAt(items[..|items| - 1]);
    }
  }

  lemma {:induction false} OrderMember(items: seq<Item>, i: nat)
    requires i < |DiscardOrder(items)|
    ensures DiscardOrder(items)[i] in items && DiscardOrder(items)[i].priority != EventPriority
  {
    var logs, metrics := ByPriority(items, LogLinePriority), ByPriority(items, MetricPriority);
    if i < |logs| {
      ByPriorityMember(items, LogLinePriority, logs[i]);
    } else {
      ByPriorityMember(items, MetricPriority, metrics[i - |logs|]);
    }
  }
}
