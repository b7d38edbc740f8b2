/** How the in-memory list of sealed segments describes the directory, and
    how each operation keeps that description true. */
module WalIndex {
  import opened FlatLog
  import opened WalDisk

  /** Cached facts about one sealed segment. */
  datatype SealedSegment = SealedSegment(stem: nat, minSeq: nat, maxSeq: nat, count: nat, byteSize: nat)

  /** The metadata that sealing or inspecting a segment computes; an empty
      segment gets 0 for both bounds. */
  function Describe(stem: nat, items: seq<Item>, size: seq<Item> -> nat): SealedSegment {
    SealedSegment(stem, if items == [] then 0 else items[0].seqNo, LastSeq(items), |items|, size(items))
  }

  function Stems(segs: seq<SealedSegment>): set<nat> {
    set i | 0 <= i < |segs| :: segs[i].stem
  }

  ghost predicate Sorted(segs: seq<SealedSegment>) {
    forall i, j :: 0 <= i < j < |segs| ==> segs[i].stem < segs[j].stem
  }

  ghost predicate Accurate(segs: seq<SealedSegment>, files: Files, size: seq<Item> -> nat) {
    forall i :: 0 <= i < |segs| ==>
      segs[i].stem in files && segs[i] == Describe(segs[i].stem, files[segs[i].stem], size)
  }

  /** The list is sorted, its metadata is right, and every segment file it
      leaves out is empty. */
  ghost predicate Indexes(segs: seq<SealedSegment>, files: Files, size: seq<Item> -> nat, clock: nat) {
    && Sorted(segs)
    && Accurate(segs, files, size)
    && (forall s :: s in files ==> s < clock)
    && (forall s :: s in files && files[s] != [] ==> s in Stems(segs))
  }

  /** The items an index lists, in list order. */
  function ListItems(segs: seq<SealedSegment>, files: Files): seq<Item> {
    if segs == [] then [] else ListItems(segs[..|segs| - 1], files) + At(files, segs[|segs| - 1].stem)
  }

  lemma {:induction false} StemsMember(segs: seq<SealedSegment>, i: nat)
    requires i < |segs|
    ensures segs[i].stem in Stems(segs)
  {
  }

  /** An index lists exactly what the directory holds. */
  lemma {:induction false} ListIsCollect(segs: seq<SealedSegment>, files: Files, hi: nat)
    requires Sorted(segs)
    requires forall i :: 0 <= i < |segs| ==> segs[i].stem < hi
    requires forall s: nat :: s < hi && At(files, s) != [] ==> s in Stems(segs)
    ensures ListItems(segs, files) == Collect(files, 0, hi)
    decreases |segs|
  {
    if segs == [] {
      CollectEmpty(files, 0, hi);
    } else {
      var front, last := segs[..|segs| - 1], segs[|segs| - 1].stem;
      forall s: nat | s < last && At(files, s) != [] ensures s in Stems(front) {
        var i :| 0 <= i < |segs| && segs[i].stem == s;
        assert front[i].stem == s;
      }
      ListIsCollect(front, files, last);
      CollectAround(files, last, hi);
      forall s: nat | last + 1 <= s < hi ensures At(files, s) == [] {
        if At(files, s) != [] {
          var i :| 0 <= i < |segs| && segs[i].stem == s;
          assert false;
        }
      }
      CollectEmpty(files, last + 1, hi);
    }
  }

  lemma {:induction false} IndexLists(segs: seq<SealedSegment>, files: Files, size: seq<Item> -> nat, clock: nat)
    requires Indexes(segs, files, size, clock)
    ensures ListItems(segs, files) == Collect(files, 0, clock)
  {
    forall s: nat | s < clock && At(files, s) != [] ensures s in Stems(segs) {
      assert s in files;
    }
    ListIsCollect(segs, files, clock);
  }

  /** Listing a newly written newest segment. */
  lemma {:induction false} IndexNewest(segs: seq<SealedSegment>, files: Files, size: seq<Item> -> nat,
                                       clock: nat, stem: nat, items: seq<Item>)
    requires Indexes(segs, files, size, clock) && stem < clock && forall s :: s in files ==> s < stem
    ensures Indexes(segs + [Describe(stem, items, size)], files[stem := items], size, clock)
    ensures Collect(files[stem := items], 0, clock) == Collect(files, 0, clock) + items
  {
    CollectAppend(files, stem, items, clock);
    var segs' := segs + [Describe(stem, items, size)];
    var files' := files[stem := items];
    assert segs'[|segs|].stem == stem;
    forall s | s in files' && files'[s] != [] ensures s in Stems(segs') {
      if s != stem {
        var i :| 0 <= i < |segs| && segs[i].stem == s;
        assert segs'[i].stem == s;
      }
    }
  }

  /** Recovery leaves an empty newest segment out of the list. */
  lemma {:induction false} IndexSkipsEmpty(segs: seq<SealedSegment>, files: Files, size: seq<Item> -> nat,
                                           clock: nat, stem: nat)
    requires Indexes(segs, files, size, clock) && stem < clock && forall s :: s in files ==> s < stem
    ensures Indexes(segs, files[stem := []], size, clock)
    ensures Collect(files[stem := []], 0, clock) == Collect(files, 0, clock)
  {
    CollectAppend(files, stem, [], clock);
  }

  /** Changing one segment changes the total length by the difference. */
  lemma {:induction false} CollectLength(f: Files, g: Files, stem: nat, hi: nat)
    requires stem < hi && forall s: nat :: s != stem ==> At(f, s) == At(g, s)
    ensures |Collect(g, 0, hi)| == |Collect(f, 0, hi)| - |At(f, stem)| + |At(g, stem)|
  {
    CollectAround(f, stem, hi);
    CollectAround(g, stem, hi);
    CollectEqual(f, g, 0, stem);
    CollectEqual(f, g, stem + 1, hi);
  }

  // ----- Acknowledging

  /** After `i` segments of the acknowledgement loop those are filtered and
      the others untouched. */
  ghost predicate AckFiles(segs: seq<SealedSegment>, f0: Files, f: Files, i: nat, upTo: nat) {
    && i <= |segs|
    && (forall k :: 0 <= k < i ==> At(f, segs[k].stem) == Keep(At(f0, segs[k].stem), upTo, {}))
    && (forall k :: i <= k < |segs| ==> segs[k].stem in f && segs[k].stem in f0 && f[segs[k].stem] == f0[segs[k].stem])
    && (forall s :: s in f ==> s in f0 && (s in Stems(segs) || f[s] == []))
  }

  /** `kept` lists what is left of the first `i` segments. */
  ghost predicate AckKept(segs: seq<SealedSegment>, f: Files, kept: seq<SealedSegment>, i: nat, size: seq<Item> -> nat)
  {
    && i <= |segs|
    && Sorted(kept)
    && Accurate(kept, f, size)
    && (forall k :: 0 <= k < |kept| ==> kept[k].stem in Stems(segs[..i]))
    && (forall k :: 0 <= k < i && segs[k].stem in f ==> segs[k].stem in Stems(kept))
  }

  ghost predicate AckProgress(segs: seq<SealedSegment>, f0: Files, f: Files, kept: seq<SealedSegment>,
                              i: nat, upTo: nat, size: seq<Item> -> nat)
  {
    AckFiles(segs, f0, f, i, upTo) && AckKept(segs, f, kept, i, size)
  }

  lemma {:induction false} AckStart(segs: seq<SealedSegment>, f: Files, upTo: nat, size: seq<Item> -> nat, clock: nat)
    requires Indexes(segs, f, size, clock)
    ensures AckProgress(segs, f, f, [], 0, upTo, size)
  {
  }

  lemma {:induction false} EarlierStems(segs: seq<SealedSegment>, i: nat, s: nat)
    requires Sorted(segs) && i < |segs| && s in Stems(segs[..i])
    ensures s < segs[i].stem && s in Stems(segs[..i + 1])
  {
    var j :| 0 <= j < |segs[..i]| && segs[..i][j].stem == s;
    assert segs[..i + 1][j].stem == s;
  }

  /** The loop drops the next segment: nothing of it is kept. */
  lemma {:induction false} AckDrop(segs: seq<SealedSegment>, f0: Files, f: Files, kept: seq<SealedSegment>,
                                   i: nat, upTo: nat, size: seq<Item> -> nat)
    requires AckProgress(segs, f0, f, kept, i, upTo, size) && Sorted(segs) && i < |segs|
    requires Keep(f0[segs[i].stem], upTo, {}) == []
    ensures AckProgress(segs, f0, f - {segs[i].stem}, kept, i + 1, upTo, size)
  {
    DropKept(segs, f, kept, i, size);
    DropFiles(segs, f0, f, i, upTo);
  }

  lemma {:induction false} DropFiles(segs: seq<SealedSegment>, f0: Files, f: Files, i: nat, upTo: nat)
    requires AckFiles(segs, f0, f, i, upTo) && Sorted(segs) && i < |segs|
    requires Keep(f0[segs[i].stem], upTo, {}) == []
    ensures AckFiles(segs, f0, f - {segs[i].stem}, i + 1, upTo)
  {
  }

  lemma {:induction false} DropKept(segs: seq<SealedSegment>, f: Files, kept: seq<SealedSegment>, i: nat,
                                    size: seq<Item> -> nat)
    requires AckKept(segs, f, kept, i, size) && Sorted(segs) && i < |segs|
    ensures AckKept(segs, f - {segs[i].stem}, kept, i + 1, size)
  {
    forall k | 0 <= k < |kept| ensures kept[k].stem < segs[i].stem && kept[k].stem in Stems(segs[..i + 1]) {
      EarlierStems(segs, i, kept[k].stem);
    }
  }

  /** The loop keeps the next segment with the filtered contents. */
  lemma {:induction false} AckRetain(segs: seq<SealedSegment>, f0: Files, f: Files, kept: seq<SealedSegment>,
                                     i: nat, upTo: nat, size: seq<Item> -> nat, items: seq<Item>)
    requires AckProgress(segs, f0, f, kept, i, upTo, size) && Sorted(segs) && i < |segs|
    requires items == Keep(f0[segs[i].stem], upTo, {})
    ensures var kept' := kept + [Describe(segs[i].stem, items, size)];
            AckProgress(segs, f0, f[segs[i].stem := items], kept', i + 1, upTo, size)
  {
    RetainKept(segs, f, kept, i, size, items);
    RetainFiles(segs, f0, f, i, upTo, items);
  }

  lemma {:induction false} RetainFiles(segs: seq<SealedSegment>, f0: Files, f: Files, i: nat, upTo: nat,
                                       items: seq<Item>)
    requires AckFiles(segs, f0, f, i, upTo) && Sorted(segs) && i < |segs|
    requires items == Keep(f0[segs[i].stem], upTo, {})
    ensures AckFiles(segs, f0, f[segs[i].stem := items], i + 1, upTo)
  {
    StemsMember(segs, i);
  }

  lemma {:induction false} RetainKept(segs: seq<SealedSegment>, f: Files, kept: seq<SealedSegment>,
                                      i: nat, size: seq<Item> -> nat, items: seq<Item>)
    requires AckKept(segs, f, kept, i, size) && Sorted(segs) && i < |segs|
    ensures AckKept(segs, f[segs[i].stem := items], kept + [Describe(segs[i].stem, items, size)], i + 1, size)
  {
    var stem := segs[i].stem;
    var kept' := kept + [Describe(stem, items, size)];
    forall k | 0 <= k < |kept| ensures kept[k].stem < stem && kept[k].stem in Stems(segs[..i + 1]) {
      EarlierStems(segs, i, kept[k].stem);
    }
    assert segs[..i + 1][i].stem == stem;
    forall k | 0 <= k < i + 1 && segs[k].stem in f[stem := items] ensures segs[k].stem in Stems(kept') {
      if k < i {
        var j :| 0 <= j < |kept| && kept[j].stem == segs[k].stem;
        assert kept'[j].stem == segs[k].stem;
      } else {
        assert kept'[|kept|].stem == stem;
      }
    }
  }

  /** Files and list after the loop has dealt with one more segment. */
  function AckedFiles(f: Files, stem: nat, remaining: seq<Item>): Files {
    if remaining == [] then f - {stem} else f[stem := remaining]
  }

  function AckedList(kept: seq<SealedSegment>, stem: nat, remaining: seq<Item>,
                     size: seq<Item> -> nat): seq<SealedSegment>
  {
    if remaining == [] then kept else kept + [Describe(stem, remaining, size)]
  }

  lemma {:induction false} AckStep(segs: seq<SealedSegment>, f0: Files, f: Files, kept: seq<SealedSegment>,
                                   i: nat, upTo: nat, size: seq<Item> -> nat, clock: nat, remaining: seq<Item>)
    requires AckProgress(segs, f0, f, kept, i, upTo, size) && Indexes(segs, f0, size, clock) && i < |segs|
    requires remaining == Keep(f0[segs[i].stem], upTo, {})
    ensures AckProgress(segs, f0, AckedFiles(f, segs[i].stem, remaining),
                        AckedList(kept, segs[i].stem, remaining, size),
                        i + 1, upTo, size)
    ensures |Collect(AckedFiles(f, segs[i].stem, remaining), 0, clock)|
         == |Collect(f, 0, clock)| - |f[segs[i].stem]| + |remaining|
  {
    CollectLength(f, AckedFiles(f, segs[i].stem, remaining), segs[i].stem, clock);
    if remaining == [] {
      AckDrop(segs, f0, f, kept, i, upTo, size);
    } else {
      AckRetain(segs, f0, f, kept, i, upTo, size, remaining);
    }
  }

  /** When the loop is done the index is right again and the log is filtered. */
  lemma {:induction false} AckFinish(segs: seq<SealedSegment>, f0: Files, f: Files, kept: seq<SealedSegment>,
                                     upTo: nat, size: seq<Item> -> nat, clock: nat)
    requires AckProgress(segs, f0, f, kept, |segs|, upTo, size) && Indexes(segs, f0, size, clock)
    ensures Indexes(kept, f, size, clock)
    ensures Collect(f, 0, clock) == Keep(Collect(f0, 0, clock), upTo, {})
  {
    forall s: nat | 0 <= s < clock ensures At(f, s) == Keep(At(f0, s), upTo, {}) {
      if s in Stems(segs) {
        var k :| 0 <= k < |segs| && segs[k].stem == s;
      }
    }
    CollectKeep(f0, f, 0, clock, upTo, {});
    forall s | s in f && f[s] != [] ensures s in Stems(kept) {
      var k :| 0 <= k < |segs| && segs[k].stem == s;
    }
  }

  // ----- Removing one item

  lemma {:induction false} IndexReplace(segs: seq<SealedSegment>, f: Files, size: seq<Item> -> nat, clock: nat,
                                        i: nat, items: seq<Item>)
    requires Indexes(segs, f, size, clock) && i < |segs|
    ensures Indexes(segs[i := Describe(segs[i].stem, items, size)], f[segs[i].stem := items], size, clock)
  {
    var segs' := segs[i := Describe(segs[i].stem, items, size)];
    forall s | s in Stems(segs) ensures s in Stems(segs') {
      var k :| 0 <= k < |segs| && segs[k].stem == s;
      assert segs'[k].stem == s;
    }
    StemsMember(segs, i);
  }

  lemma {:induction false} IndexDelete(segs: seq<SealedSegment>, f: Files, size: seq<Item> -> nat, clock: nat, i: nat)
    requires Indexes(segs, f, size, clock) && i < |segs|
    ensures Indexes(segs[..i] + segs[i + 1..], f - {segs[i].stem}, size, clock)
  {
    var segs' := segs[..i] + segs[i + 1..];
    forall k | 0 <= k < |segs'| ensures segs'[k] == segs[if k < i then k else k + 1] {
    }
    assert Sorted(segs') && Accurate(segs', f - {segs[i].stem}, size);
    forall s | s in f - {segs[i].stem} && f[s] != [] ensures s in Stems(segs') {
      var k :| 0 <= k < |segs| && segs[k].stem == s;
      assert segs'[if k < i then k else k - 1].stem == s;
    }
  }

  /** If only segment `stem` holds number `x`, filtering that segment alone
      filters the whole log. */
  lemma {:induction false} CollectWithout(f: Files, g: Files, stem: nat, hi: nat, next: nat, x: nat)
    requires stem < hi && WellFormed(Collect(f, 0, hi), next)
    requires forall s: nat :: s != stem ==> At(f, s) == At(g, s)
    requires At(g, stem) == Keep(At(f, stem), 0, {x})
    requires x in Seqs(At(f, stem))
    ensures Collect(g, 0, hi) == Keep(Collect(f, 0, hi), 0, {x})
    ensures |At(g, stem)| == |At(f, stem)| - 1
  {
    CollectAround(f, stem, hi);
    CollectAround(g, stem, hi);
    CollectEqual(f, g, 0, stem);
    CollectEqual(f, g, stem + 1, hi);
    var pre, mid, post := Collect(f, 0, stem), At(f, stem), Collect(f, stem + 1, hi);
    OthersKept(pre, mid, post, next, x);
  }

  lemma {:induction false} OthersKept(pre: seq<Item>, mid: seq<Item>, post: seq<Item>, next: nat, x: nat)
    requires WellFormed(pre + mid + post, next) && x in Seqs(mid)
    ensures Keep(pre + mid + post, 0, {x}) == pre + Keep(mid, 0, {x}) + post
    ensures |Keep(mid, 0, {x})| == |mid| - 1
  {
    var all := pre + mid + post;
    var k :| 0 <= k < |mid| && mid[k].seqNo == x;
    assert all[|pre| + k] == mid[k];
    SliceWellFormed(pre, mid, post, next);
    KeepAllButOne(mid, k);
    assert forall i :: 0 <= i < |pre| ==> pre[i] == all[i];
    assert forall i :: 0 <= i < |post| ==> post[i] == all[|pre| + |mid| + i];
    KeepEverything(pre, 0, {x});
    KeepEverything(post, 0, {x});
    KeepConcat(pre + mid, post, 0, {x});
    KeepConcat(pre, mid, 0, {x});
  }
}
