/** The loops of the buffer that work on lists of items and segments. */
module WalSegments {
  import opened Common
  import opened FlatLog
  import opened WalDisk
  import opened WalIndex
  import opened WalRecovery
  import opened WalLayout

  /** The lines of `items`, as one write puts them into an open segment. */
  method RenderAll(c: Codec, items: seq<Item>) returns (buf: seq<byte>)
    ensures buf == Render(c, items)
  {
    buf := [];
    for i := 0 to |items|
      invariant buf == Render(c, items[..i])
    {
      assert items[..i + 1] == items[..i] + [items[i]];
      RenderSnoc(c, items[..i], items[i]);
      buf := buf + Line(c, items[i]);
    }
    assert items[..|items|] == items;
  }

  /** The items numbered above `upTo`, and how many are not. */
  method SplitAcked(items: seq<Item>, upTo: nat) returns (remaining: seq<Item>, removed: nat)
    ensures remaining == Keep(items, upTo, {})
    ensures removed == |items| - |remaining|
  {
    remaining, removed := [], 0;
    for i := 0 to |items|
      invariant remaining == Keep(items[..i], upTo, {})
      invariant removed == i - |remaining|
    {
      assert items[..i + 1] == items[..i] + [items[i]];
      KeepConcat(items[..i], [items[i]], upTo, {});
      if items[i].seqNo <= upTo {
        removed := removed + 1;
      } else {
        remaining := remaining + [items[i]];
      }
    }
    assert items[..|items|] == items;
  }

  /** The items whose number is not `s`. */
  method Except(items: seq<Item>, s: nat) returns (filtered: seq<Item>, found: bool)
    requires forall i :: 0 <= i < |items| ==> items[i].seqNo >= 1
    ensures filtered == Keep(items, 0, {s})
    ensures found <==> s in Seqs(items)
  {
    filtered, found := [], false;
    for i := 0 to |items|
      invariant filtered == Keep(items[..i], 0, {s})
      invariant found <==> exists k :: 0 <= k < i && items[k].seqNo == s
    {
      assert items[..i + 1] == items[..i] + [items[i]];
      KeepConcat(items[..i], [items[i]], 0, {s});
      if items[i].seqNo == s {
        found := true;
      } else {
        filtered := filtered + [items[i]];
      }
    }
    assert items[..|items|] == items;
  }

  /** The records of an open segment, up to the first undecodable line. */
  method ReadRecords(c: Codec, bytes: seq<byte>) returns (items: seq<Item>)
    ensures items == Parse(c, bytes)
  {
    items := [];
    var rest := bytes;
    while rest != []
      invariant Parse(c, bytes) == items + Parse(c, rest)
      decreases |rest|
    {
      var line := rest[..LineEnd(rest)];
      var next := AfterLine(rest);
      ReadLine(c, rest);
      if line != [] {
        var record := c.dec(line);
        if record.None? {
          return;
        }
        Regroup(items, [record.value], Parse(c, next));
        items := items + [record.value];
      }
      rest := next;
    }
  }

  /** The line that a text begins with decides how it is read. */
  lemma {:induction false} ReadLine(c: Codec, text: seq<byte>)
    requires text != []
    ensures var line := text[..LineEnd(text)];
            Parse(c, text) == if line == [] then Parse(c, AfterLine(text))
                              else match c.dec(line)
                                   case None => []
                                   case Some(it) => [it] + Parse(c, AfterLine(text))
  {
  }

  /** Lists the sealed segments in name order. */
  method InspectSealed(files: Files, size: seq<Item> -> nat, clock: nat)
      returns (segs: seq<SealedSegment>, total: nat, next: nat)
    requires forall s :: s in files ==> s < clock
    ensures Indexes(segs, files, size, clock) && files.Keys <= Stems(segs)
    ensures total == |Collect(files, 0, clock)|
    ensures next == MaxLast(files, clock)
  {
    segs, total, next := [], 0, 0;
    for s := 0 to clock
      invariant Inspected(segs, files, size, s)
      invariant total == |Collect(files, 0, s)|
      invariant next == MaxLast(files, s)
    {
      InspectStep(segs, files, size, s);
      if s in files {
        var seg := Describe(s, files[s], size);
        segs := segs + [seg];
        total := total + seg.count;
        if seg.maxSeq > next {
          next := seg.maxSeq;
        }
      }
    }
  }

  /** `segs` lists, after `listed`, the segments of `g` below `s` that hold
      something. */
  ghost predicate ListsMore(listed: seq<SealedSegment>, segs: seq<SealedSegment>, g: Files, s: nat) {
    && listed <= segs
    && forall t :: t in g && t < s && g[t] != [] ==> exists k :: |listed| <= k < |segs| && segs[k].stem == t
  }

  lemma {:induction false} ListsMoreStep(listed: seq<SealedSegment>, segs: seq<SealedSegment>, g: Files, s: nat,
                                         size: seq<Item> -> nat)
    requires ListsMore(listed, segs, g, s)
    ensures ListsMore(listed, if s in g then Listing(segs, s, g[s], size) else segs, g, s + 1)
  {
    if s in g && g[s] != [] {
      var segs' := Listing(segs, s, g[s], size);
      assert segs'[|segs|].stem == s;
      forall t | t in g && t < s && g[t] != [] ensures exists k :: |listed| <= k < |segs'| && segs'[k].stem == t {
        var k :| |listed| <= k < |segs| && segs[k].stem == t;
        assert segs'[k].stem == t;
      }
    }
  }

  /** Lists a newly sealed segment unless it is empty. */
  method ListSealed(segs: seq<SealedSegment>, s: nat, items: seq<Item>, size: seq<Item> -> nat)
      returns (segs': seq<SealedSegment>)
    ensures segs' == Listing(segs, s, items, size)
  {
    var seg := Describe(s, items, size);
    segs' := if seg.count != 0 then segs + [seg] else segs;
  }

  /** The segment is listed more than once. */
  ghost predicate Twice(segs: seq<SealedSegment>, stem: nat) {
    exists i, j :: 0 <= i < j < |segs| && segs[i].stem == segs[j].stem == stem
  }

  lemma {:induction false} ListedAgain(listed: seq<SealedSegment>, segs: seq<SealedSegment>, f: Files, g: Files,
                                       size: seq<Item> -> nat, clock: nat, stem: nat)
    requires Indexes(listed, f, size, clock) && ListsMore(listed, segs, g, clock)
    requires stem in f && f[stem] != [] && stem in g && g[stem] != [] && stem < clock
    ensures Twice(segs, stem)
  {
    var i :| 0 <= i < |listed| && listed[i].stem == stem;
    assert segs[i] == listed[i];
    var j :| |listed| <= j < |segs| && segs[j].stem == stem;
  }

  lemma {:induction false} StemsOfPrefix(listed: seq<SealedSegment>, segs: seq<SealedSegment>)
    requires listed <= segs
    ensures Stems(listed) <= Stems(segs)
  {
    forall s | s in Stems(listed) ensures s in Stems(segs) {
      var i :| 0 <= i < |listed| && listed[i].stem == s;
      assert segs[i] == listed[i];
    }
  }

  /** Seals open segment `s`, if there is one. */
  method SealNext(codec: Codec, size: seq<Item> -> nat, clock: nat, ghost sealed: Files, open: map<nat, seq<byte>>,
                  ghost listed: seq<SealedSegment>, files: Files, segs: seq<SealedSegment>, s: nat)
      returns (files': Files, segs': seq<SealedSegment>, items: seq<Item>)
    requires SealProgress(sealed, Parsed(open, codec), files, segs, size, clock, s) && s < clock
    requires ListsMore(listed, segs, Parsed(open, codec), s)
    ensures SealProgress(sealed, Parsed(open, codec), files', segs', size, clock, s + 1)
    ensures ListsMore(listed, segs', Parsed(open, codec), s + 1)
    ensures items == At(Parsed(open, codec), s)
  {
    ghost var g := Parsed(open, codec);
    ListsMoreStep(listed, segs, g, s, size);
    if s in open {
      SealStep(sealed, g, files, segs, size, clock, s);
      items := ReadRecords(codec, open[s]);
      files' := files[s := items];
      segs' := ListSealed(segs, s, items, size);
    } else {
      SealSkip(sealed, g, files, segs, size, clock, s);
      files', segs', items := files, segs, [];
    }
  }

  /** Seals every open segment left behind, in name order. One without a
      complete record is written out but not listed. */
  method SealOrphans(codec: Codec, size: seq<Item> -> nat, clock: nat, sealed: Files, open: map<nat, seq<byte>>,
                     listed: seq<SealedSegment>)
      returns (files: Files, segs: seq<SealedSegment>, total: nat, next: nat)
    requires StemsBelow(sealed, open, clock) && Indexes(listed, sealed, size, clock)
    ensures files == Recovered(sealed, open, codec)
    ensures total == |Collect(Parsed(open, codec), 0, clock)|
    ensures next == MaxLast(Parsed(open, codec), clock)
    ensures Separated(sealed, Parsed(open, codec)) ==> Indexes(segs, files, size, clock)
    ensures Agree(sealed, Parsed(open, codec)) ==>
              ListItems(segs, files) == Collect(sealed, 0, clock) + Collect(Parsed(open, codec), 0, clock)
    ensures ListsMore(listed, segs, Parsed(open, codec), clock)
  {
    ghost var g := Parsed(open, codec);
    files, segs, total, next := sealed, listed, 0, 0;
    SealStart(sealed, g, segs, size, clock);
    for s := 0 to clock
      invariant SealProgress(sealed, g, files, segs, size, clock, s)
      invariant total == |Collect(g, 0, s)|
      invariant next == MaxLast(g, s)
      invariant ListsMore(listed, segs, g, s)
    {
      var items;
      files, segs, items := SealNext(codec, size, clock, sealed, open, listed, files, segs, s);
      total := total + |items|;
      if LastSeq(items) > next {
        next := LastSeq(items);
      }
    }
    SealDone(sealed, g, files, segs, size, clock);
  }

  /** Acknowledges the sealed segments up to `upTo`: drops those entirely
      confirmed, keeps those entirely above, rewrites the one in between. */
  method AckSealed(segs: seq<SealedSegment>, f0: Files, size: seq<Item> -> nat, clock: nat, upTo: nat, ghost next: nat)
      returns (f: Files, kept: seq<SealedSegment>, removed: nat)
    requires Indexes(segs, f0, size, clock) && WellFormed(Collect(f0, 0, clock), next)
    ensures Indexes(kept, f, size, clock) && f.Keys <= f0.Keys
    ensures Collect(f, 0, clock) == Keep(Collect(f0, 0, clock), upTo, {})
    ensures removed == |Collect(f0, 0, clock)| - |Collect(f, 0, clock)|
  {
    f, kept, removed := f0, [], 0;
    AckStart(segs, f0, upTo, size, clock);
    for i := 0 to |segs|
      invariant AckProgress(segs, f0, f, kept, i, upTo, size)
      invariant removed == |Collect(f0, 0, clock)| - |Collect(f, 0, clock)|
    {
      var stem := segs[i].stem;
      SegmentWellFormed(f0, stem, clock, next);
      var remaining, gone, seg := AckSegment(segs[i], f[stem], size, upTo, next);
      AckStep(segs, f0, f, kept, i, upTo, size, clock, remaining);
      removed := removed + gone;
      if |remaining| == 0 {
        f := f - {stem};
      } else {
        f := f[stem := remaining];
        kept := kept + [seg];
      }
    }
    AckFinish(segs, f0, f, kept, upTo, size, clock);
  }

  /** What is left of one segment: the cached bounds decide the two clear
      cases, and only a partly confirmed segment is read. */
  method AckSegment(seg: SealedSegment, items: seq<Item>, size: seq<Item> -> nat, upTo: nat, ghost next: nat)
      returns (remaining: seq<Item>, gone: nat, seg': SealedSegment)
    requires seg == Describe(seg.stem, items, size) && WellFormed(items, next)
    ensures remaining == Keep(items, upTo, {}) && gone == |items| - |remaining|
    ensures remaining != [] ==> seg' == Describe(seg.stem, remaining, size)
  {
    if seg.maxSeq <= upTo {
      KeepNothing(items, upTo, {});
      return [], seg.count, seg;
    } else if seg.minSeq > upTo {
      KeepEverything(items, upTo, {});
      return items, 0, seg;
    }
    remaining, gone := SplitAcked(items, upTo);
    seg' := seg;
    if |remaining| != 0 {
      seg' := seg.(count := |remaining|, minSeq := remaining[0].seqNo,
                   maxSeq := remaining[|remaining| - 1].seqNo, byteSize := size(remaining));
    }
  }

  /** Files and list after an item was taken out of listed segment `i`: an
      emptied segment is deleted together with that listing of it. */
  function StoredFiles(f: Files, stem: nat, filtered: seq<Item>): Files {
    if filtered == [] then f - {stem} else f[stem := filtered]
  }

  function StoredList(segs: seq<SealedSegment>, i: nat, filtered: seq<Item>, size: seq<Item> -> nat): seq<SealedSegment>
    requires i < |segs|
  {
    if filtered == [] then segs[..i] + segs[i + 1..] else segs[i := Describe(segs[i].stem, filtered, size)]
  }

  method StoreFiltered(segs: seq<SealedSegment>, f0: Files, size: seq<Item> -> nat, i: nat, filtered: seq<Item>)
      returns (f: Files, kept: seq<SealedSegment>)
    requires i < |segs|
    ensures f == StoredFiles(f0, segs[i].stem, filtered) && kept == StoredList(segs, i, filtered, size)
  {
    var seg := segs[i];
    if |filtered| == 0 {
      f := f0 - {seg.stem};
      kept := segs[..i] + segs[i + 1..];
    } else {
      f := f0[seg.stem := filtered];
      kept := segs[i := seg.(count := |filtered|, minSeq := filtered[0].seqNo,
                             maxSeq := filtered[|filtered| - 1].seqNo, byteSize := size(filtered))];
    }
  }

  lemma {:induction false} StoredIndexes(segs: seq<SealedSegment>, f: Files, size: seq<Item> -> nat, clock: nat,
                                         i: nat, filtered: seq<Item>)
    requires Indexes(segs, f, size, clock) && i < |segs|
    ensures Indexes(StoredList(segs, i, filtered, size), StoredFiles(f, segs[i].stem, filtered), size, clock)
    ensures StoredFiles(f, segs[i].stem, filtered).Keys <= f.Keys
  {
    if filtered == [] {
      IndexDelete(segs, f, size, clock, i);
    } else {
      IndexReplace(segs, f, size, clock, i, filtered);
    }
  }

  /** Taking an item out of a segment that is listed twice leaves a listing
      without a file exactly if that was the segment's last item. */
  lemma {:induction false} TwiceListedDangles(segs: seq<SealedSegment>, f: Files, size: seq<Item> -> nat,
                                              i: nat, j: nat, filtered: seq<Item>)
    requires i < j < |segs| && segs[i].stem == segs[j].stem
    requires forall k :: 0 <= k < |segs| ==> segs[k].stem in f
    ensures var segs', f' := StoredList(segs, i, filtered, size), StoredFiles(f, segs[i].stem, filtered);
            filtered == [] <==> exists k :: 0 <= k < |segs'| && segs'[k].stem !in f'
  {
    var segs', f' := StoredList(segs, i, filtered, size), StoredFiles(f, segs[i].stem, filtered);
    if filtered == [] {
      assert segs'[j - 1] == segs[j];
    }
  }

  /** Deletes item `x` from the sealed segment that holds it, if any. */
  method RemoveSealed(segs: seq<SealedSegment>, f0: Files, size: seq<Item> -> nat, clock: nat, x: nat, ghost next: nat)
      returns (f: Files, kept: seq<SealedSegment>, found: bool)
    requires Indexes(segs, f0, size, clock) && WellFormed(Collect(f0, 0, clock), next)
    ensures Indexes(kept, f, size, clock) && f.Keys <= f0.Keys
    ensures found <==> x in Seqs(Collect(f0, 0, clock))
    ensures Collect(f, 0, clock) == Keep(Collect(f0, 0, clock), 0, {x})
    ensures |Collect(f, 0, clock)| == |Collect(f0, 0, clock)| - (if found then 1 else 0)
    ensures f == FilesWithout(f0, {x}) && Stems(kept) == StemsWithout(Stems(segs), f0, {x})
  {
    f, kept, found := f0, segs, false;
    for i := 0 to |segs|
      invariant f == f0 && kept == segs && !found
      invariant forall k :: 0 <= k < i ==> x !in Seqs(At(f0, segs[k].stem))
    {
      var seg := segs[i];
      SegmentWellFormed(f0, seg.stem, clock, next);
      if !(x < seg.minSeq || x > seg.maxSeq) {
        var filtered, hit := Except(f0[seg.stem], x);
        if hit {
          found := true;
          StoredIndexes(segs, f0, size, clock, i, filtered);
          StoredIsWithout(segs, f0, size, clock, next, i, x, filtered);
          f, kept := StoreFiltered(segs, f0, size, i, filtered);
          CollectWithout(f0, f, seg.stem, clock, next, x);
          CollectLength(f0, f, seg.stem, clock);
          SeqsOfSlice(f0, seg.stem, clock, x);
          return;
        }
      }
    }
    SeqsNowhere(segs, f0, size, clock, x);
    KeepEverything(Collect(f0, 0, clock), 0, {x});
    GoneNowhere(f0, Stems(segs), clock, next, x);
  }

  lemma {:induction false} GoneNowhere(files: Files, stems: set<nat>, clock: nat, next: nat, x: nat)
    requires (forall s :: s in files ==> s < clock) && WellFormed(Collect(files, 0, clock), next)
    requires x !in Seqs(Collect(files, 0, clock))
    ensures FilesWithout(files, {x}) == files && StemsWithout(stems, files, {x}) == stems
  {
    var all := Collect(files, 0, clock);
    forall it | it in all ensures it.seqNo !in {x} {
      var i :| 0 <= i < |all| && all[i] == it;
      assert all[i].seqNo in Seqs(all);
    }
    AbsentNowhere(files, clock, next, {x});
    WithoutNowhere(files, stems, {x});
  }

  /** Only the file that has the number changes. */
  lemma {:induction false} OthersUntouched(files: Files, clock: nat, next: nat, stem: nat, x: nat)
    requires (forall s :: s in files ==> s < clock) && WellFormed(Collect(files, 0, clock), next)
    requires stem in files && x in Seqs(files[stem])
    ensures forall s :: s in files && s != stem ==> Keep(files[s], 0, {x}) == files[s]
  {
    var i :| 0 <= i < |files[stem]| && files[stem][i].seqNo == x;
    forall s | s in files && s != stem ensures Keep(files[s], 0, {x}) == files[s] {
      SegmentWellFormed(files, s, clock, next);
      forall j | 0 <= j < |files[s]| ensures files[s][j].seqNo !in {x} {
        if files[s][j].seqNo == x {
          InOneFile(files, clock, next, s, j, stem, i);
        }
      }
      KeepEverything(files[s], 0, {x});
    }
  }

  lemma {:induction false} StoredIsWithout(segs: seq<SealedSegment>, f: Files, size: seq<Item> -> nat, clock: nat,
                                           next: nat, i: nat, x: nat, filtered: seq<Item>)
    requires Indexes(segs, f, size, clock) && WellFormed(Collect(f, 0, clock), next) && i < |segs|
    requires x in Seqs(f[segs[i].stem]) && filtered == Keep(f[segs[i].stem], 0, {x})
    ensures StoredFiles(f, segs[i].stem, filtered) == FilesWithout(f, {x})
    ensures Stems(StoredList(segs, i, filtered, size)) == StemsWithout(Stems(segs), f, {x})
  {
    var stem := segs[i].stem;
    OthersUntouched(f, clock, next, stem, x);
    StoredStems(segs, i, filtered, size);
    ChangedFile(f, Stems(segs), stem, x, filtered);
  }

  lemma {:induction false} ChangedFile(f: Files, stems: set<nat>, stem: nat, x: nat, filtered: seq<Item>)
    requires stem in f && stem in stems && f[stem] != [] && filtered == Keep(f[stem], 0, {x})
    requires forall s :: s in f && s != stem ==> Keep(f[s], 0, {x}) == f[s]
    ensures FilesWithout(f, {x}) == StoredFiles(f, stem, filtered)
    ensures StemsWithout(stems, f, {x}) == if filtered == [] then stems - {stem} else stems
  {
    forall s | s in stems ensures Emptied(At(f, s), {x}) <==> s == stem && filtered == [] {
    }
  }

  lemma {:induction false} StoredStems(segs: seq<SealedSegment>, i: nat, filtered: seq<Item>, size: seq<Item> -> nat)
    requires Sorted(segs) && i < |segs|
    ensures Stems(StoredList(segs, i, filtered, size))
         == if filtered == [] then Stems(segs) - {segs[i].stem} else Stems(segs)
  {
    var kept := StoredList(segs, i, filtered, size);
    if filtered == [] {
      assert forall j :: 0 <= j < i ==> kept[j] == segs[j];
      assert forall j :: i <= j < |kept| ==> kept[j] == segs[j + 1];
      forall s | s in Stems(segs) && s != segs[i].stem ensures s in Stems(kept) {
        var j :| 0 <= j < |segs| && segs[j].stem == s;
        assert kept[if j < i then j else j - 1].stem == s;
      }
    } else {
      assert forall j :: 0 <= j < |segs| ==> kept[j].stem == segs[j].stem;
    }
    forall s | s in Stems(kept) ensures s in Stems(segs) && (filtered == [] ==> s != segs[i].stem) {
      var j :| 0 <= j < |kept| && kept[j].stem == s;
      assert segs[if j < i || filtered != [] then j else j + 1].stem == s;
    }
    if filtered != [] {
      forall s | s in Stems(segs) ensures s in Stems(kept) {
        var j :| 0 <= j < |segs| && segs[j].stem == s;
        assert kept[j].stem == s;
      }
    }
  }

  lemma {:induction false} SeqsOfSlice(files: Files, stem: nat, hi: nat, x: nat)
    requires stem < hi && x in Seqs(At(files, stem))
    ensures x in Seqs(Collect(files, 0, hi))
  {
    CollectAround(files, stem, hi);
    var i :| 0 <= i < |At(files, stem)| && At(files, stem)[i].seqNo == x;
    assert Collect(files, 0, hi)[|Collect(files, 0, stem)| + i].seqNo == x;
  }

  lemma {:induction false} SeqsNowhere(segs: seq<SealedSegment>, files: Files, size: seq<Item> -> nat, clock: nat,
                                       x: nat)
    requires Indexes(segs, files, size, clock)
    requires forall k :: 0 <= k < |segs| ==> x !in Seqs(At(files, segs[k].stem))
    ensures x !in Seqs(Collect(files, 0, clock))
  {
    forall s: nat | 0 <= s < clock ensures x !in Seqs(At(files, s)) {
      if At(files, s) != [] {
        assert s in Stems(segs);
      }
    }
    SeqsOfNone(files, clock, x);
  }

  lemma {:induction false} SeqsOfNone(files: Files, hi: nat, x: nat)
    requires forall s: nat :: 0 <= s < hi ==> x !in Seqs(At(files, s))
    ensures x !in Seqs(Collect(files, 0, hi))
  {
    if hi > 0 {
      SeqsOfNone(files, hi - 1, x);
      var a, b := Collect(files, 0, hi - 1), At(files, hi - 1);
      assert x !in Seqs(b);
      forall i | 0 <= i < |a + b| ensures (a + b)[i].seqNo != x {
        if i < |a| {
          assert a[i].seqNo in Seqs(a);
        } else {
          assert b[i - |a|].seqNo in Seqs(b);
        }
      }
    }
  }

  lemma {:induction false} KeepSameLength(items: seq<Item>, lo: nat, gone: set<nat>)
    ensures |Keep(items, lo, gone)| <= |items|
    ensures |Keep(items, lo, gone)| == |items| ==> Keep(items, lo, gone) == items
  {
    if items != [] {
      KeepSameLength(items[1..], lo, gone);
    }
  }

  lemma {:induction false} SeqsOfConcat(a: seq<Item>, b: seq<Item>, x: nat)
    ensures x in Seqs(a + b) <==> x in Seqs(a) || x in Seqs(b)
  {
    if x in Seqs(a) {
      var i :| 0 <= i < |a| && a[i].seqNo == x;
      assert (a + b)[i].seqNo == x;
    }
    if x in Seqs(b) {
      var i :| 0 <= i < |b| && b[i].seqNo == x;
      assert (a + b)[|a| + i].seqNo == x;
    }
  }

  /** Position of the item numbered `x`, or -1. */
  method FindSeq(items: seq<Item>, x: nat) returns (k: int)
    ensures k < |items|
    ensures k >= 0 ==> items[k].seqNo == x
    ensures k < 0 ==> x !in Seqs(items)
  {
    for i := 0 to |items|
      invariant forall j :: 0 <= j < i ==> items[j].seqNo != x
    {
      if items[i].seqNo == x {
        return i;
      }
    }
    return -1;
  }

  ghost predicate Ordered(a: seq<Item>, b: seq<Item>) {
    forall i, j :: 0 <= i < |a| && 0 <= j < |b| ==> a[i].seqNo < b[j].seqNo
  }

  lemma {:induction false} ConcatWellFormed(a: seq<Item>, b: seq<Item>, next: nat)
    ensures WellFormed(a + b, next) <==> WellFormed(a, next) && WellFormed(b, next) && Ordered(a, b)
  {
    var all := a + b;
    assert forall i :: 0 <= i < |a| ==> all[i] == a[i];
    assert forall i :: 0 <= i < |b| ==> all[|a| + i] == b[i];
  }

  /** Filtering either half of a well-formed log leaves it well formed. */
  lemma {:induction false} KeepPart(a: seq<Item>, b: seq<Item>, next: nat, lo: nat, gone: set<nat>)
    requires WellFormed(a + b, next)
    ensures WellFormed(a, next) && WellFormed(b, next)
    ensures WellFormed(Keep(a, lo, gone) + b, next)
    ensures WellFormed(a + Keep(b, lo, gone), next)
  {
    ConcatWellFormed(a, b, next);
    KeepWellFormed(a, next, lo, gone);
    KeepWellFormed(b, next, lo, gone);
    var a', b' := Keep(a, lo, gone), Keep(b, lo, gone);
    forall i | 0 <= i < |a'| ensures a'[i] in a {
      KeepMember(a, lo, gone, a'[i]);
    }
    forall i | 0 <= i < |b'| ensures b'[i] in b {
      KeepMember(b, lo, gone, b'[i]);
    }
    ConcatWellFormed(a', b, next);
    ConcatWellFormed(a, b', next);
  }

  lemma {:induction false} KeepAbsent(a: seq<Item>, b: seq<Item>, next: nat, x: nat)
    requires WellFormed(a + b, next) && x !in Seqs(b)
    ensures Keep(b, 0, {x}) == b
  {
    ConcatWellFormed(a, b, next);
    forall i | 0 <= i < |b| ensures b[i].seqNo != x {
      assert b[i].seqNo in Seqs(b);
    }
    KeepEverything(b, 0, {x});
  }

  /** An item of the open segment is in no sealed one. */
  lemma {:induction false} RemoveOpen(front: seq<Item>, back: seq<Item>, next: nat, i: nat)
    requires WellFormed(front + back, next) && i < |back|
    ensures WellFormed(front, next) && back[i].seqNo !in Seqs(front)
    ensures Keep(front, 0, {back[i].seqNo}) == front
    ensures Keep(back, 0, {back[i].seqNo}) == back[..i] + back[i + 1..]
  {
    var all := front + back;
    assert all[|front| + i] == back[i];
    assert forall k :: 0 <= k < |front| ==> front[k] == all[k];
    KeepEverything(front, 0, {back[i].seqNo});
    assert front + back + [] == all;
    SliceWellFormed(front, back, [], next);
    KeepAllButOne(back, i);
  }

  /** The oldest `n` items of the listed segments. It fails exactly if a
      segment whose file is missing comes before they are complete. */
  method ReadOldest(segs: seq<SealedSegment>, files: Files, n: int) returns (ok: bool, result: seq<Item>)
    ensures ok <==> forall i :: 0 <= i < |segs| && |ListItems(segs[..i], files)| < n ==> segs[i].stem in files
    ensures ok ==> result == Take(ListItems(segs, files), n)
  {
    result := [];
    var i := 0;
    while i < |segs| && |result| < n
      invariant 0 <= i <= |segs|
      invariant result == Take(ListItems(segs[..i], files), n)
      invariant forall k :: 0 <= k < i ==> segs[k].stem in files
    {
      if segs[i].stem !in files {
        assert |ListItems(segs[..i], files)| < n;
        return false, [];
      }
      result := TakeMore(result, ListItems(segs[..i], files), files[segs[i].stem], n);
      assert segs[..i + 1][..i] == segs[..i];
      i := i + 1;
    }
    ok := true;
    if i < |segs| {
      TakeOfPrefix(segs, i, files, n);
      forall k | i <= k < |segs| ensures |ListItems(segs[..k], files)| >= n {
        ListGrows(segs[..k], i, files);
        assert segs[..k][..i] == segs[..i];
      }
    } else {
      assert segs[..i] == segs;
    }
  }

  /** The first `n` elements, or all of them. */
  function Take(items: seq<Item>, n: int): (r: seq<Item>) {
    if n <= 0 then [] else if n < |items| then items[..n] else items
  }

  method TakeMore(sofar: seq<Item>, ghost before: seq<Item>, more: seq<Item>, n: int) returns (result: seq<Item>)
    requires sofar == Take(before, n)
    ensures result == Take(before + more, n)
  {
    result := sofar;
    for i := 0 to |more|
      invariant result == Take(before + more[..i], n)
    {
      assert before + more[..i + 1] == (before + more[..i]) + [more[i]];
      if |result| >= n {
        assert result == Take(before + more, n);
        break;
      }
      result := result + [more[i]];
    }
    assert more[..|more|] == more;
  }

  lemma {:induction false} TakeOfPrefix(segs: seq<SealedSegment>, i: nat, files: Files, n: int)
    requires i <= |segs| && |ListItems(segs[..i], files)| >= n
    ensures Take(ListItems(segs, files), n) == Take(ListItems(segs[..i], files), n)
    decreases |segs|
  {
    if i == |segs| {
      assert segs[..i] == segs;
    } else {
      var front := segs[..|segs| - 1];
      assert front[..i] == segs[..i];
      TakeOfPrefix(front, i, files, n);
      ListGrows(front, i, files);
    }
  }

  lemma {:induction false} ListGrows(segs: seq<SealedSegment>, i: nat, files: Files)
    requires i <= |segs|
    ensures |ListItems(segs[..i], files)| <= |ListItems(segs, files)|
    decreases |segs|
  {
    if i == |segs| {
      assert segs[..i] == segs;
    } else {
      assert segs[..|segs| - 1][..i] == segs[..i];
      ListGrows(segs[..|segs| - 1], i, files);
    }
  }
}
