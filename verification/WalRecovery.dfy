/** What reopening a buffer directory yields, as a function of its files. */
module WalRecovery {
  import opened Common
  import opened FlatLog
  import opened WalDisk
  import opened WalIndex

  /** The records recovery finds in the open segments. */
  function Parsed(open: map<nat, seq<byte>>, c: Codec): Files {
    map s | s in open :: Parse(c, open[s])
  }

  /** The sealed segments after recovery: each open segment became one. */
  function Recovered(sealed: Files, open: map<nat, seq<byte>>, c: Codec): Files {
    sealed + Parsed(open, c)
  }

  ghost predicate StemsBelow(sealed: Files, open: map<nat, seq<byte>>, clock: nat) {
    (forall s :: s in sealed ==> s < clock) && (forall s :: s in open ==> s < clock)
  }

  /** Every open segment is newer than every sealed one. */
  ghost predicate Separated(sealed: Files, newer: Files) {
    forall s, t :: s in sealed && t in newer ==> s < t
  }

  /** A segment present in both forms holds the same items in both. */
  ghost predicate Agree(sealed: Files, newer: Files) {
    forall s :: s in sealed && s in newer ==> sealed[s] == newer[s]
  }

  /** The items a directory holds. */
  function RecoveredItems(sealed: Files, open: map<nat, seq<byte>>, c: Codec, clock: nat): seq<Item> {
    Collect(Recovered(sealed, open, c), 0, clock)
  }

  /** A directory as a running buffer leaves it between two writes. */
  ghost predicate Intact(sealed: Files, open: map<nat, seq<byte>>, c: Codec, clock: nat) {
    && StemsBelow(sealed, open, clock)
    && Separated(sealed, Parsed(open, c))
    && var items := RecoveredItems(sealed, open, c, clock);
       WellFormed(items, LastSeq(items))
  }

  function Max(a: nat, b: nat): nat {
    if a < b then b else a
  }

  /** The highest last sequence number over the segments below `hi`. */
  function MaxLast(files: Files, hi: nat): nat {
    if hi == 0 then 0 else Max(MaxLast(files, hi - 1), LastSeq(At(files, hi - 1)))
  }

  /** The parsed segments below `hi`. */
  function Below(files: Files, hi: nat): Files {
    map s | s in files && s < hi :: files[s]
  }

  /** `segs` lists every segment file below `s`. */
  ghost predicate Inspected(segs: seq<SealedSegment>, files: Files, size: seq<Item> -> nat, s: nat) {
    && Sorted(segs)
    && Accurate(segs, files, size)
    && (forall i :: 0 <= i < |segs| ==> segs[i].stem < s)
    && (forall t :: t in files && t < s ==> t in Stems(segs))
  }

  lemma {:induction false} InspectStep(segs: seq<SealedSegment>, files: Files, size: seq<Item> -> nat, s: nat)
    requires Inspected(segs, files, size, s)
    ensures s !in files ==> Inspected(segs, files, size, s + 1)
    ensures s in files ==> Inspected(segs + [Describe(s, files[s], size)], files, size, s + 1)
  {
    if s in files {
      var segs' := segs + [Describe(s, files[s], size)];
      forall t | t in files && t < s + 1 ensures t in Stems(segs') {
        if t == s {
          assert segs'[|segs|].stem == t;
        } else {
          var i :| 0 <= i < |segs| && segs[i].stem == t;
          assert segs'[i].stem == t;
        }
      }
    }
  }

  lemma {:induction false} BelowStep(f: Files, g: Files, s: nat)
    ensures s !in g ==> f + Below(g, s + 1) == f + Below(g, s)
    ensures s in g ==> f + Below(g, s + 1) == (f + Below(g, s))[s := g[s]]
  {
  }

  lemma {:induction false} BelowAll(f: Files, g: Files, hi: nat)
    requires forall s :: s in g ==> s < hi
    ensures f + Below(g, hi) == f + g
  {
    assert Below(g, hi) == g;
  }

  lemma {:induction false} ListItemsEqual(segs: seq<SealedSegment>, f: Files, g: Files)
    requires forall i :: 0 <= i < |segs| ==> At(f, segs[i].stem) == At(g, segs[i].stem)
    ensures ListItems(segs, f) == ListItems(segs, g)
    decreases |segs|
  {
    if segs != [] {
      ListItemsEqual(segs[..|segs| - 1], f, g);
      assert At(f, segs[|segs| - 1].stem) == At(g, segs[|segs| - 1].stem);
    }
  }

  /** With separated stems the recovered log is the sealed part followed by
      the open part. */
  lemma {:induction false} CollectUnion(f: Files, g: Files, hi: nat)
    requires Separated(f, g)
    ensures Collect(f + g, 0, hi) == Collect(f, 0, hi) + Collect(g, 0, hi)
  {
    if hi > 0 {
      CollectUnion(f, g, hi - 1);
      UnionStep(f, g, hi - 1);
    }
  }

  lemma {:induction false} UnionStep(f: Files, g: Files, last: nat)
    requires Separated(f, g)
    ensures Collect(f, 0, last) + Collect(g, 0, last) + At(f + g, last)
         == (Collect(f, 0, last) + At(f, last)) + (Collect(g, 0, last) + At(g, last))
  {
    var a, b := Collect(f, 0, last), Collect(g, 0, last);
    if last in g {
      assert At(f, last) == [] && a + [] == a;
      Regroup(a, b, At(g, last));
    } else {
      assert At(g, last) == [] && b + [] == b;
      if last in f {
        CollectEmpty(g, 0, last);
        assert a + [] == a && (a + At(f, last)) + [] == a + At(f, last);
      } else {
        assert a + b + [] == a + b && a + [] == a;
      }
    }
  }

  lemma {:induction false} PrefixWellFormed(a: seq<Item>, b: seq<Item>, next: nat)
    requires WellFormed(a + b, next)
    ensures WellFormed(a, next)
    ensures b != [] ==> LastSeq(a) < LastSeq(b)
  {
    assert forall i :: 0 <= i < |a| ==> a[i] == (a + b)[i];
    if b != [] && a != [] {
      assert (a + b)[|a| - 1] == a[|a| - 1];
    }
    if b != [] {
      assert (a + b)[|a + b| - 1] == b[|b| - 1];
    }
  }

  lemma {:induction false} MaxLastIsLast(f: Files, hi: nat, next: nat)
    requires WellFormed(Collect(f, 0, hi), next)
    ensures MaxLast(f, hi) == LastSeq(Collect(f, 0, hi))
  {
    if hi > 0 {
      var a, b := Collect(f, 0, hi - 1), At(f, hi - 1);
      PrefixWellFormed(a, b, next);
      MaxLastIsLast(f, hi - 1, next);
      if b == [] {
        assert a + b == a;
      }
    }
  }

  /** The counter recovery resumes from is the last buffered number. */
  lemma {:induction false} ResumeSeq(f: Files, g: Files, hi: nat)
    requires Separated(f, g)
    requires WellFormed(Collect(f + g, 0, hi), LastSeq(Collect(f + g, 0, hi)))
    ensures Max(MaxLast(f, hi), MaxLast(g, hi)) == LastSeq(Collect(f + g, 0, hi))
  {
    var a, b := Collect(f, 0, hi), Collect(g, 0, hi);
    CollectUnion(f, g, hi);
    var next := LastSeq(a + b);
    PrefixWellFormed(a, b, next);
    assert a + b + [] == a + b;
    SliceWellFormed(a, b, [], next);
    MaxLastIsLast(f, hi, next);
    MaxLastIsLast(g, hi, next);
    if b == [] {
      assert a + b == a;
    }
  }

  /** State of recovery once the open segments below `s` are sealed: `f`
      were the sealed segments, `g` the records of the open ones. */
  ghost predicate SealProgress(f: Files, g: Files, files: Files, segs: seq<SealedSegment>,
                               size: seq<Item> -> nat, clock: nat, s: nat)
  {
    && s <= clock
    && files == f + Below(g, s)
    && (forall i :: 0 <= i < |segs| ==> segs[i].stem in files)
    && (Separated(f, g) ==> Indexes(segs, files, size, clock))
    && (Agree(f, g) ==> ListItems(segs, files) == Collect(f, 0, clock) + Collect(g, 0, s))
  }

  lemma {:induction false} SealStart(f: Files, g: Files, segs: seq<SealedSegment>, size: seq<Item> -> nat, clock: nat)
    requires Indexes(segs, f, size, clock)
    ensures SealProgress(f, g, f, segs, size, clock, 0)
  {
    assert f + Below(g, 0) == f;
    IndexLists(segs, f, size, clock);
  }

  lemma {:induction false} SealDone(f: Files, g: Files, files: Files, segs: seq<SealedSegment>,
                                    size: seq<Item> -> nat, clock: nat)
    requires SealProgress(f, g, files, segs, size, clock, clock) && forall s :: s in g ==> s < clock
    ensures files == f + g
    ensures Separated(f, g) ==> Indexes(segs, files, size, clock)
    ensures Agree(f, g) ==> ListItems(segs, files) == Collect(f, 0, clock) + Collect(g, 0, clock)
  {
    BelowAll(f, g, clock);
  }

  /** The list after sealing segment `s`: one without records is left out. */
  function Listing(segs: seq<SealedSegment>, s: nat, items: seq<Item>, size: seq<Item> -> nat): seq<SealedSegment> {
    if items == [] then segs else segs + [Describe(s, items, size)]
  }

  lemma {:induction false} SealSkip(f: Files, g: Files, files: Files, segs: seq<SealedSegment>,
                                    size: seq<Item> -> nat, clock: nat, s: nat)
    requires SealProgress(f, g, files, segs, size, clock, s) && s < clock && s !in g
    ensures SealProgress(f, g, files, segs, size, clock, s + 1)
  {
    BelowStep(f, g, s);
    assert At(g, s) == [];
    assert Collect(g, 0, s) + [] == Collect(g, 0, s);
  }

  lemma {:induction false} SealStep(f: Files, g: Files, files: Files, segs: seq<SealedSegment>,
                                    size: seq<Item> -> nat, clock: nat, s: nat)
    requires SealProgress(f, g, files, segs, size, clock, s) && s < clock && s in g
    ensures SealProgress(f, g, files[s := g[s]], Listing(segs, s, g[s], size), size, clock, s + 1)
  {
    BelowStep(f, g, s);
    if Separated(f, g) {
      IndexNewest(segs, files, size, clock, s, g[s]);
      if g[s] == [] {
        IndexSkipsEmpty(segs, files, size, clock, s);
      }
    }
    if Agree(f, g) {
      SealStepLists(f, g, files, segs, size, clock, s);
    }
  }

  lemma {:induction false} SealStepLists(f: Files, g: Files, files: Files, segs: seq<SealedSegment>,
                                         size: seq<Item> -> nat, clock: nat, s: nat)
    requires SealProgress(f, g, files, segs, size, clock, s) && s < clock && s in g && Agree(f, g)
    ensures ListItems(Listing(segs, s, g[s], size), files[s := g[s]])
         == Collect(f, 0, clock) + Collect(g, 0, s + 1)
  {
    var files', segs' := files[s := g[s]], Listing(segs, s, g[s], size);
    ListItemsEqual(segs, files, files');
    if g[s] != [] {
      assert segs'[..|segs'| - 1] == segs;
    }
    assert ListItems(segs', files') == ListItems(segs, files) + g[s];
    Regroup(Collect(f, 0, clock), Collect(g, 0, s), g[s]);
  }
}
