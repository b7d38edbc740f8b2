/** Where the buffered items lie: in which segment files, and which of these
    are listed. Discards are determined down to this level. */
module WalLayout {
  import opened FlatLog
  import opened WalDisk

  /** The sealed files, the stems that are listed, and the open items. */
  datatype Layout = Layout(files: Files, stems: set<nat>, open: seq<Item>)

  /** Taking the numbers out leaves nothing of a file that had something. */
  ghost predicate Emptied(items: seq<Item>, gone: set<nat>) {
    items != [] && Keep(items, 0, gone) == []
  }

  ghost function FilesWithout(files: Files, gone: set<nat>): Files {
    map s | s in files && !Emptied(files[s], gone) :: Keep(files[s], 0, gone)
  }

  ghost function StemsWithout(stems: set<nat>, files: Files, gone: set<nat>): set<nat> {
    set s | s in stems && !Emptied(At(files, s), gone)
  }

  /** The layout with the numbers taken out: a file that this empties goes,
      and its listing with it. */
  ghost function Without(l: Layout, gone: set<nat>): Layout {
    Layout(FilesWithout(l.files, gone), StemsWithout(l.stems, l.files, gone), Keep(l.open, 0, gone))
  }

  lemma {:induction false} KeepMore(items: seq<Item>, a: set<nat>, b: set<nat>)
    ensures Keep(Keep(items, 0, a), 0, b) == Keep(items, 0, a + b)
    ensures Emptied(items, a + b) <==> Emptied(items, a) || Emptied(Keep(items, 0, a), b)
  {
    KeepKeep(items, 0, a, 0, b);
  }

  lemma {:induction false} AtWithout(files: Files, gone: set<nat>, s: nat)
    ensures At(FilesWithout(files, gone), s) == Keep(At(files, s), 0, gone)
  {
  }

  /** Taking numbers out in two steps is taking them out in one. */
  lemma {:induction false} WithoutAgain(l: Layout, a: set<nat>, b: set<nat>)
    ensures Without(Without(l, a), b) == Without(l, a + b)
  {
    KeepMore(l.open, a, b);
    forall s ensures s in l.files ==> KeptTwice(l.files[s], a, b) {
      if s in l.files {
        KeepMore(l.files[s], a, b);
      }
    }
    assert FilesWithout(FilesWithout(l.files, a), b) == FilesWithout(l.files, a + b);
    StemsWithoutAgain(l.stems, l.files, a, b);
  }

  ghost predicate KeptTwice(items: seq<Item>, a: set<nat>, b: set<nat>) {
    && Keep(Keep(items, 0, a), 0, b) == Keep(items, 0, a + b)
    && (Emptied(items, a + b) <==> Emptied(items, a) || Emptied(Keep(items, 0, a), b))
  }

  lemma {:induction false} StemsWithoutAgain(stems: set<nat>, files: Files, a: set<nat>, b: set<nat>)
    ensures StemsWithout(StemsWithout(stems, files, a), FilesWithout(files, a), b) == StemsWithout(stems, files, a + b)
  {
    forall s ensures s in StemsWithout(StemsWithout(stems, files, a), FilesWithout(files, a), b)
                     <==> s in StemsWithout(stems, files, a + b) {
      if s in stems {
        AtWithout(files, a, s);
        KeepMore(At(files, s), a, b);
      }
    }
  }

  /** Numbers that no file has. */
  ghost predicate Nowhere(files: Files, gone: set<nat>) {
    forall s :: s in files ==> Keep(files[s], 0, gone) == files[s]
  }

  lemma {:induction false} WithoutNowhere(files: Files, stems: set<nat>, gone: set<nat>)
    requires Nowhere(files, gone)
    ensures FilesWithout(files, gone) == files && StemsWithout(stems, files, gone) == stems
  {
  }

  /** Absent from the log means in no file. */
  lemma {:induction false} AbsentNowhere(files: Files, hi: nat, next: nat, gone: set<nat>)
    requires (forall s :: s in files ==> s < hi) && WellFormed(Collect(files, 0, hi), next)
    requires forall it :: it in Collect(files, 0, hi) ==> it.seqNo !in gone
    ensures Nowhere(files, gone)
  {
    forall s | s in files ensures Keep(files[s], 0, gone) == files[s] {
      SegmentWellFormed(files, s, hi, next);
      CollectAround(files, s, hi);
      forall i | 0 <= i < |files[s]| ensures files[s][i].seqNo !in gone {
        assert Collect(files, 0, hi)[|Collect(files, 0, s)| + i] == files[s][i];
      }
      KeepEverything(files[s], 0, gone);
    }
  }

  /** A number is in one file only. */
  lemma {:induction false} InOneFile(files: Files, hi: nat, next: nat, s: nat, i: nat, t: nat, j: nat)
    requires s < hi && t < hi && WellFormed(Collect(files, 0, hi), next)
    requires i < |At(files, s)| && j < |At(files, t)| && At(files, s)[i].seqNo == At(files, t)[j].seqNo
    ensures s == t
  {
    var all := Collect(files, 0, hi);
    CollectAround(files, s, hi);
    CollectAround(files, t, hi);
    var m, n := |Collect(files, 0, s)| + i, |Collect(files, 0, t)| + j;
    assert all[m] == At(files, s)[i] && all[n] == At(files, t)[j];
    if s < t {
      CollectSplit(files, 0, s + 1, t);
    } else if t < s {
      CollectSplit(files, 0, t + 1, s);
    }
  }
}
