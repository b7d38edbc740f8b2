/** The index rebuilt from the files of any run (internal/logstore). */
module LogRebuild {
  import opened Common
  import opened LogBlock
  import opened LogIndex
  import opened LogRuns

  /** The metadata of finished blocks, in the order they were taken. */
  function Finished(jobs: seq<Job>): seq<BlockMeta> {
    if jobs == [] then []
    else
      var t := jobs[|jobs| - 1];
      Finished(jobs[..|jobs| - 1]) + (if t.stage.Done? then [t.stage.meta] else [])
  }

  lemma {:induction false} FinishedHas(jobs: seq<Job>, m: BlockMeta)
    ensures m in Finished(jobs) <==> exists i :: 0 <= i < |jobs| && jobs[i].stage == Done(m)
    decreases |jobs|
  {
    if jobs != [] {
      var front := jobs[..|jobs| - 1];
      FinishedHas(front, m);
      if i :| 0 <= i < |jobs| && jobs[i].stage == Done(m) {
        assert i < |front| ==> front[i].stage == Done(m);
      }
      if i :| 0 <= i < |front| && front[i].stage == Done(m) {
        assert jobs[i].stage == Done(m);
      }
    }
  }

  /** Ids in the metadata are those of the jobs, so they do not repeat. */
  lemma {:induction false} FinishedDistinct(z: Zstd, files: seq<Entry>, jobs: seq<Job>)
    requires DistinctIds(jobs) && AllOk(z, files, jobs)
    ensures NoRepeats(Finished(jobs))
    decreases |jobs|
  {
    if jobs != [] {
      var front, t := jobs[..|jobs| - 1], jobs[|jobs| - 1];
      FinishedDistinct(z, files, front);
      if t.stage.Done? {
        FinishedHas(front, t.stage.meta);
        assert JobOk(z, files, t) && forall i :: 0 <= i < |front| ==> JobOk(z, files, front[i]);
        NoRepeatsAppend(Finished(front), t.stage.meta);
      }
    }
  }

  lemma NoRepeatsAppend(s: seq<BlockMeta>, m: BlockMeta)
    requires NoRepeats(s) && m !in s
    ensures NoRepeats(s + [m])
  {
  }

  /** Two lists without repeats of the same members have equal sums. */
  lemma {:induction false} SameMembers(a: seq<BlockMeta>, b: seq<BlockMeta>)
    requires NoRepeats(a) && NoRepeats(b) && forall m :: m in a <==> m in b
    ensures multiset(a) == multiset(b)
  {
    forall m ensures multiset(a)[m] == multiset(b)[m] {
      CountOnce(a, m);
      CountOnce(b, m);
    }
  }

  lemma {:induction false} CountOnce(a: seq<BlockMeta>, m: BlockMeta)
    requires NoRepeats(a)
    ensures multiset(a)[m] == if m in a then 1 else 0
    decreases |a|
  {
    if a != [] {
      var front, last := a[..|a| - 1], a[|a| - 1];
      assert a == front + [last];
      CountOnce(front, m);
      assert last !in front;
    }
  }

  lemma {:induction false} SumsFollow(a: seq<BlockMeta>, b: seq<BlockMeta>)
    requires multiset(a) == multiset(b)
    ensures SumRaw(a) == SumRaw(b) && SumCompressed(a) == SumCompressed(b)
    decreases |a|
  {
    if a == [] {
      assert |multiset(b)| == 0;
    } else {
      var last := a[|a| - 1];
      assert a == a[..|a| - 1] + [last];
      assert last in multiset(b);
      var j :| 0 <= j < |b| && b[j] == last;
      var rest := b[..j] + b[j + 1..];
      assert b == b[..j] + [last] + b[j + 1..];
      WithoutOne(a[..|a| - 1], b[..j], b[j + 1..], last);
      SumsFollow(a[..|a| - 1], rest);
      SumWithout(b[..j], last, b[j + 1..]);
    }
  }

  lemma {:induction false} SumWithout(x: seq<BlockMeta>, m: BlockMeta, y: seq<BlockMeta>)
    ensures SumRaw(x + [m] + y) == SumRaw(x + y) + m.sizeRaw
    ensures SumCompressed(x + [m] + y) == SumCompressed(x + y) + m.sizeCompressed
    decreases |y|
  {
    if y == [] {
      assert x + [m] + y == x + [m] && x + y == x;
      SumAppend(x, m);
    } else {
      var front, last := y[..|y| - 1], y[|y| - 1];
      assert x + [m] + y == (x + [m] + front) + [last] && x + y == (x + front) + [last];
      SumWithout(x, m, front);
      SumAppend(x + [m] + front, last);
      SumAppend(x + front, last);
    }
  }

  /** The blocks listed by the scan are exactly the finished ones. */
  lemma {:induction false} ScanMembers(z: Zstd, s: State, blocks: seq<BlockMeta>, ids: seq<string>)
    requires Inv(z, s) && BlocksOf(blocks, ids, Metas(s.files)) && Lists(ids, Usable(s.files))
    ensures NoRepeats(blocks) && forall m :: m in blocks <==> m in Finished(s.jobs)
  {
    forall i | 0 <= i < |blocks| ensures blocks[i].blockId == ids[i] && blocks[i] in Finished(s.jobs) {
      BlockFinished(z, s, ids[i], blocks[i]);
    }
    forall m | m in Finished(s.jobs) ensures m in blocks {
      FinishedListed(z, s, blocks, ids, m);
    }
  }

  lemma UsableHas(files: seq<Entry>, id: string)
    requires id in Metas(files) && id in Payloads(files) && Metas(files)[id].Json?
    ensures id in Usable(files)
  {
  }

  lemma {:induction false} FinishedListed(z: Zstd, s: State, blocks: seq<BlockMeta>, ids: seq<string>, m: BlockMeta)
    requires Inv(z, s) && BlocksOf(blocks, ids, Metas(s.files)) && Lists(ids, Usable(s.files)) && m in Finished(s.jobs)
    ensures m in blocks
  {
    FinishedHas(s.jobs, m);
    var n :| 0 <= n < |s.jobs| && s.jobs[n].stage == Done(m);
    UsableHas(s.files, s.jobs[n].id);
    var i :| 0 <= i < |ids| && ids[i] == s.jobs[n].id;
    assert blocks[i] == m;
  }

  lemma {:induction false} BlockFinished(z: Zstd, s: State, id: string, m: BlockMeta)
    requires Inv(z, s) && id in Metas(s.files) && Metas(s.files)[id] == Json(m)
    ensures m.blockId == id && m in Finished(s.jobs)
  {
    var n :| 0 <= n < |s.jobs| && s.jobs[n].id == id && s.jobs[n].stage.Done?;
    assert JobOk(z, s.files, s.jobs[n]);
    FinishedHas(s.jobs, m);
  }

  /** Ids of blocks whose payload was written and whose sidecar was not. */
  ghost function Interrupted(jobs: seq<Job>): set<string> {
    set i | 0 <= i < |jobs| && jobs[i].stage.PayloadDone? :: jobs[i].id
  }

  /** In every reachable state a scan of the files rebuilds exactly the
      metadata and totals of the finished blocks; the only irregularity it
      can find are payloads of blocks interrupted before their sidecar. */
  method Rebuild(z: Zstd, s: State) returns (r: VerifyResult)
    requires Inv(z, s)
    ensures multiset(r.blocks) == multiset(Finished(s.jobs))
    ensures r.totalRaw == SumRaw(Finished(s.jobs)) && r.totalCompressed == SumCompressed(Finished(s.jobs))
    ensures r.orphanMetas == [] && r.corrupt == {}
    ensures Lists(r.orphanPayloads, Interrupted(s.jobs))
  {
    ghost var ids;
    r, ids := ScanIndex(s.files);
    ScanMembers(z, s, r.blocks, ids);
    FinishedDistinct(z, s.files, s.jobs);
    SameMembers(r.blocks, Finished(s.jobs));
    SumsFollow(r.blocks, Finished(s.jobs));
    NoOrphanMetas(z, s);
    ListsSome(r.orphanMetas, Metas(s.files).Keys - Payloads(s.files));
  }

  lemma ListsSome(s: seq<string>, members: set<string>)
    requires Lists(s, members)
    ensures s != [] ==> members != {}
  {
    if s != [] {
      assert s[0] in s;
    }
  }

  /** A sidecar belongs to a finished block. */
  lemma {:induction false} MetaOfJob(jobs: seq<Job>, metas: map<string, Content>, n: nat)
    requires MetasOk(jobs, metas) && DistinctIds(jobs) && n < |jobs| && jobs[n].id in metas && Stored(jobs[n])
    ensures jobs[n].stage.Done?
  {
    var k :| 0 <= k < |jobs| && jobs[k].id == jobs[n].id && jobs[k].stage.Done?;
    assert k == n;
  }

  lemma {:induction false} NoOrphanMetas(z: Zstd, s: State)
    requires Inv(z, s)
    ensures Metas(s.files).Keys - Payloads(s.files) == {}
    ensures forall id :: id in Metas(s.files) ==> Metas(s.files)[id].Json?
    ensures Payloads(s.files) - Metas(s.files).Keys == Interrupted(s.jobs)
  {
    var metas, payloads := Metas(s.files), Payloads(s.files);
    forall id | id in metas ensures id in payloads && metas[id].Json? {
      var n :| 0 <= n < |s.jobs| && s.jobs[n].id == id && s.jobs[n].stage.Done?;
    }
    forall id | id in payloads && id !in metas ensures id in Interrupted(s.jobs) {
      var n :| 0 <= n < |s.jobs| && s.jobs[n].id == id && Stored(s.jobs[n]);
    }
    forall n | 0 <= n < |s.jobs| && Stored(s.jobs[n]) ensures s.jobs[n].id in metas ==> s.jobs[n].stage.Done? {
      if s.jobs[n].id in metas {
        MetaOfJob(s.jobs, metas, n);
      }
    }
  }
}
