/** Every interleaving of the log store's atomic steps: buffering a line,
    taking a buffer out for a block, writing the block's payload, writing its
    metadata, and a crash that loses what is only in memory. */
module LogRuns {
  import opened Common
  import opened Schema
  import opened LogBlock
  import opened LogIndex
  import opened LogStore

  /** How far a block got. `Dropped` is a buffer lost in a crash before it
      became one. */
  datatype Stage = Dropped | Pending | PayloadDone | Done(meta: BlockMeta)

  /** A block under way; `alive` until the process writing it dies. */
  datatype Job = Job(id: string, key: Key, lines: seq<LogLine>, stage: Stage, alive: bool)

  /** `jobs` in the order their lines left the buffers; `accepted` all lines
      of each key that Append ever accepted. */
  datatype State = State(buffers: Buffers, jobs: seq<Job>, files: seq<Entry>, accepted: map<Key, seq<LogLine>>)

  /** `Crash` lists the keys that have a buffer, in any order. */
  datatype Step =
    | AcceptLine(line: LogLine, now: int)
    | Take(key: Key, id: string)
    | WritePayload(job: nat)
    | WriteMeta(job: nat)
    | Crash(order: seq<Key>)

  type Zstd = string -> seq<int>

  ghost predicate HasId(jobs: seq<Job>, id: string) {
    exists i :: 0 <= i < |jobs| && !jobs[i].stage.Dropped? && jobs[i].id == id
  }

  ghost predicate Enabled(s: State, step: Step) {
    match step
    case AcceptLine(l, _) => ValidLine(l)
    case Take(k, id) => k in s.buffers && !HasId(s.jobs, id)
    case WritePayload(i) => i < |s.jobs| && s.jobs[i].alive && s.jobs[i].stage.Pending?
    case WriteMeta(i) => i < |s.jobs| && s.jobs[i].alive && s.jobs[i].stage.PayloadDone? && s.jobs[i].lines != []
    case Crash(order) => NoRepeats(order) && forall k :: k in order <==> k in s.buffers
  }

  function AcceptedOf(accepted: map<Key, seq<LogLine>>, k: Key): seq<LogLine> {
    if k in accepted then accepted[k] else []
  }

  /** The lines of one key that left its buffer, in order. */
  function TakenOf(jobs: seq<Job>, k: Key): seq<LogLine> {
    if jobs == [] then []
    else
      var j := jobs[|jobs| - 1];
      TakenOf(jobs[..|jobs| - 1], k) + (if j.key == k then j.lines else [])
  }

  function Killed(jobs: seq<Job>): (r: seq<Job>)
    ensures |r| == |jobs| && forall i :: 0 <= i < |jobs| ==> r[i] == jobs[i].(alive := false)
  {
    seq(|jobs|, i requires 0 <= i < |jobs| => jobs[i].(alive := false))
  }

  /** The buffers a crash loses. */
  function DroppedJobs(order: seq<Key>, buffers: Buffers): (r: seq<Job>)
    ensures |r| == |order|
    ensures forall i :: 0 <= i < |order| ==> r[i] == Job("", order[i], LinesOf(buffers, order[i]), Dropped, false)
  {
    seq(|order|, i requires 0 <= i < |order| => Job("", order[i], LinesOf(buffers, order[i]), Dropped, false))
  }

  function Payload(z: Zstd, j: Job): Entry {
    PayloadFile(j.id, z(Text(j.lines)))
  }

  function Sidecar(z: Zstd, j: Job): BlockMeta
    requires j.lines != []
  {
    MetaOf(j.id, j.key.hostId, j.key.source, j.lines, z)
  }

  function Apply(z: Zstd, s: State, step: Step): State
    requires step.Take? ==> step.key in s.buffers
    requires (step.WritePayload? || step.WriteMeta?) ==> step.job < |s.jobs|
    requires step.WriteMeta? ==> s.jobs[step.job].lines != []
  {
    match step
    case AcceptLine(l, now) =>
      s.(buffers := Accepted(s.buffers, l, now),
         accepted := s.accepted[KeyOf(l) := AcceptedOf(s.accepted, KeyOf(l)) + [l]])
    case Take(k, id) =>
      s.(buffers := s.buffers - {k}, jobs := s.jobs + [Job(id, k, s.buffers[k].lines, Pending, true)])
    case WritePayload(i) =>
      var j := s.jobs[i];
      s.(jobs := s.jobs[i := j.(stage := PayloadDone)], files := s.files + [Payload(z, j)])
    case WriteMeta(i) =>
      var j := s.jobs[i];
      var m := Sidecar(z, j);
      s.(jobs := s.jobs[i := j.(stage := Done(m))], files := s.files + [MetaFile(j.id, Json(m))])
    case Crash(order) =>
      s.(buffers := map[], jobs := Killed(s.jobs) + DroppedJobs(order, s.buffers))
  }

  // ----- Every accepted line is accounted for

  /** Each key's accepted lines are what left its buffer, in order, then its
      buffer. */
  ghost predicate Conserved(s: State) {
    forall k :: AcceptedOf(s.accepted, k) == TakenOf(s.jobs, k) + LinesOf(s.buffers, k)
  }

  lemma {:induction false} TakenConcat(a: seq<Job>, b: seq<Job>, k: Key)
    ensures TakenOf(a + b, k) == TakenOf(a, k) + TakenOf(b, k)
    decreases |b|
  {
    if b == [] {
      assert a + b == a;
    } else {
      assert (a + b)[..|a + b| - 1] == a + b[..|b| - 1];
      TakenConcat(a, b[..|b| - 1], k);
    }
  }

  /** Progress of jobs does not touch their lines. */
  lemma {:induction false} TakenSame(a: seq<Job>, b: seq<Job>, k: Key)
    requires |a| == |b| && forall i :: 0 <= i < |a| ==> a[i].key == b[i].key && a[i].lines == b[i].lines
    ensures TakenOf(a, k) == TakenOf(b, k)
    decreases |a|
  {
    if a != [] {
      TakenSame(a[..|a| - 1], b[..|b| - 1], k);
    }
  }

  lemma {:induction false} TakenDropped(order: seq<Key>, buffers: Buffers, k: Key)
    requires NoRepeats(order)
    ensures TakenOf(DroppedJobs(order, buffers), k) == if k in order then LinesOf(buffers, k) else []
    decreases |order|
  {
    if order != [] {
      var front, last := order[..|order| - 1], order[|order| - 1];
      assert order == front + [last] && last !in front && (k in order <==> k in front || k == last);
      var jobs := DroppedJobs(order, buffers);
      assert jobs[..|front|] == DroppedJobs(front, buffers);
      assert jobs[|front|] == Job("", last, LinesOf(buffers, last), Dropped, false);
      TakenDropped(front, buffers, k);
    }
  }

  lemma {:induction false} AcceptConserves(s: State, l: LogLine, now: int)
    requires Conserved(s)
    ensures Conserved(s.(buffers := Accepted(s.buffers, l, now),
                         accepted := s.accepted[KeyOf(l) := AcceptedOf(s.accepted, KeyOf(l)) + [l]]))
  {
    AcceptedLines(s.buffers, l, now);
    var s' := s.(buffers := Accepted(s.buffers, l, now),
                 accepted := s.accepted[KeyOf(l) := AcceptedOf(s.accepted, KeyOf(l)) + [l]]);
    forall k ensures AcceptedOf(s'.accepted, k) == TakenOf(s.jobs, k) + LinesOf(s'.buffers, k) {
      if k == KeyOf(l) {
        Regroup(TakenOf(s.jobs, k), LinesOf(s.buffers, k), [l]);
      }
    }
  }

  lemma {:induction false} TakeConserves(s: State, k: Key, id: string)
    requires Conserved(s) && k in s.buffers
    ensures Conserved(s.(buffers := s.buffers - {k}, jobs := s.jobs + [Job(id, k, s.buffers[k].lines, Pending, true)]))
  {
    var j := Job(id, k, s.buffers[k].lines, Pending, true);
    forall x ensures AcceptedOf(s.accepted, x) == TakenOf(s.jobs + [j], x) + LinesOf(s.buffers - {k}, x) {
      assert (s.jobs + [j])[..|s.jobs|] == s.jobs;
    }
  }

  lemma {:induction false} ProgressConserves(s: State, s': State)
    requires Conserved(s) && s'.buffers == s.buffers && s'.accepted == s.accepted
    requires |s'.jobs| == |s.jobs|
    requires forall i :: 0 <= i < |s.jobs| ==> s'.jobs[i].key == s.jobs[i].key && s'.jobs[i].lines == s.jobs[i].lines
    ensures Conserved(s')
  {
    forall k ensures AcceptedOf(s'.accepted, k) == TakenOf(s'.jobs, k) + LinesOf(s'.buffers, k) {
      TakenSame(s'.jobs, s.jobs, k);
    }
  }

  lemma {:induction false} CrashConserves(s: State, order: seq<Key>)
    requires Conserved(s) && NoRepeats(order) && forall k :: k in order <==> k in s.buffers
    ensures Conserved(s.(buffers := map[], jobs := Killed(s.jobs) + DroppedJobs(order, s.buffers)))
  {
    var jobs := Killed(s.jobs) + DroppedJobs(order, s.buffers);
    forall k ensures AcceptedOf(s.accepted, k) == TakenOf(jobs, k) + LinesOf(map[], k) {
      TakenConcat(Killed(s.jobs), DroppedJobs(order, s.buffers), k);
      TakenSame(Killed(s.jobs), s.jobs, k);
      TakenDropped(order, s.buffers, k);
      assert TakenOf(jobs, k) + [] == TakenOf(jobs, k);
    }
  }

  // ----- The files

  /** The block's text is on disk. */
  predicate Stored(j: Job) {
    j.stage.PayloadDone? || j.stage.Done?
  }

  /** Its lines died with the process. */
  predicate Lost(j: Job) {
    j.stage.Dropped? || (j.stage.Pending? && !j.alive)
  }

  /** It is still going to be written. */
  predicate UnderWay(j: Job) {
    j.stage.Pending? && j.alive
  }

  ghost predicate DistinctIds(jobs: seq<Job>) {
    forall i, j :: 0 <= i < j < |jobs| && !jobs[i].stage.Dropped? && !jobs[j].stage.Dropped? ==>
      jobs[i].id != jobs[j].id
  }

  /** A stored block's payload is there, a finished one's metadata is that of
      its lines. */
  ghost predicate JobOk(z: Zstd, files: seq<Entry>, j: Job) {
    && j.lines != []
    && (Stored(j) ==> Payload(z, j) in files)
    && (j.stage.Done? ==> j.stage.meta == Sidecar(z, j))
  }

  ghost predicate AllOk(z: Zstd, files: seq<Entry>, jobs: seq<Job>) {
    forall i :: 0 <= i < |jobs| ==> JobOk(z, files, jobs[i])
  }

  /** The sidecars are those of finished blocks. */
  ghost predicate MetasOk(jobs: seq<Job>, metas: map<string, Content>) {
    && (forall id :: id in metas ==> exists i :: 0 <= i < |jobs| && jobs[i].id == id && jobs[i].stage.Done?)
    && (forall i :: 0 <= i < |jobs| && jobs[i].stage.Done? ==>
          jobs[i].id in metas && metas[jobs[i].id] == Json(jobs[i].stage.meta))
  }

  /** The payloads are those of blocks that got that far. */
  ghost predicate PayloadsOk(jobs: seq<Job>, payloads: set<string>) {
    && (forall id :: id in payloads ==> exists i :: 0 <= i < |jobs| && jobs[i].id == id && Stored(jobs[i]))
    && (forall i :: 0 <= i < |jobs| && Stored(jobs[i]) ==> jobs[i].id in payloads)
  }

  ghost predicate Inv(z: Zstd, s: State) {
    && BuffersOk(s.buffers) && Conserved(s)
    && DistinctIds(s.jobs) && AllOk(z, s.files, s.jobs)
    && MetasOk(s.jobs, Metas(s.files)) && PayloadsOk(s.jobs, Payloads(s.files))
  }

  ghost predicate Init(s: State) {
    s == State(map[], [], [], map[])
  }

  lemma {:induction false} FileAppend(files: seq<Entry>, f: Entry)
    ensures Metas(files + [f]) == if f.MetaFile? then Metas(files)[f.id := f.content] else Metas(files)
    ensures Payloads(files + [f]) == if f.PayloadFile? then Payloads(files) + {f.id} else Payloads(files)
  {
    assert (files + [f])[..|files|] == files;
  }

  /** A job keeps its place when only its liveness changes or others follow. */
  lemma {:induction false} MetasOkSame(a: seq<Job>, b: seq<Job>, metas: map<string, Content>)
    requires MetasOk(a, metas) && |a| <= |b|
    requires forall i :: 0 <= i < |a| ==> b[i].id == a[i].id && b[i].stage == a[i].stage
    requires forall i :: |a| <= i < |b| ==> !b[i].stage.Done?
    ensures MetasOk(b, metas)
  {
    forall id | id in metas ensures exists i :: 0 <= i < |b| && b[i].id == id && b[i].stage.Done? {
      var i :| 0 <= i < |a| && a[i].id == id && a[i].stage.Done?;
      assert b[i].id == id;
    }
  }

  lemma {:induction false} PayloadsOkSame(a: seq<Job>, b: seq<Job>, payloads: set<string>)
    requires PayloadsOk(a, payloads) && |a| <= |b|
    requires forall i :: 0 <= i < |a| ==> b[i].id == a[i].id && Stored(b[i]) == Stored(a[i])
    requires forall i :: |a| <= i < |b| ==> !Stored(b[i])
    ensures PayloadsOk(b, payloads)
  {
    forall id | id in payloads ensures exists i :: 0 <= i < |b| && b[i].id == id && Stored(b[i]) {
      var i :| 0 <= i < |a| && a[i].id == id && Stored(a[i]);
      assert b[i].id == id;
    }
  }

  lemma {:induction false} PayloadAdded(jobs: seq<Job>, payloads: set<string>, n: nat)
    requires PayloadsOk(jobs, payloads) && n < |jobs| && jobs[n].stage.Pending?
    ensures PayloadsOk(jobs[n := jobs[n].(stage := PayloadDone)], payloads + {jobs[n].id})
  {
    var later := jobs[n := jobs[n].(stage := PayloadDone)];
    assert Stored(later[n]) && later[n].id == jobs[n].id;
    forall id | id in payloads ensures exists i :: 0 <= i < |later| && later[i].id == id && Stored(later[i]) {
      var i :| 0 <= i < |jobs| && jobs[i].id == id && Stored(jobs[i]);
      assert later[i] == jobs[i];
    }
  }

  lemma {:induction false} MetaAdded(jobs: seq<Job>, metas: map<string, Content>, n: nat, m: BlockMeta)
    requires MetasOk(jobs, metas) && DistinctIds(jobs) && n < |jobs| && jobs[n].stage.PayloadDone?
    ensures MetasOk(jobs[n := jobs[n].(stage := Done(m))], metas[jobs[n].id := Json(m)])
  {
    var later := jobs[n := jobs[n].(stage := Done(m))];
    assert later[n].stage.Done? && later[n].id == jobs[n].id;
    forall id | id in metas ensures exists i :: 0 <= i < |later| && later[i].id == id && later[i].stage.Done? {
      var i :| 0 <= i < |jobs| && jobs[i].id == id && jobs[i].stage.Done?;
      assert later[i] == jobs[i];
    }
  }

  /** Advancing one job keeps the others in order. */
  lemma {:induction false} JobAdvanced(z: Zstd, files: seq<Entry>, jobs: seq<Job>, n: nat, j: Job, f: Entry)
    requires DistinctIds(jobs) && AllOk(z, files, jobs)
    requires n < |jobs| && j.id == jobs[n].id && !jobs[n].stage.Dropped? && JobOk(z, files + [f], j)
    ensures DistinctIds(jobs[n := j]) && AllOk(z, files + [f], jobs[n := j])
  {
    JobsOkMore(z, files, f, jobs);
  }

  /** More files keep what is stored. */
  lemma {:induction false} JobsOkMore(z: Zstd, files: seq<Entry>, f: Entry, jobs: seq<Job>)
    requires AllOk(z, files, jobs)
    ensures AllOk(z, files + [f], jobs)
  {
    assert forall e :: e in files ==> e in files + [f];
  }

  // ----- Every step keeps the invariant

  lemma {:induction false} TakeStep(z: Zstd, s: State, k: Key, id: string)
    requires Inv(z, s) && Enabled(s, Take(k, id))
    ensures Inv(z, Apply(z, s, Take(k, id)))
  {
    var s' := Apply(z, s, Take(k, id));
    TakeConserves(s, k, id);
    MetasOkSame(s.jobs, s'.jobs, Metas(s.files));
    PayloadsOkSame(s.jobs, s'.jobs, Payloads(s.files));
    assert BufferOk(k, s.buffers[k]);
    assert DistinctIds(s'.jobs);
  }

  lemma {:induction false} PayloadStep(z: Zstd, s: State, n: nat)
    requires Inv(z, s) && Enabled(s, WritePayload(n))
    ensures Inv(z, Apply(z, s, WritePayload(n)))
  {
    var s', f, j := Apply(z, s, WritePayload(n)), Payload(z, s.jobs[n]), s.jobs[n].(stage := PayloadDone);
    ProgressConserves(s, s');
    PayloadAdded(s.jobs, Payloads(s.files), n);
    SameMetas(s.jobs, Metas(s.files), n, j);
    FileAppend(s.files, f);
    assert JobOk(z, s.files, s.jobs[n]) && f in s.files + [f];
    JobAdvanced(z, s.files, s.jobs, n, j, f);
  }

  lemma {:induction false} SameMetas(jobs: seq<Job>, metas: map<string, Content>, n: nat, j: Job)
    requires MetasOk(jobs, metas) && n < |jobs| && !jobs[n].stage.Done? && !j.stage.Done?
    ensures MetasOk(jobs[n := j], metas)
  {
    var later := jobs[n := j];
    forall id | id in metas ensures exists i :: 0 <= i < |later| && later[i].id == id && later[i].stage.Done? {
      var i :| 0 <= i < |jobs| && jobs[i].id == id && jobs[i].stage.Done?;
      assert later[i] == jobs[i];
    }
  }

  lemma {:induction false} MetaStep(z: Zstd, s: State, n: nat)
    requires Inv(z, s) && Enabled(s, WriteMeta(n))
    ensures Inv(z, Apply(z, s, WriteMeta(n)))
  {
    var s', m := Apply(z, s, WriteMeta(n)), Sidecar(z, s.jobs[n]);
    var f, j := MetaFile(s.jobs[n].id, Json(m)), s.jobs[n].(stage := Done(m));
    ProgressConserves(s, s');
    MetaAdded(s.jobs, Metas(s.files), n, m);
    PayloadsOkSame(s.jobs, s'.jobs, Payloads(s.files));
    FileAppend(s.files, f);
    assert JobOk(z, s.files, s.jobs[n]);
    JobAdvanced(z, s.files, s.jobs, n, j, f);
  }

  lemma {:induction false} CrashJobs(z: Zstd, s: State, order: seq<Key>)
    requires Inv(z, s) && Enabled(s, Crash(order))
    ensures var jobs := Apply(z, s, Crash(order)).jobs;
            DistinctIds(jobs) && AllOk(z, s.files, jobs)
  {
    var jobs := Apply(z, s, Crash(order)).jobs;
    forall i | 0 <= i < |jobs| ensures JobOk(z, s.files, jobs[i]) {
      if i < |s.jobs| {
        assert JobOk(z, s.files, s.jobs[i]) && jobs[i] == s.jobs[i].(alive := false);
      } else {
        var k := order[i - |s.jobs|];
        assert k in order && BufferOk(k, s.buffers[k]);
      }
    }
  }

  lemma {:induction false} CrashStep(z: Zstd, s: State, order: seq<Key>)
    requires Inv(z, s) && Enabled(s, Crash(order))
    ensures Inv(z, Apply(z, s, Crash(order)))
  {
    CrashConserves(s, order);
    CrashJobs(z, s, order);
    MetasOkSame(s.jobs, Apply(z, s, Crash(order)).jobs, Metas(s.files));
    PayloadsOkSame(s.jobs, Apply(z, s, Crash(order)).jobs, Payloads(s.files));
  }

  lemma {:induction false} StepKeepsInv(z: Zstd, s: State, step: Step)
    requires Inv(z, s) && Enabled(s, step)
    ensures Inv(z, Apply(z, s, step))
  {
    match step
    case AcceptLine(l, now) =>
      AcceptedOk(s.buffers, l, now);
      AcceptConserves(s, l, now);
    case Take(k, id) => TakeStep(z, s, k, id);
    case WritePayload(n) => PayloadStep(z, s, n);
    case WriteMeta(n) => MetaStep(z, s, n);
    case Crash(order) => CrashStep(z, s, order);
  }

  // ----- Whole runs

  ghost predicate IsRun(z: Zstd, states: seq<State>, steps: seq<Step>) {
    IsPath(z, states, steps) && Init(states[0])
  }

  ghost predicate IsPath(z: Zstd, states: seq<State>, steps: seq<Step>) {
    && |states| == |steps| + 1
    && forall i :: 0 <= i < |steps| ==> Enabled(states[i], steps[i]) && states[i + 1] == Apply(z, states[i], steps[i])
  }

  lemma {:induction false} RunKeepsInv(z: Zstd, states: seq<State>, steps: seq<Step>, i: nat)
    requires IsRun(z, states, steps) && i < |states|
    ensures Inv(z, states[i])
  {
    if i > 0 {
      RunKeepsInv(z, states, steps, i - 1);
      StepKeepsInv(z, states[i - 1], steps[i - 1]);
    } else {
      assert TakenOf([], Key("", "")) == [];
    }
  }

  /** In every run, crashes included: a key's accepted lines are, in order,
      its blocks and losses and then its buffer; each of those is stored, lost
      or still to be written, and not two of these; what is stored is on disk;
      and each finished block's metadata describes exactly its lines. */
  lemma {:induction false} LinesAccounted(z: Zstd, states: seq<State>, steps: seq<Step>, i: nat)
    requires IsRun(z, states, steps) && i < |states|
    ensures Conserved(states[i])
    ensures forall j :: j in states[i].jobs ==>
              && (Stored(j) || Lost(j) || UnderWay(j)) && !(Stored(j) && Lost(j))
              && (Stored(j) ==> Payload(z, j) in states[i].files)
              && (j.stage.Done? ==> Describes(j.stage.meta, j.id, j.key.hostId, j.key.source, j.lines, z))
  {
    RunKeepsInv(z, states, steps, i);
    forall j | j in states[i].jobs && j.stage.Done?
      ensures Describes(j.stage.meta, j.id, j.key.hostId, j.key.source, j.lines, z)
    {
      var n :| 0 <= n < |states[i].jobs| && states[i].jobs[n] == j;
      assert JobOk(z, states[i].files, j);
      MetaDescribes(j.id, j.key.hostId, j.key.source, j.lines, z);
    }
  }

  /** Without a crash nothing is lost. */
  lemma {:induction false} NothingLost(z: Zstd, states: seq<State>, steps: seq<Step>, i: nat)
    requires IsRun(z, states, steps) && i < |states| && forall n :: 0 <= n < i ==> !steps[n].Crash?
    ensures forall j :: j in states[i].jobs ==> j.alive && !Lost(j)
  {
    if i > 0 {
      NothingLost(z, states, steps, i - 1);
      var a, b := states[i - 1].jobs, states[i].jobs;
      forall j | j in b ensures j.alive && !Lost(j) {
        var n :| 0 <= n < |b| && b[n] == j;
        assert n < |a| ==> a[n] in a;
      }
    }
  }

  /** A crash loses exactly the buffers and the blocks without a payload. */
  lemma {:induction false} CrashLoses(z: Zstd, s: State, order: seq<Key>)
    requires Inv(z, s) && Enabled(s, Crash(order))
    ensures var s' := Apply(z, s, Crash(order));
            && s'.files == s.files && s'.accepted == s.accepted && |s'.jobs| == |s.jobs| + |order|
            && (forall n :: 0 <= n < |s.jobs| ==>
                  s'.jobs[n].lines == s.jobs[n].lines && s'.jobs[n].key == s.jobs[n].key
                  && (Lost(s'.jobs[n]) <==> !Stored(s.jobs[n])) && (Stored(s'.jobs[n]) <==> Stored(s.jobs[n])))
            && (forall n :: 0 <= n < |order| ==>
                  Lost(s'.jobs[|s.jobs| + n]) && s'.jobs[|s.jobs| + n].key == order[n]
                  && s'.jobs[|s.jobs| + n].lines == s.buffers[order[n]].lines)
  {
    var s' := Apply(z, s, Crash(order));
    forall n | 0 <= n < |s.jobs| ensures s'.jobs[n] == s.jobs[n].(alive := false) {
      assert s'.jobs[n] == Killed(s.jobs)[n];
    }
    forall n | 0 <= n < |order|
      ensures order[n] in s.buffers
      ensures s'.jobs[|s.jobs| + n] == Job("", order[n], s.buffers[order[n]].lines, Dropped, false)
    {
      assert order[n] in order && s'.jobs[|s.jobs| + n] == DroppedJobs(order, s.buffers)[n];
    }
  }
}
