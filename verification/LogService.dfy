/** Operations of a real store are runs of the log store's atomic steps. */
module LogService {
  import opened Schema
  import opened LogBlock
  import opened LogIndex
  import opened LogStore
  import opened LogRuns

  datatype Op = Log(line: LogLine, now: int, later: int) | FlushKey(key: Key) | FlushEvery

  ghost predicate NoCrash(steps: seq<Step>) {
    forall i :: 0 <= i < |steps| ==> !steps[i].Crash?
  }

  /** Steps without a crash lead from one state to the other. */
  ghost predicate Leads(z: Zstd, s: State, steps: seq<Step>, s': State) {
    NoCrash(steps) && exists states :: IsPath(z, states, steps) && states[0] == s && states[|steps|] == s'
  }

  lemma {:induction false} PathOn(z: Zstd, a: seq<State>, x: seq<Step>, b: seq<State>, y: seq<Step>)
    requires IsPath(z, a, x) && IsPath(z, b, y) && a[|x|] == b[0]
    ensures IsPath(z, a[..|x|] + b, x + y)
  {
    var states, steps := a[..|x|] + b, x + y;
    forall i | 0 <= i < |steps|
      ensures Enabled(states[i], steps[i]) && states[i + 1] == Apply(z, states[i], steps[i])
    {
      if i < |x| {
        assert states[i] == a[i] && steps[i] == x[i] && states[i + 1] == a[i + 1];
      } else {
        assert states[i] == b[i - |x|] && steps[i] == y[i - |x|] && states[i + 1] == b[i - |x| + 1];
      }
    }
  }

  lemma {:induction false} LeadsOn(z: Zstd, a: State, x: seq<Step>, b: State, y: seq<Step>, c: State)
    requires Leads(z, a, x, b) && Leads(z, b, y, c)
    ensures Leads(z, a, x + y, c)
  {
    var p :| IsPath(z, p, x) && p[0] == a && p[|x|] == b;
    var q :| IsPath(z, q, y) && q[0] == b && q[|y|] == c;
    PathOn(z, p, x, q, y);
    var states := p[..|x|] + q;
    assert states[0] == a && states[|x + y|] == c;
  }

  lemma {:induction false} LeadsNowhere(z: Zstd, s: State)
    ensures Leads(z, s, [], s)
  {
    assert IsPath(z, [s], []);
  }

  lemma {:induction false} LeadsByOne(z: Zstd, s: State, step: Step)
    requires Enabled(s, step) && !step.Crash?
    ensures Leads(z, s, [step], Apply(z, s, step))
  {
    assert IsPath(z, [s, Apply(z, s, step)], [step]);
  }

  // ----- Writing one block

  function FlushSteps(s: State, k: Key, id: string): seq<Step> {
    [Take(k, id), WritePayload(|s.jobs|), WriteMeta(|s.jobs|)]
  }

  /** The state once the block of a buffer is written. */
  function Flushed(z: Zstd, s: State, k: Key, id: string): State
    requires k in s.buffers && s.buffers[k].lines != []
  {
    var lines := s.buffers[k].lines;
    var meta := MetaOf(id, k.hostId, k.source, lines, z);
    State(s.buffers - {k}, s.jobs + [Job(id, k, lines, Done(meta), true)],
          s.files + BlockFiles(meta, lines, z), s.accepted)
  }

  lemma {:induction false} FlushLeads(z: Zstd, s: State, k: Key, id: string)
    requires k in s.buffers && s.buffers[k].lines != [] && !HasId(s.jobs, id)
    ensures Leads(z, s, FlushSteps(s, k, id), Flushed(z, s, k, id))
  {
    var n, j := |s.jobs|, Job(id, k, s.buffers[k].lines, Pending, true);
    var s1 := Apply(z, s, Take(k, id));
    assert s1.jobs[n] == j;
    var s2 := Apply(z, s1, WritePayload(n));
    assert s2.jobs == s.jobs + [j.(stage := PayloadDone)];
    var s3 := Apply(z, s2, WriteMeta(n));
    assert s3.jobs == s.jobs + [j.(stage := Done(Sidecar(z, j)))];
    assert s3.files == s.files + BlockFiles(Sidecar(z, j), j.lines, z);
    assert s3 == Flushed(z, s, k, id);
    assert IsPath(z, [s, s1, s2, s3], FlushSteps(s, k, id));
  }

  ghost predicate Mirrors(store: Store, s: State)
    reads store
  {
    store.buffers == s.buffers && store.files == s.files
  }

  /** No block id is drawn twice. */
  ghost predicate Unique(ids: nat -> string) {
    forall i: nat, j: nat :: i < j ==> ids(i) != ids(j)
  }

  ghost predicate Drawn(ids: nat -> string, n: nat, id: string) {
    exists m: nat :: m < n && id == ids(m)
  }

  /** Every block is finished, under one of the first `n` ids. */
  ghost predicate Settled(s: State, ids: nat -> string, n: nat) {
    forall j :: j in s.jobs ==> j.stage.Done? && j.alive && Drawn(ids, n, j.id)
  }

  function ValidLines(ops: seq<Op>, k: Key): seq<LogLine> {
    if ops == [] then []
    else
      var op := ops[|ops| - 1];
      ValidLines(ops[..|ops| - 1], k)
      + if op.Log? && ValidLine(op.line) && KeyOf(op.line) == k then [op.line] else []
  }

  /** When those lines were logged. */
  function Times(ops: seq<Op>, k: Key): (r: seq<int>)
    ensures |r| == |ValidLines(ops, k)|
  {
    if ops == [] then []
    else
      var op := ops[|ops| - 1];
      Times(ops[..|ops| - 1], k) + if op.Log? && ValidLine(op.line) && KeyOf(op.line) == k then [op.now] else []
  }

  /** An operation leaves a buffer alone, takes it away, or adds its line to
      it; then the buffer is still too small and too young to be written. */
  ghost predicate BuffersStep(before: Buffers, op: Op, after: Buffers, maxBytes: int, maxAge: int) {
    forall k :: k in after ==>
      || (k in before && after[k] == before[k] && !(op.Log? && ValidLine(op.line) && KeyOf(op.line) == k))
      || (op.Log? && ValidLine(op.line) && KeyOf(op.line) == k
          && after[k].lines == LinesOf(before, k) + [op.line]
          && after[k].firstAt == (if k in before then before[k].firstAt else op.now)
          && |Text(after[k].lines)| < maxBytes && op.later - after[k].firstAt < maxAge)
  }

  lemma {:induction false} LogBuffers(before: Buffers, l: LogLine, now: int, later: int, due: bool, after: Buffers,
                                      maxBytes: int, maxAge: int)
    requires ValidLine(l)
    requires var grown := Accepted(before, l, now);
             && after == (if due then grown - {KeyOf(l)} else grown)
             && (!due ==> |Text(grown[KeyOf(l)].lines)| < maxBytes && later - grown[KeyOf(l)].firstAt < maxAge)
    ensures BuffersStep(before, Log(l, now, later), after, maxBytes, maxAge)
  {
  }

  /** A buffer is below the size limit and dates from its oldest line. */
  ghost predicate TimedBuffer(b: Buffer, times: seq<int>, maxBytes: int) {
    && |Text(b.lines)| < maxBytes
    && 0 < |b.lines| <= |times| && b.firstAt == times[|times| - |b.lines|]
  }

  ghost predicate Timed(buffers: Buffers, ops: seq<Op>, maxBytes: int) {
    forall k :: k in buffers ==> TimedBuffer(buffers[k], Times(ops, k), maxBytes)
  }

  lemma {:induction false} TimedStep(ops: seq<Op>, i: nat, before: Buffers, after: Buffers, maxBytes: int, maxAge: int)
    requires i < |ops| && Timed(before, ops[..i], maxBytes) && BuffersStep(before, ops[i], after, maxBytes, maxAge)
    ensures Timed(after, ops[..i + 1], maxBytes)
  {
    forall k | k in after ensures TimedBuffer(after[k], Times(ops[..i + 1], k), maxBytes) {
      TimesSnoc(ops, i, k);
      var op, times := ops[i], Times(ops[..i], k);
      if op.Log? && ValidLine(op.line) && KeyOf(op.line) == k {
        TimedGrown(before, k, after[k], times, op.now, op.line, maxBytes);
      } else {
        assert times + [] == times;
      }
    }
  }

  lemma {:induction false} TimedGrown(before: Buffers, k: Key, b: Buffer, times: seq<int>, now: int, l: LogLine,
                                      maxBytes: int)
    requires k in before ==> TimedBuffer(before[k], times, maxBytes)
    requires b.lines == LinesOf(before, k) + [l] && |Text(b.lines)| < maxBytes
    requires b.firstAt == if k in before then before[k].firstAt else now
    ensures TimedBuffer(b, times + [now], maxBytes)
  {
  }

  lemma {:induction false} TimesSnoc(ops: seq<Op>, i: nat, k: Key)
    requires i < |ops|
    ensures var op := ops[i];
            Times(ops[..i + 1], k)
            == Times(ops[..i], k) + if op.Log? && ValidLine(op.line) && KeyOf(op.line) == k then [op.now] else []
  {
    assert ops[..i + 1][..i] == ops[..i];
  }

  /** What an operation adds to the accepted lines. */
  ghost predicate Accepts(s: State, op: Op, s': State) {
    forall k :: AcceptedOf(s'.accepted, k)
      == AcceptedOf(s.accepted, k) + if op.Log? && ValidLine(op.line) && KeyOf(op.line) == k then [op.line] else []
  }

  lemma {:induction false} SettledMore(s: State, ids: nat -> string, n: nat, n': nat)
    requires Settled(s, ids, n) && n <= n'
    ensures Settled(s, ids, n')
  {
    forall j | j in s.jobs ensures Drawn(ids, n', j.id) {
      var m: nat :| m < n && j.id == ids(m);
      assert m < n';
    }
  }

  lemma {:induction false} NewId(s: State, ids: nat -> string, n: nat)
    requires Unique(ids) && Settled(s, ids, n)
    ensures !HasId(s.jobs, ids(n))
  {
    forall i | 0 <= i < |s.jobs| ensures s.jobs[i].id != ids(n) {
      assert s.jobs[i] in s.jobs;
      var m: nat :| m < n && s.jobs[i].id == ids(m);
    }
  }

  /** Where writing a buffer out leads. */
  lemma {:induction false} FlushReaches(z: Zstd, s: State, k: Key, ids: nat -> string, n: nat)
      returns (s': State, steps: seq<Step>)
    requires k in s.buffers && s.buffers[k].lines != [] && Unique(ids) && Settled(s, ids, n)
    ensures Leads(z, s, steps, s') && Settled(s', ids, n + 1)
    ensures s'.buffers == s.buffers - {k} && s'.accepted == s.accepted
    ensures var lines := s.buffers[k].lines;
            s'.files == s.files + BlockFiles(MetaOf(ids(n), k.hostId, k.source, lines, z), lines, z)
  {
    NewId(s, ids, n);
    FlushLeads(z, s, k, ids(n));
    s', steps := Flushed(z, s, k, ids(n)), FlushSteps(s, k, ids(n));
    SettledMore(s, ids, n, n + 1);
    assert Drawn(ids, n + 1, ids(n));
  }

  method PerformFlush(store: Store, k: Key, ids: nat -> string, n: nat, ghost s: State)
      returns (ghost s': State, ghost steps: seq<Step>)
    requires Inv(store.zstd, s) && Mirrors(store, s) && Unique(ids) && Settled(s, ids, n)
    modifies store
    ensures Mirrors(store, s') && Settled(s', ids, n + 1) && s'.accepted == s.accepted
    ensures Leads(store.zstd, s, steps, s') && store.buffers == old(store.buffers) - {k}
  {
    s', steps := s, [];
    LeadsNowhere(store.zstd, s);
    SettledMore(s, ids, n, n + 1);
    if k in s.buffers {
      assert BufferOk(k, s.buffers[k]);
      s', steps := FlushReaches(store.zstd, s, k, ids, n);
    }
    var _ := store.Flush(k, ids(n));
    assert k !in s.buffers ==> s.buffers - {k} == s.buffers;
  }

  /** Where writing out the buffers of the first `i` keys leads. */
  lemma {:induction false} EveryReaches(z: Zstd, s: State, order: seq<Key>, metas: seq<BlockMeta>, ids: nat -> string,
                                        n: nat, i: nat) returns (s': State, steps: seq<Step>)
    requires BuffersOk(s.buffers) && Unique(ids) && Settled(s, ids, n) && i <= |order|
    requires NoRepeats(order) && AllWritten(s.buffers, order, metas, ids, n, z)
    ensures Leads(z, s, steps, s') && Settled(s', ids, n + i) && s'.accepted == s.accepted
    ensures s'.buffers == s.buffers - KeysOf(order[..i])
    ensures s'.files == s.files + FilesOf(s.buffers, order[..i], metas[..i], z)
  {
    if i == 0 {
      s', steps := s, [];
      LeadsNowhere(z, s);
      assert s.buffers - KeysOf(order[..0]) == s.buffers && s.files + [] == s.files;
    } else {
      var m := i - 1;
      var middle, before := EveryReaches(z, s, order, metas, ids, n, m);
      assert Written(s.buffers, order[m], metas[m], ids(n + m), z);
      LastOf(s.buffers, order, m);
      WrittenAt(s.buffers, middle.buffers, order, metas, ids, n, z, m);
      var more;
      s', more := FlushReaches(z, middle, order[m], ids, n + m);
      LeadsOn(z, s, before, middle, more, s');
      steps := before + more;
      LastFiles(s.buffers, s.files, order, metas, m, z);
    }
  }

  lemma {:induction false} WrittenAt(start: Buffers, buffers: Buffers, order: seq<Key>, metas: seq<BlockMeta>,
                                     ids: nat -> string, n: nat, z: Zstd, m: nat)
    requires BuffersOk(start) && AllWritten(start, order, metas, ids, n, z) && m < |order|
    requires order[m] in start && order[m] in buffers && buffers[order[m]] == start[order[m]]
    ensures var k := order[m];
            && buffers[k].lines != []
            && BlockFiles(MetaOf(ids(n + m), k.hostId, k.source, buffers[k].lines, z), buffers[k].lines, z)
            == BlockFiles(metas[m], LinesOf(start, k), z)
  {
    assert Written(start, order[m], metas[m], ids(n + m), z) && BufferOk(order[m], start[order[m]]);
  }

  lemma {:induction false} LastOf(buffers: Buffers, order: seq<Key>, m: nat)
    requires NoRepeats(order) && m < |order| && order[m] in buffers
    ensures order[m] in buffers - KeysOf(order[..m]) && (buffers - KeysOf(order[..m]))[order[m]] == buffers[order[m]]
    ensures (buffers - KeysOf(order[..m])) - {order[m]} == buffers - KeysOf(order[..m + 1])
  {
    assert order[..m + 1] == order[..m] + [order[m]];
    assert KeysOf(order[..m + 1]) == KeysOf(order[..m]) + {order[m]};
  }

  lemma {:induction false} LastFiles(buffers: Buffers, files: seq<Entry>, order: seq<Key>, metas: seq<BlockMeta>,
                                     m: nat, z: Zstd)
    requires m < |order| == |metas|
    ensures files + FilesOf(buffers, order[..m + 1], metas[..m + 1], z)
         == files + FilesOf(buffers, order[..m], metas[..m], z) + BlockFiles(metas[m], LinesOf(buffers, order[m]), z)
  {
    assert order[..m + 1][..m] == order[..m] && metas[..m + 1][..m] == metas[..m];
  }

  lemma {:induction false} AllReaches(z: Zstd, s: State, order: seq<Key>, metas: seq<BlockMeta>, ids: nat -> string,
                                      n: nat) returns (s': State, steps: seq<Step>)
    requires BuffersOk(s.buffers) && Unique(ids) && Settled(s, ids, n)
    requires NoRepeats(order) && AllWritten(s.buffers, order, metas, ids, n, z)
    requires forall k :: k in order <==> k in s.buffers
    ensures Leads(z, s, steps, s') && Settled(s', ids, n + |metas|) && s'.accepted == s.accepted
    ensures s'.buffers == map[] && s'.files == s.files + FilesOf(s.buffers, order, metas, z)
  {
    var keys, records := order[..|order|], metas[..|order|];
    assert keys == order && records == metas;
    NoneBut(s.buffers, keys);
    s', steps := EveryReaches(z, s, order, metas, ids, n, |order|);
  }

  lemma {:induction false} NoneBut(buffers: Buffers, order: seq<Key>)
    requires forall k :: k in order <==> k in buffers
    ensures buffers - KeysOf(order) == map[]
  {
  }

  method PerformFlushAll(store: Store, ids: nat -> string, n: nat, ghost s: State)
      returns (n': nat, ghost s': State, ghost steps: seq<Step>)
    requires Inv(store.zstd, s) && Mirrors(store, s) && Unique(ids) && Settled(s, ids, n)
    modifies store
    ensures Mirrors(store, s') && Settled(s', ids, n') && s'.accepted == s.accepted && store.buffers == map[]
    ensures Leads(store.zstd, s, steps, s')
  {
    var metas;
    ghost var order;
    metas, order := store.FlushAll(ids, n);
    n' := n + |metas|;
    s', steps := AllReaches(store.zstd, s, order, metas, ids, n);
  }

  /** Where buffering a line leads. */
  lemma {:induction false} AcceptReaches(z: Zstd, s: State, l: LogLine, now: int) returns (s': State)
    requires ValidLine(l)
    ensures Leads(z, s, [AcceptLine(l, now)], s')
    ensures s'.buffers == Accepted(s.buffers, l, now) && s'.files == s.files && s'.jobs == s.jobs
    ensures forall k :: AcceptedOf(s'.accepted, k) == AcceptedOf(s.accepted, k) + if KeyOf(l) == k then [l] else []
  {
    s' := Apply(z, s, AcceptLine(l, now));
    LeadsByOne(z, s, AcceptLine(l, now));
  }

  /** Where an Append leads: the line is buffered, and if due its buffer is
      written out. */
  lemma {:induction false} LogReaches(z: Zstd, s: State, l: LogLine, now: int, later: int, due: bool,
                                      ids: nat -> string, n: nat) returns (s': State, steps: seq<Step>)
    requires ValidLine(l) && Unique(ids) && Settled(s, ids, n)
    ensures Leads(z, s, steps, s') && Settled(s', ids, n + 1)
    ensures Accepts(s, Log(l, now, later), s')
    ensures var grown, k := Accepted(s.buffers, l, now), KeyOf(l);
            var meta := MetaOf(ids(n), k.hostId, k.source, grown[k].lines, z);
            && s'.buffers == (if due then grown - {k} else grown)
            && s'.files == s.files + if due then BlockFiles(meta, grown[k].lines, z) else []
  {
    var grown := AcceptReaches(z, s, l, now);
    s', steps := grown, [AcceptLine(l, now)];
    SettledMore(grown, ids, n, n + 1);
    if due {
      var more;
      s', more := FlushReaches(z, grown, KeyOf(l), ids, n);
      LeadsOn(z, s, steps, grown, more, s');
      steps := steps + more;
    }
  }

  /** Append of a valid line, and whether that wrote its buffer out. */
  method AppendLine(store: Store, l: LogLine, now: int, later: int, id: string) returns (ghost due: bool)
    requires BuffersOk(store.buffers) && ValidLine(l)
    modifies store
    ensures var grown, k := Accepted(old(store.buffers), l, now), KeyOf(l);
            && store.buffers == (if due then grown - {k} else grown)
            && grown[k].lines != []
            && store.files == old(store.files)
                              + if due then BlockFiles(MetaOf(id, k.hostId, k.source, grown[k].lines, store.zstd),
                                                       grown[k].lines, store.zstd) else []
    ensures BuffersStep(old(store.buffers), Log(l, now, later), store.buffers, store.maxBytes, store.maxAge)
  {
    ghost var before := store.buffers;
    var _, meta := store.Append(l, now, later, id);
    due := meta.Some?;
    assert old(store.files) + [] == old(store.files);
    LogBuffers(before, l, now, later, due, store.buffers, store.maxBytes, store.maxAge);
  }

  method PerformLog(store: Store, l: LogLine, now: int, later: int, ids: nat -> string, n: nat, ghost s: State)
      returns (ghost s': State, ghost steps: seq<Step>)
    requires Inv(store.zstd, s) && Mirrors(store, s) && Unique(ids) && Settled(s, ids, n) && ValidLine(l)
    modifies store
    ensures Mirrors(store, s') && Settled(s', ids, n + 1) && Accepts(s, Log(l, now, later), s')
    ensures Leads(store.zstd, s, steps, s')
    ensures BuffersStep(old(store.buffers), Log(l, now, later), store.buffers, store.maxBytes, store.maxAge)
  {
    ghost var due := AppendLine(store, l, now, later, ids(n));
    s', steps := LogReaches(store.zstd, s, l, now, later, due, ids, n);
    assert Mirrors(store, s');
  }

  /** One operation of the store. Block ids are drawn from `ids` in turn, and
      `n` have been. */
  method Perform(store: Store, op: Op, ids: nat -> string, n: nat, ghost s: State)
      returns (n': nat, ghost s': State, ghost steps: seq<Step>)
    requires Inv(store.zstd, s) && Mirrors(store, s) && Unique(ids) && Settled(s, ids, n)
    modifies store
    ensures Mirrors(store, s') && Settled(s', ids, n') && Accepts(s, op, s')
    ensures Leads(store.zstd, s, steps, s')
    ensures op == FlushEvery ==> store.buffers == map[]
    ensures BuffersStep(old(store.buffers), op, store.buffers, store.maxBytes, store.maxAge)
  {
    n' := n + 1;
    match op
    case FlushKey(k) =>
      s', steps := PerformFlush(store, k, ids, n, s);
    case FlushEvery =>
      n', s', steps := PerformFlushAll(store, ids, n, s);
    case Log(l, now, later) =>
      if ValidLine(l) {
        s', steps := PerformLog(store, l, now, later, ids, n, s);
      } else {
        var _, _ := store.Append(l, now, later, ids(n));
        SettledMore(s, ids, n, n + 1);
        LeadsNowhere(store.zstd, s);
        s', steps := s, [];
      }
  }

  /** A run that ends in `s`. */
  ghost predicate RunTo(z: Zstd, states: seq<State>, steps: seq<Step>, s: State) {
    IsRun(z, states, steps) && states[|steps|] == s && NoCrash(steps)
  }

  lemma {:induction false} RunOn(z: Zstd, states: seq<State>, steps: seq<Step>, s: State, more: seq<Step>, s': State)
      returns (states': seq<State>)
    requires RunTo(z, states, steps, s) && Leads(z, s, more, s')
    ensures RunTo(z, states', steps + more, s') && Inv(z, s')
  {
    var path :| IsPath(z, path, more) && path[0] == s && path[|more|] == s';
    PathOn(z, states, steps, path, more);
    states' := states[..|steps|] + path;
    RunKeepsInv(z, states', steps + more, |steps + more|);
  }

  /** Any sequence of appends and flushes is a run without a crash: every
      block is finished, and the blocks in order and then the buffer of a key
      hold exactly the valid lines logged for it. */
  method Run(store: Store, ops: seq<Op>, ids: nat -> string)
      returns (ghost s: State, ghost states: seq<State>, ghost steps: seq<Step>)
    requires store.buffers == map[] && store.files == [] && Unique(ids)
    modifies store
    ensures Mirrors(store, s) && RunTo(store.zstd, states, steps, s)
    ensures forall j :: j in s.jobs ==> j.stage.Done? && j.alive
    ensures forall k :: TakenOf(s.jobs, k) + LinesOf(store.buffers, k) == ValidLines(ops, k)
    ensures ops != [] && ops[|ops| - 1] == FlushEvery ==> store.buffers == map[]
    ensures Timed(store.buffers, ops, store.maxBytes)
  {
    s, steps := State(map[], [], [], map[]), [];
    states := [s];
    var n := 0;
    RunKeepsInv(store.zstd, states, steps, 0);
    for i := 0 to |ops|
      invariant Mirrors(store, s) && RunTo(store.zstd, states, steps, s) && Inv(store.zstd, s) && Settled(s, ids, n)
      invariant forall k :: AcceptedOf(s.accepted, k) == ValidLines(ops[..i], k)
      invariant i > 0 && ops[i - 1] == FlushEvery ==> store.buffers == map[]
      invariant Timed(store.buffers, ops[..i], store.maxBytes)
    {
      ghost var s', more, before := s, [], store.buffers;
      n, s', more := Perform(store, ops[i], ids, n, s);
      states := RunOn(store.zstd, states, steps, s, more, s');
      AcceptedMore(ops, i, s, s');
      TimedStep(ops, i, before, store.buffers, store.maxBytes, store.maxAge);
      s, steps := s', steps + more;
    }
    assert ops[..|ops|] == ops;
  }

  lemma {:induction false} AcceptedMore(ops: seq<Op>, i: nat, s: State, s': State)
    requires i < |ops| && Accepts(s, ops[i], s') && forall k :: AcceptedOf(s.accepted, k) == ValidLines(ops[..i], k)
    ensures forall k :: AcceptedOf(s'.accepted, k) == ValidLines(ops[..i + 1], k)
  {
    assert ops[..i + 1][..i] == ops[..i];
  }
}
