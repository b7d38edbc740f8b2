/** Whole runs of the black box: records, restarts, crashes, and the dump. */
module BlackBoxRuns {
  import opened Common
  import opened BlackBoxRing
  import opened BlackBoxSample
  import opened BlackBox

  function EncodeAll(hist: seq<Sample>): (r: seq<seq<byte>>)
    ensures |r| == |hist| && FullSize(r)
  {
    seq(|hist|, i requires 0 <= i < |hist| => EncodeSample(hist[i]))
  }

  lemma {:induction false} DecodeAllEncodeAll(hist: seq<Sample>)
    ensures DecodeAll(EncodeAll(hist)) == hist
  {
    forall i | 0 <= i < |hist| ensures DecodeAll(EncodeAll(hist))[i] == hist[i] {
      SampleRoundTrip(hist[i]);
    }
  }

  type Record = r: seq<byte> | |r| == SAMPLE_SIZE ghost witness Zeros(SAMPLE_SIZE)

  /** Recording an encoded sample, closing and opening again, and dying after
      `cut` bytes of the slot copy. */
  datatype Op = Rec(rec: Record) | Reopen | TornCrash(rec: Record, cut: nat)

  function Cut(cut: nat): (r: nat)
    ensures r <= SAMPLE_SIZE
  {
    if cut <= SAMPLE_SIZE then cut else SAMPLE_SIZE
  }

  /** What one operation makes of the records. */
  function After(recs: seq<seq<byte>>, capacity: nat, op: Op): (r: seq<seq<byte>>)
    requires capacity > 0 && FullSize(recs)
    ensures |r| <= |recs| + 1 && FullSize(r)
  {
    match op
    case Rec(rec) => recs + [rec]
    case Reopen => recs
    case TornCrash(rec, cut) => TornAt(recs, capacity, rec, Cut(cut))
  }

  /** The records after a run, as an endless log in which a record torn by a
      crash mixes into the oldest surviving one of a full ring and leaves no
      trace otherwise. */
  function History(recs: seq<seq<byte>>, capacity: nat, ops: seq<Op>): (r: seq<seq<byte>>)
    requires capacity > 0 && FullSize(recs)
    ensures |r| <= |recs| + |ops| && FullSize(r)
  {
    if ops == [] then recs else After(History(recs, capacity, ops[..|ops| - 1]), capacity, ops[|ops| - 1])
  }

  /** A torn record changes what is read at the oldest position of a full
      ring, and nothing else. */
  lemma {:induction false} TornChangesOldest(recs: seq<seq<byte>>, capacity: nat, rec: Record, cut: nat, i: nat)
    requires capacity > 0 && FullSize(recs) && i < |Last(recs, capacity)|
    requires i > 0 || |recs| < capacity
    ensures var torn := After(recs, capacity, TornCrash(rec, cut));
            |Last(torn, capacity)| == |Last(recs, capacity)| && Last(torn, capacity)[i] == Last(recs, capacity)[i]
  {
  }

  /** One operation; a crash and a restart both continue from the file. */
  method Perform(r: Recorder, op: Op, ghost recs: seq<seq<byte>>) returns (r': Recorder)
    requires r.Recorded(recs) && FullSize(recs) && |recs| + 1 < U64 && r.capacity > 0
    modifies r, r.data
    ensures r'.Recorded(After(recs, r.capacity, op)) && r'.capacity == r.capacity
    ensures (r' == r || fresh(r')) && (r'.data == r.data || fresh(r'.data))
  {
    match op {
      case Rec(rec) =>
        r.Record(rec, recs);
        r' := r;
      case Reopen =>
        var saved := r.Close();
        r' := new Recorder(saved, r.capacity, recs);
      case TornCrash(rec, cut) =>
        r.CopyPart(rec, Cut(cut), recs);
        var saved := r.Close();
        r' := new Recorder(saved, r.capacity, TornAt(recs, r.capacity, rec, Cut(cut)));
    }
  }

  /** Starting from a ring file or from anything that is not one, any run of
      records, restarts and crashes inside a record leaves a file that holds
      its history, and dumping it yields exactly the last records the ring has
      room for, oldest first. */
  method Run(file: seq<byte>, capacity: nat, ops: seq<Op>, ghost recs: seq<seq<byte>>)
      returns (final: seq<byte>, dumped: DumpResult)
    requires 0 < capacity < U32 && |recs| + |ops| < U64 && FullSize(recs)
    requires Holds(file, capacity, recs) || (recs == [] && !Resumes(file, capacity))
    ensures Holds(final, capacity, History(recs, capacity, ops))
    ensures dumped == DumpResult(DecodeAll(Last(History(recs, capacity, ops), capacity)), None)
  {
    var r := new Recorder(file, capacity, recs);
    ghost var h := recs;
    for i := 0 to |ops|
      invariant fresh(r) && fresh(r.data) && r.capacity == capacity
      invariant h == History(recs, capacity, ops[..i]) && r.Recorded(h)
    {
      assert ops[..i + 1][..i] == ops[..i];
      r := Perform(r, ops[i], h);
      h := After(h, capacity, ops[i]);
    }
    assert ops[..|ops|] == ops;
    final := r.Close();
    dumped := Dump(final, h, capacity);
  }

  /** What the operations recorded in full. */
  function RecordsIn(ops: seq<Op>): (r: seq<seq<byte>>)
    ensures FullSize(r)
  {
    if ops == [] then []
    else
      var front, op := RecordsIn(ops[..|ops| - 1]), ops[|ops| - 1];
      if op.Rec? then front + [op.rec] else front
  }

  /** Without a crash inside a record the history is simply everything
      recorded, over any number of restarts. */
  lemma {:induction false} HistoryOfRecords(recs: seq<seq<byte>>, capacity: nat, ops: seq<Op>)
    requires capacity > 0 && FullSize(recs) && forall i :: 0 <= i < |ops| ==> !ops[i].TornCrash?
    ensures History(recs, capacity, ops) == recs + RecordsIn(ops)
    decreases |ops|
  {
    if ops == [] {
      assert recs + [] == recs;
    } else {
      HistoryOfRecords(recs, capacity, ops[..|ops| - 1]);
    }
  }

  function Joined(runs: seq<seq<Sample>>): seq<Sample> {
    if runs == [] then [] else Joined(runs[..|runs| - 1]) + runs[|runs| - 1]
  }

  /** Recording one run's samples. */
  function RecordAll(samples: seq<Sample>): (ops: seq<Op>)
    ensures |ops| == |samples| && forall i :: 0 <= i < |ops| ==> ops[i] == Rec(EncodeSample(samples[i]))
  {
    seq(|samples|, i requires 0 <= i < |samples| => Rec(EncodeSample(samples[i])))
  }

  /** Recording run after run, each followed by a restart. */
  function RecordRuns(runs: seq<seq<Sample>>): (ops: seq<Op>)
    ensures |ops| == |Joined(runs)| + |runs| && forall i :: 0 <= i < |ops| ==> !ops[i].TornCrash?
  {
    if runs == [] then []
    else RecordRuns(runs[..|runs| - 1]) + RecordAll(runs[|runs| - 1]) + [Reopen]
  }

  lemma {:induction false} RecordsConcat(a: seq<Op>, b: seq<Op>)
    ensures RecordsIn(a + b) == RecordsIn(a) + RecordsIn(b)
    decreases |b|
  {
    if b == [] {
      assert a + b == a;
    } else {
      assert (a + b)[..|a + b| - 1] == a + b[..|b| - 1];
      RecordsConcat(a, b[..|b| - 1]);
    }
  }

  lemma {:induction false} RecordsOnly(ops: seq<Op>, recs: seq<seq<byte>>)
    requires |ops| == |recs| && forall i :: 0 <= i < |ops| ==> ops[i].Rec? && ops[i].rec == recs[i]
    ensures RecordsIn(ops) == recs
    decreases |ops|
  {
    if ops != [] {
      RecordsOnly(ops[..|ops| - 1], recs[..|ops| - 1]);
    }
  }

  lemma {:induction false} RecordsOfRuns(runs: seq<seq<Sample>>)
    ensures RecordsIn(RecordRuns(runs)) == EncodeAll(Joined(runs))
    decreases |runs|
  {
    if runs != [] {
      var front, last := runs[..|runs| - 1], runs[|runs| - 1];
      RecordsOfRuns(front);
      RecordsOnly(RecordAll(last), EncodeAll(last));
      RecordsConcat(RecordRuns(front), RecordAll(last));
      RecordsConcat(RecordRuns(front) + RecordAll(last), [Reopen]);
      EncodeConcat(Joined(front), last);
    }
  }

  lemma {:induction false} EncodeConcat(a: seq<Sample>, b: seq<Sample>)
    ensures EncodeAll(a + b) == EncodeAll(a) + EncodeAll(b)
  {
  }

  lemma {:induction false} EncodeLast(hist: seq<Sample>, capacity: nat)
    ensures EncodeAll(Last(hist, capacity)) == Last(EncodeAll(hist), capacity)
  {
  }

  /** Recording samples over any number of restarts and dumping: exactly the
      last of everything recorded. */
  method RecordAndDump(file: seq<byte>, capacity: nat, runs: seq<seq<Sample>>, ghost hist: seq<Sample>)
      returns (dumped: DumpResult)
    requires 0 < capacity < U32 && |hist| + |Joined(runs)| + |runs| < U64
    requires Holds(file, capacity, EncodeAll(hist)) || (hist == [] && !Resumes(file, capacity))
    ensures dumped == DumpResult(Last(hist + Joined(runs), capacity), None)
  {
    var final;
    final, dumped := Run(file, capacity, RecordRuns(runs), EncodeAll(hist));
    HistoryOfRecords(EncodeAll(hist), capacity, RecordRuns(runs));
    RecordsOfRuns(runs);
    EncodeConcat(hist, Joined(runs));
    EncodeLast(hist + Joined(runs), capacity);
    DecodeAllEncodeAll(Last(hist + Joined(runs), capacity));
  }
}
