/** The fixed-size record of the black box (internal/blackbox: sample.go and
    encode.go). Floating-point fields are kept as their bit patterns. */
module BlackBoxSample {
  import opened Common
  import opened Bytes
  import opened BlackBoxRing

  const MAX_CPUS := 64
  const MAX_SENSORS := 24
  const MAX_BLOCK_DEVICES := 16

  const U16 := 0x1_0000
  const U32 := 0x1_0000_0000
  const U64 := 0x1_0000_0000_0000_0000

  /** CPU figures: everything up to the throttling mask. */
  datatype CpuPart = CpuPart(timestamp: int, numCpus: nat, busy: seq<nat>, freq: seq<nat>, throttled: nat)
  /** Temperatures and the six memory counters. */
  datatype MemPart = MemPart(numSensors: nat, temps: seq<int>, memory: seq<nat>)
  /** Load, runnable and blocked processes, interrupts, the five PSI values. */
  datatype LoadPart = LoadPart(load: nat, runnable: nat, blocked: nat, interrupts: seq<nat>, psi: seq<nat>)
  /** Block devices and the two ECC counters. */
  datatype DiskPart = DiskPart(numDevices: nat, depth: seq<nat>, latency: seq<nat>, corrected: nat, uncorrected: nat)

  datatype RawSample = RawSample(cpu: CpuPart, mem: MemPart, load: LoadPart, disk: DiskPart)

  ghost predicate AllBelow(s: seq<nat>, n: nat, bound: nat) {
    |s| == n && forall i :: 0 <= i < n ==> s[i] < bound
  }

  ghost predicate InRange(s: RawSample) {
    && -U64 / 2 <= s.cpu.timestamp < U64 / 2 && s.cpu.numCpus < U16 && s.cpu.throttled < U64
    && AllBelow(s.cpu.busy, MAX_CPUS, U32) && AllBelow(s.cpu.freq, MAX_CPUS, U32)
    && s.mem.numSensors < U16 && AllBelow(s.mem.memory, 6, U64)
    && |s.mem.temps| == MAX_SENSORS
    && (forall i :: 0 <= i < MAX_SENSORS ==> -U32 / 2 <= s.mem.temps[i] < U32 / 2)
    && s.load.load < U32 && s.load.runnable < U32 && s.load.blocked < U32
    && AllBelow(s.load.interrupts, MAX_CPUS, U64) && AllBelow(s.load.psi, 5, U32)
    && s.disk.numDevices < U16 && s.disk.corrected < U64 && s.disk.uncorrected < U64
    && AllBelow(s.disk.depth, MAX_BLOCK_DEVICES, U32) && AllBelow(s.disk.latency, MAX_BLOCK_DEVICES, U32)
  }

  type Sample = s: RawSample | InRange(s) ghost witness
    RawSample(CpuPart(0, 0, Repeat(0, MAX_CPUS), Repeat(0, MAX_CPUS), 0),
              MemPart(0, Repeat(0, MAX_SENSORS), Repeat(0, 6)),
              LoadPart(0, 0, 0, Repeat(0, MAX_CPUS), Repeat(0, 5)),
              DiskPart(0, Repeat(0, MAX_BLOCK_DEVICES), Repeat(0, MAX_BLOCK_DEVICES), 0, 0))

  // ----- Signed words

  function Unsigned(x: int, bound: nat): int {
    if x >= 0 then x else x + bound
  }

  function Signed(w: nat, bound: nat): int {
    if w < bound / 2 then w else w - bound
  }

  function UnsignedAll(xs: seq<int>): (r: seq<nat>)
    requires forall i :: 0 <= i < |xs| ==> -U32 / 2 <= xs[i] < U32 / 2
    ensures |r| == |xs| && forall i :: 0 <= i < |xs| ==> r[i] < U32 && Signed(r[i], U32) == xs[i]
  {
    if xs == [] then [] else [Unsigned(xs[0], U32)] + UnsignedAll(xs[1..])
  }

  function SignedAll(ws: seq<nat>): (r: seq<int>)
    ensures |r| == |ws| && forall i :: 0 <= i < |ws| ==> r[i] == Signed(ws[i], U32)
  {
    if ws == [] then [] else [Signed(ws[0], U32)] + SignedAll(ws[1..])
  }

  // ----- Layout, in words; six padding bytes follow each 16-bit count

  function CpuWidths(): seq<nat> { [8, 2] + Repeat(1, 6) + Repeat(4, 64) + Repeat(4, 64) + [8] }
  function MemWidths(): seq<nat> { [2] + Repeat(1, 6) + Repeat(4, 24) + Repeat(8, 6) }
  function LoadWidths(): seq<nat> { [4, 4, 4] + Repeat(8, 64) + Repeat(4, 5) }
  function DiskWidths(): seq<nat> { [2] + Repeat(1, 6) + Repeat(4, 16) + Repeat(4, 16) + [8, 8] }
  function Widths(): seq<nat> { CpuWidths() + MemWidths() + LoadWidths() + DiskWidths() }

  function CpuWords(c: CpuPart): seq<nat>
    requires -U64 / 2 <= c.timestamp
  {
    [Unsigned(c.timestamp, U64), c.numCpus] + Repeat(0, 6) + c.busy + c.freq + [c.throttled]
  }

  function MemWords(m: MemPart): seq<nat>
    requires forall i :: 0 <= i < |m.temps| ==> -U32 / 2 <= m.temps[i] < U32 / 2
  {
    [m.numSensors] + Repeat(0, 6) + UnsignedAll(m.temps) + m.memory
  }

  function LoadWords(l: LoadPart): seq<nat> {
    [l.load, l.runnable, l.blocked] + l.interrupts + l.psi
  }

  function DiskWords(d: DiskPart): seq<nat> {
    [d.numDevices] + Repeat(0, 6) + d.depth + d.latency + [d.corrected, d.uncorrected]
  }

  function Words(s: Sample): seq<nat> {
    CpuWords(s.cpu) + MemWords(s.mem) + LoadWords(s.load) + DiskWords(s.disk)
  }

  function ReadCpu(w: seq<nat>): CpuPart
    requires |w| == 137
  {
    CpuPart(Signed(w[0], U64), w[1], w[8..72], w[72..136], w[136])
  }

  function ReadMem(w: seq<nat>): MemPart
    requires |w| == 37
  {
    MemPart(w[0], SignedAll(w[7..31]), w[31..37])
  }

  function ReadLoad(w: seq<nat>): LoadPart
    requires |w| == 72
  {
    LoadPart(w[0], w[1], w[2], w[3..67], w[67..72])
  }

  function ReadDisk(w: seq<nat>): DiskPart
    requires |w| == 41
  {
    DiskPart(w[0], w[7..23], w[23..39], w[39], w[40])
  }

  function ReadWords(w: seq<nat>): RawSample
    requires |w| == 287
  {
    RawSample(ReadCpu(w[..137]), ReadMem(w[137..174]), ReadLoad(w[174..246]), ReadDisk(w[246..287]))
  }

  // ----- Each part reads back

  lemma {:induction false} CpuRoundTrip(s: Sample)
    ensures |CpuWords(s.cpu)| == 137 && ReadCpu(CpuWords(s.cpu)) == s.cpu
    ensures Fits(CpuWidths(), CpuWords(s.cpu))
  {
    var c, w := s.cpu, CpuWords(s.cpu);
    assert w[8..72] == c.busy && w[72..136] == c.freq;
    Powers();
  }

  lemma {:induction false} MemRoundTrip(s: Sample)
    ensures |MemWords(s.mem)| == 37 && ReadMem(MemWords(s.mem)) == s.mem
    ensures Fits(MemWidths(), MemWords(s.mem))
  {
    var m, w := s.mem, MemWords(s.mem);
    assert w[7..31] == UnsignedAll(m.temps) && w[31..37] == m.memory;
    assert SignedAll(UnsignedAll(m.temps)) == m.temps;
    Powers();
  }

  lemma {:induction false} LoadRoundTrip(s: Sample)
    ensures |LoadWords(s.load)| == 72 && ReadLoad(LoadWords(s.load)) == s.load
    ensures Fits(LoadWidths(), LoadWords(s.load))
  {
    var l, w := s.load, LoadWords(s.load);
    assert w[3..67] == l.interrupts && w[67..72] == l.psi;
    Powers();
  }

  lemma {:induction false} DiskRoundTrip(s: Sample)
    ensures |DiskWords(s.disk)| == 41 && ReadDisk(DiskWords(s.disk)) == s.disk
    ensures Fits(DiskWidths(), DiskWords(s.disk))
  {
    var d, w := s.disk, DiskWords(s.disk);
    assert w[7..23] == d.depth && w[23..39] == d.latency;
    Powers();
  }

  lemma Powers()
    ensures Pow256(1) == 256 && Pow256(2) == U16 && Pow256(4) == U32 && Pow256(8) == U64
  {
    assert Pow256(3) == 256 * Pow256(2);
    assert Pow256(4) == 256 * Pow256(3);
    assert Pow256(5) == 256 * Pow256(4);
    assert Pow256(6) == 256 * Pow256(5);
    assert Pow256(7) == 256 * Pow256(6);
    assert Pow256(8) == 256 * Pow256(7);
  }

  lemma {:induction false} FitsConcat(a: seq<nat>, x: seq<nat>, b: seq<nat>, y: seq<nat>)
    requires Fits(a, x) && Fits(b, y)
    ensures Fits(a + b, x + y)
  {
  }

  lemma FourSlices(a: seq<nat>, b: seq<nat>, c: seq<nat>, d: seq<nat>)
    requires |a| == 137 && |b| == 37 && |c| == 72 && |d| == 41
    ensures var w := a + b + c + d;
            && |w| == 287
            && w[..137] == a && w[137..174] == b && w[174..246] == c && w[246..287] == d
  {
  }

  lemma {:induction false} WordsRoundTrip(s: Sample)
    ensures |Words(s)| == 287 && ReadWords(Words(s)) == s && Fits(Widths(), Words(s))
  {
    CpuRoundTrip(s);
    MemRoundTrip(s);
    LoadRoundTrip(s);
    DiskRoundTrip(s);
    var a, b, c, d := CpuWords(s.cpu), MemWords(s.mem), LoadWords(s.load), DiskWords(s.disk);
    FourSlices(a, b, c, d);
    FitsConcat(CpuWidths(), a, MemWidths(), b);
    FitsConcat(CpuWidths() + MemWidths(), a + b, LoadWidths(), c);
    FitsConcat(CpuWidths() + MemWidths() + LoadWidths(), a + b + c, DiskWidths(), d);
  }

  lemma {:induction false} SizeOfFive(a: seq<nat>, b: seq<nat>, c: seq<nat>, d: seq<nat>, e: seq<nat>)
    ensures Size(a + b + c + d + e) == Size(a) + Size(b) + Size(c) + Size(d) + Size(e)
  {
    SizeConcat(a, b);
    SizeConcat(a + b, c);
    SizeConcat(a + b + c, d);
    SizeConcat(a + b + c + d, e);
  }

  lemma {:induction false} CpuSize()
    ensures Size(CpuWidths()) == 536
  {
    SizeRepeat(1, 6);
    SizeRepeat(4, 64);
    SizeOfFive([8, 2], Repeat(1, 6), Repeat(4, 64), Repeat(4, 64), [8]);
  }

  lemma {:induction false} MemSize()
    ensures Size(MemWidths()) == 152
  {
    SizeRepeat(1, 6);
    SizeRepeat(4, 24);
    SizeRepeat(8, 6);
    SizeOfFive([2], Repeat(1, 6), Repeat(4, 24), Repeat(8, 6), []);
    assert MemWidths() + [] == MemWidths();
  }

  lemma {:induction false} LoadSize()
    ensures Size(LoadWidths()) == 544
  {
    SizeRepeat(8, 64);
    SizeRepeat(4, 5);
    SizeOfFive([4, 4, 4], Repeat(8, 64), Repeat(4, 5), [], []);
    assert LoadWidths() + [] + [] == LoadWidths();
  }

  lemma {:induction false} DiskSize()
    ensures Size(DiskWidths()) == 152
  {
    SizeRepeat(1, 6);
    SizeRepeat(4, 16);
    SizeOfFive([2], Repeat(1, 6), Repeat(4, 16), Repeat(4, 16), [8, 8]);
  }

  /** A record takes 1384 bytes. */
  lemma {:induction false} SampleSize()
    ensures |Widths()| == 287 && Size(Widths()) == SAMPLE_SIZE
  {
    CpuSize();
    MemSize();
    LoadSize();
    DiskSize();
    SizeOfFive(CpuWidths(), MemWidths(), LoadWidths(), DiskWidths(), []);
    assert Widths() + [] == Widths();
  }

  function EncodeSample(s: Sample): (bytes: seq<byte>)
    ensures |bytes| == SAMPLE_SIZE
  {
    WordsRoundTrip(s);
    SampleSize();
    Encode(Widths(), Words(s))
  }

  datatype Decoded = Decoded(sample: RawSample) | WrongSize

  function DecodeSample(raw: seq<byte>): Decoded {
    if |raw| != SAMPLE_SIZE then WrongSize
    else
      SampleSize();
      Decoded(ReadWords(Decode(Widths(), raw)))
  }

  /** Every sample survives being written and read. */
  lemma {:induction false} SampleRoundTrip(s: Sample)
    ensures DecodeSample(EncodeSample(s)) == Decoded(s)
  {
    WordsRoundTrip(s);
    SampleSize();
    RecordRoundTrip(Widths(), Words(s));
  }

  // ----- The bytes, field after field

  /** Six bytes of padding. */
  function Padding(): seq<byte> { Array(1, Repeat(0, 6)) }

  function CpuBytes(c: CpuPart): seq<byte>
    requires -U64 / 2 <= c.timestamp
  {
    ToBytes(Unsigned(c.timestamp, U64), 8) + ToBytes(c.numCpus, 2) + Padding()
    + Array(4, c.busy) + Array(4, c.freq) + ToBytes(c.throttled, 8)
  }

  function MemBytes(m: MemPart): seq<byte>
    requires forall i :: 0 <= i < |m.temps| ==> -U32 / 2 <= m.temps[i] < U32 / 2
  {
    ToBytes(m.numSensors, 2) + Padding() + Array(4, UnsignedAll(m.temps)) + Array(8, m.memory)
  }

  function LoadBytes(l: LoadPart): seq<byte> {
    ToBytes(l.load, 4) + ToBytes(l.runnable, 4) + ToBytes(l.blocked, 4) + Array(8, l.interrupts) + Array(4, l.psi)
  }

  function DiskBytes(d: DiskPart): seq<byte> {
    ToBytes(d.numDevices, 2) + Padding() + Array(4, d.depth) + Array(4, d.latency)
    + ToBytes(d.corrected, 8) + ToBytes(d.uncorrected, 8)
  }

  /** Appending one word, or one array. */
  lemma {:induction false} AppendWord(a: seq<nat>, x: seq<nat>, w: nat, v: nat)
    requires |a| == |x|
    ensures Encode(a + [w], x + [v]) == Encode(a, x) + ToBytes(v, w)
  {
    EncodeConcat(a, x, [w], [v]);
    EncodeOne(w, v);
  }

  lemma {:induction false} AppendArray(a: seq<nat>, x: seq<nat>, w: nat, n: nat, vs: seq<nat>)
    requires |a| == |x| && |vs| == n
    ensures Encode(a + Repeat(w, n), x + vs) == Encode(a, x) + Array(w, vs)
  {
    EncodeConcat(a, x, Repeat(w, n), vs);
    EncodeArray(w, vs);
  }

  lemma {:induction false} CpuEncoded(s: Sample)
    ensures |CpuWords(s.cpu)| == |CpuWidths()| && Encode(CpuWidths(), CpuWords(s.cpu)) == CpuBytes(s.cpu)
  {
    var c := s.cpu;
    var t := Unsigned(c.timestamp, U64);
    EncodeOne(8, t);
    AppendWord([8], [t], 2, c.numCpus);
    assert [8] + [2] == [8, 2] && [t] + [c.numCpus] == [t, c.numCpus];
    var a, x := [8, 2], [t, c.numCpus];
    AppendArray(a, x, 1, 6, Repeat(0, 6));
    a, x := a + Repeat(1, 6), x + Repeat(0, 6);
    AppendArray(a, x, 4, 64, c.busy);
    a, x := a + Repeat(4, 64), x + c.busy;
    AppendArray(a, x, 4, 64, c.freq);
    AppendWord(a + Repeat(4, 64), x + c.freq, 8, c.throttled);
  }

  lemma {:induction false} MemEncoded(s: Sample)
    ensures |MemWords(s.mem)| == |MemWidths()| && Encode(MemWidths(), MemWords(s.mem)) == MemBytes(s.mem)
  {
    var m := s.mem;
    EncodeOne(2, m.numSensors);
    AppendArray([2], [m.numSensors], 1, 6, Repeat(0, 6));
    var a, x := [2] + Repeat(1, 6), [m.numSensors] + Repeat(0, 6);
    AppendArray(a, x, 4, 24, UnsignedAll(m.temps));
    AppendArray(a + Repeat(4, 24), x + UnsignedAll(m.temps), 8, 6, m.memory);
  }

  lemma {:induction false} LoadEncoded(s: Sample)
    ensures |LoadWords(s.load)| == |LoadWidths()| && Encode(LoadWidths(), LoadWords(s.load)) == LoadBytes(s.load)
  {
    var l := s.load;
    EncodeOne(4, l.load);
    AppendWord([4], [l.load], 4, l.runnable);
    assert [4] + [4] == [4, 4] && [l.load] + [l.runnable] == [l.load, l.runnable];
    AppendWord([4, 4], [l.load, l.runnable], 4, l.blocked);
    assert [4, 4] + [4] == [4, 4, 4] && [l.load, l.runnable] + [l.blocked] == [l.load, l.runnable, l.blocked];
    var a, x := [4, 4, 4], [l.load, l.runnable, l.blocked];
    AppendArray(a, x, 8, 64, l.interrupts);
    AppendArray(a + Repeat(8, 64), x + l.interrupts, 4, 5, l.psi);
  }

  lemma {:induction false} DiskEncoded(s: Sample)
    ensures |DiskWords(s.disk)| == |DiskWidths()| && Encode(DiskWidths(), DiskWords(s.disk)) == DiskBytes(s.disk)
  {
    var d := s.disk;
    EncodeOne(2, d.numDevices);
    AppendArray([2], [d.numDevices], 1, 6, Repeat(0, 6));
    var a, x := [2] + Repeat(1, 6), [d.numDevices] + Repeat(0, 6);
    AppendArray(a, x, 4, 16, d.depth);
    a, x := a + Repeat(4, 16), x + d.depth;
    AppendArray(a, x, 4, 16, d.latency);
    a, x := a + Repeat(4, 16), x + d.latency;
    AppendWord(a, x, 8, d.corrected);
    AppendWord(a + [8], x + [d.corrected], 8, d.uncorrected);
    assert a + [8] + [8] == a + [8, 8] && x + [d.corrected] + [d.uncorrected] == x + [d.corrected, d.uncorrected];
  }

  /** A record is the fields of the struct in their order, with padding after
      each 16-bit count. */
  lemma {:induction false} SampleBytes(s: Sample)
    ensures EncodeSample(s) == CpuBytes(s.cpu) + MemBytes(s.mem) + LoadBytes(s.load) + DiskBytes(s.disk)
  {
    CpuEncoded(s);
    MemEncoded(s);
    LoadEncoded(s);
    DiskEncoded(s);
    var a, b, c, d := CpuWidths(), MemWidths(), LoadWidths(), DiskWidths();
    var x, y, z, w := CpuWords(s.cpu), MemWords(s.mem), LoadWords(s.load), DiskWords(s.disk);
    EncodeConcat(a, x, b, y);
    EncodeConcat(a + b, x + y, c, z);
    EncodeConcat(a + b + c, x + y + z, d, w);
  }
}
