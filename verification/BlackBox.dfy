/** The black-box ring file (internal/blackbox): header, recorder, reader. */
module BlackBox {
  import opened Common
  import opened Bytes
  import opened BlackBoxRing
  import opened BlackBoxSample

  const FORMAT_VERSION := 1
  const DEFAULT_CAPACITY := 900
  const MAGIC: seq<byte> := [66, 84, 67, 82, 66, 76, 75, 66]

  datatype Header = Header(sampleSize: nat, capacity: nat, writeIndex: nat)

  datatype Error = TooShort | BadMagic | BadVersion | Truncated | BadRecord | DivideByZero
  datatype HeaderResult = Ok(header: Header) | Failed(error: Error)

  const HEADER_WIDTHS: seq<nat> := [4, 4, 4, 4, 8]

  function HeaderWords(h: Header): seq<nat> {
    [FORMAT_VERSION, h.sampleSize, h.capacity, 0, h.writeIndex]
  }

  function Zeros(n: nat): (r: seq<byte>)
    ensures |r| == n
  {
    seq(n, _ => 0)
  }

  lemma HeaderWidthsSize()
    ensures Size(HEADER_WIDTHS) == 24
  {
    assert HEADER_WIDTHS == [4, 4, 4, 4, 8];
    assert Size([8]) == 8;
    assert [4, 8][1..] == [8] && [4, 4, 8][1..] == [4, 8];
    assert [4, 4, 4, 8][1..] == [4, 4, 8] && [4, 4, 4, 4, 8][1..] == [4, 4, 4, 8];
    assert Size([4, 8]) == 12;
    assert Size([4, 4, 8]) == 16;
    assert Size([4, 4, 4, 8]) == 20;
  }

  function EncodeHeader(h: Header): (r: seq<byte>)
    ensures |r| == HEADER_SIZE
  {
    HeaderWidthsSize();
    MAGIC + Encode(HEADER_WIDTHS, HeaderWords(h)) + Zeros(32)
  }

  function DecodeHeader(raw: seq<byte>): HeaderResult {
    if |raw| < HEADER_SIZE then Failed(TooShort)
    else if raw[..8] != MAGIC then Failed(BadMagic)
    else
      HeaderWidthsSize();
      var w := Decode(HEADER_WIDTHS, raw[8..32]);
      if w[0] != FORMAT_VERSION then Failed(BadVersion)
      else Ok(Header(w[1], w[2], w[4]))
  }

  ghost predicate HeaderInRange(h: Header) {
    h.sampleSize < U32 && h.capacity < U32 && h.writeIndex < U64
  }

  /** A header at the start of a file reads back. */
  lemma {:induction false} HeaderRoundTrip(h: Header, rest: seq<byte>)
    requires HeaderInRange(h)
    ensures DecodeHeader(EncodeHeader(h) + rest) == Ok(h)
  {
    HeaderWidthsSize();
    Powers();
    var raw := EncodeHeader(h) + rest;
    assert raw[..8] == MAGIC;
    assert raw[8..32] == Encode(HEADER_WIDTHS, HeaderWords(h));
    RecordRoundTrip(HEADER_WIDTHS, HeaderWords(h));
  }

  /** The header's bytes: magic, version, sample size, capacity, padding and
      write index, and zeros up to its fixed size. */
  lemma {:induction false} HeaderBytes(h: Header)
    ensures EncodeHeader(h)
         == ['B' as int, 'T' as int, 'C' as int, 'R' as int, 'B' as int, 'L' as int, 'K' as int, 'B' as int]
            + (ToBytes(1, 4) + ToBytes(h.sampleSize, 4) + ToBytes(h.capacity, 4) + ToBytes(0, 4)
               + ToBytes(h.writeIndex, 8))
            + Zeros(32)
  {
    EncodeOne(4, 1);
    AppendWord([4], [1], 4, h.sampleSize);
    assert [4] + [4] == [4, 4] && [1] + [h.sampleSize] == [1, h.sampleSize];
    AppendWord([4, 4], [1, h.sampleSize], 4, h.capacity);
    assert [4, 4] + [4] == [4, 4, 4] && [1, h.sampleSize] + [h.capacity] == [1, h.sampleSize, h.capacity];
    AppendWord([4, 4, 4], [1, h.sampleSize, h.capacity], 4, 0);
    assert [4, 4, 4] + [4] == [4, 4, 4, 4];
    assert [1, h.sampleSize, h.capacity] + [0] == [1, h.sampleSize, h.capacity, 0];
    AppendWord([4, 4, 4, 4], [1, h.sampleSize, h.capacity, 0], 8, h.writeIndex);
    assert [4, 4, 4, 4] + [8] == HEADER_WIDTHS && [1, h.sampleSize, h.capacity, 0] + [h.writeIndex] == HeaderWords(h);
  }

  lemma {:induction false} HeaderFields(bytes: seq<byte>)
    requires |bytes| == 24
    ensures Size(HEADER_WIDTHS) == 24
    ensures var w := Decode(HEADER_WIDTHS, bytes);
            && w[0] == FromBytes(bytes[..4]) && w[1] == FromBytes(bytes[4..8])
            && w[2] == FromBytes(bytes[8..12]) && w[4] == FromBytes(bytes[16..24])
  {
    HeaderWidthsSize();
    var b1, b2, b3, b4 := bytes[4..], bytes[8..], bytes[12..], bytes[16..];
    assert b1[4..] == b2 && b2[4..] == b3 && b3[4..] == b4;
    assert b1[..4] == bytes[4..8] && b2[..4] == bytes[8..12] && b4[..8] == bytes[16..24];
    assert Size([]) == 0 && b4[8..] == [];
    DecodeFirst(8, [], b4);
    assert [8] + [] == [8] && [4] + [8] == [4, 8] && [4] + [4, 8] == [4, 4, 8];
    assert [4] + [4, 4, 8] == [4, 4, 4, 8] && [4] + [4, 4, 4, 8] == HEADER_WIDTHS;
    DecodeFirst(4, [8], b3);
    DecodeFirst(4, [4, 8], b2);
    DecodeFirst(4, [4, 4, 8], b1);
    DecodeFirst(4, [4, 4, 4, 8], bytes);
  }

  lemma {:induction false} SliceOfSlice(s: seq<byte>, lo: nat, hi: nat, i: nat, j: nat)
    requires lo + i <= lo + j <= hi <= |s|
    ensures s[lo..hi][i..j] == s[lo + i..lo + j]
  {
    var t := s[lo..hi];
    forall k | 0 <= k < j - i ensures t[i..j][k] == s[lo + i..lo + j][k] {
      assert t[i..j][k] == t[i + k] == s[lo + (i + k)];
    }
  }

  /** What a header reads as, byte by byte, and when it is refused. */
  lemma {:induction false} HeaderReads(raw: seq<byte>)
    ensures DecodeHeader(raw)
         == if |raw| < 64 then Failed(TooShort)
            else if raw[..8] != ['B' as int, 'T' as int, 'C' as int, 'R' as int,
                                 'B' as int, 'L' as int, 'K' as int, 'B' as int] then Failed(BadMagic)
            else if FromBytes(raw[8..12]) != 1 then Failed(BadVersion)
            else Ok(Header(FromBytes(raw[12..16]), FromBytes(raw[16..20]), FromBytes(raw[24..32])))
  {
    if |raw| >= 64 {
      var bytes := raw[8..32];
      HeaderFields(bytes);
      assert MAGIC == ['B' as int, 'T' as int, 'C' as int, 'R' as int,
                       'B' as int, 'L' as int, 'K' as int, 'B' as int];
      SliceOfSlice(raw, 8, 32, 0, 4);
      SliceOfSlice(raw, 8, 32, 4, 8);
      SliceOfSlice(raw, 8, 32, 8, 12);
      SliceOfSlice(raw, 8, 32, 16, 24);
      assert bytes[..4] == raw[8..12] && bytes[4..8] == raw[12..16];
      assert bytes[8..12] == raw[16..20] && bytes[16..24] == raw[24..32];
    }
  }

  // ----- What a file holds, as encoded records

  function RingHeader(capacity: nat, count: nat): (r: seq<byte>)
    ensures |r| == HEADER_SIZE
  {
    EncodeHeader(Header(SAMPLE_SIZE, capacity, count))
  }

  /** The file is a ring of this capacity after writing `recs`. */
  ghost predicate Holds(bytes: seq<byte>, capacity: nat, recs: seq<seq<byte>>) {
    && 0 < capacity < U32 && |recs| < U64
    && Ring(bytes, capacity, recs)
    && bytes[..HEADER_SIZE] == RingHeader(capacity, |recs|)
  }

  /** Only the first `cut` bytes of one more record were copied. */
  lemma {:induction false} TornRecord(bytes: seq<byte>, capacity: nat, recs: seq<seq<byte>>, rec: seq<byte>, cut: nat)
    requires Holds(bytes, capacity, recs) && FullSize(recs) && |rec| == SAMPLE_SIZE && cut <= SAMPLE_SIZE
    ensures Offset(SlotOf(|recs|, capacity)) + cut <= |bytes|
    ensures var torn := Patched(bytes, Offset(SlotOf(|recs|, capacity)), rec[..cut]);
            Holds(torn, capacity, TornAt(recs, capacity, rec, cut))
  {
    var slot := SlotOf(|recs|, capacity);
    var mixed := Mixed(Slot(bytes, capacity, slot), rec, cut);
    CutCopy(bytes, capacity, slot, rec, cut);
    RingTorn(bytes, capacity, recs, mixed);
    HeaderKept(bytes, capacity, slot, mixed);
    if |recs| >= capacity {
      NextSlotOldest(bytes, capacity, recs);
    }
  }

  /** The header write completes the record. */
  lemma {:induction false} CompleteRecord(bytes: seq<byte>, capacity: nat, recs: seq<seq<byte>>, rec: seq<byte>)
    requires Holds(bytes, capacity, recs) && |recs| + 1 < U64 && |rec| == SAMPLE_SIZE
    ensures var torn := WithRecord(bytes, capacity, SlotOf(|recs|, capacity), rec);
            Holds(Patched(torn, 0, RingHeader(capacity, |recs| + 1)), capacity, recs + [rec])
  {
    var torn := WithRecord(bytes, capacity, SlotOf(|recs|, capacity), rec);
    RingExtended(bytes, capacity, recs, rec);
    HeaderWritten(torn, capacity, recs + [rec], RingHeader(capacity, |recs| + 1));
  }

  // ----- The recorder

  /** `f.Truncate`: cut, or extended with zeros. */
  function Resize(bytes: seq<byte>, size: nat): (r: seq<byte>)
    ensures |r| == size
  {
    if size <= |bytes| then bytes[..size] else bytes + Zeros(size - |bytes|)
  }

  /** The file's own header allows recording to resume. */
  predicate Resumes(file: seq<byte>, capacity: nat) {
    |file| >= HEADER_SIZE
    && var r := DecodeHeader(file[..HEADER_SIZE]);
       r.Ok? && r.header.capacity == capacity && r.header.sampleSize == SAMPLE_SIZE
  }

  /** A file is resumed exactly if it starts with a header of this version
      with this record size and capacity. */
  lemma {:induction false} ResumesIff(file: seq<byte>, capacity: nat)
    ensures Resumes(file, capacity) <==>
            && |file| >= 64
            && file[..8] == ['B' as int, 'T' as int, 'C' as int, 'R' as int,
                             'B' as int, 'L' as int, 'K' as int, 'B' as int]
            && FromBytes(file[8..12]) == 1 && FromBytes(file[12..16]) == 1384 && FromBytes(file[16..20]) == capacity
  {
    if |file| >= 64 {
      var raw := file[..HEADER_SIZE];
      HeaderReads(raw);
      SliceOfSlice(file, 0, 64, 0, 8);
      SliceOfSlice(file, 0, 64, 8, 12);
      SliceOfSlice(file, 0, 64, 12, 16);
      SliceOfSlice(file, 0, 64, 16, 20);
      assert raw[..8] == file[..8] && raw[8..12] == file[8..12];
      assert raw[12..16] == file[12..16] && raw[16..20] == file[16..20];
    }
  }

  method PrepareFile(file: seq<byte>, capacity: nat) returns (prepared: seq<byte>, writeIndex: nat)
    ensures |prepared| == FileSize(capacity)
    ensures Resumes(file, capacity) ==>
              prepared == Resize(file, FileSize(capacity))
              && writeIndex == DecodeHeader(file[..HEADER_SIZE]).header.writeIndex
    ensures !Resumes(file, capacity) ==> prepared == Zeros(FileSize(capacity)) && writeIndex == 0
  {
    if |file| >= HEADER_SIZE {
      var r := DecodeHeader(file[..HEADER_SIZE]);
      if r.Ok? && r.header.capacity == capacity && r.header.sampleSize == SAMPLE_SIZE {
        return Resize(file, FileSize(capacity)), r.header.writeIndex;
      }
    }
    var empty := Resize(file, 0);
    prepared := Resize(empty, FileSize(capacity));
    writeIndex := 0;
    assert prepared == Zeros(FileSize(capacity));
  }

  /** A held ring resumes unchanged. */
  lemma {:induction false} HoldsResumes(file: seq<byte>, capacity: nat, recs: seq<seq<byte>>)
    requires Holds(file, capacity, recs)
    ensures Resumes(file, capacity) && Resize(file, FileSize(capacity)) == file
    ensures DecodeHeader(file[..HEADER_SIZE]) == Ok(Header(SAMPLE_SIZE, capacity, |recs|))
    ensures DecodeHeader(file) == Ok(Header(SAMPLE_SIZE, capacity, |recs|))
  {
    var h := Header(SAMPLE_SIZE, capacity, |recs|);
    var head := EncodeHeader(h);
    assert file[..HEADER_SIZE] == head + [];
    HeaderRoundTrip(h, []);
    assert file == head + file[HEADER_SIZE..];
    HeaderRoundTrip(h, file[HEADER_SIZE..]);
  }

  class Recorder {
    const data: array<byte>
    const capacity: nat
    var writeIndex: nat

    /** The mapping holds `recs`. */
    ghost predicate Recorded(recs: seq<seq<byte>>)
      reads this, data
    {
      Holds(data[..], capacity, recs) && writeIndex == |recs|
    }

    /** Opens a file: resumes a matching ring, reinitialises anything else. */
    constructor (file: seq<byte>, requested: nat, ghost recs: seq<seq<byte>>)
      requires requested < U32
      ensures fresh(data) && capacity == (if requested == 0 then DEFAULT_CAPACITY else requested)
      ensures Holds(file, capacity, recs) ==> Recorded(recs)
      ensures !Resumes(file, capacity) ==> Recorded([])
    {
      var cap := if requested == 0 then DEFAULT_CAPACITY else requested;
      var prepared, index := PrepareFile(file, cap);
      capacity := cap;
      writeIndex := index;
      data := new byte[|prepared|](i requires 0 <= i < |prepared| => prepared[i]);
      new;
      assert data[..] == prepared;
      WriteHeader();
      if Holds(file, capacity, recs) {
        HoldsResumes(file, capacity, recs);
        HeaderWritten(prepared, capacity, recs, RingHeader(capacity, |recs|));
      }
      if !Resumes(file, capacity) {
        HeaderWritten(prepared, capacity, [], RingHeader(capacity, 0));
      }
    }

    method Copy(offset: nat, part: seq<byte>)
      requires offset + |part| <= data.Length
      modifies data
      ensures data[..] == Patched(old(data[..]), offset, part)
    {
      for i := 0 to |part|
        invariant forall k :: 0 <= k < i ==> data[offset + k] == part[k]
        invariant forall k :: 0 <= k < offset ==> data[k] == old(data[k])
        invariant forall k :: offset + i <= k < data.Length ==> data[k] == old(data[k])
      {
        data[offset + i] := part[i];
      }
    }

    method WriteHeader()
      requires HEADER_SIZE <= data.Length
      modifies data
      ensures data[..] == Patched(old(data[..]), 0, RingHeader(capacity, writeIndex))
    {
      Copy(0, RingHeader(capacity, writeIndex));
    }

    /** Writes the record into its slot, then the header. */
    method Record(rec: seq<byte>, ghost recs: seq<seq<byte>>)
      requires Recorded(recs) && |recs| + 1 < U64 && |rec| == SAMPLE_SIZE
      modifies this`writeIndex, data
      ensures Recorded(recs + [rec])
    {
      CompleteRecord(data[..], capacity, recs, rec);
      WriteRecord(rec, recs);
    }

    method WriteRecord(rec: seq<byte>, ghost recs: seq<seq<byte>>)
      requires Recorded(recs) && |recs| + 1 < U64 && |rec| == SAMPLE_SIZE
      modifies this`writeIndex, data
      ensures writeIndex == |recs| + 1
      ensures var torn := WithRecord(old(data[..]), capacity, SlotOf(|recs|, capacity), rec);
              data[..] == Patched(torn, 0, RingHeader(capacity, |recs| + 1))
    {
      CopyRecord(rec, recs);
      writeIndex := (writeIndex + 1) % U64;
      WriteHeader();
    }

    /** The first `cut` bytes of a record's slot copy: all that is left of
        Record if the process dies then. */
    method CopyPart(rec: seq<byte>, cut: nat, ghost recs: seq<seq<byte>>)
      requires Recorded(recs) && FullSize(recs) && |rec| == SAMPLE_SIZE && cut <= SAMPLE_SIZE
      modifies data
      ensures Recorded(TornAt(recs, capacity, rec, cut))
    {
      TornRecord(data[..], capacity, recs, rec, cut);
      SlotOfIsMod(writeIndex, capacity);
      var slot := writeIndex % capacity;
      Copy(HEADER_SIZE + slot * SAMPLE_SIZE, rec[..cut]);
    }

    /** The first half of Record. */
    method CopyRecord(rec: seq<byte>, ghost recs: seq<seq<byte>>)
      requires Recorded(recs) && |rec| == SAMPLE_SIZE
      modifies data
      ensures data[..] == WithRecord(old(data[..]), capacity, SlotOf(|recs|, capacity), rec)
    {
      SlotOfIsMod(writeIndex, capacity);
      var slot := writeIndex % capacity;
      SlotFits(capacity, slot);
      Copy(HEADER_SIZE + slot * SAMPLE_SIZE, rec);
    }

    method Close() returns (file: seq<byte>)
      ensures file == data[..]
    {
      file := data[..];
    }
  }

  // ----- The reader

  datatype DumpResult = DumpResult(samples: seq<RawSample>, error: Option<Error>)

  ghost predicate FullSize(recs: seq<seq<byte>>) {
    forall i :: 0 <= i < |recs| ==> |recs[i]| == SAMPLE_SIZE
  }

  datatype SlotResult = Good(record: seq<byte>) | Bad(error: Error)

  function Times(n: nat, size: nat): nat {
    if n == 0 then 0 else size + Times(n - 1, size)
  }

  lemma {:induction false} TimesIsProduct(n: nat, size: nat)
    ensures Times(n, size) == n * size
  {
    if n > 0 {
      TimesIsProduct(n - 1, size);
      assert n * size == size + (n - 1) * size;
    }
  }

  /** One slot as the reader sees it. */
  function ReadSlot(raw: seq<byte>, sampleSize: nat, slot: nat): SlotResult {
    var offset := HEADER_SIZE + Times(slot, sampleSize);
    if offset + sampleSize > |raw| then Bad(Truncated)
    else Good(raw[offset..offset + sampleSize])
  }

  /** From slot `start`, going round, the reader meets these records. */
  ghost predicate Reads(raw: seq<byte>, h: Header, start: nat, recs: seq<seq<byte>>) {
    && (recs != [] ==> h.capacity > 0)
    && forall i :: 0 <= i < |recs| ==> ReadSlot(raw, h.sampleSize, SlotOf(start + i, h.capacity)) == Good(recs[i])
  }

  lemma {:induction false} SlotBytes(raw: seq<byte>, cap: nat, slot: nat)
    requires |raw| == FileSize(cap) && slot < cap
    ensures ReadSlot(raw, SAMPLE_SIZE, slot) == Good(Slot(raw, cap, slot))
  {
    SlotFits(cap, slot);
    TimesIsProduct(slot, SAMPLE_SIZE);
  }

  /** A held ring reads as its last records. */
  lemma {:induction false} RingReads(raw: seq<byte>, cap: nat, recs: seq<seq<byte>>)
    requires Ring(raw, cap, recs)
    ensures Reads(raw, Header(SAMPLE_SIZE, cap, |recs|), Start(|recs|, cap), Last(recs, cap))
  {
    forall i | 0 <= i < |Last(recs, cap)|
      ensures ReadSlot(raw, SAMPLE_SIZE, SlotOf(Start(|recs|, cap) + i, cap)) == Good(Last(recs, cap)[i])
    {
      var slot := SlotOf(Start(|recs|, cap) + i, cap);
      SlotRead(raw, cap, recs, i);
      SlotBytes(raw, cap, slot);
    }
  }

  function DecodeOne(rec: seq<byte>): RawSample
    requires |rec| == SAMPLE_SIZE
  {
    DecodeSample(rec).sample
  }

  /** Records decoded one by one. */
  function DecodeAll(recs: seq<seq<byte>>): (r: seq<RawSample>)
    requires FullSize(recs)
    ensures |r| == |recs|
  {
    seq(|recs|, i requires 0 <= i < |recs| => DecodeOne(recs[i]))
  }

  /** Reads a ring file, oldest record first: of a file that holds `recs`,
      exactly the last ones up to its capacity. */
  method Dump(raw: seq<byte>, ghost recs: seq<seq<byte>>, ghost cap: nat) returns (r: DumpResult)
    requires FullSize(recs)
    ensures DecodeHeader(raw).Failed? ==> r == DumpResult([], Some(DecodeHeader(raw).error))
    ensures Holds(raw, cap, recs) ==> r == DumpResult(DecodeAll(Last(recs, cap)), None)
  {
    var decoded := DecodeHeader(raw);
    ghost var want := [];
    if Holds(raw, cap, recs) {
      HoldsResumes(raw, cap, recs);
      RingReads(raw, cap, recs);
      want := Last(recs, cap);
    }
    if decoded.Failed? {
      return DumpResult([], Some(decoded.error));
    }
    var h := decoded.header;
    var written, start := h.writeIndex, 0;
    if written > h.capacity {
      if h.capacity == 0 {
        return DumpResult([], Some(DivideByZero));
      }
      SlotOfIsMod(h.writeIndex, h.capacity);
      written, start := h.capacity, h.writeIndex % h.capacity;
    }
    r := DumpSlots(raw, h, start, written, want);
  }

  /** The slot visited for ring position `k`. */
  method NextSlot(raw: seq<byte>, h: Header, k: nat) returns (d: SlotResult)
    requires h.capacity > 0
    ensures d == ReadSlot(raw, h.sampleSize, SlotOf(k, h.capacity))
  {
    SlotOfIsMod(k, h.capacity);
    var slot := k % h.capacity;
    TimesIsProduct(slot, h.sampleSize);
    var offset := HEADER_SIZE + slot * h.sampleSize;
    if offset + h.sampleSize > |raw| {
      return Bad(Truncated);
    }
    return Good(raw[offset..offset + h.sampleSize]);
  }

  /** The loop of Dump over the written slots. */
  method DumpSlots(raw: seq<byte>, h: Header, start: nat, written: nat, ghost want: seq<seq<byte>>)
      returns (r: DumpResult)
    requires FullSize(want) && (written > 0 ==> h.capacity > 0)
    ensures Reads(raw, h, start, want) && written == |want| ==> r == DumpResult(DecodeAll(want), None)
  {
    var samples := [];
    ghost var good := Reads(raw, h, start, want) && written == |want|;
    for i := 0 to written
      invariant |samples| == i
      invariant good ==> forall j :: 0 <= j < i ==> samples[j] == DecodeOne(want[j])
    {
      var d := NextSlot(raw, h, start + i);
      assert good ==> d == Good(want[i]);
      if d.Bad? {
        return DumpResult(samples, Some(d.error));
      }
      if |d.record| != SAMPLE_SIZE {
        return DumpResult(samples, Some(BadRecord));
      }
      samples := samples + [DecodeOne(d.record)];
    }
    return DumpResult(samples, None);
  }
}
