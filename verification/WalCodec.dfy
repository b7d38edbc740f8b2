/** A record encoding for any given items, so that no run of the buffer is
    excluded by what is asked of its records. */
module WalCodec {
  import opened Common
  import opened FlatLog
  import opened WalDisk
  import opened WalBuffer
  import opened WalRuns

  /** `n` zeros and a one. */
  function Unary(n: nat): (r: seq<byte>)
    ensures |r| == n + 1 && r[n] == 1 && forall i :: 0 <= i < n ==> r[i] == 0
  {
    if n == 0 then [1] else [0] + Unary(n - 1)
  }

  function LeadingZeros(bytes: seq<byte>): (n: nat)
    ensures n <= |bytes| && (forall i :: 0 <= i < n ==> bytes[i] == 0) && (n < |bytes| ==> bytes[n] != 0)
  {
    if bytes == [] || bytes[0] != 0 then 0 else 1 + LeadingZeros(bytes[1..])
  }

  /** The same but for the number. */
  predicate Alike(a: Item, b: Item) {
    a.(seqNo := b.seqNo) == b
  }

  /** Position of the first item like `it`; past the end if there is none. */
  function Position(items: seq<Item>, it: Item): (i: nat)
    ensures i <= |items| && (i < |items| ==> Alike(items[i], it))
    ensures (exists j :: 0 <= j < |items| && Alike(items[j], it)) ==> i < |items|
  {
    if items == [] || Alike(items[0], it) then 0 else 1 + Position(items[1..], it)
  }

  function Encode(items: seq<Item>, it: Item): seq<byte> {
    Unary(Position(items, it)) + Unary(it.seqNo)
  }

  function Decode(items: seq<Item>, bytes: seq<byte>): Option<Item> {
    var k := LeadingZeros(bytes);
    if k < |bytes| && bytes[k] == 1 && k < |items| then
      var n := LeadingZeros(bytes[k + 1..]);
      if k + 1 + n + 1 == |bytes| && bytes[k + 1 + n] == 1 then Some(items[k].(seqNo := n)) else None
    else None
  }

  function CodecFor(items: seq<Item>): Codec {
    Codec(it => Encode(items, it), bytes => Decode(items, bytes))
  }

  /** The two zero runs of a record, cut anywhere. */
  lemma {:induction false} Cut(k: nat, n: nat, cut: nat)
    requires cut <= k + 1 + n + 1
    ensures var bytes := (Unary(k) + Unary(n))[..cut];
            && LeadingZeros(bytes) == (if cut <= k then cut else k)
            && (cut > k ==> LeadingZeros(bytes[k + 1..]) == if cut == k + 1 + n + 1 then n else cut - k - 1)
  {
    var bytes := (Unary(k) + Unary(n))[..cut];
    if cut > k {
      assert bytes[k] == 1;
      var rest := bytes[k + 1..];
      assert forall i :: 0 <= i < |rest| && i < n ==> rest[i] == 0;
      assert cut == k + 1 + n + 1 ==> rest[n] == 1;
    }
  }

  lemma {:induction false} DecodeCut(items: seq<Item>, k: nat, n: nat, cut: nat)
    requires k < |items| && cut <= k + 1 + n + 1
    ensures Decode(items, (Unary(k) + Unary(n))[..cut])
         == if cut == k + 1 + n + 1 then Some(items[k].(seqNo := n)) else None
  {
    Cut(k, n, cut);
  }

  lemma {:induction false} ReadsBack(items: seq<Item>, it: Item)
    requires Position(items, it) < |items|
    ensures Decode(items, Encode(items, it)) == Some(it)
  {
    var whole := Encode(items, it);
    DecodeCut(items, Position(items, it), it.seqNo, |whole|);
    assert whole[..|whole|] == whole;
  }

  lemma {:induction false} RecordFaithful(items: seq<Item>, it: Item)
    requires Position(items, it) < |items|
    ensures Faithful(CodecFor(items), it)
  {
    ReadsBack(items, it);
    forall cut: nat | cut < |Encode(items, it)| ensures Decode(items, Encode(items, it)[..cut]) == None {
      DecodeCut(items, Position(items, it), it.seqNo, cut);
    }
    NoNewline(Position(items, it), it.seqNo);
  }

  lemma {:induction false} NoNewline(k: nat, n: nat)
    ensures NEWLINE !in Unary(k) + Unary(n)
  {
  }

  /** For any items there is a codec whose records of them read back, under
      any number. */
  lemma {:induction false} CodecEncodes(items: seq<Item>, i: nat)
    requires i < |items|
    ensures Encodes(CodecFor(items), items[i])
  {
    forall n: nat ensures Faithful(CodecFor(items), items[i].(seqNo := n)) {
      assert Alike(items[i], items[i].(seqNo := n));
      RecordFaithful(items, items[i].(seqNo := n));
    }
  }

  /** The items a run writes. */
  function Written(ops: seq<Op>): seq<Item> {
    if ops == [] then []
    else
      Written(ops[..|ops| - 1])
      + match ops[|ops| - 1]
        case DoAppend(item) => [item]
        case CrashInAppend(item, _) => [item]
        case _ => []
  }

  lemma {:induction false} WrittenHas(ops: seq<Op>, i: nat)
    requires i < |ops|
    ensures ops[i].DoAppend? || ops[i].CrashInAppend? ==> ops[i].item in Written(ops)
    decreases |ops|
  {
    if i < |ops| - 1 {
      WrittenHas(ops[..|ops| - 1], i);
    }
  }

  lemma {:induction false} AllWritable(ops: seq<Op>)
    ensures forall i :: 0 <= i < |ops| ==> Writable(CodecFor(Written(ops)), ops[i])
  {
    forall i | 0 <= i < |ops| ensures Writable(CodecFor(Written(ops)), ops[i]) {
      if ops[i].DoAppend? || ops[i].CrashInAppend? {
        WrittenHas(ops, i);
        var j :| 0 <= j < |Written(ops)| && Written(ops)[j] == ops[i].item;
        CodecEncodes(Written(ops), j);
      }
    }
  }

  /** Every sequence of operations and crashes can be run from an empty
      directory, and is a run of the empty flat log. */
  method RunFromEmpty(ops: seq<Op>, size: seq<Item> -> nat, segmentBytes: int, maxAge: int, maxBytes: int)
      returns (b: Buffer, flats: seq<Flat>)
    ensures b.Valid() && FlatRun(CodecFor(Written(ops)), flats, ops)
    ensures flats[0] == Flat([], 0) && flats[|ops|] == Flat(b.Items(), b.nextSeq)
  {
    var c := CodecFor(Written(ops));
    IntactSealed(map[], c, 0, 0);
    b := new Buffer(c, size, segmentBytes, maxAge, maxBytes, map[], map[], 0);
    AllWritable(ops);
    b, flats := Run(b, ops);
  }
}
