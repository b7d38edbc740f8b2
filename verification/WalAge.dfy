/** An outage that the buffer's age budget does not see. */
module WalAge {
  import opened Common
  import opened FlatLog
  import opened WalDisk
  import opened WalIndex
  import opened WalRecovery
  import opened WalBuffer
  import opened WalCapacity
  import opened WalRuns

  /** The sealed segments once the open one is sealed too. */
  function OnClose(files: Files, active: Option<Writer>): Files {
    if active.None? then files else files[active.value.stem := active.value.items]
  }

  /** Whether the newest segment is open still or sealed already. */
  lemma {:induction false} ClosesTo(active: Option<Writer>, files: Files, before: Files, stem: nat, items: seq<Item>)
    requires if active.None? then files == before[stem := items] else Holds(active, stem, items) && files == before
    ensures OnClose(files, active) == before[stem := items]
  {
  }

  /** Stops and starts again: every segment file is listed, empty or not. */
  method Restarted(b: Buffer) returns (b': Buffer)
    requires b.Valid()
    modifies b`files, b`open, b`active, b`sealed
    ensures fresh(b') && b'.Valid() && b'.active == None && b'.files.Keys <= Stems(b'.sealed)
    ensures b'.codec == b.codec && b'.segmentBytes == b.segmentBytes && b'.maxBytes == b.maxBytes
    ensures b'.clock == b.clock && b'.nextSeq == LastSeq(b'.Items())
    ensures b'.Items() == old(b.Items())
    ensures b'.files == OnClose(old(b.files), old(b.active))
  {
    b.Close();
    assert b.Items() == Collect(b.files, 0, b.clock);
    IntactSealed(b.files, b.codec, b.clock, b.nextSeq);
    b' := new Buffer(b.codec, b.size, b.segmentBytes, b.maxAge, b.maxBytes, b.files, b.open, b.clock);
    assert Recovered(b.files, map[], b.codec) == b.files;
  }

  /** Segment 0 is listed first, if it is listed. */
  lemma {:induction false} ZeroFirst(segs: seq<SealedSegment>)
    requires Sorted(segs) && 0 in Stems(segs)
    ensures segs[0].stem == 0
  {
  }

  lemma {:induction false} HiddenBehind(segs: seq<SealedSegment>, files: Files, y: Item)
    requires Sorted(segs) && files == map[0 := [], 1 := [y]] && files.Keys <= Stems(segs)
    ensures Hides(segs, files) && AgeItem(segs, files, None) == None
  {
    assert 0 in files && 1 in files;
    ZeroFirst(segs);
    var i :| 0 <= i < |segs| && segs[i].stem == 1;
    assert At(files, segs[i].stem) == [y];
  }

  method Started(codec: Codec, size: seq<Item> -> nat, segmentBytes: int, maxAge: int, maxBytes: int)
      returns (b: Buffer)
    ensures fresh(b) && b.Valid() && b.codec == codec && b.segmentBytes == segmentBytes
    ensures b.active == None && b.files == map[] && b.clock == b.nextSeq == 0
  {
    IntactSealed(map[], codec, 0, 0);
    b := new Buffer(codec, size, segmentBytes, maxAge, maxBytes, map[], map[], 0);
  }

  method AppendFirst(b: Buffer, x: Item)
    requires b.Valid() && b.active == None && b.files == map[] && b.clock == b.nextSeq == 0
    requires Faithful(b.codec, x.(seqNo := 1)) && |Line(b.codec, x.(seqNo := 1))| < b.segmentBytes
    modifies b
    ensures b.Valid() && Holds(b.active, 0, [x.(seqNo := 1)]) && b.files == map[] && b.clock == 1
  {
    OneLine(b.codec, x.(seqNo := 1));
    var _ := b.Append(x);
  }

  method AckFirst(b: Buffer, it: Item)
    requires b.Valid() && Holds(b.active, 0, [it]) && b.files == map[]
    modifies b`files, b`open, b`active, b`sealed, b`totalLen
    ensures b.Valid() && b.Items() == [] && OnClose(b.files, b.active) == map[0 := []]
  {
    KeepNothing([it], it.seqNo, {});
    b.Ack(it.seqNo);
    ClosesTo(b.active, b.files, map[], 0, []);
    CollectEmpty(b.files, 0, b.clock);
  }

  lemma {:induction false} OneLine(c: Codec, it: Item)
    ensures Render(c, [] + [it]) == Line(c, it)
  {
    RenderSnoc(c, [], it);
  }

  method AppendSecond(b: Buffer, y: Item)
    requires b.Valid() && b.active == None && b.files == map[0 := []] && b.clock == 1
    requires b.Items() == [] && b.nextSeq == 0 && Faithful(b.codec, y.(seqNo := 1))
    modifies b
    ensures b.Valid() && OnClose(b.files, b.active) == map[0 := [], 1 := [y.(seqNo := 1)]]
    ensures b.Items() == [y.(seqNo := 1)]
  {
    var it := y.(seqNo := 1);
    assert [] + [it] == [it];
    var _ := b.Append(y);
    ClosesTo(b.active, b.files, map[0 := []], 1, [it]);
  }

  /** Item `x` is confirmed while its segment is open and the agent restarts,
      which leaves an empty segment; `y` is sealed behind it by the next
      restart. From then on only the byte budget can discard `y`, whatever
      its timestamp and the time. */
  method AgeUnseen(codec: Codec, size: seq<Item> -> nat, segmentBytes: int, maxAge: int, maxBytes: int,
                   x: Item, y: Item) returns (b: Buffer)
    requires Faithful(codec, x.(seqNo := 1)) && Faithful(codec, y.(seqNo := 1))
    requires |Line(codec, x.(seqNo := 1))| < segmentBytes
    ensures b.Valid() && b.Items() == [y.(seqNo := 1)] && Hides(b.sealed, b.files)
    ensures forall now :: OverBudget(b, now) <==> DiskBytes(b) > b.maxBytes
  {
    var b0 := Started(codec, size, segmentBytes, maxAge, maxBytes);
    AppendFirst(b0, x);
    AckFirst(b0, x.(seqNo := 1));
    var b1 := Restarted(b0);
    AppendSecond(b1, y);
    b := Restarted(b1);
    HiddenBehind(b.sealed, b.files, y.(seqNo := 1));
  }
}
