/** The agent's on-disk buffer (internal/agentbuffer): an open segment that
    every Append extends, sealed segments behind it, and cached metadata.
    `Items()` is the flat log the buffer stands for. */
module WalBuffer {
  import opened Common
  import opened FlatLog
  import opened WalDisk
  import opened WalIndex
  import opened WalRecovery
  import opened WalLayout
  import opened WalSegments

  /** The open segment: its file's stem and size, and its items, which are
      kept in memory too. */
  datatype Writer = Writer(stem: nat, rawBytes: nat, items: seq<Item>)

  /** The open segment, if any, is newer than every sealed one, is the only
      one, and its file holds exactly the items in memory, each of which
      reads back. */
  ghost predicate ActiveOk(active: Option<Writer>, files: Files, open: map<nat, seq<byte>>, c: Codec, clock: nat) {
    match active
    case None => open == map[]
    case Some(w) =>
      && w.stem < clock
      && open == map[w.stem := Render(c, w.items)]
      && w.rawBytes == |Render(c, w.items)|
      && AllFaithful(c, w.items)
      && forall s :: s in files ==> s < w.stem
  }

  function ActiveItems(active: Option<Writer>): seq<Item> {
    if active.None? then [] else active.value.items
  }

  /** The open segment is `stem` and holds `items`. */
  ghost predicate Holds(active: Option<Writer>, stem: nat, items: seq<Item>) {
    active.Some? && active.value.stem == stem && active.value.items == items
  }

  /** What holds of a buffer between operations, field by field. */
  ghost predicate Consistent(c: Codec, size: seq<Item> -> nat, files: Files, open: map<nat, seq<byte>>, clock: nat,
                             next: nat, active: Option<Writer>, sealed: seq<SealedSegment>, total: int)
  {
    && Indexes(sealed, files, size, clock)
    && ActiveOk(active, files, open, c, clock)
    && WellFormed(Collect(files, 0, clock) + ActiveItems(active), next)
    && total == |Collect(files, 0, clock) + ActiveItems(active)|
  }

  /** Taking items out of the sealed segments keeps that. */
  lemma {:induction false} OlderFiltered(
    c: Codec, size: seq<Item> -> nat, files: Files, files': Files, open: map<nat, seq<byte>>, clock: nat, next: nat,
    active: Option<Writer>, sealed: seq<SealedSegment>, sealed': seq<SealedSegment>, total: int,
    lo: nat, gone: set<nat>)
    requires Consistent(c, size, files, open, clock, next, active, sealed, total)
    requires Indexes(sealed', files', size, clock) && files'.Keys <= files.Keys
    requires Collect(files', 0, clock) == Keep(Collect(files, 0, clock), lo, gone)
    ensures var removed := |Collect(files, 0, clock)| - |Collect(files', 0, clock)|;
            Consistent(c, size, files', open, clock, next, active, sealed', total - removed)
  {
    KeepPart(Collect(files, 0, clock), ActiveItems(active), next, lo, gone);
  }

  /** An intact directory recovers to a consistent buffer. */
  lemma {:induction false} IntactOpens(c: Codec, size: seq<Item> -> nat, files: Files, open: map<nat, seq<byte>>,
                                       clock: nat, segs: seq<SealedSegment>)
    requires Intact(files, open, c, clock) && Indexes(segs, Recovered(files, open, c), size, clock)
    ensures var parsed := Parsed(open, c);
            var next := Max(MaxLast(files, clock), MaxLast(parsed, clock));
            var total := |Collect(files, 0, clock)| + |Collect(parsed, 0, clock)|;
            && next == LastSeq(Collect(Recovered(files, open, c), 0, clock))
            && Consistent(c, size, Recovered(files, open, c), map[], clock, next, None, segs, total)
  {
    CollectUnion(files, Parsed(open, c), clock);
    ResumeSeq(files, Parsed(open, c), clock);
    var items := Collect(Recovered(files, open, c), 0, clock);
    assert items + [] == items;
  }

  /** Reads the sealed segments and then, if need be, the open one. */
  method TakeOldest(sealed: seq<SealedSegment>, files: Files, active: Option<Writer>, ghost size: seq<Item> -> nat,
                    ghost clock: nat, n: int) returns (result: seq<Item>)
    requires Indexes(sealed, files, size, clock)
    ensures result == Take(Collect(files, 0, clock) + ActiveItems(active), n)
  {
    IndexLists(sealed, files, size, clock);
    var ok;
    ok, result := ReadOldest(sealed, files, n);
    assert ok;
    if |result| < n && active.Some? {
      result := TakeMore(result, ListItems(sealed, files), active.value.items, n);
    }
  }

  /** A segment that is there in both forms and not empty. */
  ghost predicate ListedInBoth(files: Files, parsed: Files, s: nat) {
    s in files && files[s] != [] && s in parsed && parsed[s] != []
  }

  /** Lists the sealed segments and seals what is left open. */
  method Recover(c: Codec, size: seq<Item> -> nat, files: Files, open: map<nat, seq<byte>>, clock: nat)
      returns (recovered: Files, segs: seq<SealedSegment>, total: nat, next: nat)
    requires StemsBelow(files, open, clock)
    ensures recovered == Recovered(files, open, c) && files.Keys <= Stems(segs)
    ensures total == |Collect(files, 0, clock)| + |Collect(Parsed(open, c), 0, clock)|
    ensures forall s :: ListedInBoth(files, Parsed(open, c), s) ==> Twice(segs, s)
    ensures Agree(files, Parsed(open, c)) ==>
              ListItems(segs, recovered) == Collect(files, 0, clock) + Collect(Parsed(open, c), 0, clock)
    ensures Intact(files, open, c, clock) ==>
              && next == LastSeq(Collect(recovered, 0, clock))
              && Consistent(c, size, recovered, map[], clock, next, None, segs, total)
  {
    var listed, count, last := InspectSealed(files, size, clock);
    var more, newest;
    recovered, segs, more, newest := SealOrphans(c, size, clock, files, open, listed);
    StemsOfPrefix(listed, segs);
    total := count + more;
    next := if newest > last then newest else last;
    forall s | ListedInBoth(files, Parsed(open, c), s) ensures Twice(segs, s) {
      ListedAgain(listed, segs, files, Parsed(open, c), size, clock, s);
    }
    if Intact(files, open, c, clock) {
      IntactOpens(c, size, files, open, clock, segs);
    }
  }

  /** A buffer and the directory it owns. The first three fields are the
      directory and outlive the process; the rest is in memory. */
  class Buffer {
    const codec: Codec
    const size: seq<Item> -> nat    // bytes of a compressed segment
    const segmentBytes: int
    const maxAge: int
    const maxBytes: int

    var files: Files                // <stem>.wal.zst
    var open: map<nat, seq<byte>>   // <stem>.wal
    var clock: nat                  // the stem the next ULID gets

    var nextSeq: nat
    var active: Option<Writer>
    var sealed: seq<SealedSegment>  // oldest first
    var totalLen: int

    /** The buffered items, oldest first. */
    ghost function Items(): seq<Item>
      reads this
    {
      Collect(files, 0, clock) + ActiveItems(active)
    }

    /** Where they lie. */
    ghost function Lay(): Layout
      reads this
    {
      Layout(files, Stems(sealed), ActiveItems(active))
    }

    ghost predicate Valid()
      reads this
    {
      Consistent(codec, size, files, open, clock, nextSeq, active, sealed, totalLen)
    }

    /** Opens a directory, recovering what an earlier run left in it. */
    constructor (codec: Codec, size: seq<Item> -> nat, segmentBytes: int, maxAge: int, maxBytes: int,
                 files: Files, open: map<nat, seq<byte>>, clock: nat)
      requires StemsBelow(files, open, clock)
      ensures this.codec == codec && this.size == size && this.segmentBytes == segmentBytes
      ensures this.maxAge == maxAge && this.maxBytes == maxBytes
      ensures this.open == map[] && this.clock == clock && active == None
      ensures this.files == Recovered(files, open, codec) && files.Keys <= Stems(sealed)
      ensures totalLen == |Collect(files, 0, clock)| + |Collect(Parsed(open, codec), 0, clock)|
      ensures forall s :: ListedInBoth(files, Parsed(open, codec), s) ==> Twice(sealed, s)
      ensures Agree(files, Parsed(open, codec)) ==>
                ListItems(sealed, this.files) == Collect(files, 0, clock) + Collect(Parsed(open, codec), 0, clock)
      ensures Intact(files, open, codec, clock) ==>
                && Valid()
                && Items() == RecoveredItems(files, open, codec, clock)
                && nextSeq == LastSeq(Items())
    {
      var recovered, segs, total, next := Recover(codec, size, files, open, clock);
      this.codec, this.size, this.segmentBytes := codec, size, segmentBytes;
      this.maxAge, this.maxBytes := maxAge, maxBytes;
      this.files, this.open, this.clock := recovered, map[], clock;
      active, sealed, totalLen, nextSeq := None, segs, total, next;
      new;
      assert Items() == Collect(recovered, 0, clock);
    }

    /** Assigns the next sequence number and appends the item to the log. The
        open segment, or a new one, takes it and is sealed once it is full. */
    method Append(item: Item) returns (s: nat)
      requires Valid() && Faithful(codec, item.(seqNo := nextSeq + 1))
      modifies this
      ensures Valid()
      ensures s == nextSeq == old(nextSeq) + 1
      ensures Items() == old(Items()) + [item.(seqNo := s)]
      ensures var stem := if old(active).None? then old(clock) else old(active).value.stem;
              var items := old(ActiveItems(active)) + [item.(seqNo := s)];
              if |Render(codec, items)| < segmentBytes then
                Holds(active, stem, items) && files == old(files) && sealed == old(sealed)
              else
                && active == None && files == old(files)[stem := items]
                && sealed == old(sealed) + [Describe(stem, items, size)]
      ensures clock == old(clock) + if old(active).None? then 1 else 0
    {
      if active.None? {
        StartSegment();
      }
      s := AppendOpen(item);
      if active.value.rawBytes >= segmentBytes {
        Close();
      }
    }

    /** Numbers the item and writes it to the open segment. */
    method AppendOpen(item: Item) returns (s: nat)
      requires Valid() && active.Some? && Faithful(codec, item.(seqNo := nextSeq + 1))
      modifies this`open, this`active, this`nextSeq, this`totalLen
      ensures Valid() && Holds(active, old(active).value.stem, old(ActiveItems(active)) + [item.(seqNo := s)])
      ensures s == nextSeq == old(nextSeq) + 1
      ensures Items() == old(Items()) + [item.(seqNo := s)]
    {
      ExtendWellFormed(Items(), nextSeq, item.(seqNo := nextSeq + 1));
      nextSeq := nextSeq + 1;
      s := nextSeq;
      WriteActive(item.(seqNo := s));
      totalLen := totalLen + 1;
    }

    /** Creates an open segment. */
    method StartSegment()
      requires Valid() && active.None?
      modifies this`open, this`clock, this`active
      ensures Valid() && Holds(active, old(clock), []) && clock == old(clock) + 1
      ensures Items() == old(Items())
    {
      assert At(files, clock) == [];
      assert Collect(files, 0, clock + 1) == Collect(files, 0, clock) + [];
      open := open[clock := []];
      active := Some(Writer(clock, 0, []));
      clock := clock + 1;
    }

    /** Appends one record to the open segment. */
    method WriteActive(item: Item)
      requires active.Some? && Faithful(codec, item) && ActiveOk(active, files, open, codec, clock)
      modifies this`open, this`active
      ensures ActiveOk(active, files, open, codec, clock)
      ensures Holds(active, old(active).value.stem, old(ActiveItems(active)) + [item])
      ensures Items() == old(Items()) + [item]
    {
      var w, line := active.value, Line(codec, item);
      RenderSnoc(codec, w.items, item);
      open := open[w.stem := open[w.stem] + line];
      active := Some(Writer(w.stem, w.rawBytes + |line|, w.items + [item]));
    }

    /** Replaces the open segment by a sealed one with the same items. */
    method SealActive()
      requires active.Some? && ActiveOk(active, files, open, codec, clock)
      requires Indexes(sealed, files, size, clock)
      modifies this`files, this`open, this`active, this`sealed
      ensures active == None && open == map[]
      ensures files == old(files)[old(active).value.stem := old(ActiveItems(active))]
      ensures sealed == old(sealed) + [Describe(old(active).value.stem, old(ActiveItems(active)), size)]
      ensures Indexes(sealed, files, size, clock)
      ensures Items() == old(Items())
    {
      var w := active.value;
      IndexNewest(sealed, files, size, clock, w.stem, w.items);
      files := files[w.stem := w.items];
      open := open - {w.stem};
      var minSeq, maxSeq := 0, 0;
      if |w.items| > 0 {
        minSeq, maxSeq := w.items[0].seqNo, w.items[|w.items| - 1].seqNo;
      }
      sealed := sealed + [SealedSegment(w.stem, minSeq, maxSeq, |w.items|, size(w.items))];
      active := None;
    }

    /** Replaces the contents of the open segment. */
    method RewriteActive(items: seq<Item>)
      requires active.Some? && AllFaithful(codec, items) && ActiveOk(active, files, open, codec, clock)
      modifies this`open, this`active
      ensures Holds(active, old(active).value.stem, items) && ActiveOk(active, files, open, codec, clock)
    {
      var buf := RenderAll(codec, items);
      open := open[active.value.stem := buf];
      active := Some(Writer(active.value.stem, |buf|, items));
    }

    /** Seals the open segment; nothing buffered changes. */
    method Close()
      requires Valid()
      modifies this`files, this`open, this`active, this`sealed
      ensures Valid() && active == None
      ensures Items() == old(Items())
      ensures if old(active).None? then files == old(files) && sealed == old(sealed) else
                && files == old(files)[old(active).value.stem := old(ActiveItems(active))]
                && sealed == old(sealed) + [Describe(old(active).value.stem, old(ActiveItems(active)), size)]
    {
      if active.Some? {
        SealActive();
      }
    }

    /** Removes every item numbered up to `upTo`. */
    method Ack(upTo: nat)
      requires Valid()
      modifies this`files, this`open, this`active, this`sealed, this`totalLen
      ensures Valid()
      ensures Items() == Keep(old(Items()), upTo, {})
      ensures if old(active).None? then active == None
              else Holds(active, old(active).value.stem, Keep(old(ActiveItems(active)), upTo, {}))
      ensures files.Keys <= old(files.Keys)
    {
      KeepConcat(Collect(files, 0, clock), ActiveItems(active), upTo, {});
      AckOlder(upTo);
      if active.Some? {
        AckActive(upTo);
      }
    }

    method AckOlder(upTo: nat)
      requires Valid()
      modifies this`files, this`sealed, this`totalLen
      ensures Valid()
      ensures Collect(files, 0, clock) == Keep(old(Collect(files, 0, clock)), upTo, {})
      ensures files.Keys <= old(files.Keys)
    {
      KeepPart(Collect(files, 0, clock), ActiveItems(active), nextSeq, upTo, {});
      var left, listed, removed := AckSealed(sealed, files, size, clock, upTo, nextSeq);
      OlderFiltered(codec, size, files, left, open, clock, nextSeq, active, sealed, listed, totalLen, upTo, {});
      files, sealed, totalLen := left, listed, totalLen - removed;
    }

    method AckActive(upTo: nat)
      requires Valid() && active.Some?
      modifies this`open, this`active, this`totalLen
      ensures Valid() && Holds(active, old(active).value.stem, Keep(old(ActiveItems(active)), upTo, {}))
    {
      KeepPart(Collect(files, 0, clock), ActiveItems(active), nextSeq, upTo, {});
      var remaining, gone := SplitAcked(active.value.items, upTo);
      if gone > 0 {
        KeepFaithful(codec, active.value.items, upTo, {});
        RewriteActive(remaining);
        totalLen := totalLen - gone;
      } else {
        KeepSameLength(active.value.items, upTo, {});
      }
    }

    /** Removes the item numbered `x`; false if there is none. */
    method RemoveItem(x: nat) returns (found: bool)
      requires Valid()
      modifies this`files, this`open, this`active, this`sealed, this`totalLen
      ensures Valid()
      ensures found <==> x in Seqs(old(Items()))
      ensures Items() == Keep(old(Items()), 0, {x})
      ensures Lay() == Without(old(Lay()), {x})
    {
      ghost var front, back := Collect(files, 0, clock), ActiveItems(active);
      KeepConcat(front, back, 0, {x});
      SeqsOfConcat(front, back, x);
      if active.Some? {
        var i := FindSeq(active.value.items, x);
        if i >= 0 {
          RemoveOpen(front, back, nextSeq, i);
          GoneNowhere(files, Stems(sealed), clock, nextSeq, x);
          RemoveFromActive(i);
          return true;
        }
      }
      KeepAbsent(front, back, nextSeq, x);
      found := RemoveOlder(x);
    }

    method RemoveFromActive(i: nat)
      requires Valid() && active.Some? && i < |active.value.items|
      modifies this`open, this`active, this`totalLen
      ensures Valid()
      ensures ActiveItems(active) == Keep(old(ActiveItems(active)), 0, {old(ActiveItems(active))[i].seqNo})
    {
      ghost var front, back := Collect(files, 0, clock), ActiveItems(active);
      KeepPart(front, back, nextSeq, 0, {back[i].seqNo});
      RemoveOpen(front, back, nextSeq, i);
      KeepFaithful(codec, back, 0, {back[i].seqNo});
      RewriteActive(active.value.items[..i] + active.value.items[i + 1..]);
      totalLen := totalLen - 1;
    }

    method RemoveOlder(x: nat) returns (found: bool)
      requires Valid()
      modifies this`files, this`sealed, this`totalLen
      ensures Valid()
      ensures found <==> x in Seqs(old(Collect(files, 0, clock)))
      ensures Collect(files, 0, clock) == Keep(old(Collect(files, 0, clock)), 0, {x})
      ensures files == FilesWithout(old(files), {x})
      ensures Stems(sealed) == StemsWithout(Stems(old(sealed)), old(files), {x})
    {
      KeepPart(Collect(files, 0, clock), ActiveItems(active), nextSeq, 0, {x});
      var left, listed;
      left, listed, found := RemoveSealed(sealed, files, size, clock, x, nextSeq);
      OlderFiltered(codec, size, files, left, open, clock, nextSeq, active, sealed, listed, totalLen, 0, {x});
      files, sealed := left, listed;
      if found {
        totalLen := totalLen - 1;
      }
    }

    method Len() returns (n: int)
      requires Valid()
      ensures n == |Items()|
    {
      n := totalLen;
    }

    /** The oldest `n` items, or all of them if there are fewer. */
    method OldestItems(n: int) returns (result: seq<Item>)
      requires Valid()
      ensures |result| == (if n <= 0 then 0 else if n < |Items()| then n else |Items()|)
      ensures result <= Items()
    {
      result := TakeOldest(sealed, files, active, size, clock, n);
    }
  }
}
