/** The ring of fixed-size records behind the black-box header. */
module BlackBoxRing {
  import opened Common

  const HEADER_SIZE := 64
  const SAMPLE_SIZE := 1384

  function FileSize(capacity: nat): nat {
    HEADER_SIZE + capacity * SAMPLE_SIZE
  }

  function Offset(slot: nat): nat {
    HEADER_SIZE + slot * SAMPLE_SIZE
  }

  /** The slot of record `i`: its number modulo the capacity. */
  function SlotOf(i: nat, m: nat): (slot: nat)
    requires m > 0
    ensures slot < m && slot <= i
  {
    if i < m then i else SlotOf(i - m, m)
  }

  lemma {:induction false} SlotOfIsMod(i: nat, m: nat)
    requires m > 0
    ensures SlotOf(i, m) == i % m
  {
    if i >= m {
      SlotOfIsMod(i - m, m);
      ModMinus(i, m);
    }
  }

  lemma {:induction false} ModMinus(i: nat, m: nat)
    requires 0 < m <= i
    ensures i % m == (i - m) % m
  {
    var q, r, q', r' := i / m, i % m, (i - m) / m, (i - m) % m;
    assert i == q * m + r && i - m == q' * m + r';
    Remainders(q, q' + 1, m, r, r');
  }

  lemma {:induction false} Remainders(q: int, q': int, m: nat, r: nat, r': nat)
    requires r < m && r' < m && q * m + r == q' * m + r'
    ensures r == r'
  {
    if q < q' {
      AtLeastOnce(q' - q, m);
    } else if q > q' {
      AtLeastOnce(q - q', m);
    }
  }

  lemma AtLeastOnce(d: int, m: nat)
    requires d >= 1
    ensures d * m >= m
  {
  }

  /** Records less than a lap apart use different slots. */
  lemma {:induction false} SlotsDiffer(i: nat, n: nat, m: nat)
    requires m > 0 && i < n < i + m
    ensures SlotOf(i, m) != SlotOf(n, m)
  {
    if i >= m {
      SlotsDiffer(i - m, n - m, m);
    }
  }

  lemma {:induction false} SlotOfSum(n: nat, i: nat, m: nat)
    requires m > 0
    ensures SlotOf(SlotOf(n, m) + i, m) == SlotOf(n + i, m)
  {
    if n >= m {
      SlotOfSum(n - m, i, m);
      assert SlotOf(n + i, m) == SlotOf(n + i - m, m);
    }
  }

  lemma {:induction false} SlotFits(capacity: nat, slot: nat)
    requires slot < capacity
    ensures Offset(slot) + SAMPLE_SIZE <= FileSize(capacity)
  {
  }

  function Slot(bytes: seq<byte>, capacity: nat, slot: nat): (r: seq<byte>)
    requires |bytes| == FileSize(capacity) && slot < capacity
    ensures |r| == SAMPLE_SIZE
  {
    SlotFits(capacity, slot);
    bytes[Offset(slot)..Offset(slot) + SAMPLE_SIZE]
  }

  /** The last records are in their slots. */
  ghost predicate Ring(bytes: seq<byte>, capacity: nat, recs: seq<seq<byte>>) {
    && capacity > 0
    && |bytes| == FileSize(capacity)
    && forall i :: 0 <= i < |recs| && |recs| - capacity <= i ==> Slot(bytes, capacity, SlotOf(i, capacity)) == recs[i]
  }

  /** `bytes` with `part` written at `offset`. */
  function Patched(bytes: seq<byte>, offset: nat, part: seq<byte>): (r: seq<byte>)
    requires offset + |part| <= |bytes|
    ensures |r| == |bytes|
  {
    bytes[..offset] + part + bytes[offset + |part|..]
  }

  /** `bytes` with a record written into its slot. */
  function WithRecord(bytes: seq<byte>, capacity: nat, slot: nat, rec: seq<byte>): (r: seq<byte>)
    requires |bytes| == FileSize(capacity) && slot < capacity && |rec| == SAMPLE_SIZE
    ensures |r| == |bytes|
  {
    SlotFits(capacity, slot);
    Patched(bytes, Offset(slot), rec)
  }

  lemma {:induction false} SlicePatched(bytes: seq<byte>, offset: nat, part: seq<byte>, lo: nat, hi: nat)
    requires offset + |part| <= |bytes| && lo <= hi <= |bytes|
    ensures hi <= offset || lo >= offset + |part| ==> Patched(bytes, offset, part)[lo..hi] == bytes[lo..hi]
    ensures Patched(bytes, offset, part)[offset..offset + |part|] == part
  {
    var p := Patched(bytes, offset, part);
    if hi <= offset || lo >= offset + |part| {
      forall i | lo <= i < hi ensures p[i] == bytes[i] {
      }
      assert p[lo..hi] == bytes[lo..hi];
    }
  }

  lemma {:induction false} SlotWritten(bytes: seq<byte>, capacity: nat, slot: nat, other: nat, rec: seq<byte>)
    requires |bytes| == FileSize(capacity) && slot < capacity && other < capacity && |rec| == SAMPLE_SIZE
    ensures Slot(WithRecord(bytes, capacity, slot, rec), capacity, other)
         == if other == slot then rec else Slot(bytes, capacity, other)
  {
    SlotFits(capacity, slot);
    SlotFits(capacity, other);
    SlicePatched(bytes, Offset(slot), rec, Offset(other), Offset(other) + SAMPLE_SIZE);
  }

  lemma {:induction false} HeaderKept(bytes: seq<byte>, capacity: nat, slot: nat, rec: seq<byte>)
    requires |bytes| == FileSize(capacity) && slot < capacity && |rec| == SAMPLE_SIZE
    ensures WithRecord(bytes, capacity, slot, rec)[..HEADER_SIZE] == bytes[..HEADER_SIZE]
  {
    SlotFits(capacity, slot);
    SlicePatched(bytes, Offset(slot), rec, 0, HEADER_SIZE);
  }

  /** A header write touches no record. */
  lemma {:induction false} HeaderWritten(bytes: seq<byte>, capacity: nat, recs: seq<seq<byte>>, h: seq<byte>)
    requires Ring(bytes, capacity, recs) && |h| == HEADER_SIZE
    ensures Ring(Patched(bytes, 0, h), capacity, recs)
    ensures Patched(bytes, 0, h)[..HEADER_SIZE] == h
  {
    var done := Patched(bytes, 0, h);
    forall slot: nat | slot < capacity ensures Slot(done, capacity, slot) == Slot(bytes, capacity, slot) {
      SlotFits(capacity, slot);
      SlicePatched(bytes, 0, h, Offset(slot), Offset(slot) + SAMPLE_SIZE);
    }
    SlicePatched(bytes, 0, h, 0, 0);
  }

  /** Writing record n into its slot extends the ring. */
  lemma {:induction false} RingExtended(bytes: seq<byte>, capacity: nat, recs: seq<seq<byte>>, rec: seq<byte>)
    requires Ring(bytes, capacity, recs) && |rec| == SAMPLE_SIZE
    ensures Ring(WithRecord(bytes, capacity, SlotOf(|recs|, capacity), rec), capacity, recs + [rec])
  {
    var n := |recs|;
    var slot := SlotOf(n, capacity);
    forall i | 0 <= i < n + 1 && n + 1 - capacity <= i
      ensures Slot(WithRecord(bytes, capacity, slot, rec), capacity, SlotOf(i, capacity)) == (recs + [rec])[i]
    {
      SlotWritten(bytes, capacity, slot, SlotOf(i, capacity), rec);
      if i < n {
        SlotsDiffer(i, n, capacity);
      }
    }
  }

  /** The records a reader sees if the count was not advanced: in a ring that
      has not wrapped the same as before, in one that has, the new record in
      place of the oldest. */
  function Torn<T>(recs: seq<T>, capacity: nat, rec: T): (r: seq<T>)
    requires capacity > 0
    ensures |r| == |recs|
  {
    if |recs| < capacity then recs else recs[|recs| - capacity := rec]
  }

  lemma {:induction false} RingTorn(bytes: seq<byte>, capacity: nat, recs: seq<seq<byte>>, rec: seq<byte>)
    requires Ring(bytes, capacity, recs) && |rec| == SAMPLE_SIZE
    ensures Ring(WithRecord(bytes, capacity, SlotOf(|recs|, capacity), rec), capacity, Torn(recs, capacity, rec))
  {
    var n := |recs|;
    var slot := SlotOf(n, capacity);
    forall i | 0 <= i < n && n - capacity <= i
      ensures Slot(WithRecord(bytes, capacity, slot, rec), capacity, SlotOf(i, capacity))
           == Torn(recs, capacity, rec)[i]
    {
      SlotWritten(bytes, capacity, slot, SlotOf(i, capacity), rec);
      if i != n - capacity {
        SlotsDiffer(i, n, capacity);
      }
    }
  }

  /** The first `cut` bytes of one record, then the rest of another. */
  function Mixed(old_: seq<byte>, new_: seq<byte>, cut: nat): (r: seq<byte>)
    requires |old_| == |new_| == SAMPLE_SIZE && cut <= SAMPLE_SIZE
    ensures |r| == SAMPLE_SIZE
  {
    new_[..cut] + old_[cut..]
  }

  /** A slot copy cut short is a whole copy of the mixed record. */
  lemma {:induction false} CutCopy(bytes: seq<byte>, capacity: nat, slot: nat, rec: seq<byte>, cut: nat)
    requires |bytes| == FileSize(capacity) && slot < capacity && |rec| == SAMPLE_SIZE && cut <= SAMPLE_SIZE
    ensures Offset(slot) + cut <= |bytes|
    ensures Patched(bytes, Offset(slot), rec[..cut])
         == WithRecord(bytes, capacity, slot, Mixed(Slot(bytes, capacity, slot), rec, cut))
  {
    SlotFits(capacity, slot);
    CutPatch(bytes, Offset(slot), rec, cut);
  }

  lemma {:induction false} CutPatch(bytes: seq<byte>, offset: nat, rec: seq<byte>, cut: nat)
    requires |rec| == SAMPLE_SIZE && cut <= SAMPLE_SIZE && offset + SAMPLE_SIZE <= |bytes|
    ensures Patched(bytes, offset, rec[..cut])
         == Patched(bytes, offset, Mixed(bytes[offset..offset + SAMPLE_SIZE], rec, cut))
  {
    var a, b := Patched(bytes, offset, rec[..cut]),
                Patched(bytes, offset, Mixed(bytes[offset..offset + SAMPLE_SIZE], rec, cut));
    forall i | 0 <= i < |bytes| ensures a[i] == b[i] {
    }
  }

  /** In a ring that has wrapped the next slot holds the oldest record. */
  lemma {:induction false} NextSlotOldest(bytes: seq<byte>, capacity: nat, recs: seq<seq<byte>>)
    requires Ring(bytes, capacity, recs) && |recs| >= capacity
    ensures Slot(bytes, capacity, SlotOf(|recs|, capacity)) == recs[|recs| - capacity]
  {
    assert SlotOf(|recs|, capacity) == SlotOf(|recs| - capacity, capacity);
  }

  /** What a reader sees after a slot copy cut at `cut`: in a ring that has
      wrapped the oldest record is mixed with the new one. */
  function TornAt(recs: seq<seq<byte>>, capacity: nat, rec: seq<byte>, cut: nat): (r: seq<seq<byte>>)
    requires capacity > 0 && |rec| == SAMPLE_SIZE && cut <= SAMPLE_SIZE
    requires forall i :: 0 <= i < |recs| ==> |recs[i]| == SAMPLE_SIZE
    ensures |r| == |recs|
  {
    if |recs| < capacity then recs
    else recs[|recs| - capacity := Mixed(recs[|recs| - capacity], rec, cut)]
  }

  /** What a ring of this capacity still has. */
  function Last<T>(recs: seq<T>, capacity: nat): seq<T> {
    if |recs| <= capacity then recs else recs[|recs| - capacity..]
  }

  /** Where the oldest record is. */
  function Start(count: nat, capacity: nat): nat
    requires count > capacity ==> capacity > 0
  {
    if count > capacity then SlotOf(count, capacity) else 0
  }

  /** The slot the reader visits in step `i` holds the i-th oldest record. */
  lemma {:induction false} SlotRead(bytes: seq<byte>, capacity: nat, recs: seq<seq<byte>>, i: nat)
    requires Ring(bytes, capacity, recs) && i < |Last(recs, capacity)|
    ensures Slot(bytes, capacity, SlotOf(Start(|recs|, capacity) + i, capacity)) == Last(recs, capacity)[i]
  {
    var n := |recs|;
    if n > capacity {
      SlotOfSum(n, i, capacity);
      assert SlotOf(n + i, capacity) == SlotOf(n - capacity + i, capacity);
    }
  }
}
