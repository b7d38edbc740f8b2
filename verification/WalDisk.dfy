/** The buffer directory: sealed segments `<stem>.wal.zst`, open segments
    `<stem>.wal`, and the line format of an open segment. A stem stands for
    a ULID; ULIDs made later compare greater. */
module WalDisk {
  import opened Common
  import opened FlatLog

  const NEWLINE: byte := 10

  // ----- Segment contents by stem

  type Files = map<nat, seq<Item>>

  /** Contents of a segment; a missing file holds nothing. */
  function At(files: Files, stem: nat): seq<Item> {
    if stem in files then files[stem] else []
  }

  /** All items of the segments with stems in [lo, hi), in stem order. */
  function Collect(files: Files, lo: nat, hi: nat): seq<Item>
    requires lo <= hi
    decreases hi - lo
  {
    if lo == hi then [] else Collect(files, lo, hi - 1) + At(files, hi - 1)
  }

  lemma {:induction false} CollectSplit(files: Files, lo: nat, mid: nat, hi: nat)
    requires lo <= mid <= hi
    ensures Collect(files, lo, hi) == Collect(files, lo, mid) + Collect(files, mid, hi)
    decreases hi - mid
  {
    if mid < hi {
      CollectSplit(files, lo, mid, hi - 1);
    }
  }

  lemma {:induction false} CollectEqual(f: Files, g: Files, lo: nat, hi: nat)
    requires lo <= hi && forall s: nat :: lo <= s < hi ==> At(f, s) == At(g, s)
    ensures Collect(f, lo, hi) == Collect(g, lo, hi)
    decreases hi - lo
  {
    if lo < hi {
      CollectEqual(f, g, lo, hi - 1);
      assert At(f, hi - 1) == At(g, hi - 1);
    }
  }

  lemma {:induction false} CollectEmpty(files: Files, lo: nat, hi: nat)
    requires lo <= hi && forall s: nat :: lo <= s < hi ==> At(files, s) == []
    ensures Collect(files, lo, hi) == []
    decreases hi - lo
  {
    if lo < hi {
      CollectEmpty(files, lo, hi - 1);
      assert At(files, hi - 1) == [];
    }
  }

  /** Filtering every segment filters the whole log. */
  lemma {:induction false} CollectKeep(f: Files, g: Files, lo: nat, hi: nat, low: nat, gone: set<nat>)
    requires lo <= hi && forall s: nat :: lo <= s < hi ==> At(g, s) == Keep(At(f, s), low, gone)
    ensures Collect(g, lo, hi) == Keep(Collect(f, lo, hi), low, gone)
    decreases hi - lo
  {
    if lo < hi {
      CollectKeep(f, g, lo, hi - 1, low, gone);
      assert At(g, hi - 1) == Keep(At(f, hi - 1), low, gone);
      KeepConcat(Collect(f, lo, hi - 1), At(f, hi - 1), low, gone);
    }
  }

  /** A segment is a contiguous slice of the whole log. */
  lemma {:induction false} CollectAround(files: Files, stem: nat, hi: nat)
    requires stem < hi
    ensures Collect(files, 0, hi) == Collect(files, 0, stem) + At(files, stem) + Collect(files, stem + 1, hi)
  {
    CollectSplit(files, 0, stem + 1, hi);
  }

  /** Writing a segment newer than every existing one appends to the log. */
  lemma {:induction false} CollectAppend(files: Files, stem: nat, items: seq<Item>, hi: nat)
    requires stem < hi && forall s :: s in files ==> s < stem
    ensures Collect(files[stem := items], 0, hi) == Collect(files, 0, hi) + items
  {
    var g := files[stem := items];
    CollectNewest(g, stem, hi);
    CollectNewest(files, stem, hi);
    CollectEqual(files, g, 0, stem);
  }

  lemma {:induction false} CollectNewest(files: Files, stem: nat, hi: nat)
    requires stem < hi && forall s :: s in files ==> s <= stem
    ensures Collect(files, 0, hi) == Collect(files, 0, stem) + At(files, stem)
  {
    CollectAround(files, stem, hi);
    CollectEmpty(files, stem + 1, hi);
  }

  lemma {:induction false} SliceWellFormed(pre: seq<Item>, mid: seq<Item>, post: seq<Item>, next: nat)
    requires WellFormed(pre + mid + post, next)
    ensures WellFormed(mid, next)
  {
    var all := pre + mid + post;
    assert forall i :: 0 <= i < |mid| ==> mid[i] == all[|pre| + i];
  }

  /** Items of one segment inherit the order of the whole log. */
  lemma {:induction false} SegmentWellFormed(files: Files, stem: nat, hi: nat, next: nat)
    requires stem < hi && WellFormed(Collect(files, 0, hi), next)
    ensures WellFormed(At(files, stem), next)
  {
    CollectAround(files, stem, hi);
    SliceWellFormed(Collect(files, 0, stem), At(files, stem), Collect(files, stem + 1, hi), next);
  }

  // ----- Records of an open segment

  /** The record encoding of one item (a JSON line in the source). */
  datatype Codec = Codec(enc: Item -> seq<byte>, dec: seq<byte> -> Option<Item>)

  /** The record of `it` decodes to `it`, contains no newline, and does not
      decode when cut short. */
  ghost predicate Faithful(c: Codec, it: Item) {
    && c.enc(it) != []
    && NEWLINE !in c.enc(it)
    && c.dec(c.enc(it)) == Some(it)
    && forall k: nat :: k < |c.enc(it)| ==> c.dec(c.enc(it)[..k]) == None
  }

  ghost predicate AllFaithful(c: Codec, items: seq<Item>) {
    forall i :: 0 <= i < |items| ==> Faithful(c, items[i])
  }

  /** The item's record is faithful whatever number it is given. */
  ghost predicate Encodes(c: Codec, it: Item) {
    forall n: nat :: Faithful(c, it.(seqNo := n))
  }

  lemma {:induction false} KeepFaithful(c: Codec, items: seq<Item>, lo: nat, gone: set<nat>)
    requires AllFaithful(c, items)
    ensures AllFaithful(c, Keep(items, lo, gone))
  {
    var kept := Keep(items, lo, gone);
    forall i | 0 <= i < |kept| ensures Faithful(c, kept[i]) {
      KeepMember(items, lo, gone, kept[i]);
    }
  }

  function Line(c: Codec, it: Item): seq<byte> {
    c.enc(it) + [NEWLINE]
  }

  function Render(c: Codec, items: seq<Item>): seq<byte> {
    if items == [] then [] else Line(c, items[0]) + Render(c, items[1..])
  }

  /** Length of the first line, without its newline. */
  function LineEnd(bytes: seq<byte>): (n: nat)
    ensures n <= |bytes|
    ensures NEWLINE !in bytes[..n]
    ensures n < |bytes| ==> bytes[n] == NEWLINE
  {
    if bytes == [] || bytes[0] == NEWLINE then 0 else 1 + LineEnd(bytes[1..])
  }

  function AfterLine(bytes: seq<byte>): (rest: seq<byte>)
    ensures bytes != [] ==> |rest| < |bytes|
  {
    if LineEnd(bytes) < |bytes| then bytes[LineEnd(bytes) + 1..] else []
  }

  /** What crash recovery reads out of an open segment: the records up to
      the first line that does not decode. */
  function Parse(c: Codec, bytes: seq<byte>): seq<Item>
    decreases |bytes|
  {
    if bytes == [] then []
    else
      var line := bytes[..LineEnd(bytes)];
      if line == [] then Parse(c, AfterLine(bytes))
      else match c.dec(line)
        case None => []
        case Some(it) => [it] + Parse(c, AfterLine(bytes))
  }

  lemma {:induction false} LineEndIs(bytes: seq<byte>, n: nat)
    requires n <= |bytes| && NEWLINE !in bytes[..n] && (n < |bytes| ==> bytes[n] == NEWLINE)
    ensures LineEnd(bytes) == n
  {
    if n > 0 {
      assert bytes[0] == bytes[..n][0];
      assert bytes[1..][..n - 1] == bytes[..n][1..];
      LineEndIs(bytes[1..], n - 1);
    }
  }

  lemma {:induction false} ParseLine(c: Codec, it: Item, tail: seq<byte>)
    requires Faithful(c, it)
    ensures Parse(c, Line(c, it) + tail) == [it] + Parse(c, tail)
  {
    var bytes := Line(c, it) + tail;
    var n := |c.enc(it)|;
    assert bytes[..n] == c.enc(it);
    LineEndIs(bytes, n);
    assert AfterLine(bytes) == tail;
  }

  /** Appending a record appends its line to the file. */
  lemma {:induction false} RenderSnoc(c: Codec, items: seq<Item>, it: Item)
    ensures Render(c, items + [it]) == Render(c, items) + Line(c, it)
  {
    if items == [] {
      assert items + [it] == [it];
      assert Render(c, [it]) == Line(c, it) + [];
    } else {
      assert (items + [it])[1..] == items[1..] + [it];
      RenderSnoc(c, items[1..], it);
    }
  }

  lemma HeadFirst<T>(s: seq<T>, t: seq<T>)
    requires s != []
    ensures [s[0]] + (s[1..] + t) == s + t
  {
  }

  /** Recovery reads back every record whose newline reached the disk, and
      then whatever follows. */
  lemma {:induction false} ParseRender(c: Codec, items: seq<Item>, tail: seq<byte>)
    requires AllFaithful(c, items)
    ensures Parse(c, Render(c, items) + tail) == items + Parse(c, tail)
  {
    if items == [] {
      assert Render(c, items) + tail == tail;
    } else {
      var rest := Render(c, items[1..]) + tail;
      assert Render(c, items) + tail == Line(c, items[0]) + rest;
      ParseLine(c, items[0], rest);
      ParseRender(c, items[1..], tail);
      HeadFirst(items, Parse(c, tail));
    }
  }

  lemma {:induction false} ParseRendered(c: Codec, items: seq<Item>)
    requires AllFaithful(c, items)
    ensures Parse(c, Render(c, items)) == items
  {
    assert Render(c, items) + [] == Render(c, items);
    ParseRender(c, items, []);
  }

  /** A write cut off after `cut` bytes counts exactly when all bytes of the
      record, not necessarily its newline, reached the disk. */
  lemma {:induction false} ParseTorn(c: Codec, items: seq<Item>, it: Item, cut: nat)
    requires AllFaithful(c, items) && Faithful(c, it) && cut <= |Line(c, it)|
    ensures Parse(c, Render(c, items) + Line(c, it)[..cut])
         == if cut >= |c.enc(it)| then items + [it] else items
  {
    var tail, n := Line(c, it)[..cut], |c.enc(it)|;
    ParseRender(c, items, tail);
    if cut > n {
      assert tail == Line(c, it) + [];
      ParseLine(c, it, []);
    } else if cut > 0 {
      assert tail == c.enc(it)[..cut];
      LineEndIs(tail, cut);
      assert tail[..cut] == tail;
      if cut == n {
        assert c.enc(it)[..n] == c.enc(it);
      }
      assert Parse(c, AfterLine(tail)) == [];
    }
  }
}
