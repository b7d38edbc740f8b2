/** The log store (internal/logstore/logstore.go): lines accumulate per host
    and source and are written out as blocks. */
module LogStore {
  import opened Common
  import opened Schema
  import opened LogBlock
  import opened LogIndex

  datatype Key = Key(hostId: string, source: string)
  datatype Buffer = Buffer(lines: seq<LogLine>, rawBytes: nat, firstAt: int)
  type Buffers = map<Key, Buffer>

  /** Timestamps count from Go's zero time. */
  predicate ValidLine(l: LogLine) {
    l.hostId != "" && l.source != "" && l.ts != 0
  }

  function KeyOf(l: LogLine): Key {
    Key(l.hostId, l.source)
  }

  function LinesOf(buffers: Buffers, k: Key): seq<LogLine> {
    if k in buffers then buffers[k].lines else []
  }

  /** A buffer holds its own key's lines and knows their size. */
  ghost predicate BufferOk(k: Key, b: Buffer) {
    && b.lines != [] && b.rawBytes == RawSize(b.lines)
    && forall i :: 0 <= i < |b.lines| ==> KeyOf(b.lines[i]) == k
  }

  ghost predicate BuffersOk(buffers: Buffers) {
    forall k :: k in buffers ==> BufferOk(k, buffers[k])
  }

  /** The locked section of Append. */
  function Accepted(buffers: Buffers, l: LogLine, now: int): Buffers {
    var k := KeyOf(l);
    var b := if k in buffers then buffers[k] else Buffer([], 0, now);
    buffers[k := Buffer(b.lines + [l], b.rawBytes + |l.message| + 1, b.firstAt)]
  }

  lemma {:induction false} RawSizeAppend(lines: seq<LogLine>, l: LogLine)
    ensures RawSize(lines + [l]) == RawSize(lines) + |l.message| + 1
  {
    assert (lines + [l])[..|lines|] == lines;
  }

  lemma {:induction false} AcceptedOk(buffers: Buffers, l: LogLine, now: int)
    requires BuffersOk(buffers)
    ensures BuffersOk(Accepted(buffers, l, now))
  {
    var k := KeyOf(l);
    RawSizeAppend(LinesOf(buffers, k), l);
    assert k in buffers ==> BufferOk(k, buffers[k]);
    assert RawSize([]) == 0;
    assert BufferOk(k, Accepted(buffers, l, now)[k]);
  }

  lemma {:induction false} AcceptedLines(buffers: Buffers, l: LogLine, now: int)
    ensures forall k :: LinesOf(Accepted(buffers, l, now), k)
                     == if k == KeyOf(l) then LinesOf(buffers, k) + [l] else LinesOf(buffers, k)
  {
  }

  /** The buffered text is big enough or old enough to be written. */
  ghost predicate Due(b: Buffer, now: int, maxBytes: int, maxAge: int) {
    RawSize(b.lines) >= maxBytes || now - b.firstAt >= maxAge
  }

  /** The locked section of Append; tells whether to flush. */
  method Accept(buffers: Buffers, l: LogLine, now: int, later: int, maxBytes: int, maxAge: int)
      returns (grown: Buffers, due: bool)
    requires BuffersOk(buffers)
    ensures BuffersOk(grown) && grown == Accepted(buffers, l, now)
    ensures due <==> Due(grown[KeyOf(l)], later, maxBytes, maxAge)
  {
    AcceptedOk(buffers, l, now);
    var k := KeyOf(l);
    var b := if k in buffers then buffers[k] else Buffer([], 0, now);
    b := b.(lines := b.lines + [l]);
    b := b.(rawBytes := b.rawBytes + |l.message| + 1);
    grown := buffers[k := b];
    due := b.rawBytes >= maxBytes || later - b.firstAt >= maxAge;
    assert BufferOk(k, grown[k]);
  }

  /** The files of one block. */
  function BlockFiles(meta: BlockMeta, lines: seq<LogLine>, zstd: string -> seq<int>): seq<Entry> {
    [PayloadFile(meta.blockId, zstd(Text(lines))), MetaFile(meta.blockId, Json(meta))]
  }

  class Store {
    const maxBytes: int
    const maxAge: int
    const zstd: string -> seq<int>
    var buffers: Buffers
    var files: seq<Entry>

    constructor (maxBytes: int, maxAge: int, zstd: string -> seq<int>, files: seq<Entry>)
      ensures buffers == map[] && this.files == files
      ensures this.maxBytes == maxBytes && this.maxAge == maxAge && this.zstd == zstd
    {
      this.maxBytes, this.maxAge, this.zstd := maxBytes, maxAge, zstd;
      buffers, this.files := map[], files;
    }

    /** Buffers a line, and flushes its buffer once that is big or old enough. */
    method Append(l: LogLine, now: int, later: int, id: string) returns (ok: bool, meta: Option<BlockMeta>)
      requires BuffersOk(buffers)
      modifies this
      ensures BuffersOk(buffers)
      ensures ok == ValidLine(l)
      ensures !ok ==> meta == None && buffers == old(buffers) && files == old(files)
      ensures ok ==>
                var grown := Accepted(old(buffers), l, now);
                if Due(grown[KeyOf(l)], later, maxBytes, maxAge) then
                  && meta.Some? && Written(grown, KeyOf(l), meta.value, id, zstd)
                  && buffers == grown - {KeyOf(l)}
                  && files == old(files) + BlockFiles(meta.value, grown[KeyOf(l)].lines, zstd)
                else meta == None && buffers == grown && files == old(files)
      ensures ok && meta.None? ==>
                && KeyOf(l) in buffers && |Text(buffers[KeyOf(l)].lines)| < maxBytes
                && later - buffers[KeyOf(l)].firstAt < maxAge
      ensures ok && meta.Some? ==>
                var k := KeyOf(l);
                var firstAt := if k in old(buffers) then old(buffers)[k].firstAt else now;
                meta.value.sizeRaw >= maxBytes || later - firstAt >= maxAge
    {
      if !ValidLine(l) {
        return false, None;
      }
      var due;
      TextSize(Accepted(buffers, l, now)[KeyOf(l)].lines);
      buffers, due := Accept(buffers, l, now, later, maxBytes, maxAge);
      if !due {
        return true, None;
      }
      meta := Flush(KeyOf(l), id);
      return true, meta;
    }

    /** Removes a buffer and writes it out as a block. */
    method Flush(k: Key, id: string) returns (meta: Option<BlockMeta>)
      requires BuffersOk(buffers)
      modifies this
      ensures BuffersOk(buffers)
      ensures buffers == old(buffers) - {k}
      ensures k !in old(buffers) ==> meta == None && files == old(files)
      ensures k in old(buffers) ==>
                && meta.Some? && Written(old(buffers), k, meta.value, id, zstd)
                && files == old(files) + BlockFiles(meta.value, old(buffers)[k].lines, zstd)
    {
      if k !in buffers || |buffers[k].lines| == 0 {
        return None;
      }
      var lines := buffers[k].lines;
      buffers := buffers - {k};
      var m := WriteBlock(k, lines, id);
      return Some(m);
    }

    method WriteBlock(k: Key, lines: seq<LogLine>, id: string) returns (meta: BlockMeta)
      requires lines != []
      modifies this`files
      ensures Describes(meta, id, k.hostId, k.source, lines, zstd)
      ensures meta == MetaOf(id, k.hostId, k.source, lines, zstd)
      ensures files == old(files) + BlockFiles(meta, lines, zstd)
    {
      var raw, tsMin, tsMax, levels := Summarize(lines);
      var compressed := zstd(raw);
      files := files + [PayloadFile(id, compressed)];
      meta := BlockMeta(id, k.hostId, k.source, tsMin, tsMax, lines[0].unit, |lines|, levels, |raw|, |compressed|);
      files := files + [MetaFile(id, Json(meta))];
      MetaDescribes(id, k.hostId, k.source, lines, zstd);
      DescribesUnique(meta, MetaOf(id, k.hostId, k.source, lines, zstd), id, k.hostId, k.source, lines, zstd);
    }

    /** Flushes every buffer, in any order; the ids from `first` on are drawn. */
    method FlushAll(ids: nat -> string, first: nat) returns (metas: seq<BlockMeta>, ghost order: seq<Key>)
      requires BuffersOk(buffers)
      modifies this
      ensures buffers == map[]
      ensures AllWritten(old(buffers), order, metas, ids, first, zstd)
      ensures files == old(files) + FilesOf(old(buffers), order, metas, zstd)
      ensures NoRepeats(order) && forall k :: k in order <==> k in old(buffers)
    {
      metas, order := [], [];
      ghost var start, before := buffers, files;
      assert start - KeysOf([]) == start && before + [] == before;
      var keys := buffers.Keys;
      while keys != {}
        invariant keys == buffers.Keys && BuffersOk(buffers)
        invariant SomeWritten(start, before, buffers, files, order, metas, ids, first, zstd)
        decreases keys
      {
        var k :| k in keys;
        ghost var now := buffers;
        var meta := Flush(k, ids(first + |metas|));
        keys := keys - {k};
        if meta.Some? {
          WrittenExtend(start, before, now, order, metas, ids, first, zstd, k, meta.value);
          metas := metas + [meta.value];
          order := order + [k];
        }
      }
      NoneLeft(start, order);
    }
  }

  function KeysOf(order: seq<Key>): set<Key> {
    set k | k in order
  }

  /** The buffers of the keys in `order` have been written, and no others. */
  ghost predicate SomeWritten(start: Buffers, before: seq<Entry>, buffers: Buffers, files: seq<Entry>,
                              order: seq<Key>, metas: seq<BlockMeta>, ids: nat -> string, first: nat,
                              zstd: string -> seq<int>)
  {
    && NoRepeats(order) && KeysOf(order) <= start.Keys && buffers == start - KeysOf(order)
    && AllWritten(start, order, metas, ids, first, zstd)
    && files == before + FilesOf(start, order, metas, zstd)
  }

  /** The i-th metadata record describes the buffer of the i-th key. */
  ghost predicate AllWritten(start: Buffers, order: seq<Key>, metas: seq<BlockMeta>, ids: nat -> string, first: nat,
                             zstd: string -> seq<int>)
  {
    && |metas| == |order|
    && forall i: nat :: i < |order| ==> Written(start, order[i], metas[i], ids(first + i), zstd)
  }

  ghost predicate Written(start: Buffers, k: Key, meta: BlockMeta, id: string, zstd: string -> seq<int>) {
    && k in start && Describes(meta, id, k.hostId, k.source, start[k].lines, zstd)
    && meta == MetaOf(id, k.hostId, k.source, start[k].lines, zstd)
  }

  /** The files of the keys' blocks, block after block. */
  function FilesOf(start: Buffers, order: seq<Key>, metas: seq<BlockMeta>, zstd: string -> seq<int>): seq<Entry>
    requires |metas| == |order|
  {
    if order == [] then []
    else
      var n := |order| - 1;
      FilesOf(start, order[..n], metas[..n], zstd) + BlockFiles(metas[n], LinesOf(start, order[n]), zstd)
  }

  lemma {:induction false} WrittenExtend(start: Buffers, before: seq<Entry>, buffers: Buffers, order: seq<Key>,
                                         metas: seq<BlockMeta>, ids: nat -> string, first: nat,
                                         zstd: string -> seq<int>, k: Key, meta: BlockMeta)
    requires |metas| == |order|
    requires SomeWritten(start, before, buffers, before + FilesOf(start, order, metas, zstd), order, metas, ids, first,
                         zstd)
    requires Written(buffers, k, meta, ids(first + |metas|), zstd)
    ensures SomeWritten(start, before, buffers - {k},
                        before + FilesOf(start, order, metas, zstd) + BlockFiles(meta, buffers[k].lines, zstd),
                        order + [k], metas + [meta], ids, first, zstd)
  {
    RemovedExtend(start, buffers, order, k);
    AllWrittenExtend(start, order, metas, ids, first, zstd, k, meta);
    FilesExtend(start, before, order, metas, zstd, k, meta);
  }

  lemma {:induction false} RemovedExtend(start: Buffers, buffers: Buffers, order: seq<Key>, k: Key)
    requires NoRepeats(order) && KeysOf(order) <= start.Keys && buffers == start - KeysOf(order) && k in buffers
    ensures start[k] == buffers[k] && NoRepeats(order + [k]) && KeysOf(order + [k]) <= start.Keys
    ensures buffers - {k} == start - KeysOf(order + [k])
  {
    assert KeysOf(order + [k]) == KeysOf(order) + {k};
    assert k !in KeysOf(order);
  }

  lemma {:induction false} FilesExtend(start: Buffers, before: seq<Entry>, order: seq<Key>, metas: seq<BlockMeta>,
                                       zstd: string -> seq<int>, k: Key, meta: BlockMeta)
    requires |metas| == |order| && k in start
    ensures before + FilesOf(start, order + [k], metas + [meta], zstd)
         == before + FilesOf(start, order, metas, zstd) + BlockFiles(meta, start[k].lines, zstd)
  {
    assert (order + [k])[..|order|] == order && (metas + [meta])[..|order|] == metas;
  }

  lemma {:induction false} NoneLeft(start: Buffers, order: seq<Key>)
    requires KeysOf(order) <= start.Keys && start - KeysOf(order) == map[]
    ensures forall k :: k in order <==> k in start
  {
    forall k | k in start ensures k in order {
      assert k in KeysOf(order) || k in start - KeysOf(order);
    }
    forall k | k in order ensures k in start {
      assert k in KeysOf(order);
    }
  }

  lemma {:induction false} AllWrittenExtend(start: Buffers, order: seq<Key>, metas: seq<BlockMeta>, ids: nat -> string,
                                            first: nat, zstd: string -> seq<int>, k: Key, meta: BlockMeta)
    requires AllWritten(start, order, metas, ids, first, zstd)
    requires Written(start, k, meta, ids(first + |metas|), zstd)
    ensures AllWritten(start, order + [k], metas + [meta], ids, first, zstd)
  {
    forall i: nat | i < |order + [k]|
      ensures Written(start, (order + [k])[i], (metas + [meta])[i], ids(first + i), zstd)
    {
      if i < |order| {
        assert Written(start, order[i], metas[i], ids(first + i), zstd);
      }
    }
  }
}
