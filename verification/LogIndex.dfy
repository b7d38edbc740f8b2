/** Rebuilding the block index from the files (internal/logstore/index.go). */
module LogIndex {
  import opened LogBlock

  datatype Content = Json(meta: BlockMeta) | Malformed

  /** A file under the store's directory; anything else, such as a leftover
      temporary file, is ignored. */
  datatype Entry =
    | PayloadFile(id: string, data: seq<int>)
    | MetaFile(id: string, content: Content)
    | OtherFile(name: string)

  datatype VerifyResult = VerifyResult(
    blocks: seq<BlockMeta>, totalRaw: nat, totalCompressed: nat,
    orphanPayloads: seq<string>, orphanMetas: seq<string>, corrupt: set<string>)

  /** Contents of the sidecars by block id. */
  function Metas(files: seq<Entry>): map<string, Content> {
    if files == [] then map[]
    else
      var front, f := Metas(files[..|files| - 1]), files[|files| - 1];
      if f.MetaFile? then front[f.id := f.content] else front
  }

  function Payloads(files: seq<Entry>): set<string> {
    if files == [] then {}
    else
      var front, f := Payloads(files[..|files| - 1]), files[|files| - 1];
      if f.PayloadFile? then front + {f.id} else front
  }

  function SumRaw(blocks: seq<BlockMeta>): nat {
    if blocks == [] then 0 else SumRaw(blocks[..|blocks| - 1]) + blocks[|blocks| - 1].sizeRaw
  }

  function SumCompressed(blocks: seq<BlockMeta>): nat {
    if blocks == [] then 0 else SumCompressed(blocks[..|blocks| - 1]) + blocks[|blocks| - 1].sizeCompressed
  }

  ghost predicate NoRepeats<T>(s: seq<T>) {
    forall i, j :: 0 <= i < j < |s| ==> s[i] != s[j]
  }

  /** A list of exactly the members of a set, each once. */
  ghost predicate Lists(s: seq<string>, members: set<string>) {
    NoRepeats(s) && forall x :: x in s <==> x in members
  }

  /** The ids whose sidecar parses and has its payload. */
  ghost function Usable(files: seq<Entry>): set<string> {
    set id | id in Metas(files) && id in Payloads(files) && Metas(files)[id].Json?
  }

  /** `blocks` are the sidecars of `ids`, in that order. */
  ghost predicate BlocksOf(blocks: seq<BlockMeta>, ids: seq<string>, metas: map<string, Content>) {
    && |blocks| == |ids|
    && forall i :: 0 <= i < |ids| ==> ids[i] in metas && metas[ids[i]] == Json(blocks[i])
  }

  lemma ListsAppend(s: seq<string>, members: set<string>, x: string)
    requires Lists(s, members) && x !in members
    ensures Lists(s + [x], members + {x})
  {
    forall i, j | 0 <= i < j < |s + [x]| ensures (s + [x])[i] != (s + [x])[j] {
      assert (s + [x])[i] in s;
    }
  }

  lemma SumAppend(blocks: seq<BlockMeta>, m: BlockMeta)
    ensures SumRaw(blocks + [m]) == SumRaw(blocks) + m.sizeRaw
    ensures SumCompressed(blocks + [m]) == SumCompressed(blocks) + m.sizeCompressed
  {
    assert (blocks + [m])[..|blocks|] == blocks;
  }

  /** The directory walk. */
  method Walk(files: seq<Entry>) returns (metas: map<string, Content>, payloads: set<string>)
    ensures metas == Metas(files) && payloads == Payloads(files)
  {
    metas, payloads := map[], {};
    for i := 0 to |files|
      invariant metas == Metas(files[..i]) && payloads == Payloads(files[..i])
    {
      assert files[..i + 1][..i] == files[..i];
      match files[i]
      case MetaFile(id, content) => metas := metas[id := content];
      case PayloadFile(id, _) => payloads := payloads + {id};
      case OtherFile(_) =>
    }
    assert files[..|files|] == files;
  }

  /** Checks every sidecar against the payloads, in any order. */
  method CheckMetas(metas: map<string, Content>, payloads: set<string>)
      returns (blocks: seq<BlockMeta>, raw: nat, compressed: nat, orphans: seq<string>, corrupt: set<string>,
               ghost ids: seq<string>)
    ensures BlocksOf(blocks, ids, metas)
    ensures Lists(ids, set id | id in metas && id in payloads && metas[id].Json?)
    ensures raw == SumRaw(blocks) && compressed == SumCompressed(blocks)
    ensures Lists(orphans, set id | id in metas && id !in payloads)
    ensures corrupt == set id | id in metas && id in payloads && metas[id].Malformed?
  {
    blocks, raw, compressed, orphans, corrupt, ids := [], 0, 0, [], {}, [];
    var todo := metas.Keys;
    while todo != {}
      invariant todo <= metas.Keys
      invariant BlocksOf(blocks, ids, metas)
      invariant Lists(ids, set id | id in metas.Keys - todo && id in payloads && metas[id].Json?)
      invariant raw == SumRaw(blocks) && compressed == SumCompressed(blocks)
      invariant Lists(orphans, set id | id in metas.Keys - todo && id !in payloads)
      invariant corrupt == set id | id in metas.Keys - todo && id in payloads && metas[id].Malformed?
      decreases todo
    {
      var id :| id in todo;
      ghost var done := metas.Keys - todo;
      assert metas.Keys - (todo - {id}) == done + {id};
      todo := todo - {id};
      if id !in payloads {
        ListsAppend(orphans, (set k | k in done && k !in payloads), id);
        orphans := orphans + [id];
      } else if metas[id].Malformed? {
        corrupt := corrupt + {id};
      } else {
        SumAppend(blocks, metas[id].meta);
        ListsAppend(ids, (set k | k in done && k in payloads && metas[k].Json?), id);
        blocks := blocks + [metas[id].meta];
        ids := ids + [id];
        raw := raw + metas[id].meta.sizeRaw;
        compressed := compressed + metas[id].meta.sizeCompressed;
      }
    }
  }

  method CheckPayloads(metas: map<string, Content>, payloads: set<string>) returns (orphans: seq<string>)
    ensures Lists(orphans, payloads - metas.Keys)
  {
    orphans := [];
    var todo := payloads;
    while todo != {}
      invariant todo <= payloads
      invariant Lists(orphans, (payloads - todo) - metas.Keys)
      decreases todo
    {
      var id :| id in todo;
      ghost var done := payloads - todo;
      assert payloads - (todo - {id}) == done + {id};
      todo := todo - {id};
      if id !in metas {
        ListsAppend(orphans, done - metas.Keys, id);
        assert done - metas.Keys + {id} == (done + {id}) - metas.Keys;
        orphans := orphans + [id];
      } else {
        assert done - metas.Keys == (done + {id}) - metas.Keys;
      }
    }
  }

  method ScanIndex(files: seq<Entry>) returns (r: VerifyResult, ghost ids: seq<string>)
    ensures BlocksOf(r.blocks, ids, Metas(files)) && Lists(ids, Usable(files))
    ensures r.totalRaw == SumRaw(r.blocks) && r.totalCompressed == SumCompressed(r.blocks)
    ensures Lists(r.orphanMetas, Metas(files).Keys - Payloads(files))
    ensures Lists(r.orphanPayloads, Payloads(files) - Metas(files).Keys)
    ensures r.corrupt == set id | id in Metas(files) && id in Payloads(files) && Metas(files)[id].Malformed?
  {
    var metas, payloads := Walk(files);
    var blocks, raw, compressed, orphanMetas, corrupt;
    blocks, raw, compressed, orphanMetas, corrupt, ids := CheckMetas(metas, payloads);
    var orphanPayloads := CheckPayloads(metas, payloads);
    r := VerifyResult(blocks, raw, compressed, orphanPayloads, orphanMetas, corrupt);
  }
}
