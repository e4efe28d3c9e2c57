/** The block location resolver: fetching and caching the layout
    (`getBlocks`, file.go:214-229) and mapping the handle's offset to the block
    that holds it (`getNewBlockReader`, file.go:231-249). */
module Resolver {
  import opened Machine
  import opened Files

  /** The block's half-open byte range contains `off`. The end is computed in
      uint64 arithmetic, exactly as `start + numBytes` is in the source. */
  predicate Covers(b: Block, off: u64)
  {
    b.start <= off < WrapU64(b.start + b.numBytes)
  }

  /** `i` is the first block, in layout order, that covers `off`. */
  predicate FirstCovering(blocks: seq<Block>, off: u64, i: nat)
  {
    && i < |blocks|
    && Covers(blocks[i], off)
    && forall j :: 0 <= j < i ==> !Covers(blocks[j], off)
  }

  /** The scan of the layout: the index of the first covering block, if any. */
  function Lookup(blocks: seq<Block>, off: u64): (r: Option<nat>)
    ensures r.Some? ==> FirstCovering(blocks, off, r.value)
    ensures r.None? ==> forall j :: 0 <= j < |blocks| ==> !Covers(blocks[j], off)
  {
    if |blocks| == 0 then None
    else if Covers(blocks[0], off) then Some(0)
    else
      match Lookup(blocks[1..], off)
      case None => None
      case Some(i) => Some(i + 1)
  }

  /** The blocks lie back to back from `from` up to `to`, in order. */
  predicate Tiles(blocks: seq<Block>, from: int, to: int)
    decreases |blocks|
  {
    if |blocks| == 0 then from == to
    else blocks[0].start == from && Tiles(blocks[1..], from + blocks[0].numBytes, to)
  }

  /** A well-formed layout for a file of `size` bytes covers exactly [0, size). */
  predicate WellFormedLayout(blocks: seq<Block>, size: Size)
  {
    Tiles(blocks, 0, size)
  }

  /** Every block of a tiling ends no later than the tiling does. */
  lemma {:induction false} TiledBlockWithin(blocks: seq<Block>, from: int, to: int, i: nat)
    requires Tiles(blocks, from, to)
    requires i < |blocks|
    ensures from <= blocks[i].start
    ensures blocks[i].start + blocks[i].numBytes <= to
    decreases |blocks|
  {
    if i > 0 {
      TiledBlockWithin(blocks[1..], from + blocks[0].numBytes, to, i - 1);
      assert blocks[1..][i - 1] == blocks[i];
    } else {
      TilesEndAfterStart(blocks[1..], from + blocks[0].numBytes, to);
    }
  }

  lemma {:induction false} TilesEndAfterStart(blocks: seq<Block>, from: int, to: int)
    requires Tiles(blocks, from, to)
    ensures from <= to
    decreases |blocks|
  {
    if |blocks| > 0 {
      TilesEndAfterStart(blocks[1..], from + blocks[0].numBytes, to);
    }
  }

  /** In a well-formed layout every offset before the end of the file is
      found, and in the block whose half-open range holds it. */
  lemma {:induction false} LookupFindsTiledOffset(blocks: seq<Block>, from: int, to: int, off: u64)
    requires Tiles(blocks, from, to)
    requires to <= MAX_I64
    requires from <= off < to
    ensures Lookup(blocks, off).Some?
    ensures var b := blocks[Lookup(blocks, off).value];
      b.start <= off < b.start + b.numBytes
    decreases |blocks|
  {
    TiledBlockWithin(blocks, from, to, 0);
    var b := blocks[0];
    if off < b.start + b.numBytes {
      assert Covers(b, off);
    } else {
      LookupFindsTiledOffset(blocks[1..], from + b.numBytes, to, off);
    }
  }

  /** The layout as the handle caches it. The generated protobuf getter
      yields a nil slice for a reply with no blocks, and the handle tests
      `f.blocks == nil`, so an empty reply stays uncached and is asked for
      again on the next Read. */
  function Cached(layout: seq<Block>): (r: Option<seq<Block>>)
    ensures r.Some? <==> |layout| > 0
    ensures r.Some? ==> r.value == layout
  {
    if |layout| == 0 then None else Some(layout)
  }

  /** The layout the lookup scans; ranging over a nil slice finds nothing. */
  function Layout(f: File): (blocks: seq<Block>)
  {
    if f.blocks.Some? then f.blocks.value else []
  }

  datatype Fetched = Fetched(file: File, err: Option<Error>, call: Call)

  /** getBlocks: one request for the byte range [0, size) of the path; a
      failure is returned unchanged and caches nothing. */
  function GetBlocks(f: File, reply: Result<seq<Block>>): (r: Fetched)
    ensures r.call == GetBlockLocations(f.name, 0, f.info.size)
    ensures r.err.Some? <==> reply.Err?
    ensures reply.Err? ==> r.err == Some(reply.error) && r.file == f
    ensures reply.Ok? ==> r.file == f.(blocks := Cached(reply.value))
  {
    var call := GetBlockLocations(f.name, 0, WrapU64(f.info.size));
    match reply
    case Err(e) => Fetched(f, Some(e), call)
    case Ok(layout) => Fetched(f.(blocks := Cached(layout)), None, call)
  }

  datatype Opened = Opened(file: File, err: Option<Error>, calls: seq<Call>)

  /** `r` is the outcome of opening a stream on block `i`, the first block
      covering the handle's offset, at the offset's position inside it. */
  predicate OpensFirstCovering(f: File, i: nat, opening: Option<Error>, r: Opened)
  {
    var off := WrapU64(f.offset);
    var bs := Layout(f);
    && FirstCovering(bs, off, i)
    && r.calls == [OpenBlock(bs[i], off - bs[i].start)]
    && (opening.Some? ==> r.err == opening && r.file == f)
    && (opening.None? ==>
          && r.err.None?
          && r.file == f.(reader := Some(BlockReader(bs[i], off - bs[i].start, false))))
  }

  /** getNewBlockReader: converts the offset to uint64, scans the layout for
      the first covering block and asks for a stream on it at the intra-block
      offset. `opening` is what opening that stream reported. Only a
      successful open installs a reader; otherwise the handle is unchanged. */
  function GetNewBlockReader(f: File, opening: Option<Error>): (r: Opened)
    ensures r.file == f.(reader := r.file.reader)
    ensures r.calls == [] <==> forall j :: 0 <= j < |Layout(f)| ==> !Covers(Layout(f)[j], WrapU64(f.offset))
    ensures r.calls == [] ==> r.err == Some(NoBlockForOffset(WrapU64(f.offset))) && r.file == f
    ensures r.calls != [] ==>
      exists i: nat :: OpensFirstCovering(f, i, opening, r)
  {
    var off := WrapU64(f.offset);
    var bs := Layout(f);
    match Lookup(bs, off)
    case None => Opened(f, Some(NoBlockForOffset(off)), [])
    case Some(i) =>
      var intra := off - bs[i].start;
      var call := OpenBlock(bs[i], intra);
      var r :=
        if opening.Some? then Opened(f, opening, [call])
        else Opened(f.(reader := Some(BlockReader(bs[i], intra, false))), None, [call]);
      assert OpensFirstCovering(f, i, opening, r);
      r
  }
}
