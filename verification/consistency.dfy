/** The handle invariant: the offset stays within [0, size], a cached layout
    tiles the file, and an installed reader sits in one of the layout's blocks
    at exactly the handle's offset. Open establishes it; Seek keeps it; Read
    keeps it provided the namenode's layout is well formed and no stream read
    reports more bytes than its block has left. */
module Consistency {
  import opened Machine
  import opened Files
  import opened Resolver
  import opened Seeking
  import opened Reading

  /** The reader's position corresponds to file offset `off`. */
  predicate ReaderAt(rd: BlockReader, off: int)
  {
    rd.block.start + rd.pos == off && rd.pos <= rd.block.numBytes
  }

  predicate Consistent(f: File)
  {
    && 0 <= f.offset <= f.info.size
    && (f.blocks.Some? ==> WellFormedLayout(f.blocks.value, f.info.size))
    && (f.reader.Some? ==>
          && f.blocks.Some?
          && f.reader.value.block in f.blocks.value
          && ReaderAt(f.reader.value, f.offset))
  }

  /** Every stream read of the loop stays inside the block its reader is on. */
  predicate HonestTurns(f: File, turns: seq<Turn>)
    decreases |turns|
  {
    if |turns| == 0 || f.reader.None? then true
    else
      var rd := f.reader.value;
      && rd.pos + turns[0].outcome.n <= rd.block.numBytes
      && match ReadStep(f, turns[0])
         case Continue(g, _) => HonestTurns(g, turns[1..])
         case Return(_, _, _, _) => true
  }

  /** The collaborators behave: the layout tiles [0, size) and the stream
      reads of this Read stay inside their blocks. */
  predicate HonestRead(f: File, layout: Result<seq<Block>>, opening: Option<Error>, turns: seq<Turn>)
  {
    && (layout.Ok? ==> WellFormedLayout(layout.value, f.info.size))
    && HonestTurns(Prepare(f, layout, opening).file, turns)
  }

  lemma OpenIsConsistent(name: string, info: Info)
    ensures Open(name, Ok(info)).Ok? && Consistent(Open(name, Ok(info)).value)
  {
  }

  lemma SeekKeepsConsistent(f: File, offset: i64, whence: int)
    requires Consistent(f)
    ensures Consistent(Seek(f, offset, whence).file)
  {
  }

  /** Block lookup installs a reader positioned at the handle's offset. */
  lemma LookupKeepsConsistent(f: File, opening: Option<Error>)
    requires Consistent(f)
    ensures Consistent(GetNewBlockReader(f, opening).file)
  {
    var r := GetNewBlockReader(f, opening);
    if r.file.reader.Some? && r.file.reader != f.reader {
      var off := WrapU64(f.offset);
      assert off == f.offset;
      var i := Lookup(Layout(f), off).value;
      var bs := f.blocks.value;
      var b := bs[i];
      TiledBlockWithin(bs, 0, f.info.size, i);
      assert b.start + b.numBytes < TWO_64;
      assert r.file.reader == Some(BlockReader(b, off - b.start, false));
    }
  }

  /** One loop turn keeps the invariant when the stream stays inside its block. */
  lemma StepKeepsConsistent(f: File, t: Turn)
    requires Consistent(f) && f.reader.Some?
    requires f.reader.value.pos + t.outcome.n <= f.reader.value.block.numBytes
    ensures Consistent(ReadStep(f, t).file)
    ensures ReadStep(f, t).file.offset == f.offset + t.outcome.n
  {
    var rd := f.reader.value;
    TiledBlockWithin(f.blocks.value, 0, f.info.size, IndexOf(f.blocks.value, rd.block));
    assert f.offset + t.outcome.n <= f.info.size;
    if !Fails(t.outcome.err) && t.outcome.n == 0 {
      LookupKeepsConsistent(f.(reader := Some(rd.(closed := true))), t.reopen);
    }
  }

  function IndexOf(bs: seq<Block>, b: Block): (i: nat)
    requires b in bs
    ensures i < |bs| && bs[i] == b
  {
    if bs[0] == b then 0 else 1 + IndexOf(bs[1..], b)
  }

  /** The whole loop keeps the invariant, and a finished loop moves the offset
      by exactly the returned count with no wrap-around. */
  lemma {:induction false} LoopKeepsConsistent(f: File, turns: seq<Turn>)
    requires Consistent(f) && f.reader.Some?
    requires HonestTurns(f, turns)
    ensures Consistent(ReadLoop(f, turns).file)
    ensures ReadLoop(f, turns).Done? ==> ReadLoop(f, turns).file.offset == f.offset + ReadLoop(f, turns).n
    decreases |turns|
  {
    if |turns| > 0 {
      StepKeepsConsistent(f, turns[0]);
      match ReadStep(f, turns[0])
      case Return(g, n, err, calls) =>
      case Continue(g, calls) =>
        LoopKeepsConsistent(g, turns[1..]);
    }
  }

  lemma PrepareKeepsConsistent(f: File, layout: Result<seq<Block>>, opening: Option<Error>)
    requires Consistent(f)
    requires layout.Ok? ==> WellFormedLayout(layout.value, f.info.size)
    ensures Consistent(Prepare(f, layout, opening).file)
  {
    if f.blocks.None? && layout.Ok? {
      var g := GetBlocks(f, layout).file;
      assert Consistent(g);
      if g.reader.None? {
        LookupKeepsConsistent(g, opening);
      }
    } else if f.blocks.Some? && f.reader.None? {
      LookupKeepsConsistent(f, opening);
    }
  }

  /** Read keeps the invariant against honest collaborators: the offset never
      passes the end of the file, and it moves by exactly the count returned. */
  lemma ReadKeepsConsistent(f: File, layout: Result<seq<Block>>, opening: Option<Error>, turns: seq<Turn>)
    requires Consistent(f)
    requires HonestRead(f, layout, opening, turns)
    ensures Consistent(Read(f, layout, opening, turns).file)
    ensures Read(f, layout, opening, turns).Done? ==>
      Read(f, layout, opening, turns).file.offset == f.offset + Read(f, layout, opening, turns).n
  {
    if f.offset < f.info.size {
      PrepareKeepsConsistent(f, layout, opening);
      var p := Prepare(f, layout, opening);
      if p.err.None? {
        LoopKeepsConsistent(p.file, turns);
      }
    }
  }

  /** With a layout that tiles the file, an offset before the end always has
      a block: set-up can only fail because a collaborator failed. */
  lemma PrepareFindsBlock(f: File, layout: Result<seq<Block>>, opening: Option<Error>)
    requires Consistent(f) && f.offset < f.info.size
    requires layout.Ok? ==> WellFormedLayout(layout.value, f.info.size)
    ensures var p := Prepare(f, layout, opening);
      p.err.Some? ==> (f.blocks.None? && layout.Err? && p.err == Some(layout.error)) || p.err == opening
  {
    var g := if f.blocks.None? then GetBlocks(f, layout).file else f;
    if g.blocks.Some? && g.reader.None? {
      assert WrapU64(g.offset) == g.offset;
      LookupFindsTiledOffset(g.blocks.value, 0, g.info.size, g.offset);
    }
  }
}
