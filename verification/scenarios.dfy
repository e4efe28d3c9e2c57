/** A worked example of the multiplexer crossing a block boundary: a 150-byte
    file stored as blocks [0, 100) and [100, 150), read from offset 90. */
module Scenarios {
  import opened Files
  import opened Seeking
  import opened Resolver
  import opened Reading

  const First: Block := Block(0, 100)
  const Second: Block := Block(100, 50)

  function Fresh(name: string): (f: File)
  {
    File(name, Info(name, 150, false), None, None, 0, "")
  }

  /** The handle after the first read: layout cached, first block's reader at
      its end. */
  function AfterFirst(name: string): (f: File)
  {
    Fresh(name).(blocks := Some([First, Second]), reader := Some(BlockReader(First, 100, false)), offset := 100)
  }

  /** The handle after the second read: second block's reader at its end. */
  function AfterSecond(name: string): (f: File)
  {
    AfterFirst(name).(reader := Some(BlockReader(Second, 50, false)), offset := 150)
  }

  /** After seeking to 90, the first Read fetches the layout, opens the first
      block at intra-block offset 90 and returns the 10 bytes left in it. */
  lemma FirstReadStopsAtBoundary(name: string)
    ensures Seek(Fresh(name), 90, 0) == Sought(Fresh(name).(offset := 90), 90, None)
    ensures Read(Fresh(name).(offset := 90), Ok([First, Second]), None, [Turn(Outcome(10, None), None)])
      == Done(AfterFirst(name), 10, None, [GetBlockLocations(name, 0, 150), OpenBlock(First, 90), StreamRead])
  {
  }

  /** The second Read meets the end of the first block, reopens at the start
      of the second and returns its 50 bytes. */
  lemma SecondReadCrossesBoundary(name: string, layout: Result<seq<Block>>)
    ensures Read(AfterFirst(name), layout, None, [Turn(Outcome(0, Some(EOF)), None), Turn(Outcome(50, None), None)])
      == Done(AfterSecond(name), 50, None, [StreamRead, StreamClose, OpenBlock(Second, 0), StreamRead])
  {
    var f := AfterFirst(name);
    var turns := [Turn(Outcome(0, Some(EOF)), None), Turn(Outcome(50, None), None)];
    var closed := f.(reader := Some(BlockReader(First, 100, true)));
    var second := f.(reader := Some(BlockReader(Second, 0, false)));
    assert !Covers(First, 100) && Covers(Second, 100);
    assert Lookup([First, Second], 100) == Some(1);
    assert GetNewBlockReader(closed, None) == Opened(second, None, [OpenBlock(Second, 0)]);
    assert ReadStep(f, turns[0]) == Continue(second, [StreamRead, StreamClose, OpenBlock(Second, 0)]);
    assert ReadStep(second, turns[1]) == Return(AfterSecond(name), 50, None, [StreamRead]);
    assert ReadLoop(second, turns[1..]) == Done(AfterSecond(name), 50, None, [StreamRead]);
    assert ReadLoop(f, turns) == Done(AfterSecond(name), 50, None, [StreamRead, StreamClose, OpenBlock(Second, 0)] + [StreamRead]);
    assert Prepare(f, layout, None) == Opened(f, None, []);
  }

  /** The third Read is end-of-file, with no call at all. */
  lemma ThirdReadIsEndOfFile(name: string, layout: Result<seq<Block>>, opening: Option<Error>, turns: seq<Turn>)
    ensures Read(AfterSecond(name), layout, opening, turns) == Done(AfterSecond(name), 0, Some(EOF), [])
  {
  }

  /** The layout is missing [100, 150). Reaching the end of the first block,
      the lookup for offset 100 fails, but that error is dropped: the read
      reports nothing, keeps the closed reader installed and goes on looping. */
  lemma GapAfterBlockIsNotReported(name: string, layout: Result<seq<Block>>, opening: Option<Error>, reopen: Option<Error>)
    ensures
      var f := AfterFirst(name).(blocks := Some([First]));
      Read(f, layout, opening, [Turn(Outcome(0, Some(EOF)), reopen)])
        == Looping(f.(reader := Some(BlockReader(First, 100, true))), [StreamRead, StreamClose])
  {
    var f := AfterFirst(name).(blocks := Some([First]));
    var closed := f.(reader := Some(BlockReader(First, 100, true)));
    assert !Covers(First, 100);
    assert Lookup([First], 100).None?;
    assert GetNewBlockReader(closed, reopen) == Opened(closed, Some(NoBlockForOffset(100)), []);
    var turns := [Turn(Outcome(0, Some(EOF)), reopen)];
    assert ReadStep(f, turns[0]) == Continue(closed, [StreamRead, StreamClose]);
    assert ReadLoop(closed, turns[1..]) == Looping(closed, []);
    assert ReadLoop(f, turns) == Looping(closed, [StreamRead, StreamClose] + []);
    assert Prepare(f, layout, opening) == Opened(f, None, []);
    assert [] + ([StreamRead, StreamClose] + []) == [StreamRead, StreamClose];
  }

  /** ReadAt returns a short count with no error when the range asked for
      crosses a block boundary: after a seek to 90, one call yields only the
      10 bytes left in the first block, however large the caller's buffer. */
  lemma ReadAtShortCountWithoutError(name: string)
    ensures ReadAt(Fresh(name), 90, Ok([First, Second]), None, [Turn(Outcome(10, None), None)])
      == Done(AfterFirst(name), 10, None, [GetBlockLocations(name, 0, 150), OpenBlock(First, 90), StreamRead])
  {
    assert ReadAt(Fresh(name), 90, Ok([First, Second]), None, [Turn(Outcome(10, None), None)])
      == Read(Fresh(name).(offset := 90), Ok([First, Second]), None, [Turn(Outcome(10, None), None)]);
    FirstReadStopsAtBoundary(name);
  }
}
