/** Read and ReadAt (file.go:86-132): the block stream multiplexer. The source's
    read loop has no bound, so the model runs it over a finite script of
    stream outcomes and reports `Looping` when the script runs out while the
    loop would still go on. */
module Reading {
  import opened Machine
  import opened Files
  import opened Resolver
  import opened Seeking

  /** What one `Read` on the current block stream reported. */
  datatype Outcome = Outcome(n: nat, err: Option<Error>)

  /** One turn of the read loop: the stream's outcome, and what opening the
      next stream reports if the turn gets that far. */
  datatype Turn = Turn(outcome: Outcome, reopen: Option<Error>)

  datatype Step =
    | Return(file: File, n: nat, err: Option<Error>, calls: seq<Call>)
    | Continue(file: File, calls: seq<Call>)

  datatype ReadResult =
    | Done(file: File, n: nat, err: Option<Error>, calls: seq<Call>)
    | Looping(file: File, calls: seq<Call>)

  /** An error other than end-of-file: the loop's only reason to give up. */
  predicate Fails(err: Option<Error>)
  {
    err.Some? && err.value != EOF
  }

  /** No call in the trace asks the namenode for the block layout. */
  predicate NoLayoutFetch(calls: seq<Call>)
  {
    forall i :: 0 <= i < |calls| ==> !calls[i].GetBlockLocations?
  }

  lemma NoLayoutFetchAppend(a: seq<Call>, b: seq<Call>)
    ensures NoLayoutFetch(a + b) <==> NoLayoutFetch(a) && NoLayoutFetch(b)
  {
    if NoLayoutFetch(a) && NoLayoutFetch(b) {
      forall i | 0 <= i < |a + b|
        ensures !(a + b)[i].GetBlockLocations?
      {
        if i >= |a| {
          assert (a + b)[i] == b[i - |a|];
        }
      }
    }
    if NoLayoutFetch(a + b) {
      forall i | 0 <= i < |a|
        ensures !a[i].GetBlockLocations?
      {
        assert (a + b)[i] == a[i];
      }
      forall i | 0 <= i < |b|
        ensures !b[i].GetBlockLocations?
      {
        assert (a + b)[|a| + i] == b[i];
      }
    }
  }

  /** The same for a trace with its first call set apart. */
  lemma TraceAppend(a: seq<Call>, b: seq<Call>)
    ensures |a| > 0 ==>
      (a + b)[0] == a[0] && (NoLayoutFetch((a + b)[1..]) <==> NoLayoutFetch(a[1..]) && NoLayoutFetch(b))
  {
    if |a| > 0 {
      assert (a + b)[1..] == a[1..] + b;
      NoLayoutFetchAppend(a[1..], b);
    }
  }

  /** The handle differs from `f` at most in its offset, reader and layout. */
  predicate SameIdentity(g: File, f: File)
  {
    g.name == f.name && g.info == f.info && g.readdirLast == f.readdirLast
  }

  /** The turns on which the loop returns: the stream read bytes or failed. */
  predicate Stops(t: Turn)
  {
    Fails(t.outcome.err) || t.outcome.n > 0
  }

  /** The index of the first turn on which the loop returns, if any. */
  function FirstStop(turns: seq<Turn>): (k: Option<nat>)
    ensures k.Some? ==>
      && k.value < |turns| && Stops(turns[k.value])
      && forall j :: 0 <= j < k.value ==> !Stops(turns[j])
    ensures k.None? ==> forall j :: 0 <= j < |turns| ==> !Stops(turns[j])
  {
    if |turns| == 0 then None
    else if Stops(turns[0]) then Some(0)
    else
      match FirstStop(turns[1..])
      case None => None
      case Some(k) => Some(k + 1)
  }

  /** One iteration of the loop. The offset always advances by exactly what
      the stream reported. A real error discards the reader and is returned;
      a positive count is returned without error (EOF included); zero bytes
      with no error or EOF mean the block is used up: the stream is closed and
      block lookup runs again at the unchanged offset. The error of that
      lookup is dropped, and if it fails the closed reader stays installed. */
  function ReadStep(f: File, t: Turn): (r: Step)
    requires f.reader.Some?
    ensures r.file.blocks == f.blocks && SameIdentity(r.file, f)
    ensures r.file.offset == WrapI64(f.offset + t.outcome.n)
    ensures |r.calls| >= 1 && r.calls[0] == StreamRead && NoLayoutFetch(r.calls)
    ensures Fails(t.outcome.err) ==>
      r == Return(f.(offset := r.file.offset, reader := None), t.outcome.n, t.outcome.err, [StreamRead, StreamClose])
    ensures !Fails(t.outcome.err) && t.outcome.n > 0 ==>
      var rd := f.reader.value;
      r == Return(f.(offset := r.file.offset, reader := Some(rd.(pos := rd.pos + t.outcome.n))), t.outcome.n, None, [StreamRead])
    ensures !Fails(t.outcome.err) && t.outcome.n == 0 ==>
      var closed := f.(reader := Some(f.reader.value.(closed := true)));
      && r.Continue?
      && r.file.offset == f.offset
      && r.file.reader.Some?
      && |r.calls| >= 2 && r.calls[..2] == [StreamRead, StreamClose]
      && r.file == GetNewBlockReader(closed, t.reopen).file
      && r.calls[2..] == GetNewBlockReader(closed, t.reopen).calls
  {
    var rd := f.reader.value;
    var n := t.outcome.n;
    var off := WrapI64(f.offset + n);
    if Fails(t.outcome.err) then
      Return(f.(offset := off, reader := None), n, t.outcome.err, [StreamRead, StreamClose])
    else if n > 0 then
      Return(f.(offset := off, reader := Some(rd.(pos := rd.pos + n))), n, None, [StreamRead])
    else
      var reopened := GetNewBlockReader(f.(offset := off, reader := Some(rd.(closed := true))), t.reopen);
      Continue(reopened.file, [StreamRead, StreamClose] + reopened.calls)
  }

  /** The loop itself, one turn per stream read. A finished loop has moved the
      offset by exactly the count it returns, never reports EOF, and holds a
      reader exactly when it reports no error. It returns on the first turn
      whose stream read bytes or failed, with that turn's count and its error
      unless the error is EOF; with no such turn it is still looping. */
  function ReadLoop(f: File, turns: seq<Turn>): (r: ReadResult)
    requires f.reader.Some?
    ensures r.file.blocks == f.blocks && SameIdentity(r.file, f)
    ensures NoLayoutFetch(r.calls)
    ensures r.Done? ==> r.file.offset == WrapI64(f.offset + r.n)
    ensures r.Done? ==> r.err != Some(EOF)
    ensures r.Done? ==> (r.err.None? <==> r.file.reader.Some?)
    ensures r.Done? && r.err.None? ==> r.n > 0
    ensures r.Looping? ==> r.file.offset == f.offset && r.file.reader.Some?
    ensures r.Looping? <==> FirstStop(turns).None?
    ensures r.Done? ==>
      var t := turns[FirstStop(turns).value];
      r.n == t.outcome.n && r.err == (if Fails(t.outcome.err) then t.outcome.err else None)
    decreases |turns|
  {
    if |turns| == 0 then Looping(f, [])
    else
      var s := ReadStep(f, turns[0]);
      if s.Return? then Done(s.file, s.n, s.err, s.calls)
      else
        var rest := ReadLoop(s.file, turns[1..]);
        FirstStopSkip(turns);
        NoLayoutFetchAppend(s.calls, rest.calls);
        WithPrefix(s.calls, rest)
  }

  /** A turn that does not stop the loop moves the first stop one turn on. */
  lemma FirstStopSkip(turns: seq<Turn>)
    requires |turns| > 0 && !Stops(turns[0])
    ensures FirstStop(turns).None? <==> FirstStop(turns[1..]).None?
    ensures FirstStop(turns).Some? ==> turns[FirstStop(turns).value] == turns[1..][FirstStop(turns[1..]).value]
  {
  }

  /** The set-up before the loop (file.go:91-103): fetch the layout when none
      is cached, then open a reader when none is installed. */
  function Prepare(f: File, layout: Result<seq<Block>>, opening: Option<Error>): (r: Opened)
    ensures SameIdentity(r.file, f) && r.file.offset == f.offset
    ensures r.err.None? ==> r.file.reader.Some?
    ensures r.err.Some? ==> r.file.reader == f.reader
    ensures f.blocks.Some? ==> r.file.blocks == f.blocks && NoLayoutFetch(r.calls)
    ensures f.blocks.None? ==>
      && |r.calls| > 0
      && r.calls[0] == GetBlockLocations(f.name, 0, f.info.size)
      && NoLayoutFetch(r.calls[1..])
    ensures f.blocks.None? && layout.Err? ==>
      r == Opened(f, Some(layout.error), [GetBlockLocations(f.name, 0, f.info.size)])
    ensures f.blocks.Some? && f.reader.Some? ==> r == Opened(f, None, [])
    ensures f.reader.None? && (f.blocks.Some? || layout.Ok?) ==>
      var fetched := f.blocks.None?;
      var g := if fetched then f.(blocks := Cached(layout.value)) else f;
      var o := GetNewBlockReader(g, opening);
      r == Opened(o.file, o.err, (if fetched then [GetBlockLocations(f.name, 0, f.info.size)] else []) + o.calls)
  {
    if f.blocks.None? then
      var got := GetBlocks(f, layout);
      if got.err.Some? then Opened(got.file, got.err, [got.call])
      else OpenUnlessOpen(got.file, opening, [got.call])
    else OpenUnlessOpen(f, opening, [])
  }

  function OpenUnlessOpen(f: File, opening: Option<Error>, before: seq<Call>): (r: Opened)
    ensures r.file.offset == f.offset && r.file.blocks == f.blocks && SameIdentity(r.file, f)
    ensures |before| <= |r.calls| && r.calls[..|before|] == before && NoLayoutFetch(r.calls[|before|..])
    ensures r.err.None? ==> r.file.reader.Some?
    ensures r.err.Some? ==> r.file.reader == f.reader
    ensures f.reader.Some? ==> r == Opened(f, None, before)
    ensures f.reader.None? ==>
      var o := GetNewBlockReader(f, opening);
      r == Opened(o.file, o.err, before + o.calls)
  {
    if f.reader.Some? then Opened(f, None, before)
    else
      var o := GetNewBlockReader(f, opening);
      Opened(o.file, o.err, before + o.calls)
  }

  /** Read: true end-of-file is decided by the offset alone and touches no
      collaborator; otherwise the layout is fetched only if none is cached,
      a set-up failure reports zero bytes with the offset unchanged, and a
      finished read moves the offset by exactly the count it returns. */
  function Read(f: File, layout: Result<seq<Block>>, opening: Option<Error>, turns: seq<Turn>): (r: ReadResult)
    ensures f.offset >= f.info.size ==> r == Done(f, 0, Some(EOF), [])
    ensures SameIdentity(r.file, f)
    ensures f.blocks.Some? ==> r.file.blocks == f.blocks && NoLayoutFetch(r.calls)
    ensures f.offset < f.info.size && f.blocks.None? ==>
      && |r.calls| > 0
      && r.calls[0] == GetBlockLocations(f.name, 0, f.info.size)
      && NoLayoutFetch(r.calls[1..])
    ensures f.offset < f.info.size && f.blocks.None? && layout.Err? ==>
      r == Done(f, 0, Some(layout.error), [GetBlockLocations(f.name, 0, f.info.size)])
    ensures r.Done? ==> r.file.offset == WrapI64(f.offset + r.n)
    ensures r.Done? && r.err.None? ==> r.n > 0
    ensures r.Done? && r.n > 0 ==> r.err != Some(EOF)
    ensures r.Looping? ==> r.file.offset == f.offset
    ensures f.offset < f.info.size && Prepare(f, layout, opening).err.Some? ==>
      var p := Prepare(f, layout, opening);
      r == Done(p.file, 0, p.err, p.calls)
    ensures f.offset < f.info.size && Prepare(f, layout, opening).err.None? ==>
      var p := Prepare(f, layout, opening);
      r == WithPrefix(p.calls, ReadLoop(p.file, turns))
  {
    if f.offset >= f.info.size then Done(f, 0, Some(EOF), [])
    else
      var p := Prepare(f, layout, opening);
      if p.err.Some? then
        assert WrapI64(f.offset + 0) == f.offset;
        Done(p.file, 0, p.err, p.calls)
      else
        var rest := ReadLoop(p.file, turns);
        NoLayoutFetchAppend(p.calls, rest.calls);
        TraceAppend(p.calls, rest.calls);
        WithPrefix(p.calls, rest)
  }

  /** The same result, with `before` prepended to its trace. */
  function WithPrefix(before: seq<Call>, r: ReadResult): (q: ReadResult)
    ensures q.file == r.file && q.calls == before + r.calls
    ensures q.Done? == r.Done? && (q.Done? ==> q.n == r.n && q.err == r.err)
  {
    match r
    case Done(g, n, err, calls) => Done(g, n, err, before + calls)
    case Looping(g, calls) => Looping(g, before + calls)
  }

  /** ReadAt: an absolute Seek followed by one Read. A rejected seek reads
      nothing and changes nothing. */
  function ReadAt(f: File, off: i64, layout: Result<seq<Block>>, opening: Option<Error>, turns: seq<Turn>): (r: ReadResult)
    ensures off < 0 || off > f.info.size ==> r == Done(f, 0, Some(InvalidOffset(off)), [])
    ensures 0 <= off <= f.info.size ==>
      r == Read(f.(offset := off, reader := None), layout, opening, turns)
  {
    var s := Seek(f, off, 0);
    if s.err.Some? then Done(f, 0, s.err, [])
    else Read(s.file, layout, opening, turns)
  }

  /** A positional read does not depend on where the handle's cursor was or
      which stream it had open. */
  lemma ReadAtIgnoresCursor(f: File, g: File, off: i64, layout: Result<seq<Block>>, opening: Option<Error>, turns: seq<Turn>)
    requires g == f.(offset := g.offset, reader := g.reader)
    requires 0 <= off <= f.info.size
    ensures ReadAt(f, off, layout, opening, turns) == ReadAt(g, off, layout, opening, turns)
  {
    assert f.(offset := off, reader := None) == g.(offset := off, reader := None);
  }

  /** Seeking to the end and reading gives end-of-file at once, with no call
      on any collaborator. */
  lemma ExactEndOfFile(f: File, layout: Result<seq<Block>>, opening: Option<Error>, turns: seq<Turn>)
    ensures var s := Seek(f, f.info.size, 0);
      && s.err.None?
      && Read(s.file, layout, opening, turns) == Done(s.file, 0, Some(EOF), [])
  {
  }

  /** When the layout, cached or fetched by this call, has no block for the
      offset, Read fails with "no block" before opening any stream: it reads
      nothing, the offset does not move and no reader is installed. */
  lemma MissingCoverage(f: File, layout: Result<seq<Block>>, opening: Option<Error>, turns: seq<Turn>)
    requires 0 <= f.offset < f.info.size && f.reader.None?
    requires f.blocks.Some? || layout.Ok?
    requires var bs := if f.blocks.Some? then f.blocks.value else layout.value;
      forall j :: 0 <= j < |bs| ==> !Covers(bs[j], f.offset)
    ensures var fetched := f.blocks.None?;
      Read(f, layout, opening, turns)
        == Done(if fetched then f.(blocks := Cached(layout.value)) else f, 0, Some(NoBlockForOffset(f.offset)),
                if fetched then [GetBlockLocations(f.name, 0, f.info.size)] else [])
  {
    assert WrapU64(f.offset) == f.offset;
    var g := if f.blocks.None? then f.(blocks := Cached(layout.value)) else f;
    if f.blocks.None? {
      assert Layout(g) == [] || Layout(g) == layout.value;
    } else {
      assert Layout(g) == f.blocks.value;
    }
    assert Lookup(Layout(g), f.offset).None?;
    assert GetNewBlockReader(g, opening) == Opened(g, Some(NoBlockForOffset(f.offset)), []);
  }
}
