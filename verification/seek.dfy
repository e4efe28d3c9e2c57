/** Seek (file.go:61-81): a purely local change of the handle's offset. */
module Seeking {
  import opened Machine
  import opened Files

  datatype Sought = Sought(file: File, pos: i64, err: Option<Error>)

  /** The target offset in unbounded arithmetic, for the three supported
      `whence` values. */
  function Target(f: File, offset: int, whence: int): (target: int)
    requires whence == 0 || whence == 1 || whence == 2
  {
    if whence == 0 then offset
    else if whence == 1 then f.offset + offset
    else f.info.size + offset
  }

  /** Seek resolves `whence` in int64 arithmetic and commits the target only
      when it lies in [0, size], dropping the current block reader. A rejected
      seek reports the old offset and leaves the handle as it was.
      int64 wrap-around never changes the verdict for an absolute seek, a seek
      from the end, or a relative seek from a non-negative offset: the seek
      succeeds exactly when the mathematical target is in range. */
  function Seek(f: File, offset: i64, whence: int): (r: Sought)
    ensures r.err.Some? ==> r.file == f && r.pos == f.offset
    ensures r.err.None? ==> r.file == f.(offset := r.pos, reader := None)
    ensures r.err.None? ==> 0 <= r.pos <= f.info.size
    ensures !(whence == 0 || whence == 1 || whence == 2) ==> r.err == Some(InvalidWhence(whence))
    ensures whence == 0 || whence == 2 || (whence == 1 && 0 <= f.offset) ==>
      && (r.err.None? <==> 0 <= Target(f, offset, whence) <= f.info.size)
      && (r.err.None? ==> r.pos == Target(f, offset, whence))
  {
    var off: i64 :=
      if whence == 0 then offset
      else if whence == 1 then WrapI64(f.offset + offset)
      else WrapI64(f.info.size + offset);
    if !(whence == 0 || whence == 1 || whence == 2) then
      Sought(f, f.offset, Some(InvalidWhence(whence)))
    else
      ResolvedTargetWraps(f, offset, whence);
      if off < 0 || off > f.info.size then
        Sought(f, f.offset, Some(InvalidOffset(off)))
      else
        Sought(f.(offset := off, reader := None), off, None)
  }

  /** The int64 target either equals the mathematical one or has overflowed
      past MAX_I64 onto a negative value. */
  lemma ResolvedTargetWraps(f: File, offset: i64, whence: int)
    ensures whence == 1 && 0 <= f.offset ==>
      WrapI64(f.offset + offset) == f.offset + offset || (f.offset + offset > MAX_I64 && WrapI64(f.offset + offset) < 0)
    ensures whence == 2 ==>
      WrapI64(f.info.size + offset) == f.info.size + offset || (f.info.size + offset > MAX_I64 && WrapI64(f.info.size + offset) < 0)
  {
    if 0 <= f.offset {
      AddNonNegativeWrap(f.offset, offset);
    }
    AddNonNegativeWrap(f.info.size, offset);
  }

  /** `Seek(0, 1)` reports the current offset without moving it, but still
      discards the open block reader. */
  lemma SeekTell(f: File)
    requires 0 <= f.offset <= f.info.size
    ensures Seek(f, 0, 1) == Sought(f.(reader := None), f.offset, None)
  {
  }

  /** An absolute seek to a valid offset forgets everything earlier seeks did. */
  lemma SeekAbsoluteOverrides(f: File, a: i64, whence: int, b: i64)
    requires 0 <= b <= f.info.size
    ensures Seek(Seek(f, a, whence).file, b, 0) == Seek(f, b, 0)
  {
  }

  /** Moving by `d` and then by `-d` relative to the current offset returns to
      where the handle started. */
  lemma SeekRelativeRoundTrip(f: File, d: i64)
    requires 0 <= f.offset <= f.info.size
    requires 0 <= f.offset + d <= f.info.size
    requires -d >= MIN_I64 && -d <= MAX_I64
    ensures Seek(f, d, 1).err.None?
    ensures Seek(Seek(f, d, 1).file, -d, 1) == Sought(f.(reader := None), f.offset, None)
  {
    var g := Seek(f, d, 1).file;
    assert g == f.(offset := f.offset + d, reader := None);
    var back := Seek(g, -d, 1);
    assert 0 <= g.offset;
    assert 0 <= Target(g, -d, 1) <= g.info.size;
    assert back.err.None?;
  }

  /** Seeking relative to the end lands `-d` bytes before the end, for every
      `d` between zero and the size; any positive `d` is rejected. */
  lemma SeekFromEnd(f: File, d: i64)
    ensures (d <= 0 && 0 <= f.info.size + d) <==> Seek(f, d, 2).err.None?
    ensures Seek(f, d, 2).err.None? ==> Seek(f, d, 2).pos == f.info.size + d
  {
    AddNonNegativeWrap(f.info.size, d);
  }
}
