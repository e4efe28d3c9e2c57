/** Readdir and Readdirnames (file.go:163-211): the directory cursor. The
    namenode's directory listing is the function `list`, called at most once
    per operation with the request the handle built. */
module Cursor {
  import opened Files

  /** A listing request: the directory, the name to resume after ("" for the
      start) and the page size (at most zero for "everything"). */
  datatype DirRequest = DirRequest(dir: string, after: string, limit: int)

  /** What the listing call returned: the entries read and an error, if any. */
  datatype Listing = Listing(entries: seq<Info>, err: Option<Error>)

  datatype Dir = Dir(file: File, entries: seq<Info>, err: Option<Error>, calls: seq<Call>)

  datatype Names = Names(file: File, names: seq<string>, err: Option<Error>, calls: seq<Call>)

  /** strings.TrimPrefix: `s` without its leading `prefix`, or `s` itself when
      it does not start with `prefix`. */
  function TrimPrefix(s: string, prefix: string): (r: string)
    ensures prefix <= s ==> prefix + r == s
    ensures !(prefix <= s) ==> r == s
  {
    if prefix <= s then s[|prefix|..] else s
  }

  /** The token left after a non-empty page: the last entry's name relative
      to the directory. */
  function TokenAfter(dirName: string, page: seq<Info>): (token: string)
    requires |page| > 0
  {
    TrimPrefix(page[|page| - 1].name, dirName + "/")
  }

  /** Readdir. Only a directory lists; `n <= 0` restarts the cursor before
      asking for everything. For `n > 0` an empty page is EOF and keeps the
      token, and a non-empty page moves the token to its last entry. A failed
      listing is returned as is, with whatever entries it carried. */
  function Readdir(f: File, n: int, list: DirRequest -> Listing): (r: Dir)
    ensures r.file == f.(readdirLast := r.file.readdirLast)
    ensures !f.info.isDir ==> r == Dir(f, [], Some(NotADirectory), [])
    ensures f.info.isDir ==>
      var req := DirRequest(f.info.name, if n <= 0 then "" else f.readdirLast, n);
      && r.calls == [GetDirList(req.dir, req.after, req.limit)]
      && r.entries == list(req).entries
      && (list(req).err.Some? ==> r.err == list(req).err)
      && (n <= 0 ==> r.file.readdirLast == "" && r.err == list(req).err)
      && (n > 0 && list(req).err.None? && |r.entries| == 0 ==>
            r.err == Some(EOF) && r.file.readdirLast == f.readdirLast)
      && (n > 0 && list(req).err.None? && |r.entries| > 0 ==>
            r.err.None? && r.file.readdirLast == TokenAfter(f.info.name, r.entries))
      && (n > 0 && list(req).err.Some? ==> r.file.readdirLast == f.readdirLast)
  {
    if !f.info.isDir then Dir(f, [], Some(NotADirectory), [])
    else
      var g := if n <= 0 then f.(readdirLast := "") else f;
      var req := DirRequest(g.info.name, g.readdirLast, n);
      var call := GetDirList(req.dir, req.after, req.limit);
      var res := list(req);
      if res.err.Some? then Dir(g, res.entries, res.err, [call])
      else if n > 0 then
        if |res.entries| == 0 then Dir(g, res.entries, Some(EOF), [call])
        else
          var lastPath := res.entries[|res.entries| - 1].name;
          Dir(g.(readdirLast := TrimPrefix(lastPath, g.info.name + "/")), res.entries, None, [call])
      else Dir(g, res.entries, None, [call])
  }

  /** The names of the entries, in order. */
  function NamesOf(entries: seq<Info>): (names: seq<string>)
    ensures |names| == |entries|
    ensures forall i :: 0 <= i < |entries| ==> names[i] == entries[i].name
  {
    if |entries| == 0 then [] else [entries[0].name] + NamesOf(entries[1..])
  }

  /** Readdirnames: Readdir projected to names; on any error, EOF included,
      no names are returned. The cursor moves exactly as Readdir moves it,
      and the one listing call is Readdir's. */
  function Readdirnames(f: File, n: int, list: DirRequest -> Listing): (r: Names)
    ensures r.file == Readdir(f, n, list).file && r.calls == Readdir(f, n, list).calls
    ensures r.err == Readdir(f, n, list).err
    ensures r.err.Some? ==> r.names == []
    ensures r.err.None? ==> |r.names| == |Readdir(f, n, list).entries|
    ensures r.err.None? ==>
      forall i :: 0 <= i < |r.names| ==> r.names[i] == Readdir(f, n, list).entries[i].name
  {
    var d := Readdir(f, n, list);
    if d.err.Some? then Names(d.file, [], d.err, d.calls)
    else Names(d.file, NamesOf(d.entries), None, d.calls)
  }

  /** A full listing (`n <= 0`) always leaves the cursor at the start, so
      listing everything twice asks the namenode the same question twice. */
  lemma FullListingResets(f: File, n: int, m: int, list: DirRequest -> Listing)
    requires f.info.isDir && n <= 0 && m <= 0
    ensures Readdir(Readdir(f, n, list).file, m, list).calls == Readdir(f, m, list).calls
    ensures Readdir(Readdir(f, n, list).file, m, list).file.readdirLast == ""
  {
  }

  /** A full listing that fails part-way returns the entries read so far
      from Readdir, but Readdirnames returns no names at all. */
  lemma FailedFullListingDropsNames(f: File, n: int, list: DirRequest -> Listing)
    requires f.info.isDir && n <= 0
    requires list(DirRequest(f.info.name, "", n)).err.Some?
    ensures Readdir(f, n, list).entries == list(DirRequest(f.info.name, "", n)).entries
    ensures Readdir(f, n, list).err == list(DirRequest(f.info.name, "", n)).err
    ensures Readdirnames(f, n, list).names == []
  {
  }
}
