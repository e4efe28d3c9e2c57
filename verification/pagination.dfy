/** The directory cursor's correctness property: reading a directory in pages
    of `n > 0` entries until EOF yields exactly what one unbounded Readdir
    yields, in the same order. It is proved against a model of the namenode's
    listing: a directory holds children whose relative names (the name
    with any leading `dir + "/"` trimmed) are distinct and non-empty, and a
    request returns the children that come after the child named by its
    token (all of them for the empty token), at most `limit` of them when
    the limit is positive. */
module Pagination {
  import opened Files
  import opened Cursor

  /** A child's name relative to its directory. */
  function Rel(dir: string, c: Info): (rel: string)
  {
    TrimPrefix(c.name, dir + "/")
  }

  predicate WellNamed(dir: string, children: seq<Info>)
  {
    && (forall i :: 0 <= i < |children| ==> Rel(dir, children[i]) != "")
    && (forall i, j :: 0 <= i < j < |children| ==> Rel(dir, children[i]) != Rel(dir, children[j]))
  }

  /** The children listed after the one whose relative name is `after`. */
  function After(dir: string, children: seq<Info>, after: string): (rest: seq<Info>)
  {
    if after == "" then children
    else if |children| == 0 then []
    else if Rel(dir, children[0]) == after then children[1..]
    else After(dir, children[1..], after)
  }

  function Serve(dir: string, children: seq<Info>, req: DirRequest): (page: Listing)
  {
    var rest := After(dir, children, req.after);
    if req.limit <= 0 || |rest| <= req.limit then Listing(rest, None)
    else Listing(rest[..req.limit], None)
  }

  function Server(dir: string, children: seq<Info>): (list: DirRequest -> Listing)
  {
    req => Serve(dir, children, req)
  }

  /** The token a cursor holds after it has returned the first `i` children. */
  function TokenAt(dir: string, children: seq<Info>, i: nat): (token: string)
    requires i <= |children|
  {
    if i == 0 then "" else Rel(dir, children[i - 1])
  }

  function Flatten(pages: seq<seq<Info>>): (all: seq<Info>)
  {
    if |pages| == 0 then [] else pages[0] + Flatten(pages[1..])
  }

  datatype Drained = Drained(file: File, pages: seq<seq<Info>>, err: Option<Error>)

  /** Calls Readdir(n) until it reports an error (EOF included), at most
      `fuel` times, collecting the pages. */
  function Drain(f: File, n: int, list: DirRequest -> Listing, fuel: nat): (d: Drained)
    decreases fuel
  {
    if fuel == 0 then Drained(f, [], None)
    else
      var d := Readdir(f, n, list);
      if d.err.Some? then Drained(d.file, [d.entries], d.err)
      else
        var rest := Drain(d.file, n, list, fuel - 1);
        Drained(rest.file, [d.entries] + rest.pages, rest.err)
  }

  /** The token held after `i` children resumes the listing right after them. */
  lemma {:induction false} AfterToken(dir: string, children: seq<Info>, i: nat)
    requires WellNamed(dir, children)
    requires i <= |children|
    ensures After(dir, children, TokenAt(dir, children, i)) == children[i..]
    decreases |children|
  {
    if i > 1 {
      var tail := children[1..];
      assert WellNamed(dir, tail) by {
        forall k | 0 <= k < |tail|
          ensures Rel(dir, tail[k]) != ""
        {
          assert tail[k] == children[k + 1];
        }
        forall k, l | 0 <= k < l < |tail|
          ensures Rel(dir, tail[k]) != Rel(dir, tail[l])
        {
          assert tail[k] == children[k + 1] && tail[l] == children[l + 1];
        }
      }
      assert TokenAt(dir, children, i) == TokenAt(dir, tail, i - 1);
      assert Rel(dir, children[0]) != Rel(dir, children[i - 1]);
      AfterToken(dir, tail, i - 1);
    }
  }

  /** Unbounded Readdir on the model directory returns every child. */
  lemma FullListing(f: File, children: seq<Info>)
    requires f.info.isDir
    ensures var d := Readdir(f, 0, Server(f.info.name, children));
      d.err.None? && d.entries == children
  {
  }

  /** The length of the page served from position `i`. */
  function PageLength(remaining: nat, n: int): (k: nat)
    requires n > 0
  {
    if remaining <= n then remaining else n
  }

  /** `list` answers every request a cursor with page size `n` can make on
      the directory: after `j` children it returns the next ones, at most `n`. */
  ghost predicate ServesPages(dir: string, children: seq<Info>, n: int, list: DirRequest -> Listing)
  {
    && n > 0
    && forall j :: 0 <= j <= |children| ==>
         list(DirRequest(dir, TokenAt(dir, children, j), n))
           == Listing(children[j..j + PageLength(|children| - j, n)], None)
  }

  /** The model namenode serves the pages of a well-named directory. */
  lemma ServerServesPages(dir: string, children: seq<Info>, n: int)
    requires WellNamed(dir, children) && n > 0
    ensures ServesPages(dir, children, n, Server(dir, children))
  {
    forall j | 0 <= j <= |children|
      ensures Server(dir, children)(DirRequest(dir, TokenAt(dir, children, j), n))
                == Listing(children[j..j + PageLength(|children| - j, n)], None)
    {
      AfterToken(dir, children, j);
    }
  }

  /** One more page, when Readdir reports no error. */
  lemma DrainUnfold(f: File, n: int, list: DirRequest -> Listing, fuel: nat)
    requires fuel > 0 && Readdir(f, n, list).err.None?
    ensures Drain(f, n, list, fuel).pages
      == [Readdir(f, n, list).entries] + Drain(Readdir(f, n, list).file, n, list, fuel - 1).pages
  {
  }

  /** A prefix followed by the rest of a sequence is the whole suffix. */
  lemma SplitAt(s: seq<Info>, i: nat, j: nat, tail: seq<Info>, whole: seq<Info>)
    requires i <= j <= |s|
    requires tail == s[j..]
    requires whole == s[i..j] + tail
    ensures whole == s[i..]
  {
    assert s[i..] == s[i..j] + s[j..];
  }

  lemma FlattenCons(page: seq<Info>, pages: seq<seq<Info>>)
    ensures Flatten([page] + pages) == page + Flatten(pages)
  {
    assert ([page] + pages)[1..] == pages;
  }

  /** One Readdir(n) from the position reached after `i` children returns the
      next children, at most `n` of them, and moves the token past them; at
      the end of the directory it reports EOF. */
  lemma PageStep(f: File, n: int, children: seq<Info>, list: DirRequest -> Listing, i: nat)
    requires f.info.isDir
    requires ServesPages(f.info.name, children, n, list)
    requires i <= |children| && f.readdirLast == TokenAt(f.info.name, children, i)
    ensures var d := Readdir(f, n, list);
      var k := PageLength(|children| - i, n);
      && d.entries == children[i..i + k]
      && (i == |children| ==> d.err == Some(EOF))
      && (i < |children| ==>
            d.err.None? && d.file == f.(readdirLast := TokenAt(f.info.name, children, i + k)))
  {
    var k := PageLength(|children| - i, n);
    var req := DirRequest(f.info.name, f.readdirLast, n);
    assert list(req) == Listing(children[i..i + k], None);
  }

  /** From the position reached after `i` children, draining pages of `n`
      entries ends with EOF. */
  lemma {:induction false} DrainEnds(f: File, n: int, children: seq<Info>, list: DirRequest -> Listing, i: nat, fuel: nat)
    requires f.info.isDir
    requires ServesPages(f.info.name, children, n, list)
    requires i <= |children| && f.readdirLast == TokenAt(f.info.name, children, i)
    requires fuel > |children| - i
    ensures Drain(f, n, list, fuel).err == Some(EOF)
    decreases fuel
  {
    PageStep(f, n, children, list, i);
    if i < |children| {
      var k := PageLength(|children| - i, n);
      DrainEnds(Readdir(f, n, list).file, n, children, list, i + k, fuel - 1);
    }
  }

  /** ... and its pages hold the remaining children, in order. */
  lemma {:induction false} DrainFlattens(f: File, n: int, children: seq<Info>, list: DirRequest -> Listing, i: nat, fuel: nat)
    requires f.info.isDir
    requires ServesPages(f.info.name, children, n, list)
    requires i <= |children| && f.readdirLast == TokenAt(f.info.name, children, i)
    requires fuel > |children| - i
    ensures Flatten(Drain(f, n, list, fuel).pages) == children[i..]
    decreases fuel
  {
    PageStep(f, n, children, list, i);
    var d := Readdir(f, n, list);
    if i < |children| {
      var k := PageLength(|children| - i, n);
      DrainFlattens(d.file, n, children, list, i + k, fuel - 1);
      var rest := Drain(d.file, n, list, fuel - 1);
      DrainUnfold(f, n, list, fuel);
      FlattenCons(children[i..i + k], rest.pages);
      SplitAt(children, i, i + k, Flatten(rest.pages), Flatten(Drain(f, n, list, fuel).pages));
    } else {
      assert Drain(f, n, list, fuel).pages == [[]];
      FlattenCons([], []);
    }
  }

  /** ... and no page holds more than `n` entries. */
  lemma {:induction false} DrainPagesCapped(f: File, n: int, children: seq<Info>, list: DirRequest -> Listing, i: nat, fuel: nat)
    requires f.info.isDir
    requires ServesPages(f.info.name, children, n, list)
    requires i <= |children| && f.readdirLast == TokenAt(f.info.name, children, i)
    ensures forall p :: 0 <= p < |Drain(f, n, list, fuel).pages| ==> |Drain(f, n, list, fuel).pages[p]| <= n
    decreases fuel
  {
    PageStep(f, n, children, list, i);
    var d := Readdir(f, n, list);
    if fuel > 0 && i < |children| {
      var k := PageLength(|children| - i, n);
      DrainPagesCapped(d.file, n, children, list, i + k, fuel - 1);
      var rest := Drain(d.file, n, list, fuel - 1);
      DrainUnfold(f, n, list, fuel);
      var all := Drain(f, n, list, fuel).pages;
      forall p | 0 <= p < |all|
        ensures |all[p]| <= n
      {
        if p > 0 {
          assert all[p] == rest.pages[p - 1];
        }
      }
    }
  }

  /** Pagination equivalence: starting from a fresh cursor, the pages of any
      size `n > 0` concatenate to the single unbounded listing. */
  lemma PagesMatchFullListing(f: File, n: int, children: seq<Info>, fuel: nat)
    requires f.info.isDir && n > 0 && f.readdirLast == ""
    requires WellNamed(f.info.name, children)
    requires fuel > |children|
    ensures var d := Drain(f, n, Server(f.info.name, children), fuel);
      && d.err == Some(EOF)
      && Flatten(d.pages) == Readdir(f, 0, Server(f.info.name, children)).entries
      && forall p :: 0 <= p < |d.pages| ==> |d.pages[p]| <= n
  {
    var list := Server(f.info.name, children);
    ServerServesPages(f.info.name, children, n);
    DrainEnds(f, n, children, list, 0, fuel);
    DrainFlattens(f, n, children, list, 0, fuel);
    DrainPagesCapped(f, n, children, list, 0, fuel);
    FullListing(f, children);
  }
}
