# A model of the read-only HDFS `File` handle

This project models the `File` handle of a Go HDFS client (`file.go`). A
handle is opened on a path of the distributed file system and then offers
these operations:

- `Seek` moves a virtual offset.
- `Read` turns the file's blocks into one byte stream. It fetches the block
  layout from the namenode lazily. It finds the block that holds the offset,
  opens a stream on that block, and moves to the next block when a stream
  is used up.
- `ReadAt` is an absolute seek followed by a read.
- `Readdir` and `Readdirnames` walk a directory in pages, resuming after an
  opaque token (the name of the last entry returned).
- `Close`, `Chmod` and `Chown` do nothing on this read-only handle.

The handle is an immutable datatype. `Open` builds it, `Name` reads it, and
every other operation returns the successor handle with its result. The operations that reach the namenode or a block
stream after the handle is open (`Read`, `ReadAt`, `Readdir`,
`Readdirnames`, and the steps inside `Read`) also return the trace of calls
they made on these collaborators (`GetBlockLocations`, `OpenBlock`,
`StreamRead`, `StreamClose`, `GetDirList`). Whatever a collaborator answers
is a parameter of the operation:

- the attribute lookup that `Open` performs is its `stat` argument, and no
  call is recorded for it;
- the layout reply is a `Result<seq<Block>>`;
- the outcome of opening the first stream is an `Option<Error>`;
- each turn of the read loop is a `Turn`: what the stream read reported,
  and what reopening a stream reports;
- the directory listing is a function from request to `Listing`.

Go's `int64` and `uint64` arithmetic is written out (`Machine.WrapI64`,
`Machine.WrapU64`). This covers the offset sums in `Seek` and `Read`, the
`uint64` conversion of the offset, and the block end `start + numBytes`.

Modules, in dependency order:

- `Machine`: fixed-width integers.
- `Files`: the data model, `Open`, `Name`, and the no-op operations.
- `Resolver`: layout fetch and block lookup.
- `Seeking`: `Seek`.
- `Reading`: `Read`, its loop, and `ReadAt`.
- `Consistency`: the handle invariant.
- `Cursor`: `Readdir` and `Readdirnames`.
- `Pagination`: the page-concatenation property.
- `Scenarios`: worked examples.

Points where the code's behaviour is easy to misread, which the model
follows as written:

- The read loop at file.go:105-119 has no bound. The model runs it over a
  finite script of turns and returns `Looping` when the script ends while
  the loop would go on. It claims no termination.
- The zero-byte branch runs the lookup again at the unchanged offset and
  discards its error (file.go:116-117). When that lookup fails, the closed
  stream stays installed and the loop goes on.
  `Scenarios.GapAfterBlockIsNotReported` shows this for a layout with a
  hole.
- `io.EOF` with zero bytes is also treated as a used-up block
  (file.go:109-117). `io.EOF` with a positive count is returned as a plain
  successful read.
- The doc comment of `ReadAt` (file.go:122-124) promises a non-nil error
  whenever fewer bytes than asked for are returned. The code returns
  `Read`'s result as is (file.go:131), and `Read` stops with no error at a
  block boundary. `Scenarios.ReadAtShortCountWithoutError` shows a short
  count with no error.
- The doc comment of `Readdirnames` (file.go:197-199) promises the names
  read before an error for `n <= 0`. The code returns no names on any error
  (file.go:201-204). `Cursor.FailedFullListingDropsNames` shows this.

## Model

| member | source | states |
|---|---|---|
| Machine.WrapI64 | file.go:66-68 | int64 addition is the mathematical sum reduced modulo 2^64 into the signed range, and is exact when no overflow occurs |
| Machine.WrapU64 | file.go:232-235 | the `uint64` conversion and the uint64 block end agree with the mathematical value modulo 2^64, and are exact in range |
| Machine.AddNonNegativeWrap | file.go:66-73 | adding an int64 to a non-negative int64 either gives the exact sum or overflows to a negative value, which the range check rejects |
| Files.Open | file.go:35-48 | a failed attribute lookup is returned as is; otherwise the new handle carries the name and attributes, offset 0, no layout, no reader and an empty listing token |
| Files.NameAfterOpen | file.go:50-53 | Name returns the path the handle was opened with |
| Files.Close | file.go:134-137 | Close always succeeds and leaves the handle as it was |
| Files.Chmod | file.go:139-142 | Chmod always succeeds and leaves the handle as it was |
| Files.Chown | file.go:144-147 | Chown always succeeds and leaves the handle as it was |
| Resolver.Lookup | file.go:233-246 | the scan returns the first block, in layout order, whose uint64 range holds the offset; it returns nothing exactly when no block holds it |
| Resolver.LookupFindsTiledOffset | file.go:233-237 | in a layout that tiles [0, size) back to back, every offset before the end is found, and its block holds it |
| Resolver.Cached | file.go:227 | an empty layout reply leaves the layout uncached, because the protobuf getter yields a nil slice for it and Read tests for nil; a non-empty one is cached as is |
| Resolver.GetBlocks | file.go:214-229 | asks once for the range [0, size) of the path; a failure is returned unchanged and caches nothing; a success caches the reply |
| Resolver.GetNewBlockReader | file.go:231-249 | makes no call and reports "no block" for the offset exactly when no block covers it; otherwise opens one stream on the first covering block at the intra-block offset, and installs a reader only when the open succeeds |
| Seeking.Seek | file.go:61-81 | an unknown whence or an out-of-range target reports the old offset and changes nothing; a valid seek sets the offset and drops the reader; int64 wrap-around never changes the verdict of an absolute seek, a seek from the end, or a relative seek from a non-negative offset |
| Seeking.ResolvedTargetWraps | file.go:62-71 | the int64 target of a relative seek is exact or has overflowed to a negative value |
| Seeking.SeekTell | file.go:65-80 | Seek(0, current) returns the current offset and only drops the reader |
| Seeking.SeekAbsoluteOverrides | file.go:63-64 | a valid absolute seek gives the same result whatever seek came before it |
| Seeking.SeekRelativeRoundTrip | file.go:65-66 | seeking by d and then by -d from the current offset returns to the start |
| Seeking.SeekFromEnd | file.go:67-68 | a seek from the end succeeds exactly for offsets between -size and 0, and lands at size plus the offset |
| Reading.ReadStep | file.go:106-118 | one loop turn always credits the reported count to the offset; a real error closes and drops the stream and is returned; a positive count is returned without error, even with EOF; zero bytes close the stream and look the block up again at the same offset, dropping that lookup's error |
| Reading.FirstStop | file.go:109-114 | finds the first turn whose stream read bytes or failed with an error other than EOF, or reports that there is none |
| Reading.ReadLoop | file.go:105-119 | the loop returns exactly when some turn read bytes or failed, and then on the first such turn, with that turn's count and its error unless the error is EOF; it never fetches the layout and holds a reader exactly when it returns no error; a finished loop moved the offset by the count it returns |
| Reading.Prepare | file.go:91-103 | the set-up fetches the layout only when none is cached; a fetch failure is returned with one call made; with layout and reader present it does nothing; with no reader, its outcome, handle and calls are those of the block lookup on the cached or fetched layout, after the fetch call if one was made |
| Reading.OpenUnlessOpen | file.go:98-103 | with a reader installed it does nothing; otherwise its outcome, handle and calls are the block lookup's, after the earlier calls |
| Reading.Read | file.go:86-120 | an offset at or past the size gives EOF with no call at all; the layout is fetched first and only when uncached; any set-up failure (layout fetch, no covering block, failed stream open) reads nothing and returns the set-up's error with the offset and reader unchanged; after a successful set-up the result is the loop's, after the set-up calls; a finished read moves the offset by the count it returns; EOF never comes with bytes |
| Reading.ReadAt | file.go:125-132 | an out-of-range offset reads nothing and changes nothing; otherwise it is Read from that offset with no reader |
| Reading.ReadAtIgnoresCursor | file.go:125-132 | a positional read does not depend on the handle's earlier offset or reader |
| Reading.ExactEndOfFile | file.go:87-89 | seeking to the size and reading gives EOF at once with no call |
| Reading.MissingCoverage | file.go:91-102 | when the layout, cached or fetched by this call, has no block for the offset, Read fails with "no block" before any stream is opened, reading nothing and leaving offset and reader unchanged |
| Consistency.OpenIsConsistent | file.go:41-47 | a new handle satisfies the handle invariant |
| Consistency.SeekKeepsConsistent | file.go:73-78 | Seek keeps the offset within [0, size] and keeps the invariant |
| Consistency.LookupKeepsConsistent | file.go:232-244 | a reader installed by lookup lies in a cached block, at the handle's offset |
| Consistency.StepKeepsConsistent | file.go:106-118 | a loop turn whose stream stays inside its block keeps the invariant and moves the offset by exactly the count, with no wrap-around |
| Consistency.LoopKeepsConsistent | file.go:105-119 | the whole loop keeps the invariant, and a finished loop moves the offset by exactly its count |
| Consistency.PrepareKeepsConsistent | file.go:91-103 | fetching a well-formed layout and opening a block keep the invariant |
| Consistency.ReadKeepsConsistent | file.go:86-120 | with a layout that tiles the file and honest streams, Read keeps the offset within [0, size] and moves it by exactly the count returned |
| Consistency.PrepareFindsBlock | file.go:91-103 | with a tiling layout, set-up fails only because the layout fetch or the stream open failed, never for lack of a block |
| Cursor.TrimPrefix | file.go:182 | strips the prefix when the string starts with it, and otherwise returns the string unchanged |
| Cursor.Readdir | file.go:163-187 | a non-directory is refused with no call; n <= 0 resets the token and asks for everything; one listing call resumes after the token; a listing error is returned with its entries; for n > 0 an empty page is EOF, and a non-empty page moves the token to its last entry's relative name |
| Cursor.NamesOf | file.go:206-209 | the names are the entries' names, in order |
| Cursor.Readdirnames | file.go:200-212 | moves the cursor as Readdir does and makes the same calls; on any error, EOF included, returns no names; otherwise returns the names of Readdir's entries, in order |
| Cursor.FailedFullListingDropsNames | file.go:200-204 | when a full listing fails, Readdir returns the entries read so far with the error, but Readdirnames returns no names |
| Cursor.FullListingResets | file.go:168-172 | a full listing leaves the token empty, so a second full listing makes the same request |
| Pagination.AfterToken | file.go:181-182 | the token held after the first i children resumes the listing at child i |
| Pagination.FullListing | file.go:158-162 | an unbounded Readdir of the model directory returns every child with no error |
| Pagination.ServerServesPages | file.go:172 | the model namenode answers every page request a cursor can make with the next children, at most n of them |
| Pagination.PageStep | file.go:172-185 | one Readdir(n) returns the next children, at most n, and moves the token past them; at the end of the directory it is EOF |
| Pagination.DrainEnds | file.go:177-179 | calling Readdir(n) repeatedly ends with EOF |
| Pagination.DrainFlattens | file.go:149-153 | the pages hold the remaining children, in order |
| Pagination.DrainPagesCapped | file.go:154 | no page holds more than n entries |
| Pagination.PagesMatchFullListing | file.go:149-187 | from a fresh cursor, the pages of any size n > 0 end with EOF, hold at most n entries each, and concatenate to the unbounded listing |
| Scenarios.FirstReadStopsAtBoundary | file.go:86-119 | a 150-byte file in blocks [0, 100) and [100, 150), read after a seek to 90, returns the 10 bytes left in the first block and stops |
| Scenarios.SecondReadCrossesBoundary | file.go:105-118 | the next read meets the end of the first block, opens the second at its start and returns its 50 bytes |
| Scenarios.ThirdReadIsEndOfFile | file.go:87-89 | the third read is EOF with no call |
| Scenarios.ReadAtShortCountWithoutError | file.go:125-132 | a ReadAt at 90 of the two-block file returns only the 10 bytes left in the first block, with no error |
| Scenarios.GapAfterBlockIsNotReported | file.go:115-118 | when the layout has a hole after the first block, the failed lookup is not reported: the loop goes on with the closed reader installed |

## Left out

- Byte contents are not modelled. A stream read is modelled by the count and error it reports, and the caller's buffer does not appear. The `io.Reader` bound `n <= len(b)` is therefore not modelled.
- The namenode RPCs (`getFileInfo`, `getDirList`, `Execute("getBlockLocations")`), their protobuf encoding, and the block stream (`rpc.NewBlockReader`, `BlockReader.Read` and `Close`) are not modelled. These collaborators become parameters: their answers are arguments of the operations.
- A block is reduced to its offset and length. Datanode locations, tokens and checksums are left out because the handle never looks at them.
- `Files.Name`: carries no contract of its own. `Files.NameAfterOpen` states its behaviour.
- The `client` field is left out. The handle uses it only to reach the namenode (file.go:172, file.go:222), and the collaborator parameters take its place.
- The `closed` and `allowWriting` fields are left out. No operation of the handle reads them.
- `Reading.ReadLoop`: the loop is modelled only over a finite script of turns. A script that runs out while the loop would continue gives `Looping`. The model states nothing about runs longer than the script.
- `Pagination.PagesMatchFullListing`: proved against a model namenode that resumes right after the child whose relative name equals the token. It is not proved for HDFS's lexicographic `startAfter`. The `fuel` bound on the number of calls only has to exceed the number of children.
- The `os.FileInfo` size is assumed to be a non-negative int64 (`Files.Size`).
- Strings are `seq<char>`, so `strings.TrimPrefix` (`Cursor.TrimPrefix`) and the listing token work on characters rather than on Go's bytes. For valid UTF-8 strings a byte prefix and a character prefix coincide, so the two agree there.
- Concurrent use of one handle is left out. The handle does no locking, and the model is sequential.
- Error messages are not modelled. Errors are modelled by kind; a collaborator's error is carried as `Remote` or as the error value the parameter supplies.
