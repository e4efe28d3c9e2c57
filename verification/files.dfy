/** The data model of a read-only HDFS `File` handle (file.go:19-32) and its
    trivial operations. Everything the handle learns from the namenode or a
    datanode arrives as a plain value; the handle itself is immutable and every
    operation returns the successor handle. */
module Files {
  import opened Machine

  datatype Option<+T> = None | Some(value: T)

  /** Every error a handle operation can report. Collaborator failures are
      carried verbatim as `Remote`; a collaborator may also report `EOF`. */
  datatype Error =
    | EOF
    | InvalidWhence(whence: int)
    | InvalidOffset(target: int)
    | NotADirectory
    | NoBlockForOffset(offset: u64)
    | Remote(reason: string)

  datatype Result<+T> = Ok(value: T) | Err(error: Error)

  /** The attributes of a path, as `os.FileInfo` reports them. A file size is a
      non-negative int64. */
  type Size = x: int | 0 <= x < 0x8000_0000_0000_0000

  datatype Info = Info(name: string, size: Size, isDir: bool)

  /** One located block: its first byte within the file and its length. */
  datatype Block = Block(start: u64, numBytes: u64)

  /** The open per-block stream: the block it reads, its position inside that
      block, and whether it has been closed (a closed reader can stay installed,
      see Reading.ReadStep). */
  datatype BlockReader = BlockReader(block: Block, pos: nat, closed: bool)

  /** The handle. `blocks` is the cached layout (None while Go's slice is nil),
      `reader` the current block reader, `readdirLast` the listing token. */
  datatype File = File(
    name: string,
    info: Info,
    blocks: Option<seq<Block>>,
    reader: Option<BlockReader>,
    offset: i64,
    readdirLast: string)

  /** A call the handle makes on one of its collaborators: the namenode
      (`GetBlockLocations`, `GetDirList`) or a block stream. */
  datatype Call =
    | GetBlockLocations(src: string, from: u64, length: u64)
    | OpenBlock(block: Block, intra: u64)
    | StreamRead
    | StreamClose
    | GetDirList(dir: string, after: string, limit: int)

  /** Open: a handle is built from the attributes the namenode reported for
      `name`; a lookup failure is returned as is. */
  function Open(name: string, stat: Result<Info>): (r: Result<File>)
    ensures stat.Err? <==> r.Err?
    ensures r.Err? ==> r.error == stat.error
    ensures r.Ok? ==> var f := r.value;
      && f.name == name && f.info == stat.value
      && f.offset == 0 && f.blocks.None? && f.reader.None? && f.readdirLast == ""
  {
    match stat
    case Err(e) => Err(e)
    case Ok(info) => Ok(File(name, info, None, None, 0, ""))
  }

  /** Name: the path the handle was opened with, whatever happened since. */
  function Name(f: File): (name: string)
  {
    f.name
  }

  /** Close, Chmod and Chown are no-ops on this read-only handle: they always
      succeed and leave the handle as it was. */
  function Close(f: File): (r: (File, Option<Error>))
    ensures r.0 == f && r.1.None?
  {
    (f, None)
  }

  function Chmod(f: File, mode: nat): (r: (File, Option<Error>))
    ensures r.0 == f && r.1.None?
  {
    (f, None)
  }

  function Chown(f: File, uid: int, gid: int): (r: (File, Option<Error>))
    ensures r.0 == f && r.1.None?
  {
    (f, None)
  }

  /** A name keeps identifying the handle it was opened with. */
  lemma NameAfterOpen(name: string, info: Info)
    ensures Open(name, Ok(info)).Ok? && Name(Open(name, Ok(info)).value) == name
  {
  }
}
