/** An immutable stand-in for the file system as the walk sees it: what
    listing a directory yields. */
module Fs {
  import opened Wrappers
  import opened Paths

  /** The kinds of failure a directory listing or an entry read can report. */
  datatype IoError = NotFound | NotADirectory | PermissionDenied | Other

  /** A directory entry: its file name (`None` when the name is not valid
      text) and whether the path it names is a directory. */
  datatype DirEntry = DirEntry(name: Option<string>, isDir: bool)

  /** What `read_dir` enumerates, in enumeration order; a single entry may
      fail to be read. */
  type Listing = seq<Result<DirEntry, IoError>>

  /** Each path that can be listed, with the outcome of listing it. */
  type FileSystem = map<string, Result<Listing, IoError>>

  /** `fs::read_dir(path)`: a path the file system does not know is not found. */
  function ReadDir(fs: FileSystem, path: string): Result<Listing, IoError>
  {
    if path in fs then fs[path] else Err(NotFound)
  }

  /** `DirEntry::path()`: the listed directory joined with the entry's name. */
  function EntryPath(root: string, name: string): string
  {
    Join(root, name)
  }
}
