/**
 * The file system as dirsum observes it. A path that is not a key of the
 * disk does not exist. For an existing path the program makes three
 * independent observations: whether `fileExists(atPath:isDirectory:)`
 * reports a directory, whether `Data(contentsOf:)` yields the contents, and
 * whether the file-size resource value is available. Keeping them
 * independent makes the order in which the program consults them visible.
 */
module FileSystem {
  import opened Wrappers
  import opened Hashing

  type Path = string

  datatype Entry = Entry(isDirectory: bool, contents: Option<seq<Byte>>, fileSize: Option<int>)

  type Disk = map<Path, Entry>

  /** `dir.appending(component:)`: the entry name below the root directory. */
  function Join(dir: Path, component: string): (p: Path)
    ensures |p| == |dir| + 1 + |component|
    ensures p[..|dir|] == dir && p[|dir|] == '/' && p[|dir| + 1..] == component
  {
    dir + "/" + component
  }

  /** The bytes a readable file holds, and nothing for any other path. */
  function FileData(disk: Disk, path: Path): seq<Byte>
  {
    if path in disk && disk[path].contents.Some? then disk[path].contents.value else []
  }
}
