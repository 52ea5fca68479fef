/**
 * `struct File` and its throwing initializer: classify one path, and for a
 * readable regular file build its record and feed its bytes to the run's
 * shared hasher.
 */
module Files {
  import opened Wrappers
  import opened Hashing
  import opened FileSystem

  datatype FileError = IsDirectory | DoesNotExist | CannotRead

  /** One regular file: its path, the digest of its contents and its size. */
  datatype File = File(url: Path, sha256: Digest, size: int)

  /** A path whose three observations all succeed: it exists, is not a directory, and both its contents and its size can be obtained. */
  predicate Readable(disk: Disk, url: Path)
  {
    url in disk && !disk[url].isDirectory && disk[url].contents.Some? && disk[url].fileSize.Some?
  }

  /**
   * The outcome of `File.init` on `url`. The checks run in a fixed order:
   * existence first, then the directory test, then contents and size.
   */
  function Open(disk: Disk, url: Path, h: HashFunction): (r: Result<File, FileError>)
    ensures url !in disk ==> r == Err(DoesNotExist)
    ensures url in disk && disk[url].isDirectory ==> r == Err(IsDirectory)
    ensures r == Err(CannotRead) <==>
              url in disk && !disk[url].isDirectory && (disk[url].contents.None? || disk[url].fileSize.None?)
    ensures r.Ok? <==> Readable(disk, url)
    ensures r.Ok? ==>
              && r.value.url == url
              && r.value.sha256 == h(FileData(disk, url))
              && r.value.size == disk[url].fileSize.value
  {
    if url !in disk then Err(DoesNotExist)
    else if disk[url].isDirectory then Err(IsDirectory)
    else if disk[url].contents.None? || disk[url].fileSize.None? then Err(CannotRead)
    else Ok(File(url, h(disk[url].contents.value), disk[url].fileSize.value))
  }

  /**
   * `File.init(url:globalHasher:)`. The file's own digest comes from a
   * fresh hasher fed only with the file's bytes; the shared hasher receives
   * the same bytes, and only once every check has passed.
   */
  method Init(disk: Disk, url: Path, globalHasher: Sha256, h: HashFunction) returns (r: Result<File, FileError>)
    modifies globalHasher
    ensures r == Open(disk, url, h)
    ensures r.Err? ==> globalHasher.fed == old(globalHasher.fed)
    ensures r.Ok? ==> globalHasher.fed == old(globalHasher.fed) + FileData(disk, url)
  {
    if url !in disk {
      return Err(DoesNotExist);
    }
    if disk[url].isDirectory {
      return Err(IsDirectory);
    }
    var entry := disk[url];
    if entry.contents.None? || entry.fileSize.None? {
      return Err(CannotRead);
    }
    var data := entry.contents.value;
    var size := entry.fileSize.value;

    var hasher := new Sha256();
    hasher.Update(data);
    globalHasher.Update(data);

    assert hasher.fed == data;
    r := Ok(File(url, hasher.Finalize(h), size));
  }
}
