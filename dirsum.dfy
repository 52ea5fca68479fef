/**
 * The top level of dirsum: check the root path, obtain the enumerator, run
 * the fold with the run's single shared hasher, sort the collected files by
 * path and finalize the shared hasher into the aggregate digest.
 *
 * The enumerator `FileManager.enumerator(atPath:)` returns is a parameter:
 * `None` when it returns nil, otherwise its entries in the order it yields
 * them. Printing and `exit` are not modelled; an exit is an `Err` result.
 */
module Dirsum {
  import opened Wrappers
  import opened Hashing
  import opened FileSystem
  import opened Files
  import opened PathOrder
  import opened Enumeration

  datatype RunError =
    | NotFound                 // the root path does not exist
    | CannotEnumerate          // no enumerator could be created for the root
    | FileFault(fault: Fault)  // an entry could not be opened: the run stops
    | NotADirectory            // only SummarizeIntended reports this one

  /**
   * What a completed run produces. `notADirectory` records that the "not a
   * directory" message was printed for the root, after which the run went on.
   */
  datatype Summary = Summary(notADirectory: bool, files: seq<File>, aggregate: Digest)

  /** The outcome of one run of dirsum, as written. */
  function Summarize(disk: Disk, root: Path, enumerator: Option<seq<EnumeratorEntry>>, h: HashFunction)
    : (r: Result<Summary, RunError>)
    ensures root !in disk ==> r == Err(NotFound)
    ensures root in disk && enumerator.None? ==> r == Err(CannotEnumerate)
    ensures r.Ok? ==> root in disk && r.value.notADirectory == !disk[root].isDirectory
    ensures r.Ok? ==> enumerator.Some? && SortedByPath(r.value.files)
  {
    if root !in disk then Err(NotFound)
    else
      match enumerator
      case None => Err(CannotEnumerate)
      case Some(es) =>
        match Collect(disk, root, es, h)
        case Err(f) => Err(FileFault(f))
        case Ok(files) => Ok(Summary(!disk[root].isDirectory, SortByPath(files), h(Fed(disk, root, es, h))))
  }

  /** The program's top-level statements, from the creation of the shared hasher to its finalization. */
  method Run(disk: Disk, root: Path, enumerator: Option<seq<EnumeratorEntry>>, h: HashFunction)
    returns (r: Result<Summary, RunError>)
    ensures r == Summarize(disk, root, enumerator, h)
  {
    var hasher := new Sha256();
    if root !in disk {
      return Err(NotFound);
    }
    // The message for a root that is not a directory does not stop the run.
    var notADirectory := !disk[root].isDirectory;
    if enumerator.None? {
      return Err(CannotEnumerate);
    }
    var collected := CollectFiles(disk, root, enumerator.value, hasher, h);
    if collected.Err? {
      return Err(FileFault(collected.error));
    }
    assert hasher.fed == Fed(disk, root, enumerator.value, h);
    var files := SortByPath(collected.value);
    r := Ok(Summary(notADirectory, files, hasher.Finalize(h)));
  }

  /**
   * A completed run lists, sorted by path, exactly the files the entries
   * yield, each as `File.init` built it; its aggregate is the digest of
   * those files' contents concatenated in ENUMERATION order, not in the
   * sorted order of the list.
   */
  lemma CompletedRun(disk: Disk, root: Path, es: seq<EnumeratorEntry>, h: HashFunction)
    requires root in disk
    requires forall i :: 0 <= i < |es| ==> !Faulty(disk, root, es[i], h)
    ensures var r := Summarize(disk, root, Some(es), h);
            && r.Ok?
            && r.value.notADirectory == !disk[root].isDirectory
            && SortedByPath(r.value.files)
            && multiset(r.value.files) == multiset(Records(disk, root, es, h))
            && (forall f :: f in r.value.files ==> Open(disk, f.url, h) == Ok(f))
            && r.value.aggregate == h(DataOf(disk, Records(disk, root, es, h)))
  {
    CollectOkIff(disk, root, es, h);
    CollectIsRecords(disk, root, es, h);
    RecordsAreOpened(disk, root, es, h);
    var r := Summarize(disk, root, Some(es), h);
    forall f | f in r.value.files
      ensures Open(disk, f.url, h) == Ok(f)
    {
      assert f in multiset(r.value.files);
      assert f in Records(disk, root, es, h);
    }
  }

  /** The first faulty entry ends the run with its fault; no summary is produced. */
  lemma RunStopsAtFirstFault(disk: Disk, root: Path, es: seq<EnumeratorEntry>, h: HashFunction, k: nat)
    requires root in disk
    requires k < |es| && Faulty(disk, root, es[k], h)
    requires forall j :: 0 <= j < k ==> !Faulty(disk, root, es[j], h)
    ensures Summarize(disk, root, Some(es), h) == Err(FileFault(StepOf(disk, root, es[k], h).fault))
  {
    FirstFaultAborts(disk, root, es, h, k);
  }

  /** With no file to read, the list is empty and the aggregate is the digest of no bytes. */
  lemma EmptyTree(disk: Disk, root: Path, es: seq<EnumeratorEntry>, h: HashFunction)
    requires root in disk
    requires forall i :: 0 <= i < |es| ==> StepOf(disk, root, es[i], h).Skip?
    ensures Summarize(disk, root, Some(es), h) == Ok(Summary(!disk[root].isDirectory, [], h([])))
  {
    AllSkipped(disk, root, es, h);
  }

  // ---------------------------------------------------------------------
  // Finding 1: the aggregate depends on the enumeration order.
  // Finding 2: a root that is not a directory does not stop the run.
  // ---------------------------------------------------------------------

  /** The fold over two readable entries keeps both, in enumeration order, and feeds both. */
  lemma TwoReadableEntries(disk: Disk, dir: Path, x: EnumeratorEntry, y: EnumeratorEntry, h: HashFunction)
    requires StepOf(disk, dir, x, h).Keep? && StepOf(disk, dir, y, h).Keep?
    ensures Collect(disk, dir, [x, y], h) == Ok([StepOf(disk, dir, x, h).file, StepOf(disk, dir, y, h).file])
    ensures Fed(disk, dir, [x, y], h) == StepOf(disk, dir, x, h).data + StepOf(disk, dir, y, h).data
  {
    var fx := StepOf(disk, dir, x, h).file;
    assert [x, y][..1] == [x] && [x][..0] == [];
    assert Collect(disk, dir, [], h) == Ok([]) && Fed(disk, dir, [], h) == [];
    assert [] + [fx] == [fx] && [] + StepOf(disk, dir, x, h).data == StepOf(disk, dir, x, h).data;
    assert Collect(disk, dir, [x], h) == Ok([fx]);
    assert Fed(disk, dir, [x], h) == StepOf(disk, dir, x, h).data;
    assert [fx] + [StepOf(disk, dir, y, h).file] == [fx, StepOf(disk, dir, y, h).file];
  }

  lemma SortTwo(a: File, b: File)
    requires Below(a.url, b.url)
    ensures SortByPath([a, b]) == [a, b] && SortByPath([b, a]) == [a, b]
  {
    BelowAsymmetric(a.url, b.url);
    SortOne(a);
    SortOne(b);
    assert [a, b][1..] == [b] && [b, a][1..] == [a];
    assert Insert(a, [b]) == [a, b];
    assert [a][1..] == [] && Insert(b, []) == [b];
    assert Insert(b, [a]) == [a, b];
  }

  lemma SortOne(x: File)
    ensures SortByPath([x]) == [x]
  {
    assert [x][1..] == [];
  }

  /** A directory `d` holding two one-byte files, `d/a` (byte 1) and `d/b` (byte 2). */
  function ExampleDisk(): Disk
  {
    map["d" := Entry(true, None, None),
        "d/a" := Entry(false, Some([1]), Some(1)),
        "d/b" := Entry(false, Some([2]), Some(1))]
  }

  /** A stand-in hash that tells apart any two byte sequences. */
  function Identity(s: seq<Byte>): Digest
  {
    s
  }

  /**
   * Two readable files enumerated in either order: the sorted list is the
   * same, but the aggregate is the digest of their contents in the order
   * they were enumerated.
   */
  lemma TwoFilesEitherOrder(disk: Disk, root: Path, x: EnumeratorEntry, y: EnumeratorEntry, h: HashFunction,
                            fx: File, dx: seq<Byte>, fy: File, dy: seq<Byte>)
    requires root in disk
    requires StepOf(disk, root, x, h) == Keep(fx, dx) && StepOf(disk, root, y, h) == Keep(fy, dy)
    requires Below(fx.url, fy.url)
    ensures Summarize(disk, root, Some([x, y]), h) == Ok(Summary(!disk[root].isDirectory, [fx, fy], h(dx + dy)))
    ensures Summarize(disk, root, Some([y, x]), h) == Ok(Summary(!disk[root].isDirectory, [fx, fy], h(dy + dx)))
  {
    TwoReadableEntries(disk, root, x, y, h);
    TwoReadableEntries(disk, root, y, x, h);
    SortTwo(fx, fy);
  }

  /**
   * Two runs over the same directory, with its entries enumerated in
   * opposite orders, list the same files but produce different aggregates:
   * the bytes reach the hasher in enumeration order.
   */
  lemma AggregateDependsOnEnumerationOrder()
    ensures Summarize(ExampleDisk(), "d", Some([Some("a"), Some("b")]), Identity)
         == Ok(Summary(false, [File("d/a", [1], 1), File("d/b", [2], 1)], [1, 2]))
    ensures Summarize(ExampleDisk(), "d", Some([Some("b"), Some("a")]), Identity)
         == Ok(Summary(false, [File("d/a", [1], 1), File("d/b", [2], 1)], [2, 1]))
  {
    ExampleRuns();
    ExampleDigests();
  }

  lemma ExampleDigests()
    ensures Identity([1 as Byte] + [2]) == [1, 2] && Identity([2 as Byte] + [1]) == [2, 1]
  {
  }

  /** The two runs of the example, with the aggregate still written as a digest of concatenated contents. */
  lemma ExampleRuns()
    ensures Summarize(ExampleDisk(), "d", Some([Some("a"), Some("b")]), Identity)
         == Ok(Summary(false, [File("d/a", [1], 1), File("d/b", [2], 1)], Identity([1 as Byte] + [2])))
    ensures Summarize(ExampleDisk(), "d", Some([Some("b"), Some("a")]), Identity)
         == Ok(Summary(false, [File("d/a", [1], 1), File("d/b", [2], 1)], Identity([2 as Byte] + [1])))
  {
    var disk := ExampleDisk();
    ExampleSteps();
    ExampleOrder();
    assert "d" in disk && disk["d"].isDirectory;
    TwoFilesEitherOrder(disk, "d", Some("a"), Some("b"), Identity, File("d/a", [1], 1), [1], File("d/b", [2], 1), [2]);
  }

  lemma ExampleOrder()
    ensures Below("d/a", "d/b")
  {
    assert "d/a"[1..] == "/a" && "d/b"[1..] == "/b";
    assert "/a"[1..] == "a" && "/b"[1..] == "b";
  }

  /** Both entries of the example directory are readable one-byte files. */
  lemma ExampleSteps()
    ensures StepOf(ExampleDisk(), "d", Some("a"), Identity) == Keep(File("d/a", [1], 1), [1])
    ensures StepOf(ExampleDisk(), "d", Some("b"), Identity) == Keep(File("d/b", [2], 1), [2])
  {
    assert Join("d", "a") == "d/a" && Join("d", "b") == "d/b";
  }

  /** A root that is not a directory is reported, yet the run goes on and can complete. */
  lemma NonDirectoryRootContinues(disk: Disk, root: Path, es: seq<EnumeratorEntry>, h: HashFunction)
    requires root in disk && !disk[root].isDirectory
    requires forall i :: 0 <= i < |es| ==> StepOf(disk, root, es[i], h).Skip?
    ensures Summarize(disk, root, Some(es), h) == Ok(Summary(true, [], h([])))
  {
    AllSkipped(disk, root, es, h);
  }

  /**
   * The evidently intended run: a root that is not a directory stops it, and
   * the aggregate is fed in the order of the sorted list.
   */
  function SummarizeIntended(disk: Disk, root: Path, enumerator: Option<seq<EnumeratorEntry>>, h: HashFunction)
    : (r: Result<Summary, RunError>)
    ensures root !in disk ==> r == Err(NotFound)
    ensures root in disk && !disk[root].isDirectory ==> r == Err(NotADirectory)
    ensures r.Ok? ==> !r.value.notADirectory && SortedByPath(r.value.files)
  {
    if root !in disk then Err(NotFound)
    else if !disk[root].isDirectory then Err(NotADirectory)
    else
      match enumerator
      case None => Err(CannotEnumerate)
      case Some(es) =>
        match Collect(disk, root, es, h)
        case Err(f) => Err(FileFault(f))
        case Ok(files) =>
          var sorted := SortByPath(files);
          Ok(Summary(false, sorted, h(DataOf(disk, sorted))))
  }

  /**
   * With the intended run, two enumerations of the same entries in any two
   * orders both complete or both fail, and when they complete they produce
   * the same list and the same aggregate.
   */
  lemma IntendedIgnoresEnumerationOrder(disk: Disk, root: Path, es: seq<EnumeratorEntry>, es': seq<EnumeratorEntry>, h: HashFunction)
    requires multiset(es) == multiset(es')
    ensures SummarizeIntended(disk, root, Some(es), h).Ok? <==> SummarizeIntended(disk, root, Some(es'), h).Ok?
    ensures SummarizeIntended(disk, root, Some(es), h).Ok? ==>
              SummarizeIntended(disk, root, Some(es), h) == SummarizeIntended(disk, root, Some(es'), h)
  {
    CollectOkPermutation(disk, root, es, es', h);
    if Collect(disk, root, es, h).Ok? {
      SortedCollectPermutation(disk, root, es, es', h);
    }
  }

  /** Whether the fold completes does not depend on the order of the entries. */
  lemma CollectOkPermutation(disk: Disk, dir: Path, es: seq<EnumeratorEntry>, es': seq<EnumeratorEntry>, h: HashFunction)
    requires multiset(es) == multiset(es')
    ensures Collect(disk, dir, es, h).Ok? <==> Collect(disk, dir, es', h).Ok?
  {
    CollectOkIff(disk, dir, es, h);
    CollectOkIff(disk, dir, es', h);
    forall i | 0 <= i < |es| ensures exists j :: 0 <= j < |es'| && es'[j] == es[i] {
      assert es[i] in multiset(es');
    }
    forall j | 0 <= j < |es'| ensures exists i :: 0 <= i < |es| && es[i] == es'[j] {
      assert es'[j] in multiset(es);
    }
  }

  /** Sorting by path erases the order in which a completed fold collected the files. */
  lemma SortedCollectPermutation(disk: Disk, dir: Path, es: seq<EnumeratorEntry>, es': seq<EnumeratorEntry>, h: HashFunction)
    requires multiset(es) == multiset(es')
    requires Collect(disk, dir, es, h).Ok? && Collect(disk, dir, es', h).Ok?
    ensures SortByPath(Collect(disk, dir, es, h).value) == SortByPath(Collect(disk, dir, es', h).value)
  {
    CollectIsRecords(disk, dir, es, h);
    CollectIsRecords(disk, dir, es', h);
    RecordsPermutation(disk, dir, es, es', h);
    RecordsAreOpened(disk, dir, es, h);
    var records := Records(disk, dir, es, h);
    var sorted := SortByPath(records);
    var sorted' := SortByPath(Records(disk, dir, es', h));
    forall x, y | x in sorted && y in sorted && x.url == y.url
      ensures x == y
    {
      assert x in multiset(sorted) && y in multiset(sorted);
      assert x in records && y in records;
    }
    SortedUnique(sorted, sorted');
  }
}
