/**
 * The `enumerator.compactMap { ... }` fold over the directory enumerator.
 * Each entry is either not a string (skipped), a directory (skipped), a
 * readable file (kept, and its bytes fed to the shared hasher), or a fault
 * (`doesNotExist` or `cannotRead`) that stops the whole run.
 *
 * The fold is specified by functions defined on the entries seen so far
 * (recursion on the last entry), which is also how the loop that implements
 * it proceeds.
 */
module Enumeration {
  import opened Wrappers
  import opened Hashing
  import opened FileSystem
  import opened Files

  /** The offending path and the error `File.init` threw for it. */
  datatype Fault = Fault(path: Path, error: FileError)

  /** What the closure does with one enumerator entry. */
  datatype Step = Skip | Keep(file: File, data: seq<Byte>) | Abort(fault: Fault)

  /** One entry of the enumerator: `None` is an entry that is not a `String`. */
  type EnumeratorEntry = Option<string>

  function StepOf(disk: Disk, dir: Path, entry: EnumeratorEntry, h: HashFunction): (s: Step)
    ensures entry.None? ==> s.Skip?
    ensures entry.Some? ==>
              var url := Join(dir, entry.value);
              && (s.Skip? <==> Open(disk, url, h) == Err(IsDirectory))
              && (s.Keep? <==> Readable(disk, url))
              && (s.Keep? ==> s.file.url == url)
              && (s.Abort? ==> s.fault.path == url)
    ensures s.Keep? ==> s.data == FileData(disk, s.file.url) && Open(disk, s.file.url, h) == Ok(s.file)
    ensures s.Abort? ==> s.fault.error != IsDirectory && Open(disk, s.fault.path, h) == Err(s.fault.error)
  {
    match entry
    case None => Skip
    case Some(name) =>
      var url := Join(dir, name);
      match Open(disk, url, h)
      case Ok(file) => Keep(file, FileData(disk, url))
      case Err(IsDirectory) => Skip
      case Err(e) => Abort(Fault(url, e))
  }

  /** The files the fold collects over `es`, in enumeration order, or the fault that stopped it. */
  function Collect(disk: Disk, dir: Path, es: seq<EnumeratorEntry>, h: HashFunction): (r: Result<seq<File>, Fault>)
    ensures r.Ok? ==> |r.value| <= |es|
    ensures r.Err? ==> r.error.error != IsDirectory && Open(disk, r.error.path, h) == Err(r.error.error)
    decreases |es|
  {
    if es == [] then Ok([])
    else
      match Collect(disk, dir, es[..|es| - 1], h)
      case Err(f) => Err(f)
      case Ok(files) =>
        match StepOf(disk, dir, es[|es| - 1], h)
        case Skip => Ok(files)
        case Keep(file, _) => Ok(files + [file])
        case Abort(f) => Err(f)
  }

  /**
   * The bytes the shared hasher receives while the fold runs over `es`. When
   * the fold completes, they are the contents of the collected files,
   * concatenated in enumeration order.
   */
  function Fed(disk: Disk, dir: Path, es: seq<EnumeratorEntry>, h: HashFunction): (r: seq<Byte>)
    ensures Collect(disk, dir, es, h).Ok? ==> r == DataOf(disk, Collect(disk, dir, es, h).value)
    decreases |es|
  {
    if es == [] then []
    else
      var prefix := es[..|es| - 1];
      match StepOf(disk, dir, es[|es| - 1], h)
      case Keep(file, data) =>
        if Collect(disk, dir, prefix, h).Ok? then
          var files := Collect(disk, dir, prefix, h).value;
          assert (files + [file])[..|files|] == files;
          Fed(disk, dir, prefix, h) + data
        else Fed(disk, dir, prefix, h)
      case _ => Fed(disk, dir, prefix, h)
  }

  /** The record an entry yields on its own, if it yields one. */
  function Kept(disk: Disk, dir: Path, entry: EnumeratorEntry, h: HashFunction): seq<File>
  {
    match StepOf(disk, dir, entry, h)
    case Keep(file, _) => [file]
    case _ => []
  }

  /** Every record the entries yield, ignoring faults. */
  function Records(disk: Disk, dir: Path, es: seq<EnumeratorEntry>, h: HashFunction): seq<File>
    decreases |es|
  {
    if es == [] then [] else Records(disk, dir, es[..|es| - 1], h) + Kept(disk, dir, es[|es| - 1], h)
  }

  /** The contents of the listed files, concatenated in list order. */
  function DataOf(disk: Disk, files: seq<File>): seq<Byte>
    decreases |files|
  {
    if files == [] then [] else DataOf(disk, files[..|files| - 1]) + FileData(disk, files[|files| - 1].url)
  }

  predicate Faulty(disk: Disk, dir: Path, entry: EnumeratorEntry, h: HashFunction)
  {
    StepOf(disk, dir, entry, h).Abort?
  }

  /** The fold completes exactly when no entry faults. */
  lemma {:induction false} CollectOkIff(disk: Disk, dir: Path, es: seq<EnumeratorEntry>, h: HashFunction)
    ensures Collect(disk, dir, es, h).Ok? <==> forall i :: 0 <= i < |es| ==> !Faulty(disk, dir, es[i], h)
    decreases |es|
  {
    if es != [] {
      var prefix := es[..|es| - 1];
      CollectOkIff(disk, dir, prefix, h);
      assert forall i :: 0 <= i < |prefix| ==> prefix[i] == es[i];
    }
  }

  /**
   * Abort on first fault: when entry `k` is the first that faults, the fold
   * reports that fault whatever follows, and the shared hasher receives
   * nothing from entry `k` on.
   */
  lemma {:induction false} FirstFaultAborts(disk: Disk, dir: Path, es: seq<EnumeratorEntry>, h: HashFunction, k: nat)
    requires k < |es| && Faulty(disk, dir, es[k], h)
    requires forall j :: 0 <= j < k ==> !Faulty(disk, dir, es[j], h)
    ensures Collect(disk, dir, es, h) == Err(StepOf(disk, dir, es[k], h).fault)
    ensures Fed(disk, dir, es, h) == Fed(disk, dir, es[..k], h)
    decreases |es|
  {
    var prefix := es[..|es| - 1];
    if k == |es| - 1 {
      CollectOkIff(disk, dir, prefix, h);
      assert forall i :: 0 <= i < |prefix| ==> prefix[i] == es[i];
    } else {
      assert prefix[k] == es[k] && prefix[..k] == es[..k];
      FirstFaultAborts(disk, dir, prefix, h, k);
    }
  }

  /** An entry that is skipped (not a string, or a directory) can be removed without changing the outcome or the bytes fed. */
  lemma {:induction false} SkippedEntryInvisible(disk: Disk, dir: Path, a: seq<EnumeratorEntry>, e: EnumeratorEntry, b: seq<EnumeratorEntry>, h: HashFunction)
    requires StepOf(disk, dir, e, h).Skip?
    ensures Collect(disk, dir, a + [e] + b, h) == Collect(disk, dir, a + b, h)
    ensures Fed(disk, dir, a + [e] + b, h) == Fed(disk, dir, a + b, h)
    decreases |b|
  {
    if b == [] {
      SkippedLast(disk, dir, a, e, h);
    } else {
      var b', last := b[..|b| - 1], b[|b| - 1];
      SkippedEntryInvisible(disk, dir, a, e, b', h);
      SplitLast(a, e, b);
      AppendCongruent(disk, dir, a + [e] + b', a + b', last, h);
    }
  }

  /** A skipped entry at the end changes neither the outcome nor the bytes fed. */
  lemma SkippedLast(disk: Disk, dir: Path, a: seq<EnumeratorEntry>, e: EnumeratorEntry, h: HashFunction)
    requires StepOf(disk, dir, e, h).Skip?
    ensures Collect(disk, dir, a + [e] + [], h) == Collect(disk, dir, a + [], h)
    ensures Fed(disk, dir, a + [e] + [], h) == Fed(disk, dir, a + [], h)
  {
    assert a + [e] + [] == a + [e] && a + [] == a;
    assert (a + [e])[..|a|] == a;
  }

  lemma SplitLast<T>(a: seq<T>, e: T, b: seq<T>)
    requires b != []
    ensures a + [e] + b == (a + [e] + b[..|b| - 1]) + [b[|b| - 1]]
    ensures a + b == (a + b[..|b| - 1]) + [b[|b| - 1]]
  {
  }

  /** Appending the same entry to two entry lists with the same outcome and bytes keeps them the same. */
  lemma AppendCongruent(disk: Disk, dir: Path, s: seq<EnumeratorEntry>, t: seq<EnumeratorEntry>, x: EnumeratorEntry, h: HashFunction)
    requires Collect(disk, dir, s, h) == Collect(disk, dir, t, h) && Fed(disk, dir, s, h) == Fed(disk, dir, t, h)
    ensures Collect(disk, dir, s + [x], h) == Collect(disk, dir, t + [x], h)
    ensures Fed(disk, dir, s + [x], h) == Fed(disk, dir, t + [x], h)
  {
    assert (s + [x])[..|s|] == s && (t + [x])[..|t|] == t;
  }

  lemma {:induction false} RecordsAppend(disk: Disk, dir: Path, u: seq<EnumeratorEntry>, v: seq<EnumeratorEntry>, h: HashFunction)
    ensures Records(disk, dir, u + v, h) == Records(disk, dir, u, h) + Records(disk, dir, v, h)
    decreases |v|
  {
    if v == [] {
      assert u + v == u;
    } else {
      var v' := v[..|v| - 1];
      RecordsAppend(disk, dir, u, v', h);
      assert (u + v)[..|u + v| - 1] == u + v' && (u + v)[|u + v| - 1] == v[|v| - 1];
      ConcatAssociative(Records(disk, dir, u, h), Records(disk, dir, v', h), Kept(disk, dir, v[|v| - 1], h));
    }
  }

  /** When the fold completes, it has collected exactly the records the entries yield. */
  lemma {:induction false} CollectIsRecords(disk: Disk, dir: Path, es: seq<EnumeratorEntry>, h: HashFunction)
    requires Collect(disk, dir, es, h).Ok?
    ensures Collect(disk, dir, es, h).value == Records(disk, dir, es, h)
    decreases |es|
  {
    if es != [] {
      CollectIsRecords(disk, dir, es[..|es| - 1], h);
    }
  }

  /** Every record yielded is the record `File.init` builds for that entry's path below `dir`. */
  lemma {:induction false} RecordsAreOpened(disk: Disk, dir: Path, es: seq<EnumeratorEntry>, h: HashFunction)
    ensures forall f :: f in Records(disk, dir, es, h) ==>
              Open(disk, f.url, h) == Ok(f) && exists i :: 0 <= i < |es| && es[i].Some? && f.url == Join(dir, es[i].value)
    decreases |es|
  {
    if es != [] {
      var prefix := es[..|es| - 1];
      RecordsAreOpened(disk, dir, prefix, h);
      forall f | f in Records(disk, dir, es, h)
        ensures Open(disk, f.url, h) == Ok(f) && exists i :: 0 <= i < |es| && es[i].Some? && f.url == Join(dir, es[i].value)
      {
        if f in Records(disk, dir, prefix, h) {
          var i :| 0 <= i < |prefix| && prefix[i].Some? && f.url == Join(dir, prefix[i].value);
          assert es[i] == prefix[i];
        } else {
          var last := es[|es| - 1];
          assert f in Kept(disk, dir, last, h);
          assert last.Some?;
          assert f.url == Join(dir, last.value);
        }
      }
    }
  }

  /** Conversely, every string entry that names a readable file yields that file's record. */
  lemma {:induction false} ReadableIsRecorded(disk: Disk, dir: Path, es: seq<EnumeratorEntry>, h: HashFunction, i: nat)
    requires i < |es| && es[i].Some? && Readable(disk, Join(dir, es[i].value))
    ensures Open(disk, Join(dir, es[i].value), h).value in Records(disk, dir, es, h)
    decreases |es|
  {
    if i < |es| - 1 {
      var prefix := es[..|es| - 1];
      assert prefix[i] == es[i];
      ReadableIsRecorded(disk, dir, prefix, h, i);
    }
  }

  /** Taking entry `k` out of the middle takes exactly its record out of the records. */
  lemma RecordsWithout(disk: Disk, dir: Path, es: seq<EnumeratorEntry>, k: nat, h: HashFunction)
    requires k < |es|
    ensures multiset(Records(disk, dir, es, h))
         == multiset(Records(disk, dir, es[..k] + es[k + 1..], h)) + multiset(Kept(disk, dir, es[k], h))
  {
    var left, x, right := es[..k], es[k], es[k + 1..];
    assert es == (left + [x]) + right;
    RecordsAppend(disk, dir, left + [x], right, h);
    RecordsAppend(disk, dir, left, [x], h);
    RecordsAppend(disk, dir, left, right, h);
    assert Records(disk, dir, [x], h) == Kept(disk, dir, x, h) by {
      assert [x][..0] == [];
    }
    MultisetMiddle(Records(disk, dir, left, h), Kept(disk, dir, x, h), Records(disk, dir, right, h));
  }

  lemma MultisetMiddle<T>(l: seq<T>, m: seq<T>, r: seq<T>)
    ensures multiset(l + m + r) == multiset(l + r) + multiset(m)
  {
  }

  lemma MultisetWithout<T>(s: seq<T>, k: nat)
    requires k < |s|
    ensures multiset(s[..k] + s[k + 1..]) == multiset(s) - multiset{s[k]}
  {
    assert s == s[..k] + [s[k]] + s[k + 1..];
  }

  /** Reordering the entries reorders the records they yield and nothing more. */
  lemma {:induction false} RecordsPermutation(disk: Disk, dir: Path, es: seq<EnumeratorEntry>, es': seq<EnumeratorEntry>, h: HashFunction)
    requires multiset(es) == multiset(es')
    ensures multiset(Records(disk, dir, es, h)) == multiset(Records(disk, dir, es', h))
    decreases |es|
  {
    if es == [] {
      assert |es'| == |multiset(es')| == 0;
    } else {
      var n := |es| - 1;
      var x := es[n];
      assert x in multiset(es');
      var k :| 0 <= k < |es'| && es'[k] == x;
      MultisetWithout(es, n);
      MultisetWithout(es', k);
      assert es[..n] + es[n + 1..] == es[..n];
      RecordsPermutation(disk, dir, es[..n], es'[..k] + es'[k + 1..], h);
      RecordsWithout(disk, dir, es, n, h);
      RecordsWithout(disk, dir, es', k, h);
    }
  }

  /** A run whose entries are all skipped collects no file and feeds no byte. */
  lemma {:induction false} AllSkipped(disk: Disk, dir: Path, es: seq<EnumeratorEntry>, h: HashFunction)
    requires forall i :: 0 <= i < |es| ==> StepOf(disk, dir, es[i], h).Skip?
    ensures Collect(disk, dir, es, h) == Ok([])
    ensures Fed(disk, dir, es, h) == []
    decreases |es|
  {
    if es != [] {
      var prefix := es[..|es| - 1];
      assert forall i :: 0 <= i < |prefix| ==> prefix[i] == es[i];
      AllSkipped(disk, dir, prefix, h);
    }
  }

  /** One more entry that does not fault: the fold's outcome and bytes after it, from those before it. */
  lemma CollectNext(disk: Disk, dir: Path, es: seq<EnumeratorEntry>, h: HashFunction, i: nat, files: seq<File>)
    requires i < |es| && Collect(disk, dir, es[..i], h) == Ok(files)
    requires !Faulty(disk, dir, es[i], h)
    ensures var s := StepOf(disk, dir, es[i], h);
            && Collect(disk, dir, es[..i + 1], h) == Ok(if s.Keep? then files + [s.file] else files)
            && Fed(disk, dir, es[..i + 1], h) == Fed(disk, dir, es[..i], h) + (if s.Keep? then s.data else [])
  {
    assert es[..i + 1][..i] == es[..i];
  }

  lemma ConcatAssociative<T>(a: seq<T>, b: seq<T>, c: seq<T>)
    ensures (a + b) + c == a + (b + c)
  {
  }

  /** The fold that completed over the entries before `i` stops at entry `i` when that entry faults. */
  lemma AbortsAt(disk: Disk, dir: Path, es: seq<EnumeratorEntry>, h: HashFunction, i: nat, files: seq<File>)
    requires i < |es| && Collect(disk, dir, es[..i], h) == Ok(files)
    requires Faulty(disk, dir, es[i], h)
    ensures Collect(disk, dir, es, h) == Err(StepOf(disk, dir, es[i], h).fault)
    ensures Fed(disk, dir, es, h) == Fed(disk, dir, es[..i], h)
  {
    CollectOkIff(disk, dir, es[..i], h);
    assert forall j :: 0 <= j < i ==> es[..i][j] == es[j];
    FirstFaultAborts(disk, dir, es, h, i);
  }

  /**
   * The closure body for one entry: `nil` for an entry that is not a string
   * and for a directory, the record for a readable file (whose bytes go to
   * `hasher`), and the fault for any other error.
   */
  method Visit(disk: Disk, dir: Path, entry: EnumeratorEntry, hasher: Sha256, h: HashFunction) returns (s: Step)
    modifies hasher
    ensures s == StepOf(disk, dir, entry, h)
    ensures hasher.fed == old(hasher.fed) + (if s.Keep? then s.data else [])
  {
    match entry {
      case None =>
        return Skip;
      case Some(name) =>
        var url := Join(dir, name);
        var file := Init(disk, url, hasher, h);
        match file {
          case Ok(f) =>
            return Keep(f, FileData(disk, url));
          case Err(IsDirectory) =>
            return Skip;
          case Err(e) =>
            return Abort(Fault(url, e));
        }
    }
  }

  /**
   * The `compactMap` loop. It walks the entries in enumeration order, feeds
   * each readable file to `hasher` through `File.init`, and returns at the
   * first fault.
   */
  method CollectFiles(disk: Disk, dir: Path, es: seq<EnumeratorEntry>, hasher: Sha256, h: HashFunction)
    returns (r: Result<seq<File>, Fault>)
    modifies hasher
    ensures r == Collect(disk, dir, es, h)
    ensures hasher.fed == old(hasher.fed) + Fed(disk, dir, es, h)
  {
    var files: seq<File> := [];
    ghost var fed: seq<Byte> := [];
    var i := 0;
    assert es[..i] == [];
    while i < |es|
      invariant 0 <= i <= |es|
      invariant Collect(disk, dir, es[..i], h) == Ok(files)
      invariant fed == Fed(disk, dir, es[..i], h)
      invariant hasher.fed == old(hasher.fed) + fed
    {
      var step := Visit(disk, dir, es[i], hasher, h);
      if step.Abort? {
        AbortsAt(disk, dir, es, h, i, files);
        return Err(step.fault);
      }
      CollectNext(disk, dir, es, h, i, files);
      if step.Keep? {
        ConcatAssociative(old(hasher.fed), fed, step.data);
        files := files + [step.file];
        fed := fed + step.data;
      }
      i := i + 1;
    }
    assert es[..i] == es;
    r := Ok(files);
  }
}
