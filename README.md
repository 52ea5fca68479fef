# dirsum: traversal and aggregation, modelled in Dafny

dirsum walks a directory tree, hashes every regular file it finds, and
prints one aggregate SHA-256 digest that stands for the whole tree. With
`--files` it first prints each file's path and SHA-256 digest, sorted by
path; with `--size` as well, each of those entries also shows the file's
size (`dirsum/main.swift:147-158`). This project models the part of
`dirsum/main.swift` that decides what those outputs are:

- `File.init(url:globalHasher:)`: the three checks on a path, made in a fixed
  order (missing, directory, unreadable), the per-file digest, and the update
  of the run's shared hasher (module `Files`, file `files.dfy`);
- the `compactMap` closure over the directory enumerator: entries that are not
  strings and directories are skipped, any other error stops the run
  (module `Enumeration`, file `enumeration.dfy`);
- the `.sorted` by path (module `PathOrder`, file `pathorder.dfy`);
- the top level: the root checks, the fold, the sort and `hasher.finalize()`
  (module `Dirsum`, file `dirsum.dfy`);
- the unit selection of `humanReadableSize(bytes:)` (module `SizeFormat`,
  file `sizeformat.dfy`).

The outside world enters as values. The file system is a `Disk`, a map from
path to an `Entry` that records the three observations the program makes of
a path. Those observations are kept independent, so the order in which
`File.init` consults them matters. The enumerator is a parameter: its entries
in the order it yields them (`None` for an entry that is not a `String`), or
`None` when `FileManager.enumerator(atPath:)` returns nil. SHA-256 is an
uninterpreted function `h` passed to every operation that needs it. The
incremental hasher is the class `Hashing.Sha256`, which remembers every byte
fed to it. Finalizing it applies `h` to those bytes.

The model follows the code as written, including two places where it does
not serve the program's evident purpose, a reproducible fingerprint of the
tree:

- The aggregate is fed while enumerating, so it is fed in enumeration order, not in sorted order.
- A root that is not a directory is reported, and the run goes on.

Both are logged under Findings, each with a corrected variant. A record's
size is the file-size resource value, not the number of bytes read.

## Model

| member | source | states |
|---|---|---|
| `Hashing.Sha256.constructor` | dirsum/main.swift:39 | a new hasher has been fed nothing |
| `Hashing.Sha256.Update` | dirsum/main.swift:96-97 | an update appends exactly the given bytes to what the hasher has been fed |
| `Files.Open` | dirsum/main.swift:72-102 | check order: a missing path is `doesNotExist` whatever else holds; an existing directory is `isDirectory` even if its data could be read; `cannotRead` exactly when a non-directory lacks data or size; success exactly when all three observations succeed, and then the record's digest is `h` of the file's bytes and its size is the file-size value |
| `Files.Init` | dirsum/main.swift:72-102 | the initializer's outcome is `Open`'s; on any error the shared hasher is unchanged; on success it has been fed exactly the file's bytes, and the per-file digest comes from a fresh hasher fed only those bytes |
| `Hashing.Sha256.Finalize` | dirsum/main.swift:101 | the digest is `h` of every byte fed so far, in the order fed; reading it leaves the hasher as it was |
| `FileSystem.Join` | dirsum/main.swift:115 | the path is the directory, then one `/`, then the entry name, so both parts can be read back from it |
| `Enumeration.StepOf` | dirsum/main.swift:109-139 | an entry that is not a string is skipped; for a string entry the path is the root joined with the name; the entry is skipped exactly when `File.init` reports `isDirectory` for that path, and kept exactly when the path is readable; a kept entry carries the record `File.init` builds for that path and the file's bytes; a fault carries that path and an error other than `isDirectory` that `File.init` reports for it |
| `Enumeration.Visit` | dirsum/main.swift:109-139 | the closure body for one entry yields `StepOf`'s outcome and feeds the shared hasher the file's bytes exactly when the entry is kept |
| `Enumeration.Collect` | dirsum/main.swift:105-141 | the fold collects at most one record per entry; when it stops, the fault names a path for which `File.init` reports an error other than `isDirectory` |
| `Enumeration.Fed` | dirsum/main.swift:97-119 | the bytes fed during a completed fold are the contents of the collected files concatenated in enumeration order |
| `Enumeration.CollectNext` | dirsum/main.swift:105-141 | one more entry that does not fault extends the collected list by its record, if it has one, and the bytes fed by its contents |
| `Enumeration.AbortsAt` | dirsum/main.swift:125-139 | after entries that all completed, a faulty entry's fault is the fold's outcome and it and the entries after it feed no byte |
| `Enumeration.CollectOkIff` | dirsum/main.swift:105-141 | the fold completes if and only if no entry faults |
| `Enumeration.FirstFaultAborts` | dirsum/main.swift:125-139 | the first faulty entry's fault is the run's outcome, whatever entries follow it, and the shared hasher receives no byte from that entry on |
| `Enumeration.SkippedEntryInvisible` | dirsum/main.swift:109-124 | a non-string or directory entry can be removed anywhere without changing the outcome or the bytes fed |
| `Enumeration.AllSkipped` | dirsum/main.swift:109-124 | entries that are all skipped collect no file and feed no byte |
| `Enumeration.RecordsAppend` | dirsum/main.swift:105-141 | the records of a concatenation of entry lists are the concatenation of their records |
| `Enumeration.CollectIsRecords` | dirsum/main.swift:105-141 | a completed fold collects exactly the records the entries yield, in enumeration order |
| `Enumeration.RecordsAreOpened` | dirsum/main.swift:115-119 | every collected record is what `File.init` builds for the root joined with the name of some string entry |
| `Enumeration.ReadableIsRecorded` | dirsum/main.swift:115-119 | every string entry whose path is readable yields the record `File.init` builds for that path |
| `Enumeration.RecordsWithout` | dirsum/main.swift:105-141 | removing one entry removes exactly that entry's record from the multiset of records |
| `Enumeration.RecordsPermutation` | dirsum/main.swift:105-141 | enumerating the same entries in another order yields the same multiset of records |
| `Enumeration.CollectFiles` | dirsum/main.swift:105-141 | the loop returns the fold's outcome and feeds the shared hasher exactly the fold's bytes |
| `PathOrder.BelowIsLexicographic` | dirsum/main.swift:144 | `Below`, the model of the path comparison, is strict lexicographic order on characters: `a` sorts before `b` exactly when `a` is a proper prefix of `b`, or at the first position where they differ `a` has the smaller character |
| `PathOrder.BelowIrreflexive` | dirsum/main.swift:144 | no path sorts before itself |
| `PathOrder.BelowTransitive` | dirsum/main.swift:144 | the path order is transitive |
| `PathOrder.BelowTotal` | dirsum/main.swift:144 | of two different paths one sorts before the other |
| `PathOrder.BelowAsymmetric` | dirsum/main.swift:144 | two paths never sort before each other |
| `PathOrder.NotBelowTransitive` | dirsum/main.swift:144 | "sorts no later than" is transitive |
| `PathOrder.Insert` | dirsum/main.swift:142-145 | inserting a file into a path-sorted list keeps it sorted and adds exactly that file |
| `PathOrder.SortByPath` | dirsum/main.swift:142-145 | the result is sorted by path and is a permutation of the input |
| `PathOrder.SortedUnique` | dirsum/main.swift:142-145 | two path-sorted lists with the same elements, where a path determines the file, are equal |
| `Dirsum.Summarize` | dirsum/main.swift:37-164 | a missing root ends the run with `NotFound` before any enumeration; an existing root without an enumerator ends it with `CannotEnumerate`; a completed run has an enumerator, a sorted list, and flags the root exactly when it is not a directory |
| `Dirsum.Run` | dirsum/main.swift:37-164 | the program's top-level statements produce `Summarize`'s outcome |
| `Dirsum.CompletedRun` | dirsum/main.swift:97-164 | with no faulty entry the run completes; its list is sorted by path and is a permutation of the records the entries yield, each as `File.init` built it; its aggregate is `h` of the contents of those files in enumeration order |
| `Dirsum.RunStopsAtFirstFault` | dirsum/main.swift:125-139 | the first faulty entry ends the run with that entry's path and error; no list and no aggregate are produced |
| `Dirsum.EmptyTree` | dirsum/main.swift:105-164 | with no file to read, the list is empty and the aggregate is `h` of no bytes |
| `Dirsum.TwoReadableEntries` | dirsum/main.swift:105-141 | two readable entries are both collected in enumeration order and both fed, in that order |
| `Dirsum.SortTwo` | dirsum/main.swift:142-145 | two files with different paths sort the same way whichever order they come in |
| `Dirsum.TwoFilesEitherOrder` | dirsum/main.swift:97-164 | two readable files enumerated in either order give the same sorted list, but the aggregate is `h` of their contents in enumeration order |
| `Dirsum.AggregateDependsOnEnumerationOrder` | dirsum/main.swift:97-164 | a concrete directory whose two enumeration orders give the same list and different aggregates |
| `Dirsum.NonDirectoryRootContinues` | dirsum/main.swift:47-50 | a root that is not a directory is reported and the run still completes with a summary |
| `Dirsum.SummarizeIntended` | dirsum/main.swift:41-164 | corrected run: a root that is not a directory stops it; a completed run's list is sorted |
| `Dirsum.CollectOkPermutation` | dirsum/main.swift:105-141 | whether the fold completes does not depend on the enumeration order |
| `Dirsum.SortedCollectPermutation` | dirsum/main.swift:142-145 | sorting erases the order in which a completed fold collected the files |
| `Dirsum.IntendedIgnoresEnumerationOrder` | dirsum/main.swift:97-164 | corrected run: two enumerations of the same entries both complete or both fail, and when they complete they give the same list and the same aggregate |
| `SizeFormat.Scale` | dirsum/main.swift:166-187 | no unit below 1000 bytes; otherwise the largest of KB, MB, GB and TB whose size (10^3, 10^6, 10^9, 10^12 bytes) does not exceed the count |
| `SizeFormat.ScaleUnique` | dirsum/main.swift:166-187 | any unit meeting those bounds is the one chosen |
| `SizeFormat.NatText` | dirsum/main.swift:170 | the decimal text of a count is a non-empty digit string with no leading zero that denotes the count |
| `SizeFormat.DecimalText` | dirsum/main.swift:170 | an integer's text is its digits, preceded by a minus sign when negative |
| `SizeFormat.HumanReadableSize` | dirsum/main.swift:166-187 | below 1000 the text is exactly "<bytes> bytes"; otherwise it is the scaled value's text, then the unit's name, and it ends with " - <bytes> bytes" |

## Findings

| source | as written | input that shows it | evidently intended | confidence | as-written member | corrected member |
|---|---|---|---|---|---|---|
| dirsum/main.swift:97 | the shared hasher is fed inside the enumeration closure, before the sort at line 142, so bytes reach it in enumeration order | directory `d` holding `d/a` = [1] and `d/b` = [2], enumerated as a, b and as b, a: the same sorted list, but aggregates `h([1, 2])` and `h([2, 1])` | an aggregate that depends only on the files, with bytes fed in sorted path order | medium; not executed | `Dirsum.AggregateDependsOnEnumerationOrder` | `Dirsum.IntendedIgnoresEnumerationOrder` |
| dirsum/main.swift:47-50 | a root that is not a directory only prints an error; execution continues | a root that is a regular file and an enumerator that yields no entries: the run completes with an empty list and aggregate `h([])` | stop with an error, as for a missing root | medium; not executed | `Dirsum.NonDirectoryRootContinues` | `Dirsum.SummarizeIntended` |

## Left out

- Argument parsing (`Options`, `parseOrExit`) and the `--files` and `--size` switches: they select what is printed, not what is computed.
- Console output and `exit(-1)`: a run that exits becomes an `Err` result. Bytes fed to the shared hasher before a fault are still in it when `CollectFiles` returns, where the program would have exited.
- `FileManager` and `URL`: recursive enumeration, `fileExists`, `Data(contentsOf:)`, `resourceValues`, symbolic links and percent-encoding. The disk is a map and the enumerator a parameter; nothing ties the enumerator's entries to the disk.
- `URL.appending(component:)` is modelled as `dir + "/" + name`, with no normalisation of the separators.
- SHA-256 (FIPS 180-4) and the hexadecimal `stringValue` rendering: digests are the values of an uninterpreted function, and their 32-byte length is not tracked.
- `autoreleasepool`: memory management only.
- The `%.02f` text of the scaled size in `humanReadableSize` is the parameter `fixed`; the floating-point division is not modelled.
- Swift's Unicode-aware `String` comparison is modelled as lexicographic order on characters.
- Swift's sorting algorithm is not modelled; `SortByPath` is an insertion sort. The choice cannot show in the output: a record is a function of its path (`Files.Open` depends only on the path, and `RecordsAreOpened` shows every record is what `Open` builds), so records that share a path are equal, and `SortedUnique` shows there is only one sorted arrangement of such a list.
- The final `catch` arm of the closure cannot be reached, because `File.init` throws only its own three errors. The model has no such arm.
- Integer widths: `fileSize` and the thresholds of `humanReadableSize` fit in a 64-bit `Int`, so no wrap-around is modelled.
