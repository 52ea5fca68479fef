/**
 * The `.sorted { $0.url.path < $1.url.path }` step. Path comparison is
 * lexicographic order on characters; sorting is a pure function whose
 * result is ordered by path and is a permutation of its input.
 */
module PathOrder {
  import opened FileSystem
  import opened Files

  /** `a` is a proper prefix of `b`. */
  predicate ProperPrefix(a: Path, b: Path)
  {
    |a| < |b| && a == b[..|a|]
  }

  /** At the first position where `a` and `b` differ, `a` has the smaller character. */
  predicate SmallerAtFirstDifference(a: Path, b: Path)
  {
    exists k :: 0 <= k < |a| && k < |b| && a[..k] == b[..k] && a[k] < b[k]
  }

  /** Strict lexicographic order on paths: `a` comes before `b`. */
  predicate Below(a: Path, b: Path)
  {
    |b| > 0 && (|a| == 0 || a[0] < b[0] || (a[0] == b[0] && Below(a[1..], b[1..])))
  }

  /**
   * `Below` is the lexicographic order: `a` is a proper prefix of `b`, or at
   * the first position where they differ `a` has the smaller character.
   */
  lemma {:induction false} BelowIsLexicographic(a: Path, b: Path)
    ensures Below(a, b) <==> ProperPrefix(a, b) || SmallerAtFirstDifference(a, b)
    decreases |a|
  {
    if |b| == 0 {
      EmptyBelowNothing(a, b);
    } else if |a| == 0 {
      assert a == b[..0];
    } else if a[0] != b[0] {
      HeadsDiffer(a, b);
    } else {
      HeadsAgree(a, b);
      BelowIsLexicographic(a[1..], b[1..]);
    }
  }

  lemma EmptyBelowNothing(a: Path, b: Path)
    requires |b| == 0
    ensures !ProperPrefix(a, b) && !SmallerAtFirstDifference(a, b)
  {
  }

  lemma HeadsDiffer(a: Path, b: Path)
    requires |a| > 0 && |b| > 0 && a[0] != b[0]
    ensures !ProperPrefix(a, b)
    ensures SmallerAtFirstDifference(a, b) <==> a[0] < b[0]
  {
    if a[0] < b[0] {
      assert a[..0] == b[..0];
    }
  }

  lemma HeadsAgree(a: Path, b: Path)
    requires |a| > 0 && |b| > 0 && a[0] == b[0]
    ensures ProperPrefix(a, b) <==> ProperPrefix(a[1..], b[1..])
    ensures SmallerAtFirstDifference(a, b) <==> SmallerAtFirstDifference(a[1..], b[1..])
  {
    if |a| < |b| {
      assert a == [a[0]] + a[1..] && b[..|a|] == [b[0]] + b[1..][..|a| - 1];
    }
    DifferenceInTails(a, b);
  }

  lemma DifferenceInTails(a: Path, b: Path)
    requires |a| > 0 && |b| > 0 && a[0] == b[0]
    ensures SmallerAtFirstDifference(a, b) <==> SmallerAtFirstDifference(a[1..], b[1..])
  {
    if SmallerAtFirstDifference(a, b) {
      var k :| 0 <= k < |a| && k < |b| && a[..k] == b[..k] && a[k] < b[k];
      DifferenceMovesIn(a, b, k);
    }
    if SmallerAtFirstDifference(a[1..], b[1..]) {
      var k :| 0 <= k < |a[1..]| && k < |b[1..]| && a[1..][..k] == b[1..][..k] && a[1..][k] < b[1..][k];
      DifferenceMovesOut(a, b, k);
    }
  }

  lemma DifferenceMovesIn(a: Path, b: Path, k: nat)
    requires |a| > 0 && |b| > 0 && a[0] == b[0]
    requires k < |a| && k < |b| && a[..k] == b[..k] && a[k] < b[k]
    ensures SmallerAtFirstDifference(a[1..], b[1..])
  {
    var ta, tb := a[1..], b[1..];
    assert ta[..k - 1] == a[..k][1..] && tb[..k - 1] == b[..k][1..];
    assert ta[k - 1] == a[k] && tb[k - 1] == b[k];
  }

  lemma DifferenceMovesOut(a: Path, b: Path, k: nat)
    requires |a| > 0 && |b| > 0 && a[0] == b[0]
    requires k < |a| - 1 && k < |b| - 1 && a[1..][..k] == b[1..][..k] && a[1..][k] < b[1..][k]
    ensures SmallerAtFirstDifference(a, b)
  {
    assert a[..k + 1] == [a[0]] + a[1..][..k] && b[..k + 1] == [b[0]] + b[1..][..k];
    assert a[k + 1] == a[1..][k] && b[k + 1] == b[1..][k];
  }

  lemma {:induction false} BelowIrreflexive(a: Path)
    ensures !Below(a, a)
  {
    if |a| > 0 {
      BelowIrreflexive(a[1..]);
    }
  }

  lemma {:induction false} BelowTransitive(a: Path, b: Path, c: Path)
    requires Below(a, b) && Below(b, c)
    ensures Below(a, c)
  {
    if |a| > 0 && a[0] == b[0] && b[0] == c[0] {
      BelowTransitive(a[1..], b[1..], c[1..]);
    }
  }

  lemma {:induction false} BelowTotal(a: Path, b: Path)
    ensures a == b || Below(a, b) || Below(b, a)
  {
    if |a| > 0 && |b| > 0 && a[0] == b[0] {
      BelowTotal(a[1..], b[1..]);
      if a[1..] == b[1..] {
        assert a == [a[0]] + a[1..] && b == [b[0]] + b[1..];
      }
    }
  }

  lemma BelowAsymmetric(a: Path, b: Path)
    requires Below(a, b)
    ensures !Below(b, a)
  {
    if Below(b, a) {
      BelowTransitive(a, b, a);
      BelowIrreflexive(a);
    }
  }

  /** "Not below" is transitive: a <= b <= c gives a <= c. */
  lemma NotBelowTransitive(a: Path, b: Path, c: Path)
    requires !Below(b, a) && !Below(c, b)
    ensures !Below(c, a)
  {
    BelowTotal(a, b);
    BelowTotal(b, c);
    if a != b && b != c {
      BelowTransitive(a, b, c);
      BelowAsymmetric(a, c);
    }
  }

  /** No later file's path is below an earlier one's: what `sorted(by:)` with `<` guarantees. */
  predicate SortedByPath(s: seq<File>)
  {
    forall i, j :: 0 <= i < j < |s| ==> !Below(s[j].url, s[i].url)
  }

  /** Putting a file in front of a sorted list keeps it sorted when no listed path is below the new one. */
  lemma ConsSorted(f: File, s: seq<File>)
    requires SortedByPath(s)
    requires forall k :: 0 <= k < |s| ==> !Below(s[k].url, f.url)
    ensures SortedByPath([f] + s)
  {
    forall i, j | 0 <= i < j < |s| + 1
      ensures !Below(([f] + s)[j].url, ([f] + s)[i].url)
    {
      if i > 0 {
        assert ([f] + s)[j] == s[j - 1] && ([f] + s)[i] == s[i - 1];
      }
    }
  }

  lemma InsertFront(f: File, s: seq<File>)
    requires SortedByPath(s) && |s| > 0 && !Below(s[0].url, f.url)
    ensures SortedByPath([f] + s)
  {
    forall k | 0 <= k < |s|
      ensures !Below(s[k].url, f.url)
    {
      if k > 0 {
        NotBelowTransitive(f.url, s[0].url, s[k].url);
      }
    }
    ConsSorted(f, s);
  }

  lemma InsertBehind(f: File, s: seq<File>, rest: seq<File>)
    requires SortedByPath(s) && |s| > 0 && Below(s[0].url, f.url)
    requires SortedByPath(rest) && multiset(rest) == multiset(s[1..]) + multiset{f}
    ensures SortedByPath([s[0]] + rest)
  {
    BelowAsymmetric(s[0].url, f.url);
    forall k | 0 <= k < |rest|
      ensures !Below(rest[k].url, s[0].url)
    {
      assert rest[k] in multiset(rest);
      if rest[k] != f {
        assert rest[k] in multiset(s[1..]);
        var m :| 0 <= m < |s[1..]| && s[1..][m] == rest[k];
        assert s[m + 1] == rest[k];
      }
    }
    ConsSorted(s[0], rest);
  }

  function Insert(f: File, s: seq<File>): (r: seq<File>)
    requires SortedByPath(s)
    ensures SortedByPath(r)
    ensures multiset(r) == multiset(s) + multiset{f}
  {
    if s == [] then [f]
    else if !Below(s[0].url, f.url) then
      InsertFront(f, s);
      [f] + s
    else
      var rest := Insert(f, s[1..]);
      assert s == [s[0]] + s[1..];
      InsertBehind(f, s, rest);
      [s[0]] + rest
  }

  /** The file list ordered by path. */
  function SortByPath(s: seq<File>): (r: seq<File>)
    ensures SortedByPath(r)
    ensures multiset(r) == multiset(s)
  {
    if s == [] then []
    else
      assert s == [s[0]] + s[1..];
      Insert(s[0], SortByPath(s[1..]))
  }

  /** The first file of a sorted list has a path no other element's path is below. */
  lemma HeadIsLeast(s: seq<File>, x: File)
    requires SortedByPath(s) && x in s
    ensures !Below(x.url, s[0].url)
  {
    var i :| 0 <= i < |s| && s[i] == x;
    if i == 0 {
      BelowIrreflexive(x.url);
    }
  }

  lemma SortedTail(s: seq<File>)
    requires SortedByPath(s) && |s| > 0
    ensures SortedByPath(s[1..])
  {
    forall i, j | 0 <= i < j < |s| - 1
      ensures !Below(s[1..][j].url, s[1..][i].url)
    {
      assert s[1..][j] == s[j + 1] && s[1..][i] == s[i + 1];
    }
  }

  /**
   * Two path-sorted lists with the same elements are equal, provided no two
   * different files share a path.
   */
  lemma {:induction false} SortedUnique(a: seq<File>, b: seq<File>)
    requires SortedByPath(a) && SortedByPath(b)
    requires multiset(a) == multiset(b)
    requires forall x, y :: x in a && y in a && x.url == y.url ==> x == y
    ensures a == b
    decreases |a|
  {
    assert |b| == |multiset(b)| == |multiset(a)| == |a|;
    if a != [] {
      SameHead(a, b);
      SameTail(a, b);
      SortedTail(a);
      SortedTail(b);
      SortedUnique(a[1..], b[1..]);
    }
  }

  /** Two sorted permutations of a list without duplicate paths start with the same file. */
  lemma SameHead(a: seq<File>, b: seq<File>)
    requires SortedByPath(a) && SortedByPath(b) && a != [] && b != []
    requires multiset(a) == multiset(b)
    requires forall x, y :: x in a && y in a && x.url == y.url ==> x == y
    ensures a[0] == b[0]
  {
    assert a[0] in multiset(b) && b[0] in multiset(a);
    HeadIsLeast(b, a[0]);
    HeadIsLeast(a, b[0]);
    BelowTotal(a[0].url, b[0].url);
  }

  /** Removing the same head from two permutations leaves permutations. */
  lemma SameTail(a: seq<File>, b: seq<File>)
    requires a != [] && b != [] && a[0] == b[0]
    requires multiset(a) == multiset(b)
    ensures multiset(a[1..]) == multiset(b[1..])
  {
    assert a == [a[0]] + a[1..] && b == [b[0]] + b[1..];
    assert multiset(a[1..]) == multiset(a) - multiset{a[0]};
    assert multiset(b[1..]) == multiset(b) - multiset{b[0]};
  }
}
