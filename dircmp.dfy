/**
 * `filecmp.dircmp` over the direct children of two directories: the name
 * listings (sorted, with hidden and ignored names filtered out), the split of
 * the names into left-only, right-only and common ones, the split of the
 * common names by kind, and the shallow comparison of the common files.
 */
module DirCmp {
  import opened FileTree

  /** Names `dircmp` hides by default: the current and parent directory. */
  const Hide: set<string> := {".", ".."}

  /** `filecmp.DEFAULT_IGNORES`, the names `dircmp` ignores by default. */
  const DefaultIgnores: set<string> :=
    {"RCS", "CVS", "tags", ".git", ".hg", ".bzr", "_darcs", "__pycache__"}

  /** What a `dircmp` built without `ignore` or `hide` arguments leaves out. */
  const Skipped: set<string> := Hide + DefaultIgnores

  // ---------------------------------------------------------------------------
  // Listing order: Python compares strings code point by code point.
  // ---------------------------------------------------------------------------

  /** `a <= b` in Python's string order. */
  predicate NotAfter(a: string, b: string)
    decreases |a|
  {
    if a == [] then true
    else if b == [] then false
    else if a[0] != b[0] then a[0] < b[0]
    else NotAfter(a[1..], b[1..])
  }

  lemma {:induction false} NotAfterTotal(a: string, b: string)
    ensures NotAfter(a, b) || NotAfter(b, a)
    decreases |a|
  {
    if a != [] && b != [] && a[0] == b[0] {
      NotAfterTotal(a[1..], b[1..]);
    }
  }

  lemma {:induction false} NotAfterAntisymmetric(a: string, b: string)
    requires NotAfter(a, b) && NotAfter(b, a)
    ensures a == b
    decreases |a|
  {
    if a != [] && b != [] {
      NotAfterAntisymmetric(a[1..], b[1..]);
      assert a == [a[0]] + a[1..] && b == [b[0]] + b[1..];
    }
  }

  lemma {:induction false} NotAfterTransitive(a: string, b: string, c: string)
    requires NotAfter(a, b) && NotAfter(b, c)
    ensures NotAfter(a, c)
    decreases |a|
  {
    if a != [] && b != [] && c != [] && a[0] == b[0] && b[0] == c[0] {
      NotAfterTransitive(a[1..], b[1..], c[1..]);
    }
  }

  predicate IsLeast(m: string, s: set<string>)
  {
    m in s && forall y :: y in s ==> NotAfter(m, y)
  }

  lemma {:induction false} LeastExists(s: set<string>)
    requires s != {}
    ensures exists m :: IsLeast(m, s)
    decreases |s|
  {
    var x :| x in s;
    if s == {x} {
      assert IsLeast(x, s) by { NotAfterTotal(x, x); }
    } else {
      LeastExists(s - {x});
      var m :| IsLeast(m, s - {x});
      NotAfterTotal(m, x);
      if NotAfter(m, x) {
        assert IsLeast(m, s);
      } else {
        forall y | y in s ensures NotAfter(x, y) {
          if y != x { NotAfterTransitive(x, m, y); } else { NotAfterTotal(x, x); }
        }
        assert IsLeast(x, s);
      }
    }
  }

  /** The first name of `s` in listing order. */
  function Least(s: set<string>): (m: string)
    requires s != {}
    ensures m in s && forall y :: y in s ==> NotAfter(m, y)
  {
    LeastExists(s);
    forall a, b | IsLeast(a, s) && IsLeast(b, s) ensures a == b {
      NotAfterAntisymmetric(a, b);
    }
    var m :| IsLeast(m, s); m
  }

  ghost predicate Ascending(xs: seq<string>)
  {
    forall i, j :: 0 <= i < j < |xs| ==> NotAfter(xs[i], xs[j]) && xs[i] != xs[j]
  }

  /** `sorted(s)`: the names of `s`, in listing order (see `SortedAscending`). */
  function Sorted(s: set<string>): (xs: seq<string>)
    ensures forall x :: x in xs <==> x in s
    decreases |s|
  {
    if s == {} then []
    else
      var m := Least(s);
      [m] + Sorted(s - {m})
  }

  /** The listing holds each name once, in listing order. */
  lemma {:induction false} SortedAscending(s: set<string>)
    ensures Ascending(Sorted(s))
    decreases |s|
  {
    if s != {} {
      var m := Least(s);
      var rest := Sorted(s - {m});
      SortedAscending(s - {m});
      assert forall y :: y in rest ==> NotAfter(m, y) && m != y;
      AscendingCons(m, rest);
    }
  }

  /** A name before every name of an ascending list extends it. */
  lemma AscendingCons(m: string, xs: seq<string>)
    requires Ascending(xs)
    requires forall y :: y in xs ==> NotAfter(m, y) && m != y
    ensures Ascending([m] + xs)
  {
    var ys := [m] + xs;
    forall i, j | 0 <= i < j < |ys| ensures NotAfter(ys[i], ys[j]) && ys[i] != ys[j] {
      if i > 0 {
        assert ys[i] == xs[i - 1] && ys[j] == xs[j - 1];
      } else {
        assert ys[j] in xs;
      }
    }
  }

  // ---------------------------------------------------------------------------
  // The comparison object.
  // ---------------------------------------------------------------------------

  /**
   * The attributes of a `dircmp` object that the synchronization reads.
   * `left_only`, `right_only` and `common` are lists in listing order; the
   * others are only ever tested for membership and are kept as sets.
   * (`funny_files`, the files `cmpfiles` cannot read, is always empty here.)
   */
  datatype Comparison = Comparison(
    leftOnly: seq<string>,
    rightOnly: seq<string>,
    common: seq<string>,
    commonDirs: set<string>,
    commonFiles: set<string>,
    commonFunny: set<string>,
    sameFiles: set<string>,
    diffFiles: set<string>)
  {
    /** `left_only + right_only + common`, the names the walk visits. */
    function Names(): seq<string>
    {
      leftOnly + rightOnly + common
    }
  }

  /** Is `k` a name both sides list and both sides hold as a directory? */
  predicate BothDirs(left: map<string, Node>, right: map<string, Node>, k: string)
  {
    k in left && k in right && left[k].Dir? && right[k].Dir?
  }

  /** Is `k` a name both sides list and both sides hold as a regular file? */
  predicate BothFiles(left: map<string, Node>, right: map<string, Node>, k: string)
  {
    k in left && k in right && left[k].File? && right[k].File?
  }

  /** Phase 2 of `dircmp`: the common names that are directories on both sides. */
  function CommonDirs(left: map<string, Node>, right: map<string, Node>, common: set<string>): (s: set<string>)
    ensures forall k :: k in s <==> k in common && BothDirs(left, right, k)
  {
    set k | k in common && BothDirs(left, right, k)
  }

  /** Phase 2 of `dircmp`: the common names that are regular files on both sides. */
  function CommonFiles(left: map<string, Node>, right: map<string, Node>, common: set<string>): (s: set<string>)
    ensures forall k :: k in s <==> k in common && BothFiles(left, right, k)
  {
    set k | k in common && BothFiles(left, right, k)
  }

  /** Phase 2 of `dircmp`: the common names whose two kinds differ. */
  function CommonFunny(left: map<string, Node>, right: map<string, Node>, common: set<string>): (s: set<string>)
    ensures forall k :: k in s <==> k in common && !BothDirs(left, right, k) && !BothFiles(left, right, k)
  {
    set k | k in common && !BothDirs(left, right, k) && !BothFiles(left, right, k)
  }

  /** Phase 3 of `dircmp` (`filecmp.cmpfiles`): the common files that compare equal, or unequal. */
  function CompareFiles(left: map<string, Node>, right: map<string, Node>, files: set<string>, equal: bool): (s: set<string>)
    requires forall k :: k in files ==> k in left && k in right && left[k].File? && right[k].File?
    ensures forall k :: k in s <==> k in files && (Same(left[k], right[k]) == equal)
  {
    set k | k in files && (Same(left[k], right[k]) == equal)
  }

  /**
   * `filecmp.dircmp(left, right, ignore)` for two directories with the given
   * children: phase 1 splits the listed names, phase 2 splits the common ones
   * by kind (a name that is a directory on one side and a file on the other
   * is "funny"), phase 3 compares the common files shallowly.
   */
  function Compare(left: map<string, Node>, right: map<string, Node>, ignore: set<string>): (c: Comparison)
    ensures forall k :: k in c.leftOnly <==> k in left && k !in right && k !in ignore
    ensures forall k :: k in c.rightOnly <==> k !in left && k in right && k !in ignore
    ensures forall k :: k in c.common <==> k in left && k in right && k !in ignore
    ensures forall k :: k in c.commonDirs <==> k in c.common && BothDirs(left, right, k)
    ensures forall k :: k in c.commonFiles <==> k in c.common && BothFiles(left, right, k)
    ensures forall k :: k in c.commonFunny <==>
              k in c.common && !BothDirs(left, right, k) && !BothFiles(left, right, k)
    ensures forall k :: k in c.sameFiles <==> k in c.common && BothFiles(left, right, k) && Same(left[k], right[k])
    ensures forall k :: k in c.diffFiles <==> k in c.common && BothFiles(left, right, k) && !Same(left[k], right[k])
  {
    var lefts := left.Keys - ignore;
    var rights := right.Keys - ignore;
    var common := lefts * rights;
    var files := CommonFiles(left, right, common);
    var c := Comparison(
      Sorted(lefts - rights),
      Sorted(rights - lefts),
      Sorted(common),
      CommonDirs(left, right, common),
      files,
      CommonFunny(left, right, common),
      CompareFiles(left, right, files, true),
      CompareFiles(left, right, files, false));
    assert forall k :: k in c.common <==> k in common;
    c
  }

  /** The names of a list, as a set. */
  function Elements(xs: seq<string>): (s: set<string>)
    ensures forall k :: k in s <==> k in xs
  {
    set k | k in xs
  }

  lemma ElementsSnoc(xs: seq<string>, i: nat)
    requires i < |xs|
    ensures Elements(xs[..i + 1]) == Elements(xs[..i]) + {xs[i]}
  {
    assert xs[..i + 1] == xs[..i] + [xs[i]];
  }

  ghost predicate Distinct(xs: seq<string>)
  {
    forall i, j :: 0 <= i < j < |xs| ==> xs[i] != xs[j]
  }

  lemma DistinctConcat(xs: seq<string>, ys: seq<string>)
    requires Distinct(xs) && Distinct(ys)
    requires forall k :: k in xs ==> k !in ys
    ensures Distinct(xs + ys)
  {
    var zs := xs + ys;
    forall i, j | 0 <= i < j < |zs| ensures zs[i] != zs[j] {
      if j < |xs| {
        assert zs[i] == xs[i] && zs[j] == xs[j];
      } else if i >= |xs| {
        assert zs[i] == ys[i - |xs|] && zs[j] == ys[j - |xs|];
      } else {
        assert zs[i] in xs && zs[j] in ys;
      }
    }
  }

  /** The three name lists are in listing order, without repetitions. */
  lemma CompareAscending(left: map<string, Node>, right: map<string, Node>, ignore: set<string>)
    ensures var c := Compare(left, right, ignore);
            Ascending(c.leftOnly) && Ascending(c.rightOnly) && Ascending(c.common)
  {
    var lefts, rights := left.Keys - ignore, right.Keys - ignore;
    SortedAscending(lefts - rights);
    SortedAscending(rights - lefts);
    SortedAscending(lefts * rights);
  }

  /** A duplicate-free list whose only element is `x` is `[x]`. */
  lemma ListsOne(xs: seq<string>, x: string)
    requires Ascending(xs)
    requires forall k :: k in xs <==> k == x
    ensures xs == [x]
  {
    assert x in xs;
    assert xs[0] in xs;
    if |xs| > 1 {
      // `xs[1]` would also be `x`, twice in an ascending list.
      AscendingStarts(xs);
      assert false;
    }
  }

  lemma AscendingStarts(xs: seq<string>)
    requires Ascending(xs) && |xs| > 1
    ensures xs[0] in xs && xs[1] in xs && xs[0] != xs[1]
  {
  }

  /** Every name the walk visits occurs once, and every listed name is visited. */
  lemma NamesDistinct(left: map<string, Node>, right: map<string, Node>, ignore: set<string>)
    ensures var ns := Compare(left, right, ignore).Names();
            Distinct(ns) && forall k :: k in ns <==> (k in left || k in right) && k !in ignore
  {
    var c := Compare(left, right, ignore);
    CompareAscending(left, right, ignore);
    DistinctConcat(c.leftOnly, c.rightOnly);
    DistinctConcat(c.leftOnly + c.rightOnly, c.common);
  }
}
