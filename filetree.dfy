/**
 * An abstract directory tree standing in for the filesystem under one root
 * path. A tree is either a regular file (its modification time and bytes) or a
 * directory mapping each child name to a subtree. Paths are sequences of names
 * relative to a root, so `os.path.join(root, a, b)` is the path `[a, b]`.
 */
module FileTree {
  import opened Wrappers

  type Path = seq<string>

  datatype Node =
    | File(mtime: int, content: seq<bv8>)
    | Dir(children: map<string, Node>)

  /** The size that `os.stat` reports for a file. */
  function Size(f: Node): nat
    requires f.File?
  {
    |f.content|
  }

  /**
   * The shallow comparison of `filecmp.cmp`: two regular files are the same
   * when their stat signatures (type, size, mtime) agree; when only the
   * mtimes differ, their bytes decide; files of different sizes differ.
   */
  predicate Same(a: Node, b: Node)
    requires a.File? && b.File?
  {
    Size(a) == Size(b) && (a.mtime == b.mtime || a.content == b.content)
  }

  /** Every file is the same as itself. */
  lemma SameReflexive(a: Node)
    requires a.File?
    ensures Same(a, a)
  {
  }

  /** Same files may still hold different bytes: the comparison is shallow. */
  lemma SameIsShallow()
    ensures var a, b := File(0, [1]), File(0, [2]);
            Same(a, b) && a != b
  {
  }

  /** `os.path.isdir` of an entry that may be missing. */
  predicate IsDir(e: Option<Node>)
  {
    e.Some? && e.value.Dir?
  }

  /** `os.path.isfile` of an entry that may be missing. */
  predicate IsFile(e: Option<Node>)
  {
    e.Some? && e.value.File?
  }

  /** The child named `k` of a directory listing, if any. */
  function Get(m: map<string, Node>, k: string): (e: Option<Node>)
    ensures e.Some? <==> k in m
    ensures e.Some? ==> e.value == m[k]
  {
    if k in m then Some(m[k]) else None
  }

  /** The entry found by walking path `p` down from `t`, if the walk succeeds. */
  function Lookup(t: Node, p: Path): Option<Node>
    decreases p
  {
    if p == [] then Some(t)
    else match t
      case File(_, _) => None
      case Dir(c) => if p[0] in c then Lookup(c[p[0]], p[1..]) else None
  }

  /** The tree `t` with the entry at existing path `p` replaced by `n`. */
  function Graft(t: Node, p: Path, n: Node): Node
    decreases p
  {
    if p == [] then n
    else match t
      case File(_, _) => t
      case Dir(c) => if p[0] in c then Dir(c[p[0] := Graft(c[p[0]], p[1..], n)]) else t
  }

  /** A directory listing with entry `k` set to `e.value`, or removed when `e` is None. */
  function SetChild(m: map<string, Node>, k: string, e: Option<Node>): (m': map<string, Node>)
    ensures Get(m', k) == e
    ensures forall j :: j != k ==> Get(m', j) == Get(m, j)
  {
    if e.Some? then m[k := e.value] else m - {k}
  }

  /** Setting an entry to what it already is changes nothing. */
  lemma SetChildSame(m: map<string, Node>, k: string)
    ensures SetChild(m, k, Get(m, k)) == m
  {
  }

  /**
   * The tree `t` after the child `k` of the directory at `dir` has been
   * created or replaced by `e.value`, or deleted when `e` is None.
   */
  function SetEntry(t: Node, dir: Path, k: string, e: Option<Node>): Node
    requires IsDir(Lookup(t, dir))
  {
    Graft(t, dir, Dir(SetChild(Lookup(t, dir).value.children, k, e)))
  }

  lemma {:induction false} LookupAppend(t: Node, p: Path, q: Path)
    requires Lookup(t, p).Some?
    ensures Lookup(t, p + q) == Lookup(Lookup(t, p).value, q)
    decreases p
  {
    if p != [] {
      var c := t.children;
      assert (p + q)[0] == p[0] && (p + q)[1..] == p[1..] + q;
      LookupAppend(c[p[0]], p[1..], q);
    } else {
      assert p + q == q;
    }
  }

  /** A child of the directory at `p` is found at `p + [k]`. */
  lemma LookupChild(t: Node, p: Path, k: string)
    requires IsDir(Lookup(t, p))
    ensures Lookup(t, p + [k]) == Get(Lookup(t, p).value.children, k)
  {
    LookupAppend(t, p, [k]);
  }

  /** Below a grafted path, lookups see the grafted tree. */
  lemma {:induction false} LookupGraft(t: Node, p: Path, n: Node, q: Path)
    requires Lookup(t, p).Some?
    ensures Lookup(Graft(t, p, n), p + q) == Lookup(n, q)
    decreases p
  {
    if p != [] {
      var c := t.children;
      assert (p + q)[0] == p[0] && (p + q)[1..] == p[1..] + q;
      LookupGraft(c[p[0]], p[1..], n, q);
    } else {
      assert p + q == q;
    }
  }

  /** After grafting a directory at `p`, its children are found below `p`. */
  lemma LookupGraftChild(t: Node, p: Path, m: map<string, Node>, k: string)
    requires Lookup(t, p).Some?
    ensures Lookup(Graft(t, p, Dir(m)), p) == Some(Dir(m))
    ensures Lookup(Graft(t, p, Dir(m)), p + [k]) == Get(m, k)
  {
    LookupGraft(t, p, Dir(m), []);
    assert p + [] == p;
    LookupGraft(t, p, Dir(m), [k]);
    assert Lookup(Dir(m), [k]) == Get(m, k) by {
      if k in m { assert Lookup(Dir(m), [k]) == Lookup(m[k], []); }
    }
  }

  /** Grafting twice at the same path keeps only the second graft. */
  lemma {:induction false} GraftGraft(t: Node, p: Path, a: Node, b: Node)
    requires Lookup(t, p).Some?
    ensures Graft(Graft(t, p, a), p, b) == Graft(t, p, b)
    decreases p
  {
    if p != [] {
      var c := t.children;
      GraftGraft(c[p[0]], p[1..], a, b);
    }
  }

  /** Grafting one level deeper is grafting an updated directory. */
  lemma {:induction false} GraftChild(t: Node, p: Path, k: string, n: Node)
    requires IsDir(Lookup(t, p)) && k in Lookup(t, p).value.children
    ensures Graft(t, p + [k], n) == Graft(t, p, Dir(Lookup(t, p).value.children[k := n]))
    decreases p
  {
    if p == [] {
      assert [] + [k] == [k];
    } else {
      var c := t.children;
      assert (p + [k])[0] == p[0] && (p + [k])[1..] == p[1..] + [k];
      GraftChild(c[p[0]], p[1..], k, n);
    }
  }

  /** Grafting what is already there changes nothing. */
  lemma {:induction false} GraftSelf(t: Node, p: Path)
    requires Lookup(t, p).Some?
    ensures Graft(t, p, Lookup(t, p).value) == t
    decreases p
  {
    if p != [] {
      var c := t.children;
      GraftSelf(c[p[0]], p[1..]);
    }
  }

  /** Setting an entry of a grafted directory is grafting the updated directory. */
  lemma SetEntryGraft(t: Node, p: Path, m: map<string, Node>, k: string, e: Option<Node>)
    requires Lookup(t, p).Some?
    ensures IsDir(Lookup(Graft(t, p, Dir(m)), p))
    ensures SetEntry(Graft(t, p, Dir(m)), p, k, e) == Graft(t, p, Dir(SetChild(m, k, e)))
  {
    LookupGraft(t, p, Dir(m), []);
    assert p + [] == p;
    GraftGraft(t, p, Dir(m), Dir(SetChild(m, k, e)));
  }
}
