/**
 * What one synchronization pass does, stated as functions of the source and
 * replica trees: the replica tree the pass leaves behind (`Reconcile`) and the
 * log records it writes (`PassEvents`), both defined entry by entry from the
 * action table of `comparison_check`. The imperative walk in module `Sync` is
 * proved to compute exactly these; the lemmas here state what they guarantee.
 */
module Reconciliation {
  import opened Wrappers
  import opened FileTree
  import opened DirCmp
  import opened Log

  // ---------------------------------------------------------------------------
  // The replica after a pass.
  // ---------------------------------------------------------------------------

  /**
   * The replica entry for name `k` after `k` has been handled in the
   * directory pair `s`, `r`: copied when only the source has it, deleted when
   * only the replica has it, reconciled recursively when both hold a
   * directory, overwritten when both hold files that compare unequal, and
   * left alone otherwise (ignored names, equal files, and names that are a
   * directory on one side and a file on the other).
   */
  function Entry(s: Node, r: Node, ignore: set<string>, k: string): Option<Node>
    requires s.Dir? && r.Dir?
    decreases s, 0
  {
    var sc, rc := s.children, r.children;
    if k in ignore then Get(rc, k)
    else if k in sc && k !in rc then Some(sc[k])
    else if k !in sc && k in rc then None
    else if BothDirs(sc, rc, k) then Some(Reconcile(sc[k], rc[k], ignore))
    else if BothFiles(sc, rc, k) && !Same(sc[k], rc[k]) then Some(sc[k])
    else Get(rc, k)
  }

  /** The entry `k` of the replica directory once the names in `done` have been handled. */
  function After(s: Node, r: Node, ignore: set<string>, done: set<string>, k: string): Option<Node>
    requires s.Dir? && r.Dir?
    decreases s, 1
  {
    if k in done then Entry(s, r, ignore, k) else Get(r.children, k)
  }

  /** The replica directory's children once the names in `done` have been handled. */
  function Handled(s: Node, r: Node, ignore: set<string>, done: set<string>): map<string, Node>
    requires s.Dir? && r.Dir?
    decreases s, 2
  {
    map k | k in s.children.Keys + r.children.Keys && After(s, r, ignore, done, k).Some?
          :: After(s, r, ignore, done, k).value
  }

  /**
   * The replica tree after a pass over source `s` and replica `r` that
   * ignores the names in `ignore`. Only directory pairs are reconciled.
   */
  function Reconcile(s: Node, r: Node, ignore: set<string>): Node
    decreases s, 3
  {
    if s.Dir? && r.Dir? then Dir(Handled(s, r, ignore, s.children.Keys + r.children.Keys)) else r
  }

  // ---------------------------------------------------------------------------
  // The log records of a pass.
  // ---------------------------------------------------------------------------

  /** The records written while handling name `k` of the directory pair at `p`. */
  function EntryEvents(p: Path, s: Node, r: Node, ignore: set<string>, k: string): seq<Event>
    requires s.Dir? && r.Dir?
    decreases s, 0
  {
    var sc, rc := s.children, r.children;
    if k in ignore then []
    else if k in sc && k !in rc then
      [if sc[k].Dir? then CopiedDirectory(p + [k]) else CopiedFile(p + [k])]
    else if k !in sc && k in rc then
      [if rc[k].Dir? then RemovedDirectory(p + [k]) else RemovedFile(p + [k])]
    else if BothDirs(sc, rc, k) then PassEvents(p + [k], sc[k], rc[k], ignore)
    else if BothFiles(sc, rc, k) && !Same(sc[k], rc[k]) then [UpdatedFile(p + [k])]
    else []
  }

  /** The records written while handling `names`, in that order, at `p`. */
  function LevelEvents(p: Path, s: Node, r: Node, ignore: set<string>, names: seq<string>): seq<Event>
    requires s.Dir? && r.Dir?
    decreases s, 1, |names|
  {
    if names == [] then []
    else LevelEvents(p, s, r, ignore, names[..|names| - 1])
         + EntryEvents(p, s, r, ignore, names[|names| - 1])
  }

  /** The records a pass over the directory pair at `p` writes, in order. */
  function PassEvents(p: Path, s: Node, r: Node, ignore: set<string>): seq<Event>
    decreases s, 2
  {
    if s.Dir? && r.Dir? then
      LevelEvents(p, s, r, ignore, Compare(s.children, r.children, ignore).Names())
    else []
  }

  // ---------------------------------------------------------------------------
  // How the level maps grow, name by name.
  // ---------------------------------------------------------------------------

  /** Each entry of a partly handled directory is the handled or the original one. */
  lemma HandledGet(s: Node, r: Node, ignore: set<string>, done: set<string>, k: string)
    requires s.Dir? && r.Dir?
    ensures Get(Handled(s, r, ignore, done), k) == After(s, r, ignore, done, k)
  {
    if k !in s.children && k !in r.children {
      assert Entry(s, r, ignore, k) == None;
    }
  }

  /** Before any name is handled, the directory is the replica's. */
  lemma HandledNone(s: Node, r: Node, ignore: set<string>)
    requires s.Dir? && r.Dir?
    ensures Handled(s, r, ignore, {}) == r.children
  {
    var m := Handled(s, r, ignore, {});
    forall k ensures Get(m, k) == Get(r.children, k) {
      HandledGet(s, r, ignore, {}, k);
    }
    MapsEqual(m, r.children);
  }

  lemma MapsEqual(a: map<string, Node>, b: map<string, Node>)
    requires forall k :: Get(a, k) == Get(b, k)
    ensures a == b
  {
    assert a.Keys == b.Keys by {
      forall k ensures k in a <==> k in b { assert Get(a, k).Some? == Get(b, k).Some?; }
    }
    forall k | k in a ensures a[k] == b[k] { assert Get(a, k) == Get(b, k); }
  }

  /** Handling one more name sets or deletes exactly that entry. */
  lemma HandledStep(s: Node, r: Node, ignore: set<string>, done: set<string>, k: string)
    requires s.Dir? && r.Dir? && k !in done
    ensures Handled(s, r, ignore, done + {k})
         == SetChild(Handled(s, r, ignore, done), k, Entry(s, r, ignore, k))
  {
    var m' := SetChild(Handled(s, r, ignore, done), k, Entry(s, r, ignore, k));
    var n := Handled(s, r, ignore, done + {k});
    forall j ensures Get(n, j) == Get(m', j) {
      HandledGet(s, r, ignore, done + {k}, j);
      HandledGet(s, r, ignore, done, j);
    }
    MapsEqual(n, m');
  }

  /** Handling every name `dircmp` lists completes the pass at this level. */
  lemma HandledComplete(s: Node, r: Node, ignore: set<string>, done: set<string>)
    requires s.Dir? && r.Dir?
    requires forall k :: k in Compare(s.children, r.children, ignore).Names() ==> k in done
    ensures Dir(Handled(s, r, ignore, done)) == Reconcile(s, r, ignore)
  {
    var all := s.children.Keys + r.children.Keys;
    NamesDistinct(s.children, r.children, ignore);
    forall k ensures Get(Handled(s, r, ignore, done), k) == Get(Handled(s, r, ignore, all), k) {
      HandledGet(s, r, ignore, done, k);
      HandledGet(s, r, ignore, all, k);
    }
    MapsEqual(Handled(s, r, ignore, done), Handled(s, r, ignore, all));
  }

  /** One more turn of the loop over a duplicate-free list of names. */
  lemma HandledTurn(p: Path, s: Node, r: Node, ignore: set<string>, names: seq<string>, i: nat)
    requires s.Dir? && r.Dir? && Distinct(names) && i < |names|
    ensures Get(Handled(s, r, ignore, Elements(names[..i])), names[i]) == Get(r.children, names[i])
    ensures SetChild(Handled(s, r, ignore, Elements(names[..i])), names[i], Entry(s, r, ignore, names[i]))
         == Handled(s, r, ignore, Elements(names[..i + 1]))
    ensures LevelEvents(p, s, r, ignore, names[..i]) + EntryEvents(p, s, r, ignore, names[i])
         == LevelEvents(p, s, r, ignore, names[..i + 1])
  {
    var done := Elements(names[..i]);
    assert names[i] !in done;
    ElementsSnoc(names, i);
    HandledGet(s, r, ignore, done, names[i]);
    HandledStep(s, r, ignore, done, names[i]);
    assert names[..i + 1] == names[..i] + [names[i]];
    LevelEventsSnoc(p, s, r, ignore, names[..i], names[i]);
  }

  /** Handling the last of `names` appends its records. */
  lemma LevelEventsSnoc(p: Path, s: Node, r: Node, ignore: set<string>, names: seq<string>, k: string)
    requires s.Dir? && r.Dir?
    ensures LevelEvents(p, s, r, ignore, names + [k])
         == LevelEvents(p, s, r, ignore, names) + EntryEvents(p, s, r, ignore, k)
  {
    assert (names + [k])[..|names|] == names;
  }

  // ---------------------------------------------------------------------------
  // The dispatch of `comparison_check` agrees with the action table.
  // ---------------------------------------------------------------------------

  /**
   * `comparison_check` decides on `os.path.isdir` of the two entries and on
   * membership in the lists of the level's `dircmp`. When either entry is a
   * directory, each of its branches does what `Entry` and `EntryEvents` say
   * and finds the entries of the kinds its filesystem action needs.
   */
  lemma DirectoryDispatch(p: Path, s: Node, r: Node, ignore: set<string>, k: string)
    requires s.Dir? && r.Dir?
    requires IsDir(Get(s.children, k)) || IsDir(Get(r.children, k))
    ensures var c := Compare(s.children, r.children, ignore);
            var sf, rf := Get(s.children, k), Get(r.children, k);
            var e, ev := Entry(s, r, ignore, k), EntryEvents(p, s, r, ignore, k);
            if k in c.leftOnly then
              IsDir(sf) && rf.None? && e == sf && ev == [CopiedDirectory(p + [k])]
            else if k in c.rightOnly then
              IsDir(rf) && e == None && ev == [RemovedDirectory(p + [k])]
            else if k in c.commonDirs && k !in c.sameFiles then
              BothDirs(s.children, r.children, k)
              && e == Some(Reconcile(sf.value, rf.value, ignore))
              && ev == PassEvents(p + [k], sf.value, rf.value, ignore)
            else
              e == rf && ev == []
  {
  }

  /**
   * The same for a name that is a directory on neither side: removal,
   * copy and overwrite are `Entry`'s and `EntryEvents`' cases for it.
   */
  lemma FileDispatch(p: Path, s: Node, r: Node, ignore: set<string>, k: string)
    requires s.Dir? && r.Dir?
    requires !IsDir(Get(s.children, k)) && !IsDir(Get(r.children, k))
    ensures var c := Compare(s.children, r.children, ignore);
            var sf, rf := Get(s.children, k), Get(r.children, k);
            var e, ev := Entry(s, r, ignore, k), EntryEvents(p, s, r, ignore, k);
            if k in c.rightOnly then
              IsFile(rf) && e == None && ev == [RemovedFile(p + [k])]
            else if k in c.leftOnly then
              IsFile(sf) && rf.None? && e == sf && ev == [CopiedFile(p + [k])]
            else if k in c.diffFiles then
              IsFile(sf) && IsFile(rf) && e == sf && ev == [UpdatedFile(p + [k])]
            else
              e == rf && ev == []
  {
  }
}
