/**
 * What one pass guarantees, stated on `Reconcile` and `PassEvents`: the fate
 * of each kind of entry and the record written for it, at every depth of the
 * compared directories; the source-only, replica-only and changed entries
 * are the only ones a record names.
 */
module Guarantees {
  import opened Wrappers
  import opened FileTree
  import opened DirCmp
  import opened Log
  import opened Reconciliation

  // ---------------------------------------------------------------------------
  // Entries of the reconciled directory, and where records come from.
  // ---------------------------------------------------------------------------

  /** After a pass, each entry of a directory pair is the one `Entry` gives. */
  lemma EntryOutcome(s: Node, r: Node, ignore: set<string>, k: string)
    requires s.Dir? && r.Dir?
    ensures Get(Reconcile(s, r, ignore).children, k) == Entry(s, r, ignore, k)
  {
    HandledGet(s, r, ignore, s.children.Keys + r.children.Keys, k);
    if k !in s.children && k !in r.children {
      assert Entry(s, r, ignore, k) == None;
    }
  }

  /**
   * Every record of a pass over the directory pair at `p` names an entry
   * strictly below `p`, and it is one of the records written for the name
   * of the first step below `p`, which is a name the walk visits.
   */
  lemma {:induction false} PassEventsFrom(p: Path, s: Node, r: Node, ignore: set<string>, e: Event)
    requires e in PassEvents(p, s, r, ignore)
    ensures s.Dir? && r.Dir?
    ensures Touches(e, p) && |Target(e)| > |p|
    ensures var k := Target(e)[|p|];
            k !in ignore && (k in s.children || k in r.children) && e in EntryEvents(p, s, r, ignore, k)
    decreases s, 2
  {
    var names := Compare(s.children, r.children, ignore).Names();
    NamesDistinct(s.children, r.children, ignore);
    LevelEventsFrom(p, s, r, ignore, names, e);
  }

  /** The same for the records written while handling a list of names. */
  lemma {:induction false} LevelEventsFrom(p: Path, s: Node, r: Node, ignore: set<string>,
                                           names: seq<string>, e: Event)
    requires s.Dir? && r.Dir?
    requires e in LevelEvents(p, s, r, ignore, names)
    ensures Touches(e, p) && |Target(e)| > |p|
    ensures Target(e)[|p|] in names && e in EntryEvents(p, s, r, ignore, Target(e)[|p|])
    decreases s, 1, |names|
  {
    var init, last := names[..|names| - 1], names[|names| - 1];
    if e in LevelEvents(p, s, r, ignore, init) {
      LevelEventsFrom(p, s, r, ignore, init, e);
    } else {
      EntryEventsFrom(p, s, r, ignore, last, e);
    }
  }

  /** Every record written while handling name `k` at `p` names `p + [k]` or an entry below it. */
  lemma {:induction false} EntryEventsFrom(p: Path, s: Node, r: Node, ignore: set<string>, k: string, e: Event)
    requires s.Dir? && r.Dir?
    requires e in EntryEvents(p, s, r, ignore, k)
    ensures Touches(e, p + [k]) && Touches(e, p) && |Target(e)| > |p| && Target(e)[|p|] == k
    decreases s, 0
  {
    var sc, rc := s.children, r.children;
    if k !in ignore && k in sc && k in rc && BothDirs(sc, rc, k) {
      PassEventsFrom(p + [k], sc[k], rc[k], ignore, e);
    }
    TouchesChild(e, p, k);
  }

  /** Every record written for a name the walk visits is a record of the pass. */
  lemma {:induction false} LevelEventsHas(p: Path, s: Node, r: Node, ignore: set<string>,
                                          names: seq<string>, k: string)
    requires s.Dir? && r.Dir? && k in names
    ensures forall e :: e in EntryEvents(p, s, r, ignore, k) ==> e in LevelEvents(p, s, r, ignore, names)
    decreases |names|
  {
    var init := names[..|names| - 1];
    if k in init {
      LevelEventsHas(p, s, r, ignore, init, k);
    } else {
      assert k == names[|names| - 1] by {
        assert names == init + [names[|names| - 1]];
      }
    }
  }

  /** The records written for a listed name are among the records of the pass. */
  lemma PassEventsHas(p: Path, s: Node, r: Node, ignore: set<string>, k: string)
    requires s.Dir? && r.Dir? && k !in ignore && (k in s.children || k in r.children)
    ensures forall e :: e in EntryEvents(p, s, r, ignore, k) ==> e in PassEvents(p, s, r, ignore)
  {
    NamesDistinct(s.children, r.children, ignore);
    LevelEventsHas(p, s, r, ignore, Compare(s.children, r.children, ignore).Names(), k);
  }

  /** When nothing is written for name `k`, no record of the pass names it or anything below it. */
  lemma Silent(p: Path, s: Node, r: Node, ignore: set<string>, k: string)
    requires s.Dir? && r.Dir? && EntryEvents(p, s, r, ignore, k) == []
    ensures forall e :: e in PassEvents(p, s, r, ignore) ==> !Touches(e, p + [k])
  {
    forall e | e in PassEvents(p, s, r, ignore) ensures !Touches(e, p + [k]) {
      PassEventsFrom(p, s, r, ignore, e);
    }
  }

  // ---------------------------------------------------------------------------
  // The fate of each kind of entry.
  // ---------------------------------------------------------------------------

  /**
   * An entry only the source has is in the replica afterwards, the same
   * subtree or file, and its copy is recorded.
   */
  lemma SourceOnlyCopied(p: Path, s: Node, r: Node, ignore: set<string>, k: string)
    requires s.Dir? && r.Dir? && k in s.children && k !in r.children && k !in ignore
    ensures Get(Reconcile(s, r, ignore).children, k) == Some(s.children[k])
    ensures (if s.children[k].Dir? then CopiedDirectory(p + [k]) else CopiedFile(p + [k]))
            in PassEvents(p, s, r, ignore)
  {
    EntryOutcome(s, r, ignore, k);
    PassEventsHas(p, s, r, ignore, k);
  }

  /** An entry only the replica has is gone afterwards, and its removal is recorded. */
  lemma ReplicaOnlyRemoved(p: Path, s: Node, r: Node, ignore: set<string>, k: string)
    requires s.Dir? && r.Dir? && k !in s.children && k in r.children && k !in ignore
    ensures k !in Reconcile(s, r, ignore).children
    ensures (if r.children[k].Dir? then RemovedDirectory(p + [k]) else RemovedFile(p + [k]))
            in PassEvents(p, s, r, ignore)
  {
    EntryOutcome(s, r, ignore, k);
    PassEventsHas(p, s, r, ignore, k);
  }

  /** Two files that compare unequal: the replica's is overwritten by the source's, recorded as an update. */
  lemma DifferentFileUpdated(p: Path, s: Node, r: Node, ignore: set<string>, k: string)
    requires s.Dir? && r.Dir? && BothFiles(s.children, r.children, k) && k !in ignore
    requires !Same(s.children[k], r.children[k])
    ensures Get(Reconcile(s, r, ignore).children, k) == Some(s.children[k])
    ensures UpdatedFile(p + [k]) in PassEvents(p, s, r, ignore)
  {
    EntryOutcome(s, r, ignore, k);
    PassEventsHas(p, s, r, ignore, k);
  }

  /** Two files that compare equal: the replica's is kept, and no record names it. */
  lemma SameFileKept(p: Path, s: Node, r: Node, ignore: set<string>, k: string)
    requires s.Dir? && r.Dir? && BothFiles(s.children, r.children, k)
    requires Same(s.children[k], r.children[k])
    ensures Get(Reconcile(s, r, ignore).children, k) == Some(r.children[k])
    ensures forall e :: e in PassEvents(p, s, r, ignore) ==> !Touches(e, p + [k])
  {
    EntryOutcome(s, r, ignore, k);
    Silent(p, s, r, ignore, k);
  }

  /**
   * A name that is a directory on one side and a file on the other passes
   * the `os.path.isdir` test but is in none of the lists that branch acts
   * on: the replica's entry is kept, and no record names it.
   */
  lemma MismatchKept(p: Path, s: Node, r: Node, ignore: set<string>, k: string)
    requires s.Dir? && r.Dir? && k in s.children && k in r.children
    requires s.children[k].Dir? != r.children[k].Dir?
    ensures IsDir(Get(s.children, k)) || IsDir(Get(r.children, k))
    ensures var c := Compare(s.children, r.children, ignore);
            k !in c.leftOnly && k !in c.rightOnly && k !in c.commonDirs
    ensures Get(Reconcile(s, r, ignore).children, k) == Some(r.children[k])
    ensures forall e :: e in PassEvents(p, s, r, ignore) ==> !Touches(e, p + [k])
  {
    EntryOutcome(s, r, ignore, k);
    Silent(p, s, r, ignore, k);
  }

  /** An ignored name is kept as it is in the replica, and no record names it. */
  lemma IgnoredKept(p: Path, s: Node, r: Node, ignore: set<string>, k: string)
    requires s.Dir? && r.Dir? && k in ignore
    ensures Get(Reconcile(s, r, ignore).children, k) == Get(r.children, k)
    ensures forall e :: e in PassEvents(p, s, r, ignore) ==> !Touches(e, p + [k])
  {
    EntryOutcome(s, r, ignore, k);
    Silent(p, s, r, ignore, k);
  }

  /**
   * A name that is a directory on both sides is reconciled with a fresh
   * comparison of the two subdirectories, and the records of that nested
   * pass are records of this one.
   */
  lemma CommonDirectoryRecursed(p: Path, s: Node, r: Node, ignore: set<string>, k: string)
    requires s.Dir? && r.Dir? && BothDirs(s.children, r.children, k) && k !in ignore
    ensures Get(Reconcile(s, r, ignore).children, k)
         == Some(Reconcile(s.children[k], r.children[k], ignore))
    ensures forall e :: e in PassEvents(p + [k], s.children[k], r.children[k], ignore)
                        ==> e in PassEvents(p, s, r, ignore)
  {
    EntryOutcome(s, r, ignore, k);
    PassEventsHas(p, s, r, ignore, k);
  }
}
