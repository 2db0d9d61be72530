/**
 * What repeated passes lead to: a pass is idempotent, a second pass writes
 * nothing, a pass writes nothing exactly when it changes nothing, a pass
 * reaches every depth of the directories both sides hold, and a pass over
 * trees without ignored names or kind mismatches makes the replica mirror
 * the source.
 */
module Convergence {
  import opened Wrappers
  import opened FileTree
  import opened DirCmp
  import opened Log
  import opened Reconciliation
  import opened Guarantees

  // ---------------------------------------------------------------------------
  // Every depth.
  // ---------------------------------------------------------------------------

  /** `q` leads through directories that both trees hold and that are not ignored. */
  predicate CommonDirPath(s: Node, r: Node, ignore: set<string>, q: Path)
    decreases q
  {
    q == [] ||
    (s.Dir? && r.Dir? && q[0] !in ignore && BothDirs(s.children, r.children, q[0])
     && CommonDirPath(s.children[q[0]], r.children[q[0]], ignore, q[1..]))
  }

  /**
   * A pass reconciles every directory pair it reaches as if that pair were
   * the root, and the records of that nested pass are records of the pass.
   */
  lemma {:induction false} ReconcileAt(p: Path, s: Node, r: Node, ignore: set<string>, q: Path)
    requires CommonDirPath(s, r, ignore, q)
    ensures Lookup(s, q).Some? && Lookup(r, q).Some?
    ensures Lookup(Reconcile(s, r, ignore), q)
         == Some(Reconcile(Lookup(s, q).value, Lookup(r, q).value, ignore))
    ensures forall e :: e in PassEvents(p + q, Lookup(s, q).value, Lookup(r, q).value, ignore)
                        ==> e in PassEvents(p, s, r, ignore)
    decreases q
  {
    if q == [] {
      assert p + q == p;
    } else {
      var k := q[0];
      var sk, rk := s.children[k], r.children[k];
      CommonDirectoryRecursed(p, s, r, ignore, k);
      ReconcileAt(p + [k], sk, rk, ignore, q[1..]);
      assert p + [k] + q[1..] == p + q;
    }
  }

  // ---------------------------------------------------------------------------
  // Idempotence.
  // ---------------------------------------------------------------------------

  /** A pass over a tree and an identical copy changes nothing. */
  lemma {:induction false} ReconcileSelf(t: Node, ignore: set<string>)
    ensures Reconcile(t, t, ignore) == t
    decreases t
  {
    if t.Dir? {
      var c := t.children;
      forall k ensures Get(Reconcile(t, t, ignore).children, k) == Get(c, k) {
        EntryOutcome(t, t, ignore, k);
        if k in c && c[k].Dir? {
          ReconcileSelf(c[k], ignore);
        } else if k in c {
          SameReflexive(c[k]);
        }
      }
      MapsEqual(Reconcile(t, t, ignore).children, c);
    }
  }

  /** A second pass over the same source leaves the replica as the first left it. */
  lemma {:induction false} ReconcileIdempotent(s: Node, r: Node, ignore: set<string>)
    ensures Reconcile(s, Reconcile(s, r, ignore), ignore) == Reconcile(s, r, ignore)
    decreases s
  {
    if s.Dir? && r.Dir? {
      var sc, rc := s.children, r.children;
      var r' := Reconcile(s, r, ignore);
      forall k ensures Get(Reconcile(s, r', ignore).children, k) == Get(r'.children, k) {
        EntryOutcome(s, r', ignore, k);
        EntryOutcome(s, r, ignore, k);
        if k !in ignore && k in sc {
          if BothDirs(sc, rc, k) {
            ReconcileIdempotent(sc[k], rc[k], ignore);
          } else if k !in rc || (BothFiles(sc, rc, k) && !Same(sc[k], rc[k])) {
            // The replica now holds the source's entry.
            if sc[k].Dir? { ReconcileSelf(sc[k], ignore); } else { SameReflexive(sc[k]); }
          }
        }
      }
      MapsEqual(Reconcile(s, r', ignore).children, r'.children);
    }
  }

  // ---------------------------------------------------------------------------
  // A pass is silent exactly when it changes nothing.
  // ---------------------------------------------------------------------------

  /** Nothing is written for a list of names exactly when nothing is written for any of them. */
  lemma {:induction false} LevelQuiet(p: Path, s: Node, r: Node, ignore: set<string>, names: seq<string>)
    requires s.Dir? && r.Dir?
    ensures LevelEvents(p, s, r, ignore, names) == []
            <==> forall k :: k in names ==> EntryEvents(p, s, r, ignore, k) == []
    decreases |names|
  {
    if names != [] {
      var init, last := names[..|names| - 1], names[|names| - 1];
      LevelQuiet(p, s, r, ignore, init);
      assert LevelEvents(p, s, r, ignore, names)
          == LevelEvents(p, s, r, ignore, init) + EntryEvents(p, s, r, ignore, last);
      assert names == init + [last];
      assert forall k :: k in names <==> k in init || k == last;
    }
  }

  /** Nothing is written for name `k` exactly when its replica entry stays as it is. */
  lemma {:induction false} EntryQuiet(p: Path, s: Node, r: Node, ignore: set<string>, k: string)
    requires s.Dir? && r.Dir?
    ensures EntryEvents(p, s, r, ignore, k) == [] <==> Entry(s, r, ignore, k) == Get(r.children, k)
    decreases s, 0
  {
    var sc, rc := s.children, r.children;
    if k !in ignore && BothDirs(sc, rc, k) {
      PassQuiet(p + [k], sc[k], rc[k], ignore);
    } else if k !in ignore && BothFiles(sc, rc, k) {
      SameReflexive(sc[k]);
    }
  }

  /** A pass writes no record exactly when it leaves the replica as it is. */
  lemma {:induction false} PassQuiet(p: Path, s: Node, r: Node, ignore: set<string>)
    ensures PassEvents(p, s, r, ignore) == [] <==> Reconcile(s, r, ignore) == r
    decreases s, 1
  {
    if s.Dir? && r.Dir? {
      var sc, rc := s.children, r.children;
      var names := Compare(sc, rc, ignore).Names();
      NamesDistinct(sc, rc, ignore);
      LevelQuiet(p, s, r, ignore, names);
      forall k ensures EntryEvents(p, s, r, ignore, k) == [] <==> Entry(s, r, ignore, k) == Get(rc, k) {
        EntryQuiet(p, s, r, ignore, k);
      }
      forall k ensures Get(Reconcile(s, r, ignore).children, k) == Entry(s, r, ignore, k) {
        EntryOutcome(s, r, ignore, k);
      }
      if forall k :: Entry(s, r, ignore, k) == Get(rc, k) {
        MapsEqual(Reconcile(s, r, ignore).children, rc);
      }
    }
  }

  /** The second of two passes over the same source writes nothing. */
  lemma SecondPassQuiet(p: Path, s: Node, r: Node, ignore: set<string>)
    ensures PassEvents(p, s, Reconcile(s, r, ignore), ignore) == []
  {
    ReconcileIdempotent(s, r, ignore);
    PassQuiet(p, s, Reconcile(s, r, ignore), ignore);
  }

  // ---------------------------------------------------------------------------
  // Convergence.
  // ---------------------------------------------------------------------------

  /**
   * `b` mirrors `a`: the same names at every level, of the same kinds, with
   * files that the shallow comparison finds the same.
   */
  predicate Mirror(a: Node, b: Node)
    decreases a
  {
    if a.File? then b.File? && Same(a, b)
    else b.Dir? && a.children.Keys == b.children.Keys
         && forall k :: k in a.children ==> Mirror(a.children[k], b.children[k])
  }

  lemma {:induction false} MirrorReflexive(t: Node)
    ensures Mirror(t, t)
    decreases t
  {
    if t.Dir? {
      forall k | k in t.children ensures Mirror(t.children[k], t.children[k]) {
        MirrorReflexive(t.children[k]);
      }
    }
  }

  /** A replica that mirrors the source is left as it is, and the pass writes nothing. */
  lemma {:induction false} MirrorUnchanged(p: Path, s: Node, r: Node, ignore: set<string>)
    requires Mirror(s, r)
    ensures Reconcile(s, r, ignore) == r && PassEvents(p, s, r, ignore) == []
    decreases s
  {
    if s.Dir? {
      var sc, rc := s.children, r.children;
      forall k ensures Get(Reconcile(s, r, ignore).children, k) == Get(rc, k) {
        EntryOutcome(s, r, ignore, k);
        if k in sc && sc[k].Dir? {
          MirrorUnchanged(p + [k], sc[k], rc[k], ignore);
        }
      }
      MapsEqual(Reconcile(s, r, ignore).children, rc);
    }
    PassQuiet(p, s, r, ignore);
  }

  /**
   * Two directories whose compared levels hold no ignored name and no name
   * that is a directory on one side and a file on the other.
   */
  predicate Comparable(s: Node, r: Node, ignore: set<string>)
    decreases s
  {
    s.Dir? && r.Dir?
    && (forall k :: k in ignore ==> k !in s.children && k !in r.children)
    && forall k :: k in s.children && k in r.children ==>
         BothFiles(s.children, r.children, k)
         || (BothDirs(s.children, r.children, k) && Comparable(s.children[k], r.children[k], ignore))
  }

  /** One pass over comparable directories makes the replica mirror the source. */
  lemma {:induction false} Converges(s: Node, r: Node, ignore: set<string>)
    requires Comparable(s, r, ignore)
    ensures Mirror(s, Reconcile(s, r, ignore))
    decreases s
  {
    var sc, rc := s.children, r.children;
    var r' := Reconcile(s, r, ignore);
    forall k ensures Get(r'.children, k).Some? == (k in sc)
                  && (k in sc ==> Mirror(sc[k], r'.children[k])) {
      EntryOutcome(s, r, ignore, k);
      if k in sc {
        if k in rc && BothDirs(sc, rc, k) {
          Converges(sc[k], rc[k], ignore);
        } else if k in rc && Same(sc[k], rc[k]) {
        } else {
          MirrorReflexive(sc[k]);
        }
      }
    }
    assert sc.Keys == r'.children.Keys;
  }

  /**
   * After one pass over comparable directories the replica mirrors the
   * source, and a further pass changes nothing and writes nothing.
   */
  lemma ConvergesInOnePass(p: Path, s: Node, r: Node, ignore: set<string>)
    requires Comparable(s, r, ignore)
    ensures Mirror(s, Reconcile(s, r, ignore))
    ensures Reconcile(s, Reconcile(s, r, ignore), ignore) == Reconcile(s, r, ignore)
    ensures PassEvents(p, s, Reconcile(s, r, ignore), ignore) == []
  {
    Converges(s, r, ignore);
    MirrorUnchanged(p, s, Reconcile(s, r, ignore), ignore);
  }
}
