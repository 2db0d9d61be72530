/**
 * Two concrete passes: a nested source copied into an empty replica, and a
 * small replica that is updated, pruned and extended in one pass. Each is
 * proved for any names the comparison does not ignore, then instantiated
 * with `dircmp`'s default hidden and ignored names.
 */
module Scenarios {
  import opened Wrappers
  import opened FileTree
  import opened DirCmp
  import opened Log
  import opened Reconciliation
  import opened Guarantees

  const Hello: seq<bv8> := [0x68, 0x65, 0x6c, 0x6c, 0x6f]
  const Goodbye: seq<bv8> := [0x67, 0x6f, 0x6f, 0x64, 0x62, 0x79, 0x65]

  /** A source holding one entry `a` is copied whole into an empty replica, with one record. */
  lemma OneIntoEmpty(p: Path, a: string, n: Node, ignore: set<string>)
    requires a !in ignore
    ensures Reconcile(Dir(map[a := n]), Dir(map[]), ignore) == Dir(map[a := n])
    ensures PassEvents(p, Dir(map[a := n]), Dir(map[]), ignore)
         == [if n.Dir? then CopiedDirectory(p + [a]) else CopiedFile(p + [a])]
  {
    var s, r := Dir(map[a := n]), Dir(map[]);
    forall k ensures Get(Reconcile(s, r, ignore).children, k) == Get(s.children, k) {
      EntryOutcome(s, r, ignore, k);
    }
    MapsEqual(Reconcile(s, r, ignore).children, s.children);
    var c := Compare(s.children, r.children, ignore);
    CompareAscending(s.children, r.children, ignore);
    ListsOne(c.leftOnly, a);
    assert c.rightOnly == [] && c.common == [] by {
      assert forall k :: k !in c.rightOnly && k !in c.common;
    }
    assert c.Names() == [a];
    LevelEventsSnoc(p, s, r, ignore, [], a);
  }

  /**
   * `a/b/c.txt` synchronised into an empty replica: `a` is copied as a
   * whole, so the replica becomes the source, `a/b/c.txt` with the same
   * bytes and time included, and a single directory copy is recorded.
   */
  lemma NestedIntoEmpty(mtime: int, content: seq<bv8>)
    ensures var s := Dir(map["a" := Dir(map["b" := Dir(map["c.txt" := File(mtime, content)])])]);
            Reconcile(s, Dir(map[]), Skipped) == s
            && PassEvents([], s, Dir(map[]), Skipped) == [CopiedDirectory(["a"])]
  {
    OneIntoEmpty([], "a", Dir(map["b" := Dir(map["c.txt" := File(mtime, content)])]), Skipped);
    assert [] + ["a"] == ["a"];
  }

  /**
   * A source `{f1: "hello", sub/: {f2: "x"}}` over a replica
   * `{f1: "goodbye", stale: "y"}`, whatever the times: afterwards the
   * replica is the source; `sub` is copied, `stale` removed and `f1`
   * updated, in the order `left_only + right_only + common`.
   */
  lemma UpdatePruneExtendAny(f1: string, sub: string, stale: string, f2: string,
                             t1: int, t2: int, t3: int, t4: int, ignore: set<string>)
    requires f1 != sub && f1 != stale && sub != stale
    requires f1 !in ignore && sub !in ignore && stale !in ignore
    ensures var s := Dir(map[f1 := File(t1, Hello), sub := Dir(map[f2 := File(t2, [0x78])])]);
            var r := Dir(map[f1 := File(t3, Goodbye), stale := File(t4, [0x79])]);
            Reconcile(s, r, ignore) == s
            && PassEvents([], s, r, ignore) == [CopiedDirectory([sub]), RemovedFile([stale]), UpdatedFile([f1])]
  {
    var s := Dir(map[f1 := File(t1, Hello), sub := Dir(map[f2 := File(t2, [0x78])])]);
    var r := Dir(map[f1 := File(t3, Goodbye), stale := File(t4, [0x79])]);
    assert !Same(s.children[f1], r.children[f1]);
    UpdatePruneExtendTree(f1, sub, stale, s, r, ignore);
    UpdatePruneExtendNames(f1, sub, stale, s, r, ignore);
    UpdatePruneExtendRecords(f1, sub, stale, s, r, ignore);
  }

  lemma UpdatePruneExtendTree(f1: string, sub: string, stale: string, s: Node, r: Node, ignore: set<string>)
    requires f1 != sub && f1 != stale && sub != stale && f1 !in ignore && sub !in ignore && stale !in ignore
    requires s.Dir? && r.Dir? && s.children.Keys == {f1, sub} && r.children.Keys == {f1, stale}
    requires BothFiles(s.children, r.children, f1) && !Same(s.children[f1], r.children[f1])
    ensures Reconcile(s, r, ignore) == s
  {
    forall k ensures Get(Reconcile(s, r, ignore).children, k) == Get(s.children, k) {
      EntryOutcome(s, r, ignore, k);
    }
    MapsEqual(Reconcile(s, r, ignore).children, s.children);
  }

  lemma UpdatePruneExtendNames(f1: string, sub: string, stale: string, s: Node, r: Node, ignore: set<string>)
    requires f1 != sub && f1 != stale && sub != stale
    requires f1 !in ignore && sub !in ignore && stale !in ignore
    requires s.Dir? && r.Dir? && s.children.Keys == {f1, sub} && r.children.Keys == {f1, stale}
    ensures Compare(s.children, r.children, ignore).Names() == [sub, stale, f1]
  {
    var c := Compare(s.children, r.children, ignore);
    CompareAscending(s.children, r.children, ignore);
    ListsOne(c.leftOnly, sub);
    ListsOne(c.rightOnly, stale);
    ListsOne(c.common, f1);
  }

  lemma UpdatePruneExtendRecords(f1: string, sub: string, stale: string, s: Node, r: Node, ignore: set<string>)
    requires f1 != sub && f1 != stale && sub != stale
    requires f1 !in ignore && sub !in ignore && stale !in ignore
    requires s.Dir? && r.Dir? && s.children.Keys == {f1, sub} && r.children.Keys == {f1, stale}
    requires s.children[sub].Dir? && r.children[stale].File?
    requires BothFiles(s.children, r.children, f1) && !Same(s.children[f1], r.children[f1])
    requires Compare(s.children, r.children, ignore).Names() == [sub, stale, f1]
    ensures PassEvents([], s, r, ignore) == [CopiedDirectory([sub]), RemovedFile([stale]), UpdatedFile([f1])]
  {
    var names := Compare(s.children, r.children, ignore).Names();
    assert PassEvents([], s, r, ignore) == LevelEvents([], s, r, ignore, names);
    LevelThree([], s, r, ignore, sub, stale, f1);
    CopiedRecord(s, r, ignore, sub);
    RemovedRecord(s, r, ignore, stale);
    UpdatedRecord(s, r, ignore, f1);
  }

  /** The records for three names are those of each name, in order. */
  lemma LevelThree(p: Path, s: Node, r: Node, ignore: set<string>, a: string, b: string, c: string)
    requires s.Dir? && r.Dir?
    ensures LevelEvents(p, s, r, ignore, [a, b, c])
         == EntryEvents(p, s, r, ignore, a) + EntryEvents(p, s, r, ignore, b) + EntryEvents(p, s, r, ignore, c)
  {
    LevelEventsSnoc(p, s, r, ignore, [], a);
    LevelEventsSnoc(p, s, r, ignore, [a], b);
    LevelEventsSnoc(p, s, r, ignore, [a, b], c);
    assert [] + [a] == [a] && [a] + [b] == [a, b] && [a, b] + [c] == [a, b, c];
  }

  lemma CopiedRecord(s: Node, r: Node, ignore: set<string>, k: string)
    requires s.Dir? && r.Dir? && k !in ignore && k in s.children && k !in r.children && s.children[k].Dir?
    ensures EntryEvents([], s, r, ignore, k) == [CopiedDirectory([k])]
  {
    assert [] + [k] == [k];
  }

  lemma RemovedRecord(s: Node, r: Node, ignore: set<string>, k: string)
    requires s.Dir? && r.Dir? && k !in ignore && k !in s.children && k in r.children && r.children[k].File?
    ensures EntryEvents([], s, r, ignore, k) == [RemovedFile([k])]
  {
    assert [] + [k] == [k];
  }

  lemma UpdatedRecord(s: Node, r: Node, ignore: set<string>, k: string)
    requires s.Dir? && r.Dir? && k !in ignore && BothFiles(s.children, r.children, k)
    requires !Same(s.children[k], r.children[k])
    ensures EntryEvents([], s, r, ignore, k) == [UpdatedFile([k])]
  {
    assert [] + [k] == [k];
  }

  /** The same with the names `f1.txt`, `sub`, `stale.txt` and `f2.txt`. */
  lemma UpdatePruneExtend(t1: int, t2: int, t3: int, t4: int)
    ensures var s := Dir(map["f1.txt" := File(t1, Hello), "sub" := Dir(map["f2.txt" := File(t2, [0x78])])]);
            var r := Dir(map["f1.txt" := File(t3, Goodbye), "stale.txt" := File(t4, [0x79])]);
            Reconcile(s, r, Skipped) == s
            && PassEvents([], s, r, Skipped)
               == [CopiedDirectory(["sub"]), RemovedFile(["stale.txt"]), UpdatedFile(["f1.txt"])]
  {
    UpdatePruneExtendAny("f1.txt", "sub", "stale.txt", "f2.txt", t1, t2, t3, t4, Skipped);
  }
}
