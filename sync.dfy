/**
 * The synchronizer: the replica tree and the log as state that the walk of
 * `comparison_check` changes in place, one directory entry at a time, through
 * the four filesystem actions it uses (`shutil.copytree`, `shutil.copy2`,
 * `shutil.rmtree`, `os.remove`). The two roots are taken to be disjoint, so
 * the source tree is a constant that no method can change.
 */
module Sync {
  import opened Wrappers
  import opened FileTree
  import opened DirCmp
  import opened Log
  import opened Reconciliation
  import opened Schedule

  class Synchronizer {
    /** The tree under the source path, None when the path does not exist; it never overlaps the replica. */
    const source: Option<Node>
    /** The names every comparison leaves out (`dircmp`'s hide and ignore lists). */
    const ignore: set<string>
    /** The tree under the replica path, None when the path does not exist. */
    var replica: Option<Node>
    /** The records written so far. */
    var log: seq<Event>

    constructor (source: Option<Node>, replica: Option<Node>, ignore: set<string>)
      ensures this.source == source && this.replica == replica && this.ignore == ignore
      ensures log == []
    {
      this.source := source;
      this.replica := replica;
      this.ignore := ignore;
      log := [];
    }

    // -------------------------------------------------------------------------
    // Filesystem actions on the replica. Each names the entry `k` of the
    // replica directory `dir`; the source entry is the one at the same path.
    // -------------------------------------------------------------------------

    /** `shutil.copytree`: the source directory is copied as a whole to a new replica entry. */
    method CopyTree(dir: Path, k: string)
      requires source.Some? && replica.Some?
      requires IsDir(Lookup(source.value, dir + [k]))
      requires IsDir(Lookup(replica.value, dir)) && Lookup(replica.value, dir + [k]).None?
      modifies this`replica
      ensures replica == Some(SetEntry(old(replica).value, dir, k, Lookup(source.value, dir + [k])))
    {
      replica := Some(SetEntry(replica.value, dir, k, Lookup(source.value, dir + [k])));
    }

    /**
     * `shutil.copy2`: the source file's bytes and modification time are
     * written to the replica entry, creating it or overwriting a file there.
     */
    method Copy2(dir: Path, k: string)
      requires source.Some? && replica.Some?
      requires IsFile(Lookup(source.value, dir + [k]))
      requires IsDir(Lookup(replica.value, dir)) && !IsDir(Lookup(replica.value, dir + [k]))
      modifies this`replica
      ensures replica == Some(SetEntry(old(replica).value, dir, k, Lookup(source.value, dir + [k])))
    {
      replica := Some(SetEntry(replica.value, dir, k, Lookup(source.value, dir + [k])));
    }

    /** `shutil.rmtree`: a replica directory is deleted with everything beneath it. */
    method RemoveTree(dir: Path, k: string)
      requires replica.Some?
      requires IsDir(Lookup(replica.value, dir)) && IsDir(Lookup(replica.value, dir + [k]))
      modifies this`replica
      ensures replica == Some(SetEntry(old(replica).value, dir, k, None))
    {
      replica := Some(SetEntry(replica.value, dir, k, None));
    }

    /** `os.remove`: a replica file is deleted. */
    method Remove(dir: Path, k: string)
      requires replica.Some?
      requires IsDir(Lookup(replica.value, dir)) && IsFile(Lookup(replica.value, dir + [k]))
      modifies this`replica
      ensures replica == Some(SetEntry(old(replica).value, dir, k, None))
    {
      replica := Some(SetEntry(replica.value, dir, k, None));
    }

    // -------------------------------------------------------------------------
    // The walk.
    // -------------------------------------------------------------------------

    /**
     * `comparison_check(source/p, replica/p, files, comparison)`: handles each
     * name of `files` in turn in the directory pair at `p`, where
     * `comparison` is the `dircmp` of that pair. Afterwards the replica
     * directory at `p` holds exactly the entries `Handled` gives for those
     * names, nothing outside it has changed, and the records written are
     * those of `LevelEvents`, in order.
     */
    method ComparisonCheck(p: Path, files: seq<string>, comparison: Comparison)
      requires source.Some? && replica.Some?
      requires IsDir(Lookup(source.value, p)) && IsDir(Lookup(replica.value, p))
      requires comparison == Compare(Lookup(source.value, p).value.children,
                                     Lookup(replica.value, p).value.children, ignore)
      requires Distinct(files)
      modifies this`replica, this`log
      ensures var s, r := Lookup(source.value, p).value, old(Lookup(replica.value, p)).value;
              replica == Some(Graft(old(replica).value, p, Dir(Handled(s, r, ignore, Elements(files)))))
              && log == old(log) + LevelEvents(p, s, r, ignore, files)
      decreases Lookup(source.value, p).value, 4
    {
      ghost var s, r := Lookup(source.value, p).value, Lookup(replica.value, p).value;
      ghost var r0 := replica.value;
      ghost var log0 := log;
      HandledNone(s, r, ignore);
      GraftSelf(r0, p);
      assert Elements(files[..0]) == {};
      var i := 0;
      while i < |files|
        invariant 0 <= i <= |files|
        invariant Walked(p, s, r, r0, log0, files, i)
      {
        Turn(p, files, i, comparison, s, r, r0, log0);
        i := i + 1;
      }
      assert files[..i] == files;
    }

    /**
     * The state of the replica and the log once the first `i` names of
     * `files` have been handled in the directory pair at `p`, whose entries
     * were `s` and `r` when the walk of that pair began.
     */
    ghost predicate Walked(p: Path, s: Node, r: Node, r0: Node, log0: seq<Event>, files: seq<string>, i: nat)
      requires s.Dir? && r.Dir? && i <= |files|
      reads this
    {
      replica == Some(Graft(r0, p, Dir(Handled(s, r, ignore, Elements(files[..i])))))
      && log == log0 + LevelEvents(p, s, r, ignore, files[..i])
    }

    /** One turn of the loop of `comparison_check`, with the bookkeeping of the walk. */
    method Turn(p: Path, files: seq<string>, i: nat, comparison: Comparison,
                ghost s: Node, ghost r: Node, ghost r0: Node, ghost log0: seq<Event>)
      requires source.Some? && replica.Some?
      requires Lookup(source.value, p) == Some(s) && s.Dir? && r.Dir?
      requires comparison == Compare(s.children, r.children, ignore)
      requires Lookup(r0, p).Some?
      requires Distinct(files) && i < |files|
      requires Walked(p, s, r, r0, log0, files, i)
      modifies this`replica, this`log
      ensures Walked(p, s, r, r0, log0, files, i + 1)
      decreases s, 3
    {
      ghost var m := Handled(s, r, ignore, Elements(files[..i]));
      HandledTurn(p, s, r, ignore, files, i);
      ghost var done, step := LevelEvents(p, s, r, ignore, files[..i]), EntryEvents(p, s, r, ignore, files[i]);
      HandleEntry(p, files[i], comparison, s, r, r0, m);
      AppendAssoc(log0, done, step);
    }

    /**
     * One turn of the loop of `comparison_check`: the name `file` of the
     * directory pair at `p` is dispatched on the kinds found at that moment
     * (`os.path.isdir` of either entry) and on the lists of `comparison`.
     * The replica directory at `p`, whose children are `m` and still hold
     * the replica's original entry for `file`, gets the entry `Entry` gives,
     * and the records of `EntryEvents` are written.
     */
    method HandleEntry(p: Path, file: string, comparison: Comparison,
                       ghost s: Node, ghost r: Node, ghost r0: Node, ghost m: map<string, Node>)
      requires source.Some? && replica.Some?
      requires Lookup(source.value, p) == Some(s) && s.Dir? && r.Dir?
      requires comparison == Compare(s.children, r.children, ignore)
      requires Lookup(r0, p).Some? && replica == Some(Graft(r0, p, Dir(m)))
      requires Get(m, file) == Get(r.children, file)
      modifies this`replica, this`log
      ensures replica == Some(Graft(r0, p, Dir(SetChild(m, file, Entry(s, r, ignore, file)))))
      ensures log == old(log) + EntryEvents(p, s, r, ignore, file)
      decreases s, 2
    {
      var sourceFile := Lookup(source.value, p + [file]);
      var replicaFile := Lookup(replica.value, p + [file]);
      if IsDir(sourceFile) || IsDir(replicaFile) {
        HandleDirectoryEntry(p, file, comparison, s, r, r0, m);
      } else {
        HandleFileEntry(p, file, comparison, s, r, r0, m);
      }
    }

    /** The branch of `comparison_check` for a name that is a directory on at least one side. */
    method HandleDirectoryEntry(p: Path, file: string, comparison: Comparison,
                                ghost s: Node, ghost r: Node, ghost r0: Node, ghost m: map<string, Node>)
      requires source.Some? && replica.Some?
      requires Lookup(source.value, p) == Some(s) && s.Dir? && r.Dir?
      requires comparison == Compare(s.children, r.children, ignore)
      requires Lookup(r0, p).Some? && replica == Some(Graft(r0, p, Dir(m)))
      requires Get(m, file) == Get(r.children, file)
      requires IsDir(Lookup(source.value, p + [file])) || IsDir(Lookup(replica.value, p + [file]))
      modifies this`replica, this`log
      ensures replica == Some(Graft(r0, p, Dir(SetChild(m, file, Entry(s, r, ignore, file)))))
      ensures log == old(log) + EntryEvents(p, s, r, ignore, file)
      decreases s, 1
    {
      LookupChild(source.value, p, file);
      LookupGraftChild(r0, p, m, file);
      DirectoryDispatch(p, s, r, ignore, file);
      SetChildSame(m, file);
      if file in comparison.leftOnly {
        SetEntryGraft(r0, p, m, file, Lookup(source.value, p + [file]));
        CopyTree(p, file);
        log := log + [CopiedDirectory(p + [file])];
      } else if file in comparison.rightOnly {
        SetEntryGraft(r0, p, m, file, None);
        RemoveTree(p, file);
        log := log + [RemovedDirectory(p + [file])];
      } else if file in comparison.commonDirs && file !in comparison.sameFiles {
        CheckSubdirectory(p, file, s, r, r0, m);
      }
    }

    /** The branch of `comparison_check` for a name that is a directory on neither side. */
    method HandleFileEntry(p: Path, file: string, comparison: Comparison,
                           ghost s: Node, ghost r: Node, ghost r0: Node, ghost m: map<string, Node>)
      requires source.Some? && replica.Some?
      requires Lookup(source.value, p) == Some(s) && s.Dir? && r.Dir?
      requires comparison == Compare(s.children, r.children, ignore)
      requires Lookup(r0, p).Some? && replica == Some(Graft(r0, p, Dir(m)))
      requires Get(m, file) == Get(r.children, file)
      requires !IsDir(Lookup(source.value, p + [file])) && !IsDir(Lookup(replica.value, p + [file]))
      modifies this`replica, this`log
      ensures replica == Some(Graft(r0, p, Dir(SetChild(m, file, Entry(s, r, ignore, file)))))
      ensures log == old(log) + EntryEvents(p, s, r, ignore, file)
    {
      LookupChild(source.value, p, file);
      LookupGraftChild(r0, p, m, file);
      FileDispatch(p, s, r, ignore, file);
      SetChildSame(m, file);
      if file in comparison.rightOnly {
        SetEntryGraft(r0, p, m, file, None);
        Remove(p, file);
        log := log + [RemovedFile(p + [file])];
      } else if file in comparison.leftOnly {
        SetEntryGraft(r0, p, m, file, Lookup(source.value, p + [file]));
        Copy2(p, file);
        log := log + [CopiedFile(p + [file])];
      } else if file in comparison.diffFiles {
        SetEntryGraft(r0, p, m, file, Lookup(source.value, p + [file]));
        Copy2(p, file);
        log := log + [UpdatedFile(p + [file])];
      }
    }

    /**
     * The recursive step of `comparison_check` for a name that is a
     * directory on both sides: a fresh `dircmp` of the two subdirectories,
     * and a walk of every name it lists. The replica subdirectory becomes
     * the reconciled one and the records of a pass over it are written.
     */
    method CheckSubdirectory(p: Path, file: string,
                             ghost s: Node, ghost r: Node, ghost r0: Node, ghost m: map<string, Node>)
      requires source.Some? && replica.Some?
      requires Lookup(source.value, p) == Some(s) && s.Dir? && r.Dir?
      requires Lookup(r0, p).Some? && replica == Some(Graft(r0, p, Dir(m)))
      requires Get(m, file) == Get(r.children, file) && BothDirs(s.children, r.children, file)
      modifies this`replica, this`log
      ensures replica == Some(Graft(r0, p, Dir(m[file := Reconcile(s.children[file], r.children[file], ignore)])))
      ensures log == old(log) + PassEvents(p + [file], s.children[file], r.children[file], ignore)
      decreases s, 0
    {
      LookupChild(source.value, p, file);
      LookupGraftChild(r0, p, m, file);
      var newSource := Lookup(source.value, p + [file]).value;
      var newReplica := Lookup(replica.value, p + [file]).value;
      var newComparison := Compare(newSource.children, newReplica.children, ignore);
      var newFiles := newComparison.leftOnly + newComparison.rightOnly + newComparison.common;
      NamesDistinct(newSource.children, newReplica.children, ignore);
      ghost var before := replica.value;
      ComparisonCheck(p + [file], newFiles, newComparison);
      HandledComplete(newSource, newReplica, ignore, Elements(newFiles));
      GraftChild(before, p, file, Reconcile(newSource, newReplica, ignore));
      GraftGraft(r0, p, Dir(m), Dir(m[file := Reconcile(newSource, newReplica, ignore)]));
    }

    // -------------------------------------------------------------------------
    // The loop of `main`.
    // -------------------------------------------------------------------------

    /**
     * One pass from the root pair: the `dircmp` of the two roots and the
     * walk of every name it lists. When a root is not a directory, `dircmp`
     * raises before anything changes; the reason is returned.
     */
    method Pass() returns (error: Option<string>)
      requires source.Some? && replica.Some?
      modifies this`replica, this`log
      ensures error.Some? <==> !(source.value.Dir? && old(replica).value.Dir?)
      ensures error.Some? ==> error == Some(NotADirectory) && replica == old(replica) && log == old(log)
      ensures error.None? ==>
                replica == Some(Reconcile(source.value, old(replica).value, ignore))
                && log == old(log) + PassEvents([], source.value, old(replica).value, ignore)
    {
      if !source.value.Dir? || !replica.value.Dir? {
        return Some(NotADirectory);
      }
      var s, r := source.value, replica.value;
      var comparison := Compare(s.children, r.children, ignore);
      var allFiles := comparison.leftOnly + comparison.rightOnly + comparison.common;
      NamesDistinct(s.children, r.children, ignore);
      ComparisonCheck([], allFiles, comparison);
      HandledComplete(s, r, ignore, Elements(allFiles));
      error := None;
    }

    /**
     * `main` after the logging set-up: the startup checks on the two roots,
     * then the pass loop. Returns how it ended and how many passes
     * completed; the replica and the log end as `Session` says.
     */
    method Run(signals: seq<Signal>) returns (status: Status, passes: nat)
      modifies this`replica, this`log
      ensures var o := Session(source, old(replica), ignore, signals);
              replica == o.replica && log == old(log) + o.events
              && status == o.status && passes == o.passes
    {
      if source.None? {
        log := log + [SourceMissing];
        return SourceNotFound, 0;
      }
      ghost var log0 := log;
      if replica.None? {
        replica := Some(Dir(map[]));
        log := log + [ReplicaCreated];
      }
      ghost var log1 := log;
      status, passes := Passes(signals);
      AppendAssoc(log0, log1[|log0|..], Loop(source.value, Dir(map[]), ignore, signals).events);
    }

    /**
     * The `while True` loop of `main`: one turn per signal, until an
     * interrupt or an exception ends it. Returns how it ended and how many
     * passes completed; the replica and the log end as `Loop` says.
     */
    method Passes(signals: seq<Signal>) returns (status: Status, passes: nat)
      requires source.Some? && replica.Some?
      modifies this`replica, this`log
      ensures var o := Loop(source.value, old(replica).value, ignore, signals);
              replica == o.replica && log == old(log) + o.events
              && status == o.status && passes == o.passes
    {
      ghost var goal := Loop(source.value, replica.value, ignore, signals);
      ghost var expected := log + goal.events;
      passes := 0;
      var i := 0;
      while i < |signals|
        invariant 0 <= i <= |signals| && replica.Some?
        invariant Remaining(signals[i..], goal, expected, passes)
      {
        assert signals[i..][1..] == signals[i + 1..];
        match signals[i]
        case Interrupt =>
          log := log + [StoppedByUser];
          return Stopped, passes;
        case Fault(why) =>
          log := log + [ErrorOccurred(why)];
          return Failed, passes;
        case Proceed =>
          ghost var before, r := log, replica.value;
          var error := Pass();
          if error.Some? {
            log := log + [ErrorOccurred(error.value)];
            return Failed, passes;
          }
          AppendAssoc(before, PassEvents([], source.value, r, ignore),
                      Loop(source.value, replica.value, ignore, signals[i + 1..]).events);
          passes := passes + 1;
          i := i + 1;
      }
      assert signals[i..] == [];
      return Running, passes;
    }

    /**
     * What is left of the loop over `rest`, from the current state, ends
     * where the whole loop ends: the same replica and status, the expected
     * log and the expected number of passes.
     */
    ghost predicate Remaining(rest: seq<Signal>, goal: Outcome, expected: seq<Event>, passes: nat)
      requires source.Some? && replica.Some?
      reads this
    {
      var o := Loop(source.value, replica.value, ignore, rest);
      o.replica == goal.replica && o.status == goal.status
      && log + o.events == expected && passes + o.passes == goal.passes
    }
  }
}
