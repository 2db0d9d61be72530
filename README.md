# One-way directory synchronization, modelled in Dafny

The program keeps a replica directory identical to a source directory.
At startup it checks the two root paths. Then it runs synchronization passes
forever, one per interval, until the user interrupts it or an exception
escapes. A pass compares the two roots with `filecmp.dircmp` and walks every
listed name (`left_only + right_only + common`) through `comparison_check`:

- a source-only directory is copied with `shutil.copytree`;
- a replica-only directory is removed with `shutil.rmtree`;
- a directory on both sides is compared afresh and walked recursively;
- a replica-only file is removed with `os.remove`;
- a source-only file is copied with `shutil.copy2`;
- a common file that the shallow comparison finds different is overwritten
  with `shutil.copy2`.

Each change writes one log record.

The model has these parts:

- `FileTree` (`filetree.dfy`): the filesystem under one root as a tree value.
  A `Node` is a `File` (modification time and bytes) or a `Dir` (child name to
  subtree). Paths are name sequences. `Same` is the shallow comparison that
  `filecmp.cmp` makes: sizes agree, and either the times agree or the bytes do.
- `DirCmp` (`dircmp.dfy`): `dircmp` as the function `Compare` over two child
  maps. `left_only`, `right_only` and `common` are name lists in Python's
  string order. `common_dirs`, `common_files`, `common_funny`, `same_files`
  and `diff_files` are sets, because the program only tests membership. The
  names `dircmp` hides and ignores by default are the constant `Skipped`.
- `Log` (`log.dfy`): the records, with their levels.
- `Reconciliation` (`reconciliation.dfy`): a reference definition of one pass,
  entry by entry. `Reconcile` is the replica it leaves. `PassEvents` is the
  records it writes, in order.
- `Sync` (`sync.dfy`): the class `Synchronizer`. The source tree is a
  constant, since the two roots are taken to be disjoint (see "Left out"). The replica tree and the log are fields that the methods update in
  place. `ComparisonCheck` is the `for` loop of `comparison_check`, with its
  recursion. `Pass` is one turn of the `while True` loop. `Run` and `Passes`
  are `main`. Each method is proved to compute exactly the reference
  definition.
- `Guarantees` and `Convergence` (`guarantees.dfy`, `convergence.dfy`): what a
  pass guarantees, at every depth. This covers the fate and record of each
  kind of entry, idempotence, quiet second passes, and mirroring after one
  pass.
- `Schedule` (`schedule.dfy`): `main` as a function of what happens at each
  turn of the loop. A `Signal` per turn says whether the pass runs, is
  interrupted, or raises. Interruption and failure are not decided by the
  program, so they are inputs.
- `Scenarios` (`scenarios.dfy`): small passes worked out in full.
- `Wrappers` (`wrappers.dfy`): `Option`.

Two behaviours of the code worth stating:

- A name that is a directory on one side and a file on the other is put in
  `common_funny` by `dircmp`, not in `common_dirs`. It enters the directory
  branch (main.py:37) but matches none of its three tests, so it is left alone
  and nothing is logged. `MismatchKept` states this.
- After logging an unexpected error, `main` returns normally (main.py:110-112).
  Nothing signals failure to the caller. The `Failed` status of the model only
  records how the loop ended.

## Model

| member | source | states |
|---|---|---|
| FileTree.Same | main.py:67 | the shallow file comparison behind `same_files` and `diff_files`: equal sizes, and then equal modification times or, failing that, equal bytes |
| DirCmp.Sorted | main.py:95 | the names of a set in Python's string order, each once, as `dircmp` sorts its listings |
| Reconciliation.Entry | main.py:37-69 | the replica entry a name has after it is handled: the source's entry when only the source has it, none when only the replica has it, the recursive reconciliation for two directories, the source's file for two files that differ, the replica's entry otherwise (ignored names, equal files, kind mismatches) |
| Reconciliation.EntryEvents | main.py:37-69 | the records written for one name: one copy, removal or update record chosen by the same cases, the nested pass's records for two directories, none otherwise |
| Reconciliation.Handled | main.py:31-69 | the replica directory once a set of names has been handled and the others not yet |
| Reconciliation.LevelEvents | main.py:31-69 | the records of handling a list of names, in list order |
| Reconciliation.Reconcile | main.py:26-69 | the replica tree one walk leaves: a directory pair becomes the handled directory for all its names; anything else is left as it is |
| Reconciliation.PassEvents | main.py:26-69 | the records one walk writes: those of `left_only + right_only + common`, in that order |
| Schedule.Loop | main.py:92-112 | the `while True` loop driven by one signal per turn: a pass per `Proceed`, an INFO stop on an interrupt, an ERROR stop on an exception or on a root that is not a directory, no retry |
| Schedule.Session | main.py:84-112 | `main` after logging set-up: a missing source is fatal before any pass, a missing replica is created empty and logged, then the loop runs |
| FileTree.SameIsShallow | main.py:67 | two files can be "same" for `diff_files` and still have different bytes: the comparison is shallow |
| DirCmp.Compare | main.py:95 | `left_only`, `right_only` and `common` hold exactly the names on only the left, only the right, or both sides, less the ignored ones; the common names split into directories on both sides, files on both sides and mismatched kinds; `same_files`/`diff_files` are the common files that compare equal/unequal |
| DirCmp.CompareAscending | main.py:52-56 | the three name lists are each strictly ascending in Python's string order |
| DirCmp.SortedAscending | main.py:98 | sorting a set of names yields a strictly ascending list |
| DirCmp.NamesDistinct | main.py:98 | `left_only + right_only + common` lists every non-ignored name of either side, each exactly once |
| Reconciliation.DirectoryDispatch | main.py:37-57 | when either entry is a directory, the `left_only`, `right_only` and `common_dirs` tests pick a copy of a source directory into a free slot, a removal of a replica directory, or a recursive pass over two directories; otherwise nothing changes and nothing is written |
| Reconciliation.FileDispatch | main.py:59-69 | when neither entry is a directory, the `right_only`, `left_only` and `diff_files` tests pick a removal of a replica file, a copy of a source file into a free slot, or an overwrite of a file by the source's; otherwise nothing changes |
| Reconciliation.HandledTurn | main.py:31 | handling the next name sets only that name's entry, which has not been touched yet, and appends only that name's records |
| Sync.Synchronizer.CopyTree | main.py:40 | the source directory at the same path becomes the new replica entry, whole; nothing else changes |
| Sync.Synchronizer.RemoveTree | main.py:44 | the replica directory entry is gone, with everything beneath it; nothing else changes |
| Sync.Synchronizer.Remove | main.py:60 | the replica file entry is gone; nothing else changes |
| Sync.Synchronizer.Copy2 | main.py:64 | the source file at the same path, bytes and time, becomes the replica entry; nothing else changes |
| Sync.Synchronizer.ComparisonCheck | main.py:26-69 | after walking `files` at `p`, the replica directory at `p` holds the reconciled entries for exactly those names, the rest of the tree is unchanged, and the log grows by those names' records in order |
| Sync.Synchronizer.Turn | main.py:31-34 | one turn of the `for` loop extends the walked prefix by one name, for the tree and for the log |
| Sync.Synchronizer.HandleEntry | main.py:37 | one name's entry becomes the one the reference table gives, and its records are appended |
| Sync.Synchronizer.HandleDirectoryEntry | main.py:37-57 | the directory branch sets the entry and appends the records the reference table gives |
| Sync.Synchronizer.HandleFileEntry | main.py:59-69 | the file branch sets the entry and appends the records the reference table gives |
| Sync.Synchronizer.CheckSubdirectory | main.py:47-57 | a fresh `dircmp` and recursive walk of two subdirectories reconcile that subdirectory as a pass from it would, and log that pass's records |
| Sync.Synchronizer.Pass | main.py:95-101 | a pass fails, changing nothing, exactly when a root is not a directory; otherwise the replica becomes the reconciled tree and the pass's records are appended |
| Sync.Synchronizer.Run | main.py:84-112 | the replica, the log, the end status and the number of passes are those of `Schedule.Session` for the given signals |
| Sync.Synchronizer.Passes | main.py:92-112 | the replica, the log, the end status and the number of passes are those of `Schedule.Loop` for the given signals |
| Guarantees.EntryOutcome | main.py:31-69 | after a pass, each entry of a directory pair is the one the action table gives for its name |
| Guarantees.PassEventsFrom | main.py:31-69 | every record of a pass names an entry strictly below the pair's path, reached through a listed, non-ignored name, and is one of that name's records |
| Guarantees.LevelEventsFrom | main.py:31 | every record written while walking a list of names comes from one of those names |
| Guarantees.EntryEventsFrom | main.py:39-69 | every record written for a name names that entry or one below it |
| Guarantees.PassEventsHas | main.py:31 | the records written for a listed name are among the pass's records |
| Guarantees.Silent | main.py:31-69 | when nothing is written for a name, no record of the pass names it or anything below it |
| Guarantees.SourceOnlyCopied | main.py:39-41 | a source-only entry is in the replica afterwards, the same subtree or file, and its directory or file copy is logged |
| Guarantees.ReplicaOnlyRemoved | main.py:43-45 | a replica-only entry is gone afterwards, and its directory or file removal is logged |
| Guarantees.DifferentFileUpdated | main.py:67-69 | two files that compare unequal: the replica's becomes the source's, and the update is logged |
| Guarantees.SameFileKept | main.py:67-69 | two files that compare equal: the replica's is kept and no record names it |
| Guarantees.MismatchKept | main.py:37-47 | a name that is a directory on one side and a file on the other enters the directory branch, is in none of `left_only`, `right_only`, `common_dirs`, is kept as the replica has it, and no record names it |
| Guarantees.IgnoredKept | main.py:95 | a name `dircmp` ignores is kept as the replica has it, and no record names it |
| Guarantees.CommonDirectoryRecursed | main.py:47-57 | a directory on both sides is reconciled as its own pair would be, and that nested pass's records are records of this pass |
| Convergence.ReconcileAt | main.py:47-57 | at every depth reached through common directories, the result is the reconciliation of that sub-pair, and its records are records of the pass |
| Convergence.ReconcileSelf | main.py:31-69 | a pass over a tree and an identical copy changes nothing |
| Convergence.ReconcileIdempotent | main.py:92-101 | a second pass leaves the replica as the first left it |
| Convergence.LevelQuiet | main.py:31 | nothing is written for a list of names exactly when nothing is written for each name |
| Convergence.EntryQuiet | main.py:37-69 | nothing is written for a name exactly when its replica entry stays as it is |
| Convergence.PassQuiet | main.py:31-69 | a pass writes no record exactly when it leaves the replica unchanged |
| Convergence.SecondPassQuiet | main.py:92-101 | the second of two passes over the same source writes nothing |
| Convergence.MirrorReflexive | main.py:67 | every tree mirrors itself |
| Convergence.MirrorUnchanged | main.py:31-69 | a replica that already mirrors the source is left as it is, and nothing is written |
| Convergence.Converges | main.py:28-29 | over trees with no ignored names and no kind mismatches, one pass makes the replica mirror the source at every depth |
| Convergence.ConvergesInOnePass | main.py:28-29 | after that pass, a further pass changes nothing and writes nothing |
| Schedule.Leading | main.py:93 | the count of leading `Proceed` signals: all before it are `Proceed`, the one at it is not |
| Schedule.StopRecord | main.py:107-112 | the record ending the loop is INFO for an interrupt and ERROR for an exception |
| Schedule.SourceMissingIsFatal | main.py:84-86 | a missing source is logged at ERROR, no pass runs and the replica is untouched |
| Schedule.ReplicaCreatedFirst | main.py:88-90 | a missing replica is created empty and logged before any pass |
| Schedule.BothPresent | main.py:92 | with both roots present, startup goes straight to the pass loop |
| Schedule.LoopOutcome | main.py:92-112 | the loop runs one pass per leading `Proceed`; the replica is the one the first pass leaves; the records are that pass's, then one record of what ended the loop; the status says which ended it |
| Schedule.NotADirectoryFails | main.py:110-112 | a root that is not a directory ends the loop with one ERROR record, no pass and an untouched replica |
| Schedule.LoopEnds | main.py:92-112 | the loop completes at most the leading `Proceed` passes; it is still running exactly when every signal gave a pass; otherwise it ended on the signal right after the completed passes, stopped on an interrupt or failed on anything else, and the last record says which |
| Schedule.PassEventsMutations | main.py:39-69 | every record a pass writes records a change to the replica |
| Scenarios.OneIntoEmpty | main.py:39-41 | one source entry over an empty replica is copied whole, with one copy record |
| Scenarios.NestedIntoEmpty | main.py:39-41 | `a/b/c.txt` over an empty replica: the replica becomes the source and one directory copy of `a` is logged |
| Scenarios.UpdatePruneExtendAny | main.py:31-69 | a source-only directory, a replica-only file and a changed file: the replica becomes the source, and the three records come in the order `left_only + right_only + common` |
| Scenarios.UpdatePruneExtend | main.py:98 | the same pass with concrete names and `dircmp`'s default ignore list |

## Left out

- Logging set-up (main.py:9-23, main.py:77-81): the log file, the formatter and the `PermissionError` around them are I/O configuration. The log is the sequence of records only, without message text or timestamps.
- Argument parsing and the top-level call (main.py:115-131): command-line glue.
- `print` and `time.sleep` (main.py:104-105): the interval is only a pause between passes.
- The real filesystem and the internals of `shutil`, `filecmp` and `os`: they are the tree value, `Same`, `Compare` and the four actions with their stated effects. Symbolic links, special files, permissions, `os.path.normcase` and file metadata other than size and time are not modelled.
- The sub-second precision of modification times: a time is an integer.
- `cmpfiles` errors: a file that cannot be read would land in `funny_files`; here every file can be read, so that list is empty.
- A failure in the middle of a pass (disk full, permission denied, files changing during the pass): an exception is modelled only as a `Fault` signal at the start of a turn. The partial changes a failing pass leaves are not modelled.
- `KeyboardInterrupt` is observed only between passes, as an `Interrupt` signal. An interrupt in the middle of a pass is not modelled.
- The two roots are assumed disjoint: neither lies inside the other. The program does not check this (main.py:84-101). With the replica inside the source, `copytree` writes into the source, so the source would change and later passes would never be quiet. The model drops overlapping roots, and with them it loses what it proves for disjoint ones: that the source is untouched, that a pass is idempotent, and that a second pass writes nothing.
- Changes that other programs make to the replica between passes: each pass starts from exactly the replica the previous pass left. The program compares both roots afresh on every pass (main.py:95), so it would also repair a replica edited during the sleep; that later repairing pass is not modelled, and the claim that every pass after the first changes nothing rests on this assumption.
- Changes that other programs make to the source between passes: the source is one fixed tree for the whole run.
- Sync.Synchronizer.Pass: the reason returned when a root is not a directory is the constant "Not a directory", not the full `OSError` text with errno and path.
- Convergence.Converges: the replica mirrors the source up to the shallow comparison, not byte for byte. This is as far as the program goes, because a file that compares equal is never copied (see `FileTree.SameIsShallow`).
