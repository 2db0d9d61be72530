/**
 * The log the synchronizer writes: one leveled record per event. Only the
 * sequence of events is modelled, not the formatter, the log file or the
 * console handler.
 */
module Log {
  import opened FileTree

  datatype Level = Info | Error

  datatype Event =
    | CopiedDirectory(path: Path)   // "Copied directory: <source> to <replica>"
    | RemovedDirectory(path: Path)  // "Removed directory: <replica>"
    | RemovedFile(path: Path)       // "Removed file: <replica>"
    | CopiedFile(path: Path)        // "Copied file: <source> to <replica>"
    | UpdatedFile(path: Path)       // "Updated file: <source> to <replica>"
    | SourceMissing                 // "Source path does not exist: <source>"
    | ReplicaCreated                // "Replica path does not exist. Creating: <replica>"
    | StoppedByUser                 // "Synchronization stopped by the user."
    | ErrorOccurred(reason: string) // "An error occurred: <exception>"
  {
    /** Is this the record of a change to the replica tree? */
    predicate IsMutation()
    {
      CopiedDirectory? || RemovedDirectory? || RemovedFile? || CopiedFile? || UpdatedFile?
    }

    /** The level the record is written at. */
    function Severity(): Level
    {
      if SourceMissing? || ErrorOccurred? then Error else Info
    }
  }

  /** The path, relative to both roots, of the entry a mutation record is about. */
  function Target(e: Event): Path
    requires e.IsMutation()
  {
    e.path
  }

  /** Does the record name the entry at `q` or something beneath it? */
  predicate Touches(e: Event, q: Path)
  {
    e.IsMutation() && q <= Target(e)
  }

  /** A record that names an entry below `p + [k]` names one below `p`, through `k`. */
  lemma TouchesChild(e: Event, p: Path, k: string)
    requires Touches(e, p + [k])
    ensures Touches(e, p) && |Target(e)| > |p| && Target(e)[|p|] == k
  {
    var t := Target(e);
    assert t[..|p| + 1] == p + [k];
    assert t[|p|] == (p + [k])[|p|];
  }

  /** Proof helper: concatenation of record sequences is associative. */
  lemma AppendAssoc(a: seq<Event>, b: seq<Event>, c: seq<Event>)
    ensures (a + b) + c == a + (b + c)
  {
  }
}
