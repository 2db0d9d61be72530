/**
 * `main` as a function of what happens around each pass: the startup checks
 * on the two root paths, then passes from the root pair until the user
 * interrupts or an exception ends the loop. What interrupts or fails is not
 * something the program decides, so it is an input: one `Signal` per turn of
 * `while True`.
 */
module Schedule {
  import opened Wrappers
  import opened FileTree
  import opened DirCmp
  import opened Log
  import opened Reconciliation
  import opened Guarantees
  import opened Convergence

  /** What happens to one turn of the pass loop. */
  datatype Signal =
    | Proceed                // the pass runs, then the program sleeps
    | Interrupt              // `KeyboardInterrupt` reaches the loop
    | Fault(reason: string)  // another exception reaches the loop

  /** How the program has ended, or that it is still looping. */
  datatype Status =
    | SourceNotFound  // `FileNotFoundError` raised before any pass
    | Stopped         // stopped by the user; nothing is raised
    | Failed          // an error was logged; nothing is raised
    | Running         // still passing after the given signals

  /** The replica, the records written, the end and the number of completed passes. */
  datatype Outcome = Outcome(replica: Option<Node>, events: seq<Event>, status: Status, passes: nat)

  /** The reason `os.listdir` gives when a root path is not a directory. */
  const NotADirectory: string := "Not a directory"

  /**
   * The pass loop from the root pair `s`, `r`: a pass runs for each
   * `Proceed`; a root that is not a directory makes `dircmp` raise, which
   * ends the loop like any other exception.
   */
  function Loop(s: Node, r: Node, ignore: set<string>, signals: seq<Signal>): Outcome
    decreases |signals|
  {
    if signals == [] then Outcome(Some(r), [], Running, 0)
    else match signals[0]
      case Interrupt => Outcome(Some(r), [StoppedByUser], Stopped, 0)
      case Fault(why) => Outcome(Some(r), [ErrorOccurred(why)], Failed, 0)
      case Proceed =>
        if !(s.Dir? && r.Dir?) then Outcome(Some(r), [ErrorOccurred(NotADirectory)], Failed, 0)
        else
          var o := Loop(s, Reconcile(s, r, ignore), ignore, signals[1..]);
          Outcome(o.replica, PassEvents([], s, r, ignore) + o.events, o.status, o.passes + 1)
  }

  /**
   * `main` from its startup checks on: a missing source is fatal, a missing
   * replica is created empty, then the pass loop runs.
   */
  function Session(source: Option<Node>, replica: Option<Node>, ignore: set<string>,
                   signals: seq<Signal>): Outcome
  {
    if source.None? then Outcome(replica, [SourceMissing], SourceNotFound, 0)
    else if replica.None? then
      var o := Loop(source.value, Dir(map[]), ignore, signals);
      o.(events := [ReplicaCreated] + o.events)
    else Loop(source.value, replica.value, ignore, signals)
  }

  // ---------------------------------------------------------------------------
  // Startup.
  // ---------------------------------------------------------------------------

  /** A missing source is reported at ERROR level and no pass runs. */
  lemma SourceMissingIsFatal(replica: Option<Node>, ignore: set<string>, signals: seq<Signal>)
    ensures var o := Session(None, replica, ignore, signals);
            o.status == SourceNotFound && o.passes == 0 && o.replica == replica
            && o.events == [SourceMissing] && o.events[0].Severity() == Error
  {
  }

  /** A missing replica is created empty, and that is recorded before any pass. */
  lemma ReplicaCreatedFirst(source: Node, ignore: set<string>, signals: seq<Signal>)
    ensures var o := Session(Some(source), None, ignore, signals);
            o.events != [] && o.events[0] == ReplicaCreated
            && o == Loop(source, Dir(map[]), ignore, signals).(events := o.events)
  {
  }

  /** Startup with both paths present goes straight to the pass loop. */
  lemma BothPresent(source: Node, replica: Node, ignore: set<string>, signals: seq<Signal>)
    ensures Session(Some(source), Some(replica), ignore, signals) == Loop(source, replica, ignore, signals)
  {
  }

  // ---------------------------------------------------------------------------
  // The pass loop.
  // ---------------------------------------------------------------------------

  /** The number of signals before the first one that is not `Proceed`. */
  function Leading(signals: seq<Signal>): (n: nat)
    ensures n <= |signals|
    ensures forall i :: 0 <= i < n ==> signals[i] == Proceed
    ensures n < |signals| ==> signals[n] != Proceed
  {
    if signals == [] || signals[0] != Proceed then 0 else 1 + Leading(signals[1..])
  }

  /** The record that ends the loop on the signal `sig`, which is not `Proceed`. */
  function StopRecord(sig: Signal): (e: Event)
    requires sig != Proceed
    ensures e.Severity() == (if sig.Interrupt? then Info else Error)
  {
    if sig.Interrupt? then StoppedByUser else ErrorOccurred(sig.reason)
  }

  /**
   * Over two directories, the loop runs one pass per leading `Proceed`;
   * every pass after the first changes nothing and writes nothing, so the
   * replica is the one pass leaves and the records are that pass's, then
   * the single record of what ended the loop: INFO for an interrupt, ERROR
   * for an exception. The loop does not retry.
   */
  lemma {:induction false} LoopOutcome(s: Node, r: Node, ignore: set<string>, signals: seq<Signal>)
    requires s.Dir? && r.Dir?
    ensures var o, n := Loop(s, r, ignore, signals), Leading(signals);
            o.passes == n
            && o.replica == Some(if n == 0 then r else Reconcile(s, r, ignore))
            && o.events == (if n == 0 then [] else PassEvents([], s, r, ignore))
                           + (if n < |signals| then [StopRecord(signals[n])] else [])
            && o.status == (if n == |signals| then Running
                            else if signals[n].Interrupt? then Stopped else Failed)
    decreases |signals|
  {
    if signals != [] && signals[0] == Proceed {
      var r' := Reconcile(s, r, ignore);
      assert r'.Dir?;
      LoopOutcome(s, r', ignore, signals[1..]);
      ReconcileIdempotent(s, r, ignore);
      SecondPassQuiet([], s, r, ignore);
    }
  }

  /** A root that is not a directory ends the loop with an error on the first pass. */
  lemma NotADirectoryFails(s: Node, r: Node, ignore: set<string>, signals: seq<Signal>)
    requires !(s.Dir? && r.Dir?) && signals != [] && signals[0] == Proceed
    ensures var o := Loop(s, r, ignore, signals);
            o.status == Failed && o.passes == 0 && o.replica == Some(r)
            && o.events == [ErrorOccurred(NotADirectory)]
  {
  }

  /**
   * The loop ends on the first interrupt or exception, and only there: the
   * status says which, and the last record is written at the matching level.
   */
  lemma {:induction false} LoopEnds(s: Node, r: Node, ignore: set<string>, signals: seq<Signal>)
    ensures var o := Loop(s, r, ignore, signals);
            (o.status == Running <==> o.events == [] || o.events[|o.events| - 1].IsMutation())
            && (o.status == Stopped ==> o.events[|o.events| - 1] == StoppedByUser)
            && (o.status == Failed ==> o.events[|o.events| - 1].Severity() == Error)
            && o.status != SourceNotFound
            && o.passes <= Leading(signals)
            && (o.status == Running <==> o.passes == |signals|)
            && (o.status == Stopped ==> o.passes < |signals| && signals[o.passes] == Interrupt)
            && (o.status == Failed ==> o.passes < |signals| && !signals[o.passes].Interrupt?)
    decreases |signals|
  {
    if signals != [] && signals[0] == Proceed && s.Dir? && r.Dir? {
      LoopEnds(s, Reconcile(s, r, ignore), ignore, signals[1..]);
      PassEventsMutations([], s, r, ignore);
    }
  }

  /** Every record a pass writes is a record of a change to the replica. */
  lemma PassEventsMutations(p: Path, s: Node, r: Node, ignore: set<string>)
    ensures forall e :: e in PassEvents(p, s, r, ignore) ==> e.IsMutation()
  {
    forall e | e in PassEvents(p, s, r, ignore) ensures e.IsMutation() {
      PassEventsFrom(p, s, r, ignore, e);
    }
  }
}
