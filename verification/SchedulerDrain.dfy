/** Whether a Stop that waits can come back, when there may have been several Starts.
    scheduler.go: Start, Stop, loop. */
module SchedulerDrain {
  import opened Text
  import opened Scheduler

  /** Start `j` has counted a loop, a later Start has taken its place, and its context is not cancelled. */
  predicate Stranded(s: State, j: nat) {
    j in s.starts && Progress(s.starts[j]) > 0 && s.current != Some(j) && j !in s.cancelled
  }

  /** The parent context of Start `j` is left alone. */
  predicate ParentLives(steps: seq<Step>, j: nat) {
    forall k :: 0 <= k < |steps| ==> steps[k] != ParentCancels(j)
  }

  lemma {:induction false} StrandedKept(s: State, step: Step, j: nat)
    requires Stranded(s, j) && Enabled(s, step) && step != ParentCancels(j)
    ensures Stranded(Do(s, step), j)
  {
    CountedStays(s, step, j);
    OutOfReach(s, step, j);
  }

  lemma {:induction false} CountedStays(s: State, step: Step, j: nat)
    requires j in s.starts && Progress(s.starts[j]) > 0 && Enabled(s, step)
    ensures j in Do(s, step).starts && Progress(Do(s, step).starts[j]) > 0
  {}

  /** Only its own Start makes a context current, and only that or its parent's cancelling cancels it. */
  lemma {:induction false} OutOfReach(s: State, step: Step, j: nat)
    requires Enabled(s, step) && step != SetContext(j) && step != ParentCancels(j)
    requires s.current != Some(j) && j !in s.cancelled
    ensures Do(s, step).current != Some(j) && j !in Do(s, step).cancelled
  {}

  lemma {:induction false} StrandedStays(s: State, steps: seq<Step>, t: State, j: nat)
    requires Stranded(s, j) && Runs(s, steps, t) && ParentLives(steps, j)
    ensures Stranded(t, j)
    decreases |steps|
  {
    if steps != [] {
      assert steps[0] != ParentCancels(j);
      StrandedKept(s, steps[0], j);
      assert forall k :: 0 <= k < |steps| - 1 ==> steps[1..][k] == steps[k + 1];
      StrandedStays(Do(s, steps[0]), steps[1..], t, j);
    }
  }

  lemma {:induction false} DrainedCounted(s: State, i: nat, j: nat)
    requires Inv(s) && Enabled(s, WaitReturns(i)) && j in s.starts && Progress(s.starts[j]) > 0
    ensures j in s.cancelled
  {
    assert InFlight(s.workers) == {};
    assert WorkerInv(s, Loop(j, 0));
    assert Loop(j, 0) !in InFlight(s.workers);
  }

  /** No Stop at all returns from its wait any more, whatever happens short of the parent context being cancelled. */
  lemma {:induction false} StrandedNeverDrains(s: State, steps: seq<Step>, t: State, j: nat, i: nat)
    requires Inv(s) && Stranded(s, j) && Runs(s, steps, t) && ParentLives(steps, j)
    ensures !Enabled(t, WaitReturns(i))
  {
    EveryRunKeepsInv(s, steps, t);
    StrandedStays(s, steps, t, j);
    if Enabled(t, WaitReturns(i)) {
      DrainedCounted(t, i, j);
      assert false;
    }
  }

  // ----- A wait that can end -----

  /** Every Start that has counted a loop is cancelled. */
  ghost predicate CountedCancelled(s: State) {
    forall j :: j in s.starts && Progress(s.starts[j]) > 0 ==> j in s.cancelled
  }

  predicate ParentsLive(steps: seq<Step>) {
    forall k :: 0 <= k < |steps| ==> !steps[k].ParentCancels?
  }

  ghost predicate Drains(s: State, steps: seq<Step>, t: State, i: nat) {
    Runs(s, steps, t) && ParentsLive(steps) && Enabled(t, WaitReturns(i))
  }

  /** Without any parent context being cancelled, the wait of Stop `i` can return. */
  ghost predicate Drainable(s: State, i: nat) {
    exists steps, t :: Drains(s, steps, t, i)
  }

  ghost predicate Ready(s: State, i: nat) {
    Inv(s) && StopAt(s, i, Waiting) && CountedCancelled(s)
  }

  /** How far a goroutine is from finished, once its context is cancelled. */
  function Rank(p: WorkPhase): nat {
    match p
    case Pending => 4
    case Running => 3
    case Sleeping => 2
    case Leaving => 1
    case Finished => 0
  }

  /** The step that takes an unfinished goroutine on. */
  function NextStep(s: State, w: Worker): Step
    requires w in s.workers && s.workers[w] != Finished
  {
    match s.workers[w]
    case Pending => if w.Job? then LaunchCall(w.call) else LaunchLoop(w.start)
    case Running => FunctionReturns(w)
    case Sleeping => SeeCancelled(w)
    case Leaving => WorkerDone(w)
  }

  lemma {:induction false} NextEnabled(s: State, i: nat, w: Worker)
    requires Ready(s, i) && w in s.workers && s.workers[w] != Finished
    ensures Enabled(s, NextStep(s, w))
  {
    assert WorkerInv(s, w);
    assert HoldsLock(s, Stopper(i));
    if w.Job? {
      assert HoldsLock(s, Caller(w.call)) <==> s.mu == Some(Caller(w.call));
    }
  }

  lemma {:induction false} NextMoves(s: State, i: nat, w: Worker)
    requires Ready(s, i) && w in s.workers && s.workers[w] != Finished && Enabled(s, NextStep(s, w))
    ensures var t := Do(s, NextStep(s, w));
      w in t.workers && Rank(t.workers[w]) < Rank(s.workers[w]) && t.workers == s.workers[w := t.workers[w]]
  {
    assert WorkerInv(s, w);
  }

  lemma {:induction false} NextKeepsReady(s: State, i: nat, w: Worker)
    requires Ready(s, i) && w in s.workers && s.workers[w] != Finished && Enabled(s, NextStep(s, w))
    ensures Ready(Do(s, NextStep(s, w)), i)
  {
    var step := NextStep(s, w);
    LockKept(s, step);
    WorkersKept(s, step);
    CountKept(s, step);
    CancelKept(s, step);
    CountedKept(s, w);
  }

  lemma {:induction false} CountedKept(s: State, w: Worker)
    requires CountedCancelled(s) && w in s.workers && s.workers[w] != Finished && Enabled(s, NextStep(s, w))
    ensures CountedCancelled(Do(s, NextStep(s, w)))
  {
    var t := Do(s, NextStep(s, w));
    forall j | j in t.starts && Progress(t.starts[j]) > 0 ensures j in t.cancelled {
      assert j in s.starts && Progress(s.starts[j]) > 0;
    }
  }

  /** Drives the goroutine `w` to its end, then the others. */
  lemma {:induction false} DrainFrom(s: State, i: nat, w: Worker) returns (steps: seq<Step>, t: State)
    requires Ready(s, i) && w in InFlight(s.workers)
    ensures Drains(s, steps, t, i)
    decreases |InFlight(s.workers)|, Rank(s.workers[w])
  {
    var step := NextStep(s, w);
    NextEnabled(s, i, w);
    NextMoves(s, i, w);
    NextKeepsReady(s, i, w);
    var s1 := Do(s, step);
    InFlightUpdate(s.workers, w, s1.workers[w]);
    var rest;
    if w in InFlight(s1.workers) {
      rest, t := DrainFrom(s1, i, w);
    } else {
      rest, t := DrainAll(s1, i);
    }
    StepThen(s, step, rest, t);
    steps := [step] + rest;
  }

  lemma {:induction false} DrainAll(s: State, i: nat) returns (steps: seq<Step>, t: State)
    requires Ready(s, i)
    ensures Drains(s, steps, t, i)
    decreases |InFlight(s.workers)|, 5
  {
    if InFlight(s.workers) == {} {
      steps, t := [], s;
    } else {
      var w :| w in InFlight(s.workers);
      steps, t := DrainFrom(s, i, w);
    }
  }

  /** A Stop that waits can come back exactly when every Start that counted a loop has had its context cancelled. */
  lemma {:induction false} DrainableIff(s: State, i: nat)
    requires Inv(s) && StopAt(s, i, Waiting)
    ensures Drainable(s, i) <==> CountedCancelled(s)
  {
    if CountedCancelled(s) {
      var steps, t := DrainAll(s, i);
    } else {
      var j :| j in s.starts && Progress(s.starts[j]) > 0 && j !in s.cancelled;
      assert !Live(s);
      assert Stranded(s, j);
      forall steps, t | Runs(s, steps, t) && ParentsLive(steps) ensures !Enabled(t, WaitReturns(i)) {
        StrandedNeverDrains(s, steps, t, j, i);
      }
    }
  }

  /** A second Start takes the place of one that has counted a loop. */
  lemma {:induction false} SecondStart(begun: seq<Step>, s0: State, j: nat, i: nat) returns (steps: seq<Step>, s: State)
    requires Runs(INIT, begun, s0) && j in s0.starts && Progress(s0.starts[j]) > 0 && j !in s0.cancelled
    requires i !in s0.starts && s0.mu.None?
    ensures Runs(INIT, steps, s) && Stranded(s, j) && s.mu.None? && s.stops == s0.stops
  {
    var s3 := Do(Do(Do(s0, BeginStart(i)), LockStart(i)), SetContext(i));
    RunThenThree(INIT, begun, s0, BeginStart(i), LockStart(i), SetContext(i));
    var more := begun + [BeginStart(i)] + [LockStart(i)] + [SetContext(i)];
    RunThenStep(INIT, more, s3, UnlockStart(i));
    steps, s := more + [UnlockStart(i)], Do(s3, UnlockStart(i));
  }

  lemma {:induction false} StopWaitsAfter(begun: seq<Step>, s0: State, j: nat) returns (steps: seq<Step>, s: State)
    requires Runs(INIT, begun, s0) && Stranded(s0, j) && s0.mu.None? && s0.stops == map[]
    ensures Runs(INIT, steps, s) && Stranded(s, j) && StopAt(s, 0, Waiting)
  {
    var s2 := Do(Do(s0, BeginStop(0)), LockStop(0));
    steps, s := begun + [BeginStop(0)] + [LockStop(0)] + [Cancel(0)], Do(s2, Cancel(0));
    RunThenThree(INIT, begun, s0, BeginStop(0), LockStop(0), Cancel(0));
  }

  /** It does happen: after two Starts a Stop waits, and cannot come back. */
  lemma {:induction false} StopHangs() returns (steps: seq<Step>, s: State)
    ensures Runs(INIT, steps, s) && StopAt(s, 0, Waiting) && !Drainable(s, 0)
  {
    var begun, s0 := StartReleases();
    RunThenStep(INIT, begun, s0, CountLoop(0));
    var both, s1 := SecondStart(begun + [CountLoop(0)], Do(s0, CountLoop(0)), 0, 1);
    steps, s := StopWaitsAfter(both, s1, 0);
    InvHoldsFirst();
    EveryRunKeepsInv(INIT, steps, s);
    assert !CountedCancelled(s);
    DrainableIff(s, 0);
  }
}
