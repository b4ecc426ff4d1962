/** Which RunOnce calls are accepted: exactly those that look at a live context, and while nothing is cancelled every
    call can be, and gets its function run. scheduler.go: Start, RunOnce, loop. */
module SchedulerAccepts {
  import opened Text
  import opened Scheduler

  // ----- What a call was decided by -----

  /** A Start has set a context, and the last one set is not cancelled. */
  predicate Open(s: State) {
    match s.current
    case None => false
    case Some(j) => j !in s.cancelled
  }

  predicate TurnedAway(p: CallPhase) {
    p.Refusing? || p.Refused?
  }

  predicate LetIn(p: CallPhase) {
    p.Admitted? || p.CountedLocked? || p.Unlocked? || p.Accepted?
  }

  /** The run has call `i` look at the context in state `seen`. */
  ghost predicate LooksIn(s: State, steps: seq<Step>, i: nat, seen: State, k: nat) {
    k < |steps| && steps[k] == CheckContext(i) && Runs(s, steps[..k], seen)
  }

  lemma {:induction false} DecidedByOneStep(s: State, step: Step, i: nat)
    requires Enabled(s, step)
    ensures var t := Do(s, step);
      i in t.calls ==>
        if step == CheckContext(i) then if Open(s) then LetIn(t.calls[i]) else TurnedAway(t.calls[i])
        else
          && (TurnedAway(t.calls[i]) <==> i in s.calls && TurnedAway(s.calls[i]))
          && (LetIn(t.calls[i]) <==> i in s.calls && LetIn(s.calls[i]))
  {
    match step
    case BeginCall(_) =>
    case LockCall(_) =>
    case CheckContext(_) =>
    case UnlockRefused(_) =>
    case CountCall(_) =>
    case UnlockCall(_) =>
    case LaunchCall(_) =>
    case _ =>
  }

  lemma {:induction false} LooksLater(s: State, steps: seq<Step>, i: nat, seen: State, k: nat)
    requires steps != [] && Enabled(s, steps[0]) && LooksIn(Do(s, steps[0]), steps[1..], i, seen, k)
    ensures LooksIn(s, steps, i, seen, k + 1)
  {
    var front := steps[..k + 1];
    assert front[0] == steps[0] && front[1..] == steps[1..][..k];
  }

  /** In any run, a call that began in it and has been decided looked at the context once, and was let in or turned away
      by what it saw: let in when a context was set and not cancelled, turned away when none was set or the last one
      was cancelled. */
  lemma {:induction false} DecidedByWhatItSaw(s: State, steps: seq<Step>, t: State, i: nat)
    returns (seen: State, k: nat)
    requires Runs(s, steps, t) && i in t.calls && (LetIn(t.calls[i]) || TurnedAway(t.calls[i]))
    requires i in s.calls ==> !LetIn(s.calls[i]) && !TurnedAway(s.calls[i])
    ensures LooksIn(s, steps, i, seen, k)
    ensures TurnedAway(t.calls[i]) <==> seen.current == None || seen.current.value in seen.cancelled
    decreases |steps|
  {
    var u := Do(s, steps[0]);
    DecidedByOneStep(s, steps[0], i);
    if steps[0] == CheckContext(i) {
      seen, k := s, 0;
      DecisionStays(u, steps[1..], t, i);
    } else {
      seen, k := DecidedByWhatItSaw(u, steps[1..], t, i);
      LooksLater(s, steps, i, seen, k);
      k := k + 1;
    }
  }

  lemma {:induction false} StepKeepsDecision(s: State, step: Step, i: nat)
    requires Enabled(s, step) && i in s.calls && (LetIn(s.calls[i]) || TurnedAway(s.calls[i]))
    ensures var t := Do(s, step);
      && i in t.calls && (TurnedAway(t.calls[i]) <==> TurnedAway(s.calls[i]))
      && (LetIn(t.calls[i]) <==> LetIn(s.calls[i]))
  {
    match step
    case BeginCall(_) =>
    case LockCall(_) =>
    case CheckContext(_) =>
    case UnlockRefused(_) =>
    case CountCall(_) =>
    case UnlockCall(_) =>
    case LaunchCall(_) =>
    case _ =>
  }

  lemma {:induction false} DecisionStays(s: State, steps: seq<Step>, t: State, i: nat)
    requires Runs(s, steps, t) && i in s.calls && (LetIn(s.calls[i]) || TurnedAway(s.calls[i]))
    ensures i in t.calls && (TurnedAway(t.calls[i]) <==> TurnedAway(s.calls[i]))
    decreases |steps|
  {
    if steps != [] {
      StepKeepsDecision(s, steps[0], i);
      DecisionStays(Do(s, steps[0]), steps[1..], t, i);
    }
  }

  // ----- While nothing is cancelled -----

  /** No Stop gets to cancel, and no parent context is cancelled. */
  predicate NothingCancels(steps: seq<Step>) {
    forall k :: 0 <= k < |steps| ==> !steps[k].Cancel? && !steps[k].ParentCancels?
  }

  /** The context is live, and so will be that of every Start that is still to set one. */
  ghost predicate StaysOpen(s: State) {
    Open(s) && NoneCancelledAhead(s)
  }

  ghost predicate NoneCancelledAhead(s: State) {
    forall j :: !HasSet(s, j) ==> j !in s.cancelled
  }

  /** The Start has set its context. */
  predicate HasSet(s: State, j: nat) {
    j in s.starts && !s.starts[j].StartWaits? && !s.starts[j].StartLocked?
  }

  lemma {:induction false} HasSetKept(s: State, step: Step, j: nat)
    requires Enabled(s, step)
    ensures HasSet(Do(s, step), j) <==> HasSet(s, j) || step == SetContext(j)
  {
    match step
    case BeginStart(_) =>
    case LockStart(_) =>
    case SetContext(_) =>
    case UnlockStart(_) =>
    case CountLoop(_) =>
    case LaunchLoop(_) =>
    case _ =>
  }

  lemma {:induction false} AheadKept(s: State, step: Step)
    requires NoneCancelledAhead(s) && Enabled(s, step) && !step.Cancel? && !step.ParentCancels?
    ensures NoneCancelledAhead(Do(s, step))
    ensures Do(s, step).cancelled == s.cancelled
  {
    forall j ensures HasSet(Do(s, step), j) <==> HasSet(s, j) || step == SetContext(j) {
      HasSetKept(s, step, j);
    }
  }

  lemma {:induction false} OpenKept(s: State, step: Step)
    requires StaysOpen(s) && Enabled(s, step) && !step.Cancel? && !step.ParentCancels?
    ensures StaysOpen(Do(s, step))
  {
    AheadKept(s, step);
    if step.SetContext? {
      assert !HasSet(s, step.i);
    }
  }

  lemma {:induction false} RunStaysOpen(s: State, steps: seq<Step>, t: State, i: nat)
    requires StaysOpen(s) && Runs(s, steps, t) && NothingCancels(steps)
    requires i in s.calls ==> !TurnedAway(s.calls[i])
    ensures StaysOpen(t)
    ensures i in t.calls ==> !TurnedAway(t.calls[i])
    decreases |steps|
  {
    if steps != [] {
      OpenKept(s, steps[0]);
      DecidedByOneStep(s, steps[0], i);
      assert forall k :: 0 <= k < |steps| - 1 ==> steps[1..][k] == steps[k + 1];
      RunStaysOpen(Do(s, steps[0]), steps[1..], t, i);
    }
  }

  /** A run without cancelling in which a Start has set its context leaves a live one. */
  lemma {:induction false} OpenOnceSet(s: State, steps: seq<Step>, t: State, j: nat)
    requires NoneCancelledAhead(s) && Runs(s, steps, t) && NothingCancels(steps)
    requires HasSet(t, j) && (HasSet(s, j) ==> StaysOpen(s))
    ensures StaysOpen(t)
    decreases |steps|
  {
    if steps != [] {
      var u := Do(s, steps[0]);
      AheadKept(s, steps[0]);
      HasSetKept(s, steps[0], j);
      if HasSet(s, j) {
        OpenKept(s, steps[0]);
      }
      assert forall k :: 0 <= k < |steps| - 1 ==> steps[1..][k] == steps[k + 1];
      OpenOnceSet(u, steps[1..], t, j);
    }
  }

  /** Once a Start has come back, and as long as nothing is cancelled, no call is turned away that begins then. */
  lemma {:induction false} NoneRefused(begun: seq<Step>, s: State, j: nat, steps: seq<Step>, t: State, i: nat)
    requires Runs(INIT, begun, s) && NothingCancels(begun) && j in s.starts && StartDone(s.starts[j])
    requires i !in s.calls && Runs(s, steps, t) && NothingCancels(steps)
    ensures !CallAt(t, i, Refusing) && !CallAt(t, i, Refused)
  {
    OpenOnceSet(INIT, begun, s, j);
    RunStaysOpen(s, steps, t, i);
  }

  /** Cancelling does turn calls away: after a Stop has cancelled, and after the parent of the current context has been,
      whichever Start that is, there is no live context. */
  lemma {:induction false} CancellingCloses(s: State, i: nat, j: nat)
    ensures StopAt(s, i, StopLocked) ==> Enabled(s, Cancel(i)) && !Open(Do(s, Cancel(i)))
    ensures j in s.starts && s.current == Some(j) ==> Enabled(s, ParentCancels(j)) && !Open(Do(s, ParentCancels(j)))
  {}

  // ----- The way to acceptance -----

  /** Accepted, with its function running. */
  predicate RunsItsFunction(s: State, i: nat) {
    CallAt(s, i, Accepted) && WorkerAt(s, Job(i), Running)
  }

  ghost predicate Reaches(s: State, steps: seq<Step>, t: State, i: nat) {
    Runs(s, steps, t) && NothingCancels(steps) && RunsItsFunction(t, i)
  }

  lemma {:induction false} StepReaches(s: State, step: Step, rest: seq<Step>, t: State, i: nat)
    requires Enabled(s, step) && !step.Cancel? && !step.ParentCancels? && Reaches(Do(s, step), rest, t, i)
    ensures Reaches(s, [step] + rest, t, i)
  {
    StepThen(s, step, rest, t);
  }

  lemma {:induction false} UnlockedIsRun(s: State, i: nat) returns (steps: seq<Step>, t: State)
    requires CallAt(s, i, Unlocked)
    ensures Reaches(s, steps, t, i)
  {
    t := Do(s, LaunchCall(i));
    StepReaches(s, LaunchCall(i), [], t, i);
    steps := [LaunchCall(i)] + [];
  }

  lemma {:induction false} AdmittedIsRun(s: State, i: nat) returns (steps: seq<Step>, t: State)
    requires CallAt(s, i, Admitted)
    ensures Reaches(s, steps, t, i)
  {
    var s1 := Do(s, CountCall(i));
    var s2 := Do(s1, UnlockCall(i));
    var rest;
    rest, t := UnlockedIsRun(s2, i);
    StepReaches(s1, UnlockCall(i), rest, t, i);
    StepReaches(s, CountCall(i), [UnlockCall(i)] + rest, t, i);
    steps := [CountCall(i)] + ([UnlockCall(i)] + rest);
  }

  lemma {:induction false} WaitingIsRun(s: State, i: nat) returns (steps: seq<Step>, t: State)
    requires CallAt(s, i, CallWaits) && s.mu.None? && Open(s)
    ensures Reaches(s, steps, t, i)
  {
    var s1 := Do(s, LockCall(i));
    var s2 := Do(s1, CheckContext(i));
    var rest;
    rest, t := AdmittedIsRun(s2, i);
    StepReaches(s1, CheckContext(i), rest, t, i);
    StepReaches(s, LockCall(i), [CheckContext(i)] + rest, t, i);
    steps := [LockCall(i)] + ([CheckContext(i)] + rest);
  }

  /** Whenever the lock is free and the context live, a call that begins can go through at once. */
  lemma {:induction false} NewCallIsRun(s: State, i: nat) returns (steps: seq<Step>, t: State)
    requires s.mu.None? && Open(s) && i !in s.calls
    ensures Reaches(s, steps, t, i)
  {
    var rest;
    rest, t := WaitingIsRun(Do(s, BeginCall(i)), i);
    StepReaches(s, BeginCall(i), rest, t, i);
    steps := [BeginCall(i)] + rest;
  }

  /** Whoever is in a critical section, unless it is a Stop, can leave it. */
  lemma {:induction false} HolderLeaves(s: State, i: nat) returns (steps: seq<Step>, t: State)
    requires Inv(s) && StaysOpen(s) && CallAt(s, i, CallWaits) && s.mu.Some? && !s.mu.value.Stopper?
    ensures Runs(s, steps, t) && NothingCancels(steps) && t.mu.None? && CallAt(t, i, CallWaits)
  {
    var a := s.mu.value;
    assert HoldsLock(s, a);
    match a
    case Starter(j) =>
      steps, t := StarterLeaves(s, j);
    case Caller(c) =>
      steps, t := CallerLeaves(s, c);
  }

  lemma {:induction false} StarterLeaves(s: State, j: nat) returns (steps: seq<Step>, t: State)
    requires StartAt(s, j, StartLocked) || StartAt(s, j, ContextSet)
    ensures Runs(s, steps, t) && NothingCancels(steps) && t.mu.None? && t.calls == s.calls
  {
    var s1 := if StartAt(s, j, StartLocked) then Do(s, SetContext(j)) else s;
    t := Do(s1, UnlockStart(j));
    StepThen(s1, UnlockStart(j), [], t);
    steps := [UnlockStart(j)] + [];
    if StartAt(s, j, StartLocked) {
      StepThen(s, SetContext(j), steps, t);
      steps := [SetContext(j)] + steps;
    }
  }

  lemma {:induction false} CountedLeaves(s: State, c: nat) returns (steps: seq<Step>, t: State)
    requires CallAt(s, c, Admitted) || CallAt(s, c, CountedLocked)
    ensures Runs(s, steps, t) && NothingCancels(steps) && t.mu.None? && t.calls == s.calls[c := Unlocked]
  {
    var s1 := if CallAt(s, c, Admitted) then Do(s, CountCall(c)) else s;
    t := Do(s1, UnlockCall(c));
    StepThen(s1, UnlockCall(c), [], t);
    steps := [UnlockCall(c)] + [];
    if CallAt(s, c, Admitted) {
      StepThen(s, CountCall(c), steps, t);
      steps := [CountCall(c)] + steps;
    }
  }

  lemma {:induction false} CallerLeaves(s: State, c: nat) returns (steps: seq<Step>, t: State)
    requires Open(s) && HoldsLock(s, Caller(c))
    ensures Runs(s, steps, t) && NothingCancels(steps) && t.mu.None?
    ensures c in t.calls && t.calls == s.calls[c := t.calls[c]]
  {
    if CallAt(s, c, Refusing) {
      t := Do(s, UnlockRefused(c));
      StepThen(s, UnlockRefused(c), [], t);
      steps := [UnlockRefused(c)] + [];
    } else if CallAt(s, c, CallLocked) {
      steps, t := CountedLeaves(Do(s, CheckContext(c)), c);
      StepThen(s, CheckContext(c), steps, t);
      steps := [CheckContext(c)] + steps;
    } else {
      steps, t := CountedLeaves(s, c);
    }
  }

  lemma {:induction false} HoldingIsRun(s: State, i: nat) returns (steps: seq<Step>, t: State)
    requires Open(s) && i in s.calls && (s.calls[i].CallLocked? || s.calls[i].CountedLocked?)
    ensures Reaches(s, steps, t, i)
  {
    if s.calls[i].CallLocked? {
      steps, t := AdmittedIsRun(Do(s, CheckContext(i)), i);
      StepReaches(s, CheckContext(i), steps, t, i);
      steps := [CheckContext(i)] + steps;
    } else {
      steps, t := UnlockedIsRun(Do(s, UnlockCall(i)), i);
      StepReaches(s, UnlockCall(i), steps, t, i);
      steps := [UnlockCall(i)] + steps;
    }
  }

  /** While the context is live and no Stop is in its critical section, every call that has begun and is not turned away
      can still go through, whoever holds the lock. */
  lemma {:induction false} EveryCallCanRun(s: State, i: nat) returns (steps: seq<Step>, t: State)
    requires Inv(s) && StaysOpen(s) && !(s.mu.Some? && s.mu.value.Stopper?)
    requires i in s.calls && !TurnedAway(s.calls[i]) && !s.calls[i].Accepted?
    ensures Reaches(s, steps, t, i)
  {
    match s.calls[i]
    case CallWaits =>
      var front, u := [], s;
      if s.mu.Some? {
        front, u := HolderLeaves(s, i);
        RunStaysOpen(s, front, u, i);
      }
      steps, t := WaitingIsRun(u, i);
      RunThenRun(s, front, u, steps, t);
      steps := front + steps;
    case Admitted =>
      steps, t := AdmittedIsRun(s, i);
    case Unlocked =>
      steps, t := UnlockedIsRun(s, i);
    case _ =>
      steps, t := HoldingIsRun(s, i);
  }

  /** It does happen: a Start, a call, and its function runs. */
  lemma {:induction false} FunctionRuns() returns (steps: seq<Step>, s: State)
    ensures Runs(INIT, steps, s) && CallAt(s, 0, Accepted) && WorkerAt(s, Job(0), Running)
  {
    var begun, s0 := StartReleases();
    var rest;
    rest, s := NewCallIsRun(s0, 0);
    RunThenRun(INIT, begun, s0, rest, s);
    steps := begun + rest;
  }

  lemma {:induction false} RunThenRun(s: State, steps: seq<Step>, u: State, rest: seq<Step>, t: State)
    requires Runs(s, steps, u) && Runs(u, rest, t)
    ensures Runs(s, steps + rest, t)
    decreases |steps|
  {
    if steps == [] {
      assert steps + rest == rest;
    } else {
      assert (steps + rest)[1..] == steps[1..] + rest;
      RunThenRun(Do(s, steps[0]), steps[1..], u, rest, t);
    }
  }

  // ----- The loops -----

  /** A loop whose function has returned sleeps and, unless it first sees its context cancelled, runs it again. */
  lemma {:induction false} LoopRunsAgain(s: State, j: nat, k: nat)
    requires WorkerAt(s, Loop(j, k), Running)
    ensures var slept := Do(s, FunctionReturns(Loop(j, k)));
      && WorkerAt(slept, Loop(j, k), Sleeping)
      && Enabled(slept, Tick(Loop(j, k))) && WorkerAt(Do(slept, Tick(Loop(j, k))), Loop(j, k), Running)
      && (Enabled(slept, SeeCancelled(Loop(j, k))) <==> j in s.cancelled)
  {}

  lemma {:induction false} ProgressKept(s: State, step: Step, j: nat)
    requires Enabled(s, step) && (j in s.starts ==> Progress(s.starts[j]) <= 3)
    ensures j in Do(s, step).starts ==> Progress(Do(s, step).starts[j]) <= 3
  {
    match step
    case BeginStart(_) =>
    case LockStart(_) =>
    case SetContext(_) =>
    case UnlockStart(_) =>
    case CountLoop(_) =>
    case LaunchLoop(_) =>
    case _ =>
  }

  lemma {:induction false} NeverMoreThanThree(s: State, steps: seq<Step>, t: State, j: nat)
    requires Runs(s, steps, t) && (j in s.starts ==> Progress(s.starts[j]) <= 3)
    ensures j in t.starts ==> Progress(t.starts[j]) <= 3
    decreases |steps|
  {
    if steps != [] {
      ProgressKept(s, steps[0], j);
      NeverMoreThanThree(Do(s, steps[0]), steps[1..], t, j);
    }
  }

  /** A Start that has come back has launched three loops, no more and no fewer. */
  lemma {:induction false} StartLaunchesThree(steps: seq<Step>, s: State, j: nat, k: nat)
    requires Runs(INIT, steps, s) && j in s.starts && StartDone(s.starts[j])
    ensures Loop(j, k) in s.workers <==> k < 3
    ensures Loop(j, k) in s.workers ==> s.workers[Loop(j, k)] != Pending
  {
    NeverMoreThanThree(INIT, steps, s, j);
    InvHoldsFirst();
    EveryRunKeepsInv(INIT, steps, s);
    assert WorkerInv(s, Loop(j, k));
  }
}
