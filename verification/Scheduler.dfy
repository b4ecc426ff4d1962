/** The crawl scheduler as an interleaving of atomic steps: any number of Start, RunOnce and Stop calls and the
    goroutines they launch, over one mutex, one wait group and one context per Start.
    scheduler.go: Start, Stop, RunOnce, loop. */
module Scheduler {
  import opened Text

  const LOOPS := 3

  /** Start: take the lock, set the context, release, then count and launch three loops outside the lock. */
  datatype StartPhase = StartWaits | StartLocked | ContextSet | Launching(k: nat) | Counted(k: nat)

  /** RunOnce: take the lock, look at the context; refuse, or count, release and launch. */
  datatype CallPhase = CallWaits | CallLocked | Refusing | Refused | Admitted | CountedLocked | Unlocked | Accepted

  /** Stop: take the lock, cancel, wait for the group, release. */
  datatype StopPhase = StopWaits | StopLocked | Waiting | Drained | Returned

  /** A goroutine, named for the RunOnce call or for the Start and loop it belongs to. */
  datatype Worker = Job(call: nat) | Loop(start: nat, k: nat)

  datatype WorkPhase = Pending | Running | Sleeping | Leaving | Finished

  datatype Agent = Starter(id: nat) | Caller(id: nat) | Stopper(id: nat)

  /** Contexts are named for the Start that made them. */
  datatype State = State(mu: Option<Agent>, current: Option<nat>, cancelled: set<nat>, wg: int,
                         starts: map<nat, StartPhase>, calls: map<nat, CallPhase>, stops: map<nat, StopPhase>,
                         workers: map<Worker, WorkPhase>)

  const INIT := State(None, None, {}, 0, map[], map[], map[], map[])

  datatype Step =
    | BeginStart(i: nat) | LockStart(i: nat) | SetContext(i: nat) | UnlockStart(i: nat)
    | CountLoop(i: nat) | LaunchLoop(i: nat)
    | BeginCall(i: nat) | LockCall(i: nat) | CheckContext(i: nat) | UnlockRefused(i: nat)
    | CountCall(i: nat) | UnlockCall(i: nat) | LaunchCall(i: nat)
    | BeginStop(i: nat) | LockStop(i: nat) | Cancel(i: nat) | WaitReturns(i: nat) | UnlockStop(i: nat)
    | ParentCancels(i: nat)
    | FunctionReturns(w: Worker) | Tick(w: Worker) | SeeCancelled(w: Worker) | WorkerDone(w: Worker)

  predicate StartAt(s: State, i: nat, p: StartPhase) {
    i in s.starts && s.starts[i] == p
  }

  predicate CallAt(s: State, i: nat, p: CallPhase) {
    i in s.calls && s.calls[i] == p
  }

  predicate StopAt(s: State, i: nat, p: StopPhase) {
    i in s.stops && s.stops[i] == p
  }

  predicate WorkerAt(s: State, w: Worker, p: WorkPhase) {
    w in s.workers && s.workers[w] == p
  }

  predicate Live(s: State) {
    s.current.Some? && s.current.value !in s.cancelled
  }

  predicate Enabled(s: State, step: Step) {
    match step
    case BeginStart(i) => i !in s.starts
    case LockStart(i) => StartAt(s, i, StartWaits) && s.mu.None?
    case SetContext(i) => StartAt(s, i, StartLocked)
    case UnlockStart(i) => StartAt(s, i, ContextSet)
    case CountLoop(i) => i in s.starts && s.starts[i].Launching? && s.starts[i].k < LOOPS
    case LaunchLoop(i) => i in s.starts && s.starts[i].Counted?
    case BeginCall(i) => i !in s.calls
    case LockCall(i) => CallAt(s, i, CallWaits) && s.mu.None?
    case CheckContext(i) => CallAt(s, i, CallLocked)
    case UnlockRefused(i) => CallAt(s, i, Refusing)
    case CountCall(i) => CallAt(s, i, Admitted)
    case UnlockCall(i) => CallAt(s, i, CountedLocked)
    case LaunchCall(i) => CallAt(s, i, Unlocked)
    case BeginStop(i) => i !in s.stops
    case LockStop(i) => StopAt(s, i, StopWaits) && s.mu.None?
    case Cancel(i) => StopAt(s, i, StopLocked)
    case WaitReturns(i) => StopAt(s, i, Waiting) && s.wg == 0
    case UnlockStop(i) => StopAt(s, i, Drained)
    case ParentCancels(i) => i in s.starts
    case FunctionReturns(w) => WorkerAt(s, w, Running)
    case Tick(w) => WorkerAt(s, w, Sleeping)
    case SeeCancelled(w) => WorkerAt(s, w, Sleeping) && w.Loop? && w.start in s.cancelled
    case WorkerDone(w) => WorkerAt(s, w, Leaving)
  }

  function Do(s: State, step: Step): State
    requires Enabled(s, step)
  {
    match step
    case BeginStart(i) => s.(starts := s.starts[i := StartWaits])
    case LockStart(i) => s.(mu := Some(Starter(i)), starts := s.starts[i := StartLocked])
    case SetContext(i) => s.(current := Some(i), starts := s.starts[i := ContextSet])
    case UnlockStart(i) => s.(mu := None, starts := s.starts[i := Launching(0)])
    case CountLoop(i) =>
      var k := s.starts[i].k;
      s.(wg := s.wg + 1, starts := s.starts[i := Counted(k)], workers := s.workers[Loop(i, k) := Pending])
    case LaunchLoop(i) =>
      var k := s.starts[i].k;
      s.(starts := s.starts[i := Launching(k + 1)], workers := s.workers[Loop(i, k) := Running])
    case BeginCall(i) => s.(calls := s.calls[i := CallWaits])
    case LockCall(i) => s.(mu := Some(Caller(i)), calls := s.calls[i := CallLocked])
    case CheckContext(i) => s.(calls := s.calls[i := if Live(s) then Admitted else Refusing])
    case UnlockRefused(i) => s.(mu := None, calls := s.calls[i := Refused])
    case CountCall(i) => s.(wg := s.wg + 1, calls := s.calls[i := CountedLocked],
                            workers := s.workers[Job(i) := Pending])
    case UnlockCall(i) => s.(mu := None, calls := s.calls[i := Unlocked])
    case LaunchCall(i) => s.(calls := s.calls[i := Accepted], workers := s.workers[Job(i) := Running])
    case BeginStop(i) => s.(stops := s.stops[i := StopWaits])
    case LockStop(i) => s.(mu := Some(Stopper(i)), stops := s.stops[i := StopLocked])
    case Cancel(i) => s.(cancelled := s.cancelled + (if s.current.Some? then {s.current.value} else {}),
                         stops := s.stops[i := Waiting])
    case WaitReturns(i) => s.(stops := s.stops[i := Drained])
    case UnlockStop(i) => s.(mu := None, stops := s.stops[i := Returned])
    case ParentCancels(i) => s.(cancelled := s.cancelled + {i})
    case FunctionReturns(w) => s.(workers := s.workers[w := if w.Job? then Leaving else Sleeping])
    case Tick(w) => s.(workers := s.workers[w := Running])
    case SeeCancelled(w) => s.(workers := s.workers[w := Leaving])
    case WorkerDone(w) => s.(wg := s.wg - 1, workers := s.workers[w := Finished])
  }

  /** `t` is reached from `s` by the steps. */
  ghost predicate Runs(s: State, steps: seq<Step>, t: State)
    decreases |steps|
  {
    if steps == [] then s == t
    else Enabled(s, steps[0]) && Runs(Do(s, steps[0]), steps[1..], t)
  }

  // ----- What every step keeps -----

  predicate HoldsLock(s: State, a: Agent) {
    match a
    case Starter(i) => StartAt(s, i, StartLocked) || StartAt(s, i, ContextSet)
    case Caller(i) => i in s.calls && (s.calls[i].CallLocked? || s.calls[i].Refusing? || s.calls[i].Admitted? ||
                                       s.calls[i].CountedLocked?)
    case Stopper(i) => i in s.stops && (s.stops[i].StopLocked? || s.stops[i].Waiting? || s.stops[i].Drained?)
  }

  /** The mutex is held by exactly the one agent inside its critical section. */
  ghost predicate LockInv(s: State) {
    forall a :: HoldsLock(s, a) <==> s.mu == Some(a)
  }

  /** How many loops a Start has counted. */
  function Progress(p: StartPhase): nat {
    match p
    case Launching(k) => k
    case Counted(k) => k + 1
    case _ => 0
  }

  function InFlight(workers: map<Worker, WorkPhase>): set<Worker> {
    set w | w in workers && workers[w] != Finished
  }

  /** The wait group counts the goroutines that are launched, or about to be, and not finished. */
  ghost predicate CountInv(s: State) {
    s.wg == |InFlight(s.workers)|
  }

  /** What a goroutine's existence and phase say about the call it belongs to. */
  ghost predicate WorkerInv(s: State, w: Worker) {
    match w
    case Loop(i, k) =>
      && (w in s.workers <==> i in s.starts && k < Progress(s.starts[i]))
      && (w in s.workers ==>
            && (s.workers[w] == Pending <==> s.starts[i] == Counted(k))
            && (s.workers[w] == Leaving || s.workers[w] == Finished ==> i in s.cancelled))
    case Job(i) =>
      && (w in s.workers <==> i in s.calls && (s.calls[i].CountedLocked? || s.calls[i].Unlocked? ||
                                               s.calls[i].Accepted?))
      && (w in s.workers ==> (s.workers[w] == Pending <==> !s.calls[i].Accepted?) && s.workers[w] != Sleeping)
  }

  ghost predicate WorkersInv(s: State) {
    forall w :: WorkerInv(s, w)
  }

  /** A Stop that waits has cancelled the context that calls are admitted under. */
  ghost predicate CancelInv(s: State) {
    forall i :: StopAt(s, i, Waiting) || StopAt(s, i, Drained) ==> !Live(s)
  }

  ghost predicate Inv(s: State) {
    LockInv(s) && CountInv(s) && WorkersInv(s) && CancelInv(s)
  }

  lemma {:induction false} InFlightUpdate(workers: map<Worker, WorkPhase>, w: Worker, p: WorkPhase)
    ensures var before, after := InFlight(workers), InFlight(workers[w := p]);
      |after| == |before| + (if p != Finished && w !in before then 1
                             else if p == Finished && w in before then -1 else 0)
  {
    var before, after := InFlight(workers), InFlight(workers[w := p]);
    assert after == if p == Finished then before - {w} else before + {w};
  }

  lemma {:induction false} LockKept(s: State, step: Step)
    requires LockInv(s) && Enabled(s, step)
    ensures LockInv(Do(s, step))
  {
    forall a ensures HoldsLock(Do(s, step), a) <==> Do(s, step).mu == Some(a) {
      assert HoldsLock(s, a) <==> s.mu == Some(a);
      if Holder(step).Some? {
        assert HoldsLock(s, Holder(step).value) <==> s.mu == Holder(step);
      }
      LockKeptFor(s, step, a);
    }
  }

  /** Who is inside the critical section that the step is a part of. */
  function Holder(step: Step): Option<Agent> {
    match step
    case SetContext(i) => Some(Starter(i))
    case UnlockStart(i) => Some(Starter(i))
    case CheckContext(i) => Some(Caller(i))
    case UnlockRefused(i) => Some(Caller(i))
    case CountCall(i) => Some(Caller(i))
    case UnlockCall(i) => Some(Caller(i))
    case Cancel(i) => Some(Stopper(i))
    case WaitReturns(i) => Some(Stopper(i))
    case UnlockStop(i) => Some(Stopper(i))
    case _ => None
  }

  lemma {:induction false} LockKeptFor(s: State, step: Step, a: Agent)
    requires Enabled(s, step) && (HoldsLock(s, a) <==> s.mu == Some(a))
    requires Holder(step).Some? ==> (HoldsLock(s, Holder(step).value) <==> s.mu == Holder(step))
    ensures HoldsLock(Do(s, step), a) <==> Do(s, step).mu == Some(a)
  {
    match a
    case Starter(i) => StarterLock(s, step, i);
    case Caller(i) => CallerLock(s, step, i);
    case Stopper(i) => StopperLock(s, step, i);
  }

  lemma {:induction false} StarterLock(s: State, step: Step, i: nat)
    requires Enabled(s, step) && (HoldsLock(s, Starter(i)) <==> s.mu == Some(Starter(i)))
    requires Holder(step).Some? ==> (HoldsLock(s, Holder(step).value) <==> s.mu == Holder(step))
    ensures HoldsLock(Do(s, step), Starter(i)) <==> Do(s, step).mu == Some(Starter(i))
  {}

  lemma {:induction false} CallerLock(s: State, step: Step, i: nat)
    requires Enabled(s, step) && (HoldsLock(s, Caller(i)) <==> s.mu == Some(Caller(i)))
    requires Holder(step).Some? ==> (HoldsLock(s, Holder(step).value) <==> s.mu == Holder(step))
    ensures HoldsLock(Do(s, step), Caller(i)) <==> Do(s, step).mu == Some(Caller(i))
  {}

  lemma {:induction false} StopperLock(s: State, step: Step, i: nat)
    requires Enabled(s, step) && (HoldsLock(s, Stopper(i)) <==> s.mu == Some(Stopper(i)))
    requires Holder(step).Some? ==> (HoldsLock(s, Holder(step).value) <==> s.mu == Holder(step))
    ensures HoldsLock(Do(s, step), Stopper(i)) <==> Do(s, step).mu == Some(Stopper(i))
  {}

  lemma {:induction false} WorkersKept(s: State, step: Step)
    requires WorkersInv(s) && Enabled(s, step)
    ensures WorkersInv(Do(s, step))
  {
    forall w ensures WorkerInv(Do(s, step), w) {
      assert WorkerInv(s, w);
      match w
      case Loop(i, k) => LoopKept(s, step, i, k);
      case Job(i) => JobKept(s, step, i);
    }
  }

  lemma {:induction false} LoopKept(s: State, step: Step, i: nat, k: nat)
    requires WorkerInv(s, Loop(i, k)) && Enabled(s, step)
    ensures WorkerInv(Do(s, step), Loop(i, k))
  {
    match step
    case BeginStart(_) =>
    case LockStart(_) =>
    case SetContext(_) =>
    case UnlockStart(_) =>
    case CountLoop(_) =>
    case LaunchLoop(_) =>
    case _ =>
  }

  lemma {:induction false} JobKept(s: State, step: Step, i: nat)
    requires WorkerInv(s, Job(i)) && Enabled(s, step)
    ensures WorkerInv(Do(s, step), Job(i))
  {
    match step
    case BeginCall(_) =>
    case LockCall(_) =>
    case CheckContext(_) =>
    case CountCall(_) =>
    case UnlockCall(_) =>
    case LaunchCall(_) =>
    case _ =>
  }

  /** The goroutine that a step moves on, if any. */
  function Moved(s: State, step: Step): Option<Worker>
    requires Enabled(s, step)
  {
    match step
    case CountLoop(i) => Some(Loop(i, s.starts[i].k))
    case LaunchLoop(i) => Some(Loop(i, s.starts[i].k))
    case CountCall(i) => Some(Job(i))
    case LaunchCall(i) => Some(Job(i))
    case FunctionReturns(w) => Some(w)
    case Tick(w) => Some(w)
    case SeeCancelled(w) => Some(w)
    case WorkerDone(w) => Some(w)
    case _ => None
  }

  lemma {:induction false} OnlyMoved(s: State, step: Step)
    requires WorkersInv(s) && Enabled(s, step)
    ensures var t, w := Do(s, step), Moved(s, step);
      if w.None? then t.workers == s.workers && t.wg == s.wg
      else
        && w.value in t.workers && t.workers == s.workers[w.value := t.workers[w.value]]
        && t.wg == s.wg + (if t.workers[w.value] == Finished then -1 else if w.value !in s.workers then 1 else 0)
        && (w.value in s.workers ==> s.workers[w.value] != Finished)
  {
    var w := Moved(s, step);
    assert w.Some? ==> WorkerInv(s, w.value);
  }

  lemma {:induction false} CountKept(s: State, step: Step)
    requires CountInv(s) && WorkersInv(s) && Enabled(s, step)
    ensures CountInv(Do(s, step))
  {
    OnlyMoved(s, step);
    var w := Moved(s, step);
    if w.Some? {
      InFlightUpdate(s.workers, w.value, Do(s, step).workers[w.value]);
    }
  }

  lemma {:induction false} CancelKept(s: State, step: Step)
    requires CancelInv(s) && LockInv(s) && Enabled(s, step)
    ensures CancelInv(Do(s, step))
  {
    var t := Do(s, step);
    forall i | StopAt(t, i, Waiting) || StopAt(t, i, Drained) ensures !Live(t) {
      if StopAt(s, i, Waiting) || StopAt(s, i, Drained) {
        assert !Live(s);
        assert HoldsLock(s, Stopper(i));
        assert step.SetContext? ==> HoldsLock(s, Starter(step.i));
      }
    }
  }

  /** Every interleaving keeps: the lock is exclusive, the wait group counts the unfinished goroutines, and every
      goroutine belongs to a call that counted it. */
  lemma {:induction false} EveryRunKeepsInv(s: State, steps: seq<Step>, t: State)
    requires Inv(s) && Runs(s, steps, t)
    ensures Inv(t)
    decreases |steps|
  {
    if steps != [] {
      LockKept(s, steps[0]);
      WorkersKept(s, steps[0]);
      CountKept(s, steps[0]);
      CancelKept(s, steps[0]);
      EveryRunKeepsInv(Do(s, steps[0]), steps[1..], t);
    }
  }

  lemma {:induction false} InvHoldsFirst()
    ensures Inv(INIT)
  {
    assert InFlight(INIT.workers) == {};
  }

  // ----- Stop -----

  ghost predicate AllFinished(s: State) {
    forall w :: w in s.workers ==> s.workers[w] == Finished
  }

  /** When a Stop's wait returns, in any run at all, every accepted RunOnce has its function finished, no call is
      between counting and launching, and every Start that launched its loops has had its context cancelled. */
  lemma {:induction false} StopReturnsDrained(steps: seq<Step>, s: State, i: nat)
    requires Runs(INIT, steps, s) && Enabled(s, WaitReturns(i))
    ensures AllFinished(s)
    ensures forall c :: CallAt(s, c, Accepted) ==> WorkerAt(s, Job(c), Finished)
    ensures forall c :: !CallAt(s, c, CountedLocked) && !CallAt(s, c, Unlocked)
    ensures forall j :: j in s.starts && StartDone(s.starts[j]) ==> j in s.cancelled
  {
    InvHoldsFirst();
    EveryRunKeepsInv(INIT, steps, s);
    assert InFlight(s.workers) == {};
    assert forall w :: w in s.workers && s.workers[w] != Finished ==> w in InFlight(s.workers);
    forall c ensures (CallAt(s, c, Accepted) ==> WorkerAt(s, Job(c), Finished)) && !CallAt(s, c, CountedLocked) &&
        !CallAt(s, c, Unlocked) {
      assert WorkerInv(s, Job(c));
    }
    forall j | j in s.starts && StartDone(s.starts[j]) ensures j in s.cancelled {
      assert WorkerInv(s, Loop(j, 0));
    }
  }

  predicate StartDone(p: StartPhase) {
    p.Launching? && p.k >= LOOPS
  }

  /** Every Start that has begun has launched all its loops. */
  ghost predicate NoStartPending(s: State) {
    forall i :: i in s.starts ==> StartDone(s.starts[i])
  }

  predicate NoStartBegins(steps: seq<Step>) {
    forall k :: 0 <= k < |steps| ==> !steps[k].BeginStart?
  }

  /** Nothing runs, and nothing can be admitted. */
  ghost predicate Quiet(s: State, accepted: set<nat>) {
    && AllFinished(s) && !Live(s) && NoStartPending(s)
    && (forall c :: c in s.calls && c !in accepted ==>
        s.calls[c].CallWaits? || s.calls[c].CallLocked? || s.calls[c].Refusing? || s.calls[c].Refused?)
    && (forall c :: c in accepted ==> CallAt(s, c, Accepted))
  }

  lemma {:induction false} QuietKept(s: State, step: Step, accepted: set<nat>)
    requires Inv(s) && Quiet(s, accepted) && Enabled(s, step) && !step.BeginStart?
    ensures Quiet(Do(s, step), accepted)
  {
    NothingStarts(s, step);
    NothingAdmitted(s, step, accepted);
  }

  lemma {:induction false} NothingStarts(s: State, step: Step)
    requires Inv(s) && AllFinished(s) && !Live(s) && NoStartPending(s) && Enabled(s, step) && !step.BeginStart?
    requires !step.CountCall? && !step.LaunchCall?
    ensures var t := Do(s, step); AllFinished(t) && !Live(t) && NoStartPending(t)
  {}

  lemma {:induction false} NothingAdmitted(s: State, step: Step, accepted: set<nat>)
    requires Quiet(s, accepted) && Enabled(s, step)
    ensures var t := Do(s, step);
      && (forall c :: c in t.calls && c !in accepted ==>
          t.calls[c].CallWaits? || t.calls[c].CallLocked? || t.calls[c].Refusing? || t.calls[c].Refused?)
      && (forall c :: c in accepted ==> CallAt(t, c, Accepted))
  {}

  lemma {:induction false} QuietStays(s: State, steps: seq<Step>, t: State, accepted: set<nat>)
    requires Inv(s) && Quiet(s, accepted) && Runs(s, steps, t) && NoStartBegins(steps)
    ensures Quiet(t, accepted)
    decreases |steps|
  {
    if steps != [] {
      QuietKept(s, steps[0], accepted);
      LockKept(s, steps[0]);
      WorkersKept(s, steps[0]);
      CountKept(s, steps[0]);
      CancelKept(s, steps[0]);
      assert forall k :: 0 <= k < |steps| - 1 ==> steps[1..][k] == steps[k + 1];
      QuietStays(Do(s, steps[0]), steps[1..], t, accepted);
    }
  }

  ghost predicate NothingNew(s: State, t: State) {
    AllFinished(t) && forall c :: CallAt(t, c, Accepted) ==> CallAt(s, c, Accepted)
  }

  /** From now on, whatever is called but Start, nothing runs and no further RunOnce is accepted. */
  ghost predicate Stopped(s: State) {
    forall steps, t :: Runs(s, steps, t) && NoStartBegins(steps) ==> NothingNew(s, t)
  }

  /** Once a Stop has waited, the scheduler is stopped for good exactly when no Start was still under way: a Start
      racing the Stop, and nothing else, launches its loops afterwards. */
  lemma {:induction false} StoppedIffNoStartPending(steps: seq<Step>, s: State, i: nat)
    requires Runs(INIT, steps, s) && Enabled(s, WaitReturns(i))
    ensures Stopped(Do(s, WaitReturns(i))) <==> NoStartPending(s)
  {
    StopReturnsDrained(steps, s, i);
    InvHoldsFirst();
    EveryRunKeepsInv(INIT, steps, s);
    var t := Do(s, WaitReturns(i));
    if NoStartPending(s) {
      EveryRunKeepsInv(s, [WaitReturns(i)], t);
      var accepted := set c | c in t.calls && t.calls[c] == Accepted;
      NoneAdmitted(s, i);
      forall c | c in t.calls && c !in accepted
        ensures t.calls[c].CallWaits? || t.calls[c].CallLocked? || t.calls[c].Refusing? || t.calls[c].Refused?
      {
        assert !CallAt(s, c, Admitted) && !CallAt(s, c, CountedLocked) && !CallAt(s, c, Unlocked);
      }
      forall more, u | Runs(t, more, u) && NoStartBegins(more)
        ensures NothingNew(t, u)
      {
        QuietStays(t, more, u, accepted);
      }
    } else {
      var j :| j in s.starts && !StartDone(s.starts[j]);
      PendingStartLaunches(s, i, j);
    }
  }

  lemma {:induction false} NoneAdmitted(s: State, i: nat)
    requires LockInv(s) && StopAt(s, i, Waiting)
    ensures forall c :: !CallAt(s, c, Admitted)
  {
    assert HoldsLock(s, Stopper(i));
    forall c ensures !CallAt(s, c, Admitted) {
      assert HoldsLock(s, Caller(c)) ==> s.mu == Some(Caller(c));
    }
  }

  lemma {:induction false} StepThen(s: State, step: Step, rest: seq<Step>, t: State)
    requires Enabled(s, step) && Runs(Do(s, step), rest, t)
    ensures Runs(s, [step] + rest, t)
  {
    assert ([step] + rest)[1..] == rest;
  }

  /** A Start between its loops launches the next one. */
  lemma {:induction false} LoopLaunches(s: State, j: nat) returns (u: State)
    requires j in s.starts && s.starts[j].Launching? && s.starts[j].k < LOOPS
    ensures Runs(s, [CountLoop(j), LaunchLoop(j)], u) && !AllFinished(u)
  {
    var s1 := Do(s, CountLoop(j));
    u := Do(s1, LaunchLoop(j));
    StepThen(s1, LaunchLoop(j), [], u);
    assert [LaunchLoop(j)] + [] == [LaunchLoop(j)];
    StepThen(s, CountLoop(j), [LaunchLoop(j)], u);
    assert [CountLoop(j)] + [LaunchLoop(j)] == [CountLoop(j), LaunchLoop(j)];
    assert u.workers[Loop(j, s.starts[j].k)] == Running;
  }

  lemma {:induction false} NotStopped(s: State, steps: seq<Step>, t: State)
    requires Runs(s, steps, t) && NoStartBegins(steps) && !AllFinished(t)
    ensures !Stopped(s)
  {
    assert !NothingNew(s, t);
  }

  lemma {:induction false} PendingStartLaunches(s: State, i: nat, j: nat)
    requires Inv(s) && AllFinished(s) && Enabled(s, WaitReturns(i)) && j in s.starts && !StartDone(s.starts[j])
    ensures !Stopped(Do(s, WaitReturns(i)))
  {
    var t := Do(s, WaitReturns(i));
    assert HoldsLock(s, Stopper(i));
    assert HoldsLock(s, Starter(j)) ==> s.mu == Some(Starter(j));
    assert s.starts[j].Counted? ==> WorkerInv(s, Loop(j, s.starts[j].k));
    var last := [CountLoop(j), LaunchLoop(j)];
    if s.starts[j].Launching? {
      var u := LoopLaunches(t, j);
      NotStopped(t, last, u);
    } else {
      var s1 := Do(t, UnlockStop(i));
      var rest, u := WaitingStartLaunches(s1, j);
      StepThen(t, UnlockStop(i), rest, u);
      NotStopped(t, [UnlockStop(i)] + rest, u);
    }
  }

  /** A Start that waits for a free lock goes on to launch its first loop. */
  lemma {:induction false} WaitingStartLaunches(s: State, j: nat) returns (steps: seq<Step>, u: State)
    requires Enabled(s, LockStart(j))
    ensures Runs(s, steps, u) && NoStartBegins(steps) && !AllFinished(u)
  {
    var s1 := Do(s, LockStart(j));
    var s2 := Do(s1, SetContext(j));
    var s3 := Do(s2, UnlockStart(j));
    u := LoopLaunches(s3, j);
    var last := [CountLoop(j), LaunchLoop(j)];
    StepThen(s2, UnlockStart(j), last, u);
    StepThen(s1, SetContext(j), [UnlockStart(j)] + last, u);
    steps := [LockStart(j)] + ([SetContext(j)] + ([UnlockStart(j)] + last));
    StepThen(s, LockStart(j), [SetContext(j)] + ([UnlockStart(j)] + last), u);
  }

  lemma {:induction false} RunThenStep(s: State, steps: seq<Step>, t: State, step: Step)
    requires Runs(s, steps, t) && Enabled(t, step)
    ensures Runs(s, steps + [step], Do(t, step))
    decreases |steps|
  {
    var more := steps + [step];
    if steps == [] {
      assert more[1..] == [];
    } else {
      assert more[1..] == steps[1..] + [step];
      RunThenStep(Do(s, steps[0]), steps[1..], t, step);
    }
  }

  /** The Start of an idle scheduler has released its lock and not yet counted a loop. */
  lemma {:induction false} StartReleases() returns (steps: seq<Step>, s: State)
    ensures Runs(INIT, steps, s) && StartAt(s, 0, Launching(0)) && s.mu.None? && s.wg == 0 && s.stops == map[]
    ensures 1 !in s.starts && s.cancelled == {} && s.current == Some(0) && s.calls == map[]
  {
    var s1 := Do(INIT, BeginStart(0));
    var s2 := Do(s1, LockStart(0));
    var s3 := Do(s2, SetContext(0));
    RunThenStep(INIT, [], INIT, BeginStart(0));
    RunThenStep(INIT, [] + [BeginStart(0)], s1, LockStart(0));
    RunThenStep(INIT, [] + [BeginStart(0)] + [LockStart(0)], s2, SetContext(0));
    RunThenStep(INIT, [] + [BeginStart(0)] + [LockStart(0)] + [SetContext(0)], s3, UnlockStart(0));
    steps, s := [] + [BeginStart(0)] + [LockStart(0)] + [SetContext(0)] + [UnlockStart(0)], Do(s3, UnlockStart(0));
  }

  /** A Stop that comes then cancels the context and finds nothing to wait for. */
  lemma {:induction false} StopComes(begun: seq<Step>, s0: State) returns (steps: seq<Step>, s: State)
    requires Runs(INIT, begun, s0) && StartAt(s0, 0, Launching(0)) && s0.mu.None? && s0.wg == 0 && s0.stops == map[]
    ensures Runs(INIT, steps, s) && Enabled(s, WaitReturns(0)) && StartAt(s, 0, Launching(0))
  {
    var s2 := Do(Do(s0, BeginStop(0)), LockStop(0));
    steps, s := begun + [BeginStop(0)] + [LockStop(0)] + [Cancel(0)], Do(s2, Cancel(0));
    RunThenThree(INIT, begun, s0, BeginStop(0), LockStop(0), Cancel(0));
  }

  lemma {:induction false} RunThenThree(s: State, steps: seq<Step>, t: State, a: Step, b: Step, c: Step)
    requires Runs(s, steps, t) && Enabled(t, a) && Enabled(Do(t, a), b) && Enabled(Do(Do(t, a), b), c)
    ensures Runs(s, steps + [a] + [b] + [c], Do(Do(Do(t, a), b), c))
  {
    RunThenStep(s, steps, t, a);
    RunThenStep(s, steps + [a], Do(t, a), b);
    RunThenStep(s, steps + [a] + [b], Do(Do(t, a), b), c);
  }

  /** So it does happen that loops start after a Stop has returned. */
  lemma {:induction false} StartOutlivesStop() returns (steps: seq<Step>, s: State)
    ensures Runs(INIT, steps, s) && Enabled(s, WaitReturns(0)) && !Stopped(Do(s, WaitReturns(0)))
  {
    var begun, s0 := StartReleases();
    steps, s := StopComes(begun, s0);
    assert !StartDone(s.starts[0]);
    StoppedIffNoStartPending(steps, s, 0);
  }

  /** While a Stop waits and no Start is under way, the wait group only shrinks. */
  lemma {:induction false} WaitOnlyShrinks(s: State, step: Step, i: nat)
    requires Inv(s) && StopAt(s, i, Waiting) && NoStartPending(s) && Enabled(s, step)
    ensures Do(s, step).wg <= s.wg
    ensures step != WaitReturns(i) ==> StopAt(Do(s, step), i, Waiting)
  {
    NoneAdmitted(s, i);
  }
}
