/**
 Progress of the call executor over infinite runs, under a fair scheduler: whoever can take the next step of
 a begun operation again and again does take it.  For the worker this includes that tasks finish.
 */
module CallExecutorLiveness {
  import opened CallExecutor
  import opened Fairness

  /** One strand of control; beginning an operation is not a step anybody owes. */
  datatype Actor = Control | Work | Call(t: Thread)

  predicate Ready(s: State, a: Actor) {
    match a
    case Control => ControlReady(s)
    case Work => WorkReady(s)
    case Call(t) => Enabled(s, CallStep(t))
  }

  predicate ActedBy(step: Step, a: Actor) {
    match a
    case Control => step.ControlStep?
    case Work => step.WorkStep?
    case Call(t) => step == CallStep(t)
  }

  ghost const EXECUTOR: System<State, Step, Actor> :=
    System((s, step, s') => Enabled(s, step) && s' == Do(s, step), s => Inv(s), (s, a) => Ready(s, a),
           (step, a) => ActedBy(step, a))

  /** An infinite run from the initial state under a fair scheduler. */
  ghost predicate FairRun(run: nat -> State, steps: nat -> Step) {
    && run(0) == INITIAL
    && (forall i: nat :: Follows(run, steps, i))
    && Fair(EXECUTOR, run, steps)
  }

  ghost predicate Follows(run: nat -> State, steps: nat -> Step, i: nat) {
    Enabled(run(i), steps(i)) && run(i + 1) == Do(run(i), steps(i))
  }

  lemma {:induction false} InvAt(run: nat -> State, steps: nat -> Step, n: nat)
    requires FairRun(run, steps)
    ensures Inv(run(n))
  {
    if n == 0 {
    } else {
      InvAt(run, steps, n - 1);
      assert Follows(run, steps, n - 1);
      StepKeeps(run(n - 1), steps(n - 1));
    }
  }

  lemma {:induction false} RunsOfTheExecutor(run: nat -> State, steps: nat -> Step)
    requires FairRun(run, steps)
    ensures IsRun(EXECUTOR, run, steps)
  {
    forall i: nat ensures StepAt(EXECUTOR, run, steps, i) {
      InvAt(run, steps, i);
      assert Follows(run, steps, i);
    }
  }

  /** The worker is never inside a call, so nothing but the mutex keeps it from finishing a task. */
  lemma {:induction false} WorkerIsFree(s: State)
    requires Inv(s)
    ensures Free(s, Worker)
  {
  }

  // ---- What only an actor itself can change ----

  lemma {:induction false} ControllerStays(s: State, step: Step)
    requires Inv(s) && Enabled(s, step) && !step.ControlStep? && !s.controller.Resting?
    ensures Do(s, step).controller == s.controller
    ensures s.worker.Exited? ==> Do(s, step).worker.Exited?
  {
  }

  lemma {:induction false} WorkerStays(s: State, step: Step)
    requires Inv(s) && Enabled(s, step) && !step.WorkStep?
    requires s.worker.AtLock? || s.worker.InSection? || s.worker.Running?
    ensures Do(s, step).worker == s.worker
  {
  }

  predicate At(s: State, t: Thread, pc: CallPc) {
    t in s.calls && s.calls[t] == pc
  }

  /** Only the worker settles promises, and only the one of the task it runs. */
  lemma {:induction false} SettledStays(s: State, step: Step, x: Task)
    requires Enabled(s, step) && x in s.settled
    ensures x in Do(s, step).settled
  {
  }

  lemma {:induction false} CallStays(s: State, step: Step, t: Thread, pc: CallPc)
    requires Enabled(s, step) && step != CallStep(t) && At(s, t, pc) && !pc.Returned? && !pc.Threw?
    ensures At(Do(s, step), t, pc)
    ensures pc.task in s.settled ==> pc.task in Do(s, step).settled
  {
    if pc.task in s.settled {
      SettledStays(s, step, pc.task);
    }
  }

  // ---- The three actors take the steps they owe ----

  /** The controller is at `pc`, and not waiting in join() for a worker that has not exited. */
  ghost function ControllerAt(pc: ControllerPc): State -> bool {
    (s: State) => s.controller == pc && (pc.StopJoining? ==> s.worker.Exited?)
  }

  ghost function WorkerAt(pc: WorkerPc): State -> bool {
    (s: State) => s.worker == pc
  }

  /** The caller is at `pc`, and not blocked on a promise that is not set. */
  ghost function CallerAt(t: Thread, pc: CallPc): State -> bool {
    (s: State) => At(s, t, pc) && (pc.Blocked? ==> pc.task in s.settled)
  }

  lemma {:induction false} ControllerIsStable(pc: ControllerPc)
    requires !pc.Resting?
    ensures Stable(EXECUTOR, ControllerAt(pc), Control)
  {
    var p := ControllerAt(pc);
    forall s, step, s' | EXECUTOR.inv(s) && p(s) && EXECUTOR.next(s, step, s') && !EXECUTOR.acts(step, Control)
      ensures p(s')
    {
      ControllerStays(s, step);
    }
  }

  lemma {:induction false} WorkerIsStable(pc: WorkerPc)
    requires pc.AtLock? || pc.InSection? || pc.Running?
    ensures Stable(EXECUTOR, WorkerAt(pc), Work)
  {
    var p := WorkerAt(pc);
    forall s, step, s' | EXECUTOR.inv(s) && p(s) && EXECUTOR.next(s, step, s') && !EXECUTOR.acts(step, Work)
      ensures p(s')
    {
      WorkerStays(s, step);
    }
  }

  lemma {:induction false} CallerIsStable(t: Thread, pc: CallPc)
    requires !pc.Returned? && !pc.Threw?
    ensures Stable(EXECUTOR, CallerAt(t, pc), Call(t))
  {
    var p := CallerAt(t, pc);
    forall s, step, s' | EXECUTOR.inv(s) && p(s) && EXECUTOR.next(s, step, s') && !EXECUTOR.acts(step, Call(t))
      ensures p(s')
    {
      CallStays(s, step, t, pc);
    }
  }

  ghost const ALWAYS: State -> bool := s => true
  ghost const MUTEX_FREE: State -> bool := (s: State) => s.mutex.None?

  lemma {:induction false} AlwaysHappens(run: nat -> State)
    ensures AgainAndAgain(run, ALWAYS)
  {
    forall n: nat ensures After(run, ALWAYS, n) {
      assert ALWAYS(run(n));
    }
  }

  /** Whoever is inside a critical section leaves it. */
  lemma {:induction false} MutexIsReleased(run: nat -> State, steps: nat -> Step, n: nat) returns (m: nat)
    requires FairRun(run, steps)
    ensures n <= m && run(m).mutex.None?
  {
    InvAt(run, steps, n);
    if run(n).mutex.None? {
      return n;
    }
    var t := run(n).mutex.value;
    assert Holds(run(n), t);
    if t == Worker && run(n).worker.InSection? {
      m := WorkerLeaves(run, steps, n);
    } else if t in run(n).calls && run(n).calls[t].CallInSection? {
      m := CallerLeaves(run, steps, t, n);
    } else {
      m := ControllerLeaves(run, steps, n);
    }
  }

  /** An actor that nothing keeps from its next step takes it, from a state where `p` still holds. */
  lemma {:induction false} ActsUnhindered(
      run: nat -> State, steps: nat -> Step, p: State -> bool, a: Actor, n: nat) returns (k: nat)
    requires FairRun(run, steps) && Stable(EXECUTOR, p, a) && p(run(n))
    requires forall s :: p(s) && Free(s, Worker) ==> Ready(s, a)
    ensures n <= k && p(run(k)) && ActedBy(steps(k), a) && Follows(run, steps, k)
  {
    RunsOfTheExecutor(run, steps);
    AlwaysHappens(run);
    forall s | Inv(s) ensures Free(s, Worker) {
      WorkerIsFree(s);
    }
    k := EventuallyActs(EXECUTOR, run, steps, p, ALWAYS, a, n);
  }

  lemma {:induction false} ControllerLeaves(run: nat -> State, steps: nat -> Step, n: nat) returns (m: nat)
    requires FairRun(run, steps) && ControllerHolds(run(n).controller)
    ensures n <= m && run(m).mutex.None?
    decreases run(n).controller.StartInSection?
  {
    var pc := run(n).controller;
    ControllerIsStable(pc);
    var k := ActsUnhindered(run, steps, ControllerAt(pc), Control, n);
    if run(k + 1).controller.StartAssigning? {
      m := ControllerLeaves(run, steps, k + 1);
    } else {
      m := k + 1;
    }
  }

  lemma {:induction false} WorkerLeaves(run: nat -> State, steps: nat -> Step, n: nat) returns (m: nat)
    requires FairRun(run, steps) && run(n).worker.InSection?
    ensures n <= m && run(m).mutex.None?
  {
    WorkerIsStable(InSection);
    var k := ActsUnhindered(run, steps, WorkerAt(InSection), Work, n);
    m := k + 1;
  }

  lemma {:induction false} CallerLeaves(run: nat -> State, steps: nat -> Step, t: Thread, n: nat) returns (m: nat)
    requires FairRun(run, steps) && t in run(n).calls && run(n).calls[t].CallInSection?
    ensures n <= m && run(m).mutex.None?
  {
    var pc := run(n).calls[t];
    CallerIsStable(t, pc);
    var k := ActsUnhindered(run, steps, CallerAt(t, pc), Call(t), n);
    m := k + 1;
  }

  lemma {:induction false} MutexIsFreeAgainAndAgain(run: nat -> State, steps: nat -> Step)
    requires FairRun(run, steps)
    ensures AgainAndAgain(run, MUTEX_FREE)
  {
    forall n: nat ensures After(run, MUTEX_FREE, n) {
      var m := MutexIsReleased(run, steps, n);
      assert MUTEX_FREE(run(m));
    }
  }

  /** An actor that is kept from its next step at most by the mutex takes it, from a state where `p` still holds. */
  lemma {:induction false} Acts(
      run: nat -> State, steps: nat -> Step, p: State -> bool, a: Actor, n: nat) returns (k: nat)
    requires FairRun(run, steps) && Stable(EXECUTOR, p, a) && p(run(n))
    requires forall s :: p(s) && Free(s, Worker) && s.mutex.None? ==> Ready(s, a)
    ensures n <= k && p(run(k)) && ActedBy(steps(k), a) && Follows(run, steps, k)
  {
    RunsOfTheExecutor(run, steps);
    MutexIsFreeAgainAndAgain(run, steps);
    forall s | Inv(s) ensures Free(s, Worker) {
      WorkerIsFree(s);
    }
    k := EventuallyActs(EXECUTOR, run, steps, p, MUTEX_FREE, a, n);
  }

  lemma {:induction false} ControllerActs(
      run: nat -> State, steps: nat -> Step, pc: ControllerPc, n: nat) returns (k: nat)
    requires FairRun(run, steps) && ControllerAt(pc)(run(n)) && !pc.Resting?
    ensures n <= k && ControllerAt(pc)(run(k)) && ControlReady(run(k)) && run(k + 1) == DoControl(run(k))
  {
    ControllerIsStable(pc);
    k := Acts(run, steps, ControllerAt(pc), Control, n);
  }

  /** The point of its program a call reaches with its next step. */
  ghost predicate Next(pc: CallPc, s: State, t: Thread) {
    match pc
    case CallAtLock(x) => At(s, t, CallInSection(x))
    case CallInSection(x) => At(s, t, Notifying(x)) || At(s, t, Threw(x))
    case Notifying(x) => At(s, t, Blocked(x))
    case Blocked(x) => x in s.settled && At(s, t, Returned(x, s.settled[x]))
    case _ => false
  }

  lemma {:induction false} CallStepReaches(s: State, t: Thread)
    requires Enabled(s, CallStep(t))
    ensures Next(s.calls[t], Do(s, CallStep(t)), t)
  {
  }

  lemma {:induction false} CallActs(
      run: nat -> State, steps: nat -> Step, t: Thread, pc: CallPc, n: nat) returns (m: nat)
    requires FairRun(run, steps) && CallerAt(t, pc)(run(n)) && !pc.Returned? && !pc.Threw?
    ensures n < m && Next(pc, run(m), t)
  {
    CallerIsStable(t, pc);
    var k := Acts(run, steps, CallerAt(t, pc), Call(t), n);
    CallStepReaches(run(k), t);
    m := k + 1;
  }

  // ---- stop() returns ----

  function Rank(w: WorkerPc): nat {
    match w
    case Running(_) => 3
    case AtLock => 2
    case InSection => 1
    case _ => 0
  }

  /** How many steps the worker is from exiting once a stop is under way. */
  function DrainMeasure(s: State): nat {
    3 * |s.queue.tasks| + Rank(s.worker)
  }

  lemma {:induction false} WorkStepDrains(s: State, o: Outcome)
    requires s.queue.stopping && WorkReady(s)
    ensures DrainMeasure(DoWork(s, o)) == DrainMeasure(s) - 1
  {
  }

  /** stop() waits in join(), the worker is at `pc` and so many tasks are left. */
  ghost function Joining(pc: WorkerPc, left: nat): State -> bool {
    (s: State) => s.controller.StopJoining? && s.worker == pc && |s.queue.tasks| == left
  }

  lemma {:induction false} JoiningIsStable(pc: WorkerPc, left: nat)
    requires pc.AtLock? || pc.InSection? || pc.Running?
    ensures Stable(EXECUTOR, Joining(pc, left), Work)
  {
    var p := Joining(pc, left);
    forall s, step, s' | EXECUTOR.inv(s) && p(s) && EXECUTOR.next(s, step, s') && !EXECUTOR.acts(step, Work)
      ensures p(s')
    {
      WorkerStays(s, step);
    }
  }

  /** While stop() waits in join(), the worker finishes the queue and exits. */
  lemma {:induction false} WorkerExits(run: nat -> State, steps: nat -> Step, n: nat) returns (m: nat)
    requires FairRun(run, steps) && run(n).controller.StopJoining?
    ensures n <= m && run(m).controller.StopJoining? && run(m).worker.Exited?
    decreases DrainMeasure(run(n))
  {
    InvAt(run, steps, n);
    if run(n).worker.Exited? {
      return n;
    }
    var k := JoinedWorkerActs(run, steps, n);
    m := WorkerExits(run, steps, k);
  }

  lemma {:induction false} JoinedWorkerActs(run: nat -> State, steps: nat -> Step, n: nat) returns (m: nat)
    requires FairRun(run, steps) && run(n).controller.StopJoining? && !run(n).worker.Exited?
    ensures n <= m && run(m).controller.StopJoining? && DrainMeasure(run(m)) < DrainMeasure(run(n))
  {
    InvAt(run, steps, n);
    var p := Joining(run(n).worker, |run(n).queue.tasks|);
    JoiningIsStable(run(n).worker, |run(n).queue.tasks|);
    var k := Acts(run, steps, p, Work, n);
    InvAt(run, steps, k);
    WorkStepDrains(run(k), steps(k).outcome);
    m := k + 1;
  }

  lemma {:induction false} JoinReturns(run: nat -> State, steps: nat -> Step, n: nat) returns (m: nat)
    requires FairRun(run, steps) && run(n).controller.StopJoining?
    ensures n < m && run(m).controller.Resting? && !run(m).queue.started
  {
    var k := WorkerExits(run, steps, n);
    k := ControllerActs(run, steps, StopJoining, k);
    k := ControllerActs(run, steps, StopClearing, k + 1);
    m := k + 1;
  }

  /** A stop() past its critical section ends in one of two ways: there was nothing to stop, or it joins. */
  lemma {:induction false} StopSectionReturns(run: nat -> State, steps: nat -> Step, n: nat) returns (m: nat)
    requires FairRun(run, steps) && run(n).controller.StopInSection?
    ensures n < m && run(m).controller.Resting? && !run(m).queue.started
  {
    var k := ControllerActs(run, steps, StopInSection, n);
    m := k + 1;
    if run(m).controller.StopNotifying? {
      k := ControllerActs(run, steps, StopNotifying, m);
      m := JoinReturns(run, steps, k + 1);
    }
  }

  /** Every stop() returns, with the executor stopped and the queue empty. */
  lemma {:induction false} StopReturns(run: nat -> State, steps: nat -> Step, n: nat) returns (m: nat)
    requires FairRun(run, steps) && run(n).controller.StopAtLock?
    ensures n < m && run(m).controller.Resting? && !run(m).queue.started
    ensures run(m).worker.NoThread? && run(m).queue.tasks == []
  {
    var k := ControllerActs(run, steps, StopAtLock, n);
    m := StopSectionReturns(run, steps, k + 1);
    InvAt(run, steps, m);
  }

  // ---- Every call returns ----

  /** The caller waits for a task the worker is running. */
  ghost function WaitsForRunning(t: Thread, x: Task): State -> bool {
    (s: State) => At(s, t, Blocked(x)) && s.worker == Running(x)
  }

  lemma {:induction false} RunningIsStable(t: Thread, x: Task)
    ensures Stable(EXECUTOR, WaitsForRunning(t, x), Work)
  {
    var p := WaitsForRunning(t, x);
    forall s, step, s' | EXECUTOR.inv(s) && p(s) && EXECUTOR.next(s, step, s') && !EXECUTOR.acts(step, Work)
      ensures p(s')
    {
      WorkerStays(s, step);
      OutstandingIsUnsettled(s, x);
      CallStays(s, step, t, Blocked(x));
    }
  }

  lemma {:induction false} RunningTaskSettles(
      run: nat -> State, steps: nat -> Step, t: Thread, x: Task, n: nat) returns (m: nat)
    requires FairRun(run, steps) && run(n).worker == Running(x) && At(run(n), t, Blocked(x))
    ensures n <= m && At(run(m), t, Blocked(x)) && x in run(m).settled
  {
    RunningIsStable(t, x);
    var k := Acts(run, steps, WaitsForRunning(t, x), Work, n);
    m := k + 1;
  }

  /** The caller waits for the task at one position of the queue. */
  predicate WaitsAt(s: State, t: Thread, x: Task, position: nat) {
    At(s, t, Blocked(x)) && position < |s.queue.tasks| && s.queue.tasks[position] == x
  }

  ghost function WaitsWhile(t: Thread, x: Task, position: nat, pc: WorkerPc): State -> bool {
    (s: State) => WaitsAt(s, t, x, position) && s.worker == pc
  }

  lemma {:induction false} WaitingIsStable(t: Thread, x: Task, position: nat, pc: WorkerPc)
    requires pc.AtLock? || pc.InSection? || pc.Running?
    ensures Stable(EXECUTOR, WaitsWhile(t, x, position, pc), Work)
  {
    var p := WaitsWhile(t, x, position, pc);
    forall s, step, s' | EXECUTOR.inv(s) && p(s) && EXECUTOR.next(s, step, s') && !EXECUTOR.acts(step, Work)
      ensures p(s')
    {
      assert x in Outstanding(s);
      OutstandingIsUnsettled(s, x);
      CallStays(s, step, t, Blocked(x));
      WorkerStays(s, step);
    }
  }

  /** The worker is awake, because the caller of a task queued beside a sleeping worker still owes its notify. */
  lemma {:induction false} WaitedForWorkerIsAwake(
      run: nat -> State, steps: nat -> Step, t: Thread, x: Task, position: nat, n: nat)
    requires FairRun(run, steps) && WaitsAt(run(n), t, x, position)
    ensures var w := run(n).worker; w.AtLock? || w.InSection? || w.Running?
  {
    InvAt(run, steps, n);
    var s := run(n);
    assert GoodCall(s, t, s.calls[t]);
    assert x in s.queue.tasks;
  }

  lemma {:induction false} WorkStepAdvances(s: State, o: Outcome, t: Thread, x: Task, position: nat)
    requires WorkReady(s) && WaitsAt(s, t, x, position)
    ensures var s' := DoWork(s, o);
            if !s.worker.InSection? then WaitsAt(s', t, x, position) && Rank(s'.worker) < Rank(s.worker)
            else if position == 0 then s'.worker == Running(x) && At(s', t, Blocked(x))
            else WaitsAt(s', t, x, position - 1)
  {
  }

  /** The worker takes its next step while the caller of the task at that position still waits. */
  lemma {:induction false} WaitedForWorkerActs(
      run: nat -> State, steps: nat -> Step, t: Thread, x: Task, position: nat, n: nat) returns (m: nat)
    requires FairRun(run, steps) && WaitsAt(run(n), t, x, position)
    ensures n < m
    ensures if !run(n).worker.InSection? then
              WaitsAt(run(m), t, x, position) && Rank(run(m).worker) < Rank(run(n).worker)
            else if position == 0 then run(m).worker == Running(x) && At(run(m), t, Blocked(x))
            else WaitsAt(run(m), t, x, position - 1)
  {
    WaitedForWorkerIsAwake(run, steps, t, x, position, n);
    var pc := run(n).worker;
    WaitingIsStable(t, x, position, pc);
    var k := Acts(run, steps, WaitsWhile(t, x, position, pc), Work, n);
    WorkStepAdvances(run(k), steps(k).outcome, t, x, position);
    m := k + 1;
  }

  lemma {:induction false} QueuedTaskSettles(
      run: nat -> State, steps: nat -> Step, t: Thread, x: Task, position: nat, n: nat) returns (m: nat)
    requires FairRun(run, steps) && WaitsAt(run(n), t, x, position)
    ensures n <= m && At(run(m), t, Blocked(x)) && x in run(m).settled
    decreases position, Rank(run(n).worker)
  {
    var k := WaitedForWorkerActs(run, steps, t, x, position, n);
    if !run(n).worker.InSection? {
      m := QueuedTaskSettles(run, steps, t, x, position, k);
    } else if position == 0 {
      m := RunningTaskSettles(run, steps, t, x, k);
    } else {
      m := QueuedTaskSettles(run, steps, t, x, position - 1, k);
    }
  }

  lemma {:induction false} BlockedTaskSettles(
      run: nat -> State, steps: nat -> Step, t: Thread, x: Task, n: nat) returns (m: nat)
    requires FairRun(run, steps) && At(run(n), t, Blocked(x))
    ensures n <= m && At(run(m), t, Blocked(x)) && x in run(m).settled
  {
    InvAt(run, steps, n);
    var s := run(n);
    assert GoodCall(s, t, s.calls[t]);
    if x in s.settled {
      m := n;
    } else if s.worker == Running(x) {
      m := RunningTaskSettles(run, steps, t, x, n);
    } else {
      assert x in s.queue.tasks;
      var position: nat :| position < |s.queue.tasks| && s.queue.tasks[position] == x;
      m := QueuedTaskSettles(run, steps, t, x, position, n);
    }
  }

  /** A promise holds what its own task produced in the step that finished it. */
  lemma {:induction false} SettledIsWhatTheTaskProduced(
      run: nat -> State, steps: nat -> Step, x: Task, n: nat) returns (k: nat)
    requires FairRun(run, steps) && x in run(n).settled
    ensures k < n && run(k).worker == Running(x) && steps(k) == WorkStep(run(n).settled[x])
  {
    assert n != 0;
    var s, step := run(n - 1), steps(n - 1);
    assert Follows(run, steps, n - 1);
    if step.WorkStep? && s.worker == Running(x) {
      k := n - 1;
    } else {
      OnlyFinishingSettles(s, step, x);
      k := SettledIsWhatTheTaskProduced(run, steps, x, n - 1);
    }
  }

  lemma {:induction false} OnlyFinishingSettles(s: State, step: Step, x: Task)
    requires Enabled(s, step) && x in Do(s, step).settled && !(step.WorkStep? && s.worker == Running(x))
    ensures x in s.settled && Do(s, step).settled[x] == s.settled[x]
  {
  }

  /**
   Every call ends: it throws before its task is queued, or it returns what the worker produced in step k, which
   is the step that finished the call's own task.
   */
  lemma {:induction false} EveryCallReturns(
      run: nat -> State, steps: nat -> Step, t: Thread, x: Task, n: nat) returns (m: nat, k: nat)
    requires FairRun(run, steps) && At(run(n), t, CallAtLock(x))
    ensures n < m
    ensures || At(run(m), t, Threw(x))
            || (k < m && run(k).worker == Running(x) && steps(k).WorkStep? &&
                At(run(m), t, Returned(x, steps(k).outcome)))
  {
    k := 0;
    m := CallActs(run, steps, t, CallAtLock(x), n);
    m := CallActs(run, steps, t, CallInSection(x), m);
    if At(run(m), t, Notifying(x)) {
      m := CallActs(run, steps, t, Notifying(x), m);
      m := BlockedTaskSettles(run, steps, t, x, m);
      m := CallActs(run, steps, t, Blocked(x), m);
      k := SettledIsWhatTheTaskProduced(run, steps, x, m);
    }
  }
}
