/**
 The call executor: any number of threads hand calls to one worker thread through a queue guarded by a
 mutex and a condition variable, and one controller thread starts and stops the worker.

 The protocol is a transition system over program counters.  Taking the mutex, the critical section that
 ends by releasing it, and the `notify_one` that follows are separate steps, so every interleaving in which
 a wakeup could be lost is a run of the model.
 */
module CallExecutor {
  import opened Wrappers
  import opened Sequences

  /** `Controller` is the thread that calls start and stop; it may make calls too, like any `Client`. */
  datatype Thread = Controller | Worker | Client(n: nat)

  /** What a task stores in its promise. */
  datatype Outcome = Value(value: int) | Exception(what: string)

  /** A queued task; `id` names the promise made for this one call. */
  datatype Task = Task(id: nat, caller: Thread)

  datatype Completion = Completion(task: Task, outcome: Outcome)

  // ---- The four critical sections, as functions of the fields the mutex guards ----

  datatype Shared = Shared(started: bool, stopping: bool, tasks: seq<Task>)

  datatype Decision = Sleep | Exit | Take(task: Task)

  /** start() up to the creation of the worker thread: the flag says whether one is created. */
  function StartSection(q: Shared): (Shared, bool) {
    if q.started then (q, false) else (q.(stopping := false), true)
  }

  /** The rest of start(), under the same lock, after `thread_` was assigned. */
  function StartedSection(q: Shared): Shared {
    q.(started := true)
  }

  /** stop(): the flag says whether there is a worker to notify and join. */
  function StopSection(q: Shared): (Shared, bool) {
    if !q.started then (q, false) else (q.(stopping := true), true)
  }

  /** enqueue(): the flag says whether the task was accepted; otherwise the call throws. */
  function EnqueueSection(q: Shared, task: Task): (Shared, bool) {
    if !q.started || q.stopping then (q, false) else (q.(tasks := q.tasks + [task]), true)
  }

  /** One evaluation of the wait predicate in run() and, when it holds, the code after the wait. */
  function TakeSection(q: Shared): (Shared, Decision) {
    if !(q.stopping || q.tasks != []) then (q, Sleep)
    else if q.stopping && q.tasks == [] then (q, Exit)
    else (q.(tasks := q.tasks[1..]), Take(q.tasks[0]))
  }

  // ---- States ----

  datatype WorkerPc = NoThread | AtLock | InSection | Asleep | Running(task: Task) | Exited

  datatype ControllerPc =
    | Resting
    | StartAtLock | StartInSection | StartAssigning
    | StopAtLock | StopInSection | StopNotifying | StopJoining | StopClearing

  datatype CallPc =
    | CallAtLock(task: Task)
    | CallInSection(task: Task)
    | Notifying(task: Task)
    | Blocked(task: Task)
    | Returned(task: Task, outcome: Outcome)
    | Threw(task: Task)

  /** What std::thread::get_id answers: every worker thread ever created has its own number. */
  datatype ThreadId = CallerId(t: Thread) | WorkerId(n: nat)

  /** A call that throws because its caller's id is the one `thread_` holds; the worker's position shows the task. */
  datatype Refusal = Refusal(caller: Thread, worker: WorkerPc)

  datatype State = State(
    queue: Shared,
    thread: Option<ThreadId>,          // the thread `thread_` names, if any
    spawned: nat,                      // how many worker threads were created
    mutex: Option<Thread>,
    worker: WorkerPc,
    controller: ControllerPc,
    calls: map<Thread, CallPc>,        // the latest call of each thread that ever made one
    settled: map<Task, Outcome>,       // the promises that hold a value or an exception
    nextId: nat,
    accepted: seq<Task>,               // history: tasks in the order they entered the queue
    executed: seq<Completion>,         // history: tasks in the order they finished
    rejected: set<Task>,               // history: tasks whose call threw in enqueue
    refused: seq<Refusal>              // history: calls refused before they made a task
  )

  const INITIAL := State(Shared(false, false, []), None, 0, None, NoThread, Resting, map[], map[], 0, [], [], {}, [])

  /** The id of the thread that is running as `t`. */
  function IdOf(s: State, t: Thread): ThreadId {
    if t == Worker then WorkerId(s.spawned) else CallerId(t)
  }

  /** The thread is not inside a call. */
  predicate Free(s: State, t: Thread) {
    t in s.calls ==> s.calls[t].Returned? || s.calls[t].Threw?
  }

  // ---- Steps ----

  datatype Step =
    | BeginCall(t: Thread)
    | CallStep(t: Thread)
    | BeginStart
    | BeginStop
    | ControlStep
    | WorkStep(outcome: Outcome)       // the outcome matters only to the step that finishes a task
    | SpuriousWake
    | Pause

  predicate Enabled(s: State, step: Step) {
    match step
    case BeginCall(t) =>
      Free(s, t) && (t == Controller ==> s.controller.Resting?) && (t == Worker ==> s.worker.Running?)
    case CallStep(t) => t in s.calls && CallReady(s, s.calls[t])
    case BeginStart => s.controller.Resting? && Free(s, Controller)
    case BeginStop => s.controller.Resting? && Free(s, Controller)
    case ControlStep => ControlReady(s)
    case WorkStep(_) => WorkReady(s)
    case SpuriousWake => s.worker.Asleep?
    case Pause => true
  }

  predicate CallReady(s: State, pc: CallPc) {
    match pc
    case CallAtLock(_) => s.mutex.None?
    case CallInSection(_) => true
    case Notifying(_) => true
    case Blocked(task) => task in s.settled
    case _ => false
  }

  predicate ControlReady(s: State) {
    match s.controller
    case Resting => false
    case StartAtLock => s.mutex.None?
    case StopAtLock => s.mutex.None?
    case StopJoining => s.worker.Exited?
    case _ => true
  }

  predicate WorkReady(s: State) {
    match s.worker
    case AtLock => s.mutex.None?
    case InSection => true
    case Running(_) => Free(s, Worker)
    case _ => false
  }

  function Do(s: State, step: Step): State
    requires Enabled(s, step)
  {
    match step
    case BeginCall(t) => DoBeginCall(s, t)
    case CallStep(t) => DoCall(s, t)
    case BeginStart => s.(controller := StartAtLock)
    case BeginStop => s.(controller := StopAtLock)
    case ControlStep => DoControl(s)
    case WorkStep(outcome) => DoWork(s, outcome)
    case SpuriousWake => s.(worker := AtLock)
    case Pause => s
  }

  /** call(): a caller whose id `thread_` holds is refused at once; any other makes a promise and goes to enqueue. */
  function DoBeginCall(s: State, t: Thread): State {
    if s.thread == Some(IdOf(s, t)) then s.(refused := s.refused + [Refusal(t, s.worker)])
    else s.(calls := s.calls[t := CallAtLock(Task(s.nextId, t))], nextId := s.nextId + 1)
  }

  function DoCall(s: State, t: Thread): State
    requires Enabled(s, CallStep(t))
  {
    match s.calls[t]
    case CallAtLock(task) => s.(mutex := Some(t), calls := s.calls[t := CallInSection(task)])
    case CallInSection(task) =>
      var (queue, ok) := EnqueueSection(s.queue, task);
      if ok then
        s.(queue := queue, mutex := None, calls := s.calls[t := Notifying(task)], accepted := s.accepted + [task])
      else
        s.(mutex := None, calls := s.calls[t := Threw(task)], rejected := s.rejected + {task})
    case Notifying(task) => NotifyOne(s).(calls := s.calls[t := Blocked(task)])
    case Blocked(task) => s.(calls := s.calls[t := Returned(task, s.settled[task])])
  }

  /** Wakes the worker when it is waiting, the only thread that ever waits; otherwise the notification is lost. */
  function NotifyOne(s: State): State {
    if s.worker.Asleep? then s.(worker := AtLock) else s
  }

  function DoControl(s: State): State
    requires ControlReady(s)
  {
    match s.controller
    case StartAtLock => s.(mutex := Some(Controller), controller := StartInSection)
    case StartInSection =>
      var (queue, spawn) := StartSection(s.queue);
      if spawn then s.(queue := queue, worker := AtLock, spawned := s.spawned + 1, controller := StartAssigning)
      else s.(queue := queue, mutex := None, controller := Resting)
    case StartAssigning =>
      s.(thread := Some(WorkerId(s.spawned)), queue := StartedSection(s.queue), mutex := None, controller := Resting)
    case StopAtLock => s.(mutex := Some(Controller), controller := StopInSection)
    case StopInSection =>
      var (queue, running) := StopSection(s.queue);
      s.(queue := queue, mutex := None, controller := if running then StopNotifying else Resting)
    case StopNotifying => NotifyOne(s).(controller := StopJoining)
    case StopJoining => s.(worker := NoThread, thread := None, controller := StopClearing)
    case StopClearing => s.(queue := s.queue.(started := false), controller := Resting)
  }

  function DoWork(s: State, outcome: Outcome): State
    requires WorkReady(s)
  {
    match s.worker
    case AtLock => s.(mutex := Some(Worker), worker := InSection)
    case InSection =>
      var (queue, decision) := TakeSection(s.queue);
      s.(queue := queue, mutex := None,
         worker := match decision case Sleep => Asleep case Exit => Exited case Take(task) => Running(task))
    case Running(task) =>
      s.(worker := AtLock, settled := s.settled[task := outcome], executed := s.executed + [Completion(task, outcome)])
  }

  // ---- Runs ----

  /** `steps` can be taken one after the other from `s`. */
  predicate CanRun(s: State, steps: seq<Step>)
    decreases |steps|
  {
    steps == [] || (Enabled(s, steps[0]) && CanRun(Do(s, steps[0]), steps[1..]))
  }

  function Run(s: State, steps: seq<Step>): State
    requires CanRun(s, steps)
    decreases |steps|
  {
    if steps == [] then s else Run(Do(s, steps[0]), steps[1..])
  }

  // ---- What every step keeps ----

  function InFlight(s: State): seq<Task> {
    if s.worker.Running? then [s.worker.task] else []
  }

  function TasksOf(done: seq<Completion>): seq<Task> {
    seq(|done|, i requires 0 <= i < |done| => done[i].task)
  }

  /** The accepted tasks whose promise is not set yet, in the order the worker will run them. */
  function Outstanding(s: State): seq<Task> {
    InFlight(s) + s.queue.tasks
  }

  predicate ControllerHolds(pc: ControllerPc) {
    pc.StartInSection? || pc.StartAssigning? || pc.StopInSection?
  }

  /** The thread is inside a critical section. */
  predicate Holds(s: State, t: Thread) {
    || (t == Controller && ControllerHolds(s.controller))
    || (t == Worker && s.worker.InSection?)
    || (t in s.calls && s.calls[t].CallInSection?)
  }

  ghost predicate MutualExclusion(s: State) {
    forall t :: Holds(s, t) <==> s.mutex == Some(t)
  }

  ghost predicate FifoInv(s: State) {
    && s.accepted == TasksOf(s.executed) + Outstanding(s)
    && Distinct(s.accepted)
    && forall x :: x in s.accepted ==> x.id < s.nextId && x.caller != Worker
  }

  /** How the worker thread, the flags and the controller's position go together. */
  predicate LifecycleInv(s: State) {
    && (s.worker.NoThread? || s.worker.Exited? ==> s.queue.tasks == [])
    && (s.worker.Exited? ==> s.queue.stopping)
    && match s.controller {
         case StartAssigning => !s.queue.started && !s.queue.stopping && s.worker.AtLock? && s.queue.tasks == []
         case StopNotifying => s.queue.started && s.queue.stopping && !s.worker.NoThread?
         case StopJoining => s.queue.started && s.queue.stopping && !s.worker.NoThread? && !s.worker.Asleep?
         case StopClearing => s.queue.started && s.queue.stopping && s.worker.NoThread?
         case _ =>
           && (s.queue.started <==> !s.worker.NoThread?)
           && (s.queue.started ==> !s.queue.stopping)
       }
  }

  /** `thread_` names the worker there is, except while start() has created it and not yet assigned it. */
  predicate ThreadInv(s: State) {
    && s.thread == (if s.worker.NoThread? || s.controller.StartAssigning? then None else Some(WorkerId(s.spawned)))
    && forall r :: r in s.refused ==> r.caller == Worker && r.worker.Running?
  }

  ghost predicate CallInv(s: State) {
    && (forall t :: t in s.calls ==> t != Worker && GoodCall(s, t, s.calls[t]))
    && (forall x :: x in Outstanding(s) ==> WaitsFor(s, x))
    && (forall x :: x in s.rejected ==> x.id < s.nextId && x !in s.accepted)
    && (!Free(s, Controller) ==> s.controller.Resting?)
  }

  ghost predicate GoodCall(s: State, t: Thread, pc: CallPc) {
    && pc.task.caller == t
    && pc.task.id < s.nextId
    && match pc {
         case CallAtLock(x) => x !in s.accepted && x !in s.rejected
         case CallInSection(x) => x !in s.accepted && x !in s.rejected
         case Notifying(x) => x in s.accepted
         case Blocked(x) => x in s.accepted
         case Returned(x, o) => Completion(x, o) in s.executed
         case Threw(x) => x in s.rejected
       }
  }

  /** The thread that made the call is still inside it, past the queue. */
  predicate WaitsFor(s: State, x: Task) {
    x.caller in s.calls && (s.calls[x.caller] == Notifying(x) || s.calls[x.caller] == Blocked(x))
  }

  ghost predicate SettledInv(s: State) {
    && (forall x :: x in s.settled <==> x in TasksOf(s.executed))
    && (forall c :: c in s.executed ==> c.task in s.settled && s.settled[c.task] == c.outcome)
  }

  /** While the worker sleeps, every queued task and a pending stop still have their own notify to come. */
  predicate WakeInv(s: State) {
    s.worker.Asleep? ==>
      && (forall x :: x in s.queue.tasks ==> x.caller in s.calls && s.calls[x.caller] == Notifying(x))
      && (s.queue.stopping ==> s.controller.StopNotifying?)
  }

  ghost predicate Inv(s: State) {
    MutualExclusion(s) && FifoInv(s) && LifecycleInv(s) && ThreadInv(s) && CallInv(s) && SettledInv(s) && WakeInv(s)
  }

  // ---- One lemma per kind of step ----

  lemma {:induction false} TasksOfSnoc(done: seq<Completion>, c: Completion)
    ensures TasksOf(done + [c]) == TasksOf(done) + [c.task]
  {
  }

  lemma {:induction false} OutstandingIsUnsettled(s: State, x: Task)
    requires FifoInv(s) && x in Outstanding(s)
    ensures x !in TasksOf(s.executed)
  {
    var done := TasksOf(s.executed);
    var k :| 0 <= k < |Outstanding(s)| && Outstanding(s)[k] == x;
    forall i | 0 <= i < |done| ensures done[i] != x {
      assert s.accepted[i] != s.accepted[|done| + k];
    }
  }

  lemma {:induction false} ReleaseKeepsExclusion(s: State, s': State, t: Thread)
    requires MutualExclusion(s) && Holds(s, t)
    requires s'.mutex == None && !Holds(s', t)
    requires forall u :: u != t && Holds(s', u) ==> Holds(s, u)
    ensures MutualExclusion(s')
  {
    assert s.mutex == Some(t);
  }

  /** A step that changes at most the call of `t`, and only adds to the histories, keeps every other call good. */
  lemma {:induction false} OtherCallsStayGood(s: State, s': State, t: Thread)
    requires forall u :: u in s.calls ==> u != Worker && GoodCall(s, u, s.calls[u])
    requires forall u :: u in s'.calls && u != t ==> u in s.calls && s'.calls[u] == s.calls[u]
    requires t in s'.calls ==> t != Worker && GoodCall(s', t, s'.calls[t])
    requires s.accepted == s'.accepted && s.rejected == s'.rejected
    requires s.executed <= s'.executed && s.nextId <= s'.nextId
    ensures forall u :: u in s'.calls ==> u != Worker && GoodCall(s', u, s'.calls[u])
  {
  }

  lemma {:induction false} RefusedCallKeeps(s: State, t: Thread)
    requires Inv(s) && Enabled(s, BeginCall(t)) && s.thread == Some(IdOf(s, t))
    ensures Inv(Do(s, BeginCall(t)))
  {
    assert Outstanding(Do(s, BeginCall(t))) == Outstanding(s);
  }

  lemma {:induction false} BeginCallKeepsCalls(s: State, t: Thread)
    requires FifoInv(s) && CallInv(s) && Enabled(s, BeginCall(t)) && s.thread != Some(IdOf(s, t)) && t != Worker
    ensures CallInv(Do(s, BeginCall(t)))
  {
    var s' := Do(s, BeginCall(t));
    assert Outstanding(s') == Outstanding(s);
    OtherCallsStayGood(s, s', t);
    forall x | x in Outstanding(s) ensures WaitsFor(s', x) {
      assert WaitsFor(s, x);
    }
  }

  lemma {:induction false} BeginCallKeeps(s: State, t: Thread)
    requires Inv(s) && Enabled(s, BeginCall(t)) && s.thread != Some(IdOf(s, t))
    ensures Inv(Do(s, BeginCall(t)))
  {
    var s' := Do(s, BeginCall(t));
    assert t != Worker;
    BeginCallKeepsCalls(s, t);
    assert Outstanding(s') == Outstanding(s);
    assert forall u :: Holds(s', u) <==> Holds(s, u);
  }

  lemma {:induction false} CallTakesLockKeepsCalls(s: State, t: Thread)
    requires CallInv(s) && Enabled(s, CallStep(t)) && s.calls[t].CallAtLock?
    ensures CallInv(Do(s, CallStep(t)))
  {
    var s' := Do(s, CallStep(t));
    assert Outstanding(s') == Outstanding(s);
    assert GoodCall(s, t, s.calls[t]);
    OtherCallsStayGood(s, s', t);
    forall x | x in Outstanding(s') ensures WaitsFor(s', x) {
      assert WaitsFor(s, x);
    }
  }

  lemma {:induction false} CallTakesLockKeeps(s: State, t: Thread)
    requires Inv(s) && Enabled(s, CallStep(t)) && s.calls[t].CallAtLock?
    ensures Inv(Do(s, CallStep(t)))
  {
    var s' := Do(s, CallStep(t));
    CallTakesLockKeepsCalls(s, t);
    assert Outstanding(s') == Outstanding(s);
    forall u ensures Holds(s', u) <==> u == t {
      assert !Holds(s, u);
    }
  }

  lemma {:induction false} CallAcceptedKeeps(s: State, t: Thread)
    requires Inv(s) && Enabled(s, CallStep(t)) && s.calls[t].CallInSection?
    requires s.queue.started && !s.queue.stopping
    ensures Inv(Do(s, CallStep(t)))
  {
    var s' := Do(s, CallStep(t));
    ReleaseKeepsExclusion(s, s', t);
    AcceptedKeepsFifo(s, t);
    AcceptedCallsStayGood(s, t);
    assert SettledInv(s');
    assert WakeInv(s') by { AcceptedCallersWait(s, t); }
    assert CallInv(s') by { AcceptedCallersWait(s, t); }
  }

  lemma {:induction false} AcceptedKeepsFifo(s: State, t: Thread)
    requires FifoInv(s) && Enabled(s, CallStep(t)) && s.calls[t].CallInSection?
    requires s.queue.started && !s.queue.stopping && t != Worker && GoodCall(s, t, s.calls[t])
    ensures FifoInv(Do(s, CallStep(t)))
  {
    var s' := Do(s, CallStep(t));
    assert Outstanding(s') == Outstanding(s) + [s.calls[t].task];
  }

  lemma {:induction false} AcceptedCallersWait(s: State, t: Thread)
    requires Inv(s) && Enabled(s, CallStep(t)) && s.calls[t].CallInSection?
    requires s.queue.started && !s.queue.stopping
    ensures var s' := Do(s, CallStep(t));
            && (forall x :: x in Outstanding(s') ==> WaitsFor(s', x))
            && (forall x :: x in s'.queue.tasks ==> x in s.queue.tasks || s'.calls[t] == Notifying(x))
            && (forall x :: x in s'.rejected ==> x !in s'.accepted)
  {
    var s' := Do(s, CallStep(t));
    var task := s.calls[t].task;
    assert GoodCall(s, t, s.calls[t]);
    assert Outstanding(s') == Outstanding(s) + [task];
    forall x | x in Outstanding(s') ensures WaitsFor(s', x) {
      assert x in Outstanding(s) || x == task;
    }
  }

  lemma {:induction false} AcceptedCallsStayGood(s: State, t: Thread)
    requires Inv(s) && Enabled(s, CallStep(t)) && s.calls[t].CallInSection?
    requires s.queue.started && !s.queue.stopping
    ensures var s' := Do(s, CallStep(t));
            forall u :: u in s'.calls ==> u != Worker && GoodCall(s', u, s'.calls[u])
  {
    var s' := Do(s, CallStep(t));
    assert GoodCall(s, t, s.calls[t]);
    forall u | u in s'.calls ensures u != Worker && GoodCall(s', u, s'.calls[u]) {
      assert u in s.calls && GoodCall(s, u, s.calls[u]);
    }
  }

  lemma {:induction false} CallRejectedKeepsCalls(s: State, t: Thread)
    requires CallInv(s) && Enabled(s, CallStep(t)) && s.calls[t].CallInSection?
    requires !s.queue.started || s.queue.stopping
    ensures CallInv(Do(s, CallStep(t)))
  {
    var s' := Do(s, CallStep(t));
    assert GoodCall(s, t, s.calls[t]);
    assert Outstanding(s') == Outstanding(s);
    forall u | u in s'.calls ensures u != Worker && GoodCall(s', u, s'.calls[u]) {
      assert u in s.calls && GoodCall(s, u, s.calls[u]);
    }
    forall x | x in Outstanding(s') ensures WaitsFor(s', x) {
      assert WaitsFor(s, x);
    }
  }

  lemma {:induction false} CallRejectedKeeps(s: State, t: Thread)
    requires Inv(s) && Enabled(s, CallStep(t)) && s.calls[t].CallInSection?
    requires !s.queue.started || s.queue.stopping
    ensures Inv(Do(s, CallStep(t)))
  {
    var s' := Do(s, CallStep(t));
    ReleaseKeepsExclusion(s, s', t);
    CallRejectedKeepsCalls(s, t);
    assert Outstanding(s') == Outstanding(s);
    assert s.worker.Asleep? ==> forall x :: x in s.queue.tasks ==> x.caller != t;
  }

  lemma {:induction false} NotifyKeeps(s: State)
    requires Inv(s)
    ensures Inv(NotifyOne(s))
  {
    assert Outstanding(NotifyOne(s)) == Outstanding(s);
  }

  lemma {:induction false} SettledIsExecuted(s: State, x: Task)
    requires SettledInv(s) && x in s.settled
    ensures Completion(x, s.settled[x]) in s.executed
  {
    var i :| 0 <= i < |s.executed| && TasksOf(s.executed)[i] == x;
    assert s.executed[i] in s.executed;
  }

  /** One caller is moved between two points outside the critical section. */
  function Moved(s: State, t: Thread, pc: CallPc): State {
    s.(calls := s.calls[t := pc])
  }

  ghost predicate Movable(s: State, t: Thread, pc: CallPc) {
    && t in s.calls && !s.calls[t].CallInSection? && !pc.CallInSection? && !Free(s, t)
    && GoodCall(s, t, pc)
    && forall x :: x in Outstanding(s) && x.caller == t ==> pc == Blocked(x)
  }

  lemma {:induction false} MovingKeepsExclusion(s: State, t: Thread, pc: CallPc)
    requires MutualExclusion(s) && Movable(s, t, pc)
    ensures MutualExclusion(Moved(s, t, pc))
  {
    assert forall u :: Holds(Moved(s, t, pc), u) <==> Holds(s, u);
  }

  lemma {:induction false} MovingKeepsCalls(s: State, t: Thread, pc: CallPc)
    requires CallInv(s) && Movable(s, t, pc)
    ensures CallInv(Moved(s, t, pc))
  {
    var s' := Moved(s, t, pc);
    assert Outstanding(s') == Outstanding(s);
    OtherCallsStayGood(s, s', t);
    forall x | x in Outstanding(s') ensures WaitsFor(s', x) {
      assert WaitsFor(s, x);
    }
  }

  lemma {:induction false} MovingACallKeeps(s: State, t: Thread, pc: CallPc)
    requires Inv(s) && Movable(s, t, pc)
    requires s.worker.Asleep? ==> forall x :: x in s.queue.tasks ==> x.caller != t
    ensures Inv(Moved(s, t, pc))
  {
    MovingKeepsExclusion(s, t, pc);
    MovingKeepsCalls(s, t, pc);
    assert Outstanding(Moved(s, t, pc)) == Outstanding(s);
  }

  lemma {:induction false} CallNotifiesKeeps(s: State, t: Thread)
    requires Inv(s) && Enabled(s, CallStep(t)) && s.calls[t].Notifying?
    ensures Inv(Do(s, CallStep(t)))
  {
    var woken := NotifyOne(s);
    NotifyKeeps(s);
    assert GoodCall(s, t, s.calls[t]);
    forall x | x in Outstanding(woken) && x.caller == t ensures s.calls[t].task == x {
      assert WaitsFor(woken, x);
    }
    MovingACallKeeps(woken, t, Blocked(s.calls[t].task));
  }

  lemma {:induction false} CallReturnsKeeps(s: State, t: Thread)
    requires Inv(s) && Enabled(s, CallStep(t)) && s.calls[t].Blocked?
    ensures Inv(Do(s, CallStep(t)))
  {
    var task := s.calls[t].task;
    SettledIsExecuted(s, task);
    assert GoodCall(s, t, s.calls[t]);
    forall x | x in Outstanding(s) ensures x.caller != t {
      assert WaitsFor(s, x);
      OutstandingIsUnsettled(s, x);
    }
    assert forall x :: x in s.queue.tasks ==> x in Outstanding(s);
    MovingACallKeeps(s, t, Returned(task, s.settled[task]));
  }

  lemma {:induction false} ControllerTakesLockKeeps(s: State)
    requires Inv(s) && Enabled(s, ControlStep) && (s.controller.StartAtLock? || s.controller.StopAtLock?)
    ensures Inv(Do(s, ControlStep))
  {
    assert Outstanding(Do(s, ControlStep)) == Outstanding(s);
  }

  lemma {:induction false} ControllerInSectionKeeps(s: State)
    requires Inv(s) && Enabled(s, ControlStep) && ControllerHolds(s.controller)
    ensures Inv(Do(s, ControlStep))
  {
    var s' := Do(s, ControlStep);
    assert Outstanding(s') == Outstanding(s);
    assert Free(s, Controller);
    assert Holds(s, Controller);
    if s'.mutex.None? {
      ReleaseKeepsExclusion(s, s', Controller);
    } else {
      assert forall t :: Holds(s', t) <==> Holds(s, t);
    }
  }

  lemma {:induction false} ControllerOutsideKeeps(s: State)
    requires Inv(s) && Enabled(s, ControlStep)
    requires s.controller.StopNotifying? || s.controller.StopJoining? || s.controller.StopClearing?
    ensures Inv(Do(s, ControlStep))
  {
    var s' := Do(s, ControlStep);
    assert Outstanding(s') == Outstanding(s);
    assert forall t :: Holds(s', t) <==> Holds(s, t);
  }

  lemma {:induction false} WorkerTakesLockKeeps(s: State, o: Outcome)
    requires Inv(s) && Enabled(s, WorkStep(o)) && s.worker.AtLock?
    ensures Inv(Do(s, WorkStep(o)))
  {
    var s' := Do(s, WorkStep(o));
    assert !Holds(s, Controller);
    assert Outstanding(s') == Outstanding(s);
  }

  lemma {:induction false} WorkerWaitsOrExitsKeeps(s: State, o: Outcome)
    requires Inv(s) && Enabled(s, WorkStep(o)) && s.worker.InSection? && s.queue.tasks == []
    ensures Inv(Do(s, WorkStep(o)))
  {
    var s' := Do(s, WorkStep(o));
    assert Outstanding(s') == Outstanding(s);
    ReleaseKeepsExclusion(s, s', Worker);
  }

  lemma {:induction false} WorkerTakesTaskKeeps(s: State, o: Outcome)
    requires Inv(s) && Enabled(s, WorkStep(o)) && s.worker.InSection? && s.queue.tasks != []
    ensures Inv(Do(s, WorkStep(o)))
  {
    var s' := Do(s, WorkStep(o));
    assert Outstanding(s') == Outstanding(s);
    ReleaseKeepsExclusion(s, s', Worker);
  }

  lemma {:induction false} FinishingKeepsFifo(s: State, o: Outcome)
    requires FifoInv(s) && Enabled(s, WorkStep(o)) && s.worker.Running?
    ensures FifoInv(Do(s, WorkStep(o)))
    ensures Outstanding(s) == [s.worker.task] + Outstanding(Do(s, WorkStep(o)))
  {
    var s' := Do(s, WorkStep(o));
    TasksOfSnoc(s.executed, Completion(s.worker.task, o));
    assert Outstanding(s) == [s.worker.task] + Outstanding(s');
    assert s'.accepted == TasksOf(s'.executed) + Outstanding(s');
  }

  lemma {:induction false} FinishingKeepsSettled(s: State, o: Outcome)
    requires FifoInv(s) && SettledInv(s) && Enabled(s, WorkStep(o)) && s.worker.Running?
    ensures SettledInv(Do(s, WorkStep(o)))
  {
    TasksOfSnoc(s.executed, Completion(s.worker.task, o));
    assert s.worker.task in Outstanding(s);
    OutstandingIsUnsettled(s, s.worker.task);
    assert forall c :: c in s.executed ==> c.task in s.settled;
  }

  lemma {:induction false} FinishingKeepsCalls(s: State, o: Outcome)
    requires FifoInv(s) && CallInv(s) && Enabled(s, WorkStep(o)) && s.worker.Running?
    ensures CallInv(Do(s, WorkStep(o)))
  {
    var s' := Do(s, WorkStep(o));
    FinishingKeepsFifo(s, o);
    forall x | x in Outstanding(s') ensures WaitsFor(s', x) {
      assert x in Outstanding(s);
    }
    forall u | u in s'.calls ensures GoodCall(s', u, s'.calls[u]) {
      assert GoodCall(s, u, s.calls[u]);
    }
  }

  lemma {:induction false} WorkerFinishesKeeps(s: State, o: Outcome)
    requires Inv(s) && Enabled(s, WorkStep(o)) && s.worker.Running?
    ensures Inv(Do(s, WorkStep(o)))
  {
    FinishingKeepsFifo(s, o);
    FinishingKeepsSettled(s, o);
    FinishingKeepsCalls(s, o);
    assert forall t :: Holds(Do(s, WorkStep(o)), t) <==> Holds(s, t);
  }

  lemma {:induction false} CallStepKeeps(s: State, t: Thread)
    requires Inv(s) && Enabled(s, CallStep(t))
    ensures Inv(Do(s, CallStep(t)))
  {
    match s.calls[t]
    case CallAtLock(_) => CallTakesLockKeeps(s, t);
    case CallInSection(_) =>
      if s.queue.started && !s.queue.stopping {
        CallAcceptedKeeps(s, t);
      } else {
        CallRejectedKeeps(s, t);
      }
    case Notifying(_) => CallNotifiesKeeps(s, t);
    case Blocked(_) => CallReturnsKeeps(s, t);
  }

  lemma {:induction false} ControlStepKeeps(s: State)
    requires Inv(s) && Enabled(s, ControlStep)
    ensures Inv(Do(s, ControlStep))
  {
    if ControllerHolds(s.controller) {
      ControllerInSectionKeeps(s);
    } else if s.controller.StartAtLock? || s.controller.StopAtLock? {
      ControllerTakesLockKeeps(s);
    } else {
      ControllerOutsideKeeps(s);
    }
  }

  lemma {:induction false} WorkStepKeeps(s: State, o: Outcome)
    requires Inv(s) && Enabled(s, WorkStep(o))
    ensures Inv(Do(s, WorkStep(o)))
  {
    match s.worker
    case AtLock => WorkerTakesLockKeeps(s, o);
    case InSection =>
      if s.queue.tasks == [] {
        WorkerWaitsOrExitsKeeps(s, o);
      } else {
        WorkerTakesTaskKeeps(s, o);
      }
    case Running(_) => WorkerFinishesKeeps(s, o);
  }

  lemma {:induction false} StepKeeps(s: State, step: Step)
    requires Inv(s) && Enabled(s, step)
    ensures Inv(Do(s, step))
  {
    match step
    case BeginCall(t) =>
      if s.thread == Some(IdOf(s, t)) {
        RefusedCallKeeps(s, t);
      } else {
        BeginCallKeeps(s, t);
      }
    case CallStep(t) => CallStepKeeps(s, t);
    case ControlStep => ControlStepKeeps(s);
    case WorkStep(o) => WorkStepKeeps(s, o);
    case _ => assert Outstanding(Do(s, step)) == Outstanding(s);
  }

  /** Every state of every run, over any number of callers and restarts, satisfies the invariant. */
  lemma {:induction false} RunKeeps(s: State, steps: seq<Step>)
    requires Inv(s) && CanRun(s, steps)
    ensures Inv(Run(s, steps))
    decreases |steps|
  {
    if steps == [] {
    } else {
      StepKeeps(s, steps[0]);
      RunKeeps(Do(s, steps[0]), steps[1..]);
    }
  }

  // ---- What holds of every run ----

  ghost predicate Reachable(s: State) {
    exists steps :: CanRun(INITIAL, steps) && Run(INITIAL, steps) == s
  }

  lemma {:induction false} ReachableInv(s: State)
    requires Reachable(s)
    ensures Inv(s)
  {
    var steps :| CanRun(INITIAL, steps) && Run(INITIAL, steps) == s;
    RunKeeps(INITIAL, steps);
  }

  /** Two critical sections never overlap. */
  lemma {:induction false} SectionsNeverOverlap(s: State, t: Thread, u: Thread)
    requires Reachable(s)
    requires Holds(s, t) && Holds(s, u)
    ensures t == u
  {
    ReachableInv(s);
    assert s.mutex == Some(t);
  }

  /** Finished tasks, the running one and the queue are the accepted tasks in acceptance order, each once. */
  lemma {:induction false} ExactlyOnceInOrder(s: State)
    requires Reachable(s)
    ensures s.accepted == TasksOf(s.executed) + InFlight(s) + s.queue.tasks
    ensures Distinct(s.accepted)
    ensures forall x :: x in s.rejected ==> x !in s.accepted && x !in s.settled
  {
    ReachableInv(s);
    assert TasksOf(s.executed) + InFlight(s) + s.queue.tasks == TasksOf(s.executed) + Outstanding(s);
  }

  /** The later state extends every history of the earlier one and leaves its set promises alone. */
  ghost predicate Extends(s: State, s': State) {
    && s.accepted <= s'.accepted
    && s.executed <= s'.executed
    && s.rejected <= s'.rejected
    && s.refused <= s'.refused
    && forall x :: x in s.settled ==> x in s'.settled && s'.settled[x] == s.settled[x]
  }

  lemma {:induction false} FinishingExtends(s: State, o: Outcome)
    requires FifoInv(s) && SettledInv(s) && Enabled(s, WorkStep(o)) && s.worker.Running?
    ensures Extends(s, Do(s, WorkStep(o)))
  {
    assert s.worker.task in Outstanding(s);
    OutstandingIsUnsettled(s, s.worker.task);
  }

  /** Every other step adds at most one task to a history. */
  lemma {:induction false} OtherStepsExtend(s: State, step: Step)
    requires Enabled(s, step) && !(step.WorkStep? && s.worker.Running?)
    ensures Extends(s, Do(s, step))
  {
    var s' := Do(s, step);
    assert s'.executed == s.executed && s'.settled == s.settled;
  }

  lemma {:induction false} StepExtends(s: State, step: Step)
    requires FifoInv(s) && SettledInv(s) && Enabled(s, step)
    ensures Extends(s, Do(s, step))
  {
    if step.WorkStep? && s.worker.Running? {
      FinishingExtends(s, step.outcome);
    } else {
      OtherStepsExtend(s, step);
    }
  }

  /** A promise, once set, keeps its outcome, and no later step rewrites what was accepted or executed. */
  lemma {:induction false} PromisesAreSetOnce(s: State, steps: seq<Step>)
    requires Inv(s) && CanRun(s, steps)
    ensures Extends(s, Run(s, steps))
    decreases |steps|
  {
    if steps == [] {
    } else {
      StepKeeps(s, steps[0]);
      StepExtends(s, steps[0]);
      PromisesAreSetOnce(Do(s, steps[0]), steps[1..]);
    }
  }

  /** A worker asleep beside work or a stop request is about to be notified by a step that is enabled now. */
  lemma {:induction false} NoLostWakeup(s: State)
    requires Reachable(s)
    requires s.worker.Asleep? && (s.queue.stopping || s.queue.tasks != [])
    ensures exists step ::
              && (step == ControlStep || (step.CallStep? && step.t in s.calls))
              && Enabled(s, step)
              && Do(s, step).worker.AtLock?
  {
    ReachableInv(s);
    if s.queue.stopping {
      assert Enabled(s, ControlStep) && Do(s, ControlStep).worker.AtLock?;
    } else {
      var step := CallStep(s.queue.tasks[0].caller);
      assert Enabled(s, step) && Do(s, step).worker.AtLock?;
    }
  }

  /** With no worker thread, everything ever accepted has run and its promise is set. */
  predicate Drained(s: State) {
    && s.worker.NoThread?
    && s.queue.tasks == []
    && s.accepted == TasksOf(s.executed)
    && forall x :: x in s.accepted ==> x in s.settled
  }

  lemma {:induction false} NoThreadMeansDrained(s: State)
    requires FifoInv(s) && SettledInv(s) && s.worker.NoThread? && s.queue.tasks == []
    ensures Drained(s)
  {
    assert TasksOf(s.executed) + Outstanding(s) == TasksOf(s.executed);
  }

  /** When the controller has joined, and whenever no worker is started, nothing accepted is left undone. */
  lemma {:induction false} StopDrains(s: State)
    requires Reachable(s)
    requires s.controller.StopClearing? || (s.controller.Resting? && !s.queue.started)
    ensures Drained(s)
  {
    ReachableInv(s);
    NoThreadMeansDrained(s);
  }

  /** start() on a stopped executor gives the new worker an empty queue and accepts calls again. */
  lemma {:induction false} RestartIsClean(s: State)
    requires Reachable(s)
    requires s.controller.StartInSection? && !s.queue.started
    ensures Drained(s)
    ensures var spawned := Do(s, ControlStep);
            && spawned.worker.AtLock? && Enabled(spawned, ControlStep)
            && Do(spawned, ControlStep).worker.AtLock? && Do(spawned, ControlStep).queue == Shared(true, false, [])
            && Do(spawned, ControlStep).thread == Some(WorkerId(s.spawned + 1))
  {
    ReachableInv(s);
    NoThreadMeansDrained(s);
  }

  /** Whenever a task runs, across any number of restarts, `thread_` names the thread that runs it. */
  lemma {:induction false} ThreadNamesTheRunningWorker(s: State)
    requires Reachable(s) && s.worker.Running?
    ensures s.thread == Some(IdOf(s, Worker)) && Free(s, Worker)
  {
    ReachableInv(s);
  }

  /**
   The check in call() fires exactly for the worker's own calls: these are recorded as refused and change nothing
   else, and every other call goes on to the queue.
   */
  lemma {:induction false} ExactlyTheWorkerIsRefused(s: State, t: Thread)
    requires Reachable(s) && Enabled(s, BeginCall(t))
    ensures var s' := Do(s, BeginCall(t));
            if t == Worker then s.worker.Running? && s' == s.(refused := s.refused + [Refusal(Worker, s.worker)])
            else s'.refused == s.refused && t in s'.calls && s'.calls[t] == CallAtLock(Task(s.nextId, t))
  {
    ReachableInv(s);
  }

  /** Only a running task was ever refused, and the worker never waits for a promise. */
  lemma {:induction false} NoTaskWaitsBehindItself(s: State)
    requires Reachable(s)
    ensures forall r :: r in s.refused ==> r.caller == Worker && r.worker.Running?
    ensures Worker !in s.calls
    ensures forall x :: x in s.accepted ==> x.caller != Worker
  {
    ReachableInv(s);
  }

  /** A blocked caller's own task is queued, running or settled, and what a call returns is its own task's outcome. */
  lemma {:induction false} CallersGetTheirOwnOutcome(s: State, t: Thread)
    requires Reachable(s) && t in s.calls
    ensures var pc := s.calls[t];
            && t != Worker
            && pc.task.caller == t
            && (pc.Blocked? ==> pc.task in Outstanding(s) || pc.task in s.settled)
            && (pc.Returned? ==> Completion(pc.task, pc.outcome) in s.executed)
            && (pc.Returned? ==> pc.task in s.settled && s.settled[pc.task] == pc.outcome)
            && (pc.Threw? ==> pc.task !in s.accepted)
  {
    ReachableInv(s);
    assert GoodCall(s, t, s.calls[t]);
  }

  // ---- What tasks produce reaches their callers ----

  lemma {:induction false} RunSnoc(s: State, steps: seq<Step>, step: Step)
    requires CanRun(s, steps) && Enabled(Run(s, steps), step)
    ensures CanRun(s, steps + [step]) && Run(s, steps + [step]) == Do(Run(s, steps), step)
    decreases |steps|
  {
    var all := steps + [step];
    if steps == [] {
      assert all[1..] == [];
    } else {
      assert all[0] == steps[0] && all[1..] == steps[1..] + [step];
      RunSnoc(Do(s, steps[0]), steps[1..], step);
    }
  }

  /** The task the worker runs, with what it produces in this step, if the step is one that finishes a task. */
  function ReportedBy(s: State, step: Step): seq<Completion> {
    if step.WorkStep? && s.worker.Running? then [Completion(s.worker.task, step.outcome)] else []
  }

  /** What the tasks of a run produced, in the order they finished. */
  function Reported(s: State, steps: seq<Step>): seq<Completion>
    requires CanRun(s, steps)
    decreases |steps|
  {
    if steps == [] then [] else ReportedBy(s, steps[0]) + Reported(Do(s, steps[0]), steps[1..])
  }

  /** The executor records of every task exactly what that task produced, and nothing else. */
  lemma {:induction false} ExecutedIsReported(s: State, steps: seq<Step>)
    requires CanRun(s, steps)
    ensures Run(s, steps).executed == s.executed + Reported(s, steps)
    decreases |steps|
  {
    if steps == [] {
    } else {
      OneStepReports(s, steps[0]);
      ExecutedIsReported(Do(s, steps[0]), steps[1..]);
    }
  }

  lemma {:induction false} OneStepReports(s: State, step: Step)
    requires Enabled(s, step)
    ensures Do(s, step).executed == s.executed + ReportedBy(s, step)
  {
  }

  /** What a call returns was produced, earlier in the run, by the step that finished the caller's own task. */
  lemma {:induction false} ReturnedIsWhatTheTaskProduced(steps: seq<Step>, t: Thread)
    requires CanRun(INITIAL, steps)
    requires t in Run(INITIAL, steps).calls && Run(INITIAL, steps).calls[t].Returned?
    ensures var pc := Run(INITIAL, steps).calls[t];
            pc.task.caller == t && Completion(pc.task, pc.outcome) in Reported(INITIAL, steps)
  {
    var s := Run(INITIAL, steps);
    assert Reachable(s);
    CallersGetTheirOwnOutcome(s, t);
    ExecutedIsReported(INITIAL, steps);
  }

  /** A call is accepted exactly while the executor is started and not stopping; otherwise it throws. */
  lemma {:induction false} AcceptedExactlyWhileRunning(s: State, t: Thread)
    requires Enabled(s, CallStep(t)) && s.calls[t].CallInSection?
    ensures var task, s' := s.calls[t].task, Do(s, CallStep(t));
            if s.queue.started && !s.queue.stopping then
              && s'.calls[t] == Notifying(task)
              && s'.queue == s.queue.(tasks := s.queue.tasks + [task]) && s'.accepted == s.accepted + [task]
              && s'.rejected == s.rejected
            else
              && s'.calls[t] == Threw(task)
              && s'.queue == s.queue && s'.accepted == s.accepted && s'.rejected == s.rejected + {task}
  {
  }

  // ---- One complete run ----

  lemma {:induction false} TakeStep(steps: seq<Step>, step: Step) returns (more: seq<Step>)
    requires CanRun(INITIAL, steps) && Enabled(Run(INITIAL, steps), step)
    ensures CanRun(INITIAL, more) && Run(INITIAL, more) == Do(Run(INITIAL, steps), step)
  {
    RunSnoc(INITIAL, steps, step);
    more := steps + [step];
  }

  /** The executor is started and idle, with its worker about to look at an empty queue. */
  predicate Started(s: State) {
    s == INITIAL.(queue := Shared(true, false, []), thread := Some(WorkerId(1)), spawned := 1, worker := AtLock)
  }

  lemma {:induction false} CanStart() returns (steps: seq<Step>)
    ensures CanRun(INITIAL, steps) && Started(Run(INITIAL, steps))
  {
    steps := [];
    steps := TakeStep(steps, BeginStart);
    steps := TakeStep(steps, ControlStep);
    steps := TakeStep(steps, ControlStep);
    steps := TakeStep(steps, ControlStep);
  }

  /** The client's task is queued and its caller waits for it. */
  lemma {:induction false} CanQueue(n: nat) returns (steps: seq<Step>)
    ensures CanRun(INITIAL, steps)
    ensures var s, task := Run(INITIAL, steps), Task(0, Client(n));
            && s.queue == Shared(true, false, [task]) && s.calls == map[Client(n) := Blocked(task)]
            && s.worker.AtLock? && s.mutex.None? && s.controller.Resting? && s.accepted == [task]
  {
    steps := CanStart();
    steps := TakeStep(steps, BeginCall(Client(n)));
    steps := TakeStep(steps, CallStep(Client(n)));
    steps := TakeStep(steps, CallStep(Client(n)));
    steps := TakeStep(steps, CallStep(Client(n)));
  }

  /** Any client's call can run to its end: whatever its task produces is what the call returns. */
  lemma {:induction false} CanCall(n: nat, o: Outcome) returns (steps: seq<Step>)
    ensures CanRun(INITIAL, steps)
    ensures var s, task := Run(INITIAL, steps), Task(0, Client(n));
            && s.queue == Shared(true, false, []) && s.calls == map[Client(n) := Returned(task, o)]
            && s.worker.AtLock? && s.mutex.None? && s.controller.Resting? && s.accepted == [task]
  {
    steps := CanQueue(n);
    steps := TakeStep(steps, WorkStep(o));
    steps := TakeStep(steps, WorkStep(o));
    steps := TakeStep(steps, WorkStep(o));
    steps := TakeStep(steps, CallStep(Client(n)));
  }

  /** From start to stop: the call returns what its task produced, and the executor ends stopped and empty. */
  lemma {:induction false} CanCallAndStop(n: nat, o: Outcome) returns (steps: seq<Step>)
    ensures CanRun(INITIAL, steps)
    ensures var s, task := Run(INITIAL, steps), Task(0, Client(n));
            && s.calls == map[Client(n) := Returned(task, o)]
            && s.controller.Resting? && s.worker.NoThread? && s.thread.None? && !s.queue.started
            && s.queue.tasks == [] && s.accepted == [task]
  {
    steps := CanCall(n, o);
    steps := TakeStep(steps, BeginStop);
    steps := TakeStep(steps, ControlStep);
    steps := TakeStep(steps, ControlStep);
    steps := TakeStep(steps, ControlStep);
    steps := TakeStep(steps, WorkStep(o));
    steps := TakeStep(steps, WorkStep(o));
    steps := TakeStep(steps, ControlStep);
    steps := TakeStep(steps, ControlStep);
  }

  /** Nobody is inside start, stop or a call, and the worker is absent or asleep. */
  ghost predicate Quiescent(s: State) {
    s.controller.Resting? && (forall t :: Free(s, t)) && (s.worker.NoThread? || s.worker.Asleep?)
  }

  /** There is no deadlock: until everything is quiescent some begun operation can take its next step. */
  lemma {:induction false} NoDeadlock(s: State)
    requires Reachable(s) && !Quiescent(s)
    ensures ControlReady(s) || WorkReady(s) || exists t :: Enabled(s, CallStep(t))
  {
    ReachableInv(s);
    if s.mutex.Some? {
      assert Holds(s, s.mutex.value);
      assert s.mutex.value in s.calls ==> Enabled(s, CallStep(s.mutex.value)) || s.mutex.value == Controller;
    } else if s.controller.Resting? && exists t :: !Free(s, t) {
      var t :| !Free(s, t);
      assert GoodCall(s, t, s.calls[t]);
      if !Enabled(s, CallStep(t)) {
        assert s.calls[t].task in Outstanding(s);
        assert WaitsFor(s, s.calls[t].task);
      }
    }
  }
}
