/**
 The executor object itself.  Each critical section of the C++ class is a method over its mutable fields,
 proved equal to the section function that the transition system of CallExecutor takes as one step.
 */
module ComponentCallExecutorObject {
  import opened Wrappers
  import opened CallExecutor

  /** The completions of a list of tasks run one after the other. */
  function Completions(tasks: seq<Task>, body: Task -> Outcome): seq<Completion> {
    seq(|tasks|, i requires 0 <= i < |tasks| => Completion(tasks[i], body(tasks[i])))
  }

  /** Completion i is that of task i, with the outcome its own body produced. */
  predicate Ran(log: seq<Completion>, tasks: seq<Task>, body: Task -> Outcome) {
    && |log| == |tasks|
    && forall i :: 0 <= i < |tasks| ==> log[i].task == tasks[i] && log[i].outcome == body(tasks[i])
  }

  lemma {:induction false} CompletionsSnoc(tasks: seq<Task>, n: nat, body: Task -> Outcome)
    requires n < |tasks|
    ensures Completions(tasks[..n + 1], body)
         == Completions(tasks[..n], body) + [Completion(tasks[n], body(tasks[n]))]
  {
  }

  class ComponentCallExecutor {
    var tasks: seq<Task>
    var started: bool
    var stopping: bool
    var thread: Option<ThreadId>
    ghost var spawned: nat

    function Guarded(): Shared
      reads this
    {
      Shared(started, stopping, tasks)
    }

    constructor ()
      ensures Guarded() == INITIAL.queue && thread == INITIAL.thread && spawned == INITIAL.spawned
    {
      tasks, started, stopping, thread, spawned := [], false, false, None, 0;
    }

    /** Both locked steps of start(): a new worker has a number no earlier one had, and `thread` names it. */
    method EnterStart(worker: ThreadId) returns (spawn: bool)
      requires worker == WorkerId(spawned + 1)
      modifies this
      ensures spawn == StartSection(old(Guarded())).1
      ensures if spawn then
                && Guarded() == StartedSection(StartSection(old(Guarded())).0)
                && thread == Some(worker) && spawned == old(spawned) + 1
              else Guarded() == old(Guarded()) && thread == old(thread) && spawned == old(spawned)
    {
      if started {
        return false;
      }
      stopping := false;
      thread, spawned := Some(worker), spawned + 1;
      started := true;
      return true;
    }

    /** The check at the head of call(). */
    method Refuses(caller: ThreadId) returns (refused: bool)
      ensures refused <==> thread == Some(caller)
      ensures forall s: State, t :: s.thread == thread && IdOf(s, t) == caller ==>
                (refused <==> DoBeginCall(s, t).refused != s.refused)
    {
      return thread == Some(caller);
    }

    method EnterStop() returns (running: bool)
      modifies this`tasks, this`started, this`stopping
      ensures (Guarded(), running) == StopSection(old(Guarded()))
    {
      if !started {
        return false;
      }
      stopping := true;
      return true;
    }

    method EnterEnqueue(task: Task) returns (accepted: bool)
      modifies this`tasks, this`started, this`stopping
      ensures (Guarded(), accepted) == EnqueueSection(old(Guarded()), task)
    {
      if !started || stopping {
        return false;
      }
      tasks := tasks + [task];
      return true;
    }

    method EnterTake() returns (decision: Decision)
      modifies this`tasks, this`started, this`stopping
      ensures (Guarded(), decision) == TakeSection(old(Guarded()))
    {
      if !(stopping || tasks != []) {
        return Sleep;
      }
      if stopping && tasks == [] {
        return Exit;
      }
      decision := Take(tasks[0]);
      tasks := tasks[1..];
    }

    /** The worker's loop from the moment stop() has set `stopping`: enqueue() accepts nothing any more. */
    method RunToExit(body: Task -> Outcome) returns (log: seq<Completion>)
      requires stopping
      modifies this`tasks, this`started, this`stopping
      ensures log == Completions(old(tasks), body)
      ensures Ran(log, old(tasks), body)
      ensures Guarded() == old(Guarded()).(tasks := [])
    {
      log := [];
      ghost var before := tasks;
      while true
        invariant started == old(started) && stopping
        invariant |log| <= |before| && before[|log|..] == tasks
        invariant log == Completions(before[..|log|], body)
        decreases |tasks|
      {
        var decision := EnterTake();
        match decision {
          case Take(task) =>
            CompletionsSnoc(before, |log|, body);
            log := log + [Completion(task, body(task))];
          case _ => break;
        }
      }
      assert before[..|log|] == before;
    }

    /**
     stop() with nobody else at work: the loop the worker would run until join() returns runs here, in sequence.
     On a started executor the queue is drained before `thread` and the flag are cleared.
     */
    method Stop(body: Task -> Outcome) returns (log: seq<Completion>)
      modifies this`tasks, this`started, this`stopping, this`thread
      ensures if old(started) then
                Ran(log, old(tasks), body) && Guarded() == Shared(false, true, []) && thread == None
              else log == [] && Guarded() == old(Guarded()) && thread == old(thread)
    {
      var running := EnterStop();
      if !running {
        return [];
      }
      log := RunToExit(body);
      thread := None;
      started := false;
    }
  }
}
