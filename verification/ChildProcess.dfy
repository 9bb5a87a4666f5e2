/**
 The POSIX life of a child process object against an operating system that answers as it likes: fork may fail,
 a poll may find the child alive, be interrupted or fail, and signals may be refused.
 */
module ChildProcesses {
  import opened Wrappers

  datatype Status = ExitStatus(code: int) | TermSignal(signal: int) | OtherStatus

  /** What waitpid with WNOHANG answers; `Failed` is any error but EINTR. */
  datatype Poll = Reaped(status: Status) | StillAlive | Interrupted | Failed

  datatype Signal = SigTerm | SigKill

  datatype Delivery = Sent | NoSuchProcess | Refused

  /** A poll carries the time, in milliseconds, at which the system answered it. */
  datatype Event =
    | Forked(pid: int)
    | ForkFailed
    | Polled(pid: int, answer: Poll, at: int)
    | Signalled(pid: int, signal: Signal, delivery: Delivery)

  datatype Error = AlreadyStarted | ForkError | WaitError | TimedOut | SignalError

  // ---- What a history of system calls must look like ----

  /** The child the process must still reap, if any. */
  datatype Ward = NoChild | Child(pid: int)

  /** A system call is in order if it forks while there is no child, or addresses the child not yet reaped. */
  function Advance(ward: Ward, event: Event): Option<Ward> {
    match event
    case Forked(pid) => if ward.NoChild? then Some(Child(pid)) else None
    case ForkFailed => if ward.NoChild? then Some(NoChild) else None
    case Polled(pid, answer, _) =>
      if ward != Child(pid) then None else Some(if answer.Reaped? then NoChild else ward)
    case Signalled(pid, _, _) => if ward != Child(pid) then None else Some(ward)
  }

  function Replay(history: seq<Event>): Option<Ward> {
    if history == [] then Some(NoChild)
    else
      match Replay(history[..|history| - 1])
      case None => None
      case Some(ward) => Advance(ward, history[|history| - 1])
  }

  function CodeOf(status: Status, before: int): int {
    match status
    case ExitStatus(code) => code
    case TermSignal(signal) => 128 + signal
    case OtherStatus => before
  }

  /** An exit status is the code, a signal counts from 128, and any other status leaves the code as it was. */
  predicate Records(status: Status, before: int, code: int) {
    && (status.ExitStatus? ==> code == status.code)
    && (status.TermSignal? ==> code == 128 + status.signal)
    && (status.OtherStatus? ==> code == before)
  }

  /** The exit code after a history: that of the latest reap, or -1. */
  function LastCode(history: seq<Event>): int {
    if history == [] then -1
    else
      var before := LastCode(history[..|history| - 1]);
      match history[|history| - 1]
      case Polled(_, Reaped(status), _) => CodeOf(status, before)
      case _ => before
  }

  predicate IsReap(event: Event) {
    event.Polled? && event.answer.Reaped?
  }

  /** The answers after which a poll says nothing has ended: the child is alive, or EINTR. */
  predicate FoundAlive(answer: Poll) {
    answer.StillAlive? || answer.Interrupted?
  }

  predicate IsQuiet(event: Event, pid: int) {
    event.Polled? && event.pid == pid && FoundAlive(event.answer)
  }

  function CountForks(history: seq<Event>): nat {
    if history == [] then 0
    else CountForks(history[..|history| - 1]) + if history[|history| - 1].Forked? then 1 else 0
  }

  function CountReaps(history: seq<Event>): nat {
    if history == [] then 0
    else CountReaps(history[..|history| - 1]) + if IsReap(history[|history| - 1]) then 1 else 0
  }

  /** Every fork is reaped at most once, and exactly one fork is unreaped while there is a child. */
  lemma {:induction false} ForksAndReapsBalance(history: seq<Event>)
    requires Replay(history).Some?
    ensures CountForks(history) == CountReaps(history) + if Replay(history).value.Child? then 1 else 0
  {
    if history == [] {
    } else {
      ForksAndReapsBalance(history[..|history| - 1]);
    }
  }

  lemma {:induction false} PrefixInOrder(history: seq<Event>, n: nat)
    requires Replay(history).Some? && n <= |history|
    ensures Replay(history[..n]).Some?
    decreases |history|
  {
    if n == |history| {
      assert history[..n] == history;
    } else {
      var front := history[..|history| - 1];
      PrefixInOrder(front, n);
      assert front[..n] == history[..n];
    }
  }

  predicate UnreapedSince(history: seq<Event>, pid: int, j: nat) {
    && j < |history| && history[j] == Forked(pid)
    && forall k :: j < k < |history| ==> !history[k].Forked? && !IsReap(history[k])
  }

  /** The history forked the child with a pid and has not reaped it, or forked again, since. */
  ghost predicate Unreaped(history: seq<Event>, pid: int) {
    exists j: nat :: UnreapedSince(history, pid, j)
  }

  lemma {:induction false} StillUnreaped(history: seq<Event>, pid: int, j: nat, event: Event)
    requires UnreapedSince(history, pid, j) && !event.Forked? && !IsReap(event)
    ensures UnreapedSince(history + [event], pid, j)
  {
  }

  lemma {:induction false} WardIsUnreaped(history: seq<Event>)
    requires Replay(history).Some? && Replay(history).value.Child?
    ensures Unreaped(history, Replay(history).value.pid)
  {
    var front, event := history[..|history| - 1], history[|history| - 1];
    assert history == front + [event];
    var pid := Replay(history).value.pid;
    if event.Forked? {
      assert UnreapedSince(history, pid, |front|);
    } else {
      WardIsUnreaped(front);
      var j: nat :| UnreapedSince(front, pid, j);
      StillUnreaped(front, pid, j, event);
    }
  }

  /** No poll and no signal ever goes to a pid that was reaped: each addresses the fork still to be reaped. */
  lemma {:induction false} CallsAddressTheUnreapedChild(history: seq<Event>, i: nat)
    requires Replay(history).Some? && i < |history| && (history[i].Polled? || history[i].Signalled?)
    ensures Unreaped(history[..i], history[i].pid)
  {
    PrefixInOrder(history, i + 1);
    assert history[..i + 1][..i] == history[..i];
    WardIsUnreaped(history[..i]);
  }

  /** The code a child leaves is decided by the status it was reaped with, whichever call reaped it. */
  lemma {:induction false} CodeIsThatOfTheLatestReap(history: seq<Event>, i: nat)
    requires i < |history| && IsReap(history[i])
    requires forall k :: i < k < |history| ==> !IsReap(history[k])
    ensures Records(history[i].answer.status, LastCode(history[..i]), LastCode(history))
    decreases |history|
  {
    var front := history[..|history| - 1];
    if i == |front| {
    } else {
      CodeIsThatOfTheLatestReap(front, i);
      assert front[..i] == history[..i];
    }
  }

  /** Before the first reap there is no code. */
  lemma {:induction false} NoCodeBeforeAReap(history: seq<Event>)
    requires forall k :: 0 <= k < |history| ==> !IsReap(history[k])
    ensures LastCode(history) == -1
  {
    if history == [] {
    } else {
      NoCodeBeforeAReap(history[..|history| - 1]);
    }
  }

  lemma {:induction false} AppendEvent(history: seq<Event>, event: Event)
    requires Replay(history).Some?
    ensures Replay(history + [event]) == Advance(Replay(history).value, event)
    ensures LastCode(history + [event]) ==
            if IsReap(event) then CodeOf(event.answer.status, LastCode(history)) else LastCode(history)
  {
    assert (history + [event])[..|history|] == history;
  }

  // ---- The operating system ----

  /**
   The system calls one process object makes.  `patience` bounds how many more polls may find the child alive:
   a child ends some time, nothing says when.
   */
  class Kernel {
    var now: int
    var patience: nat
    ghost var history: seq<Event>

    constructor ()
      ensures history == []
    {
      now, patience, history := *, *, [];
    }

    method Fork() returns (pid: int)
      modifies this
      ensures pid == -1 ==> history == old(history) + [ForkFailed]
      ensures pid != -1 ==> pid > 0 && history == old(history) + [Forked(pid)]
    {
      pid := *;
      if pid <= 0 {
        pid := -1;
      }
      patience := *;
      history := history + [if pid < 0 then ForkFailed else Forked(pid)];
    }

    method WaitPid(pid: int) returns (answer: Poll)
      modifies this
      ensures history == old(history) + [Polled(pid, answer, now)]
      ensures now >= old(now)
      ensures FoundAlive(answer) ==> patience < old(patience)
    {
      var time := Now();
      answer := *;
      if FoundAlive(answer) {
        if patience == 0 {
          var status: Status := *;
          answer := Reaped(status);
        } else {
          patience := patience - 1;
        }
      }
      history := history + [Polled(pid, answer, now)];
    }

    method Kill(pid: int, signal: Signal) returns (delivery: Delivery)
      modifies this
      ensures history == old(history) + [Signalled(pid, signal, delivery)]
      ensures now >= old(now)
    {
      delivery := *;
      history := history + [Signalled(pid, signal, delivery)];
    }

    method Now() returns (time: int)
      modifies this`now
      ensures time == now >= old(now)
    {
      time := *;
      if time < now {
        time := now;
      }
      now := time;
    }

    method Sleep(milliseconds: nat)
      modifies this`now
      ensures now >= old(now) + milliseconds
    {
      var wake: int := *;
      now := if wake < now + milliseconds then now + milliseconds else wake;
    }
  }

  /** How many polls, ten milliseconds apart, fit before a timeout. */
  function PollsBefore(timeout: int): (polls: nat)
    ensures timeout <= 0 ==> polls == 0
    ensures timeout > 0 ==> 10 * (polls - 1) < timeout <= 10 * polls
  {
    if timeout <= 0 then 0 else (timeout + 9) / 10
  }

  /** The calls of one wait(): quiet polls of the child, then one last poll. */
  predicate PollingOf(events: seq<Event>, pid: int) {
    && events != []
    && (forall i :: 0 <= i < |events| - 1 ==> IsQuiet(events[i], pid))
    && events[|events| - 1].Polled? && events[|events| - 1].pid == pid
  }

  // ---- The run of one wait() ----

  /** One turn of the loop: a poll, and the clock read that may follow it. */
  datatype Turn = Turn(polled: int, answer: Poll, read: int)

  predicate PastDeadline(start: int, timeout: Option<int>, time: int) {
    timeout.Some? && time >= start + timeout.value
  }

  /** The loop goes on exactly after a quiet poll with the deadline not reached. */
  predicate GoesOn(start: int, timeout: Option<int>, turn: Turn) {
    FoundAlive(turn.answer) && !PastDeadline(start, timeout, turn.read)
  }

  /** Turns that all went on, each after a sleep of ten milliseconds; times never go back. */
  predicate Going(start: int, timeout: Option<int>, turns: seq<Turn>, now: int) {
    if turns == [] then start <= now
    else
      var last := turns[|turns| - 1];
      && Going(start, timeout, turns[..|turns| - 1], last.polled)
      && last.polled <= last.read && last.read + 10 <= now
      && GoesOn(start, timeout, last)
  }

  /** A complete run of the loop: every turn but the last goes on. */
  predicate WaitRun(start: int, timeout: Option<int>, turns: seq<Turn>) {
    && turns != []
    && var last := turns[|turns| - 1];
    && Going(start, timeout, turns[..|turns| - 1], last.polled)
    && last.polled <= last.read
    && !GoesOn(start, timeout, last)
  }

  /** The run ends in the timeout exception. */
  predicate TimesOut(start: int, timeout: Option<int>, turns: seq<Turn>) {
    WaitRun(start, timeout, turns) && FoundAlive(turns[|turns| - 1].answer)
  }

  /** What the system saw of a run. */
  function Polls(turns: seq<Turn>, pid: int): seq<Event> {
    seq(|turns|, i requires 0 <= i < |turns| => Polled(pid, turns[i].answer, turns[i].polled))
  }

  lemma {:induction false} PollsSnoc(before: seq<Event>, turns: seq<Turn>, turn: Turn, pid: int)
    ensures (before + Polls(turns, pid)) + [Polled(pid, turn.answer, turn.polled)] ==
            before + Polls(turns + [turn], pid)
  {
    assert Polls(turns + [turn], pid) == Polls(turns, pid) + [Polled(pid, turn.answer, turn.polled)];
  }

  lemma {:induction false} OneMoreTurn(start: int, timeout: Option<int>, turns: seq<Turn>, turn: Turn)
    requires Going(start, timeout, turns, turn.polled) && turn.polled <= turn.read
    ensures if GoesOn(start, timeout, turn) then Going(start, timeout, turns + [turn], turn.read + 10)
            else WaitRun(start, timeout, turns + [turn])
  {
    assert (turns + [turn])[..|turns|] == turns;
  }

  /** A reap gives the code of its status, a failed poll its own error, and a quiet last poll the timeout. */
  predicate ResultOf(result: Result<int, Error>, last: Poll, before: int) {
    && (last.Reaped? <==> result.Ok?)
    && (result.Ok? ==> Records(last.status, before, result.value))
    && (last.Failed? ==> result == Err(WaitError))
    && (last.StillAlive? || last.Interrupted? ==> result == Err(TimedOut))
  }

  /** Turn i of those that went on was quiet, and its poll came at least 10 * i milliseconds after the start. */
  lemma {:induction false} GoingTurns(start: int, timeout: Option<int>, turns: seq<Turn>, now: int, i: nat)
    requires Going(start, timeout, turns, now) && i < |turns|
    ensures start + 10 * i <= turns[i].polled && GoesOn(start, timeout, turns[i])
    ensures start + 10 * |turns| <= now
    decreases |turns|
  {
    var front := turns[..|turns| - 1];
    if front == [] {
    } else {
      GoingTurns(start, timeout, front, turns[|turns| - 1].polled, if i < |front| then i else 0);
    }
  }

  /** Poll i of a run comes at least 10 * i milliseconds after the start. */
  lemma {:induction false} PollsAreSpaced(start: int, timeout: Option<int>, turns: seq<Turn>, i: nat)
    requires WaitRun(start, timeout, turns) && i < |turns|
    ensures start + 10 * i <= turns[i].polled
  {
    var front := turns[..|turns| - 1];
    if front != [] {
      GoingTurns(start, timeout, front, turns[|front|].polled, if i < |front| then i else 0);
    }
  }

  /** A finite timeout bounds the polls by ceil(timeout / 10) + 1. */
  lemma {:induction false} PollsAreBounded(start: int, timeout: int, turns: seq<Turn>)
    requires WaitRun(start, Some(timeout), turns)
    ensures |turns| <= PollsBefore(timeout) + 1
  {
    var front := turns[..|turns| - 1];
    if front != [] {
      GoingTurns(start, Some(timeout), front, turns[|front|].polled, |front| - 1);
    }
  }

  /** The calls of a run are quiet polls of the child, then one last poll. */
  lemma {:induction false} RunIsPolling(start: int, timeout: Option<int>, turns: seq<Turn>, pid: int)
    requires WaitRun(start, timeout, turns)
    ensures PollingOf(Polls(turns, pid), pid)
    ensures timeout.Some? ==> |turns| <= PollsBefore(timeout.value) + 1
  {
    var front := turns[..|turns| - 1];
    forall i | 0 <= i < |front| ensures IsQuiet(Polls(turns, pid)[i], pid) {
      GoingTurns(start, timeout, front, turns[|front|].polled, i);
    }
    if timeout.Some? {
      PollsAreBounded(start, timeout.value, turns);
    }
  }

  /** A timeout is never early by the clock, and a quiet turn goes on exactly while the clock is before the deadline. */
  lemma {:induction false} TimeoutMeansDeadlineReached(start: int, timeout: int, turns: seq<Turn>, i: nat)
    requires WaitRun(start, Some(timeout), turns) && i < |turns|
    ensures TimesOut(start, Some(timeout), turns) ==> turns[|turns| - 1].read >= start + timeout
    ensures turns[i].answer.StillAlive? || turns[i].answer.Interrupted? ==>
              (i < |turns| - 1 <==> turns[i].read < start + timeout)
    ensures !(turns[i].answer.StillAlive? || turns[i].answer.Interrupted?) ==> i == |turns| - 1
  {
    var front := turns[..|turns| - 1];
    if i < |front| {
      GoingTurns(start, Some(timeout), front, turns[|front|].polled, i);
    }
  }

  /** The clock can pass the whole timeout between a first quiet poll and the read that follows it. */
  lemma {:induction false} LastPollCanBeEarly(start: int, timeout: int)
    requires timeout > 0
    ensures TimesOut(start, Some(timeout), [Turn(start, StillAlive, start + timeout)])
  {
    var turn := Turn(start, StillAlive, start + timeout);
    assert [turn][..0] == [];
  }

  predicate LastPollAtDeadline(start: int, timeout: int, turns: seq<Turn>)
    requires turns != []
  {
    turns[|turns| - 1].polled >= start + timeout
  }

  /**
   A timeout means that the child was alive (or the poll interrupted) at or after the deadline, in every run, if
   and only if the timeout is not positive.
   */
  lemma {:induction false} LastPollIsAtDeadlineExactlyWithoutTimeout(timeout: int)
    ensures (forall start, turns :: TimesOut(start, Some(timeout), turns) ==> LastPollAtDeadline(start, timeout, turns))
       <==> timeout <= 0
  {
    if timeout > 0 {
      LastPollCanBeEarly(0, timeout);
      assert !LastPollAtDeadline(0, timeout, [Turn(0, StillAlive, timeout)]);
    } else {
      forall start, turns | TimesOut(start, Some(timeout), turns) ensures LastPollAtDeadline(start, timeout, turns) {
        PollsAreSpaced(start, Some(timeout), turns, |turns| - 1);
      }
    }
  }

  /** One try to end the child: a signal and, unless it was refused, one complete wait(). */
  ghost predicate AttemptOf(events: seq<Event>, pid: int, signal: Signal, timeout: Option<int>) {
    && events != []
    && events[0].Signalled? && events[0].pid == pid && events[0].signal == signal
    && if events[0].delivery.Refused? then |events| == 1 else WaitedFor(events[1..], pid, timeout)
  }

  /** The polls are those of a run of wait(). */
  ghost predicate WaitedFor(polls: seq<Event>, pid: int, timeout: Option<int>) {
    exists start: int, turns: seq<Turn> :: WaitRun(start, timeout, turns) && polls == Polls(turns, pid)
  }

  predicate EndsInReap(events: seq<Event>) {
    events != [] && IsReap(events[|events| - 1])
  }

  /** The calls of one cleanup(): a polite attempt, and a forced one exactly when the first did not reap the child. */
  ghost predicate CleanupOf(polite: seq<Event>, forced: seq<Event>, pid: int) {
    && AttemptOf(polite, pid, SigTerm, Some(2000))
    && if EndsInReap(polite) then forced == [] else AttemptOf(forced, pid, SigKill, None)
  }

  /**
   cleanup() asks first and forces only a child it could not reap by asking; a refused signal is not waited for.
   Asking takes at most 201 polls, and forcing polls until the child is reaped or the system fails.
   */
  lemma {:induction false} CleanupEscalates(polite: seq<Event>, forced: seq<Event>, pid: int)
    requires CleanupOf(polite, forced, pid)
    ensures polite != [] && polite[0].Signalled? && polite[0].signal == SigTerm && polite[0].pid == pid
    ensures polite[0].delivery.Refused? <==> |polite| == 1
    ensures |polite| <= 1 + 201 && PollsOnly(polite, pid)
    ensures forced == [] <==> polite[|polite| - 1].Polled? && polite[|polite| - 1].answer.Reaped?
    ensures forced != [] ==>
              && forced[0].Signalled? && forced[0].signal == SigKill && forced[0].pid == pid
              && (forced[0].delivery.Refused? <==> |forced| == 1) && PollsOnly(forced, pid)
              && (|forced| > 1 ==> forced[|forced| - 1].answer.Reaped? || forced[|forced| - 1].answer.Failed?)
  {
    AttemptPolls(polite, pid, SigTerm, Some(2000));
    if forced != [] {
      AttemptPolls(forced, pid, SigKill, None);
    }
  }

  /** A child that is asked and still runs was given two seconds, by the clock. */
  lemma {:induction false} AskingTakesTwoSeconds(polite: seq<Event>, forced: seq<Event>, pid: int)
    requires CleanupOf(polite, forced, pid) && IsQuiet(polite[|polite| - 1], pid)
    ensures exists start: int, turns: seq<Turn> ::
              && WaitRun(start, Some(2000), turns) && polite[1..] == Polls(turns, pid)
              && turns[|turns| - 1].read >= start + 2000
  {
    var polls := polite[1..];
    var start: int, turns: seq<Turn> :| WaitRun(start, Some(2000), turns) && polls == Polls(turns, pid);
    assert polls[|polls| - 1] == polite[|polite| - 1];
    assert polls[|polls| - 1].answer == turns[|turns| - 1].answer;
    TimeoutMeansDeadlineReached(start, 2000, turns, |turns| - 1);
  }

  lemma {:induction false} SignalThenPolls(
      before: seq<Event>, sent: Event, start: int, timeout: Option<int>, turns: seq<Turn>, pid: int)
    requires sent.Signalled? && sent.pid == pid && !sent.delivery.Refused? && WaitRun(start, timeout, turns)
    ensures var calls := [sent] + Polls(turns, pid);
            && (before + [sent]) + Polls(turns, pid) == before + calls
            && AttemptOf(calls, pid, sent.signal, timeout)
            && (EndsInReap(calls) <==> turns[|turns| - 1].answer.Reaped?)
  {
    var calls := [sent] + Polls(turns, pid);
    assert calls[1..] == Polls(turns, pid);
    assert WaitedFor(calls[1..], pid, timeout);
    assert calls[|calls| - 1] == Polls(turns, pid)[|turns| - 1];
  }

  /** All calls but the first are polls of the child. */
  predicate PollsOnly(events: seq<Event>, pid: int) {
    forall i :: 0 < i < |events| ==> events[i].Polled? && events[i].pid == pid
  }

  lemma {:induction false} AttemptPolls(events: seq<Event>, pid: int, signal: Signal, timeout: Option<int>)
    requires AttemptOf(events, pid, signal, timeout)
    ensures PollsOnly(events, pid) && (events[0].delivery.Refused? <==> |events| == 1)
    ensures timeout.Some? ==> |events| <= PollsBefore(timeout.value) + 2
    ensures timeout.None? && |events| > 1 ==> !FoundAlive(events[|events| - 1].answer)
  {
    if !events[0].delivery.Refused? {
      var start: int, turns: seq<Turn> :| WaitRun(start, timeout, turns) && events[1..] == Polls(turns, pid);
      RunIsPolling(start, timeout, turns, pid);
      forall i | 0 < i < |events| ensures events[i] == Polls(turns, pid)[i - 1] {
        assert events[i] == events[1..][i - 1];
      }
    }
  }

  // ---- The process object ----

  class ChildProcess {
    const kernel: Kernel
    var pid: int
    var exitCode: int
    var started: bool

    /** `started` holds exactly while `pid` names the one child not yet reaped, and the code is the latest reap's. */
    ghost predicate Valid()
      reads this, kernel`history
    {
      && Replay(kernel.history) == Some(if started then Child(pid) else NoChild)
      && (if started then pid > 0 else pid == -1)
      && exitCode == LastCode(kernel.history)
    }

    constructor (kernel: Kernel)
      requires kernel.history == []
      ensures Valid() && !started && this.kernel == kernel
    {
      this.kernel := kernel;
      pid, exitCode, started := -1, -1, false;
    }

    /** A started object refuses; otherwise one fork decides, and only success leaves a child. */
    method Start() returns (error: Option<Error>)
      requires Valid()
      modifies this, kernel
      ensures Valid() && exitCode == old(exitCode)
      ensures old(started) ==> error == Some(AlreadyStarted) && kernel.history == old(kernel.history) && started
      ensures !old(started) && error.None? ==> started && kernel.history == old(kernel.history) + [Forked(pid)]
      ensures !old(started) && error.Some? ==>
                error == Some(ForkError) && !started && kernel.history == old(kernel.history) + [ForkFailed]
    {
      if started {
        return Some(AlreadyStarted);
      }
      ghost var before := kernel.history;
      pid := kernel.Fork();
      if pid < 0 {
        AppendEvent(before, ForkFailed);
        return Some(ForkError);
      }
      AppendEvent(before, Forked(pid));
      started := true;
      return None;
    }

    /** What both running() and wait() do: one poll, and a reaped child's status recorded. */
    method PollChild() returns (answer: Poll)
      requires Valid() && started
      modifies this, kernel
      ensures Valid() && kernel.history == old(kernel.history) + [Polled(old(pid), answer, kernel.now)]
      ensures kernel.now >= old(kernel.now) && (FoundAlive(answer) ==> kernel.patience < old(kernel.patience))
      ensures started <==> !answer.Reaped?
      ensures if started then pid == old(pid) && exitCode == old(exitCode)
              else pid == -1 && Records(answer.status, old(exitCode), exitCode)
    {
      ghost var before := kernel.history;
      answer := kernel.WaitPid(pid);
      AppendEvent(before, Polled(pid, answer, kernel.now));
      if answer.Reaped? {
        match answer.status {
          case ExitStatus(code) => exitCode := code;
          case TermSignal(signal) => exitCode := 128 + signal;
          case OtherStatus =>
        }
        pid := -1;
        started := false;
      }
    }

    /** One poll of the child: alive or interrupted answers true, a reap is recorded, an error answers false. */
    method Running() returns (alive: bool)
      requires Valid()
      modifies this, kernel
      ensures Valid()
      ensures !old(started) ==> !alive && !started && kernel.history == old(kernel.history)
      ensures old(started) ==>
                && |kernel.history| == |old(kernel.history)| + 1
                && kernel.history[..|old(kernel.history)|] == old(kernel.history)
                && var call := kernel.history[|old(kernel.history)|];
                && call.Polled? && call.pid == old(pid)
                && (started <==> !call.answer.Reaped?)
                && (alive <==> call.answer.StillAlive? || call.answer.Interrupted?)
                && if call.answer.Reaped? then Records(call.answer.status, old(exitCode), exitCode)
                   else exitCode == old(exitCode)
    {
      if !started || pid < 0 {
        return false;
      }
      var answer := PollChild();
      return FoundAlive(answer);
    }

    /** Whichever call reaps the child, a later wait() answers with the code of the status it was reaped with. */
    method RunThenWait(timeout: Option<int>) returns (alive: bool, result: Result<int, Error>)
      requires Valid() && started
      modifies this, kernel
      ensures Valid()
      ensures old(|kernel.history|) < |kernel.history|
      ensures var call := kernel.history[old(|kernel.history|)];
              && call.Polled? && call.pid == old(pid)
              && (call.answer.Reaped? ==>
                    && !alive && result.Ok? && Records(call.answer.status, old(exitCode), result.value)
                    && |kernel.history| == old(|kernel.history|) + 1)
    {
      alive := Running();
      ghost var start, turns;
      result, start, turns := Wait(timeout);
    }

    /** One turn of the loop in wait(): a poll and, after a quiet one with a timeout, a look at the clock. */
    method TakeTurn(timeout: Option<int>) returns (answer: Poll, time: int, ghost polled: int)
      requires Valid() && started
      modifies this, kernel
      ensures Valid() && (started <==> !answer.Reaped?)
      ensures if started then pid == old(pid) && exitCode == old(exitCode)
              else Records(answer.status, old(exitCode), exitCode)
      ensures FoundAlive(answer) ==> kernel.patience < old(kernel.patience)
      ensures kernel.history == old(kernel.history) + [Polled(old(pid), answer, polled)]
      ensures old(kernel.now) <= polled <= time == kernel.now
    {
      answer := PollChild();
      polled := kernel.now;
      time := kernel.now;
      if FoundAlive(answer) && timeout.Some? {
        time := kernel.Now();
      }
    }

    /**
     `timeout` is None for the unlimited wait.  The polls are those of a run of the loop that begins no earlier
     than the call, and the last turn of that run decides the result.
     */
    method Wait(timeout: Option<int>) returns (result: Result<int, Error>, ghost start: int, ghost turns: seq<Turn>)
      requires Valid()
      modifies this, kernel
      ensures Valid() && (result.Ok? ==> result.value == exitCode && !started)
      ensures !old(started) ==> result.Ok? && exitCode == old(exitCode) && kernel.history == old(kernel.history)
      ensures old(started) ==>
                && WaitRun(start, timeout, turns) && old(kernel.now) <= start
                && kernel.history == old(kernel.history) + Polls(turns, old(pid))
                && ResultOf(result, turns[|turns| - 1].answer, old(exitCode))
      ensures old(started) && result.Err? ==> started && pid == old(pid) && exitCode == old(exitCode)
    {
      if !started || pid < 0 {
        return Ok(exitCode), 0, [];
      }
      var begun := kernel.Now();
      start, turns := begun, [];
      ghost var before := kernel.history;
      while true
        invariant Valid() && started && pid == old(pid) && exitCode == old(exitCode)
        invariant kernel.history == before + Polls(turns, old(pid))
        invariant Going(begun, timeout, turns, kernel.now)
        decreases kernel.patience
      {
        var answer, time, polled := TakeTurn(timeout);
        ghost var turn := Turn(polled, answer, time);
        PollsSnoc(before, turns, turn, old(pid));
        OneMoreTurn(start, timeout, turns, turn);
        turns := turns + [turn];
        if answer.Reaped? {
          result := Ok(exitCode);
          break;
        }
        if answer.Failed? {
          result := Err(WaitError);
          break;
        }
        if timeout.Some? && time >= begun + timeout.value {
          result := Err(TimedOut);
          break;
        }
        kernel.Sleep(10);
      }
    }

    /** terminate() and kill(): nothing without a child; ESRCH is not an error. */
    method Send(signal: Signal) returns (error: Option<Error>)
      requires Valid()
      modifies kernel
      ensures Valid()
      ensures !started ==> error.None? && kernel.history == old(kernel.history)
      ensures started ==>
                exists delivery :: kernel.history == old(kernel.history) + [Signalled(pid, signal, delivery)] &&
                                   error == if delivery.Refused? then Some(SignalError) else None
    {
      if started && pid >= 0 {
        ghost var before := kernel.history;
        var delivery := kernel.Kill(pid, signal);
        AppendEvent(before, Signalled(pid, signal, delivery));
        if delivery.Refused? {
          return Some(SignalError);
        }
      }
      return None;
    }

    /** One guarded block of cleanup(): a signal and a wait(), either of which may throw. */
    method Attempt(signal: Signal, timeout: Option<int>) returns (ghost calls: seq<Event>)
      requires Valid() && started
      modifies this, kernel
      ensures Valid() && kernel.history == old(kernel.history) + calls
      ensures AttemptOf(calls, old(pid), signal, timeout)
      ensures started <==> !EndsInReap(calls)
      ensures started ==> pid == old(pid)
      ensures timeout.Some? ==> |calls| <= PollsBefore(timeout.value) + 2
    {
      ghost var before := kernel.history;
      var error := Send(signal);
      ghost var sent := kernel.history[|before|];
      calls := [sent];
      assert kernel.history == before + calls;
      if error.None? {
        var result, start, turns := Wait(timeout);
        SignalThenPolls(before, sent, start, timeout, turns, old(pid));
        calls := [sent] + Polls(turns, old(pid));
      }
      AttemptPolls(calls, old(pid), signal, timeout);
    }

    /** The destructor's work: SIGTERM and two seconds, then SIGKILL and no limit. */
    method Cleanup()
      requires Valid()
      modifies this, kernel
      ensures Valid()
      ensures !old(started) ==> !started && kernel.history == old(kernel.history)
      ensures old(started) ==>
                exists polite, forced ::
                  && kernel.history == old(kernel.history) + polite + forced
                  && CleanupOf(polite, forced, old(pid))
                  && (started <==> !EndsInReap(polite) && !EndsInReap(forced))
    {
      if !started {
        return;
      }
      ghost var polite := Attempt(SigTerm, Some(2000));
      ghost var forced := [];
      if started {
        forced := Attempt(SigKill, None);
      }
      assert CleanupOf(polite, forced, old(pid));
      assert kernel.history == old(kernel.history) + polite + forced;
    }
  }
}
