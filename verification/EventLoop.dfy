/** The task queue of EventLoop.hpp and its eventfd wake-up, as a machine over the steps
    of the loop thread and of any number of threads that call QueueInLoop. */
module EventLoopModel {
  type Task = nat

  /** The loop thread blocks in Poll, handles the channels that Poll reported (`unread`:
      the eventfd among them is still to be read), or runs the tasks it swapped out. */
  datatype Loop = Polling | Handling(unread: bool) | Running

  /** `tasks`: _tasks; `batch`: what RunAllTask swapped out and has not run; `event`: the
      eventfd counter; `owes`: which producers have pushed and not yet written the eventfd,
      `selfOwes` the same for a QueueInLoop on the loop thread itself; `pushed` and
      `executed`: all tasks ever pushed, and run, in order. */
  datatype State = State(tasks: seq<Task>, batch: seq<Task>, event: nat, loop: Loop, owes: seq<bool>, selfOwes: bool,
                         pushed: seq<Task>, executed: seq<Task>)

  datatype Event =
    | Push(p: nat, task: Task)  // a producer's push under the mutex
    | Write(p: nat)             // and its WakeUpEventFd
    | SelfPush(task: Task)      // QueueInLoop from a task or a channel handler
    | SelfWrite
    | PollReturns(reported: bool) // some channels are ready, or EINTR
    | ReadEventFd
    | Swap
    | RunOne
    | PollAgain

  function Start(producers: nat): State {
    State([], [], 0, Polling, seq(producers, i => false), false, [], [])
  }

  predicate Enabled(s: State, e: Event) {
    match e
    case Push(p, _) => p < |s.owes| && !s.owes[p]
    case Write(p) => p < |s.owes| && s.owes[p]
    case SelfPush(_) => !s.loop.Polling? && !s.selfOwes
    case SelfWrite => s.selfOwes
    case PollReturns(reported) => s.loop.Polling? && (reported ==> s.event > 0)
    case ReadEventFd => s.loop == Handling(true) && !s.selfOwes
    case Swap => s.loop == Handling(false) && !s.selfOwes
    case RunOne => s.loop.Running? && s.batch != [] && !s.selfOwes
    case PollAgain => s.loop.Running? && s.batch == [] && !s.selfOwes
  }

  function Step(s: State, e: Event): State
    requires Enabled(s, e)
  {
    match e
    case Push(p, task) => s.(tasks := s.tasks + [task], owes := s.owes[p := true], pushed := s.pushed + [task])
    case Write(p) => s.(event := s.event + 1, owes := s.owes[p := false])
    case SelfPush(task) => s.(tasks := s.tasks + [task], selfOwes := true, pushed := s.pushed + [task])
    case SelfWrite => s.(event := s.event + 1, selfOwes := false)
    case PollReturns(reported) => s.(loop := Handling(reported))
    case ReadEventFd => s.(event := 0, loop := Handling(false))
    case Swap => s.(batch := s.tasks, tasks := [], loop := Running)
    case RunOne => s.(batch := s.batch[1..], executed := s.executed + [s.batch[0]])
    case PollAgain => s.(loop := Polling)
  }

  predicate Possible(s: State, es: seq<Event>)
    decreases |es|
  {
    es == [] || (Enabled(s, es[0]) && Possible(Step(s, es[0]), es[1..]))
  }

  function Exec(s: State, es: seq<Event>): State
    requires Possible(s, es)
    decreases |es|
  {
    if es == [] then s else Exec(Step(s, es[0]), es[1..])
  }

  /** Someone is between its push and its write. */
  predicate Owed(s: State) { s.selfOwes || true in s.owes }

  /** Every pushed task is run, swapped out or queued, once, in push order; and the loop
      cannot go to sleep on a non-empty queue unnoticed. */
  predicate Inv(s: State) {
    s.pushed == s.executed + s.batch + s.tasks &&
    (s.batch != [] ==> s.loop.Running?) && (s.selfOwes ==> !s.loop.Polling?) &&
    (s.tasks != [] && !s.loop.Handling? ==> s.event > 0 || Owed(s))
  }

  lemma OwesChange(owes: seq<bool>, p: nat)
    requires p < |owes|
    ensures true in owes[p := true]
    ensures !owes[p] && true in owes ==> true in owes[p := true]
  {
    assert owes[p := true][p];
  }

  lemma StepKeeps(s: State, e: Event)
    requires Inv(s) && Enabled(s, e)
    ensures Inv(Step(s, e)) && s.executed <= Step(s, e).executed && s.pushed <= Step(s, e).pushed
  {
    match e
    case Push(p, task) => OwesChange(s.owes, p);
    case RunOne => assert s.executed + [s.batch[0]] + s.batch[1..] == s.executed + s.batch;
    case _ =>
  }

  lemma {:induction false} ExecKeeps(s: State, es: seq<Event>)
    requires Inv(s) && Possible(s, es)
    ensures Inv(Exec(s, es)) && s.executed <= Exec(s, es).executed
    decreases |es|
  {
    hide Inv, Step, Enabled;
    if es != [] {
      StepKeeps(s, es[0]);
      ExecKeeps(Step(s, es[0]), es[1..]);
    }
  }

  /** Over every interleaving of any number of producers with the loop thread: the tasks
      run so far are exactly the first pushed ones, once each and in order, and the loop is
      never blocked in Poll on a non-empty queue unless the eventfd is readable or some
      producer is about to write it. */
  lemma NoLostWakeUp(producers: nat, es: seq<Event>)
    requires Possible(Start(producers), es)
    ensures var s := Exec(Start(producers), es);
      s.executed <= s.pushed && s.pushed == s.executed + s.batch + s.tasks &&
      (s.loop.Polling? && s.tasks != [] ==> s.event > 0 || true in s.owes)
  {
    ExecKeeps(Start(producers), es);
  }

  // ----- Nobody is kept from going on

  /** A producer can always push, or write what it owes; and the loop thread is never stuck:
      it can write what it owes itself, or go on where it is, save for waiting in Poll,
      which an eventfd that is not zero ends. */
  lemma NeverStuck(s: State, p: nat, task: Task)
    requires Inv(s)
    ensures p < |s.owes| ==> if s.owes[p] then Enabled(s, Write(p)) else Enabled(s, Push(p, task))
    ensures if s.selfOwes then Enabled(s, SelfWrite)
            else
              match s.loop
              case Polling => Enabled(s, PollReturns(false)) && (Enabled(s, PollReturns(true)) <==> s.event > 0)
              case Handling(unread) => Enabled(s, SelfPush(task)) && Enabled(s, if unread then ReadEventFd else Swap)
              case Running => Enabled(s, SelfPush(task)) && Enabled(s, if s.batch == [] then PollAgain else RunOne)
  {
  }

  // ----- What the loop thread does on its own

  /** From Poll with a readable eventfd, one turn of the loop runs everything queued. */
  function Turn(n: nat): seq<Event> { [PollReturns(true), ReadEventFd, Swap] + Runs(n) + [PollAgain] }

  function Runs(n: nat): seq<Event> { if n == 0 then [] else [RunOne] + Runs(n - 1) }

  lemma {:induction false} RunsAll(s: State)
    requires s.loop.Running? && !s.selfOwes
    ensures var es := Runs(|s.batch|) + [PollAgain];
      Possible(s, es) && Exec(s, es) == s.(batch := [], executed := s.executed + s.batch, loop := Polling)
    decreases |s.batch|
  {
    var es := Runs(|s.batch|) + [PollAgain];
    if s.batch == [] {
      assert es == [PollAgain] && es[1..] == [];
      assert s.executed + s.batch == s.executed;
    } else {
      var u := Step(s, RunOne);
      assert es == [RunOne] + (Runs(|s.batch| - 1) + [PollAgain]);
      assert es[1..] == Runs(|u.batch|) + [PollAgain];
      RunsAll(u);
      assert u.executed + u.batch == s.executed + s.batch;
    }
  }

  /** Once the producers that pushed have written, a sleeping loop with work to do is woken,
      and its next turn runs every task pushed so far and goes back to sleep: nothing is left
      in the eventfd to wake it. */
  lemma WokenRunsAll(s: State)
    requires Inv(s) && s.loop.Polling? && s.tasks != [] && !Owed(s)
    ensures Enabled(s, PollReturns(true)) && Possible(s, Turn(|s.tasks|)) &&
      Exec(s, Turn(|s.tasks|)).executed == s.pushed
    ensures var u := Exec(s, Turn(|s.tasks|)); u.loop.Polling? && u.tasks == [] && !Enabled(u, PollReturns(true))
  {
    hide Runs, Owed, Possible, Exec;
    var s1 := Step(s, PollReturns(true));
    var s2 := Step(s1, ReadEventFd);
    var s3 := Step(s2, Swap);
    var tail := Runs(|s.tasks|) + [PollAgain];
    RunsAll(s3);
    ExecFirst(s2, Swap, tail);
    ExecFirst(s1, ReadEventFd, [Swap] + tail);
    ExecFirst(s, PollReturns(true), [ReadEventFd] + ([Swap] + tail));
    assert Turn(|s.tasks|) == [PollReturns(true)] + ([ReadEventFd] + ([Swap] + tail));
    assert s.executed + s.tasks == s.pushed;
  }

  lemma ExecFirst(s: State, e: Event, es: seq<Event>)
    requires Enabled(s, e) && Possible(Step(s, e), es)
    ensures Possible(s, [e] + es) && Exec(s, [e] + es) == Exec(Step(s, e), es)
  {
    hide Step, Enabled;
    assert ([e] + es)[1..] == es;
  }
}
