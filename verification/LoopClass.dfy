/** The class EventLoop of net/EventLoop.cc, with the steps of other threads and of the tasks
    let in between its statements.  What happens to it is a run of the protocol in EventLoops,
    so the theorems about runs are theorems about the object. */
module LoopClass {
  import opened Prelude
  import opened EventLoops

  /** Steps of other threads, and of user code in the loop thread. */
  predicate IsInterference(step: Step) {
    || step.Post? || step.PostWakeup? || step.QueueFromOutside? || step.Quit?
    || step.LoopQueue? || step.LoopWakeup?
  }

  predicate AreInterference(steps: seq<Step>) {
    forall i :: 0 <= i < |steps| ==> IsInterference(steps[i])
  }

  predicate AllInterference(between: seq<seq<Step>>) {
    forall i :: 0 <= i < |between| ==> AreInterference(between[i])
  }

  function At(between: seq<seq<Step>>, i: nat): seq<Step> {
    if i < |between| then between[i] else []
  }

  /** Interference moves neither the loop thread nor its batch, runs no task and takes none out
      of the queue. */
  lemma InterferenceKeeps(s: State, step: Step)
    requires IsInterference(step)
    ensures var s' := Exec(s, step);
            && s'.pc == s.pc && s'.batch == s.batch && s'.next == s.next && s'.batches == s.batches
            && s'.calling == s.calling && (!s.calling && !s.owesWakeup ==> !s'.owesWakeup)
            && s'.executed == s.executed && s.pending <= s'.pending
  {
  }

  // ---------------------------------------------------------------- the order of the statements

  /** The trace after a task during which `others` happens; if it calls queueInLoop, it
      finishes the call. */
  function TaskRun(trace: seq<Step>, others: seq<Step>): (r: seq<Step>)
    ensures trace <= r
  {
    trace + [BeginTask] + others + [LoopWakeup] + [EndTask]
  }

  /** The trace after the first n tasks of a batch, where between[i + 2] happens during the
      i-th. */
  function TasksRun(trace: seq<Step>, between: seq<seq<Step>>, n: nat): (r: seq<Step>)
    ensures trace <= r
  {
    if n == 0 then trace else TaskRun(TasksRun(trace, between, n - 1), At(between, n + 1))
  }

  /** The trace after doPendingFunctor, if it swaps n tasks out. */
  function PendingRun(trace: seq<Step>, between: seq<seq<Step>>, n: nat): (r: seq<Step>)
    ensures trace <= r
  {
    TasksRun(trace + [BeginFunctors] + At(between, 0) + [Swap] + At(between, 1), between, n) + [EndFunctors]
  }

  /** What happens in a turn of loop(): `during` while the loop thread is in poll, and `before`
      and `after` while it dispatches the active channels, before and after the one of the
      eventfd, which is among them if it was readable; then `between` in doPendingFunctor. */
  datatype Turning = Turning(during: seq<Step>, before: seq<Step>, after: seq<Step>, between: seq<seq<Step>>)

  predicate IsTurning(t: Turning) {
    AreInterference(t.during) && AreInterference(t.before) && AreInterference(t.after) && AllInterference(t.between)
  }

  function Dispatched(trace: seq<Step>, t: Turning): (r: seq<Step>)
    ensures trace <= r
  {
    trace + t.during + [PollReturn] + t.before + [ReadEventfd] + t.after
  }

  function TurnRun(trace: seq<Step>, t: Turning, n: nat): (r: seq<Step>)
    ensures trace <= r
  {
    PendingRun(Dispatched(trace, t), t.between, n) + [TestQuit]
  }

  /** Of the steps that make `trace` into `r`, none enters the loop. */
  predicate NoStart(trace: seq<Step>, r: seq<Step>) {
    trace <= r && forall i :: |trace| <= i < |r| ==> !r[i].StartLoop?
  }

  lemma TaskRunNoStart(trace: seq<Step>, r: seq<Step>, others: seq<Step>)
    requires NoStart(trace, r) && AreInterference(others)
    ensures NoStart(trace, TaskRun(r, others))
  {
  }

  lemma {:induction false} TasksRunNoStart(trace: seq<Step>, r: seq<Step>, between: seq<seq<Step>>, n: nat)
    requires NoStart(trace, r) && AllInterference(between)
    ensures NoStart(trace, TasksRun(r, between, n))
  {
    if n != 0 {
      TasksRunNoStart(trace, r, between, n - 1);
      TaskRunNoStart(trace, TasksRun(r, between, n - 1), At(between, n + 1));
    }
  }

  lemma DispatchedNoStart(trace: seq<Step>, t: Turning)
    requires IsTurning(t)
    ensures NoStart(trace, Dispatched(trace, t))
  {
  }

  lemma SwappedNoStart(trace: seq<Step>, r: seq<Step>, between: seq<seq<Step>>)
    requires NoStart(trace, r) && AllInterference(between)
    ensures NoStart(trace, r + [BeginFunctors] + At(between, 0) + [Swap] + At(between, 1))
  {
  }

  lemma TurnRunNoStart(trace: seq<Step>, t: Turning, n: nat)
    requires IsTurning(t)
    ensures NoStart(trace, TurnRun(trace, t, n))
  {
    DispatchedNoStart(trace, t);
    SwappedNoStart(trace, Dispatched(trace, t), t.between);
    TasksRunNoStart(trace, Dispatched(trace, t) + [BeginFunctors] + At(t.between, 0) + [Swap] + At(t.between, 1),
                    t.between, n);
  }

  /** Whether quit() was called, over a turn. */
  lemma QuitInTurn(trace: seq<Step>, t: Turning, n: nat)
    requires IsTurning(t)
    ensures var after := TurnRun(trace, t, n);
            Run(INITIAL, after).quit <==> Run(INITIAL, trace).quit || Quit in after[|trace|..]
  {
    var after := TurnRun(trace, t, n);
    TurnRunNoStart(trace, t, n);
    assert after == trace + after[|trace|..];
    FoldAppend(Exec, INITIAL, trace, after[|trace|..]);
    QuitSince(Run(INITIAL, trace), after[|trace|..]);
  }

  lemma QuitInParts(a: seq<Step>, b: seq<Step>, c: seq<Step>)
    requires a <= b <= c
    ensures Quit in c[|a|..] <==> Quit in b[|a|..] || Quit in c[|b|..]
  {
    assert c[|a|..] == b[|a|..] + c[|b|..];
  }

  /** What is in the queue when poll returns. */
  function PendingAtPoll(trace: seq<Step>, t: Turning): seq<Task> {
    Run(INITIAL, trace + t.during).pending
  }

  lemma OneMoreExecuted(done: seq<Task>, executed: seq<(Task, nat)>, functors: seq<Task>, i: nat, b: nat)
    requires i < |functors| && Tasks(executed) == done + functors[..i]
    ensures Tasks(executed + [(functors[i], b)]) == done + functors[..i + 1]
  {
    TasksSnoc(executed, functors[i], b);
    assert functors[..i + 1] == functors[..i] + [functors[i]];
    Associate(done, functors[..i], [functors[i]]);
  }

  class EventLoop {
    var pendingFunctors: seq<Task>
    var callingPendingFunctor: bool
    var quit: bool
    var eventfd: nat

    // where the threads are, and the local variables of doPendingFunctor
    var pc: Pc
    var owesWakeup: bool
    var waking: set<nat>
    var functors: seq<Task>
    var next: nat

    var batches: nat

    ghost var executed: seq<(Task, nat)>
    ghost var history: seq<Task>
    ghost var trace: seq<Step>

    ghost function Snapshot(): State
      reads this
    {
      State(pc, pendingFunctors, callingPendingFunctor, eventfd, quit, functors, next, owesWakeup, waking,
            batches, executed, history)
    }

    /** What happened so far is a run of the protocol. */
    ghost predicate Valid()
      reads this
    {
      Snapshot() == Run(INITIAL, trace)
    }

    // -------------------------------------------------------------- what holds of the object

    /** No wakeup is lost: in poll, a task in the queue that was posted with runInLoop, or
        queued in the loop thread while looping, has its wakeup written or about to be. */
    lemma WakesForTasks(i: nat)
      requires Valid() && pc.Polling? && i < |pendingFunctors| && !pendingFunctors[i].origin.Unwoken?
      ensures eventfd > 0 || (pendingFunctors[i].origin.Posted? && pendingFunctors[i].origin.thread in waking)
    {
      NoLostWakeup(trace, i);
    }

    /** Tasks run exactly once and in the order of queueing. */
    lemma RunsInOrder()
      requires Valid()
      ensures Tasks(executed) + Unstarted(Snapshot()) + pendingFunctors == history
      ensures !callingPendingFunctor ==> Tasks(executed) + pendingFunctors == history
    {
      ExactlyOnceInOrder(trace);
      RunKeepsInv(trace);
      assert Tasks(executed) + [] == Tasks(executed);
    }

    // -------------------------------------------------------------- any thread

    constructor ()
      ensures Valid() && Snapshot() == INITIAL
    {
      pendingFunctors, callingPendingFunctor, quit, eventfd := [], false, false, 0;
      pc, owesWakeup, waking, functors, next := NotLooping, false, {}, [], 0;
      batches, executed, history, trace := 0, [], [], [];
    }

    /** The region under the mutex in queueInLoop. */
    method Push(id: nat, origin: Origin)
      modifies this`pendingFunctors, this`history
      ensures Snapshot() == EventLoops.Push(old(Snapshot()), id, origin)
    {
      var task := Task(id, origin, batches);
      pendingFunctors := pendingFunctors + [task];
      history := history + [task];
    }

    /** wakeup() */
    method WriteEventfd()
      modifies this`eventfd
      ensures eventfd == Wakeup(old(eventfd))
    {
      if eventfd < EVENTFD_MAX {
        eventfd := eventfd + 1;
      }
    }

    /** One step of another thread, or of user code. */
    method TakeOne(step: Step)
      requires IsInterference(step)
      modifies this
      ensures Snapshot() == Exec(old(Snapshot()), step) && trace == old(trace)
    {
      match step {
        case Post(thread, id) =>
          if thread !in waking {
            Push(id, Posted(thread));
            waking := waking + {thread};
          }
        case PostWakeup(thread) =>
          if thread in waking {
            WriteEventfd();
            waking := waking - {thread};
          }
        case QueueFromOutside(id) => Push(id, Unwoken);
        case Quit => quit := true;
        case LoopQueue(id) =>
          if UserCode(pc) && !owesWakeup {
            Push(id, if pc.NotLooping? then Unwoken else Queued);
            owesWakeup := callingPendingFunctor;
          }
        case LoopWakeup =>
          if owesWakeup {
            WriteEventfd();
            owesWakeup := false;
          }
      }
    }

    method Interfere(others: seq<Step>)
      requires Valid() && AreInterference(others)
      modifies this
      ensures Valid() && trace == old(trace) + others
      ensures pc == old(pc) && functors == old(functors) && next == old(next) && batches == old(batches)
      ensures callingPendingFunctor == old(callingPendingFunctor) && executed == old(executed)
      ensures !callingPendingFunctor && !old(owesWakeup) ==> !owesWakeup
      ensures old(pendingFunctors) <= pendingFunctors
      ensures others == [] ==> pendingFunctors == old(pendingFunctors)
    {
      for i := 0 to |others|
        invariant Valid() && trace == old(trace) + others[..i]
        invariant pc == old(pc) && functors == old(functors) && next == old(next) && batches == old(batches)
        invariant callingPendingFunctor == old(callingPendingFunctor) && executed == old(executed)
        invariant !callingPendingFunctor && !old(owesWakeup) ==> !owesWakeup
        invariant old(pendingFunctors) <= pendingFunctors
        invariant i == 0 ==> pendingFunctors == old(pendingFunctors)
      {
        InterferenceKeeps(Snapshot(), others[i]);
        TakeOne(others[i]);
        Note(others[i]);
      }
    }

    /** Puts the step that was taken last into the trace. */
    ghost method Note(step: Step)
      requires Snapshot() == Exec(Run(INITIAL, trace), step)
      modifies this`trace
      ensures Valid() && trace == old(trace) + [step]
    {
      FoldSnoc(Exec, INITIAL, trace, step);
      trace := trace + [step];
    }

    /** runInLoop in another thread; `others` happens between the push and the wakeup. */
    method RunInLoop(thread: nat, id: nat, others: seq<Step>)
      requires Valid() && thread !in waking && AreInterference(others)
      modifies this
      ensures Valid() && trace == old(trace) + [Post(thread, id)] + others + [PostWakeup(thread)]
      ensures old(pendingFunctors) + [Task(id, Posted(thread), batches)] <= pendingFunctors
    {
      Push(id, Posted(thread));
      waking := waking + {thread};
      Note(Post(thread, id));
      Interfere(others);
      if thread in waking {
        WriteEventfd();
        waking := waking - {thread};
      }
      Note(PostWakeup(thread));
    }

    // -------------------------------------------------------------- the loop thread

    /** queueInLoop in the loop thread; `others` happens between the push and the wakeup. */
    method QueueInLoop(id: nat, others: seq<Step>)
      requires Valid() && UserCode(pc) && !owesWakeup && AreInterference(others)
      modifies this
      ensures Valid() && trace == old(trace) + [LoopQueue(id)] + others + [LoopWakeup]
      ensures pc == old(pc) && functors == old(functors) && executed == old(executed) && !owesWakeup
      ensures old(pendingFunctors) + [Task(id, if pc.NotLooping? then Unwoken else Queued, batches)] <= pendingFunctors
    {
      Push(id, if pc.NotLooping? then Unwoken else Queued);
      owesWakeup := callingPendingFunctor;
      Note(LoopQueue(id));
      Interfere(others);
      FinishQueueInLoop();
    }

    /** The wakeup of queueInLoop, if its condition held. */
    method FinishQueueInLoop()
      requires Valid()
      modifies this`eventfd, this`owesWakeup, this`trace
      ensures Valid() && trace == old(trace) + [LoopWakeup] && !owesWakeup
    {
      if owesWakeup {
        WriteEventfd();
        owesWakeup := false;
      }
      Note(LoopWakeup);
    }

    /** handleRead of the wakeup channel, which the dispatch calls if poll reported it. */
    method HandleRead()
      requires Valid() && pc.Handling? && !owesWakeup
      modifies this`eventfd, this`pc, this`trace
      ensures Valid() && trace == old(trace) + [ReadEventfd] && pc == Handling(false)
    {
      if pc.wakeReady {
        eventfd := 0;
        pc := Handling(false);
      }
      Note(ReadEventfd);
    }

    /** functors[i](); what it does is among the others. */
    method RunFunctor(others: seq<Step>)
      requires Valid() && pc.Running? && next < |functors| && AreInterference(others)
      modifies this
      ensures Valid() && trace == TaskRun(old(trace), others)
      ensures pc.Running? && functors == old(functors) && next == old(next) + 1
      ensures executed == old(executed) + [(old(functors[next]), old(batches))] && batches == old(batches)
    {
      BeginFunctor();
      Interfere(others);
      FinishQueueInLoop();
      EndFunctor();
    }

    method BeginFunctor()
      requires Valid() && pc.Running? && next < |functors|
      modifies this`pc, this`executed, this`trace
      ensures Valid() && trace == old(trace) + [BeginTask] && pc.InTask?
      ensures executed == old(executed) + [(functors[next], batches)]
    {
      executed := executed + [(functors[next], batches)];
      pc := InTask;
      Note(BeginTask);
    }

    method EndFunctor()
      requires Valid() && pc.InTask? && !owesWakeup
      modifies this`pc, this`next, this`trace
      ensures Valid() && trace == old(trace) + [EndTask] && pc.Running? && next == old(next) + 1
    {
      pc := Running;
      next := next + 1;
      Note(EndTask);
    }

    method SwapOut(others: seq<Step>)
      requires Valid() && pc == Handling(false) && !owesWakeup && AreInterference(others)
      modifies this
      ensures Valid() && trace == old(trace) + [BeginFunctors] + others + [Swap]
      ensures pc.Running? && next == 0 && executed == old(executed) && old(pendingFunctors) <= functors
      ensures others == [] ==> functors == old(pendingFunctors)
    {
      BeginPending();
      Interfere(others);
      TakePending();
    }

    method BeginPending()
      requires Valid() && pc == Handling(false) && !owesWakeup
      modifies this`callingPendingFunctor, this`pc, this`trace
      ensures Valid() && trace == old(trace) + [BeginFunctors] && pc.Starting?
    {
      callingPendingFunctor := true;
      pc := Starting;
      Note(BeginFunctors);
    }

    /** The swap under the mutex. */
    method TakePending()
      requires Valid() && pc.Starting?
      modifies this`functors, this`next, this`pendingFunctors, this`batches, this`pc, this`trace
      ensures Valid() && trace == old(trace) + [Swap] && pc.Running? && next == 0
      ensures functors == old(pendingFunctors)
    {
      functors, next, pendingFunctors := pendingFunctors, 0, [];
      batches := batches + 1;
      pc := Running;
      Note(Swap);
    }

    /** The loop has run the first i functors; `before` and `done` are what the trace and the
        executed tasks were when it began. */
    ghost predicate HasRun(before: seq<Step>, done: seq<Task>, between: seq<seq<Step>>, i: nat)
      reads this
    {
      && Valid() && trace == TasksRun(before, between, i)
      && pc.Running? && next == i <= |functors| && Tasks(executed) == done + functors[..i]
    }

    method RunNext(ghost before: seq<Step>, ghost done: seq<Task>, between: seq<seq<Step>>, i: nat)
      requires HasRun(before, done, between, i) && i < |functors| && AllInterference(between)
      modifies this
      ensures HasRun(before, done, between, i + 1) && functors == old(functors)
    {
      OneMoreExecuted(done, executed, functors, i, batches);
      RunFunctor(At(between, i + 2));
    }

    /** The loop over the functors. */
    method RunFunctors(between: seq<seq<Step>>)
      requires Valid() && pc.Running? && next == 0 && AllInterference(between)
      modifies this
      ensures Valid() && trace == TasksRun(old(trace), between, |functors|)
      ensures pc.Running? && next == |functors| && functors == old(functors)
      ensures Tasks(executed) == Tasks(old(executed)) + functors
    {
      ghost var before, done := trace, Tasks(executed);
      for i := 0 to |functors|
        invariant functors == old(functors)
        invariant HasRun(before, done, between, i)
      {
        RunNext(before, done, between, i);
      }
    }

    /** doPendingFunctor: it runs, in order and each once, exactly the tasks that it swaps out,
        among them all that were queued when it began; tasks that arrive while they run stay in
        the queue. */
    method DoPendingFunctor(between: seq<seq<Step>>)
      requires Valid() && pc == Handling(false) && !owesWakeup && AllInterference(between)
      modifies this
      ensures Valid() && trace == PendingRun(old(trace), between, |functors|) && pc.Testing?
      ensures Tasks(executed) == Tasks(old(executed)) + functors && old(pendingFunctors) <= functors
      ensures At(between, 0) == [] ==> functors == old(pendingFunctors)
    {
      SwapOut(At(between, 0));
      Interfere(At(between, 1));
      RunFunctors(between);
      EndPending();
    }

    method EndPending()
      requires Valid() && pc.Running? && next == |functors|
      modifies this`callingPendingFunctor, this`pc, this`trace
      ensures Valid() && trace == old(trace) + [EndFunctors] && pc.Testing?
    {
      callingPendingFunctor := false;
      pc := Testing;
      Note(EndFunctors);
    }

    /** poll, while `during` happens. */
    method Poll(during: seq<Step>)
      requires Valid() && pc.Polling? && !callingPendingFunctor && !owesWakeup && AreInterference(during)
      modifies this
      ensures Valid() && trace == old(trace) + during + [PollReturn] && pc.Handling?
      ensures !callingPendingFunctor && !owesWakeup && executed == old(executed)
      ensures old(pendingFunctors) <= pendingFunctors == Run(INITIAL, old(trace) + during).pending
    {
      Interfere(during);
      ReturnFromPoll();
    }

    method ReturnFromPoll()
      requires Valid() && pc.Polling?
      modifies this`pc, this`trace
      ensures Valid() && trace == old(trace) + [PollReturn] && pc.Handling?
    {
      pc := Handling(eventfd > 0);
      Note(PollReturn);
    }

    method PollAndDispatch(t: Turning)
      requires Valid() && pc.Polling? && IsTurning(t)
      modifies this
      ensures Valid() && trace == Dispatched(old(trace), t)
      ensures pc == Handling(false) && !owesWakeup
      ensures executed == old(executed)
      ensures old(pendingFunctors) <= PendingAtPoll(old(trace), t) <= pendingFunctors
    {
      NotCalling();
      Poll(t.during);
      Interfere(t.before);
      HandleRead();
      Interfere(t.after);
    }

    /** The body of the while loop of loop(), and the test after it.  Whatever was queued when
        the turn began, or when poll returned, has run at its end, in order, before anything
        queued later. */
    method Turn(t: Turning)
      requires Valid() && pc.Polling? && IsTurning(t)
      modifies this
      ensures Valid() && trace == TurnRun(old(trace), t, |functors|)
      ensures Tasks(executed) == Tasks(old(executed)) + functors
      ensures old(pendingFunctors) <= PendingAtPoll(old(trace), t) <= functors
      ensures pc.NotLooping? || pc.Polling?
      ensures pc.NotLooping? <==> old(quit) || Quit in trace[|old(trace)|..]
      ensures pc.NotLooping? <==> quit
    {
      PollAndDispatch(t);
      DoPendingFunctor(t.between);
      TestLoop();
      QuitInTurn(old(trace), t, |functors|);
    }

    /** The condition of the while loop. */
    method TestLoop()
      requires Valid() && pc.Testing?
      modifies this`pc, this`trace
      ensures Valid() && trace == old(trace) + [TestQuit]
      ensures if quit then pc.NotLooping? else pc.Polling?
    {
      pc := if quit then NotLooping else Polling;
      Note(TestQuit);
    }

    lemma NotCalling()
      requires Valid() && pc.Polling?
      ensures !callingPendingFunctor && !owesWakeup
    {
      RunKeepsInv(trace);
    }

    method BeginLoop()
      requires Valid() && pc.NotLooping? && !owesWakeup
      modifies this`quit, this`pc, this`trace
      ensures Valid() && trace == old(trace) + [StartLoop] && pc.Polling? && !quit
    {
      quit := false;
      pc := Polling;
      Note(StartLoop);
    }

    /** loop(), for as many turns as are given: all that was queued when it was called runs in
        the first of them. */
    method Loop(turns: seq<Turning>)
      requires Valid() && pc.NotLooping? && !owesWakeup && forall i :: 0 <= i < |turns| ==> IsTurning(turns[i])
      modifies this
      ensures Valid() && old(trace) + [StartLoop] <= trace
      ensures pc.NotLooping? || pc.Polling?
      ensures pc.NotLooping? <==> Quit in trace[|old(trace)|..]
      ensures turns != [] ==> Tasks(old(executed)) + old(pendingFunctors) <= Tasks(executed)
    {
      BeginLoop();
      var i := 0;
      while i < |turns| && pc.Polling?
        invariant 0 <= i <= |turns|
        invariant Valid() && old(trace) + [StartLoop] <= trace
        invariant pc.NotLooping? || pc.Polling?
        invariant pc.Polling? ==> !quit
        invariant pc.NotLooping? <==> Quit in trace[|old(trace)|..]
        invariant i == 0 ==> pc.Polling? && executed == old(executed) && pendingFunctors == old(pendingFunctors)
        invariant i > 0 ==> Tasks(old(executed)) + old(pendingFunctors) <= Tasks(executed)
      {
        ghost var before := trace;
        Turn(turns[i]);
        QuitInParts(old(trace), before, trace);
        i := i + 1;
      }
    }
  }
}
