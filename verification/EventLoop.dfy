/** The task queue of net/EventLoop.cc as a protocol: the loop thread and any number of other
    threads interleave in single steps, a region under the mutex being one step. */
module EventLoops {
  import opened Prelude

  /** How a task got into the queue.  Posted: by runInLoop in another thread.  Queued: by
      queueInLoop in the loop thread, while it is looping.  Unwoken: by queueInLoop called
      directly in another thread, or in the loop thread outside loop(); there the condition of
      line 128 never holds, and nothing is written to the eventfd. */
  datatype Origin = Posted(thread: nat) | Queued | Unwoken

  /** `epoch` is the number of batches taken when the task was queued. */
  datatype Task = Task(id: nat, origin: Origin, epoch: nat)

  /** Where the loop thread is.  Handling: dispatching the active channels; `wakeReady` means
      that the eventfd was readable when poll returned and has not been read yet.  Starting:
      callingPendingFunctor_ is set and the queue not yet swapped out.  Running and InTask:
      in the loop of doPendingFunctor, before or inside functors[next]().  Testing: at the
      condition of the while loop. */
  datatype Pc = NotLooping | Polling | Handling(wakeReady: bool) | Starting | Running | InTask | Testing

  datatype State = State(
    pc: Pc,
    pending: seq<Task>,
    calling: bool,
    eventfd: nat,
    quit: bool,
    batch: seq<Task>,
    next: nat,
    /** the loop thread is between the push and the wakeup of queueInLoop */
    owesWakeup: bool,
    /** the other threads that are between the push and the wakeup of runInLoop */
    waking: set<nat>,
    batches: nat,
    /** the tasks run so far, each with the number of its batch */
    executed: seq<(Task, nat)>,
    /** the tasks queued so far */
    history: seq<Task>)

  const INITIAL: State := State(NotLooping, [], false, 0, false, [], 0, false, {}, 0, [], [])

  const EVENTFD_MAX: nat := 0xFFFF_FFFF_FFFF_FFFE

  datatype Step =
    // steps of other threads
    | Post(thread: nat, id: nat)
    | PostWakeup(thread: nat)
    | QueueFromOutside(id: nat)
    | Quit
    // steps of callbacks and tasks in the loop thread
    | LoopQueue(id: nat)
    | LoopWakeup
    // steps of loop() and doPendingFunctor
    | StartLoop
    | PollReturn
    | ReadEventfd
    | BeginFunctors
    | Swap
    | BeginTask
    | EndTask
    | EndFunctors
    | TestQuit

  /** User code runs in the loop thread before loop(), in channel callbacks and in tasks. */
  predicate UserCode(pc: Pc) {
    pc.NotLooping? || pc.Handling? || pc.InTask?
  }

  predicate Enabled(s: State, step: Step) {
    match step
    case Post(thread, _) => thread !in s.waking
    case PostWakeup(thread) => thread in s.waking
    case QueueFromOutside(_) => true
    case Quit => true
    case LoopQueue(_) => UserCode(s.pc) && !s.owesWakeup
    case LoopWakeup => s.owesWakeup
    case StartLoop => s.pc.NotLooping? && !s.owesWakeup
    case PollReturn => s.pc.Polling?
    case ReadEventfd => s.pc.Handling? && s.pc.wakeReady && !s.owesWakeup
    case BeginFunctors => s.pc.Handling? && !s.pc.wakeReady && !s.owesWakeup
    case Swap => s.pc.Starting?
    case BeginTask => s.pc.Running? && s.next < |s.batch|
    case EndTask => s.pc.InTask? && !s.owesWakeup
    case EndFunctors => s.pc.Running? && s.next == |s.batch|
    case TestQuit => s.pc.Testing?
  }

  function Push(s: State, id: nat, origin: Origin): State {
    var t := Task(id, origin, s.batches);
    s.(pending := s.pending + [t], history := s.history + [t])
  }

  /** A write of 1; a full counter refuses it and stays as it is. */
  function Wakeup(eventfd: nat): nat {
    if eventfd < EVENTFD_MAX then eventfd + 1 else eventfd
  }

  /** A step that is not enabled does not happen. */
  function Exec(s: State, step: Step): State {
    if !Enabled(s, step) then s else
    match step
    case Post(thread, id) => Push(s, id, Posted(thread)).(waking := s.waking + {thread})
    case PostWakeup(thread) => s.(eventfd := Wakeup(s.eventfd), waking := s.waking - {thread})
    case QueueFromOutside(id) => Push(s, id, Unwoken)
    case Quit => s.(quit := true)
    case LoopQueue(id) =>
      Push(s, id, if s.pc.NotLooping? then Unwoken else Queued).(owesWakeup := s.calling)
    case LoopWakeup => s.(eventfd := Wakeup(s.eventfd), owesWakeup := false)
    case StartLoop => s.(pc := Polling, quit := false)
    case PollReturn => s.(pc := Handling(s.eventfd > 0))
    case ReadEventfd => s.(pc := Handling(false), eventfd := 0)
    case BeginFunctors => s.(pc := Starting, calling := true)
    case Swap => s.(pc := Running, batch := s.pending, next := 0, pending := [], batches := s.batches + 1)
    case BeginTask => s.(pc := InTask, executed := s.executed + [(s.batch[s.next], s.batches)])
    case EndTask => s.(pc := Running, next := s.next + 1)
    case EndFunctors => s.(pc := Testing, calling := false)
    case TestQuit => s.(pc := if s.quit then NotLooping else Polling)
  }

  function Run(s: State, steps: seq<Step>): State {
    Fold(Exec, s, steps)
  }

  // ---------------------------------------------------------------- invariants

  /** The tasks of the batch that have not begun. */
  function Unstarted(s: State): seq<Task> {
    if s.pc.Running? && s.next <= |s.batch| then s.batch[s.next..]
    else if s.pc.InTask? && s.next < |s.batch| then s.batch[s.next + 1..]
    else []
  }

  function Tasks(executed: seq<(Task, nat)>): seq<Task> {
    seq(|executed|, i requires 0 <= i < |executed| => executed[i].0)
  }

  ghost predicate Control(s: State) {
    && (s.calling <==> s.pc.Starting? || s.pc.Running? || s.pc.InTask?)
    && (s.owesWakeup ==> s.pc.InTask?)
    && (s.pc.Running? ==> s.next <= |s.batch|)
    && (s.pc.InTask? ==> s.next < |s.batch|)
  }

  /** Executed tasks, then the rest of the batch, then the queue, are the history. */
  ghost predicate Fifo(s: State) {
    Tasks(s.executed) + Unstarted(s) + s.pending == s.history
  }

  /** A queued task waits for the next batch, a task of the batch was queued for this one, and
      an executed task ran in the batch after its epoch. */
  ghost predicate NextBatch(s: State) {
    && (forall i :: 0 <= i < |s.pending| ==> s.pending[i].epoch == s.batches)
    && (forall i :: 0 <= i < |Unstarted(s)| ==> Unstarted(s)[i].epoch + 1 == s.batches)
    && (forall i :: 0 <= i < |s.executed| ==> s.executed[i].1 == s.executed[i].0.epoch + 1)
  }

  /** The task's wakeup has been written, or is about to be by the thread that queued it. */
  predicate WillWake(s: State, t: Task) {
    || t.origin.Unwoken?
    || s.eventfd > 0
    || (t.origin.Posted? && t.origin.thread in s.waking)
    || (t.origin.Queued? && s.owesWakeup)
  }

  /** From the swap until poll returns, every queued task is going to interrupt poll. */
  ghost predicate Covered(s: State) {
    !s.pc.Handling? && !s.pc.Starting? ==> forall i :: 0 <= i < |s.pending| ==> WillWake(s, s.pending[i])
  }

  ghost predicate Inv(s: State) {
    Control(s) && Fifo(s) && NextBatch(s) && Covered(s)
  }

  lemma TasksSnoc(executed: seq<(Task, nat)>, t: Task, b: nat)
    ensures Tasks(executed + [(t, b)]) == Tasks(executed) + [t]
  {
  }

  lemma StepKeepsControl(s: State, step: Step)
    requires Control(s)
    ensures Control(Exec(s, step))
  {
  }

  lemma StepKeepsCovered(s: State, step: Step)
    requires Control(s) && Covered(s)
    ensures Covered(Exec(s, step))
  {
  }

  lemma StepKeepsNextBatch(s: State, step: Step)
    requires Control(s) && NextBatch(s)
    ensures NextBatch(Exec(s, step))
  {
    var s' := Exec(s, step);
    if Enabled(s, step) && step.BeginTask? {
      assert Unstarted(s)[0] == s.batch[s.next];
      assert Unstarted(s') == Unstarted(s)[1..];
    } else if Enabled(s, step) && step.Swap? {
      assert Unstarted(s') == s.pending;
    } else {
      assert Unstarted(s') == Unstarted(s);
    }
  }

  lemma PushKeepsFifo(done: seq<Task>, pending: seq<Task>, history: seq<Task>, t: Task)
    requires done + pending == history
    ensures done + (pending + [t]) == history + [t]
  {
  }

  lemma StepKeepsFifo(s: State, step: Step)
    requires Control(s) && Fifo(s)
    ensures Fifo(Exec(s, step))
  {
    if Enabled(s, step) {
      var s' := Exec(s, step);
      match step {
        case BeginTask =>
          TasksSnoc(s.executed, s.batch[s.next], s.batches);
          assert s.batch[s.next..] == [s.batch[s.next]] + s.batch[s.next + 1..];
          Associate(Tasks(s.executed), [s.batch[s.next]], Unstarted(s'));
        case Swap =>
          assert Unstarted(s') == s.pending;
          assert Tasks(s.executed) + [] == Tasks(s.executed);
          assert Tasks(s.executed) + s.pending + [] == Tasks(s.executed) + s.pending;
        case EndTask => assert Unstarted(s') == Unstarted(s);
        case Post(_, _) =>
          PushKeepsFifo(Tasks(s.executed) + Unstarted(s), s.pending, s.history, s'.pending[|s.pending|]);
        case QueueFromOutside(_) =>
          PushKeepsFifo(Tasks(s.executed) + Unstarted(s), s.pending, s.history, s'.pending[|s.pending|]);
        case LoopQueue(_) =>
          PushKeepsFifo(Tasks(s.executed) + Unstarted(s), s.pending, s.history, s'.pending[|s.pending|]);
        case _ => assert Unstarted(s') == Unstarted(s);
      }
    }
  }

  lemma {:induction false} RunKeepsInv(steps: seq<Step>)
    ensures Inv(Run(INITIAL, steps))
    decreases |steps|
  {
    if steps != [] {
      var before, step := steps[..|steps| - 1], steps[|steps| - 1];
      RunKeepsInv(before);
      var s := Run(INITIAL, before);
      StepKeepsControl(s, step);
      StepKeepsCovered(s, step);
      StepKeepsNextBatch(s, step);
      StepKeepsFifo(s, step);
    }
  }

  // ---------------------------------------------------------------- theorems

  /** No lost wakeup.  In every interleaving, when the loop thread is in poll and a task is
      queued that was posted with runInLoop, or queued by the loop thread while looping, then
      the eventfd is readable, or the thread that posted the task is about to make it so. */
  lemma NoLostWakeup(steps: seq<Step>, i: nat)
    requires var s := Run(INITIAL, steps); s.pc.Polling? && i < |s.pending| && !s.pending[i].origin.Unwoken?
    ensures var s := Run(INITIAL, steps);
            s.eventfd > 0 || (s.pending[i].origin.Posted? && s.pending[i].origin.thread in s.waking)
  {
    RunKeepsInv(steps);
  }

  /** The loop thread sleeps in poll, and no thread is about to wake it. */
  predicate Asleep(s: State) {
    s.pc.Polling? && s.eventfd == 0 && s.waking == {}
  }

  /** So a sleeping loop thread leaves only tasks that were queued without a wakeup. */
  lemma SleepsOnlyOnUnwoken(steps: seq<Step>)
    requires Asleep(Run(INITIAL, steps))
    ensures forall t :: t in Run(INITIAL, steps).pending ==> t.origin.Unwoken?
  {
    RunKeepsInv(steps);
    var s := Run(INITIAL, steps);
    forall t | t in s.pending ensures t.origin.Unwoken? {
      var i :| 0 <= i < |s.pending| && s.pending[i] == t;
      assert WillWake(s, s.pending[i]);
    }
  }

  /** Whenever the loop thread is asleep, whatever happened before: another thread's push leaves
      it asleep exactly if it is that of a direct queueInLoop; the push of runInLoop is followed
      by a wakeup, which makes the eventfd readable. */
  lemma OnlyRunInLoopWakes(steps: seq<Step>, step: Step)
    requires Asleep(Run(INITIAL, steps)) && (step.QueueFromOutside? || step.Post?)
    ensures var s := Run(INITIAL, steps);
            var s' := Exec(s, step);
            && s'.pc.Polling? && |s'.pending| == |s.pending| + 1 && s'.pending[|s.pending|].id == step.id
            && (Asleep(s') <==> step.QueueFromOutside?)
            && (step.Post? ==> Exec(s', PostWakeup(step.thread)).eventfd > 0)
  {
  }

  /** The sleep goes on until a thread calls runInLoop or poll returns by itself. */
  ghost predicate NothingWakes(steps: seq<Step>) {
    forall i :: 0 <= i < |steps| ==> !steps[i].Post? && !steps[i].PollReturn?
  }

  lemma {:induction false} SleepGoesOn(s: State, steps: seq<Step>)
    requires Asleep(s) && Control(s) && NothingWakes(steps)
    ensures var s' := Run(s, steps); Asleep(s') && Control(s') && s.pending <= s'.pending && s'.executed == s.executed
    decreases |steps|
  {
    if steps != [] {
      SleepGoesOn(s, steps[..|steps| - 1]);
      StepKeepsControl(Run(s, steps[..|steps| - 1]), steps[|steps| - 1]);
    }
  }

  /** A task that another thread queues directly while the loop thread is asleep stays in the
      queue, behind those that were left there, and the loop thread asleep, however the run goes
      on without a runInLoop and without poll returning by itself. */
  lemma UnwokenTaskWaits(steps: seq<Step>, id: nat, more: seq<Step>)
    requires Asleep(Run(INITIAL, steps)) && NothingWakes(more)
    ensures var s := Run(INITIAL, steps);
            var s' := Run(Exec(s, QueueFromOutside(id)), more);
            && Asleep(s') && s'.executed == s.executed
            && s.pending + [Task(id, Unwoken, s.batches)] <= s'.pending
  {
    RunKeepsInv(steps);
    var s := Exec(Run(INITIAL, steps), QueueFromOutside(id));
    SleepGoesOn(s, more);
  }

  /** A task queued directly from another thread, or before loop() was entered, can so be left
      behind by the very first poll. */
  lemma UnwokenTasksAreLeft(id: nat)
    ensures var s := Run(INITIAL, [StartLoop, QueueFromOutside(id)]); Asleep(s) && s.pending != []
    ensures var s := Run(INITIAL, [LoopQueue(id), StartLoop]); Asleep(s) && s.pending != []
  {
    FoldTwo(Exec, INITIAL, StartLoop, QueueFromOutside(id));
    FoldTwo(Exec, INITIAL, LoopQueue(id), StartLoop);
  }

  /** Exactly once, in order: at every step the executed tasks, the rest of the running batch
      and the queue are, one after the other, the tasks queued so far. */
  lemma ExactlyOnceInOrder(steps: seq<Step>)
    ensures var s := Run(INITIAL, steps); Tasks(s.executed) + Unstarted(s) + s.pending == s.history
  {
    RunKeepsInv(steps);
  }

  /** A task runs in the batch that is taken next after it was queued: never in the one that
      is running then, and never later. */
  lemma RunsInTheNextBatch(steps: seq<Step>)
    ensures var s := Run(INITIAL, steps);
            forall i :: 0 <= i < |s.executed| ==> s.executed[i].1 == s.executed[i].0.epoch + 1
  {
    RunKeepsInv(steps);
  }

  /** The number of tasks that the current batch can still begin. */
  function ToBegin(s: State): nat {
    |Unstarted(s)|
  }

  lemma BatchesGrow(s: State, step: Step)
    ensures s.batches <= Exec(s, step).batches
  {
  }

  lemma {:induction false} BatchesGrowAll(s: State, steps: seq<Step>)
    ensures s.batches <= Run(s, steps).batches
    decreases |steps|
  {
    if steps != [] {
      BatchesGrowAll(s, steps[..|steps| - 1]);
      BatchesGrow(Run(s, steps[..|steps| - 1]), steps[|steps| - 1]);
    }
  }

  lemma StepInBatch(s: State, step: Step)
    requires Control(s) && Exec(s, step).batches == s.batches
    ensures var s' := Exec(s, step);
            && |s'.executed| - |s.executed| == ToBegin(s) - ToBegin(s')
            && Tasks(s'.executed) + Unstarted(s') == Tasks(s.executed) + Unstarted(s)
  {
    var s' := Exec(s, step);
    if Enabled(s, step) && step.BeginTask? {
      TasksSnoc(s.executed, s.batch[s.next], s.batches);
      assert s.batch[s.next..] == [s.batch[s.next]] + s.batch[s.next + 1..];
      Associate(Tasks(s.executed), [s.batch[s.next]], Unstarted(s'));
    } else {
      assert Unstarted(s') == Unstarted(s);
    }
  }

  /** A batch ends: from any state in it, whatever tasks queue meanwhile, it begins exactly the
      tasks that it had left, or as many of them as it got to; none is added. */
  lemma {:induction false} BatchIsFixed(steps: seq<Step>, more: seq<Step>)
    requires var s := Run(INITIAL, steps); s.pc.Running? || s.pc.InTask?
    requires Run(Run(INITIAL, steps), more).batches == Run(INITIAL, steps).batches
    ensures var s, s' := Run(INITIAL, steps), Run(Run(INITIAL, steps), more);
            && |s'.executed| - |s.executed| == ToBegin(s) - ToBegin(s')
            && Tasks(s'.executed) + Unstarted(s') == Tasks(s.executed) + Unstarted(s)
    decreases |more|
  {
    if more != [] {
      var before, step := more[..|more| - 1], more[|more| - 1];
      FoldAppend(Exec, INITIAL, steps, before);
      RunKeepsInv(steps + before);
      var s := Run(Run(INITIAL, steps), before);
      BatchesGrow(s, step);
      BatchesGrowAll(Run(INITIAL, steps), before);
      BatchIsFixed(steps, before);
      StepInBatch(s, step);
    }
  }

  // ---------------------------------------------------------------- what the steps of a run asked for

  /** The task that a step queues, and from where. */
  function QueuedBy(s: State, step: Step): seq<(nat, Origin)> {
    if step.Post? && step.thread !in s.waking then [(step.id, Posted(step.thread))]
    else if step.QueueFromOutside? then [(step.id, Unwoken)]
    else if step.LoopQueue? && UserCode(s.pc) && !s.owesWakeup then
      [(step.id, if s.pc.NotLooping? then Unwoken else Queued)]
    else []
  }

  function Queuings(steps: seq<Step>): seq<(nat, Origin)>
    decreases |steps|
  {
    if steps == [] then []
    else Queuings(steps[..|steps| - 1]) + QueuedBy(Run(INITIAL, steps[..|steps| - 1]), steps[|steps| - 1])
  }

  function Named(ts: seq<Task>): seq<(nat, Origin)> {
    seq(|ts|, i requires 0 <= i < |ts| => (ts[i].id, ts[i].origin))
  }

  lemma StepQueues(s: State, step: Step)
    ensures Named(Exec(s, step).history) == Named(s.history) + QueuedBy(s, step)
  {
  }

  /** The history is what was queued: with ExactlyOnceInOrder, the tasks that are run are those,
      each once and in this order. */
  lemma {:induction false} HistoryIsQueuings(steps: seq<Step>)
    ensures Named(Run(INITIAL, steps).history) == Queuings(steps)
    decreases |steps|
  {
    if steps != [] {
      HistoryIsQueuings(steps[..|steps| - 1]);
      StepQueues(Run(INITIAL, steps[..|steps| - 1]), steps[|steps| - 1]);
    }
  }

  /** quit() was called since loop() was last entered. */
  predicate QuitAsked(steps: seq<Step>)
    decreases |steps|
  {
    steps != [] &&
    var before, step := steps[..|steps| - 1], steps[|steps| - 1];
    step.Quit?
    || (QuitAsked(before)
        && !(step.StartLoop? && Run(INITIAL, before).pc.NotLooping? && !Run(INITIAL, before).owesWakeup))
  }

  lemma {:induction false} QuitIffAsked(steps: seq<Step>)
    ensures Run(INITIAL, steps).quit <==> QuitAsked(steps)
    decreases |steps|
  {
    if steps != [] {
      QuitIffAsked(steps[..|steps| - 1]);
    }
  }

  /** The test of the loop leaves it exactly if quit() was called since it was entered. */
  lemma LoopEndsIffQuit(steps: seq<Step>)
    requires Run(INITIAL, steps).pc.Testing?
    ensures Exec(Run(INITIAL, steps), TestQuit).pc == if QuitAsked(steps) then NotLooping else Polling
  {
    QuitIffAsked(steps);
  }

  /** So once entered the loop goes on as long as nobody calls quit(), whatever else happens. */
  lemma {:induction false} LoopGoesOn(s: State, steps: seq<Step>)
    requires s.pc.NotLooping? && !s.owesWakeup && Quit !in steps
    ensures var c := Run(Exec(s, StartLoop), steps); !c.quit && !c.pc.NotLooping?
    decreases |steps|
  {
    if steps != [] {
      LoopGoesOn(s, steps[..|steps| - 1]);
    }
  }

  /** quit() is remembered until the loop is entered again. */
  lemma {:induction false} QuitSince(s: State, more: seq<Step>)
    requires StartLoop !in more
    ensures Run(s, more).quit <==> s.quit || Quit in more
    decreases |more|
  {
    if more != [] {
      var n := |more| - 1;
      QuitSince(s, more[..n]);
      assert more == more[..n] + [more[n]];
    }
  }

  /** How often the eventfd was written since it was last read. */
  function Writes(steps: seq<Step>): nat
    decreases |steps|
  {
    if steps == [] then 0
    else
      var s, step := Run(INITIAL, steps[..|steps| - 1]), steps[|steps| - 1];
      if (step.PostWakeup? && step.thread in s.waking) || (step.LoopWakeup? && s.owesWakeup) then
        Writes(steps[..|steps| - 1]) + 1
      else if step.ReadEventfd? && s.pc == Handling(true) && !s.owesWakeup then 0
      else Writes(steps[..|steps| - 1])
  }

  lemma StepWrites(s: State, step: Step)
    ensures Exec(s, step).eventfd ==
            if (step.PostWakeup? && step.thread in s.waking) || (step.LoopWakeup? && s.owesWakeup) then
              if s.eventfd < 0xFFFF_FFFF_FFFF_FFFE then s.eventfd + 1 else s.eventfd
            else if step.ReadEventfd? && s.pc == Handling(true) && !s.owesWakeup then 0
            else s.eventfd
  {
  }

  /** The counter counts the writes since the last read, up to its maximum. */
  lemma {:induction false} CounterCountsWrites(steps: seq<Step>)
    ensures Run(INITIAL, steps).eventfd ==
            if Writes(steps) < 0xFFFF_FFFF_FFFF_FFFE then Writes(steps) else 0xFFFF_FFFF_FFFF_FFFE
    decreases |steps|
  {
    if steps != [] {
      CounterCountsWrites(steps[..|steps| - 1]);
      StepWrites(Run(INITIAL, steps[..|steps| - 1]), steps[|steps| - 1]);
    }
  }

  /** poll reports the eventfd exactly if it was written since it was last read; it is then read
      before the pending functors are called, and not readable after. */
  lemma PollReportsWrites(steps: seq<Step>)
    ensures var s := Run(INITIAL, steps);
            && (s.pc.Polling? ==> Exec(s, PollReturn) == s.(pc := Handling(Writes(steps) > 0)))
            && (s.pc == Handling(true) && !s.owesWakeup ==>
                  && Exec(s, BeginFunctors) == s
                  && Exec(s, ReadEventfd) == s.(pc := Handling(false), eventfd := 0))
  {
    CounterCountsWrites(steps);
  }

  /** The loop thread is never stuck in doPendingFunctor: the queue is swapped out, each functor of
      the batch begins in its turn, ends when it returns, and after the last the loop is tested. */
  lemma LoopGetsOn(s: State)
    requires Control(s)
    ensures s.pc == Handling(false) && !s.owesWakeup ==> Exec(s, BeginFunctors) == s.(pc := Starting, calling := true)
    ensures s.pc.Starting? ==>
              var s' := Exec(s, Swap); s'.pc.Running? && s'.batch == s.pending && s'.pending == [] && s'.next == 0
    ensures s.pc.Running? && s.next < |s.batch| ==>
              var s' := Exec(s, BeginTask);
              s'.pc.InTask? && s'.next == s.next && s'.executed == s.executed + [(s.batch[s.next], s.batches)]
    ensures s.pc.InTask? && !s.owesWakeup ==> Exec(s, EndTask) == s.(pc := Running, next := s.next + 1)
    ensures s.pc.Running? && s.next == |s.batch| ==> Exec(s, EndFunctors) == s.(pc := Testing, calling := false)
  {
  }

  /** A task that the loop thread queues while functors are being called is followed by a wakeup,
      and any other is not. */
  lemma LoopQueueWakesIff(steps: seq<Step>, id: nat)
    requires var s := Run(INITIAL, steps); UserCode(s.pc) && !s.owesWakeup
    ensures var s := Run(INITIAL, steps);
            var s' := Exec(s, LoopQueue(id));
            && |s'.pending| == |s.pending| + 1 && s'.pending[|s.pending|].id == id
            && (Enabled(s', LoopWakeup) <==> s.pc.InTask?)
  {
    RunKeepsInv(steps);
  }
}
