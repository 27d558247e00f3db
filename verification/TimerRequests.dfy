/** The timer queue against what its callers asked for: every field that the model keeps about a
    request is tied here to the steps of the run that made it. */
module TimerRequests {
  import opened Prelude
  import opened TimerModel
  import opened TimerInvariants
  import opened TimerFiring

  // ---------------------------------------------------------------- single requests

  /** What can happen in a state without a fault: a request at any time, for an address that is
      free; a queued task and a new batch when no handleRead is in progress; and in one, the next
      timer of its batch, or its end after the last. */
  lemma WhatCanHappen(s: State, step: Step)
    requires !s.fault
    ensures step.PostCancel? || step.Cancel? ==> Enabled(s, step)
    ensures (step.Add? || step.PostAdd?) && step.addr !in s.heap && step.addr < UINTPTR_MAX ==> Enabled(s, step)
    ensures s.phase == Idle && step.BeginBatch? ==> Enabled(s, step)
    ensures s.phase == Idle && s.tasks != [] && step.RunTask? ==> Enabled(s, step)
    ensures s.phase.Batch? && s.phase.next < |s.phase.expired| && step.FireNext? ==> Enabled(s, step)
    ensures s.phase.Batch? && s.phase.next == |s.phase.expired| && step.EndBatch? ==> Enabled(s, step)
  {
  }

  /** addTimer makes a timer with the time, kind and interval that were asked for and the next
      sequence number, and touches no other timer. */
  lemma AddMakesWhatWasAsked(reading: Reading, s: State, step: Step)
    requires Enabled(s, step) && (step.Add? || step.PostAdd?)
    ensures var s' := Exec(reading, s, step);
            && s'.heap == s.heap[step.addr := Timer(step.when, step.repeat, step.delay, s.created + 1)]
            && s'.created == s.created + 1
  {
    var n := NewTimer(s, step.addr, step.when, step.repeat, step.delay);
    if step.Add? {
      assert AddTimerInLoop(n, step.addr, step.clock).heap == n.heap;
    }
  }

  lemma InsertedBy(s: State, a: nat, clock: nat)
    requires UniqueSequences(s.heap, s.created) && IndexesAgree(s.heap, s.timers, s.active)
    requires a in s.heap && !Pending(s.heap, s.timers, a) && !s.fault
    ensures var s' := AddTimerInLoop(s, a, clock);
            && s'.timers == s.timers + {Entry(s.heap[a].expiration, a)}
            && s'.heap == s.heap && s'.tasks == s.tasks && !s'.fault
  {
    InsertKeepsInv(s, a);
  }

  /** addTimer in the loop thread makes the timer pending at once. */
  lemma AddIsPending(reading: Reading, s: State, step: Step)
    requires Inv(s) && Enabled(s, step) && step.Add?
    ensures var s' := Exec(reading, s, step);
            s'.timers == s.timers + {Entry(step.when, step.addr)} && s'.tasks == s.tasks && !s'.fault
  {
    NewTimerKeepsInv(s, step.addr, step.when, step.repeat, step.delay, BatchOf(s));
    InsertedBy(NewTimer(s, step.addr, step.when, step.repeat, step.delay), step.addr, step.clock);
  }

  /** From another thread its insertion is queued, and so is a cancel. */
  lemma PostsAreQueued(reading: Reading, s: State, step: Step)
    requires Enabled(s, step)
    ensures step.PostAdd? ==>
              var s' := Exec(reading, s, step);
              s'.timers == s.timers && s'.tasks == s.tasks + [InsertTask(step.addr)]
    ensures step.PostCancel? ==> Exec(reading, s, step) == s.(tasks := s.tasks + [CancelTask(step.id)])
  {
  }

  /** When the loop comes to a queued insertion, the timer becomes pending for its time. */
  lemma InsertTaskIsPending(reading: Reading, s: State, clock: nat)
    requires Inv(s) && Enabled(s, RunTask(clock)) && s.tasks[0].InsertTask?
    ensures var s', a := Exec(reading, s, RunTask(clock)), s.tasks[0].timer;
            a in s.heap && s'.timers == s.timers + {Entry(s.heap[a].expiration, a)} && s'.heap == s.heap && !s'.fault
  {
    PopTask(s.heap, s.timers, s.tasks, []);
    InsertedBy(s.(tasks := s.tasks[1..]), s.tasks[0].timer, clock);
  }

  // ---------------------------------------------------------------- the requests of a run

  datatype Request = Request(when: int, repeat: bool, delay: nat)

  /** What was asked for by each addTimer so far; the q-th made the timer with sequence q. */
  function Asked(reading: Reading, steps: seq<Step>): seq<Request>
    decreases |steps|
  {
    if steps == [] then []
    else
      var before, step := steps[..|steps| - 1], steps[|steps| - 1];
      Asked(reading, before)
      + if Enabled(Run(reading, INITIAL, before), step) && (step.Add? || step.PostAdd?)
        then [Request(step.when, step.repeat, step.delay)] else []
  }

  /** The task that a step of another thread queues. */
  function PostedBy(s: State, step: Step): seq<Task> {
    if Enabled(s, step) && step.PostAdd? then [InsertTask(step.addr)]
    else if Enabled(s, step) && step.PostCancel? then [CancelTask(step.id)]
    else []
  }

  /** The tasks that other threads queued so far. */
  function Posted(reading: Reading, steps: seq<Step>): seq<Task>
    decreases |steps|
  {
    if steps == [] then []
    else
      var before := steps[..|steps| - 1];
      Posted(reading, before) + PostedBy(Run(reading, INITIAL, before), steps[|steps| - 1])
  }

  function ExecutedBy(s: State, step: Step): nat {
    if Enabled(s, step) && step.RunTask? then 1 else 0
  }

  /** How many of them the loop has executed. */
  function Executed(reading: Reading, steps: seq<Step>): nat
    decreases |steps|
  {
    if steps == [] then 0
    else
      var before := steps[..|steps| - 1];
      Executed(reading, before) + ExecutedBy(Run(reading, INITIAL, before), steps[|steps| - 1])
  }

  datatype BatchStart = BatchStart(now: int, made: nat)

  /** The clock reading at the head of each handleRead so far, and the number of timers that had
      been asked for by then. */
  function Batches(reading: Reading, steps: seq<Step>): seq<BatchStart>
    decreases |steps|
  {
    if steps == [] then []
    else
      var before, step := steps[..|steps| - 1], steps[|steps| - 1];
      Batches(reading, before)
      + if Enabled(Run(reading, INITIAL, before), step) && step.BeginBatch?
        then [BatchStart(step.now, |Asked(reading, before)|)] else []
  }

  /** The timer is the one that was asked for: a one-shot timer at its time, a repeating one no
      earlier than that. */
  ghost predicate IsAsAsked(t: Timer, asked: seq<Request>) {
    && 1 <= t.sequence <= |asked|
    && var r := asked[t.sequence - 1];
       t.repeat == r.repeat && t.delay == r.delay && r.when <= t.expiration && (!r.repeat ==> t.expiration == r.when)
  }

  ghost predicate HeapAsAsked(heap: map<nat, Timer>, asked: seq<Request>) {
    forall a :: a in heap ==> IsAsAsked(heap[a], asked)
  }

  ghost predicate LogAsAsked(fired: seq<Firing>, asked: seq<Request>) {
    forall k :: 0 <= k < |fired| ==> IsAsAsked(fired[k].timer, asked)
  }

  lemma OneMoreAsked(heap: map<nat, Timer>, fired: seq<Firing>, asked: seq<Request>, a: nat, r: Request)
    requires HeapAsAsked(heap, asked) && LogAsAsked(fired, asked)
    ensures var asked' := asked + [r];
            && HeapAsAsked(heap[a := Timer(r.when, r.repeat, r.delay, |asked| + 1)], asked')
            && LogAsAsked(fired, asked')
  {
  }

  lemma AddIsQuietStep(reading: Reading, s: State, step: Step)
    requires Inv(s) && Enabled(s, step) && (step.Add? || step.PostAdd?)
    ensures Exec(reading, s, step).fired == s.fired
  {
    QuietSteps(reading, s, step);
  }

  /** The other steps of requests change no timer. */
  lemma QuietKeepsAsked(reading: Reading, s: State, step: Step, asked: seq<Request>)
    requires Inv(s) && Enabled(s, step) && (step.PostCancel? || step.RunTask? || step.Cancel?)
    requires HeapAsAsked(s.heap, asked)
    ensures var s' := Exec(reading, s, step);
            HeapAsAsked(s'.heap, asked) && s'.fired == s.fired && s'.created == s.created
  {
    var s' := Exec(reading, s, step);
    QuietSteps(reading, s, step);
    assert s'.created == s.created;
    forall a | a in s'.heap ensures IsAsAsked(s'.heap[a], asked) {
      StepKeepsInv(reading, s, step);
      assert a in s.heap && s'.heap[a] == s.heap[a];
    }
  }

  lemma RestartKeepsAsked(
      heap: map<nat, Timer>, heap': map<nat, Timer>, batch: seq<Entry>, now: int, asked: seq<Request>)
    requires HeapAsAsked(heap, asked)
    requires forall i :: 0 <= i < |batch| ==> batch[i].timer in heap && heap[batch[i].timer].expiration <= now
    requires forall a :: a in heap' ==> a in heap
    requires forall a :: a in heap' && !InBatch(batch, a) ==> heap'[a] == heap[a]
    requires forall a :: a in heap' && InBatch(batch, a) ==> heap[a].repeat && heap'[a] == Restart(heap[a], now)
    ensures HeapAsAsked(heap', asked)
  {
    forall a | a in heap' ensures IsAsAsked(heap'[a], asked) {
      assert IsAsAsked(heap[a], asked);
      if InBatch(batch, a) {
        var i :| 0 <= i < |batch| && batch[i].timer == a;
        assert heap[a].expiration <= now;
      }
    }
  }

  lemma ResetHeap(s: State, clock: nat)
    requires Inv(s) && Enabled(s, EndBatch(clock))
    ensures var heap := Reset(s, clock).heap;
            && (forall a :: a in heap ==> a in s.heap)
            && (forall a :: a in heap && !InBatch(s.phase.expired, a) ==> heap[a] == s.heap[a])
            && (forall a :: a in heap && InBatch(s.phase.expired, a) ==>
                  s.heap[a].repeat && heap[a] == Restart(s.heap[a], s.phase.now))
  {
    assert Reset(s, clock).heap == ResetAll(s, s.phase.expired, s.phase.now).heap by {
      ResetAllKeepsInv(s, s.phase.expired, s.phase.now);
    }
    ResetAllHeap(s, s.phase.expired, s.phase.now);
  }

  lemma ResetKeepsAsked(s: State, clock: nat, asked: seq<Request>)
    requires Inv(s) && BatchIsOld(s.heap, s.phase, s.created)
    requires Enabled(s, EndBatch(clock)) && HeapAsAsked(s.heap, asked)
    ensures HeapAsAsked(Reset(s, clock).heap, asked)
  {
    ResetHeap(s, clock);
    RestartKeepsAsked(s.heap, Reset(s, clock).heap, s.phase.expired, s.phase.now, asked);
  }

  lemma FireKeepsAsked(s: State, asked: seq<Request>)
    requires Inv(s) && Enabled(s, FireNext) && HeapAsAsked(s.heap, asked) && LogAsAsked(s.fired, asked)
    ensures var s' := Fire(s); HeapAsAsked(s'.heap, asked) && LogAsAsked(s'.fired, asked) && s'.created == s.created
  {
    FireKeepsInv(s);
  }

  lemma StepKeepsAsked(reading: Reading, s: State, step: Step, asked: seq<Request>)
    requires FiringInv(s) && Enabled(s, step) && !step.Add? && !step.PostAdd?
    requires HeapAsAsked(s.heap, asked) && LogAsAsked(s.fired, asked)
    ensures var s' := Exec(reading, s, step);
            HeapAsAsked(s'.heap, asked) && LogAsAsked(s'.fired, asked) && s'.created == s.created
  {
    match step {
      case BeginBatch(now) => ExpireKeepsInv(s, now);
      case FireNext => FireKeepsAsked(s, asked);
      case EndBatch(clock) =>
        ResetKeepsAsked(s, clock, asked);
        ResetKeepsBatch(s, clock);
      case _ => QuietKeepsAsked(reading, s, step, asked);
    }
  }

  lemma {:induction false} RunIsAsAsked(reading: Reading, steps: seq<Step>)
    ensures var s, asked := Run(reading, INITIAL, steps), Asked(reading, steps);
            |asked| == s.created && HeapAsAsked(s.heap, asked) && LogAsAsked(s.fired, asked)
    decreases |steps|
  {
    if steps != [] {
      var before, step := steps[..|steps| - 1], steps[|steps| - 1];
      RunIsAsAsked(reading, before);
      RunKeepsFiring(reading, before);
      var s := Run(reading, INITIAL, before);
      if Enabled(s, step) {
        if step.Add? || step.PostAdd? {
          AddMakesWhatWasAsked(reading, s, step);
          AddIsQuietStep(reading, s, step);
          OneMoreAsked(s.heap, s.fired, Asked(reading, before), step.addr, Request(step.when, step.repeat, step.delay));
        } else {
          StepKeepsAsked(reading, s, step, Asked(reading, before));
          assert Asked(reading, before) + [] == Asked(reading, before);
        }
      }
    }
  }

  // ---------------------------------------------------------------- batches

  ghost predicate LogOfBatches(s: State, batches: seq<BatchStart>) {
    && |batches| == s.batches
    && (s.phase.Batch? ==> batches != [] && batches[|batches| - 1] == BatchStart(s.phase.now, s.phase.made))
    && (forall k :: 0 <= k < |s.fired| ==>
          && 1 <= s.fired[k].batch <= |batches|
          && batches[s.fired[k].batch - 1] == BatchStart(s.fired[k].now, s.fired[k].made))
  }

  lemma ExpireLogsBatch(s: State, now: int, batches: seq<BatchStart>)
    requires s.phase.Idle? && !Expire(s, now).fault && LogOfBatches(s, batches)
    ensures LogOfBatches(Expire(s, now), batches + [BatchStart(now, s.created)])
  {
  }

  lemma FireLogsBatch(s: State, batches: seq<BatchStart>)
    requires Enabled(s, FireNext) && LogOfBatches(s, batches)
    ensures LogOfBatches(Fire(s), batches)
  {
  }

  lemma SameLogOfBatches(s: State, s': State, batches: seq<BatchStart>)
    requires LogOfBatches(s, batches) && s'.fired == s.fired && s'.batches == s.batches
    requires s'.phase.Batch? ==> s'.phase == s.phase
    ensures LogOfBatches(s', batches)
  {
  }

  lemma StepKeepsBatches(reading: Reading, s: State, step: Step, batches: seq<BatchStart>)
    requires FiringInv(s) && Enabled(s, step) && LogOfBatches(s, batches)
    ensures var s' := Exec(reading, s, step);
            LogOfBatches(s', if step.BeginBatch? then batches + [BatchStart(step.now, s.created)] else batches)
  {
    var s' := Exec(reading, s, step);
    match step {
      case BeginBatch(now) =>
        ExpireKeepsInv(s, now);
        ExpireLogsBatch(s, now, batches);
      case FireNext => FireLogsBatch(s, batches);
      case EndBatch(clock) =>
        ResetKeepsBatch(s, clock);
        SameLogOfBatches(s, s', batches);
      case _ =>
        QuietSteps(reading, s, step);
        SameLogOfBatches(s, s', batches);
    }
  }

  lemma {:induction false} RunKeepsBatches(reading: Reading, steps: seq<Step>)
    ensures LogOfBatches(Run(reading, INITIAL, steps), Batches(reading, steps))
    decreases |steps|
  {
    if steps != [] {
      var before, step := steps[..|steps| - 1], steps[|steps| - 1];
      RunKeepsBatches(reading, before);
      RunKeepsFiring(reading, before);
      RunIsAsAsked(reading, before);
      assert Batches(reading, before) + [] == Batches(reading, before);
      if Enabled(Run(reading, INITIAL, before), step) {
        StepKeepsBatches(reading, Run(reading, INITIAL, before), step, Batches(reading, before));
      }
    }
  }

  /** Timers run as their callers asked.  In every run: a timer runs in a batch whose clock
      reading has reached the time that was asked for, and that began after it was asked for;
      one that was asked for once runs at most once; and one that was asked to repeat runs
      again only in a later batch, no sooner than the interval that was asked for. */
  lemma TimersRunAsAsked(reading: Reading, steps: seq<Step>)
    ensures var fired, asked, batches :=
              Run(reading, INITIAL, steps).fired, Asked(reading, steps), Batches(reading, steps);
            && (forall k :: 0 <= k < |fired| ==>
                  && 1 <= fired[k].timer.sequence <= |asked| && 1 <= fired[k].batch <= |batches|
                  && var b := batches[fired[k].batch - 1];
                     asked[fired[k].timer.sequence - 1].when <= b.now && fired[k].timer.sequence <= b.made)
            && (forall i, j :: 0 <= i < j < |fired| && fired[i].timer.sequence == fired[j].timer.sequence ==>
                  && asked[fired[i].timer.sequence - 1].repeat
                  && fired[i].batch < fired[j].batch
                  && batches[fired[i].batch - 1].now + asked[fired[i].timer.sequence - 1].delay
                     <= batches[fired[j].batch - 1].now)
  {
    RunIsAsAsked(reading, steps);
    RunKeepsBatches(reading, steps);
    FiringDiscipline(reading, steps);
  }

  /** The k-th timer of the batch is the k-th of the last entries of the log. */
  ghost predicate RanInBatch(s: State, k: nat, batch: nat)
    requires s.phase.Batch? && k < |s.phase.expired|
  {
    && |s.phase.expired| <= |s.fired| && s.phase.expired[k].timer in s.heap
    && var f := s.fired[|s.fired| - |s.phase.expired| + k];
       f.timer == s.heap[s.phase.expired[k].timer] && f.batch == batch
  }

  lemma BatchIsLogged(s: State, clock: nat, k: nat)
    requires LogShape(s.heap, s.phase, s.fired, s.batches, s.created)
    requires Enabled(s, EndBatch(clock)) && k < |s.phase.expired|
    ensures RanInBatch(s, k, s.batches)
  {
  }

  /** When the loop of handleRead is through, each timer of the batch has run in it once, in the
      order of the batch. */
  lemma BatchRunsAll(reading: Reading, steps: seq<Step>, clock: nat, k: nat)
    requires var s := Run(reading, INITIAL, steps); Enabled(s, EndBatch(clock)) && k < |s.phase.expired|
    ensures RanInBatch(Run(reading, INITIAL, steps), k, |Batches(reading, steps)|)
  {
    RunKeepsFiring(reading, steps);
    RunKeepsBatches(reading, steps);
    BatchIsLogged(Run(reading, INITIAL, steps), clock, k);
  }

  // ---------------------------------------------------------------- queued requests

  lemma TasksAfterStep(reading: Reading, s: State, step: Step)
    requires Inv(s) && Enabled(s, step)
    ensures Exec(reading, s, step).tasks ==
            match step
            case PostAdd(a, _, _, _) => s.tasks + [InsertTask(a)]
            case PostCancel(id) => s.tasks + [CancelTask(id)]
            case RunTask(_) => s.tasks[1..]
            case _ => s.tasks
  {
    match step {
      case EndBatch(clock) => ResetAllKeepsInv(s, s.phase.expired, s.phase.now);
      case RunTask(clock) => assert s.tasks[0].InsertTask? || s.tasks[0].CancelTask?;
      case _ =>
    }
  }

  lemma StepKeepsFifo(reading: Reading, s: State, step: Step, posted: seq<Task>, n: nat)
    requires Inv(s) && n <= |posted| && s.tasks == posted[n..]
    ensures var posted', n' := posted + PostedBy(s, step), n + ExecutedBy(s, step);
            n' <= |posted'| && Exec(reading, s, step).tasks == posted'[n'..]
  {
    if Enabled(s, step) {
      TasksAfterStep(reading, s, step);
    }
  }

  /** The queue holds what other threads queued and the loop has not executed, in order. */
  lemma {:induction false} QueueIsFifo(reading: Reading, steps: seq<Step>)
    ensures var posted, n := Posted(reading, steps), Executed(reading, steps);
            n <= |posted| && Run(reading, INITIAL, steps).tasks == posted[n..]
    decreases |steps|
  {
    if steps != [] {
      var before := steps[..|steps| - 1];
      QueueIsFifo(reading, before);
      RunKeepsInv(reading, before);
      StepKeepsFifo(reading, Run(reading, INITIAL, before), steps[|steps| - 1],
                    Posted(reading, before), Executed(reading, before));
    }
  }

  // ---------------------------------------------------------------- cancels during a batch

  /** The ids that were cancelled in the loop thread since the last handleRead began. */
  function CancelAsked(reading: Reading, steps: seq<Step>): set<Active>
    decreases |steps|
  {
    if steps == [] then {}
    else
      var before, step := steps[..|steps| - 1], steps[|steps| - 1];
      if !Enabled(Run(reading, INITIAL, before), step) then CancelAsked(reading, before)
      else if step.BeginBatch? then {}
      else if step.Cancel? then CancelAsked(reading, before) + {step.id}
      else CancelAsked(reading, before)
  }

  /** During a batch, a cancel is noted for a timer of the batch exactly if it was asked for. */
  ghost predicate CancelsNoted(s: State, asked: set<Active>) {
    s.phase.Batch? && !s.fault ==>
      && s.cancelled <= asked
      && forall a :: InBatch(s.phase.expired, a) && a in s.heap && KeyOf(s.heap, a) in asked ==>
                       KeyOf(s.heap, a) in s.cancelled
  }

  lemma CancelIsNoted(s: State, id: Active, asked: set<Active>)
    requires Inv(s) && !s.fault && CancelsNoted(s, asked)
    ensures CancelsNoted(CancelInLoop(Intended, s, id), asked + {id})
  {
    BatchIsApart(s);
    SameSize(s.heap, s.timers, s.active);
  }

  /** The other steps of requests note nothing. */
  lemma SameNoted(s: State, s': State, asked: set<Active>)
    requires CancelsNoted(s, asked) && Quiet(s, s') && s'.cancelled == s.cancelled && !s.fault
    ensures CancelsNoted(s', asked)
  {
  }

  lemma OtherStepsNoteNothing(s: State, step: Step, asked: set<Active>)
    requires Inv(s) && Enabled(s, step) && CancelsNoted(s, asked) && IsQuiet(step) && !step.Cancel?
    ensures CancelsNoted(Exec(Intended, s, step), asked)
  {
    var s' := Exec(Intended, s, step);
    QuietSteps(Intended, s, step);
    if s.phase.Batch? {
      assert s'.cancelled == s.cancelled;
      SameNoted(s, s', asked);
    }
  }

  lemma StepKeepsNoted(s: State, step: Step, asked: set<Active>)
    requires Inv(s) && Enabled(s, step) && CancelsNoted(s, asked)
    ensures var s' := Exec(Intended, s, step);
            CancelsNoted(s', if step.BeginBatch? then {} else if step.Cancel? then asked + {step.id} else asked)
  {
    match step {
      case BeginBatch(now) =>
        ExpireKeepsInv(s, now);
        assert Expire(s, now).cancelled == {};
      case FireNext => FireKeepsInv(s);
      case EndBatch(clock) => assert Reset(s, clock).fault || Reset(s, clock).phase.Idle?;
      case Cancel(id) => CancelIsNoted(s, id, asked);
      case _ => OtherStepsNoteNothing(s, step, asked);
    }
  }

  lemma {:induction false} RunKeepsNoted(steps: seq<Step>)
    ensures CancelsNoted(Run(Intended, INITIAL, steps), CancelAsked(Intended, steps))
    decreases |steps|
  {
    if steps != [] {
      var before, step := steps[..|steps| - 1], steps[|steps| - 1];
      RunKeepsNoted(before);
      RunKeepsInv(Intended, before);
      if Enabled(Run(Intended, INITIAL, before), step) {
        StepKeepsNoted(Run(Intended, INITIAL, before), step, CancelAsked(Intended, before));
      }
    }
  }

  lemma NotedIffAsked(s: State, a: nat, asked: set<Active>)
    requires CancelsNoted(s, asked) && s.phase.Batch? && !s.fault && a in s.heap && InBatch(s.phase.expired, a)
    ensures Active(a, s.heap[a].sequence) in s.cancelled <==> Active(a, s.heap[a].sequence) in asked
  {
    assert KeyOf(s.heap, a) == Active(a, s.heap[a].sequence);
  }

  /** What the state says of a timer of the batch, in terms of the requests. */
  lemma BatchTimerAsAsked(steps: seq<Step>, a: nat)
    requires var s := Run(Intended, INITIAL, steps);
             s.phase.Batch? && !s.fault && a in s.heap && InBatch(s.phase.expired, a)
    ensures var s := Run(Intended, INITIAL, steps);
            var t := s.heap[a];
            var asked, batches := Asked(Intended, steps), Batches(Intended, steps);
            && 1 <= t.sequence <= |asked| && batches != []
            && asked[t.sequence - 1].repeat == t.repeat && asked[t.sequence - 1].delay == t.delay
            && batches[|batches| - 1].now == s.phase.now
            && (Active(a, t.sequence) in s.cancelled <==> Active(a, t.sequence) in CancelAsked(Intended, steps))
  {
    RunIsAsAsked(Intended, steps);
    RunKeepsBatches(Intended, steps);
    RunKeepsNoted(steps);
    var s := Run(Intended, INITIAL, steps);
    assert IsAsAsked(s.heap[a], Asked(Intended, steps));
    NotedIffAsked(s, a, CancelAsked(Intended, steps));
  }

  /** What a caller asked for a timer of the batch: to run again, and not to be cancelled since
      the batch began. */
  predicate AskedToGoOn(steps: seq<Step>, id: Active) {
    && 1 <= id.sequence <= |Asked(Intended, steps)|
    && Asked(Intended, steps)[id.sequence - 1].repeat && id !in CancelAsked(Intended, steps)
  }

  /** What the state says of such a timer. */
  lemma GoesOnIff(steps: seq<Step>, a: nat)
    requires var s := Run(Intended, INITIAL, steps);
             s.phase.Batch? && !s.fault && a in s.heap && InBatch(s.phase.expired, a)
    ensures var s := Run(Intended, INITIAL, steps);
            var id := Active(a, s.heap[a].sequence);
            AskedToGoOn(steps, id) <==> s.heap[a].repeat && id !in s.cancelled
  {
    BatchTimerAsAsked(steps, a);
  }

  /** The time for which it is pending then. */
  function NextRun(steps: seq<Step>, q: int): int {
    var asked, batches := Asked(Intended, steps), Batches(Intended, steps);
    if 1 <= q <= |asked| && batches != [] then batches[|batches| - 1].now + asked[q - 1].delay else 0
  }

  lemma NextRunIs(steps: seq<Step>, a: nat)
    requires var s := Run(Intended, INITIAL, steps);
             s.phase.Batch? && !s.fault && a in s.heap && InBatch(s.phase.expired, a)
    ensures var s := Run(Intended, INITIAL, steps); NextRun(steps, s.heap[a].sequence) == s.phase.now + s.heap[a].delay
  {
    BatchTimerAsAsked(steps, a);
  }

  /** How a timer of the batch ends it: pending for `when`, or freed. */
  ghost predicate EndsAs(s': State, id: Active, goesOn: bool, when: int) {
    && (goesOn ==> id in s'.active && Entry(when, id.timer) in s'.timers)
    && (!goesOn ==> id.timer !in s'.heap && id.sequence in s'.freed)
  }

  lemma EndsInAs(s: State, s': State, id: Active, goesOn: bool, when: int)
    requires s.phase.Batch? && id.timer in s.heap && InBatch(s.phase.expired, id.timer) && EndsIn(s, s', id.timer)
    requires id == KeyOf(s.heap, id.timer) && when == s.phase.now + s.heap[id.timer].delay
    requires goesOn <==> s.heap[id.timer].repeat && id !in s.cancelled
    ensures EndsAs(s', id, goesOn, when)
  {
  }

  /** A timer of the batch that was asked to go on is pending at the end of the batch, for the
      clock reading of the batch plus the interval that was asked for; any other is freed. */
  lemma BatchEndsAsAsked(steps: seq<Step>, clock: nat, id: Active)
    requires var s := Run(Intended, INITIAL, steps);
             && Enabled(s, EndBatch(clock)) && id.timer in s.heap && id == KeyOf(s.heap, id.timer)
             && InBatch(s.phase.expired, id.timer)
    ensures EndsAs(Exec(Intended, Run(Intended, INITIAL, steps), EndBatch(clock)),
                   id, AskedToGoOn(steps, id), NextRun(steps, id.sequence))
  {
    GoesOnIff(steps, id.timer);
    NextRunIs(steps, id.timer);
    BatchEndsIn(Intended, steps, clock, id.timer);
    var s := Run(Intended, INITIAL, steps);
    EndsInAs(s, Exec(Intended, s, EndBatch(clock)), id, AskedToGoOn(steps, id), NextRun(steps, id.sequence));
  }
}
