/** When a cancel request finds its timer: always, if it is queued behind the addTimer whose id
    it names; and the runs on which a request does not, or the code as written fails. */
module TimerCancelling {
  import opened Prelude
  import opened TimerModel
  import opened TimerInvariants
  import opened TimerFiring
  import opened TimerArming

  // ---------------------------------------------------------------- the order of requests

  /** A request that is queued at step i names an id that addTimer had returned by then. */
  ghost predicate IssuedAt(reading: Reading, steps: seq<Step>, i: nat)
    requires i < |steps|
  {
    steps[i].PostCancel? ==> steps[i].id.sequence <= Run(reading, INITIAL, steps[..i]).created
  }

  /** A queued request names an id that was returned; and if its timer is still to be inserted,
      the insertion is queued before it. */
  ghost predicate InsertsFirst(heap: map<nat, Timer>, tasks: seq<Task>, created: nat) {
    && (forall i :: 0 <= i < |tasks| && tasks[i].CancelTask? ==> tasks[i].id.sequence <= created)
    && (forall i, j :: 0 <= i < j < |tasks| && tasks[i].CancelTask? && tasks[j].InsertTask? ==>
          && tasks[j].timer in heap
          && (tasks[i].id.timer == tasks[j].timer ==> heap[tasks[j].timer].sequence != tasks[i].id.sequence))
  }

  /** Timers that wait for insertion stay what they are, and no sequence number is taken back. */
  ghost predicate KeepsWaiting(s: State, s': State) {
    && s.created <= s'.created
    && (forall a :: Queued(s.tasks, a) && a in s.heap ==> a in s'.heap && s'.heap[a].sequence == s.heap[a].sequence)
  }

  lemma QueueOnlyShrinks(s: State, s': State)
    requires KeepsWaiting(s, s') && InsertsFirst(s.heap, s.tasks, s.created)
    ensures InsertsFirst(s'.heap, s.tasks, s'.created)
    ensures s.tasks != [] ==> InsertsFirst(s'.heap, s.tasks[1..], s'.created)
  {
    forall j | 0 <= j < |s.tasks| && s.tasks[j].InsertTask? ensures Queued(s.tasks, s.tasks[j].timer) {
      assert s.tasks[j] in s.tasks;
    }
  }

  lemma PostAddKeepsOrder(s: State, a: nat, when: int, repeat: bool, delay: nat)
    requires InsertsFirst(s.heap, s.tasks, s.created) && a !in s.heap
    ensures var s' := NewTimer(s, a, when, repeat, delay);
            InsertsFirst(s'.heap, s.tasks + [InsertTask(a)], s'.created)
  {
  }

  lemma PostCancelKeepsOrder(heap: map<nat, Timer>, tasks: seq<Task>, created: nat, id: Active)
    requires InsertsFirst(heap, tasks, created) && id.sequence <= created
    ensures InsertsFirst(heap, tasks + [CancelTask(id)], created)
  {
  }

  lemma AddTimerSparesHeap(s: State, a: nat, clock: nat)
    ensures var s' := AddTimerInLoop(s, a, clock); s'.heap == s.heap && s'.tasks == s.tasks && s'.created == s.created
  {
  }

  lemma CancelSparesWaiting(reading: Reading, s: State, id: Active)
    requires Inv(s)
    ensures KeepsWaiting(s, CancelInLoop(reading, s, id)) && CancelInLoop(reading, s, id).tasks == s.tasks
  {
    if id in s.active {
      assert Pending(s.heap, s.timers, id.timer);
    }
  }

  lemma RunTaskKeepsWaiting(reading: Reading, s: State, clock: nat)
    requires Inv(s) && Enabled(s, RunTask(clock))
    ensures var s' := Exec(reading, s, RunTask(clock)); KeepsWaiting(s, s') && s'.tasks == s.tasks[1..]
  {
    var r := s.(tasks := s.tasks[1..]);
    match s.tasks[0] {
      case InsertTask(a) => AddTimerSparesHeap(r, a, clock);
      case CancelTask(id) =>
        CancelSparesWaiting(reading, s, id);
        assert CancelInLoop(reading, r, id).heap == CancelInLoop(reading, s, id).heap;
    }
  }

  lemma EndBatchKeepsWaiting(s: State, clock: nat)
    requires Inv(s) && Enabled(s, EndBatch(clock))
    ensures KeepsWaiting(s, Reset(s, clock)) && Reset(s, clock).tasks == s.tasks
  {
    ResetAllKeepsInv(s, s.phase.expired, s.phase.now);
    ResetAllHeap(s, s.phase.expired, s.phase.now);
  }

  lemma OtherStepsKeepWaiting(reading: Reading, s: State, step: Step)
    requires Inv(s) && Enabled(s, step) && !step.PostAdd? && !step.PostCancel?
    ensures KeepsWaiting(s, Exec(reading, s, step))
    ensures Exec(reading, s, step).tasks == if step.RunTask? then s.tasks[1..] else s.tasks
  {
    match step {
      case RunTask(clock) => RunTaskKeepsWaiting(reading, s, clock);
      case Add(a, when, repeat, delay, clock) => AddTimerSparesHeap(NewTimer(s, a, when, repeat, delay), a, clock);
      case Cancel(id) => CancelSparesWaiting(reading, s, id);
      case EndBatch(clock) => EndBatchKeepsWaiting(s, clock);
      case BeginBatch(now) => assert Expire(s, now).heap == s.heap && Expire(s, now).tasks == s.tasks;
      case FireNext =>
    }
  }

  lemma StepKeepsOrder(reading: Reading, s: State, step: Step)
    requires Inv(s) && InsertsFirst(s.heap, s.tasks, s.created)
    requires step.PostCancel? ==> step.id.sequence <= s.created
    ensures var s' := Exec(reading, s, step); InsertsFirst(s'.heap, s'.tasks, s'.created)
  {
    if Enabled(s, step) {
      match step {
        case PostAdd(a, when, repeat, delay) => PostAddKeepsOrder(s, a, when, repeat, delay);
        case PostCancel(id) => PostCancelKeepsOrder(s.heap, s.tasks, s.created, id);
        case _ =>
          OtherStepsKeepWaiting(reading, s, step);
          QueueOnlyShrinks(s, Exec(reading, s, step));
      }
    }
  }

  lemma {:induction false} RunKeepsOrder(reading: Reading, steps: seq<Step>)
    requires forall i :: 0 <= i < |steps| ==> IssuedAt(reading, steps, i)
    ensures var s := Run(reading, INITIAL, steps); InsertsFirst(s.heap, s.tasks, s.created)
    decreases |steps|
  {
    if steps != [] {
      var n := |steps| - 1;
      var before := steps[..n];
      forall i | 0 <= i < n ensures IssuedAt(reading, before, i) {
        assert before[..i] == steps[..i];
        assert IssuedAt(reading, steps, i);
      }
      RunKeepsOrder(reading, before);
      RunKeepsInv(reading, before);
      assert IssuedAt(reading, steps, n);
      StepKeepsOrder(reading, Run(reading, INITIAL, before), steps[n]);
    }
  }

  lemma FrontCancelIsAlone(heap: map<nat, Timer>, tasks: seq<Task>, created: nat)
    requires InsertsFirst(heap, tasks, created) && tasks != [] && tasks[0].CancelTask?
    requires var id := tasks[0].id; id.timer in heap && heap[id.timer].sequence == id.sequence
    ensures !Queued(tasks, tasks[0].id.timer)
  {
  }

  /** A cancel request that another thread makes with an id it got from addTimer finds its timer
      if that is still live, because the queue is first in, first out: the timer is freed then,
      under either reading and without a fault.  By CancelledNeverRunsLater it never runs again. */
  lemma QueuedCancelFindsTimer(reading: Reading, steps: seq<Step>, clock: nat)
    requires forall i :: 0 <= i < |steps| ==> IssuedAt(reading, steps, i)
    requires var s := Run(reading, INITIAL, steps); Enabled(s, RunTask(clock)) && s.tasks[0].CancelTask?
    requires var s := Run(reading, INITIAL, steps); Names(s, s.tasks[0].id)
    ensures var s := Run(reading, INITIAL, steps);
            var s' := Exec(reading, s, RunTask(clock));
            var q := s.tasks[0].id.sequence;
            !s'.fault && Gone(s', q) && Doomed(s', q) && s'.freed == s.freed + [q]
  {
    RunKeepsOrder(reading, steps);
    RunKeepsInv(reading, steps);
    var s := Run(reading, INITIAL, steps);
    var id := s.tasks[0].id;
    FrontCancelIsAlone(s.heap, s.tasks, s.created);
    assert !InBatch(BatchOf(s), id.timer);
    assert Pending(s.heap, s.timers, id.timer);
    SameSize(s.heap, s.timers, s.active);
  }

  /** As written, such a request therefore stops the process exactly if its timer exists no
      more, because it was a one-shot timer that ran first, or was cancelled before. */
  lemma QueuedCancelFaultsIff(steps: seq<Step>, clock: nat)
    requires forall i :: 0 <= i < |steps| ==> IssuedAt(AsWritten, steps, i)
    requires var s := Run(AsWritten, INITIAL, steps); Enabled(s, RunTask(clock)) && s.tasks[0].CancelTask?
    ensures var s := Run(AsWritten, INITIAL, steps);
            Exec(AsWritten, s, RunTask(clock)).fault <==> !Names(s, s.tasks[0].id)
  {
    var s := Run(AsWritten, INITIAL, steps);
    if Names(s, s.tasks[0].id) {
      QueuedCancelFindsTimer(AsWritten, steps, clock);
    } else {
      RunKeepsInv(AsWritten, steps);
      SameSize(s.heap, s.timers, s.active);
    }
  }

  // ---------------------------------------------------------------- runs that miss

  /** A cancel request made in the loop thread can come too early: the timer that another
      thread has just added is still queued for insertion, and will run. */
  lemma EarlyCancelMisses()
    ensures var s := Run(Intended, INITIAL, [PostAdd(1, 10, false, 0), Cancel(Active(1, 1))]);
            !s.fault && Names(s, Active(1, 1)) && Queued(s.tasks, 1) && !Doomed(s, 1)
  {
    FoldTwo(Stepper(Intended), INITIAL, PostAdd(1, 10, false, 0), Cancel(Active(1, 1)));
    var s := Run(Intended, INITIAL, [PostAdd(1, 10, false, 0), Cancel(Active(1, 1))]);
    assert InsertTask(1) in s.tasks;
    assert 1 in s.heap && s.heap[1].sequence == 1;
  }

  /** As written, a timer of the current batch that is cancelled, for instance by its own
      callback, stops the process, in every reachable state. */
  lemma CancelInBatchFaults(steps: seq<Step>, a: nat)
    requires var s := Run(AsWritten, INITIAL, steps); !s.fault && InBatch(BatchOf(s), a) && a in s.heap
    ensures var s := Run(AsWritten, INITIAL, steps); Exec(AsWritten, s, Cancel(KeyOf(s.heap, a))).fault
  {
    RunKeepsInv(AsWritten, steps);
    BatchIsApart(Run(AsWritten, INITIAL, steps));
  }

  /** So a repeating timer that cancels itself stops the process, while the statement that was
      meant notes the request, and the timer is doomed. */
  lemma SelfCancelFaults()
    ensures Run(AsWritten, INITIAL, OneRun() + [Cancel(Active(1, 1))]).fault
    ensures var s := Run(Intended, INITIAL, OneRun() + [Cancel(Active(1, 1))]); !s.fault && Doomed(s, 1)
  {
    OneRunState(AsWritten);
    FoldSnoc(Stepper(AsWritten), INITIAL, OneRun(), Cancel(Active(1, 1)));
    OneRunState(Intended);
    FoldSnoc(Stepper(Intended), INITIAL, OneRun(), Cancel(Active(1, 1)));
    CancelTakesHoldIffNotQueued(Intended, OneRun(), Active(1, 1));
  }
}
