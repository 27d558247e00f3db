/** The class TimerQueue of net/TimerQueue.cc, proved against TimerModel.  The assertions of
    the source are assertions here, so the verifier proves that they cannot fail. */
module TimerQueues {
  import opened Prelude
  import opened Timestamps
  import opened TimerModel
  import opened TimerInvariants
  import opened TimerFiring

  /** What a callback, or another thread while it runs, can do to the queue. */
  predicate IsCallbackStep(step: Step) {
    step.PostAdd? || step.PostCancel? || step.Add? || step.Cancel?
  }

  predicate AreCallbackSteps(steps: seq<Step>) {
    forall j :: 0 <= j < |steps| ==> IsCallbackStep(steps[j])
  }

  predicate AreCallbacks(callbacks: seq<seq<Step>>) {
    forall i :: 0 <= i < |callbacks| ==> AreCallbackSteps(callbacks[i])
  }

  function Actions(callbacks: seq<seq<Step>>, i: nat): seq<Step> {
    if i < |callbacks| then callbacks[i] else []
  }

  /** The steps of the first n timers of a batch: the i-th run, then what its callback does. */
  function FireSteps(callbacks: seq<seq<Step>>, n: nat): seq<Step> {
    if n == 0 then [] else FireSteps(callbacks, n - 1) + [FireNext] + Actions(callbacks, n - 1)
  }

  /** One handleRead as a sequence of steps. */
  function HandleReadSteps(now: int, callbacks: seq<seq<Step>>, n: nat, clock: nat): seq<Step> {
    [BeginBatch(now)] + FireSteps(callbacks, n) + [EndBatch(clock)]
  }

  lemma FireStepsTurn(before: seq<Step>, callbacks: seq<seq<Step>>, i: nat)
    ensures before + FireSteps(callbacks, i) + [FireNext] + Actions(callbacks, i)
            == before + FireSteps(callbacks, i + 1)
  {
  }

  lemma HandleReadStepsInOrder(before: seq<Step>, now: int, callbacks: seq<seq<Step>>, n: nat, clock: nat)
    ensures before + [BeginBatch(now)] + FireSteps(callbacks, n) + [EndBatch(clock)]
            == before + HandleReadSteps(now, callbacks, n, clock)
  {
  }

  lemma CallbackKeepsPhase(reading: Reading, s: State, step: Step)
    requires IsCallbackStep(step)
    ensures Exec(reading, s, step).phase == s.phase
  {
  }

  lemma InsertSucceeds(s: State, timer: nat)
    requires IndexesAgree(s.heap, s.timers, s.active) && !s.fault
    requires timer in s.heap && !Pending(s.heap, s.timers, timer)
    ensures !TimerModel.Insert(s, timer).fault
  {
    SameSize(s.heap, s.timers, s.active);
  }

  /** The keys in activeTimers_ of the first n entries. */
  ghost function KeysOfPrefix(heap: map<nat, Timer>, expired: seq<Entry>, n: nat): set<Active>
    requires n <= |expired| && forall i :: 0 <= i < |expired| ==> expired[i].timer in heap
  {
    set i | 0 <= i < n :: KeyOf(heap, expired[i].timer)
  }

  lemma KeysOfAll(heap: map<nat, Timer>, due: set<Entry>)
    requires forall e :: e in due ==> e.timer in heap
    ensures forall i :: 0 <= i < |Sorted(due)| ==> Sorted(due)[i].timer in heap
    ensures KeysOfPrefix(heap, Sorted(due), |Sorted(due)|) == KeysOf(heap, due)
  {
    var expired := Sorted(due);
    SortedIsEnumeration(due);
    assert forall i :: 0 <= i < |expired| ==> expired[i] in due;
    forall e | e in due ensures KeyOf(heap, e.timer) in KeysOfPrefix(heap, expired, |expired|) {
      assert e in expired;
      var i :| 0 <= i < |expired| && expired[i] == e;
    }
  }

  /** Each entry that getExpired takes has its own key in activeTimers_. */
  lemma KeysOfDue(s: State, now: int)
    requires IndexesAgree(s.heap, s.timers, s.active)
    ensures var due := Due(s.timers, now);
            var expired := Sorted(due);
            && (forall i :: 0 <= i < |expired| ==>
                  expired[i].timer in s.heap && KeyOf(s.heap, expired[i].timer) in s.active)
            && (forall i, j :: 0 <= i < j < |expired| ==> expired[i].timer != expired[j].timer)
            && (forall e :: e in due ==> e.timer in s.heap)
            && KeysOfPrefix(s.heap, expired, |expired|) == KeysOf(s.heap, due)
  {
    BatchIsDue(s, now);
    KeysOfAll(s.heap, Due(s.timers, now));
  }

  /** The state after the first i turns of the loop of reset. */
  function ResetFirst(s: State, expired: seq<Entry>, i: nat, now: int): State
    requires i <= |expired|
  {
    if i == 0 then s else ResetOne(ResetFirst(s, expired, i - 1, now), expired[i - 1].timer, now)
  }

  lemma {:induction false} ResetFirstKeepsInv(s: State, expired: seq<Entry>, i: nat, now: int)
    requires InvWith(s, expired) && !s.fault && i <= |expired|
    ensures var r := ResetFirst(s, expired, i, now);
            && InvWith(r, expired[i..]) && !r.fault
            && ResetAll(r, expired[i..], now) == ResetAll(s, expired, now)
  {
    if i == 0 {
      assert expired[0..] == expired;
    } else {
      ResetFirstKeepsInv(s, expired, i - 1, now);
      var rest := expired[i - 1..];
      assert rest[0] == expired[i - 1] && rest[1..] == expired[i..];
      ResetOneKeepsInv(ResetFirst(s, expired, i - 1, now), rest, now);
    }
  }

  /** What the i-th turn finds: a timer that is live and in neither index, also once it is
      restarted. */
  lemma ResetTurn(s: State, expired: seq<Entry>, i: nat, now: int)
    requires InvWith(s, expired) && !s.fault && i < |expired|
    ensures var r := ResetFirst(s, expired, i, now);
            var a := expired[i].timer;
            && !r.fault && a in r.heap
            && (var heap := r.heap[a := Restart(r.heap[a], now)];
                IndexesAgree(heap, r.timers, r.active) && !Pending(heap, r.timers, a))
  {
    ResetFirstKeepsInv(s, expired, i, now);
    var r := ResetFirst(s, expired, i, now);
    assert expired[i..][0] == expired[i];
    assert InBatch(expired[i..], expired[i].timer);
    RestartKeepsInv(r, expired[i..], expired[i].timer, now);
  }

  lemma ResetFirstIsAll(s: State, expired: seq<Entry>, now: int)
    requires InvWith(s, expired) && !s.fault
    ensures ResetFirst(s, expired, |expired|, now) == ResetAll(s, expired, now) && !ResetAll(s, expired, now).fault
  {
    ResetFirstKeepsInv(s, expired, |expired|, now);
    assert expired[|expired|..] == [];
  }

  /** What a task finds. */
  lemma TaskReady(s: State)
    requires Inv(s) && s.phase.Idle? && s.tasks != []
    ensures IndexesAgree(s.heap, s.timers, s.active)
    ensures s.tasks[0].InsertTask? ==> s.tasks[0].timer in s.heap && !Pending(s.heap, s.timers, s.tasks[0].timer)
  {
    PopTask(s.heap, s.timers, s.tasks, []);
  }

  /** What addTimerInLoop finds for a timer just made. */
  lemma NewTimerReady(s: State, a: nat, when: int, repeat: bool, delay: nat)
    requires Inv(s) && a !in s.heap && a < UINTPTR_MAX
    ensures var n := NewTimer(s, a, when, repeat, delay);
            a in n.heap && IndexesAgree(n.heap, n.timers, n.active) && !Pending(n.heap, n.timers, a)
  {
    NewTimerKeepsInv(s, a, when, repeat, delay, BatchOf(s));
  }

  lemma RunTaskIs(reading: Reading, s: State, clock: nat)
    requires s.phase.Idle? && s.tasks != [] && !s.fault
    ensures Exec(reading, s, RunTask(clock)) == RunTaskInLoop(reading, s.(tasks := s.tasks[1..]), s.tasks[0], clock)
  {
  }

  ghost predicate DueAreLive(s: State, now: int) {
    forall e :: e in Due(s.timers, now) ==> e.timer in s.heap
  }

  /** What BeginBatch does. */
  ghost function Taken(s: State, now: int): State
    requires DueAreLive(s, now)
  {
    var due := Due(s.timers, now);
    s.(timers := s.timers - due, active := s.active - KeysOf(s.heap, due), cancelled := {},
       phase := Batch(Sorted(due), 0, now, s.created), armed := Unfired(s.armed, now), batches := s.batches + 1)
  }

  lemma ExpireReady(s: State, now: int)
    requires Inv(s) && s.phase.Idle? && !s.fault
    ensures IndexesAgree(s.heap, s.timers, s.active) && DueAreLive(s, now)
    ensures Expire(s, now) == Taken(s, now) && !Taken(s, now).fault
  {
    ExpireKeepsInv(s, now);
  }

  /** What FireNext finds. */
  lemma FireReady(s: State)
    requires Inv(s) && s.phase.Batch? && s.phase.next < |s.phase.expired|
    ensures s.phase.expired[s.phase.next].timer in s.heap
  {
  }

  class TimerQueue {
    const reading: Reading

    // the sets of TimerQueue.h
    var timers: set<Entry>
    var activeTimers: set<Active>
    var cancelTimers: set<Active>
    var doingExpiredTimers: bool

    // its surroundings: the C++ heap and Timer::numCreated_, the functors that other threads
    // queued, the deadline of the timer descriptor; `stopped` is set where the end iterator
    // is dereferenced
    var heap: map<nat, Timer>
    var numCreated: nat
    var queued: seq<Task>
    var armed: Option<int>
    var stopped: bool

    // history
    ghost var phase: Phase
    ghost var batches: nat
    ghost var fired: seq<Firing>
    ghost var freed: seq<int>
    ghost var trace: seq<Step>

    ghost function Snapshot(): State
      reads this
    {
      State(heap, timers, activeTimers, cancelTimers, numCreated, queued, phase, armed, batches, fired, freed, stopped)
    }

    /** The object is in the state that its history leads to, so that everything proved about
        runs holds of it. */
    ghost predicate Valid()
      reads this
    {
      Snapshot() == Run(reading, INITIAL, trace) && (doingExpiredTimers <==> phase.Batch?)
    }

    constructor (reading: Reading)
      ensures Valid() && Snapshot() == INITIAL && this.reading == reading
    {
      this.reading := reading;
      timers, activeTimers, cancelTimers, doingExpiredTimers := {}, {}, {}, false;
      heap, numCreated, queued, armed, stopped := map[], 0, [], None, false;
      phase, batches, fired, freed, trace := Idle, 0, [], [], [];
    }

    /** Notes in the history a step that the object has made from state s. */
    ghost method Record(s: State, step: Step)
      requires s == Run(reading, INITIAL, trace) && Snapshot() == Exec(reading, s, step)
      requires doingExpiredTimers <==> phase.Batch?
      modifies this`trace
      ensures trace == old(trace) + [step] && Valid()
    {
      FoldSnoc(Stepper(reading), INITIAL, trace, step);
      trace := trace + [step];
    }

    // ---------------------------------------------------------------- the member functions

    /** For a live timer that is not yet pending. */
    method Insert(timer: nat) returns (earliestTimerChanged: bool)
      requires IndexesAgree(heap, timers, activeTimers)
      requires timer in heap && !Pending(heap, timers, timer) && !stopped
      modifies this`timers, this`activeTimers
      ensures Snapshot() == TimerModel.Insert(old(Snapshot()), timer)
      ensures earliestTimerChanged == EarliestChanged(old(Snapshot()), heap[timer].expiration)
      ensures |timers| == |activeTimers|
    {
      SameSize(heap, timers, activeTimers);
      assert |timers| == |activeTimers|;
      var when := heap[timer].expiration;
      earliestTimerChanged := timers == {} || when < First(timers).when;
      var entry := Entry(when, timer);
      var active := Active(timer, heap[timer].sequence);
      assert entry !in timers && active !in activeTimers;
      timers := timers + {entry};
      activeTimers := activeTimers + {active};
    }

    method AddTimerInLoop(timer: nat, clock: nat)
      requires IndexesAgree(heap, timers, activeTimers)
      requires timer in heap && !Pending(heap, timers, timer) && !stopped
      modifies this`timers, this`activeTimers, this`armed
      ensures Snapshot() == TimerModel.AddTimerInLoop(old(Snapshot()), timer, clock)
    {
      InsertSucceeds(Snapshot(), timer);
      var earliestTimerChanged := Insert(timer);
      if earliestTimerChanged {
        armed := Arm(armed, clock, heap[timer].expiration);
      }
    }

    method CancelInLoop(timerId: Active)
      requires IndexesAgree(heap, timers, activeTimers) && !stopped && (doingExpiredTimers <==> phase.Batch?)
      modifies this`timers, this`activeTimers, this`cancelTimers, this`heap, this`freed, this`stopped
      ensures Snapshot() == TimerModel.CancelInLoop(reading, old(Snapshot()), timerId)
    {
      SameSize(heap, timers, activeTimers);
      assert |timers| == |activeTimers|;
      if timerId in activeTimers {
        var entry := Entry(heap[timerId.timer].expiration, timerId.timer);
        assert entry in timers;
        timers := timers - {entry};
        freed := freed + [heap[timerId.timer].sequence];
        heap := heap - {timerId.timer};
        activeTimers := activeTimers - {timerId};
        assert |timers| == |activeTimers|;
      } else if reading == AsWritten {
        stopped := true;
      } else if doingExpiredTimers {
        cancelTimers := cancelTimers + {timerId};
      }
    }

    /** new Timer at the address that the allocator returns. */
    method NewTimer(addr: nat, when: int, repeat: bool, delay: nat)
      modifies this`heap, this`numCreated
      ensures Snapshot() == TimerModel.NewTimer(old(Snapshot()), addr, when, repeat, delay)
    {
      numCreated := numCreated + 1;
      heap := heap[addr := Timer(when, repeat, delay, numCreated)];
    }

    /** The loop of getExpired. */
    method EraseActive(expired: seq<Entry>)
      requires forall i :: 0 <= i < |expired| ==>
                 expired[i].timer in heap && KeyOf(heap, expired[i].timer) in activeTimers
      requires forall i, j :: 0 <= i < j < |expired| ==> expired[i].timer != expired[j].timer
      modifies this`activeTimers
      ensures activeTimers == old(activeTimers) - KeysOfPrefix(heap, expired, |expired|)
    {
      for i := 0 to |expired|
        invariant activeTimers == old(activeTimers) - KeysOfPrefix(heap, expired, i)
      {
        var active := Active(expired[i].timer, heap[expired[i].timer].sequence);
        assert active in activeTimers;
        activeTimers := activeTimers - {active};
        assert KeysOfPrefix(heap, expired, i + 1) == KeysOfPrefix(heap, expired, i) + {active};
      }
    }

    method GetExpired(now: int) returns (expired: seq<Entry>)
      requires IndexesAgree(heap, timers, activeTimers)
      modifies this`timers, this`activeTimers
      ensures expired == Sorted(Due(old(timers), now))
      ensures timers == old(timers) - Due(old(timers), now)
      ensures forall e :: e in Due(old(timers), now) ==> e.timer in heap
      ensures activeTimers == old(activeTimers) - KeysOf(heap, Due(old(timers), now))
    {
      SameSize(heap, timers, activeTimers);
      assert |timers| == |activeTimers|;
      KeysOfDue(Snapshot(), now);
      expired := Sorted(Due(timers, now));
      timers := timers - Due(timers, now);
      EraseActive(expired);
    }

    /** Between the turns of the loops over the batch. */
    ghost predicate AtEntry(expired: seq<Entry>, i: nat, now: int)
      reads this
    {
      phase.Batch? && phase.expired == expired && phase.next == i && phase.now == now
    }

    /** One turn of the loop of reset. */
    method ResetTimer(timer: nat, now: int)
      requires timer in heap && !stopped
      requires var heap' := heap[timer := Restart(heap[timer], now)];
               IndexesAgree(heap', timers, activeTimers) && !Pending(heap', timers, timer)
      modifies this`timers, this`activeTimers, this`heap, this`freed
      ensures Snapshot() == ResetOne(old(Snapshot()), timer, now)
    {
      if heap[timer].repeat && Active(timer, heap[timer].sequence) !in cancelTimers {
        heap := heap[timer := Restart(heap[timer], now)];
        var _ := Insert(timer);
      } else {
        freed := freed + [heap[timer].sequence];
        heap := heap - {timer};
      }
    }

    /** The loop of reset. */
    method ResetTimers(expired: seq<Entry>, now: int, ghost s: State)
      requires Snapshot() == s && InvWith(s, expired) && !s.fault
      modifies this`timers, this`activeTimers, this`heap, this`freed
      ensures Snapshot() == ResetFirst(s, expired, |expired|, now)
    {
      for i := 0 to |expired|
        invariant Snapshot() == ResetFirst(s, expired, i, now)
      {
        ResetTurn(s, expired, i, now);
        ResetTimer(expired[i].timer, now);
      }
    }

    method Reset(expired: seq<Entry>, now: int, clock: nat)
      requires AtEntry(expired, |expired|, now) && InvWith(Snapshot(), expired) && !stopped
      modifies this`timers, this`activeTimers, this`heap, this`freed, this`phase, this`armed
      ensures Snapshot() == TimerModel.Reset(old(Snapshot()), clock) && phase.Idle?
    {
      ghost var s := Snapshot();
      ResetFirstIsAll(s, expired, now);
      ResetTimers(expired, now, s);
      phase := Idle;
      if timers != {} && Timestamps.Valid(First(timers).when) {
        armed := Arm(armed, clock, First(timers).when);
      }
    }

    // ---------------------------------------------------------------- the steps

    /** A step of a callback: addTimer and cancel, called in the loop thread or in another. */
    method Perform(step: Step)
      requires Valid() && IsCallbackStep(step)
      modifies this
      ensures Snapshot() == Exec(reading, old(Snapshot()), step) && Valid() && trace == old(trace) + [step]
      ensures phase == old(phase) && (old(stopped) ==> stopped)
    {
      ghost var s := Snapshot();
      CallbackKeepsPhase(reading, s, step);
      if !stopped {
        assert IndexesAgree(heap, timers, activeTimers) by {
          RunKeepsInv(reading, trace);
        }
        PerformStep(step);
      }
      Record(s, step);
    }

    method PerformStep(step: Step)
      requires Valid() && IsCallbackStep(step) && !stopped && IndexesAgree(heap, timers, activeTimers)
      modifies this`timers, this`activeTimers, this`cancelTimers, this`heap, this`numCreated
      modifies this`queued, this`armed, this`freed, this`stopped
      ensures Snapshot() == Exec(reading, old(Snapshot()), step)
    {
      match step {
        case Add(addr, when, repeat, delay, clock) =>
          if addr !in heap && addr < UINTPTR_MAX {
            ghost var n := TimerModel.NewTimer(Snapshot(), addr, when, repeat, delay);
            assert IndexesAgree(n.heap, n.timers, n.active) && !Pending(n.heap, n.timers, addr) by {
              RunKeepsInv(reading, trace);
              NewTimerReady(Snapshot(), addr, when, repeat, delay);
            }
            NewTimer(addr, when, repeat, delay);
            AddTimerInLoop(addr, clock);
          }
        case PostAdd(addr, when, repeat, delay) =>
          if addr !in heap && addr < UINTPTR_MAX {
            NewTimer(addr, when, repeat, delay);
            queued := queued + [InsertTask(addr)];
          }
        case Cancel(id) => CancelInLoop(id);
        case PostCancel(id) => queued := queued + [CancelTask(id)];
      }
    }

    /** A functor that another thread queued. */
    method Dispatch(task: Task, clock: nat)
      requires IndexesAgree(heap, timers, activeTimers) && !stopped && (doingExpiredTimers <==> phase.Batch?)
      requires task.InsertTask? ==> task.timer in heap && !Pending(heap, timers, task.timer)
      modifies this`timers, this`activeTimers, this`cancelTimers, this`heap, this`armed, this`stopped, this`freed
      ensures Snapshot() == RunTaskInLoop(reading, old(Snapshot()), task, clock)
    {
      match task {
        case InsertTask(timer) => AddTimerInLoop(timer, clock);
        case CancelTask(id) => CancelInLoop(id);
      }
    }

    /** The loop runs the next functor. */
    method RunQueued(clock: nat)
      requires Valid() && queued != [] && !doingExpiredTimers && !stopped
      modifies this
      ensures Snapshot() == Exec(reading, old(Snapshot()), RunTask(clock))
      ensures Valid() && trace == old(trace) + [RunTask(clock)]
    {
      ghost var s := Snapshot();
      assert IndexesAgree(heap, timers, activeTimers) &&
             (queued[0].InsertTask? ==> queued[0].timer in heap && !Pending(heap, timers, queued[0].timer)) by {
        RunKeepsInv(reading, trace);
        TaskReady(s);
      }
      RunTaskIs(reading, s, clock);
      var task := queued[0];
      queued := queued[1..];
      assert Snapshot() == s.(tasks := s.tasks[1..]);
      Dispatch(task, clock);
      Record(s, RunTask(clock));
    }

    /** getExpired, and the assignments before the first callback. */
    method TakeExpired(now: int) returns (expired: seq<Entry>)
      requires IndexesAgree(heap, timers, activeTimers) && DueAreLive(Snapshot(), now)
      modifies this`timers, this`activeTimers, this`cancelTimers, this`doingExpiredTimers
      modifies this`armed, this`phase, this`batches
      ensures Snapshot() == Taken(old(Snapshot()), now) && doingExpiredTimers
      ensures AtEntry(expired, 0, now) && expired == Sorted(Due(old(timers), now))
    {
      expired := GetExpired(now);
      armed := Unfired(armed, now);
      doingExpiredTimers := true;
      cancelTimers := {};
      phase, batches := Batch(expired, 0, now, numCreated), batches + 1;
    }

    /** The head of handleRead, up to the first callback. */
    method BeginExpired(now: int) returns (expired: seq<Entry>)
      requires Valid() && phase.Idle? && !stopped
      modifies this
      ensures Valid() && trace == old(trace) + [BeginBatch(now)]
      ensures !stopped && AtEntry(expired, 0, now) && |expired| == |Due(old(timers), now)|
    {
      ghost var s := Snapshot();
      assert IndexesAgree(heap, timers, activeTimers) && DueAreLive(s, now)
             && Exec(reading, s, BeginBatch(now)) == Taken(s, now) && !Taken(s, now).fault by {
        RunKeepsInv(reading, trace);
        ExpireReady(s, now);
      }
      SortedIsEnumeration(Due(timers, now));
      expired := TakeExpired(now);
      Record(s, BeginBatch(now));
    }

    /** it->second->run() */
    method FireTimer(expired: seq<Entry>, i: nat, now: int)
      requires Valid() && AtEntry(expired, i, now) && i < |expired| && !stopped
      modifies this`phase, this`fired, this`trace
      ensures Valid() && trace == old(trace) + [FireNext]
      ensures AtEntry(expired, i + 1, now)
    {
      ghost var s := Snapshot();
      assert expired[i].timer in heap by {
        RunKeepsInv(reading, trace);
        FireReady(s);
      }
      fired := fired + [Firing(heap[expired[i].timer], now, batches, phase.made)];
      phase := phase.(next := i + 1);
      Record(s, FireNext);
    }

    /** What a callback does. */
    method PerformAll(actions: seq<Step>)
      requires Valid() && AreCallbackSteps(actions)
      modifies this
      ensures Valid() && trace == old(trace) + actions
      ensures phase == old(phase) && (old(stopped) ==> stopped)
    {
      for j := 0 to |actions|
        invariant Valid() && trace == old(trace) + actions[..j]
        invariant phase == old(phase) && (old(stopped) ==> stopped)
      {
        assert actions[..j + 1] == actions[..j] + [actions[j]];
        Perform(actions[j]);
      }
      assert actions[..|actions|] == actions;
    }

    /** The tail of handleRead. */
    method FinishExpired(expired: seq<Entry>, now: int, clock: nat)
      requires Valid() && (!stopped ==> AtEntry(expired, |expired|, now))
      modifies this
      ensures Valid() && trace == old(trace) + [EndBatch(clock)]
    {
      ghost var s := Snapshot();
      if !stopped {
        doingExpiredTimers := false;
        assert InvWith(s, expired) by {
          RunKeepsInv(reading, trace);
        }
        Reset(expired, now, clock);
      }
      Record(s, EndBatch(clock));
    }

    /** The loop of handleRead has run the first i timers; the trace was `before` when it began. */
    ghost predicate HasFired(before: seq<Step>, expired: seq<Entry>, now: int, callbacks: seq<seq<Step>>, i: nat)
      reads this
    {
      Valid() && trace == before + FireSteps(callbacks, i) && (!stopped ==> AtEntry(expired, i, now))
    }

    /** One turn of the loop: the timer runs, and its callback acts. */
    method FireOne(ghost before: seq<Step>, expired: seq<Entry>, now: int, callbacks: seq<seq<Step>>, i: nat)
      requires HasFired(before, expired, now, callbacks, i) && i < |expired| && AreCallbacks(callbacks)
      modifies this
      ensures HasFired(before, expired, now, callbacks, i + 1)
    {
      FireStepsTurn(before, callbacks, i);
      FireAndCallback(expired, i, now, Actions(callbacks, i));
    }

    method FireAndCallback(expired: seq<Entry>, i: nat, now: int, actions: seq<Step>)
      requires Valid() && i < |expired| && (!stopped ==> AtEntry(expired, i, now)) && AreCallbackSteps(actions)
      modifies this
      ensures Valid() && trace == old(trace) + [FireNext] + actions
      ensures !stopped ==> AtEntry(expired, i + 1, now)
    {
      if !stopped {
        FireTimer(expired, i, now);
      } else {
        Record(Snapshot(), FireNext);
      }
      PerformAll(actions);
    }

    /** The loop of handleRead. */
    method FireAll(expired: seq<Entry>, now: int, callbacks: seq<seq<Step>>)
      requires Valid() && !stopped && AtEntry(expired, 0, now) && AreCallbacks(callbacks)
      modifies this
      ensures Valid() && trace == old(trace) + FireSteps(callbacks, |expired|)
      ensures !stopped ==> AtEntry(expired, |expired|, now)
    {
      ghost var before := trace;
      assert before + FireSteps(callbacks, 0) == before;
      for i := 0 to |expired|
        invariant HasFired(before, expired, now, callbacks, i)
      {
        FireOne(before, expired, now, callbacks, i);
      }
    }

    /** handleRead for clock readings `now` at its head and `clock` in resetTimerfd, where the
        callback of the i-th expired timer performs callbacks[i].  It is a run of TimerModel,
        so that everything proved about runs holds of it. */
    method HandleRead(now: int, callbacks: seq<seq<Step>>, clock: nat)
      requires Valid() && phase.Idle? && !stopped && AreCallbacks(callbacks)
      modifies this
      ensures Snapshot()
              == Run(reading, old(Snapshot()), HandleReadSteps(now, callbacks, |Due(old(timers), now)|, clock))
      ensures Valid()
    {
      ghost var n := |Due(timers, now)|;
      HandleReadStepsInOrder(trace, now, callbacks, n, clock);
      FoldAppend(Stepper(reading), INITIAL, trace, HandleReadSteps(now, callbacks, n, clock));
      var expired := BeginExpired(now);
      FireAll(expired, now, callbacks);
      FinishExpired(expired, now, clock);
    }
  }
}
