/** net/TimerQueue.cc, net/TimerQueue.h, net/Timer.h and net/Timer.cc as a state machine on
    values.  The class in TimerQueue.dfy is proved against it.

    The C++ heap is a map from addresses to timers, so that a freed address can be handed out
    again and a stale TimerId can name it.  The assertions of the source and every access
    through a timer pointer are checked: a violated one sets `fault`, where the process stops. */
module TimerModel {
  import opened Prelude
  import opened Timestamps

  const UINTPTR_MAX: nat := 0xFFFF_FFFF_FFFF_FFFF

  /** repeat and delay stand for the interval: repeat_ is interval > 0, and delay is the
      truncated number of microseconds, so a repeating timer may have delay 0. */
  datatype Timer = Timer(expiration: int, repeat: bool, delay: nat, sequence: int)

  datatype Entry = Entry(when: int, timer: nat)

  /** The key of activeTimers_ and cancelTimers_; a TimerId is the same pair. */
  datatype Active = Active(timer: nat, sequence: int)

  /** A functor that another thread handed to the loop. */
  datatype Task = InsertTask(timer: nat) | CancelTask(id: Active)

  /** Batch: handleRead is between getExpired and reset.  `made` is the number of timers that
      had been created when the batch was taken. */
  datatype Phase = Idle | Batch(expired: seq<Entry>, next: nat, now: int, made: nat)

  /** One run of a timer callback, recorded with the batch it belongs to. */
  datatype Firing = Firing(timer: Timer, now: int, batch: nat, made: nat)

  datatype State = State(
    heap: map<nat, Timer>,
    timers: set<Entry>,
    active: set<Active>,
    cancelled: set<Active>,
    created: nat,
    tasks: seq<Task>,
    phase: Phase,
    armed: Option<int>,
    batches: nat,
    fired: seq<Firing>,
    freed: seq<int>,
    fault: bool)

  const INITIAL: State := State(map[], {}, {}, {}, 0, [], Idle, None, 0, [], [], false)

  // ---------------------------------------------------------------- std::set<Entry>

  predicate Less(a: Entry, b: Entry) {
    a.when < b.when || (a.when == b.when && a.timer < b.timer)
  }

  predicate IsFirst(m: Entry, ts: set<Entry>) {
    m in ts && forall e :: e in ts ==> e == m || Less(m, e)
  }

  lemma FirstExists(ts: set<Entry>)
    requires ts != {}
    ensures exists m :: IsFirst(m, ts)
  {
    var e :| e in ts;
    if ts == {e} {
      assert IsFirst(e, ts);
    } else {
      FirstExists(ts - {e});
      var m :| IsFirst(m, ts - {e});
      var k := if Less(e, m) then e else m;
      forall x | x in ts ensures x == k || Less(k, x) {
        assert x == e || x in ts - {e};
      }
      assert IsFirst(k, ts);
    }
  }

  /** *timers_.begin() */
  function First(ts: set<Entry>): (m: Entry)
    requires ts != {}
    ensures IsFirst(m, ts)
  {
    FirstExists(ts);
    var m :| IsFirst(m, ts);
    m
  }

  /** The elements in iteration order. */
  function Sorted(ts: set<Entry>): seq<Entry> {
    if ts == {} then [] else [First(ts)] + Sorted(ts - {First(ts)})
  }

  /** [timers_.begin(), timers_.lower_bound(Entry(now, UINTPTR_MAX))) */
  function Due(ts: set<Entry>, now: int): set<Entry> {
    set e | e in ts && Less(e, Entry(now, UINTPTR_MAX))
  }

  // ---------------------------------------------------------------- operations

  function Faulted(s: State): State {
    s.(fault := true)
  }

  function KeyOf(heap: map<nat, Timer>, a: nat): Active
    requires a in heap
  {
    Active(a, heap[a].sequence)
  }

  /** Timer::restart */
  function Restart(t: Timer, now: int): Timer {
    t.(expiration := if t.repeat then now + t.delay else 0)
  }

  /** TimerQueue::insert, without its result. */
  function Insert(s: State, a: nat): State {
    if a !in s.heap || |s.timers| != |s.active| then Faulted(s)
    else
      var entry := Entry(s.heap[a].expiration, a);
      if entry in s.timers || KeyOf(s.heap, a) in s.active then Faulted(s)
      else s.(timers := s.timers + {entry}, active := s.active + {KeyOf(s.heap, a)})
  }

  /** The result of TimerQueue::insert for a timer that expires at `when`. */
  predicate EarliestChanged(s: State, when: int) {
    s.timers == {} || when < First(s.timers).when
  }

  function AddTimerInLoop(s: State, a: nat, clock: nat): State {
    var s' := Insert(s, a);
    if s'.fault || a !in s.heap || !EarliestChanged(s, s.heap[a].expiration) then s'
    else s'.(armed := Arm(s.armed, clock, s.heap[a].expiration))
  }

  /** Under AsWritten an id that is not active faults: the iterator is dereferenced before it
      is compared with end(). */
  function CancelInLoop(reading: Reading, s: State, id: Active): State {
    if |s.timers| != |s.active| then Faulted(s)
    else if id in s.active then
      if id.timer !in s.heap then Faulted(s)
      else
        var entry := Entry(s.heap[id.timer].expiration, id.timer);
        if entry !in s.timers then Faulted(s)
        else s.(timers := s.timers - {entry},
                active := s.active - {id},
                heap := s.heap - {id.timer},
                freed := s.freed + [s.heap[id.timer].sequence])
    else if reading == AsWritten then Faulted(s)
    else if s.phase.Batch? then s.(cancelled := s.cancelled + {id})
    else s
  }

  /** new Timer at an address the allocator chose. */
  function NewTimer(s: State, a: nat, when: int, repeat: bool, delay: nat): State {
    s.(heap := s.heap[a := Timer(when, repeat, delay, s.created + 1)], created := s.created + 1)
  }

  predicate AllActive(s: State, es: set<Entry>) {
    && (forall e :: e in es ==> e.timer in s.heap && KeyOf(s.heap, e.timer) in s.active)
    && (forall e, f :: e in es && f in es && e.timer == f.timer ==> e == f)
  }

  function KeysOf(heap: map<nat, Timer>, es: set<Entry>): set<Active>
    requires forall e :: e in es ==> e.timer in heap
  {
    set e | e in es :: KeyOf(heap, e.timer)
  }

  /** readTimerfd and getExpired, followed by doingExpiredTimers_ = true and
      cancelTimers_.clear().  A callback before may have armed the descriptor again. */
  function Expire(s: State, now: int): State {
    var due := Due(s.timers, now);
    if |s.timers| != |s.active| || !AllActive(s, due) then Faulted(s)
    else s.(timers := s.timers - due,
            active := s.active - KeysOf(s.heap, due),
            cancelled := {},
            phase := Batch(Sorted(due), 0, now, s.created),
            armed := Unfired(s.armed, now),
            batches := s.batches + 1)
  }

  /** it->second->run() for the next entry of the batch; what its callback does follows as
      further steps. */
  function Fire(s: State): State
    requires s.phase.Batch? && s.phase.next < |s.phase.expired|
  {
    var a := s.phase.expired[s.phase.next].timer;
    if a !in s.heap then Faulted(s)
    else s.(phase := s.phase.(next := s.phase.next + 1),
            fired := s.fired + [Firing(s.heap[a], s.phase.now, s.batches, s.phase.made)])
  }

  /** One turn of the loop of reset. */
  function ResetOne(s: State, a: nat, now: int): State {
    if a !in s.heap then Faulted(s)
    else if s.heap[a].repeat && KeyOf(s.heap, a) !in s.cancelled then
      Insert(s.(heap := s.heap[a := Restart(s.heap[a], now)]), a)
    else s.(heap := s.heap - {a}, freed := s.freed + [s.heap[a].sequence])
  }

  function ResetAll(s: State, expired: seq<Entry>, now: int): State
    decreases |expired|
  {
    if expired == [] then s else ResetAll(ResetOne(s, expired[0].timer, now), expired[1..], now)
  }

  /** The rest of reset: nextExpired stays the invalid timestamp for an empty queue. */
  function Rearm(s: State, clock: nat): State {
    if s.timers != {} && Valid(First(s.timers).when)
    then s.(armed := Arm(s.armed, clock, First(s.timers).when))
    else s
  }

  /** doingExpiredTimers_ = false; reset(expired, now) */
  function Reset(s: State, clock: nat): State
    requires s.phase.Batch?
  {
    var s' := ResetAll(s, s.phase.expired, s.phase.now).(phase := Idle);
    if s'.fault then Faulted(s) else Rearm(s', clock)
  }

  // ---------------------------------------------------------------- steps and runs

  /** Post steps are taken by other threads and only allocate and queue (addTimer and cancel
      through runInLoop); all others by the loop thread.  `clock` is the clock reading of a
      resetTimerfd call, should the step make one. */
  datatype Step =
    | PostAdd(addr: nat, when: int, repeat: bool, delay: nat)
    | PostCancel(id: Active)
    | RunTask(clock: nat)
    | Add(addr: nat, when: int, repeat: bool, delay: nat, clock: nat)
    | Cancel(id: Active)
    | BeginBatch(now: int)
    | FireNext
    | EndBatch(clock: nat)

  /** When a step can happen: the allocator returns an address that is not in use, queued
      functors run outside handleRead, and handleRead runs its batch in order. */
  predicate Enabled(s: State, step: Step) {
    !s.fault &&
    match step
    case PostAdd(a, _, _, _) => a !in s.heap && a < UINTPTR_MAX
    case PostCancel(_) => true
    case RunTask(_) => s.phase.Idle? && s.tasks != []
    case Add(a, _, _, _, _) => a !in s.heap && a < UINTPTR_MAX
    case Cancel(_) => true
    case BeginBatch(_) => s.phase.Idle?
    case FireNext => s.phase.Batch? && s.phase.next < |s.phase.expired|
    case EndBatch(_) => s.phase.Batch? && s.phase.next == |s.phase.expired|
  }

  function RunTaskInLoop(reading: Reading, s: State, task: Task, clock: nat): State {
    match task
    case InsertTask(a) => AddTimerInLoop(s, a, clock)
    case CancelTask(id) => CancelInLoop(reading, s, id)
  }

  /** A step that is not enabled does not happen. */
  function Exec(reading: Reading, s: State, step: Step): State {
    if !Enabled(s, step) then s else
    match step
    case PostAdd(a, when, repeat, delay) =>
      NewTimer(s, a, when, repeat, delay).(tasks := s.tasks + [InsertTask(a)])
    case PostCancel(id) => s.(tasks := s.tasks + [CancelTask(id)])
    case RunTask(clock) => RunTaskInLoop(reading, s.(tasks := s.tasks[1..]), s.tasks[0], clock)
    case Add(a, when, repeat, delay, clock) => AddTimerInLoop(NewTimer(s, a, when, repeat, delay), a, clock)
    case Cancel(id) => CancelInLoop(reading, s, id)
    case BeginBatch(now) => Expire(s, now)
    case FireNext => Fire(s)
    case EndBatch(clock) => Reset(s, clock)
  }

  function Stepper(reading: Reading): (State, Step) -> State {
    (s, step) => Exec(reading, s, step)
  }

  function Run(reading: Reading, s: State, steps: seq<Step>): State {
    Fold(Stepper(reading), s, steps)
  }

  lemma RunNext(reading: Reading, s: State, steps: seq<Step>, i: nat)
    requires i < |steps|
    ensures Run(reading, s, steps[..0]) == s
    ensures Run(reading, s, steps[..i + 1]) == Exec(reading, Run(reading, s, steps[..i]), steps[i])
  {
    assert steps[..i + 1] == steps[..i] + [steps[i]];
    FoldSnoc(Stepper(reading), s, steps[..i], steps[i]);
  }
}
