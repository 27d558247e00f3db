/** The invariant of the timer queue and its preservation by every step. */
module TimerInvariants {
  import opened Prelude
  import opened Timestamps
  import opened TimerModel

  /** Every live timer has its own sequence number. */
  ghost predicate UniqueSequences(heap: map<nat, Timer>, created: nat) {
    && (forall a :: a in heap ==> a < UINTPTR_MAX && 1 <= heap[a].sequence <= created)
    && (forall a, b :: a in heap && b in heap && heap[a].sequence == heap[b].sequence ==> a == b)
  }

  /** timers_ and activeTimers_ hold the same timers, and the key in timers_ is the timer's
      current expiration. */
  ghost predicate IndexesAgree(heap: map<nat, Timer>, timers: set<Entry>, active: set<Active>) {
    && (forall e :: e in timers ==>
          e.timer in heap && heap[e.timer].expiration == e.when && KeyOf(heap, e.timer) in active)
    && (forall k :: k in active ==>
          && k.timer in heap && heap[k.timer].sequence == k.sequence
          && Entry(heap[k.timer].expiration, k.timer) in timers)
  }

  /** The address is pending in timers_. */
  ghost predicate Pending(heap: map<nat, Timer>, timers: set<Entry>, a: nat) {
    a in heap && Entry(heap[a].expiration, a) in timers
  }

  ghost predicate Queued(tasks: seq<Task>, a: nat) {
    InsertTask(a) in tasks
  }

  ghost predicate InBatch(batch: seq<Entry>, a: nat) {
    exists i :: 0 <= i < |batch| && batch[i].timer == a
  }

  /** No address is in two of the three places, or twice in one of them, and the last two hold
      only live addresses. */
  ghost predicate Apart(heap: map<nat, Timer>, timers: set<Entry>, tasks: seq<Task>, batch: seq<Entry>) {
    && (forall a :: Pending(heap, timers, a) ==> !Queued(tasks, a) && !InBatch(batch, a))
    && (forall a :: Queued(tasks, a) ==> a in heap && !InBatch(batch, a))
    && (forall i :: 0 <= i < |batch| ==> batch[i].timer in heap)
    && (forall i, j :: 0 <= i < j < |batch| ==> batch[i].timer != batch[j].timer)
    && (forall i, j :: 0 <= i < j < |tasks| && tasks[i].InsertTask? && tasks[j].InsertTask? ==> tasks[i] != tasks[j])
  }

  /** Each live address is in exactly one of the three places. */
  ghost predicate Owned(heap: map<nat, Timer>, timers: set<Entry>, tasks: seq<Task>, batch: seq<Entry>) {
    && Apart(heap, timers, tasks, batch)
    && (forall a :: a in heap ==> Pending(heap, timers, a) || Queued(tasks, a) || InBatch(batch, a))
  }

  /** The same, for all addresses but `a`, which is live and in none of the places. */
  ghost predicate OwnedExcept(heap: map<nat, Timer>, timers: set<Entry>, tasks: seq<Task>, batch: seq<Entry>, a: nat) {
    && Apart(heap, timers, tasks, batch)
    && a in heap && !Pending(heap, timers, a) && !Queued(tasks, a) && !InBatch(batch, a)
    && (forall b :: b in heap && b != a ==> Pending(heap, timers, b) || Queued(tasks, b) || InBatch(batch, b))
  }

  ghost predicate Live(heap: map<nat, Timer>, q: int) {
    exists a :: a in heap && heap[a].sequence == q
  }

  /** Every timer ever created is live or has been freed, not both, and not freed twice. */
  ghost predicate FreedOnce(heap: map<nat, Timer>, created: nat, freed: seq<int>) {
    && (forall q :: 1 <= q <= created ==> Live(heap, q) || q in freed)
    && (forall q :: q in freed ==> 1 <= q <= created && !Live(heap, q))
    && (forall i, j :: 0 <= i < j < |freed| ==> freed[i] != freed[j])
  }

  /** The invariant when the timers of `batch` are outside both indexes. */
  ghost predicate InvWith(s: State, batch: seq<Entry>) {
    && UniqueSequences(s.heap, s.created) && IndexesAgree(s.heap, s.timers, s.active)
    && Owned(s.heap, s.timers, s.tasks, batch) && FreedOnce(s.heap, s.created, s.freed)
  }

  function BatchOf(s: State): seq<Entry> {
    if s.phase.Batch? then s.phase.expired else []
  }

  ghost predicate Inv(s: State) {
    InvWith(s, BatchOf(s)) && (s.phase.Batch? ==> s.phase.next <= |s.phase.expired|)
  }

  // ---------------------------------------------------------------- set facts

  /** The two indexes have the same size, as the assertions at the head and foot of insert,
      cancelInLoop and getExpired demand. */
  lemma {:induction false} SameSize(heap: map<nat, Timer>, ts: set<Entry>, ks: set<Active>)
    requires forall e :: e in ts ==> e.timer in heap && heap[e.timer].expiration == e.when && KeyOf(heap, e.timer) in ks
    requires forall k :: k in ks ==> k.timer in heap && heap[k.timer].sequence == k.sequence &&
                                     Entry(heap[k.timer].expiration, k.timer) in ts
    ensures |ts| == |ks|
  {
    if ts == {} {
      if k :| k in ks {
        assert Entry(heap[k.timer].expiration, k.timer) in ts;
      }
      assert ks == {};
    } else {
      var e :| e in ts;
      SameSize(heap, ts - {e}, ks - {KeyOf(heap, e.timer)});
    }
  }

  /** Sorted lists exactly the set, each element once, in strictly increasing order. */
  lemma {:induction false} SortedIsEnumeration(ts: set<Entry>)
    ensures forall e :: e in Sorted(ts) <==> e in ts
    ensures |Sorted(ts)| == |ts|
    ensures forall i, j :: 0 <= i < j < |Sorted(ts)| ==> Less(Sorted(ts)[i], Sorted(ts)[j])
  {
    if ts != {} {
      var m := First(ts);
      SortedIsEnumeration(ts - {m});
      var rest := Sorted(ts - {m});
      assert Sorted(ts) == [m] + rest;
      forall i, j | 0 <= i < j < |Sorted(ts)| ensures Less(Sorted(ts)[i], Sorted(ts)[j]) {
        if i == 0 {
          assert rest[j - 1] in rest;
        }
      }
    }
  }

  // ---------------------------------------------------------------- preservation, operation by operation

  lemma NewTimerKeepsFreedOnce(s: State, a: nat, t: Timer)
    requires FreedOnce(s.heap, s.created, s.freed) && a !in s.heap && t.sequence == s.created + 1
    ensures FreedOnce(s.heap[a := t], s.created + 1, s.freed)
  {
    var heap := s.heap[a := t];
    assert heap[a].sequence == s.created + 1;
    forall q | 1 <= q <= s.created + 1 ensures Live(heap, q) || q in s.freed {
      if q <= s.created && q !in s.freed {
        var b :| b in s.heap && s.heap[b].sequence == q;
        assert b in heap && heap[b].sequence == q;
      }
    }
    forall q, b | q in s.freed && b in heap ensures heap[b].sequence != q {
      if b != a {
        assert Live(s.heap, s.heap[b].sequence);
      }
    }
  }

  lemma NewTimerKeepsInv(s: State, a: nat, when: int, repeat: bool, delay: nat, batch: seq<Entry>)
    requires InvWith(s, batch) && a !in s.heap && a < UINTPTR_MAX
    ensures var s' := NewTimer(s, a, when, repeat, delay);
            && UniqueSequences(s'.heap, s'.created) && IndexesAgree(s'.heap, s'.timers, s'.active)
            && FreedOnce(s'.heap, s'.created, s'.freed) && OwnedExcept(s'.heap, s'.timers, s'.tasks, batch, a)
  {
    var s' := NewTimer(s, a, when, repeat, delay);
    assert !InBatch(batch, a);
    assert forall b :: b != a ==> Pending(s'.heap, s'.timers, b) == Pending(s.heap, s.timers, b);
    NewTimerKeepsFreedOnce(s, a, s'.heap[a]);
  }

  lemma PushInsertTask(heap: map<nat, Timer>, timers: set<Entry>, tasks: seq<Task>, batch: seq<Entry>, a: nat)
    requires OwnedExcept(heap, timers, tasks, batch, a)
    ensures Owned(heap, timers, tasks + [InsertTask(a)], batch)
  {
    assert forall b :: Queued(tasks + [InsertTask(a)], b) <==> Queued(tasks, b) || b == a;
  }

  lemma PushCancelTask(heap: map<nat, Timer>, timers: set<Entry>, tasks: seq<Task>, batch: seq<Entry>, id: Active)
    requires Owned(heap, timers, tasks, batch)
    ensures Owned(heap, timers, tasks + [CancelTask(id)], batch)
  {
    assert forall b :: Queued(tasks + [CancelTask(id)], b) <==> Queued(tasks, b);
  }

  lemma PopTask(heap: map<nat, Timer>, timers: set<Entry>, tasks: seq<Task>, batch: seq<Entry>)
    requires Owned(heap, timers, tasks, batch) && tasks != []
    ensures tasks[0].InsertTask? ==> OwnedExcept(heap, timers, tasks[1..], batch, tasks[0].timer)
    ensures tasks[0].CancelTask? ==> Owned(heap, timers, tasks[1..], batch)
  {
    var rest := tasks[1..];
    assert tasks == [tasks[0]] + rest;
    if tasks[0].InsertTask? {
      assert Queued(tasks, tasks[0].timer);
      assert forall b :: Queued(tasks, b) <==> Queued(rest, b) || b == tasks[0].timer;
    } else {
      assert forall b :: Queued(tasks, b) <==> Queued(rest, b);
    }
  }

  /** TimerQueue::insert: its assertions hold for a live timer that is not pending, which
      it makes pending. */
  lemma InsertKeepsInv(s: State, a: nat)
    requires UniqueSequences(s.heap, s.created) && IndexesAgree(s.heap, s.timers, s.active)
    requires a in s.heap && !Pending(s.heap, s.timers, a) && !s.fault
    ensures var s' := Insert(s, a);
            && !s'.fault && UniqueSequences(s'.heap, s'.created)
            && IndexesAgree(s'.heap, s'.timers, s'.active) && Pending(s'.heap, s'.timers, a)
            && s' == s.(timers := s'.timers, active := s'.active)
            && (forall b :: b != a ==> Pending(s'.heap, s'.timers, b) == Pending(s.heap, s.timers, b))
  {
    SameSize(s.heap, s.timers, s.active);
    assert KeyOf(s.heap, a) !in s.active;
  }

  /** delete of a live timer, in either place where the queue does it. */
  lemma DeleteKeepsFreedOnce(s: State, a: nat)
    requires UniqueSequences(s.heap, s.created) && FreedOnce(s.heap, s.created, s.freed) && a in s.heap
    ensures FreedOnce(s.heap - {a}, s.created, s.freed + [s.heap[a].sequence])
  {
    var q0 := s.heap[a].sequence;
    var s' := s.(heap := s.heap - {a}, freed := s.freed + [q0]);
    assert Live(s.heap, q0);
    forall q | 1 <= q <= s'.created ensures Live(s'.heap, q) || q in s'.freed {
      if q != q0 && q !in s.freed {
        var b :| b in s.heap && s.heap[b].sequence == q;
        assert b in s'.heap && s'.heap[b].sequence == q;
      }
    }
    forall q | q in s'.freed ensures 1 <= q <= s'.created && !Live(s'.heap, q) {
      if b :| b in s'.heap && s'.heap[b].sequence == q {
        assert b in s.heap && s.heap[b].sequence == q;
        assert Live(s.heap, q);
      }
    }
  }

  /** A pending timer leaves both indexes and the heap. */
  lemma RemoveKeepsIndexes(heap: map<nat, Timer>, timers: set<Entry>, active: set<Active>, a: nat)
    requires IndexesAgree(heap, timers, active) && Pending(heap, timers, a)
    ensures IndexesAgree(heap - {a}, timers - {Entry(heap[a].expiration, a)}, active - {KeyOf(heap, a)})
  {
    forall e | e in timers - {Entry(heap[a].expiration, a)} ensures e.timer != a {
      assert e in timers;
    }
  }

  lemma RemoveKeepsOwned(heap: map<nat, Timer>, timers: set<Entry>, tasks: seq<Task>, batch: seq<Entry>, a: nat)
    requires Owned(heap, timers, tasks, batch) && Pending(heap, timers, a)
    requires forall e :: e in timers && e.timer == a ==> e == Entry(heap[a].expiration, a)
    ensures Owned(heap - {a}, timers - {Entry(heap[a].expiration, a)}, tasks, batch)
  {
    var heap', timers' := heap - {a}, timers - {Entry(heap[a].expiration, a)};
    assert forall b :: b != a ==> Pending(heap', timers', b) == Pending(heap, timers, b);
    forall i | 0 <= i < |batch| ensures batch[i].timer in heap' {
      assert InBatch(batch, batch[i].timer);
    }
  }

  lemma CancelKeepsInv(reading: Reading, s: State, id: Active, batch: seq<Entry>)
    requires InvWith(s, batch) && !s.fault
    ensures var s' := CancelInLoop(reading, s, id);
            && InvWith(s', batch)
            && (s'.fault <==> reading == AsWritten && id !in s.active)
  {
    SameSize(s.heap, s.timers, s.active);
    var s' := CancelInLoop(reading, s, id);
    if id in s.active {
      assert id == KeyOf(s.heap, id.timer);
      DeleteKeepsFreedOnce(s, id.timer);
      RemoveKeepsIndexes(s.heap, s.timers, s.active, id.timer);
      RemoveKeepsOwned(s.heap, s.timers, s.tasks, batch, id.timer);
    }
  }

  lemma AddTimerKeepsInv(s: State, a: nat, clock: nat, batch: seq<Entry>)
    requires UniqueSequences(s.heap, s.created) && IndexesAgree(s.heap, s.timers, s.active)
    requires FreedOnce(s.heap, s.created, s.freed) && OwnedExcept(s.heap, s.timers, s.tasks, batch, a) && !s.fault
    ensures InvWith(AddTimerInLoop(s, a, clock), batch) && !AddTimerInLoop(s, a, clock).fault
  {
    InsertKeepsInv(s, a);
    var s' := AddTimerInLoop(s, a, clock);
    assert forall b :: Pending(s'.heap, s'.timers, b) == (b == a || Pending(s.heap, s.timers, b));
  }

  lemma TailOfBatch(batch: seq<Entry>)
    requires batch != []
    requires forall i, j :: 0 <= i < j < |batch| ==> batch[i].timer != batch[j].timer
    ensures InBatch(batch, batch[0].timer)
    ensures forall b :: InBatch(batch[1..], b) <==> InBatch(batch, b) && b != batch[0].timer
  {
    forall b | InBatch(batch, b) && b != batch[0].timer ensures InBatch(batch[1..], b) {
      var i :| 0 <= i < |batch| && batch[i].timer == b;
      assert batch[1..][i - 1].timer == b;
    }
    forall b | InBatch(batch[1..], b) ensures InBatch(batch, b) && b != batch[0].timer {
      var i :| 0 <= i < |batch[1..]| && batch[1..][i].timer == b;
      assert batch[i + 1].timer == b;
    }
  }

  /** Timer::restart on a timer that is in neither index disturbs neither. */
  lemma RestartKeepsInv(s: State, batch: seq<Entry>, a: nat, now: int)
    requires InvWith(s, batch) && InBatch(batch, a)
    ensures var r := s.(heap := s.heap[a := Restart(s.heap[a], now)]);
            && UniqueSequences(r.heap, r.created) && IndexesAgree(r.heap, r.timers, r.active)
            && FreedOnce(r.heap, r.created, r.freed)
            && (forall b :: Pending(r.heap, r.timers, b) == Pending(s.heap, s.timers, b))
            && (forall q :: Live(r.heap, q) == Live(s.heap, q))
  {
    assert a in s.heap && !Pending(s.heap, s.timers, a);
    var r := s.(heap := s.heap[a := Restart(s.heap[a], now)]);
    assert forall b :: b in s.heap ==> KeyOf(r.heap, b) == KeyOf(s.heap, b);
    assert forall e :: e in s.timers ==> e.timer != a;
    forall q | Live(s.heap, q) ensures Live(r.heap, q) {
      var b :| b in s.heap && s.heap[b].sequence == q;
      assert b in r.heap && r.heap[b].sequence == q;
    }
    forall q | Live(r.heap, q) ensures Live(s.heap, q) {
      var b :| b in r.heap && r.heap[b].sequence == q;
      assert b in s.heap && s.heap[b].sequence == q;
    }
  }

  lemma ReinsertKeepsInv(s: State, batch: seq<Entry>, now: int)
    requires InvWith(s, batch) && batch != [] && !s.fault
    ensures var r := s.(heap := s.heap[batch[0].timer := Restart(s.heap[batch[0].timer], now)]);
            var s' := Insert(r, batch[0].timer);
            InvWith(s', batch[1..]) && !s'.fault
  {
    var a := batch[0].timer;
    TailOfBatch(batch);
    var r := s.(heap := s.heap[a := Restart(s.heap[a], now)]);
    RestartKeepsInv(s, batch, a, now);
    InsertKeepsInv(r, a);
    var s' := Insert(r, a);
    assert forall q :: Live(s'.heap, q) == Live(r.heap, q);
    assert FreedOnce(s'.heap, s'.created, s'.freed);
    assert forall b :: Pending(s'.heap, s'.timers, b) == (b == a || Pending(s.heap, s.timers, b));
  }

  lemma FreeKeepsInv(s: State, batch: seq<Entry>)
    requires InvWith(s, batch) && batch != [] && !s.fault
    ensures InvWith(s.(heap := s.heap - {batch[0].timer},
                       freed := s.freed + [s.heap[batch[0].timer].sequence]), batch[1..])
  {
    var a := batch[0].timer;
    TailOfBatch(batch);
    var s' := s.(heap := s.heap - {a}, freed := s.freed + [s.heap[a].sequence]);
    DeleteKeepsFreedOnce(s, a);
    assert !Pending(s.heap, s.timers, a);
    assert forall b :: Pending(s'.heap, s'.timers, b) == Pending(s.heap, s.timers, b);
  }

  /** One turn of the loop of reset moves the first timer of the batch back into the indexes,
      or frees it. */
  lemma ResetOneKeepsInv(s: State, batch: seq<Entry>, now: int)
    requires InvWith(s, batch) && batch != [] && !s.fault
    ensures var s' := ResetOne(s, batch[0].timer, now); InvWith(s', batch[1..]) && !s'.fault
  {
    ReinsertKeepsInv(s, batch, now);
    FreeKeepsInv(s, batch);
  }

  lemma {:induction false} ResetAllKeepsInv(s: State, batch: seq<Entry>, now: int)
    requires InvWith(s, batch) && !s.fault
    ensures var s' := ResetAll(s, batch, now);
            && InvWith(s', []) && !s'.fault
            && s'.(heap := s.heap, timers := s.timers, active := s.active, freed := s.freed) == s
    decreases |batch|
  {
    if batch != [] {
      ResetOneKeepsInv(s, batch, now);
      ResetAllKeepsInv(ResetOne(s, batch[0].timer, now), batch[1..], now);
    }
  }

  /** The batch that getExpired takes: the due timers, each once. */
  lemma BatchIsDue(s: State, now: int)
    requires IndexesAgree(s.heap, s.timers, s.active)
    ensures var batch := Sorted(Due(s.timers, now));
            && (forall b :: InBatch(batch, b) <==>
                  Pending(s.heap, s.timers, b) && Entry(s.heap[b].expiration, b) in Due(s.timers, now))
            && (forall i :: 0 <= i < |batch| ==> batch[i] in s.timers && Less(batch[i], Entry(now, UINTPTR_MAX)))
            && (forall i, j :: 0 <= i < j < |batch| ==> batch[i].timer != batch[j].timer)
  {
    var due := Due(s.timers, now);
    SortedIsEnumeration(due);
    var batch := Sorted(due);
    assert forall i :: 0 <= i < |batch| ==> batch[i] in due;
    forall b | Pending(s.heap, s.timers, b) && Entry(s.heap[b].expiration, b) in due ensures InBatch(batch, b) {
      var e := Entry(s.heap[b].expiration, b);
      assert e in batch;
      var i :| 0 <= i < |batch| && batch[i] == e;
      assert batch[i].timer == b;
    }
    forall i, j | 0 <= i < j < |batch| ensures batch[i].timer != batch[j].timer {
      assert Less(batch[i], batch[j]);
    }
  }

  lemma ExpireKeepsInv(s: State, now: int)
    requires InvWith(s, []) && !s.fault
    ensures var s' := Expire(s, now); Inv(s') && !s'.fault && s'.phase.Batch?
  {
    SameSize(s.heap, s.timers, s.active);
    BatchIsDue(s, now);
    var due := Due(s.timers, now);
    var s' := Expire(s, now);
    assert IndexesAgree(s'.heap, s'.timers, s'.active) by {
      forall e | e in s'.timers ensures KeyOf(s'.heap, e.timer) in s'.active {
        assert e in s.timers && e !in due;
      }
    }
    assert forall b :: Pending(s'.heap, s'.timers, b) <==> Pending(s.heap, s.timers, b) && !InBatch(Sorted(due), b);
    assert forall q :: Live(s'.heap, q) == Live(s.heap, q);
  }

  // ---------------------------------------------------------------- every step, every run

  /** The step processes a cancel request. */
  ghost function Cancels(s: State, step: Step): Option<Active> {
    match step
    case Cancel(id) => Some(id)
    case RunTask(_) => if s.tasks != [] && s.tasks[0].CancelTask? then Some(s.tasks[0].id) else None
    case _ => None
  }

  /** The step dereferences the end iterator: a cancel request for an id that is not active,
      executed as written. */
  ghost predicate CancelsMissing(reading: Reading, s: State, step: Step) {
    && reading == AsWritten && Enabled(s, step)
    && Cancels(s, step).Some? && Cancels(s, step).value !in s.active
  }

  lemma InsertTaskKeepsInv(s: State, a: nat, clock: nat)
    requires UniqueSequences(s.heap, s.created) && IndexesAgree(s.heap, s.timers, s.active)
    requires FreedOnce(s.heap, s.created, s.freed) && OwnedExcept(s.heap, s.timers, s.tasks, [], a)
    requires s.phase.Idle? && !s.fault
    ensures var s' := AddTimerInLoop(s, a, clock); Inv(s') && !s'.fault
  {
    AddTimerKeepsInv(s, a, clock, []);
    assert AddTimerInLoop(s, a, clock).phase.Idle?;
  }

  lemma CancelTaskKeepsInv(reading: Reading, s: State, id: Active)
    requires InvWith(s, []) && s.phase.Idle? && !s.fault
    ensures var s' := CancelInLoop(reading, s, id);
            Inv(s') && (s'.fault <==> reading == AsWritten && id !in s.active)
  {
    CancelKeepsInv(reading, s, id, []);
    assert CancelInLoop(reading, s, id).phase.Idle?;
  }

  lemma RunTaskKeepsInv(reading: Reading, s: State, clock: nat)
    requires Inv(s) && !s.fault && s.phase.Idle? && s.tasks != []
    ensures var s' := Exec(reading, s, RunTask(clock));
            Inv(s') && (s'.fault <==> CancelsMissing(reading, s, RunTask(clock)))
  {
    PopTask(s.heap, s.timers, s.tasks, []);
    var r := s.(tasks := s.tasks[1..]);
    match s.tasks[0] {
      case InsertTask(a) => InsertTaskKeepsInv(r, a, clock);
      case CancelTask(id) => CancelTaskKeepsInv(reading, r, id);
    }
  }

  lemma PostAddKeepsInv(s: State, a: nat, when: int, repeat: bool, delay: nat)
    requires Inv(s) && a !in s.heap && a < UINTPTR_MAX
    ensures Inv(NewTimer(s, a, when, repeat, delay).(tasks := s.tasks + [InsertTask(a)]))
  {
    NewTimerKeepsInv(s, a, when, repeat, delay, BatchOf(s));
    var n := NewTimer(s, a, when, repeat, delay);
    PushInsertTask(n.heap, n.timers, n.tasks, BatchOf(s), a);
  }

  lemma AddKeepsInv(s: State, a: nat, when: int, repeat: bool, delay: nat, clock: nat)
    requires Inv(s) && a !in s.heap && a < UINTPTR_MAX && !s.fault
    ensures var s' := AddTimerInLoop(NewTimer(s, a, when, repeat, delay), a, clock); Inv(s') && !s'.fault
  {
    NewTimerKeepsInv(s, a, when, repeat, delay, BatchOf(s));
    AddTimerKeepsInv(NewTimer(s, a, when, repeat, delay), a, clock, BatchOf(s));
  }

  lemma FireKeepsInv(s: State)
    requires Inv(s) && Enabled(s, FireNext)
    ensures Inv(Fire(s)) && !Fire(s).fault
  {
    assert InBatch(s.phase.expired, s.phase.expired[s.phase.next].timer);
  }

  lemma ResetKeepsInv(s: State, clock: nat)
    requires Inv(s) && s.phase.Batch? && !s.fault
    ensures Inv(Reset(s, clock)) && !Reset(s, clock).fault
  {
    ResetAllKeepsInv(s, s.phase.expired, s.phase.now);
  }

  lemma StepKeepsInv(reading: Reading, s: State, step: Step)
    requires Inv(s) && !s.fault
    ensures var s' := Exec(reading, s, step); Inv(s') && (s'.fault <==> CancelsMissing(reading, s, step))
  {
    if Enabled(s, step) {
      match step {
        case PostAdd(a, when, repeat, delay) => PostAddKeepsInv(s, a, when, repeat, delay);
        case PostCancel(id) => PushCancelTask(s.heap, s.timers, s.tasks, BatchOf(s), id);
        case RunTask(clock) => RunTaskKeepsInv(reading, s, clock);
        case Add(a, when, repeat, delay, clock) => AddKeepsInv(s, a, when, repeat, delay, clock);
        case Cancel(id) => CancelKeepsInv(reading, s, id, BatchOf(s));
        case BeginBatch(now) => ExpireKeepsInv(s, now);
        case FireNext => FireKeepsInv(s);
        case EndBatch(clock) => ResetKeepsInv(s, clock);
      }
    }
  }

  lemma {:induction false} RunKeepsInv(reading: Reading, steps: seq<Step>)
    ensures Inv(Run(reading, INITIAL, steps))
    decreases |steps|
  {
    if steps != [] {
      var before := steps[..|steps| - 1];
      RunKeepsInv(reading, before);
      var s := Run(reading, INITIAL, before);
      if !s.fault {
        StepKeepsInv(reading, s, steps[|steps| - 1]);
      }
    }
  }
}
