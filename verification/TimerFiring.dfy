/** What every run of the timer queue guarantees: where a timer lives, when it runs, and
    what a cancel request achieves. */
module TimerFiring {
  import opened Prelude
  import opened TimerModel
  import opened TimerInvariants

  // ---------------------------------------------------------------- faults

  ghost predicate MissingAt(reading: Reading, steps: seq<Step>, i: nat)
    requires i < |steps|
  {
    CancelsMissing(reading, Run(reading, INITIAL, steps[..i]), steps[i])
  }

  lemma MissingInPrefix(reading: Reading, steps: seq<Step>, i: nat)
    requires i < |steps| - 1
    ensures MissingAt(reading, steps[..|steps| - 1], i) == MissingAt(reading, steps, i)
  {
    assert steps[..|steps| - 1][..i] == steps[..i];
  }

  lemma FaultAtLastStep(reading: Reading, steps: seq<Step>)
    requires steps != [] && !Run(reading, INITIAL, steps[..|steps| - 1]).fault
    ensures Run(reading, INITIAL, steps).fault <==> MissingAt(reading, steps, |steps| - 1)
  {
    RunKeepsInv(reading, steps[..|steps| - 1]);
    StepKeepsInv(reading, Run(reading, INITIAL, steps[..|steps| - 1]), steps[|steps| - 1]);
  }

  /** All assertions of the source hold and no freed timer is ever accessed, in every run;
      except that, as written, a run stops exactly when a cancel request is processed for an
      id that is not active. */
  lemma {:induction false} FaultIffMissingCancel(reading: Reading, steps: seq<Step>)
    ensures Run(reading, INITIAL, steps).fault <==> exists i :: 0 <= i < |steps| && MissingAt(reading, steps, i)
    decreases |steps|
  {
    if steps != [] {
      var n := |steps| - 1;
      FaultIffMissingCancel(reading, steps[..n]);
      forall i | 0 <= i < n ensures MissingAt(reading, steps[..n], i) == MissingAt(reading, steps, i) {
        MissingInPrefix(reading, steps, i);
      }
      if !Run(reading, INITIAL, steps[..n]).fault {
        FaultAtLastStep(reading, steps);
      }
    }
  }

  // ---------------------------------------------------------------- ownership

  ghost predicate QueuedTimer(s: State, q: int) {
    exists a :: a in s.heap && s.heap[a].sequence == q && Queued(s.tasks, a)
  }

  ghost predicate PendingTimer(s: State, q: int) {
    exists a :: a in s.heap && s.heap[a].sequence == q && Pending(s.heap, s.timers, a)
  }

  ghost predicate BatchedTimer(s: State, q: int) {
    exists a :: a in s.heap && s.heap[a].sequence == q && InBatch(BatchOf(s), a)
  }

  ghost predicate ExactlyOne(a: bool, b: bool, c: bool, d: bool) {
    (a || b || c || d) && !(a && b) && !(a && c) && !(a && d) && !(b && c) && !(b && d) && !(c && d)
  }

  /** At every point of every run, each timer ever created is in exactly one of four places:
      queued for insertion, pending, in the current batch, or freed; and it is freed once. */
  lemma EveryTimerInOnePlace(reading: Reading, steps: seq<Step>, q: int)
    ensures var s := Run(reading, INITIAL, steps);
            && (1 <= q <= s.created ==>
                  ExactlyOne(QueuedTimer(s, q), PendingTimer(s, q), BatchedTimer(s, q), q in s.freed))
            && (forall i, j :: 0 <= i < j < |s.freed| ==> s.freed[i] != s.freed[j])
  {
    RunKeepsInv(reading, steps);
    var s := Run(reading, INITIAL, steps);
    if 1 <= q <= s.created && q !in s.freed {
      assert Live(s.heap, q);
      var a :| a in s.heap && s.heap[a].sequence == q;
      assert Pending(s.heap, s.timers, a) || Queued(s.tasks, a) || InBatch(BatchOf(s), a);
    }
    if QueuedTimer(s, q) || PendingTimer(s, q) || BatchedTimer(s, q) {
      assert Live(s.heap, q);
    }
  }

  /** The two indexes hold the same timers under their current keys, at every point of every
      run; so the size comparisons of the source always succeed. */
  lemma IndexesAlwaysAgree(reading: Reading, steps: seq<Step>)
    ensures var s := Run(reading, INITIAL, steps);
            && |s.timers| == |s.active|
            && (forall a :: a in s.heap ==>
                  (Entry(s.heap[a].expiration, a) in s.timers <==> Active(a, s.heap[a].sequence) in s.active))
            && (forall e :: e in s.timers ==> e.timer in s.heap && s.heap[e.timer].expiration == e.when)
            && (forall k :: k in s.active ==> k.timer in s.heap && s.heap[k.timer].sequence == k.sequence)
  {
    RunKeepsInv(reading, steps);
    var s := Run(reading, INITIAL, steps);
    SameSize(s.heap, s.timers, s.active);
  }

  // ---------------------------------------------------------------- steps outside the batch

  /** A step that neither takes, runs nor ends a batch: it may create one timer and may free
      timers, but not those of the batch. */
  ghost predicate Quiet(s: State, s': State) {
    && s'.phase == s.phase && s'.fired == s.fired && s'.batches == s.batches
    && s.created <= s'.created && s.cancelled <= s'.cancelled
    && (forall a :: a in s'.heap ==> (a in s.heap && s'.heap[a] == s.heap[a]) || s'.heap[a].sequence > s.created)
    && (forall a :: InBatch(BatchOf(s), a) ==> a in s'.heap && a in s.heap && s'.heap[a] == s.heap[a])
  }

  ghost predicate IsQuiet(step: Step) {
    step.PostAdd? || step.PostCancel? || step.RunTask? || step.Add? || step.Cancel?
  }

  /** The timers of the batch are live and in neither index. */
  lemma BatchIsApart(s: State)
    requires Inv(s)
    ensures forall a :: InBatch(BatchOf(s), a) ==> a in s.heap && KeyOf(s.heap, a) !in s.active
  {
    forall a | InBatch(BatchOf(s), a) ensures a in s.heap && KeyOf(s.heap, a) !in s.active {
      assert !Pending(s.heap, s.timers, a);
    }
  }

  lemma CancelIsQuiet(reading: Reading, s: State, id: Active)
    requires forall a :: InBatch(BatchOf(s), a) ==> a in s.heap && KeyOf(s.heap, a) !in s.active
    requires id in s.active ==> id.timer in s.heap && id == KeyOf(s.heap, id.timer)
    ensures Quiet(s, CancelInLoop(reading, s, id))
  {
  }

  lemma AddTimerIsQuiet(s: State, a: nat, clock: nat)
    requires forall b :: InBatch(BatchOf(s), b) ==> b in s.heap
    ensures Quiet(s, AddTimerInLoop(s, a, clock))
  {
  }

  lemma RunTaskIsQuiet(reading: Reading, s: State, clock: nat)
    requires Enabled(s, RunTask(clock))
    requires forall k :: k in s.active ==> k.timer in s.heap && k == KeyOf(s.heap, k.timer)
    ensures Quiet(s, Exec(reading, s, RunTask(clock)))
  {
    var r := s.(tasks := s.tasks[1..]);
    match s.tasks[0] {
      case CancelTask(id) => CancelIsQuiet(reading, r, id);
      case InsertTask(a) => AddTimerIsQuiet(r, a, clock);
    }
  }

  lemma NewTimerIsQuiet(s: State, a: nat, when: int, repeat: bool, delay: nat)
    requires forall b :: InBatch(BatchOf(s), b) ==> b in s.heap
    requires a !in s.heap
    ensures Quiet(s, NewTimer(s, a, when, repeat, delay))
  {
  }

  lemma AddIsQuiet(s: State, a: nat, when: int, repeat: bool, delay: nat, clock: nat)
    requires forall b :: InBatch(BatchOf(s), b) ==> b in s.heap
    requires a !in s.heap
    ensures Quiet(s, AddTimerInLoop(NewTimer(s, a, when, repeat, delay), a, clock))
  {
    NewTimerIsQuiet(s, a, when, repeat, delay);
    var n := NewTimer(s, a, when, repeat, delay);
    assert AddTimerInLoop(n, a, clock).heap == n.heap;
  }

  lemma QuietSteps(reading: Reading, s: State, step: Step)
    requires Inv(s) && IsQuiet(step) && Enabled(s, step)
    ensures Quiet(s, Exec(reading, s, step))
  {
    BatchIsApart(s);
    match step {
      case Cancel(id) => CancelIsQuiet(reading, s, id);
      case RunTask(clock) => RunTaskIsQuiet(reading, s, clock);
      case PostAdd(a, when, repeat, delay) => NewTimerIsQuiet(s, a, when, repeat, delay);
      case Add(a, when, repeat, delay, clock) => AddIsQuiet(s, a, when, repeat, delay, clock);
      case PostCancel(_) =>
    }
  }

  // ---------------------------------------------------------------- the log of runs

  /** The batch consists of timers that were due and had been created when it was taken, in
      the order of expiration. */
  ghost predicate BatchIsOld(heap: map<nat, Timer>, phase: Phase, created: nat) {
    phase.Batch? ==>
      && phase.made <= created
      && (forall i :: 0 <= i < |phase.expired| ==>
            var e := phase.expired[i];
            e.timer in heap && heap[e.timer].expiration == e.when <= phase.now && heap[e.timer].sequence <= phase.made)
      && (forall i, j :: 0 <= i < j < |phase.expired| ==> phase.expired[i].when <= phase.expired[j].when)
  }

  function Ran(phase: Phase): nat {
    if phase.Batch? then phase.next else 0
  }

  /** The last entries of the log are the runs of the current batch, all others belong to
      earlier batches. */
  ghost predicate LogShape(heap: map<nat, Timer>, phase: Phase, fired: seq<Firing>, batches: nat, created: nat) {
    && Ran(phase) <= |fired|
    && (forall k :: 0 <= k < |fired| ==> fired[k].batch <= batches && fired[k].timer.sequence <= created)
    && (phase.Batch? ==>
          && phase.next <= |phase.expired|
          && (forall k :: 0 <= k < |fired| - phase.next ==> fired[k].batch < batches)
          && (forall k :: 0 <= k < phase.next ==>
                && phase.expired[k].timer in heap
                && fired[|fired| - phase.next + k]
                   == Firing(heap[phase.expired[k].timer], phase.now, batches, phase.made)))
  }

  /** A live timer that ran in an earlier batch repeats, and is due no sooner than one
      interval after that run. */
  ghost predicate DueLater(heap: map<nat, Timer>, phase: Phase, fired: seq<Firing>) {
    forall k, a :: 0 <= k < |fired| - Ran(phase) && a in heap && heap[a].sequence == fired[k].timer.sequence ==>
      && fired[k].timer.repeat && heap[a].repeat && heap[a].delay == fired[k].timer.delay
      && fired[k].now + fired[k].timer.delay <= heap[a].expiration
  }

  /** The firing discipline, as a property of the log alone: no timer runs early, nor in the
      batch during which it was added; within a batch timers run in the order of their
      expirations; a timer runs again only if it repeats, in a later batch, and no sooner
      than one interval after its last run. */
  ghost predicate Disciplined(fired: seq<Firing>) {
    && (forall k :: 0 <= k < |fired| ==>
          fired[k].timer.expiration <= fired[k].now && fired[k].timer.sequence <= fired[k].made)
    && (forall i, j :: 0 <= i < j < |fired| && fired[i].batch == fired[j].batch ==>
          fired[i].timer.expiration <= fired[j].timer.expiration)
    && (forall i, j :: 0 <= i < j < |fired| && fired[i].timer.sequence == fired[j].timer.sequence ==>
          && fired[i].timer.repeat && fired[i].batch < fired[j].batch
          && fired[i].now + fired[i].timer.delay <= fired[j].now)
  }

  ghost predicate FiringInv(s: State) {
    && Inv(s)
    && BatchIsOld(s.heap, s.phase, s.created)
    && LogShape(s.heap, s.phase, s.fired, s.batches, s.created)
    && DueLater(s.heap, s.phase, s.fired)
    && Disciplined(s.fired)
  }

  lemma QuietKeepsBatch(s: State, s': State)
    requires BatchIsOld(s.heap, s.phase, s.created) && LogShape(s.heap, s.phase, s.fired, s.batches, s.created)
    requires DueLater(s.heap, s.phase, s.fired) && Quiet(s, s')
    ensures BatchIsOld(s'.heap, s'.phase, s'.created) && LogShape(s'.heap, s'.phase, s'.fired, s'.batches, s'.created)
    ensures DueLater(s'.heap, s'.phase, s'.fired)
  {
    if s.phase.Batch? {
      assert forall i :: 0 <= i < |s.phase.expired| ==> InBatch(BatchOf(s), s.phase.expired[i].timer);
    }
  }

  lemma QuietKeepsFiring(s: State, s': State)
    requires FiringInv(s) && Inv(s') && Quiet(s, s')
    ensures FiringInv(s')
  {
    QuietKeepsBatch(s, s');
  }

  lemma ExpiredBatchIsOld(s: State, now: int)
    requires IndexesAgree(s.heap, s.timers, s.active) && UniqueSequences(s.heap, s.created)
    ensures BatchIsOld(s.heap, Batch(Sorted(Due(s.timers, now)), 0, now, s.created), s.created)
  {
    BatchIsDue(s, now);
    SortedIsEnumeration(Due(s.timers, now));
  }

  lemma ExpireKeepsLog(s: State, s': State)
    requires LogShape(s.heap, s.phase, s.fired, s.batches, s.created) && DueLater(s.heap, s.phase, s.fired)
    requires s.phase.Idle? && s'.phase.Batch? && s'.phase.next == 0
    requires s'.heap == s.heap && s'.fired == s.fired && s'.batches == s.batches + 1 && s'.created == s.created
    ensures LogShape(s'.heap, s'.phase, s'.fired, s'.batches, s'.created) && DueLater(s'.heap, s'.phase, s'.fired)
  {
  }

  lemma ExpireKeepsFiring(s: State, now: int)
    requires FiringInv(s) && s.phase.Idle? && !s.fault
    ensures FiringInv(Expire(s, now))
  {
    ExpireKeepsInv(s, now);
    ExpiredBatchIsOld(s, now);
    ExpireKeepsLog(s, Expire(s, now));
  }

  /** The entries of the log that belong to the current batch are other timers than the next
      one, with expirations no later. */
  lemma NextOfBatchIsNew(heap: map<nat, Timer>, phase: Phase, fired: seq<Firing>, batches: nat, created: nat)
    requires phase.Batch? && phase.next < |phase.expired|
    requires BatchIsOld(heap, phase, created) && LogShape(heap, phase, fired, batches, created)
    requires forall i, j :: 0 <= i < j < |phase.expired| ==> phase.expired[i].timer != phase.expired[j].timer
    requires forall a, b :: a in heap && b in heap && heap[a].sequence == heap[b].sequence ==> a == b
    ensures var t := heap[phase.expired[phase.next].timer];
            forall k :: |fired| - phase.next <= k < |fired| ==>
              fired[k].timer.sequence != t.sequence && fired[k].timer.expiration <= t.expiration
  {
    var n := phase.next;
    var t := heap[phase.expired[n].timer];
    forall k | |fired| - n <= k < |fired|
      ensures fired[k].timer.sequence != t.sequence && fired[k].timer.expiration <= t.expiration
    {
      var i := k - (|fired| - n);
      assert fired[|fired| - n + i].timer == heap[phase.expired[i].timer];
      assert phase.expired[i].timer != phase.expired[n].timer;
      assert phase.expired[i].when <= phase.expired[n].when;
    }
  }

  lemma LogKeepsDiscipline(fired: seq<Firing>, f: Firing)
    requires Disciplined(fired) && f.timer.expiration <= f.now && f.timer.sequence <= f.made
    requires forall i :: 0 <= i < |fired| && fired[i].batch == f.batch ==>
               fired[i].timer.expiration <= f.timer.expiration
    requires forall i :: 0 <= i < |fired| && fired[i].timer.sequence == f.timer.sequence ==>
               && fired[i].timer.repeat && fired[i].batch < f.batch
               && fired[i].now + fired[i].timer.delay <= f.now
    ensures Disciplined(fired + [f])
  {
  }

  lemma FireKeepsDiscipline(s: State)
    requires FiringInv(s) && Enabled(s, FireNext)
    ensures Disciplined(Fire(s).fired)
  {
    NextOfBatchIsNew(s.heap, s.phase, s.fired, s.batches, s.created);
    var f := Firing(s.heap[s.phase.expired[s.phase.next].timer], s.phase.now, s.batches, s.phase.made);
    forall i | 0 <= i < |s.fired| && s.fired[i].timer.sequence == f.timer.sequence
      ensures s.fired[i].timer.repeat && s.fired[i].batch < f.batch && s.fired[i].now + s.fired[i].timer.delay <= f.now
    {
      assert i < |s.fired| - Ran(s.phase);
    }
    LogKeepsDiscipline(s.fired, f);
  }

  lemma FireKeepsLogShape(s: State)
    requires Enabled(s, FireNext)
    requires BatchIsOld(s.heap, s.phase, s.created) && LogShape(s.heap, s.phase, s.fired, s.batches, s.created)
    ensures var s' := Fire(s); LogShape(s'.heap, s'.phase, s'.fired, s'.batches, s'.created)
  {
    var s' := Fire(s);
    var n := s.phase.next;
    var m := |s.fired|;
    forall k | 0 <= k < n + 1
      ensures s.phase.expired[k].timer in s.heap
      ensures s'.fired[m + 1 - (n + 1) + k]
              == Firing(s.heap[s.phase.expired[k].timer], s.phase.now, s.batches, s.phase.made)
    {
      if k < n {
        assert s'.fired[m - n + k] == s.fired[m - n + k];
      }
    }
  }

  lemma FireKeepsDueLater(s: State)
    requires Enabled(s, FireNext) && DueLater(s.heap, s.phase, s.fired) && BatchIsOld(s.heap, s.phase, s.created)
    ensures var s' := Fire(s); DueLater(s'.heap, s'.phase, s'.fired) && BatchIsOld(s'.heap, s'.phase, s'.created)
  {
  }

  lemma FireKeepsFiring(s: State)
    requires FiringInv(s) && Enabled(s, FireNext)
    ensures FiringInv(Fire(s))
  {
    FireKeepsInv(s);
    FireKeepsDueLater(s);
    FireKeepsDiscipline(s);
    FireKeepsLogShape(s);
  }

  lemma ResetOneHeap(s: State, a: nat, now: int)
    requires a in s.heap
    ensures var r := ResetOne(s, a, now);
            && r.cancelled == s.cancelled
            && r.heap == if s.heap[a].repeat && KeyOf(s.heap, a) !in s.cancelled
                         then s.heap[a := Restart(s.heap[a], now)] else s.heap - {a}
  {
  }

  /** What reset does to the heap: timers outside the batch are untouched; one in the batch
      is restarted if it repeats and was not cancelled, and freed otherwise. */
  lemma {:induction false} ResetAllHeap(s: State, batch: seq<Entry>, now: int)
    requires forall i :: 0 <= i < |batch| ==> batch[i].timer in s.heap
    requires forall i, j :: 0 <= i < j < |batch| ==> batch[i].timer != batch[j].timer
    ensures var s' := ResetAll(s, batch, now);
            && (forall a :: a in s'.heap ==> a in s.heap)
            && (forall a :: a in s.heap && !InBatch(batch, a) ==> a in s'.heap && s'.heap[a] == s.heap[a])
            && (forall a :: InBatch(batch, a) ==>
                  && a in s.heap
                  && (a in s'.heap <==> s.heap[a].repeat && KeyOf(s.heap, a) !in s.cancelled)
                  && (a in s'.heap ==> s'.heap[a] == Restart(s.heap[a], now)))
    decreases |batch|
  {
    if batch != [] {
      var b := batch[0].timer;
      var r := ResetOne(s, b, now);
      TailOfBatch(batch);
      ResetOneHeap(s, b, now);
      ResetAllHeap(r, batch[1..], now);
    }
  }

  /** Timers of the batch that survive reset are due one interval after the run just made. */
  lemma ResetKeepsDueLater(s: State, heap': map<nat, Timer>)
    requires s.phase.Batch? && s.phase.next == |s.phase.expired|
    requires BatchIsOld(s.heap, s.phase, s.created) && LogShape(s.heap, s.phase, s.fired, s.batches, s.created)
    requires DueLater(s.heap, s.phase, s.fired) && UniqueSequences(s.heap, s.created)
    requires forall a :: a in heap' ==> a in s.heap
    requires forall a :: a in heap' && !InBatch(s.phase.expired, a) ==> heap'[a] == s.heap[a]
    requires forall a :: a in heap' && InBatch(s.phase.expired, a) ==>
                           s.heap[a].repeat && heap'[a] == Restart(s.heap[a], s.phase.now)
    ensures DueLater(heap', Idle, s.fired)
  {
    var n := s.phase.next;
    var m := |s.fired|;
    forall k, a | 0 <= k < m && a in heap' && heap'[a].sequence == s.fired[k].timer.sequence
      ensures && s.fired[k].timer.repeat && heap'[a].repeat && heap'[a].delay == s.fired[k].timer.delay
              && s.fired[k].now + s.fired[k].timer.delay <= heap'[a].expiration
    {
      assert s.heap[a].sequence == heap'[a].sequence;
      if k >= m - n {
        var i := k - (m - n);
        var b := s.phase.expired[i].timer;
        assert s.fired[m - n + i] == Firing(s.heap[b], s.phase.now, s.batches, s.phase.made);
        assert InBatch(s.phase.expired, b);
      } else if InBatch(s.phase.expired, a) {
        var i :| 0 <= i < |s.phase.expired| && s.phase.expired[i].timer == a;
        assert s.heap[a].expiration <= s.phase.now;
      }
    }
  }

  lemma ResetKeepsBatch(s: State, clock: nat)
    requires FiringInv(s) && Enabled(s, EndBatch(clock))
    ensures DueLater(Reset(s, clock).heap, Idle, s.fired)
    ensures forall a :: a in Reset(s, clock).heap ==>
              a in s.heap && Reset(s, clock).heap[a].sequence == s.heap[a].sequence
    ensures var s' := Reset(s, clock);
            s'.phase == Idle && s'.fired == s.fired && s'.batches == s.batches && s'.created == s.created
  {
    ResetAllKeepsInv(s, s.phase.expired, s.phase.now);
    ResetAllHeap(s, s.phase.expired, s.phase.now);
    ResetKeepsDueLater(s, Reset(s, clock).heap);
  }

  lemma ResetKeepsFiring(s: State, clock: nat)
    requires FiringInv(s) && Enabled(s, EndBatch(clock))
    ensures FiringInv(Reset(s, clock))
  {
    ResetKeepsInv(s, clock);
    ResetKeepsBatch(s, clock);
  }

  lemma StepKeepsFiring(reading: Reading, s: State, step: Step)
    requires FiringInv(s) && !s.fault
    ensures FiringInv(Exec(reading, s, step))
  {
    StepKeepsInv(reading, s, step);
    if Enabled(s, step) {
      match step {
        case BeginBatch(now) => ExpireKeepsFiring(s, now);
        case FireNext => FireKeepsFiring(s);
        case EndBatch(clock) => ResetKeepsFiring(s, clock);
        case _ =>
          QuietSteps(reading, s, step);
          QuietKeepsFiring(s, Exec(reading, s, step));
      }
    }
  }

  lemma {:induction false} RunKeepsFiring(reading: Reading, steps: seq<Step>)
    ensures FiringInv(Run(reading, INITIAL, steps))
    decreases |steps|
  {
    if steps != [] {
      RunKeepsFiring(reading, steps[..|steps| - 1]);
      var s := Run(reading, INITIAL, steps[..|steps| - 1]);
      if !s.fault {
        StepKeepsFiring(reading, s, steps[|steps| - 1]);
      }
    }
  }

  /** The firing discipline holds in every run, whatever the callbacks do. */
  lemma FiringDiscipline(reading: Reading, steps: seq<Step>)
    ensures Disciplined(Run(reading, INITIAL, steps).fired)
  {
    RunKeepsFiring(reading, steps);
  }

  lemma DueIsUpToNow(ts: set<Entry>, now: int)
    requires forall e :: e in ts ==> e.timer < UINTPTR_MAX
    ensures forall e :: e in Due(ts, now) <==> e in ts && e.when <= now
  {
  }

  /** getExpired takes exactly the entries that are due, in the order of the set, and leaves
      the others. */
  lemma ExpireTakesExactlyDue(reading: Reading, steps: seq<Step>, now: int)
    requires var s := Run(reading, INITIAL, steps); s.phase.Idle? && !s.fault
    ensures var s := Run(reading, INITIAL, steps);
            var s' := Exec(reading, s, BeginBatch(now));
            && s'.phase.Batch? && !s'.fault && s'.phase.next == 0 && s'.phase.now == now
            && s'.armed == (if s.armed.Some? && s.armed.value > now * 1000 then s.armed else None)
            && (forall e :: e in s'.phase.expired <==> e in s.timers && e.when <= now)
            && (forall e :: e in s'.timers <==> e in s.timers && e.when > now)
            && (forall i, j :: 0 <= i < j < |s'.phase.expired| ==> Less(s'.phase.expired[i], s'.phase.expired[j]))
  {
    RunKeepsInv(reading, steps);
    var s := Run(reading, INITIAL, steps);
    ExpireKeepsInv(s, now);
    DueIsUpToNow(s.timers, now);
    SortedIsEnumeration(Due(s.timers, now));
    assert Expire(s, now).timers == s.timers - Due(s.timers, now);
  }

  lemma AfterBatch(s: State, s': State, a: nat)
    requires Inv(s) && Inv(s') && s.phase.Batch? && s'.phase.Idle? && s'.tasks == s.tasks && s'.created == s.created
    requires a in s.heap
    requires forall b :: b in s'.heap ==> b in s.heap && s'.heap[b].sequence == s.heap[b].sequence
    ensures InBatch(s.phase.expired, a) && a in s'.heap ==> Pending(s'.heap, s'.timers, a)
    ensures !InBatch(s.phase.expired, a) && a in s'.heap ==>
              Pending(s'.heap, s'.timers, a) == Pending(s.heap, s.timers, a)
    ensures a !in s'.heap ==> s.heap[a].sequence in s'.freed
  {
    assert !InBatch(BatchOf(s'), a);
    if a !in s'.heap {
      assert !Live(s'.heap, s.heap[a].sequence);
    }
  }

  /** What becomes of a timer at the end of a batch. */
  ghost predicate EndsIn(s: State, s': State, a: nat)
    requires s.phase.Batch? && a in s.heap
  {
    var t := s.heap[a];
    if !InBatch(s.phase.expired, a) then
      a in s'.heap && s'.heap[a] == t && Pending(s'.heap, s'.timers, a) == Pending(s.heap, s.timers, a)
    else if t.repeat && Active(a, t.sequence) !in s.cancelled then
      && a in s'.heap && s'.heap[a] == t.(expiration := s.phase.now + t.delay)
      && Entry(s.phase.now + t.delay, a) in s'.timers && Active(a, t.sequence) in s'.active
    else a !in s'.heap && t.sequence in s'.freed
  }

  /** At the end of a batch each of its timers is pending again under the time one interval
      after the batch, if it repeats and was not cancelled, and is freed otherwise; no timer
      outside the batch is touched. */
  lemma BatchEndsIn(reading: Reading, steps: seq<Step>, clock: nat, a: nat)
    requires var s := Run(reading, INITIAL, steps); Enabled(s, EndBatch(clock)) && a in s.heap
    ensures var s := Run(reading, INITIAL, steps);
            var s' := Exec(reading, s, EndBatch(clock));
            EndsIn(s, s', a)
  {
    RunKeepsInv(reading, steps);
    var s := Run(reading, INITIAL, steps);
    ResetAllHeap(s, s.phase.expired, s.phase.now);
    ResetKeepsInv(s, clock);
    var s' := Reset(s, clock);
    ResetAllKeepsInv(s, s.phase.expired, s.phase.now);
    assert s'.phase.Idle? && s'.tasks == s.tasks && s'.created == s.created;
    AfterBatch(s, s', a);
  }

  // ---------------------------------------------------------------- cancellation

  /** Timer q exists no more, or is a timer of the current batch that reset will free. */
  ghost predicate Doomed(s: State, q: int) {
    && 1 <= q <= s.created
    && (forall a :: a in s.heap && s.heap[a].sequence == q ==>
          InBatch(BatchOf(s), a) && (KeyOf(s.heap, a) in s.cancelled || !s.heap[a].repeat))
  }

  ghost predicate Gone(s: State, q: int) {
    1 <= q <= s.created && forall a :: a in s.heap ==> s.heap[a].sequence != q
  }

  /** The id names a timer as addTimer returned it. */
  ghost predicate Names(s: State, id: Active) {
    id.timer in s.heap && s.heap[id.timer].sequence == id.sequence
  }

  /** In any state a run can reach, processing a cancel request takes hold at once, unless the
      timer is still queued for insertion; then it has no effect on any timer. */
  lemma CancelTakesHoldIffNotQueued(reading: Reading, steps: seq<Step>, id: Active)
    requires !Run(reading, INITIAL, steps).fault && Names(Run(reading, INITIAL, steps), id)
    ensures var s := Run(reading, INITIAL, steps);
            var s' := CancelInLoop(Intended, s, id);
            && (Doomed(s', id.sequence) <==> !Queued(s.tasks, id.timer))
            && (Queued(s.tasks, id.timer) ==> s' == s.(cancelled := s'.cancelled))
  {
    RunKeepsFiring(reading, steps);
    var s := Run(reading, INITIAL, steps);
    var s' := CancelInLoop(Intended, s, id);
    CancelKeepsInv(Intended, s, id, BatchOf(s));
    var a := id.timer;
    if Queued(s.tasks, a) {
      assert !Pending(s.heap, s.timers, a);
      assert id !in s.active;
      assert a in s'.heap && s'.heap[a].sequence == id.sequence;
    } else if id !in s.active {
      assert !Pending(s.heap, s.timers, a);
      assert InBatch(BatchOf(s), a);
    }
  }

  /** In any state a run can reach, a cancel request affects no timer but the one with its
      address and its sequence; in particular a stale id, whose address has been given to a
      new timer, affects none. */
  lemma CancelIsPrecise(reading: Reading, steps: seq<Step>, id: Active, b: nat)
    requires var s := Run(reading, INITIAL, steps); !s.fault && b in s.heap && KeyOf(s.heap, b) != id
    ensures var s := Run(reading, INITIAL, steps);
            var s' := CancelInLoop(Intended, s, id);
            && b in s'.heap && s'.heap[b] == s.heap[b]
            && Pending(s'.heap, s'.timers, b) == Pending(s.heap, s.timers, b)
            && (KeyOf(s.heap, b) in s'.active <==> KeyOf(s.heap, b) in s.active)
            && (KeyOf(s.heap, b) in s'.cancelled <==> KeyOf(s.heap, b) in s.cancelled)
            && s'.tasks == s.tasks && s'.phase == s.phase
  {
    RunKeepsInv(reading, steps);
    var s := Run(reading, INITIAL, steps);
    if id in s.active {
      assert id == KeyOf(s.heap, id.timer);
      assert id.timer != b;
    }
  }

  lemma QuietKeepsDoomed(s: State, s': State, q: int)
    requires Doomed(s, q) && Quiet(s, s')
    ensures Doomed(s', q)
  {
  }

  /** Reset frees the doomed timer. */
  lemma ResetCompletesDoom(s: State, clock: nat, q: int)
    requires FiringInv(s) && Enabled(s, EndBatch(clock)) && Doomed(s, q)
    ensures Gone(Reset(s, clock), q)
  {
    ResetAllKeepsInv(s, s.phase.expired, s.phase.now);
    ResetAllHeap(s, s.phase.expired, s.phase.now);
    forall a | a in Reset(s, clock).heap ensures Reset(s, clock).heap[a].sequence != q {
      assert s.heap[a].sequence == Reset(s, clock).heap[a].sequence;
    }
  }

  lemma StepKeepsDoomed(reading: Reading, s: State, step: Step, q: int)
    requires FiringInv(s) && !s.fault && Doomed(s, q)
    ensures Doomed(Exec(reading, s, step), q)
  {
    if Enabled(s, step) {
      match step {
        case BeginBatch(now) => ExpireKeepsInv(s, now);
        case FireNext =>
        case EndBatch(clock) => ResetCompletesDoom(s, clock, q);
        case _ =>
          QuietSteps(reading, s, step);
          QuietKeepsDoomed(s, Exec(reading, s, step), q);
      }
    }
  }

  /** The log only grows, by runs of timers of the current batch. */
  ghost predicate Logs(s: State, s': State) {
    && s.batches <= s'.batches
    && (s'.batches == s.batches && s.phase.Idle? ==> s'.phase.Idle?)
    && (s'.fired == s.fired ||
        (&& s.phase.Batch? && |s'.fired| == |s.fired| + 1 && s.fired <= s'.fired
         && s'.fired[|s.fired|].batch == s.batches
         && exists a :: a in s.heap && s.heap[a] == s'.fired[|s.fired|].timer))
  }

  lemma StepLogs(reading: Reading, s: State, step: Step)
    requires FiringInv(s) && !s.fault
    ensures Logs(s, Exec(reading, s, step))
  {
    if Enabled(s, step) {
      match step {
        case BeginBatch(now) => ExpireKeepsInv(s, now);
        case FireNext => assert s.phase.expired[s.phase.next].timer in s.heap;
        case EndBatch(clock) => ResetAllKeepsInv(s, s.phase.expired, s.phase.now);
        case _ => QuietSteps(reading, s, step);
      }
    }
  }

  /** The condition under which q can still run: the batch of its cancellation goes on. */
  ghost predicate DoomedSince(s0: State, s: State, q: int) {
    && Doomed(s, q) && s0.batches <= s.batches && s0.fired <= s.fired
    && (s.batches > s0.batches ==> Gone(s, q))
    && (s.batches == s0.batches && s.phase.Batch? ==> s0.phase.Batch?)
    && (forall k :: |s0.fired| <= k < |s.fired| && s.fired[k].timer.sequence == q ==>
          s0.phase.Batch? && s.fired[k].batch == s0.batches)
  }

  lemma DoomedSinceGoesOn(s0: State, s: State, s': State, q: int)
    requires DoomedSince(s0, s, q) && Logs(s, s') && Doomed(s', q)
    requires Gone(s, q) || s.phase.Idle? ==> Gone(s', q)
    requires s'.batches > s.batches ==> s.phase.Idle?
    ensures DoomedSince(s0, s', q)
  {
    if s'.fired != s.fired && s'.fired[|s.fired|].timer.sequence == q {
      assert !Gone(s, q);
    }
  }

  lemma StepKeepsGone(reading: Reading, s: State, step: Step, q: int)
    requires FiringInv(s) && !s.fault && Doomed(s, q)
    ensures Gone(s, q) || s.phase.Idle? ==> Gone(Exec(reading, s, step), q)
  {
    if Enabled(s, step) && (Gone(s, q) || s.phase.Idle?) {
      assert s.phase.Idle? ==> forall a :: !InBatch(BatchOf(s), a);
      assert Gone(s, q);
      match step {
        case BeginBatch(now) =>
        case FireNext =>
        case EndBatch(clock) => ResetCompletesDoom(s, clock, q);
        case _ => QuietSteps(reading, s, step);
      }
    }
  }

  lemma NewBatchFromIdle(reading: Reading, s: State, step: Step)
    requires FiringInv(s) && !s.fault
    ensures Exec(reading, s, step).batches > s.batches ==> s.phase.Idle?
  {
    if Enabled(s, step) {
      match step {
        case BeginBatch(now) =>
        case FireNext =>
        case EndBatch(clock) => ResetAllKeepsInv(s, s.phase.expired, s.phase.now);
        case _ => QuietSteps(reading, s, step);
      }
    }
  }

  lemma StepKeepsDoomedSince(reading: Reading, steps: seq<Step>, s0: State, q: int)
    requires steps != [] && DoomedSince(s0, Run(reading, INITIAL, steps[..|steps| - 1]), q)
    ensures DoomedSince(s0, Run(reading, INITIAL, steps), q)
  {
    RunKeepsFiring(reading, steps[..|steps| - 1]);
    var s := Run(reading, INITIAL, steps[..|steps| - 1]);
    if !s.fault {
      StepKeepsDoomed(reading, s, steps[|steps| - 1], q);
      StepLogs(reading, s, steps[|steps| - 1]);
      StepKeepsGone(reading, s, steps[|steps| - 1], q);
      NewBatchFromIdle(reading, s, steps[|steps| - 1]);
      DoomedSinceGoesOn(s0, s, Run(reading, INITIAL, steps), q);
    }
  }

  /** Cancellation is final: from the point where a cancel request has taken hold, the timer
      runs in no later batch, whatever happens; if no batch was in progress, it never runs. */
  lemma {:induction false} CancelledNeverRunsLater(reading: Reading, steps: seq<Step>, i: nat, q: int)
    requires i <= |steps| && Doomed(Run(reading, INITIAL, steps[..i]), q)
    ensures DoomedSince(Run(reading, INITIAL, steps[..i]), Run(reading, INITIAL, steps), q)
    decreases |steps|
  {
    if i == |steps| {
      assert steps[..i] == steps;
    } else {
      var before := steps[..|steps| - 1];
      assert before[..i] == steps[..i];
      CancelledNeverRunsLater(reading, before, i, q);
      StepKeepsDoomedSince(reading, steps, Run(reading, INITIAL, steps[..i]), q);
    }
  }
}
