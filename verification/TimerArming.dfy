/** Whether the timer descriptor is armed early enough for every pending timer. */
module TimerArming {
  import opened Prelude
  import opened Timestamps
  import opened TimerModel
  import opened TimerInvariants

  ghost predicate ArmedInTime(s: State) {
    s.timers != {} ==> s.armed.Some? && s.armed.value <= First(s.timers).when * 1000
  }

  /** If the step calls resetTimerfd, the clock read there has not reached the deadline. */
  ghost predicate Punctual(s: State, step: Step) {
    Enabled(s, step) ==>
    match step
    case RunTask(clock) =>
      s.tasks[0].InsertTask? && s.tasks[0].timer in s.heap ==>
        var when := s.heap[s.tasks[0].timer].expiration; EarliestChanged(s, when) ==> clock < when
    case Add(_, when, _, _, clock) => EarliestChanged(s, when) ==> clock < when
    case EndBatch(clock) =>
      var r := ResetAll(s, s.phase.expired, s.phase.now); r.timers == {} || clock < First(r.timers).when
    case _ => true
  }

  ghost predicate PunctualAt(reading: Reading, steps: seq<Step>, i: nat)
    requires i < |steps|
  {
    Punctual(Run(reading, INITIAL, steps[..i]), steps[i])
  }

  /** After a timer is added the descriptor is armed in time exactly if another timer is
      earlier, or the clock read by resetTimerfd has not reached the new expiration, or the
      rejected call left an earlier deadline standing.  It is armed for exactly the new
      expiration if that is the earliest and in the future. */
  lemma ArmedAfterAddIff(s: State, a: nat, clock: nat)
    requires ArmedInTime(s) && a in s.heap && !AddTimerInLoop(s, a, clock).fault
    ensures var s' := AddTimerInLoop(s, a, clock);
            var when := s.heap[a].expiration;
            && (ArmedInTime(s') <==>
                  || (exists e :: e in s.timers && e.when <= when)
                  || clock < when
                  || (clock > when && s.armed.Some? && s.armed.value <= when * 1000))
            && ((exists e :: e in s.timers && e.when <= when) ==> s'.armed == s.armed)
            && ((forall e :: e in s.timers ==> when < e.when) && clock < when ==> s'.armed == Some(when * 1000))
  {
    var when := s.heap[a].expiration;
    ArmMeaning(s.armed, clock, when);
    var s' := AddTimerInLoop(s, a, clock);
    assert s'.timers == s.timers + {Entry(when, a)};
    var m := First(s'.timers);
    assert Entry(when, a) in s'.timers;
    assert m == Entry(when, a) || m in s.timers;
    if s.timers != {} {
      assert First(s.timers) in s'.timers;
    }
    assert EarliestChanged(s, when) <==> forall e :: e in s.timers ==> when < e.when;
  }

  lemma AddKeepsArmed(s: State, a: nat, clock: nat)
    requires ArmedInTime(s) && a in s.heap && !s.fault
    requires var when := s.heap[a].expiration; EarliestChanged(s, when) ==> clock < when
    ensures ArmedInTime(AddTimerInLoop(s, a, clock))
  {
    var s' := AddTimerInLoop(s, a, clock);
    if s'.fault {
      assert s'.timers == s.timers && s'.armed == s.armed;
    } else {
      ArmedAfterAddIff(s, a, clock);
    }
  }

  /** A timer that has been reached is pending and nothing is armed. */
  ghost predicate Lost(s: State, e: Entry) {
    s.phase.Idle? && e in s.timers && s.armed == None
  }

  /** The step does not begin a batch, since the descriptor does not fire; it does not cancel
      the timer; and its clock reads no earlier than the expiration. */
  ghost predicate LeavesLost(s: State, step: Step, e: Entry) {
    && !step.BeginBatch?
    && (e.timer in s.heap ==> Cancels(s, step) != Some(KeyOf(s.heap, e.timer)))
    && (step.Add? || step.RunTask? ==> step.clock >= e.when)
  }

  /** A timer whose expiration has been reached when it is added to an empty queue is lost. */
  lemma LateAddIsNotArmed()
    ensures var s := Run(Intended, INITIAL, [Add(1, 10, false, 0, 10)]);
            s.phase.Idle? && !s.fault && s.timers == {Entry(10, 1)} && Lost(s, Entry(10, 1)) && !ArmedInTime(s)
  {
    FoldTwo(Stepper(Intended), INITIAL, Add(1, 10, false, 0, 10), BeginBatch(0));
    ArmMeaning(None, 10, 10);
    assert First({Entry(10, 1)}) == Entry(10, 1);
  }

  lemma AddKeepsLost(s: State, a: nat, clock: nat, e: Entry)
    requires Lost(s, e) && clock >= e.when && a in s.heap
    ensures Lost(AddTimerInLoop(s, a, clock), e)
  {
    var when := s.heap[a].expiration;
    ArmMeaning(s.armed, clock, when);
    assert First(s.timers) == e || Less(First(s.timers), e);
  }

  lemma CancelKeepsLost(reading: Reading, s: State, id: Active, e: Entry)
    requires Lost(s, e) && IndexesAgree(s.heap, s.timers, s.active) && id != KeyOf(s.heap, e.timer)
    ensures Lost(CancelInLoop(reading, s, id), e)
  {
  }

  lemma StepKeepsLost(reading: Reading, s: State, step: Step, e: Entry)
    requires Lost(s, e) && LeavesLost(s, step, e) && Inv(s)
    ensures Lost(Exec(reading, s, step), e)
  {
    if Enabled(s, step) {
      match step {
        case Add(a, when, repeat, delay, clock) => AddKeepsLost(NewTimer(s, a, when, repeat, delay), a, clock, e);
        case Cancel(id) => CancelKeepsLost(reading, s, id, e);
        case RunTask(clock) =>
          var r := s.(tasks := s.tasks[1..]);
          match s.tasks[0] {
            case InsertTask(a) =>
              assert Queued(s.tasks, a);
              AddKeepsLost(r, a, clock, e);
            case CancelTask(id) => CancelKeepsLost(reading, r, id, e);
          }
        case _ =>
      }
    }
  }

  ghost predicate LeavesLostAt(reading: Reading, steps: seq<Step>, more: seq<Step>, e: Entry, i: nat)
    requires i < |more|
  {
    LeavesLost(Run(reading, Run(reading, INITIAL, steps), more[..i]), more[i], e)
  }

  lemma LeavesLostPrefix(reading: Reading, steps: seq<Step>, more: seq<Step>, e: Entry)
    requires more != [] && forall i :: 0 <= i < |more| ==> LeavesLostAt(reading, steps, more, e, i)
    ensures var before := more[..|more| - 1];
            forall i :: 0 <= i < |before| ==> LeavesLostAt(reading, steps, before, e, i)
    ensures LeavesLost(Run(reading, Run(reading, INITIAL, steps), more[..|more| - 1]), more[|more| - 1], e)
  {
    var n := |more| - 1;
    forall i | 0 <= i < n ensures LeavesLostAt(reading, steps, more[..n], e, i) {
      assert more[..n][..i] == more[..i];
      assert LeavesLostAt(reading, steps, more, e, i);
    }
    assert LeavesLostAt(reading, steps, more, e, n);
  }

  /** A timer that is pending with nothing armed, in any reachable state, stays so: however the
      run goes on, as long as the clock does not run back and the timer is not cancelled, no
      step arms the descriptor, so that no batch begins and the timer does not run. */
  lemma {:induction false} LostTimerStaysLost(reading: Reading, steps: seq<Step>, more: seq<Step>, e: Entry)
    requires Lost(Run(reading, INITIAL, steps), e)
    requires forall i :: 0 <= i < |more| ==> LeavesLostAt(reading, steps, more, e, i)
    ensures Lost(Run(reading, Run(reading, INITIAL, steps), more), e)
    decreases |more|
  {
    if more != [] {
      var before, step := more[..|more| - 1], more[|more| - 1];
      LeavesLostPrefix(reading, steps, more, e);
      LostTimerStaysLost(reading, steps, before, e);
      FoldAppend(Stepper(reading), INITIAL, steps, before);
      RunKeepsInv(reading, steps + before);
      StepKeepsLost(reading, Run(reading, Run(reading, INITIAL, steps), before), step, e);
    }
  }

  lemma CancelKeepsArmed(reading: Reading, s: State, id: Active)
    requires ArmedInTime(s)
    ensures ArmedInTime(CancelInLoop(reading, s, id))
  {
    var s' := CancelInLoop(reading, s, id);
    assert s'.timers <= s.timers;
    if s'.timers != {} {
      assert First(s'.timers) in s.timers;
    }
  }

  /** At the end of a batch the descriptor is armed in time exactly if no timer is pending, or
      the clock has not reached the earliest expiration, or a callback left an early deadline
      standing that the rejected call does not touch.  In the second case it is armed for
      exactly that expiration. */
  lemma ArmedAfterBatchIff(s: State, clock: nat)
    requires Inv(s) && Enabled(s, EndBatch(clock))
    ensures var s' := Reset(s, clock);
            ArmedInTime(s') <==>
              || s'.timers == {}
              || (var when := First(s'.timers).when;
                  || clock < when
                  || (s.armed.Some? && s.armed.value <= when * 1000 && !(clock == when && Valid(when))))
    ensures var s' := Reset(s, clock);
            s'.timers != {} && clock < First(s'.timers).when ==> s'.armed == Some(First(s'.timers).when * 1000)
  {
    ResetAllKeepsInv(s, s.phase.expired, s.phase.now);
    var s' := Reset(s, clock);
    if s'.timers != {} {
      ArmIsTimelyIff(s.armed, clock, First(s'.timers).when);
      ArmMeaning(s.armed, clock, First(s'.timers).when);
    }
  }

  lemma StepKeepsArmed(reading: Reading, s: State, step: Step)
    requires Inv(s) && !s.fault && Punctual(s, step)
    requires s.phase.Idle? ==> ArmedInTime(s)
    ensures var s' := Exec(reading, s, step); s'.phase.Idle? ==> ArmedInTime(s')
  {
    if Enabled(s, step) {
      match step {
        case Add(a, when, repeat, delay, clock) =>
          if s.phase.Idle? {
            AddKeepsArmed(NewTimer(s, a, when, repeat, delay), a, clock);
          }
        case Cancel(id) =>
          if s.phase.Idle? {
            CancelKeepsArmed(reading, s, id);
          }
        case RunTask(clock) =>
          var r := s.(tasks := s.tasks[1..]);
          match s.tasks[0] {
            case InsertTask(a) =>
              assert Queued(s.tasks, a);
              AddKeepsArmed(r, a, clock);
            case CancelTask(id) => CancelKeepsArmed(reading, r, id);
          }
        case EndBatch(clock) => ArmedAfterBatchIff(s, clock);
        case BeginBatch(now) => ExpireKeepsInv(s, now);
        case _ =>
      }
    }
  }

  /** Whenever handleRead is not in progress, a pending timer implies that the descriptor is
      armed no later than the earliest expiration, although cancelling never re-arms; in every
      run where resetTimerfd is never called for a deadline that has been reached. */
  lemma {:induction false} PunctualRunIsArmed(reading: Reading, steps: seq<Step>)
    requires forall i :: 0 <= i < |steps| ==> PunctualAt(reading, steps, i)
    ensures var s := Run(reading, INITIAL, steps); s.phase.Idle? && !s.fault ==> ArmedInTime(s)
    decreases |steps|
  {
    if steps != [] {
      var n := |steps| - 1;
      var before := steps[..n];
      forall i | 0 <= i < n ensures PunctualAt(reading, before, i) {
        assert before[..i] == steps[..i];
        assert PunctualAt(reading, steps, i);
      }
      PunctualRunIsArmed(reading, before);
      RunKeepsInv(reading, before);
      assert PunctualAt(reading, steps, n);
      if !Run(reading, INITIAL, before).fault {
        StepKeepsArmed(reading, Run(reading, INITIAL, before), steps[n]);
      }
    }
  }

  /** A timer of 5 microseconds, due at 10, runs at 10. */
  function OneRun(): seq<Step> {
    [Add(1, 10, true, 5, 0), BeginBatch(10), FireNext]
  }

  /** The states of that run. */
  lemma OneRunAdded(reading: Reading)
    ensures Exec(reading, INITIAL, OneRun()[0])
            == INITIAL.(heap := map[1 := Timer(10, true, 5, 1)], timers := {Entry(10, 1)}, active := {Active(1, 1)},
                        created := 1, armed := Some(10000))
  {
    ArmMeaning(None, 0, 10);
  }

  lemma OneRunTaken(reading: Reading, s: State)
    requires s.heap == map[1 := Timer(10, true, 5, 1)] && s.timers == {Entry(10, 1)} && s.active == {Active(1, 1)}
    requires s.phase.Idle? && s.created == 1 && s.tasks == [] && !s.fault && s.armed == Some(10000)
    ensures var s' := Exec(reading, s, OneRun()[1]);
            && s'.heap == s.heap && s'.timers == {} && s'.active == {} && s'.cancelled == {} && !s'.fault
            && s'.phase == Batch([Entry(10, 1)], 0, 10, 1) && s'.armed == None && s'.tasks == []
  {
    assert |s.timers| == 1 && |s.active| == 1;
    assert Due(s.timers, 10) == {Entry(10, 1)};
    assert First({Entry(10, 1)}) == Entry(10, 1);
    assert {Entry(10, 1)} - {Entry(10, 1)} == {};
    assert Sorted({Entry(10, 1)}) == [Entry(10, 1)];
    assert KeyOf(s.heap, 1) == Active(1, 1);
  }

  lemma OneRunFired(reading: Reading, s: State)
    requires s.phase == Batch([Entry(10, 1)], 0, 10, 1) && 1 in s.heap && !s.fault
    ensures Exec(reading, s, OneRun()[2]) ==
            s.(phase := Batch([Entry(10, 1)], 1, 10, 1), fired := s.fired + [Firing(s.heap[1], 10, s.batches, 1)])
  {
  }

  lemma OneRunState(reading: Reading)
    ensures var s := Run(reading, INITIAL, OneRun());
            && s.heap == map[1 := Timer(10, true, 5, 1)] && s.timers == {} && s.active == {} && s.cancelled == {}
            && !s.fault && s.phase == Batch([Entry(10, 1)], 1, 10, 1) && s.armed == None && s.tasks == []
  {
    OneRunAdded(reading);
    var s1 := Exec(reading, INITIAL, OneRun()[0]);
    OneRunTaken(reading, s1);
    var s2 := Exec(reading, s1, OneRun()[1]);
    OneRunFired(reading, s2);
    RunNext(reading, INITIAL, OneRun(), 0);
    RunNext(reading, INITIAL, OneRun(), 1);
    RunNext(reading, INITIAL, OneRun(), 2);
    assert OneRun()[..3] == OneRun();
  }

  lemma LateResetEnd(s: State)
    requires s.heap == map[1 := Timer(10, true, 5, 1)] && s.timers == {} && s.active == {} && s.cancelled == {}
    requires !s.fault && s.phase == Batch([Entry(10, 1)], 1, 10, 1) && s.armed == None
    ensures var s' := Exec(Intended, s, EndBatch(100));
            s'.phase.Idle? && !s'.fault && s'.timers == {Entry(15, 1)} && s'.armed == None
  {
    assert [Entry(10, 1)][1..] == [];
    var r := ResetOne(s, 1, 10);
    assert ResetAll(s, [Entry(10, 1)], 10) == ResetAll(r, [], 10) == r;
    assert r.timers == {Entry(15, 1)} && !r.fault;
    assert First(r.timers) == Entry(15, 1);
    ArmMeaning(None, 100, 15);
  }

  /** Without the condition it fails: the timer is due again at 15, but reset reads the clock at
      100.  The timer stays pending and the descriptor is not armed. */
  lemma LateResetLosesTimers()
    ensures var s := Run(Intended, INITIAL, OneRun() + [EndBatch(100)]);
            s.phase.Idle? && !s.fault && s.timers == {Entry(15, 1)} && s.armed == None && !ArmedInTime(s)
  {
    OneRunState(Intended);
    LateResetEnd(Run(Intended, INITIAL, OneRun()));
    FoldSnoc(Stepper(Intended), INITIAL, OneRun(), EndBatch(100));
  }
}
