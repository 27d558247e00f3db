/** The clock arithmetic that arms the timer descriptor (base/Timestamp.h and the unnamed
    namespace of net/TimerQueue.cc).  Times are microseconds, as in Timestamp. */
module Timestamps {
  import opened Prelude

  const MICROS_PER_SECOND: int := 1_000_000
  const NANOS_PER_SECOND: int := 1_000_000_000

  datatype Timespec = Timespec(sec: int, nsec: int)

  /** The quotient of the C++ operator /, which truncates toward zero. */
  function TruncDiv(a: int, b: int): int
    requires b > 0
  {
    if a >= 0 then a / b else -((-a) / b)
  }

  /** The remainder of the C++ operator %, which takes the sign of the dividend. */
  function TruncMod(a: int, b: int): int
    requires b > 0
  {
    a - b * TruncDiv(a, b)
  }

  predicate Valid(when: int) {
    when > 0
  }

  /** howLongToExpiration: the delay from the clock reading to `when`. */
  function HowLong(clock: int, when: int): Timespec {
    var micros := when - clock;
    Timespec(TruncDiv(micros, MICROS_PER_SECOND), TruncMod(micros, MICROS_PER_SECOND) * 1000)
  }

  /** What timerfd_settime accepts. */
  predicate Acceptable(ts: Timespec) {
    ts.sec >= 0 && 0 <= ts.nsec < NANOS_PER_SECOND
  }

  /** The deadline of the timer descriptor, in nanoseconds, after timerfd_settime was
      called at `clock`: a rejected value changes nothing, a zero value disarms. */
  function SetTime(armed: Option<int>, clock: int, ts: Timespec): Option<int> {
    if !Acceptable(ts) then armed
    else if ts == Timespec(0, 0) then None
    else Some(clock * 1000 + ts.sec * NANOS_PER_SECOND + ts.nsec)
  }

  /** resetTimerfd. */
  function Arm(armed: Option<int>, clock: int, when: int): Option<int> {
    SetTime(armed, clock, HowLong(clock, when))
  }

  /** What reading the descriptor at `clock` leaves: a deadline that has been reached is used up,
      a later one stands. */
  function Unfired(armed: Option<int>, clock: int): Option<int> {
    if armed.Some? && armed.value > clock * 1000 then armed else None
  }

  /** The truncating split of the delay is accepted exactly when the deadline has not
      passed, and then seconds and nanoseconds add up to the delay again. */
  lemma SplitReconstructsDelay(clock: int, when: int)
    ensures Acceptable(HowLong(clock, when)) <==> clock <= when
    ensures HowLong(clock, when).sec * NANOS_PER_SECOND + HowLong(clock, when).nsec == (when - clock) * 1000
  {
    var micros := when - clock;
    var q := TruncDiv(micros, MICROS_PER_SECOND);
    if micros < 0 {
      var p := -micros;
      assert p == MICROS_PER_SECOND * (p / MICROS_PER_SECOND) + p % MICROS_PER_SECOND;
      assert q == -(p / MICROS_PER_SECOND);
    }
  }

  /** resetTimerfd has no clamp.  It arms the descriptor for `when` in the future, disarms
      it for `when` equal to the clock, and has no effect for a deadline already passed. */
  lemma ArmMeaning(armed: Option<int>, clock: int, when: int)
    ensures Arm(armed, clock, when) ==
            if clock < when then Some(when * 1000) else if clock == when then None else armed
  {
    SplitReconstructsDelay(clock, when);
  }

  /** The descriptor will fire no later than `when` exactly if `when` lies in the future, or
      if it has passed and an earlier deadline was left standing. */
  lemma ArmIsTimelyIff(armed: Option<int>, clock: int, when: int)
    ensures var a := Arm(armed, clock, when);
            (a.Some? && a.value <= when * 1000) <==>
            (clock < when || (clock > when && armed.Some? && armed.value <= when * 1000))
  {
    ArmMeaning(armed, clock, when);
  }
}
