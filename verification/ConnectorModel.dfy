/** net/Connector.cc as a state machine on values: who owns each socket, when the channel is
    free, and how long retries are delayed.  The class in Connector.dfy is proved against it. */
module ConnectorModel {
  import opened Prelude
  import opened Registry

  const INIT_RETRY_DELAY_MS: nat := 500
  const MAX_RETRY_DELAY_MS: nat := 30 * 1000

  /** The outcomes of connect(2) that startInLoop tells apart. */
  datatype Errno =
    | OK | EINPROGRESS | EINTR | EISCONN
    | EAGAIN | EADDRINUSE | EADDRNOTAVAIL | ECONNREFUSED | ENETUNREACH
    | EACCES | EPERM | EAFNOSUPPORT | EALREADY | EBADF | EFAULT | ENOTSOCK
    | Unexpected

  datatype Verdict = Proceed | TryAgain | GiveUp

  function Judge(errno: Errno): Verdict {
    match errno
    case OK => Proceed
    case EINPROGRESS => Proceed
    case EINTR => Proceed
    case EISCONN => Proceed
    case EAGAIN => TryAgain
    case EADDRINUSE => TryAgain
    case EADDRNOTAVAIL => TryAgain
    case ECONNREFUSED => TryAgain
    case ENETUNREACH => TryAgain
    case _ => GiveUp
  }

  datatype Status = Disconnected | Connected | Connecting

  /** Sockets are numbered in the order of their creation.  `registered`: the poller knows the
      channel.  `resets`: calls of resetChannel waiting in the loop's queue.  `ripe` and
      `unripe`: retry timers that can fire, and those added in the current loop iteration.
      `delays`: the delays of the retries since the last start.  `fault`: an assertion of the
      source failed, and the process stopped. */
  datatype State = State(
    status: Status,
    channel: Option<nat>,
    registered: bool,
    resets: nat,
    retryDelayMs: nat,
    ripe: nat,
    unripe: nat,
    started: bool,
    created: nat,
    closed: seq<nat>,
    handed: seq<nat>,
    delays: seq<nat>,
    fault: bool)

  const INITIAL: State :=
    State(Disconnected, None, false, 0, INIT_RETRY_DELAY_MS, 0, 0, false, 0, [], [], [], false)

  function Min(a: nat, b: nat): nat {
    if a < b then a else b
  }

  function Retry(s: State, socket: nat): State {
    s.(closed := s.closed + [socket],
       status := Disconnected,
       unripe := s.unripe + 1,
       delays := s.delays + [s.retryDelayMs],
       retryDelayMs := Min(s.retryDelayMs * 2, MAX_RETRY_DELAY_MS))
  }

  function StartConnecting(s: State, socket: nat): State {
    if s.channel.Some? then s.(fault := true)
    else s.(status := Connecting, channel := Some(socket), registered := true)
  }

  /** startInLoop, once connect has been judged. */
  function Attempt(s: State, verdict: Verdict): State {
    if s.status != Disconnected then s.(fault := true)
    else
      var socket := s.created + 1;
      var o := s.(created := socket);
      match verdict
      case Proceed => StartConnecting(o, socket)
      case TryAgain => Retry(o, socket)
      case GiveUp => o.(closed := o.closed + [socket])
  }

  function StartInLoop(s: State, errno: Errno): State {
    Attempt(s, Judge(errno))
  }

  function RemoveAndResetChannel(s: State): State {
    s.(registered := false, resets := s.resets + 1)
  }

  function HandleWrite(s: State, selfConnect: bool): State {
    if s.status == Connecting then
      if s.channel.None? then s.(fault := true)
      else
        var r := RemoveAndResetChannel(s);
        if selfConnect then Retry(r, s.channel.value)
        else r.(status := Connected, handed := r.handed + [s.channel.value])
    else if s.status == Disconnected then s
    else s.(fault := true)
  }

  function HandleError(s: State): State {
    if s.status != Connecting || s.channel.None? then s.(fault := true)
    else Retry(RemoveAndResetChannel(s), s.channel.value)
  }

  /** Channel::handleEvent for a channel with an error and a write callback only: the error
      callback comes first. */
  function HandleEvent(s: State, revents: Flags, selfConnect: bool): State {
    var e := if POLLERR in revents || POLLNVAL in revents then HandleError(s) else s;
    if POLLOUT in revents && !e.fault then HandleWrite(e, selfConnect) else e
  }

  /** A callback of the connector's channel; those for closing and reading are not set. */
  function Handle(s: State, callback: Callback, selfConnect: bool): State {
    if s.fault then s
    else match callback
         case OnError => HandleError(s)
         case OnWrite => HandleWrite(s, selfConnect)
         case _ => s
  }

  function Handler(selfConnect: bool): (State, Callback) -> State {
    (s, callback) => Handle(s, callback, selfConnect)
  }

  /** HandleEvent is the channel's dispatch. */
  lemma HandleEventIsDispatch(s: State, revents: Flags, selfConnect: bool)
    requires !s.fault
    ensures HandleEvent(s, revents, selfConnect) == Fold(Handler(selfConnect), s, Dispatch(revents))
  {
    var f := Handler(selfConnect);
    DispatchInOrder(f, s, revents);
    var e := if POLLERR in revents || POLLNVAL in revents then f(s, OnError) else s;
    assert f(s, OnClose) == s && f(e, OnRead) == e;
    assert f(s, OnError) == HandleError(s);
    assert f(e, OnWrite) == if e.fault then e else HandleWrite(e, selfConnect);
  }

  /** StartTimer: a retry timer from an earlier iteration fires.  HastyTimer: one fires in the
      iteration that added it.  EndIteration: the loop runs its queued functors. */
  datatype Step =
    | Start(errno: Errno)
    | Restart(errno: Errno)
    | StartTimer(errno: Errno)
    | HastyTimer(errno: Errno)
    | ChannelEvent(revents: Flags, selfConnect: bool)
    | EndIteration

  /** Either one start or a restart comes first; a restart can come at any time. */
  predicate Enabled(s: State, step: Step) {
    !s.fault &&
    match step
    case Start(_) => !s.started
    case Restart(_) => true
    case StartTimer(_) => s.ripe > 0
    case HastyTimer(_) => s.unripe > 0
    case ChannelEvent(_, _) => s.registered
    case EndIteration => true
  }

  /** restart, before it calls startInLoop. */
  function Restarted(s: State): State {
    s.(status := Disconnected, retryDelayMs := INIT_RETRY_DELAY_MS, delays := [], started := true)
  }

  /** The step calls startInLoop. */
  predicate Starts(step: Step) {
    step.Start? || step.Restart? || step.StartTimer? || step.HastyTimer?
  }

  /** The state when it does. */
  function Starting(s: State, step: Step): State
    requires Starts(step) && Enabled(s, step)
  {
    match step
    case Start(_) => s.(started := true)
    case Restart(_) => Restarted(s)
    case StartTimer(_) => s.(ripe := s.ripe - 1)
    case HastyTimer(_) => s.(unripe := s.unripe - 1)
  }

  function EndOfIteration(s: State): State {
    s.(channel := if s.resets > 0 then None else s.channel, resets := 0, ripe := s.ripe + s.unripe, unripe := 0)
  }

  function Exec(s: State, step: Step): State {
    if !Enabled(s, step) then s
    else if Starts(step) then StartInLoop(Starting(s, step), step.errno)
    else if step.ChannelEvent? then HandleEvent(s, step.revents, step.selfConnect)
    else EndOfIteration(s)
  }

  function Run(steps: seq<Step>): State {
    Fold(Exec, INITIAL, steps)
  }

  // ---------------------------------------------------------------- what an attempt does

  /** An attempt opens one socket.  If the connect succeeded, is in progress, was interrupted or
      is done already, the connector waits for the socket; if the address or the network is not
      available now, it closes the socket and retries; for any other error it closes it and
      gives up. */
  lemma AttemptByErrno(s: State, errno: Errno)
    requires s.status == Disconnected && s.channel == None && !s.fault
    ensures var s' := StartInLoop(s, errno);
            var socket := s.created + 1;
            && s'.created == socket && !s'.fault && s'.handed == s.handed && s'.ripe == s.ripe
            && if errno in {OK, EINPROGRESS, EINTR, EISCONN} then
                 && s'.status == Connecting && s'.channel == Some(socket) && s'.registered
                 && s'.closed == s.closed && s'.unripe == s.unripe && s'.delays == s.delays
               else
                 && s'.status == Disconnected && s'.channel == None && s'.registered == s.registered
                 && s'.closed == s.closed + [socket]
                 && if errno in {EAGAIN, EADDRINUSE, EADDRNOTAVAIL, ECONNREFUSED, ENETUNREACH} then
                      s'.unripe == s.unripe + 1 && s'.delays == s.delays + [s.retryDelayMs]
                    else s'.unripe == s.unripe && s'.delays == s.delays
  {
  }

  /** start, restart and a retry timer that fires each make one attempt; restart forgets the
      retries before it, and begins again with half a second. */
  lemma EachStartAttempts(s: State, errno: Errno)
    requires !s.fault
    ensures !s.started ==> Exec(s, Start(errno)) == StartInLoop(s.(started := true), errno)
    ensures s.ripe > 0 ==> Exec(s, StartTimer(errno)) == StartInLoop(s.(ripe := s.ripe - 1), errno)
    ensures s.unripe > 0 ==> Exec(s, HastyTimer(errno)) == StartInLoop(s.(unripe := s.unripe - 1), errno)
    ensures Exec(s, Restart(errno)) ==
            StartInLoop(s.(status := Disconnected, retryDelayMs := 500, delays := [], started := true), errno)
  {
  }

  /** The assertions: an attempt is made only while disconnected, and proceeds only if the channel
      is empty; an error is met only while the connector waits for a socket, and a writable
      channel never once it is connected. */
  lemma WhatIsAsserted(s: State, errno: Errno, selfConnect: bool)
    requires !s.fault
    ensures StartInLoop(s, errno).fault <==>
              s.status != Disconnected || (s.channel.Some? && errno in {OK, EINPROGRESS, EINTR, EISCONN})
    ensures s.channel.Some? ==>
              && (HandleError(s).fault <==> s.status != Connecting)
              && (HandleWrite(s, selfConnect).fault <==> s.status == Connected)
              && (s.status == Disconnected ==> HandleWrite(s, selfConnect) == s)
  {
  }

  // ---------------------------------------------------------------- invariants

  /** The socket that the connector is waiting for. */
  function InFlight(s: State): Option<nat> {
    if s.status == Connecting then s.channel else None
  }

  ghost predicate Control(s: State) {
    && s.resets <= 1
    && (s.status == Connecting ==> s.channel.Some? && s.registered && s.resets == 0)
    && (s.status != Connecting ==> !s.registered && (s.channel.Some? <==> s.resets == 1))
    && s.ripe + s.unripe <= 1
    && (s.ripe + s.unripe == 1 ==> s.status == Disconnected && s.started)
    && (!s.started ==> s.status == Disconnected && s.created == 0)
    && (s.resets == 1 ==> s.ripe == 0)
  }

  /** Each of the sockets 1 to n is in flight, closed once, or handed over once. */
  ghost predicate Partition(n: nat, inFlight: Option<nat>, closed: seq<nat>, handed: seq<nat>) {
    && (forall k :: 1 <= k <= n ==> inFlight == Some(k) || k in closed || k in handed)
    && (forall k :: k in closed ==> 1 <= k <= n && k !in handed && inFlight != Some(k))
    && (forall k :: k in handed ==> 1 <= k <= n && inFlight != Some(k))
    && (inFlight.Some? ==> 1 <= inFlight.value <= n)
    && (forall i, j :: 0 <= i < j < |closed| ==> closed[i] != closed[j])
    && (forall i, j :: 0 <= i < j < |handed| ==> handed[i] != handed[j])
  }

  ghost predicate Sockets(s: State) {
    Partition(s.created, InFlight(s), s.closed, s.handed)
  }

  lemma OpenSocket(n: nat, closed: seq<nat>, handed: seq<nat>)
    requires Partition(n, None, closed, handed)
    ensures Partition(n + 1, Some(n + 1), closed, handed)
  {
  }

  lemma CloseSocket(n: nat, k: nat, closed: seq<nat>, handed: seq<nat>)
    requires Partition(n, Some(k), closed, handed)
    ensures Partition(n, None, closed + [k], handed)
  {
    assert forall i :: 0 <= i < |closed| ==> closed[i] in closed;
  }

  lemma HandSocket(n: nat, k: nat, closed: seq<nat>, handed: seq<nat>)
    requires Partition(n, Some(k), closed, handed)
    ensures Partition(n, None, closed, handed + [k])
  {
    assert forall i :: 0 <= i < |handed| ==> handed[i] in handed;
  }

  function Pow2(n: nat): nat {
    if n == 0 then 1 else 2 * Pow2(n - 1)
  }

  /** The delay before the n-th retry, counted from 0. */
  function Backoff(n: nat): nat {
    Min(INIT_RETRY_DELAY_MS * Pow2(n), MAX_RETRY_DELAY_MS)
  }

  ghost predicate Delays(s: State) {
    && s.retryDelayMs == Backoff(|s.delays|)
    && (forall i :: 0 <= i < |s.delays| ==> s.delays[i] == Backoff(i))
  }

  /** The step starts to connect while the channel of the last attempt waits to be reset. */
  ghost predicate Hasty(s: State, step: Step) {
    Enabled(s, step) && s.resets > 0 && Starts(step) && Judge(step.errno) == Proceed
  }

  /** A restart that comes while the connector waits for a socket, or begins an attempt or a
      retry while another retry is pending. */
  ghost predicate Untimely(s: State, step: Step) {
    && step.Restart?
    && (s.status == Connecting || (s.ripe + s.unripe > 0 && Judge(step.errno) != GiveUp))
  }

  lemma StepKeepsControl(s: State, step: Step)
    requires Control(s) && !s.fault && !Untimely(s, step)
    ensures var s' := Exec(s, step); (s'.fault <==> Hasty(s, step)) && (!s'.fault ==> Control(s'))
  {
  }

  lemma OpenAndClose(n: nat, closed: seq<nat>, handed: seq<nat>)
    requires Partition(n, None, closed, handed)
    ensures Partition(n + 1, Some(n + 1), closed, handed)
    ensures Partition(n + 1, None, closed + [n + 1], handed)
  {
    OpenSocket(n, closed, handed);
    CloseSocket(n + 1, n + 1, closed, handed);
  }

  lemma AttemptKeepsSockets(s: State, verdict: Verdict)
    requires Sockets(s) && s.status == Disconnected
    ensures var s' := Attempt(s, verdict); !s'.fault ==> Sockets(s')
  {
    OpenAndClose(s.created, s.closed, s.handed);
  }

  lemma EventKeepsSockets(s: State, revents: Flags, selfConnect: bool)
    requires Sockets(s) && s.status == Connecting && s.channel.Some? && !s.fault
    ensures Sockets(HandleEvent(s, revents, selfConnect))
  {
    CloseSocket(s.created, s.channel.value, s.closed, s.handed);
    HandSocket(s.created, s.channel.value, s.closed, s.handed);
  }

  /** Ticking off a timer, or noting a start, moves no socket. */
  lemma SameSockets(s: State, t: State)
    requires Sockets(s) && InFlight(t) == InFlight(s)
    requires t.created == s.created && t.closed == s.closed && t.handed == s.handed
    ensures Sockets(t)
  {
  }

  lemma StartStepKeepsSockets(s: State, t: State, errno: Errno)
    requires Sockets(s) && s.status != Connecting && t.status == Disconnected
    requires t.created == s.created && t.closed == s.closed && t.handed == s.handed
    ensures var s' := StartInLoop(t, errno); !s'.fault ==> Sockets(s')
  {
    SameSockets(s, t);
    AttemptKeepsSockets(t, Judge(errno));
  }

  lemma StepKeepsSockets(s: State, step: Step)
    requires Control(s) && Sockets(s) && !s.fault && !Untimely(s, step)
    ensures var s' := Exec(s, step); !s'.fault ==> Sockets(s')
  {
    if Enabled(s, step) {
      if Starts(step) {
        StartStepKeepsSockets(s, Starting(s, step), step.errno);
      } else if step.ChannelEvent? {
        EventKeepsSockets(s, step.revents, step.selfConnect);
      } else {
        SameSockets(s, EndOfIteration(s));
      }
    }
  }

  lemma BackoffDoubles(n: nat)
    ensures Backoff(0) == INIT_RETRY_DELAY_MS && Backoff(n + 1) == Min(Backoff(n) * 2, MAX_RETRY_DELAY_MS)
  {
  }

  lemma RetryKeepsDelays(s: State, socket: nat)
    requires Delays(s)
    ensures Delays(Retry(s, socket))
  {
    BackoffDoubles(|s.delays|);
  }

  lemma StartKeepsDelays(s: State, errno: Errno)
    requires Delays(s)
    ensures Delays(StartInLoop(s, errno))
  {
    if s.status == Disconnected {
      RetryKeepsDelays(s.(created := s.created + 1), s.created + 1);
    }
  }

  lemma EventKeepsDelays(s: State, revents: Flags, selfConnect: bool)
    requires Delays(s)
    ensures Delays(HandleEvent(s, revents, selfConnect))
  {
    if s.status == Connecting && s.channel.Some? {
      RetryKeepsDelays(RemoveAndResetChannel(s), s.channel.value);
    }
  }

  lemma StepKeepsDelays(s: State, step: Step)
    requires Delays(s)
    ensures Delays(Exec(s, step))
  {
    if Enabled(s, step) {
      if Starts(step) {
        BackoffDoubles(0);
        StartKeepsDelays(Starting(s, step), step.errno);
      } else if step.ChannelEvent? {
        EventKeepsDelays(s, step.revents, step.selfConnect);
      }
    }
  }

  ghost predicate HastyAt(steps: seq<Step>, i: nat)
    requires i < |steps|
  {
    Hasty(Run(steps[..i]), steps[i])
  }

  ghost predicate HastyRun(steps: seq<Step>) {
    exists i: nat :: i < |steps| && HastyAt(steps, i)
  }

  lemma HastyPrefix(steps: seq<Step>)
    requires steps != []
    ensures HastyRun(steps) <==> HastyRun(steps[..|steps| - 1]) || HastyAt(steps, |steps| - 1)
  {
    var n := |steps| - 1;
    forall i: nat | i < n ensures HastyAt(steps[..n], i) == HastyAt(steps, i) {
      assert steps[..n][..i] == steps[..i];
    }
    if i: nat :| i < n && HastyAt(steps[..n], i) {
      assert HastyAt(steps, i);
    }
  }

  ghost predicate TimelyAt(steps: seq<Step>, i: nat)
    requires i < |steps|
  {
    !Untimely(Run(steps[..i]), steps[i])
  }

  /** Every restart of the run finds the connector neither waiting nor about to retry. */
  ghost predicate TimelyRun(steps: seq<Step>) {
    forall i: nat :: i < |steps| ==> TimelyAt(steps, i)
  }

  lemma TimelySnoc(steps: seq<Step>, step: Step)
    ensures TimelyRun(steps + [step]) <==> TimelyRun(steps) && !Untimely(Run(steps), step)
  {
    var all := steps + [step];
    assert all[..|steps|] == steps && all[|steps|] == step;
    forall i: nat | i < |steps| ensures TimelyAt(all, i) == TimelyAt(steps, i) {
      assert all[..i] == steps[..i];
    }
    if TimelyRun(all) {
      assert TimelyAt(all, |steps|);
      forall i: nat | i < |steps| ensures TimelyAt(steps, i) {
        assert TimelyAt(all, i);
      }
    }
  }

  lemma TimelyPrefix(steps: seq<Step>)
    requires steps != [] && TimelyRun(steps)
    ensures TimelyRun(steps[..|steps| - 1]) && TimelyAt(steps, |steps| - 1)
  {
    TimelySnoc(steps[..|steps| - 1], steps[|steps| - 1]);
    assert steps[..|steps| - 1] + [steps[|steps| - 1]] == steps;
  }

  /** The assertions of the source hold in every run whose restarts are timely, except that one
      fails exactly when an attempt starts in the loop iteration in which the last one ended. */
  lemma {:induction false} FaultIffHasty(steps: seq<Step>)
    requires TimelyRun(steps)
    ensures var s := Run(steps);
            (s.fault <==> HastyRun(steps)) && (!s.fault ==> Control(s) && Sockets(s))
    decreases |steps|
  {
    if steps != [] {
      TimelyPrefix(steps);
      FaultIffHasty(steps[..|steps| - 1]);
      HastyPrefix(steps);
      var s := Run(steps[..|steps| - 1]);
      if !s.fault {
        StepKeepsControl(s, steps[|steps| - 1]);
        StepKeepsSockets(s, steps[|steps| - 1]);
      }
    }
  }

  lemma {:induction false} RunKeepsDelays(steps: seq<Step>)
    ensures Delays(Run(steps))
    decreases |steps|
  {
    if steps != [] {
      RunKeepsDelays(steps[..|steps| - 1]);
      StepKeepsDelays(Run(steps[..|steps| - 1]), steps[|steps| - 1]);
    }
  }

  /** In a state that such a run reaches, a restart that does not meet the old channel keeps the
      control of sockets, channel and retries, exactly if it is timely. */
  lemma RestartIsSafeIff(steps: seq<Step>, errno: Errno)
    requires TimelyRun(steps) && !HastyRun(steps) && !Hasty(Run(steps), Restart(errno))
    ensures var s := Run(steps);
            var s' := Exec(s, Restart(errno));
            !s'.fault && Control(s') <==> !Untimely(s, Restart(errno))
  {
    FaultIffHasty(steps);
  }

  // ---------------------------------------------------------------- theorems

  ghost predicate Once(k: nat, ks: seq<nat>) {
    k in ks && forall i, j :: 0 <= i < j < |ks| && ks[i] == k ==> ks[j] != k
  }

  /** Conservation: every socket ever opened is in exactly one of three places: waited for in
      the channel, closed once, or handed over once; and at most one retry is pending, while
      nothing is waited for. */
  lemma EverySocketInOnePlace(steps: seq<Step>, k: nat)
    requires TimelyRun(steps) && !HastyRun(steps) && 1 <= k <= Run(steps).created
    ensures var s := Run(steps);
            || (InFlight(s) == Some(k) && k !in s.closed && k !in s.handed)
            || (InFlight(s) != Some(k) && Once(k, s.closed) && k !in s.handed)
            || (InFlight(s) != Some(k) && k !in s.closed && Once(k, s.handed))
    ensures var s := Run(steps); s.ripe + s.unripe <= 1 && (s.ripe + s.unripe == 1 ==> InFlight(s) == None)
  {
    FaultIffHasty(steps);
  }

  /** A pending retry survives the end of the iteration, and can then fire. */
  lemma RetryGoesOn(s: State, errno: Errno)
    requires Control(s) && !s.fault && s.unripe == 1
    requires errno in {OK, EINPROGRESS, EINTR, EISCONN}
    ensures var next := Exec(s, EndIteration);
            var again := Exec(next, StartTimer(errno));
            && next.channel == None && next.ripe == 1 && next.unripe == 0 && next.status == Disconnected
            && again.status == Connecting && again.registered && !again.fault && again.ripe == 0
            && again.channel == Some(s.created + 1) && again.closed == s.closed
  {
    var next := Exec(s, EndIteration);
    assert next.status == Disconnected && next.channel == None && next.ripe == 1;
    AttemptByErrno(next.(ripe := 0), errno);
  }

  /** An event on the channel has one outcome: its socket is closed and a retry scheduled, or
      it is handed over; an error decides for closing, also if the channel is writable too. */
  lemma EventHasOneOutcome(steps: seq<Step>, revents: Flags, selfConnect: bool)
    requires TimelyRun(steps) && !HastyRun(steps) && Run(steps).registered
    ensures var s := Run(steps);
            var s' := Exec(s, ChannelEvent(revents, selfConnect));
            var failed := POLLERR in revents || POLLNVAL in revents;
            && s.channel.Some? && !s'.fault
            && (if failed || (POLLOUT in revents && selfConnect) then
                  s'.closed == s.closed + [s.channel.value] && s'.handed == s.handed
                  && s'.status == Disconnected && s'.unripe == s.unripe + 1
                else if POLLOUT in revents then
                  s'.closed == s.closed && s'.handed == s.handed + [s.channel.value]
                  && s'.status == Connected && s'.unripe == s.unripe
                else s' == s)
  {
    FaultIffHasty(steps);
  }

  /** The n-th retry since the last start is delayed by half a second doubled n times, but by
      no more than half a minute. */
  lemma RetriesBackOff(steps: seq<Step>, n: nat)
    requires n < |Run(steps).delays|
    ensures Run(steps).delays[n] == if 500 * Pow2(n) < 30_000 then 500 * Pow2(n) else 30_000
  {
    RunKeepsDelays(steps);
  }

  /** A failed attempt is made again: whenever the socket that is waited for fails, in a run as
      above, the loop's next iteration finds the channel empty and a retry timer that can fire;
      when it does, the connector opens the next socket and waits for that. */
  lemma FailureIsRetried(steps: seq<Step>, revents: Flags, selfConnect: bool, errno: Errno)
    requires TimelyRun(steps) && !HastyRun(steps) && Run(steps).registered
    requires POLLERR in revents || POLLNVAL in revents || (POLLOUT in revents && selfConnect)
    requires errno in {OK, EINPROGRESS, EINTR, EISCONN}
    ensures var s := Run(steps);
            var failed := Exec(s, ChannelEvent(revents, selfConnect));
            var next := Exec(failed, EndIteration);
            var again := Exec(next, StartTimer(errno));
            && s.channel.Some? && failed.closed == s.closed + [s.channel.value] && !failed.registered
            && next.channel == None && next.ripe == 1 && next.unripe == 0 && next.status == Disconnected
            && again.status == Connecting && again.registered && !again.fault && again.ripe == 0
            && again.channel == Some(s.created + 1) && again.closed == failed.closed
  {
    EventHasOneOutcome(steps, revents, selfConnect);
    FaultIffHasty(steps);
    var failed := Exec(Run(steps), ChannelEvent(revents, selfConnect));
    StepKeepsControl(Run(steps), ChannelEvent(revents, selfConnect));
    RetryGoesOn(failed, errno);
  }

  lemma AttemptFails()
    ensures var s := Exec(Exec(INITIAL, Start(OK)), ChannelEvent({POLLERR}, false));
            s.status == Disconnected && s.channel == Some(1) && s.unripe == 1 && !s.fault
  {
    var s := Exec(INITIAL, Start(OK));
    assert s.status == Connecting && s.channel == Some(1) && s.registered && s.unripe == 0;
  }

  /** A timer that fires in the iteration that added it meets the old channel. */
  lemma HastyTimerFaults()
    ensures Run([Start(OK), ChannelEvent({POLLERR}, false), HastyTimer(OK)]).fault
  {
    AttemptFails();
    var s := Exec(Exec(INITIAL, Start(OK)), ChannelEvent({POLLERR}, false));
    assert Exec(s, HastyTimer(OK)).fault;
    FoldFour(Exec, INITIAL, Start(OK), ChannelEvent({POLLERR}, false), HastyTimer(OK), EndIteration);
  }

  /** A restart while the connector waits for a socket meets the old channel at once; if its own
      attempt is refused, the next error event does. */
  lemma RestartWhileWaitingFaults()
    ensures Run([Start(OK), Restart(OK)]).fault
    ensures Run([Start(OK), Restart(ECONNREFUSED), ChannelEvent({POLLERR}, false)]).fault
  {
    FoldTwo(Exec, INITIAL, Start(OK), Restart(OK));
    var s := Exec(INITIAL, Start(OK));
    assert s.status == Connecting && s.channel == Some(1) && s.registered;
    var r := Exec(s, Restart(ECONNREFUSED));
    assert r.status == Disconnected && r.registered && !r.fault;
    assert Exec(r, ChannelEvent({POLLERR}, false)).fault;
    FoldFour(Exec, INITIAL, Start(OK), Restart(ECONNREFUSED), ChannelEvent({POLLERR}, false), EndIteration);
  }

  lemma RefusedStart()
    ensures var s := Exec(Exec(INITIAL, Start(ECONNREFUSED)), EndIteration);
            s.status == Disconnected && s.channel == None && s.ripe == 1 && !s.fault
  {
  }

  lemma RetryFindsWaiting(s: State)
    requires s.status == Disconnected && s.channel == None && s.ripe == 1 && !s.fault
    ensures Exec(Exec(s, Restart(OK)), StartTimer(OK)).fault
  {
    var r := Exec(s, Restart(OK));
    assert r.status == Connecting && r.ripe == 1 && !r.fault;
  }

  /** After a restart while a retry is pending, the retry finds the connector waiting. */
  lemma RestartWhileRetryingFaults()
    ensures Run([Start(ECONNREFUSED), EndIteration, Restart(OK), StartTimer(OK)]).fault
  {
    RefusedStart();
    RetryFindsWaiting(Exec(Exec(INITIAL, Start(ECONNREFUSED)), EndIteration));
    FoldFour(Exec, INITIAL, Start(ECONNREFUSED), EndIteration, Restart(OK), StartTimer(OK));
  }
}
