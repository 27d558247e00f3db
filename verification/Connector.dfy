/** The class Connector of net/Connector.cc, proved against ConnectorModel.  Its assertions are
    assertions here where a run cannot violate them. */
module Connectors {
  import opened Prelude
  import opened Registry
  import opened ConnectorModel

  class Connector {
    var state: Status
    var channel: Option<nat>
    var retryDelayMs: nat

    // the poller, the loop's queue and its timers, as far as they concern the connector
    var registered: bool
    var resets: nat
    var ripe: nat
    var unripe: nat

    var started: bool
    /** an assertion failed */
    var stopped: bool

    var created: nat
    ghost var closed: seq<nat>
    ghost var handed: seq<nat>
    ghost var delays: seq<nat>
    ghost var trace: seq<Step>

    ghost function Snapshot(): State
      reads this
    {
      State(state, channel, registered, resets, retryDelayMs, ripe, unripe, started, created,
            closed, handed, delays, stopped)
    }

    /** What happened so far is a run of the machine. */
    ghost predicate Valid()
      reads this
    {
      Snapshot() == Run(trace)
    }

    // -------------------------------------------------------------- what holds of the object

    /** The retries since the last start have backed off. */
    lemma BacksOff(n: nat)
      requires Valid() && n < |delays|
      ensures delays[n] == if 500 * Pow2(n) < 30_000 then 500 * Pow2(n) else 30_000
    {
      RetriesBackOff(trace, n);
    }

    /** As long as restarts were timely and no assertion failed, the invariants hold. */
    lemma InControl()
      requires Valid() && TimelyRun(trace) && !stopped
      ensures Control(Snapshot()) && Sockets(Snapshot())
    {
      FaultIffHasty(trace);
    }

    /** Then each socket opened is waited for, closed once, or handed over once. */
    lemma OwnsSocket(k: nat)
      requires Valid() && TimelyRun(trace) && !stopped && 1 <= k <= created
      ensures var waited := state == Connecting && channel == Some(k);
              || (waited && k !in closed && k !in handed)
              || (!waited && Once(k, closed) && k !in handed)
              || (!waited && k !in closed && Once(k, handed))
    {
      FaultIffHasty(trace);
      EverySocketInOnePlace(trace, k);
    }

    constructor ()
      ensures Snapshot() == INITIAL && Valid() && trace == []
    {
      state, channel, retryDelayMs := Disconnected, None, INIT_RETRY_DELAY_MS;
      registered, resets, ripe, unripe := false, 0, 0, 0;
      started, stopped, created := false, false, 0;
      closed, handed, delays, trace := [], [], [], [];
    }

    /** Puts the step that was made last into the trace. */
    ghost method Note(step: Step)
      requires Snapshot() == Exec(Run(trace), step)
      modifies this`trace
      ensures Valid() && trace == old(trace) + [step]
      ensures TimelyRun(trace) <==> old(TimelyRun(trace)) && !Untimely(Run(old(trace)), step)
    {
      FoldSnoc(Exec, INITIAL, trace, step);
      TimelySnoc(trace, step);
      trace := trace + [step];
    }

    method Retry(socket: nat)
      modifies this`closed, this`state, this`unripe, this`delays, this`retryDelayMs
      ensures Snapshot() == ConnectorModel.Retry(old(Snapshot()), socket)
    {
      closed := closed + [socket];
      state := Disconnected;
      unripe := unripe + 1;
      delays := delays + [retryDelayMs];
      retryDelayMs := Min(retryDelayMs * 2, MAX_RETRY_DELAY_MS);
    }

    method ConnectingOn(socket: nat)
      modifies this`state, this`channel, this`registered, this`stopped
      ensures Snapshot() == StartConnecting(old(Snapshot()), socket)
    {
      if channel.Some? {
        stopped := true;
        return;
      }
      state := Connecting;
      channel := Some(socket);
      registered := true;
    }

    method StartInLoop(errno: Errno)
      modifies this
      ensures trace == old(trace)
      ensures Snapshot() == ConnectorModel.StartInLoop(old(Snapshot()), errno)
    {
      if state != Disconnected {
        stopped := true;
        return;
      }
      created := created + 1;
      var socket := created;
      match Judge(errno) {
        case Proceed => ConnectingOn(socket);
        case TryAgain => Retry(socket);
        case GiveUp => closed := closed + [socket];
      }
    }

    method Start(errno: Errno)
      requires Valid() && !started && !stopped
      modifies this
      ensures Valid() && trace == old(trace) + [ConnectorModel.Start(errno)]
      ensures old(TimelyRun(trace)) ==> TimelyRun(trace)
    {
      started := true;
      StartInLoop(errno);
      Note(ConnectorModel.Start(errno));
    }

    method Restart(errno: Errno)
      requires Valid() && !stopped
      modifies this
      ensures Valid() && trace == old(trace) + [ConnectorModel.Restart(errno)]
      ensures old(TimelyRun(trace) && !Untimely(Snapshot(), ConnectorModel.Restart(errno))) ==> TimelyRun(trace)
    {
      BeginAgain();
      StartInLoop(errno);
      Note(ConnectorModel.Restart(errno));
    }

    method BeginAgain()
      modifies this`started, this`state, this`retryDelayMs, this`delays
      ensures Snapshot() == Restarted(old(Snapshot()))
    {
      started := true;
      state := Disconnected;
      retryDelayMs := INIT_RETRY_DELAY_MS;
      delays := [];
    }

    /** The retry timer fires, in a later iteration than the one that added it. */
    method TimerFires(errno: Errno)
      requires Valid() && TimelyRun(trace) && ripe > 0 && !stopped
      modifies this
      ensures Valid() && trace == old(trace) + [StartTimer(errno)]
      ensures TimelyRun(trace) && !stopped
    {
      assert state == Disconnected && channel.None? by {
        InControl();
      }
      ripe := ripe - 1;
      StartInLoop(errno);
      Note(StartTimer(errno));
    }

    method RemoveAndResetChannel() returns (socket: nat)
      requires channel.Some?
      modifies this`registered, this`resets
      ensures Snapshot() == ConnectorModel.RemoveAndResetChannel(old(Snapshot())) && socket == channel.value
    {
      registered := false;
      resets := resets + 1;
      socket := channel.value;
    }

    method HandleWrite(selfConnect: bool)
      requires state == Connecting ==> channel.Some?
      requires state != Connected
      modifies this
      ensures trace == old(trace)
      ensures Snapshot() == ConnectorModel.HandleWrite(old(Snapshot()), selfConnect)
    {
      if state == Connecting {
        var socket := RemoveAndResetChannel();
        if selfConnect {
          Retry(socket);
        } else {
          state := Connected;
          handed := handed + [socket];
        }
      } else {
        assert state == Disconnected;
      }
    }

    method HandleError()
      requires state == Connecting && channel.Some?
      modifies this
      ensures trace == old(trace)
      ensures Snapshot() == ConnectorModel.HandleError(old(Snapshot()))
    {
      var socket := RemoveAndResetChannel();
      Retry(socket);
    }

    /** The channel's handleEvent; only the error and the write callback are set. */
    method HandleEvent(revents: Flags, selfConnect: bool)
      requires Valid() && TimelyRun(trace) && registered && !stopped
      modifies this
      ensures Valid() && trace == old(trace) + [ChannelEvent(revents, selfConnect)]
      ensures TimelyRun(trace) && !stopped
    {
      assert state == Connecting && channel.Some? by {
        InControl();
      }
      if POLLERR in revents || POLLNVAL in revents {
        HandleError();
      }
      if POLLOUT in revents {
        HandleWrite(selfConnect);
      }
      Note(ChannelEvent(revents, selfConnect));
    }

    /** The loop runs its queued functors: resetChannel, if it is among them. */
    method RunFunctors()
      requires Valid() && !stopped
      modifies this
      ensures Valid() && trace == old(trace) + [EndIteration]
      ensures channel == (if old(resets) > 0 then None else old(channel)) && resets == 0 && !stopped
      ensures old(TimelyRun(trace)) ==> TimelyRun(trace)
    {
      RunResets();
      Note(EndIteration);
    }

    method RunResets()
      modifies this`channel, this`resets, this`ripe, this`unripe
      ensures Snapshot() == EndOfIteration(old(Snapshot()))
    {
      if resets > 0 {
        channel := None;
      }
      resets := 0;
      ripe, unripe := ripe + unripe, 0;
    }
  }
}
