/** The output path and the states of net/TcpConnection.cc, on values. */
module Connections {
  import opened Prelude
  import opened Registry

  /** In the order in which a connection passes through them. */
  datatype Status = Connecting | Connected | Disconnecting | Disconnected

  function Rank(status: Status): nat {
    match status
    case Connecting => 0
    case Connected => 1
    case Disconnecting => 2
    case Disconnected => 3
  }

  /** The result of write(2): a number of bytes, no more than offered, or an error. */
  datatype Written = Wrote(n: nat) | Failed

  /** The bytes that a write of `data` hands to the socket. */
  function Accepted(w: Written, data: seq<char>): nat {
    match w
    case Wrote(n) => if n <= |data| then n else |data|
    case Failed => 0
  }

  /** `wantsRead` and `writing` are the interest of the channel, and `removed` says that the loop was
      told to remove it.  `wire` is what was handed to the socket and `sent` the concatenation of the messages that
      sendInLoop was given; `shutdowns` counts the calls of shutdownWrite, and
      `outputAtShutdown` is what was still unsent when shutdown() took effect. */
  datatype State = State(
    status: Status,
    wantsRead: bool,
    writing: bool,
    removed: bool,
    output: seq<char>,
    wire: seq<char>,
    sent: seq<char>,
    shutdowns: nat,
    outputAtShutdown: Option<seq<char>>,
    completions: nat)

  const INITIAL: State := State(Connecting, false, false, false, [], [], [], 0, None, 0)

  /** What sendInLoop writes at once: something only if nothing waits. */
  function AtOnce(c: State, message: seq<char>, w: Written): (n: nat)
    ensures n <= |message|
  {
    if !c.writing && c.output == [] then Accepted(w, message) else 0
  }

  function WriteNow(c: State, message: seq<char>, w: Written): State {
    var n := AtOnce(c, message, w);
    c.(wire := c.wire + message[..n],
       sent := c.sent + message,
       completions := c.completions + if !c.writing && c.output == [] && w.Wrote? && n == |message| then 1 else 0)
  }

  /** sendInLoop keeps what was not written. */
  function SendInLoop(c: State, message: seq<char>, w: Written): State {
    var n := AtOnce(c, message, w);
    var c' := WriteNow(c, message, w);
    if n < |message| then c'.(output := c'.output + message[n..], writing := true) else c'
  }

  function ShutdownInLoop(c: State): State {
    if c.writing then c else c.(shutdowns := c.shutdowns + 1)
  }

  /** shutdown() in the loop thread. */
  function Shutdown(c: State): State {
    if c.status != Connected then c
    else ShutdownInLoop(c.(status := Disconnecting, outputAtShutdown := Some(c.output)))
  }

  /** handleWrite.  Line 87 calls shutdown(), which does nothing in this state;
      shutdownInLoop() is meant. */
  function HandleWrite(reading: Reading, c: State, w: Written): State {
    var n := Accepted(w, c.output);
    if !c.writing || n == 0 then c
    else
      var c' := c.(wire := c.wire + c.output[..n], output := c.output[n..]);
      if c'.output != [] then c'
      else
        var done := c'.(writing := false, completions := c'.completions + 1);
        if done.status != Disconnecting then done
        else match reading
             case AsWritten => Shutdown(done)
             case Intended => ShutdownInLoop(done)
  }

  function HandleClose(c: State): State {
    c.(status := Disconnected, wantsRead := false, writing := false)
  }

  function ConnectionDestroyed(c: State): State {
    (if c.status == Connecting then HandleClose(c) else c).(removed := true)
  }

  /** Send: send() in the loop thread.  QueuedSend: a sendInLoop that another thread handed to
      the loop when it found the connection connected. */
  datatype Step =
    | Establish
    | Send(message: seq<char>, w: Written)
    | QueuedSend(message: seq<char>, w: Written)
    | Writable(w: Written)
    | AskShutdown
    | Close
    | Destroy

  function Exec(reading: Reading, c: State, step: Step): State {
    match step
    case Establish => if c.status == Connecting then c.(status := Connected, wantsRead := true) else c
    case Send(message, w) => if c.status == Connected then SendInLoop(c, message, w) else c
    case QueuedSend(message, w) => SendInLoop(c, message, w)
    case Writable(w) => HandleWrite(reading, c, w)
    case AskShutdown => Shutdown(c)
    case Close => HandleClose(c)
    case Destroy => ConnectionDestroyed(c)
  }

  function Stepper(reading: Reading): (State, Step) -> State {
    (c, step) => Exec(reading, c, step)
  }

  function Run(reading: Reading, steps: seq<Step>): State {
    Fold(Stepper(reading), INITIAL, steps)
  }

  lemma RunNext(reading: Reading, steps: seq<Step>, step: Step)
    ensures Run(reading, steps + [step]) == Exec(reading, Run(reading, steps), step)
  {
    FoldSnoc(Stepper(reading), INITIAL, steps, step);
  }

  // ---------------------------------------------------------------- what a write does

  /** What a write takes of a message, and no more, goes to the socket; the rest waits, and the
      channel asks to go on writing.  A failed write takes nothing. */
  lemma SendTakesWhatIsWritten(reading: Reading, c: State, message: seq<char>, n: nat)
    requires !c.writing && c.output == [] && n <= |message|
    ensures var c' := Exec(reading, c, QueuedSend(message, Wrote(n)));
            c'.wire == c.wire + message[..n] && c'.output == message[n..] && (c'.writing <==> n < |message|)
    ensures var c' := Exec(reading, c, QueuedSend(message, Failed));
            c'.wire == c.wire && c'.output == message && (c'.writing <==> message != [])
  {
    assert message[..0] == [] && message[0..] == message && c.wire + [] == c.wire;
    assert [] + message[n..] == message[n..] && [] + message == message;
  }

  /** While output waits, a message is put behind it, and nothing is written. */
  lemma SendWaitsBehindOutput(reading: Reading, c: State, message: seq<char>, w: Written)
    requires c.writing || c.output != []
    ensures var c' := Exec(reading, c, QueuedSend(message, w));
            c'.wire == c.wire && c'.output == c.output + message && c'.completions == c.completions
  {
    assert message[..0] == [] && message[0..] == message && c.wire + [] == c.wire;
    assert c.output + [] == c.output;
  }

  /** send() does the same while connected, and otherwise nothing. */
  lemma SendOnlyWhileConnected(reading: Reading, c: State, message: seq<char>, w: Written)
    ensures Exec(reading, c, Send(message, w))
            == if c.status == Connected then Exec(reading, c, QueuedSend(message, w)) else c
  {
  }

  /** What a write takes of the output leaves the buffer, and no more; without write interest, or
      if the write fails, nothing happens. */
  lemma WritableTakesWhatIsWritten(reading: Reading, c: State, n: nat)
    requires n <= |c.output|
    ensures c.writing ==>
              var c' := Exec(reading, c, Writable(Wrote(n)));
              && c'.wire == c.wire + c.output[..n] && c'.output == c.output[n..]
              && (c'.writing <==> n == 0 || n < |c.output|)
    ensures !c.writing ==> Exec(reading, c, Writable(Wrote(n))) == c
    ensures Exec(reading, c, Writable(Failed)) == c
  {
    assert c.output[..0] == [] && c.output[0..] == c.output && c.wire + [] == c.wire;
  }

  /** The messages of the sends that were carried out. */
  function Messages(reading: Reading, steps: seq<Step>): seq<char>
    decreases |steps|
  {
    if steps == [] then []
    else
      var before, step := steps[..|steps| - 1], steps[|steps| - 1];
      Messages(reading, before)
      + if step.QueuedSend? || (step.Send? && Run(reading, before).status == Connected) then step.message else []
  }

  lemma {:induction false} SentIsMessages(reading: Reading, steps: seq<Step>)
    ensures Run(reading, steps).sent == Messages(reading, steps)
    decreases |steps|
  {
    if steps != [] {
      var before := steps[..|steps| - 1];
      SentIsMessages(reading, before);
      assert Messages(reading, before) + [] == Messages(reading, before);
    }
  }

  // ---------------------------------------------------------------- conservation

  lemma SendConserves(c: State, message: seq<char>, w: Written)
    requires c.wire + c.output == c.sent
    ensures var c' := SendInLoop(c, message, w); c'.wire + c'.output == c'.sent
  {
    var n := AtOnce(c, message, w);
    assert message == message[..n] + message[n..];
    if n > 0 {
      assert c.wire + [] == c.wire;
      Associate(c.wire, message[..n], message[n..]);
      assert c.output + message[n..] == message[n..];
    } else {
      assert message[..0] == [] && message[0..] == message && c.wire + [] == c.wire;
      Associate(c.wire, c.output, message);
    }
  }

  lemma WriteConserves(reading: Reading, c: State, w: Written)
    requires c.wire + c.output == c.sent
    ensures var c' := HandleWrite(reading, c, w); c'.wire + c'.output == c'.sent
  {
    var n := Accepted(w, c.output);
    assert c.output == c.output[..n] + c.output[n..];
    Associate(c.wire, c.output[..n], c.output[n..]);
  }

  lemma StepConserves(reading: Reading, c: State, step: Step)
    requires c.wire + c.output == c.sent
    ensures var c' := Exec(reading, c, step); c'.wire + c'.output == c'.sent
  {
    match step {
      case Send(message, w) => SendConserves(c, message, w);
      case QueuedSend(message, w) => SendConserves(c, message, w);
      case Writable(w) => WriteConserves(reading, c, w);
      case _ =>
    }
  }

  /** Conservation: whatever is sent, from whatever thread, and however much of it each write
      takes, the bytes handed to the socket followed by the output buffer are the messages in
      the order of sending: nothing is lost, repeated or reordered. */
  lemma {:induction false} OutputConserved(reading: Reading, steps: seq<Step>)
    ensures var c := Run(reading, steps); c.wire + c.output == c.sent == Messages(reading, steps)
    decreases |steps|
  {
    SentIsMessages(reading, steps);
    if steps != [] {
      OutputConserved(reading, steps[..|steps| - 1]);
      StepConserves(reading, Run(reading, steps[..|steps| - 1]), steps[|steps| - 1]);
    }
  }

  // ---------------------------------------------------------------- states

  /** No step takes a connection back to an earlier state, nor anything back from the socket. */
  lemma StatusOnlyAdvances(reading: Reading, c: State, step: Step)
    ensures var c' := Exec(reading, c, step); Rank(c.status) <= Rank(c'.status) && c.wire <= c'.wire
  {
  }

  /** The steps that change the state, and what they change it to. */
  lemma StatusAfterStep(reading: Reading, c: State, step: Step)
    ensures var status := Exec(reading, c, step).status;
            match c.status
            case Connecting =>
              status == if step.Establish? then Connected
                        else if step.Close? || step.Destroy? then Disconnected else Connecting
            case Connected =>
              status == if step.AskShutdown? then Disconnecting else if step.Close? then Disconnected else Connected
            case Disconnecting => status == if step.Close? then Disconnected else Disconnecting
            case Disconnected => status == Disconnected
    ensures Exec(reading, c, step).removed <==> c.removed || step.Destroy?
  {
  }

  /** After closing, nothing is written but by the sends of other threads that were queued. */
  lemma {:induction false} ClosedWritesNothing(reading: Reading, c: State, more: seq<Step>)
    requires forall i :: 0 <= i < |more| ==> !more[i].QueuedSend?
    ensures var closed := Exec(reading, c, Close);
            var c' := Fold(Stepper(reading), closed, more);
            && c'.wire == c.wire && c'.sent == c.sent && c'.completions == c.completions && c'.shutdowns == c.shutdowns
            && c'.status.Disconnected? && !c'.wantsRead && !c'.writing
    decreases |more|
  {
    if more != [] {
      ClosedWritesNothing(reading, c, more[..|more| - 1]);
    }
  }

  // ---------------------------------------------------------------- interest and half-close

  /** What holds in every run, whichever threads send. */
  ghost predicate Inv(reading: Reading, c: State) {
    && (c.wantsRead <==> c.status.Connected? || c.status.Disconnecting?)
    && (c.writing ==> c.output != [])
    && (!c.status.Disconnected? && c.output != [] ==> c.writing)
    && (c.outputAtShutdown.Some? ==> Rank(c.status) >= Rank(Disconnecting))
    && (c.status.Disconnecting? ==> c.outputAtShutdown.Some?)
    && (c.shutdowns > 0 ==> c.outputAtShutdown.Some?)
    && (reading == Intended && c.status.Disconnecting? && c.output == [] ==> c.shutdowns > 0)
    && (reading == AsWritten ==> (c.shutdowns > 0 <==> c.outputAtShutdown == Some([])))
  }

  lemma StepKeepsInv(reading: Reading, c: State, step: Step)
    requires Inv(reading, c)
    ensures Inv(reading, Exec(reading, c, step))
  {
  }

  lemma {:induction false} RunKeepsInv(reading: Reading, steps: seq<Step>)
    ensures Inv(reading, Run(reading, steps))
    decreases |steps|
  {
    if steps != [] {
      RunKeepsInv(reading, steps[..|steps| - 1]);
      StepKeepsInv(reading, Run(reading, steps[..|steps| - 1]), steps[|steps| - 1]);
    }
  }

  /** As long as the connection is not closed, the channel has write interest exactly while
      output waits; and it has read interest exactly while the connection is established. */
  lemma WriteInterestIffOutput(reading: Reading, steps: seq<Step>)
    ensures var c := Run(reading, steps);
            && (!c.status.Disconnected? ==> (c.writing <==> c.output != []))
            && (c.wantsRead <==> c.status.Connected? || c.status.Disconnecting?)
  {
    RunKeepsInv(reading, steps);
  }

  /** shutdown() half-closes a connected connection at once exactly if nothing waits to be
      written, and notes what does. */
  lemma ShutdownHalfClosesIff(reading: Reading, steps: seq<Step>)
    requires Run(reading, steps).status == Connected
    ensures var c := Run(reading, steps);
            var c' := Exec(reading, c, AskShutdown);
            && c'.shutdowns == c.shutdowns + (if c.output == [] then 1 else 0)
            && c'.outputAtShutdown == Some(c.output) && c'.wire == c.wire && c'.output == c.output
  {
    RunKeepsInv(reading, steps);
  }

  /** The write-complete callback is queued by exactly the writes that leave nothing unsent:
      a write of sendInLoop that takes the whole message, or a write of handleWrite that takes
      the rest of the output. */
  lemma CompletionIffDrained(reading: Reading, steps: seq<Step>, message: seq<char>, w: Written)
    ensures var c := Run(reading, steps);
            var c' := Exec(reading, c, Send(message, w));
            c'.completions == c.completions + if c.status == Connected && w.Wrote? && c'.output == [] then 1 else 0
    ensures var c := Run(reading, steps);
            var c' := Exec(reading, c, QueuedSend(message, w));
            c'.completions == c.completions + if w.Wrote? && c'.output == [] then 1 else 0
    ensures var c := Run(reading, steps);
            var c' := Exec(reading, c, Writable(w));
            c'.completions == c.completions + if c.writing && c'.output == [] then 1 else 0
  {
    RunKeepsInv(reading, steps);
  }

  /** A connection on which shutdown was asked, and whose output has drained, is half-closed:
      always, with the statement that was meant; as written, exactly if nothing waited when
      shutdown() was called. */
  lemma DrainedIsHalfClosedIff(reading: Reading, steps: seq<Step>)
    requires var c := Run(reading, steps); c.status.Disconnecting? && c.output == []
    ensures var c := Run(reading, steps);
            c.shutdowns > 0 <==> (reading == Intended || c.outputAtShutdown == Some([]))
  {
    RunKeepsInv(reading, steps);
  }

  /** Step i issues the first shutdownWrite. */
  ghost predicate HalfClosesAt(reading: Reading, steps: seq<Step>, i: nat)
    requires i < |steps|
  {
    Run(reading, steps[..i]).shutdowns == 0 && Run(reading, steps[..i + 1]).shutdowns > 0
  }

  /** No other thread's send of a non-empty message arrives after step i. */
  ghost predicate NoLateSend(steps: seq<Step>, i: nat) {
    forall j :: i < j < |steps| && steps[j].QueuedSend? ==> steps[j].message == []
  }

  /** c differs from the half-closed h in nothing that concerns the output. */
  ghost predicate StillHalfClosed(h: State, c: State) {
    && Rank(c.status) >= Rank(Disconnecting) && !c.writing && c.output == []
    && c.shutdowns == 1 && c.wire == h.wire && c.sent == h.sent
  }

  lemma FirstHalfClose(reading: Reading, c: State, step: Step)
    requires Inv(reading, c) && c.shutdowns == 0 && Exec(reading, c, step).shutdowns > 0
    ensures var c' := Exec(reading, c, step); StillHalfClosed(c', c')
  {
  }

  lemma HalfClosedAt(reading: Reading, steps: seq<Step>, i: nat)
    requires i < |steps| && HalfClosesAt(reading, steps, i)
    ensures var h := Run(reading, steps[..i + 1]); StillHalfClosed(h, h) && h.wire == h.sent
  {
    assert steps[..i + 1] == steps[..i] + [steps[i]];
    RunNext(reading, steps[..i], steps[i]);
    RunKeepsInv(reading, steps[..i]);
    FirstHalfClose(reading, Run(reading, steps[..i]), steps[i]);
    OutputConserved(reading, steps[..i + 1]);
    var h := Run(reading, steps[..i + 1]);
    assert h.wire + [] == h.wire;
  }

  /** What a step does after the half-close, or after it and a late message. */
  lemma StepAfterHalfClose(reading: Reading, h: State, c: State, step: Step)
    ensures |c.sent| <= |Exec(reading, c, step).sent|
    ensures StillHalfClosed(h, c) ==>
              var c' := Exec(reading, c, step);
              if step.QueuedSend? && step.message != [] then |c'.sent| > |h.sent| else StillHalfClosed(h, c')
  {
  }

  /** shutdownWrite is first issued when all output has been handed to the socket.  From then
      on more is sent exactly if another thread's message arrives late; if none does, it is not
      issued again, and no byte is handed to the socket. */
  lemma {:induction false} NothingAfterHalfClose(reading: Reading, steps: seq<Step>, i: nat)
    requires i < |steps| && HalfClosesAt(reading, steps, i)
    ensures var h, c := Run(reading, steps[..i + 1]), Run(reading, steps);
            && h.wire == h.sent
            && if NoLateSend(steps, i) then StillHalfClosed(h, c) else |c.sent| > |h.sent|
    decreases |steps|
  {
    HalfClosedAt(reading, steps, i);
    if i + 1 == |steps| {
      assert steps[..i + 1] == steps;
    } else {
      var n := |steps| - 1;
      var before := steps[..n];
      assert before[..i] == steps[..i] && before[..i + 1] == steps[..i + 1];
      NothingAfterHalfClose(reading, before, i);
      StepAfterHalfClose(reading, Run(reading, steps[..i + 1]), Run(reading, before), steps[n]);
      assert NoLateSend(steps, i) <==> NoLateSend(before, i) && (steps[n].QueuedSend? ==> steps[n].message == []);
    }
  }

  function LateDrain(): seq<Step> {
    [Establish, Send("a", Failed), AskShutdown, Writable(Wrote(1))]
  }

  lemma LateDrainSteps(reading: Reading)
    ensures var c1 := Exec(reading, INITIAL, Establish);
            var c2 := Exec(reading, c1, Send("a", Failed));
            Exec(reading, c2, AskShutdown) == State(Disconnecting, true, true, false, "a", "", "a", 0, Some("a"), 0)
  {
    assert "a"[..0] == "" && "a"[0..] == "a" && "" + "a" == "a" && "" + "" == "";
  }

  lemma LateDrainRun(reading: Reading)
    ensures var before := State(Disconnecting, true, true, false, "a", "", "a", 0, Some("a"), 0);
            Run(reading, LateDrain()) == HandleWrite(reading, before, Wrote(1))
  {
    LateDrainSteps(reading);
    FoldFour(Stepper(reading), INITIAL, Establish, Send("a", Failed), AskShutdown, Writable(Wrote(1)));
  }

  /** As written, a byte that waits at shutdown() and is written afterwards leaves the
      connection open for good. */
  lemma LateDrainIsNotHalfClosed()
    ensures var c := Run(AsWritten, LateDrain()); c.status.Disconnecting? && c.output == [] && c.shutdowns == 0
    ensures var c := Run(Intended, LateDrain()); c.status.Disconnecting? && c.output == [] && c.shutdowns == 1
  {
    LateDrainRun(AsWritten);
    LateDrainRun(Intended);
  }

  /** A send that another thread queued before shutdown can still be written after it. */
  lemma QueuedSendAfterHalfClose()
    ensures var h := Run(Intended, [Establish, AskShutdown]);
            h.shutdowns == 1 && Exec(Intended, h, QueuedSend("a", Wrote(1))).wire == h.wire + "a"
  {
    FoldTwo(Stepper(Intended), INITIAL, Establish, AskShutdown);
    assert "a"[..1] == "a";
  }

  // ---------------------------------------------------------------- channel events

  /** A callback of the connection's channel.  `eof`: the read callback finds the end of the
      stream; otherwise what the message callback does follows as further steps. */
  function Handle(reading: Reading, c: State, callback: Callback, eof: bool, w: Written): State {
    match callback
    case OnClose => HandleClose(c)
    case OnError => c
    case OnRead => if eof then HandleClose(c) else c
    case OnWrite => HandleWrite(reading, c, w)
  }

  function Handler(reading: Reading, eof: bool, w: Written): (State, Callback) -> State {
    (c, callback) => Handle(reading, c, callback, eof, w)
  }

  function HandleEvent(reading: Reading, c: State, revents: Flags, eof: bool, w: Written): State {
    Fold(Handler(reading, eof, w), c, Dispatch(revents))
  }

  /** An event that does not close the connection is a write exactly if it reports the socket
      writable; reading and errors do not touch the output. */
  lemma EventWritesIffWritable(reading: Reading, c: State, revents: Flags, w: Written)
    requires POLLHUP !in revents || POLLIN in revents
    ensures HandleEvent(reading, c, revents, false, w)
            == if POLLOUT in revents then Exec(reading, c, Writable(w)) else c
  {
    DispatchInOrder(Handler(reading, false, w), c, revents);
  }

  /** The dispatch calls the callbacks for closing and reading before the one for writing, so
      an event that closes the connection hands nothing to the socket, even if it also reports
      that the socket is writable. */
  lemma ClosingEventWritesNothing(reading: Reading, c: State, revents: Flags, eof: bool, w: Written)
    requires (POLLHUP in revents && POLLIN !in revents)
             || (eof && (POLLIN in revents || POLLPRI in revents || POLLRDHUP in revents))
    ensures HandleEvent(reading, c, revents, eof, w) == HandleClose(c)
  {
    DispatchInOrder(Handler(reading, eof, w), c, revents);
  }
}
