/** The class TcpConnection of net/TcpConnection.cc with its output buffer, proved against
    Connections.  The buffer is the one of Buffers, so this is also the proof that the
    connection sees it as a plain sequence of characters. */
module TcpConnections {
  import opened Prelude
  import opened Buffers
  import opened Connections

  class TcpConnection {
    const reading: Reading
    const outputBuffer: Buffer
    var status: Status
    // the interest of the channel, and whether the loop was told to remove it
    var wantsRead: bool
    var writing: bool
    var removed: bool

    ghost var trace: seq<Step>
    ghost var wire: seq<char>
    ghost var sent: seq<char>
    ghost var shutdowns: nat
    ghost var outputAtShutdown: Option<seq<char>>
    ghost var completions: nat

    ghost predicate HasBuffer()
      reads this, outputBuffer
    {
      outputBuffer.Valid() && outputBuffer.reading == reading
    }

    ghost function Snapshot(): State
      requires HasBuffer()
      reads this, outputBuffer, outputBuffer.buffer
    {
      State(status, wantsRead, writing, removed, outputBuffer.Contents(), wire, sent,
            shutdowns, outputAtShutdown, completions)
    }

    /** What happened so far is a run of the machine. */
    ghost predicate Valid()
      reads this, outputBuffer, outputBuffer.buffer
    {
      HasBuffer() && Snapshot() == Run(reading, trace)
    }

    /** So the bytes handed to the socket, then the buffer, are the messages sent; and the
        interest of the channel is as the output and the state demand. */
    lemma OutputIsConserved()
      requires Valid()
      ensures wire + outputBuffer.Contents() == Messages(reading, trace)
      ensures status != Disconnected ==> (writing <==> outputBuffer.Contents() != [])
      ensures wantsRead <==> status == Connected || status == Disconnecting
    {
      OutputConserved(reading, trace);
      WriteInterestIffOutput(reading, trace);
    }

    constructor (reading: Reading)
      ensures Valid() && Snapshot() == INITIAL && this.reading == reading
      ensures fresh(outputBuffer) && fresh(outputBuffer.buffer)
    {
      this.reading := reading;
      outputBuffer := new Buffer(reading);
      status, wantsRead, writing, removed := Connecting, false, false, false;
      trace, wire, sent, shutdowns, outputAtShutdown, completions := [], [], [], 0, None, 0;
    }

    /** What sendInLoop has to put into the buffer when the write took w. */
    function Unwritten(message: seq<char>, w: Written): seq<char>
      reads this, outputBuffer
    {
      if !writing && outputBuffer.readIndex == outputBuffer.writeIndex then message[Accepted(w, message)..] else message
    }

    /** Unless the buffer's append fails, which with the intended statements it does not. */
    method SendInLoop(message: seq<char>, w: Written) returns (outcome: Outcome)
      requires HasBuffer() && outputBuffer.buffer.Length + |message| < SIZE_T
      modifies this, outputBuffer, outputBuffer.buffer
      ensures trace == old(trace)
      ensures var rest := old(Unwritten(message, w));
              outcome == if rest == [] then Appended
                         else AppendOutcome(reading, old(outputBuffer.buffer.Length), old(outputBuffer.readIndex),
                                            old(outputBuffer.writeIndex), |rest|)
      ensures reading == Intended ==> outcome == Appended
      ensures outcome == Appended ==> HasBuffer() && Snapshot() == Connections.SendInLoop(old(Snapshot()), message, w)
      ensures outputBuffer.buffer == old(outputBuffer.buffer) || fresh(outputBuffer.buffer)
    {
      var nwrite := WriteNow(message, w);
      outcome := Appended;
      if nwrite < |message| {
        outcome := KeepUnwritten(message[nwrite..]);
      }
    }

    /** The write that sendInLoop makes at once, if nothing waits. */
    method WriteNow(message: seq<char>, w: Written) returns (nwrite: nat)
      requires HasBuffer()
      modifies this`completions, this`wire, this`sent
      ensures nwrite == AtOnce(old(Snapshot()), message, w) && message[nwrite..] == old(Unwritten(message, w))
      ensures Snapshot() == Connections.WriteNow(old(Snapshot()), message, w)
    {
      nwrite := 0;
      if !writing && outputBuffer.readIndex == outputBuffer.writeIndex {
        nwrite := Accepted(w, message);
        if w.Wrote? && nwrite == |message| {
          completions := completions + 1;
        }
      }
      wire := wire + message[..nwrite];
      sent := sent + message;
    }

    method KeepUnwritten(rest: seq<char>) returns (outcome: Outcome)
      requires HasBuffer() && outputBuffer.buffer.Length + |rest| < SIZE_T
      modifies this`writing, outputBuffer, outputBuffer.buffer
      ensures outcome == AppendOutcome(reading, old(outputBuffer.buffer.Length), old(outputBuffer.readIndex),
                                       old(outputBuffer.writeIndex), |rest|)
      ensures reading == Intended ==> outcome == Appended
      ensures outcome == Appended ==>
                var c := old(Snapshot()); HasBuffer() && Snapshot() == c.(output := c.output + rest, writing := true)
      ensures outputBuffer.buffer == old(outputBuffer.buffer) || fresh(outputBuffer.buffer)
    {
      outcome := outputBuffer.Append(rest);
      writing := true;
    }

    /** send(): in the loop thread at once, while connected. */
    method SendMessage(message: seq<char>, w: Written) returns (outcome: Outcome)
      requires HasBuffer() && outputBuffer.buffer.Length + |message| < SIZE_T
      modifies this, outputBuffer, outputBuffer.buffer
      ensures trace == old(trace)
      ensures reading == Intended ==> outcome == Appended
      ensures outcome == Appended ==> HasBuffer() && Snapshot() == Exec(reading, old(Snapshot()), Send(message, w))
      ensures outputBuffer.buffer == old(outputBuffer.buffer) || fresh(outputBuffer.buffer)
    {
      outcome := Appended;
      if status == Connected {
        outcome := SendInLoop(message, w);
      }
    }

    method ShutdownInLoop()
      requires HasBuffer()
      modifies this`shutdowns
      ensures HasBuffer() && Snapshot() == Connections.ShutdownInLoop(old(Snapshot()))
    {
      if !writing {
        shutdowns := shutdowns + 1;
      }
    }

    method Shutdown()
      requires HasBuffer()
      modifies this`status, this`outputAtShutdown, this`shutdowns
      ensures HasBuffer() && Snapshot() == Connections.Shutdown(old(Snapshot()))
    {
      if status == Connected {
        status := Disconnecting;
        outputAtShutdown := Some(outputBuffer.Contents());
        ShutdownInLoop();
      }
    }

    method HandleWrite(w: Written)
      requires HasBuffer()
      modifies this, outputBuffer`readIndex
      ensures trace == old(trace)
      ensures HasBuffer() && Snapshot() == Connections.HandleWrite(reading, old(Snapshot()), w)
    {
      if writing {
        var readable := outputBuffer.writeIndex - outputBuffer.readIndex;
        ghost var output := outputBuffer.Contents();
        var nwrite := match w case Wrote(n) => (if n <= readable then n else readable) case Failed => 0;
        if nwrite > 0 {
          wire := wire + output[..nwrite];
          outputBuffer.Retrieve(nwrite);
          if outputBuffer.readIndex == outputBuffer.writeIndex {
            writing := false;
            completions := completions + 1;
            if status == Disconnecting {
              match reading {
                case AsWritten => Shutdown();
                case Intended => ShutdownInLoop();
              }
            }
          }
        }
      }
    }

    method HandleClose()
      requires HasBuffer()
      modifies this`status, this`wantsRead, this`writing
      ensures HasBuffer() && Snapshot() == Connections.HandleClose(old(Snapshot()))
    {
      status := Disconnected;
      wantsRead, writing := false, false;
    }

    method ConnectionEstablished()
      requires HasBuffer() && status == Connecting
      modifies this`status, this`wantsRead
      ensures HasBuffer() && Snapshot() == Exec(reading, old(Snapshot()), Establish)
    {
      status := Connected;
      wantsRead := true;
    }

    method ConnectionDestroyed()
      requires HasBuffer()
      modifies this`status, this`wantsRead, this`writing, this`removed
      ensures HasBuffer() && Snapshot() == Exec(reading, old(Snapshot()), Destroy)
    {
      if status == Connecting {
        HandleClose();
      }
      removed := true;
    }

    /** Whatever happens next, the connection goes on as a run of the machine. */
    method Happens(step: Step) returns (outcome: Outcome)
      requires Valid()
      requires step.Send? || step.QueuedSend? ==> outputBuffer.buffer.Length + |step.message| < SIZE_T
      modifies this, outputBuffer, outputBuffer.buffer
      ensures reading == Intended ==> outcome == Appended
      ensures outcome == Appended ==> Valid() && trace == old(trace) + [step]
      ensures outputBuffer.buffer == old(outputBuffer.buffer) || fresh(outputBuffer.buffer)
    {
      ghost var before := trace;
      outcome := Take(step);
      RunNext(reading, before, step);
      trace := before + [step];
    }

    method Take(step: Step) returns (outcome: Outcome)
      requires HasBuffer()
      requires step.Send? || step.QueuedSend? ==> outputBuffer.buffer.Length + |step.message| < SIZE_T
      modifies this, outputBuffer, outputBuffer.buffer
      ensures reading == Intended ==> outcome == Appended
      ensures outcome == Appended ==> HasBuffer() && Snapshot() == Exec(reading, old(Snapshot()), step)
      ensures outputBuffer.buffer == old(outputBuffer.buffer) || fresh(outputBuffer.buffer)
    {
      outcome := Appended;
      match step {
        case Establish =>
          if status == Connecting {
            ConnectionEstablished();
          }
        case Send(message, w) => outcome := SendMessage(message, w);
        case QueuedSend(message, w) => outcome := SendInLoop(message, w);
        case Writable(w) => HandleWrite(w);
        case AskShutdown => Shutdown();
        case Close => HandleClose();
        case Destroy => ConnectionDestroyed();
      }
    }
  }
}
