/** The classes HubServer of net/hub/hub.cc and PubSubClient of net/hub/pubsub.cc, as far as
    they handle messages, proved against Hub and Codec. */
module HubServers {
  import opened Prelude
  import opened Buffers
  import opened Codec
  import opened Hub

  lemma EventsOfSnoc(conn: nat, requests: seq<Request>, r: Request, times: seq<int>)
    ensures EventsOf(conn, requests + [r], times)
            == EventsOf(conn, requests, times) + [Event(conn, r, TimeAt(times, |requests|))]
  {
  }

  lemma RunSnoc(s: State, events: seq<Event>, e: Event)
    ensures Run(s, events + [e]) == Dispatch(Run(s, events), e)
  {
    FoldSnoc(Dispatch, s, events, e);
  }

  /** What is left of the loop of onMessage when the requests `done` have been taken and the
      characters `s` are unread; the loop has ended unless the last result was a success. */
  ghost predicate Remains(reading: Reading, all: Drained, done: seq<Request>, s: seq<char>, last: Parsed) {
    if last.Success? then
      var rest := Drain(reading, s);
      all == Drained(done + rest.requests, rest.rest, rest.last)
    else all == Drained(done, s, last)
  }

  lemma RemainsStart(reading: Reading, s: seq<char>, last: Parsed)
    requires last.Success?
    ensures Remains(reading, Drain(reading, s), [], s, last)
  {
    assert [] + Drain(reading, s).requests == Drain(reading, s).requests;
  }

  lemma RemainsStep(reading: Reading, all: Drained, done: seq<Request>, s: seq<char>, last: Parsed)
    requires last.Success? && Remains(reading, all, done, s, last)
    ensures match Parse(reading, s)
            case Success(request, used) =>
              used <= |s| ==> Remains(reading, all, done + [request], s[used..], Parse(reading, s))
            case p => Remains(reading, all, done, s, p)
  {
    match Parse(reading, s)
    case Success(request, used) =>
      assert done + ([request] + Drain(reading, s[used..]).requests)
          == (done + [request]) + Drain(reading, s[used..]).requests;
    case _ =>
      assert done + [] == done;
  }

  /** One turn of the loop over the audience. */
  lemma SendOneMore(sent: map<nat, string>, audience: set<nat>, left: set<nat>, conn: nat, message: string)
    requires left <= audience && conn in left
    ensures Send(SendAll(sent, audience - left, message), conn, message)
         == SendAll(sent, audience - (left - {conn}), message)
  {
    assert audience - (left - {conn}) == (audience - left) + {conn};
  }

  class HubServer {
    var topics: map<string, Topic>
    var sent: map<nat, string>

    ghost function Snapshot(): State
      reads this
    {
      State(topics, sent)
    }

    constructor ()
      ensures Snapshot() == INITIAL
    {
      topics, sent := map[], map[];
    }

    /** getTopic inserts a topic that is not there. */
    method FindTopic(name: string)
      modifies this`topics
      ensures name in topics && topics == old(topics)[name := GetTopic(old(topics), name)]
    {
      if name !in topics {
        topics := topics[name := Topic(name, 0, "", {})];
      } else {
        assert topics == topics[name := topics[name]];
      }
    }

    method Subscribe(conn: nat, topic: string)
      modifies this
      ensures Snapshot() == DoSubscribe(old(Snapshot()), conn, topic)
    {
      FindTopic(topic);
      topics := topics[topic := topics[topic].(audiences := topics[topic].audiences + {conn})];
      if topics[topic].lastPubTime > 0 {
        sent := Send(sent, conn, MakeMessage(topics[topic]));
      }
    }

    method UnSubscribe(conn: nat, topic: string)
      modifies this
      ensures Snapshot() == DoUnSubscribe(old(Snapshot()), conn, topic)
    {
      FindTopic(topic);
      topics := topics[topic := topics[topic].(audiences := topics[topic].audiences - {conn})];
    }

    /** The loop over the audience; the order of a set of pointers does not matter. */
    method Publish(topic: string, content: string, now: int)
      modifies this
      ensures Snapshot() == DoPublish(old(Snapshot()), topic, content, now)
    {
      FindTopic(topic);
      topics := topics[topic := topics[topic].(content := content, lastPubTime := now)];
      var message := MakeMessage(topics[topic]);
      var audience := topics[topic].audiences;
      var left := audience;
      assert SendAll(sent, {}, message) == sent;
      while left != {}
        invariant left <= audience
        invariant sent == SendAll(old(sent), audience - left, message)
        invariant topics == old(topics)[topic := GetTopic(old(topics), topic).(content := content, lastPubTime := now)]
        decreases left
      {
        var conn :| conn in left;
        SendOneMore(old(sent), audience, left, conn, message);
        sent := Send(sent, conn, message);
        left := left - {conn};
      }
      assert audience - left == audience;
    }

    /** The dispatch of onMessage. */
    method HandleRequest(conn: nat, request: Request, now: int)
      modifies this
      ensures Snapshot() == Dispatch(old(Snapshot()), Event(conn, request, now))
    {
      if request.cmd == "pub" {
        if request.content.Some? {
          Publish(request.topic, request.content.value, now);
        }
      } else if request.cmd == "sub" {
        Subscribe(conn, request.topic);
      } else if request.cmd == "unsub" {
        UnSubscribe(conn, request.topic);
      }
    }

    /** onMessage dispatches the requests of Drain, in order, and leaves its rest unread.  The
        unread characters shrink in every turn. */
    method OnMessage(conn: nat, message: Buffer, times: seq<int>) returns (last: Parsed)
      requires message.Valid()
      modifies this, message`readIndex
      ensures message.Valid()
      ensures var d := Drain(message.reading, old(message.Contents()));
              && last == d.last && message.Contents() == d.rest
              && Snapshot() == Run(old(Snapshot()), EventsOf(conn, d.requests, times))
    {
      ghost var all := Drain(message.reading, message.Contents());
      ghost var done: seq<Request> := [];
      var count := 0;
      last := Success(Request("", "", None), 0);
      RemainsStart(message.reading, message.Contents(), last);
      while last.Success?
        invariant message.Valid() && count == |done|
        invariant Remains(message.reading, all, done, message.Contents(), last)
        invariant Snapshot() == Run(old(Snapshot()), EventsOf(conn, done, times))
        decreases last.Success?, |message.Contents()|
      {
        RemainsStep(message.reading, all, done, message.Contents(), last);
        last := ParseMessage(message);
        if last.Success? {
          EventsOfSnoc(conn, done, last.request, times);
          RunSnoc(old(Snapshot()), EventsOf(conn, done, times), Event(conn, last.request, TimeAt(times, count)));
          HandleRequest(conn, last.request, TimeAt(times, count));
          done := done + [last.request];
          count := count + 1;
        }
      }
    }
  }

  /** The read callback of a connection on the server: readFd, then onMessage.  This is the
      step Serve of the end-to-end theorems, from the server state s; it fails exactly where
      that goes wrong. */
  method HandleRead(server: HubServer, conn: nat, buffer: Buffer, bytes: seq<char>, times: seq<int>, ghost s: Server)
      returns (ok: bool)
    requires buffer.Valid() && buffer.buffer.Length + |bytes| < SIZE_T
    requires |bytes| <= buffer.buffer.Length - buffer.writeIndex + EXTRA_SIZE
    requires !s.wrong && buffer.AsInput() == InputOf(s.inputs, conn) && server.Snapshot() == Run(INITIAL, s.events)
    modifies server, buffer, buffer.buffer
    ensures var s' := Serve(buffer.reading, s, Read(conn, bytes, times));
            && (ok <==> !s'.wrong)
            && (ok ==> buffer.Valid() && buffer.AsInput() == InputOf(s'.inputs, conn)
                       && server.Snapshot() == Run(INITIAL, s'.events))
  {
    ghost var input := buffer.AsInput();
    ReadSucceedsIff(buffer.reading, input, |bytes|);
    var nread, outcome := buffer.ReadFd(Some(bytes));
    if outcome != Appended {
      return false;
    }
    ghost var read := buffer.AsInput();
    ghost var d := Drain(buffer.reading, read.unread);
    FoldAppend(Dispatch, INITIAL, s.events, EventsOf(conn, d.requests, times));
    assert [] + d.requests == d.requests;
    var last := server.OnMessage(conn, buffer, times);
    assert buffer.AsInput() == Retrieved(read, d.rest);
    ok := !last.Undefined?;
  }

  // ---------------------------------------------------------------- the client

  /** The loop of onMessage ends with an error exactly if what it leaves unread begins with a line
      that is complete and has no space. */
  lemma {:induction false} DrainEndsIn(reading: Reading, s: seq<char>)
    ensures var d := Drain(reading, s); d.last == Parse(reading, d.rest) && !d.last.Success?
    ensures var d := Drain(reading, s); d.last.Error? <==> exists i: nat :: LineWithoutSpace(d.rest, i)
    decreases |s|
  {
    match Parse(reading, s)
    case Success(_, used) => DrainEndsIn(reading, s[used..]);
    case _ => ErrorIff(reading, s);
  }

  /** The call of the subscribe callback for one request, if any. */
  function CallFor(r: Request): seq<Command> {
    if r.cmd == "pub" && r.content.Some? then [Codec.Publish(r.topic, r.content.value)] else []
  }

  /** The calls of the subscribe callback for a list of requests. */
  function Callbacks(requests: seq<Request>): seq<Command> {
    FlatMap(CallFor, requests)
  }

  lemma {:induction false} CallbacksOfPublications(cs: seq<Command>)
    requires forall i :: 0 <= i < |cs| ==> cs[i].Publish?
    ensures Callbacks(AsRequests(cs)) == cs
    decreases |cs|
  {
    if cs != [] {
      var n := |cs| - 1;
      CallbacksOfPublications(cs[..n]);
      assert AsRequests(cs)[..n] == AsRequests(cs[..n]);
    }
  }

  lemma {:induction false} DeliveriesArePublications(events: seq<Event>, conn: nat)
    ensures forall i :: 0 <= i < |Deliveries(events, conn)| ==> Deliveries(events, conn)[i].Publish?
    decreases |events|
  {
    if events != [] {
      DeliveriesArePublications(events[..|events| - 1], conn);
    }
  }

  /** The subscribe callback of a client that receives its stream in any pieces is called for
      exactly its deliveries. */
  lemma ClientIsCalledForDeliveries(incoming: seq<Read>, conn: nat, chunks: seq<seq<char>>)
    requires var s := ServeAll(Intended, incoming); Flatten(chunks) == SentTo(Run(INITIAL, s.events).sent, conn)
    ensures Callbacks(ReceiveAll(Intended, chunks).requests) == Deliveries(ServeAll(Intended, incoming).events, conn)
  {
    EndToEndDelivery(incoming, conn, chunks);
    DeliveriesArePublications(ServeAll(Intended, incoming).events, conn);
    CallbacksOfPublications(Deliveries(ServeAll(Intended, incoming).events, conn));
  }

  class PubSubClient {
    var called: seq<Command>
    var shutdownAsked: bool

    constructor ()
      ensures called == [] && !shutdownAsked
    {
      called, shutdownAsked := [], false;
    }

    method Call(request: Request)
      modifies this`called
      ensures called == old(called) + CallFor(request)
    {
      if request.cmd == "pub" && request.content.Some? {
        called := called + [Codec.Publish(request.topic, request.content.value)];
      }
    }

    /** onMessage calls the subscribe callback for the publications among the requests of
        Drain, in order, and asks for shutdown if the loop ends with an error. */
    method OnMessage(buf: Buffer) returns (last: Parsed)
      requires buf.Valid()
      modifies this, buf`readIndex
      ensures buf.Valid()
      ensures var d := Drain(buf.reading, old(buf.Contents()));
              && last == d.last && buf.Contents() == d.rest
              && called == old(called) + Callbacks(d.requests)
              && shutdownAsked == (old(shutdownAsked) || d.last.Error?)
      ensures shutdownAsked <==> old(shutdownAsked) || exists i: nat :: LineWithoutSpace(buf.Contents(), i)
    {
      DrainEndsIn(buf.reading, buf.Contents());
      ghost var all := Drain(buf.reading, buf.Contents());
      ghost var done: seq<Request> := [];
      last := Success(Request("", "", None), 0);
      RemainsStart(buf.reading, buf.Contents(), last);
      while last.Success?
        invariant buf.Valid()
        invariant Remains(buf.reading, all, done, buf.Contents(), last)
        invariant called == old(called) + Callbacks(done)
        invariant shutdownAsked == (old(shutdownAsked) || last.Error?)
        decreases last.Success?, |buf.Contents()|
      {
        RemainsStep(buf.reading, all, done, buf.Contents(), last);
        last := ParseMessage(buf);
        if last.Success? {
          FlatMapSnoc(CallFor, done, last.request);
          Associate(old(called), Callbacks(done), CallFor(last.request));
          Call(last.request);
          done := done + [last.request];
        } else if last.Error? {
          shutdownAsked := true;
        }
      }
    }

    /** The read callback of the client's connection: readFd, then onMessage.  This is the step
        Receive of the theorems about receiving, from what r has received; it fails exactly
        where that goes wrong. */
    method HandleRead(buf: Buffer, bytes: seq<char>, ghost r: Receiver) returns (ok: bool)
      requires buf.Valid() && buf.buffer.Length + |bytes| < SIZE_T
      requires |bytes| <= buf.buffer.Length - buf.writeIndex + EXTRA_SIZE
      requires !r.wrong && buf.AsInput() == r.input && called == Callbacks(r.requests)
      modifies this, buf, buf.buffer
      ensures var r' := Receive(buf.reading, r, bytes);
              && (ok <==> !r'.wrong)
              && (ok ==> buf.Valid() && buf.AsInput() == r'.input && called == Callbacks(r'.requests))
    {
      ReadSucceedsIff(buf.reading, r.input, |bytes|);
      var nread, outcome := buf.ReadFd(Some(bytes));
      if outcome != Appended {
        return false;
      }
      ghost var read := buf.AsInput();
      ghost var d := Drain(buf.reading, read.unread);
      FlatMapAppend(CallFor, r.requests, d.requests);
      var last := OnMessage(buf);
      assert buf.AsInput() == Retrieved(read, d.rest);
      ok := !last.Undefined?;
    }
  }
}
