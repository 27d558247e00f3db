/** The hub server of net/hub/hub.cc: topics, audiences, and what each connection is sent. */
module Hub {
  import opened Prelude
  import opened Buffers
  import opened Codec

  // ---------------------------------------------------------------- the server on values

  /** lastPubTime is 0, the invalid timestamp, until the topic is published. */
  datatype Topic = Topic(name: string, lastPubTime: int, content: string, audiences: set<nat>)

  /** Connections are numbers; `sent` holds what TcpConnection::send was given for each. */
  datatype State = State(topics: map<string, Topic>, sent: map<nat, string>)

  const INITIAL: State := State(map[], map[])

  function SentTo(sent: map<nat, string>, conn: nat): string {
    if conn in sent then sent[conn] else ""
  }

  function Send(sent: map<nat, string>, conn: nat, message: string): map<nat, string> {
    sent[conn := SentTo(sent, conn) + message]
  }

  /** A message to every member of an audience. */
  function SendAll(sent: map<nat, string>, audience: set<nat>, message: string): map<nat, string> {
    map c | c in sent.Keys + audience :: if c in audience then SentTo(sent, c) + message else sent[c]
  }

  /** getTopic: an unknown topic starts with no audience and no publication. */
  function GetTopic(topics: map<string, Topic>, name: string): Topic {
    if name in topics then topics[name] else Topic(name, 0, "", {})
  }

  /** Topic::makeMessage */
  function MakeMessage(t: Topic): string {
    "pub " + t.name + "\r\n" + t.content + "\r\n"
  }

  function DoSubscribe(s: State, conn: nat, topic: string): State {
    var t := GetTopic(s.topics, topic);
    var t' := t.(audiences := t.audiences + {conn});
    State(s.topics[topic := t'], if t'.lastPubTime > 0 then Send(s.sent, conn, MakeMessage(t')) else s.sent)
  }

  function DoUnSubscribe(s: State, conn: nat, topic: string): State {
    var t := GetTopic(s.topics, topic);
    s.(topics := s.topics[topic := t.(audiences := t.audiences - {conn})])
  }

  function DoPublish(s: State, topic: string, content: string, now: int): State {
    var t := GetTopic(s.topics, topic).(content := content, lastPubTime := now);
    State(s.topics[topic := t], SendAll(s.sent, t.audiences, MakeMessage(t)))
  }

  /** A request that onMessage dispatches, with the connection it came from and the clock
      reading for a publication. */
  datatype Event = Event(conn: nat, request: Request, now: int)

  function Dispatch(s: State, e: Event): State {
    if e.request.cmd == "pub" && e.request.content.Some? then
      DoPublish(s, e.request.topic, e.request.content.value, e.now)
    else if e.request.cmd == "sub" then DoSubscribe(s, e.conn, e.request.topic)
    else if e.request.cmd == "unsub" then DoUnSubscribe(s, e.conn, e.request.topic)
    else s
  }

  function Run(s: State, events: seq<Event>): State {
    Fold(Dispatch, s, events)
  }

  // ---------------------------------------------------------------- what delivery means

  predicate IsPub(e: Event, topic: string) {
    e.request.cmd == "pub" && e.request.content.Some? && e.request.topic == topic
  }

  /** Whether the last request of the connection about the topic was sub. */
  predicate Subscribed(events: seq<Event>, conn: nat, topic: string)
    decreases |events|
  {
    events != [] &&
    var e := events[|events| - 1];
    if e.conn == conn && e.request.topic == topic && e.request.cmd == "sub" then true
    else if e.conn == conn && e.request.topic == topic && e.request.cmd == "unsub" then false
    else Subscribed(events[..|events| - 1], conn, topic)
  }

  /** The last publication of the topic, from any connection. */
  function LastPublication(events: seq<Event>, topic: string): (r: Option<Event>)
    ensures r.Some? ==> r.value in events && IsPub(r.value, topic)
    decreases |events|
  {
    if events == [] then None
    else if IsPub(events[|events| - 1], topic) then Some(events[|events| - 1])
    else LastPublication(events[..|events| - 1], topic)
  }

  /** The publications that a connection is to receive for an event: the one just made, if it
      subscribes to the topic; or, if it just subscribed, the last one made before. */
  function Due(before: seq<Event>, e: Event, conn: nat): seq<Command> {
    if IsPub(e, e.request.topic) then
      if Subscribed(before, conn, e.request.topic) then [Publish(e.request.topic, e.request.content.value)] else []
    else if e.request.cmd == "sub" && e.conn == conn then
      match LastPublication(before, e.request.topic)
      case Some(p) => if p.now > 0 then [Publish(p.request.topic, p.request.content.value)] else []
      case None => []
    else []
  }

  function Deliveries(events: seq<Event>, conn: nat): seq<Command>
    decreases |events|
  {
    if events == [] then []
    else
      var before := events[..|events| - 1];
      Deliveries(before, conn) + Due(before, events[|events| - 1], conn)
  }

  // ---------------------------------------------------------------- delivery

  /** The topic's record is what the history says. */
  ghost predicate TopicMatches(t: Topic, events: seq<Event>, name: string) {
    && t.name == name
    && (forall c :: c in t.audiences <==> Subscribed(events, c, name))
    && (match LastPublication(events, name)
        case None => t.lastPubTime == 0
        case Some(p) => t.lastPubTime == p.now && p.request.content.Some? && t.content == p.request.content.value
                        && p.request.topic == name)
  }

  ghost predicate Matches(s: State, events: seq<Event>) {
    && (forall name :: TopicMatches(GetTopic(s.topics, name), events, name))
    && (forall c :: SentTo(s.sent, c) == PrintAll(Deliveries(events, c)))
  }

  lemma TopicAfter(s: State, events: seq<Event>, e: Event, name: string)
    requires TopicMatches(GetTopic(s.topics, name), events, name)
    ensures TopicMatches(GetTopic(Dispatch(s, e).topics, name), events + [e], name)
  {
    var after := events + [e];
    assert after[..|after| - 1] == events && after[|after| - 1] == e;
    assert forall c :: Subscribed(after, c, name) ==
                       if e.conn == c && e.request.topic == name && e.request.cmd == "sub" then true
                       else if e.conn == c && e.request.topic == name && e.request.cmd == "unsub" then false
                       else Subscribed(events, c, name);
    assert LastPublication(after, name) == if IsPub(e, name) then Some(e) else LastPublication(events, name);
  }

  /** What one request adds to the output of a connection. */
  lemma SentByRequest(s: State, events: seq<Event>, e: Event, c: nat)
    requires TopicMatches(GetTopic(s.topics, e.request.topic), events, e.request.topic)
    ensures var due := Due(events, e, c);
            && |due| <= 1
            && SentTo(Dispatch(s, e).sent, c) == SentTo(s.sent, c) + (if due == [] then "" else Print(due[0]))
  {
    var t := GetTopic(s.topics, e.request.topic);
    if IsPub(e, e.request.topic) {
      assert c in t.audiences <==> Subscribed(events, c, e.request.topic);
      assert MakeMessage(t.(content := e.request.content.value)) == Print(Publish(t.name, e.request.content.value));
    } else if e.request.cmd == "sub" {
      assert MakeMessage(t) == Print(Publish(t.name, t.content));
    }
  }

  lemma SentAfter(s: State, events: seq<Event>, e: Event, c: nat)
    requires TopicMatches(GetTopic(s.topics, e.request.topic), events, e.request.topic)
    requires SentTo(s.sent, c) == PrintAll(Deliveries(events, c))
    ensures SentTo(Dispatch(s, e).sent, c) == PrintAll(Deliveries(events + [e], c))
  {
    var after := events + [e];
    assert after[..|after| - 1] == events && after[|after| - 1] == e;
    SentByRequest(s, events, e, c);
    var due := Due(events, e, c);
    if due == [] {
      assert Deliveries(after, c) == Deliveries(events, c);
    } else {
      assert due == [due[0]];
      PrintAllSnoc(Deliveries(events, c), due[0]);
    }
  }

  /** Over any history of requests, what a connection was sent is the printed form of exactly
      its deliveries, in order. */
  lemma {:induction false} RunMatches(events: seq<Event>)
    ensures Matches(Run(INITIAL, events), events)
    decreases |events|
  {
    if events == [] {
      assert PrintAll([]) == "";
    } else {
      var before, e := events[..|events| - 1], events[|events| - 1];
      RunMatches(before);
      assert before + [e] == events;
      var s := Run(INITIAL, before);
      forall name ensures TopicMatches(GetTopic(Dispatch(s, e).topics, name), events, name) {
        TopicAfter(s, before, e, name);
      }
      forall c ensures SentTo(Dispatch(s, e).sent, c) == PrintAll(Deliveries(events, c)) {
        SentAfter(s, before, e, c);
      }
    }
  }

  predicate CleanEvent(e: Event) {
    NoCRLF(e.request.topic) && (e.request.content.Some? ==> NoCRLF(e.request.content.value))
  }

  lemma {:induction false} DeliveriesAreClean(events: seq<Event>, conn: nat)
    requires forall i :: 0 <= i < |events| ==> CleanEvent(events[i])
    ensures AllClean(Deliveries(events, conn))
    decreases |events|
  {
    if events != [] {
      var before, e := events[..|events| - 1], events[|events| - 1];
      DeliveriesAreClean(before, conn);
      assert AllClean(Due(before, e, conn));
    }
  }

  // ---------------------------------------------------------------- from a client's call to the server

  /** What the server makes of the printed form of a command, as it arrives from a connection. */
  function Received(reading: Reading, s: State, conn: nat, c: Command, rest: seq<char>, now: int): State {
    var p := Parse(reading, Print(c) + rest);
    if p.Success? then Dispatch(s, Event(conn, p.request, now)) else s
  }

  /** A client's subscribe adds its connection to the audience of the topic, unsubscribe takes it
      out, and neither touches another topic. */
  lemma SubscribeReachesServer(reading: Reading, s: State, conn: nat, topic: string, rest: seq<char>, now: int)
    requires NoCRLF(topic)
    ensures var s' := Received(reading, s, conn, Subscribe(topic), rest, now);
            && GetTopic(s'.topics, topic).audiences == GetTopic(s.topics, topic).audiences + {conn}
            && (forall other :: other != topic ==> GetTopic(s'.topics, other) == GetTopic(s.topics, other))
    ensures var s' := Received(reading, s, conn, Unsubscribe(topic), rest, now);
            && GetTopic(s'.topics, topic).audiences == GetTopic(s.topics, topic).audiences - {conn}
            && (forall other :: other != topic ==> GetTopic(s'.topics, other) == GetTopic(s.topics, other))
            && s'.sent == s.sent
  {
    PrintParseIff(reading, Subscribe(topic), rest);
    PrintParseIff(reading, Unsubscribe(topic), rest);
  }

  /** A client's publish sends the message, once, to the audience of the topic and to no one else,
      and is what the topic's next subscriber is sent. */
  lemma PublishReachesAudience(reading: Reading, s: State, conn: nat, topic: string, content: string,
                               rest: seq<char>, now: int, c: nat)
    requires NoCRLF(topic) && NoCRLF(content) && GetTopic(s.topics, topic).name == topic
    ensures var s' := Received(reading, s, conn, Publish(topic, content), rest, now);
            var audience := GetTopic(s.topics, topic).audiences;
            && SentTo(s'.sent, c)
               == SentTo(s.sent, c) + (if c in audience then "pub " + topic + "\r\n" + content + "\r\n" else "")
            && GetTopic(s'.topics, topic).content == content && GetTopic(s'.topics, topic).lastPubTime == now
            && GetTopic(s'.topics, topic).audiences == audience
  {
    PrintParseIff(reading, Publish(topic, content), rest);
  }

  // ---------------------------------------------------------------- from bytes to bytes

  /** A read of the server: bytes from a connection, and the clock readings for the requests
      they complete. */
  datatype Read = Read(conn: nat, bytes: seq<char>, times: seq<int>)

  /** The input buffer of each connection, and the history of requests.  `wrong`: a read failed,
      or its receiving loop went wrong, and nothing is known from then on. */
  datatype Server = Server(inputs: map<nat, Input>, events: seq<Event>, wrong: bool)

  function InputOf(inputs: map<nat, Input>, conn: nat): Input {
    if conn in inputs then inputs[conn] else NEW_INPUT
  }

  function TimeAt(times: seq<int>, i: nat): int {
    if i < |times| then times[i] else 1
  }

  function EventsOf(conn: nat, requests: seq<Request>, times: seq<int>): seq<Event> {
    seq(|requests|, i requires 0 <= i < |requests| => Event(conn, requests[i], TimeAt(times, i)))
  }

  /** The receiving side of a connection, from its input buffer on. */
  function ReceiverOf(inputs: map<nat, Input>, conn: nat): Receiver {
    Receiver(InputOf(inputs, conn), [], Continue, false)
  }

  /** The read callback of a connection: readFd, then onMessage. */
  function Serve(reading: Reading, s: Server, r: Read): Server {
    if s.wrong then s
    else
      var after := Receive(reading, ReceiverOf(s.inputs, r.conn), r.bytes);
      Server(s.inputs[r.conn := after.input], s.events + EventsOf(r.conn, after.requests, r.times), after.wrong)
  }

  function Serving(reading: Reading): (Server, Read) -> Server {
    (s, r) => Serve(reading, s, r)
  }

  function ServeAll(reading: Reading, incoming: seq<Read>): Server {
    Fold(Serving(reading), Server(map[], [], false), incoming)
  }

  /** All that a connection sent to the server. */
  function Stream(incoming: seq<Read>, conn: nat): seq<char>
    decreases |incoming|
  {
    if incoming == [] then []
    else
      var r := incoming[|incoming| - 1];
      Stream(incoming[..|incoming| - 1], conn) + if r.conn == conn then r.bytes else []
  }

  function RequestsOf(events: seq<Event>, conn: nat): seq<Request>
    decreases |events|
  {
    if events == [] then []
    else
      var e := events[|events| - 1];
      RequestsOf(events[..|events| - 1], conn) + if e.conn == conn then [e.request] else []
  }

  lemma {:induction false} RequestsOfAppend(
      events: seq<Event>, conn: nat, requests: seq<Request>, times: seq<int>, other: nat)
    ensures RequestsOf(events + EventsOf(conn, requests, times), other)
            == RequestsOf(events, other) + if conn == other then requests else []
    decreases |requests|
  {
    if requests == [] {
      assert events + EventsOf(conn, requests, times) == events;
      assert RequestsOf(events, other) + [] == RequestsOf(events, other);
    } else {
      var n := |requests| - 1;
      RequestsOfAppend(events, conn, requests[..n], times, other);
      var all := events + EventsOf(conn, requests, times);
      assert all[..|all| - 1] == events + EventsOf(conn, requests[..n], times);
      assert all[|all| - 1] == Event(conn, requests[n], TimeAt(times, n));
      assert requests == requests[..n] + [requests[n]];
    }
  }

  lemma {:induction false} DrainedIsClean(s: seq<char>)
    ensures forall i :: 0 <= i < |Drain(Intended, s).requests| ==>
              var r := Drain(Intended, s).requests[i];
              NoCRLF(r.topic) && (r.content.Some? ==> NoCRLF(r.content.value))
    decreases |s|
  {
    if Parse(Intended, s).Success? {
      ParseStable(s, []);
      ParsedIsClean(Intended, s);
      DrainedIsClean(s[Parse(Intended, s).used..]);
    }
  }

  ghost predicate ServerMatches(s: Server, incoming: seq<Read>) {
    && !s.wrong
    && (forall i :: 0 <= i < |s.events| ==> CleanEvent(s.events[i]))
    && (forall c :: InputOf(s.inputs, c).unread == Drain(Intended, Stream(incoming, c)).rest)
    && (forall c :: RequestsOf(s.events, c) == Drain(Intended, Stream(incoming, c)).requests)
  }

  /** A read as it was meant. */
  lemma ServeIntended(s: Server, r: Read)
    requires !s.wrong
    ensures var d := Drain(Intended, InputOf(s.inputs, r.conn).unread + r.bytes);
            var s' := Serve(Intended, s, r);
            && !s'.wrong && InputOf(s'.inputs, r.conn).unread == d.rest
            && (forall c :: c != r.conn ==> InputOf(s'.inputs, c) == InputOf(s.inputs, c))
            && s'.events == s.events + EventsOf(r.conn, d.requests, r.times)
  {
    var input := InputOf(s.inputs, r.conn);
    ReadSucceedsIff(Intended, input, |r.bytes|);
    DrainDefined(input.unread + r.bytes);
    assert [] + Drain(Intended, input.unread + r.bytes).requests == Drain(Intended, input.unread + r.bytes).requests;
  }

  lemma ServedFor(s: Server, all: seq<Read>, c: nat)
    requires all != [] && ServerMatches(s, all[..|all| - 1])
    ensures var s' := Serve(Intended, s, all[|all| - 1]);
            && InputOf(s'.inputs, c).unread == Drain(Intended, Stream(all, c)).rest
            && RequestsOf(s'.events, c) == Drain(Intended, Stream(all, c)).requests
  {
    var incoming, r := all[..|all| - 1], all[|all| - 1];
    var d := Drain(Intended, InputOf(s.inputs, r.conn).unread + r.bytes);
    ServeIntended(s, r);
    RequestsOfAppend(s.events, r.conn, d.requests, r.times, c);
    if c == r.conn {
      DrainSplit(Stream(incoming, c), r.bytes);
    } else {
      assert Stream(all, c) == Stream(incoming, c) + [] == Stream(incoming, c);
    }
  }

  lemma ServeKeepsMatch(s: Server, all: seq<Read>)
    requires all != [] && ServerMatches(s, all[..|all| - 1])
    ensures ServerMatches(Serve(Intended, s, all[|all| - 1]), all)
  {
    var r := all[|all| - 1];
    ServeIntended(s, r);
    DrainedIsClean(InputOf(s.inputs, r.conn).unread + r.bytes);
    forall c
      ensures InputOf(Serve(Intended, s, r).inputs, c).unread == Drain(Intended, Stream(all, c)).rest
      ensures RequestsOf(Serve(Intended, s, r).events, c) == Drain(Intended, Stream(all, c)).requests
    {
      ServedFor(s, all, c);
    }
  }

  lemma NothingServed()
    ensures ServerMatches(ServeAll(Intended, []), [])
  {
    assert FindCRLF([], 0).None?;
  }

  lemma {:induction false} ServeAllMatches(incoming: seq<Read>)
    ensures ServerMatches(ServeAll(Intended, incoming), incoming)
    decreases |incoming|
  {
    if incoming == [] {
      NothingServed();
    } else {
      ServeAllMatches(incoming[..|incoming| - 1]);
      ServeKeepsMatch(ServeAll(Intended, incoming[..|incoming| - 1]), incoming);
    }
  }

  /** Delivery from end to end.  Whatever bytes arrive from whatever connections in whatever
      pieces: the requests dispatched for a connection are those of its stream taken as a
      whole; and a subscriber that receives what it was sent, again in whatever pieces,
      decodes exactly its deliveries, in order, with nothing left unread. */
  lemma EndToEndDelivery(incoming: seq<Read>, conn: nat, chunks: seq<seq<char>>)
    requires var s := ServeAll(Intended, incoming); Flatten(chunks) == SentTo(Run(INITIAL, s.events).sent, conn)
    ensures var s := ServeAll(Intended, incoming);
            && RequestsOf(s.events, conn) == Drain(Intended, Stream(incoming, conn)).requests
            && Results(ReceiveAll(Intended, chunks)) == Drained(AsRequests(Deliveries(s.events, conn)), [], Continue)
  {
    var s := ServeAll(Intended, incoming);
    ServeAllMatches(incoming);
    RunMatches(s.events);
    DeliveriesAreClean(s.events, conn);
    RoundTripIff(Intended, Deliveries(s.events, conn));
    FragmentationIndependence(chunks);
  }

  /** What has been received so far is always a prefix of the deliveries. */
  lemma ReceivedIsPrefix(incoming: seq<Read>, conn: nat, chunks: seq<seq<char>>, missing: seq<char>)
    requires var s := ServeAll(Intended, incoming);
             Flatten(chunks) + missing == SentTo(Run(INITIAL, s.events).sent, conn)
    ensures ReceiveAll(Intended, chunks).requests <= AsRequests(Deliveries(ServeAll(Intended, incoming).events, conn))
  {
    var all := chunks + [missing];
    assert all[..|all| - 1] == chunks;
    EndToEndDelivery(incoming, conn, all);
    FragmentationIndependence(chunks);
  }

  // ---------------------------------------------------------------- the receiving loop as written

  /** The i-th read is too long for the input buffer of its connection, or leaves a partial
      publication unread in it. */
  ghost predicate ServeFails(incoming: seq<Read>, i: nat)
    requires i < |incoming|
  {
    var r := incoming[i];
    || TooLong(InputOf(ServeAll(Intended, incoming[..i]).inputs, r.conn), |r.bytes|)
    || PartialPublication(Drain(Intended, Stream(incoming[..i + 1], r.conn)).rest)
  }

  ghost predicate SomeServeFails(incoming: seq<Read>) {
    exists i: nat :: i < |incoming| && ServeFails(incoming, i)
  }

  lemma ServeFailsInPrefix(incoming: seq<Read>, i: nat)
    requires i < |incoming| - 1
    ensures ServeFails(incoming[..|incoming| - 1], i) == ServeFails(incoming, i)
  {
    var before := incoming[..|incoming| - 1];
    assert before[..i] == incoming[..i] && before[..i + 1] == incoming[..i + 1];
  }

  lemma SomeServeFailsSnoc(incoming: seq<Read>)
    requires incoming != []
    ensures SomeServeFails(incoming) <==>
              SomeServeFails(incoming[..|incoming| - 1]) || ServeFails(incoming, |incoming| - 1)
  {
    var n := |incoming| - 1;
    if i: nat :| i < n && ServeFails(incoming[..n], i) {
      ServeFailsInPrefix(incoming, i);
    }
    if i: nat :| i < n && ServeFails(incoming, i) {
      ServeFailsInPrefix(incoming, i);
    }
  }

  /** One more read, as written. */
  lemma ServeAsWritten(incoming: seq<Read>)
    requires incoming != []
    ensures var n := |incoming| - 1;
            var s := ServeAll(Intended, incoming[..n]);
            && (Serve(AsWritten, s, incoming[n]).wrong <==> ServeFails(incoming, n))
            && (!ServeFails(incoming, n) ==> Serve(AsWritten, s, incoming[n]) == Serve(Intended, s, incoming[n]))
  {
    var n := |incoming| - 1;
    ServeAllMatches(incoming[..n]);
    ServeAllMatches(incoming);
    assert incoming[..n + 1] == incoming;
    var s, r := ServeAll(Intended, incoming[..n]), incoming[n];
    ReceiveAsWritten(ReceiverOf(s.inputs, r.conn), r.bytes);
    assert InputOf(Serve(Intended, s, r).inputs, r.conn)
        == Receive(Intended, ReceiverOf(s.inputs, r.conn), r.bytes).input;
  }

  /** As written, the server goes wrong exactly if some read is too long for the input buffer of
      its connection, or leaves a partial publication unread in it; otherwise it does what is
      meant. */
  lemma {:induction false} ServeAsWrittenIff(incoming: seq<Read>)
    ensures ServeAll(AsWritten, incoming).wrong <==> SomeServeFails(incoming)
    ensures !SomeServeFails(incoming) ==> ServeAll(AsWritten, incoming) == ServeAll(Intended, incoming)
    decreases |incoming|
  {
    if incoming != [] {
      ServeAsWrittenIff(incoming[..|incoming| - 1]);
      SomeServeFailsSnoc(incoming);
      ServeAsWritten(incoming);
    }
  }

  /** So what a subscriber was sent by a server whose reads did not fail, as written, it decodes
      as exactly its deliveries, unless a read of its own fails. */
  lemma EndToEndAsWritten(incoming: seq<Read>, conn: nat, chunks: seq<seq<char>>)
    requires !SomeServeFails(incoming)
    requires var s := ServeAll(AsWritten, incoming); Flatten(chunks) == SentTo(Run(INITIAL, s.events).sent, conn)
    ensures var s := ServeAll(AsWritten, incoming);
            var received := ReceiveAll(AsWritten, chunks);
            && !s.wrong
            && if SomeReadFails(chunks) then received.wrong
               else Results(received) == Drained(AsRequests(Deliveries(s.events, conn)), [], Continue)
  {
    ServeAsWrittenIff(incoming);
    EndToEndDelivery(incoming, conn, chunks);
    FragmentationAsWrittenIff(chunks);
  }
}
