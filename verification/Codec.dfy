/** The publish/subscribe wire format: net/hub/codec.cc and the printers of net/hub/pubsub.cc
    and net/hub/hub.cc. */
module Codec {
  import opened Prelude
  import opened Buffers

  // ---------------------------------------------------------------- the parser

  /** What parseMessage assigns; content is assigned for the command pub only. */
  datatype Request = Request(cmd: string, topic: string, content: Option<string>)

  /** Undefined: a string is assigned from a range that ends at the null pointer. */
  datatype Parsed = Success(request: Request, used: nat) | Continue | Error | Undefined

  /** std::find(peek(), peek() + limit, ' ') */
  function FindSpace(s: seq<char>, limit: nat, start: nat := 0): (i: nat)
    requires start <= limit <= |s|
    ensures start <= i <= limit && (i < limit ==> s[i] == ' ') && forall k :: start <= k < i ==> s[k] != ' '
    decreases limit - start
  {
    if start == limit || s[start] == ' ' then start else FindSpace(s, limit, start + 1)
  }

  /** parseMessage on the unread characters.  Line 31 tests the first CRLF again where the
      second is meant. */
  function Parse(reading: Reading, s: seq<char>): Parsed {
    match FindCRLF(s, 0)
    case None => Continue
    case Some(crlf) =>
      var space := FindSpace(s, crlf);
      if space == crlf then Error
      else
        var cmd, topic := s[..space], s[space + 1..crlf];
        if cmd == "pub" then
          match FindCRLF(s, crlf + 2)
          case Some(second) => Success(Request(cmd, topic, Some(s[crlf + 2..second])), second + 2)
          case None => if reading == AsWritten then Undefined else Continue
        else Success(Request(cmd, topic, None), crlf + 2)
  }

  /** The unread characters begin with a publication whose second line has not ended. */
  predicate PartialPublication(s: seq<char>) {
    && |s| >= 4 && s[..4] == "pub "
    && FindCRLF(s, 0).Some?
    && FindCRLF(s, FindCRLF(s, 0).value + 2).None?
  }

  /** The statement as written goes wrong exactly on a partial publication, and otherwise does
      what is meant. */
  lemma ParseAsWrittenIff(s: seq<char>)
    ensures Parse(AsWritten, s).Undefined? <==> PartialPublication(s)
    ensures !PartialPublication(s) ==> Parse(AsWritten, s) == Parse(Intended, s)
    ensures PartialPublication(s) ==> Parse(Intended, s) == Continue
  {
    match FindCRLF(s, 0)
    case None =>
    case Some(crlf) =>
      var space := FindSpace(s, crlf);
      if PartialPublication(s) {
        assert s[0] == s[..4][0] && s[1] == s[..4][1] && s[2] == s[..4][2] && s[3] == s[..4][3];
        assert space == 3;
        assert s[..space] == "pub";
      } else if space < crlf && s[..space] == "pub" {
        assert s[0] == s[..space][0] && s[1] == s[..space][1] && s[2] == s[..space][2];
        assert s[..4] == "pub ";
      }
  }

  lemma FirstSpace(s: seq<char>, limit: nat, i: nat)
    requires i <= limit <= |s| && (i < limit ==> s[i] == ' ') && forall k :: 0 <= k < i ==> s[k] != ' '
    ensures FindSpace(s, limit) == i
  {
  }

  lemma FirstCRLF(s: seq<char>, start: nat, i: nat)
    requires start <= i && CRLFAt(s, i) && forall k :: start <= k < i ==> !CRLFAt(s, k)
    ensures FindCRLF(s, start) == Some(i)
  {
  }

  // ---------------------------------------------------------------- what the parser's results mean

  /** The first line end at or after `start` is at i. */
  ghost predicate LineEndsAt(s: seq<char>, start: nat, i: nat) {
    start <= i && CRLFAt(s, i) && forall k :: start <= k < i ==> !CRLFAt(s, k)
  }

  /** The first line ends at i, and has no space. */
  ghost predicate LineWithoutSpace(s: seq<char>, i: nat) {
    LineEndsAt(s, 0, i) && forall k :: 0 <= k < i ==> s[k] != ' '
  }

  /** The first line ends at i, and its first space is at k. */
  ghost predicate LineWithSpace(s: seq<char>, i: nat, k: nat) {
    LineEndsAt(s, 0, i) && k < i && s[k] == ' ' && forall j :: 0 <= j < k ==> s[j] != ' '
  }

  lemma ParseWithoutSpace(reading: Reading, s: seq<char>, i: nat)
    requires LineWithoutSpace(s, i)
    ensures Parse(reading, s) == Error
  {
    FirstCRLF(s, 0, i);
    FirstSpace(s, i, i);
  }

  lemma ParseWithSpace(reading: Reading, s: seq<char>, i: nat, k: nat)
    requires LineWithSpace(s, i, k)
    ensures FindCRLF(s, 0) == Some(i) && FindSpace(s, i) == k
    ensures s[..k] != "pub" ==> Parse(reading, s) == Success(Request(s[..k], s[k + 1..i], None), i + 2)
  {
    FirstCRLF(s, 0, i);
    FirstSpace(s, i, k);
  }

  /** parseMessage reports an error exactly for a first line that is complete and has no space. */
  lemma ErrorIff(reading: Reading, s: seq<char>)
    ensures Parse(reading, s).Error? <==> exists i: nat :: LineWithoutSpace(s, i)
  {
    if i: nat :| LineWithoutSpace(s, i) {
      ParseWithoutSpace(reading, s, i);
    }
    if Parse(reading, s).Error? {
      assert LineWithoutSpace(s, FindCRLF(s, 0).value);
    }
  }

  /** It asks for more, with the statement that was meant, exactly if the first line is not
      complete, or is that of a publication and the second is not complete. */
  lemma ContinueIff(s: seq<char>)
    ensures Parse(Intended, s).Continue? <==>
              || (forall i: nat :: !CRLFAt(s, i))
              || (exists i: nat, k: nat ::
                    LineWithSpace(s, i, k) && s[..k] == "pub" && forall j :: i + 2 <= j ==> !CRLFAt(s, j))
  {
    if i: nat, k: nat :| LineWithSpace(s, i, k) && s[..k] == "pub" && forall j :: i + 2 <= j ==> !CRLFAt(s, j) {
      ParseWithSpace(Intended, s, i, k);
      assert FindCRLF(s, i + 2).None?;
    }
    if Parse(Intended, s).Continue? && FindCRLF(s, 0).Some? {
      var i := FindCRLF(s, 0).value;
      assert LineWithSpace(s, i, FindSpace(s, i));
    }
  }

  /** The request of the first line, or of the first two lines for a publication, and the number
      of characters up to the end of them. */
  ghost predicate IsFirstRequest(s: seq<char>, r: Request, used: nat, i: nat, k: nat) {
    && LineWithSpace(s, i, k) && r.cmd == s[..k] && r.topic == s[k + 1..i]
    && if r.cmd == "pub" then
         used >= 2 && LineEndsAt(s, i + 2, used - 2) && r.content == Some(s[i + 2..used - 2])
       else used == i + 2 && r.content == None
  }

  /** It succeeds exactly with the first request and its length. */
  lemma SuccessIff(reading: Reading, s: seq<char>, r: Request, used: nat)
    ensures Parse(reading, s) == Success(r, used) <==> exists i: nat, k: nat :: IsFirstRequest(s, r, used, i, k)
  {
    if i: nat, k: nat :| IsFirstRequest(s, r, used, i, k) {
      ParseWithSpace(reading, s, i, k);
      if r.cmd == "pub" {
        FirstCRLF(s, i + 2, used - 2);
      }
    }
    if Parse(reading, s) == Success(r, used) {
      var i := FindCRLF(s, 0).value;
      assert IsFirstRequest(s, r, used, i, FindSpace(s, i));
    }
  }

  // ---------------------------------------------------------------- more characters

  /** A CRLF once found is found again when more characters arrive. */
  lemma FindStable(s: seq<char>, t: seq<char>, start: nat)
    requires start <= |s| && FindCRLF(s, start).Some?
    ensures FindCRLF(s + t, start) == FindCRLF(s, start)
  {
    var i := FindCRLF(s, start).value;
    forall k | start <= k < i ensures !CRLFAt(s + t, k) {
      assert !CRLFAt(s, k);
    }
    FirstCRLF(s + t, start, i);
  }

  /** Success and error are stable when more characters arrive, and success uses only
      characters that are there, at least the two of a CRLF. */
  lemma ParseStable(s: seq<char>, t: seq<char>)
    ensures Parse(Intended, s).Success? ==>
              Parse(Intended, s + t) == Parse(Intended, s) && 2 <= Parse(Intended, s).used <= |s|
    ensures Parse(Intended, s).Error? ==> Parse(Intended, s + t) == Error
  {
    match FindCRLF(s, 0)
    case None =>
    case Some(crlf) =>
      FindStable(s, t, 0);
      var space := FindSpace(s, crlf);
      FirstSpace(s + t, crlf, space);
      assert (s + t)[..space] == s[..space];
      if space < crlf {
        assert (s + t)[space + 1..crlf] == s[space + 1..crlf];
        if s[..space] == "pub" && FindCRLF(s, crlf + 2).Some? {
          FindStable(s, t, crlf + 2);
          var second := FindCRLF(s, crlf + 2).value;
          assert (s + t)[crlf + 2..second] == s[crlf + 2..second];
        }
      }
  }

  // ---------------------------------------------------------------- the receiving loop

  /** What the loop of onMessage leaves: the requests it dispatched, the unread characters,
      and the result that ended it. */
  datatype Drained = Drained(requests: seq<Request>, rest: seq<char>, last: Parsed)

  /** The loop of onMessage. */
  function Drain(reading: Reading, s: seq<char>): (d: Drained)
    ensures |d.rest| <= |s|
    decreases |s|
  {
    match Parse(reading, s)
    case Success(request, used) =>
      var d := Drain(reading, s[used..]);
      Drained([request] + d.requests, d.rest, d.last)
    case p => Drained([], s, p)
  }

  /** What a connection has received: its input buffer, the requests dispatched so far, and the
      result that ended the last loop.  `wrong`: a read failed, or the loop went wrong, and
      nothing is known from then on. */
  datatype Receiver = Receiver(input: Input, requests: seq<Request>, last: Parsed, wrong: bool)

  const NEW_RECEIVER: Receiver := Receiver(NEW_INPUT, [], Continue, false)

  function Results(r: Receiver): Drained {
    Drained(r.requests, r.input.unread, r.last)
  }

  /** readFd, then onMessage. */
  function Receive(reading: Reading, r: Receiver, bytes: seq<char>): Receiver {
    if r.wrong then r
    else if ReadOutcome(reading, r.input, |bytes|) != Appended then r.(wrong := true)
    else
      var b := AfterRead(reading, r.input, bytes);
      var d := Drain(reading, b.unread);
      Receiver(Retrieved(b, d.rest), r.requests + d.requests, d.last, d.last.Undefined?)
  }

  function ReceiveAll(reading: Reading, chunks: seq<seq<char>>): Receiver
    decreases |chunks|
  {
    if chunks == [] then NEW_RECEIVER
    else Receive(reading, ReceiveAll(reading, chunks[..|chunks| - 1]), chunks[|chunks| - 1])
  }

  function Flatten(chunks: seq<seq<char>>): seq<char>
    decreases |chunks|
  {
    if chunks == [] then [] else Flatten(chunks[..|chunks| - 1]) + chunks[|chunks| - 1]
  }

  lemma DrainAfterSuccess(s: seq<char>, t: seq<char>)
    requires Parse(Intended, s).Success?
    ensures var Success(request, used) := Parse(Intended, s);
            && 2 <= used <= |s|
            && Drain(Intended, s + t) ==
               var d := Drain(Intended, s[used..] + t); d.(requests := [request] + d.requests)
  {
    ParseStable(s, t);
    var used := Parse(Intended, s).used;
    assert (s + t)[used..] == s[used..] + t;
  }

  /** Parsing what is left over together with what arrives next is parsing both together. */
  lemma {:induction false} DrainSplit(s: seq<char>, t: seq<char>)
    ensures var d := Drain(Intended, s);
            var e := Drain(Intended, d.rest + t);
            Drain(Intended, s + t) == Drained(d.requests + e.requests, e.rest, e.last)
    decreases |s|
  {
    match Parse(Intended, s)
    case Success(request, used) =>
      DrainAfterSuccess(s, t);
      DrainSplit(s[used..], t);
      var d := Drain(Intended, s[used..]);
      var e := Drain(Intended, d.rest + t);
      Associate([request], d.requests, e.requests);
    case _ =>
      assert Drain(Intended, s) == Drained([], s, Parse(Intended, s));
      assert [] + Drain(Intended, s + t).requests == Drain(Intended, s + t).requests;
  }

  lemma {:induction false} DrainDefined(s: seq<char>)
    ensures !Drain(Intended, s).last.Undefined? && !Drain(Intended, s).last.Success?
    decreases |s|
  {
    if Parse(Intended, s).Success? {
      ParseStable(s, []);
      DrainDefined(s[Parse(Intended, s).used..]);
    }
  }

  /** Fragmentation independence: however a stream is split into reads, the same requests are
      dispatched and the same characters stay unread as if it arrived at once. */
  lemma {:induction false} FragmentationIndependence(chunks: seq<seq<char>>)
    ensures Results(ReceiveAll(Intended, chunks)) == Drain(Intended, Flatten(chunks))
    ensures !ReceiveAll(Intended, chunks).wrong
    decreases |chunks|
  {
    if chunks == [] {
      assert FindCRLF([], 0).None?;
    } else {
      var before := chunks[..|chunks| - 1];
      FragmentationIndependence(before);
      var r := ReceiveAll(Intended, before);
      ReadSucceedsIff(Intended, r.input, |chunks[|chunks| - 1]|);
      DrainDefined(r.input.unread + chunks[|chunks| - 1]);
      DrainSplit(Flatten(before), chunks[|chunks| - 1]);
    }
  }

  // ---------------------------------------------------------------- the loop as written

  lemma {:induction false} DrainAsWritten(s: seq<char>)
    ensures var d := Drain(Intended, s);
            Drain(AsWritten, s) == if PartialPublication(d.rest) then d.(last := Undefined) else d
    decreases |s|
  {
    ParseAsWrittenIff(s);
    if Parse(Intended, s).Success? {
      ParseStable(s, []);
      DrainAsWritten(s[Parse(Intended, s).used..]);
    }
  }

  /** The i-th read is too long for the input buffer, or leaves a partial publication unread. */
  ghost predicate ReadFails(chunks: seq<seq<char>>, i: nat)
    requires i < |chunks|
  {
    || TooLong(ReceiveAll(Intended, chunks[..i]).input, |chunks[i]|)
    || PartialPublication(Drain(Intended, Flatten(chunks[..i + 1])).rest)
  }

  ghost predicate SomeReadFails(chunks: seq<seq<char>>) {
    exists i: nat :: i < |chunks| && ReadFails(chunks, i)
  }

  lemma SomeReadFailsSnoc(chunks: seq<seq<char>>)
    requires chunks != []
    ensures SomeReadFails(chunks) <==> SomeReadFails(chunks[..|chunks| - 1]) || ReadFails(chunks, |chunks| - 1)
  {
    var n := |chunks| - 1;
    forall i: nat | i < n ensures ReadFails(chunks[..n], i) == ReadFails(chunks, i) {
      assert chunks[..n][..i] == chunks[..i] && chunks[..n][..i + 1] == chunks[..i + 1];
    }
    if i: nat :| i < n && ReadFails(chunks[..n], i) {
      assert ReadFails(chunks, i);
    }
  }

  /** One read, as written, by a connection that has not gone wrong. */
  lemma ReceiveAsWritten(r: Receiver, bytes: seq<char>)
    requires !r.wrong
    ensures var meant := Receive(Intended, r, bytes);
            && (Receive(AsWritten, r, bytes).wrong <==>
                  TooLong(r.input, |bytes|) || PartialPublication(meant.input.unread))
            && (!Receive(AsWritten, r, bytes).wrong ==> Receive(AsWritten, r, bytes) == meant)
  {
    ReadSucceedsIff(AsWritten, r.input, |bytes|);
    ReadSucceedsIff(Intended, r.input, |bytes|);
    if !TooLong(r.input, |bytes|) {
      SameAfterRead(r.input, bytes);
    }
    DrainAsWritten(r.input.unread + bytes);
    DrainDefined(r.input.unread + bytes);
  }

  /** As written, the receiving loop goes wrong exactly if some read is too long for the buffer
      or leaves a partial publication unread; otherwise it, too, is independent of
      fragmentation. */
  lemma {:induction false} FragmentationAsWrittenIff(chunks: seq<seq<char>>)
    ensures ReceiveAll(AsWritten, chunks).wrong <==> SomeReadFails(chunks)
    ensures !SomeReadFails(chunks) ==>
              && ReceiveAll(AsWritten, chunks) == ReceiveAll(Intended, chunks)
              && Results(ReceiveAll(AsWritten, chunks)) == Drain(Intended, Flatten(chunks))
    decreases |chunks|
  {
    FragmentationIndependence(chunks);
    if chunks != [] {
      var n := |chunks| - 1;
      FragmentationAsWrittenIff(chunks[..n]);
      SomeReadFailsSnoc(chunks);
      FragmentationIndependence(chunks[..n]);
      assert chunks[..n + 1] == chunks;
      ReceiveAsWritten(ReceiveAll(Intended, chunks[..n]), chunks[n]);
    }
  }

  /** As written, the very first read of a connection fails exactly if it is longer than the
      initial size or leaves a partial publication; with the intended statements none fails. */
  lemma FirstReadFailsIff(bytes: seq<char>)
    ensures ReceiveAll(AsWritten, [bytes]).wrong <==>
              |bytes| > INITIAL_SIZE || PartialPublication(Drain(Intended, bytes).rest)
    ensures !ReceiveAll(Intended, [bytes]).wrong
  {
    assert [bytes][..0] == [] && NEW_INPUT.unread + bytes == bytes;
    ReceiveAsWritten(NEW_RECEIVER, bytes);
    FragmentationIndependence([bytes]);
    assert Flatten([bytes]) == bytes;
  }

  /** A read of 2000 characters without any line end, which no partial publication is. */
  lemma OverlongReadFails(bytes: seq<char>)
    requires |bytes| == 2000 && forall i :: 0 <= i < |bytes| ==> bytes[i] != '\n'
    ensures ReceiveAll(AsWritten, [bytes]).wrong && !PartialPublication(Drain(Intended, bytes).rest)
  {
    FirstReadFailsIff(bytes);
  }

  // ---------------------------------------------------------------- the printers

  datatype Command = Publish(topic: string, content: string) | Subscribe(topic: string) | Unsubscribe(topic: string)

  /** PubSubClient::publish, subscribe, unSubscribe; Topic::makeMessage prints as publish. */
  function Print(c: Command): string {
    match c
    case Publish(topic, content) => "pub " + topic + "\r\n" + content + "\r\n"
    case Subscribe(topic) => "sub " + topic + "\r\n"
    case Unsubscribe(topic) => "unsub " + topic + "\r\n"
  }

  function PrintAll(cs: seq<Command>): string {
    Flatten(seq(|cs|, i requires 0 <= i < |cs| => Print(cs[i])))
  }

  function Keyword(c: Command): string {
    match c
    case Publish(_, _) => "pub"
    case Subscribe(_) => "sub"
    case Unsubscribe(_) => "unsub"
  }

  /** The request that a command asks for. */
  function AsRequest(c: Command): Request {
    Request(Keyword(c), c.topic, if c.Publish? then Some(c.content) else None)
  }

  function AsRequests(cs: seq<Command>): seq<Request> {
    seq(|cs|, i requires 0 <= i < |cs| => AsRequest(cs[i]))
  }

  predicate NoCRLF(s: seq<char>) {
    forall i :: 0 <= i < |s| ==> !CRLFAt(s, i)
  }

  predicate Clean(c: Command) {
    NoCRLF(c.topic) && (c.Publish? ==> NoCRLF(c.content))
  }

  /** In a line followed by CRLF, the first CRLF is at the end of the line exactly if the line
      contains none; a trailing CR does no harm. */
  lemma EndOfLine(s: seq<char>, start: nat, line: seq<char>)
    requires start + |line| + 2 <= |s| && s[start..start + |line|] == line
    requires s[start + |line|] == '\r' && s[start + |line| + 1] == '\n'
    ensures var r := FindCRLF(s, start);
            r.Some? && r.value <= start + |line| && (r.value == start + |line| <==> NoCRLF(line))
  {
    var end := start + |line|;
    assert forall i :: 0 <= i < |line| ==> s[start + i] == line[i];
    assert CRLFAt(s, end);
    var r := FindCRLF(s, start);
    if r.value < end {
      assert CRLFAt(line, r.value - start);
    }
    forall i | 0 <= i < |line| && CRLFAt(line, i) ensures CRLFAt(s, start + i) {
    }
  }

  function Line(word: string, topic: string, tail: seq<char>): seq<char> {
    word + " " + topic + "\r\n" + tail
  }

  lemma LineLayout(word: string, topic: string, tail: seq<char>)
    ensures var s := Line(word, topic, tail);
            var n := |word|;
            var end := n + 1 + |topic|;
            && |s| == end + 2 + |tail| && s[..n] == word && s[n] == ' ' && s[n + 1..end] == topic
            && s[end] == '\r' && s[end + 1] == '\n' && s[end + 2..] == tail
  {
  }

  function Tail(c: Command, rest: seq<char>): seq<char> {
    if c.Publish? then c.content + "\r\n" + rest else rest
  }

  lemma PrintIsLine(c: Command, rest: seq<char>)
    ensures Print(c) + rest == Line(Keyword(c), c.topic, Tail(c, rest))
  {
    match c
    case Publish(topic, content) =>
      assert "pub " == "pub" + " ";
    case Subscribe(topic) =>
      assert "sub " == "sub" + " ";
    case Unsubscribe(topic) =>
      assert "unsub " == "unsub" + " ";
  }

  /** The first line of a printed command, whatever follows. */
  lemma FirstLine(s: seq<char>, word: string, topic: string, tail: seq<char>)
    requires s == Line(word, topic, tail) && forall k :: 0 <= k < |word| ==> word[k] != ' ' && word[k] != '\r'
    ensures var end := |word| + 1 + |topic|;
            && FindCRLF(s, 0).Some? && |word| < FindCRLF(s, 0).value <= end <= |s|
            && (FindCRLF(s, 0).value == end <==> NoCRLF(topic))
            && FindSpace(s, FindCRLF(s, 0).value) == |word|
  {
    LineLayout(word, topic, tail);
    var n := |word|;
    EndOfLine(s, n + 1, topic);
    var r := FindCRLF(s, n + 1).value;
    forall k | 0 <= k < n ensures s[k] != ' ' && !CRLFAt(s, k) {
      assert s[k] == s[..n][k];
    }
    FirstCRLF(s, 0, r);
    FirstSpace(s, r, n);
  }

  /** What the parser makes of a line. */
  lemma ParseOfLine(reading: Reading, s: seq<char>, word: string, topic: string, tail: seq<char>)
    requires s == Line(word, topic, tail) && forall k :: 0 <= k < |word| ==> word[k] != ' ' && word[k] != '\r'
    ensures FindCRLF(s, 0).Some? && |word| < FindCRLF(s, 0).value <= |word| + 1 + |topic| < |s|
    ensures var crlf := FindCRLF(s, 0).value;
            var line := s[|word| + 1..crlf];
            && |line| <= |topic| && (line == topic <==> NoCRLF(topic))
            && (NoCRLF(topic) ==> crlf == |word| + 1 + |topic|)
            && Parse(reading, s) ==
               if word != "pub" then Success(Request(word, line, None), crlf + 2)
               else match FindCRLF(s, crlf + 2)
                    case Some(second) => Success(Request(word, line, Some(s[crlf + 2..second])), second + 2)
                    case None => if reading == AsWritten then Undefined else Continue
  {
    LineLayout(word, topic, tail);
    FirstLine(s, word, topic, tail);
    var crlf := FindCRLF(s, 0).value;
    var end := |word| + 1 + |topic|;
    assert |s[|word| + 1..crlf]| == crlf - |word| - 1;
    assert s[|word| + 1..end] == topic;
  }

  /** As written, a read that ends after the first line of a publication goes wrong, whatever
      the topic; the loop that was meant waits for the rest. */
  lemma FirstLineAloneGoesWrong(topic: string)
    requires NoCRLF(topic)
    ensures ReceiveAll(AsWritten, [Line("pub", topic, "")]).wrong
    ensures Results(ReceiveAll(Intended, [Line("pub", topic, "")])) == Drained([], Line("pub", topic, ""), Continue)
  {
    var s := Line("pub", topic, "");
    ParseOfLine(AsWritten, s, "pub", topic, "");
    ParseOfLine(Intended, s, "pub", topic, "");
    ParseAsWrittenIff(s);
    FirstReadFailsIff(s);
    FragmentationIndependence([s]);
    assert Flatten([s]) == s;
  }

  lemma ContentLine(s: seq<char>, start: nat, content: string, rest: seq<char>)
    requires start <= |s| && s[start..] == content + "\r\n" + rest
    ensures var r := FindCRLF(s, start);
            && start + |content| + 2 <= |s| && r.Some? && s[start..start + |content|] == content
            && r.value <= start + |content| && (r.value == start + |content| <==> NoCRLF(content))
  {
    var t := s[start..];
    assert s[start..start + |content|] == t[..|content|] == content;
    assert s[start + |content|] == t[|content|] && s[start + |content| + 1] == t[|content| + 1];
    EndOfLine(s, start, content);
  }

  /** The second line of a publication whose topic is clean. */
  lemma SecondLine(s: seq<char>, topic: string, content: string, rest: seq<char>)
    requires s == Line("pub", topic, content + "\r\n" + rest)
    ensures var start := 6 + |topic|;
            var r := FindCRLF(s, start);
            && r.Some? && start <= r.value <= start + |content| && (r.value == start + |content| <==> NoCRLF(content))
            && (s[start..r.value] == content <==> NoCRLF(content))
  {
    LineLayout("pub", topic, content + "\r\n" + rest);
    var start := 6 + |topic|;
    ContentLine(s, start, content, rest);
    assert |s[start..FindCRLF(s, start).value]| == FindCRLF(s, start).value - start;
  }

  lemma PublicationLines(reading: Reading, s: seq<char>, topic: string, content: string, rest: seq<char>)
    requires s == Line("pub", topic, content + "\r\n" + rest)
    ensures var p := Parse(reading, s);
            && (p.Success? && p.request == Request("pub", topic, Some(content)) <==> NoCRLF(topic) && NoCRLF(content))
            && (NoCRLF(topic) && NoCRLF(content) ==> p.used == 8 + |topic| + |content|)
  {
    ParseOfLine(reading, s, "pub", topic, content + "\r\n" + rest);
    if NoCRLF(topic) {
      SecondLine(s, topic, content, rest);
    }
  }

  lemma SubscriptionParseIff(reading: Reading, c: Command, rest: seq<char>)
    requires !c.Publish?
    ensures var p := Parse(reading, Print(c) + rest);
            p.Success? && (p.request == AsRequest(c) <==> Clean(c)) && (Clean(c) ==> p.used == |Print(c)|)
  {
    PrintIsLine(c, rest);
    ParseOfLine(reading, Print(c) + rest, Keyword(c), c.topic, rest);
  }

  lemma PublicationParseIff(reading: Reading, c: Command, rest: seq<char>)
    requires c.Publish?
    ensures var p := Parse(reading, Print(c) + rest);
            (p.Success? && p.request == AsRequest(c) <==> Clean(c)) && (Clean(c) ==> p.used == |Print(c)|)
  {
    PrintIsLine(c, rest);
    PublicationLines(reading, Print(c) + rest, c.topic, c.content, rest);
  }

  /** A printed command is parsed back, whatever follows it and under either reading, exactly
      if neither its topic nor its content contains CRLF. */
  lemma PrintParseIff(reading: Reading, c: Command, rest: seq<char>)
    ensures var p := Parse(reading, Print(c) + rest);
            (p.Success? && p.request == AsRequest(c) <==> Clean(c)) && (Clean(c) ==> p.used == |Print(c)|)
  {
    if c.Publish? {
      PublicationParseIff(reading, c, rest);
    } else {
      SubscriptionParseIff(reading, c, rest);
    }
  }

  lemma {:induction false} FlattenCons(first: seq<char>, more: seq<seq<char>>)
    ensures Flatten([first] + more) == first + Flatten(more)
    decreases |more|
  {
    var all := [first] + more;
    if more == [] {
      assert all[..0] == [] && Flatten(all[..0]) == [];
    } else {
      var n := |more| - 1;
      FlattenCons(first, more[..n]);
      assert all[..|all| - 1] == [first] + more[..n];
    }
  }

  lemma PrintAllCons(cs: seq<Command>)
    requires cs != []
    ensures PrintAll(cs) == Print(cs[0]) + PrintAll(cs[1..])
  {
    var prints := seq(|cs|, i requires 0 <= i < |cs| => Print(cs[i]));
    FlattenCons(prints[0], prints[1..]);
    assert prints == [prints[0]] + prints[1..];
    assert prints[1..] == seq(|cs[1..]|, i requires 0 <= i < |cs[1..]| => Print(cs[1..][i]));
  }

  lemma PrintAllSnoc(cs: seq<Command>, c: Command)
    ensures PrintAll(cs + [c]) == PrintAll(cs) + Print(c)
  {
    var all := cs + [c];
    var prints := seq(|all|, i requires 0 <= i < |all| => Print(all[i]));
    assert prints[..|cs|] == seq(|cs|, i requires 0 <= i < |cs| => Print(cs[i]));
  }

  lemma DrainFirst(reading: Reading, first: seq<char>, rest: seq<char>, request: Request)
    requires first != [] && Parse(reading, first + rest) == Success(request, |first|)
    ensures var d := Drain(reading, rest);
            Drain(reading, first + rest) == Drained([request] + d.requests, d.rest, d.last)
  {
    assert (first + rest)[|first|..] == rest;
  }

  lemma DrainFirstIs(reading: Reading, s: seq<char>)
    ensures Drain(reading, s).requests != [] <==> Parse(reading, s).Success?
    ensures Parse(reading, s).Success? ==> Drain(reading, s).requests[0] == Parse(reading, s).request
  {
  }

  lemma AsRequestsCons(cs: seq<Command>)
    requires cs != []
    ensures AsRequests(cs) == [AsRequest(cs[0])] + AsRequests(cs[1..])
  {
  }

  lemma SameTails<T>(x: T, ys: seq<T>, zs: seq<T>)
    ensures [x] + ys == [x] + zs <==> ys == zs
  {
    assert ([x] + ys)[1..] == ys && ([x] + zs)[1..] == zs;
  }

  lemma RoundTripClean(reading: Reading, cs: seq<Command>)
    requires cs != [] && Clean(cs[0])
    ensures var d := Drain(reading, PrintAll(cs[1..]));
            && Drain(reading, PrintAll(cs)) == Drained([AsRequest(cs[0])] + d.requests, d.rest, d.last)
            && (Drain(reading, PrintAll(cs)).requests == AsRequests(cs) <==> d.requests == AsRequests(cs[1..]))
  {
    var rest := PrintAll(cs[1..]);
    PrintAllCons(cs);
    PrintParseIff(reading, cs[0], rest);
    DrainFirst(reading, Print(cs[0]), rest, AsRequest(cs[0]));
    AsRequestsCons(cs);
    SameTails(AsRequest(cs[0]), Drain(reading, rest).requests, AsRequests(cs[1..]));
  }

  lemma RoundTripDirty(reading: Reading, cs: seq<Command>)
    requires cs != [] && !Clean(cs[0])
    ensures Drain(reading, PrintAll(cs)).requests != AsRequests(cs)
  {
    var rest := PrintAll(cs[1..]);
    PrintAllCons(cs);
    PrintParseIff(reading, cs[0], rest);
    DrainFirstIs(reading, PrintAll(cs));
    AsRequestsCons(cs);
  }

  predicate AllClean(cs: seq<Command>) {
    forall i :: 0 <= i < |cs| ==> Clean(cs[i])
  }

  /** Round trip over streams: the printed forms of a list of commands, one after the other,
      are received as exactly that list, with nothing left unread, if and only if no topic
      and no content contains CRLF. */
  lemma {:induction false} RoundTripIff(reading: Reading, cs: seq<Command>)
    ensures Drain(reading, PrintAll(cs)).requests == AsRequests(cs) <==> AllClean(cs)
    ensures AllClean(cs) ==> Drain(reading, PrintAll(cs)) == Drained(AsRequests(cs), [], Continue)
    decreases |cs|
  {
    if cs == [] {
      assert FindCRLF([], 0).None?;
    } else if Clean(cs[0]) {
      RoundTripClean(reading, cs);
      RoundTripIff(reading, cs[1..]);
      AsRequestsCons(cs);
      assert AllClean(cs) <==> AllClean(cs[1..]) by {
        assert forall i :: 1 <= i < |cs| ==> cs[i] == cs[1..][i - 1];
      }
    } else {
      RoundTripDirty(reading, cs);
    }
  }

  lemma SliceHasNone(s: seq<char>, start: nat, i: nat, j: nat)
    requires start <= i <= j <= |s| && forall k :: start <= k < j ==> !CRLFAt(s, k)
    ensures NoCRLF(s[i..j])
  {
    forall k | 0 <= k < j - i ensures !CRLFAt(s[i..j], k) {
      assert !CRLFAt(s, i + k);
    }
  }

  /** The strings that the parser delivers contain no CRLF themselves. */
  lemma ParsedIsClean(reading: Reading, s: seq<char>)
    requires Parse(reading, s).Success?
    ensures var r := Parse(reading, s).request;
            NoCRLF(r.topic) && (r.content.Some? ==> NoCRLF(r.content.value)) && (r.cmd == "pub" <==> r.content.Some?)
  {
    var crlf := FindCRLF(s, 0).value;
    var space := FindSpace(s, crlf);
    SliceHasNone(s, 0, space + 1, crlf);
    if s[..space] == "pub" {
      SliceHasNone(s, crlf + 2, crlf + 2, FindCRLF(s, crlf + 2).value);
    }
  }

  // ---------------------------------------------------------------- the parser on the buffer

  /** parseMessage: the out-parameters are in the result; the characters used are retrieved. */
  method ParseMessage(message: Buffer) returns (result: Parsed)
    requires message.Valid()
    modifies message`readIndex
    ensures result == Parse(message.reading, old(message.Contents()))
    ensures message.Valid()
    ensures result.Success? ==> 2 <= result.used <= |old(message.Contents())|
    ensures message.Contents() == old(message.Contents())[if result.Success? then result.used else 0..]
  {
    var unread := message.buffer[message.readIndex..message.writeIndex];
    var crlf := message.FindCRLFFrom(0);
    if crlf.None? {
      return Continue;
    }
    var space := FindSpace(unread, crlf.value);
    if space == crlf.value {
      return Error;
    }
    var cmd, topic := unread[..space], unread[space + 1..crlf.value];
    if cmd == "pub" {
      var second := message.FindCRLFFrom(crlf.value + 2);
      if second.None? {
        return if message.reading == AsWritten then Undefined else Continue;
      }
      result := Success(Request(cmd, topic, Some(unread[crlf.value + 2..second.value])), second.value + 2);
    } else {
      result := Success(Request(cmd, topic, None), crlf.value + 2);
    }
    message.Retrieve(result.used);
  }
}
