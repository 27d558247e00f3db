/** What the two pollers register, on values: the contract that the classes PollPoller and
    EpollPoller meet, and how far they agree. */
module Registry {
  import opened Prelude

  /** The flags of poll.h, which epoll shares. */
  datatype Flag = POLLIN | POLLPRI | POLLOUT | POLLERR | POLLHUP | POLLNVAL | POLLRDHUP

  type Flags = set<Flag>

  const NONE_EVENT: Flags := {}

  datatype Callback = OnClose | OnError | OnRead | OnWrite

  function OneIf(called: bool, callback: Callback): seq<Callback> {
    if called then [callback] else []
  }

  /** Channel::handleEvent: the callbacks for what poll reported, in the order of the calls. */
  function Dispatch(revents: Flags): seq<Callback> {
    OneIf(POLLHUP in revents && POLLIN !in revents, OnClose)
    + OneIf(POLLERR in revents || POLLNVAL in revents, OnError)
    + OneIf(POLLIN in revents || POLLPRI in revents || POLLRDHUP in revents, OnRead)
    + OneIf(POLLOUT in revents, OnWrite)
  }

  lemma FoldOneIf<S>(f: (S, Callback) -> S, s: S, called: bool, callback: Callback)
    ensures Fold(f, s, OneIf(called, callback)) == if called then f(s, callback) else s
  {
    FoldTwo(f, s, callback, callback);
  }

  /** The dispatch, call by call. */
  lemma DispatchInOrder<S>(f: (S, Callback) -> S, s: S, revents: Flags)
    ensures var s1 := if POLLHUP in revents && POLLIN !in revents then f(s, OnClose) else s;
            var s2 := if POLLERR in revents || POLLNVAL in revents then f(s1, OnError) else s1;
            var s3 := if POLLIN in revents || POLLPRI in revents || POLLRDHUP in revents then f(s2, OnRead) else s2;
            Fold(f, s, Dispatch(revents)) == if POLLOUT in revents then f(s3, OnWrite) else s3
  {
    var close := OneIf(POLLHUP in revents && POLLIN !in revents, OnClose);
    var error := OneIf(POLLERR in revents || POLLNVAL in revents, OnError);
    var read := OneIf(POLLIN in revents || POLLPRI in revents || POLLRDHUP in revents, OnRead);
    var write := OneIf(POLLOUT in revents, OnWrite);
    FoldAppend(f, s, close, error);
    FoldAppend(f, s, close + error, read);
    FoldAppend(f, s, close + error + read, write);
    FoldOneIf(f, s, POLLHUP in revents && POLLIN !in revents, OnClose);
    FoldOneIf(f, Fold(f, s, close), POLLERR in revents || POLLNVAL in revents, OnError);
    FoldOneIf(f, Fold(f, s, close + error), POLLIN in revents || POLLPRI in revents || POLLRDHUP in revents, OnRead);
    FoldOneIf(f, Fold(f, s, close + error + read), POLLOUT in revents, OnWrite);
  }

  /** A slot of PollPoller: the interest written into it, and whether its descriptor has been
      replaced by -fd-1, which makes poll ignore it. */
  datatype Slot = Slot(events: Flags, muted: bool)

  type Slots = map<int, Slot>
  type Kernel = map<int, Flags>

  /** PollPoller::updateChannel: an update with no interest mutes a slot, except the one that
      creates it; nothing un-mutes it. */
  function PollUpdate(r: Slots, fd: int, events: Flags): Slots {
    r[fd := Slot(events, fd in r && (r[fd].muted || events == NONE_EVENT))]
  }

  /** The assertions of PollPoller::removeChannel. */
  predicate PollCanRemove(r: Slots, fd: int) {
    fd in r && r[fd] == Slot(NONE_EVENT, true)
  }

  /** EPOLL_CTL_ADD or EPOLL_CTL_MOD */
  function EpollUpdate(k: Kernel, fd: int, events: Flags): Kernel {
    k[fd := events]
  }

  predicate EpollCanRemove(k: Kernel, fd: int) {
    fd in k && k[fd] == NONE_EVENT
  }

  /** What poll watches for. */
  function Watched(slot: Slot): Flags {
    if slot.muted then NONE_EVENT else slot.events
  }

  datatype Op = Update(fd: int, events: Flags) | Remove(fd: int)

  /** The two pollers, given the same calls; one that PollPoller's assertions reject does not
      happen. */
  datatype Both = Both(poll: Slots, epoll: Kernel)

  function Apply(b: Both, op: Op): Both {
    match op
    case Update(fd, events) => Both(PollUpdate(b.poll, fd, events), EpollUpdate(b.epoll, fd, events))
    case Remove(fd) => if PollCanRemove(b.poll, fd) then Both(b.poll - {fd}, b.epoll - {fd}) else b
  }

  const EMPTY: Both := Both(map[], map[])

  function Trace(ops: seq<Op>): Both {
    Fold(Apply, EMPTY, ops)
  }

  /** The descriptor is registered at position k and stays so to the end. */
  ghost predicate RegisteredSince(ops: seq<Op>, fd: int, k: nat) {
    k <= |ops| && forall i :: k <= i <= |ops| ==> fd in Trace(ops[..i]).poll
  }

  /** The update at position k takes all interest from a registered descriptor, which stays
      registered. */
  ghost predicate DisabledAt(ops: seq<Op>, fd: int, k: nat) {
    k < |ops| && ops[k] == Update(fd, NONE_EVENT) && RegisteredSince(ops, fd, k)
  }

  ghost predicate Disabled(ops: seq<Op>, fd: int) {
    exists k: nat :: DisabledAt(ops, fd, k)
  }

  /** In the middle of a registration, `disabled earlier` carries over to one more call. */
  lemma DisabledEarlier(ops: seq<Op>, fd: int)
    requires ops != [] && fd in Trace(ops).poll
    ensures Disabled(ops, fd) <==>
              && fd in Trace(ops[..|ops| - 1]).poll
              && (Disabled(ops[..|ops| - 1], fd) || ops[|ops| - 1] == Update(fd, NONE_EVENT))
  {
    var n := |ops| - 1;
    var before := ops[..n];
    assert ops[..|ops|] == ops && before[..n] == before;
    forall k: nat | DisabledAt(ops, fd, k)
      ensures fd in Trace(before).poll && (k == n || DisabledAt(before, fd, k))
    {
      assert fd in Trace(ops[..n]).poll;
      forall i | k <= i <= n ensures before[..i] == ops[..i] {
      }
    }
    forall k: nat | DisabledAt(before, fd, k) ensures DisabledAt(ops, fd, k) {
      forall i | k <= i <= |ops| ensures fd in Trace(ops[..i]).poll {
        if i <= n {
          assert before[..i] == ops[..i];
        }
      }
    }
    if fd in Trace(before).poll && ops[n] == Update(fd, NONE_EVENT) {
      assert DisabledAt(ops, fd, n) by {
        forall i | n <= i <= |ops| ensures fd in Trace(ops[..i]).poll {
          assert i == n || i == |ops|;
        }
      }
    }
  }

  /** After any sequence of calls the two pollers have registered the same descriptors with
      the same interest; and a slot is muted exactly if an update took all interest from the
      descriptor at some time since it was registered. */
  lemma {:induction false} SameRegistrations(ops: seq<Op>)
    ensures var b := Trace(ops);
            && b.poll.Keys == b.epoll.Keys
            && (forall fd :: fd in b.poll ==> b.poll[fd].events == b.epoll[fd])
    ensures forall fd :: fd in Trace(ops).poll ==> (Trace(ops).poll[fd].muted <==> Disabled(ops, fd))
    decreases |ops|
  {
    if ops != [] {
      var before, op := ops[..|ops| - 1], ops[|ops| - 1];
      SameRegistrations(before);
      forall fd | fd in Trace(ops).poll ensures Trace(ops).poll[fd].muted <==> Disabled(ops, fd) {
        DisabledEarlier(ops, fd);
      }
    }
  }

  /** An update registers its descriptor with the interest given, or gives it that interest, with
      both pollers, and touches no other; a removal that PollPoller accepts takes just that
      descriptor out of both, and one that it does not accept changes nothing. */
  lemma CallsDoWhatTheySay(ops: seq<Op>, fd: int, events: Flags)
    ensures var b, b' := Trace(ops), Trace(ops + [Update(fd, events)]);
            && fd in b'.poll && b'.poll[fd].events == events && fd in b'.epoll && b'.epoll[fd] == events
            && (forall g :: g != fd ==> (g in b'.poll <==> g in b.poll) && (g in b'.epoll <==> g in b.epoll))
            && (forall g :: g != fd && g in b.poll ==> b'.poll[g] == b.poll[g])
            && (forall g :: g != fd && g in b.epoll ==> b'.epoll[g] == b.epoll[g])
    ensures var b, b' := Trace(ops), Trace(ops + [Remove(fd)]);
            if fd in b.poll && b.poll[fd].events == NONE_EVENT && b.poll[fd].muted
            then b' == Both(b.poll - {fd}, b.epoll - {fd}) else b' == b
  {
    FoldSnoc(Apply, EMPTY, ops, Update(fd, events));
    FoldSnoc(Apply, EMPTY, ops, Remove(fd));
  }

  /** The pollers watch a descriptor for the same events exactly if it was not enabled again
      after an update had taken all its interest. */
  lemma SameInterestIff(ops: seq<Op>, fd: int)
    requires fd in Trace(ops).poll
    ensures fd in Trace(ops).epoll
    ensures Watched(Trace(ops).poll[fd]) == Trace(ops).epoll[fd] <==>
              (Trace(ops).epoll[fd] == NONE_EVENT || !Disabled(ops, fd))
  {
    SameRegistrations(ops);
  }

  /** The pollers accept the same removals, except for a descriptor that never had any
      interest since it was registered with none: there PollPoller's assertion fails. */
  lemma SameRemovalIff(ops: seq<Op>, fd: int)
    ensures PollCanRemove(Trace(ops).poll, fd) ==> EpollCanRemove(Trace(ops).epoll, fd)
    ensures EpollCanRemove(Trace(ops).epoll, fd) ==>
              (PollCanRemove(Trace(ops).poll, fd) <==> Disabled(ops, fd))
  {
    SameRegistrations(ops);
  }

  /** The two calls on which they part. */
  lemma WherePollersPart()
    ensures var b := Trace([Update(3, {POLLIN, POLLPRI}), Update(3, NONE_EVENT), Update(3, {POLLIN, POLLPRI})]);
            Watched(b.poll[3]) == NONE_EVENT && b.epoll[3] == {POLLIN, POLLPRI}
    ensures var b := Trace([Update(3, NONE_EVENT)]); EpollCanRemove(b.epoll, 3) && !PollCanRemove(b.poll, 3)
  {
    var enable := Update(3, {POLLIN, POLLPRI});
    FoldFour(Apply, EMPTY, enable, Update(3, NONE_EVENT), enable, Remove(3));
    FoldTwo(Apply, EMPTY, Update(3, NONE_EVENT), Remove(3));
  }
}
