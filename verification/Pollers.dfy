/** The classes Channel (net/Channel.h), PollPoller (net/poller/PollPoller.cc) and EpollPoller
    (net/poller/EpollPoller.cc), proved against Registry. */
module Pollers {
  import opened Prelude
  import opened Registry

  /** A channel that a poller has not seen has index -1. */
  class Channel {
    const fd: nat
    var events: Flags
    var revents: Flags
    var index: int

    constructor (fd: nat)
      ensures this.fd == fd && events == NONE_EVENT && index == -1
    {
      this.fd := fd;
      events, revents, index := NONE_EVENT, {}, -1;
    }
  }

  // ---------------------------------------------------------------- slots

  /** A pollfd; a muted one holds -fd-1, which is negative. */
  datatype PollFd = PollFd(fd: int, events: Flags, revents: Flags)

  function Mute(fd: int): int {
    -fd - 1
  }

  /** The descriptor that a slot belongs to. */
  function Owner(slot: PollFd): int {
    if slot.fd < 0 then Mute(slot.fd) else slot.fd
  }

  /** The slots on which poll reported something, in order. */
  function Ready(slots: seq<PollFd>): seq<PollFd>
    decreases |slots|
  {
    if slots == [] then []
    else Ready(slots[..|slots| - 1]) + if slots[|slots| - 1].revents != {} then [slots[|slots| - 1]] else []
  }

  /** Once as many ready slots have been seen as there are, no later slot is ready. */
  lemma {:induction false} ReadyComplete(slots: seq<PollFd>, i: nat)
    requires i <= |slots|
    ensures Ready(slots[..i]) <= Ready(slots)
    decreases |slots|
  {
    if i == |slots| {
      assert slots[..i] == slots;
    } else {
      var n := |slots| - 1;
      assert slots[..n][..i] == slots[..i];
      ReadyComplete(slots[..n], i);
    }
  }

  lemma ReadyTurn(slots: seq<PollFd>, i: nat)
    requires i < |slots|
    ensures Ready(slots[..i + 1]) == Ready(slots[..i]) + if slots[i].revents != {} then [slots[i]] else []
    ensures Ready(slots[..i + 1]) <= Ready(slots)
    ensures slots[i].revents != {} ==>
              |Ready(slots[..i])| < |Ready(slots)| && slots[i] == Ready(slots)[|Ready(slots[..i])|]
  {
    assert slots[..i + 1][..i] == slots[..i];
    ReadyComplete(slots, i + 1);
  }

  lemma {:induction false} ReadyAreSlots(slots: seq<PollFd>)
    ensures forall r :: r in Ready(slots) <==> r in slots && r.revents != {}
    decreases |slots|
  {
    if slots != [] {
      var n := |slots| - 1;
      ReadyAreSlots(slots[..n]);
      assert slots == slots[..n] + [slots[n]];
    }
  }

  /** Slots of different descriptors are reported once each. */
  lemma {:induction false} ReadyOnce(slots: seq<PollFd>)
    requires forall i, j :: 0 <= i < j < |slots| ==> slots[i].fd != slots[j].fd
    ensures forall i, j :: 0 <= i < j < |Ready(slots)| ==> Ready(slots)[i].fd != Ready(slots)[j].fd
    decreases |slots|
  {
    if slots != [] {
      var n := |slots| - 1;
      ReadyOnce(slots[..n]);
      ReadyAreSlots(slots[..n]);
      forall i | 0 <= i < |Ready(slots[..n])| ensures Ready(slots[..n])[i].fd != slots[n].fd {
        assert Ready(slots[..n])[i] in slots[..n];
      }
    }
  }

  // ---------------------------------------------------------------- slots and indexes

  /** Registered descriptors, the indexes of their channels and the slots are in one-to-one
      correspondence. */
  predicate Bijection(slots: seq<PollFd>, index: map<int, int>) {
    && (forall fd :: fd in index ==> fd >= 0 && 0 <= index[fd] < |slots| && Owner(slots[index[fd]]) == fd)
    && (forall i :: 0 <= i < |slots| ==> Owner(slots[i]) in index && index[Owner(slots[i])] == i)
  }

  function SlotsOf(slots: seq<PollFd>, index: map<int, int>): Slots
    requires Bijection(slots, index)
  {
    map fd | fd in index :: Slot(slots[index[fd]].events, slots[index[fd]].fd < 0)
  }

  /** push_back of a pollfd for a new descriptor. */
  lemma PushBack(slots: seq<PollFd>, index: map<int, int>, fd: int, events: Flags)
    requires Bijection(slots, index) && fd !in index && fd >= 0
    ensures var slots' := slots + [PollFd(fd, events, {})];
            var index' := index[fd := |slots|];
            Bijection(slots', index') && SlotsOf(slots', index') == PollUpdate(SlotsOf(slots, index), fd, events)
  {
    var slots' := slots + [PollFd(fd, events, {})];
    var index' := index[fd := |slots|];
    assert slots'[index'[fd]] == PollFd(fd, events, {});
    assert forall g :: g in index ==> index'[g] == index[g] && slots'[index'[g]] == slots[index[g]];
    assert Bijection(slots', index');
    assert SlotsOf(slots', index') == PollUpdate(SlotsOf(slots, index), fd, events);
  }

  /** pollfds_[idx] for a channel with new interest. */
  function Changed(slot: PollFd, fd: int, events: Flags): PollFd {
    PollFd(if events == NONE_EVENT then Mute(fd) else slot.fd, events, {})
  }

  lemma ChangeSlot(slots: seq<PollFd>, index: map<int, int>, fd: int, events: Flags)
    requires Bijection(slots, index) && fd in index
    ensures var slots' := slots[index[fd] := Changed(slots[index[fd]], fd, events)];
            Bijection(slots', index) && SlotsOf(slots', index) == PollUpdate(SlotsOf(slots, index), fd, events)
  {
    var slots' := slots[index[fd] := Changed(slots[index[fd]], fd, events)];
    assert forall i :: 0 <= i < |slots| ==> Owner(slots'[i]) == Owner(slots[i]);
    assert forall g :: g in index && g != fd ==> index[g] != index[fd];
    assert Bijection(slots', index);
    var r, r' := SlotsOf(slots, index), SlotsOf(slots', index);
    assert r'[fd] == Slot(events, r[fd].muted || events == NONE_EVENT);
    assert forall g :: g in index && g != fd ==> r'[g] == r[g];
    assert r' == r[fd := r'[fd]];
  }

  /** Exchanges slot i with the last one and drops it. */
  function SwapRemoved(slots: seq<PollFd>, i: nat): seq<PollFd>
    requires i < |slots|
  {
    if i == |slots| - 1 then slots[..i]
    else slots[i := slots[|slots| - 1]][|slots| - 1 := slots[i]][..|slots| - 1]
  }

  /** The index of the channel whose slot has moved. */
  function IndexMoved(slots: seq<PollFd>, index: map<int, int>, i: nat, fd: int): map<int, int>
    requires i < |slots|
  {
    if i == |slots| - 1 then index - {fd} else (index - {fd})[Owner(slots[|slots| - 1]) := i]
  }

  /** Swap-removal keeps the correspondence, and every other registration. */
  lemma SwapRemoveKeeps(slots: seq<PollFd>, index: map<int, int>, fd: int)
    requires Bijection(slots, index) && fd in index
    ensures var slots' := SwapRemoved(slots, index[fd]);
            var index' := IndexMoved(slots, index, index[fd], fd);
            Bijection(slots', index') && SlotsOf(slots', index') == SlotsOf(slots, index) - {fd}
  {
    var i, last := index[fd], |slots| - 1;
    var slots' := SwapRemoved(slots, i);
    var index' := IndexMoved(slots, index, i, fd);
    forall g | g in index && g != fd
      ensures g in index' && 0 <= index'[g] < last && slots'[index'[g]] == slots[index[g]]
    {
      assert Owner(slots[index[g]]) == g;
    }
    assert index'.Keys == index.Keys - {fd};
    forall j | 0 <= j < last ensures Owner(slots'[j]) in index' && index'[Owner(slots'[j])] == j {
      assert slots'[j] == if j == i then slots[last] else slots[j];
    }
    assert Bijection(slots', index');
  }

  // ---------------------------------------------------------------- PollPoller

  class PollPoller {
    var pollfds: seq<PollFd>
    var channels: map<int, Channel>
    /** the calls so far */
    ghost var trace: seq<Op>

    ghost function Indexes(): map<int, int>
      reads this, channels.Values
    {
      map fd | fd in channels :: channels[fd].index
    }

    ghost predicate Valid()
      reads this, channels.Values
    {
      && (forall fd :: fd in channels ==> channels[fd].fd == fd)
      && Bijection(pollfds, Indexes())
    }

    ghost function Registered(): Slots
      requires Valid()
      reads this, channels.Values
    {
      SlotsOf(pollfds, Indexes())
    }

    /** The slots are what the calls so far lead to. */
    ghost predicate Follows()
      requires Valid()
      reads this, channels.Values
    {
      Registered() == Trace(trace).poll
    }

    /** Then a slot is muted exactly if an update took all interest since it was registered. */
    lemma MutedIffDisabled(fd: int)
      requires Valid() && Follows() && fd in channels
      ensures fd in Registered() && (Registered()[fd].muted <==> Disabled(trace, fd))
    {
      SameRegistrations(trace);
      assert fd in Indexes();
    }

    /** The slots hold the interest of their channels, but for the channel being updated. */
    ghost predicate InSyncExcept(ch: Channel?)
      requires Valid()
      reads this, channels.Values
    {
      InSyncWith(Registered(), ch)
    }

    ghost predicate InSyncWith(slots: Slots, ch: Channel?)
      reads this, channels.Values
    {
      forall fd :: fd in channels && channels[fd] != ch ==> fd in slots && slots[fd].events == channels[fd].events
    }

    constructor ()
      ensures Valid() && Follows() && InSyncExcept(null) && Registered() == map[] && trace == []
    {
      pollfds, channels, trace := [], map[], [];
    }

    /** The channel is either new to the poller, or registered with it. */
    ghost predicate Known(ch: Channel)
      reads this, ch
    {
      if ch.index == -1 then ch.fd !in channels else ch.fd in channels && channels[ch.fd] == ch
    }

    /** set_index on a channel of the map. */
    method SetIndex(ch: Channel, index: int)
      requires ch.fd in channels && channels[ch.fd] == ch && forall fd :: fd in channels ==> channels[fd].fd == fd
      modifies ch`index
      ensures Indexes() == old(Indexes())[ch.fd := index] && ch.index == index
    {
      ch.index := index;
      assert forall fd :: fd in channels && fd != ch.fd ==> channels[fd] != ch;
    }

    /** The branch of updateChannel for a new channel. */
    method AddSlot(ch: Channel)
      requires ch.fd !in channels && forall fd :: fd in channels ==> channels[fd].fd == fd
      modifies this, ch`index
      ensures trace == old(trace)
      ensures channels == old(channels)[ch.fd := ch]
      ensures pollfds == old(pollfds) + [PollFd(ch.fd, ch.events, {})]
      ensures Indexes() == old(Indexes())[ch.fd := |old(pollfds)|]
    {
      ghost var index := Indexes();
      channels := channels[ch.fd := ch];
      assert Indexes() - {ch.fd} == index;
      pollfds := pollfds + [PollFd(ch.fd, ch.events, {})];
      SetIndex(ch, |pollfds| - 1);
      assert Indexes() == index[ch.fd := |pollfds| - 1];
    }

    /** The branch for one that is registered. */
    method WriteSlot(ch: Channel)
      requires 0 <= ch.index < |pollfds| && Owner(pollfds[ch.index]) == ch.fd
      modifies this`pollfds
      ensures pollfds == old(pollfds)[ch.index := Changed(old(pollfds)[ch.index], ch.fd, ch.events)]
    {
      var idx := ch.index;
      assert pollfds[idx].fd == ch.fd || pollfds[idx].fd == Mute(ch.fd);
      pollfds := pollfds[idx := pollfds[idx].(events := ch.events, revents := {})];
      if ch.events == NONE_EVENT {
        pollfds := pollfds[idx := pollfds[idx].(fd := Mute(ch.fd))];
      }
    }

    method AddChannel(ch: Channel)
      requires Valid() && ch.fd !in channels && InSyncExcept(ch)
      modifies this, ch`index
      ensures trace == old(trace)
      ensures Valid() && Registered() == PollUpdate(old(Registered()), ch.fd, ch.events)
      ensures InSyncWith(PollUpdate(old(Registered()), ch.fd, ch.events), null)
      ensures channels == old(channels)[ch.fd := ch]
    {
      PushBack(pollfds, Indexes(), ch.fd, ch.events);
      AddSlot(ch);
    }

    method WriteSlotOf(ch: Channel)
      requires Valid() && ch.fd in channels && channels[ch.fd] == ch
      modifies this`pollfds
      ensures Valid() && Registered() == PollUpdate(old(Registered()), ch.fd, ch.events)
    {
      ChangeSlot(pollfds, Indexes(), ch.fd, ch.events);
      assert Indexes()[ch.fd] == ch.index;
      WriteSlot(ch);
    }

    method ChangeChannel(ch: Channel)
      requires Valid() && ch.fd in channels && channels[ch.fd] == ch && InSyncExcept(ch)
      modifies this`pollfds
      ensures Valid() && Registered() == PollUpdate(old(Registered()), ch.fd, ch.events)
      ensures InSyncWith(PollUpdate(old(Registered()), ch.fd, ch.events), null)
      ensures channels == old(channels)[ch.fd := ch]
    {
      assert InSyncWith(PollUpdate(Registered(), ch.fd, ch.events), null);
      assert channels == channels[ch.fd := ch];
      WriteSlotOf(ch);
    }

    method UpdateChannel(ch: Channel)
      requires Valid() && Known(ch) && InSyncExcept(ch)
      modifies this, ch`index
      ensures Valid() && Registered() == PollUpdate(old(Registered()), ch.fd, ch.events)
      ensures InSyncExcept(null)
      ensures channels == old(channels)[ch.fd := ch]
      ensures trace == old(trace) + [Update(ch.fd, ch.events)] && (old(Follows()) ==> Follows())
    {
      AddOrChange(ch);
      Note(Update(ch.fd, ch.events));
    }

    /** The branches of updateChannel. */
    method AddOrChange(ch: Channel)
      requires Valid() && Known(ch) && InSyncExcept(ch)
      modifies this, ch`index
      ensures trace == old(trace)
      ensures Valid() && Registered() == PollUpdate(old(Registered()), ch.fd, ch.events)
      ensures InSyncExcept(null)
      ensures channels == old(channels)[ch.fd := ch]
    {
      if ch.index == -1 {
        AddChannel(ch);
      } else {
        ChangeChannel(ch);
      }
    }

    ghost method Note(op: Op)
      requires Valid() && InSyncExcept(null)
      modifies this`trace
      ensures Valid() && InSyncExcept(null) && Registered() == old(Registered())
      ensures trace == old(trace) + [op] && Trace(trace) == Apply(Trace(old(trace)), op)
    {
      FoldSnoc(Apply, EMPTY, trace, op);
      trace := trace + [op];
    }

    /** The channel keeps its index, so that the poller takes it for a registered one should
        it ever be updated again. */
    method RemoveChannel(ch: Channel)
      requires Valid() && InSyncExcept(null)
      requires ch.fd in channels && channels[ch.fd] == ch && PollCanRemove(Registered(), ch.fd)
      modifies this, set fd | fd in channels :: channels[fd]`index
      ensures Valid() && InSyncExcept(null)
      ensures channels == old(channels) - {ch.fd} && Registered() == old(Registered()) - {ch.fd}
      ensures ch.index == old(ch.index) && !Known(ch)
      ensures trace == old(trace) + [Remove(ch.fd)] && (old(Follows()) ==> Follows())
    {
      Deregister(ch);
      Note(Remove(ch.fd));
    }

    method Deregister(ch: Channel)
      requires Valid() && InSyncExcept(null)
      requires ch.fd in channels && channels[ch.fd] == ch && PollCanRemove(Registered(), ch.fd)
      modifies this, set fd | fd in channels :: channels[fd]`index
      ensures trace == old(trace)
      ensures Valid() && InSyncExcept(null)
      ensures channels == old(channels) - {ch.fd} && Registered() == old(Registered()) - {ch.fd}
      ensures ch.index == old(ch.index) && !Known(ch)
    {
      ghost var index := Indexes();
      SwapRemoveKeeps(pollfds, index, ch.fd);
      assert index[ch.fd] == ch.index;
      RemoveSlot(ch);
    }

    /** The slot at the end moves to i, and its channel is told. */
    method MoveLast(i: nat, last: Channel)
      requires i < |pollfds| - 1 && last.fd in channels && channels[last.fd] == last
      requires forall fd :: fd in channels ==> channels[fd].fd == fd
      modifies this`pollfds, last`index
      ensures pollfds == SwapRemoved(old(pollfds), i)
      ensures Indexes() == old(Indexes())[last.fd := i]
    {
      var back := |pollfds| - 1;
      pollfds := pollfds[i := pollfds[back]][back := pollfds[i]];
      SetIndex(last, i);
      pollfds := pollfds[..back];
    }

    /** The assertions of removeChannel, and its assignments. */
    method RemoveSlot(ch: Channel)
      requires Valid() && ch.fd in channels && channels[ch.fd] == ch && ch.events == NONE_EVENT
      requires PollCanRemove(Registered(), ch.fd)
      modifies this, set fd | fd in channels :: channels[fd]`index
      ensures trace == old(trace)
      ensures channels == old(channels) - {ch.fd} && ch.index == old(ch.index) && 0 <= ch.index < |old(pollfds)|
      ensures pollfds == SwapRemoved(old(pollfds), ch.index)
      ensures Indexes() == IndexMoved(old(pollfds), old(Indexes()), ch.index, ch.fd)
    {
      ghost var index := Indexes();
      var i := ch.index;
      assert i == index[ch.fd] && 0 <= i < |pollfds|;
      assert pollfds[i].fd == Mute(ch.fd) && pollfds[i].events == ch.events;
      var last := |pollfds| - 1;
      var channelAtEnd := pollfds[last].fd;
      if channelAtEnd < 0 {
        channelAtEnd := -channelAtEnd - 1;
      }
      assert channelAtEnd in index && index[channelAtEnd] == last;
      channels := channels - {ch.fd};
      assert Indexes() == index - {ch.fd};
      if i == last {
        pollfds := pollfds[..last];
      } else {
        MoveLast(i, channels[channelAtEnd]);
      }
    }

    /** poll has returned `numEvents`, the number of slots with something to report; it
        reports nothing for a negative descriptor.  The scan stops at that count and has then
        found every ready channel, each once, in the order of the slots. */
    method FillActiveChannels(numEvents: nat) returns (active: seq<Channel>)
      requires Valid() && numEvents == |Ready(pollfds)|
      requires forall i :: 0 <= i < |pollfds| && pollfds[i].fd < 0 ==> pollfds[i].revents == {}
      modifies set fd | fd in channels :: channels[fd]`revents
      ensures |active| == |Ready(pollfds)| && Reported(active)
      ensures forall i, j :: 0 <= i < j < |active| ==> active[i] != active[j]
      ensures forall i :: 0 <= i < |pollfds| && pollfds[i].revents != {} ==>
                Owner(pollfds[i]) in channels && channels[Owner(pollfds[i])] in active
    {
      SlotsDiffer();
      active := Scan(numEvents);
      AllReadyFound(active);
      ReadyOnce(pollfds);
      forall j, k | 0 <= j < k < |active| ensures active[j] != active[k] {
        assert Ready(pollfds)[j].fd != Ready(pollfds)[k].fd;
      }
    }

    /** The loop of fillActiveChannels. */
    method Scan(numEvents: nat) returns (active: seq<Channel>)
      requires numEvents == |Ready(pollfds)|
      requires forall i, j :: 0 <= i < j < |pollfds| ==> pollfds[i].fd != pollfds[j].fd
      requires forall i :: 0 <= i < |pollfds| && pollfds[i].revents != {} ==>
                             pollfds[i].fd in channels && channels[pollfds[i].fd].fd == pollfds[i].fd
      modifies set fd | fd in channels :: channels[fd]`revents
      ensures |active| == |Ready(pollfds)| && Reported(active)
    {
      ReadyOnce(pollfds);
      active := [];
      var left := numEvents;
      var i := 0;
      while i < |pollfds| && left > 0
        invariant i <= |pollfds| && left == numEvents - |active| && |active| == |Ready(pollfds[..i])|
        invariant Reported(active)
      {
        ReadyTurn(pollfds, i);
        if pollfds[i].revents != {} {
          left := left - 1;
          active := Activate(i, channels[pollfds[i].fd], active);
        }
        i := i + 1;
      }
      if i == |pollfds| {
        assert pollfds[..i] == pollfds;
      }
    }

    /** `active` lists the channels of the first ready slots, with what they reported. */
    ghost predicate Reported(active: seq<Channel>)
      reads this, channels.Values
    {
      && |active| <= |Ready(pollfds)|
      && (forall k :: 0 <= k < |active| ==>
            var slot := Ready(pollfds)[k];
            && slot.fd in channels && active[k] == channels[slot.fd]
            && channels[slot.fd].fd == slot.fd && channels[slot.fd].revents == slot.revents)
    }

    /** One ready slot of the scan. */
    method Activate(i: nat, ch: Channel, active: seq<Channel>) returns (more: seq<Channel>)
      requires Reported(active) && |active| < |Ready(pollfds)|
      requires i < |pollfds| && pollfds[i] == Ready(pollfds)[|active|]
      requires pollfds[i].fd in channels && channels[pollfds[i].fd] == ch && ch.fd == pollfds[i].fd
      requires forall j, k :: 0 <= j < k < |Ready(pollfds)| ==> Ready(pollfds)[j].fd != Ready(pollfds)[k].fd
      modifies ch`revents
      ensures Reported(more) && |more| == |active| + 1
    {
      ch.revents := pollfds[i].revents;
      more := active + [ch];
    }

    lemma SlotsDiffer()
      requires Valid()
      ensures forall i, j :: 0 <= i < j < |pollfds| ==> pollfds[i].fd != pollfds[j].fd
      ensures forall i :: 0 <= i < |pollfds| && pollfds[i].fd >= 0 ==>
                pollfds[i].fd in channels && channels[pollfds[i].fd].fd == pollfds[i].fd
    {
      assert Indexes().Keys == channels.Keys;
      forall i | 0 <= i < |pollfds| && pollfds[i].fd >= 0 ensures pollfds[i].fd in channels {
        assert Owner(pollfds[i]) in Indexes();
      }
    }

    lemma AllReadyFound(active: seq<Channel>)
      requires |active| == |Ready(pollfds)| && Reported(active)
      requires forall i :: 0 <= i < |pollfds| && pollfds[i].fd < 0 ==> pollfds[i].revents == {}
      ensures forall i :: 0 <= i < |pollfds| && pollfds[i].revents != {} ==>
                Owner(pollfds[i]) in channels && channels[Owner(pollfds[i])] in active
    {
      ReadyAreSlots(pollfds);
      forall i | 0 <= i < |pollfds| && pollfds[i].revents != {}
        ensures Owner(pollfds[i]) in channels && channels[Owner(pollfds[i])] in active
      {
        assert pollfds[i] in Ready(pollfds);
        var k :| 0 <= k < |Ready(pollfds)| && Ready(pollfds)[k] == pollfds[i];
        assert active[k] == channels[pollfds[i].fd];
      }
    }
  }

  // ---------------------------------------------------------------- EpollPoller

  /** An entry of the kernel's interest list: the events, and the pointer stored with them. */
  datatype Interest = Interest(events: Flags, channel: Channel)

  /** An entry of events_, filled in by epoll_wait for the descriptor `fd`. */
  datatype EpollEvent = EpollEvent(fd: int, channel: Channel, events: Flags)

  class EpollPoller {
    var channels: map<int, Channel>
    var kernel: map<int, Interest>
    /** the calls so far */
    ghost var trace: seq<Op>

    /** The map and the kernel's list hold the same channels, all with index 1. */
    ghost predicate Valid()
      reads this, channels.Values
    {
      && kernel.Keys == channels.Keys
      && (forall fd :: fd in channels ==>
            channels[fd].fd == fd && channels[fd].index == 1 && kernel[fd].channel == channels[fd])
    }

    ghost predicate InSyncExcept(ch: Channel?)
      requires Valid()
      reads this, channels.Values
    {
      forall fd :: fd in channels && channels[fd] != ch ==> kernel[fd].events == channels[fd].events
    }

    ghost function Registered(): Kernel
      reads this
    {
      map fd | fd in kernel :: kernel[fd].events
    }

    /** The kernel's list is what the calls so far lead to. */
    ghost predicate Follows()
      reads this
    {
      Registered() == Trace(trace).epoll
    }

    /** So a PollPoller that was given the same calls has registered the same descriptors with
        the same interest; and it watches one for the same events exactly if it was not enabled
        again after an update had taken all its interest. */
    lemma AgreesWith(that: PollPoller, fd: int)
      requires Follows() && that.Valid() && that.Follows() && that.trace == trace && fd in Registered()
      ensures that.Registered().Keys == Registered().Keys && that.Registered()[fd].events == Registered()[fd]
      ensures Watched(that.Registered()[fd]) == Registered()[fd] <==>
                (Registered()[fd] == NONE_EVENT || !Disabled(trace, fd))
    {
      SameRegistrations(trace);
      SameInterestIff(trace, fd);
    }

    constructor ()
      ensures Valid() && Follows() && InSyncExcept(null) && Registered() == map[] && trace == []
    {
      channels, kernel, trace := map[], map[], [];
    }

    ghost method Note(op: Op)
      requires Valid() && InSyncExcept(null)
      modifies this`trace
      ensures Valid() && InSyncExcept(null) && Registered() == old(Registered())
      ensures trace == old(trace) + [op] && Trace(trace) == Apply(Trace(old(trace)), op)
    {
      FoldSnoc(Apply, EMPTY, trace, op);
      trace := trace + [op];
    }

    ghost predicate Known(ch: Channel)
      reads this, ch
    {
      if ch.index < 0 then ch.fd !in channels else ch.fd in channels && channels[ch.fd] == ch
    }

    method UpdateChannel(ch: Channel)
      requires Valid() && Known(ch) && InSyncExcept(ch)
      modifies this, ch`index
      ensures Valid() && InSyncExcept(null)
      ensures channels == old(channels)[ch.fd := ch]
      ensures Registered() == EpollUpdate(old(Registered()), ch.fd, ch.events)
      ensures trace == old(trace) + [Update(ch.fd, ch.events)] && (old(Follows()) ==> Follows())
    {
      if ch.index < 0 {
        ch.index := 1;
        channels := channels[ch.fd := ch];
      } else {
        assert ch.index == 1;
        assert channels == channels[ch.fd := ch];
      }
      kernel := kernel[ch.fd := Interest(ch.events, ch)];
      Note(Update(ch.fd, ch.events));
    }

    /** Here, too, the channel keeps its index. */
    method RemoveChannel(ch: Channel)
      requires Valid() && InSyncExcept(null)
      requires ch.fd in channels && channels[ch.fd] == ch && EpollCanRemove(Registered(), ch.fd)
      modifies this
      ensures Valid() && InSyncExcept(null)
      ensures channels == old(channels) - {ch.fd} && Registered() == old(Registered()) - {ch.fd}
      ensures !Known(ch)
      ensures trace == old(trace) + [Remove(ch.fd)]
      ensures old(Follows() && Disabled(trace, ch.fd)) ==> Follows()
    {
      SameRemovalIff(trace, ch.fd);
      assert ch.events == NONE_EVENT;
      channels := channels - {ch.fd};
      kernel := kernel - {ch.fd};
      Note(Remove(ch.fd));
    }

    /** epoll_wait has filled in `events` from the kernel's list, each descriptor once: the
        assertions hold, and the active channels are those of the events. */
    method FillActiveChannels(events: seq<EpollEvent>) returns (active: seq<Channel>)
      requires Valid()
      requires forall i :: 0 <= i < |events| ==>
                 events[i].fd in kernel && events[i].channel == kernel[events[i].fd].channel
      requires forall i, j :: 0 <= i < j < |events| ==> events[i].fd != events[j].fd
      modifies set fd | fd in channels :: channels[fd]`revents
      ensures |active| == |events|
      ensures forall i :: 0 <= i < |events| ==>
                && events[i].fd in channels && active[i] == channels[events[i].fd]
                && active[i].revents == events[i].events
      ensures forall i, j :: 0 <= i < j < |active| ==> active[i] != active[j]
    {
      active := [];
      assert forall i :: 0 <= i < |events| ==> events[i].fd in channels && channels[events[i].fd] == events[i].channel
                                               && events[i].channel.fd == events[i].fd;
      for i := 0 to |events|
        invariant |active| == i
        invariant forall k :: 0 <= k < i ==> active[k] == events[k].channel && active[k].revents == events[k].events
        invariant forall fd :: fd in channels ==> channels[fd].index == 1
      {
        var channel := events[i].channel;
        var fd := channel.fd;
        assert fd in channels && channels[fd] == channel && channel.index == 1;
        channel.revents := events[i].events;
        active := active + [channel];
      }
    }
  }
}
