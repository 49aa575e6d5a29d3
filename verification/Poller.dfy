/**
 * framework/net/src/Channel.cpp and framework/net/src/Poller.cpp: channels that
 * carry their own slot position, and the poller that indexes them.
 */
module Pollers {
  import opened Common
  import opened PollerSpec

  const POLLIN: bv16 := 0x001
  const POLLPRI: bv16 := 0x002
  const POLLOUT: bv16 := 0x004

  const NONEEVENT: bv16 := 0
  const READEVENT: bv16 := POLLIN | POLLPRI
  const WRITEEVENT: bv16 := POLLOUT

  function With(interest: bv16, mask: bv16, status: bool): bv16 {
    if status then interest | mask else interest & !mask
  }

  /** Reading and writing are independent halves of the interest set. */
  lemma InterestBits(interest: bv16, status: bool)
    ensures With(interest, WRITEEVENT, status) & WRITEEVENT == if status then WRITEEVENT else 0
    ensures With(interest, WRITEEVENT, status) & READEVENT == interest & READEVENT
    ensures With(interest, READEVENT, status) & READEVENT == if status then READEVENT else 0
    ensures With(interest, READEVENT, status) & WRITEEVENT == interest & WRITEEVENT
  {
  }

  /** The bits poll is given: POLLIN and POLLPRI to read, POLLOUT to write, and no other bit changes. */
  lemma PollBits(interest: bv16, status: bool)
    ensures With(interest, READEVENT, status) == if status then interest | 0x3 else interest & 0xfffc
    ensures With(interest, WRITEEVENT, status) == if status then interest | 0x4 else interest & 0xfffb
  {
  }

  /** So IsReading and IsWriting see exactly the half that was set. */
  lemma InterestSeen(interest: bv16, status: bool)
    ensures (With(interest, WRITEEVENT, status) & WRITEEVENT != 0) == status
    ensures (With(interest, WRITEEVENT, status) & READEVENT != 0) == (interest & READEVENT != 0)
    ensures (With(interest, READEVENT, status) & READEVENT != 0) == status
    ensures (With(interest, READEVENT, status) & WRITEEVENT != 0) == (interest & WRITEEVENT != 0)
  {
    InterestBits(interest, status);
  }

  class Channel {
    const fd_: int
    var interested_event_: bv16
    var current_event_: int
    var poll_index_: int

    constructor (fd: int)
      ensures fd_ == fd && interested_event_ == NONEEVENT && current_event_ == 0 && poll_index_ == -1
    {
      fd_ := fd;
      interested_event_, current_event_, poll_index_ := NONEEVENT, 0, -1;
    }

    predicate IsReading()
      reads this
    {
      interested_event_ & READEVENT != 0
    }

    predicate IsWriting()
      reads this
    {
      interested_event_ & WRITEEVENT != 0
    }

    predicate IsNoneEvent()
      reads this
    {
      interested_event_ == NONEEVENT
    }

    /** The assignment of the interest, and UpdatePollList. */
    method SetInterest(poller: Poller, interest: bv16)
      requires poller.Sound() && poll_index_ < |poller.pollfds_|
      modifies this`interested_event_, this`poll_index_, poller
      ensures poller.Updated(this) && poller.KeptExactly(this) && interested_event_ == interest
      ensures poller.SlotWritten(this)
    {
      interested_event_ := interest;
      poller.InterestChanged(this);
      poller.UpdateChannel(this);
      poller.UpdateKept(this);
    }

    method EnableReading(poller: Poller, status: bool)
      requires poller.Sound() && poll_index_ < |poller.pollfds_|
      modifies this`interested_event_, this`poll_index_, poller
      ensures poller.Updated(this) && poller.KeptExactly(this)
      ensures poller.SlotWritten(this)
      ensures IsReading() == status && IsWriting() == old(IsWriting())
      ensures interested_event_ == if status then old(interested_event_) | 0x3 else old(interested_event_) & 0xfffc
    {
      PollBits(interested_event_, status);
      InterestSeen(interested_event_, status);
      SetInterest(poller, With(interested_event_, READEVENT, status));
    }

    method EnableWriting(poller: Poller, status: bool)
      requires poller.Sound() && poll_index_ < |poller.pollfds_|
      modifies this`interested_event_, this`poll_index_, poller
      ensures poller.Updated(this) && poller.KeptExactly(this)
      ensures poller.SlotWritten(this)
      ensures IsWriting() == status && IsReading() == old(IsReading())
      ensures interested_event_ == if status then old(interested_event_) | 0x4 else old(interested_event_) & 0xfffb
    {
      PollBits(interested_event_, status);
      InterestSeen(interested_event_, status);
      SetInterest(poller, With(interested_event_, WRITEEVENT, status));
    }

    method DisableAll(poller: Poller)
      requires poller.Sound() && poll_index_ < |poller.pollfds_|
      modifies this`interested_event_, this`poll_index_, poller
      ensures poller.Updated(this) && poller.KeptExactly(this)
      ensures poller.SlotWritten(this) && interested_event_ == 0 && IsNoneEvent()
      ensures old(poll_index_) >= 0 ==> poller.pollfds_[poll_index_].fd == -fd_ - 1
    {
      SetInterest(poller, NONEEVENT);
    }
  }

  class Poller {
    var pollfds_: seq<Slot>
    var channels_: map<int, Channel>

    constructor ()
      ensures Sound() && Abs() == Index([], map[]) && Agrees(Abs())
    {
      pollfds_, channels_ := [], map[];
    }

    /** The map is keyed by the channels' own fds. */
    ghost predicate Sound()
      reads this
    {
      forall fd :: fd in channels_ ==> channels_[fd].fd_ == fd
    }

    ghost function Abs(): Index
      reads this, channels_.Values
    {
      Index(pollfds_, map fd | fd in channels_ :: Entry(channels_[fd].interested_event_, channels_[fd].poll_index_))
    }

    /** `c` is registered, under whatever fd. */
    ghost predicate Holds(c: Channel)
      reads this
    {
      exists fd :: fd in channels_ && channels_[fd] == c
    }

    /** The lookup by fd and the comparison of pointers decide registration. */
    predicate HasChannel(c: Channel): (r: bool)
      reads this
      requires Sound()
      ensures r <==> Holds(c)
    {
      c.fd_ in channels_ && channels_[c.fd_] == c
    }

    /** The state and the interest as they are; the position as it was. */
    twostate predicate Updated(c: Channel)
      reads this, channels_.Values, c
      requires old(Sound()) && old(c.poll_index_) < old(|pollfds_|)
    {
      && Sound() && (HasChannel(c) <==> old(HasChannel(c)) || old(c.poll_index_) < 0)
      && Abs() == Update(old(Abs()), c.fd_, old(c.poll_index_), c.interested_event_, old(HasChannel(c)))
      && c.poll_index_ == if old(c.poll_index_) < 0 then old(|pollfds_|) else old(c.poll_index_)
    }

    /** The slot poll will be given: a muted one for an update without interest; and no other slot changes. */
    twostate predicate SlotWritten(c: Channel)
      reads this, c
    {
      if old(c.poll_index_) < 0 then
        pollfds_ == old(pollfds_) + [Slot(c.fd_, c.interested_event_, 0)]
      else
        && c.poll_index_ == old(c.poll_index_) < |pollfds_| == |old(pollfds_)|
        && pollfds_[c.poll_index_] ==
           Slot(if c.interested_event_ == 0 then -c.fd_ - 1 else c.fd_, c.interested_event_, 0)
        && forall i :: 0 <= i < |pollfds_| && i != c.poll_index_ ==> pollfds_[i] == old(pollfds_)[i]
    }

    /** If there was agreement, there still is exactly when the poller may be given the channel. */
    twostate predicate KeptExactly(c: Channel)
      reads this, channels_.Values, c
      requires old(Sound()) && old(c.poll_index_) < old(|pollfds_|)
    {
      old(Agrees(Abs())) && c.fd_ >= 0 ==>
        (Agrees(Abs()) <==>
           Accepts(old(Abs()), c.fd_, old(c.poll_index_), c.interested_event_, old(HasChannel(c))))
    }

    twostate lemma UpdateKept(c: Channel)
      requires old(Sound()) && old(c.poll_index_) < old(|pollfds_|) && Updated(c)
      ensures KeptExactly(c)
    {
      if old(Agrees(Abs())) && c.fd_ >= 0 {
        UpdateExactly(old(Abs()), c.fd_, old(c.poll_index_), c.interested_event_, old(HasChannel(c)));
      }
    }

    /** Changing a channel's interest touches no entry but its own. */
    twostate lemma InterestChanged(c: Channel)
      requires Sound() && unchanged(this) && c.poll_index_ < |pollfds_|
      requires old(c.poll_index_) == c.poll_index_
      requires forall d :: d in channels_.Values && d != c ==> unchanged(d)
      ensures Update(old(Abs()), c.fd_, c.poll_index_, c.interested_event_, HasChannel(c)) ==
              Update(Abs(), c.fd_, c.poll_index_, c.interested_event_, HasChannel(c))
    {
      forall fd | fd in channels_ && channels_[fd] != c
        ensures channels_[fd].interested_event_ == old(channels_[fd].interested_event_)
        ensures channels_[fd].poll_index_ == old(channels_[fd].poll_index_)
      {
        assert channels_[fd] in channels_.Values && unchanged(channels_[fd]);
      }
      if HasChannel(c) {
        SameMap(Abs().channels, old(Abs()).channels[c.fd_ := Entry(c.interested_event_, c.poll_index_)]);
      } else {
        SameMap(Abs().channels, old(Abs()).channels);
      }
    }

    /** The position must lie in the slots; nothing else is asked of the channel. */
    method UpdateChannel(c: Channel)
      requires Sound() && c.poll_index_ < |pollfds_|
      modifies this, c`poll_index_
      ensures Updated(c) && SlotWritten(c)
    {
      ghost var was := Abs();
      if c.poll_index_ < 0 {
        pollfds_ := pollfds_ + [Slot(c.fd_, c.interested_event_, 0)];
        c.poll_index_ := |pollfds_| - 1;
        channels_ := channels_[c.fd_ := c];
        SameMap(Abs().channels, Register(was, c.fd_, c.interested_event_).channels);
      } else {
        var idx := c.poll_index_;
        pollfds_ := pollfds_[idx := Slot(c.fd_, c.interested_event_, 0)];
        if c.IsNoneEvent() {
          pollfds_ := pollfds_[idx := pollfds_[idx].(fd := -c.fd_ - 1)];
        }
        SameMap(Abs().channels, was.channels);
        if HasChannel(c) {
          SameMap(was.channels, was.channels[c.fd_ := Entry(c.interested_event_, idx)]);
        }
      }
    }

    /**
     * The position must lie in the slots, and the moved slot's channel be known.  The
     * removed channel keeps its old poll_index_.
     */
    method RemoveChannel(c: Channel)
      requires Sound() && 0 <= c.poll_index_ < |pollfds_|
      requires Remove(Abs(), c.fd_, c.poll_index_).Some?
      modifies this, channels_.Values
      ensures Sound() && !Holds(c) && c.poll_index_ == old(c.poll_index_)
      ensures Some(Abs()) == Remove(old(Abs()), c.fd_, c.poll_index_)
      ensures old(Agrees(Abs())) ==>
                (Agrees(Abs()) <==> old(c.fd_ in channels_ && channels_[c.fd_].poll_index_ == c.poll_index_))
    {
      ghost var was := Abs();
      if Agrees(was) { RemoveExactly(was, c.fd_, c.poll_index_); }
      var idx := c.poll_index_;
      channels_ := channels_ - {c.fd_};
      if idx == |pollfds_| - 1 {
        pollfds_ := pollfds_[..|pollfds_| - 1];
        SameMap(Abs().channels, was.channels - {c.fd_});
      } else {
        SameMap(Abs().channels, was.channels - {c.fd_});
        MoveLast(idx, channels_[Decode(pollfds_[|pollfds_| - 1].fd)]);
      }
      assert !HasChannel(c);
    }

    /** The last slot takes the place of slot `idx`, and its channel is told. */
    method MoveLast(idx: nat, ghost atEnd: Channel)
      requires Sound() && idx < |pollfds_| - 1 && Decode(pollfds_[|pollfds_| - 1].fd) in channels_
      requires channels_[Decode(pollfds_[|pollfds_| - 1].fd)] == atEnd
      modifies this`pollfds_, atEnd`poll_index_
      ensures var last := |old(pollfds_)| - 1;
              var moved := Decode(old(pollfds_)[last].fd);
              var was := old(Abs());
              Abs() == Index(old(pollfds_)[idx := old(pollfds_)[last]][..last],
                             was.channels[moved := was.channels[moved].(index := idx)])
    {
      ghost var was := Abs();
      var last := |pollfds_| - 1;
      var channelAtEnd := pollfds_[last].fd;
      pollfds_ := pollfds_[idx := pollfds_[last]][last := pollfds_[idx]];
      if channelAtEnd < 0 {
        channelAtEnd := -channelAtEnd - 1;
      }
      channels_[channelAtEnd].poll_index_ := idx;
      pollfds_ := pollfds_[..last];
      SameMap(Abs().channels, was.channels[channelAtEnd := was.channels[channelAtEnd].(index := idx)]);
    }

    /**
     * Sets revents on the ready channels and lists them in slot order, stopping after
     * `numEvents` of them; with the count poll returned, these are all of them.
     */
    method FillActiveChannels(numEvents: int) returns (active: seq<Channel>)
      requires Sound() && Agrees(Abs()) && KernelWrote(pollfds_)
      modifies channels_.Values`current_event_
      ensures Abs() == old(Abs())
      ensures Lists(active, Scan(pollfds_, numEvents))
      ensures numEvents >= |Ready(pollfds_)| ==> Lists(active, Ready(pollfds_))
    {
      active := [];
      var left, i := numEvents, 0;
      ghost var found := [];
      ScanBegins(pollfds_, numEvents);
      while i < |pollfds_| && left > 0
        invariant 0 <= i <= |pollfds_| && Scanned(pollfds_, numEvents, i, left, found)
        invariant Listed(active, found, i)
        invariant Abs() == old(Abs())
      {
        ScanStep(pollfds_, numEvents, i, left, found);
        if pollfds_[i].revents > 0 {
          left := left - 1;
          active := Collect(i, active, found);
          found := found + [pollfds_[i]];
        }
        i := i + 1;
      }
      ScanEnds(pollfds_, numEvents, i, left, found);
      if numEvents >= |Ready(pollfds_)| {
        ScanIsPrefix(pollfds_, numEvents);
      }
    }

    /** One more ready slot: its channel joins the list. */
    method Collect(i: nat, active: seq<Channel>, ghost found: seq<Slot>) returns (more: seq<Channel>)
      requires Sound() && Agrees(Abs()) && KernelWrote(pollfds_) && i < |pollfds_| && pollfds_[i].revents > 0
      requires Listed(active, found, i)
      modifies channels_.Values`current_event_
      ensures Abs() == old(Abs()) && Listed(more, found + [pollfds_[i]], i + 1)
    {
      var channel := Activate(i);
      more := active + [channel];
      assert forall k :: 0 <= k < |active| ==> more[k] == active[k] && (found + [pollfds_[i]])[k] == found[k];
    }

    /** And they belong to slots before `i`. */
    ghost predicate Listed(active: seq<Channel>, found: seq<Slot>, i: nat)
      reads this, channels_.Values
    {
      && Lists(active, found)
      && forall k :: 0 <= k < |active| ==> active[k] in channels_.Values && active[k].poll_index_ < i
    }

    /** The map lookup for a ready slot, which always succeeds, and the call of SetCurrentEvents. */
    method Activate(i: nat) returns (channel: Channel)
      requires Sound() && Agrees(Abs()) && KernelWrote(pollfds_) && i < |pollfds_| && pollfds_[i].revents > 0
      modifies channels_.Values`current_event_
      ensures Abs() == old(Abs())
      ensures pollfds_[i].fd in channels_ && channel == channels_[pollfds_[i].fd] && channel.poll_index_ == i
      ensures channel.current_event_ == pollfds_[i].revents
      ensures forall c :: c in channels_.Values && c != channel ==> c.current_event_ == old(c.current_event_)
    {
      ReadyIsRegistered(Abs(), i);
      channel := channels_[pollfds_[i].fd];
      channel.current_event_ := pollfds_[i].revents;
      SameMap(Abs().channels, old(Abs()).channels);
    }

    /** `active` are the channels of the slots `found`, in order, each told its revents. */
    ghost predicate Lists(active: seq<Channel>, found: seq<Slot>)
      reads this, channels_.Values
    {
      && |active| == |found|
      && forall k :: 0 <= k < |found| ==>
           && found[k].fd in channels_ && active[k] == channels_[found[k].fd]
           && active[k].current_event_ == found[k].revents
    }
  }

  lemma SameMap<V>(a: map<int, V>, b: map<int, V>)
    requires a.Keys == b.Keys
    requires forall fd :: fd in a.Keys ==> a[fd] == b[fd]
    ensures a == b
  {
    assert forall fd | fd in a :: fd in b && a[fd] == b[fd];
    assert a.Keys == b.Keys;
  }
}
