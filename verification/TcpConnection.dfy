/**
 * framework/net/src/TcpConnection.cpp with its output Buffer: the handlers, in the
 * source's own statements, are proved to be the steps of TcpSpec.
 */
module TcpConnections {
  import opened Endian
  import opened Buffers
  import opened TcpSpec

  class TcpConnection {
    var status_: Status
    const highwater_mark_: nat
    const output_buffer_: Buffer
    // channel_: its interest set
    var reading_: bool
    var writing_: bool
    // socket_: what it took, and whether it is half-closed
    var wire_: seq<byte>
    var shut_: bool
    // history
    ghost var late: bool
    ghost var accepted: seq<seq<byte>>
    var events: seq<Event>

    ghost predicate Valid()
      reads this, output_buffer_
    {
      output_buffer_.Valid()
    }

    ghost function Abs(): Core
      reads this, output_buffer_, output_buffer_.buffer_
      requires Valid()
    {
      Core(status_, reading_, writing_, output_buffer_.Contents(), wire_, shut_, late, accepted, events)
    }

    constructor (host: Host, mark: nat)
      ensures Valid() && Abs() == NEW_CORE && highwater_mark_ == mark
      ensures fresh(output_buffer_) && fresh(output_buffer_.buffer_)
    {
      status_, highwater_mark_ := CONNECTING, mark;
      output_buffer_ := new Buffer(host);
      reading_, writing_, wire_, shut_ := false, false, [], false;
      late, accepted, events := false, [], [];
    }

    /** socket_->Write: takes the first `r.n` bytes. */
    method Write(bytes: seq<byte>, r: WriteResult) returns (writed: int)
      requires Plausible(r, |bytes|)
      modifies this`wire_, this`late
      ensures writed == if r.Wrote? then r.n else -1
      ensures wire_ == old(wire_) + if r.Wrote? then bytes[..r.n] else []
      ensures late == (old(late) || shut_)
    {
      late := late || shut_;
      if r.Wrote? {
        wire_ := wire_ + bytes[..r.n];
        writed := r.n;
      } else {
        writed := -1;
      }
    }

    method SendInLoop(message: seq<byte>, r: WriteResult)
      requires Valid() && Plausible(r, |message|)
      modifies this, output_buffer_, output_buffer_.buffer_
      ensures Valid() && output_buffer_.SameOrFresh()
      ensures Abs() == TcpSpec.SendInLoop(old(Abs()), message, r, highwater_mark_)
    {
      if DISCONNECTED == status_ {
        return;
      }
      var writed, remainning, faultError := 0, 0, false;
      if !writing_ && output_buffer_.ReadableBytes() == 0 {
        writed, remainning, faultError := WriteDirect(message, r);
      }
      if !faultError && remainning > 0 {
        QueueRest(message, writed, remainning);
      }
    }

    /** The first part of SendInLoop, with nothing queued before the message. */
    method WriteDirect(message: seq<byte>, r: WriteResult)
        returns (writed: nat, remainning: nat, faultError: bool)
      requires Valid() && Plausible(r, |message|)
      modifies this`wire_, this`late, this`accepted, this`events
      ensures Valid()
      ensures r.Failed? ==> remainning == 0 && Abs() == Written(old(Abs()), [])
      ensures r.Wrote? ==> writed == r.n && remainning == |message| - r.n && !faultError
      ensures r.Wrote? ==>
                Abs() == Written(old(Abs()), message[..r.n]).(
                           accepted := old(accepted) + [message],
                           events := old(events) + if remainning == 0 then [WriteComplete] else [])
    {
      remainning, faultError := 0, false;
      var count := Write(message, r);
      if count >= 0 {
        writed := count;
        accepted := accepted + [message];
        remainning := |message| - writed;
        if 0 == remainning {
          events := events + [WriteComplete];
        }
      } else {
        writed := 0;
        if r.errno != EAGAIN {
          faultError := true;
        }
      }
    }

    /** The last part of SendInLoop: what the socket did not take goes to the output buffer. */
    method QueueRest(message: seq<byte>, writed: nat, remainning: nat)
      requires Valid() && writed + remainning == |message|
      modifies this`events, this`writing_, output_buffer_, output_buffer_.buffer_
      ensures Valid() && output_buffer_.SameOrFresh()
      ensures var was := old(Abs());
              var backlog := |was.output| + remainning;
              Abs() == was.(events := was.events + (if backlog >= highwater_mark_ then [HighWater(backlog)] else []),
                            output := was.output + message[writed..], writing := true)
    {
      var oldLen := output_buffer_.ReadableBytes();
      if oldLen + remainning >= highwater_mark_ {
        events := events + [HighWater(oldLen + remainning)];
      }
      output_buffer_.Append(message[writed..]);
      if !writing_ {
        writing_ := true;
      }
    }

    method HandleWrite(r: WriteResult)
      requires Valid() && Plausible(r, |output_buffer_.Contents()|)
      modifies this, output_buffer_
      ensures Valid() && output_buffer_.buffer_ == old(output_buffer_.buffer_)
      ensures Abs() == TcpSpec.HandleWrite(old(Abs()), r)
      ensures AbsAlone() == Step(old(AbsAlone()), Writable(r), highwater_mark_)
    {
      if writing_ {
        var writed := Write(output_buffer_.buffer_[output_buffer_.reader_index_..output_buffer_.writer_index_], r);
        if writed > 0 {
          output_buffer_.Retrieve(writed);
          if output_buffer_.ReadableBytes() == 0 {
            writing_ := false;
            events := events + [WriteComplete];
            if DISCONNECTING == status_ {
              ShutdownInLoop();
            }
          }
        }
      }
    }

    method ShutdownInLoop()
      requires Valid()
      modifies this`shut_
      ensures Valid() && Abs() == TcpSpec.ShutdownInLoop(old(Abs()))
    {
      if !writing_ {
        shut_ := true;
      }
    }

    method ConnectDestroyed()
      requires Valid()
      modifies this`status_, this`reading_, this`writing_, this`events
      ensures Valid() && Abs() == TcpSpec.ConnectDestroyed(old(Abs()))
      ensures AbsAlone() == Step(old(AbsAlone()), Destroy, highwater_mark_)
      ensures if old(status_) == CONNECTED then ClosedFrom(old(Abs()), Abs(), [ConnectionChanged])
              else Abs() == old(Abs())
    {
      if CONNECTED == status_ {
        status_ := DISCONNECTED;
        reading_, writing_ := false, false;
        events := events + [ConnectionChanged];
      }
    }

    method HandleClose()
      requires Valid()
      modifies this`status_, this`reading_, this`writing_, this`events
      ensures Valid() && Abs() == TcpSpec.HandleClose(old(Abs()))
      ensures AbsAlone() == Step(old(AbsAlone()), Close, highwater_mark_)
      ensures ClosedFrom(old(Abs()), Abs(),
                         (if old(status_) == CONNECTED then [ConnectionChanged] else []) + [ConnectionChanged, Closed])
    {
      ConnectDestroyed();
      status_ := DISCONNECTED;
      reading_, writing_ := false, false;
      events := events + [ConnectionChanged];
      events := events + [Closed];
    }

    method ForceCloseInLoop()
      requires Valid()
      modifies this`status_, this`reading_, this`writing_, this`events
      ensures Valid() && Abs() == TcpSpec.ForceCloseInLoop(old(Abs()))
      ensures old(status_) == DISCONNECTING ==> ClosedFrom(old(Abs()), Abs(), [ConnectionChanged, Closed])
      ensures old(status_) == CONNECTING || old(status_) == DISCONNECTED ==> Abs() == old(Abs())
    {
      if status_ == CONNECTED || status_ == DISCONNECTING {
        HandleClose();
      }
    }

    // ---- Calls made on the loop thread ----------------------------------------

    ghost function AbsAlone(): State
      reads this, output_buffer_, output_buffer_.buffer_
      requires Valid()
    {
      Alone(Abs())
    }

    method ConnectEstablished() returns (aborted: bool)
      requires Valid()
      modifies this`status_, this`reading_, this`events
      ensures Valid() && (aborted <==> old(status_) != CONNECTING)
      ensures AbsAlone() == Step(old(AbsAlone()), Establish, highwater_mark_)
      ensures !aborted ==> status_ == CONNECTED && reading_ && events == old(events) + [ConnectionChanged]
      ensures aborted ==> Abs() == old(Abs())
    {
      aborted := CONNECTING != status_;
      if !aborted {
        status_ := CONNECTED;
        reading_ := true;
        events := events + [ConnectionChanged];
      }
    }

    method Send(message: seq<byte>, r: WriteResult)
      requires Valid() && Plausible(r, |message|)
      modifies this, output_buffer_, output_buffer_.buffer_
      ensures Valid() && output_buffer_.SameOrFresh()
      ensures AbsAlone() == Step(old(AbsAlone()), TcpSpec.Send(message, r), highwater_mark_)
      ensures old(status_) != CONNECTED ==> Abs() == old(Abs())
    {
      if CONNECTED == status_ {
        SendInLoop(message, r);
      }
    }

    method Shutdown()
      requires Valid()
      modifies this`status_, this`shut_
      ensures Valid() && AbsAlone() == Step(old(AbsAlone()), TcpSpec.Shutdown, highwater_mark_)
      ensures old(status_) == CONNECTED ==> status_ == DISCONNECTING && shut_ == (old(shut_) || !writing_)
      ensures old(status_) != CONNECTED ==> Abs() == old(Abs())
    {
      if CONNECTED == status_ {
        status_ := DISCONNECTING;
        ShutdownInLoop();
      }
    }

    method ForceClose()
      requires Valid()
      modifies this`status_, this`reading_, this`writing_, this`events
      ensures Valid() && AbsAlone() == Step(old(AbsAlone()), TcpSpec.ForceClose, highwater_mark_)
      ensures old(status_) == CONNECTED || old(status_) == DISCONNECTING ==>
                ClosedFrom(old(Abs()), Abs(), [ConnectionChanged, Closed])
      ensures old(status_) == CONNECTING || old(status_) == DISCONNECTED ==> Abs() == old(Abs())
    {
      if status_ == CONNECTED || status_ == DISCONNECTING {
        status_ := DISCONNECTING;
        ForceCloseInLoop();
      }
    }
  }
}
