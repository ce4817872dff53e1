/** session::receive_op as the resumable object it is, over the session's real
    buffer. Each resumption is a turn of the model. */
module ReceiveOperations {
  import opened Octets
  import opened HeaderCodec
  import opened FlatBuffer
  import opened Pdus
  import opened Frames
  import opened ReceiveModel
  import opened Sessions
  import SendModel
  import Schema

  /** The dispatch fold over the alternatives of the variant. */
  method DecodeAs(types: seq<PduType>, id: U32, body: seq<Octet>) returns (r: Result<Pdu>)
    ensures r == match Find(types, id)
                 case Err => Err
                 case Ok(t) =>
                   match Schema.Decode(t.fields, body)
                   case Err => Err
                   case Ok(vals) => Ok(Pdu(id, vals))
  {
    assert types[0..] == types;
    for i := 0 to |types|
      invariant Find(types[i..], id) == Find(types, id)
    {
      assert types[i..][1..] == types[i + 1..];
      if types[i].commandId == id {
        var vals := Schema.Deserialize(types[i].fields, body);
        if vals.Err? {
          return Err;
        }
        return Ok(Pdu(id, vals.value));
      }
    }
    return Err;
  }

  /** The sends of an action, as steps of the session's senders: the keepalive
      draws a number of its own, an answer bears that of its request. */
  ghost function AfterAction(m: SendModel.State, a: Action): SendModel.State {
    if !a.Send? || !IsControl(a.commandId) then m
    else if a.commandId == ENQUIRE_LINK || a.commandId == UNBIND then
      SendModel.Step(m, SendModel.CallFresh(a.commandId))
    else
      SendModel.Step(m, SendModel.Call(SendModel.Command(a.commandId, a.sequenceNumber)))
  }

  class ReceiveOp {
    const s: Session
    var phase: Phase
    var header: Header
    var needsMore: bool
    var needsPost: bool
    var pendingEnquireLink: bool

    ghost function Model(): State
      requires s.receiveBuf.Valid()
      reads this, s.receiveBuf, s.receiveBuf.buf
    {
      State(Op(phase, header, needsPost, pendingEnquireLink), s.receiveBuf.Contents())
    }

    ghost predicate Usable()
      reads s.receiveBuf
    {
      s.receiveBuf.Valid() && s.receiveBuf.Capacity() == CAPACITY
    }

    /** Between two resumptions. While a read is in progress, the region behind
        the contents that was given to it takes up the rest of the buffer. */
    ghost predicate Valid()
      reads this, s.receiveBuf, s.receiveBuf.buf
    {
      && Usable() && !needsMore && WfState(Model())
      && (phase == Reading ==> |s.receiveBuf.Prepared()| == CAPACITY - |s.receiveBuf.Contents()|)
    }

    constructor (s: Session)
      requires s.receiveBuf.Valid() && s.receiveBuf.Capacity() == CAPACITY
      ensures this.s == s && Valid() && Model() == State(FRESH, s.receiveBuf.Contents())
    {
      this.s := s;
      phase, header := Idle, NO_HEADER;
      needsMore, needsPost, pendingEnquireLink := false, true, false;
    }

    /** Resumes the coroutine. The octets that came with a read have been written
        to the start of the prepared region by then. */
    method Resume(ev: Event) returns (a: Action)
      requires Valid() && Enabled(Model(), ev)
      requires ev.Begin? ==> Model().op == FRESH
      requires WellFramed(Unshown(Model()) + Arrived(ev))
      requires ev.ReadDone? ==> ev.data <= s.receiveBuf.Prepared()
      modifies this, s.receiveBuf, s.receiveBuf.buf, s`senders, s`sequenceNumber, s`draws, s`socketOpen
      ensures Valid()
      ensures var t := Step(old(Model()), ev, old(s.sequenceNumber));
              Model() == State(t.op, t.stored) && a == t.action
      ensures s.Model() == AfterAction(old(s.Model()), a)
      ensures s.socketOpen == (old(s.socketOpen) && !ShutsDown(a))
    {
      assert !ev.ReadDone? ==> Unshown(Model()) + Arrived(ev) == Unshown(Model());
      hide Advance, AfterRead, AfterSend, DecodeFrame, WellFramed, HasFrame, HoldsFrame, WfPdu, SendModel.Step;
      match ev {
        case Begin =>
          a := RunLoop();
        case ReadDone(data, ec, cancelled) =>
          a := AfterReadSome(data, ec, cancelled);
        case SendDone(ec) =>
          a := AfterSendCommand(ec);
        case Posted =>
          a := DeliverFront();
      }
    }

    /** The first silent interval asks the peer for a sign of life, the second
        gives it up. */
    method KeepAlive() returns (a: Action)
      requires Usable() && !needsMore && phase == Reading
      modifies this`phase, this`pendingEnquireLink, s`senders, s`sequenceNumber, s`draws
      ensures Valid() && s.receiveBuf.Contents() == old(s.receiveBuf.Contents())
      ensures var t := AfterRead(old(Model()).op, old(Model()).stored, true, OperationAborted, old(s.sequenceNumber));
              Model() == State(t.op, t.stored) && a == t.action
      ensures s.Model() == AfterAction(old(s.Model()), a)
    {
      hide Advance, WellFramed, HasFrame, HoldsFrame, WfPdu, SendModel.Step;
      var i, n;
      if pendingEnquireLink {
        phase := SendingLastUnbind;
        i, n := s.AsyncSendFreshCommand(UNBIND);
        return Send(UNBIND, n);
      }
      pendingEnquireLink := true;
      phase := SendingEnquireLink;
      i, n := s.AsyncSendFreshCommand(ENQUIRE_LINK);
      return Send(ENQUIRE_LINK, n);
    }

    method AfterReadSome(data: seq<Octet>, ec: ErrorCode, cancelled: bool) returns (a: Action)
      requires Valid() && phase == Reading && data <= s.receiveBuf.Prepared()
      requires WellFramed(s.receiveBuf.Contents() + data)
      modifies this, s.receiveBuf, s.receiveBuf.buf, s`senders, s`sequenceNumber, s`draws, s`socketOpen
      ensures Valid()
      ensures var op := old(Model()).op;
              var t := AfterRead(op.(pendingEnquireLink := op.pendingEnquireLink && data == []),
                                 old(Model()).stored + data,
                                 ec == OperationAborted && !cancelled, ec, old(s.sequenceNumber));
              Model() == State(t.op, t.stored) && a == t.action
      ensures ec != NoError && (ec == OperationAborted ==> cancelled) ==> a == Complete(false, Failed(ec))
      ensures s.Model() == AfterAction(old(s.Model()), a)
      ensures s.socketOpen == (old(s.socketOpen) && !ShutsDown(a))
    {
      hide Advance, WellFramed, WfState, WfPdu, SendModel.Step;
      CommitRead(data);
      if ec == OperationAborted && !cancelled { // nobody cancelled: the interval has passed
        a := KeepAlive();
      } else if ec != NoError {
        a := Finish(false, Failed(ec));
      } else {
        a := RunLoop();
      }
    }

    /** What arrived joins the contents, whatever arrived with it. */
    method CommitRead(data: seq<Octet>)
      requires Usable() && data <= s.receiveBuf.Prepared()
      modifies this`pendingEnquireLink, s.receiveBuf
      ensures Usable() && s.receiveBuf.Contents() == old(s.receiveBuf.Contents()) + data
      ensures pendingEnquireLink == (old(pendingEnquireLink) && data == [])
    {
      if data != [] {
        pendingEnquireLink := false;
      }
      s.receiveBuf.Commit(|data|);
    }

    /** Nothing resumes a completed operation. */
    method Finish(shutDown: bool, result: Completion) returns (a: Action)
      requires Usable() && !needsMore
      modifies this`phase
      ensures Valid() && phase == Idle && a == Complete(shutDown, result)
    {
      phase := Idle;
      return Complete(shutDown, result);
    }

    method ConsumeFront()
      requires Usable() && header.commandLength <= |s.receiveBuf.Contents()|
      modifies s.receiveBuf
      ensures Usable() && s.receiveBuf.Contents() == old(s.receiveBuf.Contents())[header.commandLength..]
    {
      s.receiveBuf.Consume(header.commandLength);
    }

    method AfterSendCommand(ec: ErrorCode) returns (a: Action)
      requires Valid() && Enabled(Model(), SendDone(ec)) && WellFramed(Unshown(Model()))
      modifies this, s.receiveBuf, s.receiveBuf.buf, s`senders, s`sequenceNumber, s`draws, s`socketOpen
      ensures Valid()
      ensures var t := AfterSend(old(Model()).op, old(Model()).stored, ec);
              Model() == State(t.op, t.stored) && a == t.action
      ensures s.Model() == AfterAction(old(s.Model()), a)
      ensures s.socketOpen == (old(s.socketOpen) && !ShutsDown(a))
    {
      hide Advance, WellFramed, WfPdu, SendModel.Step, HeaderCodec.Deserialize;
      if phase == SendingLastUnbind {
        s.ShutdownSocket();
        a := Finish(true, KeepaliveExpired);
      } else if phase == SendingEnquireLinkResp {
        ConsumeFront();
        a := RunLoop();
      } else if ec != NoError {
        a := Finish(false, Failed(ec));
      } else if phase == SendingEnquireLink {
        a := RunLoop();
      } else {
        s.ShutdownSocket();
        ConsumeFront();
        a := Finish(true, UnbindedBy(header));
      }
    }

    /** The PDU in the frame in front, or the frame itself if it holds none. */
    method DecodeFront() returns (item: Item)
      requires Usable() && HoldsFrame(Model())
      ensures item == DecodeFrame(FrameOf(Model().op, Model().stored))
    {
      hide Find, Schema.Decode, HeaderCodec.Deserialize;
      var frame := s.receiveBuf.Front(header.commandLength);
      FrontIsFrame(s.receiveBuf.Contents());
      var pdu := DecodeAs(VARIANT, header.commandId, frame[HEADER_LENGTH..]);
      item := if pdu.Ok? then Decoded(pdu.value) else Undecodable(frame);
    }

    /** Decodes the frame in front, consumes it and completes. */
    method DeliverFront() returns (a: Action)
      requires Usable() && !needsMore && HoldsFrame(Model())
      modifies this`phase, s.receiveBuf
      ensures Valid()
      ensures var t := Deliver(old(Model()).op, old(Model()).stored);
              Model() == State(t.op, t.stored) && a == t.action
    {
      hide DecodeFrame, WfState, HeaderCodec.Deserialize;
      var item := DecodeFront();
      ConsumeFront();
      a := Finish(false, Delivered(item, header.sequenceNumber, header.commandStatus));
    }

    /** Gives the whole rest of the buffer to the next read. */
    method ReadMore() returns (a: Action)
      requires Usable() && !HasFrame(s.receiveBuf.Contents())
      modifies this`phase, this`needsMore, this`needsPost, s.receiveBuf, s.receiveBuf.buf
      ensures Valid() && s.receiveBuf.Contents() == old(s.receiveBuf.Contents())
      ensures phase == Reading && !needsPost && a == Read(CAPACITY - |s.receiveBuf.Contents()|)
    {
      needsMore := false;
      needsPost := false;
      phase := Reading;
      var room := s.receiveBuf.Capacity() - s.receiveBuf.Size();
      var ok := s.receiveBuf.Prepare(room);
      assert ok;
      return Read(room);
    }

    /** The for(;;) of the coroutine. */
    method RunLoop() returns (a: Action)
      requires Usable() && !needsMore && WellFramed(s.receiveBuf.Contents())
      modifies this, s.receiveBuf, s.receiveBuf.buf, s`senders, s`socketOpen
      ensures Valid()
      ensures var t := Advance(old(Model()).op, old(Model()).stored);
              Model() == State(t.op, t.stored) && a == t.action
      ensures s.Model() == AfterAction(old(s.Model()), a)
      ensures s.socketOpen == (old(s.socketOpen) && !ShutsDown(a))
    {
      hide WfState, Deliver, HandleFrame, WfPdu, SendModel.Step, HeaderCodec.Deserialize;
      ghost var goal := Advance(Model().op, Model().stored);
      while true
        invariant Usable() && WellFramed(s.receiveBuf.Contents())
        invariant needsMore ==> !HasFrame(s.receiveBuf.Contents()) && HeaderIsCached()
        invariant SameOutcome(Advance(Model().op, Model().stored), goal)
        invariant s.Model() == old(s.Model()) && s.socketOpen == old(s.socketOpen)
        decreases s.receiveBuf.Size(), if needsMore then 0 else 1
      {
        if needsMore {
          a := ReadMore();
          return;
        }
        if s.receiveBuf.Size() < HEADER_LENGTH {
          needsMore := true;
          continue;
        }
        CacheHeader();
        if s.receiveBuf.Size() < header.commandLength {
          needsMore := true;
          continue;
        }
        if header.commandId == ENQUIRE_LINK_RESP {
          s.receiveBuf.Consume(header.commandLength);
          continue;
        }
        a := HandleFront();
        return;
      }
    }

    /** If there is a header in front, the operation has read it. */
    ghost predicate HeaderIsCached()
      requires s.receiveBuf.Valid()
      reads this, s.receiveBuf, s.receiveBuf.buf
    {
      var b := s.receiveBuf.Contents();
      |b| >= HEADER_LENGTH ==> header == HeaderCodec.Deserialize(b)
    }

    ghost predicate SameOutcome(t: Turn, u: Turn) {
      t.op == u.op && t.stored == u.stored && t.action == u.action
    }

    method CacheHeader()
      requires Usable() && |s.receiveBuf.Contents()| >= HEADER_LENGTH
      modifies this`header
      ensures header == HeaderCodec.Deserialize(s.receiveBuf.Contents())
    {
      var front := s.receiveBuf.Front(HEADER_LENGTH);
      SameHeader(front, s.receiveBuf.Contents());
      header := HeaderCodec.Deserialize(front);
    }

    /** A complete frame other than enquire_link_resp. */
    method HandleFront() returns (a: Action)
      requires Usable() && !needsMore && HoldsFrame(Model()) && !IsEnquireLinkResp(s.receiveBuf.Contents())
      modifies this`phase, s.receiveBuf, s`senders, s`socketOpen
      ensures Valid()
      ensures var t := HandleFrame(old(Model()).op, old(Model()).stored);
              Model() == State(t.op, t.stored) && a == t.action
      ensures s.Model() == AfterAction(old(s.Model()), a)
      ensures s.socketOpen == (old(s.socketOpen) && !ShutsDown(a))
    {
      hide DecodeFrame, WfPdu, SendModel.Step, HeaderCodec.Deserialize;
      if header.commandId == ENQUIRE_LINK {
        phase := SendingEnquireLinkResp;
        var i := s.AsyncSend(SendModel.Command(ENQUIRE_LINK_RESP, header.sequenceNumber));
        return Send(ENQUIRE_LINK_RESP, header.sequenceNumber);
      }
      if header.commandId == UNBIND {
        phase := SendingUnbindResp;
        var i := s.AsyncSend(SendModel.Command(UNBIND_RESP, header.sequenceNumber));
        return Send(UNBIND_RESP, header.sequenceNumber);
      }
      if header.commandId == UNBIND_RESP {
        s.ShutdownSocket();
        ConsumeFront();
        a := Finish(true, UnbindedBy(header));
        return;
      }
      if needsPost { // not from within the call that started the receive
        phase := Posting;
        return Post;
      }
      a := DeliverFront();
    }
  }
}
