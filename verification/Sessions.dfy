/** The session object and its sending operations, each method one stretch of a
    coroutine between two suspensions. */
module Sessions {
  import opened Octets
  import opened HeaderCodec
  import opened FlatBuffer
  import opened Pdus
  import opened SequenceNumbers
  import opened SendModel
  import Frames
  import Schema

  class Session {
    const receiveBuf: StaticFlatBuffer
    const sendBuf: OctetVector
    var sequenceNumber: Counter
    // the operations waiting on send_cv_, first come first
    var waiters: seq<nat>
    // the coroutine frames of the operations started so far
    var senders: seq<Sender>
    // history, see SendModel.State; the number of draws goes into the records of
    // the operations, which are real, so it is real as well
    var draws: nat
    ghost var owner: Owner
    ghost var wire: seq<Octet>
    ghost var log: seq<Entry>
    ghost var intact: bool
    // whether socket_ has not been shut down
    var socketOpen: bool

    ghost function Model(): State
      reads this, sendBuf
    {
      State(sendBuf.bytes, waiters, senders, sequenceNumber, draws, owner, wire, log, intact)
    }

    constructor ()
      ensures Model() == INITIAL && socketOpen
      ensures receiveBuf.Valid() && receiveBuf.Contents() == [] && receiveBuf.Capacity() == Frames.CAPACITY
      ensures fresh(receiveBuf) && fresh(receiveBuf.buf) && fresh(sendBuf)
    {
      receiveBuf := new StaticFlatBuffer(128 * 1024);
      sendBuf := new OctetVector();
      sequenceNumber := 0;
      waiters, senders := [], [];
      draws, owner, wire, log, intact := 0, Nobody, [], [], true;
      socketOpen := true;
    }

    /** shutdown_socket. */
    method ShutdownSocket()
      modifies this`socketOpen
      ensures !socketOpen
    {
      socketOpen := false;
    }

    /** next_sequence_number. */
    method Draw() returns (n: Counter)
      modifies this`sequenceNumber
      ensures n == sequenceNumber == NextSequenceNumber(old(sequenceNumber))
    {
      var next := sequenceNumber + 1;
      if next > 0x7FFF_FFFF {
        next := 1;
      }
      sequenceNumber := next;
      return sequenceNumber;
    }

    /** Starts an async_send, or an async_send_command whose number is given. */
    method AsyncSend(job: Job) returns (i: nat)
      modifies this`senders
      ensures i == |old(senders)| && Model() == Step(old(Model()), Call(job))
    {
      i := |senders|;
      senders := senders + [Sender(job, Called, 0)];
    }

    /** Starts an async_send_command with a number drawn for it. */
    method AsyncSendFreshCommand(commandId: U32) returns (i: nat, n: U32)
      requires IsControl(commandId)
      modifies this`senders, this`sequenceNumber, this`draws
      ensures i == |old(senders)| && n == NextSequenceNumber(old(sequenceNumber))
      ensures Model() == Step(old(Model()), CallFresh(commandId))
    {
      n := Draw();
      draws := draws + 1;
      i := |senders|;
      senders := senders + [Sender(Command(commandId, n), Called, draws)];
    }

    method AsyncSendUnbind() returns (i: nat)
      modifies this`senders, this`sequenceNumber, this`draws
      ensures i == |old(senders)| && Model() == Step(old(Model()), CallFresh(UNBIND))
      ensures senders[i].job == Command(0x0000_0006, NextSequenceNumber(old(sequenceNumber)))
    {
      var n;
      i, n := AsyncSendFreshCommand(UNBIND);
    }

    /** The body is entered for the first time. */
    method EnterBody(i: nat)
      requires Enabled(Model(), Enter(i))
      modifies this, sendBuf
      ensures socketOpen == old(socketOpen)
      ensures Model() == Step(old(Model()), Enter(i))
    {
      TakeLock(i);
    }

    /** The wait has ended. */
    method ResumeAfterWait(i: nat)
      requires Enabled(Model(), Resume(i))
      modifies this, sendBuf
      ensures socketOpen == old(socketOpen)
      ensures Model() == Step(old(Model()), Resume(i))
    {
      if senders[i].phase == Aborting || senders[i].phase == Woken(true) {
        senders := senders[i := senders[i].(phase := Left(WaitCancelled))];
        return;
      }
      TakeLock(i);
    }

    /** The loop on the buffer, and what follows it up to the write. */
    method TakeLock(i: nat)
      requires i < |senders|
      modifies this, sendBuf
      ensures socketOpen == old(socketOpen)
      ensures Model() == Acquire(old(Model()), i)
    {
      hide Frame, EncodeBody, WfPdu;
      if sendBuf.bytes != [] { // the lock is taken
        senders := senders[i := senders[i].(phase := Waiting)];
        waiters := waiters + [i];
        return;
      }
      var job := senders[i].job;
      var ok := ReserveAndSerialize(job);
      if !ok {
        sendBuf.bytes := [];
        senders := senders[i := senders[i].(phase := Left(SerializationFailed))];
        return;
      }
      var n, draw := 0, senders[i].draw;
      if job.Request? {
        n := Draw();
        draws := draws + 1;
        draw := draws;
      } else {
        n := job.sequenceNumber;
      }
      SerializeHeader(job, n);
      senders := senders[i := Sender(job, Writing(0), draw)];
      owner := By(i);
      log := log + [Entry(i, sendBuf.bytes, n, draw)];
    }

    /** Leaves room for the header and appends the body. */
    method ReserveAndSerialize(job: Job) returns (ok: bool)
      requires sendBuf.bytes == []
      modifies sendBuf
      ensures ok <==> job.Command? || EncodeBody(job.pdu).Ok?
      ensures forall n :: Frame(job, n).Ok? <==> ok
      ensures ok ==> |sendBuf.bytes| >= HEADER_LENGTH && sendBuf.bytes[HEADER_LENGTH..] == BodyOf(job)
    {
      sendBuf.Insert([0, 0, 0, 0, 0, 0, 0, 0, 0, 0, 0, 0, 0, 0, 0, 0]);
      if job.Command? {
        return true;
      }
      ok := Schema.SerializeTo(sendBuf, FieldsOf(job.pdu), job.pdu.vals);
    }

    /** Writes the header over the room left for it. */
    method SerializeHeader(job: Job, n: U32)
      requires job.Command? || EncodeBody(job.pdu).Ok?
      requires |sendBuf.bytes| >= HEADER_LENGTH && sendBuf.bytes[HEADER_LENGTH..] == BodyOf(job)
      modifies sendBuf
      ensures Frame(job, n) == Ok(sendBuf.bytes)
      ensures sendBuf.bytes[HEADER_LENGTH..] == old(sendBuf.bytes)[HEADER_LENGTH..]
      ensures var h := HeaderCodec.Deserialize(sendBuf.bytes);
              && h.commandLength == |sendBuf.bytes| % 0x1_0000_0000 && h.sequenceNumber == n
              && h.commandId == (if job.Command? then job.commandId else job.pdu.commandId)
              && h.commandStatus == if job.Response? then job.commandStatus else 0
    {
      hide EncodeBody, WfPdu;
      var id := if job.Command? then job.commandId else job.pdu.commandId;
      var status := if job.Response? then job.commandStatus else ROK;
      ghost var body := sendBuf.bytes[HEADER_LENGTH..];
      DeserializeSerialize(Header(|sendBuf.bytes| % 0x1_0000_0000, id, status, n), body);
      SerializeInPlace(sendBuf, Header(|sendBuf.bytes| % 0x1_0000_0000, id, status, n));
    }

    static ghost function BodyOf(job: Job): seq<Octet>
      requires job.Command? || EncodeBody(job.pdu).Ok?
    {
      if job.Command? then [] else EncodeBody(job.pdu).value
    }

    /** The user's cancellation, while the operation waits or before it resumes. */
    method CancelWait(i: nat)
      requires Enabled(Model(), Cancel(i))
      modifies this`senders, this`waiters
      ensures Model() == Step(old(Model()), Cancel(i))
    {
      if senders[i].phase.Woken? {
        senders := senders[i := senders[i].(phase := Woken(true))];
      } else {
        senders := senders[i := senders[i].(phase := Aborting)];
        LeaveQueue(i);
      }
    }

    /** Takes the operation off the wait queue; the others keep their order. */
    method LeaveQueue(i: nat)
      modifies this`waiters
      ensures waiters == RemoveFrom(old(waiters), i)
    {
      var k := 0;
      assert waiters[0..] == waiters;
      while k < |waiters| && waiters[k] != i
        invariant k <= |waiters|
        invariant RemoveFrom(waiters, i) == waiters[..k] + RemoveFrom(waiters[k..], i)
      {
        assert waiters[k..][1..] == waiters[k + 1..];
        assert waiters[..k] + ([waiters[k]] + RemoveFrom(waiters[k + 1..], i))
            == waiters[..k + 1] + RemoveFrom(waiters[k + 1..], i);
        k := k + 1;
      }
      if k < |waiters| {
        assert waiters[k..][1..] == waiters[k + 1..];
        waiters := waiters[..k] + waiters[k + 1..];
      }
    }

    /** The socket takes `n` octets of the buffer that is being written. */
    method MoveOctets(i: nat, n: nat)
      requires Enabled(Model(), Move(i, n))
      modifies this`senders, this`wire
      ensures Model() == Step(old(Model()), Move(i, n))
    {
      var written := senders[i].phase.written;
      wire := wire + sendBuf.bytes[written..written + n];
      senders := senders[i := senders[i].(phase := Writing(written + n))];
    }

    /** The write has ended. A command whose write timed out leaves at once. */
    method FinishWrite(i: nat, result: WriteResult)
      requires Enabled(Model(), Finish(i, result))
      modifies this, sendBuf
      ensures socketOpen == old(socketOpen)
      ensures Model() == Step(old(Model()), Finish(i, result))
      ensures old(i !in waiters) ==>
                senders[i].phase
                == Left(match result case Done => Sent case Error => WriteFailed case Timeout => WriteTimedOut)
    {
      owner := Nobody;
      intact := intact && result == Done;
      if result == Timeout {
        senders := senders[i := senders[i].(phase := Left(WriteTimedOut))];
        return;
      }
      sendBuf.bytes := [];
      senders := senders[i := senders[i].(phase := Left(if result == Done then Sent else WriteFailed))];
      CancelOne();
    }

    /** send_cv_.cancel_one: wakes the first waiter, and is lost without one. */
    method CancelOne()
      modifies this`senders, this`waiters
      ensures Model() == WakeOne(old(Model()))
    {
      if waiters != [] && waiters[0] < |senders| {
        senders := senders[waiters[0] := senders[waiters[0]].(phase := Woken(false))];
        waiters := waiters[1..];
      }
    }
  }
}
