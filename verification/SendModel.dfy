/** The sending half of a session as a state machine on values: any number of
    concurrent async_send and async_send_command operations share one buffer. A
    non-empty buffer is the lock, and a timer that never expires is the condition
    variable on which operations wait for it. */
module SendModel {
  import opened Octets
  import opened HeaderCodec
  import opened Pdus
  import opened SequenceNumbers

  datatype AnyJob =
    | Request(pdu: Pdu)
    | Response(pdu: Pdu, sequenceNumber: U32, commandStatus: U32)
    | Command(commandId: U32, sequenceNumber: U32)

  /** The types of the source admit only PDUs of the variant, and the session
      itself sends only the four control commands. */
  type Job = j: AnyJob | if j.Command? then IsControl(j.commandId) else WfPdu(j.pdu) witness Command(ENQUIRE_LINK, 1)

  datatype Outcome = Sent | SerializationFailed | WaitCancelled | WriteFailed | WriteTimedOut

  /** Where an operation is. `Called`: started, its body not entered yet. `Woken`:
      taken off the wait queue by cancel_one, but not resumed yet; the user may
      cancel it in the meantime. `Aborting`: taken off by the user's cancellation. */
  datatype Phase =
    | Called
    | Waiting
    | Aborting
    | Woken(cancelled: bool)
    | Writing(written: nat)
    | Left(outcome: Outcome)

  /** `draw` is the number of the draw that gave the operation its sequence
      number, or 0 if it has drawn none. */
  datatype Sender = Sender(job: Job, phase: Phase, draw: nat)

  datatype Owner = Nobody | By(sender: nat)

  /** A frame whose write was begun. */
  datatype Entry = Entry(sender: nat, frame: seq<Octet>, sequenceNumber: U32, draw: nat)

  /** `buf` is send_buf_, `queue` the waiters of send_cv_, and `counter` is
      sequence_number_. The rest is history: the number of draws, the operation
      whose write is in progress, the octets the socket has taken, the frames in
      the order in which the lock was taken, and whether no write has failed. */
  datatype State = State(
    buf: seq<Octet>, queue: seq<nat>, senders: seq<Sender>, counter: Counter,
    draws: nat, owner: Owner, wire: seq<Octet>, log: seq<Entry>, intact: bool)

  const INITIAL := State([], [], [], 0, 0, Nobody, [], [], true)

  datatype WriteResult = Done | Error | Timeout

  datatype Event =
    | Call(job: Job)
    | CallFresh(commandId: U32)          // the argument is drawn by the caller
    | Enter(i: nat)
    | Cancel(i: nat)
    | Resume(i: nat)
    | Move(i: nat, n: nat)               // the socket takes n octets more
    | Finish(i: nat, result: WriteResult)

  // -------------------------------------------------------------------------
  // Frames

  const ROK: U32 := 0

  function FrameOf(h: Header, body: seq<Octet>): seq<Octet> {
    HeaderCodec.Serialize(h.(commandLength := (HEADER_LENGTH + |body|) % 0x1_0000_0000)) + body
  }

  /** The frame that an operation sends under this sequence number; `Err` when
      its PDU cannot be serialized. */
  function Frame(job: Job, n: U32): Result<seq<Octet>> {
    match job
    case Command(id, _) => Ok(FrameOf(Header(0, id, ROK, n), []))
    case Request(p) =>
      var body := EncodeBody(p);
      if body.Err? then Err else Ok(FrameOf(Header(0, p.commandId, ROK, n), body.value))
    case Response(p, _, status) =>
      var body := EncodeBody(p);
      if body.Err? then Err else Ok(FrameOf(Header(0, p.commandId, status, n), body.value))
  }

  lemma FrameIsNotEmpty(job: Job, n: U32)
    ensures Frame(job, n).Ok? ==> |Frame(job, n).value| >= HEADER_LENGTH
  {
  }

  /** Requests draw when they hold the lock; the others bring their number. */
  function NumberOf(s: State, job: Job): U32 {
    if job.Request? then NextSequenceNumber(s.counter) else job.sequenceNumber
  }

  // -------------------------------------------------------------------------
  // Steps

  predicate Enabled(s: State, e: Event) {
    match e
    case Call(_) => true
    case CallFresh(id) => IsControl(id)
    case Enter(i) => i < |s.senders| && s.senders[i].phase == Called
    case Cancel(i) => i < |s.senders| && (s.senders[i].phase == Waiting || s.senders[i].phase.Woken?)
    case Resume(i) => i < |s.senders| && (s.senders[i].phase == Aborting || s.senders[i].phase.Woken?)
    case Move(i, n) => i < |s.senders| && s.senders[i].phase.Writing? && 0 < n <= |s.buf| - s.senders[i].phase.written
    case Finish(i, result) =>
      && i < |s.senders| && s.senders[i].phase.Writing?
      && (result == Done ==> s.senders[i].phase.written == |s.buf|)
      && (result == Timeout ==> s.senders[i].job.Command?)
  }

  function At(s: State, i: nat, phase: Phase): State
    requires i < |s.senders|
  {
    s.(senders := s.senders[i := s.senders[i].(phase := phase)])
  }

  /** From the test of the lock to the next suspension or the end. */
  function Acquire(s: State, i: nat): State
    requires i < |s.senders|
  {
    if s.buf != [] then At(s, i, Waiting).(queue := s.queue + [i])
    else
      var job := s.senders[i].job;
      var n := NumberOf(s, job);
      match Frame(job, n)
      case Err => At(s, i, Left(SerializationFailed))
      case Ok(f) =>
        var draw := if job.Request? then s.draws + 1 else s.senders[i].draw;
        s.(buf := f,
           counter := if job.Request? then n else s.counter,
           draws := if job.Request? then s.draws + 1 else s.draws,
           owner := By(i),
           senders := s.senders[i := Sender(job, Writing(0), draw)],
           log := s.log + [Entry(i, f, n, draw)])
  }

  /** cancel_one: the first waiter is woken, if there is one. */
  function WakeOne(s: State): State {
    if s.queue == [] || s.queue[0] >= |s.senders| then s
    else At(s, s.queue[0], Woken(false)).(queue := s.queue[1..])
  }

  function Release(s: State, i: nat, outcome: Outcome): State
    requires i < |s.senders|
  {
    WakeOne(At(s, i, Left(outcome)).(buf := [], owner := Nobody))
  }

  function RemoveFrom(queue: seq<nat>, i: nat): seq<nat> {
    if queue == [] then []
    else if queue[0] == i then queue[1..]
    else [queue[0]] + RemoveFrom(queue[1..], i)
  }

  function Step(s: State, e: Event): State
    requires Enabled(s, e)
  {
    match e
    case Call(job) => s.(senders := s.senders + [Sender(job, Called, 0)])
    case CallFresh(id) =>
      var n := NextSequenceNumber(s.counter);
      s.(counter := n, draws := s.draws + 1,
         senders := s.senders + [Sender(Command(id, n), Called, s.draws + 1)])
    case Enter(i) => Acquire(s, i)
    case Cancel(i) =>
      if s.senders[i].phase.Woken? then At(s, i, Woken(true))
      else At(s, i, Aborting).(queue := RemoveFrom(s.queue, i))
    case Resume(i) =>
      if s.senders[i].phase == Woken(false) then Acquire(s, i) else At(s, i, Left(WaitCancelled))
    case Move(i, n) =>
      var w := s.senders[i].phase.written;
      At(s, i, Writing(w + n)).(wire := s.wire + s.buf[w..w + n])
    case Finish(i, result) =>
      match result
      case Done => Release(s, i, Sent)
      case Error => Release(s, i, WriteFailed).(intact := false)
      case Timeout => At(s, i, Left(WriteTimedOut)).(owner := Nobody, intact := false)
  }

  // -------------------------------------------------------------------------
  // Runs

  ghost predicate IsRunFrom(s: State, es: seq<Event>) {
    es != [] ==>
      && IsRunFrom(s, es[..|es| - 1])
      && Enabled(ReachFrom(s, es[..|es| - 1]), es[|es| - 1])
  }

  ghost function ReachFrom(s: State, es: seq<Event>): State {
    if es == [] then s
    else
      var before := ReachFrom(s, es[..|es| - 1]);
      if Enabled(before, es[|es| - 1]) then Step(before, es[|es| - 1]) else before
  }

  /** The runs of a new session. */
  ghost predicate IsRun(es: seq<Event>) {
    IsRunFrom(INITIAL, es)
  }

  ghost function Reach(es: seq<Event>): State {
    ReachFrom(INITIAL, es)
  }

  // -------------------------------------------------------------------------
  // The wait queue

  /** The queue holds exactly the waiting operations, each once. */
  ghost predicate Queued(senders: seq<Sender>, queue: seq<nat>) {
    && (forall k | 0 <= k < |queue| :: queue[k] < |senders| && senders[queue[k]].phase == Waiting)
    && (forall j, k | 0 <= j < k < |queue| :: queue[j] != queue[k])
    && (forall i | 0 <= i < |senders| && senders[i].phase == Waiting :: i in queue)
  }

  ghost predicate QueueInv(s: State) {
    Queued(s.senders, s.queue)
  }

  lemma {:induction false} RemoveFromRemoves(queue: seq<nat>, i: nat)
    requires i in queue && forall j, k | 0 <= j < k < |queue| :: queue[j] != queue[k]
    ensures var rest := RemoveFrom(queue, i);
            && (forall x :: x in rest <==> x in queue && x != i)
            && (forall j, k | 0 <= j < k < |rest| :: rest[j] != rest[k])
  {
    if queue[0] != i {
      var rest := RemoveFrom(queue[1..], i);
      RemoveFromRemoves(queue[1..], i);
      assert forall x :: x in queue <==> x == queue[0] || x in queue[1..];
      assert queue[0] !in queue[1..];
      assert queue[0] !in rest;
    } else {
      assert forall x :: x in queue <==> x == queue[0] || x in queue[1..];
    }
  }

  lemma AddSender(senders: seq<Sender>, queue: seq<nat>, new_: Sender)
    requires Queued(senders, queue) && new_.phase != Waiting
    ensures Queued(senders + [new_], queue)
  {
  }

  /** A change of phase that neither enters nor leaves the queue. */
  lemma ChangeSender(senders: seq<Sender>, queue: seq<nat>, i: nat, to: Sender)
    requires Queued(senders, queue) && i < |senders| && senders[i].phase != Waiting && to.phase != Waiting
    ensures Queued(senders[i := to], queue)
  {
  }

  lemma Enqueue(senders: seq<Sender>, queue: seq<nat>, i: nat, to: Sender)
    requires Queued(senders, queue) && i < |senders| && senders[i].phase != Waiting && to.phase == Waiting
    ensures Queued(senders[i := to], queue + [i])
  {
    var q := queue + [i];
    assert i !in queue;
    assert forall j | 0 <= j < |senders| && j in queue :: j in q;
  }

  lemma Dequeue(senders: seq<Sender>, queue: seq<nat>, i: nat, to: Sender)
    requires Queued(senders, queue) && i < |senders| && senders[i].phase == Waiting && to.phase != Waiting
    ensures Queued(senders[i := to], RemoveFrom(queue, i))
  {
    RemoveFromRemoves(queue, i);
    var rest := RemoveFrom(queue, i);
    forall k | 0 <= k < |rest|
      ensures rest[k] < |senders| && senders[i := to][rest[k]].phase == Waiting
    {
      assert rest[k] in rest;
    }
  }

  lemma QueueStep(s: State, e: Event)
    requires QueueInv(s) && Enabled(s, e)
    ensures QueueInv(Step(s, e))
  {
    hide Queued, Frame, WfPdu;
    match e {
      case Call(job) => AddSender(s.senders, s.queue, Sender(job, Called, 0));
      case CallFresh(id) =>
        AddSender(s.senders, s.queue, Sender(Command(id, NextSequenceNumber(s.counter)), Called, s.draws + 1));
      case Enter(i) => AcquireQueue(s, i);
      case Cancel(i) =>
        if s.senders[i].phase == Waiting {
          Dequeue(s.senders, s.queue, i, s.senders[i].(phase := Aborting));
        } else {
          ChangeSender(s.senders, s.queue, i, s.senders[i].(phase := Woken(true)));
        }
      case Resume(i) =>
        if s.senders[i].phase == Woken(false) {
          AcquireQueue(s, i);
        } else {
          ChangeSender(s.senders, s.queue, i, s.senders[i].(phase := Left(WaitCancelled)));
        }
      case Move(i, n) =>
        ChangeSender(s.senders, s.queue, i, s.senders[i].(phase := Writing(s.senders[i].phase.written + n)));
      case Finish(i, result) =>
        var outcome := if result == Done then Sent else if result == Error then WriteFailed else WriteTimedOut;
        ChangeSender(s.senders, s.queue, i, s.senders[i].(phase := Left(outcome)));
        WakeQueue(At(s, i, Left(outcome)).(buf := [], owner := Nobody));
    }
  }

  lemma AcquireQueue(s: State, i: nat)
    requires QueueInv(s) && i < |s.senders| && s.senders[i].phase != Waiting
    ensures QueueInv(Acquire(s, i))
  {
    hide Queued, Frame, WfPdu;
    if s.buf != [] {
      Enqueue(s.senders, s.queue, i, s.senders[i].(phase := Waiting));
    } else {
      ChangeSender(s.senders, s.queue, i, Acquire(s, i).senders[i]);
    }
  }

  lemma WakeQueue(s: State)
    requires QueueInv(s)
    ensures QueueInv(WakeOne(s))
  {
    if s.queue != [] {
      Dequeue(s.senders, s.queue, s.queue[0], s.senders[s.queue[0]].(phase := Woken(false)));
    }
  }
}
