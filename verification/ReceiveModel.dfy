/** session::receive_op as a state machine on values: what one resumption of the
    coroutine does, and the runs of successive receives that follow from it. */
module ReceiveModel {
  import opened Octets
  import opened HeaderCodec
  import opened Pdus
  import opened Frames
  import opened SequenceNumbers

  // -------------------------------------------------------------------------
  // States, events and actions

  /** Where the coroutine is suspended; `Idle` when no receive is outstanding. */
  datatype Phase =
    | Idle
    | Reading
    | SendingEnquireLink
    | SendingLastUnbind
    | SendingEnquireLinkResp
    | SendingUnbindResp
    | Posting

  datatype Op = Op(phase: Phase, header: Header, needsPost: bool, pendingEnquireLink: bool)

  /** The operation and the contents of the receive buffer. */
  datatype State = State(op: Op, stored: seq<Octet>)

  datatype ErrorCode = NoError | OperationAborted | EnquireLinkTimeout | OtherError

  /** What resumes the coroutine. A read may carry octets along with an error;
      `cancelled` tells the user's cancellation from a timeout. */
  datatype Event =
    | Begin
    | ReadDone(data: seq<Octet>, ec: ErrorCode, cancelled: bool)
    | SendDone(ec: ErrorCode)
    | Posted

  /** Besides what the user is told, `Unbinded` records which frame ended the session;
      the operation still holds its header. */
  datatype Completion =
    | Delivered(item: Item, sequenceNumber: U32, commandStatus: U32)
    | Unbinded(commandId: U32, sequenceNumber: U32)
    | KeepaliveExpired
    | Failed(ec: ErrorCode)

  /** What the coroutine does before it is suspended or done; `shutDown` tells
      whether it shuts the socket down before it completes. `Undefined`
      stands for a command_length that does not even cover the header. */
  datatype Action =
    | Read(room: int)
    | Send(commandId: U32, sequenceNumber: U32)
    | Post
    | Complete(shutDown: bool, result: Completion)
    | Undefined

  function UnbindedBy(h: Header): Completion {
    Unbinded(h.commandId, h.sequenceNumber)
  }

  predicate IsUnbinded(a: Action) {
    a.Complete? && a.result.Unbinded?
  }

  predicate CompletesWith(a: Action, result: Completion) {
    a.Complete? && a.result == result
  }

  predicate ShutsDown(a: Action) {
    a.Complete? && a.shutDown
  }

  /** The frames of a turn are those whose effect is shown in it. */
  datatype Turn = Turn(op: Op, stored: seq<Octet>, action: Action, frames: seq<seq<Octet>>)

  const NO_HEADER := Header(0, 0, 0, 0)
  const FRESH := Op(Idle, NO_HEADER, true, false)
  const INITIAL := State(FRESH, [])

  // -------------------------------------------------------------------------
  // One resumption

  /** The operation has cached the header of the frame in front of the buffer. */
  predicate HoldsFrame(s: State) {
    HasFrame(s.stored) && s.op.header == HeaderCodec.Deserialize(s.stored) && FrameLength(s.stored) >= HEADER_LENGTH
  }

  function Deliver(op: Op, stored: seq<Octet>): Turn
    requires HoldsFrame(State(op, stored))
  {
    var n := op.header.commandLength;
    FrontIsFrame(stored);
    Turn(op.(phase := Idle), stored[n..],
         Complete(false, Delivered(DecodeFrame(stored[..n]), op.header.sequenceNumber, op.header.commandStatus)),
         [stored[..n]])
  }

  /** The loop of the coroutine from the size check on. Only the answer to an
      enquire_link lets it go around without being suspended. */
  function Advance(op: Op, stored: seq<Octet>): Turn
    decreases |stored|
  {
    if IsEnquireLinkResp(stored) then
      var n := FrameLength(stored);
      var t := Advance(op.(header := HeaderCodec.Deserialize(stored)), stored[n..]);
      t.(frames := [stored[..n]] + t.frames)
    else if HasFrame(stored) then HandleFrame(op.(header := HeaderCodec.Deserialize(stored)), stored)
    else
      var op := if |stored| >= HEADER_LENGTH then op.(header := HeaderCodec.Deserialize(stored)) else op;
      Turn(op.(phase := Reading, needsPost := false), stored, Read(CAPACITY - |stored|), [])
  }

  predicate IsEnquireLinkResp(stored: seq<Octet>) {
    && HasFrame(stored)
    && FrameLength(stored) >= HEADER_LENGTH
    && HeaderCodec.Deserialize(stored).commandId == ENQUIRE_LINK_RESP
  }

  /** Any other frame suspends or completes the operation. */
  function HandleFrame(op: Op, stored: seq<Octet>): Turn
    requires HasFrame(stored) && op.header == HeaderCodec.Deserialize(stored)
  {
    var n, id := op.header.commandLength, op.header.commandId;
    if n < HEADER_LENGTH then
      Turn(op.(phase := Idle), stored, Undefined, [])
    else if id == ENQUIRE_LINK then
      Turn(op.(phase := SendingEnquireLinkResp), stored,
           Send(ENQUIRE_LINK_RESP, op.header.sequenceNumber), [stored[..n]])
    else if id == UNBIND then
      Turn(op.(phase := SendingUnbindResp), stored, Send(UNBIND_RESP, op.header.sequenceNumber), [])
    else if id == UNBIND_RESP then
      Turn(op.(phase := Idle), stored[n..], Complete(true, UnbindedBy(op.header)), [stored[..n]])
    else if op.needsPost then
      Turn(op.(phase := Posting), stored, Post, [])
    else
      Deliver(op, stored)
  }

  /** The events that can resume the coroutine where it is suspended. A read
      fills at most the region it was given. */
  predicate Enabled(s: State, ev: Event) {
    match ev
    case Begin => s.op.phase == Idle
    case ReadDone(data, _, _) => s.op.phase == Reading && |s.stored| + |data| <= CAPACITY
    case Posted => s.op.phase == Posting
    case SendDone(_) => s.op.phase in {SendingEnquireLink, SendingLastUnbind, SendingEnquireLinkResp, SendingUnbindResp}
  }

  predicate WfState(s: State) {
    && |s.stored| <= CAPACITY
    && (s.op.phase == SendingEnquireLinkResp ==> HoldsFrame(s) && s.op.header.commandId == ENQUIRE_LINK)
    && (s.op.phase == SendingUnbindResp ==> HoldsFrame(s) && s.op.header.commandId == UNBIND)
    && (s.op.phase == Posting ==> HoldsFrame(s) && !IsControl(s.op.header.commandId))
    && (s.op.phase == Reading ==> !HasFrame(s.stored))
  }

  /** After the read: the keepalive, an error, or the loop. */
  function AfterRead(op: Op, stored: seq<Octet>, timedOut: bool, ec: ErrorCode, counter: Counter): Turn {
    if timedOut && op.pendingEnquireLink then
      Turn(op.(phase := SendingLastUnbind), stored, Send(UNBIND, NextSequenceNumber(counter)), [])
    else if timedOut then
      Turn(op.(phase := SendingEnquireLink, pendingEnquireLink := true), stored,
           Send(ENQUIRE_LINK, NextSequenceNumber(counter)), [])
    else if ec != NoError then
      Turn(op.(phase := Idle), stored, Complete(false, Failed(ec)), [])
    else
      Advance(op, stored)
  }

  function AfterSend(op: Op, stored: seq<Octet>, ec: ErrorCode): Turn {
    if op.phase == SendingLastUnbind then Turn(op.(phase := Idle), stored, Complete(true, KeepaliveExpired), [])
    else if op.phase == SendingEnquireLink then
      if ec != NoError then Turn(op.(phase := Idle), stored, Complete(false, Failed(ec)), []) else Advance(op, stored)
    else if !HoldsFrame(State(op, stored)) then Turn(op, stored, Undefined, [])
    else
      var n := op.header.commandLength;
      if op.phase == SendingEnquireLinkResp then Advance(op, stored[n..])
      else if ec != NoError then Turn(op.(phase := Idle), stored, Complete(false, Failed(ec)), [])
      else Turn(op.(phase := Idle), stored[n..], Complete(true, UnbindedBy(op.header)), [stored[..n]])
  }

  predicate TimedOut(ev: Event) {
    ev.ReadDone? && ev.ec == OperationAborted && !ev.cancelled
  }

  /** What the coroutine does when `ev` resumes it. Where it relies on the frame
      in front of the buffer, that frame is there (see `WfState`). */
  function Step(s: State, ev: Event, counter: Counter): Turn {
    if !Enabled(s, ev) then Turn(s.op, s.stored, Undefined, []) else
    match ev
    case Begin => Advance(FRESH, s.stored)
    case ReadDone(data, ec, _) =>
      var op := s.op.(pendingEnquireLink := s.op.pendingEnquireLink && data == []);
      AfterRead(op, s.stored + data, TimedOut(ev), ec, counter)
    case SendDone(ec) => AfterSend(s.op, s.stored, ec)
    case Posted => if HoldsFrame(s) then Deliver(s.op, s.stored) else Turn(s.op, s.stored, Undefined, [])
  }

  // -------------------------------------------------------------------------
  // What a turn keeps

  /** The buffered octets whose frames have not been shown yet: an enquire_link
      is consumed only after its answer has been sent. */
  function Unshown(s: State): seq<Octet> {
    if s.op.phase == SendingEnquireLinkResp && s.op.header.commandLength <= |s.stored|
    then s.stored[s.op.header.commandLength..] else s.stored
  }

  function Shown(a: Action): seq<Observation> {
    match a
    case Send(id, n) => if id == ENQUIRE_LINK_RESP then [Reply(n)] else []
    case Complete(_, Delivered(item, n, status)) => [Delivery(item, n, status)]
    case Complete(_, Unbinded(id, n)) => [Unbound(id, n)]
    case _ => []
  }

  /** A turn from octets `before`: it is defined, ends in a good state, accounts
      for every octet, and shows exactly what its frames call for. */
  ghost predicate Keeps(before: seq<Octet>, t: Turn) {
    && !t.action.Undefined?
    && WfState(State(t.op, t.stored))
    && AllFrames(t.frames)
    && before == Flatten(t.frames) + Unshown(State(t.op, t.stored))
    && ObserveFrames(t.frames) == Shown(t.action)
    && (t.op.phase == SendingEnquireLinkResp ==>
          t.frames != [] && t.stored == t.frames[|t.frames| - 1] + Unshown(State(t.op, t.stored)))
    && (t.action.Read? <==> t.op.phase == Reading)
    && (t.action.Read? ==> t.action.room == CAPACITY - |t.stored| > 0)
  }

  /** A turn that leaves the buffer alone and shows nothing. */
  lemma SilentTurnKeeps(op: Op, stored: seq<Octet>, action: Action)
    requires WfState(State(op, stored)) && Shown(action) == [] && !action.Undefined?
    requires op.phase != SendingEnquireLinkResp && op.phase != Reading && !action.Read?
    ensures Keeps(stored, Turn(op, stored, action, []))
  {
    assert Flatten([]) == [];
    assert [] + stored == stored;
  }

  lemma ReadTurnKeeps(op: Op, stored: seq<Octet>)
    requires op.phase == Reading && !HasFrame(stored) && |stored| < CAPACITY
    ensures Keeps(stored, Turn(op, stored, Read(CAPACITY - |stored|), []))
  {
    assert Flatten([]) == [];
    assert [] + stored == stored;
  }

  /** A turn that consumes the frame in front and completes. */
  lemma FrameTurnKeeps(op: Op, stored: seq<Octet>, action: Action)
    requires HoldsFrame(State(op, stored)) && |stored| <= CAPACITY
    requires Observe(FrameOf(op, stored)) == Shown(action) && action.Complete?
    ensures Keeps(stored, Turn(op.(phase := Idle), stored[op.header.commandLength..], action, [FrameOf(op, stored)]))
  {
    FrameInFront(State(op, stored));
  }

  /** A turn that answers the enquire_link in front, which stays for now. */
  lemma AnswerTurnKeeps(op: Op, stored: seq<Octet>)
    requires HoldsFrame(State(op, stored)) && |stored| <= CAPACITY && op.header.commandId == ENQUIRE_LINK
    ensures Keeps(stored, Turn(op.(phase := SendingEnquireLinkResp), stored,
                               Send(ENQUIRE_LINK_RESP, op.header.sequenceNumber), [FrameOf(op, stored)]))
  {
    FrameInFront(State(op, stored));
  }

  function FrameOf(op: Op, stored: seq<Octet>): (f: seq<Octet>)
    requires HoldsFrame(State(op, stored))
    ensures IsFrame(f) && HeaderCodec.Deserialize(f) == op.header
  {
    FrontIsFrame(stored);
    stored[..op.header.commandLength]
  }

  lemma HandleFrameKeeps(op: Op, stored: seq<Octet>)
    requires HoldsFrame(State(op, stored)) && !IsEnquireLinkResp(stored) && |stored| <= CAPACITY
    ensures Keeps(stored, HandleFrame(op, stored))
  {
    hide Keeps, WellFramed;
    var id := op.header.commandId;
    if id == ENQUIRE_LINK {
      AnswerTurnKeeps(op, stored);
    } else if id == UNBIND {
      SilentTurnKeeps(op.(phase := SendingUnbindResp), stored, Send(UNBIND_RESP, op.header.sequenceNumber));
    } else if id == UNBIND_RESP {
      FrameTurnKeeps(op, stored, Complete(true, UnbindedBy(op.header)));
    } else if op.needsPost {
      SilentTurnKeeps(op.(phase := Posting), stored, Post);
    } else {
      DeliverKeeps(op, stored);
    }
  }

  lemma DeliverKeeps(op: Op, stored: seq<Octet>)
    requires HoldsFrame(State(op, stored)) && !IsControl(op.header.commandId) && |stored| <= CAPACITY
    ensures Keeps(stored, Deliver(op, stored))
  {
    FrameTurnKeeps(op, stored, Deliver(op, stored).action);
  }

  lemma {:induction false} AdvanceKeeps(op: Op, stored: seq<Octet>)
    requires WellFramed(stored) && |stored| <= CAPACITY
    ensures Keeps(stored, Advance(op, stored))
    decreases |stored|
  {
    if IsEnquireLinkResp(stored) {
      var h := HeaderCodec.Deserialize(stored);
      var n := h.commandLength;
      FrameInFront(State(op.(header := h), stored));
      AdvanceKeeps(op.(header := h), stored[n..]);
      KeepsPrepend(stored[..n], stored[n..], Advance(op.(header := h), stored[n..]));
    } else if HasFrame(stored) {
      HandleFrameKeeps(op.(header := HeaderCodec.Deserialize(stored)), stored);
    } else {
      ReadTurnKeeps(Advance(op, stored).op, stored);
    }
  }

  lemma KeepsPrepend(f: seq<Octet>, rest: seq<Octet>, t: Turn)
    requires IsFrame(f) && Observe(f) == [] && Keeps(rest, t)
    ensures Keeps(f + rest, t.(frames := [f] + t.frames))
  {
    hide WfState, Unshown, IsFrame, Observe;
    var u := Unshown(State(t.op, t.stored));
    assert ([f] + t.frames)[1..] == t.frames;
    assert Flatten([f] + t.frames) == f + Flatten(t.frames);
    assert f + (Flatten(t.frames) + u) == (f + Flatten(t.frames)) + u;
    assert AllFrames([f] + t.frames);
    assert ObserveFrames([f] + t.frames) == Observe(f) + ObserveFrames(t.frames);
  }

  lemma OneFrame(f: seq<Octet>)
    requires IsFrame(f)
    ensures AllFrames([f]) && Flatten([f]) == f && ObserveFrames([f]) == Observe(f)
  {
    assert Flatten([f]) == f + Flatten([]);
    assert ObserveFrames([f]) == Observe(f) + ObserveFrames([]);
  }

  function Arrived(ev: Event): seq<Octet> {
    if ev.ReadDone? then ev.data else []
  }

  lemma StepKeeps(s: State, ev: Event, counter: Counter)
    requires WfState(s) && Enabled(s, ev)
    requires WellFramed(Unshown(s) + Arrived(ev))
    ensures Keeps(Unshown(s) + Arrived(ev), Step(s, ev, counter))
  {
    hide Keeps, Advance, WellFramed, HasFrame, HoldsFrame;
    match ev {
      case Begin =>
        assert Unshown(s) + [] == s.stored;
        AdvanceKeeps(FRESH, s.stored);
      case ReadDone(data, ec, _) =>
        AfterReadKeeps(s.op.(pendingEnquireLink := s.op.pendingEnquireLink && data == []), s.stored + data,
                       TimedOut(ev), ec, counter);
      case SendDone(ec) =>
        assert Unshown(s) + [] == Unshown(s);
        AfterSendKeeps(s, ec);
      case Posted =>
        assert Unshown(s) + [] == s.stored;
        DeliverKeeps(s.op, s.stored);
    }
  }

  lemma AfterReadKeeps(op: Op, stored: seq<Octet>, timedOut: bool, ec: ErrorCode, counter: Counter)
    requires op.phase == Reading && |stored| <= CAPACITY && WellFramed(stored)
    ensures Keeps(stored, AfterRead(op, stored, timedOut, ec, counter))
  {
    hide Keeps, Advance, WellFramed, HasFrame, HoldsFrame;
    if timedOut || ec != NoError {
      var t := AfterRead(op, stored, timedOut, ec, counter);
      SilentTurnKeeps(t.op, stored, t.action);
    } else {
      AdvanceKeeps(op, stored);
    }
  }

  lemma AfterSendKeeps(s: State, ec: ErrorCode)
    requires WfState(s) && Enabled(s, SendDone(ec)) && WellFramed(Unshown(s))
    ensures Keeps(Unshown(s), AfterSend(s.op, s.stored, ec))
  {
    hide Keeps, Advance, WellFramed;
    if s.op.phase == SendingEnquireLinkResp || (s.op.phase == SendingEnquireLink && ec == NoError) {
      AdvanceKeeps(s.op, Unshown(s));
    } else if s.op.phase == SendingUnbindResp && ec == NoError {
      FrameTurnKeeps(s.op, s.stored, Complete(true, UnbindedBy(s.op.header)));
    } else {
      SilentTurnKeeps(s.op.(phase := Idle), s.stored, AfterSend(s.op, s.stored, ec).action);
    }
  }

  lemma FrameInFront(s: State)
    requires HoldsFrame(s)
    ensures var f := s.stored[..s.op.header.commandLength];
            && IsFrame(f) && HeaderCodec.Deserialize(f) == s.op.header
            && s.stored == f + s.stored[|f|..]
            && AllFrames([f]) && Flatten([f]) == f && ObserveFrames([f]) == Observe(f)
  {
    FrontIsFrame(s.stored);
    OneFrame(s.stored[..s.op.header.commandLength]);
  }

  // -------------------------------------------------------------------------
  // Runs of successive receives

  /** An event, and the session's sequence counter at that moment, which other
      operations of the session change too. */
  datatype Stimulus = Stimulus(ev: Event, counter: Counter)

  ghost function LastTurn(run: seq<Stimulus>): Turn
    requires run != []
    decreases |run|, 0
  {
    var last := run[|run| - 1];
    Step(Reach(run[..|run| - 1]), last.ev, last.counter)
  }

  /** The state after the run, from a session that has received nothing. */
  ghost function Reach(run: seq<Stimulus>): State
    decreases |run|, 1
  {
    if run == [] then INITIAL else State(LastTurn(run).op, LastTurn(run).stored)
  }

  /** Every event finds the coroutine where it can resume it. */
  ghost predicate IsRun(run: seq<Stimulus>) {
    run != [] ==> IsRun(run[..|run| - 1]) && Enabled(Reach(run[..|run| - 1]), run[|run| - 1].ev)
  }

  ghost function Actions(run: seq<Stimulus>): (actions: seq<Action>)
    ensures |actions| == |run|
  {
    if run == [] then [] else Actions(run[..|run| - 1]) + [LastTurn(run).action]
  }

  ghost function FramesShown(run: seq<Stimulus>): seq<seq<Octet>> {
    if run == [] then [] else FramesShown(run[..|run| - 1]) + LastTurn(run).frames
  }

  /** All octets that the reads of the run brought in. */
  ghost function OctetsRead(run: seq<Stimulus>): seq<Octet> {
    if run == [] then [] else OctetsRead(run[..|run| - 1]) + Arrived(run[|run| - 1].ev)
  }

  ghost function ShownBy(actions: seq<Action>): seq<Observation> {
    if actions == [] then [] else ShownBy(actions[..|actions| - 1]) + Shown(actions[|actions| - 1])
  }
}
