/** Two sessions and the stream between them: what concurrent senders put on the
    wire on one side is what successive receives deliver on the other. */
module EndToEnd {
  import opened Octets
  import opened HeaderCodec
  import Schema
  import opened Pdus
  import opened Frames
  import R = ReceiveModel
  import RT = ReceiveTheorems
  import opened SequenceNumbers
  import opened SendModel
  import ST = SendTheorems

  /** What the peer should see of a job that was sent under number `n`. */
  function Expected(job: Job, n: U32): seq<Observation> {
    match job
    case Request(p) => [Delivery(Decoded(p), n, ROK)]
    case Response(p, _, status) => [Delivery(Decoded(p), n, status)]
    case Command(id, _) =>
      if id == ENQUIRE_LINK then [Reply(n)] else if id == ENQUIRE_LINK_RESP then [] else [Unbound(id, n)]
  }

  /** C-strings without NULs, flags within their masks, sound parameters. */
  ghost predicate FaithfulJob(job: Job) {
    job.Command? || Schema.AllFaithful(FieldsOf(job.pdu), job.pdu.vals)
  }

  lemma FrameOfDecodes(h: Header, body: seq<Octet>)
    requires HEADER_LENGTH + |body| <= CAPACITY
    ensures var f := FrameOf(h, body);
            && |f| == HEADER_LENGTH + |body| && f[HEADER_LENGTH..] == body
            && HeaderCodec.Deserialize(f) == h.(commandLength := |f|)
            && IsFrame(f)
  {
    var h' := h.(commandLength := (HEADER_LENGTH + |body|) % 0x1_0000_0000);
    DeserializeSerialize(h', body);
  }

  lemma PduFrameIsExpected(p: Pdu, status: U32, n: U32)
    requires WfPdu(p) && EncodeBody(p).Ok? && HEADER_LENGTH + |EncodeBody(p).value| <= CAPACITY
    ensures var f := FrameOf(Header(0, p.commandId, status, n), EncodeBody(p).value);
            && IsFrame(f)
            && (Observe(f) == [Delivery(Decoded(p), n, status)] <==> Schema.AllFaithful(FieldsOf(p), p.vals))
  {
    hide FrameOf, Schema.AllFaithful, Find, EncodeBody, DecodeBody;
    var body := EncodeBody(p).value;
    var f := FrameOf(Header(0, p.commandId, status, n), body);
    FrameOfDecodes(Header(0, p.commandId, status, n), body);
    PduRoundTripExactly(p);
    NotControl(p);
    var item := DecodeFrame(f);
    assert Observe(f) == [Delivery(item, n, status)];
    assert item == Decoded(p) <==> DecodeBody(p.commandId, body) == Ok(p);
  }

  lemma NotControl(p: Pdu)
    requires WfPdu(p)
    ensures !IsControl(p.commandId)
  {
    hide Find;
    if IsControl(p.commandId) {
      ControlIdsAreNotPdus(p.commandId);
    }
  }

  /** A frame shows the peer what its sender meant exactly when the PDU is
      faithful. */
  lemma FrameIsExpected(job: Job, n: U32)
    requires Frame(job, n).Ok? && |Frame(job, n).value| <= CAPACITY
    ensures IsFrame(Frame(job, n).value)
    ensures Observe(Frame(job, n).value) == Expected(job, n) <==> FaithfulJob(job)
  {
    hide FrameOf, Schema.AllFaithful, EncodeBody, WfPdu;
    match job {
      case Request(p) =>
        FrameOfDecodesLength(Header(0, p.commandId, ROK, n), EncodeBody(p).value);
        PduFrameIsExpected(p, ROK, n);
      case Response(p, _, status) =>
        FrameOfDecodesLength(Header(0, p.commandId, status, n), EncodeBody(p).value);
        PduFrameIsExpected(p, status, n);
      case Command(id, _) =>
        FrameOfDecodes(Header(0, id, ROK, n), []);
    }
  }

  lemma FrameOfDecodesLength(h: Header, body: seq<Octet>)
    ensures |FrameOf(h, body)| == HEADER_LENGTH + |body|
  {
  }

  // -------------------------------------------------------------------------
  // The whole log

  function FramesOf(log: seq<Entry>): seq<seq<Octet>> {
    if log == [] then [] else FramesOf(log[..|log| - 1]) + [log[|log| - 1].frame]
  }

  /** What the peer should see of the whole log, in lock order. */
  ghost function ExpectedOf(senders: seq<Sender>, log: seq<Entry>): seq<Observation>
    requires forall x | x in log :: x.sender < |senders|
  {
    if log == [] then []
    else
      var x := log[|log| - 1];
      ExpectedOf(senders, log[..|log| - 1]) + Expected(senders[x.sender].job, x.sequenceNumber)
  }

  /** The log is sound, and each of its frames can be delivered whole. */
  ghost predicate Deliverable(senders: seq<Sender>, log: seq<Entry>) {
    forall x | x in log ::
      && x.sender < |senders|
      && Frame(senders[x.sender].job, x.sequenceNumber) == Ok(x.frame)
      && FaithfulJob(senders[x.sender].job) && |x.frame| <= CAPACITY
  }

  lemma {:induction false} LogReads(senders: seq<Sender>, log: seq<Entry>)
    requires Deliverable(senders, log)
    ensures ST.LogOctets(log) == Flatten(FramesOf(log))
    ensures AllFrames(FramesOf(log))
    ensures ObserveFrames(FramesOf(log)) == ExpectedOf(senders, log)
    ensures forall f | f in FramesOf(log) :: |f| <= CAPACITY
    decreases |log|
  {
    hide Frame, FaithfulJob, Observe, IsFrame, Expected;
    if log != [] {
      var before, x := log[..|log| - 1], log[|log| - 1];
      assert forall y | y in before :: y in log;
      LogReads(senders, before);
      assert x in log;
      FrameIsExpected(senders[x.sender].job, x.sequenceNumber);
      FlattenSnoc(FramesOf(before), x.frame);
      ObserveOne(x.frame);
      ObserveFramesAppend(FramesOf(before), [x.frame]);
    }
  }

  lemma ObserveOne(f: seq<Octet>)
    requires IsFrame(f)
    ensures AllFrames([f]) && ObserveFrames([f]) == Observe(f)
  {
    assert ObserveFrames([f]) == Observe(f) + ObserveFrames([]);
  }

  lemma {:induction false} FramesAreWellFramed(fs: seq<seq<Octet>>)
    requires AllFrames(fs) && forall f | f in fs :: |f| <= CAPACITY
    ensures WellFramed(Flatten(fs))
    decreases |fs|
  {
    hide WellFramed, IsFrame;
    if fs != [] {
      FramesAreWellFramed(fs[1..]);
      FrameThenRest(fs[0], Flatten(fs[1..]));
    } else {
      NothingIsWellFramed();
    }
  }

  lemma NothingIsWellFramed()
    ensures WellFramed([]) && ObserveAll([]) == []
  {
  }

  /** The log as a stream: well framed, and read as what was meant. */
  lemma {:induction false} LogStream(senders: seq<Sender>, log: seq<Entry>)
    requires Deliverable(senders, log)
    ensures WellFramed(ST.LogOctets(log))
    ensures ObserveAll(ST.LogOctets(log)) == ExpectedOf(senders, log)
  {
    hide WellFramed, ObserveAll;
    LogReads(senders, log);
    FramesAreWellFramed(FramesOf(log));
    ObserveAfterFrames(FramesOf(log), []);
    NothingIsWellFramed();
    assert Flatten(FramesOf(log)) + [] == Flatten(FramesOf(log));
  }

  // -------------------------------------------------------------------------
  // The theorem

  /** Every operation of the run that took the lock sent a frame that fits the
      peer's buffer and a PDU that survives the round trip. */
  ghost predicate AllDeliverable(s: State) {
    forall x | x in s.log && x.sender < |s.senders| :: FaithfulJob(s.senders[x.sender].job) && |x.frame| <= CAPACITY
  }

  lemma {:induction false} LogIsDeliverable(s: State)
    requires ST.LogInv(s) && AllDeliverable(s)
    ensures Deliverable(s.senders, s.log)
  {
    hide Frame, FaithfulJob;
    forall x | x in s.log
      ensures && x.sender < |s.senders| && Frame(s.senders[x.sender].job, x.sequenceNumber) == Ok(x.frame)
              && FaithfulJob(s.senders[x.sender].job) && |x.frame| <= CAPACITY
    {
      var k :| 0 <= k < |s.log| && s.log[k] == x;
      assert ST.Logged(s, x);
    }
  }

  /** For every interleaving of concurrent senders in which no write has failed,
      and every way in which the peer reads their octets, in whatever pieces and
      with whatever timeouts and failed receives: the peer shows exactly what the
      frames in lock order mean, as far as it has come; and when it has read all
      of them and waits for more, it has shown all of it. */
  lemma {:induction false} EndToEnd(es: seq<Event>, run: seq<R.Stimulus>)
    requires IsRun(es) && Reach(es).intact && AllDeliverable(Reach(es))
    requires R.IsRun(run) && R.OctetsRead(run) <= Reach(es).wire
    ensures Deliverable(Reach(es).senders, Reach(es).log)
    ensures R.ShownBy(R.Actions(run)) <= ExpectedOf(Reach(es).senders, Reach(es).log)
    ensures R.Reach(run).op.phase == R.Reading && R.OctetsRead(run) == Reach(es).wire && Reach(es).owner.Nobody? ==>
              R.ShownBy(R.Actions(run)) == ExpectedOf(Reach(es).senders, Reach(es).log)
  {
    hide IsRun, Reach, AllDeliverable, Deliverable, WellFramed, ObserveAll, ST.LogInv, QueueInv,
      R.Reach, R.IsRun, R.OctetsRead, R.ShownBy, R.Actions;
    var s := Reach(es);
    ST.LogOfRun(es);
    ST.WireIntegrity(es);
    LogIsDeliverable(s);
    LogStream(s.senders, s.log);
    RT.ShownIsPrefix(run, ST.LogOctets(s.log));
    RT.ReceiveReadsFrameByFrame(run);
  }

  // -------------------------------------------------------------------------
  // Deliveries only

  datatype Triple = Triple(pdu: Pdu, sequenceNumber: U32, commandStatus: U32)

  /** The PDUs among the observations. */
  function Deliveries(os: seq<Observation>): seq<Triple> {
    if os == [] then []
    else (if os[0].Delivery? && os[0].item.Decoded?
          then [Triple(os[0].item.pdu, os[0].sequenceNumber, os[0].commandStatus)] else [])
         + Deliveries(os[1..])
  }

  /** What the users of the sending session sent, in lock order, commands removed. */
  ghost function SentBy(senders: seq<Sender>, log: seq<Entry>): seq<Triple>
    requires forall x | x in log :: x.sender < |senders|
  {
    if log == [] then []
    else
      var x := log[|log| - 1];
      SentBy(senders, log[..|log| - 1])
      + match senders[x.sender].job
        case Request(p) => [Triple(p, x.sequenceNumber, ROK)]
        case Response(p, n, status) => [Triple(p, n, status)]
        case Command(_, _) => []
  }

  lemma {:induction false} DeliveriesAppend(xs: seq<Observation>, ys: seq<Observation>)
    ensures Deliveries(xs + ys) == Deliveries(xs) + Deliveries(ys)
  {
    if xs == [] {
      assert xs + ys == ys;
    } else {
      assert (xs + ys)[1..] == xs[1..] + ys;
      DeliveriesAppend(xs[1..], ys);
    }
  }

  lemma DeliveriesPrefix(xs: seq<Observation>, zs: seq<Observation>)
    requires xs <= zs
    ensures Deliveries(xs) <= Deliveries(zs)
  {
    assert zs == xs + zs[|xs|..];
    DeliveriesAppend(xs, zs[|xs|..]);
  }

  lemma {:induction false} ExpectedDeliveries(s: State, log: seq<Entry>)
    requires forall x | x in log :: ST.Logged(s, x)
    ensures forall x | x in log :: x.sender < |s.senders|
    ensures Deliveries(ExpectedOf(s.senders, log)) == SentBy(s.senders, log)
    decreases |log|
  {
    hide ST.Logged, Frame, WfPdu;
    LoggedInRange(s, log);
    if log != [] {
      var before, x := log[..|log| - 1], log[|log| - 1];
      assert forall y | y in before :: y in log;
      LoggedInRange(s, before);
      ExpectedDeliveries(s, before);
      assert x in log;
      DeliveriesAppend(ExpectedOf(s.senders, before), Expected(s.senders[x.sender].job, x.sequenceNumber));
      OneDelivery(s, x);
    }
  }

  lemma LoggedInRange(s: State, log: seq<Entry>)
    requires forall x | x in log :: ST.Logged(s, x)
    ensures forall x | x in log :: x.sender < |s.senders|
  {
  }

  lemma OneDelivery(s: State, x: Entry)
    requires ST.Logged(s, x)
    ensures Deliveries(Expected(s.senders[x.sender].job, x.sequenceNumber))
         == match s.senders[x.sender].job
            case Request(p) => [Triple(p, x.sequenceNumber, ROK)]
            case Response(p, n, status) => [Triple(p, n, status)]
            case Command(_, _) => []
  {
    hide Frame, WfPdu;
    var os := Expected(s.senders[x.sender].job, x.sequenceNumber);
    if os != [] {
      assert Deliveries(os[1..]) == [];
    }
  }

  /** A PDU that was sent, with the number that the operation drew or brought. */
  ghost function TripleOf(x: Sender): Triple
    requires !x.job.Command? && (x.job.Request? ==> x.draw > 0)
  {
    match x.job
    case Request(p) => Triple(p, NthDraw(x.draw), ROK)
    case Response(p, n, status) => Triple(p, n, status)
  }

  lemma {:induction false} SentByHolds(s: State, log: seq<Entry>, k: nat)
    requires forall x | x in log :: ST.Logged(s, x)
    requires k < |log| && log[k].sender < |s.senders| && !s.senders[log[k].sender].job.Command?
    requires s.senders[log[k].sender].job.Request? ==> log[k].draw > 0 && log[k].sequenceNumber == NthDraw(log[k].draw)
    ensures forall x | x in log :: x.sender < |s.senders|
    ensures s.senders[log[k].sender].job.Request? ==> s.senders[log[k].sender].draw > 0
    ensures TripleOf(s.senders[log[k].sender]) in SentBy(s.senders, log)
    decreases |log|
  {
    hide Frame, WfPdu, NthDraw;
    LoggedInRange(s, log);
    assert ST.Logged(s, log[k]);
    var before := log[..|log| - 1];
    assert forall x | x in before :: x in log;
    if k < |before| {
      assert before[k] == log[k];
      SentByHolds(s, before, k);
    }
  }

  /** The frames that the wire holds whole. */
  ghost function WholeLog(s: State): seq<Entry>
    requires s.owner.By? ==> s.log != []
  {
    if s.owner.By? then s.log[..|s.log| - 1] else s.log
  }

  lemma WireStartsWithWholeLog(es: seq<Event>) returns (rest: seq<Octet>)
    requires IsRun(es) && Reach(es).intact
    ensures ST.OwnerInv(Reach(es)) && (Reach(es).owner.By? ==> Reach(es).log != [])
    ensures Reach(es).wire == ST.LogOctets(WholeLog(Reach(es))) + rest
  {
    hide IsRunFrom, ReachFrom;
    ST.WireOfRun(es);
    var s := Reach(es);
    rest := if s.owner.By? then s.buf[..s.senders[s.owner.sender].phase.written] else [];
  }

  /** A peer that has read everything on the wire and waits for more has delivered
      every PDU in the frames that are on it whole. */
  lemma WholeLogIsDelivered(es: seq<Event>, run: seq<R.Stimulus>)
    requires IsRun(es) && Reach(es).intact && AllDeliverable(Reach(es))
    requires R.IsRun(run) && R.OctetsRead(run) == Reach(es).wire && R.Reach(run).op.phase == R.Reading
    ensures ST.OwnerInv(Reach(es)) && forall x | x in WholeLog(Reach(es)) :: ST.Logged(Reach(es), x)
    ensures var s := Reach(es);
            && (forall x | x in WholeLog(s) :: x.sender < |s.senders|)
            && SentBy(s.senders, WholeLog(s)) <= Deliveries(R.ShownBy(R.Actions(run)))
  {
    hide IsRunFrom, ReachFrom, AllDeliverable, Deliverable, WellFramed, ObserveAll, QueueInv, ST.Logged,
      R.Reach, R.IsRun, R.OctetsRead, R.ShownBy, R.Actions, ST.OwnerInv, Frame, FaithfulJob;
    var s := Reach(es);
    var rest := WireStartsWithWholeLog(es);
    EndToEnd(es, run);
    ST.LogOfRun(es);
    AllLogged(s);
    PartIsDeliverable(s);
    var whole := WholeLog(s);
    LoggedInRange(s, whole);
    LogReads(s.senders, whole);
    ST.WireIntegrity(es);
    LogIsDeliverable(s);
    LogStream(s.senders, s.log);
    RT.ShownIsPrefix(run, ST.LogOctets(s.log));
    RT.ReceiveReadsFrameByFrame(run);
    ObserveAfterFrames(FramesOf(whole), rest);
    ExpectedDeliveries(s, whole);
    DeliveriesPrefix(ExpectedOf(s.senders, whole), R.ShownBy(R.Actions(run)));
  }

  lemma AllLogged(s: State)
    requires ST.LogInv(s) && (s.owner.By? ==> s.log != [])
    ensures forall x | x in WholeLog(s) :: ST.Logged(s, x)
  {
    hide ST.Logged;
    forall x | x in WholeLog(s) ensures ST.Logged(s, x) {
      var k :| 0 <= k < |WholeLog(s)| && WholeLog(s)[k] == x;
      assert s.log[k] == x;
    }
  }

  lemma PartIsDeliverable(s: State)
    requires Deliverable(s.senders, s.log) && (s.owner.By? ==> s.log != [])
    ensures Deliverable(s.senders, WholeLog(s))
  {
    hide Frame, FaithfulJob;
    assert forall x | x in WholeLog(s) :: x in s.log;
  }

  /** So none that was reported as sent is lost: whatever async_send completed
      without error has been delivered, with its number and its status. */
  lemma {:induction false} SentIsDelivered(es: seq<Event>, run: seq<R.Stimulus>, i: nat)
    requires IsRun(es) && Reach(es).intact && AllDeliverable(Reach(es))
    requires R.IsRun(run) && R.OctetsRead(run) == Reach(es).wire && R.Reach(run).op.phase == R.Reading
    requires i < |Reach(es).senders| && Reach(es).senders[i].phase == Left(Sent)
    requires !Reach(es).senders[i].job.Command?
    ensures Reach(es).senders[i].job.Request? ==> Reach(es).senders[i].draw > 0
    ensures TripleOf(Reach(es).senders[i]) in Deliveries(R.ShownBy(R.Actions(run)))
  {
    hide IsRunFrom, ReachFrom, AllDeliverable, WellFramed, ObserveAll, QueueInv, ST.Logged, ST.DrawsOfSenders, WfPdu,
      R.Reach, R.IsRun, R.OctetsRead, R.ShownBy, R.Actions, Frame, FaithfulJob, NthDraw, TripleOf, Deliveries, SentBy;
    var s := Reach(es);
    WholeLogIsDelivered(es, run);
    ST.ServedOfRun(es);
    ST.DrawsOfRun(es);
    assert ST.InLog(s.log, i);
    var k :| 0 <= k < |s.log| && s.log[k].sender == i;
    assert s.owner.By? ==> s.owner.sender != i;
    assert ST.DrawOfEntry(s.senders, s.draws, s.log[k]);
    assert WholeLog(s)[k] == s.log[k];
    SentByHolds(s, WholeLog(s), k);
  }

  /** The peer's receives deliver a prefix of the PDUs sent, each with its sequence
      number and status, in lock order: none skipped, none twice, none changed. */
  lemma {:induction false} DeliveredIsPrefixOfSent(es: seq<Event>, run: seq<R.Stimulus>)
    requires IsRun(es) && Reach(es).intact && AllDeliverable(Reach(es))
    requires R.IsRun(run) && R.OctetsRead(run) <= Reach(es).wire
    ensures forall x | x in Reach(es).log :: x.sender < |Reach(es).senders|
    ensures Deliveries(R.ShownBy(R.Actions(run))) <= SentBy(Reach(es).senders, Reach(es).log)
  {
    hide IsRun, Reach, AllDeliverable, R.Reach, R.IsRun, R.OctetsRead, R.ShownBy, R.Actions,
      QueueInv, Frame, FaithfulJob;
    var s := Reach(es);
    EndToEnd(es, run);
    ST.LogOfRun(es);
    forall x | x in s.log ensures ST.Logged(s, x) {
      var k :| 0 <= k < |s.log| && s.log[k] == x;
    }
    ExpectedDeliveries(s, s.log);
    DeliveriesPrefix(R.ShownBy(R.Actions(run)), ExpectedOf(s.senders, s.log));
  }
}
