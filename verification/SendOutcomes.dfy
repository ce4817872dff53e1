/** What becomes of each sending operation, in terms of the events of the run. */
module SendOutcomes {
  import opened Octets
  import opened HeaderCodec
  import opened Pdus
  import opened SequenceNumbers
  import opened SendModel
  import opened SendTheorems

  // -------------------------------------------------------------------------
  // Frames on the wire

  function IdOf(job: Job): U32 {
    if job.Command? then job.commandId else job.pdu.commandId
  }

  function StatusOf(job: Job): U32 {
    if job.Response? then job.commandStatus else ROK
  }

  /** What the peer reads in the header is the operation's own command, status and
      number, and the length of the frame; behind it stands the encoded PDU. */
  lemma HeaderOnTheWire(es: seq<Event>, k: nat)
    requires IsRun(es) && k < |Reach(es).log|
    ensures var s, x := Reach(es), Reach(es).log[k];
            && x.sender < |s.senders| && |x.frame| >= HEADER_LENGTH
            && var job, h := s.senders[x.sender].job, HeaderCodec.Deserialize(x.frame);
               && h.commandId == IdOf(job) && h.commandStatus == StatusOf(job) && h.sequenceNumber == x.sequenceNumber
               && h.commandLength == |x.frame| % 0x1_0000_0000
               && (job.Command? ==> |x.frame| == HEADER_LENGTH)
               && (!job.Command? ==> EncodeBody(job.pdu) == Result.Ok(x.frame[HEADER_LENGTH..]))
               && (!job.Request? ==> x.sequenceNumber == job.sequenceNumber)
  {
    hide ReachFrom, IsRunFrom, QueueInv, Frame, EncodeBody, WfPdu, HeaderCodec.Deserialize;
    LogOfRun(es);
    var s, x := Reach(es), Reach(es).log[k];
    assert Logged(s, x);
    FrameReads(s.senders[x.sender].job, x.sequenceNumber);
  }

  lemma FrameReads(job: Job, n: U32)
    requires Frame(job, n).Ok?
    ensures var f := Frame(job, n).value;
            && |f| >= HEADER_LENGTH
            && var h := HeaderCodec.Deserialize(f);
               && h.commandId == IdOf(job) && h.commandStatus == StatusOf(job) && h.sequenceNumber == n
               && h.commandLength == |f| % 0x1_0000_0000
               && (job.Command? ==> |f| == HEADER_LENGTH)
               && (!job.Command? ==> EncodeBody(job.pdu) == Result.Ok(f[HEADER_LENGTH..]))
  {
    hide EncodeBody, WfPdu;
    var body := if job.Command? then [] else EncodeBody(job.pdu).value;
    var f := Frame(job, n).value;
    DeserializeSerialize(Header(|f| % 0x1_0000_0000, IdOf(job), StatusOf(job), n), body);
    assert f[HEADER_LENGTH..] == body;
  }

  // -------------------------------------------------------------------------
  // Calls

  lemma {:induction false} RunUpTo(es: seq<Event>, k: nat)
    requires IsRun(es) && k <= |es|
    ensures IsRun(es[..k])
    decreases |es|
  {
    hide Enabled, ReachFrom;
    if k < |es| {
      RunAt(es, k);
    } else {
      assert es[..k] == es;
    }
  }

  lemma {:induction false} JobStays(es: seq<Event>, k: nat, i: nat)
    requires IsRun(es) && k <= |es| && i < |Reach(es[..k]).senders|
    ensures i < |Reach(es).senders| && Reach(es).senders[i].job == Reach(es[..k]).senders[i].job
    ensures Reach(es[..k]).senders[i].job.Command? ==>
              Reach(es).senders[i].draw == Reach(es[..k]).senders[i].draw
    decreases |es|
  {
    hide Enabled, Step, ReachFrom;
    if k == |es| {
      assert es[..k] == es;
    } else {
      var n := |es| - 1;
      var before := es[..n];
      RunAt(es, n);
      assert es[..n + 1] == es && before[..k] == es[..k];
      JobStays(before, k, i);
      InvariantsOfRun(before);
      StepContinues(Reach(before), es[n]);
      if Reach(before).senders[i].job.Command? {
        CommandKeepsDraw(Reach(before), es[n], i);
      }
    }
  }

  lemma CommandKeepsDraw(s: State, e: Event, i: nat)
    requires QueueInv(s) && Enabled(s, e) && i < |s.senders| && s.senders[i].job.Command?
    ensures i < |Step(s, e).senders| && Step(s, e).senders[i].draw == s.senders[i].draw
  {
    hide Frame, WfPdu, QueueInv;
    match e {
      case Enter(j) => AcquireKeepsDraw(s, j, i);
      case Resume(j) => AcquireKeepsDraw(s, j, i);
      case Finish(j, result) =>
      case _ =>
    }
  }

  lemma AcquireKeepsDraw(s: State, j: nat, i: nat)
    requires i < |s.senders| && j < |s.senders| && s.senders[i].job.Command?
    ensures i < |Acquire(s, j).senders| && Acquire(s, j).senders[i].draw == s.senders[i].draw
  {
    hide Frame, WfPdu;
  }

  /** Every call has its operation, for good: one started with a job has that job, and
      a fresh command bears the number of the draw made as it was started. */
  lemma CallsHaveOperations(es: seq<Event>, k: nat)
    requires IsRun(es) && k < |es| && (es[k].Call? || es[k].CallFresh?)
    ensures var i, draws := |Reach(es[..k]).senders|, Reach(es[..k]).draws;
            && i < |Reach(es).senders|
            && (es[k].Call? ==> Reach(es).senders[i].job == es[k].job)
            && (es[k].CallFresh? ==>
                  && IsControl(es[k].commandId)
                  && Reach(es).senders[i].job == Command(es[k].commandId, NthDraw(draws + 1))
                  && Reach(es).senders[i].draw == draws + 1)
  {
    hide ReachFrom, IsRunFrom, NthDraw, NextSequenceNumber;
    RunAt(es, k);
    DrawsOfRun(es[..k]);
    NextIsNth(Reach(es[..k]).draws);
    JobStays(es, k + 1, |Reach(es[..k]).senders|);
  }

  // -------------------------------------------------------------------------
  // Draws

  function FreshCalls(es: seq<Event>): nat {
    if es == [] then 0 else FreshCalls(es[..|es| - 1]) + if es[|es| - 1].CallFresh? then 1 else 0
  }

  ghost function RequestsIn(senders: seq<Sender>, log: seq<Entry>): nat {
    if log == [] then 0
    else RequestsIn(senders, log[..|log| - 1]) + if IsRequest(senders, log[|log| - 1]) then 1 else 0
  }

  /** No number is skipped: every draw was made for a fresh command or for a request
      that has taken the lock. */
  lemma {:induction false} DrawsAreCounted(es: seq<Event>)
    requires IsRun(es)
    ensures Reach(es).draws == FreshCalls(es) + RequestsIn(Reach(es).senders, Reach(es).log)
    decreases |es|
  {
    if es != [] {
      hide Enabled, Step, IsRequest;
      var n := |es| - 1;
      var before := es[..n];
      DrawsAreCounted(before);
      LogOfRun(before);
      DrawCountStep(Reach(before), es[n]);
    }
  }

  lemma DrawCountStep(s: State, e: Event)
    requires QueueInv(s) && LogInv(s) && Enabled(s, e)
    ensures var t := Step(s, e);
            t.draws == s.draws + (if e.CallFresh? then 1 else 0)
                       + RequestsIn(t.senders, t.log) - RequestsIn(s.senders, s.log)
  {
    hide Frame, WfPdu, IsRequest, Queued;
    var t := Step(s, e);
    StepContinues(s, e);
    LogInRange(s);
    SameRequests(s.senders, t.senders, s.log);
    if t.log != s.log {
      LogSnocDraws(s, e);
    }
  }

  lemma LogInRange(s: State)
    requires LogInv(s)
    ensures forall k | 0 <= k < |s.log| :: s.log[k].sender < |s.senders|
  {
    assert forall k | 0 <= k < |s.log| :: Logged(s, s.log[k]);
  }

  lemma LogSnocDraws(s: State, e: Event)
    requires Enabled(s, e) && Step(s, e).log != s.log
    ensures var t := Step(s, e);
            && t.log != [] && t.log[..|t.log| - 1] == s.log && !e.CallFresh?
            && t.draws == s.draws + if IsRequest(t.senders, t.log[|t.log| - 1]) then 1 else 0
  {
    hide Frame, WfPdu;
  }

  lemma {:induction false} SameRequests(ss: seq<Sender>, tt: seq<Sender>, log: seq<Entry>)
    requires |ss| <= |tt| && forall i | 0 <= i < |ss| :: tt[i].job == ss[i].job
    requires forall k | 0 <= k < |log| :: log[k].sender < |ss|
    ensures RequestsIn(tt, log) == RequestsIn(ss, log)
    decreases |log|
  {
    if log != [] {
      SameRequests(ss, tt, log[..|log| - 1]);
    }
  }

  // -------------------------------------------------------------------------
  // Outcomes

  ghost predicate Finished(es: seq<Event>, i: nat, result: WriteResult) {
    exists k :: 0 <= k < |es| && es[k] == Finish(i, result)
  }

  ghost predicate WasCancelled(es: seq<Event>, i: nat) {
    exists k :: 0 <= k < |es| && es[k] == Cancel(i)
  }

  /** Operation `i` has come to its turn since it was cancelled. */
  ghost predicate ResumedCancelled(es: seq<Event>, i: nat) {
    exists k :: 0 <= k < |es| && es[k] == Resume(i) && WasCancelled(es[..k], i)
  }

  /** At step `k`, operation `i` has come to a free lock with a PDU that cannot be
      encoded. */
  ghost predicate CannotEncodeAt(es: seq<Event>, i: nat, k: nat) {
    && k < |es| && (es[k] == Enter(i) || (es[k] == Resume(i) && !WasCancelled(es[..k], i)))
    && i < |Reach(es[..k]).senders| && Reach(es[..k]).buf == []
    && var job := Reach(es[..k]).senders[i].job; !job.Command? && EncodeBody(job.pdu).Err?
  }

  ghost predicate CouldNotEncode(es: seq<Event>, i: nat) {
    exists k :: CannotEncodeAt(es, i, k)
  }

  /** How operation `i` stands after the run, told by the events alone. */
  ghost predicate OutcomeInv(es: seq<Event>, i: nat)
    requires i < |Reach(es).senders|
  {
    var phase := Reach(es).senders[i].phase;
    && (phase == Left(Sent) <==> Finished(es, i, Done))
    && (phase == Left(WriteFailed) <==> Finished(es, i, Error))
    && (phase == Left(WriteTimedOut) <==> Finished(es, i, Timeout))
    && (phase == Left(WaitCancelled) <==> ResumedCancelled(es, i))
    && (phase == Left(SerializationFailed) <==> CouldNotEncode(es, i))
    && (WasCancelled(es, i) <==> phase == Aborting || phase == Woken(true) || phase == Left(WaitCancelled))
  }

  /** In every run, with or without failed writes: an operation has completed without
      error exactly if its write was done, with an error exactly if its write failed,
      and so on for every way to leave. */
  lemma {:induction false} OutcomeExactly(es: seq<Event>, i: nat)
    requires IsRun(es) && i < |Reach(es).senders|
    ensures OutcomeInv(es, i)
    decreases |es|
  {
    hide Enabled, Step, ReachFrom, OutcomeInv;
    if es == [] {
      NobodyAtFirst();
    } else {
      var n := |es| - 1;
      var before := es[..n];
      RunAt(es, n);
      assert es[..n + 1] == es;
      InvariantsOfRun(before);
      if i < |Reach(before).senders| {
        OutcomeExactly(before, i);
      } else {
        NothingYet(before, i);
      }
      OutcomeSnoc(es, i);
    }
  }

  lemma NobodyAtFirst()
    ensures |Reach([]).senders| == 0
  {
  }

  /** No event concerns an operation before it is called. */
  lemma {:induction false} NothingYet(es: seq<Event>, i: nat)
    requires IsRun(es) && i >= |Reach(es).senders|
    ensures !Finished(es, i, Done) && !Finished(es, i, Error) && !Finished(es, i, Timeout)
    ensures !WasCancelled(es, i) && !ResumedCancelled(es, i) && !CouldNotEncode(es, i)
  {
    hide Step, ReachFrom, IsRunFrom;
    forall k | 0 <= k < |es| ensures !Concerns(es[k], i) {
      RunAt(es, k);
      RunGrows(es, k);
      ConcernsCalled(Reach(es[..k]), es[k], i);
    }
  }

  predicate Concerns(e: Event, i: nat) {
    e == Enter(i) || e == Resume(i) || e == Cancel(i) || (e.Finish? && e.i == i) || (e.Move? && e.i == i)
  }

  lemma ConcernsCalled(s: State, e: Event, i: nat)
    requires Enabled(s, e)
    ensures Concerns(e, i) ==> i < |s.senders|
  {
  }

  lemma {:induction false} RunGrows(es: seq<Event>, k: nat)
    requires IsRun(es) && k <= |es|
    ensures |Reach(es[..k]).senders| <= |Reach(es).senders|
    decreases |es|
  {
    hide Enabled, Step, ReachFrom;
    if k == |es| {
      assert es[..k] == es;
    } else {
      var n := |es| - 1;
      var before := es[..n];
      RunAt(es, n);
      assert es[..n + 1] == es && before[..k] == es[..k];
      RunGrows(before, k);
      InvariantsOfRun(before);
      StepContinues(Reach(before), es[n]);
    }
  }

  lemma ExistsSnoc(es: seq<Event>, e: Event)
    requires es != []
    ensures var before, last := es[..|es| - 1], es[|es| - 1];
            (exists k :: 0 <= k < |es| && es[k] == e)
            <==> (exists k :: 0 <= k < |before| && before[k] == e) || last == e
  {
    var n := |es| - 1;
    assert forall k | 0 <= k < n :: es[..n][k] == es[k];
    if k :| 0 <= k < |es| && es[k] == e && k < n {
      assert es[..n][k] == e;
    }
  }

  lemma ResumedSnoc(es: seq<Event>, i: nat)
    requires es != []
    ensures var n := |es| - 1;
            ResumedCancelled(es, i)
            <==> ResumedCancelled(es[..n], i) || (es[n] == Resume(i) && WasCancelled(es[..n], i))
  {
    hide WasCancelled;
    var n := |es| - 1;
    var before := es[..n];
    if k :| 0 <= k < |es| && es[k] == Resume(i) && WasCancelled(es[..k], i) && k < n {
      assert before[k] == Resume(i) && before[..k] == es[..k];
    }
    if k :| 0 <= k < |before| && before[k] == Resume(i) && WasCancelled(before[..k], i) {
      assert es[k] == Resume(i) && before[..k] == es[..k];
    }
  }

  lemma CouldNotSnoc(es: seq<Event>, i: nat)
    requires es != []
    ensures CouldNotEncode(es, i) <==> CouldNotEncode(es[..|es| - 1], i) || CannotEncodeAt(es, i, |es| - 1)
  {
    hide WasCancelled, Reach, EncodeBody, WfPdu;
    var n := |es| - 1;
    var before := es[..n];
    assert forall k | 0 <= k < n :: before[..k] == es[..k] && before[k] == es[k];
    if k: nat :| CannotEncodeAt(es, i, k) && k < n {
      assert CannotEncodeAt(before, i, k);
    }
    if k: nat :| CannotEncodeAt(before, i, k) {
      assert CannotEncodeAt(es, i, k);
    }
  }

  lemma OutcomeSnoc(es: seq<Event>, i: nat)
    requires es != [] && IsRun(es) && i < |Reach(es).senders|
    requires var before := es[..|es| - 1];
             && QueueInv(Reach(before)) && Enabled(Reach(before), es[|es| - 1])
             && Reach(es) == Step(Reach(before), es[|es| - 1])
             && if i < |Reach(before).senders| then OutcomeInv(before, i)
                else && !Finished(before, i, Done) && !Finished(before, i, Error) && !Finished(before, i, Timeout)
                     && !WasCancelled(before, i) && !ResumedCancelled(before, i) && !CouldNotEncode(before, i)
    ensures OutcomeInv(es, i)
  {
    hide Enabled, Step, ReachFrom, IsRunFrom, CouldNotEncode, ResumedCancelled, EncodeBody, WfPdu, QueueInv;
    ExistsSnoc(es, Finish(i, Done));
    ExistsSnoc(es, Finish(i, Error));
    ExistsSnoc(es, Finish(i, Timeout));
    ExistsSnoc(es, Cancel(i));
    ResumedSnoc(es, i);
    CouldNotSnoc(es, i);
    hide Finished, WasCancelled;
    PhaseStep(Reach(es[..|es| - 1]), es[|es| - 1], i);
  }

  /** What a step makes of the phase of operation `i`, as far as leaving and cancelling
      go. */
  lemma PhaseStep(s: State, e: Event, i: nat)
    requires QueueInv(s) && Enabled(s, e) && i < |Step(s, e).senders|
    ensures var t := Step(s, e).senders[i].phase;
            if i >= |s.senders| then t == Called && !Concerns(e, i)
            else var p := s.senders[i].phase;
                 match e
                 case Finish(j, result) =>
                   if j == i
                   then p.Writing? && t == Left(OutcomeOf(result))
                   else t == p || (p == Waiting && t == Woken(false))
                 case Cancel(j) =>
                   if j == i then (p == Waiting && t == Aborting) || (p.Woken? && t == Woken(true)) else t == p
                 case Resume(j) =>
                   if j != i then t == p
                   else if p == Woken(false) then TriesLock(s, i, t)
                   else (p == Aborting || p == Woken(true)) && t == Left(WaitCancelled)
                 case Enter(j) => if j != i then t == p else p == Called && TriesLock(s, i, t)
                 case Move(j, _) => if j != i then t == p else p.Writing? && t.Writing?
                 case _ => t == p
  {
    hide Frame, EncodeBody, WfPdu;
    match e {
      case Enter(j) => AcquirePhase(s, j);
      case Resume(j) => AcquirePhase(s, j);
      case Finish(j, result) => FinishPhase(s, j, result);
      case _ =>
    }
  }

  function OutcomeOf(result: WriteResult): Outcome {
    match result
    case Done => Sent
    case Error => WriteFailed
    case Timeout => WriteTimedOut
  }

  ghost predicate TriesLock(s: State, i: nat, t: Phase)
    requires i < |s.senders|
  {
    var job := s.senders[i].job;
    if s.buf != [] then t == Waiting
    else if !job.Command? && EncodeBody(job.pdu).Err? then t == Left(SerializationFailed)
    else t == Writing(0)
  }

  lemma AcquirePhase(s: State, i: nat)
    requires i < |s.senders|
    ensures |Acquire(s, i).senders| == |s.senders|
    ensures TriesLock(s, i, Acquire(s, i).senders[i].phase)
    ensures forall j | 0 <= j < |s.senders| && j != i :: Acquire(s, i).senders[j].phase == s.senders[j].phase
  {
    hide EncodeBody, WfPdu;
  }

  lemma FinishPhase(s: State, i: nat, result: WriteResult)
    requires QueueInv(s) && Enabled(s, Finish(i, result))
    ensures var t := Step(s, Finish(i, result));
            && |t.senders| == |s.senders|
            && t.senders[i].phase == Left(OutcomeOf(result))
            && forall j | 0 <= j < |s.senders| && j != i ::
                 t.senders[j].phase == s.senders[j].phase
                 || (s.senders[j].phase == Waiting && t.senders[j].phase == Woken(false))
  {
    if s.queue != [] {
      assert s.senders[s.queue[0]].phase == Waiting;
    }
  }

  // -------------------------------------------------------------------------
  // Octets moved

  /** The octets that the socket has taken from operation `i`. */
  function Moved(es: seq<Event>, i: nat): nat {
    if es == [] then 0
    else
      var e := es[|es| - 1];
      Moved(es[..|es| - 1], i) + if e.Move? && e.i == i then e.n else 0
  }

  /** Operation `i` has a frame in the log of which `n` octets, or all, have gone. */
  ghost predicate HasFrameOf(log: seq<Entry>, i: nat, n: nat, all: bool) {
    exists k :: 0 <= k < |log| && log[k].sender == i && if all then |log[k].frame| == n else |log[k].frame| >= n
  }

  ghost predicate MovedInv(s: State, i: nat, n: nat)
    requires i < |s.senders|
  {
    var phase := s.senders[i].phase;
    && (phase.Writing? ==> n == phase.written)
    && (!TookLock(phase) ==> n == 0)
    && (TookLock(phase) ==> HasFrameOf(s.log, i, n, phase == Left(Sent)))
  }

  /** An operation that has completed without error has moved its whole frame, exactly;
      one that failed or timed out, no more than that; any other that has left,
      nothing. */
  lemma {:induction false} MovedExactly(es: seq<Event>, i: nat)
    requires IsRun(es) && i < |Reach(es).senders|
    ensures MovedInv(Reach(es), i, Moved(es, i))
    decreases |es|
  {
    hide Enabled, Step, ReachFrom, MovedInv;
    if es == [] {
      NobodyAtFirst();
    } else {
      var n := |es| - 1;
      var before := es[..n];
      RunAt(es, n);
      assert es[..n + 1] == es;
      InvariantsOfRun(before);
      if i < |Reach(before).senders| {
        MovedExactly(before, i);
      } else {
        NothingMovedYet(before, i);
      }
      MovedStep(Reach(before), es[n], i, Moved(before, i));
    }
  }

  lemma {:induction false} NothingMovedYet(es: seq<Event>, i: nat)
    requires IsRun(es) && i >= |Reach(es).senders|
    ensures Moved(es, i) == 0
    decreases |es|
  {
    if es != [] {
      hide Step, ReachFrom;
      var n := |es| - 1;
      RunAt(es, n);
      RunGrows(es, n);
      ConcernsCalled(Reach(es[..n]), es[n], i);
      NothingMovedYet(es[..n], i);
    }
  }

  lemma MovedStep(s: State, e: Event, i: nat, n: nat)
    requires QueueInv(s) && OwnerInv(s) && Enabled(s, e) && i < |Step(s, e).senders|
    requires if i < |s.senders| then MovedInv(s, i, n) else n == 0
    ensures MovedInv(Step(s, e), i, n + if e.Move? && e.i == i then e.n else 0)
  {
    hide QueueInv, EncodeBody, WfPdu, Frame, TriesLock;
    PhaseStep(s, e, i);
    LogStays(s, e, i, n);
    if e.Move? && e.i == i {
      MoveGoesOn(s, i, e.n);
    } else if (e.Enter? || e.Resume?) && e.i == i {
      LockMovesNothing(s, e, i);
    } else if e.Finish? && e.i == i {
      FinishMovesAll(s, i, e.result);
    }
  }

  lemma LogStays(s: State, e: Event, i: nat, n: nat)
    requires Enabled(s, e)
    ensures forall all: bool :: HasFrameOf(s.log, i, n, all) ==> HasFrameOf(Step(s, e).log, i, n, all)
  {
    StepLogs(s, e);
    hide Step;
    var t := Step(s, e);
    assert s.log <= t.log;
  }

  lemma MoveGoesOn(s: State, i: nat, n: nat)
    requires OwnerInv(s) && Enabled(s, Move(i, n))
    ensures var t := Step(s, Move(i, n));
            && t.senders[i].phase == Writing(s.senders[i].phase.written + n)
            && HasFrameOf(t.log, i, s.senders[i].phase.written + n, false)
  {
    assert s.owner == By(i);
    assert s.log[|s.log| - 1].sender == i;
  }

  lemma LockMovesNothing(s: State, e: Event, i: nat)
    requires Enabled(s, e) && (e == Enter(i) || e == Resume(i))
    ensures var t := Step(s, e).senders[i].phase;
            && !s.senders[i].phase.Writing? && !s.senders[i].phase.Left?
            && (t.Writing? ==> t.written == 0 && HasFrameOf(Step(s, e).log, i, 0, false))
            && (TookLock(t) ==> t.Writing?)
  {
    hide Frame, WfPdu;
    var t := Step(s, e);
    if t.senders[i].phase.Writing? {
      assert t.log[|t.log| - 1].sender == i;
    }
  }

  lemma FinishMovesAll(s: State, i: nat, result: WriteResult)
    requires QueueInv(s) && OwnerInv(s) && Enabled(s, Finish(i, result))
    ensures var w, t := s.senders[i].phase.written, Step(s, Finish(i, result));
            && !t.senders[i].phase.Writing? && TookLock(t.senders[i].phase)
            && HasFrameOf(t.log, i, w, t.senders[i].phase == Left(Sent))
  {
    FinishPhase(s, i, result);
    assert s.owner == By(i);
    var t := Step(s, Finish(i, result));
    assert t.log == s.log;
    assert t.log[|t.log| - 1].sender == i;
  }

  // -------------------------------------------------------------------------
  // First come, first served

  /** The last time that operation `i` has tried the lock; -1 if it has not. */
  function LastTry(es: seq<Event>, i: nat): int {
    if es == [] then -1
    else if es[|es| - 1] == Enter(i) || es[|es| - 1] == Resume(i) then |es| - 1
    else LastTry(es[..|es| - 1], i)
  }

  lemma {:induction false} LastTryIsPast(es: seq<Event>, i: nat)
    ensures LastTry(es, i) < |es|
    decreases |es|
  {
    if es != [] {
      LastTryIsPast(es[..|es| - 1], i);
    }
  }

  /** `x` stands before `y`. */
  ghost predicate Before(q: seq<nat>, x: nat, y: nat) {
    exists c, d :: 0 <= c < d < |q| && q[c] == x && q[d] == y
  }

  ghost predicate InOrder(es: seq<Event>, queue: seq<nat>) {
    forall x, y | Before(queue, x, y) :: LastTry(es, x) < LastTry(es, y)
  }

  lemma BeforeCons(h: nat, q: seq<nat>, x: nat, y: nat)
    ensures Before([h] + q, x, y) <==> (x == h && y in q) || Before(q, x, y)
  {
    var all := [h] + q;
    if x == h && y in q {
      var d :| 0 <= d < |q| && q[d] == y;
      assert all[0] == x && all[d + 1] == y;
    }
    if c, d :| 0 <= c < d < |q| && q[c] == x && q[d] == y {
      assert all[c + 1] == x && all[d + 1] == y;
    }
    if c, d :| 0 <= c < d < |all| && all[c] == x && all[d] == y {
      assert q[d - 1] == y;
      if c > 0 {
        assert q[c - 1] == x;
      }
    }
  }

  lemma BeforeSnoc(q: seq<nat>, i: nat, x: nat, y: nat)
    requires Before(q + [i], x, y)
    ensures Before(q, x, y) || (x in q && y == i)
  {
    var all := q + [i];
    var c, d :| 0 <= c < d < |all| && all[c] == x && all[d] == y;
    assert q[c] == x;
    if d < |q| {
      assert q[d] == y;
    }
  }

  /** The waiters stand in the order in which they came to a taken lock. */
  lemma {:induction false} WaitersStandInOrder(es: seq<Event>)
    requires IsRun(es)
    ensures InOrder(es, Reach(es).queue)
    decreases |es|
  {
    hide Enabled, Step, InOrder, LastTry;
    if es == [] {
      NoneAtFirst();
    } else {
      var n := |es| - 1;
      var before := es[..n];
      RunAt(es, n);
      assert es[..n + 1] == es;
      InvariantsOfRun(before);
      WaitersStandInOrder(before);
      QueueChanges(Reach(before), es[n]);
      OrderSnoc(es, Reach(before), Reach(es).queue);
    }
  }

  lemma NoneAtFirst()
    ensures InOrder([], Reach([]).queue)
  {
  }

  /** Some of the queue, in the old order. */
  ghost predicate Thinned(old_: seq<nat>, new_: seq<nat>) {
    forall x, y | Before(new_, x, y) :: Before(old_, x, y)
  }

  ghost predicate QueueStepIs(s: State, e: Event, queue: seq<nat>) {
    if (e.Enter? || e.Resume?) && e.i !in s.queue
    then queue == s.queue || queue == s.queue + [e.i]
    else !e.Enter? && !e.Resume? && Thinned(s.queue, queue)
  }

  lemma QueueChanges(s: State, e: Event)
    requires QueueInv(s) && Enabled(s, e)
    ensures QueueStepIs(s, e, Step(s, e).queue)
  {
    hide Frame, WfPdu, Thinned;
    match e {
      case Enter(i) =>
      case Resume(i) =>
      case Cancel(i) =>
        if s.senders[i].phase == Waiting {
          RemoveThins(s.queue, i);
        } else {
          SameThins(s.queue);
        }
      case Finish(i, result) =>
        SameThins(s.queue);
        if s.queue != [] {
          TailThins(s.queue);
        }
      case _ => SameThins(s.queue);
    }
  }

  lemma SameThins(q: seq<nat>)
    ensures Thinned(q, q)
  {
  }

  lemma TailThins(q: seq<nat>)
    requires q != []
    ensures Thinned(q, q[1..])
  {
    forall x, y | Before(q[1..], x, y) ensures Before(q, x, y) {
      BeforeCons(q[0], q[1..], x, y);
      assert [q[0]] + q[1..] == q;
    }
  }

  lemma {:induction false} RemoveThins(q: seq<nat>, i: nat)
    ensures Thinned(q, RemoveFrom(q, i))
  {
    hide Before;
    if q != [] {
      if q[0] == i {
        TailThins(q);
      } else {
        var rest := RemoveFrom(q[1..], i);
        RemoveThins(q[1..], i);
        RemoveIsWithin(q[1..], i);
        assert [q[0]] + q[1..] == q;
        forall x, y | Before([q[0]] + rest, x, y) ensures Before(q, x, y) {
          BeforeCons(q[0], rest, x, y);
          BeforeCons(q[0], q[1..], x, y);
        }
      }
    }
  }

  lemma {:induction false} RemoveIsWithin(q: seq<nat>, i: nat)
    ensures forall k | 0 <= k < |RemoveFrom(q, i)| :: RemoveFrom(q, i)[k] in q
  {
    if q != [] && q[0] != i {
      RemoveIsWithin(q[1..], i);
    }
  }

  lemma OrderSnoc(es: seq<Event>, s: State, queue: seq<nat>)
    requires es != [] && InOrder(es[..|es| - 1], s.queue) && QueueStepIs(s, es[|es| - 1], queue)
    ensures InOrder(es, queue)
  {
    hide Before;
    var n := |es| - 1;
    var e := es[n];
    forall x, y | Before(queue, x, y) ensures LastTry(es, x) < LastTry(es, y) {
      LastTryIsPast(es[..n], x);
      BeforeMeans(queue, x, y);
      if (e.Enter? || e.Resume?) && queue == s.queue + [e.i] {
        BeforeSnoc(s.queue, e.i, x, y);
      }
      if Before(s.queue, x, y) {
        BeforeMeans(s.queue, x, y);
      }
    }
  }

  lemma BeforeMeans(q: seq<nat>, x: nat, y: nat)
    ensures Before(q, x, y) ==> x in q && y in q
  {
  }

  /** The end of a write wakes the operation that has waited longest, if any waits. */
  lemma LongestWaiterIsWoken(es: seq<Event>, i: nat, result: WriteResult, j: nat) returns (w: nat)
    requires IsRun(es) && Enabled(Reach(es), Finish(i, result)) && result != Timeout
    requires j < |Reach(es).senders| && Reach(es).senders[j].phase == Waiting
    ensures w < |Reach(es).senders| && Reach(es).senders[w].phase == Waiting
    ensures Step(Reach(es), Finish(i, result)).senders[w].phase == Woken(false)
    ensures w == j || LastTry(es, w) < LastTry(es, j)
  {
    hide ReachFrom, IsRunFrom;
    InvariantsOfRun(es);
    WaitersStandInOrder(es);
    var s := Reach(es);
    assert j in s.queue;
    w := s.queue[0];
    ReleaseWakesFirst(s, i, result);
    var k :| 0 <= k < |s.queue| && s.queue[k] == j;
    assert k == 0 || Before(s.queue, w, j);
  }
}
