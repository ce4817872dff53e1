/** What each event makes of a receive: when it fails, posts, reads on or ends. */
module ReceiveOutcomes {
  import opened Octets
  import opened HeaderCodec
  import opened Pdus
  import opened Frames
  import opened SequenceNumbers
  import opened ReceiveModel
  import opened ReceiveTheorems

  // -------------------------------------------------------------------------
  // Actions and phases

  /** The operation waits for what it has begun, and for nothing once it is complete. */
  predicate WaitsFor(a: Action, phase: Phase) {
    match a
    case Read(_) => phase == Reading
    case Post => phase == Posting
    case Complete(_, _) => phase == Idle
    case Send(id, _) =>
      || (id == ENQUIRE_LINK && phase == SendingEnquireLink)
      || (id == UNBIND && phase == SendingLastUnbind)
      || (id == ENQUIRE_LINK_RESP && phase == SendingEnquireLinkResp)
      || (id == UNBIND_RESP && phase == SendingUnbindResp)
    case Undefined => true
  }

  /** The loop neither fails nor begins an enquiry. */
  ghost predicate LoopWaits(op: Op, stored: seq<Octet>) {
    var t := Advance(op, stored);
    && WaitsFor(t.action, t.op.phase)
    && (t.action.Undefined? ==> t.op.phase == Idle)
    && !(t.action.Complete? && t.action.result.Failed?)
    && (t.action.Send? ==> t.action.commandId in {ENQUIRE_LINK_RESP, UNBIND_RESP})
    && (t.op.needsPost <==> op.needsPost && !t.action.Read?)
    && (t.action.Post? ==> op.needsPost && HoldsFrame(State(t.op, t.stored)))
    && (t.action.Complete? && t.action.result.Delivered? ==> !op.needsPost)
  }

  lemma {:induction false} AdvanceWaits(op: Op, stored: seq<Octet>)
    ensures LoopWaits(op, stored)
    decreases |stored|
  {
    if IsEnquireLinkResp(stored) {
      AdvanceWaits(op.(header := HeaderCodec.Deserialize(stored)), stored[FrameLength(stored)..]);
    }
  }

  /** AdvanceWaits wherever a step gets to the loop. */
  lemma LoopFacts(s: State, ev: Event)
    ensures ev.Begin? ==> LoopWaits(FRESH, s.stored)
    ensures ev.ReadDone? ==>
              LoopWaits(s.op.(pendingEnquireLink := s.op.pendingEnquireLink && ev.data == []), s.stored + ev.data)
    ensures ev.SendDone? ==> LoopWaits(s.op, s.stored)
    ensures ev.SendDone? && HoldsFrame(s) ==> LoopWaits(s.op, s.stored[s.op.header.commandLength..])
  {
    hide Advance;
    forall op, b ensures LoopWaits(op, b) {
      AdvanceWaits(op, b);
    }
  }

  lemma StepWaits(s: State, ev: Event, counter: Counter)
    requires Enabled(s, ev)
    ensures var t := Step(s, ev, counter);
            && WaitsFor(t.action, t.op.phase)
            && (t.action.Undefined? ==>
                  || t.op.phase == Idle
                  || (t.op == s.op && t.stored == s.stored && !HoldsFrame(s)
                      && s.op.phase in {Posting, SendingEnquireLinkResp, SendingUnbindResp}))
  {
    hide Advance, HoldsFrame, HasFrame;
    LoopFacts(s, ev);
  }

  /** After every step but an undefined one, the operation waits for what the step
      has begun. */
  lemma {:induction false} WaitsForItsAction(run: seq<Stimulus>, k: nat)
    requires IsRun(run) && k < |run|
    ensures WaitsFor(Actions(run)[k], Reach(run[..k + 1]).op.phase)
  {
    hide Step, Enabled, Reach, IsRun, Actions, WaitsFor;
    LookBack(run, k);
    StepWaits(Reach(run[..k]), run[k].ev, run[k].counter);
  }

  // -------------------------------------------------------------------------
  // Failing

  /** `ev` reports an error that is not the passing of the keepalive interval. */
  predicate ReadFails(ev: Event, ec: ErrorCode) {
    ev.ReadDone? && ev.ec == ec && ec != NoError && (ec == OperationAborted ==> ev.cancelled)
  }

  /** `ev` reports that the send begun in the step before has failed. */
  ghost predicate SendFails(run: seq<Stimulus>, k: nat, ec: ErrorCode)
    requires k < |run|
  {
    && run[k].ev == SendDone(ec) && ec != NoError
    && k > 0 && Actions(run)[k - 1].Send? && Actions(run)[k - 1].commandId in {ENQUIRE_LINK, UNBIND_RESP}
  }

  lemma FailsStep(s: State, ev: Event, counter: Counter, ec: ErrorCode)
    requires Enabled(s, ev)
    ensures Step(s, ev, counter).action == Complete(false, Failed(ec)) <==>
              || ReadFails(ev, ec)
              || (ev == SendDone(ec) && ec != NoError
                  && (s.op.phase == SendingEnquireLink || (s.op.phase == SendingUnbindResp && HoldsFrame(s))))
    ensures CompletesWith(Step(s, ev, counter).action, Failed(ec)) ==>
              Step(s, ev, counter).action == Complete(false, Failed(ec))
    ensures CompletesWith(Step(s, ev, counter).action, Failed(ec)) ==>
              Step(s, ev, counter).stored == s.stored + Arrived(ev)
  {
    hide Advance, HoldsFrame, HasFrame;
    LoopFacts(s, ev);
  }

  /** A receive fails exactly when a read reports an error other than the passing of
      the interval, be it the user's cancellation, or when its enquire_link or its
      unbind_resp could not be sent; it fails with that error, leaves the socket
      open, and keeps the octets that came along. */
  lemma {:induction false} FailsExactly(run: seq<Stimulus>, k: nat, ec: ErrorCode)
    requires IsRun(run) && k < |run|
    ensures Actions(run)[k] == Complete(false, Failed(ec)) <==> ReadFails(run[k].ev, ec) || SendFails(run, k, ec)
    ensures CompletesWith(Actions(run)[k], Failed(ec)) ==>
              && Actions(run)[k] == Complete(false, Failed(ec))
              && Reach(run[..k + 1]).stored == Reach(run[..k]).stored + Arrived(run[k].ev)
  {
    hide Step, Enabled, Reach, IsRun, Actions, HoldsFrame, Arrived;
    LookBack(run, k);
    FailsStep(Reach(run[..k]), run[k].ev, run[k].counter, ec);
    if run[k].ev == SendDone(ec) {
      SendWasBegun(run, k);
    }
  }

  /** A send that ends was begun by the step before, unless that was undefined. */
  lemma SendWasBegun(run: seq<Stimulus>, k: nat)
    requires IsRun(run) && k < |run| && run[k].ev.SendDone?
    ensures k > 0
    ensures var s := Reach(run[..k]);
            && (s.op.phase == SendingEnquireLink || (s.op.phase == SendingUnbindResp && HoldsFrame(s)) ==>
                  Actions(run)[k - 1].Send? && WaitsFor(Actions(run)[k - 1], s.op.phase))
            && (Actions(run)[k - 1].Send? ==> WaitsFor(Actions(run)[k - 1], s.op.phase))
            && (Actions(run)[k - 1].Send? && Actions(run)[k - 1].commandId == UNBIND_RESP ==> HoldsFrame(s))
  {
    hide Step, Reach, IsRun, Actions, HoldsFrame;
    LookBack(run, k);
    NothingRunsAtFirst(run, k);
    assert run[..k - 1 + 1] == run[..k];
    LookBack(run, k - 1);
    EndsOfSteps(Reach(run[..k - 1]), run[k - 1].ev, run[k - 1].counter);
  }

  lemma NothingRunsAtFirst(run: seq<Stimulus>, k: nat)
    requires k < |run| && Enabled(Reach(run[..k]), run[k].ev) && run[k].ev.SendDone?
    ensures k > 0
  {
  }

  lemma EndsOfSteps(s: State, ev: Event, counter: Counter)
    requires Enabled(s, ev)
    ensures var t := Step(s, ev, counter);
            && WaitsFor(t.action, t.op.phase)
            && (t.op.phase == SendingEnquireLink ==> t.action.Send?)
            && (t.op.phase == SendingUnbindResp && HoldsFrame(State(t.op, t.stored)) ==> t.action.Send?)
            && (t.op.phase == SendingLastUnbind ==> t.action.Send?)
            && (t.action.Send? && t.action.commandId == UNBIND_RESP ==> HoldsFrame(State(t.op, t.stored)))
  {
    StepWaits(s, ev, counter);
    StepHolds(s, ev, counter);
    hide Advance, HoldsFrame, HasFrame;
  }

  lemma StepHolds(s: State, ev: Event, counter: Counter)
    requires Enabled(s, ev)
    ensures var t := Step(s, ev, counter);
            t.action.Send? && t.action.commandId == UNBIND_RESP ==> HoldsFrame(State(t.op, t.stored))
  {
    hide Advance, HasFrame;
    forall op, b ensures LoopHolds(op, b) {
      AdvanceHolds(op, b);
    }
    hide HoldsFrame;
    match ev {
      case Begin => assert LoopHolds(FRESH, s.stored);
      case ReadDone(data, ec, _) =>
        assert LoopHolds(s.op.(pendingEnquireLink := s.op.pendingEnquireLink && data == []), s.stored + data);
      case SendDone(ec) =>
        assert LoopHolds(s.op, s.stored);
        if HoldsFrame(s) {
          LengthFits(s);
          assert LoopHolds(s.op, s.stored[s.op.header.commandLength..]);
        }
      case Posted =>
    }
  }

  lemma LengthFits(s: State)
    requires HoldsFrame(s)
    ensures s.op.header.commandLength <= |s.stored|
  {
  }

  ghost predicate LoopHolds(op: Op, stored: seq<Octet>) {
    var t := Advance(op, stored);
    t.action.Send? && t.action.commandId == UNBIND_RESP ==> HoldsFrame(State(t.op, t.stored))
  }

  lemma {:induction false} AdvanceHolds(op: Op, stored: seq<Octet>)
    ensures LoopHolds(op, stored)
    decreases |stored|
  {
    if IsEnquireLinkResp(stored) {
      AdvanceHolds(op.(header := HeaderCodec.Deserialize(stored)), stored[FrameLength(stored)..]);
    }
  }

  // -------------------------------------------------------------------------
  // The keepalive

  /** The last unbind ends the receive, whether or not it could be sent. */
  lemma {:induction false} LastUnbindEndsReceive(run: seq<Stimulus>, k: nat)
    requires IsRun(run) && k + 1 < |run|
    requires Actions(run)[k].Send? && Actions(run)[k].commandId == UNBIND
    ensures run[k + 1].ev.SendDone?
    ensures Actions(run)[k + 1] == Complete(true, KeepaliveExpired)
    ensures Reach(run[..k + 2]).stored == Reach(run[..k + 1]).stored
  {
    hide Step, Enabled, Reach, IsRun, Actions;
    WaitsForItsAction(run, k);
    LookBack(run, k + 1);
    assert run[..k + 1 + 1] == run[..k + 2];
    LastUnbindStep(Reach(run[..k + 1]), run[k + 1].ev, run[k + 1].counter);
  }

  lemma LastUnbindStep(s: State, ev: Event, counter: Counter)
    requires Enabled(s, ev) && s.op.phase == SendingLastUnbind
    ensures ev.SendDone?
    ensures Step(s, ev, counter).action == Complete(true, KeepaliveExpired) && Step(s, ev, counter).stored == s.stored
  {
    hide Advance;
  }

  /** Once an enquire_link has been sent, the receive reads on, if the buffer holds no
      whole frame that came along with the timeout. */
  lemma {:induction false} EnquiryReadsOn(run: seq<Stimulus>, k: nat)
    requires IsRun(run) && k + 1 < |run|
    requires Actions(run)[k].Send? && Actions(run)[k].commandId == ENQUIRE_LINK
    requires run[k + 1].ev == SendDone(NoError) && !HasFrame(Reach(run[..k + 1]).stored)
    ensures Actions(run)[k + 1] == Read(CAPACITY - |Reach(run[..k + 1]).stored|)
    ensures Reach(run[..k + 2]).stored == Reach(run[..k + 1]).stored
  {
    hide Step, Enabled, Reach, IsRun, Actions, HasFrame;
    WaitsForItsAction(run, k);
    LookBack(run, k + 1);
    assert run[..k + 1 + 1] == run[..k + 2];
    EnquiryStep(Reach(run[..k + 1]), run[k + 1].counter);
  }

  lemma EnquiryStep(s: State, counter: Counter)
    requires s.op.phase == SendingEnquireLink && !HasFrame(s.stored)
    ensures var t := Step(s, SendDone(NoError), counter);
            t.action == Read(CAPACITY - |s.stored|) && t.stored == s.stored
  {
  }

  /** An enquiry begins exactly when the interval passes while none is open that has
      met with silence. */
  lemma {:induction false} EnquiryExactly(run: seq<Stimulus>, k: nat)
    requires IsRun(run) && k < |run|
    ensures Actions(run)[k].Send? && Actions(run)[k].commandId == ENQUIRE_LINK
       <==> && run[k].ev.ReadDone? && run[k].ev.ec == OperationAborted && !run[k].ev.cancelled
            && !(run[k].ev.data == [] && AnEnquiryIsOpen(run[..k]))
  {
    hide Step, Enabled, Reach, IsRun, Actions, AnEnquiryIsOpen;
    LookBack(run, k);
    PendingExactly(run[..k]);
    EnquiryFacts(Reach(run[..k]), run[k].ev, run[k].counter);
  }

  lemma EnquiryFacts(s: State, ev: Event, counter: Counter)
    requires Enabled(s, ev)
    ensures var a := Step(s, ev, counter).action;
            a.Send? && a.commandId == ENQUIRE_LINK
            <==> && ev.ReadDone? && ev.ec == OperationAborted && !ev.cancelled
                 && !(ev.data == [] && s.op.pendingEnquireLink)
  {
    hide Advance, HoldsFrame, HasFrame;
    LoopFacts(s, ev);
  }

  /** What the keepalive sends, it sends under the next number of the session. */
  lemma {:induction false} KeepaliveDraws(run: seq<Stimulus>, k: nat)
    requires IsRun(run) && k < |run|
    requires Actions(run)[k].Send? && Actions(run)[k].commandId in {ENQUIRE_LINK, UNBIND}
    ensures run[k].ev.ReadDone? && run[k].ev.ec == OperationAborted && !run[k].ev.cancelled
    ensures forall j: nat | run[k].counter == NthDraw(j) :: Actions(run)[k].sequenceNumber == NthDraw(j + 1)
  {
    hide Step, Enabled, Reach, IsRun, Actions, NthDraw, NextSequenceNumber;
    LookBack(run, k);
    KeepaliveStep(Reach(run[..k]), run[k].ev, run[k].counter);
    forall j: nat | run[k].counter == NthDraw(j) ensures Actions(run)[k].sequenceNumber == NthDraw(j + 1) {
      NextIsNth(j);
    }
  }

  lemma KeepaliveStep(s: State, ev: Event, counter: Counter)
    requires Enabled(s, ev)
    ensures var a := Step(s, ev, counter).action;
            a.Send? && a.commandId in {ENQUIRE_LINK, UNBIND} ==>
              && ev.ReadDone? && ev.ec == OperationAborted && !ev.cancelled
              && a.sequenceNumber == NextSequenceNumber(counter)
  {
    hide Advance, HoldsFrame, HasFrame, NextSequenceNumber;
    LoopFacts(s, ev);
  }

  // -------------------------------------------------------------------------
  // Posting

  /** The receive that is outstanding, or was last, has begun a read. */
  ghost predicate HasRead(run: seq<Stimulus>) {
    exists i :: 0 <= i < |run| && Actions(run)[i].Read? && NoBeginAfter(run, i)
  }

  ghost predicate NoBeginAfter(run: seq<Stimulus>, i: nat) {
    forall k | i < k < |run| :: !run[k].ev.Begin?
  }

  lemma HasReadSnoc(run: seq<Stimulus>)
    requires run != []
    ensures var n := |run| - 1;
            HasRead(run) <==> LastTurn(run).action.Read? || (HasRead(run[..n]) && !run[n].ev.Begin?)
  {
    hide LastTurn, Actions, NoBeginAfter;
    var n := |run| - 1;
    var before := run[..n];
    ActionsSnoc(run);
    forall i | 0 <= i < n ensures NoBeginAfter(run, i) <==> NoBeginAfter(before, i) && !run[n].ev.Begin? {
      NoBeginSnoc(run, i);
    }
    NoBeginAtEnd(run);
    if LastTurn(run).action.Read? {
      assert Actions(run)[n].Read? && NoBeginAfter(run, n);
    }
    if i :| 0 <= i < |before| && Actions(before)[i].Read? && NoBeginAfter(before, i) {
      assert Actions(run)[i].Read?;
    }
    if i :| 0 <= i < |run| && Actions(run)[i].Read? && NoBeginAfter(run, i) && i < n {
      assert Actions(before)[i].Read?;
    }
  }

  lemma ActionsSnoc(run: seq<Stimulus>)
    requires run != []
    ensures Actions(run)[|run| - 1] == LastTurn(run).action
    ensures forall i | 0 <= i < |run| - 1 :: Actions(run)[i] == Actions(run[..|run| - 1])[i]
  {
    hide LastTurn;
  }

  lemma NoBeginAtEnd(run: seq<Stimulus>)
    requires run != []
    ensures NoBeginAfter(run, |run| - 1)
  {
  }

  lemma NoBeginSnoc(run: seq<Stimulus>, i: nat)
    requires i < |run| - 1
    ensures var n := |run| - 1;
            NoBeginAfter(run, i) <==> NoBeginAfter(run[..n], i) && !run[n].ev.Begin?
  {
    var before := run[..|run| - 1];
    assert forall k | i < k < |before| :: before[k] == run[k];
    assert NoBeginAfter(before, i) ==> forall k | i < k < |before| :: !before[k].ev.Begin?;
  }

  lemma {:induction false} NeedsPostExactly(run: seq<Stimulus>)
    requires IsRun(run)
    ensures Reach(run).op.needsPost <==> !HasRead(run)
    ensures Reach(run).op.phase == Posting ==> Reach(run).op.needsPost
    decreases |run|
  {
    if run != [] {
      hide Step, Enabled, HasRead;
      var n := |run| - 1;
      NeedsPostExactly(run[..n]);
      PostStep(Reach(run[..n]), run[n].ev, run[n].counter);
      HasReadSnoc(run);
    } else {
      assert !HasRead(run);
    }
  }

  lemma PostStep(s: State, ev: Event, counter: Counter)
    requires Enabled(s, ev) && (s.op.phase == Posting ==> s.op.needsPost)
    ensures var t := Step(s, ev, counter);
            && (t.op.needsPost <==> (ev.Begin? || s.op.needsPost) && !t.action.Read?)
            && (t.op.phase == Posting ==> t.op.needsPost)
            && (t.action.Post? ==> HoldsFrame(State(t.op, t.stored)))
            && (t.action.Complete? && t.action.result.Delivered? ==> (ev.Posted? <==> t.op.needsPost))
  {
    hide Advance, HoldsFrame, HasFrame;
    LoopFacts(s, ev);
  }

  /** A receive goes through the executor before it delivers exactly if it has not
      begun a read. */
  lemma {:induction false} PostsExactly(run: seq<Stimulus>, k: nat)
    requires IsRun(run) && k < |run|
    ensures Actions(run)[k].Post? ==> !HasRead(run[..k + 1])
    ensures Actions(run)[k].Complete? && Actions(run)[k].result.Delivered? ==>
              (run[k].ev.Posted? <==> !HasRead(run[..k + 1]))
    ensures Actions(run)[k].Post? && k + 1 < |run| ==>
              run[k + 1].ev.Posted? && Actions(run)[k + 1].Complete? && Actions(run)[k + 1].result.Delivered?
  {
    hide Step, Enabled, Reach, IsRun, Actions, HasRead, HoldsFrame, WaitsFor;
    LookBack(run, k);
    NeedsPostExactly(run[..k]);
    PostStep(Reach(run[..k]), run[k].ev, run[k].counter);
    StepWaits(Reach(run[..k]), run[k].ev, run[k].counter);
    RunUpTo(run, k + 1);
    NeedsPostExactly(run[..k + 1]);
    if Actions(run)[k].Post? {
      PostWaits(Actions(run)[k], Reach(run[..k + 1]).op.phase);
      if k + 1 < |run| {
        LookBack(run, k + 1);
        PostedDelivers(Reach(run[..k + 1]), run[k + 1].ev, run[k + 1].counter);
      }
    }
  }

  lemma RunUpTo(run: seq<Stimulus>, k: nat)
    requires IsRun(run) && k <= |run|
    ensures IsRun(run[..k])
  {
    hide IsRun;
    if k < |run| {
      LookBack(run, k);
    } else {
      assert run[..k] == run;
    }
  }

  lemma PostWaits(a: Action, phase: Phase)
    requires a.Post? && WaitsFor(a, phase)
    ensures phase == Posting
  {
  }

  lemma PostedDelivers(s: State, ev: Event, counter: Counter)
    requires Enabled(s, ev) && s.op.phase == Posting && HoldsFrame(s)
    ensures ev.Posted?
    ensures Step(s, ev, counter).action.Complete? && Step(s, ev, counter).action.result.Delivered?
  {
  }
}
