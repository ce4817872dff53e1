/** What holds of every run of successive receives. */
module ReceiveTheorems {
  import opened Octets
  import opened HeaderCodec
  import opened Pdus
  import opened Frames
  import opened SequenceNumbers
  import opened ReceiveModel

  // -------------------------------------------------------------------------
  // Conservation, and independence of chunking

  /** Over any run, with whatever timeouts, errors and cancellations: the octets
      read are the frames shown, in order, followed by what is still buffered; and
      what was shown is what those frames call for. */
  lemma {:induction false} Conservation(run: seq<Stimulus>)
    requires IsRun(run) && WellFramed(OctetsRead(run))
    ensures WfState(Reach(run))
    ensures AllFrames(FramesShown(run))
    ensures OctetsRead(run) == Flatten(FramesShown(run)) + Unshown(Reach(run))
    ensures ShownBy(Actions(run)) == ObserveFrames(FramesShown(run))
    ensures run != [] ==> Keeps(Unshown(Reach(run[..|run| - 1])) + Arrived(run[|run| - 1].ev), LastTurn(run))
    decreases |run|
  {
    hide Step, WfState, WellFramed, ObserveAll, Unshown, Enabled, IsFrame, Keeps, Observe, Shown;
    if run == [] {
      InitialIsGood();
      assert Flatten([]) == [] && OctetsRead(run) == [];
    } else {
      var before, last := run[..|run| - 1], run[|run| - 1];
      var more := Arrived(last.ev);
      WellFramedPrefix(OctetsRead(before), more);
      Conservation(before);
      var fs, rest := FramesShown(before), Unshown(Reach(before));
      assert OctetsRead(run) == Flatten(fs) + (rest + more);
      ObserveAfterFrames(fs, rest + more);
      StepKeeps(Reach(before), last.ev, last.counter);
      JoinTurn(fs, rest + more, LastTurn(run));
      var done := Actions(run);
      assert done[..|done| - 1] == Actions(before) && done[|done| - 1] == LastTurn(run).action;
    }
  }

  lemma InitialIsGood()
    ensures WfState(INITIAL) && Unshown(INITIAL) == []
  {
  }

  lemma JoinTurn(fs: seq<seq<Octet>>, b: seq<Octet>, t: Turn)
    requires AllFrames(fs) && Keeps(b, t)
    ensures WfState(State(t.op, t.stored)) && AllFrames(fs + t.frames)
    ensures Flatten(fs) + b == Flatten(fs + t.frames) + Unshown(State(t.op, t.stored))
    ensures ObserveFrames(fs + t.frames) == ObserveFrames(fs) + Shown(t.action)
  {
    hide WfState, Unshown, IsFrame, Observe;
    ObserveFramesAppend(fs, t.frames);
    FlattenAppend(fs, t.frames);
    var u := Unshown(State(t.op, t.stored));
    assert Flatten(fs) + (Flatten(t.frames) + u) == (Flatten(fs) + Flatten(t.frames)) + u;
  }

  /** The receive loop is the frame-by-frame reading of the stream: what the run
      has shown, and what the buffer still holds, make up the reading of all the
      octets read. A run that waits for a read has shown all of it. */
  lemma {:induction false} ReceiveReadsFrameByFrame(run: seq<Stimulus>)
    requires IsRun(run) && WellFramed(OctetsRead(run))
    ensures ObserveAll(OctetsRead(run)) == ShownBy(Actions(run)) + ObserveAll(Unshown(Reach(run)))
    ensures Reach(run).op.phase == Reading ==> ObserveAll(OctetsRead(run)) == ShownBy(Actions(run))
  {
    Conservation(run);
    ObserveAfterFrames(FramesShown(run), Unshown(Reach(run)));
  }

  /** Two sessions that were sent the same octets, in whatever pieces and with
      whatever timeouts and failed receives in between, have shown the same once
      both wait for more. */
  lemma {:induction false} ChunkingInvariance(run: seq<Stimulus>, other: seq<Stimulus>)
    requires IsRun(run) && IsRun(other)
    requires OctetsRead(run) == OctetsRead(other) && WellFramed(OctetsRead(run))
    requires Reach(run).op.phase == Reading && Reach(other).op.phase == Reading
    ensures ShownBy(Actions(run)) == ShownBy(Actions(other))
  {
    ReceiveReadsFrameByFrame(run);
    ReceiveReadsFrameByFrame(other);
  }

  /** At any moment, a session is at most behind, never different. */
  lemma {:induction false} ShownIsPrefix(run: seq<Stimulus>, stream: seq<Octet>)
    requires IsRun(run) && WellFramed(stream) && OctetsRead(run) <= stream
    ensures WellFramed(OctetsRead(run))
    ensures ShownBy(Actions(run)) <= ObserveAll(stream)
  {
    var later := stream[|OctetsRead(run)|..];
    assert stream == OctetsRead(run) + later;
    WellFramedPrefix(OctetsRead(run), later);
    ReceiveReadsFrameByFrame(run);
    ObserveAllPrefix(OctetsRead(run), later);
  }

  /** The frames taken out of the buffer: those shown, except that the frame of
      an enquire_link stays until its answer has been sent. */
  ghost function Consumed(run: seq<Stimulus>): seq<seq<Octet>> {
    var fs := FramesShown(run);
    if Reach(run).op.phase == SendingEnquireLinkResp && fs != [] then fs[..|fs| - 1] else fs
  }

  /** No octet is lost, duplicated or reordered: all octets read so far are those
      of the consumed frames followed by the contents of the buffer. */
  lemma {:induction false} ByteConservation(run: seq<Stimulus>)
    requires IsRun(run) && WellFramed(OctetsRead(run))
    ensures OctetsRead(run) == Flatten(Consumed(run)) + Reach(run).stored
  {
    hide Step, WfState, WellFramed, IsFrame;
    Conservation(run);
    if run != [] && Reach(run).op.phase == SendingEnquireLinkResp {
      AllButLast(FramesShown(run[..|run| - 1]), LastTurn(run).frames, Unshown(Reach(run)));
    }
  }

  lemma AllButLast(fs: seq<seq<Octet>>, gs: seq<seq<Octet>>, rest: seq<Octet>)
    requires gs != []
    ensures var all := fs + gs;
            Flatten(all) + rest == Flatten(all[..|all| - 1]) + (gs[|gs| - 1] + rest)
  {
    var all, f := fs + gs, gs[|gs| - 1];
    assert all == all[..|all| - 1] + [f];
    FlattenSnoc(all[..|all| - 1], f);
    assert (Flatten(all[..|all| - 1]) + f) + rest == Flatten(all[..|all| - 1]) + (f + rest);
  }

  // -------------------------------------------------------------------------
  // Looking back in a run

  ghost function TurnAt(run: seq<Stimulus>, k: nat): Turn
    requires k < |run|
  {
    Step(Reach(run[..k]), run[k].ev, run[k].counter)
  }

  lemma {:induction false} LookBack(run: seq<Stimulus>, k: nat)
    requires IsRun(run) && k < |run|
    ensures IsRun(run[..k]) && Enabled(Reach(run[..k]), run[k].ev)
    ensures Actions(run)[k] == TurnAt(run, k).action
    ensures Reach(run[..k + 1]) == State(TurnAt(run, k).op, TurnAt(run, k).stored)
    decreases |run|
  {
    var before := run[..|run| - 1];
    if k < |run| - 1 {
      LookBack(before, k);
      assert before[..k] == run[..k] && before[..k + 1] == run[..k + 1];
    } else {
      assert run[..k] == before && run[..k + 1] == run;
    }
  }

  /** What Conservation says of the last turn holds of every turn. */
  lemma {:induction false} TurnKeeps(run: seq<Stimulus>, k: nat)
    requires IsRun(run) && k < |run| && WellFramed(OctetsRead(run))
    ensures Keeps(Unshown(Reach(run[..k])) + Arrived(run[k].ev), TurnAt(run, k))
    decreases |run|
  {
    hide Step, Enabled, WellFramed, Keeps, Unshown;
    var before := run[..|run| - 1];
    if k == |run| - 1 {
      Conservation(run);
      assert run[..k] == before;
    } else {
      WellFramedPrefix(OctetsRead(before), Arrived(run[|run| - 1].ev));
      TurnKeeps(before, k);
      assert before[..k] == run[..k];
    }
  }

  /** What the loop leaves alone, and what its outcomes say about the past. */
  lemma {:induction false} AdvanceFacts(op: Op, stored: seq<Octet>)
    ensures var t := Advance(op, stored);
            && t.op.pendingEnquireLink == op.pendingEnquireLink
            && t.op.phase !in {SendingLastUnbind, SendingEnquireLink}
            && (t.op.phase == SendingUnbindResp ==> t.action == Send(UNBIND_RESP, t.op.header.sequenceNumber))
            && (t.action.Send? ==> t.action.commandId in {ENQUIRE_LINK_RESP, UNBIND_RESP})
            && !CompletesWith(t.action, KeepaliveExpired)
            && (IsUnbinded(t.action) ==>
                  t.frames != [] && CommandOf(t.frames[|t.frames| - 1]) == UNBIND_RESP)
            && (t.action.Complete? && t.action.result.Delivered? ==> !op.needsPost)
    decreases |stored|
  {
    if IsEnquireLinkResp(stored) {
      AdvanceFacts(op.(header := HeaderCodec.Deserialize(stored)), stored[FrameLength(stored)..]);
    } else if HasFrame(stored) && FrameLength(stored) >= HEADER_LENGTH {
      FrontIsFrame(stored);
    }
  }

  ghost function CommandOf(f: seq<Octet>): int {
    if |f| >= HEADER_LENGTH then HeaderCodec.Deserialize(f).commandId else -1
  }

  // -------------------------------------------------------------------------
  // Keepalive

  /** At step `i` this receive timed out and began an enquire_link, and it has
      read nothing since. */
  ghost predicate EnquiryOpen(run: seq<Stimulus>, i: nat) {
    && i < |run|
    && TimedOut(run[i].ev)
    && Actions(run)[i].Send? && Actions(run)[i].commandId == ENQUIRE_LINK
    && QuietAfter(run, i)
  }

  ghost predicate AnEnquiryIsOpen(run: seq<Stimulus>) {
    exists i :: EnquiryOpen(run, i)
  }

  /** The flag says exactly that. */
  lemma {:induction false} PendingExactly(run: seq<Stimulus>)
    requires IsRun(run)
    ensures Reach(run).op.pendingEnquireLink <==> AnEnquiryIsOpen(run)
    decreases |run|
  {
    if run != [] {
      hide Step, Enabled, TimedOut, Arrived;
      var n := |run| - 1;
      var before, last := run[..n], run[n];
      PendingExactly(before);
      PendingStep(Reach(before), last.ev, last.counter);
      if i: nat :| EnquiryOpen(before, i) {
        EnquiryStep(run, i);
      }
      if i: nat :| EnquiryOpen(run, i) {
        EnquiryStep(run, i);
      }
      EnquiryStep(run, n);
    }
  }

  lemma EnquiryStep(run: seq<Stimulus>, i: nat)
    requires run != [] && i < |run|
    ensures var n := |run| - 1;
            var quiet := !run[n].ev.Begin? && Arrived(run[n].ev) == [];
            var a := LastTurn(run).action;
            (EnquiryOpen(run, i)
             <==> if i < n then EnquiryOpen(run[..n], i) && quiet
                  else TimedOut(run[n].ev) && a.Send? && a.commandId == ENQUIRE_LINK)
  {
    hide TimedOut, Arrived, LastTurn;
    var n := |run| - 1;
    var before := run[..n];
    assert Actions(run) == Actions(before) + [LastTurn(run).action];
    if i < n {
      assert before[i] == run[i] && Actions(run)[i] == Actions(before)[i];
      QuietStep(run, i);
    }
  }

  ghost predicate QuietAfter(run: seq<Stimulus>, i: nat) {
    forall k | i < k < |run| :: !run[k].ev.Begin? && Arrived(run[k].ev) == []
  }

  lemma QuietStep(run: seq<Stimulus>, i: nat)
    requires i < |run| - 1
    ensures var n := |run| - 1;
            (QuietAfter(run, i) <==> QuietAfter(run[..n], i) && !run[n].ev.Begin? && Arrived(run[n].ev) == [])
  {
    var before := run[..|run| - 1];
    assert forall k | i < k < |run| - 1 :: before[k] == run[k];
    assert QuietAfter(before, i) ==>
      forall k | i < k < |run| - 1 :: !before[k].ev.Begin? && Arrived(before[k].ev) == [];
  }

  lemma PendingStep(s: State, ev: Event, counter: Counter)
    requires Enabled(s, ev)
    ensures var t := Step(s, ev, counter);
            var began := TimedOut(ev) && t.action.Send? && t.action.commandId == ENQUIRE_LINK;
            (t.op.pendingEnquireLink
             <==> (s.op.pendingEnquireLink && !ev.Begin? && Arrived(ev) == []) || began)
  {
    match ev {
      case Begin =>
        AdvanceFacts(FRESH, s.stored);
      case ReadDone(data, ec, _) =>
        AdvanceFacts(s.op.(pendingEnquireLink := s.op.pendingEnquireLink && data == []), s.stored + data);
      case SendDone(ec) =>
        AdvanceFacts(s.op, s.stored);
        if HoldsFrame(s) {
          AdvanceFacts(s.op, s.stored[s.op.header.commandLength..]);
        }
      case Posted =>
    }
  }

  /** The last unbind is sent exactly when a read times out without an octet while
      an enquiry of the same receive is open. */
  lemma {:induction false} LastUnbindExactly(run: seq<Stimulus>)
    requires IsRun(run) && run != []
    ensures LastTurn(run).action.Send? && LastTurn(run).action.commandId == UNBIND
       <==> && TimedOut(run[|run| - 1].ev) && Arrived(run[|run| - 1].ev) == []
            && AnEnquiryIsOpen(run[..|run| - 1])
  {
    hide Arrived, TimedOut;
    var before, last := run[..|run| - 1], run[|run| - 1];
    PendingExactly(before);
    UnbindFacts(Reach(before), last.ev, last.counter);
  }

  lemma UnbindFacts(s: State, ev: Event, counter: Counter)
    requires Enabled(s, ev)
    ensures var a := Step(s, ev, counter).action;
            (a.Send? && a.commandId == UNBIND <==> TimedOut(ev) && Arrived(ev) == [] && s.op.pendingEnquireLink)
  {
    hide Advance;
    match ev {
      case Begin =>
        AdvanceFacts(FRESH, s.stored);
      case ReadDone(data, ec, _) =>
        AdvanceFacts(s.op.(pendingEnquireLink := s.op.pendingEnquireLink && data == []), s.stored + data);
      case SendDone(ec) =>
        AdvanceFacts(s.op, s.stored);
        if HoldsFrame(s) {
          AdvanceFacts(s.op, s.stored[s.op.header.commandLength..]);
        }
      case Posted =>
    }
  }

  /** At step `i` this receive timed out and sent an enquire_link, without error;
      it timed out again, and attempted the last unbind, in the last step but one;
      and no octet was read from step `i` on. */
  ghost predicate ExpiredSince(run: seq<Stimulus>, i: nat)
    requires |run| >= 2
  {
    var j := |run| - 2;
    && i + 1 < j
    && TimedOut(run[i].ev) && Actions(run)[i].Send? && Actions(run)[i].commandId == ENQUIRE_LINK
    && run[i + 1].ev == SendDone(NoError)
    && TimedOut(run[j].ev) && Actions(run)[j].Send? && Actions(run)[j].commandId == UNBIND
    && run[j + 1].ev.SendDone?
    && QuietAfter(run, i)
  }

  /** The session is given up for dead only like that. */
  lemma {:induction false} KeepaliveExpiresOnlyInSilence(run: seq<Stimulus>)
    requires IsRun(run) && run != []
    requires CompletesWith(LastTurn(run).action, KeepaliveExpired)
    ensures |run| >= 2 && exists i :: ExpiredSince(run, i)
    ensures LastTurn(run).action.shutDown
  {
    hide Step, Enabled, TimedOut, Arrived, Reach, QuietAfter;
    var n := |run| - 1;
    LookBack(run, n);
    ExpiredAfterUnbind(Reach(run[..n]), run[n].ev, run[n].counter);
    StartsIdle(run[..n]);
    LookBack(run, n - 1);
    UnbindAfterSilence(Reach(run[..n - 1]), run[n - 1].ev, run[n - 1].counter);
    PendingExactly(run[..n - 1]);
    var i :| EnquiryOpen(run[..n - 1], i);
    SilenceSince(run, i);
    EnquirySent(run, i, n - 1);
    assert ExpiredSince(run, i);
  }

  /** And it happens. */
  lemma KeepaliveHappens() returns (run: seq<Stimulus>)
    ensures IsRun(run) && run != [] && LastTurn(run).action == Complete(true, KeepaliveExpired)
  {
    hide Reach, IsRun, LastTurn;
    run := Start();
    run := Extend(run, ReadDone([], OperationAborted, false), 0);
    run := Extend(run, SendDone(NoError), 1);
    run := Extend(run, ReadDone([], OperationAborted, false), 1);
    run := Extend(run, SendDone(NoError), 2);
  }

  lemma Start() returns (run: seq<Stimulus>)
    ensures IsRun(run) && Reach(run) == State(FRESH.(phase := Reading, needsPost := false), [])
  {
    run := Extend([], Begin, 0);
  }

  lemma Extend(run: seq<Stimulus>, ev: Event, counter: Counter) returns (next: seq<Stimulus>)
    requires IsRun(run) && Enabled(Reach(run), ev)
    ensures next == run + [Stimulus(ev, counter)] && IsRun(next)
    ensures LastTurn(next) == Step(Reach(run), ev, counter)
    ensures Reach(next) == State(LastTurn(next).op, LastTurn(next).stored)
  {
    next := run + [Stimulus(ev, counter)];
    assert next[..|next| - 1] == run;
  }

  lemma StartsIdle(run: seq<Stimulus>)
    ensures Reach(run).op.phase != Idle ==> run != []
  {
  }

  lemma SilenceSince(run: seq<Stimulus>, i: nat)
    requires IsRun(run) && |run| >= 2 && IsRun(run[..|run| - 2]) && EnquiryOpen(run[..|run| - 2], i)
    requires run[|run| - 2].ev.ReadDone? && Arrived(run[|run| - 2].ev) == [] && run[|run| - 1].ev.SendDone?
    ensures TimedOut(run[i].ev) && Actions(run)[i].Send? && Actions(run)[i].commandId == ENQUIRE_LINK
    ensures QuietAfter(run, i)
  {
    hide TimedOut, Step, Enabled, Reach, LastTurn, Arrived, IsRun, Actions;
    var earlier := run[..|run| - 2];
    ActionsPrefix(run, |run| - 2, i);
    assert run[i] == earlier[i];
    forall k | i < k < |run| ensures !run[k].ev.Begin? && Arrived(run[k].ev) == [] {
      if k < |run| - 2 {
        assert run[k] == earlier[k];
      } else if k == |run| - 1 {
        NothingArrives(run[k].ev);
      }
    }
  }

  lemma NothingArrives(ev: Event)
    requires ev.SendDone?
    ensures Arrived(ev) == []
  {
  }

  lemma ActionsPrefix(run: seq<Stimulus>, k: nat, i: nat)
    requires IsRun(run) && i < k <= |run|
    ensures IsRun(run[..k]) && Actions(run[..k])[i] == Actions(run)[i]
  {
    hide Step, Enabled, Reach, LastTurn, IsRun, Actions;
    if k < |run| {
      LookBack(run, k);
    } else {
      assert run[..k] == run;
    }
    LookBack(run, i);
    LookBack(run[..k], i);
    assert run[..k][..i] == run[..i];
  }

  lemma ExpiredAfterUnbind(s: State, ev: Event, counter: Counter)
    requires Enabled(s, ev) && CompletesWith(Step(s, ev, counter).action, KeepaliveExpired)
    ensures s.op.phase == SendingLastUnbind && ev.SendDone? && Step(s, ev, counter).action.shutDown
  {
    TurnFacts(s, ev, counter);
  }

  lemma UnbindAfterSilence(s: State, ev: Event, counter: Counter)
    requires Enabled(s, ev) && Step(s, ev, counter).op.phase == SendingLastUnbind
    ensures ev.ReadDone? && TimedOut(ev) && Arrived(ev) == [] && s.op.pendingEnquireLink
    ensures Step(s, ev, counter).action == Send(UNBIND, NextSequenceNumber(counter))
  {
    TurnFacts(s, ev, counter);
  }

  /** AdvanceFacts for a whole turn. */
  lemma TurnFacts(s: State, ev: Event, counter: Counter)
    requires Enabled(s, ev)
    ensures var t := Step(s, ev, counter);
            && (CompletesWith(t.action, KeepaliveExpired) ==> s.op.phase == SendingLastUnbind)
            && (t.op.phase == SendingLastUnbind ==>
                  TimedOut(ev) && Arrived(ev) == [] && s.op.pendingEnquireLink
                  && t.action == Send(UNBIND, NextSequenceNumber(counter)))
            && (TimedOut(ev) && t.action.Send? && t.action.commandId == ENQUIRE_LINK ==>
                  t.op.phase == SendingEnquireLink)
            && (t.op.phase == SendingUnbindResp && !t.action.Undefined? ==>
                  t.action == Send(UNBIND_RESP, t.op.header.sequenceNumber))
  {
    hide Advance;
    match ev {
      case Begin =>
        AdvanceFacts(FRESH, s.stored);
      case ReadDone(data, ec, _) =>
        AdvanceFacts(s.op.(pendingEnquireLink := s.op.pendingEnquireLink && data == []), s.stored + data);
      case SendDone(ec) =>
        AdvanceFacts(s.op, s.stored);
        if HoldsFrame(s) {
          AdvanceFacts(s.op, s.stored[s.op.header.commandLength..]);
        }
      case Posted =>
    }
  }

  /** If the enquire_link of step `i` had failed, the receive would have ended. */
  lemma EnquirySent(run: seq<Stimulus>, i: nat, j: nat)
    requires IsRun(run) && i < j < |run| && run[j].ev.ReadDone?
    requires TimedOut(run[i].ev) && Actions(run)[i].Send? && Actions(run)[i].commandId == ENQUIRE_LINK
    requires QuietAfter(run, i)
    ensures i + 1 < j && run[i + 1].ev == SendDone(NoError)
  {
    hide Step, TimedOut, Enabled, Arrived, LastTurn, Reach, IsRun, Actions;
    LookBack(run, i);
    TurnFacts(Reach(run[..i]), run[i].ev, run[i].counter);
    LookBack(run, i + 1);
    AfterEnquireLink(Reach(run[..i + 1]), run[i + 1].ev, run[i + 1].counter);
    if run[i + 1].ev.ec != NoError {
      LookBack(run, i + 2);
      assert run[..i + 1 + 1] == run[..i + 2];
      assert Reach(run[..i + 2]).op.phase == Idle;
      OnlyBeginLeavesIdle(Reach(run[..i + 2]), run[i + 2].ev);
      assert false;
    }
  }

  lemma AfterEnquireLink(s: State, ev: Event, counter: Counter)
    requires Enabled(s, ev) && s.op.phase == SendingEnquireLink
    ensures ev.SendDone?
    ensures ev.ec != NoError ==> Step(s, ev, counter).op.phase == Idle
  {
  }

  lemma OnlyBeginLeavesIdle(s: State, ev: Event)
    requires Enabled(s, ev)
    ensures s.op.phase == Idle ==> ev.Begin?
  {
  }

  // -------------------------------------------------------------------------
  // Unbinding, and the stack

  /** When a receive ends with `unbinded`, the last frame was an unbind_resp, or
      it was an unbind that has just been answered, with its own sequence number
      and without error. */
  lemma {:induction false} UnbindIsAnswered(run: seq<Stimulus>)
    requires IsRun(run) && run != [] && WellFramed(OctetsRead(run))
    requires IsUnbinded(LastTurn(run).action)
    ensures LastTurn(run).frames != []
    ensures var f := LastTurn(run).frames[|LastTurn(run).frames| - 1];
            && IsFrame(f)
            && (CommandOf(f) == UNBIND_RESP ||
                (&& CommandOf(f) == UNBIND && |run| >= 2
                 && Actions(run)[|run| - 2] == Send(UNBIND_RESP, HeaderCodec.Deserialize(f).sequenceNumber)
                 && run[|run| - 1].ev == SendDone(NoError)))
  {
    hide Step, Enabled, Arrived, Reach, WellFramed, WfState, Keeps, IsFrame, HeaderCodec.Deserialize, CommandOf;
    var n := |run| - 1;
    Conservation(run);
    LookBack(run, n);
    WellFramedPrefix(OctetsRead(run[..n]), Arrived(run[n].ev));
    Conservation(run[..n]);
    UnbindedFacts(Reach(run[..n]), run[n].ev, run[n].counter);
    var f := LastTurn(run).frames[|LastTurn(run).frames| - 1];
    assert f in FramesShown(run);
    if CommandOf(f) != UNBIND_RESP {
      UnbindRespWasSent(run[..n]);
      ActionsPrefix(run, n, n - 1);
    }
  }

  lemma UnbindRespWasSent(run: seq<Stimulus>)
    requires IsRun(run) && WellFramed(OctetsRead(run)) && Reach(run).op.phase == SendingUnbindResp
    ensures run != []
    ensures Actions(run)[|run| - 1] == Send(UNBIND_RESP, Reach(run).op.header.sequenceNumber)
  {
    hide Step, Enabled, WellFramed;
    StartsIdle(run);
    var n := |run| - 1;
    LookBack(run, n);
    TurnFacts(Reach(run[..n]), run[n].ev, run[n].counter);
    NeverUndefined(run, n);
  }

  /** Each unbind is answered once: as soon as its unbind_resp has been sent
      without error, the receive consumes exactly that unbind, shuts the socket
      down and ends. If the answer fails, the unbind stays at the front of the
      buffer, and the receive ends with the error. */
  lemma {:induction false} AnsweredUnbindIsConsumed(run: seq<Stimulus>, k: nat, n: U32)
    requires IsRun(run) && k + 1 < |run| && WellFramed(OctetsRead(run))
    requires Actions(run)[k] == Send(UNBIND_RESP, n)
    ensures run[k + 1].ev.SendDone?
    ensures if run[k + 1].ev.ec == NoError
            then Actions(run)[k + 1] == Complete(true, Unbinded(UNBIND, n)) && IsUnbind(TurnAt(run, k + 1).frames, n)
            else Actions(run)[k + 1] == Complete(false, Failed(run[k + 1].ev.ec))
                 && Reach(run[..k + 2]).stored == Reach(run[..k + 1]).stored
  {
    hide Enabled, WellFramed, IsUnbind, HeaderCodec.Deserialize, TurnAt, Step, Reach;
    TurnKeeps(run, k);
    LookBack(run, k);
    TurnIsStep(run, k);
    AnsweringUnbind(Reach(run[..k]), run[k].ev, run[k].counter, n);
    LookBack(run, k + 1);
    TurnIsStep(run, k + 1);
    assert WfState(Reach(run[..k + 1]));
    UnbindAnswered(Reach(run[..k + 1]), run[k + 1].ev, run[k + 1].counter);
    assert run[..k + 1 + 1] == run[..k + 2];
  }

  /** If the answer to an unbind fails, the next receive answers the same unbind
      again. */
  lemma {:induction false} FailedAnswerIsRepeated(run: seq<Stimulus>, k: nat, n: U32)
    requires IsRun(run) && k + 2 < |run| && WellFramed(OctetsRead(run))
    requires Actions(run)[k] == Send(UNBIND_RESP, n)
    requires run[k + 1].ev.SendDone? && run[k + 1].ev.ec != NoError
    ensures run[k + 2].ev.Begin? && Actions(run)[k + 2] == Send(UNBIND_RESP, n)
  {
    hide Enabled, WellFramed, HeaderCodec.Deserialize, TurnAt, Step, Reach, IsRun, Actions;
    AnsweredUnbindIsConsumed(run, k, n);
    CompletionEndsReceive(run, k + 1);
    TurnKeeps(run, k);
    LookBack(run, k);
    TurnIsStep(run, k);
    AnsweringUnbind(Reach(run[..k]), run[k].ev, run[k].counter, n);
    assert WfState(Reach(run[..k + 1]));
    LookBack(run, k + 2);
    TurnIsStep(run, k + 2);
    UnbindInFront(Reach(run[..k + 1]), Reach(run[..k + 2]), run[k + 2].counter);
  }

  lemma UnbindInFront(s: State, t: State, counter: Counter)
    requires WfState(s) && s.op.phase == SendingUnbindResp && t.stored == s.stored
    requires t.op.phase == Idle
    ensures Step(t, Begin, counter).action == Send(UNBIND_RESP, s.op.header.sequenceNumber)
  {
    hide HeaderCodec.Deserialize;
  }

  lemma TurnIsStep(run: seq<Stimulus>, k: nat)
    requires k < |run|
    ensures TurnAt(run, k) == Step(Reach(run[..k]), run[k].ev, run[k].counter)
  {
  }

  /** The frames are a single unbind with sequence number `n`. */
  ghost predicate IsUnbind(fs: seq<seq<Octet>>, n: U32) {
    |fs| == 1 && IsFrame(fs[0]) && CommandOf(fs[0]) == UNBIND && HeaderCodec.Deserialize(fs[0]).sequenceNumber == n
  }

  lemma AnsweringUnbind(s: State, ev: Event, counter: Counter, n: U32)
    requires Enabled(s, ev) && Step(s, ev, counter).action == Send(UNBIND_RESP, n)
    ensures Step(s, ev, counter).op.phase == SendingUnbindResp
    ensures Step(s, ev, counter).op.header.sequenceNumber == n
  {
    hide Advance;
    match ev {
      case Begin =>
        AdvanceAnswersUnbind(FRESH, s.stored);
      case ReadDone(data, ec, _) =>
        AdvanceAnswersUnbind(s.op.(pendingEnquireLink := s.op.pendingEnquireLink && data == []), s.stored + data);
      case SendDone(ec) =>
        AdvanceAnswersUnbind(s.op, s.stored);
        if HoldsFrame(s) {
          AdvanceAnswersUnbind(s.op, s.stored[s.op.header.commandLength..]);
        }
      case Posted =>
    }
  }

  lemma {:induction false} AdvanceAnswersUnbind(op: Op, stored: seq<Octet>)
    ensures var t := Advance(op, stored);
            t.action.Send? && t.action.commandId == UNBIND_RESP ==>
              t.op.phase == SendingUnbindResp && t.op.header.sequenceNumber == t.action.sequenceNumber
    decreases |stored|
  {
    if IsEnquireLinkResp(stored) {
      AdvanceAnswersUnbind(op.(header := HeaderCodec.Deserialize(stored)), stored[FrameLength(stored)..]);
    }
  }

  lemma UnbindAnswered(s: State, ev: Event, counter: Counter)
    requires WfState(s) && Enabled(s, ev) && s.op.phase == SendingUnbindResp
    ensures ev.SendDone?
    ensures var t := Step(s, ev, counter);
            if ev.ec == NoError
            then t.action == Complete(true, Unbinded(UNBIND, s.op.header.sequenceNumber))
                 && IsUnbind(t.frames, s.op.header.sequenceNumber)
            else t.action == Complete(false, Failed(ev.ec)) && t.stored == s.stored
  {
    FrontCommand(s);
    FrameInFront(s);
  }

  /** With a well-framed stream the code never meets the undefined case. */
  lemma {:induction false} NeverUndefined(run: seq<Stimulus>, k: nat)
    requires IsRun(run) && k < |run| && WellFramed(OctetsRead(run))
    ensures !Actions(run)[k].Undefined?
  {
    hide Step, Enabled, Reach, WellFramed;
    LookBack(run, k);
    TurnKeeps(run, k);
  }

  lemma UnbindedFacts(s: State, ev: Event, counter: Counter)
    requires WfState(s) && Enabled(s, ev)
    requires IsUnbinded(Step(s, ev, counter).action)
    ensures var t := Step(s, ev, counter);
            && t.frames != []
            && var f := t.frames[|t.frames| - 1];
               CommandOf(f) == UNBIND_RESP ||
               (s.op.phase == SendingUnbindResp && ev == SendDone(NoError) && |f| >= HEADER_LENGTH &&
                HeaderCodec.Deserialize(f) == s.op.header && CommandOf(f) == UNBIND)
  {
    hide Advance, CommandOf;
    match ev {
      case Begin =>
        AdvanceFacts(FRESH, s.stored);
      case ReadDone(data, ec, _) =>
        AdvanceFacts(s.op.(pendingEnquireLink := s.op.pendingEnquireLink && data == []), s.stored + data);
      case SendDone(ec) =>
        if s.op.phase == SendingEnquireLink {
          AdvanceFacts(s.op, s.stored);
        } else if s.op.phase == SendingEnquireLinkResp {
          AdvanceFacts(s.op, s.stored[s.op.header.commandLength..]);
        } else if s.op.phase == SendingUnbindResp {
          FrontCommand(s);
        }
      case Posted =>
    }
  }

  lemma FrontCommand(s: State)
    requires HoldsFrame(s)
    ensures var f := s.stored[..s.op.header.commandLength];
            |f| >= HEADER_LENGTH && HeaderCodec.Deserialize(f) == s.op.header && CommandOf(f) == s.op.header.commandId
  {
    FrontIsFrame(s.stored);
  }

  /** A receive never completes with a PDU before it has been suspended, so
      handlers that receive again do not pile up on the stack. */
  lemma {:induction false} NoDeliveryWithoutSuspension(run: seq<Stimulus>, k: nat)
    requires IsRun(run) && k < |run| && run[k].ev.Begin?
    ensures !(Actions(run)[k].Complete? && Actions(run)[k].result.Delivered?)
  {
    LookBack(run, k);
    AdvanceFacts(FRESH, Reach(run[..k]).stored);
  }

  /** No read is ever issued with an empty region, which would complete without
      reading and spin. */
  lemma {:induction false} ReadsHaveRoom(run: seq<Stimulus>, k: nat)
    requires IsRun(run) && k < |run| && WellFramed(OctetsRead(run))
    requires Actions(run)[k].Read?
    ensures 0 < Actions(run)[k].room <= CAPACITY
    ensures Actions(run)[k].room == CAPACITY - |Reach(run[..k + 1]).stored|
  {
    hide Step, Enabled, WellFramed;
    LookBack(run, k);
    TurnKeeps(run, k);
  }

  /** The loop goes around at most once for every 16 octets it finds. */
  lemma {:induction false} WorkIsBounded(run: seq<Stimulus>, k: nat)
    requires IsRun(run) && k < |run| && WellFramed(OctetsRead(run))
    ensures HEADER_LENGTH * |TurnAt(run, k).frames| <= |Unshown(Reach(run[..k]))| + |Arrived(run[k].ev)|
  {
    hide Step, Enabled, WellFramed, Unshown, IsFrame;
    TurnKeeps(run, k);
    FramesTakeRoom(TurnAt(run, k).frames);
  }

  lemma {:induction false} FramesTakeRoom(fs: seq<seq<Octet>>)
    requires AllFrames(fs)
    ensures HEADER_LENGTH * |fs| <= |Flatten(fs)|
  {
    if fs != [] {
      assert IsFrame(fs[0]);
      FramesTakeRoom(fs[1..]);
    }
  }

  // -------------------------------------------------------------------------
  // Deliveries

  /** Each delivery is the reading of one frame of its turn, with the sequence
      number and status of that frame, and never of a control frame; an invalid
      PDU carries exactly the octets of the frame. */
  lemma {:induction false} DeliveredFromItsFrame(run: seq<Stimulus>, k: nat, item: Item, n: U32, status: U32)
    returns (f: seq<Octet>)
    requires IsRun(run) && k < |run| && WellFramed(OctetsRead(run))
    requires CompletesWith(Actions(run)[k], Delivered(item, n, status))
    ensures f in TurnAt(run, k).frames && IsFrame(f) && !IsControl(CommandOf(f))
    ensures item == DecodeFrame(f) && (item.Undecodable? ==> item.frame == f)
    ensures HeaderCodec.Deserialize(f).sequenceNumber == n && HeaderCodec.Deserialize(f).commandStatus == status
  {
    hide Step, Enabled, WellFramed, Unshown, HeaderCodec.Deserialize, WfState;
    LookBack(run, k);
    TurnKeeps(run, k);
    var o := Delivery(item, n, status);
    assert ObserveFrames(TurnAt(run, k).frames) == [o];
    f := FrameOfObservation(TurnAt(run, k).frames, o);
  }

  lemma {:induction false} FrameOfObservation(fs: seq<seq<Octet>>, o: Observation) returns (f: seq<Octet>)
    requires AllFrames(fs) && o in ObserveFrames(fs)
    ensures f in fs && o in Observe(f)
  {
    hide Observe, IsFrame;
    if o in Observe(fs[0]) {
      f := fs[0];
    } else {
      f := FrameOfObservation(fs[1..], o);
    }
  }

  /** A completed receive does nothing more: nothing behind an unbind, and no
      second PDU, is shown before the user receives again. */
  lemma {:induction false} CompletionEndsReceive(run: seq<Stimulus>, k: nat)
    requires IsRun(run) && k + 1 < |run| && Actions(run)[k].Complete?
    ensures Reach(run[..k + 1]).op.phase == Idle && run[k + 1].ev.Begin?
  {
    hide Step, Enabled, ShutExactly;
    LookBack(run, k);
    LookBack(run, k + 1);
    CompletedIsIdle(Reach(run[..k]), run[k].ev, run[k].counter);
    OnlyBeginLeavesIdle(Reach(run[..k + 1]), run[k + 1].ev);
  }

  /** The socket is shut down exactly when the receive completes as unbinded or
      through the keepalive, and before it does. */
  lemma {:induction false} ShutdownExactly(run: seq<Stimulus>, k: nat)
    requires IsRun(run) && k < |run| && Actions(run)[k].Complete?
    ensures ShutsDown(Actions(run)[k])
       <==> IsUnbinded(Actions(run)[k]) || CompletesWith(Actions(run)[k], KeepaliveExpired)
  {
    hide Step, Enabled;
    LookBack(run, k);
    CompletedIsIdle(Reach(run[..k]), run[k].ev, run[k].counter);
  }

  predicate ShutExactly(a: Action) {
    ShutsDown(a) <==> IsUnbinded(a) || CompletesWith(a, KeepaliveExpired)
  }

  lemma CompletedIsIdle(s: State, ev: Event, counter: Counter)
    requires Step(s, ev, counter).action.Complete?
    ensures Step(s, ev, counter).op.phase == Idle && ShutExactly(Step(s, ev, counter).action)
  {
    hide Advance;
    match ev {
      case Begin =>
        AdvanceCompletes(FRESH, s.stored);
      case ReadDone(data, ec, _) =>
        AdvanceCompletes(s.op.(pendingEnquireLink := s.op.pendingEnquireLink && data == []), s.stored + data);
      case SendDone(ec) =>
        AdvanceCompletes(s.op, s.stored);
        if HoldsFrame(s) {
          AdvanceCompletes(s.op, s.stored[s.op.header.commandLength..]);
        }
      case Posted =>
    }
  }

  lemma {:induction false} AdvanceCompletes(op: Op, stored: seq<Octet>)
    ensures Advance(op, stored).action.Complete? ==> Advance(op, stored).op.phase == Idle
    ensures ShutExactly(Advance(op, stored).action)
    decreases |stored|
  {
    if IsEnquireLinkResp(stored) {
      AdvanceCompletes(op.(header := HeaderCodec.Deserialize(stored)), stored[FrameLength(stored)..]);
    }
  }
}
