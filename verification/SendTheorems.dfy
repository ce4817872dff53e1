/** What holds of every run of concurrent senders. */
module SendTheorems {
  import opened Octets
  import opened HeaderCodec
  import Schema
  import opened Pdus
  import opened SequenceNumbers
  import opened SendModel

  // -------------------------------------------------------------------------
  // One writer

  /** At most one operation writes; it writes the frame logged last, which is what
      the buffer holds. */
  ghost predicate OwnerInv(s: State) {
    && (forall i | 0 <= i < |s.senders| :: s.senders[i].phase.Writing? <==> s.owner == By(i))
    && (s.owner.By? ==>
          && s.owner.sender < |s.senders|
          && s.senders[s.owner.sender].phase.Writing?
          && s.senders[s.owner.sender].phase.written <= |s.buf|
          && s.buf != [] && s.log != []
          && s.log[|s.log| - 1].sender == s.owner.sender && s.log[|s.log| - 1].frame == s.buf)
  }

  lemma OwnerStep(s: State, e: Event)
    requires OwnerInv(s) && Enabled(s, e)
    ensures OwnerInv(Step(s, e))
  {
    hide Frame, WfPdu;
    match e {
      case Call(job) =>
      case CallFresh(id) =>
      case Enter(i) => AcquireOwner(s, i);
      case Cancel(i) =>
      case Resume(i) =>
        if s.senders[i].phase == Woken(false) {
          AcquireOwner(s, i);
        }
      case Move(i, n) =>
        assert s.owner == By(i);
      case Finish(i, result) =>
        FinishOwner(s, i, result);
    }
  }

  lemma AcquireOwner(s: State, i: nat)
    requires OwnerInv(s) && i < |s.senders| && !s.senders[i].phase.Writing?
    ensures OwnerInv(Acquire(s, i))
  {
    hide Frame, WfPdu;
    if s.buf == [] {
      assert s.owner == Nobody;
      FrameIsNotEmpty(s.senders[i].job, NumberOf(s, s.senders[i].job));
    }
  }

  lemma FinishOwner(s: State, i: nat, result: WriteResult)
    requires OwnerInv(s) && Enabled(s, Finish(i, result))
    ensures OwnerInv(Step(s, Finish(i, result))) && Step(s, Finish(i, result)).owner == Nobody
  {
    assert s.owner == By(i);
  }

  // -------------------------------------------------------------------------
  // The wire

  function LogOctets(log: seq<Entry>): seq<Octet> {
    if log == [] then [] else LogOctets(log[..|log| - 1]) + log[|log| - 1].frame
  }

  /** Until a write fails, the socket has taken whole frames in the order in which
      the lock was taken, and a part of the buffer if a write is in progress. */
  ghost predicate WireInv(s: State)
    requires OwnerInv(s)
  {
    s.intact ==>
      if s.owner.By? then
        s.wire == LogOctets(s.log[..|s.log| - 1]) + s.buf[..s.senders[s.owner.sender].phase.written]
      else s.buf == [] && s.wire == LogOctets(s.log)
  }

  lemma WireStep(s: State, e: Event)
    requires OwnerInv(s) && WireInv(s) && Enabled(s, e)
    ensures OwnerInv(Step(s, e)) && WireInv(Step(s, e))
  {
    hide Frame, WfPdu;
    OwnerStep(s, e);
    match e {
      case Call(job) =>
      case CallFresh(id) =>
      case Enter(i) => AcquireWire(s, i);
      case Cancel(i) =>
      case Resume(i) =>
        if s.senders[i].phase == Woken(false) {
          AcquireWire(s, i);
        }
      case Move(i, n) => MoveWire(s, i, n);
      case Finish(i, result) =>
        FinishOwner(s, i, result);
        FinishWire(s, i, result);
    }
  }

  lemma MoveWire(s: State, i: nat, n: nat)
    requires OwnerInv(s) && WireInv(s) && Enabled(s, Move(i, n)) && OwnerInv(Step(s, Move(i, n)))
    ensures WireInv(Step(s, Move(i, n)))
  {
    hide Frame, WfPdu;
    assert s.owner == By(i);
    var w := s.senders[i].phase.written;
    var whole := LogOctets(s.log[..|s.log| - 1]);
    assert s.buf[..w] + s.buf[w..w + n] == s.buf[..w + n];
    assert (whole + s.buf[..w]) + s.buf[w..w + n] == whole + (s.buf[..w] + s.buf[w..w + n]);
  }

  lemma FinishWire(s: State, i: nat, result: WriteResult)
    requires OwnerInv(s) && WireInv(s) && Enabled(s, Finish(i, result))
    requires OwnerInv(Step(s, Finish(i, result))) && Step(s, Finish(i, result)).owner == Nobody
    ensures WireInv(Step(s, Finish(i, result)))
  {
    assert s.owner == By(i);
    assert result == Done ==> s.buf[..s.senders[i].phase.written] == s.buf;
  }

  lemma AcquireWire(s: State, i: nat)
    requires OwnerInv(s) && WireInv(s) && i < |s.senders| && !s.senders[i].phase.Writing?
    ensures OwnerInv(Acquire(s, i)) && WireInv(Acquire(s, i))
  {
    hide Frame, WfPdu;
    AcquireOwner(s, i);
    var t := Acquire(s, i);
    if s.buf == [] && t.buf != [] {
      assert t.log[..|t.log| - 1] == s.log;
      assert t.buf[..0] == [];
    }
  }

  lemma {:induction false} WireOfRun(es: seq<Event>)
    requires IsRun(es)
    ensures OwnerInv(Reach(es)) && WireInv(Reach(es))
    decreases |es|
  {
    hide Enabled, Step;
    if es == [] {
      StartOfWire();
    } else {
      WireOfRun(es[..|es| - 1]);
      WireStep(Reach(es[..|es| - 1]), es[|es| - 1]);
    }
  }

  lemma StartOfWire()
    ensures OwnerInv(INITIAL) && WireInv(INITIAL)
  {
  }

  /** In every reachable state: one writer at most, and before the first failed
      write nothing on the wire but the frames in lock order, the last perhaps in
      part. */
  lemma {:induction false} WireIntegrity(es: seq<Event>)
    requires IsRun(es)
    ensures var s := Reach(es);
            && (forall i, j | 0 <= i < |s.senders| && 0 <= j < |s.senders| ::
                  s.senders[i].phase.Writing? && s.senders[j].phase.Writing? ==> i == j)
            && (s.intact ==> s.wire <= LogOctets(s.log))
            && (s.intact && s.owner.Nobody? ==> s.wire == LogOctets(s.log))
            && (s.intact && s.owner.By? ==> s.log != [] && LogOctets(s.log[..|s.log| - 1]) <= s.wire)
  {
    hide Reach;
    WireOfRun(es);
    var s := Reach(es);
    if s.owner.By? && s.intact {
      var w := s.senders[s.owner.sender].phase.written;
      assert s.log[|s.log| - 1].frame == s.buf[..w] + s.buf[w..];
      assert LogOctets(s.log) == LogOctets(s.log[..|s.log| - 1]) + (s.buf[..w] + s.buf[w..]);
    }
  }

  /** While an operation writes, nobody touches the buffer, the log or the octets
      already written, whatever the other operations do. */
  lemma {:induction false} BufferIsStableWhileWritten(s: State, es: seq<Event>)
    requires OwnerInv(s) && s.owner.By? && IsRunFrom(s, es)
    requires forall k | 0 <= k <= |es| :: ReachFrom(s, es[..k]).owner == s.owner
    ensures OwnerInv(ReachFrom(s, es))
    ensures ReachFrom(s, es).buf == s.buf && ReachFrom(s, es).log == s.log
    ensures s.wire <= ReachFrom(s, es).wire
    decreases |es|
  {
    assert es[..|es|] == es;
    if es != [] {
      hide Enabled, Step, OwnerInv;
      var before := es[..|es| - 1];
      assert forall k | 0 <= k <= |before| :: before[..k] == es[..k];
      BufferIsStableWhileWritten(s, before);
      OwnerStep(ReachFrom(s, before), es[|es| - 1]);
      StableStep(ReachFrom(s, before), es[|es| - 1]);
    }
  }

  lemma StableStep(s: State, e: Event)
    requires OwnerInv(s) && Enabled(s, e)
    requires s.owner.By? && Step(s, e).owner == s.owner
    ensures Step(s, e).buf == s.buf && Step(s, e).log == s.log && s.wire <= Step(s, e).wire
  {
    hide Frame, WfPdu;
  }

  // -------------------------------------------------------------------------
  // Wake-ups

  ghost predicate SomeoneWoken(s: State) {
    exists i | 0 <= i < |s.senders| :: s.senders[i].phase.Woken?
  }

  /** Operations wait for a lock that is free, and nobody is on the way to it. */
  ghost predicate Stranded(s: State) {
    s.queue != [] && s.buf == [] && !SomeoneWoken(s)
  }

  /** Operation `i` leaves without having taken the lock: it was cancelled, or its
      PDU cannot be serialized. It does not pass its wake-up on. */
  predicate LeavesUnserved(s: State, i: nat)
    requires i < |s.senders|
  {
    s.senders[i].phase == Woken(true) ||
    (s.senders[i].phase == Woken(false) && s.buf == [] &&
     Frame(s.senders[i].job, NumberOf(s, s.senders[i].job)).Err?)
  }

  /** A wake-up is lost in exactly one way: the only woken operation leaves
      unserved while others wait and the lock is free. Newcomers that barge in,
      waiters that are queued again and cancelled waiters never cause it. */
  lemma StrandedExactly(s: State, e: Event)
    requires QueueInv(s) && OwnerInv(s) && Enabled(s, e) && !Stranded(s)
    ensures Stranded(Step(s, e)) <==>
              && e.Resume? && s.senders[e.i].phase.Woken? && LeavesUnserved(s, e.i)
              && s.buf == [] && s.queue != []
              && forall j | 0 <= j < |s.senders| && j != e.i :: !s.senders[j].phase.Woken?
  {
    match e {
      case Call(job) => WokenBelow(s, Step(s, e));
      case CallFresh(id) => WokenBelow(s, Step(s, e));
      case Enter(i) => AcquireStrands(s, i);
      case Cancel(i) => CancelStrands(s, i);
      case Resume(i) => ResumeStrands(s, i);
      case Move(i, n) => WokenBelow(s, Step(s, e));
      case Finish(i, result) => FinishStrands(s, i, result);
    }
  }

  /** Woken operations stay woken. */
  lemma WokenBelow(s: State, t: State)
    requires |s.senders| <= |t.senders|
    requires forall i | 0 <= i < |s.senders| && s.senders[i].phase.Woken? :: t.senders[i].phase.Woken?
    ensures SomeoneWoken(s) ==> SomeoneWoken(t)
  {
  }

  lemma AcquireStrands(s: State, i: nat)
    requires i < |s.senders| && s.senders[i].phase == Called && !Stranded(s)
    ensures !Stranded(Acquire(s, i))
  {
    hide Frame, WfPdu;
    FrameIsNotEmpty(s.senders[i].job, NumberOf(s, s.senders[i].job));
    WokenBelow(s, Acquire(s, i));
  }

  lemma CancelStrands(s: State, i: nat)
    requires QueueInv(s) && Enabled(s, Cancel(i)) && !Stranded(s)
    ensures !Stranded(Step(s, Cancel(i)))
  {
    if s.senders[i].phase == Waiting {
      assert i in s.queue;
    }
    WokenBelow(s, Step(s, Cancel(i)));
  }

  lemma ResumeStrands(s: State, i: nat)
    requires Enabled(s, Resume(i)) && !Stranded(s)
    ensures Stranded(Step(s, Resume(i))) <==>
              && s.senders[i].phase.Woken? && LeavesUnserved(s, i)
              && s.buf == [] && s.queue != []
              && forall j | 0 <= j < |s.senders| && j != i :: !s.senders[j].phase.Woken?
  {
    hide Frame, WfPdu;
    FrameIsNotEmpty(s.senders[i].job, NumberOf(s, s.senders[i].job));
    var t := Step(s, Resume(i));
    assert forall j | 0 <= j < |s.senders| && j != i :: t.senders[j] == s.senders[j];
    assert !t.senders[i].phase.Woken?;
    if s.senders[i].phase == Aborting {
      WokenBelow(s, t);
    }
  }

  lemma FinishStrands(s: State, i: nat, result: WriteResult)
    requires QueueInv(s) && OwnerInv(s) && Enabled(s, Finish(i, result))
    ensures !Stranded(Step(s, Finish(i, result)))
  {
    assert s.owner == By(i);
    var t := Step(s, Finish(i, result));
    if result != Timeout && s.queue != [] {
      assert t.senders[s.queue[0]].phase == Woken(false);
    }
  }

  lemma {:induction false} InvariantsOfRun(es: seq<Event>)
    requires IsRun(es)
    ensures QueueInv(Reach(es)) && OwnerInv(Reach(es))
    decreases |es|
  {
    hide Enabled, Step;
    WireOfRun(es);
    if es != [] {
      InvariantsOfRun(es[..|es| - 1]);
      QueueStep(Reach(es[..|es| - 1]), es[|es| - 1]);
    }
  }

  /** If operations are stranded after a run, then some step `k` is to blame: there
      the only woken operation left unserved, and since then no write has ended,
      so that no release could have woken anybody, and the lock has been free. */
  lemma {:induction false} StrandedSince(es: seq<Event>) returns (k: nat)
    requires IsRun(es) && Stranded(Reach(es))
    ensures k < |es| && IsRun(es[..k]) && !Stranded(Reach(es[..k]))
    ensures es[k].Resume? && es[k].i < |Reach(es[..k]).senders| && LeavesUnserved(Reach(es[..k]), es[k].i)
    ensures forall j | 0 <= j < |Reach(es[..k]).senders| && j != es[k].i :: !Reach(es[..k]).senders[j].phase.Woken?
    ensures forall j | k < j < |es| :: !es[j].Finish?
    ensures forall j | k < j <= |es| :: Reach(es[..j]).buf == []
    decreases |es|
  {
    hide Enabled, Step, LeavesUnserved;
    var n := |es| - 1;
    NotStrandedAtFirst(es);
    var before := es[..n];
    InvariantsOfRun(before);
    if Stranded(Reach(before)) {
      k := StrandedSince(before);
      assert before[..k] == es[..k] && before[k] == es[k];
      NoFinishWhenFree(Reach(before), es[n]);
      assert forall j | k < j <= n :: es[..j] == before[..j];
      assert forall j | k < j < n :: es[j] == before[j];
    } else {
      StrandedExactly(Reach(before), es[n]);
      EnabledInRange(Reach(before), es[n]);
      k := n;
    }
    assert es[..|es|] == es;
  }

  /** Step `k` is to blame: the only woken operation leaves unserved there,
      and the lock is free ever since. */
  ghost predicate ToBlame(es: seq<Event>, k: nat) {
    && k < |es| && Enabled(Reach(es[..k]), es[k]) && es[k].Resume?
    && Reach(es[..k]).senders[es[k].i].phase.Woken? && LeavesUnserved(Reach(es[..k]), es[k].i)
    && (forall j | 0 <= j < |Reach(es[..k]).senders| && j != es[k].i :: !Reach(es[..k]).senders[j].phase.Woken?)
    && FreeSince(es, k)
  }

  ghost predicate FreeSince(es: seq<Event>, k: nat) {
    forall j | k < j <= |es| :: Reach(es[..j]).buf == []
  }

  /** After a run, operations are stranded exactly if some operation waits and there
      is such a step. */
  lemma {:induction false} StrandedExactlySince(es: seq<Event>)
    requires IsRun(es)
    ensures Stranded(Reach(es)) <==> Reach(es).queue != [] && exists k :: ToBlame(es, k)
  {
    hide Enabled, Step, LeavesUnserved, ReachFrom, IsRunFrom;
    assert es[..|es|] == es;
    if Stranded(Reach(es)) {
      var k := StrandedSince(es);
      RunAt(es, k);
      WokenBefore(es, k);
      assert ToBlame(es, k);
    }
    if k :| ToBlame(es, k) {
      NobodyWokenSince(es, k, |es|);
    }
  }

  lemma {:induction false} RunAt(es: seq<Event>, k: nat)
    requires IsRun(es) && k < |es|
    ensures IsRun(es[..k]) && Enabled(Reach(es[..k]), es[k])
    ensures Reach(es[..k + 1]) == Step(Reach(es[..k]), es[k])
    decreases |es|
  {
    hide Enabled, Step;
    var before := es[..|es| - 1];
    if k < |before| {
      RunAt(before, k);
      assert before[..k] == es[..k] && before[..k + 1] == es[..k + 1];
    } else {
      assert es[..k + 1] == es;
    }
  }

  /** What was stranded by step `k` was so by an operation that had been woken. */
  lemma WokenBefore(es: seq<Event>, k: nat)
    requires IsRun(es) && k < |es| && es[k].Resume? && es[k].i < |Reach(es[..k]).senders|
    requires LeavesUnserved(Reach(es[..k]), es[k].i)
    ensures Reach(es[..k]).senders[es[k].i].phase.Woken?
  {
    hide Frame, ReachFrom, IsRunFrom, WfPdu;
  }

  lemma {:induction false} NobodyWokenSince(es: seq<Event>, k: nat, m: nat)
    requires IsRun(es) && ToBlame(es, k) && k < m <= |es|
    ensures !SomeoneWoken(Reach(es[..m]))
    decreases m
  {
    hide Enabled, Step, LeavesUnserved, ReachFrom, IsRunFrom, SomeoneWoken;
    RunAt(es, m - 1);
    assert es[..m - 1 + 1] == es[..m];
    InvariantsOfRun(es[..m - 1]);
    if m == k + 1 {
      LastWokenLeaves(Reach(es[..k]), es[k]);
    } else {
      NobodyWokenSince(es, k, m - 1);
      assert Reach(es[..m - 1]).buf == [];
      NobodyIsWoken(Reach(es[..m - 1]), es[m - 1]);
    }
  }

  lemma LastWokenLeaves(s: State, e: Event)
    requires Enabled(s, e) && e.Resume? && LeavesUnserved(s, e.i)
    requires forall j | 0 <= j < |s.senders| && j != e.i :: !s.senders[j].phase.Woken?
    ensures !SomeoneWoken(Step(s, e))
  {
    hide Frame, WfPdu;
  }

  /** Only a release wakes, and a free lock cannot be released. */
  lemma NobodyIsWoken(s: State, e: Event)
    requires OwnerInv(s) && Enabled(s, e) && s.buf == [] && !SomeoneWoken(s)
    ensures !SomeoneWoken(Step(s, e))
  {
    hide Frame, WfPdu;
    if e.Finish? {
      NoFinishWhenFree(s, e);
    }
  }

  lemma NotStrandedAtFirst(es: seq<Event>)
    requires Stranded(Reach(es))
    ensures es != []
  {
  }

  lemma NoFinishWhenFree(s: State, e: Event)
    requires OwnerInv(s) && Enabled(s, e) && s.buf == []
    ensures !e.Finish?
  {
  }

  /** So over every run in which no woken operation leaves unserved, an operation
      waits only while the lock is held or someone woken is on the way to it. */
  lemma {:induction false} NoLostWakeUp(es: seq<Event>)
    requires IsRun(es)
    requires forall k | 0 <= k < |es| && es[k].Resume? ::
               es[k].i < |Reach(es[..k]).senders| ==> !LeavesUnserved(Reach(es[..k]), es[k].i)
    ensures !Stranded(Reach(es))
  {
    if Stranded(Reach(es)) {
      var k := StrandedSince(es);
      assert false;
    }
  }

  /** Stranding ends in exactly two ways: a newcomer takes the free lock, or the
      last of the stranded is cancelled. */
  lemma StrandingEndsExactly(s: State, e: Event)
    requires QueueInv(s) && OwnerInv(s) && Enabled(s, e) && Stranded(s)
    ensures !Stranded(Step(s, e)) <==>
              (e.Enter? && Frame(s.senders[e.i].job, NumberOf(s, s.senders[e.i].job)).Ok?) ||
              (e.Cancel? && s.queue == [e.i])
  {
    hide Frame, WfPdu;
    match e {
      case Enter(i) => FrameIsNotEmpty(s.senders[i].job, NumberOf(s, s.senders[i].job));
      case Cancel(i) => CancelUnstrands(s, i);
      case _ =>
    }
  }

  lemma CancelUnstrands(s: State, i: nat)
    requires QueueInv(s) && Enabled(s, Cancel(i)) && Stranded(s)
    ensures !Stranded(Step(s, Cancel(i))) <==> s.queue == [i]
  {
    assert s.senders[i].phase == Waiting && i in s.queue;
    RemoveFromRemoves(s.queue, i);
    var rest := RemoveFrom(s.queue, i);
    if rest == [] {
      assert forall k | 0 <= k < |s.queue| :: s.queue[k] in s.queue;
      assert s.queue == [i];
    } else {
      assert rest[0] in rest;
    }
  }

  /** A newcomer does not leave the stranded behind: when its write ends, as the
      end of every write but that of a timed-out command, the first waiter is
      woken, and only that one leaves the queue. */
  lemma ReleaseWakesFirst(s: State, i: nat, result: WriteResult)
    requires QueueInv(s) && OwnerInv(s) && Enabled(s, Finish(i, result)) && result != Timeout && s.queue != []
    ensures var t := Step(s, Finish(i, result));
            && t.buf == [] && t.queue == s.queue[1..]
            && t.senders[s.queue[0]].phase == Woken(false)
            && forall j | 0 <= j < |s.senders| && j != i && j != s.queue[0] :: t.senders[j] == s.senders[j]
  {
    assert s.senders[s.queue[0]].phase == Waiting;
  }

  lemma EnabledInRange(s: State, e: Event)
    requires Enabled(s, e) && e.Resume?
    ensures e.i < |s.senders|
  {
  }

  /** The exception is real: of three unbinds, the second is cancelled after it
      was woken and before it resumes; the third is left waiting for a free lock. */
  lemma StrandingHappens() returns (es: seq<Event>)
    ensures IsRun(es) && Stranded(Reach(es)) && Reach(es).intact
  {
    hide Step, Stranded, ReachFrom, IsRunFrom;
    es := OneWritesTwoWait();
    var s := Reach(es);
    es := Extend(es, Move(0, HEADER_LENGTH));
    FirstIsDone(s);
    es := Extend(es, Finish(0, Done));
    var t := Reach(es);
    es := Extend(es, Cancel(1));
    SecondLeaves(t);
    es := Extend(es, Resume(1));
  }

  /** So is its other form: the second operation has been woken, but its PDU, a
      bind_receiver_resp whose system_id is too long, cannot be serialized. */
  lemma StrandingByFailureHappens() returns (es: seq<Event>)
    ensures IsRun(es) && Stranded(Reach(es)) && Reach(es).intact
    ensures exists i :: 0 <= i < |Reach(es).senders| && Reach(es).senders[i].phase == Left(SerializationFailed)
  {
    hide Step, Stranded, ReachFrom, IsRunFrom, Frame, WfPdu;
    es := BadOneWaits();
    var s := Reach(es);
    es := Extend(es, Move(0, HEADER_LENGTH));
    FirstIsDone(s);
    es := Extend(es, Finish(0, Done));
    var t := Reach(es);
    BadOneLeaves(t);
    es := Extend(es, Resume(1));
    assert Reach(es).senders[1].phase == Left(SerializationFailed);
  }

  const LONG_ID: seq<Octet> := [1, 2, 3, 4, 5, 6, 7, 8, 9, 10, 11, 12, 13, 14, 15, 16]
  const LONG_RESP: Pdu := Pdu(0x8000_0001, [Schema.Text(LONG_ID), Schema.Optional(map[])])

  lemma CannotBeSerialized(n: U32)
    ensures WfPdu(LONG_RESP) && Frame(Response(LONG_RESP, 1, ROK), n).Err?
  {
    hide Find, BindReceiverRespFields, Schema.EncodeFields, Schema.Typed;
    BindReceiverRespIsThird();
    LongIdFails();
  }

  lemma LongIdFails()
    ensures Schema.Typed(BindReceiverRespFields(), LONG_RESP.vals)
    ensures Schema.EncodeFields(BindReceiverRespFields(), LONG_RESP.vals).Err?
  {
    assert BindReceiverRespFields()[0].kind == Schema.COctetStr(16);
    assert Schema.EncodeField(Schema.COctetStr(16), LONG_RESP.vals[0]).Err?;
  }

  lemma BadOneWaits() returns (es: seq<Event>)
    ensures IsRun(es)
    ensures var s := Reach(es);
            && s.queue == [1, 2] && |s.buf| == HEADER_LENGTH && s.intact && |s.senders| == 3
            && s.senders[0].phase == Writing(0) && s.senders[1].phase == s.senders[2].phase == Waiting
            && s.senders[1].job == BadJob()
  {
    hide Step, ReachFrom, IsRunFrom, Frame, WfPdu;
    es := BadOneCalled();
    var s := Reach(es);
    ThreeEnter(s);
    es := Extend(es, Enter(0));
    es := Extend(es, Enter(1));
    es := Extend(es, Enter(2));
  }

  ghost function BadJob(): Job {
    CannotBeSerialized(1);
    Response(LONG_RESP, 1, ROK)
  }

  lemma BadOneCalled() returns (es: seq<Event>)
    ensures IsRun(es)
    ensures var s := Reach(es);
            && s.queue == [] && s.buf == [] && s.intact && |s.senders| == 3
            && (forall i | 0 <= i < 3 :: s.senders[i].phase == Called)
            && s.senders[0].job.Command? && s.senders[1].job == BadJob()
  {
    hide WfPdu, BadJob;
    es := [];
    es := Extend(es, CallFresh(UNBIND));
    es := Extend(es, Call(BadJob()));
    es := Extend(es, CallFresh(UNBIND));
  }

  lemma BadOneLeaves(t: State)
    requires t.queue == [2] && t.buf == [] && t.intact && |t.senders| == 3
    requires t.senders[0].phase == Left(Sent) && t.senders[1].job == BadJob()
    requires t.senders[1].phase == Woken(false) && t.senders[2].phase == Waiting
    ensures Enabled(t, Resume(1))
    ensures var u := Step(t, Resume(1));
            Stranded(u) && u.intact && |u.senders| == 3 && u.senders[1].phase == Left(SerializationFailed)
  {
    hide WfPdu, Frame;
    CannotBeSerialized(1);
  }

  lemma FirstIsDone(s: State)
    requires s.queue == [1, 2] && |s.buf| == HEADER_LENGTH && s.intact && |s.senders| == 3
    requires s.senders[0].phase == Writing(0) && s.senders[1].phase == s.senders[2].phase == Waiting
    ensures var moved := Step(s, Move(0, HEADER_LENGTH));
            && Enabled(moved, Finish(0, Done))
            && var t := Step(moved, Finish(0, Done));
               && t.queue == [2] && t.buf == [] && t.intact && |t.senders| == 3
               && t.senders[0].phase == Left(Sent)
               && t.senders[1].phase == Woken(false) && t.senders[2].phase == Waiting
               && t.senders[1].job == s.senders[1].job
  {
    hide WfPdu;
  }

  lemma SecondLeaves(t: State)
    requires t.queue == [2] && t.buf == [] && t.intact && |t.senders| == 3
    requires t.senders[0].phase == Left(Sent)
    requires t.senders[1].phase == Woken(false) && t.senders[2].phase == Waiting
    ensures var cancelled := Step(t, Cancel(1));
            && Enabled(cancelled, Resume(1)) && Stranded(Step(cancelled, Resume(1)))
            && Step(cancelled, Resume(1)).intact
  {
  }

  lemma OneWritesTwoWait() returns (es: seq<Event>)
    ensures IsRun(es)
    ensures var s := Reach(es);
            && s.queue == [1, 2] && |s.buf| == HEADER_LENGTH && s.intact && |s.senders| == 3
            && s.senders[0].phase == Writing(0) && s.senders[1].phase == s.senders[2].phase == Waiting
  {
    hide Step, ReachFrom, IsRunFrom;
    es := ThreeCalled();
    var s := Reach(es);
    ThreeEnter(s);
    es := Extend(es, Enter(0));
    es := Extend(es, Enter(1));
    es := Extend(es, Enter(2));
  }

  lemma ThreeCalled() returns (es: seq<Event>)
    ensures IsRun(es)
    ensures var s := Reach(es);
            && s.queue == [] && s.buf == [] && s.intact && |s.senders| == 3
            && (forall i | 0 <= i < 3 :: s.senders[i].phase == Called)
            && s.senders[0].job.Command?
  {
    es := [];
    es := Extend(es, CallFresh(UNBIND));
    es := Extend(es, CallFresh(UNBIND));
    es := Extend(es, CallFresh(UNBIND));
  }

  lemma ThreeEnter(s: State)
    requires s.queue == [] && s.buf == [] && s.intact && |s.senders| == 3
    requires forall i | 0 <= i < 3 :: s.senders[i].phase == Called
    requires s.senders[0].job.Command?
    ensures var t := Step(s, Enter(0));
            && Enabled(t, Enter(1))
            && var u := Step(t, Enter(1));
               && Enabled(u, Enter(2))
               && var v := Step(u, Enter(2));
                  && v.queue == [1, 2] && |v.buf| == HEADER_LENGTH && v.intact && |v.senders| == 3
                  && v.senders[0].phase == Writing(0) && v.senders[1].phase == v.senders[2].phase == Waiting
                  && v.senders[1].job == s.senders[1].job
  {
    hide WfPdu;
  }

  lemma Extend(es: seq<Event>, e: Event) returns (fs: seq<Event>)
    requires IsRun(es) && Enabled(Reach(es), e)
    ensures fs == es + [e] && IsRun(fs) && Reach(fs) == Step(Reach(es), e)
  {
    fs := es + [e];
    assert fs[..|fs| - 1] == es;
  }

  // -------------------------------------------------------------------------
  // After a timed-out command

  /** The buffer is taken, and by nobody. */
  ghost predicate Jammed(s: State) {
    s.owner.Nobody? && s.buf != []
  }

  /** A command whose write times out leaves its frame in the buffer. */
  lemma TimeoutJams(s: State, i: nat)
    requires OwnerInv(s) && Enabled(s, Finish(i, Timeout))
    ensures Jammed(Step(s, Finish(i, Timeout)))
  {
    assert s.owner == By(i);
  }

  /** From then on no operation of the session is ever sent: nothing more goes on
      the wire, whoever calls, waits or is woken. An operation that leaves at all
      does so because its wait was cancelled; the next keepalive, for one, hangs
      until then. */
  lemma {:induction false} JammedForever(s: State, es: seq<Event>)
    requires OwnerInv(s) && Jammed(s) && IsRunFrom(s, es)
    ensures OwnerInv(ReachFrom(s, es)) && Jammed(ReachFrom(s, es))
    ensures ReachFrom(s, es).wire == s.wire && ReachFrom(s, es).log == s.log
    ensures LeavesOnlyCancelled(s, ReachFrom(s, es))
    decreases |es|
  {
    if es != [] {
      hide Enabled, Step, OwnerInv;
      var before := es[..|es| - 1];
      JammedForever(s, before);
      JammedStep(ReachFrom(s, before), es[|es| - 1]);
    }
  }

  /** Who has left in `t` had left in `s`, or was cancelled. */
  ghost predicate LeavesOnlyCancelled(s: State, t: State) {
    && |s.senders| <= |t.senders|
    && (forall i | 0 <= i < |t.senders| && t.senders[i].phase.Left? ::
          (i < |s.senders| && s.senders[i].phase == t.senders[i].phase) || t.senders[i].phase.outcome == WaitCancelled)
  }

  lemma JammedStep(s: State, e: Event)
    requires OwnerInv(s) && Jammed(s) && Enabled(s, e)
    ensures OwnerInv(Step(s, e)) && Jammed(Step(s, e))
    ensures Step(s, e).wire == s.wire && Step(s, e).log == s.log
    ensures LeavesOnlyCancelled(s, Step(s, e))
    ensures forall i | 0 <= i < |s.senders| && !s.senders[i].phase.Left? && Step(s, e).senders[i].phase.Left? ::
              s.senders[i].phase == Aborting || s.senders[i].phase == Woken(true)
  {
    hide Frame, WfPdu;
    OwnerStep(s, e);
  }

  /** The session is jammed exactly if some command's write has timed out; no
      other failure, and no cancellation, does it. */
  lemma {:induction false} JammedExactly(es: seq<Event>)
    requires IsRun(es)
    ensures Jammed(Reach(es)) <==> exists k :: 0 <= k < |es| && TimesOut(es[k])
    decreases |es|
  {
    if es != [] {
      var before, last := es[..|es| - 1], es[|es| - 1];
      JammedExactly(before);
      InvariantsOfRun(before);
      JamStep(Reach(before), last);
      hide Enabled, Step, ReachFrom, IsRunFrom, OwnerInv, QueueInv, Jammed, TimesOut;
      TimesOutInSnoc(before, last);
      assert es == before + [last];
    }
  }

  lemma TimesOutInSnoc(es: seq<Event>, e: Event)
    ensures (exists k :: 0 <= k < |es + [e]| && TimesOut((es + [e])[k]))
       <==> (exists k :: 0 <= k < |es| && TimesOut(es[k])) || TimesOut(e)
  {
    hide TimesOut;
    var all := es + [e];
    if k :| 0 <= k < |es| && TimesOut(es[k]) {
      assert TimesOut(all[k]);
    }
    if TimesOut(e) {
      assert TimesOut(all[|es|]);
    }
    if k :| 0 <= k < |all| && TimesOut(all[k]) {
      if k < |es| {
        assert TimesOut(es[k]);
      }
    }
  }

  predicate TimesOut(e: Event) {
    e.Finish? && e.result == Timeout
  }

  lemma JamStep(s: State, e: Event)
    requires QueueInv(s) && OwnerInv(s) && Enabled(s, e)
    ensures Jammed(Step(s, e)) <==> Jammed(s) || TimesOut(e)
  {
    hide Frame, WfPdu, QueueInv;
    OwnerStep(s, e);
    if Jammed(s) {
      JammedStep(s, e);
    } else if e.Finish? {
      FinishOwner(s, e.i, e.result);
    }
  }

  /** And it happens: a keepalive whose write times out before any octet went. */
  lemma JamHappens() returns (es: seq<Event>)
    ensures IsRun(es) && Jammed(Reach(es)) && Reach(es).wire == []
  {
    hide Step, ReachFrom, IsRunFrom, Jammed;
    es := OneCalled();
    OneTimesOut(Reach(es));
    es := Extend(es, Enter(0));
    es := Extend(es, Finish(0, Timeout));
  }

  lemma OneCalled() returns (es: seq<Event>)
    ensures IsRun(es)
    ensures var s := Reach(es);
            s.buf == [] && s.wire == [] && |s.senders| == 1 && s.senders[0].phase == Called && s.senders[0].job.Command?
  {
    es := Extend([], CallFresh(ENQUIRE_LINK));
  }

  lemma OneTimesOut(s: State)
    requires s.buf == [] && s.wire == [] && |s.senders| == 1
    requires s.senders[0].phase == Called && s.senders[0].job.Command?
    ensures Enabled(s, Enter(0))
    ensures var t := Step(s, Enter(0));
            && Enabled(t, Finish(0, Timeout))
            && Jammed(Step(t, Finish(0, Timeout))) && Step(t, Finish(0, Timeout)).wire == []
  {
    hide WfPdu;
  }

  // -------------------------------------------------------------------------
  // The log

  /** Every logged frame encodes the job of an operation that took the lock, under
      the number it drew or brought; no operation is logged twice. */
  ghost predicate LogInv(s: State) {
    && (forall k | 0 <= k < |s.log| :: Logged(s, s.log[k]))
    && (forall j, k | 0 <= j < k < |s.log| :: s.log[j].sender != s.log[k].sender)
  }

  ghost predicate Logged(s: State, x: Entry) {
    && x.sender < |s.senders|
    && (s.senders[x.sender].phase.Writing? || s.senders[x.sender].phase.Left?)
    && Frame(s.senders[x.sender].job, x.sequenceNumber) == Ok(x.frame)
    && x.draw == s.senders[x.sender].draw
    && (!s.senders[x.sender].job.Request? ==> x.sequenceNumber == s.senders[x.sender].job.sequenceNumber)
  }

  /** No operation that could still be logged, or has been, changes its job; one
      that has been logged stays so. */
  ghost predicate Continues(s: State, t: State) {
    && |s.senders| <= |t.senders|
    && (forall i | 0 <= i < |s.senders| :: t.senders[i].job == s.senders[i].job)
    && (forall i | 0 <= i < |s.senders| && (s.senders[i].phase.Writing? || s.senders[i].phase.Left?) ::
          t.senders[i].draw == s.senders[i].draw && (t.senders[i].phase.Writing? || t.senders[i].phase.Left?))
  }

  lemma StepContinues(s: State, e: Event)
    requires QueueInv(s) && Enabled(s, e)
    ensures Continues(s, Step(s, e))
  {
    hide Frame, WfPdu, Queued;
    match e {
      case Call(job) =>
      case CallFresh(id) =>
      case Enter(i) => AcquireContinues(s, i);
      case Cancel(i) =>
      case Resume(i) => AcquireContinues(s, i);
      case Move(i, n) =>
      case Finish(i, result) => FinishContinues(s, i, result);
    }
  }

  lemma AcquireContinues(s: State, i: nat)
    requires i < |s.senders| && !s.senders[i].phase.Writing? && !s.senders[i].phase.Left?
    ensures Continues(s, Acquire(s, i))
  {
    hide Frame, WfPdu;
  }

  lemma FinishContinues(s: State, i: nat, result: WriteResult)
    requires QueueInv(s) && Enabled(s, Finish(i, result))
    ensures Continues(s, Step(s, Finish(i, result)))
  {
    if s.queue != [] {
      assert s.senders[s.queue[0]].phase == Waiting;
    }
  }

  /** A step logs at most one frame, that of an operation just let in. */
  lemma StepLogs(s: State, e: Event)
    requires Enabled(s, e)
    ensures var t := Step(s, e);
            t.log == s.log ||
            (t.log != [] && t.log[..|t.log| - 1] == s.log
             && Logged(t, t.log[|t.log| - 1])
             && t.log[|t.log| - 1].sender < |s.senders|
             && !s.senders[t.log[|t.log| - 1].sender].phase.Writing?
             && !s.senders[t.log[|t.log| - 1].sender].phase.Left?)
  {
    hide Frame, WfPdu;
  }

  lemma LogStep(s: State, e: Event)
    requires QueueInv(s) && LogInv(s) && Enabled(s, e)
    ensures LogInv(Step(s, e))
  {
    hide Step, Enabled, Frame, WfPdu;
    StepContinues(s, e);
    StepLogs(s, e);
    var t := Step(s, e);
    forall k | 0 <= k < |t.log| ensures Logged(t, t.log[k]) {
      if k < |s.log| {
        assert t.log[k] == s.log[k] && Logged(s, s.log[k]);
      }
    }
    forall j, k | 0 <= j < k < |t.log| ensures t.log[j].sender != t.log[k].sender {
      assert t.log[j] == s.log[j] && Logged(s, s.log[j]);
      if k < |s.log| {
        assert t.log[k] == s.log[k];
      }
    }
  }

  lemma {:induction false} LogOfRun(es: seq<Event>)
    requires IsRun(es)
    ensures QueueInv(Reach(es)) && LogInv(Reach(es))
    decreases |es|
  {
    if es != [] {
      hide Enabled, Step, QueueInv, LogInv;
      var before := es[..|es| - 1];
      LogOfRun(before);
      QueueStep(Reach(before), es[|es| - 1]);
      LogStep(Reach(before), es[|es| - 1]);
    }
  }

  /** The phases of an operation that holds, or has held, the lock. */
  predicate TookLock(phase: Phase) {
    phase.Writing? || (phase.Left? && phase.outcome in {Sent, WriteFailed, WriteTimedOut})
  }

  ghost predicate InLog(log: seq<Entry>, i: nat) {
    exists k :: 0 <= k < |log| && log[k].sender == i
  }

  /** The log holds a frame of exactly those operations. */
  ghost predicate ServedInv(s: State) {
    forall i | 0 <= i < |s.senders| :: TookLock(s.senders[i].phase) <==> InLog(s.log, i)
  }

  lemma ServedStep(s: State, e: Event)
    requires QueueInv(s) && OwnerInv(s) && LogInv(s) && ServedInv(s) && Enabled(s, e)
    ensures ServedInv(Step(s, e))
  {
    hide Frame, WfPdu, InLog, Queued;
    match e {
      case Call(_) => NewcomerIsNotInLog(s);
      case CallFresh(_) => NewcomerIsNotInLog(s);
      case Enter(i) => AcquireServes(s, i);
      case Resume(i) =>
        if s.senders[i].phase == Woken(false) {
          AcquireServes(s, i);
        }
      case Finish(i, result) => FinishServes(s, i, result);
      case _ =>
    }
  }

  lemma NewcomerIsNotInLog(s: State)
    requires LogInv(s)
    ensures !InLog(s.log, |s.senders|)
  {
    assert forall k | 0 <= k < |s.log| :: Logged(s, s.log[k]);
  }

  lemma AcquireServes(s: State, i: nat)
    requires ServedInv(s) && i < |s.senders| && !s.senders[i].phase.Writing? && !s.senders[i].phase.Left?
    ensures ServedInv(Acquire(s, i))
  {
    hide Frame, WfPdu, InLog;
    var t := Acquire(s, i);
    if t.log != s.log {
      forall j | 0 <= j < |s.senders| ensures InLog(t.log, j) <==> j == i || InLog(s.log, j) {
        InLogSnoc(s.log, t.log[|s.log|], j);
      }
    }
  }

  lemma InLogSnoc(log: seq<Entry>, x: Entry, i: nat)
    ensures InLog(log + [x], i) <==> x.sender == i || InLog(log, i)
  {
    var all := log + [x];
    if k :| 0 <= k < |log| && log[k].sender == i {
      assert all[k].sender == i;
    }
    if x.sender == i {
      assert all[|log|].sender == i;
    }
  }

  lemma FinishServes(s: State, i: nat, result: WriteResult)
    requires QueueInv(s) && ServedInv(s) && Enabled(s, Finish(i, result))
    ensures ServedInv(Step(s, Finish(i, result)))
  {
    hide InLog;
    if s.queue != [] {
      assert s.senders[s.queue[0]].phase == Waiting;
    }
  }

  /** In every reachable state, an operation has a frame in the log exactly if it
      is writing, or has left with its write done, failed or timed out. */
  lemma {:induction false} ServedOfRun(es: seq<Event>)
    requires IsRun(es)
    ensures ServedInv(Reach(es))
    decreases |es|
  {
    if es != [] {
      hide Enabled, Step, QueueInv, OwnerInv, LogInv, ServedInv;
      var before := es[..|es| - 1];
      ServedOfRun(before);
      LogOfRun(before);
      InvariantsOfRun(before);
      ServedStep(Reach(before), es[|es| - 1]);
    } else {
      NobodyServedAtFirst();
    }
  }

  lemma NobodyServedAtFirst()
    ensures ServedInv(INITIAL)
  {
  }

  // -------------------------------------------------------------------------
  // Sequence numbers

  /** Commands bring the number of their draw; responses draw nothing; requests
      have drawn once they hold, or have held, the lock. */
  ghost predicate DrawOfSender(x: Sender) {
    match x.job
    case Command(_, n) => x.draw > 0 ==> n == NthDraw(x.draw)
    case Response(_, _, _) => x.draw == 0
    case Request(_) => x.draw > 0 ==> x.phase.Writing? || x.phase.Left?
  }

  ghost predicate DrawsOfSenders(senders: seq<Sender>, draws: nat) {
    && (forall i | 0 <= i < |senders| :: senders[i].draw <= draws && DrawOfSender(senders[i]))
    && (forall i, j | 0 <= i < j < |senders| && senders[i].draw > 0 :: senders[i].draw != senders[j].draw)
  }

  ghost predicate IsRequest(senders: seq<Sender>, x: Entry) {
    x.sender < |senders| && senders[x.sender].job.Request?
  }

  ghost predicate DrawOfEntry(senders: seq<Sender>, draws: nat, x: Entry) {
    && x.sender < |senders| && x.draw <= draws
    && (x.draw > 0 ==> x.sequenceNumber == NthDraw(x.draw))
    && (IsRequest(senders, x) ==> x.draw > 0)
  }

  /** In the log, numbers are those of their draws, and a request, which draws
      when it has the lock, drew after everything before it. */
  ghost predicate DrawsOfLog(senders: seq<Sender>, draws: nat, log: seq<Entry>) {
    && (forall k | 0 <= k < |log| :: DrawOfEntry(senders, draws, log[k]))
    && (forall j, k | 0 <= j < k < |log| && IsRequest(senders, log[k]) :: log[j].draw < log[k].draw)
  }

  ghost predicate DrawInv(s: State) {
    && s.counter == NthDraw(s.draws)
    && DrawsOfSenders(s.senders, s.draws)
    && DrawsOfLog(s.senders, s.draws, s.log)
  }

  lemma DrawStep(s: State, e: Event)
    requires QueueInv(s) && DrawInv(s) && Enabled(s, e)
    ensures DrawInv(Step(s, e))
  {
    hide Frame, WfPdu, DrawInv, Queued;
    match e {
      case Call(job) => CallDraws(s, job);
      case CallFresh(id) => FreshDraws(s, id);
      case Enter(i) => AcquireDraws(s, i);
      case Cancel(i) =>
        var phase := if s.senders[i].phase.Woken? then Woken(true) else Aborting;
        PhaseDraws(s, i, phase);
        SameDraws(At(s, i, phase), Step(s, e));
      case Resume(i) =>
        if s.senders[i].phase == Woken(false) {
          AcquireDraws(s, i);
        } else {
          PhaseDraws(s, i, Left(WaitCancelled));
        }
      case Move(i, n) =>
        var phase := Writing(s.senders[i].phase.written + n);
        PhaseDraws(s, i, phase);
        SameDraws(At(s, i, phase), Step(s, e));
      case Finish(i, result) => FinishDraws(s, i, result);
    }
  }

  /** The invariant does not look at the rest of the state. */
  lemma SameDraws(s: State, t: State)
    requires DrawInv(s)
    requires t.senders == s.senders && t.counter == s.counter && t.draws == s.draws && t.log == s.log
    ensures DrawInv(t)
  {
    hide DrawsOfSenders, DrawsOfLog;
  }

  lemma CallDraws(s: State, job: Job)
    requires DrawInv(s)
    ensures DrawInv(Step(s, Call(job)))
  {
    hide DrawsOfLog;
    OtherSenders(s.senders, s.draws, s.log, Step(s, Call(job)).senders, s.draws);
  }

  lemma FreshDraws(s: State, id: U32)
    requires DrawInv(s) && Enabled(s, CallFresh(id))
    ensures DrawInv(Step(s, CallFresh(id)))
  {
    hide DrawsOfLog;
    NextIsNth(s.draws);
    OtherSenders(s.senders, s.draws, s.log, Step(s, CallFresh(id)).senders, s.draws + 1);
  }

  lemma OtherSenders(senders: seq<Sender>, draws: nat, log: seq<Entry>, senders': seq<Sender>, draws': nat)
    requires DrawsOfLog(senders, draws, log)
    requires |senders| <= |senders'| && draws <= draws'
    requires forall i | 0 <= i < |senders| :: senders'[i].job == senders[i].job
    ensures DrawsOfLog(senders', draws', log)
  {
    assert forall k | 0 <= k < |log| ::
        DrawOfEntry(senders, draws, log[k]) && (IsRequest(senders', log[k]) <==> IsRequest(senders, log[k]));
  }

  lemma PhaseDraws(s: State, i: nat, phase: Phase)
    requires DrawInv(s) && i < |s.senders|
    requires phase.Writing? || phase.Left? || !(s.senders[i].phase.Writing? || s.senders[i].phase.Left?)
    ensures DrawInv(At(s, i, phase))
  {
    hide DrawsOfLog;
    var t := At(s, i, phase);
    assert forall j | 0 <= j < |s.senders| ::
        t.senders[j].draw == s.senders[j].draw && t.senders[j].job == s.senders[j].job;
    assert DrawOfSender(s.senders[i]);
    OtherSenders(s.senders, s.draws, s.log, t.senders, s.draws);
  }

  lemma FinishDraws(s: State, i: nat, result: WriteResult)
    requires QueueInv(s) && DrawInv(s) && Enabled(s, Finish(i, result))
    ensures DrawInv(Step(s, Finish(i, result)))
  {
    var outcome := if result == Done then Sent else if result == Error then WriteFailed else WriteTimedOut;
    PhaseDraws(s, i, Left(outcome));
    var t := At(s, i, Left(outcome)).(buf := [], owner := Nobody);
    assert s.queue != [] ==> s.senders[s.queue[0]].phase == Waiting && s.queue[0] != i;
    hide DrawInv, Queued;
    SameDraws(At(s, i, Left(outcome)), t);
    if result == Timeout || s.queue == [] {
      SameDraws(t, Step(s, Finish(i, result)));
    } else {
      PhaseDraws(t, s.queue[0], Woken(false));
      SameDraws(At(t, s.queue[0], Woken(false)), Step(s, Finish(i, result)));
    }
  }

  lemma AcquireDraws(s: State, i: nat)
    requires DrawInv(s) && i < |s.senders| && !s.senders[i].phase.Writing? && !s.senders[i].phase.Left?
    ensures DrawInv(Acquire(s, i))
  {
    hide Frame, WfPdu, DrawInv;
    var job := s.senders[i].job;
    if s.buf != [] {
      PhaseDraws(s, i, Waiting);
      SameDraws(At(s, i, Waiting), Acquire(s, i));
    } else if Frame(job, NumberOf(s, job)).Err? {
      PhaseDraws(s, i, Left(SerializationFailed));
    } else {
      ServedDraws(s, i);
    }
  }

  lemma ServedDraws(s: State, i: nat)
    requires DrawInv(s) && i < |s.senders| && s.buf == []
    requires !s.senders[i].phase.Writing? && !s.senders[i].phase.Left?
    requires Frame(s.senders[i].job, NumberOf(s, s.senders[i].job)).Ok?
    ensures DrawInv(Acquire(s, i))
  {
    hide Frame, WfPdu, DrawsOfSenders, DrawsOfLog, NthDraw;
    NextIsNth(s.draws);
    SendersAfterDraw(s, i);
    LogAfterDraw(s, i);
  }

  lemma SendersAfterDraw(s: State, i: nat)
    requires DrawInv(s) && i < |s.senders| && s.buf == []
    requires Frame(s.senders[i].job, NumberOf(s, s.senders[i].job)).Ok?
    ensures DrawsOfSenders(Acquire(s, i).senders, Acquire(s, i).draws)
  {
    hide Frame, WfPdu, DrawsOfLog;
    assert DrawOfSender(s.senders[i]);
  }

  lemma LogAfterDraw(s: State, i: nat)
    requires DrawInv(s) && i < |s.senders| && s.buf == []
    requires !s.senders[i].phase.Writing? && !s.senders[i].phase.Left?
    requires Frame(s.senders[i].job, NumberOf(s, s.senders[i].job)).Ok?
    requires NextSequenceNumber(s.counter) == NthDraw(s.draws + 1)
    ensures var t := Acquire(s, i);
            DrawsOfLog(t.senders, t.draws, t.log)
  {
    hide Frame, WfPdu, DrawsOfLog;
    assert DrawOfSender(s.senders[i]) && s.senders[i].draw <= s.draws;
    var t := Acquire(s, i);
    OtherSenders(s.senders, s.draws, s.log, t.senders, t.draws);
    LogBelow(s.senders, s.draws, s.log);
    LogGrows(t.senders, s.draws, t.draws, s.log, t.log[|s.log|]);
  }

  lemma LogBelow(senders: seq<Sender>, draws: nat, log: seq<Entry>)
    requires DrawsOfLog(senders, draws, log)
    ensures forall k | 0 <= k < |log| :: log[k].draw <= draws
  {
    assert forall k | 0 <= k < |log| :: DrawOfEntry(senders, draws, log[k]);
  }

  lemma LogGrows(senders: seq<Sender>, before: nat, draws: nat, log: seq<Entry>, x: Entry)
    requires DrawsOfLog(senders, draws, log) && DrawOfEntry(senders, draws, x)
    requires forall k | 0 <= k < |log| :: log[k].draw <= before
    requires IsRequest(senders, x) ==> x.draw > before
    ensures DrawsOfLog(senders, draws, log + [x])
  {
  }

  lemma {:induction false} DrawsOfRun(es: seq<Event>)
    requires IsRun(es)
    ensures DrawInv(Reach(es))
    decreases |es|
  {
    if es != [] {
      hide Enabled, Step, QueueInv, DrawInv;
      var before := es[..|es| - 1];
      DrawsOfRun(before);
      LogOfRun(before);
      DrawStep(Reach(before), es[|es| - 1]);
    }
  }

  /** On the wire, frames with drawn numbers bear different numbers as long as
      their draws lie within one period; and a request drew after every frame
      before it, so that only commands ever stand out of the order of the draws. */
  lemma {:induction false} NumbersOnTheWire(es: seq<Event>, j: nat, k: nat)
    requires IsRun(es) && j < k < |Reach(es).log|
    ensures var s, x, y := Reach(es), Reach(es).log[j], Reach(es).log[k];
            && y.sender < |s.senders|
            && (IsRequest(s.senders, y) ==> x.draw < y.draw)
            && (x.draw >= y.draw > 0 ==> s.senders[y.sender].job.Command?)
            && (x.draw > 0 ==> x.sequenceNumber == NthDraw(x.draw))
            && (x.draw > 0 && y.draw > 0 && -PERIOD < x.draw - y.draw < PERIOD ==>
                  x.sequenceNumber != y.sequenceNumber)
  {
    hide Reach;
    DrawsOfRun(es);
    LogOfRun(es);
    var s := Reach(es);
    var x, y := s.log[j], s.log[k];
    assert Logged(s, x) && Logged(s, y) && x.sender != y.sender;
    if x.draw > 0 && y.draw > 0 {
      var a, b := if x.sender < y.sender then x.sender else y.sender,
                  if x.sender < y.sender then y.sender else x.sender;
      assert s.senders[a].draw != s.senders[b].draw;
      if x.draw < y.draw {
        DrawsAgreeExactly(x.draw, y.draw);
      } else {
        DrawsAgreeExactly(y.draw, x.draw);
      }
    }
  }

  /** Commands do overtake: of two unbinds that drew in turn, the second enters first. */
  lemma CommandsOvertake() returns (es: seq<Event>)
    ensures IsRun(es) && Reach(es).intact
    ensures |Reach(es).log| == 2 && 0 < Reach(es).log[1].draw < Reach(es).log[0].draw
  {
    hide Step, ReachFrom, IsRunFrom;
    es := SecondWrites();
    var s := Reach(es);
    es := Extend(es, Move(1, HEADER_LENGTH));
    FirstFollows(s);
    es := Extend(es, Finish(1, Done));
    es := Extend(es, Enter(0));
  }

  lemma SecondWrites() returns (es: seq<Event>)
    ensures IsRun(es)
    ensures var s := Reach(es);
            && s.queue == [] && |s.buf| == HEADER_LENGTH && s.intact && |s.senders| == 2
            && s.senders[0] == Sender(Command(UNBIND, 1), Called, 1) && s.senders[1].phase == Writing(0)
            && |s.log| == 1 && s.log[0].draw == 2
  {
    es := [];
    es := Extend(es, CallFresh(UNBIND));
    es := Extend(es, CallFresh(UNBIND));
    es := Extend(es, Enter(1));
  }

  lemma FirstFollows(s: State)
    requires s.queue == [] && |s.buf| == HEADER_LENGTH && s.intact && |s.senders| == 2
    requires s.senders[0] == Sender(Command(UNBIND, 1), Called, 1) && s.senders[1].phase == Writing(0)
    requires |s.log| == 1 && s.log[0].draw == 2
    ensures var moved := Step(s, Move(1, HEADER_LENGTH));
            && Enabled(moved, Finish(1, Done))
            && var t := Step(moved, Finish(1, Done));
               && Enabled(t, Enter(0))
               && var u := Step(t, Enter(0));
                  u.intact && |u.log| == 2 && u.log[0].draw == 2 && u.log[1].draw == 1
  {
  }
}
