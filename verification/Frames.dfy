/** The reference reading of a byte stream: frame after frame, each as long as
    its command_length says. It knows nothing of reads, buffers or timeouts. */
module Frames {
  import opened Octets
  import opened HeaderCodec
  import opened Pdus

  /** The size of the receive buffer. */
  const CAPACITY := 131072

  datatype Item = Decoded(pdu: Pdu) | Undecodable(frame: seq<Octet>)

  /** What a frame makes the receiver do that the user or the peer can see. */
  datatype Observation =
    | Delivery(item: Item, sequenceNumber: U32, commandStatus: U32)
    | Reply(sequenceNumber: U32)
    | Unbound(commandId: U32, sequenceNumber: U32)

  function FrameLength(b: seq<Octet>): nat
    requires |b| >= HEADER_LENGTH
  {
    HeaderCodec.Deserialize(b).commandLength
  }

  predicate IsFrame(f: seq<Octet>) {
    |f| >= HEADER_LENGTH && FrameLength(f) == |f|
  }

  /** `b` holds at least one frame. */
  predicate HasFrame(b: seq<Octet>) {
    |b| >= HEADER_LENGTH && |b| >= FrameLength(b)
  }

  /** The hypothesis on the peer: wherever a header starts in the stream, its
      command_length covers the header and fits the buffer. */
  predicate WellFramed(b: seq<Octet>)
    decreases |b|
  {
    |b| >= HEADER_LENGTH ==>
      && HEADER_LENGTH <= FrameLength(b) <= CAPACITY
      && (HasFrame(b) ==> WellFramed(b[FrameLength(b)..]))
  }

  /** A body that cannot be decoded is handed over as the whole frame. */
  function DecodeFrame(f: seq<Octet>): Item
    requires IsFrame(f)
  {
    match DecodeBody(HeaderCodec.Deserialize(f).commandId, f[HEADER_LENGTH..])
    case Ok(p) => Decoded(p)
    case Err => Undecodable(f)
  }

  function Observe(f: seq<Octet>): seq<Observation>
    requires IsFrame(f)
  {
    var h := HeaderCodec.Deserialize(f);
    if h.commandId == ENQUIRE_LINK then [Reply(h.sequenceNumber)]
    else if h.commandId == ENQUIRE_LINK_RESP then []
    else if h.commandId == UNBIND || h.commandId == UNBIND_RESP then [Unbound(h.commandId, h.sequenceNumber)]
    else [Delivery(DecodeFrame(f), h.sequenceNumber, h.commandStatus)]
  }

  lemma FrontIsFrame(b: seq<Octet>)
    requires HasFrame(b) && FrameLength(b) >= HEADER_LENGTH
    ensures IsFrame(b[..FrameLength(b)])
    ensures HeaderCodec.Deserialize(b[..FrameLength(b)]) == HeaderCodec.Deserialize(b)
  {
    SameHeader(b[..FrameLength(b)], b);
  }

  lemma SameHeader(f: seq<Octet>, b: seq<Octet>)
    requires |f| >= HEADER_LENGTH && f <= b
    ensures HeaderCodec.Deserialize(f) == HeaderCodec.Deserialize(b)
  {
    assert f[0..4] == b[0..4] && f[4..8] == b[4..8] && f[8..12] == b[8..12] && f[12..16] == b[12..16];
  }

  /** Everything the complete frames of `b` make visible, in order. */
  function ObserveAll(b: seq<Octet>): seq<Observation>
    decreases |b|
  {
    if !HasFrame(b) || FrameLength(b) < HEADER_LENGTH then []
    else
      FrontIsFrame(b);
      Observe(b[..FrameLength(b)]) + ObserveAll(b[FrameLength(b)..])
  }

  ghost predicate AllFrames(fs: seq<seq<Octet>>) {
    forall f | f in fs :: IsFrame(f)
  }

  function ObserveFrames(fs: seq<seq<Octet>>): seq<Observation>
    requires AllFrames(fs)
  {
    if fs == [] then [] else Observe(fs[0]) + ObserveFrames(fs[1..])
  }

  lemma {:induction false} ObserveFramesAppend(fs: seq<seq<Octet>>, gs: seq<seq<Octet>>)
    requires AllFrames(fs) && AllFrames(gs)
    ensures AllFrames(fs + gs)
    ensures ObserveFrames(fs + gs) == ObserveFrames(fs) + ObserveFrames(gs)
  {
    if fs == [] {
      assert fs + gs == gs;
    } else {
      assert (fs + gs)[1..] == fs[1..] + gs;
      ObserveFramesAppend(fs[1..], gs);
    }
  }

  lemma FrameThenRest(f: seq<Octet>, rest: seq<Octet>)
    requires IsFrame(f)
    ensures HasFrame(f + rest) && FrameLength(f + rest) == |f|
    ensures (f + rest)[..|f|] == f && (f + rest)[|f|..] == rest
    ensures ObserveAll(f + rest) == Observe(f) + ObserveAll(rest)
    ensures WellFramed(f + rest) <==> |f| <= CAPACITY && WellFramed(rest)
  {
    SameHeader(f, f + rest);
    assert (f + rest)[..|f|] == f && (f + rest)[|f|..] == rest;
  }

  /** The reading of a stream depends only on its frames and what follows. */
  lemma {:induction false} ObserveAfterFrames(fs: seq<seq<Octet>>, rest: seq<Octet>)
    requires AllFrames(fs)
    ensures ObserveAll(Flatten(fs) + rest) == ObserveFrames(fs) + ObserveAll(rest)
    ensures WellFramed(Flatten(fs) + rest) ==> WellFramed(rest)
  {
    hide ObserveAll, Observe, WellFramed, IsFrame;
    if fs == [] {
      assert [] + rest == rest;
    } else {
      assert fs[0] in fs;
      assert Flatten(fs) + rest == fs[0] + (Flatten(fs[1..]) + rest);
      FrameThenRest(fs[0], Flatten(fs[1..]) + rest);
      ObserveAfterFrames(fs[1..], rest);
    }
  }

  lemma {:induction false} WellFramedPrefix(a: seq<Octet>, b: seq<Octet>)
    requires WellFramed(a + b)
    ensures WellFramed(a)
    decreases |a|
  {
    if |a| >= HEADER_LENGTH {
      SameHeader(a, a + b);
      var n := FrameLength(a);
      if |a| >= n {
        assert (a + b)[n..] == a[n..] + b;
        WellFramedPrefix(a[n..], b);
      }
    }
  }

  /** More octets only add observations. */
  lemma {:induction false} ObserveAllPrefix(a: seq<Octet>, b: seq<Octet>)
    ensures ObserveAll(a) <= ObserveAll(a + b)
    decreases |a|
  {
    if HasFrame(a) && FrameLength(a) >= HEADER_LENGTH {
      SameHeader(a, a + b);
      var n := FrameLength(a);
      assert (a + b)[n..] == a[n..] + b && (a + b)[..n] == a[..n];
      ObserveAllPrefix(a[n..], b);
    }
  }
}
