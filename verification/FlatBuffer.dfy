/** The receive buffer: one fixed array that is drained at the front and filled
    at the back, and slid down when the free tail is too short. */
module FlatBuffer {
  import opened Octets

  lemma MoveBoundary(s: seq<Octet>, from: nat, mid: nat, to: nat, k: nat)
    requires from <= mid <= mid + k <= to <= |s|
    ensures s[from..mid + k] == s[from..mid] + s[mid..to][..k]
    ensures s[mid + k..to] == s[mid..to][k..]
  {
  }

  ghost function Overwritten(s: seq<Octet>, at: nat, data: seq<Octet>): (t: seq<Octet>)
    requires at + |data| <= |s|
    ensures |t| == |s|
  {
    s[..at] + data + s[at + |data|..]
  }

  lemma OverwriteRegion(s: seq<Octet>, from: nat, mid: nat, to: nat, data: seq<Octet>)
    requires from <= mid <= mid + |data| <= to <= |s|
    ensures var t := Overwritten(s, mid, data);
            t[from..mid] == s[from..mid] && t[mid..to] == data + s[mid..to][|data|..]
  {
  }

  class StaticFlatBuffer {
    const buf: array<Octet>
    // the pointers in_, out_ and last_, as indices into buf
    var inPos: nat
    var outPos: nat
    var lastPos: nat

    ghost predicate Valid()
      reads this
    {
      inPos <= outPos <= lastPos <= buf.Length
    }

    /** The buffered octets, oldest first. */
    ghost function Contents(): (s: seq<Octet>)
      requires Valid()
      reads this, buf
      ensures |s| == outPos - inPos
    {
      buf[inPos..outPos]
    }

    /** The region handed out by the last `Prepare` and not yet committed. */
    ghost function Prepared(): (s: seq<Octet>)
      requires Valid()
      reads this, buf
      ensures |s| == lastPos - outPos
    {
      buf[outPos..lastPos]
    }

    constructor (capacity: nat)
      ensures Valid() && fresh(buf) && buf.Length == capacity
      ensures Contents() == [] && Prepared() == []
    {
      buf := new Octet[capacity](_ => 0);
      inPos, outPos, lastPos := 0, 0, 0;
    }

    method Clear()
      requires Valid()
      modifies this
      ensures Valid() && Contents() == [] && Prepared() == []
    {
      inPos, outPos, lastPos := 0, 0, 0;
    }

    function Capacity(): nat {
      buf.Length
    }

    function Size(): nat
      requires Valid()
      reads this
    {
      outPos - inPos
    }

    /** The octets from begin() to begin() + n. */
    method Front(n: nat) returns (b: seq<Octet>)
      requires Valid() && n <= |Contents()|
      ensures b == Contents()[..n]
    {
      b := buf[inPos..inPos + n];
    }

    /** Makes room for `n` octets, sliding the contents to the front of the array
        when the tail is too short. Fails, changing nothing, exactly when the
        contents and `n` together exceed the capacity. */
    method Prepare(n: nat) returns (ok: bool)
      requires Valid()
      modifies this, buf
      ensures Valid() && Contents() == old(Contents())
      ensures ok <==> |Contents()| + n <= Capacity()
      ensures ok ==> |Prepared()| == n
      ensures !ok ==> unchanged(this) && unchanged(buf)
    {
      if n <= buf.Length - outPos {
        lastPos := outPos + n;
        return true;
      }
      var len := Size();
      if n > buf.Length - len {
        return false;
      }
      ghost var kept := Contents();
      var from := inPos;
      // std::memmove: all reads come before the writes, so overlap is harmless
      forall i | 0 <= i < len {
        buf[i] := buf[from + i];
      }
      inPos := 0;
      outPos := len;
      lastPos := outPos + n;
      assert Contents() == kept;
      return true;
    }

    /** The socket writes what it received at the start of the prepared region. */
    method Receive(data: seq<Octet>)
      requires Valid() && |data| <= |Prepared()|
      modifies buf
      ensures Contents() == old(Contents())
      ensures Prepared() == data + old(Prepared())[|data|..]
    {
      forall i | 0 <= i < |data| {
        buf[outPos + i] := data[i];
      }
      assert buf[..] == Overwritten(old(buf[..]), outPos, data);
      OverwriteRegion(old(buf[..]), inPos, outPos, lastPos, data);
    }

    /** Moves the first `n` octets of the prepared region, or all of it if it is
        shorter, to the end of the contents. */
    method Commit(n: nat)
      requires Valid()
      modifies this
      ensures Valid()
      ensures var k := if n <= |old(Prepared())| then n else |old(Prepared())|;
              Contents() == old(Contents()) + old(Prepared())[..k] && Prepared() == old(Prepared())[k..]
    {
      var k := if n <= lastPos - outPos then n else lastPos - outPos;
      MoveBoundary(buf[..], inPos, outPos, lastPos, k);
      outPos := outPos + k;
    }

    /** Drops the first `n` octets of the contents, or all of them. To drop all moves
        the end of the contents to the front of the array but leaves the end of the
        prepared region, which then takes in the octets just dropped. */
    method Consume(n: nat)
      requires Valid()
      modifies this
      ensures Valid()
      ensures Contents() == if n <= |old(Contents())| then old(Contents())[n..] else []
      ensures Prepared() == old(Prepared()) <==> n < |old(Contents())| || old(outPos) == 0
      ensures n >= |old(Contents())| ==> Prepared() == buf[..old(lastPos)]
    {
      if n >= Size() {
        inPos := 0;
        outPos := 0;
        return;
      }
      inPos := inPos + n;
    }
  }

  /** So a buffer is no queue if all of it is consumed while a region is out: the
      octets 3, 4, 5 have been received, and 1, 2, 3 are committed. */
  method ConsumeBeforeCommit() returns (b: StaticFlatBuffer)
    ensures fresh(b) && b.Valid() && b.Contents() == [1, 2, 3]
  {
    b := TwoBufferedThreeReceived();
    assert b.buf[..5] == [1, 2] + [3, 4, 5];
    b.Consume(2);
    b.Commit(3);
  }

  method TwoBufferedThreeReceived() returns (b: StaticFlatBuffer)
    ensures fresh(b) && b.Valid() && b.Capacity() == 5
    ensures b.Contents() == [1, 2] && b.Prepared() == [3, 4, 5]
  {
    b := new StaticFlatBuffer(5);
    var ok := b.Prepare(2);
    b.Receive([1, 2]);
    b.Commit(2);
    assert b.Contents() == [1, 2];
    ok := b.Prepare(3);
    b.Receive([3, 4, 5]);
  }
}
