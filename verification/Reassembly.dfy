/**
 The per-message reassembly bitmask of a DTLS handshake message (ssl/d1_both.cc).

 A mask of (msgLen + 7) / 8 octets records which bytes of the body have arrived. It is
 released (set to null) at the moment every byte is there, and a message without a mask
 is complete.
 */
module Reassembly {
  import opened Octets
  import opened Fragments

  // ----- bits of one octet

  function BitRange(start: nat, end: nat): bv8
    requires start < 8 && end <= 8
  {
    var from: bv32 := !(((1 as bv32) << start) - 1);
    var below: bv32 := ((1 as bv32) << end) - 1;
    ((from & below) & 0xff) as bv8
  }

  predicate Bit(b: bv8, k: nat)
    requires k < 8
  {
    (b >> k) & 1 == 1
  }

  lemma BitRangeBits(start: nat, end: nat, k: nat)
    requires start < 8 && end <= 8 && k < 8
    ensures Bit(BitRange(start, end), k) <==> start <= k < end
  {
    if start == 0 {
    } else if start == 1 {
    } else if start == 2 {
    } else if start == 3 {
    } else if start == 4 {
    } else if start == 5 {
    } else if start == 6 {
    } else {
    }
  }

  lemma OrBits(a: bv8, b: bv8, k: nat)
    requires k < 8
    ensures Bit(a | b, k) <==> Bit(a, k) || Bit(b, k)
  {
  }

  lemma FullOctet(b: bv8)
    ensures b == 0xff <==> forall k: nat | k < 8 :: Bit(b, k)
  {
    if forall k: nat | k < 8 :: Bit(b, k) {
      assert Bit(b, 0) && Bit(b, 1) && Bit(b, 2) && Bit(b, 3);
      assert Bit(b, 4) && Bit(b, 5) && Bit(b, 6) && Bit(b, 7);
    }
  }

  lemma SameBits(a: bv8, b: bv8)
    requires forall k: nat | k < 8 :: Bit(a, k) == Bit(b, k)
    ensures a == b
  {
    assert Bit(a, 0) == Bit(b, 0) && Bit(a, 1) == Bit(b, 1) && Bit(a, 2) == Bit(b, 2);
    assert Bit(a, 3) == Bit(b, 3) && Bit(a, 4) == Bit(b, 4) && Bit(a, 5) == Bit(b, 5);
    assert Bit(a, 6) == Bit(b, 6) && Bit(a, 7) == Bit(b, 7);
  }

  // ----- bits of a whole mask

  predicate MaskBit(mask: seq<bv8>, k: nat)
    requires k < 8 * |mask|
  {
    Bit(mask[k / 8], k % 8)
  }

  function MaskLength(msgLen: nat): nat {
    (msgLen + 7) / 8
  }

  /** No bit at or above the message length is set. */
  ghost predicate InRange(mask: seq<bv8>, msgLen: nat) {
    |mask| == MaskLength(msgLen) &&
    forall k: nat | msgLen <= k < 8 * |mask| :: !MaskBit(mask, k)
  }

  ghost predicate Covers(mask: seq<bv8>, msgLen: nat) {
    msgLen <= 8 * |mask| && forall k: nat | k < msgLen :: MaskBit(mask, k)
  }

  /** `after` is `before` with the bits of one octet OR-ed with those of a range. */
  lemma OrRange(before: seq<bv8>, after: seq<bv8>, i: nat, from: nat, to: nat)
    requires i < |before| && from < 8 && to <= 8
    requires after == before[i := before[i] | BitRange(from, to)]
    ensures forall k: nat | k < 8 * |before| ::
      MaskBit(after, k) <==> MaskBit(before, k) || (8 * i + from <= k < 8 * i + to)
  {
    forall k: nat | k < 8 * |before|
      ensures MaskBit(after, k) <==> MaskBit(before, k) || (8 * i + from <= k < 8 * i + to)
    {
      BitRangeBits(from, to, k % 8);
      OrBits(before[i], BitRange(from, to), k % 8);
    }
  }

  lemma SetOctet(before: seq<bv8>, after: seq<bv8>, i: nat)
    requires i < |before| && after == before[i := 0xff]
    ensures forall k: nat | k < 8 * |before| ::
      MaskBit(after, k) <==> MaskBit(before, k) || (8 * i <= k < 8 * i + 8)
  {
    forall k: nat | k < 8 * |before|
      ensures MaskBit(after, k) <==> MaskBit(before, k) || (8 * i <= k < 8 * i + 8)
    {
      FullOctet(after[i]);
    }
  }

  lemma NotFullOctet(mask: seq<bv8>, msgLen: nat, i: nat)
    requires InRange(mask, msgLen) && i < msgLen / 8 && mask[i] != 0xff
    ensures !Covers(mask, msgLen)
  {
    FullOctet(mask[i]);
    var k: nat :| k < 8 && !Bit(mask[i], k);
    assert !MaskBit(mask, 8 * i + k);
  }

  lemma LastOctet(mask: seq<bv8>, msgLen: nat)
    requires InRange(mask, msgLen) && msgLen % 8 != 0
    ensures mask[msgLen / 8] == BitRange(0, msgLen % 8) <==>
            forall k: nat | 8 * (msgLen / 8) <= k < msgLen :: MaskBit(mask, k)
  {
    var last, n := mask[msgLen / 8], msgLen % 8;
    var base := 8 * (msgLen / 8);
    forall k: nat | k < 8
      ensures Bit(BitRange(0, n), k) <==> k < n
      ensures Bit(last, k) == MaskBit(mask, base + k)
    {
      BitRangeBits(0, n, k);
    }
    if forall k: nat | base <= k < msgLen :: MaskBit(mask, k) {
      forall k: nat | k < 8
        ensures Bit(last, k) == Bit(BitRange(0, n), k)
      {
        assert Bit(last, k) == MaskBit(mask, base + k);
      }
      SameBits(last, BitRange(0, n));
    } else {
      var k: nat :| base <= k < msgLen && !MaskBit(mask, k);
      assert !Bit(last, k - base) && Bit(BitRange(0, n), k - base);
    }
  }

  lemma WholeOctets(mask: seq<bv8>, msgLen: nat)
    requires InRange(mask, msgLen)
    requires forall i | 0 <= i < msgLen / 8 :: mask[i] == 0xff
    requires forall k: nat | 8 * (msgLen / 8) <= k < msgLen :: MaskBit(mask, k)
    ensures Covers(mask, msgLen)
  {
    forall k: nat | k < msgLen
      ensures MaskBit(mask, k)
    {
      if k < 8 * (msgLen / 8) {
        FullOctet(mask[k / 8]);
      }
    }
  }

  // ----- which bytes have arrived

  /** The mask read as one flag per body byte; a released mask stands for all of them. */
  function Flags(mask: seq<bv8>, msgLen: nat): (r: seq<bool>)
    requires |mask| == MaskLength(msgLen)
  {
    seq(msgLen, k requires 0 <= k < msgLen => MaskBit(mask, k))
  }

  function AllReceived(msgLen: nat): seq<bool> {
    seq(msgLen, _ => true)
  }

  /** The effect of marking [start, end) on those flags. */
  function Marked(flags: seq<bool>, start: nat, end: nat): (r: seq<bool>)
    ensures |r| == |flags|
  {
    seq(|flags|, k requires 0 <= k < |flags| => flags[k] || start <= k < end)
  }

  lemma CoversIsAll(mask: seq<bv8>, msgLen: nat)
    requires |mask| == MaskLength(msgLen)
    ensures Covers(mask, msgLen) <==> Flags(mask, msgLen) == AllReceived(msgLen)
  {
    var flags := Flags(mask, msgLen);
    if flags == AllReceived(msgLen) {
      forall k: nat | k < msgLen
        ensures MaskBit(mask, k)
      {
        assert flags[k] == AllReceived(msgLen)[k];
      }
    }
  }

  /** Flags after a whole history of marks, oldest first. */
  function MarkedAll(flags: seq<bool>, ranges: seq<(nat, nat)>): (r: seq<bool>)
    ensures |r| == |flags|
    decreases |ranges|
  {
    if ranges == [] then flags
    else MarkedAll(Marked(flags, ranges[0].0, ranges[0].1), ranges[1..])
  }

  ghost predicate InSomeRange(k: nat, ranges: seq<(nat, nat)>) {
    exists i | 0 <= i < |ranges| :: ranges[i].0 <= k < ranges[i].1
  }

  /** Byte k counts as received exactly when it was received before or lies in a marked range. */
  lemma {:induction false} MarkedAllIsUnion(flags: seq<bool>, ranges: seq<(nat, nat)>, k: nat)
    requires k < |flags|
    ensures MarkedAll(flags, ranges)[k] <==> flags[k] || InSomeRange(k, ranges)
    decreases |ranges|
  {
    if ranges != [] {
      var first, rest := ranges[0], ranges[1..];
      MarkedAllIsUnion(Marked(flags, first.0, first.1), rest, k);
      if InSomeRange(k, ranges) && !(first.0 <= k < first.1) {
        var i :| 0 <= i < |ranges| && ranges[i].0 <= k < ranges[i].1;
        assert rest[i - 1] == ranges[i];
      }
      if InSomeRange(k, rest) {
        var i :| 0 <= i < |rest| && rest[i].0 <= k < rest[i].1;
        assert ranges[i + 1] == rest[i];
      }
    }
  }

  /** A message is complete exactly when its marked ranges cover [0, msgLen). */
  lemma CompleteIffCovered(msgLen: nat, ranges: seq<(nat, nat)>)
    ensures MarkedAll(seq(msgLen, _ => false), ranges) == AllReceived(msgLen) <==>
            forall k: nat | k < msgLen :: InSomeRange(k, ranges)
  {
    var none := seq(msgLen, _ => false);
    var flags := MarkedAll(none, ranges);
    forall k: nat | k < msgLen
      ensures flags[k] <==> InSomeRange(k, ranges)
    {
      MarkedAllIsUnion(none, ranges, k);
    }
    if flags == AllReceived(msgLen) {
      forall k: nat | k < msgLen
        ensures InSomeRange(k, ranges)
      {
        assert flags[k] == AllReceived(msgLen)[k];
      }
    }
  }

  /** `mask` has exactly the bits of `before` and those in [start, end). */
  ghost predicate Grown(before: seq<bv8>, mask: seq<bv8>, start: nat, end: nat) {
    |mask| == |before| &&
    forall k: nat | k < 8 * |before| :: MaskBit(mask, k) <==> MaskBit(before, k) || start <= k < end
  }

  lemma GrownFlags(before: seq<bv8>, mask: seq<bv8>, msgLen: nat, start: nat, end: nat)
    requires InRange(before, msgLen) && start <= end <= msgLen && Grown(before, mask, start, end)
    ensures InRange(mask, msgLen)
    ensures Flags(mask, msgLen) == Marked(Flags(before, msgLen), start, end)
  {
  }

  // ----- the message under reassembly

  class HmFragment {
    const msgType: byte
    const seqNo: nat
    const msgLen: nat
    const data: array<byte>
    var reassembly: array?<bv8>

    ghost predicate Valid()
      reads this, data, reassembly
    {
      && data.Length == HEADER_LENGTH + msgLen
      && (reassembly == null ||
          (data as object != reassembly && msgLen > 0 &&
           InRange(reassembly[..], msgLen) && !Covers(reassembly[..], msgLen)))
    }

    /** Which bytes of the body have been received. */
    ghost function Received(): seq<bool>
      requires Valid()
      reads this, data, reassembly
    {
      if reassembly == null then AllReceived(msgLen) else Flags(reassembly[..], msgLen)
    }

    ghost function Body(): seq<byte>
      requires Valid()
      reads this, data, reassembly
    {
      data[HEADER_LENGTH..]
    }

    constructor (msgType: byte, seqNo: nat, msgLen: nat)
      requires seqNo < 0x1_0000 && msgLen < 0x100_0000
      ensures Valid() && fresh(data) && (reassembly != null ==> fresh(reassembly))
      ensures this.msgType == msgType && this.seqNo == seqNo && this.msgLen == msgLen
      ensures Received() == seq(msgLen, _ => false)
      ensures reassembly == null <==> msgLen == 0
      ensures data[..HEADER_LENGTH] == HeaderOctets(Header(msgType, msgLen, seqNo, 0, msgLen))
      ensures Body() == seq(msgLen, _ => 0)
    {
      this.msgType, this.seqNo, this.msgLen := msgType, seqNo, msgLen;
      var header := HeaderOctets(Header(msgType, msgLen, seqNo, 0, msgLen));
      data := new byte[HEADER_LENGTH + msgLen](i requires 0 <= i =>
        if i < |header| then header[i] else 0);
      reassembly := null;
      new;
      if msgLen > 0 {
        reassembly := new bv8[MaskLength(msgLen)](_ => 0);
        assert forall k: nat | k < 8 * |reassembly[..]| :: !MaskBit(reassembly[..], k);
        assert !MaskBit(reassembly[..], 0);
      }
    }

    /** Marks the bytes [start, end) as received and releases the mask once all are. */
    method Mark(start: nat, end: nat)
      requires Valid()
      modifies this`reassembly, reassembly
      ensures Valid()
      ensures reassembly == null || reassembly == old(reassembly)
      ensures old(reassembly) == null || start > end || end > msgLen ==>
        reassembly == old(reassembly) && Received() == old(Received())
      ensures start <= end <= msgLen ==> Received() == Marked(old(Received()), start, end)
      ensures reassembly == null <==> Received() == AllReceived(msgLen)
    {
      if reassembly == null || start > end || end > msgLen {
        assert start <= end <= msgLen ==> Marked(AllReceived(msgLen), start, end) == AllReceived(msgLen);
        if reassembly != null {
          CoversIsAll(reassembly[..], msgLen);
        }
        return;
      }
      CoversIsAll(reassembly[..], msgLen);
      if start == end {
        assert Marked(Received(), start, end) == Received();
        return;
      }
      ghost var before := reassembly[..];
      SetBits(reassembly, start, end);
      GrownFlags(before, reassembly[..], msgLen, start, end);
      CoversIsAll(reassembly[..], msgLen);
      var complete := AllBitsSet(reassembly, msgLen);
      if complete {
        reassembly := null;
      }
    }
  }

  /** The marking half of Mark: first octet, whole octets, last octet. */
  method SetBits(mask: array<bv8>, start: nat, end: nat)
    requires start < end <= 8 * mask.Length
    modifies mask
    ensures Grown(old(mask[..]), mask[..], start, end)
  {
    ghost var before := mask[..];
    if start / 8 == end / 8 {
      mask[start / 8] := mask[start / 8] | BitRange(start % 8, end % 8);
      OrRange(before, mask[..], start / 8, start % 8, end % 8);
      return;
    }
    mask[start / 8] := mask[start / 8] | BitRange(start % 8, 8);
    OrRange(before, mask[..], start / 8, start % 8, 8);
    var i := start / 8 + 1;
    while i < end / 8
      invariant start / 8 < i <= end / 8
      invariant Grown(before, mask[..], start, 8 * i)
    {
      ghost var mid := mask[..];
      mask[i] := 0xff;
      SetOctet(mid, mask[..], i);
      i := i + 1;
    }
    if end % 8 != 0 {
      ghost var mid := mask[..];
      mask[end / 8] := mask[end / 8] | BitRange(0, end % 8);
      OrRange(mid, mask[..], end / 8, 0, end % 8);
    }
  }

  /** The completeness check at the end of Mark. */
  method AllBitsSet(mask: array<bv8>, msgLen: nat) returns (complete: bool)
    requires InRange(mask[..], msgLen)
    ensures complete <==> Covers(mask[..], msgLen)
  {
    for i := 0 to msgLen / 8
      invariant forall j | 0 <= j < i :: mask[..][j] == 0xff
    {
      if mask[i] != 0xff {
        NotFullOctet(mask[..], msgLen, i);
        return false;
      }
    }
    if msgLen % 8 != 0 {
      LastOctet(mask[..], msgLen);
      if mask[msgLen / 8] != BitRange(0, msgLen % 8) {
        return false;
      }
    }
    WholeOctets(mask[..], msgLen);
    return true;
  }
}
