/**
 The scalar wire formats of nanopb (pb_encode.c, pb_decode.c; "Base 128 Varints" and
 "Signed Integers" in the Protocol Buffers encoding specification).

 Readers take the bytes left on a stream and return the value with the bytes after it.
 */
module PbWire {
  import opened Octets
  import opened Fragments

  const TWO_31: int := 0x8000_0000
  const TWO_32: int := 0x1_0000_0000
  const TWO_63: int := 0x8000_0000_0000_0000
  const TWO_64: int := 0x1_0000_0000_0000_0000

  datatype Read<+T> = Read(value: T, rest: seq<byte>)

  // ----- writing

  function Varint(v: nat): (s: seq<byte>)
    ensures s != []
    ensures v < 128 ==> s == [v]
  {
    if v < 128 then [v] else [v % 128 + 128] + Varint(v / 128)
  }

  function Power128(n: nat): (p: nat)
    ensures p >= 1
  {
    if n == 0 then 1 else 128 * Power128(n - 1)
  }

  lemma {:induction false} VarintLength(v: nat, n: nat)
    requires 0 < n && v < Power128(n)
    ensures |Varint(v)| <= n
  {
    if v >= 128 {
      VarintLength(v / 128, n - 1);
    }
  }

  lemma TenOctets()
    ensures Power128(9) == TWO_63 && Power128(10) > TWO_64
  {
    assert Power128(3) == 0x20_0000;
    assert Power128(6) == 0x400_0000_0000;
  }

  /** Signed 64-bit values are sent as their two's complement. */
  function Unsigned64(i: int): (v: nat)
    ensures v < TWO_64
  {
    i % TWO_64
  }

  function Signed(v: nat, half: nat): int {
    if v < half then v else v - 2 * half
  }

  /** ~((uint64_t)value << 1) for negative values, value << 1 for the others. */
  function ZigZag(i: int): (v: nat)
    ensures v < TWO_64
  {
    var doubled := (2 * Unsigned64(i)) % TWO_64;
    if i < 0 then TWO_64 - 1 - doubled else doubled
  }

  function UnZigZag(v: nat): int
    requires v < TWO_64
  {
    if v % 2 == 1 then Signed(TWO_64 - 1 - v / 2, TWO_63) else Signed(v / 2, TWO_63)
  }

  lemma ZigZagRoundTrip(i: int)
    requires -TWO_63 <= i < TWO_63
    ensures UnZigZag(ZigZag(i)) == i
    ensures ZigZag(i) == if i < 0 then -2 * i - 1 else 2 * i
  {
    if i < 0 {
      assert Unsigned64(i) == i + TWO_64;
      assert 2 * Unsigned64(i) == (2 * i + TWO_64) + TWO_64;
    }
  }

  function LittleEndian(v: nat, n: nat): (s: seq<byte>)
    ensures |s| == n
  {
    if n == 0 then [] else [v % 256] + LittleEndian(v / 256, n - 1)
  }

  function FromLittleEndian(s: seq<byte>): nat {
    if s == [] then 0 else
      var low: nat := s[0];
      low + 256 * FromLittleEndian(s[1..])
  }

  lemma {:induction false} LittleEndianRoundTrip(v: nat, n: nat)
    requires v < Power256(n)
    ensures FromLittleEndian(LittleEndian(v, n)) == v
  {
    if n > 0 {
      LittleEndianRoundTrip(v / 256, n - 1);
    }
  }

  // ----- reading

  function ReadBytes(s: seq<byte>, n: nat): (r: Option<Read<seq<byte>>>)
    ensures r.Some? ==> |r.value.rest| == |s| - n && |r.value.value| == n
  {
    if |s| < n then None else Some(Read(s[..n], s[n..]))
  }

  /** The groups of a varint of which `k` octets have been read already. */
  function ReadGroups(s: seq<byte>, k: nat): (r: Option<Read<nat>>)
    ensures r.Some? ==> |r.value.rest| < |s|
    decreases |s|
  {
    if k >= 10 || s == [] then None
    else if s[0] < 128 then Some(Read(s[0], s[1..]))
    else
      match ReadGroups(s[1..], k + 1)
      case None => None
      case Some(high) => Some(Read((s[0] - 128) + 128 * high.value, high.rest))
  }

  /** pb_decode_varint: at most ten octets, the value cut to sixty-four bits. */
  function ReadVarint(s: seq<byte>): (r: Option<Read<nat>>)
    ensures r.Some? ==> |r.value.rest| < |s|
  {
    match ReadGroups(s, 0)
    case None => None
    case Some(r) => Some(Read(r.value % TWO_64, r.rest))
  }

  function ReadFixed(s: seq<byte>, n: nat): (r: Option<Read<nat>>)
    ensures r.Some? ==> |r.value.rest| == |s| - n
  {
    match ReadBytes(s, n)
    case None => None
    case Some(r) => Some(Read(FromLittleEndian(r.value), r.rest))
  }

  /** pb_skip_varint: octets up to the first without a continuation bit, however many. */
  function SkipVarint(s: seq<byte>): (r: Option<seq<byte>>)
    ensures r.Some? ==> |r.value| < |s|
    decreases |s|
  {
    if s == [] then None
    else if s[0] < 128 then Some(s[1..])
    else SkipVarint(s[1..])
  }

  // ----- the thirty-two bit reader

  datatype Read32 = Eof | Bad | Got(value: nat, rest: seq<byte>)

  /** 1 << bitpos. */
  function Place(bitpos: nat): (p: nat)
    ensures p > 0
  {
    if bitpos == 0 then 1 else 2 * Place(bitpos - 1)
  }

  function InPlace(group: nat, bitpos: nat): nat {
    group * Place(bitpos)
  }

  /** The OR of two numbers. */
  function BitOr(a: nat, b: nat): nat {
    if a == 0 then b
    else if b == 0 then a
    else 2 * BitOr(a / 2, b / 2) + (if a % 2 == 1 || b % 2 == 1 then 1 else 0)
  }

  /** One group put in its place, in thirty-two bits. */
  function Merge(result: nat, group: nat, bitpos: nat): nat {
    if bitpos >= 32 then result else BitOr(result, InPlace(group, bitpos) % TWO_32)
  }

  /**
   The multi-octet loop of pb_decode_varint32_eof. Past bit 32 only zero groups or sign
   extension are let through; the bit position has eight bits and wraps.
   */
  function Read32Groups(s: seq<byte>, result: nat, bitpos: byte): (r: Read32)
    ensures !r.Eof?
    ensures r.Got? ==> |r.rest| < |s|
    decreases |s|
  {
    if s == [] then Bad
    else
      var b := s[0];
      var signExtension := if bitpos < 63 then 0xff else 0x01;
      if bitpos >= 32 && b % 128 != 0 && (result / TWO_31 == 0 || b != signExtension) then Bad
      else
        var (result', bitpos') := (Merge(result, b % 128, bitpos), (bitpos + 7) % 256);
        if b >= 128 then Read32Groups(s[1..], result', bitpos')
        else if bitpos' == 35 && b % 128 / 16 != 0 then Bad
        else Got(result', s[1..])
  }

  function ReadVarint32(s: seq<byte>): (r: Read32)
    ensures r.Eof? <==> s == []
    ensures r.Got? ==> |r.rest| < |s|
  {
    if s == [] then Eof
    else if s[0] < 128 then Got(s[0], s[1..])
    else Read32Groups(s[1..], s[0] % 128, 7)
  }

  // ----- round trips

  lemma {:induction false} GroupsRoundTrip(v: nat, k: nat, rest: seq<byte>)
    requires k < 10 && v < Power128(10 - k)
    ensures ReadGroups(Varint(v) + rest, k) == Some(Read(v, rest))
    decreases v
  {
    var s := Varint(v) + rest;
    if v < 128 {
      assert s[1..] == rest;
    } else {
      assert s[1..] == Varint(v / 128) + rest;
      GroupsRoundTrip(v / 128, k + 1, rest);
    }
  }

  lemma VarintRoundTrip(v: nat, rest: seq<byte>)
    requires v < TWO_64
    ensures ReadVarint(Varint(v) + rest) == Some(Read(v, rest))
  {
    TenOctets();
    hide ReadGroups, Varint, Power128;
    GroupsRoundTrip(v, 0, rest);
  }

  lemma FixedRoundTrip(v: nat, n: nat, rest: seq<byte>)
    requires v < Power256(n)
    ensures ReadFixed(LittleEndian(v, n) + rest, n) == Some(Read(v, rest))
  {
    var s := LittleEndian(v, n) + rest;
    assert s[..n] == LittleEndian(v, n) && s[n..] == rest;
    LittleEndianRoundTrip(v, n);
  }

  /** What the loop does with one group of a canonical varint. */
  lemma GroupStep(w: nat, result: nat, bitpos: byte, rest: seq<byte>)
    requires bitpos < 32
    ensures Read32Groups(Varint(w) + rest, result, bitpos) ==
            if w >= 128 then Read32Groups(Varint(w / 128) + rest, Merge(result, w % 128, bitpos), bitpos + 7)
            else if bitpos == 28 && w / 16 != 0 then Bad
            else Got(Merge(result, w, bitpos), rest)
  {
    hide Merge;
    var s := Varint(w) + rest;
    if w < 128 {
      assert s[1..] == rest;
    } else {
      assert s[1..] == Varint(w / 128) + rest;
    }
  }

  lemma Places()
    ensures Place(7) == 0x80 && Place(14) == 0x4000 && Place(21) == 0x20_0000 && Place(28) == 0x1000_0000
  {
    assert Place(4) == 16 && Place(10) == 0x400 && Place(17) == 0x2_0000 && Place(24) == 0x100_0000;
  }

  /** Bits that do not meet: the OR is the sum. */
  lemma {:induction false} OrIsSum(a: nat, b: nat, k: nat)
    requires a < Place(k)
    ensures BitOr(a, InPlace(b, k)) == a + InPlace(b, k)
  {
    if k > 0 {
      assert InPlace(b, k) == 2 * InPlace(b, k - 1);
      OrIsSum(a / 2, b, k - 1);
    }
  }

  lemma LowMerge(group: nat, result: nat, bitpos: nat)
    requires group < 128 && (bitpos == 7 || bitpos == 14 || bitpos == 21) && result < Place(bitpos)
    ensures Merge(result, group, bitpos) == result + InPlace(group, bitpos)
  {
    hide BitOr, Place;
    OrIsSum(result, group, bitpos);
    Places();
  }

  lemma LowGroup(w: nat, result: nat, bitpos: byte, rest: seq<byte>)
    requires (bitpos == 7 || bitpos == 14 || bitpos == 21) && result < Place(bitpos)
    ensures var r := Read32Groups(Varint(w) + rest, result, bitpos);
      if w < 128 then r == Got(result + InPlace(w, bitpos), rest)
      else r == Read32Groups(Varint(w / 128) + rest, result + InPlace(w % 128, bitpos), bitpos + 7)
  {
    hide Read32Groups, Varint, Merge, Place, InPlace;
    GroupStep(w, result, bitpos, rest);
    LowMerge(w % 128, result, bitpos);
    assert w < 128 ==> w % 128 == w;
  }

  lemma TopMerge(w: nat, result: nat)
    requires w < 128 && result < 0x1000_0000
    ensures Merge(result, w, 28) == result + (w % 16) * 0x1000_0000
  {
    hide BitOr, Place;
    Places();
    var q, m := w / 16, w % 16;
    assert w * 0x1000_0000 == q * TWO_32 + m * 0x1000_0000;
    OrIsSum(result, m, 28);
  }

  lemma TopGroup(w: nat, result: nat, rest: seq<byte>)
    requires result < 0x1000_0000
    ensures var r := Read32Groups(Varint(w) + rest, result, 28);
      if w < 16 then r == Got(result + w * 0x1000_0000, rest)
      else if w < 128 then r == Bad
      else r == Read32Groups(Varint(w / 128) + rest, result + (w % 16) * 0x1000_0000, 35)
  {
    hide Read32Groups, Varint, Merge;
    GroupStep(w, result, 28, rest);
    TopMerge(w % 128, result);
    LowBits(w);
  }

  lemma LowBits(w: nat)
    ensures w % 128 % 16 == w % 16
  {
  }

  /** Past bit 32 a canonical varint below 2^63 always ends in an octet that is refused. */
  lemma {:induction false} HighGroupsRefused(w: nat, result: nat, k: nat, rest: seq<byte>)
    requires 0 < w < Power128(k) && 0 < k <= 4
    ensures Read32Groups(Varint(w) + rest, result, 63 - 7 * k) == Bad
    decreases w
  {
    var s := Varint(w) + rest;
    if w >= 128 {
      assert s[1..] == Varint(w / 128) + rest;
      assert k > 1;
      HighGroupsRefused(w / 128, result, k - 1, rest);
    }
  }

  /** Groups that are all zeros or all ones, and then the single bit that is left. */
  predicate SignGroups(w: nat, k: nat) {
    if k == 0 then w == 1 else (w % 128 == 0 || w % 128 == 127) && SignGroups(w / 128, k - 1)
  }

  /** From 2^63 on, the groups past bit 35 have to look like a sign extension of bit 31. */
  lemma {:induction false} SignGroupsAccepted(w: nat, result: nat, k: nat, rest: seq<byte>)
    requires k <= 4 && Power128(k) <= w < 2 * Power128(k) && result < TWO_32
    ensures Read32Groups(Varint(w) + rest, result, 63 - 7 * k) ==
            if result >= TWO_31 && SignGroups(w, k) then Got(result, rest) else Bad
    decreases k
  {
    var s := Varint(w) + rest;
    if k == 0 {
      assert s[1..] == rest;
    } else {
      assert s[1..] == Varint(w / 128) + rest;
      SignGroupsAccepted(w / 128, result, k - 1, rest);
    }
  }

  /** What the thirty-two bit reader makes of the canonical varint of v. */
  function Expected32(v: nat, rest: seq<byte>): Read32 {
    if v < TWO_32 then Got(v, rest)
    else if v >= TWO_63 && v % TWO_32 >= TWO_31 && SignGroups(v / 0x8_0000_0000, 4) then Got(v % TWO_32, rest)
    else Bad
  }

  /**
     For every sixty-four bit value: thirty-two bit values are read back, and a larger one
     is refused unless its top bit is set, bit 31 is set, and each group of seven bits in
     between is all zeros or all ones; then the value is cut to thirty-two bits.
   */
  lemma Varint32Exact(v: nat, rest: seq<byte>)
    requires v < TWO_64
    ensures ReadVarint32(Varint(v) + rest) == Expected32(v, rest)
  {
    hide Expected32, Read32Groups, Varint, ReadVarint32, Place;
    Places();
    FirstOctet(v, rest);
    if v < 128 {
      SmallIsExpected(v, rest);
    } else {
      var v1, r1 := v / 128, v % 128;
      LowGroup(v1, r1, 7, rest);
      if v1 >= 128 {
        MiddleGroups(v, v1 / 128, r1 + (v1 % 128) * 0x80, rest);
      } else {
        SmallIsExpected(v, rest);
      }
    }
  }

  lemma FirstOctet(v: nat, rest: seq<byte>)
    ensures ReadVarint32(Varint(v) + rest) ==
      if v < 128 then Got(v, rest) else Read32Groups(Varint(v / 128) + rest, v % 128, 7)
  {
    hide Read32Groups;
    var s := Varint(v) + rest;
    if v < 128 {
      assert s[1..] == rest;
    } else {
      assert s[1..] == Varint(v / 128) + rest;
    }
  }

  lemma SmallIsExpected(v: nat, rest: seq<byte>)
    requires v < TWO_32
    ensures Expected32(v, rest) == Got(v, rest)
  {
  }

  /** On canonical varints below 2^63 the reader accepts exactly the thirty-two bit values. */
  lemma Varint32RoundTrip(v: nat, rest: seq<byte>)
    requires v < TWO_63
    ensures ReadVarint32(Varint(v) + rest) == if v < TWO_32 then Got(v, rest) else Bad
  {
    hide ReadVarint32, Varint;
    Varint32Exact(v, rest);
  }

  /** A value far above thirty-two bits that is accepted all the same: 2^63 + 2^31 reads as 2^31. */
  lemma AcceptedAboveThirtyTwoBits(rest: seq<byte>)
    ensures ReadVarint32(Varint(TWO_63 + TWO_31) + rest) == Got(TWO_31, rest)
  {
    hide ReadVarint32, Varint;
    Varint32Exact(TWO_63 + TWO_31, rest);
    assert (TWO_63 + TWO_31) / 0x8_0000_0000 == 0x1000_0000;
    assert SignGroups(0x1000_0000, 4) by {
      assert SignGroups(0x80, 1) && SignGroups(0x4000, 2) && SignGroups(0x20_0000, 3);
    }
  }

  /** Groups of zero bits, each with its continuation bit. */
  function ZeroGroups(n: nat): (s: seq<byte>)
    ensures |s| == n
  {
    seq(n, i => 0x80)
  }

  lemma ZeroGroupMergesAway(result: nat, bitpos: byte)
    ensures Merge(result, 0, bitpos) == result
  {
  }

  lemma ZeroGroupPasses(s: seq<byte>, result: nat, bitpos: byte)
    requires s != [] && s[0] == 0x80
    ensures Read32Groups(s, result, bitpos) == Read32Groups(s[1..], result, (bitpos + 7) % 256)
  {
    hide Merge;
    ZeroGroupMergesAway(result, bitpos);
  }

  lemma WrapOnce(bitpos: byte, n: nat)
    requires n > 0
    ensures ((bitpos + 7) % 256 + 7 * (n - 1)) % 256 == (bitpos + 7 * n) % 256
  {
  }

  lemma {:induction false} ZeroGroupsPass(n: nat, s: seq<byte>, result: nat, bitpos: byte)
    ensures Read32Groups(ZeroGroups(n) + s, result, bitpos) == Read32Groups(s, result, (bitpos + 7 * n) % 256)
  {
    hide Read32Groups;
    var all := ZeroGroups(n) + s;
    if n == 0 {
      assert all == s;
    } else {
      WrapOnce(bitpos, n);
      ZeroGroupPasses(all, result, bitpos);
      assert all[1..] == ZeroGroups(n - 1) + s;
      ZeroGroupsPass(n - 1, s, result, (bitpos + 7) % 256);
    }
  }

  /**
     The bit position wraps, so a varint of thirty-eight octets is not refused: what should
     be the bit 259 reads as the bit 3.
   */
  lemma LongVarintWraps(rest: seq<byte>)
    ensures ReadVarint32(ZeroGroups(37) + ([1] + rest)) == Got(8, rest)
  {
    hide Read32Groups;
    var s := ZeroGroups(37) + ([1] + rest);
    assert s[1..] == ZeroGroups(36) + ([1] + rest);
    ZeroGroupsPass(36, [1] + rest, 0, 7);
    GroupAtThree(rest);
  }

  lemma GroupAtThree(rest: seq<byte>)
    ensures Read32Groups([1] + rest, 0, 3) == Got(8, rest)
  {
    assert ([1] + rest)[1..] == rest;
    assert InPlace(1, 3) == 8;
  }

  lemma MiddleGroups(v: nat, v2: nat, r2: nat, rest: seq<byte>)
    requires v < TWO_64 && v == r2 + v2 * 0x4000 && r2 < 0x4000 && v2 > 0
    ensures Read32Groups(Varint(v2) + rest, r2, 14) == Expected32(v, rest)
  {
    hide Read32Groups, Varint, Expected32, Place;
    Places();
    LowGroup(v2, r2, 14, rest);
    if v2 >= 128 {
      var v3, r3 := v2 / 128, r2 + (v2 % 128) * 0x4000;
      assert v == r3 + v3 * 0x20_0000;
      LowGroup(v3, r3, 21, rest);
      if v3 >= 128 {
        LastGroups(v, v3 / 128, r3 + (v3 % 128) * 0x20_0000, rest);
      } else {
        SmallIsExpected(v, rest);
      }
    } else {
      SmallIsExpected(v, rest);
    }
  }

  lemma LastGroups(v: nat, v4: nat, r4: nat, rest: seq<byte>)
    requires v < TWO_64 && v == r4 + v4 * 0x1000_0000 && r4 < 0x1000_0000 && v4 > 0
    ensures Read32Groups(Varint(v4) + rest, r4, 28) == Expected32(v, rest)
  {
    hide Read32Groups, Varint, SignGroups;
    TopGroup(v4, r4, rest);
    if v4 >= 128 {
      assert Power128(4) == 0x1000_0000;
      var w, low := v4 / 128, r4 + (v4 % 16) * 0x1000_0000;
      SplitTop(v, v4, r4);
      if w < 0x1000_0000 {
        HighGroupsRefused(w, low, 4, rest);
      } else {
        SignGroupsAccepted(w, low, 4, rest);
      }
    }
  }

  lemma SplitTop(v: nat, v4: nat, r4: nat)
    requires v < TWO_64 && v == r4 + v4 * 0x1000_0000 && r4 < 0x1000_0000
    ensures v % TWO_32 == r4 + (v4 % 16) * 0x1000_0000
    ensures v / 0x8_0000_0000 == v4 / 128 < 0x2000_0000
    ensures v < TWO_63 <==> v4 / 128 < 0x1000_0000
  {
    var q, m := v4 / 16, v4 % 16;
    assert v == (r4 + m * 0x1000_0000) + q * TWO_32;
    var h, l := v4 / 128, v4 % 128;
    assert v == (r4 + l * 0x1000_0000) + h * 0x8_0000_0000;
  }

  // ----- readers look no further than what they consume

  lemma {:induction false} GroupsStable(s: seq<byte>, k: nat, t: seq<byte>)
    requires ReadGroups(s, k).Some?
    ensures var r := ReadGroups(s, k).value; ReadGroups(s + t, k) == Some(Read(r.value, r.rest + t))
    decreases |s|
  {
    assert (s + t)[1..] == s[1..] + t;
    if s[0] >= 128 {
      GroupsStable(s[1..], k + 1, t);
    }
  }

  lemma VarintStable(s: seq<byte>, t: seq<byte>)
    requires ReadVarint(s).Some?
    ensures var r := ReadVarint(s).value; ReadVarint(s + t) == Some(Read(r.value, r.rest + t))
  {
    GroupsStable(s, 0, t);
  }

  lemma BytesStable(s: seq<byte>, n: nat, t: seq<byte>)
    requires ReadBytes(s, n).Some?
    ensures var r := ReadBytes(s, n).value; ReadBytes(s + t, n) == Some(Read(r.value, r.rest + t))
  {
    assert (s + t)[..n] == s[..n] && (s + t)[n..] == s[n..] + t;
  }

  lemma {:induction false} Groups32Stable(s: seq<byte>, result: nat, bitpos: byte, t: seq<byte>)
    requires Read32Groups(s, result, bitpos).Got?
    ensures var r := Read32Groups(s, result, bitpos);
      Read32Groups(s + t, result, bitpos) == Got(r.value, r.rest + t)
    decreases |s|
  {
    assert (s + t)[1..] == s[1..] + t;
    var b := s[0];
    if b >= 128 {
      Groups32Stable(s[1..], Merge(result, b % 128, bitpos), (bitpos + 7) % 256, t);
    }
  }

  lemma Varint32Stable(s: seq<byte>, t: seq<byte>)
    requires ReadVarint32(s).Got?
    ensures var r := ReadVarint32(s); ReadVarint32(s + t) == Got(r.value, r.rest + t)
  {
    assert (s + t)[1..] == s[1..] + t;
    if s[0] >= 128 {
      Groups32Stable(s[1..], s[0] % 128, 7, t);
    }
  }

  lemma {:induction false} SkipVarintStable(s: seq<byte>, t: seq<byte>)
    requires SkipVarint(s).Some?
    ensures SkipVarint(s + t) == Some(SkipVarint(s).value + t)
    decreases |s|
  {
    assert (s + t)[1..] == s[1..] + t;
    if s[0] >= 128 {
      SkipVarintStable(s[1..], t);
    }
  }
}
