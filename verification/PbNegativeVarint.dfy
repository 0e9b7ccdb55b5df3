/**
 The varint writer of builds without 64-bit integers (pb_encode_negative_varint in
 pb_encode.c): it shifts a 32-bit value and puts back, seven bits at a time, the ones that
 the sign extension would have shifted in.
 */
module PbNegativeVarint {
  import opened Octets
  import opened Fragments
  import opened PbWire

  /** The value after n shifts by seven bits. */
  function Shifted(v: nat, n: nat): nat {
    if n == 0 then v else Shifted(v, n - 1) / 128
  }

  /** The first n groups of v, each with its continuation bit. */
  function Continued(v: nat, n: nat): (s: seq<byte>)
    ensures |s| == n
  {
    if n == 0 then [] else Continued(v, n - 1) + [Shifted(v, n - 1) % 128 + 128]
  }

  lemma {:induction false} ShiftFirst(v: nat, n: nat)
    ensures Shifted(v, n + 1) == Shifted(v / 128, n)
  {
    if n > 0 {
      ShiftFirst(v, n - 1);
    }
  }

  lemma {:induction false} ShiftedOut(v: nat, n: nat)
    requires v < Power128(n)
    ensures Shifted(v, n) == 0
  {
    if n > 0 {
      ShiftFirst(v, n - 1);
      ShiftedOut(v / 128, n - 1);
    }
  }

  lemma {:induction false} FirstGroup(v: nat, n: nat)
    ensures Continued(v, n + 1) == [v % 128 + 128] + Continued(v / 128, n)
  {
    if n > 0 {
      FirstGroup(v, n - 1);
      ShiftFirst(v, n - 1);
      assert [v % 128 + 128] + Continued(v / 128, n) ==
          ([v % 128 + 128] + Continued(v / 128, n - 1)) + [Shifted(v / 128, n - 1) % 128 + 128];
    } else {
      assert Continued(v, 1) == Continued(v, 0) + [v % 128 + 128];
    }
  }

  /** Clearing the top bit of the last group turns the groups into the varint. */
  lemma {:induction false} ClearLast(v: nat, n: nat)
    requires n > 0 && Shifted(v, n) == 0 && Shifted(v, n - 1) > 0
    ensures var s := Continued(v, n); s[n - 1] >= 128 && s[n - 1 := s[n - 1] - 128] == Varint(v)
  {
    FirstGroup(v, n - 1);
    if n == 1 {
      assert v < 128;
    } else {
      ShiftFirst(v, n - 1);
      ShiftFirst(v, n - 2);
      ClearLast(v / 128, n - 1);
      TwoGroups(v, n - 1);
      var s, t := Continued(v, n), Continued(v / 128, n - 1);
      assert s[n - 1 := s[n - 1] - 128] == [v % 128 + 128] + t[n - 2 := t[n - 2] - 128];
    }
  }

  lemma {:induction false} TwoGroups(v: nat, n: nat)
    requires n > 0 && Shifted(v, n) > 0
    ensures v >= 128
  {
    if n > 1 {
      TwoGroups(v, n - 1);
    }
  }

  /** n ones: 0xFF >> (8 - n) for n up to eight. */
  function Ones(n: nat): nat {
    if n == 0 then 0 else 2 * Ones(n - 1) + 1
  }

  lemma OnesValues()
    ensures Ones(32) == TWO_32 - 1 && Ones(25) == 0x1ff_ffff && Ones(18) == 0x3_ffff && Ones(11) == 0x7ff
    ensures Ones(4) == 0xf && Ones(0) == 0 && Ones(7) == 0x7f
  {
    assert Ones(11) == 0x7ff;
    assert Ones(18) == 0x3_ffff;
    assert Ones(25) == 0x1ff_ffff;
  }

  /** The 64-bit two's complement of the negative number whose 32-bit pattern is `value`. */
  function SignExtended(value: nat): nat
    requires value < TWO_32
  {
    value + Ones(32) * TWO_32
  }

  predicate Compensation(c: nat) {
    c == 32 || c == 25 || c == 18 || c == 11 || c == 4 || c == 0
  }

  /** One round: seven bits leave at the bottom and min(7, c) of the missing ones come back at bit 25. */
  lemma ShiftCompensated(v: nat, c: nat)
    requires v < TWO_32 && Compensation(c)
    ensures
      var bits := if c > 7 then 7 else c;
      var w := v / 128 + Ones(bits) * 0x200_0000;
      && w < TWO_32 && Compensation(c - bits)
      && (v + Ones(c) * TWO_32) / 128 == w + Ones(c - bits) * TWO_32
      && (c > bits ==> w >= TWO_31)
  {
    OnesValues();
    hide Ones;
    var h := Ones(c);
    assert h * TWO_32 == (h * 0x200_0000) * 128;
    assert (v + h * TWO_32) / 128 == v / 128 + h * 0x200_0000;
  }

  /** After i rounds `v` and the `c` missing ones stand for what is left of `whole`. */
  predicate StandsFor(whole: nat, i: nat, v: nat, c: nat) {
    && v < TWO_32 && Compensation(c) && (c > 0 ==> v >= TWO_31)
    && Shifted(whole, i) == v + Ones(c) * TWO_32
  }

  lemma OneRound(whole: nat, i: nat, v: nat, c: nat)
    requires StandsFor(whole, i, v, c)
    ensures Shifted(whole, i) % 128 == v % 128
    ensures var bits := if c > 7 then 7 else c; StandsFor(whole, i + 1, v / 128 + Ones(bits) * 0x200_0000, c - bits)
    ensures c == 0 ==> StandsFor(whole, i + 1, v / 128, 0)
  {
    OnesValues();
    hide Ones, Compensation;
    GroupOf(whole, v, c, i);
    ShiftCompensated(v, c);
  }

  lemma RoundsLeft(whole: nat, i: nat, v: nat, c: nat)
    requires StandsFor(whole, i, v, c) && i <= 10 && whole < TWO_64
    ensures v > 0 ==> Shifted(whole, i) > 0 && i < 10
    ensures v == 0 ==> Shifted(whole, i) == 0
  {
    OnesValues();
    hide Ones, Compensation, Shifted;
    if v > 0 {
      assert Ones(c) * TWO_32 >= 0;
      NotYetTen(whole, i);
    }
  }

  /**
     The writer without 64-bit integers: the octets are those that the 64-bit writer emits
     for the sign-extended value. At bit 25 and above the shifted value is clear, so the
     exclusive or of the source is a sum.
   */
  method EncodeNegativeVarint(value: nat) returns (octets: seq<byte>)
    requires TWO_31 <= value < TWO_32
    ensures octets == Varint(SignExtended(value))
  {
    hide Ones, Varint, Shifted, Continued, SignExtended, StandsFor;
    var buffer := new byte[10](_ => 0);
    var i := 0;
    var compensation: nat := 32;
    var v: nat := value;
    ghost var whole := SignExtended(value);
    StartGroups(value);
    RoundsLeft(whole, 0, v, compensation);
    while v != 0
      invariant 0 <= i <= 10 && StandsFor(whole, i, v, compensation)
      invariant buffer[..i] == Continued(whole, i)
      invariant v == 0 ==> i > 0 && Shifted(whole, i - 1) > 0
      decreases 10 - i
    {
      RoundsLeft(whole, i, v, compensation);
      OneRound(whole, i, v, compensation);
      OneMore(whole, i);
      buffer[i] := v % 128 + 128;
      assert buffer[..i + 1] == buffer[..i] + [v % 128 + 128];
      v := v / 128;
      if compensation != 0 {
        var bits := if compensation > 7 then 7 else compensation;
        v := v + Ones(bits) * 0x200_0000;
        compensation := compensation - bits;
      }
      i := i + 1;
    }
    RoundsLeft(whole, i, v, compensation);
    ClearLast(whole, i);
    buffer[i - 1] := buffer[i - 1] - 128;
    assert buffer[..i] == Continued(whole, i)[i - 1 := Continued(whole, i)[i - 1] - 128];
    octets := buffer[..i];
  }

  lemma StartGroups(value: nat)
    requires TWO_31 <= value < TWO_32
    ensures var whole := SignExtended(value);
      StandsFor(whole, 0, value, 32) && Continued(whole, 0) == [] && whole < TWO_64
  {
    hide Ones;
    OnesValues();
  }

  lemma OneMore(whole: nat, i: nat)
    ensures Shifted(whole, i + 1) == Shifted(whole, i) / 128
    ensures Continued(whole, i + 1) == Continued(whole, i) + [Shifted(whole, i) % 128 + 128]
  {
  }

  lemma NotYetTen(whole: nat, i: nat)
    requires i <= 10 && Shifted(whole, i) > 0 && whole < TWO_64
    ensures i < 10
  {
    TenOctets();
    ShiftedOut(whole, 10);
  }

  lemma GroupOf(whole: nat, v: nat, c: nat, i: nat)
    requires Shifted(whole, i) == v + Ones(c) * TWO_32
    ensures Shifted(whole, i) % 128 == v % 128
  {
    assert Ones(c) * TWO_32 == (Ones(c) * 0x200_0000) * 128;
  }

  /** The 32-bit reader gives the value back, as the 64-bit writer's octets are read. */
  lemma NegativeRoundTrip(value: nat, rest: seq<byte>)
    requires TWO_31 <= value < TWO_32
    ensures ReadVarint32(Varint(SignExtended(value)) + rest) == Got(value, rest)
    ensures SignExtended(value) == Unsigned64(value - TWO_32)
  {
    OnesValues();
    hide ReadVarint32, Varint, Ones;
    var v := SignExtended(value);
    Varint32Exact(v, rest);
    assert v / 0x8_0000_0000 == 0x1fff_ffff;
    AllOnes();
  }

  lemma AllOnes()
    ensures SignGroups(0x1fff_ffff, 4)
  {
    assert SignGroups(0xff, 1) && SignGroups(0x7fff, 2) && SignGroups(0x3f_ffff, 3);
  }
}
