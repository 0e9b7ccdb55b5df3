/**
 What nanopb makes of a number that does not fit its field, and of a payload it has to skip:
 statements over all inputs, those that no encoder writes among them.
 */
module PbScalars {
  import opened Octets
  import opened Fragments
  import opened PbWire
  import opened PbMessage
  import opened PbEncode
  import opened PbDecode
  import opened PbMerge
  import opened PbRoundTrip
  import opened PbConcat

  /**
     A signed field takes the number that agrees with the varint in the low thirty-two bits, or
     all sixty-four for an eight-octet field. Fields of one and two octets refuse what they
     cannot hold; those of four and eight refuse nothing.
   */
  lemma SignedFieldExact(size: nat, v: nat, i: int)
    requires IntegerSize(size) && v < TWO_64
    requires size == 8 ==> -TWO_63 <= i < TWO_63 && i % TWO_64 == v
    requires size != 8 ==> -TWO_31 <= i < TWO_31 && i % TWO_32 == v % TWO_32
    ensures VarintField(size, v) == if InSigned(i, size) then Some(Int(i)) else None
    ensures size >= 4 ==> VarintField(size, v) == Some(Int(i))
  {
    if size == 8 {
      assert Signed(v, TWO_63) == i;
    } else {
      assert Signed(v % TWO_32, TWO_31) == i;
    }
  }

  predicate InHalfRange(i: int, size: nat) {
    var n: int := Power256(size);
    -n <= 2 * i < n
  }

  /** A field of n octets has 256 to the n values, signed ones half below zero. */
  lemma RangeOfSize(i: int, size: nat)
    requires IntegerSize(size)
    ensures InUnsigned(i, size) <==> 0 <= i < Power256(size)
    ensures InSigned(i, size) <==> InHalfRange(i, size)
  {
    assert Power256(2) == 0x1_0000 && Power256(4) == TWO_32;
    EightOctets();
  }

  /** An unsigned or zig-zag field takes its number as it is, or refuses it. */
  lemma NumberTakenOrRefused(size: nat, v: nat, i: int)
    requires IntegerSize(size) && v < TWO_64 && -TWO_63 <= i < TWO_63
    ensures UvarintField(size, v) == if v < Power256(size) then Some(Int(v)) else None
    ensures SvarintField(size, if i >= 0 then 2 * i else -2 * i - 1) ==
      if InHalfRange(i, size) then Some(Int(i)) else None
  {
    RangeOfSize(v, size);
    RangeOfSize(i, size);
    ZigZagRoundTrip(i);
  }

  /** An empty payload of a fixed-length field stands for zeros, any other has the exact length. */
  lemma FixedLengthExact(f: Field, old_: Value, s: seq<byte>, t: seq<byte>)
    requires f.ltype.FixedLengthBytesType? && |s| < TWO_32
    ensures DecodeValue(f, old_, Prefixed(s) + t) ==
      if s == [] then Some(Read(Chars(Zeros(f.dataSize)), t))
      else if |s| == f.dataSize then Some(Read(Chars(s), t))
      else None
  {
    assert Prefixed(s) + t == Varint(|s|) + (s + t);
    Varint32RoundTrip(|s|, s + t);
    assert (s + t)[..|s|] == s && (s + t)[|s|..] == t;
    hide ReadVarint32, Varint;
    if s == [] {
      assert s + t == t;
    }
  }

  /** Bytes are taken when they and the count in front of them fit, strings when their terminator does. */
  lemma CharsExact(f: Field, old_: Value, s: seq<byte>, t: seq<byte>)
    requires (f.ltype.BytesType? || f.ltype.StringType?) && |s| < TWO_32
    ensures DecodeValue(f, old_, Prefixed(s) + t) ==
      if |s| + (if f.ltype.BytesType? then BYTES_OFFSET else 1) <= f.dataSize then Some(Read(Chars(s), t)) else None
  {
    assert Prefixed(s) + t == Varint(|s|) + (s + t);
    Varint32RoundTrip(|s|, s + t);
    assert (s + t)[..|s|] == s && (s + t)[|s|..] == t;
    hide ReadVarint32, Varint;
  }

  /** A varint that pb_skip_varint passes ends at its first octet without the continuation bit. */
  lemma {:induction false} SkippedVarint(s: seq<byte>)
    ensures var r := SkipVarint(s);
      match r
      case None => forall k | 0 <= k < |s| :: s[k] >= 128
      case Some(t) => |t| < |s| && WellFormedPayload(0, s[..|s| - |t|]) && s[|s| - |t|..] == t
    decreases |s|
  {
    if s != [] && s[0] >= 128 {
      SkippedVarint(s[1..]);
      var r := SkipVarint(s[1..]);
      if r.Some? {
        var n := |s| - |r.value|;
        assert s[..n] == [s[0]] + s[1..][..n - 1];
      }
    }
  }

  /**
     Skipping passes over a payload of the wire type and stops behind it; it refuses a payload
     that is cut short, and every wire type but four. A length may be written in any number of
     octets.
   */
  lemma SkipFieldExact(wire: nat, s: seq<byte>)
    ensures var r := SkipField(wire, s);
      match r
      case None =>
        || wire !in {0, 1, 2, 5}
        || (wire == 0 && forall k | 0 <= k < |s| :: s[k] >= 128)
        || (wire == 1 && |s| < 8)
        || (wire == 5 && |s| < 4)
        || (wire == 2 && (!ReadVarint32(s).Got? || |ReadVarint32(s).rest| < ReadVarint32(s).value))
      case Some(t) =>
        && wire in {0, 1, 2, 5} && |t| < |s| && s[|s| - |t|..] == t
        && (wire != 2 ==> WellFormedPayload(wire, s[..|s| - |t|]))
        && (wire == 2 ==> ReadVarint32(s).Got? && |ReadVarint32(s).rest| - |t| == ReadVarint32(s).value)
  {
    if wire == 0 {
      SkippedVarint(s);
    } else if wire == 2 && ReadVarint32(s).Got? {
      ReadsASuffix(s);
    }
  }

  lemma ReadsASuffix(s: seq<byte>)
    requires ReadVarint32(s).Got?
    ensures var t := ReadVarint32(s).rest; |t| < |s| && s[|s| - |t|..] == t
  {
    if s[0] >= 128 {
      GroupsReadASuffix(s[1..], s[0] % 128, 7);
      SuffixOfRest(s, ReadVarint32(s).rest);
    }
  }

  lemma {:induction false} GroupsReadASuffix(s: seq<byte>, result: nat, bitpos: byte)
    requires Read32Groups(s, result, bitpos).Got?
    ensures var t := Read32Groups(s, result, bitpos).rest; |t| < |s| && s[|s| - |t|..] == t
    decreases |s|
  {
    hide Merge;
    if s[0] >= 128 {
      var group, next := s[0] % 128, (bitpos + 7) % 256;
      GroupsReadASuffix(s[1..], Merge(result, group, bitpos), next);
      SuffixOfRest(s, Read32Groups(s, result, bitpos).rest);
    }
  }

  lemma SuffixOfRest(s: seq<byte>, t: seq<byte>)
    requires s != [] && |t| < |s| - 1 && s[1..][|s| - 1 - |t|..] == t
    ensures s[|s| - |t|..] == t
  {
  }

  /** The decoder of a field that it knows looks at the wire type only to tell a packed array from an item. */
  lemma WireTypeIsIgnored(f: Field, slot: Slot, wire: nat, other: nat, s: seq<byte>)
    requires slot.Rep? && f.ltype.Packable() ==> (wire == 2 <==> other == 2)
    ensures DecodeField(f, slot, wire, s) == DecodeField(f, slot, other, s)
  {
    hide DecodeValue;
  }

  /** Bit k of a number. */
  predicate Bit(v: nat, k: nat) {
    if k == 0 then v % 2 == 1 else Bit(v / 2, k - 1)
  }

  /** The OR of two numbers, lowest bit and rest. */
  lemma OrHalves(a: nat, b: nat)
    ensures BitOr(a, b) / 2 == BitOr(a / 2, b / 2)
    ensures BitOr(a, b) % 2 == 1 <==> a % 2 == 1 || b % 2 == 1
  {
    if a == 0 || b == 0 {
      assert BitOr(0, b / 2) == b / 2 && BitOr(a / 2, 0) == a / 2;
    }
  }

  /** The groups of a varint are joined bit by bit. */
  lemma {:induction false} OrIsBitwise(a: nat, b: nat, k: nat)
    ensures Bit(BitOr(a, b), k) <==> Bit(a, k) || Bit(b, k)
    decreases k
  {
    hide BitOr;
    OrHalves(a, b);
    if k > 0 {
      OrIsBitwise(a / 2, b / 2, k - 1);
    }
  }

  // ----- what is written for a number

  function Octets32(s: seq<byte>): int
    requires |s| >= 4
  {
    var a: int, b: int, c: int, d: int := s[0], s[1], s[2], s[3];
    a + 0x100 * b + 0x1_0000 * c + 0x100_0000 * d
  }

  /** A fixed-size number has its lowest octet first. */
  lemma FixedOctets(s: seq<byte>, t: seq<byte>)
    requires |s| == 4 || |s| == 8
    ensures ReadFixed(s + t, |s|) == Some(Read(FromLittleEndian(s), t))
    ensures FromLittleEndian(s) == if |s| == 4 then Octets32(s) else Octets32(s) + TWO_32 * Octets32(s[4..])
  {
    assert (s + t)[..|s|] == s && (s + t)[|s|..] == t;
    FourOctets(s);
    if |s| == 8 {
      FourOctets(s[4..]);
    }
  }

  lemma FourOctets(s: seq<byte>)
    requires |s| >= 4
    ensures FromLittleEndian(s) == Octets32(s) + TWO_32 * FromLittleEndian(s[4..])
  {
    var a, b, c := s[1..], s[2..], s[3..];
    assert a[1..] == b && b[1..] == c && c[1..] == s[4..];
    LowOctet(s);
    LowOctet(a);
    LowOctet(b);
    LowOctet(c);
  }

  lemma LowOctet(s: seq<byte>)
    requires s != []
    ensures var low: int := s[0]; FromLittleEndian(s) == low + 256 * FromLittleEndian(s[1..])
  {
  }

  /** The value of the groups of seven bits, low group first. */
  function GroupValue(s: seq<byte>): nat {
    if s == [] then 0
    else
      var low: nat := s[0];
      low % 128 + 128 * GroupValue(s[1..])
  }

  /** A varint holds its value in groups of seven bits, and no shorter one does. */
  lemma {:induction false} VarintIsShortest(v: nat)
    ensures GroupValue(Varint(v)) == v && WellFormedPayload(0, Varint(v))
    ensures var s := Varint(v); |s| > 1 ==> s[|s| - 1] > 0
    decreases v
  {
    if v >= 128 {
      VarintIsShortest(v / 128);
      assert Varint(v)[1..] == Varint(v / 128);
    } else {
      assert Varint(v)[1..] == [];
    }
  }

  lemma {:induction false} GroupsRead(p: seq<byte>, t: seq<byte>, k: nat)
    requires WellFormedPayload(0, p)
    ensures ReadGroups(p + t, k) == if k + |p| <= 10 then Some(Read(GroupValue(p), t)) else None
    decreases |p|
  {
    assert (p + t)[1..] == p[1..] + t;
    if |p| > 1 {
      GroupsRead(p[1..], t, k + 1);
    } else {
      assert p[1..] == [] && p[1..] + t == t;
    }
  }

  /** Any varint of up to ten octets is read, the shortest or not, and its value cut to sixty-four bits. */
  lemma AnyVarintIsRead(p: seq<byte>, t: seq<byte>)
    requires WellFormedPayload(0, p)
    ensures ReadVarint(p + t) == if |p| <= 10 then Some(Read(GroupValue(p) % TWO_64, t)) else None
  {
    GroupsRead(p, t, 0);
  }

  /** The sizes of integer fields the encoder knows, and the lengths it can write. */
  predicate Writable(f: Field, v: Value)
    requires !f.ltype.Submessage?
  {
    match f.ltype
    case BytesType => v.Chars? && |v.b| <= f.dataSize - BYTES_OFFSET
    case StringType => v.Chars?
    case FixedLengthBytesType => v.Chars? && |v.b| == f.dataSize
    case Fixed32Type => v.Int?
    case Fixed64Type => v.Int?
    case _ => v.Int? && f.dataSize in {1, 2, 4, 8}
  }

  /** A value is written exactly when its size is one the encoder knows and it fits its field. */
  lemma WrittenExactly(f: Field, v: Value)
    requires !f.ltype.Submessage?
    ensures EncodeValue(f, v).Some? <==> Writable(f, v)
  {
    hide Varint, Prefixed, LittleEndian, TextLength;
  }

  /** A count above the size of the array makes the whole message fail. */
  lemma ArrayTooLong(fields: seq<Field>, slots: seq<Slot>, i: nat)
    requires |slots| == SlotCount(fields) && i < |fields| && SlotOf(fields, i) < |slots|
    requires var slot := slots[SlotOf(fields, i)]; slot.Rep? && |slot.items| > fields[i].arraySize
    ensures EncodeMessage(fields, slots).None?
  {
    assert EncodeField(fields[i], slots[SlotOf(fields, i)]).None?;
    hide EncodeField;
    OneFails(fields, slots, 0, i);
  }

  lemma {:induction false} OneFails(fields: seq<Field>, slots: seq<Slot>, from: nat, i: nat)
    requires |slots| == SlotCount(fields) && from <= i < |fields| && SlotOf(fields, i) < |slots|
    requires EncodeField(fields[i], slots[SlotOf(fields, i)]).None?
    ensures EncodeFrom(fields, slots, from).None?
    decreases i - from
  {
    hide EncodeField;
    if from < i {
      OneFails(fields, slots, from + 1, i);
    }
  }

  /** A message type without fields refuses tag 0, which the terminator of its descriptor has. */
  lemma EmptyDescriptor(wire: nat, t: seq<byte>)
    requires 0 < wire < 8
    ensures DecodeMessage([], [wire] + t).None?
  {
    var s := [wire] + t;
    assert s[1..] == t;
    assert ReadTag(s) == FieldTag(0, wire, t);
    hide ReadTag;
    var fields: seq<Field> := [];
    var d := Partial(DefaultSlots(fields), {}, 0);
    assert DecodeOne(fields, d, s) == Failed;
    assert DecodeLoop(fields, d, s).None?;
    assert DecodeNoinit(fields, DefaultSlots(fields), s).None?;
  }

  // ----- what a zero tag leaves of a submessage

  /** A zero tag ends a submessage too, and the octets behind it, up to the announced length, are passed over. */
  lemma ZeroTagEndsSubmessage(f: Field, old_: Value, rest: seq<byte>, t: seq<byte>)
    requires f.ltype.Submessage? && NoRequired(f.ltype.fields) && |rest| + 1 < TWO_32
    requires f.htype != Repeated && old_.Struct? && |old_.slots| == SlotCount(f.ltype.fields)
    ensures DecodeValue(f, old_, Prefixed([0] + rest) + t) == Some(Read(old_, t))
  {
    ZeroTagHidesTheRest(f.ltype.fields, old_.slots, rest);
    PrefixedReadsBack([0] + rest, t);
    hide DecodeNoinit, ReadPrefixed, Prefixed;
  }
}
