/**
 nanopb round trip: decoding what was encoded gives the struct back, up to what a reader of
 the struct cannot see (the data of an absent optional field, a oneof naming no member).
 */
module PbRoundTrip {
  import opened Octets
  import opened Fragments
  import opened PbWire
  import opened PbMessage
  import opened PbEncode
  import opened PbDecode
  import opened PbMerge

  // ----- well-formed descriptors and the structs a C program can hold

  /** The all-zero value of a scalar or string-like field. */
  predicate ZeroDefault(f: Field) {
    match f.ltype
    case BytesType | StringType => f.default_ == Chars([])
    case FixedLengthBytesType => f.dataSize == 0 ==> f.default_ == Chars([])
    case Submessage(_) => true
    case _ => f.default_ == Int(0)
  }

  ghost predicate WellFormedField(f: Field)
    decreases f
  {
    && 0 < f.tag < 0x2000_0000
    && (f.htype == Repeated ==> f.sizeOffset != 0)
    && (f.htype == Optional && f.sizeOffset == 0 ==> ZeroDefault(f))
    && (f.ltype.Submessage? ==> WellFormed(f.ltype.fields))
  }

  ghost predicate WellFormed(fields: seq<Field>)
    decreases fields
  {
    DistinctTags(fields) && forall i | 0 <= i < |fields| :: WellFormedField(fields[i])
  }

  ghost predicate TypedValue(f: Field, v: Value)
    decreases f, 0
  {
    match f.ltype
    case VarintType => v.Int? && IntegerSize(f.dataSize) && InSigned(v.i, f.dataSize)
    case UvarintType => v.Int? && IntegerSize(f.dataSize) && InUnsigned(v.i, f.dataSize)
    case SvarintType => v.Int? && IntegerSize(f.dataSize) && InSigned(v.i, f.dataSize)
    case Fixed32Type => v.Int? && 0 <= v.i < TWO_32
    case Fixed64Type => v.Int? && 0 <= v.i < TWO_64
    case BytesType => v.Chars? && |v.b| <= SIZE_MAX
    case StringType => v.Chars? && |v.b| < f.dataSize
    case FixedLengthBytesType => v.Chars? && |v.b| == f.dataSize <= SIZE_MAX
    case Submessage(fields) => v.Struct? && Typed(fields, v.slots)
  }

  ghost predicate TypedSlot(f: Field, slot: Slot)
    decreases f, 1
  {
    match f.htype
    case Required => slot.Single? && TypedValue(f, slot.v)
    case Optional =>
      if f.sizeOffset == 0 then slot.Single? && TypedValue(f, slot.v)
      else slot.Opt? && (slot.has ==> TypedValue(f, slot.v))
    case Repeated => slot.Rep? && |slot.items| <= f.arraySize && forall x | x in slot.items :: TypedValue(f, x)
    case Oneof => slot.Union? && (slot.which == f.tag ==> TypedValue(f, slot.v))
  }

  ghost predicate Typed(fields: seq<Field>, slots: seq<Slot>)
    decreases fields
  {
    && |slots| == SlotCount(fields)
    && forall i | 0 <= i < |fields| ::
         SlotOf(fields, i) < |slots| && TypedSlot(fields[i], slots[SlotOf(fields, i)])
  }

  /** Tags that the wire can carry, and no two alike. */
  ghost predicate TagsOk(fields: seq<Field>) {
    DistinctTags(fields) && forall f | f in fields :: 0 < f.tag < 0x2000_0000
  }

  lemma WellFormedTags(fields: seq<Field>)
    requires WellFormed(fields)
    ensures TagsOk(fields)
  {
    forall f | f in fields ensures 0 < f.tag < 0x2000_0000 {
      var i :| 0 <= i < |fields| && fields[i] == f;
      assert WellFormedField(fields[i]);
    }
  }

  // ----- what a reader of the struct can see

  /** A string ends at its first zero. */
  function NormalValue(f: Field, v: Value): Value
    decreases f, 0
  {
    if f.ltype.Submessage? && v.Struct? then Struct(Normal(f.ltype.fields, v.slots))
    else if f.ltype.StringType? && v.Chars? then Chars(v.b[..TextLength(v.b, f.dataSize)])
    else v
  }

  function NormalItems(f: Field, items: seq<Value>): (r: seq<Value>)
    ensures |r| == |items|
    decreases f, 1, |items|
  {
    if items == [] then [] else NormalItems(f, items[..|items| - 1]) + [NormalValue(f, items[|items| - 1])]
  }

  /** What the field makes of its slot, where `before` is what earlier members of its union made of it. */
  function NormalSlot(f: Field, slot: Slot, before: Slot): Slot
    decreases f, 2
  {
    match slot
    case Single(v) => Single(NormalValue(f, v))
    case Opt(has, v) => if has then Opt(true, NormalValue(f, v)) else Opt(false, DefaultValue(f))
    case Rep(items) => Rep(NormalItems(f, items))
    case Union(which, v) => if which == f.tag then Union(which, NormalValue(f, v)) else before
  }

  /** The slots of the first n fields. */
  function NormalUpTo(fields: seq<Field>, slots: seq<Slot>, n: nat): (r: seq<Slot>)
    requires n <= |fields|
    ensures |r| == if n == 0 then 0 else SlotOf(fields, n - 1) + 1
    decreases fields, n
  {
    if n == 0 then []
    else
      var before := NormalUpTo(fields, slots, n - 1);
      var f, s := fields[n - 1], SlotOf(fields, n - 1);
      if s >= |slots| then DefaultsUpTo(fields, n)
      else if n > 1 && JoinsPrevious(fields[n - 2], f) then before[s := NormalSlot(f, slots[s], before[s])]
      else before + [NormalSlot(f, slots[s], DefaultSlot(f))]
  }

  function Normal(fields: seq<Field>, slots: seq<Slot>): (r: seq<Slot>)
    ensures |r| == SlotCount(fields)
    decreases fields, |fields| + 1
  {
    NormalUpTo(fields, slots, |fields|)
  }

  // ----- scalars

  lemma PrefixedReadsBack(s: seq<byte>, t: seq<byte>)
    requires |s| < TWO_32
    ensures ReadPrefixed(Prefixed(s) + t) == Some(Read(s, t))
    ensures ReadVarint32(Prefixed(s) + t) == Got(|s|, s + t)
  {
    assert Prefixed(s) + t == Varint(|s|) + (s + t);
    Varint32RoundTrip(|s|, s + t);
    assert (s + t)[..|s|] == s && (s + t)[|s|..] == t;
  }

  lemma VarintFieldReadsBack(size: nat, i: int)
    requires IntegerSize(size) && InSigned(i, size)
    ensures VarintField(size, Unsigned64(i)) == Some(Int(i))
  {
    hide Signed, Unsigned64;
    SignedReadsBack(i);
    if size != 8 {
      SmallSigned(size, i);
      LowSignedReadsBack(i);
    }
  }

  lemma SmallSigned(size: nat, i: int)
    requires IntegerSize(size) && size != 8 && InSigned(i, size)
    ensures -TWO_31 <= i < TWO_31
  {
  }

  lemma SignedReadsBack(i: int)
    requires -TWO_63 <= i < TWO_63
    ensures Signed(Unsigned64(i), TWO_63) == i
  {
  }

  lemma LowSignedReadsBack(i: int)
    requires -TWO_31 <= i < TWO_31
    ensures Signed(Unsigned64(i) % TWO_32, TWO_31) == i
  {
    if i < 0 {
      assert Unsigned64(i) == (i + TWO_32) + 0xffff_ffff * TWO_32;
    }
  }

  lemma IntegerRoundTrip(f: Field, old_: Value, v: Value, t: seq<byte>)
    requires f.ltype.Packable() && TypedValue(f, v)
    ensures EncodeValue(f, v).Some?
    ensures DecodeValue(f, old_, EncodeValue(f, v).value + t) == Some(Read(v, t))
  {
    hide ReadVarint, Varint, LittleEndian, ReadFixed, VarintField, ZigZag, UnZigZag;
    match f.ltype
    case VarintType =>
      VarintRoundTrip(Unsigned64(v.i), t);
      VarintFieldReadsBack(f.dataSize, v.i);
    case UvarintType =>
      assert Unsigned64(v.i) == v.i;
      VarintRoundTrip(v.i, t);
    case SvarintType =>
      VarintRoundTrip(ZigZag(v.i), t);
      ZigZagRoundTrip(v.i);
    case Fixed32Type =>
      assert Power256(4) == TWO_32;
      FixedRoundTrip(v.i, 4, t);
    case Fixed64Type =>
      EightOctets();
      FixedRoundTrip(v.i, 8, t);
  }

  lemma EightOctets()
    ensures Power256(8) == TWO_64
  {
    assert Power256(4) == TWO_32;
  }

  lemma CharsRoundTrip(f: Field, old_: Value, v: Value, t: seq<byte>)
    requires f.ltype.BytesType? || f.ltype.StringType? || f.ltype.FixedLengthBytesType?
    requires TypedValue(f, v) && EncodeValue(f, v).Some? && |EncodeValue(f, v).value| < TWO_32
    ensures DecodeValue(f, old_, EncodeValue(f, v).value + t) == Some(Read(NormalValue(f, v), t))
  {
    PrefixedReadsBack(NormalValue(f, v).b, t);
    hide ReadVarint32, ReadPrefixed, Prefixed;
    if f.ltype.FixedLengthBytesType? && |v.b| == 0 {
      assert v.b == Zeros(f.dataSize) && v.b + t == t;
    }
  }

  // ----- arrays

  lemma {:induction false} PackedRoundTrip(f: Field, done: seq<Value>, items: seq<Value>)
    requires f.ltype.Packable() && |done| + |items| <= f.arraySize
    requires forall x | x in items :: TypedValue(f, x)
    ensures EncodeItems(f, items).Some?
    ensures DecodePacked(f, done, EncodeItems(f, items).value) == Some(done + items)
    decreases |items|
  {
    if items == [] {
      assert done + items == done;
    } else {
      PackedRoundTrip(f, done + [items[0]], items[1..]);
      var rest := EncodeItems(f, items[1..]).value;
      IntegerRoundTrip(f, Int(0), items[0], rest);
      assert done + items == (done + [items[0]]) + items[1..];
    }
  }

  lemma {:induction false} ScalarsAreNormal(f: Field, items: seq<Value>)
    requires f.ltype.Packable()
    ensures NormalItems(f, items) == items
    decreases |items|
  {
    if items != [] {
      ScalarsAreNormal(f, items[..|items| - 1]);
    }
  }

  lemma {:induction false} NormalItemsSplit(f: Field, items: seq<Value>, x: Value)
    ensures NormalItems(f, items + [x]) == NormalItems(f, items) + [NormalValue(f, x)]
  {
    assert (items + [x])[..|items|] == items;
  }

  // ----- one field of a message

  /** The struct once the first n fields have been decoded. */
  function StateAfter(fields: seq<Field>, slots: seq<Slot>, n: nat): (r: seq<Slot>)
    requires n <= |fields|
    ensures |r| == SlotCount(fields)
  {
    var done := NormalUpTo(fields, slots, n);
    if n > 0 then
      SlotsAscend(fields, n - 1, n - 1);
      done + DefaultSlots(fields)[|done|..]
    else DefaultSlots(fields)
  }

  /** The slot field n finds before it is decoded: its default, or what its union holds. */
  lemma SlotBefore(fields: seq<Field>, slots: seq<Slot>, n: nat)
    requires n < |fields| && Typed(fields, slots)
    ensures SlotOf(fields, n) < SlotCount(fields)
    ensures n == 0 || !JoinsPrevious(fields[n - 1], fields[n]) ==>
      StateAfter(fields, slots, n)[SlotOf(fields, n)] == DefaultSlot(fields[n])
  {
    DefaultSlotAt(fields, n);
  }

  /** Replacing or adding the last slot of the decoded part is an update of the whole. */
  lemma Splice(done: seq<Slot>, next: seq<Slot>, defaults: seq<Slot>, s: nat, x: Slot)
    requires |done| <= |defaults| && s < |defaults| && s <= |done|
    requires next == if s < |done| then done[s := x] else done + [x]
    ensures next + defaults[|next|..] == (done + defaults[|done|..])[s := x]
  {
  }

  lemma StateIs(fields: seq<Field>, slots: seq<Slot>, n: nat)
    requires n <= |fields|
    ensures var done := NormalUpTo(fields, slots, n);
      |done| <= SlotCount(fields) && StateAfter(fields, slots, n) == done + DefaultSlots(fields)[|done|..]
  {
    hide DefaultsUpTo;
    if n > 0 {
      SlotsAscend(fields, n - 1, n - 1);
    }
  }

  lemma NormalGrows(fields: seq<Field>, slots: seq<Slot>, n: nat, before: Slot)
    requires n < |fields| && SlotOf(fields, n) < |slots|
    requires before == StateAt(fields, slots, n)
    ensures var (s, done) := (SlotOf(fields, n), NormalUpTo(fields, slots, n));
      var x := NormalSlot(fields[n], slots[s], before);
      s <= |done| && NormalUpTo(fields, slots, n + 1) == if s < |done| then done[s := x] else done + [x]
  {
    hide NormalSlot, DefaultSlot;
  }

  /** What slot of field n holds before it is decoded. */
  function StateAt(fields: seq<Field>, slots: seq<Slot>, n: nat): Slot
    requires n < |fields|
  {
    var (s, done) := (SlotOf(fields, n), NormalUpTo(fields, slots, n));
    if s < |done| then done[s] else DefaultSlot(fields[n])
  }

  lemma BeforeIs(fields: seq<Field>, slots: seq<Slot>, n: nat)
    requires n < |fields|
    ensures SlotOf(fields, n) < SlotCount(fields)
    ensures StateAfter(fields, slots, n)[SlotOf(fields, n)] == StateAt(fields, slots, n)
  {
    hide NormalUpTo, DefaultsUpTo, DefaultSlot;
    DefaultSlotAt(fields, n);
    StateIs(fields, slots, n);
  }

  /** Decoding field n is one update of its slot. */
  lemma StateStep(fields: seq<Field>, slots: seq<Slot>, n: nat)
    requires n < |fields| && Typed(fields, slots)
    ensures SlotOf(fields, n) < SlotCount(fields) == |slots|
    ensures var s := SlotOf(fields, n);
      StateAfter(fields, slots, n + 1) ==
      StateAfter(fields, slots, n)[s := NormalSlot(fields[n], slots[s], StateAfter(fields, slots, n)[s])]
  {
    hide NormalSlot, NormalUpTo, DefaultSlots, TypedSlot, StateAfter, StateAt, SlotOf;
    var s := SlotOf(fields, n);
    SlotsAscend(fields, n, |fields| - 1);
    BeforeIs(fields, slots, n);
    StateIs(fields, slots, n);
    StateIs(fields, slots, n + 1);
    var before := StateAfter(fields, slots, n)[s];
    NormalGrows(fields, slots, n, before);
    Splice(NormalUpTo(fields, slots, n), NormalUpTo(fields, slots, n + 1), DefaultSlots(fields), s,
           NormalSlot(fields[n], slots[s], before));
  }

  /** The loop reads the tag of field n, finds it, and decodes its slot. */
  lemma TaggedStep(fields: seq<Field>, d: Partial, n: nat, wire: nat, body: seq<byte>, t: seq<byte>, r: Slot)
    requires TagsOk(fields) && n < |fields| && Fits(fields, d) && wire < 8
    requires SlotOf(fields, n) < |d.slots|
    requires DecodeField(fields[n], d.slots[SlotOf(fields, n)], wire, body + t) == Some(Read(r, t))
    ensures var d' := Partial(d.slots[SlotOf(fields, n) := r], Seen(fields, d.seen, n), n);
      Fits(fields, d') &&
      DecodeLoop(fields, d, Varint(fields[n].tag * 8 + wire) + body + t) == DecodeLoop(fields, d', t)
  {
    var tag := fields[n].tag;
    assert fields[n] in fields;
    var s := Varint(tag * 8 + wire) + body + t;
    assert s == Varint(tag * 8 + wire) + (body + t);
    TagReadsBack(tag, wire, body + t);
    hide ReadTag, DecodeField, Find, Varint;
    var found := Find(fields, d.pos, tag);
    assert found.Some? && fields[found.value].tag == fields[n].tag;
    assert found.value == n;
  }

  lemma WireOf(f: Field)
    ensures TagFor(f) == Varint(f.tag * 8 + WireNumber(FieldWireType(f.ltype)))
    ensures WireNumber(FieldWireType(f.ltype)) < 8
  {
  }

  // ----- the whole message

  lemma {:induction false} ValueRoundTrip(f: Field, old_: Value, v: Value, t: seq<byte>)
    requires WellFormedField(f) && TypedValue(f, v)
    requires EncodeValue(f, v).Some? && |EncodeValue(f, v).value| < TWO_32
    requires f.ltype.Submessage? && f.htype != Repeated ==> old_ == DefaultValue(f)
    ensures DecodeValue(f, old_, EncodeValue(f, v).value + t) == Some(Read(NormalValue(f, v), t))
    decreases f, 0
  {
    if f.ltype.Packable() {
      IntegerRoundTrip(f, old_, v, t);
    } else if f.ltype.Submessage? {
      var fields := f.ltype.fields;
      var e := EncodeMessage(fields, v.slots).value;
      MessageRoundTrip(fields, v.slots);
      PrefixedReadsBack(e, t);
    } else {
      CharsRoundTrip(f, old_, v, t);
    }
  }

  /** Field n, present with value v: one tagged item. */
  lemma {:induction false} ItemStep(
      fields: seq<Field>, d: Partial, n: nat, v: Value, t: seq<byte>, r: Slot)
    requires WellFormed(fields) && n < |fields| && Fits(fields, d) && SlotOf(fields, n) < |d.slots|
    requires var f := fields[n];
      && TypedValue(f, v) && EncodeValue(f, v).Some? && |EncodeValue(f, v).value| < TWO_32
    requires var (f, slot) := (fields[n], d.slots[SlotOf(fields, n)]);
      match f.htype
      case Required => slot == Single(DefaultValue(f)) && r == Single(NormalValue(f, v))
      case Optional =>
        if f.sizeOffset == 0 then slot == Single(DefaultValue(f)) && r == Single(NormalValue(f, v))
        else slot == Opt(false, DefaultValue(f)) && r == Opt(true, NormalValue(f, v))
      case Repeated =>
        && !f.ltype.Packable() && slot.Rep? && |slot.items| < f.arraySize
        && r == Rep(slot.items + [NormalValue(f, v)])
      case Oneof => slot.Union? && r == Union(f.tag, NormalValue(f, v))
    ensures var d' := Partial(d.slots[SlotOf(fields, n) := r], Seen(fields, d.seen, n), n);
      Fits(fields, d') &&
      DecodeLoop(fields, d, TagFor(fields[n]) + EncodeValue(fields[n], v).value + t) == DecodeLoop(fields, d', t)
    decreases fields, 0
  {
    hide DecodeLoop, DecodeValue, EncodeValue, NormalValue, TypedValue, DefaultValue;
    var f, slot := fields[n], d.slots[SlotOf(fields, n)];
    var e := EncodeValue(f, v).value;
    assert WellFormedField(f);
    hide WellFormedField;
    var old_ := match slot
      case Single(x) => x
      case Opt(_, x) => x
      case Rep(_) => DefaultValue(f)
      case Union(_, x) => if f.ltype.Submessage? then DefaultValue(f) else x;
    ValueRoundTrip(f, old_, v, t);
    WireOf(f);
    WellFormedTags(fields);
    hide WellFormed;
    TaggedStep(fields, d, n, WireNumber(FieldWireType(f.ltype)), e, t, r);
  }

  lemma {:induction false} TaggedItemsStep(
      fields: seq<Field>, d: Partial, n: nat, done: seq<Value>, items: seq<Value>, t: seq<byte>) returns (d': Partial)
    requires WellFormed(fields) && n < |fields| && Fits(fields, d) && SlotOf(fields, n) < |d.slots|
    requires var f := fields[n];
      && f.htype == Repeated && !f.ltype.Packable() && |done| + |items| <= f.arraySize
      && (forall x | x in items :: TypedValue(f, x))
      && EncodeTagged(f, items).Some? && |EncodeTagged(f, items).value| < TWO_32
    requires d.slots[SlotOf(fields, n)] == Rep(NormalItems(fields[n], done))
    ensures Fits(fields, d') && d.seen <= d'.seen
    ensures d'.slots == d.slots[SlotOf(fields, n) := Rep(NormalItems(fields[n], done + items))]
    ensures DecodeLoop(fields, d, EncodeTagged(fields[n], items).value + t) == DecodeLoop(fields, d', t)
    decreases fields, 1, |items|
  {
    var f := fields[n];
    if items == [] {
      d' := d;
      assert done + items == done && EncodeTagged(f, items).value + t == t;
    } else {
      var x, rest := items[0], items[1..];
      var e, later := EncodeValue(f, x).value, EncodeTagged(f, rest).value;
      assert EncodeTagged(f, items).value + t == TagFor(f) + e + (later + t);
      assert done + items == (done + [x]) + rest;
      var mid := Partial(d.slots[SlotOf(fields, n) := Rep(NormalItems(f, done + [x]))], Seen(fields, d.seen, n), n);
      FirstItemStep(fields, d, n, done, x, later + t);
      hide DecodeLoop, TypedValue, WellFormed, EncodeValue, TagFor, NormalItems, Seen;
      d' := TaggedItemsStep(fields, mid, n, done + [x], rest, t);
    }
  }

  lemma {:induction false} FirstItemStep(
      fields: seq<Field>, d: Partial, n: nat, done: seq<Value>, x: Value, t: seq<byte>)
    requires WellFormed(fields) && n < |fields| && Fits(fields, d) && SlotOf(fields, n) < |d.slots|
    requires var f := fields[n];
      && f.htype == Repeated && !f.ltype.Packable() && |done| < f.arraySize
      && TypedValue(f, x) && EncodeValue(f, x).Some? && |EncodeValue(f, x).value| < TWO_32
    requires d.slots[SlotOf(fields, n)] == Rep(NormalItems(fields[n], done))
    ensures var f := fields[n];
      var mid := Partial(d.slots[SlotOf(fields, n) := Rep(NormalItems(f, done + [x]))], Seen(fields, d.seen, n), n);
      Fits(fields, mid) && d.seen <= mid.seen &&
      DecodeLoop(fields, d, TagFor(f) + EncodeValue(f, x).value + t) == DecodeLoop(fields, mid, t)
    decreases fields, 1, 0
  {
    var f := fields[n];
    hide DecodeLoop, TypedValue, WellFormed, EncodeValue, TagFor, NormalValue, NormalItems;
    NormalItemsSplit(f, done, x);
    ItemStep(fields, d, n, x, t, Rep(NormalItems(f, done) + [NormalValue(f, x)]));
  }

  lemma PackedField(f: Field, items: seq<Value>, t: seq<byte>)
    requires f.htype == Repeated && f.sizeOffset != 0 && f.ltype.Packable() && |items| <= f.arraySize
    requires forall x | x in items :: TypedValue(f, x)
    requires EncodeItems(f, items).Some? ==> |EncodeItems(f, items).value| < TWO_32
    ensures EncodeItems(f, items).Some?
    ensures DecodeField(f, Rep([]), 2, Prefixed(EncodeItems(f, items).value) + t) ==
            Some(Read(Rep(NormalItems(f, items)), t))
  {
    hide ReadPrefixed, Prefixed, DecodePacked, EncodeItems, NormalItems, TypedValue, DecodeValue, EncodeValue;
    PackedRoundTrip(f, [], items);
    assert [] + items == items;
    ScalarsAreNormal(f, items);
    PrefixedReadsBack(EncodeItems(f, items).value, t);
  }

  lemma PackedStep(fields: seq<Field>, d: Partial, n: nat, items: seq<Value>, t: seq<byte>) returns (d': Partial)
    requires WellFormed(fields) && n < |fields| && Fits(fields, d) && SlotOf(fields, n) < |d.slots|
    requires var f := fields[n];
      && f.htype == Repeated && f.ltype.Packable() && items != [] && |items| <= f.arraySize
      && (forall x | x in items :: TypedValue(f, x))
      && EncodeArray(f, items).Some? && |EncodeArray(f, items).value| < TWO_32
    requires d.slots[SlotOf(fields, n)] == Rep([])
    ensures Fits(fields, d') && d.seen <= d'.seen
    ensures d'.slots == d.slots[SlotOf(fields, n) := Rep(NormalItems(fields[n], items))]
    ensures DecodeLoop(fields, d, EncodeArray(fields[n], items).value + t) == DecodeLoop(fields, d', t)
  {
    hide DecodeLoop, DecodeField, Varint, TypedValue, EncodeItems, NormalItems;
    var f := fields[n];
    assert WellFormedField(f);
    WellFormedTags(fields);
    PackedField(f, items, t);
    var s := EncodeItems(f, items).value;
    assert EncodeArray(f, items).value == Varint(f.tag * 8 + 2) + Prefixed(s);
    hide Prefixed, WellFormed, EncodeArray;
    d' := Partial(d.slots[SlotOf(fields, n) := Rep(NormalItems(f, items))], Seen(fields, d.seen, n), n);
    TaggedStep(fields, d, n, 2, Prefixed(s), t, Rep(NormalItems(f, items)));
  }

  // ----- what the proto3 default check skips is invisible

  lemma {:induction false} DefaultIsNormal(f: Field, v: Value)
    requires WellFormedField(f) && TypedValue(f, v) && IsDefaultValue(f, v)
    requires f.ltype.Submessage? || ZeroDefault(f)
    ensures NormalValue(f, v) == DefaultValue(f)
    decreases f, 0
  {
    if f.ltype.Submessage? {
      AllDefaultIsNormal(f.ltype.fields, v.slots, |f.ltype.fields|);
    }
  }

  lemma {:induction false} AllDefaultAt(fields: seq<Field>, slots: seq<Slot>, from: nat, i: nat)
    requires AllDefault(fields, slots, from) && from <= i < |fields|
    ensures SlotOf(fields, i) < |slots| && IsDefaultSlot(fields[i], slots[SlotOf(fields, i)])
    decreases i - from
  {
    if from < i {
      AllDefaultAt(fields, slots, from + 1, i);
    }
  }

  lemma {:induction false} DefaultSlotIsNormal(f: Field, slot: Slot, before: Slot)
    requires WellFormedField(f) && TypedSlot(f, slot) && IsDefaultSlot(f, slot)
    ensures NormalSlot(f, slot, before) == if f.htype == Oneof then before else DefaultSlot(f)
    decreases f, 1
  {
    if slot.Single? {
      DefaultIsNormal(f, slot.v);
    }
  }

  lemma {:induction false} AllDefaultIsNormal(fields: seq<Field>, slots: seq<Slot>, n: nat)
    requires WellFormed(fields) && Typed(fields, slots) && AllDefault(fields, slots, 0) && n <= |fields|
    ensures NormalUpTo(fields, slots, n) == DefaultsUpTo(fields, n)
    decreases fields, n
  {
    if n > 0 {
      AllDefaultIsNormal(fields, slots, n - 1);
      var f, s := fields[n - 1], SlotOf(fields, n - 1);
      AllDefaultAt(fields, slots, 0, n - 1);
      assert WellFormedField(f) && TypedSlot(f, slots[s]);
      var before := DefaultsUpTo(fields, n - 1);
      hide WellFormed, WellFormedField, Typed, TypedSlot, AllDefault, IsDefaultSlot, NormalSlot;
      if n > 1 && JoinsPrevious(fields[n - 2], f) {
        DefaultSlotIsNormal(f, slots[s], before[s]);
      } else {
        DefaultSlotIsNormal(f, slots[s], DefaultSlot(f));
      }
    }
  }

  // ----- putting the fields together

  lemma UnionSlot(fields: seq<Field>, slots: seq<Slot>, i: nat)
    requires Typed(fields, slots) && i < |fields| && fields[i].htype == Oneof
    ensures SlotOf(fields, i) < |slots| && slots[SlotOf(fields, i)].Union?
    ensures i > 0 && JoinsPrevious(fields[i - 1], fields[i]) ==> SlotOf(fields, i) == SlotOf(fields, i - 1)
  {
    assert TypedSlot(fields[i], slots[SlotOf(fields, i)]);
  }

  lemma {:induction false} UnionStays(fields: seq<Field>, slots: seq<Slot>, n: nat)
    requires 0 < n <= |fields| && Typed(fields, slots) && fields[n - 1].htype == Oneof
    ensures NormalUpTo(fields, slots, n)[SlotOf(fields, n - 1)].Union?
    decreases n
  {
    hide Typed, NormalValue, DefaultsUpTo, DefaultValue, SlotOf, SlotCount;
    UnionSlot(fields, slots, n - 1);
    if n > 1 && JoinsPrevious(fields[n - 2], fields[n - 1]) {
      UnionStays(fields, slots, n - 1);
    }
  }

  lemma FieldSlotReady(fields: seq<Field>, slots: seq<Slot>, n: nat)
    requires n < |fields| && Typed(fields, slots)
    ensures SlotOf(fields, n) < SlotCount(fields)
    ensures var slot := StateAfter(fields, slots, n)[SlotOf(fields, n)];
      if fields[n].htype == Oneof then slot.Union? else slot == DefaultSlot(fields[n])
  {
    SlotBefore(fields, slots, n);
    if n > 0 && JoinsPrevious(fields[n - 1], fields[n]) {
      UnionStays(fields, slots, n);
    }
  }

  lemma {:induction false} FieldStep(
      fields: seq<Field>, slots: seq<Slot>, d: Partial, n: nat, t: seq<byte>) returns (d': Partial)
    requires WellFormed(fields) && Typed(fields, slots) && n < |fields|
    requires Fits(fields, d) && d.slots == StateAfter(fields, slots, n)
    requires SlotOf(fields, n) < |slots|
    requires var e := EncodeField(fields[n], slots[SlotOf(fields, n)]); e.Some? && |e.value| < TWO_32
    ensures Fits(fields, d') && d'.slots == StateAfter(fields, slots, n + 1) && d.seen <= d'.seen
    ensures Tracked(fields, n) ==> RequiredIndex(fields, n) in d'.seen
    ensures DecodeLoop(fields, d, EncodeField(fields[n], slots[SlotOf(fields, n)]).value + t) ==
      DecodeLoop(fields, d', t)
    decreases fields, 2, 0
  {
    var f, s := fields[n], SlotOf(fields, n);
    var slot := slots[s];
    var e := EncodeField(f, slot).value;
    FieldSlotReady(fields, slots, n);
    StateStep(fields, slots, n);
    assert WellFormedField(f) && TypedSlot(f, slot);
    var v, present := Int(0), false;
    match slot {
      case Single(x) =>
        v, present := x, !(f.htype == Optional && IsDefaultValue(f, x));
        if !present {
          DefaultIsNormal(f, x);
        }
      case Opt(has, x) => v, present := x, has;
      case Union(which, x) => v, present := x, which == f.tag;
      case Rep(_) =>
    }
    var r := NormalSlot(f, slot, d.slots[s]);
    if slot.Rep? {
      d' := RepeatedStep(fields, d, n, slot.items, t);
    } else if present {
      assert e == TagFor(f) + EncodeValue(f, v).value;
      ItemStep(fields, d, n, v, t, r);
      d' := Partial(d.slots[s := r], Seen(fields, d.seen, n), n);
    } else {
      assert e + t == t && d.slots[s := r] == d.slots;
      d' := d;
    }
  }

  lemma {:induction false} RepeatedStep(
      fields: seq<Field>, d: Partial, n: nat, items: seq<Value>, t: seq<byte>) returns (d': Partial)
    requires WellFormed(fields) && n < |fields| && Fits(fields, d) && SlotOf(fields, n) < |d.slots|
    requires d.slots[SlotOf(fields, n)] == Rep([])
    requires var f := fields[n];
      && f.htype == Repeated && TypedSlot(f, Rep(items))
      && EncodeArray(f, items).Some? && |EncodeArray(f, items).value| < TWO_32
    ensures Fits(fields, d') && d.seen <= d'.seen
    ensures d'.slots == d.slots[SlotOf(fields, n) := Rep(NormalItems(fields[n], items))]
    ensures DecodeLoop(fields, d, EncodeArray(fields[n], items).value + t) == DecodeLoop(fields, d', t)
    decreases fields, 1, |items| + 1
  {
    var f := fields[n];
    if items == [] {
      assert EncodeArray(f, items).value + t == t;
      d' := d;
    } else if f.ltype.Packable() {
      d' := PackedStep(fields, d, n, items, t);
    } else {
      d' := TaggedItemsStep(fields, d, n, [], items, t);
      assert [] + items == items;
    }
  }

  lemma {:induction false} FieldsFrom(fields: seq<Field>, slots: seq<Slot>, d: Partial, n: nat) returns (d': Partial)
    requires WellFormed(fields) && Typed(fields, slots) && n <= |fields|
    requires Fits(fields, d) && d.slots == StateAfter(fields, slots, n)
    requires EncodeFrom(fields, slots, n).Some? && |EncodeFrom(fields, slots, n).value| < TWO_32
    ensures Fits(fields, d') && d'.slots == Normal(fields, slots) && d.seen <= d'.seen
    ensures forall i: nat | n <= i && Tracked(fields, i) :: RequiredIndex(fields, i) in d'.seen
    ensures DecodeLoop(fields, d, EncodeFrom(fields, slots, n).value) == Some(Decoded(d', [], false))
    decreases fields, 3, |fields| - n
  {
    if n == |fields| {
      d' := d;
      if n > 0 {
        SlotsAscend(fields, n - 1, n - 1);
      }
      assert StateAfter(fields, slots, n) == Normal(fields, slots);
    } else {
      SlotsAscend(fields, n, n);
      var rest := EncodeFrom(fields, slots, n + 1).value;
      var mid := FieldStep(fields, slots, d, n, rest);
      d' := FieldsFrom(fields, slots, mid, n + 1);
    }
  }

  /**
   Decoding what was encoded: for every well-formed descriptor and every struct that the
   encoder accepts, the decoder accepts the result, reads all of it, and rebuilds the struct
   as far as it can be observed.
   */
  lemma {:induction false} MessageRoundTrip(fields: seq<Field>, slots: seq<Slot>)
    requires WellFormed(fields) && Typed(fields, slots)
    requires EncodeMessage(fields, slots).Some? && |EncodeMessage(fields, slots).value| < TWO_32
    ensures DecodeMessage(fields, EncodeMessage(fields, slots).value) == Some(Read(Normal(fields, slots), []))
    decreases fields, 4
  {
    var d := Partial(DefaultSlots(fields), {}, 0);
    var d' := FieldsFrom(fields, slots, d, 0);
    forall k: nat | k < TrackedCount(fields)
      ensures k in d'.seen
    {
      var i := RequiredAt(fields, |fields|, k);
      assert Tracked(fields, i);
    }
  }
}
