/**
 What nanopb keeps whatever the input is: no accepted bytes take a struct out of its bounds,
 and the struct they leave can be encoded and decoded again.
 */
module PbBounds {
  import opened Octets
  import opened Fragments
  import opened PbWire
  import opened PbMessage
  import opened PbEncode
  import opened PbDecode
  import opened PbMerge
  import opened PbRoundTrip
  import opened PbLimits

  // ----- structs within their bounds

  /** The value fits the storage of its field, down to the last nested message. */
  ghost predicate ValueInBounds(f: Field, v: Value)
    decreases f, 0
  {
    match f.ltype
    case BytesType => v.Chars? && |v.b| <= SIZE_MAX && |v.b| + BYTES_OFFSET <= f.dataSize
    case Submessage(fields) => v.Struct? && InBounds(fields, v.slots)
    case _ => TypedValue(f, v)
  }

  /** An absent optional submessage counts too, since the decoder fills it further. */
  ghost predicate SlotInBounds(f: Field, slot: Slot)
    decreases f, 1
  {
    match f.htype
    case Required => slot.Single? && ValueInBounds(f, slot.v)
    case Optional =>
      if f.sizeOffset == 0 then slot.Single? && ValueInBounds(f, slot.v)
      else slot.Opt? && ValueInBounds(f, slot.v)
    case Repeated => slot.Rep? && |slot.items| <= f.arraySize && forall x | x in slot.items :: ValueInBounds(f, x)
    case Oneof => slot.Union? && (slot.which == f.tag ==> ValueInBounds(f, slot.v))
  }

  ghost predicate InBounds(fields: seq<Field>, slots: seq<Slot>)
    decreases fields
  {
    && |slots| == SlotCount(fields)
    && forall i | 0 <= i < |fields| ::
         SlotOf(fields, i) < |slots| && SlotInBounds(fields[i], slots[SlotOf(fields, i)])
  }

  /** The sizes of a descriptor are of type pb_size_t, and its defaults are of their field's type. */
  ghost predicate FittingField(f: Field)
    decreases f
  {
    && f.tag != 0 && f.dataSize <= SIZE_MAX
    && (f.ltype.Submessage? ==> Fitting(f.ltype.fields))
    && (!f.ltype.Submessage? && (f.htype == Required || f.htype == Optional) ==> ValueInBounds(f, f.default_))
  }

  ghost predicate Fitting(fields: seq<Field>)
    decreases fields
  {
    DistinctTags(fields) && forall i | 0 <= i < |fields| :: FittingField(fields[i])
  }

  // ----- the defaults

  lemma {:induction false} DefaultValueInBounds(f: Field)
    requires FittingField(f) && (f.ltype.Submessage? || f.htype == Required || f.htype == Optional)
    ensures ValueInBounds(f, DefaultValue(f))
    decreases f, 0
  {
    if f.ltype.Submessage? {
      DefaultsInBounds(f.ltype.fields);
    }
  }

  lemma {:induction false} DefaultSlotInBounds(f: Field)
    requires FittingField(f)
    ensures SlotInBounds(f, DefaultSlot(f))
    decreases f, 1
  {
    assert f.tag != 0;
    hide FittingField, ValueInBounds;
    if f.htype == Required || f.htype == Optional {
      DefaultValueInBounds(f);
    }
  }

  lemma {:induction false} DefaultsInBounds(fields: seq<Field>)
    requires Fitting(fields)
    ensures InBounds(fields, DefaultSlots(fields))
    decreases fields
  {
    forall i | 0 <= i < |fields|
      ensures SlotOf(fields, i) < SlotCount(fields)
      ensures SlotInBounds(fields[i], DefaultSlots(fields)[SlotOf(fields, i)])
    {
      DefaultSlotAt(fields, i);
      DefaultSlotInBounds(fields[i]);
    }
  }

  // ----- one field

  lemma {:induction false} DecodedValue(f: Field, old_: Value, s: seq<byte>)
    requires FittingField(f)
    requires f.ltype.Submessage? && f.htype != Repeated ==> ValueInBounds(f, old_)
    ensures var r := DecodeValue(f, old_, s); r.Some? ==> ValueInBounds(f, r.value.value)
    decreases f, |s|, 0
  {
    if f.ltype.Submessage? {
      var fields := f.ltype.fields;
      var sub := ReadPrefixed(s);
      if sub.Some? {
        DefaultsInBounds(fields);
        DecodedInBounds(fields, if f.htype == Repeated then DefaultSlots(fields) else old_.slots, sub.value.value);
      }
    } else {
      DecodedScalar(f, old_, s);
    }
  }

  lemma DecodedScalar(f: Field, old_: Value, s: seq<byte>)
    requires !f.ltype.Submessage? && f.dataSize <= SIZE_MAX
    ensures var r := DecodeValue(f, old_, s); r.Some? ==> ValueInBounds(f, r.value.value)
  {
    hide ReadVarint, ReadVarint32;
    if f.ltype.Fixed32Type? && |s| >= 4 {
      LittleEndianBound(s[..4]);
    }
    if f.ltype.Fixed64Type? && |s| >= 8 {
      LittleEndianBound(s[..8]);
    }
  }

  lemma {:induction false} LittleEndianBound(s: seq<byte>)
    ensures FromLittleEndian(s) < Power256(|s|)
  {
    if s != [] {
      LittleEndianBound(s[1..]);
    }
  }

  lemma {:induction false} DecodedItems(f: Field, items: seq<Value>, s: seq<byte>)
    requires FittingField(f) && f.ltype.Packable() && |items| <= f.arraySize
    requires forall x | x in items :: ValueInBounds(f, x)
    ensures var r := DecodePacked(f, items, s);
      r.Some? ==> |r.value| <= f.arraySize && forall x | x in r.value :: ValueInBounds(f, x)
    decreases f, |s|, 1
  {
    hide DecodeValue, ValueInBounds, FittingField;
    if s != [] && |items| < f.arraySize {
      DecodedValue(f, Int(0), s);
      var r := DecodeValue(f, Int(0), s);
      if r.Some? {
        DecodedItems(f, items + [r.value.value], r.value.rest);
      }
    }
  }

  lemma {:induction false} DecodedSlot(f: Field, slot: Slot, wire: nat, s: seq<byte>)
    requires FittingField(f) && SlotInBounds(f, slot)
    ensures var r := DecodeField(f, slot, wire, s);
      r.Some? ==> SlotInBounds(f, r.value.value) && (f.htype == Oneof ==> r.value.value.which == f.tag)
    decreases f, |s|, 2
  {
    hide DecodeValue, ValueInBounds, FittingField, DecodePacked, ReadPrefixed;
    if f.ltype.Submessage? {
      DefaultValueInBounds(f);
    }
    match slot
    case Single(v) => DecodedValue(f, v, s);
    case Opt(_, v) => DecodedValue(f, v, s);
    case Rep(items) =>
      DecodedValue(f, DefaultValue(f), s);
      var sub := ReadPrefixed(s);
      if sub.Some? && f.ltype.Packable() {
        DecodedItems(f, items, sub.value.value);
      }
    case Union(_, v) => DecodedValue(f, if f.ltype.Submessage? then DefaultValue(f) else v, s);
  }

  // ----- a whole message

  /** Writing field i leaves the other fields as they were, also those that share its slot. */
  lemma OneSlotChanged(fields: seq<Field>, slots: seq<Slot>, i: nat, x: Slot)
    requires DistinctTags(fields) && InBounds(fields, slots) && i < |fields|
    requires SlotInBounds(fields[i], x) && (fields[i].htype == Oneof ==> x.which == fields[i].tag)
    ensures SlotOf(fields, i) < |slots| && InBounds(fields, slots[SlotOf(fields, i) := x])
  {
    hide ValueInBounds;
    var s := SlotOf(fields, i);
    forall j | 0 <= j < |fields|
      ensures SlotInBounds(fields[j], slots[s := x][SlotOf(fields, j)])
    {
      if SlotOf(fields, j) == s && j != i {
        SlotsAscend(fields, if i < j then i else j, if i < j then j else i);
      }
    }
  }

  lemma {:induction false} DecodedStep(fields: seq<Field>, d: Partial, s: seq<byte>)
    requires Fitting(fields) && Fits(fields, d) && InBounds(fields, d.slots) && s != []
    ensures var r := DecodeOne(fields, d, s); r.Next? ==> InBounds(fields, r.d.slots)
    decreases fields, |s|, 0
  {
    hide DecodeField, SlotInBounds, FittingField, ReadTag, SkipField, Find;
    var r := ReadTag(s);
    if r.FieldTag? && fields != [] {
      var found := Find(fields, d.pos, r.tag);
      if found.Some? {
        var i := found.value;
        SlotsAscend(fields, i, i);
        DecodedSlot(fields[i], d.slots[SlotOf(fields, i)], r.wire, r.rest);
        var x := DecodeField(fields[i], d.slots[SlotOf(fields, i)], r.wire, r.rest);
        if x.Some? {
          OneSlotChanged(fields, d.slots, i, x.value.value);
        }
      }
    }
  }

  lemma {:induction false} DecodedLoop(fields: seq<Field>, d: Partial, s: seq<byte>)
    requires Fitting(fields) && Fits(fields, d) && InBounds(fields, d.slots)
    ensures var r := DecodeLoop(fields, d, s); r.Some? ==> InBounds(fields, r.value.d.slots)
    decreases fields, |s|, 1
  {
    hide DecodeOne, InBounds, Fitting;
    if s != [] {
      DecodedStep(fields, d, s);
      var r := DecodeOne(fields, d, s);
      if r.Next? {
        DecodedLoop(fields, r.d, r.rest);
      }
    }
  }

  /** Whatever the bytes are, a struct within its bounds is still within them once they are accepted. */
  lemma {:induction false} DecodedInBounds(fields: seq<Field>, start: seq<Slot>, s: seq<byte>)
    requires Fitting(fields) && InBounds(fields, start)
    ensures var r := DecodeNoinit(fields, start, s); r.Some? ==> InBounds(fields, r.value.value)
    decreases fields, |s|, 2
  {
    hide DecodeLoop;
    DecodedLoop(fields, Partial(start, {}, 0), s);
  }

  // ----- and back

  lemma {:induction false} BoundsAreTyped(fields: seq<Field>, slots: seq<Slot>)
    requires InBounds(fields, slots)
    ensures Typed(fields, slots)
    decreases fields
  {
    forall i | 0 <= i < |fields|
      ensures TypedSlot(fields[i], slots[SlotOf(fields, i)])
    {
      SlotIsTyped(fields[i], slots[SlotOf(fields, i)]);
    }
  }

  lemma {:induction false} SlotIsTyped(f: Field, slot: Slot)
    requires SlotInBounds(f, slot)
    ensures TypedSlot(f, slot)
    decreases f, 1
  {
    hide ValueInBounds, TypedValue;
    forall x | ValueInBounds(f, x)
      ensures TypedValue(f, x)
    {
      ValueIsTyped(f, x);
    }
  }

  lemma {:induction false} ValueIsTyped(f: Field, v: Value)
    requires ValueInBounds(f, v)
    ensures TypedValue(f, v)
    decreases f, 0
  {
    if f.ltype.Submessage? {
      BoundsAreTyped(f.ltype.fields, v.slots);
    }
  }

  lemma {:induction false} BoundsAreRoomy(fields: seq<Field>, slots: seq<Slot>, n: nat)
    requires InBounds(fields, slots) && |slots| == SlotCount(fields)
    ensures RoomyFrom(fields, slots, n)
    decreases fields, |fields| - n
  {
    if n < |fields| {
      SlotIsRoomy(fields[n], slots[SlotOf(fields, n)]);
      hide RoomySlot, SlotInBounds, InBounds;
      BoundsAreRoomy(fields, slots, n + 1);
    }
  }

  lemma {:induction false} SlotIsRoomy(f: Field, slot: Slot)
    requires SlotInBounds(f, slot)
    ensures RoomySlot(f, slot)
    decreases f, 1
  {
    hide ValueInBounds, RoomyValue;
    forall x | ValueInBounds(f, x)
      ensures RoomyValue(f, x)
    {
      ValueIsRoomy(f, x);
    }
  }

  lemma {:induction false} ValueIsRoomy(f: Field, v: Value)
    requires ValueInBounds(f, v)
    ensures RoomyValue(f, v)
    decreases f, 0
  {
    if f.ltype.Submessage? {
      BoundsAreRoomy(f.ltype.fields, v.slots, 0);
    }
  }

  /**
     Accepted bytes, whoever wrote them, leave a struct that encodes, and what is decoded
     from that encoding is the struct as a reader sees it.
   */
  lemma AcceptedReencodes(fields: seq<Field>, start: seq<Slot>, s: seq<byte>)
    requires WellFormed(fields) && Fitting(fields) && InBounds(fields, start)
    requires DecodeNoinit(fields, start, s).Some?
    ensures var slots := DecodeNoinit(fields, start, s).value.value;
      var e := EncodeMessage(fields, slots);
      && InBounds(fields, slots) && e.Some?
      && (|e.value| < TWO_32 ==> DecodeMessage(fields, e.value) == Some(Read(Normal(fields, slots), [])))
  {
    hide DecodeMessage, EncodeMessage, DecodeNoinit, Normal, InBounds, Typed, WellFormed, Fitting;
    DecodedInBounds(fields, start, s);
    var slots := DecodeNoinit(fields, start, s).value.value;
    BoundsAreTyped(fields, slots);
    RoomEnough(fields, slots);
    StructEncodes(fields, slots);
    if |EncodeMessage(fields, slots).value| < TWO_32 {
      MessageRoundTrip(fields, slots);
    }
  }

  lemma RoomEnough(fields: seq<Field>, slots: seq<Slot>)
    requires InBounds(fields, slots)
    ensures Roomy(fields, slots)
  {
    BoundsAreRoomy(fields, slots, 0);
  }
}
