/** Where the round trip of nanopb stops: the two conditions on a descriptor that a caller has to check. */
module PbLimits {
  import opened Octets
  import opened Fragments
  import opened PbWire
  import opened PbMessage
  import opened PbEncode
  import opened PbDecode
  import opened PbMerge
  import opened PbRoundTrip
  import opened PbConcat

  /**
     A string that fills its array has no terminator. The encoder writes it, up to its first
     zero if there is one, and the decoder takes that back exactly when it leaves room for a
     terminator; otherwise it refuses the message.
   */
  lemma StringNeedsItsTerminator(f: Field, old_: Value, b: seq<byte>, t: seq<byte>)
    requires f.ltype == StringType && |b| <= f.dataSize && |b| < TWO_32
    ensures
      var (e, n) := (EncodeValue(f, Chars(b)), TextLength(b, f.dataSize));
      e.Some? &&
      DecodeValue(f, old_, e.value + t) == if n < f.dataSize then Some(Read(Chars(b[..n]), t)) else None
  {
    PrefixedReadsBack(b[..TextLength(b, f.dataSize)], t);
  }

  /** Encoding and decoding gives back what a reader of the struct can see. */
  ghost predicate RoundTrips(fields: seq<Field>, slots: seq<Slot>) {
    var e := EncodeMessage(fields, slots);
    e.Some? ==> DecodeMessage(fields, e.value) == Some(Read(Normal(fields, slots), []))
  }

  lemma NormalStep(fields: seq<Field>, slots: seq<Slot>, n: nat)
    requires 1 < n <= |fields| && SlotOf(fields, n - 1) < |slots|
    ensures var (before, all) := (NormalUpTo(fields, slots, n - 1), NormalUpTo(fields, slots, n));
      var s := SlotOf(fields, n - 1);
      && |before| == SlotOf(fields, n - 2) + 1
      && (forall k | 0 <= k < |before| && k != s :: k < |all| && all[k] == before[k])
      && (SlotOf(fields, n - 2) != s ==> |before| == s)
  {
    hide NormalSlot, DefaultSlot;
  }

  lemma {:induction false} NormalAt(fields: seq<Field>, slots: seq<Slot>, i: nat, n: nat)
    requires |slots| == SlotCount(fields) && i < n <= |fields| && fields[i].htype != Oneof
    ensures SlotOf(fields, i) <= SlotOf(fields, n - 1) && SlotOf(fields, i) < |slots|
    ensures NormalUpTo(fields, slots, n)[SlotOf(fields, i)] ==
      NormalSlot(fields[i], slots[SlotOf(fields, i)], DefaultSlot(fields[i]))
    decreases n
  {
    SlotsAscend(fields, i, n - 1);
    SlotsAscend(fields, n - 1, |fields| - 1);
    if i < n - 1 {
      hide NormalUpTo, NormalSlot, DefaultSlot;
      NormalAt(fields, slots, i, n - 1);
      NormalStep(fields, slots, n);
    } else {
      hide NormalSlot, DefaultSlot;
    }
  }

  /** A field outside unions has its slot to itself. */
  lemma OwnSlot(fields: seq<Field>, i: nat, k: nat)
    requires i < |fields| && k < |fields| && fields[i].htype != Oneof && SlotOf(fields, k) == SlotOf(fields, i)
    ensures k == i
  {
    if k < i { SlotsAscend(fields, k, i); }
    if i < k { SlotsAscend(fields, i, k); }
  }

  /** What is decoded for a field that was not written: its default. */
  lemma OmittedFieldIsDefault(fields: seq<Field>, slots: seq<Slot>, i: nat)
    requires TagsOk(fields) && Typed(fields, slots) && i < |fields| && fields[i].htype != Oneof
    requires SlotOf(fields, i) < |slots| && Absent(fields[i], slots[SlotOf(fields, i)])
    requires EncodeMessage(fields, slots).Some? && |EncodeMessage(fields, slots).value| < TWO_32
    ensures var r := DecodeMessage(fields, EncodeMessage(fields, slots).value);
      r.Some? ==> SlotOf(fields, i) < |r.value.value| && r.value.value[SlotOf(fields, i)] == DefaultSlot(fields[i])
  {
    var s := SlotOf(fields, i);
    forall k | 0 <= k < |fields| && SlotOf(fields, k) == s ensures Absent(fields[k], slots[s]) {
      OwnSlot(fields, i, k);
    }
    DefaultSlotAt(fields, i);
    hide Absent, DecodeLoop, EncodeFrom, TagsOk, Typed;
    SilentSlotStays(fields, slots, Partial(DefaultSlots(fields), {}, 0), 0, s);
  }

  /**
     A proto3 singular field is not written when it is zero or empty, and the decoder then
     leaves the default. So in any message whose other fields are well formed a zero or empty
     number, string or bytes field survives exactly when the default is zero or empty too.
   */
  lemma SingularDefaultMustBeZero(fields: seq<Field>, slots: seq<Slot>, i: nat, v: Value)
    requires TagsOk(fields) && i < |fields| && forall j | 0 <= j < |fields| && j != i :: WellFormedField(fields[j])
    requires var f := fields[i]; f.htype == Optional && f.sizeOffset == 0 && !f.ltype.Submessage?
    requires Typed(fields, slots) && SlotOf(fields, i) < |slots|
    requires slots[SlotOf(fields, i)] == Single(v) && IsDefaultValue(fields[i], v)
    requires EncodeMessage(fields, slots).Some? && |EncodeMessage(fields, slots).value| < TWO_32
    ensures RoundTrips(fields, slots) <==> ZeroDefault(fields[i])
  {
    var f := fields[i];
    assert f in fields && TypedSlot(f, slots[SlotOf(fields, i)]);
    hide DecodeMessage, EncodeMessage, Typed, Normal;
    if ZeroDefault(f) {
      assert WellFormedField(f);
      MessageRoundTrip(fields, slots);
    } else {
      OmittedFieldIsDefault(fields, slots, i);
      NormalOf(fields, slots, i);
    }
  }

  lemma NormalOf(fields: seq<Field>, slots: seq<Slot>, i: nat)
    requires Typed(fields, slots) && i < |fields| && fields[i].htype != Oneof
    ensures SlotOf(fields, i) < |slots| && SlotOf(fields, i) < SlotCount(fields)
    ensures Normal(fields, slots)[SlotOf(fields, i)] ==
      NormalSlot(fields[i], slots[SlotOf(fields, i)], DefaultSlot(fields[i]))
  {
    NormalAt(fields, slots, i, |fields|);
    SlotsAscend(fields, i, |fields| - 1);
  }

  // ----- which structs encode

  ghost predicate RoomyValue(f: Field, v: Value)
    decreases f, 0
  {
    match f.ltype
    case BytesType => v.Chars? && |v.b| + BYTES_OFFSET <= f.dataSize
    case Submessage(fields) => v.Struct? && Roomy(fields, v.slots)
    case _ => true
  }

  ghost predicate RoomySlot(f: Field, slot: Slot)
    decreases f, 1
  {
    || Absent(f, slot)
    || match slot
       case Single(v) => RoomyValue(f, v)
       case Opt(_, v) => RoomyValue(f, v)
       case Rep(items) => forall x | x in items :: RoomyValue(f, x)
       case Union(_, v) => RoomyValue(f, v)
  }

  /** Every bytes value that is written, at any depth, has room in its field. */
  ghost predicate Roomy(fields: seq<Field>, slots: seq<Slot>)
    decreases fields, 1
  {
    |slots| == SlotCount(fields) && RoomyFrom(fields, slots, 0)
  }

  ghost predicate RoomyFrom(fields: seq<Field>, slots: seq<Slot>, n: nat)
    requires |slots| == SlotCount(fields)
    decreases fields, 0, |fields| - n
  {
    n >= |fields| ||
    (SlotOf(fields, n) < |slots| && RoomySlot(fields[n], slots[SlotOf(fields, n)]) && RoomyFrom(fields, slots, n + 1))
  }

  lemma {:induction false} ValueEncodes(f: Field, v: Value)
    requires WellFormedField(f) && TypedValue(f, v)
    ensures EncodeValue(f, v).Some? <==> RoomyValue(f, v)
    decreases f, 0
  {
    if f.ltype.Submessage? {
      StructEncodes(f.ltype.fields, v.slots);
    }
  }

  lemma {:induction false} ItemsEncode(f: Field, items: seq<Value>)
    requires WellFormedField(f) && forall x | x in items :: TypedValue(f, x)
    ensures EncodeItems(f, items).Some? <==> forall x | x in items :: RoomyValue(f, x)
    ensures EncodeTagged(f, items).Some? <==> forall x | x in items :: RoomyValue(f, x)
    decreases f, 1, |items|
  {
    hide EncodeValue, RoomyValue, TypedValue, WellFormedField, TagFor;
    if items != [] {
      ValueEncodes(f, items[0]);
      ItemsEncode(f, items[1..]);
      assert forall x :: x in items <==> x == items[0] || x in items[1..];
    }
  }

  lemma {:induction false} SlotEncodes(f: Field, slot: Slot)
    requires WellFormedField(f) && TypedSlot(f, slot)
    ensures EncodeField(f, slot).Some? <==> RoomySlot(f, slot)
    decreases f, 2
  {
    hide EncodeValue, RoomyValue, TypedValue, TagFor, IsDefaultValue;
    if !Absent(f, slot) {
      match slot {
        case Single(v) => ValueEncodes(f, v);
        case Opt(_, v) => ValueEncodes(f, v);
        case Rep(items) => ItemsEncode(f, items);
        case Union(_, v) => ValueEncodes(f, v);
      }
    }
  }

  lemma FieldAt(fields: seq<Field>, slots: seq<Slot>, n: nat)
    requires WellFormed(fields) && Typed(fields, slots) && n < |fields|
    ensures SlotOf(fields, n) < |slots| && TypedSlot(fields[n], slots[SlotOf(fields, n)])
    ensures WellFormedField(fields[n])
  {
  }

  lemma {:induction false} FieldsEncode(fields: seq<Field>, slots: seq<Slot>, n: nat)
    requires WellFormed(fields) && Typed(fields, slots) && n <= |fields| && |slots| == SlotCount(fields)
    ensures EncodeFrom(fields, slots, n).Some? <==> RoomyFrom(fields, slots, n)
    decreases fields, 0, |fields| - n
  {
    hide EncodeField, RoomySlot, WellFormedField, TypedSlot, Typed, WellFormed, SlotOf, SlotCount;
    if n < |fields| {
      FieldAt(fields, slots, n);
      SlotEncodes(fields[n], slots[SlotOf(fields, n)]);
      FieldsEncode(fields, slots, n + 1);
    }
  }

  /** A struct that the C types allow encodes exactly when its bytes values have room. */
  lemma {:induction false} StructEncodes(fields: seq<Field>, slots: seq<Slot>)
    requires WellFormed(fields) && Typed(fields, slots)
    ensures EncodeMessage(fields, slots).Some? <==> Roomy(fields, slots)
    decreases fields, 1
  {
    FieldsEncode(fields, slots, 0);
  }
}
