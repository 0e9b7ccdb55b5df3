/**
 Concatenation of encoded messages. What the encoder writes never contains the zero tag that
 ends a message early, so appending one encoding to another always merges them, from whatever
 struct decoding starts.
 */
module PbConcat {
  import opened Octets
  import opened Fragments
  import opened PbWire
  import opened PbMessage
  import opened PbEncode
  import opened PbDecode
  import opened PbMerge
  import opened PbRoundTrip

  /** If a value is read at all, just its own octets are consumed. */
  lemma ValueConsumes(f: Field, old_: Value, v: Value, t: seq<byte>)
    requires TypedValue(f, v)
    requires EncodeValue(f, v).Some? && |EncodeValue(f, v).value| < TWO_32
    ensures var r := DecodeValue(f, old_, EncodeValue(f, v).value + t); r.Some? ==> r.value.rest == t
  {
    if f.ltype.Submessage? {
      PrefixedReadsBack(EncodeMessage(f.ltype.fields, v.slots).value, t);
    } else if f.ltype.Packable() {
      IntegerRoundTrip(f, old_, v, t);
    } else {
      CharsRoundTrip(f, old_, v, t);
    }
  }

  lemma ItemConsumes(f: Field, slot: Slot, v: Value, t: seq<byte>)
    requires TypedValue(f, v) && (f.htype == Repeated ==> !f.ltype.Packable())
    requires EncodeValue(f, v).Some? && |EncodeValue(f, v).value| < TWO_32
    ensures var r := DecodeField(f, slot, WireNumber(FieldWireType(f.ltype)), EncodeValue(f, v).value + t);
      r.Some? ==> r.value.rest == t
  {
    var old_ := match slot
      case Single(x) => x
      case Opt(_, x) => x
      case Rep(_) => DefaultValue(f)
      case Union(_, x) => if f.ltype.Submessage? then DefaultValue(f) else x;
    ValueConsumes(f, old_, v, t);
    hide DecodeValue, EncodeValue, TypedValue;
  }

  lemma PackedConsumes(f: Field, slot: Slot, s: seq<byte>, t: seq<byte>)
    requires f.htype == Repeated && f.ltype.Packable() && |s| < TWO_32
    ensures var r := DecodeField(f, slot, 2, Prefixed(s) + t); r.Some? ==> r.value.rest == t
  {
    PrefixedReadsBack(s, t);
    hide ReadPrefixed, Prefixed, DecodePacked, DecodeValue;
  }

  /** Reading s in front of t is refused, or changes no slot but the given one and goes on from d'. */
  ghost predicate Passes(fields: seq<Field>, d: Partial, s: seq<byte>, d': Partial, t: seq<byte>, slot: nat) {
    && Fits(fields, d) && Fits(fields, d')
    && (forall k | 0 <= k < |d.slots| && k != slot :: d'.slots[k] == d.slots[k])
    && (DecodeLoop(fields, d, s).None? || DecodeLoop(fields, d, s) == DecodeLoop(fields, d', t))
  }

  lemma TagPasses(fields: seq<Field>, d: Partial, n: nat, wire: nat, body: seq<byte>, t: seq<byte>)
      returns (d': Partial)
    requires TagsOk(fields) && n < |fields| && Fits(fields, d) && wire < 8
    requires SlotOf(fields, n) < |d.slots|
    requires var r := DecodeField(fields[n], d.slots[SlotOf(fields, n)], wire, body + t);
      r.Some? ==> r.value.rest == t
    ensures Passes(fields, d, Varint(fields[n].tag * 8 + wire) + body + t, d', t, SlotOf(fields, n))
  {
    var tag := fields[n].tag;
    var r := DecodeField(fields[n], d.slots[SlotOf(fields, n)], wire, body + t);
    if r.Some? {
      TaggedStep(fields, d, n, wire, body, t, r.value.value);
      d' := Partial(d.slots[SlotOf(fields, n) := r.value.value], Seen(fields, d.seen, n), n);
    } else {
      TagRefused(fields, d, n, wire, body + t);
      assert Varint(tag * 8 + wire) + body + t == Varint(tag * 8 + wire) + (body + t);
      d' := d;
    }
  }

  lemma TagRefused(fields: seq<Field>, d: Partial, n: nat, wire: nat, s: seq<byte>)
    requires TagsOk(fields) && n < |fields| && Fits(fields, d) && wire < 8
    requires SlotOf(fields, n) < |d.slots|
    requires DecodeField(fields[n], d.slots[SlotOf(fields, n)], wire, s).None?
    ensures DecodeLoop(fields, d, Varint(fields[n].tag * 8 + wire) + s).None?
  {
    var tag := fields[n].tag;
    assert fields[n] in fields;
    TagReadsBack(tag, wire, s);
    hide ReadTag, DecodeField, Find, Varint;
    var found := Find(fields, d.pos, tag);
    assert found.Some? && fields[found.value].tag == fields[n].tag;
    assert found.value == n;
  }

  lemma ItemPasses(fields: seq<Field>, d: Partial, n: nat, v: Value, t: seq<byte>) returns (d': Partial)
    requires TagsOk(fields) && n < |fields| && Fits(fields, d)
    requires var f := fields[n];
      && TypedValue(f, v) && (f.htype == Repeated ==> !f.ltype.Packable())
      && EncodeValue(f, v).Some? && |EncodeValue(f, v).value| < TWO_32
    ensures Passes(fields, d, TagFor(fields[n]) + EncodeValue(fields[n], v).value + t, d', t, SlotOf(fields, n))
  {
    var f := fields[n];
    SlotsAscend(fields, n, n);
    hide DecodeField, EncodeValue, TypedValue, TagsOk, Passes;
    ItemConsumes(f, d.slots[SlotOf(fields, n)], v, t);
    WireOf(f);
    d' := TagPasses(fields, d, n, WireNumber(FieldWireType(f.ltype)), EncodeValue(f, v).value, t);
  }

  lemma {:induction false} ItemsPass(fields: seq<Field>, d: Partial, n: nat, items: seq<Value>, t: seq<byte>)
      returns (d': Partial)
    requires TagsOk(fields) && n < |fields| && Fits(fields, d)
    requires var f := fields[n];
      && f.htype == Repeated && !f.ltype.Packable() && (forall x | x in items :: TypedValue(f, x))
      && EncodeTagged(f, items).Some? && |EncodeTagged(f, items).value| < TWO_32
    ensures Passes(fields, d, EncodeTagged(fields[n], items).value + t, d', t, SlotOf(fields, n))
    decreases |items|
  {
    var f := fields[n];
    if items == [] {
      d' := d;
      assert EncodeTagged(f, items).value + t == t;
    } else {
      var x, rest := items[0], items[1..];
      var e, later := EncodeValue(f, x).value, EncodeTagged(f, rest).value;
      assert EncodeTagged(f, items).value + t == TagFor(f) + e + (later + t);
      hide DecodeLoop, TypedValue, TagsOk, EncodeValue, TagFor;
      var mid := ItemPasses(fields, d, n, x, later + t);
      d' := ItemsPass(fields, mid, n, rest, t);
    }
  }

  lemma ArrayPasses(fields: seq<Field>, d: Partial, n: nat, items: seq<Value>, t: seq<byte>) returns (d': Partial)
    requires TagsOk(fields) && n < |fields| && Fits(fields, d)
    requires var f := fields[n];
      && f.htype == Repeated && (forall x | x in items :: TypedValue(f, x))
      && EncodeArray(f, items).Some? && |EncodeArray(f, items).value| < TWO_32
    ensures Passes(fields, d, EncodeArray(fields[n], items).value + t, d', t, SlotOf(fields, n))
  {
    var f := fields[n];
    if items == [] {
      d' := d;
      assert EncodeArray(f, items).value + t == t;
    } else if f.ltype.Packable() {
      var s := EncodeItems(f, items).value;
      SlotsAscend(fields, n, n);
      assert EncodeArray(f, items).value == Varint(f.tag * 8 + 2) + Prefixed(s);
      hide Prefixed, DecodeField, TagsOk, Varint, TypedValue, EncodeItems, EncodeArray, Passes;
      PackedConsumes(f, d.slots[SlotOf(fields, n)], s, t);
      d' := TagPasses(fields, d, n, 2, Prefixed(s), t);
    } else {
      hide TypedValue, TagsOk, Passes;
      d' := ItemsPass(fields, d, n, items, t);
    }
  }

  /** The field is not written. */
  predicate Absent(f: Field, slot: Slot) {
    match slot
    case Single(v) => f.htype == Optional && IsDefaultValue(f, v)
    case Opt(has, _) => !has
    case Rep(items) => items == []
    case Union(which, _) => which != f.tag
  }

  lemma WrittenValue(f: Field, slot: Slot) returns (v: Value)
    requires TypedSlot(f, slot) && !Absent(f, slot) && !slot.Rep? && EncodeField(f, slot).Some?
    ensures f.htype != Repeated && TypedValue(f, v) && EncodeValue(f, v).Some?
    ensures EncodeField(f, slot).value == TagFor(f) + EncodeValue(f, v).value
  {
    hide TypedValue, EncodeValue, TagFor, IsDefaultValue;
    v := match slot
      case Single(x) => x
      case Opt(_, x) => x
      case Union(_, x) => x;
  }

  lemma WrittenItems(f: Field, slot: Slot)
    requires TypedSlot(f, slot) && slot.Rep? && EncodeField(f, slot).Some?
    ensures f.htype == Repeated && EncodeField(f, slot) == EncodeArray(f, slot.items)
    ensures forall x | x in slot.items :: TypedValue(f, x)
  {
    hide TypedValue, EncodeArray;
  }

  lemma NothingWritten(f: Field, slot: Slot)
    requires Absent(f, slot) && EncodeField(f, slot).Some?
    ensures EncodeField(f, slot).value == []
  {
    hide IsDefaultValue, EncodeValue;
  }

  lemma FieldPasses(fields: seq<Field>, slots: seq<Slot>, d: Partial, n: nat, t: seq<byte>) returns (d': Partial)
    requires TagsOk(fields) && Typed(fields, slots) && n < |fields| && Fits(fields, d)
    requires SlotOf(fields, n) < |slots|
    requires var e := EncodeField(fields[n], slots[SlotOf(fields, n)]); e.Some? && |e.value| < TWO_32
    ensures Passes(fields, d, EncodeField(fields[n], slots[SlotOf(fields, n)]).value + t, d', t, SlotOf(fields, n))
    ensures Absent(fields[n], slots[SlotOf(fields, n)]) ==> d' == d
  {
    var f, slot := fields[n], slots[SlotOf(fields, n)];
    assert TypedSlot(f, slot);
    hide DecodeLoop, EncodeField, EncodeValue, EncodeArray, TagsOk, Absent, TagFor, Typed, TypedValue, TypedSlot;
    hide Passes;
    var e := EncodeField(f, slot).value;
    if Absent(f, slot) {
      NothingWritten(f, slot);
      assert [] + t == t;
      d' := d;
      StaysPut(fields, d, t, SlotOf(fields, n));
    } else if slot.Rep? {
      WrittenItems(f, slot);
      d' := ArrayPasses(fields, d, n, slot.items, t);
    } else {
      var v := WrittenValue(f, slot);
      d' := ItemPasses(fields, d, n, v, t);
    }
  }

  lemma StaysPut(fields: seq<Field>, d: Partial, t: seq<byte>, slot: nat)
    requires Fits(fields, d)
    ensures Passes(fields, d, t, d, t, slot)
  {
    hide DecodeLoop;
  }

  lemma NothingLeft(fields: seq<Field>, d: Partial)
    requires Fits(fields, d)
    ensures DecodeLoop(fields, d, []) == Some(Decoded(d, [], false))
  {
  }

  lemma FirstOfRest(fields: seq<Field>, slots: seq<Slot>, n: nat)
    requires |slots| == SlotCount(fields) && n < |fields| && EncodeFrom(fields, slots, n).Some?
    ensures SlotOf(fields, n) < |slots|
    ensures var (e, rest) := (EncodeField(fields[n], slots[SlotOf(fields, n)]), EncodeFrom(fields, slots, n + 1));
      e.Some? && rest.Some? && EncodeFrom(fields, slots, n).value == e.value + rest.value
  {
    SlotsAscend(fields, n, n);
    hide EncodeField;
  }

  lemma RestPasses(fields: seq<Field>, slots: seq<Slot>, d: Partial, n: nat) returns (d': Partial)
    requires TagsOk(fields) && Typed(fields, slots) && n < |fields| && Fits(fields, d)
    requires |slots| == SlotCount(fields)
    requires EncodeFrom(fields, slots, n).Some? && |EncodeFrom(fields, slots, n).value| < TWO_32
    ensures EncodeFrom(fields, slots, n + 1).Some? && |EncodeFrom(fields, slots, n + 1).value| < TWO_32
    ensures SlotOf(fields, n) < |slots|
    ensures Passes(fields, d, EncodeFrom(fields, slots, n).value, d', EncodeFrom(fields, slots, n + 1).value,
                   SlotOf(fields, n))
    ensures Absent(fields[n], slots[SlotOf(fields, n)]) ==> d' == d
  {
    hide DecodeLoop, EncodeField, EncodeFrom, TagsOk, Typed, Fits, Passes, Absent;
    FirstOfRest(fields, slots, n);
    d' := FieldPasses(fields, slots, d, n, EncodeFrom(fields, slots, n + 1).value);
  }

  /** From any state, what is left of an encoding is refused or read to its end. */
  lemma {:induction false} FieldsPass(fields: seq<Field>, slots: seq<Slot>, d: Partial, n: nat)
    requires TagsOk(fields) && Typed(fields, slots) && n <= |fields| && Fits(fields, d)
    requires |slots| == SlotCount(fields)
    requires EncodeFrom(fields, slots, n).Some? && |EncodeFrom(fields, slots, n).value| < TWO_32
    ensures var r := DecodeLoop(fields, d, EncodeFrom(fields, slots, n).value);
      r.Some? ==> !r.value.stopped && r.value.rest == []
    decreases |fields| - n
  {
    if n < |fields| {
      hide DecodeLoop, EncodeField, EncodeFrom, TagsOk, Typed, Fits;
      var mid := RestPasses(fields, slots, d, n);
      FieldsPass(fields, slots, mid, n + 1);
    } else {
      hide DecodeLoop, Typed, TagsOk;
      NothingLeft(fields, d);
    }
  }

  /** A slot that no field writes keeps what it held. */
  lemma {:induction false} SilentSlotStays(fields: seq<Field>, slots: seq<Slot>, d: Partial, n: nat, s: nat)
    requires TagsOk(fields) && Typed(fields, slots) && n <= |fields| && Fits(fields, d)
    requires |slots| == SlotCount(fields) && s < |slots|
    requires EncodeFrom(fields, slots, n).Some? && |EncodeFrom(fields, slots, n).value| < TWO_32
    requires forall k | n <= k < |fields| && SlotOf(fields, k) == s :: Absent(fields[k], slots[s])
    ensures var r := DecodeLoop(fields, d, EncodeFrom(fields, slots, n).value);
      r.Some? ==> r.value.d.slots[s] == d.slots[s]
    decreases |fields| - n
  {
    hide DecodeLoop, EncodeField, TagsOk, Typed, Absent, SlotCount;
    if n < |fields| {
      hide EncodeFrom;
      var mid := RestPasses(fields, slots, d, n);
      SilentSlotStays(fields, slots, mid, n + 1, s);
    } else {
      NothingLeft(fields, d);
    }
  }

  // ----- merging

  /** Bytes that pb_encode wrote never end at a zero tag, whatever struct they are decoded into. */
  lemma EncodedNeverStops(fields: seq<Field>, start: seq<Slot>, slots: seq<Slot>)
    requires TagsOk(fields) && Typed(fields, slots) && |start| == SlotCount(fields)
    requires EncodeMessage(fields, slots).Some? && |EncodeMessage(fields, slots).value| < TWO_32
    ensures !EndsAtZeroTag(fields, start, EncodeMessage(fields, slots).value)
    ensures var r := DecodeNoinit(fields, start, EncodeMessage(fields, slots).value); r.Some? ==> r.value.rest == []
  {
    FieldsPass(fields, slots, Partial(start, {}, 0), 0);
  }

  /**
     Appending to an encoding is merging: if the encoding is accepted from some struct, then
     decoding it with anything behind it is decoding that into the result.
   */
  lemma EncodedConcatenation(fields: seq<Field>, start: seq<Slot>, slots: seq<Slot>, b: seq<byte>)
    requires TagsOk(fields) && NoRequired(fields) && Typed(fields, slots)
    requires EncodeMessage(fields, slots).Some? && |EncodeMessage(fields, slots).value| < TWO_32
    ensures var e := EncodeMessage(fields, slots).value;
      var r := DecodeNoinit(fields, start, e);
      r.Some? ==> DecodeNoinit(fields, start, e + b) == DecodeNoinit(fields, r.value.value, b)
  {
    var e := EncodeMessage(fields, slots).value;
    if DecodeNoinit(fields, start, e).Some? {
      EncodedNeverStops(fields, start, slots);
      ConcatenationIsMerge(fields, start, e, b);
    }
  }

  /** Two encodings, one after the other, decode as the second merged into the first message. */
  lemma EncodingsMerge(fields: seq<Field>, first: seq<Slot>, second: seq<Slot>)
    requires WellFormed(fields) && NoRequired(fields) && Typed(fields, first)
    requires EncodeMessage(fields, first).Some? && |EncodeMessage(fields, first).value| < TWO_32
    requires EncodeMessage(fields, second).Some?
    ensures DecodeMessage(fields, EncodeMessage(fields, first).value + EncodeMessage(fields, second).value) ==
      DecodeNoinit(fields, Normal(fields, first), EncodeMessage(fields, second).value)
  {
    hide EncodeMessage, WellFormed, Typed, NoRequired, DecodeNoinit;
    WellFormedTags(fields);
    MessageRoundTrip(fields, first);
    EncodedConcatenation(fields, DefaultSlots(fields), first, EncodeMessage(fields, second).value);
  }

  /** A zero tag, which no encoding contains, is where the condition fails: all behind it stays unread. */
  lemma ZeroTagHidesTheRest(fields: seq<Field>, slots: seq<Slot>, b: seq<byte>)
    requires NoRequired(fields) && |slots| == SlotCount(fields)
    ensures EndsAtZeroTag(fields, slots, [0])
    ensures DecodeNoinit(fields, slots, [0]) == Some(Read(slots, []))
    ensures DecodeNoinit(fields, slots, [0] + b) == Some(Read(slots, b))
  {
    NoRequiredNoneTracked(fields, |fields|);
    ZeroTagStops(fields, Partial(slots, {}, 0), []);
    ZeroTagStops(fields, Partial(slots, {}, 0), b);
    assert [0] + [] == [0];
    hide DecodeLoop;
  }

  lemma ZeroTagStops(fields: seq<Field>, d: Partial, b: seq<byte>)
    requires Fits(fields, d)
    ensures DecodeLoop(fields, d, [0] + b) == Some(Decoded(d, b, true))
  {
    ZeroTagEnds(b);
    hide ReadTag;
    assert DecodeOne(fields, d, [0] + b) == Stop(b);
  }

  lemma ZeroTagEnds(b: seq<byte>)
    ensures ReadTag([0] + b) == EndOfMessage(b)
  {
    assert ([0] + b)[1..] == b;
  }
}
