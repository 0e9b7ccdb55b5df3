/**
 Messages that are cut short: a stream that ends inside a field is refused, whether the reader
 knows the field or not, so what is accepted ends between fields.
 */
module PbTruncated {
  import opened Octets
  import opened Fragments
  import opened PbWire
  import opened PbMessage
  import opened PbEncode
  import opened PbDecode
  import opened PbMerge
  import opened PbRoundTrip
  import opened PbExchange
  import opened PbConcat

  // ----- varints

  /** Every octet says that another follows. */
  predicate GoesOn(s: seq<byte>) {
    forall k | 0 <= k < |s| :: s[k] >= 128
  }

  lemma {:induction false} NoEnd(s: seq<byte>, k: nat)
    requires GoesOn(s)
    ensures ReadGroups(s, k).None? && SkipVarint(s).None?
    decreases |s|
  {
    if s != [] {
      NoEnd(s[1..], k + 1);
      NoEnd(s[1..], k);
    }
  }

  lemma {:induction false} NoEnd32(s: seq<byte>, result: nat, bitpos: byte)
    requires GoesOn(s)
    ensures Read32Groups(s, result, bitpos).Bad?
    decreases |s|
  {
    hide Merge;
    if s != [] {
      NoEnd32(s[1..], Merge(result, s[0] % 128, bitpos), (bitpos + 7) % 256);
    }
  }

  lemma {:induction false} NoVarint(s: seq<byte>)
    requires GoesOn(s)
    ensures ReadVarint(s).None? && SkipVarint(s).None? && !ReadVarint32(s).Got?
    ensures s != [] ==> ReadVarint32(s).Bad?
  {
    NoEnd(s, 0);
    if s != [] {
      NoEnd32(s[1..], s[0] % 128, 7);
    }
  }

  lemma {:induction false} CutVarint(v: nat, n: nat)
    requires n < |Varint(v)|
    ensures GoesOn(Varint(v)[..n])
  {
    VarintIsPayload(v);
  }

  // ----- payloads

  /** A length and its octets, cut anywhere: the length is not there, or it promises more than there is. */
  lemma {:induction false} CutPrefixed(s: seq<byte>, n: nat)
    requires |s| < TWO_32 && n < |Prefixed(s)|
    ensures var p := Prefixed(s)[..n];
      match ReadVarint32(p)
      case Got(length, rest) => length == |s| > |rest|
      case _ => true
    ensures ReadPrefixed(Prefixed(s)[..n]).None? && SkipString(Prefixed(s)[..n]).None?
  {
    var k := |Varint(|s|)|;
    var p := Prefixed(s)[..n];
    hide ReadVarint32, Varint;
    if n < k {
      assert p == Varint(|s|)[..n];
      CutVarint(|s|, n);
      NoVarint(p);
    } else {
      assert p == Varint(|s|) + s[..n - k];
      Varint32RoundTrip(|s|, s[..n - k]);
    }
  }

  lemma {:induction false} CutValue(f: Field, old_: Value, v: Value, n: nat)
    requires EncodeValue(f, v).Some? && |EncodeValue(f, v).value| < TWO_32 && n < |EncodeValue(f, v).value|
    ensures DecodeValue(f, old_, EncodeValue(f, v).value[..n]).None?
  {
    hide ReadVarint, ReadVarint32, Varint, Prefixed, ReadPrefixed, EncodeMessage, DecodeNoinit;
    match f.ltype
    case VarintType => CutVarint(Unsigned64(v.i), n); NoVarint(Varint(Unsigned64(v.i))[..n]);
    case UvarintType => CutVarint(Unsigned64(v.i), n); NoVarint(Varint(Unsigned64(v.i))[..n]);
    case SvarintType => CutVarint(ZigZag(v.i), n); NoVarint(Varint(ZigZag(v.i))[..n]);
    case Fixed32Type =>
    case Fixed64Type =>
    case BytesType => CutPayload(v.b, n);
    case StringType => CutPayload(v.b[..TextLength(v.b, f.dataSize)], n);
    case FixedLengthBytesType => CutPayload(v.b, n);
    case Submessage(fields) => CutPayload(EncodeMessage(fields, v.slots).value, n);
  }

  lemma {:induction false} CutPayload(s: seq<byte>, n: nat)
    requires |Prefixed(s)| < TWO_32 && n < |Prefixed(s)|
    ensures ReadPrefixed(Prefixed(s)[..n]).None?
    ensures ReadVarint32(Prefixed(s)[..n]).Got? ==> ReadVarint32(Prefixed(s)[..n]).value > 0
  {
    CutPrefixed(s, n);
  }

  lemma {:induction false} CutSkip(f: Field, v: Value, n: nat)
    requires EncodeValue(f, v).Some? && |EncodeValue(f, v).value| < TWO_32 && n < |EncodeValue(f, v).value|
    ensures SkipField(WireNumber(FieldWireType(f.ltype)), EncodeValue(f, v).value[..n]).None?
  {
    hide ReadVarint, ReadVarint32, Varint, Prefixed, EncodeMessage;
    match f.ltype
    case VarintType => CutVarint(Unsigned64(v.i), n); NoVarint(Varint(Unsigned64(v.i))[..n]);
    case UvarintType => CutVarint(Unsigned64(v.i), n); NoVarint(Varint(Unsigned64(v.i))[..n]);
    case SvarintType => CutVarint(ZigZag(v.i), n); NoVarint(Varint(ZigZag(v.i))[..n]);
    case Fixed32Type =>
    case Fixed64Type =>
    case BytesType => CutLength(v.b, n);
    case StringType => CutLength(v.b[..TextLength(v.b, f.dataSize)], n);
    case FixedLengthBytesType => CutLength(v.b, n);
    case Submessage(fields) => CutLength(EncodeMessage(fields, v.slots).value, n);
  }

  lemma {:induction false} CutLength(s: seq<byte>, n: nat)
    requires |Prefixed(s)| < TWO_32 && n < |Prefixed(s)|
    ensures SkipString(Prefixed(s)[..n]).None?
  {
    CutPrefixed(s, n);
  }

  // ----- fields

  /** Nothing in `kept` makes the payload p of wire type `wire`, behind this tag, into a value. */
  ghost predicate Refuses(kept: seq<Field>, tag: nat, wire: nat, p: seq<byte>) {
    && SkipField(wire, p).None?
    && forall k, slot | 0 <= k < |kept| && kept[k].tag == tag :: DecodeField(kept[k], slot, wire, p).None?
  }

  /** A tag cut short, or a tag whose payload is refused. */
  lemma {:induction false} CutTagged(kept: seq<Field>, d: Partial, tag: nat, wire: nat, payload: seq<byte>, n: nat)
    requires Fits(kept, d) && 0 < tag < 0x2000_0000 && wire < 8
    requires 0 < n < |Varint(tag * 8 + wire)| + |payload|
    requires forall m: nat | m < |payload| :: Refuses(kept, tag, wire, payload[..m])
    ensures DecodeLoop(kept, d, (Varint(tag * 8 + wire) + payload)[..n]).None?
  {
    var t := Varint(tag * 8 + wire);
    var s := (t + payload)[..n];
    hide DecodeField, SkipField, Find, Varint, ReadVarint32;
    if n < |t| {
      assert s == t[..n];
      CutVarint(tag * 8 + wire, n);
      NoVarint(s);
    } else {
      var m := n - |t|;
      assert s == t + payload[..m];
      TagReadsBack(tag, wire, payload[..m]);
      assert Refuses(kept, tag, wire, payload[..m]);
      hide ReadTag;
      PayloadFails(kept, d, s, tag, wire, payload[..m]);
    }
  }

  lemma {:induction false} PayloadFails(kept: seq<Field>, d: Partial, s: seq<byte>, tag: nat, wire: nat, p: seq<byte>)
    requires Fits(kept, d) && s != [] && ReadTag(s) == FieldTag(tag, wire, p) && tag > 0
    requires Refuses(kept, tag, wire, p)
    ensures DecodeLoop(kept, d, s).None?
  {
    hide DecodeField, SkipField, ReadTag;
    if kept != [] {
      var found := Find(kept, d.pos, tag);
      if found.Some? {
        SlotsAscend(kept, found.value, found.value);
      }
    }
    hide Find;
    assert DecodeOne(kept, d, s) == Failed;
  }

  /**
     One item with its tag, as it is written, cut anywhere: a reader refuses it, whether it knows
     the field, and then as the writer does, or not.
   */
  lemma {:induction false} CutItemRefused(kept: seq<Field>, d: Partial, f: Field, v: Value, n: nat)
    requires Fits(kept, d) && 0 < f.tag < 0x2000_0000 && Compatible(kept, [f])
    requires EncodeValue(f, v).Some? && |EncodeValue(f, v).value| < TWO_32
    requires 0 < n < |TagFor(f) + EncodeValue(f, v).value|
    ensures DecodeLoop(kept, d, (TagFor(f) + EncodeValue(f, v).value)[..n]).None?
  {
    var e, wire := EncodeValue(f, v).value, WireNumber(FieldWireType(f.ltype));
    forall m: nat | m < |e|
      ensures Refuses(kept, f.tag, wire, e[..m])
    {
      CutSkip(f, v, m);
      forall k, slot | 0 <= k < |kept| && kept[k].tag == f.tag
        ensures DecodeField(kept[k], slot, wire, e[..m]).None?
      {
        assert kept[k] == [f][0].(dataOffset := kept[k].dataOffset);
        CutField(kept[k], slot, v, m);
      }
    }
    hide DecodeLoop, EncodeValue, Refuses, Varint;
    CutTagged(kept, d, f.tag, wire, e, n);
  }

  lemma {:induction false} CutField(f: Field, slot: Slot, v: Value, n: nat)
    requires EncodeValue(f, v).Some? && |EncodeValue(f, v).value| < TWO_32 && n < |EncodeValue(f, v).value|
    ensures DecodeField(f, slot, WireNumber(FieldWireType(f.ltype)), EncodeValue(f, v).value[..n]).None?
  {
    hide DecodeValue, EncodeValue;
    match slot
    case Single(old_) => CutValue(f, old_, v, n);
    case Opt(_, old_) => CutValue(f, old_, v, n);
    case Rep(_) => CutValue(f, DefaultValue(f), v, n);
    case Union(_, old_) => CutValue(f, if f.ltype.Submessage? then DefaultValue(f) else old_, v, n);
  }

  /** And so is a packed array. */
  lemma {:induction false} CutArrayRefused(kept: seq<Field>, d: Partial, f: Field, items: seq<Value>, n: nat)
    requires Fits(kept, d) && 0 < f.tag < 0x2000_0000 && Compatible(kept, [f])
    requires f.ltype.Packable() && f.htype == Repeated && items != []
    requires EncodeArray(f, items).Some? && |EncodeArray(f, items).value| < TWO_32
    requires 0 < n < |EncodeArray(f, items).value|
    ensures DecodeLoop(kept, d, EncodeArray(f, items).value[..n]).None?
  {
    var payload := Prefixed(EncodeItems(f, items).value);
    hide DecodeLoop, Varint, ReadVarint32, Prefixed, EncodeItems, DecodeValue;
    assert EncodeArray(f, items).value == Varint(f.tag * 8 + 2) + payload;
    forall m: nat | m < |payload|
      ensures Refuses(kept, f.tag, 2, payload[..m])
    {
      CutPayload(EncodeItems(f, items).value, m);
      CutLength(EncodeItems(f, items).value, m);
      forall k, slot | 0 <= k < |kept| && kept[k].tag == f.tag
        ensures DecodeField(kept[k], slot, 2, payload[..m]).None?
      {
        assert kept[k] == [f][0].(dataOffset := kept[k].dataOffset);
      }
    }
    hide Refuses;
    CutTagged(kept, d, f.tag, 2, payload, n);
  }

  // ----- messages

  /** n octets of the items are whole items. */
  ghost predicate BetweenItems(f: Field, items: seq<Value>, n: nat)
    decreases |items|
  {
    || n == 0
    || (items != [] && EncodeValue(f, items[0]).Some? &&
        var k := |TagFor(f) + EncodeValue(f, items[0]).value|;
        k <= n && BetweenItems(f, items[1..], n - k))
  }

  /** n octets of the field are all of it, or whole items of it. */
  ghost predicate BetweenFields(f: Field, slot: Slot, n: nat) {
    || n == 0 || (EncodeField(f, slot).Some? && n == |EncodeField(f, slot).value|)
    || (slot.Rep? && !f.ltype.Packable() && BetweenItems(f, slot.items, n))
  }

  /** n octets of the fields from i on end between fields or items. */
  ghost predicate AtBoundary(fields: seq<Field>, there: seq<Slot>, i: nat, n: nat)
    decreases |fields| - i
  {
    if i >= |fields| || SlotOf(fields, i) >= |there| then n == 0
    else
      var (f, slot) := (fields[i], there[SlotOf(fields, i)]);
      || BetweenFields(f, slot, n)
      || (EncodeField(f, slot).Some? &&
          var k := |EncodeField(f, slot).value|; k <= n && AtBoundary(fields, there, i + 1, n - k))
  }

  lemma {:induction false} CutItems(kept: seq<Field>, d: Partial, f: Field, items: seq<Value>, n: nat)
    requires TagsOkTree(kept) && Fits(kept, d) && 0 < f.tag < 0x2000_0000 && Compatible(kept, [f])
    requires (forall x | x in items :: TypedValue(f, x)) && EncodeTagged(f, items).Some?
    requires |EncodeTagged(f, items).value| < TWO_32 && n <= |EncodeTagged(f, items).value|
    ensures DecodeLoop(kept, d, EncodeTagged(f, items).value[..n]).Some? ==> BetweenItems(f, items, n)
    decreases |items|
  {
    hide DecodeLoop, EncodeValue, TagFor, TypedValue, EncodeTagged, TagsOkTree, Compatible, Fits;
    if n == 0 {
    } else if items == [] {
      NoItemsWritten(f);
    } else {
      hide BetweenItems;
      FirstItemWritten(f, items);
      var v, later := items[0], EncodeTagged(f, items[1..]).value;
      var e := TagFor(f) + EncodeValue(f, v).value;
      CutSum(e, later, n);
      if n < |e| {
        CutItemRefused(kept, d, f, v, n);
      } else {
        var mid := PastItem(kept, d, f, v, later[..n - |e|]);
        if DecodeLoop(kept, d, e + later[..n - |e|]).Some? {
          CutItems(kept, mid, f, items[1..], n - |e|);
          ItemsGoOn(f, items, n);
        }
      }
    }
  }

  lemma {:induction false} NoItemsWritten(f: Field)
    ensures EncodeTagged(f, []) == Some([])
  {
  }

  lemma {:induction false} FirstItemWritten(f: Field, items: seq<Value>)
    requires items != [] && EncodeTagged(f, items).Some?
    ensures EncodeValue(f, items[0]).Some? && EncodeTagged(f, items[1..]).Some?
    ensures var e := TagFor(f) + EncodeValue(f, items[0]).value;
      EncodeTagged(f, items).value == e + EncodeTagged(f, items[1..]).value
  {
    hide EncodeValue, TagFor;
  }

  /** The first n octets of a sum. */
  lemma {:induction false} CutSum(a: seq<byte>, b: seq<byte>, n: nat)
    requires n <= |a + b|
    ensures (a + b)[..n] == if n < |a| then a[..n] else a + b[..n - |a|]
  {
  }

  lemma {:induction false} ItemsGoOn(f: Field, items: seq<Value>, n: nat)
    requires items != [] && EncodeValue(f, items[0]).Some?
    requires var k := |TagFor(f) + EncodeValue(f, items[0]).value|; k <= n && BetweenItems(f, items[1..], n - k)
    ensures BetweenItems(f, items, n)
  {
  }

  /** Past one item: whether the reader keeps it, passes over it or refuses it. */
  lemma {:induction false} PastItem(kept: seq<Field>, d: Partial, f: Field, v: Value, t: seq<byte>)
      returns (mid: Partial)
    requires TagsOkTree(kept) && Fits(kept, d) && 0 < f.tag < 0x2000_0000 && Compatible(kept, [f])
    requires TypedValue(f, v) && EncodeValue(f, v).Some? && |EncodeValue(f, v).value| < TWO_32
    ensures Fits(kept, mid)
    ensures var s := TagFor(f) + EncodeValue(f, v).value + t;
      DecodeLoop(kept, d, s).None? || DecodeLoop(kept, d, s) == DecodeLoop(kept, mid, t)
  {
    match IndexOf(kept, f.tag)
    case None =>
      hide DecodeLoop, EncodeValue, TagsOkTree, Compatible, TagFor;
      ItemUnknown(kept, d, f, v, t);
      mid := d;
    case Some(k) =>
      assert kept[k] == [f][0].(dataOffset := kept[k].dataOffset);
      SameValue(f, kept[k].dataOffset, v);
      SlotHere(kept, d, k);
      hide DecodeLoop, EncodeValue, TagsOkTree, Compatible, ItemInto, TypedValue, Seen, TagFor;
      mid := TaggedItemMeets(kept, d, k, v, t);
  }

  lemma {:induction false} SameValue(f: Field, offset: nat, v: Value)
    ensures var g := f.(dataOffset := offset);
      TagFor(g) == TagFor(f) && EncodeValue(g, v) == EncodeValue(f, v) && (TypedValue(g, v) <==> TypedValue(f, v))
  {
  }

  lemma {:induction false} CutOneField(kept: seq<Field>, d: Partial, f: Field, slot: Slot, n: nat)
    requires TagsOkTree(kept) && Fits(kept, d) && 0 < f.tag < 0x2000_0000 && Compatible(kept, [f])
    requires TypedSlot(f, slot) && EncodeField(f, slot).Some? && |EncodeField(f, slot).value| < TWO_32
    requires n < |EncodeField(f, slot).value|
    ensures DecodeLoop(kept, d, EncodeField(f, slot).value[..n]).Some? ==> BetweenFields(f, slot, n)
  {
    hide DecodeLoop, EncodeField, EncodeValue, EncodeItems, EncodeTagged, TypedSlot, TagFor, Absent, TagsOkTree;
    hide Compatible, BetweenItems, EncodeArray, TypedValue;
    if n == 0 {
    } else if Absent(f, slot) {
      NothingWritten(f, slot);
    } else if slot.Rep? {
      WrittenItems(f, slot);
      RepeatedWrites(f, slot);
      if f.ltype.Packable() {
        CutArrayRefused(kept, d, f, slot.items, n);
      } else {
        UnpackedWrites(f, slot.items);
        CutItems(kept, d, f, slot.items, n);
      }
    } else {
      var v := WrittenValue(f, slot);
      CutItemRefused(kept, d, f, v, n);
    }
  }

  lemma {:induction false} UnpackedWrites(f: Field, items: seq<Value>)
    requires !f.ltype.Packable() && items != [] && EncodeArray(f, items).Some?
    ensures EncodeArray(f, items) == EncodeTagged(f, items)
  {
    hide EncodeTagged;
  }

  lemma {:induction false} CutFrom(
      kept: seq<Field>, d: Partial, fields: seq<Field>, there: seq<Slot>, i: nat, n: nat)
    requires TagsOkTree(kept) && TagsOk(fields) && Compatible(kept, fields) && Typed(fields, there)
    requires |there| == SlotCount(fields) && i <= |fields| && Fits(kept, d)
    requires EncodeFrom(fields, there, i).Some? && |EncodeFrom(fields, there, i).value| < TWO_32
    requires n <= |EncodeFrom(fields, there, i).value|
    ensures DecodeLoop(kept, d, EncodeFrom(fields, there, i).value[..n]).Some? ==> AtBoundary(fields, there, i, n)
    decreases |fields| - i
  {
    hide DecodeLoop, EncodeField, EncodeFrom, TagsOkTree, TagsOk, Typed, TypedSlot, AtBoundary, BetweenFields;
    hide SlotCount, SlotOf, Fits, Compatible;
    if i == |fields| {
      NoneAfter(fields, there);
    } else {
      FieldThenRest(kept, fields, there, i);
      BoundaryGoesOn(fields, there, i, n);
      var f, slot := fields[i], there[SlotOf(fields, i)];
      var e, rest := EncodeField(f, slot).value, EncodeFrom(fields, there, i + 1).value;
      OneOf(kept, f);
      if n < |e| {
        assert (e + rest)[..n] == e[..n];
        CutOneField(kept, d, f, slot, n);
      } else {
        var t := rest[..n - |e|];
        assert (e + rest)[..n] == e + t;
        var mid := PastField(kept, d, f, slot, t);
        CutFrom(kept, mid, fields, there, i + 1, n - |e|);
      }
    }
  }

  lemma {:induction false} NoneAfter(fields: seq<Field>, there: seq<Slot>)
    requires |there| == SlotCount(fields)
    ensures EncodeFrom(fields, there, |fields|) == Some([]) && AtBoundary(fields, there, |fields|, 0)
  {
  }

  /** Past one field: whether the reader keeps it, passes over it or refuses it. */
  lemma {:induction false} PastField(kept: seq<Field>, d: Partial, f: Field, slot: Slot, t: seq<byte>)
      returns (mid: Partial)
    requires TagsOkTree(kept) && Fits(kept, d) && 0 < f.tag < 0x2000_0000 && Compatible(kept, [f])
    requires TypedSlot(f, slot) && EncodeField(f, slot).Some? && |EncodeField(f, slot).value| < TWO_32
    ensures Fits(kept, mid)
    ensures var s := EncodeField(f, slot).value + t;
      DecodeLoop(kept, d, s).None? || DecodeLoop(kept, d, s) == DecodeLoop(kept, mid, t)
  {
    forall k | 0 <= k < |kept| && kept[k].tag == f.tag
      ensures kept[k] == f.(dataOffset := kept[k].dataOffset)
    {
      assert kept[k] == [f][0].(dataOffset := kept[k].dataOffset);
    }
    assert |d.slots| == SlotCount(kept);
    hide DecodeLoop, EncodeField, TagsOkTree, TypedSlot, Gives, ReadField, KnownSeen, SlotCount, Fits, Compatible;
    mid := OneField(kept, d, f, slot, t);
    GivesOrNot(kept, d, EncodeField(f, slot).value + t, mid, t, ReadField(kept, d.slots, f, slot));
  }

  lemma {:induction false} BoundaryGoesOn(fields: seq<Field>, there: seq<Slot>, i: nat, n: nat)
    requires i < |fields| && SlotOf(fields, i) < |there|
    requires EncodeField(fields[i], there[SlotOf(fields, i)]).Some?
    ensures var (f, slot) := (fields[i], there[SlotOf(fields, i)]);
      var k := |EncodeField(f, slot).value|;
      BetweenFields(f, slot, n) || (k <= n && AtBoundary(fields, there, i + 1, n - k)) ==>
      AtBoundary(fields, there, i, n)
  {
    hide BetweenFields, EncodeField;
  }

  lemma {:induction false} OneOf(kept: seq<Field>, f: Field)
    requires forall k | 0 <= k < |kept| && kept[k].tag == f.tag :: kept[k] == f.(dataOffset := kept[k].dataOffset)
    ensures Compatible(kept, [f])
  {
  }

  lemma {:induction false} GivesOrNot(
      kept: seq<Field>, d: Partial, s: seq<byte>, d': Partial, t: seq<byte>, result: Option<seq<Slot>>)
    requires Gives(kept, d, s, d', t, result)
    ensures Fits(kept, d) && Fits(kept, d')
    ensures DecodeLoop(kept, d, s).None? || DecodeLoop(kept, d, s) == DecodeLoop(kept, d', t)
  {
    hide DecodeLoop;
  }

  /**
     An encoding that is cut anywhere is refused, by its writer's descriptor and by any other that
     agrees with it, unless the cut is between fields or between the items of an array.
   */
  lemma {:induction false} CutMessageRefused(
      kept: seq<Field>, here: seq<Slot>, fields: seq<Field>, there: seq<Slot>, n: nat)
    requires TagsOkTree(kept) && TagsOk(fields) && Compatible(kept, fields) && Typed(fields, there)
    requires EncodeMessage(fields, there).Some? && |EncodeMessage(fields, there).value| < TWO_32
    requires n <= |EncodeMessage(fields, there).value|
    ensures DecodeNoinit(kept, here, EncodeMessage(fields, there).value[..n]).Some? ==>
      AtBoundary(fields, there, 0, n)
  {
    hide DecodeLoop, EncodeFrom, TagsOkTree, TagsOk, Compatible, AtBoundary;
    assert |there| == SlotCount(fields);
    hide Typed;
    if |here| == SlotCount(kept) {
      CutFrom(kept, Partial(here, {}, 0), fields, there, 0, n);
    }
  }
}
