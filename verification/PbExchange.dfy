/**
 What one program writes and another reads, into whatever struct it holds already: merging,
 where the last value wins and arrays grow, and readers whose descriptor is older or newer
 than the writer's.
 */
module PbExchange {
  import opened Octets
  import opened Fragments
  import opened PbWire
  import opened PbMessage
  import opened PbEncode
  import opened PbDecode
  import opened PbMerge
  import opened PbRoundTrip
  import opened PbConcat

  // ----- merging structs

  /** The value v read into a field that held `old_`: a submessage is merged, all else replaced. */
  function MergeValue(f: Field, old_: Value, v: Value): (r: Option<Value>)
    decreases f, 0
  {
    match f.ltype
    case Submessage(fields) =>
      if !v.Struct? then None
      else
        var start := if f.htype == Repeated || !old_.Struct? then DefaultSlots(fields) else old_.slots;
        (match Merged(fields, start, v.slots)
         case None => None
         case Some(slots) => Some(Struct(slots)))
    case _ => Some(NormalValue(f, v))
  }

  /** Items go behind those that are there, while the array has room. */
  function MergeItems(f: Field, done: seq<Value>, items: seq<Value>): (r: Option<seq<Value>>)
    decreases f, 1, |items|
  {
    if items == [] then Some(done)
    else if |done| >= f.arraySize then None
    else
      match MergeValue(f, DefaultValue(f), items[0])
      case None => None
      case Some(x) => MergeItems(f, done + [x], items[1..])
  }

  function InSlot(v: Option<Value>, wrap: Value -> Slot): Option<Slot> {
    match v
    case None => None
    case Some(x) => Some(wrap(x))
  }

  /** The slot `here` after the field with slot `there` has been read: what is absent leaves it alone. */
  function MergeSlot(f: Field, here: Slot, there: Slot): (r: Option<Slot>)
    decreases f, 2
  {
    if Absent(f, there) then Some(here)
    else
      match (here, there)
      case (Single(old_), Single(v)) => InSlot(MergeValue(f, old_, v), x => Single(x))
      case (Opt(_, old_), Opt(_, v)) => InSlot(MergeValue(f, old_, v), x => Opt(true, x))
      case (Rep(done), Rep(items)) =>
        (match MergeItems(f, done, items)
         case None => None
         case Some(all) => Some(Rep(all)))
      case (Union(_, old_), Union(_, v)) =>
        InSlot(MergeValue(f, if f.ltype.Submessage? then DefaultValue(f) else old_, v), x => Union(f.tag, x))
      case _ => None
  }

  function IndexOf(fields: seq<Field>, tag: nat): (r: Option<nat>)
    ensures r.Some? ==> r.value < |fields| && fields[r.value].tag == tag
    ensures r.None? ==> forall i | 0 <= i < |fields| :: fields[i].tag != tag
  {
    if fields == [] then None else Find(fields, 0, tag)
  }

  /** The fields of `there` from n on, read into `here` by a program that knows the fields of `kept`. */
  function Absorbed(kept: seq<Field>, here: seq<Slot>, fields: seq<Field>, there: seq<Slot>, n: nat):
    (r: Option<seq<Slot>>)
    requires |here| == SlotCount(kept) && |there| == SlotCount(fields)
    ensures r.Some? ==> |r.value| == SlotCount(kept)
    decreases kept, 3, |fields| - n
  {
    if n >= |fields| then Some(here)
    else
      SlotsAscend(fields, n, n);
      match IndexOf(kept, fields[n].tag)
      case None => Absorbed(kept, here, fields, there, n + 1)
      case Some(k) =>
        SlotsAscend(kept, k, k);
        var s := SlotOf(kept, k);
        match MergeSlot(kept[k], here[s], there[SlotOf(fields, n)])
        case None => None
        case Some(x) => Absorbed(kept, here[s := x], fields, there, n + 1)
  }

  /** `there` merged into `here`; None when an array of `here` has not the room. */
  function Merged(fields: seq<Field>, here: seq<Slot>, there: seq<Slot>): (r: Option<seq<Slot>>)
    decreases fields, 4
  {
    if |here| != SlotCount(fields) || |there| != SlotCount(fields) then None
    else Absorbed(fields, here, fields, there, 0)
  }

  // ----- descriptors

  ghost predicate TagsOkField(f: Field)
    decreases f
  {
    0 < f.tag < 0x2000_0000 && (f.ltype.Submessage? ==> TagsOkTree(f.ltype.fields))
  }

  /** Distinct tags that the wire can carry, at every depth. */
  ghost predicate TagsOkTree(fields: seq<Field>)
    decreases fields
  {
    DistinctTags(fields) && forall i | 0 <= i < |fields| :: TagsOkField(fields[i])
  }

  lemma {:induction false} TreeTags(fields: seq<Field>)
    requires TagsOkTree(fields)
    ensures TagsOk(fields)
  {
    forall f | f in fields ensures 0 < f.tag < 0x2000_0000 {
      var i :| 0 <= i < |fields| && fields[i] == f;
      assert TagsOkField(fields[i]);
    }
  }

  /** Fields with the same tag are the same but for their place in the struct. */
  ghost predicate Compatible(kept: seq<Field>, fields: seq<Field>) {
    forall k, n | 0 <= k < |kept| && 0 <= n < |fields| && kept[k].tag == fields[n].tag ::
      kept[k] == fields[n].(dataOffset := kept[k].dataOffset)
  }

  lemma {:induction false} SameItems(f: Field, offset: nat, items: seq<Value>)
    ensures EncodeItems(f.(dataOffset := offset), items) == EncodeItems(f, items)
    ensures EncodeTagged(f.(dataOffset := offset), items) == EncodeTagged(f, items)
    decreases |items|
  {
    if items != [] {
      SameItems(f, offset, items[1..]);
    }
  }

  /** Where a field lies makes no difference to what is written for it. */
  lemma {:induction false} SameWriting(f: Field, offset: nat, slot: Slot)
    ensures var g := f.(dataOffset := offset);
      EncodeField(g, slot) == EncodeField(f, slot) && (TypedSlot(g, slot) <==> TypedSlot(f, slot))
  {
    if slot.Rep? {
      SameItems(f, offset, slot.items);
    }
  }

  // ----- the wire type says how long a payload is

  lemma {:induction false} VarintIsPayload(v: nat)
    ensures WellFormedPayload(0, Varint(v))
    decreases v
  {
    if v >= 128 {
      VarintIsPayload(v / 128);
    }
  }

  lemma {:induction false} PrefixedIsPayload(s: seq<byte>)
    requires |s| < TWO_32
    ensures WellFormedPayload(2, Prefixed(s))
  {
    assert LengthDelimited(Prefixed(s), |s|);
  }

  /** What is written for a value is a payload of the wire type in its tag. */
  lemma {:induction false} PayloadIsWellFormed(f: Field, v: Value)
    requires EncodeValue(f, v).Some? && |EncodeValue(f, v).value| < TWO_32
    ensures WellFormedPayload(WireNumber(FieldWireType(f.ltype)), EncodeValue(f, v).value)
  {
    var s := EncodeValue(f, v).value;
    match f.ltype
    case VarintType => VarintIsPayload(Unsigned64(v.i));
    case UvarintType => VarintIsPayload(Unsigned64(v.i));
    case SvarintType => VarintIsPayload(ZigZag(v.i));
    case Fixed32Type =>
    case Fixed64Type =>
    case BytesType => PrefixedIsPayload(v.b);
    case StringType => PrefixedIsPayload(v.b[..TextLength(v.b, f.dataSize)]);
    case FixedLengthBytesType => PrefixedIsPayload(v.b);
    case Submessage(fields) => PrefixedIsPayload(EncodeMessage(fields, v.slots).value);
  }

  /** So a reader that does not know the field finds its end by the wire type alone. */
  lemma {:induction false} SkipsWhatIsWritten(f: Field, v: Value, t: seq<byte>)
    requires EncodeValue(f, v).Some? && |EncodeValue(f, v).value| < TWO_32
    ensures SkipField(WireNumber(FieldWireType(f.ltype)), EncodeValue(f, v).value + t) == Some(t)
  {
    PayloadIsWellFormed(f, v);
    SkipsExactly(WireNumber(FieldWireType(f.ltype)), EncodeValue(f, v).value, t);
  }

  /** Likewise a packed array, whose wire type is 2. */
  lemma {:induction false} SkipsPacked(f: Field, items: seq<Value>, t: seq<byte>)
    requires EncodeItems(f, items).Some? && |EncodeItems(f, items).value| < TWO_32
    ensures SkipField(2, Prefixed(EncodeItems(f, items).value) + t) == Some(t)
    ensures f.ltype.Packable() && 0 < |items| <= f.arraySize ==>
      EncodeArray(f, items) == Some(Varint(f.tag * 8 + 2) + Prefixed(EncodeItems(f, items).value))
  {
    PrefixedIsPayload(EncodeItems(f, items).value);
    SkipsExactly(2, Prefixed(EncodeItems(f, items).value), t);
  }

  // ----- reading a known field

  /** Reading s in front of t is refused, or makes the slots `result` and goes on from d'. */
  ghost predicate Gives(
      kept: seq<Field>, d: Partial, s: seq<byte>, d': Partial, t: seq<byte>, result: Option<seq<Slot>>) {
    && Fits(kept, d) && Fits(kept, d') && d.seen <= d'.seen
    && match result
       case None => DecodeLoop(kept, d, s).None?
       case Some(slots) => d'.slots == slots && DecodeLoop(kept, d, s) == DecodeLoop(kept, d', t)
  }

  lemma {:induction false} GivesNothing(kept: seq<Field>, d: Partial, t: seq<byte>)
    requires Fits(kept, d)
    ensures Gives(kept, d, t, d, t, Some(d.slots))
  {
    hide DecodeLoop;
  }

  lemma {:induction false} GivesThen(
      kept: seq<Field>, d: Partial, s: seq<byte>, mid: Partial, t: seq<byte>, d': Partial, u: seq<byte>,
      result: Option<seq<Slot>>)
    requires Gives(kept, d, s, mid, t, Some(mid.slots)) && Gives(kept, mid, t, d', u, result)
    ensures Gives(kept, d, s, d', u, result)
  {
    hide DecodeLoop;
  }

  lemma {:induction false} Merges(fields: seq<Field>, here: seq<Slot>, there: seq<Slot>)
    requires TagsOkTree(fields) && Typed(fields, there)
    requires EncodeMessage(fields, there).Some? && |EncodeMessage(fields, there).value| < TWO_32
    ensures DecodeNoinit(fields, here, EncodeMessage(fields, there).value) ==
      match Merged(fields, here, there) { case None => None case Some(slots) => Some(Read(slots, [])) }
    decreases fields, 5
  {
    hide DecodeLoop, EncodeMessage, Absorbed;
    assert |there| == SlotCount(fields);
    hide Typed;
    if |here| == SlotCount(fields) {
      TreeTags(fields);
      SameDescriptor(fields);
      hide TagsOkTree, TagsOk, Compatible, AllSent;
      Reads(fields, here, fields, there);
    }
  }

  lemma {:induction false} SameDescriptor(fields: seq<Field>)
    requires DistinctTags(fields)
    ensures Compatible(fields, fields) && AllSent(fields, fields)
  {
    forall k, n | 0 <= k < |fields| && 0 <= n < |fields| && fields[k].tag == fields[n].tag
      ensures fields[k] == fields[n].(dataOffset := fields[k].dataOffset)
    {
      assert k == n;
    }
    forall i: nat | Tracked(fields, i)
      ensures Sent(fields, i, fields, 0)
    {
      assert fields[i].tag == fields[i].tag;
    }
  }

  lemma {:induction false} Unread(
      kept: seq<Field>, d: Partial, s: seq<byte>, t: seq<byte>, d': Partial, u: seq<byte>, result: Option<seq<Slot>>)
    requires Gives(kept, d, t, d', u, result) && DecodeLoop(kept, d, s) == DecodeLoop(kept, d, t)
    ensures Gives(kept, d, s, d', u, result)
  {
    hide DecodeLoop;
  }

  lemma {:induction false} SeenGrows(kept: seq<Field>, d: Partial, s: seq<byte>, d': Partial, result: Option<seq<Slot>>)
    requires Gives(kept, d, s, d', [], result)
    ensures d.seen <= d'.seen
  {
    hide DecodeLoop;
  }

  lemma {:induction false} NowSent(kept: seq<Field>, mid: Partial, d': Partial, fields: seq<Field>, n: nat)
    requires n < |fields| && mid.seen <= d'.seen
    requires KnownSeen(kept, fields[n].tag, mid.seen) && SentSeen(kept, fields, n + 1, d'.seen)
    ensures SentSeen(kept, fields, n, d'.seen)
  {
    forall i: nat | Sent(kept, i, fields, n)
      ensures RequiredIndex(kept, i) in d'.seen
    {
      if kept[i].tag != fields[n].tag {
        assert Sent(kept, i, fields, n + 1);
      }
    }
  }

  lemma {:induction false} ValueMeets(f: Field, old_: Value, v: Value, t: seq<byte>)
    requires TagsOkField(f) && TypedValue(f, v)
    requires EncodeValue(f, v).Some? && |EncodeValue(f, v).value| < TWO_32
    ensures DecodeValue(f, old_, EncodeValue(f, v).value + t) == WithRest(MergeValue(f, old_, v), t)
    decreases f, 0
  {
    if f.ltype.Packable() {
      IntegerRoundTrip(f, old_, v, t);
    } else if f.ltype.Submessage? {
      var fields := f.ltype.fields;
      var start := if f.htype == Repeated || !old_.Struct? then DefaultSlots(fields) else old_.slots;
      PrefixedReadsBack(EncodeMessage(fields, v.slots).value, t);
      Merges(fields, start, v.slots);
      hide EncodeMessage, DecodeNoinit, ReadVarint32, Merged;
    } else {
      CharsRoundTrip(f, old_, v, t);
    }
  }

  /** What an item makes of a slot: one more of an array, or the value of the field. */
  function ItemInto(f: Field, here: Slot, v: Value): (r: Option<Slot>) {
    match here
    case Rep(done) =>
      if f.htype != Repeated || f.sizeOffset == 0 || |done| >= f.arraySize then None
      else InSlot(MergeValue(f, DefaultValue(f), v), x => Rep(done + [x]))
    case Single(old_) =>
      if f.htype == Required || (f.htype == Optional && f.sizeOffset == 0)
      then InSlot(MergeValue(f, old_, v), x => Single(x)) else None
    case Opt(_, old_) =>
      if f.htype == Optional && f.sizeOffset != 0 then InSlot(MergeValue(f, old_, v), x => Opt(true, x)) else None
    case Union(_, old_) =>
      if f.htype == Oneof
      then InSlot(MergeValue(f, if f.ltype.Submessage? then DefaultValue(f) else old_, v), x => Union(f.tag, x))
      else None
  }

  lemma {:induction false} ItemMeets(f: Field, here: Slot, v: Value, t: seq<byte>)
    requires TagsOkField(f) && TypedValue(f, v)
    requires EncodeValue(f, v).Some? && |EncodeValue(f, v).value| < TWO_32
    ensures DecodeField(f, here, WireNumber(FieldWireType(f.ltype)), EncodeValue(f, v).value + t) ==
      match ItemInto(f, here, v) { case None => None case Some(x) => Some(Read(x, t)) }
    decreases f, 1
  {
    hide DecodeValue, EncodeValue, MergeValue, TypedValue, DefaultValue;
    match here
    case Single(old_) => ValueMeets(f, old_, v, t);
    case Opt(_, old_) => ValueMeets(f, old_, v, t);
    case Rep(_) => ValueMeets(f, DefaultValue(f), v, t);
    case Union(_, old_) => ValueMeets(f, if f.ltype.Submessage? then DefaultValue(f) else old_, v, t);
  }

  /** A field that the reader knows: its slot becomes what the decoder makes of it, or all is refused. */
  lemma {:induction false} TagGives(
      kept: seq<Field>, d: Partial, k: nat, wire: nat, body: seq<byte>, t: seq<byte>, x: Option<Slot>)
      returns (d': Partial)
    requires TagsOk(kept) && k < |kept| && Fits(kept, d) && SlotOf(kept, k) < |d.slots| && wire < 8
    requires DecodeField(kept[k], d.slots[SlotOf(kept, k)], wire, body + t) ==
      match x { case None => None case Some(y) => Some(Read(y, t)) }
    ensures Gives(kept, d, Varint(kept[k].tag * 8 + wire) + body + t, d', t,
                  match x { case None => None case Some(y) => Some(d.slots[SlotOf(kept, k) := y]) })
    ensures x.Some? ==> Seen(kept, d.seen, k) <= d'.seen
  {
    hide DecodeLoop, DecodeField, TagsOk, Varint, SlotOf;
    if x.Some? {
      TaggedStep(kept, d, k, wire, body, t, x.value);
      d' := Partial(d.slots[SlotOf(kept, k) := x.value], Seen(kept, d.seen, k), k);
    } else {
      TagRefused(kept, d, k, wire, body + t);
      assert Varint(kept[k].tag * 8 + wire) + body + t == Varint(kept[k].tag * 8 + wire) + (body + t);
      d' := d;
    }
  }

  lemma {:induction false} TaggedItemMeets(kept: seq<Field>, d: Partial, k: nat, v: Value, t: seq<byte>)
      returns (d': Partial)
    requires TagsOkTree(kept) && k < |kept| && Fits(kept, d) && SlotOf(kept, k) < |d.slots|
    requires var f := kept[k];
      TypedValue(f, v) && EncodeValue(f, v).Some? && |EncodeValue(f, v).value| < TWO_32
    ensures var x := ItemInto(kept[k], d.slots[SlotOf(kept, k)], v);
      && Gives(kept, d, TagFor(kept[k]) + EncodeValue(kept[k], v).value + t, d', t,
               match x { case None => None case Some(y) => Some(d.slots[SlotOf(kept, k) := y]) })
      && (x.Some? ==> Seen(kept, d.seen, k) <= d'.seen)
    decreases kept, 0
  {
    var f, here := kept[k], d.slots[SlotOf(kept, k)];
    assert TagsOkField(f);
    TreeTags(kept);
    hide DecodeField, DecodeLoop, EncodeValue, MergeValue, TypedValue, DefaultValue, ItemInto, TagsOkTree, TagsOk;
    hide TagFor, Gives, Seen;
    ItemMeets(f, here, v, t);
    WireOf(f);
    d' := TagGives(kept, d, k, WireNumber(FieldWireType(f.ltype)), EncodeValue(f, v).value, t, ItemInto(f, here, v));
  }

  /** Items one by one, each with its tag, as another encoder may write any array: all are appended, in order. */
  lemma {:induction false} TaggedItemsMeet(kept: seq<Field>, d: Partial, k: nat, items: seq<Value>, t: seq<byte>)
      returns (d': Partial)
    requires TagsOkTree(kept) && k < |kept| && Fits(kept, d) && SlotOf(kept, k) < |d.slots|
    requires var (f, here) := (kept[k], d.slots[SlotOf(kept, k)]);
      && f.htype == Repeated && f.sizeOffset != 0 && here.Rep? && (forall x | x in items :: TypedValue(f, x))
      && EncodeTagged(f, items).Some? && |EncodeTagged(f, items).value| < TWO_32
    ensures Gives(kept, d, EncodeTagged(kept[k], items).value + t, d', t,
      match MergeItems(kept[k], d.slots[SlotOf(kept, k)].items, items) {
        case None => None
        case Some(all) => Some(d.slots[SlotOf(kept, k) := Rep(all)]) })
    decreases kept, 1, |items|
  {
    var f, s := kept[k], SlotOf(kept, k);
    hide DecodeLoop, TypedValue, TagsOkTree, EncodeValue, TagFor, MergeValue, Seen, Gives;
    if items == [] {
      assert EncodeTagged(f, items).value + t == t && d.slots[s := Rep(d.slots[s].items)] == d.slots;
      GivesNothing(kept, d, t);
      d' := d;
    } else {
      var x, rest := items[0], items[1..];
      var e, later := EncodeValue(f, x).value, EncodeTagged(f, rest).value;
      assert EncodeTagged(f, items).value + t == TagFor(f) + e + (later + t);
      var mid := TaggedItemMeets(kept, d, k, x, later + t);
      if ItemInto(f, d.slots[s], x).Some? {
        var grown := d.slots[s := ItemInto(f, d.slots[s], x).value];
        GivesSlots(kept, d, TagFor(f) + e + (later + t), mid, later + t, grown);
        d' := TaggedItemsMeet(kept, mid, k, rest, t);
        SameUpdate(d.slots, s, ItemInto(f, d.slots[s], x).value, MergeItems(f, mid.slots[s].items, rest));
        GivesThen(kept, d, TagFor(f) + e + (later + t), mid, later + t, d', t,
          match MergeItems(f, mid.slots[s].items, rest) {
            case None => None
            case Some(all) => Some(d.slots[s := Rep(all)]) });
      } else {
        d' := d;
        Refused(kept, d, TagFor(f) + e + (later + t), mid, later + t, t);
      }
    }
  }

  lemma {:induction false} SameUpdate(slots: seq<Slot>, s: nat, x: Slot, all: Option<seq<Value>>)
    requires s < |slots|
    ensures all.Some? ==> slots[s := x][s := Rep(all.value)] == slots[s := Rep(all.value)]
  {
  }

  lemma {:induction false} GivesSlots(
      kept: seq<Field>, d: Partial, s: seq<byte>, d': Partial, t: seq<byte>, slots: seq<Slot>)
    requires Gives(kept, d, s, d', t, Some(slots))
    ensures Fits(kept, d') && d'.slots == slots && |slots| == |d.slots|
  {
    hide DecodeLoop;
  }

  lemma {:induction false} Refused(kept: seq<Field>, d: Partial, s: seq<byte>, mid: Partial, t: seq<byte>, u: seq<byte>)
    requires Gives(kept, d, s, mid, t, None)
    ensures Gives(kept, d, s, d, u, None)
  {
    hide DecodeLoop;
  }

  lemma {:induction false} PackedMeets(f: Field, done: seq<Value>, items: seq<Value>)
    requires TagsOkField(f) && f.ltype.Packable() && forall x | x in items :: TypedValue(f, x)
    ensures EncodeItems(f, items).Some?
    ensures DecodePacked(f, done, EncodeItems(f, items).value) == MergeItems(f, done, items)
    decreases |items|
  {
    if items != [] {
      var x, rest := items[0], items[1..];
      PackedMeets(f, done + [x], rest);
      IntegerRoundTrip(f, Int(0), x, EncodeItems(f, rest).value);
    }
  }

  lemma {:induction false} PackedIntoSlot(f: Field, done: seq<Value>, items: seq<Value>, t: seq<byte>)
    requires TagsOkField(f) && f.htype == Repeated && f.sizeOffset != 0 && f.ltype.Packable()
    requires forall x | x in items :: TypedValue(f, x)
    requires EncodeItems(f, items).Some? ==> |EncodeItems(f, items).value| < TWO_32
    ensures EncodeItems(f, items).Some?
    ensures DecodeField(f, Rep(done), 2, Prefixed(EncodeItems(f, items).value) + t) ==
      match MergeItems(f, done, items) { case None => None case Some(all) => Some(Read(Rep(all), t)) }
  {
    hide ReadPrefixed, Prefixed, DecodePacked, EncodeItems, MergeItems, TypedValue, DecodeValue, EncodeValue;
    PackedMeets(f, done, items);
    PrefixedReadsBack(EncodeItems(f, items).value, t);
  }

  lemma {:induction false} PackedArrayMeets(kept: seq<Field>, d: Partial, k: nat, items: seq<Value>, t: seq<byte>)
      returns (d': Partial)
    requires TagsOkTree(kept) && k < |kept| && Fits(kept, d) && SlotOf(kept, k) < |d.slots|
    requires var (f, here) := (kept[k], d.slots[SlotOf(kept, k)]);
      && f.htype == Repeated && f.sizeOffset != 0 && f.ltype.Packable() && items != [] && here.Rep?
      && (forall x | x in items :: TypedValue(f, x))
      && EncodeArray(f, items).Some? && |EncodeArray(f, items).value| < TWO_32
    ensures Gives(kept, d, EncodeArray(kept[k], items).value + t, d', t,
      match MergeItems(kept[k], d.slots[SlotOf(kept, k)].items, items) {
        case None => None
        case Some(all) => Some(d.slots[SlotOf(kept, k) := Rep(all)]) })
  {
    var f, s := kept[k], SlotOf(kept, k);
    assert TagsOkField(f);
    TreeTags(kept);
    hide DecodeLoop, DecodeField, Varint, TypedValue, EncodeItems, MergeItems, TagsOkTree, TagsOk;
    var e := EncodeItems(f, items).value;
    assert EncodeArray(f, items).value == Varint(f.tag * 8 + 2) + Prefixed(e);
    PackedIntoSlot(f, d.slots[s].items, items, t);
    hide Prefixed, EncodeArray, Gives;
    var all := MergeItems(f, d.slots[s].items, items);
    d' := TagGives(kept, d, k, 2, Prefixed(e), t, if all.Some? then Some(Rep(all.value)) else None);
  }

  lemma {:induction false} ArrayMeets(kept: seq<Field>, d: Partial, k: nat, items: seq<Value>, t: seq<byte>)
      returns (d': Partial)
    requires TagsOkTree(kept) && k < |kept| && Fits(kept, d) && SlotOf(kept, k) < |d.slots|
    requires var (f, here) := (kept[k], d.slots[SlotOf(kept, k)]);
      && f.htype == Repeated && f.sizeOffset != 0 && here.Rep? && items != []
      && (forall x | x in items :: TypedValue(f, x))
      && EncodeArray(f, items).Some? && |EncodeArray(f, items).value| < TWO_32
    ensures Gives(kept, d, EncodeArray(kept[k], items).value + t, d', t,
      match MergeItems(kept[k], d.slots[SlotOf(kept, k)].items, items) {
        case None => None
        case Some(all) => Some(d.slots[SlotOf(kept, k) := Rep(all)]) })
    decreases kept, 1, |items| + 1
  {
    hide TypedValue, TagsOkTree, MergeItems, Gives;
    if kept[k].ltype.Packable() {
      d' := PackedArrayMeets(kept, d, k, items, t);
    } else {
      d' := TaggedItemsMeet(kept, d, k, items, t);
    }
  }

  // ----- one field of a message

  /** A slot of another shape than the array's is refused, and so it is by MergeSlot. */
  lemma {:induction false} WrongShape(kept: seq<Field>, d: Partial, k: nat, items: seq<Value>, t: seq<byte>)
    requires TagsOk(kept) && k < |kept| && Fits(kept, d) && SlotOf(kept, k) < |d.slots|
    requires kept[k].htype == Repeated && !d.slots[SlotOf(kept, k)].Rep? && items != []
    requires EncodeArray(kept[k], items).Some?
    ensures Gives(kept, d, EncodeArray(kept[k], items).value + t, d, t, None)
  {
    hide DecodeLoop, DecodeValue, TagsOk, Varint, EncodeValue, Prefixed;
    var f := kept[k];
    var all := EncodeArray(f, items).value + t;
    if f.ltype.Packable() {
      var e := Prefixed(EncodeItems(f, items).value);
      assert all == Varint(f.tag * 8 + 2) + (e + t);
      TagRefused(kept, d, k, 2, e + t);
    } else {
      var e, later := EncodeValue(f, items[0]).value, EncodeTagged(f, items[1..]).value;
      WireOf(f);
      assert all == TagFor(f) + (e + later + t);
      TagRefused(kept, d, k, WireNumber(FieldWireType(f.ltype)), e + later + t);
    }
  }

  lemma {:induction false} WrittenInto(f: Field, here: Slot, there: Slot) returns (v: Value)
    requires TypedSlot(f, there) && !Absent(f, there) && !there.Rep? && EncodeField(f, there).Some?
    ensures TypedValue(f, v) && EncodeValue(f, v).Some?
    ensures EncodeField(f, there).value == TagFor(f) + EncodeValue(f, v).value
    ensures MergeSlot(f, here, there) == ItemInto(f, here, v)
  {
    hide TypedValue, EncodeValue, TagFor, IsDefaultValue, MergeValue;
    v := match there
      case Single(x) => x
      case Opt(_, x) => x
      case Union(_, x) => x;
  }

  lemma {:induction false} MergesItems(f: Field, here: Slot, there: Slot)
    requires TypedSlot(f, there) && there.Rep? && there.items != []
    ensures MergeSlot(f, here, there) ==
      if !here.Rep? then None
      else match MergeItems(f, here.items, there.items) { case None => None case Some(all) => Some(Rep(all)) }
  {
    hide MergeItems, TypedValue;
  }

  lemma {:induction false} AbsentMerges(f: Field, here: Slot, there: Slot)
    requires Absent(f, there)
    ensures MergeSlot(f, here, there) == Some(here)
  {
    hide Absent, MergeValue, MergeItems;
  }

  lemma {:induction false} FieldMeets(kept: seq<Field>, d: Partial, k: nat, there: Slot, t: seq<byte>)
      returns (d': Partial)
    requires TagsOkTree(kept) && k < |kept| && Fits(kept, d) && SlotOf(kept, k) < |d.slots|
    requires var f := kept[k];
      TypedSlot(f, there) && EncodeField(f, there).Some? && |EncodeField(f, there).value| < TWO_32
    ensures var x := MergeSlot(kept[k], d.slots[SlotOf(kept, k)], there);
      && Gives(kept, d, EncodeField(kept[k], there).value + t, d', t,
               match x { case None => None case Some(y) => Some(d.slots[SlotOf(kept, k) := y]) })
      && (x.Some? && kept[k].htype == Required ==> Seen(kept, d.seen, k) <= d'.seen)
    decreases kept, 2, 0
  {
    var f, s := kept[k], SlotOf(kept, k);
    var here := d.slots[s];
    TreeTags(kept);
    if f.htype == Required {
      RequiredIsWritten(f, there);
    }
    hide EncodeField, EncodeValue, EncodeArray, TagsOk, TagsOkTree, Absent, TagFor, TypedValue, TypedSlot, Gives;
    hide MergeSlot, MergeItems, ItemInto, Seen;
    if Absent(f, there) {
      NothingWritten(f, there);
      AbsentMerges(f, here, there);
      assert [] + t == t && d.slots[s := here] == d.slots;
      GivesNothing(kept, d, t);
      d' := d;
    } else if there.Rep? {
      RepeatedWrites(f, there);
      WrittenItems(f, there);
      MergesItems(f, here, there);
      if here.Rep? {
        d' := ArrayMeets(kept, d, k, there.items, t);
      } else {
        WrongShape(kept, d, k, there.items, t);
        d' := d;
      }
    } else {
      var v := WrittenInto(f, here, there);
      d' := TaggedItemMeets(kept, d, k, v, t);
    }
  }

  lemma {:induction false} RequiredIsWritten(f: Field, there: Slot)
    requires TypedSlot(f, there) && f.htype == Required
    ensures !Absent(f, there) && !there.Rep?
  {
  }

  lemma {:induction false} RepeatedWrites(f: Field, there: Slot)
    requires TypedSlot(f, there) && !Absent(f, there) && there.Rep? && EncodeField(f, there).Some?
    ensures f.sizeOffset != 0 && there.items != []
  {
    hide TypedValue, EncodeArray;
  }

  // ----- a field the reader does not know

  lemma {:induction false} ItemUnknown(kept: seq<Field>, d: Partial, f: Field, v: Value, t: seq<byte>)
    requires Fits(kept, d) && 0 < f.tag < 0x2000_0000 && IndexOf(kept, f.tag).None?
    requires EncodeValue(f, v).Some? && |EncodeValue(f, v).value| < TWO_32
    ensures DecodeLoop(kept, d, TagFor(f) + EncodeValue(f, v).value + t) == DecodeLoop(kept, d, t)
  {
    hide DecodeLoop, EncodeValue, Varint;
    PayloadIsWellFormed(f, v);
    WireOf(f);
    NoSuchTag(kept, f.tag);
    UnknownFieldSkipped(kept, d, f.tag, WireNumber(FieldWireType(f.ltype)), EncodeValue(f, v).value, t);
  }

  lemma {:induction false} NoSuchTag(kept: seq<Field>, tag: nat)
    requires IndexOf(kept, tag).None?
    ensures forall f | f in kept :: f.tag != tag
  {
  }

  lemma {:induction false} ItemsUnknown(kept: seq<Field>, d: Partial, f: Field, items: seq<Value>, t: seq<byte>)
    requires Fits(kept, d) && 0 < f.tag < 0x2000_0000 && IndexOf(kept, f.tag).None?
    requires EncodeTagged(f, items).Some? && |EncodeTagged(f, items).value| < TWO_32
    ensures DecodeLoop(kept, d, EncodeTagged(f, items).value + t) == DecodeLoop(kept, d, t)
    decreases |items|
  {
    if items == [] {
      assert EncodeTagged(f, items).value + t == t;
    } else {
      var e, later := EncodeValue(f, items[0]).value, EncodeTagged(f, items[1..]).value;
      assert EncodeTagged(f, items).value + t == TagFor(f) + e + (later + t);
      hide DecodeLoop, EncodeValue, TagFor, IndexOf;
      ItemUnknown(kept, d, f, items[0], later + t);
      ItemsUnknown(kept, d, f, items[1..], t);
    }
  }

  lemma {:induction false} FieldUnknown(kept: seq<Field>, d: Partial, f: Field, there: Slot, t: seq<byte>)
    requires Fits(kept, d) && 0 < f.tag < 0x2000_0000 && IndexOf(kept, f.tag).None?
    requires TypedSlot(f, there) && EncodeField(f, there).Some? && |EncodeField(f, there).value| < TWO_32
    ensures DecodeLoop(kept, d, EncodeField(f, there).value + t) == DecodeLoop(kept, d, t)
  {
    hide DecodeLoop, EncodeField, EncodeValue, EncodeItems, EncodeTagged, Varint, TypedSlot, IndexOf, TagFor, Absent;
    if Absent(f, there) {
      NothingWritten(f, there);
      assert [] + t == t;
    } else if there.Rep? {
      WrittenItems(f, there);
      RepeatedWrites(f, there);
      if f.ltype.Packable() {
        var e := EncodeItems(f, there.items).value;
        assert EncodeField(f, there).value == Varint(f.tag * 8 + 2) + Prefixed(e);
        PrefixedIsPayload(e);
        NoSuchTag(kept, f.tag);
        UnknownFieldSkipped(kept, d, f.tag, 2, Prefixed(e), t);
      } else {
        ItemsUnknown(kept, d, f, there.items, t);
      }
    } else {
      var v := WrittenValue(f, there);
      ItemUnknown(kept, d, f, v, t);
    }
  }

  // ----- the whole message

  /** A required field of the reader, among those it tracks, that the writer has at n or later. */
  ghost predicate Sent(kept: seq<Field>, i: nat, fields: seq<Field>, n: nat) {
    Tracked(kept, i) && exists m :: n <= m < |fields| && fields[m].tag == kept[i].tag
  }

  /** The tracked required field with this tag, if any, has been seen. */
  ghost predicate KnownSeen(kept: seq<Field>, tag: nat, seen: set<nat>) {
    forall i: nat | Tracked(kept, i) && kept[i].tag == tag :: RequiredIndex(kept, i) in seen
  }

  ghost predicate SentSeen(kept: seq<Field>, fields: seq<Field>, n: nat, seen: set<nat>) {
    forall i: nat | Sent(kept, i, fields, n) :: RequiredIndex(kept, i) in seen
  }

  function ReadField(kept: seq<Field>, here: seq<Slot>, f: Field, slot: Slot): (r: Option<seq<Slot>>)
    requires |here| == SlotCount(kept)
    ensures r.Some? ==> |r.value| == |here|
  {
    match IndexOf(kept, f.tag)
    case None => Some(here)
    case Some(k) =>
      SlotsAscend(kept, k, k);
      var s := SlotOf(kept, k);
      match MergeSlot(kept[k], here[s], slot)
      case None => None
      case Some(x) => Some(here[s := x])
  }

  lemma {:induction false} AbsorbedStep(kept: seq<Field>, here: seq<Slot>, fields: seq<Field>, there: seq<Slot>, n: nat)
    requires |here| == SlotCount(kept) && |there| == SlotCount(fields) && n < |fields|
    ensures SlotOf(fields, n) < |there|
    ensures Absorbed(kept, here, fields, there, n) ==
      match ReadField(kept, here, fields[n], there[SlotOf(fields, n)]) {
        case None => None
        case Some(next) => Absorbed(kept, next, fields, there, n + 1) }
  {
    SlotsAscend(fields, n, n);
    hide MergeSlot, IndexOf;
  }

  /** One field of the writer, known to the reader or not. */
  lemma {:induction false} OneField(kept: seq<Field>, d: Partial, f: Field, slot: Slot, t: seq<byte>)
      returns (d': Partial)
    requires TagsOkTree(kept) && 0 < f.tag < 0x2000_0000 && Fits(kept, d)
    requires forall k | 0 <= k < |kept| && kept[k].tag == f.tag :: kept[k] == f.(dataOffset := kept[k].dataOffset)
    requires TypedSlot(f, slot) && EncodeField(f, slot).Some? && |EncodeField(f, slot).value| < TWO_32
    ensures Gives(kept, d, EncodeField(f, slot).value + t, d', t, ReadField(kept, d.slots, f, slot))
    ensures ReadField(kept, d.slots, f, slot).Some? ==> KnownSeen(kept, f.tag, d'.seen)
    decreases kept, 2, 1
  {
    hide DecodeLoop, EncodeField, TagsOkTree, TypedSlot, Gives, MergeSlot, Fits;
    hide IndexOf, Seen, Tracked, RequiredIndex, SlotOf, SlotCount;
    match IndexOf(kept, f.tag)
    case None =>
      FieldUnknown(kept, d, f, slot, t);
      GivesNothing(kept, d, t);
      Unread(kept, d, EncodeField(f, slot).value + t, t, d, t, Some(d.slots));
      NoneSeen(kept, f.tag, d.seen);
      d' := d;
    case Some(k) =>
      SameWriting(f, kept[k].dataOffset, slot);
      SlotHere(kept, d, k);
      d' := FieldMeets(kept, d, k, slot, t);
      if MergeSlot(kept[k], d.slots[SlotOf(kept, k)], slot).Some? {
        NowSeen(kept, k, d.seen, d'.seen);
      }
  }

  lemma {:induction false} SlotHere(kept: seq<Field>, d: Partial, k: nat)
    requires Fits(kept, d) && k < |kept|
    ensures |d.slots| == SlotCount(kept) && SlotOf(kept, k) < |d.slots|
  {
    SlotsAscend(kept, k, k);
  }

  lemma {:induction false} NoneSeen(kept: seq<Field>, tag: nat, seen: set<nat>)
    requires IndexOf(kept, tag).None?
    ensures KnownSeen(kept, tag, seen)
  {
    hide RequiredIndex;
  }

  lemma {:induction false} NowSeen(kept: seq<Field>, k: nat, seen: set<nat>, seen': set<nat>)
    requires TagsOkTree(kept) && k < |kept|
    requires kept[k].htype == Required ==> Seen(kept, seen, k) <= seen'
    ensures KnownSeen(kept, kept[k].tag, seen')
  {
    assert DistinctTags(kept);
    hide TagsOkTree, RequiredIndex;
    forall i: nat | Tracked(kept, i) && kept[i].tag == kept[k].tag
      ensures RequiredIndex(kept, i) in seen'
    {
      assert i == k && RequiredIndex(kept, k) in Seen(kept, seen, k);
    }
  }

  lemma {:induction false} ReadsFrom(kept: seq<Field>, d: Partial, fields: seq<Field>, there: seq<Slot>, n: nat)
      returns (d': Partial)
    requires TagsOkTree(kept) && TagsOk(fields) && Compatible(kept, fields) && Typed(fields, there)
    requires |there| == SlotCount(fields) && n <= |fields| && Fits(kept, d)
    requires EncodeFrom(fields, there, n).Some? && |EncodeFrom(fields, there, n).value| < TWO_32
    ensures Gives(kept, d, EncodeFrom(fields, there, n).value, d', [], Absorbed(kept, d.slots, fields, there, n))
    ensures Absorbed(kept, d.slots, fields, there, n).Some? ==> SentSeen(kept, fields, n, d'.seen)
    decreases kept, 3, |fields| - n
  {
    hide DecodeLoop, EncodeField, TagsOkTree, TypedSlot, Gives, ReadField, Tracked, MergeSlot, IndexOf;
    hide RequiredIndex, SlotOf, SlotCount, KnownSeen, Typed, TagsOk, Absorbed, EncodeFrom, Compatible, SentSeen;
    if n == |fields| {
      NothingMore(kept, d, fields, there);
      d' := d;
    } else {
      AbsorbedStep(kept, d.slots, fields, there, n);
      FieldThenRest(kept, fields, there, n);
      var f, slot := fields[n], there[SlotOf(fields, n)];
      var e, rest := EncodeField(f, slot).value, EncodeFrom(fields, there, n + 1).value;
      var next := ReadField(kept, d.slots, f, slot);
      var mid := OneField(kept, d, f, slot, rest);
      if next.Some? {
        GivesSlots(kept, d, e + rest, mid, rest, next.value);
        d' := ReadsFrom(kept, mid, fields, there, n + 1);
        GivesThen(kept, d, e + rest, mid, rest, d', [], Absorbed(kept, mid.slots, fields, there, n + 1));
        SeenGrows(kept, mid, rest, d', Absorbed(kept, mid.slots, fields, there, n + 1));
        if Absorbed(kept, mid.slots, fields, there, n + 1).Some? {
          NowSent(kept, mid, d', fields, n);
        }
      } else {
        d' := d;
        Refused(kept, d, e + rest, mid, rest, []);
      }
    }
  }

  lemma {:induction false} NothingMore(kept: seq<Field>, d: Partial, fields: seq<Field>, there: seq<Slot>)
    requires Fits(kept, d) && |there| == SlotCount(fields)
    ensures EncodeFrom(fields, there, |fields|) == Some([])
    ensures Absorbed(kept, d.slots, fields, there, |fields|) == Some(d.slots)
    ensures Gives(kept, d, [], d, [], Some(d.slots)) && SentSeen(kept, fields, |fields|, d.seen)
  {
    GivesNothing(kept, d, []);
  }

  lemma {:induction false} FieldThenRest(kept: seq<Field>, fields: seq<Field>, there: seq<Slot>, n: nat)
    requires TagsOk(fields) && Compatible(kept, fields) && Typed(fields, there)
    requires |there| == SlotCount(fields) && n < |fields| && EncodeFrom(fields, there, n).Some?
    ensures SlotOf(fields, n) < |there|
    ensures var (f, slot) := (fields[n], there[SlotOf(fields, n)]);
      && 0 < f.tag < 0x2000_0000 && TypedSlot(f, slot)
      && (forall k | 0 <= k < |kept| && kept[k].tag == f.tag :: kept[k] == f.(dataOffset := kept[k].dataOffset))
      && EncodeField(f, slot).Some? && EncodeFrom(fields, there, n + 1).Some?
      && EncodeFrom(fields, there, n).value == EncodeField(f, slot).value + EncodeFrom(fields, there, n + 1).value
  {
    hide TypedSlot, EncodeField;
    SlotsAscend(fields, n, n);
    assert fields[n] in fields;
  }

  /** A reader whose tracked required fields the writer has accepts what is written, and merges it. */
  ghost predicate AllSent(kept: seq<Field>, fields: seq<Field>) {
    forall i: nat | Tracked(kept, i) :: Sent(kept, i, fields, 0)
  }

  lemma {:induction false} AllSentAllSeen(kept: seq<Field>, fields: seq<Field>, seen: set<nat>)
    requires AllSent(kept, fields) && SentSeen(kept, fields, 0, seen)
    ensures AllSeen(kept, seen)
  {
    forall k: nat | k < TrackedCount(kept)
      ensures k in seen
    {
      var i := RequiredAt(kept, |kept|, k);
      assert Tracked(kept, i) && Sent(kept, i, fields, 0);
    }
  }

  lemma {:induction false} Reads(kept: seq<Field>, here: seq<Slot>, fields: seq<Field>, there: seq<Slot>)
    requires TagsOkTree(kept) && TagsOk(fields) && Compatible(kept, fields) && AllSent(kept, fields)
    requires |here| == SlotCount(kept) && Typed(fields, there)
    requires EncodeMessage(fields, there).Some? && |EncodeMessage(fields, there).value| < TWO_32
    ensures |there| == SlotCount(fields)
    ensures DecodeNoinit(kept, here, EncodeMessage(fields, there).value) ==
      match Absorbed(kept, here, fields, there, 0) { case None => None case Some(slots) => Some(Read(slots, [])) }
    ensures Absorbed(kept, here, fields, there, 0).None? ==>
      DecodeLoop(kept, Partial(here, {}, 0), EncodeMessage(fields, there).value).None?
    decreases kept, 4
  {
    hide DecodeLoop, TagsOkTree, TagsOk, Compatible, AllSent, EncodeFrom, Absorbed, AllSeen, SentSeen;
    assert |there| == SlotCount(fields);
    hide Typed;
    var d := Partial(here, {}, 0);
    var d' := ReadsFrom(kept, d, fields, there, 0);
    EndsThere(kept, d');
    if Absorbed(kept, here, fields, there, 0).Some? {
      AllSentAllSeen(kept, fields, d'.seen);
    }
  }

  lemma {:induction false} EndsThere(kept: seq<Field>, d: Partial)
    requires Fits(kept, d)
    ensures DecodeLoop(kept, d, []) == Some(Decoded(d, [], false))
  {
  }
}
