/**
 What merging does to a struct, field by field: the last value wins, arrays grow while they
 have room, a oneof holds the member that came last, submessages merge, and what the second
 message leaves out stays. So what a reader with an older or a newer descriptor sees.
 */
module PbMerged {
  import opened Octets
  import opened Fragments
  import opened PbWire
  import opened PbMessage
  import opened PbEncode
  import opened PbDecode
  import opened PbMerge
  import opened PbRoundTrip
  import opened PbConcat
  import opened PbExchange

  // ----- merging into the defaults

  lemma {:induction false} FreshValue(f: Field, old_: Value, v: Value)
    requires WellFormedField(f) && TypedValue(f, v)
    requires f.ltype.Submessage? && f.htype != Repeated ==> old_ == DefaultValue(f)
    ensures MergeValue(f, old_, v) == Some(NormalValue(f, v))
    decreases f, 0
  {
    if f.ltype.Submessage? {
      MergedFromDefaults(f.ltype.fields, v.slots);
    }
  }

  lemma {:induction false} NormalItemsCons(f: Field, x: Value, items: seq<Value>)
    ensures NormalItems(f, [x] + items) == [NormalValue(f, x)] + NormalItems(f, items)
    decreases |items|
  {
    hide NormalValue;
    if items == [] {
      assert [x] + items == [] + [x];
      NormalItemsSplit(f, [], x);
    } else {
      var front, last := items[..|items| - 1], items[|items| - 1];
      assert [x] + items == ([x] + front) + [last] && items == front + [last];
      NormalItemsSplit(f, [x] + front, last);
      NormalItemsSplit(f, front, last);
      NormalItemsCons(f, x, front);
    }
  }

  /** Items are appended in order, and refused when they are too many for the array. */
  lemma {:induction false} ItemsAppended(f: Field, done: seq<Value>, items: seq<Value>)
    requires WellFormedField(f) && f.htype == Repeated && forall x | x in items :: TypedValue(f, x)
    ensures MergeItems(f, done, items) ==
      if items == [] || |done| + |items| <= f.arraySize then Some(done + NormalItems(f, items)) else None
    decreases f, 1, |items|
  {
    hide WellFormedField, TypedValue, NormalValue, MergeValue;
    if items == [] {
      assert done + [] == done;
    } else if |done| < f.arraySize {
      var x, rest := items[0], items[1..];
      FreshValue(f, DefaultValue(f), x);
      ItemsAppended(f, done + [NormalValue(f, x)], rest);
      NormalItemsCons(f, x, rest);
      assert [x] + rest == items;
      assert done + NormalItems(f, items) == (done + [NormalValue(f, x)]) + NormalItems(f, rest);
    }
  }

  lemma {:induction false} FreshSlot(f: Field, before: Slot, slot: Slot)
    requires WellFormedField(f) && TypedSlot(f, slot)
    requires if f.htype == Oneof then before.Union? else before == DefaultSlot(f)
    ensures MergeSlot(f, before, slot) == Some(NormalSlot(f, slot, before))
    decreases f, 2
  {
    hide WellFormedField, TypedValue, NormalValue, MergeValue, DefaultValue, MergeItems, IsDefaultValue, NormalItems;
    match slot
    case Single(v) =>
      if Absent(f, slot) {
        DefaultSlotIsNormal(f, slot, before);
      } else {
        FreshValue(f, before.v, v);
      }
    case Opt(has, v) =>
      if has {
        FreshValue(f, before.v, v);
      }
    case Rep(items) =>
      ItemsAppended(f, [], items);
      NoItems(f);
      assert [] + NormalItems(f, items) == NormalItems(f, items);
    case Union(which, v) =>
      if which == f.tag {
        FreshValue(f, if f.ltype.Submessage? then DefaultValue(f) else before.v, v);
      }
  }

  lemma {:induction false} NoItems(f: Field)
    ensures NormalItems(f, []) == []
  {
  }

  lemma {:induction false} MergedFromState(fields: seq<Field>, here: seq<Slot>, there: seq<Slot>, n: nat)
    requires WellFormed(fields) && Typed(fields, there) && n <= |fields| && here == StateAfter(fields, there, n)
    ensures Absorbed(fields, here, fields, there, n) == Some(Normal(fields, there))
    decreases fields, 3, |fields| - n
  {
    hide MergeSlot, NormalSlot, StateAfter, Normal, Absorbed, ReadField, IndexOf, DefaultSlot, TypedSlot;
    if n == |fields| {
      NoneLeft(fields, there);
    } else {
      var f, s := fields[n], SlotOf(fields, n);
      FieldSlotReady(fields, there, n);
      StateStep(fields, there, n);
      assert WellFormedField(f) && TypedSlot(f, there[s]) && DistinctTags(fields);
      hide WellFormed, WellFormedField, Typed, SlotOf, SlotCount;
      FreshSlot(f, here[s], there[s]);
      ReadsKnown(fields, here, n, there[s]);
      AbsorbedStep(fields, here, fields, there, n);
      MergedFromState(fields, StateAfter(fields, there, n + 1), there, n + 1);
    }
  }

  lemma {:induction false} NoneLeft(fields: seq<Field>, there: seq<Slot>)
    requires |there| == SlotCount(fields)
    ensures StateAfter(fields, there, |fields|) == Normal(fields, there)
    ensures Absorbed(fields, Normal(fields, there), fields, there, |fields|) == Some(Normal(fields, there))
  {
    if fields != [] {
      SlotsAscend(fields, |fields| - 1, |fields| - 1);
    }
    assert StateAfter(fields, there, |fields|) == Normal(fields, there);
  }

  lemma {:induction false} ReadsKnown(kept: seq<Field>, here: seq<Slot>, k: nat, slot: Slot)
    requires DistinctTags(kept) && k < |kept| && |here| == SlotCount(kept)
    ensures SlotOf(kept, k) < |here|
    ensures ReadField(kept, here, kept[k], slot) ==
      match MergeSlot(kept[k], here[SlotOf(kept, k)], slot) {
        case None => None
        case Some(x) => Some(here[SlotOf(kept, k) := x]) }
  {
    hide MergeSlot, IndexOf;
    FindsItself(kept, k);
    SlotsAscend(kept, k, k);
  }

  lemma {:induction false} FindsItself(fields: seq<Field>, n: nat)
    requires DistinctTags(fields) && n < |fields|
    ensures IndexOf(fields, fields[n].tag) == Some(n)
  {
    hide Find;
  }

  /** A message merged into the defaults is the message. */
  lemma {:induction false} MergedFromDefaults(fields: seq<Field>, there: seq<Slot>)
    requires WellFormed(fields) && Typed(fields, there)
    ensures Merged(fields, DefaultSlots(fields), there) == Some(Normal(fields, there))
    decreases fields, 4
  {
    MergedFromState(fields, DefaultSlots(fields), there, 0);
  }

  // ----- when arrays have the room

  /** What merging `there` into `here` asks of the arrays, at every depth. */
  ghost predicate RoomSlot(f: Field, here: Slot, there: Slot)
    decreases f, 1
  {
    || Absent(f, there)
    || match (here, there)
       case (Single(x), Single(v)) => RoomValue(f, x, v)
       case (Opt(_, x), Opt(_, v)) => RoomValue(f, x, v)
       case (Rep(done), Rep(items)) => |done| + |items| <= f.arraySize
       case (Union(_, _), Union(_, _)) => true
       case _ => false
  }

  ghost predicate RoomValue(f: Field, old_: Value, v: Value)
    decreases f, 0
  {
    f.ltype.Submessage? && v.Struct? ==>
      RoomFor(f.ltype.fields, if old_.Struct? then old_.slots else DefaultSlots(f.ltype.fields), v.slots)
  }

  ghost predicate RoomFor(fields: seq<Field>, here: seq<Slot>, there: seq<Slot>)
    decreases fields
  {
    && |here| == SlotCount(fields) == |there|
    && forall i | 0 <= i < |fields| ::
         && SlotOf(fields, i) < |here|
         && RoomSlot(fields[i], here[SlotOf(fields, i)], there[SlotOf(fields, i)])
  }

  /** The same of the fields from n on, between two descriptors. */
  ghost predicate RoomFrom(kept: seq<Field>, here: seq<Slot>, fields: seq<Field>, there: seq<Slot>, n: nat) {
    forall k, m | 0 <= k < |kept| && n <= m < |fields| && kept[k].tag == fields[m].tag ::
      && SlotOf(kept, k) < |here| && SlotOf(fields, m) < |there|
      && RoomSlot(kept[k], here[SlotOf(kept, k)], there[SlotOf(fields, m)])
  }

  lemma {:induction false} RoomValueExact(f: Field, old_: Value, v: Value)
    requires WellFormedField(f) && TypedValue(f, v) && f.htype != Repeated
    ensures MergeValue(f, old_, v).Some? <==> RoomValue(f, old_, v)
    decreases f, 0
  {
    if f.ltype.Submessage? {
      var fields := f.ltype.fields;
      RoomExact(fields, if old_.Struct? then old_.slots else DefaultSlots(fields), v.slots);
    }
  }

  lemma {:induction false} RoomSlotExact(f: Field, here: Slot, there: Slot)
    requires WellFormedField(f) && TypedSlot(f, there)
    ensures MergeSlot(f, here, there).Some? <==> RoomSlot(f, here, there)
    decreases f, 1
  {
    hide WellFormedField, TypedValue, NormalValue, MergeValue, RoomValue, DefaultValue, MergeItems, NormalItems;
    hide IsDefaultValue;
    match (here, there)
    case (Single(x), Single(v)) =>
      if !Absent(f, there) {
        RoomValueExact(f, x, v);
      }
    case (Opt(_, x), Opt(has, v)) =>
      if has {
        RoomValueExact(f, x, v);
      }
    case (Rep(done), Rep(items)) => ItemsAppended(f, done, items);
    case (Union(_, x), Union(which, v)) =>
      if which == f.tag {
        FreshValue(f, if f.ltype.Submessage? then DefaultValue(f) else x, v);
      }
    case _ =>
  }

  lemma {:induction false} RoomFromExact(
      kept: seq<Field>, here: seq<Slot>, fields: seq<Field>, there: seq<Slot>, n: nat)
    requires WellFormed(kept) && DistinctTags(fields) && Compatible(kept, fields) && Typed(fields, there)
    requires |here| == SlotCount(kept) && |there| == SlotCount(fields) && n <= |fields|
    ensures Absorbed(kept, here, fields, there, n).Some? <==> RoomFrom(kept, here, fields, there, n)
    decreases kept, 3, |fields| - n
  {
    assert DistinctTags(kept);
    hide WellFormed, Compatible, Typed, RoomFrom, RoomSlot, MergeSlot, Absorbed, IndexOf, SlotOf, SlotCount;
    hide DistinctTags, ReadField, TypedSlot, WellFormedField;
    if n == |fields| {
      RoomAtEnd(kept, here, fields, there);
    } else if IndexOf(kept, fields[n].tag).None? {
      AbsorbsUnknown(kept, here, fields, there, n);
      RoomUnknown(kept, here, fields, there, n);
      RoomFromExact(kept, here, fields, there, n + 1);
    } else {
      var k := IndexOf(kept, fields[n].tag).value;
      AbsorbsKnown(kept, here, fields, there, n, k);
      KnownField(kept, here, fields, there, n, k);
      var s, slot := SlotOf(kept, k), there[SlotOf(fields, n)];
      RoomSlotExact(kept[k], here[s], slot);
      RoomStep(kept, here, fields, there, n, k);
      if MergeSlot(kept[k], here[s], slot).Some? {
        RoomFromExact(kept, here[s := MergeSlot(kept[k], here[s], slot).value], fields, there, n + 1);
      }
    }
  }

  lemma {:induction false} AbsorbsUnknown(
      kept: seq<Field>, here: seq<Slot>, fields: seq<Field>, there: seq<Slot>, n: nat)
    requires |here| == SlotCount(kept) && |there| == SlotCount(fields)
    requires n < |fields| && IndexOf(kept, fields[n].tag).None?
    ensures Absorbed(kept, here, fields, there, n) == Absorbed(kept, here, fields, there, n + 1)
  {
    hide IndexOf;
    SlotsAscend(fields, n, n);
  }

  lemma {:induction false} AbsorbsKnown(
      kept: seq<Field>, here: seq<Slot>, fields: seq<Field>, there: seq<Slot>, n: nat, k: nat)
    requires |here| == SlotCount(kept) && |there| == SlotCount(fields)
    requires n < |fields| && IndexOf(kept, fields[n].tag) == Some(k)
    ensures SlotOf(kept, k) < |here| && SlotOf(fields, n) < |there|
    ensures var s := SlotOf(kept, k);
      Absorbed(kept, here, fields, there, n) ==
      match MergeSlot(kept[k], here[s], there[SlotOf(fields, n)]) {
        case None => None
        case Some(x) => Absorbed(kept, here[s := x], fields, there, n + 1) }
  {
    hide IndexOf, MergeSlot;
    SlotsAscend(fields, n, n);
    SlotsAscend(kept, k, k);
  }

  lemma {:induction false} RoomStep(
      kept: seq<Field>, here: seq<Slot>, fields: seq<Field>, there: seq<Slot>, n: nat, k: nat)
    requires DistinctTags(kept) && DistinctTags(fields) && Compatible(kept, fields) && Typed(fields, there)
    requires |here| == SlotCount(kept) && n < |fields| && k < |kept| && kept[k].tag == fields[n].tag
    requires SlotOf(kept, k) < |here| && SlotOf(fields, n) < |there|
    requires TypedSlot(kept[k], there[SlotOf(fields, n)])
    requires var x := MergeSlot(kept[k], here[SlotOf(kept, k)], there[SlotOf(fields, n)]);
      x.Some? <==> RoomSlot(kept[k], here[SlotOf(kept, k)], there[SlotOf(fields, n)])
    ensures var x := MergeSlot(kept[k], here[SlotOf(kept, k)], there[SlotOf(fields, n)]);
      RoomFrom(kept, here, fields, there, n) <==>
      x.Some? && RoomFrom(kept, here[SlotOf(kept, k) := x.value], fields, there, n + 1)
  {
    hide Compatible, Typed, RoomFrom, RoomSlot, MergeSlot, SlotOf, SlotCount, DistinctTags, TypedSlot;
    RoomKnown(kept, here, fields, there, n, k);
    var x := MergeSlot(kept[k], here[SlotOf(kept, k)], there[SlotOf(fields, n)]);
    if x.Some? {
      RoomKept(kept, here, fields, there, n, k, x.value);
    }
  }

  lemma {:induction false} RoomAtEnd(kept: seq<Field>, here: seq<Slot>, fields: seq<Field>, there: seq<Slot>)
    requires |here| == SlotCount(kept) && |there| == SlotCount(fields)
    ensures Absorbed(kept, here, fields, there, |fields|).Some?
    ensures RoomFrom(kept, here, fields, there, |fields|)
  {
  }

  lemma {:induction false} RoomUnknown(kept: seq<Field>, here: seq<Slot>, fields: seq<Field>, there: seq<Slot>, n: nat)
    requires n < |fields| && IndexOf(kept, fields[n].tag).None?
    ensures RoomFrom(kept, here, fields, there, n) <==> RoomFrom(kept, here, fields, there, n + 1)
  {
    hide RoomSlot, SlotOf;
  }

  lemma {:induction false} KnownField(
      kept: seq<Field>, here: seq<Slot>, fields: seq<Field>, there: seq<Slot>, n: nat, k: nat)
    requires WellFormed(kept) && Compatible(kept, fields) && Typed(fields, there)
    requires |here| == SlotCount(kept) && n < |fields| && IndexOf(kept, fields[n].tag) == Some(k)
    ensures SlotOf(kept, k) < |here| && SlotOf(fields, n) < |there|
    ensures k < |kept| && kept[k].tag == fields[n].tag && WellFormedField(kept[k])
    ensures TypedSlot(kept[k], there[SlotOf(fields, n)])
  {
    hide TypedSlot;
    SlotsAscend(kept, k, k);
    TypedThere(kept, fields, there, n, k);
  }

  lemma {:induction false} TypedThere(kept: seq<Field>, fields: seq<Field>, there: seq<Slot>, n: nat, k: nat)
    requires Compatible(kept, fields) && Typed(fields, there)
    requires n < |fields| && k < |kept| && kept[k].tag == fields[n].tag
    ensures SlotOf(fields, n) < |there| && TypedSlot(kept[k], there[SlotOf(fields, n)])
  {
    hide TypedSlot;
    var slot := there[SlotOf(fields, n)];
    assert kept[k] == fields[n].(dataOffset := kept[k].dataOffset) && TypedSlot(fields[n], slot);
    SameWriting(fields[n], kept[k].dataOffset, slot);
  }

  lemma {:induction false} RoomKnown(
      kept: seq<Field>, here: seq<Slot>, fields: seq<Field>, there: seq<Slot>, n: nat, k: nat)
    requires DistinctTags(kept) && n < |fields| && k < |kept| && kept[k].tag == fields[n].tag
    requires SlotOf(kept, k) < |here| && SlotOf(fields, n) < |there|
    ensures RoomFrom(kept, here, fields, there, n) <==>
      RoomSlot(kept[k], here[SlotOf(kept, k)], there[SlotOf(fields, n)]) && RoomFrom(kept, here, fields, there, n + 1)
  {
    hide RoomSlot, SlotOf;
  }

  lemma {:induction false} RoomKept(
      kept: seq<Field>, here: seq<Slot>, fields: seq<Field>, there: seq<Slot>, n: nat, k: nat, x: Slot)
    requires DistinctTags(fields) && Compatible(kept, fields) && Typed(fields, there)
    requires |here| == SlotCount(kept) && n < |fields| && k < |kept| && kept[k].tag == fields[n].tag
    requires SlotOf(kept, k) < |here| && SlotOf(fields, n) < |there|
    requires TypedSlot(kept[k], there[SlotOf(fields, n)])
    requires MergeSlot(kept[k], here[SlotOf(kept, k)], there[SlotOf(fields, n)]) == Some(x)
    ensures RoomFrom(kept, here, fields, there, n + 1) <==>
            RoomFrom(kept, here[SlotOf(kept, k) := x], fields, there, n + 1)
  {
    hide MergeSlot, TypedSlot, RoomSlot, Typed, Compatible, SlotOf, DistinctTags;
    forall j: nat, m: nat | j < |kept| && n < m < |fields| && kept[j].tag == fields[m].tag
      ensures SameRoom(kept, here, here[SlotOf(kept, k) := x], fields, there, j, m)
    {
      RoomKeptAt(kept, here, fields, there, n, k, x, j, m);
    }
    SameRooms(kept, here, here[SlotOf(kept, k) := x], fields, there, n + 1);
  }

  ghost predicate SameRoom(
      kept: seq<Field>, here: seq<Slot>, here': seq<Slot>, fields: seq<Field>, there: seq<Slot>, k: nat, m: nat)
    requires k < |kept| && m < |fields|
  {
    && SlotOf(kept, k) < |here| == |here'| && SlotOf(fields, m) < |there|
    && (RoomSlot(kept[k], here[SlotOf(kept, k)], there[SlotOf(fields, m)]) <==>
        RoomSlot(kept[k], here'[SlotOf(kept, k)], there[SlotOf(fields, m)]))
  }

  lemma {:induction false} SameRooms(
      kept: seq<Field>, here: seq<Slot>, here': seq<Slot>, fields: seq<Field>, there: seq<Slot>, n: nat)
    requires forall k: nat, m: nat | k < |kept| && n <= m < |fields| && kept[k].tag == fields[m].tag ::
      SameRoom(kept, here, here', fields, there, k, m)
    ensures RoomFrom(kept, here, fields, there, n) <==> RoomFrom(kept, here', fields, there, n)
  {
    hide RoomSlot, SlotOf;
  }

  lemma {:induction false} RoomKeptAt(
      kept: seq<Field>, here: seq<Slot>, fields: seq<Field>, there: seq<Slot>, n: nat, k: nat, x: Slot, j: nat, m: nat)
    requires DistinctTags(fields) && Compatible(kept, fields) && Typed(fields, there)
    requires |here| == SlotCount(kept) && n < |fields| && k < |kept| && kept[k].tag == fields[n].tag
    requires SlotOf(kept, k) < |here| && SlotOf(fields, n) < |there|
    requires TypedSlot(kept[k], there[SlotOf(fields, n)])
    requires MergeSlot(kept[k], here[SlotOf(kept, k)], there[SlotOf(fields, n)]) == Some(x)
    requires j < |kept| && n < m < |fields| && kept[j].tag == fields[m].tag
    ensures SameRoom(kept, here, here[SlotOf(kept, k) := x], fields, there, j, m)
  {
    assert fields[m].tag != fields[n].tag;
    hide MergeSlot, TypedSlot, RoomSlot, Compatible, DistinctTags, Typed;
    SlotsAscend(kept, j, j);
    TypedThere(kept, fields, there, m, j);
    if SlotOf(kept, j) == SlotOf(kept, k) {
      SharedSlot(kept, j, k);
      OneofStays(kept[k], here[SlotOf(kept, k)], there[SlotOf(fields, n)], x);
      OneofRoom(kept[j], here[SlotOf(kept, k)], x, there[SlotOf(fields, m)]);
    }
  }

  lemma {:induction false} SharedSlot(fields: seq<Field>, j: nat, k: nat)
    requires j < |fields| && k < |fields| && SlotOf(fields, j) == SlotOf(fields, k) && j != k
    ensures fields[j].htype == Oneof && fields[k].htype == Oneof
  {
    if j < k {
      SlotsAscend(fields, j, k);
    } else {
      SlotsAscend(fields, k, j);
    }
  }

  lemma {:induction false} OneofStays(f: Field, here: Slot, there: Slot, x: Slot)
    requires f.htype == Oneof && TypedSlot(f, there) && MergeSlot(f, here, there) == Some(x)
    ensures x == here || (x.Union? && here.Union?)
  {
    hide TypedValue, MergeValue, DefaultValue;
  }

  lemma {:induction false} OneofRoom(f: Field, here: Slot, x: Slot, there: Slot)
    requires f.htype == Oneof && TypedSlot(f, there)
    requires x == here || (x.Union? && here.Union?)
    ensures RoomSlot(f, here, there) <==> RoomSlot(f, x, there)
  {
    hide TypedValue, RoomValue;
  }

  /** Merging is refused exactly when some array, at some depth, is too small for both messages. */
  lemma {:induction false} RoomExact(fields: seq<Field>, here: seq<Slot>, there: seq<Slot>)
    requires WellFormed(fields) && Typed(fields, there)
    ensures Merged(fields, here, there).Some? <==> RoomFor(fields, here, there)
    decreases fields, 4
  {
    if |here| == SlotCount(fields) {
      WellFormedTags(fields);
      SameDescriptor(fields);
      RoomFromExact(fields, here, fields, there, 0);
      hide WellFormed, Typed, Absorbed, RoomSlot, RoomFrom;
      RoomOfOne(fields, here, there);
    }
  }

  lemma {:induction false} RoomOfOne(fields: seq<Field>, here: seq<Slot>, there: seq<Slot>)
    requires DistinctTags(fields) && |here| == SlotCount(fields) == |there|
    ensures RoomFrom(fields, here, fields, there, 0) <==> RoomFor(fields, here, there)
  {
    hide RoomSlot;
    forall i | 0 <= i < |fields| ensures SlotOf(fields, i) < |here| {
      SlotsAscend(fields, i, i);
    }
    if RoomFrom(fields, here, fields, there, 0) {
      forall i | 0 <= i < |fields|
        ensures RoomSlot(fields[i], here[SlotOf(fields, i)], there[SlotOf(fields, i)])
      {
        assert fields[i].tag == fields[i].tag;
      }
    }
  }

  // ----- one slot of the result

  /** Field m of the writer is written, and the reader keeps it in slot s. */
  ghost predicate Writes(kept: seq<Field>, fields: seq<Field>, there: seq<Slot>, m: nat, s: nat)
    requires m < |fields|
  {
    match IndexOf(kept, fields[m].tag)
    case None => false
    case Some(k) => SlotOf(kept, k) == s && SlotOf(fields, m) < |there| && !Absent(kept[k], there[SlotOf(fields, m)])
  }

  /** A slot that nothing is written into stays. */
  lemma {:induction false} SlotStays(
      kept: seq<Field>, here: seq<Slot>, fields: seq<Field>, there: seq<Slot>, n: nat, s: nat)
    requires |here| == SlotCount(kept) && |there| == SlotCount(fields) && n <= |fields| && s < |here|
    requires forall m: nat | n <= m < |fields| :: !Writes(kept, fields, there, m, s)
    ensures var r := Absorbed(kept, here, fields, there, n); r.Some? ==> r.value[s] == here[s]
    decreases |fields| - n
  {
    if n < |fields| {
      assert !Writes(kept, fields, there, n, s);
      hide MergeSlot, IndexOf, SlotOf, SlotCount, Absent;
      if IndexOf(kept, fields[n].tag).None? {
        AbsorbsUnknown(kept, here, fields, there, n);
        hide Absorbed, Writes;
        SlotStays(kept, here, fields, there, n + 1, s);
      } else {
        var k := IndexOf(kept, fields[n].tag).value;
        AbsorbsKnown(kept, here, fields, there, n, k);
        var slot, at := there[SlotOf(fields, n)], SlotOf(kept, k);
        if Absent(kept[k], slot) {
          AbsentMerges(kept[k], here[at], slot);
        }
        hide Absorbed, Writes;
        if MergeSlot(kept[k], here[at], slot).Some? {
          SlotStays(kept, here[at := MergeSlot(kept[k], here[at], slot).value], fields, there, n + 1, s);
        }
      }
    }
  }

  /** A slot that one field is written into, at most, is merged with that field's. */
  lemma {:induction false} SlotFrom(
      kept: seq<Field>, here: seq<Slot>, fields: seq<Field>, there: seq<Slot>, n: nat, m: nat, k: nat)
    requires |here| == SlotCount(kept) && |there| == SlotCount(fields)
    requires n <= m < |fields| && IndexOf(kept, fields[m].tag) == Some(k)
    requires forall j: nat | n <= j < |fields| && j != m :: !Writes(kept, fields, there, j, SlotOf(kept, k))
    ensures SlotOf(kept, k) < |here| && SlotOf(fields, m) < |there|
    ensures var (r, s) := (Absorbed(kept, here, fields, there, n), SlotOf(kept, k));
      r.Some? ==> MergeSlot(kept[k], here[s], there[SlotOf(fields, m)]) == Some(r.value[s])
    decreases m - n
  {
    SlotsAscend(fields, m, m);
    SlotsAscend(kept, k, k);
    var s := SlotOf(kept, k);
    if n == m {
      AbsorbsKnown(kept, here, fields, there, n, k);
      hide MergeSlot, IndexOf, SlotOf, SlotCount, Absent, Absorbed, Writes;
      var x := MergeSlot(kept[k], here[s], there[SlotOf(fields, m)]);
      if x.Some? {
        SlotStays(kept, here[s := x.value], fields, there, n + 1, s);
      }
    } else {
      assert !Writes(kept, fields, there, n, s);
      hide MergeSlot, IndexOf, SlotOf, SlotCount, Absent;
      if IndexOf(kept, fields[n].tag).None? {
        AbsorbsUnknown(kept, here, fields, there, n);
        hide Absorbed, Writes;
        SlotFrom(kept, here, fields, there, n + 1, m, k);
      } else {
        var i := IndexOf(kept, fields[n].tag).value;
        AbsorbsKnown(kept, here, fields, there, n, i);
        var slot, at := there[SlotOf(fields, n)], SlotOf(kept, i);
        if Absent(kept[i], slot) {
          AbsentMerges(kept[i], here[at], slot);
        }
        hide Absorbed, Writes;
        if MergeSlot(kept[i], here[at], slot).Some? {
          SlotFrom(kept, here[at := MergeSlot(kept[i], here[at], slot).value], fields, there, n + 1, m, k);
        }
      }
    }
  }

  /** The slot of a field outside oneofs. */
  lemma {:induction false} FieldRead(
      kept: seq<Field>, here: seq<Slot>, fields: seq<Field>, there: seq<Slot>, k: nat)
    requires DistinctTags(kept) && DistinctTags(fields)
    requires |here| == SlotCount(kept) && |there| == SlotCount(fields)
    requires k < |kept| && kept[k].htype != Oneof && Absorbed(kept, here, fields, there, 0).Some?
    ensures SlotOf(kept, k) < |here|
    ensures var (r, s) := (Absorbed(kept, here, fields, there, 0).value, SlotOf(kept, k));
      match IndexOf(fields, kept[k].tag)
      case None => r[s] == here[s]
      case Some(m) =>
        SlotOf(fields, m) < |there| && MergeSlot(kept[k], here[s], there[SlotOf(fields, m)]) == Some(r[s])
  {
    hide MergeSlot, Absorbed, Absent, SlotOf, SlotCount, Find;
    SlotsAscend(kept, k, k);
    forall j: nat | j < |fields| && Writes(kept, fields, there, j, SlotOf(kept, k))
      ensures fields[j].tag == kept[k].tag
    {
      OnlyOneThere(kept, fields, there, j, k);
    }
    hide Writes, IndexOf;
    match IndexOf(fields, kept[k].tag)
    case None => SlotStays(kept, here, fields, there, 0, SlotOf(kept, k));
    case Some(m) =>
      FindsItself(kept, k);
      SlotFrom(kept, here, fields, there, 0, m, k);
  }

  lemma {:induction false} OnlyOneThere(kept: seq<Field>, fields: seq<Field>, there: seq<Slot>, j: nat, k: nat)
    requires k < |kept| && kept[k].htype != Oneof && j < |fields|
    requires Writes(kept, fields, there, j, SlotOf(kept, k))
    ensures fields[j].tag == kept[k].tag
  {
    hide Absent, Find;
    var i := IndexOf(kept, fields[j].tag).value;
    if i != k {
      SharedSlot(kept, i, k);
    }
  }

  function ValueIn(slot: Slot): Value
    requires !slot.Rep?
  {
    match slot
    case Single(v) => v
    case Opt(_, v) => v
    case Union(_, v) => v
  }

  /** The value of a submessage field that is there already, or its defaults. */
  function StructIn(fields: seq<Field>, slot: Slot): seq<Slot>
    requires !slot.Rep?
  {
    if ValueIn(slot).Struct? then ValueIn(slot).slots else DefaultSlots(fields)
  }

  /**
     The slot that comes of merging two: what is not written leaves it alone, items go behind
     those that are there, the last scalar and the last member of a oneof win, and a submessage
     is merged into the one that is there.
   */
  ghost predicate MergedAs(f: Field, here: Slot, there: Slot, r: Slot) {
    if Absent(f, there) then r == here
    else if there.Rep? then here.Rep? && r == Rep(here.items + NormalItems(f, there.items))
    else if !f.ltype.Submessage? || there.Union? then r == NormalSlot(f, there, here)
    else
      && !here.Rep? && (r.Single? || (r.Opt? && r.has)) && (r.Opt? <==> there.Opt?)
      && ValueIn(r).Struct? && ValueIn(there).Struct?
      && Merged(f.ltype.fields, StructIn(f.ltype.fields, here), ValueIn(there).slots) == Some(ValueIn(r).slots)
  }

  lemma {:induction false} LastOneWins(f: Field, here: Slot, there: Slot, r: Slot)
    requires WellFormedField(f) && TypedSlot(f, there) && MergeSlot(f, here, there) == Some(r)
    ensures MergedAs(f, here, there, r)
  {
    hide Merged, TypedValue, WellFormedField, NormalItems, DefaultValue, MergeItems, IsDefaultValue;
    if !Absent(f, there) {
      match there
      case Rep(items) =>
        hide MergeValue;
        ItemsAppended(f, here.items, items);
      case Union(_, v) =>
        hide MergeValue;
        FreshValue(f, if f.ltype.Submessage? then DefaultValue(f) else here.v, v);
      case _ =>
    }
  }

  // ----- the whole struct

  /** The fields of both descriptors that share slot s of the reader share a slot of the writer. */
  ghost predicate SameUnion(kept: seq<Field>, fields: seq<Field>, s: nat, m: nat)
    requires m < |fields|
  {
    forall i: nat, j: nat | i < |kept| && j < |fields| && kept[i].tag == fields[j].tag && SlotOf(kept, i) == s ::
      SlotOf(fields, j) == SlotOf(fields, m)
  }

  /** A oneof holds the member that was written last. */
  lemma {:induction false} UnionRead(
      kept: seq<Field>, here: seq<Slot>, fields: seq<Field>, there: seq<Slot>, k: nat, m: nat)
    requires WellFormed(kept) && DistinctTags(fields) && Compatible(kept, fields) && Typed(fields, there)
    requires |here| == SlotCount(kept) && Absorbed(kept, here, fields, there, 0).Some?
    requires k < |kept| && m < |fields| && kept[k].htype == Oneof && kept[k].tag == fields[m].tag
    requires SameUnion(kept, fields, SlotOf(kept, k), m)
    requires SlotOf(fields, m) < |there| && there[SlotOf(fields, m)].Union?
    requires there[SlotOf(fields, m)].which == kept[k].tag
    ensures SlotOf(kept, k) < |here|
    ensures Absorbed(kept, here, fields, there, 0).value[SlotOf(kept, k)] ==
      Union(kept[k].tag, NormalValue(kept[k], there[SlotOf(fields, m)].v))
  {
    var s, slot := SlotOf(kept, k), there[SlotOf(fields, m)];
    assert DistinctTags(kept) && WellFormedField(kept[k]);
    assert |there| == SlotCount(fields);
    TypedThere(kept, fields, there, m, k);
    FindsItself(kept, k);
    forall j: nat | j < |fields| && j != m
      ensures !Writes(kept, fields, there, j, s)
    {
      MemberNotNamed(kept, fields, there, j, s, m);
    }
    hide WellFormed, WellFormedField, Compatible, Typed, TypedSlot, MergeSlot, Absorbed, Writes, IndexOf, NormalValue;
    SlotFrom(kept, here, fields, there, 0, m, k);
    LastOneWins(kept[k], here[s], slot, Absorbed(kept, here, fields, there, 0).value[s]);
  }

  lemma {:induction false} MemberNotNamed(
      kept: seq<Field>, fields: seq<Field>, there: seq<Slot>, j: nat, s: nat, m: nat)
    requires j < |fields| && m < |fields| && j != m && DistinctTags(fields) && SameUnion(kept, fields, s, m)
    requires SlotOf(fields, m) < |there| && there[SlotOf(fields, m)].Union?
    requires there[SlotOf(fields, m)].which == fields[m].tag
    ensures !Writes(kept, fields, there, j, s)
  {
    assert fields[j].tag != fields[m].tag;
    hide Find, DistinctTags;
  }

  /** `there` merged into `here` gives r, slot by slot. */
  ghost predicate MergedStruct(fields: seq<Field>, here: seq<Slot>, there: seq<Slot>, r: seq<Slot>) {
    && |r| == |here| == |there| == SlotCount(fields)
    && (forall i | 0 <= i < |fields| :: MergedField(fields, i, here, there, r))
    && (forall s | 0 <= s < |r| && Untouched(fields, there, s) :: r[s] == here[s])
  }

  ghost predicate MergedField(fields: seq<Field>, i: nat, here: seq<Slot>, there: seq<Slot>, r: seq<Slot>)
    requires i < |fields|
  {
    var (f, s) := (fields[i], SlotOf(fields, i));
    && s < |r| == |here| == |there|
    && (f.htype != Oneof || (there[s].Union? && there[s].which == f.tag) ==> MergedAs(f, here[s], there[s], r[s]))
  }

  /** Nothing is written for slot s. */
  ghost predicate Untouched(fields: seq<Field>, there: seq<Slot>, s: nat)
    requires s < |there|
  {
    forall i | 0 <= i < |fields| && SlotOf(fields, i) == s :: Absent(fields[i], there[s])
  }

  lemma {:induction false} MergedIsStruct(fields: seq<Field>, here: seq<Slot>, there: seq<Slot>)
    requires WellFormed(fields) && Typed(fields, there) && Merged(fields, here, there).Some?
    ensures MergedStruct(fields, here, there, Merged(fields, here, there).value)
  {
    var r := Merged(fields, here, there).value;
    assert r == Absorbed(fields, here, fields, there, 0).value;
    assert DistinctTags(fields);
    SameDescriptor(fields);
    hide Absorbed, WellFormed, Merged, MergedAs, Absent, Compatible;
    forall i | 0 <= i < |fields|
      ensures MergedField(fields, i, here, there, r)
    {
      MergedIsField(fields, here, there, i);
    }
    forall s | 0 <= s < |r| && Untouched(fields, there, s)
      ensures r[s] == here[s]
    {
      NothingIsWritten(fields, there, s);
      SlotStays(fields, here, fields, there, 0, s);
    }
  }

  lemma {:induction false} NothingIsWritten(fields: seq<Field>, there: seq<Slot>, s: nat)
    requires DistinctTags(fields) && s < |there| && Untouched(fields, there, s)
    ensures forall m: nat | m < |fields| :: !Writes(fields, fields, there, m, s)
  {
    hide Absent, IndexOf;
    forall m: nat | m < |fields|
      ensures !Writes(fields, fields, there, m, s)
    {
      FindsItself(fields, m);
    }
  }

  lemma {:induction false} MergedIsField(fields: seq<Field>, here: seq<Slot>, there: seq<Slot>, i: nat)
    requires WellFormed(fields) && Typed(fields, there) && i < |fields|
    requires |here| == SlotCount(fields) && Absorbed(fields, here, fields, there, 0).Some?
    ensures MergedField(fields, i, here, there, Absorbed(fields, here, fields, there, 0).value)
  {
    var f, s := fields[i], SlotOf(fields, i);
    assert DistinctTags(fields) && WellFormedField(f) && TypedSlot(f, there[s]) && |there| == SlotCount(fields);
    SlotsAscend(fields, i, i);
    FindsItself(fields, i);
    var r := Absorbed(fields, here, fields, there, 0).value;
    hide Absorbed, MergeSlot, MergedAs, WellFormed, WellFormedField, Typed, TypedSlot, IndexOf;
    if f.htype != Oneof {
      FieldRead(fields, here, fields, there, i);
      LastOneWins(f, here[s], there[s], r[s]);
    } else if there[s].Union? && there[s].which == f.tag {
      SameDescriptor(fields);
      TagsTell(fields, i);
      UnionRead(fields, here, fields, there, i, i);
      NamedMember(f, here[s], there[s]);
    }
  }

  lemma {:induction false} TagsTell(fields: seq<Field>, i: nat)
    requires DistinctTags(fields) && i < |fields|
    ensures SameUnion(fields, fields, SlotOf(fields, i), i)
  {
    hide SlotOf;
    forall j: nat, k: nat | j < |fields| && k < |fields| && fields[j].tag == fields[k].tag
      ensures j == k
    {
    }
  }

  lemma {:induction false} NamedMember(f: Field, here: Slot, there: Slot)
    requires there.Union? && there.which == f.tag
    ensures MergedAs(f, here, there, Union(f.tag, NormalValue(f, there.v)))
  {
    hide NormalValue, Merged;
  }

  // ----- messages

  /**
     Decoding an encoding into any struct merges the two: it is refused exactly when an array
     has not the room, and otherwise gives the merged struct and reads everything.
   */
  lemma {:induction false} DecodedInto(fields: seq<Field>, here: seq<Slot>, there: seq<Slot>)
    requires WellFormed(fields) && Typed(fields, there)
    requires EncodeMessage(fields, there).Some? && |EncodeMessage(fields, there).value| < TWO_32
    ensures var r := DecodeNoinit(fields, here, EncodeMessage(fields, there).value);
      && (r.Some? <==> RoomFor(fields, here, there))
      && (r.Some? ==> r.value.rest == [] && MergedStruct(fields, here, there, r.value.value))
  {
    WellFormedTree(fields);
    hide EncodeMessage, DecodeNoinit, WellFormed, Typed, MergedStruct, RoomFor, Merged, TagsOkTree;
    Merges(fields, here, there);
    RoomExact(fields, here, there);
    if Merged(fields, here, there).Some? {
      MergedIsStruct(fields, here, there);
    }
  }

  lemma {:induction false} WellFormedTree(fields: seq<Field>)
    requires WellFormed(fields)
    ensures TagsOkTree(fields)
    decreases fields
  {
    forall i | 0 <= i < |fields|
      ensures TagsOkField(fields[i])
    {
      assert WellFormedField(fields[i]);
      WellFormedFieldTree(fields[i]);
    }
  }

  lemma {:induction false} WellFormedFieldTree(f: Field)
    requires WellFormedField(f)
    ensures TagsOkField(f)
    decreases f
  {
    if f.ltype.Submessage? {
      WellFormedTree(f.ltype.fields);
    }
  }

  /** Two encodings, one after the other: the second message is merged into the first. */
  lemma {:induction false} SecondMessage(fields: seq<Field>, first: seq<Slot>, second: seq<Slot>)
    requires WellFormed(fields) && Typed(fields, first) && Typed(fields, second)
    requires EncodeMessage(fields, first).Some? && |EncodeMessage(fields, first).value| < TWO_32
    requires EncodeMessage(fields, second).Some? && |EncodeMessage(fields, second).value| < TWO_32
    ensures
      var r := DecodeMessage(fields, EncodeMessage(fields, first).value + EncodeMessage(fields, second).value);
      && (r.Some? <==> RoomFor(fields, Normal(fields, first), second))
      && (r.Some? ==> r.value.rest == [] && MergedStruct(fields, Normal(fields, first), second, r.value.value))
  {
    var a, b := EncodeMessage(fields, first).value, EncodeMessage(fields, second).value;
    WellFormedTags(fields);
    MessageRoundTrip(fields, first);
    EncodedNeverStops(fields, DefaultSlots(fields), first);
    FollowsAccepted(fields, DefaultSlots(fields), a, b);
    DecodedInto(fields, Normal(fields, first), second);
    WellFormedTree(fields);
    SameDescriptor(fields);
    hide EncodeMessage, WellFormed, Typed, MergedStruct, RoomFor, TagsOkTree, TagsOk, DecodeLoop, AllSent, Compatible;
    Reads(fields, Normal(fields, first), fields, second);
    RoomExact(fields, Normal(fields, first), second);
  }

  /** Behind an accepted message that read all its octets, more octets are decoded into the result. */
  lemma {:induction false} FollowsAccepted(fields: seq<Field>, here: seq<Slot>, a: seq<byte>, b: seq<byte>)
    requires DistinctTags(fields) && |here| == SlotCount(fields)
    requires DecodeNoinit(fields, here, a).Some? && !EndsAtZeroTag(fields, here, a)
    ensures var (mid, r) := (DecodeNoinit(fields, here, a).value.value, DecodeNoinit(fields, here, a + b));
      && |mid| == SlotCount(fields)
      && var x := DecodeLoop(fields, Partial(mid, {}, 0), b);
         (r.Some? <==> x.Some?) && (r.Some? ==> r.value == Read(x.value.d.slots, x.value.rest))
  {
    var d := Partial(here, {}, 0);
    LoopConcat(fields, d, a, b);
    var d' := DecodeLoop(fields, d, a).value.d;
    var mid := Partial(d'.slots, {}, 0);
    PositionIrrelevant(fields, d', mid, b);
    PbMerge.SeenGrows(fields, d', b);
    hide DecodeLoop;
  }

  // ----- older and newer readers

  /** The struct that a reader with its own descriptor sees: the writer's fields where it has them. */
  ghost predicate Shown(kept: seq<Field>, r: seq<Slot>, fields: seq<Field>, there: seq<Slot>, k: nat)
    requires k < |kept|
  {
    var (f, s) := (kept[k], SlotOf(kept, k));
    && s < |r|
    && match IndexOf(fields, f.tag)
       case None => f.htype != Oneof ==> r[s] == DefaultSlot(f)
       case Some(m) =>
         && SlotOf(fields, m) < |there|
         && var slot := there[SlotOf(fields, m)];
            && (f.htype != Oneof ==> r[s] == NormalSlot(f, slot, DefaultSlot(f)))
            && (f.htype == Oneof && slot.Union? && slot.which == f.tag && SameUnion(kept, fields, s, m) ==>
                  r[s] == Union(f.tag, NormalValue(f, slot.v)))
  }

  /**
     A reader whose descriptor has other fields than the writer's accepts the message, if the
     writer has the required fields it tracks: fields it does not know are passed over, those
     both know arrive as written, and those the writer does not know keep their defaults.
   */
  lemma {:induction false} OtherReader(kept: seq<Field>, fields: seq<Field>, there: seq<Slot>)
    requires WellFormed(kept) && TagsOk(fields) && Compatible(kept, fields) && AllSent(kept, fields)
    requires Typed(fields, there) && EncodeMessage(fields, there).Some?
    requires |EncodeMessage(fields, there).value| < TWO_32
    ensures var r := DecodeMessage(kept, EncodeMessage(fields, there).value);
      r.Some? && r.value.rest == [] && forall k | 0 <= k < |kept| :: Shown(kept, r.value.value, fields, there, k)
  {
    WellFormedTree(kept);
    var here := DefaultSlots(kept);
    assert DistinctTags(kept) && DistinctTags(fields);
    assert |there| == SlotCount(fields);
    hide EncodeMessage, DecodeNoinit, Absorbed, Typed, AllSent, TagsOkTree, TagsOk, RoomFrom, Shown, WellFormed;
    hide Compatible, DistinctTags;
    Reads(kept, here, fields, there);
    DefaultsHaveRoom(kept, fields, there);
    RoomFromExact(kept, here, fields, there, 0);
    forall k | 0 <= k < |kept|
      ensures Shown(kept, Absorbed(kept, here, fields, there, 0).value, fields, there, k)
    {
      ShownAt(kept, fields, there, k);
    }
  }

  lemma {:induction false} DefaultsHaveRoom(kept: seq<Field>, fields: seq<Field>, there: seq<Slot>)
    requires WellFormed(kept) && Compatible(kept, fields) && Typed(fields, there)
    ensures RoomFrom(kept, DefaultSlots(kept), fields, there, 0)
  {
    hide RoomSlot, TypedSlot, SlotOf, SlotCount;
    forall k, m | 0 <= k < |kept| && 0 <= m < |fields| && kept[k].tag == fields[m].tag
      ensures SlotOf(kept, k) < |DefaultSlots(kept)| && SlotOf(fields, m) < |there|
      ensures RoomSlot(kept[k], DefaultSlots(kept)[SlotOf(kept, k)], there[SlotOf(fields, m)])
    {
      RoomAtDefault(kept, fields, there, k, m);
    }
  }

  lemma {:induction false} RoomAtDefault(kept: seq<Field>, fields: seq<Field>, there: seq<Slot>, k: nat, m: nat)
    requires WellFormed(kept) && Compatible(kept, fields) && Typed(fields, there)
    requires k < |kept| && m < |fields| && kept[k].tag == fields[m].tag
    ensures SlotOf(kept, k) < |DefaultSlots(kept)| && SlotOf(fields, m) < |there|
    ensures RoomSlot(kept[k], DefaultSlots(kept)[SlotOf(kept, k)], there[SlotOf(fields, m)])
  {
    assert WellFormedField(kept[k]);
    hide RoomSlot, TypedSlot, Compatible, Typed, WellFormed, WellFormedField, MergeSlot;
    TypedThere(kept, fields, there, m, k);
    DefaultAt(kept, k);
    FreshSlot(kept[k], DefaultSlots(kept)[SlotOf(kept, k)], there[SlotOf(fields, m)]);
    RoomSlotExact(kept[k], DefaultSlots(kept)[SlotOf(kept, k)], there[SlotOf(fields, m)]);
  }

  lemma {:induction false} DefaultAt(kept: seq<Field>, k: nat)
    requires k < |kept|
    ensures SlotOf(kept, k) < |DefaultSlots(kept)|
    ensures var d := DefaultSlots(kept)[SlotOf(kept, k)];
      if kept[k].htype == Oneof then d.Union? else d == DefaultSlot(kept[k])
  {
    DefaultSlotAt(kept, k);
  }

  lemma {:induction false} ShownAt(kept: seq<Field>, fields: seq<Field>, there: seq<Slot>, k: nat)
    requires WellFormed(kept) && DistinctTags(kept) && DistinctTags(fields) && Compatible(kept, fields)
    requires Typed(fields, there) && |there| == SlotCount(fields) && k < |kept|
    requires Absorbed(kept, DefaultSlots(kept), fields, there, 0).Some?
    ensures Shown(kept, Absorbed(kept, DefaultSlots(kept), fields, there, 0).value, fields, there, k)
  {
    var f, s, here := kept[k], SlotOf(kept, k), DefaultSlots(kept);
    assert WellFormedField(f);
    DefaultAt(kept, k);
    hide WellFormed, WellFormedField, Typed, TypedSlot, Compatible, MergeSlot, NormalSlot, NormalValue, DefaultSlot;
    hide IndexOf, SlotOf, DistinctTags, Absorbed;
    if f.htype != Oneof {
      FieldRead(kept, here, fields, there, k);
    }
    match IndexOf(fields, f.tag)
    case None =>
    case Some(m) =>
      TypedThere(kept, fields, there, m, k);
      FreshSlot(f, here[s], there[SlotOf(fields, m)]);
      if f.htype == Oneof && there[SlotOf(fields, m)].Union? && there[SlotOf(fields, m)].which == f.tag {
        if SameUnion(kept, fields, s, m) {
          UnionRead(kept, here, fields, there, k, m);
        }
      }
  }

  // ----- unpacked items

  /**
     Items written one by one, each with its tag, as an encoder that does not pack writes any
     array: all are appended in order, or the message is refused when they are too many.
   */
  lemma {:induction false} UnpackedItemsAppended(
      fields: seq<Field>, d: Partial, k: nat, items: seq<Value>, t: seq<byte>) returns (d': Partial)
    requires WellFormed(fields) && k < |fields| && Fits(fields, d) && SlotOf(fields, k) < |d.slots|
    requires var f := fields[k];
      && f.htype == Repeated && d.slots[SlotOf(fields, k)].Rep? && (forall x | x in items :: TypedValue(f, x))
      && EncodeTagged(f, items).Some? && |EncodeTagged(f, items).value| < TWO_32
    ensures Fits(fields, d')
    ensures var (f, s) := (fields[k], SlotOf(fields, k));
      var (done, all) := (d.slots[s].items, DecodeLoop(fields, d, EncodeTagged(f, items).value + t));
      if items == [] || |done| + |items| <= f.arraySize
      then d'.slots == d.slots[s := Rep(done + NormalItems(f, items))] && all == DecodeLoop(fields, d', t)
      else all.None?
  {
    WellFormedTree(fields);
    assert WellFormedField(fields[k]);
    hide WellFormed, TagsOkTree, DecodeLoop, EncodeTagged, MergeItems, NormalItems;
    d' := TaggedItemsMeet(fields, d, k, items, t);
    ItemsAppended(fields[k], d.slots[SlotOf(fields, k)].items, items);
  }
}
