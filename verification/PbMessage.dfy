/**
 nanopb message descriptors and the structs they describe (pb.h, pb_common.c).

 A struct is a list of storage slots. The members of a oneof share one slot, exactly as
 they share one data pointer in the field iterator; every other field has its own.
 */
module PbMessage {
  import opened Octets
  import opened Fragments

  /** PB_SIZE_MAX: the repository builds nanopb with PB_FIELD_32BIT. */
  const SIZE_MAX: int := 0xffff_ffff

  /** offsetof(pb_bytes_array_t, bytes). */
  const BYTES_OFFSET: int := 4

  const MAX_REQUIRED_FIELDS: nat := 64

  datatype HType = Required | Optional | Repeated | Oneof

  datatype LType =
    | VarintType
    | UvarintType
    | SvarintType
    | Fixed32Type
    | Fixed64Type
    | BytesType
    | StringType
    | Submessage(fields: seq<Field>)
    | FixedLengthBytesType
  {
    /** LTYPE <= PB_LTYPE_LAST_PACKABLE. */
    predicate Packable() {
      VarintType? || UvarintType? || SvarintType? || Fixed32Type? || Fixed64Type?
    }
  }

  /**
   A statically allocated field. dataOffset is the distance from the end of the previous
   field, or SIZE_MAX for a later member of a union; sizeOffset is the distance from the
   data to its has-flag, count or which-tag, and 0 when it has none.
   */
  datatype Field = Field(
    tag: nat,
    htype: HType,
    ltype: LType,
    dataOffset: nat,
    sizeOffset: int,
    dataSize: nat,
    arraySize: nat,
    default_: Value)

  /** Integers stand for their C value; bytes and strings for their contents. */
  datatype Value = Int(i: int) | Chars(b: seq<byte>) | Struct(slots: seq<Slot>)

  /** Opt keeps the has-flag, Rep the array up to its count, Union the which-tag. */
  datatype Slot =
    | Single(v: Value)
    | Opt(has: bool, v: Value)
    | Rep(items: seq<Value>)
    | Union(which: nat, v: Value)

  // ----- where a field lives

  /** A later member of a union lies where the member before it does. */
  predicate JoinsPrevious(prev: Field, f: Field) {
    prev.htype == Oneof && f.htype == Oneof && f.dataOffset == SIZE_MAX
  }

  /** The slot of field i. */
  function SlotOf(fields: seq<Field>, i: nat): (s: nat)
    requires i < |fields|
    ensures s <= i
  {
    if i == 0 then 0
    else SlotOf(fields, i - 1) + if JoinsPrevious(fields[i - 1], fields[i]) then 0 else 1
  }

  function SlotCount(fields: seq<Field>): (n: nat)
    ensures n <= |fields|
    ensures fields != [] ==> n > 0
  {
    if fields == [] then 0 else SlotOf(fields, |fields| - 1) + 1
  }

  lemma {:induction false} SlotsAscend(fields: seq<Field>, i: nat, j: nat)
    requires i <= j < |fields|
    ensures SlotOf(fields, i) <= SlotOf(fields, j) < SlotCount(fields)
    ensures SlotOf(fields, i) == SlotOf(fields, j) && i < j ==>
      fields[i].htype == Oneof && fields[j].htype == Oneof
    decreases |fields| - i
  {
    if i == j {
      if j < |fields| - 1 {
        SlotsAscend(fields, j + 1, |fields| - 1);
      }
    } else {
      SlotsAscend(fields, i + 1, j);
    }
  }

  /** The number of required fields before field i. */
  function RequiredIndex(fields: seq<Field>, i: nat): (n: nat)
    requires i <= |fields|
    ensures n <= i
  {
    if i == 0 then 0
    else RequiredIndex(fields, i - 1) + if fields[i - 1].htype == Required then 1 else 0
  }

  // ----- defaults

  function Zeros(n: nat): seq<byte> {
    seq(n, _ => 0)
  }

  /** pb_field_set_to_default on the data of a field. */
  function DefaultValue(f: Field): Value
    decreases f, 0
  {
    match f.ltype
    case Submessage(fields) => Struct(DefaultSlots(fields))
    case _ => f.default_
  }

  function DefaultSlot(f: Field): Slot
    decreases f, 1
  {
    match f.htype
    case Required => Single(DefaultValue(f))
    case Optional => if f.sizeOffset != 0 then Opt(false, DefaultValue(f)) else Single(DefaultValue(f))
    case Repeated => Rep([])
    case Oneof => Union(0, Int(0))
  }

  /** The slots of the first n fields, each set to its default. */
  function DefaultsUpTo(fields: seq<Field>, n: nat): (slots: seq<Slot>)
    requires n <= |fields|
    ensures |slots| == if n == 0 then 0 else SlotOf(fields, n - 1) + 1
    decreases fields, n
  {
    if n == 0 then []
    else
      var before := DefaultsUpTo(fields, n - 1);
      if n > 1 && JoinsPrevious(fields[n - 2], fields[n - 1]) then before
      else before + [DefaultSlot(fields[n - 1])]
  }

  function DefaultSlots(fields: seq<Field>): (slots: seq<Slot>)
    ensures |slots| == SlotCount(fields)
    decreases fields, |fields| + 1
  {
    DefaultsUpTo(fields, |fields|)
  }

  lemma {:induction false} DefaultsAt(fields: seq<Field>, n: nat, i: nat)
    requires i < n <= |fields|
    ensures SlotOf(fields, i) <= SlotOf(fields, n - 1)
    ensures DefaultsUpTo(fields, n)[SlotOf(fields, i)] == DefaultSlot(fields[i])
    decreases n
  {
    SlotsAscend(fields, i, n - 1);
    if i < n - 1 {
      DefaultsAt(fields, n - 1, i);
    } else if n > 1 && JoinsPrevious(fields[n - 2], fields[n - 1]) {
      DefaultsAt(fields, n - 1, n - 2);
    }
  }

  lemma DefaultSlotAt(fields: seq<Field>, i: nat)
    requires i < |fields|
    ensures SlotOf(fields, i) < SlotCount(fields)
    ensures DefaultSlots(fields)[SlotOf(fields, i)] == DefaultSlot(fields[i])
  {
    SlotsAscend(fields, i, |fields| - 1);
    DefaultsAt(fields, |fields|, i);
  }
}
