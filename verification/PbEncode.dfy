/**
 What nanopb writes for a message (pb_encode.c), as a function of the struct. None stands
 for an encoder that returns false for a reason other than lack of room.
 */
module PbEncode {
  import opened Octets
  import opened Fragments
  import opened PbWire
  import opened PbMessage

  datatype WireType = WtVarint | Wt64Bit | WtString | Wt32Bit

  function WireNumber(wt: WireType): nat {
    match wt
    case WtVarint => 0
    case Wt64Bit => 1
    case WtString => 2
    case Wt32Bit => 5
  }

  function Tag(wt: WireType, tag: nat): seq<byte> {
    Varint(tag * 8 + WireNumber(wt))
  }

  function FieldWireType(ltype: LType): WireType {
    match ltype
    case VarintType | UvarintType | SvarintType => WtVarint
    case Fixed32Type => Wt32Bit
    case Fixed64Type => Wt64Bit
    case _ => WtString
  }

  function TagFor(f: Field): seq<byte> {
    Tag(FieldWireType(f.ltype), f.tag)
  }

  predicate IntegerSize(n: nat) {
    n == 1 || n == 2 || n == 4 || n == 8
  }

  /** strnlen over a char array of `limit` octets; the array reads as zero past `b`. */
  function TextLength(b: seq<byte>, limit: nat): (n: nat)
    ensures n <= limit && n <= |b|
    ensures forall k | 0 <= k < n :: b[k] != 0
    ensures n < limit && n < |b| ==> b[n] == 0
  {
    if b == [] || limit == 0 || b[0] == 0 then 0 else 1 + TextLength(b[1..], limit - 1)
  }

  function Prefixed(s: seq<byte>): seq<byte> {
    Varint(|s|) + s
  }

  function Append(a: Option<seq<byte>>, b: Option<seq<byte>>): (r: Option<seq<byte>>)
    ensures r.Some? <==> a.Some? && b.Some?
    ensures r.Some? ==> r.value == a.value + b.value
  {
    if a.Some? && b.Some? then Some(a.value + b.value) else None
  }

  /** The payload of one item: what PB_ENCODERS[LTYPE] writes. */
  function EncodeValue(f: Field, v: Value): (r: Option<seq<byte>>)
    decreases f, 0
  {
    match f.ltype
    case VarintType => if IntegerSize(f.dataSize) && v.Int? then Some(Varint(Unsigned64(v.i))) else None
    case UvarintType => if IntegerSize(f.dataSize) && v.Int? then Some(Varint(Unsigned64(v.i))) else None
    case SvarintType => if IntegerSize(f.dataSize) && v.Int? then Some(Varint(ZigZag(v.i))) else None
    case Fixed32Type => if v.Int? then Some(LittleEndian(v.i % TWO_32, 4)) else None
    case Fixed64Type => if v.Int? then Some(LittleEndian(v.i % TWO_64, 8)) else None
    case BytesType =>
      if v.Chars? && |v.b| + BYTES_OFFSET <= f.dataSize then Some(Prefixed(v.b)) else None
    case StringType =>
      if v.Chars? then Some(Prefixed(v.b[..TextLength(v.b, f.dataSize)])) else None
    case FixedLengthBytesType =>
      if v.Chars? && |v.b| == f.dataSize then Some(Prefixed(v.b)) else None
    case Submessage(fields) =>
      if !v.Struct? then None
      else
        match EncodeMessage(fields, v.slots)
        case None => None
        case Some(s) => Some(Prefixed(s))
  }

  function EncodeItems(f: Field, items: seq<Value>): Option<seq<byte>>
    decreases f, 1, |items|
  {
    if items == [] then Some([])
    else Append(EncodeValue(f, items[0]), EncodeItems(f, items[1..]))
  }

  function EncodeTagged(f: Field, items: seq<Value>): Option<seq<byte>>
    decreases f, 1, |items|
  {
    if items == [] then Some([])
    else Append(Append(Some(TagFor(f)), EncodeValue(f, items[0])), EncodeTagged(f, items[1..]))
  }

  /** encode_array: arrays of scalars are always packed. */
  function EncodeArray(f: Field, items: seq<Value>): Option<seq<byte>>
    decreases f, 2
  {
    if items == [] then Some([])
    else if |items| > f.arraySize then None
    else if f.ltype.Packable() then
      match EncodeItems(f, items)
      case None => None
      case Some(s) => Some(Tag(WtString, f.tag) + Prefixed(s))
    else EncodeTagged(f, items)
  }

  /** pb_check_proto3_default_value for the contents of a slot. */
  predicate IsDefaultValue(f: Field, v: Value)
    decreases f, 0
  {
    match f.ltype
    case BytesType => v.Chars? && v.b == []
    case StringType => v.Chars? && TextLength(v.b, 1) == 0
    case FixedLengthBytesType => f.dataSize == 0
    case Submessage(fields) => v.Struct? && AllDefault(fields, v.slots, 0)
    case _ => v == Int(0)
  }

  predicate IsDefaultSlot(f: Field, slot: Slot)
    decreases f, 1
  {
    match slot
    case Single(v) => f.htype == Optional && IsDefaultValue(f, v)
    case Opt(has, _) => !has
    case Rep(items) => items == []
    case Union(which, _) => which == 0
  }

  predicate AllDefault(fields: seq<Field>, slots: seq<Slot>, i: nat)
    decreases fields, |fields| - i
  {
    i >= |fields| ||
    (|slots| == SlotCount(fields) && SlotOf(fields, i) < |slots| &&
     IsDefaultSlot(fields[i], slots[SlotOf(fields, i)]) && AllDefault(fields, slots, i + 1))
  }

  /** encode_basic_field. */
  function EncodeField(f: Field, slot: Slot): Option<seq<byte>>
    decreases f, 3
  {
    match slot
    case Single(v) =>
      if f.htype == Required || (f.htype == Optional && f.sizeOffset == 0) then
        if f.htype == Optional && IsDefaultValue(f, v) then Some([])
        else Append(Some(TagFor(f)), EncodeValue(f, v))
      else None
    case Opt(has, v) =>
      if f.htype != Optional || f.sizeOffset == 0 then None
      else if has then Append(Some(TagFor(f)), EncodeValue(f, v))
      else Some([])
    case Rep(items) =>
      if f.htype != Repeated || f.sizeOffset == 0 then None else EncodeArray(f, items)
    case Union(which, v) =>
      if f.htype != Oneof then None
      else if which == f.tag then Append(Some(TagFor(f)), EncodeValue(f, v))
      else Some([])
  }

  /** The fields from index i on, in declaration order. */
  function EncodeFrom(fields: seq<Field>, slots: seq<Slot>, i: nat): Option<seq<byte>>
    requires |slots| == SlotCount(fields)
    decreases fields, 0, |fields| - i
  {
    if i >= |fields| then Some([])
    else
      SlotsAscend(fields, i, i);
      Append(EncodeField(fields[i], slots[SlotOf(fields, i)]), EncodeFrom(fields, slots, i + 1))
  }

  /** pb_encode. */
  function EncodeMessage(fields: seq<Field>, slots: seq<Slot>): Option<seq<byte>>
    decreases fields, 1
  {
    if |slots| != SlotCount(fields) then None else EncodeFrom(fields, slots, 0)
  }
}
