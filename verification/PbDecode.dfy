/**
 What nanopb makes of a stream (pb_decode.c), as a function of the octets left on it and
 of the struct being filled. None stands for a decoder that returns false.
 */
module PbDecode {
  import opened Octets
  import opened Fragments
  import opened PbWire
  import opened PbMessage
  import opened PbEncode

  // ----- tags

  datatype TagRead = EndOfMessage(rest: seq<byte>) | BadTag | FieldTag(tag: nat, wire: nat, rest: seq<byte>)

  /** pb_decode_tag: a clean end of stream or a zero tag ends the message. */
  function ReadTag(s: seq<byte>): (r: TagRead)
    ensures r.FieldTag? ==> |r.rest| < |s|
    ensures s != [] && r.EndOfMessage? ==> |r.rest| < |s|
  {
    match ReadVarint32(s)
    case Eof => EndOfMessage(s)
    case Bad => BadTag
    case Got(v, rest) => if v == 0 then EndOfMessage(rest) else FieldTag(v / 8, v % 8, rest)
  }

  function SkipString(s: seq<byte>): (r: Option<seq<byte>>)
    ensures r.Some? ==> |r.value| <= |s|
  {
    match ReadVarint32(s)
    case Got(n, rest) => if |rest| < n then None else Some(rest[n..])
    case _ => None
  }

  /** pb_skip_field. */
  function SkipField(wire: nat, s: seq<byte>): (r: Option<seq<byte>>)
    ensures r.Some? ==> |r.value| <= |s|
  {
    if wire == 0 then SkipVarint(s)
    else if wire == 1 then (if |s| < 8 then None else Some(s[8..]))
    else if wire == 2 then SkipString(s)
    else if wire == 5 then (if |s| < 4 then None else Some(s[4..]))
    else None
  }

  /** pb_field_iter_find: one lap from `start`, the first field with the tag. */
  function Find(fields: seq<Field>, start: nat, tag: nat): (r: Option<nat>)
    requires start < |fields|
    ensures r.Some? ==> r.value < |fields| && fields[r.value].tag == tag
    ensures r.None? ==> forall i | 0 <= i < |fields| :: fields[i].tag != tag
  {
    var up := FindUp(fields, start, |fields|, tag);
    if up.Some? then up else FindUp(fields, 0, start, tag)
  }

  function FindUp(fields: seq<Field>, from: nat, end: nat, tag: nat): (r: Option<nat>)
    requires from <= end <= |fields|
    ensures r.Some? ==> from <= r.value < end && fields[r.value].tag == tag
    ensures r.None? ==> forall i | from <= i < end :: fields[i].tag != tag
    decreases end - from
  {
    if from == end then None
    else if fields[from].tag == tag then Some(from)
    else FindUp(fields, from + 1, end, tag)
  }

  // ----- scalars

  predicate InSigned(i: int, size: nat) {
    if size == 1 then -0x80 <= i < 0x80
    else if size == 2 then -0x8000 <= i < 0x8000
    else if size == 4 then -TWO_31 <= i < TWO_31
    else -TWO_63 <= i < TWO_63
  }

  predicate InUnsigned(i: int, size: nat) {
    if size == 1 then 0 <= i < 0x100
    else if size == 2 then 0 <= i < 0x1_0000
    else if size == 4 then 0 <= i < TWO_32
    else 0 <= i < TWO_64
  }

  /** The cast of pb_dec_varint: fields of at most 32 bits see the low 32 bits, signed. */
  function VarintField(size: nat, v: nat): (r: Option<Value>)
    requires v < TWO_64
  {
    if !IntegerSize(size) then None
    else
      var i := if size == 8 then Signed(v, TWO_63) else Signed(v % TWO_32, TWO_31);
      if InSigned(i, size) then Some(Int(i)) else None
  }

  function UvarintField(size: nat, v: nat): Option<Value> {
    if IntegerSize(size) && InUnsigned(v, size) then Some(Int(v)) else None
  }

  function SvarintField(size: nat, v: nat): Option<Value>
    requires v < TWO_64
  {
    var i := UnZigZag(v);
    if IntegerSize(size) && InSigned(i, size) then Some(Int(i)) else None
  }

  function WithRest(v: Option<Value>, rest: seq<byte>): Option<Read<Value>> {
    match v
    case None => None
    case Some(value) => Some(Read(value, rest))
  }

  /** A 32-bit length and that many octets. */
  function ReadPrefixed(s: seq<byte>): (r: Option<Read<seq<byte>>>)
    ensures r.Some? ==> |r.value.rest| < |s| && |r.value.value| < |s|
  {
    match ReadVarint32(s)
    case Got(n, rest) => ReadBytes(rest, n)
    case _ => None
  }

  /** The length a string-like field announces, before any of its octets are read. */
  function ReadLength(s: seq<byte>): Option<nat> {
    match ReadVarint32(s)
    case Got(n, _) => Some(n)
    case _ => None
  }

  // ----- fields

  /** PB_DECODERS[LTYPE] on a field whose data held `old_`. */
  function DecodeValue(f: Field, old_: Value, s: seq<byte>): (r: Option<Read<Value>>)
    ensures r.Some? ==> |r.value.rest| < |s|
    decreases f, |s|, 0
  {
    match f.ltype
    case VarintType =>
      (match ReadVarint(s)
       case None => None
       case Some(r) => WithRest(VarintField(f.dataSize, r.value), r.rest))
    case UvarintType =>
      (match ReadVarint(s)
       case None => None
       case Some(r) => WithRest(UvarintField(f.dataSize, r.value), r.rest))
    case SvarintType =>
      (match ReadVarint(s)
       case None => None
       case Some(r) => WithRest(SvarintField(f.dataSize, r.value), r.rest))
    case Fixed32Type =>
      (match ReadFixed(s, 4)
       case None => None
       case Some(r) => Some(Read(Int(r.value), r.rest)))
    case Fixed64Type =>
      (match ReadFixed(s, 8)
       case None => None
       case Some(r) => Some(Read(Int(r.value), r.rest)))
    case BytesType =>
      (match ReadLength(s)
       case None => None
       case Some(n) =>
         if n > SIZE_MAX || n + BYTES_OFFSET > f.dataSize then None
         else WithChars(ReadPrefixed(s)))
    case StringType =>
      (match ReadLength(s)
       case None => None
       case Some(n) => if n + 1 > f.dataSize then None else WithChars(ReadPrefixed(s)))
    case FixedLengthBytesType =>
      (match ReadVarint32(s)
       case Got(n, rest) =>
         if n > SIZE_MAX then None
         else if n == 0 then Some(Read(Chars(Zeros(f.dataSize)), rest))
         else if n != f.dataSize then None
         else WithChars(ReadPrefixed(s))
       case _ => None)
    case Submessage(fields) =>
      // A limited substream; whatever is left on it afterwards is skipped.
      (match ReadPrefixed(s)
       case None => None
       case Some(sub) =>
         var start := if f.htype == Repeated || !old_.Struct? then DefaultSlots(fields) else old_.slots;
         match DecodeNoinit(fields, start, sub.value)
         case None => None
         case Some(r) => Some(Read(Struct(r.value), sub.rest)))
  }

  function WithChars(r: Option<Read<seq<byte>>>): (v: Option<Read<Value>>)
    ensures v.Some? <==> r.Some?
    ensures v.Some? ==> v.value == Read(Chars(r.value.value), r.value.rest)
  {
    match r
    case None => None
    case Some(x) => Some(Read(Chars(x.value), x.rest))
  }

  /** The packed-array loop: items until the substream or the array is exhausted. */
  function DecodePacked(f: Field, items: seq<Value>, s: seq<byte>): Option<seq<Value>>
    decreases f, |s|, 1
  {
    if s == [] then Some(items)
    else if |items| >= f.arraySize then None
    else
      match DecodeValue(f, Int(0), s)
      case None => None
      case Some(r) => DecodePacked(f, items + [r.value], r.rest)
  }

  function IntoSlot(v: Option<Read<Value>>, wrap: Value -> Slot): Option<Read<Slot>> {
    match v
    case None => None
    case Some(r) => Some(Read(wrap(r.value), r.rest))
  }

  /** decode_static_field. */
  function DecodeField(f: Field, slot: Slot, wire: nat, s: seq<byte>): (r: Option<Read<Slot>>)
    ensures r.Some? ==> |r.value.rest| < |s|
    decreases f, |s|, 2
  {
    match slot
    case Single(v) =>
      if f.htype == Required || (f.htype == Optional && f.sizeOffset == 0) then
        IntoSlot(DecodeValue(f, v, s), x => Single(x))
      else None
    case Opt(_, v) =>
      if f.htype == Optional && f.sizeOffset != 0 then IntoSlot(DecodeValue(f, v, s), x => Opt(true, x)) else None
    case Rep(items) =>
      if f.htype != Repeated || f.sizeOffset == 0 then None
      else if wire == 2 && f.ltype.Packable() then
        (match ReadPrefixed(s)
         case None => None
         case Some(sub) =>
           match DecodePacked(f, items, sub.value)
           case None => None
           case Some(items') => Some(Read(Rep(items'), sub.rest)))
      else if |items| >= f.arraySize then None
      else IntoSlot(DecodeValue(f, DefaultValue(f), s), x => Rep(items + [x]))
    case Union(_, v) =>
      if f.htype != Oneof then None
      else
        // A submessage in a union always starts from its defaults.
        IntoSlot(DecodeValue(f, if f.ltype.Submessage? then DefaultValue(f) else v, s), x => Union(f.tag, x))
  }

  // ----- messages

  /** The struct so far, the required fields seen, and the field the iterator is on. */
  datatype Partial = Partial(slots: seq<Slot>, seen: set<nat>, pos: nat)

  predicate Fits(fields: seq<Field>, d: Partial) {
    && |d.slots| == SlotCount(fields)
    && (if fields == [] then d.pos == 0 else d.pos < |fields|)
  }

  datatype StepResult = Next(d: Partial, rest: seq<byte>) | Stop(rest: seq<byte>) | Failed

  /** The tracked required fields: those counted below PB_MAX_REQUIRED_FIELDS. */
  function Seen(fields: seq<Field>, seen: set<nat>, i: nat): set<nat>
    requires i < |fields|
  {
    if fields[i].htype == Required && RequiredIndex(fields, i) < MAX_REQUIRED_FIELDS
    then seen + {RequiredIndex(fields, i)} else seen
  }

  /** One turn of the loop of pb_decode_noinit. */
  function DecodeOne(fields: seq<Field>, d: Partial, s: seq<byte>): (r: StepResult)
    requires s != [] && Fits(fields, d)
    ensures r.Next? ==> |r.rest| < |s| && Fits(fields, r.d)
    ensures r.Stop? ==> |r.rest| < |s|
    decreases fields, |s|, 0
  {
    match ReadTag(s)
    case BadTag => Failed
    case EndOfMessage(rest) => Stop(rest)
    case FieldTag(tag, wire, rest) =>
      if fields == [] then
        // The terminator is all an empty descriptor has, and tag 0 finds it.
        if tag == 0 then Failed
        else
          match SkipField(wire, rest)
          case None => Failed
          case Some(after) => Next(d, after)
      else
        match Find(fields, d.pos, tag)
        case None =>
          (match SkipField(wire, rest)
           case None => Failed
           case Some(after) => Next(d, after))
        case Some(i) =>
          SlotsAscend(fields, i, i);
          match DecodeField(fields[i], d.slots[SlotOf(fields, i)], wire, rest)
          case None => Failed
          case Some(r) => Next(Partial(d.slots[SlotOf(fields, i) := r.value], Seen(fields, d.seen, i), i), r.rest)
  }

  /** How the loop ended: the struct, what is left, and whether a zero tag ended it. */
  datatype Decoded = Decoded(d: Partial, rest: seq<byte>, stopped: bool)

  function DecodeLoop(fields: seq<Field>, d: Partial, s: seq<byte>): (r: Option<Decoded>)
    requires Fits(fields, d)
    ensures r.Some? ==> Fits(fields, r.value.d)
    ensures r.Some? && !r.value.stopped ==> r.value.rest == []
    decreases fields, |s|, 1
  {
    if s == [] then Some(Decoded(d, [], false))
    else
      match DecodeOne(fields, d, s)
      case Failed => None
      case Stop(rest) => Some(Decoded(d, rest, true))
      case Next(d', rest) => DecodeLoop(fields, d', rest)
  }

  /** How many required fields are tracked. */
  function TrackedCount(fields: seq<Field>): (n: nat)
    ensures n <= MAX_REQUIRED_FIELDS
  {
    var n := RequiredIndex(fields, |fields|);
    if n > MAX_REQUIRED_FIELDS then MAX_REQUIRED_FIELDS else n
  }

  predicate AllSeen(fields: seq<Field>, seen: set<nat>) {
    forall k: nat | k < TrackedCount(fields) :: k in seen
  }

  /** pb_decode_noinit: fill `slots` further. The octets left over come with the result. */
  function DecodeNoinit(fields: seq<Field>, slots: seq<Slot>, s: seq<byte>): (r: Option<Read<seq<Slot>>>)
    decreases fields, |s|, 2
  {
    if |slots| != SlotCount(fields) then None
    else
      match DecodeLoop(fields, Partial(slots, {}, 0), s)
      case None => None
      case Some(r) => if AllSeen(fields, r.d.seen) then Some(Read(r.d.slots, r.rest)) else None
  }

  /** pb_decode. */
  function DecodeMessage(fields: seq<Field>, s: seq<byte>): Option<Read<seq<Slot>>> {
    DecodeNoinit(fields, DefaultSlots(fields), s)
  }
}
