/**
 The nanopb decoder as it runs (pb_decode.c): input streams whose position and remaining
 length move, limited substreams, and the field loop with its bitmap of required fields.

 Every method is proved against PbDecode: it succeeds exactly when the function does, with
 the same value, and leaves exactly the same octets on the stream.
 */
module PbDecoder {
  import opened Octets
  import opened Fragments
  import opened PbWire
  import opened PbMessage
  import opened PbEncode
  import opened PbDecode
  import opened PbFieldIter
  import opened PbMerge
  import opened PbSeenBits

  // ----- the varint loop

  /** What the groups still to come make of a value of which `acc` has been read. */
  function Resume(acc: nat, k: nat, r: Option<Read<nat>>): Option<Read<nat>> {
    match r
    case None => None
    case Some(x) => Some(Read(acc + Power128(k) * x.value, x.rest))
  }

  lemma ResumeStep(acc: nat, k: nat, s: seq<byte>)
    requires k < 10 && s != []
    ensures Resume(acc, k, ReadGroups(s, k)) ==
            if s[0] < 128 then Some(Read(acc + Power128(k) * s[0], s[1..]))
            else Resume(acc + Power128(k) * (s[0] - 128), k + 1, ReadGroups(s[1..], k + 1))
  {
    var high := ReadGroups(s[1..], k + 1);
    if s[0] >= 128 && high.Some? {
      var p, b, v := Power128(k), s[0] - 128, high.value.value;
      assert p * (b + 128 * v) == p * b + (128 * p) * v;
    }
  }

  lemma ResumeEnds(acc: nat, k: nat, s: seq<byte>)
    ensures Resume(0, 0, ReadGroups(s, 0)) == ReadGroups(s, 0)
    ensures k >= 10 || s == [] ==> Resume(acc, k, ReadGroups(s, k)) == None
  {
  }

  lemma SumModulo(acc: nat, more: nat)
    ensures (acc % TWO_64 + more) % TWO_64 == (acc + more) % TWO_64
  {
    var q, m := acc / TWO_64, acc % TWO_64;
    assert acc + more == q * TWO_64 + (m + more);
    ModuloShift(m + more, q);
  }

  lemma {:induction false} ModuloShift(x: nat, q: nat)
    ensures (q * TWO_64 + x) % TWO_64 == x % TWO_64
  {
    if q > 0 {
      ModuloShift(x, q - 1);
      assert q * TWO_64 + x == ((q - 1) * TWO_64 + x) + TWO_64;
    }
  }

  class IStream {
    const data: seq<byte>
    var state: nat
    var bytesLeft: nat

    ghost predicate Valid()
      reads this
    {
      state + bytesLeft <= |data|
    }

    /** Where the stream ends; reading never moves it. */
    function End(): nat
      reads this
    {
      state + bytesLeft
    }

    /** The octets left on the stream. */
    ghost function Rest(): (s: seq<byte>)
      requires Valid()
      reads this
      ensures |s| == bytesLeft
    {
      data[state..state + bytesLeft]
    }

    /** pb_istream_from_buffer on part of a buffer. */
    constructor (data: seq<byte>, state: nat, bytesLeft: nat)
      requires state + bytesLeft <= |data|
      ensures Valid() && this.data == data && this.state == state && this.bytesLeft == bytesLeft
    {
      this.data, this.state, this.bytesLeft := data, state, bytesLeft;
    }

    /** pb_read from a memory buffer. */
    method ReadOctets(count: nat) returns (ok: bool, buf: seq<byte>)
      requires Valid()
      modifies this
      ensures Valid() && End() == old(End())
      ensures ok <==> ReadBytes(old(Rest()), count).Some?
      ensures ok ==> ReadBytes(old(Rest()), count) == Some(Read(buf, Rest()))
      ensures ok ==> bytesLeft == old(bytesLeft) - count && state == old(state) + count
      ensures !ok ==> bytesLeft == old(bytesLeft) && state == old(state)
    {
      buf := [];
      if bytesLeft < count {
        return false, buf;
      }
      buf := data[state..state + count];
      assert buf == Rest()[..count];
      state := state + count;
      bytesLeft := bytesLeft - count;
      assert Rest() == old(Rest())[count..];
      return true, buf;
    }

    method ReadOctet() returns (ok: bool, octet: byte)
      requires Valid()
      modifies this
      ensures Valid() && End() == old(End()) && bytesLeft <= old(bytesLeft)
      ensures ok <==> old(Rest()) != []
      ensures ok ==> octet == old(Rest())[0] && Rest() == old(Rest())[1..]
    {
      if bytesLeft == 0 {
        return false, 0;
      }
      octet := data[state];
      state := state + 1;
      bytesLeft := bytesLeft - 1;
      return true, octet;
    }

    /** pb_decode_varint. */
    method DecodeVarint() returns (ok: bool, value: nat)
      requires Valid()
      modifies this
      ensures Valid() && End() == old(End()) && bytesLeft <= old(bytesLeft) && value < TWO_64
      ensures ok <==> ReadVarint(old(Rest())).Some?
      ensures ok ==> ReadVarint(old(Rest())) == Some(Read(value, Rest()))
    {
      hide Power128, ReadGroups, Resume;
      value := 0;
      var bitpos := 0;
      ghost var k: nat, acc: nat := 0, 0;
      ghost var start := Rest();
      ResumeEnds(0, 0, start);
      while true
        invariant Valid() && End() == old(End()) && bytesLeft <= old(bytesLeft)
        invariant bitpos == 7 * k && k <= 10
        invariant value == acc % TWO_64
        invariant ReadGroups(start, 0) == Resume(acc, k, ReadGroups(Rest(), k))
        decreases 10 - k
      {
        ghost var before := Rest();
        ResumeEnds(acc, k, before);
        if bitpos >= 64 {
          return false, value;
        }
        var got, octet := ReadOctet();
        if !got {
          return false, value;
        }
        ResumeStep(acc, k, before);
        var group: nat := octet % 128;
        var shifted: nat := Power128(bitpos / 7) * group;
        SumModulo(acc, shifted);
        value := (value + shifted) % TWO_64;
        acc := acc + shifted;
        bitpos := bitpos + 7;
        k := k + 1;
        if octet < 128 {
          return true, value;
        }
      }
    }

    /** pb_decode_varint32_eof. */
    method DecodeVarint32() returns (ok: bool, value: nat, eof: bool)
      requires Valid()
      modifies this
      ensures Valid() && End() == old(End()) && bytesLeft <= old(bytesLeft)
      ensures ok <==> ReadVarint32(old(Rest())).Got?
      ensures ok ==> ReadVarint32(old(Rest())) == Got(value, Rest())
      ensures !ok ==> eof == ReadVarint32(old(Rest())).Eof?
      ensures !ok && eof ==> Rest() == old(Rest())
      ensures ok ==> bytesLeft < old(bytesLeft)
    {
      value, eof := 0, false;
      ghost var start := Rest();
      var octet;
      ok, octet := ReadOctet();
      if !ok {
        eof := bytesLeft == 0;
        return;
      }
      if octet < 128 {
        value := octet;
        return;
      }
      value := octet % 128;
      var bitpos: byte := 7;
      while true
        invariant Valid() && End() == old(End()) && bytesLeft < old(bytesLeft) && ok && !eof
        invariant ReadVarint32(start) == Read32Groups(Rest(), value, bitpos)
        decreases bytesLeft
      {
        ok, octet := ReadOctet();
        if !ok {
          return;
        }
        if bitpos >= 32 {
          var signExtension := if bitpos < 63 then 0xff else 0x01;
          if octet % 128 != 0 && (value / TWO_31 == 0 || octet != signExtension) {
            ok := false;
            return;
          }
        } else {
          value := BitOr(value, InPlace(octet % 128, bitpos) % TWO_32);
        }
        bitpos := (bitpos + 7) % 256;
        if octet < 128 {
          break;
        }
      }
      if bitpos == 35 && octet % 128 / 16 != 0 {
        ok := false;
      }
    }

    /** pb_skip_varint. */
    method SkipVarintOctets() returns (ok: bool)
      requires Valid()
      modifies this
      ensures Valid() && End() == old(End()) && bytesLeft <= old(bytesLeft)
      ensures ok <==> SkipVarint(old(Rest())).Some?
      ensures ok ==> SkipVarint(old(Rest())) == Some(Rest())
    {
      ghost var start := Rest();
      var octet;
      while true
        invariant Valid() && End() == old(End()) && bytesLeft <= old(bytesLeft)
        invariant SkipVarint(start) == SkipVarint(Rest())
        decreases bytesLeft
      {
        ok, octet := ReadOctet();
        if !ok || octet < 128 {
          return;
        }
      }
    }

    /** pb_decode_tag. */
    method DecodeTag() returns (ok: bool, eof: bool, tag: nat, wire: nat)
      requires Valid()
      modifies this
      ensures Valid() && End() == old(End()) && bytesLeft <= old(bytesLeft)
      ensures match ReadTag(old(Rest()))
        case EndOfMessage(rest) => !ok && eof && Rest() == rest
        case BadTag => !ok && !eof
        case FieldTag(t, w, rest) => ok && tag == t && wire == w && Rest() == rest
    {
      tag, wire := 0, 0;
      var value;
      ok, value, eof := DecodeVarint32();
      if !ok {
        return;
      }
      if value == 0 {
        return false, true, 0, 0;
      }
      return true, false, value / 8, value % 8;
    }

    /** pb_skip_field. */
    method Skip(wire: nat) returns (ok: bool)
      requires Valid()
      modifies this
      ensures Valid() && End() == old(End()) && bytesLeft <= old(bytesLeft)
      ensures ok <==> SkipField(wire, old(Rest())).Some?
      ensures ok ==> SkipField(wire, old(Rest())) == Some(Rest())
    {
      var buf;
      if wire == 0 {
        ok := SkipVarintOctets();
      } else if wire == 1 {
        ok, buf := ReadOctets(8);
      } else if wire == 2 {
        var length, eof;
        ok, length, eof := DecodeVarint32();
        if ok {
          ok, buf := ReadOctets(length);
        }
      } else if wire == 5 {
        ok, buf := ReadOctets(4);
      } else {
        ok := false;
      }
    }

    /** pb_make_string_substream. */
    method MakeSubstream() returns (substream: IStream?)
      requires Valid()
      modifies this
      ensures Valid() && End() <= old(End()) && bytesLeft <= old(bytesLeft)
      ensures substream == null <==> ReadPrefixed(old(Rest())).None?
      ensures substream != null ==>
        && fresh(substream) && substream.Valid() && substream.data == data
        && ReadPrefixed(old(Rest())).value.value == substream.Rest()
        && substream.End() + bytesLeft == old(End())
        && data[substream.End()..][..bytesLeft] == ReadPrefixed(old(Rest())).value.rest
    {
      var ok, size, eof := DecodeVarint32();
      if !ok || bytesLeft < size {
        return null;
      }
      substream := new IStream(data, state, size);
      bytesLeft := bytesLeft - size;
    }

    /** pb_close_string_substream: what is left on the substream is skipped. */
    method CloseSubstream(substream: IStream)
      requires substream != this && substream.Valid() && substream.data == data
      requires substream.End() + bytesLeft <= |data|
      modifies this, substream
      ensures Valid() && bytesLeft == old(bytesLeft) && End() == old(substream.End()) + bytesLeft
      ensures Rest() == data[old(substream.End())..][..bytesLeft]
    {
      if substream.bytesLeft != 0 {
        var ok, buf := substream.ReadOctets(substream.bytesLeft);
      }
      state := substream.state;
    }
  }

  // ----- fields

  /** Descriptors end at their first zero tag, so no field has one. */
  ghost predicate NonzeroTags(fields: seq<Field>)
    decreases fields
  {
    forall i | 0 <= i < |fields| :: NonzeroTagsWithin(fields[i])
  }

  ghost predicate NonzeroTagsWithin(f: Field)
    decreases f
  {
    f.tag != 0 && (f.ltype.Submessage? ==> NonzeroTags(f.ltype.fields))
  }

  /** A length and that many octets into a buffer of the field, if it is long enough. */
  method DecodeChars(stream: IStream, f: Field) returns (ok: bool, value: Value)
    requires stream.Valid() && (f.ltype.BytesType? || f.ltype.StringType? || f.ltype.FixedLengthBytesType?)
    modifies stream
    ensures stream.Valid() && stream.bytesLeft <= old(stream.bytesLeft)
    ensures stream.End() <= old(stream.End()) && (ok ==> stream.End() == old(stream.End()))
    ensures ok <==> DecodeValue(f, Int(0), old(stream.Rest())).Some?
    ensures ok ==> DecodeValue(f, Int(0), old(stream.Rest())) == Some(Read(value, stream.Rest()))
  {
    hide ReadVarint32;
    value := Chars([]);
    var size, eof;
    ok, size, eof := stream.DecodeVarint32();
    if !ok {
      return;
    }
    if f.ltype.StringType? {
      if size + 1 > f.dataSize {
        return false, value;
      }
    } else if size > SIZE_MAX {
      return false, value;
    } else if f.ltype.BytesType? {
      if size + BYTES_OFFSET > f.dataSize {
        return false, value;
      }
    } else if size == 0 {
      return true, Chars(Zeros(f.dataSize));
    } else if size != f.dataSize {
      return false, value;
    }
    var buf;
    ok, buf := stream.ReadOctets(size);
    value := Chars(buf);
  }

  /** PB_DECODERS[LTYPE]. */
  method DecodeItem(stream: IStream, f: Field, current: Value) returns (ok: bool, value: Value)
    requires stream.Valid() && NonzeroTagsWithin(f)
    modifies stream
    ensures stream.Valid() && stream.bytesLeft <= old(stream.bytesLeft)
    ensures stream.End() <= old(stream.End()) && (ok ==> stream.End() == old(stream.End()))
    ensures ok <==> DecodeValue(f, current, old(stream.Rest())).Some?
    ensures ok ==> DecodeValue(f, current, old(stream.Rest())) == Some(Read(value, stream.Rest()))
    decreases f, 0
  {
    value := current;
    var raw, buf;
    match f.ltype
    case VarintType =>
      ok, raw := stream.DecodeVarint();
      if ok {
        var v := VarintField(f.dataSize, raw);
        if v.None? { return false, value; }
        value := v.value;
      }
    case UvarintType =>
      ok, raw := stream.DecodeVarint();
      if ok {
        var v := UvarintField(f.dataSize, raw);
        if v.None? { return false, value; }
        value := v.value;
      }
    case SvarintType =>
      ok, raw := stream.DecodeVarint();
      if ok {
        var v := SvarintField(f.dataSize, raw);
        if v.None? { return false, value; }
        value := v.value;
      }
    case Fixed32Type =>
      ok, buf := stream.ReadOctets(4);
      value := Int(FromLittleEndian(buf));
    case Fixed64Type =>
      ok, buf := stream.ReadOctets(8);
      value := Int(FromLittleEndian(buf));
    case BytesType => ok, value := DecodeChars(stream, f);
    case StringType => ok, value := DecodeChars(stream, f);
    case FixedLengthBytesType => ok, value := DecodeChars(stream, f);
    case Submessage(_) => ok, value := DecodeSubmessage(stream, f, current);
  }

  /** pb_dec_submessage. */
  method DecodeSubmessage(stream: IStream, f: Field, current: Value) returns (ok: bool, value: Value)
    requires stream.Valid() && f.ltype.Submessage? && NonzeroTags(f.ltype.fields)
    modifies stream
    ensures stream.Valid() && stream.bytesLeft <= old(stream.bytesLeft)
    ensures stream.End() <= old(stream.End()) && (ok ==> stream.End() == old(stream.End()))
    ensures ok <==> DecodeValue(f, current, old(stream.Rest())).Some?
    ensures ok ==> DecodeValue(f, current, old(stream.Rest())) == Some(Read(value, stream.Rest()))
    decreases f.ltype.fields, 2
  {
    value := current;
    var substream := stream.MakeSubstream();
    if substream == null {
      return false, value;
    }
    label made:
    var start := if f.htype == Repeated || !current.Struct? then DefaultSlots(f.ltype.fields) else current.slots;
    var slots;
    ok, slots := DecodeFields(substream, f.ltype.fields, start);
    value := Struct(slots);
    stream.CloseSubstream(substream);
  }

  /** The packed-array loop of decode_static_field. */
  method DecodePackedItems(substream: IStream, f: Field, items: seq<Value>) returns (ok: bool, result: seq<Value>)
    requires substream.Valid() && NonzeroTagsWithin(f)
    modifies substream
    ensures substream.Valid() && substream.bytesLeft <= old(substream.bytesLeft)
    ensures substream.End() <= old(substream.End()) && (ok ==> substream.End() == old(substream.End()))
    ensures ok <==> DecodePacked(f, items, old(substream.Rest())).Some?
    ensures ok ==> DecodePacked(f, items, old(substream.Rest())) == Some(result)
    decreases f, 1
  {
    result := items;
    ghost var start := substream.Rest();
    while substream.bytesLeft > 0 && |result| < f.arraySize
      invariant substream.Valid() && substream.bytesLeft <= old(substream.bytesLeft)
      invariant substream.End() == old(substream.End())
      invariant DecodePacked(f, items, start) == DecodePacked(f, result, substream.Rest())
      decreases substream.bytesLeft
    {
      var x;
      ok, x := DecodeItem(substream, f, Int(0));
      if !ok {
        return;
      }
      result := result + [x];
    }
    ok := substream.bytesLeft == 0;
  }

  /** decode_static_field. */
  method DecodeStaticField(stream: IStream, f: Field, slot: Slot, wire: nat) returns (ok: bool, result: Slot)
    requires stream.Valid() && NonzeroTagsWithin(f)
    modifies stream
    ensures stream.Valid() && stream.bytesLeft <= old(stream.bytesLeft)
    ensures stream.End() <= old(stream.End()) && (ok ==> stream.End() == old(stream.End()))
    ensures ok <==> DecodeField(f, slot, wire, old(stream.Rest())).Some?
    ensures ok ==> DecodeField(f, slot, wire, old(stream.Rest())) == Some(Read(result, stream.Rest()))
    decreases f, 2
  {
    hide DecodeValue, ReadPrefixed;
    result := slot;
    var x;
    match slot
    case Single(v) =>
      if f.htype != Required && (f.htype != Optional || f.sizeOffset != 0) { return false, slot; }
      ok, x := DecodeItem(stream, f, v);
      result := Single(x);
    case Opt(_, v) =>
      if f.htype != Optional || f.sizeOffset == 0 { return false, slot; }
      ok, x := DecodeItem(stream, f, v);
      result := Opt(true, x);
    case Rep(items) =>
      if f.htype != Repeated || f.sizeOffset == 0 { return false, slot; }
      if wire == 2 && f.ltype.Packable() {
        var substream := stream.MakeSubstream();
        if substream == null { return false, slot; }
        var items';
        ok, items' := DecodePackedItems(substream, f, items);
        if !ok { return false, slot; }
        stream.CloseSubstream(substream);
        result := Rep(items');
      } else {
        if |items| >= f.arraySize { return false, slot; }
        ok, x := DecodeItem(stream, f, DefaultValue(f));
        result := Rep(items + [x]);
      }
    case Union(_, v) =>
      if f.htype != Oneof { return false, slot; }
      ok, x := DecodeItem(stream, f, if f.ltype.Submessage? then DefaultValue(f) else v);
      result := Union(f.tag, x);
  }

  // ----- messages

  /** Runs the iterator to the end of the descriptor to learn how many fields are tracked. */
  method CountTracked(iter: FieldIter) returns (count: nat)
    requires iter.Valid()
    modifies iter
    ensures count == TrackedCount(iter.fields)
  {
    count := 0;
    if |iter.fields| == 0 {
      return;
    }
    var last := iter.fields[iter.pos];
    var more := true;
    while more
      invariant iter.Valid()
      invariant !more ==>
        && last == iter.fields[|iter.fields| - 1]
        && count == RequiredIndex(iter.fields, |iter.fields| - 1)
      decreases more, |iter.fields| - iter.pos
    {
      count := iter.requiredFieldIndex;
      last := iter.fields[iter.pos];
      more := iter.Next();
    }
    if last.htype == Required {
      count := count + 1;
    }
    if count > MAX_REQUIRED_FIELDS {
      count := MAX_REQUIRED_FIELDS;
    }
  }

  lemma SeenStaysTracked(fields: seq<Field>, seen: set<nat>, i: nat)
    requires i < |fields| && forall k | k in seen :: k < TrackedCount(fields)
    ensures forall k | k in Seen(fields, seen, i) :: k < TrackedCount(fields)
  {
    RequiredIndexGrows(fields, i, |fields|);
  }

  lemma AllSeenMeans(fields: seq<Field>, seen: set<nat>)
    ensures AllSeen(fields, seen) <==> forall k: nat | k < TrackedCount(fields) :: k in seen
  {
  }

  /** A required field that is tracked sets its bit. */
  method MarkRequired(iter: FieldIter, seen: SeenBits)
    requires iter.Valid() && iter.fields != [] && seen.Valid()
    modifies seen.words
    ensures seen.Seen() == Seen(iter.fields, old(seen.Seen()), iter.pos)
  {
    if iter.fields[iter.pos].htype == Required && iter.requiredFieldIndex < MAX_REQUIRED_FIELDS {
      seen.Mark(iter.requiredFieldIndex);
    }
  }

  /** How one turn of the message loop ends. */
  datatype Turn = Went | Ended | Refused

  /** One turn of the loop of pb_decode_noinit. */
  method DecodeTurn(stream: IStream, iter: FieldIter, seen: SeenBits, slots: seq<Slot>)
    returns (turn: Turn, result: seq<Slot>)
    requires stream.Valid() && stream.bytesLeft > 0 && iter.Valid() && seen.Valid() && NonzeroTags(iter.fields)
    requires Fits(iter.fields, Partial(slots, seen.Seen(), iter.pos))
    modifies stream, iter, seen.words
    ensures stream.Valid() && stream.bytesLeft <= old(stream.bytesLeft) && stream.End() <= old(stream.End())
    ensures iter.Valid() && seen.Valid()
    ensures match DecodeOne(iter.fields, Partial(slots, old(seen.Seen()), old(iter.pos)), old(stream.Rest()))
      case Failed => turn == Refused
      case Stop(rest) =>
        turn == Ended && result == slots && stream.Rest() == rest && stream.End() == old(stream.End())
        && seen.Seen() == old(seen.Seen())
      case Next(d, rest) =>
        turn == Went && d == Partial(result, seen.Seen(), iter.pos) && stream.Rest() == rest
        && stream.End() == old(stream.End()) && stream.bytesLeft < old(stream.bytesLeft)
    decreases iter.fields, 0
  {
    hide DecodeField, ReadTag, SkipField, Find, RequiredIndex, SlotOf, AsSet, DataAt, SizeAt, Seen;
    result := slots;
    var got, eof, tag, wire := stream.DecodeTag();
    if !got {
      return if eof then Ended else Refused, slots;
    }
    FieldsHaveTags(iter.fields);
    var found := iter.FindTag(tag);
    if !found {
      var ok := stream.Skip(wire);
      return if ok then Went else Refused, slots;
    }
    if |iter.fields| == 0 {
      return Refused, slots;
    }
    SlotsAscend(iter.fields, iter.pos, iter.pos);
    MarkRequired(iter, seen);
    var ok, slot := DecodeStaticField(stream, iter.fields[iter.pos], slots[iter.slot], wire);
    if !ok {
      return Refused, slots;
    }
    return Went, slots[iter.slot := slot];
  }

  lemma FieldsHaveTags(fields: seq<Field>)
    requires NonzeroTags(fields)
    ensures forall f | f in fields :: f.tag != 0
  {
    forall f | f in fields
      ensures f.tag != 0
    {
      var i :| 0 <= i < |fields| && fields[i] == f;
      assert NonzeroTagsWithin(fields[i]);
    }
  }

  lemma TurnStaysTracked(fields: seq<Field>, d: Partial, s: seq<byte>)
    requires s != [] && Fits(fields, d) && forall k | k in d.seen :: k < TrackedCount(fields)
    ensures var r := DecodeOne(fields, d, s); r.Next? ==> forall k | k in r.d.seen :: k < TrackedCount(fields)
  {
    hide DecodeField, ReadTag, SkipField, RequiredIndex, SlotOf, Seen, TrackedCount;
    var r := DecodeOne(fields, d, s);
    if r.Next? && fields != [] && Find(fields, d.pos, ReadTag(s).tag).Some? {
      SeenStaysTracked(fields, d.seen, Find(fields, d.pos, ReadTag(s).tag).value);
    }
  }

  /** pb_decode_noinit. */
  method DecodeFields(stream: IStream, fields: seq<Field>, start: seq<Slot>) returns (ok: bool, slots: seq<Slot>)
    requires stream.Valid() && NonzeroTags(fields)
    modifies stream
    ensures stream.Valid() && stream.bytesLeft <= old(stream.bytesLeft)
    ensures stream.End() <= old(stream.End()) && (ok ==> stream.End() == old(stream.End()))
    ensures ok <==> DecodeNoinit(fields, start, old(stream.Rest())).Some?
    ensures ok ==> DecodeNoinit(fields, start, old(stream.Rest())) == Some(Read(slots, stream.Rest()))
    decreases fields, 1
  {
    slots := start;
    if |start| != SlotCount(fields) {
      return false, slots;
    }
    hide DecodeOne, SlotOf, AllSeen, AsSet, TrackedCount;
    var iter := new FieldIter(fields, 0);
    var seen := new SeenBits();
    ghost var expected := DecodeLoop(fields, Partial(start, {}, 0), stream.Rest());
    while stream.bytesLeft > 0
      invariant stream.Valid() && stream.bytesLeft <= old(stream.bytesLeft) && stream.End() == old(stream.End())
      invariant iter.Valid() && fresh(iter) && iter.fields == fields
      invariant seen.Valid() && fresh(seen) && fresh(seen.words)
      invariant Fits(fields, Partial(slots, seen.Seen(), iter.pos))
      invariant forall k | k in seen.Seen() :: k < TrackedCount(fields)
      invariant expected == DecodeLoop(fields, Partial(slots, seen.Seen(), iter.pos), stream.Rest())
      decreases stream.bytesLeft
    {
      TurnStaysTracked(fields, Partial(slots, seen.Seen(), iter.pos), stream.Rest());
      var turn;
      turn, slots := DecodeTurn(stream, iter, seen, slots);
      match turn {
        case Went =>
        case Refused => return false, slots;
        case Ended => break;
      }
    }
    assert
      && expected.Some? && expected.value.d.slots == slots && expected.value.d.seen == seen.Seen()
      && expected.value.rest == stream.Rest();
    var count := CountTracked(iter);
    ok := seen.AllMarked(count);
    AllSeenMeans(fields, seen.Seen());
  }

  /** pb_decode. */
  method Decode(stream: IStream, fields: seq<Field>) returns (ok: bool, slots: seq<Slot>)
    requires stream.Valid() && NonzeroTags(fields)
    modifies stream
    ensures stream.Valid()
    ensures ok <==> DecodeMessage(fields, old(stream.Rest())).Some?
    ensures ok ==> DecodeMessage(fields, old(stream.Rest())) == Some(Read(slots, stream.Rest()))
  {
    ok, slots := DecodeFields(stream, fields, DefaultSlots(fields));
  }
}
