/**
 The nanopb encoder as it runs (pb_encode.c): output streams with a byte count and, unless
 they only measure, a buffer that is written in place.

 Every method is proved against PbEncode: a measuring stream ends with exactly the size of
 the encoding, and a writing stream succeeds exactly when the encoding exists and fits the
 room that is left, and then holds exactly its octets.
 */
module PbEncoder {
  import opened Octets
  import opened Fragments
  import opened PbWire
  import opened PbMessage
  import opened PbEncode
  import opened PbFieldIter

  /** A stream seen as a value. */
  datatype Out = Out(writing: bool, maxSize: nat, bytesWritten: nat, state: nat, memory: seq<byte>)

  predicate OutOk(o: Out) {
    o.writing ==> o.bytesWritten <= o.maxSize && o.state + (o.maxSize - o.bytesWritten) <= |o.memory|
  }

  /** `e` fits what is left of the stream. */
  predicate FitsRoom(o: Out, e: Option<seq<byte>>) {
    e.Some? && (o.writing ==> o.bytesWritten + |e.value| <= o.maxSize)
  }

  /** The stream went from `o` to `p` by writing `e`, with the given verdict. */
  ghost predicate Wrote(o: Out, p: Out, e: Option<seq<byte>>, ok: bool) {
    && OutOk(o) && OutOk(p)
    && p.writing == o.writing && p.maxSize == o.maxSize && |p.memory| == |o.memory|
    && (ok <==> FitsRoom(o, e))
    && (ok ==> p.bytesWritten == o.bytesWritten + |e.value|)
    && (if o.writing then
          && p.bytesWritten >= o.bytesWritten
          && p.state - o.state == p.bytesWritten - o.bytesWritten
          && (ok ==> p.memory == Patched(o.memory, o.state, e.value))
          && Outside(o, p)
        else p.memory == o.memory)
  }

  /** Nothing before the stream's position or past its limit was touched. */
  ghost predicate Outside(o: Out, p: Out)
    requires OutOk(o) && o.writing && |p.memory| == |o.memory|
  {
    var limit := o.state + (o.maxSize - o.bytesWritten);
    p.memory[..o.state] == o.memory[..o.state] && p.memory[limit..] == o.memory[limit..]
  }

  lemma WroteNothing(o: Out)
    requires OutOk(o)
    ensures Wrote(o, o, Some([]), true)
  {
    if o.writing {
      assert Patched(o.memory, o.state, []) == o.memory;
    }
  }

  lemma PatchedTwice(memory: seq<byte>, at: nat, a: seq<byte>, b: seq<byte>)
    requires at + |a| + |b| <= |memory|
    ensures Patched(Patched(memory, at, a), at + |a|, b) == Patched(memory, at, a + b)
  {
    var m := Patched(memory, at, a);
    assert m[..at + |a|] == memory[..at] + a;
    assert m[at + |a| + |b|..] == memory[at + |a| + |b|..];
  }

  lemma OutsideTwice(o: Out, p: Out, q: Out)
    requires OutOk(o) && OutOk(p) && o.writing && p.writing && |p.memory| == |o.memory| == |q.memory|
    requires o.state <= p.state && o.maxSize == p.maxSize && p.state - o.state == p.bytesWritten - o.bytesWritten
    requires Outside(o, p) && Outside(p, q)
    ensures Outside(o, q)
  {
    assert q.memory[..o.state] == q.memory[..p.state][..o.state] == p.memory[..p.state][..o.state];
    assert p.memory[..p.state][..o.state] == p.memory[..o.state];
  }

  lemma WroteThen(o: Out, p: Out, q: Out, a: seq<byte>, b: Option<seq<byte>>, ok: bool)
    requires Wrote(o, p, Some(a), true) && Wrote(p, q, b, ok)
    ensures Wrote(o, q, Append(Some(a), b), ok)
  {
    if o.writing {
      if ok {
        PatchedTwice(o.memory, o.state, a, b.value);
      }
      OutsideTwice(o, p, q);
      hide Patched, Outside;
    }
  }

  lemma WroteFailed(o: Out, p: Out, a: Option<seq<byte>>, b: Option<seq<byte>>)
    requires Wrote(o, p, a, false)
    ensures Wrote(o, p, Append(a, b), false)
  {
  }

  lemma VarintGroup(v: nat)
    ensures v < 128 ==> Varint(v) == [v]
    ensures v >= 128 ==> Varint(v) == [v % 128 + 128] + Varint(v / 128)
  {
  }

  method PutOctet(buffer: array<byte>, i: nat, b: byte)
    requires i < buffer.Length
    modifies buffer
    ensures buffer[..i] == old(buffer[..i]) && buffer[..i + 1] == old(buffer[..i]) + [b]
  {
    buffer[i] := b;
  }

  lemma VarintMiddle(done: seq<byte>, v: nat)
    requires v >= 128
    ensures done + Varint(v) == (done + [v % 128 + 128]) + Varint(v / 128)
  {
  }

  /** The loop of pb_encode_varint, which fills its local buffer and clears the last continuation bit. */
  method FillGroups(buffer: array<byte>, v: nat) returns (i: nat)
    requires buffer.Length == 10 && 0 < v < TWO_64
    modifies buffer
    ensures i <= 10 && buffer[..i] == Varint(v)
  {
    TenOctets();
    VarintLength(v, 10);
    hide Varint, Power128;
    i := 0;
    var value := v;
    ghost var done: seq<byte> := [];
    ghost var last := 0;
    while value != 0
      invariant 0 <= i <= 10
      invariant value != 0 ==> |done| == i && buffer[..i] == done && Varint(v) == done + Varint(value)
      invariant value == 0 ==> |done| + 1 == i && 0 < last < 128
      invariant value == 0 ==> buffer[..i] == done + [last + 128] && Varint(v) == done + [last]
      decreases value
    {
      VarintGroup(value);
      PutOctet(buffer, i, value % 128 + 128);
      if value >= 128 {
        VarintMiddle(done, value);
        done := done + [value % 128 + 128];
      } else {
        last := value;
      }
      value := value / 128;
      i := i + 1;
    }
    assert buffer[i - 1] == buffer[..i][i - 1] && buffer[..i - 1] == buffer[..i][..i - 1];
    PutOctet(buffer, i - 1, buffer[i - 1] - 128);
  }

  /** buf_write. */
  method BufWrite(dest: array<byte>, at: nat, s: seq<byte>)
    requires at + |s| <= dest.Length
    modifies dest
    ensures dest[..] == Patched(old(dest[..]), at, s)
  {
    ghost var before := dest[..];
    for i := 0 to |s|
      invariant dest[..] == Patched(before, at, s[..i])
    {
      dest[at + i] := s[i];
    }
    assert s[..|s|] == s;
  }

  class OStream {
    const writing: bool
    const buf: array<byte>
    const maxSize: nat
    var state: nat
    var bytesWritten: nat

    ghost function Value(): Out
      reads this, buf
    {
      Out(writing, maxSize, bytesWritten, state, buf[..])
    }

    /** pb_ostream_from_buffer, for the part of `buf` from `state` on. */
    constructor FromBuffer(buf: array<byte>, state: nat, maxSize: nat)
      requires state + maxSize <= buf.Length
      ensures Value() == Out(true, maxSize, 0, state, buf[..]) && this.buf == buf
    {
      writing, this.buf, this.maxSize := true, buf, maxSize;
      this.state, bytesWritten := state, 0;
    }

    /** PB_OSTREAM_SIZING: no callback, so nothing is written. */
    constructor Sizing(buf: array<byte>)
      ensures Value() == Out(false, 0, 0, 0, buf[..]) && this.buf == buf
    {
      writing, this.buf, maxSize := false, buf, 0;
      state, bytesWritten := 0, 0;
    }

    /** pb_write with buf_write as its callback. */
    method Write(s: seq<byte>) returns (ok: bool)
      requires OutOk(Value())
      modifies this, buf
      ensures Wrote(old(Value()), Value(), Some(s), ok)
    {
      if writing {
        if bytesWritten + |s| > maxSize {
          return false;
        }
        BufWrite(buf, state, s);
        state := state + |s|;
      }
      bytesWritten := bytesWritten + |s|;
      return true;
    }

    /** The measuring shortcut pb_write(stream, NULL, size). */
    method Count(size: nat)
      requires !writing
      modifies this
      ensures Value() == old(Value()).(bytesWritten := old(bytesWritten) + size)
    {
      bytesWritten := bytesWritten + size;
    }

    /** pb_encode_varint. */
    method EncodeVarint(v: nat) returns (ok: bool)
      requires OutOk(Value()) && v < TWO_64
      modifies this, buf
      ensures Wrote(old(Value()), Value(), Some(Varint(v)), ok)
    {
      if v <= 0x7f {
        ok := Write([v]);
        return;
      }
      var buffer := new byte[10](_ => 0);
      var i := FillGroups(buffer, v);
      ok := Write(buffer[..i]);
    }

    /** pb_encode_string. */
    method EncodeString(s: seq<byte>) returns (ok: bool)
      requires OutOk(Value()) && |s| < TWO_64
      modifies this, buf
      ensures Wrote(old(Value()), Value(), Some(Prefixed(s)), ok)
    {
      ok := EncodeVarint(|s|);
      if !ok {
        WroteFailed(old(Value()), Value(), Some(Varint(|s|)), Some(s));
        return;
      }
      ghost var mid := Value();
      ok := Write(s);
      WroteThen(old(Value()), mid, Value(), Varint(|s|), Some(s), ok);
    }
  }

  /** strnlen, which is not always available, as a loop. */
  method MeasureText(b: seq<byte>, limit: nat) returns (size: nat)
    ensures size == TextLength(b, limit)
  {
    size := 0;
    while size < limit && size < |b| && b[size] != 0
      invariant size <= limit && size <= |b|
      invariant TextLength(b, limit) == size + TextLength(b[size..], limit - size)
    {
      size := size + 1;
      assert b[size - 1..][1..] == b[size..];
    }
  }

  // ----- fields

  method EncodeTag(stream: OStream, wt: WireType, tag: nat) returns (ok: bool)
    requires OutOk(stream.Value()) && tag < 0x2000_0000
    modifies stream, stream.buf
    ensures Wrote(old(stream.Value()), stream.Value(), Some(Tag(wt, tag)), ok)
  {
    ok := stream.EncodeVarint(tag * 8 + WireNumber(wt));
  }

  /** Tags are small enough for their varint, at every level of a descriptor. */
  ghost predicate EncodableField(f: Field)
    decreases f
  {
    && 0 < f.tag < 0x2000_0000
    && (f.ltype.Submessage? ==> Encodable(f.ltype.fields))
  }

  ghost predicate Encodable(fields: seq<Field>)
    decreases fields
  {
    forall i | 0 <= i < |fields| :: EncodableField(fields[i])
  }

  /** No part of the message takes 2^64 octets: sizes are counted in a size_t. */
  ghost predicate SizeFits(e: Option<seq<byte>>) {
    e.Some? ==> |e.value| < TWO_64
  }

  /** A value the C type of the field can hold. */
  ghost predicate SizedValue(f: Field, v: Value)
    decreases f, 0
  {
    && SizeFits(EncodeValue(f, v))
    && (f.ltype.Fixed32Type? || f.ltype.Fixed64Type? ==> v.Int?)
    && (f.ltype.Submessage? && v.Struct? ==> Sized(f.ltype.fields, v.slots))
  }

  ghost predicate SizedSlot(f: Field, slot: Slot)
    decreases f, 1
  {
    match slot
    case Single(v) => SizedValue(f, v)
    case Opt(has, v) => has ==> SizedValue(f, v)
    case Rep(items) => SizeFits(EncodeItems(f, items)) && forall x | x in items :: SizedValue(f, x)
    case Union(which, v) => which == f.tag ==> SizedValue(f, v)
  }

  ghost predicate Sized(fields: seq<Field>, slots: seq<Slot>)
    decreases fields
  {
    |slots| == SlotCount(fields) ==>
      forall i | 0 <= i < |fields| && SlotOf(fields, i) < |slots| :: SizedSlot(fields[i], slots[SlotOf(fields, i)])
  }

  /** Octets whose text is measured before it is written. */
  method EncodeText(stream: OStream, f: Field, b: seq<byte>) returns (ok: bool)
    requires OutOk(stream.Value()) && SizeFits(Some(b[..TextLength(b, f.dataSize)]))
    modifies stream, stream.buf
    ensures Wrote(old(stream.Value()), stream.Value(), Some(Prefixed(b[..TextLength(b, f.dataSize)])), ok)
  {
    var size := MeasureText(b, f.dataSize);
    ok := stream.EncodeString(b[..size]);
  }

  /** PB_ENCODERS[LTYPE]. */
  method EncodeItem(stream: OStream, f: Field, v: Value) returns (ok: bool)
    requires OutOk(stream.Value()) && EncodableField(f) && SizedValue(f, v)
    modifies stream, stream.buf
    ensures Wrote(old(stream.Value()), stream.Value(), EncodeValue(f, v), ok)
    decreases f, 0
  {
    match f.ltype
    case VarintType =>
      if !IntegerSize(f.dataSize) || !v.Int? { return false; }
      ok := stream.EncodeVarint(Unsigned64(v.i));
    case UvarintType =>
      if !IntegerSize(f.dataSize) || !v.Int? { return false; }
      ok := stream.EncodeVarint(Unsigned64(v.i));
    case SvarintType =>
      if !IntegerSize(f.dataSize) || !v.Int? { return false; }
      ok := stream.EncodeVarint(ZigZag(v.i));
    case Fixed32Type =>
      if !v.Int? { return false; }
      ok := stream.Write(LittleEndian(v.i % TWO_32, 4));
    case Fixed64Type =>
      if !v.Int? { return false; }
      ok := stream.Write(LittleEndian(v.i % TWO_64, 8));
    case BytesType =>
      if !v.Chars? || |v.b| + BYTES_OFFSET > f.dataSize { return false; }
      ok := stream.EncodeString(v.b);
    case StringType =>
      if !v.Chars? { return false; }
      ok := EncodeText(stream, f, v.b);
    case FixedLengthBytesType =>
      if !v.Chars? || |v.b| != f.dataSize { return false; }
      ok := stream.EncodeString(v.b);
    case Submessage(fields) =>
      if !v.Struct? { return false; }
      ok := EncodeSubmessage(stream, fields, v.slots);
  }

  /** Two passes: one to learn the size, one, if the stream writes, to write the octets. */
  method EncodeSubmessage(stream: OStream, fields: seq<Field>, slots: seq<Slot>) returns (ok: bool)
    requires OutOk(stream.Value()) && Encodable(fields) && Sized(fields, slots)
    requires var e := EncodeMessage(fields, slots); e.Some? ==> SizeFits(Some(Prefixed(e.value)))
    modifies stream, stream.buf
    ensures var e := EncodeMessage(fields, slots);
      Wrote(old(stream.Value()), stream.Value(), if e.Some? then Some(Prefixed(e.value)) else None, ok)
    decreases fields, 2
  {
    ghost var start := stream.Value();
    var sizing := new OStream.Sizing(stream.buf);
    ok := Encode(sizing, fields, slots);
    if !ok {
      return;
    }
    var size := sizing.bytesWritten;
    ghost var e := EncodeMessage(fields, slots).value;
    ok := stream.EncodeVarint(size);
    if !ok {
      WroteFailed(start, stream.Value(), Some(Varint(size)), Some(e));
      return;
    }
    ghost var mid := stream.Value();
    hide Patched, Outside, Varint, EncodeMessage, Encodable, Sized;
    if !stream.writing {
      stream.Count(size);
      Counted(mid, stream.Value(), e);
      WroteThen(start, mid, stream.Value(), Varint(size), Some(e), true);
      return true;
    }
    if stream.bytesWritten + size > stream.maxSize {
      NoRoom(mid, e);
      WroteThen(start, mid, stream.Value(), Varint(size), Some(e), false);
      return false;
    }
    var substream := new OStream.FromBuffer(stream.buf, stream.state, size);
    ghost var before := substream.Value();
    var status := Encode(substream, fields, slots);
    ghost var after := substream.Value();
    stream.bytesWritten := stream.bytesWritten + substream.bytesWritten;
    stream.state := substream.state;
    if substream.bytesWritten != size {
      assert false;
      return false;
    }
    ThroughSubstream(mid, before, after, stream.Value(), e);
    WroteThen(start, mid, stream.Value(), Varint(size), Some(e), true);
    return status;
  }

  lemma Counted(o: Out, p: Out, e: seq<byte>)
    requires OutOk(o) && !o.writing && p == o.(bytesWritten := o.bytesWritten + |e|)
    ensures Wrote(o, p, Some(e), true)
  {
  }

  lemma NoRoom(o: Out, e: seq<byte>)
    requires OutOk(o) && o.writing && o.bytesWritten + |e| > o.maxSize
    ensures Wrote(o, o, Some(e), false)
  {
  }

  /** What a substream over the same memory writes, its parent has written once it takes over the counts. */
  lemma ThroughSubstream(o: Out, before: Out, after: Out, p: Out, e: seq<byte>)
    requires OutOk(o) && o.writing && o.bytesWritten + |e| <= o.maxSize
    requires before == Out(true, |e|, 0, o.state, o.memory) && Wrote(before, after, Some(e), true)
    requires p == o.(bytesWritten := o.bytesWritten + after.bytesWritten, state := after.state, memory := after.memory)
    ensures Wrote(o, p, Some(e), true)
  {
    hide Patched;
    var limit := o.state + (o.maxSize - o.bytesWritten);
    var d := limit - (o.state + |e|);
    assert after.memory[limit..] == after.memory[o.state + |e|..][d..];
    assert o.memory[limit..] == o.memory[o.state + |e|..][d..];
  }

  lemma AppendNothing(e: Option<seq<byte>>)
    ensures Append(Some([]), e) == e
  {
    if e.Some? {
      assert [] + e.value == e.value;
    }
  }

  lemma AppendAssociative(a: Option<seq<byte>>, b: Option<seq<byte>>, c: Option<seq<byte>>)
    ensures Append(a, Append(b, c)) == Append(Append(a, b), c)
  {
    if a.Some? && b.Some? && c.Some? {
      assert a.value + (b.value + c.value) == (a.value + b.value) + c.value;
    }
  }

  /** The items one after the other, as packed data or to measure it. */
  method EncodeAll(stream: OStream, f: Field, items: seq<Value>) returns (ok: bool)
    requires OutOk(stream.Value()) && EncodableField(f) && forall x | x in items :: SizedValue(f, x)
    modifies stream, stream.buf
    ensures Wrote(old(stream.Value()), stream.Value(), EncodeItems(f, items), ok)
    decreases f, 1
  {
    ghost var start := stream.Value();
    ghost var done: seq<byte> := [];
    WroteNothing(start);
    AppendNothing(EncodeItems(f, items));
    assert items[0..] == items;
    for i := 0 to |items|
      invariant Wrote(start, stream.Value(), Some(done), true)
      invariant EncodeItems(f, items) == Append(Some(done), EncodeItems(f, items[i..]))
    {
      ghost var mid, e, rest := stream.Value(), EncodeValue(f, items[i]), EncodeItems(f, items[i + 1..]);
      assert items[i..][0] == items[i] && items[i..][1..] == items[i + 1..];
      AppendAssociative(Some(done), e, rest);
      ok := EncodeItem(stream, f, items[i]);
      WroteThen(start, mid, stream.Value(), done, e, ok);
      if !ok {
        WroteFailed(start, stream.Value(), Append(Some(done), e), rest);
        return;
      }
      done := done + e.value;
    }
    assert items[|items|..] == [];
    assert done + [] == done;
    return true;
  }

  /** One tag and one payload. */
  method EncodePresent(stream: OStream, f: Field, v: Value) returns (ok: bool)
    requires OutOk(stream.Value()) && EncodableField(f) && SizedValue(f, v)
    modifies stream, stream.buf
    ensures Wrote(old(stream.Value()), stream.Value(), Append(Some(TagFor(f)), EncodeValue(f, v)), ok)
    decreases f, 1
  {
    ghost var start := stream.Value();
    ok := EncodeTag(stream, FieldWireType(f.ltype), f.tag);
    if !ok {
      WroteFailed(start, stream.Value(), Some(TagFor(f)), EncodeValue(f, v));
      return;
    }
    ghost var mid := stream.Value();
    ok := EncodeItem(stream, f, v);
    WroteThen(start, mid, stream.Value(), TagFor(f), EncodeValue(f, v), ok);
  }

  /** The unpacked half of encode_array. */
  method EncodeEach(stream: OStream, f: Field, items: seq<Value>) returns (ok: bool)
    requires OutOk(stream.Value()) && EncodableField(f) && forall x | x in items :: SizedValue(f, x)
    modifies stream, stream.buf
    ensures Wrote(old(stream.Value()), stream.Value(), EncodeTagged(f, items), ok)
    decreases f, 2
  {
    ghost var start := stream.Value();
    ghost var done: seq<byte> := [];
    WroteNothing(start);
    AppendNothing(EncodeTagged(f, items));
    assert items[0..] == items;
    for i := 0 to |items|
      invariant Wrote(start, stream.Value(), Some(done), true)
      invariant EncodeTagged(f, items) == Append(Some(done), EncodeTagged(f, items[i..]))
    {
      ghost var mid, rest := stream.Value(), EncodeTagged(f, items[i + 1..]);
      ghost var e := Append(Some(TagFor(f)), EncodeValue(f, items[i]));
      assert items[i..][0] == items[i] && items[i..][1..] == items[i + 1..];
      AppendAssociative(Some(done), e, rest);
      ok := EncodePresent(stream, f, items[i]);
      WroteThen(start, mid, stream.Value(), done, e, ok);
      if !ok {
        WroteFailed(start, stream.Value(), Append(Some(done), e), rest);
        return;
      }
      done := done + e.value;
    }
    assert items[|items|..] == [];
    assert done + [] == done;
    return true;
  }

  lemma {:induction false} FixedItemsSize(f: Field, items: seq<Value>, width: nat)
    requires (f.ltype.Fixed32Type? && width == 4) || (f.ltype.Fixed64Type? && width == 8)
    requires forall x | x in items :: x.Int?
    ensures EncodeItems(f, items).Some? && |EncodeItems(f, items).value| == width * |items|
    decreases |items|
  {
    if items != [] {
      FixedItemsSize(f, items[1..], width);
    }
  }

  /** encode_array. */
  method EncodeArrayField(stream: OStream, f: Field, items: seq<Value>) returns (ok: bool)
    requires OutOk(stream.Value()) && EncodableField(f) && SizedSlot(f, Rep(items))
    modifies stream, stream.buf
    ensures Wrote(old(stream.Value()), stream.Value(), EncodeArray(f, items), ok)
    decreases f, 4
  {
    ghost var start := stream.Value();
    if |items| == 0 {
      WroteNothing(start);
      return true;
    }
    if |items| > f.arraySize {
      return false;
    }
    if !f.ltype.Packable() {
      ok := EncodeEach(stream, f, items);
      return;
    }
    ok := EncodePacked(stream, f, items);
  }

  /** The packed half of encode_array: tag, size of all items, items. */
  method EncodePacked(stream: OStream, f: Field, items: seq<Value>) returns (ok: bool)
    requires OutOk(stream.Value()) && EncodableField(f) && SizedSlot(f, Rep(items))
    requires 0 < |items| <= f.arraySize && f.ltype.Packable()
    modifies stream, stream.buf
    ensures Wrote(old(stream.Value()), stream.Value(), EncodeArray(f, items), ok)
    decreases f, 3
  {
    ghost var start := stream.Value();
    ghost var e := EncodeItems(f, items);
    ghost var tag := Tag(WtString, f.tag);
    ok := EncodeTag(stream, WtString, f.tag);
    if !ok {
      WroteFailed(start, stream.Value(), Some(tag), if e.Some? then Some(Prefixed(e.value)) else None);
      return;
    }
    ghost var afterTag := stream.Value();
    var size := 0;
    if f.ltype.Fixed32Type? {
      FixedItemsSize(f, items, 4);
      size := 4 * |items|;
    } else if f.ltype.Fixed64Type? {
      FixedItemsSize(f, items, 8);
      size := 8 * |items|;
    } else {
      var sizing := new OStream.Sizing(stream.buf);
      ok := EncodeAll(sizing, f, items);
      if !ok {
        return;
      }
      size := sizing.bytesWritten;
    }
    ok := EncodeBody(stream, f, items, size);
    WroteThen(start, afterTag, stream.Value(), tag, Some(Prefixed(e.value)), ok);
  }

  /** The size prefix and the items, or only their count on a measuring stream. */
  method EncodeBody(stream: OStream, f: Field, items: seq<Value>, size: nat) returns (ok: bool)
    requires OutOk(stream.Value()) && EncodableField(f) && SizedSlot(f, Rep(items)) && size < TWO_64
    requires EncodeItems(f, items).Some? && size == |EncodeItems(f, items).value|
    modifies stream, stream.buf
    ensures Wrote(old(stream.Value()), stream.Value(), Some(Prefixed(EncodeItems(f, items).value)), ok)
    decreases f, 2
  {
    ghost var start, e := stream.Value(), EncodeItems(f, items);
    ok := stream.EncodeVarint(size);
    if !ok {
      WroteFailed(start, stream.Value(), Some(Varint(size)), e);
      return;
    }
    ghost var mid := stream.Value();
    if !stream.writing {
      stream.Count(size);
      WroteThen(start, mid, stream.Value(), Varint(size), e, true);
      return true;
    }
    ok := EncodeAll(stream, f, items);
    WroteThen(start, mid, stream.Value(), Varint(size), e, ok);
  }

  // ----- messages

  /** encode_basic_field. */
  method EncodeBasicField(stream: OStream, f: Field, slot: Slot) returns (ok: bool)
    requires OutOk(stream.Value()) && EncodableField(f) && SizedSlot(f, slot)
    modifies stream, stream.buf
    ensures Wrote(old(stream.Value()), stream.Value(), EncodeField(f, slot), ok)
    decreases f, 5
  {
    WroteNothing(stream.Value());
    match slot
    case Single(v) =>
      if f.htype != Required && (f.htype != Optional || f.sizeOffset != 0) { return false; }
      var implicitHas := f.htype != Optional || !IsDefaultValue(f, v);
      if !implicitHas { return true; }
      ok := EncodePresent(stream, f, v);
    case Opt(has, v) =>
      if f.htype != Optional || f.sizeOffset == 0 { return false; }
      if !has { return true; }
      ok := EncodePresent(stream, f, v);
    case Rep(items) =>
      if f.htype != Repeated || f.sizeOffset == 0 { return false; }
      ok := EncodeArrayField(stream, f, items);
    case Union(which, v) =>
      if f.htype != Oneof { return false; }
      if which != f.tag { return true; }
      ok := EncodePresent(stream, f, v);
  }

  /** pb_encode: the iterator from the first field to the wrap-around. */
  method Encode(stream: OStream, fields: seq<Field>, slots: seq<Slot>) returns (ok: bool)
    requires OutOk(stream.Value()) && Encodable(fields) && Sized(fields, slots)
    modifies stream, stream.buf
    ensures Wrote(old(stream.Value()), stream.Value(), EncodeMessage(fields, slots), ok)
    decreases fields, 1
  {
    if |slots| != SlotCount(fields) {
      return false;
    }
    ghost var start := stream.Value();
    WroteNothing(start);
    forall f | f in fields
      ensures f.tag != 0
    {
      var i :| 0 <= i < |fields| && fields[i] == f;
      assert EncodableField(fields[i]);
    }
    var iter := new FieldIter(fields, 0);
    var more := iter.Begin();
    if !more {
      return true;
    }
    ghost var done: seq<byte> := [];
    ghost var i := 0;
    AppendNothing(EncodeMessage(fields, slots));
    hide EncodeField, Outside, Patched, SizedSlot, EncodableField, FitsRoom;
    while more
      invariant iter.Valid() && fresh(iter) && iter.fields == fields
      invariant i <= |fields| && more == (i < |fields|) && (more ==> iter.pos == i)
      invariant Wrote(start, stream.Value(), Some(done), true)
      invariant EncodeMessage(fields, slots) == Append(Some(done), EncodeFrom(fields, slots, i))
      decreases |fields| - i
    {
      SlotsAscend(fields, i, i);
      var f, slot := fields[iter.pos], slots[iter.slot];
      ghost var mid, e, rest := stream.Value(), EncodeField(f, slot), EncodeFrom(fields, slots, i + 1);
      AppendAssociative(Some(done), e, rest);
      assert EncodableField(fields[i]) && SizedSlot(fields[i], slots[SlotOf(fields, i)]);
      ok := EncodeBasicField(stream, f, slot);
      WroteThen(start, mid, stream.Value(), done, e, ok);
      if !ok {
        WroteFailed(start, stream.Value(), Append(Some(done), e), rest);
        return;
      }
      done := done + e.value;
      more := iter.Next();
      i := i + 1;
    }
    AppendNothing(Some(done));
    assert done + [] == done;
    return true;
  }

  /** pb_get_encoded_size. */
  method GetEncodedSize(fields: seq<Field>, slots: seq<Slot>, buf: array<byte>) returns (ok: bool, size: nat)
    requires Encodable(fields) && Sized(fields, slots)
    modifies buf
    ensures buf[..] == old(buf[..])
    ensures ok <==> EncodeMessage(fields, slots).Some?
    ensures ok ==> size == |EncodeMessage(fields, slots).value|
  {
    var stream := new OStream.Sizing(buf);
    ok := Encode(stream, fields, slots);
    size := stream.bytesWritten;
  }

  /** Encoding into a buffer succeeds exactly when the measured size fits it. */
  method EncodeToBuffer(fields: seq<Field>, slots: seq<Slot>, buf: array<byte>) returns (ok: bool, size: nat)
    requires Encodable(fields) && Sized(fields, slots)
    modifies buf
    ensures var e := EncodeMessage(fields, slots);
      && (ok <==> e.Some? && |e.value| <= buf.Length)
      && (ok ==> size == |e.value| && buf[..size] == e.value && buf[size..] == old(buf[..])[size..])
  {
    var stream := new OStream.FromBuffer(buf, 0, buf.Length);
    ok := Encode(stream, fields, slots);
    size := stream.bytesWritten;
  }
}
