/**
 Laws of the nanopb decoder over whole streams: what one field consumes does not depend on
 what follows it, decoding a concatenation is decoding its parts in turn, unknown fields
 leave no trace, and the required-field check is exact.
 */
module PbMerge {
  import opened Octets
  import opened Fragments
  import opened PbWire
  import opened PbMessage
  import opened PbEncode
  import opened PbDecode

  // ----- stability: no reader looks past what it consumes

  lemma PrefixedStable(s: seq<byte>, t: seq<byte>)
    requires ReadPrefixed(s).Some?
    ensures var r := ReadPrefixed(s).value; ReadPrefixed(s + t) == Some(Read(r.value, r.rest + t))
  {
    Varint32Stable(s, t);
    BytesStable(ReadVarint32(s).rest, ReadVarint32(s).value, t);
  }

  lemma ValueStable(f: Field, old_: Value, s: seq<byte>, t: seq<byte>)
    requires DecodeValue(f, old_, s).Some?
    ensures var r := DecodeValue(f, old_, s).value; DecodeValue(f, old_, s + t) == Some(Read(r.value, r.rest + t))
  {
    hide ReadVarint, ReadVarint32, ReadPrefixed, ReadBytes;
    match f.ltype
    case VarintType => VarintStable(s, t);
    case UvarintType => VarintStable(s, t);
    case SvarintType => VarintStable(s, t);
    case Fixed32Type => BytesStable(s, 4, t);
    case Fixed64Type => BytesStable(s, 8, t);
    case FixedLengthBytesType =>
      Varint32Stable(s, t);
      if ReadVarint32(s).value != 0 {
        PrefixedStable(s, t);
      }
    case Submessage(_) => PrefixedStable(s, t);
    case _ =>
      if ReadVarint32(s).Got? {
        Varint32Stable(s, t);
      }
      PrefixedStable(s, t);
  }

  lemma FieldStable(f: Field, slot: Slot, wire: nat, s: seq<byte>, t: seq<byte>)
    requires DecodeField(f, slot, wire, s).Some?
    ensures var r := DecodeField(f, slot, wire, s).value;
      DecodeField(f, slot, wire, s + t) == Some(Read(r.value, r.rest + t))
  {
    hide DecodeValue, ReadPrefixed;
    match slot
    case Single(v) => ValueStable(f, v, s, t);
    case Opt(_, v) => ValueStable(f, v, s, t);
    case Rep(_) =>
      if wire == 2 && f.ltype.Packable() {
        PrefixedStable(s, t);
      } else {
        ValueStable(f, DefaultValue(f), s, t);
      }
    case Union(_, v) => ValueStable(f, if f.ltype.Submessage? then DefaultValue(f) else v, s, t);
  }

  lemma SkipStable(wire: nat, s: seq<byte>, t: seq<byte>)
    requires SkipField(wire, s).Some?
    ensures SkipField(wire, s + t) == Some(SkipField(wire, s).value + t)
  {
    if wire == 0 {
      SkipVarintStable(s, t);
    } else if wire == 2 {
      Varint32Stable(s, t);
      var r := ReadVarint32(s);
      assert (r.rest + t)[r.value..] == r.rest[r.value..] + t;
    } else {
      var n := if wire == 1 then 8 else 4;
      assert (s + t)[n..] == s[n..] + t;
    }
  }

  lemma TagStable(s: seq<byte>, t: seq<byte>)
    requires s != [] && !ReadTag(s).BadTag?
    ensures match ReadTag(s)
      case EndOfMessage(rest) => ReadTag(s + t) == EndOfMessage(rest + t)
      case FieldTag(tag, wire, rest) => ReadTag(s + t) == FieldTag(tag, wire, rest + t)
  {
    Varint32Stable(s, t);
  }

  lemma StepStable(fields: seq<Field>, d: Partial, s: seq<byte>, t: seq<byte>)
    requires s != [] && Fits(fields, d)
    ensures match DecodeOne(fields, d, s)
      case Next(d', rest) => DecodeOne(fields, d, s + t) == Next(d', rest + t)
      case Stop(rest) => DecodeOne(fields, d, s + t) == Stop(rest + t)
      case Failed => true
  {
    hide ReadTag, DecodeField, SkipField, Find;
    if DecodeOne(fields, d, s) != Failed {
      TagStable(s, t);
      if ReadTag(s).FieldTag? {
        var FieldTag(tag, wire, rest) := ReadTag(s);
        if fields == [] || Find(fields, d.pos, tag).None? {
          SkipStable(wire, rest, t);
        } else {
          var i := Find(fields, d.pos, tag).value;
          SlotsAscend(fields, i, i);
          FieldStable(fields[i], d.slots[SlotOf(fields, i)], wire, rest, t);
        }
      }
    }
  }

  // ----- concatenation

  /**
   A stream that was read to its end continues with whatever follows it; one that was ended
   by a zero tag ignores what follows.
   */
  lemma {:induction false} LoopConcat(fields: seq<Field>, d: Partial, a: seq<byte>, b: seq<byte>)
    requires Fits(fields, d) && DecodeLoop(fields, d, a).Some?
    ensures var r := DecodeLoop(fields, d, a).value;
      DecodeLoop(fields, d, a + b) ==
      if r.stopped then Some(Decoded(r.d, r.rest + b, true)) else DecodeLoop(fields, r.d, b)
    decreases |a|
  {
    if a == [] {
      assert a + b == b;
    } else {
      StepStable(fields, d, a, b);
      match DecodeOne(fields, d, a)
      case Failed =>
      case Stop(_) =>
      case Next(d', rest) => LoopConcat(fields, d', rest, b);
    }
  }

  ghost predicate DistinctTags(fields: seq<Field>) {
    forall i, j | 0 <= i < j < |fields| :: fields[i].tag != fields[j].tag
  }

  /** With distinct tags the search gives the same field from wherever it starts. */
  lemma FindAnywhere(fields: seq<Field>, p: nat, q: nat, tag: nat)
    requires DistinctTags(fields) && p < |fields| && q < |fields|
    ensures Find(fields, p, tag) == Find(fields, q, tag)
  {
    hide FindUp;
    var a, b := Find(fields, p, tag), Find(fields, q, tag);
    if a.Some? && b.Some? {
      assert fields[a.value].tag == fields[b.value].tag;
    }
  }

  /** Decoding does not depend on the field the iterator was left on, nor on what was seen. */
  lemma {:induction false} PositionIrrelevant(fields: seq<Field>, d: Partial, e: Partial, s: seq<byte>)
    requires DistinctTags(fields) && Fits(fields, d) && Fits(fields, e) && d.slots == e.slots
    ensures var (x, y) := (DecodeLoop(fields, d, s), DecodeLoop(fields, e, s));
      && (x.Some? <==> y.Some?)
      && (x.Some? ==>
            && x.value.d.slots == y.value.d.slots
            && x.value.rest == y.value.rest && x.value.stopped == y.value.stopped
            && forall k :: k in y.value.d.seen && k !in e.seen ==> k in x.value.d.seen)
    decreases |s|
  {
    if s != [] {
      hide ReadTag, DecodeField, SkipField, Find;
      if fields != [] && ReadTag(s).FieldTag? {
        FindAnywhere(fields, d.pos, e.pos, ReadTag(s).tag);
      }
      match DecodeOne(fields, d, s)
      case Failed =>
      case Stop(_) =>
      case Next(d', rest) =>
        var e' := DecodeOne(fields, e, s).d;
        PositionIrrelevant(fields, d', e', rest);
        SeenGrows(fields, d', rest);
    }
  }

  lemma {:induction false} SeenGrows(fields: seq<Field>, d: Partial, s: seq<byte>)
    requires Fits(fields, d)
    ensures DecodeLoop(fields, d, s).Some? ==> d.seen <= DecodeLoop(fields, d, s).value.d.seen
    decreases |s|
  {
    if s != [] {
      match DecodeOne(fields, d, s)
      case Failed =>
      case Stop(_) =>
      case Next(d', rest) => SeenGrows(fields, d', rest);
    }
  }

  ghost predicate NoRequired(fields: seq<Field>) {
    forall f | f in fields :: f.htype != Required
  }

  lemma {:induction false} NoRequiredNoneTracked(fields: seq<Field>, n: nat)
    requires NoRequired(fields) && n <= |fields|
    ensures RequiredIndex(fields, n) == 0
  {
    if n > 0 {
      NoRequiredNoneTracked(fields, n - 1);
      assert fields[n - 1] in fields;
    }
  }

  /** Whether a zero tag, rather than the end of the stream, ended the message. */
  predicate EndsAtZeroTag(fields: seq<Field>, slots: seq<Slot>, s: seq<byte>)
    requires |slots| == SlotCount(fields)
  {
    var r := DecodeLoop(fields, Partial(slots, {}, 0), s);
    r.Some? && r.value.stopped
  }

  /**
   Concatenating encoded messages merges them. If `a` is accepted, decoding a + b is
   decoding a and then b into the result; unless a zero tag ended `a`, in which case b is
   not read at all.
   */
  lemma ConcatenationIsMerge(fields: seq<Field>, slots: seq<Slot>, a: seq<byte>, b: seq<byte>)
    requires DistinctTags(fields) && NoRequired(fields)
    requires DecodeNoinit(fields, slots, a).Some?
    ensures var r := DecodeNoinit(fields, slots, a).value;
      DecodeNoinit(fields, slots, a + b) ==
      if EndsAtZeroTag(fields, slots, a) then Some(Read(r.value, r.rest + b))
      else DecodeNoinit(fields, r.value, b)
  {
    var d := Partial(slots, {}, 0);
    NoRequiredNoneTracked(fields, |fields|);
    LoopConcat(fields, d, a, b);
    var d' := DecodeLoop(fields, d, a).value.d;
    PositionIrrelevant(fields, d', Partial(d'.slots, {}, 0), b);
  }

  // ----- unknown fields

  ghost predicate LengthDelimited(p: seq<byte>, n: nat) {
    n < TWO_32 && |p| == |Varint(n)| + n && p[..|Varint(n)|] == Varint(n)
  }

  /** The octets of a field payload of the given wire type. */
  ghost predicate WellFormedPayload(wire: nat, p: seq<byte>) {
    if wire == 0 then p != [] && p[|p| - 1] < 128 && forall k | 0 <= k < |p| - 1 :: p[k] >= 128
    else if wire == 1 then |p| == 8
    else if wire == 2 then exists n: nat :: LengthDelimited(p, n)
    else wire == 5 && |p| == 4
  }

  lemma {:induction false} SkipsVarint(p: seq<byte>, t: seq<byte>)
    requires WellFormedPayload(0, p)
    ensures SkipVarint(p + t) == Some(t)
    decreases |p|
  {
    assert (p + t)[1..] == p[1..] + t;
    if |p| == 1 {
      assert p[1..] + t == t;
    } else {
      SkipsVarint(p[1..], t);
    }
  }

  /** Skipping consumes exactly the octets of the field. */
  lemma SkipsExactly(wire: nat, p: seq<byte>, t: seq<byte>)
    requires WellFormedPayload(wire, p)
    ensures SkipField(wire, p + t) == Some(t)
  {
    if wire == 0 {
      SkipsVarint(p, t);
    } else if wire == 2 {
      var n: nat :| LengthDelimited(p, n);
      var body := p[|Varint(n)|..];
      assert p + t == Varint(n) + (body + t);
      Varint32RoundTrip(n, body + t);
      assert (body + t)[n..] == t;
    } else {
      assert (p + t)[|p|..] == t;
    }
  }

  lemma TagReadsBack(tag: nat, wire: nat, t: seq<byte>)
    requires 0 < tag < 0x2000_0000 && wire < 8
    ensures ReadTag(Varint(tag * 8 + wire) + t) == FieldTag(tag, wire, t)
  {
    Varint32RoundTrip(tag * 8 + wire, t);
  }

  /** A field the descriptor does not know changes nothing, at the start of the rest of a stream. */
  lemma UnknownFieldSkipped(fields: seq<Field>, d: Partial, tag: nat, wire: nat, p: seq<byte>, s: seq<byte>)
    requires Fits(fields, d) && 0 < tag < 0x2000_0000
    requires WellFormedPayload(wire, p)
    requires forall f | f in fields :: f.tag != tag
    ensures DecodeLoop(fields, d, Varint(tag * 8 + wire) + p + s) == DecodeLoop(fields, d, s)
  {
    var u := Varint(tag * 8 + wire) + p + s;
    assert u == Varint(tag * 8 + wire) + (p + s);
    TagReadsBack(tag, wire, p + s);
    SkipsExactly(wire, p, s);
    hide ReadTag, SkipField, Varint, Find;
    forall i | 0 <= i < |fields|
      ensures fields[i].tag != tag
    {
      assert fields[i] in fields;
    }
    assert DecodeOne(fields, d, u) == Next(d, s);
  }

  /**
   Inserting a field the descriptor does not know, at any field boundary, leaves the result
   and the struct as they were.
   */
  lemma UnknownFieldsTransparent(
      fields: seq<Field>, slots: seq<Slot>, a: seq<byte>, tag: nat, wire: nat, p: seq<byte>, b: seq<byte>)
    requires |slots| == SlotCount(fields)
    requires 0 < tag < 0x2000_0000 && WellFormedPayload(wire, p) && forall f | f in fields :: f.tag != tag
    requires var r := DecodeLoop(fields, Partial(slots, {}, 0), a); r.Some? && !r.value.stopped
    ensures DecodeNoinit(fields, slots, a + (Varint(tag * 8 + wire) + p) + b) == DecodeNoinit(fields, slots, a + b)
  {
    var d := Partial(slots, {}, 0);
    var u := Varint(tag * 8 + wire) + p;
    LoopConcat(fields, d, a, u + b);
    LoopConcat(fields, d, a, b);
    assert a + u + b == a + (u + b);
    UnknownFieldSkipped(fields, DecodeLoop(fields, d, a).value.d, tag, wire, p, b);
  }

  // ----- required fields

  /** The fields the loop finds, in order. */
  function FoundFields(fields: seq<Field>, d: Partial, s: seq<byte>): (r: seq<nat>)
    requires Fits(fields, d)
    ensures forall i | i in r :: i < |fields|
    decreases |s|
  {
    if s == [] then []
    else
      match DecodeOne(fields, d, s)
      case Failed => []
      case Stop(_) => []
      case Next(d', rest) =>
        var tag := ReadTag(s);
        var here :=
          if fields != [] && tag.FieldTag? && Find(fields, d.pos, tag.tag).Some?
          then [Find(fields, d.pos, tag.tag).value] else [];
        here + FoundFields(fields, d', rest)
  }

  ghost predicate Tracked(fields: seq<Field>, i: nat) {
    i < |fields| && fields[i].htype == Required && RequiredIndex(fields, i) < MAX_REQUIRED_FIELDS
  }

  /** One of the found fields is the tracked required field counted k. */
  ghost predicate Marks(fields: seq<Field>, found: seq<nat>, k: nat) {
    exists i | i in found :: Tracked(fields, i) && RequiredIndex(fields, i) == k
  }

  lemma MarksCons(fields: seq<Field>, i: nat, later: seq<nat>, k: nat)
    ensures Marks(fields, [i] + later, k) <==>
            (Tracked(fields, i) && RequiredIndex(fields, i) == k) || Marks(fields, later, k)
  {
    assert i in [i] + later;
    if Marks(fields, later, k) {
      var j :| j in later && Tracked(fields, j) && RequiredIndex(fields, j) == k;
      assert j in [i] + later;
    }
  }

  /** A bit is set exactly when it was set before or its field was found. */
  lemma {:induction false} SeenIsFound(fields: seq<Field>, d: Partial, s: seq<byte>, k: nat)
    requires Fits(fields, d) && DecodeLoop(fields, d, s).Some?
    ensures k in DecodeLoop(fields, d, s).value.d.seen <==>
            k in d.seen || Marks(fields, FoundFields(fields, d, s), k)
    decreases |s|
  {
    if s == [] {
      assert FoundFields(fields, d, s) == [];
    } else {
      hide ReadTag, DecodeField, SkipField, Find, Marks, RequiredIndex;
      match DecodeOne(fields, d, s)
      case Failed =>
      case Stop(_) =>
      case Next(d', rest) =>
        SeenIsFound(fields, d', rest, k);
        var found, later := FoundFields(fields, d, s), FoundFields(fields, d', rest);
        if fields != [] && ReadTag(s).FieldTag? && Find(fields, d.pos, ReadTag(s).tag).Some? {
          var i := Find(fields, d.pos, ReadTag(s).tag).value;
          assert found == [i] + later;
          MarksCons(fields, i, later, k);
          assert d'.seen == Seen(fields, d.seen, i);
        } else {
          assert found == later && d' == d;
        }
    }
  }

  lemma {:induction false} RequiredIndexGrows(fields: seq<Field>, i: nat, j: nat)
    requires i <= j <= |fields|
    ensures RequiredIndex(fields, i) <= RequiredIndex(fields, j)
    ensures i < j && fields[i].htype == Required ==> RequiredIndex(fields, i) < RequiredIndex(fields, j)
    decreases j
  {
    if i < j {
      RequiredIndexGrows(fields, i, j - 1);
    }
  }

  /** Every count below the total belongs to one required field. */
  lemma {:induction false} RequiredAt(fields: seq<Field>, n: nat, k: nat) returns (i: nat)
    requires n <= |fields| && k < RequiredIndex(fields, n)
    ensures i < n && fields[i].htype == Required && RequiredIndex(fields, i) == k
    decreases n
  {
    if k < RequiredIndex(fields, n - 1) {
      i := RequiredAt(fields, n - 1, k);
    } else {
      i := n - 1;
    }
  }

  lemma SameRequired(fields: seq<Field>, i: nat, j: nat)
    requires Tracked(fields, i) && Tracked(fields, j) && RequiredIndex(fields, i) == RequiredIndex(fields, j)
    ensures i == j
  {
    if i < j {
      RequiredIndexGrows(fields, i, j);
    } else if j < i {
      RequiredIndexGrows(fields, j, i);
    }
  }

  /**
   When every field decodes, the message is refused exactly when one of the first 64
   required fields never appeared.
   */
  lemma RequiredCheckExact(fields: seq<Field>, slots: seq<Slot>, s: seq<byte>)
    requires |slots| == SlotCount(fields)
    requires DecodeLoop(fields, Partial(slots, {}, 0), s).Some?
    ensures DecodeNoinit(fields, slots, s).None? <==>
            exists i: nat :: Tracked(fields, i) && i !in FoundFields(fields, Partial(slots, {}, 0), s)
  {
    var d := Partial(slots, {}, 0);
    var found := FoundFields(fields, d, s);
    var seen := DecodeLoop(fields, d, s).value.d.seen;
    if DecodeNoinit(fields, slots, s).None? {
      var k: nat :| k < TrackedCount(fields) && k !in seen;
      var i := RequiredAt(fields, |fields|, k);
      SeenIsFound(fields, d, s, k);
      assert Tracked(fields, i) && i !in found;
    }
    if i: nat :| Tracked(fields, i) && i !in found {
      var k := RequiredIndex(fields, i);
      RequiredIndexGrows(fields, i, |fields|);
      SeenIsFound(fields, d, s, k);
      if k in seen {
        var j :| j in found && Tracked(fields, j) && RequiredIndex(fields, j) == k;
        SameRequired(fields, i, j);
        assert false;
      }
    }
  }
}
