/**
 Handshake fragments on the wire (ssl/d1_both.cc; section 4.2.2 of RFC 6347): a twelve
 octet header followed by a slice of the message body.
 */
module Fragments {
  import opened Octets

  const HEADER_LENGTH: nat := 12

  datatype Option<+T> = None | Some(value: T)

  datatype Header = Header(msgType: byte, msgLen: nat, seqNo: nat, fragOff: nat, fragLen: nat)
  {
    /** The fields fit the widths they are sent in. */
    predicate Fits() {
      && msgLen < 0x100_0000 && seqNo < 0x1_0000
      && fragOff < 0x100_0000 && fragLen < 0x100_0000
    }
  }

  datatype Parsed = Parsed(header: Header, body: seq<byte>, rest: seq<byte>)

  function HeaderOctets(h: Header): (s: seq<byte>)
    requires h.Fits()
    ensures |s| == HEADER_LENGTH
  {
    [h.msgType] + U24(h.msgLen) + U16(h.seqNo) + U24(h.fragOff) + U24(h.fragLen)
  }

  function Serialize(h: Header, body: seq<byte>): (s: seq<byte>)
    requires h.Fits()
    ensures |s| == HEADER_LENGTH + |body|
  {
    HeaderOctets(h) + body
  }

  function ReadHeader(s: seq<byte>): (h: Header)
    requires |s| >= HEADER_LENGTH
    ensures h.Fits()
  {
    Header(s[0], ReadU24(s[1..4]), ReadU16(s[4..6]), ReadU24(s[6..9]), ReadU24(s[9..12]))
  }

  /** Reads one fragment; None when the header or the body is cut short. */
  function Parse(s: seq<byte>): (p: Option<Parsed>)
    ensures p.Some? ==> p.value.header.Fits() && |p.value.body| == p.value.header.fragLen
    ensures p.Some? ==> |p.value.rest| < |s|
  {
    if |s| < HEADER_LENGTH then None
    else
      var h := ReadHeader(s);
      if |s| - HEADER_LENGTH < h.fragLen then None
      else Some(Parsed(h, s[HEADER_LENGTH..HEADER_LENGTH + h.fragLen], s[HEADER_LENGTH + h.fragLen..]))
  }

  lemma ReadBackHeader(h: Header, tail: seq<byte>)
    requires h.Fits()
    ensures ReadHeader(HeaderOctets(h) + tail) == h
  {
    var s := HeaderOctets(h) + tail;
    var a, b, c, d, e := [h.msgType], U24(h.msgLen), U16(h.seqNo), U24(h.fragOff), U24(h.fragLen);
    ReadBack(h);
    hide U24, U16, ReadU24, ReadU16;
    MiddlePart(s, a + b + c + d, e, tail);
    MiddlePart(a + b + c + d, a + b + c, d, []);
    MiddlePart(a + b + c, a + b, c, []);
    MiddlePart(a + b, a, b, []);
    TakeTwice(s, 9, 6, 9);
    TakeTwice(s, 9, 4, 6);
    TakeTwice(s, 9, 1, 4);
    TakeTwice(a + b + c + d, 6, 4, 6);
    TakeTwice(a + b + c + d, 6, 1, 4);
    TakeTwice(a + b + c, 4, 1, 4);
  }

  lemma TakeTwice(s: seq<byte>, n: nat, i: nat, j: nat)
    requires i <= j <= n <= |s|
    ensures s[..n][i..j] == s[i..j]
  {
  }

  lemma ReadBack(h: Header)
    requires h.Fits()
    ensures ReadU24(U24(h.msgLen)) == h.msgLen && ReadU16(U16(h.seqNo)) == h.seqNo
    ensures ReadU24(U24(h.fragOff)) == h.fragOff && ReadU24(U24(h.fragLen)) == h.fragLen
  {
  }

  /** Whatever follows it, a serialized fragment parses back to itself. */
  lemma ParseSerialized(h: Header, body: seq<byte>, rest: seq<byte>)
    requires h.Fits() && |body| == h.fragLen
    ensures Parse(Serialize(h, body) + rest) == Some(Parsed(h, body, rest))
  {
    var s := Serialize(h, body) + rest;
    assert s == HeaderOctets(h) + (body + rest);
    ReadBackHeader(h, body + rest);
    assert s[HEADER_LENGTH..HEADER_LENGTH + |body|] == body;
    assert s[HEADER_LENGTH + |body|..] == rest;
  }

  /** A parsed fragment, serialized again, gives back the octets it was read from. */
  lemma SerializeParsed(s: seq<byte>)
    requires Parse(s).Some?
    ensures var p := Parse(s).value; Serialize(p.header, p.body) + p.rest == s
  {
    WriteBackHeader(s);
    var h := ReadHeader(s);
    var n := HEADER_LENGTH + h.fragLen;
    assert s == s[..HEADER_LENGTH] + s[HEADER_LENGTH..n] + s[n..];
  }

  lemma WriteBackHeader(s: seq<byte>)
    requires |s| >= HEADER_LENGTH
    ensures HeaderOctets(ReadHeader(s)) == s[..HEADER_LENGTH]
  {
    WriteBack24(s[1..4]);
    WriteBack16(s[4..6]);
    WriteBack24(s[6..9]);
    WriteBack24(s[9..12]);
    hide ReadU24, ReadU16, U24, U16;
    assert s[..HEADER_LENGTH] == [s[0]] + s[1..4] + s[4..6] + s[6..9] + s[9..12];
  }

  lemma WriteBack24(s: seq<byte>)
    requires |s| == 3
    ensures U24(ReadU24(s)) == s
  {
  }

  lemma WriteBack16(s: seq<byte>)
    requires |s| == 2
    ensures U16(ReadU16(s)) == s
  {
  }

  /** The octets of a serialized fragment, its numbers with the highest octet first. */
  lemma HeaderOctetsAre(h: Header, body: seq<byte>)
    requires h.Fits()
    ensures var s := Serialize(h, body);
      && s[0] == h.msgType && Number24(s, 1) == h.msgLen && Number16(s, 4) == h.seqNo
      && Number24(s, 6) == h.fragOff && Number24(s, 9) == h.fragLen && s[12..] == body
  {
  }

  function Number16(s: seq<byte>, at: nat): int
    requires at + 2 <= |s|
  {
    var high: int, low: int := s[at], s[at + 1];
    high * 0x100 + low
  }

  function Number24(s: seq<byte>, at: nat): int
    requires at + 3 <= |s|
  {
    var high: int := s[at];
    high * 0x1_0000 + Number16(s, at + 1)
  }
}
