/**
 Octets and the big-endian integers the DTLS headers are made of.
 */
module Octets {

  type byte = b: int | 0 <= b < 256

  function U16(v: nat): (s: seq<byte>)
    requires v < 0x1_0000
    ensures |s| == 2
  {
    [v / 256, v % 256]
  }

  function U24(v: nat): (s: seq<byte>)
    requires v < 0x100_0000
    ensures |s| == 3
  {
    [v / 0x1_0000, v / 256 % 256, v % 256]
  }

  function ReadU16(s: seq<byte>): (v: nat)
    requires |s| >= 2
    ensures v < 0x1_0000
  {
    var a: nat, b: nat := s[0], s[1];
    a * 256 + b
  }

  function ReadU24(s: seq<byte>): (v: nat)
    requires |s| >= 3
    ensures v < 0x100_0000
  {
    var a: nat, b: nat, c: nat := s[0], s[1], s[2];
    a * 0x1_0000 + b * 256 + c
  }

  /** How many values n octets have. */
  function Power256(n: nat): (p: nat)
    ensures p >= 1
  {
    if n == 0 then 1 else 256 * Power256(n - 1)
  }

  // ----- slices

  lemma MiddlePart(s: seq<byte>, front: seq<byte>, mid: seq<byte>, back: seq<byte>)
    requires s == front + mid + back
    ensures s[..|front|] == front && s[|front|..|front| + |mid|] == mid && s[|front| + |mid|..] == back
  {
  }

  lemma SplitSlice(s: seq<byte>, a: nat, b: nat, c: nat)
    requires a <= b <= c <= |s|
    ensures s[a..c] == s[a..b] + s[b..c] && s[a..c][..b - a] == s[a..b] && s[a..c][b - a..] == s[b..c]
  {
  }

  /** `data` written over s at position `at`. */
  function Patched(s: seq<byte>, at: nat, data: seq<byte>): (r: seq<byte>)
    requires at + |data| <= |s|
    ensures |r| == |s|
  {
    s[..at] + data + s[at + |data|..]
  }

  lemma PatchedParts(s: seq<byte>, at: nat, data: seq<byte>, a: nat, c: nat)
    requires a <= at && at + |data| <= c <= |s|
    ensures var r := Patched(s, at, data); var b := at + |data|;
      r[a..at] == s[a..at] && r[at..b] == data && r[b..c] == s[b..c]
  {
    var r, b := Patched(s, at, data), at + |data|;
    MiddlePart(r, s[..at], data, s[b..]);
    forall k | a <= k < at ensures r[k] == s[k] {
      assert r[..at][k] == s[..at][k];
    }
    forall k | b <= k < c ensures r[k] == s[k] {
      assert r[b..][k - b] == s[b..][k - b];
    }
  }

  /** memcpy into `dest`, from position `at` on. */
  method Copy(dest: array<byte>, at: nat, data: seq<byte>)
    requires at + |data| <= dest.Length
    modifies dest
    ensures dest[..] == Patched(old(dest[..]), at, data)
  {
    ghost var was := dest[..];
    forall i | at <= i < at + |data| {
      dest[i] := data[i - at];
    }
    ghost var r := Patched(was, at, data);
    forall k | 0 <= k < dest.Length ensures dest[k] == r[k] {
      if k < at {
        assert r[k] == was[k];
      } else if k >= at + |data| {
        assert r[k] == was[at + |data|..][k - at - |data|];
      }
    }
  }
}
