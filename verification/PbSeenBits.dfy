/**
 The bitmap in which the nanopb decoder ticks off required fields (pb_decode.c): two
 32-bit words, checked word by word at the end of a message.
 */
module PbSeenBits {
  const ALL_BITS: bv32 := 0xffff_ffff

  predicate Bit(w: bv32, k: bv5) {
    (w >> k) & 1 == 1
  }

  function OrBit(w: bv32, k: bv5): bv32 {
    w | (1 << k)
  }

  lemma OrBitSets(w: bv32, j: bv5, k: bv5)
    ensures Bit(OrBit(w, j), k) <==> k == j || Bit(w, k)
  {
  }

  /** allbits >> (32 - r): the r lowest bits. */
  function LowBits(r: nat): bv32
    requires 0 < r < 32
  {
    ALL_BITS >> ((32 - r) as bv5)
  }

  lemma LowBitsAre(r: bv5, k: bv5)
    requires r != 0
    ensures Bit(ALL_BITS >> (0 - r), k) <==> k < r
  {
  }

  lemma ZeroBits(k: bv5)
    ensures !Bit(0, k)
  {
  }

  lemma AllBits(k: bv5)
    ensures Bit(ALL_BITS, k)
  {
  }

  function Octet(w: bv32, base: bv5): bv32 {
    (w >> base) & 0xff
  }

  lemma SameOctet(a: bv32, b: bv32, base: bv5)
    requires base <= 24
    requires forall k: bv5 :: Bit(a, k) == Bit(b, k)
    ensures Octet(a, base) == Octet(b, base)
  {
    hide Bit;
    var x, y := a >> base, b >> base;
    forall k: bv5 | k < 8
      ensures Bit(x, k) == Bit(y, k)
    {
      BitAbove(a, base, k);
      BitAbove(b, base, k);
    }
    SameLowOctet(x, y);
  }

  lemma BitAbove(w: bv32, base: bv5, k: bv5)
    requires base <= 24 && k < 8
    ensures Bit(w >> base, k) == Bit(w, base + k)
  {
  }

  lemma SameLowOctet(a: bv32, b: bv32)
    requires forall k: bv5 | k < 8 :: Bit(a, k) == Bit(b, k)
    ensures a & 0xff == b & 0xff
  {
    assert Bit(a, 0) == Bit(b, 0) && Bit(a, 1) == Bit(b, 1) && Bit(a, 2) == Bit(b, 2) && Bit(a, 3) == Bit(b, 3);
    assert Bit(a, 4) == Bit(b, 4) && Bit(a, 5) == Bit(b, 5) && Bit(a, 6) == Bit(b, 6) && Bit(a, 7) == Bit(b, 7);
  }

  lemma FourOctets(a: bv32, b: bv32)
    requires Octet(a, 0) == Octet(b, 0) && Octet(a, 8) == Octet(b, 8)
    requires Octet(a, 16) == Octet(b, 16) && Octet(a, 24) == Octet(b, 24)
    ensures a == b
  {
  }

  lemma SameWord(a: bv32, b: bv32)
    requires forall k: bv5 :: Bit(a, k) == Bit(b, k)
    ensures a == b
  {
    hide Bit, Octet;
    SameOctet(a, b, 0);
    SameOctet(a, b, 8);
    SameOctet(a, b, 16);
    SameOctet(a, b, 24);
    FourOctets(a, b);
  }

  lemma Index(k: nat)
    requires k < 32
    ensures (k as bv5) as nat == k
  {
  }

  lemma SameIndex(a: bv5, b: bv5)
    ensures a == b <==> a as nat == b as nat
    ensures a as nat < 32
  {
  }

  lemma Order(a: bv5, b: bv5)
    ensures a < b <==> a as nat < b as nat
  {
  }

  lemma Complement(r: nat)
    requires 0 < r < 32
    ensures (32 - r) as bv5 == 0 - (r as bv5) && r as bv5 != 0
  {
  }

  lemma LowestBits(r: nat, k: bv5)
    requires 0 < r < 32
    ensures Bit(LowBits(r), k) <==> k as nat < r
  {
    Complement(r);
    Index(r);
    LowBitsAre(r as bv5, k);
    Order(k, r as bv5);
  }

  // ----- the bitmap

  const CAPACITY: nat := 64

  predicate Has(words: seq<bv32>, i: nat)
    requires |words| == 2 && i < CAPACITY
  {
    Bit(words[i / 32], (i % 32) as bv5)
  }

  ghost function AsSet(words: seq<bv32>): (s: set<nat>)
    requires |words| == 2
    ensures forall i: nat :: i in s <==> i < CAPACITY && Has(words, i)
  {
    set i: nat | i < CAPACITY && Has(words, i)
  }

  lemma WordBits(words: seq<bv32>, w: nat, k: bv5)
    requires |words| == 2 && w < 2
    ensures 32 * w + k as nat < CAPACITY
    ensures Bit(words[w], k) == Has(words, 32 * w + k as nat)
  {
    SameIndex(k, k);
    var i := 32 * w + k as nat;
    assert i / 32 == w && i % 32 == k as nat;
    Index(i % 32);
    SameIndex(k, (i % 32) as bv5);
  }

  lemma MarkedWord(words: seq<bv32>, i: nat, j: nat)
    requires |words| == 2 && i < CAPACITY && j < CAPACITY
    ensures var after := words[i / 32 := OrBit(words[i / 32], (i % 32) as bv5)];
      Has(after, j) <==> j == i || Has(words, j)
  {
    Index(i % 32);
    Index(j % 32);
    OrBitSets(words[i / 32], (i % 32) as bv5, (j % 32) as bv5);
    SameIndex((i % 32) as bv5, (j % 32) as bv5);
  }

  /** A word is full exactly when its thirty-two indices are there. */
  lemma FullWord(words: seq<bv32>, w: nat)
    requires |words| == 2 && w < 2
    ensures words[w] == ALL_BITS <==> forall i: nat | 32 * w <= i < 32 * w + 32 :: Has(words, i)
  {
    if forall i: nat | 32 * w <= i < 32 * w + 32 :: Has(words, i) {
      forall k: bv5
        ensures Bit(words[w], k) == Bit(ALL_BITS, k)
      {
        WordBits(words, w, k);
        SameIndex(k, k);
        AllBits(k);
      }
      SameWord(words[w], ALL_BITS);
    }
    if words[w] == ALL_BITS {
      forall i: nat | 32 * w <= i < 32 * w + 32
        ensures Has(words, i)
      {
        AllBits((i % 32) as bv5);
      }
    }
  }

  /** The last, partial word: complete when it is exactly the r lowest bits. */
  lemma PartWord(words: seq<bv32>, w: nat, r: nat)
    requires |words| == 2 && w < 2 && 0 < r < 32
    requires forall i: nat | 32 * w + r <= i < 32 * w + 32 :: !Has(words, i)
    ensures words[w] == LowBits(r) <==> forall i: nat | 32 * w <= i < 32 * w + r :: Has(words, i)
  {
    hide Bit, LowBits;
    forall k: bv5
      ensures Bit(LowBits(r), k) <==> k as nat < r
    {
      LowestBits(r, k);
    }
    if forall i: nat | 32 * w <= i < 32 * w + r :: Has(words, i) {
      forall k: bv5
        ensures Bit(words[w], k) == Bit(LowBits(r), k)
      {
        WordBits(words, w, k);
        SameIndex(k, k);
      }
      SameWord(words[w], LowBits(r));
    }
    if words[w] == LowBits(r) {
      forall i: nat | 32 * w <= i < 32 * w + r
        ensures Has(words, i)
      {
        Index(i % 32);
      }
    }
  }

  class SeenBits {
    const words: array<bv32>

    ghost predicate Valid() {
      words.Length == 2
    }

    ghost function Seen(): (s: set<nat>)
      requires Valid()
      reads words
    {
      AsSet(words[..])
    }

    constructor ()
      ensures Valid() && fresh(words) && Seen() == {}
    {
      words := new bv32[2](_ => 0);
      new;
      forall i: nat | i < CAPACITY
        ensures !Has(words[..], i)
      {
        ZeroBits((i % 32) as bv5);
      }
    }

    method Mark(i: nat)
      requires Valid() && i < CAPACITY
      modifies words
      ensures Seen() == old(Seen()) + {i}
    {
      ghost var before := words[..];
      words[i / 32] := OrBit(words[i / 32], (i % 32) as bv5);
      assert words[..] == before[i / 32 := OrBit(before[i / 32], (i % 32) as bv5)];
      forall j: nat | j < CAPACITY
        ensures Has(words[..], j) <==> j == i || Has(before, j)
      {
        MarkedWord(before, i, j);
      }
    }

    /** Whether the first n indices, of which alone any can be set, are all set. */
    method AllMarked(n: nat) returns (all: bool)
      requires Valid() && n <= CAPACITY
      requires forall i | i in Seen() :: i < n
      ensures all <==> forall i: nat | i < n :: i in Seen()
    {
      var w := 0;
      while w < n / 32
        invariant 0 <= w <= n / 32
        invariant forall i: nat | i < 32 * w :: i in Seen()
      {
        FullWord(words[..], w);
        if words[w] != ALL_BITS {
          ghost var i: nat :| 32 * w <= i < 32 * w + 32 && !Has(words[..], i);
          assert i !in Seen();
          return false;
        }
        w := w + 1;
      }
      if n % 32 != 0 {
        forall i: nat | n <= i < CAPACITY
          ensures !Has(words[..], i)
        {
          assert i !in Seen();
        }
        PartWord(words[..], n / 32, n % 32);
        if words[n / 32] != LowBits(n % 32) {
          ghost var i: nat :| 32 * (n / 32) <= i < n && !Has(words[..], i);
          assert i !in Seen();
          return false;
        }
      }
      return true;
    }
  }
}
