/**
 The DTLS anti-replay window (ssl/dtls_record.cc; section 4.1.2.6 of RFC 6347).

 `map` holds one bit for each of the last 64 sequence numbers: bit i stands for
 maxSeqNum - i. The window is proved to decide exactly like the set of numbers it has
 recorded, except that a number more than 63 below the maximum is refused unseen.
 */
module ReplayWindow {
  import opened Octets

  const WINDOW_SIZE: nat := 64

  type uint64 = v: int | 0 <= v < 0x1_0000_0000_0000_0000

  // ----- sequence numbers as octets

  /** The big-endian value of at most eight octets. */
  function BigEndian(s: seq<byte>): (v: nat)
  {
    if s == [] then 0 else
      var low: nat := s[|s| - 1];
      256 * BigEndian(s[..|s| - 1]) + low
  }

  lemma {:induction false} BigEndianBound(s: seq<byte>)
    requires |s| <= 8
    ensures BigEndian(s) < Power256(|s|) <= 0x1_0000_0000_0000_0000
  {
    assert Power256(8) == 0x1_0000_0000_0000_0000;
    if s != [] {
      BigEndianBound(s[..|s| - 1]);
      PowerGrows(|s|, 8);
    }
  }

  lemma {:induction false} PowerGrows(m: nat, n: nat)
    requires m <= n
    ensures 1 <= Power256(m) <= Power256(n)
    decreases n
  {
    if m < n {
      PowerGrows(m, n - 1);
    } else if n > 0 {
      PowerGrows(m - 1, n - 1);
    }
  }

  /** Two record headers with the same number carry the same eight octets. */
  lemma {:induction false} BigEndianInjective(a: seq<byte>, b: seq<byte>)
    requires |a| == |b| && BigEndian(a) == BigEndian(b)
    ensures a == b
  {
    if a != [] {
      BigEndianInjective(a[..|a| - 1], b[..|b| - 1]);
    }
  }

  /** `ret <<= 8; ret |= in[i]` on a value whose low octet is zero is 256 * ret + in[i]. */
  method ToU64Be(input: seq<byte>) returns (ret: uint64)
    requires |input| == 8
    ensures ret == BigEndian(input)
  {
    BigEndianBound([]);
    var r: nat := 0;
    for i := 0 to 8
      invariant r == BigEndian(input[..i])
    {
      var octet: nat := input[i];
      r := 256 * r + octet;
      assert input[..i + 1][..i] == input[..i];
    }
    assert input[..8] == input;
    BigEndianBound(input);
    ret := r;
  }

  // ----- bits of the map

  predicate Bit(m: bv64, i: bv6) {
    (m >> i) & 1 == 1
  }

  function ShiftMap(m: bv64, shift: bv6): bv64 {
    m << shift
  }

  function OrBit(m: bv64, j: bv6): bv64 {
    m | (1 << j)
  }

  lemma ShiftedIn(m: bv64, shift: bv6, i: bv6)
    requires i < shift
    ensures !Bit(ShiftMap(m, shift), i)
  {
  }

  /** A shift is a shift by less than eight followed by a shift by a multiple of eight. */
  lemma SplitShift(m: bv64, shift: bv6)
    ensures ShiftMap(m, shift) == ShiftMap(ShiftMap(m, shift & 0x07), shift & 0x38)
  {
  }

  lemma ShiftedUpSmall(m: bv64, shift: bv6, i: bv6)
    requires shift <= i && shift < 8
    ensures Bit(m << shift, i) == Bit(m, i - shift)
  {
  }

  lemma ShiftedUpLarge(m: bv64, shift: bv6, i: bv6)
    requires shift <= i && shift & 0x07 == 0
    ensures Bit(m << shift, i) == Bit(m, i - shift)
  {
  }

  lemma SplitAmount(shift: bv6, i: bv6)
    requires shift <= i
    ensures var small, large := shift & 0x07, shift & 0x38;
      && small < 8 && large & 0x07 == 0 && large <= i && small <= i - large
      && i - large - small == i - shift
  {
  }

  lemma ShiftMapUp(m: bv64, shift: bv6, i: bv6)
    requires shift <= i && (shift < 8 || shift & 0x07 == 0)
    ensures Bit(ShiftMap(m, shift), i) == Bit(m, i - shift)
  {
    hide Bit;
    if shift < 8 {
      ShiftedUpSmall(m, shift, i);
    } else {
      ShiftedUpLarge(m, shift, i);
    }
  }

  lemma ShiftedUp(m: bv64, shift: bv6, i: bv6)
    requires shift <= i
    ensures Bit(ShiftMap(m, shift), i) == Bit(m, i - shift)
  {
    hide *;
    var small, large := shift & 0x07, shift & 0x38;
    SplitAmount(shift, i);
    SplitShift(m, shift);
    ShiftMapUp(ShiftMap(m, small), large, i);
    ShiftMapUp(m, small, i - large);
  }

  lemma SetBit(m: bv64, j: bv6, i: bv6)
    ensures Bit(OrBit(m, j), i) <==> i == j || Bit(m, i)
  {
  }

  lemma ZeroMap(i: bv6)
    ensures !Bit(0, i)
  {
  }

  lemma Difference(a: bv6, b: bv6)
    requires a <= b
    ensures (b - a) as nat == b as nat - a as nat
  {
  }

  lemma Order(a: bv6, b: bv6)
    ensures a <= b <==> a as nat <= b as nat
  {
  }

  lemma SameIndex(a: bv6, b: bv6)
    ensures a == b <==> a as nat == b as nat
  {
  }

  lemma BelowWindow(i: bv6)
    ensures i as nat < WINDOW_SIZE
  {
  }

  lemma Index(k: nat)
    requires k < 64
    ensures (k as bv6) as nat == k
  {
  }

  // ----- the window

  datatype Window = Window(map_: bv64, maxSeqNum: uint64)

  const EMPTY := Window(0, 0)

  predicate ShouldDiscard(w: Window, s: uint64) {
    if s > w.maxSeqNum then false
    else
      var idx := w.maxSeqNum - s;
      idx >= WINDOW_SIZE || Bit(w.map_, idx as bv6)
  }

  /** Slides the window forward so that it ends at `s`, if `s` is ahead of it. */
  function Slide(w: Window, s: uint64): (r: Window)
    ensures s <= r.maxSeqNum
  {
    if s > w.maxSeqNum then
      var shift := s - w.maxSeqNum;
      Window(if shift >= WINDOW_SIZE then 0 else ShiftMap(w.map_, shift as bv6), s)
    else w
  }

  function MarkSeen(w: Window, s: uint64): Window
    requires s <= w.maxSeqNum
  {
    var idx := w.maxSeqNum - s;
    if idx < WINDOW_SIZE then w.(map_ := OrBit(w.map_, idx as bv6)) else w
  }

  function Record(w: Window, s: uint64): Window {
    MarkSeen(Slide(w, s), s)
  }

  // ----- the window against the set of recorded numbers

  /** Bit i of the map says whether maxSeqNum - i has been recorded. */
  ghost predicate MapMatches(w: Window, seen: set<uint64>) {
    forall i: bv6 :: Bit(w.map_, i) <==> w.maxSeqNum - i as nat in seen
  }

  /** The set of recorded numbers that `w` stands for, as far as `w` can tell. */
  ghost predicate Represents(w: Window, seen: set<uint64>) {
    && (forall s | s in seen :: s <= w.maxSeqNum)
    && (w.maxSeqNum == 0 || w.maxSeqNum in seen)
    && MapMatches(w, seen)
  }

  lemma EmptyRepresents()
    ensures Represents(EMPTY, {})
  {
    forall i: bv6
      ensures !Bit(0, i)
    {
      ZeroMap(i);
    }
  }

  lemma MatchAt(w: Window, seen: set<uint64>, i: bv6)
    requires MapMatches(w, seen)
    ensures Bit(w.map_, i) <==> w.maxSeqNum - i as nat in seen
  {
  }

  /** The decision, in terms of the recorded numbers alone. */
  lemma DiscardMeansSeenOrStale(w: Window, seen: set<uint64>, s: uint64)
    requires Represents(w, seen)
    ensures ShouldDiscard(w, s) <==>
            s <= w.maxSeqNum && (w.maxSeqNum - s >= WINDOW_SIZE || s in seen)
    ensures s in seen ==> ShouldDiscard(w, s)
  {
    var idx := w.maxSeqNum - s;
    if 0 <= idx < WINDOW_SIZE {
      Index(idx);
      MatchAt(w, seen, idx as bv6);
    }
  }

  lemma SlideMatches(w: Window, seen: set<uint64>, s: uint64)
    requires Represents(w, seen)
    ensures MapMatches(Slide(w, s), seen)
  {
    hide Bit, ShiftMap;
    if s > w.maxSeqNum {
      forall i: bv6
        ensures Bit(Slide(w, s).map_, i) <==> s - i as nat in seen
      {
        var shift := s - w.maxSeqNum;
        if shift < WINDOW_SIZE {
          Index(shift);
          SlideBit(w, seen, s, shift as bv6, i);
        } else {
          ZeroMap(i);
          BelowWindow(i);
        }
      }
    }
  }

  lemma SlideBit(w: Window, seen: set<uint64>, s: uint64, shift: bv6, i: bv6)
    requires Represents(w, seen) && s == w.maxSeqNum + shift as nat
    ensures Bit(ShiftMap(w.map_, shift), i) <==> s - i as nat in seen
  {
    Order(shift, i);
    if i < shift {
      ShiftedIn(w.map_, shift, i);
    } else {
      ShiftedUp(w.map_, shift, i);
      Difference(shift, i);
      assert Bit(w.map_, i - shift) <==> w.maxSeqNum - (i - shift) as nat in seen;
    }
  }

  lemma MarkMatches(w: Window, seen: set<uint64>, s: uint64)
    requires s <= w.maxSeqNum && MapMatches(w, seen)
    ensures MapMatches(MarkSeen(w, s), seen + {s})
  {
    hide Bit, MarkSeen;
    forall i: bv6
      ensures Bit(MarkSeen(w, s).map_, i) <==> w.maxSeqNum - i as nat in seen + {s}
    {
      MarkBit(w, seen, s, i);
    }
    MarkKeepsMax(w, s);
  }

  lemma MarkKeepsMax(w: Window, s: uint64)
    requires s <= w.maxSeqNum
    ensures MarkSeen(w, s).maxSeqNum == w.maxSeqNum
  {
    hide OrBit;
  }

  lemma MarkBit(w: Window, seen: set<uint64>, s: uint64, i: bv6)
    requires s <= w.maxSeqNum && MapMatches(w, seen)
    ensures Bit(MarkSeen(w, s).map_, i) <==> w.maxSeqNum - i as nat in seen + {s}
  {
    hide Bit, OrBit;
    var idx := w.maxSeqNum - s;
    MatchAt(w, seen, i);
    if idx < WINDOW_SIZE {
      Index(idx);
      SetBit(w.map_, idx as bv6, i);
      SameIndex(idx as bv6, i);
    } else {
      BelowWindow(i);
    }
  }

  lemma RecordRepresents(w: Window, seen: set<uint64>, s: uint64)
    requires Represents(w, seen)
    ensures Represents(Record(w, s), seen + {s})
  {
    SlideMatches(w, seen, s);
    MarkMatches(Slide(w, s), seen, s);
  }

  // ----- whole runs

  /** A record arriving: its number, its epoch, and whether its body authenticates. */
  datatype Arrival = Arrival(seqNum: uint64, epochOk: bool, opens: bool)

  predicate Accepts(w: Window, a: Arrival) {
    a.epochOk && !ShouldDiscard(w, a.seqNum) && a.opens
  }

  /** The window and the accepted numbers, oldest first, after a list of arrivals. */
  function Run(arrivals: seq<Arrival>): (r: (Window, seq<uint64>)) {
    if arrivals == [] then (EMPTY, [])
    else
      var (w, accepted) := Run(arrivals[..|arrivals| - 1]);
      var a := arrivals[|arrivals| - 1];
      if Accepts(w, a) then (Record(w, a.seqNum), accepted + [a.seqNum]) else (w, accepted)
  }

  ghost predicate NoDuplicates<T>(s: seq<T>) {
    forall i, j | 0 <= i < j < |s| :: s[i] != s[j]
  }

  function Members(s: seq<uint64>): (r: set<uint64>) {
    set x | x in s
  }

  /**
   In every run of one epoch the window represents exactly the accepted numbers, and no
   number is accepted twice.
   */
  lemma {:induction false} RunRefinesSet(arrivals: seq<Arrival>)
    ensures var (w, accepted) := Run(arrivals);
      && Represents(w, Members(accepted))
      && NoDuplicates(accepted)
  {
    if arrivals == [] {
      EmptyRepresents();
      assert Members([]) == {};
    } else {
      var init, a := arrivals[..|arrivals| - 1], arrivals[|arrivals| - 1];
      RunRefinesSet(init);
      var (w, accepted) := Run(init);
      if Accepts(w, a) {
        DiscardMeansSeenOrStale(w, Members(accepted), a.seqNum);
        RecordRepresents(w, Members(accepted), a.seqNum);
        assert Members(accepted + [a.seqNum]) == Members(accepted) + {a.seqNum};
      }
    }
  }

  /**
   The next arrival is accepted exactly when it is authentic, of this epoch, not already
   accepted, and less than 64 below the largest accepted number.
   */
  lemma AcceptsExactlyFresh(arrivals: seq<Arrival>, a: Arrival)
    ensures var (w, accepted) := Run(arrivals);
      Accepts(w, a) <==>
        && a.epochOk && a.opens && a.seqNum !in accepted
        && forall s | s in accepted :: s - a.seqNum < WINDOW_SIZE
  {
    RunRefinesSet(arrivals);
    var (w, accepted) := Run(arrivals);
    DiscardMeansSeenOrStale(w, Members(accepted), a.seqNum);
    assert forall s | s in accepted :: s in Members(accepted);
    if w.maxSeqNum != 0 {
      assert w.maxSeqNum in accepted;
    }
  }

  /** The bitmap object of an epoch. */
  class Bitmap {
    var map_: bv64
    var maxSeqNum: uint64

    function Value(): Window
      reads this
    {
      Window(map_, maxSeqNum)
    }

    constructor ()
      ensures Value() == EMPTY
    {
      map_, maxSeqNum := 0, 0;
    }

    method ShouldDiscardRecord(seqNum: seq<byte>) returns (discard: bool)
      requires |seqNum| == 8
      ensures BigEndian(seqNum) < 0x1_0000_0000_0000_0000
      ensures discard <==> ShouldDiscard(Value(), BigEndian(seqNum))
    {
      hide Bit, BigEndian;
      var seqNumU := ToU64Be(seqNum);
      if seqNumU > maxSeqNum {
        return false;
      }
      var idx := maxSeqNum - seqNumU;
      return idx >= WINDOW_SIZE || Bit(map_, idx as bv6);
    }

    method RecordReceipt(seqNum: seq<byte>)
      requires |seqNum| == 8
      modifies this
      ensures BigEndian(seqNum) < 0x1_0000_0000_0000_0000
      ensures Value() == Record(old(Value()), BigEndian(seqNum))
    {
      hide ShiftMap, OrBit, BigEndian;
      var seqNumU := ToU64Be(seqNum);
      if seqNumU > maxSeqNum {
        var shift := seqNumU - maxSeqNum;
        if shift >= WINDOW_SIZE {
          map_ := 0;
        } else {
          map_ := ShiftMap(map_, shift as bv6);
        }
        maxSeqNum := seqNumU;
      }
      var idx := maxSeqNum - seqNumU;
      if idx < WINDOW_SIZE {
        map_ := OrBit(map_, idx as bv6);
      }
    }
  }
}
