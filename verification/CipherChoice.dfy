/**
 The server's choice of a cipher suite (ssl3_choose_cipher in ssl/handshake_server.cc):
 one pass over the preferred list that must find the best group, and in it the cipher the
 other list puts first.
 */
module CipherChoice {
  import opened Fragments

  datatype Cipher = Cipher(id: nat, minVersion: nat, maxVersion: nat, keyExchange: bv32, auth: bv32)

  /** What the connection can use: its version and the masks of its configuration. */
  datatype Limits = Limits(version: nat, maskK: bv32, maskA: bv32)

  predicate Overlap(a: bv32, b: bv32) {
    a & b != 0
  }

  predicate Usable(lim: Limits, c: Cipher) {
    && c.minVersion <= lim.version <= c.maxVersion
    && Overlap(c.keyExchange, lim.maskK)
    && Overlap(c.auth, lim.maskA)
  }

  /** A single algorithm. */
  predicate OneBit(f: bv32) {
    f != 0 && f & (f - 1) == 0
  }

  /** One algorithm is in both masks. */
  ghost predicate Shared(a: bv32, b: bv32) {
    exists f: bv32 {:trigger OneBit(f)} :: OneBit(f) && a & f == f && b & f == f
  }

  lemma SharedExactly(a: bv32, b: bv32)
    ensures Shared(a, b) <==> Overlap(a, b)
  {
    hide OneBit, Overlap;
    if Overlap(a, b) {
      var f := BitOfBoth(a, b);
    }
    if Shared(a, b) {
      var f: bv32 :| OneBit(f) && a & f == f && b & f == f;
      BothHaveIt(a, b, f);
    }
  }

  lemma BitOfBoth(a: bv32, b: bv32) returns (f: bv32)
    requires Overlap(a, b)
    ensures OneBit(f) && a & f == f && b & f == f
  {
    f := LowestBit(a & b);
  }

  lemma BothHaveIt(a: bv32, b: bv32, f: bv32)
    requires OneBit(f) && a & f == f && b & f == f
    ensures Overlap(a, b)
  {
    assert f == 0 || a & b & f != 0;
  }

  lemma LowestBit(x: bv32) returns (f: bv32)
    requires x != 0
    ensures OneBit(f) && x & f == f
  {
    f := x & (0 - x);
  }

  /**
     A cipher can be used exactly when the version is in its range, the configuration has an
     algorithm of its key exchange, and one of its authentication.
   */
  lemma UsableMeans(lim: Limits, c: Cipher)
    ensures Usable(lim, c) <==>
      && c.minVersion <= lim.version && lim.version <= c.maxVersion
      && Shared(c.keyExchange, lim.maskK) && Shared(c.auth, lim.maskA)
  {
    hide Shared, Overlap;
    SharedExactly(c.keyExchange, lim.maskK);
    SharedExactly(c.auth, lim.maskA);
  }

  /** sk_SSL_CIPHER_find: the first position of the cipher in the list. */
  function Find(list: seq<Cipher>, c: Cipher): (r: Option<nat>)
    ensures r.Some? ==> r.value < |list| && list[r.value] == c && forall i :: 0 <= i < r.value ==> list[i] != c
    ensures r.None? ==> c !in list
  {
    if list == [] then None
    else if list[0] == c then Some(0)
    else
      var rest := Find(list[1..], c);
      if rest.None? then None else Some(rest.value + 1)
  }

  // ----- the ranking the choice has to respect

  predicate Acceptable(lim: Limits, allow: seq<Cipher>, c: Cipher) {
    Usable(lim, c) && Find(allow, c).Some?
  }

  /** in_group_flags[i] == 1: the i-th cipher is not the last of its group. */
  predicate Linked(flags: Option<seq<bool>>, i: nat) {
    flags.Some? && i < |flags.value| && flags.value[i]
  }

  /** The number of groups that end before position i. */
  function GroupOf(flags: Option<seq<bool>>, i: nat): nat {
    if i == 0 then 0 else GroupOf(flags, i - 1) + if Linked(flags, i - 1) then 0 else 1
  }

  function Place(allow: seq<Cipher>, c: Cipher): nat {
    var f := Find(allow, c);
    if f.Some? then f.value else |allow|
  }

  /** Position i of `prio` beats or ties position j: an earlier group, or an earlier place in `allow`. */
  predicate AtLeastAsGood(prio: seq<Cipher>, flags: Option<seq<bool>>, allow: seq<Cipher>, i: nat, j: nat)
    requires i < |prio| && j < |prio|
  {
    || GroupOf(flags, i) < GroupOf(flags, j)
    || (GroupOf(flags, i) == GroupOf(flags, j) && Place(allow, prio[i]) <= Place(allow, prio[j]))
  }

  ghost predicate Best(lim: Limits, prio: seq<Cipher>, flags: Option<seq<bool>>, allow: seq<Cipher>, c: Cipher) {
    exists i ::
      && 0 <= i < |prio| && prio[i] == c && Acceptable(lim, allow, c)
      && forall j :: 0 <= j < |prio| && Acceptable(lim, allow, prio[j]) ==> AtLeastAsGood(prio, flags, allow, i, j)
  }

  ghost predicate NoneAcceptable(lim: Limits, allow: seq<Cipher>, prio: seq<Cipher>, from: nat, end: nat)
    requires end <= |prio|
  {
    forall j :: from <= j < end ==> !Acceptable(lim, allow, prio[j])
  }

  lemma {:induction false} GroupsGrow(flags: Option<seq<bool>>, i: nat, j: nat)
    requires i <= j
    ensures GroupOf(flags, i) <= GroupOf(flags, j)
    ensures GroupOf(flags, i) == GroupOf(flags, j) <==> forall k :: i <= k < j ==> Linked(flags, k)
    decreases j
  {
    if i < j {
      GroupsGrow(flags, i, j - 1);
    }
  }

  /** The best cipher is unique, so "best" determines the result. */
  lemma BestIsUnique(lim: Limits, prio: seq<Cipher>, flags: Option<seq<bool>>, allow: seq<Cipher>, c: Cipher, d: Cipher)
    requires Best(lim, prio, flags, allow, c) && Best(lim, prio, flags, allow, d)
    ensures c == d
  {
    var i :| 0 <= i < |prio| && prio[i] == c && Acceptable(lim, allow, c)
      && forall j :: 0 <= j < |prio| && Acceptable(lim, allow, prio[j]) ==> AtLeastAsGood(prio, flags, allow, i, j);
    var k :| 0 <= k < |prio| && prio[k] == d && Acceptable(lim, allow, d)
      && forall j :: 0 <= j < |prio| && Acceptable(lim, allow, prio[j]) ==> AtLeastAsGood(prio, flags, allow, k, j);
    assert AtLeastAsGood(prio, flags, allow, i, k) && AtLeastAsGood(prio, flags, allow, k, i);
  }

  /** Without groups the best cipher is the first acceptable one of the preferred list. */
  lemma WithoutGroupsFirstWins(lim: Limits, prio: seq<Cipher>, allow: seq<Cipher>, i: nat)
    requires i < |prio| && Acceptable(lim, allow, prio[i]) && NoneAcceptable(lim, allow, prio, 0, i)
    ensures Best(lim, prio, None, allow, prio[i])
  {
    forall j | 0 <= j < |prio| && Acceptable(lim, allow, prio[j]) ensures AtLeastAsGood(prio, None, allow, i, j) {
      if i <= j {
        GroupsGrow(None, i, j);
        assert i < j ==> !Linked(None, i);
      }
    }
  }

  // ----- the loop

  /** The part of the preferred list that lies in groups with a last element. */
  function Closed(flags: Option<seq<bool>>, n: nat): (k: nat)
    ensures k <= n
    ensures forall i :: k <= i < n ==> Linked(flags, i)
    ensures k > 0 ==> !Linked(flags, k - 1)
  {
    if n == 0 then 0 else if Linked(flags, n - 1) then Closed(flags, n - 1) else n
  }

  /** What the pass knows before position i: the group that is open starts at s. */
  ghost predicate Scanned(
    lim: Limits, prio: seq<Cipher>, flags: Option<seq<bool>>, allow: seq<Cipher>, s: nat, i: nat, groupMin: int)
  {
    && s <= i <= |prio| && (s > 0 ==> !Linked(flags, s - 1)) && (forall k :: s <= k < i ==> Linked(flags, k))
    && NoneAcceptable(lim, allow, prio, 0, s)
    && -1 <= groupMin < |allow|
    && (groupMin == -1 ==> NoneAcceptable(lim, allow, prio, s, i))
    && (groupMin >= 0 ==>
          && (exists k :: s <= k < i && Acceptable(lim, allow, prio[k]) && Place(allow, prio[k]) == groupMin)
          && forall k :: s <= k < i && Acceptable(lim, allow, prio[k]) ==> groupMin <= Place(allow, prio[k]))
  }

  /** Leaving a group at position i with the minimum of the group settles the choice. */
  lemma LeaveGroup(
    lim: Limits, prio: seq<Cipher>, flags: Option<seq<bool>>, allow: seq<Cipher>, s: nat, i: nat, k: nat)
    requires s <= k <= i < |prio| && !Linked(flags, i) && (forall j :: s <= j < i ==> Linked(flags, j))
    requires NoneAcceptable(lim, allow, prio, 0, s) && Acceptable(lim, allow, prio[k])
    requires forall j :: s <= j <= i && Acceptable(lim, allow, prio[j]) ==>
      Place(allow, prio[k]) <= Place(allow, prio[j])
    ensures Best(lim, prio, flags, allow, prio[k])
  {
    forall j | 0 <= j < |prio| && Acceptable(lim, allow, prio[j]) ensures AtLeastAsGood(prio, flags, allow, k, j) {
      GroupsGrow(flags, s, k);
      if s <= j <= i {
        GroupsGrow(flags, s, j);
      } else if i < j {
        assert !Linked(flags, i);
        GroupsGrow(flags, k, j);
      }
    }
  }

  lemma ScanOn(
    lim: Limits, prio: seq<Cipher>, flags: Option<seq<bool>>, allow: seq<Cipher>, s: nat, i: nat, groupMin: int)
    requires i < |prio| && Scanned(lim, prio, flags, allow, s, i, groupMin)
    requires !Acceptable(lim, allow, prio[i]) && (Linked(flags, i) || groupMin == -1)
    ensures Scanned(lim, prio, flags, allow, if Linked(flags, i) then s else i + 1, i + 1, groupMin)
  {
  }

  lemma ScanMember(
    lim: Limits, prio: seq<Cipher>, flags: Option<seq<bool>>, allow: seq<Cipher>, s: nat, i: nat, groupMin: int)
    requires i < |prio| && Scanned(lim, prio, flags, allow, s, i, groupMin)
    requires Acceptable(lim, allow, prio[i]) && Linked(flags, i)
    ensures
      var place := Place(allow, prio[i]);
      Scanned(lim, prio, flags, allow, s, i + 1, if groupMin == -1 || groupMin > place then place else groupMin)
  {
  }

  /** At the last element of a group the smaller of its place and the minimum is the best cipher. */
  lemma ScanEnds(
    lim: Limits, prio: seq<Cipher>, flags: Option<seq<bool>>, allow: seq<Cipher>,
    s: nat, i: nat, groupMin: int, place: nat)
    requires i < |prio| && Scanned(lim, prio, flags, allow, s, i, groupMin) && !Linked(flags, i)
    requires groupMin >= 0 || Acceptable(lim, allow, prio[i])
    requires place == if !Acceptable(lim, allow, prio[i]) then groupMin
                      else if groupMin != -1 && groupMin < Place(allow, prio[i]) then groupMin
                      else Place(allow, prio[i])
    ensures place < |allow| && Best(lim, prio, flags, allow, allow[place])
    ensures !NoneAcceptable(lim, allow, prio, 0, i + 1)
  {
    if Acceptable(lim, allow, prio[i]) && place == Place(allow, prio[i]) {
      LeaveGroup(lim, prio, flags, allow, s, i, i);
    } else {
      var k :| s <= k < i && Acceptable(lim, allow, prio[k]) && Place(allow, prio[k]) == groupMin;
      LeaveGroup(lim, prio, flags, allow, s, i, k);
    }
  }

  lemma ClosedAt(flags: Option<seq<bool>>, i: nat, n: nat)
    requires i < n && !Linked(flags, i)
    ensures i < Closed(flags, n)
  {
  }

  lemma ScanStarts(lim: Limits, prio: seq<Cipher>, flags: Option<seq<bool>>, allow: seq<Cipher>)
    ensures Scanned(lim, prio, flags, allow, 0, 0, -1)
  {
  }

  lemma ScanOver(lim: Limits, prio: seq<Cipher>, flags: Option<seq<bool>>, allow: seq<Cipher>, s: nat, groupMin: int)
    requires Scanned(lim, prio, flags, allow, s, |prio|, groupMin)
    ensures NoneAcceptable(lim, allow, prio, 0, Closed(flags, |prio|))
  {
  }

  /** The loop of ssl3_choose_cipher. */
  method ChooseFrom(lim: Limits, prio: seq<Cipher>, flags: Option<seq<bool>>, allow: seq<Cipher>)
    returns (r: Option<Cipher>)
    requires flags.Some? ==> |flags.value| == |prio|
    ensures r.Some? ==> Best(lim, prio, flags, allow, r.value)
    ensures r.None? <==> NoneAcceptable(lim, allow, prio, 0, Closed(flags, |prio|))
  {
    hide Usable, Find, GroupOf, Best, Scanned;
    var groupMin := -1;
    var i := 0;
    ghost var s := 0;
    ScanStarts(lim, prio, flags, allow);
    while i < |prio|
      invariant 0 <= s <= i <= |prio| && Scanned(lim, prio, flags, allow, s, i, groupMin) && -1 <= groupMin < |allow|
      invariant flags.None? ==> groupMin == -1
    {
      var c := prio[i];
      var found := Find(allow, c);
      if Usable(lim, c) && found.Some? {
        var index := found.value;
        if flags.Some? && flags.value[i] {
          ScanMember(lim, prio, flags, allow, s, i, groupMin);
          if groupMin == -1 || groupMin > index {
            groupMin := index;
          }
        } else {
          if groupMin != -1 && groupMin < index {
            index := groupMin;
          }
          ScanEnds(lim, prio, flags, allow, s, i, groupMin, index);
          ClosedAt(flags, i, |prio|);
          return Some(allow[index]);
        }
      } else if Linked(flags, i) || groupMin == -1 {
        ScanOn(lim, prio, flags, allow, s, i, groupMin);
      }
      if flags.Some? && !flags.value[i] && groupMin != -1 {
        ScanEnds(lim, prio, flags, allow, s, i, groupMin, groupMin);
        ClosedAt(flags, i, |prio|);
        return Some(allow[groupMin]);
      }
      if !Linked(flags, i) {
        s := i + 1;
      }
      i := i + 1;
    }
    ScanOver(lim, prio, flags, allow, s, groupMin);
    return None;
  }

  /**
     ssl3_choose_cipher once the client's list is parsed. With server preference the
     result is the acceptable cipher of the earliest group, the client's order deciding
     inside it; otherwise the client's first acceptable one. There is none exactly when no
     cipher of a group that is closed is acceptable.
   */
  method ChooseCipher(
    lim: Limits, serverPreference: bool, server: seq<Cipher>, groups: Option<seq<bool>>, client: seq<Cipher>)
    returns (r: Option<Cipher>)
    requires groups.Some? ==> |groups.value| == |server|
    ensures serverPreference ==>
      && (r.Some? ==> Best(lim, server, groups, client, r.value))
      && (r.None? <==> NoneAcceptable(lim, client, server, 0, Closed(groups, |server|)))
    ensures !serverPreference ==>
      if r.Some? then
        exists i :: 0 <= i < |client| && client[i] == r.value && r.value in server && Usable(lim, r.value)
                    && forall j :: 0 <= j < i ==> client[j] !in server || !Usable(lim, client[j])
      else forall c :: c in client && c in server ==> !Usable(lim, c)
  {
    if serverPreference {
      r := ChooseFrom(lim, server, groups, client);
    } else {
      r := ChooseFrom(lim, client, None, server);
      if r.Some? {
        FirstOfClient(lim, client, server, r.value);
      }
    }
  }

  lemma FirstOfClient(lim: Limits, prio: seq<Cipher>, allow: seq<Cipher>, c: Cipher)
    requires Best(lim, prio, None, allow, c)
    ensures exists i :: 0 <= i < |prio| && prio[i] == c && c in allow && Usable(lim, c)
                        && forall j :: 0 <= j < i ==> prio[j] !in allow || !Usable(lim, prio[j])
  {
    var i :| 0 <= i < |prio| && prio[i] == c && Acceptable(lim, allow, c)
      && forall j :: 0 <= j < |prio| && Acceptable(lim, allow, prio[j]) ==> AtLeastAsGood(prio, None, allow, i, j);
    forall j | 0 <= j < i ensures prio[j] !in allow || !Usable(lim, prio[j]) {
      GroupsGrow(None, j, i);
      assert !Linked(None, j);
      assert !AtLeastAsGood(prio, None, allow, i, j);
    }
  }

  /** Some version and configuration can use the cipher. */
  predicate Choosable(c: Cipher) {
    c.minVersion <= c.maxVersion && c.keyExchange != 0 && c.auth != 0
  }

  lemma UsableMeansChoosable(lim: Limits, c: Cipher)
    requires Usable(lim, c)
    ensures Choosable(c)
  {
  }

  lemma EveryMaskUses(c: Cipher)
    requires Choosable(c)
    ensures Usable(Limits(c.minVersion, 0xffff_ffff, 0xffff_ffff), c)
  {
  }

  /** Against these lists the pass never returns none while some cipher is acceptable. */
  ghost predicate NeverMisses(prio: seq<Cipher>, flags: Option<seq<bool>>) {
    forall lim: Limits, allow: seq<Cipher> ::
      NoneAcceptable(lim, allow, prio, 0, Closed(flags, |prio|)) ==> NoneAcceptable(lim, allow, prio, 0, |prio|)
  }

  /** What lies behind the last closed group is useless, or stands in a closed group as well. */
  predicate OpenPartIsCovered(prio: seq<Cipher>, flags: Option<seq<bool>>) {
    forall j :: Closed(flags, |prio|) <= j < |prio| && Choosable(prio[j]) ==> prio[j] in prio[..Closed(flags, |prio|)]
  }

  predicate AllDifferent(prio: seq<Cipher>) {
    forall i, j :: 0 <= i <= j < |prio| ==> Choosable(prio[i]) && (i < j ==> prio[i] != prio[j])
  }

  lemma MissedCipher(prio: seq<Cipher>, flags: Option<seq<bool>>, j: nat)
    requires Closed(flags, |prio|) <= j < |prio| && Choosable(prio[j])
    requires prio[j] !in prio[..Closed(flags, |prio|)]
    ensures !NeverMisses(prio, flags)
  {
    var c, closed := prio[j], Closed(flags, |prio|);
    var lim := Limits(c.minVersion, 0xffff_ffff, 0xffff_ffff);
    EveryMaskUses(c);
    assert Acceptable(lim, [c], prio[j]) by {
      assert c in [c];
    }
    forall i | 0 <= i < closed ensures !Acceptable(lim, [c], prio[i]) {
      assert prio[i] in prio[..closed];
    }
    assert NoneAcceptable(lim, [c], prio, 0, closed) && !NoneAcceptable(lim, [c], prio, 0, |prio|);
  }

  /**
     Whether the pass can miss a cipher is seen on the preferred list alone: it never does,
     whatever the other list and the configuration, if and only if every cipher behind the
     last closed group is useless or stands in a closed group too. For a list of different
     ciphers that can be used this says that the last flag is 0.
   */
  lemma OpenLastGroupIsIgnored(prio: seq<Cipher>, flags: Option<seq<bool>>)
    ensures NeverMisses(prio, flags) <==> OpenPartIsCovered(prio, flags)
    ensures AllDifferent(prio) ==> (NeverMisses(prio, flags) <==> prio == [] || !Linked(flags, |prio| - 1))
  {
    var closed := Closed(flags, |prio|);
    if !OpenPartIsCovered(prio, flags) {
      var j :| closed <= j < |prio| && Choosable(prio[j]) && prio[j] !in prio[..closed];
      MissedCipher(prio, flags, j);
    } else {
      forall lim: Limits, allow: seq<Cipher> | NoneAcceptable(lim, allow, prio, 0, closed)
        ensures NoneAcceptable(lim, allow, prio, 0, |prio|)
      {
        forall j | closed <= j < |prio| ensures !Acceptable(lim, allow, prio[j]) {
          if Acceptable(lim, allow, prio[j]) {
            UsableMeansChoosable(lim, prio[j]);
          }
        }
      }
    }
    if AllDifferent(prio) && prio != [] && Linked(flags, |prio| - 1) {
      MissedCipher(prio, flags, |prio| - 1);
    }
  }

  /** The pass on one usable cipher, on both lists, whose flag says that its group goes on: it is not found. */
  method OpenLastGroupExample(lim: Limits, c: Cipher) returns (chosen: Option<Cipher>)
    requires Usable(lim, c)
    ensures Acceptable(lim, [c], c) && chosen.None?
  {
    assert Find([c], c) == Some(0);
    assert Linked(Some([true]), 0);
    chosen := ChooseFrom(lim, [c], Some([true]), [c]);
  }
}
