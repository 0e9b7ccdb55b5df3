/**
 The message flow of a TLS handshake before version 1.3, as section 7.3 of RFC 5246 and
 section 3.3 of RFC 5077 draw it: every message has its place in one order, and some of
 them may be left out.
 */
module HandshakeFlow {
  datatype Party = Client | Server

  /**
     CipherChange is not a message: the sender's new keys take effect at this point. The
     second ClientHello, after a HelloVerifyRequest, has a name of its own; so has the
     ChangeCipherSpec that an offer of early data sends.
   */
  datatype Message =
    | ClientHello | EarlyChangeCipherSpec | HelloVerifyRequest | RepeatedClientHello | ServerHello | Certificate
    | CertificateStatus | ServerKeyExchange | CertificateRequest | ServerHelloDone | ClientKeyExchange
    | CertificateVerify | ChangeCipherSpec | CipherChange | NextProto | ChannelId | NewSessionTicket | Finished | Other

  datatype Item = Item(from: Party, message: Message)

  type Trace = seq<Item>

  /** What a transition reports to the loop that drives the handshake. */
  datatype Wait = Ok | Error | Flush | ReadMessage | ReadChangeCipherSpec | EarlyReturn | Callback

  const NOWHERE: nat := 99

  function InHello(x: Item): nat {
    match x.message
    case ClientHello => if x.from.Client? then 0 else NOWHERE
    case EarlyChangeCipherSpec => if x.from.Client? then 1 else NOWHERE
    case HelloVerifyRequest => if x.from.Server? then 2 else NOWHERE
    case RepeatedClientHello => if x.from.Client? then 3 else NOWHERE
    case ServerHello => if x.from.Server? then 4 else NOWHERE
    case _ => NOWHERE
  }

  /** A full handshake: key exchange, then the client's flight, then the server's. */
  function InFull(x: Item): nat {
    match x.from
    case Server =>
      match x.message {
        case Certificate => 5
        case CertificateStatus => 6
        case ServerKeyExchange => 7
        case CertificateRequest => 8
        case ServerHelloDone => 9
        case NewSessionTicket => 18
        case ChangeCipherSpec => 19
        case CipherChange => 20
        case Finished => 21
        case _ => InHello(x)
      }
    case Client =>
      match x.message {
        case Certificate => 10
        case ClientKeyExchange => 11
        case CertificateVerify => 12
        case ChangeCipherSpec => 13
        case CipherChange => 14
        case NextProto => 15
        case ChannelId => 16
        case Finished => 17
        case _ => InHello(x)
      }
  }

  /** A resumed session: the server's flight comes first. */
  function InResumed(x: Item): nat {
    match x.from
    case Server =>
      match x.message {
        case NewSessionTicket => 5
        case ChangeCipherSpec => 6
        case CipherChange => 7
        case Finished => 8
        case _ => InHello(x)
      }
    case Client =>
      match x.message {
        case ChangeCipherSpec => 9
        case CipherChange => 10
        case NextProto => 11
        case ChannelId => 12
        case Finished => 13
        case _ => InHello(x)
      }
  }

  function Place(resumed: bool, x: Item): nat {
    if resumed then InResumed(x) else InFull(x)
  }

  function End(resumed: bool): nat { if resumed then 14 else 22 }

  /** The places that are never empty. */
  predicate Required(resumed: bool, k: nat) {
    if resumed then k == 0 || k == 4 || 6 <= k <= 10 || k == 13
    else k == 0 || k == 4 || k == 9 || k == 11 || k == 13 || k == 14 || k == 17 || 19 <= k <= 21
  }

  ghost predicate Ordered(resumed: bool, t: Trace) {
    forall i, j :: 0 <= i < j < |t| ==> Place(resumed, t[i]) < Place(resumed, t[j])
  }

  /** The handshake up to place n: in order, and with everything required before n. */
  ghost predicate UpTo(resumed: bool, t: Trace, n: nat) {
    && Ordered(resumed, t)
    && (forall i :: 0 <= i < |t| ==> Place(resumed, t[i]) < n)
    && (forall x: Item :: Place(resumed, x) < n && Required(resumed, Place(resumed, x)) ==> x in t)
  }

  ghost predicate Complete(resumed: bool, t: Trace) {
    UpTo(resumed, t, End(resumed)) && Item(Client, EarlyChangeCipherSpec) !in t
  }

  // ----- going on

  predicate Skippable(resumed: bool, n: nat, m: nat) {
    n <= m && forall k :: n <= k < m ==> !Required(resumed, k)
  }

  /** The items take the flow from place n to place m. */
  predicate Fits(resumed: bool, n: nat, items: Trace, m: nat)
    decreases |items|
  {
    if items == [] then Skippable(resumed, n, m)
    else
      var k := Place(resumed, items[0]);
      k < m && Skippable(resumed, n, k) && Fits(resumed, k + 1, items[1..], m)
  }

  /** Nothing, or one item, between place n and place m. */
  predicate FitsAtMostOne(resumed: bool, n: nat, items: Trace, m: nat) {
    if items == [] then n == m || (n + 1 == m && !Required(resumed, n))
    else |items| == 1 && Place(resumed, items[0]) == n && n + 1 == m
  }

  lemma FitsSimply(resumed: bool, n: nat, items: Trace, m: nat)
    requires FitsAtMostOne(resumed, n, items, m)
    ensures Fits(resumed, n, items, m)
  {
    if items != [] {
      assert items[1..] == [];
    }
  }

  lemma FitsThenSkips(resumed: bool, n: nat, x: Item, m: nat)
    requires Place(resumed, x) == n < m && Skippable(resumed, n + 1, m)
    ensures Fits(resumed, n, [x], m)
  {
    hide Place, Required;
    assert [x][1..] == [];
  }

  /** Two items that come together or not at all. */
  lemma FitsPair(resumed: bool, n: nat, x: Item, y: Item)
    requires Place(resumed, x) == n && Place(resumed, y) == n + 1
    requires !Required(resumed, n) && !Required(resumed, n + 1)
    ensures Fits(resumed, n, [x, y], n + 2) && Fits(resumed, n, [], n + 2)
  {
    hide Place, Required;
    assert [x, y][1..] == [y];
    assert [y][1..] == [];
    assert Fits(resumed, n + 1, [y], n + 2);
  }

  lemma {:induction false} FitsJoin(resumed: bool, n: nat, a: Trace, k: nat, b: Trace, m: nat)
    requires Fits(resumed, n, a, k) && Fits(resumed, k, b, m)
    ensures Fits(resumed, n, a + b, m)
    decreases |a|
  {
    hide Place, Required;
    if a == [] {
      assert a + b == b;
      FitsEarlier(resumed, n, k, b, m);
    } else {
      FitsJoin(resumed, Place(resumed, a[0]) + 1, a[1..], k, b, m);
      assert (a + b)[1..] == a[1..] + b;
      FitsAhead(resumed, k, b, m);
      FitsAhead(resumed, Place(resumed, a[0]) + 1, a[1..], k);
    }
  }

  lemma FitsEarlier(resumed: bool, n: nat, k: nat, b: Trace, m: nat)
    requires Skippable(resumed, n, k) && Fits(resumed, k, b, m)
    ensures Fits(resumed, n, b, m)
  {
  }

  lemma {:induction false} FitsAhead(resumed: bool, n: nat, a: Trace, m: nat)
    requires Fits(resumed, n, a, m)
    ensures n <= m
    decreases |a|
  {
    if a != [] {
      FitsAhead(resumed, Place(resumed, a[0]) + 1, a[1..], m);
    }
  }

  lemma PlacesAreDistinct(resumed: bool, x: Item, y: Item)
    requires Place(resumed, x) == Place(resumed, y) < NOWHERE
    ensures x == y
  {
  }

  lemma {:induction false} GoOn(resumed: bool, t: Trace, n: nat, items: Trace, m: nat)
    requires UpTo(resumed, t, n) && Fits(resumed, n, items, m) && m < NOWHERE
    ensures UpTo(resumed, t + items, m)
    decreases |items|
  {
    hide Place, Required;
    if items == [] {
      assert t + items == t;
      forall x: Item | Place(resumed, x) < m && Required(resumed, Place(resumed, x)) ensures x in t {
        assert Place(resumed, x) < n;
      }
    } else {
      var x := items[0];
      var k := Place(resumed, x);
      var u := t + [x];
      forall y: Item | Place(resumed, y) < k + 1 && Required(resumed, Place(resumed, y)) ensures y in u {
        if Place(resumed, y) == k {
          PlacesAreDistinct(resumed, x, y);
        } else {
          assert Place(resumed, y) < n;
        }
      }
      assert UpTo(resumed, u, k + 1);
      GoOn(resumed, u, k + 1, items[1..], m);
      assert t + items == u + items[1..];
    }
  }

  /** Up to ServerHello, both kinds of handshake are the same. */
  lemma HelloIsCommon(r: bool, q: bool, t: Trace, n: nat)
    requires UpTo(r, t, n) && n <= 5
    ensures UpTo(q, t, n)
  {
    forall x: Item ensures Place(r, x) < 5 || Place(q, x) < 5 ==> Place(r, x) == Place(q, x) { SamePlace(x); }
    hide Place;
  }

  lemma SamePlace(x: Item)
    ensures InFull(x) < 5 || InResumed(x) < 5 ==> InFull(x) == InResumed(x)
  {
  }

  // ----- what a complete handshake is like

  ghost predicate SameMembers(t: Trace, u: Trace) {
    forall x: Item :: x in t <==> x in u
  }

  /** Two lists in order with the same members end in the same item. */
  lemma SameLast(resumed: bool, t: Trace, u: Trace)
    requires Ordered(resumed, t) && Ordered(resumed, u) && SameMembers(t, u) && t != []
    ensures u != [] && t[|t| - 1] == u[|u| - 1]
  {
    hide Place;
    var x := t[|t| - 1];
    assert x in u;
    assert u[|u| - 1] in t;
  }

  lemma SameFront(resumed: bool, t: Trace, u: Trace)
    requires Ordered(resumed, t) && Ordered(resumed, u) && SameMembers(t, u) && t != [] && u != []
    requires t[|t| - 1] == u[|u| - 1]
    ensures SameMembers(t[..|t| - 1], u[..|u| - 1])
  {
    hide Place;
    var t', u', x := t[..|t| - 1], u[..|u| - 1], t[|t| - 1];
    assert t == t' + [x] && u == u' + [x];
    assert x !in t' && x !in u';
    forall y: Item ensures y in t' <==> y in u' {
      assert (y in t <==> y in t' || y == x) && (y in u <==> y in u' || y == x);
    }
  }

  /** A list in order is determined by its members. */
  lemma {:induction false} OrderIsUnique(resumed: bool, t: Trace, u: Trace)
    requires Ordered(resumed, t) && Ordered(resumed, u) && SameMembers(t, u)
    ensures t == u
    decreases |t|
  {
    hide Place, SameMembers;
    if t == [] {
      NoMembers(u);
    } else {
      SameLast(resumed, t, u);
      SameFront(resumed, t, u);
      var t', u' := t[..|t| - 1], u[..|u| - 1];
      OrderIsUnique(resumed, t', u');
      assert t == t' + [t[|t| - 1]] && u == u' + [t[|t| - 1]];
    }
  }

  lemma NoMembers(u: Trace)
    requires SameMembers([], u)
    ensures u == []
  {
    FirstIsMember(u);
  }

  lemma FirstIsMember(u: Trace)
    ensures u == [] || u[0] in u
  {
  }

  predicate IsKey(x: Item) {
    x.message.ChangeCipherSpec? || x.message.CipherChange? || x.message.Finished?
  }

  /** The change-of-keys messages, the changes themselves and the Finished messages, in order. */
  function Keys(t: Trace): Trace {
    if t == [] then [] else Keys(t[..|t| - 1]) + if IsKey(t[|t| - 1]) then [t[|t| - 1]] else []
  }

  /** What one party sent, in order. */
  function From(t: Trace, p: Party): Trace {
    if t == [] then [] else From(t[..|t| - 1], p) + if t[|t| - 1].from == p then [t[|t| - 1]] else []
  }

  function KeyFlight(p: Party): Trace {
    [Item(p, ChangeCipherSpec), Item(p, CipherChange), Item(p, Finished)]
  }

  lemma {:induction false} KeysAreOrdered(resumed: bool, t: Trace)
    requires Ordered(resumed, t)
    ensures Ordered(resumed, Keys(t))
    ensures forall x: Item :: x in Keys(t) <==> x in t && IsKey(x)
    decreases |t|
  {
    hide Place;
    if t != [] {
      var x := t[|t| - 1];
      var front := t[..|t| - 1];
      assert t == front + [x];
      KeysAreOrdered(resumed, front);
      assert forall y: Item :: y in Keys(front) ==> y in front && Place(resumed, y) < Place(resumed, x);
    }
  }

  /**
     In a complete handshake each party changes its keys once and finishes once, in that
     order, with its Finished under the new keys; the server goes first exactly when a
     session is resumed.
   */
  lemma KeyOrder(resumed: bool, t: Trace)
    requires Complete(resumed, t)
    ensures Keys(t) == if resumed then KeyFlight(Server) + KeyFlight(Client) else KeyFlight(Client) + KeyFlight(Server)
  {
    var keys := if resumed then KeyFlight(Server) + KeyFlight(Client) else KeyFlight(Client) + KeyFlight(Server);
    KeysAreOrdered(resumed, t);
    KeyPlaces(resumed);
    forall x: Item ensures x in Keys(t) <==> x in keys {
      EveryKey(resumed, t, x);
    }
    OrderIsUnique(resumed, Keys(t), keys);
  }

  lemma KeyPlaces(resumed: bool)
    ensures Ordered(resumed,
      if resumed then KeyFlight(Server) + KeyFlight(Client) else KeyFlight(Client) + KeyFlight(Server))
  {
  }

  lemma EveryKey(resumed: bool, t: Trace, x: Item)
    requires Complete(resumed, t)
    ensures x in t && IsKey(x) <==> x in KeyFlight(Server) + KeyFlight(Client)
  {
    assert x == Item(x.from, x.message);
    if IsKey(x) {
      assert Place(resumed, x) < End(resumed) && Required(resumed, Place(resumed, x));
    }
  }

  lemma {:induction false} FromKeepsMembers(t: Trace, x: Item)
    ensures x in t <==> x in From(t, x.from)
    decreases |t|
  {
    if t != [] {
      FromKeepsMembers(t[..|t| - 1], x);
      assert t == t[..|t| - 1] + [t[|t| - 1]];
    }
  }

  /**
     If each party accepted exactly what the other sent, the two ran the same handshake:
     the same decision to resume and the same interleaving of both directions.
   */
  lemma PartiesAgree(r: bool, t: Trace, q: bool, u: Trace)
    requires Complete(r, t) && Complete(q, u)
    requires From(t, Client) == From(u, Client) && From(t, Server) == From(u, Server)
    ensures r == q && t == u
  {
    forall x: Item ensures x in t <==> x in u {
      FromKeepsMembers(t, x);
      FromKeepsMembers(u, x);
      assert x.from == Client || x.from == Server;
    }
    KeyExchangeTells(r, t);
    KeyExchangeTells(q, u);
    OrderIsUnique(r, t, u);
  }

  lemma KeyExchangeTells(resumed: bool, t: Trace)
    requires Complete(resumed, t)
    ensures Item(Client, ClientKeyExchange) in t <==> !resumed
  {
    var x := Item(Client, ClientKeyExchange);
    assert Place(resumed, x) == if resumed then NOWHERE else 11;
  }
}
