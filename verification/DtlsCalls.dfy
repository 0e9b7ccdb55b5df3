/**
 Every run of the DTLS receiver alone: any order of calls, over records of any content,
 authentic or forged.
 */
module DtlsCalls {
  import opened Octets
  import opened Fragments
  import opened Reassembly
  import opened DtlsReceiver

  /** What a caller may ask of the receiver; the plaintext of a record is arbitrary. */
  datatype Call =
    | Open(contentType: byte, payload: seq<byte>)
    | OpenCcs(contentType: byte, payload: seq<byte>)
    | Get
    | Next
    | SetRead

  /** dtls1_next_message asserts that a message has been handed out. */
  predicate MayCall(r: Receiver, c: Call) {
    c.Next? ==> r.hasMessage
  }

  function CallStep(r: Receiver, c: Call): (r': Receiver)
    requires |r.slots| == MAX_FLIGHT
    ensures |r'.slots| == MAX_FLIGHT
  {
    match c
    case Open(contentType, payload) => OpenHandshake(r, contentType, payload).0
    case OpenCcs(contentType, payload) => OpenChangeCipherSpec(r, contentType, payload).0
    case Get => GetMessage(r).0
    case Next => NextMessage(r)
    case SetRead => SetReadState(r).0
  }

  /** The receiver after the calls, unless one of them was not allowed. */
  function Calls(r: Receiver, calls: seq<Call>): (r': Option<Receiver>)
    requires |r.slots| == MAX_FLIGHT
    ensures r'.Some? ==> |r'.value.slots| == MAX_FLIGHT
    decreases |calls|
  {
    if calls == [] then Some(r)
    else if MayCall(r, calls[0]) then Calls(CallStep(r, calls[0]), calls[1..])
    else None
  }

  lemma CallKeepsRing(r: Receiver, c: Call)
    requires RingOk(r) && MayCall(r, c)
    ensures RingOk(CallStep(r, c))
    ensures CallStep(r, c).readSeq == if c.Next? then r.readSeq + 1 else r.readSeq
  {
    match c
    case Open(contentType, payload) => OpenHandshakeKeepsRing(r, contentType, payload);
    case OpenCcs(contentType, payload) =>
      OpenHandshakeKeepsRing(r, contentType, payload);
      ChangeOfKeysKeepsRing(r);
      ChangeOfKeysKeepsRing(OpenHandshake(r, contentType, payload).0);
    case Get => GetMessageKeepsRing(r);
    case Next => NextMessageKeepsRing(r);
    case SetRead => ChangeOfKeysKeepsRing(r);
  }

  function NextCalls(calls: seq<Call>): nat {
    if calls == [] then 0 else (if calls[0].Next? then 1 else 0) + NextCalls(calls[1..])
  }

  /**
   For every sequence of calls, over records of any content, forged ones included: the ring
   invariant holds, a message that has been handed out stays complete and in its slot until
   it is given up, and the counter has moved once for each message given up.
   */
  lemma {:induction false} CallsKeepRing(r: Receiver, calls: seq<Call>)
    requires RingOk(r)
    ensures var r' := Calls(r, calls);
      r'.Some? ==>
        && RingOk(r'.value) && r'.value.readSeq == r.readSeq + NextCalls(calls)
        && (r'.value.hasMessage ==> CurrentComplete(r'.value))
    decreases |calls|
  {
    hide RingOk, CallStep;
    HandedOutIsComplete(r);
    if calls != [] && MayCall(r, calls[0]) {
      CallKeepsRing(r, calls[0]);
      CallsKeepRing(CallStep(r, calls[0]), calls[1..]);
    }
  }

  lemma HandedOutIsComplete(r: Receiver)
    requires RingOk(r)
    ensures |r.slots| == MAX_FLIGHT && (r.hasMessage ==> CurrentComplete(r))
  {
  }

  /** A complete message of the ring survives every call but the one that gives it up. */
  lemma CompleteSurvives(r: Receiver, c: Call, i: nat)
    requires RingOk(r) && MayCall(r, c) && i < MAX_FLIGHT && r.slots[i].Some? && r.slots[i].value.Complete()
    ensures CallStep(r, c).slots[i] == r.slots[i] || (c.Next? && i == r.readSeq % MAX_FLIGHT)
  {
    match c
    case Open(contentType, payload) => OpenKeepsComplete(r, contentType, payload, i);
    case OpenCcs(contentType, payload) => OpenKeepsComplete(r, contentType, payload, i);
    case Get =>
    case Next =>
    case SetRead =>
  }

  lemma OpenKeepsComplete(r: Receiver, contentType: byte, payload: seq<byte>, i: nat)
    requires |r.slots| == MAX_FLIGHT && i < MAX_FLIGHT && r.slots[i].Some? && r.slots[i].value.Complete()
    ensures OpenHandshake(r, contentType, payload).0.slots[i] == r.slots[i]
  {
    if contentType == RT_HANDSHAKE {
      FragmentsKeepComplete(r, payload, i);
    }
  }

  lemma {:induction false} FragmentsKeepComplete(r: Receiver, s: seq<byte>, i: nat)
    requires |r.slots| == MAX_FLIGHT && i < MAX_FLIGHT && r.slots[i].Some? && r.slots[i].value.Complete()
    ensures OpenFragments(r, s).0.slots[i] == r.slots[i]
    decreases |s|
  {
    if s != [] && Parse(s).Some? {
      var p := Parse(s).value;
      var (r', outcome) := OpenFragment(r, p.header, p.body);
      assert r'.slots[i] == r.slots[i];
      if outcome == Success {
        FragmentsKeepComplete(r', p.rest, i);
      }
    }
  }

  // ----- records that are not handshake messages

  lemma {:induction false} FragmentsKeepRest(r: Receiver, s: seq<byte>)
    requires |r.slots| == MAX_FLIGHT
    ensures var r' := OpenFragments(r, s).0; r' == r.(slots := r'.slots)
    ensures OpenFragments(r, s).1 != Discard
    decreases |s|
  {
    hide OpenFragment, Parse;
    if s != [] && Parse(s).Some? {
      var p := Parse(s).value;
      FragmentKeepsRest(r, p.header, p.body);
      var (r', outcome) := OpenFragment(r, p.header, p.body);
      if outcome == Success {
        FragmentsKeepRest(r', p.rest);
      }
    }
  }

  lemma FragmentKeepsRest(r: Receiver, h: Header, body: seq<byte>)
    requires |r.slots| == MAX_FLIGHT && |body| == h.fragLen
    ensures var (r', outcome) := OpenFragment(r, h, body); r' == r.(slots := r'.slots) && outcome != Discard
  {
  }

  /** Until the first change of keys nothing is encrypted, and from then on everything is. */
  predicate ClearInFirstEpoch(r: Receiver) {
    r.nullCipher <==> r.epoch == 0
  }

  lemma CallKeepsClear(r: Receiver, c: Call)
    requires |r.slots| == MAX_FLIGHT && ClearInFirstEpoch(r)
    ensures ClearInFirstEpoch(CallStep(r, c))
  {
    hide OpenFragments;
    match c
    case Open(_, payload) => FragmentsKeepRest(r, payload);
    case OpenCcs(_, payload) => FragmentsKeepRest(r, payload);
    case _ =>
  }

  lemma {:induction false} CallsKeepClear(r: Receiver, calls: seq<Call>)
    requires |r.slots| == MAX_FLIGHT && ClearInFirstEpoch(r)
    ensures var r' := Calls(r, calls); r'.Some? ==> ClearInFirstEpoch(r'.value)
    decreases |calls|
  {
    hide CallStep, ClearInFirstEpoch;
    if calls != [] && MayCall(r, calls[0]) {
      CallKeepsClear(r, calls[0]);
      CallsKeepClear(CallStep(r, calls[0]), calls[1..]);
    }
  }

  /** A ChangeCipherSpec that counts. */
  predicate IsChange(contentType: byte, payload: seq<byte>) {
    contentType == RT_CHANGE_CIPHER_SPEC && payload == [MT_CCS]
  }

  /**
     After any calls on a new receiver: application data changes nothing, and is fatal before
     the first change of keys and ignored after it; a ChangeCipherSpec is taken before the first
     change of keys alone; and of the other records only handshake messages are taken.
   */
  lemma OtherRecords(maxLen: nat, calls: seq<Call>, contentType: byte, payload: seq<byte>)
    requires contentType != RT_HANDSHAKE && Calls(Fresh(maxLen), calls).Some?
    ensures var r := Calls(Fresh(maxLen), calls).value;
      OpenHandshake(r, contentType, payload) ==
      if contentType == RT_APPLICATION_DATA && r.epoch > 0 then (r, Discard)
      else if IsChange(contentType, payload) && r.epoch == 0 then (r.(hasCcs := true), Success)
      else (r, Fatal(if contentType == RT_CHANGE_CIPHER_SPEC && r.epoch == 0 then IllegalParameter
                     else UnexpectedMessage))
  {
    hide Calls;
    CallsKeepClear(Fresh(maxLen), calls);
  }

  /**
     dtls1_open_change_cipher_spec succeeds exactly when a ChangeCipherSpec was held or this
     record brings it, and uses it up: a held one without a look at the record. Any other record
     is buffered or refused as ever, and the call is to be made again.
   */
  lemma ChangeCipherSpecAnswered(r: Receiver, contentType: byte, payload: seq<byte>)
    requires |r.slots| == MAX_FLIGHT
    ensures var (after, outcome) := OpenChangeCipherSpec(r, contentType, payload);
      var (heard, answer) := OpenHandshake(r, contentType, payload);
      && (outcome == Success <==> r.hasCcs || (r.nullCipher && IsChange(contentType, payload)))
      && (outcome == Success ==> after == r.(hasCcs := false))
      && (outcome != Success ==>
            after == heard && !after.hasCcs && outcome == if answer == Success then Discard else answer)
  {
    FragmentsKeepRest(r, payload);
    hide OpenFragments;
  }

  // ----- what a fragment does

  /** The fragment belongs to a message of the window. */
  predicate InWindow(r: Receiver, h: Header) {
    r.readSeq <= h.seqNo < r.readSeq + MAX_FLIGHT
  }

  /** Another message than the fragment's is held under its number. */
  predicate Disagrees(r: Receiver, h: Header)
    requires |r.slots| == MAX_FLIGHT
  {
    var held := r.slots[h.seqNo % MAX_FLIGHT];
    InWindow(r, h) && held.Some? && (held.value.msgType != h.msgType || |held.value.body| != h.msgLen)
  }

  /** Why a fragment ends the connection, if it does. */
  function Refusal(r: Receiver, h: Header): Option<Alert>
    requires |r.slots| == MAX_FLIGHT
  {
    if h.fragOff + h.fragLen > h.msgLen || h.msgLen > r.maxLen then Some(IllegalParameter)
    else if r.epoch == 1 && h.seqNo != r.readSeq then Some(UnexpectedMessage)
    else if h.seqNo == r.readSeq + MAX_FLIGHT then Some(InternalError)
    else if Disagrees(r, h) then Some(IllegalParameter)
    else None
  }

  /**
     m is held before the fragment and m' after it: the fragment's bytes and no others are added,
     over those that were there, unless the message was complete already.
   */
  ghost predicate Added(m: Option<Incoming>, h: Header, body: seq<byte>, m': Incoming)
    requires |body| == h.fragLen
  {
    if m.Some? && m.value.Complete() then m' == m.value
    else
      && m'.msgType == h.msgType && m'.seqNo == h.seqNo && |m'.body| == |m'.flags| == h.msgLen
      && forall k | 0 <= k < h.msgLen ::
           var had := m.Some? && k < |m.value.flags| && m.value.flags[k];
           var here := h.fragOff <= k < h.fragOff + h.fragLen;
           && (m'.flags[k] <==> had || here)
           && (here ==> m'.body[k] == body[k - h.fragOff])
           && (had && !here ==> k < |m.value.body| && m'.body[k] == m.value.body[k])
  }

  /**
     A fragment is refused for one of four reasons and for no other; one of a message that is
     over, or beyond the window, is passed over; and any other adds its bytes to its message.
   */
  lemma FragmentIsAdded(r: Receiver, h: Header, body: seq<byte>)
    requires RingOk(r) && |body| == h.fragLen
    ensures var (r', outcome) := OpenFragment(r, h, body);
      match Refusal(r, h)
      case Some(alert) => r' == r && outcome == Fatal(alert)
      case None =>
        && outcome == Success
        && (!InWindow(r, h) ==> r' == r)
        && (InWindow(r, h) ==>
              var i := h.seqNo % MAX_FLIGHT;
              && r'.slots[i].Some? && Added(r.slots[i], h, body, r'.slots[i].value)
              && r' == r.(slots := r.slots[i := r'.slots[i]]))
  {
    assert |r.slots| == MAX_FLIGHT;
    if Refusal(r, h).None? && InWindow(r, h) {
      assert SlotOk(r, h.seqNo % MAX_FLIGHT);
      LookupFindsSequence(r, h);
      hide RingOk, SlotOk;
      FragmentAbsorbed(r, h, body);
      AbsorbAdds(Lookup(r, h).value, r.slots[h.seqNo % MAX_FLIGHT], h, body);
    }
  }

  lemma FragmentAbsorbed(r: Receiver, h: Header, body: seq<byte>)
    requires |r.slots| == MAX_FLIGHT && |body| == h.fragLen && Refusal(r, h).None? && InWindow(r, h)
    ensures var i := h.seqNo % MAX_FLIGHT;
      var m := Lookup(r, h);
      && m.Some? && h.fragOff + h.fragLen <= |m.value.body|
      && OpenFragment(r, h, body) == (r.(slots := r.slots[i := Some(Absorb(m.value, h, body))]), Success)
      && m.value.msgType == h.msgType && |m.value.body| == h.msgLen
      && (if r.slots[i].Some? then m == r.slots[i] else m == Some(NewIncoming(h)))
  {
    hide Absorb;
  }

  lemma AbsorbAdds(m: Incoming, held: Option<Incoming>, h: Header, body: seq<byte>)
    requires |body| == h.fragLen && h.fragOff + h.fragLen <= |m.body| == h.msgLen && |m.flags| == |m.body|
    requires m.msgType == h.msgType && m.seqNo == h.seqNo
    requires if held.Some? then held == Some(m) else m == NewIncoming(h)
    ensures Added(held, h, body, Absorb(m, h, body))
  {
    if h.msgLen > 0 {
      NewIsIncomplete(h);
    }
    if !m.Complete() {
      PatchedAt(m.body, h.fragOff, body);
      hide Patched, Incoming.Complete;
      var m' := Absorb(m, h, body);
      forall k | 0 <= k < h.msgLen
        ensures m'.flags[k] == (m.flags[k] || h.fragOff <= k < h.fragOff + h.fragLen)
        ensures held.None? ==> !m.flags[k]
      {
      }
    }
  }

  lemma NewIsIncomplete(h: Header)
    requires h.msgLen > 0
    ensures !NewIncoming(h).Complete()
  {
    assert NewIncoming(h).flags[0] != AllReceived(h.msgLen)[0];
  }

  lemma PatchedAt(s: seq<byte>, at: nat, data: seq<byte>)
    requires at + |data| <= |s|
    ensures forall k | 0 <= k < |s| ::
      Patched(s, at, data)[k] == if at <= k < at + |data| then data[k - at] else s[k]
  {
  }

  // ----- what a record does

  /** The octets are fragments, one behind the other. */
  ghost predicate Whole(s: seq<byte>)
    decreases |s|
  {
    s == [] || (Parse(s).Some? && Whole(Parse(s).value.rest))
  }

  /** A record is not taken unless it is made of whole fragments; a piece of one at its end is fatal. */
  lemma {:induction false} AcceptedIsWhole(r: Receiver, s: seq<byte>)
    requires |r.slots| == MAX_FLIGHT
    ensures OpenFragments(r, s).1 == Success ==> Whole(s)
    ensures OpenFragments(r, s).1 == Success || OpenFragments(r, s).1.Fatal?
    ensures s != [] && Parse(s).None? ==> OpenFragments(r, s) == (r, Fatal(DecodeError))
    decreases |s|
  {
    hide OpenFragment, Parse;
    if s != [] && Parse(s).Some? {
      var p := Parse(s).value;
      FragmentKeepsRest(r, p.header, p.body);
      if OpenFragment(r, p.header, p.body).1 == Success {
        AcceptedIsWhole(OpenFragment(r, p.header, p.body).0, p.rest);
      }
    }
  }
}
