/**
 The receiving half of the DTLS handshake transport (ssl/d1_both.cc): handshake records
 are cut into fragments, fragments are reassembled in a ring of seven messages, and
 messages are handed out in sequence order.

 The functions describe the transport on values; class HandshakeReader.Reader is the
 transport itself and is proved to follow them.
 */
module DtlsReceiver {
  import opened Octets
  import opened Fragments
  import opened Reassembly

  const MAX_FLIGHT: nat := 7

  const RT_CHANGE_CIPHER_SPEC: byte := 20
  const RT_HANDSHAKE: byte := 22
  const RT_APPLICATION_DATA: byte := 23
  const MT_CCS: byte := 1

  datatype Alert = IllegalParameter | UnexpectedMessage | InternalError | DecodeError | RecordOverflow

  datatype Outcome = Success | Discard | Fatal(alert: Alert)

  /** A message in the ring: its body as far as received, and which bytes those are. */
  datatype Incoming = Incoming(msgType: byte, seqNo: nat, body: seq<byte>, flags: seq<bool>)
  {
    predicate Complete() {
      flags == AllReceived(|body|)
    }
  }

  datatype Message = Message(msgType: byte, body: seq<byte>)

  datatype Receiver = Receiver(
    readSeq: nat,
    slots: seq<Option<Incoming>>,
    hasMessage: bool,
    hasCcs: bool,
    epoch: nat,
    nullCipher: bool,
    maxLen: nat)

  function Fresh(maxLen: nat): Receiver {
    Receiver(0, [None, None, None, None, None, None, None], false, false, 0, true, maxLen)
  }

  // ----- one fragment

  function NewIncoming(h: Header): Incoming {
    Incoming(h.msgType, h.seqNo, seq(h.msgLen, _ => 0), seq(h.msgLen, _ => false))
  }

  /** The message a fragment belongs to: the one in its slot, or a new one. */
  function Lookup(r: Receiver, h: Header): Option<Incoming>
    requires |r.slots| == MAX_FLIGHT
  {
    if h.seqNo < r.readSeq || h.seqNo - r.readSeq >= MAX_FLIGHT then None
    else
      match r.slots[h.seqNo % MAX_FLIGHT]
      case Some(m) => if m.msgType != h.msgType || |m.body| != h.msgLen then None else Some(m)
      case None => Some(NewIncoming(h))
  }

  function LookupAlert(r: Receiver, h: Header): Alert {
    if h.seqNo < r.readSeq || h.seqNo - r.readSeq >= MAX_FLIGHT then InternalError else IllegalParameter
  }

  function Absorb(m: Incoming, h: Header, body: seq<byte>): (r: Incoming)
    requires h.fragOff + h.fragLen <= |m.body| && |body| == h.fragLen
    ensures |r.body| == |m.body| && |r.flags| == |m.flags|
  {
    if m.Complete() then m
    else m.(body := Patched(m.body, h.fragOff, body),
            flags := Marked(m.flags, h.fragOff, h.fragOff + h.fragLen))
  }

  predicate BadBounds(r: Receiver, h: Header) {
    h.fragOff > h.msgLen || h.fragOff + h.fragLen > h.msgLen || h.msgLen > r.maxLen
  }

  function OpenFragment(r: Receiver, h: Header, body: seq<byte>): (res: (Receiver, Outcome))
    requires |r.slots| == MAX_FLIGHT && |body| == h.fragLen
    ensures |res.0.slots| == MAX_FLIGHT
  {
    if BadBounds(r, h) then (r, Fatal(IllegalParameter))
    else if r.epoch == 1 && h.seqNo != r.readSeq then (r, Fatal(UnexpectedMessage))
    else if h.seqNo < r.readSeq || h.seqNo > r.readSeq + MAX_FLIGHT then (r, Success)
    else
      match Lookup(r, h)
      case None => (r, Fatal(LookupAlert(r, h)))
      case Some(m) => (r.(slots := r.slots[h.seqNo % MAX_FLIGHT := Some(Absorb(m, h, body))]), Success)
  }

  // ----- one record

  function OpenFragments(r: Receiver, s: seq<byte>): (res: (Receiver, Outcome))
    requires |r.slots| == MAX_FLIGHT
    ensures |res.0.slots| == MAX_FLIGHT
    decreases |s|
  {
    if s == [] then (r, Success)
    else
      match Parse(s)
      case None => (r, Fatal(DecodeError))
      case Some(p) =>
        var (r', outcome) := OpenFragment(r, p.header, p.body);
        if outcome != Success then (r', outcome) else OpenFragments(r', p.rest)
  }

  /** The plaintext of one record, as dtls_open_record delivers it. */
  function OpenHandshake(r: Receiver, contentType: byte, payload: seq<byte>): (res: (Receiver, Outcome))
    requires |r.slots| == MAX_FLIGHT
    ensures |res.0.slots| == MAX_FLIGHT
  {
    if contentType == RT_APPLICATION_DATA then
      (r, if r.nullCipher then Fatal(UnexpectedMessage) else Discard)
    else if contentType == RT_CHANGE_CIPHER_SPEC then
      if !r.nullCipher then (r, Fatal(UnexpectedMessage))
      else if payload != [MT_CCS] then (r, Fatal(IllegalParameter))
      else (r.(hasCcs := true), Success)
    else if contentType == RT_HANDSHAKE then OpenFragments(r, payload)
    else (r, Fatal(UnexpectedMessage))
  }

  // ----- delivery

  function Current(r: Receiver): Option<Incoming>
    requires |r.slots| == MAX_FLIGHT
  {
    r.slots[r.readSeq % MAX_FLIGHT]
  }

  predicate CurrentComplete(r: Receiver)
    requires |r.slots| == MAX_FLIGHT
  {
    Current(r).Some? && Current(r).value.Complete()
  }

  function GetMessage(r: Receiver): (res: (Receiver, Option<Message>))
    requires |r.slots| == MAX_FLIGHT
  {
    if !CurrentComplete(r) then (r, None)
    else (r.(hasMessage := true), Some(Message(Current(r).value.msgType, Current(r).value.body)))
  }

  function NextMessage(r: Receiver): (r': Receiver)
    requires |r.slots| == MAX_FLIGHT
    ensures |r'.slots| == MAX_FLIGHT
  {
    r.(slots := r.slots[r.readSeq % MAX_FLIGHT := None], readSeq := r.readSeq + 1, hasMessage := false)
  }

  function HasUnprocessed(r: Receiver): bool
    requires |r.slots| == MAX_FLIGHT
  {
    r.hasCcs ||
    exists i | 0 <= i < MAX_FLIGHT ::
      r.slots[i].Some? && !(r.hasMessage && i == r.readSeq % MAX_FLIGHT)
  }

  // ----- a change of keys

  /** What dtls1_open_change_cipher_spec does once the flag is set. */
  function TakeChangeCipherSpec(r: Receiver): Receiver {
    r.(hasCcs := false)
  }

  /** A ChangeCipherSpec seen earlier is taken; otherwise this record may bring it. */
  function OpenChangeCipherSpec(r: Receiver, contentType: byte, payload: seq<byte>): (res: (Receiver, Outcome))
    requires |r.slots| == MAX_FLIGHT
  {
    if r.hasCcs then (TakeChangeCipherSpec(r), Success)
    else
      var (r', outcome) := OpenHandshake(r, contentType, payload);
      if outcome != Success then (r', outcome)
      else if r'.hasCcs then (TakeChangeCipherSpec(r'), Success)
      else (r', Discard)
  }

  /** dtls1_set_read_state, which leftover data of the old epoch forbids. */
  function SetReadState(r: Receiver): (res: (Receiver, bool))
    requires |r.slots| == MAX_FLIGHT
    ensures |res.0.slots| == MAX_FLIGHT
  {
    if HasUnprocessed(r) then (r, false) else (r.(epoch := r.epoch + 1, nullCipher := false), true)
  }

  // ----- the ring invariant

  ghost predicate SlotOk(r: Receiver, i: nat)
    requires |r.slots| == MAX_FLIGHT && i < MAX_FLIGHT
  {
    r.slots[i].Some? ==>
      var m := r.slots[i].value;
      && m.seqNo % MAX_FLIGHT == i
      && r.readSeq <= m.seqNo < r.readSeq + MAX_FLIGHT
      && |m.flags| == |m.body|
  }

  /** Slot i is empty or holds the one message of the window that belongs there. */
  ghost predicate RingOk(r: Receiver) {
    && |r.slots| == MAX_FLIGHT
    && (forall i: nat | i < MAX_FLIGHT :: SlotOk(r, i))
    && (r.hasMessage ==> CurrentComplete(r))
  }

  lemma FreshRing(maxLen: nat)
    ensures RingOk(Fresh(maxLen))
  {
  }

  /** Two numbers of one window that share a slot are equal. */
  lemma SameSlot(base: nat, a: nat, b: nat)
    requires base <= a < base + MAX_FLIGHT && base <= b < base + MAX_FLIGHT
    requires a % MAX_FLIGHT == b % MAX_FLIGHT
    ensures a == b
  {
  }

  /** The assertion frag->seq == msg_hdr->seq: a found message has the fragment's number. */
  lemma LookupFindsSequence(r: Receiver, h: Header)
    requires RingOk(r) && Lookup(r, h).Some?
    ensures Lookup(r, h).value.seqNo == h.seqNo
  {
    var i := h.seqNo % MAX_FLIGHT;
    assert SlotOk(r, i);
    if r.slots[i].Some? {
      SameSlot(r.readSeq, h.seqNo, r.slots[i].value.seqNo);
    }
  }

  lemma OpenFragmentKeepsRing(r: Receiver, h: Header, body: seq<byte>)
    requires RingOk(r) && |body| == h.fragLen
    ensures RingOk(OpenFragment(r, h, body).0)
    ensures OpenFragment(r, h, body).0.readSeq == r.readSeq
  {
    var r' := OpenFragment(r, h, body).0;
    if r' != r {
      LookupFindsSequence(r, h);
      var slot := h.seqNo % MAX_FLIGHT;
      assert SlotOk(r, slot);
      forall i: nat | i < MAX_FLIGHT
        ensures SlotOk(r', i)
      {
        assert SlotOk(r, i);
      }
    }
  }

  lemma {:induction false} OpenFragmentsKeepsRing(r: Receiver, s: seq<byte>)
    requires RingOk(r)
    ensures RingOk(OpenFragments(r, s).0)
    ensures OpenFragments(r, s).0.readSeq == r.readSeq
    decreases |s|
  {
    if s != [] && Parse(s).Some? {
      var p := Parse(s).value;
      OpenFragmentKeepsRing(r, p.header, p.body);
      var (r', outcome) := OpenFragment(r, p.header, p.body);
      if outcome == Success {
        OpenFragmentsKeepsRing(r', p.rest);
      }
    }
  }

  lemma OpenHandshakeKeepsRing(r: Receiver, contentType: byte, payload: seq<byte>)
    requires RingOk(r)
    ensures RingOk(OpenHandshake(r, contentType, payload).0)
    ensures OpenHandshake(r, contentType, payload).0.readSeq == r.readSeq
  {
    if contentType == RT_HANDSHAKE {
      OpenFragmentsKeepsRing(r, payload);
    } else if contentType == RT_CHANGE_CIPHER_SPEC {
      forall i: nat | i < MAX_FLIGHT
        ensures SlotOk(OpenHandshake(r, contentType, payload).0, i)
      {
        assert SlotOk(r, i);
      }
    }
  }

  lemma GetMessageKeepsRing(r: Receiver)
    requires RingOk(r)
    ensures RingOk(GetMessage(r).0) && GetMessage(r).0.slots == r.slots
  {
    forall i: nat | i < MAX_FLIGHT
      ensures SlotOk(GetMessage(r).0, i)
    {
      assert SlotOk(r, i);
    }
  }

  /**
   Taking a message frees exactly the delivered one: the window moves by one, and every
   other message of the ring is still there.
   */
  lemma NextMessageKeepsRing(r: Receiver)
    requires RingOk(r)
    requires CurrentComplete(r)
    ensures RingOk(NextMessage(r))
    ensures Current(r).value.seqNo == r.readSeq
    ensures forall i | 0 <= i < MAX_FLIGHT && r.slots[i].Some? ::
      r.slots[i].value.seqNo != r.readSeq <==> NextMessage(r).slots[i] == r.slots[i]
  {
    var r' := NextMessage(r);
    var current := r.readSeq % MAX_FLIGHT;
    assert SlotOk(r, current);
    SameSlot(r.readSeq, r.readSeq, r.slots[current].value.seqNo);
    forall i: nat | i < MAX_FLIGHT
      ensures SlotOk(r', i)
    {
      assert SlotOk(r, i);
    }
    forall i: nat | i < MAX_FLIGHT && r.slots[i].Some?
      ensures r.slots[i].value.seqNo != r.readSeq <==> r'.slots[i] == r.slots[i]
    {
      assert SlotOk(r, i);
    }
  }

  /** Neither step of a change of keys touches the ring. */
  lemma ChangeOfKeysKeepsRing(r: Receiver)
    requires RingOk(r)
    ensures RingOk(TakeChangeCipherSpec(r)) && RingOk(SetReadState(r).0)
    ensures SetReadState(r).1 ==> forall i | 0 <= i < MAX_FLIGHT && r.slots[i].Some? :: i == r.readSeq % MAX_FLIGHT
  {
    forall i: nat | i < MAX_FLIGHT
      ensures SlotOk(TakeChangeCipherSpec(r), i) && SlotOk(SetReadState(r).0, i)
    {
      assert SlotOk(r, i);
    }
  }

  /**
   The two bounds checks do not agree: the outer one lets sequence number readSeq + 7
   through and the inner one then refuses it, so that an in-bounds first fragment is fatal
   exactly when it is one past the ring.
   */
  lemma OnePastTheRingIsFatal(r: Receiver, h: Header, body: seq<byte>)
    requires |r.slots| == MAX_FLIGHT && |body| == h.fragLen
    requires r.epoch != 1 && !BadBounds(r, h)
    ensures OpenFragment(r, h, body).1 == Fatal(InternalError) <==> h.seqNo == r.readSeq + MAX_FLIGHT
    ensures OpenFragment(r, h, body).1 == Fatal(InternalError) ==> OpenFragment(r, h, body).0 == r
  {
  }
}
