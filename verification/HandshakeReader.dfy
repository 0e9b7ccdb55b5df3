/**
 The receiving transport as an object: a ring of reassembly buffers updated in place.
 Every method is proved to have exactly the effect the functions of DtlsReceiver give.
 */
module HandshakeReader {
  import opened Octets
  import opened Fragments
  import opened Reassembly
  import opened DtlsReceiver

  /** The objects a slot owns. */
  function Owned(f: HmFragment?): set<object>
    reads f
  {
    if f == null then {}
    else if f.reassembly == null then {f, f.data}
    else {f, f.data, f.reassembly}
  }

  /** Slot contents `f` stand for the value `v`. */
  ghost predicate Holds(f: HmFragment?, v: Option<Incoming>)
    reads f, Owned(f)
  {
    if f == null then v.None?
    else
      && f.Valid()
      && v == Some(Incoming(f.msgType, f.seqNo, f.Body(), f.Received()))
      && (f.reassembly == null <==> v.value.Complete())
  }

  lemma PatchedBody(data: seq<byte>, off: nat, piece: seq<byte>)
    requires HEADER_LENGTH + off + |piece| <= |data|
    ensures Patched(data, HEADER_LENGTH + off, piece)[HEADER_LENGTH..] ==
            Patched(data[HEADER_LENGTH..], off, piece)
  {
  }

  /** Copies a fragment body into an incomplete message and marks it received. */
  method Fill(frag: HmFragment, ghost m: Incoming, h: Header, body: seq<byte>)
    requires Holds(frag, Some(m)) && frag.reassembly != null
    requires h.fragOff + h.fragLen <= |m.body| && |body| == h.fragLen
    modifies Owned(frag)
    ensures Holds(frag, Some(Absorb(m, h, body)))
    ensures Owned(frag) <= old(Owned(frag))
  {
    hide Covers, InRange, Flags, Patched, Marked;
    ghost var before, mask := frag.data[..], frag.reassembly[..];
    Copy(frag.data, HEADER_LENGTH + h.fragOff, body);
    assert frag.reassembly[..] == mask;
    PatchedBody(before, h.fragOff, body);
    assert frag.Valid() && frag.Body() == Patched(m.body, h.fragOff, body) && frag.Received() == m.flags;
    ghost var filled := frag.Body();
    frag.Mark(h.fragOff, h.fragOff + h.fragLen);
    assert frag.Body() == filled;
  }

  lemma HoldsSlot(f: HmFragment?, m: Incoming)
    requires Holds(f, Some(m))
    ensures f != null && (f.reassembly == null <==> m.Complete())
  {
  }

  lemma CompleteStays(m: Incoming, h: Header, body: seq<byte>)
    requires m.Complete() && h.fragOff + h.fragLen <= |m.body| && |body| == h.fragLen
    ensures Absorb(m, h, body) == m
  {
  }

  class Reader {
    ghost var Repr: set<object>
    ghost var slots: seq<Option<Incoming>>
    const incoming: array<HmFragment?>
    var readSeq: nat
    var hasMessage: bool
    var hasCcs: bool
    var epoch: nat
    var nullCipher: bool
    const maxLen: nat

    ghost predicate SlotValid(i: nat)
      requires incoming.Length == MAX_FLIGHT == |slots| && i < MAX_FLIGHT
      reads this, incoming, Repr
    {
      && incoming[i] in Repr + {null}
      && Owned(incoming[i]) <= Repr
      && this !in Owned(incoming[i]) && incoming !in Owned(incoming[i])
      && Holds(incoming[i], slots[i])
    }

    ghost predicate Valid()
      reads this, Repr
      ensures Valid() ==> this in Repr && incoming in Repr
    {
      && this in Repr && incoming in Repr
      && incoming.Length == MAX_FLIGHT == |slots|
      && (forall i | 0 <= i < MAX_FLIGHT :: incoming[i] in Repr + {null})
      && (forall i | 0 <= i < MAX_FLIGHT :: SlotValid(i))
      && (forall i, j | 0 <= i < j < MAX_FLIGHT :: Owned(incoming[i]) !! Owned(incoming[j]))
    }

    ghost function Value(): (r: Receiver)
      reads this
    {
      Receiver(readSeq, slots, hasMessage, hasCcs, epoch, nullCipher, maxLen)
    }

    constructor (maxLen: nat)
      ensures Valid() && fresh(Repr)
      ensures Value() == Fresh(maxLen)
    {
      incoming := new HmFragment?[MAX_FLIGHT](_ => null);
      readSeq, hasMessage, hasCcs := 0, false, false;
      epoch, nullCipher := 0, true;
      this.maxLen := maxLen;
      slots := [None, None, None, None, None, None, None];
      Repr := {this, incoming};
    }

    /** The message `h` belongs to, created if this is its first fragment; null on failure. */
    method GetIncomingMessage(h: Header) returns (frag: HmFragment?, alert: Alert)
      requires Valid() && h.Fits()
      modifies Repr
      ensures Valid() && fresh(Repr - old(Repr))
      ensures frag == null <==> Lookup(old(Value()), h).None?
      ensures frag == null ==> alert == LookupAlert(old(Value()), h) && Value() == old(Value())
      ensures frag != null ==>
        && frag == incoming[h.seqNo % MAX_FLIGHT]
        && Value() == old(Value()).(slots := old(slots)[h.seqNo % MAX_FLIGHT := Lookup(old(Value()), h)])
    {
      alert := InternalError;
      if h.seqNo < readSeq || h.seqNo - readSeq >= MAX_FLIGHT {
        return null, InternalError;
      }
      var idx := h.seqNo % MAX_FLIGHT;
      frag := incoming[idx];
      assert SlotValid(idx);
      if frag != null {
        if frag.msgType != h.msgType || frag.msgLen != h.msgLen {
          return null, IllegalParameter;
        }
        return frag, alert;
      }
      frag := new HmFragment(h.msgType, h.seqNo, h.msgLen);
      NewFlags(h.msgLen);
      Install(idx, frag, Some(NewIncoming(h)));
    }

    lemma NewFlags(n: nat)
      ensures seq(n, _ => false) == AllReceived(n) <==> n == 0
    {
      if n > 0 {
        assert seq(n, _ => false)[0] != AllReceived(n)[0];
      }
    }

    /** Puts a new message into an empty slot. */
    method Install(idx: nat, frag: HmFragment, ghost value: Option<Incoming>)
      requires Valid() && idx < MAX_FLIGHT && incoming[idx] == null
      requires Owned(frag) !! Repr && Holds(frag, value)
      modifies this`Repr, this`slots, incoming
      ensures Valid() && Repr == old(Repr) + Owned(frag)
      ensures incoming[idx] == frag && slots == old(slots)[idx := value]
    {
      hide Holds;
      incoming[idx] := frag;
      slots := slots[idx := value];
      Repr := Repr + Owned(frag);
      forall i | 0 <= i < MAX_FLIGHT
        ensures SlotValid(i)
      {
        assert i != idx ==> old(SlotValid(i)) && incoming[i] == old(incoming[i]);
      }
      forall i, j | 0 <= i < j < MAX_FLIGHT
        ensures Owned(incoming[i]) !! Owned(incoming[j])
      {
        assert i != idx ==> old(SlotValid(i)) && Owned(incoming[i]) == old(Owned(incoming[i]));
        assert j != idx ==> old(SlotValid(j)) && Owned(incoming[j]) == old(Owned(incoming[j]));
      }
    }

    method OpenOneFragment(h: Header, body: seq<byte>) returns (outcome: Outcome)
      requires Valid() && h.Fits() && |body| == h.fragLen
      modifies Repr
      ensures Valid() && fresh(Repr - old(Repr))
      ensures (Value(), outcome) == OpenFragment(old(Value()), h, body)
    {
      if h.fragOff > h.msgLen || h.fragOff + h.fragLen > h.msgLen || h.msgLen > maxLen {
        return Fatal(IllegalParameter);
      }
      if epoch == 1 && h.seqNo != readSeq {
        return Fatal(UnexpectedMessage);
      }
      if h.seqNo < readSeq || h.seqNo > readSeq + MAX_FLIGHT {
        return Success;
      }
      var frag, alert := GetIncomingMessage(h);
      if frag == null {
        return Fatal(alert);
      }
      ghost var idx := h.seqNo % MAX_FLIGHT;
      ghost var found := slots[idx];
      AbsorbInto(h.seqNo % MAX_FLIGHT, h, body);
      assert slots == old(slots)[idx := found][idx := Some(Absorb(found.value, h, body))]
                   == old(slots)[idx := Some(Absorb(found.value, h, body))];
      return Success;
    }

    /** Copies a fragment into the message of slot `idx`, unless that is complete. */
    method AbsorbInto(idx: nat, h: Header, body: seq<byte>)
      requires Valid() && idx < MAX_FLIGHT && slots[idx].Some?
      requires h.fragOff + h.fragLen <= |slots[idx].value.body| && |body| == h.fragLen
      modifies Repr
      ensures Valid() && Repr == old(Repr)
      ensures Value() == old(Value()).(slots := old(slots)[idx := Some(Absorb(old(slots[idx]).value, h, body))])
    {
      hide Absorb, Holds;
      var frag := incoming[idx];
      assert SlotValid(idx);
      ghost var m := slots[idx].value;
      HoldsSlot(frag, m);
      if frag.reassembly == null {
        CompleteStays(m, h, body);
        assert slots[idx := Some(Absorb(m, h, body))] == slots;
        return;
      }
      Fill(frag, m, h, body);
      slots := slots[idx := Some(Absorb(m, h, body))];
      forall i | 0 <= i < MAX_FLIGHT
        ensures SlotValid(i)
      {
        assert old(SlotValid(i));
        if i != idx {
          assert Owned(incoming[i]) == old(Owned(incoming[i])) && Owned(incoming[i]) !! old(Owned(frag));
        }
      }
    }

    /** The fragment loop of dtls1_open_handshake. */
    method OpenAllFragments(record: seq<byte>) returns (outcome: Outcome)
      requires Valid()
      modifies Repr
      ensures Valid() && fresh(Repr - old(Repr))
      ensures (Value(), outcome) == OpenFragments(old(Value()), record)
    {
      var cbs := record;
      while |cbs| > 0
        invariant Valid() && fresh(Repr - old(Repr))
        invariant OpenFragments(Value(), cbs) == OpenFragments(old(Value()), record)
        decreases |cbs|
      {
        var parsed := Parse(cbs);
        if parsed.None? {
          return Fatal(DecodeError);
        }
        outcome := OpenOneFragment(parsed.value.header, parsed.value.body);
        if outcome != Success {
          return;
        }
        cbs := parsed.value.rest;
      }
      return Success;
    }

    method Open(contentType: byte, record: seq<byte>) returns (outcome: Outcome)
      requires Valid()
      modifies Repr
      ensures Valid() && fresh(Repr - old(Repr))
      ensures (Value(), outcome) == OpenHandshake(old(Value()), contentType, record)
    {
      if contentType == RT_APPLICATION_DATA {
        return if nullCipher then Fatal(UnexpectedMessage) else Discard;
      } else if contentType == RT_CHANGE_CIPHER_SPEC {
        if !nullCipher {
          return Fatal(UnexpectedMessage);
        }
        if |record| != 1 || record[0] != MT_CCS {
          return Fatal(IllegalParameter);
        }
        assert record == [MT_CCS];
        hasCcs := true;
        forall i | 0 <= i < MAX_FLIGHT
          ensures SlotValid(i)
        {
          assert old(SlotValid(i));
        }
        return Success;
      } else if contentType == RT_HANDSHAKE {
        outcome := OpenAllFragments(record);
      } else {
        return Fatal(UnexpectedMessage);
      }
    }

    /** dtls1_open_change_cipher_spec. */
    method OpenChangeCipherSpec(contentType: byte, record: seq<byte>) returns (outcome: Outcome)
      requires Valid()
      modifies Repr
      ensures Valid() && fresh(Repr - old(Repr))
      ensures (Value(), outcome) == DtlsReceiver.OpenChangeCipherSpec(old(Value()), contentType, record)
    {
      if !hasCcs {
        outcome := Open(contentType, record);
        if outcome != Success {
          return;
        }
      }
      if hasCcs {
        ClearChangeCipherSpec();
        return Success;
      }
      return Discard;
    }

    method ClearChangeCipherSpec()
      requires Valid()
      modifies `hasCcs
      ensures Valid()
      ensures Value() == TakeChangeCipherSpec(old(Value()))
    {
      hasCcs := false;
      forall i | 0 <= i < MAX_FLIGHT
        ensures SlotValid(i)
      {
        assert old(SlotValid(i));
      }
    }

    /** dtls_has_unprocessed_handshake_data. */
    method HasUnprocessedData() returns (leftover: bool)
      requires Valid()
      ensures leftover <==> HasUnprocessed(Value())
    {
      if hasCcs {
        return true;
      }
      for i := 0 to MAX_FLIGHT
        invariant !hasCcs
        invariant forall j | 0 <= j < i :: slots[j].Some? ==> hasMessage && j == readSeq % MAX_FLIGHT
      {
        assert SlotValid(i);
        if incoming[i] != null && !(hasMessage && i == readSeq % MAX_FLIGHT) {
          return true;
        }
      }
      return false;
    }

    /** dtls1_set_read_state. */
    method SetReadEpoch() returns (ok: bool)
      requires Valid()
      modifies `epoch, `nullCipher
      ensures Valid()
      ensures (Value(), ok) == SetReadState(old(Value()))
    {
      var leftover := HasUnprocessedData();
      if leftover {
        return false;
      }
      epoch := epoch + 1;
      nullCipher := false;
      forall i | 0 <= i < MAX_FLIGHT
        ensures SlotValid(i)
      {
        assert old(SlotValid(i));
      }
      return true;
    }

    method Get() returns (message: Option<Message>)
      requires Valid()
      modifies this`hasMessage
      ensures Valid()
      ensures (Value(), message) == GetMessage(old(Value()))
    {
      var frag := incoming[readSeq % MAX_FLIGHT];
      assert SlotValid(readSeq % MAX_FLIGHT);
      if frag == null || frag.reassembly != null {
        return None;
      }
      message := Some(Message(frag.msgType, frag.data[HEADER_LENGTH..]));
      hasMessage := true;
      forall i | 0 <= i < MAX_FLIGHT
        ensures SlotValid(i)
      {
        assert old(SlotValid(i));
      }
    }

    method Next()
      requires Valid() && CurrentComplete(Value())
      modifies this, incoming
      ensures Valid() && Repr == old(Repr)
      ensures Value() == NextMessage(old(Value()))
    {
      incoming[readSeq % MAX_FLIGHT] := null;
      slots := slots[readSeq % MAX_FLIGHT := None];
      readSeq := readSeq + 1;
      hasMessage := false;
      forall i | 0 <= i < MAX_FLIGHT
        ensures SlotValid(i)
      {
        assert old(SlotValid(i));
      }
    }
  }
}
