/**
 Keys and messages: in every run a handshake message is sealed under the keys that were in
 use when it was queued, and the receiver takes it up under the same keys.
 */
module DtlsEpochs {
  import opened Octets
  import opened Fragments
  import opened DtlsReceiver
  import opened DtlsSender
  import opened DtlsNetwork
  import ReplayWindow

  /** For each queued message, the sender's epoch when it was queued. */
  function Epochs(mtu: nat, maxLen: nat, actions: seq<Action>): (epochs: seq<nat>) {
    if actions == [] then []
    else
      var before := actions[..|actions| - 1];
      var world := Run(Start(mtu, maxLen), before);
      Noted(world, actions[|actions| - 1], Epochs(mtu, maxLen, before))
  }

  function Noted(world: World, a: Action, epochs: seq<nat>): seq<nat>
    requires |world.receiver.slots| == MAX_FLIGHT
  {
    if |Step(world, a).queued| > |world.queued| then epochs + [world.sender.epoch] else epochs
  }

  // ----- the invariant

  ghost predicate EntryEpoch(queued: seq<Message>, epochs: seq<nat>, o: Outgoing) {
    !o.isCcs ==> exists i: nat :: IsMessage(queued, i, o.data) && i < |epochs| && epochs[i] == o.epoch
  }

  ghost predicate RecordEpoch(queued: seq<Message>, epochs: seq<nat>, record: Record) {
    record.contentType == RT_HANDSHAKE ==>
      exists i: nat, off: nat, n: nat ::
        IsFragment(queued, i, off, n, record.payload) && i < |epochs| && epochs[i] == record.epoch
  }

  /** A message of the ring is of the receiver's epoch, or was handed out before the keys changed. */
  ghost predicate SlotEpoch(epochs: seq<nat>, r: Receiver, slot: Option<Incoming>) {
    slot.Some? ==>
      var i := slot.value.seqNo;
      i < |epochs| && epochs[i] <= r.epoch && (epochs[i] == r.epoch || (r.hasMessage && i == r.readSeq))
  }

  ghost predicate Ascending(epochs: seq<nat>, last: nat) {
    && (forall i, j | 0 <= i < j < |epochs| :: epochs[i] <= epochs[j])
    && (forall i | 0 <= i < |epochs| :: epochs[i] <= last)
  }

  ghost predicate EpochInv(world: World, epochs: seq<nat>) {
    && |epochs| == |world.queued| && Ascending(epochs, world.sender.epoch)
    && (forall o | o in world.sender.outgoing :: EntryEpoch(world.queued, epochs, o))
    && (forall record | record in world.wire :: RecordEpoch(world.queued, epochs, record))
    && (forall slot | slot in world.receiver.slots :: SlotEpoch(epochs, world.receiver, slot))
  }

  // ----- the sender

  lemma {:induction false} TilesArePieces(
      flight: seq<Outgoing>, i: nat, off: nat, records: seq<Record>, j: nat, end: nat, queued: seq<Message>,
      epochs: seq<nat>)
    requires Tiles(flight, i, off, records, j, end)
    requires forall o | o in flight :: EntryEpoch(queued, epochs, o)
    ensures forall record | record in records :: RecordEpoch(queued, epochs, record)
    decreases |records|
  {
    hide After, PieceOf, EntryEpoch, RecordEpoch;
    if records != [] {
      assert flight[i] in flight;
      PieceKeepsEpoch(queued, epochs, flight[i], off, records[0]);
      var (i', off') := After(flight[i], i, off, records[0]);
      TilesArePieces(flight, i', off', records[1..], j, end, queued, epochs);
    }
  }

  lemma PieceKeepsEpoch(queued: seq<Message>, epochs: seq<nat>, o: Outgoing, off: nat, record: Record)
    requires PieceOf(o, off, record) && EntryEpoch(queued, epochs, o)
    ensures RecordEpoch(queued, epochs, record)
  {
    if !o.isCcs {
      var i: nat :| IsMessage(queued, i, o.data) && i < |epochs| && epochs[i] == o.epoch;
      MessageParses(queued, i, o.data);
      assert IsFragment(queued, i, off, |record.payload| - HEADER_LENGTH, record.payload);
    }
  }

  lemma SendKeepsEpochs(world: World, epochs: seq<nat>, s: Sender, io: Transport)
    requires EpochInv(world, epochs) && s.outgoing == world.sender.outgoing && s.epoch == world.sender.epoch
    ensures EpochInv(SendStep(world, SendFlight(s, io)), epochs)
  {
    var t := UpdateMtu(s, io);
    var f := SendPackets(t, io, 0);
    FlightTiles(t, io, 0);
    hide SendPackets, Tiles, EntryEpoch, RecordEpoch, SlotEpoch, Ascending, Lost;
    TilesArePieces(t.outgoing, t.written, t.offset, Flatten(f.packets) + Lost(t, io, 0),
                   f.next.written, f.next.offset, world.queued, epochs);
    forall record | record in Flatten(f.packets)
      ensures RecordEpoch(world.queued, epochs, record)
    {
      assert record in Flatten(f.packets) + Lost(t, io, 0);
    }
  }

  lemma TimeoutKeepsEpochs(world: World, epochs: seq<nat>, io: Transport)
    requires EpochInv(world, epochs) && |world.receiver.slots| == MAX_FLIGHT
    ensures EpochInv(Step(world, Timeout(io)), epochs)
  {
    hide SendPackets, EntryEpoch, RecordEpoch, SlotEpoch, Ascending;
    var t := world.sender.(timeouts := world.sender.timeouts + 1);
    var u :=
      if t.timeouts > MTU_TIMEOUTS && io.fallbackMtu.Some? && AcceptableMtu(io.fallbackMtu.value)
      then t.(mtu := io.fallbackMtu.value)
      else t;
    SendKeepsEpochs(world, epochs, u.(written := 0, offset := 0), io);
  }

  lemma MoreMessages(queued: seq<Message>, more: seq<Message>, epochs: seq<nat>, longer: seq<nat>)
    requires queued <= more && |more| <= 0xffff && epochs <= longer
    ensures forall o | EntryEpoch(queued, epochs, o) :: EntryEpoch(more, longer, o)
    ensures forall record | RecordEpoch(queued, epochs, record) :: RecordEpoch(more, longer, record)
  {
    forall o | EntryEpoch(queued, epochs, o)
      ensures EntryEpoch(more, longer, o)
    {
      if !o.isCcs {
        var i: nat :| IsMessage(queued, i, o.data) && i < |epochs| && epochs[i] == o.epoch;
        assert IsMessage(more, i, o.data) && longer[i] == o.epoch;
      }
    }
    forall record | RecordEpoch(queued, epochs, record)
      ensures RecordEpoch(more, longer, record)
    {
      if record.contentType == RT_HANDSHAKE {
        var i: nat, off: nat, n: nat :|
          IsFragment(queued, i, off, n, record.payload) && i < |epochs| && epochs[i] == record.epoch;
        assert IsFragment(more, i, off, n, record.payload) && longer[i] == record.epoch;
      }
    }
  }

  lemma QueueKeepsEpochs(world: World, epochs: seq<nat>, msgType: byte, body: seq<byte>)
    requires Inv(world) && EpochInv(world, epochs)
    ensures var a := Queue(msgType, body); EpochInv(Step(world, a), Noted(world, a, epochs))
  {
    var s := world.sender;
    if |world.queued| < 0xffff && AddMessage(s, msgType, body).1 {
      var more, longer := world.queued + [Message(msgType, body)], epochs + [s.epoch];
      MoreMessages(world.queued, more, epochs, longer);
      assert IsMessage(more, |world.queued|, WholeMessage(msgType, |world.queued|, body));
      assert longer[|world.queued|] == s.epoch;
      hide IsMessage, RecordEpoch, RingOk;
    }
  }

  // ----- the receiver

  lemma DeliverKeepsEpochs(world: World, epochs: seq<nat>, k: nat)
    requires Inv(world) && EpochInv(world, epochs)
    ensures EpochInv(Step(world, Deliver(k)), epochs)
  {
    if k < |world.wire| && world.wire[k].epoch == world.receiver.epoch {
      var record, r := world.wire[k], world.receiver;
      assert RecordEpoch(world.queued, epochs, record);
      OpenKeepsEpochs(world.queued, epochs, r, record);
    }
  }

  lemma OpenKeepsEpochs(queued: seq<Message>, epochs: seq<nat>, r: Receiver, record: Record)
    requires RingOk(r) && record.epoch == r.epoch && RecordEpoch(queued, epochs, record)
    requires forall slot | slot in r.slots :: SlotEpoch(epochs, r, slot)
    ensures var r' := OpenHandshake(r, record.contentType, record.payload).0;
      forall slot | slot in r'.slots :: SlotEpoch(epochs, r', slot)
  {
    assert |r.slots| == MAX_FLIGHT;
    hide OpenFragments, OpenFragment, SlotEpoch, RingOk, Serialize;
    if record.contentType == RT_HANDSHAKE {
      var i: nat, off: nat, n: nat :|
        IsFragment(queued, i, off, n, record.payload) && i < |epochs| && epochs[i] == record.epoch;
      var h := Header(queued[i].msgType, |queued[i].body|, i, off, n);
      var body := queued[i].body[off..off + n];
      OneFragmentRecord(r, h, body);
      FragmentKeepsEpochs(epochs, r, h, body);
    } else {
      SameEpochs(epochs, r);
    }
  }

  lemma SameEpochs(epochs: seq<nat>, r: Receiver)
    ensures forall slot | SlotEpoch(epochs, r, slot) :: SlotEpoch(epochs, r.(hasCcs := true), slot)
  {
  }

  lemma FragmentKeepsEpochs(epochs: seq<nat>, r: Receiver, h: Header, body: seq<byte>)
    requires RingOk(r) && |body| == h.fragLen && h.seqNo < |epochs| && epochs[h.seqNo] == r.epoch
    requires forall slot | slot in r.slots :: SlotEpoch(epochs, r, slot)
    ensures var r' := OpenFragment(r, h, body).0; forall slot | slot in r'.slots :: SlotEpoch(epochs, r', slot)
  {
    assert |r.slots| == MAX_FLIGHT;
    hide RingOk;
    if Lookup(r, h).Some? {
      LookupFindsSequence(r, h);
    }
    var r' := OpenFragment(r, h, body).0;
    forall slot | slot in r'.slots
      ensures SlotEpoch(epochs, r', slot)
    {
      if slot in r.slots {
        assert SlotEpoch(epochs, r, slot);
      } else {
        assert slot == Some(Absorb(Lookup(r, h).value, h, body));
      }
    }
  }

  lemma NextKeepsEpochs(world: World, epochs: seq<nat>)
    requires Inv(world) && EpochInv(world, epochs)
    ensures EpochInv(Step(world, Next), epochs)
  {
    var r := world.receiver;
    if r.hasMessage && CurrentComplete(r) {
      var r' := NextMessage(r);
      forall j | 0 <= j < MAX_FLIGHT
        ensures SlotEpoch(epochs, r', r'.slots[j])
      {
        assert SlotOk(r, j) && SlotEpoch(epochs, r, r.slots[j]);
      }
    }
  }

  lemma KeysKeepEpochs(world: World, epochs: seq<nat>)
    requires Inv(world) && EpochInv(world, epochs)
    ensures EpochInv(Step(world, NextReadEpoch), epochs)
  {
    var r := world.receiver;
    if !HasUnprocessed(r) {
      var r' := SetReadState(r).0;
      forall j | 0 <= j < MAX_FLIGHT
        ensures SlotEpoch(epochs, r', r'.slots[j])
      {
        assert SlotOk(r, j) && SlotEpoch(epochs, r, r.slots[j]);
        if r.slots[j].Some? {
          SameSlot(r.readSeq, r.readSeq, r.slots[j].value.seqNo);
        }
      }
    }
  }

  lemma StepKeepsEpochs(world: World, epochs: seq<nat>, a: Action)
    requires Inv(world) && EpochInv(world, epochs)
    ensures EpochInv(Step(world, a), Noted(world, a, epochs))
  {
    match a
    case Queue(msgType, body) => QueueKeepsEpochs(world, epochs, msgType, body);
    case QueueChangeCipherSpec =>
    case NextWriteEpoch(cipher) =>
    case Flush(io) => SendKeepsEpochs(world, epochs, world.sender.(complete := true), io);
    case Timeout(io) => TimeoutKeepsEpochs(world, epochs, io);
    case Deliver(k) => DeliverKeepsEpochs(world, epochs, k);
    case Get =>
    case Next => NextKeepsEpochs(world, epochs);
    case TakeChangeCipherSpec =>
    case NextReadEpoch => KeysKeepEpochs(world, epochs);
    case Complete(answered) =>
  }

  /** In every run entries, records and the messages of the ring are of the epoch they were queued in. */
  lemma {:induction false} RunKeepsEpochs(mtu: nat, maxLen: nat, actions: seq<Action>)
    ensures EpochInv(Run(Start(mtu, maxLen), actions), Epochs(mtu, maxLen, actions))
  {
    hide Step, EpochInv;
    if actions == [] {
      StartEpochs(mtu, maxLen);
    } else {
      var before := actions[..|actions| - 1];
      RunKeepsEpochs(mtu, maxLen, before);
      RunKeepsInv(mtu, maxLen, before);
      StepKeepsEpochs(Run(Start(mtu, maxLen), before), Epochs(mtu, maxLen, before), actions[|actions| - 1]);
    }
  }

  lemma StartEpochs(mtu: nat, maxLen: nat)
    ensures EpochInv(Start(mtu, maxLen), [])
  {
  }

  /**
   No message is taken up under other keys than it was sealed with: in every run, what
   dtls1_get_message hands out for the first time was queued in the receiver's epoch.
   */
  lemma HandedOutInItsEpoch(mtu: nat, maxLen: nat, actions: seq<Action>)
    ensures var (world, epochs) := (Run(Start(mtu, maxLen), actions), Epochs(mtu, maxLen, actions));
      var i := |world.delivered|;
      GetMessage(world.receiver).1.Some? ==>
        i < |epochs| && epochs[i] <= world.receiver.epoch &&
        (!world.receiver.hasMessage ==> epochs[i] == world.receiver.epoch)
  {
    RunKeepsInv(mtu, maxLen, actions);
    RunKeepsEpochs(mtu, maxLen, actions);
    var (world, epochs) := (Run(Start(mtu, maxLen), actions), Epochs(mtu, maxLen, actions));
    if CurrentComplete(world.receiver) {
      CurrentIsNext(world);
      assert SlotEpoch(epochs, world.receiver, Current(world.receiver));
    }
  }
}
