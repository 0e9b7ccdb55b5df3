/**
 Recovery carried through to delivery: after a retransmission that arrives, the handshake is
 handed every message of the flight, and a flight that crosses a change of keys takes two.
 */
module DtlsDelivery {
  import opened Octets
  import opened Fragments
  import opened DtlsReceiver
  import opened DtlsSender
  import opened DtlsNetwork
  import opened DtlsNumbers
  import opened DtlsRecovery
  import opened DtlsEpochs

  // ----- lists of actions

  lemma {:induction false} RunInTwo(start: World, a: seq<Action>, b: seq<Action>)
    requires |start.receiver.slots| == MAX_FLIGHT
    ensures Run(start, a + b) == Run(Run(start, a), b)
    decreases |b|
  {
    hide Step;
    if b == [] {
      assert a + b == a;
    } else {
      assert (a + b)[..|a + b| - 1] == a + b[..|b| - 1];
      RunInTwo(start, a, b[..|b| - 1]);
    }
  }

  lemma RunOne(world: World, a: Action)
    requires |world.receiver.slots| == MAX_FLIGHT
    ensures Run(world, [a]) == Step(world, a)
  {
    hide Step;
    assert [a][..0] == [];
  }

  /** Records k to k + m - 1 of the wire, delivered in order. */
  function Delivers(k: nat, m: nat): seq<Action>
    decreases m
  {
    if m == 0 then [] else [Deliver(k)] + Delivers(k + 1, m - 1)
  }

  lemma {:induction false} DeliversOpenAll(world: World, k: nat, m: nat)
    requires |world.receiver.slots| == MAX_FLIGHT && k + m <= |world.wire|
    ensures var (r, w, _) := OpenAll(world.receiver, world.window, world.wire[k..k + m]);
      Run(world, Delivers(k, m)) == world.(receiver := r, window := w)
    decreases m
  {
    hide Open, Step, Run;
    var records := world.wire[k..k + m];
    if m == 0 {
      RunNone(world);
      assert records == [];
    } else {
      RunInTwo(world, [Deliver(k)], Delivers(k + 1, m - 1));
      RunOne(world, Deliver(k));
      StepDelivers(world, k);
      assert records[1..] == world.wire[k + 1..k + m];
      DeliversOpenAll(Step(world, Deliver(k)), k + 1, m - 1);
    }
  }

  lemma RunNone(world: World)
    requires |world.receiver.slots| == MAX_FLIGHT
    ensures Run(world, []) == world
  {
  }

  lemma StepDelivers(world: World, k: nat)
    requires |world.receiver.slots| == MAX_FLIGHT && k < |world.wire|
    ensures var (r, w, _) := Open(world.receiver, world.window, world.wire[k]);
      Step(world, Deliver(k)) == world.(receiver := r, window := w)
  {
    hide Open;
  }

  /** dtls1_get_message and dtls1_next_message, n times. */
  function Takes(n: nat): seq<Action> {
    if n == 0 then [] else [Get, Next] + Takes(n - 1)
  }

  /** The messages up to n are complete in the ring. */
  ghost predicate CompleteUpTo(world: World, n: nat) {
    && world.receiver.readSeq <= n
    && forall i: nat | world.receiver.readSeq <= i < n :: CompleteIn(world.queued, world.receiver, i)
  }

  /** The world once the messages before n have been taken. */
  ghost predicate Taken(world: World, n: nat, after: World) {
    var r, r' := world.receiver, after.receiver;
    && after == world.(receiver := r', delivered := after.delivered)
    && r' == r.(slots := r'.slots, readSeq := n, hasMessage := r'.hasMessage)
    && |r'.slots| == |r.slots|
    && forall j | 0 <= j < |r.slots| :: r'.slots[j].None? || r'.slots[j] == r.slots[j]
  }

  lemma TakeOne(world: World)
    requires Inv(world) && CompleteIn(world.queued, world.receiver, world.receiver.readSeq)
    ensures var after := Run(world, [Get, Next]);
      && Inv(after) && Taken(world, world.receiver.readSeq + 1, after)
      && forall i: nat | i > world.receiver.readSeq && CompleteIn(world.queued, world.receiver, i) ::
           CompleteIn(after.queued, after.receiver, i)
  {
    var r := world.receiver;
    RunInTwo(world, [Get], [Next]);
    RunOne(world, Get);
    var mid := Step(world, Get);
    RunOne(mid, Next);
    assert [Get] + [Next] == [Get, Next];
    GetKeepsInv(world);
    NextKeepsInv(mid);
  }

  lemma TakeStep(world: World, n: nat)
    requires Inv(world) && CompleteUpTo(world, n) && world.receiver.readSeq < n
    requires |world.receiver.slots| == MAX_FLIGHT
    ensures var next := Run(world, [Get, Next]);
      && Inv(next) && Taken(world, world.receiver.readSeq + 1, next) && CompleteUpTo(next, n)
      && next.receiver.readSeq == world.receiver.readSeq + 1 && |next.receiver.slots| == MAX_FLIGHT
  {
    hide Inv, CompleteIn, Run, Taken;
    TakeOne(world);
    TakenCounts(world, world.receiver.readSeq + 1, Run(world, [Get, Next]));
  }

  lemma {:induction false} TakesDeliver(world: World, n: nat)
    requires Inv(world) && CompleteUpTo(world, n) && n >= world.receiver.readSeq
    requires |world.receiver.slots| == MAX_FLIGHT
    ensures var after := Run(world, Takes(n - world.receiver.readSeq)); Inv(after) && Taken(world, n, after)
    decreases n - world.receiver.readSeq
  {
    hide Inv, Run, Step, Taken, CompleteUpTo;
    var m := n - world.receiver.readSeq;
    if m == 0 {
      RunNone(world);
      TakenNone(world);
    } else {
      TakeStep(world, n);
      var next := Run(world, [Get, Next]);
      RunInTwo(world, [Get, Next], Takes(m - 1));
      TakesDeliver(next, n);
      TakenTwice(world, next, Run(next, Takes(m - 1)), n);
    }
  }

  lemma TakenNone(world: World)
    ensures Taken(world, world.receiver.readSeq, world)
  {
  }

  lemma TakenCounts(world: World, n: nat, after: World)
    requires Taken(world, n, after)
    ensures after.receiver.readSeq == n && after.receiver.epoch == world.receiver.epoch
    ensures after.queued == world.queued && |after.receiver.slots| == |world.receiver.slots|
    ensures after.sender == world.sender && after.receiver.hasCcs == world.receiver.hasCcs
  {
  }

  lemma TakenTwice(world: World, mid: World, after: World, n: nat)
    requires Taken(world, mid.receiver.readSeq, mid) && Taken(mid, n, after)
    ensures Taken(world, n, after)
  {
  }

  // ----- one retransmission

  /** Message i is in the flight, under keys of epoch e. */
  ghost predicate Carries(world: World, e: nat, i: nat) {
    exists o :: o in world.sender.outgoing && !o.isCcs && o.epoch == e && IsMessage(world.queued, i, o.data)
  }

  ghost predicate CarriesAll(world: World, e: nat, n: nat, m: nat) {
    forall i: nat | n <= i < m :: Carries(world, e, i)
  }

  /** The transport takes every packet. */
  ghost predicate Working(io: Transport) {
    (forall k: nat :: io.write(k) > 0) && io.flush > 0
  }

  /** Every message from the receiver's next one up to n is in the flight, under the receiver's keys. */
  ghost predicate InFlight(world: World, n: nat) {
    && world.receiver.readSeq <= n <= |world.queued|
    && CarriesAll(world, world.receiver.epoch, world.receiver.readSeq, n)
  }

  /** The flight has a ChangeCipherSpec under the receiver's keys. */
  ghost predicate BringsCcs(world: World) {
    exists o :: o in world.sender.outgoing && o.isCcs && o.epoch == world.receiver.epoch
  }

  /** The timer fires, what is sent arrives in order, and the handshake takes the messages before n. */
  function Recovery(world: World, io: Transport, n: nat): seq<Action> {
    var sent := Flatten(HandleTimeout(world.sender, io).packets);
    [Timeout(io)] + Delivers(|world.wire|, |sent|) +
    Takes(if n > world.receiver.readSeq then n - world.receiver.readSeq else 0)
  }

  function Recovered(world: World, io: Transport, n: nat): (after: World)
    requires |world.receiver.slots| == MAX_FLIGHT
    ensures |after.receiver.slots| == MAX_FLIGHT
  {
    Run(world, Recovery(world, io, n))
  }

  /** The world when what the retransmission sent has arrived. */
  function Received(world: World, io: Transport): World
    requires |world.receiver.slots| == MAX_FLIGHT
  {
    var f := HandleTimeout(world.sender, io);
    var (r, w, _) := OpenAll(world.receiver, world.window, Flatten(f.packets));
    SendStep(world, f).(receiver := r, window := w)
  }

  lemma TimeoutSends(world: World, io: Transport)
    requires |world.receiver.slots| == MAX_FLIGHT
    ensures var (first, f) := (Step(world, Timeout(io)), HandleTimeout(world.sender, io));
      && first == SendStep(world, f) && first.receiver == world.receiver && first.window == world.window
      && first.wire[|world.wire|..|world.wire| + |Flatten(f.packets)|] == Flatten(f.packets)
      && |first.wire| == |world.wire| + |Flatten(f.packets)|
  {
    hide HandleTimeout;
  }

  lemma ResendArrives(world: World, io: Transport)
    requires Inv(world) && |world.receiver.slots| == MAX_FLIGHT
    ensures var sent := Flatten(HandleTimeout(world.sender, io).packets);
      var after := Run(world, [Timeout(io)] + Delivers(|world.wire|, |sent|));
      after == Received(world, io) && Inv(after)
  {
    hide HandleTimeout, OpenAll, Inv, Run, Step, SendStep, Delivers;
    TimeoutKeepsInv(world, io);
    TimeoutSends(world, io);
    var first := Step(world, Timeout(io));
    var k, m := |world.wire|, |Flatten(HandleTimeout(world.sender, io).packets)|;
    DeliversOpenAll(first, k, m);
    DeliversKeepInv(first, k, m);
    RunInTwo(world, [Timeout(io)], Delivers(k, m));
    RunOne(world, Timeout(io));
  }

  lemma ReceivedKeeps(world: World, io: Transport)
    requires |world.receiver.slots| == MAX_FLIGHT
    ensures var after := Received(world, io);
      after.queued == world.queued && after.sender == HandleTimeout(world.sender, io).next
  {
    hide HandleTimeout, OpenAll;
  }

  lemma ReceivedIsComplete(world: World, io: Transport, n: nat)
    requires Inv(world) && NumbersInv(world) && Recoverable(world, io) && InFlight(world, n)
    requires Working(io)
    requires |world.receiver.slots| == MAX_FLIGHT
    ensures CompleteUpTo(Received(world, io), n) && world.receiver.readSeq <= n
    ensures Received(world, io).receiver.readSeq == world.receiver.readSeq
    ensures Received(world, io).receiver.epoch == world.receiver.epoch
    ensures BringsCcs(world) ==> Received(world, io).receiver.hasCcs
  {
    Recovers(world, io);
    hide Recoverable, HandleTimeout, OpenAll, Inv, NumbersInv, CompleteIn, IsMessage;
    forall i: nat | world.receiver.readSeq <= i < n
      ensures CompleteIn(world.queued, Received(world, io).receiver, i)
    {
      assert Carries(world, world.receiver.epoch, i);
      var o :| o in world.sender.outgoing && Awaited(world.receiver, o) && IsMessage(world.queued, i, o.data);
    }
  }

  /** After a retransmission that arrives, every message of the flight's epoch is handed out. */
  lemma FlightIsDelivered(world: World, io: Transport, n: nat)
    requires Inv(world) && NumbersInv(world) && Recoverable(world, io) && InFlight(world, n)
    requires Working(io)
    requires |world.receiver.slots| == MAX_FLIGHT
    ensures var after := Run(world, Recovery(world, io, n));
      && Inv(after) && Taken(Received(world, io), n, after)
      && after.delivered == world.queued[..n] && after.receiver.epoch == world.receiver.epoch
      && (BringsCcs(world) ==> after.receiver.hasCcs)
  {
    hide Recoverable, HandleTimeout, Inv, NumbersInv, CompleteIn, Run, InFlight, Received, Taken, Takes, Delivers;
    ReceivedIsComplete(world, io, n);
    ResendArrives(world, io);
    ReceivedKeeps(world, io);
    var second := Received(world, io);
    TakesDeliver(second, n);
    var after := Run(second, Takes(n - world.receiver.readSeq));
    TakenCounts(second, n, after);
    var sent := Flatten(HandleTimeout(world.sender, io).packets);
    RunInTwo(world, [Timeout(io)] + Delivers(|world.wire|, |sent|), Takes(n - world.receiver.readSeq));
    DeliveredSoFar(after);
  }

  lemma DeliveredSoFar(world: World)
    requires Inv(world)
    ensures world.receiver.readSeq <= |world.queued| && world.delivered == world.queued[..world.receiver.readSeq]
  {
  }

  lemma {:induction false} DeliversKeepInv(world: World, k: nat, m: nat)
    requires Inv(world)
    ensures Inv(Run(world, Delivers(k, m)))
    decreases m
  {
    hide Step;
    if m > 0 {
      DeliverKeepsInv(world, k);
      RunInTwo(world, [Deliver(k)], Delivers(k + 1, m - 1));
      RunOne(world, Deliver(k));
      DeliversKeepInv(Step(world, Deliver(k)), k + 1, m - 1);
    }
  }

  // ----- in every run

  /**
   From every reachable world with a flight to repeat: after a retransmission that arrives,
   the messages handed out are all those before n, for any n such that the flight carries
   what is still missing under the receiver's keys.
   */
  lemma RetransmissionDelivers(mtu: nat, maxLen: nat, actions: seq<Action>, io: Transport, n: nat)
    requires var world := Run(Start(mtu, maxLen), actions); Recoverable(world, io) && InFlight(world, n)
    requires Working(io)
    ensures var world := Run(Start(mtu, maxLen), actions);
      var after := Run(Start(mtu, maxLen), actions + Recovery(world, io, n));
      && after.delivered == world.queued[..n]
      && after.receiver.epoch == world.receiver.epoch && (BringsCcs(world) ==> after.receiver.hasCcs)
  {
    RunKeepsInv(mtu, maxLen, actions);
    RunKeepsNumbers(mtu, maxLen, actions);
    var world := Run(Start(mtu, maxLen), actions);
    hide Inv, NumbersInv, Recoverable, InFlight, Recovery, Taken, Received, Run;
    FlightIsDelivered(world, io, n);
    RunInTwo(Start(mtu, maxLen), actions, Recovery(world, io, n));
  }

  // ----- across a change of keys

  /** After the flight's messages of the old epoch the receiver uses up the ChangeCipherSpec and changes keys. */
  function Crossing(world: World, io: Transport, n: nat): seq<Action> {
    Recovery(world, io, n) + [TakeChangeCipherSpec, NextReadEpoch]
  }

  function Crossed(world: World, io: Transport, n: nat): (next: World)
    requires |world.receiver.slots| == MAX_FLIGHT
    ensures |next.receiver.slots| == MAX_FLIGHT
  {
    Run(world, Crossing(world, io, n))
  }

  lemma FlightKept(s: Sender, io: Transport)
    ensures HandleTimeout(s, io).next.outgoing == s.outgoing
  {
    hide SendPackets;
  }

  /** A message that the flight carries was queued in that epoch. */
  lemma CarriedEpoch(world: World, epochs: seq<nat>, e: nat, i: nat)
    requires EpochInv(world, epochs) && Carries(world, e, i)
    ensures i < |epochs| && epochs[i] == e
  {
    hide IsMessage;
    var o :| o in world.sender.outgoing && !o.isCcs && o.epoch == e && IsMessage(world.queued, i, o.data);
    assert EntryEpoch(world.queued, epochs, o);
    var j: nat :| IsMessage(world.queued, j, o.data) && j < |epochs| && epochs[j] == o.epoch;
    OneMessage(world.queued, i, j, o.data);
  }

  /** When the next message is of a later epoch, nothing is left in the ring. */
  lemma RingIsEmpty(world: World, epochs: seq<nat>)
    requires Inv(world) && EpochInv(world, epochs) && world.receiver.readSeq < |epochs|
    requires epochs[world.receiver.readSeq] > world.receiver.epoch
    ensures |world.receiver.slots| == MAX_FLIGHT
    ensures forall j | 0 <= j < MAX_FLIGHT :: world.receiver.slots[j].None?
  {
    var r := world.receiver;
    forall j | 0 <= j < MAX_FLIGHT
      ensures r.slots[j].None?
    {
      assert SlotOk(r, j) && SlotEpoch(epochs, r, r.slots[j]);
    }
  }

  lemma KeysChange(world: World)
    requires |world.receiver.slots| == MAX_FLIGHT && forall j | 0 <= j < MAX_FLIGHT :: world.receiver.slots[j].None?
    ensures var after := Run(world, [TakeChangeCipherSpec, NextReadEpoch]);
      && after.receiver.epoch == world.receiver.epoch + 1 && after.receiver.readSeq == world.receiver.readSeq
      && after.sender == world.sender && after.queued == world.queued
  {
    hide Run;
    RunInTwo(world, [TakeChangeCipherSpec], [NextReadEpoch]);
    RunOne(world, TakeChangeCipherSpec);
    RunOne(Step(world, TakeChangeCipherSpec), NextReadEpoch);
    assert [TakeChangeCipherSpec] + [NextReadEpoch] == [TakeChangeCipherSpec, NextReadEpoch];
  }

  lemma CrossingChangesKeys(world: World, epochs: seq<nat>, io: Transport, n: nat)
    requires Inv(world) && NumbersInv(world) && EpochInv(world, epochs) && |world.receiver.slots| == MAX_FLIGHT
    requires Recoverable(world, io) && Working(io) && InFlight(world, n) && Carries(world, world.receiver.epoch + 1, n)
    ensures var next := Run(world, Crossing(world, io, n));
      && next.receiver.epoch == world.receiver.epoch + 1 && next.receiver.readSeq == n
      && next.sender.outgoing == world.sender.outgoing && next.queued == world.queued
  {
    hide Inv, NumbersInv, EpochInv, Recoverable, InFlight, Recovery, Taken, Received, Run, Step, IsMessage;
    hide HandleTimeout, KeptEpochs;
    FlightIsDelivered(world, io, n);
    var after := Run(world, Recovery(world, io, n));
    TakenCounts(Received(world, io), n, after);
    ReceivedKeeps(world, io);
    FlightKept(world.sender, io);
    assert Carries(after, world.receiver.epoch + 1, n);
    var later := KeptEpochs(world, epochs, Recovery(world, io, n));
    RunKeepsAll(world, epochs, Recovery(world, io, n));
    CarriedEpoch(after, later, world.receiver.epoch + 1, n);
    RingIsEmpty(after, later);
    KeysChange(after);
    RunInTwo(world, Recovery(world, io, n), [TakeChangeCipherSpec, NextReadEpoch]);
  }

  /** The epochs noted while `actions` are carried out. */
  function KeptEpochs(world: World, epochs: seq<nat>, actions: seq<Action>): seq<nat>
    requires |world.receiver.slots| == MAX_FLIGHT
  {
    if actions == [] then epochs
    else
      var before := actions[..|actions| - 1];
      Noted(Run(world, before), actions[|actions| - 1], KeptEpochs(world, epochs, before))
  }

  lemma {:induction false} RunKeepsAll(world: World, epochs: seq<nat>, actions: seq<Action>)
    requires Inv(world) && NumbersInv(world) && EpochInv(world, epochs) && |world.receiver.slots| == MAX_FLIGHT
    ensures var after := Run(world, actions);
      Inv(after) && NumbersInv(after) && EpochInv(after, KeptEpochs(world, epochs, actions))
  {
    hide Inv, NumbersInv, EpochInv, Step, Noted;
    if actions != [] {
      var before, a := actions[..|actions| - 1], actions[|actions| - 1];
      RunKeepsAll(world, epochs, before);
      var mid := Run(world, before);
      StepKeepsInv(mid, a);
      StepKeepsNumbers(mid, a);
      StepKeepsEpochs(mid, KeptEpochs(world, epochs, before), a);
    }
  }

  /** A flight that crosses a change of keys: all of it that is missing up to m, the new keys from n on. */
  ghost predicate Crosses(world: World, n: nat, m: nat) {
    InFlight(world, n) && n < m <= |world.queued| && CarriesAll(world, world.receiver.epoch + 1, n, m)
  }

  /**
   A flight that crosses a change of keys: one retransmission, the change of keys at the
   receiver, and a second retransmission hand out all of it. That the receiver is free to
   change keys in between, its ring empty, is part of the conclusion.
   */
  lemma TwoRetransmissionsDeliver(
      world: World, epochs: seq<nat>, io: Transport, n: nat, again: Transport, m: nat)
    requires Inv(world) && NumbersInv(world) && EpochInv(world, epochs) && |world.receiver.slots| == MAX_FLIGHT
    requires Recoverable(world, io) && Working(io) && Crosses(world, n, m) && Working(again)
    requires Recoverable(Crossed(world, io, n), again)
    ensures Crossed(world, io, n).receiver.epoch == world.receiver.epoch + 1
    ensures Recovered(Crossed(world, io, n), again, m).delivered == world.queued[..m]
  {
    hide Inv, NumbersInv, EpochInv, Recoverable, InFlight, Recovery, Crossing, Run, IsMessage, Taken, Received;
    hide Carries, KeptEpochs;
    FirstCarried(world, world.receiver.epoch + 1, n, m);
    CrossingChangesKeys(world, epochs, io, n);
    var next := Run(world, Crossing(world, io, n));
    RunKeepsAll(world, epochs, Crossing(world, io, n));
    NextInFlight(world, next, n, m);
    FlightIsDelivered(next, again, m);
  }

  lemma FirstCarried(world: World, e: nat, n: nat, m: nat)
    requires n < m && CarriesAll(world, e, n, m)
    ensures Carries(world, e, n) && m <= |world.queued|
  {
    assert Carries(world, e, m - 1);
  }

  lemma NextInFlight(world: World, next: World, n: nat, m: nat)
    requires Crosses(world, n, m) && next.receiver.epoch == world.receiver.epoch + 1 && next.receiver.readSeq == n
    requires next.sender.outgoing == world.sender.outgoing && next.queued == world.queued
    ensures InFlight(next, m)
  {
    hide IsMessage;
    FirstCarried(world, world.receiver.epoch + 1, n, m);
    forall i: nat | n <= i < m
      ensures Carries(next, next.receiver.epoch, i)
    {
      assert Carries(world, world.receiver.epoch + 1, i);
    }
  }

  /** And so it is in every run. */
  lemma CrossingFlightDelivers(
      mtu: nat, maxLen: nat, actions: seq<Action>, io: Transport, n: nat, again: Transport, m: nat)
    requires var world := Run(Start(mtu, maxLen), actions);
      && Recoverable(world, io) && Working(io) && Crosses(world, n, m) && Working(again)
      && Recoverable(Crossed(world, io, n), again)
    ensures var world := Run(Start(mtu, maxLen), actions);
      && Crossed(world, io, n).receiver.epoch == world.receiver.epoch + 1
      && Recovered(Crossed(world, io, n), again, m).delivered == world.queued[..m]
  {
    hide Step, Recoverable, Crosses, Crossed, Recovered, Inv, NumbersInv, EpochInv, Run, Epochs;
    RunKeepsInv(mtu, maxLen, actions);
    RunKeepsNumbers(mtu, maxLen, actions);
    RunKeepsEpochs(mtu, maxLen, actions);
    TwoRetransmissionsDeliver(
      Run(Start(mtu, maxLen), actions), Epochs(mtu, maxLen, actions), io, n, again, m);
  }
}
