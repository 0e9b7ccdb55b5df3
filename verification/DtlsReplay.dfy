/**
 The replay window in its place: in every run of the network a record is opened at most once,
 and which records are passed over is settled by the numbers opened before.
 */
module DtlsReplay {
  import opened Octets
  import opened Fragments
  import opened DtlsReceiver
  import opened DtlsSender
  import opened DtlsNetwork
  import ReplayWindow

  /** The number was not opened, and none 64 or more above it was. */
  ghost predicate FreshNumber(heard: set<ReplayWindow.uint64>, n: ReplayWindow.uint64) {
    n !in heard && forall m | m in heard :: m - n < ReplayWindow.WINDOW_SIZE
  }

  /** A record of the receiver's epoch, not too long, with a fresh number. */
  ghost predicate IsOpened(r: Receiver, heard: set<ReplayWindow.uint64>, record: Record) {
    && record.wireLen <= RT_HEADER_LENGTH + MAX_ENCRYPTED_LENGTH
    && record.epoch == r.epoch && FreshNumber(heard, WindowNumber(record))
  }

  /** The numbers opened in the receiver's epoch, after one more action. */
  ghost function Heard(heard: set<ReplayWindow.uint64>, world: World, a: Action): set<ReplayWindow.uint64>
    requires |world.receiver.slots| == MAX_FLIGHT
  {
    match a
    case Deliver(k) =>
      if k < |world.wire| && IsOpened(world.receiver, heard, world.wire[k]) &&
         |world.wire[k].payload| <= MAX_PLAIN_LENGTH
      then heard + {WindowNumber(world.wire[k])} else heard
    case NextReadEpoch => if SetReadState(world.receiver).1 then {} else heard
    case _ => heard
  }

  ghost function HeardIn(mtu: nat, maxLen: nat, actions: seq<Action>): set<ReplayWindow.uint64> {
    if actions == [] then {}
    else
      var before := actions[..|actions| - 1];
      Heard(HeardIn(mtu, maxLen, before), Run(Start(mtu, maxLen), before), actions[|actions| - 1])
  }

  lemma FreshIsKept(w: ReplayWindow.Window, heard: set<ReplayWindow.uint64>, n: ReplayWindow.uint64)
    requires ReplayWindow.Represents(w, heard)
    ensures ReplayWindow.ShouldDiscard(w, n) <==> !FreshNumber(heard, n)
  {
    hide ReplayWindow.ShouldDiscard, ReplayWindow.MapMatches;
    ReplayWindow.DiscardMeansSeenOrStale(w, heard, n);
  }

  /** What is done with a record: ignored, fatal, or opened and its number remembered. */
  lemma OpenExactly(r: Receiver, w: ReplayWindow.Window, heard: set<ReplayWindow.uint64>, record: Record)
    requires |r.slots| == MAX_FLIGHT && ReplayWindow.Represents(w, heard)
    ensures Open(r, w, record) ==
      if !IsOpened(r, heard, record) then (r, w, Discard)
      else if |record.payload| > MAX_PLAIN_LENGTH then (r, w, Fatal(RecordOverflow))
      else
        var (r', outcome) := OpenHandshake(r, record.contentType, record.payload);
        (r', ReplayWindow.Record(w, WindowNumber(record)), outcome)
  {
    hide OpenHandshake, ReplayWindow.ShouldDiscard, ReplayWindow.Represents, ReplayWindow.Record, FreshNumber;
    FreshIsKept(w, heard, WindowNumber(record));
  }

  lemma StepKeepsWindow(world: World, heard: set<ReplayWindow.uint64>, a: Action)
    requires |world.receiver.slots| == MAX_FLIGHT && ReplayWindow.Represents(world.window, heard)
    ensures ReplayWindow.Represents(Step(world, a).window, Heard(heard, world, a))
  {
    hide ReplayWindow.Represents, ReplayWindow.Record, OpenHandshake, SendPackets, IsOpened, Open, AddMessage;
    match a
    case Deliver(k) =>
      if k < |world.wire| {
        OpenExactly(world.receiver, world.window, heard, world.wire[k]);
        ReplayWindow.RecordRepresents(world.window, heard, WindowNumber(world.wire[k]));
      }
    case NextReadEpoch => ReplayWindow.EmptyRepresents();
    case _ =>
  }

  /** In every run the window stands for exactly the numbers opened in the receiver's epoch. */
  lemma {:induction false} RunKeepsWindow(mtu: nat, maxLen: nat, actions: seq<Action>)
    ensures ReplayWindow.Represents(Run(Start(mtu, maxLen), actions).window, HeardIn(mtu, maxLen, actions))
    decreases |actions|
  {
    hide Step, Heard, ReplayWindow.Represents;
    if actions == [] {
      ReplayWindow.EmptyRepresents();
    } else {
      var before, a := actions[..|actions| - 1], actions[|actions| - 1];
      RunKeepsWindow(mtu, maxLen, before);
      StepKeepsWindow(Run(Start(mtu, maxLen), before), HeardIn(mtu, maxLen, before), a);
    }
  }

  /**
     So in every run a record is opened exactly when it is of the receiver's epoch, not too long,
     not opened before, and less than 64 behind the last one opened; one that is not changes
     nothing, and so a second delivery has no effect.
   */
  lemma DeliveredOnce(mtu: nat, maxLen: nat, actions: seq<Action>, k: nat)
    requires k < |Run(Start(mtu, maxLen), actions).wire|
    ensures var (world, heard) := (Run(Start(mtu, maxLen), actions), HeardIn(mtu, maxLen, actions));
      var record := world.wire[k];
      && (!IsOpened(world.receiver, heard, record) ==> Step(world, Deliver(k)) == world)
      && (IsOpened(world.receiver, heard, record) && |record.payload| <= MAX_PLAIN_LENGTH ==>
            var later := HeardIn(mtu, maxLen, actions + [Deliver(k)]);
            WindowNumber(record) in later && !IsOpened(world.receiver, later, record))
  {
    RunKeepsWindow(mtu, maxLen, actions);
    var world, heard := Run(Start(mtu, maxLen), actions), HeardIn(mtu, maxLen, actions);
    assert (actions + [Deliver(k)])[..|actions|] == actions;
    hide Run, ReplayWindow.Represents, ReplayWindow.Record, OpenHandshake, Open;
    OpenExactly(world.receiver, world.window, heard, world.wire[k]);
  }
}
