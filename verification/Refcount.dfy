/**
 Reference counts under concurrency (crypto/refcount_c11.c, crypto/refcount_lock.c): what
 an atomic saturating counter does, and the two programs that have to look like one.
 */
module RefcountSpec {
  const MAX: nat := 0xffff_ffff

  datatype Op = Inc | Dec

  /** One completed call; `zero` is what a decrement returned. */
  datatype Event = Event(thread: nat, op: Op, zero: bool)

  function Apply(count: nat, op: Op): nat {
    match op
    case Inc => if count >= MAX then count else count + 1
    case Dec => if count == 0 || count >= MAX then count else count - 1
  }

  /** What one atomic call may do: a decrement needs a count, and reports reaching zero. */
  predicate Legal(count: nat, e: Event) {
    match e.op
    case Inc => !e.zero
    case Dec => count > 0 && e.zero == (Apply(count, Dec) == 0)
  }

  function CountAfter(init: nat, log: seq<Event>): nat {
    if log == [] then init else Apply(CountAfter(init, log[..|log| - 1]), log[|log| - 1].op)
  }

  /** The calls, one after the other, are those of one atomic counter. */
  predicate Atomic(init: nat, log: seq<Event>) {
    log == [] ||
    (Atomic(init, log[..|log| - 1]) && Legal(CountAfter(init, log[..|log| - 1]), log[|log| - 1]))
  }

  lemma Logged(init: nat, log: seq<Event>, e: Event)
    ensures CountAfter(init, log + [e]) == Apply(CountAfter(init, log), e.op)
    ensures Atomic(init, log + [e]) <==> Atomic(init, log) && Legal(CountAfter(init, log), e)
  {
    assert (log + [e])[..|log|] == log;
  }

  lemma {:induction false} StaysInRange(init: nat, log: seq<Event>)
    requires init <= MAX
    ensures CountAfter(init, log) <= MAX
  {
    if log != [] {
      StaysInRange(init, log[..|log| - 1]);
    }
  }

  function Calls(log: seq<Event>, op: Op): nat {
    if log == [] then 0 else Calls(log[..|log| - 1], op) + if log[|log| - 1].op == op then 1 else 0
  }

  /** A count that never saturated is the initial count plus increments minus decrements. */
  lemma {:induction false} Balance(init: nat, log: seq<Event>)
    requires Atomic(init, log)
    requires forall k :: 0 <= k <= |log| ==> CountAfter(init, log[..k]) < MAX
    ensures CountAfter(init, log) == init + Calls(log, Inc) - Calls(log, Dec)
    decreases |log|
  {
    if log != [] {
      var front := log[..|log| - 1];
      forall k | 0 <= k <= |front| ensures CountAfter(init, front[..k]) < MAX {
        assert front[..k] == log[..k];
      }
      assert log[..|log|] == log;
      Balance(init, front);
    }
  }

  /** A saturated count never changes again, and no later decrement reports zero. */
  lemma {:induction false} SaturationIsForever(init: nat, log: seq<Event>, k: nat)
    requires init <= MAX && k <= |log| && Atomic(init, log) && CountAfter(init, log[..k]) == MAX
    ensures CountAfter(init, log) == MAX
    ensures forall i :: k <= i < |log| ==> !log[i].zero
    decreases |log|
  {
    if k < |log| {
      var front := log[..|log| - 1];
      assert front[..k] == log[..k];
      SaturationIsForever(init, front, k);
      assert forall i :: k <= i < |front| ==> log[i] == front[i];
    } else {
      assert log[..k] == log;
    }
  }

  function Frees(log: seq<Event>): nat {
    if log == [] then 0 else Frees(log[..|log| - 1]) + if log[|log| - 1].zero then 1 else 0
  }

  /**
     If nobody increments a count that has reached zero, one decrement reports zero when
     the count is zero in the end, and none otherwise: the object is released once.
   */
  lemma {:induction false} ReleasedOnce(init: nat, log: seq<Event>)
    requires 0 < init <= MAX && Atomic(init, log)
    requires forall k :: 0 <= k < |log| && log[k].op == Inc ==> CountAfter(init, log[..k]) > 0
    ensures Frees(log) == if CountAfter(init, log) == 0 then 1 else 0
    decreases |log|
  {
    if log != [] {
      var n := |log| - 1;
      var front := log[..n];
      forall k | 0 <= k < n && front[k].op == Inc ensures CountAfter(init, front[..k]) > 0 {
        assert front[..k] == log[..k] && front[k] == log[k];
      }
      ReleasedOnce(init, front);
      assert log[n].op == Inc ==> CountAfter(init, log[..n]) > 0;
    }
  }

  /** The three promises together, for any history of an atomic counter. */
  lemma CounterPromises(init: nat, log: seq<Event>)
    requires 0 < init <= MAX && Atomic(init, log)
    ensures (forall k :: 0 <= k <= |log| ==> CountAfter(init, log[..k]) < MAX) ==>
        CountAfter(init, log) == init + Calls(log, Inc) - Calls(log, Dec)
    ensures (exists k :: 0 <= k <= |log| && CountAfter(init, log[..k]) == MAX) ==> CountAfter(init, log) == MAX
    ensures (forall k :: 0 <= k < |log| && log[k].op == Inc ==> CountAfter(init, log[..k]) > 0) ==>
        Frees(log) == if CountAfter(init, log) == 0 then 1 else 0
  {
    hide CountAfter, Atomic, Frees, Calls;
    if forall k :: 0 <= k <= |log| ==> CountAfter(init, log[..k]) < MAX {
      Balance(init, log);
    }
    if k :| 0 <= k <= |log| && CountAfter(init, log[..k]) == MAX {
      SaturationIsForever(init, log, k);
    }
    if forall k :: 0 <= k < |log| && log[k].op == Inc ==> CountAfter(init, log[..k]) > 0 {
      ReleasedOnce(init, log);
    }
  }

  lemma Freed(init: nat, log: seq<Event>, e: Event)
    ensures Frees(log + [e]) == Frees(log) + if e.zero then 1 else 0
    ensures CountAfter(init, []) == init && Atomic(init, []) && Frees([]) == 0
  {
    assert (log + [e])[..|log|] == log;
  }

  /** An increment after zero brings the count back, and the object is released twice. */
  lemma IncrementAfterZeroReleasesTwice(t: nat)
    ensures
      var log := [Event(t, Dec, true)] + [Event(t, Inc, false)] + [Event(t, Dec, true)];
      Atomic(1, log) && Frees(log) == 2
  {
    hide CountAfter, Atomic, Frees;
    var a, b := Event(t, Dec, true), Event(t, Inc, false);
    assert [] + [a] == [a];
    Logged(1, [], a);
    Freed(1, [], a);
    Logged(1, [a], b);
    Freed(1, [a], b);
    Logged(1, [a] + [b], a);
    Freed(1, [a] + [b], a);
  }
}

/** The compare-and-swap version: each thread loads the count, then tries to replace it. */
module RefcountCas {
  import opened RefcountSpec
  import opened Fragments

  /**
     A thread inside a call: `expected` is what it last read of the count, when `at` calls
     had completed; `since` calls had completed when this one began.
   */
  datatype Pc = Idle | Loop(op: Op, since: nat, at: nat, expected: nat)

  datatype World = World(count: nat, threads: seq<Pc>, log: seq<Event>, aborted: bool)

  /** A thread begins a call, or runs its loop once; a compare-exchange may fail for no reason. */
  datatype Turn = Call(thread: nat, op: Op) | Try(thread: nat, spurious: bool)

  function Begin(w: World, t: nat, op: Op): World
    requires t < |w.threads|
  {
    w.(threads := w.threads[t := Loop(op, |w.log|, |w.log|, w.count)])
  }

  function Return(w: World, t: nat, op: Op, count: nat, zero: bool): World
    requires t < |w.threads|
  {
    w.(count := count, threads := w.threads[t := Idle], log := w.log + [Event(t, op, zero)])
  }

  /** A failed compare-exchange leaves the current count in `expected`. */
  function Reload(w: World, t: nat, pc: Pc): World
    requires t < |w.threads| && pc.Loop?
  {
    w.(threads := w.threads[t := pc.(at := |w.log|, expected := w.count)])
  }

  /** CRYPTO_refcount_inc, one round. */
  function TryInc(w: World, t: nat, pc: Pc, spurious: bool): World
    requires t < |w.threads| && pc.Loop?
  {
    if pc.expected == MAX then Return(w, t, Inc, w.count, false)
    else
      var newValue := pc.expected + 1;
      if w.count == pc.expected && !spurious then Return(w, t, Inc, newValue, false) else Reload(w, t, pc)
  }

  /** CRYPTO_refcount_dec_and_test_zero, one round. */
  function TryDec(w: World, t: nat, pc: Pc, spurious: bool): World
    requires t < |w.threads| && pc.Loop?
  {
    if pc.expected == 0 then w.(aborted := true)
    else if pc.expected == MAX then Return(w, t, Dec, w.count, false)
    else
      var newValue := pc.expected - 1;
      if w.count == pc.expected && !spurious then Return(w, t, Dec, newValue, newValue == 0) else Reload(w, t, pc)
  }

  predicate Enabled(w: World, turn: Turn) {
    && !w.aborted && turn.thread < |w.threads|
    && (turn.Call? <==> w.threads[turn.thread].Idle?)
  }

  function Next(w: World, turn: Turn): World
    requires Enabled(w, turn)
  {
    match turn
    case Call(t, op) => Begin(w, t, op)
    case Try(t, spurious) =>
      var pc := w.threads[t];
      if pc.op.Inc? then TryInc(w, t, pc, spurious) else TryDec(w, t, pc, spurious)
  }

  function Run(w: World, turns: seq<Turn>): Option<World>
    decreases |turns|
  {
    if turns == [] then Some(w) else if !Enabled(w, turns[0]) then None else Run(Next(w, turns[0]), turns[1..])
  }

  ghost predicate SawTheCount(init: nat, log: seq<Event>, pc: Pc) {
    pc.Loop? ==> pc.since <= pc.at <= |log| && pc.expected == CountAfter(init, log[..pc.at])
  }

  ghost predicate Inv(init: nat, w: World) {
    && init <= MAX && w.count == CountAfter(init, w.log) && Atomic(init, w.log)
    && forall t :: 0 <= t < |w.threads| ==> SawTheCount(init, w.log, w.threads[t])
  }

  lemma LogGrows(init: nat, log: seq<Event>, e: Event, pc: Pc)
    requires SawTheCount(init, log, pc)
    ensures SawTheCount(init, log + [e], pc)
  {
    if pc.Loop? {
      assert (log + [e])[..pc.at] == log[..pc.at];
    }
  }

  lemma ReturnKeeps(init: nat, w: World, t: nat, op: Op, count: nat, zero: bool)
    requires Inv(init, w) && t < |w.threads|
    requires count == Apply(w.count, op) && Legal(w.count, Event(t, op, zero))
    ensures Inv(init, Return(w, t, op, count, zero))
  {
    hide CountAfter, Atomic, SawTheCount;
    var e := Event(t, op, zero);
    Logged(init, w.log, e);
    IdleSaw(init, w.log + [e]);
    forall u | 0 <= u < |w.threads| ensures SawTheCount(init, w.log + [e], w.threads[u]) {
      LogGrows(init, w.log, e, w.threads[u]);
    }
  }

  lemma IdleSaw(init: nat, log: seq<Event>)
    ensures SawTheCount(init, log, Idle)
  {
  }

  lemma ReadNow(init: nat, w: World, pc: Pc)
    requires Inv(init, w) && pc.Loop? && pc.since <= pc.at == |w.log| && pc.expected == w.count
    ensures SawTheCount(init, w.log, pc)
  {
    assert w.log[..|w.log|] == w.log;
  }

  lemma StepKeeps(init: nat, w: World, turn: Turn)
    requires Inv(init, w) && Enabled(w, turn)
    ensures Inv(init, Next(w, turn))
  {
    hide CountAfter, Atomic;
    match turn {
      case Call(t, op) => ReadNow(init, w, Loop(op, |w.log|, |w.log|, w.count));
      case Try(t, spurious) =>
        var pc := w.threads[t];
        assert SawTheCount(init, w.log, pc);
        if pc.expected == MAX {
          SaturationIsForever(init, w.log, pc.at);
          ReturnKeeps(init, w, t, pc.op, w.count, false);
        } else if pc.op.Inc? && w.count == pc.expected && !spurious {
          StaysInRange(init, w.log);
          ReturnKeeps(init, w, t, Inc, pc.expected + 1, false);
        } else if pc.op.Dec? && pc.expected > 0 && w.count == pc.expected && !spurious {
          StaysInRange(init, w.log);
          ReturnKeeps(init, w, t, Dec, pc.expected - 1, pc.expected - 1 == 0);
        } else {
          ReadNow(init, w, pc.(at := |w.log|, expected := w.count));
        }
    }
  }

  /**
     Every interleaving, with any spurious failures, is a history of one atomic counter:
     the completed calls in the order of `log` are legal and the shared word is their count.
   */
  lemma {:induction false} RunIsAtomic(init: nat, w: World, turns: seq<Turn>)
    requires Inv(init, w)
    ensures var r := Run(w, turns); r.Some? ==> Inv(init, r.value)
    decreases |turns|
  {
    if turns != [] && Enabled(w, turns[0]) {
      StepKeeps(init, w, turns[0]);
      RunIsAtomic(init, Next(w, turns[0]), turns[1..]);
    }
  }

  /** The process aborts only in a decrement during which the count was zero. */
  lemma AbortMeansZero(init: nat, w: World, turn: Turn)
    requires Inv(init, w) && Enabled(w, turn) && Next(w, turn).aborted
    ensures turn.Try? && w.threads[turn.thread].Loop? && w.threads[turn.thread].op.Dec?
    ensures exists k :: w.threads[turn.thread].since <= k <= |w.log| && CountAfter(init, w.log[..k]) == 0
  {
    var pc := w.threads[turn.thread];
    assert SawTheCount(init, w.log, pc);
    assert CountAfter(init, w.log[..pc.at]) == 0;
  }

  /** A round that fails for a reason has been overtaken: a call completed since it read the count. */
  lemma OvertakenByProgress(init: nat, w: World, t: nat)
    requires Inv(init, w) && Enabled(w, Try(t, false))
    requires Next(w, Try(t, false)).threads[t].Loop? && !Next(w, Try(t, false)).aborted
    ensures w.threads[t].at < |w.log|
  {
    var pc := w.threads[t];
    assert SawTheCount(init, w.log, pc);
    assert w.log[..|w.log|] == w.log;
  }

  /** A counter that starts at `init` with all threads idle. */
  function Start(init: nat, n: nat): World {
    World(init, seq(n, i => Idle), [], false)
  }

  /** The promises of an atomic counter for the compare-and-swap program. */
  lemma ConcurrentCount(init: nat, n: nat, turns: seq<Turn>)
    requires 0 < init <= MAX
    ensures
      var r := Run(Start(init, n), turns);
      r.Some? ==>
        var w := r.value;
        && Atomic(init, w.log) && w.count == CountAfter(init, w.log)
        && ((forall k :: 0 <= k <= |w.log| ==> CountAfter(init, w.log[..k]) < MAX) ==>
              w.count == init + Calls(w.log, Inc) - Calls(w.log, Dec))
        && ((exists k :: 0 <= k <= |w.log| && CountAfter(init, w.log[..k]) == MAX) ==> w.count == MAX)
        && ((forall k :: 0 <= k < |w.log| && w.log[k].op == Inc ==> CountAfter(init, w.log[..k]) > 0) ==>
              Frees(w.log) == if w.count == 0 then 1 else 0)
  {
    RunIsAtomic(init, Start(init, n), turns);
    var r := Run(Start(init, n), turns);
    if r.Some? {
      CounterPromises(init, r.value.log);
    }
  }
}

/** The version with a global lock: plain loads and stores inside the critical section. */
module RefcountLock {
  import opened RefcountSpec
  import opened Fragments

  /** Where a thread is; Loaded holds the value it has read and is about to replace. */
  datatype Pc =
    | Idle
    | Waiting(op: Op)
    | Entered(op: Op)
    | Loaded(op: Op, value: nat)
    | Testing
    | Leaving

  datatype World = World(count: nat, holder: Option<nat>, threads: seq<Pc>, log: seq<Event>, aborted: bool)

  datatype Turn = Call(thread: nat, op: Op) | Go(thread: nat)

  predicate Enabled(w: World, turn: Turn) {
    && !w.aborted && turn.thread < |w.threads|
    && (turn.Call? <==> w.threads[turn.thread].Idle?)
    && (w.threads[turn.thread].Waiting? ==> w.holder.None?)
  }

  function At(w: World, t: nat, pc: Pc): World
    requires t < |w.threads|
  {
    w.(threads := w.threads[t := pc])
  }

  function Log(w: World, t: nat, op: Op, zero: bool): World {
    w.(log := w.log + [Event(t, op, zero)])
  }

  function Next(w: World, turn: Turn): World
    requires Enabled(w, turn)
  {
    var t := turn.thread;
    match turn
    case Call(_, op) => At(w, t, Waiting(op))
    case Go(_) =>
      match w.threads[t]
      case Idle => w
      case Waiting(op) => At(w, t, Entered(op)).(holder := Some(t))
      case Entered(op) =>
        if op.Dec? && w.count == 0 then w.(aborted := true)
        else if w.count < MAX then At(w, t, Loaded(op, w.count))
        else if op.Inc? then Log(At(w, t, Leaving), t, Inc, false)
        else At(w, t, Testing)
      case Loaded(op, value) =>
        if op.Inc? then Log(At(w, t, Leaving).(count := value + 1), t, Inc, false)
        else At(w, t, Testing).(count := if value > 0 then value - 1 else 0)
      case Testing => Log(At(w, t, Leaving), t, Dec, w.count == 0)
      case Leaving => At(w, t, Idle).(holder := None)
  }

  function Run(w: World, turns: seq<Turn>): Option<World>
    decreases |turns|
  {
    if turns == [] then Some(w) else if !Enabled(w, turns[0]) then None else Run(Next(w, turns[0]), turns[1..])
  }

  predicate Inside(pc: Pc) {
    pc.Entered? || pc.Loaded? || pc.Testing? || pc.Leaving?
  }

  /** The shared word is the count of the calls logged, or one decrement ahead of it. */
  ghost predicate WordIs(w: World, logged: nat) {
    if w.holder.None? then w.count == logged
    else
      && w.holder.value < |w.threads|
      && match w.threads[w.holder.value]
         case Testing => logged > 0 && w.count == Apply(logged, Dec)
         case Loaded(op, value) => w.count == logged == value < MAX && (op.Dec? ==> value > 0)
         case _ => w.count == logged
  }

  ghost predicate Inv(init: nat, w: World) {
    && init <= MAX && Atomic(init, w.log) && WordIs(w, CountAfter(init, w.log))
    && forall t :: 0 <= t < |w.threads| ==> (Inside(w.threads[t]) <==> w.holder == Some(t))
  }

  lemma StepKeeps(init: nat, w: World, turn: Turn)
    requires Inv(init, w) && Enabled(w, turn)
    ensures Inv(init, Next(w, turn))
  {
    hide CountAfter, Atomic;
    StaysInRange(init, w.log);
    var t := turn.thread;
    Logged(init, w.log, Event(t, Inc, false));
    Logged(init, w.log, Event(t, Dec, w.count == 0));
  }

  /** Every interleaving under the lock is a history of the same atomic counter. */
  lemma {:induction false} RunIsAtomic(init: nat, w: World, turns: seq<Turn>)
    requires Inv(init, w)
    ensures var r := Run(w, turns); r.Some? ==> Inv(init, r.value)
    decreases |turns|
  {
    if turns != [] && Enabled(w, turns[0]) {
      StepKeeps(init, w, turns[0]);
      RunIsAtomic(init, Next(w, turns[0]), turns[1..]);
    }
  }

  /** The process aborts only when the count is zero at that moment. */
  lemma AbortMeansZero(init: nat, w: World, turn: Turn)
    requires Inv(init, w) && Enabled(w, turn) && Next(w, turn).aborted
    ensures CountAfter(init, w.log) == 0
  {
  }

  function Start(init: nat, n: nat): World {
    World(init, None, seq(n, i => Idle), [], false)
  }

  /** In no run are two threads ever inside the critical section together. */
  lemma MutualExclusion(init: nat, n: nat, turns: seq<Turn>)
    requires 0 < init <= MAX
    ensures
      var r := Run(Start(init, n), turns);
      r.Some? ==>
        var threads := r.value.threads;
        forall t, u | 0 <= t < |threads| && 0 <= u < |threads| && Inside(threads[t]) && Inside(threads[u]) :: t == u
  {
    RunIsAtomic(init, Start(init, n), turns);
  }

  /** The promises of an atomic counter for the program with the lock, whenever the lock is free. */
  lemma ConcurrentCount(init: nat, n: nat, turns: seq<Turn>)
    requires 0 < init <= MAX
    ensures
      var r := Run(Start(init, n), turns);
      r.Some? && r.value.holder.None? ==>
        var w := r.value;
        && Atomic(init, w.log) && w.count == CountAfter(init, w.log)
        && ((forall k :: 0 <= k <= |w.log| ==> CountAfter(init, w.log[..k]) < MAX) ==>
              w.count == init + Calls(w.log, Inc) - Calls(w.log, Dec))
        && ((exists k :: 0 <= k <= |w.log| && CountAfter(init, w.log[..k]) == MAX) ==> w.count == MAX)
        && ((forall k :: 0 <= k < |w.log| && w.log[k].op == Inc ==> CountAfter(init, w.log[..k]) > 0) ==>
              Frees(w.log) == if w.count == 0 then 1 else 0)
  {
    RunIsAtomic(init, Start(init, n), turns);
    var r := Run(Start(init, n), turns);
    if r.Some? {
      CounterPromises(init, r.value.log);
    }
  }
}
