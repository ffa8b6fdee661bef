/** Sleeping and waking in globalfifo: which sleepers a wake-up can miss, and when a set of calls is
    stuck. */
module FifoWakeups {
  import opened Bytes
  import opened FifoDevice
  import opened FifoProtocol
  import opened FifoSafety

  /** A call of the other kind has moved bytes and is about to wake this kind. */
  ghost predicate WakePending(s: State, rd: bool) {
    exists u :: 0 <= u < |s.threads| && s.threads[u].pc.Wake? && s.threads[u].call.ReadCall? != rd
  }

  predicate SleepsIn(th: Thread, rd: bool) {
    Asleep(th) && th.call.ReadCall? == rd
  }

  /** No sleeper of this kind has been missed: what it waits for still lasts, or its wake-up is on the
      way. */
  ghost predicate NoneMissed(s: State, rd: bool) {
    forall v :: 0 <= v < |s.threads| && SleepsIn(s.threads[v], rd) ==>
      MustWait(s.cap, |s.fifo|, s.threads[v].call) || WakePending(s, rd)
  }

  /** The step is a clear that empties the buffer while a writer sleeps. */
  ghost predicate ClearsUnderSleepingWriter(s: State, a: Action)
    requires Enabled(s, a)
  {
    a.Go? && s.threads[a.t].pc.ClearAll? && exists v :: 0 <= v < |s.threads| && SleepsIn(s.threads[v], false)
  }

  // ---------------------------------------------------------------------------------------------
  // One step

  /** A thread asleep after the step was asleep before it, unless it is the one that just went to
      sleep; and it was not on the queue the step woke. */
  lemma StillAsleep(s: State, a: Action, v: nat, rd: bool)
    requires Inv(s) && Enabled(s, a) && v < |s.threads| && v != a.t
    requires SleepsIn(Do(s, a).threads[v], rd)
    ensures Do(s, a).threads[v] == s.threads[v]
    ensures a.Go? && s.threads[a.t].pc.Wake? ==> s.threads[a.t].call.ReadCall? == rd
  {
    assert ThreadOk(s.cap, |s.fifo|, s.threads[v]);
    assert ThreadOk(s.cap, |s.fifo|, s.threads[a.t]);
  }

  /** A read that has moved its bytes wakes the sleeping writers and nobody else, a write the sleeping
      readers; no other step changes another thread. */
  lemma WakesTheOtherKind(s: State, a: Action, u: nat)
    requires Inv(s) && Enabled(s, a) && u < |s.threads| && u != a.t
    ensures var waker, th := s.threads[a.t], s.threads[u];
      var woken := a.Go? && waker.pc.Wake? && Asleep(th) && th.call.ReadCall? != waker.call.ReadCall?;
      Do(s, a).threads[u] == if woken then th.(task := Running) else th
  {
    assert ThreadOk(s.cap, |s.fifo|, s.threads[u]);
    assert ThreadOk(s.cap, |s.fifo|, s.threads[a.t]);
  }

  /** Whoever is about to wake somebody holds the semaphore. */
  lemma PendingIsHolder(s: State, t: nat, rd: bool)
    requires Inv(s) && t < |s.threads| && s.threads[t].held && WakePending(s, rd)
    ensures s.threads[t].pc.Wake? && s.threads[t].call.ReadCall? != rd
  {
    var u :| 0 <= u < |s.threads| && s.threads[u].pc.Wake? && s.threads[u].call.ReadCall? != rd;
    assert ThreadOk(s.cap, |s.fifo|, s.threads[u]);
  }

  /** A pending wake-up stays pending until its thread steps. */
  lemma PendingStays(s: State, a: Action, rd: bool)
    requires Inv(s) && Enabled(s, a) && WakePending(s, rd)
    requires !(a.Go? && s.threads[a.t].pc.Wake?)
    ensures WakePending(Do(s, a), rd)
  {
    var u :| 0 <= u < |s.threads| && s.threads[u].pc.Wake? && s.threads[u].call.ReadCall? != rd;
    var s' := Do(s, a);
    assert s'.threads[u].pc.Wake? && s'.threads[u].call == s.threads[u].call;
  }

  /** A waiting condition that holds for a sleeper outlives every step but a move of the other kind
      and a clear. */
  lemma ConditionLasts(cap: nat, fifo: seq<byte>, th: Thread, call: Call)
    requires ThreadOk(cap, |fifo|, th) && MustWait(cap, |fifo|, call)
    requires call.ReadCall? || call.WriteCall?
    requires th.pc.Update? ==> th.call.ReadCall? == call.ReadCall?
    requires th.pc.ClearAll? ==> call.ReadCall?
    ensures MustWait(cap, |NextFifo(cap, fifo, th)|, call)
  {
  }

  /** A move of bytes by the other kind makes its wake-up pending. */
  lemma MoveMakesPending(s: State, a: Action, rd: bool)
    requires Inv(s) && Enabled(s, a) && a.Go? && s.threads[a.t].pc.Update?
    requires s.threads[a.t].call.ReadCall? != rd
    ensures WakePending(Do(s, a), rd)
  {
    assert ThreadOk(s.cap, |s.fifo|, s.threads[a.t]);
    var th' := Do(s, a).threads[a.t];
    assert th'.pc.Wake? && th'.call == s.threads[a.t].call;
  }

  /** With no wake-up pending, the condition of a sleeper outlives the step. */
  lemma SleeperStillWaits(s: State, a: Action, rd: bool, v: nat)
    requires Inv(s) && Enabled(s, a) && v < |s.threads| && SleepsIn(s.threads[v], rd)
    requires MustWait(s.cap, |s.fifo|, s.threads[v].call)
    requires !(a.Go? && s.threads[a.t].pc.Update? && s.threads[a.t].call.ReadCall? != rd)
    requires rd || !ClearsUnderSleepingWriter(s, a)
    ensures MustWait(s.cap, |Do(s, a).fifo|, s.threads[v].call)
  {
    assert ThreadOk(s.cap, |s.fifo|, s.threads[a.t]);
    assert ThreadOk(s.cap, |s.fifo|, s.threads[v]);
    if a.Go? {
      ConditionLasts(s.cap, s.fifo, s.threads[a.t], s.threads[v].call);
    }
  }

  lemma SleeperNotMissed(s: State, a: Action, rd: bool, v: nat)
    requires Inv(s) && Enabled(s, a) && NoneMissed(s, rd)
    requires rd || !ClearsUnderSleepingWriter(s, a)
    requires v < |s.threads| && v != a.t && SleepsIn(Do(s, a).threads[v], rd)
    ensures MustWait(s.cap, |Do(s, a).fifo|, Do(s, a).threads[v].call) || WakePending(Do(s, a), rd)
  {
    StillAsleep(s, a, v, rd);
    if a.Go? && s.threads[a.t].pc.Update? && s.threads[a.t].call.ReadCall? != rd {
      MoveMakesPending(s, a, rd);
    } else if MustWait(s.cap, |s.fifo|, s.threads[v].call) {
      SleeperStillWaits(s, a, rd, v);
    } else {
      WakerStillPending(s, a, rd);
    }
  }

  /** A pending wake-up outlives the step, unless the step delivers it. */
  lemma WakerStillPending(s: State, a: Action, rd: bool)
    requires Inv(s) && Enabled(s, a) && WakePending(s, rd)
    requires a.Go? && s.threads[a.t].pc.Wake? ==> s.threads[a.t].call.ReadCall? == rd
    ensures WakePending(Do(s, a), rd)
  {
    if a.Go? && s.threads[a.t].pc.Wake? {
      assert ThreadOk(s.cap, |s.fifo|, s.threads[a.t]);
      PendingIsHolder(s, a.t, rd);
      assert false;
    }
    PendingStays(s, a, rd);
  }

  lemma StepMissesNobody(s: State, a: Action, rd: bool)
    requires Inv(s) && Enabled(s, a) && NoneMissed(s, rd)
    requires rd || !ClearsUnderSleepingWriter(s, a)
    ensures NoneMissed(Do(s, a), rd)
  {
    var s' := Do(s, a);
    forall v | 0 <= v < |s'.threads| && SleepsIn(s'.threads[v], rd)
      ensures MustWait(s'.cap, |s'.fifo|, s'.threads[v].call) || WakePending(s', rd)
    {
      StepShape(s, a);
      if v != a.t {
        SleeperNotMissed(s, a, rd, v);
      } else {
        StepperNotMissed(s, a, rd);
      }
    }
  }

  /** A thread that is asleep after its own step has just found that it must wait. */
  lemma NextAsleep(cap: nat, fifo: seq<byte>, th: Thread, fault: bool)
    requires ThreadOk(cap, |fifo|, th) && Asleep(NextThread(cap, fifo, th, fault))
    ensures NextThread(cap, fifo, th, fault).call == th.call
    ensures MustWait(cap, |fifo|, th.call) && NextFifo(cap, fifo, th) == fifo
  {
    match th.pc
    case SetState =>
    case UpSleep =>
    case _ =>
  }

  lemma StepperNotMissed(s: State, a: Action, rd: bool)
    requires Inv(s) && Enabled(s, a) && NoneMissed(s, rd)
    requires SleepsIn(Do(s, a).threads[a.t], rd)
    ensures MustWait(s.cap, |Do(s, a).fifo|, Do(s, a).threads[a.t].call) || WakePending(Do(s, a), rd)
  {
    hide Do;
    var th := s.threads[a.t];
    assert ThreadOk(s.cap, |s.fifo|, th);
    if a.Go? {
      GoShape(s, a.t, a.fault);
      NextAsleep(s.cap, s.fifo, th, a.fault);
    } else {
      NotGoShape(s, a);
    }
  }

  /** Writers sleep on a full buffer only. */
  ghost predicate WritersSleepOnFull(s: State) {
    forall v :: 0 <= v < |s.threads| && SleepsIn(s.threads[v], false) ==> |s.fifo| == s.cap
  }

  /** A clear keeps the writers' half exactly when no writer sleeps, for it wakes nobody; and then, once
      the clear has given the semaphore back, a writer sleeps on a buffer that is not full. */
  lemma ClearMissesSleepingWriters(s: State, t: nat, fault: bool)
    requires Inv(s) && NoneMissed(s, false) && s.cap > 0
    requires Enabled(s, Go(t, fault)) && s.threads[t].pc.ClearAll?
    ensures var s1 := Do(s, Go(t, fault));
      && (NoneMissed(s1, false) <==> forall v :: 0 <= v < |s.threads| ==> !SleepsIn(s.threads[v], false))
      && Inv(s1) && Enabled(s1, Go(t, fault))
      && var s2 := Do(s1, Go(t, fault));
        && s2.sem == 1 && s2.fifo == []
        && (WritersSleepOnFull(s2) <==> forall v :: 0 <= v < |s.threads| ==> !SleepsIn(s.threads[v], false))
  {
    var s1 := Do(s, Go(t, fault));
    StepKeepsInv(s, Go(t, fault));
    ClearKeepsSleepers(s, t, fault);
    ClearGivesBack(s1, t, fault);
    var s2 := Do(s1, Go(t, fault));
    if v :| 0 <= v < |s.threads| && SleepsIn(s.threads[v], false) {
      assert SleepsIn(s1.threads[v], false) && SleepsIn(s2.threads[v], false);
      assert ThreadOk(s1.cap, |s1.fifo|, s1.threads[v]);
      assert !WakePending(s1, false) by {
        if WakePending(s1, false) {
          PendingIsHolder(s1, t, false);
        }
      }
    } else {
      StepMissesNobody(s, Go(t, fault), false);
      assert forall v :: 0 <= v < |s2.threads| ==> !SleepsIn(s2.threads[v], false);
    }
  }

  lemma ClearKeepsSleepers(s: State, t: nat, fault: bool)
    requires Inv(s) && Enabled(s, Go(t, fault)) && s.threads[t].pc.ClearAll?
    ensures var s1 := Do(s, Go(t, fault));
      && s1.cap == s.cap && s1.fifo == [] && |s1.threads| == |s.threads|
      && s1.threads[t].pc.UpOut? && s1.threads[t].call.ClearCall? && s1.threads[t].held
      && forall v :: 0 <= v < |s.threads| ==> SleepsIn(s1.threads[v], false) == SleepsIn(s.threads[v], false)
  {
    assert ThreadOk(s.cap, |s.fifo|, s.threads[t]);
  }

  lemma ClearGivesBack(s: State, t: nat, fault: bool)
    requires Inv(s) && t < |s.threads| && s.threads[t].pc.UpOut? && s.threads[t].call.ClearCall?
    ensures Enabled(s, Go(t, fault))
    ensures var s1 := Do(s, Go(t, fault));
      && s1.sem == 1 && s1.fifo == s.fifo && s1.cap == s.cap && |s1.threads| == |s.threads|
      && forall v :: 0 <= v < |s.threads| ==> SleepsIn(s1.threads[v], false) == SleepsIn(s.threads[v], false)
  {
    assert ThreadOk(s.cap, |s.fifo|, s.threads[t]);
  }

  // ---------------------------------------------------------------------------------------------
  // Runs

  /** No clear of the run empties the buffer under a sleeping writer; every run without clears is
      like that. */
  ghost predicate ClearsAreCalm(s: State, acts: seq<Action>)
    requires Inv(s) && RunOk(s, acts)
    decreases |acts|
  {
    acts == [] || (
      && !ClearsUnderSleepingWriter(s, acts[0])
      && (StepKeepsInv(s, acts[0]); ClearsAreCalm(Do(s, acts[0]), acts[1..])))
  }

  lemma {:induction false} RunMissesNobody(s: State, acts: seq<Action>, rd: bool)
    requires Inv(s) && RunOk(s, acts) && NoneMissed(s, rd)
    requires rd || ClearsAreCalm(s, acts)
    ensures NoneMissed(Run(s, acts), rd)
    decreases |acts|
  {
    if acts != [] {
      StepKeepsInv(s, acts[0]);
      StepMissesNobody(s, acts[0], rd);
      RunMissesNobody(Do(s, acts[0]), acts[1..], rd);
    }
  }

  lemma NobodySleepsAtFirst(cap: nat, k: nat, rd: bool)
    ensures NoneMissed(Init(cap, k), rd)
  {
    assert forall t :: 0 <= t < k ==> Init(cap, k).threads[t] == FreshThread();
  }

  /** While the semaphore is free no wake-up is pending, so nobody missed means everybody rightly
      asleep. */
  lemma FreeMeansNonePending(s: State, rd: bool)
    requires Inv(s) && NoneMissed(s, rd) && s.sem == 1
    ensures forall v :: 0 <= v < |s.threads| && SleepsIn(s.threads[v], rd) ==>
      MustWait(s.cap, |s.fifo|, s.threads[v].call)
  {
    assert !WakePending(s, rd);
  }

  /** In every run, clears included: whenever the semaphore is free, a sleeping reader means an empty
      buffer. */
  lemma SleepingReaderMeansEmpty(cap: nat, k: nat, acts: seq<Action>, v: nat)
    requires RunOk(Loaded(cap, k), acts) && v < k
    ensures var s := Run(Loaded(cap, k), acts);
      s.sem == 1 && SleepsIn(s.threads[v], true) ==> s.fifo == []
  {
    NobodySleepsAtFirst(cap, k, true);
    RunMissesNobody(Loaded(cap, k), acts, true);
    var s := Run(Loaded(cap, k), acts);
    if s.sem == 1 {
      FreeMeansNonePending(s, true);
    }
  }

  /** In every run whose clears are calm: whenever the semaphore is free, a sleeping writer means a
      full buffer, and readers and writers never sleep at the same time. */
  lemma SleepingWriterMeansFull(cap: nat, k: nat, acts: seq<Action>, v: nat, u: nat)
    requires RunOk(Loaded(cap, k), acts) && v < k && u < k
    requires ClearsAreCalm(Loaded(cap, k), acts)
    ensures var s := Run(Loaded(cap, k), acts);
      && (s.sem == 1 && SleepsIn(s.threads[v], false) ==> |s.fifo| == cap)
      && (s.sem == 1 && cap > 0 ==> !SleepsIn(s.threads[v], false) || !SleepsIn(s.threads[u], true))
  {
    NobodySleepsAtFirst(cap, k, false);
    RunMissesNobody(Loaded(cap, k), acts, false);
    SleepingReaderMeansEmpty(cap, k, acts, u);
    var s := Run(Loaded(cap, k), acts);
    if s.sem == 1 {
      FreeMeansNonePending(s, false);
      assert SleepsIn(s.threads[v], false) ==> s.threads[v].call.WriteCall? by {
        assert ThreadOk(s.cap, |s.fifo|, s.threads[v]);
      }
    }
  }

  // ---------------------------------------------------------------------------------------------
  // Stuck states

  ghost predicate CanGo(s: State, t: nat) {
    Enabled(s, Go(t, false))
  }

  /** No call in progress can take a step. */
  ghost predicate Stuck(s: State) {
    forall t: nat :: t < |s.threads| ==> !CanGo(s, t)
  }

  /** Every call in progress is a sleeping, unsignalled read (write), and if there is one the buffer
      is empty (full). */
  ghost predicate AllSleepIn(s: State, rd: bool) {
    forall t :: 0 <= t < |s.threads| && !s.threads[t].pc.Idle? ==>
      && s.threads[t].pc.Sched? && !s.threads[t].sig && SleepsIn(s.threads[t], rd)
      && MustWait(s.cap, |s.fifo|, s.threads[t].call)
  }

  lemma HolderCanGo(s: State, t: nat)
    requires Inv(s) && t < |s.threads| && s.threads[t].held
    ensures CanGo(s, t)
  {
    assert ThreadOk(s.cap, |s.fifo|, s.threads[t]);
  }

  lemma StuckMeansFree(s: State)
    requires Inv(s) && Stuck(s)
    ensures s.sem == 1
  {
    if s.sem == 0 {
      var t: nat :| t < |s.threads| && s.threads[t].held;
      HolderCanGo(s, t);
    }
  }

  /** A reachable state of a run with calm clears is stuck exactly when all calls in progress are
      reads sleeping on an empty buffer, or all are writes sleeping on a full one: readers and
      writers never block each other. */
  lemma StuckIsOneSided(cap: nat, k: nat, acts: seq<Action>)
    requires RunOk(Loaded(cap, k), acts) && cap > 0
    requires ClearsAreCalm(Loaded(cap, k), acts)
    ensures var s := Run(Loaded(cap, k), acts);
      Stuck(s) <==> AllSleepIn(s, true) || AllSleepIn(s, false)
  {
    var s := Run(Loaded(cap, k), acts);
    NobodySleepsAtFirst(cap, k, false);
    RunMissesNobody(Loaded(cap, k), acts, false);
    NobodySleepsAtFirst(cap, k, true);
    RunMissesNobody(Loaded(cap, k), acts, true);
    if Stuck(s) {
      StuckSleepers(s);
    }
  }

  lemma StuckSleepers(s: State)
    requires Inv(s) && NoneMissed(s, true) && NoneMissed(s, false) && s.cap > 0 && Stuck(s)
    ensures AllSleepIn(s, true) || AllSleepIn(s, false)
  {
    StuckMeansFree(s);
    FreeMeansNonePending(s, true);
    FreeMeansNonePending(s, false);
    forall t: nat | t < |s.threads| && !s.threads[t].pc.Idle?
      ensures s.threads[t].pc.Sched? && !s.threads[t].sig && Asleep(s.threads[t])
      ensures s.threads[t].call.ReadCall? ==> s.fifo == []
      ensures !s.threads[t].call.ReadCall? ==> |s.fifo| == s.cap
    {
      assert !CanGo(s, t);
      assert ThreadOk(s.cap, |s.fifo|, s.threads[t]);
      assert SleepsIn(s.threads[t], s.threads[t].call.ReadCall?);
    }
  }
}
