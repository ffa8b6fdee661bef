/** Runs of globalfifo that show what it does not guarantee, for every buffer size: with a second reader,
    or with a clear, a blocking read can return 0, and after a clear a reader and a writer can sleep for
    ever side by side.  With the invariants, this gives the exact agreements under which they cannot. */
module FifoWitness {
  import opened Bytes
  import opened FifoDevice
  import opened FifoProtocol
  import opened FifoSafety
  import opened FifoWakeups
  import opened FifoReads

  /** Some run by the agreement leads from `s` to `s'`. */
  ghost predicate Reaches(c: Clients, s: State, s': State) {
    Inv(s) && Inv(s') && exists acts :: RunOk(s, acts) && PoliteRun(acts, c) && Run(s, acts) == s'
  }

  lemma ReachesItself(c: Clients, s: State)
    requires Inv(s)
    ensures Reaches(c, s, s)
  {
    assert RunOk(s, []) && PoliteRun([], c) && Run(s, []) == s;
  }

  lemma {:induction false} RunOneMore(s: State, acts: seq<Action>, a: Action)
    requires Inv(s) && RunOk(s, acts) && Enabled(Run(s, acts), a)
    ensures RunOk(s, acts + [a]) && Run(s, acts + [a]) == Do(Run(s, acts), a)
    decreases |acts|
  {
    if acts == [] {
      StepKeepsInv(s, a);
      assert (acts + [a])[1..] == [];
      assert RunOk(Do(s, a), []);
    } else {
      StepKeepsInv(s, acts[0]);
      RunOneMore(Do(s, acts[0]), acts[1..], a);
      assert (acts + [a])[1..] == acts[1..] + [a];
    }
  }

  lemma ReachesOneMore(c: Clients, s: State, s': State, a: Action)
    requires Reaches(c, s, s') && Enabled(s', a) && PoliteAction(a, c)
    ensures Reaches(c, s, Do(s', a))
  {
    hide RunOk, Run, Do;
    var acts :| RunOk(s, acts) && PoliteRun(acts, c) && Run(s, acts) == s';
    RunOneMore(s, acts, a);
    StepKeepsInv(s', a);
    assert RunOk(s, acts + [a]) && PoliteRun(acts + [a], c) && Run(s, acts + [a]) == Do(s', a);
  }

  lemma ReachedOk(c: Clients, s: State, s': State, t: nat)
    requires Reaches(c, s, s') && t < |s'.threads|
    ensures Inv(s') && ThreadOk(s'.cap, |s'.fifo|, s'.threads[t])
    ensures s'.sem == 0 || s'.sem == 1
    ensures s'.threads[t].held ==> s'.sem == 0
  {
  }

  /** `s` with thread `t` and the semaphore replaced. */
  function With(s: State, t: nat, th: Thread, sem: int): State
    requires t < |s.threads|
  {
    s.(threads := s.threads[t := th], sem := sem)
  }

  /** A step that touches nothing but its own thread and the semaphore. */
  lemma Solo(c: Clients, s0: State, s: State, t: nat, th: Thread, sem: int)
    requires t < |s.threads| && Reaches(c, s0, With(s, t, th, sem))
    requires !th.pc.Idle? && !th.pc.Update? && !th.pc.Wake? && !th.pc.ClearAll?
    requires (th.pc.Down1? || th.pc.Down2? ==> sem > 0) && (th.pc.Sched? ==> th.task.Running?)
    ensures ThreadOk(s.cap, |s.fifo|, th)
    ensures Reaches(c, s0, With(s, t, NextThread(s.cap, s.fifo, th, false), NextSem(sem, th.pc)))
  {
    var u := With(s, t, th, sem);
    assert u.threads[t] == th;
    assert ThreadOk(u.cap, |u.fifo|, u.threads[t]);
    ReachesOneMore(c, s0, u, Go(t, false));
    assert Do(u, Go(t, false)).threads == s.threads[t := NextThread(s.cap, s.fifo, th, false)];
  }

  /** The record of a thread asleep in a call it has just entered. */
  function Sleeping(th: Thread, call: Call): Thread {
    Enter(th, call).(pc := Sched, queue := if call.ReadCall? then RWait else WWait, task := Interruptible)
  }

  /** An idle thread that finds the semaphore free gets to the test. */
  lemma GetsToTest(c: Clients, s0: State, s: State, t: nat, call: Call)
    requires Reaches(c, s0, s) && t < |s.threads| && s.threads[t].pc.Idle? && s.sem == 1
    requires (call.ReadCall? || call.WriteCall?) && Polite(t, call, c)
    ensures !s.threads[t].held && s.threads[t].task.Running?
    ensures Reaches(c, s0, With(s, t, Enter(s.threads[t], call).(
      pc := Test, held := true, queue := if call.ReadCall? then RWait else WWait), 0))
  {
    hide Reaches;
    var th := s.threads[t];
    ReachedOk(c, s0, s, t);
    var e := Enter(th, call);
    ReachesOneMore(c, s0, s, Start(t, call));
    assert Do(s, Start(t, call)) == With(s, t, e, 1);
    Solo(c, s0, s, t, e, 1);
    Solo(c, s0, s, t, e.(pc := AddWait, held := true), 0);
  }

  /** ... and goes to sleep when its condition is unmet. */
  lemma FallsAsleep(c: Clients, s0: State, s: State, t: nat, call: Call)
    requires Reaches(c, s0, s) && t < |s.threads| && s.threads[t].pc.Idle? && s.sem == 1
    requires (call.ReadCall? || call.WriteCall?) && !call.nonblock && MustWait(s.cap, |s.fifo|, call)
    requires Polite(t, call, c)
    ensures Reaches(c, s0, With(s, t, Sleeping(s.threads[t], call), 1))
  {
    hide Reaches;
    GetsToTest(c, s0, s, t, call);
    var e := Enter(s.threads[t], call).(held := true, queue := if call.ReadCall? then RWait else WWait);
    SleepsFromTest(c, s0, s, t, e);
  }

  lemma SleepsFromTest(c: Clients, s0: State, s: State, t: nat, e: Thread)
    requires t < |s.threads| && Reaches(c, s0, With(s, t, e.(pc := Test), 0))
    requires (e.call.ReadCall? || e.call.WriteCall?) && !e.call.nonblock && MustWait(s.cap, |s.fifo|, e.call)
    ensures Reaches(c, s0, With(s, t, e.(pc := Sched, task := Interruptible, held := false), 1))
  {
    hide Reaches;
    Solo(c, s0, s, t, e.(pc := Test), 0);
    SleepsFromSetState(c, s0, s, t, e.(pc := SetState));
  }

  lemma SleepsFromSetState(c: Clients, s0: State, s: State, t: nat, e: Thread)
    requires t < |s.threads| && Reaches(c, s0, With(s, t, e, 0)) && e.pc.SetState?
    ensures Reaches(c, s0, With(s, t, e.(pc := Sched, task := Interruptible, held := false), 1))
  {
    hide Reaches;
    Solo(c, s0, s, t, e, 0);
    Solo(c, s0, s, t, e.(pc := UpSleep, task := Interruptible), 0);
  }

  /** The bytes a transfer of `n` leaves in the buffer. */
  function Moved(fifo: seq<byte>, call: Call, n: nat): seq<byte>
    requires (call.ReadCall? && n <= |fifo|) || (call.WriteCall? && n <= |call.data|)
  {
    if call.ReadCall? then fifo[n..] else fifo + call.data[..n]
  }

  /** The state after thread `t`, holding the semaphore at the copy, has finished its call: it moved
      what it could, woke the other side and returned the count. */
  ghost predicate Transferred(s: State, t: nat, s': State)
    requires t < |s.threads|
  {
    var th := s.threads[t];
    && (th.call.ReadCall? || th.call.WriteCall?) && |s.fifo| <= s.cap
    && var n := Clamp(s.cap, |s.fifo|, th.call);
      && s'.cap == s.cap && s'.sem == 1 && |s'.threads| == |s.threads|
      && s'.fifo == Moved(s.fifo, th.call, n)
      && s'.threads[t].pc.Idle? && s'.threads[t].call == th.call && s'.threads[t].ret == n
      && s'.threads[t].sig == th.sig
      && forall u :: 0 <= u < |s.threads| && u != t ==>
          s'.threads[u] == WakeOne(s.threads[u], if th.call.ReadCall? then WWait else RWait)
  }

  lemma LeavesCall(c: Clients, s0: State, s: State, t: nat) returns (s': State)
    requires Reaches(c, s0, s) && t < |s.threads| && s.threads[t].pc.UpOut?
    requires s.threads[t].call.ReadCall? || s.threads[t].call.WriteCall?
    ensures Reaches(c, s0, s') && s' == With(s, t, s'.threads[t], 1)
    ensures s'.threads[t].pc.Idle? && s'.threads[t].call == s.threads[t].call && s'.threads[t].ret == s.threads[t].ret
    ensures s'.threads[t].sig == s.threads[t].sig && s'.threads[t].notes == s.threads[t].notes
  {
    hide Reaches;
    var th := s.threads[t];
    ReachedOk(c, s0, s, t);
    assert s == With(s, t, th, 0);
    Solo(c, s0, s, t, th, 0);
    Solo(c, s0, s, t, th.(pc := Leave, held := false), 1);
    s' := With(s, t, th.(pc := Idle, held := false, queue := NoQueue, task := Running), 1);
  }

  lemma MovesBytes(c: Clients, s0: State, s: State, t: nat) returns (s': State)
    requires Reaches(c, s0, s) && t < |s.threads| && s.threads[t].pc.Copy?
    ensures Sane(s.cap, |s.fifo|, s.threads[t])
    ensures Reaches(c, s0, s') && s'.cap == s.cap && |s'.threads| == |s.threads|
    ensures var n := Clamp(s.cap, |s.fifo|, s.threads[t].call);
      && s'.fifo == Moved(s.fifo, s.threads[t].call, n)
      && s'.threads[t].pc.Wake? && s'.threads[t].n == n && s'.threads[t].call == s.threads[t].call
      && s'.threads[t].sig == s.threads[t].sig
      && forall u :: 0 <= u < |s.threads| && u != t ==> s'.threads[u] == s.threads[u]
  {
    hide Reaches;
    var th := s.threads[t];
    ReachedOk(c, s0, s, t);
    var n := Clamp(s.cap, |s.fifo|, th.call);
    ReachesOneMore(c, s0, s, Go(t, false));
    var s1 := Do(s, Go(t, false));
    assert s1.threads[t] == th.(pc := Update, n := n) && s1.fifo == s.fifo;
    ReachedOk(c, s0, s1, t);
    ReachesOneMore(c, s0, s1, Go(t, false));
    s' := Do(s1, Go(t, false));
  }

  lemma Transfers(c: Clients, s0: State, s: State, t: nat) returns (s': State)
    requires Reaches(c, s0, s) && t < |s.threads| && s.threads[t].pc.Copy?
    ensures Reaches(c, s0, s') && Transferred(s, t, s')
  {
    hide Reaches;
    assert Sane(s.cap, |s.fifo|, s.threads[t]) by {
      ReachedOk(c, s0, s, t);
    }
    var s2 := MovesBytes(c, s0, s, t);
    ReachesOneMore(c, s0, s2, Go(t, false));
    var s3 := Do(s2, Go(t, false));
    s' := LeavesCall(c, s0, s3, t);
  }

  /** An idle thread whose condition is met makes a whole transfer. */
  lemma CallTransfers(c: Clients, s0: State, s: State, t: nat, call: Call) returns (s': State)
    requires Reaches(c, s0, s) && t < |s.threads| && s.threads[t].pc.Idle? && s.sem == 1
    requires (call.ReadCall? || call.WriteCall?) && !MustWait(s.cap, |s.fifo|, call)
    requires Polite(t, call, c)
    ensures Reaches(c, s0, s')
    ensures Transferred(With(s, t, Enter(s.threads[t], call), 0), t, s')
  {
    hide Reaches;
    GetsToTest(c, s0, s, t, call);
    var e := Enter(s.threads[t], call).(held := true, queue := if call.ReadCall? then RWait else WWait);
    Solo(c, s0, s, t, e.(pc := Test), 0);
    s' := Transfers(c, s0, With(s, t, e.(pc := Copy), 0), t);
  }

  /** A woken thread that finds the semaphore free finishes its transfer. */
  lemma WokenTransfers(c: Clients, s0: State, s: State, t: nat) returns (s': State)
    requires Reaches(c, s0, s) && t < |s.threads| && s.sem == 1
    requires s.threads[t].pc.Sched? && s.threads[t].task.Running? && !s.threads[t].sig
    ensures Reaches(c, s0, s') && Transferred(s, t, s')
  {
    hide Reaches;
    var th := s.threads[t];
    var w := th.(task := Running, notes := th.notes.(slept := true));
    assert s == With(s, t, th, 1);
    Solo(c, s0, s, t, th, 1);
    Solo(c, s0, s, t, w.(pc := SigCheck), 1);
    Solo(c, s0, s, t, w.(pc := Down2), 1);
    s' := Transfers(c, s0, With(s, t, w.(pc := Copy, held := true), 0), t);
  }

  /** A clear by an idle thread that finds the semaphore free. */
  lemma Clears(c: Clients, s0: State, s: State, t: nat) returns (s': State)
    requires Reaches(c, s0, s) && t < |s.threads| && s.threads[t].pc.Idle? && s.sem == 1 && c.clears
    ensures Reaches(c, s0, s') && s'.cap == s.cap && s'.sem == 1 && s'.fifo == [] && |s'.threads| == |s.threads|
    ensures forall u :: 0 <= u < |s.threads| && u != t ==> s'.threads[u] == s.threads[u]
    ensures s'.threads[t].pc.Idle? && s'.threads[t].sig == s.threads[t].sig
    ensures s'.threads[t].notes.ready == s.threads[t].notes.ready
  {
    hide Reaches;
    var e := Enter(s.threads[t], ClearCall);
    ReachedOk(c, s0, s, t);
    ReachesOneMore(c, s0, s, Start(t, ClearCall));
    assert Do(s, Start(t, ClearCall)) == With(s, t, e, 1);
    Solo(c, s0, s, t, e, 1);
    s' := Empties(c, s0, With(s, t, e.(pc := ClearAll, held := true), 0), t);
  }

  lemma Empties(c: Clients, s0: State, s: State, t: nat) returns (s': State)
    requires Reaches(c, s0, s) && t < |s.threads| && s.threads[t].pc.ClearAll? && s.sem == 0
    ensures Reaches(c, s0, s') && s'.cap == s.cap && s'.sem == 1 && s'.fifo == [] && |s'.threads| == |s.threads|
    ensures forall u :: 0 <= u < |s.threads| && u != t ==> s'.threads[u] == s.threads[u]
    ensures s'.threads[t].pc.Idle? && s'.threads[t].sig == s.threads[t].sig
    ensures s'.threads[t].notes.ready == s.threads[t].notes.ready
  {
    hide Reaches;
    var th := s.threads[t];
    ReachedOk(c, s0, s, t);
    ReachesOneMore(c, s0, s, Go(t, false));
    var s1 := Do(s, Go(t, false));
    assert s1 == With(s1, t, th.(pc := UpOut, ret := 0), 0);
    Solo(c, s0, s1, t, th.(pc := UpOut, ret := 0), 0);
    s' := With(s1, t, th.(pc := Idle, ret := 0, held := false), 1);
  }

  // ---------------------------------------------------------------------------------------------
  // Reads that return nothing

  lemma InitReached(c: Clients, cap: nat, k: nat)
    ensures Reaches(c, Init(cap, k), Init(cap, k))
    ensures forall t :: 0 <= t < k ==> Init(cap, k).threads[t] == FreshThread()
  {
    InitOk(cap, k);
    ReachesItself(c, Init(cap, k));
  }

  /** A finished read that returned 0. */
  predicate ReadNothing(th: Thread) {
    th.pc.Idle? && th.call.ReadCall? && th.ret == 0
  }

  /** Thread `r` sleeps in a read, and thread `b` has written one byte: the reader is woken. */
  lemma ReaderIsWoken(c: Clients, cap: nat, k: nat, r: nat, b: nat) returns (s: State)
    requires cap > 0 && r < k && b < k && r != b && r in c.readers
    ensures Reaches(c, Init(cap, k), s) && s.cap == cap && s.sem == 1 && s.fifo == [1] && |s.threads| == k
    ensures var th := s.threads[r];
      th.pc.Sched? && th.task.Running? && !th.sig && th.call == ReadCall(1, false)
    ensures s.threads[b].pc.Idle? && !s.threads[b].sig
  {
    hide Reaches;
    var s0 := Init(cap, k);
    InitReached(c, cap, k);
    var get, put := ReadCall(1, false), WriteCall([1], false);
    FallsAsleep(c, s0, s0, r, get);
    var s1 := With(s0, r, Sleeping(s0.threads[r], get), 1);
    s := CallTransfers(c, s0, s1, b, put);
  }

  /** Before the woken reader gets the semaphore, `b` takes the byte away: by a read of its own, or by a
      clear. */
  lemma ByteIsTaken(c: Clients, s0: State, s: State, b: nat) returns (s': State)
    requires Reaches(c, s0, s) && s.sem == 1 && s.fifo == [1] && b < |s.threads| && s.threads[b].pc.Idle?
    requires b in c.readers || c.clears
    ensures Reaches(c, s0, s') && s'.cap == s.cap && s'.sem == 1 && s'.fifo == [] && |s'.threads| == |s.threads|
    ensures forall u :: 0 <= u < |s.threads| && u != b ==>
      s'.threads[u] == WakeOne(s.threads[u], WWait) || s'.threads[u] == s.threads[u]
  {
    hide Reaches;
    if b in c.readers {
      s' := CallTransfers(c, s0, s, b, ReadCall(1, false));
    } else {
      s' := Clears(c, s0, s, b);
    }
  }

  /** A thread on its own, in a read: only a signal ends its sleep. */
  ghost predicate Lone(len: nat, th: Thread) {
    th.call.ReadCall? ==>
      && th.call.count > 0 && !th.pc.Down2?
      && ((th.pc.UpSleep? || th.pc.Sched?) && th.task.Running? ==> th.sig) && (th.pc.SigCheck? ==> th.sig)
      && (th.pc.Copy? ==> len > 0) && (th.pc.Update? || th.pc.Wake? ==> th.n > 0)
      && (th.pc.UpOut? || th.pc.Leave? || th.pc.Idle? ==> th.ret != 0)
  }

  lemma LoneWaits(cap: nat, len: nat, th: Thread)
    requires ThreadOk(cap, len, th) && Lone(len, th) && Waiting(th.pc)
    requires th.pc.Sched? ==> th.task.Running? || th.sig
    ensures Lone(len, WaitStep(cap, len, th))
  {
    match th.pc
    case Down1 =>
    case AddWait =>
    case Test =>
    case SetState =>
    case UpSleep =>
    case Sched =>
    case SigCheck =>
    case Down2 =>
  }

  lemma LoneMoves(cap: nat, fifo: seq<byte>, th: Thread, fault: bool)
    requires ThreadOk(cap, |fifo|, th) && Lone(|fifo|, th) && Moving(th.pc)
    ensures Lone(|NextFifo(cap, fifo, th)|, MoveStep(cap, fifo, th, fault))
  {
    match th.pc
    case Copy =>
    case Update =>
    case Wake =>
  }

  lemma LoneExits(cap: nat, fifo: seq<byte>, th: Thread)
    requires ThreadOk(cap, |fifo|, th) && Lone(|fifo|, th) && !Waiting(th.pc) && !Moving(th.pc)
    ensures Lone(|NextFifo(cap, fifo, th)|, ExitStep(cap, |fifo|, th))
  {
    match th.pc
    case Idle =>
    case UpOut =>
    case Leave =>
    case ClearAll =>
    case PollTest =>
  }

  lemma NextStaysLone(cap: nat, fifo: seq<byte>, th: Thread, fault: bool)
    requires ThreadOk(cap, |fifo|, th) && Lone(|fifo|, th) && (th.pc.Sched? ==> th.task.Running? || th.sig)
    ensures Lone(|NextFifo(cap, fifo, th)|, NextThread(cap, fifo, th, fault))
  {
    hide Lone, WaitStep, MoveStep, ExitStep;
    if Waiting(th.pc) {
      LoneWaits(cap, |fifo|, th);
    } else if Moving(th.pc) {
      LoneMoves(cap, fifo, th, fault);
    } else {
      LoneExits(cap, fifo, th);
    }
  }

  lemma StepStaysLone(s: State, a: Action, c: Clients)
    requires Inv(s) && Enabled(s, a) && |s.threads| == 1 && Lone(|s.fifo|, s.threads[0])
    requires PoliteAction(a, c)
    ensures Lone(|Do(s, a).fifo|, Do(s, a).threads[0])
  {
    hide Do, Lone;
    assert ThreadOk(s.cap, |s.fifo|, s.threads[0]);
    if a.Go? {
      GoShape(s, 0, a.fault);
      NextStaysLone(s.cap, s.fifo, s.threads[0], a.fault);
    } else {
      NotGoShape(s, a);
      CallStaysLone(|s.fifo|, s.threads[0], a, c);
    }
  }

  lemma CallStaysLone(len: nat, th: Thread, a: Action, c: Clients)
    requires Lone(len, th) && !a.Go? && PoliteAction(a, c)
    ensures match a
      case Start(_, call) => Lone(len, Enter(th, call))
      case Signal(_) => Lone(len, th.(sig := true, task := Running))
      case HandleSignal(_) => th.pc.Idle? ==> Lone(len, th.(sig := false))
      case Go(_, _) => true
  {
  }

  lemma {:induction false} RunStaysLone(s: State, acts: seq<Action>, c: Clients)
    requires Inv(s) && RunOk(s, acts) && PoliteRun(acts, c) && |s.threads| == 1 && Lone(|s.fifo|, s.threads[0])
    ensures Lone(|Run(s, acts).fifo|, Run(s, acts).threads[0])
    decreases |acts|
  {
    hide Lone;
    if acts != [] {
      StepKeepsInv(s, acts[0]);
      StepShape(s, acts[0]);
      assert PoliteAction(acts[0], c);
      StepStaysLone(s, acts[0], c);
      RunStaysLone(Do(s, acts[0]), acts[1..], c);
    }
  }

  lemma LoneThreadGetsBytes(cap: nat, acts: seq<Action>, c: Clients)
    requires RunOk(Loaded(cap, 1), acts) && PoliteRun(acts, c)
    ensures !ReadNothing(Run(Loaded(cap, 1), acts).threads[0])
  {
    hide RunOk, Run;
    assert Init(cap, 1).threads[0] == FreshThread();
    RunStaysLone(Loaded(cap, 1), acts, c);
  }

  /** The emptiness test is not repeated after the sleep: the woken reader returns 0. */
  lemma ReadsNothing(c: Clients, cap: nat, k: nat, r: nat, b: nat) returns (acts: seq<Action>)
    requires cap > 0 && r < k && b < k && r != b && r in c.readers && (b in c.readers || c.clears)
    ensures RunOk(Loaded(cap, k), acts) && PoliteRun(acts, c)
    ensures ReadNothing(Run(Loaded(cap, k), acts).threads[r])
  {
    hide RunOk, Run;
    var s0 := Loaded(cap, k);
    var s1 := ReaderIsWoken(c, cap, k, r, b);
    var s2 := ByteIsTaken(c, s0, s1, b);
    var s3 := WokenTransfers(c, s0, s2, r);
    acts :| RunOk(s0, acts) && PoliteRun(acts, c) && Run(s0, acts) == s3;
  }

  /** Whoever is not among the readers never has a read to show. */
  lemma OnlyReadersRead(cap: nat, k: nat, c: Clients, acts: seq<Action>, t: nat)
    requires RunOk(Loaded(cap, k), acts) && PoliteRun(acts, c) && t < k
    ensures Run(Loaded(cap, k), acts).threads[t].call.ReadCall? ==> t in c.readers
  {
    hide RunOk, Run;
    InitPolite(cap, k, c);
    RunStaysPolite(Loaded(cap, k), acts, c);
    assert Polite(t, Run(Loaded(cap, k), acts).threads[t].call, c);
  }

  /** For every buffer size and number of threads: a read of a positive count never returns 0, in any
      run by the agreement, exactly when nobody reads, or there is only one thread, or one thread reads
      and nobody clears. */
  lemma ReadsGetBytesExactly(cap: nat, k: nat, c: Clients)
    requires cap > 0 && forall r :: r in c.readers ==> r < k
    ensures (forall acts, t: nat :: RunOk(Loaded(cap, k), acts) && PoliteRun(acts, c) && t < k ==>
        !ReadNothing(Run(Loaded(cap, k), acts).threads[t]))
      <==> c.readers == {} || k == 1 || (|c.readers| == 1 && !c.clears)
  {
    hide RunOk, Run;
    if c.readers == {} || k == 1 || (|c.readers| == 1 && !c.clears) {
      forall acts, t: nat | RunOk(Loaded(cap, k), acts) && PoliteRun(acts, c) && t < k
        ensures !ReadNothing(Run(Loaded(cap, k), acts).threads[t])
      {
        OnlyReadersRead(cap, k, c, acts, t);
        if k == 1 {
          LoneThreadGetsBytes(cap, acts, c);
        } else if t in c.readers {
          OneReader(c.readers, t);
          SingleReaderGetsBytes(cap, k, t, acts);
        }
      }
    } else {
      var r :| r in c.readers;
      var b := AnotherThread(c, k, r);
      var acts := ReadsNothing(c, cap, k, r, b);
    }
  }

  lemma OneReader(readers: set<nat>, t: nat)
    requires |readers| == 1 && t in readers
    ensures readers == {t}
  {
    assert |readers - {t}| == 0;
    assert readers == {t} + (readers - {t});
  }

  lemma AnotherThread(c: Clients, k: nat, r: nat) returns (b: nat)
    requires (forall u :: u in c.readers ==> u < k) && r in c.readers && k != 1
    requires |c.readers| != 1 || c.clears
    ensures b < k && b != r && (b in c.readers || c.clears)
  {
    if c.clears {
      b := if r == 0 then 1 else 0;
    } else {
      assert c.readers != {r};
      b :| b in c.readers && b != r;
    }
  }

  // ---------------------------------------------------------------------------------------------
  // Polls that promise too much

  /** A finished read that started after a poll had reported readable, and yet returned neither bytes nor
      EFAULT. */
  predicate PromiseBroken(th: Thread) {
    th.pc.Idle? && th.call.ReadCall? && th.notes.promised && th.ret < 1 && th.ret != -EFAULT
  }

  /** A whole poll by an idle thread that finds the semaphore free. */
  lemma Polls(c: Clients, s0: State, s: State, t: nat) returns (s': State)
    requires Reaches(c, s0, s) && t < |s.threads| && s.threads[t].pc.Idle? && s.sem == 1
    ensures Reaches(c, s0, s') && s' == With(s, t, s'.threads[t], 1)
    ensures s'.threads[t].pc.Idle? && s'.threads[t].notes.ready == (s.fifo != [])
  {
    hide Reaches;
    var e := Enter(s.threads[t], PollCall);
    ReachedOk(c, s0, s, t);
    ReachesOneMore(c, s0, s, Start(t, PollCall));
    assert Do(s, Start(t, PollCall)) == With(s, t, e, 1);
    Solo(c, s0, s, t, e, 1);
    var p := e.(pc := PollTest, held := true);
    Solo(c, s0, s, t, p, 0);
    var u := ExitStep(s.cap, |s.fifo|, p);
    Solo(c, s0, s, t, u, 0);
    s' := With(s, t, ExitStep(s.cap, |s.fifo|, u), 1);
  }

  /** A non-blocking read on an empty buffer returns EAGAIN. */
  lemma ReadsEagain(c: Clients, s0: State, s: State, t: nat) returns (s': State)
    requires Reaches(c, s0, s) && t < |s.threads| && s.threads[t].pc.Idle? && s.sem == 1
    requires s.fifo == [] && t in c.readers
    ensures Reaches(c, s0, s') && |s'.threads| == |s.threads|
    ensures var th := s'.threads[t];
      th.pc.Idle? && th.call.ReadCall? && th.ret == -EAGAIN && th.notes.promised == s.threads[t].notes.ready
  {
    hide Reaches;
    var get := ReadCall(1, true);
    GetsToTest(c, s0, s, t, get);
    var e := Enter(s.threads[t], get).(pc := Test, held := true, queue := RWait);
    Solo(c, s0, s, t, e, 0);
    s' := LeavesCall(c, s0, With(s, t, e.(pc := UpOut, ret := -EAGAIN), 0), t);
  }

  /** Thread `r` writes a byte and polls: readable. */
  lemma PolledReady(c: Clients, cap: nat, k: nat, r: nat) returns (s: State)
    requires cap > 0 && r < k
    ensures Reaches(c, Init(cap, k), s) && s.cap == cap && s.sem == 1 && s.fifo == [1] && |s.threads| == k
    ensures s.threads[r].pc.Idle? && s.threads[r].notes.ready
    ensures forall u :: 0 <= u < k && u != r ==> s.threads[u] == FreshThread()
  {
    hide Reaches;
    var s0 := Init(cap, k);
    InitReached(c, cap, k);
    var s1 := CallTransfers(c, s0, s0, r, WriteCall([1], false));
    s := Polls(c, s0, s1, r);
  }

  /** Between the poll and the read, another reader or a clear takes the byte. */
  lemma BreaksPromise(c: Clients, cap: nat, k: nat, r: nat, b: nat) returns (acts: seq<Action>)
    requires cap > 0 && r < k && b < k && r in c.readers && (c.clears || (b != r && b in c.readers))
    ensures RunOk(Loaded(cap, k), acts) && PoliteRun(acts, c)
    ensures PromiseBroken(Run(Loaded(cap, k), acts).threads[r])
  {
    hide RunOk, Run;
    var s0 := Loaded(cap, k);
    var s1 := PolledReady(c, cap, k, r);
    var s2;
    if c.clears {
      s2 := Clears(c, s0, s1, r);
    } else {
      s2 := ByteIsTaken(c, s0, s1, b);
    }
    var s3 := ReadsEagain(c, s0, s2, r);
    acts :| RunOk(s0, acts) && PoliteRun(acts, c) && Run(s0, acts) == s3;
  }

  /** For every buffer size and number of threads: in all runs by the agreement, the next read after a poll
      that reported readable gets at least one byte or EFAULT, exactly when nobody reads, or one thread
      reads and nobody clears. */
  lemma PollPromiseExactly(cap: nat, k: nat, c: Clients)
    requires cap > 0 && forall r :: r in c.readers ==> r < k
    ensures (forall acts, t: nat :: RunOk(Loaded(cap, k), acts) && PoliteRun(acts, c) && t < k ==>
        !PromiseBroken(Run(Loaded(cap, k), acts).threads[t]))
      <==> c.readers == {} || (|c.readers| == 1 && !c.clears)
  {
    hide RunOk, Run;
    if c.readers == {} || (|c.readers| == 1 && !c.clears) {
      forall acts, t: nat | RunOk(Loaded(cap, k), acts) && PoliteRun(acts, c) && t < k
        ensures !PromiseBroken(Run(Loaded(cap, k), acts).threads[t])
      {
        OnlyReadersRead(cap, k, c, acts, t);
        if t in c.readers {
          OneReader(c.readers, t);
          PollPromiseKept(cap, k, t, acts);
        }
      }
    } else {
      var r :| r in c.readers;
      var b := r;
      if !c.clears {
        assert c.readers != {r};
        b :| b in c.readers && b != r;
      }
      var acts := BreaksPromise(c, cap, k, r, b);
    }
  }

  // ---------------------------------------------------------------------------------------------
  // Sleepers that nobody wakes

  /** A reader and a writer are both asleep. */
  ghost predicate BothAsleep(s: State) {
    exists v, u :: 0 <= v < |s.threads| && 0 <= u < |s.threads| &&
      SleepsIn(s.threads[v], false) && SleepsIn(s.threads[u], true)
  }

  /** Thread `w` fills the buffer and falls asleep in its next write. */
  lemma WriterFallsAsleep(c: Clients, cap: nat, k: nat, w: nat) returns (s: State)
    requires cap > 0 && w < k
    ensures Reaches(c, Init(cap, k), s) && s.cap == cap && s.sem == 1 && |s.threads| == k
    ensures s.threads[w].pc.Sched? && SleepsIn(s.threads[w], false) && !s.threads[w].sig
    ensures forall u :: 0 <= u < k && u != w ==> s.threads[u] == FreshThread()
  {
    hide Reaches;
    var s0 := Init(cap, k);
    InitReached(c, cap, k);
    var s1 := CallTransfers(c, s0, s0, w, WriteCall(seq(cap, _ => 1), false));
    assert |s1.fifo| == cap;
    var one := WriteCall([1], false);
    FallsAsleep(c, s0, s1, w, one);
    s := With(s1, w, Sleeping(s1.threads[w], one), 1);
  }

  /** A clear wakes nobody, so the writer goes on sleeping on an empty buffer, and a reader then falls
      asleep beside it: a stuck state with both kinds asleep, for every buffer size. */
  lemma ClearLosesAWriter(c: Clients, cap: nat, k: nat, w: nat, r: nat) returns (s: State)
    requires cap > 0 && w < k && r < k && w != r && r in c.readers && c.clears
    ensures Reaches(c, Init(cap, k), s)
    ensures s.sem == 1 && s.fifo == [] && Stuck(s)
    ensures SleepsIn(s.threads[w], false) && SleepsIn(s.threads[r], true)
  {
    hide Reaches, With, Sleeping;
    var s0 := Init(cap, k);
    var s2 := WriterFallsAsleep(c, cap, k, w);
    var s3 := Clears(c, s0, s2, r);
    s := ReaderFallsAsleepToo(c, s0, s3, w, r);
  }

  lemma ReaderFallsAsleepToo(c: Clients, s0: State, s: State, w: nat, r: nat) returns (s': State)
    requires Reaches(c, s0, s) && s.sem == 1 && s.fifo == [] && s.cap > 0 && r in c.readers
    requires w < |s.threads| && r < |s.threads| && w != r
    requires s.threads[w].pc.Sched? && SleepsIn(s.threads[w], false) && !s.threads[w].sig
    requires forall u: nat :: u < |s.threads| && u != w ==> s.threads[u].pc.Idle? && !s.threads[u].sig
    ensures Reaches(c, s0, s') && s'.sem == 1 && s'.fifo == [] && Stuck(s') && |s'.threads| == |s.threads|
    ensures SleepsIn(s'.threads[w], false) && SleepsIn(s'.threads[r], true)
  {
    hide Reaches;
    var get := ReadCall(1, false);
    FallsAsleep(c, s0, s, r, get);
    s' := With(s, r, Sleeping(s.threads[r], get), 1);
    SleepersAreStuck(s', w, r);
  }

  lemma SleepersAreStuck(s: State, w: nat, r: nat)
    requires forall t: nat :: t < |s.threads| ==> s.threads[t].pc.Idle? || t == w || t == r
    requires forall t: nat :: t < |s.threads| && (t == w || t == r) ==>
      s.threads[t].pc.Sched? && Asleep(s.threads[t]) && !s.threads[t].sig
    ensures Stuck(s)
  {
  }

  lemma ClearDeadlocks(c: Clients, cap: nat, k: nat, w: nat, r: nat) returns (acts: seq<Action>)
    requires cap > 0 && w < k && r < k && w != r && r in c.readers && c.clears
    ensures RunOk(Loaded(cap, k), acts) && PoliteRun(acts, c)
    ensures Stuck(Run(Loaded(cap, k), acts)) && BothAsleep(Run(Loaded(cap, k), acts))
  {
    hide RunOk, Run, Stuck;
    var s := ClearLosesAWriter(c, cap, k, w, r);
    acts :| RunOk(Loaded(cap, k), acts) && PoliteRun(acts, c) && Run(Loaded(cap, k), acts) == s;
  }

  /** A run by an agreement without clears is calm. */
  lemma {:induction false} NoClearsAreCalm(s: State, acts: seq<Action>, c: Clients)
    requires Inv(s) && RunOk(s, acts) && PoliteRun(acts, c) && AllPolite(s, c) && !c.clears
    ensures ClearsAreCalm(s, acts)
    decreases |acts|
  {
    if acts != [] {
      var a := acts[0];
      StepKeepsInv(s, a);
      StepShape(s, a);
      assert PoliteAction(a, c) && Polite(a.t, s.threads[a.t].call, c);
      assert ThreadOk(s.cap, |s.fifo|, s.threads[a.t]);
      forall t: nat | t < |s.threads| ensures Polite(t, Do(s, a).threads[t].call, c) {
        StepKeepsCalls(s, a, t);
      }
      NoClearsAreCalm(Do(s, a), acts[1..], c);
    }
  }

  /** Without clears nobody is stuck beside the other kind. */
  lemma NoClearNoDeadlock(cap: nat, k: nat, c: Clients, acts: seq<Action>)
    requires cap > 0 && RunOk(Loaded(cap, k), acts) && PoliteRun(acts, c) && !c.clears
    ensures Stuck(Run(Loaded(cap, k), acts)) ==> !BothAsleep(Run(Loaded(cap, k), acts))
  {
    hide RunOk, Run;
    InitPolite(cap, k, c);
    NoClearsAreCalm(Loaded(cap, k), acts, c);
    var s := Run(Loaded(cap, k), acts);
    if Stuck(s) && BothAsleep(s) {
      StuckMeansFree(s);
      var v, u :| 0 <= v < |s.threads| && 0 <= u < |s.threads| &&
        SleepsIn(s.threads[v], false) && SleepsIn(s.threads[u], true);
      SleepingWriterMeansFull(cap, k, acts, v, u);
      assert false;
    }
  }

  /** A single thread does not clear while it sleeps. */
  lemma {:induction false} LoneClearsAreCalm(s: State, acts: seq<Action>)
    requires Inv(s) && RunOk(s, acts) && |s.threads| <= 1
    ensures ClearsAreCalm(s, acts)
    decreases |acts|
  {
    if acts != [] {
      StepKeepsInv(s, acts[0]);
      StepShape(s, acts[0]);
      assert ThreadOk(s.cap, |s.fifo|, s.threads[acts[0].t]);
      LoneClearsAreCalm(Do(s, acts[0]), acts[1..]);
    }
  }

  lemma CalmWritersSleepOnFull(cap: nat, k: nat, acts: seq<Action>)
    requires RunOk(Loaded(cap, k), acts) && ClearsAreCalm(Loaded(cap, k), acts)
    requires Run(Loaded(cap, k), acts).sem == 1
    ensures WritersSleepOnFull(Run(Loaded(cap, k), acts))
  {
    hide RunOk, Run, ClearsAreCalm;
    var s := Run(Loaded(cap, k), acts);
    forall v | 0 <= v < |s.threads| && SleepsIn(s.threads[v], false) ensures |s.fifo| == s.cap {
      SleepingWriterMeansFull(cap, k, acts, v, v);
    }
  }

  /** A clear by another thread strands a sleeping writer on an empty buffer; no reader takes part. */
  lemma ClearStrandsAWriter(c: Clients, cap: nat, k: nat, w: nat, b: nat) returns (acts: seq<Action>)
    requires cap > 0 && w < k && b < k && w != b && c.clears
    ensures RunOk(Loaded(cap, k), acts) && PoliteRun(acts, c)
    ensures var s := Run(Loaded(cap, k), acts);
      s.sem == 1 && s.fifo == [] && SleepsIn(s.threads[w], false) && !WritersSleepOnFull(s)
  {
    hide RunOk, Run;
    var s0 := Loaded(cap, k);
    var s2 := WriterFallsAsleep(c, cap, k, w);
    var s3 := Clears(c, s0, s2, b);
    acts :| RunOk(s0, acts) && PoliteRun(acts, c) && Run(s0, acts) == s3;
  }

  /** For every buffer size and number of threads: in all runs by the agreement, writers sleep on a full
      buffer only, whenever the semaphore is free, exactly when nobody clears or there is one thread. */
  lemma WritersWokenExactly(cap: nat, k: nat, c: Clients)
    requires cap > 0
    ensures (forall acts :: RunOk(Loaded(cap, k), acts) && PoliteRun(acts, c) && Run(Loaded(cap, k), acts).sem == 1 ==>
        WritersSleepOnFull(Run(Loaded(cap, k), acts)))
      <==> !c.clears || k < 2
  {
    hide RunOk, Run, ClearsAreCalm, WritersSleepOnFull;
    if !c.clears || k < 2 {
      forall acts | RunOk(Loaded(cap, k), acts) && PoliteRun(acts, c) && Run(Loaded(cap, k), acts).sem == 1
        ensures WritersSleepOnFull(Run(Loaded(cap, k), acts))
      {
        if !c.clears {
          InitPolite(cap, k, c);
          NoClearsAreCalm(Loaded(cap, k), acts, c);
        } else {
          LoneClearsAreCalm(Loaded(cap, k), acts);
        }
        CalmWritersSleepOnFull(cap, k, acts);
      }
    } else {
      var acts := ClearStrandsAWriter(c, cap, k, 0, 1);
    }
  }

  /** For every buffer size and number of threads: no run by the agreement gets stuck with a reader and a
      writer both asleep, exactly when nobody clears, nobody reads, or there is only one thread. */
  lemma DeadlockNeedsClear(cap: nat, k: nat, c: Clients)
    requires cap > 0 && forall r :: r in c.readers ==> r < k
    ensures (forall acts :: RunOk(Loaded(cap, k), acts) && PoliteRun(acts, c) && Stuck(Run(Loaded(cap, k), acts)) ==>
        !BothAsleep(Run(Loaded(cap, k), acts)))
      <==> !c.clears || c.readers == {} || k < 2
  {
    hide RunOk, Run, Stuck;
    if !c.clears || c.readers == {} || k < 2 {
      forall acts | RunOk(Loaded(cap, k), acts) && PoliteRun(acts, c) && Stuck(Run(Loaded(cap, k), acts))
        ensures !BothAsleep(Run(Loaded(cap, k), acts))
      {
        var s := Run(Loaded(cap, k), acts);
        if !c.clears {
          NoClearNoDeadlock(cap, k, c, acts);
        } else if BothAsleep(s) {
          var v, u :| 0 <= v < |s.threads| && 0 <= u < |s.threads| &&
            SleepsIn(s.threads[v], false) && SleepsIn(s.threads[u], true);
          OnlyReadersRead(cap, k, c, acts, u);
        }
      }
    } else {
      var r :| r in c.readers;
      var acts := ClearDeadlocks(c, cap, k, if r == 0 then 1 else 0, r);
    }
  }
}
