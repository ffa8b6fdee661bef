/** What every interleaving of globalfifo keeps: the semaphore discipline, the order of bytes, and
    which sleepers can be missed by a wake-up. */
module FifoSafety {
  import opened Bytes
  import opened FifoDevice
  import opened FifoProtocol

  // ---------------------------------------------------------------------------------------------
  // The invariant

  /** The counters at which a call owns the semaphore. */
  predicate Critical(pc: Pc) {
    || pc.AddWait? || pc.Test? || pc.SetState? || pc.UpSleep? || pc.Copy? || pc.Update? || pc.Wake?
    || pc.UpOut? || pc.ClearAll? || pc.PollTest?
  }

  /** The counters at which the thread's wait entry is queued. */
  predicate Queued(th: Thread) {
    && (th.call.ReadCall? || th.call.WriteCall?)
    && ((Transferring(th.pc) && !th.pc.AddWait?) || th.pc.UpOut?)
  }

  predicate Asleep(th: Thread) {
    th.task.Interruptible?
  }

  /** One thread's part of the invariant; of the buffer it sees the length only. */
  ghost predicate ThreadOk(cap: nat, len: nat, th: Thread) {
    Sane(cap, len, th) && Placed(cap, len, th) && Reported(th)
  }

  /** Where the thread is in its call, and what follows from that. */
  ghost predicate Placed(cap: nat, len: nat, th: Thread)
    requires Sane(cap, len, th)
  {
    && th.held == Critical(th.pc)
    && th.queue == (if !Queued(th) then NoQueue else if th.call.ReadCall? then RWait else WWait)
    && (Asleep(th) ==> th.pc.UpSleep? || th.pc.Sched?)
    && (th.pc.SetState? || th.pc.UpSleep? ==> MustWait(cap, len, th.call))
    && (th.pc.SetState? || th.pc.UpSleep? || th.pc.Sched? ==> !th.call.nonblock)
    && (th.pc.ClearAll? ==> th.call.ClearCall?)
    && (th.pc.PollTest? ==> th.call.PollCall?)
    && (!th.pc.Idle? ==> !th.call.NoCall?)
    && (th.pc.Update? ==> th.n == Clamp(cap, len, th.call))
  }

  /** What a read or write has to show for itself. */
  ghost predicate Reported(th: Thread) {
    && (th.pc.Down1? || (Transferring(th.pc) && !th.pc.Wake? && !th.pc.Leave?) ==> |th.moved| == 0)
    && (th.pc.Wake? ==> |th.moved| == th.n)
    && ((th.call.ReadCall? || th.call.WriteCall?) && (th.pc.UpOut? || th.pc.Leave? || th.pc.Idle?) ==>
        if th.ret < 0 then |th.moved| == 0 else th.ret == |th.moved|)
  }

  ghost predicate OneHolder(s: State) {
    && (forall t, u :: 0 <= t < u < |s.threads| ==> !s.threads[t].held || !s.threads[u].held)
    && (s.sem == 0 || s.sem == 1)
    && (s.sem == 1 <==> forall t :: 0 <= t < |s.threads| ==> !s.threads[t].held)
  }

  ghost predicate Inv(s: State) {
    && |s.fifo| <= s.cap
    && OneHolder(s)
    && (forall t :: 0 <= t < |s.threads| ==> ThreadOk(s.cap, |s.fifo|, s.threads[t]))
    && Arrived(s.log) == Left(s.log) + s.fifo
  }

  /** The accepted bytes of all writes, in the order of the log. */
  ghost function Arrived(log: seq<Event>): seq<byte> {
    if log == [] then []
    else
      var e := log[|log| - 1];
      Arrived(log[..|log| - 1]) + if e.Accepted? then e.bytes else []
  }

  /** The bytes delivered by reads and discarded by clears, in the order of the log. */
  ghost function Left(log: seq<Event>): seq<byte> {
    if log == [] then []
    else
      var e := log[|log| - 1];
      Left(log[..|log| - 1]) + if e.Accepted? then [] else e.bytes
  }

  lemma OneMoreEvent(log: seq<Event>, e: Event)
    ensures Arrived(log + [e]) == Arrived(log) + if e.Accepted? then e.bytes else []
    ensures Left(log + [e]) == Left(log) + if e.Accepted? then [] else e.bytes
  {
    assert (log + [e])[..|log|] == log;
  }

  // ---------------------------------------------------------------------------------------------
  // Every step keeps it

  /** No other thread's part of the invariant depends on what the semaphore's holder may change. */
  lemma OthersStayOk(cap: nat, len: nat, len': nat, th: Thread)
    requires ThreadOk(cap, len, th) && !th.held && len' <= cap
    ensures ThreadOk(cap, len', th)
  {
  }

  lemma WokenStaysOk(cap: nat, len: nat, th: Thread, q: Queue)
    requires ThreadOk(cap, len, th)
    ensures ThreadOk(cap, len, WakeOne(th, q))
  {
  }

  lemma WaitStepOk(cap: nat, len: nat, th: Thread)
    requires ThreadOk(cap, len, th) && Waiting(th.pc)
    ensures ThreadOk(cap, len, WaitStep(cap, len, th))
  {
    match th.pc
    case Down1 =>
    case AddWait =>
    case Test =>
    case SetState =>
    case UpSleep =>
    case Sched =>
    case SigCheck =>
    case Down2 =>
  }

  lemma MoveStepOk(cap: nat, fifo: seq<byte>, th: Thread, fault: bool)
    requires ThreadOk(cap, |fifo|, th) && Moving(th.pc)
    ensures ThreadOk(cap, |NextFifo(cap, fifo, th)|, MoveStep(cap, fifo, th, fault))
  {
    match th.pc
    case Copy =>
    case Update =>
    case Wake =>
  }

  lemma ExitStepOk(cap: nat, fifo: seq<byte>, th: Thread)
    requires ThreadOk(cap, |fifo|, th) && !Waiting(th.pc) && !Moving(th.pc)
    ensures ThreadOk(cap, |NextFifo(cap, fifo, th)|, ExitStep(cap, |fifo|, th))
  {
    match th.pc
    case Idle =>
    case UpOut =>
    case Leave =>
    case ClearAll =>
    case PollTest =>
  }

  lemma NextThreadOk(cap: nat, fifo: seq<byte>, th: Thread, fault: bool)
    requires ThreadOk(cap, |fifo|, th)
    ensures ThreadOk(cap, |NextFifo(cap, fifo, th)|, NextThread(cap, fifo, th, fault))
  {
    if Waiting(th.pc) {
      WaitStepOk(cap, |fifo|, th);
    } else if Moving(th.pc) {
      MoveStepOk(cap, fifo, th, fault);
    } else {
      ExitStepOk(cap, fifo, th);
    }
  }

  /** The stepping thread. */
  lemma StepperStaysOk(s: State, a: Action)
    requires Inv(s) && Enabled(s, a)
    ensures ThreadOk(s.cap, |Do(s, a).fifo|, Do(s, a).threads[a.t])
  {
    var th := s.threads[a.t];
    assert ThreadOk(s.cap, |s.fifo|, th);
    if a.Go? {
      NextThreadOk(s.cap, s.fifo, th, a.fault);
    }
  }

  lemma StepShape(s: State, a: Action)
    requires Inv(s) && Enabled(s, a)
    ensures var s' := Do(s, a);
      && s'.cap == s.cap && |s'.threads| == |s.threads| && |s'.fifo| <= s'.cap
      && (forall u :: 0 <= u < |s.threads| && u != a.t ==>
          s'.threads[u] == s.threads[u] || exists q :: s'.threads[u] == WakeOne(s.threads[u], q))
      && (s'.fifo != s.fifo || s'.log != s.log ==> s.threads[a.t].held)
  {
    assert ThreadOk(s.cap, |s.fifo|, s.threads[a.t]);
  }

  /** A step of a call, seen at its thread and at the buffer. */
  lemma GoShape(s: State, t: nat, fault: bool)
    requires Inv(s) && Enabled(s, Go(t, fault))
    ensures Sane(s.cap, |s.fifo|, s.threads[t])
    ensures var s' := Do(s, Go(t, fault));
      && s'.threads[t] == NextThread(s.cap, s.fifo, s.threads[t], fault)
      && s'.fifo == NextFifo(s.cap, s.fifo, s.threads[t])
  {
    assert ThreadOk(s.cap, |s.fifo|, s.threads[t]);
  }

  /** What another thread's step leaves of this one: at most it is woken, and while this one holds the
      semaphore the buffer stays. */
  lemma BystanderShape(s: State, a: Action, t: nat)
    requires Inv(s) && Enabled(s, a) && t < |s.threads| && t != a.t
    ensures var th := Do(s, a).threads[t];
      th == s.threads[t] || th == s.threads[t].(task := Running)
    ensures s.threads[t].held ==> Do(s, a).fifo == s.fifo
    ensures ThreadOk(s.cap, |s.fifo|, s.threads[t])
  {
    StepShape(s, a);
    assert ThreadOk(s.cap, |s.fifo|, s.threads[t]);
  }

  /** Starting a call and the signals leave the buffer alone. */
  lemma NotGoShape(s: State, a: Action)
    requires Inv(s) && Enabled(s, a) && !a.Go?
    ensures Do(s, a).fifo == s.fifo && Do(s, a).log == s.log
    ensures var th, th' := s.threads[a.t], Do(s, a).threads[a.t];
      match a
      case Start(_, call) => th.pc.Idle? && th' == Enter(th, call)
      case Signal(_) => th' == th.(sig := true, task := Running)
      case HandleSignal(_) => th' == th.(sig := false) && th.pc.Idle?
      case Go(_, _) => false
  {
    assert ThreadOk(s.cap, |s.fifo|, s.threads[a.t]);
  }

  lemma NextHeldMatchesSem(cap: nat, fifo: seq<byte>, th: Thread, fault: bool, sem: int)
    requires ThreadOk(cap, |fifo|, th)
    ensures var th' := NextThread(cap, fifo, th, fault);
      && NextSem(sem, th.pc) - sem == (if th.held then 1 else 0) - (if th'.held then 1 else 0)
      && (th'.held && !th.held ==> th.pc.Down1? || th.pc.Down2?)
  {
    NextThreadOk(cap, fifo, th, fault);
    match th.pc
    case Test =>
    case SigCheck =>
    case Copy =>
    case UpOut =>
    case _ =>
  }

  /** The semaphore and the stepping thread's claim on it move together. */
  lemma HeldMatchesSem(s: State, a: Action)
    requires Inv(s) && Enabled(s, a)
    ensures var s', th := Do(s, a), s.threads[a.t];
      var th' := s'.threads[a.t];
      && s'.sem - s.sem == (if th.held then 1 else 0) - (if th'.held then 1 else 0)
      && (th'.held && !th.held ==> s.sem == 1)
  {
    var th := s.threads[a.t];
    assert ThreadOk(s.cap, |s.fifo|, th);
    if a.Go? {
      NextHeldMatchesSem(s.cap, s.fifo, th, a.fault, s.sem);
    }
  }

  lemma StepKeepsHolder(s: State, a: Action)
    requires Inv(s) && Enabled(s, a)
    ensures OneHolder(Do(s, a))
  {
    var s', th := Do(s, a), s.threads[a.t];
    var th' := s'.threads[a.t];
    HeldMatchesSem(s, a);
    StepShape(s, a);
    HolderMoves(s, s', a.t);
  }

  lemma HolderMoves(s: State, s': State, t: nat)
    requires OneHolder(s) && |s'.threads| == |s.threads| && t < |s.threads|
    requires forall u :: 0 <= u < |s.threads| && u != t ==> s'.threads[u].held == s.threads[u].held
    requires s'.sem - s.sem == (if s.threads[t].held then 1 else 0) - (if s'.threads[t].held then 1 else 0)
    requires s'.threads[t].held && !s.threads[t].held ==> s.sem == 1
    ensures OneHolder(s')
  {
    if s.threads[t].held && !s'.threads[t].held {
      forall u | 0 <= u < |s'.threads| ensures !s'.threads[u].held {
      }
    }
    if !s.threads[t].held && !s'.threads[t].held && s.sem == 0 {
      var h :| 0 <= h < |s.threads| && s.threads[h].held;
      assert s'.threads[h].held;
    }
  }

  lemma StepKeepsOrder(s: State, a: Action)
    requires Inv(s) && Enabled(s, a)
    ensures var s' := Do(s, a); Arrived(s'.log) == Left(s'.log) + s'.fifo
  {
    if a.Go? {
      NextKeepsOrder(s, a.t, s.threads[a.t]);
    }
  }

  lemma NextKeepsOrder(s: State, t: nat, th: Thread)
    requires Sane(s.cap, |s.fifo|, th) && Arrived(s.log) == Left(s.log) + s.fifo
    ensures Arrived(NextLog(s, t, th)) == Left(NextLog(s, t, th)) + NextFifo(s.cap, s.fifo, th)
  {
    hide Arrived, Left;
    var log, fifo := NextLog(s, t, th), NextFifo(s.cap, s.fifo, th);
    if |log| > |s.log| {
      var e := log[|s.log|];
      assert log == s.log + [e];
      EventKeepsOrder(s.log, e, s.fifo, fifo);
    }
  }

  lemma EventKeepsOrder(log: seq<Event>, e: Event, fifo: seq<byte>, fifo': seq<byte>)
    requires Arrived(log) == Left(log) + fifo
    requires if e.Accepted? then fifo' == fifo + e.bytes else fifo == e.bytes + fifo'
    ensures Arrived(log + [e]) == Left(log + [e]) + fifo'
  {
    hide Arrived, Left;
    OneMoreEvent(log, e);
    if e.Accepted? {
      assert Left(log) + fifo + e.bytes == Left(log) + (fifo + e.bytes);
    } else {
      assert Left(log) + (e.bytes + fifo') == Left(log) + e.bytes + fifo';
    }
  }

  lemma StepKeepsInv(s: State, a: Action)
    requires Inv(s) && Enabled(s, a)
    ensures Inv(Do(s, a))
  {
    var s' := Do(s, a);
    StepShape(s, a);
    StepKeepsHolder(s, a);
    StepKeepsOrder(s, a);
    forall u | 0 <= u < |s'.threads| ensures ThreadOk(s'.cap, |s'.fifo|, s'.threads[u]) {
      if u == a.t {
        StepperStaysOk(s, a);
      } else {
        BystanderStaysOk(s, a, u);
      }
    }
  }

  lemma BystanderStaysOk(s: State, a: Action, u: nat)
    requires Inv(s) && Enabled(s, a) && u < |s.threads| && u != a.t
    ensures ThreadOk(s.cap, |Do(s, a).fifo|, Do(s, a).threads[u])
  {
    var s' := Do(s, a);
    StepShape(s, a);
    if s.threads[a.t].held {
      OthersStayOk(s.cap, |s.fifo|, |s'.fifo|, s.threads[u]);
    } else {
      assert ThreadOk(s'.cap, |s'.fifo|, s.threads[u]) by {
        assert ThreadOk(s.cap, |s.fifo|, s.threads[u]);
        assert s'.fifo == s.fifo;
      }
    }
    if s'.threads[u] != s.threads[u] {
      var q :| s'.threads[u] == WakeOne(s.threads[u], q);
      WokenStaysOk(s.cap, |s'.fifo|, s.threads[u], q);
    }
  }

  // ---------------------------------------------------------------------------------------------
  // Runs

  lemma InitOk(cap: nat, k: nat)
    ensures Inv(Init(cap, k))
  {
    var s := Init(cap, k);
    assert forall t :: 0 <= t < k ==> s.threads[t] == FreshThread();
  }

  /** The state after module load, with `k` threads that have made no call yet. */
  ghost function Loaded(cap: nat, k: nat): (s: State)
    ensures Inv(s) && s == Init(cap, k)
  {
    InitOk(cap, k);
    Init(cap, k)
  }

  /** Any interleaving of calls, steps and signals. */
  ghost predicate RunOk(s: State, acts: seq<Action>)
    requires Inv(s)
    decreases |acts|
  {
    acts == [] || (Enabled(s, acts[0]) && (StepKeepsInv(s, acts[0]); RunOk(Do(s, acts[0]), acts[1..])))
  }

  ghost function Run(s: State, acts: seq<Action>): (r: State)
    requires Inv(s) && RunOk(s, acts)
    ensures Inv(r) && r.cap == s.cap && |r.threads| == |s.threads|
    decreases |acts|
  {
    if acts == [] then s
    else
      StepKeepsInv(s, acts[0]);
      StepShape(s, acts[0]);
      Run(Do(s, acts[0]), acts[1..])
  }

  // ---------------------------------------------------------------------------------------------
  // Runs by agreement

  /** Which threads read, and whether anybody clears. */
  datatype Clients = Clients(readers: set<nat>, clears: bool)

  /** A call under the agreement, which asks for, or offers, at least one byte. */
  predicate Polite(t: nat, call: Call, c: Clients) {
    match call
    case NoCall => true
    case ReadCall(count, _) => t in c.readers && count > 0
    case WriteCall(data, _) => |data| > 0
    case ClearCall => c.clears
    case PollCall => true
  }

  predicate PoliteAction(a: Action, c: Clients) {
    a.Start? ==> Polite(a.t, a.call, c)
  }

  ghost predicate PoliteRun(acts: seq<Action>, c: Clients) {
    forall i :: 0 <= i < |acts| ==> PoliteAction(acts[i], c)
  }

  /** Only polite calls are in progress, or were the last one. */
  ghost predicate AllPolite(s: State, c: Clients) {
    forall t: nat :: t < |s.threads| ==> Polite(t, s.threads[t].call, c)
  }

  lemma NextKeepsCall(cap: nat, fifo: seq<byte>, th: Thread, fault: bool)
    requires Sane(cap, |fifo|, th)
    ensures NextThread(cap, fifo, th, fault).call == th.call
  {
    match th.pc
    case Test =>
    case SigCheck =>
    case Copy =>
    case Update =>
    case _ =>
  }

  lemma StepKeepsCalls(s: State, a: Action, t: nat)
    requires Inv(s) && Enabled(s, a) && t < |s.threads|
    ensures Do(s, a).threads[t].call == if a.Start? && a.t == t then a.call else s.threads[t].call
  {
    hide Do, NextThread, NextFifo, Enabled;
    if t != a.t {
      BystanderShape(s, a, t);
    } else if a.Go? {
      GoShape(s, t, a.fault);
      NextKeepsCall(s.cap, s.fifo, s.threads[t], a.fault);
    } else {
      NotGoShape(s, a);
    }
  }

  lemma {:induction false} RunStaysPolite(s: State, acts: seq<Action>, c: Clients)
    requires Inv(s) && RunOk(s, acts) && PoliteRun(acts, c) && AllPolite(s, c)
    ensures AllPolite(Run(s, acts), c)
    decreases |acts|
  {
    if acts != [] {
      StepKeepsInv(s, acts[0]);
      StepShape(s, acts[0]);
      assert PoliteAction(acts[0], c);
      forall t: nat | t < |s.threads| ensures Polite(t, Do(s, acts[0]).threads[t].call, c) {
        StepKeepsCalls(s, acts[0], t);
      }
      RunStaysPolite(Do(s, acts[0]), acts[1..], c);
    }
  }

  lemma InitPolite(cap: nat, k: nat, c: Clients)
    ensures AllPolite(Init(cap, k), c)
  {
    assert forall t :: 0 <= t < k ==> Init(cap, k).threads[t] == FreshThread();
  }

  // ---------------------------------------------------------------------------------------------
  // Semaphore discipline

  ghost function Holders(s: State): set<nat> {
    set t: nat | t < |s.threads| && s.threads[t].held
  }

  /** After every run the semaphore value plus the number of holders is one, the length is within the
      buffer, and a thread that has returned holds nothing, is on no queue and is runnable. */
  lemma SemaphoreDiscipline(cap: nat, k: nat, acts: seq<Action>)
    requires RunOk(Loaded(cap, k), acts)
    ensures var s := Run(Loaded(cap, k), acts);
      && s.sem + |Holders(s)| == 1
      && |s.fifo| <= cap
      && forall t :: 0 <= t < k && s.threads[t].pc.Idle? ==>
          !s.threads[t].held && s.threads[t].queue.NoQueue? && s.threads[t].task.Running?
  {
    var s := Run(Loaded(cap, k), acts);
    if s.sem == 1 {
      assert Holders(s) == {};
    } else {
      var t :| 0 <= t < |s.threads| && s.threads[t].held;
      assert forall u :: u in Holders(s) ==> u == t;
      assert Holders(s) == {t};
    }
    forall t | 0 <= t < k && s.threads[t].pc.Idle?
      ensures !s.threads[t].held && s.threads[t].queue.NoQueue? && s.threads[t].task.Running?
    {
      assert ThreadOk(s.cap, |s.fifo|, s.threads[t]);
    }
  }

  /** Only the holder touches the buffer, and only at the two statements that store into it. */
  lemma OnlyTheHolderTouches(s: State, a: Action)
    requires Inv(s) && Enabled(s, a)
    ensures var s', th := Do(s, a), s.threads[a.t];
      s'.fifo != s.fifo || s'.log != s.log ==>
        a.Go? && th.held && Holders(s) == {a.t} && (th.pc.Update? || th.pc.ClearAll?)
  {
    var s', th := Do(s, a), s.threads[a.t];
    assert ThreadOk(s.cap, |s.fifo|, th);
    if th.held {
      assert forall u :: u in Holders(s) ==> u == a.t;
      assert Holders(s) == {a.t};
    }
  }

  // ---------------------------------------------------------------------------------------------
  // FIFO order

  /** Over every interleaving, the accepted bytes in semaphore order are the bytes delivered and
      discarded, in order, followed by what is buffered. */
  lemma FifoOrder(cap: nat, k: nat, acts: seq<Action>)
    requires RunOk(Loaded(cap, k), acts)
    ensures var s := Run(Loaded(cap, k), acts);
      Arrived(s.log) == Left(s.log) + s.fifo
  {
  }

  /** The update of a read in any run takes from the front as many bytes as asked for, or all there are;
      that of a write adds all of its bytes, or fills the buffer. */
  lemma UpdateMovesAll(s: State, t: nat, fault: bool)
    requires Inv(s) && Enabled(s, Go(t, fault)) && s.threads[t].pc.Update?
    ensures var s' := Do(s, Go(t, fault));
      var call, moved := s.threads[t].call, s'.threads[t].moved;
      match call
      case ReadCall(count, _) =>
        moved + s'.fifo == s.fifo && |moved| <= count && (|moved| == count || s'.fifo == [])
      case WriteCall(data, _) =>
        s'.fifo == s.fifo + moved && moved <= data && (moved == data || |s'.fifo| == s.cap)
      case _ => false
  {
    hide Do;
    GoShape(s, t, fault);
    assert ThreadOk(s.cap, |s.fifo|, s.threads[t]);
  }

  /** What a call has to show when it returns: a read or write gets a count or -EFAULT, or -EAGAIN when it
      must not block, or -ERESTARTSYS when it may and slept; clear and poll return 0. */
  ghost predicate Answered(th: Thread) {
    && (th.pc.SigCheck? || th.pc.Down2? ==>
        th.notes.slept && (th.call.ReadCall? || th.call.WriteCall?) && !th.call.nonblock)
    && (th.pc.UpOut? || th.pc.Leave? || th.pc.Idle? ==>
        if th.call.ReadCall? || th.call.WriteCall? then
          || th.ret == |th.moved|
          || (th.ret == -EFAULT && th.moved == [])
          || (th.ret == -EAGAIN && th.moved == [] && th.call.nonblock)
          || (th.ret == -ERESTARTSYS && th.moved == [] && !th.call.nonblock && th.notes.slept)
        else th.ret == 0)
  }

  lemma WaitIsAnswered(cap: nat, len: nat, th: Thread)
    requires ThreadOk(cap, len, th) && Answered(th) && Waiting(th.pc)
    ensures Answered(WaitStep(cap, len, th))
  {
    match th.pc
    case Down1 =>
    case AddWait =>
    case Test =>
    case SetState =>
    case UpSleep =>
    case Sched =>
    case SigCheck =>
    case Down2 =>
  }

  lemma MoveIsAnswered(cap: nat, fifo: seq<byte>, th: Thread, fault: bool)
    requires ThreadOk(cap, |fifo|, th) && Answered(th) && Moving(th.pc)
    ensures Answered(MoveStep(cap, fifo, th, fault))
  {
    match th.pc
    case Copy =>
    case Update =>
    case Wake =>
  }

  lemma ExitIsAnswered(cap: nat, len: nat, th: Thread)
    requires ThreadOk(cap, len, th) && Answered(th) && !Waiting(th.pc) && !Moving(th.pc)
    ensures Answered(ExitStep(cap, len, th))
  {
    match th.pc
    case Idle =>
    case UpOut =>
    case Leave =>
    case ClearAll =>
    case PollTest =>
  }

  lemma StepIsAnswered(s: State, a: Action, t: nat)
    requires Inv(s) && Enabled(s, a) && t < |s.threads| && Answered(s.threads[t])
    ensures Answered(Do(s, a).threads[t])
  {
    hide Do, WaitStep, MoveStep, ExitStep;
    var th := s.threads[t];
    assert ThreadOk(s.cap, |s.fifo|, th);
    if t != a.t {
      BystanderShape(s, a, t);
    } else if !a.Go? {
      NotGoShape(s, a);
    } else {
      GoShape(s, t, a.fault);
      if Waiting(th.pc) {
        WaitIsAnswered(s.cap, |s.fifo|, th);
      } else if Moving(th.pc) {
        MoveIsAnswered(s.cap, s.fifo, th, a.fault);
      } else {
        ExitIsAnswered(s.cap, |s.fifo|, th);
      }
    }
  }

  lemma {:induction false} RunIsAnswered(s: State, acts: seq<Action>, t: nat)
    requires Inv(s) && RunOk(s, acts) && t < |s.threads| && Answered(s.threads[t])
    ensures Answered(Run(s, acts).threads[t])
    decreases |acts|
  {
    hide Answered;
    if acts != [] {
      StepKeepsInv(s, acts[0]);
      StepShape(s, acts[0]);
      StepIsAnswered(s, acts[0], t);
      RunIsAnswered(Do(s, acts[0]), acts[1..], t);
    }
  }

  /** Every way a call can end, in every run. */
  lemma ResultsOfCalls(cap: nat, k: nat, acts: seq<Action>, t: nat)
    requires RunOk(Loaded(cap, k), acts) && t < k
    ensures var th := Run(Loaded(cap, k), acts).threads[t];
      th.pc.Idle? ==>
        match th.call
        case ReadCall(_, nonblock) =>
          || th.ret == |th.moved|
          || (th.moved == [] && (th.ret == -EFAULT || th.ret == if nonblock then -EAGAIN else -ERESTARTSYS))
        case WriteCall(_, nonblock) =>
          || th.ret == |th.moved|
          || (th.moved == [] && (th.ret == -EFAULT || th.ret == if nonblock then -EAGAIN else -ERESTARTSYS))
        case _ => th.ret == 0
  {
    hide RunOk, Run;
    assert Init(cap, k).threads[t] == FreshThread();
    RunIsAnswered(Loaded(cap, k), acts, t);
  }

  /** A signal ends a sleep with -ERESTARTSYS, and only a signal does. */
  lemma SignalEndsCall(s: State, t: nat, fault: bool)
    requires Inv(s) && Enabled(s, Go(t, fault)) && s.threads[t].pc.SigCheck?
    ensures var th := Do(s, Go(t, fault)).threads[t];
      if s.threads[t].sig then th.pc.Leave? && th.ret == -ERESTARTSYS else th.pc.Down2?
  {
    GoShape(s, t, fault);
  }

  /** The steps of a read between copy and return, taken with the semaphore held, are the device's
      read on its array; */
  lemma ReadStepsAreOneTransfer(cap: nat, fifo: seq<byte>, th: Thread, fault: bool)
    requires ThreadOk(cap, |fifo|, th) && th.pc.Copy? && th.call.ReadCall?
    ensures var r := AfterRead(fifo, th.call.count, fault);
      var copied := MoveStep(cap, fifo, th, fault);
      if copied.pc.UpOut? then copied.ret == r.ret && copied.moved == r.moved && fifo == r.fifo
      else
        var updated := MoveStep(cap, fifo, copied, false);
        && NextFifo(cap, fifo, copied) == r.fifo && updated.moved == r.moved
        && MoveStep(cap, r.fifo, updated, false).ret == r.ret
  {
  }

  /** and those of a write are its write. */
  lemma WriteStepsAreOneTransfer(cap: nat, fifo: seq<byte>, th: Thread, fault: bool)
    requires ThreadOk(cap, |fifo|, th) && th.pc.Copy? && th.call.WriteCall?
    ensures var r := AfterWrite(fifo, cap, th.call.data, fault);
      var copied := MoveStep(cap, fifo, th, fault);
      if copied.pc.UpOut? then copied.ret == r.ret && copied.moved == r.moved && fifo == r.fifo
      else
        var updated := MoveStep(cap, fifo, copied, false);
        && NextFifo(cap, fifo, copied) == r.fifo && updated.moved == r.moved
        && MoveStep(cap, r.fifo, updated, false).ret == r.ret
  {
  }

  /** A call that returned an error moved nothing; one that returned a count moved that many. */
  lemma ReturnsCount(cap: nat, k: nat, acts: seq<Action>, t: nat)
    requires RunOk(Loaded(cap, k), acts) && t < k
    ensures var th := Run(Loaded(cap, k), acts).threads[t];
      th.pc.Idle? && (th.call.ReadCall? || th.call.WriteCall?) ==>
        if th.ret < 0 then th.moved == [] else th.ret == |th.moved|
  {
    assert ThreadOk(cap, |Run(Loaded(cap, k), acts).fifo|, Run(Loaded(cap, k), acts).threads[t]);
  }

  /** What a call moved is what the log records for it: a step either leaves `moved` and the log
      alone, starts a new call, or adds one event with exactly the bytes it puts into `moved`. */
  lemma MovedIsLogged(s: State, a: Action)
    requires Inv(s) && Enabled(s, a)
    ensures var s' := Do(s, a);
      var was, now := s.threads[a.t], s'.threads[a.t];
      && (forall u :: 0 <= u < |s.threads| && u != a.t ==> s'.threads[u].moved == s.threads[u].moved)
      && (if a.Start? then now.moved == [] && s'.log == s.log
          else if a.Go? && was.pc.Update? then
            s'.log == s.log + [if was.call.ReadCall? then Delivered(a.t, now.moved) else Accepted(a.t, now.moved)]
          else now.moved == was.moved && (s'.log == s.log || was.pc.ClearAll?))
  {
    StepShape(s, a);
    assert ThreadOk(s.cap, |s.fifo|, s.threads[a.t]);
  }
}
