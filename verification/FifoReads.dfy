/** What a read and a poll of globalfifo may promise when there is one reader. */
module FifoReads {
  import opened Bytes
  import opened FifoDevice
  import opened FifoProtocol
  import opened FifoSafety

  /** Thread `r` is the only reader, and nobody clears. */
  function Only(r: nat): Clients {
    Clients({r}, false)
  }

  /** Bytes are waiting for the reader, or a signal is. */
  predicate Served(len: nat, th: Thread) {
    len > 0 || th.sig
  }

  /** The single reader, seen with the buffer length. */
  ghost predicate ReaderOk(len: nat, th: Thread) {
    && (th.call.ReadCall? && (th.pc.UpSleep? || th.pc.Sched?) && th.task.Running? ==> Served(len, th))
    && (th.call.ReadCall? && th.pc.SigCheck? ==> Served(len, th))
    && (th.call.ReadCall? && (th.pc.Down2? || th.pc.Copy?) ==> len > 0)
    && (th.call.ReadCall? && th.pc.Update? ==> th.n > 0)
    && (th.call.ReadCall? && th.pc.Wake? ==> th.n > 0)
    && (th.call.ReadCall? && (th.pc.UpOut? || th.pc.Leave? || th.pc.Idle?) ==> th.ret != 0)
    && PromiseOk(len, th)
  }

  /** After a poll that reported readable: the bytes stay until the reader's own next read, which
      then neither waits nor fails, except for a fault in its user buffer. */
  ghost predicate PromiseOk(len: nat, th: Thread) {
    && (th.notes.ready ==> len > 0)
    && (th.notes.promised ==> th.call.ReadCall?)
    && (th.notes.promised ==> !th.pc.SetState? && !th.pc.UpSleep? && !th.pc.Sched? && !th.pc.SigCheck? && !th.pc.Down2?)
    && (th.notes.promised && (th.pc.Down1? || th.pc.AddWait? || th.pc.Test?) ==> len > 0)
    && (th.notes.promised && (th.pc.UpOut? || th.pc.Leave? || th.pc.Idle?) ==> th.ret > 0 || th.ret == -EFAULT)
  }

  /** A writer that is about to wake the readers has left something for them. */
  ghost predicate WriterOk(len: nat, th: Thread) {
    th.call.WriteCall? && th.pc.Wake? ==> len > 0
  }

  ghost predicate SingleReader(s: State, r: nat) {
    && s.cap > 0 && r < |s.threads|
    && AllPolite(s, Only(r))
    && (forall t: nat :: t < |s.threads| ==> WriterOk(|s.fifo|, s.threads[t]))
    && ReaderOk(|s.fifo|, s.threads[r])
  }

  // ---------------------------------------------------------------------------------------------
  // Steps of the reader

  lemma ReaderWaits(cap: nat, len: nat, th: Thread)
    requires ThreadOk(cap, len, th) && ReaderOk(len, th) && Waiting(th.pc)
    requires th.pc.Sched? ==> th.task.Running? || th.sig
    requires th.call.ReadCall? ==> th.call.count > 0
    ensures ReaderOk(len, WaitStep(cap, len, th))
  {
    match th.pc
    case Down1 =>
    case AddWait =>
    case Test =>
    case SetState =>
    case UpSleep =>
    case Sched =>
    case SigCheck =>
    case Down2 =>
  }

  lemma ReaderMoves(cap: nat, fifo: seq<byte>, th: Thread, fault: bool)
    requires ThreadOk(cap, |fifo|, th) && ReaderOk(|fifo|, th) && Moving(th.pc)
    requires th.call.ReadCall? ==> th.call.count > 0
    ensures ReaderOk(|NextFifo(cap, fifo, th)|, MoveStep(cap, fifo, th, fault))
  {
    match th.pc
    case Copy =>
    case Update =>
    case Wake =>
  }

  lemma ReaderExits(cap: nat, fifo: seq<byte>, th: Thread)
    requires ThreadOk(cap, |fifo|, th) && ReaderOk(|fifo|, th) && !Waiting(th.pc) && !Moving(th.pc)
    requires !th.pc.ClearAll?
    ensures ReaderOk(|NextFifo(cap, fifo, th)|, ExitStep(cap, |fifo|, th))
  {
    match th.pc
    case Idle =>
    case UpOut =>
    case Leave =>
    case PollTest =>
  }

  lemma ReaderSteps(s: State, r: nat, a: Action)
    requires Inv(s) && SingleReader(s, r) && Enabled(s, a) && a.t == r
    requires PoliteAction(a, Only(r))
    ensures ReaderOk(|Do(s, a).fifo|, Do(s, a).threads[r])
  {
    var th := s.threads[r];
    assert ThreadOk(s.cap, |s.fifo|, th);
    assert Polite(r, th.call, Only(r));
    if a.Go? {
      if Waiting(th.pc) {
        ReaderWaits(s.cap, |s.fifo|, th);
      } else if Moving(th.pc) {
        ReaderMoves(s.cap, s.fifo, th, a.fault);
      } else {
        ReaderExits(s.cap, s.fifo, th);
      }
    }
  }

  // ---------------------------------------------------------------------------------------------
  // Steps of the others

  /** Nobody but the reader makes a non-empty buffer empty. */
  lemma OthersOnlyAdd(s: State, r: nat, a: Action)
    requires Inv(s) && SingleReader(s, r) && Enabled(s, a) && a.t != r
    ensures |Do(s, a).fifo| >= |s.fifo|
  {
    var th := s.threads[a.t];
    assert ThreadOk(s.cap, |s.fifo|, th);
    assert Polite(a.t, th.call, Only(r));
  }

  lemma MoreBytesServe(len: nat, len': nat, th: Thread)
    requires ReaderOk(len, th) && len <= len'
    ensures ReaderOk(len', th)
  {
  }

  lemma WokenIsServed(len: nat, th: Thread, q: Queue)
    requires ReaderOk(len, th) && len > 0
    ensures ReaderOk(len, WakeOne(th, q))
  {
  }

  lemma ReaderWatches(s: State, r: nat, a: Action)
    requires Inv(s) && SingleReader(s, r) && Enabled(s, a) && a.t != r
    ensures ReaderOk(|Do(s, a).fifo|, Do(s, a).threads[r])
  {
    var s', th := Do(s, a), s.threads[r];
    OthersOnlyAdd(s, r, a);
    MoreBytesServe(|s.fifo|, |s'.fifo|, th);
    if s'.threads[r] != th {
      assert ThreadOk(s.cap, |s.fifo|, s.threads[a.t]);
      assert Polite(a.t, s.threads[a.t].call, Only(r));
      assert WriterOk(|s.fifo|, s.threads[a.t]);
      WokenIsServed(|s'.fifo|, th, RWait);
    }
  }

  lemma NextWriterOk(cap: nat, fifo: seq<byte>, th: Thread, fault: bool)
    requires ThreadOk(cap, |fifo|, th) && WriterOk(|fifo|, th)
    requires th.call.WriteCall? ==> |th.call.data| > 0
    requires cap > 0
    ensures WriterOk(|NextFifo(cap, fifo, th)|, NextThread(cap, fifo, th, fault))
  {
    match th.pc
    case Update =>
      assert th.call.WriteCall? && th.n == 0 ==> |fifo| == cap;
    case _ =>
  }

  lemma WritersStayOk(s: State, r: nat, a: Action, t: nat)
    requires Inv(s) && SingleReader(s, r) && Enabled(s, a) && t < |s.threads|
    requires PoliteAction(a, Only(r))
    ensures WriterOk(|Do(s, a).fifo|, Do(s, a).threads[t])
    ensures Polite(t, Do(s, a).threads[t].call, Only(r))
  {
    hide Do;
    StepKeepsCalls(s, a, t);
    assert Polite(t, s.threads[t].call, Only(r)) && WriterOk(|s.fifo|, s.threads[t]);
    assert ThreadOk(s.cap, |s.fifo|, s.threads[t]);
    if t != a.t {
      BystanderShape(s, a, t);
    } else if a.Go? {
      GoShape(s, t, a.fault);
      NextWriterOk(s.cap, s.fifo, s.threads[t], a.fault);
    } else {
      NotGoShape(s, a);
    }
  }

  lemma StepKeepsSingleReader(s: State, r: nat, a: Action)
    requires Inv(s) && SingleReader(s, r) && Enabled(s, a)
    requires PoliteAction(a, Only(r))
    ensures SingleReader(Do(s, a), r)
  {
    var s' := Do(s, a);
    StepShape(s, a);
    forall t: nat | t < |s'.threads|
      ensures Polite(t, s'.threads[t].call, Only(r)) && WriterOk(|s'.fifo|, s'.threads[t])
    {
      WritersStayOk(s, r, a, t);
    }
    if a.t == r {
      ReaderSteps(s, r, a);
    } else {
      ReaderWatches(s, r, a);
    }
  }

  // ---------------------------------------------------------------------------------------------
  // Runs

  lemma {:induction false} RunKeepsSingleReader(s: State, r: nat, acts: seq<Action>)
    requires Inv(s) && SingleReader(s, r) && RunOk(s, acts) && PoliteRun(acts, Only(r))
    ensures SingleReader(Run(s, acts), r)
    decreases |acts|
  {
    if acts != [] {
      StepKeepsInv(s, acts[0]);
      StepKeepsSingleReader(s, r, acts[0]);
      RunKeepsSingleReader(Do(s, acts[0]), r, acts[1..]);
    }
  }

  lemma InitSingleReader(cap: nat, k: nat, r: nat)
    requires cap > 0 && r < k
    ensures SingleReader(Init(cap, k), r)
  {
    assert forall t :: 0 <= t < k ==> Init(cap, k).threads[t] == FreshThread();
    assert FreshThread().call.NoCall?;
  }

  /** With a single reader, no clears and positive counts, a finished read returned an error or at
      least one byte, in every interleaving. */
  lemma SingleReaderGetsBytes(cap: nat, k: nat, r: nat, acts: seq<Action>)
    requires cap > 0 && r < k && RunOk(Loaded(cap, k), acts) && PoliteRun(acts, Only(r))
    ensures var th := Run(Loaded(cap, k), acts).threads[r];
      th.pc.Idle? && th.call.ReadCall? ==> th.ret < 0 || (th.ret >= 1 && |th.moved| == th.ret)
  {
    InitSingleReader(cap, k, r);
    RunKeepsSingleReader(Loaded(cap, k), r, acts);
    var s := Run(Loaded(cap, k), acts);
    assert ThreadOk(s.cap, |s.fifo|, s.threads[r]);
  }

  /** When a poll of the single reader reported readable, its next read of a positive count returns
      at least one byte or EFAULT, blocking or not, whatever the writers did in between; it never
      sleeps. */
  lemma PollPromiseKept(cap: nat, k: nat, r: nat, acts: seq<Action>)
    requires cap > 0 && r < k && RunOk(Loaded(cap, k), acts) && PoliteRun(acts, Only(r))
    ensures var s := Run(Loaded(cap, k), acts);
      var th := s.threads[r];
      && (th.notes.ready ==> s.fifo != [])
      && (th.notes.promised ==> !Asleep(th))
      && (th.notes.promised && th.pc.Idle? ==> th.ret >= 1 || th.ret == -EFAULT)
  {
    InitSingleReader(cap, k, r);
    RunKeepsSingleReader(Loaded(cap, k), r, acts);
    var s := Run(Loaded(cap, k), acts);
    assert ThreadOk(s.cap, |s.fifo|, s.threads[r]);
  }

  /** A non-blocking call that holds the semaphore, or has given it back: `wait` is whether there was
      something to wait for when it got it. */
  ghost predicate Decided(cap: nat, len: nat, th: Thread, wait: bool) {
    && (th.call.ReadCall? || th.call.WriteCall?) && th.call.nonblock
    && (th.pc.AddWait? || th.pc.Test? || Moving(th.pc) || th.pc.UpOut? || th.pc.Leave? || th.pc.Idle?)
    && (th.pc.AddWait? || th.pc.Test? || th.pc.Copy? ==> MustWait(cap, len, th.call) == wait)
    && (Moving(th.pc) ==> !wait)
    && (th.pc.UpOut? || th.pc.Leave? || th.pc.Idle? ==> (th.ret == -EAGAIN) == wait)
  }

  lemma NextStaysDecided(cap: nat, fifo: seq<byte>, th: Thread, fault: bool, wait: bool)
    requires ThreadOk(cap, |fifo|, th) && Decided(cap, |fifo|, th, wait)
    ensures Decided(cap, |NextFifo(cap, fifo, th)|, NextThread(cap, fifo, th, fault), wait)
  {
    match th.pc
    case AddWait =>
    case Test =>
    case Copy =>
    case Update =>
    case Wake =>
    case UpOut =>
    case Leave =>
    case Idle =>
  }

  lemma StepStaysDecided(s: State, a: Action, t: nat, wait: bool)
    requires Inv(s) && Enabled(s, a) && t < |s.threads| && !(a.Start? && a.t == t)
    requires Decided(s.cap, |s.fifo|, s.threads[t], wait)
    ensures Decided(s.cap, |Do(s, a).fifo|, Do(s, a).threads[t], wait)
  {
    hide Do;
    assert ThreadOk(s.cap, |s.fifo|, s.threads[t]);
    if t != a.t {
      BystanderShape(s, a, t);
    } else if a.Go? {
      GoShape(s, t, a.fault);
      NextStaysDecided(s.cap, s.fifo, s.threads[t], a.fault, wait);
    } else {
      NotGoShape(s, a);
    }
  }

  /** A poll in the same position: it reports on the length it found. */
  ghost predicate Observed(cap: nat, len: nat, th: Thread, rd: bool, wr: bool) {
    && th.call.PollCall? && (th.pc.PollTest? || th.pc.UpOut? || th.pc.Idle?)
    && (th.pc.PollTest? ==> rd == (len != 0) && wr == (len != cap))
    && (th.pc.UpOut? || th.pc.Idle? ==> th.notes.pollIn == rd && th.notes.pollOut == wr)
  }

  lemma StepStaysObserved(s: State, a: Action, t: nat, rd: bool, wr: bool)
    requires Inv(s) && Enabled(s, a) && t < |s.threads| && !(a.Start? && a.t == t)
    requires Observed(s.cap, |s.fifo|, s.threads[t], rd, wr)
    ensures Observed(s.cap, |Do(s, a).fifo|, Do(s, a).threads[t], rd, wr)
  {
    hide Do;
    assert ThreadOk(s.cap, |s.fifo|, s.threads[t]);
    if t != a.t {
      BystanderShape(s, a, t);
    } else if a.Go? {
      GoShape(s, t, a.fault);
    } else {
      NotGoShape(s, a);
    }
  }

  /** Thread `t` makes no further call. */
  ghost predicate NoNewCall(acts: seq<Action>, t: nat) {
    forall i :: 0 <= i < |acts| ==> !(acts[i].Start? && acts[i].t == t)
  }

  lemma {:induction false} RunStaysDecided(s: State, acts: seq<Action>, t: nat, wait: bool)
    requires Inv(s) && RunOk(s, acts) && t < |s.threads| && NoNewCall(acts, t)
    requires Decided(s.cap, |s.fifo|, s.threads[t], wait)
    ensures Decided(s.cap, |Run(s, acts).fifo|, Run(s, acts).threads[t], wait)
    decreases |acts|
  {
    if acts != [] {
      StepKeepsInv(s, acts[0]);
      StepShape(s, acts[0]);
      StepStaysDecided(s, acts[0], t, wait);
      RunStaysDecided(Do(s, acts[0]), acts[1..], t, wait);
    }
  }

  lemma {:induction false} RunStaysObserved(s: State, acts: seq<Action>, t: nat, rd: bool, wr: bool)
    requires Inv(s) && RunOk(s, acts) && t < |s.threads| && NoNewCall(acts, t)
    requires Observed(s.cap, |s.fifo|, s.threads[t], rd, wr)
    ensures Observed(s.cap, |Run(s, acts).fifo|, Run(s, acts).threads[t], rd, wr)
    decreases |acts|
  {
    if acts != [] {
      StepKeepsInv(s, acts[0]);
      StepShape(s, acts[0]);
      StepStaysObserved(s, acts[0], t, rd, wr);
      RunStaysObserved(Do(s, acts[0]), acts[1..], t, rd, wr);
    }
  }

  /** From `s` on, thread `t` enters `call` and gets the semaphore at once; then all threads go on in any
      way, `t` without a further call, and in the end `t` has returned. */
  ghost predicate Completes(s: State, t: nat, call: Call, acts: seq<Action>)
    requires Inv(s)
  {
    && t < |s.threads| && |acts| >= 2 && acts[0] == Start(t, call) && acts[1].Go? && acts[1].t == t
    && RunOk(s, acts) && NoNewCall(acts[2..], t) && Run(s, acts).threads[t].pc.Idle?
  }

  /** The state in which a call holds the semaphore. */
  lemma TwoStepsIn(s: State, t: nat, call: Call, acts: seq<Action>) returns (s2: State)
    requires Inv(s) && Completes(s, t, call, acts)
    ensures Inv(s2) && s2.cap == s.cap && s2.fifo == s.fifo && |s2.threads| == |s.threads|
    ensures s2.threads[t].call == call && s2.threads[t].held
    ensures s2.threads[t].pc ==
      if call.ClearCall? then ClearAll else if call.PollCall? then PollTest else AddWait
    ensures RunOk(s2, acts[2..]) && Run(s2, acts[2..]) == Run(s, acts)
  {
    hide Do, RunOk, Run;
    RunUnrolls(s, acts);
    NotGoShape(s, acts[0]);
    StepShape(s, acts[0]);
    var s1 := Do(s, acts[0]);
    RunUnrolls(s1, acts[1..]);
    GoShape(s1, t, acts[1].fault);
    StepShape(s1, acts[1]);
    s2 := Do(s1, acts[1]);
    assert acts[1..][1..] == acts[2..];
  }

  lemma RunUnrolls(s: State, acts: seq<Action>)
    requires Inv(s) && RunOk(s, acts) && acts != []
    ensures Enabled(s, acts[0]) && Inv(Do(s, acts[0])) && RunOk(Do(s, acts[0]), acts[1..])
    ensures Run(Do(s, acts[0]), acts[1..]) == Run(s, acts)
  {
    StepKeepsInv(s, acts[0]);
  }

  /** The poll bits of any reachable state against a whole non-blocking read or write from that state:
      once each has the semaphore, the bit is clear exactly when the call returns EAGAIN, whatever
      everybody else does in the meantime and whether or not the user copy faults; and one bit is
      always set. */
  lemma PollAgreesWithEagain(cap: nat, k: nat, acts: seq<Action>, u: nat, polling: seq<Action>,
                             t: nat, call: Call, calling: seq<Action>)
    requires cap > 0 && RunOk(Loaded(cap, k), acts)
    requires (call.ReadCall? || call.WriteCall?) && call.nonblock
    requires Completes(Run(Loaded(cap, k), acts), u, PollCall, polling)
    requires Completes(Run(Loaded(cap, k), acts), t, call, calling)
    ensures var s := Run(Loaded(cap, k), acts);
      var bits, ret := Run(s, polling).threads[u].notes, Run(s, calling).threads[t].ret;
      && (ret == -EAGAIN <==> !(if call.ReadCall? then bits.pollIn else bits.pollOut))
      && (bits.pollIn || bits.pollOut)
  {
    hide RunOk, Run;
    var s := Run(Loaded(cap, k), acts);
    var p := TwoStepsIn(s, u, PollCall, polling);
    RunStaysObserved(p, polling[2..], u, |s.fifo| != 0, |s.fifo| != s.cap);
    var c := TwoStepsIn(s, t, call, calling);
    RunStaysDecided(c, calling[2..], t, MustWait(s.cap, |s.fifo|, call));
  }

  // ---------------------------------------------------------------------------------------------
  // Several readers

  /** With any number of readers and writers, clears included: a read of a positive count that
      returned 0 went through `schedule`. */
  ghost predicate ZeroOnlyAfterSleep(cap: nat, len: nat, th: Thread) {
    && (th.call.ReadCall? && th.call.count > 0 && th.pc.Copy? && !th.notes.slept ==> len > 0)
    && (th.call.ReadCall? && th.call.count > 0 && (th.pc.Update? || th.pc.Wake?) && !th.notes.slept ==> th.n > 0)
    && (th.call.ReadCall? && th.call.count > 0 && (th.pc.UpOut? || th.pc.Leave? || th.pc.Idle?) && !th.notes.slept ==>
        th.ret != 0)
    && (th.pc.SigCheck? || th.pc.Down2? ==> th.notes.slept)
  }

  lemma ZeroStepWait(cap: nat, len: nat, th: Thread)
    requires ThreadOk(cap, len, th) && ZeroOnlyAfterSleep(cap, len, th) && Waiting(th.pc)
    ensures ZeroOnlyAfterSleep(cap, len, WaitStep(cap, len, th))
  {
    match th.pc
    case Down1 =>
    case AddWait =>
    case Test =>
    case SetState =>
    case UpSleep =>
    case Sched =>
    case SigCheck =>
    case Down2 =>
  }

  lemma ZeroStepMove(cap: nat, fifo: seq<byte>, th: Thread, fault: bool)
    requires ThreadOk(cap, |fifo|, th) && ZeroOnlyAfterSleep(cap, |fifo|, th) && Moving(th.pc)
    ensures ZeroOnlyAfterSleep(cap, |NextFifo(cap, fifo, th)|, MoveStep(cap, fifo, th, fault))
  {
    match th.pc
    case Copy =>
    case Update =>
    case Wake =>
  }

  lemma ZeroStepExit(cap: nat, fifo: seq<byte>, th: Thread)
    requires ThreadOk(cap, |fifo|, th) && ZeroOnlyAfterSleep(cap, |fifo|, th) && !Waiting(th.pc) && !Moving(th.pc)
    ensures ZeroOnlyAfterSleep(cap, |NextFifo(cap, fifo, th)|, ExitStep(cap, |fifo|, th))
  {
    match th.pc
    case Idle =>
    case UpOut =>
    case Leave =>
    case ClearAll =>
    case PollTest =>
  }

  lemma StepKeepsZeroOnlyAfterSleep(s: State, a: Action, t: nat)
    requires Inv(s) && Enabled(s, a) && t < |s.threads|
    requires ZeroOnlyAfterSleep(s.cap, |s.fifo|, s.threads[t])
    ensures ZeroOnlyAfterSleep(s.cap, |Do(s, a).fifo|, Do(s, a).threads[t])
  {
    hide Do;
    var th := s.threads[t];
    if t != a.t {
      BystanderShape(s, a, t);
      ZeroIgnoresLength(s.cap, |s.fifo|, |Do(s, a).fifo|, th);
    } else if a.Go? {
      GoShape(s, t, a.fault);
      assert ThreadOk(s.cap, |s.fifo|, th);
      if Waiting(th.pc) {
        ZeroStepWait(s.cap, |s.fifo|, th);
      } else if Moving(th.pc) {
        ZeroStepMove(s.cap, s.fifo, th, a.fault);
      } else {
        ZeroStepExit(s.cap, s.fifo, th);
      }
    } else {
      NotGoShape(s, a);
    }
  }

  lemma ZeroIgnoresLength(cap: nat, len: nat, len': nat, th: Thread)
    requires ThreadOk(cap, len, th) && ZeroOnlyAfterSleep(cap, len, th) && (th.held ==> len' == len)
    ensures ZeroOnlyAfterSleep(cap, len', th)
  {
  }

  lemma {:induction false} RunKeepsZeroOnlyAfterSleep(s: State, acts: seq<Action>, t: nat)
    requires Inv(s) && RunOk(s, acts) && t < |s.threads|
    requires ZeroOnlyAfterSleep(s.cap, |s.fifo|, s.threads[t])
    ensures ZeroOnlyAfterSleep(s.cap, |Run(s, acts).fifo|, Run(s, acts).threads[t])
    decreases |acts|
  {
    if acts != [] {
      StepKeepsInv(s, acts[0]);
      StepKeepsZeroOnlyAfterSleep(s, acts[0], t);
      StepShape(s, acts[0]);
      RunKeepsZeroOnlyAfterSleep(Do(s, acts[0]), acts[1..], t);
    }
  }

  /** In every run, a finished read of a positive count that returned 0 had slept. */
  lemma ZeroReadHasSlept(cap: nat, k: nat, acts: seq<Action>, t: nat)
    requires RunOk(Loaded(cap, k), acts) && t < k
    ensures var th := Run(Loaded(cap, k), acts).threads[t];
      th.pc.Idle? && th.call.ReadCall? && th.call.count > 0 && th.ret == 0 ==> th.notes.slept
  {
    assert Init(cap, k).threads[t] == FreshThread();
    RunKeepsZeroOnlyAfterSleep(Loaded(cap, k), acts, t);
  }
}
