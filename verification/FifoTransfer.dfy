/** One blocking writer sends a whole message to one blocking reader: under every scheduling the
    transfer ends, and it ends with the message delivered. */
module FifoTransfer {
  import opened Bytes
  import opened FifoDevice
  import opened FifoProtocol
  import opened FifoSafety
  import opened FifoWakeups

  const WRITER: nat := 0
  const READER: nat := 1

  /** The two programs: the writer keeps writing any nonempty piece of what is still unsent, the
      reader keeps asking for any positive count.  No signals, no faults, no clears. */
  ghost predicate ClientMove(s: State, a: Action, msg: seq<byte>) {
    match a
    case Start(t, WriteCall(data, nonblock)) =>
      t == WRITER && !nonblock && |data| > 0 && data <= msg[Min(|Arrived(s.log)|, |msg|)..]
    case Start(t, ReadCall(count, nonblock)) => t == READER && !nonblock && count > 0
    case Go(_, fault) => !fault
    case _ => false
  }

  /** Before its `current_len` update a write still has its bytes to hand in. */
  predicate BeforeUpdate(pc: Pc) {
    !pc.Idle? && !pc.Wake? && !pc.UpOut? && !pc.Leave? && !pc.ClearAll? && !pc.PollTest?
  }

  /** Past its wait, a call finds what it waited for. */
  predicate Past(th: Thread) {
    ((th.pc.UpSleep? || th.pc.Sched?) && th.task.Running?) || th.pc.SigCheck? || th.pc.Down2? || th.pc.Copy?
  }

  ghost predicate ClientOk(cap: nat, len: nat, th: Thread) {
    && !th.sig
    && (th.call.ReadCall? || th.call.WriteCall? ==> !th.call.nonblock)
    && (Past(th) ==> !MustWait(cap, len, th.call))
    && (th.pc.Update? || th.pc.Wake? ==> th.n > 0)
    && ((th.pc.UpOut? || th.pc.Leave? || th.pc.Idle?) && !th.call.NoCall? ==> th.ret > 0)
  }

  ghost predicate Session(s: State, msg: seq<byte>) {
    && s.cap > 0 && |s.threads| == 2
    && var wr, rd := s.threads[WRITER], s.threads[READER];
      && (wr.call.NoCall? || wr.call.WriteCall?) && (wr.call.WriteCall? ==> |wr.call.data| > 0)
      && (rd.call.NoCall? || rd.call.ReadCall?) && (rd.call.ReadCall? ==> rd.call.count > 0)
      && ClientOk(s.cap, |s.fifo|, wr) && ClientOk(s.cap, |s.fifo|, rd)
      && (wr.pc.Wake? ==> |s.fifo| > 0) && (rd.pc.Wake? ==> |s.fifo| < s.cap)
      && Arrived(s.log) <= msg
      && (wr.call.WriteCall? && BeforeUpdate(wr.pc) ==> wr.call.data <= msg[|Arrived(s.log)|..])
  }

  // ---------------------------------------------------------------------------------------------
  // Every client move keeps the session

  lemma ClientWaits(cap: nat, len: nat, th: Thread)
    requires ThreadOk(cap, len, th) && ClientOk(cap, len, th) && Waiting(th.pc)
    requires th.pc.Sched? ==> th.task.Running?
    requires th.call.ReadCall? || th.call.WriteCall?
    ensures ClientOk(cap, len, WaitStep(cap, len, th))
  {
    match th.pc
    case Down1 =>
    case AddWait =>
    case Test =>
    case SetState =>
    case UpSleep =>
    case Sched =>
    case SigCheck =>
    case Down2 =>
  }

  lemma ClientMoves(cap: nat, fifo: seq<byte>, th: Thread)
    requires ThreadOk(cap, |fifo|, th) && ClientOk(cap, |fifo|, th) && Moving(th.pc)
    requires th.call.ReadCall? ==> th.call.count > 0
    requires th.call.WriteCall? ==> |th.call.data| > 0
    ensures ClientOk(cap, |NextFifo(cap, fifo, th)|, MoveStep(cap, fifo, th, false))
  {
    match th.pc
    case Copy =>
    case Update =>
    case Wake =>
  }

  lemma ClientExits(cap: nat, fifo: seq<byte>, th: Thread)
    requires ThreadOk(cap, |fifo|, th) && ClientOk(cap, |fifo|, th) && (th.pc.UpOut? || th.pc.Leave?)
    requires th.call.ReadCall? || th.call.WriteCall?
    ensures ClientOk(cap, |NextFifo(cap, fifo, th)|, ExitStep(cap, |fifo|, th))
  {
    match th.pc
    case UpOut =>
    case Leave =>
  }

  lemma MoverStaysOk(s: State, a: Action, msg: seq<byte>)
    requires Inv(s) && Session(s, msg) && Enabled(s, a) && ClientMove(s, a, msg)
    ensures ClientOk(s.cap, |Do(s, a).fifo|, Do(s, a).threads[a.t])
  {
    hide Do;
    var th := s.threads[a.t];
    assert ThreadOk(s.cap, |s.fifo|, th);
    assert a.t == WRITER || a.t == READER;
    if !a.Go? {
      NotGoShape(s, a);
    } else {
      GoShape(s, a.t, a.fault);
      if Waiting(th.pc) {
        ClientWaits(s.cap, |s.fifo|, th);
      } else if Moving(th.pc) {
        ClientMoves(s.cap, s.fifo, th);
      } else {
        ClientExits(s.cap, s.fifo, th);
      }
    }
  }

  /** Moving bytes takes the other side's reason to wait away, never brings it back. */
  lemma OtherStaysServed(cap: nat, len: nat, len': nat, th: Thread)
    requires ClientOk(cap, len, th) && len <= cap && len' <= cap
    requires th.call.ReadCall? ==> len <= len'
    requires th.call.WriteCall? ==> len' <= len
    requires th.call.NoCall? ==> !Past(th)
    requires th.call.ClearCall? || th.call.PollCall? ==> false
    ensures ClientOk(cap, len', th)
  {
  }

  lemma OtherStaysOk(s: State, a: Action, msg: seq<byte>, u: nat)
    requires Inv(s) && Session(s, msg) && Enabled(s, a) && ClientMove(s, a, msg)
    requires u < 2 && u != a.t
    ensures ClientOk(s.cap, |Do(s, a).fifo|, Do(s, a).threads[u])
  {
    var s', th := Do(s, a), s.threads[u];
    assert ThreadOk(s.cap, |s.fifo|, s.threads[a.t]);
    assert ThreadOk(s.cap, |s.fifo|, th);
    OtherStaysServed(s.cap, |s.fifo|, |s'.fifo|, th);
  }

  lemma PiecesStayPieces(s: State, a: Action, msg: seq<byte>)
    requires Inv(s) && Session(s, msg) && Enabled(s, a) && ClientMove(s, a, msg)
    ensures var s' := Do(s, a);
      var wr := s'.threads[WRITER];
      && Arrived(s'.log) <= msg
      && (wr.call.WriteCall? && BeforeUpdate(wr.pc) ==> wr.call.data <= msg[|Arrived(s'.log)|..])
  {
    var th, s' := s.threads[a.t], Do(s, a);
    assert ThreadOk(s.cap, |s.fifo|, th);
    if s'.log == s.log {
      assert a.t != WRITER ==> s'.threads[WRITER].call == s.threads[WRITER].call;
      assert a.t != WRITER ==> s'.threads[WRITER].pc == s.threads[WRITER].pc;
      assert a.Go? && a.t == WRITER ==> (BeforeUpdate(s'.threads[WRITER].pc) ==> BeforeUpdate(th.pc));
    } else {
      LoggedPieces(s, a, msg);
    }
  }

  lemma LoggedPieces(s: State, a: Action, msg: seq<byte>)
    requires Inv(s) && Session(s, msg) && Enabled(s, a) && ClientMove(s, a, msg)
    requires Do(s, a).log != s.log
    ensures Arrived(Do(s, a).log) <= msg
    ensures a.t != WRITER ==> Arrived(Do(s, a).log) == Arrived(s.log)
    ensures a.t == WRITER ==> Do(s, a).threads[WRITER].pc.Wake?
    ensures a.t != WRITER ==> Do(s, a).threads[WRITER] == s.threads[WRITER]
  {
    var th, s' := s.threads[a.t], Do(s, a);
    assert ThreadOk(s.cap, |s.fifo|, th);
    OneMoreEvent(s.log, s'.log[|s.log|]);
    if a.t == WRITER {
      PieceExtendsPrefix(Arrived(s.log), msg, th.call.data, th.n);
    }
  }

  lemma PieceExtendsPrefix(done: seq<byte>, msg: seq<byte>, data: seq<byte>, n: nat)
    requires done <= msg && data <= msg[|done|..] && n <= |data|
    ensures done + data[..n] <= msg
  {
    assert data[..n] == msg[|done|..][..n];
    assert done + data[..n] == msg[..|done| + n];
  }

  lemma WakersLeaveRoom(s: State, a: Action, msg: seq<byte>)
    requires Inv(s) && Session(s, msg) && Enabled(s, a) && ClientMove(s, a, msg)
    ensures var s' := Do(s, a);
      && (s'.threads[WRITER].pc.Wake? ==> |s'.fifo| > 0)
      && (s'.threads[READER].pc.Wake? ==> |s'.fifo| < s'.cap)
  {
    var th := s.threads[a.t];
    assert ThreadOk(s.cap, |s.fifo|, th);
    assert ThreadOk(s.cap, |s.fifo|, s.threads[1 - a.t]);
  }

  lemma MoveKeepsSession(s: State, a: Action, msg: seq<byte>)
    requires Inv(s) && Session(s, msg) && Enabled(s, a) && ClientMove(s, a, msg)
    ensures Session(Do(s, a), msg)
  {
    MoverStaysOk(s, a, msg);
    OtherStaysOk(s, a, msg, 1 - a.t);
    PiecesStayPieces(s, a, msg);
    WakersLeaveRoom(s, a, msg);
    CallsStayPut(s, a, msg);
  }

  lemma CallsStayPut(s: State, a: Action, msg: seq<byte>)
    requires Inv(s) && Session(s, msg) && Enabled(s, a) && ClientMove(s, a, msg)
    ensures var s' := Do(s, a);
      && s'.cap == s.cap && |s'.threads| == 2
      && var wr, rd := s'.threads[WRITER], s'.threads[READER];
        && (wr.call.NoCall? || wr.call.WriteCall?) && (wr.call.WriteCall? ==> |wr.call.data| > 0)
        && (rd.call.NoCall? || rd.call.ReadCall?) && (rd.call.ReadCall? ==> rd.call.count > 0)
  {
    hide Do;
    StepShape(s, a);
    StepKeepsCalls(s, a, WRITER);
    StepKeepsCalls(s, a, READER);
  }

  // ---------------------------------------------------------------------------------------------
  // Progress

  /** Bytes not yet handed in, twice, plus bytes buffered: what is left to move. */
  ghost function ToMove(s: State, msg: seq<byte>): int {
    2 * (|msg| - |Arrived(s.log)|) + |s.fifo|
  }

  /** How many steps at most lead from this counter up to the next move of bytes. */
  function StepsToMove(pc: Pc): nat {
    match pc
    case Update => 1
    case Copy => 2
    case Down2 => 3
    case SigCheck => 4
    case Sched => 5
    case UpSleep => 6
    case SetState => 7
    case Test => 8
    case AddWait => 9
    case Down1 => 10
    case Idle => 11
    case Leave => 12
    case UpOut => 13
    case Wake => 14
    case ClearAll => 14
    case PollTest => 14
  }

  ghost function Remaining(s: State, msg: seq<byte>): int
    requires |s.threads| == 2
  {
    20 * ToMove(s, msg) + StepsToMove(s.threads[WRITER].pc) + StepsToMove(s.threads[READER].pc)
  }

  /** Each completed call moves at least one byte, so what is left to move strictly decreases with
      every one; no other step changes it. */
  lemma CallsDecrease(s: State, a: Action, msg: seq<byte>)
    requires Inv(s) && Session(s, msg) && Enabled(s, a) && ClientMove(s, a, msg)
    ensures if a.Go? && s.threads[a.t].pc.Update? then ToMove(Do(s, a), msg) < ToMove(s, msg)
      else ToMove(Do(s, a), msg) == ToMove(s, msg)
  {
    hide Do, Arrived, NextThread;
    var th := s.threads[a.t];
    assert ThreadOk(s.cap, |s.fifo|, th);
    if a.Go? {
      GoShape(s, a.t, a.fault);
      LogShape(s, a.t, a.fault);
      if th.pc.Update? {
        OneMoreEvent(s.log, UpdateEvent(s, a.t, th));
      }
    } else {
      NotGoShape(s, a);
    }
  }

  /** The event a step adds to the log. */
  ghost function UpdateEvent(s: State, t: nat, th: Thread): Event
    requires Sane(s.cap, |s.fifo|, th) && th.pc.Update?
  {
    if th.call.ReadCall? then Delivered(t, s.fifo[..th.n]) else Accepted(t, th.call.data[..th.n])
  }

  lemma LogShape(s: State, t: nat, fault: bool)
    requires Inv(s) && Enabled(s, Go(t, fault)) && !s.threads[t].pc.ClearAll?
    ensures Sane(s.cap, |s.fifo|, s.threads[t])
    ensures Do(s, Go(t, fault)).log ==
      if s.threads[t].pc.Update? then s.log + [UpdateEvent(s, t, s.threads[t])] else s.log
  {
    assert ThreadOk(s.cap, |s.fifo|, s.threads[t]);
  }

  lemma NextIsCloser(cap: nat, fifo: seq<byte>, th: Thread)
    requires ThreadOk(cap, |fifo|, th) && ClientOk(cap, |fifo|, th) && !th.pc.Idle?
    requires th.call.ReadCall? || th.call.WriteCall?
    ensures StepsToMove(NextThread(cap, fifo, th, false).pc) <=
      StepsToMove(th.pc) + if th.pc.Update? then 13 else -1
  {
    match th.pc
    case Test =>
    case SigCheck =>
    case Copy =>
    case UpOut =>
    case ClearAll =>
    case PollTest =>
    case _ =>
  }

  lemma MovesDecrease(s: State, a: Action, msg: seq<byte>)
    requires Inv(s) && Session(s, msg) && Enabled(s, a) && ClientMove(s, a, msg)
    ensures Remaining(Do(s, a), msg) < Remaining(s, msg)
  {
    var th, s' := s.threads[a.t], Do(s, a);
    CallsDecrease(s, a, msg);
    assert ThreadOk(s.cap, |s.fifo|, th);
    assert s'.threads[1 - a.t].pc == s.threads[1 - a.t].pc;
    if a.Go? {
      NextIsCloser(s.cap, s.fifo, th);
    }
  }

  lemma ToMoveNotNegative(s: State, msg: seq<byte>)
    requires Session(s, msg)
    ensures ToMove(s, msg) >= 0
  {
  }

  ghost predicate CanMove(s: State, msg: seq<byte>) {
    exists a :: Enabled(s, a) && ClientMove(s, a, msg)
  }

  /** As long as the message has not arrived in full, one of the two can move. */
  lemma NeverStuckEarly(s: State, msg: seq<byte>)
    requires Inv(s) && Session(s, msg) && NoneMissed(s, true) && NoneMissed(s, false)
    requires Left(s.log) != msg
    ensures CanMove(s, msg)
  {
    var wr, rd := s.threads[WRITER], s.threads[READER];
    if CanGo(s, WRITER) {
      assert ClientMove(s, Go(WRITER, false), msg);
    } else if CanGo(s, READER) {
      assert ClientMove(s, Go(READER, false), msg);
    } else if rd.pc.Idle? {
      assert Enabled(s, Start(READER, ReadCall(1, false)));
      assert ClientMove(s, Start(READER, ReadCall(1, false)), msg);
    } else {
      ReaderAsleepEarly(s, msg);
      assert msg[|Arrived(s.log)|..][..1] <= msg[|Arrived(s.log)|..];
      var a := Start(WRITER, WriteCall(msg[|Arrived(s.log)|..][..1], false));
      assert Enabled(s, a) && ClientMove(s, a, msg);
    }
  }

  /** When nothing else can move, the reader sleeps on an empty buffer, so the writer is between
      calls with something left to send. */
  lemma ReaderAsleepEarly(s: State, msg: seq<byte>)
    requires Inv(s) && Session(s, msg) && NoneMissed(s, true) && NoneMissed(s, false)
    requires Left(s.log) != msg && !CanGo(s, WRITER) && !CanGo(s, READER) && !s.threads[READER].pc.Idle?
    ensures s.threads[WRITER].pc.Idle? && |Arrived(s.log)| < |msg|
  {
    assert Stuck(s);
    StuckSleepers(s);
    assert s.fifo == [];
    assert Arrived(s.log) == Left(s.log);
  }

  // ---------------------------------------------------------------------------------------------
  // Runs of the two programs

  ghost predicate ClientRun(s: State, acts: seq<Action>, msg: seq<byte>)
    requires Inv(s) && RunOk(s, acts)
    decreases |acts|
  {
    acts == [] || (
      && ClientMove(s, acts[0], msg)
      && (StepKeepsInv(s, acts[0]); ClientRun(Do(s, acts[0]), acts[1..], msg)))
  }

  ghost predicate Good(s: State, msg: seq<byte>) {
    Inv(s) && Session(s, msg) && NoneMissed(s, true) && NoneMissed(s, false)
  }

  lemma MoveKeepsGood(s: State, a: Action, msg: seq<byte>)
    requires Good(s, msg) && Enabled(s, a) && ClientMove(s, a, msg)
    ensures Good(Do(s, a), msg)
  {
    StepKeepsInv(s, a);
    MoveKeepsSession(s, a, msg);
    StepMissesNobody(s, a, true);
    assert !ClearsUnderSleepingWriter(s, a) by {
      assert ThreadOk(s.cap, |s.fifo|, s.threads[a.t]);
    }
    StepMissesNobody(s, a, false);
  }

  lemma {:induction false} RunShortens(s: State, acts: seq<Action>, msg: seq<byte>)
    requires Good(s, msg) && RunOk(s, acts) && ClientRun(s, acts, msg)
    ensures Good(Run(s, acts), msg)
    ensures |acts| + Remaining(Run(s, acts), msg) <= Remaining(s, msg)
    decreases |acts|
  {
    if acts != [] {
      MoveKeepsGood(s, acts[0], msg);
      MovesDecrease(s, acts[0], msg);
      RunShortens(Do(s, acts[0]), acts[1..], msg);
    }
  }

  lemma InitGood(cap: nat, msg: seq<byte>)
    requires cap > 0
    ensures Good(Init(cap, 2), msg)
    ensures Remaining(Init(cap, 2), msg) == 40 * |msg| + 22
  {
    InitOk(cap, 2);
    NobodySleepsAtFirst(cap, 2, true);
    NobodySleepsAtFirst(cap, 2, false);
    assert Init(cap, 2).threads[0] == FreshThread() && Init(cap, 2).threads[1] == FreshThread();
  }

  /** Complete transfer, for a message of any length through a buffer of any positive size and any
      choice of counts: however the two programs are scheduled, what the reader has got is at every
      point a prefix of the message; the run ends within 40 L + 22 steps; and a run that cannot go on
      has delivered the whole message, in order. */
  lemma CompleteTransfer(cap: nat, msg: seq<byte>, acts: seq<Action>)
    requires cap > 0 && RunOk(Loaded(cap, 2), acts) && ClientRun(Loaded(cap, 2), acts, msg)
    ensures var s := Run(Loaded(cap, 2), acts);
      && Left(s.log) <= msg
      && |acts| <= 40 * |msg| + 22
      && (!CanMove(s, msg) ==> Left(s.log) == msg)
  {
    InitGood(cap, msg);
    RunShortens(Loaded(cap, 2), acts, msg);
    var s := Run(Loaded(cap, 2), acts);
    ToMoveNotNegative(s, msg);
    assert Left(s.log) <= Arrived(s.log) <= msg;
    if Left(s.log) != msg {
      NeverStuckEarly(s, msg);
    }
  }
}
