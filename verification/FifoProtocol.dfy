/** globalfifo as a transition system: any number of threads, one semaphore, two wait queues.

    Each thread runs one call at a time, one step per statement that another thread can observe.
    `read` and `write` have the same skeleton, so they share program counters; the line numbers of
    both are given at each counter. */
module FifoProtocol {
  import opened Bytes
  import opened FifoDevice

  const EAGAIN := 11
  const ERESTARTSYS := 512

  datatype Call =
    | NoCall
    | ReadCall(count: nat, nonblock: bool)
    | WriteCall(data: seq<byte>, nonblock: bool)
    | ClearCall
    | PollCall

  datatype Pc =
    | Idle      // in user space
    | Down1     // 130 / 197, 80, 99: down
    | AddWait   // 131 / 198: add_wait_queue
    | Test      // 134 / 201: empty? full?
    | SetState  // 142 / 209: __set_current_state(TASK_INTERRUPTIBLE)
    | UpSleep   // 144 / 210: up
    | Sched     // 146 / 212: schedule
    | SigCheck  // 148 / 213: signal_pending
    | Down2     // 154 / 219: down
    | Copy      // 158-163 / 223-226: clamp the count, copy to or from user space
    | Update    // 170-171 / 233: shift or extend, current_len
    | Wake      // 174 / 237: wake_up_interruptible
    | UpOut     // 181 / 246, 83, 114: up
    | Leave     // 183-186 / 249-252: remove_wait_queue, set_current_state, return
    | ClearAll  // 81-82
    | PollTest  // 101-112

  datatype Task = Running | Interruptible

  datatype Queue = NoQueue | RWait | WWait

  /** One thread.  `held` is its claim on the semaphore, `n` the clamped count, and `moved` records
      the bytes the call moved. */
  datatype Thread = Thread(
    pc: Pc, call: Call, task: Task, sig: bool, queue: Queue, held: bool, n: nat, ret: int,
    moved: seq<byte>, notes: Notes)

  /** What happened to the thread, for stating properties only: whether the current call went through
      `schedule`, the last poll bits, whether the last poll since its last read reported readable, and
      whether the current read started under such a report. */
  datatype Notes = Notes(slept: bool, pollIn: bool, pollOut: bool, ready: bool, promised: bool)

  datatype Event =
    | Accepted(who: nat, bytes: seq<byte>)
    | Delivered(who: nat, bytes: seq<byte>)
    | Discarded(who: nat, bytes: seq<byte>)

  datatype State = State(cap: nat, sem: int, fifo: seq<byte>, threads: seq<Thread>, log: seq<Event>)

  datatype Action =
    | Start(t: nat, call: Call)
    | Go(t: nat, fault: bool)
    | Signal(t: nat)
    | HandleSignal(t: nat)

  function FreshThread(): Thread {
    Thread(Idle, NoCall, Running, false, NoQueue, false, 0, 0, [], Notes(false, false, false, false, false))
  }

  function Init(cap: nat, k: nat): State {
    State(cap, 1, [], seq(k, _ => FreshThread()), [])
  }

  /** A blocked `down` waits for the semaphore; `schedule` comes back when the task is runnable, and
      does not sleep at all when a signal is pending. */
  predicate Enabled(s: State, a: Action) {
    && a.t < |s.threads|
    && var th := s.threads[a.t];
      match a
      case Start(_, call) => th.pc.Idle? && !call.NoCall?
      case Go(_, _) =>
        && !th.pc.Idle?
        && (th.pc.Down1? || th.pc.Down2? ==> s.sem > 0)
        && (th.pc.Sched? ==> th.task.Running? || th.sig)
      case Signal(_) => true
      case HandleSignal(_) => th.pc.Idle?
  }

  /** wake_up_interruptible: every interruptible waiter on the queue becomes runnable. */
  function WakeOne(th: Thread, q: Queue): Thread {
    if th.queue == q && th.task.Interruptible? then th.(task := Running) else th
  }

  function WakeAll(threads: seq<Thread>, q: Queue): (r: seq<Thread>)
    ensures |r| == |threads|
    ensures forall i :: 0 <= i < |r| ==> r[i] == WakeOne(threads[i], q)
  {
    seq(|threads|, i requires 0 <= i < |threads| => WakeOne(threads[i], q))
  }

  /** The clamped byte count of a read or write. */
  function Clamp(cap: nat, len: nat, call: Call): nat
    requires len <= cap && (call.ReadCall? || call.WriteCall?)
  {
    if call.ReadCall? then ReadCount(call.count, len) else WriteCount(|call.data|, len, cap)
  }

  /** Whether the call has to wait: empty for a read, full for a write. */
  predicate MustWait(cap: nat, len: nat, call: Call) {
    if call.ReadCall? then len == 0 else len == cap
  }

  /** The counters only a read or a write gets to. */
  predicate Transferring(pc: Pc) {
    !pc.Idle? && !pc.Down1? && !pc.UpOut? && !pc.ClearAll? && !pc.PollTest?
  }

  /** What the step of a thread relies on; part of the invariant. */
  predicate Sane(cap: nat, len: nat, th: Thread) {
    && len <= cap
    && (Transferring(th.pc) ==> th.call.ReadCall? || th.call.WriteCall?)
    && (th.pc.Update? && th.call.ReadCall? ==> th.n <= len)
    && (th.pc.Update? && th.call.WriteCall? ==> th.n <= |th.call.data| && len + th.n <= cap)
  }

  /** The counters up to the point where the call holds the semaphore for good. */
  predicate Waiting(pc: Pc) {
    pc.Down1? || pc.AddWait? || pc.Test? || pc.SetState? || pc.UpSleep? || pc.Sched? || pc.SigCheck? || pc.Down2?
  }

  /** The counters at which bytes move. */
  predicate Moving(pc: Pc) {
    pc.Copy? || pc.Update? || pc.Wake?
  }

  /** One step of a call, seen at the stepping thread: getting hold of the semaphore, with the sleep
      on the way; */
  function WaitStep(cap: nat, len: nat, th: Thread): Thread
    requires Sane(cap, len, th) && Waiting(th.pc)
  {
    match th.pc
    case Down1 =>
      var next := if th.call.ClearCall? then ClearAll else if th.call.PollCall? then PollTest else AddWait;
      th.(pc := next, held := true)
    case AddWait => th.(pc := Test, queue := if th.call.ReadCall? then RWait else WWait)
    case Test =>
      if !MustWait(cap, len, th.call) then th.(pc := Copy)
      else if th.call.nonblock then th.(pc := UpOut, ret := -EAGAIN)
      else th.(pc := SetState)
    case SetState => th.(pc := UpSleep, task := Interruptible)
    case UpSleep => th.(pc := Sched, held := false)
    case Sched => th.(pc := SigCheck, task := Running, notes := th.notes.(slept := true))
    case SigCheck => if th.sig then th.(pc := Leave, ret := -ERESTARTSYS) else th.(pc := Down2)
    case Down2 => th.(pc := Copy, held := true)
  }

  /** moving the bytes; */
  function MoveStep(cap: nat, fifo: seq<byte>, th: Thread, fault: bool): Thread
    requires Sane(cap, |fifo|, th) && Moving(th.pc)
  {
    match th.pc
    case Copy =>
      var n := Clamp(cap, |fifo|, th.call);
      if fault && n > 0 then th.(pc := UpOut, n := n, ret := -EFAULT) else th.(pc := Update, n := n)
    case Update =>
      if th.call.ReadCall? then th.(pc := Wake, moved := fifo[..th.n], notes := th.notes.(ready := false))
      else th.(pc := Wake, moved := th.call.data[..th.n])
    case Wake => th.(pc := UpOut, ret := th.n)
  }

  /** leaving, and the bodies of the other two calls. */
  function ExitStep(cap: nat, len: nat, th: Thread): Thread
    requires !Waiting(th.pc) && !Moving(th.pc)
  {
    match th.pc
    case Idle => th
    case UpOut =>
      th.(pc := if th.call.ClearCall? || th.call.PollCall? then Idle else Leave, held := false)
    case Leave => th.(pc := Idle, queue := NoQueue, task := Running)
    case ClearAll => th.(pc := UpOut, ret := 0)
    case PollTest =>
      var rd, wr := len != 0, len != cap;
      th.(pc := UpOut, ret := 0, notes := th.notes.(pollIn := rd, pollOut := wr, ready := rd))
  }

  function NextThread(cap: nat, fifo: seq<byte>, th: Thread, fault: bool): Thread
    requires Sane(cap, |fifo|, th)
  {
    if Waiting(th.pc) then WaitStep(cap, |fifo|, th)
    else if Moving(th.pc) then MoveStep(cap, fifo, th, fault)
    else ExitStep(cap, |fifo|, th)
  }

  /** The same step, seen at the semaphore: `down` takes one, `up` gives one back. */
  function NextSem(sem: int, pc: Pc): int {
    if pc.Down1? || pc.Down2? then sem - 1 else if pc.UpSleep? || pc.UpOut? then sem + 1 else sem
  }

  /** at the buffer contents: a read drops its bytes from the front, a write adds its bytes behind,
      a clear empties it. */
  function NextFifo(cap: nat, fifo: seq<byte>, th: Thread): (r: seq<byte>)
    requires Sane(cap, |fifo|, th)
    ensures |r| <= cap
  {
    if th.pc.Update? && th.call.ReadCall? then fifo[th.n..]
    else if th.pc.Update? && th.call.WriteCall? then fifo + th.call.data[..th.n]
    else if th.pc.ClearAll? then []
    else fifo
  }

  /** at the record of what went in and out. */
  function NextLog(s: State, t: nat, th: Thread): seq<Event>
    requires Sane(s.cap, |s.fifo|, th)
  {
    if th.pc.Update? && th.call.ReadCall? then s.log + [Delivered(t, s.fifo[..th.n])]
    else if th.pc.Update? && th.call.WriteCall? then s.log + [Accepted(t, th.call.data[..th.n])]
    else if th.pc.ClearAll? then s.log + [Discarded(t, s.fifo)]
    else s.log
  }

  /** and at the other threads: a read wakes the write queue, a write wakes the read queue, and a
      clear wakes nobody. */
  function NextOthers(s: State, th: Thread): (r: seq<Thread>)
    ensures |r| == |s.threads|
  {
    if th.pc.Wake? then WakeAll(s.threads, if th.call.ReadCall? then WWait else RWait) else s.threads
  }

  function Advance(s: State, t: nat, fault: bool): State
    requires t < |s.threads| && Sane(s.cap, |s.fifo|, s.threads[t])
  {
    var th := s.threads[t];
    State(s.cap, NextSem(s.sem, th.pc), NextFifo(s.cap, s.fifo, th),
          NextOthers(s, th)[t := NextThread(s.cap, s.fifo, th, fault)], NextLog(s, t, th))
  }

  /** A thread that has just entered a call. */
  function Enter(th: Thread, call: Call): Thread {
    th.(pc := Down1, call := call, ret := 0, moved := [],
        notes := th.notes.(slept := false, promised := th.notes.ready && call.ReadCall?))
  }

  function Do(s: State, a: Action): State
    requires Enabled(s, a) && Sane(s.cap, |s.fifo|, s.threads[a.t])
  {
    var th := s.threads[a.t];
    match a
    case Start(t, call) =>
      s.(threads := s.threads[t := Enter(th, call)])
    case Go(t, fault) => Advance(s, t, fault)
    case Signal(t) => s.(threads := s.threads[t := th.(sig := true, task := Running)])
    case HandleSignal(t) => s.(threads := s.threads[t := th.(sig := false)])
  }
}
