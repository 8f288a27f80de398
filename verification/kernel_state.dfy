/**
  The kernel's thread, IPC, interrupt and scheduler state as one value, and every kernel
  entry as a total function on it.  An intrusive queue is the sequence of its threads, the
  sleep list the sequence of armed threads.  A failed kernel assertion, a panic and a null
  dereference are all `Halt`.
 */
module KernelState {
  import opened Wrappers

  const WORD: int := 0x1_0000_0000_0000_0000
  const LOW_HALF_MAX: int := 0x0000_8000_0000_0000
  const ISIZE_MAX: int := 0x7fff_ffff_ffff_ffff
  const PATH_MAX: int := 4096
  const TRANSFER_MAX: int := 5
  const IRQ_COUNT: int := 16

  type Word = w: int | 0 <= w < WORD
  type Tid = int

  /** What one kernel operation yields: a value, or a halted machine. */
  datatype Outcome<+T> = Ok(value: T) | Halt {
    predicate IsFailure() { Halt? }
    function PropagateFailure<U>(): Outcome<U> requires Halt? { Halt }
    function Extract(): T requires Ok? { value }
  }

  // Error numbers; a failing system call returns the two's complement of one of them.
  const EINVAL: Word := 1
  const EBADF: Word := 8
  const EFAULT: Word := 9
  const EBUSY: Word := 13
  const EAGAIN: Word := 14
  const E2BIG: Word := 19
  const EPERM: Word := 20
  const EIPCIO: Word := 21
  const ENODEV: Word := 22
  const EIPCNX: Word := 24

  function Neg(e: Word): Word { if e == 0 then 0 else WORD - e }

  /** The 64-bit word read as a signed number. */
  function Signed(w: Word): int { if w <= ISIZE_MAX then w else w - WORD }

  datatype ThreadState = Floating | Running | Ready | Waiting | Sleeping | Calling

  datatype QueueId =
    | RunQueue
    | ChannelQueue(server: nat, channel: nat)
    | IrqQueue(irq: nat)

  /**
    The saved registers that carry system call arguments and results.  Argument 2 and
    result 1 share `rdx`; `r10` is the IPC mode, `rsi` and `rdx` the string buffer.
   */
  datatype Registers = Registers(
    rax: Word, rdi: Word, rsi: Word, rdx: Word, r10: Word, r8: Word, r9: Word, rip: Word)

  /**
    `root` is the queue the thread's node is linked in, `armed` says that its timeout is
    linked in the sleep list, and `caller` is the in-flight call the thread is serving.
   */
  datatype Thread = Thread(
    state: ThreadState, regs: Registers, root: Option<QueueId>,
    armed: bool, deadline: Word, caller: Option<Tid>)

  datatype ChannelState = Empty | Listened | Called

  datatype Server = Server(transferMap: seq<nat>, channels: seq<ChannelState>)

  datatype Irq = Irq(claimed: bool, occurred: bool)

  datatype WaitEnd = Interrupted | TimedOut | Released

  /** History of what happened; nothing in the kernel reads it. */
  datatype Event =
    | CallMade(q: QueueId, caller: Tid)
    | ListenMade(q: QueueId, listener: Tid)
    | Paired(q: QueueId, caller: Tid, listener: Tid)
    | Delivered(caller: Tid, holder: Tid)
    | Completed(caller: Tid, holder: Tid)
    | Copied(source: Tid, dest: Tid, count: Word, sourceLen: Word, destLen: Word)
    | WaitBegun(thread: Tid, irq: nat)
    | WaitEnded(thread: Tid, irq: nat, how: WaitEnd)

  datatype State = State(
    threads: map<Tid, Thread>,
    queues: map<QueueId, seq<Tid>>,
    sleepers: seq<Tid>,
    servers: seq<Server>,
    irqs: seq<Irq>,
    current: Option<Tid>,
    log: seq<Event>)

  function SetThread(s: State, t: Tid, th: Thread): State {
    s.(threads := s.threads[t := th])
  }

  function Logged(s: State, e: Event): State {
    s.(log := s.log + [e])
  }

  function Without(ts: seq<Tid>, t: Tid): seq<Tid> {
    if ts == [] then []
    else if ts[0] == t then ts[1..]
    else [ts[0]] + Without(ts[1..], t)
  }

  // ---------------------------------------------------------------- queues

  function Enqueue(s: State, q: QueueId, t: Tid): Outcome<State> {
    if t !in s.threads || q !in s.queues || s.threads[t].root != None then Halt
    else Ok(s.(
      threads := s.threads[t := s.threads[t].(root := Some(q))],
      queues := s.queues[q := s.queues[q] + [t]]))
  }

  /** Pops the head of a queue known to be non-empty. */
  function Dequeue(s: State, q: QueueId): Outcome<(State, Tid)> {
    if q !in s.queues || s.queues[q] == [] then Halt
    else
      var t := s.queues[q][0];
      if t !in s.threads || s.threads[t].root != Some(q) then Halt
      else Ok((s.(
        threads := s.threads[t := s.threads[t].(root := None)],
        queues := s.queues[q := s.queues[q][1..]]), t))
  }

  /** Unlinks a node from whichever queue holds it. */
  function Unlink(s: State, t: Tid): Outcome<State> {
    if t !in s.threads || s.threads[t].root == None || s.threads[t].root.value !in s.queues then Halt
    else
      var q := s.threads[t].root.value;
      Ok(s.(
        threads := s.threads[t := s.threads[t].(root := None)],
        queues := s.queues[q := Without(s.queues[q], t)]))
  }

  // ---------------------------------------------------------------- timeouts

  function DeadlineIn(threads: map<Tid, Thread>, t: Tid): Word {
    if t in threads then threads[t].deadline else 0
  }

  /** Inserts before the first sleeper with a strictly later deadline. */
  function InsertByDeadline(threads: map<Tid, Thread>, ts: seq<Tid>, t: Tid, deadline: Word): seq<Tid> {
    if ts == [] then [t]
    else if deadline < DeadlineIn(threads, ts[0]) then [t] + ts
    else [ts[0]] + InsertByDeadline(threads, ts[1..], t, deadline)
  }

  function SetTimeout(s: State, t: Tid, ns: Word, now: Word): Outcome<State> {
    if t !in s.threads || s.threads[t].armed then Halt
    else
      var deadline: Word := (ns + now) % WORD;
      Ok(s.(
        threads := s.threads[t := s.threads[t].(armed := true, deadline := deadline)],
        sleepers := InsertByDeadline(s.threads, s.sleepers, t, deadline)))
  }

  function Cancel(s: State, t: Tid): State {
    if t !in s.threads || !s.threads[t].armed then s
    else s.(
      threads := s.threads[t := s.threads[t].(armed := false, deadline := 0)],
      sleepers := Without(s.sleepers, t))
  }

  // ---------------------------------------------------------------- thread and scheduler primitives

  function MakeReady(s: State, t: Tid): Outcome<State> {
    if t !in s.threads || s.threads[t].state != Floating then Halt
    else Enqueue(SetThread(s, t, s.threads[t].(state := Ready)), RunQueue, t)
  }

  function PushInto(s: State, t: Tid, q: QueueId): Outcome<State> {
    if t !in s.threads || s.threads[t].state != Floating
      || s.threads[t].root != None || s.threads[t].armed then Halt
    else Enqueue(SetThread(s, t, s.threads[t].(state := Waiting)), q, t)
  }

  function PopFrom(s: State, q: QueueId): Outcome<(State, Tid)> {
    var (s1, t) :- Dequeue(s, q);
    if t !in s1.threads || s1.threads[t].state != Waiting then Halt
    else Ok((Cancel(SetThread(s1, t, s1.threads[t].(state := Floating)), t), t))
  }

  function Wake(s: State, t: Tid, result: Word): Outcome<State> {
    if t !in s.threads || !(s.threads[t].state == Sleeping || s.threads[t].state == Waiting)
      || s.threads[t].root != None then Halt
    else
      var th := s.threads[t];
      MakeReady(Cancel(SetThread(s, t, th.(state := Floating, regs := th.regs.(rax := result))), t), t)
  }

  /** Takes the head waiter of an interrupt line off its queue and readies it. */
  function WakeHead(s: State, irq: nat, result: Word, how: WaitEnd): Outcome<State> {
    var (s1, t) :- Dequeue(s, IrqQueue(irq));
    Wake(Logged(s1, WaitEnded(t, irq, how)), t, result)
  }

  function WakeAll(s: State, irq: nat, result: Word): Outcome<State>
    decreases if IrqQueue(irq) in s.queues then |s.queues[IrqQueue(irq)]| else 0
  {
    var q := IrqQueue(irq);
    if q !in s.queues then Halt
    else if s.queues[q] == [] then Ok(s)
    else
      var s1 :- WakeHead(s, irq, result, Released);
      if q in s1.queues && |s1.queues[q]| < |s.queues[q]| then WakeAll(s1, irq, result) else Halt
  }

  /** One round of the expiry loop: the first sleeper leaves both its lists and becomes ready. */
  function ExpireHead(s: State): Outcome<State> {
    if s.sleepers == [] || s.sleepers[0] !in s.threads then Halt
    else
      var t := s.sleepers[0];
      var th := s.threads[t];
      var s1 :- (match th.state
        case Waiting => Unlink(s, t)
        case Sleeping => (if th.root != None then Halt else Ok(s))
        case _ => Halt);
      if t !in s1.threads then Halt
      else
        var s2 := s1.(
          threads := s1.threads[t := s1.threads[t].(state := Floating, armed := false, deadline := 0)],
          sleepers := s.sleepers[1..]);
        MakeReady(if th.root.Some? && th.root.value.IrqQueue?
                  then Logged(s2, WaitEnded(t, th.root.value.irq, TimedOut)) else s2, t)
  }

  function WakeSleepers(s: State, now: Word): Outcome<State>
    decreases |s.sleepers|
  {
    if s.sleepers == [] || !(DeadlineIn(s.threads, s.sleepers[0]) < now) then Ok(s)
    else
      var s1 :- ExpireHead(s);
      if |s1.sleepers| < |s.sleepers| then WakeSleepers(s1, now) else Halt
  }

  /** Saves the user context of the running thread and detaches it from the processor. */
  function Save(s: State, ctx: Registers): Outcome<(State, Tid)> {
    if s.current == None || s.current.value !in s.threads
      || s.threads[s.current.value].state != Running then Halt
    else
      var t := s.current.value;
      Ok((SetThread(s, t, s.threads[t].(state := Floating, regs := ctx)).(current := None), t))
  }

  function Restore(s: State, t: Tid): Outcome<State> {
    if s.current != None || t !in s.threads || s.threads[t].state != Floating then Halt
    else Ok(SetThread(s, t, s.threads[t].(state := Running)).(current := Some(t)))
  }

  /** Sends the running thread, if there is one, to the back of the run queue. */
  function Preempt(s: State, ctx: Registers): Outcome<State> {
    if s.current == None then Ok(s)
    else
      var (saved, running) :- Save(s, ctx);
      MakeReady(saved, running)
  }

  function Schedule(s: State, ctx: Registers, now: Word): Outcome<State> {
    var s1 :- WakeSleepers(s, now);
    if RunQueue !in s1.queues then Halt
    else if s1.queues[RunQueue] == [] then Ok(s1)
    else
      var (s2, t) :- Dequeue(s1, RunQueue);
      if t !in s2.threads || s2.threads[t].state != Ready then Halt
      else
        var s3 := SetThread(s2, t, s2.threads[t].(state := Floating));
        var s4 :- Preempt(s3, ctx);
        Restore(s4, t)
  }

  /** Reached only after the running thread was saved: runs another thread or idles. */
  function ScheduleOrIdle(s: State, ctx: Registers, now: Word): Outcome<State> {
    if s.current != None then Halt else Schedule(s, ctx, now)
  }

  // ---------------------------------------------------------------- IPC

  const TXSTR: Word := 1
  const RXSTR: Word := 2
  const FRAGMENT: Word := 4
  const SYSTEM_READ_MODE: Word := 0x102
  const SYSTEM_WRITE_MODE: Word := 0x205

  const TRANSFER_REGISTER := 0
  const TRANSFER_SMALLSTR := 1
  const TRANSFER_LARGESTR := 2
  const TRANSFER_READ := 3
  const TRANSFER_WRITE := 4

  predicate HasFlag(mode: Word, flag: Word) requires flag != 0 { mode / flag % 2 == 1 }

  predicate UserRangeOk(pointer: Word, len: Word) {
    && pointer < LOW_HALF_MAX
    && (pointer + len + WORD - 1) % WORD < LOW_HALF_MAX
    && Signed(len) > 0
  }

  /** How the page-by-page copy ended: the hardware decides where the range checks do not. */
  datatype Fault = NoFault | ReadFault | WriteFault

  function CopyFault(source: Registers, dest: Registers, count: Word, hardware: Fault): Fault {
    if !UserRangeOk(source.rsi, count) then ReadFault
    else if !UserRangeOk(dest.rsi, count) then WriteFault
    else hardware
  }

  function TransferError(s: State, shame: Word, guilty: Tid, innocent: Tid, now: Word): Outcome<State> {
    if guilty !in s.threads || innocent !in s.threads then Halt
    else
      var s1 := SetResult(s, guilty, Neg(shame));
      var s2 := SetResult(s1, innocent, Neg(EIPCIO));
      var s3 :- MakeReady(s2, guilty);
      var s4 :- MakeReady(s3, innocent);
      ScheduleOrIdle(s4, ZERO, now)
  }

  /** The context of a processor whose running thread has already been saved. */
  const ZERO := Registers(0, 0, 0, 0, 0, 0, 0, 0)

  function SetResult(s: State, t: Tid, result: Word): State
    requires t in s.threads
  {
    SetThread(s, t, s.threads[t].(regs := s.threads[t].regs.(rax := result)))
  }

  /** What the transfer does to the two register files, up to the string copy. */
  datatype Plan =
    | Refuse(error: Word, listener: Registers)
    | Copy(count: Word, caller: Registers, listener: Registers)
    | Direct(caller: Registers, listener: Registers)
    | BadMode

  function PlanTransfer(c: Registers, l0: Registers, mode: Word): Plan {
    var l := l0.(r8 := c.r8, r9 := c.r9);
    if mode == TRANSFER_REGISTER then
      Direct(c, l.(rsi := c.rsi, rdx := c.rdx, r10 := c.r10))
    else if mode == TRANSFER_SMALLSTR || mode == TRANSFER_LARGESTR then
      if c.rdx > l.rdx && !HasFlag(c.r10, FRAGMENT) then Refuse(E2BIG, l)
      else
        var len := if c.rdx > l.rdx then l.rdx else c.rdx;
        Copy(len, c, l.(rdx := len, r10 := c.r10))
    else if mode == TRANSFER_WRITE then
      var len := if l.rdx < c.rdx then l.rdx else c.rdx;
      Copy(len, c.(r10 := 0), l.(rdx := len, r10 := SYSTEM_WRITE_MODE))
    else if mode == TRANSFER_READ then
      Direct(c.(r10 := RXSTR), l.(rdx := c.rdx, r10 := SYSTEM_READ_MODE))
    else BadMode
  }

  /** Puts the call in flight: the caller blocks on its listener, which runs its callback. */
  function Deliver(s: State, c: Tid, l: Tid, callback: Word): Outcome<State>
    requires c in s.threads && l in s.threads
  {
    var s1 := SetThread(s, c, s.threads[c].(state := Calling));
    var lt := s1.threads[l];
    var s2 := SetThread(s1, l, lt.(caller := Some(c), regs := lt.regs.(rip := callback)));
    Restore(Logged(s2, Delivered(c, l)), l)
  }

  function SetRegs(s: State, t: Tid, regs: Registers): State
    requires t in s.threads
  {
    SetThread(s, t, s.threads[t].(regs := regs))
  }

  function CallTransfer(s: State, c: Tid, l: Tid, mode: Word, hardware: Fault, now: Word): Outcome<State> {
    if c !in s.threads || l !in s.threads
      || s.threads[c].state != Floating || s.threads[l].state != Floating
      || s.threads[l].caller != None then Halt
    else
      var cr, lr := s.threads[c].regs, s.threads[l].regs;
      match PlanTransfer(cr, lr, mode)
      case BadMode => Halt
      case Refuse(error, l') => TransferError(SetRegs(s, l, l'), error, c, l, now)
      case Direct(c', l') => Deliver(SetRegs(SetRegs(s, c, c'), l, l'), c, l, lr.r8)
      case Copy(count, c', l') =>
        DeliverCopy(SetRegs(SetRegs(s, c, c'), l, l'), c, l, Copied(c, l, count, cr.rdx, lr.rdx), lr.r8,
                    CopyFault(c', l', count, hardware), now)
  }

  /** A fault readies both parties with an error; otherwise the call goes in flight. */
  function DeliverCopy(s: State, c: Tid, l: Tid, copied: Event, callback: Word, fault: Fault, now: Word): Outcome<State>
    requires c in s.threads && l in s.threads
  {
    match fault
    case ReadFault => TransferError(s, EFAULT, c, l, now)
    case WriteFault => TransferError(s, EFAULT, l, c, now)
    case NoFault => Deliver(Logged(s, copied), c, l, callback)
  }

  function WithChannel(servers: seq<Server>, i: nat, j: nat, cs: ChannelState): seq<Server>
    requires i < |servers| && j < |servers[i].channels|
  {
    servers[i := servers[i].(channels := servers[i].channels[j := cs])]
  }

  function SetChannel(s: State, i: nat, j: nat, cs: ChannelState): State
    requires i < |s.servers| && j < |s.servers[i].channels|
  {
    s.(servers := WithChannel(s.servers, i, j, cs))
  }

  /** What a system call leaves: a state, and the result if the calling thread still runs. */
  datatype Reply = Reply(state: State, result: Option<Word>)

  function Return(s: State, result: Word): Outcome<Reply> { Ok(Reply(s, Some(result))) }

  /** A pop that empties a channel's queue also empties the channel. */
  function PopPartner(s: State, i: nat, j: nat): Outcome<(State, Tid)> {
    var q := ChannelQueue(i, j);
    var (s1, t) :- PopFrom(s, q);
    if i >= |s1.servers| || j >= |s1.servers[i].channels| || q !in s1.queues then Halt
    else Ok((if s1.queues[q] == [] then SetChannel(s1, i, j, Empty) else s1, t))
  }

  predicate ChannelExists(s: State, i: nat, j: nat) {
    i < |s.servers| && j < |s.servers[i].channels| && ChannelQueue(i, j) in s.queues
  }

  /** Parks a saved thread on a channel of its own kind and runs something else. */
  function ParkOn(s: State, t: Tid, i: nat, j: nat, kind: ChannelState, now: Word): Outcome<State>
    requires ChannelExists(s, i, j)
  {
    var s1 :- PushInto(SetChannel(s, i, j, kind), t, ChannelQueue(i, j));
    ScheduleOrIdle(s1, ZERO, now)
  }

  /** A call meets the first parked listener, or waits for one. */
  function CallOn(s: State, c: Tid, i: nat, j: nat, mode: Word, hardware: Fault, now: Word): Outcome<State>
    requires ChannelExists(s, i, j)
  {
    var q := ChannelQueue(i, j);
    match s.servers[i].channels[j]
    case Empty => if s.queues[q] != [] then Halt else ParkOn(s, c, i, j, Called, now)
    case Called => if s.queues[q] == [] then Halt else ParkOn(s, c, i, j, Called, now)
    case Listened =>
      var (s1, l) :- PopPartner(s, i, j);
      CallTransfer(Logged(s1, Paired(q, c, l)), c, l, mode, hardware, now)
  }

  /** A listener meets the first parked caller, whose mode is in its saved `rdi`, or waits. */
  function ListenOn(s: State, l: Tid, i: nat, j: nat, hardware: Fault, now: Word): Outcome<State>
    requires ChannelExists(s, i, j)
  {
    var q := ChannelQueue(i, j);
    match s.servers[i].channels[j]
    case Empty => if s.queues[q] != [] then Halt else ParkOn(s, l, i, j, Listened, now)
    case Listened => if s.queues[q] == [] then Halt else ParkOn(s, l, i, j, Listened, now)
    case Called =>
      var (s1, c) :- PopPartner(s, i, j);
      if c !in s1.threads then Halt
      else CallTransfer(Logged(s1, Paired(q, c, l)), c, l, s1.threads[c].regs.rdi, hardware, now)
  }

  function CallServer(s: State, i: nat, mode: nat, ctx: Registers, hardware: Fault, now: Word): Outcome<Reply> {
    if i >= |s.servers| || mode >= |s.servers[i].transferMap| || mode >= TRANSFER_MAX then Halt
    else
      var id := s.servers[i].transferMap[mode];
      if id == 0 then Return(s, Neg(EIPCNX))
      else
        var j := id - 1;
        var (s1, c) :- Save(s, ctx.(rdi := mode));
        if !ChannelExists(s1, i, j) then Halt
        else
          var s2 :- CallOn(Logged(s1, CallMade(ChannelQueue(i, j), c)), c, i, j, mode, hardware, now);
          Ok(Reply(s2, None))
  }

  datatype ModeChoice = Mode(mode: nat) | Refused(error: Word)

  /** A direct call may not use the system class, and a string must lie in user memory. */
  function CallTransferMode(ctx: Registers): ModeChoice {
    if ctx.r10 % 0x1_0000_0000 / 0x1_0000 == 0 then Refused(EPERM)
    else if !HasFlag(ctx.r10, TXSTR) then Mode(TRANSFER_REGISTER)
    else if !UserRangeOk(ctx.rsi, ctx.rdx) then Refused(EFAULT)
    else if ctx.rdx <= PATH_MAX then Mode(TRANSFER_SMALLSTR)
    else Mode(TRANSFER_LARGESTR)
  }

  /** Reads and writes of a server's handle check the capped buffer first. */
  function HandleTransferMode(mode: nat, ctx: Registers): ModeChoice {
    var len: Word := if ctx.rdx < ISIZE_MAX then ctx.rdx else ISIZE_MAX;
    if !UserRangeOk(ctx.rsi, len) then Refused(EFAULT) else Mode(mode)
  }

  function Request(s: State, i: nat, choice: ModeChoice, ctx: Registers, hardware: Fault, now: Word): Outcome<Reply> {
    match choice
    case Refused(error) => Return(s, Neg(error))
    case Mode(mode) => CallServer(s, i, mode, ctx, hardware, now)
  }

  /** Channel ids start at 1; the source indexes outside the channel array for id 0. */
  function Listen(s: State, i: nat, ctx: Registers, hardware: Fault, now: Word): Outcome<Reply> {
    if i >= |s.servers| then Halt
    else if ctx.r10 > |s.servers[i].channels| then Return(s, Neg(EINVAL))
    else if ctx.r10 == 0 then Halt
    else ListenAt(s, i, ctx.r10 - 1, ctx, hardware, now)
  }

  function ListenAt(s: State, i: nat, j: nat, ctx: Registers, hardware: Fault, now: Word): Outcome<Reply> {
    var (s1, l) :- Save(s, ctx);
    if !ChannelExists(s1, i, j) then Halt
    else
      var s2 :- ListenOn(Logged(s1, ListenMade(ChannelQueue(i, j), l)), l, i, j, hardware, now);
      Ok(Reply(s2, None))
  }

  /** The responder lets go of its caller, which floats until it is readied. */
  function Release(s: State, r: Tid, c: Tid): State
    requires r in s.threads && c in s.threads
  {
    var s1 := SetThread(s, r, s.threads[r].(caller := None));
    Logged(SetThread(s1, c, s1.threads[c].(state := Floating)), Completed(c, r))
  }

  function ReadyWith(s: State, c: Tid, regs: Registers, result: Word): Outcome<Reply>
    requires c in s.threads
  {
    var s1 :- MakeReady(SetRegs(s, c, regs), c);
    Return(s1, result)
  }

  /** The string answer: the responder is saved, and on success the caller runs at once. */
  function AnswerString(s: State, c: Tid, ctx: Registers, hardware: Fault, now: Word): Outcome<State>
    requires c in s.threads
  {
    var cr := s.threads[c].regs;
    var (s1, responder) :- Save(s, ctx);
    if responder !in s1.threads || c !in s1.threads then Halt
    else
      match CopyFault(ctx, cr, ctx.rdx, hardware)
      case ReadFault => TransferError(s1, EFAULT, responder, c, now)
      case WriteFault => TransferError(s1, EFAULT, c, responder, now)
      case NoFault =>
        var s2 := Logged(s1, Copied(responder, c, ctx.rdx, ctx.rdx, cr.rdx));
        var s3 := SetRegs(s2, c, cr.(rax := ctx.rdi, rdx := ctx.rdx));
        var s4 :- MakeReady(SetResult(s3, responder, 0), responder);
        Restore(s4, c)
  }

  /** Answers a released caller with registers, an error or a string. */
  function Answer(s: State, c: Tid, ctx: Registers, hardware: Fault, now: Word): Outcome<Reply>
    requires c in s.threads
  {
    var cr := s.threads[c].regs;
    if !HasFlag(ctx.r10, RXSTR) then ReadyWith(s, c, cr.(rax := ctx.rdi, rdx := ctx.rsi), 0)
    else if !HasFlag(cr.r10, RXSTR) then ReadyWith(s, c, cr.(rax := Neg(EIPCIO)), Neg(EINVAL))
    else if ctx.rdx > cr.rdx then ReadyWith(s, c, cr.(rax := Neg(EIPCIO)), Neg(E2BIG))
    else
      var s1 :- AnswerString(s, c, ctx, hardware, now);
      Ok(Reply(s1, None))
  }

  function Respond(s: State, ctx: Registers, hardware: Fault, now: Word): Outcome<Reply> {
    if s.current == None || s.current.value !in s.threads then Halt
    else
      var r := s.current.value;
      match s.threads[r].caller
      case None => Return(s, Neg(ENODEV))
      case Some(c) =>
        if c !in s.threads || s.threads[c].state != Calling then Halt
        else Answer(Release(s, r, c), c, ctx, hardware, now)
  }

  /** Builds a server from its five transfer slots; slot value `k` routes to channel `k`. */
  function MaxChannel(transfers: seq<nat>): nat {
    if transfers == [] then 0
    else
      var rest := MaxChannel(transfers[..|transfers| - 1]);
      var last := transfers[|transfers| - 1];
      if last > rest then last else rest
  }

  function ChannelQueues(i: nat, n: nat): map<QueueId, seq<Tid>> {
    if n == 0 then map[] else ChannelQueues(i, n - 1)[ChannelQueue(i, n - 1) := []]
  }

  function CreateServer(s: State, transfers: seq<nat>): Outcome<Reply> {
    if |transfers| != TRANSFER_MAX then Halt
    else if exists k | 0 <= k < |transfers| :: transfers[k] > TRANSFER_MAX then Return(s, Neg(EINVAL))
    else
      var n := MaxChannel(transfers);
      var i := |s.servers|;
      Return(s.(
        servers := s.servers + [Server(transfers, seq(n, _ => Empty))],
        queues := s.queues + ChannelQueues(i, n)), 0)
  }

  // ---------------------------------------------------------------- sleeping and interrupts

  function Sleep(s: State, ctx: Registers, armedAt: Word, now: Word): Outcome<Reply> {
    if Signed(ctx.rdi) <= 0 then Return(s, Neg(EINVAL))
    else
      var (s1, t) :- Save(s, ctx.(rax := 0));
      if t !in s1.threads || s1.threads[t].root != None then Halt
      else
        var s2 :- SetTimeout(SetThread(s1, t, s1.threads[t].(state := Sleeping)), t, ctx.rdi, armedAt);
        var s3 :- ScheduleOrIdle(s2, ZERO, now);
        Ok(Reply(s3, None))
  }

  function SetIrq(s: State, irq: nat, h: Irq): State
    requires irq < |s.irqs|
  {
    s.(irqs := s.irqs[irq := h])
  }

  /** `op` bit 0 asks to wait; bit 1 only reprograms the interrupt controller. */
  function IrqControl(s: State, irq: nat, op: Word, ctx: Registers, armedAt: Word, now: Word): Outcome<Reply> {
    if irq >= |s.irqs| || !s.irqs[irq].claimed then Halt
    else if op >= 4 then Return(s, Neg(EINVAL))
    else if op % 2 == 0 then Return(s, 0)
    else if s.irqs[irq].occurred then Return(SetIrq(s, irq, s.irqs[irq].(occurred := false)), 0)
    else if Signed(ctx.rdx) <= 0 then Return(s, Neg(EAGAIN))
    else
      var (s1, t) :- Save(s, ctx.(rax := Neg(EAGAIN)));
      var s2 :- ArmWait(s1, t, irq, ctx.rdx, armedAt);
      var s3 :- ScheduleOrIdle(s2, ZERO, now);
      Ok(Reply(s3, None))
  }

  /** Parks a thread on an interrupt line with a timeout. */
  function ArmWait(s: State, t: Tid, irq: nat, ns: Word, armedAt: Word): Outcome<State> {
    var s1 :- PushInto(s, t, IrqQueue(irq));
    SetTimeout(Logged(s1, WaitBegun(t, irq)), t, ns, armedAt)
  }

  function ReceiveIrq(s: State, irq: nat): Outcome<State> {
    if irq >= |s.irqs| then Ok(s)
    else if IrqQueue(irq) !in s.queues then Halt
    else if s.queues[IrqQueue(irq)] != [] then WakeHead(s, irq, 1, Interrupted)
    else Ok(SetIrq(s, irq, s.irqs[irq].(occurred := true)))
  }

  function ClaimIrq(s: State, irq: int): Outcome<Reply> {
    if irq < 0 || irq >= |s.irqs| then Return(s, Neg(EINVAL))
    else if s.irqs[irq].claimed then Return(s, Neg(EBUSY))
    else Return(SetIrq(s, irq, s.irqs[irq].(claimed := true)), 0)
  }

  function ReleaseIrq(s: State, irq: nat): Outcome<Reply> {
    if irq >= |s.irqs| then Halt
    else
      var s1 :- WakeAll(SetIrq(s, irq, s.irqs[irq].(claimed := false)), irq, Neg(EBADF));
      Return(s1, 0)
  }

  /** A new thread, from a spawn or a fork, starts floating and is readied at once. */
  function AddThread(s: State, t: Tid, regs: Registers): Outcome<Reply> {
    if t in s.threads then Halt
    else
      var s1 :- MakeReady(SetThread(s, t, Thread(Floating, regs, None, false, 0, None)), t);
      Return(s1, 0)
  }

  // ---------------------------------------------------------------- kernel entries

  /**
    Everything that enters the kernel.  `ctx` is the interrupted user context, `armedAt`
    and `now` are the clock readings the entry makes, and `hardware` is how a user-to-user
    copy ended.
   */
  datatype Entry =
    | EnterCall(server: nat, ctx: Registers, hardware: Fault, now: Word)
    | EnterRead(server: nat, ctx: Registers, hardware: Fault, now: Word)
    | EnterWrite(server: nat, ctx: Registers, hardware: Fault, now: Word)
    | EnterListen(server: nat, ctx: Registers, hardware: Fault, now: Word)
    | EnterRespond(ctx: Registers, hardware: Fault, now: Word)
    | EnterSleep(ctx: Registers, armedAt: Word, now: Word)
    | EnterIrqControl(irq: nat, op: Word, ctx: Registers, armedAt: Word, now: Word)
    | EnterClaim(line: int)
    | EnterRelease(irq: nat)
    | EnterSpawn(tid: Tid, regs: Registers)
    | EnterCreate(transfers: seq<nat>)
    | EnterInterrupt(irq: nat, ctx: Registers, now: Word)
    | EnterTick(ctx: Registers, now: Word)

  function Step(s: State, e: Entry): Outcome<Reply> {
    match e
    case EnterCall(i, ctx, hw, now) => Request(s, i, CallTransferMode(ctx), ctx, hw, now)
    case EnterRead(i, ctx, hw, now) => Request(s, i, HandleTransferMode(TRANSFER_READ, ctx), ctx, hw, now)
    case EnterWrite(i, ctx, hw, now) => Request(s, i, HandleTransferMode(TRANSFER_WRITE, ctx), ctx, hw, now)
    case EnterListen(i, ctx, hw, now) => Listen(s, i, ctx, hw, now)
    case EnterRespond(ctx, hw, now) => Respond(s, ctx, hw, now)
    case EnterSleep(ctx, armedAt, now) => Sleep(s, ctx, armedAt, now)
    case EnterIrqControl(irq, op, ctx, armedAt, now) => IrqControl(s, irq, op, ctx, armedAt, now)
    case EnterClaim(line) => ClaimIrq(s, line)
    case EnterRelease(irq) => ReleaseIrq(s, irq)
    case EnterSpawn(t, regs) => AddThread(s, t, regs)
    case EnterCreate(transfers) => CreateServer(s, transfers)
    case EnterInterrupt(irq, ctx, now) =>
      var s1 :- ReceiveIrq(s, irq);
      var s2 :- Schedule(s1, ctx, now);
      Ok(Reply(s2, None))
    case EnterTick(ctx, now) =>
      var s1 :- Schedule(s, ctx, now);
      Ok(Reply(s1, None))
  }

  /**
    What the hardware and the handle table guarantee about an entry: only a running thread
    makes system calls, server and interrupt handles name existing objects, and a new
    thread has a new address.
   */
  predicate Enabled(s: State, e: Entry) {
    match e
    case EnterInterrupt(_, _, _) => true
    case EnterTick(_, _) => true
    case EnterCall(i, _, _, _) => s.current.Some? && i < |s.servers|
    case EnterRead(i, _, _, _) => s.current.Some? && i < |s.servers|
    case EnterWrite(i, _, _, _) => s.current.Some? && i < |s.servers|
    case EnterListen(i, _, _, _) => s.current.Some? && i < |s.servers|
    case EnterRespond(_, _, _) => s.current.Some?
    case EnterSleep(_, _, _) => s.current.Some?
    case EnterIrqControl(irq, _, _, _, _) => s.current.Some? && irq < |s.irqs| && s.irqs[irq].claimed
    case EnterClaim(_) => s.current.Some?
    case EnterRelease(irq) => s.current.Some? && irq < |s.irqs|
    case EnterSpawn(t, _) => s.current.Some? && t !in s.threads
    case EnterCreate(transfers) => s.current.Some? && |transfers| == TRANSFER_MAX
  }

  function IrqQueues(n: nat): map<QueueId, seq<Tid>> {
    if n == 0 then map[] else IrqQueues(n - 1)[IrqQueue(n - 1) := []]
  }

  function UnclaimedIrqs(n: nat): (lines: seq<Irq>)
    ensures |lines| == n && forall k | 0 <= k < n :: lines[k] == Irq(false, false)
  {
    if n == 0 then [] else UnclaimedIrqs(n - 1) + [Irq(false, false)]
  }

  /** The state the boot code hands over: the first thread, readied, and no server. */
  const INITIAL := State(
    map[0 := Thread(Ready, ZERO, Some(RunQueue), false, 0, None)],
    IrqQueues(IRQ_COUNT)[RunQueue := [0]],
    [], [], UnclaimedIrqs(IRQ_COUNT), None, [])
}
