/** What every kernel entry answers and leaves, from the registers it came with. */
module KernelEntries {
  import opened Wrappers
  import opened KernelState
  import opened KernelInvariant
  import opened KernelSteps
  import opened KernelEffects
  import opened KernelParties
  import opened KernelTurns

  // ---------------------------------------------------------------- sleeping and timed waits

  /** Thread `t` was left as `th`, and then another was run, timers that had run out being honoured. */
  ghost predicate Leaves(s: State, s': State, t: Tid, th: Thread, now: Word) {
    && s'.threads.Keys == s.threads.Keys && t in s.threads
    && s'.threads[t] == TurnOf(th, s'.current == Some(t), now)
    && forall u | u in s.threads && u != t :: s'.threads[u] == TurnOf(s.threads[u], s'.current == Some(u), now)
  }

  lemma LeftBy(s: State, s2: State, s': State, t: Tid, th: Thread, now: Word)
    requires s2.threads == s.threads[t := th] && t in s.threads && s2.current == None && Turned(s2, s', now)
    ensures Leaves(s, s', t, th, now)
  {
    assert s2.threads.Keys == s.threads.Keys;
  }

  function Asleep(th: Thread, ctx: Registers, deadline: Word): Thread {
    Thread(Sleeping, ctx.(rax := 0), None, true, deadline, th.caller)
  }

  /** A duration that is not positive is refused; else the thread sleeps until its deadline, with result 0. */
  ghost predicate SleepDone(s: State, ctx: Registers, armedAt: Word, now: Word, r: Reply)
    requires s.current.Some?
  {
    var t := s.current.value;
    if ctx.rdi == 0 || ctx.rdi >= 0x8000_0000_0000_0000 then r == Reply(s, Some(Neg(EINVAL)))
    else
      && r.result == None && t in s.threads
      && Leaves(s, r.state, t, Asleep(s.threads[t], ctx, (ctx.rdi + armedAt) % 0x1_0000_0000_0000_0000), now)
  }

  /** The sleeping thread's record before scheduling. */
  lemma SleepIs(s: State, ctx: Registers, armedAt: Word, t: Tid) returns (s2: State)
    requires Inv(s) && s.current == Some(t)
    ensures Save(s, ctx.(rax := 0)).Ok?
    ensures var s1 := Save(s, ctx.(rax := 0)).value.0;
            && t in s1.threads && s1.threads[t].root == None
            && SetTimeout(SetThread(s1, t, s1.threads[t].(state := Sleeping)), t, ctx.rdi, armedAt) == Ok(s2)
    ensures Inv(s2) && s2.current == None && t in s.threads
    ensures s2.threads == s.threads[t := Asleep(s.threads[t], ctx, (ctx.rdi + armedAt) % WORD)]
  {
    SaveDoes(s, ctx.(rax := 0));
    var s1 := Save(s, ctx.(rax := 0)).value.0;
    assert t in FloatingIn(s1.threads);
    assert Placed(s1.threads[t]);
    SleepArmed(s1, t, ctx.rdi, armedAt);
    s2 := SetTimeout(SetThread(s1, t, s1.threads[t].(state := Sleeping)), t, ctx.rdi, armedAt).value;
  }

  lemma SleepDoes(s: State, ctx: Registers, armedAt: Word, now: Word)
    requires Inv(s) && s.current.Some?
    ensures Sleep(s, ctx, armedAt, now).Ok? && SleepDone(s, ctx, armedAt, now, Sleep(s, ctx, armedAt, now).value)
  {
    SleepKeeps(s, ctx, armedAt, now);
    if Signed(ctx.rdi) > 0 {
      var t := s.current.value;
      var s2 := SleepIs(s, ctx, armedAt, t);
      ScheduleTurns(s2, ZERO, now);
      LeftBy(s, s2, Schedule(s2, ZERO, now).value, t, Asleep(s.threads[t], ctx, (ctx.rdi + armedAt) % WORD), now);
    }
  }

  function OnLine(th: Thread, ctx: Registers, irq: nat, deadline: Word): Thread {
    Thread(Waiting, ctx.(rax := Neg(EAGAIN)), Some(IrqQueue(irq)), true, deadline, th.caller)
  }

  /**
    A control call that does not ask to wait answers 0; a wait on a latched line answers 0 and
    unlatches it; one that may not last answers EAGAIN; any other waits last on the line until
    its deadline, with EAGAIN as its result should it expire.
   */
  ghost predicate IrqDone(s: State, irq: nat, op: Word, ctx: Registers, armedAt: Word, now: Word, r: Reply)
    requires s.current.Some? && irq < |s.irqs|
  {
    var t, q := s.current.value, IrqQueue(irq);
    if op >= 4 then r == Reply(s, Some(Neg(EINVAL)))
    else if op % 2 == 0 then r == Reply(s, Some(0))
    else if s.irqs[irq].occurred then r == Reply(s.(irqs := s.irqs[irq := Irq(s.irqs[irq].claimed, false)]), Some(0))
    else if ctx.rdx == 0 || ctx.rdx >= 0x8000_0000_0000_0000 then r == Reply(s, Some(Neg(EAGAIN)))
    else
      var deadline: Word := (ctx.rdx + armedAt) % 0x1_0000_0000_0000_0000;
      && r.result == None && r.state.irqs == s.irqs && t in s.threads
      && Leaves(s, r.state, t, OnLine(s.threads[t], ctx, irq, deadline), now)
      && q in s.queues && q in r.state.queues
      && r.state.queues[q] == Remaining(s.threads, s.queues[q], now) + if deadline < now then [] else [t]
  }

  /** The waiting thread's record before scheduling, and the line's queue. */
  lemma WaitIs(s: State, irq: nat, ctx: Registers, armedAt: Word, t: Tid) returns (s2: State)
    requires Inv(s) && s.current == Some(t) && irq < |s.irqs| && !s.irqs[irq].occurred
    ensures Save(s, ctx.(rax := Neg(EAGAIN))).Ok?
    ensures var s1 := Save(s, ctx.(rax := Neg(EAGAIN))).value.0; ArmWait(s1, t, irq, ctx.rdx, armedAt) == Ok(s2)
    ensures Inv(s2) && s2.current == None && t in s.threads && IrqQueue(irq) in s.queues && s2.irqs == s.irqs
    ensures s2.threads == s.threads[t := OnLine(s.threads[t], ctx, irq, (ctx.rdx + armedAt) % WORD)]
    ensures s2.queues == s.queues[IrqQueue(irq) := s.queues[IrqQueue(irq)] + [t]] && t !in s.queues[IrqQueue(irq)]
  {
    SaveDoes(s, ctx.(rax := Neg(EAGAIN)));
    var s1 := Save(s, ctx.(rax := Neg(EAGAIN))).value.0;
    assert t in FloatingIn(s1.threads);
    assert Placed(s1.threads[t]);
    WaitArmed(s1, t, irq, ctx.rdx, armedAt);
    NotQueued(s, t, IrqQueue(irq));
    s2 := ArmWait(s1, t, irq, ctx.rdx, armedAt).value;
  }

  lemma IrqControlDoes(s: State, irq: nat, op: Word, ctx: Registers, armedAt: Word, now: Word)
    requires Inv(s) && s.current.Some? && irq < |s.irqs| && s.irqs[irq].claimed
    ensures IrqControl(s, irq, op, ctx, armedAt, now).Ok?
    ensures IrqDone(s, irq, op, ctx, armedAt, now, IrqControl(s, irq, op, ctx, armedAt, now).value)
  {
    IrqControlKeeps(s, irq, op, ctx, armedAt, now);
    if op < 4 && op % 2 == 1 && !s.irqs[irq].occurred && Signed(ctx.rdx) > 0 {
      var t, q := s.current.value, IrqQueue(irq);
      var s2 := WaitIs(s, irq, ctx, armedAt, t);
      var th := OnLine(s.threads[t], ctx, irq, (ctx.rdx + armedAt) % WORD);
      ScheduleTurns(s2, ZERO, now);
      LeftBy(s, s2, Schedule(s2, ZERO, now).value, t, th, now);
      RemainingLast(s2.threads, s.queues[q], t, now);
      RemainingFrame(s.threads, s.queues[q], t, th, now);
    }
  }

  // ---------------------------------------------------------------- which kind of message a request is

  /**
    A direct call: refused in the system class; without the string bit a register message; with
    it a string, which must lie in user memory, small up to 4096 bytes.
   */
  ghost predicate CallAnswered(s: State, i: nat, ctx: Registers, hardware: Fault, o: Outcome<Reply>)
    requires s.current.Some? && i < |s.servers|
  {
    if ctx.r10 / 0x1_0000 % 0x1_0000 == 0 then o == Ok(Reply(s, Some(Neg(EPERM))))
    else if ctx.r10 % 2 == 1 && !InUser(ctx.rsi, ctx.rdx) then o == Ok(Reply(s, Some(Neg(EFAULT))))
    else ModeCalled(s, i, if ctx.r10 % 2 == 0 then 0 else if ctx.rdx <= 4096 then 1 else 2, ctx, hardware, o)
  }

  ghost predicate ModeCalled(s: State, i: nat, mode: nat, ctx: Registers, hardware: Fault, o: Outcome<Reply>)
    requires s.current.Some? && i < |s.servers| && mode < TRANSFER_MAX
  {
    |s.servers[i].transferMap| == TRANSFER_MAX && CallDone(s, i, mode, s.servers[i].transferMap[mode], ctx, hardware, o)
  }

  /** A read or a write, in its own mode: the buffer, of at most 2^63 - 1 bytes, must lie in user memory. */
  ghost predicate HandleAnswered(s: State, i: nat, mode: nat, ctx: Registers, hardware: Fault, o: Outcome<Reply>)
    requires s.current.Some? && i < |s.servers| && mode < TRANSFER_MAX
  {
    if !InUser(ctx.rsi, if ctx.rdx < 0x7fff_ffff_ffff_ffff then ctx.rdx else 0x7fff_ffff_ffff_ffff) then o == Ok(Reply(s, Some(Neg(EFAULT))))
    else ModeCalled(s, i, mode, ctx, hardware, o)
  }

  lemma ModeDoes(s: State, i: nat, mode: nat, ctx: Registers, hardware: Fault, now: Word)
    requires Inv(s) && s.current.Some? && i < |s.servers| && mode < TRANSFER_MAX
    ensures ModeCalled(s, i, mode, ctx, hardware, CallServer(s, i, mode, ctx, hardware, now))
  {
    CallServerDoes(s, i, mode, ctx, hardware, now);
  }

  /** The class bits of a mode, as the code masks them. */
  lemma ClassBits(m: Word)
    ensures m % 0x1_0000_0000 / 0x1_0000 == m / 0x1_0000 % 0x1_0000
  {
    var hi, mid, low := m / 0x1_0000_0000, m / 0x1_0000 % 0x1_0000, m % 0x1_0000;
    assert m == hi * 0x1_0000_0000 + mid * 0x1_0000 + low;
    assert m % 0x1_0000_0000 == mid * 0x1_0000 + low;
  }

  /** The mode of a direct call. */
  lemma CallModeIs(ctx: Registers)
    ensures CallTransferMode(ctx) ==
              if ctx.r10 / 0x1_0000 % 0x1_0000 == 0 then Refused(EPERM)
              else if ctx.r10 % 2 == 1 && !InUser(ctx.rsi, ctx.rdx) then Refused(EFAULT)
              else Mode(if ctx.r10 % 2 == 0 then 0 else if ctx.rdx <= 4096 then 1 else 2)
  {
    ClassBits(ctx.r10);
    RangeExact(ctx.rsi, ctx.rdx);
  }

  lemma CallDoes(s: State, i: nat, ctx: Registers, hardware: Fault, now: Word)
    requires Inv(s) && s.current.Some? && i < |s.servers|
    ensures CallAnswered(s, i, ctx, hardware, Request(s, i, CallTransferMode(ctx), ctx, hardware, now))
  {
    CallModeIs(ctx);
    match CallTransferMode(ctx)
    case Refused(_) =>
    case Mode(mode) => ModeDoes(s, i, mode, ctx, hardware, now);
  }

  lemma HandleDoes(s: State, i: nat, mode: nat, ctx: Registers, hardware: Fault, now: Word)
    requires Inv(s) && s.current.Some? && i < |s.servers| && mode < TRANSFER_MAX
    ensures HandleAnswered(s, i, mode, ctx, hardware, Request(s, i, HandleTransferMode(mode, ctx), ctx, hardware, now))
  {
    RangeExact(ctx.rsi, if ctx.rdx < ISIZE_MAX then ctx.rdx else ISIZE_MAX);
    ModeDoes(s, i, mode, ctx, hardware, now);
  }

  // ---------------------------------------------------------------- all entries

  /** The error answers, as the words a program finds in its result register. */
  lemma ErrorAnswers()
    ensures Neg(EINVAL) == 0xffff_ffff_ffff_ffff && Neg(EBADF) == 0xffff_ffff_ffff_fff8 && Neg(EFAULT) == 0xffff_ffff_ffff_fff7
    ensures Neg(EBUSY) == 0xffff_ffff_ffff_fff3 && Neg(EAGAIN) == 0xffff_ffff_ffff_fff2 && Neg(E2BIG) == 0xffff_ffff_ffff_ffed
    ensures Neg(EPERM) == 0xffff_ffff_ffff_ffec && Neg(EIPCIO) == 0xffff_ffff_ffff_ffeb && Neg(ENODEV) == 0xffff_ffff_ffff_ffea
    ensures Neg(EIPCNX) == 0xffff_ffff_ffff_ffe8
  {
  }

  /** An interrupt has been noted on its line, if there is one: the first waiter is ready with result 1, or the line is latched. */
  ghost predicate Received(s: State, s1: State, irq: nat) {
    if irq >= |s.irqs| then s1 == s
    else
      && IrqQueue(irq) in s.queues
      && var ts := s.queues[IrqQueue(irq)];
         if ts == [] then s1 == s.(irqs := s.irqs[irq := Irq(s.irqs[irq].claimed, true)])
         else
           && ts[0] in s.threads && s1.threads.Keys == s.threads.Keys && WokenWith(s.threads[ts[0]], s1.threads[ts[0]], 1)
           && (forall u | u in s.threads && u != ts[0] :: s1.threads[u] == s.threads[u])
           && s1.current == s.current && s1.servers == s.servers && s1.irqs == s.irqs && OneReadied(s.queues, s1.queues, irq)
  }

  ghost predicate Rescheduled(s: State, s': State, ctx: Registers, now: Word) { Scheduled(s, s', ctx, now) && Turned(s, s', now) }

  ghost predicate InterruptDone(s: State, irq: nat, ctx: Registers, now: Word, r: Reply) {
    r.result == None && exists s1 :: Received(s, s1, irq) && Rescheduled(s1, r.state, ctx, now)
  }

  lemma InterruptDoes(s: State, irq: nat, ctx: Registers, now: Word)
    requires Inv(s) && Step(s, EnterInterrupt(irq, ctx, now)).Ok?
    ensures InterruptDone(s, irq, ctx, now, Step(s, EnterInterrupt(irq, ctx, now)).value)
  {
    ReceiveIrqKeeps(s, irq);
    if irq < |s.irqs| { ReceiveIrqDoes(s, irq); }
    var s1 := ReceiveIrq(s, irq).value;
    ScheduleDoes(s1, ctx, now);
    ScheduleTurns(s1, ctx, now);
    assert Received(s, s1, irq);
  }

  ghost predicate ClaimDone(s: State, line: int, r: Reply) {
    if !(0 <= line < |s.irqs|) then r == Reply(s, Some(Neg(EINVAL)))
    else if s.irqs[line].claimed then r == Reply(s, Some(Neg(EBUSY)))
    else r == Reply(s.(irqs := s.irqs[line := Irq(true, s.irqs[line].occurred)]), Some(0))
  }

  ghost predicate ReleaseDone(s: State, irq: nat, r: Reply) {
    irq < |s.irqs| && r.result == Some(0) && AllWoken(s, r.state, irq, Neg(EBADF)) && r.state.irqs == s.irqs[irq := Irq(false, s.irqs[irq].occurred)]
  }

  ghost predicate SpawnDone(s: State, t: Tid, regs: Registers, r: Reply) {
    && r.result == Some(0) && RunQueue in s.queues
    && r.state.threads == s.threads[t := Thread(Ready, regs, Some(RunQueue), false, 0, None)]
    && r.state.queues == s.queues[RunQueue := s.queues[RunQueue] + [t]] && r.state.current == s.current && r.state.sleepers == s.sleepers
  }

  ghost predicate RespondDone(s: State, ctx: Registers, hardware: Fault, r: Reply)
    requires s.current.Some? && s.current.value in s.threads
  {
    match s.threads[s.current.value].caller
    case None => r == Reply(s, Some(Neg(ENODEV)))
    case Some(c) => c in s.threads && Responded(s, c, s.current.value, s.threads[c].regs, ctx, hardware, r)
  }

  /** What the entry answers and leaves. */
  ghost predicate EntryDone(s: State, e: Entry, r: Reply)
    requires Inv(s) && Enabled(s, e)
  {
    match e
    case EnterCall(i, ctx, hw, now) => CallAnswered(s, i, ctx, hw, Ok(r))
    case EnterRead(i, ctx, hw, now) => HandleAnswered(s, i, 3, ctx, hw, Ok(r))
    case EnterWrite(i, ctx, hw, now) => HandleAnswered(s, i, 4, ctx, hw, Ok(r))
    case EnterListen(i, ctx, hw, now) => ListenDone(s, i, ctx, hw, Ok(r))
    case EnterRespond(ctx, hw, now) => s.current.value in s.threads && RespondDone(s, ctx, hw, r)
    case EnterSleep(ctx, armedAt, now) => SleepDone(s, ctx, armedAt, now, r)
    case EnterIrqControl(irq, op, ctx, armedAt, now) => IrqDone(s, irq, op, ctx, armedAt, now, r)
    case EnterClaim(line) => ClaimDone(s, line, r)
    case EnterRelease(irq) => ReleaseDone(s, irq, r)
    case EnterSpawn(t, regs) => SpawnDone(s, t, regs, r)
    case EnterCreate(transfers) => CreateDone(s, transfers, r)
    case EnterInterrupt(irq, ctx, now) => InterruptDone(s, irq, ctx, now, r)
    case EnterTick(ctx, now) => r.result == None && Rescheduled(s, r.state, ctx, now)
  }

  /** Every entry that does not halt does what is said of it. */
  lemma StepDoes(s: State, e: Entry)
    requires Inv(s) && Enabled(s, e) && Step(s, e).Ok?
    ensures EntryDone(s, e, Step(s, e).value)
  {
    match e
    case EnterCall(i, ctx, hw, now) => CallDoes(s, i, ctx, hw, now);
    case EnterRead(i, ctx, hw, now) => HandleDoes(s, i, 3, ctx, hw, now);
    case EnterWrite(i, ctx, hw, now) => HandleDoes(s, i, 4, ctx, hw, now);
    case EnterListen(i, ctx, hw, now) => ListenDoes(s, i, ctx, hw, now);
    case EnterRespond(ctx, hw, now) => RespondDoes(s, ctx, hw, now);
    case EnterSleep(ctx, armedAt, now) => SleepDoes(s, ctx, armedAt, now);
    case EnterIrqControl(irq, op, ctx, armedAt, now) => IrqControlDoes(s, irq, op, ctx, armedAt, now);
    case EnterClaim(line) =>
    case EnterRelease(irq) => ReleaseIrqDoes(s, irq);
    case EnterSpawn(t, regs) => AddThreadDoes(s, t, regs);
    case EnterCreate(transfers) => CreateServerDoes(s, transfers);
    case EnterInterrupt(irq, ctx, now) => InterruptDoes(s, irq, ctx, now);
    case EnterTick(ctx, now) =>
      ScheduleDoes(s, ctx, now);
      ScheduleTurns(s, ctx, now);
  }
}
