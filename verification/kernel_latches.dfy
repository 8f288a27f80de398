/**
  Interrupts and the waits they end: over any run a line has no more successful waits than
  interrupts, an interrupt that nobody waited for being kept for one wait.
 */
module KernelLatches {
  import opened Wrappers
  import opened KernelState
  import opened KernelInvariant
  import opened KernelSteps
  import opened KernelEffects
  import opened KernelParties
  import opened KernelEntries
  import opened KernelRuns

  // ---------------------------------------------------------------- what ends no wait with success

  predicate IsWin(e: Event) { e.WaitEnded? && e.how == Interrupted }

  /** Nothing was taken from the log, and no wait was logged as ended by an interrupt. */
  predicate LogQuiet(log: seq<Event>, log': seq<Event>) {
    && |log| <= |log'| && (forall i | 0 <= i < |log| :: log'[i] == log[i])
    && forall i | |log| <= i < |log'| :: !IsWin(log'[i])
  }

  /** No line is latched or unlatched, and no wait ends with success. */
  ghost predicate Quiet(s: State, o: Outcome<State>) { o.Ok? ==> o.value.irqs == s.irqs && LogQuiet(s.log, o.value.log) }

  ghost predicate QuietReply(s: State, o: Outcome<Reply>) { o.Ok? ==> o.value.state.irqs == s.irqs && LogQuiet(s.log, o.value.state.log) }

  lemma MakeReadyQuiet(s: State, t: Tid)
    ensures Quiet(s, MakeReady(s, t))
  {
  }

  lemma ExpireHeadQuiet(s: State)
    ensures Quiet(s, ExpireHead(s))
  {
  }

  lemma {:induction false} WakeSleepersQuiet(s: State, now: Word)
    ensures Quiet(s, WakeSleepers(s, now))
    decreases |s.sleepers|
  {
    if s.sleepers != [] && DeadlineIn(s.threads, s.sleepers[0]) < now {
      ExpireHeadQuiet(s);
      var o := ExpireHead(s);
      if o.Ok? && |o.value.sleepers| < |s.sleepers| { WakeSleepersQuiet(o.value, now); }
    }
  }

  lemma PreemptQuiet(s: State, ctx: Registers)
    ensures Quiet(s, Preempt(s, ctx))
  {
  }

  lemma ScheduleQuiet(s: State, ctx: Registers, now: Word)
    ensures Quiet(s, Schedule(s, ctx, now))
  {
    WakeSleepersQuiet(s, now);
    var o := WakeSleepers(s, now);
    if o.Ok? && RunQueue in o.value.queues && o.value.queues[RunQueue] != [] {
      var d := Dequeue(o.value, RunQueue);
      if d.Ok? {
        var s3 := SetThread(d.value.0, d.value.1, d.value.0.threads[d.value.1].(state := Floating));
        PreemptQuiet(s3, ctx);
      }
    }
  }

  lemma TransferErrorQuiet(s: State, shame: Word, guilty: Tid, innocent: Tid, now: Word)
    ensures Quiet(s, TransferError(s, shame, guilty, innocent, now))
  {
    if guilty in s.threads && innocent in s.threads {
      var s2 := SetResult(SetResult(s, guilty, Neg(shame)), innocent, Neg(EIPCIO));
      var s3 := MakeReady(s2, guilty);
      if s3.Ok? {
        var s4 := MakeReady(s3.value, innocent);
        if s4.Ok? { ScheduleQuiet(s4.value, ZERO, now); }
      }
    }
  }

  lemma DeliverQuiet(s: State, c: Tid, l: Tid, callback: Word)
    requires c in s.threads && l in s.threads
    ensures Quiet(s, Deliver(s, c, l, callback))
  {
  }

  lemma DeliverCopyQuiet(s: State, c: Tid, l: Tid, copied: Event, callback: Word, fault: Fault, now: Word)
    requires copied.Copied? && c in s.threads && l in s.threads
    ensures Quiet(s, DeliverCopy(s, c, l, copied, callback, fault, now))
  {
    match fault
    case ReadFault => TransferErrorQuiet(s, EFAULT, c, l, now);
    case WriteFault => TransferErrorQuiet(s, EFAULT, l, c, now);
    case NoFault => DeliverQuiet(Logged(s, copied), c, l, callback);
  }

  lemma CallTransferQuiet(s: State, c: Tid, l: Tid, mode: Word, hardware: Fault, now: Word)
    ensures Quiet(s, CallTransfer(s, c, l, mode, hardware, now))
  {
    if c in s.threads && l in s.threads {
      var cr, lr := s.threads[c].regs, s.threads[l].regs;
      match PlanTransfer(cr, lr, mode)
      case BadMode =>
      case Refuse(error, l') => TransferErrorQuiet(SetRegs(s, l, l'), error, c, l, now);
      case Direct(c', l') => DeliverQuiet(SetRegs(SetRegs(s, c, c'), l, l'), c, l, lr.r8);
      case Copy(count, c', l') =>
        DeliverCopyQuiet(SetRegs(SetRegs(s, c, c'), l, l'), c, l, Copied(c, l, count, cr.rdx, lr.rdx), lr.r8,
                        CopyFault(c', l', count, hardware), now);
    }
  }

  lemma PopPartnerQuiet(s: State, i: nat, j: nat)
    ensures PopPartner(s, i, j).Ok? ==> PopPartner(s, i, j).value.0.irqs == s.irqs && LogQuiet(s.log, PopPartner(s, i, j).value.0.log)
  {
  }

  lemma ParkOnQuiet(s: State, t: Tid, i: nat, j: nat, kind: ChannelState, now: Word)
    requires ChannelExists(s, i, j)
    ensures Quiet(s, ParkOn(s, t, i, j, kind, now))
  {
    var o := PushInto(SetChannel(s, i, j, kind), t, ChannelQueue(i, j));
    if o.Ok? { ScheduleQuiet(o.value, ZERO, now); }
  }

  lemma CallOnQuiet(s: State, c: Tid, i: nat, j: nat, mode: Word, hardware: Fault, now: Word)
    requires ChannelExists(s, i, j)
    ensures Quiet(s, CallOn(s, c, i, j, mode, hardware, now))
  {
    ParkOnQuiet(s, c, i, j, Called, now);
    PopPartnerQuiet(s, i, j);
    var o := PopPartner(s, i, j);
    if o.Ok? {
      var (s1, l) := o.value;
      CallTransferQuiet(Logged(s1, Paired(ChannelQueue(i, j), c, l)), c, l, mode, hardware, now);
    }
  }

  lemma ListenOnQuiet(s: State, l: Tid, i: nat, j: nat, hardware: Fault, now: Word)
    requires ChannelExists(s, i, j)
    ensures Quiet(s, ListenOn(s, l, i, j, hardware, now))
  {
    ParkOnQuiet(s, l, i, j, Listened, now);
    PopPartnerQuiet(s, i, j);
    var o := PopPartner(s, i, j);
    if o.Ok? && o.value.1 in o.value.0.threads {
      var (s1, c) := o.value;
      CallTransferQuiet(Logged(s1, Paired(ChannelQueue(i, j), c, l)), c, l, s1.threads[c].regs.rdi, hardware, now);
    }
  }

  lemma CallServerQuiet(s: State, i: nat, mode: nat, ctx: Registers, hardware: Fault, now: Word)
    ensures QuietReply(s, CallServer(s, i, mode, ctx, hardware, now))
  {
    if i < |s.servers| && mode < |s.servers[i].transferMap| && mode < TRANSFER_MAX && s.servers[i].transferMap[mode] > 0 {
      var j, o := s.servers[i].transferMap[mode] - 1, Save(s, ctx.(rdi := mode));
      if o.Ok? && ChannelExists(o.value.0, i, j) {
        CallOnQuiet(Logged(o.value.0, CallMade(ChannelQueue(i, j), o.value.1)), o.value.1, i, j, mode, hardware, now);
      }
    }
  }

  lemma RequestQuiet(s: State, i: nat, choice: ModeChoice, ctx: Registers, hardware: Fault, now: Word)
    ensures QuietReply(s, Request(s, i, choice, ctx, hardware, now))
  {
    if choice.Mode? { CallServerQuiet(s, i, choice.mode, ctx, hardware, now); }
  }

  lemma ListenAtQuiet(s: State, i: nat, j: nat, ctx: Registers, hardware: Fault, now: Word)
    ensures QuietReply(s, ListenAt(s, i, j, ctx, hardware, now))
  {
    var o := Save(s, ctx);
    if o.Ok? && ChannelExists(o.value.0, i, j) {
      ListenOnQuiet(Logged(o.value.0, ListenMade(ChannelQueue(i, j), o.value.1)), o.value.1, i, j, hardware, now);
    }
  }

  lemma ListenQuiet(s: State, i: nat, ctx: Registers, hardware: Fault, now: Word)
    ensures QuietReply(s, Listen(s, i, ctx, hardware, now))
  {
    if i < |s.servers| && 0 < ctx.r10 <= |s.servers[i].channels| { ListenOneQuiet(s, i, ctx.r10 - 1, ctx, hardware, now); }
  }

  lemma ListenOneQuiet(s: State, i: nat, j: nat, ctx: Registers, hardware: Fault, now: Word)
    requires i < |s.servers| && 0 < ctx.r10 <= |s.servers[i].channels| && j == ctx.r10 - 1
    ensures QuietReply(s, Listen(s, i, ctx, hardware, now))
  {
    ListenIs(s, i, j, ctx, hardware, now);
    ListenAtQuiet(s, i, j, ctx, hardware, now);
  }

  lemma AnswerStringQuiet(s: State, c: Tid, ctx: Registers, hardware: Fault, now: Word)
    requires c in s.threads
    ensures Quiet(s, AnswerString(s, c, ctx, hardware, now))
  {
    var o := Save(s, ctx);
    if o.Ok? {
      TransferErrorQuiet(o.value.0, EFAULT, o.value.1, c, now);
      TransferErrorQuiet(o.value.0, EFAULT, c, o.value.1, now);
    }
  }

  lemma AnswerQuiet(s: State, c: Tid, ctx: Registers, hardware: Fault, now: Word)
    requires c in s.threads
    ensures QuietReply(s, Answer(s, c, ctx, hardware, now))
  {
    AnswerStringQuiet(s, c, ctx, hardware, now);
  }

  lemma RespondQuiet(s: State, ctx: Registers, hardware: Fault, now: Word)
    ensures QuietReply(s, Respond(s, ctx, hardware, now))
  {
    if s.current.Some? && s.current.value in s.threads && s.threads[s.current.value].caller.Some? {
      var r := s.current.value;
      var c := s.threads[r].caller.value;
      if c in s.threads { AnswerQuiet(Release(s, r, c), c, ctx, hardware, now); }
    }
  }

  lemma SleepQuiet(s: State, ctx: Registers, armedAt: Word, now: Word)
    ensures QuietReply(s, Sleep(s, ctx, armedAt, now))
  {
    var o := Save(s, ctx.(rax := 0));
    if o.Ok? {
      var (s1, t) := o.value;
      var o2 := SetTimeout(SetThread(s1, t, s1.threads[t].(state := Sleeping)), t, ctx.rdi, armedAt);
      if o2.Ok? { ScheduleQuiet(o2.value, ZERO, now); }
    }
  }

  lemma IrqControlQuiet(s: State, irq: nat, op: Word, ctx: Registers, armedAt: Word, now: Word)
    requires op >= 4 || op % 2 == 0 || irq >= |s.irqs| || !s.irqs[irq].occurred
    ensures QuietReply(s, IrqControl(s, irq, op, ctx, armedAt, now))
  {
    var o := Save(s, ctx.(rax := Neg(EAGAIN)));
    if o.Ok? {
      var o2 := ArmWait(o.value.0, o.value.1, irq, ctx.rdx, armedAt);
      if o2.Ok? { ScheduleQuiet(o2.value, ZERO, now); }
    }
  }

  lemma WakeHeadQuiet(s: State, irq: nat, result: Word, how: WaitEnd)
    requires how != Interrupted
    ensures Quiet(s, WakeHead(s, irq, result, how))
  {
  }

  lemma {:induction false} WakeAllQuiet(s: State, irq: nat, result: Word)
    ensures Quiet(s, WakeAll(s, irq, result))
    decreases if IrqQueue(irq) in s.queues then |s.queues[IrqQueue(irq)]| else 0
  {
    var q := IrqQueue(irq);
    if q in s.queues && s.queues[q] != [] {
      WakeHeadQuiet(s, irq, result, Released);
      var o := WakeHead(s, irq, result, Released);
      if o.Ok? && q in o.value.queues && |o.value.queues[q]| < |s.queues[q]| { WakeAllQuiet(o.value, irq, result); }
    }
  }

  // ---------------------------------------------------------------- counting

  /** How many waits on the line an interrupt has ended. */
  function Wins(log: seq<Event>, irq: nat): nat
    decreases |log|
  {
    if log == [] then 0
    else Wins(log[..|log| - 1], irq) + if IsWin(log[|log| - 1]) && log[|log| - 1].irq == irq then 1 else 0
  }

  lemma {:induction false} WinsQuiet(log: seq<Event>, log': seq<Event>, irq: nat)
    requires LogQuiet(log, log')
    ensures Wins(log', irq) == Wins(log, irq)
    decreases |log'|
  {
    if |log'| == |log| { assert log' == log; } else { WinsQuiet(log, log'[..|log'| - 1], irq); }
  }

  lemma WinsOne(log: seq<Event>, e: Event, irq: nat)
    ensures Wins(log + [e], irq) == Wins(log, irq) + if IsWin(e) && e.irq == irq then 1 else 0
  {
    assert (log + [e])[..|log|] == log;
  }

  function Latch(s: State, irq: nat): nat { if irq < |s.irqs| && s.irqs[irq].occurred then 1 else 0 }

  function IsInterrupt(e: Entry, irq: nat): nat { if e.EnterInterrupt? && e.irq == irq then 1 else 0 }

  /** A wait on the line that the entry answers with success at once. */
  function AnsweredBy(s: State, e: Entry, irq: nat): nat {
    if e.EnterIrqControl? && e.irq == irq && e.op < 4 && e.op % 2 == 1 && Step(s, e).Ok? && Step(s, e).value.result == Some(0) then 1 else 0
  }

  /** An interrupt on a line that is latched already. */
  function Merged(s: State, e: Entry, irq: nat): nat { if IsInterrupt(e, irq) == 1 && Latch(s, irq) == 1 then 1 else 0 }

  /** Interrupts and what is latched are used up by waits ended, waits answered, what is latched then, and interrupts merged. */
  ghost predicate Balanced(s: State, e: Entry, s': State, irq: nat) {
    && |s'.irqs| == |s.irqs|
    && Wins(s'.log, irq) + AnsweredBy(s, e, irq) + Latch(s', irq) + Merged(s, e, irq) == Wins(s.log, irq) + IsInterrupt(e, irq) + Latch(s, irq)
  }

  lemma QuietBalanced(s: State, e: Entry, irq: nat)
    requires Step(s, e).Ok? && QuietReply(s, Step(s, e)) && !e.EnterInterrupt? && AnsweredBy(s, e, irq) == 0
    ensures Balanced(s, e, Step(s, e).value.state, irq)
  {
    WinsQuiet(s.log, Step(s, e).value.state.log, irq);
  }

  /** A wake by an interrupt is logged. */
  lemma WakeLogged(s: State, line: nat)
    requires Inv(s) && line < |s.irqs| && IrqQueue(line) in s.queues && s.queues[IrqQueue(line)] != []
    ensures WakeHead(s, line, 1, Interrupted).Ok?
    ensures WakeHead(s, line, 1, Interrupted).value.log == s.log + [WaitEnded(s.queues[IrqQueue(line)][0], line, Interrupted)]
    ensures WakeHead(s, line, 1, Interrupted).value.irqs == s.irqs && !s.irqs[line].occurred
  {
    var t := s.queues[IrqQueue(line)][0];
    assert t in s.queues[IrqQueue(line)];
    assert Placed(s.threads[t]);
    WakeHeadKeeps(s, line, 1, Interrupted);
    WakeHeadIs(s, line, 1, Interrupted);
    assert ValidId(s.servers, IrqQueue(line));
  }

  lemma ReceiptCounts(s: State, line: nat, irq: nat)
    requires Inv(s) && irq < |s.irqs|
    ensures ReceiveIrq(s, line).Ok?
    ensures var s1, here := ReceiveIrq(s, line).value, if line == irq then 1 else 0;
            && |s1.irqs| == |s.irqs|
            && Wins(s1.log, irq) + Latch(s1, irq) + (if here == 1 && Latch(s, irq) == 1 then 1 else 0) == Wins(s.log, irq) + here + Latch(s, irq)
  {
    ReceiveIrqKeeps(s, line);
    if line < |s.irqs| && s.queues[IrqQueue(line)] != [] {
      WakeLogged(s, line);
      WinsOne(s.log, WaitEnded(s.queues[IrqQueue(line)][0], line, Interrupted), irq);
    }
  }

  lemma InterruptCounts(s: State, e: Entry, irq: nat)
    requires Inv(s) && e.EnterInterrupt? && Step(s, e).Ok? && irq < |s.irqs|
    ensures Balanced(s, e, Step(s, e).value.state, irq)
  {
    ReceiptCounts(s, e.irq, irq);
    var s1 := ReceiveIrq(s, e.irq).value;
    ScheduleQuiet(s1, e.ctx, e.now);
    WinsQuiet(s1.log, Schedule(s1, e.ctx, e.now).value.log, irq);
  }

  lemma ControlCounts(s: State, e: Entry, irq: nat)
    requires Inv(s) && e.EnterIrqControl? && Enabled(s, e) && Step(s, e).Ok? && irq < |s.irqs|
    ensures Balanced(s, e, Step(s, e).value.state, irq)
  {
    var line, op := e.irq, e.op;
    IrqControlDoes(s, line, op, e.ctx, e.armedAt, e.now);
    if op >= 4 || op % 2 == 0 || !s.irqs[line].occurred {
      IrqControlQuiet(s, line, op, e.ctx, e.armedAt, e.now);
      QuietBalanced(s, e, irq);
    }
  }

  lemma ReleaseCounts(s: State, e: Entry, irq: nat)
    requires Inv(s) && e.EnterRelease? && Enabled(s, e) && Step(s, e).Ok? && irq < |s.irqs|
    ensures Balanced(s, e, Step(s, e).value.state, irq)
  {
    var s1 := SetIrq(s, e.irq, s.irqs[e.irq].(claimed := false));
    WakeAllQuiet(s1, e.irq, Neg(EBADF));
    WinsQuiet(s1.log, Step(s, e).value.state.log, irq);
  }

  lemma StepCounts(s: State, e: Entry, irq: nat)
    requires Inv(s) && Enabled(s, e) && Step(s, e).Ok? && irq < |s.irqs|
    ensures Balanced(s, e, Step(s, e).value.state, irq)
  {
    match e {
      case EnterCall(i, ctx, hw, now) => RequestQuiet(s, i, CallTransferMode(ctx), ctx, hw, now); QuietBalanced(s, e, irq);
      case EnterRead(i, ctx, hw, now) => RequestQuiet(s, i, HandleTransferMode(TRANSFER_READ, ctx), ctx, hw, now); QuietBalanced(s, e, irq);
      case EnterWrite(i, ctx, hw, now) => RequestQuiet(s, i, HandleTransferMode(TRANSFER_WRITE, ctx), ctx, hw, now); QuietBalanced(s, e, irq);
      case EnterListen(i, ctx, hw, now) => ListenQuiet(s, i, ctx, hw, now); QuietBalanced(s, e, irq);
      case EnterRespond(ctx, hw, now) => RespondQuiet(s, ctx, hw, now); QuietBalanced(s, e, irq);
      case EnterSleep(ctx, armedAt, now) => SleepQuiet(s, ctx, armedAt, now); QuietBalanced(s, e, irq);
      case EnterIrqControl(_, _, _, _, _) => ControlCounts(s, e, irq);
      case EnterClaim(line) =>
      case EnterRelease(_) => ReleaseCounts(s, e, irq);
      case EnterSpawn(t, regs) => QuietBalanced(s, e, irq);
      case EnterCreate(transfers) => QuietBalanced(s, e, irq);
      case EnterInterrupt(_, _, _) => InterruptCounts(s, e, irq);
      case EnterTick(ctx, now) => ScheduleQuiet(s, ctx, now); QuietBalanced(s, e, irq);
    }
  }

  // ---------------------------------------------------------------- runs

  function Interrupts(entries: seq<Entry>, irq: nat): nat { if entries == [] then 0 else IsInterrupt(entries[0], irq) + Interrupts(entries[1..], irq) }

  /** The waits on the line that a run answers with success at once. */
  function Answers(s: State, entries: seq<Entry>, irq: nat): nat
    decreases |entries|
  {
    if entries == [] || Step(s, entries[0]).Halt? then 0
    else AnsweredBy(s, entries[0], irq) + Answers(Step(s, entries[0]).value.state, entries[1..], irq)
  }

  /** The interrupts of a run that find the line latched already. */
  function Merges(s: State, entries: seq<Entry>, irq: nat): nat
    decreases |entries|
  {
    if entries == [] || Step(s, entries[0]).Halt? then 0
    else Merged(s, entries[0], irq) + Merges(Step(s, entries[0]).value.state, entries[1..], irq)
  }

  lemma {:induction false} RunCounts(s: State, entries: seq<Entry>, s': State, irq: nat)
    requires Inv(s) && RunsTo(s, entries, s') && irq < |s.irqs|
    ensures Wins(s'.log, irq) + Answers(s, entries, irq) + Latch(s', irq) + Merges(s, entries, irq)
            == Wins(s.log, irq) + Interrupts(entries, irq) + Latch(s, irq)
    decreases |entries|
  {
    if entries != [] {
      var s1 := Step(s, entries[0]).value.state;
      StepKeeps(s, entries[0]);
      StepCounts(s, entries[0], irq);
      RunCounts(s1, entries[1..], s', irq);
    }
  }

  /** Each interrupt on a line ends one wait with success, before or after it came, or is still latched, or came while another was. */
  lemma OneWaitEach(entries: seq<Entry>, s: State, irq: nat)
    requires RunsTo(INITIAL, entries, s) && irq < 16
    ensures Wins(s.log, irq) + Answers(INITIAL, entries, irq) + Latch(s, irq) + Merges(INITIAL, entries, irq) == Interrupts(entries, irq)
  {
    InitialOk();
    RunCounts(INITIAL, entries, s, irq);
  }
}
