/**
  What kernel entries do to the threads beyond keeping the invariant: none is lost, and each
  party of an entry is left with the registers, in the state and at the place that the entry names.
 */
module KernelEffects {
  import opened Wrappers
  import opened KernelState
  import opened KernelInvariant
  import opened KernelSteps

  // ---------------------------------------------------------------- no primitive loses a thread

  ghost predicate SameThreads(s: State, o: Outcome<State>) { o.Ok? ==> o.value.threads.Keys == s.threads.Keys }

  ghost predicate SameThreadsReply(s: State, o: Outcome<Reply>) { o.Ok? ==> o.value.state.threads.Keys == s.threads.Keys }

  lemma MakeReadySame(s: State, t: Tid)
    ensures SameThreads(s, MakeReady(s, t))
  {
  }

  lemma ExpireHeadSame(s: State)
    ensures SameThreads(s, ExpireHead(s))
  {
  }

  lemma {:induction false} WakeSleepersSame(s: State, now: Word)
    ensures SameThreads(s, WakeSleepers(s, now))
    decreases |s.sleepers|
  {
    if s.sleepers != [] && DeadlineIn(s.threads, s.sleepers[0]) < now {
      ExpireHeadSame(s);
      var o := ExpireHead(s);
      if o.Ok? && |o.value.sleepers| < |s.sleepers| { WakeSleepersSame(o.value, now); }
    }
  }

  lemma PreemptSame(s: State, ctx: Registers)
    ensures SameThreads(s, Preempt(s, ctx))
  {
  }

  lemma ScheduleSame(s: State, ctx: Registers, now: Word)
    ensures SameThreads(s, Schedule(s, ctx, now))
  {
    WakeSleepersSame(s, now);
    var o := WakeSleepers(s, now);
    if o.Ok? && RunQueue in o.value.queues && o.value.queues[RunQueue] != [] {
      var d := Dequeue(o.value, RunQueue);
      if d.Ok? {
        var s3 := SetThread(d.value.0, d.value.1, d.value.0.threads[d.value.1].(state := Floating));
        PreemptSame(s3, ctx);
      }
    }
  }

  lemma TransferErrorSame(s: State, shame: Word, guilty: Tid, innocent: Tid, now: Word)
    ensures SameThreads(s, TransferError(s, shame, guilty, innocent, now))
  {
    if guilty in s.threads && innocent in s.threads {
      var s2 := SetResult(SetResult(s, guilty, Neg(shame)), innocent, Neg(EIPCIO));
      var s3 := MakeReady(s2, guilty);
      if s3.Ok? {
        var s4 := MakeReady(s3.value, innocent);
        if s4.Ok? { ScheduleSame(s4.value, ZERO, now); }
      }
    }
  }

  lemma DeliverSame(s: State, c: Tid, l: Tid, callback: Word)
    requires c in s.threads && l in s.threads
    ensures SameThreads(s, Deliver(s, c, l, callback))
  {
  }

  lemma DeliverCopySame(s: State, c: Tid, l: Tid, copied: Event, callback: Word, fault: Fault, now: Word)
    requires c in s.threads && l in s.threads
    ensures SameThreads(s, DeliverCopy(s, c, l, copied, callback, fault, now))
  {
    match fault
    case ReadFault => TransferErrorSame(s, EFAULT, c, l, now);
    case WriteFault => TransferErrorSame(s, EFAULT, l, c, now);
    case NoFault => DeliverSame(Logged(s, copied), c, l, callback);
  }

  lemma CallTransferSame(s: State, c: Tid, l: Tid, mode: Word, hardware: Fault, now: Word)
    ensures SameThreads(s, CallTransfer(s, c, l, mode, hardware, now))
  {
    if c in s.threads && l in s.threads {
      var cr, lr := s.threads[c].regs, s.threads[l].regs;
      match PlanTransfer(cr, lr, mode)
      case BadMode =>
      case Refuse(error, l') => TransferErrorSame(SetRegs(s, l, l'), error, c, l, now);
      case Direct(c', l') => DeliverSame(SetRegs(SetRegs(s, c, c'), l, l'), c, l, lr.r8);
      case Copy(count, c', l') =>
        DeliverCopySame(SetRegs(SetRegs(s, c, c'), l, l'), c, l, Copied(c, l, count, cr.rdx, lr.rdx), lr.r8,
                        CopyFault(c', l', count, hardware), now);
    }
  }

  lemma PopPartnerSame(s: State, i: nat, j: nat)
    ensures PopPartner(s, i, j).Ok? ==> PopPartner(s, i, j).value.0.threads.Keys == s.threads.Keys
  {
  }

  lemma ParkOnSame(s: State, t: Tid, i: nat, j: nat, kind: ChannelState, now: Word)
    requires ChannelExists(s, i, j)
    ensures SameThreads(s, ParkOn(s, t, i, j, kind, now))
  {
    var o := PushInto(SetChannel(s, i, j, kind), t, ChannelQueue(i, j));
    if o.Ok? { ScheduleSame(o.value, ZERO, now); }
  }

  lemma CallOnSame(s: State, c: Tid, i: nat, j: nat, mode: Word, hardware: Fault, now: Word)
    requires ChannelExists(s, i, j)
    ensures SameThreads(s, CallOn(s, c, i, j, mode, hardware, now))
  {
    ParkOnSame(s, c, i, j, Called, now);
    PopPartnerSame(s, i, j);
    var o := PopPartner(s, i, j);
    if o.Ok? {
      var (s1, l) := o.value;
      CallTransferSame(Logged(s1, Paired(ChannelQueue(i, j), c, l)), c, l, mode, hardware, now);
    }
  }

  lemma ListenOnSame(s: State, l: Tid, i: nat, j: nat, hardware: Fault, now: Word)
    requires ChannelExists(s, i, j)
    ensures SameThreads(s, ListenOn(s, l, i, j, hardware, now))
  {
    ParkOnSame(s, l, i, j, Listened, now);
    PopPartnerSame(s, i, j);
    var o := PopPartner(s, i, j);
    if o.Ok? && o.value.1 in o.value.0.threads {
      var (s1, c) := o.value;
      CallTransferSame(Logged(s1, Paired(ChannelQueue(i, j), c, l)), c, l, s1.threads[c].regs.rdi, hardware, now);
    }
  }

  lemma CallServerSame(s: State, i: nat, mode: nat, ctx: Registers, hardware: Fault, now: Word)
    ensures SameThreadsReply(s, CallServer(s, i, mode, ctx, hardware, now))
  {
    if i < |s.servers| && mode < |s.servers[i].transferMap| && mode < TRANSFER_MAX && s.servers[i].transferMap[mode] > 0 {
      var j, o := s.servers[i].transferMap[mode] - 1, Save(s, ctx.(rdi := mode));
      if o.Ok? && ChannelExists(o.value.0, i, j) {
        CallOnSame(Logged(o.value.0, CallMade(ChannelQueue(i, j), o.value.1)), o.value.1, i, j, mode, hardware, now);
      }
    }
  }

  lemma RequestSame(s: State, i: nat, choice: ModeChoice, ctx: Registers, hardware: Fault, now: Word)
    ensures SameThreadsReply(s, Request(s, i, choice, ctx, hardware, now))
  {
    if choice.Mode? { CallServerSame(s, i, choice.mode, ctx, hardware, now); }
  }

  lemma ListenAtSame(s: State, i: nat, j: nat, ctx: Registers, hardware: Fault, now: Word)
    ensures SameThreadsReply(s, ListenAt(s, i, j, ctx, hardware, now))
  {
    var o := Save(s, ctx);
    if o.Ok? && ChannelExists(o.value.0, i, j) {
      ListenOnSame(Logged(o.value.0, ListenMade(ChannelQueue(i, j), o.value.1)), o.value.1, i, j, hardware, now);
    }
  }

  lemma ListenSame(s: State, i: nat, ctx: Registers, hardware: Fault, now: Word)
    ensures SameThreadsReply(s, Listen(s, i, ctx, hardware, now))
  {
    if i < |s.servers| && 0 < ctx.r10 <= |s.servers[i].channels| { ListenOneSame(s, i, ctx.r10 - 1, ctx, hardware, now); }
  }

  lemma ListenOneSame(s: State, i: nat, j: nat, ctx: Registers, hardware: Fault, now: Word)
    requires i < |s.servers| && 0 < ctx.r10 <= |s.servers[i].channels| && j == ctx.r10 - 1
    ensures SameThreadsReply(s, Listen(s, i, ctx, hardware, now))
  {
    ListenIs(s, i, j, ctx, hardware, now);
    ListenAtSame(s, i, j, ctx, hardware, now);
  }

  lemma AnswerStringSame(s: State, c: Tid, ctx: Registers, hardware: Fault, now: Word)
    requires c in s.threads
    ensures SameThreads(s, AnswerString(s, c, ctx, hardware, now))
  {
    var o := Save(s, ctx);
    if o.Ok? {
      TransferErrorSame(o.value.0, EFAULT, o.value.1, c, now);
      TransferErrorSame(o.value.0, EFAULT, c, o.value.1, now);
    }
  }

  lemma AnswerSame(s: State, c: Tid, ctx: Registers, hardware: Fault, now: Word)
    requires c in s.threads
    ensures SameThreadsReply(s, Answer(s, c, ctx, hardware, now))
  {
    AnswerStringSame(s, c, ctx, hardware, now);
  }

  lemma RespondSame(s: State, ctx: Registers, hardware: Fault, now: Word)
    ensures SameThreadsReply(s, Respond(s, ctx, hardware, now))
  {
    if s.current.Some? && s.current.value in s.threads && s.threads[s.current.value].caller.Some? {
      var r := s.current.value;
      var c := s.threads[r].caller.value;
      if c in s.threads { AnswerSame(Release(s, r, c), c, ctx, hardware, now); }
    }
  }

  lemma SleepSame(s: State, ctx: Registers, armedAt: Word, now: Word)
    ensures SameThreadsReply(s, Sleep(s, ctx, armedAt, now))
  {
    var o := Save(s, ctx.(rax := 0));
    if o.Ok? {
      var (s1, t) := o.value;
      var o2 := SetTimeout(SetThread(s1, t, s1.threads[t].(state := Sleeping)), t, ctx.rdi, armedAt);
      if o2.Ok? { ScheduleSame(o2.value, ZERO, now); }
    }
  }

  lemma IrqControlSame(s: State, irq: nat, op: Word, ctx: Registers, armedAt: Word, now: Word)
    ensures SameThreadsReply(s, IrqControl(s, irq, op, ctx, armedAt, now))
  {
    var o := Save(s, ctx.(rax := Neg(EAGAIN)));
    if o.Ok? {
      var o2 := ArmWait(o.value.0, o.value.1, irq, ctx.rdx, armedAt);
      if o2.Ok? { ScheduleSame(o2.value, ZERO, now); }
    }
  }

  lemma WakeHeadSame(s: State, irq: nat, result: Word, how: WaitEnd)
    ensures SameThreads(s, WakeHead(s, irq, result, how))
  {
  }

  lemma {:induction false} WakeAllSame(s: State, irq: nat, result: Word)
    ensures SameThreads(s, WakeAll(s, irq, result))
    decreases if IrqQueue(irq) in s.queues then |s.queues[IrqQueue(irq)]| else 0
  {
    var q := IrqQueue(irq);
    if q in s.queues && s.queues[q] != [] {
      WakeHeadSame(s, irq, result, Released);
      var o := WakeHead(s, irq, result, Released);
      if o.Ok? && q in o.value.queues && |o.value.queues[q]| < |s.queues[q]| { WakeAllSame(o.value, irq, result); }
    }
  }

  /** The thread an entry adds, if it is one that does. */
  function Added(e: Entry): set<Tid> { if e.EnterSpawn? then {e.tid} else {} }

  /** No entry loses a thread, on any path, and only a spawn adds one. */
  lemma StepSame(s: State, e: Entry)
    ensures Step(s, e).Ok? ==> Step(s, e).value.state.threads.Keys == s.threads.Keys + Added(e)
  {
    match e
    case EnterCall(i, ctx, hw, now) => RequestSame(s, i, CallTransferMode(ctx), ctx, hw, now);
    case EnterRead(i, ctx, hw, now) => RequestSame(s, i, HandleTransferMode(TRANSFER_READ, ctx), ctx, hw, now);
    case EnterWrite(i, ctx, hw, now) => RequestSame(s, i, HandleTransferMode(TRANSFER_WRITE, ctx), ctx, hw, now);
    case EnterListen(i, ctx, hw, now) => ListenSame(s, i, ctx, hw, now);
    case EnterRespond(ctx, hw, now) => RespondSame(s, ctx, hw, now);
    case EnterSleep(ctx, armedAt, now) => SleepSame(s, ctx, armedAt, now);
    case EnterIrqControl(irq, op, ctx, armedAt, now) => IrqControlSame(s, irq, op, ctx, armedAt, now);
    case EnterClaim(line) =>
    case EnterRelease(irq) => if irq < |s.irqs| { WakeAllSame(SetIrq(s, irq, s.irqs[irq].(claimed := false)), irq, Neg(EBADF)); }
    case EnterSpawn(t, regs) =>
    case EnterCreate(transfers) =>
    case EnterInterrupt(irq, ctx, now) => InterruptSame(s, irq, ctx, now);
    case EnterTick(ctx, now) => ScheduleSame(s, ctx, now);
  }

  lemma InterruptSame(s: State, irq: nat, ctx: Registers, now: Word)
    ensures SameThreads(s, ReceiveIrq(s, irq))
    ensures ReceiveIrq(s, irq).Ok? ==> SameThreads(s, Schedule(ReceiveIrq(s, irq).value, ctx, now))
  {
    WakeHeadSame(s, irq, 1, Interrupted);
    var o := ReceiveIrq(s, irq);
    if o.Ok? { ScheduleSame(o.value, ctx, now); }
  }

  // ---------------------------------------------------------------- who runs next

  /** What scheduling may do to a thread that was not running: ready it when it is due, and run it when it is ready. */
  predicate Moved(b: Thread, a: Thread) {
    && a.regs == b.regs && a.caller == b.caller
    && (a == b || (b.armed && !a.armed && (a.state == Ready || a.state == Running)) || (b.state == Ready && a.state == Running))
  }

  ghost predicate SameChannels(s: State, s': State) {
    s'.servers == s.servers && forall q: QueueId | q.ChannelQueue? && q in s.queues :: q in s'.queues && s'.queues[q] == s.queues[q]
  }

  lemma ExpireHeadChannels(s: State)
    requires WellFormed(s) && s.sleepers != []
    ensures ExpireHead(s).Ok? && SameChannels(s, ExpireHead(s).value)
  {
    ExpireHeadKeeps(s);
    ExpireHeadEffect(s);
  }

  lemma {:induction false} WakeSleepersChannels(s: State, now: Word)
    requires WellFormed(s)
    ensures WakeSleepers(s, now).Ok? && SameChannels(s, WakeSleepers(s, now).value)
    decreases |s.sleepers|
  {
    if s.sleepers != [] && DeadlineIn(s.threads, s.sleepers[0]) < now {
      ExpireHeadKeeps(s);
      ExpireHeadEffect(s);
      ExpireHeadChannels(s);
      WakeSleepersChannels(ExpireHead(s).value, now);
    }
  }

  /** The threads that are ready once those due have been woken, in the order in which they will run. */
  function ReadyNow(s: State, now: Word): seq<Tid> {
    (if RunQueue in s.queues then s.queues[RunQueue] else []) + s.sleepers[..DuePrefix(s.threads, s.sleepers, now)]
  }

  /** The thread that was running, after scheduling. */
  predicate Preempted(b: Thread, a: Thread, ctx: Registers) {
    a == b.(state := Ready, regs := ctx, root := Some(RunQueue))
  }

  /** The thread that was running: it goes back to the queue if another is to run. */
  predicate Displaced(before: Threads, after: Threads, t: Tid, other: bool, ctx: Registers)
    requires t in before && t in after
  {
    if other then Preempted(before[t], after[t], ctx) else after[t] == before[t]
  }

  /** The first ready thread runs, and the one that ran goes behind the others; with none ready nothing changes. */
  ghost predicate Scheduled(s: State, s': State, ctx: Registers, now: Word) {
    var ready := ReadyNow(s, now);
    && s'.threads.Keys == s.threads.Keys && SameChannels(s, s') && RunQueue in s'.queues
    && (forall t | t in s.threads && s.current != Some(t) :: Moved(s.threads[t], s'.threads[t]))
    && (if ready == [] then s'.current == s.current && s'.queues[RunQueue] == []
        else s'.current == Some(ready[0]) && s'.queues[RunQueue] == ready[1..] + if s.current.Some? then [s.current.value] else [])
    && (s.current.Some? ==> s.current.value in s.threads && Displaced(s.threads, s'.threads, s.current.value, ready != [], ctx))
  }

  function Resumed(th: Thread): Thread { th.(state := Running, root := None) }

  /** The first of the run queue runs, and the one that ran is behind the others. */
  ghost predicate SwitchedTo(s: State, s': State, ctx: Registers, t: Tid) {
    && RunQueue in s.queues && s.queues[RunQueue] != [] && t == s.queues[RunQueue][0] && t in s.threads
    && s'.current == Some(t) && s'.servers == s.servers && s'.irqs == s.irqs
    && (if s.current == None then
          s'.threads == s.threads[t := Resumed(s.threads[t])] && s'.queues == s.queues[RunQueue := s.queues[RunQueue][1..]]
        else
          var r := s.current.value;
          && r in s.threads && s'.threads == s.threads[t := Resumed(s.threads[t])][r := s.threads[r].(state := Ready, regs := ctx, root := Some(RunQueue))]
          && s'.queues == s.queues[RunQueue := s.queues[RunQueue][1..] + [r]])
  }

  lemma ScheduleIs(s: State, ctx: Registers, now: Word, t: Tid)
    requires Inv(s) && WakeSleepers(s, now) == Ok(s) && RunQueue in s.queues && s.queues[RunQueue] != [] && t == s.queues[RunQueue][0]
    ensures t in s.threads && s.threads[t].state == Ready && s.current != Some(t)
    ensures var s3 := Detach(s, t, Chosen(s.threads[t]));
            && s3.queues == s.queues[RunQueue := s.queues[RunQueue][1..]]
            && Schedule(s, ctx, now) == (var s4 :- Preempt(s3, ctx); Restore(s4, t))
  {
    assert Placed(s.threads[t]);
    assert t !in s.sleepers;
    RunPopIs(s);
    WithoutAbsent(s.sleepers, t);
  }

  lemma SwitchIdle(s: State, s3: State, ctx: Registers, t: Tid)
    requires RunQueue in s.queues && s.queues[RunQueue] != [] && t == s.queues[RunQueue][0] && t in s.threads && s.current == None
    requires s3.threads == s.threads[t := Chosen(s.threads[t])] && s3.queues == s.queues[RunQueue := s.queues[RunQueue][1..]]
    requires s3.current == s.current && s3.servers == s.servers && s3.irqs == s.irqs
    ensures Preempt(s3, ctx) == Ok(s3) && Restore(s3, t).Ok? && SwitchedTo(s, Restore(s3, t).value, ctx, t)
  {
    assert Restore(s3, t).value.threads == s.threads[t := Resumed(s.threads[t])];
  }

  lemma SwitchRunning(s: State, s3: State, ctx: Registers, t: Tid, r: Tid)
    requires RunQueue in s.queues && s.queues[RunQueue] != [] && t == s.queues[RunQueue][0] && t in s.threads
    requires s.current == Some(r) && r != t && r in s.threads && s.threads[r].state == Running && s.threads[r].root == None
    requires s3.threads == s.threads[t := Chosen(s.threads[t])] && s3.queues == s.queues[RunQueue := s.queues[RunQueue][1..]]
    requires s3.current == s.current && s3.servers == s.servers && s3.irqs == s.irqs
    ensures Preempt(s3, ctx).Ok? && Restore(Preempt(s3, ctx).value, t).Ok? && SwitchedTo(s, Restore(Preempt(s3, ctx).value, t).value, ctx, t)
  {
    var s4 := Preempt(s3, ctx).value;
    var th, rt := Resumed(s.threads[t]), s.threads[r].(state := Ready, regs := ctx, root := Some(RunQueue));
    assert s4.threads == s3.threads[r := rt];
    assert Restore(s4, t).value.threads == s.threads[t := th][r := rt];
  }

  lemma Switched(s: State, ctx: Registers, now: Word, t: Tid)
    requires Inv(s) && WakeSleepers(s, now) == Ok(s) && RunQueue in s.queues && s.queues[RunQueue] != [] && t == s.queues[RunQueue][0]
    ensures t in s.threads && s.threads[t].state == Ready && s.current != Some(t)
    ensures Schedule(s, ctx, now).Ok? && SwitchedTo(s, Schedule(s, ctx, now).value, ctx, t)
  {
    ScheduleIs(s, ctx, now, t);
    var s3 := Detach(s, t, Chosen(s.threads[t]));
    if s.current == None {
      SwitchIdle(s, s3, ctx, t);
    } else {
      var r := s.current.value;
      assert Placed(s.threads[r]);
      SwitchRunning(s, s3, ctx, t, r);
    }
  }

  /** Once the due sleepers have been woken none is due. */
  lemma {:induction false} WokenAll(s: State, now: Word)
    requires WellFormed(s)
    ensures WakeSleepers(s, now).Ok? && WellFormed(WakeSleepers(s, now).value)
    ensures var s1 := WakeSleepers(s, now).value; WakeSleepers(s1, now) == Ok(s1)
    decreases |s.sleepers|
  {
    if s.sleepers != [] && DeadlineIn(s.threads, s.sleepers[0]) < now {
      ExpireHeadKeeps(s);
      ExpireHeadEffect(s);
      WokenAll(ExpireHead(s).value, now);
    }
  }

  /** Scheduling runs the first of the threads that are ready once those due have been woken. */
  lemma ScheduleDoes(s: State, ctx: Registers, now: Word)
    requires Inv(s)
    ensures Schedule(s, ctx, now).Ok? && Scheduled(s, Schedule(s, ctx, now).value, ctx, now)
  {
    WokenKeeps(s, now);
    var s1 := WakeSleepers(s, now).value;
    var ready := s1.queues[RunQueue];
    if ready != [] {
      Switched(s1, ctx, now, ready[0]);
      ScheduleAgain(s, s1, ctx, now);
      SwitchedMoves(s, s1, Schedule(s1, ctx, now).value, ctx, now, ready[0]);
    } else {
      WokenMoves(s, s1, DuePrefix(s.threads, s.sleepers, now));
    }
  }

  lemma WokenKeeps(s: State, now: Word)
    requires Inv(s)
    ensures WakeSleepers(s, now).Ok?
    ensures var s1 := WakeSleepers(s, now).value;
            && Inv(s1) && WakeSleepers(s1, now) == Ok(s1) && Expiry(s, s1, DuePrefix(s.threads, s.sleepers, now))
            && SameChannels(s, s1) && s1.queues[RunQueue] == ReadyNow(s, now)
  {
    WakeSleepersKeeps(s, now);
    WakeSleepersExactly(s, now);
    WakeSleepersChannels(s, now);
    WokenAll(s, now);
  }

  lemma ScheduleAgain(s: State, s1: State, ctx: Registers, now: Word)
    requires WakeSleepers(s, now) == Ok(s1) && WakeSleepers(s1, now) == Ok(s1)
    ensures Schedule(s, ctx, now) == Schedule(s1, ctx, now)
  {
  }

  lemma WokenMoves(s: State, s1: State, k: nat)
    requires WellFormed(s) && Expiry(s, s1, k)
    ensures forall t | t in s.threads :: t in s1.threads && Moved(s.threads[t], s1.threads[t])
    ensures s.current.Some? ==> s.current.value in s.threads && s1.threads[s.current.value] == s.threads[s.current.value]
  {
    forall t | t in s.threads ensures t in s1.threads && Moved(s.threads[t], s1.threads[t]) {
      if t in s.sleepers[..k] {
        assert t in s.sleepers;
        assert TimedOutReady(s.threads[t], s1.threads[t]);
      }
    }
    if s.current.Some? {
      var r := s.current.value;
      assert Placed(s.threads[r]);
      assert r !in s.sleepers;
    }
  }

  lemma SwitchedMoves(s: State, s1: State, s': State, ctx: Registers, now: Word, t: Tid)
    requires Inv(s) && Inv(s1) && Expiry(s, s1, DuePrefix(s.threads, s.sleepers, now)) && SameChannels(s, s1)
    requires RunQueue in s1.queues && s1.queues[RunQueue] == ReadyNow(s, now) && t in s1.threads && s1.threads[t].state == Ready
    requires s1.current != Some(t) && SwitchedTo(s1, s', ctx, t)
    ensures Scheduled(s, s', ctx, now)
  {
    WokenMoves(s, s1, DuePrefix(s.threads, s.sleepers, now));
    assert Placed(s1.threads[t]);
    forall u | u in s.threads && s.current != Some(u) ensures Moved(s.threads[u], s'.threads[u]) {
      assert Moved(s.threads[u], s1.threads[u]);
    }
  }
}
