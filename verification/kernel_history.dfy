/**
  What a whole run of the kernel looks like from outside: the discipline that its history of
  calls, listens, pairings, deliveries, completions, copies and timed waits always obeys.
 */
module KernelHistory {
  import opened Wrappers
  import opened KernelState
  import opened KernelInvariant
  import opened KernelSteps

  type Log = seq<Event>

  /** Every thread that called on channel `q`, in order. */
  function Callers(log: Log, q: QueueId): seq<Tid> {
    if log == [] then []
    else
      var rest := Callers(log[..|log| - 1], q);
      match log[|log| - 1]
      case CallMade(p, c) => if p == q then rest + [c] else rest
      case _ => rest
  }

  /** Every thread that listened on channel `q`, in order. */
  function Listeners(log: Log, q: QueueId): seq<Tid> {
    if log == [] then []
    else
      var rest := Listeners(log[..|log| - 1], q);
      match log[|log| - 1]
      case ListenMade(p, l) => if p == q then rest + [l] else rest
      case _ => rest
  }

  /** Every rendezvous on channel `q`, in order, as (caller, listener). */
  function Pairs(log: Log, q: QueueId): seq<(Tid, Tid)> {
    if log == [] then []
    else
      var rest := Pairs(log[..|log| - 1], q);
      match log[|log| - 1]
      case Paired(p, c, l) => if p == q then rest + [(c, l)] else rest
      case _ => rest
  }

  /** The thread that was handed `c`'s latest call and has not completed it. */
  function InFlight(log: Log, c: Tid): Option<Tid> {
    if log == [] then None
    else
      var rest := InFlight(log[..|log| - 1], c);
      match log[|log| - 1]
      case Delivered(x, h) => if x == c then Some(h) else rest
      case Completed(x, _) => if x == c then None else rest
      case _ => rest
  }

  /** The interrupt line thread `t` began to wait on and has not been released from. */
  function WaitOn(log: Log, t: Tid): Option<nat> {
    if log == [] then None
    else
      var rest := WaitOn(log[..|log| - 1], t);
      match log[|log| - 1]
      case WaitBegun(x, irq) => if x == t then Some(irq) else rest
      case WaitEnded(x, _, _) => if x == t then None else rest
      case _ => rest
  }

  /**
    The discipline: the k-th rendezvous on a channel joins its k-th caller with its k-th
    listener; a call is delivered only when neither party has one in flight, and completed
    only by the thread that holds it; a timed wait begins once and ends once; a copy fits both buffers.
   */
  predicate Allowed(log: Log, e: Event) {
    match e
    case Paired(q, c, l) =>
      var k := |Pairs(log, q)|;
      k < |Callers(log, q)| && k < |Listeners(log, q)| && Callers(log, q)[k] == c && Listeners(log, q)[k] == l
    case Delivered(c, h) => InFlight(log, c) == None && InFlight(log, h) == None && c != h
    case Completed(c, h) => InFlight(log, c) == Some(h)
    case WaitBegun(t, _) => WaitOn(log, t) == None
    case WaitEnded(t, irq, _) => WaitOn(log, t) == Some(irq)
    case Copied(_, _, count, sourceLen, destLen) => count <= sourceLen && count <= destLen
    case _ => true
  }

  predicate Disciplined(log: Log) {
    log == [] || (Disciplined(log[..|log| - 1]) && Allowed(log[..|log| - 1], log[|log| - 1]))
  }

  function Firsts(pairs: seq<(Tid, Tid)>): seq<Tid> {
    if pairs == [] then [] else Firsts(pairs[..|pairs| - 1]) + [pairs[|pairs| - 1].0]
  }

  function Seconds(pairs: seq<(Tid, Tid)>): seq<Tid> {
    if pairs == [] then [] else Seconds(pairs[..|pairs| - 1]) + [pairs[|pairs| - 1].1]
  }

  /** The channel's queue holds exactly the calls, or listens, not yet paired. */
  ghost predicate ChannelTied(log: Log, q: QueueId, kind: ChannelState, queue: seq<Tid>) {
    && Callers(log, q) == Firsts(Pairs(log, q)) + (if kind == Called then queue else [])
    && Listeners(log, q) == Seconds(Pairs(log, q)) + (if kind == Listened then queue else [])
  }

  ghost predicate CallsTied(log: Log, threads: Threads) {
    forall c, h :: InFlight(log, c) == Some(h) <==> Holds(threads, h, c)
  }

  predicate ParkedOn(threads: Threads, t: Tid, irq: nat) {
    t in threads && threads[t].root == Some(IrqQueue(irq))
  }

  ghost predicate WaitsTied(log: Log, threads: Threads) {
    forall t, irq: nat :: WaitOn(log, t) == Some(irq) <==> ParkedOn(threads, t, irq)
  }

  ghost predicate ChannelsTied(log: Log, queues: Queues, servers: seq<Server>) {
    && (forall q | q in queues && HasChannel(servers, q) :: ChannelTied(log, q, ChannelAt(servers, q), queues[q]))
    && (forall q | q !in queues :: ChannelTied(log, q, Empty, []))
  }

  ghost predicate LogOk(s: State) {
    && Disciplined(s.log) && CallsTied(s.log, s.threads) && WaitsTied(s.log, s.threads)
    && ChannelsTied(s.log, s.queues, s.servers)
  }

  // ---------------------------------------------------------------- appending one event

  lemma Append(log: Log, e: Event)
    ensures Disciplined(log + [e]) == (Disciplined(log) && Allowed(log, e))
    ensures forall q :: Callers(log + [e], q) == Callers(log, q) + (if e.CallMade? && e.q == q then [e.caller] else [])
    ensures forall q :: Listeners(log + [e], q) == Listeners(log, q) + (if e.ListenMade? && e.q == q then [e.listener] else [])
    ensures forall q :: Pairs(log + [e], q) == Pairs(log, q) + (if e.Paired? && e.q == q then [(e.caller, e.listener)] else [])
    ensures forall c :: InFlight(log + [e], c) == (if e.Delivered? && e.caller == c then Some(e.holder)
                                                   else if e.Completed? && e.caller == c then None
                                                   else InFlight(log, c))
    ensures forall t :: WaitOn(log + [e], t) == (if e.WaitBegun? && e.thread == t then Some(e.irq)
                                                 else if e.WaitEnded? && e.thread == t then None
                                                 else WaitOn(log, t))
  {
    assert (log + [e])[..|log|] == log;
  }

  // ---------------------------------------------------------------- entries that log nothing

  /** Nothing the history speaks about has changed. */
  ghost predicate SameView(s: State, s': State) {
    && s'.log == s.log && s'.servers == s.servers && s'.queues.Keys == s.queues.Keys
    && (forall q | q in s.queues && q.ChannelQueue? :: s'.queues[q] == s.queues[q])
    && (forall h, c :: Holds(s'.threads, h, c) == Holds(s.threads, h, c))
    && (forall t, irq: nat :: ParkedOn(s'.threads, t, irq) == ParkedOn(s.threads, t, irq))
  }

  lemma Unseen(s: State, s': State)
    requires LogOk(s) && SameView(s, s')
    ensures LogOk(s')
  {
  }

  /** One thread's record changes away from calls and interrupt queues. */
  lemma QuietChange(s: State, s': State, t: Tid, th: Thread)
    requires t in s.threads && s'.threads == s.threads[t := th] && th.caller == s.threads[t].caller
    requires !(th.root.Some? && th.root.value.IrqQueue?)
    requires !(s.threads[t].root.Some? && s.threads[t].root.value.IrqQueue?)
    requires s'.log == s.log && s'.servers == s.servers && s'.queues.Keys == s.queues.Keys
    requires forall q | q in s.queues && q.ChannelQueue? :: s'.queues[q] == s.queues[q]
    ensures SameView(s, s')
  {
  }

  lemma MakeReadyLog(s: State, t: Tid)
    requires WellFormed(s) && t in s.threads && s.threads[t].state == Floating && LogOk(s)
    ensures MakeReady(s, t).Ok? && LogOk(MakeReady(s, t).value)
  {
    MakeReadyKeeps(s, t);
    assert Placed(s.threads[t]);
    var s' := MakeReady(s, t).value;
    QuietChange(s, s', t, s'.threads[t]);
    Unseen(s, s');
  }

  lemma SaveLog(s: State, ctx: Registers)
    requires WellFormed(s) && s.current.Some? && LogOk(s)
    ensures Save(s, ctx).Ok? && LogOk(Save(s, ctx).value.0)
  {
    SaveKeeps(s, ctx);
    var (s', t) := Save(s, ctx).value;
    assert Placed(s.threads[t]);
    QuietChange(s, s', t, s'.threads[t]);
    Unseen(s, s');
  }

  lemma RestoreLog(s: State, t: Tid)
    requires WellFormed(s) && s.current == None && t in s.threads && s.threads[t].state == Floating && LogOk(s)
    ensures Restore(s, t).Ok? && LogOk(Restore(s, t).value)
  {
    var s' := Restore(s, t).value;
    assert Placed(s.threads[t]);
    QuietChange(s, s', t, s'.threads[t]);
    Unseen(s, s');
  }

  lemma SetRegsLog(s: State, t: Tid, regs: Registers)
    requires WellFormed(s) && t in s.threads && s.threads[t].state == Floating && LogOk(s)
    ensures LogOk(SetRegs(s, t, regs))
  {
    assert Placed(s.threads[t]);
    QuietChange(s, SetRegs(s, t, regs), t, s.threads[t].(regs := regs));
    Unseen(s, SetRegs(s, t, regs));
  }

  // ---------------------------------------------------------------- waits end

  /** A parked waiter is detached and the end of its wait recorded. */
  lemma EndWait(s: State, t: Tid, th: Thread, irq: nat, how: WaitEnd)
    requires LogOk(s) && t in s.threads && s.threads[t].root == Some(IrqQueue(irq)) && IrqQueue(irq) in s.queues
    requires th.caller == s.threads[t].caller && th.root == None
    ensures LogOk(Logged(Detach(s, t, th), WaitEnded(t, irq, how)))
  {
    var s' := Logged(Detach(s, t, th), WaitEnded(t, irq, how));
    Append(s.log, WaitEnded(t, irq, how));
    assert s'.queues.Keys == s.queues.Keys;
    assert WaitOn(s.log, t) == Some(irq) by { assert ParkedOn(s.threads, t, irq); }
    assert forall h, c :: Holds(s'.threads, h, c) == Holds(s.threads, h, c);
    assert forall u, k: nat :: ParkedOn(s'.threads, u, k) == (ParkedOn(s.threads, u, k) && u != t);
  }

  lemma WakeHeadLog(s: State, irq: nat, result: Word, how: WaitEnd)
    requires WellFormed(s) && IrqQueue(irq) in s.queues && s.queues[IrqQueue(irq)] != [] && LogOk(s)
    ensures WakeHead(s, irq, result, how).Ok? && LogOk(WakeHead(s, irq, result, how).value)
  {
    var t := s.queues[IrqQueue(irq)][0];
    assert Placed(s.threads[t]);
    var th := Woken(s.threads[t], result);
    WakeHeadIs(s, irq, result, how);
    DetachKeeps(s, t, th);
    EndWait(s, t, th, irq, how);
    MakeReadyLog(Logged(Detach(s, t, th), WaitEnded(t, irq, how)), t);
  }

  lemma {:induction false} WakeAllLog(s: State, irq: nat, result: Word)
    requires WellFormed(s) && IrqQueue(irq) in s.queues && LogOk(s)
    ensures WakeAll(s, irq, result).Ok? && LogOk(WakeAll(s, irq, result).value)
    decreases |s.queues[IrqQueue(irq)]|
  {
    if s.queues[IrqQueue(irq)] != [] {
      WakeHeadKeeps(s, irq, result, Released);
      WakeHeadLog(s, irq, result, Released);
      WakeAllLog(WakeHead(s, irq, result, Released).value, irq, result);
    }
  }

  lemma ExpireHeadLog(s: State)
    requires WellFormed(s) && s.sleepers != [] && LogOk(s)
    ensures ExpireHead(s).Ok? && LogOk(ExpireHead(s).value)
  {
    ExpireHeadKeeps(s);
    ExpireHeadIs(s);
    var t := s.sleepers[0];
    var th := Expired(s.threads[t]);
    DetachKeeps(s, t, th);
    if s.threads[t].root.Some? {
      EndWait(s, t, th, s.threads[t].root.value.irq, TimedOut);
    } else {
      QuietChange(s, Detach(s, t, th), t, th);
      Unseen(s, Detach(s, t, th));
    }
    MakeReadyLog(AfterExpiry(s, t), t);
  }

  lemma {:induction false} WakeSleepersLog(s: State, now: Word)
    requires WellFormed(s) && LogOk(s)
    ensures WakeSleepers(s, now).Ok? && LogOk(WakeSleepers(s, now).value)
    decreases |s.sleepers|
  {
    if s.sleepers != [] && DeadlineIn(s.threads, s.sleepers[0]) < now {
      ExpireHeadKeeps(s);
      ExpireHeadEffect(s);
      ExpireHeadLog(s);
      WakeSleepersLog(ExpireHead(s).value, now);
    }
  }

  lemma ScheduleLog(s: State, ctx: Registers, now: Word)
    requires Inv(s) && LogOk(s)
    ensures Schedule(s, ctx, now).Ok? && LogOk(Schedule(s, ctx, now).value)
  {
    ScheduleKeeps(s, ctx, now);
    WakeSleepersKeeps(s, now);
    WakeSleepersLog(s, now);
    var s1 := WakeSleepers(s, now).value;
    if s1.queues[RunQueue] != [] { RunPopLog(s1, ctx); }
  }

  lemma RunPopLog(s: State, ctx: Registers)
    requires Inv(s) && LogOk(s) && RunQueue in s.queues && s.queues[RunQueue] != []
    ensures var t := s.queues[RunQueue][0];
      && Dequeue(s, RunQueue).Ok? && Dequeue(s, RunQueue).value.1 == t && t in Dequeue(s, RunQueue).value.0.threads
      && var s2 := Dequeue(s, RunQueue).value.0; var s3 := SetThread(s2, t, s2.threads[t].(state := Floating));
         Preempt(s3, ctx).Ok? && Restore(Preempt(s3, ctx).value, t).Ok? && LogOk(Restore(Preempt(s3, ctx).value, t).value)
  {
    var t := s.queues[RunQueue][0];
    assert Placed(s.threads[t]);
    assert t !in s.sleepers;
    RunPopIs(s);
    var th := Chosen(s.threads[t]);
    DetachKeeps(s, t, th);
    DetachQuiet(s, t, th);
    SwitchToLog(Detach(s, t, th), ctx, t);
  }

  lemma DetachQuiet(s: State, t: Tid, th: Thread)
    requires LogOk(s) && t in s.threads && th.root == None && th.caller == s.threads[t].caller
    requires s.threads[t].root == Some(RunQueue) && RunQueue in s.queues
    ensures LogOk(Detach(s, t, th))
  {
    QuietChange(s, Detach(s, t, th), t, th);
    Unseen(s, Detach(s, t, th));
  }

  lemma SwitchToLog(s: State, ctx: Registers, t: Tid)
    requires WellFormed(s) && t in s.threads && s.threads[t].state == Floating && FloatingIn(s.threads) == {t} && LogOk(s)
    ensures Preempt(s, ctx).Ok? && Restore(Preempt(s, ctx).value, t).Ok?
    ensures LogOk(Restore(Preempt(s, ctx).value, t).value)
  {
    if s.current == None {
      RestoreLog(s, t);
    } else {
      SaveKeeps(s, ctx);
      SaveLog(s, ctx);
      var (saved, running) := Save(s, ctx).value;
      assert running != t;
      MakeReadyKeeps(saved, running);
      MakeReadyLog(saved, running);
      RestoreLog(MakeReady(saved, running).value, t);
    }
  }

  // ---------------------------------------------------------------- transfers

  lemma TransferErrorLog(s: State, shame: Word, guilty: Tid, innocent: Tid, now: Word)
    requires WellFormed(s) && s.current == None && guilty != innocent && LogOk(s)
    requires FloatingIn(s.threads) == {guilty, innocent}
    ensures TransferError(s, shame, guilty, innocent, now).Ok?
    ensures LogOk(TransferError(s, shame, guilty, innocent, now).value)
  {
    assert guilty in FloatingIn(s.threads) && innocent in FloatingIn(s.threads);
    SetRegsKeeps(s, guilty, s.threads[guilty].regs.(rax := Neg(shame)));
    SetRegsLog(s, guilty, s.threads[guilty].regs.(rax := Neg(shame)));
    var s1 := SetResult(s, guilty, Neg(shame));
    SetRegsKeeps(s1, innocent, s1.threads[innocent].regs.(rax := Neg(EIPCIO)));
    SetRegsLog(s1, innocent, s1.threads[innocent].regs.(rax := Neg(EIPCIO)));
    var s2 := SetResult(s1, innocent, Neg(EIPCIO));
    MakeReadyKeeps(s2, guilty);
    MakeReadyLog(s2, guilty);
    var s3 := MakeReady(s2, guilty).value;
    MakeReadyKeeps(s3, innocent);
    MakeReadyLog(s3, innocent);
    ScheduleLog(MakeReady(s3, innocent).value, ZERO, now);
  }

  /** An event that concerns neither calls, waits nor channels. */
  lemma CopyLog(s: State, e: Event)
    requires LogOk(s) && e.Copied? && e.count <= e.sourceLen && e.count <= e.destLen
    ensures LogOk(Logged(s, e))
  {
    Append(s.log, e);
  }

  lemma InFlightIsCalling(log: Log, threads: Threads, c: Tid)
    requires CallsTied(log, threads) && CallsOk(threads)
    ensures InFlight(log, c).Some? ==> c in threads && threads[c].state == Calling
  {
    if InFlight(log, c).Some? { assert Holds(threads, InFlight(log, c).value, c); }
  }

  lemma ChannelsSilent(log: Log, e: Event, queues: Queues, servers: seq<Server>)
    requires ChannelsTied(log, queues, servers) && !e.CallMade? && !e.ListenMade? && !e.Paired?
    ensures ChannelsTied(log + [e], queues, servers)
  {
    Append(log, e);
    forall q, kind, ts | ChannelTied(log, q, kind, ts) ensures ChannelTied(log + [e], q, kind, ts) {}
  }

  lemma DeliverTies(log: Log, threads: Threads, c: Tid, l: Tid, ct: Thread, lt: Thread)
    requires CallsTied(log, threads) && WaitsTied(log, threads) && InFlight(log, c) == None
    requires c in threads && l in threads && c != l && threads[c].root == None && threads[l].root == None
    requires ct.root == None && lt.root == None && ct.caller == threads[c].caller
    requires threads[l].caller == None && lt.caller == Some(c)
    ensures CallsTied(log + [Delivered(c, l)], threads[c := ct][l := lt])
    ensures WaitsTied(log + [Delivered(c, l)], threads[c := ct][l := lt])
  {
    var threads' := threads[c := ct][l := lt];
    Append(log, Delivered(c, l));
    assert forall h, x :: Holds(threads', h, x) == ((h == l && x == c) || Holds(threads, h, x));
    assert forall t, irq: nat :: ParkedOn(threads', t, irq) == ParkedOn(threads, t, irq);
  }

  lemma DeliverLog(s: State, c: Tid, l: Tid, callback: Word)
    requires WellFormed(s) && s.current == None && c != l && FloatingIn(s.threads) == {c, l} && LogOk(s)
    requires c in s.threads && l in s.threads && s.threads[l].caller == None
    ensures Deliver(s, c, l, callback).Ok? && LogOk(Deliver(s, c, l, callback).value)
  {
    assert c in FloatingIn(s.threads) && l in FloatingIn(s.threads);
    assert Placed(s.threads[c]) && Placed(s.threads[l]);
    InFlightIsCalling(s.log, s.threads, c);
    InFlightIsCalling(s.log, s.threads, l);
    var ct := s.threads[c].(state := Calling);
    var lt := s.threads[l].(state := Running, caller := Some(c), regs := s.threads[l].regs.(rip := callback));
    assert Deliver(s, c, l, callback).value.threads == s.threads[c := ct][l := lt];
    DeliverTies(s.log, s.threads, c, l, ct, lt);
    Append(s.log, Delivered(c, l));
    ChannelsSilent(s.log, Delivered(c, l), s.queues, s.servers);
  }

  lemma CallTransferLog(s: State, c: Tid, l: Tid, mode: Word, hardware: Fault, now: Word)
    requires WellFormed(s) && s.current == None && c != l && FloatingIn(s.threads) == {c, l} && LogOk(s)
    requires c in s.threads && l in s.threads && mode < TRANSFER_MAX && s.threads[l].caller == None
    ensures CallTransfer(s, c, l, mode, hardware, now).Ok? && LogOk(CallTransfer(s, c, l, mode, hardware, now).value)
  {
    assert c in FloatingIn(s.threads) && l in FloatingIn(s.threads);
    var cr, lr := s.threads[c].regs, s.threads[l].regs;
    match PlanTransfer(cr, lr, mode)
    case Refuse(error, l') =>
      SetRegsKeeps(s, l, l');
      SetRegsLog(s, l, l');
      TransferErrorLog(SetRegs(s, l, l'), error, c, l, now);
    case Direct(c', l') =>
      SetBothKeeps(s, c, c', l, l');
      SetBothLog(s, c, c', l, l');
      DeliverLog(SetRegs(SetRegs(s, c, c'), l, l'), c, l, lr.r8);
    case Copy(count, c', l') =>
      SetBothKeeps(s, c, c', l, l');
      SetBothLog(s, c, c', l, l');
      DeliverCopyLog(SetRegs(SetRegs(s, c, c'), l, l'), c, l, Copied(c, l, count, cr.rdx, lr.rdx), lr.r8,
                     CopyFault(c', l', count, hardware), now);
  }

  lemma DeliverCopyLog(s: State, c: Tid, l: Tid, copied: Event, callback: Word, fault: Fault, now: Word)
    requires WellFormed(s) && s.current == None && c != l && FloatingIn(s.threads) == {c, l} && LogOk(s)
    requires c in s.threads && l in s.threads && s.threads[l].caller == None
    requires copied.Copied? && copied.count <= copied.sourceLen && copied.count <= copied.destLen
    ensures DeliverCopy(s, c, l, copied, callback, fault, now).Ok?
    ensures LogOk(DeliverCopy(s, c, l, copied, callback, fault, now).value)
  {
    match fault
    case ReadFault => TransferErrorLog(s, EFAULT, c, l, now);
    case WriteFault => TransferErrorLog(s, EFAULT, l, c, now);
    case NoFault =>
      CopyLog(s, copied);
      DeliverLog(Logged(s, copied), c, l, callback);
  }

  lemma SetBothLog(s: State, c: Tid, cr: Registers, l: Tid, lr: Registers)
    requires WellFormed(s) && c != l && c in s.threads && l in s.threads && LogOk(s)
    requires s.threads[c].state == Floating && s.threads[l].state == Floating
    ensures LogOk(SetRegs(SetRegs(s, c, cr), l, lr))
  {
    SetRegsKeeps(s, c, cr);
    SetRegsLog(s, c, cr);
    SetRegsLog(SetRegs(s, c, cr), l, lr);
  }

  // ---------------------------------------------------------------- rendezvous

  /** The event with which a thread of kind `kind` arrives at channel `q`. */
  function Arrival(q: QueueId, t: Tid, kind: ChannelState): Event {
    if kind == Called then CallMade(q, t) else ListenMade(q, t)
  }

  function Meeting(q: QueueId, arriving: Tid, parked: Tid, kind: ChannelState): Event {
    if kind == Called then Paired(q, arriving, parked) else Paired(q, parked, arriving)
  }

  lemma TiePark(log: Log, q: QueueId, was: ChannelState, queue: seq<Tid>, t: Tid, kind: ChannelState)
    requires ChannelTied(log, q, was, queue) && kind != Empty
    requires was == kind || (was == Empty && queue == [])
    ensures ChannelTied(log + [Arrival(q, t, kind)], q, kind, queue + [t])
  {
    Append(log, Arrival(q, t, kind));
  }

  lemma PairsGrow(pairs: seq<(Tid, Tid)>, c: Tid, l: Tid)
    ensures Firsts(pairs + [(c, l)]) == Firsts(pairs) + [c]
    ensures Seconds(pairs + [(c, l)]) == Seconds(pairs) + [l]
    ensures |Firsts(pairs)| == |pairs| && |Seconds(pairs)| == |pairs|
  {
    assert (pairs + [(c, l)])[..|pairs|] == pairs;
    PairsAt(pairs);
  }

  lemma {:induction false} PairsAt(pairs: seq<(Tid, Tid)>)
    ensures |Firsts(pairs)| == |pairs| && |Seconds(pairs)| == |pairs|
    ensures forall k | 0 <= k < |pairs| :: pairs[k] == (Firsts(pairs)[k], Seconds(pairs)[k])
  {
    if pairs != [] { PairsAt(pairs[..|pairs| - 1]); }
  }

  /** Joining the next arrival with the first of those that wait on the other side. */
  lemma Join(firsts: seq<Tid>, queue: seq<Tid>)
    requires queue != []
    ensures firsts + queue == firsts + [queue[0]] + queue[1..]
  {
    assert queue == [queue[0]] + queue[1..];
  }

  /** The projections after an arrival and a meeting on `q`. */
  lemma MeetProjections(log: Log, q: QueueId, arrival: Event, meeting: Event)
    requires (arrival.CallMade? || arrival.ListenMade?) && arrival.q == q && meeting.Paired? && meeting.q == q
    ensures var log1 := log + [arrival]; var log2 := log1 + [meeting];
      && Pairs(log1, q) == Pairs(log, q) && Pairs(log2, q) == Pairs(log, q) + [(meeting.caller, meeting.listener)]
      && Callers(log2, q) == Callers(log1, q) == Callers(log, q) + (if arrival.CallMade? then [arrival.caller] else [])
      && Listeners(log2, q) == Listeners(log1, q) == Listeners(log, q) + (if arrival.ListenMade? then [arrival.listener] else [])
  {
    Append(log, arrival);
    Append(log + [arrival], meeting);
  }

  /** The arriving thread is the next of its kind, the parked one the first still waiting. */
  lemma TieMeet(log: Log, q: QueueId, queue: seq<Tid>, t: Tid, kind: ChannelState)
    requires kind != Empty && queue != []
    requires ChannelTied(log, q, if kind == Called then Listened else Called, queue)
    ensures var log1 := log + [Arrival(q, t, kind)]; var e := Meeting(q, t, queue[0], kind);
      && Allowed(log1, e)
      && ChannelTied(log1 + [e], q,
           if queue[1..] == [] then Empty else if kind == Called then Listened else Called, queue[1..])
  {
    if kind == Called { TieCall(log, q, queue, t); } else { TieListen(log, q, queue, t); }
  }

  lemma TieCall(log: Log, q: QueueId, queue: seq<Tid>, t: Tid)
    requires queue != [] && ChannelTied(log, q, Listened, queue)
    ensures var log1 := log + [CallMade(q, t)]; var e := Paired(q, t, queue[0]);
      Allowed(log1, e) && ChannelTied(log1 + [e], q, if queue[1..] == [] then Empty else Listened, queue[1..])
  {
    MeetProjections(log, q, CallMade(q, t), Paired(q, t, queue[0]));
    PairsGrow(Pairs(log, q), t, queue[0]);
    Join(Seconds(Pairs(log, q)), queue);
  }

  lemma TieListen(log: Log, q: QueueId, queue: seq<Tid>, t: Tid)
    requires queue != [] && ChannelTied(log, q, Called, queue)
    ensures var log1 := log + [ListenMade(q, t)]; var e := Paired(q, queue[0], t);
      Allowed(log1, e) && ChannelTied(log1 + [e], q, if queue[1..] == [] then Empty else Called, queue[1..])
  {
    MeetProjections(log, q, ListenMade(q, t), Paired(q, queue[0], t));
    PairsGrow(Pairs(log, q), queue[0], t);
    Join(Firsts(Pairs(log, q)), queue);
  }

  /** Only channel `q` hears of the new events. */
  ghost predicate SilentElsewhere(log: Log, log': Log, q: QueueId) {
    forall p | p != q ::
      Callers(log', p) == Callers(log, p) && Listeners(log', p) == Listeners(log, p) && Pairs(log', p) == Pairs(log, p)
  }

  lemma OthersTied(log: Log, log': Log, queues: Queues, servers: seq<Server>, q: QueueId, cs: ChannelState, ts: seq<Tid>)
    requires ChannelsTied(log, queues, servers) && q in queues && HasChannel(servers, q)
    requires SilentElsewhere(log, log', q) && ChannelTied(log', q, cs, ts)
    ensures ChannelsTied(log', queues[q := ts], WithChannel(servers, q.server, q.channel, cs))
  {
    var servers', queues' := WithChannel(servers, q.server, q.channel, cs), queues[q := ts];
    forall p | p in queues' && HasChannel(servers', p) ensures ChannelTied(log', p, ChannelAt(servers', p), queues'[p]) {
      if p != q { assert ChannelTied(log, p, ChannelAt(servers, p), queues[p]); }
    }
    forall p | p !in queues' ensures ChannelTied(log', p, Empty, []) {
      assert ChannelTied(log, p, Empty, []);
    }
  }

  lemma QuietThread(log: Log, threads: Threads, t: Tid, th: Thread)
    requires CallsTied(log, threads) && WaitsTied(log, threads)
    requires t in threads && th.caller == threads[t].caller
    requires !(th.root.Some? && th.root.value.IrqQueue?)
    requires !(threads[t].root.Some? && threads[t].root.value.IrqQueue?)
    ensures CallsTied(log, threads[t := th]) && WaitsTied(log, threads[t := th])
  {
    assert forall h, c :: Holds(threads[t := th], h, c) == Holds(threads, h, c);
    assert forall u, irq: nat :: ParkedOn(threads[t := th], u, irq) == ParkedOn(threads, u, irq);
  }

  /** An event that opens and closes no call and no wait. */
  lemma ArrivalTies(log: Log, threads: Threads, e: Event)
    requires CallsTied(log, threads) && WaitsTied(log, threads) && Disciplined(log) && Allowed(log, e)
    requires e.CallMade? || e.ListenMade? || e.Paired?
    ensures CallsTied(log + [e], threads) && WaitsTied(log + [e], threads) && Disciplined(log + [e])
    ensures SilentElsewhere(log, log + [e], e.q)
  {
    ArrivalSilent(log, e);
    ArrivalViews(log, e);
  }

  lemma ArrivalViews(log: Log, e: Event)
    requires e.CallMade? || e.ListenMade? || e.Paired?
    ensures Disciplined(log + [e]) == (Disciplined(log) && Allowed(log, e))
    ensures forall c :: InFlight(log + [e], c) == InFlight(log, c)
    ensures forall t :: WaitOn(log + [e], t) == WaitOn(log, t)
  {
    Append(log, e);
  }

  lemma ArrivalSilent(log: Log, e: Event)
    requires e.CallMade? || e.ListenMade? || e.Paired?
    ensures SilentElsewhere(log, log + [e], e.q)
  {
    Append(log, e);
  }

  lemma ParkTies(s: State, q: QueueId, t: Tid, kind: ChannelState)
    requires LogOk(s) && t in s.threads && Loose(s.threads[t]) && kind != Empty
    requires HasChannel(s.servers, q) && q in s.queues
    requires ChannelAt(s.servers, q) == kind || (ChannelAt(s.servers, q) == Empty && s.queues[q] == [])
    ensures LogOk(s.(
      threads := s.threads[t := s.threads[t].(state := Waiting, root := Some(q))],
      queues := s.queues[q := s.queues[q] + [t]],
      servers := WithChannel(s.servers, q.server, q.channel, kind),
      log := s.log + [Arrival(q, t, kind)]))
  {
    var e := Arrival(q, t, kind);
    ArrivalTies(s.log, s.threads, e);
    TiePark(s.log, q, ChannelAt(s.servers, q), s.queues[q], t, kind);
    OthersTied(s.log, s.log + [e], s.queues, s.servers, q, kind, s.queues[q] + [t]);
    QuietThread(s.log + [e], s.threads, t, s.threads[t].(state := Waiting, root := Some(q)));
  }

  lemma ParkLog(s: State, i: nat, j: nat, t: Tid, kind: ChannelState)
    requires WellFormed(s) && t in s.threads && s.threads[t].state == Floating && LogOk(s)
    requires HasChannel(s.servers, ChannelQueue(i, j)) && kind != Empty
    requires ChannelAt(s.servers, ChannelQueue(i, j)) == Empty || ChannelAt(s.servers, ChannelQueue(i, j)) == kind
    ensures var s1 := Logged(s, Arrival(ChannelQueue(i, j), t, kind));
      var parked := PushInto(SetChannel(s1, i, j, kind), t, ChannelQueue(i, j));
      parked.Ok? && LogOk(parked.value)
  {
    var q := ChannelQueue(i, j);
    assert ValidId(s.servers, q);
    assert Placed(s.threads[t]);
    ParkIs(Logged(s, Arrival(q, t, kind)), i, j, t, kind);
    ParkTies(s, q, t, kind);
  }

  lemma MeetTies(s: State, q: QueueId, t: Tid, kind: ChannelState)
    requires LogOk(s) && kind != Empty && HasChannel(s.servers, q) && q in s.queues && s.queues[q] != []
    requires ChannelAt(s.servers, q) == if kind == Called then Listened else Called
    requires s.queues[q][0] in s.threads && s.threads[s.queues[q][0]].root == Some(q)
    ensures var p, rest := s.queues[q][0], s.queues[q][1..];
      LogOk(s.(
        threads := s.threads[p := Chosen(s.threads[p])],
        queues := s.queues[q := rest],
        servers := WithChannel(s.servers, q.server, q.channel, if rest == [] then Empty else ChannelAt(s.servers, q)),
        log := s.log + [Arrival(q, t, kind)] + [Meeting(q, t, p, kind)]))
  {
    var p, rest := s.queues[q][0], s.queues[q][1..];
    var log1, e := s.log + [Arrival(q, t, kind)], Meeting(q, t, p, kind);
    TieMeet(s.log, q, s.queues[q], t, kind);
    ArrivalTies(s.log, s.threads, Arrival(q, t, kind));
    ArrivalTies(log1, s.threads, e);
    OthersTied(s.log, log1 + [e], s.queues, s.servers, q, if rest == [] then Empty else ChannelAt(s.servers, q), rest);
    QuietThread(log1 + [e], s.threads, p, Chosen(s.threads[p]));
  }

  /** An arriving thread takes the first one parked on the other side. */
  lemma MeetLog(s: State, i: nat, j: nat, t: Tid, kind: ChannelState)
    requires WellFormed(s) && LogOk(s) && kind != Empty
    requires HasChannel(s.servers, ChannelQueue(i, j))
    requires ChannelAt(s.servers, ChannelQueue(i, j)) == if kind == Called then Listened else Called
    ensures ChannelQueue(i, j) in s.queues && s.queues[ChannelQueue(i, j)] != []
    ensures var q := ChannelQueue(i, j);
      var popped := PopPartner(Logged(s, Arrival(q, t, kind)), i, j);
      popped.Ok? && LogOk(Logged(popped.value.0, Meeting(q, t, s.queues[q][0], kind)))
  {
    var q := ChannelQueue(i, j);
    PopPartnerKeeps(s, i, j);
    assert Placed(s.threads[s.queues[q][0]]);
    PopPartnerIs(Logged(s, Arrival(q, t, kind)), i, j);
    MeetTies(s, q, t, kind);
    WithSameChannel(s.servers, i, j);
  }

  lemma ParkOnLog(s: State, t: Tid, i: nat, j: nat, kind: ChannelState, now: Word)
    requires WellFormed(s) && s.current == None && FloatingIn(s.threads) == {t} && t in s.threads && LogOk(s)
    requires HasChannel(s.servers, ChannelQueue(i, j)) && kind != Empty
    requires ChannelAt(s.servers, ChannelQueue(i, j)) == Empty || ChannelAt(s.servers, ChannelQueue(i, j)) == kind
    requires kind == Called ==> Routed(s.servers, ChannelQueue(i, j), s.threads[t].regs.rdi)
    ensures var s1 := Logged(s, Arrival(ChannelQueue(i, j), t, kind));
      ChannelExists(s1, i, j) && ParkOn(s1, t, i, j, kind, now).Ok? && LogOk(ParkOn(s1, t, i, j, kind, now).value)
  {
    var s1 := Logged(s, Arrival(ChannelQueue(i, j), t, kind));
    assert ValidId(s.servers, ChannelQueue(i, j));
    assert t in FloatingIn(s.threads);
    ParkKeeps(s1, i, j, t, kind);
    ParkLog(s, i, j, t, kind);
    ScheduleLog(PushInto(SetChannel(s1, i, j, kind), t, ChannelQueue(i, j)).value, ZERO, now);
  }

  lemma CallOnLog(s: State, c: Tid, i: nat, j: nat, mode: Word, hardware: Fault, now: Word)
    requires WellFormed(s) && s.current == None && FloatingIn(s.threads) == {c} && c in s.threads && LogOk(s)
    requires HasChannel(s.servers, ChannelQueue(i, j)) && mode == s.threads[c].regs.rdi
    requires Routed(s.servers, ChannelQueue(i, j), mode) && !HeadOwes(s, i, j, Listened)
    ensures var s1 := Logged(s, CallMade(ChannelQueue(i, j), c));
      ChannelExists(s1, i, j) && CallOn(s1, c, i, j, mode, hardware, now).Ok?
      && LogOk(CallOn(s1, c, i, j, mode, hardware, now).value)
  {
    var q := ChannelQueue(i, j);
    var s1 := Logged(s, CallMade(q, c));
    assert ValidId(s.servers, q);
    assert c in FloatingIn(s.threads);
    if ChannelAt(s.servers, q) == Listened {
      PopPartnerKeeps(s1, i, j);
      MeetLog(s, i, j, c, Called);
      var (s2, l) := PopPartner(s1, i, j).value;
      CallTransferLog(Logged(s2, Paired(q, c, l)), c, l, mode, hardware, now);
    } else {
      ParkOnLog(s, c, i, j, Called, now);
    }
  }

  lemma ListenOnLog(s: State, l: Tid, i: nat, j: nat, hardware: Fault, now: Word)
    requires WellFormed(s) && s.current == None && FloatingIn(s.threads) == {l} && l in s.threads && LogOk(s)
    requires HasChannel(s.servers, ChannelQueue(i, j))
    requires !(ChannelAt(s.servers, ChannelQueue(i, j)) == Called && Owes(s, l))
    ensures var s1 := Logged(s, ListenMade(ChannelQueue(i, j), l));
      ChannelExists(s1, i, j) && ListenOn(s1, l, i, j, hardware, now).Ok?
      && LogOk(ListenOn(s1, l, i, j, hardware, now).value)
  {
    var q := ChannelQueue(i, j);
    var s1 := Logged(s, ListenMade(q, l));
    assert ValidId(s.servers, q);
    assert l in FloatingIn(s.threads);
    if ChannelAt(s.servers, q) == Called {
      PopPartnerKeeps(s1, i, j);
      MeetLog(s, i, j, l, Listened);
      var (s2, c) := PopPartner(s1, i, j).value;
      assert ModeOk(s.servers, s.threads[c]);
      CallTransferLog(Logged(s2, Paired(q, c, l)), c, l, s2.threads[c].regs.rdi, hardware, now);
    } else {
      ParkOnLog(s, l, i, j, Listened, now);
    }
  }

  // ---------------------------------------------------------------- the other entries

  lemma ReleaseTies(log: Log, threads: Threads, r: Tid, c: Tid, rt: Thread, ct: Thread)
    requires CallsTied(log, threads) && WaitsTied(log, threads) && CallsOk(threads)
    requires r in threads && c in threads && r != c && threads[r].caller == Some(c)
    requires rt.caller == None && rt.root == threads[r].root && ct.caller == threads[c].caller && ct.root == threads[c].root
    ensures InFlight(log, c) == Some(r)
    ensures CallsTied(log + [Completed(c, r)], threads[r := rt][c := ct])
    ensures WaitsTied(log + [Completed(c, r)], threads[r := rt][c := ct])
  {
    var threads' := threads[r := rt][c := ct];
    assert Holds(threads, r, c);
    Append(log, Completed(c, r));
    assert forall h, x :: Holds(threads', h, x) == (Holds(threads, h, x) && h != r);
    assert forall h, x | Holds(threads, h, x) :: h == r <==> x == c;
    assert forall t, irq: nat :: ParkedOn(threads', t, irq) == ParkedOn(threads, t, irq);
  }

  lemma ReleaseLog(s: State, r: Tid, c: Tid)
    requires Inv(s) && s.current == Some(r) && r in s.threads && s.threads[r].caller == Some(c) && LogOk(s)
    ensures c in s.threads && LogOk(Release(s, r, c))
  {
    ReleaseKeeps(s, r, c);
    var rt, ct := s.threads[r].(caller := None), s.threads[c].(state := Floating);
    assert Release(s, r, c).threads == s.threads[r := rt][c := ct];
    ReleaseTies(s.log, s.threads, r, c, rt, ct);
    Append(s.log, Completed(c, r));
    ChannelsSilent(s.log, Completed(c, r), s.queues, s.servers);
  }

  lemma ReadyWithLog(s: State, c: Tid, regs: Registers, result: Word)
    requires WellFormed(s) && FloatingIn(s.threads) == {c} && c in s.threads && LogOk(s)
    ensures ReadyWith(s, c, regs, result).Ok? && LogOk(ReadyWith(s, c, regs, result).value.state)
  {
    assert c in FloatingIn(s.threads);
    SetRegsKeeps(s, c, regs);
    SetRegsLog(s, c, regs);
    MakeReadyLog(SetRegs(s, c, regs), c);
  }

  lemma AnswerCopiedLog(s: State, c: Tid, regs: Registers, r: Tid)
    requires WellFormed(s) && s.current == None && c != r && FloatingIn(s.threads) == {c, r} && LogOk(s)
    requires c in s.threads && r in s.threads
    ensures var s4 := MakeReady(SetResult(SetRegs(s, c, regs), r, 0), r);
      s4.Ok? && Restore(s4.value, c).Ok? && LogOk(Restore(s4.value, c).value)
  {
    assert c in FloatingIn(s.threads) && r in FloatingIn(s.threads);
    SetBothKeeps(s, c, regs, r, s.threads[r].regs.(rax := 0));
    SetBothLog(s, c, regs, r, s.threads[r].regs.(rax := 0));
    var s3 := SetResult(SetRegs(s, c, regs), r, 0);
    MakeReadyKeeps(s3, r);
    MakeReadyLog(s3, r);
    RestoreLog(MakeReady(s3, r).value, c);
  }

  lemma AnswerStringLog(s: State, c: Tid, ctx: Registers, hardware: Fault, now: Word)
    requires WellFormed(s) && s.current.Some? && FloatingIn(s.threads) == {c} && c in s.threads && LogOk(s)
    requires ctx.rdx <= s.threads[c].regs.rdx
    ensures AnswerString(s, c, ctx, hardware, now).Ok? && LogOk(AnswerString(s, c, ctx, hardware, now).value)
  {
    assert c in FloatingIn(s.threads);
    SaveKeeps(s, ctx);
    SaveLog(s, ctx);
    var cr := s.threads[c].regs;
    var (s1, r) := Save(s, ctx).value;
    assert FloatingIn(s1.threads) == {c, r};
    match CopyFault(ctx, cr, ctx.rdx, hardware)
    case ReadFault => TransferErrorLog(s1, EFAULT, r, c, now);
    case WriteFault => TransferErrorLog(s1, EFAULT, c, r, now);
    case NoFault =>
      CopyLog(s1, Copied(r, c, ctx.rdx, ctx.rdx, cr.rdx));
      AnswerCopiedLog(Logged(s1, Copied(r, c, ctx.rdx, ctx.rdx, cr.rdx)), c, cr.(rax := ctx.rdi, rdx := ctx.rdx), r);
  }

  lemma AnswerLog(s: State, c: Tid, ctx: Registers, hardware: Fault, now: Word)
    requires WellFormed(s) && s.current.Some? && FloatingIn(s.threads) == {c} && c in s.threads && LogOk(s)
    ensures Answer(s, c, ctx, hardware, now).Ok? && LogOk(Answer(s, c, ctx, hardware, now).value.state)
  {
    var cr := s.threads[c].regs;
    if !HasFlag(ctx.r10, RXSTR) {
      ReadyWithLog(s, c, cr.(rax := ctx.rdi, rdx := ctx.rsi), 0);
    } else if !HasFlag(cr.r10, RXSTR) {
      ReadyWithLog(s, c, cr.(rax := Neg(EIPCIO)), Neg(EINVAL));
    } else if ctx.rdx > cr.rdx {
      ReadyWithLog(s, c, cr.(rax := Neg(EIPCIO)), Neg(E2BIG));
    } else {
      AnswerStringLog(s, c, ctx, hardware, now);
    }
  }

  lemma RespondLog(s: State, ctx: Registers, hardware: Fault, now: Word)
    requires Inv(s) && s.current.Some? && LogOk(s)
    ensures Respond(s, ctx, hardware, now).Ok? && LogOk(Respond(s, ctx, hardware, now).value.state)
  {
    var r := s.current.value;
    if s.threads[r].caller.Some? {
      var c := s.threads[r].caller.value;
      ReleaseKeeps(s, r, c);
      ReleaseLog(s, r, c);
      AnswerLog(Release(s, r, c), c, ctx, hardware, now);
    }
  }

  lemma CallServerLog(s: State, i: nat, mode: nat, ctx: Registers, hardware: Fault, now: Word)
    requires Inv(s) && s.current.Some? && i < |s.servers| && mode < TRANSFER_MAX && LogOk(s)
    requires !CallHalts(s, i, mode)
    ensures CallServer(s, i, mode, ctx, hardware, now).Ok? && LogOk(CallServer(s, i, mode, ctx, hardware, now).value.state)
  {
    assert MapOk(s.servers[i]);
    var id := s.servers[i].transferMap[mode];
    if id != 0 {
      CallSaved(s, i, mode, ctx);
      SaveLog(s, ctx.(rdi := mode));
      var (s1, c) := Save(s, ctx.(rdi := mode)).value;
      CallOnLog(s1, c, i, id - 1, mode, hardware, now);
    }
  }

  lemma ListenAtLog(s: State, i: nat, j: nat, ctx: Registers, hardware: Fault, now: Word)
    requires Inv(s) && s.current.Some? && HasChannel(s.servers, ChannelQueue(i, j)) && LogOk(s)
    requires !ListenAtHalts(s, i, j)
    ensures ListenAt(s, i, j, ctx, hardware, now).Ok? && LogOk(ListenAt(s, i, j, ctx, hardware, now).value.state)
  {
    SaveKeeps(s, ctx);
    SaveLog(s, ctx);
    var (s1, l) := Save(s, ctx).value;
    ListenOnLog(s1, l, i, j, hardware, now);
  }

  lemma ListenLog(s: State, i: nat, ctx: Registers, hardware: Fault, now: Word)
    requires Inv(s) && s.current.Some? && i < |s.servers| && LogOk(s) && !ListenHalts(s, i, ctx)
    ensures Listen(s, i, ctx, hardware, now).Ok? && LogOk(Listen(s, i, ctx, hardware, now).value.state)
  {
    if 0 < ctx.r10 <= |s.servers[i].channels| { ListenAtLog(s, i, ctx.r10 - 1, ctx, hardware, now); }
  }

  lemma SleepLog(s: State, ctx: Registers, armedAt: Word, now: Word)
    requires Inv(s) && s.current.Some? && LogOk(s)
    ensures Sleep(s, ctx, armedAt, now).Ok? && LogOk(Sleep(s, ctx, armedAt, now).value.state)
  {
    if Signed(ctx.rdi) > 0 {
      SaveKeeps(s, ctx.(rax := 0));
      SaveLog(s, ctx.(rax := 0));
      var (s1, t) := Save(s, ctx.(rax := 0)).value;
      assert Placed(s1.threads[t]);
      SleepArmed(s1, t, ctx.rdi, armedAt);
      SleepQuiet(s1, t, ctx.rdi, armedAt);
      ScheduleLog(SetTimeout(SetThread(s1, t, s1.threads[t].(state := Sleeping)), t, ctx.rdi, armedAt).value, ZERO, now);
    }
  }

  lemma SleepQuiet(s: State, t: Tid, ns: Word, armedAt: Word)
    requires LogOk(s) && t in s.threads && Loose(s.threads[t])
    ensures var s' := SetTimeout(SetThread(s, t, s.threads[t].(state := Sleeping)), t, ns, armedAt);
      s'.Ok? && LogOk(s'.value)
  {
    var s' := SetTimeout(SetThread(s, t, s.threads[t].(state := Sleeping)), t, ns, armedAt).value;
    assert s'.threads == s.threads[t := s'.threads[t]];
    QuietChange(s, s', t, s'.threads[t]);
    Unseen(s, s');
  }

  lemma BeginWait(s: State, t: Tid, th: Thread, irq: nat, queues: Queues, sleepers: seq<Tid>)
    requires LogOk(s) && t in s.threads && s.threads[t].root == None
    requires th.root == Some(IrqQueue(irq)) && th.caller == s.threads[t].caller
    requires queues.Keys == s.queues.Keys && (forall q | q in s.queues && q.ChannelQueue? :: queues[q] == s.queues[q])
    ensures LogOk(s.(threads := s.threads[t := th], queues := queues, sleepers := sleepers, log := s.log + [WaitBegun(t, irq)]))
  {
    var threads' := s.threads[t := th];
    var e := WaitBegun(t, irq);
    Append(s.log, e);
    assert WaitOn(s.log, t) == None by {
      assert forall k: nat :: !ParkedOn(s.threads, t, k);
      assert forall k: nat :: WaitOn(s.log, t) != Some(k);
    }
    ChannelsSilent(s.log, e, s.queues, s.servers);
    assert forall h, c :: Holds(threads', h, c) == Holds(s.threads, h, c);
    assert forall u, k: nat :: ParkedOn(threads', u, k) == (ParkedOn(s.threads, u, k) || (u == t && k == irq));
  }

  lemma IrqControlLog(s: State, irq: nat, op: Word, ctx: Registers, armedAt: Word, now: Word)
    requires Inv(s) && s.current.Some? && irq < |s.irqs| && s.irqs[irq].claimed && LogOk(s)
    ensures IrqControl(s, irq, op, ctx, armedAt, now).Ok?
    ensures LogOk(IrqControl(s, irq, op, ctx, armedAt, now).value.state)
  {
    if op % 2 == 1 && op < 4 && !s.irqs[irq].occurred && Signed(ctx.rdx) > 0 {
      SaveKeeps(s, ctx.(rax := Neg(EAGAIN)));
      SaveLog(s, ctx.(rax := Neg(EAGAIN)));
      var (s1, t) := Save(s, ctx.(rax := Neg(EAGAIN))).value;
      assert Placed(s1.threads[t]);
      WaitArmed(s1, t, irq, ctx.rdx, armedAt);
      var s3 := ArmWait(s1, t, irq, ctx.rdx, armedAt).value;
      BeginWait(s1, t, s3.threads[t], irq, s3.queues, s3.sleepers);
      ScheduleLog(s3, ZERO, now);
    }
  }

  lemma ReceiveIrqLog(s: State, irq: nat)
    requires Inv(s) && LogOk(s)
    ensures ReceiveIrq(s, irq).Ok? && LogOk(ReceiveIrq(s, irq).value)
  {
    if irq < |s.irqs| {
      assert ValidId(s.servers, IrqQueue(irq));
      if s.queues[IrqQueue(irq)] != [] { WakeHeadLog(s, irq, 1, Interrupted); }
    }
  }

  lemma ReleaseIrqLog(s: State, irq: nat)
    requires Inv(s) && irq < |s.irqs| && LogOk(s)
    ensures ReleaseIrq(s, irq).Ok? && LogOk(ReleaseIrq(s, irq).value.state)
  {
    assert ValidId(s.servers, IrqQueue(irq));
    SetIrqKeeps(s, irq, s.irqs[irq].(claimed := false));
    WakeAllLog(SetIrq(s, irq, s.irqs[irq].(claimed := false)), irq, Neg(EBADF));
  }

  lemma AddThreadLog(s: State, t: Tid, regs: Registers)
    requires LogOk(s) && t !in s.threads && RunQueue in s.queues
    ensures AddThread(s, t, regs).Ok? && LogOk(AddThread(s, t, regs).value.state)
  {
    var s' := AddThread(s, t, regs).value.state;
    assert forall h, c :: Holds(s'.threads, h, c) == Holds(s.threads, h, c);
    assert forall u, irq: nat :: ParkedOn(s'.threads, u, irq) == ParkedOn(s.threads, u, irq);
    Unseen(s, s');
  }

  lemma CreateServerLog(s: State, transfers: seq<nat>)
    requires Inv(s) && |transfers| == TRANSFER_MAX && LogOk(s)
    ensures CreateServer(s, transfers).Ok? && LogOk(CreateServer(s, transfers).value.state)
  {
    if forall k | 0 <= k < |transfers| :: transfers[k] <= TRANSFER_MAX {
      var i, n := |s.servers|, MaxChannel(transfers);
      ChannelQueuesFacts(i, n);
      CreateTies(s.log, s.queues, ChannelQueues(i, n), s.servers, Server(transfers, seq(n, _ => Empty)));
    }
  }

  lemma CreateTies(log: Log, queues: Queues, more: Queues, servers: seq<Server>, v: Server)
    requires ChannelsTied(log, queues, servers) && (forall q :: q in queues <==> ValidId(servers, q))
    requires forall j | 0 <= j < |v.channels| :: v.channels[j] == Empty
    requires forall q :: q in more <==> q.ChannelQueue? && q.server == |servers| && q.channel < |v.channels|
    requires forall q | q in more :: more[q] == []
    ensures ChannelsTied(log, queues + more, servers + [v])
  {
    var queues', servers' := queues + more, servers + [v];
    forall q | q in queues' && HasChannel(servers', q) ensures ChannelTied(log, q, ChannelAt(servers', q), queues'[q]) {
      if q in more {
        assert ChannelTied(log, q, Empty, []);
      } else {
        assert ChannelTied(log, q, ChannelAt(servers, q), queues[q]);
      }
    }
  }

  lemma RequestLog(s: State, i: nat, choice: ModeChoice, ctx: Registers, hardware: Fault, now: Word)
    requires Inv(s) && s.current.Some? && i < |s.servers| && (choice.Mode? ==> choice.mode < TRANSFER_MAX)
    requires LogOk(s) && !RequestHalts(s, i, choice)
    ensures Request(s, i, choice, ctx, hardware, now).Ok? && LogOk(Request(s, i, choice, ctx, hardware, now).value.state)
  {
    if choice.Mode? { CallServerLog(s, i, choice.mode, ctx, hardware, now); }
  }

  /** Every kernel entry that does not halt keeps the history disciplined and tied to the state. */
  lemma StepLog(s: State, e: Entry)
    requires Inv(s) && Enabled(s, e) && LogOk(s) && !Halts(s, e)
    ensures Step(s, e).Ok? && LogOk(Step(s, e).value.state)
  {
    match e
    case EnterCall(i, ctx, hw, now) => RequestLog(s, i, CallTransferMode(ctx), ctx, hw, now);
    case EnterRead(i, ctx, hw, now) => RequestLog(s, i, HandleTransferMode(TRANSFER_READ, ctx), ctx, hw, now);
    case EnterWrite(i, ctx, hw, now) => RequestLog(s, i, HandleTransferMode(TRANSFER_WRITE, ctx), ctx, hw, now);
    case EnterListen(i, ctx, hw, now) => ListenLog(s, i, ctx, hw, now);
    case EnterRespond(ctx, hw, now) => RespondLog(s, ctx, hw, now);
    case EnterSleep(ctx, armedAt, now) => SleepLog(s, ctx, armedAt, now);
    case EnterIrqControl(irq, op, ctx, armedAt, now) => IrqControlLog(s, irq, op, ctx, armedAt, now);
    case EnterClaim(line) =>
    case EnterRelease(irq) => ReleaseIrqLog(s, irq);
    case EnterSpawn(t, regs) =>
      assert ValidId(s.servers, RunQueue);
      AddThreadLog(s, t, regs);
    case EnterCreate(transfers) => CreateServerLog(s, transfers);
    case EnterInterrupt(irq, ctx, now) =>
      ReceiveIrqKeeps(s, irq);
      ReceiveIrqLog(s, irq);
      ScheduleLog(ReceiveIrq(s, irq).value, ctx, now);
    case EnterTick(ctx, now) => ScheduleLog(s, ctx, now);
  }
}
