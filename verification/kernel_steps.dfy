/**
  Every kernel entry keeps the invariant, and halts only where a listener that never
  responded is paired a second time, or a listen names channel id 0.
 */
module KernelSteps {
  import opened Wrappers
  import opened KernelState
  import opened KernelInvariant

  // ---------------------------------------------------------------- saving, restoring, scheduling

  lemma ThreadsSwitch(threads: Threads, servers: seq<Server>, current: Option<Tid>, t: Tid, th: Thread, current': Option<Tid>)
    requires ThreadsOk(threads, servers, current) && t in threads
    requires th.root == None && !th.armed && th.caller == threads[t].caller
    requires || (current == Some(t) && current' == None && th.state == Floating)
             || (current == None && threads[t].state == Floating && current' == Some(t) && th.state == Running)
    ensures ThreadsOk(threads[t := th], servers, current')
    ensures FloatingIn(threads[t := th]) == FloatingAfter(threads, t, th)
  {
    CallsFrame(threads, t, th);
  }

  lemma SaveKeeps(s: State, ctx: Registers)
    requires WellFormed(s) && s.current.Some?
    ensures Save(s, ctx).Ok? && s.current.value in s.threads
    ensures var (s', t) := Save(s, ctx).value;
      && WellFormed(s') && FloatingIn(s'.threads) == FloatingIn(s.threads) + {t}
      && t == s.current.value && s'.current == None && s'.servers == s.servers && s'.queues == s.queues
      && s'.irqs == s.irqs
      && s'.threads == s.threads[t := s.threads[t].(state := Floating, regs := ctx)]
  {
    var t := s.current.value;
    var th := s.threads[t].(state := Floating, regs := ctx);
    assert Placed(s.threads[t]);
    ThreadsSwitch(s.threads, s.servers, s.current, t, th, None);
    QueueKeep(s.threads, s.queues, t, th);
    SleepKeep(s.threads, s.sleepers, t, th);
  }

  lemma RestoreKeeps(s: State, t: Tid)
    requires WellFormed(s) && s.current == None && t in s.threads && s.threads[t].state == Floating
    ensures Restore(s, t).Ok?
    ensures var s' := Restore(s, t).value;
      WellFormed(s') && FloatingIn(s'.threads) == FloatingIn(s.threads) - {t} && s'.current == Some(t)
  {
    var th := s.threads[t].(state := Running);
    assert Placed(s.threads[t]);
    ThreadsSwitch(s.threads, s.servers, s.current, t, th, Some(t));
    QueueKeep(s.threads, s.queues, t, th);
    SleepKeep(s.threads, s.sleepers, t, th);
  }

  function Chosen(th: Thread): Thread { th.(state := Floating, root := None) }

  /** Popping the run queue is detaching its head. */
  lemma RunPopIs(s: State)
    requires RunQueue in s.queues && s.queues[RunQueue] != [] && s.queues[RunQueue][0] in s.threads
    requires var t := s.queues[RunQueue][0];
      s.threads[t].root == Some(RunQueue) && s.threads[t].state == Ready && t !in s.sleepers
    ensures var t := s.queues[RunQueue][0];
      && Dequeue(s, RunQueue).Ok? && Dequeue(s, RunQueue).value.1 == t
      && var s2 := Dequeue(s, RunQueue).value.0;
         t in s2.threads && s2.threads[t].state == Ready
         && SetThread(s2, t, s2.threads[t].(state := Floating)) == Detach(s, t, Chosen(s.threads[t]))
  {
    var t := s.queues[RunQueue][0];
    var s2 := Dequeue(s, RunQueue).value.0;
    WithoutAbsent(s.sleepers, t);
    assert SetThread(s2, t, s2.threads[t].(state := Floating)).threads == s.threads[t := Chosen(s.threads[t])];
  }

  lemma ScheduleKeeps(s: State, ctx: Registers, now: Word)
    requires Inv(s)
    ensures Schedule(s, ctx, now).Ok? && Inv(Schedule(s, ctx, now).value)
  {
    WakeSleepersKeeps(s, now);
    var s1 := WakeSleepers(s, now).value;
    assert ValidId(s1.servers, RunQueue);
    if s1.queues[RunQueue] != [] {
      var t := s1.queues[RunQueue][0];
      assert Placed(s1.threads[t]);
      assert t !in s1.sleepers;
      RunPopIs(s1);
      DetachKeeps(s1, t, Chosen(s1.threads[t]));
      SwitchTo(Detach(s1, t, Chosen(s1.threads[t])), ctx, t);
    }
  }

  /** The second half of scheduling: whoever runs goes back to the queue, and `t` runs. */
  lemma SwitchTo(s: State, ctx: Registers, t: Tid)
    requires WellFormed(s) && t in s.threads && s.threads[t].state == Floating && FloatingIn(s.threads) == {t}
    ensures Preempt(s, ctx).Ok? && Restore(Preempt(s, ctx).value, t).Ok?
    ensures Inv(Restore(Preempt(s, ctx).value, t).value)
  {
    if s.current == None {
      RestoreKeeps(s, t);
    } else {
      SaveKeeps(s, ctx);
      var saved, running := Save(s, ctx).value.0, Save(s, ctx).value.1;
      assert running != t;
      MakeReadyKeeps(saved, running);
      RestoreKeeps(MakeReady(saved, running).value, t);
    }
  }

  lemma ScheduleOrIdleKeeps(s: State, now: Word)
    requires Inv(s) && s.current == None
    ensures ScheduleOrIdle(s, ZERO, now).Ok? && Inv(ScheduleOrIdle(s, ZERO, now).value)
  {
    ScheduleKeeps(s, ZERO, now);
  }

  // ---------------------------------------------------------------- channels

  lemma ObjectsChannel(queues: Queues, servers: seq<Server>, irqs: seq<Irq>, q: QueueId, cs: ChannelState, ts: seq<Tid>)
    requires ObjectsOk(queues, servers, irqs) && q in queues && HasChannel(servers, q)
    requires cs == Empty <==> ts == []
    ensures ObjectsOk(queues[q := ts], WithChannel(servers, q.server, q.channel, cs), irqs)
  {
    var servers' := WithChannel(servers, q.server, q.channel, cs);
    assert queues[q := ts].Keys == queues.Keys;
    assert forall p :: HasChannel(servers', p) == HasChannel(servers, p);
    assert forall i | 0 <= i < |servers'| :: MapOk(servers[i]) ==> MapOk(servers'[i]);
    assert forall p | HasChannel(servers, p) && p != q :: ChannelAt(servers', p) == ChannelAt(servers, p);
  }

  lemma ModesChannel(threads: Threads, servers: seq<Server>, q: QueueId, cs: ChannelState)
    requires ModesOk(threads, servers) && HasChannel(servers, q)
    requires cs == Called ==> ChannelAt(servers, q) == Called || forall t | t in threads :: threads[t].root != Some(q)
    ensures ModesOk(threads, WithChannel(servers, q.server, q.channel, cs))
  {
    var servers' := WithChannel(servers, q.server, q.channel, cs);
    forall t | t in threads ensures ModeOk(servers', threads[t]) {
      assert ModeOk(servers, threads[t]);
    }
  }

  lemma WithSameChannel(servers: seq<Server>, i: nat, j: nat)
    requires i < |servers| && j < |servers[i].channels|
    ensures WithChannel(servers, i, j, servers[i].channels[j]) == servers
  {
    assert servers[i].channels[j := servers[i].channels[j]] == servers[i].channels;
  }

  lemma ParkIs(s: State, i: nat, j: nat, t: Tid, cs: ChannelState)
    requires t in s.threads && Loose(s.threads[t])
    requires HasChannel(s.servers, ChannelQueue(i, j)) && ChannelQueue(i, j) in s.queues
    ensures var q := ChannelQueue(i, j);
      PushInto(SetChannel(s, i, j, cs), t, q) == Ok(s.(
        threads := s.threads[t := s.threads[t].(state := Waiting, root := Some(q))],
        queues := s.queues[q := s.queues[q] + [t]],
        servers := WithChannel(s.servers, i, j, cs)))
  {
    assert PushInto(SetChannel(s, i, j, cs), t, ChannelQueue(i, j)).value.threads ==
      s.threads[t := s.threads[t].(state := Waiting, root := Some(ChannelQueue(i, j)))];
  }

  /** Parking a thread on a channel that is empty or already holds its own kind. */
  lemma ParkKeeps(s: State, i: nat, j: nat, t: Tid, cs: ChannelState)
    requires WellFormed(s) && t in s.threads && s.threads[t].state == Floating
    requires HasChannel(s.servers, ChannelQueue(i, j)) && cs != Empty
    requires ChannelAt(s.servers, ChannelQueue(i, j)) == Empty || ChannelAt(s.servers, ChannelQueue(i, j)) == cs
    requires cs == Called ==> Routed(s.servers, ChannelQueue(i, j), s.threads[t].regs.rdi)
    ensures PushInto(SetChannel(s, i, j, cs), t, ChannelQueue(i, j)).Ok?
    ensures var s' := PushInto(SetChannel(s, i, j, cs), t, ChannelQueue(i, j)).value;
      WellFormed(s') && FloatingIn(s'.threads) == FloatingIn(s.threads) - {t} && s'.current == s.current
  {
    var q := ChannelQueue(i, j);
    var servers' := WithChannel(s.servers, i, j, cs);
    assert ValidId(s.servers, q);
    assert Placed(s.threads[t]);
    assert forall u | u in s.threads && s.threads[u].root == Some(q) :: u in s.queues[q];
    ModesChannel(s.threads, s.servers, q, cs);
    var th := s.threads[t].(state := Waiting, root := Some(q));
    ThreadChange(s.threads, servers', s.current, t, th);
    Link(s.threads, s.queues, s.sleepers, q, t, th);
    ObjectsChannel(s.queues, s.servers, s.irqs, q, cs, s.queues[q] + [t]);
    ParkIs(s, i, j, t, cs);
  }

  /** Popping a parked thread and, with it, the channel's last waiter. */
  lemma PopPartnerKeeps(s: State, i: nat, j: nat)
    requires WellFormed(s) && HasChannel(s.servers, ChannelQueue(i, j))
    requires ChannelAt(s.servers, ChannelQueue(i, j)) != Empty
    ensures ChannelQueue(i, j) in s.queues && s.queues[ChannelQueue(i, j)] != []
    ensures PopPartner(s, i, j).Ok?
    ensures var (s', t) := PopPartner(s, i, j).value;
      && t == s.queues[ChannelQueue(i, j)][0] && t in s.threads && s.threads[t].state == Waiting
      && WellFormed(s') && FloatingIn(s'.threads) == FloatingIn(s.threads) + {t} && s'.current == s.current
      && s'.threads == s.threads[t := Chosen(s.threads[t])]
  {
    var q := ChannelQueue(i, j);
    assert ValidId(s.servers, q);
    var t := s.queues[q][0];
    assert Placed(s.threads[t]);
    var th := Chosen(s.threads[t]);
    var rest := s.queues[q][1..];
    assert rest == Without(s.queues[q], t);
    QueueRemove(s.threads, s.queues, q, t, th);
    SleepKeep(s.threads, s.sleepers, t, th);
    var cs := if rest == [] then Empty else ChannelAt(s.servers, q);
    ModesChannel(s.threads, s.servers, q, cs);
    ThreadChange(s.threads, WithChannel(s.servers, i, j, cs), s.current, t, th);
    ObjectsChannel(s.queues, s.servers, s.irqs, q, cs, rest);
    WithSameChannel(s.servers, i, j);
    PopPartnerIs(s, i, j);
  }

  lemma PopPartnerIs(s: State, i: nat, j: nat)
    requires HasChannel(s.servers, ChannelQueue(i, j)) && ChannelQueue(i, j) in s.queues
    requires s.queues[ChannelQueue(i, j)] != [] && s.queues[ChannelQueue(i, j)][0] in s.threads
    requires var th := s.threads[s.queues[ChannelQueue(i, j)][0]];
      th.root == Some(ChannelQueue(i, j)) && th.state == Waiting && !th.armed
    ensures var q := ChannelQueue(i, j); var t := s.queues[q][0]; var rest := s.queues[q][1..];
      PopPartner(s, i, j) == Ok((s.(
        threads := s.threads[t := Chosen(s.threads[t])],
        queues := s.queues[q := rest],
        servers := if rest == [] then WithChannel(s.servers, i, j, Empty) else s.servers), t))
  {
    var t := s.queues[ChannelQueue(i, j)][0];
    var s1 := PopFrom(s, ChannelQueue(i, j)).value.0;
    assert s1.threads == s.threads[t := Chosen(s.threads[t])];
  }

  // ---------------------------------------------------------------- transfers

  lemma SetRegsKeeps(s: State, t: Tid, regs: Registers)
    requires WellFormed(s) && t in s.threads && s.threads[t].state == Floating
    ensures WellFormed(SetRegs(s, t, regs)) && FloatingIn(SetRegs(s, t, regs).threads) == FloatingIn(s.threads)
  {
    var th := s.threads[t].(regs := regs);
    assert Placed(s.threads[t]);
    ThreadChange(s.threads, s.servers, s.current, t, th);
    QueueKeep(s.threads, s.queues, t, th);
    SleepKeep(s.threads, s.sleepers, t, th);
  }

  /** A failed transfer holds neither party any longer. */
  lemma TransferErrorKeeps(s: State, shame: Word, guilty: Tid, innocent: Tid, now: Word)
    requires WellFormed(s) && s.current == None && guilty != innocent
    requires FloatingIn(s.threads) == {guilty, innocent}
    ensures TransferError(s, shame, guilty, innocent, now).Ok?
    ensures Inv(TransferError(s, shame, guilty, innocent, now).value)
  {
    assert guilty in FloatingIn(s.threads) && innocent in FloatingIn(s.threads);
    SetRegsKeeps(s, guilty, s.threads[guilty].regs.(rax := Neg(shame)));
    var s1 := SetResult(s, guilty, Neg(shame));
    SetRegsKeeps(s1, innocent, s1.threads[innocent].regs.(rax := Neg(EIPCIO)));
    var s2 := SetResult(s1, innocent, Neg(EIPCIO));
    MakeReadyKeeps(s2, guilty);
    var s3 := MakeReady(s2, guilty).value;
    MakeReadyKeeps(s3, innocent);
    ScheduleOrIdleKeeps(MakeReady(s3, innocent).value, now);
  }

  lemma CallsDeliver(threads: Threads, c: Tid, l: Tid, ct: Thread, lt: Thread)
    requires CallsOk(threads) && c in threads && l in threads && c != l
    requires threads[c].state == Floating && threads[l].state == Floating && threads[l].caller == None
    requires ct.state == Calling && ct.caller == threads[c].caller
    requires lt.state == Running && lt.caller == Some(c)
    ensures CallsOk(threads[c := ct][l := lt])
  {
    var threads' := threads[c := ct][l := lt];
    assert forall h, x :: Holds(threads', h, x) == ((h == l && x == c) || Holds(threads, h, x));
    forall x | x in threads' && threads'[x].state == Calling ensures Served(threads', x) {
      if x == c {
        assert Holds(threads', l, c);
      } else {
        assert Served(threads, x);
        var h :| Holds(threads, h, x);
        assert Holds(threads', h, x);
      }
    }
  }

  lemma DeliverKeeps(s: State, c: Tid, l: Tid, callback: Word)
    requires WellFormed(s) && s.current == None && c != l && FloatingIn(s.threads) == {c, l}
    requires c in s.threads && l in s.threads && s.threads[l].caller == None
    ensures Deliver(s, c, l, callback).Ok? && Inv(Deliver(s, c, l, callback).value)
  {
    assert c in FloatingIn(s.threads) && l in FloatingIn(s.threads);
    assert Placed(s.threads[c]) && Placed(s.threads[l]);
    var ct := s.threads[c].(state := Calling);
    var lt := s.threads[l].(state := Running, caller := Some(c), regs := s.threads[l].regs.(rip := callback));
    var mid := s.threads[c := ct];
    CallsDeliver(s.threads, c, l, ct, lt);
    QueueKeep(s.threads, s.queues, c, ct);
    SleepKeep(s.threads, s.sleepers, c, ct);
    QueueKeep(mid, s.queues, l, lt);
    SleepKeep(mid, s.sleepers, l, lt);
    assert Deliver(s, c, l, callback).value.threads == mid[l := lt];
    DeliverThreads(s.threads, s.servers, c, l, ct, lt);
  }

  lemma DeliverThreads(threads: Threads, servers: seq<Server>, c: Tid, l: Tid, ct: Thread, lt: Thread)
    requires PlacedOk(threads) && CurrentOk(threads, None) && ModesOk(threads, servers)
    requires c in threads && l in threads && c != l && FloatingIn(threads) == {c, l}
    requires Placed(ct) && Placed(lt) && ct.state == Calling && lt.state == Running
    ensures var threads' := threads[c := ct][l := lt];
      PlacedOk(threads') && CurrentOk(threads', Some(l)) && ModesOk(threads', servers) && FloatingIn(threads') == {}
  {
    var threads' := threads[c := ct][l := lt];
    forall t | t in threads' ensures Placed(threads'[t]) && ModeOk(servers, threads'[t]) && threads'[t].state != Floating {
      if t != c && t != l {
        assert t !in FloatingIn(threads);
        assert Placed(threads[t]) && ModeOk(servers, threads[t]);
      }
    }
  }

  /** A transfer halts exactly when its listener still owes a response. */
  lemma CallTransferKeeps(s: State, c: Tid, l: Tid, mode: Word, hardware: Fault, now: Word)
    requires WellFormed(s) && s.current == None && c != l && FloatingIn(s.threads) == {c, l}
    requires c in s.threads && l in s.threads && mode < TRANSFER_MAX
    ensures CallTransfer(s, c, l, mode, hardware, now).Halt? <==> s.threads[l].caller != None
    ensures CallTransfer(s, c, l, mode, hardware, now).Ok? ==> Inv(CallTransfer(s, c, l, mode, hardware, now).value)
  {
    assert c in FloatingIn(s.threads) && l in FloatingIn(s.threads);
    if s.threads[l].caller == None {
      var cr, lr := s.threads[c].regs, s.threads[l].regs;
      match PlanTransfer(cr, lr, mode)
      case Refuse(error, l') =>
        SetRegsKeeps(s, l, l');
        TransferErrorKeeps(SetRegs(s, l, l'), error, c, l, now);
      case Direct(c', l') =>
        SetBothKeeps(s, c, c', l, l');
        DeliverKeeps(SetRegs(SetRegs(s, c, c'), l, l'), c, l, lr.r8);
      case Copy(count, c', l') =>
        SetBothKeeps(s, c, c', l, l');
        DeliverCopyKeeps(SetRegs(SetRegs(s, c, c'), l, l'), c, l, Copied(c, l, count, cr.rdx, lr.rdx), lr.r8,
                         CopyFault(c', l', count, hardware), now);
    }
  }

  lemma DeliverCopyKeeps(s: State, c: Tid, l: Tid, copied: Event, callback: Word, fault: Fault, now: Word)
    requires WellFormed(s) && s.current == None && c != l && FloatingIn(s.threads) == {c, l}
    requires c in s.threads && l in s.threads && s.threads[l].caller == None
    ensures DeliverCopy(s, c, l, copied, callback, fault, now).Ok?
    ensures Inv(DeliverCopy(s, c, l, copied, callback, fault, now).value)
  {
    match fault
    case ReadFault => TransferErrorKeeps(s, EFAULT, c, l, now);
    case WriteFault => TransferErrorKeeps(s, EFAULT, l, c, now);
    case NoFault => DeliverKeeps(Logged(s, copied), c, l, callback);
  }

  lemma SetBothKeeps(s: State, c: Tid, cr: Registers, l: Tid, lr: Registers)
    requires WellFormed(s) && c != l && c in s.threads && l in s.threads
    requires s.threads[c].state == Floating && s.threads[l].state == Floating
    ensures var s' := SetRegs(SetRegs(s, c, cr), l, lr);
      WellFormed(s') && FloatingIn(s'.threads) == FloatingIn(s.threads)
  {
    SetRegsKeeps(s, c, cr);
    SetRegsKeeps(SetRegs(s, c, cr), l, lr);
  }

  // ---------------------------------------------------------------- system calls

  ghost predicate Owes(s: State, t: Tid) {
    t in s.threads && s.threads[t].caller != None
  }

  lemma ParkOnKeeps(s: State, t: Tid, i: nat, j: nat, kind: ChannelState, now: Word)
    requires WellFormed(s) && s.current == None && FloatingIn(s.threads) == {t} && t in s.threads
    requires HasChannel(s.servers, ChannelQueue(i, j)) && kind != Empty
    requires ChannelAt(s.servers, ChannelQueue(i, j)) == Empty || ChannelAt(s.servers, ChannelQueue(i, j)) == kind
    requires kind == Called ==> Routed(s.servers, ChannelQueue(i, j), s.threads[t].regs.rdi)
    ensures ChannelExists(s, i, j)
    ensures ParkOn(s, t, i, j, kind, now).Ok? && Inv(ParkOn(s, t, i, j, kind, now).value)
  {
    assert ValidId(s.servers, ChannelQueue(i, j));
    assert t in FloatingIn(s.threads);
    ParkKeeps(s, i, j, t, kind);
    ScheduleOrIdleKeeps(PushInto(SetChannel(s, i, j, kind), t, ChannelQueue(i, j)).value, now);
  }

  /** The listener that a call on this channel would meet still owes a response. */
  ghost predicate HeadOwes(s: State, i: nat, j: nat, kind: ChannelState) {
    && HasChannel(s.servers, ChannelQueue(i, j)) && ChannelAt(s.servers, ChannelQueue(i, j)) == kind
    && ChannelExists(s, i, j) && s.queues[ChannelQueue(i, j)] != []
    && Owes(s, s.queues[ChannelQueue(i, j)][0])
  }

  lemma CallOnKeeps(s: State, c: Tid, i: nat, j: nat, mode: Word, hardware: Fault, now: Word)
    requires WellFormed(s) && s.current == None && FloatingIn(s.threads) == {c} && c in s.threads
    requires HasChannel(s.servers, ChannelQueue(i, j)) && mode == s.threads[c].regs.rdi
    requires Routed(s.servers, ChannelQueue(i, j), mode)
    ensures ChannelExists(s, i, j)
    ensures CallOn(s, c, i, j, mode, hardware, now).Halt? <==> HeadOwes(s, i, j, Listened)
    ensures CallOn(s, c, i, j, mode, hardware, now).Ok? ==> Inv(CallOn(s, c, i, j, mode, hardware, now).value)
  {
    var q := ChannelQueue(i, j);
    assert ValidId(s.servers, q);
    assert c in FloatingIn(s.threads);
    if ChannelAt(s.servers, q) == Listened {
      PopPartnerKeeps(s, i, j);
      var (s1, l) := PopPartner(s, i, j).value;
      CallTransferKeeps(Logged(s1, Paired(q, c, l)), c, l, mode, hardware, now);
    } else {
      ParkOnKeeps(s, c, i, j, Called, now);
    }
  }

  lemma ListenOnKeeps(s: State, l: Tid, i: nat, j: nat, hardware: Fault, now: Word)
    requires WellFormed(s) && s.current == None && FloatingIn(s.threads) == {l} && l in s.threads
    requires HasChannel(s.servers, ChannelQueue(i, j))
    ensures ChannelExists(s, i, j)
    ensures ListenOn(s, l, i, j, hardware, now).Halt? <==> ChannelAt(s.servers, ChannelQueue(i, j)) == Called && Owes(s, l)
    ensures ListenOn(s, l, i, j, hardware, now).Ok? ==> Inv(ListenOn(s, l, i, j, hardware, now).value)
  {
    var q := ChannelQueue(i, j);
    assert ValidId(s.servers, q);
    assert l in FloatingIn(s.threads);
    if ChannelAt(s.servers, q) == Called {
      PopPartnerKeeps(s, i, j);
      var (s1, c) := PopPartner(s, i, j).value;
      assert ModeOk(s.servers, s.threads[c]);
      CallTransferKeeps(Logged(s1, Paired(q, c, l)), c, l, s1.threads[c].regs.rdi, hardware, now);
    } else {
      ParkOnKeeps(s, l, i, j, Listened, now);
    }
  }

  /** Transfer `mode` is routed to a channel whose first listener owes a response. */
  ghost predicate CallHalts(s: State, i: nat, mode: nat) {
    && i < |s.servers| && mode < |s.servers[i].transferMap| && s.servers[i].transferMap[mode] > 0
    && HeadOwes(s, i, s.servers[i].transferMap[mode] - 1, Listened)
  }

  /** What the saved caller brings to its channel. */
  lemma CallSaved(s: State, i: nat, mode: nat, ctx: Registers)
    requires Inv(s) && s.current.Some? && i < |s.servers| && mode < TRANSFER_MAX
    requires |s.servers[i].transferMap| == TRANSFER_MAX && s.servers[i].transferMap[mode] > 0
    ensures Save(s, ctx.(rdi := mode)).Ok?
    ensures var (s1, c) := Save(s, ctx.(rdi := mode)).value; var j := s.servers[i].transferMap[mode] - 1;
      && WellFormed(s1) && s1.current == None && FloatingIn(s1.threads) == {c} && c in s1.threads
      && s1.servers == s.servers && HasChannel(s.servers, ChannelQueue(i, j))
      && s1.threads[c].regs.rdi == mode && Routed(s.servers, ChannelQueue(i, j), mode)
      && (HeadOwes(s1, i, j, Listened) <==> HeadOwes(s, i, j, Listened))
  {
    assert MapOk(s.servers[i]);
    var q := ChannelQueue(i, s.servers[i].transferMap[mode] - 1);
    assert ValidId(s.servers, q);
    SaveKeeps(s, ctx.(rdi := mode));
    var c := s.current.value;
    assert Placed(s.threads[c]);
    assert s.queues[q] != [] ==> s.queues[q][0] in s.queues[q];
  }

  lemma CallServerKeeps(s: State, i: nat, mode: nat, ctx: Registers, hardware: Fault, now: Word)
    requires Inv(s) && s.current.Some? && i < |s.servers| && mode < TRANSFER_MAX
    ensures CallServer(s, i, mode, ctx, hardware, now).Halt? <==> CallHalts(s, i, mode)
    ensures CallServer(s, i, mode, ctx, hardware, now).Ok? ==> Inv(CallServer(s, i, mode, ctx, hardware, now).value.state)
  {
    assert MapOk(s.servers[i]);
    var id := s.servers[i].transferMap[mode];
    if id != 0 {
      CallSaved(s, i, mode, ctx);
      var (s1, c) := Save(s, ctx.(rdi := mode)).value;
      CallOnKeeps(Logged(s1, CallMade(ChannelQueue(i, id - 1), c)), c, i, id - 1, mode, hardware, now);
    }
  }

  ghost predicate ListenAtHalts(s: State, i: nat, j: nat) {
    && HasChannel(s.servers, ChannelQueue(i, j)) && ChannelAt(s.servers, ChannelQueue(i, j)) == Called
    && s.current.Some? && Owes(s, s.current.value)
  }

  /** Channel id 0, or a waiting caller for a running thread that owes a response. */
  ghost predicate ListenHalts(s: State, i: nat, ctx: Registers) {
    i < |s.servers| && (ctx.r10 == 0 || ListenAtHalts(s, i, ctx.r10 - 1))
  }

  lemma ListenAtKeeps(s: State, i: nat, j: nat, ctx: Registers, hardware: Fault, now: Word)
    requires Inv(s) && s.current.Some? && HasChannel(s.servers, ChannelQueue(i, j))
    ensures ListenAt(s, i, j, ctx, hardware, now).Halt? <==> ListenAtHalts(s, i, j)
    ensures ListenAt(s, i, j, ctx, hardware, now).Ok? ==> Inv(ListenAt(s, i, j, ctx, hardware, now).value.state)
  {
    SaveKeeps(s, ctx);
    var (s1, l) := Save(s, ctx).value;
    ListenOnKeeps(Logged(s1, ListenMade(ChannelQueue(i, j), l)), l, i, j, hardware, now);
  }

  /** Halting exactly in the given case, and with the invariant otherwise. */
  ghost predicate Ends(o: Outcome<Reply>, halts: bool) {
    (o.Halt? <==> halts) && (o.Ok? ==> Inv(o.value.state))
  }

  lemma ListenAtEnds(s: State, i: nat, j: nat, ctx: Registers, hardware: Fault, now: Word)
    requires Inv(s) && s.current.Some? && HasChannel(s.servers, ChannelQueue(i, j))
    ensures Ends(ListenAt(s, i, j, ctx, hardware, now), ListenAtHalts(s, i, j))
  {
    ListenAtKeeps(s, i, j, ctx, hardware, now);
  }

  lemma ListenKeeps(s: State, i: nat, ctx: Registers, hardware: Fault, now: Word)
    requires Inv(s) && s.current.Some? && i < |s.servers|
    ensures Listen(s, i, ctx, hardware, now).Halt? <==> ListenHalts(s, i, ctx)
    ensures Listen(s, i, ctx, hardware, now).Ok? ==> Inv(Listen(s, i, ctx, hardware, now).value.state)
  {
    if 0 < ctx.r10 <= |s.servers[i].channels| {
      ListenOneKeeps(s, i, ctx.r10 - 1, ctx, hardware, now);
    } else {
      NoChannel(s, i, ctx, hardware, now);
    }
  }

  lemma ListenOneKeeps(s: State, i: nat, j: nat, ctx: Registers, hardware: Fault, now: Word)
    requires Inv(s) && s.current.Some? && i < |s.servers| && 0 < ctx.r10 <= |s.servers[i].channels| && j == ctx.r10 - 1
    ensures Ends(Listen(s, i, ctx, hardware, now), ListenHalts(s, i, ctx))
  {
    ListenIs(s, i, j, ctx, hardware, now);
    ListenAtEnds(s, i, j, ctx, hardware, now);
  }

  lemma ListenIs(s: State, i: nat, j: nat, ctx: Registers, hardware: Fault, now: Word)
    requires i < |s.servers| && 0 < ctx.r10 <= |s.servers[i].channels| && j == ctx.r10 - 1
    ensures Listen(s, i, ctx, hardware, now) == ListenAt(s, i, j, ctx, hardware, now)
    ensures ListenHalts(s, i, ctx) == ListenAtHalts(s, i, j)
    ensures HasChannel(s.servers, ChannelQueue(i, j))
  {
  }

  lemma NoChannel(s: State, i: nat, ctx: Registers, hardware: Fault, now: Word)
    requires i < |s.servers| && !(0 < ctx.r10 <= |s.servers[i].channels|)
    ensures Listen(s, i, ctx, hardware, now) == if ctx.r10 == 0 then Halt else Return(s, Neg(EINVAL))
    ensures ListenHalts(s, i, ctx) <==> ctx.r10 == 0
  {
  }

  lemma CallsRelease(threads: Threads, r: Tid, c: Tid, rt: Thread, ct: Thread)
    requires CallsOk(threads) && r in threads && c in threads && r != c && threads[r].caller == Some(c)
    requires rt.caller == None && rt.state == threads[r].state != Calling
    requires ct.caller == threads[c].caller && ct.state == Floating
    ensures CallsOk(threads[r := rt][c := ct])
  {
    var threads' := threads[r := rt][c := ct];
    assert Holds(threads, r, c);
    assert forall h, x :: Holds(threads', h, x) == (Holds(threads, h, x) && h != r);
    forall x | x in threads' && threads'[x].state == Calling ensures Served(threads', x) {
      assert Served(threads, x);
      var h :| Holds(threads, h, x);
      assert Holds(threads', h, x);
    }
  }

  lemma ReleaseThreads(threads: Threads, servers: seq<Server>, r: Tid, c: Tid, rt: Thread, ct: Thread)
    requires PlacedOk(threads) && CurrentOk(threads, Some(r)) && ModesOk(threads, servers) && FloatingIn(threads) == {}
    requires c in threads && r != c && threads[c].state == Calling
    requires Placed(rt) && rt.state == Running && Loose(ct)
    ensures var threads' := threads[r := rt][c := ct];
      PlacedOk(threads') && CurrentOk(threads', Some(r)) && ModesOk(threads', servers) && FloatingIn(threads') == {c}
  {
    var threads' := threads[r := rt][c := ct];
    forall t | t in threads' ensures Placed(threads'[t]) && ModeOk(servers, threads'[t]) {
      if t != c && t != r { assert Placed(threads[t]) && ModeOk(servers, threads[t]); }
    }
    forall t | t in threads' && t != c ensures t !in FloatingIn(threads') {
      if t != r { assert t !in FloatingIn(threads); }
    }
  }

  lemma ReleaseKeeps(s: State, r: Tid, c: Tid)
    requires Inv(s) && s.current == Some(r) && r in s.threads && s.threads[r].caller == Some(c)
    ensures c in s.threads && s.threads[c].state == Calling && r != c
    ensures WellFormed(Release(s, r, c)) && FloatingIn(Release(s, r, c).threads) == {c}
    ensures Release(s, r, c).current == s.current
  {
    assert Holds(s.threads, r, c);
    assert Placed(s.threads[c]) && Placed(s.threads[r]);
    var rt, ct := s.threads[r].(caller := None), s.threads[c].(state := Floating);
    var mid := s.threads[r := rt];
    CallsRelease(s.threads, r, c, rt, ct);
    ReleaseThreads(s.threads, s.servers, r, c, rt, ct);
    QueueKeep(s.threads, s.queues, r, rt);
    SleepKeep(s.threads, s.sleepers, r, rt);
    QueueKeep(mid, s.queues, c, ct);
    SleepKeep(mid, s.sleepers, c, ct);
    assert Release(s, r, c).threads == mid[c := ct];
  }

  lemma ReadyWithKeeps(s: State, c: Tid, regs: Registers, result: Word)
    requires WellFormed(s) && FloatingIn(s.threads) == {c} && c in s.threads
    ensures ReadyWith(s, c, regs, result).Ok? && Inv(ReadyWith(s, c, regs, result).value.state)
  {
    assert c in FloatingIn(s.threads);
    SetRegsKeeps(s, c, regs);
    MakeReadyKeeps(SetRegs(s, c, regs), c);
  }

  lemma AnswerStringKeeps(s: State, c: Tid, ctx: Registers, hardware: Fault, now: Word)
    requires WellFormed(s) && s.current.Some? && FloatingIn(s.threads) == {c} && c in s.threads
    ensures AnswerString(s, c, ctx, hardware, now).Ok? && Inv(AnswerString(s, c, ctx, hardware, now).value)
  {
    assert c in FloatingIn(s.threads);
    SaveKeeps(s, ctx);
    var cr := s.threads[c].regs;
    var (s1, r) := Save(s, ctx).value;
    assert FloatingIn(s1.threads) == {c, r};
    match CopyFault(ctx, cr, ctx.rdx, hardware)
    case ReadFault => TransferErrorKeeps(s1, EFAULT, r, c, now);
    case WriteFault => TransferErrorKeeps(s1, EFAULT, c, r, now);
    case NoFault =>
      var s2 := Logged(s1, Copied(r, c, ctx.rdx, ctx.rdx, cr.rdx));
      AnswerCopied(s2, c, cr.(rax := ctx.rdi, rdx := ctx.rdx), r);
  }

  lemma AnswerCopied(s: State, c: Tid, regs: Registers, r: Tid)
    requires WellFormed(s) && s.current == None && c != r && FloatingIn(s.threads) == {c, r}
    requires c in s.threads && r in s.threads
    ensures var s4 := MakeReady(SetResult(SetRegs(s, c, regs), r, 0), r);
      s4.Ok? && Restore(s4.value, c).Ok? && Inv(Restore(s4.value, c).value)
  {
    assert c in FloatingIn(s.threads) && r in FloatingIn(s.threads);
    SetBothKeeps(s, c, regs, r, s.threads[r].regs.(rax := 0));
    var s3 := SetResult(SetRegs(s, c, regs), r, 0);
    MakeReadyKeeps(s3, r);
    RestoreKeeps(MakeReady(s3, r).value, c);
  }

  lemma AnswerKeeps(s: State, c: Tid, ctx: Registers, hardware: Fault, now: Word)
    requires WellFormed(s) && s.current.Some? && FloatingIn(s.threads) == {c} && c in s.threads
    ensures Answer(s, c, ctx, hardware, now).Ok? && Inv(Answer(s, c, ctx, hardware, now).value.state)
  {
    var cr := s.threads[c].regs;
    if !HasFlag(ctx.r10, RXSTR) {
      ReadyWithKeeps(s, c, cr.(rax := ctx.rdi, rdx := ctx.rsi), 0);
    } else if !HasFlag(cr.r10, RXSTR) {
      ReadyWithKeeps(s, c, cr.(rax := Neg(EIPCIO)), Neg(EINVAL));
    } else if ctx.rdx > cr.rdx {
      ReadyWithKeeps(s, c, cr.(rax := Neg(EIPCIO)), Neg(E2BIG));
    } else {
      AnswerStringKeeps(s, c, ctx, hardware, now);
    }
  }

  lemma RespondKeeps(s: State, ctx: Registers, hardware: Fault, now: Word)
    requires Inv(s) && s.current.Some?
    ensures Respond(s, ctx, hardware, now).Ok? && Inv(Respond(s, ctx, hardware, now).value.state)
  {
    var r := s.current.value;
    if s.threads[r].caller.Some? {
      var c := s.threads[r].caller.value;
      ReleaseKeeps(s, r, c);
      AnswerKeeps(Release(s, r, c), c, ctx, hardware, now);
    }
  }

  // ---------------------------------------------------------------- sleeping, interrupts, creation

  lemma ArmKeeps(s: State, t: Tid, th: Thread, queues: Queues, sleepers: seq<Tid>)
    requires WellFormed(s) && t in s.threads && s.threads[t].state == Floating
    requires th.armed && th.caller == s.threads[t].caller && sleepers == InsertByDeadline(s.threads, s.sleepers, t, th.deadline)
    requires || (th.state == Sleeping && th.root == None && queues == s.queues)
             || (&& th.state == Waiting && th.root.Some? && th.root.value.IrqQueue? && th.root.value in s.queues
                 && queues == s.queues[th.root.value := s.queues[th.root.value] + [t]]
                 && th.root.value.irq < |s.irqs| && !s.irqs[th.root.value.irq].occurred)
    ensures var s' := s.(threads := s.threads[t := th], queues := queues, sleepers := sleepers);
      WellFormed(s') && FloatingIn(s'.threads) == FloatingIn(s.threads) - {t}
  {
    assert Placed(s.threads[t]);
    SleepInsert(s.threads, s.sleepers, t, th);
    ThreadChange(s.threads, s.servers, s.current, t, th);
    if th.state == Sleeping {
      QueueKeep(s.threads, s.queues, t, th);
    } else {
      var q := th.root.value;
      QueueInsert(s.threads, s.queues, q, t, th);
      Objects(s.queues, s.servers, s.irqs, q, s.queues[q] + [t]);
    }
  }

  lemma SleepArmed(s: State, t: Tid, ns: Word, armedAt: Word)
    requires WellFormed(s) && t in s.threads && s.threads[t].state == Floating
    ensures var s' := SetTimeout(SetThread(s, t, s.threads[t].(state := Sleeping)), t, ns, armedAt);
      s'.Ok? && WellFormed(s'.value) && FloatingIn(s'.value.threads) == FloatingIn(s.threads) - {t}
      && s'.value.current == s.current
  {
    assert Placed(s.threads[t]);
    var asleep := SetThread(s, t, s.threads[t].(state := Sleeping));
    var s2 := SetTimeout(asleep, t, ns, armedAt).value;
    InsertFrame(s.threads, s.sleepers, t, asleep.threads[t], s2.threads[t].deadline);
    assert s2.threads == s.threads[t := s2.threads[t]];
    ArmKeeps(s, t, s2.threads[t], s.queues, s2.sleepers);
  }

  lemma SleepKeeps(s: State, ctx: Registers, armedAt: Word, now: Word)
    requires Inv(s) && s.current.Some?
    ensures Sleep(s, ctx, armedAt, now).Ok? && Inv(Sleep(s, ctx, armedAt, now).value.state)
  {
    if Signed(ctx.rdi) > 0 {
      SaveKeeps(s, ctx.(rax := 0));
      var (s1, t) := Save(s, ctx.(rax := 0)).value;
      assert Placed(s1.threads[t]);
      SleepArmed(s1, t, ctx.rdi, armedAt);
      ScheduleOrIdleKeeps(SetTimeout(SetThread(s1, t, s1.threads[t].(state := Sleeping)), t, ctx.rdi, armedAt).value, now);
    }
  }

  /** Where a thread is inserted does not depend on its own record. */
  lemma {:induction false} InsertFrame(threads: Threads, ts: seq<Tid>, t: Tid, th: Thread, d: Word)
    requires t !in ts
    ensures InsertByDeadline(threads[t := th], ts, t, d) == InsertByDeadline(threads, ts, t, d)
  {
    if ts != [] { InsertFrame(threads, ts[1..], t, th, d); }
  }

  lemma WaitArmed(s: State, t: Tid, irq: nat, ns: Word, armedAt: Word)
    requires WellFormed(s) && t in s.threads && s.threads[t].state == Floating
    requires irq < |s.irqs| && !s.irqs[irq].occurred
    ensures ArmWait(s, t, irq, ns, armedAt).Ok? && IrqQueue(irq) in s.queues
    ensures var s' := ArmWait(s, t, irq, ns, armedAt).value;
      && WellFormed(s') && FloatingIn(s'.threads) == FloatingIn(s.threads) - {t} && s'.current == s.current
      && t in s'.threads && s'.threads == s.threads[t := s'.threads[t]] && s'.threads[t].root == Some(IrqQueue(irq))
      && s'.threads[t].caller == s.threads[t].caller && s'.threads[t].armed
      && s'.queues == s.queues[IrqQueue(irq) := s.queues[IrqQueue(irq)] + [t]]
      && s'.servers == s.servers && s'.irqs == s.irqs && s'.log == s.log + [WaitBegun(t, irq)]
  {
    var q := IrqQueue(irq);
    assert ValidId(s.servers, q);
    assert Placed(s.threads[t]);
    var s1 := PushInto(s, t, q).value;
    var s2 := ArmWait(s, t, irq, ns, armedAt).value;
    assert s1.threads == s.threads[t := s1.threads[t]];
    InsertFrame(s.threads, s.sleepers, t, s1.threads[t], s2.threads[t].deadline);
    assert s2.threads == s.threads[t := s2.threads[t]];
    ArmKeeps(s, t, s2.threads[t], s2.queues, s2.sleepers);
  }

  lemma IrqControlKeeps(s: State, irq: nat, op: Word, ctx: Registers, armedAt: Word, now: Word)
    requires Inv(s) && s.current.Some? && irq < |s.irqs| && s.irqs[irq].claimed
    ensures IrqControl(s, irq, op, ctx, armedAt, now).Ok?
    ensures Inv(IrqControl(s, irq, op, ctx, armedAt, now).value.state)
  {
    if op % 2 == 1 && op < 4 && !s.irqs[irq].occurred && Signed(ctx.rdx) > 0 {
      SaveKeeps(s, ctx.(rax := Neg(EAGAIN)));
      var (s1, t) := Save(s, ctx.(rax := Neg(EAGAIN))).value;
      WaitArmed(s1, t, irq, ctx.rdx, armedAt);
      ScheduleOrIdleKeeps(ArmWait(s1, t, irq, ctx.rdx, armedAt).value, now);
    } else if op % 2 == 1 && op < 4 && s.irqs[irq].occurred {
      SetIrqKeeps(s, irq, s.irqs[irq].(occurred := false));
    }
  }

  lemma SetIrqKeeps(s: State, irq: nat, h: Irq)
    requires WellFormed(s) && irq < |s.irqs|
    requires h.occurred ==> s.irqs[irq].occurred || (IrqQueue(irq) in s.queues && s.queues[IrqQueue(irq)] == [])
    ensures WellFormed(SetIrq(s, irq, h))
  {
  }

  lemma ReceiveIrqKeeps(s: State, irq: nat)
    requires Inv(s)
    ensures ReceiveIrq(s, irq).Ok? && Inv(ReceiveIrq(s, irq).value)
  {
    if irq < |s.irqs| {
      assert ValidId(s.servers, IrqQueue(irq));
      if s.queues[IrqQueue(irq)] != [] {
        WakeHeadKeeps(s, irq, 1, Interrupted);
      } else {
        SetIrqKeeps(s, irq, s.irqs[irq].(occurred := true));
      }
    }
  }

  lemma ReleaseIrqKeeps(s: State, irq: nat)
    requires Inv(s) && irq < |s.irqs|
    ensures ReleaseIrq(s, irq).Ok? && Inv(ReleaseIrq(s, irq).value.state)
  {
    assert ValidId(s.servers, IrqQueue(irq));
    SetIrqKeeps(s, irq, s.irqs[irq].(claimed := false));
    WakeAllKeeps(SetIrq(s, irq, s.irqs[irq].(claimed := false)), irq, Neg(EBADF));
  }

  lemma AddThreadKeeps(s: State, t: Tid, regs: Registers)
    requires Inv(s) && t !in s.threads
    ensures AddThread(s, t, regs).Ok? && Inv(AddThread(s, t, regs).value.state)
  {
    var th := Thread(Floating, regs, None, false, 0, None);
    var s1 := SetThread(s, t, th);
    assert FloatingIn(s1.threads) == {t} by {
      assert forall u | u in s.threads :: u !in FloatingIn(s.threads);
    }
    assert t !in s.sleepers;
    SortedKeep(s.threads, s.sleepers, t, th);
    AddCalls(s.threads, t, th);
    AddModes(s.threads, s.servers, t, th);
    MakeReadyKeeps(s1, t);
  }

  lemma AddCalls(threads: Threads, t: Tid, th: Thread)
    requires CallsOk(threads) && t !in threads && th.caller == None && th.state != Calling
    ensures CallsOk(threads[t := th])
  {
    var threads' := threads[t := th];
    assert forall h, c :: Holds(threads', h, c) == Holds(threads, h, c);
    forall c | c in threads' && threads'[c].state == Calling ensures Served(threads', c) {
      assert Served(threads, c);
      var h :| Holds(threads, h, c);
      assert Holds(threads', h, c);
    }
  }

  lemma AddModes(threads: Threads, servers: seq<Server>, t: Tid, th: Thread)
    requires ModesOk(threads, servers) && PlacedOk(threads) && t !in threads && Loose(th)
    ensures ModesOk(threads[t := th], servers) && PlacedOk(threads[t := th])
  {
    var threads' := threads[t := th];
    forall u | u in threads' ensures ModeOk(servers, threads'[u]) && Placed(threads'[u]) {
      if u != t { assert ModeOk(servers, threads[u]) && Placed(threads[u]); }
    }
  }

  lemma {:induction false} ChannelQueuesFacts(i: nat, n: nat)
    ensures forall q :: q in ChannelQueues(i, n) <==> q.ChannelQueue? && q.server == i && q.channel < n
    ensures forall q | q in ChannelQueues(i, n) :: ChannelQueues(i, n)[q] == []
  {
    if n > 0 { ChannelQueuesFacts(i, n - 1); }
  }

  lemma {:induction false} MaxChannelBounds(transfers: seq<nat>)
    ensures forall k | 0 <= k < |transfers| :: transfers[k] <= MaxChannel(transfers)
    ensures transfers != [] ==> MaxChannel(transfers) in transfers
  {
    if transfers != [] {
      MaxChannelBounds(transfers[..|transfers| - 1]);
      assert transfers == transfers[..|transfers| - 1] + [transfers[|transfers| - 1]];
    }
  }

  lemma CreateServerKeeps(s: State, transfers: seq<nat>)
    requires Inv(s) && |transfers| == TRANSFER_MAX
    ensures CreateServer(s, transfers).Ok? && Inv(CreateServer(s, transfers).value.state)
  {
    if forall k | 0 <= k < |transfers| :: transfers[k] <= TRANSFER_MAX {
      var i, n := |s.servers|, MaxChannel(transfers);
      MaxChannelBounds(transfers);
      ChannelQueuesFacts(i, n);
      var v := Server(transfers, seq(n, _ => Empty));
      CreateLists(s, i, n, v);
    }
  }

  lemma CreateLists(s: State, i: nat, n: nat, v: Server)
    requires WellFormed(s) && i == |s.servers| && |v.channels| == n && MapOk(v)
    requires forall j | 0 <= j < n :: v.channels[j] == Empty
    requires forall q :: q in ChannelQueues(i, n) <==> q.ChannelQueue? && q.server == i && q.channel < n
    requires forall q | q in ChannelQueues(i, n) :: ChannelQueues(i, n)[q] == []
    ensures WellFormed(s.(servers := s.servers + [v], queues := s.queues + ChannelQueues(i, n)))
  {
    var servers' := s.servers + [v];
    assert forall q | q in s.queues :: q !in ChannelQueues(i, n);
    AddEmptyQueues(s.threads, s.queues, ChannelQueues(i, n));
    AddEmptyChannels(s.queues, ChannelQueues(i, n), s.servers, s.irqs, v);
    forall t | t in s.threads ensures ModeOk(servers', s.threads[t]) {
      assert ModeOk(s.servers, s.threads[t]);
      assert s.threads[t].root.Some? ==> ValidId(s.servers, s.threads[t].root.value);
    }
  }

  lemma AddEmptyQueues(threads: Threads, queues: Queues, more: Queues)
    requires QueuesOk(threads, queues) && (forall q | q in more :: q !in queues && more[q] == [])
    ensures QueuesOk(threads, queues + more)
  {
    assert forall q | q in queues :: (queues + more)[q] == queues[q];
    assert forall q | q in more :: (queues + more)[q] == [];
  }

  lemma AddEmptyChannels(queues: Queues, more: Queues, servers: seq<Server>, irqs: seq<Irq>, v: Server)
    requires ObjectsOk(queues, servers, irqs) && MapOk(v)
    requires forall j | 0 <= j < |v.channels| :: v.channels[j] == Empty
    requires forall q :: q in more <==> q.ChannelQueue? && q.server == |servers| && q.channel < |v.channels|
    requires forall q | q in more :: more[q] == []
    ensures ObjectsOk(queues + more, servers + [v], irqs)
  {
    assert forall q | q in queues :: q !in more && (queues + more)[q] == queues[q];
    assert forall q :: HasChannel(servers + [v], q) == (HasChannel(servers, q) || q in more);
  }

  // ---------------------------------------------------------------- every entry

  ghost predicate RequestHalts(s: State, i: nat, choice: ModeChoice) {
    choice.Mode? && CallHalts(s, i, choice.mode)
  }

  /** The kernel halts on an entry: only on a second pairing of a listener that never responded, or a listen on channel id 0. */
  ghost predicate Halts(s: State, e: Entry) {
    match e
    case EnterCall(i, ctx, _, _) => RequestHalts(s, i, CallTransferMode(ctx))
    case EnterRead(i, ctx, _, _) => RequestHalts(s, i, HandleTransferMode(TRANSFER_READ, ctx))
    case EnterWrite(i, ctx, _, _) => RequestHalts(s, i, HandleTransferMode(TRANSFER_WRITE, ctx))
    case EnterListen(i, ctx, _, _) => ListenHalts(s, i, ctx)
    case _ => false
  }

  lemma RequestKeeps(s: State, i: nat, choice: ModeChoice, ctx: Registers, hardware: Fault, now: Word)
    requires Inv(s) && s.current.Some? && i < |s.servers| && (choice.Mode? ==> choice.mode < TRANSFER_MAX)
    ensures Request(s, i, choice, ctx, hardware, now).Halt? <==> RequestHalts(s, i, choice)
    ensures Request(s, i, choice, ctx, hardware, now).Ok? ==> Inv(Request(s, i, choice, ctx, hardware, now).value.state)
  {
    if choice.Mode? { CallServerKeeps(s, i, choice.mode, ctx, hardware, now); }
  }

  lemma InterruptKeeps(s: State, irq: nat, ctx: Registers, now: Word)
    requires Inv(s)
    ensures ReceiveIrq(s, irq).Ok? && Schedule(ReceiveIrq(s, irq).value, ctx, now).Ok?
    ensures Inv(Schedule(ReceiveIrq(s, irq).value, ctx, now).value)
  {
    ReceiveIrqKeeps(s, irq);
    ScheduleKeeps(ReceiveIrq(s, irq).value, ctx, now);
  }

  lemma ClaimIrqKeeps(s: State, line: int)
    requires Inv(s)
    ensures ClaimIrq(s, line).Ok? && Inv(ClaimIrq(s, line).value.state)
  {
    if 0 <= line < |s.irqs| { SetIrqKeeps(s, line, s.irqs[line].(claimed := true)); }
  }

  /**
    Every kernel entry keeps the invariant, and fails an assertion exactly when a listener
    that has not responded would be handed another caller (or listens on channel id 0).
   */
  lemma StepKeeps(s: State, e: Entry)
    requires Inv(s) && Enabled(s, e)
    ensures Step(s, e).Halt? <==> Halts(s, e)
    ensures Step(s, e).Ok? ==> Inv(Step(s, e).value.state)
  {
    match e
    case EnterCall(i, ctx, hw, now) => RequestKeeps(s, i, CallTransferMode(ctx), ctx, hw, now);
    case EnterRead(i, ctx, hw, now) => RequestKeeps(s, i, HandleTransferMode(TRANSFER_READ, ctx), ctx, hw, now);
    case EnterWrite(i, ctx, hw, now) => RequestKeeps(s, i, HandleTransferMode(TRANSFER_WRITE, ctx), ctx, hw, now);
    case EnterListen(i, ctx, hw, now) => ListenKeeps(s, i, ctx, hw, now);
    case EnterRespond(ctx, hw, now) => RespondKeeps(s, ctx, hw, now);
    case EnterSleep(ctx, armedAt, now) => SleepKeeps(s, ctx, armedAt, now);
    case EnterIrqControl(irq, op, ctx, armedAt, now) => IrqControlKeeps(s, irq, op, ctx, armedAt, now);
    case EnterClaim(line) => ClaimIrqKeeps(s, line);
    case EnterRelease(irq) => ReleaseIrqKeeps(s, irq);
    case EnterSpawn(t, regs) => AddThreadKeeps(s, t, regs);
    case EnterCreate(transfers) => CreateServerKeeps(s, transfers);
    case EnterInterrupt(irq, ctx, now) => InterruptKeeps(s, irq, ctx, now);
    case EnterTick(ctx, now) => ScheduleKeeps(s, ctx, now);
  }
}
