/** What each entry leaves its parties with: registers, states and places. */
module KernelParties {
  import opened Wrappers
  import opened KernelState
  import opened KernelInvariant
  import opened KernelSteps
  import opened KernelEffects

  // ---------------------------------------------------------------- transfers

  /** Thread `t` can run again, with these registers and an error as its result. */
  predicate Failed(s: State, t: Tid, regs: Registers, error: Word) {
    && t in s.threads && s.threads[t].regs == regs.(rax := Neg(error))
    && (s.threads[t].state == Ready || s.threads[t].state == Running)
  }

  /** Nobody but the parties of an entry changes, other than by being readied or run. */
  ghost predicate OthersMoved(s: State, s': State, parties: set<Tid>) {
    s'.threads.Keys == s.threads.Keys && forall t | t in s.threads && t !in parties :: Moved(s.threads[t], s'.threads[t])
  }

  /** Both parties of a failed transfer can run again, each with its own error, and the thread map has lost neither. */
  lemma TransferErrorDoes(s: State, shame: Word, guilty: Tid, innocent: Tid, now: Word)
    requires WellFormed(s) && s.current == None && guilty != innocent
    requires FloatingIn(s.threads) == {guilty, innocent} && guilty in s.threads && innocent in s.threads
    ensures TransferError(s, shame, guilty, innocent, now).Ok?
    ensures var s' := TransferError(s, shame, guilty, innocent, now).value;
            && Failed(s', guilty, s.threads[guilty].regs, shame) && Failed(s', innocent, s.threads[innocent].regs, EIPCIO)
            && OthersMoved(s, s', {guilty, innocent}) && SameChannels(s, s')
            && s'.threads[guilty].caller == s.threads[guilty].caller && s'.threads[innocent].caller == s.threads[innocent].caller
  {
    var s4 := BothReady(s, shame, guilty, innocent, now);
    ScheduleDoes(s4, ZERO, now);
    ReadyAfter(s4, Schedule(s4, ZERO, now).value, now, guilty);
    ReadyAfter(s4, Schedule(s4, ZERO, now).value, now, innocent);
  }

  /** A ready thread is ready or runs after scheduling, with the same registers. */
  lemma ReadyAfter(s: State, s': State, now: Word, t: Tid)
    requires Inv(s) && s.current == None && Scheduled(s, s', ZERO, now) && t in s.threads && s.threads[t].state == Ready
    ensures t in s'.threads && s'.threads[t].regs == s.threads[t].regs && s'.threads[t].caller == s.threads[t].caller
    ensures s'.threads[t].state == Ready || s'.threads[t].state == Running
  {
    assert Moved(s.threads[t], s'.threads[t]);
    assert Placed(s.threads[t]);
  }

  function Readying(th: Thread, result: Word): Thread {
    th.(state := Ready, root := Some(RunQueue), regs := th.regs.(rax := result))
  }

  lemma BothReady(s: State, shame: Word, guilty: Tid, innocent: Tid, now: Word) returns (s4: State)
    requires WellFormed(s) && s.current == None && guilty != innocent
    requires FloatingIn(s.threads) == {guilty, innocent} && guilty in s.threads && innocent in s.threads
    ensures Inv(s4) && s4.current == None && SameChannels(s, s4)
    ensures TransferError(s, shame, guilty, innocent, now) == Schedule(s4, ZERO, now)
    ensures s4.threads == s.threads[guilty := Readying(s.threads[guilty], Neg(shame))][innocent := Readying(s.threads[innocent], Neg(EIPCIO))]
  {
    assert guilty in FloatingIn(s.threads) && innocent in FloatingIn(s.threads);
    var s2 := SetResult(SetResult(s, guilty, Neg(shame)), innocent, Neg(EIPCIO));
    ResultsKeep(s, s2, guilty, Neg(shame), innocent, Neg(EIPCIO));
    ReadyDoes(s2, guilty);
    var s3 := MakeReady(s2, guilty).value;
    ReadyDoes(s3, innocent);
    s4 := MakeReady(s3, innocent).value;
    BothThreads(s, s2, s3, s4, Neg(shame), guilty, Neg(EIPCIO), innocent);
  }

  lemma BothThreads(s: State, s2: State, s3: State, s4: State, x: Word, a: Tid, y: Word, b: Tid)
    requires a in s.threads && b in s.threads && a != b && s2 == SetResult(SetResult(s, a, x), b, y)
    requires MakeReady(s2, a) == Ok(s3) && MakeReady(s3, b) == Ok(s4)
    ensures s4.threads == s.threads[a := Readying(s.threads[a], x)][b := Readying(s.threads[b], y)]
  {
  }

  lemma ResultsKeep(s: State, s2: State, a: Tid, x: Word, b: Tid, y: Word)
    requires WellFormed(s) && a != b && a in s.threads && b in s.threads
    requires s.threads[a].state == Floating && s.threads[b].state == Floating && s2 == SetResult(SetResult(s, a, x), b, y)
    ensures WellFormed(s2) && FloatingIn(s2.threads) == FloatingIn(s.threads) && SameChannels(s, s2) && s2.current == s.current
  {
    SetRegsKeeps(s, a, s.threads[a].regs.(rax := x));
    var s1 := SetResult(s, a, x);
    SetRegsKeeps(s1, b, s1.threads[b].regs.(rax := y));
  }

  /** Readying a floating thread puts it last in the run queue and touches no channel. */
  lemma ReadyDoes(s: State, t: Tid)
    requires WellFormed(s) && t in s.threads && s.threads[t].state == Floating
    ensures MakeReady(s, t).Ok?
    ensures var s' := MakeReady(s, t).value;
            && WellFormed(s') && FloatingIn(s'.threads) == FloatingIn(s.threads) - {t} && s'.current == s.current && SameChannels(s, s')
            && s'.threads == s.threads[t := s.threads[t].(state := Ready, root := Some(RunQueue))]
            && RunQueue in s.queues && s'.queues == s.queues[RunQueue := s.queues[RunQueue] + [t]] && s'.irqs == s.irqs
  {
    assert Placed(s.threads[t]);
    MakeReadyKeeps(s, t);
    assert RunQueue in s.queues by { assert ValidId(s.servers, RunQueue); }
  }

  /** At least one byte, and all in user memory. */
  predicate InUser(p: nat, n: nat) { 0 < n && p + n <= 0x8000_0000_0000 }

  /** The fault of copying `n` bytes, if any: first by the range read, then by the one written, else as the hardware says. */
  function FaultOf(from: nat, to: nat, n: nat, hardware: Fault): Fault {
    if !InUser(from, n) then ReadFault else if !InUser(to, n) then WriteFault else hardware
  }

  lemma RangeExact(p: Word, n: Word)
    ensures UserRangeOk(p, n) <==> InUser(p, n)
  {
  }

  lemma FaultExact(source: Registers, dest: Registers, n: Word, hardware: Fault)
    ensures CopyFault(source, dest, n, hardware) == FaultOf(source.rsi, dest.rsi, n, hardware)
  {
    RangeExact(source.rsi, n);
    RangeExact(dest.rsi, n);
  }

  /** How a transfer ends: in flight, or with an error for each party; with the registers of both. */
  datatype Verdict =
    | Flies(caller: Registers, listener: Registers)
    | Fails(caller: Registers, callerError: Word, listener: Registers, listenerError: Word)

  function Shorter(a: Word, b: Word): Word { if a < b then a else b }

  /** The listener's registers as the message leaves them: arguments 4 and 5 are the caller's, result and argument 0 its own. */
  function Told(c: Registers, l: Registers, rsi: Word, rdx: Word, r10: Word): Registers {
    Registers(rax := l.rax, rdi := l.rdi, rsi := rsi, rdx := rdx, r10 := r10, r8 := c.r8, r9 := c.r9, rip := l.rip)
  }

  function Sent(c: Registers, l: Registers, callback: Word, fault: Fault): Verdict {
    match fault
    case ReadFault => Fails(c, EFAULT, l, EIPCIO)
    case WriteFault => Fails(c, EIPCIO, l, EFAULT)
    case NoFault => Flies(c, l.(rip := callback))
  }

  /** What each of the five modes does to both register files. */
  function Judge(c: Registers, l: Registers, mode: Word, hardware: Fault): Verdict
    requires mode < TRANSFER_MAX
  {
    var n := Shorter(c.rdx, l.rdx);
    var fault := FaultOf(c.rsi, l.rsi, n, hardware);
    if mode == 0 then Sent(c, Told(c, l, c.rsi, c.rdx, c.r10), l.r8, NoFault)
    else if mode == 3 then Sent(c.(r10 := 2), Told(c, l, l.rsi, c.rdx, 0x102), l.r8, NoFault)
    else if mode == 4 then Sent(c.(r10 := 0), Told(c, l, l.rsi, n, 0x205), l.r8, fault)
    else if c.rdx > l.rdx && c.r10 / 4 % 2 == 0 then Fails(c, E2BIG, Told(c, l, l.rsi, l.rdx, l.r10), EIPCIO)
    else Sent(c, Told(c, l, l.rsi, n, c.r10), l.r8, fault)
  }

  /** The plan and the copy give what the modes say. */
  lemma PlanJudged(c: Registers, l: Registers, mode: Word, hardware: Fault)
    requires mode < TRANSFER_MAX
    ensures match PlanTransfer(c, l, mode)
            case Refuse(error, l') => Judge(c, l, mode, hardware) == Fails(c, error, l', EIPCIO)
            case Direct(c', l') => Judge(c, l, mode, hardware) == Flies(c', l'.(rip := l.r8))
            case Copy(count, c', l') => Judge(c, l, mode, hardware) == Sent(c', l', l.r8, CopyFault(c', l', count, hardware))
            case BadMode => false
  {
    match PlanTransfer(c, l, mode)
    case Copy(count, c', l') => FaultExact(c', l', count, hardware);
    case _ =>
  }

  /** A call in flight: the caller blocks, its listener runs its callback. */
  predicate InFlightNow(s: State, c: Tid, cr: Registers, l: Tid, lr: Registers) {
    && c in s.threads && s.threads[c].state == Calling && s.threads[c].regs == cr
    && l in s.threads && s.threads[l].state == Running && s.threads[l].regs == lr
    && s.threads[l].caller == Some(c) && s.current == Some(l)
  }

  predicate Transferred(s: State, c: Tid, l: Tid, v: Verdict) {
    match v
    case Flies(cr, lr) => InFlightNow(s, c, cr, l, lr)
    case Fails(cr, ce, lr, le) => Failed(s, c, cr, ce) && Failed(s, l, lr, le)
  }

  lemma DeliverDoes(s: State, c: Tid, l: Tid, callback: Word)
    requires WellFormed(s) && s.current == None && c != l && FloatingIn(s.threads) == {c, l}
    requires c in s.threads && l in s.threads && s.threads[l].caller == None
    ensures Deliver(s, c, l, callback).Ok?
    ensures var s' := Deliver(s, c, l, callback).value;
            && InFlightNow(s', c, s.threads[c].regs, l, s.threads[l].regs.(rip := callback))
            && OthersMoved(s, s', {c, l}) && SameChannels(s, s')
  {
    assert c in FloatingIn(s.threads) && l in FloatingIn(s.threads);
    DeliverKeeps(s, c, l, callback);
  }

  lemma MovedTrans(s: State, s1: State, s': State, parties: set<Tid>)
    requires s1.threads.Keys == s.threads.Keys && (forall t | t in s.threads && t !in parties :: s1.threads[t] == s.threads[t])
    requires OthersMoved(s1, s', parties)
    ensures OthersMoved(s, s', parties)
  {
  }

  /** A transfer does to both parties what its mode says, and to nobody else anything but run or ready them. */
  lemma TransferDoes(s: State, c: Tid, l: Tid, mode: Word, hardware: Fault, now: Word)
    requires WellFormed(s) && s.current == None && c != l && FloatingIn(s.threads) == {c, l}
    requires c in s.threads && l in s.threads && mode < TRANSFER_MAX && s.threads[l].caller == None
    ensures CallTransfer(s, c, l, mode, hardware, now).Ok?
    ensures var s' := CallTransfer(s, c, l, mode, hardware, now).value;
            && Transferred(s', c, l, Judge(s.threads[c].regs, s.threads[l].regs, mode, hardware))
            && OthersMoved(s, s', {c, l}) && SameChannels(s, s')
  {
    assert c in FloatingIn(s.threads) && l in FloatingIn(s.threads);
    var cr, lr := s.threads[c].regs, s.threads[l].regs;
    PlanJudged(cr, lr, mode, hardware);
    match PlanTransfer(cr, lr, mode)
    case Refuse(error, l') => RefusedDoes(s, SetRegs(s, l, l'), c, l, cr, error, l', now);
    case Direct(c', l') => FlownDoes(s, SetRegs(SetRegs(s, c, c'), l, l'), c, l, c', l', lr.r8);
    case Copy(count, c', l') =>
      CopiedDoes(s, SetRegs(SetRegs(s, c, c'), l, l'), c, l, c', l', Copied(c, l, count, cr.rdx, lr.rdx), lr.r8,
                 CopyFault(c', l', count, hardware), now);
  }

  lemma RefusedDoes(s: State, s1: State, c: Tid, l: Tid, cr: Registers, error: Word, lr: Registers, now: Word)
    requires WellFormed(s) && s.current == None && c != l && FloatingIn(s.threads) == {c, l} && c in s.threads && l in s.threads
    requires s1 == SetRegs(s, l, lr) && cr == s.threads[c].regs
    ensures var o := TransferError(s1, error, c, l, now);
            o.Ok? && Failed(o.value, c, cr, error) && Failed(o.value, l, lr, EIPCIO) && OthersMoved(s, o.value, {c, l}) && SameChannels(s, o.value)
  {
    assert l in FloatingIn(s.threads);
    SetRegsKeeps(s, l, lr);
    TransferErrorDoes(s1, error, c, l, now);
    MovedTrans(s, s1, TransferError(s1, error, c, l, now).value, {c, l});
  }

  lemma FlownDoes(s: State, s2: State, c: Tid, l: Tid, cr: Registers, lr: Registers, callback: Word)
    requires WellFormed(s) && s.current == None && c != l && FloatingIn(s.threads) == {c, l} && c in s.threads && l in s.threads
    requires s.threads[l].caller == None && s2 == SetRegs(SetRegs(s, c, cr), l, lr)
    ensures var o := Deliver(s2, c, l, callback);
            o.Ok? && InFlightNow(o.value, c, cr, l, lr.(rip := callback)) && OthersMoved(s, o.value, {c, l}) && SameChannels(s, o.value)
  {
    assert c in FloatingIn(s.threads) && l in FloatingIn(s.threads);
    SetBothKeeps(s, c, cr, l, lr);
    DeliverDoes(s2, c, l, callback);
    MovedTrans(s, s2, Deliver(s2, c, l, callback).value, {c, l});
  }

  lemma CopiedDoes(s: State, s2: State, c: Tid, l: Tid, cr: Registers, lr: Registers, copied: Event, callback: Word, fault: Fault, now: Word)
    requires WellFormed(s) && s.current == None && c != l && FloatingIn(s.threads) == {c, l} && c in s.threads && l in s.threads
    requires s.threads[l].caller == None && s2 == SetRegs(SetRegs(s, c, cr), l, lr)
    ensures DeliverCopy(s2, c, l, copied, callback, fault, now).Ok?
    ensures var s' := DeliverCopy(s2, c, l, copied, callback, fault, now).value;
            && OthersMoved(s, s', {c, l}) && SameChannels(s, s')
            && match fault {
                 case ReadFault => Failed(s', c, cr, EFAULT) && Failed(s', l, lr, EIPCIO)
                 case WriteFault => Failed(s', l, lr, EFAULT) && Failed(s', c, cr, EIPCIO)
                 case NoFault => InFlightNow(s', c, cr, l, lr.(rip := callback))
               }
  {
    assert c in FloatingIn(s.threads) && l in FloatingIn(s.threads);
    SetBothKeeps(s, c, cr, l, lr);
    match fault {
      case ReadFault => TransferErrorDoes(s2, EFAULT, c, l, now);
      case WriteFault => TransferErrorDoes(s2, EFAULT, l, c, now);
      case NoFault => DeliverDoes(Logged(s2, copied), c, l, callback);
    }
    var s' := DeliverCopy(s2, c, l, copied, callback, fault, now).value;
    assert {l, c} == {c, l};
    MovedTrans(s, s2, s', {c, l});
  }

  // ---------------------------------------------------------------- calls and listens

  /** Thread `t` waits last on channel `q`, which is of its kind, with the registers it was saved with. */
  ghost predicate Parked(s: State, s': State, t: Tid, q: QueueId, regs: Registers, kind: ChannelState) {
    && q in s.queues && q in s'.queues && s'.queues[q] == s.queues[q] + [t]
    && t in s'.threads && s'.threads[t].state == Waiting && s'.threads[t].root == Some(q) && s'.threads[t].regs == regs
    && HasChannel(s'.servers, q) && ChannelAt(s'.servers, q) == kind
  }

  lemma ParkOnDoes(s: State, t: Tid, i: nat, j: nat, kind: ChannelState, now: Word)
    requires WellFormed(s) && s.current == None && FloatingIn(s.threads) == {t} && t in s.threads
    requires HasChannel(s.servers, ChannelQueue(i, j)) && kind != Empty
    requires ChannelAt(s.servers, ChannelQueue(i, j)) == Empty || ChannelAt(s.servers, ChannelQueue(i, j)) == kind
    requires kind == Called ==> Routed(s.servers, ChannelQueue(i, j), s.threads[t].regs.rdi)
    ensures ChannelExists(s, i, j) && ParkOn(s, t, i, j, kind, now).Ok?
    ensures var s' := ParkOn(s, t, i, j, kind, now).value;
            Parked(s, s', t, ChannelQueue(i, j), s.threads[t].regs, kind) && OthersMoved(s, s', {t})
  {
    var q := ChannelQueue(i, j);
    assert ValidId(s.servers, q);
    assert t in FloatingIn(s.threads);
    assert Placed(s.threads[t]);
    ParkKeeps(s, i, j, t, kind);
    ParkIs(s, i, j, t, kind);
    var s1 := PushInto(SetChannel(s, i, j, kind), t, q).value;
    ScheduleDoes(s1, ZERO, now);
    ParkedAfter(s, s1, Schedule(s1, ZERO, now).value, t, q, kind, now);
  }

  lemma ParkedAfter(s: State, s1: State, s': State, t: Tid, q: QueueId, kind: ChannelState, now: Word)
    requires Inv(s1) && s1.current == None && q.ChannelQueue? && t in s.threads && q in s.queues
    requires s1.threads == s.threads[t := s.threads[t].(state := Waiting, root := Some(q))] && s1.queues == s.queues[q := s.queues[q] + [t]]
    requires HasChannel(s1.servers, q) && ChannelAt(s1.servers, q) == kind && Scheduled(s1, s', ZERO, now)
    ensures Parked(s, s', t, q, s.threads[t].regs, kind) && OthersMoved(s, s', {t})
  {
    assert Placed(s1.threads[t]);
    assert Moved(s1.threads[t], s'.threads[t]);
    MovedTrans(s, s1, s', {t});
  }

  /** The first waiter of the channel, which left its queue, and the thread `t` that met it. */
  ghost predicate Met(s: State, s': State, t: Tid, q: QueueId, c: Tid, l: Tid, v: Verdict) {
    && q in s.queues && s.queues[q] != [] && q in s'.queues && s'.queues[q] == s.queues[q][1..]
    && Transferred(s', c, l, v) && OthersMoved(s, s', {c, l})
    && HasChannel(s'.servers, q) && (ChannelAt(s'.servers, q) == Empty <==> s'.queues[q] == [])
  }

  /** The first waiter `u` of a channel has left it and floats beside `t`. */
  ghost predicate Popped(s: State, s1: State, t: Tid, u: Tid, q: QueueId) {
    && q in s.queues && s.queues[q] != [] && u == s.queues[q][0] && u != t && u in s.threads && t in s.threads
    && WellFormed(s1) && s1.current == None && FloatingIn(s1.threads) == {t, u}
    && s1.threads == s.threads[u := Chosen(s.threads[u])]
    && q in s1.queues && s1.queues[q] == s.queues[q][1..]
    && HasChannel(s1.servers, q) && (ChannelAt(s1.servers, q) == Empty <==> s1.queues[q] == [])
  }

  lemma PoppedDoes(s: State, t: Tid, i: nat, j: nat, u: Tid, q: QueueId, paired: Event)
    requires WellFormed(s) && s.current == None && FloatingIn(s.threads) == {t} && t in s.threads
    requires q == ChannelQueue(i, j) && HasChannel(s.servers, q) && ChannelAt(s.servers, q) != Empty
    requires q in s.queues && s.queues[q] != [] && s.queues[q][0] == u
    ensures PopPartner(s, i, j).Ok? && Popped(s, Logged(PopPartner(s, i, j).value.0, paired), t, u, q)
  {
    assert t in FloatingIn(s.threads);
    PopPartnerKeeps(s, i, j);
    assert Placed(s.threads[u]);
    assert u in s.queues[q];
    PopPartnerIs(s, i, j);
    var s1 := PopPartner(s, i, j).value.0;
    assert ChannelAt(s1.servers, q) == Empty <==> s1.queues[q] == [];
  }

  /** It takes part in a transfer with `t`. */
  lemma MeetDoes(s: State, s1: State, t: Tid, u: Tid, q: QueueId, c: Tid, l: Tid, mode: Word, hardware: Fault, now: Word)
    requires q.ChannelQueue? && Popped(s, s1, t, u, q) && ((c == u && l == t) || (c == t && l == u))
    requires mode < TRANSFER_MAX && s.threads[l].caller == None
    ensures CallTransfer(s1, c, l, mode, hardware, now).Ok?
    ensures Met(s, CallTransfer(s1, c, l, mode, hardware, now).value, t, q, c, l, Judge(s.threads[c].regs, s.threads[l].regs, mode, hardware))
  {
    TransferDoes(s1, c, l, mode, hardware, now);
    MetAfter(s, s1, CallTransfer(s1, c, l, mode, hardware, now).value, t, q, c, l, Judge(s.threads[c].regs, s.threads[l].regs, mode, hardware));
  }

  /** A transfer from a state in which the first of `q` has left makes a meeting. */
  lemma MetAfter(s: State, s1: State, s': State, t: Tid, q: QueueId, c: Tid, l: Tid, v: Verdict)
    requires q.ChannelQueue? && q in s.queues && s.queues[q] != [] && q in s1.queues && s1.queues[q] == s.queues[q][1..]
    requires HasChannel(s1.servers, q) && (ChannelAt(s1.servers, q) == Empty <==> s1.queues[q] == [])
    requires s1.threads.Keys == s.threads.Keys && (forall x | x in s.threads && x !in {c, l} :: s1.threads[x] == s.threads[x])
    requires OthersMoved(s1, s', {c, l}) && SameChannels(s1, s') && Transferred(s', c, l, v)
    ensures Met(s, s', t, q, c, l, v)
  {
    MovedTrans(s, s1, s', {c, l});
  }

  /** What a call on a channel does: it meets the first listener, or waits last. */
  ghost predicate Calls(s: State, s': State, c: Tid, regs: Registers, q: QueueId, mode: Word, hardware: Fault)
    requires mode < TRANSFER_MAX && HasChannel(s.servers, q)
  {
    if ChannelAt(s.servers, q) == Listened then
      && q in s.queues && s.queues[q] != [] && s.queues[q][0] in s.threads
      && var l := s.queues[q][0]; Met(s, s', c, q, c, l, Judge(regs, s.threads[l].regs, mode, hardware))
    else Parked(s, s', c, q, regs, Called) && OthersMoved(s, s', {c})
  }

  /** What a listen on a channel does: it meets the first caller, in that caller's mode, or waits last. */
  ghost predicate Listens(s: State, s': State, l: Tid, regs: Registers, q: QueueId, hardware: Fault)
    requires HasChannel(s.servers, q)
  {
    if ChannelAt(s.servers, q) == Called then
      && q in s.queues && s.queues[q] != [] && s.queues[q][0] in s.threads
      && var c := s.queues[q][0];
         var cr := s.threads[c].regs;
         cr.rdi < TRANSFER_MAX && Met(s, s', l, q, c, l, Judge(cr, regs, cr.rdi, hardware))
    else Parked(s, s', l, q, regs, Listened) && OthersMoved(s, s', {l})
  }

  ghost predicate CalledOn(s: State, c: Tid, regs: Registers, q: QueueId, mode: Word, hardware: Fault, o: Outcome<State>)
    requires mode < TRANSFER_MAX && HasChannel(s.servers, q)
  {
    o.Ok? ==> Calls(s, o.value, c, regs, q, mode, hardware)
  }

  lemma CallOnDoes(s: State, c: Tid, regs: Registers, i: nat, j: nat, q: QueueId, mode: Word, hardware: Fault, now: Word)
    requires WellFormed(s) && s.current == None && FloatingIn(s.threads) == {c} && c in s.threads && mode < TRANSFER_MAX
    requires q == ChannelQueue(i, j) && HasChannel(s.servers, q) && Routed(s.servers, q, mode)
    requires regs == s.threads[c].regs && mode == regs.rdi
    ensures ChannelExists(s, i, j) && CalledOn(s, c, regs, q, mode, hardware, CallOn(s, c, i, j, mode, hardware, now))
  {
    CallOnKeeps(s, c, i, j, mode, hardware, now);
    if ChannelAt(s.servers, q) == Listened {
      PopPartnerKeeps(s, i, j);
      var l := s.queues[q][0];
      if s.threads[l].caller == None {
        PoppedDoes(s, c, i, j, l, q, Paired(q, c, l));
        MeetDoes(s, Logged(PopPartner(s, i, j).value.0, Paired(q, c, l)), c, l, q, c, l, mode, hardware, now);
      }
    } else {
      ParkOnDoes(s, c, i, j, Called, now);
    }
  }

  lemma ListenOnDoes(s: State, l: Tid, i: nat, j: nat, hardware: Fault, now: Word)
    requires WellFormed(s) && s.current == None && FloatingIn(s.threads) == {l} && l in s.threads
    requires HasChannel(s.servers, ChannelQueue(i, j))
    ensures ChannelExists(s, i, j)
    ensures var o := ListenOn(s, l, i, j, hardware, now); o.Ok? ==> Listens(s, o.value, l, s.threads[l].regs, ChannelQueue(i, j), hardware)
  {
    var q := ChannelQueue(i, j);
    ListenOnKeeps(s, l, i, j, hardware, now);
    if ChannelAt(s.servers, q) == Called {
      PopPartnerKeeps(s, i, j);
      var c := s.queues[q][0];
      assert c in s.queues[q];
      assert ModeOk(s.servers, s.threads[c]);
      if s.threads[l].caller == None {
        PoppedDoes(s, l, i, j, c, q, Paired(q, c, l));
        MeetDoes(s, Logged(PopPartner(s, i, j).value.0, Paired(q, c, l)), l, c, q, c, l, s.threads[c].regs.rdi, hardware, now);
      }
    } else {
      ParkOnDoes(s, l, i, j, Listened, now);
    }
  }

  /** Saving the running thread changes no one else, and no queue. */
  ghost predicate SavedFrom(s: State, s1: State, t: Tid, regs: Registers) {
    && t in s.threads && s1.threads == s.threads[t := s.threads[t].(state := Floating, regs := regs)]
    && s1.queues == s.queues && s1.servers == s.servers
  }

  lemma SaveDoes(s: State, ctx: Registers)
    requires Inv(s) && s.current.Some?
    ensures Save(s, ctx).Ok?
    ensures var (s1, t) := Save(s, ctx).value;
            && t == s.current.value && SavedFrom(s, s1, t, ctx) && WellFormed(s1) && s1.current == None && FloatingIn(s1.threads) == {t}
            && t in s1.threads && s.threads[t].state == Running && s1.irqs == s.irqs
  {
    SaveKeeps(s, ctx);
  }

  /** A thread that runs is in no queue. */
  lemma NotQueued(s: State, t: Tid, q: QueueId)
    requires WellFormed(s) && t in s.threads && s.threads[t].state == Running && q in s.queues
    ensures t !in s.queues[q]
  {
    assert Placed(s.threads[t]);
  }

  lemma CallsSaved(s: State, s1: State, c: Tid, regs: Registers, q: QueueId, mode: Word, hardware: Fault, o: Outcome<State>)
    requires Inv(s) && SavedFrom(s, s1, c, regs) && s.threads[c].state == Running
    requires mode < TRANSFER_MAX && HasChannel(s.servers, q) && q in s.queues && CalledOn(s1, c, regs, q, mode, hardware, o)
    ensures CalledOn(s, c, regs, q, mode, hardware, o)
  {
    NotQueued(s, c, q);
  }

  lemma ListensSaved(s: State, s1: State, s': State, l: Tid, regs: Registers, q: QueueId, hardware: Fault)
    requires Inv(s) && SavedFrom(s, s1, l, regs) && s.threads[l].state == Running
    requires HasChannel(s.servers, q) && q in s.queues && Listens(s1, s', l, regs, q, hardware)
    ensures Listens(s, s', l, regs, q, hardware)
  {
    NotQueued(s, l, q);
  }

  /** A request that has gone through gives its caller no result yet. */
  function Replied(o: Outcome<State>): Outcome<Reply> { match o case Halt => Halt case Ok(s) => Ok(Reply(s, None)) }

  lemma CallServerIs(s: State, i: nat, mode: nat, id: nat, ctx: Registers, hardware: Fault, now: Word, s1: State, c: Tid)
    requires i < |s.servers| && mode < |s.servers[i].transferMap| && mode < TRANSFER_MAX && id == s.servers[i].transferMap[mode] > 0
    requires Save(s, ctx.(rdi := mode)) == Ok((s1, c)) && ChannelExists(s1, i, id - 1)
    ensures CallServer(s, i, mode, ctx, hardware, now)
         == Replied(CallOn(Logged(s1, CallMade(ChannelQueue(i, id - 1), c)), c, i, id - 1, mode, hardware, now))
  {
  }

  /** What a call leaves if it does not halt: refused for lack of a route, or with the first listener or last in the queue. */
  ghost predicate CallDone(s: State, i: nat, mode: nat, id: nat, ctx: Registers, hardware: Fault, o: Outcome<Reply>)
    requires mode < TRANSFER_MAX && s.current.Some?
  {
    o.Ok? ==>
      if id == 0 then o.value == Reply(s, Some(Neg(EIPCNX)))
      else
        && HasChannel(s.servers, ChannelQueue(i, id - 1)) && o.value.result == None
        && Calls(s, o.value.state, s.current.value, ctx.(rdi := mode), ChannelQueue(i, id - 1), mode, hardware)
  }

  /** A call that does not halt is refused for lack of a route, or meets the first listener, or waits last. */
  lemma CallServerDoes(s: State, i: nat, mode: nat, ctx: Registers, hardware: Fault, now: Word)
    requires Inv(s) && s.current.Some? && i < |s.servers| && mode < TRANSFER_MAX
    ensures |s.servers[i].transferMap| == TRANSFER_MAX
    ensures CallDone(s, i, mode, s.servers[i].transferMap[mode], ctx, hardware, CallServer(s, i, mode, ctx, hardware, now))
  {
    assert MapOk(s.servers[i]);
    var id := s.servers[i].transferMap[mode];
    if id != 0 { CallRouted(s, i, mode, id, ctx, hardware, now); }
  }

  lemma CallRouted(s: State, i: nat, mode: nat, id: nat, ctx: Registers, hardware: Fault, now: Word)
    requires Inv(s) && s.current.Some? && i < |s.servers| && |s.servers[i].transferMap| == TRANSFER_MAX
    requires mode < TRANSFER_MAX && id == s.servers[i].transferMap[mode] > 0
    ensures CallDone(s, i, mode, id, ctx, hardware, CallServer(s, i, mode, ctx, hardware, now))
  {
    var q, regs := ChannelQueue(i, id - 1), ctx.(rdi := mode);
    CallSaved(s, i, mode, ctx);
    SaveDoes(s, regs);
    var (s1, c) := Save(s, regs).value;
    assert ValidId(s.servers, q);
    var s2 := Logged(s1, CallMade(q, c));
    CallServerIs(s, i, mode, id, ctx, hardware, now, s1, c);
    CallOnDoes(s2, c, regs, i, id - 1, q, mode, hardware, now);
    CallDoneFrom(s, s2, c, regs, i, id, q, mode, ctx, hardware, CallOn(s2, c, i, id - 1, mode, hardware, now));
  }

  lemma CallDoneFrom(s: State, s2: State, c: Tid, regs: Registers, i: nat, id: nat, q: QueueId, mode: nat, ctx: Registers, hardware: Fault,
                     o: Outcome<State>)
    requires Inv(s) && s.current == Some(c) && SavedFrom(s, s2, c, regs) && s.threads[c].state == Running
    requires mode < TRANSFER_MAX && regs == ctx.(rdi := mode) && id > 0 && q == ChannelQueue(i, id - 1) && HasChannel(s.servers, q) && q in s.queues
    requires CalledOn(s2, c, regs, q, mode, hardware, o)
    ensures CallDone(s, i, mode, id, ctx, hardware, Replied(o))
  {
    CallsSaved(s, s2, c, regs, q, mode, hardware, o);
  }

  ghost predicate ListenedAt(s: State, i: nat, j: nat, ctx: Registers, hardware: Fault, o: Outcome<Reply>)
    requires s.current.Some? && HasChannel(s.servers, ChannelQueue(i, j))
  {
    o.Ok? ==> o.value.result == None && Listens(s, o.value.state, s.current.value, ctx, ChannelQueue(i, j), hardware)
  }

  lemma ListenAtDoes(s: State, i: nat, j: nat, ctx: Registers, hardware: Fault, now: Word)
    requires Inv(s) && s.current.Some? && HasChannel(s.servers, ChannelQueue(i, j))
    ensures ListenedAt(s, i, j, ctx, hardware, ListenAt(s, i, j, ctx, hardware, now))
  {
    if ListenAt(s, i, j, ctx, hardware, now).Ok? {
      var q := ChannelQueue(i, j);
      SaveDoes(s, ctx);
      var (s1, l) := Save(s, ctx).value;
      assert ValidId(s.servers, q);
      var s2 := Logged(s1, ListenMade(q, l));
      ListenOnDoes(s2, l, i, j, hardware, now);
      ListensSaved(s, s2, ListenOn(s2, l, i, j, hardware, now).value, l, ctx, q, hardware);
    }
  }

  /** What a listen leaves if it does not halt: refused, or with the first caller or last in the queue. */
  ghost predicate ListenDone(s: State, i: nat, ctx: Registers, hardware: Fault, o: Outcome<Reply>)
    requires s.current.Some? && i < |s.servers|
  {
    o.Ok? ==>
      if ctx.r10 > |s.servers[i].channels| then o.value == Reply(s, Some(Neg(EINVAL)))
      else ctx.r10 > 0 && o.value.result == None && Listens(s, o.value.state, s.current.value, ctx, ChannelQueue(i, ctx.r10 - 1), hardware)
  }

  /** A listen that does not halt is refused for a channel that does not exist, or meets the first caller, or waits last. */
  lemma ListenDoes(s: State, i: nat, ctx: Registers, hardware: Fault, now: Word)
    requires Inv(s) && s.current.Some? && i < |s.servers|
    ensures ListenDone(s, i, ctx, hardware, Listen(s, i, ctx, hardware, now))
  {
    if 0 < ctx.r10 <= |s.servers[i].channels| {
      ListenOneDoes(s, i, ctx.r10 - 1, ctx, hardware, now);
    } else {
      NoChannel(s, i, ctx, hardware, now);
    }
  }

  lemma ListenDoneFrom(s: State, i: nat, j: nat, ctx: Registers, hardware: Fault, o: Outcome<Reply>)
    requires s.current.Some? && i < |s.servers| && 0 < ctx.r10 <= |s.servers[i].channels| && j == ctx.r10 - 1
    requires ListenedAt(s, i, j, ctx, hardware, o)
    ensures ListenDone(s, i, ctx, hardware, o)
  {
  }

  lemma ListenAtDone(s: State, i: nat, j: nat, ctx: Registers, hardware: Fault, now: Word)
    requires Inv(s) && s.current.Some? && i < |s.servers| && 0 < ctx.r10 <= |s.servers[i].channels| && j == ctx.r10 - 1
    ensures ListenDone(s, i, ctx, hardware, ListenAt(s, i, j, ctx, hardware, now))
  {
    var o := ListenAt(s, i, j, ctx, hardware, now);
    assert ListenedAt(s, i, j, ctx, hardware, o) by { ListenAtDoes(s, i, j, ctx, hardware, now); }
    ListenDoneFrom(s, i, j, ctx, hardware, o);
  }

  lemma ListenOneDoes(s: State, i: nat, j: nat, ctx: Registers, hardware: Fault, now: Word)
    requires Inv(s) && s.current.Some? && i < |s.servers| && 0 < ctx.r10 <= |s.servers[i].channels| && j == ctx.r10 - 1
    ensures ListenDone(s, i, ctx, hardware, Listen(s, i, ctx, hardware, now))
  {
    ListenIs(s, i, j, ctx, hardware, now);
    ListenAtDone(s, i, j, ctx, hardware, now);
  }

  // ---------------------------------------------------------------- responses

  /** The responder `r` goes on with result `result`; its caller `c` is ready with registers `regs`. */
  predicate Answered(s: State, s': State, c: Tid, r: Tid, regs: Registers) {
    && c in s'.threads && r in s'.threads && s'.threads[c].regs == regs && s'.threads[c].state == Ready
    && s'.current == Some(r) && s'.threads[r].state == Running && s'.threads[r].caller == None
    && s'.threads.Keys == s.threads.Keys && forall t | t in s.threads && t != c && t != r :: s'.threads[t] == s.threads[t]
  }

  /** A string answer in full: the caller runs with it, and the responder is ready. */
  predicate StringAnswered(s': State, c: Tid, cr: Registers, r: Tid, rr: Registers) {
    && c in s'.threads && s'.threads[c].regs == cr && s'.threads[c].state == Running && s'.current == Some(c)
    && r in s'.threads && s'.threads[r].regs == rr && s'.threads[r].state == Ready
  }

  lemma ReadyWithDoes(s: State, c: Tid, r: Tid, regs: Registers, result: Word)
    requires WellFormed(s) && FloatingIn(s.threads) == {c} && c in s.threads && s.current == Some(r) && s.threads[r].caller == None
    ensures var o := ReadyWith(s, c, regs, result);
            o.Ok? && o.value.result == Some(result) && Answered(s, o.value.state, c, r, regs)
  {
    assert c in FloatingIn(s.threads);
    SetRegsKeeps(s, c, regs);
    ReadyDoes(SetRegs(s, c, regs), c);
  }

  /** The string answer, once the responder has been saved. */
  ghost predicate StringSent(s: State, s': State, c: Tid, cr: Registers, r: Tid, ctx: Registers, fault: Fault) {
    && s'.threads.Keys == s.threads.Keys
    && match fault {
         case ReadFault => Failed(s', r, ctx, EFAULT) && Failed(s', c, cr, EIPCIO)
         case WriteFault => Failed(s', c, cr, EFAULT) && Failed(s', r, ctx, EIPCIO)
         case NoFault => StringAnswered(s', c, cr.(rax := ctx.rdi, rdx := ctx.rdx), r, ctx.(rax := 0))
       }
    && forall t | t in s.threads && t != c && t != r :: t in s'.threads && Moved(s.threads[t], s'.threads[t])
  }

  lemma AnswerStringDoes(s: State, c: Tid, r: Tid, ctx: Registers, hardware: Fault, now: Word)
    requires WellFormed(s) && s.current == Some(r) && FloatingIn(s.threads) == {c} && c in s.threads
    ensures AnswerString(s, c, ctx, hardware, now).Ok?
    ensures StringSent(s, AnswerString(s, c, ctx, hardware, now).value, c, s.threads[c].regs, r, ctx,
                       FaultOf(ctx.rsi, s.threads[c].regs.rsi, ctx.rdx, hardware))
  {
    FaultExact(ctx, s.threads[c].regs, ctx.rdx, hardware);
    assert c in FloatingIn(s.threads);
    var cr := s.threads[c].regs;
    SaveKeeps(s, ctx);
    var s1 := Save(s, ctx).value.0;
    assert FloatingIn(s1.threads) == {c, r} == {r, c};
    match CopyFault(ctx, cr, ctx.rdx, hardware)
    case ReadFault => TransferErrorDoes(s1, EFAULT, r, c, now);
    case WriteFault => TransferErrorDoes(s1, EFAULT, c, r, now);
    case NoFault =>
      var s2 := Logged(s1, Copied(r, c, ctx.rdx, ctx.rdx, cr.rdx));
      AnswerCopiedDoes(s2, c, cr.(rax := ctx.rdi, rdx := ctx.rdx), r);
  }

  lemma AnswerCopiedDoes(s: State, c: Tid, regs: Registers, r: Tid)
    requires WellFormed(s) && s.current == None && c != r && FloatingIn(s.threads) == {c, r}
    requires c in s.threads && r in s.threads
    ensures var s4 := MakeReady(SetResult(SetRegs(s, c, regs), r, 0), r);
            && s4.Ok? && Restore(s4.value, c).Ok?
            && var s' := Restore(s4.value, c).value;
               && s'.threads.Keys == s.threads.Keys && StringAnswered(s', c, regs, r, s.threads[r].regs.(rax := 0))
               && forall t | t in s.threads && t != c && t != r :: s'.threads[t] == s.threads[t]
  {
    assert c in FloatingIn(s.threads) && r in FloatingIn(s.threads);
    SetBothKeeps(s, c, regs, r, s.threads[r].regs.(rax := 0));
    var s3 := SetResult(SetRegs(s, c, regs), r, 0);
    ReadyDoes(s3, r);
    RestoreKeeps(MakeReady(s3, r).value, c);
  }

  /** What a response leaves the responder `r` and its caller `c` with, by the mode and the length of both. */
  ghost predicate Responded(s: State, c: Tid, r: Tid, cr: Registers, ctx: Registers, hardware: Fault, a: Reply) {
    if ctx.r10 / 2 % 2 == 0 then a.result == Some(0) && Answered(s, a.state, c, r, cr.(rax := ctx.rdi, rdx := ctx.rsi))
    else if cr.r10 / 2 % 2 == 0 then a.result == Some(Neg(EINVAL)) && Answered(s, a.state, c, r, cr.(rax := Neg(EIPCIO)))
    else if ctx.rdx > cr.rdx then a.result == Some(Neg(E2BIG)) && Answered(s, a.state, c, r, cr.(rax := Neg(EIPCIO)))
    else a.result == None && StringSent(s, a.state, c, cr, r, ctx, FaultOf(ctx.rsi, cr.rsi, ctx.rdx, hardware))
  }

  lemma AnswerDoes(s: State, c: Tid, r: Tid, ctx: Registers, hardware: Fault, now: Word)
    requires WellFormed(s) && s.current == Some(r) && FloatingIn(s.threads) == {c} && c in s.threads && r in s.threads && s.threads[r].caller == None
    ensures Answer(s, c, ctx, hardware, now).Ok?
    ensures Responded(s, c, r, s.threads[c].regs, ctx, hardware, Answer(s, c, ctx, hardware, now).value)
  {
    var cr := s.threads[c].regs;
    if !HasFlag(ctx.r10, RXSTR) {
      ReadyWithDoes(s, c, r, cr.(rax := ctx.rdi, rdx := ctx.rsi), 0);
    } else if !HasFlag(cr.r10, RXSTR) {
      ReadyWithDoes(s, c, r, cr.(rax := Neg(EIPCIO)), Neg(EINVAL));
    } else if ctx.rdx > cr.rdx {
      ReadyWithDoes(s, c, r, cr.(rax := Neg(EIPCIO)), Neg(E2BIG));
    } else {
      AnswerStringDoes(s, c, r, ctx, hardware, now);
    }
  }

  /** A response without a caller is refused; any other gives the caller its answer or an error, and lets go of it. */
  lemma RespondDoes(s: State, ctx: Registers, hardware: Fault, now: Word)
    requires Inv(s) && s.current.Some?
    ensures s.current.value in s.threads && Respond(s, ctx, hardware, now).Ok?
    ensures var r, a := s.current.value, Respond(s, ctx, hardware, now).value;
            match s.threads[r].caller {
              case None => a == Reply(s, Some(Neg(ENODEV)))
              case Some(c) => c in s.threads && Responded(s, c, r, s.threads[c].regs, ctx, hardware, a)
            }
  {
    var r := s.current.value;
    if s.threads[r].caller.Some? {
      var c := s.threads[r].caller.value;
      ReleaseKeeps(s, r, c);
      AnswerDoes(Release(s, r, c), c, r, ctx, hardware, now);
      RespondedFrom(s, Release(s, r, c), c, r, s.threads[c].regs, ctx, hardware, Answer(Release(s, r, c), c, ctx, hardware, now).value);
    }
  }

  /** Letting go of the caller changes no third thread. */
  lemma RespondedFrom(s: State, s1: State, c: Tid, r: Tid, cr: Registers, ctx: Registers, hardware: Fault, a: Reply)
    requires s1.threads.Keys == s.threads.Keys && (forall t | t in s.threads && t != c && t != r :: s1.threads[t] == s.threads[t])
    requires Responded(s1, c, r, cr, ctx, hardware, a)
    ensures Responded(s, c, r, cr, ctx, hardware, a)
  {
  }

  // ---------------------------------------------------------------- interrupts, threads, servers

  /** A waiter that has been woken with `result`. */
  predicate WokenWith(b: Thread, a: Thread, result: Word) {
    a == b.(state := Ready, regs := b.regs.(rax := result), root := Some(RunQueue), armed := false, deadline := 0)
  }

  /** The first waiter of the line has gone to the back of the run queue. */
  predicate OneReadied(queues: Queues, queues': Queues, irq: nat) {
    && RunQueue in queues && IrqQueue(irq) in queues && queues[IrqQueue(irq)] != []
    && queues' == queues[IrqQueue(irq) := queues[IrqQueue(irq)][1..]][RunQueue := queues[RunQueue] + [queues[IrqQueue(irq)][0]]]
  }

  /** All waiters of the line have gone to the back of the run queue, in order. */
  predicate AllReadied(queues: Queues, queues': Queues, irq: nat) {
    && RunQueue in queues && IrqQueue(irq) in queues
    && queues' == queues[IrqQueue(irq) := []][RunQueue := queues[RunQueue] + queues[IrqQueue(irq)]]
  }

  lemma ReadiedStep(queues: Queues, queues1: Queues, queues': Queues, irq: nat)
    requires OneReadied(queues, queues1, irq) && AllReadied(queues1, queues', irq)
    ensures AllReadied(queues, queues', irq)
  {
    var ts := queues[IrqQueue(irq)];
    assert queues[RunQueue] + [ts[0]] + ts[1..] == queues[RunQueue] + ts;
  }

  lemma WakeHeadDoes(s: State, irq: nat, result: Word, how: WaitEnd)
    requires WellFormed(s) && IrqQueue(irq) in s.queues && s.queues[IrqQueue(irq)] != []
    ensures WakeHead(s, irq, result, how).Ok?
    ensures var s', t := WakeHead(s, irq, result, how).value, s.queues[IrqQueue(irq)][0];
            && t in s.threads && s'.threads.Keys == s.threads.Keys && WokenWith(s.threads[t], s'.threads[t], result)
            && (forall u | u in s.threads && u != t :: s'.threads[u] == s.threads[u])
            && IrqQueue(irq) in s'.queues && s'.queues[IrqQueue(irq)] == s.queues[IrqQueue(irq)][1..] && s'.irqs == s.irqs
            && s'.current == s.current && s'.servers == s.servers && OneReadied(s.queues, s'.queues, irq)
  {
    var t := s.queues[IrqQueue(irq)][0];
    assert ValidId(s.servers, RunQueue);
    assert Placed(s.threads[t]);
    WakeHeadKeeps(s, irq, result, how);
    WakeHeadIs(s, irq, result, how);
  }

  /** Every waiter of the line is woken with `result`, nobody else changes, and none is lost. */
  ghost predicate AllWoken(s: State, s': State, irq: nat, result: Word) {
    && IrqQueue(irq) in s.queues && IrqQueue(irq) in s'.queues && s'.queues[IrqQueue(irq)] == [] && s'.threads.Keys == s.threads.Keys
    && (forall t | t in s.threads && t in s.queues[IrqQueue(irq)] :: WokenWith(s.threads[t], s'.threads[t], result))
    && (forall t | t in s.threads && t !in s.queues[IrqQueue(irq)] :: s'.threads[t] == s.threads[t])
    && s'.current == s.current && s'.servers == s.servers && AllReadied(s.queues, s'.queues, irq)
  }

  lemma {:induction false} WakeAllDoes(s: State, irq: nat, result: Word)
    requires WellFormed(s) && IrqQueue(irq) in s.queues
    ensures WakeAll(s, irq, result).Ok? && AllWoken(s, WakeAll(s, irq, result).value, irq, result)
    decreases |s.queues[IrqQueue(irq)]|
  {
    var q := IrqQueue(irq);
    if s.queues[q] != [] {
      WakeHeadKeeps(s, irq, result, Released);
      WakeHeadDoes(s, irq, result, Released);
      var s1 := WakeHead(s, irq, result, Released).value;
      WakeAllDoes(s1, irq, result);
      WokenStep(s, s1, WakeAll(s1, irq, result).value, irq, result);
    } else {
      assert ValidId(s.servers, RunQueue);
      assert s.queues[RunQueue] + [] == s.queues[RunQueue];
    }
  }

  lemma WokenStep(s: State, s1: State, s': State, irq: nat, result: Word)
    requires IrqQueue(irq) in s.queues && s.queues[IrqQueue(irq)] != [] && Distinct(s.queues[IrqQueue(irq)])
    requires var t := s.queues[IrqQueue(irq)][0];
             && t in s.threads && s1.threads.Keys == s.threads.Keys && WokenWith(s.threads[t], s1.threads[t], result)
             && (forall u | u in s.threads && u != t :: s1.threads[u] == s.threads[u])
             && IrqQueue(irq) in s1.queues && s1.queues[IrqQueue(irq)] == s.queues[IrqQueue(irq)][1..]
    requires s1.current == s.current && s1.servers == s.servers && OneReadied(s.queues, s1.queues, irq)
    requires AllWoken(s1, s', irq, result)
    ensures AllWoken(s, s', irq, result)
  {
    var ts, t := s.queues[IrqQueue(irq)], s.queues[IrqQueue(irq)][0];
    ReadiedStep(s.queues, s1.queues, s'.queues, irq);
    assert ts == [t] + ts[1..];
    assert t !in ts[1..];
    forall u | u in s.threads && u in ts ensures WokenWith(s.threads[u], s'.threads[u], result) {
      if u != t { assert u in ts[1..]; }
    }
  }

  /** Closing a line wakes all its waiters with an error. */
  lemma ReleaseIrqDoes(s: State, irq: nat)
    requires Inv(s) && irq < |s.irqs|
    ensures ReleaseIrq(s, irq).Ok?
    ensures var s' := ReleaseIrq(s, irq).value.state;
            AllWoken(s, s', irq, Neg(EBADF)) && s'.irqs == s.irqs[irq := Irq(false, s.irqs[irq].occurred)]
  {
    assert ValidId(s.servers, IrqQueue(irq));
    SetIrqKeeps(s, irq, s.irqs[irq].(claimed := false));
    var s1 := SetIrq(s, irq, s.irqs[irq].(claimed := false));
    WakeAllKeeps(s1, irq, Neg(EBADF));
    WakeAllDoes(s1, irq, Neg(EBADF));
  }

  /** An interrupt on a line wakes its first waiter, or is latched when there is none. */
  lemma ReceiveIrqDoes(s: State, irq: nat)
    requires Inv(s) && irq < |s.irqs|
    ensures ReceiveIrq(s, irq).Ok? && IrqQueue(irq) in s.queues
    ensures var s', ts := ReceiveIrq(s, irq).value, s.queues[IrqQueue(irq)];
            if ts == [] then s' == SetIrq(s, irq, s.irqs[irq].(occurred := true))
            else
              && ts[0] in s.threads && s'.threads.Keys == s.threads.Keys && WokenWith(s.threads[ts[0]], s'.threads[ts[0]], 1)
              && (forall u | u in s.threads && u != ts[0] :: s'.threads[u] == s.threads[u])
              && IrqQueue(irq) in s'.queues && s'.queues[IrqQueue(irq)] == ts[1..] && s'.irqs == s.irqs
              && s'.current == s.current && s'.servers == s.servers && OneReadied(s.queues, s'.queues, irq)
  {
    assert ValidId(s.servers, IrqQueue(irq));
    if s.queues[IrqQueue(irq)] != [] { WakeHeadDoes(s, irq, 1, Interrupted); }
  }

  /** A new thread is last in the run queue, and every other is as it was. */
  lemma AddThreadDoes(s: State, t: Tid, regs: Registers)
    requires Inv(s) && t !in s.threads
    ensures AddThread(s, t, regs).Ok? && RunQueue in s.queues
    ensures var s' := AddThread(s, t, regs).value.state;
            && s'.threads == s.threads[t := Thread(Ready, regs, Some(RunQueue), false, 0, None)]
            && s'.queues == s.queues[RunQueue := s.queues[RunQueue] + [t]] && s'.current == s.current && s'.sleepers == s.sleepers
  {
    assert ValidId(s.servers, RunQueue);
    var o := MakeReady(SetThread(s, t, Thread(Floating, regs, None, false, 0, None)), t);
    assert o.value.threads == s.threads[t := Thread(Ready, regs, Some(RunQueue), false, 0, None)];
  }

  /** A new server has the transfers asked for and empty channels only; every other server and every thread is as it was. */
  ghost predicate CreateDone(s: State, transfers: seq<nat>, r: Reply)
    requires |transfers| == TRANSFER_MAX
  {
    var i := |s.servers|;
    if exists k :: 0 <= k < |transfers| && transfers[k] > 5 then r == Reply(s, Some(Neg(EINVAL)))
    else
      && r.result == Some(0) && r.state.threads == s.threads && r.state.current == s.current && r.state.sleepers == s.sleepers
      && |r.state.servers| == i + 1 && r.state.servers[..i] == s.servers && r.state.servers[i].transferMap == transfers
      && (forall j | 0 <= j < |r.state.servers[i].channels| :: r.state.servers[i].channels[j] == Empty)
      && (forall k | 0 <= k < TRANSFER_MAX :: transfers[k] <= |r.state.servers[i].channels|)
      && (|r.state.servers[i].channels| == 0 || |r.state.servers[i].channels| in transfers) && r.state.irqs == s.irqs
      && (forall q | q in s.queues :: q in r.state.queues && r.state.queues[q] == s.queues[q])
      && (forall q | q in r.state.queues && q !in s.queues :: r.state.queues[q] == [] && q.ChannelQueue? && q.server == i)
  }

  lemma CreateServerDoes(s: State, transfers: seq<nat>)
    requires Inv(s) && |transfers| == TRANSFER_MAX
    ensures CreateServer(s, transfers).Ok? && CreateDone(s, transfers, CreateServer(s, transfers).value)
  {
    if forall k | 0 <= k < |transfers| :: transfers[k] <= TRANSFER_MAX {
      var i, n := |s.servers|, MaxChannel(transfers);
      MaxChannelBounds(transfers);
      ChannelQueuesFacts(i, n);
      forall q | q in s.queues ensures q !in ChannelQueues(i, n) { assert ValidId(s.servers, q); }
    }
  }
}
