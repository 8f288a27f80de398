/**
  The invariant of the kernel state, and what each primitive does to it.  Between two
  kernel entries no thread is floating; inside one, the floating threads are exactly the
  ones the entry is holding.
 */
module KernelInvariant {
  import opened Wrappers
  import opened KernelState

  type Threads = map<Tid, Thread>
  type Queues = map<QueueId, seq<Tid>>

  ghost predicate Distinct(ts: seq<Tid>) {
    forall i, j | 0 <= i < j < |ts| :: ts[i] != ts[j]
  }

  /** Queue membership and the thread's own root pointer say the same thing. */
  ghost predicate QueuesOk(threads: Threads, queues: Queues) {
    && (forall q | q in queues :: Distinct(queues[q]))
    && (forall q, t | q in queues && t in queues[q] :: t in threads && threads[t].root == Some(q))
    && (forall t | t in threads && threads[t].root.Some? ::
          threads[t].root.value in queues && t in queues[threads[t].root.value])
  }

  ghost predicate SortedByDeadline(threads: Threads, ts: seq<Tid>) {
    forall i, j | 0 <= i < j < |ts| :: DeadlineIn(threads, ts[i]) <= DeadlineIn(threads, ts[j])
  }

  /** The sleep list holds exactly the armed threads, earliest deadline first. */
  ghost predicate SleepOk(threads: Threads, sleepers: seq<Tid>) {
    && Distinct(sleepers)
    && (forall t {:trigger t in sleepers} :: t in sleepers <==> t in threads && threads[t].armed)
    && SortedByDeadline(threads, sleepers)
  }

  /** A thread's state determines which lists it is linked in. */
  predicate Placed(th: Thread) {
    match th.state
    case Floating => th.root == None && !th.armed
    case Running => th.root == None && !th.armed
    case Calling => th.root == None && !th.armed
    case Ready => th.root == Some(RunQueue) && !th.armed
    case Sleeping => th.root == None && th.armed
    case Waiting => th.root.Some? && th.root != Some(RunQueue) && (th.armed <==> th.root.value.IrqQueue?)
  }

  ghost predicate PlacedOk(threads: Threads) {
    forall t {:trigger Placed(threads[t])} | t in threads :: Placed(threads[t])
  }

  ghost predicate CurrentOk(threads: Threads, current: Option<Tid>) {
    && (current.Some? ==> current.value in threads)
    && (forall t {:trigger threads[t].state} | t in threads :: threads[t].state == Running <==> current == Some(t))
  }

  predicate Holds(threads: Threads, h: Tid, c: Tid) {
    h in threads && threads[h].caller == Some(c)
  }

  ghost predicate Served(threads: Threads, c: Tid) {
    exists h :: Holds(threads, h, c)
  }

  /** Calling threads and the threads that serve them are in one-to-one correspondence. */
  ghost predicate CallsOk(threads: Threads) {
    && (forall h, c | Holds(threads, h, c) :: c in threads && threads[c].state == Calling)
    && (forall h, h', c | Holds(threads, h, c) && Holds(threads, h', c) :: h == h')
    && (forall c {:trigger Served(threads, c)} | c in threads && threads[c].state == Calling :: Served(threads, c))
  }

  predicate HasChannel(servers: seq<Server>, q: QueueId) {
    q.ChannelQueue? && q.server < |servers| && q.channel < |servers[q.server].channels|
  }

  function ChannelAt(servers: seq<Server>, q: QueueId): ChannelState
    requires HasChannel(servers, q)
  {
    servers[q.server].channels[q.channel]
  }

  /** The queues that exist: one run queue, one per channel, one per interrupt line. */
  predicate ValidId(servers: seq<Server>, q: QueueId) {
    q.RunQueue? || HasChannel(servers, q) || (q.IrqQueue? && q.irq < IRQ_COUNT)
  }

  predicate MapOk(v: Server) {
    && |v.transferMap| == TRANSFER_MAX
    && forall m | 0 <= m < TRANSFER_MAX :: v.transferMap[m] <= |v.channels|
  }

  ghost predicate ShapeOk(ids: set<QueueId>, servers: seq<Server>, irqs: seq<Irq>) {
    && |irqs| == IRQ_COUNT
    && (forall q :: q in ids <==> ValidId(servers, q))
    && (forall i | 0 <= i < |servers| :: MapOk(servers[i]))
  }

  /** Callers and listeners share one queue; a channel is empty exactly when it is. */
  ghost predicate ChannelsOk(queues: Queues, servers: seq<Server>) {
    forall q | q in queues && HasChannel(servers, q) ::
      ChannelAt(servers, q) == Empty <==> queues[q] == []
  }

  /** Transfer mode `mode` is routed to channel queue `q`. */
  predicate Routed(servers: seq<Server>, q: QueueId, mode: Word)
    requires HasChannel(servers, q)
  {
    var m := servers[q.server].transferMap;
    mode < TRANSFER_MAX && mode < |m| && m[mode] == q.channel + 1
  }

  predicate ModeOk(servers: seq<Server>, th: Thread) {
    th.root.Some? && HasChannel(servers, th.root.value) && ChannelAt(servers, th.root.value) == Called ==>
      Routed(servers, th.root.value, th.regs.rdi)
  }

  /** A parked caller still carries the transfer mode that routed it to its channel. */
  ghost predicate ModesOk(threads: Threads, servers: seq<Server>) {
    forall t {:trigger ModeOk(servers, threads[t])} | t in threads :: ModeOk(servers, threads[t])
  }

  /** A latched interrupt never coexists with a parked waiter. */
  ghost predicate IrqsOk(queues: Queues, irqs: seq<Irq>) {
    forall q | q in queues && q.IrqQueue? && q.irq < |irqs| && irqs[q.irq].occurred :: queues[q] == []
  }

  ghost predicate WellFormed(s: State) {
    && ListsOk(s.threads, s.queues, s.sleepers)
    && ThreadsOk(s.threads, s.servers, s.current)
    && ObjectsOk(s.queues, s.servers, s.irqs)
  }

  ghost function FloatingIn(threads: Threads): set<Tid> {
    set t | t in threads && threads[t].state == Floating
  }

  /** What holds between kernel entries. */
  ghost predicate Inv(s: State) {
    WellFormed(s) && FloatingIn(s.threads) == {}
  }

  // ---------------------------------------------------------------- one thread changes

  /** The part of the invariant that looks at threads alone. */
  ghost predicate ThreadsOk(threads: Threads, servers: seq<Server>, current: Option<Tid>) {
    PlacedOk(threads) && CurrentOk(threads, current) && CallsOk(threads) && ModesOk(threads, servers)
  }

  ghost predicate ListsOk(threads: Threads, queues: Queues, sleepers: seq<Tid>) {
    QueuesOk(threads, queues) && SleepOk(threads, sleepers)
  }

  ghost predicate ObjectsOk(queues: Queues, servers: seq<Server>, irqs: seq<Irq>) {
    ShapeOk(queues.Keys, servers, irqs) && ChannelsOk(queues, servers) && IrqsOk(queues, irqs)
  }

  lemma CallsFrame(threads: Threads, t: Tid, th: Thread)
    requires t in threads && th.caller == threads[t].caller
    requires th.state == Calling <==> threads[t].state == Calling
    requires CallsOk(threads)
    ensures CallsOk(threads[t := th])
  {
    var threads' := threads[t := th];
    assert forall h, c :: Holds(threads', h, c) == Holds(threads, h, c);
    forall c | c in threads' && threads'[c].state == Calling ensures Served(threads', c) {
      assert Served(threads, c);
      var h :| Holds(threads, h, c);
      assert Holds(threads', h, c);
    }
  }

  ghost function FloatingAfter(threads: Threads, t: Tid, th: Thread): set<Tid> {
    if th.state == Floating then FloatingIn(threads) + {t} else FloatingIn(threads) - {t}
  }

  lemma ThreadChange(threads: Threads, servers: seq<Server>, current: Option<Tid>, t: Tid, th: Thread)
    requires ThreadsOk(threads, servers, current) && t in threads
    requires Placed(th) && ModeOk(servers, th) && th.caller == threads[t].caller
    requires th.state == Calling <==> threads[t].state == Calling
    requires th.state == Running <==> threads[t].state == Running
    ensures ThreadsOk(threads[t := th], servers, current)
    ensures FloatingIn(threads[t := th]) == FloatingAfter(threads, t, th)
  {
    CallsFrame(threads, t, th);
  }

  lemma SortedKeep(threads: Threads, ts: seq<Tid>, t: Tid, th: Thread)
    requires SortedByDeadline(threads, ts) && t !in ts
    ensures SortedByDeadline(threads[t := th], ts)
  {
    assert forall i | 0 <= i < |ts| :: DeadlineIn(threads[t := th], ts[i]) == DeadlineIn(threads, ts[i]);
  }

  lemma Link(threads: Threads, queues: Queues, sleepers: seq<Tid>, q: QueueId, t: Tid, th: Thread)
    requires ListsOk(threads, queues, sleepers) && q in queues
    requires t in threads && threads[t].root == None && th.root == Some(q)
    requires !threads[t].armed && !th.armed
    ensures ListsOk(threads[t := th], queues[q := queues[q] + [t]], sleepers)
  {
    SleepKeep(threads, sleepers, t, th);
    QueueInsert(threads, queues, q, t, th);
  }

  lemma QueueInsert(threads: Threads, queues: Queues, q: QueueId, t: Tid, th: Thread)
    requires QueuesOk(threads, queues) && q in queues
    requires t in threads && threads[t].root == None && th.root == Some(q)
    ensures QueuesOk(threads[t := th], queues[q := queues[q] + [t]])
  {
    assert t !in queues[q];
    assert queues[q := queues[q] + [t]][q][|queues[q]|] == t;
  }

  /** Removal cuts out the one position that holds `t`. */
  lemma {:induction false} WithoutAt(ts: seq<Tid>, k: nat)
    requires Distinct(ts) && k < |ts|
    ensures Without(ts, ts[k]) == ts[..k] + ts[k + 1..]
  {
    if k > 0 {
      WithoutAt(ts[1..], k - 1);
      assert ts[1..][..k - 1] == ts[1..k] && ts[1..][k..] == ts[k + 1..];
      assert ts[..k] == [ts[0]] + ts[1..k];
    }
  }

  lemma {:induction false} WithoutFacts(ts: seq<Tid>, t: Tid)
    requires Distinct(ts)
    ensures Distinct(Without(ts, t))
    ensures forall u :: u in Without(ts, t) <==> u in ts && u != t
  {
    if ts != [] {
      WithoutFacts(ts[1..], t);
      assert ts == [ts[0]] + ts[1..];
      if ts[0] != t { assert ts[0] !in Without(ts[1..], t); }
    }
  }

  lemma WithoutSorted(threads: Threads, ts: seq<Tid>, t: Tid)
    requires Distinct(ts) && SortedByDeadline(threads, ts)
    ensures SortedByDeadline(threads, Without(ts, t))
  {
    if t in ts {
      var k :| 0 <= k < |ts| && ts[k] == t;
      WithoutAt(ts, k);
    } else {
      WithoutAbsent(ts, t);
    }
  }

  lemma QueueRemove(threads: Threads, queues: Queues, q: QueueId, t: Tid, th: Thread)
    requires QueuesOk(threads, queues) && q in queues
    requires t in threads && threads[t].root == Some(q) && th.root == None
    ensures QueuesOk(threads[t := th], queues[q := Without(queues[q], t)])
  {
    WithoutFacts(queues[q], t);
  }

  lemma QueueKeep(threads: Threads, queues: Queues, t: Tid, th: Thread)
    requires QueuesOk(threads, queues) && t in threads && th.root == threads[t].root
    ensures QueuesOk(threads[t := th], queues)
  {
  }

  lemma SleepRemove(threads: Threads, sleepers: seq<Tid>, t: Tid, th: Thread)
    requires SleepOk(threads, sleepers) && t in threads && !th.armed
    ensures SleepOk(threads[t := th], Without(sleepers, t))
  {
    WithoutFacts(sleepers, t);
    WithoutSorted(threads, sleepers, t);
    SortedKeep(threads, Without(sleepers, t), t, th);
  }

  lemma {:induction false} WithoutAbsent(ts: seq<Tid>, t: Tid)
    requires t !in ts
    ensures Without(ts, t) == ts
  {
    if ts != [] { WithoutAbsent(ts[1..], t); }
  }

  lemma SleepKeep(threads: Threads, sleepers: seq<Tid>, t: Tid, th: Thread)
    requires SleepOk(threads, sleepers) && t in threads && !th.armed && !threads[t].armed
    ensures SleepOk(threads[t := th], sleepers)
  {
    WithoutAbsent(sleepers, t);
    SleepRemove(threads, sleepers, t, th);
  }

  /** Insertion goes behind every sleeper due no later, and before all the others. */
  lemma {:induction false} InsertAt(threads: Threads, ts: seq<Tid>, t: Tid, d: Word) returns (k: nat)
    requires SortedByDeadline(threads, ts)
    ensures k <= |ts| && InsertByDeadline(threads, ts, t, d) == ts[..k] + [t] + ts[k..]
    ensures forall i | 0 <= i < k :: DeadlineIn(threads, ts[i]) <= d
    ensures forall i | k <= i < |ts| :: d < DeadlineIn(threads, ts[i])
  {
    if ts == [] || d < DeadlineIn(threads, ts[0]) {
      k := 0;
    } else {
      var k' := InsertAt(threads, ts[1..], t, d);
      k := k' + 1;
      assert ts[1..][..k'] == ts[1..k] && ts[1..][k'..] == ts[k..];
      assert ts[..k] == [ts[0]] + ts[1..k];
      forall i | k <= i < |ts| ensures d < DeadlineIn(threads, ts[i]) { assert ts[i] == ts[1..][i - 1]; }
      forall i | 0 <= i < k ensures DeadlineIn(threads, ts[i]) <= d {
        if i > 0 { assert ts[i] == ts[1..][i - 1]; }
      }
    }
  }

  lemma {:induction false} InsertFacts(threads: Threads, ts: seq<Tid>, t: Tid, d: Word)
    requires Distinct(ts) && t !in ts
    ensures Distinct(InsertByDeadline(threads, ts, t, d))
    ensures forall u :: u in InsertByDeadline(threads, ts, t, d) <==> u in ts || u == t
  {
    if ts != [] {
      InsertFacts(threads, ts[1..], t, d);
      assert ts == [ts[0]] + ts[1..];
      if !(d < DeadlineIn(threads, ts[0])) { assert ts[0] !in InsertByDeadline(threads, ts[1..], t, d); }
    }
  }

  lemma InsertSorted(threads: Threads, ts: seq<Tid>, t: Tid, th: Thread)
    requires SortedByDeadline(threads, ts) && t !in ts
    ensures SortedByDeadline(threads[t := th], InsertByDeadline(threads, ts, t, th.deadline))
  {
    var r := InsertByDeadline(threads, ts, t, th.deadline);
    var threads' := threads[t := th];
    var k := InsertAt(threads, ts, t, th.deadline);
    assert forall i | 0 <= i < |ts| :: DeadlineIn(threads', ts[i]) == DeadlineIn(threads, ts[i]);
    forall i, j | 0 <= i < j < |r| ensures DeadlineIn(threads', r[i]) <= DeadlineIn(threads', r[j]) {
      var a := if i < k then ts[i] else if i == k then t else ts[i - 1];
      var b := if j < k then ts[j] else if j == k then t else ts[j - 1];
      assert r[i] == a && r[j] == b;
    }
  }

  lemma SleepInsert(threads: Threads, sleepers: seq<Tid>, t: Tid, th: Thread)
    requires SleepOk(threads, sleepers) && t in threads && !threads[t].armed && th.armed
    ensures SleepOk(threads[t := th], InsertByDeadline(threads, sleepers, t, th.deadline))
  {
    InsertFacts(threads, sleepers, t, th.deadline);
    InsertSorted(threads, sleepers, t, th);
  }

  lemma Objects(queues: Queues, servers: seq<Server>, irqs: seq<Irq>, q: QueueId, ts: seq<Tid>)
    requires ObjectsOk(queues, servers, irqs) && q in queues && !q.ChannelQueue?
    requires q.IrqQueue? && q.irq < |irqs| && irqs[q.irq].occurred ==> ts == []
    ensures ObjectsOk(queues[q := ts], servers, irqs)
  {
    assert queues[q := ts].Keys == queues.Keys;
  }

  // ---------------------------------------------------------------- primitives

  lemma MakeReadyKeeps(s: State, t: Tid)
    requires WellFormed(s) && t in s.threads && s.threads[t].state == Floating
    ensures MakeReady(s, t).Ok?
    ensures var s' := MakeReady(s, t).value;
      && WellFormed(s')
      && FloatingIn(s'.threads) == FloatingIn(s.threads) - {t}
      && s'.threads == s.threads[t := s.threads[t].(state := Ready, root := Some(RunQueue))]
      && s'.current == s.current && s'.servers == s.servers
  {
    assert Placed(s.threads[t]);
    var th := s.threads[t].(state := Ready, root := Some(RunQueue));
    assert RunQueue in s.queues by { assert ValidId(s.servers, RunQueue); }
    Link(s.threads, s.queues, s.sleepers, RunQueue, t, th);
    ThreadChange(s.threads, s.servers, s.current, t, th);
    Objects(s.queues, s.servers, s.irqs, RunQueue, s.queues[RunQueue] + [t]);
    assert MakeReady(s, t).value.threads == s.threads[t := th];
  }

  /** A record that is linked nowhere, held by the running kernel entry. */
  predicate Loose(th: Thread) {
    th.state == Floating && th.root == None && !th.armed
  }

  /** Takes a linked thread out of every list it is in. */
  ghost function Detach(s: State, t: Tid, th: Thread): State
    requires t in s.threads && (s.threads[t].root.Some? ==> s.threads[t].root.value in s.queues)
  {
    var root := s.threads[t].root;
    s.(
      threads := s.threads[t := th],
      queues := if root == None then s.queues else s.queues[root.value := Without(s.queues[root.value], t)],
      sleepers := Without(s.sleepers, t))
  }

  lemma DetachKeeps(s: State, t: Tid, th: Thread)
    requires WellFormed(s) && t in s.threads && Loose(th) && th.caller == s.threads[t].caller
    requires s.threads[t].state == Sleeping || s.threads[t].state == Waiting || s.threads[t].state == Ready
    requires s.threads[t].root.Some? ==> !s.threads[t].root.value.ChannelQueue?
    ensures s.threads[t].root.Some? ==> s.threads[t].root.value in s.queues
    ensures WellFormed(Detach(s, t, th))
    ensures FloatingIn(Detach(s, t, th).threads) == FloatingIn(s.threads) + {t}
  {
    assert Placed(s.threads[t]);
    SleepRemove(s.threads, s.sleepers, t, th);
    ThreadChange(s.threads, s.servers, s.current, t, th);
    if s.threads[t].root.Some? {
      var q := s.threads[t].root.value;
      QueueRemove(s.threads, s.queues, q, t, th);
      Objects(s.queues, s.servers, s.irqs, q, Without(s.queues[q], t));
    } else {
      QueueKeep(s.threads, s.queues, t, th);
    }
  }

  function Woken(th: Thread, result: Word): Thread {
    th.(state := Floating, regs := th.regs.(rax := result), root := None, armed := false, deadline := 0)
  }

  /** Popping and waking is detaching and readying. */
  lemma WakeHeadIs(s: State, irq: nat, result: Word, how: WaitEnd)
    requires IrqQueue(irq) in s.queues && s.queues[IrqQueue(irq)] != []
    requires var t := s.queues[IrqQueue(irq)][0];
      t in s.threads && s.threads[t].root == Some(IrqQueue(irq)) && s.threads[t].armed && s.threads[t].state == Waiting
    ensures var t := s.queues[IrqQueue(irq)][0];
      WakeHead(s, irq, result, how) ==
      MakeReady(Logged(Detach(s, t, Woken(s.threads[t], result)), WaitEnded(t, irq, how)), t)
  {
    var t := s.queues[IrqQueue(irq)][0];
    var s1 := Logged(Dequeue(s, IrqQueue(irq)).value.0, WaitEnded(t, irq, how));
    var s2 := SetThread(s1, t, s1.threads[t].(state := Floating, regs := s1.threads[t].regs.(rax := result)));
    assert Cancel(s2, t).threads == s.threads[t := Woken(s.threads[t], result)];
    assert Cancel(s2, t) == Logged(Detach(s, t, Woken(s.threads[t], result)), WaitEnded(t, irq, how));
  }

  lemma WakeHeadKeeps(s: State, irq: nat, result: Word, how: WaitEnd)
    requires WellFormed(s) && IrqQueue(irq) in s.queues && s.queues[IrqQueue(irq)] != []
    ensures WakeHead(s, irq, result, how).Ok?
    ensures var s' := WakeHead(s, irq, result, how).value;
      && WellFormed(s') && FloatingIn(s'.threads) == FloatingIn(s.threads)
      && s'.current == s.current && s'.servers == s.servers && s'.irqs == s.irqs
      && s'.queues.Keys == s.queues.Keys
      && s'.queues[IrqQueue(irq)] == s.queues[IrqQueue(irq)][1..]
  {
    var t := s.queues[IrqQueue(irq)][0];
    assert Placed(s.threads[t]);
    WakeHeadIs(s, irq, result, how);
    DetachKeeps(s, t, Woken(s.threads[t], result));
    MakeReadyKeeps(Logged(Detach(s, t, Woken(s.threads[t], result)), WaitEnded(t, irq, how)), t);
  }

  lemma {:induction false} WakeAllKeeps(s: State, irq: nat, result: Word)
    requires WellFormed(s) && IrqQueue(irq) in s.queues
    ensures WakeAll(s, irq, result).Ok?
    ensures var s' := WakeAll(s, irq, result).value;
      && WellFormed(s') && FloatingIn(s'.threads) == FloatingIn(s.threads)
      && s'.current == s.current && s'.servers == s.servers && s'.irqs == s.irqs
      && IrqQueue(irq) in s'.queues && s'.queues[IrqQueue(irq)] == []
    decreases |s.queues[IrqQueue(irq)]|
  {
    if s.queues[IrqQueue(irq)] != [] {
      WakeHeadKeeps(s, irq, result, Released);
      WakeAllKeeps(WakeHead(s, irq, result, Released).value, irq, result);
    }
  }

  function Expired(th: Thread): Thread {
    th.(state := Floating, root := None, armed := false, deadline := 0)
  }

  ghost function AfterExpiry(s: State, t: Tid): State
    requires t in s.threads && Placed(s.threads[t]) && s.threads[t].armed
    requires s.threads[t].root.Some? ==> s.threads[t].root.value in s.queues
  {
    var s1 := Detach(s, t, Expired(s.threads[t]));
    if s.threads[t].root == None then s1 else Logged(s1, WaitEnded(t, s.threads[t].root.value.irq, TimedOut))
  }

  /** One expiry is detaching the first sleeper and readying it. */
  lemma ExpireHeadIs(s: State)
    requires s.sleepers != [] && s.sleepers[0] in s.threads
    requires var th := s.threads[s.sleepers[0]];
      Placed(th) && th.armed && (th.root.Some? ==> th.root.value in s.queues)
    ensures var t := s.sleepers[0];
      ExpireHead(s) == MakeReady(AfterExpiry(s, t), t)
  {
    var t := s.sleepers[0];
    assert s.threads[t].root.Some? ==> s.threads[t].root.value.IrqQueue?;
    var s1 := if s.threads[t].state == Waiting then Unlink(s, t).value else s;
    var s2 := s1.(
      threads := s1.threads[t := s1.threads[t].(state := Floating, armed := false, deadline := 0)],
      sleepers := s.sleepers[1..]);
    assert s2.threads == s.threads[t := Expired(s.threads[t])];
    assert s2 == Detach(s, t, Expired(s.threads[t]));
  }

  lemma ExpireHeadEffect(s: State)
    requires s.sleepers != [] && s.sleepers[0] in s.threads && RunQueue in s.queues
    requires var th := s.threads[s.sleepers[0]];
      Placed(th) && th.armed && (th.root.Some? ==> th.root.value in s.queues)
    ensures ExpireHead(s).Ok?
    ensures var s' := ExpireHead(s).value; var t := s.sleepers[0];
      && s'.current == s.current && s'.servers == s.servers && s'.irqs == s.irqs
      && s'.sleepers == s.sleepers[1..]
      && s'.threads == s.threads[t := Expired(s.threads[t]).(state := Ready, root := Some(RunQueue))]
      && RunQueue in s'.queues && s'.queues[RunQueue] == s.queues[RunQueue] + [t]
  {
    ExpireHeadIs(s);
  }

  lemma ExpireHeadKeeps(s: State)
    requires WellFormed(s) && s.sleepers != []
    ensures ExpireHead(s).Ok? && s.sleepers[0] in s.threads && RunQueue in s.queues
    ensures Placed(s.threads[s.sleepers[0]]) && s.threads[s.sleepers[0]].armed
    ensures s.threads[s.sleepers[0]].root.Some? ==> s.threads[s.sleepers[0]].root.value in s.queues
    ensures WellFormed(ExpireHead(s).value)
    ensures FloatingIn(ExpireHead(s).value.threads) == FloatingIn(s.threads)
  {
    var t := s.sleepers[0];
    assert t in s.sleepers;
    assert ValidId(s.servers, RunQueue);
    assert Placed(s.threads[t]);
    ExpireHeadIs(s);
    DetachKeeps(s, t, Expired(s.threads[t]));
    MakeReadyKeeps(AfterExpiry(s, t), t);
  }

  /** Thread `t` after it timed out: readied with the result stored when it went to sleep. */
  predicate TimedOutReady(before: Thread, after: Thread) {
    after == before.(state := Ready, root := Some(RunQueue), armed := false, deadline := 0)
  }

  lemma {:induction false} WakeSleepersKeeps(s: State, now: Word)
    requires WellFormed(s)
    ensures WakeSleepers(s, now).Ok?
    ensures WellFormed(WakeSleepers(s, now).value)
    ensures FloatingIn(WakeSleepers(s, now).value.threads) == FloatingIn(s.threads)
    decreases |s.sleepers|
  {
    if s.sleepers != [] && DeadlineIn(s.threads, s.sleepers[0]) < now {
      ExpireHeadKeeps(s);
      ExpireHeadEffect(s);
      WakeSleepersKeeps(ExpireHead(s).value, now);
    }
  }

  /** How many sleepers, from the head of the list, are past their deadline. */
  function DuePrefix(threads: Threads, ts: seq<Tid>, now: Word): (k: nat)
    ensures k <= |ts|
  {
    if ts == [] || !(DeadlineIn(threads, ts[0]) < now) then 0 else 1 + DuePrefix(threads, ts[1..], now)
  }

  lemma {:induction false} DuePrefixExact(threads: Threads, ts: seq<Tid>, now: Word)
    requires SortedByDeadline(threads, ts)
    ensures forall i | 0 <= i < |ts| :: DeadlineIn(threads, ts[i]) < now <==> i < DuePrefix(threads, ts, now)
  {
    if ts != [] && DeadlineIn(threads, ts[0]) < now {
      DuePrefixExact(threads, ts[1..], now);
      forall i | 0 <= i < |ts|
        ensures DeadlineIn(threads, ts[i]) < now <==> i < DuePrefix(threads, ts, now)
      {
        if i > 0 { assert ts[i] == ts[1..][i - 1]; }
      }
    }
  }

  lemma {:induction false} DuePrefixFrame(threads: Threads, ts: seq<Tid>, t: Tid, th: Thread, now: Word)
    requires t !in ts
    ensures DuePrefix(threads[t := th], ts, now) == DuePrefix(threads, ts, now)
  {
    if ts != [] { DuePrefixFrame(threads, ts[1..], t, th, now); }
  }

  /** Exactly the threads in `due` are readied; the others keep their records. */
  ghost predicate Readied(before: Threads, after: Threads, due: seq<Tid>) {
    && after.Keys == before.Keys
    && (forall t | t in before && t in due :: TimedOutReady(before[t], after[t]))
    && (forall t | t in before && t !in due :: after[t] == before[t])
  }

  /** The first `k` sleepers went to the back of the run queue, in order; nothing else moved. */
  ghost predicate Expiry(s: State, s': State, k: nat) {
    && k <= |s.sleepers| && RunQueue in s.queues && RunQueue in s'.queues
    && s'.current == s.current && s'.servers == s.servers && s'.irqs == s.irqs
    && s'.sleepers == s.sleepers[k..]
    && s'.queues[RunQueue] == s.queues[RunQueue] + s.sleepers[..k]
    && Readied(s.threads, s'.threads, s.sleepers[..k])
  }

  lemma ExpiryStep(s: State, s1: State, s': State, k: nat)
    requires s.sleepers != [] && s.sleepers[0] in s.threads && s.sleepers[0] !in s.sleepers[1..]
    requires Expiry(s, s1, 1) && Expiry(s1, s', k)
    ensures Expiry(s, s', k + 1)
  {
    var t, due := s.sleepers[0], s1.sleepers[..k];
    assert s.sleepers[..k + 1] == [t] + due && s.sleepers[..1] == [t];
    assert s1.sleepers[k..] == s.sleepers[k + 1..];
    assert forall u | u in due :: u in s1.sleepers;
    assert s.queues[RunQueue] + [t] + due == s.queues[RunQueue] + ([t] + due);
    forall u | u in s.threads && u in [t] + due ensures TimedOutReady(s.threads[u], s'.threads[u]) {
      if u in due { assert s1.threads[u] == s.threads[u]; } else { assert s'.threads[u] == s1.threads[u]; }
    }
  }

  lemma ExpireHeadExactly(s: State)
    requires WellFormed(s) && s.sleepers != []
    ensures ExpireHead(s).Ok? && Expiry(s, ExpireHead(s).value, 1)
    ensures ExpireHead(s).value.threads ==
      s.threads[s.sleepers[0] := Expired(s.threads[s.sleepers[0]]).(state := Ready, root := Some(RunQueue))]
  {
    ExpireHeadKeeps(s);
    ExpireHeadEffect(s);
    assert s.sleepers[..1] == [s.sleepers[0]];
  }

  /**
    Expiry appends exactly the due sleepers to the run queue, in deadline order, and leaves
    every other thread alone.
   */
  lemma {:induction false} WakeSleepersExactly(s: State, now: Word)
    requires WellFormed(s)
    ensures WakeSleepers(s, now).Ok?
    ensures Expiry(s, WakeSleepers(s, now).value, DuePrefix(s.threads, s.sleepers, now))
    decreases |s.sleepers|
  {
    if s.sleepers != [] && DeadlineIn(s.threads, s.sleepers[0]) < now {
      ExpireHeadKeeps(s);
      ExpireHeadExactly(s);
      var s1, t := ExpireHead(s).value, s.sleepers[0];
      WakeSleepersExactly(s1, now);
      DuePrefixFrame(s.threads, s.sleepers[1..], t, s1.threads[t], now);
      ExpiryStep(s, s1, WakeSleepers(s1, now).value, DuePrefix(s1.threads, s1.sleepers, now));
    } else {
      assert ValidId(s.servers, RunQueue);
      assert s.queues[RunQueue] + s.sleepers[..0] == s.queues[RunQueue];
    }
  }
}
