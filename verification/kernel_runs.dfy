/**
  Whole runs of the kernel, from the state the boot code hands over: where every thread is,
  who waits for whom, and how calls, listens and timed waits interleave.
 */
module KernelRuns {
  import opened Wrappers
  import opened KernelState
  import opened KernelInvariant
  import opened KernelSteps
  import opened KernelEffects
  import opened KernelHistory

  /** `s'` is what a run of enabled entries leaves, none of which halted. */
  ghost predicate RunsTo(s: State, entries: seq<Entry>, s': State)
    decreases |entries|
  {
    if entries == [] then s' == s
    else Enabled(s, entries[0]) && Step(s, entries[0]).Ok? && RunsTo(Step(s, entries[0]).value.state, entries[1..], s')
  }

  ghost predicate Reachable(s: State) {
    exists entries :: RunsTo(INITIAL, entries, s)
  }

  lemma {:induction false} IrqQueuesFacts(n: nat)
    ensures forall q :: q in IrqQueues(n) <==> q.IrqQueue? && q.irq < n
    ensures forall q | q in IrqQueues(n) :: IrqQueues(n)[q] == []
  {
    if n > 0 { IrqQueuesFacts(n - 1); }
  }

  lemma InitialOk()
    ensures Inv(INITIAL) && LogOk(INITIAL) && |INITIAL.irqs| == 16
  {
    StartOk(INITIAL, IRQ_COUNT);
  }

  lemma StartOk(s: State, n: nat)
    requires n == IRQ_COUNT && s.queues == IrqQueues(n)[RunQueue := [0]] && s.irqs == UnclaimedIrqs(n)
    requires s.threads == map[0 := Thread(Ready, ZERO, Some(RunQueue), false, 0, None)]
    requires s.sleepers == [] && s.servers == [] && s.current == None && s.log == []
    ensures Inv(s) && LogOk(s)
  {
    StartLists(s.queues, s.irqs, n);
    StartThreads(s.threads);
    StartLog(s.threads, s.queues);
  }

  lemma StartLog(threads: Threads, queues: Queues)
    requires threads == map[0 := Thread(Ready, ZERO, Some(RunQueue), false, 0, None)]
    ensures CallsTied([], threads) && WaitsTied([], threads) && ChannelsTied([], queues, [])
  {
    forall q ensures ChannelTied([], q, Empty, []) {}
  }

  lemma StartLists(queues: Queues, irqs: seq<Irq>, n: nat)
    requires n == IRQ_COUNT && queues == IrqQueues(n)[RunQueue := [0]] && irqs == UnclaimedIrqs(n)
    ensures ObjectsOk(queues, [], irqs)
    ensures QueuesOk(map[0 := Thread(Ready, ZERO, Some(RunQueue), false, 0, None)], queues)
  {
    IrqQueuesFacts(n);
    assert forall q :: q in queues <==> ValidId([], q);
  }

  lemma StartThreads(threads: Threads)
    requires threads == map[0 := Thread(Ready, ZERO, Some(RunQueue), false, 0, None)]
    ensures SleepOk(threads, []) && ThreadsOk(threads, [], None) && FloatingIn(threads) == {}
  {
    assert Placed(threads[0]);
  }

  lemma {:induction false} RunKeeps(s: State, entries: seq<Entry>, s': State)
    requires Inv(s) && LogOk(s) && RunsTo(s, entries, s')
    ensures Inv(s') && LogOk(s')
    decreases |entries|
  {
    if entries != [] {
      StepKeeps(s, entries[0]);
      StepLog(s, entries[0]);
      RunKeeps(Step(s, entries[0]).value.state, entries[1..], s');
    }
  }

  lemma ReachableOk(s: State)
    requires Reachable(s)
    ensures Inv(s) && LogOk(s)
  {
    var entries :| RunsTo(INITIAL, entries, s);
    InitialOk();
    RunKeeps(INITIAL, entries, s);
  }

  // ---------------------------------------------------------------- one place per thread

  datatype Place = OnProcessor | InQueue(q: QueueId, index: nat) | InSleepList(index: nat) | HeldBy(holder: Tid)

  /** Thread `t` is at place `p`.  A timed waiter's timer does not make it asleep. */
  ghost predicate At(s: State, t: Tid, p: Place) {
    match p
    case OnProcessor => s.current == Some(t)
    case InQueue(q, i) => q in s.queues && i < |s.queues[q]| && s.queues[q][i] == t
    case InSleepList(i) => i < |s.sleepers| && s.sleepers[i] == t && t in s.threads && s.threads[t].root == None
    case HeldBy(h) => Holds(s.threads, h, t)
  }

  predicate Matches(state: ThreadState, p: Place) {
    match state
    case Running => p.OnProcessor?
    case Ready => p.InQueue? && p.q == RunQueue
    case Waiting => p.InQueue? && p.q != RunQueue
    case Sleeping => p.InSleepList?
    case Calling => p.HeldBy?
    case Floating => false
  }

  lemma FindPlace(s: State, t: Tid) returns (p: Place)
    requires Inv(s) && t in s.threads
    ensures At(s, t, p)
  {
    var th := s.threads[t];
    assert Placed(th);
    assert t !in FloatingIn(s.threads);
    match th.state
    case Running => p := OnProcessor;
    case Ready =>
      var i :| 0 <= i < |s.queues[RunQueue]| && s.queues[RunQueue][i] == t;
      p := InQueue(RunQueue, i);
    case Waiting =>
      var q := th.root.value;
      var i :| 0 <= i < |s.queues[q]| && s.queues[q][i] == t;
      p := InQueue(q, i);
    case Sleeping =>
      assert t in s.sleepers;
      var i :| 0 <= i < |s.sleepers| && s.sleepers[i] == t;
      p := InSleepList(i);
    case Calling =>
      assert Served(s.threads, t);
      var h :| Holds(s.threads, h, t);
      p := HeldBy(h);
  }

  lemma PlaceMatches(s: State, t: Tid, p: Place)
    requires Inv(s) && t in s.threads && At(s, t, p)
    ensures Matches(s.threads[t].state, p)
    ensures p.InQueue? ==> s.threads[t].root == Some(p.q)
  {
    assert Placed(s.threads[t]);
    assert t !in FloatingIn(s.threads);
    match p
    case OnProcessor =>
    case InQueue(q, i) => assert t in s.queues[q];
    case InSleepList(i) => assert t in s.sleepers;
    case HeldBy(h) =>
  }

  /** Two sightings of one thread are the same sighting. */
  lemma PlaceUnique(s: State, t: Tid, p: Place, p': Place)
    requires Inv(s) && t in s.threads && At(s, t, p) && At(s, t, p')
    ensures p == p'
  {
    PlaceMatches(s, t, p);
    PlaceMatches(s, t, p');
  }

  /** In every reachable state each thread is in exactly one place, the one its state names; no thread is floating. */
  lemma EveryThreadInOnePlace(s: State, t: Tid)
    requires Reachable(s) && t in s.threads
    ensures exists p :: At(s, t, p) && Matches(s.threads[t].state, p) && forall p' | At(s, t, p') :: p' == p
  {
    ReachableOk(s);
    var p := FindPlace(s, t);
    PlaceMatches(s, t, p);
    forall p' | At(s, t, p') ensures p' == p { PlaceUnique(s, t, p, p'); }
  }

  /** The threads that a run adds. */
  function Spawned(entries: seq<Entry>): set<Tid> {
    if entries == [] then {} else Added(entries[0]) + Spawned(entries[1..])
  }

  lemma {:induction false} RunThreads(s: State, entries: seq<Entry>, s': State)
    requires RunsTo(s, entries, s')
    ensures s'.threads.Keys == s.threads.Keys + Spawned(entries)
    decreases |entries|
  {
    if entries != [] {
      StepSame(s, entries[0]);
      RunThreads(Step(s, entries[0]).value.state, entries[1..], s');
    }
  }

  /** After any run, the threads are the first one and those spawned, none lost, and each is in exactly one place, the one its state names. */
  lemma NoneLost(entries: seq<Entry>, s: State)
    requires RunsTo(INITIAL, entries, s)
    ensures s.threads.Keys == {0} + Spawned(entries)
    ensures forall t | t == 0 || t in Spawned(entries) ::
              t in s.threads && exists p :: At(s, t, p) && Matches(s.threads[t].state, p) && forall p' | At(s, t, p') :: p' == p
  {
    RunThreads(INITIAL, entries, s);
    assert Reachable(s);
    forall t | t == 0 || t in Spawned(entries)
      ensures t in s.threads && exists p :: At(s, t, p) && Matches(s.threads[t].state, p) && forall p' | At(s, t, p') :: p' == p
    {
      assert t in s.threads.Keys;
      EveryThreadInOnePlace(s, t);
    }
  }

  // ---------------------------------------------------------------- calls

  /** When the call that `c` has in flight was delivered. */
  function DeliveredAt(log: Log, c: Tid): nat {
    if log == [] || (log[|log| - 1].Delivered? && log[|log| - 1].caller == c) then |log|
    else DeliveredAt(log[..|log| - 1], c)
  }

  /** A holder that is itself calling made its call after it was handed this one. */
  lemma {:induction false} HoldersCallLater(log: Log, c: Tid, h: Tid)
    requires Disciplined(log) && InFlight(log, c) == Some(h) && InFlight(log, h).Some?
    ensures DeliveredAt(log, c) < DeliveredAt(log, h) <= |log|
  {
    var e := log[|log| - 1];
    if e.Delivered? && e.caller == h {
      DeliveredBound(log[..|log| - 1], c);
    } else {
      HoldersCallLater(log[..|log| - 1], c, h);
    }
  }

  lemma {:induction false} DeliveredBound(log: Log, c: Tid)
    ensures DeliveredAt(log, c) <= |log|
  {
    if log != [] { DeliveredBound(log[..|log| - 1], c); }
  }

  /** Following holders from `path[0]` ends at a thread that is not calling. */
  ghost predicate HolderPath(threads: Threads, path: seq<Tid>) {
    && path != []
    && (forall i | 0 <= i < |path| :: path[i] in threads)
    && (forall i | 0 <= i < |path| - 1 :: Holds(threads, path[i + 1], path[i]))
    && threads[path[|path| - 1]].state != Calling
  }

  lemma FollowHolders(s: State, t: Tid) returns (path: seq<Tid>)
    requires Inv(s) && LogOk(s) && t in s.threads
    ensures HolderPath(s.threads, path) && path[0] == t
    decreases |s.log| + 1 - (if s.threads[t].state == Calling then DeliveredAt(s.log, t) else |s.log| + 1)
  {
    if s.threads[t].state != Calling {
      path := [t];
    } else {
      assert Served(s.threads, t);
      var h :| Holds(s.threads, h, t);
      DeliveredBound(s.log, t);
      if s.threads[h].state == Calling {
        assert Served(s.threads, h);
        var g :| Holds(s.threads, g, h);
        HoldersCallLater(s.log, t, h);
      }
      var rest := FollowHolders(s, h);
      path := [t] + rest;
    }
  }

  /**
    Calls in flight never form a cycle: from every thread, following the (unique) holders
    ends at a thread that can run.
   */
  lemma NoCallCycle(s: State, t: Tid)
    requires Reachable(s) && t in s.threads
    ensures exists path :: HolderPath(s.threads, path) && path[0] == t
  {
    ReachableOk(s);
    var path := FollowHolders(s, t);
  }

  // ---------------------------------------------------------------- history theorems

  lemma {:induction false} DisciplinedPrefix(log: Log, i: nat)
    requires Disciplined(log) && i <= |log|
    ensures Disciplined(log[..i])
    decreases |log|
  {
    if i < |log| {
      DisciplinedPrefix(log[..|log| - 1], i);
      assert log[..|log| - 1][..i] == log[..i];
    } else {
      assert log[..i] == log;
    }
  }

  predicate AboutCall(e: Event, c: Tid) {
    (e.Delivered? && e.caller == c) || (e.Completed? && e.caller == c)
  }

  predicate AboutWait(e: Event, t: Tid) {
    (e.WaitBegun? && e.thread == t) || (e.WaitEnded? && e.thread == t)
  }

  /** What is in flight was delivered, and nothing has happened to it since. */
  lemma {:induction false} InFlightSince(log: Log, c: Tid) returns (j: nat)
    requires InFlight(log, c).Some?
    ensures j < |log| && log[j] == Delivered(c, InFlight(log, c).value)
    ensures forall k | j < k < |log| :: !AboutCall(log[k], c)
  {
    var last := |log| - 1;
    if AboutCall(log[last], c) {
      j := last;
    } else {
      j := InFlightSince(log[..last], c);
    }
  }

  lemma {:induction false} WaitSince(log: Log, t: Tid) returns (j: nat)
    requires WaitOn(log, t).Some?
    ensures j < |log| && log[j] == WaitBegun(t, WaitOn(log, t).value)
    ensures forall k | j < k < |log| :: !AboutWait(log[k], t)
  {
    var last := |log| - 1;
    if AboutWait(log[last], t) {
      j := last;
    } else {
      j := WaitSince(log[..last], t);
    }
  }

  lemma AllowedAt(log: Log, i: nat)
    requires Disciplined(log) && i < |log|
    ensures Allowed(log[..i], log[i])
  {
    DisciplinedPrefix(log, i + 1);
    assert log[..i + 1][..i] == log[..i];
  }

  lemma CompletionFollows(log: Log, i: nat, c: Tid, h: Tid) returns (j: nat)
    requires Disciplined(log) && i < |log| && log[i] == Completed(c, h)
    ensures j < i && log[j] == Delivered(c, h)
    ensures forall k | j < k < i :: !AboutCall(log[k], c)
  {
    AllowedAt(log, i);
    j := InFlightSince(log[..i], c);
    forall k | j < k < i ensures !AboutCall(log[k], c) { assert log[..i][k] == log[k]; }
  }

  lemma WaitEndFollows(log: Log, i: nat, t: Tid, irq: nat, how: WaitEnd) returns (j: nat)
    requires Disciplined(log) && i < |log| && log[i] == WaitEnded(t, irq, how)
    ensures j < i && log[j] == WaitBegun(t, irq)
    ensures forall k | j < k < i :: !AboutWait(log[k], t)
  {
    AllowedAt(log, i);
    j := WaitSince(log[..i], t);
    forall k | j < k < i ensures !AboutWait(log[k], t) { assert log[..i][k] == log[k]; }
  }

  /** Every completion answers one delivery, by the thread it was delivered to, once. */
  lemma CompletedOnceByHolder(s: State, i: nat, c: Tid, h: Tid) returns (j: nat)
    requires Reachable(s) && i < |s.log| && s.log[i] == Completed(c, h)
    ensures j < i && s.log[j] == Delivered(c, h)
    ensures forall k | j < k < i :: !AboutCall(s.log[k], c)
  {
    ReachableOk(s);
    j := CompletionFollows(s.log, i, c, h);
  }

  /** Every timed wait that ends began once, and ends once. */
  lemma WaitEndsOnce(s: State, i: nat, t: Tid, irq: nat, how: WaitEnd) returns (j: nat)
    requires Reachable(s) && i < |s.log| && s.log[i] == WaitEnded(t, irq, how)
    ensures j < i && s.log[j] == WaitBegun(t, irq)
    ensures forall k | j < k < i :: !AboutWait(s.log[k], t)
  {
    ReachableOk(s);
    j := WaitEndFollows(s.log, i, t, irq, how);
  }

  function Min(a: nat, b: nat): nat { if a < b then a else b }

  lemma TiedPairs(log: Log, q: QueueId, kind: ChannelState, queue: seq<Tid>)
    requires ChannelTied(log, q, kind, queue)
    ensures |Pairs(log, q)| == Min(|Callers(log, q)|, |Listeners(log, q)|)
    ensures forall k | 0 <= k < |Pairs(log, q)| :: Pairs(log, q)[k] == (Callers(log, q)[k], Listeners(log, q)[k])
  {
    PairsAt(Pairs(log, q));
  }

  lemma ChannelWaiter(s: State, q: QueueId, t: Tid)
    requires WellFormed(s) && q in s.queues && q.ChannelQueue? && t in s.queues[q]
    ensures t in s.threads && s.threads[t].state == Waiting && !s.threads[t].armed
  {
    assert Placed(s.threads[t]);
  }

  /**
    On every channel the k-th call is paired with the k-th listen, as soon as both have been
    made; callers and listeners never wait together and no waiter has an armed timeout.
   */
  lemma KthCallMeetsKthListen(s: State, q: QueueId)
    requires Reachable(s) && q in s.queues && HasChannel(s.servers, q)
    ensures |Pairs(s.log, q)| == Min(|Callers(s.log, q)|, |Listeners(s.log, q)|)
    ensures forall k | 0 <= k < |Pairs(s.log, q)| :: Pairs(s.log, q)[k] == (Callers(s.log, q)[k], Listeners(s.log, q)[k])
    ensures ChannelAt(s.servers, q) == Empty <==> s.queues[q] == []
    ensures forall t | t in s.queues[q] :: t in s.threads && s.threads[t].state == Waiting && !s.threads[t].armed
  {
    ReachableOk(s);
    TiedPairs(s.log, q, ChannelAt(s.servers, q), s.queues[q]);
    forall t | t in s.queues[q] ensures t in s.threads && s.threads[t].state == Waiting && !s.threads[t].armed {
      ChannelWaiter(s, q, t);
    }
  }

  /** No copy between two threads exceeds what either of them declared. */
  lemma CopiesFit(s: State, i: nat)
    requires Reachable(s) && i < |s.log| && s.log[i].Copied?
    ensures s.log[i].count <= s.log[i].sourceLen && s.log[i].count <= s.log[i].destLen
  {
    ReachableOk(s);
    AllowedAt(s.log, i);
  }

  lemma IrqWaiter(s: State, t: Tid, irq: nat)
    requires WellFormed(s) && LogOk(s) && irq < |s.irqs| && IrqQueue(irq) in s.queues
    ensures t in s.queues[IrqQueue(irq)] ==> t in s.sleepers && !s.irqs[irq].occurred
    ensures t in s.queues[IrqQueue(irq)] <==> WaitOn(s.log, t) == Some(irq)
  {
    if t in s.queues[IrqQueue(irq)] {
      assert Placed(s.threads[t]);
      assert t in s.sleepers;
    }
    assert WaitOn(s.log, t) == Some(irq) <==> ParkedOn(s.threads, t, irq);
  }

  /** A thread waits on an interrupt line exactly while its timer runs and nothing is latched. */
  lemma TimedWaitState(s: State, t: Tid, irq: nat)
    requires Reachable(s) && irq < |s.irqs| && IrqQueue(irq) in s.queues
    ensures t in s.queues[IrqQueue(irq)] ==> t in s.sleepers && !s.irqs[irq].occurred
    ensures t in s.queues[IrqQueue(irq)] <==> WaitOn(s.log, t) == Some(irq)
  {
    ReachableOk(s);
    IrqWaiter(s, t, irq);
  }

  /** In every reachable state the sleep list is sorted, and expiry wakes exactly the due sleepers, in order. */
  lemma ReachableExpiry(s: State, now: Word)
    requires Reachable(s)
    ensures SortedByDeadline(s.threads, s.sleepers)
    ensures WakeSleepers(s, now).Ok?
    ensures var k := DuePrefix(s.threads, s.sleepers, now);
      && Expiry(s, WakeSleepers(s, now).value, k)
      && forall i | 0 <= i < |s.sleepers| :: DeadlineIn(s.threads, s.sleepers[i]) < now <==> i < k
  {
    ReachableOk(s);
    WakeSleepersExactly(s, now);
    DuePrefixExact(s.threads, s.sleepers, now);
  }
}
