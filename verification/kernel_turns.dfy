/** Scheduling in full: the record of every thread and the queue of every interrupt line afterwards. */
module KernelTurns {
  import opened Wrappers
  import opened KernelState
  import opened KernelInvariant
  import opened KernelSteps
  import opened KernelEffects

  /** A timer that has run out. */
  predicate IsDue(th: Thread, now: Word) { th.armed && th.deadline < now }

  /** A thread once expiry has passed over it: one whose timer has run out is ready. */
  function Risen(th: Thread, now: Word): Thread {
    if IsDue(th, now) then th.(state := Ready, root := Some(RunQueue), armed := false, deadline := 0) else th
  }

  /** A thread after scheduling, if it was not running before. */
  function TurnOf(th: Thread, runs: bool, now: Word): Thread {
    if runs then Risen(th, now).(state := Running, root := None) else Risen(th, now)
  }

  /** Those of a queue whose timers have not run out. */
  function Remaining(threads: Threads, ts: seq<Tid>, now: Word): seq<Tid> {
    if ts == [] then []
    else if ts[0] in threads && IsDue(threads[ts[0]], now) then Remaining(threads, ts[1..], now)
    else [ts[0]] + Remaining(threads, ts[1..], now)
  }

  /** What scheduling leaves, but for the thread that ran. */
  ghost predicate Turned(s: State, s': State, now: Word) {
    && s'.threads.Keys == s.threads.Keys && s'.irqs == s.irqs
    && (forall t | t in s.threads && s.current != Some(t) :: s'.threads[t] == TurnOf(s.threads[t], s'.current == Some(t), now))
    && (forall irq: nat | IrqQueue(irq) in s.queues ::
          IrqQueue(irq) in s'.queues && s'.queues[IrqQueue(irq)] == Remaining(s.threads, s.queues[IrqQueue(irq)], now))
  }

  // ---------------------------------------------------------------- expiry

  lemma {:induction false} RemainingAll(threads: Threads, ts: seq<Tid>, now: Word)
    requires forall t | t in ts :: t in threads && !IsDue(threads[t], now)
    ensures Remaining(threads, ts, now) == ts
  {
    if ts != [] {
      var t := ts[0];
      assert t in ts && !IsDue(threads[t], now);
      assert ts == [t] + ts[1..];
      RemainingAll(threads, ts[1..], now);
    }
  }

  /** The record of a thread that is not in a queue does not matter to it. */
  lemma {:induction false} RemainingFrame(threads: Threads, ts: seq<Tid>, t: Tid, th: Thread, now: Word)
    requires t !in ts
    ensures Remaining(threads[t := th], ts, now) == Remaining(threads, ts, now)
  {
    if ts != [] { RemainingFrame(threads, ts[1..], t, th, now); }
  }

  /** Taking out a thread that is due. */
  lemma {:induction false} RemainingWithout(threads: Threads, ts: seq<Tid>, t: Tid, now: Word)
    requires Distinct(ts) && t in threads && IsDue(threads[t], now)
    ensures Remaining(threads, Without(ts, t), now) == Remaining(threads, ts, now)
  {
    if ts != [] && ts[0] != t {
      assert ts == [ts[0]] + ts[1..];
      RemainingWithout(threads, ts[1..], t, now);
      assert Without(ts, t)[1..] == Without(ts[1..], t);
    }
  }

  lemma {:induction false} RemainingLast(threads: Threads, ts: seq<Tid>, t: Tid, now: Word)
    ensures Remaining(threads, ts + [t], now) == Remaining(threads, ts, now) + if t in threads && IsDue(threads[t], now) then [] else [t]
  {
    if ts == [] {
      assert [] + [t] == [t];
    } else {
      assert (ts + [t])[1..] == ts[1..] + [t];
      RemainingLast(threads, ts[1..], t, now);
    }
  }

  /** With no due sleeper at the head of the list no timer has run out. */
  lemma NoneDue(s: State, now: Word, t: Tid)
    requires WellFormed(s) && (s.sleepers == [] || !(DeadlineIn(s.threads, s.sleepers[0]) < now)) && t in s.threads
    ensures !IsDue(s.threads[t], now)
  {
    if s.threads[t].armed {
      assert t in s.sleepers;
      var i :| 0 <= i < |s.sleepers| && s.sleepers[i] == t;
      if i > 0 { assert DeadlineIn(s.threads, s.sleepers[0]) <= DeadlineIn(s.threads, s.sleepers[i]); }
    }
  }

  /** One expiry takes its thread out of its line. */
  lemma ExpiredQueue(s: State, irq: nat)
    requires WellFormed(s) && s.sleepers != [] && IrqQueue(irq) in s.queues
    ensures ExpireHead(s).Ok? && s.sleepers[0] in s.threads && IrqQueue(irq) in ExpireHead(s).value.queues
    ensures var t, q := s.sleepers[0], IrqQueue(irq);
            ExpireHead(s).value.queues[q] == if s.threads[t].root == Some(q) then Without(s.queues[q], t) else s.queues[q]
  {
    ExpireHeadKeeps(s);
    ExpireHeadIs(s);
  }

  lemma {:induction false} WokenQueue(s: State, now: Word, irq: nat)
    requires WellFormed(s) && IrqQueue(irq) in s.queues
    ensures WakeSleepers(s, now).Ok? && IrqQueue(irq) in WakeSleepers(s, now).value.queues
    ensures WakeSleepers(s, now).value.queues[IrqQueue(irq)] == Remaining(s.threads, s.queues[IrqQueue(irq)], now)
    decreases |s.sleepers|
  {
    var q := IrqQueue(irq);
    var ts := s.queues[q];
    if s.sleepers != [] && DeadlineIn(s.threads, s.sleepers[0]) < now {
      var t := s.sleepers[0];
      ExpireHeadKeeps(s);
      ExpireHeadEffect(s);
      ExpiredQueue(s, irq);
      var s1 := ExpireHead(s).value;
      WokenQueue(s1, now, irq);
      ExpiredRemaining(s, s1.threads[t], t, q, now);
    } else {
      forall t | t in ts ensures t in s.threads && !IsDue(s.threads[t], now) { NoneDue(s, now, t); }
      RemainingAll(s.threads, ts, now);
    }
  }

  lemma ExpiredRemaining(s: State, th: Thread, t: Tid, q: QueueId, now: Word)
    requires WellFormed(s) && t in s.threads && IsDue(s.threads[t], now) && q in s.queues
    ensures var ts := if s.threads[t].root == Some(q) then Without(s.queues[q], t) else s.queues[q];
            Remaining(s.threads[t := th], ts, now) == Remaining(s.threads, s.queues[q], now)
  {
    WithoutFacts(s.queues[q], t);
    var ts := if s.threads[t].root == Some(q) then Without(s.queues[q], t) else s.queues[q];
    RemainingFrame(s.threads, ts, t, th, now);
    RemainingWithout(s.threads, s.queues[q], t, now);
  }

  /** The due prefix of the sleep list has exactly the threads whose timers have run out. */
  lemma DueIn(threads: Threads, sleepers: seq<Tid>, now: Word, t: Tid)
    requires SleepOk(threads, sleepers) && t in threads
    ensures t in sleepers[..DuePrefix(threads, sleepers, now)] <==> IsDue(threads[t], now)
  {
    var due := sleepers[..DuePrefix(threads, sleepers, now)];
    DuePrefixExact(threads, sleepers, now);
    if IsDue(threads[t], now) {
      assert t in sleepers;
      var i :| 0 <= i < |sleepers| && sleepers[i] == t;
      assert due[i] == t;
    }
    if t in due {
      var i :| 0 <= i < |due| && due[i] == t;
      assert sleepers[i] == t && t in sleepers;
    }
  }

  /** Expiry, thread by thread. */
  lemma WokenThread(s: State, now: Word, t: Tid)
    requires WellFormed(s) && t in s.threads
    ensures WakeSleepers(s, now).Ok? && t in WakeSleepers(s, now).value.threads
    ensures WakeSleepers(s, now).value.threads[t] == Risen(s.threads[t], now)
  {
    WakeSleepersExactly(s, now);
    DueIn(s.threads, s.sleepers, now, t);
  }

  // ---------------------------------------------------------------- scheduling

  lemma SwitchedTurns(s: State, s1: State, s': State, ctx: Registers, now: Word, t: Tid)
    requires s1.threads.Keys == s.threads.Keys && s1.current == s.current && s1.irqs == s.irqs && t in s1.threads && s1.current != Some(t)
    requires forall u | u in s.threads :: s1.threads[u] == Risen(s.threads[u], now)
    requires forall irq: nat | IrqQueue(irq) in s.queues ::
               IrqQueue(irq) in s1.queues && s1.queues[IrqQueue(irq)] == Remaining(s.threads, s.queues[IrqQueue(irq)], now)
    requires SwitchedTo(s1, s', ctx, t)
    ensures Turned(s, s', now)
  {
  }

  /** Scheduling readies exactly the threads whose timers have run out, in their lines too, and runs one at most. */
  lemma ScheduleTurns(s: State, ctx: Registers, now: Word)
    requires Inv(s)
    ensures Schedule(s, ctx, now).Ok? && Turned(s, Schedule(s, ctx, now).value, now)
  {
    WokenKeeps(s, now);
    var s1 := WakeSleepers(s, now).value;
    forall t | t in s.threads ensures t in s1.threads && s1.threads[t] == Risen(s.threads[t], now) { WokenThread(s, now, t); }
    forall irq: nat | IrqQueue(irq) in s.queues
      ensures IrqQueue(irq) in s1.queues && s1.queues[IrqQueue(irq)] == Remaining(s.threads, s.queues[IrqQueue(irq)], now)
    {
      WokenQueue(s, now, irq);
    }
    assert s1.threads.Keys == s.threads.Keys by { WakeSleepersSame(s, now); }
    var ready := s1.queues[RunQueue];
    if ready != [] {
      Switched(s1, ctx, now, ready[0]);
      ScheduleAgain(s, s1, ctx, now);
      SwitchedTurns(s, s1, Schedule(s1, ctx, now).value, ctx, now, ready[0]);
    } else {
      IdleTurns(s, s1, now);
    }
  }

  lemma IdleTurns(s: State, s1: State, now: Word)
    requires Inv(s) && Inv(s1) && s1.threads.Keys == s.threads.Keys && s1.current == s.current && s1.irqs == s.irqs
    requires RunQueue in s1.queues && s1.queues[RunQueue] == []
    requires forall u | u in s.threads :: s1.threads[u] == Risen(s.threads[u], now)
    requires forall irq: nat | IrqQueue(irq) in s.queues ::
               IrqQueue(irq) in s1.queues && s1.queues[IrqQueue(irq)] == Remaining(s.threads, s.queues[IrqQueue(irq)], now)
    ensures Turned(s, s1, now)
  {
  }
}
