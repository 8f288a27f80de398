/**
  The linked lists and the sequences of the kernel state: what the queues and the sleep list
  do to their nodes is what the state's operations do to the threads the nodes stand for.
 */
module KernelLinks {
  import opened Wrappers
  import opened KernelState
  import opened KernelInvariant
  import KernelQueue
  import KernelSleep

  /** The threads that the nodes of a list stand for. */
  ghost function Named<T>(s: seq<T>, name: T -> Tid): (ts: seq<Tid>)
    ensures |ts| == |s| && forall i | 0 <= i < |s| :: ts[i] == name(s[i])
  {
    seq(|s|, i requires 0 <= i < |s| => name(s[i]))
  }

  lemma NamedConcat<T>(a: seq<T>, b: seq<T>, name: T -> Tid)
    ensures Named(a + b, name) == Named(a, name) + Named(b, name)
  {
  }

  /** What `Queue.Push` does to the list, `Enqueue` does to the queue. */
  lemma PushIsEnqueue(nodes: seq<KernelQueue.Node>, node: KernelQueue.Node, name: KernelQueue.Node -> Tid, s: State, q: QueueId)
    requires name(node) in s.threads && s.threads[name(node)].root == None && q in s.queues && s.queues[q] == Named(nodes, name)
    ensures Enqueue(s, q, name(node)).Ok? && Enqueue(s, q, name(node)).value.queues[q] == Named(nodes + [node], name)
  {
    NamedConcat(nodes, [node], name);
  }

  /** What `Queue.Pop` does, `Dequeue` does. */
  lemma PopIsDequeue(nodes: seq<KernelQueue.Node>, name: KernelQueue.Node -> Tid, s: State, q: QueueId)
    requires nodes != [] && q in s.queues && s.queues[q] == Named(nodes, name)
    requires name(nodes[0]) in s.threads && s.threads[name(nodes[0])].root == Some(q)
    ensures Dequeue(s, q).Ok?
    ensures Dequeue(s, q).value.1 == name(nodes[0]) && Dequeue(s, q).value.0.queues[q] == Named(nodes[1..], name)
  {
    assert Named(nodes, name)[1..] == Named(nodes[1..], name);
  }

  /** Taking position `i` out of a list of different threads is taking its thread out. */
  lemma RemoveIsWithout<T>(s: seq<T>, i: nat, name: T -> Tid)
    requires i < |s| && Distinct(Named(s, name))
    ensures Named(s[..i] + s[i + 1..], name) == Without(Named(s, name), name(s[i]))
  {
    var ts := Named(s, name);
    WithoutAt(ts, i);
    NamedConcat(s[..i], s[i + 1..], name);
    assert Named(s[..i], name) == ts[..i] && Named(s[i + 1..], name) == ts[i + 1..];
  }

  /** What `KernelQueue.Remove` does, `Unlink` does. */
  lemma RemoveIsUnlink(nodes: seq<KernelQueue.Node>, i: nat, name: KernelQueue.Node -> Tid, s: State, q: QueueId)
    requires i < |nodes| && q in s.queues && s.queues[q] == Named(nodes, name) && Distinct(s.queues[q])
    requires name(nodes[i]) in s.threads && s.threads[name(nodes[i])].root == Some(q)
    ensures Unlink(s, name(nodes[i])).Ok? && Unlink(s, name(nodes[i])).value.queues[q] == Named(nodes[..i] + nodes[i + 1..], name)
  {
    RemoveIsWithout(nodes, i, name);
  }

  /** A place with nothing later before it and something later after it is where insertion by deadline puts a thread. */
  lemma {:induction false} InsertedIs(threads: Threads, ts: seq<Tid>, t: Tid, deadline: Word, k: nat)
    requires k <= |ts| && (forall j | 0 <= j < k :: DeadlineIn(threads, ts[j]) <= deadline)
    requires k < |ts| ==> deadline < DeadlineIn(threads, ts[k])
    ensures InsertByDeadline(threads, ts, t, deadline) == ts[..k] + [t] + ts[k..]
    decreases k
  {
    if k > 0 {
      InsertedIs(threads, ts[1..], t, deadline, k - 1);
      assert ts[1..][..k - 1] == ts[1..k] && ts[1..][k - 1..] == ts[k..];
      assert ts[..k] == [ts[0]] + ts[1..k];
    } else {
      assert ts[..0] + [t] + ts[0..] == [t] + ts;
    }
  }

  /** The deadlines of the sleepers of a list are those of the threads they stand for. */
  ghost predicate Deadlines(list: seq<KernelSleep.Sleeper>, name: KernelSleep.Sleeper -> Tid, threads: Threads)
    reads list
  {
    forall i | 0 <= i < |list| :: DeadlineIn(threads, name(list[i])) == list[i].ns
  }

  /** Where `SleepList.SetTimeout` puts a sleeper, `SetTimeout` puts its thread. */
  lemma SetTimeoutIs(list: seq<KernelSleep.Sleeper>, k: nat, t: KernelSleep.Sleeper, deadline: Word,
                     name: KernelSleep.Sleeper -> Tid, s: State, ns: Word, now: Word)
    requires s.sleepers == Named(list, name) && Deadlines(list, name, s.threads) && name(t) in s.threads && !s.threads[name(t)].armed
    requires k <= |list| && deadline == (ns + now) % WORD
    requires (forall j | 0 <= j < k :: list[j].ns <= deadline) && (k < |list| ==> deadline < list[k].ns)
    ensures SetTimeout(s, name(t), ns, now).Ok?
    ensures SetTimeout(s, name(t), ns, now).value.sleepers == Named(KernelSleep.Inserted(list, k, t), name)
  {
    var ts := s.sleepers;
    InsertedIs(s.threads, ts, name(t), deadline, k);
    assert Named(KernelSleep.Inserted(list, k, t), name) == ts[..k] + [name(t)] + ts[k..];
  }

  /** What `SleepList.Cancel` takes out, `Cancel` takes out. */
  lemma CancelIs(list: seq<KernelSleep.Sleeper>, i: nat, name: KernelSleep.Sleeper -> Tid, s: State)
    requires i < |list| && s.sleepers == Named(list, name) && Distinct(s.sleepers) && name(list[i]) in s.threads && s.threads[name(list[i])].armed
    ensures Cancel(s, name(list[i])).sleepers == Named(KernelSleep.Removed(list, i), name)
  {
    RemoveIsWithout(list, i, name);
  }

  /** The prefix that `SleepList.WakeSleepers` takes off is the one that expiry wakes. */
  lemma {:induction false} DuePrefixIs(threads: Threads, ts: seq<Tid>, now: Word, k: nat)
    requires k <= |ts| && (forall i | 0 <= i < k :: DeadlineIn(threads, ts[i]) < now) && (k < |ts| ==> DeadlineIn(threads, ts[k]) >= now)
    ensures DuePrefix(threads, ts, now) == k
    decreases k
  {
    if k > 0 { DuePrefixIs(threads, ts[1..], now, k - 1); }
  }

  lemma WakeIs(list: seq<KernelSleep.Sleeper>, k: nat, name: KernelSleep.Sleeper -> Tid, s: State, now: Word)
    requires WellFormed(s) && s.sleepers == Named(list, name) && Deadlines(list, name, s.threads)
    requires k <= |list| && (forall i | 0 <= i < k :: list[i].ns < now) && (k < |list| ==> list[k].ns >= now)
    ensures WakeSleepers(s, now).Ok? && WakeSleepers(s, now).value.sleepers == Named(list[k..], name)
    ensures RunQueue in s.queues && RunQueue in WakeSleepers(s, now).value.queues
    ensures WakeSleepers(s, now).value.queues[RunQueue] == s.queues[RunQueue] + Named(list[..k], name)
  {
    WakeSleepersExactly(s, now);
    DuePrefixIs(s.threads, s.sleepers, now, k);
    assert Named(list, name)[k..] == Named(list[k..], name) && Named(list, name)[..k] == Named(list[..k], name);
  }
}
