/** The sleep list: sorted by deadline, each sleeper holding a pointer back to the slot that points at it. */
module KernelSleep {

  /** A place a pointer to a sleeper is kept: the head of the list, or the `next` field of a sleeper. */
  datatype Slot = Nowhere | Head | NextOf(node: Sleeper)

  class Sleeper {
    var next: Sleeper?
    var prev: Slot
    var ns: nat

    constructor ()
      ensures next == null && prev == Nowhere
    {
      next, prev, ns := null, Nowhere, 0;
    }
  }

  /** Sleeper `i` of the list knows the slot before it and the sleeper after it, whose deadline is no earlier. */
  ghost predicate Linked(s: seq<Sleeper>, i: int)
    requires 0 <= i < |s|
    reads s[i]
  {
    && s[i].prev == (if i == 0 then Head else NextOf(s[i - 1]))
    && s[i].next == (if i + 1 == |s| then null else s[i + 1])
  }

  ghost predicate Sorted(s: seq<Sleeper>)
    reads s
  {
    forall i, j | 0 <= i < j < |s| :: s[i].ns <= s[j].ns
  }

  ghost predicate Cleared(t: Sleeper)
    reads t
  {
    t.next == null && t.prev == Nowhere && t.ns == 0
  }

  class SleepList {
    var head: Sleeper?
    ghost var list: seq<Sleeper>

    ghost predicate Valid()
      reads this, list
    {
      && head == (if list == [] then null else list[0])
      && (forall i, j | 0 <= i < j < |list| :: list[i] != list[j])
      && (forall i | 0 <= i < |list| :: Linked(list, i))
      && Sorted(list)
    }

    constructor ()
      ensures Valid() && list == []
    {
      head, list := null, [];
    }

    /** Finding the slot of the first sleeper whose deadline is later. */
    method FindSlot(timeout: nat) returns (slot: Slot, next: Sleeper?, ghost k: nat)
      requires Valid()
      ensures k <= |list| && slot == (if k == 0 then Head else NextOf(list[k - 1]))
      ensures next == (if k == |list| then null else list[k])
      ensures (forall j | 0 <= j < k :: list[j].ns <= timeout) && (k < |list| ==> timeout < list[k].ns)
    {
      slot, next, k := Head, head, 0;
      while next != null && timeout >= next.ns
        invariant k <= |list| && slot == (if k == 0 then Head else NextOf(list[k - 1]))
        invariant next == (if k == |list| then null else list[k])
        invariant forall j | 0 <= j < k :: list[j].ns <= timeout
        decreases |list| - k
      {
        assert Linked(list, k);
        slot, next, k := NextOf(next), next.next, k + 1;
      }
    }

    /** Arming a timeout: the sleeper goes after those whose deadline is no later than its own. */
    method SetTimeout(t: Sleeper, timeout: nat) returns (ghost k: nat)
      requires Valid() && t.prev == Nowhere && t.next == null && t !in list
      modifies this, list, t
      ensures Valid() && k <= |old(list)| && list == Inserted(old(list), k, t) && t.ns == timeout
      ensures (forall j | 0 <= j < k :: old(list)[j].ns <= timeout) && (k < |old(list)| ==> timeout < old(list)[k].ns)
      ensures forall i | 0 <= i < |old(list)| :: old(list)[i].ns == old(list[i].ns)
    {
      ghost var s := list;
      t.ns := timeout;
      assert forall i | 0 <= i < |s| :: s[i].ns == old(s[i].ns);
      var slot, next;
      slot, next, k := FindSlot(timeout);
      Link(t, slot, next, k);
      InsertedSorted(s, k, t);
    }

    /** Putting `t` between a slot and the sleeper it points at. */
    method Link(t: Sleeper, slot: Slot, next: Sleeper?, ghost k: nat)
      requires Valid() && t !in list && k <= |list| && slot == (if k == 0 then Head else NextOf(list[k - 1]))
      requires next == (if k == |list| then null else list[k])
      modifies this, list`next, list`prev, t`next, t`prev
      ensures list == Inserted(old(list), k, t) && head == list[0]
      ensures forall i | 0 <= i < |list| :: Linked(list, i)
      ensures forall i, j | 0 <= i < j < |list| :: list[i] != list[j]
      ensures t.ns == old(t.ns) && forall i | 0 <= i < |old(list)| :: old(list)[i].ns == old(list[i].ns)
    {
      ghost var s := list;
      if next != null { next.prev := NextOf(t); }
      t.next := next;
      t.prev := slot;
      match slot {
        case Head => head := t;
        case NextOf(n) => n.next := t;
      }
      list := Inserted(s, k, t);
      forall i | 0 <= i < |list| ensures Linked(list, i) {
        if i != k {
          var j := if i < k then i else i - 1;
          assert list[i] == s[j] && old(Linked(s, j));
        }
      }
    }

    /** Taking `t` out of the links. */
    method Unlink(t: Sleeper, ghost i: nat)
      requires Valid() && i < |list| && list[i] == t
      modifies this, list`next, list`prev
      ensures list == Removed(old(list), i) && head == (if list == [] then null else list[0])
      ensures forall k | 0 <= k < |list| :: Linked(list, k)
      ensures t.next == null && t.prev == Nowhere
    {
      ghost var s := list;
      assert Linked(s, i) && (i > 0 ==> Linked(s, i - 1)) && (i + 1 < |s| ==> Linked(s, i + 1));
      if t.next != null { t.next.prev := t.prev; }
      match t.prev {
        case Head => head := t.next;
        case NextOf(n) => n.next := t.next;
      }
      t.next, t.prev := null, Nowhere;
      list := Removed(s, i);
      forall k | 0 <= k < |list| ensures Linked(list, k) {
        var j := if k < i then k else k + 1;
        assert list[k] == s[j] && s[j] != s[i] && old(Linked(s, j));
      }
    }

    /** Disarming a timeout: the armed sleeper `i` of the list leaves it. */
    method Cancel(t: Sleeper, ghost i: nat)
      requires Valid() && i < |list| && list[i] == t
      modifies this, list
      ensures list == Removed(old(list), i) && Valid() && Cleared(t)
    {
      ghost var s := list;
      Unlink(t, i);
      assert forall k | 0 <= k < |s| :: s[k].ns == old(s[k].ns);
      t.ns := 0;
      forall k | 0 <= k < |list| ensures Linked(list, k) && list[k] != t { assert list[k] == s[if k < i then k else k + 1]; }
    }

    /** Clearing the sleepers whose deadline has passed; the first that has not is left as it is. */
    method ClearDue(now: nat) returns (queued: Sleeper?, ghost k: nat)
      requires Valid()
      modifies list
      ensures k <= |list| && queued == (if k == |list| then null else list[k])
      ensures forall i | 0 <= i < k :: old(list[i].ns) < now && Cleared(list[i])
      ensures k < |list| ==> list[k].ns >= now
      ensures forall i | k <= i < |list| :: list[i].ns == old(list[i].ns) && list[i].next == old(list[i].next) && list[i].prev == old(list[i].prev)
    {
      queued, k := head, 0;
      while queued != null && queued.ns < now
        invariant k <= |list| && queued == (if k == |list| then null else list[k])
        invariant forall i | 0 <= i < k :: old(list[i].ns) < now && Cleared(list[i])
        invariant forall i | k <= i < |list| :: list[i].ns == old(list[i].ns) && list[i].next == old(list[i].next) && list[i].prev == old(list[i].prev)
        decreases |list| - k
      {
        assert old(Linked(list, k));
        var next := queued.next;
        queued.next, queued.prev, queued.ns := null, Nowhere, 0;
        queued := next;
        k := k + 1;
      }
    }

    /** Waking the sleepers whose deadline has passed: exactly a prefix of the list, in order. */
    method WakeSleepers(now: nat) returns (ghost k: nat)
      requires Valid()
      modifies this, list
      ensures k <= |old(list)| && list == old(list)[k..] && Valid()
      ensures forall i | 0 <= i < k :: old(list[i].ns) < now && Cleared(old(list)[i])
      ensures forall i | k <= i < |old(list)| :: old(list)[i].ns >= now && old(list)[i].ns == old(list[i].ns)
    {
      ghost var s := list;
      var queued;
      queued, k := ClearDue(now);
      head := queued;
      if queued != null { queued.prev := Head; }
      list := s[k..];
      forall i | 0 <= i < |list| ensures Linked(list, i) { assert list[i] == s[k + i] && old(Linked(s, k + i)); }
      assert forall i | k <= i < |s| :: s[i].ns == old(s[i].ns);
      forall i | k <= i < |s| ensures s[i].ns >= now { if i > k { assert old(s[k].ns) <= old(s[i].ns); } }
    }
  }

  ghost function Removed(s: seq<Sleeper>, i: nat): (r: seq<Sleeper>)
    requires i < |s|
    ensures |r| == |s| - 1 && (forall k | 0 <= k < i :: r[k] == s[k]) && (forall k | i <= k < |r| :: r[k] == s[k + 1])
  {
    s[..i] + s[i + 1..]
  }

  lemma InsertedSorted(s: seq<Sleeper>, k: nat, t: Sleeper)
    requires Sorted(s) && k <= |s| && (forall j | 0 <= j < k :: s[j].ns <= t.ns) && (k < |s| ==> t.ns <= s[k].ns)
    ensures Sorted(Inserted(s, k, t))
  {
    var r := Inserted(s, k, t);
    forall i, j | 0 <= i < j < |r| ensures r[i].ns <= r[j].ns {
      if i == k { assert s[k].ns <= s[j - 1].ns; }
    }
  }

  ghost function Inserted(s: seq<Sleeper>, k: nat, t: Sleeper): (r: seq<Sleeper>)
    requires k <= |s|
    ensures |r| == |s| + 1 && r[k] == t && (forall i | 0 <= i < k :: r[i] == s[i]) && (forall i | k < i < |r| :: r[i] == s[i - 1])
  {
    s[..k] + [t] + s[k..]
  }
}
