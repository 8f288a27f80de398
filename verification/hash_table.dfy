/** The open-addressing hash table, updated in place, against the finite map it stores. */
module HashTable {
  import opened Arithmetic
  import opened HashSlots

  /** The least number of bits, at least two, that address `n` slots. */
  predicate AreBits(n: nat, bits: nat) {
    bits >= 2 && Pow2(bits) >= n && (bits > 2 ==> Pow2(bits - 1) < n)
  }

  method BitsFor(n: nat) returns (bits: nat)
    ensures AreBits(n, bits)
  {
    var j, x := 0, n;
    while x / 2 != 0
      invariant x * Pow2(j) <= n < (x + 1) * Pow2(j) && (n > 0 ==> x > 0) && (n == 0 ==> j == 0)
    {
      HalfScale(x, Pow2(j), n);
      x := x / 2;
      j := j + 1;
    }
    if n > 0 { Distribute(x + 1, 1, Pow2(j)); }
    assert n > 0 ==> Pow2(j) <= n < 2 * Pow2(j);
    if n > 0 && n != Pow2(j) { j := j + 1; }
    bits := if j > 2 then j else 2;
    assert Pow2(2) == 2 * Pow2(1) == 4;
    if j <= 2 { PowMonotone(j, 2); }
  }

  lemma AreBitsUnique(n: nat, a: nat, b: nat)
    requires AreBits(n, a) && AreBits(n, b)
    ensures a == b
  {
    if a < b { PowMonotone(a, b - 1); }
    if b < a { PowMonotone(b, a - 1); }
  }

  lemma PowStrict(a: nat, b: nat)
    requires a != b
    ensures Pow2(a) < Pow2(b) <==> a < b
    ensures Pow2(a) != Pow2(b)
  {
    if a < b { PowMonotone(a + 1, b); } else { PowMonotone(b + 1, a); }
  }

  lemma Distribute(a: int, b: int, p: int)
    ensures a * p == b * p + (a - b) * p
  {
  }

  lemma HalfScale(x: nat, p: nat, n: nat)
    requires x * p <= n < (x + 1) * p
    ensures (x / 2) * (2 * p) <= n < (x / 2 + 1) * (2 * p)
  {
    var h := x / 2;
    Distribute(x, 2 * h, p);
    Distribute(h + 1, h, 2 * p);
    Distribute(x + 1, x, p);
    assert h * (2 * p) == (2 * h) * p;
  }

  /** `realloc`: the common prefix is kept. */
  method Realloc<K(0), V(0)>(a: array<Entry<K, V>>, n: nat) returns (b: array<Entry<K, V>>)
    ensures fresh(b) && b.Length == n
    ensures forall i | 0 <= i < a.Length && i < n :: b[i] == a[i]
  {
    b := new Entry<K, V>[n];
    for i := 0 to n
      invariant forall x | 0 <= x < i && x < a.Length :: b[x] == a[x]
    {
      if i < a.Length { b[i] := a[i]; }
    }
  }

  /** `realloc` of the entries of a table, to any length that covers its marks. */
  method ReallocKeys<K(!new, 0), V(!new, 0)>(es: array<Entry<K, V>>, n: nat, ghost us: seq<bool>, ghost home: (K, nat) -> nat,
                                             ghost bits: nat, ghost at: map<K, nat>, ghost m: map<K, V>)
    returns (b: array<Entry<K, V>>)
    requires Holds(es[..], us, home, bits, at, m) && |us| <= n
    ensures fresh(b) && b.Length == n && Holds(b[..], us, home, bits, at, m)
  {
    b := Realloc(es, n);
    HoldsPrefix(es[..], us, home, bits, at, m, b[..]);
  }

  /** The first free slot on the probe path of key `k`. */
  method FindFree<K, V>(es: array<Entry<K, V>>, nu: array<bool>, home: (K, nat) -> nat, bits: nat, k: K) returns (i: nat)
    requires home(k, bits) < nu.Length && Count(nu[..]) < nu.Length
    ensures i < nu.Length && !nu[i] && Run(nu[..], home(k, bits), i)
  {
    CountBound(nu[..]);
    ghost var free: nat :| free < nu.Length && !nu[..][free];
    i := home(k, bits);
    while nu[i]
      invariant i < nu.Length && Run(nu[..], home(k, bits), i)
      invariant Dist(home(k, bits), i, nu.Length) <= Dist(home(k, bits), free, nu.Length)
      decreases Dist(home(k, bits), free, nu.Length) - Dist(home(k, bits), i, nu.Length)
    {
      i := Succ(i, nu.Length);
    }
  }

  /** Place `key` in its slot; the entry that was there comes into hand. */
  method Place<K(!new), V>(es: array<Entry<K, V>>, ou: array<bool>, nu: array<bool>, home: (K, nat) -> nat, bits: nat,
                           key: Entry<K, V>) returns (i: nat, kicked: bool, next: Entry<K, V>)
    requires ou != nu && nu.Length <= es.Length && ou.Length <= es.Length
    requires home(key.key, bits) < nu.Length && Count(nu[..]) < nu.Length
    modifies es, ou, nu
    ensures Fits(old(Stage(es[..], ou[..], nu[..])), home, bits, key, i)
    ensures Stage(es[..], ou[..], nu[..]) == Put(old(Stage(es[..], ou[..], nu[..])), i, key)
    ensures kicked == !Vacant(old(Stage(es[..], ou[..], nu[..])), i)
    ensures kicked ==> next == old(es[..])[i]
  {
    i := FindFree(es, nu, home, bits, key.key);
    nu[i] := true;
    kicked, next := i < ou.Length && ou[i], es[i];
    if kicked { ou[i] := false; }
    es[i] := key;
  }

  /** The kick-out process: place `e`, then whatever it displaces, until an entry lands in a vacant slot. */
  method Settle<K(!new), V>(es: array<Entry<K, V>>, ou: array<bool>, nu: array<bool>, home: (K, nat) -> nat, bits: nat,
                            e: Entry<K, V>, ghost at: map<K, nat>, ghost all: map<K, V>, ghost c: nat)
    returns (ghost at': map<K, nat>)
    requires ou != nu && nu.Length <= es.Length && ou.Length <= es.Length
    requires Carrying(Stage(es[..], ou[..], nu[..]), home, bits, at, e, all, c)
    requires InRange(home) && nu.Length == Pow2(bits) && c <= nu.Length
    modifies es, ou, nu
    ensures Settled(Stage(es[..], ou[..], nu[..]), home, bits, at', all, c)
    ensures forall i | 0 <= i < ou.Length && !old(ou[i]) :: !ou[i]
  {
    var key, kicked := e, true;
    at' := at;
    while kicked
      invariant kicked ==> Carrying(Stage(es[..], ou[..], nu[..]), home, bits, at', key, all, c)
      invariant !kicked ==> Settled(Stage(es[..], ou[..], nu[..]), home, bits, at', all, c)
      invariant forall i | 0 <= i < ou.Length && !old(ou[i]) :: !ou[i]
      decreases kicked, Count(ou[..])
    {
      ghost var s, key0 := Stage(es[..], ou[..], nu[..]), key;
      var i;
      i, kicked, key := Place(es, ou, nu, home, bits, key);
      if kicked {
        CarryKicks(s, home, bits, at', key0, all, c, i);
        at' := (at' - {key.key})[key0.key := i];
      } else {
        CarryLands(s, home, bits, at', key0, all, c, i);
        at' := at'[key0.key := i];
      }
    }
  }

  /** Take up the entry in slot `j`, still marked old, and settle it. */
  method MoveOne<K(!new), V(!new)>(es: array<Entry<K, V>>, ou: array<bool>, nu: array<bool>, home: (K, nat) -> nat,
                                   bits: nat, j: nat, ghost at: map<K, nat>, ghost all: map<K, V>, ghost c: nat)
    returns (ghost at': map<K, nat>)
    requires ou != nu && nu.Length <= es.Length && j < ou.Length <= es.Length && ou[j]
    requires Settled(Stage(es[..], ou[..], nu[..]), home, bits, at, all, c)
    requires InRange(home) && nu.Length == Pow2(bits) && c <= nu.Length
    modifies es, ou, nu
    ensures Settled(Stage(es[..], ou[..], nu[..]), home, bits, at', all, c)
    ensures !ou[j] && forall i | 0 <= i < ou.Length && !old(ou[i]) :: !ou[i]
  {
    ghost var s := Stage(es[..], ou[..], nu[..]);
    var key := es[j];
    CarryStarts(s, home, bits, at, all, c, j);
    ou[j] := false;
    assert ou[..] == s.ou[j := false];
    at' := Settle(es, ou, nu, home, bits, key, at - {key.key}, all, c);
  }

  /** The rehash: every entry still marked old is taken up and settled. */
  method MoveAll<K(!new), V(!new)>(es: array<Entry<K, V>>, ou: array<bool>, nu: array<bool>, home: (K, nat) -> nat,
                                   ghost oldBits: nat, bits: nat, ghost at: map<K, nat>, ghost all: map<K, V>)
    returns (ghost at': map<K, nat>)
    requires ou != nu && nu.Length <= es.Length && ou.Length <= es.Length
    requires Holds(es[..], ou[..], home, oldBits, at, all) && forall i | 0 <= i < nu.Length :: !nu[i]
    requires InRange(home) && nu.Length == Pow2(bits) && Count(ou[..]) <= nu.Length
    modifies es, ou, nu
    ensures Holds(es[..], nu[..], home, bits, at', all)
    ensures Count(nu[..]) == old(Count(ou[..])) && forall i | 0 <= i < ou.Length :: !ou[i]
  {
    ghost var c := Count(ou[..]);
    NothingMoved(es[..], ou[..], nu[..], home, bits, at, all);
    at' := at;
    for j := 0 to ou.Length
      invariant Settled(Stage(es[..], ou[..], nu[..]), home, bits, at', all, c)
      invariant forall i | 0 <= i < j :: !ou[i]
    {
      ghost var was := ou[..];
      assert forall i | 0 <= i < j :: !was[i];
      if ou[j] { at' := MoveOne(es, ou, nu, home, bits, j, at', all, c); }
      forall i | 0 <= i <= j ensures !ou[i] {
        if i < j { assert !was[i]; }
      }
    }
    AllSettled(Stage(es[..], ou[..], nu[..]), home, bits, at', all, c);
  }

  /** Expanding: the entries are moved to a longer array first, and rehashed there. */
  method Grown<K(!new, 0), V(!new, 0)>(es: array<Entry<K, V>>, ou: array<bool>, home: (K, nat) -> nat, ghost oldBits: nat,
                                       bits: nat, ghost at: map<K, nat>, ghost m: map<K, V>)
    returns (es': array<Entry<K, V>>, nu: array<bool>, ghost at': map<K, nat>)
    requires Holds(es[..], ou[..], home, oldBits, at, m) && es.Length == ou.Length < Pow2(bits) && InRange(home)
    requires Count(ou[..]) <= Pow2(bits)
    modifies ou
    ensures fresh(es') && fresh(nu) && es'.Length == nu.Length == Pow2(bits)
    ensures Holds(es'[..], nu[..], home, bits, at', m) && Count(nu[..]) == old(Count(ou[..]))
  {
    nu := new bool[Pow2(bits)](_ => false);
    es' := ReallocKeys(es, Pow2(bits), ou[..], home, oldBits, at, m);
    at' := MoveAll(es', ou, nu, home, oldBits, bits, at, m);
  }

  /** Shrinking: the entries are rehashed in place, then moved to a shorter array. */
  method Shrunk<K(!new, 0), V(!new, 0)>(es: array<Entry<K, V>>, ou: array<bool>, home: (K, nat) -> nat, ghost oldBits: nat,
                                        bits: nat, ghost at: map<K, nat>, ghost m: map<K, V>)
    returns (es': array<Entry<K, V>>, nu: array<bool>, ghost at': map<K, nat>)
    requires Holds(es[..], ou[..], home, oldBits, at, m) && es.Length == ou.Length >= Pow2(bits) && InRange(home)
    requires Count(ou[..]) <= Pow2(bits)
    modifies es, ou
    ensures fresh(es') && fresh(nu) && es'.Length == nu.Length == Pow2(bits)
    ensures Holds(es'[..], nu[..], home, bits, at', m) && Count(nu[..]) == old(Count(ou[..]))
    ensures forall i | 0 <= i < ou.Length :: !ou[i]
  {
    nu := new bool[Pow2(bits)](_ => false);
    at' := MoveAll(es, ou, nu, home, oldBits, bits, at, m);
    es' := ReallocKeys(es, Pow2(bits), nu[..], home, bits, at', m);
  }

  method Fill<K(!new), V(!new)>(es: array<Entry<K, V>>, us: array<bool>, ghost home: (K, nat) -> nat, ghost bits: nat,
                                ghost at: map<K, nat>, ghost m: map<K, V>, i: nat, e: Entry<K, V>)
    requires Holds(es[..], us[..], home, bits, at, m) && i < us.Length && !us[i] && e.key !in m
    requires home(e.key, bits) < us.Length && Passed(es[..], us[..], home(e.key, bits), i, e.key)
    modifies es, us
    ensures Holds(es[..], us[..], home, bits, at[e.key := i], m[e.key := e.val])
    ensures es[i] == e && us[i] && Count(us[..]) == old(Count(us[..])) + 1
  {
    HoldsAdd(es[..], us[..], home, bits, at, m, i, e);
    CountSet(us[..], i, true);
    ghost var es0, us0 := es[..], us[..];
    es[i] := e;
    us[i] := true;
    assert es[..] == es0[i := e] && us[..] == us0[i := true];
  }

  method ClearMarks(us: array<bool>)
    modifies us
    ensures Count(us[..]) == 0 && forall x | 0 <= x < us.Length :: !us[x]
  {
    for j := 0 to us.Length
      invariant forall x | 0 <= x < j :: !us[x]
    {
      us[j] := false;
    }
    CountBound(us[..]);
  }

  /** One round of a deletion: the entry after `j` moves into the hole `i` or stays. */
  method Shift<K(!new), V(!new)>(es: array<Entry<K, V>>, us: array<bool>, home: (K, nat) -> nat, bits: nat, i: nat, ghost j: nat, j': nat,
                                 ghost at: map<K, nat>, ghost m: map<K, V>) returns (i': nat, ghost at': map<K, nat>)
    requires Deleting(es[..], us[..], home, bits, at, m, i, j) && j' == Succ(j, us.Length) && j' != i && us[j']
    modifies es
    ensures Deleting(es[..], us[..], home, bits, at', m, i', j')
  {
    i', at' := i, at;
    if MustMove(i, j', home(es[j'].key, bits)) {
      DeleteMoves(es[..], us[..], home, bits, at, m, i, j);
      at' := at[es[j'].key := i];
      ghost var es0 := es[..];
      es[i] := es[j'];
      assert es[..] == es0[i := es0[j']];
      i' := j';
    } else {
      DeleteSkips(es[..], us[..], home, bits, at, m, i, j);
    }
  }

  /** Shifting entries back until the hole is at the end of its run. */
  method ShiftAll<K(!new), V(!new)>(es: array<Entry<K, V>>, us: array<bool>, home: (K, nat) -> nat, bits: nat, slot: nat,
                                    ghost free: nat, ghost at: map<K, nat>, ghost m: map<K, V>)
    returns (i: nat, ghost j': nat, ghost at': map<K, nat>)
    requires Deleting(es[..], us[..], home, bits, at, m, slot, slot) && free < us.Length && !us[free]
    modifies es
    ensures Deleting(es[..], us[..], home, bits, at', m, i, j') && (Succ(j', us.Length) == i || !us[Succ(j', us.Length)])
  {
    ghost var us0 := us[..];
    assert !us0[free];
    i, j', at' := slot, slot, at;
    var j := Succ(slot, us.Length);
    while j != i && us[j]
      invariant us[..] == us0 && j' < us.Length && j == Succ(j', us.Length) && us0[j']
      invariant Deleting(es[..], us0, home, bits, at', m, i, j')
      decreases Dist(j', free, us.Length)
    {
      Nearer(us0, j', free);
      i, at' := Shift(es, us, home, bits, i, j', j, at', m);
      j' := j;
      j := Succ(j, us.Length);
    }
  }

  /** Backward-shift deletion of the entry in slot `slot`. */
  method Remove<K(!new), V(!new)>(es: array<Entry<K, V>>, us: array<bool>, home: (K, nat) -> nat, bits: nat, slot: nat,
                                  ghost at: map<K, nat>, ghost m: map<K, V>) returns (ghost at': map<K, nat>)
    requires Holds(es[..], us[..], home, bits, at, m) && slot < us.Length && us[slot] && Count(us[..]) < us.Length
    modifies es, us
    ensures Holds(es[..], us[..], home, bits, at', m - {old(es[slot].key)})
    ensures old(es[slot].key) in m && Count(us[..]) == old(Count(us[..])) - 1
  {
    ghost var k, us0 := es[slot].key, us[..];
    CountBound(us0);
    ghost var free: nat :| free < us.Length && !us0[free];
    DeleteStarts(es[..], us0, home, bits, at, m, slot);
    var i;
    ghost var j;
    i, j, at' := ShiftAll(es, us, home, bits, slot, free, at - {k}, m - {k});
    DeleteEnds(es[..], us0, home, bits, at', m - {k}, i, j);
    ghost var es1 := es[..];
    us[i] := false;
    assert us[..] == us0[i := false] && es[..] == es1;
  }

  /** A table may not take another entry before it has grown: three quarters of its slots are used. */
  predicate Crowded(count: nat, slots: nat) { 4 * count >= 3 * slots }

  lemma CrowdedExact(count: nat, slots: nat, bits: nat)
    requires if slots == 0 then bits == 0 else bits >= 2 && slots == Pow2(bits)
    ensures Crowded(count, slots) <==> count >= MaxCount(slots)
  {
    if slots > 0 {
      assert Pow2(bits) == 2 * Pow2(bits - 1) == 4 * Pow2(bits - 2);
      Quarters(count, Pow2(bits - 2));
    }
  }

  lemma Quarters(count: nat, q: nat)
    ensures Crowded(count, 4 * q) <==> count >= MaxCount(4 * q)
  {
    assert 4 * q / 2 == 2 * q && 4 * q / 4 == q;
  }

  /** Whether a resize to `newBits` loses the table: the rehash succeeds but the final `realloc` does not. */
  predicate Loses(slots: nat, bits: nat, count: nat, newBits: nat, mallocOk: bool, reallocOk: bool) {
    && newBits != bits && Pow2(newBits) < slots && 0 < count <= MaxCount(Pow2(newBits))
    && mallocOk && !reallocOk
  }

  class HashMap<K(!new, ==, 0), V(!new, 0)> {
    const home: (K, nat) -> nat
    var bits: nat
    var count: nat
    var keys: array<Entry<K, V>>       // no slots: nothing allocated yet
    var used: array<bool>
    ghost var at: map<K, nat>
    ghost var model: map<K, V>

    ghost predicate Valid()
      reads this, keys, used
    {
      && InRange(home) && keys.Length == used.Length
      && (if keys.Length == 0 then bits == 0 else bits >= 2 && keys.Length == Pow2(bits))
      && Holds(keys[..], used[..], home, bits, at, model)
      && Count(used[..]) == count == |model| && count <= MaxCount(keys.Length)
    }

    constructor (home: (K, nat) -> nat)
      requires InRange(home)
      ensures Valid() && model == map[] && fresh(keys) && fresh(used) && this.home == home && keys.Length == 0
    {
      this.home := home;
      bits, count := 0, 0;
      keys, used := new Entry<K, V>[0], new bool[0];
      at, model := map[], map[];
    }

    /** The slot of `k`, or the number of slots if it has none. */
    method Get(k: K) returns (i: nat)
      requires Valid()
      ensures i <= keys.Length
      ensures i < keys.Length <==> k in model
      ensures i < keys.Length ==> used[i] && keys[i] == Entry(k, model[k])
    {
      if keys.Length == 0 { return 0; }
      var n, last := keys.Length, home(k, bits);
      i := last;
      while used[i] && keys[i].key != k
        invariant last < n && i < n && Passed(keys[..], used[..], last, i, k)
        decreases n - Dist(last, i, n)
      {
        PassedNext(keys[..], used[..], last, i, k);
        i := Succ(i, n);
        if i == last {
          FullMisses(keys[..], used[..], at, k);
          return n;
        }
      }
      if !used[i] {
        AbsentBefore(keys[..], used[..], at, home, bits, k, i);
        return n;
      }
      assert Marked([], used[..], i);
    }

    /** Changing the number of slots.  `newBits` is the size asked for; the two flags are the allocator's answers. */
    method Resize(newSlots: nat, mallocOk: bool, reallocOk: bool) returns (r: int, newBits: nat)
      requires Valid()
      modifies this, keys, used
      ensures AreBits(newSlots, newBits)
      ensures keys == old(keys) || fresh(keys)
      ensures used == old(used) || fresh(used)
      ensures !Loses(old(keys.Length), old(bits), old(count), newBits, mallocOk, reallocOk) ==> Valid() && model == old(model)
      ensures Loses(old(keys.Length), old(bits), old(count), newBits, mallocOk, reallocOk) ==>
                !Valid() && r == -1 && forall i | 0 <= i < used.Length :: !used[i]
      ensures r == 0 || r == -1
      ensures newBits == old(bits) || old(count) > MaxCount(Pow2(newBits)) ==> r == 0 && bits == old(bits)
      ensures newBits != old(bits) && old(count) <= MaxCount(Pow2(newBits)) ==>
                (r == 0 <==> mallocOk && reallocOk) && bits == (if r == 0 then newBits else old(bits))
      ensures count == old(count) && (bits == old(bits) ==> keys.Length == old(keys.Length))
    {
      newBits := BitsFor(newSlots);
      if newBits == bits || count > MaxCount(Pow2(newBits)) { return 0, newBits; }
      if !mallocOk { return -1, newBits; }
      r := Rehash(newBits, reallocOk);
    }

    /** The rest of a resize, once the new marks are allocated. */
    method Rehash(newBits: nat, reallocOk: bool) returns (r: int)
      requires Valid() && newBits != bits && newBits >= 2 && count <= MaxCount(Pow2(newBits))
      modifies this, keys, used
      ensures keys == old(keys) || fresh(keys)
      ensures used == old(used) || fresh(used)
      ensures !Loses(old(keys.Length), old(bits), old(count), newBits, true, reallocOk) ==> Valid() && model == old(model)
      ensures Loses(old(keys.Length), old(bits), old(count), newBits, true, reallocOk) ==>
                !Valid() && forall i | 0 <= i < used.Length :: !used[i]
      ensures r == (if reallocOk then 0 else -1) && bits == (if r == 0 then newBits else old(bits))
      ensures count == old(count) && (r == -1 ==> keys.Length == old(keys.Length))
    {
      if keys.Length > 0 { PowStrict(bits, newBits); }
      if keys.Length < Pow2(newBits) {
        if !reallocOk { return -1; }
        Expand(newBits);
      } else {
        var ok := Shrink(newBits, reallocOk);
        if !ok { return -1; }
      }
      r := 0;
    }

    method Expand(newBits: nat)
      requires Valid() && newBits >= 2 && keys.Length < Pow2(newBits) && count <= MaxCount(Pow2(newBits))
      modifies this, keys, used
      ensures Valid() && model == old(model) && bits == newBits && count == old(count) && fresh(keys) && fresh(used)
    {
      var newKeys, newUsed;
      ghost var at';
      newKeys, newUsed, at' := Grown(keys, used, home, bits, newBits, at, model);
      keys, used, at, bits := newKeys, newUsed, at', newBits;
    }

    method Shrink(newBits: nat, reallocOk: bool) returns (ok: bool)
      requires Valid() && newBits >= 2 && keys.Length > Pow2(newBits) && count <= MaxCount(Pow2(newBits))
      modifies this, keys, used
      ensures ok == reallocOk && count == old(count)
      ensures ok ==> Valid() && model == old(model) && bits == newBits && fresh(keys) && fresh(used)
      ensures !ok ==> keys == old(keys) && used == old(used) && bits == old(bits)
      ensures !ok ==> forall i | 0 <= i < used.Length :: !used[i]
      ensures !ok ==> (Valid() <==> count == 0) && model == old(model)
    {
      var newKeys, newUsed;
      ghost var at';
      newKeys, newUsed, at' := Shrunk(keys, used, home, bits, newBits, at, model);
      ok := reallocOk;
      if ok {
        keys, used, at, bits := newKeys, newUsed, at', newBits;
      } else {
        CountBound(used[..]);
        assert Count(used[..]) == 0;
        if count == 0 { NothingHeld(keys[..], used[..], home, bits, at, model); }
      }
    }

    /** Where `k` is, or where it would go. */
    method FindSlot(k: K) returns (i: nat)
      requires Valid() && keys.Length > 0
      ensures i < keys.Length && home(k, bits) < used.Length
      ensures used[i] ==> k in model && keys[i] == Entry(k, model[k])
      ensures !used[i] ==> k !in model && Passed(keys[..], used[..], home(k, bits), i, k)
    {
      var n, last := keys.Length, home(k, bits);
      i := last;
      while used[i] && keys[i].key != k
        invariant last < n && i < n && Passed(keys[..], used[..], last, i, k)
        decreases n - Dist(last, i, n)
      {
        PassedNext(keys[..], used[..], last, i, k);
        i := Succ(i, n);
        if i == last {
          NotFull(used[..]);
          break;
        }
      }
      if used[i] {
        assert Marked([], used[..], i);
      } else {
        AbsentBefore(keys[..], used[..], at, home, bits, k, i);
      }
    }

    /** Growing a table that has reached its load bound. */
    method MakeRoom(mallocOk: bool, reallocOk: bool) returns (r: int)
      requires Valid()
      modifies this, keys, used
      ensures Valid() && model == old(model) && (keys == old(keys) || fresh(keys)) && (used == old(used) || fresh(used))
      ensures r == if Crowded(old(count), old(keys.Length)) && !(mallocOk && reallocOk) then -1 else 0
      ensures r == -1 ==> keys.Length == old(keys.Length)
      ensures r == 0 ==> count < MaxCount(keys.Length)
      ensures r == 0 && Crowded(old(count), old(keys.Length)) ==>
                keys.Length == if old(keys.Length) == 0 then 4 else 2 * old(keys.Length)
      ensures !Crowded(old(count), old(keys.Length)) ==> keys == old(keys) && bits == old(bits)
    {
      r := 0;
      CrowdedExact(count, keys.Length, bits);
      if count >= MaxCount(keys.Length) {
        var n, newBits := keys.Length, 0;
        ghost var bits0 := bits;
        r, newBits := Resize(n + 1, mallocOk, reallocOk);
        NextBits(n, bits0, newBits);
      }
    }

    /** Adding `e` unless its key is there.  `absent`: 1 added, 0 present already, -1 no memory to grow. */
    method Put(e: Entry<K, V>, mallocOk: bool, reallocOk: bool) returns (i: nat, absent: int)
      requires Valid()
      modifies this, keys, used
      ensures Valid() && (keys == old(keys) || fresh(keys)) && (used == old(used) || fresh(used))
      ensures absent == if Crowded(old(count), old(keys.Length)) && !(mallocOk && reallocOk) then -1
                        else if e.key in old(model) then 0 else 1
      ensures model == if absent == 1 then old(model)[e.key := e.val] else old(model)
      ensures !Crowded(old(count), old(keys.Length)) ==> keys == old(keys) && bits == old(bits)
      ensures absent != -1 && Crowded(old(count), old(keys.Length)) ==>
                keys.Length == if old(keys.Length) == 0 then 4 else 2 * old(keys.Length)
      ensures absent == -1 ==> i == keys.Length == old(keys.Length)
      ensures absent != -1 ==> i < keys.Length && used[i] && keys[i] == Entry(e.key, model[e.key])
    {
      var r := MakeRoom(mallocOk, reallocOk);
      i, absent := PutHere(e, r);
    }

    /** Adding to a table that has room, which it has not if growing it failed. */
    method PutHere(e: Entry<K, V>, r: int) returns (i: nat, absent: int)
      requires Valid() && (r >= 0 ==> count < MaxCount(keys.Length))
      modifies this`count, this`at, this`model, keys, used
      ensures Valid() && keys == old(keys) && used == old(used) && bits == old(bits)
      ensures absent == (if r < 0 then -1 else if e.key in old(model) then 0 else 1)
      ensures model == if absent == 1 then old(model)[e.key := e.val] else old(model)
      ensures r < 0 ==> i == keys.Length
      ensures r >= 0 ==> i < keys.Length && used[i] && keys[i] == Entry(e.key, model[e.key])
    {
      if r < 0 { return keys.Length, -1; }
      i := FindSlot(e.key);
      if used[i] {
        absent := 0;
      } else {
        Insert(i, e);
        absent := 1;
      }
    }

    /** Filling the free slot a probe ended in. */
    method Insert(i: nat, e: Entry<K, V>)
      requires Valid() && i < keys.Length && !used[i] && count < MaxCount(keys.Length)
      requires home(e.key, bits) < used.Length && Passed(keys[..], used[..], home(e.key, bits), i, e.key) && e.key !in model
      modifies this`count, this`at, this`model, keys, used
      ensures Valid() && model == old(model)[e.key := e.val] && used[i] && keys[i] == e
    {
      Fill(keys, used, home, bits, at, model, i, e);
      count, at, model := count + 1, at[e.key := i], model[e.key := e.val];
    }

    /** Deleting the entry in slot `i`, a used one. */
    method Del(i: nat) returns (r: int)
      requires Valid() && (keys.Length > 0 ==> i < keys.Length && used[i])
      modifies this`count, this`at, this`model, keys, used
      ensures Valid() && r == if keys.Length == 0 then 0 else 1
      ensures keys.Length == 0 ==> model == old(model)
      ensures keys.Length > 0 ==> old(keys[i].key) in old(model) && model == old(model) - {old(keys[i].key)}
    {
      if keys.Length == 0 { return 0; }
      ghost var k := keys[i].key;
      ghost var at' := Remove(keys, used, home, bits, i, at, model);
      SizeLess(model, k);
      count, at, model := count - 1, at', model - {k};
      r := 1;
    }

    method Clear()
      requires Valid()
      modifies this`count, this`at, this`model, used
      ensures Valid() && model == map[]
    {
      ClearMarks(used);
      NothingHeld(keys[..], used[..], home, bits, map[], map[]);
      count, at, model := 0, map[], map[];
    }
  }

  lemma SizeLess<K, V>(m: map<K, V>, k: K)
    requires k in m
    ensures |m - {k}| == |m| - 1
  {
    assert m == (m - {k})[k := m[k]];
  }

  lemma NotFull(us: seq<bool>)
    requires forall x: nat | x < |us| :: us[x]
    ensures Count(us) == |us|
  {
    CountBound(us);
  }

  /** Asking for one slot more than a full-size table has asks for the next size. */
  lemma NextBits(n: nat, bits: nat, newBits: nat)
    requires AreBits(n + 1, newBits) && if n == 0 then bits == 0 else bits >= 2 && n == Pow2(bits)
    ensures newBits == (if n == 0 then 2 else bits + 1) && MaxCount(n) < MaxCount(Pow2(newBits)) && n < Pow2(newBits)
    ensures Pow2(newBits) == if n == 0 then 4 else 2 * n
  {
    if n == 0 {
      assert Pow2(2) == 2 * Pow2(1) == 4;
      AreBitsUnique(1, newBits, 2);
    } else {
      PowMonotone(2, bits);
      assert Pow2(2) == 2 * Pow2(1) == 4;
      AreBitsUnique(n + 1, newBits, bits + 1);
    }
  }

  // ---------------------------------------------------------------- the library's own hash scaling

  /** Fibonacci hashing of `x`, a hash mixed with the table's salt, into `Pow2(bits)` slots. */
  function Fibonacci(x: nat, bits: nat): nat {
    if 1 <= bits <= 32 then Shifted(x * 2654435769 % 0x1_0000_0000, Pow2(32 - bits)) else 0
  }

  function Shifted(x: nat, q: nat): nat
    requires q > 0
  {
    x / q
  }

  lemma {:induction false} PowSum(a: nat, b: nat)
    ensures Pow2(a + b) == Pow2(a) * Pow2(b)
    decreases b
  {
    if b > 0 { PowSum(a, b - 1); }
  }

  lemma QuotientBound(x: nat, p: nat, q: nat)
    requires q > 0 && x < p * q
    ensures Shifted(x, q) < p
  {
    var d := x / q;
    assert x >= q * d;
    if d >= p { ScaleMonotone(p, d, q); }
  }

  lemma ScaleMonotone(a: nat, b: nat, q: nat)
    requires a <= b
    ensures q * a <= q * b
  {
  }

  lemma TwoTo32()
    ensures Pow2(32) == 0x1_0000_0000
  {
    assert Pow2(8) == 0x100;
    PowSum(8, 8);
    PowSum(16, 8);
    PowSum(24, 8);
  }

  lemma FibonacciBound(x: nat, bits: nat)
    ensures Fibonacci(x, bits) < Pow2(bits)
  {
    if 1 <= bits <= 32 {
      PowSum(bits, 32 - bits);
      TwoTo32();
      QuotientBound(x * 2654435769 % 0x1_0000_0000, Pow2(bits), Pow2(32 - bits));
    }
  }

  /** It is one of the hashes the table is proved for, whatever the keys' own hash. */
  lemma FibonacciInRange<K(!new)>(mixed: K -> nat)
    ensures InRange((k, bits) => Fibonacci(mixed(k), bits))
  {
    forall k: K, bits: nat ensures Fibonacci(mixed(k), bits) < Pow2(bits) { FibonacciBound(mixed(k), bits); }
  }

  // ---------------------------------------------------------------- a table that is lost

  /** An eight-slot table with one entry. */
  method OneEntry() returns (t: HashMap<int, int>)
    ensures t.Valid() && fresh(t) && fresh(t.keys) && fresh(t.used) && t.model == map[1 := 2]
    ensures t.keys.Length == 8 && t.bits == 3
  {
    t := new HashMap<int, int>((k, bits) => 0);
    assert Pow2(3) == 8;
    var r, bits := t.Resize(8, true, true);
    AreBitsUnique(8, bits, 3);
    var i, absent := t.Put(Entry(1, 2), true, true);
  }

  /** Shrunk to four slots when the last `realloc` fails, the table loses its entry. */
  method LostTable() returns (t: HashMap<int, int>)
    ensures !t.Valid() && forall i | 0 <= i < t.used.Length :: !t.used[i]
  {
    t := OneEntry();
    assert Pow2(2) == 4;
    var r, bits := t.Resize(4, true, false);
    AreBitsUnique(4, bits, 2);
  }
}
