/**
  Open addressing on values: slots, the cyclic order they are probed in, and what it means
  for a slot array to represent a finite map with unbroken probe runs.
 */
module HashSlots {
  import opened Arithmetic

  datatype Entry<K, V> = Entry(key: K, val: V)

  /** The greatest number of entries a table of `n` slots may hold. */
  function MaxCount(n: nat): nat { n / 2 + n / 4 }

  // ---------------------------------------------------------------- cyclic order

  function Succ(i: nat, n: nat): (j: nat)
    requires i < n
    ensures j < n
  {
    if i + 1 == n then 0 else i + 1
  }

  /** How many probes lead from slot `h` to slot `i`. */
  function Dist(h: nat, i: nat, n: nat): (d: nat)
    requires h < n && i < n
    ensures d < n
  {
    if h <= i then i - h else i - h + n
  }

  lemma Nearer(us: seq<bool>, j: nat, free: nat)
    requires j < |us| && us[j] && free < |us| && !us[free]
    ensures Dist(Succ(j, |us|), free, |us|) == Dist(j, free, |us|) - 1
  {
  }

  // ---------------------------------------------------------------- counting

  function Count(us: seq<bool>): nat {
    if us == [] then 0 else Count(us[..|us| - 1]) + if us[|us| - 1] then 1 else 0
  }

  lemma {:induction false} CountSet(us: seq<bool>, i: nat, b: bool)
    requires i < |us| && us[i] != b
    ensures Count(us[i := b]) == if b then Count(us) + 1 else Count(us) - 1
  {
    var n := |us| - 1;
    if i == n {
      assert us[i := b][..n] == us[..n];
    } else {
      assert us[i := b][..n] == us[..n][i := b];
      CountSet(us[..n], i, b);
    }
  }

  lemma {:induction false} CountBound(us: seq<bool>)
    ensures Count(us) <= |us|
    ensures Count(us) < |us| ==> exists i: nat :: i < |us| && !us[i]
    ensures (forall i | 0 <= i < |us| :: !us[i]) ==> Count(us) == 0
    ensures Count(us) == 0 ==> forall i | 0 <= i < |us| :: !us[i]
  {
    if us != [] {
      var n := |us| - 1;
      CountBound(us[..n]);
      if Count(us) < |us| && us[n] {
        var i: nat :| i < n && !us[..n][i];
        assert !us[i];
      }
      if Count(us) == 0 {
        forall i | 0 <= i < |us| ensures !us[i] { if i < n { assert !us[..n][i]; } }
      }
    }
  }

  // ---------------------------------------------------------------- what slots represent

  /** Slot `i` is marked, in the old or in the new marks. */
  predicate Marked(ou: seq<bool>, nu: seq<bool>, i: nat) { (i < |ou| && ou[i]) || (i < |nu| && nu[i]) }

  /** Each key of `at` has its entry in the marked slot `at` names, and no other slot is marked. */
  ghost predicate Index<K, V>(es: seq<Entry<K, V>>, ou: seq<bool>, nu: seq<bool>, at: map<K, nat>) {
    && |ou| <= |es| && |nu| <= |es|
    && (forall i: nat | Marked(ou, nu, i) :: es[i].key in at && at[es[i].key] == i)
    && (forall k | k in at :: Marked(ou, nu, at[k]) && es[at[k]].key == k)
  }

  /** The entries `at` names are those of `m`. */
  ghost predicate Stores<K, V>(es: seq<Entry<K, V>>, at: map<K, nat>, m: map<K, V>) {
    && m.Keys == at.Keys
    && (forall k | k in at :: at[k] < |es| && m[k] == es[at[k]].val)
  }

  // ---------------------------------------------------------------- probe runs

  /** The slots from `h` up to but excluding `i`, in probe order, are all used. */
  ghost predicate Run(us: seq<bool>, h: nat, i: nat)
    requires h < |us| && i < |us|
  {
    forall x: nat {:trigger us[x]} | x < |us| && Dist(h, x, |us|) < Dist(h, i, |us|) :: us[x]
  }

  /** A hash scaled to tables of `Pow2(bits)` slots; otherwise arbitrary. */
  ghost predicate InRange<K(!new)>(home: (K, nat) -> nat) {
    forall k, bits: nat :: home(k, bits) < Pow2(bits)
  }

  /** Every used slot is reached from its entry's home by an unbroken run. */
  ghost predicate Probed<K, V>(es: seq<Entry<K, V>>, us: seq<bool>, home: (K, nat) -> nat, bits: nat) {
    && |us| <= |es|
    && forall i: nat | i < |us| && us[i] :: home(es[i].key, bits) < |us| && Run(us, home(es[i].key, bits), i)
  }

  lemma ProbedAdd<K, V>(es: seq<Entry<K, V>>, us: seq<bool>, home: (K, nat) -> nat, bits: nat, i: nat, e: Entry<K, V>)
    requires Probed(es, us, home, bits) && i < |us| && !us[i]
    requires home(e.key, bits) < |us| && Run(us, home(e.key, bits), i)
    ensures Probed(es[i := e], us[i := true], home, bits)
  {
  }

  /** The probed slots, from `h` up to but excluding `i`, are used by other keys. */
  ghost predicate Passed<K, V>(es: seq<Entry<K, V>>, us: seq<bool>, h: nat, i: nat, k: K)
    requires h < |us| <= |es| && i < |us|
  {
    forall x: nat {:trigger us[x]} | x < |us| && Dist(h, x, |us|) < Dist(h, i, |us|) :: us[x] && es[x].key != k
  }

  lemma PassedNext<K, V>(es: seq<Entry<K, V>>, us: seq<bool>, h: nat, i: nat, k: K)
    requires h < |us| <= |es| && i < |us| && Passed(es, us, h, i, k) && us[i] && es[i].key != k
    ensures Succ(i, |us|) != h ==> Passed(es, us, h, Succ(i, |us|), k) && Dist(h, Succ(i, |us|), |us|) == Dist(h, i, |us|) + 1
    ensures Succ(i, |us|) == h ==> forall x: nat | x < |us| :: us[x] && es[x].key != k
  {
    if Succ(i, |us|) == h {
      forall x: nat | x < |us| ensures us[x] && es[x].key != k {
        assert Dist(h, x, |us|) < Dist(h, i, |us|) || x == i;
      }
    }
  }

  /** A probe that meets a free slot has shown that the key is absent. */
  lemma AbsentBefore<K, V>(es: seq<Entry<K, V>>, us: seq<bool>, at: map<K, nat>, home: (K, nat) -> nat, bits: nat, k: K, i: nat)
    requires Index(es, [], us, at) && Probed(es, us, home, bits) && i < |us| && !us[i]
    requires home(k, bits) < |us| && Passed(es, us, home(k, bits), i, k)
    ensures k !in at
  {
  }

  lemma FullMisses<K, V>(es: seq<Entry<K, V>>, us: seq<bool>, at: map<K, nat>, k: K)
    requires Index(es, [], us, at) && forall x: nat | x < |us| :: es[x].key != k
    ensures k !in at
  {
  }

  // ---------------------------------------------------------------- backward-shift deletion

  /**
    Slot `i` is marked used but holds nothing, and the used slots after it up to `j` do not need it
    in their runs.
   */
  ghost predicate Holed<K, V>(es: seq<Entry<K, V>>, us: seq<bool>, home: (K, nat) -> nat, bits: nat, i: nat, j: nat)
    requires i < |us| <= |es| && j < |us|
  {
    && us[i]
    && (forall x: nat | x < |us| && us[x] && x != i :: home(es[x].key, bits) < |us| && Run(us, home(es[x].key, bits), x))
    && (forall x: nat | x < |us| && us[x] && x != i && Dist(i, x, |us|) <= Dist(i, j, |us|) ::
          Dist(home(es[x].key, bits), x, |us|) <= Dist(home(es[x].key, bits), i, |us|))
  }

  /** The test that decides whether the entry at `j`, of home `k`, must move into the hole `i`. */
  predicate MustMove(i: nat, j: nat, k: nat) {
    (j > i && (k <= i || k > j)) || (j < i && (k <= i && k > j))
  }

  /** It asks exactly whether the hole lies on the run from `k` to `j`. */
  lemma MustMoveExact(i: nat, j: nat, k: nat, n: nat)
    requires i < n && j < n && k < n && i != j
    ensures MustMove(i, j, k) <==> Dist(k, i, n) < Dist(k, j, n)
  {
  }

  lemma HoleSkips<K, V>(es: seq<Entry<K, V>>, us: seq<bool>, home: (K, nat) -> nat, bits: nat, i: nat, j: nat)
    requires i < |us| <= |es| && j < |us| && Holed(es, us, home, bits, i, j)
    requires Succ(j, |us|) != i && us[Succ(j, |us|)] && !MustMove(i, Succ(j, |us|), home(es[Succ(j, |us|)].key, bits))
    ensures Holed(es, us, home, bits, i, Succ(j, |us|))
  {
    var j' := Succ(j, |us|);
    MustMoveExact(i, j', home(es[j'].key, bits), |us|);
    forall x: nat | x < |us| && us[x] && x != i && Dist(i, x, |us|) <= Dist(i, j', |us|)
      ensures Dist(home(es[x].key, bits), x, |us|) <= Dist(home(es[x].key, bits), i, |us|)
    {
      assert x == j' || Dist(i, x, |us|) <= Dist(i, j, |us|);
    }
  }

  lemma HoleMoves<K, V>(es: seq<Entry<K, V>>, us: seq<bool>, home: (K, nat) -> nat, bits: nat, i: nat, j: nat)
    requires i < |us| <= |es| && j < |us| && i != j && us[j]
    requires Holed(es, us, home, bits, i, i) && MustMove(i, j, home(es[j].key, bits))
    ensures Holed(es[i := es[j]], us, home, bits, j, j)
  {
    MustMoveExact(i, j, home(es[j].key, bits), |us|);
  }

  lemma HoleStarts<K, V>(es: seq<Entry<K, V>>, us: seq<bool>, home: (K, nat) -> nat, bits: nat, i: nat)
    requires Probed(es, us, home, bits) && i < |us| && us[i]
    ensures Holed(es, us, home, bits, i, i)
  {
  }

  lemma HoleCloses<K, V>(es: seq<Entry<K, V>>, us: seq<bool>, home: (K, nat) -> nat, bits: nat, i: nat, j: nat)
    requires i < |us| <= |es| && j < |us| && Holed(es, us, home, bits, i, j)
    requires Succ(j, |us|) == i || !us[Succ(j, |us|)]
    ensures Probed(es, us[i := false], home, bits)
  {
    var us' := us[i := false];
    forall x: nat | x < |us'| && us'[x] ensures home(es[x].key, bits) < |us| && Run(us', home(es[x].key, bits), x) {
      var h := home(es[x].key, bits);
      assert Run(us, h, x);
    }
  }

  // ---------------------------------------------------------------- in-place rehash

  /** The arrays during a rehash: entries, the old marks and the new marks. */
  datatype Stage<K, V> = Stage(es: seq<Entry<K, V>>, ou: seq<bool>, nu: seq<bool>)

  /**
    Half-way through a rehash: every entry of `m` is in a slot marked old or new, not both, and
    those marked new are in their new places.
   */
  ghost predicate Moving<K, V>(s: Stage<K, V>, home: (K, nat) -> nat, bits: nat, at: map<K, nat>) {
    && Index(s.es, s.ou, s.nu, at) && Probed(s.es, s.nu, home, bits)
    && (forall i: nat | i < |s.ou| && i < |s.nu| :: !(s.ou[i] && s.nu[i]))
  }

  /** The entry `e` may be placed in slot `i`: the first free one from its new home. */
  ghost predicate Fits<K, V>(s: Stage<K, V>, home: (K, nat) -> nat, bits: nat, e: Entry<K, V>, i: nat) {
    && i < |s.nu| <= |s.es| && !s.nu[i]
    && home(e.key, bits) < |s.nu| && Run(s.nu, home(e.key, bits), i)
  }

  predicate Vacant<K, V>(s: Stage<K, V>, i: nat) { i < |s.ou| ==> !s.ou[i] }

  /** Placing `e` in slot `i`: the slot is marked new, and no longer old. */
  function Put<K, V>(s: Stage<K, V>, i: nat, e: Entry<K, V>): Stage<K, V>
    requires i < |s.nu| <= |s.es|
  {
    Stage(s.es[i := e], if Vacant(s, i) then s.ou else s.ou[i := false], s.nu[i := true])
  }

  /** A remaining entry comes into hand. */
  lemma Leaves<K, V>(s: Stage<K, V>, home: (K, nat) -> nat, bits: nat, at: map<K, nat>, i: nat)
    requires Moving(s, home, bits, at) && !Vacant(s, i)
    ensures Moving(s.(ou := s.ou[i := false]), home, bits, at - {s.es[i].key})
    ensures s.es[i].key in at && at[s.es[i].key] == i
  {
    assert Marked(s.ou, s.nu, i);
    var ou' := s.ou[i := false];
    forall x: nat ensures Marked(ou', s.nu, x) <==> Marked(s.ou, s.nu, x) && x != i { }
  }

  /** The entry in hand lands in slot `i`, which no remaining entry occupies. */
  lemma Lands<K, V>(s: Stage<K, V>, home: (K, nat) -> nat, bits: nat, at: map<K, nat>, i: nat, e: Entry<K, V>)
    requires Moving(s, home, bits, at) && e.key !in at && Fits(s, home, bits, e, i) && Vacant(s, i)
    ensures Moving(Put(s, i, e), home, bits, at[e.key := i])
  {
    var nu' := s.nu[i := true];
    forall x: nat ensures Marked(s.ou, nu', x) <==> Marked(s.ou, s.nu, x) || x == i { }
    ProbedAdd(s.es, s.nu, home, bits, i, e);
  }

  /** With `e` in hand, the entries in the slots and `e` make up `all`, `c` of them. */
  ghost predicate Carrying<K, V>(s: Stage<K, V>, home: (K, nat) -> nat, bits: nat, at: map<K, nat>,
                                 e: Entry<K, V>, all: map<K, V>, c: nat) {
    && Moving(s, home, bits, at) && Count(s.ou) + Count(s.nu) + 1 == c
    && e.key !in at && e.key in all && all[e.key] == e.val && Stores(s.es, at, all - {e.key})
  }

  /** With nothing in hand. */
  ghost predicate Settled<K, V>(s: Stage<K, V>, home: (K, nat) -> nat, bits: nat, at: map<K, nat>, all: map<K, V>, c: nat) {
    Moving(s, home, bits, at) && Count(s.ou) + Count(s.nu) == c && Stores(s.es, at, all)
  }

  lemma StoresLands<K, V>(es: seq<Entry<K, V>>, at: map<K, nat>, all: map<K, V>, i: nat, e: Entry<K, V>)
    requires e.key !in at && e.key in all && all[e.key] == e.val && Stores(es, at, all - {e.key})
    requires i < |es| && forall k | k in at :: at[k] != i
    ensures Stores(es[i := e], at[e.key := i], all)
  {
    assert all.Keys == (all - {e.key}).Keys + {e.key};
  }

  lemma StoresLeaves<K, V>(es: seq<Entry<K, V>>, at: map<K, nat>, all: map<K, V>, k: K)
    requires Stores(es, at, all)
    ensures Stores(es, at - {k}, all - {k})
  {
  }

  /** Placing the entry in hand in a vacant slot leaves nothing in hand. */
  lemma CarryLands<K, V>(s: Stage<K, V>, home: (K, nat) -> nat, bits: nat, at: map<K, nat>, e: Entry<K, V>,
                         all: map<K, V>, c: nat, i: nat)
    requires Carrying(s, home, bits, at, e, all, c) && Fits(s, home, bits, e, i) && Vacant(s, i)
    ensures Settled(Put(s, i, e), home, bits, at[e.key := i], all, c)
  {
    Lands(s, home, bits, at, i, e);
    StoresLands(s.es, at, all, i, e);
    CountSet(s.nu, i, true);
  }

  /** Placing it in an occupied slot brings the occupant into hand. */
  lemma CarryKicks<K, V>(s: Stage<K, V>, home: (K, nat) -> nat, bits: nat, at: map<K, nat>, e: Entry<K, V>,
                         all: map<K, V>, c: nat, i: nat)
    requires Carrying(s, home, bits, at, e, all, c) && Fits(s, home, bits, e, i) && !Vacant(s, i)
    ensures var t := s.es[i];
            Carrying(Put(s, i, e), home, bits, (at - {t.key})[e.key := i], t, all, c)
    ensures Count(Put(s, i, e).ou) < Count(s.ou)
  {
    var t := s.es[i];
    Leaves(s, home, bits, at, i);
    Lands(s.(ou := s.ou[i := false]), home, bits, at - {t.key}, i, e);
    StoresLeaves(s.es, at, all - {e.key}, t.key);
    assert all - {e.key} - {t.key} == all - {t.key} - {e.key};
    StoresLands(s.es, at - {t.key}, all - {t.key}, i, e);
    CountSet(s.nu, i, true);
    CountSet(s.ou, i, false);
  }

  /** Taking an entry out of the old marks. */
  lemma CarryStarts<K, V>(s: Stage<K, V>, home: (K, nat) -> nat, bits: nat, at: map<K, nat>, all: map<K, V>, c: nat, j: nat)
    requires Settled(s, home, bits, at, all, c) && !Vacant(s, j)
    ensures Carrying(s.(ou := s.ou[j := false]), home, bits, at - {s.es[j].key}, s.es[j], all, c)
  {
    Leaves(s, home, bits, at, j);
    StoresLeaves(s.es, at, all, s.es[j].key);
    CountSet(s.ou, j, false);
  }

  /** When no old mark is left, the new marks index everything. */
  lemma AllSettled<K, V>(s: Stage<K, V>, home: (K, nat) -> nat, bits: nat, at: map<K, nat>, all: map<K, V>, c: nat)
    requires Settled(s, home, bits, at, all, c) && forall i | 0 <= i < |s.ou| :: !s.ou[i]
    ensures Index(s.es, [], s.nu, at) && Probed(s.es, s.nu, home, bits) && Count(s.nu) == c && Stores(s.es, at, all)
  {
    CountBound(s.ou);
    forall x: nat ensures Marked([], s.nu, x) <==> Marked(s.ou, s.nu, x) { }
  }

  lemma NothingMoved<K, V>(es: seq<Entry<K, V>>, ou: seq<bool>, nu: seq<bool>, home: (K, nat) -> nat, bits: nat,
                           at: map<K, nat>, all: map<K, V>)
    requires Index(es, [], ou, at) && Stores(es, at, all) && |nu| <= |es| && forall i | 0 <= i < |nu| :: !nu[i]
    ensures Settled(Stage(es, ou, nu), home, bits, at, all, Count(ou))
  {
    CountBound(nu);
    forall x: nat ensures Marked([], ou, x) <==> Marked(ou, nu, x) { }
  }

  // ---------------------------------------------------------------- whole tables

  /** Slots that hold exactly the entries of `m`, each reached from its home. */
  ghost predicate Holds<K, V>(es: seq<Entry<K, V>>, us: seq<bool>, home: (K, nat) -> nat, bits: nat,
                              at: map<K, nat>, m: map<K, V>) {
    Index(es, [], us, at) && Stores(es, at, m) && Probed(es, us, home, bits)
  }

  /** Only the used part of the entries matters. */
  lemma HoldsPrefix<K, V>(es: seq<Entry<K, V>>, us: seq<bool>, home: (K, nat) -> nat, bits: nat,
                          at: map<K, nat>, m: map<K, V>, es': seq<Entry<K, V>>)
    requires Holds(es, us, home, bits, at, m) && |us| <= |es'| && forall i: nat | i < |us| :: es'[i] == es[i]
    ensures Holds(es', us, home, bits, at, m)
  {
  }

  lemma NothingHeld<K, V>(es: seq<Entry<K, V>>, us: seq<bool>, home: (K, nat) -> nat, bits: nat, at: map<K, nat>, m: map<K, V>)
    requires |us| <= |es| && m == map[] && at.Keys == m.Keys && forall i | 0 <= i < |us| :: !us[i]
    ensures Holds(es, us, home, bits, at, m)
  {
  }

  /** Adding an absent key at the first free slot of its run. */
  lemma HoldsAdd<K, V>(es: seq<Entry<K, V>>, us: seq<bool>, home: (K, nat) -> nat, bits: nat,
                       at: map<K, nat>, m: map<K, V>, i: nat, e: Entry<K, V>)
    requires Holds(es, us, home, bits, at, m) && i < |us| && !us[i] && e.key !in m
    requires home(e.key, bits) < |us| && Passed(es, us, home(e.key, bits), i, e.key)
    ensures Holds(es[i := e], us[i := true], home, bits, at[e.key := i], m[e.key := e.val])
  {
    var us' := us[i := true];
    forall x: nat ensures Marked([], us', x) <==> Marked([], us, x) || x == i { }
    ProbedAdd(es, us, home, bits, i, e);
    assert m[e.key := e.val].Keys == m.Keys + {e.key};
  }

  /** Half-way through a deletion: the hole `i` stands for the key that is going. */
  ghost predicate Deleting<K, V>(es: seq<Entry<K, V>>, us: seq<bool>, home: (K, nat) -> nat, bits: nat,
                                 at: map<K, nat>, m: map<K, V>, i: nat, j: nat) {
    && i < |us| <= |es| && j < |us|
    && Holed(es, us, home, bits, i, j) && Index(es, [], us[i := false], at) && Stores(es, at, m)
  }

  lemma DeleteStarts<K, V>(es: seq<Entry<K, V>>, us: seq<bool>, home: (K, nat) -> nat, bits: nat,
                           at: map<K, nat>, m: map<K, V>, i: nat)
    requires Holds(es, us, home, bits, at, m) && i < |us| && us[i]
    ensures es[i].key in m && Deleting(es, us, home, bits, at - {es[i].key}, m - {es[i].key}, i, i)
  {
    var us' := us[i := false];
    assert Marked([], us, i);
    forall x: nat ensures Marked([], us', x) <==> Marked([], us, x) && x != i { }
    HoleStarts(es, us, home, bits, i);
  }

  lemma DeleteMoves<K, V>(es: seq<Entry<K, V>>, us: seq<bool>, home: (K, nat) -> nat, bits: nat,
                          at: map<K, nat>, m: map<K, V>, i: nat, j: nat)
    requires Deleting(es, us, home, bits, at, m, i, j) && Succ(j, |us|) != i && us[Succ(j, |us|)]
    requires MustMove(i, Succ(j, |us|), home(es[Succ(j, |us|)].key, bits))
    ensures var j' := Succ(j, |us|); var es' := es[i := es[j']];
            Deleting(es', us, home, bits, at[es[j'].key := i], m, j', j')
  {
    var j' := Succ(j, |us|);
    HoleRuns(es, us, home, bits, i, j);
    HoleMoves(es, us, home, bits, i, j');
    IndexMoves(es, us, at, m, i, j');
  }

  /** A hole that has not been passed is a hole at its own slot. */
  lemma HoleRuns<K, V>(es: seq<Entry<K, V>>, us: seq<bool>, home: (K, nat) -> nat, bits: nat, i: nat, j: nat)
    requires i < |us| <= |es| && j < |us| && Holed(es, us, home, bits, i, j)
    ensures Holed(es, us, home, bits, i, i)
  {
  }

  /** The entry in slot `j` moves into the hole `i`, and leaves a hole. */
  lemma IndexMoves<K, V>(es: seq<Entry<K, V>>, us: seq<bool>, at: map<K, nat>, m: map<K, V>, i: nat, j: nat)
    requires i < |us| && j < |us| && i != j && us[i] && us[j] && Index(es, [], us[i := false], at) && Stores(es, at, m)
    ensures var es' := es[i := es[j]]; var at' := at[es[j].key := i];
            Index(es', [], us[j := false], at') && Stores(es', at', m)
  {
    var ui, uj := us[i := false], us[j := false];
    assert Marked([], ui, j);
    forall x: nat ensures Marked([], uj, x) <==> (Marked([], ui, x) && x != j) || x == i { }
  }

  lemma DeleteSkips<K, V>(es: seq<Entry<K, V>>, us: seq<bool>, home: (K, nat) -> nat, bits: nat,
                          at: map<K, nat>, m: map<K, V>, i: nat, j: nat)
    requires Deleting(es, us, home, bits, at, m, i, j) && Succ(j, |us|) != i && us[Succ(j, |us|)]
    requires !MustMove(i, Succ(j, |us|), home(es[Succ(j, |us|)].key, bits))
    ensures Deleting(es, us, home, bits, at, m, i, Succ(j, |us|))
  {
    HoleSkips(es, us, home, bits, i, j);
  }

  lemma DeleteEnds<K, V>(es: seq<Entry<K, V>>, us: seq<bool>, home: (K, nat) -> nat, bits: nat,
                         at: map<K, nat>, m: map<K, V>, i: nat, j: nat)
    requires Deleting(es, us, home, bits, at, m, i, j) && (Succ(j, |us|) == i || !us[Succ(j, |us|)])
    ensures Holds(es, us[i := false], home, bits, at, m)
    ensures Count(us[i := false]) == Count(us) - 1
  {
    HoleCloses(es, us, home, bits, i, j);
    CountSet(us, i, false);
  }
}
