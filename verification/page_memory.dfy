/**
  The tables in memory: arrays of entries found by frame number, changed in place by recursive
  loops.  Each loop does to the tree in memory what the operation says, and touches no frame
  but the tree's own and free ones.
 */
module PageMemory {
  import opened Wrappers
  import opened PageTree
  import opened PageOps
  import opened PageFrames
  import opened PageSpaces
  import opened PageClone
  import opened PageWalk

  datatype Entry = Zero | Present(frame: nat, flags: Flags)

  type Tables = map<nat, seq<Entry>>

  /** Present, writable, user: the flags of an entry that leads to a table. */
  const INTERMEDIATE: Flags := Flags(true, true, true, false)

  /** Every right, so that the last entry of a walk alone decides. */
  predicate GrantsAll(flags: Flags) { flags.user && flags.write && flags.exec && !flags.uncached }

  /**
    The tree below an entry of depth `d`.  Above the last level only an entry that grants every
    right leads to a table; any other is a page there, and its tree is not well shaped.
   */
  function TreeAt(mem: Tables, e: Entry, d: nat): Tree
    decreases d, 0
  {
    match e
    case Zero => Absent
    case Present(f, flags) =>
      if d == 0 || !GrantsAll(flags) then Page(f, flags) else Table(f, Kids(mem, f, d - 1, FANOUT))
  }

  /** The trees below the first `w` entries of a table: half of them in a top-level table, all in the others. */
  function Kids(mem: Tables, frame: nat, d: nat, w: nat): seq<Tree>
    decreases d, 1
  {
    if frame in mem && w <= |mem[frame]| == FANOUT then seq(w, i requires 0 <= i < w => TreeAt(mem, mem[frame][i], d)) else []
  }

  ghost predicate Same(mem: Tables, mem': Tables, f: nat) { (f in mem <==> f in mem') && (f in mem ==> mem[f] == mem'[f]) }

  /** A tree is the same in two memories that agree on its frames. */
  lemma {:induction false} TreeSame(mem: Tables, mem': Tables, e: Entry, d: nat)
    requires forall f | f in Frames(TreeAt(mem, e, d), d) :: Same(mem, mem', f)
    ensures TreeAt(mem', e, d) == TreeAt(mem, e, d)
    decreases d, 0
  {
    if d > 0 && e.Present? && GrantsAll(e.flags) {
      assert Same(mem, mem', e.frame);
      KidsSame(mem, mem', e.frame, d - 1);
    }
  }

  lemma {:induction false} KidsSame(mem: Tables, mem': Tables, frame: nat, d: nat)
    requires Same(mem, mem', frame)
    requires var kids := Kids(mem, frame, d, FANOUT); forall f | f in AllFrames(kids, d, |kids|) :: Same(mem, mem', f)
    ensures Kids(mem', frame, d, FANOUT) == Kids(mem, frame, d, FANOUT)
    decreases d, 1
  {
    var kids := Kids(mem, frame, d, FANOUT);
    if kids != [] {
      forall i | 0 <= i < FANOUT ensures TreeAt(mem', mem[frame][i], d) == kids[i] {
        KidOwned(kids, d, |kids|, i);
        TreeSame(mem, mem', mem[frame][i], d);
      }
    }
  }

  /** Entry `i` of a table is rewritten and memory changes at frames of that entry or free ones only. */
  lemma KidSet(mem: Tables, mem': Tables, frame: nat, d: nat, w: nat, i: nat, e: Entry, touched: multiset<nat>)
    requires i < w && |Kids(mem, frame, d, w)| == w && frame in mem' && mem'[frame] == mem[frame][i := e]
    requires forall f | f != frame && f !in touched :: Same(mem, mem', f)
    requires var kids := Kids(mem, frame, d, w);
             forall k, f | 0 <= k < w && k != i && f in Frames(kids[k], d) :: f != frame && f !in touched
    ensures Kids(mem', frame, d, w) == Kids(mem, frame, d, w)[i := TreeAt(mem', e, d)]
  {
    var kids := Kids(mem, frame, d, w);
    forall k | 0 <= k < w && k != i ensures TreeAt(mem', mem[frame][k], d) == kids[k] {
      assert kids[k] == TreeAt(mem, mem[frame][k], d);
      forall f | f in Frames(kids[k], d) ensures Same(mem, mem', f) { }
      TreeSame(mem, mem', mem[frame][k], d);
    }
  }

  // ---------------------------------------------------------------- what a loop may rely on

  /** The table in `frame` is well formed, and its frames and the free ones are all distinct. */
  ghost predicate NodeOk(mem: Tables, frame: nat, d: nat, w: nat, free: seq<nat>) {
    var kids := Kids(mem, frame, d, w);
    && frame in mem && |mem[frame]| == FANOUT
    && |kids| == w && (forall k | 0 <= k < w :: Shaped(kids[k], d))
    && Once(multiset{frame} + HeldKids(kids, d, free))
  }

  /** The entries above the first `w` are as they were. */
  ghost predicate HighSame(mem: Tables, mem': Tables, frame: nat, w: nat) {
    && frame in mem && frame in mem' && |mem[frame]| == |mem'[frame]|
    && forall k | w <= k < |mem[frame]| :: mem'[frame][k] == mem[frame][k]
  }

  /** The frames of one entry, of the other entries, of the table itself and of the free list are apart. */
  lemma Apart(kids: seq<Tree>, d: nat, frame: nat, free: seq<nat>, i: nat, k: nat, f: nat)
    requires i < |kids| && k < |kids| && k != i && Once(multiset{frame} + HeldKids(kids, d, free)) && f in Frames(kids[k], d)
    ensures f != frame && f !in Held(kids[i], d, free)
  {
    if k < i { TwoKidsOwned(kids, d, |kids|, k, i); } else { TwoKidsOwned(kids, d, |kids|, i, k); }
    var all := multiset{frame} + HeldKids(kids, d, free);
    var part := multiset{frame} + (Frames(kids[k], d) + Held(kids[i], d, free));
    assert part <= all;
    assert f in all && part[f] <= all[f];
  }

  lemma EntryOnce(kids: seq<Tree>, d: nat, frame: nat, free: seq<nat>, i: nat)
    requires i < |kids| && Once(multiset{frame} + HeldKids(kids, d, free))
    ensures Once(Held(kids[i], d, free)) && frame !in Held(kids[i], d, free)
  {
    KidOwned(kids, d, |kids|, i);
    var all := multiset{frame} + HeldKids(kids, d, free);
    assert multiset{frame} + Held(kids[i], d, free) <= all;
    OnceLess(all, Held(kids[i], d, free));
    assert all[frame] >= 1 + Held(kids[i], d, free)[frame];
  }

  /** What a loop did to the table in `frame`: entries `i` to `n` as the operation says, and nothing else. */
  ghost predicate Did(op: Op, mem: Tables, mem': Tables, free: seq<nat>, free': seq<nat>,
                      frame: nat, d: nat, w: nat, i: nat, n: nat, lo: nat, hi: nat, ok: bool) {
    var o := ApplyKids(op, Kids(mem, frame, d, w), d, i, n, lo, hi, free);
    && (ok <==> o.Some?)
    && (ok ==>
          && Kids(mem', frame, d, w) == o.value.kids && free' == o.value.free
          && HighSame(mem, mem', frame, w)
          && forall f | f !in multiset{frame} + HeldKids(Kids(mem, frame, d, w), d, free) :: Same(mem, mem', f))
  }

  /** What a round of a loop did to entry `i`, the range counted from the start of the entry. */
  ghost predicate DidEntry(op: Op, mem: Tables, mem': Tables, free: seq<nat>, free': seq<nat>,
                           frame: nat, d: nat, w: nat, i: nat, lo: nat, hi: nat, ok: bool)
    requires i < |Kids(mem, frame, d, w)|
  {
    var kids := Kids(mem, frame, d, w);
    var o := Apply(op, kids[i], d, lo, hi, free);
    && (ok <==> o.Some?)
    && (ok ==>
          && Kids(mem', frame, d, w) == kids[i := o.value.tree] && free' == o.value.free
          && HighSame(mem, mem', frame, w)
          && forall f | f != frame && f !in Held(kids[i], d, free) :: Same(mem, mem', f))
  }

  // ---------------------------------------------------------------- loops unrolled

  /** Entries before `i` do not matter to the entries from `i` on. */
  lemma {:induction false} KidsLocal(op: Op, kids: seq<Tree>, d: nat, i: nat, n: nat, lo: nat, hi: nat, free: seq<nat>, k: nat, t: Tree)
    requires k < i && k < |kids|
    ensures var o := ApplyKids(op, kids, d, i, n, lo, hi, free);
            ApplyKids(op, kids[k := t], d, i, n, lo, hi, free)
            == if o.Some? && k < |o.value.kids| then Some(DoneKids(o.value.kids[k := t], o.value.free)) else o
    ensures ApplyKids(op, kids, d, i, n, lo, hi, free).Some? ==>
              |ApplyKids(op, kids, d, i, n, lo, hi, free).value.kids| == |kids|
    decreases n - i
  {
    if i < n && i < |kids| {
      var r := Apply(op, kids[i], d, Lo(d, i, lo), Hi(d, i, hi), free);
      if r.Some? {
        KidsLocal(op, kids, d, i + 1, n, lo, hi, r.value.free, k, t);
        var o := ApplyKids(op, kids, d, i + 1, n, lo, hi, r.value.free);
        if o.Some? { assert o.value.kids[k := t][i := r.value.tree] == o.value.kids[i := r.value.tree][k := t]; }
      }
    }
  }

  /** Doing entry `i` and then the rest is doing them all. */
  lemma KidsStep(op: Op, kids: seq<Tree>, d: nat, i: nat, n: nat, lo: nat, hi: nat, free: seq<nat>)
    requires i < n && i < |kids|
    ensures var o := Apply(op, kids[i], d, Lo(d, i, lo), Hi(d, i, hi), free);
            ApplyKids(op, kids, d, i, n, lo, hi, free)
            == if o.None? then None else ApplyKids(op, kids[i := o.value.tree], d, i + 1, n, lo, hi, o.value.free)
  {
    var o := Apply(op, kids[i], d, Lo(d, i, lo), Hi(d, i, hi), free);
    if o.Some? { KidsLocal(op, kids, d, i + 1, n, lo, hi, o.value.free, i, o.value.tree); }
  }

  lemma KidsRound(op: Op, kids: seq<Tree>, d: nat, i: nat, lo: nat, hi: nat, free: seq<nat>)
    requires i < |kids| && (forall k | 0 <= k < |kids| :: Shaped(kids[k], d)) && Apply(op, kids[i], d, lo, hi, free).Some?
    ensures var r := Apply(op, kids[i], d, lo, hi, free).value;
            && (var kids' := kids[i := r.tree]; forall k | 0 <= k < |kids'| :: Shaped(kids'[k], d))
            && HeldKids(kids[i := r.tree], d, r.free) == HeldKids(kids, d, free)
  {
    var r := Apply(op, kids[i], d, lo, hi, free).value;
    ApplyShaped(op, kids[i], d, lo, hi, free);
    ApplyConserves(op, kids[i], d, lo, hi, free);
    FramesSet(kids, d, |kids|, i, r.tree);
    Moved(kids, d, i, free, r, DoneKids(kids, r.free));
  }

  lemma EntryHeld(kids: seq<Tree>, d: nat, i: nat, free: seq<nat>)
    requires i < |kids|
    ensures Held(kids[i], d, free) <= HeldKids(kids, d, free)
  {
    KidOwned(kids, d, |kids|, i);
  }

  /** A round of the loop leaves the table as good as it was, with the same frames held. */
  lemma RoundKeeps(op: Op, mem: Tables, mem': Tables, free: seq<nat>, free': seq<nat>,
                   frame: nat, d: nat, w: nat, i: nat, lo: nat, hi: nat)
    requires NodeOk(mem, frame, d, w, free) && i < w
    requires DidEntry(op, mem, mem', free, free', frame, d, w, i, lo, hi, true)
    ensures NodeOk(mem', frame, d, w, free')
    ensures HeldKids(Kids(mem', frame, d, w), d, free') == HeldKids(Kids(mem, frame, d, w), d, free)
    ensures forall f | f !in multiset{frame} + HeldKids(Kids(mem, frame, d, w), d, free) :: Same(mem, mem', f)
  {
    var kids := Kids(mem, frame, d, w);
    KidsRound(op, kids, d, i, lo, hi, free);
    EntryHeld(kids, d, i, free);
  }

  /** A loop that has done entries up to `i` does one more. */
  lemma LoopStep(op: Op, mem0: Tables, mem: Tables, mem': Tables, free0: seq<nat>, free: seq<nat>, free': seq<nat>,
                 frame: nat, d: nat, w: nat, i0: nat, i: nat, n: nat, lo: nat, hi: nat, ok: bool)
    requires i < n <= w && NodeOk(mem, frame, d, w, free)
    requires Going(op, mem0, mem, free0, free, frame, d, w, i0, i, n, lo, hi)
    requires DidEntry(op, mem, mem', free, free', frame, d, w, i, Lo(d, i, lo), Hi(d, i, hi), ok)
    ensures ok ==> NodeOk(mem', frame, d, w, free') && Going(op, mem0, mem', free0, free', frame, d, w, i0, i + 1, n, lo, hi)
    ensures !ok ==> Did(op, mem0, mem', free0, free', frame, d, w, i0, n, lo, hi, false)
  {
    KidsStep(op, Kids(mem, frame, d, w), d, i, n, lo, hi, free);
    if ok { RoundKeeps(op, mem, mem', free, free', frame, d, w, i, Lo(d, i, lo), Hi(d, i, hi)); }
  }

  /** Half-way through a loop: what is left to do completes the operation. */
  ghost predicate Going(op: Op, mem0: Tables, mem: Tables, free0: seq<nat>, free: seq<nat>,
                        frame: nat, d: nat, w: nat, i0: nat, i: nat, n: nat, lo: nat, hi: nat) {
    var kids0, kids := Kids(mem0, frame, d, w), Kids(mem, frame, d, w);
    && ApplyKids(op, kids0, d, i0, n, lo, hi, free0) == ApplyKids(op, kids, d, i, n, lo, hi, free)
    && HeldKids(kids, d, free) == HeldKids(kids0, d, free0) && HighSame(mem0, mem, frame, w)
    && forall f | f !in multiset{frame} + HeldKids(kids0, d, free0) :: Same(mem0, mem, f)
  }

  lemma LoopEnds(op: Op, mem0: Tables, mem: Tables, free0: seq<nat>, free: seq<nat>,
                 frame: nat, d: nat, w: nat, i0: nat, i: nat, n: nat, lo: nat, hi: nat)
    requires i >= n && Going(op, mem0, mem, free0, free, frame, d, w, i0, i, n, lo, hi)
    ensures Did(op, mem0, mem, free0, free, frame, d, w, i0, n, lo, hi, true)
  {
  }

  // ---------------------------------------------------------------- one entry

  function Zeros(): (es: seq<Entry>)
    ensures |es| == FANOUT && forall i | 0 <= i < FANOUT :: es[i] == Zero
  {
    seq(FANOUT, i => Zero)
  }

  lemma ZerosTree(mem: Tables, frame: nat, d: nat)
    requires frame in mem && mem[frame] == Zeros()
    ensures Kids(mem, frame, d, FANOUT) == NoKids()
  {
  }

  /** The table an entry leads to is well formed, and apart from the one it is in. */
  lemma PresentOk(mem: Tables, frame: nat, d: nat, w: nat, i: nat, free: seq<nat>)
    requires NodeOk(mem, frame, d, w, free) && d > 0 && i < w && mem[frame][i].Present?
    ensures var next := mem[frame][i].frame;
            && Kids(mem, frame, d, w)[i] == Table(next, Kids(mem, next, d - 1, FANOUT))
            && NodeOk(mem, next, d - 1, FANOUT, free) && next != frame
  {
    var kids := Kids(mem, frame, d, w);
    assert Shaped(kids[i], d);
    EntryOnce(kids, d, frame, free, i);
    var next := mem[frame][i].frame;
    TableHeld(next, Kids(mem, next, d - 1, FANOUT), d, free);
    assert kids[i] == TreeAt(mem, mem[frame][i], d) == Table(next, Kids(mem, next, d - 1, FANOUT));
    OnceLess(Held(kids[i], d, free), multiset{next} + HeldKids(Kids(mem, next, d - 1, FANOUT), d - 1, free));
    assert next in Held(kids[i], d, free);
  }

  /** A new table is well formed, and apart from the one it is entered in. */
  lemma NewOk(mem: Tables, mem1: Tables, frame: nat, d: nat, w: nat, i: nat, free: seq<nat>)
    requires NodeOk(mem, frame, d, w, free) && d > 0 && i < w && mem[frame][i].Zero? && free != []
    requires mem1 == mem[free[0] := Zeros()][frame := mem[frame][i := Present(free[0], INTERMEDIATE)]]
    ensures free[0] != frame && Kids(mem1, free[0], d - 1, FANOUT) == NoKids() && NodeOk(mem1, free[0], d - 1, FANOUT, free[1..])
    ensures Kids(mem, frame, d, w)[i] == Absent
  {
    var kids := Kids(mem, frame, d, w);
    EntryOnce(kids, d, frame, free, i);
    assert free[0] in Held(kids[i], d, free);
    ZerosTree(mem1, free[0], d - 1);
    NoFrames(NoKids(), d - 1, FANOUT);
    Taken(free);
    OnceLess(Held(kids[i], d, free), multiset{free[0]} + HeldKids(NoKids(), d - 1, free[1..]));
  }

  /** Memory `mem1` is `mem` with entry `i` leading to the table the operation enters. */
  ghost predicate Leads(op: Op, mem: Tables, mem1: Tables, frame: nat, d: nat, w: nat, i: nat, free: seq<nat>, next: nat, free1: seq<nat>)
    requires d > 0 && i < |Kids(mem, frame, d, w)|
  {
    var kids := Kids(mem, frame, d, w);
    && PageOps.Enter(op, kids[i], free) == Into(next, Kids(mem1, next, d - 1, FANOUT), free1)
    && next != frame && frame in mem1 && i < |mem1[frame]| && mem1[frame][i].Present? && mem1[frame][i].frame == next
    && GrantsAll(mem1[frame][i].flags)
    && mem1[frame] == mem[frame][i := mem1[frame][i]]
    && forall f | f != frame && f !in Held(kids[i], d, free) :: Same(mem, mem1, f)
  }

  /** Once the table below has been worked on, the table above has changed in that entry only. */
  lemma BelowWrites(op: Op, mem: Tables, mem1: Tables, mem2: Tables, frame: nat, d: nat, w: nat, i: nat, free: seq<nat>, next: nat, free1: seq<nat>)
    requires NodeOk(mem, frame, d, w, free) && d > 0 && i < w && Leads(op, mem, mem1, frame, d, w, i, free, next, free1)
    requires HighSame(mem1, mem2, next, FANOUT)
    requires forall f | f !in multiset{next} + HeldKids(Kids(mem1, next, d - 1, FANOUT), d - 1, free1) :: Same(mem1, mem2, f)
    ensures Same(mem1, mem2, frame) && HighSame(mem, mem2, frame, w)
    ensures forall f | f != frame && f !in Held(Kids(mem, frame, d, w)[i], d, free) :: Same(mem, mem2, f)
    ensures Kids(mem2, frame, d, w) == Kids(mem, frame, d, w)[i := Table(next, Kids(mem2, next, d - 1, FANOUT))]
  {
    var kids := Kids(mem, frame, d, w);
    EnterHolds(op, kids[i], free, d);
    EntryOnce(kids, d, frame, free, i);
    var touched := Held(kids[i], d, free);
    forall k, f | 0 <= k < w && k != i && f in Frames(kids[k], d) ensures f != frame && f !in touched {
      Apart(kids, d, frame, free, i, k, f);
    }
    assert Same(mem1, mem2, frame);
    forall f | f != frame && f !in touched ensures Same(mem, mem2, f) { assert Same(mem, mem1, f) && Same(mem1, mem2, f); }
    KidSet(mem, mem2, frame, d, w, i, mem1[frame][i], touched);
  }

  lemma BelowDone(op: Op, mem: Tables, mem1: Tables, mem2: Tables, frame: nat, d: nat, w: nat, i: nat, lo: nat, hi: nat,
                  free: seq<nat>, next: nat, free1: seq<nat>, free2: seq<nat>)
    requires NodeOk(mem, frame, d, w, free) && d > 0 && i < w && Leads(op, mem, mem1, frame, d, w, i, free, next, free1)
    requires Did(op, mem1, mem2, free1, free2, next, d - 1, FANOUT, First(d - 1, lo), Last(d - 1, hi), lo, hi, true)
    ensures Same(mem1, mem2, frame) && HighSame(mem, mem2, frame, w)
    ensures forall f | f != frame && f !in Held(Kids(mem, frame, d, w)[i], d, free) :: Same(mem, mem2, f)
    ensures Kids(mem2, frame, d, w) == Kids(mem, frame, d, w)[i := Table(next, Kids(mem2, next, d - 1, FANOUT))]
  {
    BelowWrites(op, mem, mem1, mem2, frame, d, w, i, free, next, free1);
  }

  /** So an operation that frees no tables has done the entry. */
  lemma EntryDone(op: Op, mem: Tables, mem1: Tables, mem2: Tables, frame: nat, d: nat, w: nat, i: nat, lo: nat, hi: nat,
                  free: seq<nat>, next: nat, free1: seq<nat>, free2: seq<nat>, ok: bool)
    requires !op.Clear? && NodeOk(mem, frame, d, w, free) && d > 0 && i < w && Leads(op, mem, mem1, frame, d, w, i, free, next, free1)
    requires Did(op, mem1, mem2, free1, free2, next, d - 1, FANOUT, First(d - 1, lo), Last(d - 1, hi), lo, hi, ok)
    ensures DidEntry(op, mem, mem2, free, free2, frame, d, w, i, lo, hi, ok)
  {
    if ok { BelowDone(op, mem, mem1, mem2, frame, d, w, i, lo, hi, free, next, free1, free2); }
  }

  /** An operation that panics on entering has not done the entry. */
  lemma EntryStops(op: Op, mem: Tables, frame: nat, d: nat, w: nat, i: nat, lo: nat, hi: nat, free: seq<nat>)
    requires NodeOk(mem, frame, d, w, free) && d > 0 && i < w && PageOps.Enter(op, Kids(mem, frame, d, w)[i], free).Stop?
    ensures DidEntry(op, mem, mem, free, free, frame, d, w, i, lo, hi, false)
  {
  }

  /** Freeing the table below and zeroing its entry changes the table above in that entry only. */
  lemma FreedTree(mem: Tables, mem2: Tables, mem3: Tables, frame: nat, d: nat, w: nat, i: nat, free: seq<nat>, next: nat)
    requires w <= FANOUT && NodeOk(mem, frame, d, w, free) && i < w && next in Held(Kids(mem, frame, d, w)[i], d, free)
    requires forall f | f != frame && f !in Held(Kids(mem, frame, d, w)[i], d, free) :: Same(mem, mem2, f)
    requires HighSame(mem, mem2, frame, w) && (forall k | 0 <= k < w && k != i :: mem2[frame][k] == mem[frame][k])
    requires mem3 == (mem2 - {next})[frame := mem2[frame][i := Zero]]
    ensures Kids(mem3, frame, d, w) == Kids(mem, frame, d, w)[i := Absent] && HighSame(mem, mem3, frame, w)
    ensures forall f | f != frame && f !in Held(Kids(mem, frame, d, w)[i], d, free) :: Same(mem, mem3, f)
  {
    var kids := Kids(mem, frame, d, w);
    var touched := Held(kids[i], d, free);
    forall k, f | 0 <= k < w && k != i && f in Frames(kids[k], d) ensures f != frame && f !in touched {
      Apart(kids, d, frame, free, i, k, f);
    }
    forall f | f != frame && f !in touched ensures Same(mem, mem3, f) { assert Same(mem, mem2, f); }
    assert mem3[frame] == mem[frame][i := Zero];
    KidSet(mem, mem3, frame, d, w, i, Zero, touched);
  }

  /** A clear that leaves the table below without entries frees it and zeroes the entry. */
  lemma EntryFreed(mem: Tables, mem2: Tables, mem3: Tables, frame: nat, d: nat, w: nat, i: nat, lo: nat, hi: nat,
                   free: seq<nat>, next: nat, free2: seq<nat>)
    requires w <= FANOUT && NodeOk(mem, frame, d, w, free) && d > 0 && i < w && Leads(Clear, mem, mem, frame, d, w, i, free, next, free)
    requires Did(Clear, mem, mem2, free, free2, next, d - 1, FANOUT, First(d - 1, lo), Last(d - 1, hi), lo, hi, true)
    requires AllAbsent(Kids(mem2, next, d - 1, FANOUT)) && frame in mem2 && i < |mem2[frame]|
    requires mem3 == (mem2 - {next})[frame := mem2[frame][i := Zero]]
    ensures DidEntry(Clear, mem, mem3, free, [next] + free2, frame, d, w, i, lo, hi, true)
  {
    BelowDone(Clear, mem, mem, mem2, frame, d, w, i, lo, hi, free, next, free, free2);
    NextHeld(mem, frame, d, w, i, free, next);
    FreedTree(mem, mem2, mem3, frame, d, w, i, free, next);
  }

  lemma NextHeld(mem: Tables, frame: nat, d: nat, w: nat, i: nat, free: seq<nat>, next: nat)
    requires d > 0 && i < |Kids(mem, frame, d, w)| && Leads(Clear, mem, mem, frame, d, w, i, free, next, free)
    ensures next in Held(Kids(mem, frame, d, w)[i], d, free)
  {
    TableHeld(next, Kids(mem, next, d - 1, FANOUT), d, free);
  }

  /** A clear that leaves entries below keeps the table. */
  lemma EntryKept(mem: Tables, mem2: Tables, frame: nat, d: nat, w: nat, i: nat, lo: nat, hi: nat,
                  free: seq<nat>, next: nat, free2: seq<nat>)
    requires w <= FANOUT && NodeOk(mem, frame, d, w, free) && d > 0 && i < w && Leads(Clear, mem, mem, frame, d, w, i, free, next, free)
    requires Did(Clear, mem, mem2, free, free2, next, d - 1, FANOUT, First(d - 1, lo), Last(d - 1, hi), lo, hi, true)
    requires !AllAbsent(Kids(mem2, next, d - 1, FANOUT))
    ensures DidEntry(Clear, mem, mem2, free, free2, frame, d, w, i, lo, hi, true)
  {
    BelowDone(Clear, mem, mem, mem2, frame, d, w, i, lo, hi, free, next, free, free2);
  }

  /** An operation that has nothing to do at an entry. */
  lemma EntrySkipped(mem: Tables, frame: nat, d: nat, w: nat, i: nat, lo: nat, hi: nat, free: seq<nat>)
    requires w <= FANOUT && NodeOk(mem, frame, d, w, free) && i < w && mem[frame][i].Zero?
    ensures DidEntry(Clear, mem, mem, free, free, frame, d, w, i, lo, hi, true)
  {
    var kids := Kids(mem, frame, d, w);
    assert kids[i] == TreeAt(mem, mem[frame][i], d);
    assert kids[i := Absent] == kids;
  }
}
