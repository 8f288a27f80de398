/**
  Frames are conserved: every operation only moves them between the free list and the tree.
  No table is left without a mapped page below it.
 */
module PageFrames {
  import opened Wrappers
  import opened PageTree
  import opened PageOps

  /** The frames a node owns: its tables and its pages. */
  function Frames(t: Tree, d: nat): multiset<nat>
    decreases d, 0, 0
  {
    match t
    case Absent => multiset{}
    case Page(f, _) => multiset{f}
    case Table(f, kids) => if d == 0 then multiset{f} else multiset{f} + AllFrames(kids, d - 1, |kids|)
  }

  /** The frames of the first `n` entries. */
  function AllFrames(kids: seq<Tree>, d: nat, n: nat): multiset<nat>
    requires n <= |kids|
    decreases d, 1, n, |kids|
  {
    if n == 0 then multiset{} else AllFrames(kids, d, n - 1) + Frames(kids[n - 1], d)
  }

  lemma Cancel(x: multiset<nat>, a: multiset<nat>, b: multiset<nat>)
    requires a + x == b + x
    ensures a == b
  {
    forall e ensures a[e] == b[e] { assert (a + x)[e] == (b + x)[e]; }
  }

  lemma Regroup(a: multiset<nat>, x: multiset<nat>, b: multiset<nat>, y: multiset<nat>, z: multiset<nat>)
    requires a + x == b + y
    ensures (a + z) + x == (b + z) + y
  {
    assert (a + z) + x == (a + x) + z;
  }

  lemma {:induction false} FramesAbove(kids: seq<Tree>, d: nat, n: nat, i: nat, t: Tree)
    requires n <= i < |kids|
    ensures AllFrames(kids[i := t], d, n) == AllFrames(kids, d, n)
    decreases n
  {
    if n > 0 { FramesAbove(kids, d, n - 1, i, t); }
  }

  lemma Commute(a: multiset<nat>, x: multiset<nat>, y: multiset<nat>)
    ensures (a + x) + y == (a + y) + x
  {
  }

  lemma {:induction false} FramesSetTo(kids: seq<Tree>, d: nat, n: nat, i: nat, t: Tree, x: multiset<nat>, y: multiset<nat>)
    requires i < n <= |kids| && x == Frames(kids[i], d) && y == Frames(t, d)
    ensures AllFrames(kids[i := t], d, n) + x == AllFrames(kids, d, n) + y
    decreases n
  {
    var a', a := AllFrames(kids[i := t], d, n - 1), AllFrames(kids, d, n - 1);
    if i < n - 1 {
      FramesSetTo(kids, d, n - 1, i, t, x, y);
      Regroup(a', x, a, y, Frames(kids[n - 1], d));
    } else {
      FramesAbove(kids, d, n - 1, i, t);
      Commute(a, x, y);
    }
  }

  lemma FramesSet(kids: seq<Tree>, d: nat, n: nat, i: nat, t: Tree)
    requires i < n <= |kids|
    ensures AllFrames(kids[i := t], d, n) + Frames(kids[i], d) == AllFrames(kids, d, n) + Frames(t, d)
  {
    FramesSetTo(kids, d, n, i, t, Frames(kids[i], d), Frames(t, d));
  }

  lemma {:induction false} NoFrames(kids: seq<Tree>, d: nat, n: nat)
    requires n <= |kids| && AllAbsent(kids)
    ensures AllFrames(kids, d, n) == multiset{}
    decreases n
  {
    if n > 0 { NoFrames(kids, d, n - 1); }
  }

  lemma Taken(free: seq<nat>)
    requires free != []
    ensures multiset(free) == multiset{free[0]} + multiset(free[1..])
  {
    assert free == [free[0]] + free[1..];
  }

  /** What is in the tree and on the free list together. */
  function Held(t: Tree, d: nat, free: seq<nat>): multiset<nat> { Frames(t, d) + multiset(free) }

  function HeldKids(kids: seq<Tree>, d: nat, free: seq<nat>): multiset<nat> { AllFrames(kids, d, |kids|) + multiset(free) }

  lemma EnterHolds(op: Op, t: Tree, free: seq<nat>, d: nat)
    requires d > 0 && Enter(op, t, free).Into?
    ensures var e := Enter(op, t, free); Held(t, d, free) == multiset{e.frame} + HeldKids(e.kids, d - 1, e.free)
  {
    if t.Absent? { NoFrames(NoKids(), d - 1, |NoKids()|); Taken(free); }
  }

  lemma CloseHolds(op: Op, f: nat, kids: seq<Tree>, free: seq<nat>, d: nat)
    requires d > 0
    ensures var r := Close(op, f, kids, free); Held(r.tree, d, r.free) == multiset{f} + HeldKids(kids, d - 1, free)
  {
    if AllAbsent(kids) { NoFrames(kids, d - 1, |kids|); }
  }

  lemma PageConserves(op: Op, t: Tree, free: seq<nat>)
    requires Shaped(t, 0) && ApplyPage(op, t, free).Some?
    ensures var r := ApplyPage(op, t, free).value; Held(r.tree, 0, r.free) == Held(t, 0, free)
  {
    if free != [] { Taken(free); }
  }

  /** An operation neither makes nor loses a frame. */
  lemma {:induction false} ApplyConserves(op: Op, t: Tree, d: nat, lo: nat, hi: nat, free: seq<nat>)
    requires Shaped(t, d) && Apply(op, t, d, lo, hi, free).Some?
    ensures var r := Apply(op, t, d, lo, hi, free).value; Held(r.tree, d, r.free) == Held(t, d, free)
    decreases d, 0, 0
  {
    if d == 0 {
      PageConserves(op, t, free);
    } else if Enter(op, t, free).Into? {
      var e := Enter(op, t, free);
      EnterHolds(op, t, free, d);
      ApplyKidsConserves(op, e.kids, d - 1, First(d - 1, lo), Last(d - 1, hi), lo, hi, e.free);
      var r := ApplyKids(op, e.kids, d - 1, First(d - 1, lo), Last(d - 1, hi), lo, hi, e.free).value;
      CloseHolds(op, e.frame, r.kids, r.free, d);
    }
  }

  lemma {:induction false} ApplyKidsConserves(op: Op, kids: seq<Tree>, d: nat, i: nat, n: nat, lo: nat, hi: nat, free: seq<nat>)
    requires (forall k | 0 <= k < |kids| :: Shaped(kids[k], d)) && ApplyKids(op, kids, d, i, n, lo, hi, free).Some?
    ensures var r := ApplyKids(op, kids, d, i, n, lo, hi, free).value; HeldKids(r.kids, d, r.free) == HeldKids(kids, d, free)
    decreases d, 1, n - i
  {
    if i < n && i < |kids| {
      var r := Apply(op, kids[i], d, Lo(d, i, lo), Hi(d, i, hi), free).value;
      var s := ApplyKids(op, kids, d, i + 1, n, lo, hi, r.free).value;
      ApplyConserves(op, kids[i], d, Lo(d, i, lo), Hi(d, i, hi), free);
      ApplyKidsConserves(op, kids, d, i + 1, n, lo, hi, r.free);
      ApplyKidsShaped(op, kids, d, i + 1, n, lo, hi, r.free);
      FramesSet(s.kids, d, |s.kids|, i, r.tree);
      Moved(kids, d, i, free, r, s);
    }
  }

  lemma Moved(kids: seq<Tree>, d: nat, i: nat, free: seq<nat>, r: Done, s: DoneKids)
    requires i < |kids| == |s.kids| && s.kids[i] == kids[i]
    requires Held(r.tree, d, r.free) == Held(kids[i], d, free) && HeldKids(s.kids, d, s.free) == HeldKids(kids, d, r.free)
    requires AllFrames(s.kids[i := r.tree], d, |kids|) + Frames(kids[i], d) == AllFrames(s.kids, d, |kids|) + Frames(r.tree, d)
    ensures HeldKids(s.kids[i := r.tree], d, s.free) == HeldKids(kids, d, free)
  {
    var a := AllFrames(s.kids[i := r.tree], d, |kids|);
    var x := Frames(kids[i], d);
    Cancel(x, a + multiset(s.free), AllFrames(kids, d, |kids|) + multiset(free)) by {
      assert a + multiset(s.free) + x == (a + x) + multiset(s.free);
      assert AllFrames(kids, d, |kids|) + multiset(free) + x == AllFrames(kids, d, |kids|) + (x + multiset(free));
      assert AllFrames(kids, d, |kids|) + (Frames(r.tree, d) + multiset(r.free))
          == (AllFrames(kids, d, |kids|) + multiset(r.free)) + Frames(r.tree, d);
      assert (AllFrames(s.kids, d, |kids|) + Frames(r.tree, d)) + multiset(s.free)
          == (AllFrames(s.kids, d, |kids|) + multiset(s.free)) + Frames(r.tree, d);
    }
  }

  // ---------------------------------------------------------------- no empty tables

  /** Every table has an entry, down to the pages. */
  predicate Tight(t: Tree, d: nat)
    decreases d
  {
    d > 0 && t.Table? ==> !AllAbsent(t.kids) && forall i | 0 <= i < |t.kids| :: Tight(t.kids[i], d - 1)
  }

  lemma {:induction false} ApplyTight(op: Op, t: Tree, d: nat, lo: nat, hi: nat, free: seq<nat>)
    requires Shaped(t, d) && Tight(t, d) && lo < hi <= Size(d) && Apply(op, t, d, lo, hi, free).Some?
    ensures var r := Apply(op, t, d, lo, hi, free).value; Tight(r.tree, d) && (!op.Clear? ==> !r.tree.Absent?)
    decreases d, 0, 0
  {
    if d > 0 && Enter(op, t, free).Into? {
      var e := Enter(op, t, free);
      EnterLooks(op, t, free, d, lo);
      LastFits(d - 1, hi);
      InRangeTouched(d - 1, lo, hi, lo);
      ApplyKidsTight(op, e.kids, d - 1, First(d - 1, lo), Last(d - 1, hi), lo, hi, e.free);
    }
  }

  lemma {:induction false} ApplyKidsTight(op: Op, kids: seq<Tree>, d: nat, i: nat, n: nat, lo: nat, hi: nat, free: seq<nat>)
    requires (forall k | 0 <= k < |kids| :: Shaped(kids[k], d) && Tight(kids[k], d))
    requires lo < hi && First(d, lo) <= i && n == Last(d, hi) <= |kids| && ApplyKids(op, kids, d, i, n, lo, hi, free).Some?
    ensures var r := ApplyKids(op, kids, d, i, n, lo, hi, free).value;
            && |r.kids| == |kids| && (forall k | 0 <= k < |kids| :: Tight(r.kids[k], d))
            && (i < n && !op.Clear? ==> !r.kids[i].Absent?)
    decreases d, 1, n - i
  {
    if i < n {
      TouchedExactly(d, lo, hi, i);
      ApplyTight(op, kids[i], d, Lo(d, i, lo), Hi(d, i, hi), free);
      ApplyKidsTight(op, kids, d, i + 1, n, lo, hi, Apply(op, kids[i], d, Lo(d, i, lo), Hi(d, i, hi), free).value.free);
    }
  }

  /** So below every table there is a mapped page. */
  lemma {:induction false} TightMapped(t: Tree, d: nat) returns (p: nat)
    requires Shaped(t, d) && Tight(t, d) && !t.Absent?
    ensures p < Size(d) && Lookup(t, d, p).Page?
    decreases d
  {
    if d == 0 { return 0; }
    var i :| 0 <= i < |t.kids| && !t.kids[i].Absent?;
    var r := TightMapped(t.kids[i], d - 1);
    p := Shl(d - 1, i) + r;
    ShlSize(d - 1, i);
    ShrExactly(d - 1, p, i);
    ShlMono(d - 1, i + 1, FANOUT);
    ShlOne(d);
  }
}
