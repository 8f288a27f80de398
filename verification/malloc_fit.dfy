/** The best-fit search for large requests: one bin's trie walked by the bits of the request, then the next bin that is not empty. */
module MallocFit {
  import opened Arithmetic
  import opened MallocTrie

  /** How much of a node's chunk the request would leave over; a chunk too small wraps around. */
  function Remainder(size: nat, nb: nat): nat { (size - nb) % WORD }

  /** The remainder to beat: that of the best node so far, at first the largest a fitting chunk could have. */
  function ToBeat(v: Trie, nb: nat): nat { if v.Node? then Remainder(v.size, nb) else (0 - nb) % WORD }

  predicate Improves(t: Trie, v: Trie, nb: nat)
    requires t.Node?
  {
    Remainder(t.size, nb) < ToBeat(v, nb)
  }

  function Better(t: Trie, v: Trie, nb: nat): Trie
    requires t.Node?
  {
    if Improves(t, v, nb) then t else v
  }

  datatype Found = Found(best: Trie, rest: Trie)

  /**
    Following the bits of the request down a trie.  `rst` is the deepest right half passed by;
    `rest` is where the search goes on when the path ends.
   */
  function Descend(t: Trie, n: nat, nb: nat, v: Trie, rst: Trie): Found
    decreases t
  {
    if t.Nil? then Found(v, rst)
    else
      var v1 := Better(t, v, nb);
      if Improves(t, v, nb) && t.size == nb then Found(v1, t)
      else
        var goRight := n > 0 && Bit(nb, n - 1);
        Descend(if goRight then t.right else t.left, n - 1 + if n == 0 then 1 else 0, nb, v1,
                if t.right.Node? && !goRight then t.right else rst)
  }

  function LeftmostChild(t: Trie): Trie
    requires t.Node?
  {
    if t.left.Node? then t.left else t.right
  }

  /** Looking for the smallest size down the leftmost children. */
  function Walk(t: Trie, nb: nat, v: Trie): Trie
    decreases t
  {
    if t.Nil? then v else Walk(LeftmostChild(t), nb, Better(t, v, nb))
  }

  /** `r` is the best fit for `nb` among the sizes `s` and the node `v`, if any. */
  ghost predicate BestOf(r: Trie, v: Trie, s: set<nat>, nb: nat) {
    && (r.Nil? <==> v.Nil? && forall x | x in s :: x < nb)
    && (r.Node? ==>
          && r.size >= nb && (r == v || r.size in s)
          && (v.Node? ==> r.size <= v.size) && forall x | x in s :: x >= nb ==> r.size <= x)
  }

  /** What a best node so far is. */
  predicate FitFor(v: Trie, nb: nat) { v.Node? ==> nb <= v.size < WORD }

  lemma BetterExact(t: Trie, v: Trie, nb: nat)
    requires t.Node? && t.size < WORD && 0 < nb < WORD && FitFor(v, nb)
    ensures Better(t, v, nb) == if t.size >= nb && (v.Nil? || t.size < v.size) then t else v
  {
    assert (0 - nb) % WORD == WORD - nb;
    if t.size >= nb { assert (t.size - nb) % WORD == t.size - nb; } else { assert (t.size - nb) % WORD == t.size - nb + WORD; }
    if v.Node? { assert (v.size - nb) % WORD == v.size - nb; }
  }

  /** Size `x` cannot be the best: it is too small, or the sizes `s` have one that fits no worse. */
  ghost predicate Beaten(x: nat, s: set<nat>, nb: nat) { x < nb || exists y :: y in s && nb <= y <= x }

  /** The best of the rest, once a node has been looked at, is the best of all. */
  lemma StepBest(r: Trie, t: Trie, v: Trie, s': set<nat>, s: set<nat>, nb: nat)
    requires t.Node? && t.size < WORD && 0 < nb < WORD && FitFor(v, nb) && BestOf(r, Better(t, v, nb), s', nb)
    requires t.size in s && s' <= s && forall x | x in s :: x == t.size || Beaten(x, s', nb)
    ensures BestOf(r, v, s, nb)
  {
    BetterExact(t, v, nb);
    forall x | x in s && x >= nb ensures r.Node? && r.size <= x {
      if x != t.size {
        assert Beaten(x, s', nb);
        var y :| y in s' && nb <= y <= x;
      }
    }
  }

  lemma Parts(t: Trie, n: nat, lo: nat)
    requires t.Node? && Fits(t, n, lo)
    ensures Sizes(t) == {t.size} + Sizes(t.left) + Sizes(t.right) && t.size < lo + Pow2(n)
    ensures n > 0 ==> Pow2(n) == 2 * Pow2(n - 1) && Fits(t.left, n - 1, lo) && Fits(t.right, n - 1, lo + Pow2(n - 1))
    ensures n == 0 ==> t.left.Nil? && t.right.Nil?
    ensures t.left.Node? ==> t.left.size in Sizes(t.left)
    ensures t.right.Node? ==> t.right.size in Sizes(t.right)
    ensures forall x, y | x in Sizes(t.left) && y in Sizes(t.right) :: x < y
  {
    if n > 0 {
      SizesFit(t.left, n - 1, lo);
      SizesFit(t.right, n - 1, lo + Pow2(n - 1));
    }
  }

  lemma InSelf(s: set<nat>, s': set<nat>, nb: nat)
    requires s <= s'
    ensures forall x | x in s :: Beaten(x, s', nb)
  {
    forall x | x in s ensures Beaten(x, s', nb) { if x >= nb { assert x in s' && nb <= x <= x; } }
  }

  predicate AtLeast(t: Trie, nb: nat) { t.Node? ==> t.size >= nb && AtLeast(t.left, nb) && AtLeast(t.right, nb) }

  lemma {:induction false} AtLeastFrom(t: Trie, nb: nat)
    requires forall x | x in Sizes(t) :: x >= nb
    ensures AtLeast(t, nb)
    decreases t
  {
    if t.Node? {
      assert t.size in Sizes(t) && Sizes(t.left) <= Sizes(t) && Sizes(t.right) <= Sizes(t);
      AtLeastFrom(t.left, nb);
      AtLeastFrom(t.right, nb);
    }
  }

  lemma {:induction false} AtLeastSizes(t: Trie, nb: nat)
    requires AtLeast(t, nb)
    ensures forall x | x in Sizes(t) :: x >= nb
    decreases t
  {
    if t.Node? {
      AtLeastSizes(t.left, nb);
      AtLeastSizes(t.right, nb);
    }
  }

  /** In a trie of sizes that all fit, the leftmost path holds the smallest. */
  lemma {:induction false} WalkBest(t: Trie, n: nat, lo: nat, nb: nat, v: Trie)
    requires Fits(t, n, lo) && AtLeast(t, nb) && lo + Pow2(n) <= WORD && 0 < nb < WORD && FitFor(v, nb)
    ensures BestOf(Walk(t, nb, v), v, Sizes(t), nb)
    decreases t
  {
    if t.Node? {
      Parts(t, n, lo);
      BetterExact(t, v, nb);
      var c := LeftmostChild(t);
      if n > 0 { WalkBest(c, n - 1, if t.left.Node? then lo else lo + Pow2(n - 1), nb, Better(t, v, nb)); }
      forall x | x in Sizes(t) ensures x == t.size || Beaten(x, Sizes(c), nb) {
        if x != t.size { LeftmostBeats(t, n, lo, nb, x); }
      }
      StepBest(Walk(t, nb, v), t, v, Sizes(c), Sizes(t), nb);
    }
  }

  lemma LeftmostBeats(t: Trie, n: nat, lo: nat, nb: nat, x: nat)
    requires t.Node? && Fits(t, n, lo) && AtLeast(t, nb) && x in Sizes(t) && x != t.size
    ensures Beaten(x, Sizes(LeftmostChild(t)), nb)
  {
    Parts(t, n, lo);
    var c := LeftmostChild(t);
    AtLeastSizes(c, nb);
    if x !in Sizes(c) { assert c.size in Sizes(c) && nb <= c.size <= x; } else { assert x in Sizes(c) && nb <= x <= x; }
  }

  /** An exact fit is not beaten. */
  lemma {:induction false} WalkKeeps(t: Trie, n: nat, lo: nat, nb: nat, v: Trie)
    requires Fits(t, n, lo) && lo + Pow2(n) <= WORD && 0 < nb < WORD && v.Node? && v.size == nb
    ensures Walk(t, nb, v) == v
    decreases t
  {
    if t.Node? {
      BetterExact(t, v, nb);
      if n > 0 {
        if t.left.Node? { WalkKeeps(t.left, n - 1, lo, nb, v); } else { WalkKeeps(t.right, n - 1, lo + Pow2(n - 1), nb, v); }
      }
    }
  }

  /** What the search comes to. */
  function Finish(f: Found, nb: nat): Trie { Walk(f.rest, nb, f.best) }

  /**
    The search from a node whose range holds the request, with a right half passed by whose sizes
    are beyond the range, finds the best fit of the two.
   */
  lemma {:induction false} DescendBest(t: Trie, n: nat, lo: nat, nb: nat, v: Trie, rst: Trie, n': nat, lo': nat)
    requires Fits(t, n, lo) && Aligned(lo, n) && lo <= nb < lo + Pow2(n) <= WORD && 0 < nb && FitFor(v, nb)
    requires Fits(rst, n', lo') && (rst.Node? ==> lo + Pow2(n) <= lo' && lo' + Pow2(n') <= WORD)
    ensures BestOf(Finish(Descend(t, n, nb, v, rst), nb), v, Sizes(t) + Sizes(rst), nb)
    decreases t, 1
  {
    if t.Nil? {
      if rst.Node? {
        SizesFit(rst, n', lo');
        AtLeastFrom(rst, nb);
        WalkBest(rst, n', lo', nb, v);
      }
      assert Sizes(t) + Sizes(rst) == Sizes(rst);
    } else {
      BetterExact(t, v, nb);
      SizesFit(rst, n', lo');
      if Improves(t, v, nb) && t.size == nb {
        WalkKeeps(t, n, lo, nb, t);
        SizesFit(t, n, lo);
      } else {
        DescendStep(t, n, lo, nb, v, rst, n', lo');
      }
    }
  }

  /** Every size of `s` but `own` is among `s'`, or cannot be the best. */
  ghost predicate Covers(own: nat, s: set<nat>, s': set<nat>, nb: nat) {
    own in s && s' <= s && forall x | x in s :: x == own || Beaten(x, s', nb)
  }

  /** Below the request: the left half, when the request's bit is set. */
  lemma CoversRight(own: nat, l: set<nat>, r: set<nat>, q: set<nat>, nb: nat)
    requires forall x | x in l :: x < nb
    ensures Covers(own, {own} + l + r + q, r + q, nb)
  {
    InSelf(r + q, r + q, nb);
  }

  /** Beyond the right half: what was passed by before, when there is a right half. */
  lemma CoversLeft(own: nat, l: set<nat>, r: set<nat>, q: set<nat>, nb: nat, y: nat)
    requires y in r && nb <= y && forall x | x in q :: y <= x
    ensures Covers(own, {own} + l + r + q, l + r, nb)
  {
    var s' := l + r;
    InSelf(s', s', nb);
    forall x | x in q ensures Beaten(x, s', nb) { assert y in s' && nb <= y <= x; }
  }

  /** The sizes of a node and of what was passed by. */
  function Scope(t: Trie, rst: Trie): set<nat>
    requires t.Node?
  {
    {t.size} + Sizes(t.left) + Sizes(t.right) + Sizes(rst)
  }

  /** The search goes on below `t`, among the sizes `s'`, and finds the best there. */
  lemma BestAbove(r: Trie, t: Trie, v: Trie, rst: Trie, s': set<nat>, nb: nat)
    requires t.Node? && t.size < WORD && 0 < nb < WORD && FitFor(v, nb)
    requires BestOf(r, Better(t, v, nb), s', nb) && Covers(t.size, Scope(t, rst), s', nb)
    ensures BestOf(r, v, Scope(t, rst), nb)
  {
    StepBest(r, t, v, s', Scope(t, rst), nb);
  }

  /** The search below a node, by the bit of the request. */
  lemma Unfold(t: Trie, n: nat, nb: nat, v: Trie, rst: Trie)
    requires t.Node? && n > 0 && !(Improves(t, v, nb) && t.size == nb)
    ensures var goRight := Bit(nb, n - 1);
            Descend(t, n, nb, v, rst) == Descend(if goRight then t.right else t.left, n - 1, nb, Better(t, v, nb),
                                                 if t.right.Node? && !goRight then t.right else rst)
    ensures Sizes(t) + Sizes(rst) == Scope(t, rst)
  {
  }

  lemma {:induction false} DescendStep(t: Trie, n: nat, lo: nat, nb: nat, v: Trie, rst: Trie, n': nat, lo': nat)
    requires t.Node? && Fits(t, n, lo) && Aligned(lo, n) && lo <= nb < lo + Pow2(n) <= WORD && 0 < nb && FitFor(v, nb)
    requires Fits(rst, n', lo') && (rst.Node? ==> lo + Pow2(n) <= lo' && lo' + Pow2(n') <= WORD)
    requires !(Improves(t, v, nb) && t.size == nb)
    ensures BestOf(Finish(Descend(t, n, nb, v, rst), nb), v, Sizes(t) + Sizes(rst), nb)
    decreases t, 0
  {
    if n == 0 {
      Parts(t, n, lo);
      BetterExact(t, v, nb);
      DescendBest(Nil, 0, lo, nb, Better(t, v, nb), rst, n', lo');
      CoversRight(t.size, {}, {}, Sizes(rst), nb);
      assert Sizes(Nil) + Sizes(rst) == {} + Sizes(rst);
      BestAbove(Finish(Descend(t, n, nb, v, rst), nb), t, v, rst, {} + Sizes(rst), nb);
    } else {
      Unfold(t, n, nb, v, rst);
      if Bit(nb, n - 1) { DescendRight(t, n, lo, nb, v, rst, n', lo'); } else { DescendLeft(t, n, lo, nb, v, rst, n', lo'); }
    }
  }

  lemma {:induction false} DescendRight(t: Trie, n: nat, lo: nat, nb: nat, v: Trie, rst: Trie, n': nat, lo': nat)
    requires t.Node? && n > 0 && Fits(t, n, lo) && Aligned(lo, n) && lo <= nb < lo + Pow2(n) <= WORD && 0 < nb && FitFor(v, nb)
    requires Fits(rst, n', lo') && (rst.Node? ==> lo + Pow2(n) <= lo' && lo' + Pow2(n') <= WORD) && Bit(nb, n - 1)
    requires !(Improves(t, v, nb) && t.size == nb)
    ensures BestOf(Finish(Descend(t.right, n - 1, nb, Better(t, v, nb), rst), nb), v, Scope(t, rst), nb)
    decreases t, -1
  {
    Halves(nb, n, lo);
    BetterExact(t, v, nb);
    DescendBest(t.right, n - 1, lo + Pow2(n - 1), nb, Better(t, v, nb), rst, n', lo');
    SizesFit(t.left, n - 1, lo);
    CoversRight(t.size, Sizes(t.left), Sizes(t.right), Sizes(rst), nb);
    BestAbove(Finish(Descend(t.right, n - 1, nb, Better(t, v, nb), rst), nb), t, v, rst, Sizes(t.right) + Sizes(rst), nb);
  }

  lemma {:induction false} DescendLeft(t: Trie, n: nat, lo: nat, nb: nat, v: Trie, rst: Trie, n': nat, lo': nat)
    requires t.Node? && n > 0 && Fits(t, n, lo) && Aligned(lo, n) && lo <= nb < lo + Pow2(n) <= WORD && 0 < nb && FitFor(v, nb)
    requires Fits(rst, n', lo') && (rst.Node? ==> lo + Pow2(n) <= lo' && lo' + Pow2(n') <= WORD) && !Bit(nb, n - 1)
    requires !(Improves(t, v, nb) && t.size == nb)
    ensures BestOf(Finish(Descend(t.left, n - 1, nb, Better(t, v, nb), if t.right.Node? then t.right else rst), nb), v, Scope(t, rst), nb)
    decreases t, -1
  {
    Halves(nb, n, lo);
    BetterExact(t, v, nb);
    if t.right.Node? {
      DescendBest(t.left, n - 1, lo, nb, Better(t, v, nb), t.right, n - 1, lo + Pow2(n - 1));
      RightPassed(Finish(Descend(t.left, n - 1, nb, Better(t, v, nb), t.right), nb), t, n, lo, nb, v, rst, n', lo');
    } else {
      DescendBest(t.left, n - 1, lo, nb, Better(t, v, nb), rst, n', lo');
      NonePassed(Finish(Descend(t.left, n - 1, nb, Better(t, v, nb), rst), nb), t, n, lo, nb, v, rst);
    }
  }

  lemma RightPassed(r: Trie, t: Trie, n: nat, lo: nat, nb: nat, v: Trie, rst: Trie, n': nat, lo': nat)
    requires t.Node? && n > 0 && Fits(t, n, lo) && Fits(rst, n', lo') && (rst.Node? ==> lo + Pow2(n) <= lo') && lo + Pow2(n) <= WORD
    requires 0 < nb < lo + Pow2(n - 1) && Pow2(n) == 2 * Pow2(n - 1) && FitFor(v, nb) && t.right.Node?
    requires BestOf(r, Better(t, v, nb), Sizes(t.left) + Sizes(t.right), nb)
    ensures BestOf(r, v, Scope(t, rst), nb)
  {
    SizesFit(t.right, n - 1, lo + Pow2(n - 1));
    SizesFit(rst, n', lo');
    CoversLeft(t.size, Sizes(t.left), Sizes(t.right), Sizes(rst), nb, t.right.size);
    BestAbove(r, t, v, rst, Sizes(t.left) + Sizes(t.right), nb);
  }

  lemma NonePassed(r: Trie, t: Trie, n: nat, lo: nat, nb: nat, v: Trie, rst: Trie)
    requires t.Node? && Fits(t, n, lo) && lo + Pow2(n) <= WORD && 0 < nb < WORD && FitFor(v, nb) && t.right.Nil?
    requires BestOf(r, Better(t, v, nb), Sizes(t.left) + Sizes(rst), nb)
    ensures BestOf(r, v, Scope(t, rst), nb)
  {
    CoversRight(t.size, {}, Sizes(t.left), Sizes(rst), nb);
    assert Scope(t, rst) == {t.size} + {} + Sizes(t.left) + Sizes(rst);
    BestAbove(r, t, v, rst, Sizes(t.left) + Sizes(rst), nb);
  }

  // ---------------------------------------------------------------- what is found is there

  predicate PartOf(r: Trie, t: Trie) { r == t || (t.Node? && (PartOf(r, t.left) || PartOf(r, t.right))) }

  lemma {:induction false} WalkPart(t: Trie, nb: nat, v: Trie)
    ensures Walk(t, nb, v) == v || PartOf(Walk(t, nb, v), t)
    decreases t
  {
    if t.Node? { WalkPart(LeftmostChild(t), nb, Better(t, v, nb)); }
  }

  lemma {:induction false} DescendPart(t: Trie, n: nat, nb: nat, v: Trie, rst: Trie)
    ensures var f := Descend(t, n, nb, v, rst);
            && (f.best == v || PartOf(f.best, t))
            && (f.rest == rst || PartOf(f.rest, t))
    decreases t
  {
    if t.Node? && !(Improves(t, v, nb) && t.size == nb) {
      var goRight := n > 0 && Bit(nb, n - 1);
      var c := if goRight then t.right else t.left;
      DescendPart(c, n - 1 + if n == 0 then 1 else 0, nb, Better(t, v, nb), if t.right.Node? && !goRight then t.right else rst);
      assert PartOf(t, t) && PartOf(t.right, t.right);
    }
  }

  lemma {:induction false} PartTrans(a: Trie, b: Trie, c: Trie)
    requires PartOf(a, b) && PartOf(b, c)
    ensures PartOf(a, c)
    decreases c
  {
    if b != c { if PartOf(b, c.left) { PartTrans(a, b, c.left); } else { PartTrans(a, b, c.right); } }
  }

  /** The chunk of a node of a trie is one of the trie's. */
  lemma {:induction false} PartContent(r: Trie, t: Trie, n: nat, lo: nat)
    requires r.Node? && PartOf(r, t) && Fits(t, n, lo)
    ensures r.chain != [] && Chunk(r.chain[0], r.size) in Content(t)
    decreases t
  {
    if r != t {
      if PartOf(r, t.left) { PartContent(r, t.left, n - 1, lo); } else { PartContent(r, t.right, n - 1, lo + Pow2(n - 1)); }
    }
  }

  lemma FinishPart(t: Trie, n: nat, nb: nat)
    requires Finish(Descend(t, n, nb, Nil, Nil), nb).Node?
    ensures PartOf(Finish(Descend(t, n, nb, Nil, Nil), nb), t)
  {
    var f := Descend(t, n, nb, Nil, Nil);
    DescendPart(t, n, nb, Nil, Nil);
    WalkPart(f.rest, nb, f.best);
    if Finish(f, nb) != f.best && f.rest != Nil { PartTrans(Finish(f, nb), f.rest, t); }
  }

  /** Where a search is to go on, the sizes fit. */
  lemma {:induction false} RestFits(t: Trie, n: nat, lo: nat, nb: nat, v: Trie, rst: Trie)
    requires Fits(t, n, lo) && Aligned(lo, n) && lo <= nb < lo + Pow2(n) && (rst.Node? ==> rst.size >= nb)
    ensures var f := Descend(t, n, nb, v, rst); f.rest.Node? ==> f.rest.size >= nb
    decreases t
  {
    if t.Node? && n > 0 && !(Improves(t, v, nb) && t.size == nb) {
      var b := Bit(nb, n - 1);
      var rst' := if t.right.Node? && !b then t.right else rst;
      assert rst'.Node? ==> rst'.size >= nb by { Halves(nb, n, lo); }
      HalfFits(t, n, lo, nb);
      RestFits(Half(t, b), n - 1, if b then lo + Pow2(n - 1) else lo, nb, Better(t, v, nb), rst');
    }
  }

  lemma {:induction false} WalkNode(t: Trie, nb: nat, v: Trie)
    requires v.Node?
    ensures Walk(t, nb, v).Node?
    decreases t
  {
    if t.Node? { WalkNode(LeftmostChild(t), nb, Better(t, v, nb)); }
  }

  /** So a search that has found something, or has somewhere to go on, finds something. */
  lemma FoundSome(f: Found, nb: nat)
    requires 0 < nb < WORD && (f.best.Node? || (f.rest.Node? && nb <= f.rest.size < WORD))
    ensures Finish(f, nb).Node?
  {
    if f.best.Node? {
      WalkNode(f.rest, nb, f.best);
    } else {
      BetterExact(f.rest, Nil, nb);
      WalkNode(LeftmostChild(f.rest), nb, f.rest);
    }
  }
}
