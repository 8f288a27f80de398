/**
  Address spaces and the frame allocator: creating, changing, cloning and destroying spaces
  over any run keeps every frame in exactly one place.
 */
module PageSpaces {
  import opened Wrappers
  import opened PageTree
  import opened PageOps
  import opened PageFrames
  import opened PageHalts

  /** Entries of a top-level table below the kernel half, and the pages they cover. */
  const HALF: nat := 256

  function LowPages(): nat { Shl(LEVELS - 1, HALF) }

  /** A top-level table: the user half, and the kernel half as it was copied. */
  datatype Space = Space(frame: nat, low: seq<Tree>, high: seq<int>)

  predicate SpaceOk(s: Space) {
    |s.low| == HALF && forall i | 0 <= i < |s.low| :: Shaped(s.low[i], LEVELS - 1) && Tight(s.low[i], LEVELS - 1)
  }

  /** The page that user page `p` leads to. */
  function Mapped(s: Space, p: nat): Tree { LookupKids(s.low, LEVELS - 1, p) }

  function SpaceFrames(s: Space): multiset<nat> { multiset{s.frame} + AllFrames(s.low, LEVELS - 1, |s.low|) }

  datatype Grant = Grant(space: Space, free: seq<nat>)

  function Create(high: seq<int>, free: seq<nat>): Option<Grant> {
    if free == [] then None else Some(Grant(Space(free[0], seq(HALF, i => Absent), high), free[1..]))
  }

  /** Assigning, clearing or editing user pages `lo` to `hi`; the limits are asserted first. */
  function Change(op: Op, s: Space, lo: nat, hi: nat, free: seq<nat>): Option<Grant> {
    if !(lo < hi <= LowPages()) then None
    else
      match ApplyKids(op, s.low, LEVELS - 1, First(LEVELS - 1, lo), Last(LEVELS - 1, hi), lo, hi, free)
      case None => None
      case Some(r) => Some(Grant(s.(low := r.kids), r.free))
  }

  /** Clearing the whole user half and freeing the top-level table. */
  function Destroy(s: Space, free: seq<nat>): Option<seq<nat>> {
    match Change(Clear, s, 0, LowPages(), free)
    case None => None
    case Some(r) => Some([s.frame] + r.free)
  }

  lemma HalfFits(hi: nat)
    requires hi <= LowPages()
    ensures Last(LEVELS - 1, hi) <= HALF
  {
    var d := LEVELS - 1;
    var x := hi + Size(d) - 1;
    ShlSize(d, HALF);
    ShrExactly(d, x, Shr(d, x));
    if Shr(d, x) > HALF { ShlMono(d, HALF + 1, Shr(d, x)); }
  }

  // ---------------------------------------------------------------- one operation

  lemma SpaceHeld(s: Space, free: seq<nat>)
    ensures SpaceFrames(s) + multiset(free) == multiset{s.frame} + HeldKids(s.low, LEVELS - 1, free)
  {
  }

  lemma CreateOk(high: seq<int>, free: seq<nat>)
    requires free != []
    ensures var r := Create(high, free).value;
            && SpaceOk(r.space) && r.space.high == high && (forall p: nat :: Mapped(r.space, p) == Absent)
            && SpaceFrames(r.space) + multiset(r.free) == multiset(free)
  {
    var r := Create(high, free).value;
    NoFrames(r.space.low, LEVELS - 1, HALF);
    Taken(free);
    forall p: nat ensures Mapped(r.space, p) == Absent { AbsentLookup(r.space.low, LEVELS - 1, p); }
  }

  /** A change keeps the space in order, and updates exactly the pages of its range. */
  lemma ChangeOk(op: Op, s: Space, lo: nat, hi: nat, free: seq<nat>)
    requires SpaceOk(s) && Change(op, s, lo, hi, free).Some?
    ensures var r := Change(op, s, lo, hi, free).value;
            && SpaceOk(r.space) && r.space.high == s.high && r.space.frame == s.frame
            && SpaceFrames(r.space) + multiset(r.free) == SpaceFrames(s) + multiset(free)
            && forall p: nat :: Updated(op, lo <= p < hi, Mapped(s, p), Mapped(r.space, p))
  {
    var d := LEVELS - 1;
    var r := Change(op, s, lo, hi, free).value;
    HalfFits(hi);
    ApplyKidsShaped(op, s.low, d, First(d, lo), Last(d, hi), lo, hi, free);
    ApplyKidsTight(op, s.low, d, First(d, lo), Last(d, hi), lo, hi, free);
    ApplyKidsConserves(op, s.low, d, First(d, lo), Last(d, hi), lo, hi, free);
    SpaceHeld(s, free);
    SpaceHeld(r.space, r.free);
    forall p: nat ensures Updated(op, lo <= p < hi, Mapped(s, p), Mapped(r.space, p)) {
      ApplyKidsLooks(op, s.low, d, First(d, lo), Last(d, hi), lo, hi, free, p);
      if lo <= p < hi { InRangeTouched(d, lo, hi, p); }
    }
  }

  /**
    A change panics exactly if its limits are wrong, it finds a page it may not find, or there
    are fewer free frames than the pages it assigns and the tables it creates.
   */
  lemma ChangePanics(op: Op, s: Space, lo: nat, hi: nat, free: seq<nat>)
    requires SpaceOk(s)
    ensures Change(op, s, lo, hi, free).None? <==>
              !(lo < hi <= LowPages())
              || (exists p: nat :: lo <= p < hi && Refused(op, Mapped(s, p)))
              || |free| < NeedKids(op, s.low, LEVELS - 1, First(LEVELS - 1, lo), Last(LEVELS - 1, hi), lo, hi)
  {
    if lo < hi <= LowPages() {
      var d := LEVELS - 1;
      HalfFits(hi);
      ApplyKidsHalts(op, s.low, d, First(d, lo), Last(d, hi), lo, hi, free);
      forall p: nat | lo <= p < hi && Refused(op, Mapped(s, p)) ensures RefusesKids(op, s.low, d, First(d, lo), lo, hi) {
        InRangeTouched(d, lo, hi, p);
        assert Refused(op, LookupKids(s.low, d, p));
      }
      if RefusesKids(op, s.low, d, First(d, lo), lo, hi) {
        var p: nat :| lo <= p < hi && First(d, lo) <= Shr(d, p) && Refused(op, LookupKids(s.low, d, p));
        assert Refused(op, Mapped(s, p));
      }
    }
  }

  /** Below every top-level entry there is a mapped page. */
  lemma MappedBelow(s: Space, i: nat) returns (p: nat)
    requires SpaceOk(s) && i < HALF && s.low[i] != Absent
    ensures p < LowPages() && Mapped(s, p).Page?
  {
    var d := LEVELS - 1;
    var r := TightMapped(s.low[i], d);
    p := Shl(d, i) + r;
    ShlSize(d, i);
    ShrExactly(d, p, i);
    ShlMono(d, i + 1, HALF);
  }

  /** A space with no mapped page owns only its top-level table. */
  lemma EmptyOwnsNothing(s: Space)
    requires SpaceOk(s) && forall p: nat | p < LowPages() :: Mapped(s, p) == Absent
    ensures SpaceFrames(s) == multiset{s.frame}
  {
    forall i | 0 <= i < |s.low| ensures s.low[i] == Absent {
      if s.low[i] != Absent { var p := MappedBelow(s, i); }
    }
    NoFrames(s.low, LEVELS - 1, HALF);
  }

  /** Clearing everything never panics. */
  lemma {:induction false} ClearNever(t: Tree, d: nat, lo: nat, hi: nat, free: seq<nat>)
    requires Shaped(t, d)
    ensures Apply(Clear, t, d, lo, hi, free).Some?
    decreases d, 0, 0
  {
    if d > 0 && t.Table? { ClearKidsNever(t.kids, d - 1, First(d - 1, lo), Last(d - 1, hi), lo, hi, free); }
  }

  lemma {:induction false} ClearKidsNever(kids: seq<Tree>, d: nat, i: nat, n: nat, lo: nat, hi: nat, free: seq<nat>)
    requires forall k | 0 <= k < |kids| :: Shaped(kids[k], d)
    ensures ApplyKids(Clear, kids, d, i, n, lo, hi, free).Some?
    decreases d, 1, n - i
  {
    if i < n && i < |kids| {
      ClearNever(kids[i], d, Lo(d, i, lo), Hi(d, i, hi), free);
      var r := Apply(Clear, kids[i], d, Lo(d, i, lo), Hi(d, i, hi), free).value;
      ClearKidsNever(kids, d, i + 1, n, lo, hi, r.free);
      ApplyKidsShaped(Clear, kids, d, i + 1, n, lo, hi, r.free);
    }
  }

  /** Destroying a space always succeeds and frees exactly the frames it owns. */
  lemma DestroyFrees(s: Space, free: seq<nat>)
    requires SpaceOk(s)
    ensures Destroy(s, free).Some? && multiset(Destroy(s, free).value) == SpaceFrames(s) + multiset(free)
  {
    var d := LEVELS - 1;
    ShlSize(d, HALF);
    ClearKidsNever(s.low, d, First(d, 0), Last(d, LowPages()), 0, LowPages(), free);
    ChangeOk(Clear, s, 0, LowPages(), free);
    var r := Change(Clear, s, 0, LowPages(), free).value;
    forall p: nat | p < LowPages() ensures Mapped(r.space, p) == Absent {
      assert Updated(Clear, true, Mapped(s, p), Mapped(r.space, p));
    }
    EmptyOwnsNothing(r.space);
  }

  // ---------------------------------------------------------------- frames are distinct

  lemma {:induction false} LookupOwned(t: Tree, d: nat, p: nat)
    requires Shaped(t, d) && Lookup(t, d, p).Page?
    ensures Lookup(t, d, p).frame in Frames(t, d)
    decreases d, 0
  {
    if d > 0 { LookupKidsOwned(t.kids, d - 1, p); }
  }

  lemma {:induction false} LookupKidsOwned(kids: seq<Tree>, d: nat, p: nat)
    requires (forall k | 0 <= k < |kids| :: Shaped(kids[k], d)) && LookupKids(kids, d, p).Page?
    ensures LookupKids(kids, d, p).frame in AllFrames(kids, d, |kids|)
    decreases d, 1
  {
    LookupOwned(kids[Shr(d, p)], d, Rest(d, p));
    KidOwned(kids, d, |kids|, Shr(d, p));
  }

  lemma Grows(x: multiset<nat>, a: multiset<nat>, y: multiset<nat>)
    requires x <= a
    ensures x <= a + y && x + y <= a + y
  {
  }

  lemma {:induction false} KidOwned(kids: seq<Tree>, d: nat, n: nat, i: nat)
    requires i < n <= |kids|
    ensures Frames(kids[i], d) <= AllFrames(kids, d, n)
    decreases n
  {
    if i < n - 1 {
      KidOwned(kids, d, n - 1, i);
      Grows(Frames(kids[i], d), AllFrames(kids, d, n - 1), Frames(kids[n - 1], d));
    }
  }

  lemma {:induction false} TwoKidsOwned(kids: seq<Tree>, d: nat, n: nat, i: nat, j: nat)
    requires i < j < n <= |kids|
    ensures Frames(kids[i], d) + Frames(kids[j], d) <= AllFrames(kids, d, n)
    decreases n
  {
    var x, y, a := Frames(kids[i], d), Frames(kids[j], d), AllFrames(kids, d, n - 1);
    if j < n - 1 {
      TwoKidsOwned(kids, d, n - 1, i, j);
      Grows(x + y, a, Frames(kids[n - 1], d));
    } else {
      KidOwned(kids, d, n - 1, i);
      Grows(x, a, y);
    }
  }

  /** Two pages own two frames. */
  lemma {:induction false} TwoPagesOwned(kids: seq<Tree>, d: nat, p: nat, q: nat)
    requires (forall k | 0 <= k < |kids| :: Shaped(kids[k], d)) && p < q
    requires LookupKids(kids, d, p).Page? && LookupKids(kids, d, q).Page?
    ensures multiset{LookupKids(kids, d, p).frame, LookupKids(kids, d, q).frame} <= AllFrames(kids, d, |kids|)
    decreases d
  {
    var i, j := Shr(d, p), Shr(d, q);
    RestFits(d, p);
    RestFits(d, q);
    LookupOwned(kids[i], d, Rest(d, p));
    LookupOwned(kids[j], d, Rest(d, q));
    if i == j {
      KidOwned(kids, d, |kids|, i);
      if d > 0 { TwoPagesOwned(kids[i].kids, d - 1, Rest(d, p), Rest(d, q)); }
    } else if i < j {
      TwoKidsOwned(kids, d, |kids|, i, j);
    } else {
      TwoKidsOwned(kids, d, |kids|, j, i);
    }
  }
}
