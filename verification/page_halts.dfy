/** When the range operations panic: exactly when a page of the range is refused or memory runs out. */
module PageHalts {
  import opened Wrappers
  import opened PageTree
  import opened PageOps

  /** Pages an operation may not find in its range. */
  predicate Refused(op: Op, before: Tree) {
    match op
    case Assign(_) => !before.Absent?
    case Clear => false
    case Edit(_) => before.Absent?
  }

  /** How many frames the operation takes: one a page assigned, and one a table created. */
  function Need(op: Op, t: Tree, d: nat, lo: nat, hi: nat): nat
    decreases d, 0, 0
  {
    if !op.Assign? then 0
    else if d == 0 then 1
    else match t
      case Absent => 1 + NeedKids(op, NoKids(), d - 1, First(d - 1, lo), Last(d - 1, hi), lo, hi)
      case Page(_, _) => 0
      case Table(_, kids) => NeedKids(op, kids, d - 1, First(d - 1, lo), Last(d - 1, hi), lo, hi)
  }

  function NeedKids(op: Op, kids: seq<Tree>, d: nat, i: nat, n: nat, lo: nat, hi: nat): nat
    decreases d, 1, n - i
  {
    if !op.Assign? || i >= n || i >= |kids| then 0
    else Need(op, kids[i], d, Lo(d, i, lo), Hi(d, i, hi)) + NeedKids(op, kids, d, i + 1, n, lo, hi)
  }

  ghost predicate Refuses(op: Op, t: Tree, d: nat, lo: nat, hi: nat) {
    exists p: nat :: lo <= p < hi && Refused(op, Lookup(t, d, p))
  }

  /** As `Refuses`, for the entries from `i` on. */
  ghost predicate RefusesKids(op: Op, kids: seq<Tree>, d: nat, i: nat, lo: nat, hi: nat) {
    exists p: nat :: lo <= p < hi && i <= Shr(d, p) && Refused(op, LookupKids(kids, d, p))
  }

  /** The verdict on an operation, and the length of the free list it leaves. */
  predicate AsNeeded(op: Op, need: nat, before: nat, after: nat) {
    if op.Clear? then after >= before else after + need == before
  }

  lemma RefusesPart(op: Op, kids: seq<Tree>, d: nat, i: nat, lo: nat, hi: nat)
    requires lo < hi && First(d, lo) <= i < Last(d, hi) && i < |kids|
    ensures RefusesKids(op, kids, d, i, lo, hi) <==>
              Refuses(op, kids[i], d, Lo(d, i, lo), Hi(d, i, hi)) || RefusesKids(op, kids, d, i + 1, lo, hi)
  {
    TouchedExactly(d, lo, hi, i);
    forall p: nat | lo <= p < hi && Shr(d, p) == i && Refused(op, LookupKids(kids, d, p))
      ensures Refuses(op, kids[i], d, Lo(d, i, lo), Hi(d, i, hi))
    {
      RestFits(d, p);
      InPart(d, lo, hi, p);
      var r: nat := Rest(d, p);
      assert Refused(op, Lookup(kids[i], d, r));
    }
    forall r: nat | Lo(d, i, lo) <= r < Hi(d, i, hi) && Refused(op, Lookup(kids[i], d, r))
      ensures RefusesKids(op, kids, d, i, lo, hi)
    {
      var p := Shl(d, i) + r;
      ShlSize(d, i);
      ShrExactly(d, p, i);
      InPart(d, lo, hi, p);
      assert Refused(op, LookupKids(kids, d, p));
    }
  }

  lemma {:induction false} ApplyHalts(op: Op, t: Tree, d: nat, lo: nat, hi: nat, free: seq<nat>)
    requires Shaped(t, d) && lo < hi <= Size(d)
    ensures Apply(op, t, d, lo, hi, free).None? <==> Refuses(op, t, d, lo, hi) || |free| < Need(op, t, d, lo, hi)
    ensures Apply(op, t, d, lo, hi, free).Some? ==>
              AsNeeded(op, Need(op, t, d, lo, hi), |free|, |Apply(op, t, d, lo, hi, free).value.free|)
    decreases d, 0, 0
  {
    if d == 0 {
      assert Refused(op, Lookup(t, d, 0)) <==> Refuses(op, t, d, lo, hi);
    } else {
      var e := Enter(op, t, free);
      LastFits(d - 1, hi);
      match e
      case Stop => StopHalts(op, t, d, lo, hi);
      case Skip =>
      case Into(f, kids, free1) =>
        EnterLooks(op, t, free, d, lo);
        ApplyKidsHalts(op, kids, d - 1, First(d - 1, lo), Last(d - 1, hi), lo, hi, free1);
        RefusesNode(op, t, d, lo, hi, free);
    }
  }

  lemma StopHalts(op: Op, t: Tree, d: nat, lo: nat, hi: nat)
    requires Shaped(t, d) && d > 0 && lo < hi && t.Absent? && !op.Clear?
    ensures op.Edit? ==> Refuses(op, t, d, lo, hi)
    ensures op.Assign? ==> Need(op, t, d, lo, hi) > 0
  {
    assert Lookup(t, d, lo) == Absent;
  }

  lemma RefusesNode(op: Op, t: Tree, d: nat, lo: nat, hi: nat, free: seq<nat>)
    requires d > 0 && Shaped(t, d) && lo < hi && Enter(op, t, free).Into?
    ensures Refuses(op, t, d, lo, hi) <==> RefusesKids(op, Enter(op, t, free).kids, d - 1, First(d - 1, lo), lo, hi)
  {
    var kids := Enter(op, t, free).kids;
    forall p: nat ensures LookupKids(kids, d - 1, p) == Lookup(t, d, p) { EnterLooks(op, t, free, d, p); }
    if Refuses(op, t, d, lo, hi) {
      var p: nat :| lo <= p < hi && Refused(op, Lookup(t, d, p));
      InRangeTouched(d - 1, lo, hi, p);
      assert Refused(op, LookupKids(kids, d - 1, p));
    }
    if RefusesKids(op, kids, d - 1, First(d - 1, lo), lo, hi) {
      var p: nat :| lo <= p < hi && First(d - 1, lo) <= Shr(d - 1, p) && Refused(op, LookupKids(kids, d - 1, p));
      assert Refused(op, Lookup(t, d, p));
    }
  }

  lemma {:induction false} ApplyKidsHalts(op: Op, kids: seq<Tree>, d: nat, i: nat, n: nat, lo: nat, hi: nat, free: seq<nat>)
    requires (forall k | 0 <= k < |kids| :: Shaped(kids[k], d))
    requires lo < hi && First(d, lo) <= i && n == Last(d, hi) <= |kids|
    ensures ApplyKids(op, kids, d, i, n, lo, hi, free).None? <==>
              RefusesKids(op, kids, d, i, lo, hi) || |free| < NeedKids(op, kids, d, i, n, lo, hi)
    ensures ApplyKids(op, kids, d, i, n, lo, hi, free).Some? ==>
              AsNeeded(op, NeedKids(op, kids, d, i, n, lo, hi), |free|, |ApplyKids(op, kids, d, i, n, lo, hi, free).value.free|)
    decreases d, 1, n - i
  {
    if i < n {
      TouchedExactly(d, lo, hi, i);
      RefusesPart(op, kids, d, i, lo, hi);
      ApplyHalts(op, kids[i], d, Lo(d, i, lo), Hi(d, i, hi), free);
      var o := Apply(op, kids[i], d, Lo(d, i, lo), Hi(d, i, hi), free);
      if o.Some? {
        ApplyKidsHalts(op, kids, d, i + 1, n, lo, hi, o.value.free);
        if ApplyKids(op, kids, d, i + 1, n, lo, hi, o.value.free).Some? { ApplyKidsShaped(op, kids, d, i + 1, n, lo, hi, o.value.free); }
      }
    } else {
      forall p: nat | lo <= p < hi ensures Shr(d, p) < n { InRangeTouched(d, lo, hi, p); }
    }
  }
}
