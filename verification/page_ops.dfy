/**
  Assigning, clearing and editing a range of pages: one recursive walk that creates tables on
  the way down, and frees the empty ones on the way up.  `free` is the list of free frames.
 */
module PageOps {
  import opened Wrappers
  import opened PageTree

  datatype Op = Assign(flags: Flags) | Clear | Edit(flags: Flags)

  datatype Done = Done(tree: Tree, free: seq<nat>)

  datatype DoneKids = DoneKids(kids: seq<Tree>, free: seq<nat>)

  /** What the walk does on reaching an entry that should lead to a table: panic, nothing, or walk into it. */
  datatype Entered = Stop | Skip | Into(frame: nat, kids: seq<Tree>, free: seq<nat>)

  function NoKids(): (kids: seq<Tree>)
    ensures |kids| == FANOUT && forall i | 0 <= i < |kids| :: kids[i] == Absent
  {
    seq(FANOUT, i => Absent)
  }

  predicate AllAbsent(kids: seq<Tree>) { forall i | 0 <= i < |kids| :: kids[i].Absent? }

  function ApplyPage(op: Op, t: Tree, free: seq<nat>): Option<Done> {
    match op
    case Assign(flags) => if !t.Absent? || free == [] then None else Some(Done(Page(free[0], flags), free[1..]))
    case Clear => if t.Page? then Some(Done(Absent, [t.frame] + free)) else Some(Done(Absent, free))
    case Edit(flags) => if t.Page? then Some(Done(Page(t.frame, flags), free)) else None
  }

  function Enter(op: Op, t: Tree, free: seq<nat>): Entered {
    match t
    case Page(_, _) => Stop
    case Table(f, kids) => Into(f, kids, free)
    case Absent =>
      match op
      case Assign(_) => if free == [] then Stop else Into(free[0], NoKids(), free[1..])
      case Clear => Skip
      case Edit(_) => Stop
  }

  /** A table left without entries by a clear is freed. */
  function Close(op: Op, f: nat, kids: seq<Tree>, free: seq<nat>): Done {
    if op.Clear? && AllAbsent(kids) then Done(Absent, [f] + free) else Done(Table(f, kids), free)
  }

  /** The operation on pages `lo` to `hi` of a node; `None` is a panic. */
  function Apply(op: Op, t: Tree, d: nat, lo: nat, hi: nat, free: seq<nat>): Option<Done>
    decreases d, 0, 0
  {
    if d == 0 then ApplyPage(op, t, free)
    else
      match Enter(op, t, free)
      case Stop => None
      case Skip => Some(Done(t, free))
      case Into(f, kids, free1) =>
        match ApplyKids(op, kids, d - 1, First(d - 1, lo), Last(d - 1, hi), lo, hi, free1)
        case None => None
        case Some(r) => Some(Close(op, f, r.kids, r.free))
  }

  /** The operation on entries `i` to `n` of a table, in order. */
  function ApplyKids(op: Op, kids: seq<Tree>, d: nat, i: nat, n: nat, lo: nat, hi: nat, free: seq<nat>): Option<DoneKids>
    decreases d, 1, n - i
  {
    if i >= n || i >= |kids| then Some(DoneKids(kids, free))
    else
      match Apply(op, kids[i], d, Lo(d, i, lo), Hi(d, i, hi), free)
      case None => None
      case Some(r) =>
        match ApplyKids(op, kids, d, i + 1, n, lo, hi, r.free)
        case None => None
        case Some(s) => if i < |s.kids| then Some(DoneKids(s.kids[i := r.tree], s.free)) else None
  }

  // ---------------------------------------------------------------- the shape stays

  lemma {:induction false} ApplyShaped(op: Op, t: Tree, d: nat, lo: nat, hi: nat, free: seq<nat>)
    requires Shaped(t, d) && Apply(op, t, d, lo, hi, free).Some?
    ensures Shaped(Apply(op, t, d, lo, hi, free).value.tree, d)
    decreases d, 0, 0
  {
    if d > 0 && Enter(op, t, free).Into? {
      var e := Enter(op, t, free);
      ApplyKidsShaped(op, e.kids, d - 1, First(d - 1, lo), Last(d - 1, hi), lo, hi, e.free);
    }
  }

  lemma {:induction false} ApplyKidsShaped(op: Op, kids: seq<Tree>, d: nat, i: nat, n: nat, lo: nat, hi: nat, free: seq<nat>)
    requires (forall k | 0 <= k < |kids| :: Shaped(kids[k], d)) && ApplyKids(op, kids, d, i, n, lo, hi, free).Some?
    ensures var r := ApplyKids(op, kids, d, i, n, lo, hi, free).value;
            |r.kids| == |kids| && (forall k | 0 <= k < |kids| :: Shaped(r.kids[k], d))
    ensures forall k | 0 <= k < |kids| && !(i <= k < n) :: ApplyKids(op, kids, d, i, n, lo, hi, free).value.kids[k] == kids[k]
    decreases d, 1, n - i
  {
    if i < n && i < |kids| {
      ApplyShaped(op, kids[i], d, Lo(d, i, lo), Hi(d, i, hi), free);
      ApplyKidsShaped(op, kids, d, i + 1, n, lo, hi, Apply(op, kids[i], d, Lo(d, i, lo), Hi(d, i, hi), free).value.free);
    }
  }

  // ---------------------------------------------------------------- the flat map is updated

  /** What the operation makes of one page of its range. */
  predicate Becomes(op: Op, before: Tree, after: Tree) {
    match op
    case Assign(flags) => before.Absent? && after.Page? && after.flags == flags
    case Clear => after.Absent?
    case Edit(flags) => before.Page? && after == Page(before.frame, flags)
  }

  predicate Updated(op: Op, inside: bool, before: Tree, after: Tree) {
    if inside then Becomes(op, before, after) else after == before
  }

  lemma NoKidsLookup(d: nat, p: nat)
    ensures LookupKids(NoKids(), d, p) == Absent
  {
  }

  lemma CloseLooks(op: Op, f: nat, kids: seq<Tree>, free: seq<nat>, d: nat, p: nat)
    requires d > 0
    ensures Lookup(Close(op, f, kids, free).tree, d, p) == LookupKids(kids, d - 1, p)
  {
    if AllAbsent(kids) { AbsentLookup(kids, d - 1, p); }
  }

  lemma EnterLooks(op: Op, t: Tree, free: seq<nat>, d: nat, p: nat)
    requires d > 0 && Shaped(t, d) && Enter(op, t, free).Into?
    ensures var e := Enter(op, t, free);
            && |e.kids| == FANOUT && (forall k | 0 <= k < |e.kids| :: Shaped(e.kids[k], d - 1))
            && LookupKids(e.kids, d - 1, p) == Lookup(t, d, p)
  {
    NoKidsLookup(d - 1, p);
  }

  /** Exactly the pages of the range change, each as the operation says. */
  lemma {:induction false} ApplyLooks(op: Op, t: Tree, d: nat, lo: nat, hi: nat, free: seq<nat>, p: nat)
    requires Shaped(t, d) && lo < hi <= Size(d) && p < Size(d) && Apply(op, t, d, lo, hi, free).Some?
    ensures Updated(op, lo <= p < hi, Lookup(t, d, p), Lookup(Apply(op, t, d, lo, hi, free).value.tree, d, p))
    decreases d, 0, 0
  {
    if d > 0 && Enter(op, t, free).Into? {
      var e := Enter(op, t, free);
      EnterLooks(op, t, free, d, p);
      LastFits(d - 1, hi);
      if lo <= p < hi { InRangeTouched(d - 1, lo, hi, p); }
      ApplyKidsLooks(op, e.kids, d - 1, First(d - 1, lo), Last(d - 1, hi), lo, hi, e.free, p);
      var r := ApplyKids(op, e.kids, d - 1, First(d - 1, lo), Last(d - 1, hi), lo, hi, e.free).value;
      CloseLooks(op, e.frame, r.kids, r.free, d, p);
    }
  }

  lemma AbsentLookup(kids: seq<Tree>, d: nat, p: nat)
    requires AllAbsent(kids)
    ensures LookupKids(kids, d, p) == Absent
  {
  }

  lemma {:induction false} ApplyKidsLooks(op: Op, kids: seq<Tree>, d: nat, i: nat, n: nat, lo: nat, hi: nat,
                                          free: seq<nat>, p: nat)
    requires (forall k | 0 <= k < |kids| :: Shaped(kids[k], d))
    requires lo < hi && First(d, lo) <= i && n == Last(d, hi) <= |kids|
    requires ApplyKids(op, kids, d, i, n, lo, hi, free).Some?
    ensures Updated(op, lo <= p < hi && i <= Shr(d, p), LookupKids(kids, d, p),
                    LookupKids(ApplyKids(op, kids, d, i, n, lo, hi, free).value.kids, d, p))
    decreases d, 1, n - i
  {
    var k := Shr(d, p);
    RestFits(d, p);
    InPart(d, lo, hi, p);
    TouchedExactly(d, lo, hi, k);
    if i < n {
      TouchedExactly(d, lo, hi, i);
      var r := Apply(op, kids[i], d, Lo(d, i, lo), Hi(d, i, hi), free).value;
      ApplyKidsShaped(op, kids, d, i + 1, n, lo, hi, r.free);
      if k == i {
        ApplyLooks(op, kids[i], d, Lo(d, i, lo), Hi(d, i, hi), free, Rest(d, p));
      } else {
        ApplyKidsLooks(op, kids, d, i + 1, n, lo, hi, r.free, p);
      }
    }
  }
}
