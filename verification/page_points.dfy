/** Mapping one page over tables in memory: what each level of `mmu_point1` does. */
module PagePoints {
  import opened Wrappers
  import opened PageTree
  import opened PageOps
  import opened PageFrames
  import opened PageClone
  import opened PageWalk
  import opened PageMemory

  /** The tables from `frame` down have page `p` mapped as `PointKids` says, and nothing else was written. */
  ghost predicate Pointed(mem: Tables, mem': Tables, free: seq<nat>, free': seq<nat>,
                          frame: nat, d: nat, w: nat, p: nat, target: nat, flags: Flags, ok: bool) {
    var kids := Kids(mem, frame, d, w);
    var o := PointKids(frame, kids, d, p, target, flags, free);
    && (ok <==> o.Some?)
    && (ok ==>
          && o.value == Done(Table(frame, Kids(mem', frame, d, w)), free') && HighSame(mem, mem', frame, w)
          && forall f | f !in multiset{frame} + HeldKids(kids, d, free) :: Same(mem, mem', f))
  }

  /** The page's own entry. */
  lemma PagePointed(mem: Tables, frame: nat, w: nat, i: nat, p: nat, target: nat, flags: Flags, free: seq<nat>)
    requires NodeOk(mem, frame, 0, w, free) && i < w <= FANOUT && i == Shr(0, p) && Rest(0, p) == 0
    ensures var mem' := mem[frame := mem[frame][i := Present(target, flags)]];
            Pointed(mem, if mem[frame][i].Zero? then mem' else mem, free, free, frame, 0, w, p, target, flags, mem[frame][i].Zero?)
  {
    var kids := Kids(mem, frame, 0, w);
    assert kids[i] == TreeAt(mem, mem[frame][i], 0);
    if mem[frame][i].Zero? {
      var mem' := mem[frame := mem[frame][i := Present(target, flags)]];
      forall k, f | 0 <= k < w && k != i && f in Frames(kids[k], 0) ensures f != frame && f !in multiset{} { Apart(kids, 0, frame, free, i, k, f); }
      KidSet(mem, mem', frame, 0, w, i, Present(target, flags), multiset{});
    }
  }

  /** Without a frame for the next table nothing is mapped. */
  lemma PointStops(mem: Tables, frame: nat, d: nat, w: nat, i: nat, p: nat, target: nat, flags: Flags)
    requires NodeOk(mem, frame, d, w, []) && d > 0 && i < w && i == Shr(d, p) && mem[frame][i].Zero?
    ensures Pointed(mem, mem, [], [], frame, d, w, p, target, flags, false)
  {
    assert Kids(mem, frame, d, w)[i] == TreeAt(mem, mem[frame][i], d);
  }

  /** Once the page is mapped below, it is mapped here. */
  lemma PointDone(mem: Tables, mem1: Tables, mem2: Tables, frame: nat, d: nat, w: nat, i: nat, p: nat, q: nat, target: nat, flags: Flags,
                  free: seq<nat>, next: nat, free1: seq<nat>, free2: seq<nat>, ok: bool)
    requires NodeOk(mem, frame, d, w, free) && d > 0 && i < w && i == Shr(d, p) && q == Rest(d, p)
    requires Leads(Assign(flags), mem, mem1, frame, d, w, i, free, next, free1)
    requires Pointed(mem1, mem2, free1, free2, next, d - 1, FANOUT, q, target, flags, ok)
    ensures Pointed(mem, mem2, free, free2, frame, d, w, p, target, flags, ok)
  {
    var kids := Kids(mem, frame, d, w);
    assert Point(kids[i], d, q, target, flags, free) == PointKids(next, Kids(mem1, next, d - 1, FANOUT), d - 1, q, target, flags, free1);
    if ok {
      BelowWrites(Assign(flags), mem, mem1, mem2, frame, d, w, i, free, next, free1);
      EntryHeld(kids, d, i, free);
    }
  }

  /** The flat map of a half afterwards, and when it panics. */
  lemma PointKidsExact(frame: nat, kids: seq<Tree>, d: nat, p: nat, target: nat, flags: Flags, free: seq<nat>)
    requires (forall k | 0 <= k < |kids| :: Shaped(kids[k], d)) && Shr(d, p) < |kids|
    ensures var o := PointKids(frame, kids, d, p, target, flags, free);
            && (o.None? <==> LookupKids(kids, d, p) != Absent || |free| < PointKidsNeed(kids, d, p))
            && (o.Some? ==> o.value.tree.Table? && |o.value.tree.kids| == |kids|
                            && (forall k | 0 <= k < |kids| :: Shaped(o.value.tree.kids[k], d))
                            && forall q: nat :: LookupKids(o.value.tree.kids, d, q) == if q == p then Page(target, flags) else LookupKids(kids, d, q))
  {
    var i, o := Shr(d, p), PointKids(frame, kids, d, p, target, flags, free);
    RestFits(d, p);
    PointHalts(kids[i], d, Rest(d, p), target, flags, free);
    if o.Some? {
      var t := Point(kids[i], d, Rest(d, p), target, flags, free).value.tree;
      PointLooks(kids[i], d, Rest(d, p), target, flags, free, Rest(d, p));
      forall q: nat ensures LookupKids(o.value.tree.kids, d, q) == if q == p then Page(target, flags) else LookupKids(kids, d, q) {
        RestFits(d, q);
        PointLooks(kids[i], d, Rest(d, p), target, flags, free, Rest(d, q));
        OneKidLooks(kids, d, p, t, q);
      }
    }
  }
}
