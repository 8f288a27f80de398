/** Cloning an address space: the same pages and contents in frames of its own. */
module PageClone {
  import opened Wrappers
  import opened PageTree
  import opened PageOps
  import opened PageFrames
  import opened PageSpaces

  /** What the frames hold, by frame. */
  type Bytes = seq<int>

  type Ram = map<nat, Bytes>

  function Read(ram: Ram, f: nat): Bytes { if f in ram then ram[f] else [] }

  datatype Copied = Copied(tree: Tree, free: seq<nat>, ram: Ram)

  datatype CopiedKids = CopiedKids(kids: seq<Tree>, free: seq<nat>, ram: Ram)

  function CloneNode(t: Tree, d: nat, free: seq<nat>, ram: Ram): Option<Copied>
    decreases d, 0, 0
  {
    match t
    case Absent => Some(Copied(Absent, free, ram))
    case Page(f, flags) =>
      if free == [] || d > 0 then None
      else Some(Copied(Page(free[0], flags), free[1..], ram[free[0] := Read(ram, f)]))
    case Table(_, kids) =>
      if free == [] || d == 0 then None
      else
        match CloneKids(kids, d - 1, 0, free[1..], ram)
        case None => None
        case Some(r) => Some(Copied(Table(free[0], r.kids), r.free, r.ram))
  }

  /** Entries from `i` on, in order, into a table that starts empty. */
  function CloneKids(kids: seq<Tree>, d: nat, i: nat, free: seq<nat>, ram: Ram): (o: Option<CopiedKids>)
    ensures o.Some? ==> |o.value.kids| == |kids|
    decreases d, 1, |kids| - i
  {
    if i >= |kids| then Some(CopiedKids(seq(|kids|, k => Absent), free, ram))
    else
      match CloneNode(kids[i], d, free, ram)
      case None => None
      case Some(r) =>
        match CloneKids(kids, d, i + 1, r.free, r.ram)
        case None => None
        case Some(s) => Some(CopiedKids(s.kids[i := r.tree], s.free, s.ram))
  }

  lemma {:induction false} KidsBefore(kids: seq<Tree>, d: nat, i: nat, free: seq<nat>, ram: Ram, k: nat)
    requires k < i && k < |kids| && CloneKids(kids, d, i, free, ram).Some?
    ensures CloneKids(kids, d, i, free, ram).value.kids[k] == Absent
    decreases |kids| - i
  {
    if i < |kids| {
      var r := CloneNode(kids[i], d, free, ram).value;
      KidsBefore(kids, d, i + 1, r.free, r.ram, k);
    }
  }

  // ---------------------------------------------------------------- frames

  /** The clone owns exactly the frames taken from the free list. */
  lemma {:induction false} CloneTakes(t: Tree, d: nat, free: seq<nat>, ram: Ram)
    requires Shaped(t, d) && CloneNode(t, d, free, ram).Some?
    ensures var r := CloneNode(t, d, free, ram).value;
            Shaped(r.tree, d) && Held(r.tree, d, r.free) == multiset(free) && r.tree.Absent? == t.Absent?
    decreases d, 0, 0
  {
    if t != Absent { Taken(free); }
    if t.Table? { CloneKidsTakes(t.kids, d - 1, 0, free[1..], ram); }
  }

  lemma OneMore(kids: seq<Tree>, d: nat, i: nat, t: Tree, free2: seq<nat>, free1: seq<nat>, free: seq<nat>)
    requires i < |kids| && kids[i] == Absent && HeldKids(kids, d, free2) == multiset(free1) && Held(t, d, free1) == multiset(free)
    ensures HeldKids(kids[i := t], d, free2) == multiset(free)
  {
    FramesSet(kids, d, |kids|, i, t);
    assert AllFrames(kids[i := t], d, |kids|) == AllFrames(kids, d, |kids|) + Frames(t, d);
  }

  lemma {:induction false} CloneKidsTakes(kids: seq<Tree>, d: nat, i: nat, free: seq<nat>, ram: Ram)
    requires (forall k | 0 <= k < |kids| :: Shaped(kids[k], d)) && CloneKids(kids, d, i, free, ram).Some?
    ensures var r := CloneKids(kids, d, i, free, ram).value;
            && (forall k | 0 <= k < |kids| :: Shaped(r.kids[k], d))
            && HeldKids(r.kids, d, r.free) == multiset(free)
            && (forall k | i <= k < |kids| :: r.kids[k].Absent? == kids[k].Absent?)
    decreases d, 1, |kids| - i
  {
    if i >= |kids| {
      NoFrames(seq(|kids|, k => Absent), d, |kids|);
    } else {
      var r := CloneNode(kids[i], d, free, ram).value;
      var s := CloneKids(kids, d, i + 1, r.free, r.ram).value;
      CloneTakes(kids[i], d, free, ram);
      CloneKidsTakes(kids, d, i + 1, r.free, r.ram);
      KidsBefore(kids, d, i + 1, r.free, r.ram, i);
      OneMore(s.kids, d, i, r.tree, s.free, r.free, free);
    }
  }

  lemma {:induction false} CloneTight(t: Tree, d: nat, free: seq<nat>, ram: Ram)
    requires Shaped(t, d) && Tight(t, d) && CloneNode(t, d, free, ram).Some?
    ensures Tight(CloneNode(t, d, free, ram).value.tree, d)
    decreases d, 0, 0
  {
    if t.Table? {
      CloneKidsTakes(t.kids, d - 1, 0, free[1..], ram);
      CloneKidsTight(t.kids, d - 1, 0, free[1..], ram);
    }
  }

  lemma {:induction false} CloneKidsTight(kids: seq<Tree>, d: nat, i: nat, free: seq<nat>, ram: Ram)
    requires (forall k | 0 <= k < |kids| :: Shaped(kids[k], d) && Tight(kids[k], d)) && CloneKids(kids, d, i, free, ram).Some?
    ensures forall k | 0 <= k < |kids| :: Tight(CloneKids(kids, d, i, free, ram).value.kids[k], d)
    decreases d, 1, |kids| - i
  {
    if i < |kids| {
      var r := CloneNode(kids[i], d, free, ram).value;
      CloneTight(kids[i], d, free, ram);
      CloneKidsTight(kids, d, i + 1, r.free, r.ram);
    }
  }

  /** Cloning panics exactly if there are fewer free frames than the source owns. */
  lemma {:induction false} CloneHalts(t: Tree, d: nat, free: seq<nat>, ram: Ram)
    requires Shaped(t, d)
    ensures CloneNode(t, d, free, ram).None? <==> |free| < |Frames(t, d)|
    ensures CloneNode(t, d, free, ram).Some? ==> |CloneNode(t, d, free, ram).value.free| == |free| - |Frames(t, d)|
    decreases d, 0, 0
  {
    if t.Table? && free != [] { CloneKidsHalts(t.kids, d - 1, 0, free[1..], ram); }
    if t.Table? { RestAll(t.kids, d - 1); }
  }

  /** How many frames the entries from `i` on own. */
  function RestFrames(kids: seq<Tree>, d: nat, i: nat): nat
    decreases |kids| - i
  {
    if i >= |kids| then 0 else |Frames(kids[i], d)| + RestFrames(kids, d, i + 1)
  }

  lemma SumSize(a: multiset<nat>, b: multiset<nat>)
    ensures |a + b| == |a| + |b|
  {
  }

  lemma {:induction false} RestSplit(kids: seq<Tree>, d: nat, i: nat, a: multiset<nat>)
    requires i <= |kids| && a == AllFrames(kids, d, i)
    ensures |a| + RestFrames(kids, d, i) == RestFrames(kids, d, 0)
    decreases i
  {
    if i > 0 {
      var before, f := AllFrames(kids, d, i - 1), Frames(kids[i - 1], d);
      RestSplit(kids, d, i - 1, before);
      SumSize(before, f);
    }
  }

  lemma RestAll(kids: seq<Tree>, d: nat)
    ensures RestFrames(kids, d, 0) == |AllFrames(kids, d, |kids|)|
  {
    RestSplit(kids, d, |kids|, AllFrames(kids, d, |kids|));
  }

  lemma {:induction false} CloneKidsHalts(kids: seq<Tree>, d: nat, i: nat, free: seq<nat>, ram: Ram)
    requires forall k | 0 <= k < |kids| :: Shaped(kids[k], d)
    ensures CloneKids(kids, d, i, free, ram).None? <==> |free| < RestFrames(kids, d, i)
    ensures CloneKids(kids, d, i, free, ram).Some? ==>
              |CloneKids(kids, d, i, free, ram).value.free| == |free| - RestFrames(kids, d, i)
    decreases d, 1, |kids| - i
  {
    if i < |kids| {
      CloneHalts(kids[i], d, free, ram);
      var o := CloneNode(kids[i], d, free, ram);
      if o.Some? { CloneKidsHalts(kids, d, i + 1, o.value.free, o.value.ram); }
    }
  }

  // ---------------------------------------------------------------- contents

  /** Only frames of the clone are written. */
  lemma {:induction false} CloneWrites(t: Tree, d: nat, free: seq<nat>, ram: Ram, f: nat)
    requires CloneNode(t, d, free, ram).Some? && f !in multiset(free)
    ensures Read(CloneNode(t, d, free, ram).value.ram, f) == Read(ram, f)
    ensures f !in multiset(CloneNode(t, d, free, ram).value.free)
    decreases d, 0, 0
  {
    if t != Absent { Taken(free); }
    if t.Table? { CloneKidsWrites(t.kids, d - 1, 0, free[1..], ram, f); }
  }

  lemma {:induction false} CloneKidsWrites(kids: seq<Tree>, d: nat, i: nat, free: seq<nat>, ram: Ram, f: nat)
    requires CloneKids(kids, d, i, free, ram).Some? && f !in multiset(free)
    ensures Read(CloneKids(kids, d, i, free, ram).value.ram, f) == Read(ram, f)
    ensures f !in multiset(CloneKids(kids, d, i, free, ram).value.free)
    decreases d, 1, |kids| - i
  {
    if i < |kids| {
      var r := CloneNode(kids[i], d, free, ram).value;
      CloneWrites(kids[i], d, free, ram, f);
      CloneKidsWrites(kids, d, i + 1, r.free, r.ram, f);
    }
  }

  ghost predicate Once(m: multiset<nat>) { forall f | f in m :: m[f] == 1 }

  /** The clone's page for one of the source: same flags and contents, or both absent. */
  predicate SameContents(before: Tree, ram: Ram, after: Tree, ram': Ram) {
    match before
    case Page(f, flags) => after.Page? && after.flags == flags && Read(ram', after.frame) == Read(ram, f)
    case _ => before.Absent? && after.Absent?
  }

  /** Every page of the clone has the flags and contents of the same page of the source. */
  lemma {:induction false} CloneLooks(t: Tree, d: nat, free: seq<nat>, ram: Ram, p: nat)
    requires Shaped(t, d) && CloneNode(t, d, free, ram).Some? && Once(Held(t, d, free))
    ensures var r := CloneNode(t, d, free, ram).value; SameContents(Lookup(t, d, p), ram, Lookup(r.tree, d, p), r.ram)
    decreases d, 0, 0
  {
    if t.Table? {
      Taken(free);
      OnceLess(Held(t, d, free), HeldKids(t.kids, d - 1, free[1..]));
      CloneKidsLooks(t.kids, d - 1, 0, free[1..], ram, p);
    }
  }

  lemma OnceLess(m: multiset<nat>, n: multiset<nat>)
    requires Once(m) && n <= m
    ensures Once(n)
  {
    forall f | f in n ensures n[f] == 1 { assert f in m; }
  }

  lemma {:induction false} CloneKidsLooks(kids: seq<Tree>, d: nat, i: nat, free: seq<nat>, ram: Ram, p: nat)
    requires (forall k | 0 <= k < |kids| :: Shaped(kids[k], d)) && CloneKids(kids, d, i, free, ram).Some?
    requires Once(HeldKids(kids, d, free))
    ensures var r := CloneKids(kids, d, i, free, ram).value;
            Shr(d, p) >= i ==> SameContents(LookupKids(kids, d, p), ram, LookupKids(r.kids, d, p), r.ram)
    decreases d, 1, |kids| - i
  {
    var k := Shr(d, p);
    if i <= k < |kids| {
      var r := CloneNode(kids[i], d, free, ram).value;
      RestFits(d, p);
      if k == i {
        PartOnce(kids, d, i, free, free);
        CloneLooks(kids[i], d, free, ram, Rest(d, p));
        CopiesStay(kids, d, i, free, ram, Rest(d, p));
      } else {
        CloneTakes(kids[i], d, free, ram);
        PartOnce(kids, d, i, free, r.free);
        CloneKidsLooks(kids, d, i + 1, r.free, r.ram, p);
        SourceStays(kids, d, i, free, ram, p);
      }
    }
  }

  lemma PartOnce(kids: seq<Tree>, d: nat, i: nat, free: seq<nat>, rest: seq<nat>)
    requires i < |kids| && Once(HeldKids(kids, d, free)) && multiset(rest) <= multiset(free)
    ensures Once(Held(kids[i], d, free)) && Once(multiset(free)) && Once(HeldKids(kids, d, rest))
  {
    KidOwned(kids, d, |kids|, i);
    OnceLess(HeldKids(kids, d, free), Held(kids[i], d, free));
    OnceLess(HeldKids(kids, d, free), multiset(free));
    OnceLess(HeldKids(kids, d, free), HeldKids(kids, d, rest));
  }

  /** Later entries do not write to the frames an earlier one was copied to. */
  lemma CopiesStay(kids: seq<Tree>, d: nat, i: nat, free: seq<nat>, ram: Ram, q: nat)
    requires i < |kids| && Shaped(kids[i], d) && CloneKids(kids, d, i, free, ram).Some? && Once(multiset(free))
    ensures var r := CloneNode(kids[i], d, free, ram).value;
            var s := CloneKids(kids, d, i + 1, r.free, r.ram).value;
            Lookup(r.tree, d, q).Page? ==> Read(s.ram, Lookup(r.tree, d, q).frame) == Read(r.ram, Lookup(r.tree, d, q).frame)
  {
    var r := CloneNode(kids[i], d, free, ram).value;
    CloneTakes(kids[i], d, free, ram);
    if Lookup(r.tree, d, q).Page? {
      var f := Lookup(r.tree, d, q).frame;
      LookupOwned(r.tree, d, q);
      assert multiset(free)[f] == Frames(r.tree, d)[f] + multiset(r.free)[f];
      CloneKidsWrites(kids, d, i + 1, r.free, r.ram, f);
    }
  }

  /** Earlier entries do not write to the source. */
  lemma SourceStays(kids: seq<Tree>, d: nat, i: nat, free: seq<nat>, ram: Ram, p: nat)
    requires (forall k | 0 <= k < |kids| :: Shaped(kids[k], d)) && i < |kids|
    requires CloneNode(kids[i], d, free, ram).Some? && Once(HeldKids(kids, d, free))
    ensures var r := CloneNode(kids[i], d, free, ram).value;
            LookupKids(kids, d, p).Page? ==> Read(r.ram, LookupKids(kids, d, p).frame) == Read(ram, LookupKids(kids, d, p).frame)
  {
    if LookupKids(kids, d, p).Page? {
      var f := LookupKids(kids, d, p).frame;
      LookupKidsOwned(kids, d, p);
      assert HeldKids(kids, d, free)[f] == AllFrames(kids, d, |kids|)[f] + multiset(free)[f];
      CloneWrites(kids[i], d, free, ram, f);
    }
  }
}
