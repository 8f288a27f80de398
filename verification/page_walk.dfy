/** Single addresses: the hardware's walk of the tables, the bits of an entry, and mapping one page to a given frame. */
module PageWalk {
  import opened Wrappers
  import opened Arithmetic
  import opened PageTree
  import opened PageOps
  import opened PageFrames

  const PAGE_SIZE: nat := 4096

  // ---------------------------------------------------------------- virt_to_phys

  /** Nine bits of a byte address: the index into a table of the given depth, 4 at the top. */
  function TableIndex(depth: nat, address: nat): nat
    requires depth > 0
  {
    Shr(depth - 1, address / PAGE_SIZE) % FANOUT
  }

  function KidAt(kids: seq<Tree>, i: nat): Tree { if i < |kids| then kids[i] else Absent }

  function KidsOf(t: Tree): seq<Tree> { if t.Table? then t.kids else [] }

  /** The physical address of a byte, or 0 if it is not mapped: a table read for each level down. */
  function VirtToPhys(top: seq<Tree>, address: nat): nat { Walk(top, LEVELS, address) }

  function Walk(kids: seq<Tree>, depth: nat, address: nat): nat
    decreases depth
  {
    if depth == 0 then 0
    else
      match KidAt(kids, TableIndex(depth, address))
      case Absent => 0
      case Page(f, _) => f * PAGE_SIZE + address % PAGE_SIZE
      case Table(_, next) => Walk(next, depth - 1, address)
  }

  function Physical(t: Tree, address: nat): nat {
    match t case Page(f, _) => f * PAGE_SIZE + address % PAGE_SIZE case _ => 0
  }

  lemma {:induction false} ShrShl(d: nat, a: nat, b: nat)
    requires b <= a && Shl(d, b) <= a
    ensures Shr(d, a - Shl(d, b)) == Shr(d, a) - b
    ensures Shr(d, a) >= b
  {
    var q := Shr(d, a - Shl(d, b));
    ShrExactly(d, a - Shl(d, b), q);
    ShlAdd(d, q, b);
    ShlAdd(d, q + 1, b);
    ShrExactly(d, a, q + b);
  }

  /** The index of the place of a page in a bigger entry is the low nine bits of its own index. */
  lemma RestIndex(d: nat, p: nat)
    ensures 0 <= Rest(d + 1, p) && Shr(d, Rest(d + 1, p)) == Shr(d, p) % FANOUT
  {
    var s := Shr(d + 1, p);
    RestFits(d + 1, p);
    ShlSize(d, FANOUT * s);
    ShrShl(d, p, FANOUT * s);
  }

  lemma {:induction false} RestRest(d: nat, p: nat)
    ensures 0 <= Rest(d + 1, p) && Rest(d, Rest(d + 1, p)) == Rest(d, p)
  {
    var s := Shr(d + 1, p);
    RestFits(d + 1, p);
    RestIndex(d, p);
    ShlAdd(d, FANOUT * s, Shr(d, p) % FANOUT);
  }

  /** One level of the walk. */
  lemma LookupStep(t: Tree, d: nat, p: nat)
    requires Shaped(t, d + 1)
    ensures 0 <= Rest(d + 1, p) && 0 <= Rest(d, p)
    ensures Lookup(t, d + 1, Rest(d + 1, p)) == Lookup(KidAt(KidsOf(t), Shr(d, p) % FANOUT), d, Rest(d, p))
    ensures Shaped(KidAt(KidsOf(t), Shr(d, p) % FANOUT), d)
  {
    RestFits(d + 1, p);
    RestFits(d, p);
    RestIndex(d, p);
    RestRest(d, p);
  }

  lemma {:induction false} WalkKids(kids: seq<Tree>, d: nat, address: nat)
    requires forall i | 0 <= i < |kids| :: Shaped(kids[i], d)
    ensures 0 <= Rest(d, address / PAGE_SIZE)
    ensures var e := KidAt(kids, TableIndex(d + 1, address));
            Walk(kids, d + 1, address) == Physical(Lookup(e, d, Rest(d, address / PAGE_SIZE)), address)
    decreases d
  {
    var p := address / PAGE_SIZE;
    var e := KidAt(kids, TableIndex(d + 1, address));
    RestFits(d, p);
    if d > 0 && e.Table? {
      LookupStep(e, d - 1, p);
      WalkKids(e.kids, d - 1, address);
    }
  }

  /** The walk reads the flat map, at the page that the four levels of nine bits name, whatever the bits above them. */
  lemma WalkExact(top: seq<Tree>, address: nat)
    requires forall i | 0 <= i < |top| :: Shaped(top[i], LEVELS - 1)
    ensures VirtToPhys(top, address) == Physical(LookupKids(top, LEVELS - 1, address / PAGE_SIZE % Size(LEVELS)), address)
  {
    WalkTop(top, LEVELS - 1, address, Size(LEVELS));
  }

  lemma WalkTop(top: seq<Tree>, d: nat, address: nat, size: nat)
    requires (forall i | 0 <= i < |top| :: Shaped(top[i], d)) && size == Size(d + 1)
    ensures Walk(top, d + 1, address) == Physical(LookupKids(top, d, address / PAGE_SIZE % size), address)
  {
    var p := address / PAGE_SIZE;
    WalkKids(top, d, address);
    RestFits(d, p);
    RestMod(d + 1, p);
    RestIndex(d, p);
    RestRest(d, p);
  }

  /** The place of a page in its entry is the remainder by the entry's size. */
  lemma RestMod(d: nat, p: nat)
    ensures Rest(d, p) == p % Size(d)
  {
    var k, n := Shr(d, p), Size(d);
    assert Shl(d, k) == k * n by {
      ShlOne(d);
      ShlScale(d, k, 1);
    }
    RestFits(d, p);
    Quotient(p, n, k, Rest(d, p));
  }

  // ---------------------------------------------------------------- the bits of an entry

  const TOP_BIT: nat := 0x8000_0000_0000_0000

  function Bit(b: bool, weight: nat): nat { if b then weight else 0 }

  /** Present, writable, user, two cache bits; the address; and no-execute on top. */
  function EntryBits(frame: nat, f: Flags): nat {
    1 + Bit(f.write, 2) + Bit(f.user, 4) + Bit(f.uncached, 8 + 16) + frame * PAGE_SIZE + Bit(!f.exec, TOP_BIT)
  }

  /** The address field is 40 bits of frame number. */
  function EntryFrame(e: nat): nat { e / PAGE_SIZE % 0x100_0000_0000 }

  function EntryFlags(e: nat): Flags {
    Flags(e / 4 % 2 == 1, e / 2 % 2 == 1, e / TOP_BIT % 2 == 0, e / 8 % 2 == 1)
  }

  lemma SmallField(low: nat, high: nat)
    requires low < PAGE_SIZE
    ensures (low + high * PAGE_SIZE) / PAGE_SIZE == high
    ensures (low + high * PAGE_SIZE) / 2 % 2 == low / 2 % 2
    ensures (low + high * PAGE_SIZE) / 4 % 2 == low / 4 % 2
    ensures (low + high * PAGE_SIZE) / 8 % 2 == low / 8 % 2
    ensures (low + high * PAGE_SIZE) % 2 == low % 2
  {
    Halve(low, high * 2048);
    Halve(low / 2, high * 1024);
    Halve(low / 4, high * 512);
    Halve(low / 8, high * 256);
  }

  lemma SmallRest(low: nat, high: nat)
    requires low < PAGE_SIZE
    ensures (low + high * PAGE_SIZE) / 16 % 2 == low / 16 % 2 && (low + high * PAGE_SIZE) % PAGE_SIZE == low
  {
    assert (low + high * PAGE_SIZE) / 16 == low / 16 + 2 * (high * 128);
    Halve(low / 16, high * 128);
  }

  lemma Halve(low: nat, half: nat)
    ensures (low + 2 * half) / 2 == low / 2 + half && (low + 2 * half) % 2 == low % 2
  {
  }

  /** An entry reads back as it was written, for every frame the address field can hold. */
  lemma EntryRoundTrip(frame: nat, f: Flags)
    requires frame < 0x100_0000_0000
    ensures EntryBits(frame, f) < 0x1_0000_0000_0000_0000 && EntryBits(frame, f) % 2 == 1
    ensures EntryFrame(EntryBits(frame, f)) == frame && EntryFlags(EntryBits(frame, f)) == f
  {
    var low := 1 + Bit(f.write, 2) + Bit(f.user, 4) + Bit(f.uncached, 8 + 16);
    var high := frame + Bit(!f.exec, 0x8_0000_0000_0000);
    assert EntryBits(frame, f) == low + high * PAGE_SIZE;
    SmallField(low, high);
    TopField(low + frame * PAGE_SIZE, Bit(!f.exec, 1));
    assert high % 0x100_0000_0000 == frame;
  }

  /** Both cache bits are set or neither is, and no bit that has no meaning here is set. */
  lemma EntryClean(frame: nat, f: Flags)
    requires frame < 0x100_0000_0000
    ensures var e := EntryBits(frame, f);
            && (e / 8 % 2 == 1 <==> f.uncached) && (e / 16 % 2 == 1 <==> f.uncached)
            && e % PAGE_SIZE / 32 == 0 && e / 0x10_0000_0000_0000 % 0x800 == 0
  {
    var low := 1 + Bit(f.write, 2) + Bit(f.user, 4) + Bit(f.uncached, 8 + 16);
    var high := frame + Bit(!f.exec, 0x8_0000_0000_0000);
    assert EntryBits(frame, f) == low + high * PAGE_SIZE;
    SmallField(low, high);
    SmallRest(low, high);
  }

  lemma TopField(low: nat, bit: nat)
    requires low < TOP_BIT
    ensures (low + bit * TOP_BIT) / TOP_BIT == bit
  {
  }

  // ---------------------------------------------------------------- mmu_point1

  /** Mapping page `p` to frame `target`, creating the tables on its path. */
  function Point(t: Tree, d: nat, p: nat, target: nat, flags: Flags, free: seq<nat>): Option<Done>
    decreases d, 0
  {
    if d == 0 then
      if t.Absent? then Some(Done(Page(target, flags), free)) else None
    else
      match t
      case Page(_, _) => None
      case Absent =>
        if free == [] then None else PointKids(free[0], NoKids(), d - 1, p, target, flags, free[1..])
      case Table(f, kids) => PointKids(f, kids, d - 1, p, target, flags, free)
  }

  function PointKids(f: nat, kids: seq<Tree>, d: nat, p: nat, target: nat, flags: Flags, free: seq<nat>): Option<Done>
    decreases d, 1
  {
    var i := Shr(d, p);
    if i >= |kids| || Rest(d, p) < 0 then None
    else
      match Point(kids[i], d, Rest(d, p), target, flags, free)
      case None => None
      case Some(r) => Some(Done(Table(f, kids[i := r.tree]), r.free))
  }

  /** How many tables are missing on the path. */
  function PointNeed(t: Tree, d: nat, p: nat): nat
    decreases d, 0
  {
    if d == 0 || t.Page? then 0
    else if t.Absent? then d
    else PointKidsNeed(t.kids, d - 1, p)
  }

  function PointKidsNeed(kids: seq<Tree>, d: nat, p: nat): nat
    decreases d, 1
  {
    if Shr(d, p) < |kids| && Rest(d, p) >= 0 then PointNeed(kids[Shr(d, p)], d, Rest(d, p)) else 0
  }

  lemma IndexFits(d: nat, p: nat)
    requires p < Size(d + 1)
    ensures Shr(d, p) < FANOUT && 0 <= Rest(d, p) < Size(d)
  {
    RestFits(d, p);
    ShlOne(d + 1);
    ShrExactly(d, p, Shr(d, p));
    if Shr(d, p) >= FANOUT { ShlMono(d, FANOUT, Shr(d, p)); }
  }

  /** It panics exactly if the page is mapped already or frames for its tables are missing. */
  lemma {:induction false} PointHalts(t: Tree, d: nat, p: nat, target: nat, flags: Flags, free: seq<nat>)
    requires Shaped(t, d) && p < Size(d)
    ensures Point(t, d, p, target, flags, free).None? <==> Lookup(t, d, p) != Absent || |free| < PointNeed(t, d, p)
    decreases d
  {
    if d > 0 {
      IndexFits(d - 1, p);
      var kids := if t.Table? then t.kids else NoKids();
      var rest := if t.Table? then free else if free == [] then [] else free[1..];
      PointHalts(kids[Shr(d - 1, p)], d - 1, Rest(d - 1, p), target, flags, rest);
    }
  }

  function PathKids(t: Tree): seq<Tree> { if t.Table? then t.kids else NoKids() }

  function PathFree(t: Tree, free: seq<nat>): seq<nat> { if t.Table? || free == [] then free else free[1..] }

  /** It maps exactly that page to the target. */
  lemma {:induction false} PointLooks(t: Tree, d: nat, p: nat, target: nat, flags: Flags, free: seq<nat>, q: nat)
    requires Shaped(t, d) && p < Size(d) && q < Size(d) && Point(t, d, p, target, flags, free).Some?
    ensures var r := Point(t, d, p, target, flags, free).value;
            && Shaped(r.tree, d) && !r.tree.Absent?
            && Lookup(r.tree, d, q) == if q == p then Page(target, flags) else Lookup(t, d, q)
    decreases d
  {
    if d > 0 {
      var kids, rest := PathKids(t), PathFree(t, free);
      IndexFits(d - 1, p);
      IndexFits(d - 1, q);
      NoKidsLookup(d - 1, q);
      PointLooks(kids[Shr(d - 1, p)], d - 1, Rest(d - 1, p), target, flags, rest, Rest(d - 1, q));
      OneKidLooks(kids, d - 1, p, Point(kids[Shr(d - 1, p)], d - 1, Rest(d - 1, p), target, flags, rest).value.tree, q);
      assert Lookup(t, d, q) == LookupKids(kids, d - 1, q);
    }
  }

  lemma OneKidLooks(kids: seq<Tree>, d: nat, p: nat, t: Tree, q: nat)
    requires Shr(d, p) < |kids| && 0 <= Rest(d, p) && 0 <= Rest(d, q)
    ensures LookupKids(kids[Shr(d, p) := t], d, q) == if Shr(d, q) == Shr(d, p) then Lookup(t, d, Rest(d, q)) else LookupKids(kids, d, q)
    ensures Shr(d, q) == Shr(d, p) ==> (Rest(d, q) == Rest(d, p) <==> q == p)
  {
  }

  function PathFrame(t: Tree, free: seq<nat>): nat { if t.Table? then t.frame else if free != [] then free[0] else 0 }

  /** One level down the path. */
  lemma PointStep(t: Tree, d: nat, p: nat, target: nat, flags: Flags, free: seq<nat>)
    requires Shaped(t, d + 1) && p < Size(d + 1) && Point(t, d + 1, p, target, flags, free).Some?
    ensures Shr(d, p) < FANOUT && 0 <= Rest(d, p) < Size(d) && Shaped(PathKids(t)[Shr(d, p)], d)
    ensures var o := Point(PathKids(t)[Shr(d, p)], d, Rest(d, p), target, flags, PathFree(t, free));
            o.Some? && Point(t, d + 1, p, target, flags, free)
                    == Some(Done(Table(PathFrame(t, free), PathKids(t)[Shr(d, p) := o.value.tree]), o.value.free))
    ensures t.Absent? ==> free != []
  {
    IndexFits(d, p);
  }

  /** It takes exactly the frames of the new tables; the target is the caller's. */
  lemma {:induction false} PointConserves(t: Tree, d: nat, p: nat, target: nat, flags: Flags, free: seq<nat>)
    requires Shaped(t, d) && p < Size(d) && Point(t, d, p, target, flags, free).Some?
    ensures var r := Point(t, d, p, target, flags, free).value; Held(r.tree, d, r.free) == Held(t, d, free) + multiset{target}
    decreases d
  {
    if d > 0 {
      PointStep(t, d - 1, p, target, flags, free);
      PointConserves(PathKids(t)[Shr(d - 1, p)], d - 1, Rest(d - 1, p), target, flags, PathFree(t, free));
      PointRises(t, d - 1, Shr(d - 1, p), free, target,
                 Point(PathKids(t)[Shr(d - 1, p)], d - 1, Rest(d - 1, p), target, flags, PathFree(t, free)).value);
    }
  }

  lemma PointRises(t: Tree, d: nat, i: nat, free: seq<nat>, target: nat, r: Done)
    requires Shaped(t, d + 1) && i < FANOUT && (t.Absent? ==> free != [])
    requires Held(r.tree, d, r.free) == Held(PathKids(t)[i], d, PathFree(t, free)) + multiset{target}
    ensures Held(Table(PathFrame(t, free), PathKids(t)[i := r.tree]), d + 1, r.free) == Held(t, d + 1, free) + multiset{target}
  {
    var kids, rest, f := PathKids(t), PathFree(t, free), PathFrame(t, free);
    OneKid(kids, d, i, r, rest, target);
    PathHolds(t, d + 1, free);
    TableHeld(f, kids[i := r.tree], d + 1, r.free);
    Onto(Held(Table(f, kids[i := r.tree]), d + 1, r.free), multiset{f}, HeldKids(kids[i := r.tree], d, r.free),
         HeldKids(kids, d, rest), multiset{target}, Held(t, d + 1, free));
  }

  lemma Onto(a: multiset<nat>, f: multiset<nat>, k': multiset<nat>, k: multiset<nat>, x: multiset<nat>, b: multiset<nat>)
    requires a == f + k' && k' == k + x && b == f + k
    ensures a == b + x
  {
  }

  lemma TableHeld(f: nat, kids: seq<Tree>, d: nat, free: seq<nat>)
    requires d > 0
    ensures Held(Table(f, kids), d, free) == multiset{f} + HeldKids(kids, d - 1, free)
  {
  }

  lemma PathHolds(t: Tree, d: nat, free: seq<nat>)
    requires d > 0 && !t.Page? && (t.Absent? ==> free != [])
    ensures Held(t, d, free) == multiset{PathFrame(t, free)} + HeldKids(PathKids(t), d - 1, PathFree(t, free))
  {
    if t.Absent? { NoFrames(NoKids(), d - 1, |NoKids()|); Taken(free); }
  }

  lemma OneKid(kids: seq<Tree>, d: nat, i: nat, r: Done, free: seq<nat>, target: nat)
    requires i < |kids| && Held(r.tree, d, r.free) == Held(kids[i], d, free) + multiset{target}
    ensures HeldKids(kids[i := r.tree], d, r.free) == HeldKids(kids, d, free) + multiset{target}
  {
    FramesSet(kids, d, |kids|, i, r.tree);
    var a, a', x := AllFrames(kids, d, |kids|), AllFrames(kids[i := r.tree], d, |kids|), Frames(kids[i], d);
    Regroup(a', x, a, Frames(r.tree, d), multiset(r.free));
    assert (a + multiset(r.free)) + Frames(r.tree, d) == a + Held(r.tree, d, r.free);
    assert a + (Held(kids[i], d, free) + multiset{target}) == (a + multiset(free) + multiset{target}) + x;
    Cancel(x, a' + multiset(r.free), a + multiset(free) + multiset{target});
  }
}
