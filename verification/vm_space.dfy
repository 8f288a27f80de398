/** An address space as the kernel keeps it: the list of areas and the page tables, changed together. */
module VmSpace {
  import opened Wrappers
  import opened PageTree
  import opened PageOps
  import opened PageFrames
  import opened PageHalts
  import opened PageSpaces
  import opened PageClone
  import opened PageRuns
  import opened VmAreas
  import opened VmGaps

  datatype Prot = Prot(read: bool, write: bool, exec: bool)

  /** The mode of a protection: any access makes the pages the user's. */
  function ModeOf(prot: Prot): Flags { Flags(prot.read || prot.write || prot.exec, prot.write, prot.exec, false) }

  datatype Error = EINVAL | ENOMEM | EEXIST

  /** `Panic` is a failed assertion, or the page tables' panic. */
  datatype Result = Ok | Err(error: Error) | Panic

  /** A page is mapped, with these flags, exactly if it is in an area with these flags that maps its pages. */
  ghost predicate Agrees(areas: seq<Area>, space: Space) {
    forall p: nat, fl :: (Mapped(space, p).Page? && Mapped(space, p).flags == fl) <==> In(areas, p, fl) && fl.user
  }

  /** The pages of `s'` are those of `s` and the range, the range with flags `flags`. */
  ghost predicate Adds(s: seq<Area>, s': seq<Area>, a: nat, e: nat, flags: Flags) {
    forall p: nat, fl :: In(s', p, fl) <==> In(s, p, fl) || (a <= p < e && fl == flags)
  }

  /** The pages of the range are mapped exactly if some access is asked for, and then grant the user that access. */
  ghost predicate Protects(s: Space, a: nat, e: nat, prot: Prot) {
    forall p: nat | a <= p < e ::
      var t := Mapped(s, p);
      && (t.Page? <==> prot.read || prot.write || prot.exec)
      && (t.Page? ==> t.flags.user && t.flags.write == prot.write && t.flags.exec == prot.exec && !t.flags.uncached)
  }

  lemma AreasProtect(areas: seq<Area>, s: Space, a: nat, e: nat, prot: Prot)
    requires Agrees(areas, s) && forall p: nat, fl | a <= p < e :: In(areas, p, fl) <==> fl == ModeOf(prot)
    ensures Protects(s, a, e, prot)
  {
    forall p: nat | a <= p < e
      ensures var t := Mapped(s, p);
              && (t.Page? <==> prot.read || prot.write || prot.exec)
              && (t.Page? ==> t.flags.user && t.flags.write == prot.write && t.flags.exec == prot.exec && !t.flags.uncached)
    {
      assert In(areas, p, ModeOf(prot));
    }
  }

  lemma AddedProtects(areas: seq<Area>, areas': seq<Area>, s: Space, a: nat, e: nat, prot: Prot)
    requires Agrees(areas', s) && Cut(areas, areas, a, e) && Adds(areas, areas', a, e, ModeOf(prot))
    ensures Protects(s, a, e, prot)
  {
    AreasProtect(areas', s, a, e, prot);
  }

  lemma OneArea(s: seq<Area>, p: nat, f: Flags, g: Flags)
    requires Sorted(s) && In(s, p, f) && In(s, p, g)
    ensures f == g
  {
    var i :| 0 <= i < |s| && Within(s[i], p) && s[i].flags == f;
    var j :| 0 <= j < |s| && Within(s[j], p) && s[j].flags == g;
    if i < j { assert s[i].end <= s[j].begin; }
    if j < i { assert s[j].end <= s[i].begin; }
  }

  /** Clearing a range of pages and of areas keeps the two in agreement. */
  lemma ClearAgrees(areas: seq<Area>, areas': seq<Area>, s: Space, s': Space, a: nat, e: nat)
    requires Agrees(areas, s) && Cut(areas, areas', a, e)
    requires forall p: nat :: Updated(Clear, a <= p < e, Mapped(s, p), Mapped(s', p))
    ensures Agrees(areas', s')
  {
    forall p: nat, fl ensures (Mapped(s', p).Page? && Mapped(s', p).flags == fl) <==> In(areas', p, fl) && fl.user {
      assert Updated(Clear, a <= p < e, Mapped(s, p), Mapped(s', p));
    }
  }

  /** Mapping a range of pages as a new area of a list that has none there. */
  lemma AssignAgrees(areas: seq<Area>, areas': seq<Area>, s: Space, s': Space, a: nat, e: nat, flags: Flags)
    requires Agrees(areas, s) && Cut(areas, areas, a, e) && flags.user
    requires Adds(areas, areas', a, e, flags)
    requires forall p: nat :: Updated(Assign(flags), a <= p < e, Mapped(s, p), Mapped(s', p))
    ensures Agrees(areas', s')
  {
    forall p: nat, fl ensures (Mapped(s', p).Page? && Mapped(s', p).flags == fl) <==> In(areas', p, fl) && fl.user {
      assert Updated(Assign(flags), a <= p < e, Mapped(s, p), Mapped(s', p));
    }
  }

  lemma ReserveAgrees(areas: seq<Area>, areas': seq<Area>, s: Space, a: nat, e: nat, flags: Flags)
    requires Agrees(areas, s) && !flags.user
    requires Adds(areas, areas', a, e, flags)
    ensures Agrees(areas', s)
  {
  }

  /** Frames an assignment of pages `a` to `e` takes. */
  function Cost(s: Space, flags: Flags, a: nat, e: nat): nat {
    NeedKids(Assign(flags), s.low, LEVELS - 1, First(LEVELS - 1, a), Last(LEVELS - 1, e), a, e)
  }

  /** Mapping pages of which none is in an area panics only if frames run out. */
  lemma AssignPanics(areas: seq<Area>, s: Space, a: nat, e: nat, flags: Flags, free: seq<nat>)
    requires SpaceOk(s) && Agrees(areas, s) && Cut(areas, areas, a, e) && a < e <= AddrMax()
    ensures Change(Assign(flags), s, a, e, free).None? <==> |free| < Cost(s, flags, a, e)
  {
    ChangePanics(Assign(flags), s, a, e, free);
    forall p: nat | a <= p < e ensures !Refused(Assign(flags), Mapped(s, p)) {
      MappedAbsent(areas, s, a, e, p);
    }
  }

  lemma MappedAbsent(areas: seq<Area>, s: Space, a: nat, e: nat, p: nat)
    requires SpaceOk(s) && Agrees(areas, s) && Cut(areas, areas, a, e) && a <= p < e
    ensures Mapped(s, p) == Absent
  {
    MappedForm(s.low, LEVELS - 1, p);
    var fl := if Mapped(s, p).Page? then Mapped(s, p).flags else ModeOf(Prot(false, false, false));
    assert !In(areas, p, fl);
  }

  lemma {:induction false} MappedForm(kids: seq<Tree>, d: nat, p: nat)
    requires forall k | 0 <= k < |kids| :: Shaped(kids[k], d)
    ensures LookupKids(kids, d, p).Absent? || LookupKids(kids, d, p).Page?
    decreases d
  {
    if Shr(d, p) < |kids| && Rest(d, p) >= 0 && d > 0 && kids[Shr(d, p)].Table? {
      MappedForm(kids[Shr(d, p)].kids, d - 1, Rest(d, p));
    }
  }

  class Vm {
    var areas: seq<Area>       // the linked list, first to last
    var space: Space
    var free: seq<nat>

    ghost predicate Valid()
      reads this
    {
      Sorted(areas) && InBounds(areas) && SpaceOk(space) && Agrees(areas, space)
    }

    /** Walking the list to make room for the range; the spare area is allocated first. */
    method ClearForInsert(a: nat, e: nat, spareOk: bool) returns (route: Option<nat>)
      modifies this`areas
      ensures route.Some? <==> spareOk
      ensures spareOk ==> areas == ClearFrom(old(areas), 0, a, e).areas && route.value == ClearFrom(old(areas), 0, a, e).slot
      ensures !spareOk ==> areas == old(areas)
    {
      if !spareOk { return None; }
      var i := 0;
      while i < |areas|
        invariant ClearFrom(areas, i, a, e) == ClearFrom(old(areas), 0, a, e)
        decreases |areas| - i
      {
        match FindOverlap(areas[i], a, e)
        case After => return Some(i);
        case StartsWith =>
          areas := areas[i := areas[i].(begin := e)];
          return Some(i);
        case Contains =>
          var spare := areas[i].(begin := e);
          areas := areas[i := areas[i].(end := a)];
          areas := Inserted(areas, i + 1, spare);
          return Some(i);
        case Whole => areas := Removed(areas, i);
        case EndsWith =>
          areas := areas[i := areas[i].(end := a)];
          i := i + 1;
        case Before => i := i + 1;
      }
      return Some(i);
    }

    /** Finding the place of a range that overlaps nothing. */
    method FindPlace(a: nat, e: nat) returns (route: Option<nat>)
      ensures route == InsertFrom(areas, 0, a, e)
    {
      var i := 0;
      while i < |areas|
        invariant InsertFrom(areas, i, a, e) == InsertFrom(areas, 0, a, e)
      {
        if a < areas[i].end { break; }
        i := i + 1;
      }
      if i < |areas| && (a >= areas[i].begin || e > areas[i].begin) { return None; }
      return Some(i);
    }

    /** Choosing a gap for a new area. */
    method FindGap(hint: nat, len: nat) returns (best: Option<nat>)
      ensures best == Choose(areas, 0, hint, len, None)
    {
      best := None;
      var k := 0;
      while k <= |areas|
        invariant k <= |areas| + 1 && (best.Some? ==> best.value <= |areas|)
        invariant Choose(areas, k, hint, len, best) == Choose(areas, 0, hint, len, None)
      {
        if GapEnd(areas, k) - GapBegin(areas, k) >= len {
          if GapBegin(areas, k) < hint {
            best := Some(k);
          } else {
            if best.None? || GapBegin(areas, k) - hint < hint - GapBegin(areas, best.value) { best := Some(k); }
            break;
          }
        }
        k := k + 1;
      }
    }

    /** Joining area `i` with its neighbours above. */
    method Merge(i: nat)
      modifies this`areas
      ensures areas == MergeAfter(old(areas), i)
    {
      while i + 1 < |areas| && areas[i].end == areas[i + 1].begin && areas[i].flags == areas[i + 1].flags
        invariant MergeAfter(areas, i) == MergeAfter(old(areas), i)
        decreases |areas|
      {
        areas := Joined(areas, i);
      }
    }

    /** Freeing pages `a` to `a + len`. */
    method Free(a: nat, len: nat, spareOk: bool) returns (r: Result)
      requires Valid()
      modifies this
      ensures Valid()
      ensures r == if len == 0 then Panic else if a + len > AddrMax() then Err(EINVAL) else if !spareOk then Err(ENOMEM) else Ok
      ensures r == Ok ==> Cut(old(areas), areas, a, a + len)
      ensures r != Ok ==> areas == old(areas) && space == old(space) && free == old(free)
      ensures SpaceFrames(space) + multiset(free) == old(SpaceFrames(space) + multiset(free))
    {
      if len == 0 { return Panic; }
      if a >= AddrMax() || a + len > AddrMax() { return Err(EINVAL); }
      var route := ClearArea(a, a + len, spareOk);
      r := if route.None? then Err(ENOMEM) else Ok;
    }

    /** Removing a range from the areas and the page tables. */
    method ClearArea(a: nat, e: nat, spareOk: bool) returns (route: Option<nat>)
      requires Valid() && a < e <= AddrMax()
      modifies this
      ensures Valid() && (route.Some? <==> spareOk)
      ensures spareOk ==> Cut(old(areas), areas, a, e)
      ensures spareOk ==> areas == ClearFrom(old(areas), 0, a, e).areas && route.value == ClearFrom(old(areas), 0, a, e).slot
      ensures !spareOk ==> areas == old(areas) && space == old(space) && free == old(free)
      ensures SpaceFrames(space) + multiset(free) == old(SpaceFrames(space) + multiset(free))
    {
      route := ClearForInsert(a, e, spareOk);
      if spareOk {
        ClearExact(old(areas), 0, a, e);
        ClearBounds(old(areas), 0, a, e);
        ClearPages(a, e);
        ClearAgrees(old(areas), areas, old(space), space, a, e);
      }
    }

    /** `mmu_clear` on the user half. */
    method ClearPages(a: nat, e: nat)
      requires SpaceOk(space) && a < e <= AddrMax()
      modifies this`space, this`free
      ensures SpaceOk(space) && forall p: nat :: Updated(Clear, a <= p < e, Mapped(old(space), p), Mapped(space, p))
      ensures SpaceFrames(space) + multiset(free) == SpaceFrames(old(space)) + multiset(old(free))
    {
      ChangePanics(Clear, space, a, e, free);
      ChangeOk(Clear, space, a, e, free);
      var r := Change(Clear, space, a, e, free).value;
      space, free := r.space, r.free;
    }

    /** `mmu_assign` on the user half, if there is any access; false is a panic. */
    method AssignPages(a: nat, e: nat, flags: Flags) returns (ok: bool)
      requires SpaceOk(space)
      modifies this`space, this`free
      ensures ok <==> flags.user ==> Change(Assign(flags), old(space), a, e, old(free)).Some?
      ensures ok && flags.user ==> SpaceOk(space) && forall p: nat :: Updated(Assign(flags), a <= p < e, Mapped(old(space), p), Mapped(space, p))
      ensures !flags.user || !ok ==> space == old(space) && free == old(free)
    {
      ok := true;
      if flags.user {
        match Change(Assign(flags), space, a, e, free)
        case None => ok := false;
        case Some(r) =>
          ChangeOk(Assign(flags), space, a, e, free);
          space, free := r.space, r.free;
      }
    }

    /** Adding an area at a fixed place where there is none. */
    method AllocFixedNoReplace(a: nat, len: nat, prot: Prot, areaOk: bool) returns (r: Result)
      requires Valid()
      modifies this
      ensures r == if len == 0 then Panic
                   else if a < ADDR_MIN || a + len > AddrMax() then Err(EINVAL)
                   else if !areaOk then Err(ENOMEM)
                   else if InsertFrom(old(areas), 0, a, a + len).None? then Err(EEXIST)
                   else if ModeOf(prot).user && |old(free)| < Cost(old(space), ModeOf(prot), a, a + len) then Panic
                   else Ok
      ensures r == Ok ==>
                && Valid() && Cut(old(areas), old(areas), a, a + len)
                && Adds(old(areas), areas, a, a + len, ModeOf(prot)) && Protects(space, a, a + len, prot)
      ensures r.Err? ==> Valid() && areas == old(areas) && space == old(space) && free == old(free)
      ensures r == Err(EEXIST) ==> !Cut(old(areas), old(areas), a, a + len)
    {
      if len == 0 { return Panic; }
      if a < ADDR_MIN || a >= AddrMax() || a + len > AddrMax() { return Err(EINVAL); }
      if !areaOk { return Err(ENOMEM); }
      var route := FindPlace(a, a + len);
      InsertExact(areas, 0, a, a + len);
      if route.None? { return Err(EEXIST); }
      var ok := AddBetween(route.value, a, a + len, ModeOf(prot));
      if ok { AddedProtects(old(areas), areas, space, a, a + len, prot); }
      r := if ok then Ok else Panic;
    }

    /** Linking a new area between its neighbours. */
    method AddBetween(k: nat, a: nat, e: nat, mode: Flags) returns (ok: bool)
      requires Valid() && Cut(areas, areas, a, e) && ADDR_MIN <= a < e <= AddrMax()
      requires k <= |areas| && (k > 0 ==> areas[k - 1].end <= a) && (k < |areas| ==> e <= areas[k].begin)
      modifies this
      ensures ok <==> (mode.user ==> |old(free)| >= Cost(old(space), mode, a, e))
      ensures ok ==> Valid() && Adds(old(areas), areas, a, e, mode)
    {
      InsertedSorted(areas, k, Area(a, e, mode));
      ok := AddArea(k, a, e, mode);
    }

    /** Linking a new area where no page is in one, and mapping its pages. */
    method AddArea(k: nat, a: nat, e: nat, mode: Flags) returns (ok: bool)
      requires InBounds(areas) && SpaceOk(space) && Agrees(areas, space) && Cut(areas, areas, a, e)
      requires k <= |areas| && ADDR_MIN <= a < e <= AddrMax()
      modifies this
      ensures areas == Inserted(old(areas), k, Area(a, e, mode)) && InBounds(areas)
      ensures Adds(old(areas), areas, a, e, mode)
      ensures ok <==> (mode.user ==> |old(free)| >= Cost(old(space), mode, a, e))
      ensures ok ==> SpaceOk(space) && Agrees(areas, space)
      ensures !ok ==> space == old(space) && free == old(free)
    {
      AssignPanics(areas, space, a, e, mode, free);
      InsertedIn(areas, k, Area(a, e, mode));
      areas := Inserted(areas, k, Area(a, e, mode));
      ok := AssignPages(a, e, mode);
      if ok { LinkedAgrees(old(areas), areas, old(space), space, a, e, mode); }
    }

    /** Adding an area at a fixed place, over whatever is there; the list stays in order unless the range was inside an area. */
    method AllocFixedOverwrite(a: nat, len: nat, prot: Prot, spareOk: bool, areaOk: bool) returns (r: Result)
      requires Valid()
      modifies this
      ensures r == Err(EINVAL) <==> len > 0 && (a < ADDR_MIN || a + len > AddrMax())
      ensures r == Err(ENOMEM) <==> len > 0 && a >= ADDR_MIN && a + len <= AddrMax() && (!spareOk || !areaOk)
      ensures r != Err(EEXIST)
      ensures r.Err? ==> Valid() && if a < ADDR_MIN || a + len > AddrMax() || !spareOk then areas == old(areas) else Cut(old(areas), areas, a, a + len)
      ensures r == Panic ==> len == 0 || (ModeOf(prot).user && |free| < Cost(space, ModeOf(prot), a, a + len))
      ensures len == 0 ==> r == Panic
      ensures r == Ok ==>
                && areas == Overwrite(old(areas), a, a + len, ModeOf(prot)) && Agrees(areas, space) && Protects(space, a, a + len, prot)
                && (Valid() <==> !Inside(old(areas), a, a + len))
                && forall p: nat, fl :: In(areas, p, fl) <==> if a <= p < a + len then fl == ModeOf(prot) else In(old(areas), p, fl)
    {
      if len == 0 { return Panic; }
      if a < ADDR_MIN || a >= AddrMax() || a + len > AddrMax() { return Err(EINVAL); }
      r := OverwriteRange(a, a + len, ModeOf(prot), spareOk, areaOk);
      if r == Ok {
        OverwriteIn(old(areas), a, a + len, ModeOf(prot));
        OverwriteSorted(old(areas), a, a + len, ModeOf(prot));
        AreasProtect(areas, space, a, a + len, prot);
      }
    }

    /** Clearing a range and putting an area in its place. */
    method OverwriteRange(a: nat, e: nat, mode: Flags, spareOk: bool, areaOk: bool) returns (r: Result)
      requires Valid() && ADDR_MIN <= a < e <= AddrMax()
      modifies this
      ensures (r.Err? <==> !spareOk || !areaOk) && (r.Err? ==> r == Err(ENOMEM))
      ensures r.Err? ==> Valid() && if spareOk then Cut(old(areas), areas, a, e) else areas == old(areas)
      ensures r == Panic ==> mode.user && |free| < Cost(space, mode, a, e)
      ensures r == Ok ==> areas == Overwrite(old(areas), a, e, mode) && InBounds(areas) && SpaceOk(space) && Agrees(areas, space)
    {
      SlotFits(areas, a, e);
      var route := ClearArea(a, e, spareOk);
      if route.None? || !areaOk { return Err(ENOMEM); }
      var ok := AddArea(route.value, a, e, mode);
      r := if ok then Ok else Panic;
    }

    /** Adding an area near a hint: in a gap that is long enough, but perhaps running past its end. */
    method AllocMovable(hint: nat, len: nat, prot: Prot, areaOk: bool) returns (r: Result, address: nat)
      requires Valid()
      modifies this
      ensures r == Err(EINVAL) <==> Hint(hint) + len > AddrMax()
      ensures r == Err(ENOMEM) <==>
                Hint(hint) + len <= AddrMax() && (!areaOk || Choose(old(areas), 0, Hint(hint), len, None).None?)
      ensures r != Err(EEXIST) && (r.Err? ==> areas == old(areas) && space == old(space) && free == old(free))
      ensures r == Ok ==> var k := Choose(old(areas), 0, Hint(hint), len, None).value;
                k <= |old(areas)| && len > 0 && address == Place(old(areas), k, Hint(hint))
                && areas == Settled(Placed(old(areas), k, Hint(hint), len, ModeOf(prot)), k)
      ensures r == Ok ==> (Sorted(areas) <==> Roomy(old(areas), Hint(hint), len))
      ensures r == Panic <==>
                && Hint(hint) + len <= AddrMax() && areaOk && Choose(old(areas), 0, Hint(hint), len, None).Some?
                && (len == 0 || Blocked(old(areas), old(space), old(free), Hint(hint), len, ModeOf(prot)))
      ensures r == Panic && len > 0 && Roomy(old(areas), Hint(hint), len) ==> |old(free)| < Cost(old(space), ModeOf(prot), address, address + len)
      ensures r == Ok && Roomy(old(areas), Hint(hint), len) ==>
                && Valid() && Cut(old(areas), old(areas), address, address + len)
                && Adds(old(areas), areas, address, address + len, ModeOf(prot)) && Protects(space, address, address + len, prot)
    {
      address := 0;
      var h := Hint(hint);
      if h + len > AddrMax() { return Err(EINVAL), 0; }
      if !areaOk { return Err(ENOMEM), 0; }
      var best := FindGap(h, len);
      if best.None? { return Err(ENOMEM), 0; }
      ChooseFits(areas, 0, h, len, None);
      r, address := AllocInGap(best.value, h, len, ModeOf(prot));
      if r == Ok && h + len <= GapEnd(old(areas), best.value) { AddedProtects(old(areas), areas, space, address, address + len, prot); }
    }

    /** Adding an area in gap `k`, which is long enough. */
    method AllocInGap(k: nat, h: nat, len: nat, mode: Flags) returns (r: Result, address: nat)
      requires Valid() && k <= |areas| && h + len <= AddrMax() && GapEnd(areas, k) - GapBegin(areas, k) >= len
      modifies this
      ensures (r == Ok || r == Panic) && address == Place(old(areas), k, h)
      ensures r == Panic <==> len == 0 || BlockedAt(old(areas), old(space), old(free), k, h, len, mode)
      ensures len > 0 && h + len <= GapEnd(old(areas), k) ==> !MeetsUser(old(areas), address, address + len)
      ensures r == Ok ==> areas == Settled(Placed(old(areas), k, h, len, mode), k) && (Sorted(areas) <==> h + len <= GapEnd(old(areas), k))
      ensures r == Ok && h + len <= GapEnd(old(areas), k) ==>
                Valid() && Cut(old(areas), old(areas), address, address + len) && Adds(old(areas), areas, address, address + len, mode)
    {
      address := Place(areas, k, h);
      if len == 0 { return Panic, address; }
      PlacedSettledExactly(areas, k, h, len, mode);
      var ok := AddInGap(k, h, address, len, mode);
      r := if ok then Ok else Panic;
    }

    method Splice(k: nat, x: Area)
      requires k <= |areas|
      modifies this`areas
      ensures areas == Settled(Inserted(old(areas), k, x), k)
    {
      areas := Inserted(areas, k, x);
      if k > 0 { Merge(k - 1); }
    }

    /** Linking the new area into gap `k`, mapping its pages, and joining it to its neighbours. */
    method AddInGap(k: nat, ghost h: nat, address: nat, len: nat, mode: Flags) returns (ok: bool)
      requires Valid() && k <= |areas| && len > 0 && h + len <= AddrMax() && GapEnd(areas, k) - GapBegin(areas, k) >= len
      requires address == Place(areas, k, h)
      modifies this
      ensures ok <==> !(mode.user && (MeetsUser(old(areas), address, address + len) || |old(free)| < Cost(old(space), mode, address, address + len)))
      ensures h + len <= GapEnd(old(areas), k) ==> !MeetsUser(old(areas), address, address + len)
      ensures ok ==> areas == Settled(Placed(old(areas), k, h, len, mode), k)
      ensures ok && h + len <= GapEnd(old(areas), k) ==>
                Valid() && Cut(old(areas), old(areas), address, address + len) && Adds(old(areas), areas, address, address + len, mode)
    {
      PlacePanics(areas, space, k, h, len, mode, free);
      ok := AssignPages(address, address + len, mode);
      if !ok { return; }
      Splice(k, Area(address, address + len, mode));
      assert areas == Settled(Placed(old(areas), k, h, len, mode), k);
      if h + len <= GapEnd(old(areas), k) {
        PlacedSettled(old(areas), k, h, len, mode);
        LinkedAgrees(old(areas), areas, old(space), space, address, address + len, mode);
      }
    }
  }

  /** Some area whose pages are mapped meets the range. */
  predicate MeetsUser(s: seq<Area>, a: nat, e: nat) {
    exists i {:trigger s[i]} :: 0 <= i < |s| && s[i].flags.user && s[i].begin < e && a < s[i].end
  }

  /** The page tables refuse the chosen place: it runs past its gap over mapped pages, or frames run out. */
  predicate Blocked(s: seq<Area>, space: Space, free: seq<nat>, hint: nat, len: nat, flags: Flags) {
    var c := Choose(s, 0, hint, len, None);
    c.Some? && c.value <= |s| && BlockedAt(s, space, free, c.value, hint, len, flags)
  }

  predicate BlockedAt(s: seq<Area>, space: Space, free: seq<nat>, k: nat, hint: nat, len: nat, flags: Flags)
    requires k <= |s|
  {
    var a := Place(s, k, hint);
    flags.user && (MeetsUser(s, a, a + len) || |free| < Cost(space, flags, a, a + len))
  }

  /** An assignment of pages panics exactly if an area that maps its pages meets the range, or frames run out. */
  lemma AssignPanicsExactly(areas: seq<Area>, s: Space, a: nat, e: nat, flags: Flags, free: seq<nat>)
    requires Sorted(areas) && SpaceOk(s) && Agrees(areas, s) && a < e <= AddrMax()
    ensures Change(Assign(flags), s, a, e, free).None? <==> MeetsUser(areas, a, e) || |free| < Cost(s, flags, a, e)
  {
    ChangePanics(Assign(flags), s, a, e, free);
    if MeetsUser(areas, a, e) {
      var p, fl := MeetsIn(areas, a, e);
      assert Refused(Assign(flags), Mapped(s, p));
    }
    forall p: nat | a <= p < e && Refused(Assign(flags), Mapped(s, p)) ensures MeetsUser(areas, a, e) {
      MappedForm(s.low, LEVELS - 1, p);
      var i :| 0 <= i < |areas| && Within(areas[i], p) && areas[i].flags == Mapped(s, p).flags;
    }
  }

  /** The chosen place is within the limits; with room in its gap it meets no area. */
  lemma PlacePanics(areas: seq<Area>, s: Space, k: nat, hint: nat, len: nat, flags: Flags, free: seq<nat>)
    requires Sorted(areas) && InBounds(areas) && SpaceOk(s) && Agrees(areas, s) && k <= |areas| && len > 0 && hint + len <= AddrMax()
    requires GapEnd(areas, k) - GapBegin(areas, k) >= len
    ensures var a := Place(areas, k, hint);
            && (Change(Assign(flags), s, a, a + len, free).None? <==> MeetsUser(areas, a, a + len) || |free| < Cost(s, flags, a, a + len))
            && (hint + len <= GapEnd(areas, k) ==> !MeetsUser(areas, a, a + len))
  {
    var a := Place(areas, k, hint);
    AssignPanicsExactly(areas, s, a, a + len, flags, free);
    if hint + len <= GapEnd(areas, k) && MeetsUser(areas, a, a + len) {
      var p, fl := MeetsIn(areas, a, a + len);
      GapMeetsNone(areas, k, a, a + len);
    }
  }

  lemma MeetsIn(areas: seq<Area>, a: nat, e: nat) returns (p: nat, fl: Flags)
    requires Sorted(areas) && a < e && MeetsUser(areas, a, e)
    ensures a <= p < e && fl.user && In(areas, p, fl)
  {
    var i :| 0 <= i < |areas| && areas[i].flags.user && areas[i].begin < e && a < areas[i].end;
    p, fl := if a < areas[i].begin then areas[i].begin else a, areas[i].flags;
    assert Within(areas[i], p);
  }

  /** The list is in order once the new area has been joined to its neighbours, exactly if the hint leaves room in the gap. */
  lemma PlacedSettledExactly(s: seq<Area>, k: nat, hint: nat, len: nat, flags: Flags)
    requires Sorted(s) && InBounds(s) && k <= |s| && len > 0 && hint + len <= AddrMax() && GapEnd(s, k) - GapBegin(s, k) >= len
    ensures Sorted(Settled(Placed(s, k, hint, len, flags), k)) <==> hint + len <= GapEnd(s, k)
  {
    PlacedSorted(s, k, hint, len, flags);
    if k > 0 { MergeSortedExactly(Placed(s, k, hint, len, flags), k - 1); }
  }

  /** The list once the new area in gap `k` is joined to its neighbours, from the area before it on. */
  function Settled(s: seq<Area>, k: nat): seq<Area> { if k > 0 then MergeAfter(s, k - 1) else s }

  /** The hint leaves room for the length before the end of the gap it leads to. */
  predicate Roomy(s: seq<Area>, hint: nat, len: nat) {
    var c := Choose(s, 0, hint, len, None);
    c.Some? && c.value <= |s| && hint + len <= GapEnd(s, c.value)
  }

  lemma {:induction false} MergeBounds(s: seq<Area>, i: nat)
    requires InBounds(s)
    ensures InBounds(MergeAfter(s, i))
    decreases |s|
  {
    if Joins(s, i) { MergeBounds(Joined(s, i), i); }
  }

  lemma SettledExact(s: seq<Area>, k: nat)
    requires Sorted(s) && InBounds(s)
    ensures Sorted(Settled(s, k)) && InBounds(Settled(s, k)) && forall p: nat, fl :: In(Settled(s, k), p, fl) <==> In(s, p, fl)
  {
    if k > 0 { MergeExact(s, k - 1); MergeBounds(s, k - 1); }
  }

  lemma GapMeetsNone(s: seq<Area>, k: nat, a: nat, e: nat)
    requires Sorted(s) && k <= |s| && GapBegin(s, k) <= a && e <= GapEnd(s, k)
    ensures Cut(s, s, a, e)
  {
    forall j | 0 <= j < k ensures s[j].end <= a { if j < k - 1 { assert s[j].end <= s[k - 1].begin < s[k - 1].end; } }
    NoneMeets(s, k, a, e);
  }

  /** In a gap with room, the new area is in order and meets no other. */
  lemma PlacedSettled(s: seq<Area>, k: nat, hint: nat, len: nat, flags: Flags)
    requires Sorted(s) && InBounds(s) && k <= |s| && len > 0 && hint + len <= AddrMax() && GapEnd(s, k) - GapBegin(s, k) >= len
    ensures hint + len <= GapEnd(s, k) ==>
              var a := Place(s, k, hint); var s' := Settled(Placed(s, k, hint, len, flags), k);
              Sorted(s') && InBounds(s') && Cut(s, s, a, a + len) && Adds(s, s', a, a + len, flags)
  {
    if hint + len <= GapEnd(s, k) {
      var a := Place(s, k, hint);
      PlacedSorted(s, k, hint, len, flags);
      SettledExact(Placed(s, k, hint, len, flags), k);
      GapMeetsNone(s, k, a, a + len);
      SettledAdds(s, k, a, len, flags, Settled(Placed(s, k, hint, len, flags), k));
    }
  }

  lemma SettledAdds(s: seq<Area>, k: nat, a: nat, len: nat, flags: Flags, s': seq<Area>)
    requires k <= |s|
    requires forall p: nat, fl :: In(s', p, fl) <==> In(Inserted(s, k, Area(a, a + len, flags)), p, fl)
    ensures Adds(s, s', a, a + len, flags)
  {
    InsertedIn(s, k, Area(a, a + len, flags));
  }

  lemma SlotFits(s: seq<Area>, a: nat, e: nat)
    requires Sorted(s) && a < e
    ensures ClearFrom(s, 0, a, e).slot <= |ClearFrom(s, 0, a, e).areas|
  {
    ClearExact(s, 0, a, e);
  }

  lemma LinkedAgrees(areas: seq<Area>, areas': seq<Area>, s: Space, s': Space, a: nat, e: nat, flags: Flags)
    requires Agrees(areas, s) && Cut(areas, areas, a, e)
    requires Adds(areas, areas', a, e, flags)
    requires if flags.user then forall p: nat :: Updated(Assign(flags), a <= p < e, Mapped(s, p), Mapped(s', p)) else s' == s
    ensures Agrees(areas', s')
  {
    if flags.user { AssignAgrees(areas, areas', s, s', a, e, flags); } else { ReserveAgrees(areas, areas', s, a, e, flags); }
  }

  /** Clearing leaves no area outside the limits. */
  lemma {:induction false} ClearBounds(s: seq<Area>, i: nat, a: nat, e: nat)
    requires Sorted(s) && InBounds(s) && i <= |s| && a < e && forall k | 0 <= k < i :: s[k].end <= a
    ensures InBounds(ClearFrom(s, i, a, e).areas)
    decreases |s| - i
  {
    if i < |s| {
      match FindOverlap(s[i], a, e)
      case Whole =>
        RemoveCuts(s, i, a, e);
        ClearBounds(Removed(s, i), i, a, e);
      case EndsWith =>
        TrimCuts(s, i, s[i].(end := a), a, e);
        ClearBounds(s[i := s[i].(end := a)], i + 1, a, e);
      case Before => ClearBounds(s, i + 1, a, e);
      case _ =>
    }
  }

  /** The areas of a space describe its clone as well. */
  lemma CloneAgrees(areas: seq<Area>, s: Space, free: seq<nat>, ram: Ram)
    requires SpaceOk(s) && Agrees(areas, s) && CloneSpace(s, free, ram).Some?
    requires Once(HeldKids(s.low, LEVELS - 1, free[1..]))
    ensures SpaceOk(CloneSpace(s, free, ram).value.space) && Agrees(areas, CloneSpace(s, free, ram).value.space)
  {
    var s' := CloneSpace(s, free, ram).value.space;
    CloneSpaceOk(s, free, ram);
    forall p: nat, fl ensures (Mapped(s', p).Page? && Mapped(s', p).flags == fl) <==> In(areas, p, fl) && fl.user {
      CloneLooksAt(s, free, ram, p);
    }
  }

  lemma CloneLooksAt(s: Space, free: seq<nat>, ram: Ram, p: nat)
    requires SpaceOk(s) && CloneSpace(s, free, ram).Some? && Once(HeldKids(s.low, LEVELS - 1, free[1..]))
    ensures var t, t' := Mapped(s, p), Mapped(CloneSpace(s, free, ram).value.space, p);
            (t'.Page? <==> t.Page?) && (t.Page? ==> t'.flags == t.flags)
  {
    CloneKidsLooks(s.low, LEVELS - 1, 0, free[1..], ram, p);
    MappedForm(s.low, LEVELS - 1, p);
    var r := CloneKids(s.low, LEVELS - 1, 0, free[1..], ram).value;
    assert SameContents(LookupKids(s.low, LEVELS - 1, p), ram, LookupKids(r.kids, LEVELS - 1, p), r.ram);
  }
}
