/** What each operation does to the contents of every page of every address space. */
module PageIsolation {
  import opened Wrappers
  import opened PageTree
  import opened PageOps
  import opened PageFrames
  import opened PageSpaces
  import opened PageClone
  import opened PageRuns

  /** What user page `p` of space `i` holds. */
  function Contents(sys: System, i: nat, p: nat): Bytes
    requires IsLive(sys, i)
  {
    var t := Mapped(sys.slots[i].space, p);
    if t.Page? then Read(sys.ram, t.frame) else []
  }

  // ---------------------------------------------------------------- frames of a good machine

  lemma {:induction false} SlotOwned(slots: seq<Slot>, n: nat, i: nat, x: multiset<nat>)
    requires i < n <= |slots| && x == SlotFrames(slots[i])
    ensures x <= AllSlots(slots, n)
    decreases n
  {
    if i < n - 1 {
      SlotOwned(slots, n - 1, i, x);
      Grows(x, AllSlots(slots, n - 1), SlotFrames(slots[n - 1]));
    }
  }

  lemma {:induction false} TwoSlotsOwned(slots: seq<Slot>, n: nat, i: nat, j: nat, x: multiset<nat>, y: multiset<nat>)
    requires i < j < n <= |slots| && x == SlotFrames(slots[i]) && y == SlotFrames(slots[j])
    ensures x + y <= AllSlots(slots, n)
    decreases n
  {
    if j < n - 1 {
      TwoSlotsOwned(slots, n - 1, i, j, x, y);
      Grows(x + y, AllSlots(slots, n - 1), SlotFrames(slots[n - 1]));
    } else {
      SlotOwned(slots, n - 1, i, x);
      Grows(x, AllSlots(slots, n - 1), y);
    }
  }

  lemma PageOwned(sys: System, total: multiset<nat>, i: nat, p: nat)
    requires Good(sys, total) && IsLive(sys, i) && Mapped(sys.slots[i].space, p).Page?
    ensures Mapped(sys.slots[i].space, p).frame in SlotFrames(sys.slots[i])
    ensures Mapped(sys.slots[i].space, p).frame !in multiset(sys.free)
  {
    var f := Mapped(sys.slots[i].space, p).frame;
    LookupKidsOwned(sys.slots[i].space.low, LEVELS - 1, p);
    SlotOwned(sys.slots, |sys.slots|, i, SlotFrames(sys.slots[i]));
    OnlyOnce(Owned(sys), SlotFrames(sys.slots[i]), multiset(sys.free), f);
  }

  lemma OnlyOnce(m: multiset<nat>, x: multiset<nat>, y: multiset<nat>, f: nat)
    requires Once(m) && x + y <= m && f in x
    ensures f !in y && x[f] == 1
  {
    assert (x + y)[f] <= m[f];
    assert f in m;
  }

  /** No frame backs two pages, of one space or of two. */
  lemma FramesDistinct(sys: System, total: multiset<nat>, i: nat, p: nat, j: nat, q: nat)
    requires Good(sys, total) && IsLive(sys, i) && IsLive(sys, j) && (i != j || p != q)
    requires Mapped(sys.slots[i].space, p).Page? && Mapped(sys.slots[j].space, q).Page?
    ensures Mapped(sys.slots[i].space, p).frame != Mapped(sys.slots[j].space, q).frame
  {
    var f := Mapped(sys.slots[i].space, p).frame;
    PageOwned(sys, total, i, p);
    PageOwned(sys, total, j, q);
    SlotOwned(sys.slots, |sys.slots|, i, SlotFrames(sys.slots[i]));
    if i == j {
      var low := sys.slots[i].space.low;
      if p < q { TwoPagesOwned(low, LEVELS - 1, p, q); } else { TwoPagesOwned(low, LEVELS - 1, q, p); }
      OnlyOnce(Owned(sys), SlotFrames(sys.slots[i]), multiset(sys.free), f);
    } else {
      var x, y := SlotFrames(sys.slots[i]), SlotFrames(sys.slots[j]);
      if i < j { TwoSlotsOwned(sys.slots, |sys.slots|, i, j, x, y); } else { TwoSlotsOwned(sys.slots, |sys.slots|, j, i, y, x); }
      OnlyOnce(Owned(sys), x, y, f);
    }
  }

  // ---------------------------------------------------------------- contents of frames

  lemma {:induction false} FillReads(ram: Ram, fs: seq<nat>, b: Bytes, f: nat)
    ensures Read(Fill(ram, fs, b), f) == if f in multiset(fs) then b else Read(ram, f)
    decreases |fs|
  {
    if fs != [] {
      FillReads(ram[fs[0] := b], fs[1..], b, f);
      Taken(fs);
    }
  }

  /** Taking and giving back frames leaves alone the frames that are not free before or after. */
  lemma MovesLeave(ram: Ram, free: seq<nat>, free': seq<nat>, f: nat)
    requires f !in multiset(free) && f !in multiset(free')
    ensures Read(Moves(ram, free, free'), f) == Read(ram, f)
  {
    if |free'| <= |free| {
      FillReads(ram, free[..|free| - |free'|], ZERO, f);
    } else {
      FillReads(ram, free'[..|free'| - |free|], SCRIBBLE, f);
    }
  }

  /** The space an operation works on. */
  predicate Targets(ev: Event, j: nat) {
    match ev
    case Make(_) => false
    case Alter(i, _, _, _) => i == j
    case Copy(_) => false
    case Drop(i) => i == j
    case Store(i, _, _) => i == j
  }

  /** An operation leaves the map and the contents of every other space, and of a space it copies, as they were. */
  lemma Isolation(sys: System, ev: Event, total: multiset<nat>, j: nat, p: nat)
    requires Good(sys, total) && Next(sys, ev).Some? && IsLive(sys, j) && !Targets(ev, j)
    ensures var sys' := Next(sys, ev).value;
            IsLive(sys', j) && sys'.slots[j] == sys.slots[j] && Contents(sys', j, p) == Contents(sys, j, p)
  {
    SlotStays(sys, ev, j);
    if Mapped(sys.slots[j].space, p).Page? {
      NextKeeps(sys, ev, total);
      PageOwned(sys, total, j, p);
      PageOwned(Next(sys, ev).value, total, j, p);
      if ev.Store? { FramesDistinct(sys, total, ev.i, ev.page, j, p); }
      FrameStays(sys, ev, Mapped(sys.slots[j].space, p).frame);
    }
  }

  lemma SlotStays(sys: System, ev: Event, j: nat)
    requires Next(sys, ev).Some? && IsLive(sys, j) && !Targets(ev, j)
    ensures IsLive(Next(sys, ev).value, j) && Next(sys, ev).value.slots[j] == sys.slots[j]
  {
  }

  lemma FrameStays(sys: System, ev: Event, f: nat)
    requires Next(sys, ev).Some? && f !in multiset(sys.free) && f !in multiset(Next(sys, ev).value.free)
    requires ev.Store? ==> f != Mapped(sys.slots[ev.i].space, ev.page).frame
    ensures Read(Next(sys, ev).value.ram, f) == Read(sys.ram, f)
  {
    match ev
    case Copy(i) => CopyLeaves(sys, i, f);
    case Store(_, _, _) =>
    case _ => MovesLeave(sys.ram, sys.free, Next(sys, ev).value.free, f);
  }

  lemma CopyLeaves(sys: System, i: nat, f: nat)
    requires Next(sys, Copy(i)).Some? && f !in multiset(sys.free)
    ensures Read(Next(sys, Copy(i)).value.ram, f) == Read(sys.ram, f)
  {
    Taken(sys.free);
    CloneKidsWrites(sys.slots[i].space.low, LEVELS - 1, 0, sys.free[1..], sys.ram, f);
  }

  /** Within its own space an operation on a range leaves the pages outside the range as they were. */
  lemma OutsideRange(sys: System, total: multiset<nat>, i: nat, op: Op, lo: nat, hi: nat, p: nat)
    requires Good(sys, total) && Next(sys, Alter(i, op, lo, hi)).Some? && !(lo <= p < hi)
    ensures var sys' := Next(sys, Alter(i, op, lo, hi)).value;
            && IsLive(sys', i) && Mapped(sys'.slots[i].space, p) == Mapped(sys.slots[i].space, p)
            && Contents(sys', i, p) == Contents(sys, i, p)
  {
    var ev := Alter(i, op, lo, hi);
    var sys' := Next(sys, ev).value;
    NextKeeps(sys, ev, total);
    ChangeOk(op, sys.slots[i].space, lo, hi, sys.free);
    assert Updated(op, false, Mapped(sys.slots[i].space, p), Mapped(sys'.slots[i].space, p));
    if Mapped(sys.slots[i].space, p).Page? {
      PageOwned(sys, total, i, p);
      PageOwned(sys', total, i, p);
      MovesLeave(sys.ram, sys.free, sys'.free, Mapped(sys.slots[i].space, p).frame);
    }
  }

  /** A store is seen through its own page only. */
  lemma StoreExact(sys: System, total: multiset<nat>, i: nat, p: nat, bytes: Bytes, j: nat, q: nat)
    requires Good(sys, total) && Next(sys, Store(i, p, bytes)).Some? && IsLive(sys, j)
    ensures Contents(Next(sys, Store(i, p, bytes)).value, j, q)
         == if i == j && p == q then bytes else Contents(sys, j, q)
  {
    if (i != j || p != q) && Mapped(sys.slots[j].space, q).Page? { FramesDistinct(sys, total, i, p, j, q); }
  }

  lemma SourceOnce(sys: System, total: multiset<nat>, i: nat, low: seq<Tree>)
    requires Good(sys, total) && IsLive(sys, i) && sys.free != [] && low == sys.slots[i].space.low
    ensures Once(HeldKids(low, LEVELS - 1, sys.free[1..]))
  {
    var x := AllFrames(low, LEVELS - 1, |low|);
    Taken(sys.free);
    SlotOwned(sys.slots, |sys.slots|, i, SlotFrames(sys.slots[i]));
    Grows(x, x, multiset{sys.slots[i].space.frame});
    assert x <= AllSlots(sys.slots, |sys.slots|);
    OnceLess(Owned(sys), x + multiset(sys.free[1..]));
  }

  /** A copy has the same pages, with the same flags and contents, as the space it copies. */
  lemma CopyExact(sys: System, total: multiset<nat>, i: nat, p: nat)
    requires Good(sys, total) && Next(sys, Copy(i)).Some?
    ensures var sys' := Next(sys, Copy(i)).value; var n := |sys.slots|;
            && IsLive(sys', n)
            && SameContents(Mapped(sys.slots[i].space, p), sys.ram, Mapped(sys'.slots[n].space, p), sys'.ram)
            && Contents(sys', n, p) == Contents(sys, i, p)
  {
    var low := sys.slots[i].space.low;
    SourceOnce(sys, total, i, low);
    CloneKidsLooks(low, LEVELS - 1, 0, sys.free[1..], sys.ram, p);
  }

  // ---------------------------------------------------------------- new pages are zero

  /** An assignment takes its frames from the head of the free list, in order. */
  lemma {:induction false} AssignTakes(op: Op, t: Tree, d: nat, lo: nat, hi: nat, free: seq<nat>)
    requires op.Assign? && Apply(op, t, d, lo, hi, free).Some?
    ensures var r := Apply(op, t, d, lo, hi, free).value.free; |r| <= |free| && r == free[|free| - |r|..]
    decreases d, 0, 0
  {
    if d > 0 && Enter(op, t, free).Into? {
      var e := Enter(op, t, free);
      AssignKidsTakes(op, e.kids, d - 1, First(d - 1, lo), Last(d - 1, hi), lo, hi, e.free);
    }
  }

  lemma {:induction false} AssignKidsTakes(op: Op, kids: seq<Tree>, d: nat, i: nat, n: nat, lo: nat, hi: nat, free: seq<nat>)
    requires op.Assign? && ApplyKids(op, kids, d, i, n, lo, hi, free).Some?
    ensures var r := ApplyKids(op, kids, d, i, n, lo, hi, free).value.free; |r| <= |free| && r == free[|free| - |r|..]
    decreases d, 1, n - i
  {
    if i < n && i < |kids| {
      AssignTakes(op, kids[i], d, Lo(d, i, lo), Hi(d, i, hi), free);
      AssignKidsTakes(op, kids, d, i + 1, n, lo, hi, Apply(op, kids[i], d, Lo(d, i, lo), Hi(d, i, hi), free).value.free);
    }
  }

  /** The frames of the pages it assigns were free. */
  lemma {:induction false} AssignFresh(op: Op, t: Tree, d: nat, lo: nat, hi: nat, free: seq<nat>, p: nat)
    requires op.Assign? && Shaped(t, d) && lo <= p < hi <= Size(d) && Apply(op, t, d, lo, hi, free).Some?
    ensures var r := Lookup(Apply(op, t, d, lo, hi, free).value.tree, d, p); r.Page? && r.frame in multiset(free)
    decreases d, 0, 0
  {
    if d > 0 {
      var e := Enter(op, t, free);
      EnterLooks(op, t, free, d, p);
      LastFits(d - 1, hi);
      InRangeTouched(d - 1, lo, hi, p);
      AssignKidsFresh(op, e.kids, d - 1, First(d - 1, lo), Last(d - 1, hi), lo, hi, e.free, p);
      var r := ApplyKids(op, e.kids, d - 1, First(d - 1, lo), Last(d - 1, hi), lo, hi, e.free).value;
      CloseLooks(op, e.frame, r.kids, r.free, d, p);
      if t.Absent? { Taken(free); }
    }
  }

  lemma {:induction false} AssignKidsFresh(op: Op, kids: seq<Tree>, d: nat, i: nat, n: nat, lo: nat, hi: nat,
                                           free: seq<nat>, p: nat)
    requires op.Assign? && (forall k | 0 <= k < |kids| :: Shaped(kids[k], d))
    requires lo <= p < hi && First(d, lo) <= i <= Shr(d, p) && n == Last(d, hi) <= |kids|
    requires ApplyKids(op, kids, d, i, n, lo, hi, free).Some?
    ensures var r := LookupKids(ApplyKids(op, kids, d, i, n, lo, hi, free).value.kids, d, p); r.Page? && r.frame in multiset(free)
    decreases d, 1, n - i
  {
    var k := Shr(d, p);
    RestFits(d, p);
    InPart(d, lo, hi, p);
    InRangeTouched(d, lo, hi, p);
    TouchedExactly(d, lo, hi, i);
    var r := Apply(op, kids[i], d, Lo(d, i, lo), Hi(d, i, hi), free).value;
    ApplyKidsShaped(op, kids, d, i + 1, n, lo, hi, r.free);
    if k == i {
      AssignFresh(op, kids[i], d, Lo(d, i, lo), Hi(d, i, hi), free, Rest(d, p));
    } else {
      AssignTakes(op, kids[i], d, Lo(d, i, lo), Hi(d, i, hi), free);
      AssignKidsFresh(op, kids, d, i + 1, n, lo, hi, r.free, p);
    }
  }

  /** A page that is assigned reads as zero. */
  lemma AssignedZero(sys: System, total: multiset<nat>, i: nat, flags: Flags, lo: nat, hi: nat, p: nat)
    requires Good(sys, total) && Next(sys, Alter(i, Assign(flags), lo, hi)).Some? && lo <= p < hi
    ensures var sys' := Next(sys, Alter(i, Assign(flags), lo, hi)).value;
            && IsLive(sys', i) && Mapped(sys'.slots[i].space, p).Page? && Mapped(sys'.slots[i].space, p).flags == flags
            && Contents(sys', i, p) == ZERO
  {
    var d, op := LEVELS - 1, Assign(flags);
    var s, sys' := sys.slots[i].space, Next(sys, Alter(i, op, lo, hi)).value;
    NextKeeps(sys, Alter(i, op, lo, hi), total);
    ChangeOk(op, s, lo, hi, sys.free);
    assert Updated(op, true, Mapped(s, p), Mapped(sys'.slots[i].space, p));
    HalfFits(hi);
    InRangeTouched(d, lo, hi, p);
    AssignKidsFresh(op, s.low, d, First(d, lo), Last(d, hi), lo, hi, sys.free, p);
    AssignKidsTakes(op, s.low, d, First(d, lo), Last(d, hi), lo, hi, sys.free);
    PageOwned(sys', total, i, p);
    HeadZero(sys.ram, sys.free, sys'.free, Mapped(sys'.slots[i].space, p).frame);
  }

  lemma HeadZero(ram: Ram, free: seq<nat>, free': seq<nat>, f: nat)
    requires |free'| <= |free| && free' == free[|free| - |free'|..] && f in multiset(free) && f !in multiset(free')
    ensures Read(Moves(ram, free, free'), f) == ZERO
  {
    var k := |free| - |free'|;
    assert free == free[..k] + free';
    FillReads(ram, free[..k], ZERO, f);
  }
}
