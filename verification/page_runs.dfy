/**
  A machine with any number of address spaces, over any run of the operations on them: frames
  stay distinct and conserved, and no space sees what happens to another.
 */
module PageRuns {
  import opened Wrappers
  import opened PageTree
  import opened PageOps
  import opened PageFrames
  import opened PageSpaces
  import opened PageClone

  datatype Slot = Gone | Live(space: Space)

  datatype System = System(free: seq<nat>, slots: seq<Slot>, ram: Ram)

  datatype Event =
    | Make(high: seq<int>)
    | Alter(i: nat, op: Op, lo: nat, hi: nat)
    | Copy(i: nat)
    | Drop(i: nat)
    | Store(i: nat, page: nat, bytes: Bytes)

  const ZERO: Bytes := []
  const SCRIBBLE: Bytes := [0xee]

  /** Filling the frames `fs`: new pages are zeroed, freed pages scribbled over. */
  function Fill(ram: Ram, fs: seq<nat>, b: Bytes): Ram
    decreases |fs|
  {
    if fs == [] then ram else Fill(ram[fs[0] := b], fs[1..], b)
  }

  /** What taking or giving back frames at the head of the free list does to their contents. */
  function Moves(ram: Ram, free: seq<nat>, free': seq<nat>): Ram {
    if |free'| <= |free| then Fill(ram, free[..|free| - |free'|], ZERO)
    else Fill(ram, free'[..|free'| - |free|], SCRIBBLE)
  }

  datatype Cloned = Cloned(space: Space, free: seq<nat>, ram: Ram)

  function CloneSpace(s: Space, free: seq<nat>, ram: Ram): Option<Cloned> {
    if free == [] then None
    else
      match CloneKids(s.low, LEVELS - 1, 0, free[1..], ram)
      case None => None
      case Some(r) => Some(Cloned(Space(free[0], r.kids, s.high), r.free, r.ram))
  }

  predicate IsLive(sys: System, i: nat) { i < |sys.slots| && sys.slots[i].Live? }

  function Next(sys: System, ev: Event): Option<System> {
    match ev
    case Make(high) => (
      match Create(high, sys.free)
      case None => None
      case Some(r) => Some(System(r.free, sys.slots + [Live(r.space)], Moves(sys.ram, sys.free, r.free))))
    case Alter(i, op, lo, hi) =>
      if !IsLive(sys, i) then None else (
      match Change(op, sys.slots[i].space, lo, hi, sys.free)
      case None => None
      case Some(r) => Some(System(r.free, sys.slots[i := Live(r.space)], Moves(sys.ram, sys.free, r.free))))
    case Copy(i) =>
      if !IsLive(sys, i) then None else (
      match CloneSpace(sys.slots[i].space, sys.free, sys.ram)
      case None => None
      case Some(r) => Some(System(r.free, sys.slots + [Live(r.space)], r.ram)))
    case Drop(i) =>
      if !IsLive(sys, i) then None else (
      match Destroy(sys.slots[i].space, sys.free)
      case None => None
      case Some(free) => Some(System(free, sys.slots[i := Gone], Moves(sys.ram, sys.free, free))))
    case Store(i, p, bytes) =>
      if !IsLive(sys, i) || !Mapped(sys.slots[i].space, p).Page? then None
      else Some(sys.(ram := sys.ram[Mapped(sys.slots[i].space, p).frame := bytes]))
  }

  // ---------------------------------------------------------------- conservation over runs

  function SlotFrames(s: Slot): multiset<nat> { if s.Live? then SpaceFrames(s.space) else multiset{} }

  function AllSlots(slots: seq<Slot>, n: nat): multiset<nat>
    requires n <= |slots|
  {
    if n == 0 then multiset{} else AllSlots(slots, n - 1) + SlotFrames(slots[n - 1])
  }

  function Owned(sys: System): multiset<nat> { AllSlots(sys.slots, |sys.slots|) + multiset(sys.free) }

  ghost predicate SlotsOk(slots: seq<Slot>) { forall i | 0 <= i < |slots| && slots[i].Live? :: SpaceOk(slots[i].space) }

  /** Every space is in order, and the frames in use and free are together `total`, none twice. */
  ghost predicate Good(sys: System, total: multiset<nat>) {
    SlotsOk(sys.slots) && Owned(sys) == total && Once(total)
  }

  lemma {:induction false} SlotsAbove(slots: seq<Slot>, n: nat, i: nat, s: Slot)
    requires n <= i < |slots|
    ensures AllSlots(slots[i := s], n) == AllSlots(slots, n)
    decreases n
  {
    if n > 0 { SlotsAbove(slots, n - 1, i, s); }
  }

  lemma {:induction false} SlotsSet(slots: seq<Slot>, n: nat, i: nat, s: Slot, x: multiset<nat>, y: multiset<nat>)
    requires i < n <= |slots| && x == SlotFrames(slots[i]) && y == SlotFrames(s)
    ensures AllSlots(slots[i := s], n) + x == AllSlots(slots, n) + y
    decreases n
  {
    var a', a := AllSlots(slots[i := s], n - 1), AllSlots(slots, n - 1);
    if i < n - 1 {
      SlotsSet(slots, n - 1, i, s, x, y);
      Regroup(a', x, a, y, SlotFrames(slots[n - 1]));
    } else {
      SlotsAbove(slots, n - 1, i, s);
      Commute(a, x, y);
    }
  }

  lemma {:induction false} SlotsMore(slots: seq<Slot>, n: nat, s: Slot)
    requires n <= |slots|
    ensures AllSlots(slots + [s], n) == AllSlots(slots, n)
    decreases n
  {
    if n > 0 { SlotsMore(slots, n - 1, s); }
  }

  /** Replacing a slot and the free list by others that together own the same. */
  lemma SlotChange(slots: seq<Slot>, i: nat, s: Slot, free: seq<nat>, free': seq<nat>)
    requires i < |slots| && SlotFrames(s) + multiset(free') == SlotFrames(slots[i]) + multiset(free)
    ensures AllSlots(slots[i := s], |slots|) + multiset(free') == AllSlots(slots, |slots|) + multiset(free)
  {
    SlotsSet(slots, |slots|, i, s, SlotFrames(slots[i]), SlotFrames(s));
    var a', a, x, y := AllSlots(slots[i := s], |slots|), AllSlots(slots, |slots|), SlotFrames(slots[i]), SlotFrames(s);
    Regroup(a', x, a, y, multiset(free'));
    assert (a + multiset(free')) + y == a + (y + multiset(free'));
    assert a + (x + multiset(free)) == (a + multiset(free)) + x;
    Cancel(x, a' + multiset(free'), a + multiset(free));
  }

  lemma SlotNew(slots: seq<Slot>, s: Slot, free: seq<nat>, free': seq<nat>)
    requires SlotFrames(s) + multiset(free') == multiset(free)
    ensures AllSlots(slots + [s], |slots| + 1) + multiset(free') == AllSlots(slots, |slots|) + multiset(free)
  {
    SlotsMore(slots, |slots|, s);
  }

  lemma CloneSpaceOk(s: Space, free: seq<nat>, ram: Ram)
    requires SpaceOk(s) && CloneSpace(s, free, ram).Some?
    ensures var r := CloneSpace(s, free, ram).value;
            SpaceOk(r.space) && r.space.high == s.high && SpaceFrames(r.space) + multiset(r.free) == multiset(free)
  {
    Taken(free);
    CloneKidsTakes(s.low, LEVELS - 1, 0, free[1..], ram);
    CloneKidsTight(s.low, LEVELS - 1, 0, free[1..], ram);
    var r := CloneSpace(s, free, ram).value;
    SpaceHeld(r.space, r.free);
  }

  /** One space replaced: still good if the new one is in order and owns what the old one gave or got. */
  lemma ChangeGood(sys: System, i: nat, s: Slot, free: seq<nat>, ram: Ram, total: multiset<nat>)
    requires Good(sys, total) && i < |sys.slots| && (s.Live? ==> SpaceOk(s.space))
    requires SlotFrames(s) + multiset(free) == SlotFrames(sys.slots[i]) + multiset(sys.free)
    ensures Good(System(free, sys.slots[i := s], ram), total)
  {
    SlotChange(sys.slots, i, s, sys.free, free);
  }

  lemma MoreGood(sys: System, s: Space, free: seq<nat>, ram: Ram, total: multiset<nat>)
    requires Good(sys, total) && SpaceOk(s) && SpaceFrames(s) + multiset(free) == multiset(sys.free)
    ensures Good(System(free, sys.slots + [Live(s)], ram), total)
  {
    SlotNew(sys.slots, Live(s), sys.free, free);
    MoreOk(sys.slots, s);
  }

  lemma MoreOk(slots: seq<Slot>, s: Space)
    requires SlotsOk(slots) && SpaceOk(s)
    ensures SlotsOk(slots + [Live(s)])
  {
  }

  /** Every operation keeps every frame in exactly one place. */
  lemma NextKeeps(sys: System, ev: Event, total: multiset<nat>)
    requires Good(sys, total) && Next(sys, ev).Some?
    ensures Good(Next(sys, ev).value, total)
  {
    match ev
    case Make(high) => MakeKeeps(sys, high, total);
    case Alter(i, op, lo, hi) => AlterKeeps(sys, i, op, lo, hi, total);
    case Copy(i) => CopyKeeps(sys, i, total);
    case Drop(i) => DropKeeps(sys, i, total);
    case Store(_, _, _) =>
  }

  lemma MakeKeeps(sys: System, high: seq<int>, total: multiset<nat>)
    requires Good(sys, total) && Next(sys, Make(high)).Some?
    ensures Good(Next(sys, Make(high)).value, total)
  {
    CreateOk(high, sys.free);
    var r := Create(high, sys.free).value;
    MoreGood(sys, r.space, r.free, Moves(sys.ram, sys.free, r.free), total);
  }

  lemma AlterKeeps(sys: System, i: nat, op: Op, lo: nat, hi: nat, total: multiset<nat>)
    requires Good(sys, total) && Next(sys, Alter(i, op, lo, hi)).Some?
    ensures Good(Next(sys, Alter(i, op, lo, hi)).value, total)
  {
    ChangeOk(op, sys.slots[i].space, lo, hi, sys.free);
    var r := Change(op, sys.slots[i].space, lo, hi, sys.free).value;
    ChangeGood(sys, i, Live(r.space), r.free, Moves(sys.ram, sys.free, r.free), total);
  }

  lemma CopyKeeps(sys: System, i: nat, total: multiset<nat>)
    requires Good(sys, total) && Next(sys, Copy(i)).Some?
    ensures Good(Next(sys, Copy(i)).value, total)
  {
    CloneSpaceOk(sys.slots[i].space, sys.free, sys.ram);
    var r := CloneSpace(sys.slots[i].space, sys.free, sys.ram).value;
    MoreGood(sys, r.space, r.free, r.ram, total);
  }

  lemma DropKeeps(sys: System, i: nat, total: multiset<nat>)
    requires Good(sys, total) && Next(sys, Drop(i)).Some?
    ensures Good(Next(sys, Drop(i)).value, total)
  {
    DestroyFrees(sys.slots[i].space, sys.free);
    var free := Destroy(sys.slots[i].space, sys.free).value;
    ChangeGood(sys, i, Gone, free, Moves(sys.ram, sys.free, free), total);
  }

  datatype Events = Finished | Then(first: Event, rest: Events)

  function Run(sys: System, evs: Events): Option<System>
    decreases evs
  {
    match evs
    case Finished => Some(sys)
    case Then(ev, rest) => match Next(sys, ev) case None => None case Some(sys') => Run(sys', rest)
  }

  lemma {:induction false} RunKeeps(sys: System, evs: Events, total: multiset<nat>)
    requires Good(sys, total) && Run(sys, evs).Some?
    ensures Good(Run(sys, evs).value, total)
    decreases evs
  {
    if evs.Then? {
      NextKeeps(sys, evs.first, total);
      RunKeeps(Next(sys, evs.first).value, evs.rest, total);
    }
  }

  /** Once every space of a run is destroyed, exactly the frames that were free at its start are free again. */
  lemma AllReturned(free: seq<nat>, ram: Ram, evs: Events)
    requires Once(multiset(free)) && Run(System(free, [], ram), evs).Some?
    requires forall i | 0 <= i < |Run(System(free, [], ram), evs).value.slots| :: Run(System(free, [], ram), evs).value.slots[i].Gone?
    ensures multiset(Run(System(free, [], ram), evs).value.free) == multiset(free)
  {
    RunKeeps(System(free, [], ram), evs, multiset(free));
    var sys := Run(System(free, [], ram), evs).value;
    NoSlots(sys.slots, |sys.slots|);
  }

  lemma {:induction false} NoSlots(slots: seq<Slot>, n: nat)
    requires n <= |slots| && forall i | 0 <= i < |slots| :: slots[i].Gone?
    ensures AllSlots(slots, n) == multiset{}
    decreases n
  {
    if n > 0 { NoSlots(slots, n - 1); }
  }
}
