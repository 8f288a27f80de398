/** The rights the processor finds: those that every entry on the way to a page grants. */
module PageRights {
  import opened Wrappers
  import opened PageTree
  import opened PageOps
  import opened PageFrames
  import opened PageSpaces
  import opened PageClone
  import opened PageWalk
  import opened PageMemory

  datatype Rights = Rights(user: bool, write: bool, exec: bool)

  /** The walk for an address, from the table in `frame` down; each level can only take rights away. */
  function WalkRights(mem: Tables, frame: nat, depth: nat, address: nat): Option<Rights>
    decreases depth
  {
    if depth == 0 || frame !in mem || TableIndex(depth, address) >= |mem[frame]| then None
    else
      match mem[frame][TableIndex(depth, address)]
      case Zero => None
      case Present(f, flags) =>
        if depth == 1 then Some(Rights(flags.user, flags.write, flags.exec))
        else
          match WalkRights(mem, f, depth - 1, address)
          case None => None
          case Some(r) => Some(Rights(flags.user && r.user, flags.write && r.write, flags.exec && r.exec))
  }

  /** The rights of a page by its own flags. */
  function RightsOf(t: Tree): Option<Rights> {
    match t
    case Page(_, flags) => Some(Rights(flags.user, flags.write, flags.exec))
    case _ => None
  }

  lemma {:induction false} RightsBelow(mem: Tables, frame: nat, d: nat, w: nat, kids: seq<Tree>, address: nat)
    requires frame in mem && |mem[frame]| == FANOUT && TableIndex(d + 1, address) < w <= FANOUT
    requires kids == Kids(mem, frame, d, w) && forall k | 0 <= k < w :: Shaped(kids[k], d)
    ensures 0 <= Rest(d, address / PAGE_SIZE)
    ensures WalkRights(mem, frame, d + 1, address) == RightsOf(Lookup(kids[TableIndex(d + 1, address)], d, Rest(d, address / PAGE_SIZE)))
    decreases d
  {
    var i, p := TableIndex(d + 1, address), address / PAGE_SIZE;
    var e := kids[i];
    RestFits(d, p);
    assert Shaped(e, d);
    assert e == TreeAt(mem, mem[frame][i], d);
    if d > 0 && e.Table? {
      LookupStep(e, d - 1, p);
      RightsBelow(mem, e.frame, d - 1, FANOUT, e.kids, address);
    }
  }

  /** In a well-formed table the rights of an address are those of its page's own entry. */
  lemma RightsExact(mem: Tables, top: nat, d: nat, w: nat, address: nat)
    requires top in mem && |mem[top]| == FANOUT && w <= FANOUT && |Kids(mem, top, d, w)| == w && TableIndex(d + 1, address) < w
    requires forall k | 0 <= k < w :: Shaped(Kids(mem, top, d, w)[k], d)
    ensures WalkRights(mem, top, d + 1, address) == RightsOf(LookupKids(Kids(mem, top, d, w), d, address / PAGE_SIZE % Size(d + 1)))
  {
    var p := address / PAGE_SIZE;
    RightsBelow(mem, top, d, w, Kids(mem, top, d, w), address);
    RestFits(d, p);
    RestMod(d + 1, p);
    RestIndex(d, p);
    RestRest(d, p);
  }

  /** A user page is its own place in the top-level table. */
  lemma UserPage(d: nat, address: nat)
    requires d == LEVELS - 1 && address / PAGE_SIZE < LowPages()
    ensures TableIndex(d + 1, address) < HALF && address / PAGE_SIZE % Size(d + 1) == address / PAGE_SIZE
  {
    var p := address / PAGE_SIZE;
    ShrExactly(d, p, Shr(d, p));
    if Shr(d, p) >= HALF { ShlMono(d, HALF, Shr(d, p)); }
    ShlMono(d, HALF, FANOUT);
    ShlOne(d + 1);
  }

  /** Every table entry of a well-formed table grants all rights: in its bits it is present, writable and the user's, and no more. */
  lemma TablesGrant(mem: Tables, frame: nat, d: nat, w: nat, i: nat)
    requires frame in mem && |mem[frame]| == FANOUT && w <= FANOUT && |Kids(mem, frame, d, w)| == w
    requires (forall k | 0 <= k < w :: Shaped(Kids(mem, frame, d, w)[k], d)) && d > 0 && i < w && mem[frame][i].Present?
    ensures var e := mem[frame][i];
            e.flags.user && e.flags.write && e.flags.exec && EntryBits(e.frame, e.flags) == 7 + e.frame * PAGE_SIZE
  {
    assert Shaped(Kids(mem, frame, d, w)[i], d);
    assert Kids(mem, frame, d, w)[i] == TreeAt(mem, mem[frame][i], d);
  }

  /** The page an address of the user half folds to is a user page. */
  lemma FoldedPage(d: nat, address: nat)
    requires d == LEVELS - 1 && TableIndex(d + 1, address) < HALF
    ensures address / PAGE_SIZE % Size(d + 1) < LowPages()
  {
    var p := address / PAGE_SIZE;
    RestMod(d + 1, p);
    RestIndex(d, p);
    var q := Rest(d + 1, p);
    ShrExactly(d, q, Shr(d, q));
    ShlMono(d, Shr(d, q) + 1, HALF);
  }

  /** The tables of a user half are well formed. */
  ghost predicate HalfOk(mem: Tables, top: nat, d: nat) {
    && top in mem && |mem[top]| == FANOUT && |Kids(mem, top, d, HALF)| == HALF
    && forall k | 0 <= k < HALF :: Shaped(Kids(mem, top, d, HALF)[k], d)
  }

  lemma UserRights(mem: Tables, top: nat, d: nat, address: nat)
    requires d == LEVELS - 1 && HalfOk(mem, top, d) && address / PAGE_SIZE < LowPages()
    ensures WalkRights(mem, top, d + 1, address) == RightsOf(LookupKids(Kids(mem, top, d, HALF), d, address / PAGE_SIZE))
  {
    UserPage(d, address);
    RightsExact(mem, top, d, HALF, address);
  }

  /** Every address of the pages `vbegin` to `vend` has the rights of `flags`. */
  ghost predicate Grants(mem: Tables, top: nat, depth: nat, vbegin: nat, vend: nat, flags: Flags) {
    forall address: nat | vbegin <= address / PAGE_SIZE < vend ::
      WalkRights(mem, top, depth, address) == Some(Rights(flags.user, flags.write, flags.exec))
  }

  /** No address of the pages `vbegin` to `vend` is mapped. */
  ghost predicate GrantsNone(mem: Tables, top: nat, depth: nat, vbegin: nat, vend: nat) {
    forall address: nat | vbegin <= address / PAGE_SIZE < vend :: WalkRights(mem, top, depth, address) == None
  }

  /** Every other user address has the rights it had. */
  ghost predicate RightsKept(mem: Tables, mem': Tables, top: nat, depth: nat, vbegin: nat, vend: nat) {
    forall address: nat | address / PAGE_SIZE < LowPages() && !(vbegin <= address / PAGE_SIZE < vend) ::
      WalkRights(mem', top, depth, address) == WalkRights(mem, top, depth, address)
  }

  /** What an operation on a range of pages does to the rights. */
  ghost predicate RightsAfter(op: Op, mem: Tables, mem': Tables, top: nat, depth: nat, vbegin: nat, vend: nat) {
    && (match op
        case Assign(flags) => Grants(mem', top, depth, vbegin, vend, flags)
        case Clear => GrantsNone(mem', top, depth, vbegin, vend)
        case Edit(flags) => Grants(mem', top, depth, vbegin, vend, flags))
    && RightsKept(mem, mem', top, depth, vbegin, vend)
  }

  /** What an operation makes of the rights of one address. */
  predicate Turns(op: Op, inside: bool, before: Option<Rights>, after: Option<Rights>) {
    if !inside then after == before
    else match op
         case Assign(flags) => after == Some(Rights(flags.user, flags.write, flags.exec))
         case Clear => after == None
         case Edit(flags) => after == Some(Rights(flags.user, flags.write, flags.exec))
  }

  lemma RightsTurn(op: Op, mem: Tables, mem': Tables, top: nat, d: nat, vbegin: nat, vend: nat, address: nat)
    requires d == LEVELS - 1 && HalfOk(mem, top, d) && HalfOk(mem', top, d) && address / PAGE_SIZE < LowPages()
    requires var p := address / PAGE_SIZE;
             Updated(op, vbegin <= p < vend, LookupKids(Kids(mem, top, d, HALF), d, p), LookupKids(Kids(mem', top, d, HALF), d, p))
    ensures Turns(op, vbegin <= address / PAGE_SIZE < vend, WalkRights(mem, top, d + 1, address), WalkRights(mem', top, d + 1, address))
  {
    UserRights(mem, top, d, address);
    UserRights(mem', top, d, address);
  }

  lemma RightsFollow(op: Op, mem: Tables, mem': Tables, top: nat, d: nat, vbegin: nat, vend: nat)
    requires d == LEVELS - 1 && HalfOk(mem, top, d) && HalfOk(mem', top, d) && vend <= LowPages()
    requires forall p: nat :: Updated(op, vbegin <= p < vend, LookupKids(Kids(mem, top, d, HALF), d, p), LookupKids(Kids(mem', top, d, HALF), d, p))
    ensures RightsAfter(op, mem, mem', top, d + 1, vbegin, vend)
  {
    forall address: nat | address / PAGE_SIZE < LowPages()
      ensures Turns(op, vbegin <= address / PAGE_SIZE < vend, WalkRights(mem, top, d + 1, address), WalkRights(mem', top, d + 1, address))
    {
      RightsTurn(op, mem, mem', top, d, vbegin, vend, address);
    }
  }

  /** The pages a change of a user half updates. */
  lemma HalfUpdated(op: Op, kids: seq<Tree>, d: nat, lo: nat, hi: nat, free: seq<nat>)
    requires d == LEVELS - 1 && |kids| == HALF && (forall k | 0 <= k < |kids| :: Shaped(kids[k], d)) && lo < hi <= LowPages()
    requires ApplyKids(op, kids, d, First(d, lo), Last(d, hi), lo, hi, free).Some?
    ensures var kids' := ApplyKids(op, kids, d, First(d, lo), Last(d, hi), lo, hi, free).value.kids;
            forall p: nat :: Updated(op, lo <= p < hi, LookupKids(kids, d, p), LookupKids(kids', d, p))
  {
    HalfFits(hi);
    var kids' := ApplyKids(op, kids, d, First(d, lo), Last(d, hi), lo, hi, free).value.kids;
    forall p: nat ensures Updated(op, lo <= p < hi, LookupKids(kids, d, p), LookupKids(kids', d, p)) {
      ApplyKidsLooks(op, kids, d, First(d, lo), Last(d, hi), lo, hi, free, p);
      if lo <= p < hi { InRangeTouched(d, lo, hi, p); }
    }
  }

  /** A half with the same pages and flags as another has the same rights. */
  ghost predicate SameRights(mem: Tables, top: nat, mem': Tables, top': nat, depth: nat) {
    forall address: nat | address / PAGE_SIZE < LowPages() ::
      WalkRights(mem', top', depth, address) == WalkRights(mem, top, depth, address)
  }

  lemma RightsCloned(mem: Tables, top: nat, ram: Ram, mem': Tables, top': nat, ram': Ram, d: nat)
    requires d == LEVELS - 1 && HalfOk(mem, top, d) && HalfOk(mem', top', d)
    requires forall p: nat :: SameContents(LookupKids(Kids(mem, top, d, HALF), d, p), ram, LookupKids(Kids(mem', top', d, HALF), d, p), ram')
    ensures SameRights(mem, top, mem', top', d + 1)
  {
    forall address: nat | address / PAGE_SIZE < LowPages()
      ensures WalkRights(mem', top', d + 1, address) == WalkRights(mem, top, d + 1, address)
    {
      UserRights(mem, top, d, address);
      UserRights(mem', top', d, address);
      assert SameContents(LookupKids(Kids(mem, top, d, HALF), d, address / PAGE_SIZE), ram,
                          LookupKids(Kids(mem', top', d, HALF), d, address / PAGE_SIZE), ram');
    }
  }

  /** In a half without entries nothing is mapped. */
  lemma NoRights(mem: Tables, top: nat, d: nat)
    requires d == LEVELS - 1 && HalfOk(mem, top, d) && AllAbsent(Kids(mem, top, d, HALF))
    ensures GrantsNone(mem, top, d + 1, 0, LowPages())
  {
    forall address: nat | address / PAGE_SIZE < LowPages() ensures WalkRights(mem, top, d + 1, address) == None {
      UserRights(mem, top, d, address);
      RestFits(d, address / PAGE_SIZE);
    }
  }

  /** One page mapped. */
  lemma RightsPointed(mem: Tables, mem': Tables, top: nat, d: nat, p: nat, target: nat, flags: Flags)
    requires d == LEVELS - 1 && HalfOk(mem, top, d) && HalfOk(mem', top, d) && p < LowPages()
    requires LookupKids(Kids(mem, top, d, HALF), d, p) == Absent
    requires forall q: nat :: LookupKids(Kids(mem', top, d, HALF), d, q) == if q == p then Page(target, flags) else LookupKids(Kids(mem, top, d, HALF), d, q)
    ensures RightsAfter(Assign(flags), mem, mem', top, d + 1, p, p + 1)
  {
    RightsFollow(Assign(flags), mem, mem', top, d, p, p + 1);
  }
}
