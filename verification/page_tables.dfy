/** The kernel's page-table code over memory and the frame allocator, as it updates them in place. */
module PageTables {
  import opened Wrappers
  import opened PageTree
  import opened PageOps
  import opened PageFrames
  import opened PageWalk
  import opened PageMemory
  import opened PageSpaces
  import opened PageClone
  import opened PageCopies
  import opened PagePoints
  import opened PageRights

  /** Rounding a page number to a multiple of the size of an entry. */
  function RoundDown(d: nat, p: nat): nat { Shl(d, Shr(d, p)) }

  function RoundUp(d: nat, p: nat): nat { RoundDown(d, p + Size(d) - 1) }

  /** The node of depth `depth` numbered `b` covers the range. */
  predicate Covers(depth: nat, b: nat, vbegin: nat, vend: nat) {
    Shl(depth, b) <= vbegin < vend <= Shl(depth, b) + Size(depth)
  }

  /** The loop bounds the code computes from addresses are those of the range within the node. */
  lemma Bounds(d: nat, b: nat, vbegin: nat, vend: nat)
    requires Covers(d + 1, b, vbegin, vend)
    ensures RoundDown(d + 1, vbegin) == Shl(d + 1, b)
    ensures var lo, hi := vbegin - Shl(d + 1, b), vend - Shl(d + 1, b);
            && RoundDown(d, vbegin) >= Shl(d + 1, b) && RoundUp(d, vend) >= Shl(d + 1, b)
            && Shr(d, RoundDown(d, vbegin) - Shl(d + 1, b)) == First(d, lo)
            && Shr(d, RoundUp(d, vend) - Shl(d + 1, b)) == Last(d, hi)
  {
    var base := FANOUT * b;
    ShlSize(d + 1, b);
    ShrExactly(d + 1, vbegin, b);
    Rebase(d, vbegin, base);
    Rebase(d, vend + Size(d) - 1, base);
  }

  lemma Rebase(d: nat, p: nat, base: nat)
    requires Shl(d, base) <= p
    ensures RoundDown(d, p) >= Shl(d, base) && Shr(d, RoundDown(d, p) - Shl(d, base)) == Shr(d, p - Shl(d, base))
  {
    ShlSize(d, base);
    ShrShl(d, p, base);
    ShlMono(d, base, Shr(d, p));
    var q := Shr(d, p) - base;
    ShlAdd(d, q, base);
    ShlSize(d, q);
    ShrExactly(d, Shl(d, q), q);
  }

  /** The part of the range an entry gets, and the node below it that covers that part. */
  lemma Part(d: nat, b: nat, i: nat, vbegin: nat, vend: nat)
    requires Covers(d + 1, b, vbegin, vend)
    requires First(d, vbegin - Shl(d + 1, b)) <= i < Last(d, vend - Shl(d + 1, b))
    ensures var base, b' := Shl(d + 1, b), FANOUT * b + i;
            var vbegin', vend' := Max(Shl(d, i) + base, vbegin), Min(Shl(d, i + 1) + base, vend);
            && Covers(d, b', vbegin', vend') && Shl(d, b') == base + Shl(d, i) && i < FANOUT
            && vbegin' - Shl(d, b') == Lo(d, i, vbegin - base) && vend' - Shl(d, b') == Hi(d, i, vend - base)
  {
    var base := Shl(d + 1, b);
    TouchedExactly(d, vbegin - base, vend - base, i);
    LastFits(d, vend - base);
    ShlAdd(d, FANOUT * b, i);
    ShlSize(d, i);
  }

  class Mmu {
    var tables: Tables
    var free: seq<nat>
    var ram: Ram               // what the pages hold that cloning copies

    /** Taking a page off the free list and zeroing it. */
    method AllocPage() returns (f: nat)
      requires free != []
      modifies this`tables, this`free
      ensures f == old(free)[0] && free == old(free)[1..] && tables == old(tables)[f := Zeros()]
    {
      f := free[0];
      free := free[1..];
      tables := tables[f := Zeros()];
    }

    /** Putting a page back at the head of the free list; what it held is lost. */
    method FreePage(f: nat)
      modifies this`tables, this`free
      ensures free == [f] + old(free) && tables == old(tables) - {f}
    {
      free := [f] + free;
      tables := tables - {f};
    }

    /** The first page the table covers, and the entries of a range. */
    static method Entries(depth: nat, vbegin: nat, vend: nat, ghost b: nat) returns (base: nat, ibegin: nat, iend: nat)
      requires depth >= 1 && Covers(depth, b, vbegin, vend)
      ensures base == Shl(depth, b) && ibegin == First(depth - 1, vbegin - base) && iend == Last(depth - 1, vend - base) <= FANOUT
    {
      Bounds(depth - 1, b, vbegin, vend);
      LastFits(depth - 1, vend - Shl(depth, b));
      base := RoundDown(depth, vbegin);
      ibegin := Shr(depth - 1, RoundDown(depth - 1, vbegin) - base);
      iend := Shr(depth - 1, RoundUp(depth - 1, vend) - base);
    }

    /** The part of a range that entry `i` gets. */
    static method SubRange(depth: nat, base: nat, i: nat, vbegin: nat, vend: nat, ghost b: nat) returns (nextBegin: nat, nextEnd: nat)
      requires depth >= 1 && Covers(depth, b, vbegin, vend) && base == Shl(depth, b)
      requires First(depth - 1, vbegin - base) <= i < Last(depth - 1, vend - base)
      ensures Covers(depth - 1, FANOUT * b + i, nextBegin, nextEnd)
      ensures nextBegin - Shl(depth - 1, FANOUT * b + i) == Lo(depth - 1, i, vbegin - base)
      ensures nextEnd - Shl(depth - 1, FANOUT * b + i) == Hi(depth - 1, i, vend - base)
    {
      Part(depth - 1, b, i, vbegin, vend);
      nextBegin, nextEnd := Max(Shl(depth - 1, i) + base, vbegin), Min(Shl(depth - 1, i + 1) + base, vend);
    }

    /** Allocating pages `vbegin` to `vend` below the table in `frame`.  `ok` is false on a panic. */
    method Assign(frame: nat, depth: nat, ghost w: nat, vbegin: nat, vend: nat, flags: Flags, ghost b: nat) returns (ok: bool)
      requires depth >= 1 && Covers(depth, b, vbegin, vend) && Last(depth - 1, vend - Shl(depth, b)) <= w
      requires w <= FANOUT && NodeOk(tables, frame, depth - 1, w, free)
      modifies this
      ensures var d, lo, hi := depth - 1, vbegin - Shl(depth, b), vend - Shl(depth, b);
              Did(PageOps.Assign(flags), old(tables), tables, old(free), free, frame, d, w, First(d, lo), Last(d, hi), lo, hi, ok)
      decreases depth, 1
    {
      ghost var op, d, lo, hi := PageOps.Assign(flags), depth - 1, vbegin - Shl(depth, b), vend - Shl(depth, b);
      var base, ibegin, iend := Entries(depth, vbegin, vend, b);
      ghost var mem0, free0 := tables, free;
      var i := ibegin;
      while i < iend
        invariant i >= ibegin && w <= FANOUT && NodeOk(tables, frame, d, w, free)
        invariant Going(op, mem0, tables, free0, free, frame, d, w, ibegin, i, iend, lo, hi)
      {
        ghost var mem1, free1 := tables, free;
        var nextBegin, nextEnd := SubRange(depth, base, i, vbegin, vend, b);
        ok := AssignEntry(frame, depth, w, i, nextBegin, nextEnd, flags, FANOUT * b + i);
        LoopStep(op, mem0, mem1, tables, free0, free1, free, frame, d, w, ibegin, i, iend, lo, hi, ok);
        if !ok { return false; }
        i := i + 1;
      }
      LoopEnds(op, mem0, tables, free0, free, frame, d, w, ibegin, i, iend, lo, hi);
      ok := true;
    }

    /** One round of `Assign`: entry `i`, creating the table or the page it leads to. */
    method AssignEntry(frame: nat, depth: nat, ghost w: nat, i: nat, vbegin: nat, vend: nat, flags: Flags, ghost b: nat) returns (ok: bool)
      requires depth >= 1 && Covers(depth - 1, b, vbegin, vend) && w <= FANOUT && NodeOk(tables, frame, depth - 1, w, free) && i < w
      modifies this
      ensures var d := depth - 1;
              DidEntry(PageOps.Assign(flags), old(tables), tables, old(free), free, frame, d, w, i,
                       vbegin - Shl(d, b), vend - Shl(d, b), ok)
      decreases depth, 0
    {
      if depth == 1 {
        ok := AssignPage(frame, depth - 1, w, i, flags, vbegin - Shl(depth - 1, b), vend - Shl(depth - 1, b));
      } else {
        ok := AssignBelow(frame, depth, w, i, vbegin, vend, flags, b);
      }
    }

    method AssignBelow(frame: nat, depth: nat, ghost w: nat, i: nat, vbegin: nat, vend: nat, flags: Flags, ghost b: nat) returns (ok: bool)
      requires depth > 1 && Covers(depth - 1, b, vbegin, vend) && w <= FANOUT && NodeOk(tables, frame, depth - 1, w, free) && i < w
      modifies this
      ensures var d := depth - 1;
              DidEntry(PageOps.Assign(flags), old(tables), tables, old(free), free, frame, d, w, i,
                       vbegin - Shl(d, b), vend - Shl(d, b), ok)
      decreases depth - 1, 4
    {
      ghost var op, d, mem, free0 := PageOps.Assign(flags), depth - 1, tables, free;
      if tables[frame][i].Zero? && free == [] {
        EntryStops(op, mem, frame, d, w, i, vbegin - Shl(d, b), vend - Shl(d, b), free);
        return false;
      }
      var next := Descend(frame, depth - 1, w, i, flags);
      ghost var mem1, free1 := tables, free;
      LastFits(depth - 2, vend - Shl(depth - 1, b));
      ok := Assign(next, depth - 1, FANOUT, vbegin, vend, flags, b);
      EntryDone(op, mem, mem1, tables, frame, d, w, i, vbegin - Shl(d, b), vend - Shl(d, b), free0, next, free1, free, ok);
    }

    /** The table entry `i` leads to, created if there is none. */
    method Descend(frame: nat, d: nat, ghost w: nat, i: nat, ghost flags: Flags) returns (next: nat)
      requires d >= 1 && w <= FANOUT && NodeOk(tables, frame, d, w, free) && i < w && (tables[frame][i].Zero? ==> free != [])
      modifies this
      ensures Leads(PageOps.Assign(flags), old(tables), tables, frame, d, w, i, old(free), next, free)
      ensures NodeOk(tables, next, d - 1, FANOUT, free)
    {
      ghost var mem, free0 := tables, free;
      if tables[frame][i].Zero? {
        FreeApart(mem, frame, d, w, i, free);
        next := AllocPage();
        tables := tables[frame := tables[frame][i := Present(next, INTERMEDIATE)]];
        NewOk(mem, tables, frame, d, w, i, free0);
      } else {
        next := tables[frame][i].frame;
        PresentOk(mem, frame, d, w, i, free0);
      }
    }

    method AssignPage(frame: nat, ghost d: nat, ghost w: nat, i: nat, flags: Flags, ghost lo: nat, ghost hi: nat) returns (ok: bool)
      requires d == 0 && w <= FANOUT && NodeOk(tables, frame, d, w, free) && i < w
      modifies this
      ensures DidEntry(PageOps.Assign(flags), old(tables), tables, old(free), free, frame, d, w, i, lo, hi, ok)
    {
      if free == [] || tables[frame][i].Present? { return false; }
      FreeApart(tables, frame, d, w, i, free);
      PageAssigned(tables, frame, d, w, i, flags, free, lo, hi);
      var page := AllocPage();
      tables := tables[frame := tables[frame][i := Present(page, flags)]];
      ok := true;
    }

    // -------------------------------------------------------------- clear

    /** Freeing the pages `vbegin` to `vend` below the table in `frame`; tells whether the table is left without entries. */
    method ClearRange(frame: nat, depth: nat, w: nat, vbegin: nat, vend: nat, ghost b: nat) returns (empty: bool)
      requires depth >= 1 && Covers(depth, b, vbegin, vend) && Last(depth - 1, vend - Shl(depth, b)) <= w
      requires w <= FANOUT && NodeOk(tables, frame, depth - 1, w, free)
      modifies this
      ensures var d, lo, hi := depth - 1, vbegin - Shl(depth, b), vend - Shl(depth, b);
              Did(Clear, old(tables), tables, old(free), free, frame, d, w, First(d, lo), Last(d, hi), lo, hi, true)
      ensures empty == AllAbsent(Kids(tables, frame, depth - 1, w))
      decreases depth, 3
    {
      ClearLoop(frame, depth, w, vbegin, vend, b);
      empty := IsEmpty(frame, depth - 1, w);
    }

    method ClearLoop(frame: nat, depth: nat, ghost w: nat, vbegin: nat, vend: nat, ghost b: nat)
      requires depth >= 1 && Covers(depth, b, vbegin, vend) && Last(depth - 1, vend - Shl(depth, b)) <= w
      requires w <= FANOUT && NodeOk(tables, frame, depth - 1, w, free)
      modifies this
      ensures var d, lo, hi := depth - 1, vbegin - Shl(depth, b), vend - Shl(depth, b);
              Did(Clear, old(tables), tables, old(free), free, frame, d, w, First(d, lo), Last(d, hi), lo, hi, true)
      decreases depth, 1
    {
      ghost var d, lo, hi := depth - 1, vbegin - Shl(depth, b), vend - Shl(depth, b);
      var base, ibegin, iend := Entries(depth, vbegin, vend, b);
      ghost var mem0, free0 := tables, free;
      var i := ibegin;
      while i < iend
        invariant i >= ibegin && NodeOk(tables, frame, d, w, free)
        invariant Going(Clear, mem0, tables, free0, free, frame, d, w, ibegin, i, iend, lo, hi)
      {
        ghost var mem1, free1 := tables, free;
        var nextBegin, nextEnd := SubRange(depth, base, i, vbegin, vend, b);
        ClearEntry(frame, depth, w, i, nextBegin, nextEnd, FANOUT * b + i);
        LoopStep(Clear, mem0, mem1, tables, free0, free1, free, frame, d, w, ibegin, i, iend, lo, hi, true);
        i := i + 1;
      }
      LoopEnds(Clear, mem0, tables, free0, free, frame, d, w, ibegin, i, iend, lo, hi);
    }

    /** Looking for a present entry. */
    method IsEmpty(frame: nat, ghost d: nat, w: nat) returns (empty: bool)
      requires frame in tables && w <= |tables[frame]| == FANOUT
      ensures empty == AllAbsent(Kids(tables, frame, d, w))
    {
      var i := 0;
      while i < w
        invariant i <= w && forall k | 0 <= k < i :: tables[frame][k].Zero?
      {
        if tables[frame][i].Present? {
          assert Kids(tables, frame, d, w)[i] == TreeAt(tables, tables[frame][i], d);
          return false;
        }
        i := i + 1;
      }
      empty := true;
    }

    /** One round of `ClearRange`. */
    method ClearEntry(frame: nat, depth: nat, ghost w: nat, i: nat, vbegin: nat, vend: nat, ghost b: nat)
      requires depth >= 1 && Covers(depth - 1, b, vbegin, vend) && w <= FANOUT && NodeOk(tables, frame, depth - 1, w, free) && i < w
      modifies this
      ensures var d := depth - 1;
              DidEntry(Clear, old(tables), tables, old(free), free, frame, d, w, i, vbegin - Shl(d, b), vend - Shl(d, b), true)
      decreases depth, 0
    {
      if tables[frame][i].Zero? {
        EntrySkipped(tables, frame, depth - 1, w, i, vbegin - Shl(depth - 1, b), vend - Shl(depth - 1, b), free);
      } else if depth == 1 {
        ClearPage(frame, depth - 1, w, i, vbegin - Shl(depth - 1, b), vend - Shl(depth - 1, b));
      } else {
        ClearBelow(frame, depth, w, i, vbegin, vend, b);
      }
    }

    method ClearBelow(frame: nat, depth: nat, ghost w: nat, i: nat, vbegin: nat, vend: nat, ghost b: nat)
      requires depth > 1 && Covers(depth - 1, b, vbegin, vend) && w <= FANOUT && NodeOk(tables, frame, depth - 1, w, free)
      requires i < w && tables[frame][i].Present?
      modifies this
      ensures var d := depth - 1;
              DidEntry(Clear, old(tables), tables, old(free), free, frame, d, w, i, vbegin - Shl(d, b), vend - Shl(d, b), true)
      decreases depth - 1, 4
    {
      ghost var d, mem, free0, lo, hi := depth - 1, tables, free, vbegin - Shl(depth - 1, b), vend - Shl(depth - 1, b);
      var target := tables[frame][i].frame;
      PresentLeads(Clear, mem, frame, d, w, i, free);
      LastFits(depth - 2, vend - Shl(depth - 1, b));
      var empty := ClearRange(target, depth - 1, FANOUT, vbegin, vend, b);
      ghost var mem2, free2 := tables, free;
      BelowDone(Clear, mem, mem, mem2, frame, d, w, i, lo, hi, free0, target, free0, free2);
      if empty {
        FreePage(target);
        tables := tables[frame := tables[frame][i := Zero]];
        EntryFreed(mem, mem2, tables, frame, d, w, i, lo, hi, free0, target, free2);
      } else {
        EntryKept(mem, mem2, frame, d, w, i, lo, hi, free0, target, free2);
      }
    }

    method ClearPage(frame: nat, ghost d: nat, ghost w: nat, i: nat, ghost lo: nat, ghost hi: nat)
      requires d == 0 && w <= FANOUT && NodeOk(tables, frame, d, w, free) && i < w && tables[frame][i].Present?
      modifies this
      ensures DidEntry(Clear, old(tables), tables, old(free), free, frame, d, w, i, lo, hi, true)
    {
      var target := tables[frame][i].frame;
      PageCleared(tables, frame, d, w, i, free, lo, hi);
      FreePage(target);
      tables := tables[frame := tables[frame][i := Zero]];
    }

    // -------------------------------------------------------------- edit

    /** Changing the flags of the pages `vbegin` to `vend` below the table in `frame`.  `ok` is false on a panic. */
    method EditRange(frame: nat, depth: nat, ghost w: nat, vbegin: nat, vend: nat, flags: Flags, ghost b: nat) returns (ok: bool)
      requires depth >= 1 && Covers(depth, b, vbegin, vend) && Last(depth - 1, vend - Shl(depth, b)) <= w
      requires w <= FANOUT && NodeOk(tables, frame, depth - 1, w, free)
      modifies this
      ensures var d, lo, hi := depth - 1, vbegin - Shl(depth, b), vend - Shl(depth, b);
              Did(Edit(flags), old(tables), tables, old(free), free, frame, d, w, First(d, lo), Last(d, hi), lo, hi, ok)
      decreases depth, 1
    {
      ghost var op, d, lo, hi := Edit(flags), depth - 1, vbegin - Shl(depth, b), vend - Shl(depth, b);
      var base, ibegin, iend := Entries(depth, vbegin, vend, b);
      ghost var mem0, free0 := tables, free;
      var i := ibegin;
      while i < iend
        invariant i >= ibegin && NodeOk(tables, frame, d, w, free)
        invariant Going(op, mem0, tables, free0, free, frame, d, w, ibegin, i, iend, lo, hi)
      {
        ghost var mem1, free1 := tables, free;
        var nextBegin, nextEnd := SubRange(depth, base, i, vbegin, vend, b);
        ok := EditEntry(frame, depth, w, i, nextBegin, nextEnd, flags, FANOUT * b + i);
        LoopStep(op, mem0, mem1, tables, free0, free1, free, frame, d, w, ibegin, i, iend, lo, hi, ok);
        if !ok { return false; }
        i := i + 1;
      }
      LoopEnds(op, mem0, tables, free0, free, frame, d, w, ibegin, i, iend, lo, hi);
      ok := true;
    }

    /** One round of `EditRange`. */
    method EditEntry(frame: nat, depth: nat, ghost w: nat, i: nat, vbegin: nat, vend: nat, flags: Flags, ghost b: nat) returns (ok: bool)
      requires depth >= 1 && Covers(depth - 1, b, vbegin, vend) && w <= FANOUT && NodeOk(tables, frame, depth - 1, w, free) && i < w
      modifies this
      ensures var d := depth - 1;
              DidEntry(Edit(flags), old(tables), tables, old(free), free, frame, d, w, i,
                       vbegin - Shl(d, b), vend - Shl(d, b), ok)
      decreases depth, 0
    {
      ghost var op, d, mem, free0, lo, hi := Edit(flags), depth - 1, tables, free, vbegin - Shl(depth - 1, b), vend - Shl(depth - 1, b);
      if tables[frame][i].Zero? {
        EditStops(flags, mem, frame, d, w, i, lo, hi, free);
        return false;
      }
      var target := tables[frame][i].frame;
      if depth > 1 {
        PresentLeads(op, mem, frame, d, w, i, free);
        LastFits(depth - 2, vend - Shl(depth - 1, b));
        ok := EditRange(target, depth - 1, FANOUT, vbegin, vend, flags, b);
        EntryDone(op, mem, mem, tables, frame, d, w, i, lo, hi, free0, target, free0, free, ok);
      } else {
        PageEdited(mem, frame, d, w, i, flags, free, lo, hi);
        tables := tables[frame := tables[frame][i := Present(target, flags)]];
        ok := true;
      }
    }

    // -------------------------------------------------------------- one page

    /** Mapping the page of an address to frame `target`, from the table in `frame` down.  `ok` is false on a panic. */
    method PointBelow(frame: nat, depth: nat, ghost w: nat, address: nat, target: nat, flags: Flags) returns (ok: bool)
      requires 1 <= depth <= LEVELS && w <= FANOUT && NodeOk(tables, frame, depth - 1, w, free) && TableIndex(depth, address) < w
      modifies this
      ensures Rest(depth, address / PAGE_SIZE) >= 0
      ensures Pointed(old(tables), tables, old(free), free, frame, depth - 1, w, Rest(depth, address / PAGE_SIZE), target, flags, ok)
      decreases depth
    {
      ghost var d, page := depth - 1, address / PAGE_SIZE;
      RestIndex(d, page);
      RestRest(d, page);
      ghost var p, mem, free0 := Rest(depth, page), tables, free;
      var i := TableIndex(depth, address);
      if depth == 1 {
        PagePointed(tables, frame, w, i, p, target, flags, free);
        if tables[frame][i].Present? { return false; }
        tables := tables[frame := tables[frame][i := Present(target, flags)]];
        return true;
      }
      if tables[frame][i].Zero? && free == [] {
        PointStops(tables, frame, d, w, i, p, target, flags);
        return false;
      }
      var next := Descend(frame, depth - 1, w, i, flags);
      ghost var mem1, free1 := tables, free;
      ok := PointBelow(next, depth - 1, FANOUT, address, target, flags);
      PointDone(mem, mem1, tables, frame, d, w, i, p, Rest(d, page), target, flags, free0, next, free1, free, ok);
    }

    // -------------------------------------------------------------- clone

    /** Copying the entries of the table in `from` to that in `to`, which is empty, with all below them.  `ok` is false on a panic. */
    method Clone(from: nat, to: nat, depth: nat, ghost w: nat) returns (ok: bool)
      requires 1 <= depth <= LEVELS && w == (if depth == LEVELS then HALF else FANOUT) && Source(tables, from, depth - 1, w, to, free)
      requires NodeOk(tables, to, depth - 1, w, free) && AllAbsent(Kids(tables, to, depth - 1, w))
      modifies this
      ensures Cloned(old(tables), tables, old(free), free, old(ram), ram, from, to, depth - 1, w, ok)
      ensures ok ==> NodeOk(tables, to, depth - 1, w, free)
      decreases depth, 1
    {
      ghost var d, mem0, free0, ram0 := depth - 1, tables, free, ram;
      CloneStarts(tables, free, ram, from, to, d, w);
      var iend := if depth == LEVELS then HALF else FANOUT;
      var i := 0;
      while i < iend
        invariant i <= iend && NodeOk(tables, to, d, w, free) && Source(tables, from, d, w, to, free)
        invariant Kids(tables, from, d, w) == Kids(mem0, from, d, w)
        invariant Cloning(mem0, tables, free0, free, ram0, ram, from, to, d, w, i)
      {
        ghost var mem1, free1, ram1 := tables, free, ram;
        ok := CloneEntry(from, to, depth, w, i);
        CloneStep(mem0, mem1, tables, free0, free1, free, ram0, ram1, ram, from, to, d, w, i, ok);
        if !ok { return false; }
        SourceKept(mem0, tables, from, d, w, to, free0, free);
        i := i + 1;
      }
      CloneEnds(mem0, tables, free0, free, ram0, ram, from, to, d, w);
      ok := true;
    }

    /** One round of `Clone`. */
    method CloneEntry(from: nat, to: nat, depth: nat, ghost w: nat, i: nat) returns (ok: bool)
      requires 1 <= depth <= LEVELS && w <= FANOUT && i < w && Source(tables, from, depth - 1, w, to, free)
      requires NodeOk(tables, to, depth - 1, w, free) && Kids(tables, to, depth - 1, w)[i] == Absent
      modifies this
      ensures var d := depth - 1;
              ClonedEntry(old(tables), tables, old(free), free, old(ram), ram, Kids(old(tables), from, d, w)[i], to, d, w, i, ok)
      decreases depth, 0
    {
      var e := tables[from][i];
      if e.Zero? {
        SkipCloned(tables, free, ram, from, to, depth - 1, w, i);
        return true;
      }
      assert Kids(tables, from, depth - 1, w)[i] == TreeAt(tables, e, depth - 1);
      if free == [] { return false; }
      if depth > 1 { ok := CloneBelow(from, to, depth, w, i); } else { ok := ClonePage(from, to, depth, w, i); }
    }

    method CloneBelow(from: nat, to: nat, depth: nat, ghost w: nat, i: nat) returns (ok: bool)
      requires 1 < depth <= LEVELS && w <= FANOUT && i < w && Source(tables, from, depth - 1, w, to, free) && free != []
      requires NodeOk(tables, to, depth - 1, w, free) && Kids(tables, to, depth - 1, w)[i] == Absent && tables[from][i].Present?
      modifies this
      ensures var d := depth - 1;
              ClonedEntry(old(tables), tables, old(free), free, old(ram), ram, Kids(old(tables), from, d, w)[i], to, d, w, i, ok)
      decreases depth - 1, 2
    {
      ghost var d, mem, free0, ram0 := depth - 1, tables, free, ram;
      var sub := tables[from][i].frame;
      FreeNotTarget(tables, to, d, w, free);
      Opened(tables, tables[free[0] := Zeros()][to := tables[to][i := Present(free[0], INTERMEDIATE)]], free, from, to, d, w, i);
      var next := AllocPage();
      tables := tables[to := tables[to][i := Present(next, INTERMEDIATE)]];
      ghost var mem1 := tables;
      ok := Clone(sub, next, depth - 1, FANOUT);
      TableCloned(mem, mem1, tables, free0, free, ram0, ram, sub, to, d, w, i, ok);
    }

    method ClonePage(from: nat, to: nat, depth: nat, ghost w: nat, i: nat) returns (ok: bool)
      requires depth == 1 && w <= FANOUT && i < w && Source(tables, from, depth - 1, w, to, free) && free != []
      requires NodeOk(tables, to, depth - 1, w, free) && Kids(tables, to, depth - 1, w)[i] == Absent && tables[from][i].Present?
      modifies this
      ensures var d := depth - 1;
              ClonedEntry(old(tables), tables, old(free), free, old(ram), ram, Kids(old(tables), from, d, w)[i], to, d, w, i, ok)
    {
      var e := tables[from][i];
      FreeNotTarget(tables, to, depth - 1, w, free);
      assert Kids(tables, from, depth - 1, w)[i] == TreeAt(tables, e, depth - 1);
      PageCloned(tables, tables[free[0] := Zeros()][to := tables[to][i := Present(free[0], e.flags)]], free, ram, to, depth - 1, w, i, e.frame, e.flags);
      var next := AllocPage();
      tables := tables[to := tables[to][i := Present(next, e.flags)]];
      ram := ram[next := Read(ram, e.frame)];
      ok := true;
    }

    // -------------------------------------------------------------- the user half of an address space

    /** `mmu_create_address_space`: an empty user half, and the kernel half of the current space. */
    method MmuCreate(current: nat, depth: nat) returns (ok: bool, top: nat)
      requires depth == LEVELS && Once(multiset(free)) && current in tables && |tables[current]| == FANOUT && current !in free
      modifies this
      ensures ok <==> old(free) != []
      ensures ok ==>
                && top == old(free)[0] && free == old(free)[1..] && NodeOk(tables, top, depth - 1, HALF, free)
                && AllAbsent(Kids(tables, top, depth - 1, HALF)) && tables[top][HALF..] == old(tables)[current][HALF..]
                && GrantsNone(tables, top, depth, 0, LowPages())
                && forall f | f != top :: Same(old(tables), tables, f)
    {
      if free == [] { return false, 0; }
      ghost var free0 := free;
      top := AllocPage();
      assert top != current by { assert free0[0] in free0; }
      tables := tables[top := tables[top][..HALF] + tables[current][HALF..]];
      NewTop(tables, top, depth - 1, free0);
      NoRights(tables, top, depth - 1);
      ok := true;
    }

    /** `mmu_clone_address_space`: a new space with the same kernel half, and each user page with the same flags and contents in a frame of its own. */
    method MmuClone(top: nat, depth: nat) returns (ok: bool, copy: nat)
      requires depth == LEVELS && NodeOk(tables, top, depth - 1, HALF, free)
      modifies this
      ensures ok <==> |SpaceFrames(SpaceAt(old(tables), top, depth - 1))| <= |old(free)|
      ensures ok ==>
                && old(free) != [] && copy == old(free)[0] && NodeOk(tables, copy, depth - 1, HALF, free)
                && tables[copy][HALF..] == old(tables)[top][HALF..]
                && Kids(tables, top, depth - 1, HALF) == Kids(old(tables), top, depth - 1, HALF)
                && (forall f | f !in old(free) :: Same(old(tables), tables, f))
                && multiset(old(free)) == multiset{copy} + HeldKids(Kids(tables, copy, depth - 1, HALF), depth - 1, free)
      ensures ok ==> var d := depth - 1;
                forall p: nat :: SameContents(LookupKids(Kids(old(tables), top, d, HALF), d, p), old(ram),
                                              LookupKids(Kids(tables, copy, d, HALF), d, p), ram)
      ensures ok ==> SameRights(old(tables), top, tables, copy, depth)
    {
      ghost var d, mem, free0, ram0, kids := depth - 1, tables, free, ram, Kids(tables, top, depth - 1, HALF);
      SpaceSize(tables, top, d, free, ram);
      if free == [] { return false, 0; }
      TopSource(tables, top, d, free);
      copy := AllocPage();
      tables := tables[copy := tables[copy][..HALF] + tables[top][HALF..]];
      NewTop(tables, copy, d, free0);
      ghost var mem1 := tables;
      SourceKept(mem, mem1, top, d, HALF, copy, free0[1..], free);
      ok := Clone(top, copy, depth, HALF);
      if ok {
        WholeClone(mem, mem1, tables, free0, free, ram0, ram, top, copy, d);
        RightsCloned(mem, top, ram0, tables, copy, ram, d);
      }
    }

    /** `mmu_point1`: exactly the page of the address gets mapped; it panics exactly if it is mapped or frames for its tables are missing. */
    method MmuPoint1(top: nat, depth: nat, address: nat, target: nat, flags: Flags) returns (ok: bool)
      requires depth == LEVELS && NodeOk(tables, top, depth - 1, HALF, free) && TableIndex(depth, address) < HALF
      modifies this
      ensures var d, p := depth - 1, address / PAGE_SIZE % Size(depth);
              var kids := Kids(old(tables), top, d, HALF);
              && (ok <==> LookupKids(kids, d, p) == Absent && PointKidsNeed(kids, d, p) <= |old(free)|)
              && (ok ==> forall q: nat :: LookupKids(Kids(tables, top, d, HALF), d, q) == if q == p then Page(target, flags) else LookupKids(kids, d, q))
              && (ok ==> RightsAfter(PageOps.Assign(flags), old(tables), tables, top, depth, p, p + 1))
              && (ok ==> HighSame(old(tables), tables, top, HALF)
                         && forall f | f !in SpaceFrames(SpaceAt(old(tables), top, d)) + multiset(old(free)) :: Same(old(tables), tables, f))
    {
      ghost var d, page, mem, free0 := depth - 1, address / PAGE_SIZE, tables, free;
      RestMod(depth, page);
      RestIndex(d, page);
      ghost var p := page % Size(depth);
      PointKidsExact(top, Kids(mem, top, d, HALF), d, p, target, flags, free);
      ok := PointBelow(top, depth, HALF, address, target, flags);
      if ok {
        FoldedPage(d, address);
        RightsPointed(mem, tables, top, d, p, target, flags);
      }
    }

    /** `mmu_destroy_address_space` never panics, and frees exactly the frames the space owns. */
    method MmuDestroy(top: nat, depth: nat)
      requires depth == LEVELS && NodeOk(tables, top, depth - 1, HALF, free) && SpaceOk(SpaceAt(tables, top, depth - 1))
      modifies this
      ensures multiset(free) == SpaceFrames(SpaceAt(old(tables), top, depth - 1)) + multiset(old(free))
      ensures forall f | f !in SpaceFrames(SpaceAt(old(tables), top, depth - 1)) + multiset(old(free)) :: Same(old(tables), tables, f)
    {
      ghost var s, free0 := SpaceAt(tables, top, depth - 1), free;
      DestroyFrees(s, free0);
      var ok := MmuClear(top, depth, 0, LowPages());
      FreePage(top);
      assert free == Destroy(s, free0).value;
    }

    /** `mmu_assign`; `depth` is that of a top-level table. */
    method MmuAssign(top: nat, depth: nat, vbegin: nat, vend: nat, flags: Flags) returns (ok: bool)
      requires depth == LEVELS && NodeOk(tables, top, depth - 1, HALF, free)
      modifies this
      ensures Changed(PageOps.Assign(flags), old(tables), tables, old(free), free, top, depth - 1, vbegin, vend, ok)
      ensures ok ==> NodeOk(tables, top, depth - 1, HALF, free) && RightsAfter(PageOps.Assign(flags), old(tables), tables, top, depth, vbegin, vend)
    {
      if vbegin >= vend || vend > LowPages() { return false; }
      WholeNode(depth - 1, vbegin, vend);
      ghost var mem, free0 := tables, free;
      ok := Assign(top, depth, HALF, vbegin, vend, flags, 0);
      StaysOk(PageOps.Assign(flags), mem, tables, free0, free, top, depth - 1, HALF, vbegin, vend, ok);
      if ok { RightsDone(PageOps.Assign(flags), mem, tables, free0, free, top, depth - 1, vbegin, vend); }
    }

    method MmuClear(top: nat, depth: nat, vbegin: nat, vend: nat) returns (ok: bool)
      requires depth == LEVELS && NodeOk(tables, top, depth - 1, HALF, free)
      modifies this
      ensures Changed(Clear, old(tables), tables, old(free), free, top, depth - 1, vbegin, vend, ok)
      ensures ok ==> NodeOk(tables, top, depth - 1, HALF, free) && RightsAfter(Clear, old(tables), tables, top, depth, vbegin, vend)
    {
      if vbegin >= vend || vend > LowPages() { return false; }
      WholeNode(depth - 1, vbegin, vend);
      ghost var mem, free0 := tables, free;
      var empty := ClearRange(top, depth, HALF, vbegin, vend, 0);
      StaysOk(Clear, mem, tables, free0, free, top, depth - 1, HALF, vbegin, vend, true);
      RightsDone(Clear, mem, tables, free0, free, top, depth - 1, vbegin, vend);
      ok := true;
    }

    method MmuEdit(top: nat, depth: nat, vbegin: nat, vend: nat, flags: Flags) returns (ok: bool)
      requires depth == LEVELS && NodeOk(tables, top, depth - 1, HALF, free)
      modifies this
      ensures Changed(Edit(flags), old(tables), tables, old(free), free, top, depth - 1, vbegin, vend, ok)
      ensures ok ==> NodeOk(tables, top, depth - 1, HALF, free) && RightsAfter(Edit(flags), old(tables), tables, top, depth, vbegin, vend)
    {
      if vbegin >= vend || vend > LowPages() { return false; }
      WholeNode(depth - 1, vbegin, vend);
      ghost var mem, free0 := tables, free;
      ok := EditRange(top, depth, HALF, vbegin, vend, flags, 0);
      StaysOk(Edit(flags), mem, tables, free0, free, top, depth - 1, HALF, vbegin, vend, ok);
      if ok { RightsDone(Edit(flags), mem, tables, free0, free, top, depth - 1, vbegin, vend); }
    }
  }

  /** A space can be cloned exactly if as many frames are free as it owns. */
  lemma SpaceSize(mem: Tables, top: nat, d: nat, free: seq<nat>, ram: Ram)
    requires d == LEVELS - 1 && NodeOk(mem, top, d, HALF, free)
    ensures |SpaceFrames(SpaceAt(mem, top, d))| <= |free| <==>
              free != [] && CloneKids(Kids(mem, top, d, HALF), d, 0, free[1..], ram).Some?
  {
    var kids := Kids(mem, top, d, HALF);
    SumSize(multiset{top}, AllFrames(kids, d, |kids|));
    RestAll(kids, d);
    if free != [] { CloneKidsHalts(kids, d, 0, free[1..], ram); }
  }

  lemma TopSource(mem: Tables, top: nat, d: nat, free: seq<nat>)
    requires NodeOk(mem, top, d, HALF, free) && free != []
    ensures Source(mem, top, d, HALF, free[0], free[1..]) && free[0] != top && top !in free && Once(multiset(free))
  {
    var kids := Kids(mem, top, d, HALF);
    var all := multiset{top} + HeldKids(kids, d, free);
    OnceLess(all, multiset(free));
    forall f | f in multiset{top} + AllFrames(kids, d, |kids|) ensures f !in free {
      assert f in all && all[f] == 1;
      assert all[f] == (multiset{top} + AllFrames(kids, d, |kids|))[f] + multiset(free)[f];
    }
    assert free[0] in free && forall f | f in free[1..] :: f in free;
    assert top in multiset{top} + AllFrames(kids, d, |kids|);
  }

  /** What the finished copy of the user half gives. */
  lemma WholeClone(mem: Tables, mem1: Tables, mem2: Tables, free: seq<nat>, free2: seq<nat>, ram: Ram, ram2: Ram, top: nat, copy: nat, d: nat)
    requires NodeOk(mem, top, d, HALF, free) && free != [] && copy == free[0]
    requires OnlyWrites(mem, mem1, copy, free[1..]) && Kids(mem1, top, d, HALF) == Kids(mem, top, d, HALF)
    requires Cloned(mem1, mem2, free[1..], free2, ram, ram2, top, copy, d, HALF, true)
    ensures Kids(mem2, top, d, HALF) == Kids(mem, top, d, HALF) && (forall f | f !in free :: Same(mem, mem2, f))
    ensures multiset(free) == multiset{copy} + HeldKids(Kids(mem2, copy, d, HALF), d, free2)
    ensures forall p: nat :: SameContents(LookupKids(Kids(mem, top, d, HALF), d, p), ram, LookupKids(Kids(mem2, copy, d, HALF), d, p), ram2)
  {
    var kids := Kids(mem, top, d, HALF);
    TopSource(mem, top, d, free);
    Taken(free);
    OnceLess(multiset{top} + HeldKids(kids, d, free), HeldKids(kids, d, free[1..]));
    CloneKidsTakes(kids, d, 0, free[1..], ram);
    forall p: nat ensures SameContents(LookupKids(kids, d, p), ram, LookupKids(Kids(mem2, copy, d, HALF), d, p), ram2) {
      CloneKidsLooks(kids, d, 0, free[1..], ram, p);
    }
    forall f | f !in free ensures Same(mem, mem2, f) { assert f != copy && f !in free[1..]; assert Same(mem, mem1, f) && Same(mem1, mem2, f); }
    forall f | f in multiset{top} + AllFrames(kids, d, |kids|) ensures Same(mem, mem2, f) {}
    KidsStay(mem, mem2, top, d, HALF);
  }

  /** A new top-level table, its user half zeros, is well formed. */
  lemma NewTop(mem: Tables, top: nat, d: nat, free: seq<nat>)
    requires free != [] && Once(multiset(free)) && top == free[0] && top in mem && |mem[top]| == FANOUT
    requires forall i | 0 <= i < HALF :: mem[top][i].Zero?
    ensures NodeOk(mem, top, d, HALF, free[1..]) && AllAbsent(Kids(mem, top, d, HALF))
  {
    var kids := Kids(mem, top, d, HALF);
    forall k | 0 <= k < HALF ensures kids[k] == Absent { assert kids[k] == TreeAt(mem, mem[top][k], d); }
    NoFrames(kids, d, |kids|);
    Taken(free);
    assert multiset{top} + HeldKids(kids, d, free[1..]) == multiset(free);
  }

  /** An operation leaves the table as well formed as it was, so operations can follow one another. */
  lemma StaysOk(op: Op, mem: Tables, mem': Tables, free: seq<nat>, free': seq<nat>, frame: nat, d: nat, w: nat,
                lo: nat, hi: nat, ok: bool)
    requires NodeOk(mem, frame, d, w, free) && Did(op, mem, mem', free, free', frame, d, w, First(d, lo), Last(d, hi), lo, hi, ok)
    ensures ok ==> NodeOk(mem', frame, d, w, free')
  {
    if ok {
      ApplyKidsShaped(op, Kids(mem, frame, d, w), d, First(d, lo), Last(d, hi), lo, hi, free);
      ApplyKidsConserves(op, Kids(mem, frame, d, w), d, First(d, lo), Last(d, hi), lo, hi, free);
    }
  }

  /** After an operation on a range, the walk finds there exactly the rights it gave, and elsewhere those there were. */
  lemma RightsDone(op: Op, mem: Tables, mem': Tables, free: seq<nat>, free': seq<nat>, top: nat, d: nat, vbegin: nat, vend: nat)
    requires d == LEVELS - 1 && NodeOk(mem, top, d, HALF, free) && NodeOk(mem', top, d, HALF, free') && vbegin < vend <= LowPages()
    requires Did(op, mem, mem', free, free', top, d, HALF, First(d, vbegin), Last(d, vend), vbegin, vend, true)
    ensures RightsAfter(op, mem, mem', top, d + 1, vbegin, vend)
  {
    HalfUpdated(op, Kids(mem, top, d, HALF), d, vbegin, vend, free);
    RightsFollow(op, mem, mem', top, d, vbegin, vend);
  }

  /** The address space whose top-level table is in frame `top`. */
  function SpaceAt(mem: Tables, top: nat, d: nat): Space { Space(top, Kids(mem, top, d, HALF), []) }

  /** Memory changed as the address space did: user half as `Change` says, kernel half and every other frame untouched. */
  ghost predicate Changed(op: Op, mem: Tables, mem': Tables, free: seq<nat>, free': seq<nat>,
                          top: nat, d: nat, vbegin: nat, vend: nat, ok: bool) {
    var o := Change(op, SpaceAt(mem, top, d), vbegin, vend, free);
    && (ok <==> o.Some?)
    && (ok ==>
          && SpaceAt(mem', top, d) == o.value.space && free' == o.value.free && HighSame(mem, mem', top, HALF)
          && forall f | f !in SpaceFrames(SpaceAt(mem, top, d)) + multiset(free) :: Same(mem, mem', f))
  }

  /** `virt_to_phys` on memory: the entry of each level is read from its table. */
  function WalkMemory(mem: Tables, frame: nat, depth: nat, address: nat): nat
    decreases depth
  {
    if depth == 0 || frame !in mem || TableIndex(depth, address) >= |mem[frame]| then 0
    else
      match mem[frame][TableIndex(depth, address)]
      case Zero => 0
      case Present(f, _) => if depth == 1 then f * PAGE_SIZE + address % PAGE_SIZE else WalkMemory(mem, f, depth - 1, address)
  }

  /** It walks the tree the tables represent. */
  lemma {:induction false} WalkMemoryExact(mem: Tables, frame: nat, depth: nat, w: nat, kids: seq<Tree>, address: nat)
    requires depth >= 1 && frame in mem && |mem[frame]| == FANOUT && TableIndex(depth, address) < w <= FANOUT
    requires kids == Kids(mem, frame, depth - 1, w) && forall k | 0 <= k < w :: Shaped(kids[k], depth - 1)
    ensures WalkMemory(mem, frame, depth, address) == Walk(kids, depth, address)
    decreases depth
  {
    var i := TableIndex(depth, address);
    assert Shaped(kids[i], depth - 1);
    assert kids[i] == TreeAt(mem, mem[frame][i], depth - 1);
    if depth > 1 && kids[i].Table? { WalkMemoryExact(mem, kids[i].frame, depth - 1, FANOUT, kids[i].kids, address); }
  }

  lemma {:induction false} ShlZero(d: nat)
    ensures Shl(d, 0) == 0
  {
    if d > 0 { ShlZero(d - 1); }
  }

  /** A user range is within the top-level table, numbered 0. */
  lemma WholeNode(d: nat, vbegin: nat, vend: nat)
    requires d == LEVELS - 1 && vbegin < vend <= LowPages()
    ensures Covers(d + 1, 0, vbegin, vend) && Shl(d + 1, 0) == 0 && Last(d, vend) <= HALF
  {
    ShlZero(d + 1);
    ShlMono(d, HALF, FANOUT);
    ShlOne(d + 1);
    HalfFits(vend);
  }

  lemma EditStops(flags: Flags, mem: Tables, frame: nat, d: nat, w: nat, i: nat, lo: nat, hi: nat, free: seq<nat>)
    requires w <= FANOUT && NodeOk(mem, frame, d, w, free) && i < w && mem[frame][i].Zero?
    ensures DidEntry(Edit(flags), mem, mem, free, free, frame, d, w, i, lo, hi, false)
  {
    assert Kids(mem, frame, d, w)[i] == Absent;
  }

  /** An entry that is present leads to its table as memory stands. */
  lemma PresentLeads(op: Op, mem: Tables, frame: nat, d: nat, w: nat, i: nat, free: seq<nat>)
    requires w <= FANOUT && NodeOk(mem, frame, d, w, free) && d > 0 && i < w && mem[frame][i].Present?
    ensures Leads(op, mem, mem, frame, d, w, i, free, mem[frame][i].frame, free)
    ensures NodeOk(mem, mem[frame][i].frame, d - 1, FANOUT, free)
  {
    PresentOk(mem, frame, d, w, i, free);
  }

  lemma PageCleared(mem: Tables, frame: nat, d: nat, w: nat, i: nat, free: seq<nat>, lo: nat, hi: nat)
    requires d == 0 && w <= FANOUT && NodeOk(mem, frame, d, w, free) && i < w && mem[frame][i].Present?
    ensures var f := mem[frame][i].frame;
            && f != frame
            && DidEntry(Clear, mem, (mem - {f})[frame := mem[frame][i := Zero]], free, [f] + free, frame, d, w, i, lo, hi, true)
  {
    var f := mem[frame][i].frame;
    EntryOnce(Kids(mem, frame, d, w), d, frame, free, i);
    assert Kids(mem, frame, d, w)[i] == Page(f, mem[frame][i].flags);
    assert f in Held(Kids(mem, frame, d, w)[i], d, free);
    PageDone(Clear, mem, (mem - {f})[frame := mem[frame][i := Zero]], frame, d, w, i, free, Zero);
  }

  lemma PageEdited(mem: Tables, frame: nat, d: nat, w: nat, i: nat, flags: Flags, free: seq<nat>, lo: nat, hi: nat)
    requires d == 0 && w <= FANOUT && NodeOk(mem, frame, d, w, free) && i < w && mem[frame][i].Present?
    ensures var e := Present(mem[frame][i].frame, flags);
            DidEntry(Edit(flags), mem, mem[frame := mem[frame][i := e]], free, free, frame, d, w, i, lo, hi, true)
  {
    var e := Present(mem[frame][i].frame, flags);
    assert Kids(mem, frame, d, w)[i] == Page(e.frame, mem[frame][i].flags);
    PageDone(Edit(flags), mem, mem[frame := mem[frame][i := e]], frame, d, w, i, free, e);
  }

  lemma FreeApart(mem: Tables, frame: nat, d: nat, w: nat, i: nat, free: seq<nat>)
    requires w <= FANOUT && NodeOk(mem, frame, d, w, free) && i < w && free != []
    ensures free[0] != frame
  {
    EntryOnce(Kids(mem, frame, d, w), d, frame, free, i);
    assert free[0] in Held(Kids(mem, frame, d, w)[i], d, free);
  }

  lemma PageAssigned(mem: Tables, frame: nat, d: nat, w: nat, i: nat, flags: Flags, free: seq<nat>, lo: nat, hi: nat)
    requires d == 0 && w <= FANOUT && NodeOk(mem, frame, d, w, free) && i < w && free != [] && mem[frame][i].Zero? && free[0] != frame
    ensures DidEntry(PageOps.Assign(flags), mem, mem[free[0] := Zeros()][frame := mem[frame][i := Present(free[0], flags)]],
                     free, free[1..], frame, d, w, i, lo, hi, true)
  {
    PageDone(PageOps.Assign(flags), mem, mem[free[0] := Zeros()][frame := mem[frame][i := Present(free[0], flags)]],
             frame, d, w, i, free, Present(free[0], flags));
  }

  /** An entry of a last-level table is rewritten. */
  lemma PageDone(op: Op, mem: Tables, mem': Tables, frame: nat, d: nat, w: nat, i: nat, free: seq<nat>, e: Entry)
    requires d == 0 && w <= FANOUT && NodeOk(mem, frame, d, w, free) && i < w && frame in mem' && mem'[frame] == mem[frame][i := e]
    requires forall f | f != frame && f !in Held(Kids(mem, frame, d, w)[i], d, free) :: Same(mem, mem', f)
    ensures Kids(mem', frame, d, w) == Kids(mem, frame, d, w)[i := TreeAt(mem', e, d)]
  {
    var kids := Kids(mem, frame, d, w);
    var touched := Held(kids[i], d, free);
    forall k, f | 0 <= k < w && k != i && f in Frames(kids[k], d) ensures f != frame && f !in touched {
      Apart(kids, d, frame, free, i, k, f);
    }
    KidSet(mem, mem', frame, d, w, i, e, touched);
  }
}
