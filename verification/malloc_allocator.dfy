/** The allocator as it runs: the state in fields, changed in place, against the heap functions. */
module MallocAllocator {
  import opened MallocTrie
  import opened MallocFit
  import opened MallocBins
  import opened MallocLarge
  import opened MallocSpans
  import opened MallocStore
  import opened MallocHeap
  import opened MallocAlloc
  import opened MallocServe
  import opened MallocFree
  import opened MallocRuns
  import opened MallocHeapRuns

  class Allocator {
    var mem: Memory
    var segment: Segment
    var dv: nat
    var dvsize: nat
    var small: seq<seq<nat>>
    var smallmap: seq<bool>
    const large: LargeBins

    function Bins(): Bins
      reads this, large
    {
      MallocStore.Bins(small, smallmap, large.trees, large.treemap)
    }

    function Snapshot(): Heap
      reads this, large
    {
      Heap(mem, segment, Store(Bins(), dv, dvsize))
    }

    ghost predicate Shape()
      reads this, large
    {
      BinsShape(Bins())
    }

    ghost predicate Valid()
      reads this, large
    {
      HeapOk(Snapshot())
    }

    constructor ()
      ensures Valid() && fresh(large) && Snapshot() == Empty()
    {
      mem, segment, dv, dvsize := map[], Segment(0, 0, 0, 0), 0, 0;
      small, smallmap := Blank([]), Blank(false);
      large := new LargeBins();
      new;
      EmptyOk();
    }

    /** Putting a free chunk in its bin. */
    method InsertChunk(p: nat, size: nat)
      requires Shape()
      modifies this`small, this`smallmap, large
      ensures Shape() && Bins() == With(old(Bins()), p, size)
    {
      if IsSmall(size) {
        var i := size / 8;
        small, smallmap := small[i := [p] + small[i]], smallmap[i := true];
      } else {
        large.InsertLarge(p, size);
      }
    }

    /** Taking a free chunk out of its bin. */
    method UnlinkChunk(p: nat, size: nat)
      requires Shape()
      modifies this`small, this`smallmap, large
      ensures Shape() && Bins() == Less(old(Bins()), p, size)
    {
      if IsSmall(size) {
        var i := size / 8;
        var rest := Without(small[i], p);
        small := small[i := rest];
        if rest == [] { smallmap := smallmap[i := false]; }
      } else {
        large.UnlinkLarge(p, size);
      }
    }

    /** The chunk made free becomes `dv`, the old one goes to its bin. */
    method ReplaceDv(p: nat, size: nat)
      requires Shape() && IsSmall(dvsize)
      modifies this`small, this`smallmap, this`dv, this`dvsize, large
      ensures Shape() && Snapshot().store == FileRest(old(Snapshot().store), p, size, true)
    {
      if dvsize != 0 { InsertChunk(dv, dvsize); }
      dv, dvsize := p, size;
    }

    /** Serving a request from a chunk of a bin. */
    method Take(p: nat, size: nat, nb: nat, isSmall: bool) returns (r: nat)
      requires Shape() && nb <= size && (isSmall && nb + MIN_CHUNK <= size ==> IsSmall(dvsize))
      modifies this, large
      ensures Shape() && Outcome(Snapshot(), r) == TakeBinned(old(Snapshot()), p, size, nb, isSmall)
    {
      UnlinkChunk(p, size);
      var rest := size - nb;
      if rest < MIN_CHUNK {
        mem := UseWhole(mem, p, size);
      } else {
        mem := UsePart(mem, p, nb);
        mem := FreeHead(mem, p + nb, rest);
        if isSmall { ReplaceDv(p + nb, rest); } else { InsertChunk(p + nb, rest); }
      }
      r := p + 16;
    }

    /** The first small bin in use. */
    method NextSmall(from: nat) returns (i: nat)
      requires Shape() && from <= BINS
      ensures i == NextUsed(smallmap, from)
    {
      i := from;
      while i < BINS && !smallmap[i]
        invariant i <= BINS && NextUsed(smallmap, i) == NextUsed(smallmap, from)
      {
        i := i + 1;
      }
    }

    /** The chunk of a bin that serves a small request, when none fits without rest and `dv` is too small. */
    method ChooseNext(nb: nat) returns (c: Choice)
      requires Shape() && nb / 8 < BINS
      ensures var b := Bins();
              var i := NextUsed(b.smallmap, nb / 8);
              c == if i < BINS then FromBin(FirstSmall(b, i), 8 * i)
                   else if NextUsed(b.treemap, 0) < BINS then FromTrie(LeastLarge(b, nb)) else NoBin
    {
      var i := NextSmall(nb / 8);
      if i < BINS { return FromBin(if small[i] == [] then 0 else small[i][0], 8 * i); }
      var t := large.NextBin(0);
      if t >= BINS { return NoBin; }
      var v := LargeBins.WalkLeft(large.trees[t], nb, Nil);
      c := FromTrie(v);
    }

    /** The chunk of a bin that serves a large request, unless `dv` fits as well or better. */
    method ChooseLarge(nb: nat) returns (c: Choice)
      requires Shape()
      ensures c == if NextUsed(large.treemap, 0) >= BINS then NoBin
                   else var v := Best(large.trees, large.treemap, nb);
                        if v.Node? && Remainder(v.size, nb) < (dvsize - nb) % WORD then FromTrie(v) else NoBin
    {
      var t := large.NextBin(0);
      if t >= BINS { return NoBin; }
      var v := large.FindBest(nb);
      c := if v.Node? && Remainder(v.size, nb) < (dvsize - nb) % WORD then FromTrie(v) else NoBin;
    }

    /** Splitting `dv`, or using all of it. */
    method FromDv(nb: nat) returns (r: nat)
      requires nb <= dvsize
      modifies this
      ensures Outcome(Snapshot(), r) == TakeDv(old(Snapshot()), nb)
    {
      var p, rest := dv, dvsize - nb;
      if rest >= MIN_CHUNK {
        dv, dvsize := p + nb, rest;
        mem := FreeHead(UsePart(mem, p, nb), dv, rest);
      } else {
        var size := dvsize;
        dv, dvsize := 0, 0;
        mem := UseWhole(mem, p, size);
      }
      r := p + 16;
    }

    method SplitTop(nb: nat) returns (r: nat)
      requires nb < segment.topsize
      modifies this
      ensures Outcome(Snapshot(), r) == TakeTop(old(Snapshot()), nb)
    {
      var p, rest := segment.top, segment.topsize - nb;
      segment := segment.(top := p + nb, topsize := rest);
      mem := SetHead(mem, p + nb, rest + 1);
      mem := UsePart(mem, p, nb);
      r := p + 16;
    }

    /** `mapped` is what the system answers. */
    method System(nb: nat, mapped: nat) returns (r: nat)
      requires Shape()
      modifies this, large
      ensures Shape() && Outcome(Snapshot(), r) == SysAlloc(old(Snapshot()), nb, mapped)
    {
      var size := SystemSize(nb);
      if size <= nb || mapped == 0 { return 0; }
      if segment.top == 0 {
        segment := Segment(mapped, size, mapped, SegmentTop(size));
      } else if mapped == segment.base + segment.size {
        segment := segment.(size := segment.size + size, topsize := segment.topsize + size);
      } else {
        r := Front(mapped, size, nb);
        return;
      }
      mem := SetHead(mem, segment.top, segment.topsize + 1);
      mem := SetHead(mem, segment.top + segment.topsize, TOP_FOOT);
      r := 0;
      if nb < segment.topsize { r := SplitTop(nb); }
    }

    /** Memory just below the segment. */
    method Front(p: nat, size: nat, nb: nat) returns (r: nat)
      requires Shape() && nb <= size
      modifies this, large
      ensures Shape() && Outcome(Snapshot(), r) == Prepend(old(Snapshot()), p, size, nb)
    {
      var first := segment.base;
      ghost var h1 := Heap(UsePart(mem, p, nb), segment.(base := p, size := segment.size + size), Snapshot().store);
      segment := segment.(base := p, size := segment.size + size);
      mem := UsePart(mem, p, nb);
      assert Snapshot() == h1;
      FrontRest(first, p + nb, size - nb);
      r := p + 16;
    }

    /** What becomes of the rest of the new memory, `rest` bytes at `q` before the chunk at `first`. */
    method FrontRest(first: nat, q: nat, rest: nat)
      requires Shape()
      modifies this, large
      ensures Shape() && Snapshot() == PrependRest(old(Snapshot()), first, q, rest)
    {
      if first == segment.top {
        GrowTop(q, rest);
      } else if first == dv {
        JoinDv(q, rest);
      } else {
        FrontFile(first, q, rest);
      }
    }

    method GrowTop(q: nat, rest: nat)
      requires Shape()
      modifies this
      ensures var h := old(Snapshot());
              var g := h.segment; Snapshot() == Heap(SetHead(h.mem, q, g.topsize + rest + 1), g.(top := q, topsize := g.topsize + rest), h.store)
    {
      segment := segment.(top := q, topsize := segment.topsize + rest);
      mem := SetHead(mem, q, segment.topsize + 1);
    }

    /** The rest of the new memory, `rest` bytes at `q`, joins the first chunk if that is free, and is filed. */
    method FrontFile(first: nat, q: nat, rest: nat)
      requires Shape()
      modifies this, large
      ensures Shape()
      ensures var h := old(Snapshot());
              var t, mem := h.store, h.mem;
              Snapshot() ==
                if !CInUse(Head(mem, first)) then
                  var n := ChunkSize(Head(mem, first));
                  Heap(FreeBefore(mem, q, rest + n, first + n), h.segment, t.(bins := With(Less(t.bins, first, n), q, rest + n)))
                else Heap(FreeBefore(mem, q, rest, first), h.segment, t.(bins := With(t.bins, q, rest)))
    {
      if !CInUse(Head(mem, first)) {
        var n := ChunkSize(Head(mem, first));
        Detach(first, n);
        FileBefore(q, rest + n, first + n);
      } else {
        FileBefore(q, rest, first);
      }
    }

    /** A free chunk of `n` bytes at `p`, before the chunk at `next`. */
    method FileBefore(p: nat, n: nat, next: nat)
      requires Shape()
      modifies this, large
      ensures Shape()
      ensures var h := old(Snapshot());
              Snapshot() == Heap(FreeBefore(h.mem, p, n, next), h.segment, h.store.(bins := With(h.store.bins, p, n)))
    {
      mem := FreeBefore(mem, p, n, next);
      InsertChunk(p, n);
    }

    /** The free chunk of `n` bytes at `p` becomes part of `top`. */
    method JoinTop(p: nat, n: nat)
      requires Shape()
      modifies this
      ensures var h := old(Snapshot());
              var g, t := h.segment, h.store;
              Snapshot() == Heap(SetHead(h.mem, p, g.topsize + n + 1), g.(top := p, topsize := g.topsize + n), if p == t.dv then Store(t.bins, 0, 0) else t)
    {
      segment := segment.(top := p, topsize := segment.topsize + n);
      mem := SetHead(mem, p, segment.topsize + 1);
      if p == dv { dv, dvsize := 0, 0; }
    }

    /** `n` bytes at `p` join `dv`, which is after them. */
    method JoinDv(p: nat, n: nat)
      requires Shape()
      modifies this
      ensures var h := old(Snapshot());
              var t := h.store; Snapshot() == Heap(FreeHead(h.mem, p, t.dvsize + n), h.segment, Store(t.bins, p, t.dvsize + n))
    {
      dv, dvsize := p, dvsize + n;
      mem := FreeHead(mem, p, dvsize);
    }

    /** Joining a free chunk of `n` bytes at `p` and the free chunk after it, which is in a bin. */
    method JoinFree(p: nat, n: nat, next: nat, size: nat)
      requires Shape()
      modifies this, large
      ensures Shape()
      ensures var h := old(Snapshot());
              var t, less := h.store, Less(h.store.bins, next, size);
              Snapshot() == Heap(FreeHead(h.mem, p, n + size), h.segment,
                                 if p == t.dv then Store(less, p, n + size) else t.(bins := With(less, p, n + size)))
    {
      UnlinkChunk(next, size);
      mem := FreeHead(mem, p, n + size);
      if p == dv { dvsize := n + size; } else { InsertChunk(p, n + size); }
    }

    method ChooseSmall(nb: nat) returns (c: Choice)
      requires Shape() && nb / 8 + 1 < BINS
      ensures c == Choose(Bins(), dvsize, nb, true)
    {
      var idx := nb / 8;
      if smallmap[idx] || smallmap[idx + 1] {
        if !smallmap[idx] { idx := idx + 1; }
        c := FromBin(if small[idx] == [] then 0 else small[idx][0], 8 * idx);
      } else if nb > dvsize {
        c := ChooseNext(nb);
      } else {
        c := NoBin;
      }
    }

    method ChooseFor(bytes: nat, nb: nat) returns (c: Choice)
      requires Shape() && nb == Request(bytes)
      ensures c == ChoiceOf(Snapshot(), bytes)
    {
      RequestExact(bytes);
      if bytes <= MAX_SMALL_REQUEST {
        c := ChooseSmall(nb);
      } else if bytes >= MAX_REQUEST {
        c := NoBin;
      } else {
        c := ChooseLarge(nb);
      }
    }

    /** Allocation; `mapped` is the system's answer if it is asked. */
    method Malloc(bytes: nat, mapped: nat) returns (r: nat)
      requires Valid() && Answer(Snapshot(), Request(bytes), mapped)
      modifies this, large
      ensures Outcome(Snapshot(), r) == MallocAlloc.Malloc(old(Snapshot()), bytes, mapped)
      ensures Valid() && (r == 0 <==> NoRoom(old(Snapshot()), Chunks(old(Snapshot())), Request(bytes), mapped))
      ensures if r == 0 then Snapshot() == old(Snapshot()) else Gives(old(Snapshot()), Outcome(Snapshot(), r), bytes)
    {
      MallocKeeps(Snapshot(), bytes, mapped);
      ChoiceFits(Snapshot(), bytes);
      r := Serve(bytes, Request(bytes), mapped);
    }

    method Serve(bytes: nat, nb: nat, mapped: nat) returns (r: nat)
      requires Shape() && nb == Request(bytes) && (ChoiceOf(Snapshot(), bytes).FromBin? ==> nb <= ChoiceOf(Snapshot(), bytes).size)
      modifies this, large
      ensures Shape() && Outcome(Snapshot(), r) == MallocAlloc.Malloc(old(Snapshot()), bytes, mapped)
    {
      var c := ChooseFor(bytes, nb);
      if c.FromBin? {
        r := Take(c.addr, c.size, nb, IsSmallRequest(bytes));
      } else if nb <= dvsize {
        r := FromDv(nb);
      } else if nb < segment.topsize {
        r := SplitTop(nb);
      } else {
        r := System(nb, mapped);
      }
    }

    /** Joining a free chunk of `n` bytes at `p` and the free chunk after it. */
    method JoinNext(p: nat, n: nat, next: nat, size: nat)
      requires Shape()
      modifies this, large
      ensures Shape() && Snapshot() == ForwardFree(old(Snapshot()), old(Snapshot()).store, p, n, next, size)
    {
      if next == dv { JoinDv(p, n); } else { JoinFree(p, n, next, size); }
    }

    /** Joining what follows a free chunk of `n` bytes at `p`. */
    method JoinForward(p: nat, n: nat)
      requires Shape()
      modifies this, large
      ensures Shape() && Snapshot() == Forward(old(Snapshot()), old(Snapshot()).store, p, n)
    {
      var next := p + n;
      var head := Head(mem, next);
      if CInUse(head) {
        FileBefore(p, n, next);
      } else if next == segment.top {
        JoinTop(p, n);
      } else {
        JoinNext(p, n, next, ChunkSize(head));
      }
    }

    /** Joining the free chunk before a chunk of `n` bytes at `p`. */
    method JoinBackward(p: nat, n: nat, foot: nat)
      requires Shape()
      modifies this, large
      ensures Shape() && Snapshot() == Backward(old(Snapshot()), p, n, foot)
    {
      var prev, head := Back(p, foot), Head(mem, p + n);
      if prev != dv {
        ghost var h := Snapshot();
        Detach(prev, foot);
        ForwardSame(h, Snapshot(), prev, n + foot);
        JoinForward(prev, n + foot);
      } else if CInUse(head) && PInUse(head) {
        dvsize := n + foot;
        mem := FreeBefore(mem, prev, n + foot, p + n);
      } else {
        JoinForward(prev, n + foot);
      }
    }

    method Detach(p: nat, size: nat)
      requires Shape()
      modifies this`small, this`smallmap, large
      ensures Shape()
      ensures var h := old(Snapshot()); Snapshot() == Heap(h.mem, h.segment, Store(Less(h.store.bins, p, size), h.store.dv, h.store.dvsize))
    {
      UnlinkChunk(p, size);
    }

    /** Freeing a chunk in use, or nothing. */
    method Free(p: nat)
      requires Valid() && (p == 0 || exists c :: c in Used(Snapshot()) && c.addr + 16 == p)
      modifies this, large
      ensures Snapshot() == MallocFree.Free(old(Snapshot()), p)
      ensures Valid() && (p == 0 ==> Snapshot() == old(Snapshot()))
      ensures p != 0 ==> exists c: Chunk :: c.addr + 16 == p && Used(Snapshot()) + multiset{c} == Used(old(Snapshot()))
      ensures p != 0 ==> SameData(old(Snapshot()).mem, mem, Chunks(Snapshot()))
    {
      if p == 0 { return; }
      ghost var c :| c in Used(Snapshot()) && c.addr + 16 == p;
      FreeHeapKeeps(Snapshot(), c, p);
      Drop(p);
    }

    method Drop(p: nat)
      requires Shape() && p >= 16
      modifies this, large
      ensures Shape() && Snapshot() == MallocFree.Free(old(Snapshot()), p)
    {
      var q := p - 16;
      var head := Head(mem, q);
      if PInUse(head) { JoinForward(q, ChunkSize(head)); } else { JoinBackward(q, ChunkSize(head), Word(mem, q)); }
    }
  }

  /** Joining forward reads the memory and the segment only. */
  lemma ForwardSame(h: Heap, h1: Heap, p: nat, n: nat)
    requires h1.mem == h.mem && h1.segment == h.segment && BinsShape(h1.store.bins)
    ensures Forward(h1, h1.store, p, n) == Forward(h, h1.store, p, n)
  {
  }

  /** A chunk chosen from a bin is large enough. */
  lemma ChoiceFits(h: Heap, bytes: nat)
    requires HeapOk(h)
    ensures ChoiceOf(h, bytes).FromBin? ==> Request(bytes) <= ChoiceOf(h, bytes).size
  {
    ChoiceExact(h, Chunks(h), bytes);
  }
}
