/** Allocation: which free chunk serves a request, and what becomes of the heap. */
module MallocAlloc {
  import opened Arithmetic
  import opened MallocTrie
  import opened MallocFit
  import opened MallocBins
  import opened MallocLarge
  import opened MallocSpans
  import opened MallocStore
  import opened MallocHeap

  // ---------------------------------------------------------------- the ways to serve a request

  /** The rest of a small request's chunk becomes `dv`, whose old chunk goes to its bin; that of a large one goes to its bin. */
  function FileRest(t: Store, p: nat, size: nat, small: bool): (r: Store)
    requires BinsShape(t.bins) && (small ==> IsSmall(t.dvsize))
    ensures BinsShape(r.bins)
  {
    if small then Store(if t.dvsize == 0 then t.bins else WithSmall(t.bins, t.dv, t.dvsize), p, size)
    else t.(bins := With(t.bins, p, size))
  }

  /** From a chunk in a bin. */
  function TakeBinned(h: Heap, p: nat, size: nat, nb: nat, small: bool): Outcome
    requires nb <= size && BinsShape(h.store.bins) && (small && nb + MIN_CHUNK <= size ==> IsSmall(h.store.dvsize))
  {
    var less := h.store.(bins := Less(h.store.bins, p, size));
    var store := if size - nb < MIN_CHUNK then less else FileRest(less, p + nb, size - nb, small);
    Outcome(Heap(CarveMem(h.mem, p, size, nb), h.segment, store), p + 16)
  }

  function TakeDv(h: Heap, nb: nat): Outcome
    requires nb <= h.store.dvsize
  {
    var t := h.store;
    var rest := t.dvsize - nb;
    var store := if rest < MIN_CHUNK then Store(t.bins, 0, 0) else Store(t.bins, t.dv + nb, rest);
    Outcome(Heap(CarveMem(h.mem, t.dv, t.dvsize, nb), h.segment, store), t.dv + 16)
  }

  function TakeTop(h: Heap, nb: nat): Outcome
    requires nb < h.segment.topsize
  {
    var g := h.segment;
    var mem := UsePart(SetHead(h.mem, g.top + nb, g.topsize - nb + 1), g.top, nb);
    Outcome(h.(mem := mem, segment := g.(top := g.top + nb, topsize := g.topsize - nb)), g.top + 16)
  }

  /** The size asked from the system, with the space a segment needs; the sum may wrap around. */
  function SystemSize(nb: nat): nat { (nb + TOP_FOOT + 16 + GRAIN - 1) % WORD / GRAIN * GRAIN }

  function InitTop(h: Heap, base: nat, size: nat, top: nat, topsize: nat): Heap {
    Heap(SetHead(SetHead(h.mem, top, topsize + 1), top + topsize, TOP_FOOT), Segment(base, size, top, topsize), h.store)
  }

  /** The rest of new memory below the segment, `rest` bytes at `q`, joins the first chunk, which was at `first`, or is filed. */
  function PrependRest(h: Heap, first: nat, q: nat, rest: nat): Heap
    requires BinsShape(h.store.bins)
  {
    var g, t, mem := h.segment, h.store, h.mem;
    if first == g.top then Heap(SetHead(mem, q, g.topsize + rest + 1), g.(top := q, topsize := g.topsize + rest), t)
    else if first == t.dv then Heap(FreeHead(mem, q, t.dvsize + rest), g, Store(t.bins, q, t.dvsize + rest))
    else if !CInUse(Head(mem, first)) then
      var n := ChunkSize(Head(mem, first));
      Heap(FreeBefore(mem, q, rest + n, first + n), g, t.(bins := With(Less(t.bins, first, n), q, rest + n)))
    else Heap(FreeBefore(mem, q, rest, first), g, t.(bins := With(t.bins, q, rest)))
  }

  /** Memory just below the segment: the request is served from its start. */
  function Prepend(h: Heap, p: nat, size: nat, nb: nat): Outcome
    requires nb <= size && BinsShape(h.store.bins)
  {
    var g := h.segment;
    var h1 := Heap(UsePart(h.mem, p, nb), g.(base := p, size := g.size + size), h.store);
    Outcome(PrependRest(h1, g.base, p + nb, size - nb), p + 16)
  }

  /** Memory from the system at `mapped`, 0 for none: the first segment, or more at one end of it. */
  function SysAlloc(h: Heap, nb: nat, mapped: nat): Outcome
    requires BinsShape(h.store.bins)
  {
    var g, size := h.segment, SystemSize(nb);
    if size <= nb || mapped == 0 then Outcome(h, 0)
    else if g.top == 0 then FromTop(InitTop(h, mapped, size, mapped, SegmentTop(size)), nb)
    else if mapped == g.base + g.size then FromTop(InitTop(h, g.base, g.size + size, g.top, g.topsize + size), nb)
    else Prepend(h, mapped, size, nb)
  }

  /** What is left of a first segment for `top`. */
  function SegmentTop(size: nat): nat { if size < TOP_FOOT then 0 else size - TOP_FOOT }

  function FromTop(h: Heap, nb: nat): Outcome { if nb < h.segment.topsize then TakeTop(h, nb) else Outcome(h, 0) }

  // ---------------------------------------------------------------- the request

  const MAX_SMALL_REQUEST: nat := 232
  const MIN_REQUEST: nat := 23
  const MAX_REQUEST: nat := WORD - 128

  function Pad(bytes: nat): nat { (bytes + 8 + 15) / 16 * 16 }

  /** The chunk size that holds a request; a request too large asks for more than there can be. */
  function Request(bytes: nat): nat {
    if bytes < MIN_REQUEST then MIN_CHUNK else if bytes >= MAX_REQUEST then WORD - 1 else Pad(bytes)
  }

  datatype Choice = FromBin(addr: nat, size: nat) | NoBin

  function First(v: Trie): nat { if v.Nil? || v.chain == [] then 0 else v.chain[0] }

  /**
    The chunk in a bin that serves a request.  A small request takes a chunk that fits without
    rest, else `dv` if it is large enough, else the smallest that fits; a large one takes the
    best fit unless `dv` fits as well or better.
   */
  function Choose(b: Bins, dvsize: nat, nb: nat, small: bool): (r: Choice)
    requires BinsShape(b) && (small ==> nb / 8 + 1 < BINS)
    ensures r.FromBin? && small && nb + MIN_CHUNK <= r.size ==> IsSmall(dvsize)
  {
    if small then
      var idx := nb / 8;
      if b.smallmap[idx] || b.smallmap[idx + 1] then
        var i := if b.smallmap[idx] then idx else idx + 1;
        FromBin(FirstSmall(b, i), 8 * i)
      else if nb <= dvsize then NoBin
      else
        var i := NextUsed(b.smallmap, idx);
        if i < BINS then FromBin(FirstSmall(b, i), 8 * i)
        else if NextUsed(b.treemap, 0) < BINS then var v := LeastLarge(b, nb); FromTrie(v)
        else NoBin
    else if nb == WORD - 1 || NextUsed(b.treemap, 0) >= BINS then NoBin
    else
      var v := Best(b.trees, b.treemap, nb);
      if v.Node? && Remainder(v.size, nb) < (dvsize - nb) % WORD then FromTrie(v) else NoBin
  }

  function FirstSmall(b: Bins, i: nat): nat
    requires i < |b.small|
  {
    if b.small[i] == [] then 0 else b.small[i][0]
  }

  function FromTrie(v: Trie): Choice { if v.Nil? then NoBin else FromBin(First(v), v.size) }

  predicate IsSmallRequest(bytes: nat) { bytes <= MAX_SMALL_REQUEST }

  /** The chunk chosen always fits, as `ChooseExact` shows. */
  function Malloc(h: Heap, bytes: nat, mapped: nat): Outcome
    requires BinsShape(h.store.bins)
  {
    var nb, small := Request(bytes), IsSmallRequest(bytes);
    var c := Choose(h.store.bins, h.store.dvsize, nb, small);
    if c.FromBin? && nb <= c.size then TakeBinned(h, c.addr, c.size, nb, small)
    else if nb <= h.store.dvsize then TakeDv(h, nb)
    else if nb < h.segment.topsize then TakeTop(h, nb)
    else SysAlloc(h, nb, mapped)
  }

  // ---------------------------------------------------------------- the choice

  ghost predicate SizesOk(b: Bins)
    requires BinsShape(b)
  {
    forall c | c in Binned(b) :: c.size % 8 == 0 && c.size < LIMIT
  }

  /** `c` is a smallest chunk in a bin that fits. */
  ghost predicate BestIn(b: Bins, c: Chunk, nb: nat)
    requires BinsShape(b)
  {
    c in Binned(b) && nb <= c.size && forall x | x in Binned(b) && nb <= x.size :: c.size <= x.size
  }

  lemma SmallIsBinned(b: Bins, i: nat)
    requires BinsOk(b) && i < BINS && b.smallmap[i]
    ensures Chunk(b.small[i][0], 8 * i) in Binned(b)
  {
    var c := Chunk(b.small[i][0], 8 * i);
    SmallHas(b.small, BINS, i, c);
    InEither(SmallContent(b.small, BINS), AllContent(b.trees, BINS), c);
  }

  /** The next small bin in use has the smallest chunks that fit. */
  lemma NextSmallBest(b: Bins, nb: nat)
    requires BinsOk(b) && nb % 8 == 0 && nb / 8 < BINS && NextUsed(b.smallmap, nb / 8) < BINS
    ensures var i := NextUsed(b.smallmap, nb / 8); BestIn(b, Chunk(FirstSmall(b, i), 8 * i), nb)
  {
    var i := NextUsed(b.smallmap, nb / 8);
    NextUsedExact(b.smallmap, nb / 8);
    SmallIsBinned(b, i);
    forall x | x in Binned(b) && nb <= x.size ensures 8 * i <= x.size { SmallNotLess(b, nb, i, x); }
  }

  lemma SmallNotLess(b: Bins, nb: nat, i: nat, x: Chunk)
    requires BinsOk(b) && x in Binned(b) && nb <= x.size && i < BINS && forall k | nb / 8 <= k < i :: !b.smallmap[k]
    ensures 8 * i <= x.size
  {
    if x in SmallContent(b.small, BINS) {
      var j := SmallBinOf(b.small, BINS, x);
    } else {
      OwnContent(b.trees, b.treemap, x);
    }
  }

  /** With no small bin in use, a small request's best fit is the smallest large chunk. */
  lemma LeastLargeBest(b: Bins, nb: nat)
    requires BinsOk(b) && 0 < nb < 256 && NextUsed(b.smallmap, nb / 8) >= BINS && NextUsed(b.treemap, 0) < BINS
    ensures var v := LeastLarge(b, nb); v.Node? && BestIn(b, Chunk(First(v), v.size), nb)
  {
    var v := LeastLarge(b, nb);
    LeastLargeExact(b, nb);
    var c := Chunk(First(v), v.size);
    NextUsedExact(b.smallmap, nb / 8);
    OwnContent(b.trees, b.treemap, c);
    InEither(SmallContent(b.small, BINS), AllContent(b.trees, BINS), c);
    forall x | x in Binned(b) && nb <= x.size ensures c.size <= x.size {
      if x in SmallContent(b.small, BINS) { var j := SmallBinOf(b.small, BINS, x); assert false; }
    }
  }

  lemma NoSmallFits(b: Bins, nb: nat, x: Chunk)
    requires BinsOk(b) && 0 < nb < 256 && NextUsed(b.smallmap, nb / 8) >= BINS && NextUsed(b.treemap, 0) >= BINS && x in Binned(b)
    ensures x.size < nb
  {
    NextUsedExact(b.smallmap, nb / 8);
    NoTrees(b);
    var j := SmallBinOf(b.small, BINS, x);
  }

  lemma NoTrees(b: Bins)
    requires BinsOk(b) && NextUsed(b.treemap, 0) >= BINS
    ensures AllContent(b.trees, BINS) == multiset{}
  {
    NextUsedExact(b.treemap, 0);
    NoChunks(b.trees, BINS);
  }

  /** With both small bins for a request empty, every chunk of a bin that fits leaves a rest. */
  lemma NoneWithoutRest(b: Bins, nb: nat, x: Chunk)
    requires BinsOk(b) && nb % 8 == 0 && nb / 8 + 1 < BINS && !b.smallmap[nb / 8] && !b.smallmap[nb / 8 + 1]
    requires x in Binned(b) && nb <= x.size
    ensures x.size > nb + 8
  {
    if x in SmallContent(b.small, BINS) {
      var j := SmallBinOf(b.small, BINS, x);
    } else {
      OwnContent(b.trees, b.treemap, x);
    }
  }

  /** The chunk chosen for a small request. */
  lemma ChooseSmall(b: Bins, dvsize: nat, nb: nat)
    requires BinsOk(b) && nb % 8 == 0 && 0 < nb && nb / 8 + 1 < BINS
    ensures var r := Choose(b, dvsize, nb, true);
            && (r.FromBin? ==> BestIn(b, Chunk(r.addr, r.size), nb) && (r.size <= nb + 8 || dvsize < nb))
            && (r.NoBin? && dvsize < nb ==> forall x | x in Binned(b) :: x.size < nb)
            && (r.NoBin? ==> forall x | x in Binned(b) && nb <= x.size :: x.size > nb + 8)
  {
    var idx := nb / 8;
    var i := NextUsed(b.smallmap, idx);
    NextUsedExact(b.smallmap, idx);
    if Choose(b, dvsize, nb, true).NoBin? {
      forall x | x in Binned(b) && nb <= x.size ensures x.size > nb + 8 { NoneWithoutRest(b, nb, x); }
    }
    if i < BINS {
      NextSmallBest(b, nb);
    } else if dvsize < nb {
      if NextUsed(b.treemap, 0) < BINS {
        LeastLargeBest(b, nb);
      } else {
        forall x | x in Binned(b) ensures x.size < nb { NoSmallFits(b, nb, x); }
      }
    }
  }

  /** The chunk chosen for a large request. */
  lemma ChooseLarge(b: Bins, dvsize: nat, nb: nat)
    requires BinsOk(b) && SizesOk(b) && 256 <= nb < WORD && dvsize < LIMIT
    ensures var r := Choose(b, dvsize, nb, false);
            && (r.FromBin? ==> BestIn(b, Chunk(r.addr, r.size), nb) && (dvsize < nb || r.size < dvsize))
            && (r.NoBin? ==> forall x | x in Binned(b) && nb <= x.size :: nb <= dvsize <= x.size)
  {
    BestLarge(b, nb);
    var v := Best(b.trees, b.treemap, nb);
    if v.Node? { Margin(dvsize, nb, v.size); }
    if NextUsed(b.treemap, 0) >= BINS {
      forall x | x in Binned(b) ensures x.size < nb { OnlySmall(b, nb, x); }
    }
  }

  lemma OnlySmall(b: Bins, nb: nat, x: Chunk)
    requires BinsOk(b) && 256 <= nb && NextUsed(b.treemap, 0) >= BINS && x in Binned(b)
    ensures x.size < nb
  {
    NoTrees(b);
    var j := SmallBinOf(b.small, BINS, x);
  }

  /** The comparison of what is left over, as unsigned words. */
  lemma Margin(dvsize: nat, nb: nat, size: nat)
    requires dvsize < LIMIT && nb <= size < LIMIT
    ensures Remainder(size, nb) < (dvsize - nb) % WORD <==> dvsize < nb || size < dvsize
  {
    assert (size - nb) % WORD == size - nb;
    if dvsize < nb { assert (dvsize - nb) % WORD == WORD + dvsize - nb; } else { assert (dvsize - nb) % WORD == dvsize - nb; }
  }

  /** The search of the tries, for a request of any size. */
  lemma BestLarge(b: Bins, nb: nat)
    requires BinsOk(b) && SizesOk(b) && 256 <= nb < WORD
    ensures var v := Best(b.trees, b.treemap, nb);
            && (v.Node? ==> v.size < LIMIT && BestIn(b, Chunk(First(v), v.size), nb))
            && (v.Nil? ==> forall x | x in Binned(b) :: x.size < nb)
  {
    var v := Best(b.trees, b.treemap, nb);
    if nb < LIMIT {
      BestExact(b.trees, b.treemap, nb);
      BestChunk(b.trees, b.treemap, v, nb);
      if v.Node? { InEither(SmallContent(b.small, BINS), AllContent(b.trees, BINS), Chunk(First(v), v.size)); }
      forall x | x in SmallContent(b.small, BINS) ensures x.size < 256 { var j := SmallBinOf(b.small, BINS, x); }
    } else {
      AllSmaller(b, nb);
      NothingFits(b.trees, b.treemap, nb);
    }
  }

  lemma AllSmaller(b: Bins, nb: nat)
    requires BinsOk(b) && SizesOk(b) && LIMIT <= nb
    ensures forall i, s | 0 <= i < BINS && s in Sizes(b.trees[i]) :: s < nb
  {
    forall i, s | 0 <= i < BINS && s in Sizes(b.trees[i]) ensures s < nb {
      assert BinOk(i, b.trees[i]);
      var c := SizeHas(b.trees[i], BinBits(i), BinBase(i), s);
      AllHas(b.trees, BINS, i, c);
      InEither(SmallContent(b.small, BINS), AllContent(b.trees, BINS), c);
    }
  }

  lemma {:induction false} SizeHas(t: Trie, n: nat, lo: nat, s: nat) returns (c: Chunk)
    requires Fits(t, n, lo) && s in Sizes(t)
    ensures c in Content(t) && c.size == s
    decreases t
  {
    if s == t.size {
      c := Chunk(t.chain[0], s);
    } else if s in Sizes(t.left) {
      c := SizeHas(t.left, n - 1, lo, s);
    } else {
      c := SizeHas(t.right, n - 1, lo + Pow2(n - 1), s);
    }
  }
}
