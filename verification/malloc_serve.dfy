/** Every way to serve a request keeps the heap in order and hands out a chunk of its own. */
module MallocServe {
  import opened MallocTrie
  import opened MallocBins
  import opened MallocLarge
  import opened MallocSpans
  import opened MallocStore
  import opened MallocHeap
  import opened MallocAlloc

  /**
    The heap is in order with chunks `s'`: the chunk at `o.mem`, of `n` bytes for `nb`, is in use
    beside those that were, whose data nothing has changed.
   */
  ghost predicate Served(h: Heap, s: seq<Span>, o: Outcome, s': seq<Span>, nb: nat, n: nat) {
    && Good(o.heap, s') && SameData(h.mem, o.heap.mem, s)
    && o.mem > 16 && o.mem % 16 == 0 && nb <= n < nb + MIN_CHUNK
    && UsedOf(s') == UsedOf(s) + multiset{Chunk(o.mem - 16, n)}
  }

  predicate SizeOk(c: Chunk) { c.addr > 0 && c.addr % 16 == 0 && c.size % 16 == 0 && MIN_CHUNK <= c.size < LIMIT }

  /** Free chunks have sizes the bins are exact for. */
  lemma FreeSizes(m: Memory, s: seq<Span>, g: Segment)
    requires Laid(m, s, g)
    ensures forall c | c in FreeOf(s) :: SizeOk(c)
  {
    forall c | c in FreeOf(s) ensures SizeOk(c) { FreeAt(m, s, g, c); }
  }

  lemma BinnedFree(t: Store, free: multiset<Chunk>, c: Chunk)
    requires Filed(t, free)
    ensures c in Binned(t.bins) ==> c in free
    ensures t.dvsize > 0 ==> Chunk(t.dv, t.dvsize) in free
  {
    var b, d := Binned(t.bins), DvOf(t);
    if c in b { InEither(b, d, c); }
    if t.dvsize > 0 { InEither(b, d, Chunk(t.dv, t.dvsize)); }
  }

  lemma FiledSizes(t: Store, free: multiset<Chunk>)
    requires Filed(t, free) && forall c | c in free :: SizeOk(c)
    ensures SizesOk(t.bins) && t.dvsize < LIMIT && t.dvsize % 16 == 0 && (t.dvsize > 0 ==> Chunk(t.dv, t.dvsize) in free)
  {
    forall c | c in Binned(t.bins) ensures SizeOk(c) { BinnedFree(t, free, c); }
    BinnedFree(t, free, Chunk(0, 0));
  }

  lemma FineSize(size: nat)
    requires size % 16 == 0 && size < LIMIT
    ensures Fine(size)
  {
  }

  lemma Cancel(a: multiset<Chunk>, b: multiset<Chunk>, c: multiset<Chunk>)
    requires a + c == b + c
    ensures a == b
  {
    forall x ensures a[x] == b[x] { assert (a + c)[x] == (b + c)[x]; }
  }

  lemma Four(a: multiset<Chunk>, b: multiset<Chunk>, c: multiset<Chunk>, d: multiset<Chunk>)
    ensures ((a + b) + c) + d == ((a + d) + b) + c && ((a + c) + b) + d == ((a + d) + b) + c
  {
  }

  /** A chunk moves out of the bins, its rest moves in. */
  lemma Refile(bins: multiset<Chunk>, less: multiset<Chunk>, dv: multiset<Chunk>, c: multiset<Chunk>, rest: multiset<Chunk>,
               free: multiset<Chunk>, free': multiset<Chunk>)
    requires less + c == bins && bins + dv == free && free' + c == free + rest
    ensures (less + dv) + rest == free' && (less + rest) + dv == free' && (rest == multiset{} ==> less + dv == free')
  {
    Four(less, dv, rest, c);
    Cancel((less + dv) + rest, free', c);
    Cancel((less + rest) + dv, free', c);
  }

  /** Filing the rest of a chunk. */
  lemma RestFiled(t: Store, d: multiset<Chunk>, rest: multiset<Chunk>, p: nat, size: nat, small: bool, free: multiset<Chunk>)
    requires BinsOk(t.bins) && size % 16 == 0 && 0 < size < LIMIT && t.dvsize % 16 == 0 && (small ==> IsSmall(t.dvsize)) && (t.dvsize == 0 ==> t.dv == 0)
    requires d == DvOf(t) && rest == multiset{Chunk(p, size)} && (Binned(t.bins) + d) + rest == free && (Binned(t.bins) + rest) + d == free
    ensures Filed(FileRest(t, p, size, small), free)
  {
    if small {
      if t.dvsize > 0 { SmallAdded(t.bins, t.dv, t.dvsize); }
    } else {
      FineSize(size);
      Added(t.bins, p, size);
    }
  }

  /** The bins without a chunk, for the rest of it and the other free chunks. */
  lemma LessFiled(t: Store, bins: Bins, c: Chunk, rest: multiset<Chunk>, free: multiset<Chunk>, free': multiset<Chunk>)
    requires Filed(t, free) && c in Binned(t.bins) && SizeOk(c) && bins == Less(t.bins, c.addr, c.size) && free' + multiset{c} == free + rest
    ensures var b, d := Binned(bins), DvOf(t);
            BinsOk(bins) && (b + d) + rest == free' && (b + rest) + d == free' && (rest == multiset{} ==> b + d == free')
  {
    FineSize(c.size);
    Removed(t.bins, c.addr, c.size);
    Refile(Binned(t.bins), Binned(bins), DvOf(t), multiset{c}, rest, free, free');
  }

  /** All of a chunk of a bin serves a request. */
  lemma TakeAllFiled(t: Store, c: Chunk, nb: nat, free: multiset<Chunk>, free': multiset<Chunk>)
    requires Filed(t, free) && c in Binned(t.bins) && SizeOk(c) && nb <= c.size < nb + MIN_CHUNK
    requires free' + multiset{c} == free + RestOf(c, nb)
    ensures Filed(t.(bins := Less(t.bins, c.addr, c.size)), free')
  {
    LessFiled(t, Less(t.bins, c.addr, c.size), c, RestOf(c, nb), free, free');
  }

  /** Part of it does, and the rest is filed. */
  lemma TakePartFiled(t: Store, c: Chunk, nb: nat, small: bool, free: multiset<Chunk>, free': multiset<Chunk>)
    requires Filed(t, free) && c in Binned(t.bins) && SizeOk(c) && nb % 16 == 0 && MIN_CHUNK <= nb && nb + MIN_CHUNK <= c.size
    requires t.dvsize % 16 == 0 && (small ==> IsSmall(t.dvsize)) && free' + multiset{c} == free + RestOf(c, nb)
    ensures Filed(FileRest(t.(bins := Less(t.bins, c.addr, c.size)), c.addr + nb, c.size - nb, small), free')
  {
    var less, rest := t.(bins := Less(t.bins, c.addr, c.size)), multiset{Chunk(c.addr + nb, c.size - nb)};
    assert RestOf(c, nb) == rest;
    LessFiled(t, less.bins, c, rest, free, free');
    RestFiled(less, DvOf(t), rest, c.addr + nb, c.size - nb, small, free');
  }

  lemma CarvedServes(h: Heap, s: seq<Span>, o: Outcome, c: Chunk, nb: nat)
    requires Laid(h.mem, s, h.segment) && c in FreeOf(s) && nb % 16 == 0 && MIN_CHUNK <= nb <= c.size
    requires o.heap.mem == CarveMem(h.mem, c.addr, c.size, nb) && o.heap.segment == h.segment && o.mem == c.addr + 16
    requires Filed(o.heap.store, FreeOf(CarvedIn(s, c, nb)))
    ensures Served(h, s, o, CarvedIn(s, c, nb), nb, TakenSize(c.size, nb))
  {
    assert SizeOk(c) by { FreeSizes(h.mem, s, h.segment); }
    assert UsedOf(CarvedIn(s, c, nb)) == UsedOf(s) + multiset{Chunk(c.addr, TakenSize(c.size, nb))} by { CarvesExactly(s, c, nb); }
    Carves(h.mem, s, h.segment, c, nb);
  }

  lemma TakeAllServes(h: Heap, s: seq<Span>, o: Outcome, c: Chunk, nb: nat, n: nat)
    requires Laid(h.mem, s, h.segment) && Filed(h.store, FreeOf(s)) && c in FreeOf(s) && c in Binned(h.store.bins) && SizeOk(c)
    requires nb % 16 == 0 && MIN_CHUNK <= nb <= c.size < nb + MIN_CHUNK && n == TakenSize(c.size, nb)
    requires o.heap.mem == CarveMem(h.mem, c.addr, c.size, nb) && o.heap.segment == h.segment && o.mem == c.addr + 16
    requires o.heap.store == h.store.(bins := Less(h.store.bins, c.addr, c.size))
    ensures Served(h, s, o, CarvedIn(s, c, nb), nb, n)
  {
    var free' := FreeOf(CarvedIn(s, c, nb));
    assert free' + multiset{c} == FreeOf(s) + RestOf(c, nb) by { CarvesExactly(s, c, nb); }
    TakeAllFiled(h.store, c, nb, FreeOf(s), free');
    CarvedServes(h, s, o, c, nb);
  }

  lemma TakePartServes(h: Heap, s: seq<Span>, o: Outcome, c: Chunk, nb: nat, small: bool, n: nat)
    requires Laid(h.mem, s, h.segment) && Filed(h.store, FreeOf(s)) && c in FreeOf(s) && c in Binned(h.store.bins) && SizeOk(c)
    requires nb % 16 == 0 && MIN_CHUNK <= nb && nb + MIN_CHUNK <= c.size && n == TakenSize(c.size, nb) && h.store.dvsize % 16 == 0 && (small ==> IsSmall(h.store.dvsize))
    requires o.heap.mem == CarveMem(h.mem, c.addr, c.size, nb) && o.heap.segment == h.segment && o.mem == c.addr + 16
    requires o.heap.store == FileRest(h.store.(bins := Less(h.store.bins, c.addr, c.size)), c.addr + nb, c.size - nb, small)
    ensures Served(h, s, o, CarvedIn(s, c, nb), nb, n)
  {
    var t := o.heap.store;
    assert Filed(t, FreeOf(CarvedIn(s, c, nb))) by {
      CarvesExactly(s, c, nb);
      TakePartFiled(h.store, c, nb, small, FreeOf(s), FreeOf(CarvedIn(s, c, nb)));
    }
    CarvedServes(h, s, o, c, nb);
  }

  lemma ServeSizes(h: Heap, s: seq<Span>, c: Chunk)
    requires Laid(h.mem, s, h.segment) && Filed(h.store, FreeOf(s)) && c in FreeOf(s)
    ensures SizeOk(c) && h.store.dvsize % 16 == 0
  {
    FreeSizes(h.mem, s, h.segment);
    FiledSizes(h.store, FreeOf(s));
  }

  lemma TakeBinnedServes(h: Heap, s: seq<Span>, c: Chunk, nb: nat, small: bool, o: Outcome, n: nat)
    requires Laid(h.mem, s, h.segment) && Filed(h.store, FreeOf(s)) && c in FreeOf(s) && c in Binned(h.store.bins)
    requires nb % 16 == 0 && MIN_CHUNK <= nb <= c.size && (small && nb + MIN_CHUNK <= c.size ==> IsSmall(h.store.dvsize))
    requires o == TakeBinned(h, c.addr, c.size, nb, small) && n == TakenSize(c.size, nb)
    ensures Served(h, s, o, CarvedIn(s, c, nb), nb, n)
  {
    ServeSizes(h, s, c);
    if c.size - nb < MIN_CHUNK { TakeAllServes(h, s, o, c, nb, n); } else { TakePartServes(h, s, o, c, nb, small, n); }
  }

  lemma DvFiled(t: Store, t': Store, c: Chunk, rest: multiset<Chunk>, free: multiset<Chunk>, free': multiset<Chunk>)
    requires Filed(t, free) && t.dvsize > 0 && c == Chunk(t.dv, t.dvsize) && free' + multiset{c} == free + rest
    requires t'.bins == t.bins && DvOf(t') == rest && (t'.dvsize == 0 ==> t'.dv == 0)
    ensures Filed(t', free')
  {
    var b, d := Binned(t.bins), multiset{c};
    assert (b + rest) + d == (b + d) + rest;
    Cancel(b + rest, free', d);
  }

  lemma TakeDvServes(h: Heap, s: seq<Span>, c: Chunk, nb: nat)
    requires Laid(h.mem, s, h.segment) && Filed(h.store, FreeOf(s)) && c == Chunk(h.store.dv, h.store.dvsize) && c in FreeOf(s)
    requires nb % 16 == 0 && MIN_CHUNK <= nb <= c.size
    ensures Served(h, s, TakeDv(h, nb), CarvedIn(s, c, nb), nb, TakenSize(c.size, nb))
  {
    assert Filed(TakeDv(h, nb).heap.store, FreeOf(CarvedIn(s, c, nb))) by {
      CarvesExactly(s, c, nb);
      DvFiled(h.store, TakeDv(h, nb).heap.store, c, RestOf(c, nb), FreeOf(s), FreeOf(CarvedIn(s, c, nb)));
    }
    CarvedServes(h, s, TakeDv(h, nb), c, nb);
  }

  // ---------------------------------------------------------------- top

  /** A change above the chunks leaves them and their data. */
  lemma AboveTiles(m: Memory, m': Memory, s: seq<Span>, base: nat, top: nat)
    requires Tiles(m, s, base, top) && Agree(m, m', base, top)
    ensures Tiles(m', s, base, top) && SameData(m, m', s)
  {
    RunFrame(m, m', s, base, true);
    DataBefore(m, m', s, base, true);
  }

  /** One chunk more at the end. */
  lemma TilesMore(m: Memory, s: seq<Span>, base: nat, top: nat, x: Span)
    requires Tiles(m, s, base, top) && x.used && SpanOk(m, x, top, true)
    ensures Tiles(m, s + [x], base, top + x.size)
  {
    RunOne(m, x, top, true);
    Join(m, s, [x], base, true);
    Joint(s, [x], base, true);
  }

  lemma TopTiles(m: Memory, s: seq<Span>, g: Segment, nb: nat)
    requires Laid(m, s, g) && nb % 16 == 0 && MIN_CHUNK <= nb < g.topsize
    ensures var m' := UsePart(SetHead(m, g.top + nb, g.topsize - nb + 1), g.top, nb);
            && Laid(m', s + [Span(g.top, nb, true)], g.(top := g.top + nb, topsize := g.topsize - nb))
            && SameData(m, m', s)
  {
    var m' := UsePart(SetHead(m, g.top + nb, g.topsize - nb + 1), g.top, nb);
    var x := Span(g.top, nb, true);
    TopHeads(m, m', g, nb, x);
    AboveTiles(m, m', s, g.base, g.top);
    TilesMore(m', s, g.base, g.top, x);
  }

  lemma TopHeads(m: Memory, m': Memory, g: Segment, nb: nat, x: Span)
    requires TopOk(m, g.top, g.topsize) && nb % 16 == 0 && MIN_CHUNK <= nb < g.topsize && x == Span(g.top, nb, true)
    requires m' == UsePart(SetHead(m, g.top + nb, g.topsize - nb + 1), g.top, nb)
    ensures SpanOk(m', x, g.top, true) && TopOk(m', g.top + nb, g.topsize - nb) && forall a: nat | a <= g.top :: Word(m', a) == Word(m, a)
  {
  }

  lemma OneUsed(s: seq<Span>, x: Span)
    requires x.used
    ensures FreeOf(s + [x]) == FreeOf(s) && UsedOf(s + [x]) == UsedOf(s) + multiset{Chunk(x.addr, x.size)}
  {
    Concat(s, [x]);
    One(x);
  }

  lemma TakeTopServes(h: Heap, s: seq<Span>, nb: nat)
    requires Laid(h.mem, s, h.segment) && Filed(h.store, FreeOf(s)) && nb % 16 == 0 && MIN_CHUNK <= nb < h.segment.topsize
    ensures Served(h, s, TakeTop(h, nb), s + [Span(h.segment.top, nb, true)], nb, nb)
  {
    var g, x := h.segment, Span(h.segment.top, nb, true);
    TopTiles(h.mem, s, g, nb);
    assert g.top % 16 == 0 && g.top > 0 by { EndsAfter(h.mem, s, g.base, true); }
    assert FreeOf(s + [x]) == FreeOf(s) && UsedOf(s + [x]) == UsedOf(s) + multiset{Chunk(g.top, nb)} by { OneUsed(s, x); }
  }

  // ---------------------------------------------------------------- memory from the system

  /** What the system may answer: nothing, or memory that fits the model's one segment. */
  predicate Answer(h: Heap, nb: nat, mapped: nat) {
    var g, size := h.segment, SystemSize(nb);
    mapped != 0 && nb < size ==>
      && mapped % 16 == 0 && g.size + size <= LIMIT
      && (g.top == 0 || mapped == g.base + g.size || mapped + size == g.base)
  }

  lemma SystemSizeExact(nb: nat)
    requires nb < WORD
    ensures var size := SystemSize(nb);
            && size % 0x1_0000 == 0 && size % 16 == 0
            && if nb + 96 + 0xffff < WORD then nb + 96 <= size < nb + 96 + 0x1_0000 else size <= nb
  {
    var n := nb + TOP_FOOT + 16 + GRAIN - 1;
    Grains(n % WORD, n % WORD / GRAIN);
    if n < WORD {
      assert n % WORD == n;
    } else {
      assert n % WORD == n - WORD;
    }
  }

  lemma Grains(m: nat, k: nat)
    requires k == m / GRAIN
    ensures k * GRAIN % 16 == 0 && k * GRAIN % GRAIN == 0 && k * GRAIN <= m < k * GRAIN + GRAIN
  {
  }

  /** A first segment is all `top`. */
  lemma InitLaid(h: Heap, mapped: nat, size: nat)
    requires mapped > 0 && mapped % 16 == 0 && size % 16 == 0 && TOP_FOOT < size <= LIMIT
    ensures var h' := InitTop(h, mapped, size, mapped, size - TOP_FOOT); Laid(h'.mem, [], h'.segment)
  {
  }

  lemma ExtendLaid(h: Heap, s: seq<Span>, size: nat)
    requires Laid(h.mem, s, h.segment) && size % 16 == 0 && h.segment.size + size <= LIMIT
    ensures var g := h.segment; var h' := InitTop(h, g.base, g.size + size, g.top, g.topsize + size);
            Laid(h'.mem, s, h'.segment) && SameData(h.mem, h'.mem, s)
  {
    var g := h.segment;
    var h' := InitTop(h, g.base, g.size + size, g.top, g.topsize + size);
    AboveTiles(h.mem, h'.mem, s, g.base, g.top);
  }
}
