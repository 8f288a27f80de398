/** What every allocation and every free keeps and gives, and what holds after any run of them. */
module MallocRuns {
  import opened MallocTrie
  import opened MallocBins
  import opened MallocLarge
  import opened MallocSpans
  import opened MallocStore
  import opened MallocHeap
  import opened MallocAlloc
  import opened MallocServe
  import opened MallocFree
  import opened MallocGrow

  // ---------------------------------------------------------------- the size of a request

  /** The chunk size a request needs: the least multiple of 16, from 32 on, that is 8 bytes more than asked. */
  predicate IsNeeded(bytes: nat, nb: nat) { nb % 16 == 0 && nb >= 32 && nb >= bytes + 8 && (nb == 32 || nb < bytes + 24) }

  lemma RequestExact(bytes: nat)
    ensures if bytes < 0xffff_ffff_ffff_ff80 then IsNeeded(bytes, Request(bytes)) else Request(bytes) == WORD - 1
    ensures var nb := Request(bytes); MIN_CHUNK <= nb < WORD && (bytes < MAX_REQUEST ==> nb % 16 == 0 && bytes + 8 <= nb < bytes + 33)
    ensures IsSmallRequest(bytes) ==> Request(bytes) <= 240
    ensures !IsSmallRequest(bytes) ==> Request(bytes) >= 256 && (Request(bytes) == WORD - 1 <==> bytes >= MAX_REQUEST)
  {
  }

  // ---------------------------------------------------------------- memory from the system

  lemma DataTrans(m: Memory, m1: Memory, m2: Memory, s: seq<Span>)
    requires SameData(m, m1, s) && SameData(m1, m2, s)
    ensures SameData(m, m2, s)
  {
    forall i: nat | i < |s| ensures SameIn(m, m2, s[i]) {
      assert SameIn(m, m1, s[i]) && SameIn(m1, m2, s[i]);
    }
  }

  /** Memory is granted, and rounding up what to ask for does not wrap around. */
  predicate Granted(nb: nat, mapped: nat) { mapped != 0 && nb + 96 + 0xffff < 0x1_0000_0000_0000_0000 }

  lemma FirstSegment(h: Heap, nb: nat, mapped: nat) returns (s': seq<Span>)
    requires Bare(h, []) && Filed(h.store, multiset{}) && nb % 16 == 0 && MIN_CHUNK <= nb < WORD && Answer(h, nb, mapped) && Granted(nb, mapped)
    ensures Served(h, [], SysAlloc(h, nb, mapped), s', nb, nb)
  {
    SystemSizeExact(nb);
    var size := SystemSize(nb);
    var h1 := InitTop(h, mapped, size, mapped, size - TOP_FOOT);
    InitLaid(h, mapped, size);
    TakeTopServes(h1, [], nb);
    s' := [] + [Span(mapped, nb, true)];
    DataTrans(h.mem, h1.mem, TakeTop(h1, nb).heap.mem, []);
  }

  /** Serving from `top` once it has grown. */
  lemma TopServes(h: Heap, h1: Heap, s: seq<Span>, nb: nat) returns (s': seq<Span>)
    requires Laid(h1.mem, s, h1.segment) && Filed(h1.store, FreeOf(s)) && SameData(h.mem, h1.mem, s)
    requires nb % 16 == 0 && MIN_CHUNK <= nb < h1.segment.topsize
    ensures Served(h, s, TakeTop(h1, nb), s', nb, nb)
  {
    TakeTopServes(h1, s, nb);
    s' := s + [Span(h1.segment.top, nb, true)];
    DataTrans(h.mem, h1.mem, TakeTop(h1, nb).heap.mem, s);
  }

  lemma Extended(h: Heap, s: seq<Span>, nb: nat, mapped: nat) returns (s': seq<Span>)
    requires Laid(h.mem, s, h.segment) && Filed(h.store, FreeOf(s)) && nb % 16 == 0 && MIN_CHUNK <= nb < WORD
    requires Answer(h, nb, mapped) && Granted(nb, mapped) && mapped == h.segment.base + h.segment.size && h.segment.top != 0
    ensures Served(h, s, SysAlloc(h, nb, mapped), s', nb, nb)
  {
    SystemSizeExact(nb);
    var g, size := h.segment, SystemSize(nb);
    var h1 := InitTop(h, g.base, g.size + size, g.top, g.topsize + size);
    ExtendLaid(h, s, size);
    assert SysAlloc(h, nb, mapped) == TakeTop(h1, nb);
    s' := TopServes(h, h1, s, nb);
  }

  lemma Prepended(h: Heap, s: seq<Span>, nb: nat, mapped: nat) returns (s': seq<Span>)
    requires Laid(h.mem, s, h.segment) && Filed(h.store, FreeOf(s)) && nb % 16 == 0 && MIN_CHUNK <= nb < WORD
    requires Answer(h, nb, mapped) && Granted(nb, mapped) && mapped + SystemSize(nb) == h.segment.base && h.segment.top != 0
    ensures Served(h, s, SysAlloc(h, nb, mapped), s', nb, nb)
  {
    SystemSizeExact(nb);
    var size := SystemSize(nb);
    assert Prepending(h, s, mapped, size, nb);
    if s == [] {
      PrependTop(h, mapped, size, nb);
      s' := [Span(mapped, nb, true)];
    } else if s[0].used {
      s' := PrependUsed(h, s, mapped, size, nb);
    } else {
      s' := PrependFree(h, s, mapped, size, nb);
    }
  }

  /** Memory from the system serves the request whenever it is granted. */
  lemma SystemServes(h: Heap, s: seq<Span>, nb: nat, mapped: nat) returns (s': seq<Span>)
    requires Good(h, s) && nb % 16 == 0 && MIN_CHUNK <= nb < WORD && Answer(h, nb, mapped) && Granted(nb, mapped)
    ensures Served(h, s, SysAlloc(h, nb, mapped), s', nb, nb)
  {
    if Laid(h.mem, s, h.segment) {
      EndsAfter(h.mem, s, h.segment.base, true);
      if mapped == h.segment.base + h.segment.size { s' := Extended(h, s, nb, mapped); } else { s' := Prepended(h, s, nb, mapped); }
    } else {
      s' := FirstSegment(h, nb, mapped);
    }
  }

  lemma NotGranted(h: Heap, nb: nat, mapped: nat)
    requires !Granted(nb, mapped) && nb < WORD && BinsShape(h.store.bins)
    ensures SysAlloc(h, nb, mapped) == Outcome(h, 0)
  {
    SystemSizeExact(nb);
  }

  /** A request too large for any chunk is never granted. */
  lemma TooLarge(mapped: nat)
    ensures !Granted(WORD - 1, mapped)
  {
    SystemSizeExact(WORD - 1);
  }

  // ---------------------------------------------------------------- allocation

  /** No free chunk, nor `top`, nor the system has room for `nb`. */
  ghost predicate NoRoom(h: Heap, s: seq<Span>, nb: nat, mapped: nat) {
    (forall c | c in FreeOf(s) :: c.size < nb) && h.segment.topsize <= nb && !Granted(nb, mapped)
  }

  /** A small request's chunk has the best size in any bin, or `dv` is large enough and no bin has one that fits without rest. */
  ghost predicate SmallChoice(h: Heap, nb: nat, r: Choice)
    requires BinsShape(h.store.bins)
  {
    var b, dvsize := h.store.bins, h.store.dvsize;
    && (r.FromBin? ==> BestIn(b, Chunk(r.addr, r.size), nb) && (r.size <= nb + 8 || dvsize < nb))
    && (r.NoBin? && dvsize < nb ==> forall x | x in Binned(b) :: x.size < nb)
    && (r.NoBin? ==> forall x | x in Binned(b) && nb <= x.size :: x.size > nb + 8)
  }

  ghost predicate LargeChoice(h: Heap, nb: nat, r: Choice)
    requires BinsShape(h.store.bins)
  {
    var b, dvsize := h.store.bins, h.store.dvsize;
    && (r.FromBin? ==> BestIn(b, Chunk(r.addr, r.size), nb) && (dvsize < nb || r.size < dvsize))
    && (r.NoBin? ==> forall x | x in Binned(b) && nb <= x.size :: nb <= dvsize <= x.size)
  }

  function ChoiceOf(h: Heap, bytes: nat): Choice
    requires BinsShape(h.store.bins)
  {
    RequestExact(bytes);
    Choose(h.store.bins, h.store.dvsize, Request(bytes), IsSmallRequest(bytes))
  }

  lemma NothingFree(h: Heap)
    requires Bare(h, []) && Filed(h.store, FreeOf([]))
    ensures Binned(h.store.bins) == multiset{} && h.store.dvsize == 0
  {
    var b, d := Binned(h.store.bins), DvOf(h.store);
    assert FreeOf([]) == multiset{};
    if h.store.dvsize > 0 { InEither(b, d, Chunk(h.store.dv, h.store.dvsize)); }
    forall x ensures b[x] == 0 { assert (b + d)[x] == 0; }
  }

  lemma StoreSizes(h: Heap, s: seq<Span>)
    requires Good(h, s)
    ensures SizesOk(h.store.bins) && h.store.dvsize < LIMIT && h.store.dvsize % 16 == 0
    ensures h.store.dvsize > 0 ==> Laid(h.mem, s, h.segment) && Chunk(h.store.dv, h.store.dvsize) in FreeOf(s)
    ensures forall c | c in Binned(h.store.bins) :: c in FreeOf(s) && Laid(h.mem, s, h.segment)
  {
    if Laid(h.mem, s, h.segment) {
      FreeSizes(h.mem, s, h.segment);
      FiledSizes(h.store, FreeOf(s));
      forall c | c in Binned(h.store.bins) ensures c in FreeOf(s) { InEither(Binned(h.store.bins), DvOf(h.store), c); }
    } else {
      NothingFree(h);
    }
  }

  lemma ChoiceExact(h: Heap, s: seq<Span>, bytes: nat)
    requires Good(h, s)
    ensures var nb, r := Request(bytes), ChoiceOf(h, bytes);
            (if IsSmallRequest(bytes) then SmallChoice(h, nb, r) else LargeChoice(h, nb, r)) && (nb == WORD - 1 ==> r.NoBin?)
  {
    RequestExact(bytes);
    StoreSizes(h, s);
    if IsSmallRequest(bytes) {
      ChooseSmall(h.store.bins, h.store.dvsize, Request(bytes));
    } else {
      ChooseLarge(h.store.bins, h.store.dvsize, Request(bytes));
    }
  }

  /** A chunk that is free is in a bin or `dv`. */
  lemma FreeOrDv(h: Heap, s: seq<Span>, c: Chunk)
    requires Good(h, s) && c in FreeOf(s)
    ensures c in Binned(h.store.bins) || (c == Chunk(h.store.dv, h.store.dvsize) && h.store.dvsize > 0)
  {
  }

  lemma BinServes(h: Heap, s: seq<Span>, bytes: nat, mapped: nat) returns (s': seq<Span>)
    requires Good(h, s) && ChoiceOf(h, bytes).FromBin?
    ensures var r := ChoiceOf(h, bytes);
            Request(bytes) <= r.size && Served(h, s, Malloc(h, bytes, mapped), s', Request(bytes), TakenSize(r.size, Request(bytes)))
  {
    var r, nb, small := ChoiceOf(h, bytes), Request(bytes), IsSmallRequest(bytes);
    var c := Chunk(r.addr, r.size);
    RequestExact(bytes);
    ChoiceExact(h, s, bytes);
    StoreSizes(h, s);
    TakeBinnedServes(h, s, c, nb, small, Malloc(h, bytes, mapped), TakenSize(r.size, nb));
    s' := CarvedIn(s, c, nb);
  }

  lemma DvServes(h: Heap, s: seq<Span>, bytes: nat, mapped: nat) returns (s': seq<Span>)
    requires Good(h, s) && ChoiceOf(h, bytes).NoBin? && Request(bytes) <= h.store.dvsize
    ensures Served(h, s, Malloc(h, bytes, mapped), s', Request(bytes), TakenSize(h.store.dvsize, Request(bytes)))
  {
    var c := Chunk(h.store.dv, h.store.dvsize);
    RequestExact(bytes);
    StoreSizes(h, s);
    TakeDvServes(h, s, c, Request(bytes));
    s' := CarvedIn(s, c, Request(bytes));
  }

  lemma TopTaken(h: Heap, s: seq<Span>, bytes: nat, mapped: nat) returns (s': seq<Span>)
    requires Good(h, s) && ChoiceOf(h, bytes).NoBin? && h.store.dvsize < Request(bytes) < h.segment.topsize
    ensures Served(h, s, Malloc(h, bytes, mapped), s', Request(bytes), Request(bytes))
  {
    RequestExact(bytes);
    EndsAfter(h.mem, s, h.segment.base, true);
    s' := TopServes(h, h, s, Request(bytes));
  }

  lemma SystemTaken(h: Heap, s: seq<Span>, bytes: nat, nb: nat, mapped: nat) returns (s': seq<Span>)
    requires Good(h, s) && nb == Request(bytes) && ChoiceOf(h, bytes).NoBin? && h.store.dvsize < nb && h.segment.topsize <= nb
    requires Answer(h, nb, mapped) && Granted(nb, mapped)
    ensures Served(h, s, Malloc(h, bytes, mapped), s', nb, nb)
  {
    RequestExact(bytes);
    TooLarge(mapped);
    SystemCalled(h, bytes, nb, mapped);
    s' := SystemServes(h, s, nb, mapped);
  }

  lemma SystemCalled(h: Heap, bytes: nat, nb: nat, mapped: nat)
    requires BinsShape(h.store.bins) && nb == Request(bytes) && ChoiceOf(h, bytes).NoBin? && h.store.dvsize < nb && h.segment.topsize <= nb
    ensures Malloc(h, bytes, mapped) == SysAlloc(h, nb, mapped)
  {
  }

  /** An allocation fails exactly if nothing has room, and then changes nothing. */
  lemma MallocFails(h: Heap, s: seq<Span>, bytes: nat, mapped: nat)
    requires Good(h, s) && NoRoom(h, s, Request(bytes), mapped)
    ensures Malloc(h, bytes, mapped) == Outcome(h, 0)
  {
    RequestExact(bytes);
    ChoiceExact(h, s, bytes);
    StoreSizes(h, s);
    NotGranted(h, Request(bytes), mapped);
  }

  /** Unless nothing has room, an allocation gives a chunk. */
  lemma MallocServes(h: Heap, s: seq<Span>, bytes: nat, mapped: nat) returns (s': seq<Span>, n: nat)
    requires Good(h, s) && Answer(h, Request(bytes), mapped) && !NoRoom(h, s, Request(bytes), mapped)
    ensures Served(h, s, Malloc(h, bytes, mapped), s', Request(bytes), n)
  {
    var nb, r := Request(bytes), ChoiceOf(h, bytes);
    ChoiceExact(h, s, bytes);
    if r.FromBin? {
      n := TakenSize(r.size, nb);
      s' := BinServes(h, s, bytes, mapped);
    } else if nb <= h.store.dvsize {
      n := TakenSize(h.store.dvsize, nb);
      s' := DvServes(h, s, bytes, mapped);
    } else {
      n := nb;
      if nb < h.segment.topsize {
        s' := TopTaken(h, s, bytes, mapped);
      } else {
        NoneFree(h, s, bytes);
        s' := SystemTaken(h, s, bytes, nb, mapped);
      }
    }
  }

  /** With nothing chosen and `dv` too small, no free chunk fits. */
  lemma NoneFree(h: Heap, s: seq<Span>, bytes: nat)
    requires Good(h, s) && ChoiceOf(h, bytes).NoBin? && h.store.dvsize < Request(bytes)
    ensures forall c | c in FreeOf(s) :: c.size < Request(bytes)
  {
    ChoiceExact(h, s, bytes);
    forall c | c in FreeOf(s) ensures c.size < Request(bytes) { FreeOrDv(h, s, c); }
  }

  /** A chunk of the size needed or 16 bytes more, aligned, as its head says; it comes beside those in use, whose data is untouched. */
  ghost predicate Gives(h: Heap, o: Outcome, bytes: nat) {
    && o.mem > 16 && o.mem % 16 == 0 && SameData(h.mem, o.heap.mem, Chunks(h))
    && var n := ChunkSize(Head(o.heap.mem, o.mem - 16));
       IsNeeded(bytes, Request(bytes)) && (n == Request(bytes) || n == Request(bytes) + 16) && Used(o.heap) == Used(h) + multiset{Chunk(o.mem - 16, n)}
  }

  /** Every allocation keeps the heap in order; it fails exactly if nothing has room, and else gives a new chunk. */
  lemma MallocKeeps(h: Heap, bytes: nat, mapped: nat)
    requires HeapOk(h) && Answer(h, Request(bytes), mapped)
    ensures var o := Malloc(h, bytes, mapped);
            && HeapOk(o.heap) && (o.mem == 0 <==> NoRoom(h, Chunks(h), Request(bytes), mapped))
            && (bytes >= 0xffff_ffff_ffff_ff80 ==> o.mem == 0)
            && if o.mem == 0 then o.heap == h else Gives(h, o, bytes)
  {
    var s := Chunks(h);
    if NoRoom(h, s, Request(bytes), mapped) {
      MallocFails(h, s, bytes, mapped);
    } else {
      var s', n := MallocServes(h, s, bytes, mapped);
      ServedGives(h, s, bytes, Malloc(h, bytes, mapped), s', n);
    }
  }

  /** A chunk in use lies in the segment, and its head has its size. */
  lemma UsedReads(h: Heap, s: seq<Span>, c: Chunk)
    requires Good(h, s) && c in UsedOf(s)
    ensures Laid(h.mem, s, h.segment) && ChunkSize(Head(h.mem, c.addr)) == c.size && MIN_CHUNK <= c.size < LIMIT && c.size % 16 == 0
  {
    Member(s, c);
    var k :| 0 <= k < |s| && s[k] == Span(c.addr, c.size, true);
    RunAround(h.mem, s, h.segment.base, k);
    HeadReadsAt(h.mem, s[k], c.addr, After(s[..k], true));
  }

  lemma ServedReads(h: Heap, s: seq<Span>, o: Outcome, s': seq<Span>, nb: nat, n: nat)
    requires Served(h, s, o, s', nb, n)
    ensures Chunks(o.heap) == s' && ChunkSize(Head(o.heap.mem, o.mem - 16)) == n < LIMIT && n % 16 == 0
  {
    var c := Chunk(o.mem - 16, n);
    GoodChunks(o.heap, s');
    InEither(UsedOf(s), multiset{c}, c);
    UsedReads(o.heap, s', c);
  }

  lemma ServedGives(h: Heap, s: seq<Span>, bytes: nat, o: Outcome, s': seq<Span>, n: nat)
    requires s == Chunks(h) && Served(h, s, o, s', Request(bytes), n)
    ensures HeapOk(o.heap) && o.mem != 0 && Gives(h, o, bytes) && bytes < 0xffff_ffff_ffff_ff80
  {
    ServedReads(h, s, o, s', Request(bytes), n);
    RequestExact(bytes);
  }

  /** Every free keeps the heap in order, takes exactly its chunk out of use, and leaves the data in the others. */
  lemma FreeHeapKeeps(h: Heap, c: Chunk, mem: nat)
    requires HeapOk(h) && c in Used(h) && mem == c.addr + 16
    ensures var h' := Free(h, mem);
            HeapOk(h') && Used(h') + multiset{c} == Used(h) && SameData(h.mem, h'.mem, Chunks(h'))
  {
    var s := Chunks(h);
    if !Laid(h.mem, s, h.segment) { Member(s, c); }
    var s' := FreeKeeps(h, s, c);
    GoodChunks(Free(h, c.addr + 16), s');
  }

  // ---------------------------------------------------------------- which chunk

  /** `c` is a smallest free chunk, `dv` and those in bins, that fits. */
  ghost predicate BestFree(h: Heap, c: Chunk, nb: nat) {
    c in FreeChunks(h) && nb <= c.size && forall x | x in FreeChunks(h) && nb <= x.size :: c.size <= x.size
  }

  /** A large request is served from the start of a smallest free chunk that fits, if any fits. */
  lemma LargeBest(h: Heap, bytes: nat, mapped: nat)
    requires HeapOk(h) && !IsSmallRequest(bytes) && exists c :: c in FreeChunks(h) && Request(bytes) <= c.size
    ensures exists c :: BestFree(h, c, Request(bytes)) && Malloc(h, bytes, mapped).mem == c.addr + 16
  {
    var s, nb, r := Chunks(h), Request(bytes), ChoiceOf(h, bytes);
    ChoiceExact(h, s, bytes);
    StoreSizes(h, s);
    var x :| x in FreeOf(s) && nb <= x.size;
    FreeOrDv(h, s, x);
    var c := if r.FromBin? then Chunk(r.addr, r.size) else Chunk(h.store.dv, h.store.dvsize);
    forall y | y in FreeOf(s) && nb <= y.size ensures c.size <= y.size { FreeOrDv(h, s, y); }
    assert BestFree(h, c, nb);
  }

  /** A small request takes a smallest chunk of the bins that fits, unless `dv` fits and no chunk of a bin does without rest. */
  lemma SmallBest(h: Heap, bytes: nat, mapped: nat)
    requires HeapOk(h) && IsSmallRequest(bytes) && exists c :: c in FreeChunks(h) && Request(bytes) <= c.size
    ensures var nb, b, mem := Request(bytes), h.store.bins, Malloc(h, bytes, mapped).mem;
            || (exists c :: BestIn(b, c, nb) && mem == c.addr + 16 && (c.size <= nb + 8 || h.store.dvsize < nb))
            || (nb <= h.store.dvsize && mem == h.store.dv + 16 && forall x | x in Binned(b) && nb <= x.size :: x.size > nb + 8)
  {
    var s, nb, r := Chunks(h), Request(bytes), ChoiceOf(h, bytes);
    ChoiceExact(h, s, bytes);
    var x :| x in FreeOf(s) && nb <= x.size;
    FreeOrDv(h, s, x);
    if r.FromBin? { assert BestIn(h.store.bins, Chunk(r.addr, r.size), nb); }
  }

  /** When no free chunk fits, a request is served from the start of `top` if that is larger. */
  lemma TopBest(h: Heap, bytes: nat, mapped: nat)
    requires HeapOk(h) && (forall c | c in FreeChunks(h) :: c.size < Request(bytes)) && Request(bytes) < h.segment.topsize
    ensures var o, g, nb := Malloc(h, bytes, mapped), h.segment, Request(bytes);
            o.mem == g.top + 16 && o.heap.segment == g.(top := g.top + nb, topsize := g.topsize - nb) && o.heap.store == h.store
  {
    RequestExact(bytes);
    ChoiceExact(h, Chunks(h), bytes);
    StoreSizes(h, Chunks(h));
  }
}
