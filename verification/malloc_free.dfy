/** Freeing a chunk: it joins the free chunks beside it, and what results goes to a bin, to `dv` or to `top`. */
module MallocFree {
  import opened MallocTrie
  import opened MallocBins
  import opened MallocLarge
  import opened MallocSpans
  import opened MallocStore
  import opened MallocHeap
  import opened MallocAlloc
  import opened MallocServe

  /** The chunk before `p`, whose size its foot gives. */
  function Back(p: nat, foot: nat): nat { if foot <= p then p - foot else 0 }

  /** Joining what follows a free chunk of `n` bytes at `p`, and filing the result. */
  function Forward(h: Heap, t: Store, p: nat, n: nat): Heap
    requires BinsShape(t.bins)
  {
    var g, next := h.segment, p + n;
    var head := Head(h.mem, next);
    if CInUse(head) then
      Heap(FreeBefore(h.mem, p, n, next), g, t.(bins := With(t.bins, p, n)))
    else if next == g.top then
      Heap(SetHead(h.mem, p, g.topsize + n + 1), g.(top := p, topsize := g.topsize + n), if p == t.dv then Store(t.bins, 0, 0) else t)
    else ForwardFree(h, t, p, n, next, ChunkSize(head))
  }

  /** Joining a free chunk of `size` bytes at `next`, after the one of `n` bytes at `p`. */
  function ForwardFree(h: Heap, t: Store, p: nat, n: nat, next: nat, size: nat): Heap
    requires BinsShape(t.bins)
  {
    if next == t.dv then Heap(FreeHead(h.mem, p, t.dvsize + n), h.segment, Store(t.bins, p, t.dvsize + n))
    else
      var less := Less(t.bins, next, size);
      Heap(FreeHead(h.mem, p, n + size), h.segment, if p == t.dv then Store(less, p, n + size) else t.(bins := With(less, p, n + size)))
  }

  /** Joining the free chunk before one of `n` bytes at `p`, whose size is `foot`. */
  function Backward(h: Heap, p: nat, n: nat, foot: nat): Heap
    requires BinsShape(h.store.bins)
  {
    var t, prev, head := h.store, Back(p, foot), Head(h.mem, p + n);
    if prev != t.dv then Forward(h, Store(Less(t.bins, prev, foot), t.dv, t.dvsize), prev, n + foot)
    else if CInUse(head) && PInUse(head) then
      Heap(FreeBefore(h.mem, prev, n + foot, p + n), h.segment, Store(t.bins, prev, n + foot))
    else Forward(h, t, prev, n + foot)
  }

  /** Freeing the chunk whose memory is at `mem`; nothing for 0. */
  function Free(h: Heap, mem: nat): Heap
    requires BinsShape(h.store.bins)
  {
    if mem < 16 then h
    else
      var p := mem - 16;
      var head := Head(h.mem, p);
      if PInUse(head) then Forward(h, h.store, p, ChunkSize(head)) else Backward(h, p, ChunkSize(head), Word(h.mem, p))
  }

  // ---------------------------------------------------------------- filing a larger chunk for those it is made of

  lemma Five(a: multiset<Chunk>, d: multiset<Chunk>, c: multiset<Chunk>, x: multiset<Chunk>, free: multiset<Chunk>, free': multiset<Chunk>)
    requires (a + c) + d == free && free' + c == free + x
    ensures (a + x) + d == free' && (a + d) + x == free'
  {
    Four(a, d, x, c);
    assert ((a + c) + d) + x == ((a + x) + d) + c;
    Cancel((a + x) + d, free', c);
    Cancel((a + d) + x, free', c);
  }

  lemma GoneFrom(a: multiset<Chunk>, d: multiset<Chunk>, c: multiset<Chunk>, free: multiset<Chunk>, free': multiset<Chunk>)
    requires (a + c) + d == free && free' + c == free
    ensures a + d == free'
  {
    assert (a + d) + c == (a + c) + d;
    Cancel(a + d, free', c);
  }

  /** `b'` is `b` without one chunk. */
  ghost predicate Moves(b: Bins, b': Bins, c: Chunk) { BinsOk(b) && BinsOk(b') && Binned(b) == Binned(b') + multiset{c} }

  lemma WithMoves(b: Bins, more: Bins, x: Chunk)
    requires BinsOk(b) && SizeOk(x) && more == With(b, x.addr, x.size)
    ensures Moves(more, b, x)
  {
    FineSize(x.size);
    Added(b, x.addr, x.size);
  }

  lemma LessMoves(b: Bins, less: Bins, c: Chunk)
    requires BinsOk(b) && SizeOk(c) && c in Binned(b) && less == Less(b, c.addr, c.size)
    ensures Moves(b, less, c)
  {
    FineSize(c.size);
    Removed(b, c.addr, c.size);
  }

  /** A chunk goes into its bin. */
  lemma FileMore(t: Store, more: Bins, x: Chunk, free: multiset<Chunk>, free': multiset<Chunk>)
    requires Filed(t, free) && Moves(more, t.bins, x) && free' == free + multiset{x}
    ensures Filed(t.(bins := more), free')
  {
    Swap(Binned(t.bins), multiset{x}, DvOf(t));
  }

  /** A chunk comes out of its bin. */
  lemma FileLess(t: Store, less: Bins, c: Chunk, free: multiset<Chunk>, free': multiset<Chunk>)
    requires Filed(t, free) && Moves(t.bins, less, c) && free' + multiset{c} == free
    ensures Filed(Store(less, t.dv, t.dvsize), free')
  {
    GoneFrom(Binned(less), DvOf(t), multiset{c}, free, free');
  }

  /** `dv` becomes another chunk, or none. */
  lemma FileDv(t: Store, x: Chunk, free: multiset<Chunk>, free': multiset<Chunk>)
    requires Filed(t, free) && t.dvsize > 0 && x.size > 0 && free' + multiset{Chunk(t.dv, t.dvsize)} == free + multiset{x}
    ensures Filed(Store(t.bins, x.addr, x.size), free')
  {
    var b, c := Binned(t.bins), multiset{Chunk(t.dv, t.dvsize)};
    assert (b + multiset{x}) + c == (b + c) + multiset{x};
    Cancel(b + multiset{x}, free', c);
  }

  lemma FileNoDv(t: Store, free: multiset<Chunk>, free': multiset<Chunk>)
    requires Filed(t, free) && t.dvsize > 0 && free' + multiset{Chunk(t.dv, t.dvsize)} == free
    ensures Filed(Store(t.bins, 0, 0), free')
  {
    Cancel(Binned(t.bins), free', multiset{Chunk(t.dv, t.dvsize)});
  }

  // ---------------------------------------------------------------- joining chunks in memory

  /** Head and foot of a chunk that replaces those from `lo`, before chunks `b` the first of which is in use. */
  lemma JoinBefore(m: Memory, lo: nat, n: nat, b: seq<Span>, p: bool)
    requires n % 16 == 0 && n >= MIN_CHUNK && b != [] && b[0].used && Run(m, b, lo + n, p)
    ensures var m' := FreeBefore(m, lo, n, lo + n);
            SpanOk(m', Span(lo, n, false), lo, true) && Within(m, m', lo, lo + n) && Follows(m', b, lo + n, false)
  {
    assert SpanAt(m, b, 0, lo + n, p);
    HeadReadsAt(m, b[0], lo + n, p);
  }

  lemma JoinAfter(m: Memory, lo: nat, n: nat, b: seq<Span>)
    requires n % 16 == 0 && n >= MIN_CHUNK && b != [] && b[0].used && Run(m, b, lo + n, false)
    ensures var m' := FreeHead(m, lo, n);
            SpanOk(m', Span(lo, n, false), lo, true) && Within(m, m', lo, lo + n) && Follows(m', b, lo + n, false)
  {
    assert SpanAt(m, b, 0, lo + n, false);
  }

  /** Chunks `w` of a segment joined to one. */
  lemma JoinLaid(m: Memory, m': Memory, a: seq<Span>, w: seq<Span>, b: seq<Span>, g: Segment, x: Span)
    requires Laid(m, a + (w + b), g) && b != [] && After(a, true) && x.addr == End(a, g.base) && x.addr + x.size == End(w, x.addr) && !x.used
    requires SpanOk(m', x, x.addr, true) && Within(m, m', x.addr, x.addr + x.size) && Follows(m', b, x.addr + x.size, false)
    ensures Laid(m', a + ([x] + b), g) && SameData(m, m', a + ([x] + b))
  {
    RunOne(m', x, x.addr, true);
    SegmentSplice(m, m', a, w, [x], b, g, x.addr, x.addr + x.size);
    DataJoin(m, m', [x], b);
    DataJoin(m, m', a, [x] + b);
  }

  /** Chunks `w` at the end of a segment joined to `top`. */
  lemma JoinTop(m: Memory, a: seq<Span>, w: seq<Span>, g: Segment, top: nat, n: nat)
    requires Laid(m, a + w, g) && After(a, true) && top == End(a, g.base) && top + n == End(w, top)
    ensures top + n == g.top
    ensures var m' := SetHead(m, top, g.topsize + n + 1);
            Laid(m', a, g.(top := top, topsize := g.topsize + n)) && SameData(m, m', a)
  {
    var m' := SetHead(m, top, g.topsize + n + 1);
    Split(m, a, w, g.base, true);
    Joint(a, w, g.base, true);
    EndsAfter(m, a, g.base, true);
    EndsAfter(m, w, top, After(a, true));
    AboveTiles(m, m', a, g.base, top);
  }

  // ---------------------------------------------------------------- joining what follows

  /** Once chunks between `a` and `b` have been joined, the heap is in order with chunks `s'`, and no other chunk in use has changed. */
  ghost predicate Joined(h: Heap, a: seq<Span>, b: seq<Span>, h': Heap, s': seq<Span>) {
    Good(h', s') && UsedOf(s') == UsedOf(a) + UsedOf(b) && SameData(h.mem, h'.mem, s')
  }

  /** Chunks `w`, the last in use, are being joined to a free chunk of `n` bytes at `q`; chunks `a` and `b` are around them. */
  ghost predicate Joining(h: Heap, a: seq<Span>, w: seq<Span>, b: seq<Span>, q: nat, n: nat) {
    && Laid(h.mem, a + (w + b), h.segment) && After(a, true) && w != [] && After(w, true)
    && q == End(a, h.segment.base) && q + n == End(w, q)
  }

  function Others(a: seq<Span>, b: seq<Span>): multiset<Chunk> { FreeOf(a) + FreeOf(b) }

  lemma JoiningParts(h: Heap, a: seq<Span>, w: seq<Span>, b: seq<Span>, q: nat, n: nat)
    requires Joining(h, a, w, b, q, n)
    ensures Run(h.mem, b, q + n, true) && q > 0 && q % 16 == 0 && n % 16 == 0 && MIN_CHUNK <= n
    ensures End(b, q + n) == h.segment.top && After(b, true) && h.segment.top < q + LIMIT && q + n <= h.segment.top
  {
    var g := h.segment;
    Split(h.mem, a, w + b, g.base, true);
    Split(h.mem, w, b, q, true);
    Ends(a, w, b, g.base, true);
    EndsAfter(h.mem, a, g.base, true);
    EndsAfter(h.mem, w, q, true);
    EndsAfter(h.mem, b, q + n, true);
  }

  /** What replaces the joined chunks is free and not in use. */
  lemma JoinedOf(a: seq<Span>, x: Span, b: seq<Span>)
    requires !x.used
    ensures var s' := a + ([x] + b);
            FreeOf(s') == Others(a, b) + multiset{Chunk(x.addr, x.size)} && UsedOf(s') == UsedOf(a) + UsedOf(b)
  {
    One(x);
    Concat3(a, [x], b);
  }

  lemma TopHead(h: Heap, s: seq<Span>)
    requires Laid(h.mem, s, h.segment)
    ensures !CInUse(Head(h.mem, h.segment.top))
  {
    HeadReads(h.segment.topsize, false, true);
  }

  /** `dv` is the chunk at `q`, which is being joined, or one of the others. */
  ghost predicate FiledBut(t: Store, q: nat, free: multiset<Chunk>) {
    if t.dv == q then t.dvsize > 0 && Filed(t, free + multiset{Chunk(q, t.dvsize)}) else Filed(t, free)
  }

  lemma NoDvAt(t: Store, q: nat, free: multiset<Chunk>)
    requires FiledBut(t, q, free)
    ensures Filed(if q == t.dv then Store(t.bins, 0, 0) else t, free)
  {
    if t.dv == q { FileNoDv(t, free + multiset{Chunk(q, t.dvsize)}, free); }
  }

  lemma MakeJoined(h: Heap, a: seq<Span>, b: seq<Span>, h': Heap, s': seq<Span>, free: multiset<Chunk>)
    requires Laid(h'.mem, s', h'.segment) && SameData(h.mem, h'.mem, s')
    requires Filed(h'.store, free) && FreeOf(s') == free && UsedOf(s') == UsedOf(a) + UsedOf(b)
    ensures Joined(h, a, b, h', s')
  {
  }

  /** At the end of the segment the joined chunk becomes part of `top`. */
  lemma ForwardTop(h: Heap, t: Store, a: seq<Span>, w: seq<Span>, q: nat, n: nat)
    requires Joining(h, a, w, [], q, n) && BinsShape(t.bins) && FiledBut(t, q, Others(a, []))
    ensures Joined(h, a, [], Forward(h, t, q, n), a)
  {
    var g, t' := h.segment, if q == t.dv then Store(t.bins, 0, 0) else t;
    var h' := Heap(SetHead(h.mem, q, g.topsize + n + 1), g.(top := q, topsize := g.topsize + n), t');
    assert w + [] == w;
    JoinTop(h.mem, a, w, g, q, n);
    assert Forward(h, t, q, n) == h' by { TopHead(h, a + w); }
    NoDvAt(t, q, Others(a, []));
    MakeJoined(h, a, [], h', a, Others(a, []));
  }

  /** A chunk in use after the joined one learns that it is free. */
  lemma ForwardUsed(h: Heap, t: Store, a: seq<Span>, w: seq<Span>, b: seq<Span>, q: nat, n: nat)
    requires Joining(h, a, w, b, q, n) && b != [] && b[0].used && Filed(t, Others(a, b))
    ensures Joined(h, a, b, Forward(h, t, q, n), a + ([Span(q, n, false)] + b))
  {
    var x, free' := Span(q, n, false), Others(a, b) + multiset{Chunk(q, n)};
    var m' := FreeBefore(h.mem, q, n, q + n);
    UsedNextLaid(h, a, w, b, q, n, x);
    JoinedOf(a, x, b);
    var more := With(t.bins, q, n);
    WithMoves(t.bins, more, Chunk(q, n));
    FileMore(t, more, Chunk(q, n), Others(a, b), free');
    MakeJoined(h, a, b, Forward(h, t, q, n), a + ([x] + b), free');
  }

  lemma UsedNextLaid(h: Heap, a: seq<Span>, w: seq<Span>, b: seq<Span>, q: nat, n: nat, x: Span)
    requires Joining(h, a, w, b, q, n) && b != [] && b[0].used && x == Span(q, n, false)
    ensures CInUse(Head(h.mem, q + n)) && PInUse(Head(h.mem, q + n)) && SizeOk(Chunk(q, n))
    ensures var m' := FreeBefore(h.mem, q, n, q + n);
            Laid(m', a + ([x] + b), h.segment) && SameData(h.mem, m', a + ([x] + b))
  {
    JoiningParts(h, a, w, b, q, n);
    assert SpanAt(h.mem, b, 0, q + n, true);
    HeadReadsAt(h.mem, b[0], q + n, true);
    Below(h.mem, b, q + n, true, 0);
    JoinBefore(h.mem, q, n, b, true);
    JoinLaid(h.mem, FreeBefore(h.mem, q, n, q + n), a, w, b, h.segment, x);
  }

  /** A free chunk `z` after the joined ones, and what comes after it. */
  ghost predicate FreeNext(h: Heap, a: seq<Span>, w: seq<Span>, z: Span, b: seq<Span>, q: nat, n: nat) {
    Joining(h, a, w, [z] + b, q, n) && !z.used
  }

  lemma NextParts(h: Heap, a: seq<Span>, w: seq<Span>, z: Span, b: seq<Span>, q: nat, n: nat)
    requires FreeNext(h, a, w, z, b, q, n)
    ensures z.addr == q + n && SizeOk(Chunk(z.addr, z.size)) && b != [] && b[0].used && Run(h.mem, b, z.addr + z.size, false)
    ensures !CInUse(Head(h.mem, z.addr)) && ChunkSize(Head(h.mem, z.addr)) == z.size && z.addr + MIN_CHUNK <= h.segment.top
    ensures z.addr + z.size <= h.segment.top
  {
    JoiningParts(h, a, w, [z] + b, q, n);
    assert SpanAt(h.mem, [z] + b, 0, q + n, true);
    HeadReadsAt(h.mem, z, q + n, true);
    Split(h.mem, [z], b, q + n, true);
    if b != [] { assert SpanAt(h.mem, b, 0, z.addr + z.size, false); }
    Below(h.mem, [z] + b, q + n, true, 0);
  }

  /** Joined with the free chunk after it. */
  lemma NextLaid(h: Heap, a: seq<Span>, w: seq<Span>, z: Span, b: seq<Span>, q: nat, n: nat, x: Span)
    requires FreeNext(h, a, w, z, b, q, n) && x == Span(q, n + z.size, false)
    ensures var m' := FreeHead(h.mem, q, n + z.size);
            Laid(m', a + ([x] + b), h.segment) && SameData(h.mem, m', a + ([x] + b))
  {
    NextParts(h, a, w, z, b, q, n);
    JoiningParts(h, a, w, [z] + b, q, n);
    JoinAfter(h.mem, q, n + z.size, b);
    assert a + (w + ([z] + b)) == a + ((w + [z]) + b);
    JoinLaid(h.mem, FreeHead(h.mem, q, n + z.size), a, w + [z], b, h.segment, x);
  }

  lemma OthersNext(a: seq<Span>, z: Span, b: seq<Span>)
    requires !z.used
    ensures Others(a, [z] + b) == Others(a, b) + multiset{Chunk(z.addr, z.size)} && UsedOf(a) + UsedOf([z] + b) == UsedOf(a) + UsedOf(b)
  {
    One(z);
    Concat([z], b);
    AddLast(FreeOf(a), FreeOf(b), FreeOf([z] + b), multiset{Chunk(z.addr, z.size)});
  }

  /** A free chunk that is not `dv` is in a bin. */
  lemma InBins(t: Store, c: Chunk, free: multiset<Chunk>)
    requires Filed(t, free) && c in free && c.addr != t.dv
    ensures c in Binned(t.bins)
  {
  }

  lemma TwoMore(free: multiset<Chunk>, x: multiset<Chunk>, d: multiset<Chunk>)
    ensures (free + x) + d == (free + d) + x
  {
  }

  /** `dv` grows by a chunk `c` from a bin. */
  lemma FromDvFiled(t: Store, less: Bins, c: Chunk, x: Chunk, d: multiset<Chunk>, others: multiset<Chunk>, free': multiset<Chunk>, t': Store)
    requires d == multiset{Chunk(t.dv, t.dvsize)} && Filed(t, (others + multiset{c}) + d) && t.dvsize > 0 && Moves(t.bins, less, c)
    requires free' == others + multiset{x} && x.size > 0 && t' == Store(less, x.addr, x.size)
    ensures Filed(t', free')
  {
    TwoMore(others, multiset{c}, d);
    TwoMore(others, multiset{x}, d);
    FileLess(t, less, c, (others + multiset{c}) + d, others + d);
    FileDv(Store(less, t.dv, t.dvsize), x, others + d, free');
  }

  /** A chunk `x` goes into its bin for a chunk `c` that goes out. */
  lemma BinnedFiled(t: Store, less: Bins, more: Bins, c: Chunk, x: Chunk, others: multiset<Chunk>, free': multiset<Chunk>, t': Store)
    requires Filed(t, others + multiset{c}) && Moves(t.bins, less, c) && Moves(more, less, x)
    requires free' == others + multiset{x} && t' == Store(more, t.dv, t.dvsize)
    ensures Filed(t', free')
  {
    FileLess(t, less, c, others + multiset{c}, others);
    FileMore(Store(less, t.dv, t.dvsize), more, x, others, free');
  }

  /** A free chunk `z` after the joined ones: as a chunk `c`, joined to `x`, beside the other free chunks. */
  ghost predicate Nexts(h: Heap, t: Store, a: seq<Span>, w: seq<Span>, z: Span, b: seq<Span>, q: nat, n: nat, c: Chunk, x: Chunk, others: multiset<Chunk>) {
    && FreeNext(h, a, w, z, b, q, n) && others == Others(a, b) && FiledBut(t, q, others + multiset{c}) && BinsShape(t.bins)
    && c == Chunk(z.addr, z.size) && x == Chunk(q, n + z.size) && SizeOk(c) && SizeOk(x) && q != z.addr
  }

  /** Joined, whatever the store that files the result. */
  lemma NextJoined(h: Heap, a: seq<Span>, w: seq<Span>, z: Span, b: seq<Span>, q: nat, n: nat, y: Span, h': Heap, free': multiset<Chunk>)
    requires FreeNext(h, a, w, z, b, q, n) && y == Span(q, n + z.size, false) && free' == Others(a, b) + multiset{Chunk(y.addr, y.size)}
    requires h'.mem == FreeHead(h.mem, q, n + z.size) && h'.segment == h.segment && Filed(h'.store, free')
    ensures Joined(h, a, [z] + b, h', a + ([y] + b))
  {
    NextLaid(h, a, w, z, b, q, n, y);
    JoinedOf(a, y, b);
    OthersNext(a, z, b);
    MakeJoined(h, a, [z] + b, h', a + ([y] + b), free');
  }

  lemma ForwardIs(h: Heap, t: Store, a: seq<Span>, w: seq<Span>, z: Span, b: seq<Span>, q: nat, n: nat, less: Bins, t': Store)
    requires FreeNext(h, a, w, z, b, q, n) && BinsShape(t.bins) && less == Less(t.bins, z.addr, z.size) && (t.dv == z.addr ==> t.dvsize == z.size)
    requires t' == if z.addr == t.dv then Store(t.bins, q, n + z.size) else if q == t.dv then Store(less, q, n + z.size)
                   else Store(With(less, q, n + z.size), t.dv, t.dvsize)
    ensures Forward(h, t, q, n) == Heap(FreeHead(h.mem, q, n + z.size), h.segment, t')
  {
    NextParts(h, a, w, z, b, q, n);
  }

  lemma ForwardIntoDv(h: Heap, t: Store, a: seq<Span>, w: seq<Span>, z: Span, b: seq<Span>, q: nat, n: nat, c: Chunk, x: Chunk,
                      others: multiset<Chunk>, free': multiset<Chunk>) returns (t': Store)
    requires Nexts(h, t, a, w, z, b, q, n, c, x, others) && t.dv == z.addr && t.dvsize == z.size && free' == others + multiset{x}
    ensures Forward(h, t, q, n) == Heap(FreeHead(h.mem, q, n + z.size), h.segment, t') && Filed(t', free')
  {
    t' := Store(t.bins, x.addr, x.size);
    ForwardIs(h, t, a, w, z, b, q, n, Less(t.bins, z.addr, z.size), t');
    TwoMore(others, multiset{x}, multiset{c});
    FileDv(t, x, others + multiset{c}, free');
  }

  lemma ForwardFromDv(h: Heap, t: Store, a: seq<Span>, w: seq<Span>, z: Span, b: seq<Span>, q: nat, n: nat, c: Chunk, x: Chunk,
                      others: multiset<Chunk>, free': multiset<Chunk>) returns (t': Store)
    requires Nexts(h, t, a, w, z, b, q, n, c, x, others) && t.dv == q && free' == others + multiset{x}
    ensures Forward(h, t, q, n) == Heap(FreeHead(h.mem, q, n + z.size), h.segment, t') && Filed(t', free')
  {
    var less := Less(t.bins, z.addr, z.size);
    t' := Store(less, x.addr, x.size);
    ForwardIs(h, t, a, w, z, b, q, n, less, t');
    InBins(t, c, (others + multiset{c}) + multiset{Chunk(t.dv, t.dvsize)});
    LessMoves(t.bins, less, c);
    FromDvFiled(t, less, c, x, multiset{Chunk(t.dv, t.dvsize)}, others, free', t');
  }

  lemma ForwardBinned(h: Heap, t: Store, a: seq<Span>, w: seq<Span>, z: Span, b: seq<Span>, q: nat, n: nat, c: Chunk, x: Chunk,
                      others: multiset<Chunk>, free': multiset<Chunk>) returns (t': Store)
    requires Nexts(h, t, a, w, z, b, q, n, c, x, others) && t.dv != q && t.dv != z.addr && free' == others + multiset{x}
    ensures Forward(h, t, q, n) == Heap(FreeHead(h.mem, q, n + z.size), h.segment, t') && Filed(t', free')
  {
    var less := Less(t.bins, z.addr, z.size);
    var more := With(less, x.addr, x.size);
    t' := Store(more, t.dv, t.dvsize);
    ForwardIs(h, t, a, w, z, b, q, n, less, t');
    InBins(t, c, others + multiset{c});
    LessMoves(t.bins, less, c);
    WithMoves(less, more, x);
    BinnedFiled(t, less, more, c, x, others, free', t');
  }

  /** A free chunk after the joined one joins too. */
  lemma ForwardFreeKeeps(h: Heap, t: Store, a: seq<Span>, w: seq<Span>, z: Span, b: seq<Span>, q: nat, n: nat, y: Span)
    requires FreeNext(h, a, w, z, b, q, n) && BinsShape(t.bins) && FiledBut(t, q, Others(a, [z] + b)) && (t.dv == z.addr ==> t.dvsize == z.size)
    requires y == Span(q, n + z.size, false)
    ensures Joined(h, a, [z] + b, Forward(h, t, q, n), a + ([y] + b))
  {
    var c, x, others := Chunk(z.addr, z.size), Chunk(y.addr, y.size), Others(a, b);
    var free' := others + multiset{x};
    NextSize(h, a, w, z, b, q, n);
    OthersNext(a, z, b);
    var t' := NextStore(h, t, a, w, z, b, q, n, c, x, others, free');
    NextJoined(h, a, w, z, b, q, n, y, Heap(FreeHead(h.mem, q, n + z.size), h.segment, t'), free');
  }

  lemma NextStore(h: Heap, t: Store, a: seq<Span>, w: seq<Span>, z: Span, b: seq<Span>, q: nat, n: nat, c: Chunk, x: Chunk,
                  others: multiset<Chunk>, free': multiset<Chunk>) returns (t': Store)
    requires Nexts(h, t, a, w, z, b, q, n, c, x, others) && free' == others + multiset{x} && (t.dv == z.addr ==> t.dvsize == z.size)
    ensures Forward(h, t, q, n) == Heap(FreeHead(h.mem, q, n + z.size), h.segment, t') && Filed(t', free')
  {
    if t.dv == z.addr {
      t' := ForwardIntoDv(h, t, a, w, z, b, q, n, c, x, others, free');
    } else if t.dv == q {
      t' := ForwardFromDv(h, t, a, w, z, b, q, n, c, x, others, free');
    } else {
      t' := ForwardBinned(h, t, a, w, z, b, q, n, c, x, others, free');
    }
  }

  lemma NextSize(h: Heap, a: seq<Span>, w: seq<Span>, z: Span, b: seq<Span>, q: nat, n: nat)
    requires FreeNext(h, a, w, z, b, q, n)
    ensures SizeOk(Chunk(z.addr, z.size)) && SizeOk(Chunk(q, n + z.size)) && q != z.addr
  {
    JoiningParts(h, a, w, [z] + b, q, n);
    NextParts(h, a, w, z, b, q, n);
  }

  /** Whatever follows the joined chunks. */
  lemma ForwardKeeps(h: Heap, t: Store, a: seq<Span>, w: seq<Span>, b: seq<Span>, q: nat, n: nat) returns (s': seq<Span>)
    requires Joining(h, a, w, b, q, n) && BinsShape(t.bins) && FiledBut(t, q, Others(a, b))
    requires b != [] && b[0].used ==> t.dv != q
    requires b != [] && !b[0].used && b[0].addr == t.dv ==> b[0].size == t.dvsize
    ensures Joined(h, a, b, Forward(h, t, q, n), s')
  {
    if b == [] {
      s' := a;
      ForwardTop(h, t, a, w, q, n);
    } else if b[0].used {
      s' := a + ([Span(q, n, false)] + b);
      ForwardUsed(h, t, a, w, b, q, n);
    } else {
      var z, y := b[0], Span(q, n + b[0].size, false);
      assert b == [z] + b[1..];
      s' := a + ([y] + b[1..]);
      ForwardFreeKeeps(h, t, a, w, z, b[1..], q, n, y);
    }
  }

  // ---------------------------------------------------------------- joining what comes before

  /** The free chunk that `dv` is at has its size, and no chunk in use is at `dv`. */
  lemma DvUnique(m: Memory, s: seq<Span>, g: Segment, t: Store, x: Span)
    requires Laid(m, s, g) && Filed(t, FreeOf(s)) && x in s && x.addr == t.dv
    ensures !x.used && x.size == t.dvsize > 0
  {
    var i :| 0 <= i < |s| && s[i] == x;
    Inside(m, s, g.base, true, i);
    var c := Chunk(t.dv, t.dvsize);
    assert t.dvsize > 0;
    InEither(Binned(t.bins), DvOf(t), c);
    Member(s, c);
    var j :| 0 <= j < |s| && s[j] == Span(t.dv, t.dvsize, false);
    SameAddress(m, s, g.base, true, i, j);
  }

  /** The freed chunk, `x`, and the chunks before and after it. */
  ghost predicate Freeing(h: Heap, a: seq<Span>, x: Span, b: seq<Span>) {
    Laid(h.mem, a + ([x] + b), h.segment) && x.used && Filed(h.store, FreeOf(a + ([x] + b)))
  }

  lemma FreeingReads(h: Heap, a: seq<Span>, x: Span, b: seq<Span>)
    requires Freeing(h, a, x, b)
    ensures x.addr == End(a, h.segment.base) && x.addr >= 16 && x.addr % 16 == 0
    ensures ChunkSize(Head(h.mem, x.addr)) == x.size && PInUse(Head(h.mem, x.addr)) == After(a, true)
    ensures FreeOf(a + ([x] + b)) == Others(a, b) && UsedOf(a + ([x] + b)) == UsedOf(a) + UsedOf(b) + multiset{Chunk(x.addr, x.size)}
  {
    FreeingOf(a, x, b);
    FreeingHead(h.mem, a, x, b, h.segment.base);
  }

  lemma FreeingOf(a: seq<Span>, x: Span, b: seq<Span>)
    requires x.used
    ensures FreeOf(a + ([x] + b)) == Others(a, b) && UsedOf(a + ([x] + b)) == UsedOf(a) + UsedOf(b) + multiset{Chunk(x.addr, x.size)}
  {
    One(x);
    Concat3(a, [x], b);
    TwoMore(UsedOf(a), multiset{Chunk(x.addr, x.size)}, UsedOf(b));
  }

  lemma FreeingHead(m: Memory, a: seq<Span>, x: Span, b: seq<Span>, base: nat)
    requires Run(m, a + ([x] + b), base, true) && base > 0 && base % 16 == 0
    ensures x.addr == End(a, base) && x.addr >= 16 && x.addr % 16 == 0
    ensures ChunkSize(Head(m, x.addr)) == x.size && PInUse(Head(m, x.addr)) == After(a, true)
  {
    Split(m, a, [x] + b, base, true);
    assert SpanAt(m, [x] + b, 0, End(a, base), After(a, true));
    HeadReadsAt(m, x, End(a, base), After(a, true));
    EndsAfter(m, a, base, true);
  }

  /** After a chunk in use nothing comes before the freed one to join. */
  lemma FreeAlone(h: Heap, a: seq<Span>, x: Span, b: seq<Span>) returns (s': seq<Span>)
    requires Freeing(h, a, x, b) && After(a, true)
    ensures Joined(h, a, b, Free(h, x.addr + 16), s')
  {
    var t, s := h.store, a + ([x] + b);
    FreeingReads(h, a, x, b);
    assert x in s;
    assert t.dv != x.addr by { if t.dv == x.addr { DvUnique(h.mem, s, h.segment, t, x); } }
    if b != [] && !b[0].used && b[0].addr == t.dv { DvUnique(h.mem, s, h.segment, t, b[0]); }
    s' := ForwardKeeps(h, t, a, [x], b, x.addr, x.size);
  }

  /** A free chunk `y` before the freed one, and the chunks before it. */
  ghost predicate FreeBack(h: Heap, a: seq<Span>, y: Span, x: Span, b: seq<Span>) { Freeing(h, a + [y], x, b) && !y.used }

  lemma BackReads(h: Heap, a: seq<Span>, y: Span, x: Span, b: seq<Span>)
    requires FreeBack(h, a, y, x, b)
    ensures (a + [y]) + ([x] + b) == a + (([y] + [x]) + b) && Joining(h, a, [y] + [x], b, y.addr, x.size + y.size)
    ensures Word(h.mem, x.addr) == y.size && Back(x.addr, y.size) == y.addr && y.addr + y.size == x.addr && SizeOk(Chunk(y.addr, y.size))
    ensures UsedOf(a + [y]) == UsedOf(a) && Others(a + [y], b) == Others(a, b) + multiset{Chunk(y.addr, y.size)}
  {
    var g := h.segment;
    assert (a + [y]) + ([x] + b) == a + (([y] + [x]) + b) == a + ([y] + ([x] + b));
    Split(h.mem, a, [y] + ([x] + b), g.base, true);
    assert SpanAt(h.mem, [y] + ([x] + b), 0, End(a, g.base), After(a, true)) && SpanAt(h.mem, [y] + ([x] + b), 1, End(a, g.base), After(a, true));
    EndsAfter(h.mem, a, g.base, true);
    Below(h.mem, a + ([y] + ([x] + b)), g.base, true, |a|);
    One(y);
    Concat(a, [y]);
    TwoMore(FreeOf(a), multiset{Chunk(y.addr, y.size)}, FreeOf(b));
  }

  lemma FreeIs(h: Heap, a: seq<Span>, y: Span, x: Span, b: seq<Span>)
    requires FreeBack(h, a, y, x, b)
    ensures Free(h, x.addr + 16) == Backward(h, x.addr, x.size, y.size)
  {
    FreeingReads(h, a + [y], x, b);
    BackReads(h, a, y, x, b);
  }

  lemma BackFiled(h: Heap, a: seq<Span>, y: Span, x: Span, b: seq<Span>, c: Chunk)
    requires FreeBack(h, a, y, x, b) && c == Chunk(y.addr, y.size)
    ensures Filed(h.store, Others(a, b) + multiset{c})
  {
    FreeingReads(h, a + [y], x, b);
    BackReads(h, a, y, x, b);
  }

  /** The free chunk after the freed one, if it is `dv`, has the size of `dv`. */
  lemma NextIsDv(h: Heap, a: seq<Span>, x: Span, b: seq<Span>)
    requires Freeing(h, a, x, b) && b != [] && !b[0].used && b[0].addr == h.store.dv
    ensures b[0].size == h.store.dvsize
  {
    DvUnique(h.mem, a + ([x] + b), h.segment, h.store, b[0]);
  }

  /** A free chunk before the freed one that is in a bin comes out of it. */
  lemma BackLess(h: Heap, a: seq<Span>, y: Span, x: Span, b: seq<Span>) returns (t: Store)
    requires FreeBack(h, a, y, x, b) && y.addr != h.store.dv
    ensures t == Store(Less(h.store.bins, y.addr, y.size), h.store.dv, h.store.dvsize) && Filed(t, Others(a, b))
  {
    var c, others := Chunk(y.addr, y.size), Others(a, b);
    t := Store(Less(h.store.bins, y.addr, y.size), h.store.dv, h.store.dvsize);
    BackReads(h, a, y, x, b);
    BackFiled(h, a, y, x, b, c);
    InBins(h.store, c, others + multiset{c});
    LessMoves(h.store.bins, t.bins, c);
    FileLess(h.store, t.bins, c, others + multiset{c}, others);
  }

  lemma BackShape(h: Heap, a: seq<Span>, y: Span, x: Span, b: seq<Span>, n: nat) returns (w: seq<Span>)
    requires FreeBack(h, a, y, x, b) && n == x.size + y.size
    ensures Joining(h, a, w, b, y.addr, n) && Back(x.addr, y.size) == y.addr && x.addr + x.size == y.addr + n
  {
    BackReads(h, a, y, x, b);
    w := [y] + [x];
  }

  lemma FreeBinned(h: Heap, a: seq<Span>, y: Span, x: Span, b: seq<Span>) returns (s': seq<Span>)
    requires FreeBack(h, a, y, x, b) && y.addr != h.store.dv
    ensures Joined(h, a, b, Backward(h, x.addr, x.size, y.size), s')
  {
    var n := x.size + y.size;
    var t := BackLess(h, a, y, x, b);
    var w := BackShape(h, a, y, x, b, n);
    if b != [] && !b[0].used && b[0].addr == h.store.dv { NextIsDv(h, a + [y], x, b); }
    s' := ForwardKeeps(h, t, a, w, b, y.addr, n);
  }

  lemma BackIsDv(h: Heap, a: seq<Span>, y: Span, x: Span, b: seq<Span>)
    requires FreeBack(h, a, y, x, b) && y.addr == h.store.dv
    ensures FiledBut(h.store, y.addr, Others(a, b))
  {
    BackFiled(h, a, y, x, b, Chunk(y.addr, y.size));
    DvUnique(h.mem, (a + [y]) + ([x] + b), h.segment, h.store, y);
  }

  /** If it is `dv`, what follows takes it in, or `dv` grows. */
  lemma FreeDvJoins(h: Heap, a: seq<Span>, y: Span, x: Span, b: seq<Span>) returns (s': seq<Span>)
    requires FreeBack(h, a, y, x, b) && y.addr == h.store.dv && (b != [] ==> !b[0].used)
    ensures Joined(h, a, b, Backward(h, x.addr, x.size, y.size), s')
  {
    var n := x.size + y.size;
    var w := BackShape(h, a, y, x, b, n);
    BackIsDv(h, a, y, x, b);
    NextFree(h, a, w, b, y.addr, n);
    assert Backward(h, x.addr, x.size, y.size) == Forward(h, h.store, y.addr, n);
    s' := ForwardKeeps(h, h.store, a, w, b, y.addr, n);
  }

  lemma FreeDvGrows(h: Heap, a: seq<Span>, y: Span, x: Span, b: seq<Span>) returns (s': seq<Span>)
    requires FreeBack(h, a, y, x, b) && y.addr == h.store.dv && b != [] && b[0].used
    ensures Joined(h, a, b, Backward(h, x.addr, x.size, y.size), s')
  {
    var n := x.size + y.size;
    var w := BackShape(h, a, y, x, b, n);
    BackIsDv(h, a, y, x, b);
    var h' := Backward(h, x.addr, x.size, y.size);
    UsedHead(h, a, w, b, y.addr, n);
    assert h' == Heap(FreeBefore(h.mem, y.addr, n, y.addr + n), h.segment, Store(h.store.bins, y.addr, n));
    s' := GrowDv(h, a, w, b, y.addr, n, h');
  }

  /** What follows is `top` or free. */
  lemma NextFree(h: Heap, a: seq<Span>, w: seq<Span>, b: seq<Span>, q: nat, n: nat)
    requires Joining(h, a, w, b, q, n) && (b != [] ==> !b[0].used)
    ensures !CInUse(Head(h.mem, q + n)) && (b != [] ==> b[0].addr != q)
  {
    JoiningParts(h, a, w, b, q, n);
    if b == [] {
      TopHead(h, a + (w + b));
    } else {
      assert SpanAt(h.mem, b, 0, q + n, true);
      HeadReadsAt(h.mem, b[0], q + n, true);
    }
  }

  lemma UsedHead(h: Heap, a: seq<Span>, w: seq<Span>, b: seq<Span>, q: nat, n: nat)
    requires Joining(h, a, w, b, q, n) && b != [] && b[0].used
    ensures CInUse(Head(h.mem, q + n)) && PInUse(Head(h.mem, q + n))
  {
    UsedNextLaid(h, a, w, b, q, n, Span(q, n, false));
  }

  lemma GrowDv(h: Heap, a: seq<Span>, w: seq<Span>, b: seq<Span>, q: nat, n: nat, h': Heap) returns (s': seq<Span>)
    requires Joining(h, a, w, b, q, n) && b != [] && b[0].used && h.store.dv == q && FiledBut(h.store, q, Others(a, b))
    requires h' == Heap(FreeBefore(h.mem, q, n, q + n), h.segment, Store(h.store.bins, q, n))
    ensures Joined(h, a, b, h', s')
  {
    var x, free' := Span(q, n, false), Others(a, b) + multiset{Chunk(q, n)};
    s' := a + ([x] + b);
    UsedNextLaid(h, a, w, b, q, n, x);
    JoinedOf(a, x, b);
    TwoMore(Others(a, b), multiset{Chunk(q, n)}, multiset{Chunk(q, h.store.dvsize)});
    FileDv(h.store, Chunk(q, n), Others(a, b) + multiset{Chunk(q, h.store.dvsize)}, free');
    MakeJoined(h, a, b, h', s', free');
  }

  /** Once a chunk has been freed the heap is in order with one chunk in use less, and no data in the others changed. */
  ghost predicate Freed(h: Heap, s: seq<Span>, c: Chunk, h': Heap, s': seq<Span>) {
    Good(h', s') && UsedOf(s') + multiset{c} == UsedOf(s) && SameData(h.mem, h'.mem, s')
  }

  lemma JoinedFreed(h: Heap, s: seq<Span>, c: Chunk, a: seq<Span>, b: seq<Span>, h': Heap, s': seq<Span>)
    requires Joined(h, a, b, h', s') && UsedOf(s) == UsedOf(a) + UsedOf(b) + multiset{c}
    ensures Freed(h, s, c, h', s')
  {
  }

  lemma FreeAfter(h: Heap, a: seq<Span>, y: Span, x: Span, b: seq<Span>) returns (s': seq<Span>)
    requires FreeBack(h, a, y, x, b)
    ensures Freed(h, (a + [y]) + ([x] + b), Chunk(x.addr, x.size), Free(h, x.addr + 16), s')
  {
    FreeIs(h, a, y, x, b);
    if y.addr != h.store.dv {
      s' := FreeBinned(h, a, y, x, b);
    } else if b != [] && b[0].used {
      s' := FreeDvGrows(h, a, y, x, b);
    } else {
      s' := FreeDvJoins(h, a, y, x, b);
    }
    FreeAfterUsed(h, a, y, x, b);
    JoinedFreed(h, (a + [y]) + ([x] + b), Chunk(x.addr, x.size), a, b, Free(h, x.addr + 16), s');
  }

  lemma FreeAfterUsed(h: Heap, a: seq<Span>, y: Span, x: Span, b: seq<Span>)
    requires FreeBack(h, a, y, x, b)
    ensures UsedOf((a + [y]) + ([x] + b)) == UsedOf(a) + UsedOf(b) + multiset{Chunk(x.addr, x.size)}
  {
    FreeingReads(h, a + [y], x, b);
    BackReads(h, a, y, x, b);
  }

  lemma FreeFirst(h: Heap, a: seq<Span>, x: Span, b: seq<Span>) returns (s': seq<Span>)
    requires Freeing(h, a, x, b) && After(a, true)
    ensures Freed(h, a + ([x] + b), Chunk(x.addr, x.size), Free(h, x.addr + 16), s')
  {
    FreeingReads(h, a, x, b);
    s' := FreeAlone(h, a, x, b);
    JoinedFreed(h, a + ([x] + b), Chunk(x.addr, x.size), a, b, Free(h, x.addr + 16), s');
  }

  /** Freeing a chunk in use takes exactly it out of use, changes no data in the others, and keeps the heap in order. */
  lemma FreeKeeps(h: Heap, s: seq<Span>, c: Chunk) returns (s': seq<Span>)
    requires Laid(h.mem, s, h.segment) && Filed(h.store, FreeOf(s)) && c in UsedOf(s)
    ensures Freed(h, s, c, Free(h, c.addr + 16), s')
  {
    Member(s, c);
    var k :| 0 <= k < |s| && s[k] == Span(c.addr, c.size, true);
    var a, x, b := s[..k], s[k], s[k + 1..];
    Around(s, k);
    if After(a, true) {
      s' := FreeFirst(h, a, x, b);
    } else {
      assert a == a[..|a| - 1] + [a[|a| - 1]];
      s' := FreeAfter(h, a[..|a| - 1], a[|a| - 1], x, b);
    }
  }
}
