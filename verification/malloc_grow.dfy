/** Memory from the system, and what every allocation keeps and gives. */
module MallocGrow {
  import opened MallocTrie
  import opened MallocBins
  import opened MallocLarge
  import opened MallocSpans
  import opened MallocStore
  import opened MallocHeap
  import opened MallocAlloc
  import opened MallocServe
  import opened MallocFree

  // ---------------------------------------------------------------- memory below the segment

  /** The request's chunk and a free one, of `n` bytes, take the place of the new memory and of the free chunks `w` after it. */
  ghost predicate Fronted(m: Memory, m': Memory, w: seq<Span>, b: seq<Span>, g: Segment, p: nat, nb: nat, n: nat) {
    && Laid(m, w + b, g) && b != [] && b[0].used && (forall x | x in w :: !x.used)
    && p > 0 && p % 16 == 0 && nb % 16 == 0 && MIN_CHUNK <= nb && n % 16 == 0 && MIN_CHUNK <= n
    && p + nb <= g.base && p + nb + n == End(w, g.base)
    && SpanOk(m', Span(p, nb, true), p, true) && SpanOk(m', Span(p + nb, n, false), p + nb, true)
    && Follows(m', b, p + nb + n, false) && forall a: nat | a > p + nb + n && a != p + nb + n + 8 :: Word(m', a) == Word(m, a)
  }

  lemma FrontParts(m: Memory, m': Memory, w: seq<Span>, b: seq<Span>, g: Segment, p: nat, nb: nat, n: nat)
    requires Fronted(m, m', w, b, g, p, nb, n)
    ensures var hi := p + nb + n;
            && Run(m, b, hi, After(w, true)) && Agree(m, m', hi + 8, End(b, hi)) && End(b, hi) == g.top && After(b, true)
            && hi + MIN_CHUNK <= g.top
  {
    var hi := p + nb + n;
    Split(m, w, b, g.base, true);
    Joint(w, b, g.base, true);
    EndsAfter(m, b, hi, After(w, true));
  }

  lemma FrontLaid(m: Memory, m': Memory, w: seq<Span>, b: seq<Span>, g: Segment, p: nat, nb: nat, n: nat, size: nat)
    requires Fronted(m, m', w, b, g, p, nb, n) && p + size == g.base && g.size + size <= LIMIT
    ensures Laid(m', [Span(p, nb, true)] + ([Span(p + nb, n, false)] + b), Segment(p, g.size + size, g.top, g.topsize))
  {
    var x, y, hi := Span(p, nb, true), Span(p + nb, n, false), p + nb + n;
    FrontParts(m, m', w, b, g, p, nb, n);
    RunFlag(m, m', b, hi, After(w, true), false);
    RunOne(m', y, p + nb, true);
    RunOne(m', x, p, true);
    Join(m', [y], b, p + nb, true);
    Join(m', [x], [y] + b, p, true);
    Ends([x], [y], b, p, true);
  }

  lemma FrontData(m: Memory, m': Memory, w: seq<Span>, b: seq<Span>, g: Segment, p: nat, nb: nat, n: nat)
    requires Fronted(m, m', w, b, g, p, nb, n)
    ensures SameData(m, m', w + b)
  {
    FrontParts(m, m', w, b, g, p, nb, n);
    DataAfter(m, m', b, p + nb + n, After(w, true));
    DataJoin(m, m', w, b);
  }

  /** Chunks that are not in use count as free only. */
  lemma FrontOf(w: seq<Span>, b: seq<Span>, x: Span, y: Span)
    requires x.used && !y.used
    ensures FreeOf([x] + ([y] + b)) == FreeOf(b) + multiset{Chunk(y.addr, y.size)}
    ensures UsedOf([x] + ([y] + b)) == UsedOf(b) + multiset{Chunk(x.addr, x.size)}
    ensures FreeOf(w + b) == FreeOf(b) + FreeOf(w) && UsedOf(w + b) == UsedOf(b) + UsedOf(w)
  {
    One(x);
    One(y);
    Concat3([x], [y], b);
    Concat(w, b);
  }

  /** Writing the heads of the two chunks. */
  lemma FrontWrites(m: Memory, w: seq<Span>, b: seq<Span>, g: Segment, p: nat, nb: nat, n: nat, m': Memory)
    requires Laid(m, w + b, g) && b != [] && b[0].used && (forall x | x in w :: !x.used)
    requires p > 0 && p % 16 == 0 && nb % 16 == 0 && MIN_CHUNK <= nb && n % 16 == 0 && MIN_CHUNK <= n
    requires p + nb <= g.base && p + nb + n == End(w, g.base)
    requires m' == FreeBefore(UsePart(m, p, nb), p + nb, n, p + nb + n) || (w != [] && m' == FreeHead(UsePart(m, p, nb), p + nb, n))
    ensures Fronted(m, m', w, b, g, p, nb, n)
  {
    var m1, hi := UsePart(m, p, nb), p + nb + n;
    Split(m, w, b, g.base, true);
    EndsAfter(m, b, hi, After(w, true));
    RunFrame(m, m1, b, hi, After(w, true));
    FrontHeads(m1, w, b, p + nb, n, m');
  }

  lemma FrontHeads(m1: Memory, w: seq<Span>, b: seq<Span>, q: nat, n: nat, m': Memory)
    requires Run(m1, b, q + n, After(w, true)) && b != [] && b[0].used && (forall x | x in w :: !x.used) && n % 16 == 0 && MIN_CHUNK <= n
    requires m' == FreeBefore(m1, q, n, q + n) || (w != [] && m' == FreeHead(m1, q, n))
    ensures SpanOk(m', Span(q, n, false), q, true) && Within(m1, m', q, q + n) && Follows(m', b, q + n, false)
  {
    if m' == FreeBefore(m1, q, n, q + n) {
      JoinBefore(m1, q, n, b, After(w, true));
    } else {
      assert w[|w| - 1] in w;
      JoinAfter(m1, q, n, b);
    }
  }

  /** Memory of `size` bytes at `p`, just below the segment, for a request of `nb`. */
  ghost predicate Prepending(h: Heap, s: seq<Span>, p: nat, size: nat, nb: nat) {
    && Laid(h.mem, s, h.segment) && Filed(h.store, FreeOf(s))
    && p > 0 && p % 16 == 0 && p + size == h.segment.base && h.segment.size + size <= LIMIT
    && nb % 16 == 0 && MIN_CHUNK <= nb && nb + MIN_CHUNK <= size && size % 16 == 0
  }

  lemma MakeServed(h: Heap, s: seq<Span>, o: Outcome, s': seq<Span>, nb: nat, free: multiset<Chunk>)
    requires Laid(o.heap.mem, s', o.heap.segment) && Filed(o.heap.store, free) && FreeOf(s') == free && SameData(h.mem, o.heap.mem, s)
    requires o.mem > 16 && o.mem % 16 == 0 && UsedOf(s') == UsedOf(s) + multiset{Chunk(o.mem - 16, nb)}
    ensures Served(h, s, o, s', nb, nb)
  {
  }

  /** With no chunk but `top`, the rest of the new memory joins `top`. */
  lemma PrependTop(h: Heap, p: nat, size: nat, nb: nat)
    requires Prepending(h, [], p, size, nb)
    ensures Served(h, [], Prepend(h, p, size, nb), [Span(p, nb, true)], nb, nb)
  {
    var x, o := Span(p, nb, true), Prepend(h, p, size, nb);
    RunOne(o.heap.mem, x, p, true);
    One(x);
  }

  function Grown(g: Segment, p: nat, size: nat): Segment { Segment(p, g.size + size, g.top, g.topsize) }

  /** However the rest is filed, the request is served. */
  lemma FrontServes(h: Heap, w: seq<Span>, b: seq<Span>, p: nat, size: nat, nb: nat, n: nat, h': Heap, free': multiset<Chunk>) returns (s': seq<Span>)
    requires Fronted(h.mem, h'.mem, w, b, h.segment, p, nb, n) && UsedOf(w) == multiset{}
    requires p + size == h.segment.base && h.segment.size + size <= LIMIT && h'.segment == Grown(h.segment, p, size)
    requires free' == FreeOf(b) + multiset{Chunk(p + nb, n)} && Filed(h'.store, free')
    ensures Served(h, w + b, Outcome(h', p + 16), s', nb, nb)
  {
    var u, v := Span(p, nb, true), Span(p + nb, n, false);
    s' := [u] + ([v] + b);
    FrontLaid(h.mem, h'.mem, w, b, h.segment, p, nb, n, size);
    FrontData(h.mem, h'.mem, w, b, h.segment, p, nb, n);
    FrontCounts(w, b, u, v);
    MakeServed(h, w + b, Outcome(h', p + 16), s', nb, free');
  }

  lemma FrontCounts(w: seq<Span>, b: seq<Span>, u: Span, v: Span)
    requires u.used && !v.used && UsedOf(w) == multiset{}
    ensures FreeOf([u] + ([v] + b)) == FreeOf(b) + multiset{Chunk(v.addr, v.size)}
    ensures UsedOf([u] + ([v] + b)) == UsedOf(w + b) + multiset{Chunk(u.addr, u.size)}
  {
    FrontOf(w, b, u, v);
  }

  lemma FirstReads(h: Heap, s: seq<Span>, p: nat, size: nat, nb: nat)
    requires Prepending(h, s, p, size, nb) && s != []
    ensures var z, first, m := s[0], h.segment.base, UsePart(h.mem, p, nb);
            && z.addr == first && first != h.segment.top && CInUse(Head(m, first)) == z.used && ChunkSize(Head(m, first)) == z.size
            && (z.used ==> first != h.store.dv) && (!z.used && first == h.store.dv ==> h.store.dvsize == z.size)
    ensures SizeOk(Chunk(p + nb, size - nb)) && SizeOk(Chunk(s[0].addr, s[0].size)) && SizeOk(Chunk(p + nb, size - nb + s[0].size))
  {
    var g := h.segment;
    FirstAt(h.mem, s, g);
    FirstHead(h.mem, s, g, p, nb);
    if s[0].addr == h.store.dv { DvUnique(h.mem, s, g, h.store, s[0]); }
  }

  lemma FirstAt(m: Memory, s: seq<Span>, g: Segment)
    requires Laid(m, s, g) && s != []
    ensures s[0].addr == g.base && g.base + s[0].size <= g.top && SizeOk(Chunk(s[0].addr, s[0].size)) && SpanOk(m, s[0], g.base, true)
  {
    assert SpanAt(m, s, 0, g.base, true);
    Below(m, s, g.base, true, 0);
  }

  lemma FirstHead(m: Memory, s: seq<Span>, g: Segment, p: nat, nb: nat)
    requires s != [] && SpanOk(m, s[0], g.base, true) && p + nb < g.base
    ensures var m1 := UsePart(m, p, nb); CInUse(Head(m1, g.base)) == s[0].used && ChunkSize(Head(m1, g.base)) == s[0].size
  {
    HeadReadsAt(m, s[0], g.base, true);
  }

  /** What becomes of the heap, by what the first chunk is. */
  lemma PrependIs(h: Heap, s: seq<Span>, p: nat, size: nat, nb: nat, t: Store)
    requires Prepending(h, s, p, size, nb) && s != []
    requires var q, n, z, b := p + nb, size - nb, s[0], h.store.bins;
             t == if z.used then h.store.(bins := With(b, q, n))
                  else if z.addr == h.store.dv then Store(b, q, n + z.size)
                  else Store(With(Less(b, z.addr, z.size), q, n + z.size), h.store.dv, h.store.dvsize)
    ensures var z, m, g' := s[0], UsePart(h.mem, p, nb), Grown(h.segment, p, size);
            Prepend(h, p, size, nb) == Outcome(
              if z.used then Heap(FreeBefore(m, p + nb, size - nb, p + size), g', t)
              else if z.addr == h.store.dv then Heap(FreeHead(m, p + nb, size - nb + z.size), g', t)
              else Heap(FreeBefore(m, p + nb, size - nb + z.size, z.addr + z.size), g', t), p + 16)
  {
    FirstReads(h, s, p, size, nb);
  }

  /** The first chunk is in use: the rest of the new memory is a free chunk before it. */
  lemma UsedFiled(h: Heap, s: seq<Span>, p: nat, size: nat, nb: nat, free': multiset<Chunk>, t: Store)
    requires Prepending(h, s, p, size, nb) && s != [] && s[0].used && free' == FreeOf(s) + multiset{Chunk(p + nb, size - nb)}
    requires t == h.store.(bins := With(h.store.bins, p + nb, size - nb))
    ensures Filed(t, free')
  {
    FirstReads(h, s, p, size, nb);
    WithMoves(h.store.bins, t.bins, Chunk(p + nb, size - nb));
    FileMore(h.store, t.bins, Chunk(p + nb, size - nb), FreeOf(s), free');
  }

  /** The first chunk is `dv`, which takes the rest in. */
  lemma DvFirstFiled(h: Heap, s: seq<Span>, p: nat, size: nat, nb: nat, others: multiset<Chunk>, x: Chunk, free': multiset<Chunk>, t: Store)
    requires Prepending(h, s, p, size, nb) && s != [] && !s[0].used && s[0].addr == h.store.dv && FreeOf(s) == others + multiset{Chunk(s[0].addr, s[0].size)}
    requires x == Chunk(p + nb, size - nb + s[0].size) && free' == others + multiset{x} && t == Store(h.store.bins, x.addr, x.size)
    ensures Filed(t, free')
  {
    FirstReads(h, s, p, size, nb);
    TwoMore(others, multiset{x}, multiset{Chunk(s[0].addr, s[0].size)});
    FileDv(h.store, x, FreeOf(s), free');
  }

  /** The first chunk is in a bin; it and the rest become one free chunk. */
  lemma FreeFirstFiled(h: Heap, s: seq<Span>, p: nat, size: nat, nb: nat, others: multiset<Chunk>, x: Chunk, free': multiset<Chunk>, t: Store)
    requires Prepending(h, s, p, size, nb) && s != [] && !s[0].used && s[0].addr != h.store.dv && FreeOf(s) == others + multiset{Chunk(s[0].addr, s[0].size)}
    requires x == Chunk(p + nb, size - nb + s[0].size) && free' == others + multiset{x}
    requires t == Store(With(Less(h.store.bins, s[0].addr, s[0].size), x.addr, x.size), h.store.dv, h.store.dvsize)
    ensures Filed(t, free')
  {
    var c := Chunk(s[0].addr, s[0].size);
    var less := Less(h.store.bins, s[0].addr, s[0].size);
    FirstReads(h, s, p, size, nb);
    InBins(h.store, c, others + multiset{c});
    LessMoves(h.store.bins, less, c);
    WithMoves(less, t.bins, x);
    BinnedFiled(h.store, less, t.bins, c, x, others, free', t);
  }

  lemma PrependUsed(h: Heap, s: seq<Span>, p: nat, size: nat, nb: nat) returns (s': seq<Span>)
    requires Prepending(h, s, p, size, nb) && s != [] && s[0].used
    ensures Served(h, s, Prepend(h, p, size, nb), s', nb, nb)
  {
    var w: seq<Span>, n, free' := [], size - nb, FreeOf(s) + multiset{Chunk(p + nb, size - nb)};
    var m', t := FreeBefore(UsePart(h.mem, p, nb), p + nb, n, p + size), h.store.(bins := With(h.store.bins, p + nb, n));
    assert w + s == s;
    FrontWrites(h.mem, w, s, h.segment, p, nb, n, m');
    var h' := Heap(m', Grown(h.segment, p, size), t);
    assert Prepend(h, p, size, nb) == Outcome(h', p + 16) by { PrependIs(h, s, p, size, nb, t); }
    UsedFiled(h, s, p, size, nb, free', t);
    s' := FrontServes(h, w, s, p, size, nb, n, h', free');
  }

  /** The chunk after a free first one is in use. */
  lemma SecondUsed(h: Heap, s: seq<Span>)
    requires Laid(h.mem, s, h.segment) && s != [] && !s[0].used
    ensures s == [s[0]] + s[1..] && s[1..] != [] && s[1..][0].used
    ensures FreeOf(s) == FreeOf(s[1..]) + multiset{Chunk(s[0].addr, s[0].size)} && UsedOf([s[0]]) == multiset{}
  {
    assert s == [s[0]] + s[1..];
    if |s| > 1 { assert SpanAt(h.mem, s, 1, h.segment.base, true); }
    One(s[0]);
    Concat([s[0]], s[1..]);
  }

  lemma PrependFree(h: Heap, s: seq<Span>, p: nat, size: nat, nb: nat) returns (s': seq<Span>)
    requires Prepending(h, s, p, size, nb) && s != [] && !s[0].used
    ensures Served(h, s, Prepend(h, p, size, nb), s', nb, nb)
  {
    if s[0].addr == h.store.dv { s' := PrependDv(h, s, p, size, nb); } else { s' := PrependBinned(h, s, p, size, nb); }
  }

  lemma FreeFronted(h: Heap, s: seq<Span>, p: nat, size: nat, nb: nat, n: nat, m': Memory)
    requires Prepending(h, s, p, size, nb) && s != [] && !s[0].used && n == size - nb + s[0].size
    requires m' == FreeHead(UsePart(h.mem, p, nb), p + nb, n) || m' == FreeBefore(UsePart(h.mem, p, nb), p + nb, n, s[0].addr + s[0].size)
    ensures Fronted(h.mem, m', [s[0]], s[1..], h.segment, p, nb, n)
  {
    SecondUsed(h, s);
    FirstReads(h, s, p, size, nb);
    FrontWrites(h.mem, [s[0]], s[1..], h.segment, p, nb, n, m');
  }

  lemma PrependDv(h: Heap, s: seq<Span>, p: nat, size: nat, nb: nat) returns (s': seq<Span>)
    requires Prepending(h, s, p, size, nb) && s != [] && !s[0].used && s[0].addr == h.store.dv
    ensures Served(h, s, Prepend(h, p, size, nb), s', nb, nb)
  {
    SecondUsed(h, s);
    var w, b, n := [s[0]], s[1..], size - nb + s[0].size;
    var x, m' := Chunk(p + nb, n), FreeHead(UsePart(h.mem, p, nb), p + nb, n);
    var free', t := FreeOf(b) + multiset{x}, Store(h.store.bins, x.addr, x.size);
    FreeFronted(h, s, p, size, nb, n, m');
    var h' := Heap(m', Grown(h.segment, p, size), t);
    assert Prepend(h, p, size, nb) == Outcome(h', p + 16) by { PrependIs(h, s, p, size, nb, t); }
    DvFirstFiled(h, s, p, size, nb, FreeOf(b), x, free', t);
    s' := FrontServes(h, w, b, p, size, nb, n, h', free');
  }

  lemma PrependBinned(h: Heap, s: seq<Span>, p: nat, size: nat, nb: nat) returns (s': seq<Span>)
    requires Prepending(h, s, p, size, nb) && s != [] && !s[0].used && s[0].addr != h.store.dv
    ensures Served(h, s, Prepend(h, p, size, nb), s', nb, nb)
  {
    SecondUsed(h, s);
    var w, b, n, z := [s[0]], s[1..], size - nb + s[0].size, s[0];
    var x, m' := Chunk(p + nb, n), FreeBefore(UsePart(h.mem, p, nb), p + nb, n, z.addr + z.size);
    var free', t := FreeOf(b) + multiset{x}, Store(With(Less(h.store.bins, z.addr, z.size), x.addr, x.size), h.store.dv, h.store.dvsize);
    FreeFronted(h, s, p, size, nb, n, m');
    var h' := Heap(m', Grown(h.segment, p, size), t);
    assert Prepend(h, p, size, nb) == Outcome(h', p + 16) by { PrependIs(h, s, p, size, nb, t); }
    FreeFirstFiled(h, s, p, size, nb, FreeOf(b), x, free', t);
    s' := FrontServes(h, w, b, p, size, nb, n, h', free');
  }
}
