/** The allocator's segment: allocation by splitting free chunks, and freeing with coalescing, as functions of the heap. */
module MallocHeap {
  import opened MallocTrie
  import opened MallocBins
  import opened MallocLarge
  import opened MallocSpans
  import opened MallocStore

  const TOP_FOOT: nat := 80
  const GRAIN: nat := 0x1_0000
  const LIMIT: nat := 0x100_0000_0000

  /** Memory from the system; `top` is its last chunk, in no bin. */
  datatype Segment = Segment(base: nat, size: nat, top: nat, topsize: nat)

  /** The free chunks but `top`: those in bins, and `dv`, from which most small requests are served. */
  datatype Store = Store(bins: Bins, dv: nat, dvsize: nat)

  /** A heap that has no memory yet has `top` 0. */
  datatype Heap = Heap(mem: Memory, segment: Segment, store: Store)

  /** An operation's heap and the address it returns, 0 for none. */
  datatype Outcome = Outcome(heap: Heap, mem: nat)

  // ---------------------------------------------------------------- heads and feet

  function Head(m: Memory, p: nat): nat { Word(m, p + 8) }

  function SetHead(m: Memory, p: nat, head: nat): Memory { m[p + 8 := head] }

  function SetP(head: nat): nat { if PInUse(head) then head else head + 1 }

  function ClearP(head: nat): nat { if PInUse(head) then head - 1 else head }

  /** A whole free chunk goes into use: its head, and the bit in the next one. */
  function UseWhole(m: Memory, p: nat, size: nat): Memory {
    var m1 := SetHead(m, p, size + 3);
    SetHead(m1, p + size, SetP(Head(m1, p + size)))
  }

  function UsePart(m: Memory, p: nat, size: nat): Memory { SetHead(m, p, size + 3) }

  /** Head and foot of a free chunk. */
  function FreeHead(m: Memory, p: nat, size: nat): Memory { SetHead(m, p, size + 1)[p + size := size] }

  /** The same, and the bit in the chunk `n` after it. */
  function FreeBefore(m: Memory, p: nat, size: nat, n: nat): Memory {
    FreeHead(SetHead(m, n, ClearP(Head(m, n))), p, size)
  }

  /** The chunks from `p` up to `top`, read from their heads. */
  function Traverse(m: Memory, p: nat, top: nat): seq<Span>
    decreases top - p
  {
    var n := ChunkSize(Head(m, p));
    if p >= top || n == 0 then [] else [Span(p, n, CInUse(Head(m, p)))] + Traverse(m, p + n, top)
  }

  function Chunks(h: Heap): seq<Span> { Traverse(h.mem, h.segment.base, h.segment.top) }

  // ---------------------------------------------------------------- the invariant

  ghost predicate Tiles(m: Memory, s: seq<Span>, base: nat, top: nat) {
    Run(m, s, base, true) && After(s, true) && End(s, base) == top && base > 0 && base % 16 == 0
  }

  /** The chunks lie one after the other up to `top`, which ends where the segment's last words are. */
  ghost predicate Laid(m: Memory, s: seq<Span>, g: Segment) {
    Tiles(m, s, g.base, g.top) && TopOk(m, g.top, g.topsize) && Sized(g)
  }

  predicate Sized(g: Segment) { g.top + g.topsize + TOP_FOOT == g.base + g.size && g.size <= LIMIT }

  /** A heap without memory. */
  ghost predicate Bare(h: Heap, s: seq<Span>) { s == [] && h.segment == Segment(0, 0, 0, 0) }

  predicate TopOk(m: Memory, top: nat, topsize: nat) {
    topsize > 0 && topsize % 16 == 0 && Head(m, top) == topsize + 1 && Head(m, top + topsize) == TOP_FOOT
  }

  function DvOf(t: Store): multiset<Chunk> { if t.dvsize == 0 then multiset{} else multiset{Chunk(t.dv, t.dvsize)} }

  /** Each of the free chunks is `dv` or in exactly one bin. */
  ghost predicate Filed(t: Store, free: multiset<Chunk>) {
    BinsOk(t.bins) && Binned(t.bins) + DvOf(t) == free && (t.dvsize == 0 ==> t.dv == 0)
  }

  ghost predicate Good(h: Heap, s: seq<Span>) {
    (Laid(h.mem, s, h.segment) || Bare(h, s)) && Filed(h.store, FreeOf(s))
  }

  ghost predicate HeapOk(h: Heap) { Good(h, Chunks(h)) }

  ghost function Used(h: Heap): multiset<Chunk> { UsedOf(Chunks(h)) }

  ghost function FreeChunks(h: Heap): multiset<Chunk> { FreeOf(Chunks(h)) }

  lemma HeadReadsAt(m: Memory, x: Span, from: nat, p: bool)
    requires SpanOk(m, x, from, p)
    ensures ChunkSize(Head(m, from)) == x.size && CInUse(Head(m, from)) == x.used && PInUse(Head(m, from)) == p
  {
    HeadReads(x.size, x.used, p);
  }

  /** The heads spell the chunks. */
  lemma {:induction false} TraverseExact(m: Memory, s: seq<Span>, from: nat, p: bool)
    requires Run(m, s, from, p)
    ensures Traverse(m, from, End(s, from)) == s
    decreases |s|
  {
    if s != [] {
      assert s == [s[0]] + s[1..];
      assert SpanAt(m, s, 0, from, p);
      HeadReadsAt(m, s[0], from, p);
      Split(m, [s[0]], s[1..], from, p);
      Joint([s[0]], s[1..], from, p);
      Below(m, s, from, p, 0);
      TraverseExact(m, s[1..], from + s[0].size, s[0].used);
    }
  }

  lemma GoodChunks(h: Heap, s: seq<Span>)
    requires Good(h, s)
    ensures Chunks(h) == s
  {
    if Laid(h.mem, s, h.segment) { TraverseExact(h.mem, s, h.segment.base, true); }
  }

  // ---------------------------------------------------------------- using a free chunk

  /** How much of a free chunk serves a request: all of it if the rest is too small for a chunk. */
  function TakenSize(size: nat, nb: nat): nat
    requires nb <= size
  {
    if size - nb < MIN_CHUNK then size else nb
  }

  function RestOf(c: Chunk, nb: nat): multiset<Chunk>
    requires nb <= c.size
  {
    if c.size - nb < MIN_CHUNK then multiset{} else multiset{Chunk(c.addr + nb, c.size - nb)}
  }

  function Carved(c: Chunk, nb: nat): seq<Span>
    requires nb <= c.size
  {
    if c.size - nb < MIN_CHUNK then [Span(c.addr, c.size, true)]
    else [Span(c.addr, nb, true)] + [Span(c.addr + nb, c.size - nb, false)]
  }

  function CarveMem(m: Memory, p: nat, size: nat, nb: nat): Memory
    requires nb <= size
  {
    if size - nb < MIN_CHUNK then UseWhole(m, p, size) else FreeHead(UsePart(m, p, nb), p + nb, size - nb)
  }

  lemma CarveWhole(m: Memory, c: Chunk, b: seq<Span>, p: bool)
    requires SpanOk(m, Span(c.addr, c.size, false), c.addr, p) && Run(m, b, c.addr + c.size, false) && b != []
    ensures var m' := UseWhole(m, c.addr, c.size);
            && SpanOk(m', Span(c.addr, c.size, true), c.addr, p) && Within(m, m', c.addr, c.addr + c.size)
            && Follows(m', b, c.addr + c.size, true)
  {
    assert SpanAt(m, b, 0, c.addr + c.size, false);
    HeadReadsAt(m, b[0], c.addr + c.size, false);
  }

  lemma CarvePart(m: Memory, c: Chunk, b: seq<Span>, p: bool, nb: nat)
    requires SpanOk(m, Span(c.addr, c.size, false), c.addr, p) && Run(m, b, c.addr + c.size, false) && b != []
    requires nb % 16 == 0 && MIN_CHUNK <= nb && nb + MIN_CHUNK <= c.size
    ensures var m' := FreeHead(UsePart(m, c.addr, nb), c.addr + nb, c.size - nb);
            && SpanOk(m', Span(c.addr, nb, true), c.addr, p)
            && SpanOk(m', Span(c.addr + nb, c.size - nb, false), c.addr + nb, true)
            && Within(m, m', c.addr, c.addr + c.size) && Follows(m', b, c.addr + c.size, false)
  {
    assert SpanAt(m, b, 0, c.addr + c.size, false);
  }

  lemma CarveRun(m: Memory, c: Chunk, b: seq<Span>, p: bool, nb: nat)
    requires SpanOk(m, Span(c.addr, c.size, false), c.addr, p) && Run(m, b, c.addr + c.size, false) && b != []
    requires nb % 16 == 0 && MIN_CHUNK <= nb <= c.size
    ensures var m' := CarveMem(m, c.addr, c.size, nb); var w := Carved(c, nb);
            && Run(m', w, c.addr, p) && Within(m, m', c.addr, c.addr + c.size)
            && Follows(m', b, c.addr + c.size, After(w, p)) && End(w, c.addr) == c.addr + c.size
  {
    var m' := CarveMem(m, c.addr, c.size, nb);
    if c.size - nb < MIN_CHUNK {
      CarveWhole(m, c, b, p);
      RunOne(m', Span(c.addr, c.size, true), c.addr, p);
    } else {
      CarvePart(m, c, b, p, nb);
      RunTwo(m', Span(c.addr, nb, true), Span(c.addr + nb, c.size - nb, false), c.addr, p);
    }
  }

  lemma CarvedOf(c: Chunk, nb: nat)
    requires nb <= c.size
    ensures var w := Carved(c, nb); FreeOf(w) == RestOf(c, nb) && UsedOf(w) == multiset{Chunk(c.addr, TakenSize(c.size, nb))}
  {
    if c.size - nb < MIN_CHUNK {
      One(Span(c.addr, c.size, true));
    } else {
      One(Span(c.addr, nb, true));
      One(Span(c.addr + nb, c.size - nb, false));
      Concat([Span(c.addr, nb, true)], [Span(c.addr + nb, c.size - nb, false)]);
    }
  }

  /** A change within some chunks, not the last, leaves the segment in order. */
  lemma SegmentSplice(m: Memory, m': Memory, a: seq<Span>, w: seq<Span>, w': seq<Span>, b: seq<Span>, g: Segment, lo: nat, hi: nat)
    requires Laid(m, a + (w + b), g) && b != [] && lo == End(a, g.base) && hi == End(w, lo) == End(w', lo) && Within(m, m', lo, hi)
    requires Run(m', w', lo, After(a, true)) && Follows(m', b, hi, After(w', After(a, true)))
    ensures Laid(m', a + (w' + b), g) && SameData(m, m', a) && SameData(m, m', b)
  {
    Splice(m, m', a, w, w', b, g.base, lo, hi);
    Ends(a, w, b, g.base, true);
    Ends(a, w', b, g.base, true);
    Room(m, a, w, b, g.base, lo, hi);
  }

  /** Above the chunk after some there are at least its own bytes. */
  lemma Room(m: Memory, a: seq<Span>, w: seq<Span>, b: seq<Span>, from: nat, lo: nat, hi: nat)
    requires Run(m, a + (w + b), from, true) && b != [] && lo == End(a, from) && hi == End(w, lo)
    ensures hi + MIN_CHUNK <= End(a + (w + b), from)
  {
    Split(m, a, w + b, from, true);
    Split(m, w, b, lo, After(a, true));
    Ends(a, w, b, from, true);
    EndsAfter(m, b, hi, After(w, After(a, true)));
  }

  function Place(s: seq<Span>, x: Span): nat {
    if s == [] || s[0] == x then 0 else 1 + Place(s[1..], x)
  }

  lemma {:induction false} PlaceExact(s: seq<Span>, x: Span)
    requires x in s
    ensures Place(s, x) < |s| && s[Place(s, x)] == x
    decreases |s|
  {
    if s[0] != x { PlaceExact(s[1..], x); }
  }

  /** Where a free chunk is. */
  ghost function FreePlace(s: seq<Span>, c: Chunk): (k: nat)
    requires c in FreeOf(s)
    ensures k < |s| && s[k] == Span(c.addr, c.size, false)
  {
    Member(s, c);
    PlaceExact(s, Span(c.addr, c.size, false));
    Place(s, Span(c.addr, c.size, false))
  }

  lemma Around(s: seq<Span>, k: nat)
    requires k < |s|
    ensures s == s[..k] + ([s[k]] + s[k + 1..])
  {
  }

  /** Around chunk `k` the run is as follows. */
  lemma RunAround(m: Memory, s: seq<Span>, from: nat, k: nat)
    requires Run(m, s, from, true) && k < |s|
    ensures s[k].addr == End(s[..k], from) && SpanOk(m, s[k], s[k].addr, After(s[..k], true))
    ensures Run(m, s[..k], from, true) && Run(m, s[k + 1..], s[k].addr + s[k].size, s[k].used)
    ensures from <= s[k].addr && s[k].addr % 16 == from % 16 && s[k].addr + s[k].size <= End(s, from)
  {
    var a, x, b := s[..k], s[k], s[k + 1..];
    Around(s, k);
    Split(m, a, [x] + b, from, true);
    Split(m, [x], b, End(a, from), After(a, true));
    assert SpanAt(m, [x], 0, End(a, from), After(a, true));
    Inside(m, s, from, true, k);
    Below(m, s, from, true, k);
  }

  /** A chunk that is not in use is not the last before `top`; around it the segment is as follows. */
  lemma FreeAt(m: Memory, s: seq<Span>, g: Segment, c: Chunk)
    requires Laid(m, s, g) && c in FreeOf(s)
    ensures var a, b := s[..FreePlace(s, c)], s[FreePlace(s, c) + 1..];
            && s == a + ([Span(c.addr, c.size, false)] + b) && b != [] && c.addr == End(a, g.base)
            && SpanOk(m, Span(c.addr, c.size, false), c.addr, After(a, true)) && Run(m, b, c.addr + c.size, false)
    ensures c.addr >= g.base && c.addr % 16 == 0 && c.size % 16 == 0 && MIN_CHUNK <= c.size < LIMIT
  {
    Around(s, FreePlace(s, c));
    RunAround(m, s, g.base, FreePlace(s, c));
  }

  /** The chunks once the free chunk `c` has served a request. */
  ghost function CarvedIn(s: seq<Span>, c: Chunk, nb: nat): seq<Span>
    requires c in FreeOf(s) && nb <= c.size
  {
    s[..FreePlace(s, c)] + (Carved(c, nb) + s[FreePlace(s, c) + 1..])
  }

  /** Serving a request from a free chunk keeps the segment in order and no data changes. */
  lemma Carves(m: Memory, s: seq<Span>, g: Segment, c: Chunk, nb: nat)
    requires Laid(m, s, g) && c in FreeOf(s) && nb % 16 == 0 && MIN_CHUNK <= nb <= c.size
    ensures var m' := CarveMem(m, c.addr, c.size, nb); Laid(m', CarvedIn(s, c, nb), g) && SameData(m, m', s)
  {
    FreeAt(m, s, g, c);
    CarvesLaid(m, s[..FreePlace(s, c)], s[FreePlace(s, c) + 1..], g, c, nb);
  }

  lemma CarvesLaid(m: Memory, a: seq<Span>, b: seq<Span>, g: Segment, c: Chunk, nb: nat)
    requires Laid(m, a + ([Span(c.addr, c.size, false)] + b), g) && b != [] && c.addr == End(a, g.base)
    requires SpanOk(m, Span(c.addr, c.size, false), c.addr, After(a, true)) && Run(m, b, c.addr + c.size, false)
    requires nb % 16 == 0 && MIN_CHUNK <= nb <= c.size
    ensures var m' := CarveMem(m, c.addr, c.size, nb);
            Laid(m', a + (Carved(c, nb) + b), g) && SameData(m, m', a + ([Span(c.addr, c.size, false)] + b))
  {
    var m', x := CarveMem(m, c.addr, c.size, nb), Span(c.addr, c.size, false);
    CarveRun(m, c, b, After(a, true), nb);
    SegmentSplice(m, m', a, [x], Carved(c, nb), b, g, c.addr, c.addr + c.size);
    DataJoin(m, m', [x], b);
    DataJoin(m, m', a, [x] + b);
  }

  /** The chunk is used, its rest is free, no other changes. */
  lemma CarvesExactly(s: seq<Span>, c: Chunk, nb: nat)
    requires c in FreeOf(s) && nb <= c.size
    ensures FreeOf(CarvedIn(s, c, nb)) + multiset{c} == FreeOf(s) + RestOf(c, nb)
    ensures UsedOf(CarvedIn(s, c, nb)) == UsedOf(s) + multiset{Chunk(c.addr, TakenSize(c.size, nb))}
  {
    var a, b := s[..FreePlace(s, c)], s[FreePlace(s, c) + 1..];
    Around(s, FreePlace(s, c));
    CarvesOf(a, b, c, nb);
  }

  lemma CarvesOf(a: seq<Span>, b: seq<Span>, c: Chunk, nb: nat)
    requires nb <= c.size
    ensures var s, s' := a + ([Span(c.addr, c.size, false)] + b), a + (Carved(c, nb) + b);
            && FreeOf(s') + multiset{c} == FreeOf(s) + RestOf(c, nb)
            && UsedOf(s') == UsedOf(s) + multiset{Chunk(c.addr, TakenSize(c.size, nb))}
  {
    var x, w := Span(c.addr, c.size, false), Carved(c, nb);
    CarvedOf(c, nb);
    One(x);
    Concat3(a, [x], b);
    Concat3(a, w, b);
    Exchange(FreeOf(a), FreeOf(b), multiset{c}, RestOf(c, nb));
    Exchange(UsedOf(a), UsedOf(b), multiset{}, UsedOf(w));
  }

  lemma Exchange(a: multiset<Chunk>, b: multiset<Chunk>, x: multiset<Chunk>, y: multiset<Chunk>)
    ensures (a + (y + b)) + x == (a + (x + b)) + y
    ensures x == multiset{} ==> a + (y + b) == (a + (x + b)) + y
  {
  }
}
