/** Runs of allocations, frees and users' writes, and what they leave. */
module MallocHeapRuns {
  import opened MallocTrie
  import opened MallocBins
  import opened MallocLarge
  import opened MallocSpans
  import opened MallocStore
  import opened MallocHeap
  import opened MallocAlloc
  import opened MallocServe
  import opened MallocFree
  import opened MallocRuns

  // ---------------------------------------------------------------- what a heap in order is

  /** Chunk `k`: its head and foot, and the chunks beside it. */
  lemma EachChunk(h: Heap, k: nat)
    requires HeapOk(h) && k < |Chunks(h)|
    ensures var s, m := Chunks(h), h.mem; var x := s[k]; var end := x.addr + x.size;
            && x.addr == (if k == 0 then h.segment.base else s[k - 1].addr + s[k - 1].size)
            && end == (if k + 1 < |s| then s[k + 1].addr else h.segment.top)
            && x.size >= 32 && x.size % 16 == 0 && ChunkSize(Head(m, x.addr)) == x.size && CInUse(Head(m, x.addr)) == x.used
            && PInUse(Head(m, x.addr)) == (k == 0 || s[k - 1].used)
            && Head(m, x.addr) == x.size + (if x.used then 2 else 0) + (if k == 0 || s[k - 1].used then 1 else 0)
            && (!x.used ==> Word(m, end) == x.size && k + 1 < |s| && s[k + 1].used && (k > 0 ==> s[k - 1].used))
  {
    var s, g := Chunks(h), h.segment;
    assert Laid(h.mem, s, g) by { if Bare(h, s) { assert false; } }
    assert SpanAt(h.mem, s, k, g.base, true);
    RunAround(h.mem, s, g.base, k);
    HeadReadsAt(h.mem, s[k], s[k].addr, After(s[..k], true));
    if k + 1 < |s| { assert SpanAt(h.mem, s, k + 1, g.base, true); }
  }

  lemma {:induction false} TallyOnce(m: Memory, s: seq<Span>, from: nat, n: nat, used: bool, c: Chunk)
    requires Run(m, s, from, true) && n <= |s|
    ensures Tally(s, n, used)[c] <= 1
    decreases n
  {
    if n > 0 {
      TallyOnce(m, s, from, n - 1, used, c);
      TallyNew(m, s, from, n - 1, used, c);
    }
  }

  /** The next chunk has not been counted. */
  lemma TallyNew(m: Memory, s: seq<Span>, from: nat, n: nat, used: bool, c: Chunk)
    requires Run(m, s, from, true) && n < |s|
    ensures s[n] == Span(c.addr, c.size, used) ==> Tally(s, n, used)[c] == 0
  {
    if s[n] == Span(c.addr, c.size, used) && s[n] in s[..n] {
      var j :| 0 <= j < n && s[j] == s[n];
      SameAddress(m, s, from, true, j, n);
    }
    TallyMember(s, n, used, c);
  }

  /** Each free chunk is in exactly one bin, once, or `dv`, and no other chunk is. */
  lemma OnePlace(h: Heap, c: Chunk)
    requires HeapOk(h)
    ensures Binned(h.store.bins)[c] + DvOf(h.store)[c] == if c in FreeChunks(h) then 1 else 0
  {
    var s := Chunks(h);
    if Laid(h.mem, s, h.segment) { TallyOnce(h.mem, s, h.segment.base, |s|, false, c); }
    assert (Binned(h.store.bins) + DvOf(h.store))[c] == FreeChunks(h)[c];
  }

  /** Two chunks in use do not overlap, and lie in the segment below `top`. */
  lemma UsedApart(h: Heap, c: Chunk, d: Chunk)
    requires HeapOk(h) && c in Used(h) && d in Used(h)
    ensures c == d || c.addr + c.size <= d.addr || d.addr + d.size <= c.addr
    ensures h.segment.base <= c.addr && c.addr + c.size <= h.segment.top && Used(h)[c] == 1
  {
    var s, g := Chunks(h), h.segment;
    UsedReads(h, s, c);
    Member(s, c);
    Member(s, d);
    var i :| 0 <= i < |s| && s[i] == Span(c.addr, c.size, true);
    var j :| 0 <= j < |s| && s[j] == Span(d.addr, d.size, true);
    if i < j { Ordered(h.mem, s, g.base, true, i, j); }
    if j < i { Ordered(h.mem, s, g.base, true, j, i); }
    RunAround(h.mem, s, g.base, i);
    TallyOnce(h.mem, s, g.base, |s|, true, c);
  }

  // ---------------------------------------------------------------- what becomes of the rest

  /** No two free chunks are at one address. */
  lemma FreeAt(h: Heap, c: Chunk, d: Chunk)
    requires HeapOk(h) && c in FreeChunks(h) && d in FreeChunks(h) && c.addr == d.addr
    ensures c == d
  {
    var s := Chunks(h);
    Member(s, c);
    Member(s, d);
    var i :| 0 <= i < |s| && s[i] == Span(c.addr, c.size, false);
    var j :| 0 <= j < |s| && s[j] == Span(d.addr, d.size, false);
    SameAddress(h.mem, s, h.segment.base, true, i, j);
  }

  ghost predicate IsBinned(b: Bins, c: Chunk) { BinsShape(b) && c in Binned(b) }

  predicate IsDv(t: Store, c: Chunk) { t.dvsize > 0 && c == Chunk(t.dv, t.dvsize) }

  /** What is left of the free chunk `c` once `nb` bytes of it are in use: nothing below 32 bytes, else `dv`, or a chunk of a bin. */
  ghost predicate RestKept(t: Store, t': Store, c: Chunk, nb: nat, small: bool) {
    && nb <= c.size
    && if c.size - nb < 32 then t'.dvsize == (if IsDv(t, c) then 0 else t.dvsize) && (!IsDv(t, c) ==> t'.dv == t.dv)
       else if IsDv(t, c) || small then t'.dv == c.addr + nb && t'.dvsize == c.size - nb
       else t'.dv == t.dv && t'.dvsize == t.dvsize && IsBinned(t'.bins, Chunk(c.addr + nb, c.size - nb))
  }

  lemma NotDv(h: Heap, c: Chunk)
    requires HeapOk(h) && c in Binned(h.store.bins)
    ensures c in FreeChunks(h) && !IsDv(h.store, c)
  {
    OnePlace(h, c);
  }

  lemma RestBinned(h: Heap, c: Chunk, rest: Chunk)
    requires HeapOk(h) && c in Binned(h.store.bins) && c.size % 16 == 0 && c.size < LIMIT && rest.size % 16 == 0 && rest.size < LIMIT
    ensures IsBinned(With(Less(h.store.bins, c.addr, c.size), rest.addr, rest.size), rest)
  {
    var b := h.store.bins;
    var less := Less(b, c.addr, c.size);
    FineSize(c.size);
    FineSize(rest.size);
    Removed(b, c.addr, c.size);
    Added(less, rest.addr, rest.size);
    InEither(Binned(less), multiset{rest}, rest);
  }

  /** The bins, `dv` and its size once a chunk of a bin has served a request. */
  lemma BinStore(h: Heap, bytes: nat, mapped: nat, c: Chunk, nb: nat, small: bool)
    requires BinsShape(h.store.bins) && nb == Request(bytes) && small == IsSmallRequest(bytes) && ChoiceOf(h, bytes) == FromBin(c.addr, c.size)
    requires nb <= c.size && (small && nb + 32 <= c.size ==> IsSmall(h.store.dvsize))
    ensures Malloc(h, bytes, mapped).heap.store == BinStored(h.store, c, nb, small)
  {
    assert Malloc(h, bytes, mapped) == TakeBinned(h, c.addr, c.size, nb, small);
  }

  lemma BinSizes(h: Heap, s: seq<Span>, bytes: nat, c: Chunk)
    requires Good(h, s) && ChoiceOf(h, bytes) == FromBin(c.addr, c.size) && c in Binned(h.store.bins) && Request(bytes) <= c.size
    ensures c.size % 16 == 0 && c.size < LIMIT && Request(bytes) % 16 == 0
    ensures IsSmallRequest(bytes) && Request(bytes) + 32 <= c.size ==> IsSmall(h.store.dvsize)
  {
    StoreSizes(h, s);
    FreeSizes(h.mem, s, h.segment);
    RequestExact(bytes);
    ChoiceExact(h, s, bytes);
  }

  /** A chunk of a bin that can serve a request of `nb` bytes. */
  ghost predicate BinFit(h: Heap, c: Chunk, nb: nat, small: bool) {
    && HeapOk(h) && IsBinned(h.store.bins, c) && nb <= c.size && !IsDv(h.store, c)
    && c.size % 16 == 0 && c.size < LIMIT && nb % 16 == 0 && (small && nb + 32 <= c.size ==> IsSmall(h.store.dvsize))
  }

  lemma BinFits(h: Heap, bytes: nat, c: Chunk)
    requires HeapOk(h) && ChoiceOf(h, bytes) == FromBin(c.addr, c.size)
    ensures BinFit(h, c, Request(bytes), IsSmallRequest(bytes))
  {
    ChoiceExact(h, Chunks(h), bytes);
    NotDv(h, c);
    BinSizes(h, Chunks(h), bytes, c);
  }

  /** The store once a chunk of a bin has served a request. */
  function BinStored(t: Store, c: Chunk, nb: nat, small: bool): Store
    requires BinsShape(t.bins) && nb <= c.size && (small && nb + 32 <= c.size ==> IsSmall(t.dvsize))
  {
    var less := t.(bins := Less(t.bins, c.addr, c.size));
    if c.size - nb < 32 then less else FileRest(less, c.addr + nb, c.size - nb, small)
  }

  lemma BinRest(h: Heap, c: Chunk, nb: nat, small: bool)
    requires BinFit(h, c, nb, small)
    ensures RestKept(h.store, BinStored(h.store, c, nb, small), c, nb, small)
  {
    if c.size - nb >= 32 && !small { RestBinned(h, c, Chunk(c.addr + nb, c.size - nb)); }
    StoreRest(h, c, nb, small);
  }

  lemma StoreRest(h: Heap, c: Chunk, nb: nat, small: bool)
    requires BinsShape(h.store.bins) && nb <= c.size && !IsDv(h.store, c) && (small && nb + 32 <= c.size ==> IsSmall(h.store.dvsize))
    requires c.size - nb >= 32 && !small ==>
               IsBinned(With(Less(h.store.bins, c.addr, c.size), c.addr + nb, c.size - nb), Chunk(c.addr + nb, c.size - nb))
    ensures RestKept(h.store, BinStored(h.store, c, nb, small), c, nb, small)
  {
    var less := Less(h.store.bins, c.addr, c.size);
    if c.size - nb < 32 {
      assert BinStored(h.store, c, nb, small) == h.store.(bins := less);
    } else if small {
      SmallRest(h.store.(bins := less), c.addr + nb, c.size - nb);
    } else {
      assert BinStored(h.store, c, nb, small) == h.store.(bins := With(less, c.addr + nb, c.size - nb));
    }
  }

  lemma SmallRest(t: Store, p: nat, size: nat)
    requires BinsShape(t.bins) && IsSmall(t.dvsize)
    ensures FileRest(t, p, size, true).dv == p && FileRest(t, p, size, true).dvsize == size
  {
  }

  /** A request served from a free chunk leaves its rest in `dv` if it is small or came from `dv`, and in a bin if it is large. */
  lemma RestGoes(h: Heap, bytes: nat, mapped: nat, c: Chunk)
    requires HeapOk(h) && c in FreeChunks(h) && Malloc(h, bytes, mapped).mem == c.addr + 16
    requires exists x :: x in FreeChunks(h) && Request(bytes) <= x.size
    ensures RestKept(h.store, Malloc(h, bytes, mapped).heap.store, c, Request(bytes), IsSmallRequest(bytes))
  {
    var s, r, t := Chunks(h), ChoiceOf(h, bytes), h.store;
    ChoiceExact(h, s, bytes);
    StoreSizes(h, s);
    if r.FromBin? {
      FreeAt(h, c, Chunk(r.addr, r.size));
      BinFits(h, bytes, c);
      BinRest(h, c, Request(bytes), IsSmallRequest(bytes));
      BinStore(h, bytes, mapped, c, Request(bytes), IsSmallRequest(bytes));
    } else {
      var x :| x in FreeChunks(h) && Request(bytes) <= x.size;
      FreeOrDv(h, s, x);
      FreeAt(h, c, Chunk(t.dv, t.dvsize));
    }
  }

  lemma NoneUsed(s: seq<Span>)
    requires After(s, true) && UsedOf(s) == multiset{}
    ensures s == []
  {
  }

  /** With nothing in use, all memory is `top` again and every bin is empty. */
  lemma AllFreed(h: Heap)
    requires HeapOk(h) && Used(h) == multiset{}
    ensures Chunks(h) == [] && FreeChunks(h) == multiset{} && h.store.dvsize == 0 && Binned(h.store.bins) == multiset{}
    ensures h.segment.top == h.segment.base && (h.segment.size > 0 ==> h.segment.topsize + TOP_FOOT == h.segment.size)
  {
    NoneUsed(Chunks(h));
    var b, d := Binned(h.store.bins), DvOf(h.store);
    if h.store.dvsize > 0 { InEither(b, d, Chunk(h.store.dv, h.store.dvsize)); }
    forall x ensures b[x] == 0 { assert (b + d)[x] == 0; }
  }

  // ---------------------------------------------------------------- users' writes

  /** A user writes a word of a chunk in use. */
  lemma WriteKeeps(h: Heap, i: nat, a: nat, v: nat)
    requires HeapOk(h) && i < |Chunks(h)| && InPayload(Chunks(h)[i], a)
    ensures var h' := h.(mem := h.mem[a := v]);
            HeapOk(h') && Chunks(h') == Chunks(h) && forall j: nat | j < |Chunks(h)| && j != i :: SameIn(h.mem, h'.mem, Chunks(h)[j])
  {
    var s, g, m' := Chunks(h), h.segment, h.mem[a := v];
    forall j: nat | j < |s| ensures SpanAt(m', s, j, g.base, true) { WriteElsewhere(h.mem, s, g.base, i, j, a, v); }
    forall j: nat | j < |s| && j != i ensures SameIn(h.mem, m', s[j]) {
      if i < j { Ordered(h.mem, s, g.base, true, i, j); } else { Ordered(h.mem, s, g.base, true, j, i); }
    }
    EndsAfter(h.mem, s, g.base, true);
    Below(h.mem, s, g.base, true, i);
    assert TopOk(m', g.top, g.topsize);
    GoodChunks(h.(mem := m'), s);
  }

  /** No head or foot is in what a user may write. */
  lemma WriteElsewhere(m: Memory, s: seq<Span>, from: nat, i: nat, j: nat, a: nat, v: nat)
    requires Run(m, s, from, true) && i < |s| && j < |s| && InPayload(s[i], a)
    ensures SpanAt(m[a := v], s, j, from, true)
  {
    assert SpanAt(m, s, j, from, true) && SpanAt(m, s, i, from, true);
    if i < j { Ordered(m, s, from, true, i, j); }
    if j < i { Ordered(m, s, from, true, j, i); }
  }

  // ---------------------------------------------------------------- runs

  datatype Op = Alloc(bytes: nat, mapped: nat) | Release(mem: nat) | Write(a: nat, v: nat)

  /** The system answers as it may, and users free what is theirs and write where they may. */
  ghost predicate Allowed(h: Heap, op: Op) {
    && BinsShape(h.store.bins)
    && match op {
         case Alloc(bytes, mapped) => Answer(h, Request(bytes), mapped)
         case Release(mem) => mem == 0 || exists c :: c in Used(h) && c.addr + 16 == mem
         case Write(a, v) => exists i: nat :: i < |Chunks(h)| && InPayload(Chunks(h)[i], a)
       }
  }

  function Apply(h: Heap, op: Op): Heap
    requires BinsShape(h.store.bins)
  {
    match op
    case Alloc(bytes, mapped) => Malloc(h, bytes, mapped).heap
    case Release(mem) => Free(h, mem)
    case Write(a, v) => h.(mem := h.mem[a := v])
  }

  /** `ops`, each allowed when its turn comes, lead from `h` to `h'`. */
  ghost predicate Leads(h: Heap, ops: seq<Op>, h': Heap)
    decreases |ops|
  {
    if ops == [] then h' == h else Allowed(h, ops[0]) && Leads(Apply(h, ops[0]), ops[1..], h')
  }

  /** A heap before its first use. */
  function Empty(): Heap {
    Heap(map[], Segment(0, 0, 0, 0), Store(Bins(Blank([]), Blank(false), Blank(Nil), Blank(false)), 0, 0))
  }

  lemma EmptyOk()
    ensures HeapOk(Empty()) && Used(Empty()) == multiset{}
  {
    EmptyBins(Empty().store.bins);
    assert Chunks(Empty()) == [];
  }

  lemma EmptyBins(b: Bins)
    requires BinsShape(b) && (forall i | 0 <= i < BINS :: b.small[i] == [] && !b.smallmap[i] && b.trees[i] == Nil && !b.treemap[i])
    ensures BinsOk(b) && Binned(b) == multiset{}
  {
    NoChunks(b.trees, BINS);
    NoSmall(b.small, BINS);
  }

  lemma {:induction false} NoSmall(small: seq<seq<nat>>, n: nat)
    requires n <= |small| && forall i | 0 <= i < n :: small[i] == []
    ensures SmallContent(small, n) == multiset{}
    decreases n
  {
    if n > 0 { NoSmall(small, n - 1); }
  }

  /** Every operation that is allowed keeps the heap in order. */
  lemma ApplyKeeps(h: Heap, op: Op)
    requires HeapOk(h) && Allowed(h, op)
    ensures HeapOk(Apply(h, op))
  {
    match op {
      case Alloc(bytes, mapped) => MallocKeeps(h, bytes, mapped);
      case Release(mem) =>
        if mem != 0 {
          var c :| c in Used(h) && c.addr + 16 == mem;
          FreeHeapKeeps(h, c, mem);
        }
      case Write(a, v) =>
        var i: nat :| i < |Chunks(h)| && InPayload(Chunks(h)[i], a);
        WriteKeeps(h, i, a, v);
    }
  }

  /** So does every run. */
  lemma {:induction false} RunKeeps(h: Heap, ops: seq<Op>, h': Heap)
    requires HeapOk(h) && Leads(h, ops, h')
    ensures HeapOk(h')
    decreases |ops|
  {
    if ops != [] {
      ApplyKeeps(h, ops[0]);
      RunKeeps(Apply(h, ops[0]), ops[1..], h');
    }
  }

  /** The operation neither frees the chunk `x` nor writes in it. */
  predicate Spares(op: Op, x: Span) {
    match op
    case Alloc(_, _) => true
    case Release(mem) => mem != x.addr + 16
    case Write(a, v) => !InPayload(x, a)
  }

  lemma ApplySpares(h: Heap, op: Op, x: Span)
    requires HeapOk(h) && Allowed(h, op) && x in Chunks(h) && x.used && Spares(op, x)
    ensures x in Chunks(Apply(h, op)) && SameIn(h.mem, Apply(h, op).mem, x)
  {
    var c := Chunk(x.addr, x.size);
    var k :| 0 <= k < |Chunks(h)| && Chunks(h)[k] == x;
    match op {
      case Alloc(bytes, mapped) =>
        AllocSpares(h, bytes, mapped, k);
        Member(Chunks(Malloc(h, bytes, mapped).heap), c);
      case Release(mem) => if mem != 0 { ReleaseSpares(h, mem, x, c); }
      case Write(a, v) => WriteSpares(h, a, v, k);
    }
  }

  lemma ReleaseSpares(h: Heap, mem: nat, x: Span, c: Chunk)
    requires HeapOk(h) && x in Chunks(h) && x.used && c == Chunk(x.addr, x.size) && mem != x.addr + 16
    requires exists d :: d in Used(h) && d.addr + 16 == mem
    ensures x in Chunks(Free(h, mem)) && SameIn(h.mem, Free(h, mem).mem, x)
  {
    var d :| d in Used(h) && d.addr + 16 == mem;
    FreeHeapKeeps(h, d, mem);
    FreeSpares(h, Free(h, mem), d, x, c);
  }

  lemma WriteSpares(h: Heap, a: nat, v: nat, k: nat)
    requires HeapOk(h) && Allowed(h, Write(a, v)) && k < |Chunks(h)| && !InPayload(Chunks(h)[k], a)
    ensures var h' := h.(mem := h.mem[a := v]); Chunks(h)[k] in Chunks(h') && SameIn(h.mem, h'.mem, Chunks(h)[k])
  {
    var i: nat :| i < |Chunks(h)| && InPayload(Chunks(h)[i], a);
    WriteKeeps(h, i, a, v);
  }

  lemma AllocSpares(h: Heap, bytes: nat, mapped: nat, k: nat)
    requires HeapOk(h) && Answer(h, Request(bytes), mapped) && k < |Chunks(h)| && Chunks(h)[k].used
    ensures var x, o := Chunks(h)[k], Malloc(h, bytes, mapped);
            Chunk(x.addr, x.size) in Used(o.heap) && SameIn(h.mem, o.heap.mem, x)
  {
    var x, o := Chunks(h)[k], Malloc(h, bytes, mapped);
    var c := Chunk(x.addr, x.size);
    Member(Chunks(h), c);
    assert x in Chunks(h);
    MallocKeeps(h, bytes, mapped);
    if o.mem != 0 { InEither(Used(h), multiset{Chunk(o.mem - 16, ChunkSize(Head(o.heap.mem, o.mem - 16)))}, c); }
  }

  lemma InRest(u: multiset<Chunk>, d: Chunk, u': multiset<Chunk>, c: Chunk)
    requires u' + multiset{d} == u && c in u && c != d
    ensures c in u'
  {
    assert (u' + multiset{d})[c] == u[c];
  }

  lemma FreeSpares(h: Heap, h': Heap, d: Chunk, x: Span, c: Chunk)
    requires Used(h') + multiset{d} == Used(h) && SameData(h.mem, h'.mem, Chunks(h'))
    requires x in Chunks(h) && x.used && c == Chunk(x.addr, x.size) && c != d
    ensures x in Chunks(h') && SameIn(h.mem, h'.mem, x)
  {
    Member(Chunks(h), c);
    InRest(Used(h), d, Used(h'), c);
    Member(Chunks(h'), c);
    var k :| 0 <= k < |Chunks(h')| && Chunks(h')[k] == x;
    assert SameIn(h.mem, h'.mem, Chunks(h')[k]);
  }

  /** Over any run that neither frees a chunk nor writes in it, it stays in use with the same data. */
  lemma {:induction false} RunSpares(h: Heap, ops: seq<Op>, h': Heap, x: Span)
    requires HeapOk(h) && Leads(h, ops, h') && x in Chunks(h) && x.used && forall i | 0 <= i < |ops| :: Spares(ops[i], x)
    ensures HeapOk(h') && x in Chunks(h') && SameIn(h.mem, h'.mem, x)
    decreases |ops|
  {
    if ops != [] {
      var h1 := Apply(h, ops[0]);
      ApplyKeeps(h, ops[0]);
      ApplySpares(h, ops[0], x);
      RunSpares(h1, ops[1..], h', x);
      forall a: nat | InPayload(x, a) ensures Word(h'.mem, a) == Word(h.mem, a) { assert Word(h1.mem, a) == Word(h.mem, a); }
    }
  }

  /** After any run from the start that leaves nothing in use, all memory is `top` again. */
  lemma RunFreesAll(ops: seq<Op>, h: Heap)
    requires Leads(Empty(), ops, h) && Used(h) == multiset{}
    ensures Chunks(h) == [] && h.store.dvsize == 0 && BinsOk(h.store.bins) && Binned(h.store.bins) == multiset{}
    ensures h.segment.top == h.segment.base && (h.segment.size > 0 ==> h.segment.topsize + TOP_FOOT == h.segment.size)
  {
    EmptyOk();
    RunKeeps(Empty(), ops, h);
    AllFreed(h);
  }

  // ---------------------------------------------------------------- freeing and asking again

  /** Taking out the chunk a small bin was given last leaves the bins as they were. */
  lemma WithLess(b: Bins, addr: nat, size: nat)
    requires BinsOk(b) && IsSmall(size)
    ensures BinsShape(b) && Less(With(b, addr, size), addr, size) == b
  {
    var i := size / 8;
    var l := b.small[i];
    assert ([addr] + l)[1..] == l;
    assert Without([addr] + l, addr) == l;
    assert b.small[i := [addr] + l][i := l] == b.small;
    if l == [] { assert b.smallmap[i := true][i := false] == b.smallmap; } else { assert b.smallmap[i := true] == b.smallmap; }
  }

  /** The chunk a small bin was given last is the one that serves a request of its size. */
  lemma LastFirst(b: Bins, dvsize: nat, addr: nat, size: nat)
    requires BinsOk(b) && size % 8 == 0 && size / 8 + 1 < BINS
    ensures BinsShape(b) && Choose(With(b, addr, size), dvsize, size, true) == FromBin(addr, size)
  {
    assert With(b, addr, size).small[size / 8][0] == addr;
  }

  /** `m'` is `m` but for the word at `a`. */
  ghost predicate SameBut(m: Memory, m': Memory, a: nat) { forall x: nat | x != a :: Word(m', x) == Word(m, x) }

  /** Chunk `k` is in use, between chunks in use. */
  predicate Between(s: seq<Span>, k: nat) {
    k + 1 < |s| && s[k].used && s[k + 1].used && (k == 0 || s[k - 1].used)
  }

  lemma BetweenHeads(h: Heap, k: nat, p: nat, n: nat)
    requires HeapOk(h) && Between(Chunks(h), k) && p == Chunks(h)[k].addr && n == Chunks(h)[k].size
    ensures Head(h.mem, p) == n + 3 && PInUse(Head(h.mem, p + n)) && CInUse(Head(h.mem, p + n)) && ChunkSize(n + 3) == n >= MIN_CHUNK
  {
    EachChunk(h, k);
    EachChunk(h, k + 1);
  }

  /** Such a chunk joins no other when it is freed. */
  lemma FreedBetween(h: Heap, p: nat, n: nat)
    requires BinsShape(h.store.bins) && Head(h.mem, p) == n + 3 && CInUse(Head(h.mem, p + n)) && ChunkSize(n + 3) == n
    ensures Free(h, p + 16) == Heap(FreeBefore(h.mem, p, n, p + n), h.segment, h.store.(bins := With(h.store.bins, p, n)))
  {
  }

  /** Both heads are then as they were. */
  lemma HeadsAgain(m: Memory, p: nat, n: nat)
    requires Head(m, p) == n + 3 && PInUse(Head(m, p + n)) && n >= MIN_CHUNK
    ensures SameBut(m, UseWhole(FreeBefore(m, p, n, p + n), p, n), p + n)
  {
    assert Head(FreeBefore(m, p, n, p + n), p + n) == Head(m, p + n) - 1;
  }

  /** The chunk a bin was given last serves the request as a whole. */
  lemma ServedAgain(h: Heap, b: Bins, p: nat, n: nat)
    requires BinsOk(b) && n % 8 == 0 && n / 8 + 1 < BINS && h.store.bins == With(b, p, n)
    ensures BinsShape(h.store.bins) && Choose(h.store.bins, h.store.dvsize, n, true) == FromBin(p, n)
    ensures TakeBinned(h, p, n, n, true) == Outcome(Heap(UseWhole(h.mem, p, n), h.segment, h.store.(bins := b)), p + 16)
  {
    LastFirst(b, h.store.dvsize, p, n);
    WithLess(b, p, n);
  }

  lemma SmallServed(h: Heap, bytes: nat, mapped: nat, p: nat, n: nat)
    requires BinsShape(h.store.bins) && IsSmallRequest(bytes) && Request(bytes) == n
    requires Choose(h.store.bins, h.store.dvsize, n, true) == FromBin(p, n)
    ensures Malloc(h, bytes, mapped) == TakeBinned(h, p, n, n, true)
  {
  }

  /** What comes of freeing a chunk that joins no other and asking for as much again. */
  ghost predicate Again(h: Heap, o: Outcome, p: nat, n: nat) {
    o.mem == p + 16 && o.heap.store == h.store && o.heap.segment == h.segment && SameBut(h.mem, o.heap.mem, p + n)
  }

  lemma AgainServed(h: Heap, p: nat, n: nat, bytes: nat, mapped: nat)
    requires BinsOk(h.store.bins) && Head(h.mem, p) == n + 3 && PInUse(Head(h.mem, p + n)) && CInUse(Head(h.mem, p + n))
    requires ChunkSize(n + 3) == n >= MIN_CHUNK && n % 8 == 0 && n / 8 + 1 < BINS && IsSmallRequest(bytes) && n == Request(bytes)
    ensures Again(h, Malloc(Free(h, p + 16), bytes, mapped), p, n)
  {
    FreedBetween(h, p, n);
    var h1 := Free(h, p + 16);
    ServedAgain(h1, h.store.bins, p, n);
    SmallServed(h1, bytes, mapped, p, n);
    HeadsAgain(h.mem, p, n);
  }

  lemma SmallFits(bytes: nat, n: nat)
    requires IsSmallRequest(bytes) && n == Request(bytes)
    ensures n % 8 == 0 && n / 8 + 1 < BINS
  {
    RequestExact(bytes);
  }

  /**
    Freeing a small chunk between chunks in use, and asking for as much again, gives the same
    memory back and leaves the heap as it was, but for the foot in the chunk's own last word.
   */
  lemma FreedAgain(h: Heap, k: nat, bytes: nat, mapped: nat, p: nat, n: nat)
    requires HeapOk(h) && Between(Chunks(h), k) && p == Chunks(h)[k].addr && n == Chunks(h)[k].size
    requires IsSmallRequest(bytes) && n == Request(bytes)
    ensures Again(h, Malloc(Free(h, p + 16), bytes, mapped), p, n)
  {
    SmallFits(bytes, n);
    BetweenHeads(h, k, p, n);
    AgainServed(h, p, n, bytes, mapped);
  }

  lemma TopFreed(h: Heap, p: nat, n: nat)
    requires BinsShape(h.store.bins) && Head(h.mem, p) == n + 3 && ChunkSize(n + 3) == n && p + n == h.segment.top
    requires !CInUse(Head(h.mem, p + n)) && p != h.store.dv
    ensures var h' := Free(h, p + 16);
            h'.store == h.store && h'.segment == h.segment.(top := p, topsize := h.segment.topsize + n)
  {
  }

  /** `dv` is below `top`. */
  lemma DvBelow(h: Heap)
    requires HeapOk(h) && h.segment.topsize > 0
    ensures h.store.dv != h.segment.top && h.segment.topsize % 16 == 0
  {
    var s, g, d := Chunks(h), h.segment, Chunk(h.store.dv, h.store.dvsize);
    StoreSizes(h, s);
    if d.size > 0 {
      Member(s, d);
      var i :| 0 <= i < |s| && s[i] == Span(d.addr, d.size, false);
      RunAround(h.mem, s, g.base, i);
    }
  }

  /** The heads after a request has been served from `top`. */
  lemma TopHeads(h: Heap, nb: nat)
    requires nb < h.segment.topsize && nb % 16 == 0 && h.segment.topsize % 16 == 0 && nb > 0
    ensures var m := TakeTop(h, nb).heap.mem;
            Head(m, h.segment.top) == nb + 3 && ChunkSize(nb + 3) == nb && !CInUse(Head(m, h.segment.top + nb))
  {
    HeadReads(nb, true, true);
    HeadReads(h.segment.topsize - nb, false, true);
  }

  /** No free chunk fits, but `top` has room. */
  ghost predicate OnlyTop(h: Heap, nb: nat) { (forall c | c in FreeChunks(h) :: c.size < nb) && nb < h.segment.topsize }

  lemma TopServed(h: Heap, bytes: nat, mapped: nat, nb: nat)
    requires HeapOk(h) && nb == Request(bytes) && OnlyTop(h, nb)
    ensures BinsShape(h.store.bins) && Malloc(h, bytes, mapped) == TakeTop(h, nb)
  {
    ChoiceExact(h, Chunks(h), bytes);
    StoreSizes(h, Chunks(h));
  }

  lemma NeededWhole(bytes: nat, nb: nat)
    requires nb == Request(bytes) && bytes < 0xffff_ffff_ffff_ff80
    ensures nb % 16 == 0 && nb > 0
  {
    RequestExact(bytes);
  }

  /** Freeing what was cut off the start of `top` gives it back to `top`. */
  lemma TopReturned(h: Heap, bytes: nat, mapped: nat, nb: nat)
    requires HeapOk(h) && nb == Request(bytes) && bytes < 0xffff_ffff_ffff_ff80 && OnlyTop(h, nb)
    ensures var o := Malloc(h, bytes, mapped);
            var h' := Free(o.heap, o.mem); h'.store == h.store && h'.segment == h.segment
  {
    NeededWhole(bytes, nb);
    TopServed(h, bytes, mapped, nb);
    DvBelow(h);
    TopHeads(h, nb);
    TopFreed(TakeTop(h, nb).heap, h.segment.top, nb);
  }
}
