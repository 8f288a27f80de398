/**
  The chunks of the allocator's segment as they lie in memory: each with a head word that holds
  its size and two bits, a free one also with its size in the word after it.
 */
module MallocSpans {
  import opened MallocTrie

  /** Words by address; a chunk at `p` has its head at `p + 8`, and the word at `p` belongs to the chunk before it. */
  type Memory = map<nat, nat>

  const MIN_CHUNK: nat := 32

  datatype Span = Span(addr: nat, size: nat, used: bool)

  function Word(mem: Memory, a: nat): nat { if a in mem then mem[a] else 0 }

  /** A head: the size, the bit of the chunk itself and the bit of the chunk before it. */
  function HeadOf(size: nat, used: bool, prevUsed: bool): nat {
    size + (if used then 2 else 0) + (if prevUsed then 1 else 0)
  }

  function ChunkSize(head: nat): nat { head - head % 8 }

  predicate CInUse(head: nat) { head / 2 % 2 == 1 }

  predicate PInUse(head: nat) { head % 2 == 1 }

  lemma HeadReads(size: nat, used: bool, prevUsed: bool)
    requires size % 16 == 0
    ensures var h := HeadOf(size, used, prevUsed);
            ChunkSize(h) == size && CInUse(h) == used && PInUse(h) == prevUsed
  {
    var k, bits := size / 16, HeadOf(0, used, prevUsed);
    assert HeadOf(size, used, prevUsed) == 16 * k + bits && bits < 4;
    assert (16 * k + bits) % 8 == bits;
    assert (16 * k + bits) / 2 % 2 == bits / 2;
    assert (16 * k + bits) % 2 == bits % 2;
  }

  /** Where what follows `s` begins, if `s` begins at `from`. */
  function End(s: seq<Span>, from: nat): nat { if s == [] then from else s[|s| - 1].addr + s[|s| - 1].size }

  /** Whether the chunk before what follows `s` is in use. */
  function After(s: seq<Span>, p: bool): bool { if s == [] then p else s[|s| - 1].used }

  predicate SpanOk(mem: Memory, x: Span, from: nat, p: bool) {
    && x.addr == from && x.size >= MIN_CHUNK && x.size % 16 == 0
    && Word(mem, from + 8) == HeadOf(x.size, x.used, p)
    && (!x.used ==> p && Word(mem, from + x.size) == x.size)
  }

  predicate SpanAt(mem: Memory, s: seq<Span>, i: nat, from: nat, p: bool)
    requires i < |s|
  {
    if i == 0 then SpanOk(mem, s[0], from, p) else SpanOk(mem, s[i], s[i - 1].addr + s[i - 1].size, s[i - 1].used)
  }

  /** The chunks `s` lie one after the other from `from`, no two free ones together; `p` is the bit of the chunk before them. */
  predicate Run(mem: Memory, s: seq<Span>, from: nat, p: bool) {
    forall i: nat | i < |s| :: SpanAt(mem, s, i, from, p)
  }

  /** The chunks among the first `n` that are in use, or those that are not. */
  function Tally(s: seq<Span>, n: nat, used: bool): multiset<Chunk>
    requires n <= |s|
    decreases n
  {
    if n == 0 then multiset{}
    else Tally(s, n - 1, used) + if s[n - 1].used == used then multiset{Chunk(s[n - 1].addr, s[n - 1].size)} else multiset{}
  }

  function FreeOf(s: seq<Span>): multiset<Chunk> { Tally(s, |s|, false) }

  function UsedOf(s: seq<Span>): multiset<Chunk> { Tally(s, |s|, true) }

  // ---------------------------------------------------------------- one run after another

  lemma {:induction false} TallyFirst(a: seq<Span>, b: seq<Span>, n: nat, used: bool)
    requires n <= |a|
    ensures Tally(a + b, n, used) == Tally(a, n, used)
    decreases n
  {
    if n > 0 { TallyFirst(a, b, n - 1, used); }
  }

  lemma {:induction false} TallyConcat(a: seq<Span>, b: seq<Span>, n: nat, used: bool)
    requires n <= |b|
    ensures Tally(a + b, |a| + n, used) == Tally(a, |a|, used) + Tally(b, n, used)
    decreases n
  {
    if n == 0 { TallyFirst(a, b, |a|, used); } else { TallyConcat(a, b, n - 1, used); }
  }

  lemma Concat(a: seq<Span>, b: seq<Span>)
    ensures FreeOf(a + b) == FreeOf(a) + FreeOf(b) && UsedOf(a + b) == UsedOf(a) + UsedOf(b)
  {
    TallyAll(a, b, false);
    TallyAll(a, b, true);
  }

  lemma TallyAll(a: seq<Span>, b: seq<Span>, used: bool)
    ensures Tally(a + b, |a + b|, used) == Tally(a, |a|, used) + Tally(b, |b|, used)
  {
    TallyConcat(a, b, |b|, used);
  }

  lemma Concat3(a: seq<Span>, w: seq<Span>, b: seq<Span>)
    ensures FreeOf(a + (w + b)) == FreeOf(a) + (FreeOf(w) + FreeOf(b)) && UsedOf(a + (w + b)) == UsedOf(a) + (UsedOf(w) + UsedOf(b))
  {
    Concat(w, b);
    Concat(a, w + b);
  }

  lemma One(x: Span)
    ensures FreeOf([x]) == (if x.used then multiset{} else multiset{Chunk(x.addr, x.size)})
    ensures UsedOf([x]) == (if x.used then multiset{Chunk(x.addr, x.size)} else multiset{})
  {
    assert Tally([x], 0, true) == Tally([x], 0, false) == multiset{};
  }

  lemma {:induction false} TallyMember(s: seq<Span>, n: nat, used: bool, c: Chunk)
    requires n <= |s|
    ensures c in Tally(s, n, used) <==> Span(c.addr, c.size, used) in s[..n]
    decreases n
  {
    if n > 0 {
      assert s[..n] == s[..n - 1] + [s[n - 1]];
      TallyMember(s, n - 1, used, c);
    }
  }

  /** A chunk that is counted is one of the chunks. */
  lemma Member(s: seq<Span>, c: Chunk)
    ensures c in FreeOf(s) <==> Span(c.addr, c.size, false) in s
    ensures c in UsedOf(s) <==> Span(c.addr, c.size, true) in s
  {
    assert s[..|s|] == s;
    TallyMember(s, |s|, false, c);
    TallyMember(s, |s|, true, c);
  }

  lemma Joint(a: seq<Span>, b: seq<Span>, from: nat, p: bool)
    ensures End(a + b, from) == End(b, End(a, from)) && After(a + b, p) == After(b, After(a, p))
  {
  }

  lemma ConcatAt(m: Memory, a: seq<Span>, b: seq<Span>, from: nat, p: bool, i: nat)
    requires i < |a| + |b|
    ensures SpanAt(m, a + b, i, from, p) == if i < |a| then SpanAt(m, a, i, from, p) else SpanAt(m, b, i - |a|, End(a, from), After(a, p))
  {
  }

  lemma Join(m: Memory, a: seq<Span>, b: seq<Span>, from: nat, p: bool)
    requires Run(m, a, from, p) && Run(m, b, End(a, from), After(a, p))
    ensures Run(m, a + b, from, p)
  {
    forall i: nat | i < |a + b| ensures SpanAt(m, a + b, i, from, p) { ConcatAt(m, a, b, from, p, i); }
  }

  lemma Split(m: Memory, a: seq<Span>, b: seq<Span>, from: nat, p: bool)
    requires Run(m, a + b, from, p)
    ensures Run(m, a, from, p) && Run(m, b, End(a, from), After(a, p))
  {
    forall i: nat | i < |a| ensures SpanAt(m, a, i, from, p) {
      assert SpanAt(m, a + b, i, from, p);
      ConcatAt(m, a, b, from, p, i);
    }
    forall i: nat | i < |b| ensures SpanAt(m, b, i, End(a, from), After(a, p)) {
      assert SpanAt(m, a + b, |a| + i, from, p);
      ConcatAt(m, a, b, from, p, |a| + i);
    }
  }

  lemma RunOne(m: Memory, x: Span, from: nat, p: bool)
    requires SpanOk(m, x, from, p)
    ensures Run(m, [x], from, p)
  {
  }

  lemma RunTwo(m: Memory, x: Span, y: Span, from: nat, p: bool)
    requires SpanOk(m, x, from, p) && SpanOk(m, y, from + x.size, x.used)
    ensures Run(m, [x] + [y], from, p)
  {
    RunOne(m, x, from, p);
    RunOne(m, y, from + x.size, x.used);
    Join(m, [x], [y], from, p);
  }

  // ---------------------------------------------------------------- places in a run

  /** Chunks lie between the ends of the run, in order. */
  lemma {:induction false} Inside(m: Memory, s: seq<Span>, from: nat, p: bool, i: nat)
    requires Run(m, s, from, p) && i < |s|
    ensures from <= s[i].addr && s[i].addr % 16 == from % 16
    decreases i
  {
    assert SpanAt(m, s, i, from, p);
    if i > 0 {
      assert SpanAt(m, s, i - 1, from, p);
      Inside(m, s, from, p, i - 1);
      Aligned16(s[i - 1].addr, s[i - 1].size);
    }
  }

  lemma Aligned16(a: nat, n: nat)
    requires n % 16 == 0
    ensures (a + n) % 16 == a % 16
  {
  }

  lemma {:induction false} Ordered(m: Memory, s: seq<Span>, from: nat, p: bool, i: nat, j: nat)
    requires Run(m, s, from, p) && i < j < |s|
    ensures s[i].addr + s[i].size <= s[j].addr && s[j].size >= MIN_CHUNK
    decreases j
  {
    assert SpanAt(m, s, j, from, p) && SpanAt(m, s, i, from, p);
    if i < j - 1 {
      assert SpanAt(m, s, j - 1, from, p);
      Ordered(m, s, from, p, i, j - 1);
    }
  }

  lemma Below(m: Memory, s: seq<Span>, from: nat, p: bool, i: nat)
    requires Run(m, s, from, p) && i < |s|
    ensures s[i].size >= MIN_CHUNK && s[i].size % 16 == 0 && s[i].addr + s[i].size <= End(s, from)
  {
    assert SpanAt(m, s, i, from, p);
    if i < |s| - 1 { Ordered(m, s, from, p, i, |s| - 1); }
  }

  /** Where a run ends. */
  lemma EndsAfter(m: Memory, s: seq<Span>, from: nat, p: bool)
    requires Run(m, s, from, p)
    ensures from + (if s == [] then 0 else MIN_CHUNK) <= End(s, from) && End(s, from) % 16 == from % 16
  {
    if s != [] {
      Inside(m, s, from, p, |s| - 1);
      Below(m, s, from, p, |s| - 1);
    }
  }

  /** Two chunks of a run with one address are the same. */
  lemma SameAddress(m: Memory, s: seq<Span>, from: nat, p: bool, i: nat, j: nat)
    requires Run(m, s, from, p) && i < |s| && j < |s| && s[i].addr == s[j].addr
    ensures i == j
  {
    assert SpanAt(m, s, i, from, p) && SpanAt(m, s, j, from, p);
    if i < j { Ordered(m, s, from, p, i, j); }
    if j < i { Ordered(m, s, from, p, j, i); }
  }

  // ---------------------------------------------------------------- changes of memory

  /** The words after `lo` up to `hi` are the same. */
  ghost predicate Agree(m: Memory, m': Memory, lo: nat, hi: nat) {
    forall a: nat | lo < a <= hi :: Word(m', a) == Word(m, a)
  }

  lemma RunFrame(m: Memory, m': Memory, s: seq<Span>, from: nat, p: bool)
    requires Run(m, s, from, p) && Agree(m, m', from, End(s, from))
    ensures Run(m', s, from, p)
  {
    forall i: nat | i < |s| ensures SpanAt(m', s, i, from, p) {
      assert SpanAt(m, s, i, from, p);
      Inside(m, s, from, p, i);
      Below(m, s, from, p, i);
    }
  }

  /** What follows some chunks still fits when other chunks fill their place. */
  ghost predicate Follows(m: Memory, b: seq<Span>, hi: nat, p: bool) {
    b != [] ==> (b[0].used || p) && Word(m, hi + 8) == HeadOf(b[0].size, b[0].used, p)
  }

  /** All but the bit of the chunk before the first stays as it was. */
  lemma RunFlag(m: Memory, m': Memory, s: seq<Span>, from: nat, p: bool, p': bool)
    requires Run(m, s, from, p) && Agree(m, m', from + 8, End(s, from)) && Follows(m', s, from, p')
    ensures Run(m', s, from, p')
  {
    forall i: nat | i < |s| ensures SpanAt(m', s, i, from, p') {
      assert SpanAt(m, s, i, from, p) && SpanAt(m, s, 0, from, p);
      Below(m, s, from, p, i);
      if i > 0 { Ordered(m, s, from, p, 0, i); }
    }
  }

  /** Nothing outside a range of chunks changes but the bit of that range in the chunk after it. */
  ghost predicate Within(m: Memory, m': Memory, lo: nat, hi: nat) {
    forall a: nat | !(lo < a <= hi) && a != hi + 8 :: Word(m', a) == Word(m, a)
  }

  // ---------------------------------------------------------------- what users keep in their chunks

  /** The words a user may write: from the one after the head to the one before the next head. */
  predicate InPayload(x: Span, a: nat) { x.used && x.addr + 16 <= a <= x.addr + x.size }

  ghost predicate SameData(m: Memory, m': Memory, s: seq<Span>) {
    forall i: nat | i < |s| :: SameIn(m, m', s[i])
  }

  ghost predicate SameIn(m: Memory, m': Memory, x: Span) {
    forall a: nat | InPayload(x, a) :: Word(m', a) == Word(m, a)
  }

  lemma DataJoin(m: Memory, m': Memory, a: seq<Span>, b: seq<Span>)
    requires SameData(m, m', a) && SameData(m, m', b)
    ensures SameData(m, m', a + b)
  {
  }

  lemma DataBefore(m: Memory, m': Memory, s: seq<Span>, from: nat, p: bool)
    requires Run(m, s, from, p) && Agree(m, m', from, End(s, from))
    ensures SameData(m, m', s)
  {
    forall i: nat | i < |s| ensures SameIn(m, m', s[i]) {
      Inside(m, s, from, p, i);
      Below(m, s, from, p, i);
    }
  }

  lemma DataAfter(m: Memory, m': Memory, s: seq<Span>, from: nat, p: bool)
    requires Run(m, s, from, p) && Agree(m, m', from + 8, End(s, from))
    ensures SameData(m, m', s)
  {
    forall i: nat | i < |s| ensures SameIn(m, m', s[i]) {
      Inside(m, s, from, p, i);
      Below(m, s, from, p, i);
    }
  }

  // ---------------------------------------------------------------- replacing chunks

  /** Replacing some chunks in a run by others that fill the same place. */
  lemma Splice(m: Memory, m': Memory, a: seq<Span>, w: seq<Span>, w': seq<Span>, b: seq<Span>, from: nat, lo: nat, hi: nat)
    requires Run(m, a + (w + b), from, true) && lo == End(a, from) && hi == End(w, lo) == End(w', lo) && Within(m, m', lo, hi)
    requires Run(m', w', lo, After(a, true)) && Follows(m', b, hi, After(w', After(a, true)))
    ensures Run(m', a + (w' + b), from, true) && SameData(m, m', a) && SameData(m, m', b)
    ensures End(a + (w' + b), from) == End(a + (w + b), from) && hi <= End(a + (w + b), from)
  {
    Split(m, a, w + b, from, true);
    Split(m, w, b, lo, After(a, true));
    Ends(a, w, b, from, true);
    Ends(a, w', b, from, true);
    EndsAfter(m, w, lo, After(a, true));
    EndsAfter(m, b, hi, After(w, After(a, true)));
    RunFrame(m, m', a, from, true);
    RunFlag(m, m', b, hi, After(w, After(a, true)), After(w', After(a, true)));
    DataBefore(m, m', a, from, true);
    DataAfter(m, m', b, hi, After(w, After(a, true)));
    Join(m', w', b, lo, After(a, true));
    Join(m', a, w' + b, from, true);
  }

  lemma Ends(a: seq<Span>, w: seq<Span>, b: seq<Span>, from: nat, p: bool)
    ensures End(a + (w + b), from) == End(b, End(w, End(a, from))) && After(a + (w + b), p) == After(b, After(w, After(a, p)))
  {
    Joint(a, w + b, from, p);
    Joint(w, b, End(a, from), After(a, p));
  }
}
