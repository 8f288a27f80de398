/** The tree bins: which bin a size belongs to, the map of bins in use, and the operations on them in place. */
module MallocBins {
  import opened Arithmetic
  import opened MallocTrie
  import opened MallocFit

  const BINS: nat := 32
  const INT: nat := 0x1_0000_0000

  function Log2(x: nat): nat { if x <= 1 then 0 else 1 + Log2(x / 2) }

  /** The bin of a size.  The quotient is cut to 32 bits first. */
  function TreeIndex(s: nat): nat {
    var x := s / 256 % INT;
    if x == 0 then 0
    else if x > 0xffff then BINS - 1
    else 2 * Log2(x) + if Bit(s, Log2(x) + 7) then 1 else 0
  }

  /** The smallest size of a bin. */
  function BinLow(i: nat): nat { Pow2(i / 2 + 8) + if i % 2 == 1 then Pow2(i / 2 + 7) else 0 }

  predicate InBin(i: nat, s: nat) { BinLow(i) <= s && (i < BINS - 1 ==> s < BinLow(i + 1)) }

  /** The bits a bin's trie resolves, and the size it resolves them from. */
  function BinBits(i: nat): nat { if i == BINS - 1 then 64 else i / 2 + 7 }

  function BinBase(i: nat): nat { if i == BINS - 1 then 0 else BinLow(i) }

  // ---------------------------------------------------------------- the index is exact below 2^40

  lemma {:induction false} Log2Exact(x: nat)
    requires x > 0
    ensures Pow2(Log2(x)) <= x < Pow2(Log2(x) + 1)
    decreases x
  {
    if x > 1 { Log2Exact(x / 2); }
  }

  lemma PowFour(k: nat)
    ensures Pow2(k + 2) == 4 * Pow2(k)
  {
    assert Pow2(k + 1) == 2 * Pow2(k);
  }

  lemma Pow8(k: nat)
    ensures Pow2(k + 8) == 256 * Pow2(k)
  {
    PowFour(k);
    PowFour(k + 2);
    PowFour(k + 4);
    PowFour(k + 6);
  }

  lemma {:induction false} PowAligned(n: nat, k: nat)
    requires k <= n
    ensures Aligned(Pow2(n), k)
    decreases k
  {
    if k > 0 { PowAligned(n - 1, k - 1); }
  }

  lemma BinEnds(i: nat)
    ensures BinLow(i + 1) == BinLow(i) + Pow2(i / 2 + 7)
  {
  }

  lemma SmallIndex(s: nat, k: nat)
    requires Pow2(k) <= s / 256 < Pow2(k + 1)
    ensures var i := 2 * k + if Bit(s, k + 7) then 1 else 0; BinLow(i) <= s < BinLow(i + 1)
  {
    Pow8(k);
    Pow8(k + 1);
    PowAligned(k + 8, k + 8);
    BitHalves(s, k + 7, Pow2(k + 8));
    BinEnds(2 * k);
    BinEnds(2 * k + 1);
  }

  lemma TwoTo(k: nat, p: nat)
    requires (k == 16 && p == 0x1_0000) || (k == 24 && p == 0x100_0000) || (k == 32 && p == INT) || (k == 40 && p == 0x100_0000_0000)
    ensures Pow2(k) == p
  {
    assert Pow2(8) == 256;
    Pow8(8);
    Pow8(16);
    Pow8(24);
    Pow8(32);
  }

  lemma LastLow()
    ensures BinLow(BINS - 1) < Pow2(24)
  {
    PowStep(22);
    PowStep(23);
  }

  lemma PowStep(k: nat)
    ensures Pow2(k + 1) == 2 * Pow2(k)
  {
  }

  lemma IndexFits(s: nat)
    ensures TreeIndex(s) < BINS
  {
    var x := s / 256 % INT;
    if 0 < x <= 0xffff { Log2Small(x); }
  }

  lemma Log2Small(x: nat)
    requires 0 < x <= 0xffff
    ensures Log2(x) <= 15
  {
    Log2Exact(x);
    TwoTo(16, 0x1_0000);
    if Log2(x) >= 16 { PowMonotone(16, Log2(x)); }
  }

  /** Below 2^40 nothing is cut off. */
  lemma IndexUncut(s: nat, x: nat)
    requires x == s / 256 && 1 <= x < INT
    ensures TreeIndex(s) == if x > 0xffff then BINS - 1 else 2 * Log2(x) + if Bit(s, Log2(x) + 7) then 1 else 0
  {
    assert x % INT == x;
  }

  lemma IndexInBin(s: nat, x: nat)
    requires x == s / 256 && 1 <= x < INT
    ensures InBin(TreeIndex(s), s)
  {
    IndexUncut(s, x);
    if x <= 0xffff {
      Log2Exact(x);
      Log2Small(x);
      SmallIndex(s, Log2(x));
    } else {
      TwoTo(24, 0x100_0000);
      LastLow();
    }
  }

  /** The bit that tells the last two bins apart. */
  lemma {:induction false} BitAt(s: nat, n: nat, q: nat)
    requires q * Pow2(n) <= s < q * Pow2(n) + Pow2(n)
    ensures Bit(s, n) <==> q % 2 == 1
    decreases n
  {
    if n > 0 {
      var p := Pow2(n - 1);
      assert q * Pow2(n) == 2 * (q * p);
      assert q * p <= s / 2 < q * p + p;
      BitAt(s / 2, n - 1, q);
    }
  }

  /** The last bin is chosen exactly if the quotient, cut to 32 bits, is 0xc000 or more. */
  lemma LastBinExactly(s: nat, x: nat)
    requires x == s / 256 % INT
    ensures TreeIndex(s) == BINS - 1 <==> x >= 0xc000
  {
    TwoTo(16, 0x1_0000);
    assert Pow2(16) == 2 * Pow2(15);
    if 0 < x <= 0xffff {
      Log2Exact(x);
      Log2Small(x);
      if Log2(x) < 15 { PowMonotone(Log2(x) + 1, 15); } else { Bit22(s, x); }
    }
  }

  lemma Bit22(s: nat, x: nat)
    requires x == s / 256 % INT && 0x8000 <= x <= 0xffff
    ensures Bit(s, 22) <==> x >= 0xc000
  {
    TwoTo(24, 0x100_0000);
    PowStep(23);
    PowStep(22);
    var k, j := s / 256 / INT, x / 0x4000;
    Quotients(s, k, x, j);
    BitAt(s, 22, 0x4_0000 * k + j);
  }

  lemma Quotients(s: nat, k: nat, x: nat, j: nat)
    requires s / 256 == INT * k + x && x / 0x4000 == j
    ensures (0x4_0000 * k + j) * 0x40_0000 <= s < (0x4_0000 * k + j) * 0x40_0000 + 0x40_0000 && (0x4_0000 * k + j) % 2 == j % 2
  {
    assert s == 256 * (INT * k + x) + s % 256;
    assert x == 0x4000 * j + x % 0x4000;
  }

  /** The index is the bin of the size exactly if the quotient fits in 32 bits, or the bits cut from it leave the last bin. */
  lemma IndexExact(s: nat)
    requires s >= 256
    ensures TreeIndex(s) < BINS
    ensures InBin(TreeIndex(s), s) <==> s / 256 < INT || s / 256 % INT >= 0xc000
  {
    IndexFits(s);
    LastBinExactly(s, s / 256 % INT);
    if s / 256 < INT {
      IndexInBin(s, s / 256);
    } else {
      TwoTo(24, 0x100_0000);
      LastLow();
      if TreeIndex(s) < BINS - 1 { LowsGrow(TreeIndex(s) + 1, BINS - 1); }
    }
  }

  lemma {:induction false} LowsGrow(i: nat, j: nat)
    requires i <= j
    ensures BinLow(i) <= BinLow(j)
    decreases j
  {
    if i < j { BinEnds(j - 1); LowsGrow(i, j - 1); }
  }

  /** A chunk of 2^40 bytes goes to the bin of the smallest sizes. */
  lemma HugeMisplaced()
    ensures TreeIndex(0x100_0000_0000) == 0 && !InBin(0, 0x100_0000_0000)
  {
    assert BinLow(1) == Pow2(8) + Pow2(7);
    assert Pow2(8) == 256 && Pow2(7) == 128;
  }

  // ---------------------------------------------------------------- bins

  ghost predicate BinOk(i: nat, t: Trie) {
    && Fits(t, BinBits(i), BinBase(i)) && Single(t)
    && forall s | s in Sizes(t) :: InBin(i, s)
  }

  lemma BinAligned(i: nat)
    requires i < BINS - 1
    ensures Aligned(BinBase(i), BinBits(i)) && BinBase(i) + Pow2(BinBits(i)) == BinLow(i + 1)
  {
    var k := i / 2 + 7;
    PowAligned(k + 1, k + 1);
    AlignedHalves(Pow2(k + 1), k);
    BinEnds(i);
  }

  lemma LowsFit(i: nat)
    requires i < BINS
    ensures BinLow(i) <= WORD
  {
    LowsGrow(i, BINS - 1);
    LastLow();
    TwoTo(24, 0x100_0000);
  }

  /** A bin's range is aligned to the bits its trie resolves. */
  lemma BinShape(i: nat)
    requires i < BINS
    ensures Aligned(BinBase(i), BinBits(i)) && BinBase(i) + Pow2(BinBits(i)) <= WORD
    ensures i < BINS - 1 ==> BinBase(i) + Pow2(BinBits(i)) == BinLow(i + 1)
  {
    if i == BINS - 1 {
      Pow64();
      ZeroAligned(64);
    } else {
      BinAligned(i);
      LowsFit(i + 1);
    }
  }

  lemma Pow64()
    ensures Pow2(64) == WORD
  {
    TwoTo(40, 0x100_0000_0000);
    Pow8(40);
    Pow8(48);
    Pow8(56);
  }

  lemma {:induction false} ZeroAligned(n: nat)
    ensures Aligned(0, n)
    decreases n
  {
    if n > 0 { ZeroAligned(n - 1); }
  }

  lemma InBinRange(i: nat, s: nat)
    requires i < BINS && InBin(i, s) && s < WORD
    ensures BinBase(i) <= s < BinBase(i) + Pow2(BinBits(i))
  {
    BinShape(i);
    if i == BINS - 1 { Pow64(); }
  }

  /** The large sizes whose index is that of their bin. */
  predicate Large(s: nat) { 256 <= s < WORD && (s / 256 < INT || s / 256 % INT >= 0xc000) }

  lemma LargeInBin(s: nat)
    requires Large(s)
    ensures TreeIndex(s) < BINS && InBin(TreeIndex(s), s)
    ensures BinBase(TreeIndex(s)) <= s < BinBase(TreeIndex(s)) + Pow2(BinBits(TreeIndex(s)))
  {
    IndexExact(s);
    InBinRange(TreeIndex(s), s);
  }

  /** `v` is the best fit among all the bins, and a chunk of one of them. */
  ghost predicate BestBins(v: Trie, trees: seq<Trie>, nb: nat) {
    && (v.Nil? ==> forall i, s | 0 <= i < |trees| && s in Sizes(trees[i]) :: s < nb)
    && (v.Node? ==>
          && v.size >= nb && v.chain != []
          && (exists i :: 0 <= i < |trees| && Chunk(v.chain[0], v.size) in Content(trees[i]))
          && forall i, s | 0 <= i < |trees| && s in Sizes(trees[i]) && s >= nb :: v.size <= s)
  }

  /** A lower bin holds only smaller sizes. */
  lemma BinsOrdered(i: nat, s: nat, j: nat, s': nat)
    requires i < j < BINS && InBin(i, s) && InBin(j, s')
    ensures s < s'
  {
    LowsGrow(i + 1, j);
  }

  /** What a search of the request's own bin finds is the best of all. */
  lemma OwnBinBest(trees: seq<Trie>, idx: nat, nb: nat, r: Trie)
    requires |trees| == BINS && (forall i | 0 <= i < BINS :: BinOk(i, trees[i])) && Large(nb) && idx == TreeIndex(nb) < BINS
    requires r == Finish(Descend(trees[idx], BinBits(idx), nb, Nil, Nil), nb) && r.Node?
    ensures BestBins(r, trees, nb)
  {
    OwnBin(trees, idx, nb);
    FinishPart(trees[idx], BinBits(idx), nb);
    PartContent(r, trees[idx], BinBits(idx), BinBase(idx));
    LargeInBin(nb);
    assert InBin(idx, r.size) by { assert BinOk(idx, trees[idx]); }
    forall i, s | 0 <= i < |trees| && s in Sizes(trees[i]) && s >= nb ensures r.size <= s {
      NoneBetter(trees, idx, idx, nb, r.size, i, s);
    }
  }

  lemma OwnBin(trees: seq<Trie>, idx: nat, nb: nat)
    requires |trees| == BINS && (forall i | 0 <= i < BINS :: BinOk(i, trees[i])) && Large(nb) && idx == TreeIndex(nb) < BINS
    ensures BestOf(Finish(Descend(trees[idx], BinBits(idx), nb, Nil, Nil), nb), Nil, Sizes(trees[idx]), nb)
  {
    LargeInBin(nb);
    BinShape(idx);
    assert BinOk(idx, trees[idx]);
    DescendBest(trees[idx], BinBits(idx), BinBase(idx), nb, Nil, Nil, 0, 0);
    assert Sizes(trees[idx]) + Sizes(Nil) == Sizes(trees[idx]);
  }

  /** A bin above the request's is searched down its leftmost path. */
  lemma UpperBin(j: nat, t: Trie, nb: nat)
    requires j < BINS && BinOk(j, t) && t.Node? && 0 < nb < WORD && forall s | s in Sizes(t) :: s >= nb
    ensures var r := Walk(t, nb, Nil);
            BestOf(r, Nil, Sizes(t), nb) && r.Node? && r.chain != [] && Chunk(r.chain[0], r.size) in Content(t) && r.size in Sizes(t)
  {
    BinShape(j);
    AtLeastFrom(t, nb);
    WalkBest(t, BinBits(j), BinBase(j), nb, Nil);
    WalkPart(t, nb, Nil);
    assert t.size in Sizes(t);
    PartContent(Walk(t, nb, Nil), t, BinBits(j), BinBase(j));
  }

  /** No size in any bin fits better than `best`, from bin `b`: bins below `a` are too small, those above `b` too big. */
  lemma NoneBetter(trees: seq<Trie>, a: nat, b: nat, nb: nat, best: nat, i: nat, s: nat)
    requires a <= b < |trees| == BINS && InBin(a, nb) && InBin(b, best) && i < BINS && BinOk(i, trees[i])
    requires i == b ==> best <= s
    requires i == a != b ==> s < nb
    requires a < i < b ==> trees[i].Nil?
    requires s in Sizes(trees[i]) && s >= nb
    ensures best <= s
  {
    if i < a { BinsOrdered(i, s, a, nb); }
    if i > b { BinsOrdered(b, best, i, s); }
  }

  /** What a search of the next bin in use finds is the best of all, when the request's own bin has nothing. */
  lemma NextBinBest(trees: seq<Trie>, idx: nat, j: nat, nb: nat, r: Trie)
    requires |trees| == BINS && (forall i | 0 <= i < BINS :: BinOk(i, trees[i])) && Large(nb) && idx == TreeIndex(nb) < j < BINS
    requires (forall s | s in Sizes(trees[idx]) :: s < nb) && (forall i | idx < i < j :: trees[i].Nil?) && trees[j].Node?
    requires r == Walk(trees[j], nb, Nil)
    ensures BestBins(r, trees, nb)
  {
    LargeInBin(nb);
    NextBinAbove(trees[j], idx, j, nb);
    UpperBin(j, trees[j], nb);
    assert InBin(j, r.size) by { assert BinOk(j, trees[j]); }
    forall i, s | 0 <= i < |trees| && s in Sizes(trees[i]) && s >= nb ensures r.size <= s {
      NoneBetter(trees, idx, j, nb, r.size, i, s);
    }
  }

  lemma NextBinAbove(t: Trie, idx: nat, j: nat, nb: nat)
    requires idx < j < BINS && BinOk(j, t) && InBin(idx, nb)
    ensures forall s | s in Sizes(t) :: s >= nb
  {
    forall s | s in Sizes(t) ensures s >= nb { BinsOrdered(idx, nb, j, s); }
  }

  /** Nothing fits when neither the own bin nor any above it has a chunk that does. */
  lemma NoneFits(trees: seq<Trie>, idx: nat, nb: nat)
    requires |trees| == BINS && (forall i | 0 <= i < BINS :: BinOk(i, trees[i])) && Large(nb) && idx == TreeIndex(nb)
    requires idx < BINS && (forall s | s in Sizes(trees[idx]) :: s < nb) && (forall i | idx < i < BINS :: trees[i].Nil?)
    ensures BestBins(Nil, trees, nb)
  {
    LargeInBin(nb);
    forall i, s | 0 <= i < |trees| && s in Sizes(trees[i]) ensures s < nb {
      assert BinOk(i, trees[i]);
      if i < idx { BinsOrdered(i, s, idx, nb); }
    }
  }
}
