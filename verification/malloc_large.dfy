/** The allocator's tree bins, changed in place. */
module MallocLarge {
  import opened Arithmetic
  import opened MallocTrie
  import opened MallocFit
  import opened MallocBins

  /** What every bin holds together. */
  function AllContent(trees: seq<Trie>, n: nat): multiset<Chunk>
    requires n <= |trees|
  {
    if n == 0 then multiset{} else AllContent(trees, n - 1) + Content(trees[n - 1])
  }

  lemma {:induction false} AllSame(trees: seq<Trie>, n: nat, i: nat, t: Trie)
    requires n <= i < |trees|
    ensures AllContent(trees[i := t], n) == AllContent(trees, n)
    decreases n
  {
    if n > 0 { AllSame(trees, n - 1, i, t); }
  }

  lemma Swap(a: multiset<Chunk>, x: multiset<Chunk>, c: multiset<Chunk>)
    ensures (a + x) + c == (a + c) + x
  {
  }

  /** A chunk more in one bin is a chunk more in all. */
  lemma {:induction false} AllMore(trees: seq<Trie>, n: nat, i: nat, t: Trie, x: multiset<Chunk>)
    requires i < n <= |trees| && Content(t) == Content(trees[i]) + x
    ensures AllContent(trees[i := t], n) == AllContent(trees, n) + x
    decreases n
  {
    var trees', a, last := trees[i := t], AllContent(trees, n - 1), Content(trees[n - 1]);
    if i < n - 1 {
      assert AllContent(trees', n - 1) == a + x by { AllMore(trees, n - 1, i, t, x); }
      assert (a + x) + last == (a + last) + x by { Swap(a, x, last); }
    } else {
      assert AllContent(trees', n - 1) == a by { AllSame(trees, n - 1, i, t); }
      assert a + (last + x) == (a + last) + x;
    }
  }

  /** Each bin is a trie of its sizes, and the map says which bins are not empty. */
  ghost predicate AllOk(trees: seq<Trie>, treemap: seq<bool>) {
    && |trees| == |treemap| == BINS && (forall i | 0 <= i < BINS :: BinOk(i, trees[i]))
    && (forall i | 0 <= i < BINS :: treemap[i] <==> trees[i].Node?)
  }

  lemma SetBin(trees: seq<Trie>, treemap: seq<bool>, i: nat, t: Trie)
    requires AllOk(trees, treemap) && i < BINS && BinOk(i, t)
    ensures AllOk(trees[i := t], treemap[i := t.Node?])
  {
    var trees' := trees[i := t];
    forall k | 0 <= k < BINS ensures BinOk(k, trees'[k]) { assert BinOk(k, trees[k]); }
  }

  // ---------------------------------------------------------------- the operations as functions of the bins

  function WithChunk(trees: seq<Trie>, addr: nat, size: nat): (r: seq<Trie>)
    requires |trees| == BINS
    ensures |r| == BINS
  {
    IndexFits(size);
    var i := TreeIndex(size);
    trees[i := Insert(trees[i], BinBits(i), addr, size)]
  }

  function Marked(treemap: seq<bool>, size: nat): (r: seq<bool>)
    requires |treemap| == BINS
    ensures |r| == BINS
  {
    IndexFits(size);
    treemap[TreeIndex(size) := true]
  }

  function WithoutChunk(trees: seq<Trie>, addr: nat, size: nat): (r: seq<Trie>)
    requires |trees| == BINS
    ensures |r| == BINS
  {
    IndexFits(size);
    var i := TreeIndex(size);
    trees[i := Unlink(trees[i], BinBits(i), addr, size)]
  }

  /** The mark goes with the last chunk of the bin. */
  function Unmarked(treemap: seq<bool>, trees': seq<Trie>, size: nat): (r: seq<bool>)
    requires |treemap| == |trees'| == BINS
    ensures |r| == BINS
  {
    IndexFits(size);
    var i := TreeIndex(size);
    if trees'[i].Nil? then treemap[i := false] else treemap
  }

  /** An array of bins that are all alike. */
  function Blank<T>(x: T): (r: seq<T>)
    ensures |r| == BINS && forall i | 0 <= i < BINS :: r[i] == x
  {
    seq(BINS, _ => x)
  }

  /** The first bin in use from `i` up. */
  function NextUsed(treemap: seq<bool>, i: nat): nat
    decreases |treemap| - i
  {
    if i >= |treemap| || treemap[i] then i else NextUsed(treemap, i + 1)
  }

  /** The node the search for a large request ends with. */
  function Best(trees: seq<Trie>, treemap: seq<bool>, nb: nat): Trie
    requires |trees| == |treemap| == BINS
  {
    IndexFits(nb);
    var idx := TreeIndex(nb);
    var f := Descend(trees[idx], BinBits(idx), nb, Nil, Nil);
    if f.rest.Node? || f.best.Node? then Finish(f, nb)
    else var i := NextUsed(treemap, idx + 1); if i < BINS then Walk(trees[i], nb, Nil) else Nil
  }

  lemma {:induction false} NextUsedExact(treemap: seq<bool>, i: nat)
    requires i <= |treemap|
    ensures var j := NextUsed(treemap, i);
            i <= j <= |treemap| && (forall k | i <= k < j :: !treemap[k]) && (j < |treemap| ==> treemap[j])
    decreases |treemap| - i
  {
    if i < |treemap| && !treemap[i] { NextUsedExact(treemap, i + 1); }
  }

  /** For a request whose index is right, the search ends with the best fit of all the bins. */
  lemma BestExact(trees: seq<Trie>, treemap: seq<bool>, nb: nat)
    requires AllOk(trees, treemap) && Large(nb)
    ensures BestBins(Best(trees, treemap, nb), trees, nb)
  {
    LargeInBin(nb);
    var idx := TreeIndex(nb);
    OwnBin(trees, idx, nb);
    var f := Descend(trees[idx], BinBits(idx), nb, Nil, Nil);
    if f.rest.Node? || f.best.Node? {
      OwnFound(trees[idx], idx, nb);
      OwnBinBest(trees, idx, nb, Finish(f, nb));
    } else {
      AboveBest(trees, treemap, idx, nb);
    }
  }

  lemma AboveBest(trees: seq<Trie>, treemap: seq<bool>, idx: nat, nb: nat)
    requires AllOk(trees, treemap) && Large(nb) && idx == TreeIndex(nb) < BINS && forall s | s in Sizes(trees[idx]) :: s < nb
    ensures var i := NextUsed(treemap, idx + 1); BestBins(if i < BINS then Walk(trees[i], nb, Nil) else Nil, trees, nb)
  {
    var i := NextUsed(treemap, idx + 1);
    NextUsedExact(treemap, idx + 1);
    if i < BINS { NextBinBest(trees, idx, i, nb, Walk(trees[i], nb, Nil)); } else { NoneFits(trees, idx, nb); }
  }

  class LargeBins {
    var trees: seq<Trie>
    var treemap: seq<bool>

    ghost predicate Valid()
      reads this
    {
      AllOk(trees, treemap)
    }

    ghost function Chunks(): multiset<Chunk>
      reads this
    {
      AllContent(trees, |trees|)
    }

    constructor ()
      ensures Valid() && Chunks() == multiset{} && trees == Blank(Nil) && treemap == Blank(false)
    {
      trees, treemap := Blank(Nil), Blank(false);
      new;
      NoChunks(trees, BINS);
    }

    predicate Shape()
      reads this
    {
      |trees| == |treemap| == BINS
    }

    /** Adding a free chunk: bins in order stay so if and only if the index of the size is that of its bin. */
    method InsertLarge(addr: nat, size: nat)
      requires Shape()
      modifies this
      ensures Shape() && trees == WithChunk(old(trees), addr, size) && treemap == Marked(old(treemap), size)
      ensures old(Valid()) && 256 <= size < WORD ==> (Valid() <==> Large(size))
      ensures old(Valid()) && Large(size) ==> Chunks() == old(Chunks()) + multiset{Chunk(addr, size)}
    {
      IndexFits(size);
      var i := TreeIndex(size);
      var t := Insert(trees[i], BinBits(i), addr, size);
      if Valid() && 256 <= size < WORD { InsertedOk(trees, treemap, addr, size); }
      trees, treemap := trees[i := t], treemap[i := true];
    }

    /** Removing a free chunk. */
    method UnlinkLarge(addr: nat, size: nat)
      requires Shape()
      modifies this
      ensures Shape() && trees == WithoutChunk(old(trees), addr, size) && treemap == Unmarked(old(treemap), trees, size)
      ensures old(Valid()) && Large(size) && Chunk(addr, size) in old(Chunks()) ==>
                Valid() && Chunks() + multiset{Chunk(addr, size)} == old(Chunks())
    {
      IndexFits(size);
      var i := TreeIndex(size);
      var t := Unlink(trees[i], BinBits(i), addr, size);
      if Valid() && Large(size) && Chunk(addr, size) in Chunks() { RemovedOk(trees, treemap, addr, size); }
      trees := trees[i := t];
      if t.Nil? { treemap := treemap[i := false]; }
    }

    /** The best fitting chunk for a large request, as the node whose first chunk it is. */
    method FindBest(nb: nat) returns (v: Trie)
      requires Shape()
      ensures v == Best(trees, treemap, nb) && (Valid() && Large(nb) ==> BestBins(v, trees, nb))
    {
      IndexFits(nb);
      if Valid() && Large(nb) { BestExact(trees, treemap, nb); }
      var idx := TreeIndex(nb);
      var t, n, rst := trees[idx], BinBits(idx), Nil;
      v := Nil;
      var exact := false;
      while t.Node? && !exact
        invariant if exact then t.Node? && Descend(trees[idx], BinBits(idx), nb, Nil, Nil) == Found(v, t)
                  else Descend(t, n, nb, v, rst) == Descend(trees[idx], BinBits(idx), nb, Nil, Nil)
        decreases !exact, t
      {
        if Improves(t, v, nb) {
          v := t;
          exact := t.size == nb;
        }
        if !exact {
          var goRight := n > 0 && Bit(nb, n - 1);
          if t.right.Node? && !goRight { rst := t.right; }
          t := if goRight then t.right else t.left;
          n := if n == 0 then 0 else n - 1;
        }
      }
      if !exact { t := rst; }
      if t.Nil? && v.Nil? {
        var i := NextBin(idx + 1);
        if i < BINS { t := trees[i]; }
      }
      v := WalkLeft(t, nb, v);
    }

    /** The first bin in use. */
    method NextBin(from: nat) returns (i: nat)
      requires Shape() && from <= BINS
      ensures i == NextUsed(treemap, from)
    {
      i := from;
      while i < BINS && !treemap[i]
        invariant i <= BINS && NextUsed(treemap, i) == NextUsed(treemap, from)
      {
        i := i + 1;
      }
    }

    /** Down the leftmost children. */
    static method WalkLeft(t0: Trie, nb: nat, v0: Trie) returns (v: Trie)
      ensures v == Walk(t0, nb, v0)
    {
      var t := t0;
      v := v0;
      while t.Node?
        invariant Walk(t, nb, v) == Walk(t0, nb, v0)
        decreases t
      {
        if Improves(t, v, nb) { v := t; }
        t := LeftmostChild(t);
      }
    }
  }

  lemma {:induction false} NoChunks(trees: seq<Trie>, n: nat)
    requires n <= |trees| && forall i | 0 <= i < n :: trees[i] == Nil
    ensures AllContent(trees, n) == multiset{}
    decreases n
  {
    if n > 0 { NoChunks(trees, n - 1); }
  }

  lemma {:induction false} InsertHas(t: Trie, n: nat, addr: nat, size: nat)
    ensures size in Sizes(Insert(t, n, addr, size))
    decreases t
  {
    if t.Node? && t.size != size {
      if n > 0 && Bit(size, n - 1) { InsertHas(t.right, n - 1, addr, size); } else { InsertHas(t.left, if n == 0 then 0 else n - 1, addr, size); }
    }
  }

  lemma InsertedOk(trees: seq<Trie>, treemap: seq<bool>, addr: nat, size: nat)
    requires AllOk(trees, treemap) && 256 <= size < WORD
    ensures var trees' := WithChunk(trees, addr, size);
            && (AllOk(trees', Marked(treemap, size)) <==> Large(size))
            && (Large(size) ==> AllContent(trees', BINS) == AllContent(trees, BINS) + multiset{Chunk(addr, size)})
  {
    IndexFits(size);
    IndexExact(size);
    var i := TreeIndex(size);
    var t := Insert(trees[i], BinBits(i), addr, size);
    assert BinOk(i, trees[i]);
    if Large(size) {
      BinInserted(i, trees[i], addr, size);
      SetBin(trees, treemap, i, t);
      AllMore(trees, BINS, i, t, multiset{Chunk(addr, size)});
    } else {
      InsertHas(trees[i], BinBits(i), addr, size);
      assert WithChunk(trees, addr, size)[i] == t && !BinOk(i, t);
    }
  }

  lemma {:induction false} AllIndex(trees: seq<Trie>, n: nat, c: Chunk) returns (i: nat)
    requires n <= |trees| && c in AllContent(trees, n)
    ensures i < n && c in Content(trees[i])
    decreases n
  {
    if c in Content(trees[n - 1]) { i := n - 1; } else { i := AllIndex(trees, n - 1, c); }
  }

  /** A chunk's size is in the bin that holds it. */
  lemma ContentInBin(trees: seq<Trie>, treemap: seq<bool>, i: nat, c: Chunk)
    requires AllOk(trees, treemap) && i < BINS && c in Content(trees[i])
    ensures InBin(i, c.size) && c.size in Sizes(trees[i]) && c.size < WORD
  {
    assert BinOk(i, trees[i]);
    ContentSize(trees[i], c);
    SizesFit(trees[i], BinBits(i), BinBase(i));
    BinShape(i);
  }

  lemma LowAtLeast(i: nat)
    ensures BinLow(i) >= 256
  {
    LowsGrow(0, i);
    assert BinLow(0) == Pow2(8) && Pow2(8) == 256;
  }

  /** Every chunk in a bin is in the bin its size is indexed to. */
  lemma OwnContent(trees: seq<Trie>, treemap: seq<bool>, c: Chunk)
    requires AllOk(trees, treemap) && c in AllContent(trees, BINS)
    ensures c.size >= 256 && TreeIndex(c.size) < BINS && (Large(c.size) ==> c in Content(trees[TreeIndex(c.size)]))
  {
    var i := AllIndex(trees, BINS, c);
    ContentInBin(trees, treemap, i, c);
    LowAtLeast(i);
    IndexFits(c.size);
    if Large(c.size) {
      LargeInBin(c.size);
      var j := TreeIndex(c.size);
      if i < j { BinsOrdered(i, c.size, j, c.size); }
      if j < i { BinsOrdered(j, c.size, i, c.size); }
    }
  }

  lemma RemovedOk(trees: seq<Trie>, treemap: seq<bool>, addr: nat, size: nat)
    requires AllOk(trees, treemap) && Large(size) && Chunk(addr, size) in AllContent(trees, BINS)
    ensures var trees' := WithoutChunk(trees, addr, size);
            && AllOk(trees', Unmarked(treemap, trees', size))
            && AllContent(trees', BINS) + multiset{Chunk(addr, size)} == AllContent(trees, BINS)
  {
    OwnContent(trees, treemap, Chunk(addr, size));
    RemoveBin(trees, treemap, TreeIndex(size), addr, size);
  }

  /** A chunk less in one bin is a chunk less in all. */
  lemma AllLess(trees: seq<Trie>, n: nat, i: nat, t: Trie, x: multiset<Chunk>)
    requires i < n <= |trees| && Content(trees[i]) == Content(t) + x
    ensures AllContent(trees[i := t], n) + x == AllContent(trees, n)
  {
    var trees' := trees[i := t];
    AllMore(trees', n, i, trees[i], x);
    assert trees'[i := trees[i]] == trees;
  }

  lemma MarkBin(trees: seq<Trie>, treemap: seq<bool>, i: nat, t: Trie)
    requires AllOk(trees, treemap) && i < BINS && BinOk(i, t) && (t.Node? ==> trees[i].Node?)
    ensures AllOk(trees[i := t], if t.Nil? then treemap[i := false] else treemap)
  {
    SetBin(trees, treemap, i, t);
    if t.Node? { assert treemap[i := true] == treemap; }
  }

  lemma RemoveBin(trees: seq<Trie>, treemap: seq<bool>, i: nat, addr: nat, size: nat)
    requires AllOk(trees, treemap) && Large(size) && i == TreeIndex(size) < BINS && Chunk(addr, size) in Content(trees[i])
    ensures var t := Unlink(trees[i], BinBits(i), addr, size);
            && AllOk(trees[i := t], if t.Nil? then treemap[i := false] else treemap)
            && AllContent(trees[i := t], |trees|) + multiset{Chunk(addr, size)} == AllContent(trees, |trees|)
  {
    var t := Unlink(trees[i], BinBits(i), addr, size);
    assert BinOk(i, trees[i]);
    BinUnlinked(i, trees[i], addr, size);
    if t.Node? { StillMarked(i, trees[i], addr, size); }
    MarkBin(trees, treemap, i, t);
    AllLess(trees, |trees|, i, t, multiset{Chunk(addr, size)});
  }

  /** A bin that is not empty after a removal was not empty before. */
  lemma StillMarked(i: nat, t: Trie, addr: nat, size: nat)
    requires Unlink(t, BinBits(i), addr, size).Node?
    ensures t.Node?
  {
  }

  lemma BinInserted(i: nat, t: Trie, addr: nat, size: nat)
    requires BinOk(i, t) && Large(size) && i == TreeIndex(size) < BINS
    ensures var r := Insert(t, BinBits(i), addr, size);
            BinOk(i, r) && r.Node? && Content(r) == Content(t) + multiset{Chunk(addr, size)}
  {
    LargeInBin(size);
    BinShape(i);
    InsertExact(t, BinBits(i), BinBase(i), addr, size);
  }

  lemma BinUnlinked(i: nat, t: Trie, addr: nat, size: nat)
    requires BinOk(i, t) && Large(size) && i == TreeIndex(size) < BINS && Chunk(addr, size) in Content(t)
    ensures var r := Unlink(t, BinBits(i), addr, size);
            BinOk(i, r) && Content(t) == Content(r) + multiset{Chunk(addr, size)}
  {
    BinShape(i);
    UnlinkExact(t, BinBits(i), BinBase(i), Chunk(addr, size));
    UnlinkSizes(t, BinBits(i), BinBase(i), addr, size);
  }

  /** A search that ended somewhere found something. */
  lemma OwnFound(t: Trie, idx: nat, nb: nat)
    requires BinOk(idx, t) && Large(nb) && idx == TreeIndex(nb) < BINS
    requires var f := Descend(t, BinBits(idx), nb, Nil, Nil); f.best.Node? || f.rest.Node?
    ensures Finish(Descend(t, BinBits(idx), nb, Nil, Nil), nb).Node?
  {
    var n, lo := BinBits(idx), BinBase(idx);
    var f := Descend(t, n, nb, Nil, Nil);
    LargeInBin(nb);
    BinShape(idx);
    RestFits(t, n, lo, nb, Nil, Nil);
    DescendPart(t, n, nb, Nil, Nil);
    if f.rest.Node? {
      PartContent(f.rest, t, n, lo);
      ContentSize(t, Chunk(f.rest.chain[0], f.rest.size));
      SizesFit(t, n, lo);
    }
    FoundSome(f, nb);
  }

  // ---------------------------------------------------------------- when the search is right

  /** Two chunks too small for `nb` on the leftmost path of the last bin hide a third that fits. */
  function Hiding(): Trie {
    Node(BinLow(BINS - 1), [0], Node(BinLow(BINS - 1) + 16, [1], Nil, Nil), Node(WORD - 256, [2], Nil, Nil))
  }

  function OnlyLast<T>(empty: T, last: T): (r: seq<T>)
    ensures |r| == BINS && r[BINS - 1] == last && forall i | 0 <= i < BINS - 1 :: r[i] == empty
  {
    seq(BINS, i => if i == BINS - 1 then last else empty)
  }

  lemma HidingOk()
    ensures BinOk(BINS - 1, Hiding())
  {
    var low := BinLow(BINS - 1);
    Pow64();
    LastLow();
    TwoTo(24, 0x100_0000);
    HidingFits(low, 64);
  }

  lemma HidingFits(low: nat, n: nat)
    requires low == BinLow(BINS - 1) && low < 0x100_0000 && n > 1 && Pow2(n) == WORD
    ensures var t := Hiding(); Fits(t, n, 0) && Single(t) && forall s | s in Sizes(t) :: low <= s
  {
    var t, p := Hiding(), Pow2(n - 1);
    assert 2 * p == WORD;
    HidingLeaf(low + 16, 1, n - 1, 0);
    HidingLeaf(WORD - 256, 2, n - 1, p);
  }

  lemma HidingLeaf(size: nat, addr: nat, n: nat, lo: nat)
    requires n > 0 && lo <= size < lo + Pow2(n)
    ensures var t := Node(size, [addr], Nil, Nil); Fits(t, n, lo) && Single(t) && Sizes(t) == {size}
  {
  }

  lemma HidingMissed(nb: nat)
    requires 0x100_0000 + 16 <= nb < WORD
    ensures Walk(Hiding(), nb, Nil) == Nil
  {
    LastLow();
    TwoTo(24, 0x100_0000);
    var t := Hiding();
    BetterExact(t, Nil, nb);
    BetterExact(t.left, Nil, nb);
    assert Walk(t, nb, Nil) == Walk(t.left, nb, Nil) == Walk(Nil, nb, Nil);
  }

  /** The search finds the best fit in all bins whatever they hold, if and only if the index of the request is that of its bin. */
  lemma SearchExactly(nb: nat)
    requires 256 <= nb < WORD
    ensures (forall trees, treemap | AllOk(trees, treemap) :: BestBins(Best(trees, treemap, nb), trees, nb)) <==> Large(nb)
  {
    if Large(nb) {
      forall trees, treemap | AllOk(trees, treemap) ensures BestBins(Best(trees, treemap, nb), trees, nb) {
        BestExact(trees, treemap, nb);
      }
    } else {
      var trees, treemap := OnlyLast(Nil, Hiding()), OnlyLast(false, true);
      HidingOk();
      assert AllOk(trees, treemap);
      MissesLast(trees, treemap, nb);
    }
  }

  lemma MissesLast(trees: seq<Trie>, treemap: seq<bool>, nb: nat)
    requires 256 <= nb < WORD && !Large(nb) && trees == OnlyLast(Nil, Hiding()) && treemap == OnlyLast(false, true)
    ensures !BestBins(Best(trees, treemap, nb), trees, nb)
  {
    IndexFits(nb);
    LastBinExactly(nb, nb / 256 % INT);
    var idx := TreeIndex(nb);
    NextUsedExact(treemap, idx + 1);
    assert NextUsed(treemap, idx + 1) == BINS - 1;
    HidingMissed(nb);
    assert Best(trees, treemap, nb) == Nil;
    assert WORD - 256 in Sizes(trees[BINS - 1]) by { assert Hiding().right.size == WORD - 256; }
  }
}
