/** All bins of free chunks: the lists of the small ones and the tries of the large ones. */
module MallocStore {
  import opened MallocTrie
  import opened MallocFit
  import opened MallocBins
  import opened MallocLarge

  /** Small bin `i` lists the chunks of `8 * i` bytes, the one put in last first. */
  datatype Bins = Bins(small: seq<seq<nat>>, smallmap: seq<bool>, trees: seq<Trie>, treemap: seq<bool>)

  predicate IsSmall(size: nat) { size / 8 < BINS }

  function SmallContent(small: seq<seq<nat>>, n: nat): multiset<Chunk>
    requires n <= |small|
  {
    if n == 0 then multiset{} else SmallContent(small, n - 1) + Chain(small[n - 1], 8 * (n - 1))
  }

  predicate BinsShape(b: Bins) { |b.small| == |b.smallmap| == |b.trees| == |b.treemap| == BINS }

  /** Marks say which bins are not empty, and the tries are in order. */
  ghost predicate BinsOk(b: Bins) {
    && |b.small| == |b.smallmap| == BINS && AllOk(b.trees, b.treemap)
    && forall i | 0 <= i < BINS :: b.smallmap[i] <==> b.small[i] != []
  }

  ghost function Binned(b: Bins): multiset<Chunk>
    requires |b.small| == |b.trees| == BINS
  {
    SmallContent(b.small, BINS) + AllContent(b.trees, BINS)
  }

  // ---------------------------------------------------------------- a chunk more, a chunk less

  function WithSmall(b: Bins, addr: nat, size: nat): (r: Bins)
    requires BinsShape(b) && IsSmall(size)
    ensures BinsShape(r)
  {
    var i := size / 8;
    b.(small := b.small[i := [addr] + b.small[i]], smallmap := b.smallmap[i := true])
  }

  function WithoutSmall(b: Bins, addr: nat, size: nat): (r: Bins)
    requires BinsShape(b) && IsSmall(size)
    ensures BinsShape(r)
  {
    var i := size / 8;
    var rest := Without(b.small[i], addr);
    b.(small := b.small[i := rest], smallmap := if rest == [] then b.smallmap[i := false] else b.smallmap)
  }

  function With(b: Bins, addr: nat, size: nat): (r: Bins)
    requires BinsShape(b)
    ensures BinsShape(r)
  {
    if IsSmall(size) then WithSmall(b, addr, size)
    else b.(trees := WithChunk(b.trees, addr, size), treemap := Marked(b.treemap, size))
  }

  function Less(b: Bins, addr: nat, size: nat): (r: Bins)
    requires BinsShape(b)
    ensures BinsShape(r)
  {
    if IsSmall(size) then WithoutSmall(b, addr, size)
    else var trees := WithoutChunk(b.trees, addr, size); b.(trees := trees, treemap := Unmarked(b.treemap, trees, size))
  }

  lemma {:induction false} SmallSame(small: seq<seq<nat>>, n: nat, i: nat, l: seq<nat>)
    requires n <= i < |small|
    ensures SmallContent(small[i := l], n) == SmallContent(small, n)
    decreases n
  {
    if n > 0 { SmallSame(small, n - 1, i, l); }
  }

  lemma AddLast(a: multiset<Chunk>, c: multiset<Chunk>, c': multiset<Chunk>, x: multiset<Chunk>)
    requires c' == c + x
    ensures a + c' == (a + c) + x
  {
  }

  lemma InEither(a: multiset<Chunk>, c: multiset<Chunk>, x: Chunk)
    requires x in a || x in c
    ensures x in a + c
  {
  }

  lemma {:induction false} SmallMore(small: seq<seq<nat>>, n: nat, i: nat, l: seq<nat>, was: multiset<Chunk>, x: multiset<Chunk>)
    requires i < n <= |small| && was == Chain(small[i], 8 * i) && Chain(l, 8 * i) == was + x
    ensures SmallContent(small[i := l], n) == SmallContent(small, n) + x
    decreases n
  {
    var small', last := small[i := l], Chain(small[n - 1], 8 * (n - 1));
    var a := SmallContent(small, n - 1);
    if i < n - 1 {
      assert SmallContent(small', n - 1) == a + x by { SmallMore(small, n - 1, i, l, was, x); }
      assert small'[n - 1] == small[n - 1];
      assert (a + x) + last == (a + last) + x by { Swap(a, x, last); }
    } else {
      assert SmallContent(small', n - 1) == a by { SmallSame(small, n - 1, i, l); }
      assert a + (was + x) == (a + was) + x by { AddLast(a, was, was + x, x); }
    }
  }

  lemma {:induction false} SmallBinOf(small: seq<seq<nat>>, n: nat, c: Chunk) returns (i: nat)
    requires n <= |small| && c in SmallContent(small, n)
    ensures i < n && c.addr in small[i] && c.size == 8 * i
    decreases n
  {
    if c in Chain(small[n - 1], 8 * (n - 1)) {
      i := n - 1;
      ChainSize(small[i], 8 * i, c);
    } else {
      i := SmallBinOf(small, n - 1, c);
    }
  }

  lemma {:induction false} SmallHas(small: seq<seq<nat>>, n: nat, i: nat, c: Chunk)
    requires i < n <= |small| && c in Chain(small[i], 8 * i)
    ensures c in SmallContent(small, n)
    decreases n
  {
    if i < n - 1 { SmallHas(small, n - 1, i, c); }
    InEither(SmallContent(small, n - 1), Chain(small[n - 1], 8 * (n - 1)), c);
  }

  lemma {:induction false} AllHas(trees: seq<Trie>, n: nat, i: nat, c: Chunk)
    requires i < n <= |trees| && c in Content(trees[i])
    ensures c in AllContent(trees, n)
    decreases n
  {
    var a, d := AllContent(trees, n - 1), Content(trees[n - 1]);
    assert c in a || c in d by { if i < n - 1 { AllHas(trees, n - 1, i, c); } }
    InEither(a, d, c);
  }

  /** Sizes the bins are exact for. */
  predicate Fine(size: nat) { size % 8 == 0 && (IsSmall(size) || Large(size)) }

  lemma SmallAdded(b: Bins, addr: nat, size: nat)
    requires BinsOk(b) && IsSmall(size) && size % 8 == 0
    ensures var r := WithSmall(b, addr, size); BinsOk(r) && Binned(r) == Binned(b) + multiset{Chunk(addr, size)}
  {
    var i := size / 8;
    var x, was := multiset{Chunk(addr, size)}, Chain(b.small[i], size);
    var l := [addr] + b.small[i];
    var a, large := SmallContent(b.small, BINS), AllContent(b.trees, BINS);
    assert SmallContent(b.small[i := l], BINS) == a + x by {
      ChainFirst(b.small[i], addr, size);
      SmallMore(b.small, BINS, i, l, was, x);
    }
    assert (a + x) + large == (a + large) + x by { Swap(a, x, large); }
  }

  lemma ChainFirst(l: seq<nat>, addr: nat, size: nat)
    ensures Chain([addr] + l, size) == Chain(l, size) + multiset{Chunk(addr, size)}
  {
    assert ([addr] + l)[1..] == l;
  }

  /** Putting a chunk in its bin adds exactly that chunk. */
  lemma Added(b: Bins, addr: nat, size: nat)
    requires BinsOk(b) && Fine(size)
    ensures var r := With(b, addr, size); BinsOk(r) && Binned(r) == Binned(b) + multiset{Chunk(addr, size)}
  {
    if IsSmall(size) {
      SmallAdded(b, addr, size);
    } else {
      InsertedOk(b.trees, b.treemap, addr, size);
      assert SmallContent(b.small, BINS) + (AllContent(b.trees, BINS) + multiset{Chunk(addr, size)})
          == Binned(b) + multiset{Chunk(addr, size)};
    }
  }

  lemma SmallRemovedContent(b: Bins, i: nat, addr: nat, rest: seq<nat>)
    requires BinsShape(b) && i < BINS && addr in b.small[i] && rest == Without(b.small[i], addr)
    ensures SmallContent(b.small, BINS) == SmallContent(b.small[i := rest], BINS) + multiset{Chunk(addr, 8 * i)}
  {
    var l := b.small[i];
    WithoutContent(l, addr, 8 * i);
    SmallLess(b.small, i, rest, l, Chain(rest, 8 * i), multiset{Chunk(addr, 8 * i)});
  }

  lemma SmallRemovedOk(b: Bins, addr: nat, size: nat)
    requires BinsOk(b) && IsSmall(size) && b.smallmap[size / 8]
    ensures BinsOk(WithoutSmall(b, addr, size))
  {
  }

  /** Taking a chunk out of a small bin removes exactly that chunk. */
  lemma SmallRemoved(b: Bins, addr: nat, size: nat)
    requires BinsOk(b) && IsSmall(size) && size % 8 == 0 && Chunk(addr, size) in SmallContent(b.small, BINS)
    ensures var r := WithoutSmall(b, addr, size); BinsOk(r) && Binned(r) + multiset{Chunk(addr, size)} == Binned(b)
  {
    var i := SmallBinOf(b.small, BINS, Chunk(addr, size));
    SmallRemovedOk(b, addr, size);
    SmallRemovedContent(b, i, addr, Without(b.small[i], addr));
    var r := WithoutSmall(b, addr, size);
    Swap(SmallContent(r.small, BINS), multiset{Chunk(addr, size)}, AllContent(b.trees, BINS));
  }

  lemma SmallLess(small: seq<seq<nat>>, i: nat, rest: seq<nat>, l: seq<nat>, now: multiset<Chunk>, x: multiset<Chunk>)
    requires |small| == BINS && i < BINS && l == small[i] && now == Chain(rest, 8 * i) && Chain(l, 8 * i) == now + x
    ensures SmallContent(small, BINS) == SmallContent(small[i := rest], BINS) + x
  {
    var small' := small[i := rest];
    SmallMore(small', BINS, i, l, now, x);
    assert small'[i := l] == small;
  }

  /** Taking a chunk out of its bin removes exactly that chunk. */
  lemma Removed(b: Bins, addr: nat, size: nat)
    requires BinsOk(b) && Fine(size) && Chunk(addr, size) in Binned(b)
    ensures var r := Less(b, addr, size); BinsOk(r) && Binned(r) + multiset{Chunk(addr, size)} == Binned(b)
  {
    var c := Chunk(addr, size);
    if c in AllContent(b.trees, BINS) {
      OwnContent(b.trees, b.treemap, c);
      RemovedOk(b.trees, b.treemap, addr, size);
      var r := Less(b, addr, size);
      assert SmallContent(b.small, BINS) + (AllContent(r.trees, BINS) + multiset{c}) == Binned(r) + multiset{c};
    } else {
      var i := SmallBinOf(b.small, BINS, c);
      SmallRemoved(b, addr, size);
    }
  }

  // ---------------------------------------------------------------- the chunk a request takes

  /** The node a small request takes when no small bin has a chunk for it. */
  function LeastLarge(b: Bins, nb: nat): Trie
    requires |b.trees| == |b.treemap| == BINS
  {
    var i := NextUsed(b.treemap, 0);
    if i < BINS then Walk(b.trees[i], nb, Nil) else Nil
  }

  /** `v` is a smallest large chunk. */
  ghost predicate LeastOf(v: Trie, trees: seq<Trie>)
    requires |trees| == BINS
  {
    v.Node? && v.chain != [] && Chunk(v.chain[0], v.size) in AllContent(trees, BINS)
    && forall c | c in AllContent(trees, BINS) :: v.size <= c.size
  }

  lemma LeastLargeExact(b: Bins, nb: nat)
    requires BinsOk(b) && 0 < nb < 256 && NextUsed(b.treemap, 0) < BINS
    ensures LeastOf(LeastLarge(b, nb), b.trees)
  {
    var i := NextUsed(b.treemap, 0);
    NextUsedExact(b.treemap, 0);
    var v := LeastInBin(b, i, nb);
    forall c | c in AllContent(b.trees, BINS) ensures v.size <= c.size { NotLess(b, i, v.size, c); }
  }

  lemma NotLess(b: Bins, i: nat, least: nat, c: Chunk)
    requires BinsOk(b) && i < BINS && InBin(i, least) && (forall s | s in Sizes(b.trees[i]) :: least <= s)
    requires (forall k | 0 <= k < i :: !b.treemap[k]) && c in AllContent(b.trees, BINS)
    ensures least <= c.size
  {
    var j := AllIndex(b.trees, BINS, c);
    ContentInBin(b.trees, b.treemap, j, c);
    if j > i { BinsOrdered(i, least, j, c.size); }
  }

  lemma LeastInBin(b: Bins, i: nat, nb: nat) returns (v: Trie)
    requires BinsOk(b) && 0 < nb < 256 && i < BINS && b.trees[i].Node?
    ensures v == Walk(b.trees[i], nb, Nil) && v.Node? && v.chain != [] && InBin(i, v.size)
    ensures Chunk(v.chain[0], v.size) in AllContent(b.trees, BINS) && forall s | s in Sizes(b.trees[i]) :: v.size <= s
  {
    v := Walk(b.trees[i], nb, Nil);
    LeastOfBin(b.trees[i], i, nb);
    AllHas(b.trees, BINS, i, Chunk(v.chain[0], v.size));
  }

  lemma LeastOfBin(t: Trie, i: nat, nb: nat)
    requires BinOk(i, t) && 0 < nb < 256 && i < BINS && t.Node?
    ensures var v := Walk(t, nb, Nil);
            v.Node? && v.chain != [] && InBin(i, v.size) && Chunk(v.chain[0], v.size) in Content(t) && forall s | s in Sizes(t) :: v.size <= s
  {
    LowAtLeast(i);
    UpperBin(i, t, nb);
  }

  /** What the best fit of the tries is among their chunks. */
  lemma BestChunk(trees: seq<Trie>, treemap: seq<bool>, v: Trie, nb: nat)
    requires AllOk(trees, treemap) && BestBins(v, trees, nb)
    ensures v.Nil? ==> forall c | c in AllContent(trees, BINS) :: c.size < nb
    ensures v.Node? ==> v.size >= nb && v.chain != [] && Chunk(v.chain[0], v.size) in AllContent(trees, BINS)
    ensures v.Node? ==> forall c | c in AllContent(trees, BINS) && c.size >= nb :: v.size <= c.size
  {
    if v.Node? {
      var i :| 0 <= i < |trees| && Chunk(v.chain[0], v.size) in Content(trees[i]);
      AllHas(trees, BINS, i, Chunk(v.chain[0], v.size));
    }
    forall c | c in AllContent(trees, BINS) ensures if v.Nil? then c.size < nb else c.size >= nb ==> v.size <= c.size {
      var i := AllIndex(trees, BINS, c);
      ContentInBin(trees, treemap, i, c);
    }
  }

  ghost predicate AllBelow(t: Trie, nb: nat) { t.Node? ==> t.size < nb && AllBelow(t.left, nb) && AllBelow(t.right, nb) }

  lemma {:induction false} BelowWalk(t: Trie, nb: nat)
    requires AllBelow(t, nb) && 0 < nb < WORD
    ensures Walk(t, nb, Nil) == Nil
    decreases t
  {
    if t.Node? {
      BetterExact(t, Nil, nb);
      BelowWalk(LeftmostChild(t), nb);
    }
  }

  lemma {:induction false} BelowDescend(t: Trie, n: nat, nb: nat, rst: Trie)
    requires AllBelow(t, nb) && AllBelow(rst, nb) && 0 < nb < WORD
    ensures var f := Descend(t, n, nb, Nil, rst); f.best == Nil && AllBelow(f.rest, nb)
    decreases t
  {
    if t.Node? {
      BetterExact(t, Nil, nb);
      var goRight := n > 0 && Bit(nb, n - 1);
      var rst' := if t.right.Node? && !goRight then t.right else rst;
      BelowDescend(if goRight then t.right else t.left, if n == 0 then 0 else n - 1, nb, rst');
    }
  }

  lemma {:induction false} BelowFrom(t: Trie, nb: nat)
    requires forall s | s in Sizes(t) :: s < nb
    ensures AllBelow(t, nb)
    decreases t
  {
    if t.Node? {
      assert t.size in Sizes(t) && Sizes(t.left) <= Sizes(t) && Sizes(t.right) <= Sizes(t);
      BelowFrom(t.left, nb);
      BelowFrom(t.right, nb);
    }
  }

  /** A search for more than any chunk has, whatever its index, finds nothing. */
  lemma NothingFits(trees: seq<Trie>, treemap: seq<bool>, nb: nat)
    requires AllOk(trees, treemap) && 0 < nb < WORD && forall i, s | 0 <= i < BINS && s in Sizes(trees[i]) :: s < nb
    ensures Best(trees, treemap, nb) == Nil
  {
    IndexFits(nb);
    var idx := TreeIndex(nb);
    BelowFrom(trees[idx], nb);
    BelowDescend(trees[idx], BinBits(idx), nb, Nil);
    var f := Descend(trees[idx], BinBits(idx), nb, Nil, Nil);
    BelowWalk(f.rest, nb);
    var i := NextUsed(treemap, idx + 1);
    NextUsedExact(treemap, idx + 1);
    if i < BINS {
      BelowFrom(trees[i], nb);
      BelowWalk(trees[i], nb);
    }
  }
}
