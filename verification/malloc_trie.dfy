/**
  One tree bin of the allocator: a bitwise trie of chunk sizes whose nodes hold chunks of one
  size, with insertion, removal by leaf replacement, and the best-fit search.
 */
module MallocTrie {
  import opened Arithmetic

  const WORD: nat := 0x1_0000_0000_0000_0000

  /** Bit `n` of a size.  The code shifts sizes left until this bit is the sign bit, one place more a level. */
  predicate Bit(size: nat, n: nat) { if n == 0 then size % 2 == 1 else Bit(size / 2, n - 1) }

  /** The low `n` bits of `lo` are zero. */
  predicate Aligned(lo: nat, n: nat) { n == 0 || (lo % 2 == 0 && Aligned(lo / 2, n - 1)) }

  /** A node holds chunks of one size, by address, the tree node first. */
  datatype Trie = Nil | Node(size: nat, chain: seq<nat>, left: Trie, right: Trie)

  datatype Chunk = Chunk(addr: nat, size: nat)

  /** Sizes in the trie are `lo` and up, of `n` free low bits; each level down settles one more bit. */
  predicate Fits(t: Trie, n: nat, lo: nat)
    decreases t
  {
    t.Node? ==>
      && lo <= t.size < lo + Pow2(n) && t.chain != []
      && (if n == 0 then t.left.Nil? && t.right.Nil? else Fits(t.left, n - 1, lo) && Fits(t.right, n - 1, lo + Pow2(n - 1)))
  }

  function Sizes(t: Trie): set<nat> {
    if t.Nil? then {} else {t.size} + Sizes(t.left) + Sizes(t.right)
  }

  /** No size has two nodes. */
  predicate Single(t: Trie) {
    t.Node? ==> t.size !in Sizes(t.left) && t.size !in Sizes(t.right) && Single(t.left) && Single(t.right)
  }

  function Chain(chain: seq<nat>, size: nat): multiset<Chunk>
    decreases |chain|, size
  {
    if chain == [] then multiset{} else multiset{Chunk(chain[0], size)} + Chain(chain[1..], size)
  }

  function Content(t: Trie): multiset<Chunk> {
    if t.Nil? then multiset{} else Chain(t.chain, t.size) + Content(t.left) + Content(t.right)
  }

  // ---------------------------------------------------------------- bits and ranges

  /** In an aligned range the next bit tells the lower half from the upper. */
  lemma {:induction false} BitHalves(size: nat, n: nat, lo: nat)
    requires Aligned(lo, n + 1) && lo <= size < lo + Pow2(n + 1)
    ensures Bit(size, n) <==> size >= lo + Pow2(n)
    decreases n
  {
    if n > 0 { BitHalves(size / 2, n - 1, lo / 2); }
  }

  lemma {:induction false} AlignedHalves(lo: nat, n: nat)
    requires Aligned(lo, n + 1)
    ensures Aligned(lo, n) && Aligned(lo + Pow2(n), n)
    decreases n
  {
    if n > 0 { AlignedHalves(lo / 2, n - 1); }
  }

  /** The half of an aligned range a size is in. */
  lemma Halves(size: nat, n: nat, lo: nat)
    requires n > 0 && Aligned(lo, n) && lo <= size < lo + Pow2(n)
    ensures Bit(size, n - 1) <==> size >= lo + Pow2(n - 1)
    ensures Aligned(lo, n - 1) && Aligned(lo + Pow2(n - 1), n - 1) && Pow2(n) == 2 * Pow2(n - 1)
  {
    BitHalves(size, n - 1, lo);
    AlignedHalves(lo, n - 1);
  }

  lemma {:induction false} SizesFit(t: Trie, n: nat, lo: nat)
    requires Fits(t, n, lo)
    ensures forall s | s in Sizes(t) :: lo <= s < lo + Pow2(n)
    decreases t
  {
    if t.Node? && n > 0 {
      SizesFit(t.left, n - 1, lo);
      SizesFit(t.right, n - 1, lo + Pow2(n - 1));
    }
  }

  // ---------------------------------------------------------------- insertion

  /** A chunk of a size that is there joins its chain, after the tree node. */
  function Insert(t: Trie, n: nat, addr: nat, size: nat): Trie
    decreases t
  {
    if t.Nil? then Node(size, [addr], Nil, Nil)
    else if t.size == size then (if t.chain == [] then t else t.(chain := [t.chain[0], addr] + t.chain[1..]))
    else if n > 0 && Bit(size, n - 1) then t.(right := Insert(t.right, n - 1, addr, size))
    else t.(left := Insert(t.left, if n == 0 then 0 else n - 1, addr, size))
  }

  lemma ChainOne(addr: nat, size: nat)
    ensures Chain([addr], size) == multiset{Chunk(addr, size)}
  {
    assert [addr][1..] == [];
    assert Chain([addr][1..], size) == multiset{};
  }

  lemma ChainSecond(chain: seq<nat>, addr: nat, size: nat)
    requires chain != []
    ensures Chain([chain[0], addr] + chain[1..], size) == Chain(chain, size) + multiset{Chunk(addr, size)}
  {
    var c := [chain[0], addr] + chain[1..];
    assert c[1..] == [addr] + chain[1..];
    assert c[1..][1..] == chain[1..];
  }

  lemma {:induction false} InsertFits(t: Trie, n: nat, lo: nat, addr: nat, size: nat)
    requires Fits(t, n, lo) && Aligned(lo, n) && lo <= size < lo + Pow2(n)
    ensures Fits(Insert(t, n, addr, size), n, lo)
    decreases t
  {
    if t.Node? && t.size != size && n > 0 {
      Halves(size, n, lo);
      if Bit(size, n - 1) {
        InsertFits(t.right, n - 1, lo + Pow2(n - 1), addr, size);
      } else {
        InsertFits(t.left, n - 1, lo, addr, size);
      }
    }
  }

  lemma {:induction false} InsertSizes(t: Trie, n: nat, lo: nat, addr: nat, size: nat)
    requires Fits(t, n, lo) && Aligned(lo, n) && lo <= size < lo + Pow2(n)
    ensures Sizes(Insert(t, n, addr, size)) == Sizes(t) + {size}
    decreases t
  {
    if t.Node? && t.size != size && n > 0 {
      var b := Bit(size, n - 1);
      var h := Insert(Half(t, b), n - 1, addr, size);
      assert Sizes(h) == Sizes(Half(t, b)) + {size} by {
        HalfFits(t, n, lo, size);
        InsertSizes(Half(t, b), n - 1, if b then lo + Pow2(n - 1) else lo, addr, size);
      }
      assert Insert(t, n, addr, size) == WithHalf(t, b, h);
    }
  }

  lemma {:induction false} InsertSingle(t: Trie, n: nat, lo: nat, addr: nat, size: nat)
    requires Fits(t, n, lo) && Single(t) && Aligned(lo, n) && lo <= size < lo + Pow2(n)
    ensures Single(Insert(t, n, addr, size))
    decreases t
  {
    if t.Node? && t.size != size && n > 0 {
      Halves(size, n, lo);
      if Bit(size, n - 1) {
        InsertSingle(t.right, n - 1, lo + Pow2(n - 1), addr, size);
        InsertSizes(t.right, n - 1, lo + Pow2(n - 1), addr, size);
      } else {
        InsertSingle(t.left, n - 1, lo, addr, size);
        InsertSizes(t.left, n - 1, lo, addr, size);
      }
    }
  }

  lemma Extra(a: multiset<Chunk>, b: multiset<Chunk>, c: multiset<Chunk>, x: multiset<Chunk>)
    ensures (a + x) + b + c == (a + b + c) + x
    ensures a + (b + x) + c == (a + b + c) + x
    ensures a + b + (c + x) == (a + b + c) + x
  {
  }

  /** A trie whose half gains or loses a chunk gains or loses that chunk. */
  lemma HalfContent(t: Trie, inRight: bool, more: Trie, less: Trie, x: multiset<Chunk>)
    requires t.Node? && Content(more) == Content(less) + x
    ensures Content(WithHalf(t, inRight, more)) == Content(WithHalf(t, inRight, less)) + x
  {
    Extra(Chain(t.chain, t.size), if inRight then Content(t.left) else Content(less),
          if inRight then Content(less) else Content(t.right), x);
  }

  function Half(t: Trie, inRight: bool): Trie
    requires t.Node?
  {
    if inRight then t.right else t.left
  }

  function WithHalf(t: Trie, inRight: bool, h: Trie): Trie
    requires t.Node?
  {
    if inRight then t.(right := h) else t.(left := h)
  }

  /** What a node's half that holds a size is known to be. */
  lemma HalfFits(t: Trie, n: nat, lo: nat, size: nat)
    requires t.Node? && Fits(t, n, lo) && n > 0 && Aligned(lo, n) && lo <= size < lo + Pow2(n)
    ensures var b := Bit(size, n - 1); var lo' := if b then lo + Pow2(n - 1) else lo;
            Fits(Half(t, b), n - 1, lo') && Aligned(lo', n - 1) && lo' <= size < lo' + Pow2(n - 1)
  {
    Halves(size, n, lo);
  }

  lemma {:induction false} InsertContent(t: Trie, n: nat, lo: nat, addr: nat, size: nat)
    requires Fits(t, n, lo) && Aligned(lo, n) && lo <= size < lo + Pow2(n)
    ensures Content(Insert(t, n, addr, size)) == Content(t) + multiset{Chunk(addr, size)}
    decreases t
  {
    var x := multiset{Chunk(addr, size)};
    if t.Nil? {
      ChainOne(addr, size);
    } else if t.size == size {
      Extra(Chain(t.chain, t.size), Content(t.left), Content(t.right), x);
      ChainSecond(t.chain, addr, size);
    } else if n > 0 {
      var b := Bit(size, n - 1);
      HalfFits(t, n, lo, size);
      InsertContent(Half(t, b), n - 1, if b then lo + Pow2(n - 1) else lo, addr, size);
      HalfContent(t, b, Insert(Half(t, b), n - 1, addr, size), Half(t, b), x);
    }
  }

  /** Insertion keeps the order of bits, one node a size, and adds exactly the chunk. */
  lemma InsertExact(t: Trie, n: nat, lo: nat, addr: nat, size: nat)
    requires Fits(t, n, lo) && Single(t) && Aligned(lo, n) && lo <= size < lo + Pow2(n)
    ensures var r := Insert(t, n, addr, size);
            && Fits(r, n, lo) && Single(r) && Sizes(r) == Sizes(t) + {size}
            && Content(r) == Content(t) + multiset{Chunk(addr, size)}
  {
    InsertFits(t, n, lo, addr, size);
    InsertSizes(t, n, lo, addr, size);
    InsertSingle(t, n, lo, addr, size);
    InsertContent(t, n, lo, addr, size);
  }

  // ---------------------------------------------------------------- removal

  /** A leaf's size and chain, and the trie without it. */
  datatype Taken = Taken(size: nat, chain: seq<nat>, rest: Trie)

  /** Right children first, as the code looks for a leaf. */
  function TakeLeaf(t: Trie): Taken
    requires t.Node?
  {
    if t.right.Node? then var r := TakeLeaf(t.right); Taken(r.size, r.chain, t.(right := r.rest))
    else if t.left.Node? then var r := TakeLeaf(t.left); Taken(r.size, r.chain, t.(left := r.rest))
    else Taken(t.size, t.chain, Nil)
  }

  /** A node without chunks is replaced by a leaf below it, or goes. */
  function Replace(t: Trie): Trie
    requires t.Node?
  {
    if t.right.Node? then var r := TakeLeaf(t.right); Node(r.size, r.chain, t.left, r.rest)
    else if t.left.Node? then var r := TakeLeaf(t.left); Node(r.size, r.chain, r.rest, t.right)
    else Nil
  }

  /** Leaving a chain; if the tree node leaves, the last of the chain takes its place. */
  function Leave(chain: seq<nat>, addr: nat): seq<nat> {
    if |chain| > 1 && chain[0] == addr then [chain[|chain| - 1]] + chain[1..|chain| - 1]
    else Without(chain, addr)
  }

  function Without(chain: seq<nat>, addr: nat): seq<nat> {
    if chain == [] then [] else if chain[0] == addr then chain[1..] else [chain[0]] + Without(chain[1..], addr)
  }

  /** A chunk leaves its node. */
  function Drop(t: Trie, addr: nat): Trie
    requires t.Node?
  {
    if |t.chain| > 1 then t.(chain := Leave(t.chain, addr)) else Replace(t)
  }

  /** Removing the chunk at `addr`, of size `size`. */
  function Unlink(t: Trie, n: nat, addr: nat, size: nat): Trie
    decreases t
  {
    if t.Nil? then Nil
    else if t.size == size then Drop(t, addr)
    else if n == 0 then t
    else if Bit(size, n - 1) then t.(right := Unlink(t.right, n - 1, addr, size))
    else t.(left := Unlink(t.left, n - 1, addr, size))
  }

  lemma {:induction false} TakeLeafFits(t: Trie, n: nat, lo: nat)
    requires t.Node? && Fits(t, n, lo)
    ensures var r := TakeLeaf(t); r.chain != [] && lo <= r.size < lo + Pow2(n) && Fits(r.rest, n, lo)
    decreases t
  {
    if t.right.Node? {
      TakeLeafFits(t.right, n - 1, lo + Pow2(n - 1));
    } else if t.left.Node? {
      TakeLeafFits(t.left, n - 1, lo);
    }
  }

  lemma {:induction false} TakeLeafSizes(t: Trie, n: nat, lo: nat)
    requires t.Node? && Fits(t, n, lo) && Single(t)
    ensures var r := TakeLeaf(t); Single(r.rest) && Sizes(t) == {r.size} + Sizes(r.rest) && r.size !in Sizes(r.rest)
    decreases t
  {
    if t.right.Node? {
      TakeLeafSizes(t.right, n - 1, lo + Pow2(n - 1));
      var r := TakeLeaf(t.right);
      Apart(t, n, lo);
      TakenOut({t.size} + Sizes(t.left), Sizes(t.right), r.size, Sizes(r.rest));
    } else if t.left.Node? {
      TakeLeafSizes(t.left, n - 1, lo);
      var r := TakeLeaf(t.left);
      TakenOut({t.size}, Sizes(t.left), r.size, Sizes(r.rest));
    }
  }

  lemma TakenOut(others: set<nat>, sizes: set<nat>, z: nat, rest: set<nat>)
    requires sizes == {z} + rest && z !in rest && (forall s | s in others :: s !in sizes)
    ensures others + sizes == {z} + (others + rest) && z !in others + rest
  {
  }

  lemma {:induction false} TakeLeafContent(t: Trie)
    requires t.Node?
    ensures var r := TakeLeaf(t); Content(t) == Content(r.rest) + Chain(r.chain, r.size)
    decreases t
  {
    var r := TakeLeaf(t);
    if t.right.Node? {
      TakeLeafContent(t.right);
      Extra(Chain(t.chain, t.size), Content(t.left), Content(r.rest.right), Chain(r.chain, r.size));
    } else if t.left.Node? {
      TakeLeafContent(t.left);
      Extra(Chain(t.chain, t.size), Content(r.rest.left), Content(t.right), Chain(r.chain, r.size));
    }
  }

  /** The two halves have no size in common. */
  lemma Apart(t: Trie, n: nat, lo: nat)
    requires t.Node? && Fits(t, n, lo) && n > 0
    ensures forall s | s in Sizes(t.left) :: s !in Sizes(t.right)
  {
    SizesFit(t.left, n - 1, lo);
    SizesFit(t.right, n - 1, lo + Pow2(n - 1));
  }

  lemma ReplaceFits(t: Trie, n: nat, lo: nat)
    requires t.Node? && Fits(t, n, lo)
    ensures Fits(Replace(t), n, lo)
  {
    if t.right.Node? {
      TakeLeafFits(t.right, n - 1, lo + Pow2(n - 1));
    } else if t.left.Node? {
      TakeLeafFits(t.left, n - 1, lo);
    }
  }

  lemma ReplaceSizes(t: Trie, n: nat, lo: nat)
    requires t.Node? && Fits(t, n, lo) && Single(t)
    ensures Single(Replace(t)) && Sizes(Replace(t)) == Sizes(t) - {t.size}
  {
    if t.right.Node? {
      TakeLeafSizes(t.right, n - 1, lo + Pow2(n - 1));
      var r := TakeLeaf(t.right);
      Apart(t, n, lo);
      TakenOut({t.size} + Sizes(t.left), Sizes(t.right), r.size, Sizes(r.rest));
    } else if t.left.Node? {
      TakeLeafSizes(t.left, n - 1, lo);
      var r := TakeLeaf(t.left);
      TakenOut({t.size}, Sizes(t.left), r.size, Sizes(r.rest));
    }
  }

  lemma ReplaceContent(t: Trie)
    requires t.Node?
    ensures Content(t) == Content(Replace(t)) + Chain(t.chain, t.size)
  {
    if t.right.Node? {
      TakeLeafContent(t.right);
      var r := TakeLeaf(t.right);
      Rotate(Chain(t.chain, t.size), Content(t.left), Content(r.rest), Chain(r.chain, r.size));
    } else if t.left.Node? {
      TakeLeafContent(t.left);
      var r := TakeLeaf(t.left);
      Rotate(Chain(t.chain, t.size), Content(t.right), Content(r.rest), Chain(r.chain, r.size));
    }
  }

  lemma Rotate(c: multiset<Chunk>, l: multiset<Chunk>, r: multiset<Chunk>, x: multiset<Chunk>)
    ensures c + l + (r + x) == (x + l + r) + c
    ensures c + (r + x) + l == (x + r + l) + c
  {
  }

  lemma {:induction false} ChainConcat(a: seq<nat>, b: seq<nat>, size: nat)
    ensures Chain(a + b, size) == Chain(a, size) + Chain(b, size)
    decreases |a|
  {
    if a == [] {
      assert a + b == b;
    } else {
      assert (a + b)[1..] == a[1..] + b;
      ChainConcat(a[1..], b, size);
    }
  }

  lemma {:induction false} WithoutContent(chain: seq<nat>, addr: nat, size: nat)
    requires addr in chain
    ensures Chain(chain, size) == Chain(Without(chain, addr), size) + multiset{Chunk(addr, size)}
    decreases |chain|
  {
    if chain[0] != addr {
      var rest := Without(chain[1..], addr);
      WithoutContent(chain[1..], addr, size);
      ChainConcat([chain[0]], rest, size);
      ChainOne(chain[0], size);
    }
  }

  lemma LeaveContent(chain: seq<nat>, addr: nat, size: nat)
    requires addr in chain
    ensures Chain(chain, size) == Chain(Leave(chain, addr), size) + multiset{Chunk(addr, size)}
  {
    if |chain| > 1 && chain[0] == addr {
      var mid, last := chain[1..|chain| - 1], chain[|chain| - 1];
      assert chain == [addr] + (mid + [last]);
      ChainConcat([addr], mid + [last], size);
      ChainConcat(mid, [last], size);
      ChainConcat([last], mid, size);
      ChainOne(addr, size);
    } else {
      WithoutContent(chain, addr, size);
    }
  }

  lemma {:induction false} WithoutShorter(chain: seq<nat>, addr: nat)
    ensures |Without(chain, addr)| >= |chain| - 1
    decreases |chain|
  {
    if chain != [] && chain[0] != addr { WithoutShorter(chain[1..], addr); }
  }

  lemma LeaveSome(chain: seq<nat>, addr: nat)
    requires |chain| > 1
    ensures Leave(chain, addr) != []
  {
    WithoutShorter(chain, addr);
  }

  lemma DropFits(t: Trie, n: nat, lo: nat, addr: nat)
    requires t.Node? && Fits(t, n, lo)
    ensures Fits(Drop(t, addr), n, lo)
  {
    if |t.chain| > 1 { LeaveSome(t.chain, addr); } else { ReplaceFits(t, n, lo); }
  }

  lemma DropSizes(t: Trie, n: nat, lo: nat, addr: nat)
    requires t.Node? && Fits(t, n, lo) && Single(t)
    ensures Single(Drop(t, addr)) && Sizes(Drop(t, addr)) <= Sizes(t)
  {
    if |t.chain| <= 1 { ReplaceSizes(t, n, lo); }
  }

  lemma DropContent(t: Trie, addr: nat)
    requires t.Node? && addr in t.chain
    ensures Content(t) == Content(Drop(t, addr)) + multiset{Chunk(addr, t.size)}
  {
    if |t.chain| > 1 {
      LeaveContent(t.chain, addr, t.size);
      Extra(Chain(Leave(t.chain, addr), t.size), Content(t.left), Content(t.right), multiset{Chunk(addr, t.size)});
    } else {
      ReplaceContent(t);
      assert t.chain == [addr];
      ChainOne(addr, t.size);
    }
  }

  lemma {:induction false} UnlinkFits(t: Trie, n: nat, lo: nat, addr: nat, size: nat)
    requires Fits(t, n, lo)
    ensures Fits(Unlink(t, n, addr, size), n, lo)
    decreases t
  {
    if t.Node? {
      if t.size == size {
        DropFits(t, n, lo, addr);
      } else if n > 0 {
        if Bit(size, n - 1) { UnlinkFits(t.right, n - 1, lo + Pow2(n - 1), addr, size); } else { UnlinkFits(t.left, n - 1, lo, addr, size); }
      }
    }
  }

  lemma {:induction false} UnlinkSizes(t: Trie, n: nat, lo: nat, addr: nat, size: nat)
    requires Fits(t, n, lo) && Single(t)
    ensures Single(Unlink(t, n, addr, size)) && Sizes(Unlink(t, n, addr, size)) <= Sizes(t)
    decreases t
  {
    if t.Node? {
      if t.size == size {
        DropSizes(t, n, lo, addr);
      } else if n > 0 {
        if Bit(size, n - 1) { UnlinkSizes(t.right, n - 1, lo + Pow2(n - 1), addr, size); } else { UnlinkSizes(t.left, n - 1, lo, addr, size); }
      }
    }
  }

  lemma {:induction false} ChainSize(chain: seq<nat>, size: nat, c: Chunk)
    requires c in Chain(chain, size)
    ensures c.size == size && c.addr in chain
    decreases |chain|
  {
    if c != Chunk(chain[0], size) { ChainSize(chain[1..], size, c); }
  }

  lemma {:induction false} ContentSize(t: Trie, c: Chunk)
    requires c in Content(t)
    ensures c.size in Sizes(t)
    decreases t
  {
    if c in Chain(t.chain, t.size) {
      ChainSize(t.chain, t.size, c);
    } else if c in Content(t.left) {
      ContentSize(t.left, c);
    } else {
      ContentSize(t.right, c);
    }
  }

  /** A chunk below a node is in the half its next bit names. */
  lemma InHalf(t: Trie, n: nat, lo: nat, c: Chunk, inRight: bool)
    requires t.Node? && Fits(t, n, lo) && Aligned(lo, n) && c.size in Sizes(Half(t, inRight))
    ensures n > 0 && lo <= c.size < lo + Pow2(n) && (Bit(c.size, n - 1) <==> inRight)
  {
    SizesFit(Half(t, inRight), n - 1, if inRight then lo + Pow2(n - 1) else lo);
    Halves(c.size, n, lo);
  }

  /** The path of the size's bits leads to the chunk. */
  predicate Leads(t: Trie, n: nat, c: Chunk)
    decreases t
  {
    t.Node? && if t.size == c.size then c.addr in t.chain else n > 0 && Leads(Half(t, Bit(c.size, n - 1)), n - 1, c)
  }

  lemma {:induction false} ContentLeads(t: Trie, n: nat, lo: nat, c: Chunk)
    requires Fits(t, n, lo) && Aligned(lo, n) && c in Content(t) && Single(t)
    ensures Leads(t, n, c)
    decreases t, 1
  {
    if c in Chain(t.chain, t.size) {
      ChainSize(t.chain, t.size, c);
    } else if c in Content(t.left) {
      BelowLeads(t, n, lo, c, false);
    } else {
      BelowLeads(t, n, lo, c, true);
    }
  }

  lemma {:induction false} BelowLeads(t: Trie, n: nat, lo: nat, c: Chunk, b: bool)
    requires t.Node? && Fits(t, n, lo) && Aligned(lo, n) && Single(t) && c in Content(Half(t, b))
    ensures Leads(t, n, c)
    decreases t, 0
  {
    ContentSize(Half(t, b), c);
    InHalf(t, n, lo, c, b);
    Halves(c.size, n, lo);
    ContentLeads(Half(t, b), n - 1, if b then lo + Pow2(n - 1) else lo, c);
  }

  /** Removal takes out exactly the chunk. */
  lemma {:induction false} UnlinkContent(t: Trie, n: nat, c: Chunk)
    requires Leads(t, n, c)
    ensures Content(t) == Content(Unlink(t, n, c.addr, c.size)) + multiset{c}
    decreases t
  {
    if t.size == c.size {
      DropContent(t, c.addr);
    } else {
      UnlinkContent(Half(t, Bit(c.size, n - 1)), n - 1, c);
      UnlinkBelow(t, n, Bit(c.size, n - 1), c);
    }
  }

  lemma UnlinkBelow(t: Trie, n: nat, b: bool, c: Chunk)
    requires t.Node? && t.size != c.size && n > 0 && b == Bit(c.size, n - 1)
    requires Content(Half(t, b)) == Content(Unlink(Half(t, b), n - 1, c.addr, c.size)) + multiset{c}
    ensures Content(t) == Content(Unlink(t, n, c.addr, c.size)) + multiset{c}
  {
    HalfContent(t, b, Half(t, b), Unlink(Half(t, b), n - 1, c.addr, c.size), multiset{c});
  }

  /** Removal keeps the order of bits and one node a size, and takes out exactly the chunk. */
  lemma UnlinkExact(t: Trie, n: nat, lo: nat, c: Chunk)
    requires Fits(t, n, lo) && Single(t) && Aligned(lo, n) && c in Content(t)
    ensures var r := Unlink(t, n, c.addr, c.size);
            Fits(r, n, lo) && Single(r) && Content(t) == Content(r) + multiset{c}
  {
    UnlinkFits(t, n, lo, c.addr, c.size);
    UnlinkSizes(t, n, lo, c.addr, c.size);
    ContentLeads(t, n, lo, c);
    UnlinkContent(t, n, c);
  }
}
