/** The first stack of a program: argument and environment vectors laid down by `exec`, and read back at start-up. */
module ExecStack {
  import opened Arithmetic

  const STACK_SIZE: nat := 81920
  const ARG_MAX: nat := 32768
  const WORD: nat := 0x1_0000_0000_0000_0000

  /** A string without its terminator. */
  type Text = seq<nat>

  predicate IsText(t: Text) { forall i | 0 <= i < |t| :: 0 < t[i] < 256 }

  predicate IsVector(v: seq<Text>) { forall i | 0 <= i < |v| :: IsText(v[i]) }

  /** The bytes of a vector's strings, with their terminators. */
  function Size(v: seq<Text>): nat { if v == [] then 0 else |v[0]| + 1 + Size(v[1..]) }

  // ---------------------------------------------------------------- words as bytes

  /** The first `n` bytes of a number, lowest first. */
  function Bytes(v: nat, n: nat): (b: seq<nat>)
    ensures |b| == n
  {
    if n == 0 then [] else [v % 256] + Bytes(v / 256, n - 1)
  }

  function Value(b: seq<nat>): nat { if b == [] then 0 else b[0] + 256 * Value(b[1..]) }

  lemma {:induction false} ValueBytes(v: nat, n: nat)
    requires v < Pow2(8 * n)
    ensures Value(Bytes(v, n)) == v
    decreases n
  {
    if n > 0 {
      PowByte(n - 1);
      ValueBytes(v / 256, n - 1);
    }
  }

  lemma PowByte(n: nat)
    ensures Pow2(8 * n + 8) == 256 * Pow2(8 * n)
  {
    assert Pow2(8 * n + 2) == 4 * Pow2(8 * n);
    assert Pow2(8 * n + 4) == 4 * Pow2(8 * n + 2);
    assert Pow2(8 * n + 6) == 4 * Pow2(8 * n + 4);
  }

  lemma WordPower()
    ensures Pow2(64) == WORD
  {
    PowByte(0); PowByte(1); PowByte(2); PowByte(3); PowByte(4); PowByte(5); PowByte(6); PowByte(7);
  }

  // ---------------------------------------------------------------- what lies in memory

  predicate WordAt(m: seq<nat>, a: nat, v: nat) { a + 8 <= |m| && m[a..a + 8] == Bytes(v, 8) }

  predicate TextAt(m: seq<nat>, a: nat, t: Text) { a + |t| < |m| && m[a..a + |t|] == t && m[a + |t|] == 0 }

  /** `m'` differs from `m` between `from` and `to` only. */
  predicate SameOutside(m: seq<nat>, m': seq<nat>, from: nat, to: nat) {
    |m'| == |m| && forall i | 0 <= i < |m| && !(from <= i < to) :: m'[i] == m[i]
  }

  /** The words lie one after the other from `a` on. */
  predicate AllWords(m: seq<nat>, a: nat, words: seq<nat>) { forall i {:trigger words[i]} | 0 <= i < |words| :: WordAt(m, a + 8 * i, words[i]) }

  lemma WordStays(m: seq<nat>, m': seq<nat>, from: nat, to: nat, a: nat, v: nat)
    requires WordAt(m, a, v) && SameOutside(m, m', from, to) && (a + 8 <= from || to <= a)
    ensures WordAt(m', a, v)
  {
    assert m'[a..a + 8] == m[a..a + 8];
  }

  lemma TextStays(m: seq<nat>, m': seq<nat>, from: nat, to: nat, a: nat, t: Text)
    requires TextAt(m, a, t) && SameOutside(m, m', from, to) && (a + |t| < from || to <= a)
    ensures TextAt(m', a, t)
  {
    assert m'[a..a + |t|] == m[a..a + |t|];
  }

  // ---------------------------------------------------------------- copying

  /** `memmove`, whatever the overlap: forward when the destination is lower or apart, else backward. */
  method Memmove(m: array<nat>, dest: nat, src: nat, n: nat)
    requires dest + n <= m.Length && src + n <= m.Length
    modifies m
    ensures m[dest..dest + n] == old(m[src..src + n])
    ensures SameOutside(old(m[..]), m[..], dest, dest + n)
  {
    if dest < src || src + n <= dest {
      Memcpy(m, dest, src, n);
      return;
    }
    ghost var was := m[..];
    var k := n;
    while k > 0
      invariant 0 <= k <= n
      invariant forall i | dest + k <= i < dest + n :: m[i] == was[i - dest + src]
      invariant forall i | 0 <= i < m.Length && !(dest + k <= i < dest + n) :: m[i] == was[i]
    {
      k := k - 1;
      m[dest + k] := m[src + k];
    }
  }

  /** `memcpy` copies forward, so the destination may overlap the source if it is lower. */
  method Memcpy(m: array<nat>, dest: nat, src: nat, n: nat)
    requires dest + n <= m.Length && src + n <= m.Length && (dest < src || src + n <= dest)
    modifies m
    ensures m[dest..dest + n] == old(m[src..src + n])
    ensures SameOutside(old(m[..]), m[..], dest, dest + n)
  {
    ghost var was := m[..];
    var k := 0;
    while k < n
      invariant 0 <= k <= n
      invariant forall i | dest <= i < dest + k :: m[i] == was[i - dest + src]
      invariant forall i | 0 <= i < m.Length && !(dest <= i < dest + k) :: m[i] == was[i]
    {
      m[dest + k] := m[src + k];
      k := k + 1;
    }
  }

  /** `memcpy` from memory outside the stack. */
  method Write(m: array<nat>, dest: nat, bytes: seq<nat>)
    requires dest + |bytes| <= m.Length
    modifies m
    ensures m[dest..dest + |bytes|] == bytes
    ensures SameOutside(old(m[..]), m[..], dest, dest + |bytes|)
  {
    var k := 0;
    while k < |bytes|
      invariant 0 <= k <= |bytes|
      invariant forall i | 0 <= i < k :: m[dest + i] == bytes[i]
      invariant forall i | 0 <= i < m.Length && !(dest <= i < dest + k) :: m[i] == old(m[i])
    {
      m[dest + k] := bytes[k];
      k := k + 1;
    }
  }

  // ---------------------------------------------------------------- reading it back

  /** The word at an address of memory that lies at `base`. */
  function Load(m: seq<nat>, base: nat, p: nat): nat {
    if base <= p && p - base + 8 <= |m| then Value(m[p - base..p - base + 8]) else 0
  }

  /** The string at an offset, up to its terminator. */
  function TextFrom(m: seq<nat>, a: nat): Text
    decreases |m| - a
  {
    if a >= |m| || m[a] == 0 then [] else [m[a]] + TextFrom(m, a + 1)
  }

  /** The strings that the pointers from address `p` on lead to, up to a null pointer. */
  function VectorFrom(m: seq<nat>, base: nat, p: nat): seq<Text>
    decreases base + |m| - p
  {
    var q := Load(m, base, p);
    if q < base || q == 0 || p + 8 > base + |m| then [] else [TextFrom(m, q - base)] + VectorFrom(m, base, p + 8)
  }

  /** What `main` is called with. */
  datatype Vars = Vars(argc: nat, argv: nat, envp: nat)

  /** The reader at start-up: the count, then the argument pointers and a null, then the environment. */
  function Start(m: seq<nat>, base: nat, p: nat): Vars {
    var argc, argv := Load(m, base, p) % 0x1_0000_0000, p + 8;
    Vars(argc, argv, argv + 8 * (argc + 1))
  }

  lemma LoadWord(m: seq<nat>, base: nat, a: nat, v: nat, p: nat)
    requires WordAt(m, a, v) && v < WORD && p == base + a
    ensures Load(m, base, p) == v
  {
    WordPower();
    ValueBytes(v, 8);
  }

  lemma {:induction false} TextReads(m: seq<nat>, a: nat, t: Text)
    requires TextAt(m, a, t) && IsText(t)
    ensures TextFrom(m, a) == t
    decreases |t|
  {
    if t != [] {
      assert m[a..a + |t|][0] == t[0];
      assert m[a + 1..a + |t|] == m[a..a + |t|][1..];
      TextReads(m, a + 1, t[1..]);
    }
  }

  /** The pointers at `a` lead to the strings of `v`, and a null pointer follows. */
  predicate Pointed(m: seq<nat>, base: nat, a: nat, v: seq<Text>, at: seq<nat>) {
    && |at| == |v| && WordAt(m, a + 8 * |v|, 0)
    && forall i {:trigger at[i]} | 0 <= i < |v| :: 0 < at[i] && base + at[i] < WORD && WordAt(m, a + 8 * i, base + at[i]) && TextAt(m, at[i], v[i])
  }

  /** From the pointer of string `i` on, the strings are those of `v` from there on. */
  lemma {:induction false} VectorReads(m: seq<nat>, base: nat, a: nat, v: seq<Text>, at: seq<nat>, i: nat, b: nat)
    requires Pointed(m, base, a, v, at) && IsVector(v) && i <= |v| && b == a + 8 * i
    ensures VectorFrom(m, base, base + b) == v[i..]
    decreases |v| - i
  {
    if i == |v| {
      LoadWord(m, base, b, 0, base + b);
    } else {
      VectorReads(m, base, a, v, at, i + 1, b + 8);
      VectorNext(m, base, a, v, at, i, b);
    }
  }

  lemma VectorNext(m: seq<nat>, base: nat, a: nat, v: seq<Text>, at: seq<nat>, i: nat, b: nat)
    requires Pointed(m, base, a, v, at) && IsVector(v) && i < |v| && b == a + 8 * i
    requires VectorFrom(m, base, base + (b + 8)) == v[i + 1..]
    ensures VectorFrom(m, base, base + b) == v[i..]
  {
    assert v[i..] == [v[i]] + v[i + 1..];
    PointedItem(m, base, a, v, at, i, b);
    VectorItem(m, base, b, at[i], v[i]);
  }

  lemma PointedItem(m: seq<nat>, base: nat, a: nat, v: seq<Text>, at: seq<nat>, i: nat, b: nat)
    requires Pointed(m, base, a, v, at) && i < |v| && b == a + 8 * i
    ensures 0 < at[i] && base + at[i] < WORD && WordAt(m, b, base + at[i]) && TextAt(m, at[i], v[i])
  {
  }

  lemma VectorItem(m: seq<nat>, base: nat, b: nat, q: nat, t: Text)
    requires 0 < q && base + q < WORD && WordAt(m, b, base + q) && TextAt(m, q, t) && IsText(t)
    ensures VectorFrom(m, base, base + b) == [t] + VectorFrom(m, base, base + (b + 8))
  {
    LoadWord(m, base, b, base + q, base + b);
    TextReads(m, q, t);
    VectorUnfold(m, base, base + b, q);
  }

  lemma VectorUnfold(m: seq<nat>, base: nat, p: nat, q: nat)
    requires Load(m, base, p) == base + q && q > 0 && p + 8 <= base + |m|
    ensures VectorFrom(m, base, p) == [TextFrom(m, q)] + VectorFrom(m, base, p + 8)
  {
  }

  // ---------------------------------------------------------------- the builder

  /** A string and where it lies. */
  datatype Held = Held(at: nat, text: Text)

  predicate AllTexts(m: seq<nat>, held: seq<Held>) {
    forall k {:trigger held[k]} | 0 <= k < |held| :: 0 < held[k].at && TextAt(m, held[k].at, held[k].text)
  }

  /** The words from `from` on are the addresses of the first `n` strings of `v`, held from `k` on. */
  predicate Refers(base: nat, words: seq<nat>, from: nat, held: seq<Held>, k: nat, v: seq<Text>, n: nat) {
    && n <= |v| && from + n <= |words| && k + n <= |held|
    && forall i {:trigger v[i]} | 0 <= i < n :: held[k + i].text == v[i] && words[from + i] == base + held[k + i].at
  }

  class Builder {
    const base: nat
    const stack: array<nat>
    var argNext: nat           // offsets from the base
    var dataArea: nat
    ghost var words: seq<nat>
    ghost var held: seq<Held>

    ghost predicate Valid()
      reads this, stack
    {
      && stack.Length == STACK_SIZE && base % 4096 == 0 && base + STACK_SIZE < WORD
      && argNext == 8 * |words| && argNext <= dataArea <= STACK_SIZE && STACK_SIZE - (dataArea - argNext) < ARG_MAX
      && AllWords(stack[..], 0, words)
      && (forall k {:trigger held[k]} | 0 <= k < |held| :: dataArea <= held[k].at && TextAt(stack[..], held[k].at, held[k].text))
    }

    /** Fresh memory at `address`. */
    constructor (address: nat)
      requires address % 4096 == 0 && address + STACK_SIZE < WORD
      ensures Valid() && fresh(stack) && base == address && words == [] && held == [] && Used() == 0
      ensures forall i | 0 <= i < 81920 :: stack[i] == 0
    {
      base, argNext, dataArea, words, held := address, 0, STACK_SIZE, [], [];
      stack := new nat[STACK_SIZE](_ => 0);
    }

    function Used(): int
      reads this
    {
      STACK_SIZE - (dataArea - argNext)
    }

    /** Pushing a word, unless too much is used. */
    method PushArg(v: nat) returns (ok: bool)
      requires Valid()
      modifies this`argNext, this`words, stack
      ensures Valid() && ok == (old(Used()) + 8 < ARG_MAX)
      ensures words == (if ok then old(words) + [v] else old(words)) && Used() == old(Used()) + if ok then 8 else 0
    {
      ok := STACK_SIZE - (dataArea - argNext) + 8 < ARG_MAX;
      if !ok { return; }
      ghost var m := stack[..];
      Write(stack, argNext, Bytes(v, 8));
      forall i | 0 <= i < |words| ensures WordAt(stack[..], 8 * i, words[i]) {
        WordStays(m, stack[..], argNext, argNext + 8, 8 * i, words[i]);
      }
      forall k | 0 <= k < |held| ensures TextAt(stack[..], held[k].at, held[k].text) {
        TextStays(m, stack[..], argNext, argNext + 8, held[k].at, held[k].text);
      }
      assert WordAt(stack[..], argNext, v);
      words, argNext := words + [v], argNext + 8;
    }

    /** Pushing a string below those already there, unless too much is used. */
    method PushText(t: Text) returns (ok: bool)
      requires Valid() && IsText(t)
      modifies this`dataArea, this`held, stack
      ensures Valid() && ok == (old(Used()) + |t| + 1 < 32768)
      ensures held == (if ok then old(held) + [Held(dataArea, t)] else old(held))
      ensures Used() == old(Used()) + if ok then |t| + 1 else 0
    {
      ok := STACK_SIZE - (dataArea - argNext) + |t| + 1 < ARG_MAX;
      if !ok { return; }
      ghost var m, was := stack[..], dataArea;
      dataArea := dataArea - (|t| + 1);
      Write(stack, dataArea, t);
      stack[dataArea + |t|] := 0;
      forall i | 0 <= i < |words| ensures WordAt(stack[..], 8 * i, words[i]) {
        WordStays(m, stack[..], dataArea, was, 8 * i, words[i]);
      }
      forall k | 0 <= k < |held| ensures TextAt(stack[..], held[k].at, held[k].text) {
        TextStays(m, stack[..], dataArea, was, held[k].at, held[k].text);
      }
      assert stack[dataArea..dataArea + |t|] == t;
      assert TextAt(stack[..], dataArea, t);
      held := held + [Held(dataArea, t)];
    }

    /** Pushing a string, and the pointer to it. */
    method PushString(arg: Text) returns (ok: bool)
      requires Valid() && IsText(arg)
      modifies this`argNext, this`dataArea, this`words, this`held, stack
      ensures Valid() && ok == (old(Used()) + |arg| + 1 + 8 < ARG_MAX)
      ensures ok ==> Used() == old(Used()) + |arg| + 1 + 8
      ensures ok ==> held == old(held) + [Held(dataArea, arg)] && words == old(words) + [base + dataArea]
    {
      ok := PushText(arg);
      if !ok { return; }
      ok := PushArg(base + dataArea);
    }

    lemma AddingNext(words0: seq<nat>, words: seq<nat>, words': seq<nat>, held0: seq<Held>, held: seq<Held>, held': seq<Held>, args: seq<Text>, i: nat)
      requires i < |args| && Adding(words0, words, held0, held, args, i)
      requires exists at :: held' == held + [Held(at, args[i])] && words' == words + [base + at]
      ensures Adding(words0, words', held0, held', args, i + 1)
    {
    }

    /** Pushing a vector's strings and the pointers to them, and a null pointer: done exactly if there is room for all. */
    method AddArray(args: seq<Text>) returns (ok: bool)
      requires Valid() && IsVector(args)
      modifies this`argNext, this`dataArea, this`words, this`held, stack
      ensures Valid() && ok == (old(Used()) + Size(args) + 8 * |args| + 8 < 32768)
      ensures ok ==> Used() == old(Used()) + Size(args) + 8 * |args| + 8 && Added(old(words), words, old(held), held, args)
    {
      ghost var words0, held0, n := words, held, Used() + Size(args) + 8 * |args|;
      var i := 0;
      while i < |args|
        invariant 0 <= i <= |args| && Valid() && Used() + Size(args[i..]) + 8 * (|args| - i) == n
        invariant Adding(words0, words, held0, held, args, i)
      {
        assert args[i..][1..] == args[i + 1..];
        ghost var words1, held1 := words, held;
        ok := PushString(args[i]);
        if !ok { return; }
        AddingNext(words0, words1, words, held0, held1, held, args, i);
        i := i + 1;
      }
      ok := PushArg(0);
    }

    /** The first `i` strings of `args` and the pointers to them have been pushed. */
    ghost predicate Adding(words0: seq<nat>, words: seq<nat>, held0: seq<Held>, held: seq<Held>, args: seq<Text>, i: nat)
      requires i <= |args|
    {
      && |words| == |words0| + i && words[..|words0|] == words0 && |held| == |held0| + i && held[..|held0|] == held0
      && Refers(base, words, |words0|, held, |held0|, args, i)
    }

    ghost predicate Added(words0: seq<nat>, words: seq<nat>, held0: seq<Held>, held: seq<Held>, args: seq<Text>) {
      |words| == |words0| + |args| + 1 && words[|words| - 1] == 0 && Adding(words0, words[..|words| - 1], held0, held, args, |args|)
    }

    /** Writing the count in the first word. */
    method SetCount(argc: nat)
      requires Valid() && words != []
      modifies this`words, stack
      ensures Valid() && words == old(words)[0 := argc]
    {
      ghost var m := stack[..];
      Write(stack, 0, Bytes(argc, 8));
      words := words[0 := argc];
      forall i | 0 <= i < |words| ensures WordAt(stack[..], 8 * i, words[i]) {
        if i > 0 { WordStays(m, stack[..], 0, 8, 8 * i, words[i]); }
      }
      forall k | 0 <= k < |held| ensures TextAt(stack[..], held[k].at, held[k].text) {
        TextStays(m, stack[..], 0, 8, held[k].at, held[k].text);
      }
    }

    /** Pushing all there is to push. */
    method Push(argv: seq<Text>, envp: seq<Text>) returns (ok: bool)
      requires Valid() && words == [] && held == [] && Used() == 0 && IsVector(argv) && IsVector(envp)
      modifies this`argNext, this`dataArea, this`words, this`held, stack
      ensures Valid() && ok == (Size(argv) + Size(envp) + 8 * (|argv| + |envp| + 4) < ARG_MAX)
      ensures ok ==> Laid(base, words, held, argv, envp)
    {
      ok := PushArg(0);
      ok := AddArray(argv);
      if !ok { return; }
      ghost var words1, held1 := words, held;
      var argc := (argNext - 16) / 8;
      assert argc == |argv|;
      SetCount(argc);
      ghost var counted := words;
      ok := AddArray(envp);
      if !ok { return; }
      ghost var words2 := words;
      ok := PushArg(0);
      if ok { PushedAll(words1, held1, counted, words2, held, words, argv, envp); }
    }

    lemma PushedAll(words1: seq<nat>, held1: seq<Held>, w: seq<nat>, words2: seq<nat>, held2: seq<Held>, words: seq<nat>, argv: seq<Text>, envp: seq<Text>)
      requires Added([0], words1, [], held1, argv) && w == words1[0 := |argv|] && Added(w, words2, held1, held2, envp) && words == words2 + [0]
      ensures Laid(base, words, held2, argv, envp)
    {
      assert Refers(base, words1, 1, held1, 0, argv, |argv|);
      forall i {:trigger argv[i]} | 0 <= i < |argv| ensures held2[i].text == argv[i] && words[1 + i] == base + held2[i].at {
        assert held2[..|held1|][i] == held1[i] && words2[..|words2| - 1][..|w|][1 + i] == w[1 + i];
      }
      assert words2[..|words2| - 1][..|w|] == w;
      assert words[0] == w[0] && words[|argv| + 1] == w[|argv| + 1];
      assert Refers(base, words2[..|words2| - 1], |w|, held2, |held1|, envp, |envp|);
    }

    /**
      Building the stack: done exactly if all fits, and then the stack pointer is aligned and in the
      memory, and start-up reads the same vectors from it.
     */
    method Build(argv: seq<Text>, envp: seq<Text>) returns (ok: bool, sp: nat)
      requires Valid() && words == [] && held == [] && Used() == 0 && IsVector(argv) && IsVector(envp)
      modifies this`argNext, this`dataArea, this`words, this`held, stack
      ensures ok <==> Size(argv) + Size(envp) + 8 * (|argv| + |envp| + 4) < 32768
      ensures ok ==> sp % 16 == 0 && base <= sp && sp + 8 * (|argv| + |envp| + 4) <= base + 81920
      ensures ok ==> Reads(stack[..], base, sp, argv, envp)
    {
      sp := 0;
      ok := Push(argv, envp);
      if ok { sp := Place(argv, envp); }
    }

    method Place(argv: seq<Text>, envp: seq<Text>) returns (sp: nat)
      requires Valid() && Laid(base, words, held, argv, envp) && IsVector(argv) && IsVector(envp)
      modifies this`dataArea, stack
      ensures sp % 16 == 0 && base <= sp && sp + 8 * (|argv| + |envp| + 4) <= base + STACK_SIZE
      ensures Reads(stack[..], base, sp, argv, envp)
    {
      var offset := Finish();
      sp := base + offset;
      LaidReads(stack[..], base, offset, words, held, argv, envp, sp);
    }

    /** Moving the words up to the strings, so that the stack pointer is a multiple of 16; no string is overwritten. */
    method Finish() returns (sp: nat)
      requires Valid()
      modifies this`dataArea, stack
      ensures (base + sp) % 16 == 0 && old(dataArea) - 16 < sp + 8 * |words| <= old(dataArea) <= STACK_SIZE
      ensures AllWords(stack[..], sp, words) && AllTexts(stack[..], held)
    {
      ghost var m := stack[..];
      var data := base + dataArea;
      data := data - data % 8;
      if (data - argNext) / 8 % 2 == 1 { data := data - 8; }
      Aligned(base, dataArea, |words|, data);
      dataArea := data - base;
      sp := dataArea - argNext;
      Memmove(stack, sp, 0, argNext);
      forall i | 0 <= i < |words| ensures WordAt(stack[..], sp + 8 * i, words[i]) { WordMoved(m, stack[..], sp, argNext, 8 * i, words[i]); }
      forall k | 0 <= k < |held| ensures TextAt(stack[..], held[k].at, held[k].text) {
        TextStays(m, stack[..], sp, sp + argNext, held[k].at, held[k].text);
      }
    }
  }

  /** The words pushed: the count, the pointers of both vectors with their nulls, and a null for the auxiliary vector. */
  ghost predicate Laid(base: nat, words: seq<nat>, held: seq<Held>, argv: seq<Text>, envp: seq<Text>) {
    var a, e := |argv|, |envp|;
    && |words| == a + e + 4 && |held| == a + e && words[0] == a && words[a + 1] == 0 && words[a + e + 2] == 0 && words[a + e + 3] == 0
    && Refers(base, words, 1, held, 0, argv, a) && Refers(base, words, a + 2, held, a, envp, e)
  }

  /** What is read from the stack pointer on. */
  ghost predicate Reads(m: seq<nat>, base: nat, sp: nat, argv: seq<Text>, envp: seq<Text>) {
    var v := Start(m, base, sp);
    && v.argc == |argv| && VectorFrom(m, base, v.argv) == argv && VectorFrom(m, base, v.envp) == envp
    && Load(m, base, v.argv + 8 * v.argc) == 0
  }

  function Places(held: seq<Held>): (at: seq<nat>)
    ensures |at| == |held| && forall i | 0 <= i < |held| :: at[i] == held[i].at
  {
    seq(|held|, i requires 0 <= i < |held| => held[i].at)
  }

  lemma LaidReads(m: seq<nat>, base: nat, offset: nat, words: seq<nat>, held: seq<Held>, argv: seq<Text>, envp: seq<Text>, sp: nat)
    requires Laid(base, words, held, argv, envp) && IsVector(argv) && IsVector(envp)
    requires |m| == STACK_SIZE && base + STACK_SIZE < WORD && |words| < 4096 && sp == base + offset
    requires AllWords(m, offset, words) && AllTexts(m, held)
    ensures Reads(m, base, sp, argv, envp)
  {
    var a, e := |argv|, |envp|;
    var argp, envv, end := sp + 8, sp + 8 + 8 * (a + 1), sp + 8 + 8 * a;
    WordIn(m, base, offset, words, 0, sp);
    VectorIn(m, base, offset, words, held, 1, argv, 0, argp);
    WordIn(m, base, offset, words, a + 1, end);
    VectorIn(m, base, offset, words, held, a + 2, envp, a, envv);
    ReadsFrom(m, base, sp, argv, envp, argp, envv, end);
  }

  lemma ReadsFrom(m: seq<nat>, base: nat, sp: nat, argv: seq<Text>, envp: seq<Text>, argp: nat, envv: nat, end: nat)
    requires |argv| < 4096 && argp == sp + 8 && envv == argp + 8 * (|argv| + 1) && end == argp + 8 * |argv|
    requires Load(m, base, sp) == |argv| && VectorFrom(m, base, argp) == argv && VectorFrom(m, base, envv) == envp && Load(m, base, end) == 0
    ensures Reads(m, base, sp, argv, envp)
  {
    assert Start(m, base, sp) == Vars(|argv|, argp, envv);
  }

  lemma WordIn(m: seq<nat>, base: nat, offset: nat, words: seq<nat>, i: nat, p: nat)
    requires AllWords(m, offset, words) && i < |words| && words[i] < WORD && p == base + offset + 8 * i
    ensures Load(m, base, p) == words[i]
  {
    LoadWord(m, base, offset + 8 * i, words[i], p);
  }

  lemma VectorIn(m: seq<nat>, base: nat, offset: nat, words: seq<nat>, held: seq<Held>, from: nat, v: seq<Text>, k: nat, p: nat)
    requires |m| == STACK_SIZE && base + STACK_SIZE < WORD && AllWords(m, offset, words) && AllTexts(m, held) && IsVector(v)
    requires Refers(base, words, from, held, k, v, |v|) && from + |v| < |words| && words[from + |v|] == 0
    requires p == base + offset + 8 * from
    ensures VectorFrom(m, base, p) == v
  {
    var at := Places(held[k..k + |v|]);
    var a := offset + 8 * from;
    assert Pointed(m, base, a, v, at) by {
      forall i {:trigger at[i]} | 0 <= i < |v| ensures 0 < at[i] && base + at[i] < WORD && WordAt(m, a + 8 * i, base + at[i]) && TextAt(m, at[i], v[i]) {
        PointedAt(m, base, offset, words, held, from, v, k, i, at[i], a + 8 * i);
      }
      PointedEnd(m, offset, words, from + |v|, a + 8 * |v|);
    }
    VectorReads(m, base, a, v, at, 0, a);
  }

  lemma PointedEnd(m: seq<nat>, offset: nat, words: seq<nat>, i: nat, b: nat)
    requires AllWords(m, offset, words) && i < |words| && words[i] == 0 && b == offset + 8 * i
    ensures WordAt(m, b, 0)
  {
  }

  lemma PointedAt(m: seq<nat>, base: nat, offset: nat, words: seq<nat>, held: seq<Held>, from: nat, v: seq<Text>, k: nat, i: nat, at: nat, b: nat)
    requires |m| == STACK_SIZE && base + STACK_SIZE < WORD && AllWords(m, offset, words) && AllTexts(m, held)
    requires Refers(base, words, from, held, k, v, |v|) && i < |v| && at == held[k + i].at && b == offset + 8 * (from + i)
    ensures 0 < at && base + at < WORD && WordAt(m, b, base + at) && TextAt(m, at, v[i])
  {
    assert held[k + i].text == v[i] && words[from + i] == base + held[k + i].at;
  }

  lemma WordMoved(m: seq<nat>, m': seq<nat>, sp: nat, n: nat, a: nat, v: nat)
    requires WordAt(m, a, v) && a + 8 <= n && sp + n <= |m'| && n <= |m| && m'[sp..sp + n] == m[..n]
    ensures WordAt(m', sp + a, v)
  {
    var moved, x, y := m'[sp..sp + n], m'[sp + a..sp + a + 8], m[a..a + 8];
    forall k | 0 <= k < 8 ensures x[k] == y[k] { assert moved[a + k] == m'[sp + a + k]; }
    assert x == y;
  }

  lemma Aligned(base: nat, dataArea: nat, n: nat, data: nat)
    requires base % 4096 == 0 && 8 * n + STACK_SIZE - dataArea < ARG_MAX && dataArea <= STACK_SIZE
    requires var d := base + dataArea - (base + dataArea) % 8; data == if (d - 8 * n) / 8 % 2 == 1 then d - 8 else d
    ensures base + 8 * n <= data <= base + dataArea < data + 16 && (data - 8 * n) % 16 == 0
  {
  }
}
