/**
  The words that are in memory before any program is compiled: the machine-code words, and
  the control-flow words of the startup file as the threaded code they are compiled to.
 */
module ForthDictionary {
  import opened Wrappers
  import opened ForthMachine

  /** Execution token of a machine-code word. */
  function Xt(p: Prim): int {
    match p
    case Dup => 8 case Swap => 16 case TwoDup => 24 case Drop => 32 case TwoDrop => 40 case Nip => 48
    case Plus => 56 case Minus => 64 case OnePlus => 72 case True => 80 case False => 88 case ZeroEq => 96
    case QueryDup => 104 case Lit => 112 case Branch => 120 case ZeroBranch => 128 case Exit => 136
    case Bye => 144 case Here => 152 case Comma => 160 case Store => 168
  }

  /** The colon words that compile control flow; all but the first four are immediate. */
  datatype Colon =
    | PrepareForward | ResolveForward | PrepareBack | ResolveBack
    | If | Else | Then | Begin | Again | While | Repeat | Literal

  /** Execution tokens of the colon words, spaced to leave room for their bodies. */
  function Addr(w: Colon): int {
    match w
    case PrepareForward => 0x200 case ResolveForward => 0x280 case PrepareBack => 0x300 case ResolveBack => 0x380
    case If => 0x400 case Else => 0x480 case Then => 0x500 case Begin => 0x580 case Again => 0x600
    case While => 0x680 case Repeat => 0x700 case Literal => 0x780
  }

  /** One step of a colon body: a machine-code word, an inline number or a colon word. */
  datatype Act = Do(prim: Prim) | Push(n: int) | Call(word: Colon)

  datatype Acts = Done | Cons(act: Act, rest: Acts)

  /** The bodies as the startup file and the kernel define them. */
  function Body(w: Colon): Acts {
    match w
    case PrepareForward => Cons(Do(Here), Cons(Push(0), Cons(Do(Comma), Done)))
    case ResolveForward => Cons(Do(Here), Cons(Do(Swap), Cons(Do(Store), Done)))
    case PrepareBack => Cons(Do(Here), Done)
    case ResolveBack => Cons(Do(Comma), Done)
    case If => Cons(Push(Xt(ZeroBranch)), Cons(Do(Comma), Cons(Call(PrepareForward), Done)))
    case Else =>
      Cons(Push(Xt(Branch)), Cons(Do(Comma), Cons(Call(PrepareForward), Cons(Do(Swap), Cons(Call(ResolveForward), Done)))))
    case Then => Cons(Call(ResolveForward), Done)
    case Begin => Cons(Call(PrepareBack), Done)
    case Again => Cons(Push(Xt(Branch)), Cons(Do(Comma), Cons(Call(ResolveBack), Done)))
    case While => Cons(Call(If), Cons(Do(Swap), Done))
    case Repeat => Cons(Call(Again), Cons(Call(Then), Done))
    case Literal => Cons(Push(Xt(Lit)), Cons(Do(Comma), Cons(Do(Comma), Done)))
  }

  function Rank(w: Colon): nat {
    match w
    case PrepareForward => 0 case ResolveForward => 0 case PrepareBack => 0 case ResolveBack => 0
    case While => 2 case Repeat => 2
    case _ => 1
  }

  function ActCells(act: Act): seq<int> {
    match act case Do(p) => [Xt(p)] case Push(n) => [Xt(Lit), n] case Call(w) => [Addr(w)]
  }

  /** The threaded code that spells a list of acts. */
  function Cells(acts: Acts): seq<int> {
    match acts case Done => [] case Cons(act, rest) => ActCells(act) + Cells(rest)
  }

  /** Everything from here on belongs to compiled programs. */
  const FREE: int := 0x1000

  /** The cells from `base` on hold the values `code`. */
  ghost predicate CodeAt(mem: Memory, base: int, code: seq<int>) {
    forall i {:trigger code[i]} | 0 <= i < |code| :: base + CELL * i in mem && mem[base + CELL * i] == Data(code[i])
  }

  ghost predicate PrimsAt(mem: Memory) {
    forall p: Prim :: Xt(p) in mem && mem[Xt(p)] == Machine(Native(p))
  }

  /** A colon word: its code field enters it, and its body follows. */
  ghost predicate ColonAt(mem: Memory, xt: int, code: seq<int>) {
    xt in mem && mem[xt] == Machine(DoColon) && CodeAt(mem, xt + CELL, code)
  }

  ghost predicate WordAt(mem: Memory, w: Colon) {
    ColonAt(mem, Addr(w), Cells(Body(w)) + [Xt(Exit)])
  }

  /** What the startup file leaves in memory. */
  ghost predicate Image(mem: Memory) {
    PrimsAt(mem) && forall w: Colon :: WordAt(mem, w)
  }

  // ---------------------------------------------------------------- such a memory

  function PrimOf(k: int): Option<Prim> {
    match k
    case 1 => Some(Dup) case 2 => Some(Swap) case 3 => Some(TwoDup) case 4 => Some(Drop) case 5 => Some(TwoDrop) case 6 => Some(Nip)
    case 7 => Some(Plus) case 8 => Some(Minus) case 9 => Some(OnePlus) case 10 => Some(True) case 11 => Some(False) case 12 => Some(ZeroEq)
    case 13 => Some(QueryDup) case 14 => Some(Lit) case 15 => Some(Branch) case 16 => Some(ZeroBranch) case 17 => Some(Exit)
    case 18 => Some(Bye) case 19 => Some(Here) case 20 => Some(Comma) case 21 => Some(Store)
    case _ => None
  }

  function ColonOf(k: int): Option<Colon> {
    match k
    case 4 => Some(PrepareForward) case 5 => Some(ResolveForward) case 6 => Some(PrepareBack) case 7 => Some(ResolveBack)
    case 8 => Some(If) case 9 => Some(Else) case 10 => Some(Then) case 11 => Some(Begin) case 12 => Some(Again)
    case 13 => Some(While) case 14 => Some(Repeat) case 15 => Some(Literal)
    case _ => None
  }

  /** Cell `k` of a colon word: its code field, then its body. */
  function ColonCell(w: Colon, k: nat): Option<Cell> { WordCell(Cells(Body(w)) + [Xt(Exit)], k) }

  function WordCell(code: seq<int>, k: nat): Option<Cell> {
    if k == 0 then Some(Machine(DoColon)) else if k <= |code| then Some(Data(code[k - 1])) else None
  }

  /** What cell `k` of memory holds at start-up. */
  function StartCell(k: nat): Option<Cell> {
    match ColonOf(k / 16)
    case Some(w) => ColonCell(w, k % 16)
    case None => (match PrimOf(k) case Some(p) => Some(Machine(Native(p))) case None => None)
  }

  /** Memory at start-up, with nothing from `FREE` on. */
  function StartMemory(): Memory {
    map a: int | 0 <= a < FREE && a % CELL == 0 && StartCell(a / CELL).Some? :: StartCell(a / CELL).value
  }

  function Fetched(mem: Memory, a: int): Option<Cell> { if a in mem then Some(mem[a]) else None }

  lemma MemoryAt(a: int)
    ensures Fetched(StartMemory(), a) == if 0 <= a < FREE && a % CELL == 0 then StartCell(a / CELL) else None
  {
  }

  lemma PrimIndex(p: Prim)
    ensures 0 <= Xt(p) < FREE && Xt(p) % CELL == 0 && PrimOf(Xt(p) / CELL) == Some(p) && ColonOf(Xt(p) / CELL / 16) == None
  {
  }

  lemma PrimAt(p: Prim, a: int)
    requires 0 <= a < FREE && a % CELL == 0 && PrimOf(a / CELL) == Some(p) && ColonOf(a / CELL / 16) == None
    ensures Fetched(StartMemory(), a) == Some(Machine(Native(p)))
  {
    MemoryAt(a);
  }

  lemma PrimPlaced(p: Prim)
    ensures Fetched(StartMemory(), Xt(p)) == Some(Machine(Native(p)))
  {
    PrimIndex(p);
    PrimAt(p, Xt(p));
  }

  lemma AddrIs(w: Colon)
    ensures Addr(w) % (16 * CELL) == 0 && 0 < Addr(w) <= FREE - 16 * CELL && ColonOf(Addr(w) / CELL / 16) == Some(w)
  {
  }

  lemma CellIndex(a: int, k: nat)
    requires a >= 0 && a % (16 * CELL) == 0 && k < 16
    ensures (a + CELL * k) % CELL == 0 && (a + CELL * k) / CELL / 16 == a / CELL / 16 && (a + CELL * k) / CELL % 16 == k
  {
    var j := a / (16 * CELL);
    assert a == CELL * (16 * j) && a + CELL * k == CELL * (16 * j + k);
    EightTimes(16 * j);
    EightTimes(16 * j + k);
    SixteenTimes(j, 0);
    SixteenTimes(j, k);
  }

  lemma EightTimes(m: int)
    ensures (CELL * m) % CELL == 0 && (CELL * m) / CELL == m
  {
  }

  lemma SixteenTimes(j: int, k: nat)
    requires k < 16
    ensures (16 * j + k) / 16 == j && (16 * j + k) % 16 == k
  {
  }

  lemma ColonPlaced(w: Colon, k: nat)
    requires k <= |Cells(Body(w))| + 1
    ensures Fetched(StartMemory(), Addr(w) + CELL * k) == ColonCell(w, k)
  {
    BodyShort(w);
    AddrIs(w);
    CellIndex(Addr(w), k);
    MemoryAt(Addr(w) + CELL * k);
  }

  lemma BodyShort(w: Colon)
    ensures |Cells(Body(w))| <= 10
  {
    CellsLength(Body(w), 5);
  }

  lemma CellsPlaced(mem: Memory, base: int, code: seq<int>)
    requires forall k: nat | k <= |code| :: Fetched(mem, base + CELL * k) == WordCell(code, k)
    ensures ColonAt(mem, base, code)
  {
    assert Fetched(mem, base + CELL * 0) == WordCell(code, 0);
    forall i | 0 <= i < |code| ensures base + CELL + CELL * i in mem && mem[base + CELL + CELL * i] == Data(code[i]) {
      assert Fetched(mem, base + CELL * (i + 1)) == WordCell(code, i + 1);
    }
  }

  lemma WordPlaced(w: Colon)
    ensures WordAt(StartMemory(), w)
  {
    var code := Cells(Body(w)) + [Xt(Exit)];
    forall k: nat | k <= |code| ensures Fetched(StartMemory(), Addr(w) + CELL * k) == WordCell(code, k) { ColonPlaced(w, k); }
    CellsPlaced(StartMemory(), Addr(w), code);
  }

  /** The start-up memory is one the theorems speak of. */
  lemma StartImage()
    ensures Image(StartMemory()) && forall a | a >= FREE :: a !in StartMemory()
  {
    var mem := StartMemory();
    forall p: Prim ensures Xt(p) in mem && mem[Xt(p)] == Machine(Native(p)) {
      PrimPlaced(p);
      assert Fetched(mem, Xt(p)).Some?;
    }
    forall w: Colon ensures WordAt(mem, w) { WordPlaced(w); }
  }

  // ---------------------------------------------------------------- memory lemmas

  lemma CodeCell(mem: Memory, base: int, code: seq<int>, i: nat)
    requires CodeAt(mem, base, code) && i < |code|
    ensures base + CELL * i in mem && mem[base + CELL * i] == Data(code[i])
  {
  }

  lemma CodeSplit(mem: Memory, base: int, a: seq<int>, b: seq<int>)
    ensures CodeAt(mem, base, a + b) <==> CodeAt(mem, base, a) && CodeAt(mem, base + CELL * |a|, b)
  {
    var c := a + b;
    if CodeAt(mem, base, c) {
      forall i | 0 <= i < |a| ensures base + CELL * i in mem && mem[base + CELL * i] == Data(a[i]) { assert c[i] == a[i]; }
      forall i | 0 <= i < |b|
        ensures base + CELL * |a| + CELL * i in mem && mem[base + CELL * |a| + CELL * i] == Data(b[i])
      {
        assert c[|a| + i] == b[i];
      }
    }
    if CodeAt(mem, base, a) && CodeAt(mem, base + CELL * |a|, b) {
      forall i | 0 <= i < |c| ensures base + CELL * i in mem && mem[base + CELL * i] == Data(c[i]) {
        if i < |a| { assert c[i] == a[i]; } else { assert c[i] == b[i - |a|]; }
      }
    }
  }

  /** The two memories agree from `from` up to `to`. */
  ghost predicate SameBetween(mem: Memory, mem': Memory, from: int, to: int) {
    forall a | from <= a < to :: (a in mem <==> a in mem') && (a in mem ==> mem[a] == mem'[a])
  }

  lemma CodeSame(mem: Memory, mem': Memory, base: int, code: seq<int>, from: int, to: int)
    requires CodeAt(mem, base, code) && SameBetween(mem, mem', from, to)
    requires from <= base && base + CELL * |code| <= to
    ensures CodeAt(mem', base, code)
  {
    forall i | 0 <= i < |code| ensures base + CELL * i in mem' && mem'[base + CELL * i] == Data(code[i]) {
      CodeCell(mem, base, code, i);
      assert from <= base + CELL * i < to;
    }
  }

  lemma BodyFits(w: Colon)
    ensures 0 <= Addr(w) && Addr(w) + CELL * (|Cells(Body(w))| + 2) <= FREE
  {
    CellsLength(Body(w), 5);
  }

  predicate AtMost(acts: Acts, n: nat) { acts.Done? || (n > 0 && AtMost(acts.rest, n - 1)) }

  lemma {:induction false} CellsLength(acts: Acts, n: nat)
    requires AtMost(acts, n)
    ensures |Cells(acts)| <= 2 * n
  {
    if acts.Cons? { CellsLength(acts.rest, n - 1); }
  }

  /** Compiled programs never touch the dictionary below them. */
  lemma ImageSame(mem: Memory, mem': Memory)
    requires Image(mem) && SameBetween(mem, mem', 0, FREE)
    ensures Image(mem')
  {
    forall p: Prim ensures Xt(p) in mem' && mem'[Xt(p)] == Machine(Native(p)) { assert 0 <= Xt(p) < FREE; }
    forall w: Colon ensures WordAt(mem', w) {
      assert WordAt(mem, w);
      BodyFits(w);
      CodeSame(mem, mem', Addr(w) + CELL, Cells(Body(w)) + [Xt(Exit)], 0, FREE);
    }
  }
}
