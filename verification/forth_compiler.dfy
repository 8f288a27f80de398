/**
  Structured programs, the tokens that spell them, the threaded code they denote, and the
  proof that the compiling words lay down exactly that code and leave the stack balanced.
 */
module ForthCompiler {
  import opened Wrappers
  import opened ForthMachine
  import opened ForthDictionary
  import opened ForthWords

  /** A colon body.  `Leave` is the word `exit`; `Invoke` names a word compiled earlier. */
  datatype Prog =
    | Nop
    | Seq(a: Prog, b: Prog)
    | Word(p: Prim)
    | Number(n: int)
    | Invoke(xt: int)
    | Leave
    | Cond(a: Prog)                   // if a then
    | CondElse(a: Prog, b: Prog)      // if a else b then
    | Loop(a: Prog)                   // begin a again
    | WhileLoop(c: Prog, a: Prog)     // begin c while a repeat

  /** What the outer interpreter reads in compilation mode. */
  datatype Token = Compile(xt: int) | Immediate(w: Colon) | Numeral(n: int)

  function Tokens(b: Prog): seq<Token> {
    match b
    case Nop => []
    case Seq(x, y) => Tokens(x) + Tokens(y)
    case Word(p) => [Compile(Xt(p))]
    case Number(n) => [Numeral(n)]
    case Invoke(xt) => [Compile(xt)]
    case Leave => [Compile(Xt(Exit))]
    case Cond(x) => [Immediate(If)] + (Tokens(x) + [Immediate(Then)])
    case CondElse(x, y) => [Immediate(If)] + (Tokens(x) + ([Immediate(Else)] + (Tokens(y) + [Immediate(Then)])))
    case Loop(x) => [Immediate(Begin)] + (Tokens(x) + [Immediate(Again)])
    case WhileLoop(c, x) => [Immediate(Begin)] + (Tokens(c) + ([Immediate(While)] + (Tokens(x) + [Immediate(Repeat)])))
  }

  function Len(b: Prog): nat {
    match b
    case Nop => 0
    case Seq(x, y) => Len(x) + Len(y)
    case Word(_) => 1
    case Number(_) => 2
    case Invoke(_) => 1
    case Leave => 1
    case Cond(x) => 2 + Len(x)
    case CondElse(x, y) => 4 + Len(x) + Len(y)
    case Loop(x) => Len(x) + 2
    case WhileLoop(c, x) => Len(c) + 2 + Len(x) + 2
  }

  /** The threaded code of `b` when it starts at address `base`. */
  function Layout(b: Prog, base: int): (code: seq<int>)
    ensures |code| == Len(b)
  {
    match b
    case Nop => []
    case Seq(x, y) => Layout(x, base) + Layout(y, base + CELL * Len(x))
    case Word(p) => [Xt(p)]
    case Number(n) => [Xt(Lit), n]
    case Invoke(xt) => [xt]
    case Leave => [Xt(Exit)]
    case Cond(x) =>
      [Xt(ZeroBranch), base + CELL * (2 + Len(x))] + Layout(x, base + 2 * CELL)
    case CondElse(x, y) =>
      var mid := base + CELL * (4 + Len(x));
      [Xt(ZeroBranch), mid] + (Layout(x, base + 2 * CELL) + ([Xt(Branch), mid + CELL * Len(y)] + Layout(y, mid)))
    case Loop(x) => Layout(x, base) + [Xt(Branch), base]
    case WhileLoop(c, x) =>
      var body := base + CELL * (Len(c) + 2);
      Layout(c, base) + ([Xt(ZeroBranch), body + CELL * (Len(x) + 2)] + (Layout(x, body) + [Xt(Branch), base]))
  }

  // ---------------------------------------------------------------- the outer interpreter

  function Pushed(d: Desk, n: int): Desk { d.(ds := On(n, d.ds)) }

  /** One token in compilation mode: compile it, execute it, or compile it as a literal. */
  function Read(t: Token, d: Desk): Option<Desk> {
    match t
    case Compile(xt) => DoPrim(Comma, Pushed(d, xt))
    case Immediate(w) => DoActs(Rank(w), Body(w), d)
    case Numeral(n) => DoActs(Rank(Literal), Body(Literal), Pushed(d, n))
  }

  function ReadAll(ts: seq<Token>, d: Desk): Option<Desk>
    decreases |ts|
  {
    if ts == [] then Some(d)
    else
      match Read(ts[0], d)
      case None => None
      case Some(d1) => ReadAll(ts[1..], d1)
  }

  /** Executing an immediate word, or `literal`, on the machine has the effect `Read` says. */
  lemma ReadRuns(m: State, t: Token)
    requires Image(m.mem) && Read(t, DeskOf(m)).Some?
    ensures t.Immediate? ==> Reaches(Enter(m, Addr(t.w)), At(m, Read(t, DeskOf(m)).value))
    ensures t.Numeral? ==> Reaches(Enter(m.(ds := On(t.n, m.ds)), Addr(Literal)), At(m, Read(t, DeskOf(m)).value))
  {
    match t
    case Compile(_) =>
    case Immediate(w) => WordRuns(m, w);
    case Numeral(n) => WordRuns(m.(ds := On(n, m.ds)), Literal);
  }

  lemma {:induction false} ReadConcat(s: seq<Token>, t: seq<Token>, d: Desk)
    requires ReadAll(s, d).Some?
    ensures ReadAll(s + t, d) == ReadAll(t, ReadAll(s, d).value)
    decreases |s|
  {
    if s == [] {
      assert s + t == t;
    } else {
      assert (s + t)[1..] == s[1..] + t;
      ReadConcat(s[1..], t, Read(s[0], d).value);
    }
  }

  lemma {:induction false} ReadThen(s: seq<Token>, t: seq<Token>, d: Desk, d1: Desk, d2: Desk)
    requires ReadAll(s, d) == Some(d1) && ReadAll(t, d1) == Some(d2)
    ensures ReadAll(s + t, d) == Some(d2)
  {
    ReadConcat(s, t, d);
  }

  lemma {:induction false} ReadOne(t: Token, d: Desk)
    ensures ReadAll([t], d) == Read(t, d)
  {
    if Read(t, d).Some? { assert [t][1..] == []; }
  }

  // ---------------------------------------------------------------- what the words do

  /** A desk with one more cell laid down. */
  function Laid(d: Desk, v: int): Desk { d.(mem := d.mem[d.here := Data(v)], here := d.here + CELL) }

  function AfterIf(d: Desk): Desk { Pushed(Laid(Laid(d, Xt(ZeroBranch)), 0), d.here + CELL) }

  function AfterThen(d: Desk): Desk
    requires d.ds.On?
  {
    Desk(d.ds.below, d.mem[d.ds.top := Data(d.here)], d.here)
  }

  function AfterElse(d: Desk): Desk
    requires d.ds.On?
  {
    var d1 := Laid(Laid(d, Xt(Branch)), 0);
    Desk(On(d.here + CELL, d.ds.below), d1.mem[d.ds.top := Data(d1.here)], d1.here)
  }

  function AfterAgain(d: Desk): Desk
    requires d.ds.On?
  {
    Laid(Laid(d, Xt(Branch)), d.ds.top).(ds := d.ds.below)
  }

  function AfterWhile(d: Desk): Desk
    requires d.ds.On?
  {
    Laid(Laid(d, Xt(ZeroBranch)), 0).(ds := On(d.ds.top, On(d.here + CELL, d.ds.below)))
  }

  function AfterRepeat(d: Desk): Desk
    requires d.ds.On? && d.ds.below.On?
  {
    AfterThen(AfterAgain(d))
  }

  /** A word body whose first act leads to `d1` continues from there. */
  lemma {:induction false} Then1(rank: nat, act: Act, rest: Acts, d: Desk, d1: Desk)
    requires FirstAct(rank, act, d) == Some(d1)
    ensures DoActs(rank, Cons(act, rest), d) == DoActs(rank, rest, d1)
  {
  }

  lemma {:induction false} LayNumber(rank: nat, n: int, rest: Acts, d: Desk)
    requires d.here >= FREE
    ensures DoActs(rank, Cons(Push(n), Cons(Do(Comma), rest)), d) == DoActs(rank, rest, Laid(d, n))
  {
    Then1(rank, Push(n), Cons(Do(Comma), rest), d, Pushed(d, n));
    Then1(rank, Do(Comma), rest, Pushed(d, n), Laid(d, n));
  }

  lemma {:induction false} CallWord(rank: nat, w: Colon, rest: Acts, d: Desk, d1: Desk)
    requires Rank(w) < rank && DoActs(Rank(w), Body(w), d) == Some(d1)
    ensures DoActs(rank, Cons(Call(w), rest), d) == DoActs(rank, rest, d1)
  {
    Then1(rank, Call(w), rest, d, d1);
  }

  lemma {:induction false} PrepareForwardDoes(rank: nat, d: Desk)
    requires d.here >= FREE
    ensures DoActs(rank, Body(PrepareForward), d) == Some(Pushed(Laid(d, 0), d.here))
  {
    Then1(rank, Do(Here), Body(PrepareForward).rest, d, Pushed(d, d.here));
    LayNumber(rank, 0, Done, Pushed(d, d.here));
  }

  lemma {:induction false} ResolveForwardDoes(rank: nat, d: Desk)
    requires d.ds.On? && d.ds.top >= FREE
    ensures DoActs(rank, Body(ResolveForward), d) == Some(Desk(d.ds.below, d.mem[d.ds.top := Data(d.here)], d.here))
  {
    Then1(rank, Do(Here), Body(ResolveForward).rest, d, Pushed(d, d.here));
    var d1 := d.(ds := On(d.ds.top, On(d.here, d.ds.below)));
    Then1(rank, Do(Swap), Body(ResolveForward).rest.rest, Pushed(d, d.here), d1);
    Then1(rank, Do(Store), Done, d1, Desk(d.ds.below, d.mem[d.ds.top := Data(d.here)], d.here));
  }

  /** `if` lays down a conditional branch with a hole and leaves the hole's address. */
  lemma {:induction false} IfDoes(rank: nat, d: Desk)
    requires rank == Rank(If) && d.here >= FREE
    ensures DoActs(rank, Body(If), d) == Some(AfterIf(d))
  {
    LayNumber(rank, Xt(ZeroBranch), Body(If).rest.rest, d);
    PrepareForwardDoes(Rank(PrepareForward), Laid(d, Xt(ZeroBranch)));
    CallWord(rank, PrepareForward, Done, Laid(d, Xt(ZeroBranch)), Pushed(Laid(Laid(d, Xt(ZeroBranch)), 0), d.here + CELL));
  }

  /** `then` fills the hole on the stack with the address of the next cell. */
  lemma {:induction false} ThenDoes(rank: nat, d: Desk)
    requires rank == Rank(Then) && d.ds.On? && d.ds.top >= FREE
    ensures DoActs(rank, Body(Then), d) == Some(AfterThen(d))
  {
    ResolveForwardDoes(Rank(ResolveForward), d);
    CallWord(rank, ResolveForward, Done, d, Desk(d.ds.below, d.mem[d.ds.top := Data(d.here)], d.here));
  }

  /** `else` ends the first arm with a branch over the second and fills the hole of `if`. */
  lemma {:induction false} ElseDoes(rank: nat, d: Desk)
    requires rank == Rank(Else) && d.here >= FREE && d.ds.On? && d.ds.top >= FREE
    ensures DoActs(rank, Body(Else), d) == Some(AfterElse(d))
  {
    var rest := Body(Else).rest.rest;
    LayNumber(rank, Xt(Branch), rest, d);
    PrepareForwardDoes(Rank(PrepareForward), Laid(d, Xt(Branch)));
    var d1 := Laid(Laid(d, Xt(Branch)), 0);
    CallWord(rank, PrepareForward, rest.rest, Laid(d, Xt(Branch)), Pushed(d1, d.here + CELL));
    var d2 := d1.(ds := On(d.ds.top, On(d.here + CELL, d.ds.below)));
    Then1(rank, Do(Swap), rest.rest.rest, Pushed(d1, d.here + CELL), d2);
    ResolveForwardDoes(Rank(ResolveForward), d2);
    CallWord(rank, ResolveForward, Done, d2, Desk(d2.ds.below, d2.mem[d2.ds.top := Data(d2.here)], d2.here));
  }

  lemma {:induction false} BeginDoes(rank: nat, d: Desk)
    requires rank == Rank(Begin)
    ensures DoActs(rank, Body(Begin), d) == Some(Pushed(d, d.here))
  {
    Then1(Rank(PrepareBack), Do(Here), Done, d, Pushed(d, d.here));
    CallWord(rank, PrepareBack, Done, d, Pushed(d, d.here));
  }

  /** `again` branches back to the address `begin` left. */
  lemma {:induction false} AgainDoes(rank: nat, d: Desk)
    requires rank == Rank(Again) && d.here >= FREE && d.ds.On?
    ensures DoActs(rank, Body(Again), d) == Some(AfterAgain(d))
  {
    LayNumber(rank, Xt(Branch), Body(Again).rest.rest, d);
    var d1 := Laid(d, Xt(Branch));
    Then1(Rank(ResolveBack), Do(Comma), Done, d1, Laid(d1, d.ds.top).(ds := d.ds.below));
    CallWord(rank, ResolveBack, Done, d1, Laid(d1, d.ds.top).(ds := d.ds.below));
  }

  /** `while` leaves its hole below the address `begin` left. */
  lemma {:induction false} WhileDoes(rank: nat, d: Desk)
    requires rank == Rank(While) && d.here >= FREE && d.ds.On?
    ensures DoActs(rank, Body(While), d) == Some(AfterWhile(d))
  {
    IfDoes(Rank(If), d);
    var d1 := Pushed(Laid(Laid(d, Xt(ZeroBranch)), 0), d.here + CELL);
    CallWord(rank, If, Body(While).rest, d, d1);
    Then1(rank, Do(Swap), Done, d1, d1.(ds := On(d.ds.top, On(d.here + CELL, d.ds.below))));
  }

  lemma {:induction false} RepeatDoes(rank: nat, d: Desk)
    requires rank == Rank(Repeat) && d.here >= FREE && d.ds.On? && d.ds.below.On? && d.ds.below.top >= FREE
    ensures DoActs(rank, Body(Repeat), d) == Some(AfterRepeat(d))
  {
    AgainDoes(Rank(Again), d);
    var d1 := Laid(Laid(d, Xt(Branch)), d.ds.top).(ds := d.ds.below);
    CallWord(rank, Again, Body(Repeat).rest, d, d1);
    ThenDoes(Rank(Then), d1);
    CallWord(rank, Then, Done, d1, Desk(d1.ds.below, d1.mem[d1.ds.top := Data(d1.here)], d1.here));
  }

  lemma {:induction false} LiteralDoes(rank: nat, d: Desk, n: int)
    requires rank == Rank(Literal) && d.here >= FREE
    ensures DoActs(rank, Body(Literal), Pushed(d, n)) == Some(Laid(Laid(d, Xt(Lit)), n))
  {
    LayNumber(rank, Xt(Lit), Body(Literal).rest.rest, Pushed(d, n));
    Then1(rank, Do(Comma), Done, Laid(Pushed(d, n), Xt(Lit)), Laid(Laid(d, Xt(Lit)), n));
  }

  // ---------------------------------------------------------------- compiling a body

  /** `d'` is `d` with the code of `b` laid down and everything else as it was. */
  ghost predicate Compiled(b: Prog, d: Desk, d': Desk) {
    && d'.ds == d.ds
    && d'.here == d.here + CELL * Len(b)
    && CodeAt(d'.mem, d.here, Layout(b, d.here))
    && SameBetween(d.mem, d'.mem, 0, d.here)
  }

  ghost predicate Compiles(b: Prog, d: Desk) {
    ReadAll(Tokens(b), d).Some? && Compiled(b, d, ReadAll(Tokens(b), d).value)
  }

  ghost predicate Holds(mem: Memory, a: int, v: int) { a in mem && mem[a] == Data(v) }

  lemma TwoCells(mem: Memory, base: int, x: int, y: int)
    requires Holds(mem, base, x) && Holds(mem, base + CELL, y)
    ensures CodeAt(mem, base, [x, y])
  {
  }

  lemma {:induction false} Bracketed(t: Token, ts: seq<Token>, u: Token, d: Desk, d1: Desk, d2: Desk, d3: Desk)
    requires Read(t, d) == Some(d1) && ReadAll(ts, d1) == Some(d2) && Read(u, d2) == Some(d3)
    ensures ReadAll([t] + (ts + [u]), d) == Some(d3)
  {
    ReadOne(t, d);
    ReadOne(u, d2);
    ReadThen(ts, [u], d1, d2, d3);
    ReadThen([t], ts + [u], d, d1, d3);
  }

  lemma {:induction false} Divided(t: Token, ts: seq<Token>, u: Token, us: seq<Token>, v: Token,
                d: Desk, d1: Desk, d2: Desk, d3: Desk, d4: Desk, d5: Desk)
    requires Read(t, d) == Some(d1) && ReadAll(ts, d1) == Some(d2) && Read(u, d2) == Some(d3)
    requires ReadAll(us, d3) == Some(d4) && Read(v, d4) == Some(d5)
    ensures ReadAll([t] + (ts + ([u] + (us + [v]))), d) == Some(d5)
  {
    Bracketed(u, us, v, d2, d3, d4, d5);
    ReadOne(t, d);
    ReadThen(ts, [u] + (us + [v]), d1, d2, d5);
    ReadThen([t], ts + ([u] + (us + [v])), d, d1, d5);
  }

  lemma {:induction false} CondLaid(mem: Memory, base: int, b: Prog)
    requires b.Cond? && CodeAt(mem, base + 2 * CELL, Layout(b.a, base + 2 * CELL))
    requires Holds(mem, base, Xt(ZeroBranch)) && Holds(mem, base + CELL, base + CELL * Len(b))
    ensures CodeAt(mem, base, Layout(b, base))
  {
    var first, end := base + 2 * CELL, base + CELL * (2 + Len(b.a));
    TwoCells(mem, base, Xt(ZeroBranch), end);
    CodeSplit(mem, base, [Xt(ZeroBranch), end], Layout(b.a, first));
  }

  lemma {:induction false} CondDone(b: Prog, d: Desk, d2: Desk)
    requires b.Cond? && d.here >= FREE && Compiled(b.a, AfterIf(d), d2)
    ensures Compiled(b, d, AfterThen(d2))
  {
    ArmStays(b.a, AfterIf(d), d2, AfterThen(d2).mem);
    assert Holds(d2.mem, d.here, Xt(ZeroBranch));
    CondLaid(AfterThen(d2).mem, d.here, b);
  }

  lemma {:induction false} CompileCond(b: Prog, d: Desk)
    requires b.Cond? && d.here >= FREE
    ensures Compiles(b, d)
    decreases b, 0
  {
    IfDoes(Rank(If), d);
    var d1 := AfterIf(d);
    CompileBody(b.a, d1);
    var d2 := ReadAll(Tokens(b.a), d1).value;
    ThenDoes(Rank(Then), d2);
    Bracketed(Immediate(If), Tokens(b.a), Immediate(Then), d, d1, d2, AfterThen(d2));
    CondDone(b, d, d2);
  }

  lemma {:induction false} CondElseLaid(mem: Memory, base: int, b: Prog, mid: int, end: int)
    requires b.CondElse? && mid == base + CELL * (4 + Len(b.a)) && end == mid + CELL * Len(b.b)
    requires Holds(mem, base, Xt(ZeroBranch)) && Holds(mem, base + CELL, mid) && CodeAt(mem, base + 2 * CELL, Layout(b.a, base + 2 * CELL))
    requires Holds(mem, mid - 2 * CELL, Xt(Branch)) && Holds(mem, mid - CELL, end) && CodeAt(mem, mid, Layout(b.b, mid))
    ensures CodeAt(mem, base, Layout(b, base))
  {
    var first := base + 2 * CELL;
    var x, y := Layout(b.a, first), Layout(b.b, mid);
    var j := [Xt(Branch), end];
    TwoCells(mem, mid - 2 * CELL, Xt(Branch), end);
    CodeSplit(mem, mid - 2 * CELL, j, y);
    CodeSplit(mem, first, x, j + y);
    TwoCells(mem, base, Xt(ZeroBranch), mid);
    CodeSplit(mem, base, [Xt(ZeroBranch), mid], x + (j + y));
  }

  /** The cells `if`, `else` and `then` lay down and patch, once both arms are compiled. */
  lemma {:induction false} CondElseHolds(d: Desk, d2: Desk, d4: Desk)
    requires d.here >= FREE && d2.here >= d.here + 2 * CELL && d2.ds.On? && d2.ds.top == d.here + CELL
    requires d4.here >= d2.here + 2 * CELL && d4.ds.On? && d4.ds.top == d2.here + CELL
    requires SameBetween(AfterIf(d).mem, d2.mem, 0, AfterIf(d).here)
    requires SameBetween(AfterElse(d2).mem, d4.mem, 0, AfterElse(d2).here)
    ensures var mem := AfterThen(d4).mem;
            && Holds(mem, d.here, Xt(ZeroBranch)) && Holds(mem, d.here + CELL, d2.here + 2 * CELL)
            && Holds(mem, d2.here, Xt(Branch)) && Holds(mem, d2.here + CELL, d4.here)
  {
    assert Holds(d2.mem, d.here, Xt(ZeroBranch));
    assert Holds(AfterElse(d2).mem, d2.here, Xt(Branch));
    assert Holds(d4.mem, d2.here, Xt(Branch));
  }

  lemma {:induction false} CondElseSame(d: Desk, d2: Desk, d4: Desk)
    requires d.here >= FREE && d2.here >= d.here + 2 * CELL && d2.ds.On? && d2.ds.top == d.here + CELL
    requires d4.ds.On? && d4.ds.top == d2.here + CELL
    requires SameBetween(AfterIf(d).mem, d2.mem, 0, AfterIf(d).here)
    requires SameBetween(AfterElse(d2).mem, d4.mem, 0, AfterElse(d2).here)
    ensures SameBetween(d.mem, AfterThen(d4).mem, 0, d.here)
    ensures SameBetween(d2.mem, AfterThen(d4).mem, AfterIf(d).here, d2.here)
  {
  }

  /** An arm compiled from `from` on, in a memory that agrees with a later one there. */
  lemma {:induction false} ArmStays(b: Prog, d: Desk, d': Desk, mem: Memory)
    requires Compiled(b, d, d') && SameBetween(d'.mem, mem, d.here, d'.here)
    ensures CodeAt(mem, d.here, Layout(b, d.here))
  {
    CodeSame(d'.mem, mem, d.here, Layout(b, d.here), d.here, d'.here);
  }

  /** The two arms are where they were laid. */
  lemma {:induction false} CondElseArms(b: Prog, d: Desk, d2: Desk, d4: Desk, mem: Memory)
    requires b.CondElse? && d.here >= FREE
    requires Compiled(b.a, AfterIf(d), d2) && Compiled(b.b, AfterElse(d2), d4) && mem == AfterThen(d4).mem
    ensures CodeAt(mem, d.here + 2 * CELL, Layout(b.a, d.here + 2 * CELL)) && CodeAt(mem, d2.here + 2 * CELL, Layout(b.b, d2.here + 2 * CELL))
    ensures SameBetween(d.mem, mem, 0, d.here)
  {
    CondElseSame(d, d2, d4);
    ArmStays(b.a, AfterIf(d), d2, mem);
    ArmStays(b.b, AfterElse(d2), d4, mem);
  }

  lemma {:induction false} CondElseDone(b: Prog, d: Desk, d2: Desk, d4: Desk)
    requires b.CondElse? && d.here >= FREE
    requires Compiled(b.a, AfterIf(d), d2) && Compiled(b.b, AfterElse(d2), d4)
    ensures Compiled(b, d, AfterThen(d4))
  {
    CondElseArms(b, d, d2, d4, AfterThen(d4).mem);
    CondElseCode(b, d, d2, d4, AfterThen(d4).mem);
  }

  lemma {:induction false} CondElseCode(b: Prog, d: Desk, d2: Desk, d4: Desk, mem: Memory)
    requires b.CondElse? && d.here >= FREE
    requires Compiled(b.a, AfterIf(d), d2) && Compiled(b.b, AfterElse(d2), d4) && mem == AfterThen(d4).mem
    requires CodeAt(mem, d.here + 2 * CELL, Layout(b.a, d.here + 2 * CELL)) && CodeAt(mem, d2.here + 2 * CELL, Layout(b.b, d2.here + 2 * CELL))
    ensures CodeAt(mem, d.here, Layout(b, d.here))
  {
    var mid := d2.here + 2 * CELL;
    CondElseHolds(d, d2, d4);
    CondElseLaid(mem, d.here, b, mid, d4.here);
  }

  lemma {:induction false} CompileCondElse(b: Prog, d: Desk)
    requires b.CondElse? && d.here >= FREE
    ensures Compiles(b, d)
    decreases b, 0
  {
    IfDoes(Rank(If), d);
    var d1 := AfterIf(d);
    CompileBody(b.a, d1);
    var d2 := ReadAll(Tokens(b.a), d1).value;
    ElseDoes(Rank(Else), d2);
    var d3 := AfterElse(d2);
    CompileBody(b.b, d3);
    var d4 := ReadAll(Tokens(b.b), d3).value;
    ThenDoes(Rank(Then), d4);
    Divided(Immediate(If), Tokens(b.a), Immediate(Else), Tokens(b.b), Immediate(Then), d, d1, d2, d3, d4, AfterThen(d4));
    CondElseDone(b, d, d2, d4);
  }

  lemma {:induction false} LoopLaid(mem: Memory, base: int, b: Prog)
    requires b.Loop? && CodeAt(mem, base, Layout(b.a, base))
    requires var end := base + CELL * Len(b.a); Holds(mem, end, Xt(Branch)) && Holds(mem, end + CELL, base)
    ensures CodeAt(mem, base, Layout(b, base))
  {
    TwoCells(mem, base + CELL * Len(b.a), Xt(Branch), base);
    CodeSplit(mem, base, Layout(b.a, base), [Xt(Branch), base]);
  }

  lemma {:induction false} LoopDone(b: Prog, d: Desk, d2: Desk)
    requires b.Loop? && d.here >= FREE && Compiled(b.a, Pushed(d, d.here), d2)
    ensures Compiled(b, d, AfterAgain(d2))
  {
    LoopArm(b, d, d2, AfterAgain(d2).mem);
    LoopCode(b, d, d2, AfterAgain(d2).mem);
  }

  lemma {:induction false} LoopArm(b: Prog, d: Desk, d2: Desk, mem: Memory)
    requires b.Loop? && Compiled(b.a, Pushed(d, d.here), d2) && mem == AfterAgain(d2).mem
    ensures SameBetween(d.mem, mem, 0, d.here) && CodeAt(mem, d.here, Layout(b.a, d.here))
  {
    LoopSame(d, d2);
    ArmStays(b.a, Pushed(d, d.here), d2, mem);
  }

  lemma {:induction false} LoopCode(b: Prog, d: Desk, d2: Desk, mem: Memory)
    requires b.Loop? && Compiled(b.a, Pushed(d, d.here), d2) && mem == AfterAgain(d2).mem
    requires CodeAt(mem, d.here, Layout(b.a, d.here))
    ensures CodeAt(mem, d.here, Layout(b, d.here))
  {
    LoopSame(d, d2);
    LoopLaid(mem, d.here, b);
  }

  lemma {:induction false} LoopSame(d: Desk, d2: Desk)
    requires d2.here >= d.here && d2.ds.On? && SameBetween(d.mem, d2.mem, 0, d.here)
    ensures var mem := AfterAgain(d2).mem;
            && SameBetween(d.mem, mem, 0, d.here) && SameBetween(d2.mem, mem, d.here, d2.here)
            && Holds(mem, d2.here, Xt(Branch)) && Holds(mem, d2.here + CELL, d2.ds.top)
  {
  }

  lemma {:induction false} CompileLoop(b: Prog, d: Desk)
    requires b.Loop? && d.here >= FREE
    ensures Compiles(b, d)
    decreases b, 0
  {
    BeginDoes(Rank(Begin), d);
    var d1 := Pushed(d, d.here);
    CompileBody(b.a, d1);
    var d2 := ReadAll(Tokens(b.a), d1).value;
    AgainDoes(Rank(Again), d2);
    Bracketed(Immediate(Begin), Tokens(b.a), Immediate(Again), d, d1, d2, AfterAgain(d2));
    LoopDone(b, d, d2);
  }

  lemma {:induction false} WhileLaid(mem: Memory, base: int, b: Prog)
    requires b.WhileLoop?
    requires var test := base + CELL * Len(b.c); var body := test + 2 * CELL; var end := body + CELL * Len(b.a);
             && CodeAt(mem, base, Layout(b.c, base))
             && Holds(mem, test, Xt(ZeroBranch)) && Holds(mem, test + CELL, end + 2 * CELL)
             && CodeAt(mem, body, Layout(b.a, body))
             && Holds(mem, end, Xt(Branch)) && Holds(mem, end + CELL, base)
    ensures CodeAt(mem, base, Layout(b, base))
  {
    var test := base + CELL * Len(b.c); var body := test + 2 * CELL; var end := body + CELL * Len(b.a);
    var c, x := Layout(b.c, base), Layout(b.a, body);
    TwoCells(mem, end, Xt(Branch), base);
    CodeSplit(mem, body, x, [Xt(Branch), base]);
    TwoCells(mem, test, Xt(ZeroBranch), end + 2 * CELL);
    CodeSplit(mem, test, [Xt(ZeroBranch), end + 2 * CELL], x + [Xt(Branch), base]);
    CodeSplit(mem, base, c, [Xt(ZeroBranch), end + 2 * CELL] + (x + [Xt(Branch), base]));
  }

  /** The cells `while` and `repeat` lay down and patch. */
  lemma {:induction false} WhileHolds(d: Desk, d2: Desk, d4: Desk)
    requires d.here >= FREE && d2.here >= d.here && d2.ds.On? && d2.ds.top == d.here && d4.ds == AfterWhile(d2).ds
    requires d4.here >= d2.here + 2 * CELL && SameBetween(AfterWhile(d2).mem, d4.mem, 0, AfterWhile(d2).here)
    ensures var mem := AfterRepeat(d4).mem;
            && Holds(mem, d2.here, Xt(ZeroBranch)) && Holds(mem, d2.here + CELL, d4.here + 2 * CELL)
            && Holds(mem, d4.here, Xt(Branch)) && Holds(mem, d4.here + CELL, d.here)
  {
    assert Holds(AfterWhile(d2).mem, d2.here, Xt(ZeroBranch));
    assert Holds(d4.mem, d2.here, Xt(ZeroBranch));
  }

  lemma {:induction false} WhileSame(d: Desk, d2: Desk, d4: Desk)
    requires d.here >= FREE && d2.here >= d.here && d2.ds.On? && d2.ds.top == d.here && d4.ds == AfterWhile(d2).ds
    requires d4.here >= d2.here + 2 * CELL && SameBetween(AfterWhile(d2).mem, d4.mem, 0, AfterWhile(d2).here)
    requires SameBetween(d.mem, d2.mem, 0, d.here)
    ensures SameBetween(d.mem, AfterRepeat(d4).mem, 0, d.here)
    ensures SameBetween(d2.mem, AfterRepeat(d4).mem, d.here, d2.here)
    ensures SameBetween(d4.mem, AfterRepeat(d4).mem, d2.here + 2 * CELL, d4.here)
  {
  }

  /** The two arms are where they were laid. */
  lemma {:induction false} WhileArms(b: Prog, d: Desk, d2: Desk, d4: Desk, mem: Memory)
    requires b.WhileLoop? && d.here >= FREE
    requires Compiled(b.c, Pushed(d, d.here), d2) && Compiled(b.a, AfterWhile(d2), d4) && mem == AfterRepeat(d4).mem
    ensures CodeAt(mem, d.here, Layout(b.c, d.here)) && CodeAt(mem, d2.here + 2 * CELL, Layout(b.a, d2.here + 2 * CELL))
    ensures SameBetween(d.mem, mem, 0, d.here)
  {
    WhileSame(d, d2, d4);
    ArmStays(b.c, Pushed(d, d.here), d2, mem);
    ArmStays(b.a, AfterWhile(d2), d4, mem);
  }

  lemma {:induction false} WhileDone(b: Prog, d: Desk, d2: Desk, d4: Desk)
    requires b.WhileLoop? && d.here >= FREE
    requires Compiled(b.c, Pushed(d, d.here), d2) && Compiled(b.a, AfterWhile(d2), d4)
    ensures Compiled(b, d, AfterRepeat(d4))
  {
    WhileArms(b, d, d2, d4, AfterRepeat(d4).mem);
    WhileCode(b, d, d2, d4, AfterRepeat(d4).mem);
  }

  lemma {:induction false} WhileCode(b: Prog, d: Desk, d2: Desk, d4: Desk, mem: Memory)
    requires b.WhileLoop? && d.here >= FREE
    requires Compiled(b.c, Pushed(d, d.here), d2) && Compiled(b.a, AfterWhile(d2), d4) && mem == AfterRepeat(d4).mem
    requires CodeAt(mem, d.here, Layout(b.c, d.here)) && CodeAt(mem, d2.here + 2 * CELL, Layout(b.a, d2.here + 2 * CELL))
    ensures CodeAt(mem, d.here, Layout(b, d.here))
  {
    WhileHolds(d, d2, d4);
    WhileLaid(mem, d.here, b);
  }

  lemma {:induction false} CompileWhile(b: Prog, d: Desk)
    requires b.WhileLoop? && d.here >= FREE
    ensures Compiles(b, d)
    decreases b, 0
  {
    BeginDoes(Rank(Begin), d);
    var d1 := Pushed(d, d.here);
    CompileBody(b.c, d1);
    var d2 := ReadAll(Tokens(b.c), d1).value;
    WhileDoes(Rank(While), d2);
    var d3 := AfterWhile(d2);
    CompileBody(b.a, d3);
    var d4 := ReadAll(Tokens(b.a), d3).value;
    RepeatDoes(Rank(Repeat), d4);
    Divided(Immediate(Begin), Tokens(b.c), Immediate(While), Tokens(b.a), Immediate(Repeat), d, d1, d2, d3, d4, AfterRepeat(d4));
    WhileDone(b, d, d2, d4);
  }

  lemma CodeJoins(mem: Memory, base: int, a: seq<int>, b: seq<int>)
    requires CodeAt(mem, base, a) && CodeAt(mem, base + CELL * |a|, b)
    ensures CodeAt(mem, base, a + b)
  {
    CodeSplit(mem, base, a, b);
  }

  lemma {:induction false} SeqLaid(b: Prog, d: Desk, d1: Desk, d2: Desk)
    requires b.Seq? && Compiled(b.a, d, d1) && Compiled(b.b, d1, d2)
    ensures Layout(b, d.here) == Layout(b.a, d.here) + Layout(b.b, d1.here) && |Layout(b.a, d.here)| == Len(b.a)
  {
  }

  lemma {:induction false} SeqDone(b: Prog, d: Desk, d1: Desk, d2: Desk)
    requires b.Seq? && d.here >= FREE && Compiled(b.a, d, d1) && Compiled(b.b, d1, d2)
    ensures Compiled(b, d, d2)
  {
    var x, y := Layout(b.a, d.here), Layout(b.b, d1.here);
    SeqLaid(b, d, d1, d2);
    ArmStays(b.a, d, d1, d2.mem);
    CodeJoins(d2.mem, d.here, x, y);
    SameTrans(d.mem, d1.mem, d2.mem, 0, d.here, d1.here);
  }

  lemma SameTrans(mem: Memory, mem1: Memory, mem2: Memory, from: int, to: int, to1: int)
    requires SameBetween(mem, mem1, from, to) && SameBetween(mem1, mem2, from, to1) && to <= to1
    ensures SameBetween(mem, mem2, from, to)
  {
  }

  lemma {:induction false} CompileSeq(b: Prog, d: Desk)
    requires b.Seq? && d.here >= FREE
    ensures Compiles(b, d)
    decreases b, 0
  {
    CompileBody(b.a, d);
    var d1 := ReadAll(Tokens(b.a), d).value;
    CompileBody(b.b, d1);
    var d2 := ReadAll(Tokens(b.b), d1).value;
    ReadThen(Tokens(b.a), Tokens(b.b), d, d1, d2);
    SeqDone(b, d, d1, d2);
  }

  lemma {:induction false} CompileWord(b: Prog, d: Desk, xt: int)
    requires d.here >= FREE && Tokens(b) == [Compile(xt)] && Len(b) == 1 && Layout(b, d.here) == [xt]
    ensures Compiles(b, d)
  {
    ReadOne(Compile(xt), d);
  }

  lemma {:induction false} CompileNumber(b: Prog, d: Desk)
    requires b.Number? && d.here >= FREE
    ensures Compiles(b, d)
  {
    LiteralDoes(Rank(Literal), d, b.n);
    ReadOne(Numeral(b.n), d);
    var d1 := Laid(Laid(d, Xt(Lit)), b.n);
    TwoCells(d1.mem, d.here, Xt(Lit), b.n);
  }

  /** Compiling `b` succeeds, lays down its layout, and leaves the compile-time stack as it found it. */
  lemma {:induction false} CompileBody(b: Prog, d: Desk)
    requires d.here >= FREE
    ensures Compiles(b, d)
    decreases b, 1
  {
    match b
    case Nop =>
    case Seq(_, _) => CompileSeq(b, d);
    case Word(p) => CompileWord(b, d, Xt(p));
    case Number(_) => CompileNumber(b, d);
    case Invoke(xt) => CompileWord(b, d, xt);
    case Leave => CompileWord(b, d, Xt(Exit));
    case Cond(_) => CompileCond(b, d);
    case CondElse(_, _) => CompileCondElse(b, d);
    case Loop(_) => CompileLoop(b, d);
    case WhileLoop(_, _) => CompileWhile(b, d);
  }
}
