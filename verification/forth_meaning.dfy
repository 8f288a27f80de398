/**
  The structured meaning of programs, and the proof that their threaded code, run by the
  inner interpreter, does what they mean: same result, same failure, same divergence.
 */
module ForthMeaning {
  import opened Wrappers
  import opened ForthMachine
  import opened ForthDictionary
  import opened ForthWords
  import opened ForthCompiler

  /** Compiled words by execution token. */
  type Env = map<int, Prog>

  /** A body falls off its end, leaves its word by `exit`, underflows the stack, or needs more fuel. */
  datatype Result = Fall(ds: Stack) | Left(ds: Stack) | Stuck | OutOfFuel

  /** The meaning of `b` on stack `ds`; each call and each further loop round uses one unit of fuel. */
  function Eval(env: Env, b: Prog, ds: Stack, fuel: nat): Result
    decreases fuel, b
  {
    match b
    case Nop => Fall(ds)
    case Seq(x, y) =>
      var r := Eval(env, x, ds, fuel);
      if r.Fall? then Eval(env, y, r.ds, fuel) else r
    case Word(p) => if IsPlain(p) && Plain(p, ds).Some? then Fall(Plain(p, ds).value) else Stuck
    case Number(n) => Fall(On(n, ds))
    case Invoke(xt) =>
      if xt !in env then Stuck
      else if fuel == 0 then OutOfFuel
      else
        var r := Eval(env, env[xt], ds, fuel - 1);
        if r.Left? then Fall(r.ds) else r
    case Leave => Left(ds)
    case Cond(x) =>
      if ds.Bottom? then Stuck
      else if ds.top != 0 then Eval(env, x, ds.below, fuel)
      else Fall(ds.below)
    case CondElse(x, y) =>
      if ds.Bottom? then Stuck else Eval(env, if ds.top != 0 then x else y, ds.below, fuel)
    case Loop(x) =>
      var r := Eval(env, x, ds, fuel);
      if !r.Fall? then r else if fuel == 0 then OutOfFuel else Eval(env, b, r.ds, fuel - 1)
    case WhileLoop(c, x) =>
      var t := Eval(env, c, ds, fuel);
      if !t.Fall? then t
      else if t.ds.Bottom? then Stuck
      else if t.ds.top == 0 then Fall(t.ds.below)
      else
        var r := Eval(env, x, t.ds.below, fuel);
        if !r.Fall? then r else if fuel == 0 then OutOfFuel else Eval(env, b, r.ds, fuel - 1)
  }

  /** Every word `b` names is known: a stack word, or a compiled word of `env`. */
  predicate Closed(env: Env, b: Prog) {
    match b
    case Nop => true
    case Seq(x, y) => Closed(env, x) && Closed(env, y)
    case Word(p) => IsPlain(p)
    case Number(_) => true
    case Invoke(xt) => xt in env
    case Leave => true
    case Cond(x) => Closed(env, x)
    case CondElse(x, y) => Closed(env, x) && Closed(env, y)
    case Loop(x) => Closed(env, x)
    case WhileLoop(c, x) => Closed(env, c) && Closed(env, x)
  }

  /** What a compiled word looks like in memory. */
  ghost predicate Installed(mem: Memory, xt: int, b: Prog) {
    && xt in mem && mem[xt] == Machine(DoColon)
    && CodeAt(mem, xt + CELL, Layout(b, xt + CELL))
    && Holds(mem, xt + CELL + CELL * Len(b), Xt(Exit))
  }

  ghost predicate Loaded(mem: Memory, env: Env) {
    && PrimsAt(mem)
    && forall xt | xt in env :: Closed(env, env[xt]) && Installed(mem, xt, env[xt])
  }

  // ---------------------------------------------------------------- one direction, all results

  ghost predicate GoesWrong(m: State) {
    exists m' :: Reaches(m, m') && Step(m') == Undefined
  }

  /** The run from `m` matches result `r` of code that ends at `end`. */
  ghost predicate Matches(m: State, end: int, r: Result, fuel: nat) {
    match r
    case Fall(s) => Reaches(m, m.(ip := end, ds := s))
    case Left(s) => m.rs.On? && Reaches(m, m.(ip := m.rs.top, rs := m.rs.below, ds := s))
    case Stuck => GoesWrong(m)
    case OutOfFuel => Lasts(m, fuel)
  }

  predicate SameBut(m: State, m1: State) { m1 == m.(ip := m1.ip, ds := m1.ds) }

  lemma WrongAfter(m: State, m1: State)
    requires Reaches(m, m1) && GoesWrong(m1)
    ensures GoesWrong(m)
  {
    var m2 :| Reaches(m1, m2) && Step(m2) == Undefined;
    ReachesTrans(m, m1, m2);
  }

  lemma LastsAfter(m: State, m1: State, fuel: nat)
    requires Reaches(m, m1) && Lasts(m1, fuel)
    ensures Lasts(m, fuel)
  {
    var i: nat :| RunsTo(m, i, m1);
    RunsThenLasts(m, i, m1, fuel);
    LastsFewer(m, i + fuel, fuel);
  }

  /** Running straight to `m1` first changes nothing. */
  lemma {:induction false} After(m: State, m1: State, end: int, r: Result, fuel: nat)
    requires Reaches(m, m1) && SameBut(m, m1) && Matches(m1, end, r, fuel)
    ensures Matches(m, end, r, fuel)
  {
    match r
    case Fall(s) => ReachesTrans(m, m1, m.(ip := end, ds := s));
    case Left(s) => ReachesTrans(m, m1, m.(ip := m.rs.top, rs := m.rs.below, ds := s));
    case Stuck => WrongAfter(m, m1);
    case OutOfFuel => LastsAfter(m, m1, fuel);
  }

  lemma OneStep(m: State)
    requires Step(m).Next?
    ensures Reaches(m, Step(m).state)
  {
    ReachesRefl(Step(m).state);
    ReachesStep(m, Step(m).state);
  }

  /** A step that uses a unit of fuel. */
  lemma {:induction false} AfterFuel(m: State, m1: State, end: int, r: Result, fuel: nat)
    requires Step(m) == Next(m1) && SameBut(m, m1) && Matches(m1, end, r, fuel)
    ensures Matches(m, end, r, fuel + 1)
  {
    OneStep(m);
    if r.OutOfFuel? { assert Lasts(m, fuel + 1); } else { After(m, m1, end, r, fuel); }
  }

  lemma WrongNow(m: State)
    requires Step(m) == Undefined
    ensures GoesWrong(m)
  {
    ReachesRefl(m);
  }

  // ---------------------------------------------------------------- single cells

  lemma PlainSteps(m: State, p: Prim)
    requires PrimsAt(m.mem) && IsPlain(p) && Holds(m.mem, m.ip, Xt(p))
    ensures Step(m) == match Plain(p, m.ds) case None => Undefined case Some(s) => Next(m.(ip := m.ip + CELL, ds := s))
  {
  }

  lemma BranchSteps(m: State, to: int)
    requires PrimsAt(m.mem) && Holds(m.mem, m.ip, Xt(Branch)) && Holds(m.mem, m.ip + CELL, to)
    ensures Step(m) == Next(m.(ip := to))
  {
  }

  lemma ZeroBranchSteps(m: State, to: int)
    requires PrimsAt(m.mem) && Holds(m.mem, m.ip, Xt(ZeroBranch)) && Holds(m.mem, m.ip + CELL, to)
    ensures Step(m) == if m.ds.Bottom? then Undefined
                       else Next(m.(ds := m.ds.below, ip := if m.ds.top == 0 then to else m.ip + 2 * CELL))
  {
  }

  // ---------------------------------------------------------------- layouts taken apart

  lemma CellsOf(mem: Memory, base: int, x: int, y: int)
    requires CodeAt(mem, base, [x, y])
    ensures Holds(mem, base, x) && Holds(mem, base + CELL, y)
  {
    CodeCell(mem, base, [x, y], 0);
    CodeCell(mem, base, [x, y], 1);
  }

  lemma {:induction false} CondParts(mem: Memory, base: int, b: Prog)
    requires b.Cond? && CodeAt(mem, base, Layout(b, base))
    ensures Holds(mem, base, Xt(ZeroBranch)) && Holds(mem, base + CELL, base + CELL * Len(b))
    ensures CodeAt(mem, base + 2 * CELL, Layout(b.a, base + 2 * CELL))
  {
    var first, end := base + 2 * CELL, base + CELL * (2 + Len(b.a));
    CodeSplit(mem, base, [Xt(ZeroBranch), end], Layout(b.a, first));
    CellsOf(mem, base, Xt(ZeroBranch), end);
  }

  lemma {:induction false} CondElseParts(mem: Memory, base: int, b: Prog)
    requires b.CondElse? && CodeAt(mem, base, Layout(b, base))
    ensures var first := base + 2 * CELL; var mid := base + CELL * (4 + Len(b.a));
            && Holds(mem, base, Xt(ZeroBranch)) && Holds(mem, base + CELL, mid)
            && CodeAt(mem, first, Layout(b.a, first))
            && Holds(mem, mid - 2 * CELL, Xt(Branch)) && Holds(mem, mid - CELL, mid + CELL * Len(b.b))
            && CodeAt(mem, mid, Layout(b.b, mid))
  {
    var first := base + 2 * CELL; var mid := base + CELL * (4 + Len(b.a));
    var x, y := Layout(b.a, first), Layout(b.b, mid);
    var j := [Xt(Branch), mid + CELL * Len(b.b)];
    CodeSplit(mem, base, [Xt(ZeroBranch), mid], x + (j + y));
    CellsOf(mem, base, Xt(ZeroBranch), mid);
    CodeSplit(mem, first, x, j + y);
    CodeSplit(mem, mid - 2 * CELL, j, y);
    CellsOf(mem, mid - 2 * CELL, Xt(Branch), mid + CELL * Len(b.b));
  }

  lemma {:induction false} LoopParts(mem: Memory, base: int, b: Prog)
    requires b.Loop? && CodeAt(mem, base, Layout(b, base))
    ensures var end := base + CELL * Len(b.a); Holds(mem, end, Xt(Branch)) && Holds(mem, end + CELL, base)
    ensures CodeAt(mem, base, Layout(b.a, base))
  {
    CodeSplit(mem, base, Layout(b.a, base), [Xt(Branch), base]);
    CellsOf(mem, base + CELL * Len(b.a), Xt(Branch), base);
  }

  lemma {:induction false} WhileParts(mem: Memory, base: int, b: Prog)
    requires b.WhileLoop? && CodeAt(mem, base, Layout(b, base))
    ensures var test := base + CELL * Len(b.c); var body := test + 2 * CELL; var end := body + CELL * Len(b.a);
            && CodeAt(mem, base, Layout(b.c, base))
            && Holds(mem, test, Xt(ZeroBranch)) && Holds(mem, test + CELL, end + 2 * CELL)
            && CodeAt(mem, body, Layout(b.a, body))
            && Holds(mem, end, Xt(Branch)) && Holds(mem, end + CELL, base)
  {
    var test := base + CELL * Len(b.c); var body := test + 2 * CELL; var end := body + CELL * Len(b.a);
    var c, x := Layout(b.c, base), Layout(b.a, body);
    CodeSplit(mem, base, c, [Xt(ZeroBranch), end + 2 * CELL] + (x + [Xt(Branch), base]));
    CodeSplit(mem, test, [Xt(ZeroBranch), end + 2 * CELL], x + [Xt(Branch), base]);
    CellsOf(mem, test, Xt(ZeroBranch), end + 2 * CELL);
    CodeSplit(mem, body, x, [Xt(Branch), base]);
    CellsOf(mem, end, Xt(Branch), base);
  }

  // ---------------------------------------------------------------- the threaded code runs as meant

  /** The machine is at the code of `b`, inside some word, with `env` loaded. */
  ghost predicate AtCode(env: Env, b: Prog, m: State) {
    m.rs.On? && Loaded(m.mem, env) && Closed(env, b) && CodeAt(m.mem, m.ip, Layout(b, m.ip))
  }

  function EndOf(b: Prog, m: State): int { m.ip + CELL * Len(b) }

  ghost predicate RunsAs(env: Env, b: Prog, m: State, fuel: nat) {
    Matches(m, EndOf(b, m), Eval(env, b, m.ds, fuel), fuel)
  }

  lemma {:induction false} RunSeq(env: Env, b: Prog, m: State, fuel: nat)
    requires b.Seq? && AtCode(env, b, m)
    ensures RunsAs(env, b, m, fuel)
    decreases fuel, b, 1
  {
    CodeSplit(m.mem, m.ip, Layout(b.a, m.ip), Layout(b.b, EndOf(b.a, m)));
    RunCode(env, b.a, m, fuel);
    var r := Eval(env, b.a, m.ds, fuel);
    if r.Fall? { RunRest(env, b, m, m.(ip := EndOf(b.a, m), ds := r.ds), fuel); }
  }

  lemma {:induction false} RunRest(env: Env, b: Prog, m: State, m1: State, fuel: nat)
    requires b.Seq? && Loaded(m.mem, env) && m.rs.On? && Closed(env, b.b) && CodeAt(m.mem, m1.ip, Layout(b.b, m1.ip))
    requires Eval(env, b.a, m.ds, fuel) == Fall(m1.ds) && m1.ip == EndOf(b.a, m) && SameBut(m, m1) && Reaches(m, m1)
    ensures RunsAs(env, b, m, fuel)
    decreases fuel, b, 0
  {
    RunCode(env, b.b, m1, fuel);
    After(m, m1, EndOf(b, m), Eval(env, b, m.ds, fuel), fuel);
  }

  lemma {:induction false} RunWord(env: Env, b: Prog, m: State, fuel: nat)
    requires b.Word? && AtCode(env, b, m)
    ensures RunsAs(env, b, m, fuel)
  {
    CodeCell(m.mem, m.ip, [Xt(b.p)], 0);
    PlainSteps(m, b.p);
    if Plain(b.p, m.ds).Some? { OneStep(m); } else { WrongNow(m); }
  }

  lemma {:induction false} RunNumber(env: Env, b: Prog, m: State, fuel: nat)
    requires b.Number? && AtCode(env, b, m)
    ensures RunsAs(env, b, m, fuel)
  {
    LitSteps(m, b.n);
    OneStep(m);
  }

  lemma {:induction false} RunLeave(env: Env, b: Prog, m: State, fuel: nat)
    requires b.Leave? && AtCode(env, b, m)
    ensures RunsAs(env, b, m, fuel)
  {
    ReturnRuns(m);
  }

  /** What a word's body does when entered, as its caller sees it. */
  lemma {:induction false} Returns(m: State, xt: int, b: Prog, r: Result, fuel: nat)
    requires PrimsAt(m.mem) && Installed(m.mem, xt, b)
    requires Matches(Enter(m, xt), xt + CELL + CELL * Len(b), r, fuel)
    ensures MatchesCall(m, Enter(m, xt), if r.Left? then Fall(r.ds) else r, fuel)
  {
    if r.Fall? {
      var m1 := Enter(m, xt).(ip := xt + CELL + CELL * Len(b), ds := r.ds);
      assert CodeAt(m1.mem, m1.ip, [Xt(Exit)]);
      ReturnRuns(m1);
      ReachesTrans(Enter(m, xt), m1, m.(ds := r.ds));
    }
  }

  /** As `Matches`, for a call that has been entered from `m` and returns to `m.ip`. */
  ghost predicate MatchesCall(m: State, inside: State, r: Result, fuel: nat) {
    match r
    case Fall(s) => Reaches(inside, m.(ds := s))
    case Left(s) => false
    case Stuck => GoesWrong(inside)
    case OutOfFuel => Lasts(inside, fuel)
  }

  lemma {:induction false} RunInvoke(env: Env, b: Prog, m: State, fuel: nat)
    requires b.Invoke? && Loaded(m.mem, env) && b.xt in env && Holds(m.mem, m.ip, b.xt)
    ensures RunsAs(env, b, m, fuel)
    decreases fuel, b, 0
  {
    if fuel > 0 {
      var m1 := m.(ip := m.ip + CELL);
      var m2 := Enter(m1, b.xt);
      CallSteps(m, b.xt);
      RunCode(env, env[b.xt], m2, fuel - 1);
      Returns(m1, b.xt, env[b.xt], Eval(env, env[b.xt], m.ds, fuel - 1), fuel - 1);
      OneStep(m);
      var r := Eval(env, b, m.ds, fuel);
      match r
      case Fall(s) => ReachesTrans(m, m2, m1.(ds := s));
      case Stuck => WrongAfter(m, m2);
      case OutOfFuel => assert Lasts(m, fuel);
    }
  }

  lemma {:induction false} RunCond(env: Env, b: Prog, m: State, fuel: nat)
    requires b.Cond? && AtCode(env, b, m)
    ensures RunsAs(env, b, m, fuel)
    decreases fuel, b, 0
  {
    CondParts(m.mem, m.ip, b);
    ZeroBranchSteps(m, EndOf(b, m));
    if m.ds.Bottom? {
      WrongNow(m);
    } else {
      OneStep(m);
      if m.ds.top != 0 {
        var m1 := m.(ip := m.ip + 2 * CELL, ds := m.ds.below);
        RunCode(env, b.a, m1, fuel);
        After(m, m1, EndOf(b, m), Eval(env, b, m.ds, fuel), fuel);
      }
    }
  }

  lemma {:induction false} RunCondElse(env: Env, b: Prog, m: State, fuel: nat)
    requires b.CondElse? && AtCode(env, b, m)
    ensures RunsAs(env, b, m, fuel)
    decreases fuel, b, 1
  {
    var first := m.ip + 2 * CELL; var mid := m.ip + CELL * (4 + Len(b.a));
    CondElseParts(m.mem, m.ip, b);
    ZeroBranchSteps(m, mid);
    if m.ds.Bottom? {
      WrongNow(m);
    } else {
      OneStep(m);
      if m.ds.top != 0 { RunFirst(env, b, m, first, mid, fuel); } else { RunSecond(env, b, m, mid, fuel); }
    }
  }

  lemma {:induction false} RunFirst(env: Env, b: Prog, m: State, first: int, mid: int, fuel: nat)
    requires b.CondElse? && AtCode(env, b, m) && m.ds.On? && m.ds.top != 0
    requires first == m.ip + 2 * CELL && mid == m.ip + CELL * (4 + Len(b.a))
    requires CodeAt(m.mem, first, Layout(b.a, first)) && Reaches(m, m.(ip := first, ds := m.ds.below))
    requires Holds(m.mem, mid - 2 * CELL, Xt(Branch)) && Holds(m.mem, mid - CELL, mid + CELL * Len(b.b))
    ensures RunsAs(env, b, m, fuel)
    decreases fuel, b, 0
  {
    var m1 := m.(ip := first, ds := m.ds.below);
    RunCode(env, b.a, m1, fuel);
    JumpOver(m1, mid - 2 * CELL, EndOf(b, m), Eval(env, b, m.ds, fuel), fuel);
    After(m, m1, EndOf(b, m), Eval(env, b, m.ds, fuel), fuel);
  }

  lemma {:induction false} RunSecond(env: Env, b: Prog, m: State, mid: int, fuel: nat)
    requires b.CondElse? && AtCode(env, b, m) && m.ds.On? && m.ds.top == 0
    requires mid == m.ip + CELL * (4 + Len(b.a))
    requires CodeAt(m.mem, mid, Layout(b.b, mid)) && Reaches(m, m.(ip := mid, ds := m.ds.below))
    ensures RunsAs(env, b, m, fuel)
    decreases fuel, b, 0
  {
    var m1 := m.(ip := mid, ds := m.ds.below);
    RunCode(env, b.b, m1, fuel);
    After(m, m1, EndOf(b, m), Eval(env, b, m.ds, fuel), fuel);
  }

  /** Code that ends at an unconditional branch ends where the branch leads. */
  lemma {:induction false} JumpOver(m: State, at: int, to: int, r: Result, fuel: nat)
    requires PrimsAt(m.mem) && Holds(m.mem, at, Xt(Branch)) && Holds(m.mem, at + CELL, to) && Matches(m, at, r, fuel)
    ensures Matches(m, to, r, fuel)
  {
    if r.Fall? {
      var m1 := m.(ip := at, ds := r.ds);
      BranchSteps(m1, to);
      OneStep(m1);
      ReachesTrans(m, m1, m1.(ip := to));
    }
  }

  lemma {:induction false} RunLoop(env: Env, b: Prog, m: State, fuel: nat)
    requires b.Loop? && AtCode(env, b, m)
    ensures RunsAs(env, b, m, fuel)
    decreases fuel, b, 0
  {
    LoopParts(m.mem, m.ip, b);
    RunCode(env, b.a, m, fuel);
    var r := Eval(env, b.a, m.ds, fuel);
    if r.Fall? && fuel > 0 {
      var m1 := m.(ip := EndOf(b.a, m), ds := r.ds);
      RunAgain(env, b, m1, m.ip, fuel);
      After(m, m1, EndOf(b, m), Eval(env, b, r.ds, fuel - 1), fuel);
    }
  }

  /** Branching back to the start of a loop runs the loop again, on one unit of fuel less. */
  lemma {:induction false} RunAgain(env: Env, b: Prog, m: State, start: int, fuel: nat)
    requires fuel > 0 && AtCode(env, b, m.(ip := start))
    requires Holds(m.mem, m.ip, Xt(Branch)) && Holds(m.mem, m.ip + CELL, start)
    ensures Matches(m, start + CELL * Len(b), Eval(env, b, m.ds, fuel - 1), fuel)
    decreases fuel - 1, b, 5
  {
    BranchSteps(m, start);
    RunCode(env, b, m.(ip := start), fuel - 1);
    AfterFuel(m, m.(ip := start), start + CELL * Len(b), Eval(env, b, m.ds, fuel - 1), fuel - 1);
  }

  lemma {:induction false} RunWhile(env: Env, b: Prog, m: State, fuel: nat)
    requires b.WhileLoop? && AtCode(env, b, m)
    ensures RunsAs(env, b, m, fuel)
    decreases fuel, b, 3
  {
    WhileParts(m.mem, m.ip, b);
    RunCode(env, b.c, m, fuel);
    var t := Eval(env, b.c, m.ds, fuel);
    if t.Fall? {
      var m1 := m.(ip := EndOf(b.c, m), ds := t.ds);
      RunTest(env, b, m1, m.ip, fuel);
      After(m, m1, EndOf(b, m), Eval(env, b, m.ds, fuel), fuel);
    }
  }

  /** The rest of a `while` loop once its condition has left `m.ds`. */
  function AfterTest(env: Env, b: Prog, ds: Stack, fuel: nat): Result
    requires b.WhileLoop?
  {
    if ds.Bottom? then Stuck
    else if ds.top == 0 then Fall(ds.below)
    else
      var r := Eval(env, b.a, ds.below, fuel);
      if !r.Fall? then r else if fuel == 0 then OutOfFuel else Eval(env, b, r.ds, fuel - 1)
  }

  lemma {:induction false} RunTest(env: Env, b: Prog, m: State, start: int, fuel: nat)
    requires b.WhileLoop? && AtCode(env, b, m.(ip := start)) && m.ip == start + CELL * Len(b.c)
    ensures Matches(m, start + CELL * Len(b), AfterTest(env, b, m.ds, fuel), fuel)
    decreases fuel, b, 2
  {
    var end := start + CELL * Len(b);
    WhileParts(m.mem, start, b);
    ZeroBranchSteps(m, end);
    if m.ds.Bottom? {
      WrongNow(m);
    } else {
      OneStep(m);
      if m.ds.top != 0 { RunRound(env, b, m, m.(ip := m.ip + 2 * CELL, ds := m.ds.below), start, fuel); }
    }
  }

  /** A test that passed, one round of the body, and the loop again. */
  lemma {:induction false} RunRound(env: Env, b: Prog, m: State, m1: State, start: int, fuel: nat)
    requires b.WhileLoop? && AtCode(env, b, m.(ip := start)) && m.ip == start + CELL * Len(b.c)
    requires m.ds.On? && m.ds.top != 0 && m1 == m.(ip := m.ip + 2 * CELL, ds := m.ds.below) && Reaches(m, m1)
    ensures Matches(m, start + CELL * Len(b), AfterTest(env, b, m.ds, fuel), fuel)
    decreases fuel, b, 1
  {
    WhileParts(m.mem, start, b);
    RunBody(env, b, m1, m.ds, start, fuel);
    After(m, m1, start + CELL * Len(b), AfterTest(env, b, m.ds, fuel), fuel);
  }

  lemma {:induction false} RunBody(env: Env, b: Prog, m: State, ds: Stack, start: int, fuel: nat)
    requires b.WhileLoop? && AtCode(env, b, m.(ip := start)) && m.ip == start + CELL * (Len(b.c) + 2)
    requires ds.On? && ds.top != 0 && m.ds == ds.below
    requires CodeAt(m.mem, m.ip, Layout(b.a, m.ip))
    requires var again := m.ip + CELL * Len(b.a); Holds(m.mem, again, Xt(Branch)) && Holds(m.mem, again + CELL, start)
    ensures Matches(m, start + CELL * Len(b), AfterTest(env, b, ds, fuel), fuel)
    decreases fuel, b, 0
  {
    RunCode(env, b.a, m, fuel);
    var r := Eval(env, b.a, m.ds, fuel);
    if r.Fall? && fuel > 0 {
      var m2 := m.(ip := EndOf(b.a, m), ds := r.ds);
      RunAgain(env, b, m2, start, fuel);
      After(m, m2, start + CELL * Len(b), Eval(env, b, r.ds, fuel - 1), fuel);
    }
  }

  /** The threaded code of every program, from every stack, runs as the program means. */
  lemma {:induction false} RunCode(env: Env, b: Prog, m: State, fuel: nat)
    requires AtCode(env, b, m)
    ensures RunsAs(env, b, m, fuel)
    decreases fuel, b, 4
  {
    match b
    case Nop => ReachesRefl(m);
    case Seq(_, _) => RunSeq(env, b, m, fuel);
    case Word(_) => RunWord(env, b, m, fuel);
    case Number(_) => RunNumber(env, b, m, fuel);
    case Invoke(xt) => CodeCell(m.mem, m.ip, [xt], 0); RunInvoke(env, b, m, fuel);
    case Leave => RunLeave(env, b, m, fuel);
    case Cond(_) => RunCond(env, b, m, fuel);
    case CondElse(_, _) => RunCondElse(env, b, m, fuel);
    case Loop(_) => RunLoop(env, b, m, fuel);
    case WhileLoop(_, _) => RunWhile(env, b, m, fuel);
  }
}
