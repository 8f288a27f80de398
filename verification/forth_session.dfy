/**
  Whole sessions: colon definitions compiled one after another, then a word executed.  The
  machine halts with a stack, goes wrong or runs for ever exactly as the definitions mean.
 */
module ForthSession {
  import opened Wrappers
  import opened ForthMachine
  import opened ForthDictionary
  import opened ForthWords
  import opened ForthCompiler
  import opened ForthMeaning

  // ---------------------------------------------------------------- how a run can end

  ghost predicate StopsAt(m: State, n: nat, m': State) {
    RunsTo(m, n, m') && !Step(m').Next?
  }

  ghost predicate HaltsWith(m: State, ds: Stack) {
    exists m' :: Reaches(m, m') && Step(m') == Halted(ds)
  }

  ghost predicate Diverges(m: State) { forall n: nat :: Lasts(m, n) }

  /** The machine is deterministic: it stops in at most one place. */
  lemma {:induction false} StopUnique(m: State, i: nat, a: State, j: nat, b: State)
    requires StopsAt(m, i, a) && StopsAt(m, j, b)
    ensures i == j && a == b
    decreases i
  {
    if i > 0 && j > 0 { StopUnique(Step(m).state, i - 1, a, j - 1, b); }
  }

  lemma {:induction false} StopEnds(m: State, i: nat, a: State)
    requires StopsAt(m, i, a)
    ensures !Lasts(m, i + 1)
    decreases i
  {
    if i > 0 { StopEnds(Step(m).state, i - 1, a); }
  }

  /** A run that stops says how: two ways of stopping are the same. */
  lemma SameStop(m: State, a: State, b: State)
    requires Reaches(m, a) && !Step(a).Next? && Reaches(m, b) && !Step(b).Next?
    ensures a == b
  {
    var i: nat :| RunsTo(m, i, a);
    var j: nat :| RunsTo(m, j, b);
    StopUnique(m, i, a, j, b);
  }

  lemma StopOrLast(m: State, a: State)
    requires Reaches(m, a) && !Step(a).Next?
    ensures exists n: nat :: !Lasts(m, n)
  {
    var i: nat :| RunsTo(m, i, a);
    StopEnds(m, i, a);
  }

  // ---------------------------------------------------------------- executing one word

  /** The two-cell program that executes `xt` and leaves the interpreter. */
  ghost predicate Starts(env: Env, m: State, xt: int) {
    Loaded(m.mem, env) && xt in env && Holds(m.mem, m.ip, xt) && Holds(m.mem, m.ip + CELL, Xt(Bye))
  }

  lemma ByeSteps(m: State)
    requires PrimsAt(m.mem) && Holds(m.mem, m.ip, Xt(Bye))
    ensures Step(m) == Halted(m.ds)
  {
  }

  function Meaning(env: Env, xt: int, ds: Stack, fuel: nat): (r: Result)
    ensures !r.Left?
  {
    Eval(env, Invoke(xt), ds, fuel)
  }

  /** What the run does for any one amount of fuel. */
  lemma RunWith(env: Env, m: State, xt: int, fuel: nat)
    requires Starts(env, m, xt)
    ensures match Meaning(env, xt, m.ds, fuel)
            case Fall(s) => HaltsWith(m, s)
            case Stuck => GoesWrong(m)
            case OutOfFuel => Lasts(m, fuel)
  {
    RunInvoke(env, Invoke(xt), m, fuel);
    var r := Meaning(env, xt, m.ds, fuel);
    if r.Fall? { ByeSteps(m.(ip := m.ip + CELL, ds := r.ds)); }
  }

  /** A run that stops is explained by some amount of fuel. */
  lemma EnoughFuel(env: Env, m: State, xt: int, a: State) returns (fuel: nat)
    requires Starts(env, m, xt) && Reaches(m, a) && !Step(a).Next?
    ensures !Meaning(env, xt, m.ds, fuel).OutOfFuel?
  {
    StopOrLast(m, a);
    fuel :| !Lasts(m, fuel);
    RunWith(env, m, xt, fuel);
  }

  lemma {:induction false} HaltsExactly(env: Env, m: State, xt: int, s: Stack)
    requires Starts(env, m, xt)
    ensures HaltsWith(m, s) <==> exists fuel: nat :: Meaning(env, xt, m.ds, fuel) == Fall(s)
  {
    if HaltsWith(m, s) {
      var a :| Reaches(m, a) && Step(a) == Halted(s);
      var fuel := EnoughFuel(env, m, xt, a);
      RunWith(env, m, xt, fuel);
      var r := Meaning(env, xt, m.ds, fuel);
      if r.Fall? {
        var b :| Reaches(m, b) && Step(b) == Halted(r.ds);
        SameStop(m, a, b);
      } else {
        var b :| Reaches(m, b) && Step(b) == Undefined;
        SameStop(m, a, b);
      }
    }
    forall fuel: nat | Meaning(env, xt, m.ds, fuel) == Fall(s) ensures HaltsWith(m, s) { RunWith(env, m, xt, fuel); }
  }

  lemma GoesWrongExactly(env: Env, m: State, xt: int)
    requires Starts(env, m, xt)
    ensures GoesWrong(m) <==> exists fuel: nat :: Meaning(env, xt, m.ds, fuel) == Stuck
  {
    if GoesWrong(m) {
      var a :| Reaches(m, a) && Step(a) == Undefined;
      var fuel := EnoughFuel(env, m, xt, a);
      RunWith(env, m, xt, fuel);
      var r := Meaning(env, xt, m.ds, fuel);
      if r.Fall? {
        var b :| Reaches(m, b) && Step(b) == Halted(r.ds);
        SameStop(m, a, b);
      }
    }
    forall fuel: nat | Meaning(env, xt, m.ds, fuel) == Stuck ensures GoesWrong(m) { RunWith(env, m, xt, fuel); }
  }

  lemma DivergesExactly(env: Env, m: State, xt: int)
    requires Starts(env, m, xt)
    ensures Diverges(m) <==> forall fuel: nat :: Meaning(env, xt, m.ds, fuel) == OutOfFuel
  {
    if Diverges(m) {
      forall fuel: nat ensures Meaning(env, xt, m.ds, fuel) == OutOfFuel {
        RunWith(env, m, xt, fuel);
        var r := Meaning(env, xt, m.ds, fuel);
        if r.Fall? {
          var b :| Reaches(m, b) && Step(b) == Halted(r.ds);
          StopOrLast(m, b);
        } else if r.Stuck? {
          var b :| Reaches(m, b) && Step(b) == Undefined;
          StopOrLast(m, b);
        }
      }
    }
    if forall fuel: nat :: Meaning(env, xt, m.ds, fuel) == OutOfFuel {
      forall n: nat ensures Lasts(m, n) { RunWith(env, m, xt, n); }
    }
  }

  // ---------------------------------------------------------------- definitions

  /** A colon definition: the cells of its header, how long that is, and its body. */
  datatype Def = Def(header: Memory, gap: nat, body: Prog)

  datatype Defined = Defined(desk: Desk, dictionary: int)

  ghost predicate HeaderFits(d: Desk, def: Def) {
    forall a | a in def.header :: d.here <= a < d.here + def.gap
  }

  /** `:` leaves the header's address on the stack and lays down the code field. */
  function Colonize(d: Desk, def: Def): Desk {
    var xt := d.here + def.gap;
    Desk(On(d.here, d.ds), (d.mem + def.header)[xt := Machine(DoColon)], xt + CELL)
  }

  /** `;` links the header it finds on the stack and lays down `exit`. */
  function Semicolon(d: Desk): Option<Defined> {
    if d.ds.Bottom? then None else Some(Defined(Laid(d, Xt(Exit)).(ds := d.ds.below), d.ds.top))
  }

  function Define(d: Desk, def: Def): Option<Defined> {
    match ReadAll(Tokens(def.body), Colonize(d, def))
    case None => None
    case Some(d1) => Semicolon(d1)
  }

  /** The dictionary is intact, and the words of `env` lie in the space used so far. */
  ghost predicate SessionOk(env: Env, d: Desk) {
    && d.here >= FREE && Image(d.mem) && Loaded(d.mem, env)
    && forall xt | xt in env :: FREE <= xt && xt + CELL * (Len(env[xt]) + 2) <= d.here
  }

  lemma {:induction false} ClosedMore(env: Env, xt: int, def: Prog, b: Prog)
    requires Closed(env, b)
    ensures Closed(env[xt := def], b)
  {
    match b
    case Seq(x, y) => ClosedMore(env, xt, def, x); ClosedMore(env, xt, def, y);
    case Cond(x) => ClosedMore(env, xt, def, x);
    case CondElse(x, y) => ClosedMore(env, xt, def, x); ClosedMore(env, xt, def, y);
    case Loop(x) => ClosedMore(env, xt, def, x);
    case WhileLoop(c, x) => ClosedMore(env, xt, def, c); ClosedMore(env, xt, def, x);
    case _ =>
  }

  lemma {:induction false} InstalledSame(mem: Memory, mem': Memory, to: int, xt: int, b: Prog)
    requires Installed(mem, xt, b) && SameBetween(mem, mem', 0, to) && 0 <= xt && xt + CELL * (Len(b) + 2) <= to
    ensures Installed(mem', xt, b)
  {
    CodeSame(mem, mem', xt + CELL, Layout(b, xt + CELL), 0, to);
  }

  lemma LoadedSame(env: Env, mem: Memory, mem': Memory, to: int)
    requires Loaded(mem, env) && SameBetween(mem, mem', 0, to) && FREE <= to
    requires forall xt | xt in env :: FREE <= xt && xt + CELL * (Len(env[xt]) + 2) <= to
    ensures Loaded(mem', env)
  {
    forall p: Prim ensures Xt(p) in mem' && mem'[Xt(p)] == Machine(Native(p)) { assert 0 <= Xt(p) < FREE; }
    forall xt | xt in env ensures Installed(mem', xt, env[xt]) { InstalledSame(mem, mem', to, xt, env[xt]); }
  }

  lemma {:induction false} LoadedMore(env: Env, mem: Memory, xt: int, b: Prog)
    requires Loaded(mem, env) && Closed(env, b) && Installed(mem, xt, b)
    ensures Loaded(mem, env[xt := b])
  {
    var env' := env[xt := b];
    forall x | x in env' ensures Closed(env', env'[x]) && Installed(mem, x, env'[x]) {
      ClosedMore(env, xt, b, if x == xt then b else env[x]);
    }
  }

  lemma {:induction false} DefineLays(d: Desk, def: Def)
    requires d.here >= FREE && HeaderFits(d, def)
    ensures Define(d, def).Some? && Define(d, def).value.dictionary == d.here
    ensures var d' := Define(d, def).value.desk; var xt := d.here + def.gap;
            && d'.ds == d.ds && d'.here == xt + CELL * (Len(def.body) + 2)
            && SameBetween(d.mem, d'.mem, 0, d.here)
            && Installed(d'.mem, xt, def.body)
  {
    var d0, xt := Colonize(d, def), d.here + def.gap;
    assert Compiles(def.body, d0) by { CompileBody(def.body, d0); }
    var d1 := ReadAll(Tokens(def.body), d0).value;
    Finished(d0, d1, xt, Layout(def.body, d0.here));
    assert SameBetween(d.mem, d0.mem, 0, d.here);
  }

  /** `;` after compiled code lays down the exit and keeps the rest. */
  lemma Finished(d0: Desk, d1: Desk, xt: int, code: seq<int>)
    requires xt >= 0 && d0.here == xt + CELL && xt in d0.mem && d0.mem[xt] == Machine(DoColon)
    requires d1.here == d0.here + CELL * |code| && CodeAt(d1.mem, d0.here, code) && SameBetween(d0.mem, d1.mem, 0, d0.here)
    ensures var mem := Laid(d1, Xt(Exit)).mem;
            && SameBetween(d0.mem, mem, 0, d0.here) && CodeAt(mem, xt + CELL, code)
            && xt in mem && mem[xt] == Machine(DoColon) && Holds(mem, d1.here, Xt(Exit))
  {
    CodeSame(d1.mem, Laid(d1, Xt(Exit)).mem, d0.here, code, d0.here, d1.here);
  }

  /** A definition keeps every earlier word, adds its own, and links the header `:` made. */
  lemma {:induction false} DefineKeeps(env: Env, d: Desk, def: Def)
    requires SessionOk(env, d) && Closed(env, def.body) && HeaderFits(d, def)
    ensures Define(d, def).Some? && Define(d, def).value.dictionary == d.here
    ensures var d' := Define(d, def).value.desk;
            d'.ds == d.ds && SessionOk(env[d.here + def.gap := def.body], d')
  {
    DefineLays(d, def);
    var d', xt := Define(d, def).value.desk, d.here + def.gap;
    LoadedSame(env, d.mem, d'.mem, d.here);
    ImageSame(d.mem, d'.mem);
    LoadedMore(env, d'.mem, xt, def.body);
  }

  // ---------------------------------------------------------------- sessions

  datatype Defs = NoMore | More(def: Def, rest: Defs)

  /** The definitions of a session, each naming only words defined before it. */
  ghost predicate Sensible(env: Env, d: Desk, defs: Defs)
    decreases defs
  {
    defs.More? ==>
    && Closed(env, defs.def.body) && HeaderFits(d, defs.def)
    && var r := Define(d, defs.def);
       r.Some? ==> Sensible(env[d.here + defs.def.gap := defs.def.body], r.value.desk, defs.rest)
  }

  datatype Session = Session(env: Env, desk: Desk)

  function DefineAll(env: Env, d: Desk, defs: Defs): Option<Session>
    decreases defs
  {
    match defs
    case NoMore => Some(Session(env, d))
    case More(def, rest) =>
      match Define(d, def)
      case None => None
      case Some(r) => DefineAll(env[d.here + def.gap := def.body], r.desk, rest)
  }

  lemma {:induction false} SessionKeeps(env: Env, d: Desk, defs: Defs)
    requires SessionOk(env, d) && Sensible(env, d, defs)
    ensures DefineAll(env, d, defs).Some?
    ensures var s := DefineAll(env, d, defs).value; s.desk.ds == d.ds && SessionOk(s.env, s.desk)
    decreases defs
  {
    if defs.More? {
      DefineKeeps(env, d, defs.def);
      SessionKeeps(env[d.here + defs.def.gap := defs.def.body], Define(d, defs.def).value.desk, defs.rest);
    }
  }

  /** A machine holding what the session compiled, about to execute the word `xt` of it. */
  ghost predicate Runs(s: Session, m: State, xt: int) {
    && xt in s.env && SameBetween(s.desk.mem, m.mem, 0, s.desk.here)
    && Holds(m.mem, m.ip, xt) && Holds(m.mem, m.ip + CELL, Xt(Bye))
  }

  /** Every session compiles, and every word it defines runs, from every stack, exactly as it means. */
  lemma {:induction false} SessionMeans(d: Desk, defs: Defs, m: State, xt: int)
    requires d.here >= FREE && Image(d.mem) && Sensible(map[], d, defs)
    ensures DefineAll(map[], d, defs).Some?
    ensures var s := DefineAll(map[], d, defs).value;
            && s.desk.ds == d.ds
            && (Runs(s, m, xt) ==>
                  && (forall ds :: HaltsWith(m, ds) <==> exists fuel: nat :: Meaning(s.env, xt, m.ds, fuel) == Fall(ds))
                  && (GoesWrong(m) <==> exists fuel: nat :: Meaning(s.env, xt, m.ds, fuel) == Stuck)
                  && (Diverges(m) <==> forall fuel: nat :: Meaning(s.env, xt, m.ds, fuel) == OutOfFuel))
  {
    SessionKeeps(map[], d, defs);
    var s := DefineAll(map[], d, defs).value;
    if Runs(s, m, xt) {
      LoadedSame(s.env, s.desk.mem, m.mem, s.desk.here);
      forall ds ensures HaltsWith(m, ds) <==> exists fuel: nat :: Meaning(s.env, xt, m.ds, fuel) == Fall(ds) {
        HaltsExactly(s.env, m, xt, ds);
      }
      GoesWrongExactly(s.env, m, xt);
      DivergesExactly(s.env, m, xt);
    }
  }
}
