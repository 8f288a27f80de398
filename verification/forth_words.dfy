/**
  What each control-flow word does when the outer interpreter executes it while compiling:
  its threaded code, run on the machine, lays down cells and patches holes.
 */
module ForthWords {
  import opened Wrappers
  import opened ForthMachine
  import opened ForthDictionary

  /** Calling the colon word at `xt`, to return to `m.ip`. */
  function Enter(m: State, xt: int): State {
    m.(rs := On(m.ip, m.rs), ip := xt + CELL)
  }

  /** What compiling words work on. */
  datatype Desk = Desk(ds: Stack, mem: Memory, here: int)

  function At(m: State, d: Desk): State { m.(ds := d.ds, mem := d.mem, here := d.here) }

  function DeskOf(m: State): Desk { Desk(m.ds, m.mem, m.here) }

  /** A machine-code word as an action on the desk; `None` if it would leave the free area. */
  function DoPrim(p: Prim, d: Desk): Option<Desk> {
    match (p, d.ds)
    case (Here, _) => Some(d.(ds := On(d.here, d.ds)))
    case (Swap, On(x, On(y, r))) => Some(d.(ds := On(y, On(x, r))))
    case (Comma, On(x, r)) =>
      if d.here < FREE then None else Some(Desk(r, d.mem[d.here := Data(x)], d.here + CELL))
    case (Store, On(a, On(x, r))) =>
      if a < FREE then None else Some(Desk(r, d.mem[a := Data(x)], d.here))
    case _ => None
  }

  function FirstAct(rank: nat, act: Act, d: Desk): Option<Desk>
    decreases rank, 0, Done, d.ds
  {
    match act
    case Do(p) => DoPrim(p, d)
    case Push(n) => Some(d.(ds := On(n, d.ds)))
    case Call(w) => if Rank(w) < rank then DoActs(Rank(w), Body(w), d) else None
  }

  /** A colon body as an action on the desk; a word only calls words of lower rank. */
  function DoActs(rank: nat, acts: Acts, d: Desk): Option<Desk>
    decreases rank, 1, acts, d.ds
  {
    match acts
    case Done => Some(d)
    case Cons(act, rest) =>
      match FirstAct(rank, act, d)
      case None => None
      case Some(d1) => DoActs(rank, rest, d1)
  }

  // ---------------------------------------------------------------- the machine follows the desk

  lemma DoPrimSteps(m: State, p: Prim)
    requires PrimsAt(m.mem) && m.ip in m.mem && m.mem[m.ip] == Data(Xt(p)) && DoPrim(p, DeskOf(m)).Some?
    ensures Step(m) == Next(At(m, DoPrim(p, DeskOf(m)).value).(ip := m.ip + CELL))
  {
  }

  lemma LitSteps(m: State, n: int)
    requires PrimsAt(m.mem) && CodeAt(m.mem, m.ip, [Xt(Lit), n])
    ensures Step(m) == Next(m.(ds := On(n, m.ds), ip := m.ip + 2 * CELL))
  {
    var code := [Xt(Lit), n];
    assert code[0] == Xt(Lit) && code[1] == n;
  }

  lemma CallSteps(m: State, xt: int)
    requires m.ip in m.mem && m.mem[m.ip] == Data(xt) && xt in m.mem && m.mem[xt] == Machine(DoColon)
    ensures Step(m) == Next(Enter(m.(ip := m.ip + CELL), xt))
  {
  }

  lemma ExitSteps(m: State)
    requires PrimsAt(m.mem) && m.ip in m.mem && m.mem[m.ip] == Data(Xt(Exit)) && m.rs.On?
    ensures Step(m) == Next(m.(ip := m.rs.top, rs := m.rs.below))
  {
  }

  /** The desk's actions stay above the dictionary. */
  lemma {:induction false} FirstStaysAbove(rank: nat, act: Act, d: Desk)
    requires FirstAct(rank, act, d).Some?
    ensures SameBetween(d.mem, FirstAct(rank, act, d).value.mem, 0, FREE)
    decreases rank, 0, Done
  {
    if act.Call? { ActsStayAbove(Rank(act.word), Body(act.word), d); }
  }

  lemma {:induction false} ActsStayAbove(rank: nat, acts: Acts, d: Desk)
    requires DoActs(rank, acts, d).Some?
    ensures SameBetween(d.mem, DoActs(rank, acts, d).value.mem, 0, FREE)
    decreases rank, 1, acts
  {
    if acts.Cons? {
      FirstStaysAbove(rank, acts.act, d);
      ActsStayAbove(rank, acts.rest, FirstAct(rank, acts.act, d).value);
    }
  }

  lemma {:induction false} FirstRuns(m: State, rank: nat, act: Act)
    requires Image(m.mem) && CodeAt(m.mem, m.ip, ActCells(act)) && FirstAct(rank, act, DeskOf(m)).Some?
    ensures Reaches(m, At(m, FirstAct(rank, act, DeskOf(m)).value).(ip := m.ip + CELL * |ActCells(act)|))
    decreases rank, 0, Done
  {
    var end := At(m, FirstAct(rank, act, DeskOf(m)).value).(ip := m.ip + CELL * |ActCells(act)|);
    ReachesRefl(end);
    CodeCell(m.mem, m.ip, ActCells(act), 0);
    match act
    case Do(p) => DoPrimSteps(m, p); ReachesStep(m, end);
    case Push(n) => LitSteps(m, n); ReachesStep(m, end);
    case Call(w) =>
      WordSpells(m.mem, w);
      CallSteps(m, Addr(w));
      ColonRuns(m.(ip := m.ip + CELL), Addr(w), Rank(w), Body(w));
      ReachesStep(m, end);
  }

  function AfterFirst(m: State, rank: nat, act: Act): State
    requires FirstAct(rank, act, DeskOf(m)).Some?
  {
    At(m, FirstAct(rank, act, DeskOf(m)).value).(ip := m.ip + CELL * |ActCells(act)|)
  }

  lemma RestIntact(m: State, rank: nat, act: Act, rest: seq<int>)
    requires Image(m.mem) && 0 <= m.ip && m.ip + CELL * |ActCells(act) + rest| <= FREE
    requires CodeAt(m.mem, m.ip, ActCells(act) + rest) && FirstAct(rank, act, DeskOf(m)).Some?
    ensures CodeAt(m.mem, m.ip, ActCells(act))
    ensures var m1 := AfterFirst(m, rank, act); Image(m1.mem) && CodeAt(m1.mem, m1.ip, rest)
  {
    var m1 := AfterFirst(m, rank, act);
    CodeSplit(m.mem, m.ip, ActCells(act), rest);
    FirstStaysAbove(rank, act, DeskOf(m));
    ImageSame(m.mem, m1.mem);
    CodeSame(m.mem, m1.mem, m1.ip, rest, 0, FREE);
  }

  /** Threaded code that spells `acts` does what `acts` does to the desk. */
  lemma {:induction false} ActsRun(m: State, rank: nat, acts: Acts)
    requires Image(m.mem) && 0 <= m.ip && m.ip + CELL * |Cells(acts)| <= FREE && CodeAt(m.mem, m.ip, Cells(acts))
    requires DoActs(rank, acts, DeskOf(m)).Some?
    ensures Reaches(m, At(m, DoActs(rank, acts, DeskOf(m)).value).(ip := m.ip + CELL * |Cells(acts)|))
    decreases rank, 1, acts
  {
    if acts.Done? {
      ReachesRefl(m);
    } else {
      RestIntact(m, rank, acts.act, Cells(acts.rest));
      FirstRuns(m, rank, acts.act);
      var m1 := AfterFirst(m, rank, acts.act);
      ActsRun(m1, rank, acts.rest);
      ReachesTrans(m, m1, At(m, DoActs(rank, acts, DeskOf(m)).value).(ip := m.ip + CELL * |Cells(acts)|));
    }
  }

  /** A colon word below the free area whose body spells `acts`. */
  ghost predicate Spells(mem: Memory, xt: int, acts: Acts) {
    && 0 <= xt && xt + CELL * (|Cells(acts)| + 2) <= FREE
    && ColonAt(mem, xt, Cells(acts) + [Xt(Exit)])
  }

  lemma WordSpells(mem: Memory, w: Colon)
    requires Image(mem)
    ensures Spells(mem, Addr(w), Body(w))
  {
    assert WordAt(mem, w);
    BodyFits(w);
  }

  lemma ReturnRuns(m: State)
    requires PrimsAt(m.mem) && CodeAt(m.mem, m.ip, [Xt(Exit)]) && m.rs.On?
    ensures Reaches(m, m.(ip := m.rs.top, rs := m.rs.below))
  {
    CodeCell(m.mem, m.ip, [Xt(Exit)], 0);
    ExitSteps(m);
    ReachesRefl(m.(ip := m.rs.top, rs := m.rs.below));
    ReachesStep(m, m.(ip := m.rs.top, rs := m.rs.below));
  }

  /** Executing a colon word: its body runs and returns to its caller. */
  lemma {:induction false} ColonRuns(m: State, xt: int, rank: nat, acts: Acts)
    requires Image(m.mem) && Spells(m.mem, xt, acts) && DoActs(rank, acts, DeskOf(m)).Some?
    ensures Reaches(Enter(m, xt), At(m, DoActs(rank, acts, DeskOf(m)).value))
    decreases rank, 2, acts
  {
    var code, d := Cells(acts), DoActs(rank, acts, DeskOf(m)).value;
    CodeSplit(m.mem, xt + CELL, code, [Xt(Exit)]);
    ActsRun(Enter(m, xt), rank, acts);
    ActsStayAbove(rank, acts, DeskOf(m));
    var m1 := At(Enter(m, xt), d).(ip := xt + CELL + CELL * |code|);
    ImageSame(m.mem, d.mem);
    CodeSame(m.mem, d.mem, m1.ip, [Xt(Exit)], 0, FREE);
    ReturnRuns(m1);
    ReachesTrans(Enter(m, xt), m1, At(m, d));
  }

  /** Executing a control-flow word on the machine does to the desk what its body says. */
  lemma WordRuns(m: State, w: Colon)
    requires Image(m.mem) && DoActs(Rank(w), Body(w), DeskOf(m)).Some?
    ensures Reaches(Enter(m, Addr(w)), At(m, DoActs(Rank(w), Body(w), DeskOf(m)).value))
  {
    WordSpells(m.mem, w);
    ColonRuns(m, Addr(w), Rank(w), Body(w));
  }
}
