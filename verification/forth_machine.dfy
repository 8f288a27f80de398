/**
  The threaded-code machine: cells in memory, an instruction pointer, a data stack and a
  return stack.  A cell holds a number or an address, or, as the code field of
  a word, the machine code that runs it.
 */
module ForthMachine {
  import opened Wrappers

  const CELL: int := 8
  const WORD: int := 0x1_0000_0000_0000_0000

  /** The words written in machine code. */
  datatype Prim =
    | Dup | Swap | TwoDup | Drop | TwoDrop | Nip | Plus | Minus | OnePlus | True | False | ZeroEq | QueryDup
    | Lit | Branch | ZeroBranch | Exit | Bye
    | Here | Comma | Store

  datatype Code = DoColon | Native(prim: Prim)

  datatype Cell = Data(value: int) | Machine(code: Code)

  /** A stack of cells, top first. */
  datatype Stack = Bottom | On(top: int, below: Stack)

  type Memory = map<int, Cell>

  datatype State = State(ip: int, ds: Stack, rs: Stack, mem: Memory, here: int)

  /** One step of the inner interpreter; reading past either stack is undefined. */
  datatype Outcome = Next(state: State) | Halted(ds: Stack) | Undefined

  predicate IsData(mem: Memory, a: int) { a in mem && mem[a].Data? }

  function Wrap(n: int): int { n % WORD }

  /** The words that only rearrange or compute on the data stack. */
  predicate IsPlain(p: Prim) {
    match p
    case Lit => false case Branch => false case ZeroBranch => false case Exit => false case Bye => false
    case Here => false case Comma => false case Store => false
    case _ => true
  }

  function Plain(p: Prim, s: Stack): Option<Stack>
    requires IsPlain(p)
  {
    match (p, s)
    case (True, _) => Some(On(1, s))
    case (False, _) => Some(On(0, s))
    case (Dup, On(x, r)) => Some(On(x, s))
    case (Drop, On(x, r)) => Some(r)
    case (OnePlus, On(x, r)) => Some(On(Wrap(x + 1), r))
    case (ZeroEq, On(x, r)) => Some(On(if x == 0 then 1 else 0, r))
    case (QueryDup, On(x, r)) => Some(if x != 0 then On(x, s) else s)
    case (Swap, On(x, On(y, r))) => Some(On(y, On(x, r)))
    case (TwoDup, On(x, On(y, r))) => Some(On(x, On(y, s)))
    case (TwoDrop, On(x, On(y, r))) => Some(r)
    case (Nip, On(x, On(y, r))) => Some(On(x, r))
    case (Plus, On(x, On(y, r))) => Some(On(Wrap(y + x), r))
    case (Minus, On(x, On(y, r))) => Some(On(Wrap(y - x), r))
    case _ => None
  }

  // ---------------------------------------------------------------- the stack words, cell by cell

  /** The cells of a stack, top first. */
  function Contents(s: Stack): seq<int> {
    if s.Bottom? then [] else [s.top] + Contents(s.below)
  }

  /** The cells `d` that word `p` leaves of the cells `c`, and that `c` has enough of them. */
  predicate Gives(p: Prim, c: seq<int>, d: seq<int>) {
    match p
    case Dup => |c| >= 1 && d == [c[0]] + c
    case Swap => |c| >= 2 && d == [c[1], c[0]] + c[2..]
    case TwoDup => |c| >= 2 && d == [c[0], c[1]] + c
    case Drop => |c| >= 1 && d == c[1..]
    case TwoDrop => |c| >= 2 && d == c[2..]
    case Nip => |c| >= 2 && d == [c[0]] + c[2..]
    case Plus => |c| >= 2 && d == [(c[0] + c[1]) % 0x1_0000_0000_0000_0000] + c[2..]
    case Minus => |c| >= 2 && d == [(c[1] - c[0]) % 0x1_0000_0000_0000_0000] + c[2..]
    case OnePlus => |c| >= 1 && d == [(c[0] + 1) % 0x1_0000_0000_0000_0000] + c[1..]
    case True => d == [1] + c
    case False => d == [0] + c
    case ZeroEq => |c| >= 1 && |d| == |c| && d[1..] == c[1..] && (d[0] == 1 <==> c[0] == 0) && (d[0] == 0 <==> c[0] != 0)
    case QueryDup => |c| >= 1 && d == (if c[0] == 0 then c else [c[0]] + c)
    case _ => false
  }

  /** There are fewer cells than `p` needs. */
  predicate TooFew(p: Prim, c: seq<int>) {
    if p in {Prim.True, Prim.False} then false
    else if p in {Prim.Dup, Prim.Drop, Prim.OnePlus, Prim.ZeroEq, Prim.QueryDup} then |c| < 1
    else |c| < 2
  }

  lemma ContentsOn(s: Stack)
    ensures |Contents(s)| >= 1 <==> s.On?
    ensures s.On? ==> Contents(s)[0] == s.top && Contents(s)[1..] == Contents(s.below)
    ensures |Contents(s)| >= 2 <==> s.On? && s.below.On?
    ensures s.On? && s.below.On? ==> Contents(s)[1] == s.below.top && Contents(s)[2..] == Contents(s.below.below)
  {
    if s.On? && s.below.On? {
      assert Contents(s)[2..] == Contents(s.below)[1..];
    }
  }

  /** A stack word underflows exactly if there are too few cells. */
  lemma PlainNeeds(p: Prim, s: Stack)
    requires IsPlain(p)
    ensures Plain(p, s).None? <==> TooFew(p, Contents(s))
  {
    ContentsOn(s);
  }

  /** Otherwise it gives the cells it should. */
  lemma PlainExact(p: Prim, s: Stack)
    requires IsPlain(p) && Plain(p, s).Some?
    ensures Gives(p, Contents(s), Contents(Plain(p, s).value))
  {
    ContentsOn(s);
    ContentsOn(Plain(p, s).value);
    match p
    case TwoDup => assert Contents(s.below) == [s.below.top] + Contents(s.below.below);
    case _ =>
  }

  /** What the machine code of `p` does, after NEXT has moved `ip` past the word's cell. */
  function Native1(m: State, p: Prim): Outcome {
    if IsPlain(p) then
      match Plain(p, m.ds)
      case None => Undefined
      case Some(ds) => Next(m.(ds := ds))
    else
      match p
      case Lit => if !IsData(m.mem, m.ip) then Undefined
                  else Next(m.(ds := On(m.mem[m.ip].value, m.ds), ip := m.ip + CELL))
      case Branch => if !IsData(m.mem, m.ip) then Undefined else Next(m.(ip := m.mem[m.ip].value))
      case ZeroBranch =>
        if m.ds.Bottom? || !IsData(m.mem, m.ip) then Undefined
        else Next(m.(ds := m.ds.below, ip := if m.ds.top == 0 then m.mem[m.ip].value else m.ip + CELL))
      case Exit => if m.rs.Bottom? then Undefined else Next(m.(ip := m.rs.top, rs := m.rs.below))
      case Bye => Halted(m.ds)
      case Here => Next(m.(ds := On(m.here, m.ds)))
      case Comma => if m.ds.Bottom? then Undefined
                    else Next(m.(ds := m.ds.below, mem := m.mem[m.here := Data(m.ds.top)], here := m.here + CELL))
      case Store => if m.ds.Bottom? || m.ds.below.Bottom? then Undefined
                    else Next(m.(ds := m.ds.below.below, mem := m.mem[m.ds.top := Data(m.ds.below.top)]))
  }

  /** NEXT: fetch the execution token at `ip` and run the code its code field names. */
  function Step(m: State): Outcome {
    if !IsData(m.mem, m.ip) then Undefined
    else
      var xt := m.mem[m.ip].value;
      if xt !in m.mem || m.mem[xt].Data? then Undefined
      else
        var m1 := m.(ip := m.ip + CELL);
        match m.mem[xt].code
        case DoColon => Next(m1.(rs := On(m1.ip, m1.rs), ip := xt + CELL))
        case Native(p) => Native1(m1, p)
  }

  // ---------------------------------------------------------------- runs

  /** `m'` is reached from `m` in `n` steps. */
  predicate RunsTo(m: State, n: nat, m': State)
    decreases n
  {
    if n == 0 then m' == m
    else Step(m).Next? && RunsTo(Step(m).state, n - 1, m')
  }

  ghost predicate Reaches(m: State, m': State) {
    exists n: nat :: RunsTo(m, n, m')
  }

  /** The machine can take at least `n` steps from `m`. */
  predicate Lasts(m: State, n: nat)
    decreases n
  {
    n == 0 || (Step(m).Next? && Lasts(Step(m).state, n - 1))
  }

  lemma {:induction false} RunsCompose(a: State, i: nat, b: State, j: nat, c: State)
    requires RunsTo(a, i, b) && RunsTo(b, j, c)
    ensures RunsTo(a, i + j, c)
    decreases i
  {
    if i > 0 { RunsCompose(Step(a).state, i - 1, b, j, c); }
  }

  lemma ReachesTrans(a: State, b: State, c: State)
    requires Reaches(a, b) && Reaches(b, c)
    ensures Reaches(a, c)
  {
    var i: nat :| RunsTo(a, i, b);
    var j: nat :| RunsTo(b, j, c);
    RunsCompose(a, i, b, j, c);
  }

  lemma ReachesStep(a: State, c: State)
    requires Step(a).Next? && Reaches(Step(a).state, c)
    ensures Reaches(a, c)
  {
    var j: nat :| RunsTo(Step(a).state, j, c);
    assert RunsTo(a, j + 1, c);
  }

  lemma ReachesRefl(a: State)
    ensures Reaches(a, a)
  {
    assert RunsTo(a, 0, a);
  }

  lemma {:induction false} LastsFewer(m: State, n: nat, k: nat)
    requires Lasts(m, n) && k <= n
    ensures Lasts(m, k)
    decreases k
  {
    if k > 0 { LastsFewer(Step(m).state, n - 1, k - 1); }
  }

  lemma {:induction false} RunsThenLasts(a: State, i: nat, b: State, n: nat)
    requires RunsTo(a, i, b) && Lasts(b, n)
    ensures Lasts(a, i + n)
    decreases i
  {
    if i > 0 { RunsThenLasts(Step(a).state, i - 1, b, n); }
  }
}
