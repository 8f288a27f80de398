/**
  The inner interpreter as the processor runs it: the top of the data stack in a register,
  the rest in memory, and return addresses in linked frames on the processor's own stack.
  Each instruction sequence, in place, does one step of the machine.
 */
module ForthCpu {
  import opened Wrappers
  import opened ForthMachine

  /** The cells `s[1]` to `s[n]` as a stack, `s[n]` on top.  `s[0]` is the spare cell below the stack. */
  function Below(s: seq<int>, n: nat): Stack
    requires n < |s|
  {
    if n == 0 then Bottom else On(s[n], Below(s, n - 1))
  }

  lemma {:induction false} BelowSame(s: seq<int>, t: seq<int>, n: nat)
    requires n < |s| && n < |t| && forall i | 1 <= i <= n :: s[i] == t[i]
    ensures Below(s, n) == Below(t, n)
  {
    if n > 0 { BelowSame(s, t, n - 1); }
  }

  /** The data stack of `n` elements whose top is in `top`. */
  function StackOf(s: seq<int>, n: nat, top: int): Stack
    requires n <= |s|
  {
    if n == 0 then Bottom else On(top, Below(s, n - 1))
  }

  /**
    A chain of frames: the frame at `rbp` holds the caller's `rbp`, a trace cell and the return
    address, and ends where the caller's frames end.
   */
  predicate Chain(s: seq<int>, rbp: nat)
    decreases rbp
  {
    rbp == 0 || (3 <= rbp <= |s| && s[rbp - 1] == rbp - 3 && Chain(s, rbp - 3))
  }

  function Frames(s: seq<int>, rbp: nat): Stack
    requires Chain(s, rbp)
    decreases rbp
  {
    if rbp == 0 then Bottom else On(s[rbp - 3], Frames(s, rbp - 3))
  }

  lemma {:induction false} ChainSame(s: seq<int>, t: seq<int>, rbp: nat)
    requires Chain(s, rbp) && rbp <= |s| && rbp <= |t| && forall i | 0 <= i < rbp :: s[i] == t[i]
    ensures Chain(t, rbp) && Frames(t, rbp) == Frames(s, rbp)
  {
    if rbp > 0 { ChainSame(s, t, rbp - 3); }
  }

  class Cpu {
    var rbx: int              // top of the data stack
    var r12: int              // instruction pointer
    var r13: nat              // next cell of the data stack, counted from the spare cell
    var rsp: nat              // cells pushed on the processor stack
    var rbp: nat              // current frame
    const data: array<int>
    const ret: array<int>
    var mem: Memory
    var here: int

    ghost predicate Valid()
      reads this, data, ret
    {
      && data != ret && r13 < data.Length
      && rsp == rbp <= ret.Length && Chain(ret[..], rbp)
    }

    ghost function Ds(): Stack
      reads this, data
      requires r13 < data.Length
    {
      StackOf(data[..], r13, rbx)
    }

    /** The machine state these registers represent. */
    ghost function Abs(): State
      reads this, data, ret
      requires Valid()
    {
      State(r12, Ds(), Frames(ret[..], rbp), mem, here)
    }

    method Push(v: int)
      requires r13 + 1 < data.Length
      modifies this`rbx, this`r13, data
      ensures r13 < data.Length && Ds() == On(v, old(Ds()))
      ensures r13 == old(r13) + 1
    {
      ghost var before := data[..];
      data[r13] := rbx;
      r13 := r13 + 1;
      rbx := v;
      if r13 > 1 { BelowSame(before, data[..], r13 - 2); }
    }

    method Pop() returns (rax: int)
      requires 1 <= r13 < data.Length
      modifies this`rbx, this`r13
      ensures r13 < data.Length && old(Ds()) == On(rax, Ds()) && r13 == old(r13) - 1
    {
      rax := rbx;
      r13 := r13 - 1;
      rbx := data[r13];
    }

    method PopTwo()
      requires 2 <= r13 < data.Length
      modifies this`rbx, this`r13
      ensures r13 < data.Length && old(Ds()) == On(old(rbx), On(old(data[r13 - 1]), Ds())) && r13 == old(r13) - 2
    {
      r13 := r13 - 2;
      rbx := data[r13];
      assert Below(data[..], r13 + 1) == On(data[r13 + 1], Below(data[..], r13));
      assert Below(data[..], r13) == StackOf(data[..], r13, rbx);
    }

    method SwapTop()
      requires 2 <= r13 < data.Length
      modifies this`rbx, data
      ensures Plain(Prim.Swap, old(Ds())) == Some(Ds())
    {
      ghost var before := data[..];
      var rax := data[r13 - 1];
      data[r13 - 1] := rbx;
      rbx := rax;
      BelowSame(before, data[..], r13 - 2);
    }

    method DupTwo()
      requires 2 <= r13 && r13 + 2 < data.Length
      modifies this`r13, data
      ensures r13 < data.Length && Plain(Prim.TwoDup, old(Ds())) == Some(Ds())
    {
      ghost var before := data[..];
      data[r13] := rbx;
      var rax := data[r13 - 1];
      data[r13 + 1] := rax;
      r13 := r13 + 2;
      BelowSame(before, data[..], r13 - 4);
      assert data[r13 - 1] == rax && data[r13 - 2] == rbx && data[r13 - 3] == rax;
      assert Below(data[..], r13 - 1) == On(rax, Below(data[..], r13 - 2));
      assert Below(data[..], r13 - 2) == On(rbx, Below(data[..], r13 - 3));
    }

    /** The words that only touch the data stack. */
    method PlainWord(p: Prim)
      requires IsPlain(p) && r13 + 2 < data.Length && Plain(p, Ds()).Some?
      modifies this`rbx, this`r13, data
      ensures r13 < data.Length && Plain(p, old(Ds())) == Some(Ds())
      ensures Gives(p, Contents(old(Ds())), Contents(Ds()))
    {
      PlainExact(p, Ds());
      match p
      case Dup => Push(rbx);
      case Swap => SwapTop();
      case TwoDup => DupTwo();
      case Drop => var _ := Pop();
      case TwoDrop => PopTwo();
      case Nip => r13 := r13 - 1;
      case Plus => r13 := r13 - 1; rbx := Wrap(rbx + data[r13]);
      case Minus => var rax := rbx; r13 := r13 - 1; rbx := Wrap(data[r13] - rax);
      case OnePlus => rbx := Wrap(rbx + 1);
      case True => Push(1);
      case False => Push(0);
      case ZeroEq => rbx := if rbx == 0 then 1 else 0;
      case QueryDup => if rbx != 0 { Push(rbx); }
    }

    /** docolon: push a frame and enter the body. */
    method DoColon1(rax: int)
      requires Valid() && rsp + 3 <= ret.Length
      modifies this`r12, this`rsp, this`rbp, ret
      ensures Valid() && Abs() == old(Abs()).(rs := On(old(r12), old(Abs()).rs), ip := rax + 8)
      ensures rsp == old(rsp) + 3 && ret[old(rsp) + 1] == rax + 1   // for stack traces only
    {
      ghost var before := ret[..];
      ret[rsp] := r12;
      ret[rsp + 1] := rax + 1;
      ret[rsp + 2] := rbp;
      rsp := rsp + 3;
      rbp := rsp;
      r12 := rax + CELL;
      ChainSame(before, ret[..], rbp - 3);
    }

    /** exit: unlink the frame and return. */
    method Exit1()
      requires Valid() && Abs().rs.On?
      modifies this`r12, this`rsp, this`rbp
      ensures Valid() && Abs() == old(Abs()).(ip := old(Abs()).rs.top, rs := old(Abs()).rs.below)
    {
      rsp := rbp;
      rbp := ret[rsp - 1];
      r12 := ret[rsp - 3];
      rsp := rsp - 3;
    }

    /** The words that read the code, use the return stack or write memory. */
    method OtherWord(p: Prim)
      requires Valid() && !IsPlain(p) && r13 + 2 < data.Length && Native1(Abs(), p).Next?
      modifies this, data
      ensures Valid() && Native1(old(Abs()), p) == Next(Abs())
    {
      match p
      case Lit =>
        Push(mem[r12].value);
        r12 := r12 + CELL;
      case Branch => r12 := mem[r12].value;
      case ZeroBranch =>
        var rax := Pop();
        if rax == 0 { r12 := mem[r12].value; } else { r12 := r12 + CELL; }
      case Exit => Exit1();
      case Here => Push(here);
      case Comma =>
        var rax := here;
        mem := mem[rax := Data(rbx)];
        here := rax + CELL;
        var _ := Pop();
      case Store =>
        mem := mem[rbx := Data(data[r13 - 1])];
        PopTwo();
    }

    /** NEXT and the code it jumps to: one step of the machine. */
    method RunNext()
      requires Valid() && r13 + 2 < data.Length && rsp + 3 <= ret.Length && Step(Abs()).Next?
      modifies this, data, ret
      ensures Valid() && Step(old(Abs())) == Next(Abs())
    {
      var rax := mem[r12].value;
      r12 := r12 + CELL;
      match mem[rax].code
      case DoColon => DoColon1(rax);
      case Native(p) =>
        if IsPlain(p) { PlainWord(p); } else { OtherWord(p); }
    }
  }
}
