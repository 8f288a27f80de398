/** What the parties of a transfer have in their registers afterwards, field by field, in each of the five modes. */
module KernelMessages {
  import opened Wrappers
  import opened KernelState
  import opened KernelInvariant
  import opened KernelEffects
  import opened KernelParties

  /** Caller `c` and listener `l` have been taken off their places to meet. */
  ghost predicate Facing(s: State, c: Tid, l: Tid) {
    && WellFormed(s) && s.current == None && c != l && FloatingIn(s.threads) == {c, l}
    && c in s.threads && l in s.threads && s.threads[l].caller == None
  }

  /** The caller blocks until the listener, which runs, responds. */
  predicate Flying(s: State, c: Tid, l: Tid) {
    && c in s.threads && s.threads[c].state == Calling
    && l in s.threads && s.threads[l].state == Running && s.threads[l].caller == Some(c) && s.current == Some(l)
  }

  predicate CanRun(s: State, t: Tid) { t in s.threads && (s.threads[t].state == Ready || s.threads[t].state == Running) }

  /** Both go on with an error: negative error numbers as results. */
  predicate Dropped(s: State, c: Tid, l: Tid, callerError: nat, listenerError: nat) {
    && CanRun(s, c) && s.threads[c].regs.rax == 0x1_0000_0000_0000_0000 - callerError
    && CanRun(s, l) && s.threads[l].regs.rax == 0x1_0000_0000_0000_0000 - listenerError
  }

  /** All but result, arguments 1 to 3 and the program counter: arguments 4 and 5 are the caller's, argument 0 its own. */
  predicate Extras(c0: Registers, l0: Registers, l1: Registers) { l1.rdi == l0.rdi && l1.r8 == c0.r8 && l1.r9 == c0.r9 }

  /** The listener at its callback, with its own result register. */
  predicate AtCallback(l0: Registers, l1: Registers) { l1.rip == l0.r8 && l1.rax == l0.rax }

  /** The same registers but for the result. */
  predicate ButResult(a: Registers, b: Registers) {
    b.rdi == a.rdi && b.rsi == a.rsi && b.rdx == a.rdx && b.r10 == a.r10 && b.r8 == a.r8 && b.r9 == a.r9 && b.rip == a.rip
  }

  lemma RegisterMessage(s: State, c: Tid, l: Tid, hardware: Fault, now: Word)
    requires Facing(s, c, l)
    ensures CallTransfer(s, c, l, 0, hardware, now).Ok?
    ensures var s' := CallTransfer(s, c, l, 0, hardware, now).value;
            Flying(s', c, l)
            && var c0, l0, c1, l1 := s.threads[c].regs, s.threads[l].regs, s'.threads[c].regs, s'.threads[l].regs;
               && c1 == c0 && AtCallback(l0, l1) && Extras(c0, l0, l1)
               && l1.rsi == c0.rsi && l1.rdx == c0.rdx && l1.r10 == c0.r10
  {
    TransferDoes(s, c, l, 0, hardware, now);
  }

  /** A read: the listener learns how much to read; the caller waits for a string. */
  lemma ReadMessage(s: State, c: Tid, l: Tid, hardware: Fault, now: Word)
    requires Facing(s, c, l)
    ensures CallTransfer(s, c, l, 3, hardware, now).Ok?
    ensures var s' := CallTransfer(s, c, l, 3, hardware, now).value;
            Flying(s', c, l)
            && var c0, l0, c1, l1 := s.threads[c].regs, s.threads[l].regs, s'.threads[c].regs, s'.threads[l].regs;
               && c1 == c0.(r10 := 2) && AtCallback(l0, l1) && Extras(c0, l0, l1)
               && l1.rsi == l0.rsi && l1.rdx == c0.rdx && l1.r10 == 0x102
  {
    TransferDoes(s, c, l, 3, hardware, now);
  }

  /** Copying `n` bytes from `from` to `to`: who faults, by the bounds of user memory or as the hardware says. */
  predicate Faulted(from: nat, to: nat, n: nat, hardware: Fault, reading: bool) {
    if n == 0 || from + n > 0x8000_0000_0000 then reading
    else if to + n > 0x8000_0000_0000 then !reading
    else hardware == if reading then ReadFault else WriteFault
  }

  /** How a copy ends for both, with `mode` for the listener and `callerMode` for the caller. */
  ghost predicate CopyEnds(s: State, s': State, c: Tid, l: Tid, n: nat, mode: Word, callerMode: Word, hardware: Fault) {
    && c in s.threads && l in s.threads && c in s'.threads && l in s'.threads
    && var c0, l0, c1, l1 := s.threads[c].regs, s.threads[l].regs, s'.threads[c].regs, s'.threads[l].regs;
       && l1.rsi == l0.rsi && l1.rdx == n && l1.r10 == mode && Extras(c0, l0, l1) && ButResult(c0.(r10 := callerMode), c1)
       && if Faulted(c0.rsi, l0.rsi, n, hardware, true) then Dropped(s', c, l, 9, 21) && l1.rip == l0.rip
          else if Faulted(c0.rsi, l0.rsi, n, hardware, false) then Dropped(s', c, l, 21, 9) && l1.rip == l0.rip
          else Flying(s', c, l) && c1.rax == c0.rax && AtCallback(l0, l1)
               && s'.log == s.log + [Copied(c, l, n, c0.rdx, l0.rdx), Delivered(c, l)]
  }

  /** A write: as much as both have room for, with the mode of a write; the caller waits for no string. */
  lemma WriteMessage(s: State, c: Tid, l: Tid, hardware: Fault, now: Word)
    requires Facing(s, c, l)
    ensures CallTransfer(s, c, l, 4, hardware, now).Ok?
    ensures var a, b := s.threads[c].regs.rdx, s.threads[l].regs.rdx;
            CopyEnds(s, CallTransfer(s, c, l, 4, hardware, now).value, c, l, if a < b then a else b, 0x205, 0, hardware)
  {
    TransferDoes(s, c, l, 4, hardware, now);
    CopyLogged(s, c, l, 4, hardware, now);
  }

  /** A string: refused exactly if it is longer than the listener's buffer and may not be cut; else the smaller length. */
  lemma StringMessage(s: State, c: Tid, l: Tid, mode: Word, hardware: Fault, now: Word)
    requires Facing(s, c, l) && (mode == 1 || mode == 2)
    ensures CallTransfer(s, c, l, mode, hardware, now).Ok?
    ensures var s' := CallTransfer(s, c, l, mode, hardware, now).value;
            var c0, l0 := s.threads[c].regs, s.threads[l].regs;
            if c0.rdx > l0.rdx && c0.r10 / 4 % 2 == 0 then
              Dropped(s', c, l, 19, 21) && ButResult(c0, s'.threads[c].regs) && ButResult(l0.(r8 := c0.r8, r9 := c0.r9), s'.threads[l].regs)
            else CopyEnds(s, s', c, l, if c0.rdx < l0.rdx then c0.rdx else l0.rdx, c0.r10, c0.r10, hardware)
  {
    TransferDoes(s, c, l, mode, hardware, now);
    CopyLogged(s, c, l, mode, hardware, now);
  }

  /** A copy that does not fault is logged before the delivery. */
  lemma CopyLogged(s: State, c: Tid, l: Tid, mode: Word, hardware: Fault, now: Word)
    requires Facing(s, c, l) && (mode == 1 || mode == 2 || mode == 4)
    ensures var c0, l0 := s.threads[c].regs, s.threads[l].regs;
            var n := Shorter(c0.rdx, l0.rdx);
            FaultOf(c0.rsi, l0.rsi, n, hardware) == NoFault && (mode == 4 || c0.rdx <= l0.rdx || c0.r10 / 4 % 2 == 1) ==>
              && CallTransfer(s, c, l, mode, hardware, now).Ok?
              && CallTransfer(s, c, l, mode, hardware, now).value.log == s.log + [Copied(c, l, n, c0.rdx, l0.rdx), Delivered(c, l)]
  {
    TransferDoes(s, c, l, mode, hardware, now);
    var cr, lr := s.threads[c].regs, s.threads[l].regs;
    match PlanTransfer(cr, lr, mode)
    case Copy(count, c', l') => FaultExact(c', l', count, hardware);
    case _ =>
  }
}
