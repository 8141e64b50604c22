/** The Hack CPU running the instructions a VM code writer emits: the meaning
    the writers' `call`, `function` and `return` code is written to have
    (08-vm-program-control/code_writer.py), independent of how it is spelled.

    A machine is a program counter, the A and D registers and the RAM: the
    initial contents (words not in the map read as 0) under a history of
    stores. Values are unbounded integers: the 16-bit
    wrap-around of the real ALU is not modelled. A symbol is a decimal
    constant, one of the predefined registers the frame code names, or a
    label looked up in `env`. A label declaration takes one (idle) step, and
    a label is bound to the index of its declaration; the lone `' '` line a
    `goto` is followed by is idle too (the assembler's reader skips it). */
module HackMachine {
  import opened Wrappers
  import opened Text
  import opened AsmLines
  import HackCode

  datatype Ram = Contents(words: map<int, int>) | Store(prev: Ram, addr: int, v: int)

  datatype Machine = Machine(pc: int, a: int, d: int, ram: Ram)

  /** The word at an address: the last value stored there. */
  function Get(ram: Ram, addr: int): int {
    match ram
    case Contents(words) => if addr in words then words[addr] else 0
    case Store(prev, at, v) => if addr == at then v else Get(prev, addr)
  }

  function Read(m: Machine, addr: int): int {
    Get(m.ram, addr)
  }

  /** A store changes the word at its address and no other. */
  lemma Stored(ram: Ram, addr: int, v: int)
    ensures forall x :: Get(Store(ram, addr, v), x) == if x == addr then v else Get(ram, x)
  {
  }

  /** The predefined registers the frame code names, at the addresses the
      assembler's symbol table gives them. */
  function Register(sym: string): Option<int> {
    if sym == "SP" then Some(0)
    else if sym == "LCL" then Some(1)
    else if sym == "ARG" then Some(2)
    else if sym == "THIS" then Some(3)
    else if sym == "THAT" then Some(4)
    else if sym == "R5" then Some(5)
    else if sym == "R13" then Some(13)
    else if sym == "R14" then Some(14)
    else None
  }

  /** The value an `@sym` loads into A; `None` for an unbound label. */
  function Resolve(env: map<string, int>, sym: string): Option<int> {
    if IsDigits(sym) then Some(DigitsValue(sym))
    else if Register(sym).Some? then Register(sym)
    else if sym in env then Some(env[sym])
    else None
  }

  /** A register name is not a constant, so `@R` loads its address. */
  lemma RegisterResolves(env: map<string, int>, sym: string)
    requires Register(sym).Some?
    ensures Resolve(env, sym) == Register(sym)
  {
    assert !IsDigit(sym[0]);
  }

  /** One ALU operand: a register, the memory word A addresses, or 0 / 1. */
  function Operand(m: Machine, c: char): Option<int> {
    if c == 'A' then Some(m.a)
    else if c == 'D' then Some(m.d)
    else if c == 'M' then Some(Read(m, m.a))
    else if c == '0' then Some(0)
    else if c == '1' then Some(1)
    else None
  }

  /** The arithmetic `comp` mnemonics — `x`, `-x`, `x+y`, `x-y` — with the
      operands in either order; the bitwise ones are not modelled. */
  function Compute(m: Machine, comp: string): Option<int> {
    if |comp| == 1 then Operand(m, comp[0])
    else if |comp| == 2 && comp[0] == '-' then
      var x :- Operand(m, comp[1]);
      Some(-x)
    else if |comp| == 3 && (comp[1] == '+' || comp[1] == '-') then
      var x :- Operand(m, comp[0]);
      var y :- Operand(m, comp[2]);
      Some(if comp[1] == '+' then x + y else x - y)
    else None
  }

  /** One instruction. An assignment computes from the old registers and
      stores to M at the old A; a jump goes to the address in A. */
  function Exec(env: map<string, int>, i: Instr, m: Machine): (r: Option<Machine>)
    ensures r.Some? && !i.Branch? ==> r.value.pc == m.pc + 1
  {
    match i
    case At(sym) =>
      var v :- Resolve(env, sym);
      Some(m.(pc := m.pc + 1, a := v))
    case Assign(dest, comp) =>
      var v :- Compute(m, comp);
      var ram := if 'M' in dest then Store(m.ram, m.a, v) else m.ram;
      Some(Machine(m.pc + 1, if 'A' in dest then v else m.a, if 'D' in dest then v else m.d, ram))
    case Branch(comp, jump) =>
      var v :- Compute(m, comp);
      Some(m.(pc := if HackCode.Jumps(Some(jump), v) then m.a else m.pc + 1))
    case Declare(_) => Some(m.(pc := m.pc + 1))
    case Space => Some(m.(pc := m.pc + 1))
  }

  /** A block executed instruction after instruction, whatever its jumps
      do to the program counter: the meaning of straight-line code. */
  function Straight(env: map<string, int>, block: seq<Instr>, m: Machine): Option<Machine> {
    StraightFrom(env, block, 0, m)
  }

  /** The rest of a block from its `i`-th instruction on. */
  function StraightFrom(env: map<string, int>, block: seq<Instr>, i: nat, m: Machine): Option<Machine>
    requires i <= |block|
    decreases |block| - i
  {
    if i == |block| then Some(m)
    else
      match Exec(env, block[i], m)
      case None => None
      case Some(m1) => StraightFrom(env, block, i + 1, m1)
  }

  /** `steps` instructions of `code` fetched at the program counter; the
      machine stops when the counter leaves the code. */
  function Run(env: map<string, int>, code: seq<Instr>, m: Machine, steps: nat): Option<Machine>
    decreases steps
  {
    if steps == 0 || !(0 <= m.pc < |code|) then Some(m)
    else
      match Exec(env, code[m.pc], m)
      case None => None
      case Some(m1) => Run(env, code, m1, steps - 1)
  }

  /** Running a block is running its parts in turn. */
  lemma StraightAppend(env: map<string, int>, a: seq<Instr>, b: seq<Instr>, m: Machine)
    ensures Straight(env, a + b, m)
         == match Straight(env, a, m) case None => None case Some(m1) => Straight(env, b, m1)
  {
    AppendFrom(env, a, b, 0, m);
  }

  lemma {:induction false} AppendFrom(env: map<string, int>, a: seq<Instr>, b: seq<Instr>, i: nat, m: Machine)
    requires i <= |a|
    ensures StraightFrom(env, a + b, i, m)
         == match StraightFrom(env, a, i, m) case None => None case Some(m1) => Straight(env, b, m1)
    decreases |a| - i
  {
    if i < |a| {
      assert (a + b)[i] == a[i];
      match Exec(env, a[i], m)
      case None =>
      case Some(m1) => AppendFrom(env, a, b, i + 1, m1);
    } else {
      SuffixFrom(env, a, b, 0, m);
    }
  }

  lemma {:induction false} SuffixFrom(env: map<string, int>, a: seq<Instr>, b: seq<Instr>, j: nat, m: Machine)
    requires j <= |b|
    ensures StraightFrom(env, a + b, |a| + j, m) == StraightFrom(env, b, j, m)
    decreases |b| - j
  {
    if j < |b| {
      assert (a + b)[|a| + j] == b[j];
      match Exec(env, b[j], m)
      case None =>
      case Some(m1) => SuffixFrom(env, a, b, j + 1, m1);
    }
  }

  /** So is running for a number of steps. */
  lemma {:induction false} RunAppend(env: map<string, int>, code: seq<Instr>, m: Machine, i: nat, j: nat)
    ensures Run(env, code, m, i + j)
         == match Run(env, code, m, i) case None => None case Some(m1) => Run(env, code, m1, j)
    decreases i
  {
    if i > 0 && 0 <= m.pc < |code| {
      match Exec(env, code[m.pc], m)
      case None =>
      case Some(m1) => RunAppend(env, code, m1, i - 1, j);
    } else if i > 0 {
      RunOutside(env, code, m, j);
      RunOutside(env, code, m, i + j);
    }
  }

  /** Two stretches of a run, one after the other. */
  lemma RunThen(env: map<string, int>, code: seq<Instr>, m: Machine, m1: Machine, m2: Machine, i: nat, j: nat)
    requires Run(env, code, m, i) == Some(m1) && Run(env, code, m1, j) == Some(m2)
    ensures Run(env, code, m, i + j) == Some(m2)
  {
    RunAppend(env, code, m, i, j);
  }

  lemma RunOutside(env: map<string, int>, code: seq<Instr>, m: Machine, steps: nat)
    requires !(0 <= m.pc < |code|)
    ensures Run(env, code, m, steps) == Some(m)
  {
  }

  /** Fetching a stretch of the code whose only jump, if any, is its last
      instruction runs it as straight-line code. */
  lemma RunStraight(env: map<string, int>, code: seq<Instr>, m: Machine, block: seq<Instr>)
    requires 0 <= m.pc && m.pc + |block| <= |code| && code[m.pc..m.pc + |block|] == block
    requires forall k :: 0 <= k < |block| - 1 ==> !block[k].Branch?
    ensures Run(env, code, m, |block|) == Straight(env, block, m)
  {
    RunFrom(env, code, m, block, 0);
  }

  lemma {:induction false} RunFrom(env: map<string, int>, code: seq<Instr>, m: Machine, block: seq<Instr>, i: nat)
    requires i <= |block| && 0 <= m.pc - i && m.pc - i + |block| <= |code|
    requires forall k :: 0 <= k < |block| ==> code[m.pc - i + k] == block[k]
    requires forall k :: i <= k < |block| - 1 ==> !block[k].Branch?
    ensures Run(env, code, m, |block| - i) == StraightFrom(env, block, i, m)
    decreases |block| - i
  {
    if i < |block| {
      assert code[m.pc] == block[i];
      match Exec(env, block[i], m)
      case None =>
      case Some(m1) =>
        if i + 1 < |block| {
          RunFrom(env, code, m1, block, i + 1);
        }
    }
  }

  /** Straight-line code run in two pieces. */
  lemma StraightThen(env: map<string, int>, a: seq<Instr>, b: seq<Instr>, m: Machine, m1: Machine)
    requires Straight(env, a, m) == Some(m1)
    ensures Straight(env, a + b, m) == Straight(env, b, m1)
  {
    StraightAppend(env, a, b, m);
  }

  /** A block run through the machines of a trace, one instruction a step. */
  lemma Trace(env: map<string, int>, block: seq<Instr>, ms: seq<Machine>)
    requires |ms| == |block| + 1
    requires forall k :: 0 <= k < |block| ==> Exec(env, block[k], ms[k]) == Some(ms[k + 1])
    ensures Straight(env, block, ms[0]) == Some(ms[|block|])
  {
    TraceFrom(env, block, ms, 0);
  }

  lemma {:induction false} TraceFrom(env: map<string, int>, block: seq<Instr>, ms: seq<Machine>, i: nat)
    requires |ms| == |block| + 1 && i <= |block|
    requires forall k :: i <= k < |block| ==> Exec(env, block[k], ms[k]) == Some(ms[k + 1])
    ensures StraightFrom(env, block, i, ms[i]) == Some(ms[|block|])
    decreases |block| - i
  {
    if i < |block| {
      TraceFrom(env, block, ms, i + 1);
    }
  }

  /** Two blocks run one after the other. */
  lemma Then(env: map<string, int>, a: seq<Instr>, b: seq<Instr>, m: Machine, m1: Machine, m2: Machine)
    requires Straight(env, a, m) == Some(m1) && Straight(env, b, m1) == Some(m2)
    ensures Straight(env, a + b, m) == Some(m2)
  {
    StraightAppend(env, a, b, m);
  }
}
