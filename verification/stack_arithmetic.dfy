/** What the code of the arithmetic and comparison commands and of `close`
    (07-vm-stack-arithmetic/code_writer.py, inherited unchanged by
    08-vm-program-control/code_writer.py) does on the Hack machine.

    Each lemma is about the instructions of the block the writer actually
    emits (`CodeOf` of `VmEmit.WriteCommand`'s lines), so it says what a
    written command means rather than what a hand-picked block means. The
    bitwise commands `and`, `or` and `not` use ALU operations the machine
    does not model. */
module StackArithmetic {
  import opened Wrappers
  import opened Text
  import opened AsmLines
  import opened HackMachine
  import HackCode
  import VmEmit
  import CallFrames
  import CommandSymbols

  /** Labels bound as the assembler's first pass binds them: each label a
      declaration in `code` names stands for that declaration's index. */
  predicate LabelsBound(env: map<string, int>, code: seq<Instr>) {
    forall k :: 0 <= k < |code| && code[k].Declare? ==> code[k].name in env && env[code[k].name] == k
  }

  /** The word the source's `_pop_from_stack_to('A')` leaves in A. */
  lemma PopToA(env: map<string, int>, m: Machine)
    requires Read(m, 0) != 1
    ensures var sp := Read(m, 0);
      Straight(env, VmEmit.PopTo("A"), m) == Some(Machine(m.pc + 3, Read(m, sp - 1), m.d, Store(m.ram, 0, sp - 1)))
  {
  }

  /** The operands of a binary command: y (the top) into D, x into A. */
  lemma TwoPops(env: map<string, int>, m: Machine) returns (m2: Machine)
    requires 3 <= Read(m, 0)
    ensures var sp := Read(m, 0);
      && Straight(env, VmEmit.PopTo("D") + VmEmit.PopTo("A"), m) == Some(m2)
      && m2 == Machine(m.pc + 6, Read(m, sp - 2), Read(m, sp - 1), Store(Store(m.ram, 0, sp - 1), 0, sp - 2))
  {
    var sp := Read(m, 0);
    CallFrames.PopEffect(env, m);
    var m1 := Machine(m.pc + 3, sp - 1, Read(m, sp - 1), Store(m.ram, 0, sp - 1));
    Stored(m.ram, 0, sp - 1);
    PopToA(env, m1);
    m2 := Machine(m.pc + 6, Read(m, sp - 2), Read(m, sp - 1), Store(Store(m.ram, 0, sp - 1), 0, sp - 2));
    Then(env, VmEmit.PopTo("D"), VmEmit.PopTo("A"), m, m1, m2);
  }

  /** `_push_boolean_to_stack(b)`: -1 for true, 0 for false. */
  lemma PushBooleanEffect(env: map<string, int>, b: bool, m: Machine)
    ensures var sp := Read(m, 0);
      Straight(env, VmEmit.PushBoolean(b), m)
      == Some(Machine(m.pc + 4, sp, m.d, Store(Store(m.ram, 0, sp + 1), sp, if b then -1 else 0)))
  {
    if b {
      var sp := Read(m, 0);
      var m1 := m.(pc := m.pc + 1, a := 0);
      var m2 := m1.(pc := m.pc + 2, ram := Store(m.ram, 0, sp + 1));
      var m3 := m2.(pc := m.pc + 3, a := sp);
      var m4 := m3.(pc := m.pc + 4, ram := Store(Store(m.ram, 0, sp + 1), sp, -1));
      RegisterResolves(env, "SP");
      assert Exec(env, Assign("M", "M+1"), m1) == Some(m2);
      assert Exec(env, Assign("A", "M-1"), m2) == Some(m3);
      assert Compute(m3, "-1") == Some(-1);
      Trace(env, VmEmit.PushBoolean(true), [m, m1, m2, m3, m4]);
    } else {
      CallFrames.PushEffect(env, "0", m);
    }
  }

  /** Two pops and a push: SP ends one lower, the result replaces x, and
      every other word is as before (the popped y stays above the stack). */
  lemma ResultReplacesOperands(ram: Ram, sp: int, v: int)
    requires sp != 2
    ensures var r := Store(Store(Store(Store(ram, 0, sp - 1), 0, sp - 2), 0, sp - 1), sp - 2, v);
      && Get(r, 0) == sp - 1 && Get(r, sp - 2) == v
      && forall x :: x != 0 && x != sp - 2 ==> Get(r, x) == Get(ram, x)
  {
    var r1 := Store(ram, 0, sp - 1);
    var r2 := Store(r1, 0, sp - 2);
    var r3 := Store(r2, 0, sp - 1);
    Stored(ram, 0, sp - 1);
    Stored(r1, 0, sp - 2);
    Stored(r2, 0, sp - 1);
    Stored(r3, sp - 2, v);
  }

  /** The instructions of the block `write_command` emits, by category. */
  function Body(cat: CommandSymbols.Category, symbol: string, labelCount: nat): seq<Instr> {
    match cat
    case BinaryCompute => VmEmit.BinaryCompute(symbol)
    case UnaryCompute => VmEmit.UnaryCompute(symbol)
    case BinaryLogic => VmEmit.BinaryLogic(symbol, labelCount + 1)
  }

  /** A classified mnemonic's block holds its category's code. */
  lemma WrittenAs(labelCount: nat, command: string, cat: CommandSymbols.Category, symbol: string)
    requires CommandSymbols.Classify(command) == Some(cat) && CommandSymbols.Symbol(cat, command) == Some(symbol)
    ensures VmEmit.WriteCommand(labelCount, command).Ok?
    ensures CodeOf(VmEmit.WriteCommand(labelCount, command).value.1) == Body(cat, symbol, labelCount)
  {
    CodeOfWrapped(command, Body(cat, symbol, labelCount));
  }

  /** The tables' entries for the commands the machine can run. */
  lemma Entries(command: string)
    ensures command == "add" ==>
      (CommandSymbols.Classify(command) == Some(CommandSymbols.BinaryCompute) && CommandSymbols.Symbol(CommandSymbols.BinaryCompute, command) == Some("+"))
    ensures command == "sub" ==>
      (CommandSymbols.Classify(command) == Some(CommandSymbols.BinaryCompute) && CommandSymbols.Symbol(CommandSymbols.BinaryCompute, command) == Some("-"))
    ensures command == "neg" ==>
      (CommandSymbols.Classify(command) == Some(CommandSymbols.UnaryCompute) && CommandSymbols.Symbol(CommandSymbols.UnaryCompute, command) == Some("-"))
    ensures command == "eq" ==>
      (CommandSymbols.Classify(command) == Some(CommandSymbols.BinaryLogic) && CommandSymbols.Symbol(CommandSymbols.BinaryLogic, command) == Some("JEQ"))
    ensures command == "gt" ==>
      (CommandSymbols.Classify(command) == Some(CommandSymbols.BinaryLogic) && CommandSymbols.Symbol(CommandSymbols.BinaryLogic, command) == Some("JGT"))
    ensures command == "lt" ==>
      (CommandSymbols.Classify(command) == Some(CommandSymbols.BinaryLogic) && CommandSymbols.Symbol(CommandSymbols.BinaryLogic, command) == Some("JLT"))
  {
    assert CommandSymbols.TypeCommands(CommandSymbols.BinaryCompute) == ["add", "sub", "and", "or"];
    assert CommandSymbols.TypeCommands(CommandSymbols.UnaryCompute) == ["not", "neg"];
    assert CommandSymbols.TypeCommands(CommandSymbols.BinaryLogic) == ["eq", "gt", "lt"];
  }

  /** `_write_binary_compute` with `+` or `-` on the machine. */
  lemma ComputeEffect(env: map<string, int>, symbol: string, m: Machine) returns (m': Machine)
    requires symbol == "+" || symbol == "-"
    requires 3 <= Read(m, 0)
    ensures var sp := Read(m, 0);
      var x, y := Read(m, sp - 2), Read(m, sp - 1);
      var v := if symbol == "+" then x + y else x - y;
      && Straight(env, VmEmit.BinaryCompute(symbol), m) == Some(m')
      && m'.ram == Store(Store(Store(Store(m.ram, 0, sp - 1), 0, sp - 2), 0, sp - 1), sp - 2, v)
  {
    var sp := Read(m, 0);
    var x, y := Read(m, sp - 2), Read(m, sp - 1);
    var v := if symbol == "+" then x + y else x - y;
    var pops := VmEmit.PopTo("D") + VmEmit.PopTo("A");
    var op := [Assign("D", "A" + symbol + "D")];
    var m2 := TwoPops(env, m);
    var m3 := m2.(pc := m2.pc + 1, d := v);
    assert Compute(m2, "A" + symbol + "D") == Some(v);
    Trace(env, op, [m2, m3]);
    Then(env, pops, op, m, m2, m3);
    CallFrames.PushEffect(env, "D", m3);
    m' := Machine(m3.pc + 4, sp - 2, v, Store(Store(m2.ram, 0, sp - 1), sp - 2, v));
    Then(env, pops + op, VmEmit.PushFrom("D"), m, m3, m');
    assert pops + op + VmEmit.PushFrom("D") == VmEmit.BinaryCompute(symbol);
  }

  /** `add` and `sub`: x and y are popped, and x + y or x - y is pushed in
      their place; SP goes down by one and nothing else changes. */
  lemma AddSub(env: map<string, int>, labelCount: nat, command: string, m: Machine) returns (m': Machine)
    requires command == "add" || command == "sub"
    requires 3 <= Read(m, 0)
    ensures VmEmit.WriteCommand(labelCount, command).Ok?
    ensures Straight(env, CodeOf(VmEmit.WriteCommand(labelCount, command).value.1), m) == Some(m')
    ensures var sp := Read(m, 0);
      var x, y := Read(m, sp - 2), Read(m, sp - 1);
      && Read(m', 0) == sp - 1
      && Read(m', sp - 2) == (if command == "add" then x + y else x - y)
      && (forall a :: a != 0 && a != sp - 2 ==> Read(m', a) == Read(m, a))
  {
    var symbol := if command == "add" then "+" else "-";
    Entries(command);
    WrittenAs(labelCount, command, CommandSymbols.BinaryCompute, symbol);
    m' := ComputeEffect(env, symbol, m);
    var sp := Read(m, 0);
    ResultReplacesOperands(m.ram, sp, if command == "add" then Read(m, sp - 2) + Read(m, sp - 1) else Read(m, sp - 2) - Read(m, sp - 1));
  }

  /** `_write_unary_compute('-')` on the machine. */
  lemma NegEffect(env: map<string, int>, m: Machine)
    requires 2 <= Read(m, 0)
    ensures var sp := Read(m, 0);
      Straight(env, VmEmit.UnaryCompute("-"), m)
      == Some(Machine(m.pc + 3, sp - 1, m.d, Store(m.ram, sp - 1, -Read(m, sp - 1))))
  {
    var sp := Read(m, 0);
    RegisterResolves(env, "SP");
    var m1 := m.(pc := m.pc + 1, a := 0);
    var m2 := m1.(pc := m.pc + 2, a := sp - 1);
    assert Compute(m2, "-M") == Some(-Read(m, sp - 1));
    Trace(env, VmEmit.UnaryCompute("-"), [m, m1, m2, Machine(m.pc + 3, sp - 1, m.d, Store(m.ram, sp - 1, -Read(m, sp - 1)))]);
  }

  /** `neg`: the top of the stack is negated in place; SP and every other
      word are unchanged. */
  lemma Neg(env: map<string, int>, labelCount: nat, m: Machine) returns (m': Machine)
    requires 2 <= Read(m, 0)
    ensures VmEmit.WriteCommand(labelCount, "neg").Ok?
    ensures Straight(env, CodeOf(VmEmit.WriteCommand(labelCount, "neg").value.1), m) == Some(m')
    ensures var sp := Read(m, 0);
      && Read(m', 0) == sp && Read(m', sp - 1) == -Read(m, sp - 1)
      && (forall a :: a != sp - 1 ==> Read(m', a) == Read(m, a))
  {
    Entries("neg");
    WrittenAs(labelCount, "neg", CommandSymbols.UnaryCompute, "-");
    var sp := Read(m, 0);
    NegEffect(env, m);
    m' := Machine(m.pc + 3, sp - 1, m.d, Store(m.ram, sp - 1, -Read(m, sp - 1)));
    Stored(m.ram, sp - 1, -Read(m, sp - 1));
  }

  /** The comparison labels are labels: neither a constant nor a register. */
  lemma ComparisonLabels(n: nat)
    ensures !IsDigits(VmEmit.ComparisonLabel(n) + "_TRUE") && Register(VmEmit.ComparisonLabel(n) + "_TRUE").None?
    ensures !IsDigits(VmEmit.ComparisonLabel(n) + "_FALSE") && Register(VmEmit.ComparisonLabel(n) + "_FALSE").None?
  {
    var t, f := VmEmit.ComparisonLabel(n) + "_TRUE", VmEmit.ComparisonLabel(n) + "_FALSE";
    assert t[0] == 'L' && |t| > 5;
    assert f[0] == 'L' && |f| > 5;
  }

  /** Whether comparison `command` holds between x and y, stated directly. */
  predicate Holds(command: string, x: int, y: int) {
    if command == "eq" then x == y else if command == "gt" then x > y else x < y
  }

  /** The jump condition `_write_binary_logic` is given for a comparison. */
  function JumpOf(command: string): string {
    if command == "eq" then "JEQ" else if command == "gt" then "JGT" else "JLT"
  }

  /** The VM's encoding of a truth value on the stack. */
  function Truth(b: bool): int {
    if b then -1 else 0
  }

  /** A stretch of a block laid out in the program from `base` on. */
  lemma Slice(code: seq<Instr>, base: nat, block: seq<Instr>, i: nat, j: nat)
    requires base + |block| <= |code| && code[base..base + |block|] == block && i <= j <= |block|
    ensures code[base + i..base + j] == block[i..j]
  {
    forall k | 0 <= k < j - i
      ensures code[base + i..base + j][k] == block[i..j][k]
    {
      assert block[i..j][k] == block[i + k] == code[base..base + |block|][i + k];
    }
  }

  /** A symbol `@` resolves through the label table: neither a constant
      nor a register name. */
  predicate IsLabel(sym: string) {
    !IsDigits(sym) && Register(sym).None?
  }

  /** The comparison's test: pop y and x, compute x - y, and branch to the
      true arm, labelled `t`, on the jump condition. */
  function TestCode(jump: string, t: string): seq<Instr> {
    VmEmit.PopTo("D") + VmEmit.PopTo("A") + [Assign("D", "A-D"), At(t), Branch("D", jump)]
  }

  /** The false arm: push 0 and jump to the meeting label `f`. */
  function FalseCode(f: string): seq<Instr> {
    VmEmit.PushBoolean(false) + [At(f), Branch("0", "JMP")]
  }

  /** The true arm, ending in the meeting label: push -1. */
  function TrueCode(t: string, f: string): seq<Instr> {
    [Declare(t)] + VmEmit.PushBoolean(true) + [Declare(f)]
  }

  /** A comparison block with true label `t` and meeting label `f`. */
  function Block(jump: string, t: string, f: string): seq<Instr> {
    TestCode(jump, t) + FalseCode(f) + TrueCode(t, f)
  }

  /** `_write_binary_logic` writes a comparison block with the counter's two
      labels. */
  lemma BlockOfCounter(jump: string, n: nat)
    ensures VmEmit.BinaryLogic(jump, n)
         == Block(jump, VmEmit.ComparisonLabel(n) + "_TRUE", VmEmit.ComparisonLabel(n) + "_FALSE")
  {
  }

  lemma BlockParts(jump: string, t: string, f: string)
    ensures var b := Block(jump, t, f);
      && |TestCode(jump, t)| == 9 && |FalseCode(f)| == 6 && |TrueCode(t, f)| == 6 && |b| == 21
      && b[..9] == TestCode(jump, t) && b[9..15] == FalseCode(f) && b[15..21] == TrueCode(t, f)
      && b[15] == Declare(t) && b[20] == Declare(f)
  {
    var b := Block(jump, t, f);
    assert b[..9] == TestCode(jump, t);
    assert b[9..15] == FalseCode(f);
    assert b[15..21] == TrueCode(t, f);
  }

  /** The test: pop y and x, and branch to the true arm iff the jump
      condition holds on x - y. */
  lemma ComparisonTest(env: map<string, int>, code: seq<Instr>, base: nat, jump: string, t: string, f: string, m: Machine)
    returns (m5: Machine, k: nat)
    requires base + 21 <= |code| && code[base..base + 21] == Block(jump, t, f)
    requires LabelsBound(env, code) && IsLabel(t) && m.pc == base && 3 <= Read(m, 0)
    ensures Run(env, code, m, k) == Some(m5) && k <= 9
    ensures m5.ram == Store(Store(m.ram, 0, Read(m, 0) - 1), 0, Read(m, 0) - 2)
    ensures m5.pc == (if HackCode.Jumps(Some(jump), Read(m, Read(m, 0) - 2) - Read(m, Read(m, 0) - 1)) then base + 15 else base + 9)
  {
    var sp := Read(m, 0);
    var x, y := Read(m, sp - 2), Read(m, sp - 1);
    var test := TestCode(jump, t);
    BlockParts(jump, t, f);
    assert code[base + 15] == Declare(t);
    var m2 := TwoPops(env, m);
    var m3 := m2.(pc := base + 7, d := x - y);
    var m4 := m3.(pc := base + 8, a := base + 15);
    m5 := m4.(pc := if HackCode.Jumps(Some(jump), x - y) then base + 15 else base + 9);
    Trace(env, [Assign("D", "A-D"), At(t), Branch("D", jump)], [m2, m3, m4, m5]);
    Then(env, VmEmit.PopTo("D") + VmEmit.PopTo("A"), [Assign("D", "A-D"), At(t), Branch("D", jump)], m, m2, m5);
    Slice(code, base, Block(jump, t, f), 0, 9);
    RunStraight(env, code, m, test);
    k := |test|;
  }

  /** The true arm as straight-line code. */
  lemma TrueArmStraight(env: map<string, int>, t: string, f: string, m5: Machine)
    ensures var sp := Read(m5, 0);
      Straight(env, TrueCode(t, f), m5)
      == Some(Machine(m5.pc + 6, sp, m5.d, Store(Store(m5.ram, 0, sp + 1), sp, -1)))
  {
    var sp := Read(m5, 0);
    var m6 := m5.(pc := m5.pc + 1);
    PushBooleanEffect(env, true, m6);
    var m10 := Machine(m5.pc + 5, sp, m5.d, Store(Store(m5.ram, 0, sp + 1), sp, -1));
    var m' := m10.(pc := m5.pc + 6);
    Trace(env, [Declare(t)], [m5, m6]);
    Then(env, [Declare(t)], VmEmit.PushBoolean(true), m5, m6, m10);
    Trace(env, [Declare(f)], [m10, m']);
    Then(env, [Declare(t)] + VmEmit.PushBoolean(true), [Declare(f)], m5, m10, m');
  }

  /** The true arm: push -1 and fall through the meeting label. */
  lemma TrueArm(env: map<string, int>, code: seq<Instr>, base: nat, jump: string, t: string, f: string, m5: Machine)
    returns (m': Machine)
    requires base + 21 <= |code| && code[base..base + 21] == Block(jump, t, f)
    requires m5.pc == base + 15
    ensures var sp := Read(m5, 0);
      && Run(env, code, m5, |TrueCode(t, f)|) == Some(m')
      && m'.pc == base + 21 && m'.ram == Store(Store(m5.ram, 0, sp + 1), sp, -1)
  {
    var sp := Read(m5, 0);
    BlockParts(jump, t, f);
    TrueArmStraight(env, t, f, m5);
    m' := Machine(base + 21, sp, m5.d, Store(Store(m5.ram, 0, sp + 1), sp, -1));
    Slice(code, base, Block(jump, t, f), 15, 21);
    RunStraight(env, code, m5, TrueCode(t, f));
  }

  /** The false arm: push 0 and jump to the meeting label. */
  lemma FalseArm(env: map<string, int>, code: seq<Instr>, base: nat, jump: string, t: string, f: string, m5: Machine)
    returns (m': Machine)
    requires base + 21 <= |code| && code[base..base + 21] == Block(jump, t, f)
    requires LabelsBound(env, code) && IsLabel(f) && m5.pc == base + 9
    ensures var sp := Read(m5, 0);
      && Run(env, code, m5, |FalseCode(f)| + 1) == Some(m')
      && m'.pc == base + 21 && m'.ram == Store(Store(m5.ram, 0, sp + 1), sp, 0)
  {
    var sp := Read(m5, 0);
    BlockParts(jump, t, f);
    assert code[base + 20] == Declare(f);
    PushBooleanEffect(env, false, m5);
    var m9 := Machine(base + 13, sp, m5.d, Store(Store(m5.ram, 0, sp + 1), sp, 0));
    var m10 := m9.(pc := base + 14, a := base + 20);
    var m11 := m10.(pc := base + 20);
    Trace(env, [At(f), Branch("0", "JMP")], [m9, m10, m11]);
    Then(env, VmEmit.PushBoolean(false), [At(f), Branch("0", "JMP")], m5, m9, m11);
    Slice(code, base, Block(jump, t, f), 9, 15);
    RunStraight(env, code, m5, FalseCode(f));
    m' := m11.(pc := base + 21);
    assert Run(env, code, m11, 1) == Some(m');
    RunThen(env, code, m5, m11, m', |FalseCode(f)|, 1);
  }

  /** The arm the test chose, entered with `sp - 2` in SP. */
  lemma Arm(env: map<string, int>, code: seq<Instr>, base: nat, jump: string, t: string, f: string, m5: Machine,
            holds: bool, sp: int)
    returns (m': Machine, k: nat)
    requires base + 21 <= |code| && code[base..base + 21] == Block(jump, t, f)
    requires LabelsBound(env, code) && IsLabel(f) && m5.pc == (if holds then base + 15 else base + 9)
    requires Read(m5, 0) == sp - 2
    ensures Run(env, code, m5, k) == Some(m') && k <= 7
    ensures m'.pc == base + 21 && m'.ram == Store(Store(m5.ram, 0, sp - 1), sp - 2, Truth(holds))
  {
    if holds {
      m' := TrueArm(env, code, base, jump, t, f, m5);
      k := |TrueCode(t, f)|;
    } else {
      m' := FalseArm(env, code, base, jump, t, f, m5);
      k := |FalseCode(f)| + 1;
    }
    BlockParts(jump, t, f);
  }

  lemma PoppedTwice(ram: Ram, sp: int)
    ensures Get(Store(Store(ram, 0, sp - 1), 0, sp - 2), 0) == sp - 2
  {
  }

  /** A comparison block run from its first instruction, as stores. */
  lemma CompareRun(env: map<string, int>, code: seq<Instr>, base: nat, jump: string, t: string, f: string,
                   m: Machine, holds: bool)
    returns (m': Machine, steps: nat)
    requires base + 21 <= |code| && code[base..base + 21] == Block(jump, t, f)
    requires LabelsBound(env, code) && IsLabel(t) && IsLabel(f) && m.pc == base && 3 <= Read(m, 0)
    requires holds == HackCode.Jumps(Some(jump), Read(m, Read(m, 0) - 2) - Read(m, Read(m, 0) - 1))
    ensures var sp := Read(m, 0);
      && Run(env, code, m, steps) == Some(m') && steps <= 16
      && m'.pc == base + 21
      && m'.ram == Store(Store(Store(Store(m.ram, 0, sp - 1), 0, sp - 2), 0, sp - 1), sp - 2, Truth(holds))
  {
    var sp := Read(m, 0);
    var m5, k1 := ComparisonTest(env, code, base, jump, t, f, m);
    PoppedTwice(m.ram, sp);
    var k2;
    m', k2 := Arm(env, code, base, jump, t, f, m5, holds, sp);
    steps := Joined(env, code, m, m5, m', k1, k2);
  }

  /** Two stretches of a run, with the total step count returned. */
  lemma Joined(env: map<string, int>, code: seq<Instr>, m: Machine, m1: Machine, m2: Machine, i: nat, j: nat) returns (k: nat)
    requires Run(env, code, m, i) == Some(m1) && Run(env, code, m1, j) == Some(m2)
    ensures k == i + j && Run(env, code, m, k) == Some(m2)
  {
    RunThen(env, code, m, m1, m2, i, j);
    k := i + j;
  }

  /** A comparison block with jump condition `jump`, run from its first
      instruction: -1 replaces x when the condition holds on x - y and 0
      when it does not. */
  lemma CompareEffect(env: map<string, int>, code: seq<Instr>, base: nat, jump: string, t: string, f: string,
                      m: Machine, holds: bool)
    returns (m': Machine, steps: nat)
    requires base + 21 <= |code| && code[base..base + 21] == Block(jump, t, f)
    requires LabelsBound(env, code) && IsLabel(t) && IsLabel(f) && m.pc == base && 3 <= Read(m, 0)
    requires holds == HackCode.Jumps(Some(jump), Read(m, Read(m, 0) - 2) - Read(m, Read(m, 0) - 1))
    ensures var sp := Read(m, 0);
      && Run(env, code, m, steps) == Some(m') && steps <= 16
      && m'.pc == base + 21
      && Read(m', 0) == sp - 1
      && Read(m', sp - 2) == Truth(holds)
      && (forall a :: a != 0 && a != sp - 2 ==> Read(m', a) == Read(m, a))
  {
    m', steps := CompareRun(env, code, base, jump, t, f, m, holds);
    ResultReplacesOperands(m.ram, Read(m, 0), Truth(holds));
  }

  /** The jump conditions of the three comparisons, stated directly. */
  lemma JumpMeaning(command: string, x: int, y: int)
    requires command == "eq" || command == "gt" || command == "lt"
    ensures HackCode.Jumps(Some(JumpOf(command)), x - y) == Holds(command, x, y)
  {
  }

  /** The block `write_command` emits for a comparison, with its labels. */
  lemma ComparisonBlock(labelCount: nat, command: string)
    requires command == "eq" || command == "gt" || command == "lt"
    ensures VmEmit.WriteCommand(labelCount, command).Ok?
    ensures var stem := VmEmit.ComparisonLabel(labelCount + 1);
      CodeOf(VmEmit.WriteCommand(labelCount, command).value.1) == Block(JumpOf(command), stem + "_TRUE", stem + "_FALSE")
    ensures var stem := VmEmit.ComparisonLabel(labelCount + 1);
      IsLabel(stem + "_TRUE") && IsLabel(stem + "_FALSE")
  {
    var jump := JumpOf(command);
    Entries(command);
    WrittenAs(labelCount, command, CommandSymbols.BinaryLogic, jump);
    BlockOfCounter(jump, labelCount + 1);
    ComparisonLabels(labelCount + 1);
  }

  /** `eq`, `gt` and `lt`, run from the first instruction of the block where
      it lies in the program: x and y are popped, -1 is pushed when the
      comparison holds between them and 0 when it does not, SP goes down by
      one, nothing else changes, and both arms leave the block at its end
      (the `LABELn_FALSE` meeting point) within 16 steps. */
  lemma Comparison(env: map<string, int>, code: seq<Instr>, base: nat, labelCount: nat, command: string, m: Machine)
    returns (m': Machine, steps: nat)
    requires command == "eq" || command == "gt" || command == "lt"
    requires VmEmit.WriteCommand(labelCount, command).Ok?
      && var block := CodeOf(VmEmit.WriteCommand(labelCount, command).value.1);
      base + |block| <= |code| && code[base..base + |block|] == block
    requires LabelsBound(env, code) && m.pc == base && 3 <= Read(m, 0)
    ensures var sp := Read(m, 0);
      var x, y := Read(m, sp - 2), Read(m, sp - 1);
      && Run(env, code, m, steps) == Some(m') && steps <= 16
      && m'.pc == base + |CodeOf(VmEmit.WriteCommand(labelCount, command).value.1)|
      && Read(m', 0) == sp - 1
      && Read(m', sp - 2) == Truth(Holds(command, x, y))
      && (forall a :: a != 0 && a != sp - 2 ==> Read(m', a) == Read(m, a))
  {
    ComparisonBlock(labelCount, command);
    var jump := JumpOf(command);
    var stem := VmEmit.ComparisonLabel(labelCount + 1);
    BlockParts(jump, stem + "_TRUE", stem + "_FALSE");
    JumpMeaning(command, Read(m, Read(m, 0) - 2), Read(m, Read(m, 0) - 1));
    m', steps := CompareEffect(env, code, base, jump, stem + "_TRUE", stem + "_FALSE", m,
                               Holds(command, Read(m, Read(m, 0) - 2), Read(m, Read(m, 0) - 1)));
  }

  /** One turn of `close`'s loop, from its `(END)` line back to it. */
  lemma EndRound(env: map<string, int>, code: seq<Instr>, base: nat, m: Machine)
    requires base + 3 <= |code| && code[base..base + 3] == VmEmit.Terminator()
    requires LabelsBound(env, code) && m.pc == base
    ensures Run(env, code, m, |VmEmit.Terminator()|) == Some(m.(a := base))
  {
    assert code[base] == Declare("END");
    assert !IsDigit("END"[0]);
    var m1 := m.(pc := base + 1);
    var m2 := m.(pc := base + 2, a := base);
    Trace(env, VmEmit.Terminator(), [m, m1, m2, m.(a := base)]);
    Slice(code, base, VmEmit.Terminator(), 0, 3);
    assert code[m.pc..m.pc + |VmEmit.Terminator()|] == VmEmit.Terminator();
    RunStraight(env, code, m, VmEmit.Terminator());
  }

  /** `close` never lets control leave its loop: started at its `(END)`
      line, the machine is back there after every whole number of turns,
      with D and every RAM word unchanged. */
  lemma {:induction false} EndLoops(env: map<string, int>, code: seq<Instr>, base: nat, m: Machine, turns: nat)
    requires var t := CodeOf(VmEmit.Close()); base + |t| <= |code| && code[base..base + |t|] == t
    requires LabelsBound(env, code) && m.pc == base && 1 <= turns
    ensures Run(env, code, m, |VmEmit.Terminator()| * turns) == Some(m.(a := base))
    decreases turns
  {
    EndRound(env, code, base, m);
    if turns > 1 {
      EndLoops(env, code, base, m.(a := base), turns - 1);
      RunThen(env, code, m, m.(a := base), m.(a := base), |VmEmit.Terminator()|, |VmEmit.Terminator()| * (turns - 1));
    }
  }
}
