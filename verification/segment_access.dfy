/** What the code of `push` and `pop` (07-vm-stack-arithmetic/code_writer.py)
    does on the Hack machine: which RAM word each segment index names, and
    that a push copies it to the top of the stack and a pop moves the top of
    the stack into it. */
module SegmentAccess {
  import opened Wrappers
  import opened Text
  import opened AsmLines
  import opened HackMachine
  import VmEmit
  import CallFrames

  /** The word `segment k` names under the VM's memory mapping, written out
      independently of the code writer's tables: the per-function segments
      are based at the word their pointer register holds, `pointer` at THIS
      (address 3) and `temp` at R5. */
  function SegmentAddress(m: Machine, segment: string, k: int): Option<int> {
    if segment == "local" then Some(Read(m, 1) + k)
    else if segment == "argument" then Some(Read(m, 2) + k)
    else if segment == "this" then Some(Read(m, 3) + k)
    else if segment == "that" then Some(Read(m, 4) + k)
    else if segment == "pointer" then Some(3 + k)
    else if segment == "temp" then Some(5 + k)
    else None
  }

  /** The code writer's two tables cover exactly the segments the mapping
      gives an address. */
  lemma VariableSegments(m: Machine, segment: string, k: int)
    ensures VmEmit.IsVariableSegment(segment) <==> SegmentAddress(m, segment, k).Some?
  {
  }

  /** `@index, D=A, @base, reg=M+D` or `reg=A+D`: `reg` := the base plus
      the index, where the base is the word at `base` (M) or `base` itself
      (A). */
  lemma BaseOffset(env: map<string, int>, reg: string, base: string, comp: string, index: string, m: Machine)
    returns (m': Machine)
    requires reg == "A" || reg == "D"
    requires (comp == "M+D" || comp == "A+D") && Register(base).Some? && IsDigits(index)
    ensures Straight(env, [At(index), Assign("D", "A"), At(base), Assign(reg, comp)], m) == Some(m')
    ensures var b := Register(base).value;
      var v := (if comp == "M+D" then Read(m, b) else b) + DigitsValue(index);
      && m'.pc == m.pc + 4 && m'.ram == m.ram && (if reg == "A" then m'.a else m'.d) == v
  {
    var k := DigitsValue(index);
    var b := Register(base).value;
    var v := (if comp == "M+D" then Read(m, b) else b) + k;
    var m1 := m.(pc := m.pc + 1, a := k);
    var m2 := m1.(pc := m.pc + 2, d := k);
    RegisterResolves(env, base);
    var m3 := m2.(pc := m.pc + 3, a := b);
    assert Compute(m3, comp) == Some(v);
    m' := if reg == "A" then m3.(pc := m.pc + 4, a := v) else m3.(pc := m.pc + 4, d := v);
    Trace(env, [At(index), Assign("D", "A"), At(base), Assign(reg, comp)], [m, m1, m2, m3, m']);
  }

  /** `_get_address(reg, segment, index)` leaves the address of
      `segment index` in `reg` and touches no memory. */
  lemma AddressOf(env: map<string, int>, reg: string, segment: string, index: string, m: Machine)
    returns (m': Machine)
    requires reg == "A" || reg == "D"
    requires VmEmit.IsVariableSegment(segment) && IsDigits(index)
    ensures Straight(env, VmEmit.GetAddress(reg, segment, index), m) == Some(m')
    ensures var addr := SegmentAddress(m, segment, DigitsValue(index));
      && addr.Some? && m'.pc == m.pc + 4 && m'.ram == m.ram
      && (if reg == "A" then m'.a else m'.d) == addr.value
  {
    if VmEmit.InstanceBase(segment).Some? {
      m' := BaseOffset(env, reg, VmEmit.InstanceBase(segment).value, "M+D", index, m);
    } else {
      m' := BaseOffset(env, reg, VmEmit.SharedBase(segment).value, "A+D", index, m);
    }
  }

  /** `push segment index`: the word it names is copied to the top of the
      stack, SP moves up by one, and no other word changes. */
  lemma PushVariable(env: map<string, int>, segment: string, index: string, m: Machine) returns (m': Machine)
    requires VmEmit.IsVariableSegment(segment) && IsDigits(index) && 16 <= Read(m, 0)
    ensures Straight(env, VmEmit.PushPopVariable("push", segment, index).value, m) == Some(m')
    ensures var sp, addr := Read(m, 0), SegmentAddress(m, segment, DigitsValue(index)).value;
      && Read(m', 0) == sp + 1 && Read(m', sp) == Read(m, addr)
      && (forall x :: x != 0 && x != sp ==> Read(m', x) == Read(m, x))
  {
    var sp := Read(m, 0);
    var m1 := AddressOf(env, "A", segment, index, m);
    var m2 := m1.(pc := m1.pc + 1, d := Read(m, m1.a));
    Trace(env, [Assign("D", "M")], [m1, m2]);
    CallFrames.PushEffect(env, "D", m2);
    m' := Machine(m2.pc + 4, sp, m2.d, Store(Store(m.ram, 0, sp + 1), sp, m2.d));
    Stored(m.ram, 0, sp + 1);
    Stored(Store(m.ram, 0, sp + 1), sp, m2.d);
    Then(env, VmEmit.GetAddress("A", segment, index), [Assign("D", "M")], m, m1, m2);
    Then(env, VmEmit.GetAddress("A", segment, index) + [Assign("D", "M")], VmEmit.PushFrom("D"), m, m2, m');
  }

  /** The first half of `pop segment index`: the address parked in R13. */
  lemma ParkAddress(env: map<string, int>, segment: string, index: string, m: Machine) returns (m2: Machine)
    requires VmEmit.IsVariableSegment(segment) && IsDigits(index)
    ensures Straight(env, VmEmit.GetAddress("D", segment, index) + [At("R13"), Assign("M", "D")], m) == Some(m2)
    ensures var addr := SegmentAddress(m, segment, DigitsValue(index)).value;
      && Read(m2, 13) == addr
      && (forall x :: x != 13 ==> Read(m2, x) == Read(m, x))
  {
    var m1 := AddressOf(env, "D", segment, index, m);
    RegisterResolves(env, "R13");
    var m1a := m1.(pc := m1.pc + 1, a := 13);
    m2 := Machine(m1.pc + 2, 13, m1.d, Store(m.ram, 13, m1.d));
    Trace(env, [At("R13"), Assign("M", "D")], [m1, m1a, m2]);
    Stored(m.ram, 13, m1.d);
    Then(env, VmEmit.GetAddress("D", segment, index), [At("R13"), Assign("M", "D")], m, m1, m2);
  }

  /** `@R13, A=M, M=D`: D stored at the address R13 holds. */
  lemma Through(env: map<string, int>, m: Machine)
    ensures var addr := Read(m, 13);
      Straight(env, [At("R13"), Assign("A", "M"), Assign("M", "D")], m)
      == Some(Machine(m.pc + 3, addr, m.d, Store(m.ram, addr, m.d)))
  {
    var addr := Read(m, 13);
    RegisterResolves(env, "R13");
    var m1 := m.(pc := m.pc + 1, a := 13);
    var m2 := m1.(pc := m.pc + 2, a := addr);
    Trace(env, [At("R13"), Assign("A", "M"), Assign("M", "D")], [m, m1, m2, Machine(m.pc + 3, addr, m.d, Store(m.ram, addr, m.d))]);
  }

  /** The second half: pop into D and store through R13. */
  lemma StoreThrough(env: map<string, int>, prefix: seq<Instr>, m: Machine, m2: Machine) returns (m': Machine)
    requires Straight(env, prefix, m) == Some(m2)
    requires 17 <= Read(m2, 0) && Read(m2, 13) != 0
    ensures Straight(env, prefix + VmEmit.PopTo("D") + [At("R13"), Assign("A", "M"), Assign("M", "D")], m) == Some(m')
    ensures var sp, addr := Read(m2, 0), Read(m2, 13);
      && Read(m', addr) == Read(m2, sp - 1)
      && (addr != 13 ==> Read(m', 13) == addr)
      && (addr != 0 ==> Read(m', 0) == sp - 1)
      && (forall x :: x != 0 && x != addr ==> Read(m', x) == Read(m2, x))
  {
    var sp, addr := Read(m2, 0), Read(m2, 13);
    CallFrames.PopEffect(env, m2);
    var m3 := Machine(m2.pc + 3, sp - 1, Read(m2, sp - 1), Store(m2.ram, 0, sp - 1));
    Stored(m2.ram, 0, sp - 1);
    Through(env, m3);
    m' := Machine(m3.pc + 3, addr, m3.d, Store(m3.ram, addr, m3.d));
    Stored(m3.ram, addr, m3.d);
    Then(env, prefix, VmEmit.PopTo("D"), m, m2, m3);
    Then(env, prefix + VmEmit.PopTo("D"), [At("R13"), Assign("A", "M"), Assign("M", "D")], m, m3, m');
  }

  /** `pop segment index`: the top of the stack is moved into the word the
      segment index names, SP moves down by one, R13 keeps the address, and
      no other word changes. */
  lemma PopVariable(env: map<string, int>, segment: string, index: string, m: Machine) returns (m': Machine)
    requires VmEmit.IsVariableSegment(segment) && IsDigits(index) && 17 <= Read(m, 0)
    requires var addr := SegmentAddress(m, segment, DigitsValue(index)).value; addr != 0 && addr != 13
    ensures Straight(env, VmEmit.PushPopVariable("pop", segment, index).value, m) == Some(m')
    ensures var sp, addr := Read(m, 0), SegmentAddress(m, segment, DigitsValue(index)).value;
      && Read(m', 0) == sp - 1 && Read(m', addr) == Read(m, sp - 1) && Read(m', 13) == addr
      && (forall x :: x != 0 && x != 13 && x != addr ==> Read(m', x) == Read(m, x))
  {
    VariableSegments(m, segment, DigitsValue(index));
    var m2 := ParkAddress(env, segment, index, m);
    m' := StoreThrough(env, VmEmit.GetAddress("D", segment, index) + [At("R13"), Assign("M", "D")], m, m2);
  }

  /** `push constant c`: the number itself goes on the stack. */
  lemma PushConstant(env: map<string, int>, c: string, m: Machine) returns (m': Machine)
    requires IsDigits(c) && 16 <= Read(m, 0)
    ensures Straight(env, VmEmit.PushConstant(c), m) == Some(m')
    ensures var sp := Read(m, 0);
      && Read(m', 0) == sp + 1 && Read(m', sp) == DigitsValue(c)
      && (forall x :: x != 0 && x != sp ==> Read(m', x) == Read(m, x))
  {
    var sp, k := Read(m, 0), DigitsValue(c);
    var m1 := m.(pc := m.pc + 1, a := k);
    var m2 := m1.(pc := m.pc + 2, d := k);
    Trace(env, [At(c), Assign("D", "A")], [m, m1, m2]);
    CallFrames.PushEffect(env, "D", m2);
    m' := Machine(m2.pc + 4, sp, k, Store(Store(m.ram, 0, sp + 1), sp, k));
    Stored(m.ram, 0, sp + 1);
    Stored(Store(m.ram, 0, sp + 1), sp, k);
    Then(env, [At(c), Assign("D", "A")], VmEmit.PushFrom("D"), m, m2, m');
  }

  /** A static variable's symbol is a label: it holds a dot, which neither
      a constant nor a register name does. */
  lemma StaticIsLabel(basename: string, name: string)
    ensures !IsDigits(VmEmit.StaticSymbol(basename, name)) && Register(VmEmit.StaticSymbol(basename, name)).None?
  {
    var sym := VmEmit.StaticSymbol(basename, name);
    assert sym[|basename|] == '.';
  }

  /** `push static i` of file `Xxx`: the word the assembler gives `Xxx.i`
      is copied to the top of the stack. */
  lemma PushStatic(env: map<string, int>, basename: string, name: string, m: Machine) returns (m': Machine)
    requires VmEmit.StaticSymbol(basename, name) in env && 16 <= Read(m, 0)
    ensures Straight(env, VmEmit.PushPopStatic("push", Some(basename), name).value, m) == Some(m')
    ensures var sp, addr := Read(m, 0), env[VmEmit.StaticSymbol(basename, name)];
      && Read(m', 0) == sp + 1 && Read(m', sp) == Read(m, addr)
      && (forall x :: x != 0 && x != sp ==> Read(m', x) == Read(m, x))
  {
    var sym := VmEmit.StaticSymbol(basename, name);
    var sp, addr := Read(m, 0), env[sym];
    StaticIsLabel(basename, name);
    var m1 := m.(pc := m.pc + 1, a := addr);
    var m2 := m1.(pc := m.pc + 2, d := Read(m, addr));
    Trace(env, [At(sym), Assign("D", "M")], [m, m1, m2]);
    CallFrames.PushEffect(env, "D", m2);
    m' := Machine(m2.pc + 4, sp, m2.d, Store(Store(m.ram, 0, sp + 1), sp, m2.d));
    Stored(m.ram, 0, sp + 1);
    Stored(Store(m.ram, 0, sp + 1), sp, m2.d);
    Then(env, [At(sym), Assign("D", "M")], VmEmit.PushFrom("D"), m, m2, m');
  }

  /** `pop static i` of file `Xxx`: the top of the stack moves into the
      word the assembler gives `Xxx.i`. */
  lemma PopStatic(env: map<string, int>, basename: string, name: string, m: Machine) returns (m': Machine)
    requires VmEmit.StaticSymbol(basename, name) in env && 17 <= Read(m, 0)
    requires env[VmEmit.StaticSymbol(basename, name)] != 0
    ensures Straight(env, VmEmit.PushPopStatic("pop", Some(basename), name).value, m) == Some(m')
    ensures var sp, addr := Read(m, 0), env[VmEmit.StaticSymbol(basename, name)];
      && Read(m', 0) == sp - 1 && Read(m', addr) == Read(m, sp - 1)
      && (forall x :: x != 0 && x != addr ==> Read(m', x) == Read(m, x))
  {
    var sym := VmEmit.StaticSymbol(basename, name);
    var sp, addr := Read(m, 0), env[sym];
    StaticIsLabel(basename, name);
    CallFrames.PopEffect(env, m);
    var m1 := Machine(m.pc + 3, sp - 1, Read(m, sp - 1), Store(m.ram, 0, sp - 1));
    Stored(m.ram, 0, sp - 1);
    var m2 := m1.(pc := m1.pc + 1, a := addr);
    m' := Machine(m1.pc + 2, addr, m1.d, Store(m1.ram, addr, m1.d));
    Trace(env, [At(sym), Assign("M", "D")], [m1, m2, m']);
    Stored(m1.ram, addr, m1.d);
    Then(env, VmEmit.PopTo("D"), [At(sym), Assign("M", "D")], m, m1, m');
  }
}
