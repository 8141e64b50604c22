/** What the code of `call`, `function` and `return`
    (08-vm-program-control/code_writer.py) does on the Hack machine: the
    calling convention of the VM, stated as the effect of the emitted
    instructions on the stack pointer, the four segment registers and the
    stack. */
module CallFrames {
  import opened Wrappers
  import opened Text
  import opened AsmLines
  import opened HackMachine
  import VmEmit
  import CodeWriter08

  /** `SP++`, then store `reg` (D or the constant 0) in the slot below. */
  lemma PushEffect(env: map<string, int>, reg: string, m: Machine)
    requires reg == "D" || reg == "0"
    ensures var sp := Read(m, 0);
      Straight(env, VmEmit.PushFrom(reg), m)
      == Some(Machine(m.pc + 4, sp, m.d, Store(Store(m.ram, 0, sp + 1), sp, if reg == "D" then m.d else 0)))
  {
    var sp := Read(m, 0);
    var v := if reg == "D" then m.d else 0;
    var m1 := m.(pc := m.pc + 1, a := 0);
    var m2 := m1.(pc := m.pc + 2, ram := Store(m.ram, 0, sp + 1));
    var m3 := m2.(pc := m.pc + 3, a := sp);
    var m4 := m3.(pc := m.pc + 4, ram := Store(Store(m.ram, 0, sp + 1), sp, v));
    RegisterResolves(env, "SP");
    assert Exec(env, Assign("M", "M+1"), m1) == Some(m2);
    assert Exec(env, Assign("A", "M-1"), m2) == Some(m3);
    assert Compute(m3, reg) == Some(v);
    Trace(env, VmEmit.PushFrom(reg), [m, m1, m2, m3, m4]);
  }

  /** `SP--`, then load the top of the stack into D. */
  lemma PopEffect(env: map<string, int>, m: Machine)
    requires Read(m, 0) != 1
    ensures var sp := Read(m, 0);
      Straight(env, VmEmit.PopTo("D"), m) == Some(Machine(m.pc + 3, sp - 1, Read(m, sp - 1), Store(m.ram, 0, sp - 1)))
  {
  }

  /** `@X, D=M`: load a register into D. */
  lemma LoadEffect(env: map<string, int>, reg: string, m: Machine)
    requires Register(reg).Some?
    ensures var r := Register(reg).value;
      Straight(env, [At(reg), Assign("D", "M")], m) == Some(m.(pc := m.pc + 2, a := r, d := Read(m, r)))
  {
    var r := Register(reg).value;
    var m1 := m.(pc := m.pc + 1, a := r);
    RegisterResolves(env, reg);
    Trace(env, [At(reg), Assign("D", "M")], [m, m1, m1.(pc := m.pc + 2, d := Read(m, r))]);
  }

  /** The registers a push sequence reads: the four segment pointers and
      the two scratch registers, all below the stack. */
  predicate Pushable(regs: seq<string>) {
    forall k :: 0 <= k < |regs| ==> Register(regs[k]).Some? && 1 <= Register(regs[k]).value <= 14
  }

  /** `m'` is `m` after pushing the registers' values in order: SP moved
      past them, the stack slots hold them, and no other word changed. */
  ghost predicate Pushed(m: Machine, m': Machine, regs: seq<string>)
    requires Pushable(regs)
  {
    var sp := Read(m, 0);
    && Read(m', 0) == sp + |regs|
    && (forall k :: 0 <= k < |regs| ==> Read(m', sp + k) == Read(m, Register(regs[k]).value))
    && (forall x :: x != 0 && !(sp <= x < sp + |regs|) ==> Read(m', x) == Read(m, x))
  }

  /** Pushing registers saves each one's value in the next stack slot, in
      order, and changes nothing else but SP. */
  lemma {:induction false} PushRegistersEffect(env: map<string, int>, regs: seq<string>, m: Machine)
    returns (m': Machine)
    requires Pushable(regs) && 16 <= Read(m, 0)
    ensures Straight(env, CodeWriter08.PushRegisters(regs), m) == Some(m')
    ensures m'.pc == m.pc + 6 * |regs| && Pushed(m, m', regs)
    decreases |regs|
  {
    if |regs| == 0 {
      m' := m;
    } else {
      var r := Register(regs[0]).value;
      var sp := Read(m, 0);
      var head := [At(regs[0]), Assign("D", "M")];
      var m1 := m.(pc := m.pc + 2, a := r, d := Read(m, r));
      var m2 := Machine(m.pc + 6, sp, Read(m, r), Store(Store(m.ram, 0, sp + 1), sp, Read(m, r)));
      assert Pushable(regs[1..]) by {
        assert forall k :: 0 <= k < |regs| - 1 ==> regs[1..][k] == regs[k + 1];
      }
      Stored(m.ram, 0, sp + 1);
      Stored(Store(m.ram, 0, sp + 1), sp, Read(m, r));
      m' := PushRegistersEffect(env, regs[1..], m2);
      LoadEffect(env, regs[0], m);
      PushEffect(env, "D", m1);
      assert CodeWriter08.PushRegisters(regs) == head + VmEmit.PushFrom("D") + CodeWriter08.PushRegisters(regs[1..]);
      Then(env, head, VmEmit.PushFrom("D"), m, m1, m2);
      Then(env, head + VmEmit.PushFrom("D"), CodeWriter08.PushRegisters(regs[1..]), m, m2, m');
      PushedStep(m, m2, m', regs);
    }
  }

  /** One register pushed, then the rest. */
  lemma PushedStep(m: Machine, m2: Machine, m': Machine, regs: seq<string>)
    requires |regs| > 0 && Pushable(regs) && 16 <= Read(m, 0)
    requires Read(m2, 0) == Read(m, 0) + 1 && Read(m2, Read(m, 0)) == Read(m, Register(regs[0]).value)
    requires forall x :: x != 0 && x != Read(m, 0) ==> Read(m2, x) == Read(m, x)
    requires Pushable(regs[1..]) && Pushed(m2, m', regs[1..])
    ensures Pushed(m, m', regs)
  {
    var sp := Read(m, 0);
    forall k | 0 <= k < |regs|
      ensures Read(m', sp + k) == Read(m, Register(regs[k]).value)
    {
      if k > 0 {
        assert regs[1..][k - 1] == regs[k];
      }
    }
  }

  /** A return label is a label: neither a constant nor a register. */
  lemma ReturnLabelIsLabel(f: string, n: nat)
    ensures !IsDigits(CodeWriter08.ReturnLabel(f, n)) && Register(CodeWriter08.ReturnLabel(f, n)).None?
  {
    var l := CodeWriter08.ReturnLabel(f, n);
    assert l[0] == 'R' && |l| >= 6;
  }

  /** `@label, D=A`: the label's address into A and D. */
  lemma AddressEffect(env: map<string, int>, sym: string, m: Machine)
    requires sym in env && !IsDigits(sym) && Register(sym).None?
    ensures Straight(env, [At(sym), Assign("D", "A")], m)
         == Some(m.(pc := m.pc + 2, a := env[sym], d := env[sym]))
  {
    var m1 := m.(pc := m.pc + 1, a := env[sym]);
    Trace(env, [At(sym), Assign("D", "A")], [m, m1, m1.(pc := m.pc + 2, d := env[sym])]);
  }

  /** `@n, D=A, @5, D=A+D`: D holds the argument count plus the five saved
      words. */
  lemma OffsetEffect(env: map<string, int>, numArgs: string, m: Machine)
    requires IsDigits(numArgs)
    ensures Straight(env, [At(numArgs), Assign("D", "A"), At("5"), Assign("D", "A+D")], m)
         == Some(m.(pc := m.pc + 4, a := 5, d := DigitsValue(numArgs) + 5))
  {
    var k := DigitsValue(numArgs);
    var m1 := m.(pc := m.pc + 1, a := k);
    var m2 := m1.(pc := m.pc + 2, d := k);
    var m3 := m2.(pc := m.pc + 3, a := 5);
    var m4 := m3.(pc := m.pc + 4, d := k + 5);
    assert IsDigits("5") && DigitsValue("5") == 5;
    Trace(env, [At(numArgs), Assign("D", "A"), At("5"), Assign("D", "A+D")], [m, m1, m2, m3, m4]);
  }

  /** `@SP, D=M-D, @ARG, M=D`: ARG points D words below the top. */
  lemma ArgEffect(env: map<string, int>, m: Machine)
    ensures var v := Read(m, 0) - m.d;
      Straight(env, [At("SP"), Assign("D", "M-D"), At("ARG"), Assign("M", "D")], m)
      == Some(Machine(m.pc + 4, 2, v, Store(m.ram, 2, v)))
  {
    var v := Read(m, 0) - m.d;
    var m1 := m.(pc := m.pc + 1, a := 0);
    var m2 := m1.(pc := m.pc + 2, d := v);
    var m3 := m2.(pc := m.pc + 3, a := 2);
    RegisterResolves(env, "SP");
    RegisterResolves(env, "ARG");
    Trace(env, [At("SP"), Assign("D", "M-D"), At("ARG"), Assign("M", "D")], [m, m1, m2, m3, Machine(m.pc + 4, 2, v, Store(m.ram, 2, v))]);
  }

  /** `@SP, D=M, @LCL, M=D`: LCL points at the top of the stack. */
  lemma LocalEffect(env: map<string, int>, m: Machine)
    ensures var sp := Read(m, 0);
      Straight(env, [At("SP"), Assign("D", "M"), At("LCL"), Assign("M", "D")], m)
      == Some(Machine(m.pc + 4, 1, sp, Store(m.ram, 1, sp)))
  {
    var sp := Read(m, 0);
    var m1 := m.(pc := m.pc + 1, a := 0);
    var m2 := m1.(pc := m.pc + 2, d := sp);
    var m3 := m2.(pc := m.pc + 3, a := 1);
    RegisterResolves(env, "SP");
    RegisterResolves(env, "LCL");
    Trace(env, [At("SP"), Assign("D", "M"), At("LCL"), Assign("M", "D")], [m, m1, m2, m3, Machine(m.pc + 4, 1, sp, Store(m.ram, 1, sp))]);
  }

  /** `@label, 0;JMP`: continue at the label. */
  lemma JumpEffect(env: map<string, int>, sym: string, m: Machine)
    requires sym in env && !IsDigits(sym) && Register(sym).None?
    ensures Straight(env, [At(sym), Branch("0", "JMP")], m) == Some(m.(pc := env[sym], a := env[sym]))
  {
    var m1 := m.(pc := m.pc + 1, a := env[sym]);
    Trace(env, [At(sym), Branch("0", "JMP")], [m, m1, m1.(pc := env[sym])]);
  }

  /** `m'` is `m` after the return address `ret` and the caller's LCL,
      ARG, THIS and THAT have been pushed, in that order: SP moved past the
      five words, and no other word changed. */
  ghost predicate Saved(m: Machine, m': Machine, ret: int) {
    var sp := Read(m, 0);
    && Read(m', sp) == ret
    && Read(m', sp + 1) == Read(m, 1) && Read(m', sp + 2) == Read(m, 2)
    && Read(m', sp + 3) == Read(m, 3) && Read(m', sp + 4) == Read(m, 4)
    && Read(m', 0) == sp + 5
    && (forall x :: x != 0 && !(sp <= x < sp + 5) ==> Read(m', x) == Read(m, x))
  }

  /** `m'` is `m` just after a call with `k` arguments has jumped into the
      callee: the frame is saved as above; ARG points at the first of the
      `k` arguments, below the saved words; LCL and SP point just past the
      saved words; nothing else changed. */
  ghost predicate Called(m: Machine, m': Machine, ret: int, k: int) {
    var sp := Read(m, 0);
    && Read(m', sp) == ret
    && Read(m', sp + 1) == Read(m, 1) && Read(m', sp + 2) == Read(m, 2)
    && Read(m', sp + 3) == Read(m, 3) && Read(m', sp + 4) == Read(m, 4)
    && Read(m', 0) == sp + 5 && Read(m', 1) == sp + 5 && Read(m', 2) == sp - k
    && Read(m', 3) == Read(m, 3) && Read(m', 4) == Read(m, 4)
    && (forall x :: !(0 <= x < 5) && !(sp <= x < sp + 5) ==> Read(m', x) == Read(m, x))
  }

  /** The registers saved in a frame: LCL, ARG, THIS and THAT, in the
      order of their addresses. */
  predicate FrameRegisters(regs: seq<string>) {
    |regs| == 4 && forall j :: 0 <= j < 4 ==> Register(regs[j]) == Some(j + 1)
  }

  /** The first half of `call`: push the return address and the caller's
      four registers. */
  lemma CallSaves(env: map<string, int>, ret: string, regs: seq<string>, m: Machine) returns (m3: Machine)
    requires ret in env && !IsDigits(ret) && Register(ret).None?
    requires FrameRegisters(regs) && 16 <= Read(m, 0)
    ensures Straight(env, [At(ret), Assign("D", "A")] + VmEmit.PushFrom("D") + CodeWriter08.PushRegisters(regs), m) == Some(m3)
    ensures Saved(m, m3, env[ret])
  {
    var b0 := [At(ret), Assign("D", "A")];
    AddressEffect(env, ret, m);
    var m1 := m.(pc := m.pc + 2, a := env[ret], d := env[ret]);
    PushEffect(env, "D", m1);
    var m2 := Machine(m1.pc + 4, Read(m1, 0), m1.d, Store(Store(m1.ram, 0, Read(m1, 0) + 1), Read(m1, 0), m1.d));
    m3 := PushRegistersEffect(env, regs, m2);
    Then(env, b0, VmEmit.PushFrom("D"), m, m1, m2);
    Then(env, b0 + VmEmit.PushFrom("D"), CodeWriter08.PushRegisters(regs), m, m2, m3);
    Stored(m.ram, 0, Read(m, 0) + 1);
    Stored(Store(m.ram, 0, Read(m, 0) + 1), Read(m, 0), env[ret]);
    SavedAlgebra(m, m2, m3, regs, env[ret]);
  }

  lemma SavedAlgebra(m: Machine, m2: Machine, m3: Machine, regs: seq<string>, ret: int)
    requires 16 <= Read(m, 0) && FrameRegisters(regs)
    requires Read(m2, 0) == Read(m, 0) + 1 && Read(m2, Read(m, 0)) == ret
    requires forall x :: x != 0 && x != Read(m, 0) ==> Read(m2, x) == Read(m, x)
    requires Pushable(regs) && Pushed(m2, m3, regs)
    ensures Saved(m, m3, ret)
  {
    var sp := Read(m, 0);
    assert Read(m3, sp) == Read(m2, sp) == ret;
    assert Read(m3, sp + 1) == Read(m2, Register(regs[0]).value);
    assert Read(m3, sp + 2) == Read(m2, Register(regs[1]).value);
    assert Read(m3, sp + 3) == Read(m2, Register(regs[2]).value);
    assert Read(m3, sp + 4) == Read(m2, Register(regs[3]).value);
  }

  /** The second half of `call`, after any code `prefix`: set ARG below the
      arguments and the saved words, set LCL to SP, and jump to `f`. */
  lemma CallRepositions(env: map<string, int>, prefix: seq<Instr>, numArgs: string, f: string, m: Machine, m3: Machine)
    returns (m7: Machine)
    requires Straight(env, prefix, m) == Some(m3)
    requires IsDigits(numArgs)
    requires f in env && !IsDigits(f) && Register(f).None?
    ensures Straight(env, prefix + [At(numArgs), Assign("D", "A"), At("5"), Assign("D", "A+D")]
                          + [At("SP"), Assign("D", "M-D"), At("ARG"), Assign("M", "D")]
                          + [At("SP"), Assign("D", "M"), At("LCL"), Assign("M", "D")]
                          + [At(f), Branch("0", "JMP")], m) == Some(m7)
    ensures m7.pc == env[f]
    ensures Read(m7, 1) == Read(m3, 0) && Read(m7, 2) == Read(m3, 0) - (DigitsValue(numArgs) + 5)
    ensures forall x :: x != 1 && x != 2 ==> Read(m7, x) == Read(m3, x)
  {
    var b3 := [At(numArgs), Assign("D", "A"), At("5"), Assign("D", "A+D")];
    var b4 := [At("SP"), Assign("D", "M-D"), At("ARG"), Assign("M", "D")];
    var b5 := [At("SP"), Assign("D", "M"), At("LCL"), Assign("M", "D")];
    var b6 := [At(f), Branch("0", "JMP")];
    OffsetEffect(env, numArgs, m3);
    var m4 := m3.(pc := m3.pc + 4, a := 5, d := DigitsValue(numArgs) + 5);
    ArgEffect(env, m4);
    var m5 := Machine(m4.pc + 4, 2, Read(m4, 0) - m4.d, Store(m4.ram, 2, Read(m4, 0) - m4.d));
    LocalEffect(env, m5);
    var m6 := Machine(m5.pc + 4, 1, Read(m5, 0), Store(m5.ram, 1, Read(m5, 0)));
    JumpEffect(env, f, m6);
    m7 := m6.(pc := env[f], a := env[f]);
    Then(env, prefix, b3, m, m3, m4);
    Then(env, prefix + b3, b4, m, m4, m5);
    Then(env, prefix + b3 + b4, b5, m, m5, m6);
    Then(env, prefix + b3 + b4 + b5, b6, m, m6, m7);
    Stored(m4.ram, 2, Read(m4, 0) - m4.d);
    Stored(m5.ram, 1, Read(m5, 0));
  }

  /** `call f k` as written: the caller's frame is saved and repositioned,
      and the machine continues at `f`. */
  lemma CallFrame(env: map<string, int>, f: string, numArgs: string, n: nat, m: Machine)
    requires IsDigits(numArgs)
    requires CodeWriter08.ReturnLabel(f, n) in env
    requires f in env && !IsDigits(f) && Register(f).None?
    requires 16 <= Read(m, 0)
    ensures Straight(env, CodeWriter08.CallCode(f, numArgs, n), m).Some?
    ensures var m' := Straight(env, CodeWriter08.CallCode(f, numArgs, n), m).value;
      m'.pc == env[f] && Called(m, m', env[CodeWriter08.ReturnLabel(f, n)], DigitsValue(numArgs))
  {
    var ret := CodeWriter08.ReturnLabel(f, n);
    ReturnLabelIsLabel(f, n);
    assert FrameRegisters(CodeWriter08.SavedRegisters());
    var m3 := CallSaves(env, ret, CodeWriter08.SavedRegisters(), m);
    var prefix := [At(ret), Assign("D", "A")] + VmEmit.PushFrom("D")
                  + CodeWriter08.PushRegisters(CodeWriter08.SavedRegisters());
    var m7 := CallRepositions(env, prefix, numArgs, f, m, m3);
  }

  /** `@5, D=A, @LCL, A=M-D, D=M, @R14, M=D`: the return address, five
      words below the frame, parked in R14. */
  lemma ParkEffect(env: map<string, int>, m: Machine)
    ensures var v := Read(m, Read(m, 1) - 5);
      Straight(env, [At("5"), Assign("D", "A"), At("LCL"), Assign("A", "M-D"), Assign("D", "M"), At("R14"), Assign("M", "D")], m)
      == Some(Machine(m.pc + 7, 14, v, Store(m.ram, 14, v)))
  {
    var frame := Read(m, 1);
    var v := Read(m, frame - 5);
    var m1 := m.(pc := m.pc + 1, a := 5);
    var m2 := m1.(pc := m.pc + 2, d := 5);
    var m3 := m2.(pc := m.pc + 3, a := 1);
    var m4 := m3.(pc := m.pc + 4, a := frame - 5);
    var m5 := m4.(pc := m.pc + 5, d := v);
    var m6 := m5.(pc := m.pc + 6, a := 14);
    assert IsDigits("5") && DigitsValue("5") == 5;
    RegisterResolves(env, "LCL");
    RegisterResolves(env, "R14");
    Trace(env, [At("5"), Assign("D", "A"), At("LCL"), Assign("A", "M-D"), Assign("D", "M"), At("R14"), Assign("M", "D")],
          [m, m1, m2, m3, m4, m5, m6, Machine(m.pc + 7, 14, v, Store(m.ram, 14, v))]);
  }

  /** `@ARG, A=M, M=D`: D stored where ARG points. */
  lemma ResultEffect(env: map<string, int>, m: Machine)
    ensures Straight(env, [At("ARG"), Assign("A", "M"), Assign("M", "D")], m)
         == Some(Machine(m.pc + 3, Read(m, 2), m.d, Store(m.ram, Read(m, 2), m.d)))
  {
    var m1 := m.(pc := m.pc + 1, a := 2);
    var m2 := m1.(pc := m.pc + 2, a := Read(m, 2));
    RegisterResolves(env, "ARG");
    Trace(env, [At("ARG"), Assign("A", "M"), Assign("M", "D")], [m, m1, m2, Machine(m.pc + 3, Read(m, 2), m.d, Store(m.ram, Read(m, 2), m.d))]);
  }

  /** `@ARG, D=M+1, @SP, M=D`: SP just past ARG[0]. */
  lemma ShrinkEffect(env: map<string, int>, m: Machine)
    ensures var v := Read(m, 2) + 1;
      Straight(env, [At("ARG"), Assign("D", "M+1"), At("SP"), Assign("M", "D")], m)
      == Some(Machine(m.pc + 4, 0, v, Store(m.ram, 0, v)))
  {
    var v := Read(m, 2) + 1;
    var m1 := m.(pc := m.pc + 1, a := 2);
    var m2 := m1.(pc := m.pc + 2, d := v);
    var m3 := m2.(pc := m.pc + 3, a := 0);
    RegisterResolves(env, "ARG");
    RegisterResolves(env, "SP");
    Trace(env, [At("ARG"), Assign("D", "M+1"), At("SP"), Assign("M", "D")], [m, m1, m2, m3, Machine(m.pc + 4, 0, v, Store(m.ram, 0, v))]);
  }

  /** `@LCL, D=M, @R13, M=D`: the frame pointer copied to R13. */
  lemma FrameEffect(env: map<string, int>, m: Machine)
    ensures var v := Read(m, 1);
      Straight(env, [At("LCL"), Assign("D", "M"), At("R13"), Assign("M", "D")], m)
      == Some(Machine(m.pc + 4, 13, v, Store(m.ram, 13, v)))
  {
    var v := Read(m, 1);
    var m1 := m.(pc := m.pc + 1, a := 1);
    var m2 := m1.(pc := m.pc + 2, d := v);
    var m3 := m2.(pc := m.pc + 3, a := 13);
    RegisterResolves(env, "LCL");
    RegisterResolves(env, "R13");
    Trace(env, [At("LCL"), Assign("D", "M"), At("R13"), Assign("M", "D")], [m, m1, m2, m3, Machine(m.pc + 4, 13, v, Store(m.ram, 13, v))]);
  }

  /** `@R13, AM=M-1, D=M, @X, M=D`: step R13 down and copy the word it now
      points at into register X. */
  lemma RestoreOneEffect(env: map<string, int>, reg: string, m: Machine)
    requires Register(reg).Some? && Read(m, 13) != 14
    ensures var p := Read(m, 13) - 1; var v := Read(m, p);
      Straight(env, [At("R13"), Assign("AM", "M-1"), Assign("D", "M"), At(reg), Assign("M", "D")], m)
      == Some(Machine(m.pc + 5, Register(reg).value, v, Store(Store(m.ram, 13, p), Register(reg).value, v)))
  {
    var p := Read(m, 13) - 1;
    var v := Read(m, p);
    var r := Register(reg).value;
    var m1 := m.(pc := m.pc + 1, a := 13);
    var m2 := Machine(m.pc + 2, p, m.d, Store(m.ram, 13, p));
    var m3 := m2.(pc := m.pc + 3, d := v);
    var m4 := m3.(pc := m.pc + 4, a := r);
    RegisterResolves(env, "R13");
    RegisterResolves(env, reg);
    Trace(env, [At("R13"), Assign("AM", "M-1"), Assign("D", "M"), At(reg), Assign("M", "D")],
          [m, m1, m2, m3, m4, Machine(m.pc + 5, r, v, Store(Store(m.ram, 13, p), r, v))]);
  }

  /** `@R14, A=M, 0;JMP`: continue at the address parked in R14. */
  lemma ReturnJumpEffect(env: map<string, int>, m: Machine)
    ensures Straight(env, [At("R14"), Assign("A", "M"), Branch("0", "JMP")], m)
         == Some(m.(pc := Read(m, 14), a := Read(m, 14)))
  {
    var m1 := m.(pc := m.pc + 1, a := 14);
    var m2 := m1.(pc := m.pc + 2, a := Read(m, 14));
    RegisterResolves(env, "R14");
    Trace(env, [At("R14"), Assign("A", "M"), Branch("0", "JMP")], [m, m1, m2, m2.(pc := Read(m, 14))]);
  }

  /** `m'` is `m` after `n` registers, from address `top` downwards, were
      loaded from the `n` words below the one R13 pointed at: R13 moved down
      past them, and no other word changed. */
  ghost predicate Restored(m: Machine, m': Machine, top: int, n: int) {
    var p := Read(m, 13);
    && Read(m', 13) == p - n
    && (forall x :: top - n < x <= top ==> Read(m', x) == Read(m, p - 1 - (top - x)))
    && (forall x :: x != 13 && !(top - n < x <= top) ==> Read(m', x) == Read(m, x))
  }

  /** Restoring registers walks R13 down the frame, one word per register. */
  lemma {:induction false} RestoreRegistersEffect(env: map<string, int>, regs: seq<string>, top: int, m: Machine)
    returns (m': Machine)
    requires forall k :: 0 <= k < |regs| ==> Register(regs[k]) == Some(top - k)
    requires top <= 4 && 16 + |regs| <= Read(m, 13)
    ensures Straight(env, CodeWriter08.RestoreRegisters(regs), m) == Some(m')
    ensures m'.pc == m.pc + 5 * |regs| && Restored(m, m', top, |regs|)
    decreases |regs|
  {
    if |regs| == 0 {
      m' := m;
    } else {
      var p := Read(m, 13);
      var v := Read(m, p - 1);
      var one := [At("R13"), Assign("AM", "M-1"), Assign("D", "M"), At(regs[0]), Assign("M", "D")];
      var m1 := Machine(m.pc + 5, top, v, Store(Store(m.ram, 13, p - 1), top, v));
      RestoreOneEffect(env, regs[0], m);
      Stored(m.ram, 13, p - 1);
      Stored(Store(m.ram, 13, p - 1), top, v);
      assert forall k :: 0 <= k < |regs| - 1 ==> regs[1..][k] == regs[k + 1];
      m' := RestoreRegistersEffect(env, regs[1..], top - 1, m1);
      assert CodeWriter08.RestoreRegisters(regs) == one + CodeWriter08.RestoreRegisters(regs[1..]);
      Then(env, one, CodeWriter08.RestoreRegisters(regs[1..]), m, m1, m');
      RestoredStep(m, m1, m', top, |regs|);
    }
  }

  /** One register restored, then the rest. */
  lemma RestoredStep(m: Machine, m1: Machine, m': Machine, top: int, n: int)
    requires n > 0 && top <= 4 && 16 + n <= Read(m, 13)
    requires Read(m1, 13) == Read(m, 13) - 1 && Read(m1, top) == Read(m, Read(m, 13) - 1)
    requires forall x :: x != 13 && x != top ==> Read(m1, x) == Read(m, x)
    requires Restored(m1, m', top - 1, n - 1)
    ensures Restored(m, m', top, n)
  {
    assert Read(m', top) == Read(m1, top);
  }

  /** The start of `return`: park the return address in R14 and pop the
      top of the stack into D. */
  lemma ReturnParks(env: map<string, int>, m: Machine) returns (m2: Machine)
    requires 16 <= Read(m, 1) && 17 <= Read(m, 0)
    ensures Straight(env, [At("5"), Assign("D", "A"), At("LCL"), Assign("A", "M-D"), Assign("D", "M"), At("R14"), Assign("M", "D")]
                          + VmEmit.PopTo("D"), m) == Some(m2)
    ensures Read(m2, 14) == Read(m, Read(m, 1) - 5)
    ensures Read(m2, 0) == Read(m, 0) - 1 && m2.d == Read(m, Read(m, 0) - 1)
    ensures forall x :: x != 0 && x != 14 ==> Read(m2, x) == Read(m, x)
  {
    var b0 := [At("5"), Assign("D", "A"), At("LCL"), Assign("A", "M-D"), Assign("D", "M"), At("R14"), Assign("M", "D")];
    ParkEffect(env, m);
    var v := Read(m, Read(m, 1) - 5);
    var m1 := Machine(m.pc + 7, 14, v, Store(m.ram, 14, v));
    Stored(m.ram, 14, v);
    PopEffect(env, m1);
    m2 := Machine(m1.pc + 3, Read(m1, 0) - 1, Read(m1, Read(m1, 0) - 1), Store(m1.ram, 0, Read(m1, 0) - 1));
    Stored(m1.ram, 0, Read(m1, 0) - 1);
    Then(env, b0, VmEmit.PopTo("D"), m, m1, m2);
  }

  /** The middle of `return`, after any `prefix`: D goes to ARG[0], SP to
      just past it, and R13 to the frame. */
  lemma ReturnMoves(env: map<string, int>, prefix: seq<Instr>, m: Machine, m2: Machine) returns (m5: Machine)
    requires Straight(env, prefix, m) == Some(m2)
    requires 16 <= Read(m2, 2)
    ensures Straight(env, prefix + [At("ARG"), Assign("A", "M"), Assign("M", "D")]
                          + [At("ARG"), Assign("D", "M+1"), At("SP"), Assign("M", "D")]
                          + [At("LCL"), Assign("D", "M"), At("R13"), Assign("M", "D")], m) == Some(m5)
    ensures Read(m5, 13) == Read(m2, 1) && Read(m5, 0) == Read(m2, 2) + 1 && Read(m5, Read(m2, 2)) == m2.d
    ensures forall x :: x != 0 && x != 13 && x != Read(m2, 2) ==> Read(m5, x) == Read(m2, x)
  {
    var b2 := [At("ARG"), Assign("A", "M"), Assign("M", "D")];
    var b3 := [At("ARG"), Assign("D", "M+1"), At("SP"), Assign("M", "D")];
    var b4 := [At("LCL"), Assign("D", "M"), At("R13"), Assign("M", "D")];
    ResultEffect(env, m2);
    var m3 := Machine(m2.pc + 3, Read(m2, 2), m2.d, Store(m2.ram, Read(m2, 2), m2.d));
    Stored(m2.ram, Read(m2, 2), m2.d);
    ShrinkEffect(env, m3);
    var m4 := Machine(m3.pc + 4, 0, Read(m3, 2) + 1, Store(m3.ram, 0, Read(m3, 2) + 1));
    Stored(m3.ram, 0, Read(m3, 2) + 1);
    FrameEffect(env, m4);
    m5 := Machine(m4.pc + 4, 13, Read(m4, 1), Store(m4.ram, 13, Read(m4, 1)));
    Stored(m4.ram, 13, Read(m4, 1));
    Then(env, prefix, b2, m, m2, m3);
    Then(env, prefix + b2, b3, m, m3, m4);
    Then(env, prefix + b2 + b3, b4, m, m4, m5);
  }

  /** `m'` is `m` after a `return`: the machine continues at the return
      address saved five words below the frame; the value on top of the
      stack is now ARG[0] and SP points just past it; LCL, ARG, THIS and
      THAT are the four words below the frame; besides these and the
      scratch registers R13 and R14, no word changed. */
  ghost predicate Returned(m: Machine, m': Machine) {
    var sp, frame, arg := Read(m, 0), Read(m, 1), Read(m, 2);
    && m'.pc == Read(m, frame - 5)
    && Read(m', 0) == arg + 1 && Read(m', arg) == Read(m, sp - 1)
    && Read(m', 1) == Read(m, frame - 4) && Read(m', 2) == Read(m, frame - 3)
    && Read(m', 3) == Read(m, frame - 2) && Read(m', 4) == Read(m, frame - 1)
    && (forall x :: !(0 <= x < 5) && x != 13 && x != 14 && x != arg ==> Read(m', x) == Read(m, x))
  }

  /** `return` as written, for a frame above its arguments: the return
      address is read before ARG[0] is overwritten (with no arguments the
      two are the same word), and the registers are restored in the reverse
      of the order a call saves them. */
  lemma ReturnFrame(env: map<string, int>, m: Machine)
    requires 16 <= Read(m, 2) && Read(m, 2) + 5 <= Read(m, 1) && 17 <= Read(m, 0)
    ensures Straight(env, CodeWriter08.ReturnCode(), m).Some?
    ensures Returned(m, Straight(env, CodeWriter08.ReturnCode(), m).value)
  {
    var regs := CodeWriter08.RestoredRegisters();
    assert forall k :: 0 <= k < |regs| ==> Register(regs[k]) == Some(4 - k);
    var m2 := ReturnParks(env, m);
    var prefix := [At("5"), Assign("D", "A"), At("LCL"), Assign("A", "M-D"), Assign("D", "M"), At("R14"), Assign("M", "D")]
      + VmEmit.PopTo("D");
    var m5 := ReturnMoves(env, prefix, m, m2);
    var prefix' := prefix + [At("ARG"), Assign("A", "M"), Assign("M", "D")]
      + [At("ARG"), Assign("D", "M+1"), At("SP"), Assign("M", "D")]
      + [At("LCL"), Assign("D", "M"), At("R13"), Assign("M", "D")];
    var m6 := RestoreRegistersEffect(env, regs, 4, m5);
    ReturnJumpEffect(env, m6);
    var m7 := m6.(pc := Read(m6, 14), a := Read(m6, 14));
    Then(env, prefix', CodeWriter08.RestoreRegisters(regs), m, m5, m6);
    Then(env, prefix' + CodeWriter08.RestoreRegisters(regs), [At("R14"), Assign("A", "M"), Branch("0", "JMP")], m, m6, m7);
    ReturnAlgebra(m, m2, m5, m6, m7);
  }

  lemma ReturnAlgebra(m: Machine, m2: Machine, m5: Machine, m6: Machine, m7: Machine)
    requires 16 <= Read(m, 2) && Read(m, 2) + 5 <= Read(m, 1) && 17 <= Read(m, 0)
    requires Read(m2, 14) == Read(m, Read(m, 1) - 5)
    requires Read(m2, 0) == Read(m, 0) - 1 && m2.d == Read(m, Read(m, 0) - 1)
    requires forall x :: x != 0 && x != 14 ==> Read(m2, x) == Read(m, x)
    requires Read(m5, 13) == Read(m2, 1) && Read(m5, 0) == Read(m2, 2) + 1 && Read(m5, Read(m2, 2)) == m2.d
    requires forall x :: x != 0 && x != 13 && x != Read(m2, 2) ==> Read(m5, x) == Read(m2, x)
    requires Restored(m5, m6, 4, 4)
    requires m7.pc == Read(m6, 14) && m7.ram == m6.ram
    ensures Returned(m, m7)
  {
    var frame := Read(m, 1);
    assert Read(m6, 1) == Read(m5, frame - 4);
    assert Read(m6, 2) == Read(m5, frame - 3);
    assert Read(m6, 3) == Read(m5, frame - 2);
    assert Read(m6, 4) == Read(m5, frame - 1);
  }

  /** A call and its return, as seen by the caller: whatever the callee
      did in between, as long as it left its frame pointers and the saved
      frame alone and pushed its result, the caller continues at the return
      address with LCL, ARG, THIS and THAT as they were before the call and
      the result in place of its `k` arguments, on top of its stack. */
  lemma CallReturn(env: map<string, int>, m0: Machine, m1: Machine, ret: int, k: int, m2: Machine)
    requires Called(m0, m1, ret, k) && 0 <= k && 16 <= Read(m0, 0) - k
    requires Read(m2, 1) == Read(m1, 1) && Read(m2, 2) == Read(m1, 2)
    requires forall x :: Read(m0, 0) <= x < Read(m0, 0) + 5 ==> Read(m2, x) == Read(m1, x)
    requires Read(m0, 0) + 5 < Read(m2, 0)
    ensures Straight(env, CodeWriter08.ReturnCode(), m2).Some?
    ensures var m3, sp := Straight(env, CodeWriter08.ReturnCode(), m2).value, Read(m0, 0);
      && m3.pc == ret
      && Read(m3, 0) == sp - k + 1 && Read(m3, sp - k) == Read(m2, Read(m2, 0) - 1)
      && (forall r :: 1 <= r < 5 ==> Read(m3, r) == Read(m0, r))
  {
    ReturnFrame(env, m2);
    CallReturnAlgebra(m0, m1, ret, k, m2, Straight(env, CodeWriter08.ReturnCode(), m2).value);
  }

  lemma CallReturnAlgebra(m0: Machine, m1: Machine, ret: int, k: int, m2: Machine, m3: Machine)
    requires Called(m0, m1, ret, k) && 0 <= k && 16 <= Read(m0, 0) - k
    requires Read(m2, 1) == Read(m1, 1) && Read(m2, 2) == Read(m1, 2)
    requires forall x :: Read(m0, 0) <= x < Read(m0, 0) + 5 ==> Read(m2, x) == Read(m1, x)
    requires Returned(m2, m3)
    ensures var sp := Read(m0, 0);
      && m3.pc == ret
      && Read(m3, 0) == sp - k + 1 && Read(m3, sp - k) == Read(m2, Read(m2, 0) - 1)
      && (forall r :: 1 <= r < 5 ==> Read(m3, r) == Read(m0, r))
  {
    var sp := Read(m0, 0);
    assert Read(m2, sp) == ret;
    assert Read(m2, sp + 1) == Read(m0, 1) && Read(m2, sp + 2) == Read(m0, 2);
    assert Read(m2, sp + 3) == Read(m0, 3) && Read(m2, sp + 4) == Read(m0, 4);
  }
}
