/** What the code of `function f k` (08-vm-program-control/code_writer.py)
    does when the Hack machine runs it: the entry label, then a loop that
    counts R13 down from `k` and pushes one zero a round. The function's code
    is taken on its own, starting at address 0, so its two loop labels are
    bound to the addresses of their declarations, 5 and 16. */
module FunctionEntry {
  import opened Wrappers
  import opened Text
  import opened AsmLines
  import opened HackMachine
  import VmEmit
  import CodeWriter08
  import CallFrames

  /** The code `write_function` emits for a function named `f` with
      `numLocals` locals. */
  function EntryCode(f: string, numLocals: string): seq<Instr> {
    [Declare(f)] + CodeWriter08.LocalsLoop(f, numLocals)
  }

  /** Its four stretches: set the counter; count down and leave when it goes
      negative; push a zero and go round; the exit label. */
  function Setup(f: string, numLocals: string): seq<Instr> {
    [Declare(f), At(numLocals), Assign("D", "A"), At("R13"), Assign("M", "D")]
  }

  function Test(f: string): seq<Instr> {
    [Declare(CodeWriter08.LoopStart(f)), At("R13"), Assign("MD", "M-1"), At(CodeWriter08.LoopEnd(f)), Branch("D", "JLT")]
  }

  function Again(f: string): seq<Instr> {
    VmEmit.PushFrom("0") + [At(CodeWriter08.LoopStart(f)), Branch("0", "JMP")]
  }

  /** Code holding the loop of a function named `f` where `write_function`
      puts it, from address 5 to the end. */
  predicate Laid(code: seq<Instr>, f: string) {
    && |code| == 17
    && code[5..10] == Test(f) && code[10..16] == Again(f)
    && code[16..17] == [Declare(CodeWriter08.LoopEnd(f))]
  }

  lemma Layout(f: string, numLocals: string)
    ensures EntryCode(f, numLocals)[0..5] == Setup(f, numLocals)
    ensures Laid(EntryCode(f, numLocals), f)
  {
    var code := EntryCode(f, numLocals);
    assert code == Setup(f, numLocals) + Test(f) + Again(f) + [Declare(CodeWriter08.LoopEnd(f))];
  }

  /** The test and the push each jump, if at all, only at their end. */
  lemma Blocks(f: string)
    ensures |Test(f)| == 5 && forall k :: 0 <= k < |Test(f)| - 1 ==> !Test(f)[k].Branch?
    ensures |Again(f)| == 6 && forall k :: 0 <= k < |Again(f)| - 1 ==> !Again(f)[k].Branch?
  {
  }

  /** The loop labels are labels: neither a constant nor a register name. */
  lemma LoopLabels(f: string)
    ensures !IsDigits(CodeWriter08.LoopStart(f)) && Register(CodeWriter08.LoopStart(f)).None?
    ensures !IsDigits(CodeWriter08.LoopEnd(f)) && Register(CodeWriter08.LoopEnd(f)).None?
  {
    var s, e := CodeWriter08.LoopStart(f), CodeWriter08.LoopEnd(f);
    assert |s| >= 10 && s[|s| - 1] == 'T';
    assert |e| >= 8 && e[|e| - 1] == 'D';
  }

  /** The labels as `write_function`'s code declares them. */
  predicate Bound(env: map<string, int>, f: string) {
    && CodeWriter08.LoopStart(f) in env && env[CodeWriter08.LoopStart(f)] == 5
    && CodeWriter08.LoopEnd(f) in env && env[CodeWriter08.LoopEnd(f)] == 16
  }

  lemma SetupEffect(env: map<string, int>, f: string, numLocals: string, m: Machine)
    requires IsDigits(numLocals)
    ensures var n := DigitsValue(numLocals);
      Straight(env, Setup(f, numLocals), m) == Some(Machine(m.pc + 5, 13, n, Store(m.ram, 13, n)))
  {
    var n := DigitsValue(numLocals);
    RegisterResolves(env, "R13");
    var m1 := m.(pc := m.pc + 1);
    var m2 := m1.(pc := m.pc + 2, a := n);
    var m3 := m2.(pc := m.pc + 3, d := n);
    var m4 := m3.(pc := m.pc + 4, a := 13);
    Trace(env, Setup(f, numLocals), [m, m1, m2, m3, m4, Machine(m.pc + 5, 13, n, Store(m.ram, 13, n))]);
  }

  /** One test of the counter: R13 goes down by one, and the code leaves the
      loop exactly when it has gone below zero. */
  lemma TestEffect(env: map<string, int>, f: string, m: Machine)
    requires Bound(env, f)
    ensures var j := Read(m, 13) - 1;
      Straight(env, Test(f), m)
      == Some(Machine(if j < 0 then 16 else m.pc + 5, 16, j, Store(m.ram, 13, j)))
  {
    var j := Read(m, 13) - 1;
    LoopLabels(f);
    RegisterResolves(env, "R13");
    var m1 := m.(pc := m.pc + 1);
    var m2 := m1.(pc := m.pc + 2, a := 13);
    var m3 := Machine(m.pc + 3, 13, j, Store(m.ram, 13, j));
    var m4 := m3.(pc := m.pc + 4, a := 16);
    Trace(env, Test(f), [m, m1, m2, m3, m4, m4.(pc := if j < 0 then 16 else m.pc + 5)]);
  }

  /** One zero pushed, and back to the test. */
  lemma AgainEffect(env: map<string, int>, f: string, m: Machine)
    requires Bound(env, f)
    ensures var sp := Read(m, 0);
      Straight(env, Again(f), m) == Some(Machine(5, 5, m.d, Store(Store(m.ram, 0, sp + 1), sp, 0)))
  {
    var sp := Read(m, 0);
    LoopLabels(f);
    CallFrames.PushEffect(env, "0", m);
    var m1 := Machine(m.pc + 4, sp, m.d, Store(Store(m.ram, 0, sp + 1), sp, 0));
    var m2 := m1.(pc := m.pc + 5, a := 5);
    Trace(env, [At(CodeWriter08.LoopStart(f)), Branch("0", "JMP")], [m1, m2, m2.(pc := 5)]);
    Then(env, VmEmit.PushFrom("0"), [At(CodeWriter08.LoopStart(f)), Branch("0", "JMP")], m, m1, m2.(pc := 5));
  }

  /** The test while the counter is positive: it goes down by one and the
      code falls through to the push. */
  lemma Continue(env: map<string, int>, code: seq<Instr>, f: string, m: Machine) returns (m1: Machine)
    requires Laid(code, f) && Bound(env, f) && m.pc == 5 && 1 <= Read(m, 13)
    ensures Run(env, code, m, |Test(f)|) == Some(m1)
    ensures m1.pc == 10 && Read(m1, 13) == Read(m, 13) - 1
    ensures forall x :: x != 13 ==> Read(m1, x) == Read(m, x)
  {
    var j := Read(m, 13) - 1;
    TestEffect(env, f, m);
    m1 := Machine(10, 16, j, Store(m.ram, 13, j));
    Stored(m.ram, 13, j);
    Blocks(f);
    RunStraight(env, code, m, Test(f));
  }

  /** The push of a zero and the jump back to the test. */
  lemma PushZero(env: map<string, int>, code: seq<Instr>, f: string, m: Machine) returns (m': Machine)
    requires Laid(code, f) && Bound(env, f) && m.pc == 10 && 16 <= Read(m, 0)
    ensures Run(env, code, m, |Again(f)|) == Some(m')
    ensures var sp := Read(m, 0);
      && m'.pc == 5 && Read(m', 0) == sp + 1 && Read(m', sp) == 0
      && (forall x :: x != 0 && x != sp ==> Read(m', x) == Read(m, x))
  {
    PushZeroRun(env, code, f, m);
    m' := ZeroPushed(m);
  }

  /** The machine after the push, word by word. */
  lemma ZeroPushed(m: Machine) returns (m': Machine)
    requires 16 <= Read(m, 0)
    ensures var sp := Read(m, 0);
      && m' == Machine(5, 5, m.d, Store(Store(m.ram, 0, sp + 1), sp, 0))
      && Read(m', 0) == sp + 1 && Read(m', sp) == 0
      && (forall x :: x != 0 && x != sp ==> Read(m', x) == Read(m, x))
  {
    var sp := Read(m, 0);
    m' := Machine(5, 5, m.d, Store(Store(m.ram, 0, sp + 1), sp, 0));
    Stored(m.ram, 0, sp + 1);
    Stored(Store(m.ram, 0, sp + 1), sp, 0);
  }

  lemma PushZeroRun(env: map<string, int>, code: seq<Instr>, f: string, m: Machine)
    requires Laid(code, f) && Bound(env, f) && m.pc == 10
    ensures var sp := Read(m, 0);
      Run(env, code, m, |Again(f)|) == Some(Machine(5, 5, m.d, Store(Store(m.ram, 0, sp + 1), sp, 0)))
  {
    AgainEffect(env, f, m);
    Blocks(f);
    RunStraight(env, code, m, Again(f));
  }

  /** A round of the loop while the counter is positive: from the test back
      to it, with one more zero on the stack. */
  lemma Round(env: map<string, int>, code: seq<Instr>, f: string, m: Machine) returns (m': Machine)
    requires Laid(code, f) && Bound(env, f) && m.pc == 5 && 1 <= Read(m, 13) && 16 <= Read(m, 0)
    ensures Run(env, code, m, |Test(f)| + |Again(f)|) == Some(m')
    ensures var sp := Read(m, 0);
      && m'.pc == 5 && Read(m', 13) == Read(m, 13) - 1
      && Read(m', 0) == sp + 1 && Read(m', sp) == 0
      && (forall x :: x != 0 && x != 13 && x != sp ==> Read(m', x) == Read(m, x))
  {
    var m1 := Continue(env, code, f, m);
    m' := PushZero(env, code, f, m1);
    RunThen(env, code, m, m1, m', |Test(f)|, |Again(f)|);
  }

  /** The last test: with the counter at zero the code jumps to the exit
      label and steps past the end, leaving R13 at -1. */
  lemma Leave(env: map<string, int>, code: seq<Instr>, f: string, m: Machine) returns (m': Machine)
    requires Laid(code, f) && Bound(env, f) && m.pc == 5 && Read(m, 13) == 0
    ensures Run(env, code, m, |Test(f)| + 1) == Some(m')
    ensures m'.pc == 17 && Read(m', 13) == -1
    ensures forall x :: x != 13 ==> Read(m', x) == Read(m, x)
  {
    TestEffect(env, f, m);
    var m1 := Machine(16, 16, -1, Store(m.ram, 13, -1));
    Stored(m.ram, 13, -1);
    RunStraight(env, code, m, Test(f));
    m' := m1.(pc := 17);
    Trace(env, [Declare(CodeWriter08.LoopEnd(f))], [m1, m']);
    RunStraight(env, code, m1, [Declare(CodeWriter08.LoopEnd(f))]);
    RunThen(env, code, m, m1, m', |Test(f)|, 1);
  }

  /** `m` is at the test after `i` rounds, started from `m0` with SP at
      `s`: the `i` words from `s` on are zero, SP is past them, and nothing
      else but R13 has changed. */
  ghost predicate Zeroing(m0: Machine, m: Machine, s: int, i: int) {
    && Read(m, 0) == s + i
    && (forall x :: s <= x < s + i ==> Read(m, x) == 0)
    && (forall x :: x != 0 && x != 13 && !(s <= x < s + i) ==> Read(m, x) == Read(m0, x))
  }

  lemma ZeroingStep(m0: Machine, m: Machine, m1: Machine, s: int, i: int)
    requires Zeroing(m0, m, s, i) && 16 <= s && 0 <= i
    requires Read(m1, 0) == s + i + 1 && Read(m1, s + i) == 0
    requires forall x :: x != 0 && x != 13 && x != s + i ==> Read(m1, x) == Read(m, x)
    ensures Zeroing(m0, m1, s, i + 1)
  {
  }

  /** The steps the loop takes to zero `j` more locals and leave. */
  function LoopSteps(j: nat): nat {
    11 * j + 6
  }

  lemma {:induction false} Rounds(env: map<string, int>, code: seq<Instr>, f: string, m0: Machine, s: int, m: Machine, i: nat, n: nat)
    returns (m': Machine)
    requires Laid(code, f) && Bound(env, f) && m.pc == 5 && 16 <= s && i <= n
    requires Zeroing(m0, m, s, i) && Read(m, 13) == n - i
    ensures Run(env, code, m, LoopSteps(n - i)) == Some(m')
    ensures m'.pc == 17 && Read(m', 13) == -1 && Zeroing(m0, m', s, n)
    decreases n - i
  {
    if i == n {
      m' := Leave(env, code, f, m);
    } else {
      var m1 := Round(env, code, f, m);
      ZeroingStep(m0, m, m1, s, i);
      m' := Rounds(env, code, f, m0, s, m1, i + 1, n);
      RunThen(env, code, m, m1, m', |Test(f)| + |Again(f)|, LoopSteps(n - (i + 1)));
      assert |Test(f)| + |Again(f)| + LoopSteps(n - (i + 1)) == LoopSteps(n - i);
    }
  }

  /** `function f k` as written: run from its entry, the code pushes a zero
      exactly `k` times — SP moves up by `k` over `k` zeroed words — and
      steps past its end after `11 k + 11` instructions, having changed
      nothing else but the scratch register R13. */
  lemma LocalsZeroed(env: map<string, int>, f: string, numLocals: string, m0: Machine) returns (m': Machine)
    requires Bound(env, f) && IsDigits(numLocals) && m0.pc == 0 && 16 <= Read(m0, 0)
    ensures var n, s := DigitsValue(numLocals), Read(m0, 0);
      && Run(env, EntryCode(f, numLocals), m0, 11 * n + 11) == Some(m')
      && m'.pc == |EntryCode(f, numLocals)|
      && Read(m', 0) == s + n && Read(m', 13) == -1
      && (forall x :: s <= x < s + n ==> Read(m', x) == 0)
      && (forall x :: x != 0 && x != 13 && !(s <= x < s + n) ==> Read(m', x) == Read(m0, x))
  {
    var code := EntryCode(f, numLocals);
    var n, s := DigitsValue(numLocals), Read(m0, 0);
    Layout(f, numLocals);
    SetupEffect(env, f, numLocals, m0);
    var m1 := Machine(5, 13, n, Store(m0.ram, 13, n));
    Stored(m0.ram, 13, n);
    RunStraight(env, code, m0, Setup(f, numLocals));
    m' := Rounds(env, code, f, m0, s, m1, 0, n);
    RunThen(env, code, m0, m1, m', |Setup(f, numLocals)|, LoopSteps(n));
  }
}
