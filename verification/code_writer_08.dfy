/** The full VM code writer (08-vm-program-control/code_writer.py): the stack
    arithmetic and memory access of `VmEmit`, plus program flow (label, goto,
    if-goto), function calling (call, function, return) and the bootstrap.

    The writer's state is the label counter shared by comparisons and calls,
    the name of the function being translated (upper-cased; the initial value
    is `FUNCTION_NAME`) and the base name of the current `.vm` file. */
module CodeWriter08 {
  import opened Wrappers
  import opened Text
  import opened AsmLines
  import VmEmit
  import CommandSymbols

  datatype Writer = Writer(labelCount: nat, currentFunction: string, vmBasename: Option<string>)

  /** `_get_filename_and_path`, name part: the base name of the (normalised)
      path with a trailing case-insensitive `.vm` replaced by `.asm`, or with
      `.asm` appended. */
  function OutputName(vmPath: string): (r: string)
    ensures EndsWith(r, ".asm")
  {
    RewriteExtension(Basename(vmPath), "vm", ".asm")
  }

  /** `set_filename`: the file's base name without a trailing `.vm`. */
  function SetFilename(w: Writer, vmFile: string): (w': Writer)
    ensures w'.labelCount == w.labelCount && w'.currentFunction == w.currentFunction
    ensures w'.vmBasename == Some(SubExtension(Basename(vmFile), "vm", ""))
  {
    w.(vmBasename := Some(SubExtension(Basename(vmFile), "vm", "")))
  }

  /** `_get_label_symbol`: `f$B`, the current function and the upper-cased
      label. */
  function LabelSymbol(w: Writer, name: string): string {
    w.currentFunction + "$" + Upper(name)
  }

  /** The return-address label of the n-th label-minting command calling `f`. */
  function ReturnLabel(f: string, n: nat): string {
    "RET_" + f + "_" + NatToString(n)
  }

  /** `write_label`. */
  function WriteLabel(w: Writer, name: string): (out: seq<Line>)
    ensures out == [Code(Declare(LabelSymbol(w, name)))]
  {
    Instruction([Declare(LabelSymbol(w, name))])
  }

  /** `write_goto`: jump unconditionally; the trailing `' '` instruction
      writes a line of five spaces. */
  function WriteGoto(w: Writer, name: string): (out: seq<Line>)
    ensures Declared(out) == []
    ensures |out| == 3 && out[0] == Code(At(LabelSymbol(w, name))) && out[1] == Code(Branch("0", "JMP"))
  {
    var code := [At(LabelSymbol(w, name)), Branch("0", "JMP"), Space];
    NoDeclarations(code);
    Instruction(code)
  }

  /** `write_if`: pop the top of the stack and jump when it is not zero. */
  function WriteIf(w: Writer, name: string): (out: seq<Line>)
    ensures Declared(out) == []
    ensures |out| == 6 && out[..3] == Instruction(VmEmit.PopTo("D"))
    ensures out[3] == Code(At(LabelSymbol(w, name))) && out[4] == Code(Branch("D", "JNE"))
  {
    var code := VmEmit.PopTo("D") + [At(LabelSymbol(w, name)), Branch("D", "JNE"), Space];
    NoDeclarations(code);
    Instruction(code)
  }

  /** The four registers a call saves, in push order. */
  function SavedRegisters(): seq<string> {
    ["LCL", "ARG", "THIS", "THAT"]
  }

  /** `@X, D=M` followed by a push, for each register in turn. */
  function PushRegisters(regs: seq<string>): (code: seq<Instr>)
    ensures forall k :: 0 <= k < |code| ==> !code[k].Declare?
  {
    if |regs| == 0 then []
    else [At(regs[0]), Assign("D", "M")] + VmEmit.PushFrom("D") + PushRegisters(regs[1..])
  }

  /** `write_call` with the counter already advanced to `n`: everything up to
      the jump into the callee. */
  function CallCode(f: string, numArgs: string, n: nat): seq<Instr> {
    [At(ReturnLabel(f, n)), Assign("D", "A")] + VmEmit.PushFrom("D")
    + PushRegisters(SavedRegisters())
    + [At(numArgs), Assign("D", "A"), At("5"), Assign("D", "A+D")]
    + [At("SP"), Assign("D", "M-D"), At("ARG"), Assign("M", "D")]
    + [At("SP"), Assign("D", "M"), At("LCL"), Assign("M", "D")]
    + [At(f), Branch("0", "JMP")]
  }

  /** `write_call(function_name, num_args)`: mint a fresh return label, save
      the caller's frame, reposition ARG and LCL, jump to the callee and
      declare the return label. `num_args` is written as given (the text
      `None` when the command has no third token). */
  function WriteCall(w: Writer, name: string, numArgs: string): (r: (Writer, seq<Line>))
    ensures r.0 == w.(labelCount := w.labelCount + 1)
    ensures Declared(r.1) == [ReturnLabel(Upper(name), w.labelCount + 1)]
    ensures |r.1| >= 3 && r.1[0] == Code(At(ReturnLabel(Upper(name), w.labelCount + 1)))
    ensures r.1[|r.1| - 3] == Code(At(Upper(name))) && r.1[|r.1| - 2] == Code(Branch("0", "JMP"))
    ensures r.1[|r.1| - 1] == Code(Declare(ReturnLabel(Upper(name), w.labelCount + 1)))
  {
    var n := w.labelCount + 1;
    var f := Upper(name);
    var body := CallCode(f, numArgs, n);
    var code := body + [Declare(ReturnLabel(f, n))];
    NoDeclarations(body);
    DeclaredOne(ReturnLabel(f, n));
    InstructionAppend(body, [Declare(ReturnLabel(f, n))]);
    DeclaredAppend(Instruction(body), Instruction([Declare(ReturnLabel(f, n))]));
    (w.(labelCount := n), Instruction(code))
  }

  /** The labels of the local-initialisation loop of function `f`. */
  function LoopStart(f: string): string { f + "_LCL_START" }
  function LoopEnd(f: string): string { f + "_LCL_END" }

  /** The body of `write_function` after the entry label: R13 counts down
      from `num_locals`, and each round pushes a zero. */
  function LocalsLoop(f: string, numLocals: string): seq<Instr> {
    [At(numLocals), Assign("D", "A"), At("R13"), Assign("M", "D")]
    + [Declare(LoopStart(f)), At("R13"), Assign("MD", "M-1"), At(LoopEnd(f)), Branch("D", "JLT")]
    + VmEmit.PushFrom("0")
    + [At(LoopStart(f)), Branch("0", "JMP"), Declare(LoopEnd(f))]
  }

  /** `write_function(function_name, num_locals)`: the function becomes
      current, its entry label is declared, and its locals are zeroed. */
  function WriteFunction(w: Writer, name: string, numLocals: string): (r: (Writer, seq<Line>))
    ensures r.0 == w.(currentFunction := Upper(name))
    ensures |r.1| > 0 && r.1[0] == Code(Declare(Upper(name)))
    ensures Declared(r.1) == [Upper(name), LoopStart(Upper(name)), LoopEnd(Upper(name))]
  {
    var f := Upper(name);
    var code := [Declare(f)] + LocalsLoop(f, numLocals);
    FunctionDeclarations(f, numLocals);
    (w.(currentFunction := f), Instruction(code))
  }

  lemma FunctionDeclarations(f: string, numLocals: string)
    ensures Declared(Instruction([Declare(f)] + LocalsLoop(f, numLocals))) == [f, LoopStart(f), LoopEnd(f)]
  {
    var p1 := [At(numLocals), Assign("D", "A"), At("R13"), Assign("M", "D")];
    var p3 := [At("R13"), Assign("MD", "M-1"), At(LoopEnd(f)), Branch("D", "JLT")]
      + VmEmit.PushFrom("0") + [At(LoopStart(f)), Branch("0", "JMP")];
    var whole := [Declare(f)] + p1 + [Declare(LoopStart(f))] + p3 + [Declare(LoopEnd(f))];
    assert [Declare(f)] + LocalsLoop(f, numLocals) == whole;
    NoDeclarations(p1);
    NoDeclarations(p3);
    DeclaredOne(f);
    DeclaredOne(LoopStart(f));
    DeclaredOne(LoopEnd(f));
    InstructionAppend([Declare(f)] + p1 + [Declare(LoopStart(f))] + p3, [Declare(LoopEnd(f))]);
    InstructionAppend([Declare(f)] + p1 + [Declare(LoopStart(f))], p3);
    InstructionAppend([Declare(f)] + p1, [Declare(LoopStart(f))]);
    InstructionAppend([Declare(f)], p1);
    DeclaredAppend(Instruction([Declare(f)] + p1 + [Declare(LoopStart(f))] + p3), Instruction([Declare(LoopEnd(f))]));
    DeclaredAppend(Instruction([Declare(f)] + p1 + [Declare(LoopStart(f))]), Instruction(p3));
    DeclaredAppend(Instruction([Declare(f)] + p1), Instruction([Declare(LoopStart(f))]));
    DeclaredAppend(Instruction([Declare(f)]), Instruction(p1));
  }

  /** The registers `write_return` restores from the frame, in order. */
  function RestoredRegisters(): seq<string> {
    ["THAT", "THIS", "ARG", "LCL"]
  }

  /** `@R13, AM=M-1, D=M, @X, M=D` for each register in turn. */
  function RestoreRegisters(regs: seq<string>): (code: seq<Instr>)
    ensures forall k :: 0 <= k < |code| ==> !code[k].Declare?
  {
    if |regs| == 0 then []
    else [At("R13"), Assign("AM", "M-1"), Assign("D", "M"), At(regs[0]), Assign("M", "D")]
         + RestoreRegisters(regs[1..])
  }

  function ReturnCode(): seq<Instr> {
    [At("5"), Assign("D", "A"), At("LCL"), Assign("A", "M-D"), Assign("D", "M"), At("R14"), Assign("M", "D")]
    + VmEmit.PopTo("D") + [At("ARG"), Assign("A", "M"), Assign("M", "D")]
    + [At("ARG"), Assign("D", "M+1"), At("SP"), Assign("M", "D")]
    + [At("LCL"), Assign("D", "M"), At("R13"), Assign("M", "D")]
    + RestoreRegisters(RestoredRegisters())
    + [At("R14"), Assign("A", "M"), Branch("0", "JMP")]
  }

  /** `write_return`: save the return address in R14, move the return value
      to ARG[0], set SP after it, restore the caller's four registers from
      the frame and jump to the saved address. */
  function WriteReturn(): (out: seq<Line>)
    ensures Declared(out) == []
    ensures |out| >= 3 && out[|out| - 3] == Code(At("R14")) && out[|out| - 2] == Code(Assign("A", "M"))
    ensures out[|out| - 1] == Code(Branch("0", "JMP"))
  {
    ReturnCodeShape();
    NoDeclarations(ReturnCode());
    Instruction(ReturnCode())
  }

  /** The return code declares no label and ends with the jump through R14. */
  lemma ReturnCodeShape()
    ensures forall k :: 0 <= k < |ReturnCode()| ==> !ReturnCode()[k].Declare?
    ensures |ReturnCode()| >= 3
    ensures ReturnCode()[|ReturnCode()| - 3..] == [At("R14"), Assign("A", "M"), Branch("0", "JMP")]
  {
    var body := [At("5"), Assign("D", "A"), At("LCL"), Assign("A", "M-D"), Assign("D", "M"), At("R14"), Assign("M", "D")]
      + VmEmit.PopTo("D") + [At("ARG"), Assign("A", "M"), Assign("M", "D")]
      + [At("ARG"), Assign("D", "M+1"), At("SP"), Assign("M", "D")]
      + [At("LCL"), Assign("D", "M"), At("R13"), Assign("M", "D")];
    var regs := RestoreRegisters(RestoredRegisters());
    var jump := [At("R14"), Assign("A", "M"), Branch("0", "JMP")];
    assert ReturnCode() == body + regs + jump;
    assert forall k :: 0 <= k < |body| ==> !body[k].Declare?;
    CleanJoin(body, regs, jump);
  }

  /** Three blocks without declarations joined: none, and the last block
      ends the whole. */
  lemma CleanJoin(a: seq<Instr>, b: seq<Instr>, c: seq<Instr>)
    requires forall k :: 0 <= k < |a| ==> !a[k].Declare?
    requires forall k :: 0 <= k < |b| ==> !b[k].Declare?
    requires forall k :: 0 <= k < |c| ==> !c[k].Declare?
    ensures forall k :: 0 <= k < |a + b + c| ==> !(a + b + c)[k].Declare?
    ensures (a + b + c)[|a + b + c| - |c|..] == c
  {
  }

  /** `write_init`: SP = 256, then `call Sys.init 0` — the first minted
      label. */
  function WriteInit(w: Writer): (r: (Writer, seq<Line>))
    ensures r.0 == w.(labelCount := w.labelCount + 1)
    ensures |r.1| > 0 && r.1[0] == Comment("Initialize SP")
    ensures Declared(r.1) == [ReturnLabel("SYS.INIT", w.labelCount + 1)]
  {
    var (w', call) := WriteCall(w, "Sys.init", "0");
    var setup := Instruction(StackSetup());
    StackSetupClean();
    DeclaredAppend([Comment("Initialize SP")], setup);
    DeclaredAppend([Comment("Initialize SP")] + setup, call);
    SysInitUpper();
    (w', [Comment("Initialize SP")] + setup + call)
  }

  /** SP = 256. */
  function StackSetup(): seq<Instr> {
    [At("256"), Assign("D", "A"), At("SP"), Assign("M", "D")]
  }

  lemma StackSetupClean()
    ensures Declared(Instruction(StackSetup())) == []
  {
    NoDeclarations(StackSetup());
  }

  lemma SysInitUpper()
    ensures Upper("Sys.init") == "SYS.INIT"
  {
  }

  /** The constructor: a fresh writer followed by the bootstrap. */
  function New(): (r: (Writer, seq<Line>))
    ensures r.0 == Writer(1, "FUNCTION_NAME", None)
    ensures Declared(r.1) == [ReturnLabel("SYS.INIT", 1)]
  {
    var r := WriteInit(Writer(0, "FUNCTION_NAME", None));
    r
  }

  /** `write_command`, with the writer's counter. */
  function WriteCommand(w: Writer, command: string): (r: Result<(Writer, seq<Line>), VmEmit.CodeWriterError>)
    ensures r.Ok? <==> VmEmit.WriteCommand(w.labelCount, command).Ok?
    ensures r.Ok? ==> r.value.0 == w.(labelCount := VmEmit.WriteCommand(w.labelCount, command).value.0)
    ensures r.Ok? ==> r.value.1 == VmEmit.WriteCommand(w.labelCount, command).value.1
    ensures r.Ok? <==> command in CommandSymbols.AllCommands()
    ensures r.Err? ==> r.error == VmEmit.UnknownCommand(command)
    ensures r.Ok? ==> r.value.0.vmBasename == w.vmBasename
    ensures r.Ok? ==> r.value.0.currentFunction == w.currentFunction
    ensures r.Ok? ==> r.value.0.labelCount == if command in ["eq", "gt", "lt"] then w.labelCount + 1 else w.labelCount
    ensures r.Ok? ==> |r.value.1| >= 2 && r.value.1[0] == Comment(command) && r.value.1[|r.value.1| - 1] == Blank
    ensures r.Ok? && command in ["eq", "gt", "lt"] ==>
      Declared(r.value.1) == [VmEmit.ComparisonLabel(w.labelCount + 1) + "_TRUE", VmEmit.ComparisonLabel(w.labelCount + 1) + "_FALSE"]
    ensures r.Ok? && command !in ["eq", "gt", "lt"] ==> Declared(r.value.1) == []
  {
    CommandSymbols.Comparisons(command);
    var (n, out) :- VmEmit.WriteCommand(w.labelCount, command);
    Ok((w.(labelCount := n), out))
  }

  /** `write_push_pop`, with the writer's file name. */
  function WritePushPop(w: Writer, command: string, segment: string, index: string)
    : (r: Result<seq<Line>, VmEmit.CodeWriterError>)
    ensures r == VmEmit.WritePushPop(w.vmBasename, command, segment, index)
    ensures r.Ok? <==> VmEmit.PushPopAccepted(w.vmBasename, command, segment)
    ensures w.vmBasename.None? && segment == "static" ==> r == Err(VmEmit.NoFileName)
    ensures r.Ok? ==> |r.value| >= 2 && r.value[0] == Comment(JoinSpace([command, segment, index]))
                      && r.value[|r.value| - 1] == Blank
    ensures r.Ok? ==> Declared(r.value) == []
    ensures r.Ok? && segment == "static" ==> Code(At(w.vmBasename.value + "." + index)) in r.value
  {
    VmEmit.WritePushPop(w.vmBasename, command, segment, index)
  }

  /** `close`. */
  function Close(): (out: seq<Line>)
    ensures Declared(out) == ["END"]
    ensures CodeOf(out) == VmEmit.Terminator()
  {
    VmEmit.Close()
  }

  /** Two return labels are equal only for the same callee and the same
      counter value: the counter is the digits after the last `_`. */
  lemma ReturnLabelInjective(f: string, g: string, n: nat, m: nat)
    requires ReturnLabel(f, n) == ReturnLabel(g, m)
    ensures f == g && n == m
  {
    var a, b := NatToString(n), NatToString(m);
    var p, q := "RET_" + f, "RET_" + g;
    assert ReturnLabel(f, n) == p + "_" + a && ReturnLabel(g, m) == q + "_" + b;
    LastSeparator(p, a, q, b);
    NatToStringInjective(n, m);
    assert f == p[4..] && g == q[4..];
  }

  /** Text ending in `_` and a run of digits splits at that `_` one way
      only. */
  lemma LastSeparator(p: string, a: string, q: string, b: string)
    requires IsDigits(a) && IsDigits(b)
    requires p + "_" + a == q + "_" + b
    ensures p == q && a == b
  {
    var s := p + "_" + a;
    assert forall i :: |p| + 1 <= i < |s| ==> s[i] == a[i - |p| - 1];
    assert forall i :: |q| + 1 <= i < |s| ==> s[i] == b[i - |q| - 1];
    assert s[|p|] == '_' && s[|q|] == '_';
    assert forall i :: |p| < i < |s| ==> s[i] != '_';
    assert forall i :: |q| < i < |s| ==> s[i] != '_';
    assert |p| == |q|;
    assert p == s[..|p|] == q;
    assert a == s[|p| + 1..] == b;
  }

  /** The two labels of a comparison are told apart by their suffix, and
      comparisons with different counter values by their digits. */
  lemma ComparisonLabelInjective(n: nat, m: nat, s1: string, s2: string)
    requires s1 in ["_TRUE", "_FALSE"] && s2 in ["_TRUE", "_FALSE"]
    requires VmEmit.ComparisonLabel(n) + s1 == VmEmit.ComparisonLabel(m) + s2
    ensures n == m && s1 == s2
  {
    var a, b := NatToString(n), NatToString(m);
    var s := VmEmit.ComparisonLabel(n) + s1;
    var t := VmEmit.ComparisonLabel(m) + s2;
    assert s[5 + |a|] == '_' && t[5 + |b|] == '_';
    assert forall i :: 5 <= i < 5 + |a| ==> s[i] == a[i - 5] && s[i] != '_';
    assert forall i :: 5 <= i < 5 + |b| ==> t[i] == b[i - 5] && t[i] != '_';
    assert |a| == |b|;
    assert a == s[5..5 + |a|] == b;
    NatToStringInjective(n, m);
    assert s1 == s[5 + |a|..] == s2;
  }

  /** Comparison labels (`LABEL...`) and return labels (`RET_...`) never
      coincide. */
  lemma MintedKindsDistinct(n: nat, suffix: string, f: string, m: nat)
    ensures VmEmit.ComparisonLabel(n) + suffix != ReturnLabel(f, m)
  {
    assert (VmEmit.ComparisonLabel(n) + suffix)[0] == 'L';
    assert ReturnLabel(f, m)[0] == 'R';
  }

  /** Labels inside functions are scoped by the function name: two label
      symbols agree only when the function names and the upper-cased labels
      agree (function names are taken to contain no `$`). */
  lemma LabelSymbolScoped(w1: Writer, w2: Writer, l1: string, l2: string)
    requires forall i :: 0 <= i < |w1.currentFunction| ==> w1.currentFunction[i] != '$'
    requires forall i :: 0 <= i < |w2.currentFunction| ==> w2.currentFunction[i] != '$'
    requires LabelSymbol(w1, l1) == LabelSymbol(w2, l2)
    ensures w1.currentFunction == w2.currentFunction && Upper(l1) == Upper(l2)
  {
    var f1, f2 := w1.currentFunction, w2.currentFunction;
    var s, t := LabelSymbol(w1, l1), LabelSymbol(w2, l2);
    assert s[|f1|] == '$' && t[|f2|] == '$';
    assert forall i :: 0 <= i < |f1| ==> s[i] == f1[i];
    assert forall i :: 0 <= i < |f2| ==> t[i] == f2[i];
    assert |f1| == |f2|;
    assert f1 == s[..|f1|] == f2;
    assert Upper(l1) == s[|f1| + 1..] == Upper(l2);
  }

  /** VM labels are case-insensitive in the generated code: a label and its
      upper-cased spelling name the same assembler symbol. */
  lemma LabelSymbolFoldsCase(w: Writer, name: string)
    ensures LabelSymbol(w, name) == LabelSymbol(w, Upper(name))
  {
    assert forall i :: 0 <= i < |name| ==> UpperChar(UpperChar(name[i])) == UpperChar(name[i]);
  }
}
