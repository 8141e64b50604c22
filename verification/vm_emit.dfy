/** The Hack code both VM code writers emit for the stack-arithmetic and
    memory-access commands (07-vm-stack-arithmetic/code_writer.py and the
    same routines, unchanged, in 08-vm-program-control/code_writer.py).

    Every routine here is a pure function from the writer's relevant state to
    the lines it appends. A raised `CodeWriterError` (or the `AttributeError`
    of a static access before any `set_filename`) is an `Err`, and the model
    then appends nothing. For an unknown arithmetic mnemonic so does the
    source: `write_command` writes the comment only once a category matches.
    A rejected push or pop differs: `write_push_pop` writes its comment line
    before it looks at the segment, so the source leaves that line behind. */
module VmEmit {
  import opened Wrappers
  import opened Text
  import opened AsmLines
  import CommandSymbols

  datatype CodeWriterError =
    | UnknownCommand(text: string)
    | NoFileName

  /** `_pop_from_stack_to(reg)`: SP decreases and `reg` receives the top. */
  function PopTo(reg: string): seq<Instr> {
    [At("SP"), Assign("AM", "M-1"), Assign(reg, "M")]
  }

  /** `_push_to_stack_from(reg)`. */
  function PushFrom(reg: string): seq<Instr> {
    [At("SP"), Assign("M", "M+1"), Assign("A", "M-1"), Assign("M", reg)]
  }

  /** `_push_boolean_to_stack(b)`: true is -1 (all bits set), false is 0. */
  function PushBoolean(b: bool): seq<Instr> {
    PushFrom(if b then "-1" else "0")
  }

  /** `_write_binary_compute(symbol)`: pop y into D, pop x into A, push x op y. */
  function BinaryCompute(symbol: string): seq<Instr> {
    PopTo("D") + PopTo("A") + [Assign("D", "A" + symbol + "D")] + PushFrom("D")
  }

  /** `_write_unary_compute(symbol)`: rewrite the top of the stack in place. */
  function UnaryCompute(symbol: string): seq<Instr> {
    [At("SP"), Assign("A", "M-1"), Assign("M", symbol + "M")]
  }

  /** `LABEL<n>`, the stem of the two labels of the n-th comparison. */
  function ComparisonLabel(n: nat): string {
    "LABEL" + NatToString(n)
  }

  /** `_write_binary_logic(jump)` with the already incremented counter `n`:
      compute x - y and branch on it to push true or false. */
  function BinaryLogic(jump: string, n: nat): seq<Instr> {
    var stem := ComparisonLabel(n);
    PopTo("D") + PopTo("A") + [Assign("D", "A-D")]
    + [At(stem + "_TRUE"), Branch("D", jump)]
    + PushBoolean(false)
    + [At(stem + "_FALSE"), Branch("0", "JMP"), Declare(stem + "_TRUE")]
    + PushBoolean(true)
    + [Declare(stem + "_FALSE")]
  }

  /** `write_command`: dispatch on the first category listing the mnemonic;
      returns the new label counter and the lines written. */
  function WriteCommand(labelCount: nat, command: string): (r: Result<(nat, seq<Line>), CodeWriterError>)
    ensures r.Ok? <==> command in CommandSymbols.AllCommands()
    ensures r.Err? ==> r.error == UnknownCommand(command)
    ensures r.Ok? ==> |r.value.1| >= 2 && r.value.1[0] == Comment(command) && r.value.1[|r.value.1| - 1] == Blank
    ensures r.Ok? && CommandSymbols.Classify(command) == Some(CommandSymbols.BinaryLogic) ==>
      r.value.0 == labelCount + 1
      && Declared(r.value.1) == [ComparisonLabel(labelCount + 1) + "_TRUE", ComparisonLabel(labelCount + 1) + "_FALSE"]
    ensures r.Ok? && CommandSymbols.Classify(command) != Some(CommandSymbols.BinaryLogic) ==>
      r.value.0 == labelCount && Declared(r.value.1) == []
  {
    match CommandSymbols.Classify(command)
    case None => Err(UnknownCommand(command))
    case Some(cat) =>
      CommandSymbols.ClassifyExact(command, cat);
      var symbol := CommandSymbols.Symbol(cat, command).value;
      var (count, body) :=
        match cat
        case BinaryCompute => (labelCount, BinaryCompute(symbol))
        case UnaryCompute => (labelCount, UnaryCompute(symbol))
        case BinaryLogic => (labelCount + 1, BinaryLogic(symbol, labelCount + 1));
      var out := [Comment(command)] + Instruction(body) + [Blank];
      DeclaredOfWrapped(command, body);
      BodyDeclarations(cat, symbol, labelCount + 1);
      Ok((count, out))
  }

  /** The labels each arithmetic body declares: two for a comparison, none
      otherwise. */
  lemma BodyDeclarations(cat: CommandSymbols.Category, symbol: string, n: nat)
    ensures cat == CommandSymbols.BinaryLogic ==>
      Declared(Instruction(BinaryLogic(symbol, n))) == [ComparisonLabel(n) + "_TRUE", ComparisonLabel(n) + "_FALSE"]
    ensures Declared(Instruction(BinaryCompute(symbol))) == []
    ensures Declared(Instruction(UnaryCompute(symbol))) == []
  {
    NoDeclarations(BinaryCompute(symbol));
    NoDeclarations(UnaryCompute(symbol));
    ComparisonDeclarations(symbol, n);
  }

  /** A comparison declares its two labels, the true one first. */
  lemma ComparisonDeclarations(symbol: string, n: nat)
    ensures Declared(Instruction(BinaryLogic(symbol, n))) == [ComparisonLabel(n) + "_TRUE", ComparisonLabel(n) + "_FALSE"]
  {
    var stem := ComparisonLabel(n);
    var p1 := PopTo("D") + PopTo("A") + [Assign("D", "A-D")] + [At(stem + "_TRUE"), Branch("D", symbol)]
      + PushBoolean(false) + [At(stem + "_FALSE"), Branch("0", "JMP")];
    var p3 := PushBoolean(true);
    assert BinaryLogic(symbol, n) == p1 + [Declare(stem + "_TRUE")] + p3 + [Declare(stem + "_FALSE")];
    DeclaredTwo(p1, stem + "_TRUE", p3, stem + "_FALSE");
  }

  /** Code with two declarations and none elsewhere declares those two, in
      order. */
  lemma DeclaredTwo(p1: seq<Instr>, a: string, p3: seq<Instr>, b: string)
    requires forall k :: 0 <= k < |p1| ==> !p1[k].Declare?
    requires forall k :: 0 <= k < |p3| ==> !p3[k].Declare?
    ensures Declared(Instruction(p1 + [Declare(a)] + p3 + [Declare(b)])) == [a, b]
  {
    var p2, p4 := [Declare(a)], [Declare(b)];
    NoDeclarations(p1);
    NoDeclarations(p3);
    DeclaredOne(a);
    DeclaredOne(b);
    InstructionAppend(p1 + p2 + p3, p4);
    InstructionAppend(p1 + p2, p3);
    InstructionAppend(p1, p2);
    DeclaredAppend(Instruction(p1 + p2 + p3), Instruction(p4));
    DeclaredAppend(Instruction(p1 + p2), Instruction(p3));
    DeclaredAppend(Instruction(p1), Instruction(p2));
  }

  lemma DeclaredOfWrapped(comment: string, body: seq<Instr>)
    ensures Declared([Comment(comment)] + Instruction(body) + [Blank]) == Declared(Instruction(body))
  {
    DeclaredAppend([Comment(comment)], Instruction(body));
    DeclaredAppend([Comment(comment)] + Instruction(body), [Blank]);
  }

  /** The base-address register of a per-function segment (`instance` table). */
  function InstanceBase(segment: string): Option<string> {
    if segment == "local" then Some("LCL")
    else if segment == "argument" then Some("ARG")
    else if segment == "this" then Some("THIS")
    else if segment == "that" then Some("THAT")
    else None
  }

  /** The fixed base address of a shared segment (`shared` table). */
  function SharedBase(segment: string): Option<string> {
    if segment == "pointer" then Some("THIS")
    else if segment == "temp" then Some("R5")
    else None
  }

  /** The segments `_push_pop_variable` serves: the union of both tables.
      This is the intent of the membership test at line 162 of the 07
      writer (line 176 of the 08 one). As written, that test adds two
      `dict_keys` views with `+`, which raises `TypeError` under Python 3, so
      every push or pop other than `push constant` fails there. The model
      follows the intent. */
  predicate IsVariableSegment(segment: string) {
    InstanceBase(segment).Some? || SharedBase(segment).Some?
  }

  /** `_get_address(reg, segment, index)`: `reg` := base + index, where the
      base is the content of the segment register (`M`) for per-function
      segments and the register's own address (`A`) for shared ones. */
  function GetAddress(reg: string, segment: string, index: string): seq<Instr>
    requires IsVariableSegment(segment)
  {
    if InstanceBase(segment).Some? then
      [At(index), Assign("D", "A"), At(InstanceBase(segment).value), Assign(reg, "M+D")]
    else
      [At(index), Assign("D", "A"), At(SharedBase(segment).value), Assign(reg, "A+D")]
  }

  /** `_push_constant(c)`. */
  function PushConstant(constant: string): (r: seq<Instr>)
    ensures forall k :: 0 <= k < |r| ==> !r[k].Declare?
  {
    [At(constant), Assign("D", "A")] + PushFrom("D")
  }

  /** `_push_pop_variable`: push copies segment[index] to the stack; pop
      parks the address in R13, pops into D and stores through R13. */
  function PushPopVariable(command: string, segment: string, index: string): (r: Result<seq<Instr>, CodeWriterError>)
    requires IsVariableSegment(segment)
    ensures r.Ok? <==> command == "push" || command == "pop"
    ensures r.Ok? ==> forall k :: 0 <= k < |r.value| ==> !r.value[k].Declare?
  {
    if command == "push" then
      Ok(GetAddress("A", segment, index) + [Assign("D", "M")] + PushFrom("D"))
    else if command == "pop" then
      Ok(GetAddress("D", segment, index) + [At("R13"), Assign("M", "D")] + PopTo("D")
         + [At("R13"), Assign("A", "M"), Assign("M", "D")])
    else Err(UnknownCommand(command))
  }

  /** The assembler symbol of static variable `name` of file `basename`. */
  function StaticSymbol(basename: string, name: string): string {
    basename + "." + name
  }

  /** `_push_pop_static`: static `i` of file `Xxx` is the assembler variable
      `Xxx.i`. The symbol is formed before the command is checked, so a
      missing file name wins over a bad command. */
  function PushPopStatic(command: string, basename: Option<string>, name: string): (r: Result<seq<Instr>, CodeWriterError>)
    ensures r.Ok? <==> basename.Some? && (command == "push" || command == "pop")
    ensures basename.None? ==> r == Err(NoFileName)
    ensures r.Ok? ==> At(StaticSymbol(basename.value, name)) in r.value
    ensures r.Ok? ==> forall k :: 0 <= k < |r.value| ==> !r.value[k].Declare?
  {
    match basename
    case None => Err(NoFileName)
    case Some(b) =>
      var symbol := StaticSymbol(b, name);
      if command == "push" then
        var code := [At(symbol), Assign("D", "M")] + PushFrom("D");
        assert code[0] == At(symbol);
        Ok(code)
      else if command == "pop" then
        var code := PopTo("D") + [At(symbol), Assign("M", "D")];
        assert code[3] == At(symbol);
        Ok(code)
      else Err(UnknownCommand(command))
  }

  /** Which push/pop commands `write_push_pop` accepts: push constant, push
      and pop on the six variable segments, and push and pop static once a
      file name is known. Pop constant is rejected. */
  predicate PushPopAccepted(basename: Option<string>, command: string, segment: string) {
    (command == "push" && segment == "constant")
    || (segment != "constant" && IsVariableSegment(segment) && (command == "push" || command == "pop"))
    || (segment == "static" && basename.Some? && (command == "push" || command == "pop"))
  }

  /** The instructions `write_push_pop` emits for a command, by segment. */
  function PushPopBody(basename: Option<string>, command: string, segment: string, index: string)
    : (r: Result<seq<Instr>, CodeWriterError>)
    ensures r.Ok? <==> PushPopAccepted(basename, command, segment)
    ensures r.Ok? ==> forall k :: 0 <= k < |r.value| ==> !r.value[k].Declare?
    ensures r.Ok? && segment == "static" ==> At(StaticSymbol(basename.value, index)) in r.value
  {
    if command == "push" && segment == "constant" then Ok(PushConstant(index))
    else if IsVariableSegment(segment) then PushPopVariable(command, segment, index)
    else if segment == "static" then PushPopStatic(command, basename, index)
    else Err(UnknownCommand(JoinSpace([command, segment, index])))
  }

  /** `write_push_pop(command, segment, index)`: a comment with the joined
      command, the code, and a blank line. */
  function WritePushPop(basename: Option<string>, command: string, segment: string, index: string)
    : (r: Result<seq<Line>, CodeWriterError>)
    ensures r.Ok? <==> PushPopAccepted(basename, command, segment)
    ensures r.Ok? ==> |r.value| >= 2 && r.value[0] == Comment(JoinSpace([command, segment, index]))
                      && r.value[|r.value| - 1] == Blank
    ensures r.Ok? ==> Declared(r.value) == []
    ensures r.Ok? && segment == "static" ==> Code(At(StaticSymbol(basename.value, index))) in r.value
  {
    var full := JoinSpace([command, segment, index]);
    match PushPopBody(basename, command, segment, index)
    case Err(e) => Err(e)
    case Ok(code) =>
      DeclaredOfWrapped(full, code);
      NoDeclarations(code);
      WrappedMembership(full, code);
      Ok([Comment(full)] + Instruction(code) + [Blank])
  }

  lemma WrappedMembership(comment: string, code: seq<Instr>)
    ensures forall i :: i in code ==> Code(i) in [Comment(comment)] + Instruction(code) + [Blank]
  {
    var out := [Comment(comment)] + Instruction(code) + [Blank];
    forall i | i in code ensures Code(i) in out {
      var k :| 0 <= k < |code| && code[k] == i;
      assert out[k + 1] == Code(code[k]);
    }
  }

  /** The instructions of `close`: the `(END)` label jumping to itself. */
  function Terminator(): seq<Instr> {
    [Declare("END"), At("END"), Branch("0", "JMP")]
  }

  /** `close`: a comment and the terminating infinite loop. */
  function Close(): (out: seq<Line>)
    ensures Declared(out) == ["END"]
    ensures CodeOf(out) == Terminator()
  {
    var code := Terminator();
    var out := [Comment("Infinite Loop (Terminator)")] + Instruction(code);
    DeclaredAppend([Comment("Infinite Loop (Terminator)")], Instruction(code));
    InstructionAppend([Declare("END")], [At("END"), Branch("0", "JMP")]);
    assert code == [Declare("END")] + [At("END"), Branch("0", "JMP")];
    DeclaredOne("END");
    NoDeclarations([At("END"), Branch("0", "JMP")]);
    DeclaredAppend(Instruction([Declare("END")]), Instruction([At("END"), Branch("0", "JMP")]));
    CodeOfAppend([Comment("Infinite Loop (Terminator)")], Instruction(code));
    CodeOfInstruction(code);
    assert CodeOf([Comment("Infinite Loop (Terminator)")]) == [];
    out
  }
}
