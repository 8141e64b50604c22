/** The lines a VM code writer emits, kept structured so that both their exact
    text and their meaning on the Hack machine can be stated.

    `_write_instruction` receives instruction strings — `@sym`, `dest=comp`,
    `comp;jump`, `(label)` and, after a goto, a lone space — and indents each
    by four spaces unless it starts with `(`; comments (`// text`) and the
    blank separator line are written directly (07-vm-stack-arithmetic and
    08-vm-program-control code_writer.py, `_write`, `_write_comment`,
    `_write_instruction`). */
module AsmLines {
  import opened Text

  datatype Instr =
    | At(symbol: string)
    | Assign(dest: string, comp: string)
    | Branch(comp: string, jump: string)
    | Declare(name: string)
    | Space

  datatype Line = Code(instr: Instr) | Comment(text: string) | Blank

  /** The instruction string handed to `_write_instruction`. */
  function InstrText(i: Instr): string {
    match i
    case At(s) => "@" + s
    case Assign(d, c) => d + "=" + c
    case Branch(c, j) => c + ";" + j
    case Declare(l) => "(" + l + ")"
    case Space => " "
  }

  /** `[4*' ', ''][cmd.startswith('(')] + cmd`. */
  function Indent(cmd: string): string {
    if StartsWith(cmd, "(") then cmd else "    " + cmd
  }

  /** One output line, as written to the `.asm` file (without its newline). */
  function Render(l: Line): string {
    match l
    case Code(i) => Indent(InstrText(i))
    case Comment(t) => "// " + t
    case Blank => ""
  }

  function RenderAll(ls: seq<Line>): (r: seq<string>)
    ensures |r| == |ls|
    ensures forall k :: 0 <= k < |ls| ==> r[k] == Render(ls[k])
  {
    seq(|ls|, k requires 0 <= k < |ls| => Render(ls[k]))
  }

  /** `_write_instruction(cmds)`: one indented line per instruction. */
  function Instruction(cmds: seq<Instr>): (ls: seq<Line>)
    ensures |ls| == |cmds|
    ensures forall k :: 0 <= k < |cmds| ==> ls[k] == Code(cmds[k])
  {
    seq(|cmds|, k requires 0 <= k < |cmds| => Code(cmds[k]))
  }

  /** Label declarations are written flush left and every other instruction
      the writers produce four spaces in: the indentation rule of
      `_write_instruction`. (A `dest` or `comp` field that itself started
      with `(` would also be written flush left; none does.) */
  lemma RenderIndentation(i: Instr)
    ensures i.Declare? ==> Render(Code(i)) == "(" + i.name + ")"
    ensures i.At? || i.Space? ==> Render(Code(i)) == "    " + InstrText(i)
    ensures i.Assign? && !StartsWith(i.dest, "(") ==> Render(Code(i)) == "    " + InstrText(i)
    ensures i.Branch? && !StartsWith(i.comp, "(") ==> Render(Code(i)) == "    " + InstrText(i)
  {
    match i
    case Assign(d, c) =>
      if |d| > 0 { assert InstrText(i)[..1] == d[..1]; } else { assert InstrText(i)[..1] == "="; }
    case Branch(c, j) =>
      if |c| > 0 { assert InstrText(i)[..1] == c[..1]; } else { assert InstrText(i)[..1] == ";"; }
    case At(sym) => assert InstrText(i)[..1] == "@";
    case Space => assert InstrText(i)[..1] == " ";
    case Declare(_) =>
  }

  /** Rendering is concatenation-friendly: the text of a block of lines is the
      text of its parts. */
  lemma RenderAllAppend(a: seq<Line>, b: seq<Line>)
    ensures RenderAll(a + b) == RenderAll(a) + RenderAll(b)
  {
  }

  /** The labels a block of lines declares, in order. */
  function Declared(ls: seq<Line>): (ns: seq<string>)
    ensures |ns| <= |ls|
  {
    if |ls| == 0 then []
    else (if ls[0].Code? && ls[0].instr.Declare? then [ls[0].instr.name] else []) + Declared(ls[1..])
  }

  lemma {:induction false} DeclaredAppend(a: seq<Line>, b: seq<Line>)
    ensures Declared(a + b) == Declared(a) + Declared(b)
    decreases |a|
  {
    if |a| > 0 {
      assert (a + b)[1..] == a[1..] + b;
      DeclaredAppend(a[1..], b);
    } else {
      assert a + b == b;
    }
  }

  /** A block declares a label exactly when one of its lines is that
      declaration. */
  lemma {:induction false} DeclaredMembership(ls: seq<Line>, name: string)
    ensures name in Declared(ls) <==> Code(Declare(name)) in ls
    decreases |ls|
  {
    if |ls| > 0 {
      DeclaredMembership(ls[1..], name);
      assert ls == [ls[0]] + ls[1..];
    }
  }

  lemma InstructionAppend(a: seq<Instr>, b: seq<Instr>)
    ensures Instruction(a + b) == Instruction(a) + Instruction(b)
  {
  }

  /** Code without label declarations declares nothing. */
  lemma {:induction false} NoDeclarations(code: seq<Instr>)
    requires forall k :: 0 <= k < |code| ==> !code[k].Declare?
    ensures Declared(Instruction(code)) == []
    decreases |code|
  {
    if |code| > 0 {
      assert Instruction(code)[1..] == Instruction(code[1..]);
      NoDeclarations(code[1..]);
    }
  }

  /** The instructions of a block of lines, in order: what is left once the
      assembler's reader drops the comment and blank lines. */
  function CodeOf(ls: seq<Line>): (r: seq<Instr>)
    ensures |r| <= |ls|
  {
    if |ls| == 0 then []
    else (if ls[0].Code? then [ls[0].instr] else []) + CodeOf(ls[1..])
  }

  lemma {:induction false} CodeOfAppend(a: seq<Line>, b: seq<Line>)
    ensures CodeOf(a + b) == CodeOf(a) + CodeOf(b)
    decreases |a|
  {
    if |a| > 0 {
      assert (a + b)[1..] == a[1..] + b;
      CodeOfAppend(a[1..], b);
    } else {
      assert a + b == b;
    }
  }

  /** `_write_instruction` loses no instruction and adds none. */
  lemma {:induction false} CodeOfInstruction(code: seq<Instr>)
    ensures CodeOf(Instruction(code)) == code
    decreases |code|
  {
    if |code| > 0 {
      assert Instruction(code)[1..] == Instruction(code[1..]);
      CodeOfInstruction(code[1..]);
    }
  }

  /** A comment, code and a blank line: the shape of every command's block. */
  lemma CodeOfWrapped(comment: string, code: seq<Instr>)
    ensures CodeOf([Comment(comment)] + Instruction(code) + [Blank]) == code
  {
    CodeOfAppend([Comment(comment)] + Instruction(code), [Blank]);
    CodeOfAppend([Comment(comment)], Instruction(code));
    CodeOfInstruction(code);
    assert CodeOf([Comment(comment)]) == [];
    assert CodeOf([Blank]) == [];
  }

  /** A single declaration declares its label. */
  lemma DeclaredOne(name: string)
    ensures Declared(Instruction([Declare(name)])) == [name]
  {
    assert Instruction([Declare(name)]) == [Code(Declare(name))];
    assert Instruction([Declare(name)])[1..] == [];
  }
}
