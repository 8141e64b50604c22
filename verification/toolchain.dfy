/** The VM translator's output read by the repository's own assembler: each
    line a VM code writer writes (08-vm-program-control/code_writer.py) is
    read back the way the Hack assembler's reader cleans it
    (06-assembler/parser.py) and assembled by its code tables
    (06-assembler/code.py).

    The writers spell three binary ALU operations and two address
    computations with their operands swapped (`A+D`, `A&D`, `A|D`, `M+D`);
    the assembler's `comp` table only lists `D+A`, `D&A`, `D|A` and `D+M`,
    so it rejects every file that holds one of them. */
module Toolchain {
  import opened Wrappers
  import opened Text
  import opened AsmLines
  import LineReader
  import HackCode
  import HackParser
  import HackAssembler
  import VmEmit
  import CommandSymbols

  /** The lines of the `.asm` file, as `readline` returns them. */
  function Written(ls: seq<Line>): (r: seq<string>)
    ensures |r| == |ls|
    ensures forall k :: 0 <= k < |ls| ==> r[k] == Render(ls[k]) + "\n"
  {
    seq(|ls|, k requires 0 <= k < |ls| => Render(ls[k]) + "\n")
  }

  /** What the assembler's reader makes of one written line. */
  function ReadBack(l: Line): string {
    LineReader.Clean(Render(l) + "\n")
  }

  /** Text without a slash or whitespace: a mnemonic, a symbol or a number. */
  predicate Plain(s: string) {
    '/' !in s && NoSpace(s)
  }

  /** Text that can stand before the `=` of a C-instruction and be read as
      its `dest`: it cannot be mistaken for an A-instruction or a label. */
  predicate DestLike(d: string) {
    |d| > 0 && Plain(d) && '=' !in d && d[0] != '@' && d[0] != '('
  }

  /** An instruction line reads back as the instruction text the writer
      passed to `_write_instruction`: the indentation and the newline go. */
  lemma ReadBackIndented(text: string)
    requires |text| > 0 && Plain(text)
    ensures LineReader.Clean(Indent(text) + "\n") == text
  {
    var pad := if StartsWith(text, "(") then "" else "    ";
    assert Indent(text) == pad + text;
    LineReader.CleanIndented(pad, text);
  }

  lemma ReadBackInstruction(i: Instr)
    requires |InstrText(i)| > 0 && Plain(InstrText(i))
    ensures ReadBack(Code(i)) == InstrText(i)
  {
    ReadBackIndented(InstrText(i));
  }

  /** A `dest=comp` line reads back as a C-instruction with exactly those
      fields and no jump. */
  lemma AssignFields(d: string, c: string)
    requires DestLike(d)
    requires |c| > 0 && Plain(c) && ';' !in c
    ensures ReadBack(Code(Assign(d, c))) == d + "=" + c
    ensures HackParser.TypeOf(d + "=" + c) == HackParser.CCommand
    ensures HackParser.SplitC(d + "=" + c) == HackParser.CFields(Some(d), c, None)
  {
    AssignReadBack(d, c);
    assert (d + "=" + c)[0] == d[0];
    AssignSplit(d, c);
  }

  lemma AssignReadBack(d: string, c: string)
    requires DestLike(d)
    requires |c| > 0 && Plain(c)
    ensures ReadBack(Code(Assign(d, c))) == d + "=" + c
  {
    PlainJoin(d, c);
    ReadBackInstruction(Assign(d, c));
  }

  lemma AssignSplit(d: string, c: string)
    requires '=' !in d && ';' !in c
    ensures HackParser.SplitC(d + "=" + c) == HackParser.CFields(Some(d), c, None)
  {
    var f := HackParser.CFields(Some(d), c, None);
    assert HackParser.JumpText(c, None) == c;
    assert HackParser.CText(f) == d + "=" + c;
    HackParser.SplitCText(f);
  }

  lemma PlainJoin(d: string, c: string)
    requires Plain(d) && Plain(c)
    ensures Plain(d + "=" + c)
  {
    var text := d + "=" + c;
    forall j | 0 <= j < |text| ensures text[j] != '/' && !IsSpace(text[j]) {
      if j < |d| { assert text[j] == d[j]; }
      else if j > |d| { assert text[j] == c[j - |d| - 1]; }
    }
  }

  /** Text made of printable ASCII characters other than `/`. */
  lemma PrintablePlain(s: string)
    requires forall i :: 0 <= i < |s| ==> 0x21 <= s[i] as int <= 0x7e && s[i] != '/'
    ensures Plain(s)
  {
  }

  lemma SwappedSpellingPlain(c: string)
    requires c in ["A+D", "A&D", "A|D", "M+D"]
    ensures |c| == 3 && Plain(c) && ';' !in c
  {
    PrintablePlain(c);
  }

  /** The assembler rejects a `dest=comp` line whose comp is one of the
      writers' swapped spellings, whatever the destination: `comp` is the
      first field it looks up. */
  lemma SwappedCompRejected(d: string, c: string)
    requires DestLike(d)
    requires c in ["A+D", "A&D", "A|D", "M+D"]
    ensures HackAssembler.CCommand(ReadBack(Code(Assign(d, c))))
         == Err(HackAssembler.Parse(HackParser.InvalidMnemonic(HackParser.CompField)))
  {
    HackCode.CommutedSpellingsRejected(c);
    SwappedSpellingPlain(c);
    AssignFields(d, c);
  }

  /** A `dest=comp` line with fields from the tables assembles to `111`, the
      comp bits, the dest bits and a zero jump. */
  lemma TableAssignAccepted(d: string, c: string)
    requires DestLike(d) && Some(d) in HackCode.DestTable
    requires |c| > 0 && Plain(c) && ';' !in c && c in HackCode.CompTable
    ensures HackAssembler.CCommand(ReadBack(Code(Assign(d, c))))
         == Ok("111" + HackCode.Comp(c) + HackCode.Dest(Some(d)) + "000")
  {
    AssignFields(d, c);
    var w := HackAssembler.CCommand(d + "=" + c).value;
    assert HackParser.Fields(d + "=" + c).Ok?;
    HackCode.NoJump();
    Reassemble(w, "111", HackCode.Comp(c), HackCode.Dest(Some(d)), "000");
  }

  lemma Reassemble(w: string, a: string, b: string, c: string, e: string)
    requires |a| == 3 && |b| == 7 && |c| == 3 && |w| == 16
    requires w[..3] == a && w[3..10] == b && w[10..13] == c && w[13..] == e
    ensures w == a + b + c + e
  {
  }

  /** A file with a rejected C-instruction line anywhere in it does not
      assemble. */
  lemma FileRejected(lines: seq<string>, k: nat)
    requires k < |lines|
    requires LineReader.Clean(lines[k]) != ""
    requires HackParser.TypeOf(LineReader.Clean(lines[k])) == HackParser.CCommand
    requires HackAssembler.CCommand(LineReader.Clean(lines[k])).Err?
    ensures HackAssembler.Assemble(lines).Err?
  {
    LineReader.CommandsInclude(lines, k);
    var commands := LineReader.Commands(lines);
    var j :| 0 <= j < |commands| && commands[j] == LineReader.Clean(lines[k]);
    HackAssembler.AssembleRejects(commands, j);
  }

  /** The code for `add`, `and` and `or` computes `D=A+D`, `D=A&D` or
      `D=A|D` on its eighth line, after the comment and two pops. */
  lemma BinaryComputeLine(n: nat, command: string)
    requires command in ["add", "and", "or"]
    ensures VmEmit.WriteCommand(n, command).Ok?
    ensures var out := VmEmit.WriteCommand(n, command).value.1;
      |out| > 7 && out[7] == Code(Assign("D", "A" + CommandSymbols.Symbol(CommandSymbols.BinaryCompute, command).value + "D"))
      && "A" + CommandSymbols.Symbol(CommandSymbols.BinaryCompute, command).value + "D" in ["A+D", "A&D", "A|D"]
  {
    var cat := CommandSymbols.BinaryCompute;
    assert CommandSymbols.TypeCommands(cat) == ["add", "sub", "and", "or"];
    CommandSymbols.ClassifyExact(command, cat);
    SwappedSymbol(command);
    var symbol := CommandSymbols.Symbol(cat, command).value;
    var body := VmEmit.BinaryCompute(symbol);
    assert body[6] == Assign("D", "A" + symbol + "D");
    var out := [Comment(command)] + Instruction(body) + [Blank];
    assert VmEmit.WriteCommand(n, command) == Ok((n, out));
    assert out[7] == Code(body[6]);
  }

  lemma SwappedSymbol(command: string)
    requires command in ["add", "and", "or"]
    ensures CommandSymbols.Symbol(CommandSymbols.BinaryCompute, command).Some?
    ensures "A" + CommandSymbols.Symbol(CommandSymbols.BinaryCompute, command).value + "D" in ["A+D", "A&D", "A|D"]
  {
    var es := CommandSymbols.Entries(CommandSymbols.BinaryCompute);
    if command == "add" {
      assert CommandSymbols.Lookup(es, command) == Some("+");
      assert "A" + "+" + "D" == "A+D";
    } else if command == "and" {
      assert CommandSymbols.Lookup(es, command) == Some("&");
      assert "A" + "&" + "D" == "A&D";
    } else {
      assert CommandSymbols.Lookup(es, command) == Some("|");
      assert "A" + "|" + "D" == "A|D";
    }
  }

  /** A written block with a swapped-spelling line anywhere in it makes the
      whole file unassemblable, whatever surrounds the block. */
  lemma BlockRejected(out: seq<Line>, k: nat, d: string, c: string, before: seq<string>, after: seq<string>)
    requires k < |out| && out[k] == Code(Assign(d, c))
    requires DestLike(d) && c in ["A+D", "A&D", "A|D", "M+D"]
    ensures HackAssembler.Assemble(before + Written(out) + after).Err?
  {
    var lines := before + Written(out) + after;
    var j := |before| + k;
    assert lines[j] == Written(out)[k];
    SwappedCompRejected(d, c);
    SwappedSpellingPlain(c);
    AssignFields(d, c);
    FileRejected(lines, j);
  }

  /** No `.asm` file holding the translation of an `add`, `and` or `or`
      assembles, whatever surrounds it. */
  lemma BinaryComputeDoesNotAssemble(n: nat, command: string, before: seq<string>, after: seq<string>)
    requires command in ["add", "and", "or"]
    ensures VmEmit.WriteCommand(n, command).Ok?
    ensures HackAssembler.Assemble(before + Written(VmEmit.WriteCommand(n, command).value.1) + after).Err?
  {
    BinaryComputeLine(n, command);
    var c := "A" + CommandSymbols.Symbol(CommandSymbols.BinaryCompute, command).value + "D";
    BlockRejected(VmEmit.WriteCommand(n, command).value.1, 7, "D", c, before, after);
  }

  /** The code for a push or pop on `local`, `argument`, `this`, `that`,
      `pointer` or `temp` forms the address with `M+D` or `A+D` on its fifth
      line. */
  lemma PushPopVariableLine(basename: Option<string>, command: string, segment: string, index: string)
    returns (out: seq<Line>)
    requires command == "push" || command == "pop"
    requires segment != "constant" && segment != "static" && VmEmit.IsVariableSegment(segment)
    ensures VmEmit.WritePushPop(basename, command, segment, index) == Ok(out)
    ensures |out| > 4 && out[4].Code? && out[4].instr.Assign?
      && out[4].instr.dest in ["A", "D"] && out[4].instr.comp in ["M+D", "A+D"]
  {
    out := VmEmit.WritePushPop(basename, command, segment, index).value;
  }

  /** No `.asm` file holding a push or pop on one of those segments
      assembles. */
  lemma PushPopVariableDoesNotAssemble(basename: Option<string>, command: string, segment: string, index: string,
                                       before: seq<string>, after: seq<string>)
    requires command == "push" || command == "pop"
    requires segment != "constant" && segment != "static" && VmEmit.IsVariableSegment(segment)
    ensures VmEmit.WritePushPop(basename, command, segment, index).Ok?
    ensures HackAssembler.Assemble(before + Written(VmEmit.WritePushPop(basename, command, segment, index).value) + after).Err?
  {
    var out := PushPopVariableLine(basename, command, segment, index);
    BlockRejected(out, 4, out[4].instr.dest, out[4].instr.comp, before, after);
  }

  /** The table's own spelling of each rejected operation — the operands
      swapped, `D+A`, `D&A`, `D|A` or `D+M` — assembles to the operation's
      code: the line the writers evidently meant to emit. */
  lemma CommutedSpellingAssembles(d: string, c: string)
    requires DestLike(d) && Some(d) in HackCode.DestTable
    requires c in ["A+D", "A&D", "A|D", "M+D"]
    ensures HackCode.Commute(c) in ["D+A", "D&A", "D|A", "D+M"]
    ensures HackAssembler.CCommand(ReadBack(Code(Assign(d, HackCode.Commute(c)))))
         == Ok("111" + HackCode.Comp(HackCode.Commute(c)) + HackCode.Dest(Some(d)) + "000")
  {
    HackCode.CommutedSpellingsRejected(c);
    var r := HackCode.Commute(c);
    assert r in ["D+A", "D&A", "D|A", "D+M"];
    PrintablePlain(r);
    TableAssignAccepted(d, r);
  }

  /** `sub`'s `D=A-D` is spelled the way the table lists it and assembles. */
  lemma SubtractionAssembles()
    ensures HackAssembler.CCommand(ReadBack(Code(Assign("D", "A-D"))))
         == Ok("111" + "0000111" + "010" + "000")
  {
    PrintablePlain("D");
    PrintablePlain("A-D");
    assert HackCode.Dest(Some("D")) == "010";
    assert HackCode.Comp("A-D") == "0000111";
    TableAssignAccepted("D", "A-D");
  }
}
