/** The Hack assembler (06-assembler/assembler.py): a first pass binds the
    labels, a second pass translates every A- and C-instruction into a
    16-character word of `0`s and `1`s, allocating RAM for variables as they
    appear. */
module HackAssembler {
  import opened Wrappers
  import opened Text
  import LineReader
  import HackCode
  import HackParser
  import HackSymbols

  type SymbolTable = HackSymbols.SymbolTable

  /** `AssemblerError` for a constant wider than 15 bits, and the parser's
      errors passed through. */
  datatype AssemblerError = ConstantTooLarge(constant: nat) | Parse(error: HackParser.ParserError)

  /** `_get_filename`: a trailing case-insensitive `.asm` becomes `.hack`;
      otherwise `.hack` is appended unless the name already ends with it. */
  function OutputName(asmFile: string): (r: string)
    ensures EndsWith(r, ".hack")
  {
    RewriteExtension(asmFile, "asm", ".hack")
  }

  /** `Prog.asm` is written to `Prog.hack`, whatever the case of `asm`. */
  lemma OutputNameOfAsm(stem: string, e: string)
    requires Lower(e) == "asm"
    ensures OutputName(stem + "." + e) == stem + ".hack"
  {
    RewriteExtensionReplaces(stem, e, "asm", ".hack");
  }

  /** The number a string of binary digits stands for, most significant
      first. */
  function BitsValue(s: string): nat
    requires HackCode.IsBits(s)
  {
    if |s| == 0 then 0
    else 2 * BitsValue(s[..|s| - 1]) + (if s[|s| - 1] == '1' then 1 else 0)
  }

  function Pow2(k: nat): nat {
    if k == 0 then 1 else 2 * Pow2(k - 1)
  }

  /** `_convert_decimal_to_binary`: prepend `num % 2` and halve until zero.
      The source halves with `/=`, which under Python 3 yields a float: the
      loop stops only once repeated halving underflows to `0.0`, having
      prepended fractional remainders, so only the constant 0 comes out as
      intended. The model halves with integer division, as the loop evidently
      means to. Zero is written `0`. */
  function ToBinary(n: nat): (r: string)
    ensures |r| > 0 && HackCode.IsBits(r) && BitsValue(r) == n
    ensures |r| > 1 ==> r[0] == '1'
    ensures n < Pow2(|r|) && (|r| > 1 ==> Pow2(|r| - 1) <= n)
    decreases n
  {
    var digit := if n % 2 == 1 then "1" else "0";
    if n / 2 == 0 then digit
    else
      var r := ToBinary(n / 2) + digit;
      assert r[..|r| - 1] == ToBinary(n / 2);
      r
  }

  /** The binary form of `n` fits in `k` digits exactly when `n < 2^k`. */
  lemma BinaryWidth(n: nat, k: nat)
    requires k >= 1
    ensures |ToBinary(n)| <= k <==> n < Pow2(k)
  {
    var r := ToBinary(n);
    if |r| <= k {
      Pow2Monotone(|r|, k);
    } else {
      Pow2Monotone(k, |r| - 1);
    }
  }

  lemma {:induction false} Pow2Monotone(i: nat, j: nat)
    requires i <= j
    ensures Pow2(i) <= Pow2(j)
    decreases j
  {
    if i < j {
      Pow2Monotone(i, j - 1);
    }
  }

  function Zeros(k: nat): (z: string)
    ensures |z| == k && HackCode.IsBits(z) && BitsValue(z) == 0
  {
    var z := seq(k, _ => '0');
    AllZero(z);
    z
  }

  /** A string of `0`s stands for zero. */
  lemma {:induction false} AllZero(z: string)
    requires forall i :: 0 <= i < |z| ==> z[i] == '0'
    ensures HackCode.IsBits(z) && BitsValue(z) == 0
    decreases |z|
  {
    if |z| > 0 {
      AllZero(z[..|z| - 1]);
    }
  }

  /** Leading zeros do not change the value. */
  lemma {:induction false} LeadingZeros(k: nat, b: string)
    requires HackCode.IsBits(b)
    ensures HackCode.IsBits(Zeros(k) + b) && BitsValue(Zeros(k) + b) == BitsValue(b)
    decreases |b|
  {
    var s := Zeros(k) + b;
    if |b| == 0 {
      assert s == Zeros(k);
    } else {
      assert s[..|s| - 1] == Zeros(k) + b[..|b| - 1];
      LeadingZeros(k, b[..|b| - 1]);
    }
  }

  /** `_get_a_constant`: a `0` and the value's binary digits, padded to 15
      with leading zeros; a value whose digits do not fit raises. */
  function AConstant(n: nat): (r: Result<string, AssemblerError>)
    ensures r.Ok? <==> n < 0x8000
    ensures r.Err? ==> r.error == ConstantTooLarge(n)
    ensures r.Ok? ==> |r.value| == 16 && HackCode.IsBits(r.value) && r.value[0] == '0' && BitsValue(r.value) == n
  {
    var b := ToBinary(n);
    FifteenBits(n);
    if |b| > 15 then Err(ConstantTooLarge(n))
    else
      PaddedWord(b);
      Ok("0" + (Zeros(15 - |b|) + b))
  }

  lemma FifteenBits(n: nat)
    ensures |ToBinary(n)| <= 15 <==> n < 0x8000
  {
    BinaryWidth(n, 15);
    assert Pow2(15) == 0x8000 by {
      assert Pow2(5) == 32;
      assert Pow2(10) == 32 * 32 by { Pow2Add(5, 5); }
      Pow2Add(10, 5);
    }
  }

  lemma {:induction false} Pow2Add(i: nat, j: nat)
    ensures Pow2(i + j) == Pow2(i) * Pow2(j)
    decreases j
  {
    if j > 0 {
      Pow2Add(i, j - 1);
    }
  }

  /** The padded word of a binary string of at most 15 digits. */
  lemma PaddedWord(b: string)
    requires HackCode.IsBits(b) && |b| <= 15
    ensures var w := "0" + (Zeros(15 - |b|) + b);
      |w| == 16 && HackCode.IsBits(w) && w[0] == '0' && BitsValue(w) == BitsValue(b)
  {
    PadShift(15 - |b|, b);
    LeadingZeros(16 - |b|, b);
  }

  lemma PadShift(k: nat, b: string)
    ensures "0" + (Zeros(k) + b) == Zeros(k + 1) + b
  {
    ZerosShift(k);
    Associative("0", Zeros(k), b);
  }

  lemma Associative(a: string, z: string, b: string)
    ensures a + (z + b) == (a + z) + b
  {
  }

  lemma ZerosShift(k: nat)
    ensures Zeros(k + 1) == "0" + Zeros(k)
  {
  }

  /** `_build_a_command`: a symbol of digits is a constant; any other is
      looked up, and bound to the next free RAM address if it is new. */
  function ACommand(t: SymbolTable, command: string): (r: Result<(SymbolTable, string), AssemblerError>)
    ensures r.Ok? ==> |r.value.1| == 16 && HackCode.IsBits(r.value.1) && r.value.1[0] == '0'
    ensures HackParser.Symbol(command).Err? ==> r == Err(Parse(HackParser.Symbol(command).error))
    ensures HackParser.Symbol(command).Ok? && IsDigits(HackParser.Symbol(command).value) ==>
      var n := DigitsValue(HackParser.Symbol(command).value);
      (r.Ok? <==> n < 0x8000) && (r.Ok? ==> r.value.0 == t && BitsValue(r.value.1) == n)
    ensures HackParser.Symbol(command).Ok? && !IsDigits(HackParser.Symbol(command).value) ==>
      var symbol := HackParser.Symbol(command).value;
      var t' := if symbol in t.addresses then t else HackSymbols.AddVariable(t, symbol);
      (r.Ok? <==> t'.addresses[symbol] < 0x8000) && (r.Ok? ==> r.value.0 == t' && BitsValue(r.value.1) == t'.addresses[symbol])
  {
    match HackParser.Symbol(command)
    case Err(e) => Err(Parse(e))
    case Ok(symbol) =>
      if IsDigits(symbol) then
        var word :- AConstant(DigitsValue(symbol));
        Ok((t, word))
      else
        var t' := if HackSymbols.Contains(t, symbol) then t else HackSymbols.AddVariable(t, symbol);
        var word :- AConstant(HackSymbols.GetAddress(t', symbol));
        Ok((t', word))
  }

  /** `_build_c_command`: `111` followed by the comp, dest and jump codes. */
  function CCommand(command: string): (r: Result<string, AssemblerError>)
    ensures r.Ok? <==> HackParser.Fields(command).Ok?
    ensures r.Err? ==> r.error == Parse(HackParser.Fields(command).error)
    ensures r.Ok? ==>
      var f := HackParser.SplitC(command);
      |r.value| == 16 && HackCode.IsBits(r.value) && r.value[..3] == "111"
      && r.value[3..10] == HackCode.Comp(f.comp)
      && r.value[10..13] == HackCode.Dest(f.dest)
      && r.value[13..] == HackCode.Jump(f.jump)
  {
    match HackParser.Fields(command)
    case Err(e) => Err(Parse(e))
    case Ok(f) =>
      var comp, dest, jump := HackCode.Comp(f.comp), HackCode.Dest(f.dest), HackCode.Jump(f.jump);
      WordFields(comp, dest, jump);
      Ok("111" + comp + dest + jump)
  }

  /** A C-instruction word read back field by field. */
  lemma WordFields(comp: string, dest: string, jump: string)
    requires |comp| == 7 && |dest| == 3 && |jump| == 3
    requires HackCode.IsBits(comp) && HackCode.IsBits(dest) && HackCode.IsBits(jump)
    ensures var w := "111" + comp + dest + jump;
      |w| == 16 && HackCode.IsBits(w) && w[..3] == "111" && w[3..10] == comp
      && w[10..13] == dest && w[13..] == jump
  {
    var w := "111" + comp + dest + jump;
    assert w[..3] == "111";
  }

  predicate IsWord(w: string) {
    |w| == 16 && HackCode.IsBits(w)
  }

  /** `_assemble` from a given state onward: labels are skipped, and every
      other command is translated in order. */
  /** One command of the second pass: a label emits nothing, an A- or
      C-instruction one word. */
  function Step(t: SymbolTable, command: string): (r: Result<(SymbolTable, seq<string>), AssemblerError>)
    ensures r.Ok? ==> |r.value.1| == (if HackParser.TypeOf(command) == HackParser.LCommand then 0 else 1)
    ensures r.Ok? ==> forall k :: 0 <= k < |r.value.1| ==> IsWord(r.value.1[k])
    ensures r.Ok? ==> r.value.0.nextVariable >= t.nextVariable
    ensures r.Ok? ==> forall s :: s in t.addresses ==> s in r.value.0.addresses && r.value.0.addresses[s] == t.addresses[s]
  {
    match HackParser.TypeOf(command)
    case LCommand => Ok((t, []))
    case ACommand =>
      var (t1, word) :- ACommand(t, command);
      Ok((t1, [word]))
    case CCommand =>
      var word :- CCommand(command);
      Ok((t, [word]))
  }

  /** The loop of `_assemble` from a given symbol table: every command in
      turn, the words in order. */
  function SecondPass(t: SymbolTable, commands: seq<string>): (r: Result<(SymbolTable, seq<string>), AssemblerError>)
    ensures r.Ok? ==> |r.value.1| == HackSymbols.InstructionCount(commands)
    ensures r.Ok? ==> forall k :: 0 <= k < |r.value.1| ==> IsWord(r.value.1[k])
    ensures r.Ok? ==> r.value.0.nextVariable >= t.nextVariable
    ensures r.Ok? ==> forall s :: s in t.addresses ==> s in r.value.0.addresses && r.value.0.addresses[s] == t.addresses[s]
    decreases |commands|
  {
    if |commands| == 0 then Ok((t, []))
    else
      var (t1, word) :- Step(t, commands[0]);
      var (t2, words) :- SecondPass(t1, commands[1..]);
      Ok((t2, word + words))
  }

  /** The two passes over a file's commands: bind the labels, then
      translate every instruction. */
  function AssembleCommands(commands: seq<string>): (r: Result<seq<string>, AssemblerError>)
    ensures r.Ok? ==> |r.value| == HackSymbols.InstructionCount(commands)
    ensures r.Ok? ==> forall k :: 0 <= k < |r.value| ==> IsWord(r.value[k])
  {
    var t :- match HackSymbols.Build(commands)
      case Err(e) => Err(Parse(e))
      case Ok(t) => Ok(t);
    var (_, words) :- SecondPass(t, commands);
    Ok(words)
  }

  /** The whole assembler on the lines of one file: the first pass over the
      commands the reader delivers, a rewind, and the second pass over the
      same commands. */
  function Assemble(lines: seq<string>): (r: Result<seq<string>, AssemblerError>)
    ensures r == AssembleCommands(LineReader.Commands(lines))
  {
    var p := HackParser.Open(lines);
    AssembleCommands(HackParser.Pending(HackParser.Reset(p.lines, p.command)))
  }

  /** The second pass over two stretches of commands is the pass over the
      first followed by the pass over the second from the state it leaves. */
  lemma {:induction false} SecondPassSplit(t: SymbolTable, a: seq<string>, b: seq<string>)
    requires SecondPass(t, a + b).Ok?
    ensures SecondPass(t, a).Ok?
    ensures SecondPass(SecondPass(t, a).value.0, b).Ok?
    ensures SecondPass(t, a + b).value.1 == SecondPass(t, a).value.1 + SecondPass(SecondPass(t, a).value.0, b).value.1
    decreases |a|
  {
    if |a| == 0 {
      assert a + b == b;
    } else {
      assert (a + b)[0] == a[0] && (a + b)[1..] == a[1..] + b;
      var step := Step(t, a[0]).value;
      SecondPassSplit(step.0, a[1..], b);
      var p := SecondPass(step.0, a[1..]).value;
      var q := SecondPass(p.0, b).value;
      assert SecondPass(t, a).value == (p.0, step.1 + p.1);
      assert SecondPass(t, a + b).value.1 == step.1 + (p.1 + q.1);
      Regroup(step.1, p.1, q.1);
    }
  }

  lemma Regroup(x: seq<string>, y: seq<string>, z: seq<string>)
    ensures (x + y) + z == x + (y + z)
  {
  }

  /** The assembler is the first pass followed by the second. */
  lemma AssembleIsPasses(commands: seq<string>)
    requires AssembleCommands(commands).Ok?
    ensures HackSymbols.Build(commands).Ok? && SecondPass(HackSymbols.Build(commands).value, commands).Ok?
    ensures AssembleCommands(commands).value == SecondPass(HackSymbols.Build(commands).value, commands).value.1
  {
  }

  /** An `@name` reference for a symbol the table already holds assembles,
      at its position in the output, to the symbol's address. */
  lemma ReferenceResolves(t: SymbolTable, before: seq<string>, name: string, after: seq<string>)
    requires |name| > 0 && HackParser.SymbolChars(name) && !IsDigits(name)
    requires name in t.addresses
    requires SecondPass(t, before + ["@" + name] + after).Ok?
    ensures var words := SecondPass(t, before + ["@" + name] + after).value.1;
      HackSymbols.InstructionCount(before) < |words|
      && BitsValue(words[HackSymbols.InstructionCount(before)]) == t.addresses[name]
  {
    var c := "@" + name;
    Regroup(before, [c], after);
    SecondPassSplit(t, before, [c] + after);
    var tb := SecondPass(t, before).value.0;
    ReferenceFirst(tb, name, after);
  }

  /** The word for a leading `@name` reference. */
  lemma ReferenceFirst(t: SymbolTable, name: string, after: seq<string>)
    requires |name| > 0 && HackParser.SymbolChars(name) && !IsDigits(name)
    requires name in t.addresses
    requires SecondPass(t, ["@" + name] + after).Ok?
    ensures var words := SecondPass(t, ["@" + name] + after).value.1;
      0 < |words| && BitsValue(words[0]) == t.addresses[name]
  {
    var c := "@" + name;
    var rest := [c] + after;
    assert rest[0] == c && rest[1..] == after;
    HackParser.SymbolOfAddress(name);
    assert HackParser.TypeOf(c) == HackParser.ACommand;
    var word := ACommand(t, c).value.1;
    assert Step(t, c) == Ok((t, [word]));
  }

  /** A reference `@name` to a label declared as `(name)` assembles to the
      ROM address the label was bound to: the number of instructions before
      its declaration. */
  lemma LabelResolves(commands: seq<string>, pre: seq<string>, name: string, post: seq<string>,
                      before: seq<string>, after: seq<string>)
    requires |name| > 0 && HackParser.SymbolChars(name) && !IsDigits(name)
    requires commands == pre + ["(" + name + ")"] + post
    requires commands == before + ["@" + name] + after
    requires name !in HackSymbols.Labels(post)
    requires AssembleCommands(commands).Ok?
    ensures var words := AssembleCommands(commands).value;
      HackSymbols.InstructionCount(before) < |words|
      && BitsValue(words[HackSymbols.InstructionCount(before)]) == HackSymbols.InstructionCount(pre)
  {
    AssembleIsPasses(commands);
    HackSymbols.LabelBound(commands, pre, name, post);
    ReferenceResolves(HackSymbols.Build(commands).value, before, name, after);
  }

  /** A C-instruction the code tables reject stops the second pass: nothing
      after it is assembled and the pass fails. */
  lemma {:induction false} SecondPassStops(t: SymbolTable, commands: seq<string>, k: nat)
    requires k < |commands|
    requires HackParser.TypeOf(commands[k]) == HackParser.CCommand && CCommand(commands[k]).Err?
    ensures SecondPass(t, commands).Err?
    decreases k
  {
    if k == 0 {
      StepRejects(t, commands[0]);
    } else {
      var step := Step(t, commands[0]);
      if step.Ok? {
        assert commands[1..][k - 1] == commands[k];
        SecondPassStops(step.value.0, commands[1..], k - 1);
      }
    }
  }

  lemma StepRejects(t: SymbolTable, command: string)
    requires HackParser.TypeOf(command) == HackParser.CCommand && CCommand(command).Err?
    ensures Step(t, command) == Err(CCommand(command).error)
  {
  }

  /** So does the whole assembler: one rejected C-instruction anywhere in the
      file makes the result an error. The source has by then opened the
      `.hack` file and written the words before that instruction, so it
      leaves a partial file behind; the model returns no words at all. */
  lemma AssembleRejects(commands: seq<string>, k: nat)
    requires k < |commands|
    requires HackParser.TypeOf(commands[k]) == HackParser.CCommand && CCommand(commands[k]).Err?
    ensures AssembleCommands(commands).Err?
  {
    if HackSymbols.Build(commands).Ok? {
      SecondPassStops(HackSymbols.Build(commands).value, commands, k);
    }
  }
}
