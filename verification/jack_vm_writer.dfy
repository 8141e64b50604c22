/** The Jack compiler's VM command formatters
    (11-compiler-code-generation/vm_writer.py): each returns a one-line list
    holding one command of the VM language, its words separated by single
    spaces. The partner of every formatter is the VM translator's command
    reader (08-vm-program-control/parser.py), which reads the line back. */
module JackVmWriter {
  import opened Wrappers
  import opened Text
  import VmParser
  import CommandSymbols

  /** A word the reader's `split()` keeps whole. */
  predicate IsWord(s: string) {
    |s| > 0 && NoSpace(s)
  }

  /** One command line: the words joined by single spaces; the words of a
      command come back out of `split()` unchanged. */
  function Command(ws: seq<string>): (r: seq<string>)
    ensures |r| == 1
    ensures (forall k :: 0 <= k < |ws| ==> IsWord(ws[k])) ==> Split(r[0]) == ws
  {
    WordsSplitBack(ws);
    [JoinSpace(ws)]
  }

  lemma WordsSplitBack(ws: seq<string>)
    ensures (forall k :: 0 <= k < |ws| ==> IsWord(ws[k])) ==> Split(JoinSpace(ws)) == ws
  {
    if forall k :: 0 <= k < |ws| ==> IsWord(ws[k]) {
      SplitJoin(ws);
    }
  }

  /** `str(n)` of an int is a word. */
  lemma IntIsWord(n: int)
    ensures IsWord(IntToString(n))
  {
    var d := NatToString(if n >= 0 then n else -n);
    assert IsDigits(d);
    assert forall i :: 0 <= i < |d| ==> !IsSpace(d[i]);
  }

  /** `write_push`: `push <segment> <index>`. */
  function WritePush(segment: string, index: int): (r: seq<string>)
    ensures |r| == 1
    ensures IsWord(segment) ==> Split(r[0]) == ["push", segment, IntToString(index)]
  {
    IntIsWord(index);
    Command(["push", segment, IntToString(index)])
  }

  /** `write_pop`: `pop <segment> <index>`. */
  function WritePop(segment: string, index: int): (r: seq<string>)
    ensures |r| == 1
    ensures IsWord(segment) ==> Split(r[0]) == ["pop", segment, IntToString(index)]
  {
    IntIsWord(index);
    Command(["pop", segment, IntToString(index)])
  }

  /** `write_operator`: the mnemonic alone, unchanged. */
  function WriteOperator(command: string): (r: seq<string>)
    ensures |r| == 1
    ensures IsWord(command) ==> Split(r[0]) == [command]
  {
    Command([command])
  }

  /** `write_label`: `label <labelName>`. */
  function WriteLabel(labelName: string): (r: seq<string>)
    ensures |r| == 1
    ensures IsWord(labelName) ==> Split(r[0]) == ["label", labelName]
  {
    Command(["label", labelName])
  }

  /** `write_goto`: `goto <labelName>`. */
  function WriteGoto(labelName: string): (r: seq<string>)
    ensures |r| == 1
    ensures IsWord(labelName) ==> Split(r[0]) == ["goto", labelName]
  {
    Command(["goto", labelName])
  }

  /** `write_if`: `if-goto <labelName>`. */
  function WriteIf(labelName: string): (r: seq<string>)
    ensures |r| == 1
    ensures IsWord(labelName) ==> Split(r[0]) == ["if-goto", labelName]
  {
    Command(["if-goto", labelName])
  }

  /** `write_call`: `call <name> <nArgs>`. */
  function WriteCall(name: string, nArgs: int): (r: seq<string>)
    ensures |r| == 1
    ensures IsWord(name) ==> Split(r[0]) == ["call", name, IntToString(nArgs)]
  {
    IntIsWord(nArgs);
    Command(["call", name, IntToString(nArgs)])
  }

  /** `write_function`: `function <name> <nLocals>`. */
  function WriteFunction(name: string, nLocals: int): (r: seq<string>)
    ensures |r| == 1
    ensures IsWord(name) ==> Split(r[0]) == ["function", name, IntToString(nLocals)]
  {
    IntIsWord(nLocals);
    assert IsWord("function");
    Command(["function", name, IntToString(nLocals)])
  }

  /** `write_return`: `return`. */
  function WriteReturn(): (r: seq<string>)
    ensures |r| == 1 && Split(r[0]) == ["return"]
  {
    assert IsWord("return");
    WriteOperator("return")
  }

  // Reading the lines back with the VM translator's command reader.

  /** Lower-casing leaves a word without upper-case letters alone. */
  lemma LowerOfLower(s: string)
    requires forall i :: 0 <= i < |s| ==> !IsUpperAscii(s[i])
    ensures Lower(s) == s
  {
  }

  /** A command's first word, lower-cased, and how the reader classifies
      it. */
  function Kind(line: string): Option<VmParser.CommandType> {
    var (c, _, _) := VmParser.ParseCommand(line);
    if c.Some? then VmParser.TypeOf(c.value) else None
  }

  /** A non-negative count or index reads back as the same number. */
  predicate ReadsAsNumber(a: Option<string>, n: int) {
    a.Some? && IsDigits(a.value) && DigitsValue(a.value) == n
  }

  lemma NumberReadsBack(n: nat)
    ensures ReadsAsNumber(Some(Lower(NatToString(n))), n)
  {
    var d := NatToString(n);
    assert forall i :: 0 <= i < |d| ==> IsDigit(d[i]) && !IsUpperAscii(d[i]);
    LowerOfLower(d);
    NatToStringValue(n);
  }

  /** `push`/`pop` read back as push/pop commands on the lower-cased
      segment, with the same index. */
  lemma PushPopReadBack(segment: string, index: nat)
    requires IsWord(segment)
    ensures Kind(WritePush(segment, index)[0]) == Some(VmParser.CPush)
    ensures Kind(WritePop(segment, index)[0]) == Some(VmParser.CPop)
    ensures VmParser.ParseCommand(WritePush(segment, index)[0]).1 == Some(Lower(segment))
    ensures VmParser.ParseCommand(WritePop(segment, index)[0]).1 == Some(Lower(segment))
    ensures ReadsAsNumber(VmParser.ParseCommand(WritePush(segment, index)[0]).2, index)
    ensures ReadsAsNumber(VmParser.ParseCommand(WritePop(segment, index)[0]).2, index)
  {
    LowerOfLower("push");
    LowerOfLower("pop");
    NumberReadsBack(index);
  }

  /** `label`, `goto` and `if-goto` read back as their own kinds, with the
      lower-cased label and nothing after it. */
  lemma BranchesReadBack(labelName: string)
    requires IsWord(labelName)
    ensures Kind(WriteLabel(labelName)[0]) == Some(VmParser.CLabel)
    ensures Kind(WriteGoto(labelName)[0]) == Some(VmParser.CGoto)
    ensures Kind(WriteIf(labelName)[0]) == Some(VmParser.CIf)
    ensures VmParser.ParseCommand(WriteLabel(labelName)[0]) == (Some("label"), Some(Lower(labelName)), None)
    ensures VmParser.ParseCommand(WriteGoto(labelName)[0]) == (Some("goto"), Some(Lower(labelName)), None)
    ensures VmParser.ParseCommand(WriteIf(labelName)[0]) == (Some("if-goto"), Some(Lower(labelName)), None)
  {
    LowerOfLower("label");
    LowerOfLower("goto");
    LowerOfLower("if-goto");
  }

  /** `call` and `function` read back as their own kinds, with the
      lower-cased name and the same count. */
  lemma CallFunctionReadBack(name: string, n: nat)
    requires IsWord(name)
    ensures Kind(WriteCall(name, n)[0]) == Some(VmParser.CCall)
    ensures Kind(WriteFunction(name, n)[0]) == Some(VmParser.CFunction)
    ensures VmParser.ParseCommand(WriteCall(name, n)[0]).1 == Some(Lower(name))
    ensures VmParser.ParseCommand(WriteFunction(name, n)[0]).1 == Some(Lower(name))
    ensures ReadsAsNumber(VmParser.ParseCommand(WriteCall(name, n)[0]).2, n)
    ensures ReadsAsNumber(VmParser.ParseCommand(WriteFunction(name, n)[0]).2, n)
  {
    LowerOfLower("call");
    LowerOfLower("function");
    NumberReadsBack(n);
  }

  /** An operator reads back as an arithmetic command exactly when its
      lower-cased mnemonic is one of the nine; `return` reads back as
      `return`. */
  lemma OperatorReturnReadBack(command: string)
    requires IsWord(command)
    ensures Kind(WriteOperator(command)[0]) == Some(VmParser.CArithmetic)
            <==> Lower(command) in ["add", "sub", "and", "or", "not", "neg", "eq", "gt", "lt"]
    ensures VmParser.ParseCommand(WriteOperator(command)[0]) == (Some(Lower(command)), None, None)
    ensures Kind(WriteReturn()[0]) == Some(VmParser.CReturn)
  {
    CommandSymbols.AllCommandsDistinct();
    assert VmParser.ParseCommand(WriteOperator(command)[0]).0 == Some(Lower(command));
    LowerOfLower("return");
  }
}
