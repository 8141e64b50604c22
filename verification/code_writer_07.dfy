/** The stack-arithmetic VM code writer (07-vm-stack-arithmetic/code_writer.py):
    arithmetic, logic and push/pop only, no bootstrap, and the output file
    named after the whole input path. Its emission routines are those of
    `VmEmit`, which the program-control writer of stage 08 inherits
    unchanged. */
module CodeWriter07 {
  import opened Wrappers
  import opened Text
  import opened AsmLines
  import VmEmit
  import CommandSymbols

  datatype Writer = Writer(labelCount: nat, vmBasename: Option<string>)

  /** `_get_filename`: the input path with a trailing case-insensitive `.vm`
      replaced by `.asm`, or with `.asm` appended. */
  function OutputName(vmFile: string): (r: string)
    ensures EndsWith(r, ".asm")
  {
    RewriteExtension(vmFile, "vm", ".asm")
  }

  /** The constructor writes nothing: no bootstrap in stage 07. */
  function New(): (w: Writer)
    ensures w.labelCount == 0 && w.vmBasename.None?
  {
    Writer(0, None)
  }

  /** `set_filename`: the file's base name without a trailing `.vm`. */
  function SetFilename(w: Writer, vmFile: string): (w': Writer)
    ensures w'.labelCount == w.labelCount
    ensures w'.vmBasename == Some(SubExtension(Basename(vmFile), "vm", ""))
  {
    w.(vmBasename := Some(SubExtension(Basename(vmFile), "vm", "")))
  }

  function WriteCommand(w: Writer, command: string): (r: Result<(Writer, seq<Line>), VmEmit.CodeWriterError>)
    ensures r.Ok? <==> VmEmit.WriteCommand(w.labelCount, command).Ok?
    ensures r.Ok? ==> r.value.0 == w.(labelCount := VmEmit.WriteCommand(w.labelCount, command).value.0)
    ensures r.Ok? ==> r.value.1 == VmEmit.WriteCommand(w.labelCount, command).value.1
    ensures r.Ok? <==> command in CommandSymbols.AllCommands()
    ensures r.Err? ==> r.error == VmEmit.UnknownCommand(command)
    ensures r.Ok? ==> r.value.0.vmBasename == w.vmBasename
    ensures r.Ok? ==> r.value.0.labelCount == if command in ["eq", "gt", "lt"] then w.labelCount + 1 else w.labelCount
    ensures r.Ok? ==> |r.value.1| >= 2 && r.value.1[0] == Comment(command) && r.value.1[|r.value.1| - 1] == Blank
    ensures r.Ok? && command in ["eq", "gt", "lt"] ==>
      Declared(r.value.1) == [VmEmit.ComparisonLabel(w.labelCount + 1) + "_TRUE", VmEmit.ComparisonLabel(w.labelCount + 1) + "_FALSE"]
    ensures r.Ok? && command !in ["eq", "gt", "lt"] ==> Declared(r.value.1) == []
  {
    CommandSymbols.Comparisons(command);
    var (n, out) :- VmEmit.WriteCommand(w.labelCount, command);
    Ok((w.(labelCount := n), out))
  }

  function WritePushPop(w: Writer, command: string, segment: string, index: string)
    : (r: Result<seq<Line>, VmEmit.CodeWriterError>)
    ensures r == VmEmit.WritePushPop(w.vmBasename, command, segment, index)
    ensures r.Ok? <==> VmEmit.PushPopAccepted(w.vmBasename, command, segment)
    ensures w.vmBasename.None? && segment == "static" ==> r == Err(VmEmit.NoFileName)
    ensures r.Ok? ==> |r.value| >= 2 && r.value[0] == Comment(JoinSpace([command, segment, index]))
                      && r.value[|r.value| - 1] == Blank
    ensures r.Ok? ==> Declared(r.value) == []
    ensures r.Ok? && segment == "static" ==> Code(At(w.vmBasename.value + "." + index)) in r.value
  {
    VmEmit.WritePushPop(w.vmBasename, command, segment, index)
  }

  function Close(): (out: seq<Line>)
    ensures Declared(out) == ["END"]
    ensures CodeOf(out) == VmEmit.Terminator()
  {
    VmEmit.Close()
  }
}
