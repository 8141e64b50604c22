# Nand2Tetris toolchain, modelled in Dafny

This project models the text-in/text-out core of a Python Nand2Tetris
toolchain and proves properties of the model:

- **Hack assembler** (`06-assembler`). It cleans and classifies lines into A-,
  C- and L-commands, splits a C-instruction into dest/comp/jump, and looks the
  fields up in the fixed code tables. It builds the predefined symbol table,
  binds labels in a first pass and allocates variables from address 16. It
  emits 16-character binary words.
- **VM translator** (`07-vm-stack-arithmetic`, `08-vm-program-control`). The
  arithmetic classifier table and the VM line reader feed a code writer. Its
  state is a record: the shared label counter, the current function and the
  file's base name. Each `write_*` method is a function from that state and
  its arguments to the next state and the lines it appends. A small Hack
  machine gives the emitted arithmetic, push/pop, `call`, `function`, `return`
  and `close` code a
  meaning: the stack effects of arithmetic, comparisons and push/pop, segment
  addressing, the frame protocol and the final self-loop.
- **Jack lexers** (both `jack_tokenizer.py` files). The ordered first-match
  regex table becomes one hand-written prefix matcher per pattern. The
  stage-10 tokenizer is a cursor with typed accessors and XML rendering.
- **Jack parser, scopes and VM writer** (`11-compiler-code-generation`). The
  grammar is a table of rules. It is interpreted by the four combinators of
  the syntax analyzer (sequence, ordered choice, list and optional) as a
  rank-decreasing recursive descent that returns `(tree, index)`. The
  two-scope symbol table is here. So is the VM-command serialiser, whose lines
  read back through the stage-08 reader.

One module per source file, plus shared text utilities (`Text`), the result
types (`Wrappers`), the structured assembly lines (`AsmLines`) and the Hack
machine (`HackMachine`, `StackArithmetic`, `SegmentAccess`, `CallFrames`,
`FunctionEntry`).
`Toolchain` connects the stages: the VM writer's output is read back by the
assembler's line reader and assembled.

Input is a sequence of lines or a string, and output is a sequence of lines.
File handles, `readline`, directory listings and the command-line drivers
become parameters or are left out. The 08 translator's driver loop is
modelled as a fold over `(file name, lines)` pairs.

Several places in the source fail on every input of their kind under Python 3.
The model follows the evident intent there, and says so in a comment and
under "Left out".

## Model

| member | source | states |
|---|---|---|
| Text.Lower | 08-vm-program-control/parser.py:44-53 | the lower-cased text keeps its length, and each character is that character lower-cased |
| Text.Upper | 08-vm-program-control/code_writer.py:247-256 | the upper-cased text keeps its length, and each character is that character upper-cased |
| Text.Find | 08-vm-program-control/parser.py:64 | `str.find`: the first index where the pattern occurs, or −1 exactly when it occurs nowhere |
| Text.Strip | 08-vm-program-control/parser.py:64 | `str.strip`: the text between the leading and the trailing whitespace; empty exactly when the line is all whitespace |
| Text.StripPadded | 08-vm-program-control/parser.py:64 | stripping undoes any leading whitespace padding of a text that starts and ends with non-space |
| Text.SplitJoin | 08-vm-program-control/parser.py:46 | `str.split()` returns the words that were joined with single spaces |
| Text.Split | 08-vm-program-control/parser.py:46 | `str.split()` yields non-empty words without whitespace |
| Text.NatToStringValue | 06-assembler/assembler.py:60-62 | the decimal spelling of a number reads back as that number |
| Text.NatToStringInjective | 08-vm-program-control/code_writer.py:296 | different counter values give different decimal spellings |
| Text.RewriteExtension | 07-vm-stack-arithmetic/code_writer.py:38-48 | the output name always ends in the new extension: a trailing old extension, in any letter case, is rewritten to it, and the new extension is appended when the rewrite does not already end in it |
| Text.RewriteExtensionReplaces | 07-vm-stack-arithmetic/code_writer.py:45 | `stem.VM` in any letter case becomes `stem.asm` |
| Text.RewriteExtensionAppends | 07-vm-stack-arithmetic/code_writer.py:46-47 | a name without the old extension, not already ending in the new one, gets the new one appended |
| Text.Basename | 07-vm-stack-arithmetic/code_writer.py:56 | `os.path.basename`: the part of the path after its last `/` |
| LineReader.Clean | 08-vm-program-control/parser.py:64 | a line is cut before its first `//`; without `//`, the last character is dropped; the rest is stripped |
| LineReader.CleanTerminatedLine | 08-vm-program-control/parser.py:64 | a newline-terminated line without `//` cleans to its stripped text |
| LineReader.CleanCommentedLine | 06-assembler/parser.py:65 | a trailing `//` comment is removed and the code before it is stripped |
| LineReader.CleanUnterminatedLine | 08-vm-program-control/parser.py:64 | a last line without newline and without `//` loses a real character (`push constant 7` reads as `push constant`) |
| LineReader.ReadNext | 08-vm-program-control/parser.py:55-68 | the reader returns the next non-empty cleaned line, and the rest of the file yields the remaining commands; None exactly when no non-empty line is left |
| LineReader.CommandsInclude | 06-assembler/parser.py:52-69 | every line that cleans to something non-empty is one of the commands read |
| LineReader.Commands | 06-assembler/parser.py:52-69 | the commands of a file are non-empty and no more than its lines |
| LineReader.CleanIndented | 06-assembler/parser.py:65 | an indented, newline-terminated line without a comment cleans to its text |
| AsmLines.RenderIndentation | 07-vm-stack-arithmetic/code_writer.py:67-73 | an instruction line is indented by four spaces unless it starts with `(` |
| AsmLines.RenderAll | 07-vm-stack-arithmetic/code_writer.py:59-73 | the output has one rendered line per written line, in order |
| AsmLines.DeclaredMembership | 08-vm-program-control/code_writer.py:258-263 | a block declares a label exactly when it contains that `(label)` line |
| HackCode.Dest | 06-assembler/code.py:15-24 | every dest code is three bits |
| HackCode.Comp | 06-assembler/code.py:26-55 | every comp code is seven bits |
| HackCode.Jump | 06-assembler/code.py:57-66 | every jump code is three bits |
| HackCode.DestBitsNameRegisters | 06-assembler/code.py:15-24 | the dest bits say, in order, whether A, D and M are among the mnemonic's letters |
| HackCode.JumpBitsNameConditions | 06-assembler/code.py:57-66 | the jump bits say whether the jump is taken on a negative, a zero and a positive result |
| HackCode.CompMemoryBit | 06-assembler/code.py:26-55 | the leading a-bit of a comp code is 1 exactly when the mnemonic reads M |
| HackCode.CommutedSpellingsRejected | 06-assembler/code.py:26-55 | `A+D`, `A&D`, `A\|D` and `M+D` are not keys of the comp table, though each is the mirror image of one |
| HackCode.NoJump | 06-assembler/code.py:57-66 | an absent jump field is in the table and codes as `000` |
| HackParser.Reset | 06-assembler/parser.py:28-34 | a rewound parser sees exactly the command sequence of the file again |
| HackParser.Open | 06-assembler/parser.py:17-22 | a new parser has no current command and the file's commands pending |
| HackParser.Advance | 06-assembler/parser.py:40-50 | advancing makes the next pending command current and drops it from the pending ones |
| HackParser.TypeOf | 06-assembler/parser.py:71-78 | a command is an A-command iff it starts with `@`, an L-command iff it starts with `(`, and a C-command otherwise |
| HackParser.Symbol | 06-assembler/parser.py:80-82 | the symbol is a non-empty run of symbol characters right after an `@` or `(`; an error exactly when the command has no such run |
| HackParser.SymbolOfAddress | 06-assembler/parser.py:80-82 | `@name` yields `name` |
| HackParser.SymbolOfLabel | 06-assembler/parser.py:80-82 | `(name)` yields `name` |
| HackParser.SplitC | 06-assembler/parser.py:103-117 | the dest (before the first `=`), comp and jump (after the first `;`) fields spell the command back exactly |
| HackParser.SplitCText | 06-assembler/parser.py:103-117 | splitting the spelling of any well-formed field triple returns that triple |
| HackParser.Fields | 06-assembler/parser.py:84-101 | the fields are accepted exactly when each is a key of its table; a bad comp is reported as a comp error |
| HackSymbols.New | 06-assembler/symbol_table.py:11-29 | the new table holds exactly the named registers, SCREEN, KBD and R0..R15 at their addresses, and the next variable address is 16 |
| HackSymbols.AddEntry | 06-assembler/symbol_table.py:31-33 | after `add_entry` the symbol is contained and maps to the new address; every other symbol is unchanged |
| HackSymbols.AddVariable | 06-assembler/symbol_table.py:35-41 | a variable gets the next free address, and the next address goes up by one |
| HackSymbols.Registers | 06-assembler/symbol_table.py:11-29 | R0..R15 map to 0..15, and every key is such a register name |
| HackSymbols.Build | 06-assembler/symbol_table.py:62-72 | the first pass allocates no variable: the next variable address stays 16 |
| HackSymbols.LabelBound | 06-assembler/symbol_table.py:62-72 | a label not declared again later is bound to the number of A- and C-commands before it |
| HackSymbols.LabelAddress | 06-assembler/symbol_table.py:62-72 | from any table and instruction count, a label not declared again later is bound to that count plus the A- and C-commands before it |
| HackSymbols.KeepsLabel | 06-assembler/symbol_table.py:62-72 | the first pass leaves every symbol that is not declared as a label where it was |
| HackAssembler.OutputName | 06-assembler/assembler.py:40-46 | the output name always ends in `.hack` |
| HackAssembler.OutputNameOfAsm | 06-assembler/assembler.py:40-46 | `stem.asm` in any letter case becomes `stem.hack` |
| HackAssembler.ToBinary | 06-assembler/assembler.py:75-82 | the binary digits read back as the number, most significant first, with no leading zero, so the width is the least k with n < 2^k |
| HackAssembler.BinaryWidth | 06-assembler/assembler.py:66-73 | the binary spelling fits in k digits exactly when the number is below 2^k |
| HackAssembler.AConstant | 06-assembler/assembler.py:66-73 | a constant assembles exactly when it is below 2^15, into 16 bits that start with 0 and read back as the constant; otherwise the error names the constant |
| HackAssembler.ACommand | 06-assembler/assembler.py:58-89 | an all-digit symbol is a constant; any other symbol is looked up, allocated once when unseen, and assembles to its address |
| HackAssembler.CCommand | 06-assembler/assembler.py:91-96 | a C-command assembles exactly when its fields are in the tables, to `111` followed by the comp, dest and jump codes of its own fields |
| HackAssembler.Step | 06-assembler/assembler.py:48-56 | an L-command emits no word and an A- or C-command emits one; symbols already bound keep their addresses |
| HackAssembler.SecondPass | 06-assembler/assembler.py:48-56 | one 16-bit word per A- or C-command; symbols already bound keep their addresses, and the next variable address never goes down |
| HackAssembler.AssembleCommands | 06-assembler/assembler.py:48-56 | the output has one 16-bit word per A- or C-command |
| HackAssembler.AssembleIsPasses | 06-assembler/assembler.py:48-56 | assembling is the second pass run over the table the first pass built |
| HackAssembler.LabelResolves | 06-assembler/assembler.py:58-64 | an `@label` reference assembles to the address the label was declared at |
| HackAssembler.ReferenceResolves | 06-assembler/assembler.py:84-89 | an `@name` reference to a bound symbol assembles to the symbol's address |
| HackAssembler.AssembleRejects | 06-assembler/assembler.py:91-96 | one C-command with a field outside the tables makes the whole file fail |
| HackAssembler.StepRejects | 06-assembler/assembler.py:91-96 | a C-command with a field outside the tables fails its step with the parser's error |
| CommandSymbols.AllCommandsDistinct | 07-vm-stack-arithmetic/command_symbols.py:13-41 | `all_commands` is exactly the nine mnemonics, with no repeats |
| CommandSymbols.CategoriesDisjoint | 07-vm-stack-arithmetic/command_symbols.py:13-32 | no mnemonic is in two categories |
| CommandSymbols.Symbol | 07-vm-stack-arithmetic/command_symbols.py:53-56 | a category has a symbol for a mnemonic exactly when it lists that mnemonic |
| CommandSymbols.Classify | 07-vm-stack-arithmetic/code_writer.py:81-90 | the category found lists the mnemonic, and none is found exactly when no category lists it |
| CommandSymbols.ClassifyExact | 07-vm-stack-arithmetic/command_symbols.py:43-51 | the category found by scanning `types()` is the one that lists the mnemonic, and it has a symbol for it |
| CommandSymbols.SymbolsPerCategory | 07-vm-stack-arithmetic/command_symbols.py:14-31 | binary compute symbols are among `+ - & \|`, unary ones among `! -`, comparison ones among `JEQ JGT JLT` |
| VmEmit.WriteCommand | 07-vm-stack-arithmetic/code_writer.py:75-125 | a command is accepted exactly when it is one of the nine mnemonics; its block is the comment, the code and a blank line; a comparison bumps the counter once and declares `LABELn_TRUE` and `LABELn_FALSE` for the new n, and nothing else declares a label |
| VmEmit.ComparisonDeclarations | 07-vm-stack-arithmetic/code_writer.py:114-125 | a comparison's code declares `LABELn_TRUE` and then `LABELn_FALSE`, and no other label |
| VmEmit.Close | 07-vm-stack-arithmetic/code_writer.py:233-236 | `close` declares only `END`, and its instructions are `(END)`, `@END`, `0;JMP` |
| VmEmit.PushPopStatic | 07-vm-stack-arithmetic/code_writer.py:216-231 | static access is accepted exactly for push or pop with a known file; it fails with NoFileName without one; its code loads the symbol `Xxx.i` and declares no label |
| VmEmit.PushPopVariable | 07-vm-stack-arithmetic/code_writer.py:178-196 | for a variable segment, code is produced exactly for push and pop, and declares no label |
| VmEmit.WritePushPop | 07-vm-stack-arithmetic/code_writer.py:148-168 | a push/pop is accepted exactly when `PushPopAccepted` holds: push constant, push/pop on the six variable segments, or push/pop static with a known file; the block is the joined command as a comment, the code and a blank line; it declares no label, and a static access loads `Xxx.i` |
| CodeWriter07.OutputName | 07-vm-stack-arithmetic/code_writer.py:38-48 | the output name always ends in `.asm` |
| CodeWriter07.New | 07-vm-stack-arithmetic/code_writer.py:33-36 | the writer starts with label counter 0 and no file name |
| CodeWriter07.SetFilename | 07-vm-stack-arithmetic/code_writer.py:50-57 | the file's base name, without directory and trailing `.vm`, becomes the static prefix; the counter is kept |
| CodeWriter07.WriteCommand | 07-vm-stack-arithmetic/code_writer.py:75-90 | the writer accepts exactly the nine mnemonics and otherwise fails with `Unknown Command`; the counter goes up by one exactly for `eq`, `gt` and `lt`, and the file name is kept; the lines are the command as a comment, the code and a blank line, declaring `LABELn_TRUE`/`LABELn_FALSE` for the new n after a comparison and nothing otherwise; the code's stack effect is StackArithmetic.AddSub, StackArithmetic.Neg and StackArithmetic.Comparison |
| CodeWriter07.WritePushPop | 07-vm-stack-arithmetic/code_writer.py:148-168 | a push/pop is accepted exactly when `PushPopAccepted` holds for the writer's file name; a static access before any file name fails with NoFileName, and one after it loads `Xxx.i` for the writer's base name Xxx; the lines are the joined command as a comment, the code and a blank line, and declare no label |
| CodeWriter07.Close | 07-vm-stack-arithmetic/code_writer.py:233-236 | `close` declares only `END`, and its code is `(END)`, `@END`, `0;JMP`, which StackArithmetic.EndLoops shows never lets control leave |
| SegmentAccess.VariableSegments | 07-vm-stack-arithmetic/code_writer.py:18-31 | the writer's two tables cover exactly the segments the VM memory mapping gives an address |
| SegmentAccess.AddressOf | 07-vm-stack-arithmetic/code_writer.py:198-214 | the address code leaves `*BASE+index` in the register for local/argument/this/that, and `BASE+index` for pointer (THIS) and temp (R5) |
| SegmentAccess.PushVariable | 07-vm-stack-arithmetic/code_writer.py:178-189 | push copies the segment word to the top of the stack and raises SP by one; nothing else changes |
| SegmentAccess.ParkAddress | 07-vm-stack-arithmetic/code_writer.py:190-192 | pop first parks the target address in R13, before the stack is touched |
| SegmentAccess.PopVariable | 07-vm-stack-arithmetic/code_writer.py:190-194 | pop moves the top of the stack into the segment word and lowers SP by one; only R13 also changes |
| SegmentAccess.PushConstant | 07-vm-stack-arithmetic/code_writer.py:170-176 | push constant n puts n on the stack |
| SegmentAccess.PushStatic | 07-vm-stack-arithmetic/code_writer.py:216-226 | push static copies the word the file's static symbol is bound to |
| SegmentAccess.PopStatic | 07-vm-stack-arithmetic/code_writer.py:227-229 | pop static moves the top of the stack into that word |
| CommandSymbols.Comparisons | 07-vm-stack-arithmetic/command_symbols.py:26-30 | the comparison category holds exactly `eq`, `gt` and `lt` |
| StackArithmetic.TwoPops | 07-vm-stack-arithmetic/code_writer.py:127-132 | two pops leave y (the top) in D and x in A and lower SP by two |
| StackArithmetic.PushBooleanEffect | 07-vm-stack-arithmetic/code_writer.py:141-146 | pushing a boolean writes −1 for true and 0 for false at SP and raises SP by one |
| StackArithmetic.ComputeEffect | 07-vm-stack-arithmetic/code_writer.py:92-99 | with `+` or `−`, two pops, `D=A±D` and a push leave x ± y at the old SP−2 and SP one lower |
| StackArithmetic.AddSub | 07-vm-stack-arithmetic/code_writer.py:92-99 | the written `add`/`sub` block, on a stack of at least two values, replaces x and y by x + y or x − y: SP goes down by one and no other word changes |
| StackArithmetic.NegEffect | 07-vm-stack-arithmetic/code_writer.py:102-107 | `@SP`, `A=M-1`, `M=-M` negates the top word in place |
| StackArithmetic.Neg | 07-vm-stack-arithmetic/code_writer.py:102-107 | the written `neg` block negates the top of the stack; SP and every other word are unchanged |
| StackArithmetic.ComparisonTest | 07-vm-stack-arithmetic/code_writer.py:118-121 | the test pops y and x and jumps to the `_TRUE` label exactly when the jump condition holds on x − y |
| StackArithmetic.TrueArm | 07-vm-stack-arithmetic/code_writer.py:123-125 | from `(LABELn_TRUE)`, −1 is pushed and control falls through `(LABELn_FALSE)` to the end of the block |
| StackArithmetic.FalseArm | 07-vm-stack-arithmetic/code_writer.py:122-123 | without the jump, 0 is pushed and control jumps over the true arm to the end of the block |
| StackArithmetic.CompareEffect | 07-vm-stack-arithmetic/code_writer.py:109-125 | a comparison block with jump condition J leaves at its end within 16 steps, with −1 in x's place when J holds on x − y and 0 when it does not, SP one lower and nothing else changed |
| StackArithmetic.ComparisonBlock | 07-vm-stack-arithmetic/code_writer.py:114-125 | the block written for a comparison is the comparison block for its jump condition with labels `LABELn_TRUE` and `LABELn_FALSE` for the incremented counter n, and those labels are neither constants nor registers |
| StackArithmetic.Comparison | 07-vm-stack-arithmetic/code_writer.py:109-125 | the written `eq`/`gt`/`lt` block, run from its start with labels bound at their declarations, leaves at its end within 16 steps with −1 in x's place when x = y, x > y or x < y respectively and 0 otherwise; SP goes down by one and nothing else changes |
| StackArithmetic.EndRound | 07-vm-stack-arithmetic/code_writer.py:233-236 | one turn of `(END)`, `@END`, `0;JMP` comes back to `(END)` with RAM and D unchanged |
| StackArithmetic.EndLoops | 07-vm-stack-arithmetic/code_writer.py:233-236 | from the `(END)` of `close`'s code the machine is back there after every whole number of turns, with RAM and D unchanged: control never leaves the loop |
| VmParser.Open | 08-vm-program-control/parser.py:15-24 | the reader starts with no current command and the file's commands pending |
| VmParser.HasMoreIffPending | 08-vm-program-control/parser.py:30-32 | `has_more_commands` holds exactly when a non-empty line is still to come |
| VmParser.ParseCommandOfWords | 08-vm-program-control/parser.py:44-53 | a command's first three words, lower-cased, become command, arg1 and arg2; missing words are None and extra words are ignored |
| VmParser.Advance | 08-vm-program-control/parser.py:34-42 | advancing parses the next pending command and drops it from the pending ones |
| VmParser.TypeTable | 08-vm-program-control/parser.py:70-86 | the eight keywords map to their kinds, the nine mnemonics to C_ARITHMETIC, and nothing else has a kind |
| VmParser.TypeOf | 08-vm-program-control/parser.py:70-86 | a word is C_ARITHMETIC exactly when it is one of the nine mnemonics |
| VmParser.CommandTypeOf | 08-vm-program-control/parser.py:70-86 | `command_type` fails exactly when there is no command or its word has no kind |
| VmParser.Arg1 | 08-vm-program-control/parser.py:88-96 | `arg1` fails exactly when the command has no second word, arithmetic commands included |
| VmParser.Arg2 | 08-vm-program-control/parser.py:98-106 | `arg2` never fails: it is the third word or None |
| VmParser.ReadAllIsCommands | 08-vm-program-control/parser.py:55-68 | reading a file to the end yields exactly its cleaned non-empty lines |
| CodeWriter08.OutputName | 08-vm-program-control/code_writer.py:53-56 | the output name always ends in `.asm` |
| CodeWriter08.SetFilename | 08-vm-program-control/code_writer.py:64-71 | the file's base name becomes the static prefix; the counter and current function are kept |
| CodeWriter08.WriteLabel | 08-vm-program-control/code_writer.py:247-263 | `label X` declares `F$X` with F the current function and X upper-cased |
| CodeWriter08.WriteGoto | 08-vm-program-control/code_writer.py:265-271 | `goto X` loads `F$X` and jumps unconditionally; it declares nothing |
| CodeWriter08.WriteIf | 08-vm-program-control/code_writer.py:273-280 | `if-goto X` pops the top and jumps to `F$X` when it is non-zero |
| CodeWriter08.LabelSymbolScoped | 08-vm-program-control/code_writer.py:247-256 | for function names without `$`, two label symbols agree only when their functions and upper-cased labels agree |
| CodeWriter08.LabelSymbolFoldsCase | 08-vm-program-control/code_writer.py:247-256 | a label's letter case does not change its symbol |
| CodeWriter08.WriteCall | 08-vm-program-control/code_writer.py:282-320 | a call bumps the counter once, declares exactly `RET_F_n` for the new n, starts by loading that label, and ends by jumping to the upper-cased function and declaring the label |
| CallFrames.CallSaves | 08-vm-program-control/code_writer.py:297-307 | the call pushes the return address and then LCL, ARG, THIS, THAT, in that order |
| CallFrames.PushRegistersEffect | 08-vm-program-control/code_writer.py:302-305 | pushing the named registers stores their values above SP in order and raises SP by their number |
| CallFrames.CallRepositions | 08-vm-program-control/code_writer.py:307-317 | after the saves, ARG becomes `SP-(n+5)` and LCL becomes SP, nothing else changes, and control goes to the function |
| CallFrames.CallFrame | 08-vm-program-control/code_writer.py:282-320 | run on the machine, a call stores the return address and LCL, ARG, THIS, THAT above the old SP; it sets SP and LCL to the old SP + 5 and ARG to the old SP − n; it leaves THIS, THAT and every other word alone and jumps to the function |
| CodeWriter08.WriteFunction | 08-vm-program-control/code_writer.py:322-347 | the function becomes the current one, upper-cased; its code declares the entry label and the two loop labels |
| CodeWriter08.FunctionDeclarations | 08-vm-program-control/code_writer.py:335-347 | the entry label and the code after it declare exactly the function, `F_LCL_START` and `F_LCL_END` |
| FunctionEntry.LocalsZeroed | 08-vm-program-control/code_writer.py:322-347 | run on the machine, the entry code pushes exactly `num_locals` zeros and changes nothing else but SP and the R13 counter |
| FunctionEntry.Round | 08-vm-program-control/code_writer.py:343-347 | one pass of the loop with a positive counter pushes one zero, lowers R13 by one and returns to the loop head |
| FunctionEntry.Leave | 08-vm-program-control/code_writer.py:343-347 | with the counter at 0 the loop lowers R13 to −1 and jumps past its end, changing nothing else |
| CodeWriter08.WriteReturn | 08-vm-program-control/code_writer.py:349-375 | return declares no label and ends with `@R14`, `A=M`, `0;JMP`, a jump to the address parked in R14 |
| CallFrames.ParkEffect | 08-vm-program-control/code_writer.py:352-358 | return reads `*(LCL-5)` into R14 |
| CallFrames.ReturnParks | 08-vm-program-control/code_writer.py:352-360 | return parks `*(LCL-5)` in R14 and pops the top of the stack into D; only SP and R14 change |
| CallFrames.ReturnMoves | 08-vm-program-control/code_writer.py:359-369 | return writes the popped result to `*ARG`, sets `SP = ARG+1` and copies LCL into R13; nothing else changes |
| CallFrames.RestoreRegistersEffect | 08-vm-program-control/code_writer.py:371-372 | each restore step lowers R13 by one and loads the register from the word it then points at |
| CallFrames.ReturnFrame | 08-vm-program-control/code_writer.py:349-375 | run on the machine, return copies the top of the stack to `*ARG` and sets `SP = ARG+1`; it restores LCL, ARG, THIS and THAT from `LCL-4` to `LCL-1` and jumps to `*(LCL-5)`, read before `*ARG` is written; only R13, R14 and `*ARG` change besides the registers |
| CallFrames.CallReturn | 08-vm-program-control/code_writer.py:282-375 | a return from the frame a call built (callee kept LCL, ARG and the saved words) jumps to the return address with the caller's LCL, ARG, THIS and THAT restored, and the result at the old `SP-k` on top of the stack |
| CodeWriter08.WriteInit | 08-vm-program-control/code_writer.py:377-386 | the bootstrap starts with the `Initialize SP` comment, raises the counter by one and declares only `RET_SYS.INIT_n` for the new counter value n |
| CodeWriter08.New | 08-vm-program-control/code_writer.py:33-38 | after the bootstrap the writer has counter 1, current function `FUNCTION_NAME` and no file name; the bootstrap declares only `RET_SYS.INIT_1` |
| CodeWriter08.WriteCommand | 08-vm-program-control/code_writer.py:89-104 | as in stage 07: exactly the nine mnemonics are accepted, others fail with `Unknown Command`; the counter goes up by one exactly for `eq`, `gt` and `lt`; the file name and the current function are kept; comment, code and blank line, with the comparison labels as the only declarations |
| CodeWriter08.WritePushPop | 08-vm-program-control/code_writer.py:162-245 | as in stage 07: accepted exactly when `PushPopAccepted` holds for the writer's file name; static before any file name fails with NoFileName and after it loads `Xxx.i`; comment, code and blank line, no label declared |
| CodeWriter08.Close | 08-vm-program-control/code_writer.py:388-395 | `close` declares only `END`, and its code is the `(END)` self-loop of StackArithmetic.EndLoops |
| CodeWriter08.ReturnLabelInjective | 08-vm-program-control/code_writer.py:296 | two return labels agree only for the same function and counter value |
| CodeWriter08.ComparisonLabelInjective | 08-vm-program-control/code_writer.py:129-130 | two comparison labels agree only for the same counter value and suffix |
| CodeWriter08.MintedKindsDistinct | 08-vm-program-control/code_writer.py:129-130 | a comparison label is never a return label |
| VmTranslator.VmFiles | 08-vm-program-control/vm_translator.py:36-51 | a directory yields paths of its `.vm` entries (case-insensitive) and fails exactly when it has none; a file yields itself; anything else is NotFound |
| VmTranslator.Dispatch | 08-vm-program-control/vm_translator.py:61-80 | one command is translated exactly when it is dispatchable; a label-minting command (comparison or call) raises the counter by one and declares exactly the labels it mints, any other keeps the counter; only `function` changes the current function; the file name is kept |
| VmTranslator.TranslateIsRun | 08-vm-program-control/vm_translator.py:24-34 | translation is the bootstrap, then every file's commands in order, then `close` |
| VmTranslator.FilesAreRun | 08-vm-program-control/vm_translator.py:32-33 | the loop over files is one run over their events: each file's start, then its commands |
| VmTranslator.FileIsRun | 08-vm-program-control/vm_translator.py:53-82 | one file's reader loop is the run of its start event and its commands |
| VmTranslator.Translate | 08-vm-program-control/vm_translator.py:24-34 | the output starts with the bootstrap's `Initialize SP` comment |
| VmTranslator.RunCounter | 08-vm-program-control/vm_translator.py:61-80 | after a run the counter has gone up by exactly the number of label-minting commands |
| VmTranslator.MintedLabelsUnique | 08-vm-program-control/code_writer.py:294-296 | any two label-minting commands of one run declare disjoint labels |
| VmTranslator.BootstrapLabelDistinct | 08-vm-program-control/code_writer.py:377-386 | no later command declares the bootstrap's `RET_SYS.INIT_1` |
| Toolchain.BinaryComputeDoesNotAssemble | 07-vm-stack-arithmetic/code_writer.py:92-99 | the writer accepts `add`, `and` and `or`, but any file containing their code (`D=A+D`, `D=A&D`, `D=A\|D`) fails to assemble |
| Toolchain.PushPopVariableDoesNotAssemble | 07-vm-stack-arithmetic/code_writer.py:178-214 | the writer accepts push/pop on a variable segment, but any file containing its code (`M+D` or `A+D`) fails to assemble |
| Toolchain.SubtractionAssembles | 06-assembler/code.py:26-55 | `D=A-D`, written by every comparison, is accepted by the assembler |
| Toolchain.SwappedCompRejected | 06-assembler/code.py:26-55 | a written `d=A+D`, `d=A&D`, `d=A\|D` or `d=M+D` line is rejected with a comp error |
| Toolchain.FileRejected | 06-assembler/assembler.py:48-56 | a file with one C-command line whose fields are outside the tables fails to assemble |
| Toolchain.ReadBackInstruction | 06-assembler/parser.py:52-69 | the assembler's reader reads a written instruction line back as the instruction's text |
| Toolchain.Written | 07-vm-stack-arithmetic/code_writer.py:59-73 | the file holds one line per written line: its rendering and a newline |
| Toolchain.TableAssignAccepted | 06-assembler/parser.py:103-117 | a written `dest=comp` line whose fields are in the tables reads back and assembles to `111`, the comp code, the dest code and `000` |
| Toolchain.CommutedSpellingAssembles | 06-assembler/code.py:26-55 | the table's spellings with the operands swapped (`D+A`, `D&A`, `D\|A`, `D+M`) are keys of the comp table, and a `dest=comp` line using one assembles to `111`, its comp code, the dest code and `000` |
| JackTokenizer.Tokenize | 11-compiler-code-generation/jack_tokenizer.py:56-87 | every token produced is well-formed, and a failure is the first place no pattern matches |
| JackTokenizer.Scan | 11-compiler-code-generation/jack_tokenizer.py:62-80 | one match is a non-empty prefix of the input, and an emitted token is well-formed |
| JackTokenizer.TokenizeLayout | 11-compiler-code-generation/jack_tokenizer.py:56-87 | tokens spelled out with single spaces lex back to the same tokens |
| JackTokenizer.ScanProgresses | 11-compiler-code-generation/jack_tokenizer.py:67-80 | every match is non-empty, so the position strictly increases and lexing terminates |
| JackTokenizer.MatchKeywordIff | 11-compiler-code-generation/jack_tokenizer.py:20-26 | the keyword pattern matches exactly when the input starts with a keyword followed by a non-word character |
| JackTokenizer.KeywordAtEnd | 11-compiler-code-generation/jack_tokenizer.py:20-26 | a keyword at the end of the input lexes as an identifier |
| JackTokenizer.KeywordBeforeSymbol | 11-compiler-code-generation/jack_tokenizer.py:44-53 | a keyword followed by a symbol lexes as that keyword and that symbol |
| JackTokenizer.ScanKeyword | 11-compiler-code-generation/jack_tokenizer.py:20-26 | a keyword followed by a non-word character lexes as that keyword |
| JackTokenizer.ScanSymbol | 11-compiler-code-generation/jack_tokenizer.py:38 | a symbol character followed by a space lexes as that symbol |
| JackTokenizer.ScanInteger | 11-compiler-code-generation/jack_tokenizer.py:32 | a run of digits followed by a space lexes as an integer constant |
| JackTokenizer.ScanIdentifier | 11-compiler-code-generation/jack_tokenizer.py:44-53 | a word that is not a keyword, followed by a space, lexes as an identifier |
| JackTokenizer.ScanString | 11-compiler-code-generation/jack_tokenizer.py:34 | a quoted string without quotes or newlines, followed by a space, lexes as a string constant with the quotes removed |
| JackTokenizer.UnquoteString | 11-compiler-code-generation/jack_tokenizer.py:74 | removing quotes from a quoted string gives its inside |
| JackTokenizer.Unquote | 11-compiler-code-generation/jack_tokenizer.py:74 | no quote is left, and a text without quotes is unchanged |
| JackTokenizer.MatchInlineComment | 11-compiler-code-generation/jack_tokenizer.py:38 | a line comment needs at least one character after `//` |
| JackTokenizer.BareSlashes | 11-compiler-code-generation/jack_tokenizer.py:38 | a bare `//` at the end of a line lexes as two `/` symbols |
| JackTokenizer.UnclosedComment | 11-compiler-code-generation/jack_tokenizer.py:40 | an unterminated `/*` lexes as a `/` symbol |
| JackTokenizer.SlashSymbol | 11-compiler-code-generation/jack_tokenizer.py:28-38 | a `/` that starts no comment lexes as a `/` symbol |
| JackTokenizer.CloseAt | 11-compiler-code-generation/jack_tokenizer.py:40 | a block comment ends at the first `*/` after its start |
| TokenStream.Open | 10-compiler-syntax-analysis/jack_tokenizer.py:52-63 | a new tokenizer has no current token and the whole source ahead |
| TokenStream.ReadNextToken | 10-compiler-syntax-analysis/jack_tokenizer.py:83-102 | one read advances the position by the match length and counts its newlines; skipped text leaves no current token; a failure names the next line and its text |
| TokenStream.Advance | 10-compiler-syntax-analysis/jack_tokenizer.py:73-81 | `advance` always moves forward; on success a token is current or no input is left |
| TokenStream.AdvanceStep | 10-compiler-syntax-analysis/jack_tokenizer.py:73-81 | after one `advance` the tokens still to come are the rest of what the stage-11 lexer yields; a failure is the one it reports |
| TokenStream.DrainAgrees | 10-compiler-syntax-analysis/jack_tokenizer.py:73-102 | advancing to the end yields exactly the tokens, or the error, of the stage-11 lexer |
| TokenStream.SameTable | 10-compiler-syntax-analysis/jack_tokenizer.py:17-50 | the stage-10 pattern table matches exactly as the stage-11 one |
| TokenStream.Typed | 10-compiler-syntax-analysis/jack_tokenizer.py:108-141 | a typed accessor gives `""` when the current token is of another type |
| TokenStream.AccessorsDetermineToken | 10-compiler-syntax-analysis/jack_tokenizer.py:104-141 | the token type and typed accessors together give back the current token |
| TokenStream.XmlRoundTrip | 10-compiler-syntax-analysis/jack_tokenizer.py:143-164 | the XML element reads back as the current token, with `<`, `>` and `&` escaped; it is `""` exactly when there is no token |
| TokenStream.EscapeSymbolInverse | 10-compiler-syntax-analysis/jack_tokenizer.py:147-156 | escaping a symbol is undone by unescaping it, and leaves no `<` or `>` |
| TokenStream.ReadElement | 10-compiler-syntax-analysis/jack_tokenizer.py:143-164 | the XML element of every well-formed token reads back as that token |
| TokenStream.AdvanceAtEnd | 10-compiler-syntax-analysis/jack_tokenizer.py:73-102 | advancing with no input left fails with an empty error line |
| JackGrammar.Def | 11-compiler-code-generation/jack_grammar.py:17-191 | the rules that must consume a token are exactly the sequence and choice rules, and each rule tries only lower-ranked rules before consuming, so the descent terminates |
| SyntaxAnalyzer.Terminal | 11-compiler-code-generation/syntax_analyzer.py:106-144 | a terminal parser succeeds exactly when the token at the index has the right class (and text), advancing by one; past the end it fails |
| SyntaxAnalyzer.NextToken | 11-compiler-code-generation/syntax_analyzer.py:146-148 | the next token is the one at the index, or none past the end |
| SyntaxAnalyzer.ParseRule | 11-compiler-code-generation/syntax_analyzer.py:37-89 | a rule never moves backwards, and a rule that must consume does |
| SyntaxAnalyzer.SequenceChain | 11-compiler-code-generation/syntax_analyzer.py:46-60 | when the elements parse one after another, the sequence returns their values and the index after the last one |
| SyntaxAnalyzer.SequenceBreak | 11-compiler-code-generation/syntax_analyzer.py:46-60 | when one element fails, the whole sequence fails |
| SyntaxAnalyzer.SequenceParts | 11-compiler-code-generation/syntax_analyzer.py:46-60 | a parsed sequence is the chain of its elements' values, one after another |
| SyntaxAnalyzer.ParseSequence | 11-compiler-code-generation/syntax_analyzer.py:46-60 | a sequence that succeeds ends after its start, and a failure is reported as the rule's sequence failure |
| SyntaxAnalyzer.ChoiceFirst | 11-compiler-code-generation/syntax_analyzer.py:62-74 | a choice returns the first option that parses from the same start index |
| SyntaxAnalyzer.ChoiceNone | 11-compiler-code-generation/syntax_analyzer.py:62-74 | a choice fails exactly when every option fails |
| SyntaxAnalyzer.ChoiceParts | 11-compiler-code-generation/syntax_analyzer.py:62-74 | a parsed choice is the first option that parses |
| SyntaxAnalyzer.ParseChoice | 11-compiler-code-generation/syntax_analyzer.py:62-74 | a choice that succeeds consumes at least one token |
| SyntaxAnalyzer.ListParts | 11-compiler-code-generation/syntax_analyzer.py:76-89 | a list never fails: it returns the repetitions of its item up to the first that fails |
| SyntaxAnalyzer.ListGreedy | 11-compiler-code-generation/syntax_analyzer.py:76-89 | a list takes every repetition that parses, returning the start index when there are none |
| SyntaxAnalyzer.ParseList | 11-compiler-code-generation/syntax_analyzer.py:76-89 | a list never fails and never moves backwards |
| SyntaxAnalyzer.Parse | 11-compiler-code-generation/syntax_analyzer.py:26-35 | parsing succeeds exactly when a class consumes every token; leftover tokens are an error of their own |
| JackParseFacts.ParameterListValue | 11-compiler-code-generation/syntax_analyzer.py:91-104 | an absent parameter list is `[]` at the same index |
| JackParseFacts.ExpressionListValue | 11-compiler-code-generation/syntax_analyzer.py:91-104 | an absent expression list is `[]` at the same index |
| JackParseFacts.IfPrefersElse | 11-compiler-code-generation/jack_grammar.py:107-116 | an `if` with `else` is an IfElseStatement, one without falls back to RegularIfStatement |
| JackParseFacts.ElseExtendsIf | 11-compiler-code-generation/jack_grammar.py:111-116 | an if-else statement is a regular if statement followed by an else part, with the same condition and statements |
| JackParseFacts.ReturnPrefersExpression | 11-compiler-code-generation/jack_grammar.py:126-135 | `return e;` is tried before `return;` |
| JackParseFacts.NameRule | 11-compiler-code-generation/jack_grammar.py:79-86 | ClassName, SubroutineName and VarName all accept exactly one identifier |
| JackParseFacts.NoStaticMethodCall | 11-compiler-code-generation/jack_grammar.py:159-169 | a parsed subroutine call is a FunctionCall or a MethodCall, never a StaticMethodCall |
| JackParseFacts.StaticCallIsMethodCall | 11-compiler-code-generation/jack_grammar.py:159-169 | whatever StaticMethodCall parses, MethodCall parses too, up to the same index |
| JackParseFacts.ArrayVarNameFields | 11-compiler-code-generation/jack_grammar.py:150-151 | `a[e]` is the pair of the name and the index expression |
| JackParseFacts.ArrayEntryLetFields | 11-compiler-code-generation/jack_grammar.py:104-105 | `let a[e] = ...` passes the name and index expression positionally |
| JackParseFacts.ExpressionFlat | 11-compiler-code-generation/jack_grammar.py:138-145 | an expression is a term followed by a flat list of (op, term) pairs, with no precedence |
| JackParseFacts.ClassRecord | 11-compiler-code-generation/jack_grammar.py:19-20 | a parsed class's name is its second token, and its variable declarations and subroutines are lists |
| JackParseFacts.ClassTokens | 11-compiler-code-generation/jack_grammar.py:19 | a parsed file starts `class Name {` and ends `}` |
| JackSymbolTable.New | 11-compiler-code-generation/symbol_table.py:13-16 | a new scope is empty and counts nothing |
| JackSymbolTable.Define | 11-compiler-code-generation/symbol_table.py:18-24 | the name gets the scope's count of its kind as index, taken before it is stored; an existing entry is replaced, and no other name changes |
| JackSymbolTable.CountAfterDefine | 11-compiler-code-generation/symbol_table.py:26-40 | after `define` the new kind's count is one higher and the overwritten entry's kind, if any, one lower |
| JackSymbolTable.VarCount | 11-compiler-code-generation/symbol_table.py:26-32 | `var_count` is this scope's count plus the class table's, when there is one |
| JackSymbolTable.Find | 11-compiler-code-generation/symbol_table.py:42-49 | `find` returns the subroutine entry first, then the class table's entry, then None |
| JackSymbolTable.FindAfterDefine | 11-compiler-code-generation/symbol_table.py:18-64 | after `define`, `find`, `kind_of`, `type_of` and `index_of` give the new entry, and other names are found as before |
| JackSymbolTable.KindOf | 11-compiler-code-generation/symbol_table.py:51-56 | `kind_of` is the kind field of `find` |
| JackSymbolTable.TypeOf | 11-compiler-code-generation/symbol_table.py:58-60 | `type_of` is the type field of `find` |
| JackSymbolTable.IndexOf | 11-compiler-code-generation/symbol_table.py:62-64 | `index_of` is the index field of `find` |
| JackSymbolTable.NumberedSlots | 11-compiler-code-generation/symbol_table.py:18-24 | in a scope where each entry's index counts the earlier entries of its kind, entries of one kind have distinct increasing slots below the count |
| JackSymbolTable.RedefinitionSharesIndex | 11-compiler-code-generation/symbol_table.py:23-24 | as written, after defining `x` twice the next variable of that kind gets the same index as `x` |
| JackSymbolTable.KindChangeSharesIndex | 11-compiler-code-generation/symbol_table.py:23-24 | as written, after `a var, b var, a argument, c var`, b and c are both local 1 |
| JackSymbolTable.DefineNew | 11-compiler-code-generation/symbol_table.py:18-24 | a declaration is refused exactly when the name is already in this scope; otherwise the name gets the kind's count as index, other names keep their entries, and the count goes up by one |
| JackSymbolTable.DeclaredSlots | 11-compiler-code-generation/symbol_table.py:18-24 | without redeclarations, entries of one kind get distinct increasing slots below the count |
| JackSymbolTable.NewNumbered | 11-compiler-code-generation/symbol_table.py:13-16 | a new scope is numbered: it has no entries |
| JackSymbolTable.DefineFreshNumbered | 11-compiler-code-generation/symbol_table.py:18-24 | defining a name not yet in scope keeps every index equal to the count of earlier entries of its kind |
| JackVmWriter.WritePush | 11-compiler-code-generation/vm_writer.py:14-22 | one line; for a one-word segment its words are `push`, the segment and the index |
| JackVmWriter.WritePop | 11-compiler-code-generation/vm_writer.py:24-32 | one line; for a one-word segment its words are `pop`, the segment and the index |
| JackVmWriter.WriteOperator | 11-compiler-code-generation/vm_writer.py:34-41 | one line; a one-word operator is its only word |
| JackVmWriter.WriteLabel | 11-compiler-code-generation/vm_writer.py:43-49 | one line; its words are `label` and the label |
| JackVmWriter.WriteGoto | 11-compiler-code-generation/vm_writer.py:51-58 | one line; its words are `goto` and the label |
| JackVmWriter.WriteIf | 11-compiler-code-generation/vm_writer.py:60-67 | one line; its words are `if-goto` and the label |
| JackVmWriter.WriteCall | 11-compiler-code-generation/vm_writer.py:69-77 | one line; its words are `call`, the name and the argument count |
| JackVmWriter.WriteFunction | 11-compiler-code-generation/vm_writer.py:79-87 | one line; its words are `function`, the name and the local count |
| JackVmWriter.WriteReturn | 11-compiler-code-generation/vm_writer.py:89-92 | one line, whose only word is `return` |
| JackVmWriter.PushPopReadBack | 11-compiler-code-generation/vm_writer.py:14-32 | the stage-08 reader reads a written push/pop back as that command, the lower-cased segment and the index |
| JackVmWriter.BranchesReadBack | 11-compiler-code-generation/vm_writer.py:43-67 | written label/goto/if-goto lines read back as those commands with the lower-cased label |
| JackVmWriter.CallFunctionReadBack | 11-compiler-code-generation/vm_writer.py:69-87 | written call/function lines read back as those commands with the lower-cased name and the count |
| JackVmWriter.OperatorReturnReadBack | 11-compiler-code-generation/vm_writer.py:34-41 | a written operator reads back as arithmetic exactly when it is one of the nine mnemonics; `return` reads back as C_RETURN |

## Left out

- I/O: opening, reading and writing files, directory listings, `os.path.realpath`/`isdir`, and the command-line drivers (07 vm_translator.py, 10 jack_analyzer.py, 11 jack_compiler.py). Input is modelled as lines or a string and output as lines. The 08 driver loop is modelled as `VmTranslator.Translate`.
- The Python regex engine: each token pattern is a hand-written prefix matcher.
- `getattr`/`setattr` dispatch: replaced by matches over the command kinds and the rule table.
- `syntax_elements.py` record constructors: mirrored as the `JackSyntax` datatypes.
- VmEmit.IsVariableSegment: follows the evident intent of 07 code_writer.py:162 and 08 code_writer.py:176. As written, those lines add two `dict_keys` views with `+`, which raises `TypeError` under Python 3, so every push or pop other than `push constant` fails there.
- HackAssembler.ToBinary: halves with integer division. assembler.py:80 uses `/=`, which is float division under Python 3; the loop then ends only when halving underflows to `0.0`, so every constant of 1 or more comes out too long and is rejected.
- JackGrammar.Build: the ParameterList and ExpressionList builders use `len(x) > 1`. jack_grammar.py:57,172 refer to an undefined `res`, which raises `NameError` each time either list is parsed.
- JackTokenizer.Tokenize: a failure is a `TokenizerError` carrying the line number. 11 jack_tokenizer.py:83 refers to an undefined `line`, so the source raises `NameError` there instead.
- TokenStream.Advance: models the evident intent of 10 jack_tokenizer.py. That file mixes tabs and spaces at lines 57 and 80, which Python 3 rejects with `TabError`, and its error branch at lines 101-102 refers to undefined `pos` and `line`.
- JackTokenizer.Newlines: counts `"\n"`, taking `os.linesep` to be the POSIX line separator.
- VmEmit.WritePushPop: on a rejected push or pop the model appends nothing. The source has already written the command's comment line when it raises (07 code_writer.py:158, 08 code_writer.py:172). VmEmit.WriteCommand needs no such note: `write_command` writes the comment only inside the matching branch, so an unknown mnemonic leaves nothing behind in the source either.
- HackAssembler.AssembleRejects: the model gives an error and no words. The source opens the `.hack` file (assembler.py:34) before the second pass and writes each word as it goes (assembler.py:56), so a C-instruction rejected in the second pass leaves a partial file. An error in the first pass (assembler.py:31) comes before the file is opened.
- Text.Lower and Text.Upper: change only the ASCII letters, unlike Python's Unicode `str.lower`/`str.upper`.
- JackTokenizer.MatchIntegerConstant: accepts ASCII digits only. Python's `\d` also matches other Unicode decimal digits, which the source would lex as an IntegerConstant and the model rejects.
- JackSymbolTable.KindOf, JackSymbolTable.TypeOf and JackSymbolTable.IndexOf: return None for an unknown name. The source indexes `None` and raises `TypeError`.
- HackMachine.Exec: values are unbounded integers, so there is no 16-bit wrap-around. Only the arithmetic comp forms are executed; the bitwise ones (`!`, `&`, `|`) are not modelled. So `and`, `or` and `not` have no stack-effect lemma; `add`, `sub`, `neg`, `eq`, `gt` and `lt` have theirs (StackArithmetic.AddSub, StackArithmetic.Neg, StackArithmetic.Comparison).
- HackMachine.Resolve: a label is bound to the index of its declaration line in the block being run, not to the address the assembler would give it.
- FunctionEntry.LocalsZeroed: the function's code is taken on its own, starting at address 0, so its loop labels sit at addresses 5 and 16.
- SegmentAccess.PopVariable: requires the target word to be neither SP nor R13, which the pop code itself uses.
- SegmentAccess.PopStatic: requires the target word not to be SP.
- CallFrames.CallReturn: requires the callee to leave LCL, ARG and the saved frame as the call built them, and the stack above the frame.
- HackCode.Comp: the table sizes (8, 28 and 8 entries) and the pairwise distinctness of the codes are not stated as lemmas. Of the difference between an M-form code and its A-form, only the a-bit is stated (HackCode.CompMemoryBit).
- CommandSymbols.Symbol: a mnemonic the category does not list gives `None`, where `symbol` raises `KeyError`. Categories are a datatype, so an unknown category cannot be asked for.

## Findings

| source | as written | input that shows it | evidently intended | confidence | as-written member | corrected member |
|---|---|---|---|---|---|---|
| 11-compiler-code-generation/symbol_table.py:18-24 | `define` numbers a name by the current count of its kind and overwrites an existing entry in place, so a redefinition leaves the count short and a later name reuses an index | `define x var`, `define x var`, `define y var` gives x and y both index 1; `a var, b var, a argument, c var` gives b and c both local 1 | every variable of a kind gets its own slot, which holds when each name is declared once per scope | not executed | JackSymbolTable.RedefinitionSharesIndex, JackSymbolTable.KindChangeSharesIndex | JackSymbolTable.DefineNew, JackSymbolTable.DeclaredSlots |
| 07-vm-stack-arithmetic/code_writer.py:92-99 | `_write_binary_compute` writes `D=A+D`, `D=A&D` and `D=A\|D`, and `_get_address` (code_writer.py:198-214) writes `D=M+D`/`A=M+D`; the assembler's comp table (06-assembler/code.py:26-55) lists only `D+A`, `D&A`, `D\|A` and `D+M`, so the assembler rejects each of these lines with an invalid-mnemonic error | any VM file using `add`, `and`, `or`, or a push/pop on local, argument, this, that, pointer or temp; e.g. the single command `add` | the writer emits the table's spelling with the operands swapped (`D=D+A`, `D=D&A`, `D=D\|A`, `D+M`), which computes the same value and assembles | not executed | Toolchain.BinaryComputeDoesNotAssemble, Toolchain.PushPopVariableDoesNotAssemble | Toolchain.CommutedSpellingAssembles, Toolchain.TableAssignAccepted |
