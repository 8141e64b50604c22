/** The assembler's symbol table (06-assembler/symbol_table.py): the
    predefined symbols, labels bound to ROM addresses by the first pass, and
    variables bound to consecutive RAM addresses from 16 on. */
module HackSymbols {
  import opened Wrappers
  import opened Text
  import HackParser

  datatype SymbolTable = SymbolTable(addresses: map<string, nat>, nextVariable: nat)

  /** The named registers and I/O maps. */
  const Named: map<string, nat> := map[
    "SP" := 0, "LCL" := 1, "ARG" := 2, "THIS" := 3, "THAT" := 4,
    "SCREEN" := 0x4000, "KBD" := 0x6000
  ]

  /** A name spelled with a leading `R`, as every register's is. */
  predicate RegisterSpelled(k: string) {
    |k| > 0 && k[0] == 'R'
  }

  /** `R0` … `R15`, as the constructor's loop adds them. */
  function Registers(): (m: map<string, nat>)
    ensures forall i :: 0 <= i < 16 ==> "R" + NatToString(i) in m && m["R" + NatToString(i)] == i
    ensures forall k :: k in m ==> RegisterSpelled(k)
  {
    forall i, j | 0 <= i < 16 && 0 <= j < 16 && "R" + NatToString(i) == "R" + NatToString(j)
      ensures i == j
    {
      assert NatToString(i) == ("R" + NatToString(i))[1..];
      NatToStringInjective(i, j);
    }
    map i | 0 <= i < 16 :: "R" + NatToString(i) := i
  }

  /** The constructor: the predefined symbols, and variables from 16. */
  function New(): (t: SymbolTable)
    ensures t.nextVariable == 16
    ensures forall s :: s in Named ==> s in t.addresses && t.addresses[s] == Named[s]
    ensures forall i :: 0 <= i < 16 ==> "R" + NatToString(i) in t.addresses && t.addresses["R" + NatToString(i)] == i
    ensures t.addresses.Keys == Named.Keys + Registers().Keys
  {
    SymbolTable(Named + Registers(), 16)
  }

  /** `add_entry`: bind (or rebind) a symbol. */
  function AddEntry(t: SymbolTable, symbol: string, address: nat): (t': SymbolTable)
    ensures symbol in t'.addresses && t'.addresses[symbol] == address
    ensures forall s :: s != symbol ==> (s in t'.addresses <==> s in t.addresses)
    ensures forall s :: s != symbol && s in t.addresses ==> t'.addresses[s] == t.addresses[s]
    ensures t'.nextVariable == t.nextVariable
  {
    t.(addresses := t.addresses[symbol := address])
  }

  /** `add_variable`: bind the symbol to the next free RAM address. */
  function AddVariable(t: SymbolTable, symbol: string): (t': SymbolTable)
    ensures symbol in t'.addresses && t'.addresses[symbol] == t.nextVariable
    ensures t'.nextVariable == t.nextVariable + 1
    ensures forall s :: s != symbol ==> (s in t'.addresses <==> s in t.addresses)
    ensures forall s :: s != symbol && s in t.addresses ==> t'.addresses[s] == t.addresses[s]
  {
    var t1 := AddEntry(t, symbol, t.nextVariable);
    t1.(nextVariable := t.nextVariable + 1)
  }

  /** `contains`. */
  predicate Contains(t: SymbolTable, symbol: string) {
    symbol in t.addresses
  }

  /** `get_address`; the source's dictionary lookup fails on an unknown
      symbol, and its only caller asks after making sure the symbol is in. */
  function GetAddress(t: SymbolTable, symbol: string): nat
    requires Contains(t, symbol)
  {
    t.addresses[symbol]
  }

  /** How many of the commands are not label declarations: the ROM address
      the next instruction will take. */
  function InstructionCount(commands: seq<string>): (n: nat)
    ensures n <= |commands|
  {
    if |commands| == 0 then 0
    else (if HackParser.TypeOf(commands[0]) != HackParser.LCommand then 1 else 0) + InstructionCount(commands[1..])
  }

  /** `SymbolTableBuilder.build` from its loop's state onward: count every
      command that is not a label, and bind each label to the count so far. */
  function BuildFrom(t: SymbolTable, count: nat, commands: seq<string>): (r: Result<SymbolTable, HackParser.ParserError>)
    ensures r.Ok? ==> r.value.nextVariable == t.nextVariable
    decreases |commands|
  {
    if |commands| == 0 then Ok(t)
    else if HackParser.TypeOf(commands[0]) != HackParser.LCommand then
      BuildFrom(t, count + 1, commands[1..])
    else
      var symbol :- HackParser.Symbol(commands[0]);
      BuildFrom(AddEntry(t, symbol, count), count, commands[1..])
  }

  /** The first pass over the whole file. */
  function Build(commands: seq<string>): (r: Result<SymbolTable, HackParser.ParserError>)
    ensures r.Ok? ==> r.value.nextVariable == 16
  {
    BuildFrom(New(), 0, commands)
  }

  /** The labels the commands declare. */
  function Labels(commands: seq<string>): (r: set<string>)
    ensures forall k :: (0 <= k < |commands| && HackParser.TypeOf(commands[k]) == HackParser.LCommand
                         && HackParser.Symbol(commands[k]).Ok?) ==> HackParser.Symbol(commands[k]).value in r
  {
    if |commands| == 0 then {}
    else
      var here := if HackParser.TypeOf(commands[0]) == HackParser.LCommand && HackParser.Symbol(commands[0]).Ok?
        then {HackParser.Symbol(commands[0]).value} else {};
      here + Labels(commands[1..])
  }

  /** A label binds to the ROM address of the instruction that follows it:
      the number of non-label commands before its (last) declaration. */
  lemma {:induction false} LabelAddress(t: SymbolTable, count: nat, pre: seq<string>, name: string, post: seq<string>)
    requires |name| > 0 && HackParser.SymbolChars(name)
    requires name !in Labels(post)
    requires BuildFrom(t, count, pre + ["(" + name + ")"] + post).Ok?
    ensures var r := BuildFrom(t, count, pre + ["(" + name + ")"] + post).value;
      name in r.addresses && r.addresses[name] == count + InstructionCount(pre)
    decreases |pre|
  {
    var cmds := pre + ["(" + name + ")"] + post;
    if |pre| == 0 {
      assert cmds[0] == "(" + name + ")" && cmds[1..] == post;
      HackParser.SymbolOfLabel(name);
      KeepsLabel(AddEntry(t, name, count), count, post, name);
    } else {
      assert cmds[0] == pre[0];
      assert cmds[1..] == pre[1..] + ["(" + name + ")"] + post;
      if HackParser.TypeOf(pre[0]) != HackParser.LCommand {
        LabelAddress(t, count + 1, pre[1..], name, post);
      } else {
        var symbol := HackParser.Symbol(pre[0]).value;
        LabelAddress(AddEntry(t, symbol, count), count, pre[1..], name, post);
      }
    }
  }

  /** After the first pass over a whole file, a label that is not declared
      again later is bound to the number of instructions before it. */
  lemma LabelBound(commands: seq<string>, pre: seq<string>, name: string, post: seq<string>)
    requires |name| > 0 && HackParser.SymbolChars(name)
    requires commands == pre + ["(" + name + ")"] + post
    requires name !in Labels(post)
    requires Build(commands).Ok?
    ensures name in Build(commands).value.addresses
    ensures Build(commands).value.addresses[name] == InstructionCount(pre)
  {
    LabelAddress(New(), 0, pre, name, post);
  }

  /** Commands that do not redeclare a label leave its binding alone. */
  lemma {:induction false} KeepsLabel(t: SymbolTable, count: nat, commands: seq<string>, name: string)
    requires name in t.addresses
    requires name !in Labels(commands)
    requires BuildFrom(t, count, commands).Ok?
    ensures name in BuildFrom(t, count, commands).value.addresses
    ensures BuildFrom(t, count, commands).value.addresses[name] == t.addresses[name]
    decreases |commands|
  {
    if |commands| > 0 {
      if HackParser.TypeOf(commands[0]) != HackParser.LCommand {
        KeepsLabel(t, count + 1, commands[1..], name);
      } else {
        var symbol := HackParser.Symbol(commands[0]).value;
        KeepsLabel(AddEntry(t, symbol, count), count, commands[1..], name);
      }
    }
  }
}
