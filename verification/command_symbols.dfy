/** The classifier of the nine arithmetic/logical VM commands
    (07-vm-stack-arithmetic/command_symbols.py): three generation categories,
    each an ordered table from mnemonic to the symbol its code needs — an ALU
    operator for the compute categories, a jump condition for comparisons. */
module CommandSymbols {
  import opened Wrappers

  datatype Category = BinaryCompute | UnaryCompute | BinaryLogic

  /** The category's key in the source's table; the code writer derives the
      name of its `_write_<key>` routine from it. */
  function Key(c: Category): string {
    match c
    case BinaryCompute => "binary_compute"
    case UnaryCompute => "unary_compute"
    case BinaryLogic => "binary_logic"
  }

  /** `types()`: the categories in table order. */
  function Types(): seq<Category> {
    [BinaryCompute, UnaryCompute, BinaryLogic]
  }

  /** The (mnemonic, symbol) entries of one category, in table order. */
  function Entries(c: Category): seq<(string, string)> {
    match c
    case BinaryCompute => [("add", "+"), ("sub", "-"), ("and", "&"), ("or", "|")]
    case UnaryCompute => [("not", "!"), ("neg", "-")]
    case BinaryLogic => [("eq", "JEQ"), ("gt", "JGT"), ("lt", "JLT")]
  }

  /** `type_commands(c)`: the mnemonics of one category. */
  function TypeCommands(c: Category): (ms: seq<string>)
    ensures |ms| == |Entries(c)|
    ensures forall i :: 0 <= i < |ms| ==> ms[i] == Entries(c)[i].0
  {
    seq(|Entries(c)|, i requires 0 <= i < |Entries(c)| => Entries(c)[i].0)
  }

  /** Looking a category up by its key; any other key is a lookup error. */
  function CategoryOf(key: string): (r: Option<Category>)
    ensures r.None? ==> forall c :: Key(c) != key
    ensures r.Some? ==> Key(r.value) == key
  {
    if key == "binary_compute" then Some(BinaryCompute)
    else if key == "unary_compute" then Some(UnaryCompute)
    else if key == "binary_logic" then Some(BinaryLogic)
    else None
  }

  /** `all_commands()`: every mnemonic, category by category. */
  function AllCommands(): seq<string> {
    TypeCommands(BinaryCompute) + TypeCommands(UnaryCompute) + TypeCommands(BinaryLogic)
  }

  function Lookup(es: seq<(string, string)>, m: string): (r: Option<string>)
    ensures r.Some? <==> exists i :: 0 <= i < |es| && es[i].0 == m
    ensures r.Some? ==> exists i :: 0 <= i < |es| && es[i] == (m, r.value)
  {
    if |es| == 0 then None
    else if es[0].0 == m then Some(es[0].1)
    else
      var r := Lookup(es[1..], m);
      assert forall i :: 1 <= i < |es| ==> es[i] == es[1..][i - 1];
      r
  }

  /** `symbol(c, m)`: the symbol of mnemonic `m` in category `c`; a mnemonic
      outside the category is a lookup error. */
  function Symbol(c: Category, m: string): (r: Option<string>)
    ensures r.Some? <==> m in TypeCommands(c)
  {
    Lookup(Entries(c), m)
  }

  /** The category `write_command` dispatches to: the first category, in
      `Types()` order, whose table holds the mnemonic. */
  function Classify(m: string): (r: Option<Category>)
    ensures r.Some? ==> m in TypeCommands(r.value)
    ensures r.None? ==> forall c :: m !in TypeCommands(c)
  {
    if m in TypeCommands(BinaryCompute) then Some(BinaryCompute)
    else if m in TypeCommands(UnaryCompute) then Some(UnaryCompute)
    else if m in TypeCommands(BinaryLogic) then Some(BinaryLogic)
    else None
  }

  /** Exactly nine mnemonics, no two alike. */
  lemma AllCommandsDistinct()
    ensures |AllCommands()| == 9
    ensures forall i, j :: 0 <= i < j < |AllCommands()| ==> AllCommands()[i] != AllCommands()[j]
    ensures AllCommands() == ["add", "sub", "and", "or", "not", "neg", "eq", "gt", "lt"]
  {
    assert TypeCommands(BinaryCompute) == ["add", "sub", "and", "or"];
    assert TypeCommands(UnaryCompute) == ["not", "neg"];
    assert TypeCommands(BinaryLogic) == ["eq", "gt", "lt"];
  }

  /** No mnemonic belongs to two categories, so the first-match dispatch of
      `Classify` is the only match. */
  lemma CategoriesDisjoint(c1: Category, c2: Category, m: string)
    requires m in TypeCommands(c1) && m in TypeCommands(c2)
    ensures c1 == c2
  {
    assert TypeCommands(BinaryCompute) == ["add", "sub", "and", "or"];
    assert TypeCommands(UnaryCompute) == ["not", "neg"];
    assert TypeCommands(BinaryLogic) == ["eq", "gt", "lt"];
  }

  /** Classification is exact: a mnemonic is classified into `c` exactly when
      `c`'s table lists it, and it then has a symbol there. */
  lemma ClassifyExact(m: string, c: Category)
    ensures Classify(m) == Some(c) <==> m in TypeCommands(c)
    ensures Classify(m) == Some(c) ==> Symbol(c, m).Some?
  {
    if m in TypeCommands(c) {
      if Classify(m).Some? { CategoriesDisjoint(Classify(m).value, c, m); }
    }
  }

  /** The comparisons are exactly `eq`, `gt` and `lt`. */
  lemma Comparisons(m: string)
    ensures Classify(m) == Some(BinaryLogic) <==> m in ["eq", "gt", "lt"]
  {
    ClassifyExact(m, BinaryLogic);
    assert TypeCommands(BinaryLogic) == ["eq", "gt", "lt"];
  }

  /** The symbols each category hands to its code generator. */
  lemma SymbolsPerCategory(m: string)
    ensures Symbol(BinaryCompute, m).Some? ==> Symbol(BinaryCompute, m).value in ["+", "-", "&", "|"]
    ensures Symbol(UnaryCompute, m).Some? ==> Symbol(UnaryCompute, m).value in ["!", "-"]
    ensures Symbol(BinaryLogic, m).Some? ==> Symbol(BinaryLogic, m).value in ["JEQ", "JGT", "JLT"]
  {
  }
}
