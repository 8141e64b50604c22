/** The Jack compiler's symbol table (11-compiler-code-generation/symbol_table.py):
    a subroutine scope of its own, a Python dict from names to
    `(type, kind, index)`, nested inside an optional class table that is
    consulted when a name is not found locally. */
module JackSymbolTable {
  import opened Wrappers

  /** An identifier's properties: its type, its kind and its running index. */
  datatype Entry = Entry(varType: string, kind: string, index: nat)

  /** A Python dict from names to entries, in insertion order. */
  type Scope = seq<(string, Entry)>

  /** `class_table` is another table or `None`; `_sub_table` is the scope. */
  datatype SymbolTable = SymbolTable(classTable: Option<SymbolTable>, subTable: Scope)

  /** No name occurs twice, as in a dict. */
  predicate Unique(s: Scope) {
    forall p, q :: 0 <= p < q < |s| ==> s[p].0 != s[q].0
  }

  /** `s[name]`, or `None` when `name not in s`. */
  function Lookup(s: Scope, name: string): Option<Entry>
  {
    if |s| == 0 then None
    else if s[|s| - 1].0 == name then Some(s[|s| - 1].1)
    else Lookup(s[..|s| - 1], name)
  }

  /** A name the scope does not hold occurs nowhere in it. */
  lemma {:induction false} LookupNone(s: Scope, name: string)
    requires Lookup(s, name).None?
    ensures forall p :: 0 <= p < |s| ==> s[p].0 != name
    decreases |s|
  {
    if |s| > 0 {
      LookupNone(s[..|s| - 1], name);
      assert forall p :: 0 <= p < |s| - 1 ==> s[p] == s[..|s| - 1][p];
    }
  }

  /** An existing key takes the new value in place. */
  function Replace(s: Scope, name: string, e: Entry): (r: Scope)
    requires Lookup(s, name).Some?
    ensures |r| == |s| && forall p :: 0 <= p < |s| ==> r[p].0 == s[p].0
    ensures Lookup(r, name) == Some(e)
    ensures forall m :: m != name ==> Lookup(r, m) == Lookup(s, m)
    decreases |s|
  {
    var last := s[|s| - 1];
    var r := if last.0 == name then s[..|s| - 1] + [(name, e)] else Replace(s[..|s| - 1], name, e) + [last];
    assert r[..|r| - 1] == if last.0 == name then s[..|s| - 1] else Replace(s[..|s| - 1], name, e);
    r
  }

  /** `s[name] = e`: an existing key keeps its place and takes the new
      value, a new key goes at the end. */
  function Put(s: Scope, name: string, e: Entry): (r: Scope)
    ensures Lookup(r, name) == Some(e)
    ensures forall m :: m != name ==> Lookup(r, m) == Lookup(s, m)
    ensures Lookup(s, name).None? ==> r == s + [(name, e)]
    ensures Lookup(s, name).Some? ==> |r| == |s| && forall p :: 0 <= p < |s| ==> r[p].0 == s[p].0
    ensures Unique(s) ==> Unique(r)
  {
    if Lookup(s, name).None? then
      var r := s + [(name, e)];
      assert r[..|r| - 1] == s;
      LookupNone(s, name);
      r
    else Replace(s, name, e)
  }

  /** The number of entries of the given kind. */
  function Count(s: Scope, kind: string): nat
  {
    if |s| == 0 then 0
    else Count(s[..|s| - 1], kind) + (if s[|s| - 1].1.kind == kind then 1 else 0)
  }

  /** `SymbolTable(class_table)`: an empty subroutine scope. */
  function New(classTable: Option<SymbolTable>): (t: SymbolTable)
    ensures forall kind :: SubroutineCount(t, kind) == 0
    ensures forall name :: Lookup(t.subTable, name).None?
  {
    SymbolTable(classTable, [])
  }

  /** `subroutine_count`: the entries of the kind in this scope alone. */
  function SubroutineCount(t: SymbolTable, kind: string): nat {
    Count(t.subTable, kind)
  }

  /** `define`: the entry's index is the number of entries of its kind
      already in the subroutine scope, and the name's old entry, if any,
      is overwritten. */
  function Define(t: SymbolTable, name: string, varType: string, kind: string): (r: SymbolTable)
    ensures r.classTable == t.classTable
    ensures Lookup(r.subTable, name) == Some(Entry(varType, kind, SubroutineCount(t, kind)))
    ensures forall m :: m != name ==> Lookup(r.subTable, m) == Lookup(t.subTable, m)
  {
    t.(subTable := Put(t.subTable, name, Entry(varType, kind, SubroutineCount(t, kind))))
  }

  /** `var_count`: this scope's count plus the class table's, when there
      is one. */
  function VarCount(t: SymbolTable, kind: string): (n: nat)
    ensures n >= SubroutineCount(t, kind)
    ensures t.classTable.None? ==> n == SubroutineCount(t, kind)
    ensures t.classTable.Some? ==> n == SubroutineCount(t, kind) + VarCount(t.classTable.value, kind)
    decreases t
  {
    match t.classTable
    case None => SubroutineCount(t, kind)
    case Some(c) => SubroutineCount(t, kind) + VarCount(c, kind)
  }

  /** `find`: the subroutine scope first, then the class table, then
      `None`. */
  function Find(t: SymbolTable, name: string): (r: Option<Entry>)
    ensures Lookup(t.subTable, name).Some? ==> r == Lookup(t.subTable, name)
    ensures Lookup(t.subTable, name).None? && t.classTable.Some? ==> r == Find(t.classTable.value, name)
    ensures Lookup(t.subTable, name).None? && t.classTable.None? ==> r.None?
    decreases t
  {
    match Lookup(t.subTable, name)
    case Some(e) => Some(e)
    case None =>
      match t.classTable
      case None => None
      case Some(c) => Find(c, name)
  }

  /** `kind_of`, `type_of` and `index_of` read fields 1, 0 and 2 of
      `find`; for an unknown name `find` gives `None` and the subscript
      raises, which is `None` here. */
  function KindOf(t: SymbolTable, name: string): (r: Option<string>)
    ensures r.Some? <==> Find(t, name).Some?
    ensures r.Some? ==> r.value == Find(t, name).value.kind
  {
    match Find(t, name)
    case None => None
    case Some(e) => Some(e.kind)
  }

  function TypeOf(t: SymbolTable, name: string): (r: Option<string>)
    ensures r.Some? <==> Find(t, name).Some?
    ensures r.Some? ==> r.value == Find(t, name).value.varType
  {
    match Find(t, name)
    case None => None
    case Some(e) => Some(e.varType)
  }

  function IndexOf(t: SymbolTable, name: string): (r: Option<nat>)
    ensures r.Some? <==> Find(t, name).Some?
    ensures r.Some? ==> r.value == Find(t, name).value.index
  {
    match Find(t, name)
    case None => None
    case Some(e) => Some(e.index)
  }

  // What `define` does to the other operations.

  /** A defined name is found with its new entry, shadowing any entry the
      class table has for it; every other name is found as before. */
  lemma FindAfterDefine(t: SymbolTable, name: string, varType: string, kind: string, other: string)
    requires other != name
    ensures Find(Define(t, name, varType, kind), name) == Some(Entry(varType, kind, SubroutineCount(t, kind)))
    ensures IndexOf(Define(t, name, varType, kind), name) == Some(SubroutineCount(t, kind))
    ensures KindOf(Define(t, name, varType, kind), name) == Some(kind)
    ensures TypeOf(Define(t, name, varType, kind), name) == Some(varType)
    ensures Find(Define(t, name, varType, kind), other) == Find(t, other)
  {
  }

  lemma {:induction false} CountReplace(s: Scope, name: string, e: Entry, kind: string)
    requires Lookup(s, name).Some?
    ensures Count(Replace(s, name, e), kind)
            == Count(s, kind) + (if e.kind == kind then 1 else 0)
               - (if Lookup(s, name).value.kind == kind then 1 else 0)
    decreases |s|
  {
    var r := Replace(s, name, e);
    assert r[..|r| - 1] == if s[|s| - 1].0 == name then s[..|s| - 1] else Replace(s[..|s| - 1], name, e);
    if s[|s| - 1].0 != name {
      CountReplace(s[..|s| - 1], name, e, kind);
    }
  }

  lemma CountPut(s: Scope, name: string, e: Entry, kind: string)
    ensures Count(Put(s, name, e), kind)
            == Count(s, kind) + (if e.kind == kind then 1 else 0)
               - (if Lookup(s, name).Some? && Lookup(s, name).value.kind == kind then 1 else 0)
  {
    if Lookup(s, name).Some? {
      CountReplace(s, name, e, kind);
    } else {
      var r := Put(s, name, e);
      assert r[..|r| - 1] == s;
    }
  }

  /** Defining a new name adds one to its kind's counts; redefining a name
      moves it from its old kind's counts to its new kind's. */
  lemma CountAfterDefine(t: SymbolTable, name: string, varType: string, kind: string, k: string)
    ensures var prior := Lookup(t.subTable, name);
            SubroutineCount(Define(t, name, varType, kind), k)
            == SubroutineCount(t, k) + (if kind == k then 1 else 0)
               - (if prior.Some? && prior.value.kind == k then 1 else 0)
    ensures var prior := Lookup(t.subTable, name);
            VarCount(Define(t, name, varType, kind), k)
            == VarCount(t, k) + (if kind == k then 1 else 0)
               - (if prior.Some? && prior.value.kind == k then 1 else 0)
  {
    CountPut(t.subTable, name, Entry(varType, kind, SubroutineCount(t, kind)), k);
  }

  // Running indices.

  /** Every entry's index is the number of entries of its kind before it:
      what a scope built by defining fresh names looks like. */
  ghost predicate Numbered(s: Scope) {
    forall p :: 0 <= p < |s| ==> NumberedAt(s, p)
  }

  ghost predicate NumberedAt(s: Scope, p: nat)
    requires p < |s|
  {
    s[p].1.index == Count(s[..p], s[p].1.kind)
  }

  /** Defining a name the scope does not hold keeps the numbering. */
  lemma DefineFreshNumbered(t: SymbolTable, name: string, varType: string, kind: string)
    requires Numbered(t.subTable) && Lookup(t.subTable, name).None?
    ensures Numbered(Define(t, name, varType, kind).subTable)
  {
    var s := t.subTable;
    var r := Define(t, name, varType, kind).subTable;
    assert r == s + [(name, Entry(varType, kind, Count(s, kind)))];
    forall p | 0 <= p < |r|
      ensures NumberedAt(r, p)
    {
      if p < |s| {
        assert NumberedAt(s, p);
        assert r[..p] == s[..p];
      } else {
        assert r[..p] == s;
      }
    }
  }

  lemma {:induction false} CountPrefix(s: Scope, kind: string, p: nat, q: nat)
    requires p <= q <= |s|
    ensures Count(s[..p], kind) <= Count(s[..q], kind)
    decreases q - p
  {
    if p < q {
      CountPrefix(s, kind, p, q - 1);
      assert s[..q][..q - 1] == s[..q - 1];
    }
  }

  lemma CountStep(s: Scope, kind: string, p: nat)
    requires p < |s|
    ensures Count(s[..p + 1], kind) == Count(s[..p], kind) + (if s[p].1.kind == kind then 1 else 0)
  {
    assert s[..p + 1][..p] == s[..p];
  }

  /** In a numbered scope, entries of one kind have strictly increasing,
      hence distinct, indices, all below the kind's count: every variable
      gets a slot of its own inside the segment. */
  lemma NumberedSlots(s: Scope, p: nat, q: nat)
    requires Numbered(s) && p < q < |s| && s[p].1.kind == s[q].1.kind
    ensures s[p].1.index < s[q].1.index < Count(s, s[q].1.kind)
  {
    var k := s[q].1.kind;
    assert NumberedAt(s, p) && NumberedAt(s, q);
    CountStep(s, k, p);
    CountPrefix(s, k, p + 1, q);
    CountStep(s, k, q);
    CountPrefix(s, k, q + 1, |s|);
    assert s[..|s|] == s;
  }

  /** Redefining a name in place keeps the kind's count where it was, so
      the index the redefinition took is handed out again: after `x`, `x`,
      the next name of that kind, `y`, shares index 1 with `x`. */
  lemma RedefinitionSharesIndex(c: Option<SymbolTable>)
    ensures var t := Define(Define(Define(New(c), "x", "int", "var"), "x", "int", "var"), "y", "int", "var");
            IndexOf(t, "x") == Some(1) && IndexOf(t, "y") == Some(1)
  {
    var t1 := Define(New(c), "x", "int", "var");
    assert t1.subTable == [("x", Entry("int", "var", 0))];
    assert SubroutineCount(t1, "var") == 1;
    var t2 := Define(t1, "x", "int", "var");
    assert t2.subTable == [("x", Entry("int", "var", 1))];
    assert SubroutineCount(t2, "var") == 1;
    var t3 := Define(t2, "y", "int", "var");
    assert Lookup(t3.subTable, "x") == Lookup(t2.subTable, "x");
  }

  /** Moving a name to another kind frees a place in its old kind's count:
      in `a var, b var, a argument, c var`, `b` and `c` are both local 1. */
  lemma KindChangeSharesIndex(c: Option<SymbolTable>)
    ensures var t := Define(Define(Define(Define(New(c), "a", "int", "var"), "b", "int", "var"),
                                   "a", "int", "argument"), "c", "int", "var");
            IndexOf(t, "b") == Some(1) && IndexOf(t, "c") == Some(1)
            && KindOf(t, "b") == Some("var") && KindOf(t, "c") == Some("var")
  {
    var t1 := Define(New(c), "a", "int", "var");
    assert t1.subTable == [("a", Entry("int", "var", 0))];
    assert SubroutineCount(t1, "var") == 1;
    var t2 := Define(t1, "b", "int", "var");
    CountAfterDefine(t1, "b", "int", "var", "var");
    assert Lookup(t2.subTable, "a") == Some(Entry("int", "var", 0));
    var t3 := Define(t2, "a", "int", "argument");
    CountAfterDefine(t2, "a", "int", "argument", "var");
    assert SubroutineCount(t3, "var") == 1;
    var t4 := Define(t3, "c", "int", "var");
    assert Lookup(t4.subTable, "b") == Lookup(t3.subTable, "b") == Lookup(t2.subTable, "b");
  }

  // Declarations as the Jack language means them: a name is declared once
  // per subroutine scope.

  /** `define` refusing a name the subroutine scope already holds, instead
      of overwriting it. */
  function DefineNew(t: SymbolTable, name: string, varType: string, kind: string): (r: Option<SymbolTable>)
    ensures r.None? <==> Lookup(t.subTable, name).Some?
    ensures r.Some? ==> Find(r.value, name) == Some(Entry(varType, kind, SubroutineCount(t, kind)))
    ensures r.Some? ==> forall m :: m != name ==> Find(r.value, m) == Find(t, m)
    ensures r.Some? ==> SubroutineCount(r.value, kind) == SubroutineCount(t, kind) + 1
  {
    if Lookup(t.subTable, name).Some? then None
    else
      CountPut(t.subTable, name, Entry(varType, kind, SubroutineCount(t, kind)), kind);
      Some(Define(t, name, varType, kind))
  }

  /** A sequence of `(name, type, kind)` declarations, each refused if its
      name is already declared. */
  function DeclareAll(t: SymbolTable, ds: seq<(string, string, string)>): (r: Option<SymbolTable>)
    decreases |ds|
  {
    if |ds| == 0 then Some(t)
    else
      match DefineNew(t, ds[0].0, ds[0].1, ds[0].2)
      case None => None
      case Some(t1) => DeclareAll(t1, ds[1..])
  }

  /** Without redeclarations every variable gets a slot of its own: in the
      resulting scope, entries of one kind have strictly increasing indices,
      all below the kind's count. */
  lemma {:induction false} DeclaredSlots(t: SymbolTable, ds: seq<(string, string, string)>)
    requires Numbered(t.subTable)
    requires DeclareAll(t, ds).Some?
    ensures var s := DeclareAll(t, ds).value.subTable;
            forall p, q :: 0 <= p < q < |s| && s[p].1.kind == s[q].1.kind ==>
              s[p].1.index < s[q].1.index < Count(s, s[q].1.kind)
    decreases |ds|
  {
    if |ds| == 0 {
      var s := t.subTable;
      forall p, q | 0 <= p < q < |s| && s[p].1.kind == s[q].1.kind
        ensures s[p].1.index < s[q].1.index < Count(s, s[q].1.kind)
      {
        NumberedSlots(s, p, q);
      }
    } else {
      var t1 := DefineNew(t, ds[0].0, ds[0].1, ds[0].2).value;
      DefineFreshNumbered(t, ds[0].0, ds[0].1, ds[0].2);
      DeclaredSlots(t1, ds[1..]);
    }
  }

  /** An empty scope is numbered, so the above holds for every subroutine
      whose declarations are all accepted. */
  lemma NewNumbered(c: Option<SymbolTable>)
    ensures Numbered(New(c).subTable)
  {
  }
}
