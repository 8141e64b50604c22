/** The Jack grammar as a table (11-compiler-code-generation/jack_grammar.py):
    every rule has a name, a kind with its elements, and a builder that turns
    the list the parser collects into a syntax record.

    An element is a keyword, a symbol, one of the three token classes, or
    another rule. A rule's kind is one of the four combinators the syntax
    analyzer knows: a sequence of elements, an ordered choice among them
    (called `type` in the source), a list (zero or more repetitions of one
    element) and an optional element. */
module JackGrammar {
  import S = JackSyntax

  /** A rule of the grammar, by number. The rules are numbered so that a
      rule only ever tries a rule with a smaller number before it has
      consumed a token, and the ten rules that can succeed without consuming
      one (the lists and the optionals) come last: the number is the rank
      that makes the recursive descent terminate. */
  type RuleName = r: nat | r < 52

  const ClassName: RuleName := 0
  const SubroutineName: RuleName := 1
  const VarName: RuleName := 2
  const DecScope: RuleName := 3
  const SubroutineType: RuleName := 4
  const CommaPrecededVarName: RuleName := 5
  const CommaPrecededTypedVarName: RuleName := 6
  const SubroutineBody: RuleName := 7
  const VarDec: RuleName := 8
  const Class: RuleName := 9
  const RegularLetStatement: RuleName := 10
  const ArrayEntryLetStatement: RuleName := 11
  const RegularIfStatement: RuleName := 12
  const WhileStatement: RuleName := 13
  const DoStatement: RuleName := 14
  const ReturnExpressionStatement: RuleName := 15
  const ReturnToEndStatement: RuleName := 16
  const ParenExpression: RuleName := 17
  const CommaPrecededExpression: RuleName := 18
  const Op: RuleName := 19
  const UnaryOp: RuleName := 20
  const KeywordConstant: RuleName := 21
  const Type: RuleName := 22
  const ClassVarDec: RuleName := 23
  const SubroutineDec: RuleName := 24
  const LetStatement: RuleName := 25
  const IfElseStatement: RuleName := 26
  const ReturnStatement: RuleName := 27
  const OpTerm: RuleName := 28
  const ArrayVarName: RuleName := 29
  const UnaryOpTerm: RuleName := 30
  const FunctionCall: RuleName := 31
  const MethodCall: RuleName := 32
  const StaticMethodCall: RuleName := 33
  const SubroutineReturnType: RuleName := 34
  const NonEmptyParameterList: RuleName := 35
  const IfStatement: RuleName := 36
  const SubroutineCall: RuleName := 37
  const Statement: RuleName := 38
  const Term: RuleName := 39
  const Expression: RuleName := 40
  const NonEmptyExpressionList: RuleName := 41
  const ClassVarDecs: RuleName := 42
  const SubroutineDecs: RuleName := 43
  const CommaPrecededVarNames: RuleName := 44
  const ParameterList: RuleName := 45
  const CommaPrecededTypedVarNames: RuleName := 46
  const VarDecs: RuleName := 47
  const Statements: RuleName := 48
  const OpTerms: RuleName := 49
  const ExpressionList: RuleName := 50
  const CommaPrecededExpressions: RuleName := 51

  /** An element of a rule: `keyword...`, `symbol...`, `IntegerConstant`,
      `StringConstant`, `Identifier`, or the name of another rule. */
  datatype Element =
    | KeywordElem(keyword: string)
    | SymbolElem(symbol: string)
    | IntegerElem
    | StringElem
    | IdentifierElem
    | RuleElem(rule: RuleName)

  /** The combinator a rule is parsed with: `sequence`, `type`, `list` and
      `optional` in the source. */
  datatype Definition =
    | Sequence(elements: seq<Element>)
    | Choice(options: seq<Element>)
    | List(item: Element)
    | Optional(item: Element)

  /** The rules' names, by number: what the parser puts in front of the
      collected values (`x[0]`) and into its error messages. */
  const RuleNames: seq<string> := [
    "ClassName",
    "SubroutineName",
    "VarName",
    "DecScope",
    "SubroutineType",
    "CommaPrecededVarName",
    "CommaPrecededTypedVarName",
    "SubroutineBody",
    "VarDec",
    "Class",
    "RegularLetStatement",
    "ArrayEntryLetStatement",
    "RegularIfStatement",
    "WhileStatement",
    "DoStatement",
    "ReturnExpressionStatement",
    "ReturnToEndStatement",
    "ParenExpression",
    "CommaPrecededExpression",
    "Op",
    "UnaryOp",
    "KeywordConstant",
    "Type",
    "ClassVarDec",
    "SubroutineDec",
    "LetStatement",
    "IfElseStatement",
    "ReturnStatement",
    "OpTerm",
    "ArrayVarName",
    "UnaryOpTerm",
    "FunctionCall",
    "MethodCall",
    "StaticMethodCall",
    "SubroutineReturnType",
    "NonEmptyParameterList",
    "IfStatement",
    "SubroutineCall",
    "Statement",
    "Term",
    "Expression",
    "NonEmptyExpressionList",
    "ClassVarDecs",
    "SubroutineDecs",
    "CommaPrecededVarNames",
    "ParameterList",
    "CommaPrecededTypedVarNames",
    "VarDecs",
    "Statements",
    "OpTerms",
    "ExpressionList",
    "CommaPrecededExpressions"
  ]

  function Name(r: RuleName): string {
    RuleNames[r]
  }

  /** Whether a rule only succeeds by consuming at least one token: all
      but the lists and the optionals. */
  predicate Consumes(r: RuleName) {
    r < 42
  }

  /** Whether an element only succeeds by consuming at least one token. */
  predicate Consuming(e: Element) {
    !e.RuleElem? || Consumes(e.rule)
  }

  /** Whether an element is a token or a rule numbered below `r`. */
  predicate Below(e: Element, r: RuleName) {
    !e.RuleElem? || e.rule < r
  }

  /** What the analyzer needs of a rule to terminate: a sequence starts with
      a consuming element below it, every option of a choice is consuming
      and below it, and the item of a list or an optional is consuming and
      below it. */
  predicate WellFounded(r: RuleName, d: Definition) {
    match d
    case Sequence(es) => |es| > 0 && Consuming(es[0]) && Below(es[0], r)
    case Choice(os) => forall e :: e in os ==> Consuming(e) && Below(e, r)
    case List(e) => Consuming(e) && Below(e, r)
    case Optional(e) => Consuming(e) && Below(e, r)
  }

  /** `RULES`: each rule's combinator and elements, in the source's order.
      The grammar has no left recursion: what a rule tries at its own
      starting index is consuming and numbered below it. */
  function Def(r: RuleName): (d: Definition)
    ensures Consumes(r) <==> d.Sequence? || d.Choice?
    ensures WellFounded(r, d)
  {
    if r == Class then Sequence([KeywordElem("class"), RuleElem(ClassName), SymbolElem("{"), RuleElem(ClassVarDecs), RuleElem(SubroutineDecs), SymbolElem("}")])
    else if r == ClassVarDecs then List(RuleElem(ClassVarDec))
    else if r == SubroutineDecs then List(RuleElem(SubroutineDec))
    else if r == ClassVarDec then Sequence([RuleElem(DecScope), RuleElem(Type), RuleElem(VarName), RuleElem(CommaPrecededVarNames), SymbolElem(";")])
    else if r == DecScope then Choice([KeywordElem("static"), KeywordElem("field")])
    else if r == CommaPrecededVarNames then List(RuleElem(CommaPrecededVarName))
    else if r == CommaPrecededVarName then Sequence([SymbolElem(","), RuleElem(VarName)])
    else if r == Type then Choice([KeywordElem("int"), KeywordElem("char"), KeywordElem("boolean"), RuleElem(ClassName)])
    else if r == SubroutineDec then Sequence([RuleElem(SubroutineType), RuleElem(SubroutineReturnType), RuleElem(SubroutineName), SymbolElem("("), RuleElem(ParameterList), SymbolElem(")"), RuleElem(SubroutineBody)])
    else if r == SubroutineType then Choice([KeywordElem("constructor"), KeywordElem("function"), KeywordElem("method")])
    else if r == SubroutineReturnType then Choice([KeywordElem("void"), RuleElem(Type)])
    else if r == ParameterList then Optional(RuleElem(NonEmptyParameterList))
    else if r == NonEmptyParameterList then Sequence([RuleElem(Type), RuleElem(VarName), RuleElem(CommaPrecededTypedVarNames)])
    else if r == CommaPrecededTypedVarNames then List(RuleElem(CommaPrecededTypedVarName))
    else if r == CommaPrecededTypedVarName then Sequence([SymbolElem(","), RuleElem(Type), RuleElem(VarName)])
    else if r == SubroutineBody then Sequence([SymbolElem("{"), RuleElem(VarDecs), RuleElem(Statements), SymbolElem("}")])
    else if r == VarDecs then List(RuleElem(VarDec))
    else if r == VarDec then Sequence([KeywordElem("var"), RuleElem(Type), RuleElem(VarName), RuleElem(CommaPrecededVarNames), SymbolElem(";")])
    else if r == ClassName then Sequence([IdentifierElem])
    else if r == SubroutineName then Sequence([IdentifierElem])
    else if r == VarName then Sequence([IdentifierElem])
    else if r == Statements then List(RuleElem(Statement))
    else if r == Statement then Choice([RuleElem(LetStatement), RuleElem(IfStatement), RuleElem(DoStatement), RuleElem(WhileStatement), RuleElem(ReturnStatement)])
    else if r == LetStatement then Choice([RuleElem(RegularLetStatement), RuleElem(ArrayEntryLetStatement)])
    else if r == RegularLetStatement then Sequence([KeywordElem("let"), RuleElem(VarName), SymbolElem("="), RuleElem(Expression), SymbolElem(";")])
    else if r == ArrayEntryLetStatement then Sequence([KeywordElem("let"), RuleElem(ArrayVarName), SymbolElem("="), RuleElem(Expression), SymbolElem(";")])
    else if r == IfStatement then Choice([RuleElem(IfElseStatement), RuleElem(RegularIfStatement)])
    else if r == RegularIfStatement then Sequence([KeywordElem("if"), SymbolElem("("), RuleElem(Expression), SymbolElem(")"), SymbolElem("{"), RuleElem(Statements), SymbolElem("}")])
    else if r == IfElseStatement then Sequence([RuleElem(RegularIfStatement), KeywordElem("else"), SymbolElem("{"), RuleElem(Statements), SymbolElem("}")])
    else if r == WhileStatement then Sequence([KeywordElem("while"), SymbolElem("("), RuleElem(Expression), SymbolElem(")"), SymbolElem("{"), RuleElem(Statements), SymbolElem("}")])
    else if r == DoStatement then Sequence([KeywordElem("do"), RuleElem(SubroutineCall), SymbolElem(";")])
    else if r == ReturnStatement then Choice([RuleElem(ReturnExpressionStatement), RuleElem(ReturnToEndStatement)])
    else if r == ReturnExpressionStatement then Sequence([KeywordElem("return"), RuleElem(Expression), SymbolElem(";")])
    else if r == ReturnToEndStatement then Sequence([KeywordElem("return"), SymbolElem(";")])
    else if r == Expression then Sequence([RuleElem(Term), RuleElem(OpTerms)])
    else if r == OpTerms then List(RuleElem(OpTerm))
    else if r == OpTerm then Sequence([RuleElem(Op), RuleElem(Term)])
    else if r == Term then Choice([IntegerElem, RuleElem(KeywordConstant), StringElem, RuleElem(SubroutineCall), RuleElem(ArrayVarName), RuleElem(VarName), RuleElem(ParenExpression), RuleElem(UnaryOpTerm)])
    else if r == ArrayVarName then Sequence([RuleElem(VarName), SymbolElem("["), RuleElem(Expression), SymbolElem("]")])
    else if r == ParenExpression then Sequence([SymbolElem("("), RuleElem(Expression), SymbolElem(")")])
    else if r == UnaryOpTerm then Sequence([RuleElem(UnaryOp), RuleElem(Term)])
    else if r == SubroutineCall then Choice([RuleElem(FunctionCall), RuleElem(MethodCall), RuleElem(StaticMethodCall)])
    else if r == FunctionCall then Sequence([RuleElem(SubroutineName), SymbolElem("("), RuleElem(ExpressionList), SymbolElem(")")])
    else if r == MethodCall then Sequence([RuleElem(VarName), SymbolElem("."), RuleElem(SubroutineName), SymbolElem("("), RuleElem(ExpressionList), SymbolElem(")")])
    else if r == StaticMethodCall then Sequence([RuleElem(ClassName), SymbolElem("."), RuleElem(SubroutineName), SymbolElem("("), RuleElem(ExpressionList), SymbolElem(")")])
    else if r == ExpressionList then Optional(RuleElem(NonEmptyExpressionList))
    else if r == NonEmptyExpressionList then Sequence([RuleElem(Expression), RuleElem(CommaPrecededExpressions)])
    else if r == CommaPrecededExpressions then List(RuleElem(CommaPrecededExpression))
    else if r == CommaPrecededExpression then Sequence([SymbolElem(","), RuleElem(Expression)])
    else if r == Op then Choice([SymbolElem("+"), SymbolElem("-"), SymbolElem("*"), SymbolElem("/"), SymbolElem("&"), SymbolElem("|"), SymbolElem("<"), SymbolElem(">"), SymbolElem("=")])
    else if r == UnaryOp then Choice([SymbolElem("-"), SymbolElem("~")])
    else Choice([KeywordElem("true"), KeywordElem("false"), KeywordElem("null"), KeywordElem("this")])  // KeywordConstant
  }

  // Python indexing on the builders' argument. The analyzer always hands a
  // builder a list of the shape its rule produces, so the fallbacks (where
  // Python would raise IndexError or TypeError) are never taken.

  /** `x[k]`. */
  function At(x: seq<S.Value>, k: nat): S.Value {
    if k < |x| then x[k] else S.Items([])
  }

  /** `x[1:]`. */
  function Rest(x: seq<S.Value>): S.Value {
    S.Items(if |x| > 0 then x[1..] else [])
  }

  /** `[v] + l` for a Python list `l`. */
  function Cons(v: S.Value, l: S.Value): S.Value {
    S.Items([v] + (if l.Items? then l.items else []))
  }

  /** `t[k]` for a 2-tuple `t`. */
  function Component(t: S.Value, k: nat): S.Value {
    if t.Pair? then (if k == 0 then t.first else t.second) else S.Items([])
  }

  /** `.expression` and `.statements` of a `RegularIfStatement` record. */
  function IfCondition(v: S.Value): S.Value {
    if v.Node? && v.node.RegularIfStatement? then v.node.expression else S.Items([])
  }

  function IfBody(v: S.Value): S.Value {
    if v.Node? && v.node.RegularIfStatement? then v.node.statements else S.Items([])
  }

  /** Each rule's builder (the lambda in its `RULES` entry) applied to `x`,
      whose first entry is the rule's name and whose others are the values
      of the parsed elements.

      The builders of `ParameterList` and `ExpressionList` test `len(res)`,
      a name that is not defined in them, so in the source they raise
      NameError on every call; they are modelled with the evident intent,
      `len(x) > 1`: the non-empty list when the optional part is present,
      `[]` when it is absent. */
  function Build(r: RuleName, x: seq<S.Value>): S.Value {
    if r == Class then S.Node(S.Class(At(x, 2), At(x, 4), At(x, 5)))
    else if r == ClassVarDecs then Rest(x)
    else if r == SubroutineDecs then Rest(x)
    else if r == ClassVarDec then S.Node(S.ClassVarDec(At(x, 1), At(x, 2), Cons(At(x, 3), At(x, 4))))
    else if r == DecScope then At(x, 1)
    else if r == CommaPrecededVarNames then Rest(x)
    else if r == CommaPrecededVarName then At(x, 2)
    else if r == Type then S.Node(S.VarType(At(x, 1)))
    else if r == SubroutineDec then S.Node(S.SubroutineDec(At(x, 1), At(x, 2), At(x, 3), At(x, 5), At(x, 7)))
    else if r == SubroutineType then At(x, 1)
    else if r == SubroutineReturnType then At(x, 1)
    else if r == ParameterList then if |x| > 1 then At(x, 1) else S.Items([])
    else if r == NonEmptyParameterList then Cons(S.Pair(At(x, 1), At(x, 2)), At(x, 3))
    else if r == CommaPrecededTypedVarNames then Rest(x)
    else if r == CommaPrecededTypedVarName then S.Pair(At(x, 2), At(x, 3))
    else if r == SubroutineBody then S.Node(S.SubroutineBody(At(x, 2), At(x, 3)))
    else if r == VarDecs then Rest(x)
    else if r == VarDec then S.Node(S.VarDec(At(x, 2), Cons(At(x, 3), At(x, 4))))
    else if r == ClassName then At(x, 1)
    else if r == SubroutineName then At(x, 1)
    else if r == VarName then At(x, 1)
    else if r == Statements then S.Node(S.Statements(Rest(x)))
    else if r == Statement then S.Node(S.Statement(At(x, 1)))
    else if r == LetStatement then S.Node(S.LetStatement(At(x, 1)))
    else if r == RegularLetStatement then S.Node(S.RegularLetStatement(At(x, 2), At(x, 4)))
    else if r == ArrayEntryLetStatement then S.Node(S.ArrayEntryLetStatement(Component(At(x, 2), 0), Component(At(x, 2), 1), At(x, 4)))
    else if r == IfStatement then S.Node(S.IfStatement(At(x, 1)))
    else if r == RegularIfStatement then S.Node(S.RegularIfStatement(At(x, 3), At(x, 6)))
    else if r == IfElseStatement then S.Node(S.IfElseStatement(IfCondition(At(x, 1)), IfBody(At(x, 1)), At(x, 4)))
    else if r == WhileStatement then S.Node(S.WhileStatement(At(x, 3), At(x, 6)))
    else if r == DoStatement then S.Node(S.DoStatement(At(x, 2)))
    else if r == ReturnStatement then S.Node(S.ReturnStatement(At(x, 1)))
    else if r == ReturnExpressionStatement then S.Node(S.ReturnExpressionStatement(At(x, 2)))
    else if r == ReturnToEndStatement then S.Node(S.ReturnToEndStatement)
    else if r == Expression then S.Node(S.Expression(At(x, 1), At(x, 2)))
    else if r == OpTerms then Rest(x)
    else if r == OpTerm then S.Pair(At(x, 1), At(x, 2))
    else if r == Term then S.Node(S.Term(At(x, 1)))
    else if r == ArrayVarName then S.Pair(At(x, 1), At(x, 3))
    else if r == ParenExpression then At(x, 2)
    else if r == UnaryOpTerm then S.Node(S.UnaryOpTerm(At(x, 1), At(x, 2)))
    else if r == SubroutineCall then S.Node(S.SubroutineCall(At(x, 1)))
    else if r == FunctionCall then S.Node(S.FunctionCall(At(x, 1), At(x, 3)))
    else if r == MethodCall then S.Node(S.MethodCall(At(x, 1), At(x, 3), At(x, 5)))
    else if r == StaticMethodCall then S.Node(S.StaticMethodCall(At(x, 1), At(x, 3), At(x, 5)))
    else if r == ExpressionList then if |x| > 1 then At(x, 1) else S.Items([])
    else if r == NonEmptyExpressionList then Cons(At(x, 1), At(x, 2))
    else if r == CommaPrecededExpressions then Rest(x)
    else if r == CommaPrecededExpression then At(x, 2)
    else if r == Op then S.Node(S.Op(At(x, 1)))
    else if r == UnaryOp then S.Node(S.UnaryOp(At(x, 1)))
    else S.Node(S.KeywordConstant(At(x, 1)))  // KeywordConstant
  }
}
