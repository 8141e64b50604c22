/** What the Jack syntax analyzer (11-compiler-code-generation/syntax_analyzer.py)
    makes of particular rules of the grammar: the order in which a choice
    tries its options decides which of two overlapping rules wins, and the
    builders decide the shape of the records. */
module JackParseFacts {
  import opened Wrappers
  import opened JackGrammar
  import opened SyntaxAnalyzer
  import S = JackSyntax

  /** An absent parameter list is the empty list and uses up no tokens; a
      present one is the non-empty list itself. */
  lemma ParameterListValue(ts: seq<S.Token>, i: nat)
    requires i <= |ts|
    ensures ParseRule(ts, NonEmptyParameterList, i).Err? ==> ParseRule(ts, ParameterList, i) == Ok((S.Items([]), i))
    ensures ParseRule(ts, NonEmptyParameterList, i).Ok? ==> ParseRule(ts, ParameterList, i) == ParseRule(ts, NonEmptyParameterList, i)
  {
    assert Def(ParameterList) == Optional(RuleElem(NonEmptyParameterList));
  }

  /** The same for the argument list of a call. */
  lemma ExpressionListValue(ts: seq<S.Token>, i: nat)
    requires i <= |ts|
    ensures ParseRule(ts, NonEmptyExpressionList, i).Err? ==> ParseRule(ts, ExpressionList, i) == Ok((S.Items([]), i))
    ensures ParseRule(ts, NonEmptyExpressionList, i).Ok? ==> ParseRule(ts, ExpressionList, i) == ParseRule(ts, NonEmptyExpressionList, i)
  {
    assert Def(ExpressionList) == Optional(RuleElem(NonEmptyExpressionList));
  }

  /** A choice between two rules takes the first that succeeds, and fails
      when both do. */
  lemma TwoOptions(ts: seq<S.Token>, r: RuleName, a: RuleName, b: RuleName, i: nat)
    requires i <= |ts| && Def(r) == Choice([RuleElem(a), RuleElem(b)])
    ensures ParseRule(ts, a, i).Ok? ==>
              ParseRule(ts, r, i) == Ok((Build(r, [S.RuleTag(r), ParseRule(ts, a, i).value.0]), ParseRule(ts, a, i).value.1))
    ensures ParseRule(ts, a, i).Err? && ParseRule(ts, b, i).Ok? ==>
              ParseRule(ts, r, i) == Ok((Build(r, [S.RuleTag(r), ParseRule(ts, b, i).value.0]), ParseRule(ts, b, i).value.1))
    ensures ParseRule(ts, a, i).Err? && ParseRule(ts, b, i).Err? ==> ParseRule(ts, r, i) == Err(ChoiceFailed(r))
  {
    if ParseRule(ts, a, i).Ok? {
      ChoiceFirst(ts, r, i, 0);
    } else if ParseRule(ts, b, i).Ok? {
      ChoiceFirst(ts, r, i, 1);
    } else {
      ChoiceNone(ts, r, i);
    }
  }

  /** An `if` with an `else` part is an `IfElseStatement`; without one it
      is a `RegularIfStatement`. */
  lemma IfPrefersElse(ts: seq<S.Token>, i: nat)
    requires i <= |ts|
    ensures ParseRule(ts, IfElseStatement, i).Ok? ==>
              ParseRule(ts, IfStatement, i)
              == Ok((S.Node(S.IfStatement(ParseRule(ts, IfElseStatement, i).value.0)), ParseRule(ts, IfElseStatement, i).value.1))
    ensures ParseRule(ts, IfElseStatement, i).Err? && ParseRule(ts, RegularIfStatement, i).Ok? ==>
              ParseRule(ts, IfStatement, i)
              == Ok((S.Node(S.IfStatement(ParseRule(ts, RegularIfStatement, i).value.0)), ParseRule(ts, RegularIfStatement, i).value.1))
    ensures ParseRule(ts, IfElseStatement, i).Err? && ParseRule(ts, RegularIfStatement, i).Err? ==>
              ParseRule(ts, IfStatement, i) == Err(ChoiceFailed(IfStatement))
  {
    assert Def(IfStatement) == Choice([RuleElem(IfElseStatement), RuleElem(RegularIfStatement)]);
    TwoOptions(ts, IfStatement, IfElseStatement, RegularIfStatement, i);
    forall v: S.Value ensures Build(IfStatement, [S.RuleTag(IfStatement), v]) == S.Node(S.IfStatement(v)) {
    }
  }

  /** A `return` followed by an expression is a `ReturnExpressionStatement`;
      a bare `return;` is a `ReturnToEndStatement`. */
  lemma ReturnPrefersExpression(ts: seq<S.Token>, i: nat)
    requires i <= |ts|
    ensures ParseRule(ts, ReturnExpressionStatement, i).Ok? ==>
              ParseRule(ts, ReturnStatement, i)
              == Ok((S.Node(S.ReturnStatement(ParseRule(ts, ReturnExpressionStatement, i).value.0)),
                    ParseRule(ts, ReturnExpressionStatement, i).value.1))
    ensures ParseRule(ts, ReturnExpressionStatement, i).Err? && ParseRule(ts, ReturnToEndStatement, i).Ok? ==>
              ParseRule(ts, ReturnStatement, i)
              == Ok((S.Node(S.ReturnStatement(S.Node(S.ReturnToEndStatement))), ParseRule(ts, ReturnToEndStatement, i).value.1))
    ensures ParseRule(ts, ReturnExpressionStatement, i).Err? && ParseRule(ts, ReturnToEndStatement, i).Err? ==>
              ParseRule(ts, ReturnStatement, i) == Err(ChoiceFailed(ReturnStatement))
  {
    assert Def(ReturnStatement) == Choice([RuleElem(ReturnExpressionStatement), RuleElem(ReturnToEndStatement)]);
    TwoOptions(ts, ReturnStatement, ReturnExpressionStatement, ReturnToEndStatement, i);
    forall v: S.Value ensures Build(ReturnStatement, [S.RuleTag(ReturnStatement), v]) == S.Node(S.ReturnStatement(v)) {
    }
    if ParseRule(ts, ReturnToEndStatement, i).Ok? {
      ReturnToEndValue(ts, i);
    }
  }

  /** A bare `return;` builds the one record it can. */
  lemma ReturnToEndValue(ts: seq<S.Token>, i: nat)
    requires i <= |ts| && ParseRule(ts, ReturnToEndStatement, i).Ok?
    ensures ParseRule(ts, ReturnToEndStatement, i).value.0 == S.Node(S.ReturnToEndStatement)
  {
    var vs := SequenceParts(ts, ReturnToEndStatement, i);
  }

  /** `ClassName`, `SubroutineName` and `VarName` each accept exactly one
      identifier and give that token. */
  lemma NameRule(ts: seq<S.Token>, r: RuleName, i: nat)
    requires r == ClassName || r == SubroutineName || r == VarName
    requires i <= |ts|
    ensures ParseRule(ts, r, i).Ok? <==> i < |ts| && ts[i].Identifier?
    ensures ParseRule(ts, r, i).Ok? ==> ParseRule(ts, r, i).value == (S.Leaf(ts[i]), i + 1)
  {
    var es := Def(r).elements;
    assert es == [IdentifierElem];
    if i < |ts| && ts[i].Identifier? {
      assert Chain(ts, es[1..], i + 1, [], i + 1);
      SequenceChain(ts, r, i, [S.Leaf(ts[i])], i + 1);
    } else {
      assert es[..0] == [];
      SequenceBreak(ts, r, i, 0, [], i);
    }
  }

  /** A `Class.f(...)` call parses as a `MethodCall` too, with the same
      extent... */
  lemma StaticCallIsMethodCall(ts: seq<S.Token>, i: nat)
    requires i <= |ts| && ParseRule(ts, StaticMethodCall, i).Ok?
    ensures ParseRule(ts, MethodCall, i).Ok?
    ensures ParseRule(ts, MethodCall, i).value.1 == ParseRule(ts, StaticMethodCall, i).value.1
  {
    var j := ParseRule(ts, StaticMethodCall, i).value.1;
    var vs := SequenceParts(ts, StaticMethodCall, i);
    var es, fs := Def(StaticMethodCall).elements, Def(MethodCall).elements;
    assert es[0] == RuleElem(ClassName) && fs[0] == RuleElem(VarName) && es[1..] == fs[1..];
    NameRule(ts, ClassName, i);
    NameRule(ts, VarName, i);
    assert Chain(ts, fs, i, vs, j);
    SequenceChain(ts, MethodCall, i, vs, j);
  }

  /** ...so, since `SubroutineCall` tries `MethodCall` first, a
      `StaticMethodCall` record is never built: every call is a
      `FunctionCall` or a `MethodCall`. */
  lemma NoStaticMethodCall(ts: seq<S.Token>, i: nat)
    requires i <= |ts| && ParseRule(ts, SubroutineCall, i).Ok?
    ensures ParseRule(ts, SubroutineCall, i).value.0.Node?
    ensures ParseRule(ts, SubroutineCall, i).value.0.node.SubroutineCall?
    ensures var c := ParseRule(ts, SubroutineCall, i).value.0.node.subroutineCall;
            c.Node? && (c.node.FunctionCall? || c.node.MethodCall?)
  {
    var os := Def(SubroutineCall).options;
    assert os == [RuleElem(FunctionCall), RuleElem(MethodCall), RuleElem(StaticMethodCall)];
    var k := ChoiceParts(ts, SubroutineCall, i);
    if k == 2 {
      assert ParseElement(ts, os[1], i).Err? && ParseElement(ts, os[2], i).Ok?;
      StaticCallIsMethodCall(ts, i);
      assert false;
    } else {
      var r := if k == 1 then MethodCall else FunctionCall;
      assert os[k] == RuleElem(r);
      var vs := SequenceParts(ts, r, i);
      var v := Build(r, [S.RuleTag(r)] + vs);
      assert v.Node? && (v.node.FunctionCall? || v.node.MethodCall?);
      assert ParseRule(ts, SubroutineCall, i).value.0 == Build(SubroutineCall, [S.RuleTag(SubroutineCall), v]);
    }
  }

  /** An `IfElseStatement` begins with a whole `RegularIfStatement`, whose
      condition and statements it takes over. */
  lemma ElseExtendsIf(ts: seq<S.Token>, i: nat)
    requires i <= |ts| && ParseRule(ts, IfElseStatement, i).Ok?
    ensures ParseRule(ts, RegularIfStatement, i).Ok?
    ensures ParseRule(ts, RegularIfStatement, i).value.1 < ParseRule(ts, IfElseStatement, i).value.1
    ensures var v, w := ParseRule(ts, IfElseStatement, i).value.0, ParseRule(ts, RegularIfStatement, i).value.0;
            v.Node? && v.node.IfElseStatement? && w.Node? && w.node.RegularIfStatement?
            && v.node.expression == w.node.expression && v.node.ifStatements == w.node.statements
  {
    var vs := SequenceParts(ts, IfElseStatement, i);
    var es := Def(IfElseStatement).elements;
    assert es[0] == RuleElem(RegularIfStatement) && es[1] == KeywordElem("else");
    var ws := SequenceParts(ts, RegularIfStatement, i);
    var k := ParseRule(ts, RegularIfStatement, i).value.1;
    assert Chain(ts, es[1..], k, vs[1..], ParseRule(ts, IfElseStatement, i).value.1);
    ChainEnds(ts, es[1..][1..], k + 1, vs[1..][1..], ParseRule(ts, IfElseStatement, i).value.1);
  }

  /** `a[e]` as a term or a target: the identifier `a` and the index `e`. */
  lemma ArrayVarNameFields(ts: seq<S.Token>, i: nat)
    requires i <= |ts| && ParseRule(ts, ArrayVarName, i).Ok?
    ensures i + 2 < |ts| && ts[i].Identifier? && ts[i + 1] == S.Symbol("[")
    ensures ParseRule(ts, Expression, i + 2).Ok?
    ensures ParseRule(ts, ArrayVarName, i).value.0
            == S.Pair(S.Leaf(ts[i]), ParseRule(ts, Expression, i + 2).value.0)
  {
    var k := ParseRule(ts, ArrayVarName, i).value.1;
    var ws := SequenceParts(ts, ArrayVarName, i);
    var fs := Def(ArrayVarName).elements;
    assert fs[0] == RuleElem(VarName) && fs[1] == SymbolElem("[") && fs[2] == RuleElem(Expression);
    NameRule(ts, VarName, i);
    assert ts[i].Identifier? && ws[0] == S.Leaf(ts[i]);
    assert Chain(ts, fs[1..], i + 1, ws[1..], k);
    assert ts[i + 1] == S.Symbol("[");
    assert Chain(ts, fs[1..][1..], i + 2, ws[1..][1..], k);
    assert ParseRule(ts, Expression, i + 2).Ok? && ParseRule(ts, Expression, i + 2).value.0 == ws[2];
  }

  /** `let a[e1] = e2;`: the record's `expression` attribute holds the
      index `e1`, and `exp_index` holds the assigned value `e2`. */
  lemma ArrayEntryLetFields(ts: seq<S.Token>, i: nat)
    requires i <= |ts| && ParseRule(ts, ArrayEntryLetStatement, i).Ok?
    ensures i + 3 < |ts| && ts[i] == S.Keyword("let") && ts[i + 1].Identifier? && ts[i + 2] == S.Symbol("[")
    ensures ParseRule(ts, Expression, i + 3).Ok?
    ensures var v := ParseRule(ts, ArrayEntryLetStatement, i).value.0;
            v.Node? && v.node.ArrayEntryLetStatement? && v.node.varName == S.Leaf(ts[i + 1])
            && v.node.expression == ParseRule(ts, Expression, i + 3).value.0
  {
    var j := ParseRule(ts, ArrayEntryLetStatement, i).value.1;
    var vs := SequenceParts(ts, ArrayEntryLetStatement, i);
    var es := Def(ArrayEntryLetStatement).elements;
    assert es[0] == KeywordElem("let") && es[1] == RuleElem(ArrayVarName);
    assert ts[i] == S.Keyword("let");
    assert Chain(ts, es[1..], i + 1, vs[1..], j);
    assert ParseRule(ts, ArrayVarName, i + 1).Ok? && ParseRule(ts, ArrayVarName, i + 1).value.0 == vs[1];
    ArrayVarNameFields(ts, i + 1);
  }

  /** An `(op, term)` pair of an expression. */
  predicate IsOpTerm(v: S.Value) {
    v.Pair? && v.first.Node? && v.first.node.Op? && v.second.Node? && v.second.node.Term?
  }

  /** `Term` builds a `Term` record. */
  lemma TermValue(ts: seq<S.Token>, i: nat)
    requires i <= |ts| && ParseRule(ts, Term, i).Ok?
    ensures ParseRule(ts, Term, i).value.0.Node? && ParseRule(ts, Term, i).value.0.node.Term?
  {
    var _ := ChoiceParts(ts, Term, i);
  }

  /** `OpTerm` builds an `(op, term)` pair. */
  lemma OpTermValue(ts: seq<S.Token>, i: nat)
    requires i <= |ts| && ParseRule(ts, OpTerm, i).Ok?
    ensures IsOpTerm(ParseRule(ts, OpTerm, i).value.0)
  {
    var vs := SequenceParts(ts, OpTerm, i);
    var es := Def(OpTerm).elements;
    assert es[0] == RuleElem(Op) && es[1] == RuleElem(Term);
    var _ := ChoiceParts(ts, Op, i);
    TermValue(ts, ParseRule(ts, Op, i).value.1);
  }

  lemma {:induction false} OpTermsValues(ts: seq<S.Token>, i: nat, vs: seq<S.Value>, j: nat)
    requires Repeats(ts, RuleElem(OpTerm), i, vs, j)
    ensures forall k :: 0 <= k < |vs| ==> IsOpTerm(vs[k])
    decreases |vs|
  {
    if |vs| > 0 {
      OpTermValue(ts, i);
      OpTermsValues(ts, ParseRule(ts, OpTerm, i).value.1, vs[1..], j);
      assert forall k :: 1 <= k < |vs| ==> vs[k] == vs[1..][k - 1];
    }
  }

  /** An expression is flat: its first term, then a list of `(op, term)`
      pairs in source order, with no precedence between the operators. */
  lemma ExpressionFlat(ts: seq<S.Token>, i: nat)
    requires i <= |ts| && ParseRule(ts, Expression, i).Ok?
    ensures var v := ParseRule(ts, Expression, i).value.0;
            v.Node? && v.node.Expression? && v.node.firstTerm.Node? && v.node.firstTerm.node.Term?
            && v.node.opTermList.Items?
            && forall k :: 0 <= k < |v.node.opTermList.items| ==> IsOpTerm(v.node.opTermList.items[k])
  {
    var vs := SequenceParts(ts, Expression, i);
    var es := Def(Expression).elements;
    assert es[0] == RuleElem(Term) && es[1] == RuleElem(OpTerms);
    TermValue(ts, i);
    var m := ParseRule(ts, Term, i).value.1;
    var ws := ListParts(ts, OpTerms, m);
    assert Def(OpTerms).item == RuleElem(OpTerm);
    OpTermsValues(ts, m, ws, ParseRule(ts, OpTerms, m).value.1);
  }

  /** A whole program is one class: `class`, its name, `{`, and a closing
      `}` as the last token... */
  lemma ClassTokens(ts: seq<S.Token>)
    requires Parse(ts).Ok?
    ensures 3 < |ts| && ts[0] == S.Keyword("class") && ts[1].Identifier? && ts[2] == S.Symbol("{")
    ensures ts[|ts| - 1] == S.Symbol("}")
  {
    var vs := SequenceParts(ts, Class, 0);
    var es := Def(Class).elements;
    assert es[0] == KeywordElem("class") && es[1] == RuleElem(ClassName) && es[2] == SymbolElem("{");
    assert |es| == 6 && es[5] == SymbolElem("}");
    assert Chain(ts, es[1..], 1, vs[1..], |ts|);
    NameRule(ts, ClassName, 1);
    assert Chain(ts, es[1..][1..], 2, vs[1..][1..], |ts|);
    var p5 := ChainElement(ts, es, 0, vs, |ts|, 5);
  }

  /** ...and its record takes the class name and the two lists of
      declarations. */
  lemma ClassRecord(ts: seq<S.Token>)
    requires Parse(ts).Ok?
    ensures 1 < |ts|
    ensures var v := Parse(ts).value;
            v.Node? && v.node.Class? && v.node.className == S.Leaf(ts[1])
            && v.node.classVarDecs.Items? && v.node.subroutineDecs.Items?
  {
    var vs := SequenceParts(ts, Class, 0);
    var es := Def(Class).elements;
    assert es[0] == KeywordElem("class") && es[1] == RuleElem(ClassName);
    assert |es| == 6 && es[3] == RuleElem(ClassVarDecs) && es[4] == RuleElem(SubroutineDecs);
    assert Chain(ts, es[1..], 1, vs[1..], |ts|);
    NameRule(ts, ClassName, 1);
    var p3 := ChainElement(ts, es, 0, vs, |ts|, 3);
    var _ := ListParts(ts, ClassVarDecs, p3);
    var p4 := ChainElement(ts, es, 0, vs, |ts|, 4);
    var _ := ListParts(ts, SubroutineDecs, p4);
  }
}
