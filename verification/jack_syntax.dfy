/** The Jack syntax elements (11-compiler-code-generation/syntax_elements.py):
    the five kinds of token the tokenizer produces, and the records the
    grammar's builders assemble into a parse tree.

    The Python builders are dynamically typed: a record field holds a token,
    a list, a pair or another record. `Value` is that universe of Python
    values, and `Syntax` holds one constructor per record class, with the
    class's attribute names. */
module JackSyntax {

  /** The lexical elements. */
  datatype Token =
    | Keyword(keyword: string)
    | Symbol(symbol: string)
    | IntegerConstant(integerConstant: string)
    | StringConstant(stringConstant: string)
    | Identifier(identifier: string)

  /** What a parser function returns: a token, a Python list, a 2-tuple or
      a record; `RuleTag` is the rule's name that a builder receives as
      `x[0]` (and never reads), held as the rule's number in the grammar. */
  datatype Value =
    | Leaf(token: Token)
    | Items(items: seq<Value>)
    | Pair(first: Value, second: Value)
    | Node(node: Syntax)
    | RuleTag(rule: nat)

  /** The record classes a builder can construct. */
  datatype Syntax =
    | Class(className: Value, classVarDecs: Value, subroutineDecs: Value)
    | ClassVarDec(scope: Value, varType: Value, varNames: Value)
    | VarType(varType: Value)
    | SubroutineDec(subroutineType: Value, returnType: Value, name: Value, parameterList: Value, body: Value)
    | SubroutineBody(varDecs: Value, statements: Value)
    | VarDec(varType: Value, varNames: Value)
    | Statements(statements: Value)
    | Statement(statement: Value)
    | LetStatement(letStatement: Value)
    | RegularLetStatement(varName: Value, expression: Value)
    | ArrayEntryLetStatement(varName: Value, expression: Value, expIndex: Value)
    | IfStatement(ifStatement: Value)
    | RegularIfStatement(expression: Value, statements: Value)
    | IfElseStatement(expression: Value, ifStatements: Value, elseStatements: Value)
    | WhileStatement(expression: Value, statements: Value)
    | DoStatement(subroutineCall: Value)
    | ReturnStatement(returnStatement: Value)
    | ReturnExpressionStatement(expression: Value)
    | ReturnToEndStatement
    | Expression(firstTerm: Value, opTermList: Value)
    | Term(term: Value)
    | UnaryOpTerm(op: Value, term: Value)
    | SubroutineCall(subroutineCall: Value)
    | FunctionCall(functionName: Value, expressionList: Value)
    | MethodCall(varName: Value, methodName: Value, expressionList: Value)
    | StaticMethodCall(className: Value, methodName: Value, expressionList: Value)
    | Op(op: Value)
    | UnaryOp(op: Value)
    | KeywordConstant(constant: Value)

  /** Whether a record has an `expression` attribute. */
  predicate HasExpression(s: Syntax) {
    s.RegularLetStatement? || s.ArrayEntryLetStatement? || s.RegularIfStatement?
    || s.IfElseStatement? || s.WhileStatement? || s.ReturnExpressionStatement?
  }

  /** Whether a record has a `statements` attribute. */
  predicate HasStatements(s: Syntax) {
    s.Statements? || s.SubroutineBody? || s.RegularIfStatement? || s.WhileStatement?
  }
}
