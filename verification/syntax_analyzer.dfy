/** The syntax analyzer (11-compiler-code-generation/syntax_analyzer.py): a
    recursive-descent parser that interprets the grammar table over the
    token list, returning each parsed value with the index of the next
    unparsed token.

    The source builds one parser method per rule by reflection
    (`getattr`/`setattr`); here the four combinators are functions
    dispatched on the rule's definition. A `ParserError` is an `Err`; the
    combinators catch exactly the failures the source's `except` clauses
    catch. */
module SyntaxAnalyzer {
  import opened Wrappers
  import opened JackGrammar
  import S = JackSyntax

  /** Why parsing failed, after the source's error messages. */
  datatype Fault =
    | KeywordExpected(keyword: string)           // "Failed to parse KEYWORD: ..."
    | SymbolExpected(symbol: string)             // "Failed to parse SYMBOL: ..."
    | IntegerExpected(found: Option<S.Token>)    // "Failed to parse INTEGER CONSTANT: ..."
    | StringExpected(found: Option<S.Token>)     // "Failed to parse STRING CONSTANT: ..."
    | IdentifierExpected(found: Option<S.Token>) // "Failed to parse IDENTIFIER: ..."
    | SequenceFailed(rule: RuleName)            // "Failed to parse: <Name(rule)>" and a line break
    | ChoiceFailed(rule: RuleName)              // "Failed to parse: <Name(rule)>"
    | TokensLeft                                 // "ERROR: Not all tokens parsed!"

  /** A parsed value and the index after it, or the failure. */
  type Parsed = Result<(S.Value, nat), Fault>

  /** `_get_next_token`. */
  function NextToken(ts: seq<S.Token>, i: nat): (t: Option<S.Token>)
    ensures t.Some? <==> i < |ts|
    ensures t.Some? ==> t.value == ts[i]
  {
    if i < |ts| then Some(ts[i]) else None
  }

  /** Whether a token is what a terminal element asks for: a keyword or
      symbol with the same text, or any token of the named class. */
  predicate Accepts(e: Element, t: S.Token) {
    match e
    case KeywordElem(k) => t == S.Keyword(k)
    case SymbolElem(c) => t == S.Symbol(c)
    case IntegerElem => t.IntegerConstant?
    case StringElem => t.StringConstant?
    case IdentifierElem => t.Identifier?
    case RuleElem(_) => false
  }

  /** `parse_Keyword`, `parse_Symbol`, `parse_IntegerConstant`,
      `parse_StringConstant` and `parse_Identifier`: a terminal succeeds
      exactly when the token at the index is the one it asks for, and then
      returns that token and moves on by one; past the end it fails. */
  function Terminal(ts: seq<S.Token>, e: Element, i: nat): (r: Parsed)
    requires !e.RuleElem?
    ensures r.Ok? <==> i < |ts| && Accepts(e, ts[i])
    ensures r.Ok? ==> r.value == (S.Leaf(ts[i]), i + 1)
  {
    var t := NextToken(ts, i);
    match e
    case KeywordElem(k) =>
      if t.Some? && t.value.Keyword? && t.value.keyword == k then Ok((S.Leaf(S.Keyword(k)), i + 1))
      else Err(KeywordExpected(k))
    case SymbolElem(c) =>
      if t.Some? && t.value.Symbol? && t.value.symbol == c then Ok((S.Leaf(S.Symbol(c)), i + 1))
      else Err(SymbolExpected(c))
    case IntegerElem =>
      if t.Some? && t.value.IntegerConstant? then Ok((S.Leaf(S.IntegerConstant(t.value.integerConstant)), i + 1))
      else Err(IntegerExpected(t))
    case StringElem =>
      if t.Some? && t.value.StringConstant? then Ok((S.Leaf(S.StringConstant(t.value.stringConstant)), i + 1))
      else Err(StringExpected(t))
    case IdentifierElem =>
      if t.Some? && t.value.Identifier? then Ok((S.Leaf(S.Identifier(t.value.identifier)), i + 1))
      else Err(IdentifierExpected(t))
  }

  /** The termination rank of an element: tokens below every rule, a rule
      just above the rules numbered below it. */
  function ElementRank(e: Element): nat {
    if e.RuleElem? then e.rule + 1 else 0
  }

  // The recursive descent terminates on the pair (tokens left, rank): a
  // rule only calls something of lower rank before it has consumed a
  // token, and every rule that starts a sequence, is an option or is
  // repeated consumes one whenever it succeeds.

  /** `get_parser`: a terminal, or the parser of the named rule. */
  function ParseElement(ts: seq<S.Token>, e: Element, i: nat): (r: Parsed)
    requires i <= |ts|
    ensures r.Ok? ==> i <= r.value.1 <= |ts|
    ensures r.Ok? && Consuming(e) ==> i < r.value.1
    decreases |ts| - i, ElementRank(e), 2, 0
  {
    if e.RuleElem? then ParseRule(ts, e.rule, i) else Terminal(ts, e, i)
  }

  /** `parse_<rule>`: the rule's combinator, then its builder. */
  function ParseRule(ts: seq<S.Token>, rule: RuleName, i: nat): (r: Parsed)
    requires i <= |ts|
    ensures r.Ok? ==> i <= r.value.1 <= |ts|
    ensures r.Ok? && Consumes(rule) ==> i < r.value.1
    decreases |ts| - i, rule + 1, 1, 0
  {
    match Def(rule)
    case Sequence(es) =>
      (match ParseSequence(ts, rule, es, i, i, [S.RuleTag(rule)])
       case Ok((x, j)) => Ok((Build(rule, x), j))
       case Err(f) => Err(f))
    case Choice(os) => ParseChoice(ts, rule, os, i)
    case List(e) =>
      var (x, j) := ParseList(ts, rule, e, i, i, [S.RuleTag(rule)]);
      Ok((Build(rule, x), j))
    case Optional(e) =>
      (match ParseElement(ts, e, i)
       case Ok((v, j)) => Ok((Build(rule, [S.RuleTag(rule), v]), j))
       case Err(_) => Ok((Build(rule, [S.RuleTag(rule)]), i)))
  }

  /** `sequence_parser`: the elements in order, each from where the last
      stopped, collected after `acc`; any failure fails the whole rule.
      `start` is where the rule began. */
  function ParseSequence(ts: seq<S.Token>, rule: RuleName, es: seq<Element>, start: nat, i: nat,
                         acc: seq<S.Value>): (r: Result<(seq<S.Value>, nat), Fault>)
    requires start <= i <= |ts|
    requires i == start ==> |es| > 0 && Consuming(es[0]) && Below(es[0], rule)
    ensures r.Ok? ==> i <= r.value.1 <= |ts| && start < r.value.1
    ensures r.Err? ==> r.error == SequenceFailed(rule)
    decreases |ts| - start, rule + 1, 0, |es|
  {
    if |es| == 0 then Ok((acc, i))
    else
      match ParseElement(ts, es[0], i)
      case Err(_) => Err(SequenceFailed(rule))
      case Ok((v, j)) => ParseSequence(ts, rule, es[1..], start, j, acc + [v])
  }

  /** `type_parser`: the options in order, each from the same index; the
      first that succeeds is built, and if none does the rule fails. */
  function ParseChoice(ts: seq<S.Token>, rule: RuleName, os: seq<Element>, i: nat): (r: Parsed)
    requires i <= |ts|
    requires forall e :: e in os ==> Consuming(e) && Below(e, rule)
    ensures r.Ok? ==> i < r.value.1 <= |ts|
    decreases |ts| - i, rule + 1, 0, |os|
  {
    if |os| == 0 then Err(ChoiceFailed(rule))
    else
      assert os[0] in os && Below(os[0], rule);
      match ParseElement(ts, os[0], i)
      case Ok((v, j)) => Ok((Build(rule, [S.RuleTag(rule), v]), j))
      case Err(_) => ParseChoice(ts, rule, os[1..], i)
  }

  /** `list_parser`: the item as often as it succeeds, collected after
      `acc`; the first failure ends the list and is not an error. */
  function ParseList(ts: seq<S.Token>, rule: RuleName, e: Element, start: nat, i: nat,
                     acc: seq<S.Value>): (r: (seq<S.Value>, nat))
    requires start <= i <= |ts|
    requires Consuming(e) && Below(e, rule)
    ensures i <= r.1 <= |ts|
    decreases |ts| - start, rule + 1, 0, |ts| - i
  {
    match ParseElement(ts, e, i)
    case Err(_) => (acc, i)
    case Ok((v, j)) => ParseList(ts, rule, e, start, j, acc + [v])
  }

  /** `SyntaxAnalyzer.parse`: a class that uses up every token. */
  function Parse(ts: seq<S.Token>): (r: Result<S.Value, Fault>)
    ensures r.Ok? <==> ParseRule(ts, Class, 0).Ok? && ParseRule(ts, Class, 0).value.1 == |ts|
    ensures r.Ok? ==> r.value == ParseRule(ts, Class, 0).value.0
    ensures r == Err(TokensLeft) <==> ParseRule(ts, Class, 0).Ok? && ParseRule(ts, Class, 0).value.1 < |ts|
  {
    match ParseRule(ts, Class, 0)
    case Err(f) => Err(f)
    case Ok((v, j)) => if j < |ts| then Err(TokensLeft) else Ok(v)
  }

  // The combinators, each characterised by what its elements do.

  /** The elements `es` parse one after the other from `i`, giving `vs`
      and stopping at `j`. */
  ghost predicate Chain(ts: seq<S.Token>, es: seq<Element>, i: nat, vs: seq<S.Value>, j: nat)
    decreases |es|
  {
    i <= |ts| && |vs| == |es| &&
    if |es| == 0 then j == i
    else
      var r := ParseElement(ts, es[0], i);
      r.Ok? && r.value.0 == vs[0] && Chain(ts, es[1..], r.value.1, vs[1..], j)
  }

  lemma {:induction false} ChainEnds(ts: seq<S.Token>, es: seq<Element>, i: nat, vs: seq<S.Value>, j: nat)
    requires Chain(ts, es, i, vs, j)
    ensures i <= j <= |ts|
    decreases |es|
  {
    if |es| > 0 {
      ChainEnds(ts, es[1..], ParseElement(ts, es[0], i).value.1, vs[1..], j);
    }
  }

  /** Each element of a chain parses, somewhere at or after its start, to
      its value; the last one stops where the chain stops. */
  lemma {:induction false} ChainElement(ts: seq<S.Token>, es: seq<Element>, i: nat, vs: seq<S.Value>, j: nat, k: nat)
    returns (p: nat)
    requires Chain(ts, es, i, vs, j) && k < |es|
    ensures i <= p <= |ts| && ParseElement(ts, es[k], p).Ok? && ParseElement(ts, es[k], p).value.0 == vs[k]
    ensures k == |es| - 1 ==> ParseElement(ts, es[k], p).value.1 == j
    decreases k
  {
    var m := ParseElement(ts, es[0], i).value.1;
    if k == 0 {
      p := i;
      if |es| == 1 {
        assert Chain(ts, es[1..], m, vs[1..], j);
      }
    } else {
      p := ChainElement(ts, es[1..], m, vs[1..], j, k - 1);
    }
  }

  /** A chain through all of a sequence's elements is what the sequence
      parser collects. */
  lemma {:induction false} ChainedSequence(ts: seq<S.Token>, rule: RuleName, es: seq<Element>, start: nat, i: nat,
                                           acc: seq<S.Value>, vs: seq<S.Value>, j: nat)
    requires start <= i <= |ts|
    requires i == start ==> |es| > 0 && Consuming(es[0]) && Below(es[0], rule)
    requires Chain(ts, es, i, vs, j)
    ensures ParseSequence(ts, rule, es, start, i, acc) == Ok((acc + vs, j))
    decreases |es|
  {
    if |es| > 0 {
      var (v, k) := ParseElement(ts, es[0], i).value;
      ChainedSequence(ts, rule, es[1..], start, k, acc + [v], vs[1..], j);
      assert acc + [v] + vs[1..] == acc + vs;
    } else {
      assert acc + vs == acc;
    }
  }

  /** A chain through the first `k` elements followed by a failing element
      fails the sequence parser. */
  lemma {:induction false} BrokenSequence(ts: seq<S.Token>, rule: RuleName, es: seq<Element>, start: nat, i: nat,
                                          acc: seq<S.Value>, k: nat, vs: seq<S.Value>, j: nat)
    requires start <= i <= |ts|
    requires i == start ==> |es| > 0 && Consuming(es[0]) && Below(es[0], rule)
    requires k < |es| && j <= |ts|
    requires Chain(ts, es[..k], i, vs, j) && ParseElement(ts, es[k], j).Err?
    ensures ParseSequence(ts, rule, es, start, i, acc) == Err(SequenceFailed(rule))
    decreases k
  {
    if k > 0 {
      assert es[..k][0] == es[0] && es[..k][1..] == es[1..][..k - 1];
      var (v, m) := ParseElement(ts, es[0], i).value;
      BrokenSequence(ts, rule, es[1..], start, m, acc + [v], k - 1, vs[1..], j);
    }
  }

  /** What the sequence parser collects is a chain through its elements. */
  lemma {:induction false} SequenceChains(ts: seq<S.Token>, rule: RuleName, es: seq<Element>, start: nat, i: nat,
                                          acc: seq<S.Value>) returns (vs: seq<S.Value>)
    requires start <= i <= |ts|
    requires i == start ==> |es| > 0 && Consuming(es[0]) && Below(es[0], rule)
    requires ParseSequence(ts, rule, es, start, i, acc).Ok?
    ensures ParseSequence(ts, rule, es, start, i, acc).value.0 == acc + vs
    ensures Chain(ts, es, i, vs, ParseSequence(ts, rule, es, start, i, acc).value.1)
    decreases |es|
  {
    if |es| == 0 {
      vs := [];
    } else {
      var (v, k) := ParseElement(ts, es[0], i).value;
      var rest := SequenceChains(ts, rule, es[1..], start, k, acc + [v]);
      vs := [v] + rest;
      assert vs[1..] == rest;
    }
  }

  /** A sequence rule succeeds with the builder applied to its elements'
      values when they chain... */
  lemma SequenceChain(ts: seq<S.Token>, rule: RuleName, i: nat, vs: seq<S.Value>, j: nat)
    requires Def(rule).Sequence? && Chain(ts, Def(rule).elements, i, vs, j)
    ensures ParseRule(ts, rule, i) == Ok((Build(rule, [S.RuleTag(rule)] + vs), j))
  {
    ChainedSequence(ts, rule, Def(rule).elements, i, i, [S.RuleTag(rule)], vs, j);
  }

  /** ...fails as soon as one element fails after the ones before it
      chained... */
  lemma SequenceBreak(ts: seq<S.Token>, rule: RuleName, i: nat, k: nat, vs: seq<S.Value>, j: nat)
    requires Def(rule).Sequence? && i <= |ts| && k < |Def(rule).elements| && j <= |ts|
    requires Chain(ts, Def(rule).elements[..k], i, vs, j)
    requires ParseElement(ts, Def(rule).elements[k], j).Err?
    ensures ParseRule(ts, rule, i) == Err(SequenceFailed(rule))
  {
    BrokenSequence(ts, rule, Def(rule).elements, i, i, [S.RuleTag(rule)], k, vs, j);
  }

  /** ...and succeeds only that way. */
  lemma SequenceParts(ts: seq<S.Token>, rule: RuleName, i: nat) returns (vs: seq<S.Value>)
    requires Def(rule).Sequence? && i <= |ts| && ParseRule(ts, rule, i).Ok?
    ensures Chain(ts, Def(rule).elements, i, vs, ParseRule(ts, rule, i).value.1)
    ensures ParseRule(ts, rule, i).value.0 == Build(rule, [S.RuleTag(rule)] + vs)
  {
    vs := SequenceChains(ts, rule, Def(rule).elements, i, i, [S.RuleTag(rule)]);
  }

  /** The choice parser takes the first option that succeeds... */
  lemma {:induction false} FirstOption(ts: seq<S.Token>, rule: RuleName, os: seq<Element>, i: nat, k: nat)
    requires i <= |ts|
    requires forall e :: e in os ==> Consuming(e) && Below(e, rule)
    requires k < |os| && ParseElement(ts, os[k], i).Ok?
    requires forall m :: 0 <= m < k ==> ParseElement(ts, os[m], i).Err?
    ensures ParseChoice(ts, rule, os, i)
            == Ok((Build(rule, [S.RuleTag(rule), ParseElement(ts, os[k], i).value.0]), ParseElement(ts, os[k], i).value.1))
    decreases k
  {
    if k > 0 {
      assert ParseElement(ts, os[0], i).Err?;
      assert forall m :: 0 <= m < k - 1 ==> os[1..][m] == os[m + 1];
      FirstOption(ts, rule, os[1..], i, k - 1);
    }
  }

  /** ...fails when every option fails... */
  lemma {:induction false} NoOption(ts: seq<S.Token>, rule: RuleName, os: seq<Element>, i: nat)
    requires i <= |ts|
    requires forall e :: e in os ==> Consuming(e) && Below(e, rule)
    requires forall m :: 0 <= m < |os| ==> ParseElement(ts, os[m], i).Err?
    ensures ParseChoice(ts, rule, os, i) == Err(ChoiceFailed(rule))
    decreases |os|
  {
    if |os| > 0 {
      assert ParseElement(ts, os[0], i).Err?;
      assert forall m :: 0 <= m < |os| - 1 ==> os[1..][m] == os[m + 1];
      NoOption(ts, rule, os[1..], i);
    }
  }

  /** ...and succeeds only through an option that succeeds after all the
      earlier ones failed. */
  lemma {:induction false} OptionTaken(ts: seq<S.Token>, rule: RuleName, os: seq<Element>, i: nat) returns (k: nat)
    requires i <= |ts|
    requires forall e :: e in os ==> Consuming(e) && Below(e, rule)
    requires ParseChoice(ts, rule, os, i).Ok?
    ensures k < |os| && ParseElement(ts, os[k], i).Ok?
    ensures forall m :: 0 <= m < k ==> ParseElement(ts, os[m], i).Err?
    ensures ParseChoice(ts, rule, os, i)
            == Ok((Build(rule, [S.RuleTag(rule), ParseElement(ts, os[k], i).value.0]), ParseElement(ts, os[k], i).value.1))
    decreases |os|
  {
    if ParseElement(ts, os[0], i).Ok? {
      k := 0;
    } else {
      var k' := OptionTaken(ts, rule, os[1..], i);
      k := k' + 1;
      assert os[1..][k'] == os[k];
      assert forall m :: 0 <= m < k' ==> os[1..][m] == os[m + 1];
    }
  }

  /** One option that succeeds is enough for the choice parser. */
  lemma {:induction false} SomeOption(ts: seq<S.Token>, rule: RuleName, os: seq<Element>, i: nat, k: nat)
    requires i <= |ts|
    requires forall e :: e in os ==> Consuming(e) && Below(e, rule)
    requires k < |os| && ParseElement(ts, os[k], i).Ok?
    ensures ParseChoice(ts, rule, os, i).Ok?
    decreases k
  {
    if k > 0 && ParseElement(ts, os[0], i).Err? {
      assert os[1..][k - 1] == os[k];
      SomeOption(ts, rule, os[1..], i, k - 1);
    }
  }

  /** A choice rule gives the builder the value of its first option that
      succeeds... */
  lemma ChoiceFirst(ts: seq<S.Token>, rule: RuleName, i: nat, k: nat)
    requires Def(rule).Choice? && i <= |ts|
    requires k < |Def(rule).options| && ParseElement(ts, Def(rule).options[k], i).Ok?
    requires forall m :: 0 <= m < k ==> ParseElement(ts, Def(rule).options[m], i).Err?
    ensures ParseRule(ts, rule, i)
            == Ok((Build(rule, [S.RuleTag(rule), ParseElement(ts, Def(rule).options[k], i).value.0]),
                  ParseElement(ts, Def(rule).options[k], i).value.1))
  {
    FirstOption(ts, rule, Def(rule).options, i, k);
  }

  /** ...fails exactly when all of them fail... */
  lemma ChoiceNone(ts: seq<S.Token>, rule: RuleName, i: nat)
    requires Def(rule).Choice? && i <= |ts|
    ensures ParseRule(ts, rule, i).Err?
            <==> forall m :: 0 <= m < |Def(rule).options| ==> ParseElement(ts, Def(rule).options[m], i).Err?
    ensures ParseRule(ts, rule, i).Err? ==> ParseRule(ts, rule, i).error == ChoiceFailed(rule)
  {
    var os := Def(rule).options;
    if forall m :: 0 <= m < |os| ==> ParseElement(ts, os[m], i).Err? {
      NoOption(ts, rule, os, i);
    } else {
      var k :| 0 <= k < |os| && ParseElement(ts, os[k], i).Ok?;
      SomeOption(ts, rule, os, i, k);
    }
  }

  /** ...and succeeds only that way. */
  lemma ChoiceParts(ts: seq<S.Token>, rule: RuleName, i: nat) returns (k: nat)
    requires Def(rule).Choice? && i <= |ts| && ParseRule(ts, rule, i).Ok?
    ensures k < |Def(rule).options| && ParseElement(ts, Def(rule).options[k], i).Ok?
    ensures forall m :: 0 <= m < k ==> ParseElement(ts, Def(rule).options[m], i).Err?
    ensures ParseRule(ts, rule, i)
            == Ok((Build(rule, [S.RuleTag(rule), ParseElement(ts, Def(rule).options[k], i).value.0]),
                  ParseElement(ts, Def(rule).options[k], i).value.1))
  {
    k := OptionTaken(ts, rule, Def(rule).options, i);
  }

  /** The element `e` parses `|vs|` times in a row from `i`, giving `vs`
      and stopping at `j`. */
  ghost predicate Repeats(ts: seq<S.Token>, e: Element, i: nat, vs: seq<S.Value>, j: nat)
    decreases |vs|
  {
    i <= |ts| &&
    if |vs| == 0 then j == i
    else
      var r := ParseElement(ts, e, i);
      r.Ok? && r.value.0 == vs[0] && Repeats(ts, e, r.value.1, vs[1..], j)
  }

  /** The list parser collects the repetitions of its item up to the first
      place where the item fails... */
  lemma {:induction false} ListRepeats(ts: seq<S.Token>, rule: RuleName, e: Element, start: nat, i: nat,
                                       acc: seq<S.Value>) returns (vs: seq<S.Value>)
    requires start <= i <= |ts|
    requires Consuming(e) && Below(e, rule)
    ensures ParseList(ts, rule, e, start, i, acc).0 == acc + vs
    ensures Repeats(ts, e, i, vs, ParseList(ts, rule, e, start, i, acc).1)
    ensures ParseElement(ts, e, ParseList(ts, rule, e, start, i, acc).1).Err?
    decreases |ts| - i
  {
    match ParseElement(ts, e, i)
    case Err(_) =>
      vs := [];
    case Ok((v, j)) =>
      var rest := ListRepeats(ts, rule, e, start, j, acc + [v]);
      vs := [v] + rest;
      assert vs[1..] == rest;
  }

  /** ...and those repetitions are all it can collect. */
  lemma {:induction false} RepeatedList(ts: seq<S.Token>, rule: RuleName, e: Element, start: nat, i: nat,
                                        acc: seq<S.Value>, vs: seq<S.Value>, j: nat)
    requires start <= i <= |ts|
    requires Consuming(e) && Below(e, rule)
    requires Repeats(ts, e, i, vs, j) && j <= |ts| && ParseElement(ts, e, j).Err?
    ensures ParseList(ts, rule, e, start, i, acc) == (acc + vs, j)
    decreases |vs|
  {
    if |vs| == 0 {
      assert acc + vs == acc;
    } else {
      var (v, k) := ParseElement(ts, e, i).value;
      RepeatedList(ts, rule, e, start, k, acc + [v], vs[1..], j);
      assert acc + [v] + vs[1..] == acc + vs;
    }
  }

  /** A list rule never fails: it gives the builder every repetition of
      its item, up to the first place where the item fails... */
  lemma ListParts(ts: seq<S.Token>, rule: RuleName, i: nat) returns (vs: seq<S.Value>)
    requires Def(rule).List? && i <= |ts|
    ensures ParseRule(ts, rule, i).Ok?
    ensures Repeats(ts, Def(rule).item, i, vs, ParseRule(ts, rule, i).value.1)
    ensures ParseElement(ts, Def(rule).item, ParseRule(ts, rule, i).value.1).Err?
    ensures ParseRule(ts, rule, i).value.0 == Build(rule, [S.RuleTag(rule)] + vs)
  {
    vs := ListRepeats(ts, rule, Def(rule).item, i, i, [S.RuleTag(rule)]);
  }

  /** ...and any such run of repetitions is what it gives. */
  lemma ListGreedy(ts: seq<S.Token>, rule: RuleName, i: nat, vs: seq<S.Value>, j: nat)
    requires Def(rule).List? && i <= |ts| && j <= |ts|
    requires Repeats(ts, Def(rule).item, i, vs, j) && ParseElement(ts, Def(rule).item, j).Err?
    ensures ParseRule(ts, rule, i) == Ok((Build(rule, [S.RuleTag(rule)] + vs), j))
  {
    RepeatedList(ts, rule, Def(rule).item, i, i, [S.RuleTag(rule)], vs, j);
  }
}
