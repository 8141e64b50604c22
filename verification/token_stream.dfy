/** The Jack tokenizer of the syntax analyzer
    (10-compiler-syntax-analysis/jack_tokenizer.py): the same patterns as the
    code generator's tokenizer, read one token at a time through a cursor
    that holds the source, the read position, the line count and the
    current token.

    Its pattern table tries the identifier before the integer and string
    patterns; no text matches two of those three, so every step reads what
    the code generator's tokenizer reads (`SameTable`), and a client that
    advances while more tokens remain sees exactly the code generator's
    token list (`DrainAgrees`).

    The source mixes tabs and spaces on lines 57 and 80, which Python 3
    refuses to compile, and its error branch names an undefined `pos` and
    `line`; the model reads those lines at their evident indentation and
    reports the cursor's own position and line. */
module TokenStream {
  import opened Wrappers
  import opened JackSyntax
  import opened JackTokenizer

  /** The stage's pattern table: whitespace, the two comments, keyword,
      symbol, identifier, integer, string. */
  function Scan10(s: string): (r: Option<Lexeme>)
    ensures r.Some? ==> 0 < r.value.length <= |s|
  {
    if Skipped(s).Some? then Some(Skip(Skipped(s).value))
    else if MatchKeyword(s).Some? then Some(KeywordAt(s))
    else if MatchSymbol(s).Some? then Some(SymbolAt(s))
    else if MatchIdentifier(s).Some? then Some(IdentifierAt(s))
    else if MatchIntegerConstant(s).Some? then Some(IntegerConstantAt(s))
    else if MatchStringConstant(s).Some? then Some(StringConstantAt(s))
    else None
  }

  /** The identifier, integer and string patterns start with different
      characters, so trying them in another order reads the same lexeme. */
  lemma SameTable(s: string)
    ensures Scan10(s) == Scan(s)
  {
    if MatchIdentifier(s).Some? {
      assert MatchIntegerConstant(s).None? && MatchStringConstant(s).None?;
    }
  }

  /** `LexicalError`. */
  datatype LexicalError = LexicalError(line: nat, text: string)

  /** The cursor: `_source`, `_pos`, `_line`, and the current token with
      its type (`_current_token`, `_token_type`), `None` before the first
      token and after whitespace or a comment. */
  datatype Tokenizer = Tokenizer(source: string, pos: nat, line: nat, current: Option<Token>)

  predicate Good(t: Tokenizer) {
    t.pos <= |t.source|
  }

  /** The unread text. */
  function Rest(t: Tokenizer): string
    requires Good(t)
  {
    t.source[t.pos..]
  }

  /** A fresh cursor at the start of the source, with no current token. */
  function Open(source: string): (t: Tokenizer)
    ensures Good(t) && Rest(t) == source && t.current.None?
  {
    Tokenizer(source, 0, 0, None)
  }

  /** `has_more_tokens`. */
  function HasMoreTokens(t: Tokenizer): bool {
    t.pos < |t.source|
  }

  /** `_read_next_token`: one pass over the pattern table at the cursor. It
      fails where no pattern matches, including at the end of the source. */
  function ReadNextToken(t: Tokenizer): (r: Result<Tokenizer, LexicalError>)
    requires Good(t)
    ensures r.Err? <==> Scan(Rest(t)).None?
    ensures r.Ok? ==> var l := Scan(Rest(t)).value;
      && r.value.source == t.source && r.value.pos == t.pos + l.length
      && r.value.line == t.line + Newlines(Rest(t)[..l.length])
      && r.value.current == (if l.Emit? then Some(l.token) else None)
    ensures r.Err? ==> r.error.line == t.line + 1 && r.error.text == Rest(t)[..Run(LineChar, Rest(t))]
  {
    var rest := t.source[t.pos..];
    SameTable(rest);
    match Scan10(rest)
    case None =>
      var e := ErrorAt(rest, t.line);
      Err(LexicalError(e.line, e.text))
    case Some(l) =>
      Ok(Tokenizer(t.source, t.pos + l.length, t.line + Newlines(rest[..l.length]),
                   if l.Emit? then Some(l.token) else None))
  }

  /** The loop of `advance` after its first read: read on while the last
      read produced no token and text remains. */
  function Settle(t: Tokenizer): (r: Result<Tokenizer, LexicalError>)
    requires Good(t)
    ensures r.Ok? ==> Good(r.value) && r.value.source == t.source && t.pos <= r.value.pos
    ensures r.Ok? ==> r.value.current.Some? || !HasMoreTokens(r.value)
    decreases |t.source| - t.pos
  {
    if t.current.None? && HasMoreTokens(t) then
      var next :- ReadNextToken(t);
      Settle(next)
    else Ok(t)
  }

  /** `advance`: read, then keep reading past whitespace and comments until
      a token appears or the source ends. */
  function Advance(t: Tokenizer): (r: Result<Tokenizer, LexicalError>)
    requires Good(t)
    ensures r.Ok? ==> Good(r.value) && r.value.source == t.source && t.pos < r.value.pos
    ensures r.Ok? ==> r.value.current.Some? || !HasMoreTokens(r.value)
  {
    var next :- ReadNextToken(t);
    Settle(next)
  }

  /** The token the last read left current, if any. */
  function Pending(t: Tokenizer): seq<Token> {
    if t.current.Some? then [t.current.value] else []
  }

  /** A client of the cursor: `advance` while `has_more_tokens`, collecting
      each current token. */
  function Drain(t: Tokenizer): Result<seq<Token>, LexicalError>
    requires Good(t)
    decreases |t.source| - t.pos
  {
    if !HasMoreTokens(t) then Ok([])
    else
      var next :- Advance(t);
      var rest :- Drain(next);
      Ok(Pending(next) + rest)
  }

  // The cursor against the code generator's tokenizer.

  function Lexical(r: Result<seq<Token>, TokenizerError>): Result<seq<Token>, LexicalError> {
    match r
    case Ok(ts) => Ok(ts)
    case Err(e) => Err(LexicalError(e.line, e.text))
  }

  /** What the code generator's tokenizer reads from the cursor on. */
  function Expected(t: Tokenizer): Result<seq<Token>, LexicalError>
    requires Good(t)
  {
    Lexical(TokenizeFrom(Rest(t), t.line))
  }

  /** Tokens `p` ahead of what `r` reads, or the error of `r`. */
  function Ahead(p: seq<Token>, r: Result<seq<Token>, LexicalError>): Result<seq<Token>, LexicalError> {
    if r.Err? then r else Ok(p + r.value)
  }

  /** One read of the cursor is one step of the code generator's loop. */
  lemma ReadStep(t: Tokenizer)
    requires Good(t) && HasMoreTokens(t)
    ensures ReadNextToken(t).Err? ==> Expected(t) == Err(ReadNextToken(t).error)
    ensures ReadNextToken(t).Ok? ==> Good(ReadNextToken(t).value)
    ensures ReadNextToken(t).Ok? ==>
      Expected(t) == Ahead(Pending(ReadNextToken(t).value), Expected(ReadNextToken(t).value))
  {
    if Scan(Rest(t)).None? {
      ReadFails(t);
    } else {
      ReadSucceeds(t, Scan(Rest(t)).value, ReadNextToken(t).value);
    }
  }

  lemma ReadFails(t: Tokenizer)
    requires Good(t) && HasMoreTokens(t) && Scan(Rest(t)).None?
    ensures ReadNextToken(t).Err? && Expected(t) == Err(ReadNextToken(t).error)
  {
    ScanProgresses();
    assert TokenizeWith(Scan, Rest(t), t.line) == Err(ErrorAt(Rest(t), t.line));
  }

  lemma ReadSucceeds(t: Tokenizer, l: Lexeme, next: Tokenizer)
    requires Good(t) && HasMoreTokens(t) && Scan(Rest(t)) == Some(l) && ReadNextToken(t) == Ok(next)
    ensures Good(next) && Expected(t) == Ahead(Pending(next), Expected(next))
  {
    ScanProgresses();
    var rest := Rest(t);
    assert Rest(next) == rest[l.length..];
    LexicalStep(Scan, rest, l, t.line, next.line, Pending(next));
  }

  /** One step of the code generator's loop, as `Lexical` results. */
  lemma LexicalStep(scan: string -> Option<Lexeme>, rest: string, l: Lexeme, line: nat, next: nat, p: seq<Token>)
    requires Progresses(scan) && |rest| > 0 && scan(rest) == Some(l)
    requires next == line + Newlines(rest[..l.length])
    requires p == if l.Emit? then [l.token] else []
    ensures Lexical(TokenizeWith(scan, rest, line)) == Ahead(p, Lexical(TokenizeWith(scan, rest[l.length..], next)))
  {
    TokenizeWithStep(scan, rest, line);
    var tail := TokenizeWith(scan, rest[l.length..], next);
    assert tail.Ok? ==> (if l.Emit? then [l.token] + tail.value else tail.value) == p + tail.value;
    LexicalAhead(p, tail);
  }

  lemma LexicalAhead(p: seq<Token>, r: Result<seq<Token>, TokenizerError>)
    ensures Lexical(if r.Err? then r else Ok(p + r.value)) == Ahead(p, Lexical(r))
  {
  }

  /** The rest of `advance` reads what the code generator's loop reads. */
  lemma {:induction false} SettleStep(t: Tokenizer)
    requires Good(t)
    ensures Settle(t).Err? ==> Ahead(Pending(t), Expected(t)) == Err(Settle(t).error)
    ensures Settle(t).Ok? ==> Ahead(Pending(t), Expected(t)) == Ahead(Pending(Settle(t).value), Expected(Settle(t).value))
    decreases |t.source| - t.pos
  {
    if t.current.None? && HasMoreTokens(t) {
      ReadStep(t);
      assert forall v: seq<Token> :: [] + v == v;
      if ReadNextToken(t).Ok? {
        SettleStep(ReadNextToken(t).value);
      }
    }
  }

  lemma AdvanceStep(t: Tokenizer)
    requires Good(t) && HasMoreTokens(t)
    ensures Advance(t).Err? ==> Expected(t) == Err(Advance(t).error)
    ensures Advance(t).Ok? ==> Expected(t) == Ahead(Pending(Advance(t).value), Expected(Advance(t).value))
  {
    ReadStep(t);
    if ReadNextToken(t).Ok? {
      SettleStep(ReadNextToken(t).value);
    }
  }

  /** Draining the cursor reads what the code generator's tokenizer reads
      from the same position. */
  lemma {:induction false} DrainMatches(t: Tokenizer)
    requires Good(t)
    ensures Drain(t) == Expected(t)
    decreases |t.source| - t.pos
  {
    ScanProgresses();
    if !HasMoreTokens(t) {
      assert Rest(t) == "";
    } else {
      AdvanceStep(t);
      if Advance(t).Ok? {
        DrainMatches(Advance(t).value);
      }
    }
  }

  /** A client draining a fresh cursor gets the code generator's token list,
      or its error at the same line with the same text. */
  lemma DrainAgrees(source: string)
    ensures Drain(Open(source)) == Lexical(Tokenize(source))
  {
    DrainMatches(Open(source));
  }

  // The accessors. A token type is one of the source's type strings, and
  // "" when there is no current token.

  function TokenType(t: Tokenizer): string {
    match t.current
    case None => ""
    case Some(Keyword(_)) => "KEYWORD"
    case Some(Symbol(_)) => "SYMBOL"
    case Some(Identifier(_)) => "IDENTIFIER"
    case Some(IntegerConstant(_)) => "INT_CONST"
    case Some(StringConstant(_)) => "STRING_CONST"
  }

  /** The text of the current token, as `_current_token` holds it. */
  function TokenText(tok: Token): string {
    match tok
    case Keyword(x) => x
    case Symbol(x) => x
    case Identifier(x) => x
    case IntegerConstant(x) => x
    case StringConstant(x) => x
  }

  /** The text of the current token when its type is `kind`, else "". */
  function Typed(t: Tokenizer, kind: string): (r: string)
    ensures TokenType(t) != kind ==> r == ""
  {
    if TokenType(t) == kind && t.current.Some? then TokenText(t.current.value) else ""
  }

  /** `keyword`. */
  function KeywordValue(t: Tokenizer): string {
    Typed(t, "KEYWORD")
  }

  /** `symbol`. */
  function SymbolValue(t: Tokenizer): string {
    Typed(t, "SYMBOL")
  }

  /** `identifier`. */
  function IdentifierValue(t: Tokenizer): string {
    Typed(t, "IDENTIFIER")
  }

  /** `int_val`. */
  function IntVal(t: Tokenizer): string {
    Typed(t, "INT_CONST")
  }

  /** `string_val`. */
  function StringVal(t: Tokenizer): string {
    Typed(t, "STRING_CONST")
  }

  /** The token rebuilt from the type and the matching accessor. */
  function Rebuild(t: Tokenizer): Option<Token> {
    var kind := TokenType(t);
    if kind == "KEYWORD" then Some(Keyword(KeywordValue(t)))
    else if kind == "SYMBOL" then Some(Symbol(SymbolValue(t)))
    else if kind == "IDENTIFIER" then Some(Identifier(IdentifierValue(t)))
    else if kind == "INT_CONST" then Some(IntegerConstant(IntVal(t)))
    else if kind == "STRING_CONST" then Some(StringConstant(StringVal(t)))
    else None
  }

  /** The type and the accessor of that type determine the current token. */
  lemma AccessorsDetermineToken(t: Tokenizer)
    ensures Rebuild(t) == t.current
  {
  }

  // The XML line of the current token.

  /** The body of a symbol element: `<`, `>` and `&` as entities. */
  function EscapeSymbol(c: string): string {
    if c == "<" then "&lt;"
    else if c == ">" then "&gt;"
    else if c == "&" then "&amp;"
    else c
  }

  function Element(tag: string, body: string): string {
    "<" + tag + "> " + body + " </" + tag + ">"
  }

  /** `get_xml_token`. */
  function XmlToken(t: Tokenizer): string {
    var kind := TokenType(t);
    if kind == "KEYWORD" then Element("keyword", KeywordValue(t))
    else if kind == "SYMBOL" then Element("symbol", EscapeSymbol(SymbolValue(t)))
    else if kind == "IDENTIFIER" then Element("identifier", IdentifierValue(t))
    else if kind == "INT_CONST" then Element("integerConstant", IntVal(t))
    else if kind == "STRING_CONST" then Element("stringConstant", StringVal(t))
    else ""
  }

  /** Reading an XML token line back: the tag names the type, the body is
      between the fixed opening and closing texts, and a symbol's body has
      its entities replaced. */
  function ReadXml(line: string): Option<Token> {
    if Enclosed(line, "keyword") then Some(Keyword(Body(line, "keyword")))
    else if Enclosed(line, "symbol") then Some(Symbol(Unescape(Body(line, "symbol"))))
    else if Enclosed(line, "identifier") then Some(Identifier(Body(line, "identifier")))
    else if Enclosed(line, "integerConstant") then Some(IntegerConstant(Body(line, "integerConstant")))
    else if Enclosed(line, "stringConstant") then Some(StringConstant(Body(line, "stringConstant")))
    else None
  }

  predicate Enclosed(line: string, tag: string) {
    var open, close := "<" + tag + "> ", " </" + tag + ">";
    |open| + |close| <= |line| && line[..|open|] == open && line[|line| - |close|..] == close
  }

  function Body(line: string, tag: string): string
    requires Enclosed(line, tag)
  {
    line[|tag| + 3..|line| - |tag| - 4]
  }

  function Unescape(body: string): string {
    if body == "&lt;" then "<"
    else if body == "&gt;" then ">"
    else if body == "&amp;" then "&"
    else body
  }

  /** A symbol's escaped body holds no `<` or `>`, and unescaping gives the
      symbol back. */
  lemma EscapeSymbolInverse(c: string)
    requires |c| == 1 && c[0] in Symbols
    ensures Unescape(EscapeSymbol(c)) == c
    ensures '<' !in EscapeSymbol(c) && '>' !in EscapeSymbol(c)
  {
  }

  /** An element reads back as its tag and body. */
  lemma ElementEnclosed(tag: string, body: string)
    ensures Enclosed(Element(tag, body), tag) && Body(Element(tag, body), tag) == body
  {
    var open, close := "<" + tag + "> ", " </" + tag + ">";
    var line := Element(tag, body);
    assert line == open + body + close;
    assert line[..|open|] == open;
    assert line[|line| - |close|..] == close;
    assert line[|tag| + 3..|line| - |tag| - 4] == body;
  }

  /** An element does not read as one whose tag differs from its own at
      position `i`. */
  lemma ElementNotOther(tag: string, other: string, body: string, i: nat)
    requires i < |tag| && i < |other| && tag[i] != other[i]
    ensures !Enclosed(Element(tag, body), other)
  {
    var line := Element(tag, body);
    assert line[1 + i] == tag[i];
    var open := "<" + other + "> ";
    if |open| <= |line| {
      assert line[..|open|][1 + i] != open[1 + i];
    }
  }

  /** The empty line is not an element. */
  lemma EmptyNotElement(tag: string)
    ensures !Enclosed("", tag)
  {
  }

  /** Reading the XML line of the current token gives the token back;
      without a current token the line is empty. */
  lemma XmlRoundTrip(t: Tokenizer)
    requires t.current.Some? ==> Valid(t.current.value)
    ensures ReadXml(XmlToken(t)) == t.current
    ensures t.current.None? <==> XmlToken(t) == ""
  {
    match t.current
    case None =>
      EmptyNotElement("keyword");
      EmptyNotElement("symbol");
      EmptyNotElement("identifier");
      EmptyNotElement("integerConstant");
      EmptyNotElement("stringConstant");
    case Some(tok) =>
      XmlTokenIs(t, tok);
      ReadElement(tok);
  }

  /** The XML line of a token: its element. */
  function TokenElement(tok: Token): string {
    match tok
    case Keyword(x) => Element("keyword", x)
    case Symbol(x) => Element("symbol", EscapeSymbol(x))
    case Identifier(x) => Element("identifier", x)
    case IntegerConstant(x) => Element("integerConstant", x)
    case StringConstant(x) => Element("stringConstant", x)
  }

  lemma XmlTokenIs(t: Tokenizer, tok: Token)
    requires t.current == Some(tok)
    ensures XmlToken(t) == TokenElement(tok) != ""
  {
  }

  lemma ReadElement(tok: Token)
    requires Valid(tok)
    ensures ReadXml(TokenElement(tok)) == Some(tok)
  {
    match tok
    case Keyword(x) => ElementEnclosed("keyword", x);
    case Symbol(x) => ReadSymbolElement(x);
    case Identifier(x) => ReadIdentifierElement(x);
    case IntegerConstant(x) => ReadIntegerElement(x);
    case StringConstant(x) => ReadStringElement(x);
  }

  lemma ReadSymbolElement(x: string)
    requires |x| == 1 && x[0] in Symbols
    ensures ReadXml(Element("symbol", EscapeSymbol(x))) == Some(Symbol(x))
  {
    ElementEnclosed("symbol", EscapeSymbol(x));
    ElementNotOther("symbol", "keyword", EscapeSymbol(x), 0);
    EscapeSymbolInverse(x);
  }

  lemma ReadIdentifierElement(x: string)
    ensures ReadXml(Element("identifier", x)) == Some(Identifier(x))
  {
    ElementEnclosed("identifier", x);
    ElementNotOther("identifier", "keyword", x, 0);
    ElementNotOther("identifier", "symbol", x, 0);
  }

  lemma ReadIntegerElement(x: string)
    ensures ReadXml(Element("integerConstant", x)) == Some(IntegerConstant(x))
  {
    ElementEnclosed("integerConstant", x);
    ElementNotOther("integerConstant", "keyword", x, 0);
    ElementNotOther("integerConstant", "symbol", x, 0);
    ElementNotOther("integerConstant", "identifier", x, 1);
  }

  lemma ReadStringElement(x: string)
    ensures ReadXml(Element("stringConstant", x)) == Some(StringConstant(x))
  {
    ElementEnclosed("stringConstant", x);
    ElementNotOther("stringConstant", "keyword", x, 0);
    ElementNotOther("stringConstant", "symbol", x, 1);
    ElementNotOther("stringConstant", "identifier", x, 0);
    ElementNotOther("stringConstant", "integerConstant", x, 0);
  }

  /** `advance` with nothing left to read fails on an empty line: no
      pattern matches the empty text. */
  lemma AdvanceAtEnd(t: Tokenizer)
    requires Good(t) && !HasMoreTokens(t)
    ensures Advance(t) == Err(LexicalError(t.line + 1, ""))
  {
    assert Rest(t) == "";
  }
}
