/** The Jack tokenizer of the code generator
    (11-compiler-code-generation/jack_tokenizer.py): an ordered first-match
    lexer. At each position the token patterns are tried in a fixed order —
    whitespace, `//` comment, block comment, keyword, symbol, integer,
    string, identifier — and the first that matches decides what is
    consumed; whitespace and comments produce no token.

    Each regular expression is written out as a prefix matcher that returns
    the length of its match. No pattern looks behind the current position,
    so a position is represented by the unread rest of the source. The
    source counts lines by `os.linesep`, taken here to be "\n". */
module JackTokenizer {
  import opened Wrappers
  import opened Text
  import opened JackSyntax

  /** The keyword alternatives of the pattern, in the order it lists them. */
  const Keywords: seq<string> := [
    "class", "constructor", "function", "method", "field", "static", "var",
    "int", "char", "boolean", "void", "true", "false", "null", "this", "let",
    "do", "if", "else", "while", "return"
  ]

  predicate IsKeyword(w: string) {
    ListedFrom(w, 0)
  }

  /** `w` is one of the keywords from position `i` of the list on. */
  predicate ListedFrom(w: string, i: nat)
    decreases |Keywords| - i
  {
    i < |Keywords| && (Keywords[i] == w || ListedFrom(w, i + 1))
  }

  /** The symbol character class. */
  const Symbols: string := "{}()[].,;+-*/&|<>=~"

  /** `[a-zA-Z0-9_]`. */
  predicate WordChar(c: char) {
    IsLowerAscii(c) || IsUpperAscii(c) || IsDigit(c) || c == '_'
  }

  /** `[a-zA-Z_]`. */
  predicate IdentifierStart(c: char) {
    IsLowerAscii(c) || IsUpperAscii(c) || c == '_'
  }

  /** `[^\n\r]`. */
  predicate LineChar(c: char) {
    c != '\n' && c != '\r'
  }

  /** `[^"\r\n]`. */
  predicate StringChar(c: char) {
    c != '"' && LineChar(c)
  }

  predicate All(p: char -> bool, s: string) {
    forall i :: 0 <= i < |s| ==> p(s[i])
  }

  /** The length of the longest prefix of `s` whose characters satisfy `p`:
      what a greedy `[...]*` consumes. */
  function Run(p: char -> bool, s: string): (n: nat)
    ensures n <= |s| && All(p, s[..n])
    ensures n == |s| || !p(s[n])
  {
    if |s| > 0 && p(s[0]) then
      var n := Run(p, s[1..]);
      assert s[..1 + n] == [s[0]] + s[1..][..n];
      1 + n
    else 0
  }

  /** A run stops at the first character outside the class. */
  lemma {:induction false} RunStops(p: char -> bool, w: string, rest: string)
    requires All(p, w)
    requires |rest| == 0 || !p(rest[0])
    ensures Run(p, w + rest) == |w|
  {
    if |w| == 0 {
      assert w + rest == rest;
    } else {
      assert (w + rest)[0] == w[0];
      assert (w + rest)[1..] == w[1..] + rest;
      RunStops(p, w[1..], rest);
    }
  }

  predicate LowerWord(w: string) {
    |w| > 0 && forall i :: 0 <= i < |w| ==> IsLowerAscii(w[i])
  }

  lemma KeywordsLower(w: string)
    requires IsKeyword(w)
    ensures LowerWord(w)
  {
    ListedLower(w, 0);
  }

  lemma {:induction false} ListedLower(w: string, i: nat)
    requires ListedFrom(w, i)
    ensures LowerWord(w)
    decreases |Keywords| - i
  {
    if Keywords[i] != w {
      ListedLower(w, i + 1);
    }
  }

  lemma LowerWordIsWord(w: string)
    requires LowerWord(w)
    ensures |w| > 0 && IdentifierStart(w[0]) && All(WordChar, w)
  {
  }

  /** Every keyword is a word that can start an identifier. */
  lemma KeywordIsWord(k: string)
    requires IsKeyword(k)
    ensures |k| > 0 && IdentifierStart(k[0]) && All(WordChar, k)
  {
    KeywordsLower(k);
    LowerWordIsWord(k);
  }

  // The patterns, one matcher each; `None` where the pattern does not match
  // at the start of `s`, otherwise the length of the match.

  /** `\s`: one whitespace character. */
  function MatchWhitespace(s: string): Option<nat> {
    if |s| > 0 && IsSpace(s[0]) then Some(1) else None
  }

  /** `//[^\n\r]*[^\n\r]`: a line comment needs at least one character after
      the slashes, so a bare `//` at the end of a line does not match. */
  function MatchInlineComment(s: string): (r: Option<nat>)
    ensures r.Some? <==> |s| > 2 && s[..2] == "//" && LineChar(s[2])
  {
    if |s| >= 2 && s[0] == '/' && s[1] == '/' && Run(LineChar, s[2..]) > 0 then
      Some(2 + Run(LineChar, s[2..]))
    else None
  }

  /** A star-slash starts at `j`. */
  predicate ClosesAt(s: string, j: int) {
    0 <= j && j + 2 <= |s| && s[j] == '*' && s[j + 1] == '/'
  }

  /** Where the first closing star-slash at or after `from` starts. */
  function CloseAt(s: string, from: nat): (r: Option<nat>)
    ensures r.Some? ==> from <= r.value && ClosesAt(s, r.value)
    ensures r.Some? ==> forall j :: from <= j < r.value ==> !ClosesAt(s, j)
    ensures r.None? ==> forall j :: from <= j ==> !ClosesAt(s, j)
    decreases |s| - from
  {
    if from + 2 > |s| then None
    else if ClosesAt(s, from) then Some(from)
    else CloseAt(s, from + 1)
  }

  // The block-comment pattern (a lazy DOTALL match from slash-star to
  // star-slash): up to the first closing star-slash after the opening one;
  // an unclosed comment does not match.
  function MatchMultilineComment(s: string): Option<nat> {
    if |s| >= 2 && s[..2] == "/*" && CloseAt(s, 2).Some? then Some(CloseAt(s, 2).value + 2)
    else None
  }

  /** Keyword `k` starts `s` and a character that is not a word character
      follows it. */
  predicate KeywordStarts(s: string, k: string) {
    IsKeyword(k) && |k| < |s| && s[..|k|] == k && !WordChar(s[|k|])
  }

  /** The keyword alternation followed by the lookahead `(?=[^a-zA-Z0-9_])`.
      The lookahead needs an actual character, so a keyword at the very end
      of the source does not match. */
  function MatchKeyword(s: string): (r: Option<nat>)
    ensures r.Some? ==> r.value < |s| && KeywordStarts(s, s[..r.value])
  {
    var n := Run(WordChar, s);
    if IsKeyword(s[..n]) && n < |s| then Some(n) else None
  }

  /** A keyword matches exactly when some keyword starts the text and is
      followed by a non-word character. */
  lemma MatchKeywordIff(s: string)
    ensures MatchKeyword(s).Some? <==> exists k :: KeywordStarts(s, k)
  {
    var n := Run(WordChar, s);
    if IsKeyword(s[..n]) && n < |s| {
      assert KeywordStarts(s, s[..n]);
    }
    forall k | KeywordStarts(s, k) ensures MatchKeyword(s).Some? {
      KeywordIsWord(k);
      WordRunIs(s, k);
    }
  }

  /** The run of word characters at the start is `w` when `w` is followed by
      a non-word character. */
  lemma WordRunIs(s: string, w: string)
    requires All(WordChar, w) && |w| < |s| && s[..|w|] == w && !WordChar(s[|w|])
    ensures Run(WordChar, s) == |w| && s[..Run(WordChar, s)] == w
  {
    assert s == w + s[|w|..];
    RunStops(WordChar, w, s[|w|..]);
  }

  /** One character of the symbol class. */
  function MatchSymbol(s: string): Option<nat> {
    if |s| > 0 && s[0] in Symbols then Some(1) else None
  }

  /** `\d+`, on ASCII digits. */
  function MatchIntegerConstant(s: string): Option<nat> {
    var n := Run(IsDigit, s);
    if n > 0 then Some(n) else None
  }

  /** `"[^"\r\n]*"`: an unclosed string, or one broken by a line end, does
      not match. */
  function MatchStringConstant(s: string): Option<nat> {
    if |s| > 0 && s[0] == '"' && 1 + Run(StringChar, s[1..]) < |s| && s[1 + Run(StringChar, s[1..])] == '"' then
      Some(2 + Run(StringChar, s[1..]))
    else None
  }

  /** `[a-zA-Z_][a-zA-Z_0-9]*`. */
  function MatchIdentifier(s: string): Option<nat> {
    if |s| > 0 && IdentifierStart(s[0]) then Some(Run(WordChar, s)) else None
  }

  /** `text.replace('"', '')`. */
  function Unquote(t: string): (r: string)
    ensures '"' !in r && |r| <= |t|
    ensures '"' !in t ==> r == t
  {
    if |t| == 0 then ""
    else (if t[0] == '"' then "" else [t[0]]) + Unquote(t[1..])
  }

  /** The text of a string constant loses its quotes. */
  lemma UnquoteString(inner: string)
    requires All(StringChar, inner)
    ensures Unquote("\"" + inner + "\"") == inner
  {
    var t := "\"" + inner + "\"";
    assert '"' !in inner by {
      forall i | 0 <= i < |inner| ensures inner[i] != '"' {
        assert StringChar(inner[i]);
      }
    }
    assert t[1..] == inner + "\"";
    UnquoteAppend(inner, "\"");
  }

  lemma {:induction false} UnquoteAppend(a: string, b: string)
    ensures Unquote(a + b) == Unquote(a) + Unquote(b)
  {
    if |a| > 0 {
      assert (a + b)[1..] == a[1..] + b;
      UnquoteAppend(a[1..], b);
    } else {
      assert a + b == b;
    }
  }

  /** A token the tokenizer can produce. */
  predicate Valid(t: Token) {
    match t
    case Keyword(k) => IsKeyword(k)
    case Symbol(c) => |c| == 1 && c[0] in Symbols
    case IntegerConstant(d) => IsDigits(d)
    case StringConstant(x) => All(StringChar, x)
    case Identifier(x) => |x| > 0 && IdentifierStart(x[0]) && All(WordChar, x)
  }

  /** Text of word characters has no quote to remove. */
  lemma UnquoteWord(w: string)
    requires All(WordChar, w)
    ensures Unquote(w) == w
  {
    assert '"' !in w by {
      forall i | 0 <= i < |w| ensures w[i] != '"' {
        assert WordChar(w[i]);
      }
    }
  }

  /** What one step of the loop consumes: `length` characters, and a token
      unless the match was whitespace or a comment. */
  datatype Lexeme = Skip(length: nat) | Emit(token: Token, length: nat)

  // The token each token pattern produces from its match: the matched text
  // with its quotes removed, as the pattern's syntax element.

  function KeywordAt(s: string): (l: Lexeme)
    requires MatchKeyword(s).Some?
    ensures l.Emit? && 0 < l.length <= |s| && Valid(l.token)
  {
    var n := MatchKeyword(s).value;
    KeywordIsWord(s[..n]);
    UnquoteWord(s[..n]);
    Emit(Keyword(Unquote(s[..n])), n)
  }

  function SymbolAt(s: string): (l: Lexeme)
    requires MatchSymbol(s).Some?
    ensures l.Emit? && 0 < l.length <= |s| && Valid(l.token)
  {
    assert s[..1] == [s[0]];
    Emit(Symbol(Unquote(s[..1])), 1)
  }

  function IntegerConstantAt(s: string): (l: Lexeme)
    requires MatchIntegerConstant(s).Some?
    ensures l.Emit? && 0 < l.length <= |s| && Valid(l.token)
  {
    var n := MatchIntegerConstant(s).value;
    var w := s[..n];
    assert All(WordChar, w) by {
      forall i | 0 <= i < |w| ensures WordChar(w[i]) {
        assert IsDigit(w[i]);
      }
    }
    UnquoteWord(w);
    Emit(IntegerConstant(Unquote(w)), n)
  }

  /** A string constant's token is the text between its quotes. */
  function StringConstantAt(s: string): (l: Lexeme)
    requires MatchStringConstant(s).Some?
    ensures l.Emit? && 2 <= l.length <= |s| && Valid(l.token)
    ensures l.token == StringConstant(s[1..l.length - 1])
  {
    var n := MatchStringConstant(s).value;
    var inner := s[1..][..n - 2];
    assert s[..n] == "\"" + inner + "\"";
    assert inner == s[1..n - 1];
    UnquoteString(inner);
    Emit(StringConstant(Unquote(s[..n])), n)
  }

  function IdentifierAt(s: string): (l: Lexeme)
    requires MatchIdentifier(s).Some?
    ensures l.Emit? && 0 < l.length <= |s| && Valid(l.token)
  {
    var n := MatchIdentifier(s).value;
    UnquoteWord(s[..n]);
    Emit(Identifier(Unquote(s[..n])), n)
  }

  /** The characters a whitespace or comment pattern consumes. */
  function Skipped(s: string): (r: Option<nat>)
    ensures r.Some? ==> 0 < r.value <= |s|
  {
    if MatchWhitespace(s).Some? then MatchWhitespace(s)
    else if MatchInlineComment(s).Some? then MatchInlineComment(s)
    else MatchMultilineComment(s)
  }

  /** One pass over the pattern table: the first pattern that matches. */
  function Scan(s: string): (r: Option<Lexeme>)
    ensures r.Some? ==> 0 < r.value.length <= |s|
    ensures r.Some? && r.value.Emit? ==> Valid(r.value.token)
  {
    if Skipped(s).Some? then Some(Skip(Skipped(s).value))
    else if MatchKeyword(s).Some? then Some(KeywordAt(s))
    else if MatchSymbol(s).Some? then Some(SymbolAt(s))
    else if MatchIntegerConstant(s).Some? then Some(IntegerConstantAt(s))
    else if MatchStringConstant(s).Some? then Some(StringConstantAt(s))
    else if MatchIdentifier(s).Some? then Some(IdentifierAt(s))
    else None
  }

  /** `TokenizerError`, with the line number (from 1) and the rest of the
      line where no pattern matched. The source formats the message with an
      undefined name `line`, which raises `NameError` instead; the model
      reports the evidently intended `line_num + 1`. */
  datatype TokenizerError = TokenizerError(line: nat, text: string)

  /** `text.count(os.linesep)`. */
  function Newlines(s: string): (n: nat)
    ensures n <= |s|
  {
    if |s| == 0 then 0 else (if s[0] == '\n' then 1 else 0) + Newlines(s[1..])
  }

  lemma {:induction false} NewlinesAppend(a: string, b: string)
    ensures Newlines(a + b) == Newlines(a) + Newlines(b)
  {
    if |a| > 0 {
      assert (a + b)[1..] == a[1..] + b;
      NewlinesAppend(a[1..], b);
    } else {
      assert a + b == b;
    }
  }

  /** The error for a position where no pattern matches. */
  function ErrorAt(rest: string, line: nat): TokenizerError {
    TokenizerError(line + 1, rest[..Run(LineChar, rest)])
  }

  /** A pattern table that consumes at least one character whenever it
      matches. */
  ghost predicate Progresses(scan: string -> Option<Lexeme>) {
    forall s {:trigger scan(s)} :: scan(s).Some? ==> 0 < scan(s).value.length <= |s|
  }

  /** A pattern table that only produces tokens satisfying `ok`. */
  ghost predicate Emits(scan: string -> Option<Lexeme>, ok: Token -> bool) {
    forall s :: scan(s).Some? && scan(s).value.Emit? ==> ok(scan(s).value.token)
  }

  lemma ScanProgresses()
    ensures Progresses(Scan) && Emits(Scan, Valid)
  {
  }

  /** No pattern matches `p` characters into `rest`, and `e` reports that
      position, `line` newlines having been read before `rest`. */
  ghost predicate FailsAt(scan: string -> Option<Lexeme>, rest: string, line: nat, p: int, e: TokenizerError) {
    0 <= p < |rest| && scan(rest[p..]).None? && e == ErrorAt(rest[p..], line + Newlines(rest[..p]))
  }

  /** The loop of `tokenize` from the unread text `rest`, with `line`
      newlines read so far, for a given pattern table `scan`. */
  function TokenizeWith(scan: string -> Option<Lexeme>, rest: string, line: nat): (r: Result<seq<Token>, TokenizerError>)
    requires Progresses(scan)
    decreases |rest|
  {
    if |rest| == 0 then Ok([])
    else match scan(rest)
      case None => Err(ErrorAt(rest, line))
      case Some(lexeme) =>
        var n := lexeme.length;
        var r := TokenizeWith(scan, rest[n..], line + Newlines(rest[..n]));
        if r.Err? then Err(r.error)
        else Ok(if lexeme.Emit? then [lexeme.token] + r.value else r.value)
  }

  lemma FailsAtStart(scan: string -> Option<Lexeme>, rest: string, line: nat)
    requires |rest| > 0 && scan(rest).None?
    ensures FailsAt(scan, rest, line, 0, ErrorAt(rest, line))
  {
    assert rest[0..] == rest && rest[..0] == "";
  }

  /** An error found after the first `n` characters is an error at a
      position of the whole text, with the newlines of both parts counted. */
  lemma ErrorShift(scan: string -> Option<Lexeme>, rest: string, n: nat, line: nat, after: nat,
                    r: Result<seq<Token>, TokenizerError>)
    requires n <= |rest| && after == line + Newlines(rest[..n])
    requires r.Err? && exists p :: FailsAt(scan, rest[n..], after, p, r.error)
    ensures exists p :: FailsAt(scan, rest, line, p, r.error)
  {
    var e := r.error;
    var p :| FailsAt(scan, rest[n..], after, p, e);
    assert rest[n..][p..] == rest[n + p..];
    assert rest[..n + p] == rest[..n] + rest[n..][..p];
    NewlinesAppend(rest[..n], rest[n..][..p]);
    assert FailsAt(scan, rest, line, n + p, e);
  }

  /** The loop stops with an error exactly at a position where no pattern
      matches, reporting the line it is on. */
  lemma {:induction false} TokenizeWithFails(scan: string -> Option<Lexeme>, rest: string, line: nat)
    requires Progresses(scan)
    ensures var r := TokenizeWith(scan, rest, line);
      r.Err? ==> exists p :: FailsAt(scan, rest, line, p, r.error)
    decreases |rest|
  {
    var r := TokenizeWith(scan, rest, line);
    if |rest| > 0 && r.Err? {
      if scan(rest).None? {
        FailsAtStart(scan, rest, line);
      } else {
        var n := scan(rest).value.length;
        var after := line + Newlines(rest[..n]);
        TokenizeWithStep(scan, rest, line);
        TokenizeWithFails(scan, rest[n..], after);
        ErrorShift(scan, rest, n, line, after, TokenizeWith(scan, rest[n..], after));
      }
    }
  }

  /** Every token the loop produces comes from the pattern table. */
  lemma {:induction false} TokenizeWithEmits(scan: string -> Option<Lexeme>, ok: Token -> bool, rest: string, line: nat)
    requires Progresses(scan) && Emits(scan, ok)
    ensures var r := TokenizeWith(scan, rest, line);
      r.Ok? ==> forall k :: 0 <= k < |r.value| ==> ok(r.value[k])
    decreases |rest|
  {
    if |rest| > 0 && scan(rest).Some? {
      var n := scan(rest).value.length;
      TokenizeWithEmits(scan, ok, rest[n..], line + Newlines(rest[..n]));
      EmitsAfterStep(scan, ok, rest, line);
    }
  }

  lemma EmitsAfterStep(scan: string -> Option<Lexeme>, ok: Token -> bool, rest: string, line: nat)
    requires Progresses(scan) && Emits(scan, ok) && |rest| > 0 && scan(rest).Some?
    requires var n := scan(rest).value.length;
      var tail := TokenizeWith(scan, rest[n..], line + Newlines(rest[..n]));
      tail.Ok? ==> forall k :: 0 <= k < |tail.value| ==> ok(tail.value[k])
    ensures var r := TokenizeWith(scan, rest, line);
      r.Ok? ==> forall k :: 0 <= k < |r.value| ==> ok(r.value[k])
  {
    var l := scan(rest).value;
    var tail := TokenizeWith(scan, rest[l.length..], line + Newlines(rest[..l.length]));
    TokenizeWithStep(scan, rest, line);
    EmitsStep(ok, l, tail, TokenizeWith(scan, rest, line));
  }

  lemma EmitsStep(ok: Token -> bool, l: Lexeme, tail: Result<seq<Token>, TokenizerError>, r: Result<seq<Token>, TokenizerError>)
    requires r == if tail.Err? then tail else Ok(if l.Emit? then [l.token] + tail.value else tail.value)
    requires l.Emit? ==> ok(l.token)
    requires tail.Ok? ==> forall k :: 0 <= k < |tail.value| ==> ok(tail.value[k])
    ensures r.Ok? ==> forall k :: 0 <= k < |r.value| ==> ok(r.value[k])
  {
    if tail.Ok? && l.Emit? {
      assert forall k :: 1 <= k < |r.value| ==> r.value[k] == tail.value[k - 1];
    }
  }

  /** One turn of the loop: a match of `n` characters is consumed, its
      token (if any) goes in front of the tokens of the rest, and an error in
      the rest is the result. */
  lemma TokenizeWithStep(scan: string -> Option<Lexeme>, rest: string, line: nat)
    requires Progresses(scan) && |rest| > 0 && scan(rest).Some?
    ensures var l := scan(rest).value;
      var tail := TokenizeWith(scan, rest[l.length..], line + Newlines(rest[..l.length]));
      TokenizeWith(scan, rest, line)
        == if tail.Err? then tail else Ok(if l.Emit? then [l.token] + tail.value else tail.value)
  {
  }

  /** The loop of `tokenize` with the tokenizer's own pattern table. */
  function TokenizeFrom(rest: string, line: nat): Result<seq<Token>, TokenizerError> {
    ScanProgresses();
    TokenizeWith(Scan, rest, line)
  }

  /** `JackTokenizer.tokenize`. */
  function Tokenize(source: string): (r: Result<seq<Token>, TokenizerError>)
    ensures r.Ok? ==> forall k :: 0 <= k < |r.value| ==> Valid(r.value[k])
    ensures r.Err? ==> exists p :: FailsAt(Scan, source, 0, p, r.error)
  {
    ScanProgresses();
    TokenizeWithFails(Scan, source, 0);
    TokenizeWithEmits(Scan, Valid, source, 0);
    TokenizeFrom(source, 0)
  }

  // Reading tokens back from their spelling.

  /** A token that reads back as itself when followed by a space: any token
      the tokenizer produces, except an identifier spelled like a keyword. */
  predicate Spellable(t: Token) {
    Valid(t) && !(t.Identifier? && IsKeyword(t.identifier))
  }

  /** The source text of a token: a string constant gets its quotes back. */
  function Spell(t: Token): string {
    match t
    case Keyword(k) => k
    case Symbol(c) => c
    case IntegerConstant(d) => d
    case StringConstant(x) => "\"" + x + "\""
    case Identifier(x) => x
  }

  /** The tokens written out with a space after each. */
  function Layout(ts: seq<Token>): string {
    if |ts| == 0 then "" else Spell(ts[0]) + (" " + Layout(ts[1..]))
  }

  lemma KeywordNotDigit(w: string)
    requires |w| > 0 && (IsDigit(w[0]) || w[0] == '_' || IsUpperAscii(w[0]))
    ensures !IsKeyword(w)
  {
    if IsKeyword(w) {
      KeywordsLower(w);
    }
  }

  /** A keyword can only match where a word character starts the text. */
  lemma NoKeywordBefore(s: string)
    requires |s| == 0 || !WordChar(s[0])
    ensures MatchKeyword(s).None?
  {
    if MatchKeyword(s).Some? {
      KeywordIsWord(s[..MatchKeyword(s).value]);
    }
  }

  /** No keyword matches where the whole run of word characters is not a
      keyword. */
  lemma NoKeywordIn(s: string, w: string)
    requires All(WordChar, w) && |w| < |s| && s[..|w|] == w && !WordChar(s[|w|]) && !IsKeyword(w)
    ensures MatchKeyword(s).None?
  {
    WordRunIs(s, w);
  }

  /** Text that starts with neither whitespace nor a comment opener is not
      skipped. */
  lemma NotSkipped(s: string)
    requires |s| > 0 && !IsSpace(s[0])
    requires s[0] == '/' ==> |s| > 1 && s[1] != '/' && s[1] != '*'
    ensures Skipped(s).None?
  {
    assert |s| >= 2 ==> s[..2][0] == s[0] && s[..2][1] == s[1];
  }

  lemma ScanSpace(rest: string)
    ensures Scan(" " + rest) == Some(Skip(1))
  {
  }

  lemma ScanKeyword(k: string, rest: string)
    requires IsKeyword(k) && |rest| > 0 && !WordChar(rest[0])
    ensures Scan(k + rest) == Some(Emit(Keyword(k), |k|))
  {
    var s := k + rest;
    KeywordIsWord(k);
    assert s[..|k|] == k && s[|k|] == rest[0] && s[0] == k[0];
    NotSkipped(s);
    KeywordMatches(s, k);
    UnquoteWord(k);
  }

  lemma KeywordMatches(s: string, k: string)
    requires IsKeyword(k) && |k| < |s| && s[..|k|] == k && !WordChar(s[|k|])
    ensures MatchKeyword(s) == Some(|k|)
  {
    KeywordIsWord(k);
    WordRunIs(s, k);
  }

  lemma ScanSymbol(c: string, rest: string)
    requires |c| == 1 && c[0] in Symbols && |rest| > 0 && rest[0] == ' '
    ensures Scan(c + rest) == Some(Emit(Symbol(c), 1))
  {
    SymbolMatches(c, rest);
    SymbolToken(c, rest);
    ScanIsSymbol(c + rest);
  }

  lemma SymbolMatches(c: string, rest: string)
    requires |c| == 1 && c[0] in Symbols && |rest| > 0 && rest[0] == ' '
    ensures var s := c + rest; Skipped(s).None? && MatchKeyword(s).None? && MatchSymbol(s).Some?
  {
    var s := c + rest;
    assert s[0] == c[0] && s[1] == ' ';
    NotSkipped(s);
    NoKeywordBefore(s);
  }

  lemma SymbolToken(c: string, rest: string)
    requires |c| == 1 && c[0] in Symbols && |rest| > 0 && rest[0] == ' '
    ensures MatchSymbol(c + rest).Some? && SymbolAt(c + rest) == Emit(Symbol(c), 1)
  {
    assert (c + rest)[..1] == c;
  }

  lemma ScanIsSymbol(s: string)
    requires Skipped(s).None? && MatchKeyword(s).None? && MatchSymbol(s).Some?
    ensures Scan(s) == Some(SymbolAt(s))
  {
  }

  lemma ScanIsInteger(s: string)
    requires Skipped(s).None? && MatchKeyword(s).None? && MatchSymbol(s).None? && MatchIntegerConstant(s).Some?
    ensures Scan(s) == Some(IntegerConstantAt(s))
  {
  }

  lemma ScanIsIdentifier(s: string)
    requires Skipped(s).None? && MatchKeyword(s).None? && MatchSymbol(s).None?
    requires MatchIntegerConstant(s).None? && MatchStringConstant(s).None? && MatchIdentifier(s).Some?
    ensures Scan(s) == Some(IdentifierAt(s))
  {
  }

  lemma ScanInteger(d: string, rest: string)
    requires IsDigits(d) && |rest| > 0 && rest[0] == ' '
    ensures Scan(d + rest) == Some(Emit(IntegerConstant(d), |d|))
  {
    IntegerNotSkipped(d, rest);
    IntegerNotKeyword(d, rest);
    IntegerToken(d, rest);
    ScanIsInteger(d + rest);
  }

  lemma DigitsAreWord(d: string)
    requires IsDigits(d)
    ensures All(WordChar, d)
  {
    forall i | 0 <= i < |d| ensures WordChar(d[i]) {
      assert IsDigit(d[i]);
    }
  }

  lemma IntegerNotSkipped(d: string, rest: string)
    requires IsDigits(d) && |rest| > 0
    ensures Skipped(d + rest).None?
  {
    var s := d + rest;
    assert s[0] == d[0];
    NotSkipped(s);
  }

  lemma IntegerNotKeyword(d: string, rest: string)
    requires IsDigits(d) && |rest| > 0 && rest[0] == ' '
    ensures MatchKeyword(d + rest).None?
  {
    var s := d + rest;
    assert s[..|d|] == d && s[|d|] == ' ';
    DigitsAreWord(d);
    KeywordNotDigit(d);
    NoKeywordIn(s, d);
  }

  lemma IntegerToken(d: string, rest: string)
    requires IsDigits(d) && |rest| > 0 && rest[0] == ' '
    ensures MatchSymbol(d + rest).None?
    ensures MatchIntegerConstant(d + rest).Some? && IntegerConstantAt(d + rest) == Emit(IntegerConstant(d), |d|)
  {
    assert (d + rest)[..|d|] == d && (d + rest)[0] == d[0];
    RunStops(IsDigit, d, rest);
    DigitsAreWord(d);
    UnquoteWord(d);
  }

  lemma ScanString(x: string, rest: string)
    requires All(StringChar, x) && |rest| > 0 && rest[0] == ' '
    ensures Scan("\"" + x + "\"" + rest) == Some(Emit(StringConstant(x), |x| + 2))
  {
    var s := "\"" + x + "\"" + rest;
    assert s[1..] == x + ("\"" + rest);
    RunStops(StringChar, x, "\"" + rest);
    assert s[1 + |x|] == '"';
    assert s[1..|x| + 1] == x;
    NotSkipped(s);
    NoKeywordBefore(s);
  }

  lemma ScanIdentifier(x: string, rest: string)
    requires Valid(Identifier(x)) && !IsKeyword(x) && |rest| > 0 && rest[0] == ' '
    ensures Scan(x + rest) == Some(Emit(Identifier(x), |x|))
  {
    IdentifierMatches(x, rest);
    IdentifierToken(x, rest);
    ScanIsIdentifier(x + rest);
  }

  lemma IdentifierMatches(x: string, rest: string)
    requires Valid(Identifier(x)) && !IsKeyword(x) && |rest| > 0 && rest[0] == ' '
    ensures var s := x + rest;
      Skipped(s).None? && MatchKeyword(s).None? && MatchSymbol(s).None? && MatchIntegerConstant(s).None?
      && MatchStringConstant(s).None? && MatchIdentifier(s).Some?
  {
    var s := x + rest;
    assert s[..|x|] == x && s[|x|] == ' ' && s[0] == x[0];
    NotSkipped(s);
    NoKeywordIn(s, x);
    OtherTokensNotAt(s);
  }

  /** Text starting with a letter or underscore is not a symbol, an integer
      or a string. */
  lemma OtherTokensNotAt(s: string)
    requires |s| > 0 && IdentifierStart(s[0])
    ensures MatchSymbol(s).None? && MatchIntegerConstant(s).None? && MatchStringConstant(s).None? && MatchIdentifier(s).Some?
  {
  }

  lemma IdentifierToken(x: string, rest: string)
    requires Valid(Identifier(x)) && |rest| > 0 && rest[0] == ' '
    ensures MatchIdentifier(x + rest).Some? && IdentifierAt(x + rest) == Emit(Identifier(x), |x|)
  {
    var s := x + rest;
    assert s[..|x|] == x && s[|x|] == ' ' && s[0] == x[0];
    WordRunIs(s, x);
    UnquoteWord(x);
  }

  /** A spellable token followed by a space is read as that token, its
      spelling consumed. */
  lemma ScanSpelled(t: Token, rest: string)
    requires Spellable(t) && |rest| > 0 && rest[0] == ' '
    ensures Scan(Spell(t) + rest) == Some(Emit(t, |Spell(t)|))
  {
    match t
    case Keyword(k) => ScanKeyword(k, rest);
    case Symbol(c) => ScanSymbol(c, rest);
    case IntegerConstant(d) => ScanInteger(d, rest);
    case StringConstant(x) =>
      assert Spell(t) + rest == "\"" + x + "\"" + rest;
      ScanString(x, rest);
    case Identifier(x) => ScanIdentifier(x, rest);
  }

  /** A pattern table that skips a leading space and reads a spellable
      token followed by a space as that token. */
  ghost predicate ReadsLayout(scan: string -> Option<Lexeme>) {
    && (forall rest {:trigger scan(" " + rest)} :: scan(" " + rest) == Some(Skip(1)))
    && (forall t, rest {:trigger scan(Spell(t) + rest)} :: Spellable(t) && |rest| > 0 && rest[0] == ' ' ==> scan(Spell(t) + rest) == Some(Emit(t, |Spell(t)|)))
  }

  lemma ScanReadsLayout()
    ensures ReadsLayout(Scan)
  {
    forall rest ensures Scan(" " + rest) == Some(Skip(1)) {
      ScanSpace(rest);
    }
    forall t, rest | Spellable(t) && |rest| > 0 && rest[0] == ' '
      ensures Scan(Spell(t) + rest) == Some(Emit(t, |Spell(t)|))
    {
      ScanSpelled(t, rest);
    }
  }

  /** A space is skipped without counting a line. */
  lemma SpaceStep(scan: string -> Option<Lexeme>, rest: string, line: nat)
    requires Progresses(scan) && scan(" " + rest) == Some(Skip(1))
    ensures TokenizeWith(scan, " " + rest, line) == TokenizeWith(scan, rest, line)
  {
    TokenizeWithStep(scan, " " + rest, line);
    assert (" " + rest)[1..] == rest;
    assert (" " + rest)[..1] == " ";
  }

  /** Reading the layout of spellable tokens gives the tokens back. */
  lemma {:induction false} LayoutRoundTrip(scan: string -> Option<Lexeme>, ts: seq<Token>, line: nat)
    requires Progresses(scan) && ReadsLayout(scan)
    requires forall k :: 0 <= k < |ts| ==> Spellable(ts[k])
    ensures TokenizeWith(scan, Layout(ts), line) == Ok(ts)
  {
    if |ts| > 0 {
      var next, tail := line + Newlines(Spell(ts[0])), ts[1..];
      LayoutRoundTrip(scan, tail, next);
      LayoutStep(scan, ts[0], tail, line, next);
      assert ts == [ts[0]] + tail;
    }
  }

  /** One token of the layout: its spelling, then the space. */
  lemma LayoutStep(scan: string -> Option<Lexeme>, t: Token, tail: seq<Token>, line: nat, next: nat)
    requires Progresses(scan) && ReadsLayout(scan) && Spellable(t)
    requires next == line + Newlines(Spell(t)) && TokenizeWith(scan, Layout(tail), next) == Ok(tail)
    ensures TokenizeWith(scan, Layout([t] + tail), line) == Ok([t] + tail)
  {
    var w, after := Spell(t), " " + Layout(tail);
    assert ([t] + tail)[1..] == tail;
    assert Layout([t] + tail) == w + after;
    SpaceStep(scan, Layout(tail), next);
    assert TokenizeWith(scan, after, next) == Ok(tail);
    assert scan(w + after) == Some(Emit(t, |w|));
    TokenStep(scan, w, t, after, line, next);
  }

  lemma TokenizeLayout(ts: seq<Token>)
    requires forall k :: 0 <= k < |ts| ==> Spellable(ts[k])
    ensures Tokenize(Layout(ts)) == Ok(ts)
  {
    ScanProgresses();
    ScanReadsLayout();
    LayoutRoundTrip(Scan, ts, 0);
  }

  // Two consequences of the pattern table, read off the patterns.

  /** The tokens of `r` after token `t`, or the error of `r`. */
  function Prepend(t: Token, r: Result<seq<Token>, TokenizerError>): Result<seq<Token>, TokenizerError> {
    if r.Err? then r else Ok([t] + r.value)
  }

  /** Text that one scan turns into a token contributes that token ahead of
      whatever the rest of the text gives. */
  lemma TokenStep(scan: string -> Option<Lexeme>, w: string, t: Token, rest: string, line: nat, next: nat)
    requires Progresses(scan) && scan(w + rest) == Some(Emit(t, |w|)) && next == line + Newlines(w)
    ensures TokenizeWith(scan, w + rest, line) == Prepend(t, TokenizeWith(scan, rest, next))
  {
    var s := w + rest;
    TokenizeWithStep(scan, s, line);
    assert s[|w|..] == rest && s[..|w|] == w;
  }

  /** A `//` with nothing after it on its line is not a comment: it is read
      as two `/` symbols. */
  lemma BareSlashes(rest: string, line: nat)
    requires |rest| == 0 || !LineChar(rest[0])
    ensures TokenizeFrom("//" + rest, line) == Prepend(Symbol("/"), Prepend(Symbol("/"), TokenizeFrom(rest, line)))
  {
    ScanProgresses();
    var after := "/" + rest;
    assert "//" + rest == "/" + after;
    SlashSymbol("/" + after);
    SlashSymbol(after);
    TokenStep(Scan, "/", Symbol("/"), after, line, line);
    TokenStep(Scan, "/", Symbol("/"), rest, line, line);
  }

  /** A `/` not followed by `*`, nor by a `/` that starts a comment, is a
      symbol. */
  lemma SlashSymbol(s: string)
    requires |s| > 0 && s[0] == '/'
    requires |s| > 1 ==> s[1] != '*'
    requires |s| > 2 && s[1] == '/' ==> !LineChar(s[2])
    ensures Scan(s) == Some(Emit(Symbol("/"), 1))
  {
    assert |s| >= 2 ==> s[..2][0] == s[0] && s[..2][1] == s[1];
    NoKeywordBefore(s);
    assert s[..1] == "/";
  }

  /** A keyword at the very end of the source is read as an identifier:
      the keyword pattern's lookahead finds no character after it. */
  lemma KeywordAtEnd(k: string)
    requires IsKeyword(k)
    ensures Tokenize(k) == Ok([Identifier(k)])
  {
    ScanProgresses();
    KeywordIsWord(k);
    ScanFinalWord(k);
    LastToken(Scan, k, Identifier(k), 0);
  }

  /** Text that one scan turns into a token as a whole. */
  lemma LastToken(scan: string -> Option<Lexeme>, w: string, t: Token, line: nat)
    requires Progresses(scan) && scan(w) == Some(Emit(t, |w|))
    ensures TokenizeWith(scan, w, line) == Ok([t])
  {
    TokenizeWithStep(scan, w, line);
    assert w[|w|..] == "";
    assert [t] + [] == [t];
  }

  /** The same keyword followed by a symbol other than `/` is a keyword. */
  lemma KeywordBeforeSymbol(k: string, c: char)
    requires IsKeyword(k) && c in Symbols && c != '/'
    ensures Tokenize(k + [c]) == Ok([Keyword(k), Symbol([c])])
  {
    ScanProgresses();
    ScanKeyword(k, [c]);
    ScanLastSymbol(c);
    LastToken(Scan, [c], Symbol([c]), Newlines(k));
    TokenStep(Scan, k, Keyword(k), [c], 0, Newlines(k));
    assert [Keyword(k)] + [Symbol([c])] == [Keyword(k), Symbol([c])];
  }

  /** A word at the very end of the source is an identifier. */
  lemma ScanFinalWord(k: string)
    requires |k| > 0 && IdentifierStart(k[0]) && All(WordChar, k)
    ensures Scan(k) == Some(Emit(Identifier(k), |k|))
  {
    NotSkipped(k);
    RunStops(WordChar, k, "");
    assert k + "" == k;
    OtherTokensNotAt(k);
    assert k[..|k|] == k;
    UnquoteWord(k);
  }

  /** A symbol other than `/` at the very end of the source. */
  lemma ScanLastSymbol(c: char)
    requires c in Symbols && c != '/'
    ensures Scan([c]) == Some(Emit(Symbol([c]), 1))
  {
    assert [c][..1] == [c];
    NotSkipped([c]);
    NoKeywordBefore([c]);
  }

  /** An unclosed block comment is not a comment: its `/` is a symbol. */
  lemma UnclosedComment(s: string)
    requires |s| >= 2 && s[0] == '/' && s[1] == '*' && CloseAt(s, 2).None?
    ensures Scan(s) == Some(Emit(Symbol("/"), 1))
  {
    assert s[..2][0] == s[0] && s[..2][1] == s[1];
    NoKeywordBefore(s);
    assert s[..1] == "/";
  }
}
