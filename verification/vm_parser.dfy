/** The VM command reader (08-vm-program-control/parser.py): it walks the
    cleaned, non-empty lines of one `.vm` file, splits the current one into
    up to three lower-cased tokens and classifies the first. */
module VmParser {
  import opened Wrappers
  import opened Text
  import LineReader
  import CommandSymbols

  datatype CommandType =
    | CArithmetic | CPush | CPop | CLabel | CGoto | CIf | CFunction | CReturn | CCall

  datatype ParserError =
    | UnknownCommand(command: Option<string>)
    | MissingFirstArgument

  /** The reader's state: the unread lines, the next command found
      (`None` at end of file), and the three tokens of the current command
      (`None` before the first `advance` and where a token is missing). */
  datatype Parser = Parser(
    rest: seq<string>,
    next: Option<string>,
    command: Option<string>,
    arg1: Option<string>,
    arg2: Option<string>)

  /** The commands still to be delivered by `advance`, in order. */
  function Pending(p: Parser): seq<string> {
    (if p.next.Some? then [p.next.value] else []) + LineReader.Commands(p.rest)
  }

  /** The constructor: reads ahead to the first command. */
  function Open(lines: seq<string>): (p: Parser)
    ensures Pending(p) == LineReader.Commands(lines)
    ensures p.command.None?
  {
    var (next, rest) := LineReader.ReadNext(lines);
    Parser(rest, next, None, None, None)
  }

  /** `has_more_commands`. */
  predicate HasMoreCommands(p: Parser) {
    p.next.Some?
  }

  /** `has_more_commands` is false exactly when no command is left, for a
      reader obtained from `Open` and `Advance`. */
  lemma HasMoreIffPending(p: Parser)
    requires p.next.None? ==> p.rest == []
    ensures HasMoreCommands(p) <==> |Pending(p)| > 0
  {
  }

  function TokenAt(ws: seq<string>, k: nat): Option<string> {
    if k < |ws| then Some(Lower(ws[k])) else None
  }

  /** `_parse_command`: split on whitespace, lower-case every token, and keep
      the first three, padding with `None`. */
  function ParseCommand(text: string): (Option<string>, Option<string>, Option<string>) {
    var ws := Split(text);
    (TokenAt(ws, 0), TokenAt(ws, 1), TokenAt(ws, 2))
  }

  /** Words joined by single spaces read back as their lower-cased selves;
      tokens beyond the third are ignored. */
  lemma ParseCommandOfWords(ws: seq<string>)
    requires forall k :: 0 <= k < |ws| ==> |ws[k]| > 0 && NoSpace(ws[k])
    ensures ParseCommand(JoinSpace(ws)) ==
      (TokenAt(ws, 0), TokenAt(ws, 1), TokenAt(ws, 2))
    ensures |ws| >= 1 ==> ParseCommand(JoinSpace(ws)).0 == Some(Lower(ws[0]))
    ensures |ws| <= 2 ==> ParseCommand(JoinSpace(ws)).2 == None
  {
    SplitJoin(ws);
  }

  /** `advance`: the pending command becomes current, and the reader moves to
      the next one. */
  function Advance(p: Parser): (q: Parser)
    requires HasMoreCommands(p)
    ensures Pending(q) == Pending(p)[1..]
    ensures (q.command, q.arg1, q.arg2) == ParseCommand(Pending(p)[0])
    ensures q.next.None? ==> q.rest == []
  {
    var (c, a1, a2) := ParseCommand(p.next.value);
    var (next, rest) := LineReader.ReadNext(p.rest);
    Parser(rest, next, c, a1, a2)
  }

  /** The `types` table of `command_type`: eight keywords, and every
      arithmetic mnemonic folded into one kind. */
  function TypeOf(word: string): (r: Option<CommandType>)
    ensures r == Some(CArithmetic) <==> word in CommandSymbols.AllCommands()
  {
    if word == "push" then Some(CPush)
    else if word == "pop" then Some(CPop)
    else if word == "label" then Some(CLabel)
    else if word == "goto" then Some(CGoto)
    else if word == "if-goto" then Some(CIf)
    else if word == "function" then Some(CFunction)
    else if word == "return" then Some(CReturn)
    else if word == "call" then Some(CCall)
    else if word in CommandSymbols.AllCommands() then Some(CArithmetic)
    else None
  }

  /** `command_type`: the kind of the current command, or ParserError. */
  function CommandTypeOf(p: Parser): (r: Result<CommandType, ParserError>)
    ensures r.Err? <==> p.command.None? || TypeOf(p.command.value).None?
  {
    match p.command
    case None => Err(UnknownCommand(None))
    case Some(w) =>
      match TypeOf(w)
      case None => Err(UnknownCommand(Some(w)))
      case Some(t) => Ok(t)
  }

  /** `arg1`: the second token, or ParserError when it is absent — including
      for arithmetic commands, whose mnemonic is the first token. */
  function Arg1(p: Parser): (r: Result<string, ParserError>)
    ensures r.Ok? <==> p.arg1.Some?
    ensures r.Ok? ==> r.value == p.arg1.value
  {
    match p.arg1
    case None => Err(if CommandTypeOf(p).Err? then CommandTypeOf(p).error else MissingFirstArgument)
    case Some(a) => Ok(a)
  }

  /** `arg2` guards with `if not self.arg2`, which tests the bound method
      (always truthy) rather than `_arg2`, so it never raises and hands back
      `None` when the third token is absent. */
  function Arg2(p: Parser): (r: Option<string>)
    ensures r == p.arg2
  {
    p.arg2
  }

  /** Reading a whole file: `advance` delivers exactly the cleaned, non-empty
      lines, in order. */
  function ReadAll(p: Parser): (cs: seq<string>)
    requires p.next.None? ==> p.rest == []
    ensures cs == Pending(p)
    decreases |Pending(p)|
  {
    if HasMoreCommands(p) then [p.next.value] + ReadAll(Advance(p)) else []
  }

  lemma {:induction false} ReadAllIsCommands(lines: seq<string>)
    ensures ReadAll(Open(lines)) == LineReader.Commands(lines)
  {
  }

  /** The eight keywords and the nine mnemonics are classified, and nothing else. */
  lemma TypeTable(word: string)
    ensures TypeOf("push") == Some(CPush) && TypeOf("pop") == Some(CPop)
    ensures TypeOf("label") == Some(CLabel) && TypeOf("goto") == Some(CGoto)
    ensures TypeOf("if-goto") == Some(CIf) && TypeOf("function") == Some(CFunction)
    ensures TypeOf("return") == Some(CReturn) && TypeOf("call") == Some(CCall)
    ensures TypeOf(word).Some? <==>
      word in ["push", "pop", "label", "goto", "if-goto", "function", "return", "call"]
      || word in CommandSymbols.AllCommands()
  {
  }
}
