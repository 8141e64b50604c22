/** The Hack assembly reader (06-assembler/parser.py): it walks the cleaned,
    non-empty lines of an `.asm` file, classifies each command by its first
    character, extracts the symbol of `@Xxx` and `(Xxx)`, and splits a
    C-instruction into its `dest`, `comp` and `jump` fields, each checked
    against the code tables. */
module HackParser {
  import opened Wrappers
  import opened Text
  import LineReader
  import HackCode

  datatype CommandType = ACommand | LCommand | CCommand

  datatype Field = DestField | CompField | JumpField

  /** `ParserError` for a field that is not a key of its table (the source's
      message is a plain string whose braces are never filled in), and the
      failed attribute lookup when the symbol pattern finds no match. */
  datatype ParserError = InvalidMnemonic(field: Field) | NoSymbol(command: string)

  /** The reader's state: the whole file (kept for `reset`), the unread
      lines, the next command found and the current one. */
  datatype Parser = Parser(lines: seq<string>, rest: seq<string>, next: Option<string>, command: Option<string>)

  /** The commands still to be delivered by `advance`, in order. */
  function Pending(p: Parser): seq<string> {
    (if p.next.Some? then [p.next.value] else []) + LineReader.Commands(p.rest)
  }

  /** `reset` (and the constructor, which calls it): rewind to the start of
      the file and read ahead to its first command. */
  function Reset(lines: seq<string>, command: Option<string>): (p: Parser)
    ensures Pending(p) == LineReader.Commands(lines)
    ensures p.lines == lines && p.command == command
  {
    var (next, rest) := LineReader.ReadNext(lines);
    Parser(lines, rest, next, command)
  }

  function Open(lines: seq<string>): (p: Parser)
    ensures Pending(p) == LineReader.Commands(lines) && p.command.None?
  {
    Reset(lines, None)
  }

  /** `has_more_commands`. */
  predicate HasMoreCommands(p: Parser) {
    p.next.Some?
  }

  /** `advance`: the pending command becomes current. */
  function Advance(p: Parser): (q: Parser)
    requires HasMoreCommands(p)
    ensures q.command == Some(Pending(p)[0])
    ensures Pending(q) == Pending(p)[1..]
    ensures q.lines == p.lines
  {
    var (next, rest) := LineReader.ReadNext(p.rest);
    Parser(p.lines, rest, next, p.next)
  }

  /** `command_type`: by the first character of the command. */
  function TypeOf(command: string): (t: CommandType)
    ensures t == ACommand <==> |command| > 0 && command[0] == '@'
    ensures t == LCommand <==> |command| > 0 && command[0] == '('
  {
    if StartsWith(command, "@") then ACommand
    else if StartsWith(command, "(") then LCommand
    else CCommand
  }

  // The symbol pattern `[(@]([a-zA-Z0-9_.$:]+)\)?`, searched for anywhere in
  // the command; its group is the longest run of symbol characters after the
  // first `(` or `@` that is followed by at least one.

  predicate SymbolChar(c: char) {
    'a' <= c <= 'z' || 'A' <= c <= 'Z' || '0' <= c <= '9' || c == '_' || c == '.' || c == '$' || c == ':'
  }

  predicate SymbolChars(s: string) {
    forall i :: 0 <= i < |s| ==> SymbolChar(s[i])
  }

  /** Where the pattern can start: a `(` or `@` followed by a symbol character. */
  predicate MatchAt(s: string, j: int) {
    0 <= j && j + 1 < |s| && (s[j] == '(' || s[j] == '@') && SymbolChar(s[j + 1])
  }

  /** The length of the run of symbol characters starting at `i`. */
  function RunLength(s: string, i: nat): (n: nat)
    requires i <= |s|
    ensures i + n <= |s| && SymbolChars(s[i..i + n])
    ensures i + n == |s| || !SymbolChar(s[i + n])
    decreases |s| - i
  {
    if i < |s| && SymbolChar(s[i]) then
      var n := RunLength(s, i + 1);
      assert s[i..i + 1 + n] == [s[i]] + s[i + 1..i + 1 + n];
      1 + n
    else 0
  }

  /** The leftmost position the pattern matches at, searching from `from`. */
  function MatchFrom(s: string, from: nat): (r: Option<nat>)
    requires forall j :: 0 <= j < from ==> !MatchAt(s, j)
    ensures r.Some? ==> MatchAt(s, r.value) && forall j :: 0 <= j < r.value ==> !MatchAt(s, j)
    ensures r.None? ==> forall j :: 0 <= j < |s| ==> !MatchAt(s, j)
    decreases |s| - from
  {
    if from + 1 >= |s| then None
    else if MatchAt(s, from) then Some(from)
    else MatchFrom(s, from + 1)
  }

  /** `symbol`: the group of the leftmost match, or `NoSymbol` where
      `re.search` returns `None` and `.group` fails. */
  function Symbol(command: string): (r: Result<string, ParserError>)
    ensures r.Err? <==> forall j :: 0 <= j < |command| ==> !MatchAt(command, j)
    ensures r.Ok? ==> |r.value| > 0 && SymbolChars(r.value)
    ensures r.Ok? ==> exists j :: (MatchAt(command, j) && j + 1 + |r.value| <= |command|
                                   && command[j + 1..j + 1 + |r.value|] == r.value)
  {
    match MatchFrom(command, 0)
    case None => Err(NoSymbol(command))
    case Some(j) => Ok(command[j + 1..j + 1 + RunLength(command, j + 1)])
  }

  /** The symbol of `@s` is `s`. */
  lemma SymbolOfAddress(s: string)
    requires |s| > 0 && SymbolChars(s)
    ensures Symbol("@" + s) == Ok(s)
  {
    var c := "@" + s;
    assert c[1..] == s;
    assert MatchAt(c, 0);
    assert MatchFrom(c, 0) == Some(0);
    RunWhole(c, 1);
    assert c[1..1 + RunLength(c, 1)] == s;
  }

  /** The symbol of `(s)` is `s`. */
  lemma SymbolOfLabel(s: string)
    requires |s| > 0 && SymbolChars(s)
    ensures Symbol("(" + s + ")") == Ok(s)
  {
    var c := "(" + s + ")";
    assert MatchAt(c, 0);
    assert MatchFrom(c, 0) == Some(0);
    assert c[1..|c| - 1] == s;
    RunToClose(c, 1);
  }

  lemma {:induction false} RunWhole(s: string, i: nat)
    requires i <= |s| && SymbolChars(s[i..])
    ensures RunLength(s, i) == |s| - i
    decreases |s| - i
  {
    if i < |s| {
      assert s[i] == s[i..][0];
      assert s[i + 1..] == s[i..][1..];
      RunWhole(s, i + 1);
    }
  }

  lemma {:induction false} RunToClose(s: string, i: nat)
    requires 1 <= i < |s| && s[|s| - 1] == ')' && SymbolChars(s[i..|s| - 1])
    ensures RunLength(s, i) == |s| - 1 - i
    decreases |s| - i
  {
    if i < |s| - 1 {
      assert s[i] == s[i..|s| - 1][0];
      assert s[i + 1..|s| - 1] == s[i..|s| - 1][1..];
      RunToClose(s, i + 1);
    }
  }

  /** The first index at or after `from` holding `c`. */
  function FirstIndex(s: string, c: char, from: nat): (r: Option<nat>)
    requires from <= |s|
    ensures r.None? ==> forall j :: from <= j < |s| ==> s[j] != c
    ensures r.Some? ==> from <= r.value < |s| && s[r.value] == c
    ensures r.Some? ==> forall j :: from <= j < r.value ==> s[j] != c
    decreases |s| - from
  {
    if from == |s| then None
    else if s[from] == c then Some(from)
    else FirstIndex(s, c, from + 1)
  }

  /** `str.split(sep, 1)`: the text before and after the first `sep`, or
      `None` when `sep` does not occur. */
  function SplitOnce(s: string, sep: char): (r: Option<(string, string)>)
    ensures r.None? <==> sep !in s
    ensures r.Some? ==> s == r.value.0 + [sep] + r.value.1 && sep !in r.value.0
  {
    match FirstIndex(s, sep, 0)
    case None => None
    case Some(i) =>
      CutAt(s, i);
      Some((s[..i], s[i + 1..]))
  }

  /** A string is the text before its `i`-th character, that character,
      and the text after it. */
  lemma CutAt(s: string, i: nat)
    requires i < |s|
    ensures s == s[..i] + [s[i]] + s[i + 1..]
  {
  }

  /** The three fields of a C-instruction: `dest` up to the first `=` (none
      without one), `jump` after the first `;` that follows, `comp` between. */
  datatype CFields = CFields(dest: Option<string>, comp: string, jump: Option<string>)

  /** The text a set of fields is written as. */
  function CText(f: CFields): string {
    DestText(f.dest) + JumpText(f.comp, f.jump)
  }

  function DestText(dest: Option<string>): string {
    if dest.Some? then dest.value + "=" else ""
  }

  function JumpText(comp: string, jump: Option<string>): string {
    comp + (if jump.Some? then ";" + jump.value else "")
  }

  /** The first split, at `=`. */
  function SplitDest(command: string): (r: (Option<string>, string))
    ensures DestText(r.0) + r.1 == command
    ensures r.0.Some? ==> '=' !in r.0.value
    ensures r.0.None? ==> '=' !in command && r.1 == command
  {
    match SplitOnce(command, '=')
    case None => (None, command)
    case Some((d, c)) => (Some(d), c)
  }

  /** The second split, at `;`. */
  function SplitJump(rest: string): (r: (string, Option<string>))
    ensures JumpText(r.0, r.1) == rest
    ensures ';' !in r.0
  {
    match SplitOnce(rest, ';')
    case None => (rest, None)
    case Some((c, j)) => (c, Some(j))
  }

  /** `_split_c_instruction`: the fields are the unique split of the command
      in which `dest` holds no `=` (and is absent only when the command has
      none) and `comp` holds no `;`. */
  function SplitC(command: string): (f: CFields)
    ensures CText(f) == command
    ensures f.dest.Some? ==> '=' !in f.dest.value
    ensures f.dest.None? ==> '=' !in command
    ensures ';' !in f.comp
  {
    var (dest, rest) := SplitDest(command);
    var (comp, jump) := SplitJump(rest);
    CFields(dest, comp, jump)
  }

  /** Writing fields out and splitting them again gives them back. */
  lemma SplitCText(f: CFields)
    requires f.dest.Some? ==> '=' !in f.dest.value
    requires f.dest.None? ==> '=' !in JumpText(f.comp, f.jump)
    requires ';' !in f.comp
    ensures SplitC(CText(f)) == f
  {
    var rest := JumpText(f.comp, f.jump);
    SplitDestText(f.dest, rest);
    assert SplitDest(CText(f)) == (f.dest, rest);
    SplitJumpText(f.comp, f.jump);
    assert SplitJump(rest) == (f.comp, f.jump);
  }

  lemma SplitDestText(dest: Option<string>, rest: string)
    requires dest.Some? ==> '=' !in dest.value
    requires dest.None? ==> '=' !in rest
    ensures SplitDest(DestText(dest) + rest) == (dest, rest)
  {
    if dest.Some? {
      SplitOnceUnique(DestText(dest) + rest, '=', dest.value, rest);
    } else {
      assert DestText(dest) + rest == rest;
    }
  }

  lemma SplitJumpText(comp: string, jump: Option<string>)
    requires ';' !in comp
    ensures SplitJump(JumpText(comp, jump)) == (comp, jump)
  {
    if jump.Some? {
      SplitOnceUnique(JumpText(comp, jump), ';', comp, jump.value);
    } else {
      assert JumpText(comp, jump) == comp;
    }
  }

  /** The first occurrence of a separator is where a split at a separator-free
      prefix falls. */
  lemma SplitOnceUnique(s: string, sep: char, a: string, b: string)
    requires s == a + [sep] + b && sep !in a
    ensures SplitOnce(s, sep) == Some((a, b))
  {
    assert s[|a|] == sep;
    assert forall j :: 0 <= j < |a| ==> s[j] == a[j];
    assert s[..|a|] == a && s[|a| + 1..] == b;
  }

  /** `_parse_mnemonic` for the three fields in the order the assembler asks
      for them — `comp`, then `dest`, then `jump` — raising on the first
      that is not a key of its table. */
  function Fields(command: string): (r: Result<CFields, ParserError>)
    ensures r.Ok? <==>
      var f := SplitC(command);
      f.comp in HackCode.CompTable && f.dest in HackCode.DestTable && f.jump in HackCode.JumpTable
    ensures r.Ok? ==> r.value == SplitC(command)
    ensures SplitC(command).comp !in HackCode.CompTable ==> r == Err(InvalidMnemonic(CompField))
  {
    var f := SplitC(command);
    if f.comp !in HackCode.CompTable then Err(InvalidMnemonic(CompField))
    else if f.dest !in HackCode.DestTable then Err(InvalidMnemonic(DestField))
    else if f.jump !in HackCode.JumpTable then Err(InvalidMnemonic(JumpField))
    else Ok(f)
  }
}
