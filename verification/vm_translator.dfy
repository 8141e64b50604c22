/** The stage 08 driver (08-vm-program-control/vm_translator.py): one code
    writer for the whole program, the bootstrap first, then every `.vm` file in
    turn — `set_filename` and a reader over its lines, each command dispatched
    on its type — and the terminating loop last.

    The translation is also presented as a fold of one step function over a
    stream of events (a file starts, a command is read); the run-level
    properties — the label counter, and the uniqueness of every label the
    writer mints — are proved about that fold. */
module VmTranslator {
  import opened Wrappers
  import opened Text
  import opened AsmLines
  import VmParser
  import LineReader
  import CommandSymbols
  import VmEmit
  import CodeWriter08

  type Writer = CodeWriter08.Writer

  datatype TranslateError =
    | ParseFailure(parserError: VmParser.ParserError)
    | WriteFailure(writerError: VmEmit.CodeWriterError)
    /** `' '.join` meets the `None` of a push/pop without an index. */
    | NoneInJoin
    | NoVmFiles(path: string)
    | NotFound(path: string)

  /** `os.path.join(path, name)` for a plain file name. */
  function JoinPath(path: string, name: string): string {
    if |path| == 0 || path[|path| - 1] == '/' then path + name else path + "/" + name
  }

  /** `_get_vm_files`: a directory contributes its entries (in listing order)
      whose lower-cased name ends with `.vm`, and must contribute one; a file
      is taken as is; anything else is an error. */
  function VmFiles(path: string, isDir: bool, isFile: bool, listing: seq<string>): (r: Result<seq<string>, TranslateError>)
    ensures isDir ==> (r.Ok? <==> exists k :: 0 <= k < |listing| && EndsWith(Lower(listing[k]), ".vm"))
    ensures isDir && r.Ok? ==> forall f :: f in r.value ==>
      exists k :: 0 <= k < |listing| && EndsWith(Lower(listing[k]), ".vm") && f == JoinPath(path, listing[k])
    ensures !isDir && isFile ==> r == Ok([path])
    ensures !isDir && !isFile ==> r == Err(NotFound(path))
  {
    if isDir then
      var fs := VmEntries(path, listing);
      if |fs| == 0 then Err(NoVmFiles(path)) else Ok(fs)
    else if isFile then Ok([path])
    else Err(NotFound(path))
  }

  function VmEntries(path: string, listing: seq<string>): (fs: seq<string>)
    ensures |fs| == 0 <==> forall k :: 0 <= k < |listing| ==> !EndsWith(Lower(listing[k]), ".vm")
    ensures forall f :: f in fs ==>
      exists k :: 0 <= k < |listing| && EndsWith(Lower(listing[k]), ".vm") && f == JoinPath(path, listing[k])
  {
    if |listing| == 0 then []
    else
      var rest := VmEntries(path, listing[1..]);
      assert forall k :: 1 <= k < |listing| ==> listing[k] == listing[1..][k - 1];
      if EndsWith(Lower(listing[0]), ".vm") then [JoinPath(path, listing[0])] + rest else rest
  }

  /** The text `f'{x}'` gives for an optional token. */
  function ArgText(a: Option<string>): string {
    match a
    case None => "None"
    case Some(s) => s
  }

  /** Whether the current command takes a fresh label from the counter:
      comparisons and calls. */
  predicate MintsLabel(q: VmParser.Parser) {
    var t := VmParser.CommandTypeOf(q);
    t == Ok(VmParser.CCall)
    || (t == Ok(VmParser.CArithmetic) && CommandSymbols.Classify(q.command.value) == Some(CommandSymbols.BinaryLogic))
  }

  /** The labels a minting command declares when the counter reaches `n`. */
  function MintedLabels(q: VmParser.Parser, n: nat): seq<string>
    requires MintsLabel(q)
  {
    if VmParser.CommandTypeOf(q) == Ok(VmParser.CCall) then
      [CodeWriter08.ReturnLabel(Upper(q.arg1.GetOr("")), n)]
    else
      [VmEmit.ComparisonLabel(n) + "_TRUE", VmEmit.ComparisonLabel(n) + "_FALSE"]
  }

  /** When dispatching the current command succeeds: a known command type,
      a first argument where one is read, and for push/pop an index and an
      accepted segment. */
  predicate Dispatchable(w: Writer, q: VmParser.Parser) {
    match VmParser.CommandTypeOf(q)
    case Err(_) => false
    case Ok(t) =>
      if t == VmParser.CArithmetic || t == VmParser.CReturn then true
      else if t == VmParser.CPush || t == VmParser.CPop then
        q.arg1.Some? && q.arg2.Some? && VmEmit.PushPopAccepted(w.vmBasename, q.command.value, q.arg1.value)
      else q.arg1.Some?
  }

  /** One round of the `while` loop of `_parse_vm_file`, after `advance`. */
  function Dispatch(w: Writer, q: VmParser.Parser): (r: Result<(Writer, seq<Line>), TranslateError>)
    ensures r.Ok? <==> Dispatchable(w, q)
    ensures r.Ok? ==> r.value.0.vmBasename == w.vmBasename
    ensures r.Ok? && MintsLabel(q) ==>
      r.value.0.labelCount == w.labelCount + 1 && Declared(r.value.1) == MintedLabels(q, w.labelCount + 1)
    ensures r.Ok? && !MintsLabel(q) ==> r.value.0.labelCount == w.labelCount
    ensures r.Ok? && VmParser.CommandTypeOf(q) != Ok(VmParser.CFunction) ==>
      r.value.0.currentFunction == w.currentFunction
  {
    match VmParser.CommandTypeOf(q)
    case Err(e) => Err(ParseFailure(e))
    case Ok(t) =>
      if t == VmParser.CArithmetic then
        match CodeWriter08.WriteCommand(w, q.command.value)
        case Err(e) => Err(WriteFailure(e))
        case Ok(res) =>
          CommandSymbols.AllCommandsDistinct();
          Ok(res)
      else if t == VmParser.CReturn then Ok((w, CodeWriter08.WriteReturn()))
      else
        match VmParser.Arg1(q)
        case Err(e) => Err(ParseFailure(e))
        case Ok(a) =>
          if t == VmParser.CPush || t == VmParser.CPop then
            match q.arg2
            case None => Err(NoneInJoin)
            case Some(i) =>
              match CodeWriter08.WritePushPop(w, q.command.value, a, i)
              case Err(e) => Err(WriteFailure(e))
              case Ok(out) => Ok((w, out))
          else if t == VmParser.CLabel then Ok((w, CodeWriter08.WriteLabel(w, a)))
          else if t == VmParser.CGoto then Ok((w, CodeWriter08.WriteGoto(w, a)))
          else if t == VmParser.CIf then Ok((w, CodeWriter08.WriteIf(w, a)))
          else if t == VmParser.CCall then Ok(CodeWriter08.WriteCall(w, a, ArgText(q.arg2)))
          else Ok(CodeWriter08.WriteFunction(w, a, ArgText(q.arg2)))
  }

  /** A dispatch routine: the code writer's reaction to the current command. */
  type Dispatcher = (Writer, VmParser.Parser) -> Result<(Writer, seq<Line>), TranslateError>

  /** The `while` loop of `_parse_vm_file`: advance, dispatch, repeat while
      commands remain. */
  function ReaderLoop(dispatch: Dispatcher, w: Writer, p: VmParser.Parser): Result<(Writer, seq<Line>), TranslateError>
    requires p.next.None? ==> p.rest == []
    decreases |VmParser.Pending(p)|
  {
    if !VmParser.HasMoreCommands(p) then Ok((w, []))
    else
      var q := VmParser.Advance(p);
      var r1 :- dispatch(w, q);
      var r2 :- ReaderLoop(dispatch, r1.0, q);
      Ok((r2.0, r1.1 + r2.1))
  }

  /** `_parse_vm_file(vm_file)` on a file whose `readline` results are
      `lines`: `set_filename`, then the reader loop. */
  function FileLoop(dispatch: Dispatcher, w: Writer, file: (string, seq<string>)): Result<(Writer, seq<Line>), TranslateError> {
    ReaderLoop(dispatch, CodeWriter08.SetFilename(w, file.0), VmParser.Open(file.1))
  }

  /** The `for vm_file in vm_files` loop. */
  function FilesLoop(dispatch: Dispatcher, w: Writer, files: seq<(string, seq<string>)>): Result<(Writer, seq<Line>), TranslateError>
    decreases |files|
  {
    if |files| == 0 then Ok((w, []))
    else
      var r1 :- FileLoop(dispatch, w, files[0]);
      var r2 :- FilesLoop(dispatch, r1.0, files[1..]);
      Ok((r2.0, r1.1 + r2.1))
  }

  /** `VMTranslator(path)` once the `.vm` files have been found and read
      (each as the list of its `readline` results): the bootstrap, every
      file in order, and the terminating loop. */
  function Translate(files: seq<(string, seq<string>)>): (r: Result<seq<Line>, TranslateError>)
    ensures r.Ok? ==> |r.value| > 0 && r.value[0] == Comment("Initialize SP")
  {
    var (w0, boot) := CodeWriter08.New();
    var body :- FilesLoop(Dispatch, w0, files);
    Ok(boot + body.1 + CodeWriter08.Close())
  }

  /** The translation as a stream of events. */
  datatype Event = StartFile(path: string) | Command(text: string)

  /** The reader positioned on a command with text `text`. */
  function Current(text: string): VmParser.Parser {
    var (c, a1, a2) := VmParser.ParseCommand(text);
    VmParser.Parser([], None, c, a1, a2)
  }

  function StepWith(dispatch: Dispatcher, w: Writer, e: Event): Result<(Writer, seq<Line>), TranslateError> {
    match e
    case StartFile(path) => Ok((CodeWriter08.SetFilename(w, path), []))
    case Command(text) => dispatch(w, Current(text))
  }

  /** Folding the step over events, concatenating the lines. */
  function RunWith(dispatch: Dispatcher, w: Writer, es: seq<Event>): Result<(Writer, seq<Line>), TranslateError>
    decreases |es|
  {
    if |es| == 0 then Ok((w, []))
    else
      var r1 :- StepWith(dispatch, w, es[0]);
      var r2 :- RunWith(dispatch, r1.0, es[1..]);
      Ok((r2.0, r1.1 + r2.1))
  }

  function CommandEvents(cs: seq<string>): (es: seq<Event>)
    ensures |es| == |cs|
    ensures forall k :: 0 <= k < |cs| ==> es[k] == Command(cs[k])
  {
    seq(|cs|, k requires 0 <= k < |cs| => Command(cs[k]))
  }

  function FileEvents(file: (string, seq<string>)): seq<Event> {
    [StartFile(file.0)] + CommandEvents(LineReader.Commands(file.1))
  }

  /** The events of a list of files: each file starts, then its commands. */
  function Events(files: seq<(string, seq<string>)>): seq<Event>
    decreases |files|
  {
    if |files| == 0 then [] else FileEvents(files[0]) + Events(files[1..])
  }

  function Tokens(q: VmParser.Parser): (Option<string>, Option<string>, Option<string>) {
    (q.command, q.arg1, q.arg2)
  }

  /** A dispatch that looks at the current command's tokens only. */
  ghost predicate ReadsTokens(dispatch: Dispatcher) {
    forall w: Writer, q: VmParser.Parser, q': VmParser.Parser {:trigger dispatch(w, q), dispatch(w, q')} ::
      Tokens(q) == Tokens(q') ==> dispatch(w, q) == dispatch(w, q')
  }

  /** The stage 08 dispatch looks at the tokens only. */
  lemma DispatchReadsTokens()
    ensures ReadsTokens(Dispatch)
  {
    forall w: Writer, q: VmParser.Parser, q': VmParser.Parser | Tokens(q) == Tokens(q')
      ensures Dispatch(w, q) == Dispatch(w, q')
    {
      assert VmParser.CommandTypeOf(q) == VmParser.CommandTypeOf(q');
      assert VmParser.Arg1(q) == VmParser.Arg1(q');
    }
  }

  /** A run over two stretches of events is the second run started where
      the first ended. */
  lemma {:induction false} RunAppend(dispatch: Dispatcher, w: Writer, a: seq<Event>, b: seq<Event>)
    ensures RunWith(dispatch, w, a).Err? ==> RunWith(dispatch, w, a + b) == RunWith(dispatch, w, a)
    ensures RunWith(dispatch, w, a).Ok? ==>
      var first := RunWith(dispatch, w, a).value;
      match RunWith(dispatch, first.0, b)
      case Err(e) => RunWith(dispatch, w, a + b) == Err(e)
      case Ok(second) => RunWith(dispatch, w, a + b) == Ok((second.0, first.1 + second.1))
    decreases |a|
  {
    if |a| == 0 {
      assert a + b == b;
      assert RunWith(dispatch, w, a) == Ok((w, []));
      if RunWith(dispatch, w, b).Ok? {
        assert [] + RunWith(dispatch, w, b).value.1 == RunWith(dispatch, w, b).value.1;
      }
    } else {
      assert (a + b)[0] == a[0];
      assert (a + b)[1..] == a[1..] + b;
      var s1 := StepWith(dispatch, w, a[0]);
      if s1.Ok? {
        var r1 := s1.value;
        RunAppend(dispatch, r1.0, a[1..], b);
        var rest := RunWith(dispatch, r1.0, a[1..]);
        if rest.Ok? {
          var mid := rest.value;
          var tail := RunWith(dispatch, mid.0, b);
          if tail.Ok? {
            var last := tail.value;
            assert r1.1 + (mid.1 + last.1) == (r1.1 + mid.1) + last.1;
          }
        }
      }
    }
  }

  /** The reader loop is the run over the file's commands. */
  lemma {:induction false} ReaderIsRun(dispatch: Dispatcher, w: Writer, p: VmParser.Parser)
    requires ReadsTokens(dispatch)
    requires p.next.None? ==> p.rest == []
    ensures ReaderLoop(dispatch, w, p) == RunWith(dispatch, w, CommandEvents(VmParser.Pending(p)))
    decreases |VmParser.Pending(p)|
  {
    var es := CommandEvents(VmParser.Pending(p));
    if VmParser.HasMoreCommands(p) {
      var q := VmParser.Advance(p);
      var q' := Current(VmParser.Pending(p)[0]);
      assert Tokens(q) == Tokens(q');
      assert dispatch(w, q) == dispatch(w, q');
      assert es[1..] == CommandEvents(VmParser.Pending(q));
      if dispatch(w, q).Ok? {
        ReaderIsRun(dispatch, dispatch(w, q).value.0, q);
      }
    }
  }

  /** Starting a file and then reading its commands is the run over the
      file's events. */
  lemma FileIsRun(dispatch: Dispatcher, w: Writer, path: string, p: VmParser.Parser)
    requires ReadsTokens(dispatch)
    requires p.next.None? ==> p.rest == []
    ensures ReaderLoop(dispatch, CodeWriter08.SetFilename(w, path), p)
         == RunWith(dispatch, w, [StartFile(path)] + CommandEvents(VmParser.Pending(p)))
  {
    var w1 := CodeWriter08.SetFilename(w, path);
    var cs := CommandEvents(VmParser.Pending(p));
    ReaderIsRun(dispatch, w1, p);
    RunAppend(dispatch, w, [StartFile(path)], cs);
    RunOne(dispatch, w, StartFile(path));
    if RunWith(dispatch, w1, cs).Ok? {
      assert [] + RunWith(dispatch, w1, cs).value.1 == RunWith(dispatch, w1, cs).value.1;
    }
  }

  /** Translating the files is the run over their events. */
  lemma {:induction false} FilesAreRun(dispatch: Dispatcher, w: Writer, files: seq<(string, seq<string>)>)
    requires ReadsTokens(dispatch)
    ensures FilesLoop(dispatch, w, files) == RunWith(dispatch, w, Events(files))
    decreases |files|
  {
    if |files| > 0 {
      var p := VmParser.Open(files[0].1);
      FileIsRun(dispatch, w, files[0].0, p);
      assert FileEvents(files[0]) == [StartFile(files[0].0)] + CommandEvents(VmParser.Pending(p));
      RunAppend(dispatch, w, FileEvents(files[0]), Events(files[1..]));
      if FileLoop(dispatch, w, files[0]).Ok? {
        FilesAreRun(dispatch, FileLoop(dispatch, w, files[0]).value.0, files[1..]);
      }
    }
  }

  /** Whether an event takes a fresh label. */
  predicate EventMints(e: Event) {
    e.Command? && MintsLabel(Current(e.text))
  }

  function MintCount(es: seq<Event>): nat
    decreases |es|
  {
    if |es| == 0 then 0 else (if EventMints(es[0]) then 1 else 0) + MintCount(es[1..])
  }

  /** A dispatch that advances the counter by one exactly on minting commands. */
  ghost predicate CountsMints(dispatch: Dispatcher) {
    forall w: Writer, q: VmParser.Parser {:trigger dispatch(w, q)} :: dispatch(w, q).Ok? ==>
      dispatch(w, q).value.0.labelCount == w.labelCount + (if MintsLabel(q) then 1 else 0)
  }

  lemma DispatchCountsMints()
    ensures CountsMints(Dispatch)
  {
  }

  /** Over a run, the counter advances by the number of minting commands. */
  lemma {:induction false} RunCounter(dispatch: Dispatcher, w: Writer, es: seq<Event>)
    requires CountsMints(dispatch)
    requires RunWith(dispatch, w, es).Ok?
    ensures RunWith(dispatch, w, es).value.0.labelCount == w.labelCount + MintCount(es)
    decreases |es|
  {
    if |es| > 0 {
      var r1 := StepWith(dispatch, w, es[0]).value;
      if es[0].Command? {
        assert r1 == dispatch(w, Current(es[0].text)).value;
      }
      RunCounter(dispatch, r1.0, es[1..]);
    }
  }

  /** A dispatch whose minting commands declare exactly the labels minted
      with the advanced counter. */
  ghost predicate DeclaresMinted(dispatch: Dispatcher) {
    forall w: Writer, q: VmParser.Parser {:trigger dispatch(w, q)} :: dispatch(w, q).Ok? && MintsLabel(q) ==>
      Declared(dispatch(w, q).value.1) == MintedLabels(q, w.labelCount + 1)
  }

  lemma DispatchDeclaresMinted()
    ensures DeclaresMinted(Dispatch)
  {
  }

  /** A one-event run is the step. */
  lemma RunOne(dispatch: Dispatcher, w: Writer, e: Event)
    ensures StepWith(dispatch, w, e).Err? ==> RunWith(dispatch, w, [e]) == StepWith(dispatch, w, e)
    ensures StepWith(dispatch, w, e).Ok? ==> RunWith(dispatch, w, [e]) == StepWith(dispatch, w, e)
  {
    assert [e][1..] == [];
    if StepWith(dispatch, w, e).Ok? {
      var r := StepWith(dispatch, w, e).value;
      assert r.1 + [] == r.1;
    }
  }

  /** Labels minted with different counter values differ. */
  lemma MintedLabelsDiffer(q1: VmParser.Parser, q2: VmParser.Parser, n1: nat, n2: nat)
    requires MintsLabel(q1) && MintsLabel(q2) && n1 != n2
    ensures forall x, y :: x in MintedLabels(q1, n1) && y in MintedLabels(q2, n2) ==> x != y
  {
    var call1 := VmParser.CommandTypeOf(q1) == Ok(VmParser.CCall);
    var call2 := VmParser.CommandTypeOf(q2) == Ok(VmParser.CCall);
    var f1, f2 := Upper(q1.arg1.GetOr("")), Upper(q2.arg1.GetOr(""));
    forall x, y | x in MintedLabels(q1, n1) && y in MintedLabels(q2, n2) ensures x != y {
      if call1 && call2 {
        if x == y { CodeWriter08.ReturnLabelInjective(f1, f2, n1, n2); }
      } else if call1 {
        var s2 := y[|VmEmit.ComparisonLabel(n2)|..];
        assert y == VmEmit.ComparisonLabel(n2) + s2;
        CodeWriter08.MintedKindsDistinct(n2, s2, f1, n1);
      } else if call2 {
        var s1 := x[|VmEmit.ComparisonLabel(n1)|..];
        assert x == VmEmit.ComparisonLabel(n1) + s1;
        CodeWriter08.MintedKindsDistinct(n1, s1, f2, n2);
      } else {
        var s1 := x[|VmEmit.ComparisonLabel(n1)|..];
        var s2 := y[|VmEmit.ComparisonLabel(n2)|..];
        assert x == VmEmit.ComparisonLabel(n1) + s1 && s1 in ["_TRUE", "_FALSE"];
        assert y == VmEmit.ComparisonLabel(n2) + s2 && s2 in ["_TRUE", "_FALSE"];
        if x == y { CodeWriter08.ComparisonLabelInjective(n1, n2, s1, s2); }
      }
    }
  }

  /** A successful run splits into two successful runs at any point. */
  lemma RunSplit(dispatch: Dispatcher, w: Writer, a: seq<Event>, b: seq<Event>)
    requires RunWith(dispatch, w, a + b).Ok?
    ensures RunWith(dispatch, w, a).Ok?
    ensures RunWith(dispatch, RunWith(dispatch, w, a).value.0, b).Ok?
    ensures RunWith(dispatch, w, a + b).value.0 == RunWith(dispatch, RunWith(dispatch, w, a).value.0, b).value.0
  {
    RunAppend(dispatch, w, a, b);
  }

  /** A run that succeeds succeeds on every prefix, and the step at each
      event succeeds from the state the prefix leaves. */
  lemma StepInRun(dispatch: Dispatcher, w: Writer, pre: seq<Event>, e: Event, post: seq<Event>)
    requires RunWith(dispatch, w, pre + [e] + post).Ok?
    ensures RunWith(dispatch, w, pre).Ok?
    ensures StepWith(dispatch, RunWith(dispatch, w, pre).value.0, e).Ok?
    ensures RunWith(dispatch, w, pre + [e]).Ok?
    ensures RunWith(dispatch, w, pre + [e]).value.0 == StepWith(dispatch, RunWith(dispatch, w, pre).value.0, e).value.0
  {
    RunSplit(dispatch, w, pre + [e], post);
    RunSplit(dispatch, w, pre, [e]);
    RunOne(dispatch, RunWith(dispatch, w, pre).value.0, e);
  }

  /** The counter never goes down along a successful run, and rises by one at
      every minting event. */
  lemma CounterAfter(dispatch: Dispatcher, w: Writer, pre: seq<Event>, mid: seq<Event>)
    requires CountsMints(dispatch)
    requires RunWith(dispatch, w, pre + mid).Ok?
    ensures RunWith(dispatch, w, pre).Ok?
    ensures RunWith(dispatch, w, pre).value.0.labelCount <= RunWith(dispatch, w, pre + mid).value.0.labelCount
  {
    RunSplit(dispatch, w, pre, mid);
    RunCounter(dispatch, RunWith(dispatch, w, pre).value.0, mid);
  }

  /** A minting event advances the counter by one and declares the labels
      minted with the advanced counter. */
  lemma MintingStep(dispatch: Dispatcher, w: Writer, e: Event) returns (labels: seq<string>)
    requires CountsMints(dispatch) && DeclaresMinted(dispatch)
    requires EventMints(e) && StepWith(dispatch, w, e).Ok?
    ensures StepWith(dispatch, w, e).value.0.labelCount == w.labelCount + 1
    ensures labels == Declared(StepWith(dispatch, w, e).value.1) == MintedLabels(Current(e.text), w.labelCount + 1)
  {
    assert StepWith(dispatch, w, e) == dispatch(w, Current(e.text));
    labels := Declared(StepWith(dispatch, w, e).value.1);
  }

  lemma SplitAfter(pre: seq<Event>, e1: Event, mid: seq<Event>, e2: Event, post: seq<Event>)
    ensures pre + [e1] + mid + [e2] + post == pre + [e1] + (mid + [e2] + post)
  {
  }

  /** Every label minted in one run is declared by one command only: two
      minting commands of the same run use different counter values, and so
      declare disjoint sets of labels. */
  lemma MintedLabelsUniqueWith(dispatch: Dispatcher, w: Writer,
                               pre: seq<Event>, e1: Event, mid: seq<Event>, e2: Event, post: seq<Event>)
    requires CountsMints(dispatch) && DeclaresMinted(dispatch)
    requires RunWith(dispatch, w, pre + [e1] + mid + [e2] + post).Ok?
    requires EventMints(e1) && EventMints(e2)
    ensures RunWith(dispatch, w, pre).Ok? && RunWith(dispatch, w, pre + [e1] + mid).Ok?
    ensures StepWith(dispatch, RunWith(dispatch, w, pre).value.0, e1).Ok?
    ensures StepWith(dispatch, RunWith(dispatch, w, pre + [e1] + mid).value.0, e2).Ok?
    ensures
      var w1 := RunWith(dispatch, w, pre).value.0;
      var w2 := RunWith(dispatch, w, pre + [e1] + mid).value.0;
      var labels1 := Declared(StepWith(dispatch, w1, e1).value.1);
      var labels2 := Declared(StepWith(dispatch, w2, e2).value.1);
      w1.labelCount < w2.labelCount
      && labels1 == MintedLabels(Current(e1.text), w1.labelCount + 1)
      && labels2 == MintedLabels(Current(e2.text), w2.labelCount + 1)
      && forall x, y :: x in labels1 && y in labels2 ==> x != y
  {
    var w1, w2 := MintPair(dispatch, w, pre, e1, mid, e2, post);
    var labels1 := MintingStep(dispatch, w1, e1);
    var labels2 := MintingStep(dispatch, w2, e2);
    MintedLabelsDiffer(Current(e1.text), Current(e2.text), w1.labelCount + 1, w2.labelCount + 1);
  }

  /** The states two minting events of a run start from: both steps
      succeed, and the counter has risen in between. */
  lemma MintPair(dispatch: Dispatcher, w: Writer, pre: seq<Event>, e1: Event, mid: seq<Event>, e2: Event, post: seq<Event>)
    returns (w1: Writer, w2: Writer)
    requires CountsMints(dispatch)
    requires RunWith(dispatch, w, pre + [e1] + mid + [e2] + post).Ok?
    requires EventMints(e1)
    ensures RunWith(dispatch, w, pre).Ok? && w1 == RunWith(dispatch, w, pre).value.0
    ensures RunWith(dispatch, w, pre + [e1] + mid).Ok? && w2 == RunWith(dispatch, w, pre + [e1] + mid).value.0
    ensures StepWith(dispatch, w1, e1).Ok? && StepWith(dispatch, w2, e2).Ok?
    ensures w1.labelCount < w2.labelCount
  {
    var pre2 := pre + [e1] + mid;
    SplitAfter(pre, e1, mid, e2, post);
    StepInRun(dispatch, w, pre, e1, mid + [e2] + post);
    StepInRun(dispatch, w, pre2, e2, post);
    w1 := RunWith(dispatch, w, pre).value.0;
    w2 := RunWith(dispatch, w, pre2).value.0;
    assert StepWith(dispatch, w1, e1) == dispatch(w1, Current(e1.text));
    CounterAfter(dispatch, w, pre + [e1], mid);
  }

  /** The same, for the stage 08 dispatch. */
  lemma MintedLabelsUnique(w: Writer, pre: seq<Event>, e1: Event, mid: seq<Event>, e2: Event, post: seq<Event>)
    requires RunWith(Dispatch, w, pre + [e1] + mid + [e2] + post).Ok?
    requires EventMints(e1) && EventMints(e2)
    ensures RunWith(Dispatch, w, pre).Ok? && RunWith(Dispatch, w, pre + [e1] + mid).Ok?
    ensures StepWith(Dispatch, RunWith(Dispatch, w, pre).value.0, e1).Ok?
    ensures StepWith(Dispatch, RunWith(Dispatch, w, pre + [e1] + mid).value.0, e2).Ok?
    ensures
      var labels1 := Declared(StepWith(Dispatch, RunWith(Dispatch, w, pre).value.0, e1).value.1);
      var labels2 := Declared(StepWith(Dispatch, RunWith(Dispatch, w, pre + [e1] + mid).value.0, e2).value.1);
      forall x, y :: x in labels1 && y in labels2 ==> x != y
  {
    DispatchCountsMints();
    DispatchDeclaresMinted();
    MintedLabelsUniqueWith(Dispatch, w, pre, e1, mid, e2, post);
  }

  /** `vm_translator` as a whole: the bootstrap, then every file's events
      folded through the dispatch from the state the bootstrap leaves, then
      the closing loop. */
  lemma TranslateIsRun(files: seq<(string, seq<string>)>)
    ensures var (w0, boot) := CodeWriter08.New();
      match RunWith(Dispatch, w0, Events(files))
      case Err(e) => Translate(files) == Err(e)
      case Ok(body) => Translate(files) == Ok(boot + body.1 + CodeWriter08.Close())
  {
    DispatchReadsTokens();
    FilesAreRun(Dispatch, CodeWriter08.New().0, files);
  }

  /** A label minted during a run never equals a return label minted
      before the run started, with a counter value the run's initial state
      had already reached. */
  lemma EarlierReturnLabelDistinct(dispatch: Dispatcher, w: Writer, pre: seq<Event>, e: Event, post: seq<Event>,
                                   g: string, m: nat)
    requires CountsMints(dispatch) && DeclaresMinted(dispatch)
    requires RunWith(dispatch, w, pre + [e] + post).Ok?
    requires EventMints(e) && m <= w.labelCount
    ensures RunWith(dispatch, w, pre).Ok?
    ensures StepWith(dispatch, RunWith(dispatch, w, pre).value.0, e).Ok?
    ensures forall x :: x in Declared(StepWith(dispatch, RunWith(dispatch, w, pre).value.0, e).value.1) ==>
      x != CodeWriter08.ReturnLabel(g, m)
  {
    StepInRun(dispatch, w, pre, e, post);
    var w1 := RunWith(dispatch, w, pre).value.0;
    RunCounter(dispatch, w, pre);
    var labels := MintingStep(dispatch, w1, e);
    var n := w1.labelCount + 1;
    var q := Current(e.text);
    forall x | x in MintedLabels(q, n) ensures x != CodeWriter08.ReturnLabel(g, m) {
      if VmParser.CommandTypeOf(q) == Ok(VmParser.CCall) {
        if x == CodeWriter08.ReturnLabel(g, m) {
          CodeWriter08.ReturnLabelInjective(Upper(q.arg1.GetOr("")), g, n, m);
        }
      } else {
        var suffix := x[|VmEmit.ComparisonLabel(n)|..];
        assert x == VmEmit.ComparisonLabel(n) + suffix;
        CodeWriter08.MintedKindsDistinct(n, suffix, g, m);
      }
    }
  }

  /** No label minted while translating the files clashes with the return
      label of the bootstrap's `call Sys.init`: the bootstrap takes counter
      value 1, and every later mint a larger one. */
  lemma BootstrapLabelDistinct(pre: seq<Event>, e: Event, post: seq<Event>)
    requires RunWith(Dispatch, CodeWriter08.New().0, pre + [e] + post).Ok?
    requires EventMints(e)
    ensures RunWith(Dispatch, CodeWriter08.New().0, pre).Ok?
    ensures StepWith(Dispatch, RunWith(Dispatch, CodeWriter08.New().0, pre).value.0, e).Ok?
    ensures CodeWriter08.ReturnLabel("SYS.INIT", 1) in Declared(CodeWriter08.New().1)
    ensures forall x :: x in Declared(StepWith(Dispatch, RunWith(Dispatch, CodeWriter08.New().0, pre).value.0, e).value.1) ==>
      x != CodeWriter08.ReturnLabel("SYS.INIT", 1)
  {
    DispatchCountsMints();
    DispatchDeclaresMinted();
    EarlierReturnLabelDistinct(Dispatch, CodeWriter08.New().0, pre, e, post, "SYS.INIT", 1);
  }
}
