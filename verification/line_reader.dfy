/** The line-reading loop shared by the Hack assembler's parser
    (06-assembler/parser.py) and the VM parser (08-vm-program-control/parser.py).

    A file is modelled as the sequence of strings `readline()` returns before
    end of file, each with its line terminator still attached. A line is
    cleaned by cutting it at the first `//` and stripping whitespace; because
    the cut is `line[:line.find('//')]`, a line without `//` loses its last
    character (normally the newline; on a final line without one, a real
    character). Lines that clean to "" are skipped. */
module LineReader {
  import opened Wrappers
  import opened Text

  /** `line[:line.find('//')].strip()`. */
  function Clean(line: string): (r: string)
    ensures Find(line, "//") >= 0 ==> r == Strip(line[..Find(line, "//")])
    ensures Find(line, "//") == -1 && |line| > 0 ==> r == Strip(line[..|line| - 1])
    ensures Find(line, "//") == -1 && |line| == 0 ==> r == ""
  {
    Strip(SliceTo(line, Find(line, "//")))
  }

  /** The lines whose cleaned text is not "", cleaned, in order; stated for
      any cleaning function `clean` so that the reasoning about the loop is
      kept apart from the text processing of `Clean`. */
  function Kept(clean: string -> string, lines: seq<string>): (cs: seq<string>)
    ensures forall k :: 0 <= k < |cs| ==> cs[k] != ""
    ensures |cs| <= |lines|
  {
    if |lines| == 0 then []
    else if clean(lines[0]) == "" then Kept(clean, lines[1..])
    else [clean(lines[0])] + Kept(clean, lines[1..])
  }

  /** The commands of a file, in order: every line that does not clean to "". */
  function Commands(lines: seq<string>): (cs: seq<string>)
    ensures forall k :: 0 <= k < |cs| ==> cs[k] != ""
    ensures |cs| <= |lines|
  {
    Kept(Clean, lines)
  }

  /** The loop of `_read_next_command` for a cleaning function `clean`. */
  function NextKept(clean: string -> string, lines: seq<string>): (r: (Option<string>, seq<string>))
    ensures |r.1| <= |lines|
    ensures r.0.None? <==> Kept(clean, lines) == []
    ensures r.0.Some? ==> Kept(clean, lines) == [r.0.value] + Kept(clean, r.1)
    ensures r.0.None? ==> r.1 == []
  {
    if |lines| == 0 then (None, [])
    else if clean(lines[0]) == "" then NextKept(clean, lines[1..])
    else (Some(clean(lines[0])), lines[1..])
  }

  /** `_read_next_command`: skip lines that clean to "", and return the first
      command found (None at end of file) with the lines still unread. */
  function ReadNext(lines: seq<string>): (r: (Option<string>, seq<string>))
    ensures |r.1| <= |lines|
    ensures r.0.None? <==> Commands(lines) == []
    ensures r.0.Some? ==> Commands(lines) == [r.0.value] + Commands(r.1)
    ensures r.0.None? ==> r.1 == []
  {
    NextKept(Clean, lines)
  }

  /** A newline-terminated line without `//` cleans to its stripped text: the
      dropped last character is the newline. */
  lemma CleanTerminatedLine(text: string)
    requires Find(text, "//") == -1
    ensures Clean(text + "\n") == Strip(text)
  {
    var line := text + "\n";
    forall j | 0 <= j && j + 2 <= |line| ensures !OccursAt(line, "//", j) {
      if j + 2 <= |text| {
        assert line[j..j + 2] == text[j..j + 2];
        assert !OccursAt(text, "//", j);
      } else {
        assert line[j + 1] == '\n';
      }
    }
    assert line[..|line| - 1] == text;
  }

  /** A line cut at its first `//`: what precedes the comment, stripped. */
  lemma CleanCommentedLine(code: string, comment: string)
    requires Find(code + "/", "//") == -1
    ensures Clean(code + "//" + comment) == Strip(code)
  {
    var line := code + "//" + comment;
    assert OccursAt(line, "//", |code|) by {
      assert line[|code|..|code| + 2] == "//";
    }
    forall j | 0 <= j < |code| ensures !OccursAt(line, "//", j) {
      assert line[j..j + 2] == (code + "/")[j..j + 2];
      assert !OccursAt(code + "/", "//", j);
    }
    assert Find(line, "//") == |code|;
    assert line[..|code|] == code;
  }

  /** On a final line with no newline and no `//`, the cut removes a real
      character: whatever the line, when it ends in a non-space its cleaned
      text is strictly shorter than the stripped line (`push constant 7`
      reads as `push constant`). */
  lemma CleanUnterminatedLine(line: string)
    requires Find(line, "//") == -1 && |line| > 0 && !IsSpace(line[|line| - 1])
    ensures |Clean(line)| < |Strip(line)|
  {
    var n := |line|;
    var t := line[..n - 1];
    var k := LeadEnd(line, 0);
    var k' := LeadEnd(t, 0);
    assert k + |Strip(line)| == n;
  }

  /** Every line that does not clean to "" is delivered as a command. */
  lemma CommandsInclude(lines: seq<string>, k: nat)
    requires k < |lines| && Clean(lines[k]) != ""
    ensures Clean(lines[k]) in Commands(lines)
  {
    KeptInclude(Clean, lines, k);
  }

  lemma {:induction false} KeptInclude(clean: string -> string, lines: seq<string>, k: nat)
    requires k < |lines| && clean(lines[k]) != ""
    ensures clean(lines[k]) in Kept(clean, lines)
    decreases k
  {
    if k > 0 {
      assert lines[1..][k - 1] == lines[k];
      KeptInclude(clean, lines[1..], k - 1);
    }
  }

  /** An indented line of text without a comment and without surrounding
      whitespace reads back as the text. */
  lemma CleanIndented(pad: string, text: string)
    requires forall i :: 0 <= i < |pad| ==> IsSpace(pad[i])
    requires |text| > 0 && !IsSpace(text[0]) && !IsSpace(text[|text| - 1]) && '/' !in text
    ensures Clean(pad + text + "\n") == text
  {
    var s := pad + text;
    assert '/' !in pad;
    assert '/' !in s;
    FindMissing(s, "//");
    CleanTerminatedLine(s);
    StripPadded(pad, text);
  }
}
