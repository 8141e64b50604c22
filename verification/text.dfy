/** The handful of Python `str` operations the toolchain relies on, written out
    over `seq<char>`: whitespace in the sense of `str.isspace` (and of the regex
    class `\s`), `strip`, `split()`, ASCII `lower`/`upper`, `find`, slicing with
    a possibly negative stop, decimal rendering of integers, and the
    case-insensitive `\.ext$` rewrite used to name output files. */
module Text {

  /** `str.isspace`: the code points Python counts as whitespace. */
  predicate IsSpace(c: char) {
    var n := c as int;
    || n == 0x20 || 0x09 <= n <= 0x0d || 0x1c <= n <= 0x1f || n == 0x85 || n == 0xa0
    || n == 0x1680 || 0x2000 <= n <= 0x200a || n == 0x2028 || n == 0x2029
    || n == 0x202f || n == 0x205f || n == 0x3000
  }

  predicate NoSpace(s: string) {
    forall i :: 0 <= i < |s| ==> !IsSpace(s[i])
  }

  predicate IsDigit(c: char) { '0' <= c <= '9' }

  /** `str.isdigit` restricted to ASCII: non-empty and every character a digit. */
  predicate IsDigits(s: string) {
    |s| > 0 && forall i :: 0 <= i < |s| ==> IsDigit(s[i])
  }

  predicate IsUpperAscii(c: char) { 'A' <= c <= 'Z' }
  predicate IsLowerAscii(c: char) { 'a' <= c <= 'z' }

  function LowerChar(c: char): char {
    if IsUpperAscii(c) then (c as int - 'A' as int + 'a' as int) as char else c
  }

  function UpperChar(c: char): char {
    if IsLowerAscii(c) then (c as int - 'a' as int + 'A' as int) as char else c
  }

  /** `str.lower` on ASCII letters. */
  function Lower(s: string): (r: string)
    ensures |r| == |s|
    ensures forall i :: 0 <= i < |s| ==> r[i] == LowerChar(s[i])
  {
    seq(|s|, i requires 0 <= i < |s| => LowerChar(s[i]))
  }

  /** `str.upper` on ASCII letters. */
  function Upper(s: string): (r: string)
    ensures |r| == |s|
    ensures forall i :: 0 <= i < |s| ==> r[i] == UpperChar(s[i])
  {
    seq(|s|, i requires 0 <= i < |s| => UpperChar(s[i]))
  }

  lemma LowerIdempotent(s: string)
    ensures Lower(Lower(s)) == Lower(s)
  {
    assert forall i :: 0 <= i < |s| ==> LowerChar(LowerChar(s[i])) == LowerChar(s[i]);
  }

  /** Case mapping never turns a non-space into a space, so `split` sees the
      same word boundaries before and after `lower`. */
  lemma LowerKeepsNoSpace(s: string)
    requires NoSpace(s)
    ensures NoSpace(Lower(s))
  {
  }

  predicate StartsWith(s: string, p: string) {
    |p| <= |s| && s[..|p|] == p
  }

  predicate EndsWith(s: string, p: string) {
    |p| <= |s| && s[|s| - |p|..] == p
  }

  /** Python slicing `s[:k]`: a negative stop counts from the end. */
  function SliceTo(s: string, k: int): (r: string)
    ensures r == if k >= 0 then s[..if k <= |s| then k else |s|]
                 else s[..if |s| + k >= 0 then |s| + k else 0]
  {
    if k >= 0 then s[..if k <= |s| then k else |s|]
    else s[..if |s| + k >= 0 then |s| + k else 0]
  }

  /** `pat` occurs in `s` starting at index `j`. */
  predicate OccursAt(s: string, pat: string, j: int) {
    0 <= j && j + |pat| <= |s| && s[j..j + |pat|] == pat
  }

  /** `str.find`: the lowest index at which `pat` occurs, or -1. */
  function Find(s: string, pat: string): (r: int)
    ensures -1 <= r <= |s|
    ensures r >= 0 ==> OccursAt(s, pat, r)
    ensures r >= 0 ==> forall j :: 0 <= j < r ==> !OccursAt(s, pat, j)
    ensures r == -1 <==> forall j :: !OccursAt(s, pat, j)
  {
    FindFrom(s, pat, 0)
  }

  /** A text without the pattern's first character does not contain it. */
  lemma FindMissing(s: string, pat: string)
    requires |pat| > 0 && pat[0] !in s
    ensures Find(s, pat) == -1
  {
  }

  function FindFrom(s: string, pat: string, from: nat): (r: int)
    requires from <= |s|
    requires forall j :: 0 <= j < from ==> !OccursAt(s, pat, j)
    ensures -1 <= r <= |s|
    ensures r >= 0 ==> from <= r && OccursAt(s, pat, r)
    ensures r >= 0 ==> forall j :: 0 <= j < r ==> !OccursAt(s, pat, j)
    ensures r == -1 <==> forall j :: !OccursAt(s, pat, j)
    decreases |s| - from
  {
    if from + |pat| > |s| then -1
    else if s[from..from + |pat|] == pat then (assert OccursAt(s, pat, from); from)
    else FindFrom(s, pat, from + 1)
  }

  /** The end of the run of whitespace that starts at `i`: `lstrip` drops
      `s[..LeadEnd(s, 0)]`. */
  function LeadEnd(s: string, i: nat): (k: nat)
    requires i <= |s|
    ensures i <= k <= |s|
    ensures forall j :: i <= j < k ==> IsSpace(s[j])
    ensures k < |s| ==> !IsSpace(s[k])
    decreases |s| - i
  {
    if i < |s| && IsSpace(s[i]) then LeadEnd(s, i + 1) else i
  }

  /** The start of the run of whitespace that ends at `j`, not going below
      `lo`: `rstrip` drops `s[TrailStart(s, 0, |s|)..]`. */
  function TrailStart(s: string, lo: nat, j: nat): (k: nat)
    requires lo <= j <= |s|
    ensures lo <= k <= j
    ensures forall m :: k <= m < j ==> IsSpace(s[m])
    ensures k > lo ==> !IsSpace(s[k - 1])
    decreases j
  {
    if j > lo && IsSpace(s[j - 1]) then TrailStart(s, lo, j - 1) else j
  }

  /** `r` is the infix of `s` starting at `k` with only whitespace around it
      and no whitespace at either of its ends. */
  predicate StrippedAt(s: string, k: int, r: string) {
    && 0 <= k && k + |r| <= |s| && r == s[k..k + |r|]
    && (forall i :: 0 <= i < k ==> IsSpace(s[i]))
    && (forall i :: k + |r| <= i < |s| ==> IsSpace(s[i]))
    && (|r| > 0 ==> !IsSpace(r[0]) && !IsSpace(r[|r| - 1]))
  }

  /** `s.strip()`: the infix left once leading and trailing whitespace is
      gone; it starts after the `LeadEnd(s, 0)` leading spaces, and it is
      empty exactly when `s` is all whitespace. */
  function Strip(s: string): (r: string)
    ensures StrippedAt(s, LeadEnd(s, 0), r)
    ensures |r| == 0 <==> forall i :: 0 <= i < |s| ==> IsSpace(s[i])
  {
    var a := LeadEnd(s, 0);
    var b := TrailStart(s, a, |s|);
    assert b > a ==> s[a..b][0] == s[a] && s[a..b][b - a - 1] == s[b - 1];
    assert b == a ==> forall i :: 0 <= i < |s| ==> IsSpace(s[i]);
    s[a..b]
  }

  /** Leading whitespace is exactly what `lstrip` removes. */
  lemma {:induction false} LeadEndPadded(pad: string, t: string, i: nat)
    requires i <= |pad|
    requires forall j :: 0 <= j < |pad| ==> IsSpace(pad[j])
    requires |t| > 0 && !IsSpace(t[0])
    ensures LeadEnd(pad + t, i) == |pad|
    decreases |pad| - i
  {
    if i < |pad| {
      assert (pad + t)[i] == pad[i];
      LeadEndPadded(pad, t, i + 1);
    } else {
      assert (pad + t)[i] == t[0];
    }
  }

  /** An instruction indented by spaces strips back to itself. */
  lemma StripPadded(pad: string, t: string)
    requires forall i :: 0 <= i < |pad| ==> IsSpace(pad[i])
    requires |t| > 0 && !IsSpace(t[0]) && !IsSpace(t[|t| - 1])
    ensures Strip(pad + t) == t
  {
    LeadEndPadded(pad, t, 0);
    assert (pad + t)[|pad| + |t| - 1] == t[|t| - 1];
    assert (pad + t)[|pad|..|pad| + |t|] == t;
  }

  /** The longest prefix of `s` free of whitespace. */
  function Word(s: string): (w: string)
    ensures |w| <= |s| && w == s[..|w|] && NoSpace(w)
    ensures |w| < |s| ==> IsSpace(s[|w|])
  {
    if |s| == 0 || IsSpace(s[0]) then [] else [s[0]] + Word(s[1..])
  }

  /** `s.split()`: the maximal runs of non-whitespace, in order. */
  function Split(s: string): (ws: seq<string>)
    ensures forall k :: 0 <= k < |ws| ==> |ws[k]| > 0 && NoSpace(ws[k])
    decreases |s|
  {
    if |s| == 0 then []
    else if IsSpace(s[0]) then Split(s[1..])
    else
      var w := Word(s);
      [w] + Split(s[|w|..])
  }

  lemma WordOfWordThenSpace(w: string, rest: string)
    requires NoSpace(w)
    requires |rest| > 0 && IsSpace(rest[0])
    ensures Word(w + rest) == w
  {
    if |w| > 0 {
      assert (w + rest)[1..] == w[1..] + rest;
      WordOfWordThenSpace(w[1..], rest);
    }
  }

  lemma WordOfWord(w: string)
    requires NoSpace(w)
    ensures Word(w) == w
  {
    if |w| > 0 {
      WordOfWord(w[1..]);
    }
  }

  /** Splitting words joined by single spaces gives the words back: the
      inverse of `' '.join` for non-empty, whitespace-free words. */
  lemma {:induction false} SplitJoin(ws: seq<string>)
    requires forall k :: 0 <= k < |ws| ==> |ws[k]| > 0 && NoSpace(ws[k])
    ensures Split(JoinSpace(ws)) == ws
  {
    if |ws| == 1 {
      WordOfWord(ws[0]);
      assert ws[0][|ws[0]|..] == [];
    } else if |ws| > 1 {
      var rest := " " + JoinSpace(ws[1..]);
      assert JoinSpace(ws) == ws[0] + rest;
      WordOfWordThenSpace(ws[0], rest);
      assert (ws[0] + rest)[|ws[0]|..] == rest;
      assert rest[1..] == JoinSpace(ws[1..]);
      SplitJoin(ws[1..]);
    }
  }

  /** `' '.join(ws)`. */
  function JoinSpace(ws: seq<string>): string {
    if |ws| == 0 then ""
    else if |ws| == 1 then ws[0]
    else ws[0] + " " + JoinSpace(ws[1..])
  }

  function DigitChar(d: nat): char
    requires d < 10
  {
    ('0' as int + d) as char
  }

  /** `str(n)` for a non-negative integer: most significant digit first. */
  function NatToString(n: nat): (s: string)
    ensures IsDigits(s)
    ensures n >= 10 ==> s[0] != '0'
    decreases n
  {
    if n < 10 then [DigitChar(n)] else NatToString(n / 10) + [DigitChar(n % 10)]
  }

  /** `str(i)` for any integer. */
  function IntToString(i: int): string {
    if i >= 0 then NatToString(i) else "-" + NatToString(-i)
  }

  function DigitOf(c: char): nat
    requires IsDigit(c)
  {
    c as int - '0' as int
  }

  /** `int(s)` for a string of ASCII digits. */
  function DigitsValue(s: string): nat
    requires forall i :: 0 <= i < |s| ==> IsDigit(s[i])
  {
    if |s| == 0 then 0 else 10 * DigitsValue(s[..|s| - 1]) + DigitOf(s[|s| - 1])
  }

  /** Reading a rendered number gives the number back. */
  lemma {:induction false} NatToStringValue(n: nat)
    ensures DigitsValue(NatToString(n)) == n
    decreases n
  {
    if n >= 10 {
      var s := NatToString(n);
      assert s[..|s| - 1] == NatToString(n / 10);
      NatToStringValue(n / 10);
    }
  }

  /** Distinct numbers render as distinct strings. */
  lemma NatToStringInjective(m: nat, n: nat)
    requires NatToString(m) == NatToString(n)
    ensures m == n
  {
    NatToStringValue(m);
    NatToStringValue(n);
  }

  /** `re.compile(r'\.<ext>$', re.IGNORECASE).sub(repl, s)` for an ASCII `ext`:
      `$` also matches just before a final newline, and at most one of the two
      positions can hold a match. */
  function SubExtension(s: string, ext: string, repl: string): string {
    var dotExt := "." + Lower(ext);
    if |s| >= |dotExt| && Lower(s[|s| - |dotExt|..]) == dotExt then
      s[..|s| - |dotExt|] + repl
    else if |s| >= |dotExt| + 1 && s[|s| - 1] == '\n'
            && Lower(s[|s| - 1 - |dotExt|..|s| - 1]) == dotExt then
      s[..|s| - 1 - |dotExt|] + repl + "\n"
    else s
  }

  /** The output-name rule shared by the assembler and both VM translators:
      replace a trailing case-insensitive `.<ext>` by `newExt`, and append
      `newExt` when the result does not already end with it. */
  function RewriteExtension(name: string, ext: string, newExt: string): (r: string)
    ensures EndsWith(r, newExt)
    ensures EndsWith(SubExtension(name, ext, newExt), newExt) ==> r == SubExtension(name, ext, newExt)
    ensures !EndsWith(SubExtension(name, ext, newExt), newExt) ==> r == SubExtension(name, ext, newExt) + newExt
  {
    var f := SubExtension(name, ext, newExt);
    if EndsWith(f, newExt) then f
    else
      assert (f + newExt)[|f + newExt| - |newExt|..] == newExt;
      f + newExt
  }

  /** A name ending in `.<ext>`, in any letter case, gets `newExt` in its
      place. */
  lemma RewriteExtensionReplaces(stem: string, e: string, ext: string, newExt: string)
    requires Lower(e) == Lower(ext)
    ensures RewriteExtension(stem + "." + e, ext, newExt) == stem + newExt
  {
    var s := stem + "." + e;
    var dotExt := "." + Lower(ext);
    assert s[|s| - |dotExt|..] == "." + e;
    assert Lower("." + e) == dotExt;
    assert s[..|s| - |dotExt|] == stem;
    assert EndsWith(stem + newExt, newExt) by {
      assert (stem + newExt)[|stem + newExt| - |newExt|..] == newExt;
    }
  }

  /** A name without the extension keeps its text and has `newExt`
      appended, unless it already ends with `newExt`. */
  lemma RewriteExtensionAppends(name: string, ext: string, newExt: string)
    requires SubExtension(name, ext, newExt) == name
    requires !EndsWith(name, newExt)
    ensures RewriteExtension(name, ext, newExt) == name + newExt
  {
  }

  /** `os.path.basename`: the text after the last `/`. */
  function Basename(path: string): (r: string)
    ensures |r| <= |path| && r == path[|path| - |r|..]
    ensures forall i :: 0 <= i < |r| ==> r[i] != '/'
    ensures |r| < |path| ==> path[|path| - |r| - 1] == '/'
  {
    if |path| == 0 || path[|path| - 1] == '/' then []
    else Basename(path[..|path| - 1]) + [path[|path| - 1]]
  }
}
