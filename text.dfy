/**
 * The parts of Python's `str` that the chat front-end relies on: whitespace as
 * `str.isspace()` sees it, `strip()`, `startswith()`, `in`, `split()` with no
 * separator, `splitlines()` and `"\n".join(...)`.  Characters are Unicode scalar
 * values, as Python's code points are.
 */
module Text {

  /** The characters for which Python's `str.isspace()` is true; `strip()` and `split()` use this set. */
  predicate IsSpace(c: char) {
    c == ' ' || ('\t' <= c <= '\r') || ('\U{1C}' <= c <= '\U{1F}') || c == '\U{85}' || c == '\U{A0}'
    || c == '\U{1680}' || ('\U{2000}' <= c <= '\U{200A}') || c == '\U{2028}' || c == '\U{2029}'
    || c == '\U{202F}' || c == '\U{205F}' || c == '\U{3000}'
  }

  /** The characters at which Python's `str.splitlines()` ends a line. */
  predicate IsLineBreak(c: char) {
    c == '\n' || c == '\r' || c == '\U{B}' || c == '\U{C}' || ('\U{1C}' <= c <= '\U{1E}')
    || c == '\U{85}' || c == '\U{2028}' || c == '\U{2029}'
  }

  predicate AllSpace(s: string) {
    forall k :: 0 <= k < |s| ==> IsSpace(s[k])
  }

  predicate NoSpace(s: string) {
    forall k :: 0 <= k < |s| ==> !IsSpace(s[k])
  }

  predicate NoBreak(s: string) {
    forall k :: 0 <= k < |s| ==> !IsLineBreak(s[k])
  }

  /** Neither end of `s` is whitespace: what `strip()` produces. */
  predicate IsStripped(s: string) {
    s == [] || (!IsSpace(s[0]) && !IsSpace(s[|s| - 1]))
  }

  predicate StartsWith(s: string, prefix: string) {
    |prefix| <= |s| && s[..|prefix|] == prefix
  }

  predicate EndsWith(s: string, suffix: string) {
    |suffix| <= |s| && s[|s| - |suffix|..] == suffix
  }

  /** Python's `sub in s`. */
  predicate Contains(s: string, sub: string)
    decreases |s|
  {
    StartsWith(s, sub) || (s != [] && Contains(s[1..], sub))
  }

  // ---------------------------------------------------------------- strip

  /** The number of whitespace characters that open `s`. */
  function LeadingSpace(s: string): (n: nat)
    ensures n <= |s| && AllSpace(s[..n])
    ensures n < |s| ==> !IsSpace(s[n])
  {
    if s == [] || !IsSpace(s[0]) then 0
    else
      var m := LeadingSpace(s[1..]);
      assert s[..m + 1] == [s[0]] + s[1..][..m];
      m + 1
  }

  /** The number of whitespace characters that close `s`. */
  function TrailingSpace(s: string): (n: nat)
    ensures n <= |s| && AllSpace(s[|s| - n..])
    ensures n < |s| ==> !IsSpace(s[|s| - n - 1])
    ensures forall k :: 0 <= k < |s| && !IsSpace(s[k]) ==> k < |s| - n
  {
    if s == [] || !IsSpace(s[|s| - 1]) then 0
    else
      var t := s[..|s| - 1];
      var m := TrailingSpace(t);
      assert s[|s| - (m + 1)..] == t[|t| - m..] + [s[|s| - 1]];
      m + 1
  }

  /** `s` is `r` with only whitespace cut from its front (the first `i` characters) and its back. */
  ghost predicate StripsTo(s: string, r: string, i: nat) {
    i + |r| <= |s| && s[i..i + |r|] == r && AllSpace(s[..i]) && AllSpace(s[i + |r|..])
  }

  /** Python's `s.strip()`. */
  function Strip(s: string): (r: string)
    ensures IsStripped(r)
    ensures exists i :: StripsTo(s, r, i)
  {
    var a := LeadingSpace(s);
    var t := s[a..];
    var b := TrailingSpace(t);
    var r := t[..|t| - b];
    assert r != [] ==> r[0] == s[a] && r[|r| - 1] == t[|t| - b - 1];
    assert s[a..a + |r|] == r;
    assert s[a + |r|..] == t[|t| - b..];
    assert StripsTo(s, r, a);
    r
  }

  /** A string with no whitespace at either end is left alone by `strip()`. */
  lemma StripStripped(s: string)
    requires IsStripped(s)
    ensures Strip(s) == s
  {
    assert s[LeadingSpace(s)..] == s;
    assert s[..|s| - TrailingSpace(s)] == s;
  }

  /** `strip()` is idempotent. */
  lemma StripIdempotent(s: string)
    ensures Strip(Strip(s)) == Strip(s)
  {
    StripStripped(Strip(s));
  }

  /** `strip()` gives the empty string exactly when the input is all whitespace. */
  lemma StripEmptyIff(s: string)
    ensures Strip(s) == [] <==> AllSpace(s)
  {
    var a := LeadingSpace(s);
    if a == |s| {
      assert s[..a] == s;
    } else {
      var t := s[a..];
      assert t[0] == s[a];
      assert TrailingSpace(t) < |t|;
    }
  }

  /**
   * When `s` opens with a non-whitespace character and its character at `m` is
   * not whitespace either, `strip()` keeps the first `m + 1` characters.
   */
  lemma StripKeepsHead(s: string, m: nat)
    requires m < |s| && !IsSpace(s[0]) && !IsSpace(s[m])
    ensures StartsWith(Strip(s), s[..m + 1])
  {
    assert s[LeadingSpace(s)..] == s;
    var b := TrailingSpace(s);
    assert m < |s| - b;
    assert Strip(s) == s[..|s| - b];
  }

  // ---------------------------------------------------------------- split

  /** The length of the run of non-whitespace characters that opens `s`. */
  function WordLength(s: string): (n: nat)
    ensures n <= |s| && NoSpace(s[..n])
    ensures n < |s| ==> IsSpace(s[n])
    ensures forall k :: 0 <= k < |s| && IsSpace(s[k]) ==> n <= k
  {
    if s == [] || IsSpace(s[0]) then 0
    else
      var m := WordLength(s[1..]);
      assert s[..m + 1] == [s[0]] + s[1..][..m];
      m + 1
  }

  /** Python's `s.split()`: the maximal runs of non-whitespace characters, in order. */
  function Words(s: string): (ws: seq<string>)
    ensures forall w <- ws :: w != [] && NoSpace(w)
    decreases |s|
  {
    if s == [] then []
    else if IsSpace(s[0]) then Words(s[1..])
    else
      var n := WordLength(s);
      [s[..n]] + Words(s[n..])
  }

  /** A word, a whitespace character and the rest split into that word followed by the words of the rest. */
  lemma WordsFirstWord(w: string, c: char, rest: string)
    requires w != [] && NoSpace(w) && IsSpace(c)
    ensures Words(w + [c] + rest) == [w] + Words(rest)
  {
    var s := w + [c] + rest;
    assert forall k :: 0 <= k < |w| ==> s[k] == w[k] && !IsSpace(s[k]);
    assert s[|w|] == c;
    var n := WordLength(s);
    assert n == |w|;
    assert s[..n] == w;
    var tl := s[n..];
    assert tl[0] == c && tl[1..] == rest;
  }

  /** Leading whitespace contributes no word. */
  lemma WordsSkipSpace(c: char, rest: string)
    requires IsSpace(c)
    ensures Words([c] + rest) == Words(rest)
  {
    assert ([c] + rest)[1..] == rest;
  }

  /** Text without whitespace is one word, or none when empty. */
  lemma WordsOfWord(w: string)
    requires w != [] && NoSpace(w)
    ensures Words(w) == [w]
  {
    assert WordLength(w) == |w|;
    assert w[..|w|] == w;
    assert w[|w|..] == [];
  }

  /** `split()` gives no words exactly when the text is all whitespace. */
  lemma {:induction false} WordsEmptyIff(s: string)
    ensures Words(s) == [] <==> AllSpace(s)
    decreases |s|
  {
    if s != [] {
      WordsEmptyIff(s[1..]);
      if IsSpace(s[0]) {
        assert AllSpace(s) <==> AllSpace(s[1..]) by {
          if AllSpace(s[1..]) {
            forall k | 0 <= k < |s| ensures IsSpace(s[k]) {
              if k > 0 { assert s[k] == s[1..][k - 1]; }
            }
          }
        }
      }
    }
  }

  /** Python's `s.replace("\n", " ")`. */
  function NewlinesToSpaces(s: string): (r: string)
    ensures |r| == |s|
    ensures forall k :: 0 <= k < |s| ==> r[k] == (if s[k] == '\n' then ' ' else s[k])
  {
    seq(|s|, k requires 0 <= k < |s| => if s[k] == '\n' then ' ' else s[k])
  }

  // ----------------------------------------------------------- splitlines

  /** The length of the line that opens `s`, up to its first line break. */
  function LineLength(s: string): (n: nat)
    ensures n <= |s| && NoBreak(s[..n])
    ensures n < |s| ==> IsLineBreak(s[n])
    ensures forall k :: 0 <= k < |s| && IsLineBreak(s[k]) ==> n <= k
  {
    if s == [] || IsLineBreak(s[0]) then 0
    else
      var m := LineLength(s[1..]);
      assert s[..m + 1] == [s[0]] + s[1..][..m];
      m + 1
  }

  /**
   * Python's `s.splitlines()`: the lines of `s` without their line breaks; `"\r\n"`
   * ends one line, and a final line break does not open an empty last line.
   */
  function SplitLines(s: string): (lines: seq<string>)
    ensures forall ln <- lines :: NoBreak(ln)
    ensures lines == [] <==> s == []
    decreases |s|
  {
    if s == [] then []
    else
      var n := LineLength(s);
      if n == |s| then [s]
      else
        var next := if s[n] == '\r' && n + 1 < |s| && s[n + 1] == '\n' then n + 2 else n + 1;
        [s[..n]] + SplitLines(s[next..])
  }

  /** Python's `sep.join(parts)`. */
  function Join(parts: seq<string>, sep: string): (r: string)
    ensures parts == [] ==> r == ""
    ensures parts != [] ==> StartsWith(r, parts[0]) && EndsWith(r, parts[|parts| - 1])
    decreases |parts|
  {
    if parts == [] then ""
    else if |parts| == 1 then parts[0]
    else parts[0] + sep + Join(parts[1..], sep)
  }

  /** Every line followed by `"\n"`. */
  function Terminated(lines: seq<string>): string
    decreases |lines|
  {
    if lines == [] then "" else lines[0] + "\n" + Terminated(lines[1..])
  }

  /** `"\n".join(lines) + "\n"` writes each of a non-empty list of lines followed by a newline. */
  lemma {:induction false} JoinNewlineTerminates(lines: seq<string>)
    requires lines != []
    ensures Join(lines, "\n") + "\n" == Terminated(lines)
    decreases |lines|
  {
    if |lines| > 1 {
      JoinNewlineTerminates(lines[1..]);
    }
  }

  /**
   * Text that opens with a line and a line break splits into that line and the
   * lines of the rest; a `'\r'` counts alone only when no `'\n'` follows it.
   */
  lemma SplitAtBreak(ln: string, b: char, rest: string)
    requires NoBreak(ln) && IsLineBreak(b)
    requires b == '\r' ==> rest == [] || rest[0] != '\n'
    ensures SplitLines(ln + [b] + rest) == [ln] + SplitLines(rest)
  {
    var s := ln + [b] + rest;
    assert forall k :: 0 <= k < |ln| ==> s[k] == ln[k];
    assert s[|ln|] == b;
    assert LineLength(s) == |ln|;
    assert s[..|ln|] == ln;
    assert s[|ln| + 1..] == rest;
  }

  /** `"\r\n"` ends one line: the text after it gives the remaining lines. */
  lemma SplitAtCrLf(ln: string, rest: string)
    requires NoBreak(ln)
    ensures SplitLines(ln + "\r\n" + rest) == [ln] + SplitLines(rest)
  {
    var s := ln + "\r\n" + rest;
    assert forall k :: 0 <= k < |ln| ==> s[k] == ln[k];
    assert s[|ln|] == '\r' && s[|ln| + 1] == '\n';
    assert LineLength(s) == |ln|;
    assert s[..|ln|] == ln;
    assert s[|ln| + 2..] == rest;
  }

  /** A last line without a final line break is a line of its own. */
  lemma SplitLastLine(ln: string)
    requires ln != [] && NoBreak(ln)
    ensures SplitLines(ln) == [ln]
  {
    assert LineLength(ln) == |ln|;
  }

  /** Reading back text written one line per `"\n"` gives the same lines, when none holds a line break. */
  lemma {:induction false} SplitTerminated(lines: seq<string>)
    requires forall ln <- lines :: NoBreak(ln)
    ensures SplitLines(Terminated(lines)) == lines
    decreases |lines|
  {
    if lines != [] {
      assert lines[0] in lines;
      assert lines[0] + "\n" == lines[0] + ['\n'];
      SplitAtBreak(lines[0], '\n', Terminated(lines[1..]));
      SplitTerminated(lines[1..]);
    }
  }
}
