/**
 * The two credential text helpers of the deployed front-end: finding a Hugging
 * Face token in the text of a local `api.txt`, and rewriting the lines of a
 * `.env` file so that it ends with exactly one `HF_TOKEN=` line.  Reading and
 * writing the files is left out; both helpers work on the text.
 */
module Credentials {
  import opened Optional
  import opened Text

  /** The index of the first element that satisfies `p`, or `|xs|` when none does. */
  function FirstWhere(xs: seq<string>, p: string -> bool): (k: nat)
    ensures k <= |xs|
    ensures forall j :: 0 <= j < k ==> !p(xs[j])
    ensures k < |xs| ==> p(xs[k])
    decreases |xs|
  {
    if xs == [] then 0
    else if p(xs[0]) then 0
    else 1 + FirstWhere(xs[1..], p)
  }

  /** The index of the first occurrence of `c` in `s`. */
  function IndexOf(s: string, c: char): (i: nat)
    requires c in s
    ensures i < |s| && s[i] == c && c !in s[..i]
    decreases |s|
  {
    if s[0] == c then 0
    else
      assert c in s[1..];
      var j := IndexOf(s[1..], c);
      assert s[..j + 1] == [s[0]] + s[1..][..j];
      j + 1
  }

  /** What follows the first `=` of a line: the second part of splitting it once at `=`. */
  function AfterFirstEquals(ln: string): (v: string)
    requires '=' in ln
    ensures exists i :: 0 <= i < |ln| && ln[i] == '=' && '=' !in ln[..i] && v == ln[i + 1..]
  {
    var i := IndexOf(ln, '=');
    ln[i + 1..]
  }

  // ------------------------------------------------------------ token scan

  /** A word that looks like a token: it starts with `hf_` and is longer than 10 characters. */
  predicate IsTokenWord(w: string) {
    StartsWith(w, "hf_") && |w| > 10
  }

  /** A line that mentions `HF_TOKEN` and holds an `=`. */
  predicate IsKeyLine(ln: string) {
    Contains(ln, "HF_TOKEN") && '=' in ln
  }

  /** The whitespace-separated words the scan looks at: the text with newlines made spaces, then split. */
  function ScanWords(txt: string): seq<string> {
    Words(NewlinesToSpaces(txt))
  }

  /**
   * The token in the text of `api.txt`: the first token-like word; failing
   * that, the stripped value after the first `=` of the first key line;
   * failing that, the empty string.
   */
  function ScanToken(txt: string): (r: string)
    ensures IsStripped(r)
    ensures var ws := ScanWords(txt); var k := FirstWhere(ws, IsTokenWord);
      k < |ws| ==> r == ws[k] && IsTokenWord(r)
  {
    var ws := ScanWords(txt);
    var k := FirstWhere(ws, IsTokenWord);
    if k < |ws| then
      assert ws[k] in ws;
      StripStripped(ws[k]);
      Strip(ws[k])
    else
      var lines := SplitLines(txt);
      var j := FirstWhere(lines, IsKeyLine);
      if j < |lines| then Strip(AfterFirstEquals(lines[j])) else ""
  }

  /** `api.txt` read in full, or nothing when it is absent or cannot be read (both give `""`). */
  function ReadFallbackToken(file: Option<string>): (r: string)
    ensures file.None? ==> r == ""
    ensures file.Some? ==> r == ScanToken(file.value)
    ensures IsStripped(r)
  {
    if file.None? then "" else ScanToken(file.value)
  }

  /** A token-like word wins: the scan returns the first one, whatever key lines the text holds. */
  lemma ScanPrefersTokenWord(txt: string, k: nat)
    requires k < |ScanWords(txt)| && IsTokenWord(ScanWords(txt)[k])
    requires forall j :: 0 <= j < k ==> !IsTokenWord(ScanWords(txt)[j])
    ensures ScanToken(txt) == ScanWords(txt)[k]
  {
    var ws := ScanWords(txt);
    assert FirstWhere(ws, IsTokenWord) == k;
    assert ws[k] in ws;
    StripStripped(ws[k]);
  }

  /** Without a token-like word, the first line that mentions `HF_TOKEN` with an `=` gives its stripped value. */
  lemma ScanFallsBackToKeyLine(txt: string, j: nat)
    requires forall k :: 0 <= k < |ScanWords(txt)| ==> !IsTokenWord(ScanWords(txt)[k])
    requires j < |SplitLines(txt)| && IsKeyLine(SplitLines(txt)[j])
    requires forall i :: 0 <= i < j ==> !IsKeyLine(SplitLines(txt)[i])
    ensures ScanToken(txt) == Strip(AfterFirstEquals(SplitLines(txt)[j]))
  {
    var lines := SplitLines(txt);
    assert FirstWhere(lines, IsKeyLine) == j;
  }

  /** With neither a token-like word nor a key line the scan finds nothing. */
  lemma ScanFindsNothing(txt: string)
    requires forall k :: 0 <= k < |ScanWords(txt)| ==> !IsTokenWord(ScanWords(txt)[k])
    requires forall i :: 0 <= i < |SplitLines(txt)| ==> !IsKeyLine(SplitLines(txt)[i])
    ensures ScanToken(txt) == ""
  {
  }

  /**
   * The usual `api.txt`, one `HF_TOKEN=<value>` line with no final newline: its
   * one word is not token-like (it starts with `HF_`, not `hf_`), so the key
   * line is used and the value after `=` comes back.
   */
  lemma ReadKeyLineFile(v: string)
    requires v != [] && NoSpace(v)
    ensures ReadFallbackToken(Some("HF_TOKEN=" + v)) == v
  {
    var txt := "HF_TOKEN=" + v;
    assert forall k :: 0 <= k < |txt| ==> !IsSpace(txt[k]) && !IsLineBreak(txt[k]) && txt[k] != '\n' by {
      forall k | 0 <= k < |txt| ensures !IsSpace(txt[k]) && !IsLineBreak(txt[k]) && txt[k] != '\n' {
        if k >= 9 { assert txt[k] == v[k - 9]; }
      }
    }
    assert NewlinesToSpaces(txt) == txt;
    WordsOfWord(txt);
    assert txt[..3] == "HF_";
    assert FirstWhere(ScanWords(txt), IsTokenWord) == 1;
    SplitLastLine(txt);
    assert txt[..8] == "HF_TOKEN";
    assert IsKeyLine(txt);
    assert IndexOf(txt, '=') == 8 by {
      assert txt[8] == '=' && '=' !in txt[..8];
    }
    assert txt[9..] == v;
    StripStripped(v);
  }

  // ---------------------------------------------------------- .env rewrite

  const Assignment := "HF_TOKEN="

  /** A line that assigns the token once surrounding whitespace is ignored. */
  predicate IsTokenAssignment(ln: string) {
    StartsWith(Strip(ln), Assignment)
  }

  /** The lines that do not assign the token, in their original order. */
  function WithoutTokenLines(lines: seq<string>): (r: seq<string>)
    ensures forall ln <- r :: ln in lines && !IsTokenAssignment(ln)
    ensures forall ln <- lines :: !IsTokenAssignment(ln) ==> ln in r
    decreases |lines|
  {
    if lines == [] then []
    else if IsTokenAssignment(lines[0]) then WithoutTokenLines(lines[1..])
    else [lines[0]] + WithoutTokenLines(lines[1..])
  }

  /** Filtering distributes over concatenation, so the kept lines stay in their order. */
  lemma {:induction false} WithoutTokenLinesAppend(a: seq<string>, b: seq<string>)
    ensures WithoutTokenLines(a + b) == WithoutTokenLines(a) + WithoutTokenLines(b)
    decreases |a|
  {
    if a == [] {
      assert a + b == b;
    } else {
      assert (a + b)[1..] == a[1..] + b;
      WithoutTokenLinesAppend(a[1..], b);
    }
  }

  /** Lines of which none assigns the token pass the filter unchanged. */
  lemma {:induction false} WithoutTokenLinesKeepsAll(lines: seq<string>)
    requires forall ln <- lines :: !IsTokenAssignment(ln)
    ensures WithoutTokenLines(lines) == lines
    decreases |lines|
  {
    if lines != [] {
      WithoutTokenLinesKeepsAll(lines[1..]);
    }
  }

  /** The `HF_TOKEN=<token>` line is itself a token assignment. */
  lemma AssignmentLineIsAssignment(token: string)
    ensures IsTokenAssignment(Assignment + token)
  {
    var s := Assignment + token;
    assert s[0] == 'H' && s[8] == '=';
    StripKeepsHead(s, 8);
    assert s[..9] == Assignment;
  }

  /** The lines of `.env` as read, or none when it does not exist. */
  function EnvLines(existing: Option<string>): (lines: seq<string>)
    ensures existing.None? ==> lines == []
    ensures existing.Some? ==> lines == SplitLines(existing.value)
    ensures forall ln <- lines :: NoBreak(ln)
  {
    if existing.None? then [] else SplitLines(existing.value)
  }

  /**
   * The new text of `.env`: every line that does not assign the token, in
   * order, then one `HF_TOKEN=<token>` line, each line followed by a newline.
   */
  function RewriteEnv(existing: Option<string>, token: string): (r: string)
    ensures r == Terminated(WithoutTokenLines(EnvLines(existing)) + [Assignment + token])
    ensures EndsWith(r, Assignment + token + "\n")
  {
    var lines := WithoutTokenLines(EnvLines(existing)) + [Assignment + token];
    JoinNewlineTerminates(lines);
    TerminatedSnoc(WithoutTokenLines(EnvLines(existing)), Assignment + token);
    Join(lines, "\n") + "\n"
  }

  /** Writing one more line adds it, with its newline, at the end. */
  lemma {:induction false} TerminatedSnoc(lines: seq<string>, last: string)
    ensures Terminated(lines + [last]) == Terminated(lines) + last + "\n"
    ensures EndsWith(Terminated(lines + [last]), last + "\n")
    decreases |lines|
  {
    if lines == [] {
      assert [] + [last] == [last];
    } else {
      assert (lines + [last])[1..] == lines[1..] + [last];
      TerminatedSnoc(lines[1..], last);
    }
    var t := Terminated(lines);
    assert (t + last + "\n")[|t|..] == last + "\n";
  }

  /**
   * Read back, the rewritten file holds the kept lines in order and then the one
   * token line; no earlier line assigns the token.  (A token holding a line
   * break would split its own line, so it is excluded.)
   */
  lemma RewriteEnvLines(existing: Option<string>, token: string)
    requires NoBreak(token)
    ensures var lines := SplitLines(RewriteEnv(existing, token));
      && lines == WithoutTokenLines(EnvLines(existing)) + [Assignment + token]
      && lines[|lines| - 1] == Assignment + token
      && forall k :: 0 <= k < |lines| - 1 ==> !IsTokenAssignment(lines[k])
  {
    var kept := WithoutTokenLines(EnvLines(existing));
    var a := Assignment + token;
    var lines := kept + [a];
    AssignmentNoBreak(token);
    forall ln | ln in lines ensures NoBreak(ln) {
      if ln != a { assert ln in kept; }
    }
    SplitTerminated(lines);
    assert SplitLines(RewriteEnv(existing, token)) == lines;
    forall k | 0 <= k < |kept| ensures !IsTokenAssignment(lines[k]) {
      assert lines[k] in kept;
    }
  }

  /** The token line holds a line break only where the token does. */
  lemma AssignmentNoBreak(token: string)
    requires NoBreak(token)
    ensures NoBreak(Assignment + token)
  {
    var a := Assignment + token;
    forall k | 0 <= k < |a| ensures !IsLineBreak(a[k]) {
      if k >= |Assignment| { assert a[k] == token[k - |Assignment|]; }
    }
  }

  /** Filtering the rewritten lines again drops the token line and keeps the rest. */
  lemma RefilterKeeps(kept: seq<string>, a: string)
    requires forall ln <- kept :: !IsTokenAssignment(ln)
    requires IsTokenAssignment(a)
    ensures WithoutTokenLines(kept + [a]) == kept
  {
    WithoutTokenLinesAppend(kept, [a]);
    WithoutTokenLinesKeepsAll(kept);
    assert WithoutTokenLines([a]) == [];
    assert kept + [] == kept;
  }

  /** Saving the same token twice leaves the file as the first save wrote it. */
  lemma RewriteEnvIdempotent(existing: Option<string>, token: string)
    requires NoBreak(token)
    ensures RewriteEnv(Some(RewriteEnv(existing, token)), token) == RewriteEnv(existing, token)
  {
    var kept := WithoutTokenLines(EnvLines(existing));
    var a := Assignment + token;
    RewriteEnvLines(existing, token);
    AssignmentLineIsAssignment(token);
    RefilterKeeps(kept, a);
    assert EnvLines(Some(RewriteEnv(existing, token))) == kept + [a];
  }
}
