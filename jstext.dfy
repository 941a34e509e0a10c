/** The parts of JavaScript's string library the checklist relies on:
    the white-space class shared by String.prototype.trim and parseInt,
    trimming, and prefix / suffix tests used to state properties of the
    generated text. */
module JsText {

  /** WhiteSpace or LineTerminator as ECMAScript defines them: what
      `trim()` removes at both ends and what `parseInt` skips at the front. */
  predicate IsWhiteSpace(c: char)
  {
    || c == '\t' || c == '\n' || c == '\U{B}' || c == '\U{C}' || c == '\r' || c == ' '
    || c == '\U{A0}' || c == '\U{1680}' || ('\U{2000}' <= c <= '\U{200A}')
    || c == '\U{2028}' || c == '\U{2029}' || c == '\U{202F}' || c == '\U{205F}'
    || c == '\U{3000}' || c == '\U{FEFF}'
  }

  predicate IsBlank(s: string)
  {
    forall i :: 0 <= i < |s| ==> IsWhiteSpace(s[i])
  }

  lemma BlankCons(c: char, t: string)
    requires IsWhiteSpace(c) && IsBlank(t)
    ensures IsBlank([c] + t)
  {
    forall i | 0 <= i < |[c] + t| ensures IsWhiteSpace(([c] + t)[i]) {
      if i > 0 { assert ([c] + t)[i] == t[i - 1]; }
    }
  }

  /** `s.trimStart()`: the longest suffix of `s` that does not start with white space. */
  function TrimStart(s: string): (r: string)
    ensures |r| <= |s| && r == s[|s| - |r|..]
    ensures IsBlank(s[..|s| - |r|])
    ensures r == [] || !IsWhiteSpace(r[0])
  {
    if |s| > 0 && IsWhiteSpace(s[0]) then
      var r := TrimStart(s[1..]);
      assert s[..|s| - |r|] == [s[0]] + s[1..][..|s| - 1 - |r|];
      BlankCons(s[0], s[1..][..|s| - 1 - |r|]);
      r
    else
      assert s[..0] == [];
      s
  }

  /** Text that does not start with white space is left alone by `trimStart()`. */
  lemma TrimStartKeeps(s: string)
    requires |s| > 0 && !IsWhiteSpace(s[0])
    ensures TrimStart(s) == s
  {
  }

  /** `s.trimEnd()`: the longest prefix of `s` that does not end with white space. */
  function TrimEnd(s: string): (r: string)
    ensures |r| <= |s| && r == s[..|r|]
    ensures IsBlank(s[|r|..])
    ensures r == [] || !IsWhiteSpace(r[|r| - 1])
  {
    if |s| > 0 && IsWhiteSpace(s[|s| - 1]) then
      var r := TrimEnd(s[..|s| - 1]);
      assert s[|r|..] == s[..|s| - 1][|r|..] + [s[|s| - 1]];
      r
    else
      s
  }

  /** `s.trim()`: no longer than `s`, and with no white space left at
      either end. */
  function Trim(s: string): (r: string)
    ensures |r| <= |s|
    ensures r == [] || (!IsWhiteSpace(r[0]) && !IsWhiteSpace(r[|r| - 1]))
  {
    TrimEnd(TrimStart(s))
  }

  /** `s.trim()` is empty, and so falsy in JavaScript, exactly when every
      character of `s` is white space. */
  lemma TrimEmptyIffBlank(s: string)
    ensures Trim(s) == [] <==> IsBlank(s)
  {
    var t := TrimStart(s);
    if Trim(s) == [] {
      assert IsBlank(t) by { assert t[0..] == t; }
      assert t == [];
      assert s[..|s|] == s;
    }
  }

  /** Whether `p` is the last part of `s`. */
  predicate EndsWith(s: string, p: string)
  {
    |p| <= |s| && s[|s| - |p|..] == p
  }

  /** Regrouping a concatenation; proofs about generated texts regroup
      with it instead of comparing long texts character by character. */
  lemma Assoc(a: string, b: string, c: string)
    ensures a + b + c == a + (b + c)
  {
  }
}
