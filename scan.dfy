/** Reading fixed text off the front of a string, shared by the JSON
    reader and the Markdown readers. */
module Scan {
  import opened Records

  /** Consumes the fixed text `lit` at the front of `s`. */
  function Expect(lit: string, s: string): (r: Option<string>)
    ensures r.Some? ==> |r.value| == |s| - |lit|
  {
    if lit <= s then Some(s[|lit|..]) else None
  }

  lemma ExpectLiteral(lit: string, rest: string)
    ensures Expect(lit, lit + rest) == Some(rest)
  {
    assert lit <= lit + rest;
    assert (lit + rest)[|lit|..] == rest;
  }
}
