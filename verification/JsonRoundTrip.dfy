/** The in-place parser on printed trees. */
module JsonRoundTrip {
  import opened Json
  import opened JsonTree
  import opened JsonParser

  /** Printing a tree and parsing the text in place gives the tree's tokens back, and touches no other slot. */
  method ParseText(before: string, v: Value, after: string, tokens: array<Token>) returns (r: int)
    requires Blanks(before) && ValueOk(v) && Blanks(after) && |Tokens(v, |before|)| <= tokens.Length
    modifies tokens
    ensures r == |Tokens(v, |before|)| && tokens[..r] == Tokens(v, |before|) && tokens[r..] == old(tokens[r..])
  {
    hide Tokens, Print, ValueOk, Blanks, Run;
    var parser := new Parser();
    ParsePrinted(before, v, after, tokens.Length);
    var wild;
    r, wild := parser.Parse(before + Print(v) + after, tokens, tokens.Length);
  }

  /** A dry run first tells how many slots it takes. */
  method CountTokens(before: string, v: Value, after: string) returns (r: int)
    requires Blanks(before) && ValueOk(v) && Blanks(after)
    ensures r == |Tokens(v, |before|)|
  {
    hide Tokens, Print, ValueOk, Blanks, Run;
    var parser := new Parser();
    ghost var n := |Tokens(v, |before|)|;
    ParsePrinted(before, v, after, n);
    FullRunIsDryRun(before + Print(v) + after, START, START, n, 0);
    var wild;
    r, wild := parser.Parse(before + Print(v) + after, null, 0);
  }
}
