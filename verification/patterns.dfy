/**
  The pieces of Java regular expressions the analysers share: `\w+` as a word
  and `\s+(\w+)` as a word after whitespace, each matched greedily.
*/
module Patterns {
  import opened Text
  import opened Optional

  predicate IsWord(w: string) {
    |w| > 0 && forall k :: 0 <= k < |w| ==> IsWordChar(w[k])
  }

  /**
    The word that follows one or more whitespace characters from `p`, and
    the index just after it (`\s+(\w+)`). The greedy runs need no
    backtracking: word characters are never whitespace.
  */
  function SpacedWord(s: string, p: nat): (r: Option<(string, nat)>)
    requires p <= |s|
    ensures r.Some? ==> p < r.value.1 <= |s| && IsWord(r.value.0)
  {
    var b := p + Run(s, p, IsRegexSpace);
    var e := b + Run(s, b, IsWordChar);
    RunIsWord(s, b);
    if b > p && e > b then Some((s[b..e], e)) else None
  }

  /** A non-empty run of word characters is a word. */
  lemma RunIsWord(s: string, i: nat)
    requires i <= |s|
    ensures Run(s, i, IsWordChar) > 0 ==> IsWord(s[i..i + Run(s, i, IsWordChar)])
  {
    var n := Run(s, i, IsWordChar);
    var w := s[i..i + n];
    forall k | 0 <= k < n ensures IsWordChar(w[k]) {
      assert w[k] == s[i + k];
    }
  }

  /** One space, then a word ended by a character that is neither a word character nor whitespace. */
  lemma SpacedWordAt(s: string, p: nat, w: string)
    requires IsWord(w) && p + 1 + |w| < |s| && s[p] == ' ' && s[p + 1..p + 1 + |w|] == w
    requires !IsWordChar(s[p + 1 + |w|])
    ensures SpacedWord(s, p) == Some((w, p + 1 + |w|))
  {
    assert s[p + 1] == w[0];
    RunExact(s, p, 1, IsRegexSpace);
    assert forall k :: p + 1 <= k < p + 1 + |w| ==> s[k] == w[k - p - 1];
    RunExact(s, p + 1, |w|, IsWordChar);
  }
}
