/** grep.c: the matcher.  A C string is a sequence without NUL; a pointer into it is the
    suffix it points at, and reading past the last character gives NUL. */
module Grep {
  import opened CStrings
  import opened Regex

  method Match(re: string, text: string) returns (b: bool)
    requires CString(re) && CString(text)
    ensures b <==> Matches(re, text)
  {
    if At(re, 0) == '^' {
      MatchesStart(re, text);
      b := MatchHere(re[1..], text);
      return;
    }
    MatchesSuffix(re, text);
    ghost var k := 0;
    var t := text;
    while true
      invariant 0 <= k <= |text| && t == text[k..]
      invariant forall i :: 0 <= i < k ==> !Prefix(re, text[i..])
      decreases |t|
    {
      b := MatchHere(re, t);
      if b {
        return true;
      }
      if At(t, 0) == NUL {
        return false;
      }
      t := t[1..];
      k := k + 1;
    }
  }

  method MatchHere(re: string, text: string) returns (b: bool)
    requires CString(re) && CString(text)
    ensures b <==> Prefix(re, text)
    decreases |re|, 0
  {
    if At(re, 0) == NUL {
      PrefixEmpty(text);
      return true;
    }
    if At(re, 1) == '*' {
      PrefixStar(re, text);
      b := MatchStar(re[0], re[2..], text);
      return;
    }
    if At(re, 0) == '$' && At(re, 1) == NUL {
      PrefixEnd(text);
      return At(text, 0) == NUL;
    }
    PrefixSym(re, text);
    if At(text, 0) != NUL && (re[0] == '.' || re[0] == text[0]) {
      b := MatchHere(re[1..], text[1..]);
      return;
    }
    return false;
  }

  method MatchStar(c: char, re: string, text: string) returns (b: bool)
    requires CString(re) && CString(text)
    ensures b <==> StarPrefix(c, re, text)
    decreases |re|, 1
  {
    ghost var k := 0;
    var t := text;
    while true
      invariant 0 <= k <= |text| && t == text[k..] && AllFit(c, text[..k])
      invariant forall i :: 0 <= i < k ==> !Prefix(re, text[i..])
      decreases |t|
    {
      b := MatchHere(re, t);
      if b {
        return true;
      }
      if At(t, 0) == NUL || !(t[0] == c || c == '.') {
        StarEnds(c, re, text, k);
        return false;
      }
      t := t[1..];
      k := k + 1;
    }
  }

  /** Past a character that does not fit, no further repetition is possible. */
  lemma StarEnds(c: char, re: string, text: string, k: int)
    requires 0 <= k <= |text| && (k == |text| || !Fits(c, text[k]))
    requires forall i :: 0 <= i <= k ==> !Prefix(re, text[i..])
    ensures !StarPrefix(c, re, text)
  {
  }
}
