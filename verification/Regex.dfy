/** Regular expressions and the languages they denote, in the textbook sense. */
module Regex {

  datatype Re = Empty | Sym(c: char) | Cat(l: Re, r: Re) | Star(e: Re)

  /** A dot stands for any character. */
  predicate Fits(c: char, x: char) {
    c == '.' || c == x
  }

  ghost function Concat(ws: seq<string>): string {
    if ws == [] then "" else ws[0] + Concat(ws[1..])
  }

  ghost predicate InLang(e: Re, w: string) {
    match e
    case Empty => w == ""
    case Sym(c) => |w| == 1 && Fits(c, w[0])
    case Cat(l, r) => exists i :: 0 <= i <= |w| && InLang(l, w[..i]) && InLang(r, w[i..])
    case Star(f) => exists ws :: Concat(ws) == w && forall i :: 0 <= i < |ws| ==> InLang(f, ws[i])
  }

  ghost predicate AllFit(c: char, w: string) {
    forall i :: 0 <= i < |w| ==> Fits(c, w[i])
  }

  lemma {:induction false} WordsFit(c: char, ws: seq<string>)
    requires forall i :: 0 <= i < |ws| ==> InLang(Sym(c), ws[i])
    ensures AllFit(c, Concat(ws))
  {
    if ws != [] {
      WordsFit(c, ws[1..]);
      assert InLang(Sym(c), ws[0]);
    }
  }

  lemma {:induction false} FitWords(c: char, w: string) returns (ws: seq<string>)
    requires AllFit(c, w)
    ensures Concat(ws) == w && forall i :: 0 <= i < |ws| ==> InLang(Sym(c), ws[i])
  {
    ws := [];
    if w != "" {
      var rest := FitWords(c, w[1..]);
      ws := [w[..1]] + rest;
      assert w == w[..1] + w[1..];
    }
  }

  lemma StarSym(c: char, w: string)
    ensures InLang(Star(Sym(c)), w) <==> AllFit(c, w)
  {
    if InLang(Star(Sym(c)), w) {
      var ws :| Concat(ws) == w && forall i :: 0 <= i < |ws| ==> InLang(Sym(c), ws[i]);
      WordsFit(c, ws);
    }
    if AllFit(c, w) {
      var ws := FitWords(c, w);
    }
  }

  // ------------------------------------------------------------ grep's notation

  /** The expression that a pattern without its ^ denotes.  A star binds to the character
      before it, whatever that is; a lone final dollar is an anchor; the rest is literal. */
  function Body(re: string): Re {
    if re == "" then Empty
    else if |re| > 1 && re[1] == '*' then Cat(Star(Sym(re[0])), Body(re[2..]))
    else if re == "$" then Empty
    else Cat(Sym(re[0]), Body(re[1..]))
  }

  predicate EndAnchored(re: string) {
    if re == "" then false
    else if |re| > 1 && re[1] == '*' then EndAnchored(re[2..])
    else re == "$" || EndAnchored(re[1..])
  }

  /** Some prefix of text is in the language: all of it, if the pattern ends in an anchor. */
  ghost predicate Prefix(re: string, text: string) {
    exists j :: 0 <= j <= |text| && InLang(Body(re), text[..j]) && (EndAnchored(re) ==> j == |text|)
  }

  /** Some part of text is in the language, the ends being fixed by the anchors. */
  ghost predicate Matches(re: string, text: string) {
    var start := re != "" && re[0] == '^';
    var rest := if start then re[1..] else re;
    exists i, j :: 0 <= i <= j <= |text| && InLang(Body(rest), text[i..j])
                   && (start ==> i == 0) && (EndAnchored(rest) ==> j == |text|)
  }

  lemma PrefixEmpty(text: string)
    ensures Prefix("", text)
  {
    assert InLang(Body(""), text[..0]);
  }

  lemma PrefixEnd(text: string)
    ensures Prefix("$", text) <==> text == ""
  {
    if text == "" {
      assert InLang(Body("$"), text[..0]);
    }
  }

  ghost predicate StarPrefix(c: char, re: string, text: string) {
    exists k :: 0 <= k <= |text| && AllFit(c, text[..k]) && Prefix(re, text[k..])
  }

  lemma CatStar(c: char, e: Re, w: string)
    ensures InLang(Cat(Star(Sym(c)), e), w) <==> exists k :: 0 <= k <= |w| && AllFit(c, w[..k]) && InLang(e, w[k..])
  {
    forall k | 0 <= k <= |w|
      ensures InLang(Star(Sym(c)), w[..k]) <==> AllFit(c, w[..k])
    {
      StarSym(c, w[..k]);
    }
  }

  lemma PrefixStar(re: string, text: string)
    requires |re| > 1 && re[1] == '*'
    ensures Prefix(re, text) <==> StarPrefix(re[0], re[2..], text)
  {
    if Prefix(re, text) {
      StarSplits(re, text);
    }
    if StarPrefix(re[0], re[2..], text) {
      StarJoins(re, text);
    }
  }

  lemma StarSplits(re: string, text: string)
    requires |re| > 1 && re[1] == '*' && Prefix(re, text)
    ensures StarPrefix(re[0], re[2..], text)
  {
    var c, rest := re[0], re[2..];
    var j :| 0 <= j <= |text| && InLang(Body(re), text[..j]) && (EndAnchored(re) ==> j == |text|);
    var w := text[..j];
    CatStar(c, Body(rest), w);
    var k :| 0 <= k <= |w| && AllFit(c, w[..k]) && InLang(Body(rest), w[k..]);
    assert w[..k] == text[..k] && w[k..] == text[k..][..j - k];
    assert Prefix(rest, text[k..]);
  }

  lemma StarJoins(re: string, text: string)
    requires |re| > 1 && re[1] == '*' && StarPrefix(re[0], re[2..], text)
    ensures Prefix(re, text)
  {
    var c, rest := re[0], re[2..];
    var k :| 0 <= k <= |text| && AllFit(c, text[..k]) && Prefix(rest, text[k..]);
    var t := text[k..];
    var j :| 0 <= j <= |t| && InLang(Body(rest), t[..j]) && (EndAnchored(rest) ==> j == |t|);
    var w := text[..k + j];
    assert w[..k] == text[..k] && w[k..] == t[..j];
    CatStar(c, Body(rest), w);
  }

  lemma PrefixSym(re: string, text: string)
    requires re != "" && re != "$" && !(|re| > 1 && re[1] == '*')
    ensures Prefix(re, text) <==> text != "" && Fits(re[0], text[0]) && Prefix(re[1..], text[1..])
  {
    var c, rest := re[0], re[1..];
    if Prefix(re, text) {
      var j :| 0 <= j <= |text| && InLang(Body(re), text[..j]) && (EndAnchored(re) ==> j == |text|);
      var w := text[..j];
      var k :| 0 <= k <= |w| && InLang(Sym(c), w[..k]) && InLang(Body(rest), w[k..]);
      assert |w[..k]| == 1;
      assert w[k..] == text[1..][..j - 1];
      assert Prefix(rest, text[1..]);
    }
    if text != "" && Fits(c, text[0]) && Prefix(rest, text[1..]) {
      var t := text[1..];
      var j :| 0 <= j <= |t| && InLang(Body(rest), t[..j]) && (EndAnchored(rest) ==> j == |t|);
      var w := text[..1 + j];
      assert InLang(Sym(c), w[..1]) && w[1..] == t[..j];
      assert InLang(Body(re), w);
    }
  }

  /** An unanchored pattern matches where it is a prefix of some suffix. */
  lemma MatchesSuffix(re: string, text: string)
    requires re == "" || re[0] != '^'
    ensures Matches(re, text) <==> exists i :: 0 <= i <= |text| && Prefix(re, text[i..])
  {
    if Matches(re, text) {
      var i, j :| 0 <= i <= j <= |text| && InLang(Body(re), text[i..j]) && (EndAnchored(re) ==> j == |text|);
      assert text[i..j] == text[i..][..j - i];
      assert Prefix(re, text[i..]);
    }
    if i :| 0 <= i <= |text| && Prefix(re, text[i..]) {
      var t := text[i..];
      var j :| 0 <= j <= |t| && InLang(Body(re), t[..j]) && (EndAnchored(re) ==> j == |t|);
      assert t[..j] == text[i..i + j];
    }
  }

  lemma MatchesStart(re: string, text: string)
    requires re != "" && re[0] == '^'
    ensures Matches(re, text) <==> Prefix(re[1..], text)
  {
    var rest := re[1..];
    if Matches(re, text) {
      var j :| 0 <= j <= |text| && InLang(Body(rest), text[0..j]) && (EndAnchored(rest) ==> j == |text|);
      assert text[0..j] == text[..j];
    }
    if Prefix(rest, text) {
      var j :| 0 <= j <= |text| && InLang(Body(rest), text[..j]) && (EndAnchored(rest) ==> j == |text|);
      assert text[0..j] == text[..j];
    }
  }
}
