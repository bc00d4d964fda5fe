/** gettoken, said without the scanner: which texts have a given list of tokens. */
module ShellLexing {
  import opened CStrings
  import opened ShellSyntax
  import opened ShellTree

  /** A token as it is written: a symbol, or a word if kind is 'a'. */
  datatype Piece = Piece(kind: char, text: string)

  function Sym(c: char): Piece {
    Piece(c, if c == '+' then ">>" else [c])
  }

  predicate GoodPiece(p: Piece) {
    (p.kind == 'a' && IsText(p.text)) || ((Symbol(p.kind) || p.kind == '+') && p == Sym(p.kind))
  }

  predicate AllGood(ps: seq<Piece>) {
    forall i :: 0 <= i < |ps| ==> GoodPiece(ps[i])
  }

  /** The tokens ts are the pieces ps. */
  ghost predicate Spells(b: string, ts: seq<Token>, ps: seq<Piece>) {
    && |ts| == |ps|
    && forall i :: 0 <= i < |ts| ==>
         ts[i].kind == ps[i].kind && (ps[i].kind == 'a' ==> Word(b, Span(ts[i].q, ts[i].eq)) == ps[i].text)
  }

  // -------------------------------------------------------------------- layout

  /** The pieces with the gaps around them. */
  function Lay(ps: seq<Piece>, gaps: seq<string>): string
    requires |gaps| == |ps| + 1
  {
    if ps == [] then gaps[0] else gaps[0] + ps[0].text + Lay(ps[1..], gaps[1..])
  }

  predicate Blank(g: string) {
    forall i :: 0 <= i < |g| ==> White(g[i])
  }

  /** The two can be written without a gap. */
  predicate Apart(p: Piece, q: Piece) {
    !(p.kind == 'a' && q.kind == 'a') && !(p.kind == '>' && (q.kind == '>' || q.kind == '+'))
  }

  /** Gaps are white space, and there is one wherever one is needed. */
  ghost predicate Spaced(ps: seq<Piece>, gaps: seq<string>) {
    && |gaps| == |ps| + 1
    && (forall i :: 0 <= i < |gaps| ==> Blank(gaps[i]))
    && (forall i, j :: 0 <= i < j < |ps| && j == i + 1 ==> gaps[j] != "" || Apart(ps[i], ps[j]))
  }

  lemma SpacedRest(ps: seq<Piece>, gaps: seq<string>)
    requires ps != [] && Spaced(ps, gaps)
    ensures Spaced(ps[1..], gaps[1..])
  {
    var qs, hs := ps[1..], gaps[1..];
    forall i, j | 0 <= i < j < |qs| && j == i + 1
      ensures hs[j] != "" || Apart(qs[i], qs[j])
    {
      assert gaps[j + 1] != "" || Apart(ps[i + 1], ps[j + 1]);
    }
  }

  lemma SpacedMore(p: Piece, ps: seq<Piece>, g: string, gaps: seq<string>)
    requires Spaced(ps, gaps) && Blank(g) && (ps != [] ==> gaps[0] != "" || Apart(p, ps[0]))
    ensures Spaced([p] + ps, [g] + gaps)
  {
    var qs, hs := [p] + ps, [g] + gaps;
    forall i, j | 0 <= i < j < |qs| && j == i + 1
      ensures hs[j] != "" || Apart(qs[i], qs[j])
    {
      assert hs[j] == gaps[j - 1] && qs[j] == ps[j - 1];
      assert i > 0 ==> qs[i] == ps[i - 1];
    }
  }

  /** What the character after a piece must not be, for the piece to end there. */
  predicate EndsAt(p: Piece, c: char) {
    (p.kind == 'a' ==> !WordChar(c)) && (p.kind == '>' ==> c != '>')
  }

  lemma LayHead(b: string, s: int, ps: seq<Piece>, gaps: seq<string>)
    requires Within(b, s) && ps != [] && |gaps| == |ps| + 1 && b[s..] == Lay(ps, gaps)
    ensures var q := s + |gaps[0]|;
            var e := q + |ps[0].text|;
            q <= e <= |b| && b[s..q] == gaps[0] && b[q..e] == ps[0].text && b[e..] == Lay(ps[1..], gaps[1..])
  {
    var q := s + |gaps[0]|;
    var e := q + |ps[0].text|;
    var tail := Lay(ps[1..], gaps[1..]);
    assert b[s..] == gaps[0] + ps[0].text + tail;
    assert b[s..q] == b[s..][..q - s];
    assert b[q..e] == b[s..][q - s..e - s];
    assert b[e..] == b[s..][e - s..];
  }

  /** The character at the start of a layout. */
  lemma LayFront(b: string, s: int, ps: seq<Piece>, gaps: seq<string>)
    requires Within(b, s) && |gaps| == |ps| + 1 && AllGood(ps) && b[s..] == Lay(ps, gaps)
    ensures gaps[0] != "" ==> At(b, s) == gaps[0][0]
    ensures gaps[0] == "" && ps == [] ==> At(b, s) == NUL
    ensures gaps[0] == "" && ps != [] ==> ps[0].text != "" && At(b, s) == ps[0].text[0]
  {
    if ps == [] {
      assert b[s..] == gaps[0];
      assert gaps[0] != "" ==> b[s..][0] == b[s];
    } else {
      LayHead(b, s, ps, gaps);
      assert GoodPiece(ps[0]);
      var q := s + |gaps[0]|;
      assert gaps[0] != "" ==> b[s..q][0] == b[s];
      assert b[q..q + |ps[0].text|][0] == b[q];
    }
  }

  lemma PieceFront(p: Piece)
    requires GoodPiece(p)
    ensures p.text != "" && !White(p.text[0]) && p.text[0] != NUL
    ensures p.kind == 'a' <==> WordChar(p.text[0])
    ensures p.kind == '>' || p.kind == '+' <==> p.text[0] == '>'
  {
  }

  /** In a well-spaced layout every piece ends where it should. */
  lemma PieceEnds(b: string, s: int, p: Piece, ps: seq<Piece>, gaps: seq<string>)
    requires Within(b, s) && GoodPiece(p) && AllGood(ps) && |gaps| == |ps| + 1 && b[s..] == Lay(ps, gaps)
    requires Blank(gaps[0])
    ensures EndsAt(p, At(b, s)) <==> ps == [] || gaps[0] != "" || Apart(p, ps[0])
  {
    LayFront(b, s, ps, gaps);
    if ps != [] {
      PieceFront(ps[0]);
    }
    if gaps[0] != "" {
      assert White(gaps[0][0]);
    }
  }

  // ------------------------------------------------------- from layout to tokens

  lemma {:induction false} SkipsBlank(b: string, s: int, q: int)
    requires 0 <= s <= q <= |b| && Blank(b[s..q]) && !White(At(b, q))
    ensures Skip(b, s) == q
    decreases q - s
  {
    if s < q {
      var g := b[s + 1..q];
      assert b[s..q] == [b[s]] + g;
      forall i | 0 <= i < |g|
        ensures White(g[i])
      {
        assert White(b[s..q][i + 1]);
      }
      SkipsBlank(b, s + 1, q);
    }
  }

  lemma {:induction false} SkipIsBlank(b: string, s: int)
    requires Within(b, s)
    ensures Blank(b[s..Skip(b, s)])
    decreases |b| - s
  {
    if s < |b| && White(b[s]) {
      SkipIsBlank(b, s + 1);
      var g := b[s..Skip(b, s)];
      assert g == [b[s]] + b[s + 1..Skip(b, s)];
    }
  }

  lemma TokensSkip(b: string, s: int)
    requires Within(b, s)
    ensures Tokens(b, Skip(b, s)) == Tokens(b, s)
  {
    TokenSkip(b, s);
  }

  lemma TokensStep(b: string, s: int)
    requires Within(b, s) && TokenAt(b, s).kind != NUL
    ensures Tokens(b, s) == [TokenAt(b, s)] + Tokens(b, TokenAt(b, s).next)
  {
  }

  lemma TokenSkip(b: string, s: int)
    requires Within(b, s)
    ensures TokenAt(b, Skip(b, s)) == TokenAt(b, s)
  {
  }

  lemma {:induction false} WordEndsAt(b: string, s: int, e: int)
    requires 0 <= s <= e <= |b| && !WordChar(At(b, e)) && forall i :: s <= i < e ==> WordChar(At(b, i))
    ensures WordEnd(b, s) == e
    decreases e - s
  {
    if s < e {
      assert WordChar(At(b, s));
      WordEndsAt(b, s + 1, e);
    }
  }

  lemma SliceAt(b: string, q: int, e: int, i: int)
    requires 0 <= q <= i < e <= |b|
    ensures b[q..e][i - q] == b[i]
  {
  }

  /** A piece that ends where it should is one token. */
  lemma PieceToken(b: string, q: int, p: Piece)
    requires GoodPiece(p) && 0 <= q && q + |p.text| <= |b| && b[q..q + |p.text|] == p.text
    requires EndsAt(p, At(b, q + |p.text|))
    ensures TokenAt(b, q) == Token(p.kind, q, q + |p.text|, Skip(b, q + |p.text|))
    ensures Word(b, Span(q, q + |p.text|)) == p.text
  {
    var e := q + |p.text|;
    forall i | q <= i < e
      ensures At(b, i) == p.text[i - q]
    {
      SliceAt(b, q, e, i);
    }
    PieceFront(p);
    if p.kind == 'a' {
      WordEndsAt(b, q, e);
    }
  }

  /** The tokens of a layout are its pieces. */
  lemma {:induction false} Lexes(b: string, s: int, ps: seq<Piece>, gaps: seq<string>)
    requires Within(b, s) && AllGood(ps) && Spaced(ps, gaps) && b[s..] == Lay(ps, gaps)
    ensures Spells(b, Tokens(b, s), ps)
    decreases |ps|
  {
    hide Tokens;
    if ps == [] {
      NoTokens(b, s, gaps[0]);
    } else {
      var e := s + |gaps[0]| + |ps[0].text|;
      LayHead(b, s, ps, gaps);
      SpacedRest(ps, gaps);
      var t := LexesOne(b, s, ps, gaps);
      hide Spaced, Lay, Spells;
      Lexes(b, e, ps[1..], gaps[1..]);
      SpellsMore(b, t, Tokens(b, e), ps);
    }
  }

  lemma NoTokens(b: string, s: int, gap: string)
    requires Within(b, s) && b[s..] == gap && Blank(gap)
    ensures Tokens(b, s) == []
  {
    assert b[s..|b|] == gap;
    SkipsBlank(b, s, |b|);
  }

  lemma SpellsMore(b: string, t: Token, ts: seq<Token>, ps: seq<Piece>)
    requires ps != [] && Spells(b, [t], [ps[0]]) && Spells(b, ts, ps[1..])
    ensures Spells(b, [t] + ts, ps)
  {
    forall i | 0 <= i < |ps|
      ensures ([t] + ts)[i] == if i == 0 then t else ts[i - 1]
      ensures i > 0 ==> ps[i] == ps[1..][i - 1]
    {
    }
    assert [t][0] == t && [ps[0]][0] == ps[0];
  }

  lemma LexesOne(b: string, s: int, ps: seq<Piece>, gaps: seq<string>) returns (t: Token)
    requires Within(b, s) && ps != [] && AllGood(ps) && Spaced(ps, gaps) && b[s..] == Lay(ps, gaps)
    ensures var e := s + |gaps[0]| + |ps[0].text|;
            Within(b, e) && Tokens(b, s) == [t] + Tokens(b, e) && Spells(b, [t], [ps[0]])
  {
    hide Tokens;
    LayHead(b, s, ps, gaps);
    assert Blank(gaps[0]) && Blank(gaps[1..][0]);
    FirstEnds(ps, gaps);
    hide Lay, Spaced;
    PieceEnds(b, s + |gaps[0]| + |ps[0].text|, ps[0], ps[1..], gaps[1..]);
    t := OneToken(b, s, s + |gaps[0]|, ps[0]);
  }

  lemma FirstEnds(ps: seq<Piece>, gaps: seq<string>)
    requires ps != [] && Spaced(ps, gaps)
    ensures ps[1..] == [] || gaps[1..][0] != "" || Apart(ps[0], ps[1..][0])
  {
    assert |ps| > 1 ==> gaps[1] != "" || Apart(ps[0], ps[1]);
  }

  lemma OneToken(b: string, s: int, q: int, p: Piece) returns (t: Token)
    requires 0 <= s <= q && q + |p.text| <= |b| && Blank(b[s..q])
    requires GoodPiece(p) && b[q..q + |p.text|] == p.text && EndsAt(p, At(b, q + |p.text|))
    ensures Tokens(b, s) == [t] + Tokens(b, q + |p.text|) && Spells(b, [t], [p])
  {
    hide Tokens, TokenAt, WordChar, Skip;
    var e := q + |p.text|;
    PieceToken(b, q, p);
    PieceFront(p);
    assert At(b, q) == b[q..e][0];
    SkipsBlank(b, s, q);
    TokenSkip(b, s);
    t := TokenAt(b, s);
    hide GoodPiece;
    TokensStep(b, s);
    TokensSkip(b, e);
  }

  // ------------------------------------------------------- from tokens to layout

  function PieceOf(b: string, t: Token): Piece {
    Piece(t.kind, Word(b, Span(t.q, t.eq)))
  }

  function PiecesOf(b: string, ts: seq<Token>): seq<Piece> {
    seq(|ts|, i requires 0 <= i < |ts| => PieceOf(b, ts[i]))
  }

  lemma TokenPiece(b: string, s: int)
    requires Within(b, s) && TokenAt(b, s).kind != NUL
    ensures var t := TokenAt(b, s); GoodPiece(PieceOf(b, t)) && EndsAt(PieceOf(b, t), At(b, t.eq))
  {
    var t := TokenAt(b, s);
    if t.kind == 'a' {
      TokenWord(b, s);
      WordText(b, Span(t.q, t.eq));
    } else {
      assert forall i :: t.q <= i < t.eq ==> b[t.q..t.eq][i - t.q] == b[i];
    }
  }

  /** Every text is a layout of its tokens. */
  lemma {:induction false} LaidOut(b: string, s: int) returns (gaps: seq<string>)
    requires Within(b, s) && CString(b)
    ensures var ps := PiecesOf(b, Tokens(b, s)); AllGood(ps) && Spaced(ps, gaps) && b[s..] == Lay(ps, gaps)
    decreases |b| - s
  {
    var t := TokenAt(b, s);
    SkipIsBlank(b, s);
    if t.kind == NUL {
      gaps := [b[s..]];
      assert t.q == |b| && b[s..] == b[s..t.q];
    } else {
      TokenPiece(b, s);
      assert t.next == Skip(b, t.eq);
      hide TokenAt, Tokens, Skip;
      TokensStep(b, s);
      TokensSkip(b, t.eq);
      var more := LaidOut(b, t.eq);
      gaps := LaidMore(b, s, t, Tokens(b, t.eq), more);
    }
  }

  lemma LaidMore(b: string, s: int, t: Token, ts: seq<Token>, more: seq<string>) returns (gaps: seq<string>)
    requires 0 <= s <= t.q <= t.eq <= |b| && Blank(b[s..t.q])
    requires GoodPiece(PieceOf(b, t)) && EndsAt(PieceOf(b, t), At(b, t.eq))
    requires var ps := PiecesOf(b, ts); AllGood(ps) && Spaced(ps, more) && b[t.eq..] == Lay(ps, more)
    ensures var ps := PiecesOf(b, [t] + ts); AllGood(ps) && Spaced(ps, gaps) && b[s..] == Lay(ps, gaps)
  {
    var p, ps := PieceOf(b, t), PiecesOf(b, ts);
    PieceEnds(b, t.eq, p, ps, more);
    gaps := [b[s..t.q]] + more;
    assert PiecesOf(b, [t] + ts) == [p] + ps;
    SpacedMore(p, ps, b[s..t.q], more);
    hide Spaced, GoodPiece;
    assert ([p] + ps)[1..] == ps && gaps[1..] == more;
    assert b[s..] == b[s..t.q] + b[t.q..t.eq] + b[t.eq..];
  }

  lemma SamePieces(b: string, ts: seq<Token>, ps: seq<Piece>)
    requires Spells(b, ts, ps) && AllGood(ps) && AllGood(PiecesOf(b, ts))
    ensures PiecesOf(b, ts) == ps
  {
    var qs := PiecesOf(b, ts);
    forall i | 0 <= i < |ps|
      ensures qs[i] == ps[i]
    {
      assert GoodPiece(qs[i]) && GoodPiece(ps[i]);
    }
  }

  /** The texts whose tokens are ps are exactly the layouts of ps. */
  lemma TokensIff(b: string, ps: seq<Piece>)
    requires CString(b) && AllGood(ps)
    ensures Spells(b, Tokens(b, 0), ps) <==> exists gaps :: Spaced(ps, gaps) && b == Lay(ps, gaps)
  {
    assert b[0..] == b;
    if Spells(b, Tokens(b, 0), ps) {
      var gaps := LaidOut(b, 0);
      SamePieces(b, Tokens(b, 0), ps);
    }
    if gaps :| Spaced(ps, gaps) && b == Lay(ps, gaps) {
      Lexes(b, 0, ps, gaps);
    }
  }
}
