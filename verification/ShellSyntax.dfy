/** sh.c: tokens, and the grammar that the parser's functions follow.

    b is the command line without its final NUL; a position is an index into b, and reading
    at |b| gives the NUL.  The grammar works on the tokens still to come; the mutual
    recursion ends because every turn consumes one. */
module ShellSyntax {
  import opened CStrings

  const MAXARGS: int := 10
  const O_RDONLY: int := 0
  const O_WRONLY: int := 1
  const O_CREATE: int := 0x200

  /** A word in the buffer: where it starts and the position after it. */
  datatype Span = Span(q: int, eq: int)

  /** A command tree, its words still positions in the buffer. */
  datatype Cmd =
    | Exec(argv: seq<Span>)
    | Redir(cmd: Cmd, file: Span, mode: int, fd: int)
    | Pipe(left: Cmd, right: Cmd)
    | List(left: Cmd, right: Cmd)
    | Back(cmd: Cmd)

  datatype Token = Token(kind: char, q: int, eq: int, next: int)

  /** A tree and the tokens after it, or one of the parser's panics. */
  datatype Result = Ok(cmd: Cmd, rest: seq<Token>) | Panic

  predicate White(c: char) {
    c == ' ' || c == '\t' || c == '\r' || c == '\n' || c == '\U{0B}'
  }

  predicate Symbol(c: char) {
    c == '<' || c == '|' || c == '>' || c == '&' || c == ';' || c == '(' || c == ')'
  }

  predicate WordChar(c: char) {
    c != NUL && !White(c) && !Symbol(c)
  }

  predicate Within(b: string, s: int) {
    0 <= s <= |b|
  }

  // --------------------------------------------------------------------- tokens

  /** The first position from s on that is not white space. */
  function Skip(b: string, s: int): (r: int)
    requires Within(b, s)
    ensures s <= r <= |b| && !White(At(b, r))
    decreases |b| - s
  {
    if s < |b| && White(b[s]) then Skip(b, s + 1) else s
  }

  /** The first position from s on that does not belong to a word. */
  function WordEnd(b: string, s: int): (r: int)
    requires Within(b, s)
    ensures s <= r <= |b| && !WordChar(At(b, r))
    decreases |b| - s
  {
    if s < |b| && WordChar(b[s]) then WordEnd(b, s + 1) else s
  }

  lemma {:induction false} WordRun(b: string, s: int)
    requires Within(b, s)
    ensures forall i :: s <= i < WordEnd(b, s) ==> WordChar(At(b, i))
    decreases |b| - s
  {
    if s < |b| && WordChar(b[s]) {
      WordRun(b, s + 1);
    }
  }

  /** b[q..eq] is a whole word. */
  ghost predicate IsWord(b: string, w: Span) {
    && 0 <= w.q < w.eq <= |b|
    && (forall i :: w.q <= i < w.eq ==> WordChar(At(b, i)))
    && !WordChar(At(b, w.eq))
  }

  /** gettoken: '+' stands for >> and 'a' for a word. */
  function TokenAt(b: string, s: int): (t: Token)
    requires Within(b, s)
    ensures s <= t.q <= t.eq <= t.next <= |b| && t.q == Skip(b, s)
    ensures At(b, t.q) != NUL ==> t.q < t.eq && t.kind != NUL
    ensures At(b, t.q) == NUL ==> t.kind == NUL
  {
    var q := Skip(b, s);
    var c := At(b, q);
    if c == NUL then Token(NUL, q, q, Skip(b, q))
    else if c == '>' then
      if At(b, q + 1) == '>' then Token('+', q, q + 2, Skip(b, q + 2)) else Token('>', q, q + 1, Skip(b, q + 1))
    else if Symbol(c) then Token(c, q, q + 1, Skip(b, q + 1))
    else
      var e := WordEnd(b, q);
      Token('a', q, e, Skip(b, e))
  }

  lemma TokenWord(b: string, s: int)
    requires Within(b, s) && TokenAt(b, s).kind == 'a'
    ensures var t := TokenAt(b, s); IsWord(b, Span(t.q, t.eq))
  {
    WordRun(b, Skip(b, s));
  }

  /** All the tokens from s on. */
  function Tokens(b: string, s: int): seq<Token>
    requires Within(b, s)
    decreases |b| - s
  {
    var t := TokenAt(b, s);
    if t.kind == NUL then [] else [t] + Tokens(b, t.next)
  }

  /** Every word among the tokens is a whole word of the buffer. */
  ghost predicate Lexed(b: string, ts: seq<Token>) {
    forall i :: 0 <= i < |ts| && ts[i].kind == 'a' ==> IsWord(b, Span(ts[i].q, ts[i].eq))
  }

  lemma {:induction false} TokensLexed(b: string, s: int)
    requires Within(b, s)
    ensures Lexed(b, Tokens(b, s))
    decreases |b| - s
  {
    var t := TokenAt(b, s);
    if t.kind != NUL {
      if t.kind == 'a' {
        TokenWord(b, s);
      }
      TokensLexed(b, t.next);
    }
  }

  // -------------------------------------------------------------------- grammar

  function Kind(ts: seq<Token>): char {
    if ts == [] then NUL else ts[0].kind
  }

  predicate IsArrow(kind: char) {
    kind == '<' || kind == '>' || kind == '+'
  }

  function Mode(kind: char): int {
    if kind == '<' then O_RDONLY else O_WRONLY + O_CREATE
  }

  function Fd(kind: char): int {
    if kind == '<' then 0 else 1
  }

  /** parseredirs. */
  function Redirs(c: Cmd, ts: seq<Token>): (r: Result)
    ensures r.Ok? ==> |r.rest| <= |ts|
    decreases |ts|
  {
    if !IsArrow(Kind(ts)) then Ok(c, ts)
    else if Kind(ts[1..]) != 'a' then Panic
    else Redirs(Redir(c, Span(ts[1].q, ts[1].eq), Mode(ts[0].kind), Fd(ts[0].kind)), ts[2..])
  }

  /** One more argument for the EXEC node under the redirections. */
  function AddWord(c: Cmd, w: Span): Cmd {
    match c
    case Exec(argv) => Exec(argv + [w])
    case Redir(d, file, mode, fd) => Redir(AddWord(d, w), file, mode, fd)
    case _ => c
  }

  /** What ends the loop of parseexec. */
  predicate EndsArgs(kind: char) {
    kind == '|' || kind == ')' || kind == '&' || kind == ';' || kind == NUL
  }

  /** The loop of parseexec, argc words in. */
  function Args(c: Cmd, argc: int, ts: seq<Token>): (r: Result)
    ensures r.Ok? ==> |r.rest| <= |ts|
    decreases |ts|
  {
    if EndsArgs(Kind(ts)) then Ok(c, ts)
    else if Kind(ts) != 'a' || argc + 1 >= MAXARGS then Panic
    else
      var r := Redirs(AddWord(c, Span(ts[0].q, ts[0].eq)), ts[1..]);
      if r.Panic? then Panic else Args(r.cmd, argc + 1, r.rest)
  }

  /** parseexec without a parenthesis. */
  function Simple(ts: seq<Token>): (r: Result)
    ensures r.Ok? ==> |r.rest| <= |ts|
  {
    var r := Redirs(Exec([]), ts);
    if r.Panic? then Panic else Args(r.cmd, 0, r.rest)
  }

  /** parseexec, with parseblock at an opening parenthesis. */
  function Command(ts: seq<Token>): (r: Result)
    ensures r.Ok? ==> |r.rest| <= |ts|
    decreases |ts|, 0
  {
    if Kind(ts) != '(' then Simple(ts)
    else
      var r := Line(ts[1..]);
      if r.Panic? || Kind(r.rest) != ')' then Panic else Redirs(r.cmd, r.rest[1..])
  }

  /** parsepipe. */
  function Pipeline(ts: seq<Token>): (r: Result)
    ensures r.Ok? ==> |r.rest| <= |ts|
    decreases |ts|, 1
  {
    var l := Command(ts);
    if l.Panic? || Kind(l.rest) != '|' then l
    else
      var r := Pipeline(l.rest[1..]);
      if r.Panic? then Panic else Ok(Pipe(l.cmd, r.cmd), r.rest)
  }

  /** The loop of parseline: one BACK node for every ampersand. */
  function Backs(c: Cmd, ts: seq<Token>): (r: Result)
    ensures r.Ok? && |r.rest| <= |ts|
    decreases |ts|
  {
    if Kind(ts) != '&' then Ok(c, ts) else Backs(Back(c), ts[1..])
  }

  /** parseline. */
  function Line(ts: seq<Token>): (r: Result)
    ensures r.Ok? ==> |r.rest| <= |ts|
    decreases |ts|, 2
  {
    var l := Pipeline(ts);
    if l.Panic? then Panic
    else
      var m := Backs(l.cmd, l.rest);
      if Kind(m.rest) != ';' then m
      else
        var r := Line(m.rest[1..]);
        if r.Panic? then Panic else Ok(List(m.cmd, r.cmd), r.rest)
  }

  /** parsecmd, up to its call of nulterminate. */
  function Parse(b: string): (r: Result) {
    var r := Line(Tokens(b, 0));
    if r.Panic? || r.rest != [] then Panic else r
  }

  // ------------------------------------------------------------------ what comes out

  /** Modes that a redirection can have. */
  predicate GoodMode(mode: int, fd: int) {
    (mode == O_RDONLY && fd == 0) || (mode == O_WRONLY + O_CREATE && fd == 1)
  }

  /** Every word of the tree is a whole word of the buffer, and no EXEC has too many. */
  ghost predicate WfCmd(b: string, c: Cmd) {
    match c
    case Exec(argv) => |argv| < MAXARGS && forall i :: 0 <= i < |argv| ==> IsWord(b, argv[i])
    case Redir(d, file, mode, fd) => WfCmd(b, d) && IsWord(b, file) && GoodMode(mode, fd)
    case Pipe(l, r) => WfCmd(b, l) && WfCmd(b, r)
    case List(l, r) => WfCmd(b, l) && WfCmd(b, r)
    case Back(d) => WfCmd(b, d)
  }

  /** c is an EXEC of n words under redirections, and is well formed. */
  ghost predicate SimpleOf(b: string, c: Cmd, n: int) {
    match c
    case Exec(argv) => |argv| == n && WfCmd(b, c)
    case Redir(d, file, mode, fd) => SimpleOf(b, d, n) && IsWord(b, file) && GoodMode(mode, fd)
    case _ => false
  }

  lemma {:induction false} SimpleOfWf(b: string, c: Cmd, n: int)
    requires SimpleOf(b, c, n)
    ensures WfCmd(b, c)
  {
    if c.Redir? {
      SimpleOfWf(b, c.cmd, n);
    }
  }

  lemma {:induction false} AddWordWf(b: string, c: Cmd, n: int, w: Span)
    requires SimpleOf(b, c, n) && IsWord(b, w) && n + 1 < MAXARGS
    ensures SimpleOf(b, AddWord(c, w), n + 1)
  {
    if c.Redir? {
      AddWordWf(b, c.cmd, n, w);
    }
  }

  /** What a parse of ts leaves is well formed, and so are the tokens it leaves. */
  ghost predicate Good(b: string, r: Result) {
    r.Ok? ==> WfCmd(b, r.cmd) && Lexed(b, r.rest)
  }

  lemma {:induction false} RedirsWf(b: string, c: Cmd, ts: seq<Token>)
    requires WfCmd(b, c) && Lexed(b, ts)
    ensures Good(b, Redirs(c, ts))
    decreases |ts|
  {
    if IsArrow(Kind(ts)) && Kind(ts[1..]) == 'a' {
      RedirsWf(b, Redir(c, Span(ts[1].q, ts[1].eq), Mode(ts[0].kind), Fd(ts[0].kind)), ts[2..]);
    }
  }

  lemma {:induction false} RedirsSimple(b: string, c: Cmd, n: int, ts: seq<Token>)
    requires SimpleOf(b, c, n) && Lexed(b, ts)
    ensures var r := Redirs(c, ts); r.Ok? ==> SimpleOf(b, r.cmd, n) && Lexed(b, r.rest)
    decreases |ts|
  {
    if IsArrow(Kind(ts)) && Kind(ts[1..]) == 'a' {
      RedirsSimple(b, Redir(c, Span(ts[1].q, ts[1].eq), Mode(ts[0].kind), Fd(ts[0].kind)), n, ts[2..]);
    }
  }

  lemma {:induction false} ArgsWf(b: string, c: Cmd, argc: int, ts: seq<Token>)
    requires SimpleOf(b, c, argc) && Lexed(b, ts)
    ensures Good(b, Args(c, argc, ts))
    decreases |ts|
  {
    SimpleOfWf(b, c, argc);
    if Kind(ts) == 'a' && argc + 1 < MAXARGS {
      var w := Span(ts[0].q, ts[0].eq);
      AddWordWf(b, c, argc, w);
      RedirsSimple(b, AddWord(c, w), argc + 1, ts[1..]);
      var r := Redirs(AddWord(c, w), ts[1..]);
      if r.Ok? {
        ArgsWf(b, r.cmd, argc + 1, r.rest);
      }
    }
  }

  lemma SimpleWf(b: string, ts: seq<Token>)
    requires Lexed(b, ts)
    ensures Good(b, Simple(ts))
  {
    RedirsSimple(b, Exec([]), 0, ts);
    var r := Redirs(Exec([]), ts);
    if r.Ok? {
      ArgsWf(b, r.cmd, 0, r.rest);
    }
  }

  lemma {:induction false} CommandWf(b: string, ts: seq<Token>)
    requires Lexed(b, ts)
    ensures Good(b, Command(ts))
    decreases |ts|, 0
  {
    if Kind(ts) != '(' {
      SimpleWf(b, ts);
    } else {
      LineWf(b, ts[1..]);
      var r := Line(ts[1..]);
      if r.Ok? && Kind(r.rest) == ')' {
        RedirsWf(b, r.cmd, r.rest[1..]);
      }
    }
  }

  lemma {:induction false} PipelineWf(b: string, ts: seq<Token>)
    requires Lexed(b, ts)
    ensures Good(b, Pipeline(ts))
    decreases |ts|, 1
  {
    CommandWf(b, ts);
    var l := Command(ts);
    if l.Ok? && Kind(l.rest) == '|' {
      PipelineWf(b, l.rest[1..]);
    }
  }

  lemma {:induction false} BacksWf(b: string, c: Cmd, ts: seq<Token>)
    requires WfCmd(b, c) && Lexed(b, ts)
    ensures Good(b, Backs(c, ts))
    decreases |ts|
  {
    if Kind(ts) == '&' {
      BacksWf(b, Back(c), ts[1..]);
    }
  }

  lemma {:induction false} LineWf(b: string, ts: seq<Token>)
    requires Lexed(b, ts)
    ensures Good(b, Line(ts))
    decreases |ts|, 2
  {
    PipelineWf(b, ts);
    var l := Pipeline(ts);
    if l.Ok? {
      BacksWf(b, l.cmd, l.rest);
      var m := Backs(l.cmd, l.rest);
      if Kind(m.rest) == ';' {
        LineWf(b, m.rest[1..]);
      }
    }
  }

  /** Whatever the parser accepts is well formed. */
  lemma ParseWf(b: string)
    requires Parse(b).Ok?
    ensures WfCmd(b, Parse(b).cmd)
  {
    TokensLexed(b, 0);
    LineWf(b, Tokens(b, 0));
  }
}
