/** sh.c: the parser as it runs, over positions in the buffer.

    *ps is the position s that each method takes and returns; es is |b|.  Every method is
    shown to return what the grammar says of the tokens from s on. */
module Shell {
  import opened CStrings
  import opened ShellSyntax
  import opened ShellTree
  import opened ShellLexing
  import opened ShellForms

  datatype Outcome = Done(cmd: Cmd, pos: int) | Died

  /** r is the result x of the grammar, the tokens left being those from r.pos on. */
  ghost predicate Agrees(b: string, s: int, r: Outcome, x: Result) {
    match r
    case Died => x.Panic?
    case Done(c, pos) => s <= pos && Within(b, pos) && x == Ok(c, Tokens(b, pos))
  }

  // ----------------------------------------------------- positions and tokens

  /** What peek sees decides the kind of the next token. */
  lemma KindAt(b: string, s: int)
    requires Within(b, s)
    ensures var c, k := At(b, Skip(b, s)), Kind(Tokens(b, s));
            && (k == NUL <==> c == NUL)
            && (IsArrow(k) <==> c == '<' || c == '>')
            && (c == '|' || c == '&' || c == ';' || c == '(' || c == ')' ==> k == c)
            && (k == '|' || k == '&' || k == ';' || k == '(' || k == ')' ==> c == k)
  {
  }

  /** gettoken moves one token on. */
  lemma TokensNext(b: string, s: int)
    requires Within(b, s)
    ensures var t, ts := TokenAt(b, s), Tokens(b, s);
            && t.kind == Kind(ts)
            && (ts != [] ==> ts[0] == t && ts[1..] == Tokens(b, t.next) && s < t.next)
            && (ts == [] ==> Tokens(b, t.next) == [])
  {
  }

  method GetToken(b: string, s: int) returns (t: Token)
    requires CString(b) && Within(b, s)
    ensures t == TokenAt(b, s)
  {
    var p := SkipWhite(b, s);
    var q := p;
    var ret := At(b, p);
    if ret == NUL {
    } else if ret == '|' || ret == '(' || ret == ')' || ret == ';' || ret == '&' || ret == '<' {
      p := p + 1;
    } else if ret == '>' {
      p := p + 1;
      if At(b, p) == '>' {
        ret := '+';
        p := p + 1;
      }
    } else {
      ret := 'a';
      while p < |b| && !White(b[p]) && !Symbol(b[p])
        invariant q <= p <= |b| && WordEnd(b, p) == WordEnd(b, q)
      {
        p := p + 1;
      }
    }
    var eq := p;
    p := SkipWhite(b, p);
    t := Token(ret, q, eq, p);
  }

  /** The loop over white space in gettoken and peek. */
  method SkipWhite(b: string, s: int) returns (p: int)
    requires Within(b, s)
    ensures p == Skip(b, s)
  {
    p := s;
    while p < |b| && White(b[p])
      invariant s <= p <= |b| && Skip(b, p) == Skip(b, s)
    {
      p := p + 1;
    }
  }

  method Peek(b: string, s: int, toks: string) returns (found: bool, p: int)
    requires Within(b, s)
    ensures p == Skip(b, s) && Tokens(b, p) == Tokens(b, s)
    ensures found <==> At(b, p) != NUL && At(b, p) in toks
  {
    p := SkipWhite(b, s);
    TokensSkip(b, s);
    found := At(b, p) != NUL && At(b, p) in toks;
  }

  // ------------------------------------------------------------------- parsing

  method ParseRedirs(b: string, cmd: Cmd, s: int) returns (r: Outcome)
    requires CString(b) && Within(b, s)
    ensures Agrees(b, s, r, Redirs(cmd, Tokens(b, s)))
  {
    var c, p := cmd, s;
    while true
      invariant s <= p <= |b| && Redirs(c, Tokens(b, p)) == Redirs(cmd, Tokens(b, s))
      decreases |b| - p
    {
      var more, p1 := Peek(b, p, "<>");
      KindAt(b, p);
      if !more {
        return Done(c, p1);
      }
      TokensNext(b, p1);
      var t := GetToken(b, p1);
      TokensNext(b, t.next);
      var f := GetToken(b, t.next);
      if f.kind != 'a' {
        return Died;
      }
      assert Tokens(b, p1)[2..] == Tokens(b, p1)[1..][1..];
      c := if t.kind == '<' then Redir(c, Span(f.q, f.eq), O_RDONLY, 0)
           else Redir(c, Span(f.q, f.eq), O_WRONLY + O_CREATE, 1);
      p := f.next;
    }
  }

  /** The loop of parseexec. */
  method ParseArgs(b: string, cmd: Cmd, s: int) returns (r: Outcome)
    requires CString(b) && Within(b, s)
    ensures Agrees(b, s, r, Args(cmd, 0, Tokens(b, s)))
  {
    var argc, more := 0, true;
    r := Done(cmd, s);
    while more
      invariant more ==>
                  && r.Done? && s <= r.pos <= |b|
                  && Args(r.cmd, argc, Tokens(b, r.pos)) == Args(cmd, 0, Tokens(b, s))
      invariant !more ==> Agrees(b, s, r, Args(cmd, 0, Tokens(b, s)))
      decreases more, if more then |b| - r.pos else 0
    {
      r, more := ParseArg(b, r.cmd, argc, r.pos);
      argc := argc + 1;
    }
  }

  /** One turn of it: more says whether to go on. */
  method ParseArg(b: string, cmd: Cmd, argc: int, s: int) returns (r: Outcome, more: bool)
    requires CString(b) && Within(b, s)
    ensures !more ==> Agrees(b, s, r, Args(cmd, argc, Tokens(b, s)))
    ensures more ==>
              && r.Done? && s < r.pos <= |b|
              && Args(r.cmd, argc + 1, Tokens(b, r.pos)) == Args(cmd, argc, Tokens(b, s))
  {
    var done, p := Peek(b, s, "|)&;");
    KindAt(b, s);
    if done {
      return Done(cmd, p), false;
    }
    TokensNext(b, p);
    var t := GetToken(b, p);
    if t.kind == NUL {
      return Done(cmd, t.next), false;
    }
    if t.kind != 'a' || argc + 1 >= MAXARGS {
      return Died, false;
    }
    ArgsTakesOne(cmd, argc, Tokens(b, p));
    r := ParseRedirs(b, AddWord(cmd, Span(t.q, t.eq)), t.next);
    more := r.Done?;
  }

  lemma ArgsTakesOne(c: Cmd, argc: int, ts: seq<Token>)
    requires Kind(ts) == 'a' && argc + 1 < MAXARGS
    ensures var r := Redirs(AddWord(c, Span(ts[0].q, ts[0].eq)), ts[1..]);
            Args(c, argc, ts) == if r.Panic? then Panic else Args(r.cmd, argc + 1, r.rest)
  {
  }

  method ParseExec(b: string, s: int) returns (r: Outcome)
    requires CString(b) && Within(b, s)
    ensures Agrees(b, s, r, Command(Tokens(b, s)))
    decreases |b| - s, 1
  {
    var block, p := Peek(b, s, "(");
    KindAt(b, s);
    if block {
      r := ParseBlock(b, p);
      return;
    }
    var o := ParseRedirs(b, Exec([]), p);
    if o.Died? {
      return Died;
    }
    r := ParseArgs(b, o.cmd, o.pos);
  }

  method ParseBlock(b: string, s: int) returns (r: Outcome)
    requires CString(b) && Within(b, s) && Kind(Tokens(b, s)) == '('
    ensures Agrees(b, s, r, Command(Tokens(b, s)))
    decreases |b| - s, 0
  {
    TokensNext(b, s);
    var t := GetToken(b, s);
    var o := ParseLine(b, t.next);
    if o.Died? {
      return Died;
    }
    var close, p := Peek(b, o.pos, ")");
    KindAt(b, o.pos);
    if !close {
      return Died;
    }
    TokensNext(b, p);
    var u := GetToken(b, p);
    r := ParseRedirs(b, o.cmd, u.next);
  }

  method ParsePipe(b: string, s: int) returns (r: Outcome)
    requires CString(b) && Within(b, s)
    ensures Agrees(b, s, r, Pipeline(Tokens(b, s)))
    decreases |b| - s, 2
  {
    var l := ParseExec(b, s);
    if l.Died? {
      return Died;
    }
    var more, p := Peek(b, l.pos, "|");
    KindAt(b, l.pos);
    if !more {
      return Done(l.cmd, p);
    }
    TokensNext(b, p);
    var t := GetToken(b, p);
    var o := ParsePipe(b, t.next);
    r := if o.Died? then Died else Done(Pipe(l.cmd, o.cmd), o.pos);
  }

  method ParseLine(b: string, s: int) returns (r: Outcome)
    requires CString(b) && Within(b, s)
    ensures Agrees(b, s, r, Line(Tokens(b, s)))
    decreases |b| - s, 3
  {
    var l := ParsePipe(b, s);
    if l.Died? {
      return Died;
    }
    var c, p := ParseBacks(b, l.cmd, l.pos);
    var more, p1 := Peek(b, p, ";");
    KindAt(b, p);
    if !more {
      return Done(c, p1);
    }
    TokensNext(b, p1);
    var t := GetToken(b, p1);
    var o := ParseLine(b, t.next);
    r := if o.Died? then Died else Done(List(c, o.cmd), o.pos);
  }

  /** The loop of parseline. */
  method ParseBacks(b: string, cmd: Cmd, s: int) returns (c: Cmd, p: int)
    requires CString(b) && Within(b, s)
    ensures Agrees(b, s, Done(c, p), Backs(cmd, Tokens(b, s)))
  {
    c, p := cmd, s;
    while true
      invariant s <= p <= |b| && Backs(c, Tokens(b, p)) == Backs(cmd, Tokens(b, s))
      decreases |b| - p
    {
      var more, p1 := Peek(b, p, "&");
      KindAt(b, p);
      if !more {
        p := p1;
        return;
      }
      TokensNext(b, p1);
      var t := GetToken(b, p1);
      c, p := Back(c), t.next;
    }
  }

  // ------------------------------------------------------------ nulterminate

  /** The positions that nulterminate clears. */
  ghost function Ends(c: Cmd): set<int> {
    match c
    case Exec(argv) => EndsOf(argv, |argv|)
    case Redir(d, file, mode, fd) => Ends(d) + {file.eq}
    case Pipe(l, r) => Ends(l) + Ends(r)
    case List(l, r) => Ends(l) + Ends(r)
    case Back(d) => Ends(d)
  }

  ghost function EndsOf(argv: seq<Span>, n: int): set<int>
    requires 0 <= n <= |argv|
  {
    if n == 0 then {} else EndsOf(argv, n - 1) + {argv[n - 1].eq}
  }

  /** x with a NUL at every position of ends. */
  ghost predicate Cut(x: seq<char>, y: seq<char>, ends: set<int>) {
    |y| == |x| && forall i :: 0 <= i < |x| ==> y[i] == if i in ends then NUL else x[i]
  }

  lemma CutTwice(x: seq<char>, y: seq<char>, z: seq<char>, e: set<int>, f: set<int>)
    requires Cut(x, y, e) && Cut(y, z, f)
    ensures Cut(x, z, e + f)
  {
  }

  /** Where a word can end: on the final NUL, or on a character that is not part of a word. */
  ghost predicate Stop(b: string, p: int) {
    Within(b, p) && !WordChar(At(b, p))
  }

  lemma {:induction false} EndsStop(b: string, c: Cmd, p: int)
    requires WfCmd(b, c) && p in Ends(c)
    ensures Stop(b, p)
  {
    match c
    case Exec(argv) => EndsOfStop(b, argv, |argv|, p);
    case Redir(d, file, mode, fd) => if p in Ends(d) { EndsStop(b, d, p); }
    case Pipe(l, r) => if p in Ends(l) { EndsStop(b, l, p); } else { EndsStop(b, r, p); }
    case List(l, r) => if p in Ends(l) { EndsStop(b, l, p); } else { EndsStop(b, r, p); }
    case Back(d) => EndsStop(b, d, p);
  }

  lemma {:induction false} EndsOfStop(b: string, argv: seq<Span>, n: int, p: int)
    requires 0 <= n <= |argv| && p in EndsOf(argv, n) && forall i :: 0 <= i < |argv| ==> IsWord(b, argv[i])
    ensures Stop(b, p)
  {
    if p in EndsOf(argv, n - 1) {
      EndsOfStop(b, argv, n - 1, p);
    } else {
      assert IsWord(b, argv[n - 1]);
    }
  }

  lemma {:induction false} EndsOfHas(argv: seq<Span>, n: int, i: int)
    requires 0 <= i < n <= |argv|
    ensures argv[i].eq in EndsOf(argv, n)
  {
    if i < n - 1 {
      EndsOfHas(argv, n - 1, i);
    }
  }

  method NulTerminate(buf: array<char>, c: Cmd, ghost b: string)
    requires WfCmd(b, c) && buf.Length == |b| + 1
    modifies buf
    ensures Cut(old(buf[..]), buf[..], Ends(c))
    decreases c
  {
    match c
    case Exec(argv) => TerminateArgs(buf, argv, b);
    case Redir(d, file, mode, fd) =>
      NulTerminate(buf, d, b);
      buf[file.eq] := NUL;
    case Pipe(l, r) =>
      NulTerminate(buf, l, b);
      ghost var y := buf[..];
      NulTerminate(buf, r, b);
      CutTwice(old(buf[..]), y, buf[..], Ends(l), Ends(r));
    case List(l, r) =>
      NulTerminate(buf, l, b);
      ghost var y := buf[..];
      NulTerminate(buf, r, b);
      CutTwice(old(buf[..]), y, buf[..], Ends(l), Ends(r));
    case Back(d) => NulTerminate(buf, d, b);
  }

  method TerminateArgs(buf: array<char>, argv: seq<Span>, ghost b: string)
    requires buf.Length == |b| + 1 && forall i :: 0 <= i < |argv| ==> IsWord(b, argv[i])
    modifies buf
    ensures Cut(old(buf[..]), buf[..], EndsOf(argv, |argv|))
  {
    var i := 0;
    while i < |argv|
      invariant 0 <= i <= |argv| && Cut(old(buf[..]), buf[..], EndsOf(argv, i))
    {
      assert IsWord(b, argv[i]);
      buf[argv[i].eq] := NUL;
      i := i + 1;
    }
  }

  /** The string that a C pointer to position q reads as. */
  function CStr(x: seq<char>, q: int): string
    decreases |x| - q
  {
    if 0 <= q < |x| && x[q] != NUL then [x[q]] + CStr(x, q + 1) else ""
  }

  function CStrs(x: seq<char>, ws: seq<Span>): seq<string> {
    seq(|ws|, i requires 0 <= i < |ws| => CStr(x, ws[i].q))
  }

  /** The tree as runcmd sees it, through its argv and file pointers. */
  function ReadTree(x: seq<char>, c: Cmd): Tree {
    match c
    case Exec(argv) => TExec(CStrs(x, argv))
    case Redir(d, file, mode, fd) => TRedir(ReadTree(x, d), CStr(x, file.q), mode, fd)
    case Pipe(l, r) => TPipe(ReadTree(x, l), ReadTree(x, r))
    case List(l, r) => TList(ReadTree(x, l), ReadTree(x, r))
    case Back(d) => TBack(ReadTree(x, d))
  }

  /** y is the buffer of b with NULs written where words stop, at all of ends. */
  ghost predicate Terminated(b: string, y: seq<char>, ends: set<int>) {
    Cut(b + [NUL], y, ends) && forall p :: p in ends ==> Stop(b, p)
  }

  lemma {:induction false} ReadsFrom(b: string, y: seq<char>, ends: set<int>, w: Span, q: int)
    requires Terminated(b, y, ends) && IsWord(b, w) && w.eq in ends && w.q <= q <= w.eq
    ensures CStr(y, q) == b[q..w.eq]
    decreases w.eq - q
  {
    if q < w.eq {
      assert WordChar(At(b, q));
      ReadsFrom(b, y, ends, w, q + 1);
      assert b[q..w.eq] == [b[q]] + b[q + 1..w.eq];
    }
  }

  /** Every argv and file pointer reads as exactly its token: no NUL falls inside a word. */
  lemma {:induction false} ReadsBack(b: string, c: Cmd, y: seq<char>, ends: set<int>)
    requires WfCmd(b, c) && Terminated(b, y, ends) && Ends(c) <= ends
    ensures ReadTree(y, c) == Text(b, c)
  {
    match c
    case Exec(argv) =>
      forall i | 0 <= i < |argv|
        ensures CStr(y, argv[i].q) == Word(b, argv[i])
      {
        EndsOfHas(argv, |argv|, i);
        ReadsFrom(b, y, ends, argv[i], argv[i].q);
      }
      assert CStrs(y, argv) == Words(b, argv);
    case Redir(d, file, mode, fd) =>
      ReadsBack(b, d, y, ends);
      ReadsFrom(b, y, ends, file, file.q);
    case Pipe(l, r) => ReadsBack(b, l, y, ends); ReadsBack(b, r, y, ends);
    case List(l, r) => ReadsBack(b, l, y, ends); ReadsBack(b, r, y, ends);
    case Back(d) => ReadsBack(b, d, y, ends);
  }

  /** parsecmd: parses the line in buf and cuts it into the strings of the tree. */
  method ParseCmd(buf: array<char>) returns (r: Outcome)
    requires buf.Length > 0 && buf[buf.Length - 1] == NUL && CString(buf[..buf.Length - 1])
    modifies buf
    ensures var x := Parse(old(buf[..buf.Length - 1]));
            if x.Panic? then r == Died && buf[..] == old(buf[..])
            else r.Done? && r.cmd == x.cmd && ReadTree(buf[..], r.cmd) == Text(old(buf[..buf.Length - 1]), x.cmd)
    // the lines accepted are those of the shell's language, and each becomes the tree that it means
    ensures if r.Done? then Denotes(old(buf[..buf.Length - 1]), ReadTree(buf[..], r.cmd))
            else NoMeaning(old(buf[..buf.Length - 1]))
  {
    var es := buf.Length - 1;
    var b := buf[..es];
    Language(b);
    r := ParseLine(b, 0);
    if r.Died? {
      return;
    }
    var found, s := Peek(b, r.pos, "");
    KindAt(b, r.pos);
    if s != es {
      return Died;
    }
    ParseWf(b);
    assert buf[..] == b + [NUL];
    NulTerminate(buf, r.cmd, b);
    Cutting(b, r.cmd, buf[..]);
    ReadsBack(b, r.cmd, buf[..], Ends(r.cmd));
  }

  ghost predicate NoMeaning(b: string) {
    forall t :: !Denotes(b, t)
  }

  lemma Language(b: string)
    requires CString(b)
    ensures if Parse(b).Ok? then Denotes(b, Text(b, Parse(b).cmd)) else NoMeaning(b)
  {
    hide Parse, Denotes;
    forall t
      ensures Denotes(b, t) <==> Parse(b).Ok? && Text(b, Parse(b).cmd) == t
    {
      ParseIff(b, t);
    }
  }

  lemma Cutting(b: string, c: Cmd, y: seq<char>)
    requires WfCmd(b, c) && Cut(b + [NUL], y, Ends(c))
    ensures Terminated(b, y, Ends(c))
  {
    forall p | p in Ends(c)
      ensures Stop(b, p)
    {
      EndsStop(b, c, p);
    }
  }
}
