/** sh.c: what parseexec and parseredirs make of a list of tokens, said of the list as a whole
    and without the parser. */
module ShellSimple {
  import opened CStrings
  import opened ShellSyntax

  datatype Redirection = Redirection(file: Span, mode: int, fd: int)

  function SpanOf(t: Token): Span {
    Span(t.q, t.eq)
  }

  function KindOf(ts: seq<Token>, n: nat): char {
    if n < |ts| then ts[n].kind else NUL
  }

  /** The arguments among the first n tokens: the words that no arrow precedes. */
  function ArgWords(ts: seq<Token>, n: nat): seq<Span>
    requires n <= |ts|
  {
    if n == 0 then []
    else if ts[n - 1].kind == 'a' && (n == 1 || !IsArrow(ts[n - 2].kind)) then ArgWords(ts, n - 1) + [SpanOf(ts[n - 1])]
    else ArgWords(ts, n - 1)
  }

  function Into(arrow: char, file: Span): Redirection {
    if arrow == '<' then Redirection(file, O_RDONLY, 0) else Redirection(file, O_WRONLY + O_CREATE, 1)
  }

  /** The redirections among the first n tokens: every arrow with the word after it. */
  function Redirections(ts: seq<Token>, n: nat): seq<Redirection>
    requires n <= |ts|
  {
    if n == 0 then []
    else if n >= 2 && IsArrow(ts[n - 2].kind) then Redirections(ts, n - 1) + [Into(ts[n - 2].kind, SpanOf(ts[n - 1]))]
    else Redirections(ts, n - 1)
  }

  /** The first n tokens are words and arrows, with a word after every arrow. */
  ghost predicate Complete(ts: seq<Token>, n: nat)
    requires n <= |ts|
  {
    && (forall i :: 0 <= i < n ==> ts[i].kind == 'a' || IsArrow(ts[i].kind))
    && (forall i, j :: 0 <= i < j < n && j == i + 1 && IsArrow(ts[i].kind) ==> ts[j].kind == 'a')
    && (n > 0 ==> !IsArrow(ts[n - 1].kind))
  }

  /** base under the redirections rs, the first innermost. */
  function Build(base: Cmd, rs: seq<Redirection>): Cmd {
    if rs == [] then base
    else
      var r := rs[|rs| - 1];
      Redir(Build(base, rs[..|rs| - 1]), r.file, r.mode, r.fd)
  }

  lemma BuildMore(base: Cmd, rs: seq<Redirection>, r: Redirection)
    ensures Build(base, rs + [r]) == Redir(Build(base, rs), r.file, r.mode, r.fd)
  {
    assert (rs + [r])[..|rs|] == rs;
  }

  lemma {:induction false} BuildAddWord(argv: seq<Span>, rs: seq<Redirection>, w: Span)
    ensures AddWord(Build(Exec(argv), rs), w) == Build(Exec(argv + [w]), rs)
  {
    if rs != [] {
      BuildAddWord(argv, rs[..|rs| - 1], w);
    }
  }

  // ------------------------------------------------------------------- scanning

  /** The first p tokens are complete, and c is base under their redirections. */
  ghost predicate Scanned(ts: seq<Token>, p: nat, base: Cmd, c: Cmd) {
    p <= |ts| && Complete(ts, p) && c == Build(base, Redirections(ts, p))
  }

  lemma NoArrowBefore(ts: seq<Token>, p: nat)
    requires p <= |ts| && Complete(ts, p)
    ensures p >= 1 ==> !IsArrow(ts[p - 1].kind)
  {
  }

  lemma ScanWord(ts: seq<Token>, p: nat, argv: seq<Span>, c: Cmd)
    requires Scanned(ts, p, Exec(argv), c) && p < |ts| && ts[p].kind == 'a'
    ensures Scanned(ts, p + 1, Exec(argv + [SpanOf(ts[p])]), AddWord(c, SpanOf(ts[p])))
    ensures ArgWords(ts, p + 1) == ArgWords(ts, p) + [SpanOf(ts[p])]
  {
    NoArrowBefore(ts, p);
    BuildAddWord(argv, Redirections(ts, p), SpanOf(ts[p]));
  }

  lemma ScanArrow(ts: seq<Token>, p: nat, base: Cmd, c: Cmd)
    requires Scanned(ts, p, base, c) && p + 1 < |ts| && IsArrow(ts[p].kind) && ts[p + 1].kind == 'a'
    ensures Scanned(ts, p + 2, base, Redir(c, SpanOf(ts[p + 1]), Mode(ts[p].kind), Fd(ts[p].kind)))
    ensures ArgWords(ts, p + 2) == ArgWords(ts, p)
  {
    NoArrowBefore(ts, p);
    BuildMore(base, Redirections(ts, p), Into(ts[p].kind, SpanOf(ts[p + 1])));
  }

  /** An arrow without a file, after p complete tokens. */
  ghost predicate Dangling(ts: seq<Token>, p: nat) {
    p < |ts| && Complete(ts, p) && IsArrow(ts[p].kind) && KindOf(ts, p + 1) != 'a'
  }

  lemma {:induction false} RedirsScan(ts: seq<Token>, p: nat, base: Cmd, c: Cmd) returns (q: nat)
    requires Scanned(ts, p, base, c)
    ensures p <= q <= |ts| && ArgWords(ts, q) == ArgWords(ts, p)
    ensures var r := Redirs(c, ts[p..]);
            if r.Ok? then Scanned(ts, q, base, r.cmd) && r.rest == ts[q..] && !IsArrow(KindOf(ts, q)) else Dangling(ts, q)
    decreases |ts| - p
  {
    q := p;
    if IsArrow(Kind(ts[p..])) && Kind(ts[p..][1..]) == 'a' {
      assert ts[p..][2..] == ts[p + 2..];
      ScanArrow(ts, p, base, c);
      q := RedirsScan(ts, p + 2, base, Redir(c, SpanOf(ts[p + 1]), Mode(ts[p].kind), Fd(ts[p].kind)));
    }
  }

  /** ts has a simple command of n tokens at its front. */
  ghost predicate Accepts(ts: seq<Token>, n: nat) {
    n <= |ts| && Complete(ts, n) && EndsArgs(KindOf(ts, n)) && |ArgWords(ts, n)| < MAXARGS
  }

  lemma NotShorter(ts: seq<Token>, p: nat, n: nat)
    requires p <= |ts| && Complete(ts, p) && Accepts(ts, n)
    ensures p <= n
  {
  }

  lemma AcceptsPast(ts: seq<Token>, p: nat, n: nat)
    requires p < |ts| && Complete(ts, p) && !EndsArgs(ts[p].kind)
    ensures Accepts(ts, n) ==> p < n
  {
    hide ArgWords;
  }

  lemma DanglingRefused(ts: seq<Token>, p: nat, n: nat)
    requires Dangling(ts, p)
    ensures !Accepts(ts, n)
  {
  }

  lemma {:induction false} ArgWordsGrow(ts: seq<Token>, k: nat, n: nat)
    requires k <= n <= |ts|
    ensures |ArgWords(ts, k)| <= |ArgWords(ts, n)|
    decreases n - k
  {
    if k < n {
      ArgWordsGrow(ts, k, n - 1);
    }
  }

  lemma TooManyRefused(ts: seq<Token>, p: nat, n: nat)
    requires p < |ts| && Complete(ts, p) && ts[p].kind == 'a' && |ArgWords(ts, p)| + 1 >= MAXARGS
    ensures !Accepts(ts, n)
  {
    NoArrowBefore(ts, p);
    assert |ArgWords(ts, p + 1)| >= MAXARGS;
    AcceptsPast(ts, p, n);
    hide ArgWords, Complete;
    if p + 1 <= n <= |ts| {
      ArgWordsGrow(ts, p + 1, n);
    }
  }

  lemma StrangeRefused(ts: seq<Token>, p: nat, n: nat)
    requires p < |ts| && Complete(ts, p)
    requires !EndsArgs(ts[p].kind) && ts[p].kind != 'a' && !IsArrow(ts[p].kind)
    ensures !Accepts(ts, n)
  {
  }

  lemma {:induction false} ArgsScan(ts: seq<Token>, p: nat, c: Cmd) returns (q: nat)
    requires p <= |ts| && Scanned(ts, p, Exec(ArgWords(ts, p)), c) && !IsArrow(KindOf(ts, p)) && |ArgWords(ts, p)| < MAXARGS
    ensures q <= |ts|
    ensures var r := Args(c, |ArgWords(ts, p)|, ts[p..]);
            if r.Ok? then Accepts(ts, q) && Scanned(ts, q, Exec(ArgWords(ts, q)), r.cmd) && r.rest == ts[q..]
            else forall n :: !Accepts(ts, n)
    decreases |ts| - p
  {
    hide Accepts, Scanned, Complete, Dangling, ArgWords, Redirs, AddWord;
    q := p;
    var argc := |ArgWords(ts, p)|;
    if EndsArgs(Kind(ts[p..])) {
      AcceptsHere(ts, p, c);
    } else if Kind(ts[p..]) != 'a' || argc + 1 >= MAXARGS {
      ArgsRefuses(ts, p, c);
    } else {
      var argv, w := ArgWords(ts, p), SpanOf(ts[p]);
      assert ts[p..][1..] == ts[p + 1..];
      ScanWord(ts, p, argv, c);
      var m := RedirsScan(ts, p + 1, Exec(argv + [w]), AddWord(c, w));
      var r := Redirs(AddWord(c, w), ts[p + 1..]);
      if r.Panic? {
        forall n: nat
          ensures !Accepts(ts, n)
        {
          DanglingRefused(ts, m, n);
        }
      } else {
        q := ArgsScan(ts, m, r.cmd);
      }
    }
  }

  lemma AcceptsHere(ts: seq<Token>, p: nat, c: Cmd)
    requires p <= |ts| && Scanned(ts, p, Exec(ArgWords(ts, p)), c) && |ArgWords(ts, p)| < MAXARGS && EndsArgs(KindOf(ts, p))
    ensures Accepts(ts, p)
  {
  }

  lemma ArgsRefuses(ts: seq<Token>, p: nat, c: Cmd)
    requires p < |ts| && Scanned(ts, p, Exec(ArgWords(ts, p)), c) && !IsArrow(ts[p].kind) && !EndsArgs(ts[p].kind)
    requires ts[p].kind != 'a' || |ArgWords(ts, p)| + 1 >= MAXARGS
    ensures forall n :: !Accepts(ts, n)
  {
    hide Accepts;
    forall n: nat
      ensures !Accepts(ts, n)
    {
      if ts[p].kind == 'a' {
        TooManyRefused(ts, p, n);
      } else {
        StrangeRefused(ts, p, n);
      }
    }
  }

  lemma AcceptsOnce(ts: seq<Token>, m: nat, n: nat)
    requires Accepts(ts, m) && Accepts(ts, n)
    ensures m == n
  {
    NotShorter(ts, m, n);
    NotShorter(ts, n, m);
  }

  lemma SimpleScan(ts: seq<Token>) returns (q: nat)
    ensures q <= |ts|
    ensures var r := Simple(ts);
            if r.Ok? then Accepts(ts, q) && r.cmd == Build(Exec(ArgWords(ts, q)), Redirections(ts, q)) && r.rest == ts[q..]
            else forall n :: !Accepts(ts, n)
  {
    assert ts[0..] == ts;
    q := RedirsScan(ts, 0, Exec([]), Exec([]));
    var r := Redirs(Exec([]), ts);
    if r.Panic? {
      forall n: nat
        ensures !Accepts(ts, n)
      {
        DanglingRefused(ts, q, n);
      }
    } else {
      q := ArgsScan(ts, q, r.cmd);
    }
  }

  /** A simple command is accepted exactly when it is words and arrows with their files, and fewer
      than MAXARGS of the words are arguments.  Its arguments are those words, in order, wherever
      the redirections stand; its redirections are the arrows, the first innermost. */
  lemma SimpleIff(ts: seq<Token>, c: Cmd, rest: seq<Token>)
    ensures Simple(ts) == Ok(c, rest) <==>
              && |rest| <= |ts|
              && var n := |ts| - |rest|;
                 rest == ts[n..] && Accepts(ts, n) && c == Build(Exec(ArgWords(ts, n)), Redirections(ts, n))
  {
    hide Accepts, Simple, Build, ArgWords, Redirections;
    var q := SimpleScan(ts);
    assert |ts[q..]| == |ts| - q;
    if |rest| <= |ts| && Accepts(ts, |ts| - |rest|) && Simple(ts).Ok? {
      AcceptsOnce(ts, q, |ts| - |rest|);
    }
  }

  // ------------------------------------------- redirections after a parenthesis

  /** ts has redirections, and nothing else, as its first n tokens. */
  ghost predicate AllArrows(ts: seq<Token>, n: nat) {
    n <= |ts| && Complete(ts, n) && ArgWords(ts, n) == [] && !IsArrow(KindOf(ts, n))
  }

  lemma {:induction false} NoArgs(ts: seq<Token>, n: nat, i: nat)
    requires n <= |ts| && ArgWords(ts, n) == [] && i < n && ts[i].kind == 'a'
    ensures i >= 1 && IsArrow(ts[i - 1].kind)
    decreases n
  {
    if i < n - 1 {
      NoArgs(ts, n - 1, i);
    }
  }

  lemma ArrowsNotShorter(ts: seq<Token>, p: nat, n: nat)
    requires p <= |ts| && Complete(ts, p) && ArgWords(ts, p) == [] && AllArrows(ts, n)
    ensures p <= n
  {
    NoArrowBefore(ts, n);
    if n < p && ts[n].kind == 'a' {
      NoArgs(ts, p, n);
    }
  }

  lemma ArrowsRefused(ts: seq<Token>, p: nat, n: nat)
    requires Dangling(ts, p) && ArgWords(ts, p) == []
    ensures !AllArrows(ts, n)
  {
    if AllArrows(ts, n) {
      ArrowsNotShorter(ts, p, n);
    }
  }

  lemma RedirsAll(c: Cmd, ts: seq<Token>) returns (q: nat)
    ensures q <= |ts|
    ensures var r := Redirs(c, ts);
            if r.Ok? then AllArrows(ts, q) && r.cmd == Build(c, Redirections(ts, q)) && r.rest == ts[q..]
            else forall n :: !AllArrows(ts, n)
  {
    assert ts[0..] == ts;
    q := RedirsScan(ts, 0, c, c);
    if Redirs(c, ts).Panic? {
      forall n: nat
        ensures !AllArrows(ts, n)
      {
        ArrowsRefused(ts, q, n);
      }
    }
  }

  lemma ArrowsOnce(ts: seq<Token>, m: nat, n: nat)
    requires AllArrows(ts, m) && AllArrows(ts, n)
    ensures m == n
  {
    ArrowsNotShorter(ts, m, n);
    ArrowsNotShorter(ts, n, m);
  }

  /** parseredirs takes exactly the redirections at the front. */
  lemma RedirsIff(c: Cmd, ts: seq<Token>, d: Cmd, rest: seq<Token>)
    ensures Redirs(c, ts) == Ok(d, rest) <==>
              && |rest| <= |ts|
              && var n := |ts| - |rest|;
                 rest == ts[n..] && AllArrows(ts, n) && d == Build(c, Redirections(ts, n))
  {
    hide AllArrows, Redirs, Build, Redirections;
    var q := RedirsAll(c, ts);
    assert |ts[q..]| == |ts| - q;
    if |rest| <= |ts| && AllArrows(ts, |ts| - |rest|) && Redirs(c, ts).Ok? {
      ArrowsOnce(ts, q, |ts| - |rest|);
    }
  }
}
