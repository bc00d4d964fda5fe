/** The language of the shell: which command lines sh.c accepts, and what each one means.

    A form is a command line as it is written, with its parentheses and with its redirections
    where they stand.  The parser accepts exactly the layouts of forms, and gives each the tree
    of its form. */
module ShellForms {
  import opened CStrings
  import opened ShellSyntax
  import opened ShellTree
  import opened ShellLexing
  import opened ShellSimple

  /** A part of a simple command. */
  datatype Item = Argument(text: string) | Arrow(kind: char, file: string)

  datatype Form =
    | Items(items: seq<Item>)                   // a < f b >> g
    | Group(inner: Form, arrows: seq<Item>)     // ( inner ) > f
    | Pipes(left: Form, right: Form)            // left | right
    | Amp(inner: Form)                          // inner &
    | Then(left: Form, right: Form)             // left ; right

  function ItemPieces(items: seq<Item>): seq<Piece> {
    if items == [] then []
    else
      var n := |items| - 1;
      ItemPieces(items[..n]) + match items[n]
                               case Argument(w) => [Piece('a', w)]
                               case Arrow(k, f) => [Sym(k), Piece('a', f)]
  }

  function FormPieces(f: Form): seq<Piece> {
    match f
    case Items(items) => ItemPieces(items)
    case Group(g, arrows) => [Sym('(')] + FormPieces(g) + [Sym(')')] + ItemPieces(arrows)
    case Pipes(l, r) => FormPieces(l) + [Sym('|')] + FormPieces(r)
    case Amp(g) => FormPieces(g) + [Sym('&')]
    case Then(l, r) => FormPieces(l) + [Sym(';')] + FormPieces(r)
  }

  // ------------------------------------------------------------ what a form means

  function ArgTexts(items: seq<Item>): seq<string> {
    if items == [] then []
    else
      var n := |items| - 1;
      ArgTexts(items[..n]) + if items[n].Argument? then [items[n].text] else []
  }

  /** t under the redirections among the items, the first innermost. */
  function Wrapped(t: Tree, items: seq<Item>): Tree {
    if items == [] then t
    else
      var n := |items| - 1;
      var u := Wrapped(t, items[..n]);
      match items[n]
      case Argument(_) => u
      case Arrow(k, f) => if k == '<' then TRedir(u, f, O_RDONLY, 0) else TRedir(u, f, O_WRONLY + O_CREATE, 1)
  }

  function FormTree(f: Form): Tree {
    match f
    case Items(items) => Wrapped(TExec(ArgTexts(items)), items)
    case Group(g, arrows) => Wrapped(FormTree(g), arrows)
    case Pipes(l, r) => TPipe(FormTree(l), FormTree(r))
    case Amp(g) => TBack(FormTree(g))
    case Then(l, r) => TList(FormTree(l), FormTree(r))
  }

  // ---------------------------------------------------------- which forms there are

  predicate WfItem(it: Item) {
    match it
    case Argument(w) => IsText(w)
    case Arrow(k, f) => IsArrow(k) && IsText(f)
  }

  predicate WfItems(items: seq<Item>) {
    forall i :: 0 <= i < |items| ==> WfItem(items[i])
  }

  /** How loosely a form binds. */
  function Level(f: Form): int {
    match f
    case Items(_) => 0
    case Group(_, _) => 0
    case Pipes(_, _) => 1
    case Amp(_) => 2
    case Then(_, _) => 3
  }

  /** Pipes bind tighter than & and that tighter than ; and both | and ; group to the right. */
  predicate WfForm(f: Form) {
    match f
    case Items(items) => WfItems(items) && |ArgTexts(items)| < MAXARGS
    case Group(g, arrows) => WfForm(g) && WfItems(arrows) && ArgTexts(arrows) == []
    case Pipes(l, r) => WfForm(l) && WfForm(r) && Level(l) == 0 && Level(r) <= 1
    case Amp(g) => WfForm(g) && Level(g) <= 2
    case Then(l, r) => WfForm(l) && WfForm(r) && Level(l) <= 2
  }

  lemma {:induction false} ItemsGood(items: seq<Item>)
    requires WfItems(items)
    ensures AllGood(ItemPieces(items))
  {
    if items != [] {
      var n := |items| - 1;
      assert WfItem(items[n]);
      ItemsGood(items[..n]);
    }
  }

  lemma {:induction false} FormGood(f: Form)
    requires WfForm(f)
    ensures AllGood(FormPieces(f))
  {
    hide GoodPiece;
    assert GoodPiece(Sym('(')) && GoodPiece(Sym(')')) && GoodPiece(Sym('|')) && GoodPiece(Sym('&')) && GoodPiece(Sym(';')) by {
      SymbolsGood();
    }
    match f
    case Items(items) => ItemsGood(items);
    case Group(g, arrows) => FormGood(g); ItemsGood(arrows);
    case Pipes(l, r) => FormGood(l); FormGood(r);
    case Amp(g) => FormGood(g);
    case Then(l, r) => FormGood(l); FormGood(r);
  }

  lemma SymbolsGood()
    ensures GoodPiece(Sym('(')) && GoodPiece(Sym(')')) && GoodPiece(Sym('|')) && GoodPiece(Sym('&')) && GoodPiece(Sym(';'))
  {
  }

  lemma SpellsSplit(b: string, ts: seq<Token>, ps: seq<Piece>, qs: seq<Piece>)
    requires Spells(b, ts, ps + qs)
    ensures Spells(b, ts[..|ps|], ps) && Spells(b, ts[|ps|..], qs) && ts == ts[..|ps|] + ts[|ps|..]
  {
  }

  /** Tokens i to j of ts are the pieces ps. */
  ghost predicate Range(b: string, ts: seq<Token>, i: nat, j: nat, ps: seq<Piece>) {
    i <= j <= |ts| && Spells(b, ts[i..j], ps)
  }

  lemma RangeJoin(b: string, ts: seq<Token>, i: nat, j: nat, k: nat, ps: seq<Piece>, qs: seq<Piece>)
    requires Range(b, ts, i, j, ps) && Range(b, ts, j, k, qs)
    ensures Range(b, ts, i, k, ps + qs)
  {
    var us := ts[i..k];
    forall m | 0 <= m < |us|
      ensures us[m] == if m < j - i then ts[i..j][m] else ts[j..k][m - (j - i)]
      ensures (ps + qs)[m] == if m < j - i then ps[m] else qs[m - (j - i)]
    {
    }
  }

  lemma RangeShift(b: string, ts: seq<Token>, d: nat, i: nat, j: nat, ps: seq<Piece>)
    requires d <= |ts| && Range(b, ts[d..], i, j, ps)
    ensures Range(b, ts, d + i, d + j, ps)
  {
    assert ts[d..][i..j] == ts[d + i..d + j];
  }

  lemma RangeOne(b: string, ts: seq<Token>, i: nat, c: char)
    requires i < |ts| && ts[i].kind == c != 'a'
    ensures Range(b, ts, i, i + 1, [Sym(c)])
  {
    assert ts[i..i + 1] == [ts[i]];
  }

  lemma RangeFront(b: string, ts: seq<Token>, n: nat, ps: seq<Piece>)
    requires n <= |ts|
    ensures Range(b, ts, 0, n, ps) <==> Spells(b, ts[..n], ps)
  {
    assert ts[0..n] == ts[..n];
  }

  // ---------------------------------------------------- items and simple commands

  /** The first p tokens of ts, read as items. */
  lemma {:induction false} ItemsTokens(b: string, ts: seq<Token>, p: nat, items: seq<Item>, base: Cmd)
    requires p <= |ts| && WfItems(items) && Spells(b, ts[..p], ItemPieces(items))
    ensures Complete(ts, p) && Words(b, ArgWords(ts, p)) == ArgTexts(items)
    ensures Text(b, Build(base, Redirections(ts, p))) == Wrapped(Text(b, base), items)
    decreases |items|
  {
    hide Build, Redirections, ArgWords, Complete, Spells, ItemPieces, Words;
    if items == [] {
      NoItems(b, ts, p, base);
    } else {
      var n := |items| - 1;
      var it := items[n];
      assert WfItem(it);
      if it.Argument? {
        LastArgument(b, ts, p, items);
        ItemsTokens(b, ts, p - 1, items[..n], base);
        AddArgument(b, ts, p - 1, base);
      } else {
        LastArrow(b, ts, p, items);
        ItemsTokens(b, ts, p - 2, items[..n], base);
        AddArrow(b, ts, p - 2, base);
      }
    }
  }

  lemma NoItems(b: string, ts: seq<Token>, p: nat, base: Cmd)
    requires p <= |ts| && Spells(b, ts[..p], ItemPieces([]))
    ensures Complete(ts, p) && Words(b, ArgWords(ts, p)) == [] && Build(base, Redirections(ts, p)) == base
  {
  }

  lemma LastArgument(b: string, ts: seq<Token>, p: nat, items: seq<Item>)
    requires p <= |ts| && items != [] && items[|items| - 1].Argument? && Spells(b, ts[..p], ItemPieces(items))
    ensures p >= 1 && Spells(b, ts[..p - 1], ItemPieces(items[..|items| - 1]))
    ensures ts[p - 1].kind == 'a' && Word(b, SpanOf(ts[p - 1])) == items[|items| - 1].text
  {
    var n := |items| - 1;
    SpellsLast(b, ts, p, ItemPieces(items[..n]), Piece('a', items[n].text));
  }

  lemma LastArrow(b: string, ts: seq<Token>, p: nat, items: seq<Item>)
    requires p <= |ts| && items != [] && items[|items| - 1].Arrow? && Spells(b, ts[..p], ItemPieces(items))
    ensures p >= 2 && Spells(b, ts[..p - 2], ItemPieces(items[..|items| - 1]))
    ensures ts[p - 2].kind == items[|items| - 1].kind
    ensures ts[p - 1].kind == 'a' && Word(b, SpanOf(ts[p - 1])) == items[|items| - 1].file
  {
    var it := items[|items| - 1];
    SpellsLastTwo(b, ts, p, ItemPieces(items[..|items| - 1]), Sym(it.kind), Piece('a', it.file));
  }

  lemma SpellsLast(b: string, ts: seq<Token>, p: nat, ps: seq<Piece>, q: Piece)
    requires p <= |ts| && Spells(b, ts[..p], ps + [q])
    ensures p >= 1 && Spells(b, ts[..p - 1], ps)
    ensures ts[p - 1].kind == q.kind && (q.kind == 'a' ==> Word(b, SpanOf(ts[p - 1])) == q.text)
  {
    assert (ps + [q])[|ps|] == q && ts[..p][p - 1] == ts[p - 1];
    forall i | 0 <= i < p - 1
      ensures ts[..p][i] == ts[..p - 1][i] && (ps + [q])[i] == ps[i]
    {
    }
  }

  lemma SpellsLastTwo(b: string, ts: seq<Token>, p: nat, ps: seq<Piece>, a: Piece, w: Piece)
    requires p <= |ts| && Spells(b, ts[..p], ps + [a, w])
    ensures p >= 2 && Spells(b, ts[..p - 2], ps) && ts[p - 2].kind == a.kind
    ensures ts[p - 1].kind == w.kind && (w.kind == 'a' ==> Word(b, SpanOf(ts[p - 1])) == w.text)
  {
    assert ps + [a, w] == (ps + [a]) + [w];
    hide Spells;
    SpellsLast(b, ts, p, ps + [a], w);
    SpellsLast(b, ts, p - 1, ps, a);
  }

  lemma AddArgument(b: string, ts: seq<Token>, p: nat, base: Cmd)
    requires p < |ts| && Complete(ts, p) && ts[p].kind == 'a'
    ensures Complete(ts, p + 1) && Words(b, ArgWords(ts, p + 1)) == Words(b, ArgWords(ts, p)) + [Word(b, SpanOf(ts[p]))]
    ensures Redirections(ts, p + 1) == Redirections(ts, p)
  {
    NoArrowBefore(ts, p);
  }

  lemma AddArrow(b: string, ts: seq<Token>, p: nat, base: Cmd)
    requires p + 1 < |ts| && Complete(ts, p) && IsArrow(ts[p].kind) && ts[p + 1].kind == 'a'
    ensures Complete(ts, p + 2) && ArgWords(ts, p + 2) == ArgWords(ts, p)
    ensures var r := Into(ts[p].kind, SpanOf(ts[p + 1]));
            Build(base, Redirections(ts, p + 2)) == Redir(Build(base, Redirections(ts, p)), r.file, r.mode, r.fd)
  {
    NoArrowBefore(ts, p);
    BuildMore(base, Redirections(ts, p), Into(ts[p].kind, SpanOf(ts[p + 1])));
  }

  /** And the other way round. */
  lemma {:induction false} ItemsFrom(b: string, ts: seq<Token>, p: nat) returns (items: seq<Item>)
    requires p <= |ts| && Complete(ts, p) && Lexed(b, ts)
    ensures WfItems(items) && Spells(b, ts[..p], ItemPieces(items))
    decreases p
  {
    if p == 0 {
      items := [];
    } else {
      assert ts[p - 1].kind == 'a';
      WordText(b, SpanOf(ts[p - 1]));
      if p >= 2 && IsArrow(ts[p - 2].kind) {
        CompleteLess(ts, p);
        var before := ItemsFrom(b, ts, p - 2);
        items := before + [Arrow(ts[p - 2].kind, Word(b, SpanOf(ts[p - 1])))];
        MoreArrow(b, ts, p - 2, before, ts[p - 2].kind, Word(b, SpanOf(ts[p - 1])));
      } else {
        CompleteLess(ts, p);
        var before := ItemsFrom(b, ts, p - 1);
        items := before + [Argument(Word(b, SpanOf(ts[p - 1])))];
        MoreArgument(b, ts, p - 1, before, Word(b, SpanOf(ts[p - 1])));
      }
    }
  }

  lemma CompleteLess(ts: seq<Token>, p: nat)
    requires 0 < p <= |ts| && Complete(ts, p)
    ensures ts[p - 1].kind == 'a'
    ensures p >= 2 && IsArrow(ts[p - 2].kind) ==> Complete(ts, p - 2)
    ensures p == 1 || !IsArrow(ts[p - 2].kind) ==> Complete(ts, p - 1)
  {
    assert p >= 3 && IsArrow(ts[p - 3].kind) ==> ts[p - 2].kind == 'a';
  }

  lemma MoreArgument(b: string, ts: seq<Token>, k: nat, before: seq<Item>, w: string)
    requires k < |ts| && Spells(b, ts[..k], ItemPieces(before)) && WfItems(before)
    requires ts[k].kind == 'a' && w == Word(b, SpanOf(ts[k])) && IsText(w)
    ensures var items := before + [Argument(w)]; WfItems(items) && Spells(b, ts[..k + 1], ItemPieces(items))
  {
    var items := before + [Argument(w)];
    assert items[..|before|] == before;
    assert ItemPieces(items) == ItemPieces(before) + [Piece('a', w)];
    hide ItemPieces;
    SpellsPlus(b, ts, k, ItemPieces(before), Piece('a', w));
  }

  lemma MoreArrow(b: string, ts: seq<Token>, k: nat, before: seq<Item>, c: char, w: string)
    requires k + 1 < |ts| && Spells(b, ts[..k], ItemPieces(before)) && WfItems(before)
    requires ts[k].kind == c && IsArrow(c) && ts[k + 1].kind == 'a' && w == Word(b, SpanOf(ts[k + 1])) && IsText(w)
    ensures var items := before + [Arrow(c, w)]; WfItems(items) && Spells(b, ts[..k + 2], ItemPieces(items))
  {
    var items := before + [Arrow(c, w)];
    assert items[..|before|] == before;
    assert ItemPieces(items) == ItemPieces(before) + [Sym(c)] + [Piece('a', w)];
    hide ItemPieces;
    SpellsPlus(b, ts, k, ItemPieces(before), Sym(c));
    SpellsPlus(b, ts, k + 1, ItemPieces(before) + [Sym(c)], Piece('a', w));
  }

  lemma SpellsPlus(b: string, ts: seq<Token>, k: nat, ps: seq<Piece>, q: Piece)
    requires k < |ts| && Spells(b, ts[..k], ps)
    requires ts[k].kind == q.kind && (q.kind == 'a' ==> Word(b, SpanOf(ts[k])) == q.text)
    ensures Spells(b, ts[..k + 1], ps + [q])
  {
    forall i | 0 <= i < k
      ensures ts[..k + 1][i] == ts[..k][i] && (ps + [q])[i] == ps[i]
    {
    }
  }

  // --------------------------------------------------------- forms are accepted

  lemma SimpleReads(b: string, ts: seq<Token>, rest: seq<Token>, items: seq<Item>) returns (c: Cmd)
    requires WfForm(Items(items)) && Spells(b, ts, ItemPieces(items)) && EndsArgs(Kind(rest))
    ensures Command(ts + rest) == Ok(c, rest) && Text(b, c) == FormTree(Items(items))
  {
    var us, n := ts + rest, |ts|;
    assert us[..n] == ts && us[n..] == rest;
    c := Build(Exec(ArgWords(us, n)), Redirections(us, n));
    ItemsTokens(b, us, n, items, Exec(ArgWords(us, n)));
    assert |ArgWords(us, n)| == |Words(b, ArgWords(us, n))|;
    assert KindOf(us, n) == Kind(rest);
    SimpleIff(us, c, rest);
    NotParen(us, n);
  }

  lemma NotParen(ts: seq<Token>, n: nat)
    requires Accepts(ts, n)
    ensures Kind(ts) != '('
  {
  }

  lemma RedirsReads(b: string, c: Cmd, ts: seq<Token>, rest: seq<Token>, arrows: seq<Item>) returns (d: Cmd)
    requires WfItems(arrows) && ArgTexts(arrows) == [] && Spells(b, ts, ItemPieces(arrows)) && !IsArrow(Kind(rest))
    ensures Redirs(c, ts + rest) == Ok(d, rest) && Text(b, d) == Wrapped(Text(b, c), arrows)
  {
    var us, n := ts + rest, |ts|;
    assert us[..n] == ts && us[n..] == rest;
    assert KindOf(us, n) == Kind(rest);
    hide Complete, Build, Redirections, ArgWords, Redirs, Wrapped, ItemPieces, Spells, Kind, KindOf;
    d := Build(c, Redirections(us, n));
    ItemsTokens(b, us, n, arrows, c);
    assert |ArgWords(us, n)| == |Words(b, ArgWords(us, n))|;
    RedirsIff(c, us, d, rest);
  }

  lemma {:induction false} CommandReads(b: string, ts: seq<Token>, rest: seq<Token>, f: Form) returns (c: Cmd)
    requires WfForm(f) && Level(f) == 0 && Spells(b, ts, FormPieces(f)) && EndsArgs(Kind(rest))
    ensures Command(ts + rest) == Ok(c, rest) && Text(b, c) == FormTree(f)
    decreases f, 0
  {
    match f
    case Items(items) => c := SimpleReads(b, ts, rest, items);
    case Group(g, arrows) =>
      var inner, close, after := GroupParts(b, ts, rest, g, arrows);
      hide Command, Line, FormPieces, ItemPieces, Spells;
      var d := LineReads(b, inner, [close] + (after + rest), g);
      c := RedirsReads(b, d, after, rest, arrows);
      GroupCommand(ts + rest, inner, close, after + rest, d);
  }

  lemma GroupParts(b: string, ts: seq<Token>, rest: seq<Token>, g: Form, arrows: seq<Item>)
    returns (inner: seq<Token>, close: Token, after: seq<Token>)
    requires Spells(b, ts, FormPieces(Group(g, arrows)))
    ensures Kind(ts + rest) == '(' && close.kind == ')' && (ts + rest)[1..] == inner + ([close] + (after + rest))
    ensures Spells(b, inner, FormPieces(g)) && Spells(b, after, ItemPieces(arrows))
  {
    var ps, qs := FormPieces(g), ItemPieces(arrows);
    assert FormPieces(Group(g, arrows)) == [Sym('(')] + ps + [Sym(')')] + qs;
    hide FormPieces, ItemPieces, Spells;
    var x;
    x, close, after := TwoParts(b, ts, rest, [Sym('(')] + ps, ')', qs);
    inner := FirstPart(b, x, '(', ps);
    ShiftOne(ts + rest, x, inner, [close] + (after + rest));
  }

  lemma FirstPart(b: string, ts: seq<Token>, c: char, ps: seq<Piece>) returns (us: seq<Token>)
    requires Spells(b, ts, [Sym(c)] + ps)
    ensures ts != [] && ts[0].kind == c && ts == [ts[0]] + us && Spells(b, us, ps)
  {
    SpellsSplit(b, ts, [Sym(c)], ps);
    us := ts[1..];
    assert ts[..1] == [ts[0]] && [ts[0]][0] == ts[0];
  }

  lemma ShiftOne(all: seq<Token>, x: seq<Token>, us: seq<Token>, vs: seq<Token>)
    requires all == x + vs && x != [] && x == [x[0]] + us
    ensures all != [] && all[0] == x[0] && all[1..] == us + vs
  {
  }

  lemma GroupCommand(ts: seq<Token>, inner: seq<Token>, close: Token, after: seq<Token>, d: Cmd)
    requires Kind(ts) == '(' && ts[1..] == inner + ([close] + after) && close.kind == ')'
    requires Line(inner + ([close] + after)) == Ok(d, [close] + after)
    ensures Command(ts) == Redirs(d, after)
  {
    assert ([close] + after)[1..] == after;
  }

  lemma {:induction false} PipelineReads(b: string, ts: seq<Token>, rest: seq<Token>, f: Form) returns (c: Cmd)
    requires WfForm(f) && Level(f) <= 1 && Spells(b, ts, FormPieces(f)) && EndsArgs(Kind(rest)) && Kind(rest) != '|'
    ensures Pipeline(ts + rest) == Ok(c, rest) && Text(b, c) == FormTree(f)
    decreases f, 1
  {
    if f.Pipes? {
      var x, op, y := TwoParts(b, ts, rest, FormPieces(f.left), '|', FormPieces(f.right));
      var l := CommandReads(b, x, [op] + (y + rest), f.left);
      var r := PipelineReads(b, y, rest, f.right);
      c := Pipe(l, r);
      assert ([op] + (y + rest))[1..] == y + rest;
    } else {
      c := CommandReads(b, ts, rest, f);
    }
  }

  lemma TwoParts(b: string, ts: seq<Token>, rest: seq<Token>, ps: seq<Piece>, c: char, qs: seq<Piece>)
    returns (x: seq<Token>, op: Token, y: seq<Token>)
    requires Spells(b, ts, ps + [Sym(c)] + qs)
    ensures Spells(b, x, ps) && op.kind == c && Spells(b, y, qs) && ts + rest == x + ([op] + (y + rest))
  {
    var n := |ps|;
    SpellsSplit(b, ts, ps + [Sym(c)], qs);
    SpellsSplit(b, ts[..n + 1], ps, [Sym(c)]);
    x, op, y := ts[..n], ts[n], ts[n + 1..];
    assert ts[..n + 1][..n] == x && ts[..n + 1][n..] == [op] && [op][0] == op;
  }

  /** Up to the loop over ampersands, and then what is left of that loop. */
  lemma {:induction false} BacksReads(b: string, ts: seq<Token>, rest: seq<Token>, f: Form)
    returns (x: Cmd, us: seq<Token>, c: Cmd)
    requires WfForm(f) && Level(f) <= 2 && Spells(b, ts, FormPieces(f)) && EndsArgs(Kind(rest)) && Kind(rest) != '|'
    ensures Pipeline(ts + rest) == Ok(x, us) && Backs(x, us) == Backs(c, rest) && Text(b, c) == FormTree(f)
    decreases f, 2
  {
    if f.Amp? {
      var n := |FormPieces(f.inner)|;
      SpellsSplit(b, ts, FormPieces(f.inner), [Sym('&')]);
      var amp := ts[n];
      assert ts[n..] == [amp] && [amp][0] == amp;
      assert ts + rest == ts[..n] + ([amp] + rest);
      var d;
      x, us, d := BacksReads(b, ts[..n], [amp] + rest, f.inner);
      c := Back(d);
      assert ([amp] + rest)[1..] == rest;
    } else {
      c := PipelineReads(b, ts, rest, f);
      x, us := c, rest;
    }
  }

  lemma {:induction false} LineReads(b: string, ts: seq<Token>, rest: seq<Token>, f: Form) returns (c: Cmd)
    requires WfForm(f) && Spells(b, ts, FormPieces(f)) && (Kind(rest) == NUL || Kind(rest) == ')')
    ensures Line(ts + rest) == Ok(c, rest) && Text(b, c) == FormTree(f)
    decreases f, 3
  {
    if f.Then? {
      var l, op, r := TwoParts(b, ts, rest, FormPieces(f.left), ';', FormPieces(f.right));
      var more := [op] + (r + rest);
      var x, us, d := BacksReads(b, l, more, f.left);
      var e := LineReads(b, r, rest, f.right);
      assert more[1..] == r + rest;
      c := List(d, e);
    } else {
      var x, us, d := BacksReads(b, ts, rest, f);
      c := d;
    }
  }

  // ------------------------------------------- whatever is accepted is a form

  /** r has read the form f from the first n tokens of ts. */
  ghost predicate Shaped(b: string, ts: seq<Token>, n: nat, r: Result, f: Form) {
    && r.Ok? && n <= |ts| && r.rest == ts[n..]
    && WfForm(f) && Range(b, ts, 0, n, FormPieces(f)) && Text(b, r.cmd) == FormTree(f)
  }

  /** d has read the redirections of c from the first n tokens of ts. */
  ghost predicate Arrowed(b: string, ts: seq<Token>, n: nat, c: Cmd, d: Result, arrows: seq<Item>) {
    && d.Ok? && n <= |ts| && d.rest == ts[n..]
    && WfItems(arrows) && ArgTexts(arrows) == [] && Range(b, ts, 0, n, ItemPieces(arrows))
    && Text(b, d.cmd) == Wrapped(Text(b, c), arrows)
  }

  lemma LexedRest(b: string, ts: seq<Token>, k: nat)
    requires Lexed(b, ts) && k <= |ts|
    ensures Lexed(b, ts[k..])
  {
  }

  lemma SimpleForm(b: string, ts: seq<Token>) returns (n: nat, f: Form)
    requires Lexed(b, ts) && Simple(ts).Ok?
    ensures Shaped(b, ts, n, Simple(ts), f) && f.Items?
  {
    var r := Simple(ts);
    SimpleIff(ts, r.cmd, r.rest);
    hide Simple, Spells;
    n := |ts| - |r.rest|;
    var items := ItemsFrom(b, ts, n);
    ItemsTokens(b, ts, n, items, Exec(ArgWords(ts, n)));
    assert |ArgWords(ts, n)| == |Words(b, ArgWords(ts, n))|;
    RangeFront(b, ts, n, ItemPieces(items));
    f := Items(items);
  }

  lemma RedirsForm(b: string, c: Cmd, ts: seq<Token>) returns (n: nat, arrows: seq<Item>)
    requires Lexed(b, ts) && Redirs(c, ts).Ok?
    ensures Arrowed(b, ts, n, c, Redirs(c, ts), arrows)
  {
    var r := Redirs(c, ts);
    RedirsIff(c, ts, r.cmd, r.rest);
    hide Redirs, Spells;
    n := |ts| - |r.rest|;
    arrows := ItemsFrom(b, ts, n);
    ItemsTokens(b, ts, n, arrows, c);
    RangeFront(b, ts, n, ItemPieces(arrows));
  }

  lemma {:induction false} CommandForm(b: string, ts: seq<Token>) returns (n: nat, f: Form)
    requires Lexed(b, ts) && Command(ts).Ok?
    ensures Shaped(b, ts, n, Command(ts), f) && Level(f) == 0
    decreases |ts|, 0
  {
    if Kind(ts) != '(' {
      n, f := SimpleForm(b, ts);
    } else {
      CommandParts(ts);
      hide Command, Line, Lexed, Redirs, Range, FormPieces, WfForm, FormTree;
      var r := Line(ts[1..]);
      LexedRest(b, ts, 1);
      var k, g := LineForm(b, ts[1..]);
      LexedRest(b, ts[1..], k);
      LexedRest(b, r.rest, 1);
      var m, arrows := RedirsForm(b, r.cmd, r.rest[1..]);
      n, f := k + 2 + m, Group(g, arrows);
      GroupShaped(b, ts, k, r, g, m, Redirs(r.cmd, r.rest[1..]), arrows);
    }
  }

  lemma CommandParts(ts: seq<Token>)
    requires Kind(ts) == '(' && Command(ts).Ok?
    ensures var r := Line(ts[1..]); r.Ok? && Kind(r.rest) == ')' && Command(ts) == Redirs(r.cmd, r.rest[1..])
  {
  }

  lemma SliceMore(ts: seq<Token>, n: nat, us: seq<Token>, m: nat, vs: seq<Token>)
    requires n < |ts| && us == ts[n..] && 1 + m <= |us| && vs == us[1..][m..]
    ensures us[0] == ts[n] && us[1..] == ts[n + 1..] && vs == ts[n + 1 + m..]
  {
  }

  lemma GroupShaped(b: string, ts: seq<Token>, n: nat, r: Result, g: Form, m: nat, d: Result, arrows: seq<Item>)
    requires Kind(ts) == '(' && Shaped(b, ts[1..], n, r, g) && Kind(r.rest) == ')'
    requires Arrowed(b, r.rest[1..], m, r.cmd, d, arrows)
    ensures Shaped(b, ts, n + 2 + m, d, Group(g, arrows))
  {
    hide Range, ItemPieces;
    var ps, qs := FormPieces(g), ItemPieces(arrows);
    assert FormPieces(Group(g, arrows)) == [Sym('(')] + ps + [Sym(')')] + qs;
    hide FormPieces;
    assert r.rest == ts[n + 1..];
    SliceMore(ts, n + 1, r.rest, m, d.rest);
    GroupRange(b, ts, n, m, ps, qs);
  }

  lemma GroupRange(b: string, ts: seq<Token>, n: nat, m: nat, ps: seq<Piece>, qs: seq<Piece>)
    requires n + 2 <= |ts| && ts[0].kind == '(' && ts[n + 1].kind == ')'
    requires Range(b, ts[1..], 0, n, ps) && Range(b, ts[n + 2..], 0, m, qs)
    ensures Range(b, ts, 0, n + 2 + m, [Sym('(')] + ps + [Sym(')')] + qs)
  {
    hide Range;
    RangeOne(b, ts, 0, '(');
    RangeShift(b, ts, 1, 0, n, ps);
    RangeJoin(b, ts, 0, 1, n + 1, [Sym('(')], ps);
    TwoRange(b, ts, n + 1, m, [Sym('(')] + ps, ')', qs);
  }

  lemma TwoRange(b: string, ts: seq<Token>, n: nat, m: nat, ps: seq<Piece>, c: char, qs: seq<Piece>)
    requires n < |ts| && ts[n].kind == c != 'a' && Range(b, ts, 0, n, ps) && Range(b, ts[n + 1..], 0, m, qs)
    ensures Range(b, ts, 0, n + 1 + m, ps + [Sym(c)] + qs)
  {
    hide Range;
    RangeOne(b, ts, n, c);
    RangeJoin(b, ts, 0, n, n + 1, ps, [Sym(c)]);
    RangeShift(b, ts, n + 1, 0, m, qs);
    RangeJoin(b, ts, 0, n + 1, n + 1 + m, ps + [Sym(c)], qs);
  }

  /** Two forms with the symbol between them. */
  lemma TwoShaped(b: string, ts: seq<Token>, n: nat, l: Result, f: Form, c: char, m: nat, r: Result, g: Form, t: Result, h: Form)
    requires Shaped(b, ts, n, l, f) && Kind(l.rest) == c && Symbol(c) && Shaped(b, l.rest[1..], m, r, g)
    requires t.Ok? && t.rest == r.rest && WfForm(h) && Text(b, t.cmd) == FormTree(h)
    requires FormPieces(h) == FormPieces(f) + [Sym(c)] + FormPieces(g)
    ensures Shaped(b, ts, n + 1 + m, t, h)
  {
    hide Range, FormPieces, WfForm, FormTree;
    SliceMore(ts, n, l.rest, m, r.rest);
    TwoRange(b, ts, n, m, FormPieces(f), c, FormPieces(g));
  }

  lemma {:induction false} PipelineForm(b: string, ts: seq<Token>) returns (n: nat, f: Form)
    requires Lexed(b, ts) && Pipeline(ts).Ok?
    ensures Shaped(b, ts, n, Pipeline(ts), f) && Level(f) <= 1
    decreases |ts|, 1
  {
    hide Range, Command;
    var l := Command(ts);
    n, f := CommandForm(b, ts);
    if Kind(l.rest) == '|' {
      LexedRest(b, ts, n);
      LexedRest(b, l.rest, 1);
      var m, g := PipelineForm(b, l.rest[1..]);
      TwoShaped(b, ts, n, l, f, '|', m, Pipeline(l.rest[1..]), g, Pipeline(ts), Pipes(f, g));
      n, f := n + 1 + m, Pipes(f, g);
    }
  }

  lemma {:induction false} BacksForm(b: string, ts: seq<Token>, k: nat, r: Result, f: Form) returns (n: nat, g: Form)
    requires Shaped(b, ts, k, r, f) && Level(f) <= 2
    ensures Shaped(b, ts, n, Backs(r.cmd, r.rest), g) && Level(g) <= 2
    decreases |r.rest|
  {
    if Kind(r.rest) == '&' {
      AmpShaped(b, ts, k, r, f);
      n, g := BacksForm(b, ts, k + 1, Ok(Back(r.cmd), r.rest[1..]), Amp(f));
    } else {
      n, g := k, f;
    }
  }

  lemma AmpShaped(b: string, ts: seq<Token>, n: nat, r: Result, f: Form)
    requires Shaped(b, ts, n, r, f) && Level(f) <= 2 && Kind(r.rest) == '&'
    ensures Shaped(b, ts, n + 1, Ok(Back(r.cmd), r.rest[1..]), Amp(f))
  {
    hide Range;
    assert ts[n] == r.rest[0] && r.rest[1..] == ts[n + 1..];
    RangeOne(b, ts, n, '&');
    RangeJoin(b, ts, 0, n, n + 1, FormPieces(f), [Sym('&')]);
  }

  lemma {:induction false} LineForm(b: string, ts: seq<Token>) returns (n: nat, f: Form)
    requires Lexed(b, ts) && Line(ts).Ok?
    ensures Shaped(b, ts, n, Line(ts), f)
    decreases |ts|, 2
  {
    hide Pipeline, Backs, Range;
    var l := Pipeline(ts);
    var k, g := PipelineForm(b, ts);
    n, f := BacksForm(b, ts, k, l, g);
    var m := Backs(l.cmd, l.rest);
    if Kind(m.rest) == ';' {
      LexedRest(b, ts, n);
      LexedRest(b, m.rest, 1);
      var j, h := LineForm(b, m.rest[1..]);
      TwoShaped(b, ts, n, m, f, ';', j, Line(m.rest[1..]), h, Line(ts), Then(f, h));
      n, f := n + 1 + j, Then(f, h);
    }
  }

  // ----------------------------------------------------------------- the language

  /** b is a way to write f. */
  ghost predicate Written(b: string, f: Form) {
    WfForm(f) && exists gaps :: Spaced(FormPieces(f), gaps) && b == Lay(FormPieces(f), gaps)
  }

  /** b is a command line that means t. */
  ghost predicate Denotes(b: string, t: Tree) {
    exists f :: Written(b, f) && FormTree(f) == t
  }

  /** The command lines that parse to t are exactly the ways to write the forms of t; none has
      two meanings. */
  lemma ParseIff(b: string, t: Tree)
    requires CString(b)
    ensures Parse(b).Ok? && Text(b, Parse(b).cmd) == t <==> Denotes(b, t)
    ensures forall u :: Denotes(b, t) && Denotes(b, u) ==> t == u
  {
    forall u | Denotes(b, u)
      ensures Parse(b).Ok? && Text(b, Parse(b).cmd) == u
    {
      var f :| Written(b, f) && FormTree(f) == u;
      RoundTrip(b, f);
    }
    if Parse(b).Ok? && Text(b, Parse(b).cmd) == t {
      var f := ReadForm(b);
    }
  }

  lemma ReadForm(b: string) returns (f: Form)
    requires CString(b) && Parse(b).Ok?
    ensures Written(b, f) && FormTree(f) == Text(b, Parse(b).cmd)
  {
    var ts := Tokens(b, 0);
    TokensLexed(b, 0);
    var n;
    n, f := LineForm(b, ts);
    assert |ts[n..]| == 0 && ts[0..n] == ts;
    FormGood(f);
    TokensIff(b, FormPieces(f));
  }

  /** However a form is written, the parser reads it back. */
  lemma RoundTrip(b: string, f: Form)
    requires CString(b) && Written(b, f)
    ensures Parse(b).Ok? && Text(b, Parse(b).cmd) == FormTree(f)
  {
    var ts := Tokens(b, 0);
    FormGood(f);
    TokensIff(b, FormPieces(f));
    var c := LineReads(b, ts, [], f);
    assert ts + [] == ts;
  }

  // --------------------------------------------------------------- every tree

  function Arguments(argv: seq<string>): seq<Item> {
    seq(|argv|, i requires 0 <= i < |argv| => Argument(argv[i]))
  }

  /** A form of t, with parentheses around every part. */
  function FormOf(t: Tree): Form {
    match t
    case TExec(argv) => Items(Arguments(argv))
    case TRedir(d, file, mode, fd) => Group(FormOf(d), [Arrow(if fd == 0 then '<' else '>', file)])
    case TPipe(l, r) => Pipes(Group(FormOf(l), []), Group(FormOf(r), []))
    case TList(l, r) => Then(Group(FormOf(l), []), Group(FormOf(r), []))
    case TBack(d) => Amp(Group(FormOf(d), []))
  }

  lemma {:induction false} ArgumentsTree(argv: seq<string>, t: Tree)
    ensures ArgTexts(Arguments(argv)) == argv && Wrapped(t, Arguments(argv)) == t
  {
    if argv != [] {
      var n := |argv| - 1;
      assert Arguments(argv)[..n] == Arguments(argv[..n]);
      ArgumentsTree(argv[..n], t);
    }
  }

  lemma OneArrow(it: Item, t: Tree)
    requires it.Arrow?
    ensures ArgTexts([it]) == []
    ensures Wrapped(t, [it]) == if it.kind == '<' then TRedir(t, it.file, O_RDONLY, 0) else TRedir(t, it.file, O_WRONLY + O_CREATE, 1)
  {
    assert [it][..0] == [];
  }

  lemma {:induction false} FormOfTree(t: Tree)
    requires WfTree(t)
    ensures WfForm(FormOf(t)) && FormTree(FormOf(t)) == t
  {
    match t
    case TExec(argv) => ArgumentsTree(argv, t);
    case TRedir(d, file, mode, fd) =>
      FormOfTree(d);
      OneArrow(Arrow(if fd == 0 then '<' else '>', file), d);
    case TPipe(l, r) => FormOfTree(l); FormOfTree(r);
    case TList(l, r) => FormOfTree(l); FormOfTree(r);
    case TBack(d) => FormOfTree(d);
  }

  lemma {:induction false} SpaceOut(ps: seq<Piece>) returns (gaps: seq<string>)
    requires AllGood(ps)
    ensures Spaced(ps, gaps) && gaps[0] == " " && CString(Lay(ps, gaps))
  {
    if ps == [] {
      gaps := [" "];
    } else {
      var more := SpaceOut(ps[1..]);
      gaps := [" "] + more;
      assert GoodPiece(ps[0]);
      assert more == gaps[1..];
      SpacedMore(ps[0], ps[1..], " ", more);
      assert [ps[0]] + ps[1..] == ps;
    }
  }

  /** The trees that command lines parse to are exactly the well-formed ones. */
  lemma ParsesExactly(t: Tree)
    ensures WfTree(t) <==> exists b :: CString(b) && Parse(b).Ok? && Text(b, Parse(b).cmd) == t
  {
    if WfTree(t) {
      var f := FormOf(t);
      FormOfTree(t);
      FormGood(f);
      var gaps := SpaceOut(FormPieces(f));
      RoundTrip(Lay(FormPieces(f), gaps), f);
    }
    if b :| CString(b) && Parse(b).Ok? && Text(b, Parse(b).cmd) == t {
      ParseWf(b);
      TextWf(b, Parse(b).cmd);
    }
  }
}
