/** Command trees over the text of their words, as the shell runs them. */
module ShellTree {
  import opened CStrings
  import opened ShellSyntax

  function Word(b: string, w: Span): string {
    if 0 <= w.q <= w.eq <= |b| then b[w.q..w.eq] else ""
  }

  function Words(b: string, ws: seq<Span>): seq<string> {
    seq(|ws|, i requires 0 <= i < |ws| => Word(b, ws[i]))
  }

  datatype Tree =
    | TExec(argv: seq<string>)
    | TRedir(cmd: Tree, file: string, mode: int, fd: int)
    | TPipe(left: Tree, right: Tree)
    | TList(left: Tree, right: Tree)
    | TBack(cmd: Tree)

  /** The tree with the text of its words in place of their positions. */
  function Text(b: string, c: Cmd): Tree {
    match c
    case Exec(argv) => TExec(Words(b, argv))
    case Redir(d, file, mode, fd) => TRedir(Text(b, d), Word(b, file), mode, fd)
    case Pipe(l, r) => TPipe(Text(b, l), Text(b, r))
    case List(l, r) => TList(Text(b, l), Text(b, r))
    case Back(d) => TBack(Text(b, d))
  }

  predicate IsText(w: string) {
    w != "" && forall i :: 0 <= i < |w| ==> WordChar(w[i])
  }

  /** A tree that the shell can build. */
  predicate WfTree(t: Tree) {
    match t
    case TExec(argv) => |argv| < MAXARGS && forall i :: 0 <= i < |argv| ==> IsText(argv[i])
    case TRedir(d, file, mode, fd) => WfTree(d) && IsText(file) && GoodMode(mode, fd)
    case TPipe(l, r) => WfTree(l) && WfTree(r)
    case TList(l, r) => WfTree(l) && WfTree(r)
    case TBack(d) => WfTree(d)
  }

  lemma WordText(b: string, w: Span)
    requires IsWord(b, w)
    ensures IsText(Word(b, w))
  {
    var x := Word(b, w);
    forall i | 0 <= i < |x|
      ensures WordChar(x[i])
    {
      assert x[i] == At(b, w.q + i);
    }
  }

  /** Whatever the parser returns is such a tree. */
  lemma {:induction false} TextWf(b: string, c: Cmd)
    requires WfCmd(b, c)
    ensures WfTree(Text(b, c))
  {
    match c
    case Exec(argv) =>
      forall i | 0 <= i < |argv|
        ensures IsText(Words(b, argv)[i])
      {
        WordText(b, argv[i]);
      }
    case Redir(d, file, mode, fd) =>
      TextWf(b, d);
      WordText(b, file);
    case Pipe(l, r) => TextWf(b, l); TextWf(b, r);
    case List(l, r) => TextWf(b, l); TextWf(b, r);
    case Back(d) => TextWf(b, d);
  }
}
