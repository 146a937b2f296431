/** Printing a command as people type it, with as few parentheses as the syntax allows, and parsing
    it back. */
module ShellPrint {
  import opened ShellGrammar
  import opened ShellSyntax
  import opened ShellRead

  /** Words are not empty and free of white space and symbols; a command has at most 9 of them. */
  predicate Legal(c: Cmd<string>) {
    match c
    case Exec(argv) => |argv| < MAXARGS && forall k | 0 <= k < |argv| :: LegalWord(argv[k])
    case Redir(d, file, _) => Legal(d) && LegalWord(file)
    case Pipe(l, r) => Legal(l) && Legal(r)
    case List(l, r) => Legal(l) && Legal(r)
    case Back(d) => Legal(d)
  }

  // ----- the syntax tree of a command -----

  function Words(ws: seq<string>): seq<Item> { seq(|ws|, k requires 0 <= k < |ws| => Arg(ws[k])) }

  /** One redirection more behind a unit. */
  function WithRedirect(u: Unit, r: Redirect): Unit {
    match u
    case Simple(items) => Simple(items + [To(r)])
    case Block(body, rs) => Block(body, rs + [r])
  }

  /** Simple commands and redirected ones are units; other commands stand in parentheses. */
  function UnitOf(c: Cmd<string>): Unit
    decreases c, 3
  {
    match c
    case Exec(argv) => Simple(Words(argv))
    case Redir(d, file, input) => WithRedirect(UnitOf(d), Redirect(if input then In else Out, file))
    case _ => Block(LineOf(c), [])
  }

  function PipeOf(c: Cmd<string>): Pipeline
    requires !c.List? && !c.Back?
    decreases c, 0
  {
    match c
    case Pipe(l, r) => Piped(UnitOf(l), if r.List? || r.Back? then One(Block(LineOf(r), [])) else PipeOf(r))
    case Exec(argv) => One(Simple(Words(argv)))
    case Redir(d, file, input) => One(WithRedirect(UnitOf(d), Redirect(if input then In else Out, file)))
  }

  /** A command in the background, or a pipeline: with its "&" signs. */
  function BackOf(c: Cmd<string>, n: nat): (Pipeline, nat)
    decreases c, 1
  {
    match c
    case Back(d) => BackOf(d, n + 1)
    case List(l, r) => (One(Block(Then(BackOf(l, 0).0, BackOf(l, 0).1, LineOf(r)), [])), n)
    case _ => (PipeOf(c), n)
  }

  function LineOf(c: Cmd<string>): Line
    decreases c, 2
  {
    match c
    case List(l, r) => Then(BackOf(l, 0).0, BackOf(l, 0).1, LineOf(r))
    case _ => Last(BackOf(c, 0).0, BackOf(c, 0).1)
  }

  // ----- it means the command -----

  lemma {:induction false} WordsAre(ws: seq<string>)
    ensures Args(Words(ws)) == ws && Files(Words(ws)) == []
  {
    if ws != [] {
      assert Words(ws)[1..] == Words(ws[1..]);
      WordsAre(ws[1..]);
    }
  }

  lemma {:induction false} OneMore(items: seq<Item>, r: Redirect)
    ensures Args(items + [To(r)]) == Args(items) && Files(items + [To(r)]) == Files(items) + [r]
  {
    if items == [] {
      assert [To(r)][1..] == [];
    } else {
      assert (items + [To(r)])[1..] == items[1..] + [To(r)];
      OneMore(items[1..], r);
    }
  }

  lemma WithRedirectMeans(u: Unit, r: Redirect)
    requires UnitOk(u) && LegalWord(r.file)
    ensures UnitOk(WithRedirect(u, r)) && UnitMeans(WithRedirect(u, r)) == Redir(UnitMeans(u), r.file, r.op == In)
  {
    hide LegalWord, Redirected, LineMeans;
    match u
    case Simple(items) =>
      OneMore(items, r);
      AddRedirect(Exec(Args(items)), Files(items), r);
    case Block(body, rs) =>
      AddRedirect(LineMeans(body), rs, r);
  }

  lemma AddRedirect(c: Cmd<string>, rs: seq<Redirect>, r: Redirect)
    ensures Redirected(c, rs + [r]) == Redir(Redirected(c, rs), r.file, r.op == In)
  {
    RedirectedLast(c, rs + [r]);
    assert (rs + [r])[..|rs|] == rs;
  }

  lemma WordsMean(ws: seq<string>)
    requires Legal(Exec(ws))
    ensures UnitOk(Simple(Words(ws))) && UnitMeans(Simple(Words(ws))) == Exec(ws)
  {
    WordsAre(ws);
  }

  lemma BlockMeans(l: Line)
    requires LineOk(l)
    ensures UnitOk(Block(l, [])) && UnitMeans(Block(l, [])) == LineMeans(l)
  {}

  lemma {:induction false} UnitOfMeans(c: Cmd<string>)
    requires Legal(c)
    ensures UnitOk(UnitOf(c)) && UnitMeans(UnitOf(c)) == c
    decreases c, 3
  {
    hide LegalWord, UnitMeans, UnitOk, LineMeans, LineOk, LineOf, WithRedirect;
    match c
    case Exec(argv) => WordsMean(argv);
    case Redir(d, file, input) =>
      UnitOfMeans(d);
      WithRedirectMeans(UnitOf(d), Redirect(if input then In else Out, file));
    case _ =>
      LineOfMeans(c);
      BlockMeans(LineOf(c));
  }

  lemma {:induction false} PipeOfMeans(c: Cmd<string>)
    requires Legal(c) && !c.List? && !c.Back?
    ensures PipeOk(PipeOf(c)) && PipeMeans(PipeOf(c)) == c
    decreases c, 0
  {
    hide LegalWord, UnitMeans, UnitOk, LineMeans, LineOk, LineOf, WithRedirect, UnitOf;
    match c
    case Pipe(l, r) =>
      UnitOfMeans(l);
      if r.List? || r.Back? {
        LineOfMeans(r);
        BlockMeans(LineOf(r));
      } else {
        PipeOfMeans(r);
      }
    case Exec(argv) => WordsMean(argv);
    case Redir(d, file, input) =>
      UnitOfMeans(d);
      WithRedirectMeans(UnitOf(d), Redirect(if input then In else Out, file));
  }

  lemma {:induction false} BackOfMeans(c: Cmd<string>, n: nat)
    requires Legal(c)
    ensures PipeOk(BackOf(c, n).0) && Backs(PipeMeans(BackOf(c, n).0), BackOf(c, n).1) == Backs(c, n)
    decreases c, 1
  {
    hide LegalWord, UnitMeans, UnitOk, LineOf, PipeOf;
    match c
    case Back(d) =>
      BackOfMeans(d, n + 1);
      BacksBack(d, n);
    case List(l, r) =>
      BackOfMeans(l, 0);
      LineOfMeans(r);
      BlockMeans(Then(BackOf(l, 0).0, BackOf(l, 0).1, LineOf(r)));
    case _ => PipeOfMeans(c);
  }

  /** The line of a command is legal, and means it. */
  lemma {:induction false} LineOfMeans(c: Cmd<string>)
    requires Legal(c)
    ensures LineOk(LineOf(c)) && LineMeans(LineOf(c)) == c
    decreases c, 2
  {
    hide LegalWord, PipeMeans, PipeOk, BackOf;
    match c
    case List(l, r) =>
      BackOfMeans(l, 0);
      LineOfMeans(r);
    case _ => BackOfMeans(c, 0);
  }

  // ----- printing -----

  /** The tokens with a blank behind each. */
  function Lay(ts: seq<Tok>): string
    requires forall t | t in ts :: TokOk(t)
  {
    if ts == [] then "" else Spelling(ts[0]) + (" " + Lay(ts[1..]))
  }

  lemma AtParts(b: seq<char>, i: nat, s: string, t: string)
    requires At(b, i, s + t)
    ensures At(b, i, s) && At(b, i + |s|, t)
  {
    var u := b[i..i + |s + t|];
    assert u[..|s|] == s && u[|s|..] == t;
    assert b[i..i + |s|] == u[..|s|] && b[i + |s|..i + |s| + |t|] == u[|s|..];
  }

  lemma TokSolid(t: Tok)
    requires TokOk(t)
    ensures !White(Spelling(t)[0])
  {
    if t.Word? { assert WordChar(t.text[0]); }
  }

  lemma {:induction false} LaySpells(b: seq<char>, i: nat, ts: seq<Tok>)
    requires forall t | t in ts :: TokOk(t)
    requires At(b, i, Lay(ts)) && i + |Lay(ts)| == |b|
    ensures i <= |b| && Spells(b, i, ts)
    decreases |ts|
  {
    hide Skip, At, TokOk, Spelling, White, EndsBefore, Spells;
    if ts == [] {
      LayNone(b, i);
    } else {
      var s, n := Spelling(ts[0]), i + |Spelling(ts[0])|;
      AtParts(b, i, s, " " + Lay(ts[1..]));
      AtParts(b, n, " ", Lay(ts[1..]));
      LaySpells(b, n + 1, ts[1..]);
      LayFirst(b, i, ts[0]);
      BlankSkip(b, n, ts[1..]);
      LayJoin(b, i, ts);
    }
  }

  lemma LayJoin(b: seq<char>, i: nat, ts: seq<Tok>)
    requires ts != [] && TokOk(ts[0]) && At(b, i, Spelling(ts[0])) && i <= |b| && Skip(b, i) == i
    requires EndsBefore(b, i + |Spelling(ts[0])|, ts[0]) && Spells(b, i + |Spelling(ts[0])|, ts[1..])
    ensures Spells(b, i, ts)
  {
    hide Skip, At, TokOk, Spelling, EndsBefore;
  }

  lemma LayNone(b: seq<char>, i: nat)
    requires i == |b|
    ensures Spells(b, i, [])
  {}

  /** Behind a token stands a blank, so it ends there. */
  lemma LayFirst(b: seq<char>, i: nat, t: Tok)
    requires TokOk(t) && At(b, i, Spelling(t)) && At(b, i + |Spelling(t)|, " ")
    ensures i < |b| && Skip(b, i) == i && EndsBefore(b, i + |Spelling(t)|, t)
  {
    TokSolid(t);
    var n := i + |Spelling(t)|;
    assert b[i] == b[i..n][0];
    assert b[n] == b[n..n + 1][0] == ' ';
  }

  lemma BlankSkip(b: seq<char>, n: nat, ts: seq<Tok>)
    requires At(b, n, " ") && Spells(b, n + 1, ts)
    ensures Spells(b, n, ts)
  {
    assert b[n] == b[n..n + 1][0] == ' ';
    assert Skip(b, n) == Skip(b, n + 1);
    hide Skip, Spells;
    SpellsSkip(b, n, ts);
    SpellsSkip(b, n + 1, ts);
  }

  lemma {:induction false} RedirectsTokOk(rs: seq<Redirect>)
    requires RedirectsOk(rs)
    ensures forall t | t in RedirectsToks(rs) :: TokOk(t)
  {
    hide LegalWord;
    if rs != [] {
      assert LegalWord(rs[0].file) && RedirectsOk(rs[1..]);
      RedirectsTokOk(rs[1..]);
    }
  }

  lemma {:induction false} ItemsTokOk(items: seq<Item>)
    requires forall k | 0 <= k < |items| :: LegalWord(if items[k].Arg? then items[k].w else items[k].r.file)
    ensures forall t | t in ItemsToks(items) :: TokOk(t)
  {
    hide LegalWord;
    if items != [] {
      assert LegalWord(if items[0].Arg? then items[0].w else items[0].r.file);
      ItemsTokOk(items[1..]);
    }
  }

  lemma {:induction false} UnitTokOk(u: Unit)
    requires UnitOk(u)
    ensures forall t | t in UnitToks(u) :: TokOk(t)
    decreases u
  {
    hide LegalWord, ItemsToks, RedirectsToks, Args;
    match u
    case Simple(items) => ItemsTokOk(items);
    case Block(body, rs) => LineTokOk(body); RedirectsTokOk(rs);
  }

  lemma {:induction false} PipeTokOk(p: Pipeline)
    requires PipeOk(p)
    ensures forall t | t in PipeToks(p) :: TokOk(t)
    decreases p
  {
    hide LegalWord, UnitToks, UnitOk;
    match p
    case One(u) => UnitTokOk(u);
    case Piped(u, rest) => UnitTokOk(u); PipeTokOk(rest);
  }

  lemma {:induction false} LineTokOk(l: Line)
    requires LineOk(l)
    ensures forall t | t in LineToks(l) :: TokOk(t)
    decreases l
  {
    hide LegalWord, PipeToks, PipeOk;
    match l
    case Last(p, n) => PipeTokOk(p);
    case Then(p, n, rest) => PipeTokOk(p); LineTokOk(rest);
  }

  /** A command line for c. */
  function Print(c: Cmd<string>): string
    requires Legal(c)
  {
    LineOfMeans(c);
    LineTokOk(LineOf(c));
    Lay(LineToks(LineOf(c)))
  }

  /** Parsing undoes printing, for every command. */
  lemma PrintParse(c: Cmd<string>)
    requires Legal(c)
    ensures var b := Print(c);
            ParseCmd(b).Done? && AllWords(b, ParseCmd(b).result) && Text(b, ParseCmd(b).result) == c
  {
    hide Lay, LineToks, LineOk, LineMeans, LineOf, Spells, Legal, ParseCmd;
    var b := Print(c);
    LineOfMeans(c);
    LineTokOk(LineOf(c));
    assert b[0..|b|] == b;
    LaySpells(b, 0, LineToks(LineOf(c)));
    LineMeant(b, LineOf(c));
  }
}
