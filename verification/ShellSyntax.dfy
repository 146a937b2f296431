/** The syntax of command lines, as token lists with a meaning: what people write, before any parser.
    A line is a list of pipelines with "&" signs behind them; a pipeline is a list of units; a unit is
    a simple command, in which words and redirections come in any order, or a line in parentheses
    with redirections behind it. */
module ShellSyntax {
  import opened ShellGrammar

  // ----- tokens -----

  datatype Tok = Word(text: string) | Sym(c: char) | Append

  predicate LegalWord(w: string) { w != "" && forall k | 0 <= k < |w| :: WordChar(w[k]) }

  predicate TokOk(t: Tok) { (t.Word? ==> LegalWord(t.text)) && (t.Sym? ==> Symbol(t.c)) }

  function Spelling(t: Tok): (s: string)
    requires TokOk(t)
    ensures s != ""
  {
    match t
    case Word(w) => w
    case Sym(c) => [c]
    case Append => ">>"
  }

  predicate At(b: seq<char>, i: nat, s: string) { i + |s| <= |b| && b[i..i + |s|] == s }

  /** The token t ends before position n: it cannot be read as a longer one. */
  predicate EndsBefore(b: seq<char>, n: nat, t: Tok) {
    n < |b| ==> (t.Word? ==> !WordChar(b[n])) && (t == Sym('>') ==> b[n] != '>')
  }

  /** From position i on, the line consists of the tokens ts, with white space in front of any of them
      and at the end. */
  predicate Spells(b: seq<char>, i: nat, ts: seq<Tok>)
    requires i <= |b|
    decreases |ts|
  {
    var j := Skip(b, i);
    if ts == [] then j == |b|
    else
      TokOk(ts[0]) && At(b, j, Spelling(ts[0])) && EndsBefore(b, j + |Spelling(ts[0])|, ts[0])
      && Spells(b, j + |Spelling(ts[0])|, ts[1..])
  }

  // ----- syntax trees -----

  datatype Op = In | Out | OutAppend

  datatype Redirect = Redirect(op: Op, file: string)

  datatype Item = Arg(w: string) | To(r: Redirect)

  datatype Unit = Simple(items: seq<Item>) | Block(body: Line, rs: seq<Redirect>)

  datatype Pipeline = One(u: Unit) | Piped(u: Unit, rest: Pipeline)

  /** n is the number of "&" signs. */
  datatype Line = Last(p: Pipeline, n: nat) | Then(p: Pipeline, n: nat, rest: Line)

  function OpTok(op: Op): Tok { match op case In => Sym('<') case Out => Sym('>') case OutAppend => Append }

  function RedirectToks(r: Redirect): seq<Tok> { [OpTok(r.op), Word(r.file)] }

  function RedirectsToks(rs: seq<Redirect>): seq<Tok> {
    if rs == [] then [] else RedirectToks(rs[0]) + RedirectsToks(rs[1..])
  }

  function ItemsToks(items: seq<Item>): seq<Tok> {
    if items == [] then []
    else (if items[0].Arg? then [Word(items[0].w)] else RedirectToks(items[0].r)) + ItemsToks(items[1..])
  }

  function UnitToks(u: Unit): seq<Tok> {
    match u
    case Simple(items) => ItemsToks(items)
    case Block(body, rs) => [Sym('(')] + (LineToks(body) + ([Sym(')')] + RedirectsToks(rs)))
  }

  function PipeToks(p: Pipeline): seq<Tok> {
    match p
    case One(u) => UnitToks(u)
    case Piped(u, rest) => UnitToks(u) + ([Sym('|')] + PipeToks(rest))
  }

  function Ands(n: nat): seq<Tok> { seq(n, _ => Sym('&')) }

  function LineToks(l: Line): seq<Tok> {
    match l
    case Last(p, n) => PipeToks(p) + Ands(n)
    case Then(p, n, rest) => PipeToks(p) + (Ands(n) + ([Sym(';')] + LineToks(rest)))
  }

  /** The words of a simple command. */
  function Args(items: seq<Item>): seq<string> {
    if items == [] then [] else (if items[0].Arg? then [items[0].w] else []) + Args(items[1..])
  }

  /** Its redirections. */
  function Files(items: seq<Item>): seq<Redirect> {
    if items == [] then [] else (if items[0].To? then [items[0].r] else []) + Files(items[1..])
  }

  predicate UnitOk(u: Unit) {
    match u
    case Simple(items) =>
      && |Args(items)| < MAXARGS
      && forall k | 0 <= k < |items| :: LegalWord(if items[k].Arg? then items[k].w else items[k].r.file)
    case Block(body, rs) => LineOk(body) && RedirectsOk(rs)
  }

  predicate RedirectsOk(rs: seq<Redirect>) { forall k | 0 <= k < |rs| :: LegalWord(rs[k].file) }

  predicate PipeOk(p: Pipeline) {
    match p
    case One(u) => UnitOk(u)
    case Piped(u, rest) => UnitOk(u) && PipeOk(rest)
  }

  /** Words are not empty and free of white space and symbols; a simple command has at most 9 of them. */
  predicate LineOk(l: Line) {
    match l
    case Last(p, _) => PipeOk(p)
    case Then(p, _, rest) => PipeOk(p) && LineOk(rest)
  }

  // ----- meaning -----

  /** The command with its redirections: each one is put around what the ones before it made. */
  function Redirected(c: Cmd<string>, rs: seq<Redirect>): Cmd<string>
    decreases |rs|
  {
    if rs == [] then c else Redirected(Redir(c, rs[0].file, rs[0].op == In), rs[1..])
  }

  function Backs(c: Cmd<string>, n: nat): Cmd<string> { if n == 0 then c else Back(Backs(c, n - 1)) }

  function UnitMeans(u: Unit): Cmd<string> {
    match u
    case Simple(items) => Redirected(Exec(Args(items)), Files(items))
    case Block(body, rs) => Redirected(LineMeans(body), rs)
  }

  function PipeMeans(p: Pipeline): Cmd<string> {
    match p
    case One(u) => UnitMeans(u)
    case Piped(u, rest) => Pipe(UnitMeans(u), PipeMeans(rest))
  }

  function LineMeans(l: Line): Cmd<string> {
    match l
    case Last(p, n) => Backs(PipeMeans(p), n)
    case Then(p, n, rest) => List(Backs(PipeMeans(p), n), LineMeans(rest))
  }

  // ----- the words of a parsed command -----

  function Texts(b: seq<char>, ws: seq<Span>): seq<string>
    requires forall k | 0 <= k < |ws| :: IsWord(b, ws[k])
  {
    seq(|ws|, k requires 0 <= k < |ws| => TextOf(b, ws[k]))
  }

  /** The command with the words that its spans stand for. */
  function Text(b: seq<char>, c: Cmd<Span>): Cmd<string>
    requires AllWords(b, c)
  {
    match c
    case Exec(argv) => Exec(Texts(b, argv))
    case Redir(d, file, input) => Redir(Text(b, d), TextOf(b, file), input)
    case Pipe(l, r) => Pipe(Text(b, l), Text(b, r))
    case List(l, r) => List(Text(b, l), Text(b, r))
    case Back(d) => Back(Text(b, d))
  }

  /** The redirections that were read are rs. */
  predicate SameFiles(b: seq<char>, read: seq<Redirection>, rs: seq<Redirect>)
    requires AllFiles(b, read)
  {
    |read| == |rs|
    && forall k | 0 <= k < |rs| :: TextOf(b, read[k].file) == rs[k].file && read[k].input == (rs[k].op == In)
  }

  lemma {:induction false} RedirectedLast(c: Cmd<string>, rs: seq<Redirect>)
    requires rs != []
    ensures var r := rs[|rs| - 1]; Redirected(c, rs) == Redir(Redirected(c, rs[..|rs| - 1]), r.file, r.op == In)
    decreases |rs|
  {
    if |rs| > 1 {
      RedirectedLast(Redir(c, rs[0].file, rs[0].op == In), rs[1..]);
      assert rs[1..][..|rs| - 2] == rs[..|rs| - 1][1..];
    }
  }

  /** The redirections that were read, put around a command, are the ones that were written. */
  lemma {:induction false} WrapMeans(b: seq<char>, c: Cmd<Span>, read: seq<Redirection>, rs: seq<Redirect>)
    requires AllWords(b, c) && AllFiles(b, read) && SameFiles(b, read, rs)
    ensures AllWords(b, Wrap(c, read)) && Text(b, Wrap(c, read)) == Redirected(Text(b, c), rs)
    decreases |rs|
  {
    hide IsWord, TextOf;
    if rs != [] {
      WrapMeans(b, c, read[..|read| - 1], rs[..|rs| - 1]);
      RedirectedLast(Text(b, c), rs);
    }
  }
}
