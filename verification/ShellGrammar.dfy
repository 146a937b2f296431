/** The grammar of the shell: tokens of a command line, and what each parsing function makes of
    the line from a position on. A parse fails where the shell panics. */
module ShellGrammar {

  const MAXARGS: nat := 10

  predicate White(c: char) { c in " \t\r\n" || c == 11 as char }

  predicate Symbol(c: char) { c in "<|>&;()" }

  predicate WordChar(c: char) { !White(c) && !Symbol(c) }

  /** The first position from i on that is not white space. */
  function Skip(b: seq<char>, i: nat): (j: nat)
    requires i <= |b|
    ensures i <= j <= |b| && (j < |b| ==> !White(b[j])) && forall k | i <= k < j :: White(b[k])
    decreases |b| - i
  {
    if i < |b| && White(b[i]) then Skip(b, i + 1) else i
  }

  /** The end of the word characters from i on. */
  function WordEnd(b: seq<char>, i: nat): (j: nat)
    requires i <= |b|
    ensures i <= j <= |b| && (j < |b| ==> !WordChar(b[j])) && forall k | i <= k < j :: WordChar(b[k])
    decreases |b| - i
  {
    if i < |b| && WordChar(b[i]) then WordEnd(b, i + 1) else i
  }

  /** A token: its kind (0 at the end of the line, a symbol, '+' for ">>", 'a' for a word), where
      it starts and ends, and where the next one starts. */
  datatype Token = Token(kind: char, q: nat, eq: nat, next: nat)

  function TokenAt(b: seq<char>, i: nat): (t: Token)
    requires i <= |b|
    ensures i <= t.q <= t.eq <= t.next <= |b| && (t.kind != '\0' ==> i < t.eq)
    ensures t.kind == 'a' ==> IsWord(b, Span(t.q, t.eq))
  {
    var q := Skip(b, i);
    if q == |b| then Token('\0', q, q, q)
    else if Symbol(b[q]) then
      var more := b[q] == '>' && q + 1 < |b| && b[q + 1] == '>';
      var eq := if more then q + 2 else q + 1;
      Token(if more then '+' else b[q], q, eq, Skip(b, eq))
    else
      var eq := WordEnd(b, q);
      Token('a', q, eq, Skip(b, eq))
  }

  /** The next token starts with one of toks. */
  predicate Ahead(b: seq<char>, i: nat, toks: seq<char>)
    requires i <= |b|
  {
    Skip(b, i) < |b| && b[Skip(b, i)] in toks
  }

  // ----- commands -----

  datatype Cmd<W> =
    | Exec(argv: seq<W>)
    | Redir(cmd: Cmd<W>, file: W, input: bool)   // input: read into descriptor 0; otherwise write from 1
    | Pipe(left: Cmd<W>, right: Cmd<W>)
    | List(left: Cmd<W>, right: Cmd<W>)
    | Back(cmd: Cmd<W>)

  /** A word of the line: the characters from q to eq. */
  datatype Span = Span(q: nat, eq: nat)

  /** The span is a whole run of word characters. */
  predicate IsWord(b: seq<char>, w: Span) {
    w.q < w.eq <= |b| && (forall k | w.q <= k < w.eq :: WordChar(b[k])) && (w.eq < |b| ==> !WordChar(b[w.eq]))
  }

  /** The characters of a word. */
  function TextOf(b: seq<char>, w: Span): string
    requires IsWord(b, w)
  {
    b[w.q..w.eq]
  }

  predicate AllWords(b: seq<char>, c: Cmd<Span>) {
    match c
    case Exec(argv) => |argv| < MAXARGS && forall k | 0 <= k < |argv| :: IsWord(b, argv[k])
    case Redir(d, file, _) => AllWords(b, d) && IsWord(b, file)
    case Pipe(l, r) => AllWords(b, l) && AllWords(b, r)
    case List(l, r) => AllWords(b, l) && AllWords(b, r)
    case Back(d) => AllWords(b, d)
  }

  /** A redirection that was read. */
  datatype Redirection = Redirection(file: Span, input: bool)

  /** The redirections around a command, the first one innermost. */
  function Wrap(c: Cmd<Span>, rs: seq<Redirection>): Cmd<Span> {
    if rs == [] then c
    else var r := rs[|rs| - 1]; Redir(Wrap(c, rs[..|rs| - 1]), r.file, r.input)
  }

  predicate AllFiles(b: seq<char>, rs: seq<Redirection>) {
    forall k | 0 <= k < |rs| :: IsWord(b, rs[k].file)
  }

  lemma {:induction false} WrapWords(b: seq<char>, c: Cmd<Span>, rs: seq<Redirection>)
    requires AllWords(b, c) && AllFiles(b, rs)
    ensures AllWords(b, Wrap(c, rs))
  {
    if rs != [] { WrapWords(b, c, rs[..|rs| - 1]); }
  }

  // ----- the parsing functions -----

  datatype Parse<R> = Fail | Done(result: R, next: nat)

  /** The redirections from i on, after rs. */
  function ParseRedirs(b: seq<char>, i: nat, rs: seq<Redirection>): (p: Parse<seq<Redirection>>)
    requires i <= |b| && AllFiles(b, rs)
    ensures p.Done? ==> i <= p.next <= |b| && AllFiles(b, p.result)
    decreases |b| - i
  {
    if !Ahead(b, i, "<>") then Done(rs, Skip(b, i))
    else
      var t := TokenAt(b, i);
      var w := TokenAt(b, t.next);
      if w.kind != 'a' then Fail
      else ParseRedirs(b, w.next, rs + [Redirection(Span(w.q, w.eq), t.kind == '<')])
  }

  /** A parse from i on stays within the line, and what it yields is made of words. */
  ghost predicate Sound(b: seq<char>, i: nat, p: Parse<Cmd<Span>>) {
    p.Done? ==> i <= p.next <= |b| && AllWords(b, p.result)
  }

  /** The rest of a simple command that has the words argv and the redirections rs. */
  function ParseArgs(b: seq<char>, i: nat, argv: seq<Span>, rs: seq<Redirection>): (p: Parse<Cmd<Span>>)
    requires i <= |b| && AllWords(b, Exec(argv)) && AllFiles(b, rs)
    ensures Sound(b, i, p)
    decreases |b| - i
  {
    WrapWords(b, Exec(argv), rs);
    var t := TokenAt(b, i);
    if Ahead(b, i, "|)&;") then Done(Wrap(Exec(argv), rs), Skip(b, i))
    else if t.kind == '\0' then Done(Wrap(Exec(argv), rs), t.next)
    else if t.kind != 'a' || |argv| + 1 >= MAXARGS then Fail
    else
      var p := ParseRedirs(b, t.next, rs);
      if p.Fail? then Fail else ParseArgs(b, p.next, argv + [Span(t.q, t.eq)], p.result)
  }

  function ParseExec(b: seq<char>, i: nat): (p: Parse<Cmd<Span>>)
    requires i <= |b|
    ensures Sound(b, i, p)
    decreases |b| - i, 1
  {
    if Ahead(b, i, "(") then ParseBlock(b, i)
    else
      var p := ParseRedirs(b, i, []);
      if p.Fail? then Fail else ParseArgs(b, p.next, [], p.result)
  }

  function ParseBlock(b: seq<char>, i: nat): (p: Parse<Cmd<Span>>)
    requires i <= |b|
    ensures Sound(b, i, p)
    decreases |b| - i, 0
  {
    if !Ahead(b, i, "(") then Fail
    else
      var p := ParseLine(b, TokenAt(b, i).next);
      if p.Fail? || !Ahead(b, p.next, ")") then Fail
      else
        var r := ParseRedirs(b, TokenAt(b, p.next).next, []);
        if r.Fail? then Fail else WrapWords(b, p.result, r.result); Done(Wrap(p.result, r.result), r.next)
  }

  function ParsePipe(b: seq<char>, i: nat): (p: Parse<Cmd<Span>>)
    requires i <= |b|
    ensures Sound(b, i, p)
    decreases |b| - i, 2
  {
    var p := ParseExec(b, i);
    if p.Fail? then Fail
    else if !Ahead(b, p.next, "|") then Done(p.result, Skip(b, p.next))
    else
      var r := ParsePipe(b, TokenAt(b, p.next).next);
      if r.Fail? then Fail else Done(Pipe(p.result, r.result), r.next)
  }

  /** The "&" signs behind c. */
  function ParseBacks(b: seq<char>, i: nat, c: Cmd<Span>): (p: Parse<Cmd<Span>>)
    requires i <= |b| && AllWords(b, c)
    ensures p.Done? && Sound(b, i, p)
    decreases |b| - i
  {
    if !Ahead(b, i, "&") then Done(c, Skip(b, i)) else ParseBacks(b, TokenAt(b, i).next, Back(c))
  }

  function ParseLine(b: seq<char>, i: nat): (p: Parse<Cmd<Span>>)
    requires i <= |b|
    ensures Sound(b, i, p)
    decreases |b| - i, 3
  {
    var p := ParsePipe(b, i);
    if p.Fail? then Fail
    else
      var q := ParseBacks(b, p.next, p.result);
      if !Ahead(b, q.next, ";") then Done(q.result, Skip(b, q.next))
      else
        var r := ParseLine(b, TokenAt(b, q.next).next);
        if r.Fail? then Fail else Done(List(q.result, r.result), r.next)
  }

  /** A whole line is one command, with nothing but white space behind it. */
  function ParseCmd(b: seq<char>): (p: Parse<Cmd<Span>>)
    ensures Sound(b, 0, p)
  {
    var p := ParseLine(b, 0);
    if p.Done? && Skip(b, p.next) == |b| then p else Fail
  }
}
