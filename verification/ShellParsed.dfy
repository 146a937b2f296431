/** Every line that the parser accepts is a line of the syntax, and means what was read. */
module ShellParsed {
  import opened ShellGrammar
  import opened ShellSyntax
  import opened ShellRead

  // ----- the tokens of a line -----

  function TokOf(b: seq<char>, t: Token): Tok
    requires t.q <= t.eq <= |b|
  {
    if t.kind == 'a' then Word(b[t.q..t.eq]) else if t.kind == '+' then Append else Sym(t.kind)
  }

  /** The tokens from position i on. */
  function Toks(b: seq<char>, i: nat): (ts: seq<Tok>)
    requires i <= |b|
    decreases |b| - i
  {
    var t := TokenAt(b, i);
    if t.kind == '\0' then [] else [TokOf(b, t)] + Toks(b, t.next)
  }

  lemma TokenSkip(b: seq<char>, i: nat)
    requires i <= |b|
    ensures TokenAt(b, Skip(b, i)) == TokenAt(b, i) && (TokenAt(b, i).kind == '\0' <==> Skip(b, i) == |b|)
  {
    SkipAgain(b, i);
    hide Skip, WordEnd, WordChar;
  }

  lemma ToksSkip(b: seq<char>, i: nat)
    requires i <= |b|
    ensures Toks(b, Skip(b, i)) == Toks(b, i) && (Toks(b, i) == [] <==> Skip(b, i) == |b|)
  {
    TokenSkip(b, i);
    hide Skip, TokenAt, TokOf;
  }

  /** A line has one list of tokens. */
  lemma {:induction false} ToksOnly(b: seq<char>, i: nat, ts: seq<Tok>)
    requires i <= |b| && Spells(b, i, ts)
    ensures ts == Toks(b, i)
    decreases |ts|
  {
    hide Skip, TokenAt, Spells;
    TokenSpelled(b, i, ts);
    if ts != [] { ToksOnly(b, TokenAt(b, i).next, ts[1..]); }
  }

  lemma TokenOk(b: seq<char>, i: nat)
    requires i <= |b| && TokenAt(b, i).kind != '\0'
    ensures var t, j := TokenAt(b, i), Skip(b, i);
            && TokOk(TokOf(b, t)) && At(b, j, Spelling(TokOf(b, t))) && j + |Spelling(TokOf(b, t))| == t.eq
            && EndsBefore(b, t.eq, TokOf(b, t)) && t.next == Skip(b, t.eq)
  {
    var t, j := TokenAt(b, i), Skip(b, i);
    TokenParts(b, i);
    if t.kind == 'a' {
      WordOk(b, t.q, t.eq);
    } else {
      SymOk(b, t.q, t.eq, t.kind);
    }
  }

  lemma TokenParts(b: seq<char>, i: nat)
    requires i <= |b| && TokenAt(b, i).kind != '\0'
    ensures var t := TokenAt(b, i);
            && t.q == Skip(b, i) < |b| && t.next == Skip(b, t.eq)
            && (t.kind == 'a' ==> t.q < t.eq <= |b| && t.eq == WordEnd(b, t.q))
            && (t.kind != 'a' ==> Symbol(b[t.q]) && IsSym(b, t.q, t.eq, t.kind))
  {
    hide Skip, WordEnd;
  }

  /** A symbol, or ">>". */
  predicate IsSym(b: seq<char>, q: nat, eq: nat, kind: char) {
    && q < eq <= |b| && Symbol(b[q])
    && if kind == '+' then eq == q + 2 && b[q] == '>' && b[q + 1] == '>'
       else eq == q + 1 && kind == b[q] && (kind == '>' && eq < |b| ==> b[eq] != '>')
  }

  lemma WordOk(b: seq<char>, q: nat, eq: nat)
    requires q < eq <= |b| && eq == WordEnd(b, q)
    ensures TokOk(Word(b[q..eq])) && At(b, q, Spelling(Word(b[q..eq]))) && EndsBefore(b, eq, Word(b[q..eq]))
  {
    forall k | 0 <= k < eq - q ensures WordChar(b[q..eq][k]) { assert b[q..eq][k] == b[q + k]; }
  }

  lemma SymOk(b: seq<char>, q: nat, eq: nat, kind: char)
    requires kind != 'a' && IsSym(b, q, eq, kind)
    ensures var t := if kind == '+' then Append else Sym(kind);
            TokOk(t) && At(b, q, Spelling(t)) && q + |Spelling(t)| == eq && EndsBefore(b, eq, t)
  {}

  lemma {:induction false} ToksSpell(b: seq<char>, i: nat)
    requires i <= |b|
    ensures Spells(b, i, Toks(b, i))
    decreases |b| - i
  {
    hide TokenAt, Skip, Spells, At, EndsBefore, TokOf, TokOk, Spelling;
    var t := TokenAt(b, i);
    TokenSkip(b, i);
    if t.kind == '\0' {
      NothingSpelled(b, i);
    } else {
      TokenOk(b, i);
      ToksSpell(b, t.next);
      SpellsSkip(b, t.eq, Toks(b, t.next));
      SpellsFirst(b, i, TokOf(b, t), Toks(b, t.next));
    }
  }

  lemma NothingSpelled(b: seq<char>, i: nat)
    requires i <= |b| && Skip(b, i) == |b|
    ensures Spells(b, i, [])
  {}

  lemma SpellsFirst(b: seq<char>, i: nat, t: Tok, ts: seq<Tok>)
    requires i <= |b| && TokOk(t) && At(b, Skip(b, i), Spelling(t)) && EndsBefore(b, Skip(b, i) + |Spelling(t)|, t)
    requires Spells(b, Skip(b, i) + |Spelling(t)|, ts)
    ensures Spells(b, i, [t] + ts)
  {
    hide Skip, At, EndsBefore, TokOk, Spelling;
    assert ([t] + ts)[1..] == ts;
  }

  // ----- what was read -----

  lemma WordRead(b: seq<char>, i: nat)
    requires i <= |b| && TokenAt(b, i).kind == 'a'
    ensures var t := TokenAt(b, i);
            && IsWord(b, Span(t.q, t.eq)) && LegalWord(TextOf(b, Span(t.q, t.eq)))
            && Toks(b, i) == [Word(TextOf(b, Span(t.q, t.eq)))] + Toks(b, t.next)
  {
    hide Toks;
    var t := TokenAt(b, i);
    forall k | 0 <= k < t.eq - t.q ensures WordChar(b[t.q..t.eq][k]) { assert b[t.q..t.eq][k] == b[t.q + k]; }
    ToksStep(b, i);
  }

  lemma ToksStep(b: seq<char>, i: nat)
    requires i <= |b| && TokenAt(b, i).kind != '\0'
    ensures Toks(b, i) == [TokOf(b, TokenAt(b, i))] + Toks(b, TokenAt(b, i).next)
  {}

  lemma OpRead(b: seq<char>, i: nat) returns (op: Op)
    requires i <= |b| && Ahead(b, i, "<>")
    ensures var t := TokenAt(b, i); Toks(b, i) == [OpTok(op)] + Toks(b, t.next) && (t.kind == '<' <==> op == In)
  {
    hide Toks;
    var t := TokenAt(b, i);
    ToksStep(b, i);
    op := if t.kind == '<' then In else if t.kind == '>' then Out else OutAppend;
  }

  lemma SymRead(b: seq<char>, i: nat, c: char)
    requires i <= |b| && Symbol(c) && c !in "<>" && Ahead(b, i, [c])
    ensures Toks(b, i) == [Sym(c)] + Toks(b, TokenAt(b, i).next)
  {
    hide Toks;
    ToksStep(b, i);
  }

  /** The redirections that were read stand in the line. */
  lemma {:induction false} RedirectsParsed(b: seq<char>, i: nat, acc: seq<Redirection>)
    returns (read: seq<Redirection>, rs: seq<Redirect>)
    requires i <= |b| && AllFiles(b, acc) && ParseRedirs(b, i, acc).Done?
    ensures var p := ParseRedirs(b, i, acc);
            && p.result == acc + read && AllFiles(b, read) && SameFiles(b, read, rs) && RedirectsOk(rs)
            && Toks(b, i) == RedirectsToks(rs) + Toks(b, p.next)
    decreases |b| - i
  {
    hide Skip, TokenAt, Ahead, Toks, IsWord, TextOf, LegalWord, WordChar;
    if !Ahead(b, i, "<>") {
      read, rs := [], [];
      assert acc + read == acc;
      ToksSkip(b, i);
    } else {
      var op := OpRead(b, i);
      var t := TokenAt(b, i);
      var w := TokenAt(b, t.next);
      WordRead(b, t.next);
      var x := Redirection(Span(w.q, w.eq), t.kind == '<');
      var others, more := RedirectsParsed(b, w.next, acc + [x]);
      var r := Redirect(op, TextOf(b, x.file));
      read, rs := [x] + others, [r] + more;
      assert acc + [x] + others == acc + read;
      assert RedirectsToks(rs) == RedirectToks(r) + RedirectsToks(more);
    }
  }

  function Tos(rs: seq<Redirect>): seq<Item> { if rs == [] then [] else [To(rs[0])] + Tos(rs[1..]) }

  lemma FirstTo(r: Redirect, rest: seq<Item>)
    ensures var all := [To(r)] + rest;
            ItemsToks(all) == RedirectToks(r) + ItemsToks(rest) && Args(all) == Args(rest)
                && Files(all) == [r] + Files(rest)
  {
    hide RedirectToks;
    assert ([To(r)] + rest)[1..] == rest;
  }

  lemma {:induction false} TosToks(rs: seq<Redirect>, items: seq<Item>)
    ensures ItemsToks(Tos(rs) + items) == RedirectsToks(rs) + ItemsToks(items)
    decreases |rs|
  {
    hide RedirectToks, ItemsToks;
    if rs == [] {
      assert Tos(rs) + items == items;
    } else {
      TosToks(rs[1..], items);
      assert Tos(rs) + items == [To(rs[0])] + (Tos(rs[1..]) + items);
      FirstTo(rs[0], Tos(rs[1..]) + items);
    }
  }

  /** Redirections in front of other items. */
  lemma {:induction false} TosAre(rs: seq<Redirect>, items: seq<Item>)
    ensures Args(Tos(rs) + items) == Args(items) && Files(Tos(rs) + items) == rs + Files(items)
    decreases |rs|
  {
    hide ItemsToks, RedirectToks, Args, Files;
    if rs == [] {
      assert Tos(rs) + items == items;
    } else {
      var rest := Tos(rs[1..]) + items;
      TosAre(rs[1..], items);
      assert Tos(rs) + items == [To(rs[0])] + rest;
      FirstTo(rs[0], rest);
      assert rs == [rs[0]] + rs[1..];
    }
  }

  predicate ItemsOk(items: seq<Item>) {
    forall k | 0 <= k < |items| :: LegalWord(if items[k].Arg? then items[k].w else items[k].r.file)
  }

  lemma {:induction false} TosOk(rs: seq<Redirect>)
    requires RedirectsOk(rs)
    ensures ItemsOk(Tos(rs))
  {
    hide LegalWord;
    if rs != [] {
      assert LegalWord(rs[0].file) && RedirectsOk(rs[1..]);
      TosOk(rs[1..]);
    }
  }

  lemma ItemsMore(w: string, rs: seq<Redirect>, items: seq<Item>)
    requires LegalWord(w) && RedirectsOk(rs) && ItemsOk(items)
    ensures var all := [Arg(w)] + (Tos(rs) + items);
            && ItemsOk(all) && Args(all) == [w] + Args(items) && Files(all) == rs + Files(items)
            && ItemsToks(all) == [Word(w)] + (RedirectsToks(rs) + ItemsToks(items))
  {
    hide LegalWord;
    TosOk(rs);
    TosAre(rs, items);
    TosToks(rs, items);
    var tail := Tos(rs) + items;
    assert ([Arg(w)] + tail)[1..] == tail;
  }

  /** What follows the words argv and redirections rs in a simple command. */
  ghost predicate ArgsAre(b: seq<char>, i: nat, argv: seq<Span>, rs: seq<Redirection>, p: Parse<Cmd<Span>>,
      items: seq<Item>, words: seq<Span>, read: seq<Redirection>)
    requires i <= |b|
  {
    && p.Done? && p.next <= |b| && AllWords(b, Exec(argv + words)) && AllWords(b, Exec(words))
    && Texts(b, words) == Args(items)
    && AllFiles(b, rs + read) && AllFiles(b, read) && SameFiles(b, read, Files(items))
    && p.result == Wrap(Exec(argv + words), rs + read) && ItemsOk(items)
    && Toks(b, i) == ItemsToks(items) + Toks(b, p.next)
  }

  lemma {:induction false} ArgsParsed(b: seq<char>, i: nat, argv: seq<Span>, rs: seq<Redirection>)
    returns (items: seq<Item>, words: seq<Span>, read: seq<Redirection>)
    requires i <= |b| && AllWords(b, Exec(argv)) && AllFiles(b, rs) && ParseArgs(b, i, argv, rs).Done?
    ensures ArgsAre(b, i, argv, rs, ParseArgs(b, i, argv, rs), items, words, read)
    decreases |b| - i
  {
    hide Skip, TokenAt, Ahead, Toks, IsWord, TextOf, Wrap, ParseRedirs, LegalWord, SameFiles, ItemsOk, Sound;
    var t := TokenAt(b, i);
    if Ahead(b, i, "|)&;") || t.kind == '\0' {
      items, words, read := [], [], [];
      NoItems(b, i, argv, rs);
    } else {
      var x := Span(t.q, t.eq);
      ArgsUnfold(b, i, argv, rs);
      var p := ParseRedirs(b, t.next, rs);
      var items1, words1, read1 := ArgsParsed(b, p.next, argv + [x], p.result);
      items, words, read := ArgsJoin(b, i, argv, rs, items1, words1, read1);
    }
  }

  lemma ArgsUnfold(b: seq<char>, i: nat, argv: seq<Span>, rs: seq<Redirection>)
    requires i <= |b| && AllWords(b, Exec(argv)) && AllFiles(b, rs) && ParseArgs(b, i, argv, rs).Done?
    requires !Ahead(b, i, "|)&;") && TokenAt(b, i).kind != '\0'
    ensures var t := TokenAt(b, i);
            && i < t.next <= |b| && t.kind == 'a' && AllWords(b, Exec(argv + [Span(t.q, t.eq)]))
            && var p := ParseRedirs(b, t.next, rs);
               p.Done? && t.next <= p.next <= |b|
               && ParseArgs(b, i, argv, rs) == ParseArgs(b, p.next, argv + [Span(t.q, t.eq)], p.result)
  {
    hide Skip, TokenAt, Ahead, Wrap, ParseRedirs, IsWord, Sound;
  }

  /** A word, the redirections behind it, and the items that follow. */
  lemma ArgsJoin(b: seq<char>, i: nat, argv: seq<Span>, rs: seq<Redirection>, items1: seq<Item>,
          words1: seq<Span>, read1: seq<Redirection>)
    returns (items: seq<Item>, words: seq<Span>, read: seq<Redirection>)
    requires i <= |b| && AllWords(b, Exec(argv)) && AllFiles(b, rs) && TokenAt(b, i).kind == 'a'
    requires TokenAt(b, i).next <= |b| && ParseRedirs(b, TokenAt(b, i).next, rs).Done?
    requires var t := TokenAt(b, i);
             var p, argv' := ParseRedirs(b, t.next, rs), argv + [Span(t.q, t.eq)];
             && p.next <= |b| && AllWords(b, Exec(argv'))
             && ParseArgs(b, i, argv, rs) == ParseArgs(b, p.next, argv', p.result)
             && ArgsAre(b, p.next, argv', p.result, ParseArgs(b, i, argv, rs), items1, words1, read1)
    ensures ArgsAre(b, i, argv, rs, ParseArgs(b, i, argv, rs), items, words, read)
  {
    hide Skip, TokenAt, Ahead, Toks, IsWord, TextOf, Wrap, ParseRedirs, ParseArgs, LegalWord, SameFiles, ItemsOk, Sound;
    hide Args, Files, ItemsToks, Tos, RedirectsToks, RedirectsOk;
    var t := TokenAt(b, i);
    var x := Span(t.q, t.eq);
    WordRead(b, i);
    var more, files := RedirectsParsed(b, t.next, rs);
    items := [Arg(TextOf(b, x))] + (Tos(files) + items1);
    words, read := [x] + words1, more + read1;
    ItemsMore(TextOf(b, x), files, items1);
    assert argv + [x] + words1 == argv + words && rs + more + read1 == rs + read;
    FilesThen(b, more, files, read1, Files(items1));
    var tail := Toks(b, ParseArgs(b, i, argv, rs).next);
    assert ItemsToks(items) + tail == [Word(TextOf(b, x))] + (RedirectsToks(files) + (ItemsToks(items1) + tail));
  }

  lemma NoItems(b: seq<char>, i: nat, argv: seq<Span>, rs: seq<Redirection>)
    requires i <= |b| && AllWords(b, Exec(argv)) && AllFiles(b, rs)
    requires Ahead(b, i, "|)&;") || TokenAt(b, i).kind == '\0'
    ensures ArgsAre(b, i, argv, rs, ParseArgs(b, i, argv, rs), [], [], [])
  {
    hide Toks, Wrap;
    assert argv + [] == argv && rs + [] == rs;
    ToksSkip(b, i);
    if TokenAt(b, i).kind == '\0' { EndToks(b, i); }
  }

  lemma EndToks(b: seq<char>, i: nat)
    requires i <= |b| && TokenAt(b, i).kind == '\0'
    ensures Toks(b, i) == [] && Toks(b, TokenAt(b, i).next) == []
  {}

  lemma FilesThen(b: seq<char>, a: seq<Redirection>, fa: seq<Redirect>, c: seq<Redirection>, fc: seq<Redirect>)
    requires AllFiles(b, a) && AllFiles(b, c) && SameFiles(b, a, fa) && SameFiles(b, c, fc)
    ensures AllFiles(b, a + c) && SameFiles(b, a + c, fa + fc)
  {
    hide IsWord, TextOf;
  }

  lemma SimpleParsed(b: seq<char>, i: nat) returns (items: seq<Item>)
    requires i <= |b| && !Ahead(b, i, "(") && ParseExec(b, i).Done?
    ensures UnitOk(Simple(items)) && Text(b, ParseExec(b, i).result) == UnitMeans(Simple(items))
    ensures Toks(b, i) == ItemsToks(items) + Toks(b, ParseExec(b, i).next)
  {
    hide Skip, TokenAt, Ahead, Toks, IsWord, TextOf, Wrap, ParseRedirs, ParseArgs, LegalWord, SameFiles, Sound;
    hide Args, Files, ItemsToks, Tos, RedirectsToks, Redirected;
    var p := ParseRedirs(b, i, []);
    var more, files := RedirectsParsed(b, i, []);
    assert [] + more == more;
    var items1, words, read := ArgsParsed(b, p.next, [], p.result);
    items := Tos(files) + items1;
    TosOk(files);
    TosAre(files, items1);
    TosToks(files, items1);
    assert [] + words == words;
    FilesThen(b, more, files, read, Files(items1));
    WrapMeans(b, Exec(words), more + read, Files(items));
  }

  lemma {:induction false} UnitParsed(b: seq<char>, i: nat) returns (u: Unit)
    requires i <= |b| && ParseExec(b, i).Done?
    ensures UnitOk(u) && Text(b, ParseExec(b, i).result) == UnitMeans(u)
    ensures Toks(b, i) == UnitToks(u) + Toks(b, ParseExec(b, i).next)
    decreases |b| - i, 1
  {
    hide Skip, TokenAt, Ahead, Toks, ParseRedirs, Wrap, Text, RedirectsOk, UnitMeans, UnitToks, UnitOk;
    if !Ahead(b, i, "(") {
      var items := SimpleParsed(b, i);
      u := Simple(items);
      UnitIs(u);
    } else {
      u := BlockParsed(b, i);
    }
  }

  lemma UnitIs(u: Unit)
    ensures u.Simple? ==> UnitToks(u) == ItemsToks(u.items)
  {}

  lemma {:induction false} BlockParsed(b: seq<char>, i: nat) returns (u: Unit)
    requires i <= |b| && Ahead(b, i, "(") && ParseBlock(b, i).Done?
    ensures UnitOk(u) && Text(b, ParseBlock(b, i).result) == UnitMeans(u)
    ensures Toks(b, i) == UnitToks(u) + Toks(b, ParseBlock(b, i).next)
    decreases |b| - i, 0
  {
    hide Skip, TokenAt, Ahead, Toks, ParseRedirs, Wrap, Text, RedirectsToks, Redirected, ParseLine;
    SymRead(b, i, '(');
    var j := TokenAt(b, i).next;
    OpenMoves(b, i);
    var body := LineParsed(b, j);
    var p := ParseLine(b, j);
    SymRead(b, p.next, ')');
    var m := TokenAt(b, p.next).next;
    var read, rs := RedirectsParsed(b, m, []);
    assert [] + read == read;
    WrapMeans(b, p.result, read, rs);
    u := Block(body, rs);
    var tail := Toks(b, ParseRedirs(b, m, []).next);
    assert UnitToks(u) + tail == [Sym('(')] + (LineToks(body) + ([Sym(')')] + (RedirectsToks(rs) + tail)));
  }

  lemma OpenMoves(b: seq<char>, i: nat)
    requires i <= |b| && Ahead(b, i, "(")
    ensures i < TokenAt(b, i).next <= |b|
  {}

  lemma {:induction false} PipeParsed(b: seq<char>, i: nat) returns (p: Pipeline)
    requires i <= |b| && ParsePipe(b, i).Done?
    ensures PipeOk(p) && Text(b, ParsePipe(b, i).result) == PipeMeans(p)
    ensures Toks(b, i) == PipeToks(p) + Toks(b, ParsePipe(b, i).next)
    decreases |b| - i, 2
  {
    hide Skip, TokenAt, Ahead, Toks, ParseExec, UnitToks, UnitMeans, UnitOk;
    var u := UnitParsed(b, i);
    var n := ParseExec(b, i).next;
    if !Ahead(b, n, "|") {
      p := One(u);
      ToksSkip(b, n);
    } else {
      SymRead(b, n, '|');
      SymMoves(b, n, '|');
      var rest := PipeParsed(b, TokenAt(b, n).next);
      p := Piped(u, rest);
      var tail := Toks(b, ParsePipe(b, TokenAt(b, n).next).next);
      assert PipeToks(p) + tail == UnitToks(u) + ([Sym('|')] + (PipeToks(rest) + tail));
    }
  }

  lemma SymMoves(b: seq<char>, i: nat, c: char)
    requires i <= |b| && Symbol(c) && Ahead(b, i, [c])
    ensures i < TokenAt(b, i).next <= |b|
  {}

  lemma {:induction false} BacksParsed(b: seq<char>, i: nat, c: Cmd<Span>) returns (n: nat)
    requires i <= |b| && AllWords(b, c)
    ensures var p := ParseBacks(b, i, c);
            && Text(b, p.result) == Backs(Text(b, c), n) && Toks(b, i) == Ands(n) + Toks(b, p.next)
    decreases |b| - i
  {
    hide Skip, TokenAt, Ahead, Toks, Ands;
    if !Ahead(b, i, "&") {
      n := 0;
      NoAnds(Toks(b, i));
      ToksSkip(b, i);
    } else {
      SymRead(b, i, '&');
      SymMoves(b, i, '&');
      var m := BacksParsed(b, TokenAt(b, i).next, Back(c));
      n := m + 1;
      AndsFirst(n);
      BacksBack(Text(b, c), m);
      var tail := Toks(b, ParseBacks(b, i, c).next);
      assert [Sym('&')] + Ands(m) + tail == [Sym('&')] + (Ands(m) + tail);
    }
  }

  lemma {:induction false} LineParsed(b: seq<char>, i: nat) returns (l: Line)
    requires i <= |b| && ParseLine(b, i).Done?
    ensures LineOk(l) && Text(b, ParseLine(b, i).result) == LineMeans(l)
    ensures Toks(b, i) == LineToks(l) + Toks(b, ParseLine(b, i).next)
    decreases |b| - i, 3
  {
    hide Skip, TokenAt, Ahead, Toks, ParsePipe, PipeToks, PipeMeans, PipeOk, Ands, ParseBacks, Backs;
    var p := PipeParsed(b, i);
    var q := ParsePipe(b, i);
    var n := BacksParsed(b, q.next, q.result);
    var r := ParseBacks(b, q.next, q.result);
    if !Ahead(b, r.next, ";") {
      l := Last(p, n);
      ToksSkip(b, r.next);
      assert LineToks(l) + Toks(b, r.next) == PipeToks(p) + (Ands(n) + Toks(b, r.next));
    } else {
      SymRead(b, r.next, ';');
      SymMoves(b, r.next, ';');
      var j := TokenAt(b, r.next).next;
      var rest := LineParsed(b, j);
      l := Then(p, n, rest);
      var tail := Toks(b, ParseLine(b, j).next);
      assert LineToks(l) + tail == PipeToks(p) + (Ands(n) + ([Sym(';')] + (LineToks(rest) + tail)));
    }
  }

  // ----- the parser and the syntax -----

  /** l is a line of the syntax that b spells. */
  ghost predicate Written(b: seq<char>, l: Line) { LineOk(l) && Spells(b, 0, LineToks(l)) }

  /** The parser accepts exactly the lines of the syntax, and reads each with its meaning. */
  lemma ParsesSyntax(b: seq<char>)
    ensures ParseCmd(b).Done? <==> exists l :: Written(b, l)
    ensures forall l | Written(b, l) :: Text(b, ParseCmd(b).result) == LineMeans(l)
  {
    hide ParseLine, Spells, Text, LineMeans, LineOk, LineToks;
    forall l | Written(b, l) ensures ParseCmd(b).Done? && Text(b, ParseCmd(b).result) == LineMeans(l) {
      LineMeant(b, l);
    }
    if ParseCmd(b).Done? {
      var l := LineParsed(b, 0);
      ToksSpell(b, 0);
      ToksSkip(b, ParseLine(b, 0).next);
      assert LineToks(l) + [] == LineToks(l);
      assert Written(b, l);
    }
  }
}
