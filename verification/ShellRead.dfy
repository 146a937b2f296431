/** The parser reads exactly the lines that the syntax has, with their meaning. */
module ShellRead {
  import opened ShellGrammar
  import opened ShellSyntax

  // ----- tokens -----

  function Kind(t: Tok): char { match t case Word(_) => 'a' case Sym(c) => c case Append => '+' }

  lemma WordSpelled(b: seq<char>, i: nat, w: string)
    requires i <= |b| && LegalWord(w) && At(b, Skip(b, i), w) && EndsBefore(b, Skip(b, i) + |w|, Word(w))
    ensures var j, n := Skip(b, i), Skip(b, i) + |w|;
            && n <= |b| && TokenAt(b, i) == Token('a', j, n, Skip(b, n)) && IsWord(b, Span(j, n))
            && TextOf(b, Span(j, n)) == w
  {
    hide Skip, WordEnd, White, Symbol;
    var j, n := Skip(b, i), Skip(b, i) + |w|;
    forall k | j <= k < n ensures WordChar(b[k]) { assert b[j..n][k - j] == w[k - j]; }
    assert WordChar(b[j]);
    WordEndIs(b, j, n);
  }

  lemma SymSpelled(b: seq<char>, i: nat, c: char)
    requires i <= |b| && Symbol(c) && At(b, Skip(b, i), [c]) && EndsBefore(b, Skip(b, i) + 1, Sym(c))
    ensures var j, n := Skip(b, i), Skip(b, i) + 1;
            n <= |b| && TokenAt(b, i) == Token(c, j, n, Skip(b, n)) && c != '\0' && b[j] == c
  {
    hide Skip;
    var j := Skip(b, i);
    assert b[j..j + 1][0] == c;
  }

  lemma AppendSpelled(b: seq<char>, i: nat)
    requires i <= |b| && At(b, Skip(b, i), ">>")
    ensures var j, n := Skip(b, i), Skip(b, i) + 2;
            n <= |b| && TokenAt(b, i) == Token('+', j, n, Skip(b, n)) && b[j] == '>'
  {
    hide Skip;
    var j := Skip(b, i);
    assert b[j..j + 2][0] == '>' && b[j..j + 2][1] == '>';
  }

  /** The token t, spelled from the next position that is not white, is read. */
  lemma TokSpelled(b: seq<char>, i: nat, t: Tok)
    requires i <= |b| && TokOk(t) && At(b, Skip(b, i), Spelling(t)) && EndsBefore(b, Skip(b, i) + |Spelling(t)|, t)
    ensures var r, n := TokenAt(b, i), Skip(b, i) + |Spelling(t)|;
            && n <= |b| && r.kind == Kind(t) != '\0' && r.q == Skip(b, i) && r.eq == n && r.next == Skip(b, n)
            && (t.Word? ==> IsWord(b, Span(r.q, r.eq)) && TextOf(b, Span(r.q, r.eq)) == t.text)
  {
    hide Skip, TokenAt, At, LegalWord, Symbol, EndsBefore, IsWord, TextOf;
    match t {
      case Word(w) => WordSpelled(b, i, w);
      case Sym(c) => SymSpelled(b, i, c);
      case Append => AppendSpelled(b, i);
    }
  }

  lemma SpellsParts(b: seq<char>, i: nat, ts: seq<Tok>)
    requires i <= |b| && Spells(b, i, ts)
    ensures ts == [] ==> Skip(b, i) == |b|
    ensures ts != [] ==> TokOk(ts[0]) && At(b, Skip(b, i), Spelling(ts[0]))
                         && EndsBefore(b, Skip(b, i) + |Spelling(ts[0])|, ts[0])
                         && Spells(b, Skip(b, i) + |Spelling(ts[0])|, ts[1..])
  {
    hide Skip, At, EndsBefore, TokOk, Spelling;
  }

  /** The next token of a line that spells ts is the first of ts, and behind it stand the others. */
  lemma TokenSpelled(b: seq<char>, i: nat, ts: seq<Tok>)
    requires i <= |b| && Spells(b, i, ts)
    ensures var t := TokenAt(b, i);
            && t.next <= |b| && (t.kind == '\0' <==> ts == []) && (ts == [] ==> t.next == |b| && Spells(b, t.next, ts))
            && (ts != [] ==> i < t.next && TokOk(ts[0]) && t.kind == Kind(ts[0]) && Spells(b, t.next, ts[1..]))
            && (ts != [] && ts[0].Word? ==>
                  IsWord(b, Span(t.q, t.eq)) && TextOf(b, Span(t.q, t.eq)) == ts[0].text)
  {
    hide Skip, TokenAt, At, EndsBefore, IsWord, TextOf, Spells, Spelling, TokOk, Kind;
    SpellsParts(b, i, ts);
    if ts == [] {
      EndSpelled(b, i);
    } else {
      TokSpelled(b, i, ts[0]);
      SpellsSkip(b, Skip(b, i) + |Spelling(ts[0])|, ts[1..]);
    }
  }

  lemma EndSpelled(b: seq<char>, i: nat)
    requires i <= |b| && Skip(b, i) == |b|
    ensures TokenAt(b, i) == Token('\0', |b|, |b|, |b|) && Spells(b, |b|, [])
  {}

  lemma WordEndIs(b: seq<char>, i: nat, n: nat)
    requires i <= n <= |b| && (forall k | i <= k < n :: WordChar(b[k])) && (n < |b| ==> !WordChar(b[n]))
    ensures WordEnd(b, i) == n
  {
    var m := WordEnd(b, i);
    assert m < |b| ==> !WordChar(b[m]);
  }

  lemma SkipAgain(b: seq<char>, i: nat)
    requires i <= |b|
    ensures Skip(b, Skip(b, i)) == Skip(b, i)
  {}

  lemma SpellsFrom(b: seq<char>, i: nat, j: nat, ts: seq<Tok>)
    requires i <= |b| && j <= |b| && Skip(b, i) == Skip(b, j)
    ensures Spells(b, i, ts) <==> Spells(b, j, ts)
  {
    hide Skip, At, EndsBefore, TokOk, Spelling;
  }

  lemma SpellsSkip(b: seq<char>, i: nat, ts: seq<Tok>)
    requires i <= |b|
    ensures Spells(b, Skip(b, i), ts) <==> Spells(b, i, ts)
  {
    hide Skip, At, EndsBefore, TokOk, Spelling;
    SkipAgain(b, i);
    SpellsFrom(b, i, Skip(b, i), ts);
  }

  /** A token starts with one of the symbols. */
  predicate StartsIn(ts: seq<Tok>, toks: seq<char>) {
    ts != [] && (ts[0].Sym? || ts[0].Append?) && (if ts[0].Sym? then ts[0].c else '>') in toks
  }

  lemma AheadSpelled(b: seq<char>, i: nat, ts: seq<Tok>, toks: seq<char>)
    requires i <= |b| && Spells(b, i, ts) && forall c | c in toks :: Symbol(c)
    ensures Ahead(b, i, toks) <==> StartsIn(ts, toks)
    ensures Spells(b, Skip(b, i), ts)
  {
    SpellsSkip(b, i, ts);
    if ts != [] {
      var j := Skip(b, i);
      assert b[j] == b[j..j + |Spelling(ts[0])|][0] == Spelling(ts[0])[0];
    }
  }

  /** What may follow: the end, or one of the symbols. */
  predicate Follows(ts: seq<Tok>, toks: seq<char>) { ts == [] || (ts[0].Sym? && ts[0].c in toks) }

  // ----- every line of the syntax is read with its meaning -----

  /** The parse gives a command with meaning c, and leaves the tokens rest. */
  ghost predicate Reads(b: seq<char>, p: Parse<Cmd<Span>>, c: Cmd<string>, rest: seq<Tok>) {
    p.Done? && p.next <= |b| && AllWords(b, p.result) && Text(b, p.result) == c && Spells(b, p.next, rest)
  }

  lemma RedirectsStop(b: seq<char>, i: nat, ts: seq<Tok>, acc: seq<Redirection>)
    requires i <= |b| && AllFiles(b, acc) && Spells(b, i, ts) && !StartsIn(ts, "<>")
    ensures ParseRedirs(b, i, acc) == Done(acc, Skip(b, i)) && Spells(b, Skip(b, i), ts)
  {
    AheadSpelled(b, i, ts, "<>");
  }

  lemma RedirectStep(b: seq<char>, i: nat, r: Redirect, rest: seq<Tok>, acc: seq<Redirection>)
    returns (x: Redirection, n: nat)
    requires i <= |b| && AllFiles(b, acc) && Spells(b, i, RedirectToks(r) + rest)
    ensures IsWord(b, x.file) && TextOf(b, x.file) == r.file && x.input == (r.op == In)
    ensures i < n <= |b| && Spells(b, n, rest) && ParseRedirs(b, i, acc) == ParseRedirs(b, n, acc + [x])
  {
    hide Skip, TokenAt, Spells, TextOf;
    var ts := RedirectToks(r) + rest;
    assert ts[1..] == [Word(r.file)] + rest && ts[1..][1..] == rest;
    AheadSpelled(b, i, ts, "<>");
    TokenSpelled(b, i, ts);
    var t := TokenAt(b, i);
    TokenSpelled(b, t.next, ts[1..]);
    var w := TokenAt(b, t.next);
    x, n := Redirection(Span(w.q, w.eq), t.kind == '<'), w.next;
  }

  lemma {:induction false} RedirectsRead(b: seq<char>, i: nat, rs: seq<Redirect>, rest: seq<Tok>, acc: seq<Redirection>)
    returns (read: seq<Redirection>, n: nat)
    requires i <= |b| && AllFiles(b, acc) && Spells(b, i, RedirectsToks(rs) + rest) && !StartsIn(rest, "<>")
    ensures AllFiles(b, read) && SameFiles(b, read, rs) && n <= |b| && Spells(b, n, rest)
    ensures ParseRedirs(b, i, acc) == Done(acc + read, n)
    decreases |rs|
  {
    hide Skip, TokenAt, Spells, TextOf, IsWord, ParseRedirs, StartsIn;
    if rs == [] {
      assert RedirectsToks(rs) + rest == rest;
      RedirectsStop(b, i, rest, acc);
      read, n := [], Skip(b, i);
      assert acc + read == acc;
    } else {
      var more := RedirectsToks(rs[1..]) + rest;
      assert RedirectsToks(rs) + rest == RedirectToks(rs[0]) + more;
      var x, m := RedirectStep(b, i, rs[0], more, acc);
      var others;
      others, n := RedirectsRead(b, m, rs[1..], rest, acc + [x]);
      read := [x] + others;
      assert acc + [x] + others == acc + read;
    }
  }

  /** What is left of a simple command that has the words argv and the redirections rs. */
  function ParseItems(b: seq<char>, i: nat, argv: seq<Span>, rs: seq<Redirection>): Parse<Cmd<Span>>
    requires i <= |b| && AllWords(b, Exec(argv)) && AllFiles(b, rs)
  {
    var p := ParseRedirs(b, i, rs);
    if p.Fail? then Fail else ParseArgs(b, p.next, argv, p.result)
  }

  lemma ItemsStop(b: seq<char>, i: nat, ts: seq<Tok>, argv: seq<Span>, rs: seq<Redirection>)
    requires i <= |b| && AllWords(b, Exec(argv)) && AllFiles(b, rs) && Spells(b, i, ts) && Follows(ts, "|)&;")
    ensures var p := ParseItems(b, i, argv, rs);
            p.Done? && p.result == Wrap(Exec(argv), rs) && p.next <= |b| && Spells(b, p.next, ts)
  {
    hide Skip, TokenAt, Spells, IsWord, Wrap;
    RedirectsStop(b, i, ts, rs);
    var j := Skip(b, i);
    AheadSpelled(b, j, ts, "|)&;");
    TokenSpelled(b, j, ts);
  }

  lemma ArgStep(b: seq<char>, i: nat, w: string, rest: seq<Tok>, argv: seq<Span>, rs: seq<Redirection>)
    returns (x: Span, n: nat)
    requires i <= |b| && AllWords(b, Exec(argv)) && AllFiles(b, rs) && |argv| + 1 < MAXARGS
    requires Spells(b, i, [Word(w)] + rest)
    ensures IsWord(b, x) && TextOf(b, x) == w && AllWords(b, Exec(argv + [x]))
    ensures i < n <= |b| && Spells(b, n, rest) && ParseItems(b, i, argv, rs) == ParseItems(b, n, argv + [x], rs)
  {
    hide Skip, TokenAt, Spells, Wrap, TextOf;
    var ts := [Word(w)] + rest;
    assert ts[1..] == rest;
    RedirectsStop(b, i, ts, rs);
    var j := Skip(b, i);
    AheadSpelled(b, j, ts, "|)&;");
    TokenSpelled(b, j, ts);
    var t := TokenAt(b, j);
    x, n := Span(t.q, t.eq), t.next;
    SkipForward(b, i);
  }

  lemma SkipForward(b: seq<char>, i: nat)
    requires i <= |b|
    ensures i <= Skip(b, i) <= |b|
  {}

  /** The items of a simple command have been read as these words and redirections. */
  ghost predicate ItemsAre(b: seq<char>, items: seq<Item>, words: seq<Span>, read: seq<Redirection>) {
    && (forall k | 0 <= k < |words| :: IsWord(b, words[k])) && Texts(b, words) == Args(items)
    && AllFiles(b, read) && SameFiles(b, read, Files(items))
  }

  lemma ItemsAreArg(b: seq<char>, items: seq<Item>, words: seq<Span>, read: seq<Redirection>, x: Span)
    requires items != [] && items[0].Arg? && ItemsAre(b, items[1..], words, read)
    requires IsWord(b, x) && TextOf(b, x) == items[0].w
    ensures ItemsAre(b, items, [x] + words, read)
  {
    hide IsWord, TextOf, AllFiles;
    assert Texts(b, [x] + words) == [items[0].w] + Texts(b, words);
    assert Files(items) == Files(items[1..]);
  }

  lemma ItemsAreTo(b: seq<char>, items: seq<Item>, words: seq<Span>, read: seq<Redirection>, x: Redirection)
    requires items != [] && items[0].To? && ItemsAre(b, items[1..], words, read)
    requires IsWord(b, x.file) && TextOf(b, x.file) == items[0].r.file && x.input == (items[0].r.op == In)
    ensures ItemsAre(b, items, words, [x] + read)
  {
    hide IsWord, TextOf;
    assert Args(items) == Args(items[1..]);
    assert Files(items) == [items[0].r] + Files(items[1..]);
  }

  /** The items of a simple command are read: its words in order, its redirections in order. */
  lemma {:induction false} ItemsRead(b: seq<char>, i: nat, items: seq<Item>, rest: seq<Tok>, argv: seq<Span>,
          rs: seq<Redirection>) returns (words: seq<Span>, read: seq<Redirection>)
    requires i <= |b| && AllWords(b, Exec(argv)) && AllFiles(b, rs) && |argv| + |Args(items)| < MAXARGS
    requires Spells(b, i, ItemsToks(items) + rest) && Follows(rest, "|)&;")
    ensures ItemsAre(b, items, words, read)
    ensures var p := ParseItems(b, i, argv, rs);
            p.Done? && p.result == Wrap(Exec(argv + words), rs + read) && p.next <= |b| && Spells(b, p.next, rest)
    decreases |items|
  {
    hide Skip, TokenAt, Spells, Wrap, TextOf, IsWord, ParseItems, Follows, ItemsAre, Files, RedirectToks;
    if items == [] {
      assert ItemsToks(items) + rest == rest;
      words, read := [], [];
      assert argv + words == argv && rs + read == rs;
      NoItemsAre(b);
      ItemsStop(b, i, rest, argv, rs);
    } else {
      var more := ItemsToks(items[1..]) + rest;
      if items[0].Arg? {
        assert ItemsToks(items) + rest == [Word(items[0].w)] + more;
        var x, n := ArgStep(b, i, items[0].w, more, argv, rs);
        var others;
        others, read := ItemsRead(b, n, items[1..], rest, argv + [x], rs);
        words := [x] + others;
        ItemsAreArg(b, items, others, read, x);
        assert argv + [x] + others == argv + words;
      } else {
        assert ItemsToks(items) + rest == RedirectToks(items[0].r) + more;
        var x, n := RedirectStep(b, i, items[0].r, more, rs);
        ItemsNext(b, i, n, argv, rs, x);
        var others;
        words, others := ItemsRead(b, n, items[1..], rest, argv, rs + [x]);
        read := [x] + others;
        ItemsAreTo(b, items, words, others, x);
        assert rs + [x] + others == rs + read;
      }
    }
  }

  lemma NoItemsAre(b: seq<char>)
    ensures ItemsAre(b, [], [], [])
  {}

  lemma ItemsNext(b: seq<char>, i: nat, n: nat, argv: seq<Span>, rs: seq<Redirection>, x: Redirection)
    requires i <= |b| && n <= |b| && AllWords(b, Exec(argv)) && AllFiles(b, rs) && IsWord(b, x.file)
    requires ParseRedirs(b, i, rs) == ParseRedirs(b, n, rs + [x])
    ensures ParseItems(b, i, argv, rs) == ParseItems(b, n, argv, rs + [x])
  {}

  lemma SimpleRead(b: seq<char>, i: nat, items: seq<Item>, rest: seq<Tok>)
    requires i <= |b| && UnitOk(Simple(items)) && Spells(b, i, ItemsToks(items) + rest) && Follows(rest, "|)&;")
    ensures Reads(b, ParseExec(b, i), UnitMeans(Simple(items)), rest)
  {
    hide Skip, TokenAt, Spells, Wrap, TextOf, IsWord, ParseArgs, ParseRedirs, ParseBlock, Follows;
    NotOpen(b, i, items, rest);
    var words, read := ItemsRead(b, i, items, rest, [], []);
    assert [] + words == words && [] + read == read;
    WrapMeans(b, Exec(words), read, Files(items));
  }

  /** A simple command does not start with a parenthesis. */
  lemma NotOpen(b: seq<char>, i: nat, items: seq<Item>, rest: seq<Tok>)
    requires i <= |b| && Spells(b, i, ItemsToks(items) + rest) && Follows(rest, "|)&;")
    ensures !Ahead(b, i, "(")
  {
    AheadSpelled(b, i, ItemsToks(items) + rest, "(");
  }

  lemma SymStep(b: seq<char>, i: nat, c: char, rest: seq<Tok>)
    requires i <= |b| && Symbol(c) && c != '>' && Spells(b, i, [Sym(c)] + rest)
    ensures Ahead(b, i, [c]) && i < TokenAt(b, i).next <= |b| && Spells(b, TokenAt(b, i).next, rest)
  {
    var ts := [Sym(c)] + rest;
    assert ts[1..] == rest;
    AheadSpelled(b, i, ts, [c]);
    TokenSpelled(b, i, ts);
  }

  lemma {:induction false} UnitRead(b: seq<char>, i: nat, u: Unit, rest: seq<Tok>)
    requires i <= |b| && UnitOk(u) && Spells(b, i, UnitToks(u) + rest) && Follows(rest, "|)&;")
    ensures Reads(b, ParseExec(b, i), UnitMeans(u), rest)
    decreases u
  {
    hide Skip, TokenAt, Spells, Wrap, Text, Ahead, ParseRedirs, ParseLine, RedirectsToks, Redirected;
    match u
    case Simple(items) => SimpleRead(b, i, items, rest);
    case Block(body, rs) =>
      var close := [Sym(')')] + (RedirectsToks(rs) + rest);
      assert UnitToks(u) + rest == [Sym('(')] + (LineToks(body) + close);
      SymStep(b, i, '(', LineToks(body) + close);
      var j := TokenAt(b, i).next;
      LineRead(b, j, body, close);
      var p := ParseLine(b, j);
      SymStep(b, p.next, ')', RedirectsToks(rs) + rest);
      var read, n := RedirectsRead(b, TokenAt(b, p.next).next, rs, rest, []);
      assert [] + read == read;
      WrapMeans(b, p.result, read, rs);
  }

  lemma {:induction false} PipeRead(b: seq<char>, i: nat, p: Pipeline, rest: seq<Tok>)
    requires i <= |b| && PipeOk(p) && Spells(b, i, PipeToks(p) + rest) && Follows(rest, ")&;")
    ensures Reads(b, ParsePipe(b, i), PipeMeans(p), rest)
    decreases p
  {
    hide Skip, TokenAt, Spells, Ahead, ParseExec, UnitToks, UnitMeans;
    match p
    case One(u) =>
      UnitRead(b, i, u, rest);
      AheadSpelled(b, ParseExec(b, i).next, rest, "|");
    case Piped(u, more) =>
      var tail := [Sym('|')] + (PipeToks(more) + rest);
      assert PipeToks(p) + rest == UnitToks(u) + tail;
      UnitRead(b, i, u, tail);
      SymStep(b, ParseExec(b, i).next, '|', PipeToks(more) + rest);
      PipeRead(b, TokenAt(b, ParseExec(b, i).next).next, more, rest);
  }

  lemma AndsFirst(n: nat)
    requires n > 0
    ensures Ands(n) == [Sym('&')] + Ands(n - 1)
  {}

  lemma BacksBack(c: Cmd<string>, n: nat)
    ensures Backs(Back(c), n) == Back(Backs(c, n))
  {}

  lemma {:induction false} BacksRead(b: seq<char>, i: nat, c: Cmd<Span>, n: nat, rest: seq<Tok>)
    requires i <= |b| && AllWords(b, c) && Spells(b, i, Ands(n) + rest) && Follows(rest, ");")
    ensures Reads(b, ParseBacks(b, i, c), Backs(Text(b, c), n), rest)
    decreases n
  {
    hide Skip, TokenAt, Spells, Ahead, Ands;
    if n == 0 {
      NoAnds(rest);
      AheadSpelled(b, i, rest, "&");
    } else {
      AndsFirst(n);
      assert Ands(n) + rest == [Sym('&')] + (Ands(n - 1) + rest);
      SymStep(b, i, '&', Ands(n - 1) + rest);
      BacksRead(b, TokenAt(b, i).next, Back(c), n - 1, rest);
      BacksBack(Text(b, c), n - 1);
    }
  }

  lemma NoAnds(rest: seq<Tok>)
    ensures Ands(0) + rest == rest
  {}

  lemma AndsFollow(n: nat, rest: seq<Tok>)
    requires Follows(rest, ");")
    ensures Follows(Ands(n) + rest, ")&;")
  {}

  lemma {:induction false} LineRead(b: seq<char>, i: nat, l: Line, rest: seq<Tok>)
    requires i <= |b| && LineOk(l) && Spells(b, i, LineToks(l) + rest) && Follows(rest, ")")
    ensures Reads(b, ParseLine(b, i), LineMeans(l), rest)
    decreases l
  {
    hide Skip, TokenAt, Spells, Ahead, ParsePipe, PipeToks, PipeMeans, Ands, Backs, ParseBacks;
    match l
    case Last(p, n) =>
      assert LineToks(l) + rest == PipeToks(p) + (Ands(n) + rest);
      AndsFollow(n, rest);
      PipeRead(b, i, p, Ands(n) + rest);
      var q := ParsePipe(b, i);
      BacksRead(b, q.next, q.result, n, rest);
      AheadSpelled(b, ParseBacks(b, q.next, q.result).next, rest, ";");
    case Then(p, n, more) =>
      var tail := [Sym(';')] + (LineToks(more) + rest);
      assert LineToks(l) + rest == PipeToks(p) + (Ands(n) + tail);
      AndsFollow(n, tail);
      PipeRead(b, i, p, Ands(n) + tail);
      var q := ParsePipe(b, i);
      BacksRead(b, q.next, q.result, n, tail);
      var r := ParseBacks(b, q.next, q.result);
      SymStep(b, r.next, ';', LineToks(more) + rest);
      LineRead(b, TokenAt(b, r.next).next, more, rest);
  }

  /** A line of the syntax is read, with its meaning. */
  lemma LineMeant(b: seq<char>, l: Line)
    requires LineOk(l) && Spells(b, 0, LineToks(l))
    ensures var p := ParseCmd(b); p.Done? && AllWords(b, p.result) && Text(b, p.result) == LineMeans(l)
  {
    assert LineToks(l) + [] == LineToks(l);
    LineRead(b, 0, l, []);
  }
}
