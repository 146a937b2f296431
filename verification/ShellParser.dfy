/** The shell's parser: a cursor moves over the command line, and at the end the words are
    terminated in place. */
module ShellParser {
  import opened Wrappers
  import opened ShellGrammar
  import ShellSyntax
  import ShellParsed

  /** strchr(whitespace, c), which also finds the terminator. */
  predicate InWhite(c: char) { White(c) || c == '\0' }

  predicate InSymbols(c: char) { Symbol(c) || c == '\0' }

  /** What a parsing method returns and where it leaves the cursor, as the grammar has it; a panic
      is none. */
  ghost predicate Agrees<R>(r: Option<R>, ps: nat, p: Parse<R>) {
    if p.Done? then r == Some(p.result) && ps == p.next else r == None
  }

  /** The positions behind the words of c. */
  ghost function Ends(c: Cmd<Span>): set<nat> {
    match c
    case Exec(argv) => set w | w in argv :: w.eq
    case Redir(d, file, _) => Ends(d) + {file.eq}
    case Pipe(l, r) => Ends(l) + Ends(r)
    case List(l, r) => Ends(l) + Ends(r)
    case Back(d) => Ends(d)
  }

  /** Read as a string with a terminator, the word w of the line b is just the characters of w. */
  ghost predicate ReadsAs(buf: seq<char>, b: seq<char>, w: Span) {
    IsWord(b, w) && w.eq < |buf| && buf[w.q..w.eq] == TextOf(b, w) && '\0' !in TextOf(b, w) && buf[w.eq] == '\0'
  }

  ghost predicate AllRead(buf: seq<char>, b: seq<char>, c: Cmd<Span>) {
    match c
    case Exec(argv) => forall w | w in argv :: ReadsAs(buf, b, w)
    case Redir(d, file, _) => AllRead(buf, b, d) && ReadsAs(buf, b, file)
    case Pipe(l, r) => AllRead(buf, b, l) && AllRead(buf, b, r)
    case List(l, r) => AllRead(buf, b, l) && AllRead(buf, b, r)
    case Back(d) => AllRead(buf, b, d)
  }

  /** The string that starts at q: up to the terminator. */
  function CString(buf: seq<char>, q: nat): string
    requires q <= |buf|
    decreases |buf| - q
  {
    if q == |buf| || buf[q] == '\0' then "" else [buf[q]] + CString(buf, q + 1)
  }

  lemma {:induction false} CStringIs(buf: seq<char>, q: nat, eq: nat)
    requires q <= eq < |buf| && buf[eq] == '\0' && '\0' !in buf[q..eq]
    ensures CString(buf, q) == buf[q..eq]
    decreases eq - q
  {
    if q < eq {
      assert buf[q..eq] == [buf[q]] + buf[q + 1..eq];
      CStringIs(buf, q + 1, eq);
    }
  }

  /** All words lie in the buffer. */
  predicate Inside(buf: seq<char>, c: Cmd<Span>) {
    match c
    case Exec(argv) => forall w | w in argv :: w.q <= |buf|
    case Redir(d, file, _) => Inside(buf, d) && file.q <= |buf|
    case Pipe(l, r) => Inside(buf, l) && Inside(buf, r)
    case List(l, r) => Inside(buf, l) && Inside(buf, r)
    case Back(d) => Inside(buf, d)
  }

  /** The command as the shell runs it: each word is the string that starts where the word does. */
  function Strings(buf: seq<char>, c: Cmd<Span>): Cmd<string>
    requires Inside(buf, c)
  {
    match c
    case Exec(argv) =>
      Exec(seq(|argv|, k requires 0 <= k < |argv| => assert argv[k] in argv; CString(buf, argv[k].q)))
    case Redir(d, file, input) => Redir(Strings(buf, d), CString(buf, file.q), input)
    case Pipe(l, r) => Pipe(Strings(buf, l), Strings(buf, r))
    case List(l, r) => List(Strings(buf, l), Strings(buf, r))
    case Back(d) => Back(Strings(buf, d))
  }

  lemma WordString(buf: seq<char>, b: seq<char>, w: Span)
    requires ReadsAs(buf, b, w)
    ensures w.q <= |buf| && IsWord(b, w) && CString(buf, w.q) == TextOf(b, w)
  {
    hide CString;
    CStringIs(buf, w.q, w.eq);
  }

  /** When every word can be read, the strings in the buffer are the words of the line. */
  lemma {:induction false} StringsAre(buf: seq<char>, b: seq<char>, c: Cmd<Span>)
    requires AllRead(buf, b, c) && AllWords(b, c)
    ensures Inside(buf, c) && Strings(buf, c) == ShellSyntax.Text(b, c)
  {
    hide CString, ReadsAs, IsWord, TextOf;
    match c
    case Exec(argv) => forall w | w in argv { WordString(buf, b, w); }
    case Redir(d, file, _) => StringsAre(buf, b, d); WordString(buf, b, file);
    case Pipe(l, r) => StringsAre(buf, b, l); StringsAre(buf, b, r);
    case List(l, r) => StringsAre(buf, b, l); StringsAre(buf, b, r);
    case Back(d) => StringsAre(buf, b, d);
  }

  /** Where the line b has been overwritten with terminators, no word character stood. */
  ghost predicate Cut(buf: seq<char>, b: seq<char>, ends: set<nat>) {
    && |buf| == |b| + 1 && '\0' !in b && (forall k | k in ends :: k == |b| || (k < |b| && !WordChar(b[k])))
    && forall k: nat | k <= |b| :: buf[k] == if k in ends || k == |b| then '\0' else b[k]
  }

  lemma {:induction false} EndsOfWords(b: seq<char>, c: Cmd<Span>)
    requires AllWords(b, c)
    ensures forall k | k in Ends(c) :: k == |b| || (k < |b| && !WordChar(b[k]))
  {
    match c
    case Exec(argv) =>
      forall k | k in Ends(c) ensures k == |b| || (k < |b| && !WordChar(b[k])) {
        var w :| w in argv && w.eq == k;
        assert IsWord(b, w);
      }
    case Redir(d, file, _) => EndsOfWords(b, d);
    case Pipe(l, r) => EndsOfWords(b, l); EndsOfWords(b, r);
    case List(l, r) => EndsOfWords(b, l); EndsOfWords(b, r);
    case Back(d) => EndsOfWords(b, d);
  }

  lemma WordCut(buf: seq<char>, b: seq<char>, ends: set<nat>, w: Span)
    requires Cut(buf, b, ends) && IsWord(b, w) && w.eq in ends
    ensures ReadsAs(buf, b, w)
  {
    forall k: nat | w.q <= k < w.eq ensures buf[k] == b[k] {
      assert WordChar(b[k]);
    }
    assert buf[w.q..w.eq] == b[w.q..w.eq];
  }

  /** No terminator lands inside a word: each word of c is still read in full, and ends where it
      ended. */
  lemma {:induction false} AllCut(buf: seq<char>, b: seq<char>, ends: set<nat>, c: Cmd<Span>)
    requires Cut(buf, b, ends) && AllWords(b, c) && Ends(c) <= ends
    ensures AllRead(buf, b, c)
  {
    match c
    case Exec(argv) =>
      forall w | w in argv ensures ReadsAs(buf, b, w) {
        assert w.eq in Ends(c) && IsWord(b, w);
        WordCut(buf, b, ends, w);
      }
    case Redir(d, file, _) => AllCut(buf, b, ends, d); WordCut(buf, b, ends, file);
    case Pipe(l, r) => AllCut(buf, b, ends, l); AllCut(buf, b, ends, r);
    case List(l, r) => AllCut(buf, b, ends, l); AllCut(buf, b, ends, r);
    case Back(d) => AllCut(buf, b, ends, d);
  }

  class Parser {
    const buf: array<char>   // the line, with a terminator behind it
    const es: nat            // the end of the line
    var ps: nat              // the cursor

    ghost predicate Valid()
      reads this, buf
    {
      buf.Length == es + 1 && buf[es] == '\0' && '\0' !in buf[..es] && ps <= es
    }

    ghost function Line(): seq<char>
      requires Valid()
      reads this, buf
    {
      buf[..es]
    }

    /** The line is s, and a terminator stands behind it. */
    constructor (s: seq<char>)
      requires '\0' !in s
      ensures Valid() && Line() == s && ps == 0 && fresh(buf)
    {
      buf := new char[|s| + 1](k => if 0 <= k < |s| then s[k] else '\0');
      es := |s|;
      ps := 0;
      new;
      assert buf[..es] == s;
    }

    method SkipWhite(i: nat) returns (s: nat)
      requires Valid() && i <= es
      ensures s == Skip(Line(), i)
    {
      ghost var b := Line();
      s := i;
      while s < es && InWhite(buf[s])
        invariant i <= s <= es && Skip(b, s) == Skip(b, i)
      {
        assert buf[s] == b[s];
        s := s + 1;
      }
      assert s < es ==> buf[s] == b[s];
    }

    method SkipWord(i: nat) returns (s: nat)
      requires Valid() && i <= es
      ensures s == WordEnd(Line(), i)
    {
      hide White, Symbol;
      ghost var b := Line();
      s := i;
      while s < es && !InWhite(buf[s]) && !InSymbols(buf[s])
        invariant i <= s <= es && WordEnd(b, s) == WordEnd(b, i)
      {
        assert buf[s] == b[s];
        s := s + 1;
      }
      assert s < es ==> buf[s] == b[s];
    }

    method Gettoken() returns (ret: char, q: nat, eq: nat)
      requires Valid()
      modifies this`ps
      ensures Valid() && Token(ret, q, eq, ps) == TokenAt(Line(), old(ps))
    {
      hide Skip, WordEnd, IsWord, White;
      ghost var b := Line();
      var s := SkipWhite(ps);
      q := s;
      ret := buf[s];
      assert s < es ==> buf[s] == b[s];
      if buf[s] == '\0' {
      } else if buf[s] in "|();&<" {
        s := s + 1;
      } else if buf[s] == '>' {
        s := s + 1;
        assert s < es ==> buf[s] == b[s];
        if buf[s] == '>' {
          ret := '+';
          s := s + 1;
        }
      } else {
        ret := 'a';
        s := SkipWord(s);
      }
      eq := s;
      s := SkipWhite(s);
      ps := s;
    }

    method Peek(toks: seq<char>) returns (r: bool)
      requires Valid()
      modifies this`ps
      ensures Valid() && ps == Skip(Line(), old(ps)) && r == Ahead(Line(), old(ps), toks)
      ensures Skip(Line(), ps) == ps && r == Ahead(Line(), ps, toks)
    {
      var s := SkipWhite(ps);
      ps := s;
      assert s < es ==> buf[s] == Line()[s];
      r := buf[s] != '\0' && buf[s] in toks;
    }

    /** Parses the line and terminates the words in place. The shell accepts exactly the lines of
        the syntax, the result is what the line means, and each of its words can be read as a string
        from the buffer. */
    method Parsecmd() returns (r: Option<Cmd<Span>>)
      requires Valid() && ps == 0
      modifies this`ps, buf
      ensures r == match ParseCmd(old(Line())) case Fail => None case Done(c, _) => Some(c)
      ensures r.Some? <==> exists l :: ShellParsed.Written(old(Line()), l)
      ensures r.Some? ==> AllWords(old(Line()), r.value) && forall l | ShellParsed.Written(old(Line()), l) ::
                            ShellSyntax.Text(old(Line()), r.value) == ShellSyntax.LineMeans(l)
      ensures r.Some? ==> AllRead(buf[..], old(Line()), r.value)
      ensures r.Some? ==> Inside(buf[..], r.value) && forall l | ShellParsed.Written(old(Line()), l) ::
                            Strings(buf[..], r.value) == ShellSyntax.LineMeans(l)
    {
      hide ParseLine, AllWords, ShellParsed.Written, ShellSyntax.Text, ShellSyntax.LineMeans;
      ghost var b := Line();
      ShellParsed.ParsesSyntax(b);
      r := Parseline();
      if r.None? {
        return;
      }
      var _ := Peek("");
      if ps != es {
        return None;
      }
      Nulterminate(b, r.value);
      EndsOfWords(b, r.value);
      AllCut(buf[..], b, Ends(r.value), r.value);
      StringsAre(buf[..], b, r.value);
    }

    /** Writes a terminator behind every word of c, and nowhere else. */
    method Nulterminate(ghost b: seq<char>, c: Cmd<Span>)
      requires buf.Length == es + 1 && |b| == es && AllWords(b, c)
      modifies buf
      ensures forall k: nat | k <= es :: buf[k] == if k in Ends(c) then '\0' else old(buf[k])
      decreases c
    {
      hide IsWord;
      match c {
        case Exec(argv) =>
          ghost var old_ := buf[..];
          var i := 0;
          while i < |argv|
            invariant i <= |argv|
            invariant forall k: nat | k <= es :: buf[k] == if exists j: nat :: j < i && argv[j].eq == k then '\0'
                                                                               else old_[k]
          {
            WordInside(b, argv[i]);
            buf[argv[i].eq] := '\0';
            i := i + 1;
          }
        case Redir(d, file, _) =>
          Nulterminate(b, d);
          WordInside(b, file);
          buf[file.eq] := '\0';
        case Pipe(l, r) =>
          Nulterminate(b, l);
          Nulterminate(b, r);
        case List(l, r) =>
          Nulterminate(b, l);
          Nulterminate(b, r);
        case Back(d) =>
          Nulterminate(b, d);
      }
    }

    method Parseline() returns (r: Option<Cmd<Span>>)
      requires Valid()
      modifies this`ps
      ensures Valid() && Agrees(r, ps, ParseLine(Line(), old(ps)))
      decreases es - ps, 3
    {
      hide ParsePipe, Skip, IsWord, AllWords, ParseBacks, White, Symbol;
      r := Parsepipe();
      if r.None? {
        return;
      }
      var cmd := Parsebacks(r.value);
      TokenSkip(Line(), ps);
      var more := Peek(";");
      if more {
        var _, _, _ := Gettoken();
        r := Parseline();
        if r.None? {
          return;
        }
        cmd := List(cmd, r.value);
      }
      r := Some(cmd);
    }

    /** The loop over the "&" signs behind c. */
    method Parsebacks(c: Cmd<Span>) returns (cmd: Cmd<Span>)
      requires Valid() && AllWords(Line(), c)
      modifies this`ps
      ensures Valid() && Done(cmd, ps) == ParseBacks(Line(), old(ps), c)
    {
      hide Skip, TokenAt, IsWord, AllWords, Ahead, White;
      ghost var b, i := Line(), ps;
      cmd := c;
      BacksSkip(b, ps, cmd);
      var more := Peek("&");
      while more
        invariant Valid() && i <= ps && AllWords(b, cmd) && more == Ahead(b, ps, "&") && ps == Skip(b, ps)
        invariant ParseBacks(b, ps, cmd) == ParseBacks(b, i, c)
        decreases es - ps
      {
        AheadToken(b, ps, '&');
        BackWords(b, cmd);
        var _, _, _ := Gettoken();
        cmd := Back(cmd);
        BacksSkip(b, ps, cmd);
        more := Peek("&");
      }
    }

    method Parsepipe() returns (r: Option<Cmd<Span>>)
      requires Valid()
      modifies this`ps
      ensures Valid() && Agrees(r, ps, ParsePipe(Line(), old(ps)))
      decreases es - ps, 2
    {
      hide ParseExec, TokenAt, Ahead, Skip;
      r := Parseexec();
      if r.None? {
        return;
      }
      var cmd := r.value;
      SkipTwice(Line(), ps);
      var more := Peek("|");
      if more {
        AheadToken(Line(), ps, '|');
        var _, _, _ := Gettoken();
        r := Parsepipe();
        if r.None? {
          return;
        }
        cmd := Pipe(cmd, r.value);
      }
      r := Some(cmd);
    }

    /** Reads redirections. They go around a command that may still get words, and are kept as a
        list until it is complete. */
    method Parseredirs(rs: seq<Redirection>) returns (r: Option<seq<Redirection>>)
      requires Valid() && AllFiles(Line(), rs)
      modifies this`ps
      ensures Valid() && Agrees(r, ps, ParseRedirs(Line(), old(ps), rs))
    {
      hide Skip, TokenAt, IsWord, Ahead;
      ghost var b, i := Line(), ps;
      var all := rs;
      RedirsSkip(b, ps, all);
      var more := Peek("<>");
      while more
        invariant Valid() && i <= ps && AllFiles(b, all) && more == Ahead(b, ps, "<>") && ps == Skip(b, ps)
        invariant ParseRedirs(b, ps, all) == ParseRedirs(b, i, rs)
        decreases es - ps
      {
        var tok, _, _ := Gettoken();
        var kind, q, eq := Gettoken();
        if kind != 'a' {
          return None;
        }
        all := all + [Redirection(Span(q, eq), tok == '<')];
        RedirsSkip(b, ps, all);
        more := Peek("<>");
      }
      r := Some(all);
    }

    method Parseblock() returns (r: Option<Cmd<Span>>)
      requires Valid()
      modifies this`ps
      ensures Valid() && Agrees(r, ps, ParseBlock(Line(), old(ps)))
      decreases es - ps, 0
    {
      hide ParseLine, ParseRedirs, TokenAt, Ahead, Skip, Wrap;
      SkipTwice(Line(), ps);
      var ok := Peek("(");
      if !ok {
        return None;
      }
      AheadToken(Line(), ps, '(');
      var _, _, _ := Gettoken();
      r := Parseline();
      if r.None? {
        return;
      }
      SkipTwice(Line(), ps);
      ok := Peek(")");
      if !ok {
        return None;
      }
      var _, _, _ := Gettoken();
      var rs := Parseredirs([]);
      if rs.None? {
        return None;
      }
      r := Some(Wrap(r.value, rs.value));
    }

    method Parseexec() returns (r: Option<Cmd<Span>>)
      requires Valid()
      modifies this`ps
      ensures Valid() && Agrees(r, ps, ParseExec(Line(), old(ps)))
      decreases es - ps, 1
    {
      ghost var b, i := Line(), ps;
      SkipTwice(b, ps);
      var block := Peek("(");
      if block {
        BlockSkip(b, i);
        r := Parseblock();
        return;
      }
      RedirsSkip(b, i, []);
      var argv: seq<Span> := [];
      var rs := Parseredirs([]);
      if rs.None? {
        return None;
      }
      r := Parseargs(rs.value);
    }

    /** The loop over the words of a simple command. */
    method Parseargs(rs0: seq<Redirection>) returns (r: Option<Cmd<Span>>)
      requires Valid() && AllFiles(Line(), rs0)
      modifies this`ps
      ensures Valid() && Agrees(r, ps, ParseArgs(Line(), old(ps), [], rs0))
    {
      hide ParseRedirs, ParseArgs, IsWord, Skip, TokenAt, Ahead, Sound, AllWords, AllFiles, Wrap;
      ghost var b, i := Line(), ps;
      var argv: seq<Span>, rs := [], rs0;
      NoWords(b);
      ArgsSkip(b, ps, argv, rs);
      var stop := Peek("|)&;");
      while !stop
        invariant Valid() && i <= ps && AllFiles(b, rs) && AllWords(b, Exec(argv))
        invariant stop == Ahead(b, ps, "|)&;") && ps == Skip(b, ps)
        invariant ParseArgs(b, ps, argv, rs) == ParseArgs(b, i, [], rs0)
        decreases es - ps, |argv|
      {
        ghost var at := ps;
        var tok, q, eq := Gettoken();
        ArgsStep(b, at, argv, rs);
        if tok == '\0' {
          break;
        }
        if tok != 'a' || |argv| + 1 >= MAXARGS {
          return None;
        }
        var more := Parseredirs(rs);
        if more.None? {
          return None;
        }
        argv, rs := argv + [Span(q, eq)], more.value;
        stop := Peek("|)&;");
      }
      if stop { ArgsStop(b, ps, argv, rs); }
      r := Some(Wrap(Exec(argv), rs));
    }
  }

  lemma WordInside(b: seq<char>, w: Span)
    requires IsWord(b, w)
    ensures w.eq <= |b|
  {}

  lemma SkipTwice(b: seq<char>, i: nat)
    requires i <= |b|
    ensures Skip(b, Skip(b, i)) == Skip(b, i) && TokenAt(b, Skip(b, i)) == TokenAt(b, i)
  {}

  lemma BackWords(b: seq<char>, c: Cmd<Span>)
    requires AllWords(b, c)
    ensures AllWords(b, Back(c))
  {}

  /** A symbol ahead is the next token, so reading it moves on. */
  lemma AheadToken(b: seq<char>, i: nat, c: char)
    requires i <= |b| && Symbol(c) && c != '>' && Ahead(b, i, [c])
    ensures TokenAt(b, i).kind == c != '\0' && TokenAt(b, i).next > i
  {}

  lemma TokenSkip(b: seq<char>, i: nat)
    requires i <= |b|
    ensures TokenAt(b, Skip(b, i)) == TokenAt(b, i)
  {
    SkipTwice(b, i);
  }

  lemma BacksSkip(b: seq<char>, i: nat, c: Cmd<Span>)
    requires i <= |b| && AllWords(b, c)
    ensures ParseBacks(b, Skip(b, i), c) == ParseBacks(b, i, c)
  {
    SkipTwice(b, i);
  }

  lemma RedirsSkip(b: seq<char>, i: nat, rs: seq<Redirection>)
    requires i <= |b| && AllFiles(b, rs)
    ensures Skip(b, Skip(b, i)) == Skip(b, i) && ParseRedirs(b, Skip(b, i), rs) == ParseRedirs(b, i, rs)
  {
    SkipTwice(b, i);
  }

  lemma ArgsSkip(b: seq<char>, i: nat, argv: seq<Span>, rs: seq<Redirection>)
    requires i <= |b| && AllWords(b, Exec(argv)) && AllFiles(b, rs)
    ensures Skip(b, Skip(b, i)) == Skip(b, i) && ParseArgs(b, Skip(b, i), argv, rs) == ParseArgs(b, i, argv, rs)
  {
    SkipTwice(b, i);
  }

  lemma NoWords(b: seq<char>)
    ensures AllWords(b, Exec([]))
  {}

  lemma ArgsStop(b: seq<char>, i: nat, argv: seq<Span>, rs: seq<Redirection>)
    requires i <= |b| && AllWords(b, Exec(argv)) && AllFiles(b, rs) && Ahead(b, i, "|)&;")
    ensures ParseArgs(b, i, argv, rs) == Done(Wrap(Exec(argv), rs), Skip(b, i))
  {
    hide Ahead, Skip, Wrap;
  }

  /** What the next token does to the arguments collected so far. */
  lemma ArgsStep(b: seq<char>, i: nat, argv: seq<Span>, rs: seq<Redirection>)
    requires i <= |b| && AllWords(b, Exec(argv)) && AllFiles(b, rs) && !Ahead(b, i, "|)&;")
    ensures var t := TokenAt(b, i);
            if t.kind == '\0' then ParseArgs(b, i, argv, rs) == Done(Wrap(Exec(argv), rs), t.next)
            else if t.kind != 'a' || |argv| + 1 >= MAXARGS then ParseArgs(b, i, argv, rs) == Fail
            else
              var p, argv' := ParseRedirs(b, t.next, rs), argv + [Span(t.q, t.eq)];
              && i < t.next <= |b| && AllWords(b, Exec(argv'))
              && if p.Fail? then ParseArgs(b, i, argv, rs) == Fail
                 else p.next <= |b| && ParseArgs(b, i, argv, rs) == ParseArgs(b, Skip(b, p.next), argv', p.result)
  {
    hide ParseRedirs, Wrap, IsWord, Ahead, Skip, Sound;
    var t := TokenAt(b, i);
    if t.kind == 'a' && |argv| + 1 < MAXARGS {
      var p := ParseRedirs(b, t.next, rs);
      if p.Done? { ArgsSkip(b, p.next, argv + [Span(t.q, t.eq)], p.result); }
    }
  }

  lemma BlockSkip(b: seq<char>, i: nat)
    requires i <= |b|
    ensures ParseBlock(b, Skip(b, i)) == ParseBlock(b, i)
  {
    SkipTwice(b, i);
  }
}
