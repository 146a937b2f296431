/** The regular expressions of grep: a matcher that tries out repetitions, against what it means
    that a text matches. */
module Grep {
  type Text = string

  /** One part of an expression: a character, or any for '.', once or any number of times. */
  datatype Item = Item(c: char, star: bool)

  /** The parts of an expression, and whether it ends with '$'. */
  datatype Pattern = Pattern(items: seq<Item>, atEnd: bool)

  /** How an expression is read: a character before '*' is repeated, and '$' is the end of the text
      only as the last character. */
  function Read(re: Text): Pattern {
    if re == "" then Pattern([], false)
    else if |re| >= 2 && re[1] == '*' then
      var p := Read(re[2..]); Pattern([Item(re[0], true)] + p.items, p.atEnd)
    else if re == "$" then Pattern([], true)
    else
      var p := Read(re[1..]); Pattern([Item(re[0], false)] + p.items, p.atEnd)
  }

  /** How a pattern is written. */
  function Show(p: Pattern): Text
    decreases |p.items|
  {
    if p.items == [] then if p.atEnd then "$" else ""
    else
      [p.items[0].c] + (if p.items[0].star then "*" else "") + Show(Pattern(p.items[1..], p.atEnd))
  }

  /** A character '*' stands for itself only at the start or behind a repetition, and a character '$'
      not at the end. */
  predicate Legal(p: Pattern) {
    && (forall k: nat | 0 < k < |p.items| && p.items[k].c == '*' :: p.items[k - 1].star)
    && (p.items != [] && !p.atEnd ==> p.items[|p.items| - 1] != Item('$', false))
  }

  /** Every expression is read as the one pattern that it writes. */
  lemma {:induction false} ShowRead(re: Text)
    ensures Legal(Read(re)) && Show(Read(re)) == re
    ensures re != "" && re != "$" ==> Read(re).items != [] && Read(re).items[0].c == re[0]
    decreases |re|
  {
    if re == "" || re == "$" {
    } else if |re| >= 2 && re[1] == '*' {
      ShowRead(re[2..]);
      FirstPart(re[0], true, Read(re[2..]));
      assert re == [re[0]] + "*" + re[2..];
    } else {
      ShowRead(re[1..]);
      FirstPart(re[0], false, Read(re[1..]));
      assert re == [re[0]] + "" + re[1..];
      if re[1..] == "" { assert Read("").items == []; }
    }
  }

  /** A part more in front. */
  lemma FirstPart(c: char, star: bool, p: Pattern)
    requires Legal(p) && (p.items != [] && p.items[0].c == '*' ==> star)
    requires p.items == [] && !p.atEnd ==> c != '$' || star
    ensures var q := Pattern([Item(c, star)] + p.items, p.atEnd);
            Legal(q) && Show(q) == [c] + (if star then "*" else "") + Show(p)
  {
    assert ([Item(c, star)] + p.items)[1..] == p.items;
  }

  /** Every legal pattern is what its writing is read as. */
  lemma {:induction false} ReadShow(p: Pattern)
    requires Legal(p)
    ensures Read(Show(p)) == p
    decreases |p.items|
  {
    hide Read, Show, Legal;
    if p.items == [] {
      ShowNone(p);
    } else {
      var rest := Pattern(p.items[1..], p.atEnd);
      RestLegal(p, rest);
      ReadShow(rest);
      ShowFirst(p, rest);
      assert p.items == [p.items[0]] + rest.items;
    }
  }

  lemma ShowNone(p: Pattern)
    requires p.items == []
    ensures Read(Show(p)) == p
  {}

  lemma RestLegal(p: Pattern, rest: Pattern)
    requires Legal(p) && p.items != [] && rest == Pattern(p.items[1..], p.atEnd)
    ensures Legal(rest)
    ensures Show(rest) != "" && rest.items != [] ==> Show(rest)[0] == p.items[1].c
    ensures p.items[0] == Item('$', false) ==> rest.items != [] || rest.atEnd
  {
    assert forall k: nat | k < |rest.items| :: rest.items[k] == p.items[k + 1];
  }

  /** The first part is read, and what is behind it is read as before. */
  lemma ShowFirst(p: Pattern, rest: Pattern)
    requires Legal(p) && p.items != [] && rest == Pattern(p.items[1..], p.atEnd) && Legal(rest)
    requires Show(rest) != "" && rest.items != [] ==> Show(rest)[0] == p.items[1].c
    requires p.items[0] == Item('$', false) ==> rest.items != [] || rest.atEnd
    ensures Read(Show(p)) == Pattern([p.items[0]] + Read(Show(rest)).items, Read(Show(rest)).atEnd)
  {
    var t, re := Show(rest), Show(p);
    if p.items[0].star {
      assert re[2..] == t;
    } else {
      assert re[1..] == t;
    }
  }

  // ----- what it means to match -----

  predicate Fits(c: char, x: char) { c == '.' || c == x }

  predicate Piece(it: Item, w: Text) {
    (it.star || |w| == 1) && forall k | 0 <= k < |w| :: Fits(it.c, w[k])
  }

  function Concat(ws: seq<Text>): Text {
    if ws == [] then "" else ws[0] + Concat(ws[1..])
  }

  /** The pieces ws are one for each part of the pattern, in order. */
  ghost predicate Pieces(items: seq<Item>, ws: seq<Text>) {
    |ws| == |items| && forall k: nat | k < |ws| :: Piece(items[k], ws[k])
  }

  ghost predicate Spells(p: Pattern, text: Text, ws: seq<Text>) {
    Pieces(p.items, ws) && Concat(ws) <= text && (p.atEnd ==> Concat(ws) == text)
  }

  /** The text starts with a match of the pattern. */
  ghost predicate Starts(p: Pattern, text: Text) { exists ws :: Spells(p, text, ws) }

  ghost predicate StartsAt(p: Pattern, text: Text, k: nat) { k <= |text| && Starts(p, text[k..]) }

  /** The expression matches somewhere in the text, or at its start if it begins with '^'. */
  ghost predicate Matches(re: Text, text: Text) {
    if re != "" && re[0] == '^' then Starts(Read(re[1..]), text)
    else exists k: nat :: StartsAt(Read(re), text, k)
  }

  // ----- one part at a time -----

  lemma StartsNone(p: Pattern, text: Text)
    requires p.items == []
    ensures Starts(p, text) <==> (p.atEnd ==> text == "")
  {
    var none: seq<Text> := [];
    if p.atEnd ==> text == "" { assert Spells(p, text, none); }
    if Starts(p, text) {
      var ws :| Spells(p, text, ws);
      assert ws == [];
    }
  }

  function Rest(p: Pattern): Pattern
    requires p.items != []
  {
    Pattern(p.items[1..], p.atEnd)
  }

  /** A first part that takes the first n characters. */
  lemma StartsWith(p: Pattern, text: Text, n: nat)
    requires p.items != [] && n <= |text| && Piece(p.items[0], text[..n]) && Starts(Rest(p), text[n..])
    ensures Starts(p, text)
  {
    var ws :| Spells(Rest(p), text[n..], ws);
    var all := [text[..n]] + ws;
    assert all[1..] == ws && Concat(all) == text[..n] + Concat(ws);
    assert text == text[..n] + text[n..];
    forall k: nat | k < |all| ensures Piece(p.items[k], all[k]) {
      if k > 0 { assert Piece(Rest(p).items[k - 1], ws[k - 1]); }
    }
    assert Spells(p, text, all);
  }

  lemma StartsSplit(p: Pattern, text: Text) returns (n: nat)
    requires p.items != [] && Starts(p, text)
    ensures n <= |text| && Piece(p.items[0], text[..n]) && Starts(Rest(p), text[n..])
  {
    var ws :| Spells(p, text, ws);
    var w, rest := ws[0], ws[1..];
    n := |w|;
    assert Piece(p.items[0], w);
    assert Concat(ws) == w + Concat(rest);
    assert text[..n] == Concat(ws)[..n] == w;
    assert text[n..][..|Concat(rest)|] == text[n..n + |Concat(rest)|] == Concat(ws)[n..] == Concat(rest);
    forall k: nat | k < |rest| ensures Piece(Rest(p).items[k], rest[k]) {
      assert Piece(p.items[k + 1], ws[k + 1]);
    }
    assert Spells(Rest(p), text[n..], rest);
  }

  /** A part that takes one character. */
  lemma StartsOne(p: Pattern, text: Text)
    requires p.items != [] && !p.items[0].star
    ensures Starts(p, text) <==> text != "" && Fits(p.items[0].c, text[0]) && Starts(Rest(p), text[1..])
  {
    if Starts(p, text) { var n := StartsSplit(p, text); }
    if text != "" && Fits(p.items[0].c, text[0]) && Starts(Rest(p), text[1..]) { StartsWith(p, text, 1); }
  }

  /** A repeated part takes nothing, or one character more. */
  lemma StartsStar(p: Pattern, text: Text)
    requires p.items != [] && p.items[0].star
    ensures Starts(p, text) <==>
            Starts(Rest(p), text) || (text != "" && Fits(p.items[0].c, text[0]) && Starts(p, text[1..]))
  {
    if Starts(p, text) {
      var n := StartsSplit(p, text);
      assert text[0..] == text;
      if n > 0 {
        assert Fits(p.items[0].c, text[..n][0]);
        var t := text[1..];
        var u := t[..n - 1];
        assert u == text[..n][1..] && t[n - 1..] == text[n..];
        forall k | 0 <= k < |u| ensures Fits(p.items[0].c, u[k]) {
          assert u[k] == text[..n][k + 1];
        }
        StartsWith(p, t, n - 1);
      }
    }
    if Starts(Rest(p), text) {
      assert text[0..] == text && text[..0] == "";
      StartsWith(p, text, 0);
    }
    if text != "" && Fits(p.items[0].c, text[0]) && Starts(p, text[1..]) {
      var n := StartsSplit(p, text[1..]);
      assert text[1..][n..] == text[n + 1..] && text[..n + 1] == [text[0]] + text[1..][..n];
      StartsWith(p, text, n + 1);
    }
  }

  /** Plain characters. */
  predicate Plain(re: Text) { forall k | 0 <= k < |re| :: re[k] !in ".*$^" }

  lemma {:induction false} PlainStarts(re: Text, text: Text)
    requires Plain(re)
    ensures Starts(Read(re), text) <==> re <= text
  {
    if re == "" {
      StartsNone(Read(re), text);
    } else {
      assert Rest(Read(re)) == Read(re[1..]);
      StartsOne(Read(re), text);
      if text != "" {
        PlainStarts(re[1..], text[1..]);
        assert re == [re[0]] + re[1..] && text == [text[0]] + text[1..];
      }
    }
  }

  /** Plain characters match where they occur in the text. */
  lemma PlainMatches(re: Text, text: Text)
    requires Plain(re)
    ensures Matches(re, text) <==> exists k: nat :: k <= |text| && re <= text[k..]
  {
    forall k: nat | k <= |text| ensures StartsAt(Read(re), text, k) <==> re <= text[k..] {
      PlainStarts(re, text[k..]);
    }
  }

  /** With '$' behind them they have to be the whole text. */
  lemma {:induction false} PlainEnds(re: Text, text: Text)
    requires Plain(re)
    ensures Starts(Read(re + "$"), text) <==> re == text
  {
    var all := re + "$";
    if re == "" {
      assert all == "$";
      StartsNone(Read(all), text);
    } else {
      assert all[1..] == re[1..] + "$" && all[1] != '*';
      assert Rest(Read(all)) == Read(all[1..]);
      StartsOne(Read(all), text);
      if text != "" {
        PlainEnds(re[1..], text[1..]);
        assert re == [re[0]] + re[1..] && text == [text[0]] + text[1..];
      }
    }
  }

  /** A '.' stands for any one character. */
  lemma DotStarts(re: Text, text: Text)
    requires re == "" || re[0] != '*'
    ensures Starts(Read("." + re), text) <==> text != "" && Starts(Read(re), text[1..])
  {
    var all := "." + re;
    assert all[0] == '.' && all[1..] == re && (re != "" ==> all[1] == re[0]);
    assert Rest(Read(all)) == Read(re);
    StartsOne(Read(all), text);
  }

  /** n times c, or n characters for '.', and then the rest of the expression. */
  ghost predicate RepeatThen(c: char, re: Text, text: Text, n: nat) {
    n <= |text| && (c == '.' || forall k | 0 <= k < n :: text[k] == c) && Starts(Read(re), text[n..])
  }

  lemma RepeatMore(c: char, re: Text, text: Text, n: nat)
    requires text != ""
    ensures RepeatThen(c, re, text, n + 1) <==> (c == '.' || text[0] == c) && RepeatThen(c, re, text[1..], n)
  {
    hide Starts, Read;
    var t := text[1..];
    if n <= |t| { assert t[n..] == text[n + 1..]; }
    assert forall k: nat | k < |t| :: t[k] == text[k + 1];
  }

  /** A character with '*' stands for any number of it, and ".*" for anything. */
  lemma {:induction false} StarStarts(c: char, re: Text, text: Text)
    ensures Starts(Read([c] + "*" + re), text) <==> exists n: nat :: RepeatThen(c, re, text, n)
    decreases |text|
  {
    StarReads(c, re);
    var p := Read([c] + "*" + re);
    hide Starts, Read;
    StartsStar(p, text);
    assert text[0..] == text;
    assert Starts(Read(re), text) <==> RepeatThen(c, re, text, 0);
    if text != "" {
      StarStarts(c, re, text[1..]);
      hide RepeatThen;
      if n: nat :| RepeatThen(c, re, text, n) {
        if n > 0 { RepeatMore(c, re, text, n - 1); }
      }
      if (c == '.' || text[0] == c) && exists n: nat :: RepeatThen(c, re, text[1..], n) {
        var n: nat :| RepeatThen(c, re, text[1..], n);
        RepeatMore(c, re, text, n);
        assert RepeatThen(c, re, text, n + 1);
      }
    } else {
      forall n: nat | RepeatThen(c, re, text, n) ensures n == 0 {}
    }
  }

  lemma StarReads(c: char, re: Text)
    ensures var p := Read([c] + "*" + re); p.items != [] && p.items[0] == Item(c, true) && Rest(p) == Read(re)
  {
    assert ([c] + "*" + re)[2..] == re;
  }

  // ----- the matcher -----

  method Match(re: Text, text: Text) returns (r: bool)
    requires '\0' !in re && '\0' !in text
    ensures r == Matches(re, text)
  {
    if re != "" && re[0] == '^' {
      r := MatchHere(re[1..], text);
      return;
    }
    var i := 0;
    while true   // also tries the empty rest of the text
      invariant i <= |text| && forall k: nat | k < i :: !StartsAt(Read(re), text, k)
      decreases |text| - i
    {
      r := MatchHere(re, text[i..]);
      if r {
        assert StartsAt(Read(re), text, i);
        return;
      }
      if i == |text| {
        break;
      }
      i := i + 1;
    }
    r := false;
  }

  /** Does the text start with a match of re? */
  method MatchHere(re: Text, text: Text) returns (r: bool)
    requires '\0' !in re && '\0' !in text
    ensures r == Starts(Read(re), text)
    decreases |re|, 0
  {
    if re == "" {
      StartsNone(Read(re), text);
      return true;
    }
    if |re| >= 2 && re[1] == '*' {
      assert Rest(Read(re)) == Read(re[2..]);
      r := MatchStar(re[0], re[2..], text, Read(re));
      return;
    }
    if re == "$" {
      StartsNone(Read(re), text);
      return text == "";
    }
    assert Rest(Read(re)) == Read(re[1..]);
    StartsOne(Read(re), text);
    if text != "" && (re[0] == '.' || re[0] == text[0]) {
      r := MatchHere(re[1..], text[1..]);
      return;
    }
    r := false;
  }

  /** Does the text start with any number of c and then a match of re? */
  method MatchStar(c: char, re: Text, text: Text, ghost p: Pattern) returns (r: bool)
    requires '\0' !in re && '\0' !in text
    requires p.items != [] && p.items[0] == Item(c, true) && Rest(p) == Read(re)
    ensures r == Starts(p, text)
    decreases |re|, 1
  {
    var i := 0;
    assert text[0..] == text;
    while true
      invariant i <= |text| && (Starts(p, text) <==> Starts(p, text[i..]))
      decreases |text| - i
    {
      var t := text[i..];
      StartsStar(p, t);
      r := MatchHere(re, t);
      if r {
        return;
      }
      if i == |text| || !(text[i] == c || c == '.') {
        return false;
      }
      assert t[1..] == text[i + 1..];
      i := i + 1;
    }
  }
}
