/** Path names: a path stands for the list of its elements, and the kernel takes them off one at
    a time. */
module FsPath {
  import opened Wrappers
  import opened FsLayout
  import opened FsNames

  const SLASH: byte := 47

  /** The number of bytes before the first slash. */
  function ElemLen(p: seq<byte>): (n: nat)
    ensures n <= |p| && (forall k | 0 <= k < n :: p[k] != SLASH) && (n < |p| ==> p[n] == SLASH)
  {
    if p == [] || p[0] == SLASH then 0 else 1 + ElemLen(p[1..])
  }

  /** The elements of a path: the runs of bytes between slashes. */
  function Elements(p: seq<byte>): seq<seq<byte>>
    decreases |p|
  {
    if p == [] then []
    else if p[0] == SLASH then Elements(p[1..])
    else [p[..ElemLen(p)]] + Elements(p[ElemLen(p)..])
  }

  /** A path of these elements, each after a slash. */
  function Join(es: seq<seq<byte>>): seq<byte> {
    if es == [] then [] else [SLASH] + es[0] + Join(es[1..])
  }

  /** Elements undoes joining. */
  lemma {:induction false} ElementsOfJoin(es: seq<seq<byte>>)
    requires forall k: nat | k < |es| :: es[k] != [] && SLASH !in es[k]
    ensures Elements(Join(es)) == es
  {
    if es != [] {
      ElementsOfJoin(es[1..]);
      var e, t := es[0], Join(es[1..]);
      var p := e + t;
      assert Join(es) == [SLASH] + e + t && Join(es)[1..] == p;
      ElementsFirst(e, t);
    }
  }

  /** A slash splits a path: any number of slashes, in front, behind or between, separate the
      elements, and a run of bytes without a slash is one of them. */
  lemma {:induction false} ElementsSplit(a: seq<byte>, b: seq<byte>)
    ensures Elements(a + [SLASH] + b) == Elements(a) + Elements(b)
    ensures Elements([]) == [] && (a != [] && SLASH !in a ==> Elements(a) == [a])
    decreases |a|
  {
    var p := a + [SLASH] + b;
    if a == [] {
      assert p[1..] == b;
    } else if a[0] == SLASH {
      assert p[1..] == a[1..] + [SLASH] + b;
      ElementsSplit(a[1..], b);
    } else {
      var n := ElemLen(a);
      ElemLenIs(p, n);
      assert p[..n] == a[..n] && p[n..] == a[n..] + [SLASH] + b;
      ElementsSplit(a[n..], b);
      assert SLASH !in a ==> n == |a| && a[..n] == a;
    }
  }

  lemma ElementsFirst(e: seq<byte>, t: seq<byte>)
    requires e != [] && SLASH !in e && (t != [] ==> t[0] == SLASH)
    ensures Elements(e + t) == [e] + Elements(t)
  {
    var p := e + t;
    ElemLenIs(p, |e|);
    assert p[0] == e[0] && p[..|e|] == e && p[|e|..] == t;
  }

  lemma ElemLenIs(p: seq<byte>, n: nat)
    requires n <= |p| && (forall k | 0 <= k < n :: p[k] != SLASH) && (n < |p| ==> p[n] == SLASH)
    ensures ElemLen(p) == n
  {
    var m := ElemLen(p);
    assert m < |p| ==> p[m] == SLASH;
  }

  /** Leading slashes do not count. */
  lemma {:induction false} SkipSlashes(p: seq<byte>, i: nat)
    requires i <= |p| && forall k | 0 <= k < i :: p[k] == SLASH
    ensures Elements(p[i..]) == Elements(p)
  {
    if i == 0 {
      assert p[0..] == p;
    } else {
      SkipSlashes(p[1..], i - 1);
      assert p[1..][i - 1..] == p[i..];
    }
  }

  lemma NoElements(p: seq<byte>)
    ensures p == [] ==> Elements(p) == []
  {}

  /** The run from s to i is the first element of what starts at s; slashes up to j follow. */
  lemma TakeFirst(p: seq<byte>, s: nat, i: nat, j: nat)
    requires s < i <= j <= |p| && (forall k | s <= k < i :: p[k] != SLASH) && (i < |p| ==> p[i] == SLASH)
    requires forall k | i <= k < j :: p[k] == SLASH
    ensures Elements(p[s..]) == [p[s..i]] + Elements(p[j..])
  {
    hide Elements, ElemLen;
    var e, t := p[s..i], p[i..];
    assert SLASH !in e;
    ElementsFirst(e, t);
    assert p[s..] == e + t;
    SkipSlashes(t, j - i);
    assert t[j - i..] == p[j..];
  }

  /** Takes the first element off a path and copies it to the name buffer, cut at 14 bytes. No
      element is left exactly when it returns none. */
  method Skipelem(path: seq<byte>, name: array<byte>) returns (rest: Option<seq<byte>>)
    requires 0 !in path && name.Length == DIRSIZ
    modifies name
    ensures rest.None? <==> Elements(path) == []
    ensures rest.None? ==> name[..] == old(name[..])
    ensures rest.Some? ==> |Elements(path)| > 0 && Elements(path)[1..] == Elements(rest.value)
                           && Key(name[..]) == Key(Elements(path)[0]) && |rest.value| < |path| && 0 !in rest.value
                           && (rest.value == [] || rest.value[0] != SLASH)
  {
    hide Key, Elements;
    var i := 0;
    while CharAt(path, i) == SLASH
      invariant i <= |path| && forall k | 0 <= k < i :: path[k] == SLASH
      decreases |path| - i
    {
      i := i + 1;
    }
    SkipSlashes(path, i);
    if CharAt(path, i) == 0 {
      NoElements(path[i..]);
      return None;
    }
    var s := i;
    while CharAt(path, i) != SLASH && CharAt(path, i) != 0
      invariant s <= i <= |path| && forall k | s <= k < i :: path[k] != SLASH
      decreases |path| - i
    {
      i := i + 1;
    }
    CopyName(name, path[s..i]);
    var j := i;
    while CharAt(path, j) == SLASH
      invariant i <= j <= |path| && forall k | i <= k < j :: path[k] == SLASH
      decreases |path| - j
    {
      j := j + 1;
    }
    TakeFirst(path, s, i, j);
    rest := Some(path[j..]);
  }

  /** The name buffer takes up to 14 bytes, and a terminator if there is room. */
  method CopyName(name: array<byte>, s: seq<byte>)
    requires name.Length == DIRSIZ && 0 !in s
    modifies name
    ensures Key(name[..]) == Key(s)
  {
    var len := if |s| >= DIRSIZ then DIRSIZ else |s|;
    var k := 0;
    while k < len
      invariant k <= len && name[..k] == s[..k]
    {
      name[k] := s[k];
      k := k + 1;
    }
    if |s| < DIRSIZ {
      name[len] := 0;
    }
    forall j: nat | j < len ensures CharAt(s, j) == CharAt(name[..], j) && CharAt(s, j) != 0 {
      assert s[j] in s;
      assert name[..len][j] == s[..len][j];
    }
    SameKey(s, name[..], len);
  }
}
