/** Directory entry names: at most 14 bytes, ended by a zero byte when shorter. */
module FsNames {
  import opened FsLayout

  const DIRSIZ: nat := 14

  /** Byte k of a C string; reading at its end gives the terminator. */
  function CharAt(s: seq<byte>, k: nat): byte { if k < |s| then s[k] else 0 }

  /** The name a byte string stands for: what precedes its first zero byte, cut at 14. */
  function Key(s: seq<byte>): seq<byte> { KeyFrom(s, 0) }

  function KeyFrom(s: seq<byte>, k: nat): (r: seq<byte>)
    ensures |r| <= if k < DIRSIZ then DIRSIZ - k else 0
    decreases DIRSIZ - k
  {
    if k >= DIRSIZ || CharAt(s, k) == 0 then [] else [CharAt(s, k)] + KeyFrom(s, k + 1)
  }

  /** A name is the longest prefix without a zero byte. */
  lemma {:induction false} KeyFromChars(s: seq<byte>, k: nat)
    requires k <= DIRSIZ
    ensures var r := KeyFrom(s, k);
            && k + |r| <= DIRSIZ
            && (forall j: nat | k <= j < k + |r| :: CharAt(s, j) == r[j - k] && r[j - k] != 0)
            && (k + |r| == DIRSIZ || CharAt(s, k + |r|) == 0)
    decreases DIRSIZ - k
  {
    if k < DIRSIZ && CharAt(s, k) != 0 {
      KeyFromChars(s, k + 1);
      var q := KeyFrom(s, k + 1);
      assert KeyFrom(s, k) == [CharAt(s, k)] + q;
      KeyFromMore(s, k, q);
    }
  }

  lemma KeyFromMore(s: seq<byte>, k: nat, q: seq<byte>)
    requires CharAt(s, k) != 0 && forall j: nat | k + 1 <= j < k + 1 + |q| :: CharAt(s, j) == q[j - (k + 1)] != 0
    ensures var r := [CharAt(s, k)] + q; forall j: nat | k <= j < k + |r| :: CharAt(s, j) == r[j - k] && r[j - k] != 0
  {
    hide CharAt;
    var r := [CharAt(s, k)] + q;
    forall j: nat | k <= j < k + |r| ensures CharAt(s, j) == r[j - k] && r[j - k] != 0 {
      if j > k { assert r[j - k] == q[j - (k + 1)]; }
    }
  }

  lemma KeyChars(s: seq<byte>)
    ensures |Key(s)| <= DIRSIZ
    ensures forall j: nat | j < |Key(s)| :: CharAt(s, j) == Key(s)[j] != 0
    ensures |Key(s)| == DIRSIZ || CharAt(s, |Key(s)|) == 0
  {
    KeyFromChars(s, 0);
    forall j: nat | j < |Key(s)| ensures CharAt(s, j) == Key(s)[j] != 0 {
      assert CharAt(s, j) == Key(s)[j - 0];
    }
  }

  lemma KeyIs(s: seq<byte>, n: nat)
    requires n <= DIRSIZ && forall j: nat | j < n :: CharAt(s, j) != 0
    requires n == DIRSIZ || CharAt(s, n) == 0
    ensures |Key(s)| == n && forall j: nat | j < n :: Key(s)[j] == CharAt(s, j)
  {
    KeyChars(s);
  }

  /** Two byte strings stand for one name when they agree up to a common end. */
  lemma SameKey(s: seq<byte>, t: seq<byte>, n: nat)
    requires n <= DIRSIZ && forall j: nat | j < n :: CharAt(s, j) == CharAt(t, j) && CharAt(s, j) != 0
    requires n == DIRSIZ || CharAt(s, n) == CharAt(t, n) == 0
    ensures Key(s) == Key(t)
  {
    KeyIs(s, n);
    KeyIs(t, n);
  }

  /** Two byte strings that differ before both have ended stand for different names. */
  lemma OtherKey(s: seq<byte>, t: seq<byte>, n: nat)
    requires n < DIRSIZ && forall j: nat | j < n :: CharAt(s, j) == CharAt(t, j) && CharAt(s, j) != 0
    requires CharAt(s, n) != CharAt(t, n)
    ensures Key(s) != Key(t)
  {
    KeyChars(s);
    KeyChars(t);
  }

  /** `strncmp(s, t, DIRSIZ)` */
  method Namecmp(s: seq<byte>, t: seq<byte>) returns (r: int)
    ensures r == 0 <==> Key(s) == Key(t)
  {
    var n := 0;
    while n < DIRSIZ && CharAt(s, n) != 0 && CharAt(s, n) == CharAt(t, n)
      invariant n <= DIRSIZ
      invariant forall j: nat | j < n :: CharAt(s, j) == CharAt(t, j) && CharAt(s, j) != 0
    {
      n := n + 1;
    }
    if n == DIRSIZ {
      SameKey(s, t, n);
      return 0;
    }
    r := CharAt(s, n) as int - CharAt(t, n) as int;
    if r == 0 { SameKey(s, t, n); } else { OtherKey(s, t, n); }
  }

  /** `strncpy(d, s, DIRSIZ)`: copies up to the terminator and fills up with zeros. */
  method Strncpy(s: seq<byte>) returns (d: seq<byte>)
    ensures |d| == DIRSIZ && Key(d) == Key(s)
    ensures forall j: nat | |Key(s)| <= j < DIRSIZ :: d[j] == 0
  {
    hide Key, CharAt;
    d := [];
    while |d| < DIRSIZ && CharAt(s, |d|) != 0
      invariant |d| <= DIRSIZ && Copied(s, d, |d|)
    {
      d := d + [CharAt(s, |d|)];
    }
    ghost var n := |d|;
    while |d| < DIRSIZ
      invariant n <= |d| <= DIRSIZ && Copied(s, d, n)
      invariant forall j: nat | n <= j < |d| :: d[j] == 0
    {
      d := d + [0];
    }
    CopiedKey(s, d, n);
  }

  /** The first n bytes of d are those of s, and not the terminator. */
  ghost predicate Copied(s: seq<byte>, d: seq<byte>, n: nat) {
    n <= |d| && forall j: nat | j < n :: d[j] == CharAt(s, j) && d[j] != 0
  }

  lemma CopiedKey(s: seq<byte>, d: seq<byte>, n: nat)
    requires |d| == DIRSIZ && Copied(s, d, n) && (n == DIRSIZ || CharAt(s, n) == 0)
    requires forall j: nat | n <= j < DIRSIZ :: d[j] == 0
    ensures Key(d) == Key(s) && |Key(s)| == n
  {
    forall j: nat | j < DIRSIZ ensures CharAt(d, j) == d[j] {}
    hide Key, CharAt;
    SameKey(s, d, n);
    KeyIs(d, n);
  }
}
