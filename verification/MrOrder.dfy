/** Strings in the order of strcmp, and sorting by it. */
module MrOrder {
  import opened FsLayout

  type Str = seq<byte>

  /** strcmp(s, t) <= 0 */
  predicate Leq(s: Str, t: Str) {
    s == [] || (t != [] && (s[0] < t[0] || (s[0] == t[0] && Leq(s[1..], t[1..]))))
  }

  predicate Less(s: Str, t: Str) { Leq(s, t) && s != t }

  lemma {:induction false} LeqSelf(s: Str)
    ensures Leq(s, s)
  {
    if s != [] { LeqSelf(s[1..]); }
  }

  lemma {:induction false} LeqTotal(s: Str, t: Str)
    ensures Leq(s, t) || Leq(t, s)
  {
    if s != [] && t != [] { LeqTotal(s[1..], t[1..]); }
  }

  lemma {:induction false} LeqTrans(s: Str, t: Str, u: Str)
    requires Leq(s, t) && Leq(t, u)
    ensures Leq(s, u)
  {
    if s != [] && t[0] == s[0] && u[0] == t[0] { LeqTrans(s[1..], t[1..], u[1..]); }
  }

  lemma {:induction false} LeqBoth(s: Str, t: Str)
    requires Leq(s, t) && Leq(t, s)
    ensures s == t
  {
    if s != [] {
      LeqBoth(s[1..], t[1..]);
      assert s == [s[0]] + s[1..] && t == [t[0]] + t[1..];
    }
  }

  /** `strcmp`: the sign of the first difference. */
  method Strcmp(s: Str, t: Str) returns (r: int)
    requires 0 !in s && 0 !in t
    ensures r == 0 <==> s == t
    ensures r <= 0 <==> Leq(s, t)
    ensures r < 0 <==> exists k: nat :: FirstDiffers(s, t, k)
    ensures r > 0 <==> exists k: nat :: FirstDiffers(t, s, k)
  {
    var i := 0;
    assert s[0..] == s && t[0..] == t;
    while i < |s| && i < |t| && s[i] == t[i]
      invariant i <= |s| && i <= |t| && s[..i] == t[..i] && (Leq(s, t) <==> Leq(s[i..], t[i..]))
    {
      assert s[i..][1..] == s[i + 1..] && t[i..][1..] == t[i + 1..];
      i := i + 1;
    }
    var c: int := if i < |s| then s[i] else 0;
    var d: int := if i < |t| then t[i] else 0;
    assert i < |s| ==> s[i] in s;
    assert i < |t| ==> t[i] in t;
    assert i == |s| && i == |t| ==> s == s[..i] && t == t[..i];
    r := c - d;
    if r < 0 { assert FirstDiffers(s, t, i); }
    if r > 0 { assert FirstDiffers(t, s, i); }
    forall k: nat | FirstDiffers(s, t, k) ensures r < 0 { SameDifference(s, t, i, k); }
    forall k: nat | FirstDiffers(t, s, k) ensures r > 0 { SameDifference(t, s, i, k); }
  }

  /** s and t agree up to position k, where s has ended or has the smaller byte. */
  predicate FirstDiffers(s: Str, t: Str, k: nat) {
    k <= |s| && k < |t| && s[..k] == t[..k] && (k == |s| || s[k] < t[k])
  }

  lemma SameDifference(s: Str, t: Str, i: nat, k: nat)
    requires FirstDiffers(s, t, k) && i <= |s| && i <= |t| && s[..i] == t[..i]
    requires i == |s| || i == |t| || s[i] != t[i]
    ensures k == i
  {
    assert forall j: nat | j < k :: s[j] == s[..k][j] == t[..k][j] == t[j];
    assert forall j: nat | j < i :: s[j] == s[..i][j] == t[..i][j] == t[j];
  }

  // ----- sorting -----

  /** The items are in the order of their strings. */
  ghost predicate Ascending<T>(f: T -> Str, s: seq<T>) {
    forall i: nat, j: nat | i < j < |s| :: Leq(f(s[i]), f(s[j]))
  }

  /** What qsort promises: the items of s in order. */
  function Sorted<T>(f: T -> Str, s: seq<T>): (r: seq<T>)
    ensures multiset(r) == multiset(s) && |r| == |s|
  {
    if s == [] then []
    else
      assert s == [s[0]] + s[1..];
      Insert(f, s[0], Sorted(f, s[1..]))
  }

  function Insert<T>(f: T -> Str, x: T, s: seq<T>): (r: seq<T>)
    ensures multiset(r) == multiset([x]) + multiset(s) && |r| == |s| + 1
  {
    if s == [] || Leq(f(x), f(s[0])) then [x] + s
    else
      assert s == [s[0]] + s[1..];
      [s[0]] + Insert(f, x, s[1..])
  }

  lemma {:induction false} InsertAscends<T>(f: T -> Str, x: T, s: seq<T>)
    requires Ascending(f, s)
    ensures Ascending(f, Insert(f, x, s))
  {
    var r := Insert(f, x, s);
    if s == [] {
    } else if Leq(f(x), f(s[0])) {
      forall j: nat | j < |s| ensures Leq(f(x), f(s[j])) {
        if j > 0 { LeqTrans(f(x), f(s[0]), f(s[j])); }
      }
    } else {
      LeqTotal(f(x), f(s[0]));
      InsertAscends(f, x, s[1..]);
      var q := Insert(f, x, s[1..]);
      forall j: nat | j < |q| ensures Leq(f(s[0]), f(q[j])) {
        assert q[j] in multiset(q);
        if q[j] != x {
          assert q[j] in multiset(s[1..]);
          var k: nat :| k < |s[1..]| && s[1..][k] == q[j];
          assert s[k + 1] == q[j];
        }
      }
    }
  }

  lemma {:induction false} SortedAscends<T>(f: T -> Str, s: seq<T>)
    ensures Ascending(f, Sorted(f, s))
  {
    if s != [] {
      SortedAscends(f, s[1..]);
      InsertAscends(f, s[0], Sorted(f, s[1..]));
    }
  }

  function Self(s: Str): Str { s }

  /** In order there is only one way to list a multiset of strings. */
  lemma {:induction false} SortedUnique(s: seq<Str>, t: seq<Str>)
    requires Ascending(Self, s) && Ascending(Self, t) && multiset(s) == multiset(t)
    ensures s == t
    decreases |s|
  {
    hide Ascending, Leq;
    SameLength(s, t);
    if s != [] {
      FirstLeast(s, t);
      FirstLeast(t, s);
      LeqBoth(s[0], t[0]);
      Tail(s);
      Tail(t);
      SortedUnique(s[1..], t[1..]);
      assert s == [s[0]] + s[1..] && t == [t[0]] + t[1..];
    }
  }

  lemma SameLength(s: seq<Str>, t: seq<Str>)
    requires multiset(s) == multiset(t)
    ensures |s| == |t|
  {
    assert |multiset(s)| == |multiset(t)|;
  }

  lemma Tail(s: seq<Str>)
    requires s != [] && Ascending(Self, s)
    ensures Ascending(Self, s[1..]) && multiset(s[1..]) == multiset(s) - multiset{s[0]}
  {
    assert s == [s[0]] + s[1..];
  }

  lemma FirstLeast(s: seq<Str>, t: seq<Str>)
    requires s != [] && t != [] && Ascending(Self, s) && multiset(s) == multiset(t)
    ensures Leq(s[0], t[0])
  {
    hide Leq;
    assert t[0] in multiset(s);
    var k: nat :| k < |s| && s[k] == t[0];
    if k == 0 { LeqSelf(s[0]); } else { assert Leq(Self(s[0]), Self(s[k])); }
  }
}
