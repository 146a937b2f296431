/** What the reducer of a partition is called with, and why it does not depend on the order of
    the emits. */
module MrResult {
  import opened MrOrder
  import opened MrTable

  /** One call of the reducer: the key, and the values that the getter will yield. */
  datatype Call = Call(key: Str, vals: seq<Str>)

  // ----- from the table to the calls -----

  /** All pairs of a partition, bucket by bucket. */
  function Gather(bs: seq<Bucket>): seq<Pair> {
    if bs == [] then [] else Gather(bs[..|bs| - 1]) + bs[|bs| - 1]
  }

  function KeyOf(x: Pair): Str { x.key }

  function CallOf(x: Pair): Call { Call(x.key, Sorted(Self, x.value)) }

  /** The pairs in the order of their keys, each with its values in order. */
  function Calls(bs: seq<Bucket>): seq<Call> {
    var s := Sorted(KeyOf, Gather(bs));
    seq(|s|, i requires 0 <= i < |s| => CallOf(s[i]))
  }

  /** The calls that the emits e lead to in partition p: one for each key, in ascending order,
      with all values of the key in order. */
  ghost predicate Result(part: Str -> nat, p: nat, e: Emitted, calls: seq<Call>) {
    && (forall i: nat, j: nat | i < j < |calls| :: Less(calls[i].key, calls[j].key))
    && (forall i: nat | i < |calls| :: CallOk(part, p, e, calls[i]))
    && (forall k, v | (k, v) in e && part(k) == p :: HasCall(calls, k))
  }

  ghost predicate CallOk(part: Str -> nat, p: nat, e: Emitted, c: Call) {
    part(c.key) == p && c.vals != [] && Ascending(Self, c.vals) && forall v :: multiset(c.vals)[v] == e[(c.key, v)]
  }

  ghost predicate CallAt(calls: seq<Call>, i: nat, k: Str) { i < |calls| && calls[i].key == k }

  ghost predicate HasCall(calls: seq<Call>, k: Str) { exists i: nat :: CallAt(calls, i, k) }

  // ----- the result is unique -----

  function Keys(calls: seq<Call>): seq<Str> {
    seq(|calls|, i requires 0 <= i < |calls| => calls[i].key)
  }

  lemma {:induction false} DistinctCount(s: seq<Str>, k: Str)
    requires forall i: nat, j: nat | i < j < |s| :: s[i] != s[j]
    ensures multiset(s)[k] == if k in s then 1 else 0
  {
    if s != [] {
      assert s == [s[0]] + s[1..];
      DistinctCount(s[1..], k);
    }
  }

  lemma KeysOfResult(part: Str -> nat, p: nat, e: Emitted, calls: seq<Call>, k: Str)
    requires Result(part, p, e, calls)
    ensures multiset(Keys(calls))[k] == if part(k) == p && exists v :: (k, v) in e then 1 else 0
  {
    hide Ascending, Leq;
    var ks := Keys(calls);
    DistinctCount(ks, k);
    if k in ks {
      var i: nat :| i < |ks| && ks[i] == k;
      assert CallOk(part, p, e, calls[i]);
      assert calls[i].vals[0] in multiset(calls[i].vals);
      assert (k, calls[i].vals[0]) in e;
    }
    if part(k) == p && exists v :: (k, v) in e {
      var v :| (k, v) in e;
      assert HasCall(calls, k);
      var i: nat :| CallAt(calls, i, k);
      assert ks[i] == k;
    }
  }

  lemma KeysAscend(part: Str -> nat, p: nat, e: Emitted, calls: seq<Call>)
    requires Result(part, p, e, calls)
    ensures Ascending(Self, Keys(calls))
  {}

  /** The emits, as a multiset, determine the calls. */
  lemma ResultUnique(part: Str -> nat, p: nat, e: Emitted, c: seq<Call>, d: seq<Call>)
    requires Result(part, p, e, c) && Result(part, p, e, d)
    ensures c == d
  {
    hide Ascending, Leq;
    forall k ensures multiset(Keys(c))[k] == multiset(Keys(d))[k] {
      KeysOfResult(part, p, e, c, k);
      KeysOfResult(part, p, e, d, k);
    }
    assert multiset(Keys(c)) == multiset(Keys(d));
    KeysAscend(part, p, e, c);
    KeysAscend(part, p, e, d);
    SortedUnique(Keys(c), Keys(d));
    assert |c| == |Keys(c)| == |d|;
    forall i: nat | i < |c| ensures c[i] == d[i] {
      assert Keys(c)[i] == c[i].key && Keys(d)[i] == d[i].key;
      assert CallOk(part, p, e, c[i]) && CallOk(part, p, e, d[i]);
      assert multiset(c[i].vals) == multiset(d[i].vals);
      SortedUnique(c[i].vals, d[i].vals);
    }
  }

  // ----- the table yields the result -----

  ghost predicate InBucket(bs: seq<Bucket>, h: nat, i: nat, x: Pair) { h < |bs| && i < |bs[h]| && bs[h][i] == x }

  lemma {:induction false} GatherIn(bs: seq<Bucket>, x: Pair)
    ensures x in Gather(bs) <==> exists h: nat, i: nat :: InBucket(bs, h, i, x)
  {
    if bs != [] {
      var n := |bs| - 1;
      var cs := bs[..n];
      GatherIn(cs, x);
      if x in Gather(cs) {
        var h: nat, i: nat :| InBucket(cs, h, i, x);
        assert InBucket(bs, h, i, x);
      }
      if x in bs[n] {
        var i: nat :| i < |bs[n]| && bs[n][i] == x;
        assert InBucket(bs, n, i, x);
      }
      if exists h: nat, i: nat :: InBucket(bs, h, i, x) {
        var h: nat, i: nat :| InBucket(bs, h, i, x);
        if h < n { assert InBucket(cs, h, i, x); }
      }
    }
  }

  lemma {:induction false} GatherDistinct(part: Str -> nat, p: nat, e: Emitted, bs: seq<Bucket>, n: nat)
    requires Reflects(part, p, e, bs) && n <= |bs|
    ensures forall i: nat, j: nat | i < j < |Gather(bs[..n])| :: Gather(bs[..n])[i].key != Gather(bs[..n])[j].key
  {
    hide BucketOk;
    if n > 0 {
      GatherDistinct(part, p, e, bs, n - 1);
      assert bs[..n][..n - 1] == bs[..n - 1];
      var g, b := Gather(bs[..n - 1]), bs[n - 1];
      var all: seq<Pair> := g + b;
      assert Gather(bs[..n]) == all;
      forall i: nat, j: nat | i < j < |all| ensures all[i].key != all[j].key {
        if i >= |g| {
          BucketDistinct(part, p, n - 1, e, b, i - |g|, j - |g|);
        } else if j >= |g| {
          GatherIn(bs[..n - 1], g[i]);
          var h: nat, q: nat :| InBucket(bs[..n - 1], h, q, g[i]);
          BucketHash(part, p, h, e, bs[h], q);
          BucketHash(part, p, n - 1, e, b, j - |g|);
        }
      }
    }
  }

  lemma BucketDistinct(part: Str -> nat, p: nat, h: nat, e: Emitted, b: Bucket, i: nat, j: nat)
    requires BucketOk(part, p, h, e, b) && i < j < |b|
    ensures b[i].key != b[j].key
  {}

  lemma BucketHash(part: Str -> nat, p: nat, h: nat, e: Emitted, b: Bucket, i: nat)
    requires BucketOk(part, p, h, e, b) && i < |b|
    ensures Hash(b[i].key) == h && PairOk(part, p, h, e, b[i])
  {
    assert PairOk(part, p, h, e, b[i]);
  }

  lemma {:induction false} DistinctPairs(s: seq<Pair>, t: seq<Pair>)
    requires multiset(s) == multiset(t) && forall i: nat, j: nat | i < j < |s| :: s[i].key != s[j].key
    ensures forall i: nat, j: nat | i < j < |t| :: t[i].key != t[j].key
  {
    forall i: nat, j: nat | i < j < |t| ensures t[i].key != t[j].key {
      if t[i].key == t[j].key {
        assert t[i] in multiset(s) && t[j] in multiset(s);
        var a: nat :| a < |s| && s[a] == t[i];
        var b: nat :| b < |s| && s[b] == t[j];
        assert t[i] == t[j];
        TwiceIn(t, i, j);
        OnceIn(s, a);
      }
    }
  }

  lemma TwiceIn<T>(t: seq<T>, i: nat, j: nat)
    requires i < j < |t| && t[i] == t[j]
    ensures multiset(t)[t[i]] >= 2
  {
    assert t == t[..j] + [t[j]] + t[j + 1..];
    assert t[..j][i] == t[i];
    assert t[i] in t[..j];
  }

  lemma OnceIn(s: seq<Pair>, a: nat)
    requires a < |s| && forall i: nat, j: nat | i < j < |s| :: s[i].key != s[j].key
    ensures multiset(s)[s[a]] == 1
  {
    assert s == s[..a] + [s[a]] + s[a + 1..];
    assert s[a] !in s[..a] && s[a] !in s[a + 1..];
  }

  /** What the table of a partition yields is the result of what was emitted. */
  lemma CallsResult(part: Str -> nat, p: nat, e: Emitted, bs: seq<Bucket>)
    requires Reflects(part, p, e, bs)
    ensures Result(part, p, e, Calls(bs))
  {
    hide BucketOk, Gather, Ascending, Leq, Sorted, HashFrom, Hash;
    var g := Gather(bs);
    var s := Sorted(KeyOf, g);
    var calls := Calls(bs);
    SortedAscends(KeyOf, g);
    assert bs[..|bs|] == bs;
    GatherDistinct(part, p, e, bs, |bs|);
    DistinctPairs(g, s);
    forall i: nat, j: nat | i < j < |calls| ensures Less(calls[i].key, calls[j].key) {
      AscendsAt(KeyOf, s, i, j);
    }
    forall i: nat | i < |calls| ensures CallOk(part, p, e, calls[i]) {
      assert s[i] in multiset(g);
      PairCall(part, p, e, bs, s[i]);
    }
    forall k, v | (k, v) in e && part(k) == p ensures HasCall(calls, k) {
      var x := KeyGathered(part, p, e, bs, k, v);
      assert x in multiset(s);
      var i: nat :| i < |s| && s[i] == x;
      assert CallAt(calls, i, k);
    }
  }

  lemma AscendsAt<T>(f: T -> Str, s: seq<T>, i: nat, j: nat)
    requires Ascending(f, s) && i < j < |s|
    ensures Leq(f(s[i]), f(s[j]))
  {}

  lemma PairCall(part: Str -> nat, p: nat, e: Emitted, bs: seq<Bucket>, x: Pair)
    requires Reflects(part, p, e, bs) && x in Gather(bs)
    ensures CallOk(part, p, e, CallOf(x))
  {
    hide BucketOk, Gather, Ascending, Sorted, Hash;
    GatherIn(bs, x);
    var h: nat, i: nat :| InBucket(bs, h, i, x);
    BucketHash(part, p, h, e, bs[h], i);
    SortedAscends(Self, x.value);
  }

  lemma KeyGathered(part: Str -> nat, p: nat, e: Emitted, bs: seq<Bucket>, k: Str, v: Str) returns (x: Pair)
    requires Reflects(part, p, e, bs) && (k, v) in e && part(k) == p
    ensures x in Gather(bs) && x.key == k
  {
    hide Gather, HashFrom;
    var b := bs[Hash(k)];
    assert BucketOk(part, p, Hash(k), e, b);
    assert HasKey(b, k);
    var i: nat :| KeyAt(b, i, k);
    x := b[i];
    assert InBucket(bs, Hash(k), i, x);
    GatherIn(bs, x);
  }
}
