/** The table that the mappers emit into: for every partition 757 bucket lists of keys, each with
    the list of its values. */
module MrTable {
  import opened FsLayout
  import opened MrOrder

  const NBUCKET: nat := 757
  const ULONG: nat := 0x1_0000_0000_0000_0000

  type Emitted = multiset<(Str, Str)>

  /** A key with its values, the newest one first. */
  datatype Pair = Pair(key: Str, value: seq<Str>, num: nat)

  type Bucket = seq<Pair>

  // ----- the hash -----

  /** A char, which is signed. */
  function SignedChar(b: byte): int { if b < 128 then b else b - 256 }

  /** The hash of the first characters, in an unsigned long. */
  function HashFrom(s: Str): nat {
    if s == [] then 5381
    else (HashFrom(s[..|s| - 1]) * 33 + SignedChar(s[|s| - 1])) % ULONG
  }

  function Hash(s: Str): (h: nat)
    ensures h < NBUCKET
  {
    HashFrom(s) % NBUCKET
  }

  function Power33(n: nat): nat { if n == 0 then 1 else 33 * Power33(n - 1) }

  /** The characters as digits to the base 33, the first one highest. */
  function Digits(s: Str): int {
    if s == [] then 0 else SignedChar(s[0]) * Power33(|s| - 1) + Digits(s[1..])
  }

  lemma {:induction false} DigitsLast(s: Str)
    requires s != []
    ensures Digits(s) == 33 * Digits(s[..|s| - 1]) + SignedChar(s[|s| - 1])
  {
    if |s| > 1 {
      var n := |s| - 1;
      DigitsLast(s[1..]);
      assert s[1..][..n - 1] == s[..n][1..];
      var a, b := SignedChar(s[0]), Power33(n - 1);
      assert a * (33 * b) == 33 * (a * b);
    } else {
      assert Digits(s[1..]) == 0;
    }
  }

  /** The hash is a polynomial of the characters, cut to the width of the machine word. */
  lemma {:induction false} HashIs(s: Str)
    ensures HashFrom(s) == (5381 * Power33(|s|) + Digits(s)) % ULONG
  {
    if s != [] {
      var n := |s| - 1;
      HashIs(s[..n]);
      DigitsLast(s);
      var x, c := 5381 * Power33(n) + Digits(s[..n]), SignedChar(s[n]);
      assert 5381 * Power33(n + 1) + Digits(s) == 33 * x + c;
      ModTimes(x, c);
    }
  }

  lemma ModTimes(x: int, c: int)
    ensures ((x % ULONG) * 33 + c) % ULONG == (33 * x + c) % ULONG
  {
    var q := x / ULONG;
    assert 33 * x + c == ((x % ULONG) * 33 + c) + ULONG * (33 * q);
    ModAdd((x % ULONG) * 33 + c, 33 * q);
  }

  lemma ModAdd(a: int, k: int)
    ensures (a + ULONG * k) % ULONG == a % ULONG
  {
    var q, r := a / ULONG, a % ULONG;
    assert a + ULONG * k == ULONG * (q + k) + r;
  }

  method DefaultHashPartition(key: Str, n: nat) returns (r: nat)
    requires 0 < n
    ensures r == HashFrom(key) % n
    ensures r == (5381 * Power33(|key|) + Digits(key)) % ULONG % n
  {
    var hash := 5381;
    var i := 0;
    while i < |key|
      invariant i <= |key| && hash == HashFrom(key[..i])
    {
      assert key[..i + 1][..i] == key[..i];
      hash := (hash * 33 + SignedChar(key[i])) % ULONG;
      i := i + 1;
    }
    assert key[..i] == key;
    HashIs(key);
    r := hash % n;
  }

  // ----- one emit -----

  predicate KeyAt(b: Bucket, i: nat, key: Str) { i < |b| && b[i].key == key }

  ghost predicate HasKey(b: Bucket, key: Str) { exists i: nat :: KeyAt(b, i, key) }

  /** The bucket after emitting value under key. */
  ghost function EmitInto(b: Bucket, key: Str, value: Str): Bucket {
    if HasKey(b, key) then Raise(b, key, value)
    else [Pair(key, [value], 1)] + b
  }

  /** The first pair with the key gets the value. */
  function Raise(b: Bucket, key: Str, value: Str): (r: Bucket)
    ensures |r| == |b|
  {
    if b == [] then []
    else if b[0].key == key then [Pair(key, [value] + b[0].value, b[0].num + 1)] + b[1..]
    else [b[0]] + Raise(b[1..], key, value)
  }

  lemma {:induction false} RaiseAt(b: Bucket, i: nat, key: Str, value: Str)
    requires KeyAt(b, i, key) && forall j: nat | j < i :: b[j].key != key
    ensures Raise(b, key, value) == b[i := Pair(key, [value] + b[i].value, b[i].num + 1)]
  {
    if i > 0 { RaiseAt(b[1..], i - 1, key, value); }
  }

  /** The table of a partition before the first emit. */
  function EmptyTable(): seq<Bucket> { seq(NBUCKET, _ => []) }

  /** The tables of all partitions when one bucket has been replaced. */
  function WithBucket(tables: seq<seq<Bucket>>, p: nat, h: nat, b: Bucket): seq<seq<Bucket>>
    requires p < |tables| && h < |tables[p]|
  {
    tables[p := tables[p][h := b]]
  }

  /** The tables of all partitions after emitting value under key. */
  ghost function EmitTables(part: Str -> nat, tables: seq<seq<Bucket>>, key: Str, value: Str): seq<seq<Bucket>>
    requires part(key) < |tables| && |tables[part(key)]| == NBUCKET
  {
    WithBucket(tables, part(key), Hash(key), EmitInto(tables[part(key)][Hash(key)], key, value))
  }

  // ----- what a partition holds -----

  ghost predicate PairOk(part: Str -> nat, p: nat, h: nat, e: Emitted, x: Pair) {
    && Hash(x.key) == h && part(x.key) == p && x.value != [] && x.num == |x.value|
    && forall v :: multiset(x.value)[v] == e[(x.key, v)]
  }

  ghost predicate BucketOk(part: Str -> nat, p: nat, h: nat, e: Emitted, b: Bucket) {
    && (forall i: nat | i < |b| :: PairOk(part, p, h, e, b[i]))
    && (forall i: nat, j: nat | i < j < |b| :: b[i].key != b[j].key)
    && (forall k, v | (k, v) in e && Hash(k) == h && part(k) == p :: HasKey(b, k))
  }

  /** Partition p holds what was emitted into it. */
  ghost predicate Reflects(part: Str -> nat, p: nat, e: Emitted, bs: seq<Bucket>) {
    |bs| == NBUCKET && forall h: nat | h < NBUCKET :: BucketOk(part, p, h, e, bs[h])
  }

  /** An emit of another key leaves the bucket right. */
  lemma OtherPair(part: Str -> nat, p: nat, h: nat, e: Emitted, key: Str, value: Str, x: Pair)
    requires PairOk(part, p, h, e, x) && x.key != key
    ensures PairOk(part, p, h, e + multiset{(key, value)}, x)
  {}

  lemma OtherBucket(part: Str -> nat, p: nat, h: nat, e: Emitted, key: Str, value: Str, b: Bucket)
    requires BucketOk(part, p, h, e, b) && !(Hash(key) == h && part(key) == p)
    ensures BucketOk(part, p, h, e + multiset{(key, value)}, b)
  {
    forall i: nat | i < |b| ensures PairOk(part, p, h, e + multiset{(key, value)}, b[i]) {
      assert PairOk(part, p, h, e, b[i]);
      OtherPair(part, p, h, e, key, value, b[i]);
    }
  }

  lemma NoKeyNoEmit(part: Str -> nat, p: nat, h: nat, e: Emitted, b: Bucket, key: Str)
    requires BucketOk(part, p, h, e, b) && Hash(key) == h && part(key) == p && !HasKey(b, key)
    ensures forall v :: e[(key, v)] == 0
  {
    forall v ensures e[(key, v)] == 0 {
      assert (key, v) in e ==> HasKey(b, key);
    }
  }

  lemma NewPair(part: Str -> nat, p: nat, h: nat, e: Emitted, key: Str, value: Str)
    requires Hash(key) == h && part(key) == p && forall v :: e[(key, v)] == 0
    ensures PairOk(part, p, h, e + multiset{(key, value)}, Pair(key, [value], 1))
  {
    var e' := e + multiset{(key, value)};
    forall v ensures multiset([value])[v] == e'[(key, v)] {}
  }

  lemma RaisedPair(part: Str -> nat, p: nat, h: nat, e: Emitted, value: Str, x: Pair)
    requires PairOk(part, p, h, e, x)
    ensures PairOk(part, p, h, e + multiset{(x.key, value)}, Pair(x.key, [value] + x.value, x.num + 1))
  {
    var e' := e + multiset{(x.key, value)};
    assert multiset([value] + x.value) == multiset{value} + multiset(x.value);
    forall v ensures multiset([value] + x.value)[v] == e'[(x.key, v)] {}
  }

  /** The bucket that is emitted into holds one value more. */
  lemma EmitBucket(part: Str -> nat, p: nat, h: nat, e: Emitted, key: Str, value: Str, b: Bucket)
    requires BucketOk(part, p, h, e, b) && Hash(key) == h && part(key) == p
    ensures BucketOk(part, p, h, e + multiset{(key, value)}, EmitInto(b, key, value))
  {
    hide PairOk, Hash;
    var e', c := e + multiset{(key, value)}, EmitInto(b, key, value);
    if HasKey(b, key) {
      var i: nat :| KeyAt(b, i, key);
      RaiseAt(b, i, key, value);
      forall j: nat | j < |c| ensures PairOk(part, p, h, e', c[j]) {
        assert PairOk(part, p, h, e, b[j]);
        if j == i { RaisedPair(part, p, h, e, value, b[i]); } else { OtherPair(part, p, h, e, key, value, b[j]); }
      }
      forall k, v | (k, v) in e' && Hash(k) == h && part(k) == p ensures HasKey(c, k) {
        if k == key { assert KeyAt(c, i, k); } else { assert (k, v) in e; KeyKept(b, c, k); }
      }
    } else {
      NoKeyNoEmit(part, p, h, e, b, key);
      NewPair(part, p, h, e, key, value);
      assert c == [Pair(key, [value], 1)] + b;
      forall j: nat | j < |c| ensures PairOk(part, p, h, e', c[j]) {
        if j > 0 {
          assert PairOk(part, p, h, e, b[j - 1]) && KeyAt(b, j - 1, b[j - 1].key);
          OtherPair(part, p, h, e, key, value, b[j - 1]);
        }
      }
      forall j: nat | 0 < j < |c| ensures c[j].key != key {
        assert KeyAt(b, j - 1, b[j - 1].key);
      }
      forall k, v | (k, v) in e' && Hash(k) == h && part(k) == p ensures HasKey(c, k) {
        if k == key { assert KeyAt(c, 0, k); } else { assert (k, v) in e; KeyShifted(b, c, k); }
      }
    }
  }

  lemma KeyKept(b: Bucket, c: Bucket, k: Str)
    requires HasKey(b, k) && |c| == |b| && forall j: nat | j < |b| :: c[j].key == b[j].key
    ensures HasKey(c, k)
  {
    var i: nat :| KeyAt(b, i, k);
    assert KeyAt(c, i, k);
  }

  lemma KeyShifted(b: Bucket, c: Bucket, k: Str)
    requires HasKey(b, k) && |c| == |b| + 1 && c[1..] == b
    ensures HasKey(c, k)
  {
    var i: nat :| KeyAt(b, i, k);
    assert c[i + 1] == c[1..][i];
    assert KeyAt(c, i + 1, k);
  }

  /** One emit, seen by the partition that it goes to and by all others. */
  lemma EmitReflects(part: Str -> nat, p: nat, e: Emitted, key: Str, value: Str, bs: seq<Bucket>)
    requires Reflects(part, p, e, bs)
    ensures var e' := e + multiset{(key, value)};
            Reflects(part, p, e', if part(key) == p then bs[Hash(key) := EmitInto(bs[Hash(key)], key, value)] else bs)
  {
    hide BucketOk, EmitInto, HashFrom;
    var e' := e + multiset{(key, value)};
    var bs' := if part(key) == p then bs[Hash(key) := EmitInto(bs[Hash(key)], key, value)] else bs;
    forall h: nat | h < NBUCKET ensures BucketOk(part, p, h, e', bs'[h]) {
      assert BucketOk(part, p, h, e, bs[h]);
      if part(key) == p && h == Hash(key) {
        EmitBucket(part, p, h, e, key, value, bs[h]);
      } else {
        OtherBucket(part, p, h, e, key, value, bs[h]);
      }
    }
  }

  /** Every partition holds what was emitted into it. */
  ghost predicate AllReflect(part: Str -> nat, n: nat, e: Emitted, tables: seq<seq<Bucket>>) {
    |tables| == n && forall p: nat | p < n :: Reflects(part, p, e, tables[p])
  }

  lemma TableShape(part: Str -> nat, n: nat, e: Emitted, tables: seq<seq<Bucket>>, p: nat)
    requires AllReflect(part, n, e, tables) && p < n
    ensures |tables| == n && |tables[p]| == NBUCKET
  {
    assert Reflects(part, p, e, tables[p]);
  }

  /** After one emit all partitions go on to hold what was emitted into them. */
  lemma EmitKeepsTables(part: Str -> nat, n: nat, e: Emitted, tables: seq<seq<Bucket>>, key: Str, value: Str)
    requires AllReflect(part, n, e, tables) && part(key) < n && |tables[part(key)]| == NBUCKET
    ensures AllReflect(part, n, e + multiset{(key, value)}, EmitTables(part, tables, key, value))
  {
    hide BucketOk, EmitInto, Reflects, Hash;
    forall p: nat | p < n
      ensures Reflects(part, p, e + multiset{(key, value)}, EmitTables(part, tables, key, value)[p])
    {
      assert Reflects(part, p, e, tables[p]);
      EmitReflects(part, p, e, key, value, tables[p]);
    }
  }

  lemma NothingReflects(part: Str -> nat, p: nat)
    ensures Reflects(part, p, multiset{}, EmptyTable())
  {}
}
