/** The runtime: emitting under the lock of a bucket, and the reduce phase of a partition. */
module MapReduce {
  import opened Wrappers
  import opened MrOrder
  import opened MrTable
  import opened MrResult

  /** Keys and values are strings without zero bytes. */
  ghost predicate Clean(e: Emitted) { forall k, v | (k, v) in e :: 0 !in k && 0 !in v }

  lemma KeyClean(part: Str -> nat, p: nat, h: nat, e: Emitted, b: Bucket)
    requires BucketOk(part, p, h, e, b) && Clean(e)
    ensures forall i: nat | i < |b| :: 0 !in b[i].key
  {
    forall i: nat | i < |b| ensures 0 !in b[i].key {
      assert PairOk(part, p, h, e, b[i]);
      assert b[i].value[0] in multiset(b[i].value);
      assert (b[i].key, b[i].value[0]) in e;
    }
  }

  /** What a reducer gets from n calls of the getter: the values in order, and then nothing. */
  function Delivered(vals: seq<Str>, n: nat): seq<Option<Str>> {
    seq(n, i requires 0 <= i < n => if i < |vals| then Some(vals[i]) else None)
  }

  /** What each call has got from the getter are the values of that call. */
  predicate AllDelivered(calls: seq<Call>, got: seq<seq<Option<Str>>>) {
    |got| == |calls| && forall i: nat | i < |calls| :: got[i] == Delivered(calls[i].vals, |got[i]|)
  }

  /** A partition while it is reduced: the sorted values of each pair so far, how many of them the
      getter has handed out, and which pair the getter looks at. */
  class Cursor {
    const num: nat
    var sorted: seq<seq<Str>>
    var visited: seq<nat>
    var visiting: nat

    ghost predicate Valid()
      reads this
    {
      && |sorted| == |visited| == num
      && forall i: nat | i < num :: visited[i] <= |sorted[i]|
    }

    constructor (num: nat)
      ensures Valid() && this.num == num && visited == seq(num, _ => 0) && visiting == 0
    {
      this.num, sorted, visited, visiting := num, seq(num, _ => []), seq(num, _ => 0), 0;
    }

    /** The next value of the pair that the getter looks at. */
    method GetterNext() returns (r: Option<Str>)
      requires Valid() && visiting < num
      modifies this`visited
      ensures Valid()
      ensures var vals, i := sorted[visiting], old(visited)[visiting];
              && r == (if i < |vals| then Some(vals[i]) else None)
              && visited == old(visited)[visiting := if i < |vals| then i + 1 else i]
    {
      if visited[visiting] >= |sorted[visiting]| {
        return None;
      }
      r := Some(sorted[visiting][visited[visiting]]);
      visited := visited[visiting := visited[visiting] + 1];
    }

    /** A reducer may call the getter as often as it likes. */
    method Reduce(n: nat) returns (got: seq<Option<Str>>)
      requires Valid() && visiting < num && visited[visiting] == 0
      modifies this`visited
      ensures Valid() && |got| == n && got == Delivered(sorted[visiting], n)
      ensures visited == old(visited)[visiting := visited[visiting]]
    {
      got := [];
      var i := 0;
      while i < n
        invariant i <= n && Valid() && got == Delivered(sorted[visiting], i)
        invariant visited == old(visited)[visiting := visited[visiting]]
        invariant visited[visiting] == if i < |sorted[visiting]| then i else |sorted[visiting]|
      {
        var r := GetterNext();
        got := got + [r];
        i := i + 1;
      }
    }
  }

  /** The lengths of the bucket lists. */
  predicate Counted(bs: seq<Bucket>, lengths: seq<nat>) {
    |lengths| == |bs| && forall h: nat | h < |bs| :: lengths[h] == |bs[h]|
  }

  class Runtime {
    const n: nat                     // partitions
    const part: Str -> nat           // the partitioner
    var table: seq<seq<Bucket>>
    var numbers: seq<seq<nat>>       // how many keys each bucket has
    ghost var emitted: Emitted

    ghost predicate Valid()
      reads this
    {
      && Clean(emitted) && AllReflect(part, n, emitted, table)
      && |numbers| == n && forall p: nat | p < n :: Counted(table[p], numbers[p])
    }

    constructor (n: nat, part: Str -> nat)
      ensures Valid() && this.n == n && this.part == part && emitted == multiset{}
      ensures table == seq(n, _ => EmptyTable())
    {
      this.n, this.part := n, part;
      table := seq(n, _ => EmptyTable());
      numbers := seq(n, _ => seq(NBUCKET, _ => 0));
      emitted := multiset{};
      new;
      forall p: nat | p < n ensures Reflects(part, p, emitted, table[p]) {
        NothingReflects(part, p);
      }
    }

    /** Emits a value under a key, atomically under the lock of the bucket. */
    method Emit(key: Str, value: Str)
      requires Valid() && part(key) < n && 0 !in key && 0 !in value
      modifies this
      ensures Valid() && emitted == old(emitted) + multiset{(key, value)}
      ensures |old(table)| == n && |old(table)[part(key)]| == NBUCKET
      ensures table == EmitTables(part, old(table), key, value)
    {
      hide BucketOk, EmitInto, Reflects;
      var p := part(key);
      var hash := DefaultHashPartition(key, NBUCKET);
      TableShape(part, n, emitted, table, p);
      ReflectsBucket(part, p, emitted, table[p], hash);
      var bucket := table[p][hash];
      KeyClean(part, p, hash, emitted, bucket);
      var temp := Lookup(bucket, key);
      EmitKeepsTables(part, n, emitted, table, key, value);
      assert Counted(table[p], numbers[p]);
      if temp < |bucket| {
        Found(bucket, temp, key, value);
        var raised := Pair(bucket[temp].key, [value] + bucket[temp].value, bucket[temp].num + 1);
        table := table[p := table[p][hash := bucket[temp := raised]]];
      } else {
        NotFound(bucket, key, value);
        table := table[p := table[p][hash := [Pair(key, [value], 1)] + bucket]];
        numbers := numbers[p := numbers[p][hash := numbers[p][hash] + 1]];
      }
      emitted := emitted + multiset{(key, value)};
    }

    /** The walk over the list of a bucket: the pair with the key, or the end. */
    static method Lookup(bucket: Bucket, key: Str) returns (temp: nat)
      requires 0 !in key && forall i: nat | i < |bucket| :: 0 !in bucket[i].key
      ensures temp <= |bucket| && (temp < |bucket| ==> bucket[temp].key == key)
      ensures forall i: nat | i < temp :: bucket[i].key != key
    {
      temp := 0;
      while temp < |bucket|
        invariant temp <= |bucket| && forall i: nat | i < temp :: bucket[i].key != key
      {
        var r := Strcmp(key, bucket[temp].key);
        if r == 0 {
          break;
        }
        temp := temp + 1;
      }
    }

    /** The reduce phase of partition p: the calls of the reducer, in order, and what each of them
        gets from the getter. */
    method ReduceThread(p: nat) returns (calls: seq<Call>, got: seq<seq<Option<Str>>>)
      requires Valid() && p < n
      ensures calls == Calls(table[p]) && Result(part, p, emitted, calls)
      ensures AllDelivered(calls, got)
      ensures forall i: nat, j: nat | i < |calls| && j < |got[i]| ::
                got[i][j] == if j < |calls[i].vals| then Some(calls[i].vals[j]) else None
    {
      hide BucketOk, Gather, Sorted, Result;
      TableShape(part, n, emitted, table, p);
      assert Counted(table[p], numbers[p]);
      CallsResult(part, p, emitted, table[p]);
      GatherNone(table[p]);
      var size, k := 0, 0;
      while k < NBUCKET
        invariant k <= NBUCKET && size == |Gather(table[p][..k])|
      {
        GatherMore(table[p], k);
        size := size + numbers[p][k];
        k := k + 1;
      }
      assert table[p][..k] == table[p];
      calls, got := [], [];
      if size == 0 {
        NoCalls(table[p]);
        return;
      }
      var pairs, i := [], 0;
      while i < NBUCKET
        invariant i <= NBUCKET && pairs == Gather(table[p][..i])
      {
        GatherMore(table[p], i);
        pairs := pairs + table[p][i];
        i := i + 1;
      }
      assert table[p][..i] == table[p];
      PairsCounted(part, p, emitted, table[p]);
      var sorted := Sorted(KeyOf, pairs);
      SortedSame(pairs);
      calls, got := ReducePairs(sorted);
      assert calls == Calls(table[p]);
    }

    /** Calls the reducer for each of the sorted pairs. */
    static method ReducePairs(sorted: seq<Pair>) returns (calls: seq<Call>, got: seq<seq<Option<Str>>>)
      requires forall x | x in sorted :: x.num == |x.value|
      ensures |calls| == |sorted|
      ensures forall i: nat | i < |sorted| :: calls[i] == CallOf(sorted[i])
      ensures AllDelivered(calls, got)
    {
      hide Sorted, Delivered;
      calls, got := [], [];
      var c := new Cursor(|sorted|);
      var i := 0;
      while i < |sorted|
        invariant i <= |sorted| && |calls| == i
        invariant forall j: nat | j < i :: calls[j] == CallOf(sorted[j])
        invariant c.Valid() && c.num == |sorted| && c.visiting == i && forall j: nat | i <= j < c.num ::
            c.visited[j] == 0
        invariant AllDelivered(calls, got)
      {
        var vals := ListToArray(sorted[i]);
        c.sorted := c.sorted[i := Sorted(Self, vals)];
        var count: nat :| true;
        var delivered := c.Reduce(count);
        got := got + [delivered];
        calls := calls + [Call(sorted[i].key, c.sorted[i])];
        c.visiting := i + 1;
        i := i + 1;
      }
    }

    /** Copies the value list of a pair, as far as its count says. */
    static method ListToArray(x: Pair) returns (vals: seq<Str>)
      requires x.num == |x.value|
      ensures vals == x.value
    {
      vals := [];
      var j := 0;
      while j < x.num
        invariant j <= x.num && vals == x.value[..j]
      {
        vals := vals + [x.value[j]];
        j := j + 1;
      }
    }
  }

  lemma ReflectsBucket(part: Str -> nat, p: nat, e: Emitted, bs: seq<Bucket>, h: nat)
    requires Reflects(part, p, e, bs) && h < NBUCKET
    ensures |bs| == NBUCKET && BucketOk(part, p, h, e, bs[h])
  {}

  lemma Found(b: Bucket, i: nat, key: Str, value: Str)
    requires KeyAt(b, i, key) && forall j: nat | j < i :: b[j].key != key
    ensures EmitInto(b, key, value) == b[i := Pair(key, [value] + b[i].value, b[i].num + 1)]
  {
    RaiseAt(b, i, key, value);
  }

  lemma NotFound(b: Bucket, key: Str, value: Str)
    requires forall j: nat | j < |b| :: b[j].key != key
    ensures EmitInto(b, key, value) == [Pair(key, [value], 1)] + b
  {}

  lemma GatherNone(bs: seq<Bucket>)
    ensures Gather(bs[..0]) == []
  {}

  lemma GatherMore(bs: seq<Bucket>, k: nat)
    requires k < |bs|
    ensures Gather(bs[..k + 1]) == Gather(bs[..k]) + bs[k]
  {
    assert bs[..k + 1][..k] == bs[..k];
  }

  lemma NoCalls(bs: seq<Bucket>)
    requires |Gather(bs)| == 0
    ensures Calls(bs) == []
  {}

  lemma PairsCounted(part: Str -> nat, p: nat, e: Emitted, bs: seq<Bucket>)
    requires Reflects(part, p, e, bs)
    ensures forall x | x in Gather(bs) :: x.num == |x.value|
  {
    hide BucketOk, Gather;
    forall x | x in Gather(bs) ensures x.num == |x.value| {
      GatherIn(bs, x);
      var h: nat, i: nat :| InBucket(bs, h, i, x);
      BucketHash(part, p, h, e, bs[h], i);
    }
  }

  lemma SortedSame(s: seq<Pair>)
    ensures forall i: nat | i < |Sorted(KeyOf, s)| :: Sorted(KeyOf, s)[i] in s
  {
    hide Sorted;
    forall i: nat | i < |Sorted(KeyOf, s)| ensures Sorted(KeyOf, s)[i] in s {
      assert Sorted(KeyOf, s)[i] in multiset(s);
    }
  }
}
