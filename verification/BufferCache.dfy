/** The buffer cache: ten buffers in a doubly linked list, the most recently released one first. */
module BufferCache {
  import opened Wrappers
  import opened FsLayout

  const NBUF: nat := 10
  const HEAD: nat := 10              // the list head, which is no buffer
  const NODEV: nat := 0xFFFF_FFFF    // a buffer that was never used

  datatype Loc = Loc(dev: nat, sector: nat)

  datatype Buf = Buf(busy: bool, valid: bool, dirty: bool, loc: Loc, data: Block)

  type Disk = map<Loc, Block>

  /** A sector that was never written is zero. */
  function At(disk: Disk, loc: Loc): Block { if loc in disk then disk[loc] else Zeros() }

  datatype Got = Locked(b: nat) | MustSleep(b: nat) | NoBuffers

  // ----- the linked list -----

  function Ring(lru: seq<nat>): seq<nat> { [HEAD] + lru + [HEAD] }

  predicate Distinct(s: seq<nat>) {
    (forall i: nat | i < |s| :: s[i] < NBUF) && forall i: nat, j: nat | i < j < |s| :: s[i] != s[j]
  }

  /** Both chains of links run through lru and the head. */
  ghost predicate Linked(prev: seq<nat>, next: seq<nat>, lru: seq<nat>) {
    && |prev| == NBUF + 1 && |next| == NBUF + 1 && Distinct(lru)
    && forall i: nat | i <= |lru| :: LinkOk(prev, next, Ring(lru)[i], Ring(lru)[i + 1])
  }

  ghost predicate LinkOk(prev: seq<nat>, next: seq<nat>, a: nat, b: nat) {
    a < |next| && b < |prev| && next[a] == b && prev[b] == a
  }

  lemma LinkAt(prev: seq<nat>, next: seq<nat>, lru: seq<nat>, i: nat)
    requires Linked(prev, next, lru) && i <= |lru|
    ensures LinkOk(prev, next, Ring(lru)[i], Ring(lru)[i + 1])
    ensures Ring(lru)[i] == (if i == 0 then HEAD else lru[i - 1])
        && Ring(lru)[i + 1] == (if i == |lru| then HEAD else lru[i])
  {}

  lemma LinkedFront(prev: seq<nat>, next: seq<nat>, lru: seq<nat>, b: nat)
    requires Linked(prev, next, lru) && b < NBUF && b !in lru
    ensures next[HEAD] <= NBUF
    ensures Linked(prev[b := HEAD][next[HEAD] := b], next[b := next[HEAD]][HEAD := b], [b] + lru)
  {
    LinkAt(prev, next, lru, 0);
    var f, p, n, l := next[HEAD], prev[b := HEAD][next[HEAD] := b], next[b := next[HEAD]][HEAD := b], [b] + lru;
    forall i: nat | i <= |l| ensures LinkOk(p, n, Ring(l)[i], Ring(l)[i + 1]) {
      if i > 0 {
        LinkAt(prev, next, lru, i - 1);
        assert Ring(l)[i + 1] == Ring(lru)[i];
        assert i > 1 ==> Ring(l)[i] == Ring(lru)[i - 1] == lru[i - 2];
      }
    }
  }

  function Without(s: seq<nat>, k: nat): seq<nat>
    requires k < |s|
  {
    s[..k] + s[k + 1..]
  }

  lemma LinkedWithout(prev: seq<nat>, next: seq<nat>, lru: seq<nat>, k: nat)
    requires Linked(prev, next, lru) && k < |lru|
    ensures var b := lru[k];
            && next[b] <= NBUF && prev[b] <= NBUF
            && Linked(prev[next[b] := prev[b]], next[prev[b] := next[b]], Without(lru, k)) && b !in Without(lru, k)
  {
    var b, l := lru[k], Without(lru, k);
    LinkAt(prev, next, lru, k);
    LinkAt(prev, next, lru, k + 1);
    var p, n := prev[next[b] := prev[b]], next[prev[b] := next[b]];
    forall i: nat | i <= |l| ensures LinkOk(p, n, Ring(l)[i], Ring(l)[i + 1]) {
      if i < k {
        LinkAt(prev, next, lru, i);
      } else if i > k {
        LinkAt(prev, next, lru, i + 1);
      }
    }
  }

  // ----- the cache -----

  class Bcache {
    const prev: array<nat>
    const next: array<nat>
    const buf: array<Buf>
    var disk: Disk
    ghost var lru: seq<nat>       // the buffers in list order
    ghost var released: seq<int>  // when each buffer was released last

    /** The list holds all buffers, in the order of their last release, and no sector has two
        buffers. */
    ghost predicate Valid()
      reads this, prev, next, buf
    {
      && prev != next && buf.Length == NBUF && |lru| == NBUF && |released| == NBUF && Linked(prev[..], next[..], lru)
      && (forall i: nat, j: nat | i < j < NBUF :: released[lru[i]] > released[lru[j]])
      && (forall b: nat, c: nat | b < c < NBUF && buf[b].loc == buf[c].loc :: buf[b].loc.dev == NODEV)
    }

    /** A buffer that nobody holds is what the disk holds, if it is valid. */
    ghost predicate Coherent()
      reads this, buf
    {
      forall b: nat | b < buf.Length && !buf[b].busy :: !buf[b].dirty
                                                        && (buf[b].valid ==> buf[b].data == At(disk, buf[b].loc))
    }

    constructor (disk: Disk)
      ensures Valid() && Coherent() && this.disk == disk && fresh(prev) && fresh(next) && fresh(buf)
    {
      prev := new nat[NBUF + 1](_ => HEAD);
      next := new nat[NBUF + 1](_ => HEAD);
      buf := new Buf[NBUF](_ => Buf(false, false, false, Loc(NODEV, 0), Zeros()));
      this.disk := disk;
      lru := [];
      released := seq(NBUF, i => i);
      new;
      var b := 0;
      while b < NBUF
        invariant this.disk == disk
        invariant b <= NBUF && |lru| == b && Linked(prev[..], next[..], lru) && released == seq(NBUF, i => i)
        invariant forall i: nat | i < b :: lru[i] == b - 1 - i
        invariant forall c: nat | c < NBUF :: buf[c] == Buf(false, false, false, Loc(NODEV, 0), Zeros())
      {
        ToFront(b);
        b := b + 1;
      }
    }

    /** Links buffer b behind the list head. */
    method ToFront(b: nat)
      requires prev != next && Linked(prev[..], next[..], lru) && b < NBUF && b !in lru
      modifies prev, next, this`lru
      ensures lru == [b] + old(lru) && Linked(prev[..], next[..], lru)
    {
      ghost var p: seq<nat>, n: seq<nat> := prev[..], next[..];
      LinkedFront(p, n, lru, b);
      next[b] := next[HEAD];
      prev[b] := HEAD;
      prev[next[HEAD]] := b;
      next[HEAD] := b;
      lru := [b] + lru;
      assert prev[..] == p[b := HEAD][n[HEAD] := b] && next[..] == n[b := n[HEAD]][HEAD := b];
    }

    /** Unlinks buffer b. */
    method Unlink(b: nat, ghost k: nat)
      requires prev != next && Linked(prev[..], next[..], lru) && k < |lru| && lru[k] == b
      modifies prev, next, this`lru
      ensures lru == Without(old(lru), k) && b !in lru && Linked(prev[..], next[..], lru)
    {
      ghost var p: seq<nat>, n: seq<nat> := prev[..], next[..];
      LinkedWithout(p, n, lru, k);
      prev[next[b]] := prev[b];
      next[prev[b]] := next[b];
      lru := Without(lru, k);
      assert prev[..] == p[n[b] := p[b]] && next[..] == n[p[b] := n[b]];
    }

    /** A locked buffer for the sector: the one that has it, or else the buffer that nobody holds and
        that was released longest ago. If the buffer of the sector is held, the caller must sleep. */
    method Bget(loc: Loc) returns (g: Got)
      requires Valid() && loc.dev != NODEV
      modifies buf
      ensures Valid()
      ensures g.MustSleep? ==> g.b < NBUF && buf[g.b].busy && buf[g.b].loc == loc
      ensures g.NoBuffers? ==> forall c: nat | c < NBUF :: buf[c].busy && buf[c].loc != loc
      ensures !g.Locked? ==> buf[..] == old(buf[..])
      ensures g.Locked? ==> g.b < NBUF && !old(buf[..])[g.b].busy && buf[..] == old(buf[..])[g.b := buf[g.b]]
                            && buf[g.b].busy && buf[g.b].loc == loc
      ensures g.Locked? && old(buf[..])[g.b].loc == loc ==> buf[g.b] == old(buf[..])[g.b].(busy := true)
      ensures g.Locked? && old(buf[..])[g.b].loc != loc ==>
                && !buf[g.b].valid && !buf[g.b].dirty && (forall c: nat | c < NBUF :: old(buf[..])[c].loc != loc)
                && (forall c: nat | c < NBUF && c != g.b && !old(buf[..])[c].busy :: released[g.b] < released[c])
    {
      var b := FindSector(loc);
      if b != HEAD {
        if !buf[b].busy {
          buf[b] := buf[b].(busy := true);
          return Locked(b);
        }
        return MustSleep(b);
      }
      b := FindIdle();
      if b != HEAD {
        buf[b] := Buf(true, false, false, loc, buf[b].data);
        return Locked(b);
      }
      g := NoBuffers;
    }

    /** The walk from the front of the list: the buffer of a sector, or the list head. */
    method FindSector(loc: Loc) returns (b: nat)
      requires Valid()
      ensures b <= NBUF && (b != HEAD ==> buf[b].loc == loc)
      ensures b == HEAD ==> forall c: nat | c < NBUF :: buf[c].loc != loc
    {
      hide Linked, Distinct;
      ListDistinct();
      AllListed(lru);
      ghost var i: nat := 0;
      LinkAt(prev[..], next[..], lru, 0);
      b := next[HEAD];
      while b != HEAD && buf[b].loc != loc
        invariant i <= NBUF && b <= NBUF && b == Ring(lru)[i + 1] && (i == NBUF <==> b == HEAD)
        invariant forall j: nat | j < i :: buf[lru[j]].loc != loc
        decreases NBUF - i
      {
        LinkAt(prev[..], next[..], lru, i + 1);
        b := next[b];
        i := i + 1;
      }
      if b == HEAD {
        forall c: nat | c < NBUF ensures buf[c].loc != loc { assert c in lru; }
      }
    }

    /** The walk from the end of the list: the first buffer there that nobody holds, or the head. */
    method FindIdle() returns (b: nat)
      requires Valid()
      ensures b <= NBUF && (b != HEAD ==> !buf[b].busy)
      ensures b != HEAD ==> forall c: nat | c < NBUF && c != b && !buf[c].busy :: released[b] < released[c]
      ensures b == HEAD ==> forall c: nat | c < NBUF :: buf[c].busy
    {
      hide Linked, Distinct;
      ListDistinct();
      AllListed(lru);
      ghost var i: nat := NBUF;
      LinkAt(prev[..], next[..], lru, NBUF);
      b := prev[HEAD];
      while b != HEAD && buf[b].busy
        invariant i <= NBUF && b <= NBUF && b == Ring(lru)[i] && (i == 0 <==> b == HEAD)
        invariant forall j: nat | i <= j < NBUF :: buf[lru[j]].busy
        decreases i
      {
        LinkAt(prev[..], next[..], lru, i - 1);
        b := prev[b];
        i := i - 1;
      }
      forall c: nat | c < NBUF && c != b && !buf[c].busy ensures b != HEAD && released[b] < released[c] {
        assert c in lru;
        var j: nat :| j < |lru| && lru[j] == c;
        assert i > 0 && lru[i - 1] == b;
      }
    }

    lemma ListDistinct()
      requires Valid()
      ensures Distinct(lru) && forall i: nat | i < NBUF :: lru[i] < NBUF
    {}

    /** The transfer of a held buffer: to the disk if it is dirty, else from the disk. */
    method Iderw(b: nat)
      requires b < buf.Length && buf[b].busy && (!buf[b].valid || buf[b].dirty)
      modifies buf, this`disk
      ensures disk == if old(buf[b]).dirty then old(disk)[buf[b].loc := old(buf[b]).data] else old(disk)
      ensures buf[..] == old(buf[..])[b := buf[b]]
      ensures buf[b] == old(buf[b]).(valid := true, dirty := false, data := At(disk, old(buf[b]).loc))
    {
      if buf[b].dirty {
        disk := disk[buf[b].loc := buf[b].data];
        buf[b] := buf[b].(valid := true, dirty := false);
      } else {
        buf[b] := buf[b].(valid := true, data := At(disk, buf[b].loc));
      }
    }

    /** The buffer of a sector, with the contents that the disk has. */
    method Bread(loc: Loc) returns (g: Got)
      requires Valid() && Coherent() && loc.dev != NODEV
      modifies buf, this`disk
      ensures Valid() && Coherent() && disk == old(disk)
      ensures g.Locked? ==> g.b < NBUF && !old(buf[g.b]).busy && buf[g.b].busy && buf[g.b].loc == loc
                            && buf[g.b].data == At(disk, loc) && buf[..] == old(buf[..])[g.b := buf[g.b]]
      ensures !g.Locked? ==> buf[..] == old(buf[..])
      ensures g.NoBuffers? ==> forall c: nat | c < NBUF :: buf[c].busy
    {
      g := Bget(loc);
      ghost var was := old(buf[..]);
      if g.Locked? {
        assert forall c: nat | c < NBUF && c != g.b :: buf[c] == was[c];
        if !buf[g.b].valid {
          Iderw(g.b);
        }
        assert forall c: nat | c < NBUF && c != g.b :: buf[..][c] == was[c];
      } else {
        assert forall c: nat | c < NBUF :: buf[..][c] == was[c];
      }
    }

    /** Whoever holds a buffer may change its contents. */
    method Fill(b: nat, data: Block)
      requires Valid() && Coherent() && b < NBUF && buf[b].busy
      modifies buf
      ensures Valid() && Coherent() && buf[..] == old(buf[..])[b := old(buf[b]).(data := data)]
    {
      buf[b] := buf[b].(data := data);
    }

    /** Writes a held buffer to the disk. */
    method Bwrite(b: nat)
      requires Valid() && Coherent() && b < NBUF && buf[b].busy && buf[b].loc.dev != NODEV
      modifies buf, this`disk
      ensures Valid() && Coherent()
      ensures disk == old(disk)[buf[b].loc := buf[b].data]
      ensures buf[..] == old(buf[..])[b := old(buf[b]).(valid := true, dirty := false)]
    {
      ghost var was := old(buf[..]);
      buf[b] := buf[b].(dirty := true);
      Iderw(b);
      assert forall c: nat | c < NBUF && c != b :: buf[..][c] == was[c];
    }

    /** Releases a held buffer: it becomes the first of the list. The cache stays coherent exactly
        when what the buffer holds has been written. */
    method Brelse(b: nat)
      requires Valid() && Coherent() && b < NBUF && buf[b].busy
      modifies buf, prev, next, this`lru, this`released
      ensures Valid() && buf[..] == old(buf[..])[b := old(buf[b]).(busy := false)]
      ensures exists k: nat :: k < NBUF && old(lru)[k] == b && lru == [b] + Without(old(lru), k)
      ensures forall c: nat | c < NBUF && c != b :: released[c] == old(released)[c] && released[c] < released[b]
      ensures Coherent() <==> !buf[b].dirty && (buf[b].valid ==> buf[b].data == At(disk, buf[b].loc))
    {
      hide Linked, Distinct;
      ListDistinct();
      AllListed(lru);
      assert b in lru;
      ghost var k: nat :| k < |lru| && lru[k] == b;
      ghost var l, was := lru, buf[..];
      Unlink(b, k);
      ToFront(b);
      released := released[b := released[l[0]] + 1];
      LaterFirst(l, k, old(released), released);
      NewestReleased(l, k, old(released), released);
      buf[b] := buf[b].(busy := false);
      assert buf[..] == was[b := was[b].(busy := false)];
      assert forall c: nat | c < NBUF && c != b :: buf[c] == was[c];
    }
  }

  /** Ten different buffers are all buffers. */
  lemma AllListed(lru: seq<nat>)
    requires Distinct(lru) && |lru| == NBUF
    ensures forall c: nat | c < NBUF :: c in lru
  {
    hide Elements, Upto;
    var s, all := Elements(lru), Upto(0, NBUF);
    SameSize(s, all);
    forall c: nat | c < NBUF ensures c in lru { assert c in all; }
  }

  lemma SameSize(s: set<nat>, all: set<nat>)
    requires s <= all && |s| == |all|
    ensures s == all
  {
    assert all == s + (all - s);
  }

  ghost function Elements(s: seq<nat>): (r: set<nat>)
    ensures forall x :: x in r <==> x in s
    ensures (forall i: nat, j: nat | i < j < |s| :: s[i] != s[j]) ==> |r| == |s|
  {
    if s == [] then {} else assert s == s[..|s| - 1] + [s[|s| - 1]]; Elements(s[..|s| - 1]) + {s[|s| - 1]}
  }

  lemma NewestReleased(l: seq<nat>, k: nat, r: seq<int>, r': seq<int>)
    requires Distinct(l) && |l| == NBUF && |r| == NBUF && k < NBUF && r' == r[l[k] := r[l[0]] + 1]
    requires forall i: nat, j: nat | i < j < NBUF :: r[l[i]] > r[l[j]]
    ensures |r'| == NBUF && forall c: nat | c < NBUF && c != l[k] :: r'[c] == r[c] && r'[c] < r'[l[k]]
  {
    AllListed(l);
    forall c: nat | c < NBUF && c != l[k] ensures r'[c] == r[c] && r'[c] < r'[l[k]] {
      assert c in l;
      var i: nat :| i < |l| && l[i] == c;
      assert i > 0 ==> r[l[0]] > r[l[i]];
    }
  }

  /** Moving the buffer released just now to the front keeps the list in order. */
  lemma LaterFirst(l: seq<nat>, k: nat, r: seq<int>, r': seq<int>)
    requires Distinct(l) && |l| == NBUF && |r| == NBUF && k < NBUF && r' == r[l[k] := r[l[0]] + 1]
    requires forall i: nat, j: nat | i < j < NBUF :: r[l[i]] > r[l[j]]
    ensures var m := [l[k]] + Without(l, k);
            |m| == NBUF && Distinct(m) && forall i: nat, j: nat | i < j < NBUF :: r'[m[i]] > r'[m[j]]
  {
    var m := [l[k]] + Without(l, k);
    forall i: nat | i < NBUF ensures m[i] == l[From(k, i)] {}
    forall i: nat, j: nat | i < j < NBUF ensures m[i] != m[j] && r'[m[i]] > r'[m[j]] {
      assert l[From(k, i)] != l[From(k, j)] && l[From(k, j)] != l[k];
      if From(k, j) > 0 { assert r[l[0]] > r[l[From(k, j)]]; }
      if i > 0 { assert r[l[From(k, i)]] > r[l[From(k, j)]]; }
    }
  }

  /** Which element of a list is at place i after element k has been moved to the front. */
  function From(k: nat, i: nat): nat { if i == 0 then k else if i <= k then i - 1 else i }
}
