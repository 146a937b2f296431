/** What a good image is good for: a block is marked when one inode has it, the way up leads to the
    root, and links are counted. */
module FsGood {
  import opened FsLayout
  import opened FsImage

  // ----- blocks -----

  /** Address k of inode n is block b. */
  ghost predicate Has(img: Image, n: nat, k: nat, b: nat)
    requires img.Shape()
  {
    n < img.NInodes() && img.Reachable(n) && k < NSLOT && img.Ref(n, k) == b
  }

  /** A data block is marked in the bitmap if and only if an inode that can be reached has it, and then
      just one inode has it, at one place. */
  lemma GoodMatching(img: Image, b: nat)
    requires img.Shape() && img.EntriesInTable() && img.Good() && img.DataStart() <= b < img.Size()
    ensures img.Marked(b) <==> exists n: nat, k: nat :: Has(img, n, k, b)
    ensures forall n: nat, k: nat, m: nat, l: nat | Has(img, n, k, b) && Has(img, m, l, b) :: n == m && k == l
  {
    hide Image.Reachable, Image.Ref, Image.Marked, Image.TreeOk, Image.LinksOk;
    if img.Marked(b) {
      assert img.Owned(b);
      var n: nat, k: nat :| n < img.NInodes() && img.Reachable(n) && k < NSLOT && img.Ref(n, k) == b;
      assert Has(img, n, k, b);
    }
    if n: nat, k: nat :| Has(img, n, k, b) {
      assert img.RefsOk(n);
    }
  }

  // ----- the way up -----

  /** Directory n has an entry ".." that names p. */
  ghost predicate UpTo(img: Image, n: nat, p: nat)
    requires img.Shape()
  {
    exists x: Edge :: x.d == n && img.IsDotDot(x) && img.Target(x) == p
  }

  lemma NotZero(img: Image, p: seq<Edge>, n: nat)
    requires img.Shape() && img.ReachedBy(p, n)
    ensures n != 0
  {}

  /** From every directory, ".." leads up to the root in as many steps as the path down to it has, and
      there is no other way up. */
  lemma {:induction false} ClimbsToRoot(img: Image, p: seq<Edge>, n: nat) returns (c: seq<nat>)
    requires img.Shape() && img.EntriesInTable() && img.Good() && img.ReachedBy(p, n)
    requires n < img.NInodes() && img.Type(n) == T_DIR
    ensures |c| == |p| + 1 && c[0] == n && c[|p|] == 1
    ensures forall i: nat | i < |p| :: UpTo(img, c[i], c[i + 1])
    ensures forall i: nat, q: nat | i < |p| && UpTo(img, c[i], q) :: q == c[i + 1]
    decreases |p|
  {
    hide Image.BlocksOk, Image.LinksOk, Image.MarksOk, Image.Target, Image.Type;
    if p == [] {
      c := [1];
    } else {
      var x, rest := p[|p| - 1], p[..|p| - 1];
      StepUp(img, rest, x, n);
      var up := ClimbsToRoot(img, rest, x.d);
      c := [n] + up;
      forall i: nat | i < |p|
        ensures UpTo(img, c[i], c[i + 1]) && forall q: nat | UpTo(img, c[i], q) :: q == c[i + 1]
      {
        if i > 0 { assert c[i] == up[i - 1] && c[i + 1] == up[i]; }
      }
    }
  }

  lemma StepUp(img: Image, rest: seq<Edge>, x: Edge, n: nat)
    requires img.Shape() && img.EntriesInTable() && img.Good() && img.ReachedBy(rest, x.d)
    requires img.IsChild(x) && img.Target(x) == n && n < img.NInodes() && img.Type(n) == T_DIR
    ensures x.d < img.NInodes() && img.Type(x.d) == T_DIR
    ensures UpTo(img, n, x.d) && forall q: nat | UpTo(img, n, q) :: q == x.d
  {
    hide Image.BlocksOk, Image.LinksOk, Image.MarksOk;
    NotZero(img, rest, x.d);
    assert img.Reachable(x.d);
    assert img.Walked(x);
    hide Image.ReachedBy, Image.Type;
    assert img.DirOk(x);
    assert img.HasDots(n);
  }

  // ----- links -----

  /** The link counts of inodes 2 to n - 1 that are in use. */
  ghost function Links(img: Image, n: nat): int
    requires img.Shape() && n <= img.NInodes()
  {
    if n <= 2 then 0 else Links(img, n - 1) + if img.Type(n - 1) != 0 then img.NLink(n - 1) else 0
  }

  /** The entries of the walk that lead to inodes 2 to n - 1. */
  ghost function EntriesTo(img: Image, n: nat): set<Edge>
    requires img.Shape()
  {
    set d: nat, s: nat, e: nat |
      d < img.NInodes() && s < MAXFILE && e < NENTRY && img.Walked(Edge(d, s, e))
      && 2 <= img.Target(Edge(d, s, e)) < n :: Edge(d, s, e)
  }

  lemma EntriesSplit(img: Image, n: nat)
    requires img.Shape() && 2 <= n
    ensures EntriesTo(img, n + 1) == EntriesTo(img, n) + img.Ins(n) && EntriesTo(img, n) !! img.Ins(n)
  {
    hide Image.Walked, Image.Target;
    forall x: Edge ensures x in EntriesTo(img, n + 1) <==> x in EntriesTo(img, n) || x in img.Ins(n) {
      IsEntry(img, n, x);
      IsEntry(img, n + 1, x);
    }
    forall x | x in EntriesTo(img, n) ensures x !in img.Ins(n) {
      IsEntry(img, n, x);
    }
  }

  lemma IsEntry(img: Image, n: nat, x: Edge)
    requires img.Shape()
    ensures x in EntriesTo(img, n) <==>
            x.d < img.NInodes() && x.s < MAXFILE && x.e < NENTRY && img.Walked(x) && 2 <= img.Target(x) < n
    ensures x in img.Ins(n) <==>
            x.d < img.NInodes() && x.s < MAXFILE && x.e < NENTRY && img.Walked(x) && img.Target(x) == n
  {
    hide Image.Walked, Image.Target;
    assert x == Edge(x.d, x.s, x.e);
  }

  /** The link counts of all inodes in use are, together, as many as there are directory entries. */
  lemma {:induction false} LinksCounted(img: Image, n: nat)
    requires img.Shape() && img.EntriesInTable() && img.Good() && 2 <= n <= img.NInodes()
    ensures |EntriesTo(img, n)| == Links(img, n)
  {
    hide Image.Walked, Image.Target, Image.Type, Image.NLink, Image.TreeOk, Image.MarksOk, Image.Reachable;
    if n == 2 {
      assert EntriesTo(img, n) == {};
    } else {
      hide EntriesTo, Image.Ins, Image.Good;
      LinksCounted(img, n - 1);
      InsAre(img, n - 1);
      EntriesSplit(img, n - 1);
      assert |EntriesTo(img, n)| == |EntriesTo(img, n - 1)| + |img.Ins(n - 1)|;
    }
  }

  /** An inode that is not in use has no entries. */
  lemma InsAre(img: Image, n: nat)
    requires img.Shape() && img.EntriesInTable() && img.Good() && 2 <= n < img.NInodes()
    ensures |img.Ins(n)| == if img.Type(n) != 0 then img.NLink(n) else 0
  {
    hide Image.Type, Image.NLink, Image.TreeOk, Image.MarksOk;
    if img.Type(n) == 0 {
      forall x | x in img.Ins(n) ensures false {
        Reached(img, x);
      }
      assert img.Ins(n) == {};
    }
  }

  lemma Reached(img: Image, x: Edge)
    requires img.Shape() && img.Walked(x)
    ensures img.Reachable(img.Target(x))
  {
    if x == ROOT_EDGE {
      var none: seq<Edge> := [];
      assert img.ReachedBy(none, 1);
    } else {
      var p :| img.ReachedBy(p, x.d);
      assert (p + [x])[..|p|] == p;
      assert img.ReachedBy(p + [x], img.Target(x));
    }
  }
}
