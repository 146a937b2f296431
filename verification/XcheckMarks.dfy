/** The marks the image checker makes during its traversal, and what they record. */
module XcheckMarks {
  import opened FsLayout
  import opened FsImage

  /** The checker's arrays, with the entries walked so far and, for each block marked used, the
      inode and address slot that use it. */
  datatype Marks = Marks(refcnt: seq<nat>, usage: seq<bool>, visited: seq<bool>, walked: set<Edge>, own: map<nat, Ref>)

  datatype Ref = Ref(n: nat, k: nat)

  ghost function Into(img: Image, walked: set<Edge>, n: nat): set<Edge>
    requires img.Shape()
  {
    set x | x in walked && img.Target(x) == n
  }

  ghost predicate Lengths(img: Image, m: Marks)
    requires img.Shape()
  {
    |m.refcnt| == |m.visited| == img.NInodes() && |m.usage| == img.Size()
  }

  /** An entry that has been walked starts at the root or in a visited directory. */
  ghost predicate WalkedFrom(img: Image, m: Marks, x: Edge)
    requires img.Shape() && Lengths(img, m)
  {
    x == ROOT_EDGE || (img.IsChild(x) && m.visited[x.d])
  }

  /** Walked entries start at the root or in a visited directory, and end at a visited inode. */
  ghost predicate WalksOk(img: Image, m: Marks)
    requires img.Shape() && img.EntriesInTable() && Lengths(img, m)
  {
    forall x | x in m.walked :: WalkedFrom(img, m, x) && img.Target(x) < img.NInodes() && m.visited[img.Target(x)]
  }

  /** The reference counts count the walked entries. */
  ghost predicate CountsOk(img: Image, m: Marks)
    requires img.Shape() && Lengths(img, m)
  {
    forall n: nat | n < img.NInodes() :: m.refcnt[n] == |Into(img, m.walked, n)|
  }

  /** What has been checked of a visited inode. */
  ghost predicate NodeOk(img: Image, m: Marks, n: nat)
    requires img.Shape() && Lengths(img, m) && n < img.NInodes()
  {
    && img.Reachable(n) && m.refcnt[n] > 0 && 1 <= img.Type(n) <= 3 && img.RefsOk(n)
    && (m.refcnt[n] > 1 ==> img.Reenterable(n))
  }

  ghost predicate NodesOk(img: Image, m: Marks)
    requires img.Shape() && Lengths(img, m)
  {
    forall n: nat | n < img.NInodes() && m.visited[n] :: NodeOk(img, m, n)
  }

  ghost predicate Visits(img: Image, m: Marks)
    requires img.Shape() && img.EntriesInTable() && Lengths(img, m)
  {
    WalksOk(img, m) && CountsOk(img, m) && NodesOk(img, m)
  }

  /** The blocks in use are those of the visited inodes, and of the first hi slots of x. */
  ghost predicate Uses(img: Image, m: Marks, x: nat, hi: nat)
    requires img.Shape() && Lengths(img, m)
  {
    && (forall b: nat | b < img.Size() :: m.usage[b] <==> b in m.own)
    && (forall b | b in m.own :: b != 0 && b < MAXADDR && m.own[b].n < img.NInodes() && m.own[b].k < NSLOT
                                 && Counts(m, x, hi, m.own[b].n, m.own[b].k) && img.Ref(m.own[b].n, m.own[b].k) == b)
    && (forall n: nat, k: nat | n < img.NInodes() && k < NSLOT && Counts(m, x, hi, n, k) && img.Ref(n, k) != 0 ::
          img.Ref(n, k) in m.own && m.own[img.Ref(n, k)] == Ref(n, k))
  }

  /** Slot k of inode n has been counted as a use. */
  ghost predicate Counts(m: Marks, x: nat, hi: nat, n: nat, k: nat)
    requires n < |m.visited|
  {
    m.visited[n] || (n == x && k < hi)
  }

  ghost predicate Core(img: Image, m: Marks)
    requires img.Shape() && img.EntriesInTable()
  {
    Lengths(img, m) && Visits(img, m) && Uses(img, m, 0, 0)
  }

  /** All entries of directory n have been walked. */
  ghost predicate Complete(img: Image, m: Marks, n: nat)
    requires img.Shape()
  {
    forall x: Edge | img.IsChild(x) && x.d == n :: x in m.walked
  }

  // ----- entering an inode -----

  /** Inode n is about to be entered over entry x. */
  ghost predicate Ready(img: Image, m: Marks, x: Edge, n: nat)
    requires img.Shape() && img.EntriesInTable()
  {
    Core(img, m) && WalkedFrom(img, m, x) && x !in m.walked && img.Target(x) == n && n < img.NInodes()
  }

  /** Every entry walked is one that a walk from the root comes to. */
  lemma WalkedIsWalked(img: Image, m: Marks, x: Edge)
    requires img.Shape() && img.EntriesInTable() && Core(img, m) && WalkedFrom(img, m, x)
    ensures img.Walked(x) && img.Target(x) < img.NInodes() && img.Reachable(img.Target(x))
  {
    hide Uses, Into, Image.Type, Image.SlotAddr, Image.Inum, Image.NamedDot, Image.NamedDotDot, Image.RefsOk;
    if x == ROOT_EDGE {
      assert img.ReachedBy([], 1);
    } else {
      var p :| img.ReachedBy(p, x.d);
      var q := p + [x];
      assert q[..|q| - 1] == p;
      assert img.ReachedBy(q, img.Target(x));
    }
  }

  /** Entering again an inode that must not be entered twice shows that the image is not good. */
  lemma Twice(img: Image, m: Marks, x: Edge, n: nat)
    requires img.Shape() && img.EntriesInTable() && Ready(img, m, x, n) && m.visited[n] && !img.Reenterable(n)
    ensures !img.Good()
  {
    assert Into(img, m.walked, n) != {};
    var y :| y in Into(img, m.walked, n);
    WalkedIsWalked(img, m, x);
    WalkedIsWalked(img, m, y);
  }

  /** A bad inode type shows that the image is not good. */
  lemma BadType(img: Image, m: Marks, x: Edge, n: nat)
    requires img.Shape() && img.EntriesInTable() && Ready(img, m, x, n) && !(1 <= img.Type(n) <= 3)
    ensures !img.Good()
  {
    WalkedIsWalked(img, m, x);
  }

  /** So does an address out of range, not marked, or in use. */
  lemma BadRef(img: Image, m: Marks, x: Edge, n: nat, k: nat, c: Ref)
    requires img.Shape() && img.EntriesInTable() && Ready(img, m, x, n) && k < NSLOT
    requires !(m.visited[n] && img.Type(n) == T_FILE)
    requires var b := img.Ref(n, k);
             !(b < MAXADDR && img.Marked(b))
             || (b != 0 && c.n < img.NInodes() && c.k < NSLOT && Counts(m, n, k, c.n, c.k) && img.Ref(c.n, c.k) == b)
    ensures !img.Good()
  {
    WalkedIsWalked(img, m, x);
    var b := img.Ref(n, k);
    if b < MAXADDR && img.Marked(b) && c == Ref(n, k) {
      Twice(img, m, x, n);
    }
  }

  ghost function Enter(m: Marks, x: Edge, n: nat): Marks
    requires n < |m.refcnt| && n < |m.visited|
  {
    m.(refcnt := m.refcnt[n := m.refcnt[n] + 1], visited := m.visited[n := true], walked := m.walked + {x})
  }

  lemma IntoEnter(img: Image, m: Marks, x: Edge, n: nat, c: nat)
    requires img.Shape() && img.EntriesInTable() && Ready(img, m, x, n) && c < img.NInodes()
    ensures |Into(img, m.walked + {x}, c)| == m.refcnt[c] + if c == n then 1 else 0
  {
    hide Uses, Image.Target, Image.IsChild, Image.Reachable, Image.Type, Image.SlotAddr, Image.Inum, Image.NamedDot;
    hide Image.NamedDotDot, Image.RefsOk;
    var i, j := Into(img, m.walked, c), Into(img, m.walked + {x}, c);
    assert j == if c == n then i + {x} else i;
  }

  /** Entering an inode whose addresses are in order keeps the record consistent. */
  lemma Entered(img: Image, m: Marks, m': Marks, x: Edge, n: nat)
    requires img.Shape() && img.EntriesInTable() && Ready(img, m, x, n)
    requires m' == m.(usage := m'.usage, own := m'.own) && Lengths(img, m') && 1 <= img.Type(n) <= 3
    requires if m.visited[n] then m' == m && img.Reenterable(n) else img.RefsOk(n) && Uses(img, m', n, NSLOT)
    ensures Core(img, Enter(m', x, n))
  {
    WalkedIsWalked(img, m, x);
    EnteredVisits(img, m, m', x, n);
    EnteredUses(img, m', n, x);
  }

  lemma EnteredVisits(img: Image, m: Marks, m': Marks, x: Edge, n: nat)
    requires img.Shape() && img.EntriesInTable() && Ready(img, m, x, n) && img.Reachable(n)
    requires m' == m.(usage := m'.usage, own := m'.own) && Lengths(img, m') && 1 <= img.Type(n) <= 3
    requires if m.visited[n] then img.Reenterable(n) else img.RefsOk(n)
    ensures Visits(img, Enter(m', x, n))
  {
    hide WalksOk, CountsOk, NodesOk, NodeOk, Uses, Image.IsChild, Image.Target, Image.Reenterable;
    var t := Enter(m', x, n);
    EnteredWalks(img, m, m', x, n);
    assert CountsOk(img, t) by { EnteredCounts(img, m, m', x, n); }
    if !m.visited[n] { NotYetCounted(img, m, n); }
    EnteredNodes(img, m, m', x, n);
  }

  lemma EnteredWalks(img: Image, m: Marks, m': Marks, x: Edge, n: nat)
    requires img.Shape() && img.EntriesInTable() && Lengths(img, m) && WalksOk(img, m) && WalkedFrom(img, m, x)
    requires img.Target(x) == n && n < img.NInodes()
    requires m' == m.(usage := m'.usage, own := m'.own) && Lengths(img, m')
    ensures WalksOk(img, Enter(m', x, n))
  {
    hide Image.Type, Image.SlotAddr, Image.Inum, Image.NamedDot, Image.NamedDotDot;
  }

  lemma EnteredCounts(img: Image, m: Marks, m': Marks, x: Edge, n: nat)
    requires img.Shape() && img.EntriesInTable() && Ready(img, m, x, n)
    requires m' == m.(usage := m'.usage, own := m'.own) && Lengths(img, m')
    ensures CountsOk(img, Enter(m', x, n))
  {
    hide WalksOk, NodesOk, Uses, Into, Image.IsChild, Image.Target;
    var t := Enter(m', x, n);
    forall c: nat | c < img.NInodes() ensures t.refcnt[c] == |Into(img, t.walked, c)| {
      IntoEnter(img, m, x, n, c);
    }
  }

  lemma NotYetCounted(img: Image, m: Marks, n: nat)
    requires img.Shape() && img.EntriesInTable() && Core(img, m) && n < img.NInodes() && !m.visited[n]
    ensures m.refcnt[n] == 0
  {
    hide Uses, NodesOk, Image.Target, Image.IsChild;
    assert Into(img, m.walked, n) == {};
  }

  lemma EnteredNodes(img: Image, m: Marks, m': Marks, x: Edge, n: nat)
    requires img.Shape() && Lengths(img, m) && NodesOk(img, m) && n < img.NInodes() && img.Reachable(n)
    requires m' == m.(usage := m'.usage, own := m'.own) && Lengths(img, m') && 1 <= img.Type(n) <= 3
    requires if m.visited[n] then img.Reenterable(n) else img.RefsOk(n) && m.refcnt[n] == 0
    ensures NodesOk(img, Enter(m', x, n))
  {
    hide Image.Type, Image.RefsOk, Image.Reachable, Image.Reenterable;
    var t := Enter(m', x, n);
    forall c: nat | c < img.NInodes() && t.visited[c] ensures NodeOk(img, t, c) {
      if c != n || m.visited[n] { assert NodeOk(img, m, c); }
    }
  }

  lemma EnteredUses(img: Image, m: Marks, n: nat, x: Edge)
    requires img.Shape() && Lengths(img, m) && n < img.NInodes()
    requires if m.visited[n] then Uses(img, m, 0, 0) else Uses(img, m, n, NSLOT)
    ensures Uses(img, Enter(m, x, n), 0, 0)
  {
    var t := Enter(m, x, n);
    var hi := if m.visited[n] then 0 else NSLOT;
    assert forall c: nat, k: nat | c < img.NInodes() && k < NSLOT :: Counts(t, 0, 0, c, k) == Counts(m, n, hi, c, k);
  }
}
