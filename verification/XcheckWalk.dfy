/** What the checker's traversal has done after each step of its walk through a directory. */
module XcheckWalk {
  import opened FsLayout
  import opened FsImage
  import opened XcheckMarks

  /** Entry x comes before entry e of block s. */
  predicate Before(x: Edge, s: nat, e: nat) { x.s < s || (x.s == s && x.e < e) }

  /** Inode n was first visited between m0 and m. */
  predicate New(m0: Marks, m: Marks, n: nat) {
    n < |m.visited| && m.visited[n] && !(n < |m0.visited| && m0.visited[n])
  }

  /** Marks are only added. */
  ghost predicate Grows(m0: Marks, m: Marks) {
    && m0.walked <= m.walked && |m0.visited| == |m.visited|
    && forall n: nat | n < |m.visited| && m0.visited[n] :: m.visited[n]
  }

  /** Entry x, if it leads to a directory, leads to one whose dot entries are right. */
  ghost predicate LeadsWell(img: Image, x: Edge)
    requires img.Shape() && img.EntriesInTable()
  {
    img.Target(x) < img.NInodes() && img.Type(img.Target(x)) == T_DIR ==> img.DirOk(x)
  }

  ghost predicate DotDotOk(img: Image, x: Edge)
    requires img.Shape() && img.EntriesInTable()
  {
    img.Target(x) < img.NInodes() && img.Type(img.Target(x)) == T_DIR ==> img.DotDotsName(img.Target(x), Parent(x))
  }

  /** Entering over x and coming back led from m0 to m: everything below has been walked. */
  ghost predicate Explored(img: Image, m0: Marks, m: Marks, x: Edge)
    requires img.Shape() && img.EntriesInTable()
  {
    && Core(img, m) && Grows(m0, m) && x in m.walked
    && (forall y | y in m.walked :: y in m0.walked || y == x || New(m0, m, y.d))
    && (forall n: nat | n < img.NInodes() && New(m0, m, n) && img.Type(n) == T_DIR :: Complete(img, m, n))
    && (forall y | y in m.walked && y !in m0.walked && y != x :: LeadsWell(img, y))
    && DotDotOk(img, x)
  }

  /** Directory n was entered over x at m0, and its entries before entry e of block s are done. */
  ghost predicate Partial(img: Image, m0: Marks, m: Marks, x: Edge, n: nat, s: nat, e: nat)
    requires img.Shape() && img.EntriesInTable()
  {
    && Core(img, m) && Grows(m0, m) && x in m.walked
    && 0 < n < img.NInodes() && New(m0, m, n) && img.Type(n) == T_DIR && img.Target(x) == n
    && WalkedFrom0(img, m0, x)
    && (forall y | y in m.walked :: y in m0.walked || y == x || Own(n, y, s, e) || Below(m0, m, n, y))
    && (forall y | y in m0.walked :: WalkedFrom0(img, m0, y))
    && (forall y: Edge | img.IsChild(y) && Own(n, y, s, e) :: y in m.walked)
    && (forall c: nat | c < img.NInodes() && c != n && New(m0, m, c) && img.Type(c) == T_DIR :: Complete(img, m, c))
    && (forall y | y in m.walked && y !in m0.walked && y != x :: LeadsWell(img, y))
    && (forall y: Edge | img.IsDotDot(y) && Own(n, y, s, e) :: img.Target(y) == Parent(x))
  }

  /** y is one of the entries of n that are done. */
  predicate Own(n: nat, y: Edge, s: nat, e: nat) { y.d == n && Before(y, s, e) }

  /** y is an entry of a directory below n. */
  predicate Below(m0: Marks, m: Marks, n: nat, y: Edge) { y.d != n && New(m0, m, y.d) }

  ghost predicate WalkedFrom0(img: Image, m0: Marks, y: Edge)
    requires img.Shape()
  {
    Lengths(img, m0) && WalkedFrom(img, m0, y)
  }

  /** The flags of the traversal: some entry done so far is "..", some is ".". */
  ghost predicate Flags(img: Image, n: nat, s: nat, e: nat, dotdot: bool, dot: bool)
    requires img.Shape()
  {
    && (dotdot <==> exists y: Edge :: img.IsDotDot(y) && Own(n, y, s, e))
    && (dot <==> exists y: Edge :: img.IsDot(y) && Own(n, y, s, e))
  }

  // ----- steps -----

  /** Entry e of block s leads to no child, or the block is not there. */
  lemma SkipStep(img: Image, m0: Marks, m: Marks, x: Edge, n: nat, s: nat, e: nat, s': nat, e': nat)
    requires img.Shape() && img.EntriesInTable() && Partial(img, m0, m, x, n, s, e)
    requires forall y: Edge | y.d == n && !Before(y, s, e) && Before(y, s', e') ::
               !img.IsChild(y) && (img.IsDotDot(y) ==> img.Target(y) == Parent(x))
    requires forall y: Edge | Before(y, s, e) :: Before(y, s', e')
    ensures Partial(img, m0, m, x, n, s', e')
  {
    hide Core, New, Grows, LeadsWell, Complete, Image.IsChild, Image.IsDotDot, Image.Target, WalkedFrom0;
  }

  /** The next entry has not been walked yet. */
  lemma ChildReady(img: Image, m0: Marks, m: Marks, x: Edge, y: Edge)
    requires img.Shape() && img.EntriesInTable() && Partial(img, m0, m, x, y.d, y.s, y.e) && img.IsChild(y)
    ensures Ready(img, m, y, img.Target(y)) && y != ROOT_EDGE
  {
    hide Core, Grows, LeadsWell, Complete, Image.SlotAddr, Image.Inum, Image.NamedDot, Image.NamedDotDot, Image.Type;
    assert y in m0.walked ==> WalkedFrom0(img, m0, y);
    ChildInTable(img, m0, m, x, y);
  }

  /** Walking child entry y and coming back completes one more entry. */
  lemma ChildStep(img: Image, m0: Marks, m: Marks, m': Marks, x: Edge, y: Edge)
    requires img.Shape() && img.EntriesInTable() && Partial(img, m0, m, x, y.d, y.s, y.e) && img.IsChild(y)
    requires Explored(img, m, m', y)
    requires img.Target(y) < img.NInodes() && img.Type(img.Target(y)) == T_DIR ==> img.HasDots(img.Target(y))
    requires !img.IsDotDot(y)
    ensures Partial(img, m0, m', x, y.d, y.s, y.e + 1)
  {
    hide Core, WalkedFrom0, Image.IsChild, Image.IsDotDot, Image.Target, Image.HasDots, Image.DotDotsName, Image.Type;
    var n, s, e := y.d, y.s, y.e;
    forall z: Edge | Own(n, z, s, e + 1) ensures z == y || Own(n, z, s, e) {}
    forall z | z in m'.walked ensures z in m0.walked || z == x || Own(n, z, s, e + 1) || Below(m0, m', n, z) {
      if z in m.walked { assert z in m0.walked || z == x || Own(n, z, s, e) || Below(m0, m, n, z); }
    }
    forall c: nat | c < img.NInodes() && c != n && New(m0, m', c) && img.Type(c) == T_DIR ensures Complete(img, m', c) {
      if New(m0, m, c) { assert Complete(img, m, c); } else { assert New(m, m', c); }
    }
    forall z | z in m'.walked && z !in m0.walked && z != x ensures LeadsWell(img, z) {
      if z in m.walked { assert LeadsWell(img, z); }
    }
  }

  lemma WalkStart(img: Image, m0: Marks, m: Marks, x: Edge, n: nat)
    requires img.Shape() && img.EntriesInTable() && Ready(img, m0, x, n) && !m0.visited[n] && img.Type(n) == T_DIR
    requires m == Enter(m0.(usage := m.usage, own := m.own), x, n) && Core(img, m)
    ensures Partial(img, m0, m, x, n, 0, 0)
  {
    hide Uses, CountsOk, NodesOk, Image.IsDotDot, Image.Type, Image.SlotAddr, Image.Inum;
  }

  lemma WalkEnd(img: Image, m0: Marks, m: Marks, x: Edge, n: nat)
    requires img.Shape() && img.EntriesInTable() && Partial(img, m0, m, x, n, MAXFILE, 0)
    ensures Explored(img, m0, m, x)
  {
    hide Core, WalkedFrom0, LeadsWell;
    forall c: nat | c < img.NInodes() && New(m0, m, c) && img.Type(c) == T_DIR ensures Complete(img, m, c) {
      if c == n {
        forall y: Edge | img.IsChild(y) && y.d == n ensures y in m.walked { assert Own(n, y, MAXFILE, 0); }
      }
    }
    assert forall y: Edge | img.IsDotDot(y) && y.d == n :: Own(n, y, MAXFILE, 0);
  }

  /** Entering a file or a device is a walk of its own. */
  lemma LeafWalk(img: Image, m0: Marks, m: Marks, x: Edge, n: nat)
    requires img.Shape() && img.EntriesInTable() && Ready(img, m0, x, n) && img.Type(n) != T_DIR
    requires m == Enter(m0.(usage := m.usage, own := m.own), x, n) && Core(img, m)
    ensures Explored(img, m0, m, x)
  {
    hide Visits, Uses, Image.Type;
  }

  // ----- the cases of entering -----

  lemma EnteredAgain(img: Image, m0: Marks, x: Edge, n: nat)
    requires img.Shape() && img.EntriesInTable() && Ready(img, m0, x, n) && m0.visited[n]
    requires img.Reenterable(n)
    ensures Core(img, Enter(m0, x, n))
  {
    hide Uses, WalksOk, CountsOk, Image.Reenterable, Image.RefsOk;
    assert NodeOk(img, m0, n);
    Entered(img, m0, m0, x, n);
  }

  lemma FileAgain(img: Image, m0: Marks, m: Marks, x: Edge, n: nat)
    requires img.Shape() && img.EntriesInTable() && Ready(img, m0, x, n) && m0.visited[n] && img.Type(n) == T_FILE
    requires m == m0.(refcnt := m0.refcnt[n := m0.refcnt[n] + 1], walked := m0.walked + {x})
    ensures Explored(img, m0, m, x)
  {
    assert m.visited == m.visited[n := true];
    EnteredAgain(img, m0, x, n);
    LeafWalk(img, m0, m, x, n);
  }

  lemma DirAgain(img: Image, m0: Marks, x: Edge, n: nat)
    requires img.Shape() && img.EntriesInTable() && Ready(img, m0, x, n) && m0.refcnt[n] > 0 && img.Type(n) == T_DIR
    ensures !img.Good()
  {
    hide Visits, Uses, Image.Good;
    if !m0.visited[n] { NotYetCounted(img, m0, n); }
    Twice(img, m0, x, n);
  }

  /** Inodes not visited yet. */
  ghost function Unvisited(m: Marks): set<nat> { set n: nat | n < |m.visited| && !m.visited[n] }

  lemma SameUses(img: Image, s: Marks, m: Marks, n: nat)
    requires img.Shape() && Lengths(img, s) && n < img.NInodes() && Uses(img, s, n, NSLOT)
    requires m == s.(refcnt := m.refcnt) && Lengths(img, m)
    ensures Uses(img, m, n, NSLOT)
  {
    hide Image.Ref;
    forall c: nat, k: nat | c < img.NInodes() && k < NSLOT
      ensures Counts(m, n, NSLOT, c, k) == Counts(s, n, NSLOT, c, k)
    {}
  }

  /** A directory is entered for the first time; s are the marks after its addresses were checked. */
  lemma DirEntered(img: Image, m0: Marks, s: Marks, m: Marks, x: Edge, n: nat)
    requires img.Shape() && img.EntriesInTable() && Ready(img, m0, x, n) && img.Type(n) == T_DIR
    requires m0.refcnt[n] == 0 && img.RefsOk(n)
    requires s == m0.(refcnt := s.refcnt, usage := s.usage, own := s.own) && Lengths(img, s) && Uses(img, s, n, NSLOT)
    requires m == Enter(m0.(usage := s.usage, own := s.own), x, n)
    ensures Partial(img, m0, m, x, n, 0, 0) && Unvisited(m) < Unvisited(m0)
  {
    hide WalksOk, CountsOk, Uses, Image.RefsOk, Partial;
    var m' := m0.(usage := s.usage, own := s.own);
    assert !m0.visited[n] by { assert m0.visited[n] ==> NodeOk(img, m0, n); }
    SameUses(img, s, m', n);
    Entered(img, m0, m', x, n);
    WalkStart(img, m0, m, x, n);
    assert n in Unvisited(m0) && n !in Unvisited(m);
  }

  lemma LeafEntered(img: Image, m0: Marks, s: Marks, m: Marks, x: Edge, n: nat)
    requires img.Shape() && img.EntriesInTable() && Ready(img, m0, x, n) && T_FILE <= img.Type(n) <= T_DEV
    requires img.RefsOk(n) && !(m0.visited[n] && img.Type(n) == T_FILE)
    requires s == m0.(refcnt := s.refcnt, usage := s.usage, own := s.own) && Lengths(img, s) && Uses(img, s, n, NSLOT)
    requires m0.visited[n] ==> s == m0.(refcnt := s.refcnt) && forall k: nat | k < NSLOT :: img.Ref(n, k) == 0
    requires m == Enter(m0.(usage := s.usage, own := s.own), x, n)
    ensures Explored(img, m0, m, x)
  {
    hide Visits, Uses, Image.RefsOk, Explored;
    var m' := m0.(usage := s.usage, own := s.own);
    SameUses(img, s, m', n);
    Entered(img, m0, m', x, n);
    LeafWalk(img, m0, m, x, n);
  }

  // ----- the flags -----

  lemma FlagsStart(img: Image, n: nat)
    requires img.Shape()
    ensures Flags(img, n, 0, 0, false, false)
  {}

  lemma FlagStep(img: Image, y: Edge, dotdot: bool, dot: bool)
    requires img.Shape() && Flags(img, y.d, y.s, y.e, dotdot, dot)
    ensures Flags(img, y.d, y.s, y.e + 1, dotdot || img.IsDotDot(y), dot || img.IsDot(y))
  {
    hide Image.IsDotDot, Image.IsDot;
    forall z: Edge ensures Own(y.d, z, y.s, y.e + 1) <==> z == y || Own(y.d, z, y.s, y.e) {}
  }

  lemma FlagsSame(img: Image, n: nat, s: nat, e: nat, s': nat, e': nat, dotdot: bool, dot: bool)
    requires img.Shape() && Flags(img, n, s, e, dotdot, dot)
    requires forall y: Edge | img.InUse(y) :: Own(n, y, s', e') <==> Own(n, y, s, e)
    ensures Flags(img, n, s', e', dotdot, dot)
  {
    hide Image.InUse, Own;
    assert forall y: Edge | img.IsDotDot(y) :: img.InUse(y);
    assert forall y: Edge | img.IsDot(y) :: img.InUse(y);
  }

  lemma FlagsEnd(img: Image, n: nat, dotdot: bool, dot: bool)
    requires img.Shape() && Flags(img, n, MAXFILE, 0, dotdot, dot)
    ensures dotdot && dot <==> img.HasDots(n)
  {
    assert forall y: Edge | img.InUse(y) && y.d == n :: Own(n, y, MAXFILE, 0);
  }

  // ----- the entries of a block -----

  /** What the bytes of the entry at hand say about it. */
  lemma EntryAt(img: Image, m0: Marks, m: Marks, x: Edge, y: Edge)
    requires img.Shape() && img.EntriesInTable() && Partial(img, m0, m, x, y.d, y.s, y.e)
    requires y.d < img.NInodes() && y.s < MAXFILE && y.e < NENTRY && 0 < img.SlotAddr(y.d, y.s) < |img.disk|
    ensures var b := img.SlotAddr(y.d, y.s);
            && (img.InUse(y) <==> img.Inum(b, y.e) > 0)
            && (img.IsDotDot(y) <==> img.InUse(y) && img.NamedDotDot(b, y.e))
            && (img.IsDot(y) <==> img.InUse(y) && !img.NamedDotDot(b, y.e) && img.NamedDot(b, y.e))
            && (img.IsChild(y) <==> img.InUse(y) && !img.NamedDotDot(b, y.e) && !img.NamedDot(b, y.e))
            && (img.IsChild(y) || img.IsDotDot(y) ==> img.Target(y) == img.Inum(b, y.e))
            && (img.IsChild(y) ==> img.Target(y) < img.NInodes())
  {
    hide Core, Grows, New, LeadsWell, Complete, Own, Below, WalkedFrom0;
    if img.IsChild(y) { ChildInTable(img, m0, m, x, y); }
  }

  /** An entry of the directory at hand that leads to a child is one that the walk goes over. */
  lemma ChildInTable(img: Image, m0: Marks, m: Marks, x: Edge, y: Edge)
    requires img.Shape() && img.EntriesInTable() && Partial(img, m0, m, x, y.d, y.s, y.e) && img.IsChild(y)
    ensures WalkedFrom(img, m, y) && img.Target(y) < img.NInodes()
  {
    hide Grows, LeadsWell, Complete, Own, Below, WalkedFrom0, Image.SlotAddr, Image.Inum, Image.NamedDot;
    hide Image.NamedDotDot;
    hide Image.Type, Image.IsChild, Image.Target;
    WalkedIsWalked(img, m, y);
  }

  lemma EntrySkip(img: Image, m0: Marks, m: Marks, x: Edge, y: Edge)
    requires img.Shape() && img.EntriesInTable() && Partial(img, m0, m, x, y.d, y.s, y.e)
    requires !img.IsChild(y) && (img.IsDotDot(y) ==> img.Target(y) == Parent(x))
    ensures Partial(img, m0, m, x, y.d, y.s, y.e + 1)
  {
    hide Partial;
    assert forall z: Edge | z.d == y.d && !Before(z, y.s, y.e) && Before(z, y.s, y.e + 1) :: z == y;
    SkipStep(img, m0, m, x, y.d, y.s, y.e, y.s, y.e + 1);
  }

  lemma BlockEnd(img: Image, m0: Marks, m: Marks, x: Edge, n: nat, s: nat, dotdot: bool, dot: bool)
    requires img.Shape() && img.EntriesInTable() && Partial(img, m0, m, x, n, s, NENTRY)
    requires Flags(img, n, s, NENTRY, dotdot, dot)
    ensures Partial(img, m0, m, x, n, s + 1, 0) && Flags(img, n, s + 1, 0, dotdot, dot)
  {
    hide Partial, Flags;
    SkipStep(img, m0, m, x, n, s, NENTRY, s + 1, 0);
    FlagsSame(img, n, s, NENTRY, s + 1, 0, dotdot, dot);
  }

  lemma SkipSlot(img: Image, m0: Marks, m: Marks, x: Edge, n: nat, s: nat, dotdot: bool, dot: bool)
    requires img.Shape() && img.EntriesInTable() && Partial(img, m0, m, x, n, s, 0) && Flags(img, n, s, 0, dotdot, dot)
    requires n < img.NInodes() && s < MAXFILE && img.SlotAddr(n, s) == 0
    ensures Partial(img, m0, m, x, n, s + 1, 0) && Flags(img, n, s + 1, 0, dotdot, dot)
  {
    hide Partial, Flags, Image.SlotAddr;
    SkipStep(img, m0, m, x, n, s, 0, s + 1, 0);
    FlagsSame(img, n, s, 0, s + 1, 0, dotdot, dot);
  }

  /** A ".." entry that does not name the parent shows that the image is not good. */
  lemma BadParent(img: Image, m0: Marks, m: Marks, x: Edge, y: Edge)
    requires img.Shape() && img.EntriesInTable() && Partial(img, m0, m, x, y.d, y.s, y.e)
    requires img.IsDotDot(y) && img.Target(y) != Parent(x)
    ensures !img.Good()
  {
    hide Image.IsDotDot, Image.Target, Image.Type, Image.IsChild, Image.Reachable;
    assert img.Walked(x) && img.Target(x) < img.NInodes() by { PartialWalked(img, m0, m, x, y.d, y.s, y.e); }
  }

  lemma PartialWalked(img: Image, m0: Marks, m: Marks, x: Edge, n: nat, s: nat, e: nat)
    requires img.Shape() && img.EntriesInTable() && Partial(img, m0, m, x, n, s, e)
    ensures img.Walked(x) && img.Target(x) < img.NInodes()
  {
    assert WalkedFrom(img, m, x);
    WalkedIsWalked(img, m, x);
  }

  /** So does a child directory without "." or "..". */
  lemma BadChild(img: Image, m: Marks, y: Edge)
    requires img.Shape() && img.EntriesInTable() && Ready(img, m, y, img.Target(y)) && y != ROOT_EDGE
    requires img.Type(img.Target(y)) == T_DIR && !img.HasDots(img.Target(y))
    ensures !img.Good()
  {
    hide Image.HasDots, Image.Type;
    WalkedIsWalked(img, m, y);
  }

  // ----- where the addresses are read from -----

  lemma SlotDirect(img: Image, n: nat, s: nat)
    requires img.Shape() && n < img.NInodes() && s < NDIRECT && img.RefsOk(n)
    ensures img.SlotAddr(n, s) == img.Addr(n, s) < MAXADDR
  {}

  lemma IndirectBlock(img: Image, n: nat)
    requires img.Shape() && n < img.NInodes() && img.RefsOk(n)
    ensures img.Addr(n, NDIRECT) < MAXADDR
  {
    assert img.Ref(n, NDIRECT) < MAXADDR;
  }

  lemma SlotIndirect(img: Image, n: nat, j: nat)
    requires img.Shape() && n < img.NInodes() && j < NINDIRECT && img.RefsOk(n) && img.Addr(n, NDIRECT) < MAXADDR
    ensures img.SlotAddr(n, NDIRECT + j) == Word(img.disk[img.Addr(n, NDIRECT)], j) < MAXADDR
  {
    assert img.Ref(n, NDIRECT + 1 + j) < MAXADDR;
  }

  // ----- when the walk from the root is done -----

  ghost predicate AllClear(m: Marks) {
    m.walked == {} && m.own == map[] && (forall n: nat | n < |m.visited| :: !m.visited[n])
    && (forall b: nat | b < |m.usage| :: !m.usage[b]) && forall n: nat | n < |m.refcnt| :: m.refcnt[n] == 0
  }

  lemma StartReady(img: Image, m: Marks)
    requires img.Shape() && img.EntriesInTable() && Lengths(img, m) && AllClear(m)
    ensures Ready(img, m, ROOT_EDGE, 1)
  {
    hide Image.Ref, Image.InUse;
    forall n: nat | n < img.NInodes() ensures m.refcnt[n] == |Into(img, m.walked, n)| {
      assert Into(img, m.walked, n) == {};
    }
  }

  /** The marks after an accepted walk from the root. */
  ghost predicate Done(img: Image, m0: Marks, m: Marks)
    requires img.Shape() && img.EntriesInTable()
  {
    Lengths(img, m0) && AllClear(m0) && Explored(img, m0, m, ROOT_EDGE)
  }

  lemma {:induction false} ReachedVisited(img: Image, m0: Marks, m: Marks, p: seq<Edge>, n: nat)
    requires img.Shape() && img.EntriesInTable() && Done(img, m0, m) && img.ReachedBy(p, n)
    ensures n < img.NInodes() && m.visited[n]
  {
    hide Uses, CountsOk, NodesOk, LeadsWell, DotDotOk, Image.SlotAddr, Image.Type;
    if p == [] {
      assert ROOT_EDGE in m.walked;
    } else {
      var x := p[|p| - 1];
      ReachedVisited(img, m0, m, p[..|p| - 1], x.d);
      assert New(m0, m, x.d) && img.IsChild(x);
      assert Complete(img, m, x.d);
    }
  }

  lemma VisitedReachable(img: Image, m0: Marks, m: Marks, n: nat)
    requires img.Shape() && img.EntriesInTable() && Done(img, m0, m)
    ensures img.Reachable(n) <==> n < img.NInodes() && m.visited[n]
  {
    hide Uses, CountsOk, WalksOk, LeadsWell, DotDotOk, Image.ReachedBy;
    if img.Reachable(n) {
      var p :| img.ReachedBy(p, n);
      ReachedVisited(img, m0, m, p, n);
    } else if n < img.NInodes() {
      assert m.visited[n] ==> NodeOk(img, m, n);
    }
  }

  lemma WalkedAll(img: Image, m0: Marks, m: Marks, x: Edge)
    requires img.Shape() && img.EntriesInTable() && Done(img, m0, m)
    ensures img.Walked(x) <==> x in m.walked
  {
    hide Uses, CountsOk, NodesOk, LeadsWell, DotDotOk, Image.Reachable, Image.SlotAddr, Image.Inum, Image.NamedDot;
    hide Image.NamedDotDot;
    VisitedReachable(img, m0, m, x.d);
    if img.Walked(x) && x != ROOT_EDGE {
      assert New(m0, m, x.d);
      assert Complete(img, m, x.d);
    }
    assert x in m.walked ==> WalkedFrom(img, m, x);
  }

  /** The reference counts are the numbers of entries that lead to the inodes. */
  lemma RefcntIsIns(img: Image, m0: Marks, m: Marks, n: nat)
    requires img.Shape() && img.EntriesInTable() && Done(img, m0, m) && n < img.NInodes()
    ensures m.refcnt[n] == |img.Ins(n)|
  {
    hide Uses, WalksOk, NodesOk, LeadsWell, DotDotOk, Image.Walked, Image.Target, Complete;
    forall x: Edge ensures x in Into(img, m.walked, n) <==> x in img.Ins(n) {
      WalkedAll(img, m0, m, x);
      WalkedInRange(img, x);
      assert x == Edge(x.d, x.s, x.e);
    }
    assert Into(img, m.walked, n) == img.Ins(n);
  }

  lemma WalkedInRange(img: Image, x: Edge)
    requires img.Shape()
    ensures img.Walked(x) ==> x.d < img.NInodes() && x.s < MAXFILE && x.e < NENTRY
  {}

  lemma DoneBlocks(img: Image, m0: Marks, m: Marks)
    requires img.Shape() && img.EntriesInTable() && Done(img, m0, m)
    ensures img.BlocksOk()
  {
    hide CountsOk, WalksOk, LeadsWell, DotDotOk, Image.Reachable, Image.Ref, Image.Type, Complete, Image.RefsOk;
    forall n: nat | n < img.NInodes() ensures img.Reachable(n) <==> m.visited[n] { VisitedReachable(img, m0, m, n); }
    forall n: nat | n < img.NInodes() && img.Reachable(n) ensures 1 <= img.Type(n) <= 3 && img.RefsOk(n) {
      assert NodeOk(img, m, n);
    }
    forall n: nat, k: nat | n < img.NInodes() && img.Reachable(n) && k < NSLOT && img.Ref(n, k) != 0
      ensures img.Ref(n, k) in m.own && m.own[img.Ref(n, k)] == Ref(n, k)
    {
      assert Counts(m, 0, 0, n, k);
    }
  }

  lemma TwoInto(img: Image, m: Marks, x: Edge, y: Edge)
    requires img.Shape() && x in m.walked && y in m.walked && x != y && img.Target(x) == img.Target(y)
    ensures |Into(img, m.walked, img.Target(x))| > 1
  {
    hide Image.Target;
    var s := Into(img, m.walked, img.Target(x));
    assert x in s && y in s - {x};
    assert |s - {x}| > 0;
  }

  lemma DoneTree(img: Image, m0: Marks, m: Marks)
    requires img.Shape() && img.EntriesInTable() && Done(img, m0, m) && img.Type(1) == T_DIR
    ensures img.TreeOk()
  {
    hide Uses, Image.Walked, Image.Target, Image.Type, Image.Reenterable, Image.DirOk, Complete, Into;
    assert img.Target(ROOT_EDGE) == 1 by { RootTarget(img); }
    forall x: Edge ensures img.Walked(x) <==> x in m.walked { WalkedAll(img, m0, m, x); }
    forall x: Edge, y: Edge | img.Walked(x) && img.Walked(y) && x != y && img.Target(x) == img.Target(y)
      ensures img.Reenterable(img.Target(x))
    {
      TwoInto(img, m, x, y);
      assert NodeOk(img, m, img.Target(x));
    }
    forall x: Edge | img.Walked(x) && img.Type(img.Target(x)) == T_DIR ensures img.DirOk(x) {
      if x == ROOT_EDGE { RootOk(img); } else { assert LeadsWell(img, x); }
    }
  }

  lemma RootTarget(img: Image)
    requires img.Shape()
    ensures img.Target(ROOT_EDGE) == 1
  {}

  lemma RootOk(img: Image)
    requires img.Shape() && img.EntriesInTable() && DotDotOk(img, ROOT_EDGE) && img.Type(1) == T_DIR
    ensures img.DirOk(ROOT_EDGE)
  {}

  /** The blocks marked used are those that some inode owns. */
  lemma UsageIsOwned(img: Image, m0: Marks, m: Marks, b: nat)
    requires img.Shape() && img.EntriesInTable() && Done(img, m0, m) && 0 < b < img.Size()
    ensures m.usage[b] <==> img.Owned(b)
  {
    hide Visits, LeadsWell, DotDotOk, Image.Reachable, Image.Ref, Image.Type, Complete;
    forall n: nat | n < img.NInodes() ensures img.Reachable(n) <==> m.visited[n] { VisitedReachable(img, m0, m, n); }
    if img.Owned(b) {
      var n: nat, k: nat :| n < img.NInodes() && img.Reachable(n) && k < NSLOT && img.Ref(n, k) == b;
      assert Counts(m, 0, 0, n, k);
    }
    assert b in m.own ==> Counts(m, 0, 0, m.own[b].n, m.own[b].k);
  }
}
