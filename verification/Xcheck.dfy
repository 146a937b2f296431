/** The image checker: a walk over the directory tree that marks what it sees, and the final
    comparison of the marks with the inode table and the bitmap. */
module Xcheck {
  import opened Wrappers
  import opened FsLayout
  import opened FsImage
  import opened XcheckMarks
  import opened XcheckWalk

  /** The byte at an offset from the start of the image. */
  function ByteAt(disk: seq<Block>, at: nat): byte
    requires at / BSIZE < |disk|
  {
    disk[at / BSIZE][at % BSIZE]
  }

  /** The bitmap starts behind the inode table; the mark of block 8q + j is bit j of its byte q. */
  lemma BitByte(img: Image, q: nat, j: nat)
    requires img.Shape() && j < 8 && 8 * q + j < img.Size()
    ensures var at := (img.NInodes() / IPB + 3) * BSIZE + q;
            at / BSIZE < |img.disk| && img.Marked(8 * q + j) == Bit(ByteAt(img.disk, at), j)
  {
    hide Bit;
    var b := 8 * q + j;
    assert b / BPB == q / BSIZE && b % BPB / 8 == q % BSIZE && b % 8 == j;
  }

  class Checker {
    const img: Image
    const bitmap: array<bool>
    const usage: array<bool>
    const refcnt: array<nat>
    const visited: array<bool>
    ghost var walked: set<Edge>
    ghost var own: map<nat, Ref>

    /** Allocates the marks, all clear, and reads the bitmap. */
    constructor (img: Image)
      requires img.Shape() && img.EntriesInTable()
      ensures this.img == img && Valid() && fresh(usage) && fresh(refcnt) && fresh(visited)
      ensures M() == Marks(seq(img.NInodes(), _ => 0), seq(img.Size(), _ => false), seq(img.NInodes(), _ => false),
          {}, map[])
    {
      this.img := img;
      walked, own := {}, map[];
      bitmap := new bool[img.Size()](_ => false);
      usage := new bool[img.Size()](_ => false);
      refcnt := new nat[img.NInodes()](_ => 0);
      visited := new bool[img.NInodes()](_ => false);
      new;
      ReadBitmap();
    }

    /** Unpacks the bitmap: eight marks from each byte, up to the size of the image. */
    method ReadBitmap()
      requires img.Shape() && bitmap.Length == img.Size()
      modifies bitmap
      ensures forall b: nat | b < img.Size() :: bitmap[b] == img.Marked(b)
    {
      hide Bit, img.Marked, ByteAt;
      var start := (img.NInodes() / IPB + 3) * BSIZE;
      var at, i := start, 0;
      while i < img.Size()
        invariant i <= img.Size() && (i < img.Size() ==> i == 8 * (at - start)) && start <= at
        invariant forall b: nat | b < i :: bitmap[b] == img.Marked(b)
      {
        BitByte(img, at - start, 0);
        var bits, j := ByteAt(img.disk, at), 0;
        while j < 8 && i < img.Size()
          invariant j <= 8 && i == 8 * (at - start) + j <= img.Size()
          invariant forall b: nat | b < i :: bitmap[b] == img.Marked(b)
        {
          BitByte(img, at - start, j);
          bitmap[i] := Bit(bits, j);
          i := i + 1;
          j := j + 1;
        }
        at := at + 1;
      }
    }

    ghost function M(): Marks
      reads this, usage, refcnt, visited
    {
      Marks(refcnt[..], usage[..], visited[..], walked, own)
    }

    ghost predicate Valid()
      reads this, bitmap
    {
      && img.Shape() && img.EntriesInTable()
      && bitmap != usage && bitmap != visited && usage != visited
      && bitmap.Length == usage.Length == img.Size() && refcnt.Length == visited.Length == img.NInodes()
      && forall b: nat | b < img.Size() :: bitmap[b] == img.Marked(b)
    }

    /** Checks one address and marks its block used; c is the earlier use of a block in use. */
    method CheckAddr(inum: nat, ghost k: nat, addr: nat) returns (ok: bool, ghost c: Ref)
      requires Valid() && inum < img.NInodes() && k < NSLOT && addr == img.Ref(inum, k)
      requires Uses(img, M(), inum, k)
      modifies usage, this`own
      ensures ok ==> addr < MAXADDR && img.Marked(addr) && Uses(img, M(), inum, k + 1)
      ensures ok ==> addr != 0 ==> !old(usage[addr])
      ensures ok ==> M() == if addr == 0 then old(M()) else old(M()).(usage := M().usage, own := M().own)
      ensures !ok ==> M() == old(M())
      ensures !ok ==> !(addr < MAXADDR && img.Marked(addr))
                      || (addr != 0 && c.n < img.NInodes() && c.k < NSLOT && Counts(M(), inum, k, c.n, c.k)
                          && img.Ref(c.n, c.k) == addr)
    {
      ghost var m := M();
      c := Ref(0, 0);
      if addr > 1023 {
        return false, c;
      }
      if !bitmap[addr] {
        return false, c;
      }
      if addr != 0 && usage[addr] {
        return false, own[addr];
      }
      if addr != 0 {
        usage[addr] := true;
        own := own[addr := Ref(inum, k)];
        assert usage[..] == old(usage[..])[addr := true];
      }
      UseOne(img, m, M(), inum, k);
      ok := true;
    }

    /** Checks the 13 addresses of an inode and the 128 entries of block addrs[12]. The marks were
        m when the inode was entered; its reference count has been incremented since. */
    method CheckRefs(inum: nat, ghost x: Edge, ghost m: Marks) returns (ok: bool)
      requires Valid() && Ready(img, m, x, inum) && 1 <= img.Type(inum) <= 3
      requires M() == m.(refcnt := M().refcnt)
      requires !(visited[inum] && img.Type(inum) == T_FILE)
      modifies usage, this`own
      ensures ok ==> img.RefsOk(inum) && Uses(img, M(), inum, NSLOT)
      ensures M() == m.(refcnt := M().refcnt, usage := M().usage, own := M().own)
      ensures ok && visited[inum] ==> M() == old(M()) && forall k: nat | k < NSLOT :: img.Ref(inum, k) == 0
      ensures !ok ==> !img.Good()
    {
      hide Visits, Uses, Image.Ref, Image.Marked, Image.Good, Image.Type, Image.Target, WalkedFrom;
      ghost var m1 := M();
      UsesStart(img, m, m1, inum);
      var i := 0;
      while i < NDIRECT + 1
        invariant i <= NDIRECT + 1 && RefsUpTo(img, m1, M(), inum, i)
      {
        ghost var s := M();
        DirectAt(img, inum, i);
        var fine, c := CheckAddr(inum, i, img.Addr(inum, i));
        if !fine {
          BadRef(img, m, x, inum, i, c);
          return false;
        }
        RefsNext(img, m1, s, M(), inum, i);
        i := i + 1;
      }
      var ind := img.Addr(inum, NDIRECT);
      IndirectAt(img, inum);
      var j := 0;
      while j < NINDIRECT
        invariant j <= NINDIRECT && RefsUpTo(img, m1, M(), inum, NDIRECT + 1 + j)
      {
        ghost var s := M();
        var fine, c := CheckAddr(inum, NDIRECT + 1 + j, Word(img.disk[ind], j));
        if !fine {
          BadRef(img, m, x, inum, NDIRECT + 1 + j, c);
          return false;
        }
        RefsNext(img, m1, s, M(), inum, NDIRECT + 1 + j);
        j := j + 1;
      }
      AllRefsOk(img, inum);
      ok := true;
    }

    /** Enters inode inum, and walks everything below it when it is a directory. None is the exit
        with an error message; otherwise -1 for a file, and for a directory how many of "." and
        ".." it has. The ghost argument is the entry that led here. */
    method DirTraverse(inum: nat, parent: nat, ghost x: Edge) returns (r: Option<int>)
      requires Valid() && Ready(img, M(), x, inum) && parent == Parent(x)
      modifies usage, refcnt, visited, this`own, this`walked
      ensures r.None? ==> !img.Good()
      ensures r.Some? ==> Explored(img, old(M()), M(), x) && Unvisited(M()) <= Unvisited(old(M()))
      ensures r.Some? ==> if img.Type(inum) == T_DIR then 0 <= r.value <= 2 && (r.value == 2 <==> img.HasDots(inum))
                          else r.value == -1
      decreases Unvisited(M()), 1
    {
      hide Visits, Uses, Explored, Partial, Image.Good, Image.Target, Image.HasDots, Image.Reenterable, Image.RefsOk;
      hide WalkedFrom;
      ghost var m0 := M();
      var node := img.Type(inum);
      if node < 0 || node > 3 {
        BadType(img, m0, x, inum);
        return None;
      }
      if node == 0 {
        BadType(img, m0, x, inum);
        return None;
      }
      refcnt[inum] := refcnt[inum] + 1;
      if node == T_FILE && visited[inum] {
        walked := walked + {x};
        FileAgain(img, m0, M(), x, inum);
        return Some(-1);
      }
      var ok := CheckRefs(inum, x, m0);
      if !ok {
        return None;
      }
      ghost var m1 := M();
      visited[inum] := true;
      walked := walked + {x};
      assert M() == Enter(m0.(usage := M().usage, own := M().own), x, inum);
      if node == T_DIR {
        if refcnt[inum] > 1 {
          DirAgain(img, m0, x, inum);
          return None;
        }
        DirEntered(img, m0, m1, M(), x, inum);
        r := WalkDir(inum, parent, x, m0);
      } else {
        LeafEntered(img, m0, m1, M(), x, inum);
        r := Some(-1);
      }
    }

    /** Walks the blocks of directory inum, which was entered over x when the marks were m0. */
    method WalkDir(inum: nat, parent: nat, ghost x: Edge, ghost m0: Marks) returns (r: Option<int>)
      requires Valid() && Partial(img, m0, M(), x, inum, 0, 0) && parent == Parent(x)
      requires inum < img.NInodes() && img.RefsOk(inum)
      modifies usage, refcnt, visited, this`own, this`walked
      ensures r.None? ==> !img.Good()
      ensures r.Some? ==> Unvisited(M()) <= Unvisited(old(M()))
      ensures r.Some? ==> Explored(img, m0, M(), x) && 0 <= r.value <= 2 && (r.value == 2 <==> img.HasDots(inum))
      decreases Unvisited(M()), 3
    {
      hide Core, Explored, Partial, Flags, Image.Good, Image.HasDots, Image.RefsOk, Image.Ref, Image.Addr;
      ghost var start := M();
      var dotdot, dot := false, false;
      FlagsStart(img, inum);
      var s := 0;
      while s < NDIRECT
        invariant s <= NDIRECT && Partial(img, m0, M(), x, inum, s, 0) && Flags(img, inum, s, 0, dotdot, dot)
        invariant Unvisited(M()) <= Unvisited(start)
      {
        SlotDirect(img, inum, s);
        if img.Addr(inum, s) == 0 {
          SkipSlot(img, m0, M(), x, inum, s, dotdot, dot);
        } else {
          var ok;
          ok, dotdot, dot := WalkBlock(inum, parent, s, img.Addr(inum, s), dotdot, dot, x, m0);
          if !ok {
            return None;
          }
        }
        s := s + 1;
      }
      IndirectBlock(img, inum);
      var ind := img.Addr(inum, NDIRECT);
      var j := 0;
      while j < NINDIRECT
        invariant j <= NINDIRECT && Partial(img, m0, M(), x, inum, NDIRECT + j, 0)
        invariant Flags(img, inum, NDIRECT + j, 0, dotdot, dot)
        invariant Unvisited(M()) <= Unvisited(start)
      {
        var temp := Word(img.disk[ind], j);
        SlotIndirect(img, inum, j);
        if temp == 0 {
          SkipSlot(img, m0, M(), x, inum, NDIRECT + j, dotdot, dot);
        } else {
          var ok;
          ok, dotdot, dot := WalkBlock(inum, parent, NDIRECT + j, temp, dotdot, dot, x, m0);
          if !ok {
            return None;
          }
        }
        j := j + 1;
      }
      WalkEnd(img, m0, M(), x, inum);
      FlagsEnd(img, inum, dotdot, dot);
      r := Some((if dotdot then 1 else 0) + (if dot then 1 else 0));
    }

    /** Walks the 32 entries of block b, file block s of directory inum. */
    method WalkBlock(inum: nat, parent: nat, s: nat, b: nat, dotdot0: bool, dot0: bool, ghost x: Edge, ghost m0: Marks)
      returns (ok: bool, dotdot: bool, dot: bool)
      requires Valid() && s < MAXFILE && Partial(img, m0, M(), x, inum, s, 0) && parent == Parent(x)
      requires Flags(img, inum, s, 0, dotdot0, dot0) && inum < img.NInodes() && img.SlotAddr(inum, s) == b
      requires 0 < b < |img.disk|
      modifies usage, refcnt, visited, this`own, this`walked
      ensures !ok ==> !img.Good()
      ensures ok ==> Partial(img, m0, M(), x, inum, s + 1, 0) && Flags(img, inum, s + 1, 0, dotdot, dot)
                     && Unvisited(M()) <= Unvisited(old(M()))
      decreases Unvisited(M()), 2
    {
      hide Core, Explored, Partial, Flags, Image.Good, Image.HasDots, Image.SlotAddr, Image.Type;
      ghost var start := M();
      dotdot, dot := dotdot0, dot0;
      var e := 0;
      while e < NENTRY
        invariant e <= NENTRY && Partial(img, m0, M(), x, inum, s, e) && Flags(img, inum, s, e, dotdot, dot)
        invariant Unvisited(M()) <= Unvisited(start)
      {
        ghost var y := Edge(inum, s, e);
        EntryAt(img, m0, M(), x, y);
        FlagStep(img, y, dotdot, dot);
        if img.Inum(b, e) == 0 {
          EntrySkip(img, m0, M(), x, y);
        } else if img.NamedDotDot(b, e) {
          dotdot := true;
          if img.Inum(b, e) != parent {
            BadParent(img, m0, M(), x, y);
            return false, dotdot, dot;
          }
          EntrySkip(img, m0, M(), x, y);
        } else if img.NamedDot(b, e) {
          dot := true;
          EntrySkip(img, m0, M(), x, y);
        } else {
          ghost var m := M();
          ChildReady(img, m0, m, x, y);
          var result := DirTraverse(img.Inum(b, e), inum, y);
          if result.None? {
            return false, dotdot, dot;
          }
          if result.value == 0 || result.value == 1 {
            BadChild(img, m, y);
            return false, dotdot, dot;
          }
          ChildStep(img, m0, m, M(), x, y);
        }
        e := e + 1;
      }
      BlockEnd(img, m0, M(), x, inum, s, dotdot, dot);
      ok := true;
    }

    /** Check mode as a whole: true when the program ends without an error message. */
    method Check() returns (ok: bool)
      requires Valid() && AllClear(M())
      modifies usage, refcnt, visited, this`own, this`walked
      ensures ok <==> img.Good()
    {
      hide Core, Explored, AllClear, Image.Good, Image.BlocksOk, Image.TreeOk, Image.LinksOk, Image.MarksOk, Ready;
      ghost var m0 := M();
      if img.Type(1) != T_DIR {
        NoRoot(img);
        return false;
      }
      StartReady(img, m0);
      var r := DirTraverse(1, 1, ROOT_EDGE);
      if r.None? {
        return false;
      }
      ghost var m := M();
      DoneBlocks(img, m0, m);
      DoneTree(img, m0, m);
      var i := 2;
      while i < img.NInodes()
        invariant 2 <= i <= img.NInodes() && M() == m
        invariant forall n: nat | 2 <= n < i :: InodeOk(img, n)
      {
        var t := img.Type(i);
        VisitedReachable(img, m0, m, i);
        RefcntIsIns(img, m0, m, i);
        if t < 0 || t > 3 || (t > 0 && !visited[i]) || (t > 0 && refcnt[i] != img.NLink(i)) {
          BadInode(img, i);
          return false;
        }
        i := i + 1;
      }
      AllInodesOk(img);
      var b := img.DataStart();
      while b < img.Size()
        invariant 4 <= b && M() == m
        invariant forall c: nat | img.DataStart() <= c < b && c < img.Size() :: MarkOk(img, c)
      {
        UsageIsOwned(img, m0, m, b);
        if bitmap[b] && !usage[b] {
          BadMark(img, b);
          return false;
        }
        b := b + 1;
      }
      AllMarksOk(img);
      ok := true;
    }
  }

  ghost predicate InodeOk(img: Image, n: nat)
    requires img.Shape() && n < img.NInodes()
  {
    0 <= img.Type(n) <= 3 && (img.Type(n) != 0 ==> img.Reachable(n) && |img.Ins(n)| == img.NLink(n))
  }

  ghost predicate MarkOk(img: Image, b: nat)
    requires img.Shape() && img.EntriesInTable() && b < img.Size()
  {
    img.Marked(b) ==> img.Owned(b)
  }

  lemma NoRoot(img: Image)
    requires img.Shape() && img.EntriesInTable() && img.Type(1) != T_DIR
    ensures !img.Good()
  {}

  lemma BadInode(img: Image, n: nat)
    requires img.Shape() && img.EntriesInTable() && 2 <= n < img.NInodes() && !InodeOk(img, n)
    ensures !img.Good()
  {
    hide Image.BlocksOk, Image.TreeOk, Image.MarksOk, Image.Type, Image.NLink, Image.Reachable, Image.Ins;
  }

  lemma BadMark(img: Image, b: nat)
    requires img.Shape() && img.EntriesInTable() && img.DataStart() <= b < img.Size() && !MarkOk(img, b)
    ensures !img.Good()
  {
    hide Image.BlocksOk, Image.TreeOk, Image.LinksOk, Image.Marked, Image.Owned;
  }

  lemma AllInodesOk(img: Image)
    requires img.Shape() && forall n: nat | 2 <= n < img.NInodes() :: InodeOk(img, n)
    ensures img.LinksOk()
  {
    hide Image.Type, Image.NLink, Image.Reachable, Image.Ins;
    forall n: nat | 2 <= n < img.NInodes()
      ensures 0 <= img.Type(n) <= 3 && (img.Type(n) != 0 ==> img.Reachable(n) && |img.Ins(n)| == img.NLink(n))
    {
      assert InodeOk(img, n);
    }
  }

  lemma AllMarksOk(img: Image)
    requires img.Shape() && img.EntriesInTable() && img.BlocksOk() && img.TreeOk() && img.LinksOk()
    requires forall c: nat | img.DataStart() <= c < img.Size() :: MarkOk(img, c)
    ensures img.Good()
  {
    hide Image.Marked, Image.Owned, Image.BlocksOk, Image.TreeOk, Image.LinksOk;
    forall b: nat | img.DataStart() <= b < img.Size() && img.Marked(b) ensures img.Owned(b) {
      assert MarkOk(img, b);
    }
  }

  /** The first k addresses of inode n have been checked, starting from the marks m0. */
  ghost predicate RefsUpTo(img: Image, m0: Marks, m: Marks, n: nat, k: nat)
    requires img.Shape() && n < img.NInodes() && k <= NSLOT
  {
    && m == m0.(usage := m.usage, own := m.own) && Lengths(img, m) && Uses(img, m, n, k)
    && (forall j: nat | j < k :: RefOk(img, n, j))
    && (m0.visited[n] ==> m == m0 && forall j: nat | j < k :: img.Ref(n, j) == 0)
  }

  lemma UsesStart(img: Image, m: Marks, m1: Marks, n: nat)
    requires img.Shape() && img.EntriesInTable() && Core(img, m) && n < img.NInodes()
    requires m1 == m.(refcnt := m1.refcnt) && Lengths(img, m1)
    ensures RefsUpTo(img, m1, m1, n, 0)
  {
    hide Visits, Image.Ref;
    forall c: nat, k: nat | c < img.NInodes() && k < NSLOT ensures Counts(m1, n, 0, c, k) == Counts(m, 0, 0, c, k) {}
  }

  lemma RefsNext(img: Image, m0: Marks, s: Marks, m: Marks, n: nat, k: nat)
    requires img.Shape() && n < img.NInodes() && k < NSLOT && RefsUpTo(img, m0, s, n, k) && RefOk(img, n, k)
    requires Lengths(img, m) && Uses(img, m, n, k + 1) && (img.Ref(n, k) != 0 ==> !s.usage[img.Ref(n, k)])
    requires m == if img.Ref(n, k) == 0 then s else s.(usage := m.usage, own := m.own)
    ensures RefsUpTo(img, m0, m, n, k + 1)
  {
    hide Image.Ref, Image.Marked;
    if m0.visited[n] { assert Counts(s, n, k, n, k); }
  }

  lemma DirectAt(img: Image, n: nat, k: nat)
    requires img.Shape() && n < img.NInodes() && k <= NDIRECT
    ensures img.Ref(n, k) == img.Addr(n, k)
  {}

  /** The entries of the indirect block are read where its address, already checked, says. */
  lemma IndirectAt(img: Image, n: nat)
    requires img.Shape() && n < img.NInodes() && RefOk(img, n, NDIRECT)
    ensures img.Addr(n, NDIRECT) < |img.disk|
    ensures forall j: nat | j < NINDIRECT :: img.Ref(n, NDIRECT + 1 + j) == Word(img.disk[img.Addr(n, NDIRECT)], j)
  {}

  lemma AllRefsOk(img: Image, n: nat)
    requires img.Shape() && n < img.NInodes() && forall j: nat | j < NSLOT :: RefOk(img, n, j)
    ensures img.RefsOk(n)
  {
    forall k: nat | k < NSLOT ensures img.Ref(n, k) < MAXADDR && img.Marked(img.Ref(n, k)) {
      assert RefOk(img, n, k);
    }
  }

  ghost predicate RefOk(img: Image, n: nat, j: nat)
    requires img.Shape() && n < img.NInodes() && j < NSLOT
  {
    img.Ref(n, j) < MAXADDR && img.Marked(img.Ref(n, j))
  }

  /** Counting one more slot of inode x, whose block was not in use. */
  lemma UseOne(img: Image, m: Marks, m': Marks, x: nat, k: nat)
    requires img.Shape() && Lengths(img, m) && x < img.NInodes() && k < NSLOT && Uses(img, m, x, k)
    requires img.Ref(x, k) < MAXADDR && (img.Ref(x, k) != 0 ==> !m.usage[img.Ref(x, k)])
    requires m' == if img.Ref(x, k) == 0 then m
                   else m.(usage := m.usage[img.Ref(x, k) := true], own := m.own[img.Ref(x, k) := Ref(x, k)])
    ensures Lengths(img, m') && Uses(img, m', x, k + 1)
  {
    hide Image.Ref;
    assert m'.visited == m.visited;
    forall n: nat, l: nat | n < img.NInodes() && l < NSLOT
      ensures Counts(m', x, k + 1, n, l) <==> Counts(m, x, k, n, l) || (n == x && l == k)
    {}
  }
}
