/** A file system image as a sequence of blocks, and what the image checker accepts. */
module FsImage {
  import opened FsLayout

  const NENTRY: nat := 32      // directory entries in a block
  const MAXADDR: nat := 1024   // blocks the checker knows of

  /** Directory entry e of file block s of directory d. */
  datatype Edge = Edge(d: nat, s: nat, e: nat)

  /** Stands for the call that starts the traversal at the root. */
  const ROOT_EDGE := Edge(0, 0, 0)

  function Signed16(x: nat): int
    requires x < 0x1_0000
  {
    if x < 0x8000 then x else x - 0x1_0000
  }

  datatype Image = Image(disk: seq<Block>) {
    // ----- the super block -----

    function Size(): nat requires |disk| > 1 { Word(disk[1], 0) }

    function NBlocks(): nat requires |disk| > 1 { Word(disk[1], 1) }

    function NInodes(): nat requires |disk| > 1 { Word(disk[1], 2) }

    /** The image holds everything the checker looks at. */
    predicate Shape() {
      && |disk| >= MAXADDR
      && MAXADDR <= Size() && 2 <= NInodes()
      && NInodes() / IPB + 3 + Size() / BPB < |disk|
    }

    // ----- inodes -----

    /** Word w of the 16 words of inode i. */
    function InodeWord(i: nat, w: nat): nat
      requires Shape() && i < NInodes() && w < 16
    {
      Word(disk[i / IPB + 2], 16 * (i % IPB) + w)
    }

    function Type(i: nat): int
      requires Shape() && i < NInodes()
    {
      Signed16(InodeWord(i, 0) % 0x1_0000)
    }

    function NLink(i: nat): int
      requires Shape() && i < NInodes()
    {
      Signed16(InodeWord(i, 1) / 0x1_0000 % 0x1_0000)
    }

    function Addr(i: nat, k: nat): nat
      requires Shape() && i < NInodes() && k <= NDIRECT
    {
      InodeWord(i, 3 + k)
    }

    /** All addresses of an inode. The entries are read from block addrs[12] even when it is 0. */
    function Ref(i: nat, k: nat): nat
      requires Shape() && i < NInodes() && k < NSLOT
    {
      if k <= NDIRECT then Addr(i, k)
      else if Addr(i, NDIRECT) < |disk| then Word(disk[Addr(i, NDIRECT)], k - NDIRECT - 1)
      else 0
    }

    /** The address of file block s. */
    function SlotAddr(i: nat, s: nat): nat
      requires Shape() && i < NInodes() && s < MAXFILE
    {
      Ref(i, BnSlot(s))
    }

    /** The bitmap marks block b in use. */
    predicate Marked(b: nat)
      requires Shape() && b < Size()
    {
      Bit(disk[NInodes() / IPB + 3 + b / BPB][b % BPB / 8], b % 8)
    }

    // ----- directory entries -----

    function Inum(b: nat, e: nat): nat
      requires b < |disk| && e < NENTRY
    {
      disk[b][16*e] as int + 256 * (disk[b][16*e+1] as int)
    }

    predicate NamedDotDot(b: nat, e: nat)
      requires b < |disk| && e < NENTRY
    {
      disk[b][16*e+2] == 46 && disk[b][16*e+3] == 46 && disk[b][16*e+4] == 0
    }

    predicate NamedDot(b: nat, e: nat)
      requires b < |disk| && e < NENTRY
    {
      disk[b][16*e+2] == 46 && disk[b][16*e+3] == 0
    }

    /** Entry (s, e) of directory d is in use. */
    predicate InUse(x: Edge)
      requires Shape()
    {
      && x.d < NInodes() && x.s < MAXFILE && x.e < NENTRY && Type(x.d) == T_DIR
      && 0 < SlotAddr(x.d, x.s) < |disk| && Inum(SlotAddr(x.d, x.s), x.e) > 0
    }

    predicate IsDotDot(x: Edge)
      requires Shape()
    {
      InUse(x) && NamedDotDot(SlotAddr(x.d, x.s), x.e)
    }

    predicate IsDot(x: Edge)
      requires Shape()
    {
      InUse(x) && !NamedDotDot(SlotAddr(x.d, x.s), x.e) && NamedDot(SlotAddr(x.d, x.s), x.e)
    }

    /** An entry that leads to a child: in use and neither "." nor "..". */
    predicate IsChild(x: Edge)
      requires Shape()
    {
      InUse(x) && !NamedDotDot(SlotAddr(x.d, x.s), x.e) && !NamedDot(SlotAddr(x.d, x.s), x.e)
    }

    /** The inode that entry x leads to. */
    function Target(x: Edge): nat
      requires Shape()
    {
      if x == ROOT_EDGE then 1 else if InUse(x) then Inum(SlotAddr(x.d, x.s), x.e) else 0
    }

    // ----- what a correct image is -----

    /** Inode n can be reached from the root by the path p of directory entries. */
    ghost predicate ReachedBy(p: seq<Edge>, n: nat)
      requires Shape()
    {
      if p == [] then n == 1
      else
        var x := p[|p| - 1];
        IsChild(x) && Target(x) == n && ReachedBy(p[..|p| - 1], x.d)
    }

    ghost predicate Reachable(n: nat)
      requires Shape()
    {
      exists p :: ReachedBy(p, n)
    }

    /** An entry that a walk from the root comes to. */
    ghost predicate Walked(x: Edge)
      requires Shape()
    {
      x == ROOT_EDGE || (IsChild(x) && Reachable(x.d))
    }

    /** The entries that the walk goes over lead to inodes of the table: the checker indexes its
        arrays with them. */
    ghost predicate EntriesInTable()
      requires Shape()
    {
      forall x: Edge | Walked(x) :: Target(x) < NInodes()
    }

    /** All addresses of the inode are in range and marked. */
    ghost predicate RefsOk(n: nat)
      requires Shape() && n < NInodes()
    {
      forall k: nat | k < NSLOT :: Ref(n, k) < MAXADDR && Marked(Ref(n, k))
    }

    /** ".." always names p. */
    ghost predicate DotDotsName(n: nat, p: nat)
      requires Shape()
    {
      forall x: Edge | x.d == n && IsDotDot(x) :: Target(x) == p
    }

    ghost predicate HasDots(n: nat)
      requires Shape()
    {
      (exists x: Edge :: x.d == n && IsDot(x)) && (exists x: Edge :: x.d == n && IsDotDot(x))
    }

    /** The entries of the walk that lead to inode n. */
    ghost function Ins(n: nat): set<Edge>
      requires Shape()
    {
      set d: nat, s: nat, e: nat |
        d < NInodes() && s < MAXFILE && e < NENTRY && Walked(Edge(d, s, e)) && Target(Edge(d, s, e)) == n ::
            Edge(d, s, e)
    }

    /** An inode that may be entered more than once: a file, or a device without blocks. */
    ghost predicate Reenterable(n: nat)
      requires Shape() && n < NInodes()
    {
      Type(n) == T_FILE || (Type(n) == T_DEV && forall k: nat | k < NSLOT :: Ref(n, k) == 0)
    }

    /** Directory n was entered over x: its ".." entries name where x comes from, and it has both
        dot entries, unless it is the root. */
    ghost predicate DirOk(x: Edge)
      requires Shape()
    {
      DotDotsName(Target(x), Parent(x)) && (x != ROOT_EDGE ==> HasDots(Target(x)))
    }

    function DataStart(): nat
      requires Shape()
    {
      NInodes() / IPB + NBlocks() / BPB + 4
    }

    ghost predicate Owned(b: nat)
      requires Shape() && EntriesInTable()
    {
      exists n: nat, k: nat :: n < NInodes() && Reachable(n) && k < NSLOT && Ref(n, k) == b
    }

    /** Every inode that can be reached is of a known type, and its addresses are in range,
        marked in the bitmap, and used nowhere else. */
    ghost predicate BlocksOk()
      requires Shape()
    {
      && (forall n: nat | n < NInodes() && Reachable(n) :: 1 <= Type(n) <= 3 && RefsOk(n))
      && (forall m: nat, n: nat, k: nat, l: nat |
            m < NInodes() && n < NInodes() && Reachable(m) && Reachable(n) && k < NSLOT && l < NSLOT
            && Ref(m, k) == Ref(n, l) != 0 :: m == n && k == l)
    }

    /** The directories that can be reached form a tree below the root, and ".." names the
        parent. */
    ghost predicate TreeOk()
      requires Shape() && EntriesInTable()
    {
      && Type(1) == T_DIR
      && (forall x: Edge, y: Edge | Walked(x) && Walked(y) && x != y && Target(x) == Target(y) ::
         Reenterable(Target(x)))
      && (forall x: Edge | Walked(x) && Type(Target(x)) == T_DIR :: DirOk(x))
    }

    /** Every inode in use is reached, as often as its link count says. */
    ghost predicate LinksOk()
      requires Shape()
    {
      forall n: nat | 2 <= n < NInodes() ::
        0 <= Type(n) <= 3 && (Type(n) != 0 ==> Reachable(n) && |Ins(n)| == NLink(n))
    }

    /** Every data block that is marked belongs to an inode. */
    ghost predicate MarksOk()
      requires Shape() && EntriesInTable()
    {
      forall b: nat | DataStart() <= b < Size() && Marked(b) :: Owned(b)
    }

    ghost predicate Good()
      requires Shape() && EntriesInTable()
    {
      BlocksOk() && TreeOk() && LinksOk() && MarksOk()
    }
  }

  /** The directory a walk over entry x comes from; the root counts as its own parent. */
  function Parent(x: Edge): nat { if x == ROOT_EDGE then 1 else x.d }
}