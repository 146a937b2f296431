/** The contents of the device and of the inodes as one value, what the bytes of an inode
    are, and the ownership invariant that ties bitmap, inodes and indirect blocks together. */
module FsStore {
  import opened FsLayout

  /** The super block: image size in blocks and number of inodes. Blocks 0 and 1, the inode
      blocks and the bitmap blocks come first; the rest are data blocks. */
  datatype Geometry = Geometry(size: nat, ninodes: nat) {
    function MetaEnd(): nat { ninodes / IPB + 3 + size / BPB + 1 }

    predicate Valid() { MetaEnd() <= size < UINT }

    predicate IsData(b: nat) { MetaEnd() <= b < size }

    /** The block holding the bitmap bit of block b. */
    function BitBlock(b: nat): nat { b / BPB + ninodes / IPB + 3 }

    /** The bitmap bits that the allocator scans: whole bitmap blocks, also past size. */
    function ScanEnd(): nat { (size + BPB - 1) / BPB * BPB }
  }

  type Addrs = a: seq<nat> | |a| == 13 && forall k | 0 <= k < 13 :: a[k] < UINT witness seq(13, _ => 0)

  datatype Inode = Inode(typ: int, size: nat, addrs: Addrs)

  /** Slot k of inode i: direct address k below 12, the indirect block at 12, and entry
      k - 13 of the indirect block above. */
  datatype Ref = Ref(i: nat, k: nat)

  predicate Dead(x: nat, hi: nat, i: nat, k: nat) { i == x && NDIRECT < k < hi }

  /** What a super block says: the size in its first word, the number of inodes in its third. */
  predicate Super(b: Block, g: Geometry) { Word(b, 0) == g.size && Word(b, 2) == g.ninodes }

  datatype Store = Store(g: Geometry, disk: seq<Block>, ino: seq<Inode>) {
    predicate Wf() { g.Valid() && |disk| == g.size }

    /** The bitmap marks block b in use. */
    predicate Marked(b: nat)
      requires Wf() && b < g.ScanEnd()
    {
      Bit(disk[g.BitBlock(b)][b % BPB / 8], b % 8)
    }

    function Slot(i: nat, k: nat): nat
      requires i < |ino| && k < NSLOT
    {
      var a := ino[i].addrs;
      if k <= NDIRECT then a[k]
      else if 0 < a[NDIRECT] < |disk| then Word(disk[a[NDIRECT]], k - NDIRECT - 1)
      else 0
    }

    /** Byte p of inode i; a block that is not allocated reads as zero. */
    function ByteAt(i: nat, p: nat): byte
      requires i < |ino| && p < MAXBYTES
    {
      var a := Slot(i, BnSlot(p / BSIZE));
      if 0 < a < |disk| then disk[a][p % BSIZE] else 0
    }

    /** What the file system promises about blocks: block 1 is the super block, the bitmap marks all metadata blocks and
        exactly the data blocks of `own`, an unmarked block is all zero, and `own` is a
        one-to-one matching between blocks in use and slots that are not zero.
        While truncation frees the entries of an indirect block it does not clear them: the
        entries of inode x before slot hi are dead and count as cleared. */
    ghost predicate Owned(own: map<nat, Ref>, x: nat, hi: nat)
      requires Wf()
    {
      && Super(disk[1], g)
      && (forall b: nat | b < g.MetaEnd() :: Marked(b))
      && (forall b: nat | g.IsData(b) :: Marked(b) <==> b in own)
      && (forall b: nat | g.IsData(b) && !Marked(b) :: disk[b] == Zeros())
      && (forall b | b in own :: g.IsData(b) && own[b].i < |ino| && own[b].k < NSLOT
                                 && !Dead(x, hi, own[b].i, own[b].k) && Slot(own[b].i, own[b].k) == b)
      && (forall i: nat, k: nat | i < |ino| && k < NSLOT && Slot(i, k) != 0 && !Dead(x, hi, i, k) ::
            Slot(i, k) in own && own[Slot(i, k)] == Ref(i, k))
    }

    /** The invariant between file system calls. */
    ghost predicate Inv(own: map<nat, Ref>) { Wf() && Owned(own, 0, 0) }

    /** Free blocks that lie inside the image. */
    ghost function Free(): set<nat>
      requires Wf()
    {
      set b | g.MetaEnd() <= b < g.size && !Marked(b)
    }
  }

  /** The bytes of inode i past its size are zero: files grow by writing, and free blocks are
      zero. */
  ghost predicate Tidy(s: Store, i: nat)
    requires i < |s.ino|
  {
    s.ino[i].size <= MAXBYTES && forall p: nat | s.ino[i].size <= p < MAXBYTES :: s.ByteAt(i, p) == 0
  }

  // ----- how two stores compare -----

  /** Of the same geometry, with the same super block and as many inodes. */
  ghost predicate SameShape(s: Store, t: Store) {
    s.Wf() && t.Wf() && s.g == t.g && s.disk[1] == t.disk[1] && |s.ino| == |t.ino|
  }

  /** Slot (i, k) becomes v and no other slot changes. */
  ghost predicate SlotBecomes(s: Store, t: Store, i: nat, k: nat, v: nat)
    requires SameShape(s, t) && i < |s.ino| && k < NSLOT
  {
    forall j: nat, l: nat | j < |s.ino| && l < NSLOT ::
      t.Slot(j, l) == if j == i && l == k then v else s.Slot(j, l)
  }

  /** The mark of block b becomes v and no other mark changes. */
  ghost predicate MarkBecomes(s: Store, t: Store, b: nat, v: bool)
    requires SameShape(s, t)
  {
    forall c: nat | c < s.g.ScanEnd() :: t.Marked(c) == if c == b then v else s.Marked(c)
  }

  /** No data block but b changes. */
  ghost predicate OnlyBlock(s: Store, t: Store, b: nat)
    requires SameShape(s, t)
  {
    forall c: nat | s.g.IsData(c) && c != b :: t.disk[c] == s.disk[c]
  }

  /** Every byte of every inode is what it was. */
  ghost predicate SameBytes(s: Store, t: Store)
    requires SameShape(s, t)
  {
    forall j: nat, p: nat | j < |s.ino| && p < MAXBYTES :: t.ByteAt(j, p) == s.ByteAt(j, p)
  }

  // ----- marks -----

  function WithMark(s: Store, b: nat, v: bool): (t: Store)
    requires s.Wf() && b < s.g.ScanEnd()
    ensures SameShape(s, t) && t.ino == s.ino
  {
    var q := s.g.BitBlock(b);
    var d := s.disk[q];
    ByteBits(d[b % BPB / 8], b % 8);
    var e := if v then SetBit(d[b % BPB / 8], b % 8) else ClearBit(d[b % BPB / 8], b % 8);
    s.(disk := s.disk[q := d[b % BPB / 8 := e]])
  }

  /** Writing the bitmap bit of one block changes that mark and no other. */
  lemma WithMarkAt(s: Store, b: nat, v: bool, c: nat)
    requires s.Wf() && b < s.g.ScanEnd() && c < s.g.ScanEnd()
    ensures WithMark(s, b, v).Marked(c) == if c == b then v else s.Marked(c)
  {
    hide Bit, SetBit, ClearBit;
    if s.g.BitBlock(c) == s.g.BitBlock(b) && c % BPB / 8 == b % BPB / 8 {
      SameBit(c, b);
      var d := s.disk[s.g.BitBlock(b)][b % BPB / 8];
      BitOfSetBit(d, b % 8, c % 8);
      BitOfClearBit(d, b % 8, c % 8);
    }
  }

  lemma SameBit(c: nat, b: nat)
    requires c / BPB == b / BPB && c % BPB / 8 == b % BPB / 8
    ensures c == b <==> c % 8 == b % 8
  {
    var h := 512 * (b / BPB) + b % BPB / 8;
    assert c == 8 * h + c % BPB % 8 && b == 8 * h + b % BPB % 8;
  }

  lemma WithMarkMarks(s: Store, b: nat, v: bool)
    requires s.Wf() && b < s.g.ScanEnd()
    ensures MarkBecomes(s, WithMark(s, b, v), b, v)
    ensures forall c: nat | c < s.g.size && c != s.g.BitBlock(b) :: WithMark(s, b, v).disk[c] == s.disk[c]
    ensures s.g.BitBlock(b) < s.g.MetaEnd()
  {
    forall c: nat | c < s.g.ScanEnd() ensures WithMark(s, b, v).Marked(c) == if c == b then v else s.Marked(c) {
      WithMarkAt(s, b, v, c);
    }
  }
}
