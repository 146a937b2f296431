/** The block and inode layer of the kernel: allocation of blocks, the block map of an inode,
    truncation, and reading and writing the bytes of an inode. */
module FileSystem {
  import opened Wrappers
  import opened FsLayout
  import opened FsStore
  import opened FsOwner

  // ----- what the operations promise, on stores -----

  /** An inode as a byte sequence. */
  function Contents(s: Store, i: nat): seq<byte>
    requires i < |s.ino| && s.ino[i].size <= MAXBYTES
  {
    seq(s.ino[i].size, p requires 0 <= p < s.ino[i].size => s.ByteAt(i, p))
  }

  /** No block is addressed less, moved, or read differently; only inode i may have gained
      addresses. */
  ghost predicate Extends(s: Store, t: Store, i: nat)
    requires i < |s.ino|
  {
    && SameShape(s, t) && SameBytes(s, t)
    && (forall j: nat | j < |s.ino| && j != i :: t.ino[j] == s.ino[j])
    && t.ino[i].size == s.ino[i].size && t.ino[i].typ == s.ino[i].typ
    && (forall j: nat, l: nat | j < |s.ino| && l < NSLOT && s.Slot(j, l) != 0 :: t.Slot(j, l) == s.Slot(j, l))
  }

  /** The blocks that mapping file block bn of inode i has to allocate. */
  function Missing(s: Store, i: nat, bn: nat): nat
    requires i < |s.ino| && bn < MAXFILE
  {
    (if s.Slot(i, BnSlot(bn)) == 0 then 1 else 0) +
    (if bn >= NDIRECT && s.ino[i].addrs[NDIRECT] == 0 then 1 else 0)
  }

  /** Free, seen as a bound on the allocator: b is the first clear bit of the bitmap. */
  ghost predicate FirstClear(s: Store, b: nat)
    requires s.Wf()
  {
    b < s.g.ScanEnd() && !s.Marked(b) && forall c: nat | c < b :: s.Marked(c)
  }

  lemma FreeAfterMark(s: Store, t: Store, b: nat)
    requires SameShape(s, t) && MarkBecomes(s, t, b, true) && s.g.IsData(b) && !s.Marked(b)
    ensures t.Free() == s.Free() - {b} && |t.Free()| == |s.Free()| - 1
  {
    assert t.Free() == s.Free() - {b};
  }

  /** The allocator does not compare its result with the image size. Its first clear bit is a
      block of the image exactly when some block of the image is free. */
  lemma FirstClearInImage(s: Store, own: map<nat, Ref>, b: nat)
    requires s.Inv(own) && FirstClear(s, b)
    ensures b < s.g.size <==> s.Free() != {}
    ensures b < s.g.size ==> s.g.IsData(b)
  {
    if b < s.g.size {
      assert b in s.Free();
    }
  }

  /** An image without free blocks: its only data block belongs to the root directory, the first
      clear bit is behind its end, and the next block of the root would have to be allocated. */
  lemma AllocatorLeavesImage() returns (s: Store, own: map<nat, Ref>, b: nat)
    ensures s.Inv(own) && FirstClear(s, b) && b == s.g.size
    ensures 1 < |s.ino| && s.ino[1].typ == T_DIR && s.ino[1].size == BSIZE && Missing(s, 1, 1) == 1
  {
    var root := PutWord(PutWord(Zeros(), 0, 1 + 0x2E_0000), 4, 1 + 0x2E2E_0000);  // "." and ".."
    var addrs := seq(13, k => if k == 0 then 5 else 0);
    s := Store(Geometry(6, 8), [Zeros(), SmallSuper(), Zeros(), Zeros(), Zeros()[0 := 63], root],
               [Inode(0, 0, seq(13, _ => 0)), Inode(T_DIR, BSIZE, addrs)]);
    own, b := map[5 := Ref(1, 0)], 6;
    hide Word, PutWord, Bit;
    SmallMarks(s);
    hide Store.Marked;
    forall i: nat, k: nat | i < 2 && k < NSLOT ensures s.Slot(i, k) == if i == 1 && k == 0 then 5 else 0 {}
  }

  /** The super block of an image of 6 blocks with 8 inodes. */
  function SmallSuper(): (b: Block)
    ensures Super(b, Geometry(6, 8))
  {
    WordOfPutWord(Zeros(), 0, 6, 0);
    WordOfPutWord(PutWord(Zeros(), 0, 6), 2, 8, 0);
    WordOfPutWord(PutWord(Zeros(), 0, 6), 2, 8, 2);
    PutWord(PutWord(Zeros(), 0, 6), 2, 8)
  }

  lemma SmallMarks(s: Store)
    requires s.g == Geometry(6, 8) && s.Wf() && s.disk[4] == Zeros()[0 := 63]
    ensures forall c: nat | c <= 6 :: s.Marked(c) <==> c < 6
  {
    assert Bit(63, 0) && Bit(63, 1) && Bit(63, 2) && Bit(63, 3) && Bit(63, 4) && Bit(63, 5) && !Bit(63, 6);
    forall c: nat | c <= 6 ensures s.Marked(c) <==> c < 6 {
      assert c == 0 || c == 1 || c == 2 || c == 3 || c == 4 || c == 5 || c == 6;
    }
  }

  lemma FirstFree(s: Store, own: map<nat, Ref>, r: Option<nat>)
    requires s.Inv(own) && s.Free() != {}
    requires r.Some? ==> FirstClear(s, r.value)
    requires r.None? ==> forall b: nat | b < s.g.ScanEnd() :: s.Marked(b)
    ensures r.Some? && s.g.IsData(r.value) && !s.Marked(r.value)
  {
    var c :| c in s.Free();
    assert !s.Marked(c);
  }

  /** Blocks to allocate when file blocks lo..hi-1 of inode i are mapped one after another. */
  function Need(s: Store, i: nat, lo: nat, hi: nat): nat
    requires i < |s.ino| && hi <= MAXFILE
  {
    Holes(s, i, lo, hi) + (if lo < hi && NDIRECT < hi && s.ino[i].addrs[NDIRECT] == 0 then 1 else 0)
  }

  function Holes(s: Store, i: nat, lo: nat, hi: nat): nat
    requires i < |s.ino| && hi <= MAXFILE
    decreases hi - lo
  {
    if lo >= hi then 0 else (if s.Slot(i, BnSlot(lo)) == 0 then 1 else 0) + Holes(s, i, lo + 1, hi)
  }

  lemma {:induction false} HolesSame(s: Store, t: Store, i: nat, lo: nat, hi: nat)
    requires i < |s.ino| && i < |t.ino| && hi <= MAXFILE
    requires forall bn: nat | lo <= bn < hi :: t.Slot(i, BnSlot(bn)) == s.Slot(i, BnSlot(bn))
    ensures Holes(t, i, lo, hi) == Holes(s, i, lo, hi)
    decreases hi - lo
  {
    if lo < hi {
      assert t.Slot(i, BnSlot(lo)) == s.Slot(i, BnSlot(lo));
      HolesSame(s, t, i, lo + 1, hi);
    }
  }

  /** Mapping block bn uses up the part of the need that belongs to bn. */
  lemma NeedStep(s: Store, t: Store, i: nat, bn: nat, hi: nat)
    requires i < |s.ino| && i < |t.ino| && bn < hi <= MAXFILE
    requires forall l: nat | l < NSLOT && l != BnSlot(bn) && (l == NDIRECT ==> bn < NDIRECT) ::
        t.Slot(i, l) == s.Slot(i, l)
    requires bn >= NDIRECT ==> t.ino[i].addrs[NDIRECT] != 0
    ensures Need(t, i, bn + 1, hi) + Missing(s, i, bn) == Need(s, i, bn, hi)
  {
    HolesSame(s, t, i, bn + 1, hi);
    assert bn >= NDIRECT || t.Slot(i, NDIRECT) == s.Slot(i, NDIRECT);
  }

  lemma MissingInNeed(s: Store, i: nat, bn: nat, hi: nat)
    requires i < |s.ino| && bn < hi <= MAXFILE
    ensures Missing(s, i, bn) <= Need(s, i, bn, hi)
  {}

  /** The free blocks that a transfer over file blocks lo..hi-1 leaves over. */
  ghost function Slack(s: Store, i: nat, lo: nat, hi: nat): int
    requires s.Wf() && i < |s.ino| && hi <= MAXFILE
  {
    |s.Free()| - Need(s, i, lo, hi)
  }

  lemma NeedSame(s: Store, t: Store, i: nat, lo: nat, hi: nat)
    requires i < |s.ino| && i < |t.ino| && hi <= MAXFILE
    requires forall l: nat | l < NSLOT :: t.Slot(i, l) == s.Slot(i, l)
    ensures Need(t, i, lo, hi) == Need(s, i, lo, hi)
  {
    HolesSame(s, t, i, lo, hi);
    assert t.Slot(i, NDIRECT) == s.Slot(i, NDIRECT);
  }

  lemma SlotIsData(s: Store, own: map<nat, Ref>, i: nat, k: nat)
    requires s.Inv(own) && i < |s.ino| && k < NSLOT && s.Slot(i, k) != 0
    ensures s.g.IsData(s.Slot(i, k))
  {
    assert s.Slot(i, k) in own;
  }

  /** The number of blocks that end bytes fill. */
  function BlocksTo(end: nat): nat { (end + BSIZE - 1) / BSIZE }

  /** The free blocks left over by a transfer of the bytes from at to end. */
  ghost function SlackAt(s: Store, i: nat, at: nat, end: nat): int
    requires s.Wf() && i < |s.ino| && at <= end <= MAXBYTES
  {
    |s.Free()| - NeedFor(s, i, at, end)
  }

  /** Blocks to allocate for a transfer of the bytes from at to end. */
  function NeedFor(s: Store, i: nat, at: nat, end: nat): nat
    requires i < |s.ino| && at <= end <= MAXBYTES
  {
    if at == end then 0 else NextBlock(at, end); Need(s, i, at / BSIZE, BlocksTo(end))
  }

  /** How much of a transfer of n bytes at off <= size lies below size. */
  function Clamp(off: nat, n: nat, size: nat): nat
    requires off <= size
  {
    if off + n > size then size - off else n
  }

  function Chunk(at: nat, end: nat): nat
    requires at < end
  {
    if end - at < BSIZE - at % BSIZE then end - at else BSIZE - at % BSIZE
  }

  /** A transfer up to end goes on at the start of the next block. */
  lemma NextBlock(at: nat, end: nat)
    requires at < end <= MAXBYTES
    ensures at / BSIZE < BlocksTo(end) <= MAXFILE
    ensures 0 < Chunk(at, end) && at % BSIZE + Chunk(at, end) <= BSIZE
    ensures at + Chunk(at, end) < end ==> (at + Chunk(at, end)) / BSIZE == at / BSIZE + 1
  {}

  lemma ChunkSlack(s: Store, i: nat, at: nat, end: nat)
    requires s.Wf() && i < |s.ino| && at < end <= MAXBYTES
    ensures BlocksTo(end) <= MAXFILE && at + Chunk(at, end) <= end
    ensures SlackAt(s, i, at + Chunk(at, end), end) == Slack(s, i, at / BSIZE + 1, BlocksTo(end))
  {
    NextBlock(at, end);
    var k := Chunk(at, end);
    if at + k == end { assert BlocksTo(end) == at / BSIZE + 1; }
  }

  /** The bytes of inode i from at on, within one block, are bytes of that block. */
  lemma BlockBytes(s: Store, i: nat, at: nat, k: nat)
    requires i < |s.ino| && at % BSIZE + k <= BSIZE && at + k <= MAXBYTES
    requires at < MAXBYTES && 0 < s.Slot(i, BnSlot(at / BSIZE)) < |s.disk|
    ensures forall p: nat | at <= p < at + k ::
              p / BSIZE == at / BSIZE && p % BSIZE == at % BSIZE + (p - at)
              && s.ByteAt(i, p) == s.disk[s.Slot(i, BnSlot(at / BSIZE))][at % BSIZE + (p - at)]
  {}

  /** The bytes of inode i from off on are src; every other byte of every inode is as before,
      and so are all sizes. */
  ghost predicate Overwritten(s: Store, t: Store, i: nat, off: nat, src: seq<byte>)
    requires i < |s.ino|
  {
    && SameShape(s, t)
    && (forall j: nat, p: nat | j < |s.ino| && p < MAXBYTES ::
          t.ByteAt(j, p) == if j == i && off <= p < off + |src| then src[p - off] else s.ByteAt(j, p))
    && (forall j: nat | j < |s.ino| && j != i :: t.ino[j] == s.ino[j])
    && t.ino[i].typ == s.ino[i].typ && t.ino[i].size == s.ino[i].size
  }

  lemma OverwriteMore(s: Store, t: Store, u: Store, i: nat, off: nat, d: seq<byte>, e: seq<byte>)
    requires i < |s.ino| && Overwritten(s, t, i, off, d) && Overwritten(t, u, i, off + |d|, e)
    ensures Overwritten(s, u, i, off, d + e)
  {
    hide Store.ByteAt;
    forall j: nat, p: nat | j < |s.ino| && p < MAXBYTES
      ensures u.ByteAt(j, p) == if j == i && off <= p < off + |d + e| then (d + e)[p - off] else s.ByteAt(j, p)
    {
      assert t.ByteAt(j, p) == if j == i && off <= p < off + |d| then d[p - off] else s.ByteAt(j, p);
    }
  }

  /** Replacing part of one data block overwrites that part of the inode. */
  lemma PatchBlock(s: Store, own: map<nat, Ref>, i: nat, at: nat, d: seq<byte>)
    requires s.Inv(own) && i < |s.ino| && at % BSIZE + |d| <= BSIZE && at < MAXBYTES
    requires s.Slot(i, BnSlot(at / BSIZE)) != 0
    ensures var a := s.Slot(i, BnSlot(at / BSIZE));
            s.g.IsData(a)
            && var t := WithBlock(s, a, Patch(s.disk[a], at % BSIZE, d));
            t.Inv(own) && Overwritten(s, t, i, at, d) && t.Free() == s.Free()
            && forall j: nat, l: nat | j < |s.ino| && l < NSLOT :: t.Slot(j, l) == s.Slot(j, l)
  {
    hide Store.Owned, Store.Slot, Store.ByteAt, Store.Marked;
    var a := s.Slot(i, BnSlot(at / BSIZE));
    SlotIsData(s, own, i, BnSlot(at / BSIZE));
    var b := Patch(s.disk[a], at % BSIZE, d);
    var t := WithBlock(s, a, b);
    DataWriteSlots(s, own, i, BnSlot(at / BSIZE), b);
    DataWrite(s, own, i, at / BSIZE, b);
    DataKeepsMarks(s, a, b);
    assert t.Free() == s.Free();
    forall p: nat | p < MAXBYTES && p / BSIZE == at / BSIZE
      ensures b[p % BSIZE] == if at <= p < at + |d| then d[p - at] else s.ByteAt(i, p)
    {
      BlockByte(s, i, p);
    }
    forall p: nat | at <= p < at + |d| ensures p / BSIZE == at / BSIZE {}
  }

  function Patch(b: Block, o: nat, d: seq<byte>): Block
    requires o + |d| <= BSIZE
  {
    b[..o] + d + b[o + |d|..]
  }

  lemma BlockByte(s: Store, i: nat, p: nat)
    requires i < |s.ino| && p < MAXBYTES && 0 < s.Slot(i, BnSlot(p / BSIZE)) < |s.disk|
    ensures s.ByteAt(i, p) == s.disk[s.Slot(i, BnSlot(p / BSIZE))][p % BSIZE]
  {}

  function WithSize(s: Store, i: nat, size: nat): Store
    requires i < |s.ino|
  {
    s.(ino := s.ino[i := s.ino[i].(size := size)])
  }

  lemma SizeChange(s: Store, own: map<nat, Ref>, i: nat, size: nat)
    requires s.Inv(own) && i < |s.ino|
    ensures var t := WithSize(s, i, size);
            t.Inv(own) && SameBytes(s, t) && t.Free() == s.Free()
  {
    var t := WithSize(s, i, size);
    assert forall j: nat, l: nat | j < |s.ino| && l < NSLOT :: t.Slot(j, l) == s.Slot(j, l);
    assert forall b: nat | b < s.g.ScanEnd() :: t.Marked(b) == s.Marked(b);
  }

  /** Inode i is as writing src at off leaves it; every other inode is untouched. */
  ghost predicate Written(s: Store, t: Store, i: nat, off: nat, src: seq<byte>)
    requires i < |s.ino|
  {
    && SameShape(s, t)
    && (forall j: nat, p: nat | j < |s.ino| && p < MAXBYTES ::
          t.ByteAt(j, p) == if j == i && off <= p < off + |src| then src[p - off] else s.ByteAt(j, p))
    && (forall j: nat | j < |s.ino| && j != i :: t.ino[j] == s.ino[j])
    && t.ino[i].typ == s.ino[i].typ
    && t.ino[i].size == if |src| > 0 && off + |src| > s.ino[i].size then off + |src| else s.ino[i].size
  }

  lemma OwnedSuper(s: Store, own: map<nat, Ref>, x: nat, hi: nat)
    requires s.Wf() && s.Owned(own, x, hi)
    ensures Super(s.disk[1], s.g)
  {}

  lemma IsOwned(s: Store, own: map<nat, Ref>, x: nat, hi: nat, i: nat, k: nat)
    requires s.Wf() && s.Owned(own, x, hi) && i < |s.ino| && k < NSLOT
    requires s.Slot(i, k) != 0 && !Dead(x, hi, i, k)
    ensures s.Slot(i, k) in own && own[s.Slot(i, k)] == Ref(i, k)
  {}

  /** An entry that is zero may count as dead. */
  lemma DeadZero(s: Store, own: map<nat, Ref>, i: nat, k: nat)
    requires s.Wf() && i < |s.ino| && NDIRECT < k < NSLOT && s.Owned(own, i, k) && s.Slot(i, k) == 0
    ensures s.Owned(own, i, k + 1)
  {}

  lemma NoneDead(s: Store, own: map<nat, Ref>, i: nat)
    requires s.Inv(own)
    ensures s.Owned(own, i, NDIRECT + 1)
  {}

  lemma EntryIs(s: Store, i: nat, e: nat)
    requires i < |s.ino| && e < NINDIRECT && 0 < s.ino[i].addrs[NDIRECT] < |s.disk|
    ensures Word(s.disk[s.ino[i].addrs[NDIRECT]], e) == s.Slot(i, e + NDIRECT + 1)
  {}

  lemma ZeroSlots(s: Store, i: nat)
    requires i < |s.ino| && s.ino[i].addrs == seq(13, _ => 0)
    ensures forall l: nat | l < NSLOT :: s.Slot(i, l) == 0
  {}

  lemma ScanRoom(g: Geometry, b: nat)
    requires g.Valid() && b % BPB == 0 && b < g.size
    ensures b + BPB <= g.ScanEnd() && (b + BPB) % BPB == 0
    ensures b / BPB + g.ninodes / IPB + 3 == g.BitBlock(b) < g.size
  {}

  lemma ScanOver(g: Geometry, b: nat)
    requires b % BPB == 0 && g.size <= b
    ensures g.ScanEnd() <= b
  {}

  lemma SuperThere(s: Store)
    requires s.Wf()
    ensures |s.disk| > 1
  {}

  /** Where the bit of a data block is. */
  lemma DataBit(g: Geometry, b: nat)
    requires g.Valid() && g.IsData(b)
    ensures 1 < g.size && b < g.size && b < g.ScanEnd() && b % BPB % 8 == b % 8
    ensures b / BPB + g.ninodes / IPB + 3 == g.BitBlock(b) < g.size && g.BitBlock(b) != b && b != 1
  {
    SameLow(b);
    DivUp(b, g.size);
    assert g.size / BPB * BPB <= g.size < g.size / BPB * BPB + BPB;
  }

  lemma Quotient(x: nat, k: nat, r: nat)
    requires x == BPB * k + r && r < BPB
    ensures x / BPB == k && x % BPB == r
  {}

  lemma Low(x: nat, k: nat, r: nat)
    requires x == 8 * k + r && r < 8
    ensures x % 8 == r
  {}

  lemma SameLow(b: nat)
    ensures b % BPB % 8 == b % 8
  {
    var k, r := b / BPB, b % BPB;
    Low(b, 512 * k + r / 8, r % 8);
  }

  lemma DivUp(b: nat, c: nat)
    requires b <= c
    ensures b / BPB <= c / BPB
  {}

  lemma BitPosition(g: Geometry, b: nat, bi: nat)
    requires b % BPB == 0 && bi < BPB
    ensures g.BitBlock(b + bi) == g.BitBlock(b) && (b + bi) % BPB == bi && (b + bi) % 8 == bi % 8
  {
    var k := b / BPB;
    Quotient(b + bi, k, bi);
    Low(b + bi, 512 * k + bi / 8, bi % 8);
  }

  lemma OverwriteNothing(s: Store, i: nat, off: nat)
    requires s.Wf() && i < |s.ino|
    ensures Overwritten(s, s, i, off, [])
  {}

  lemma OverwrittenSized(s: Store, t: Store, u: Store, i: nat, off: nat, src: seq<byte>)
    requires i < |s.ino| && Overwritten(s, t, i, off, src) && SameShape(t, u) && SameBytes(t, u)
    requires u == if |src| > 0 && off + |src| > s.ino[i].size then WithSize(t, i, off + |src|) else t
    ensures Written(s, u, i, off, src)
  {
    hide Store.ByteAt;
  }

  /** Bytes collected from off on are that slice of the contents. */
  lemma CollectedSlice(s: Store, i: nat, off: nat, d: seq<byte>)
    requires i < |s.ino| && off + |d| <= s.ino[i].size <= MAXBYTES
    requires forall p: nat | off <= p < off + |d| :: d[p - off] == s.ByteAt(i, p)
    ensures d == Contents(s, i)[off..off + |d|]
  {
    hide Store.ByteAt;
    var c := Contents(s, i)[off..off + |d|];
    forall q: nat | q < |d| ensures d[q] == c[q] {
      assert d[(off + q) - off] == s.ByteAt(i, off + q);
    }
  }

  lemma ExtendsNone(s: Store, i: nat)
    requires s.Wf() && i < |s.ino|
    ensures Extends(s, s, i)
  {}

  lemma ExtendsThen(s: Store, t: Store, u: Store, i: nat)
    requires i < |s.ino| && i < |t.ino| && Extends(s, t, i) && Extends(t, u, i)
    ensures Extends(s, u, i) && u.ino[i].size == s.ino[i].size
  {
    hide Store.ByteAt, Store.Slot;
  }

  /** What is read later is what was there before. */
  lemma ChunkOf(s: Store, t: Store, i: nat, at: nat, d: seq<byte>)
    requires i < |s.ino| && i < |t.ino| && Extends(s, t, i) && at + |d| <= MAXBYTES
    requires forall p: nat | at <= p < at + |d| :: d[p - at] == t.ByteAt(i, p)
    ensures forall p: nat | at <= p < at + |d| :: d[p - at] == s.ByteAt(i, p)
  {
    hide Store.ByteAt, Store.Slot;
  }

  lemma SlackDone(s: Store, i: nat, at: nat)
    requires s.Wf() && i < |s.ino| && at <= MAXBYTES
    ensures SlackAt(s, i, at, at) == |s.Free()|
  {}

  /** When a transfer needs no block, the rest of it needs none. */
  lemma NeedNone(s0: Store, s: Store, i: nat, off: nat, at: nat, end: nat)
    requires i < |s0.ino| && i < |s.ino| && off <= at < end <= MAXBYTES
    ensures NeedFor(s0, i, off, end) == 0 && s == s0 ==> NeedFor(s, i, at, end) == 0
  {
    if NeedFor(s0, i, off, end) == 0 && s == s0 {
      NextBlock(off, end);
      NextBlock(at, end);
      HolesRest(s0, i, off / BSIZE, at / BSIZE, BlocksTo(end));
    }
  }

  lemma {:induction false} HolesRest(s: Store, i: nat, lo: nat, mid: nat, hi: nat)
    requires i < |s.ino| && lo <= mid <= hi <= MAXFILE
    ensures Holes(s, i, mid, hi) <= Holes(s, i, lo, hi)
    decreases mid - lo
  {
    hide Store.Slot;
    if lo < mid { HolesRest(s, i, lo + 1, mid, hi); }
  }

  // ----- the state and its operations -----

  class Fs {
    const g: Geometry
    const disk: array<Block>     // the device, read and written a block at a time
    const inode: array<Inode>    // the in-core inodes by number
    ghost var own: map<nat, Ref>

    constructor (g: Geometry, disk: array<Block>, inode: array<Inode>, ghost own: map<nat, Ref>)
      ensures this.g == g && this.disk == disk && this.inode == inode && this.own == own
    {
      this.g, this.disk, this.inode, this.own := g, disk, inode, own;
    }

    ghost function View(): Store
      reads disk, inode
    {
      Store(g, disk[..], inode[..])
    }

    ghost predicate Valid()
      reads this, disk, inode
    {
      View().Inv(own)
    }

    method PutBlock(b: nat, d: Block)
      requires b < disk.Length
      modifies disk
      ensures View() == WithBlock(old(View()), b, d)
    {
      disk[b] := d;
      assert disk[..] == old(disk[..])[b := d];
    }

    method PutAddr(i: nat, k: nat, v: nat)
      requires i < inode.Length && k <= NDIRECT && v < UINT
      modifies inode
      ensures View() == WithAddr(old(View()), i, k, v)
    {
      inode[i] := inode[i].(addrs := inode[i].addrs[k := v]);
      assert inode[..] == old(inode[..])[i := inode[i]];
    }

    /** Reads the super block. */
    method Readsb() returns (size: nat, ninodes: nat)
      requires disk.Length > 1 && Super(disk[1], g)
      ensures size == g.size && ninodes == g.ninodes
    {
      size, ninodes := Word(disk[1], 0), Word(disk[1], 2);
    }

    /** Marks and returns the first block whose bitmap bit is clear. */
    method Balloc() returns (r: Option<nat>)
      requires View().Wf() && Super(disk[1], g)
      modifies disk
      ensures r.Some? ==> FirstClear(old(View()), r.value) && View() == WithMark(old(View()), r.value, true)
      ensures r.None? ==> View() == old(View()) && forall b: nat | b < g.ScanEnd() :: View().Marked(b)
    {
      hide Super, Bit, WithMark, Store.Marked, FirstClear;
      hide Geometry.Valid, Geometry.MetaEnd, Geometry.ScanEnd, Geometry.BitBlock;
      SuperThere(View());
      var size, ninodes := Readsb();
      var b := 0;
      while b < size
        invariant size == g.size && ninodes == g.ninodes && b % BPB == 0 && b <= g.ScanEnd()
        invariant View() == old(View())
        invariant forall c: nat | c < b :: View().Marked(c)
      {
        ScanRoom(g, b);
        r := ScanBlock(b, b / BPB + ninodes / IPB + 3);
        if r.Some? {
          return;
        }
        b := b + BPB;
      }
      ScanOver(g, b);
      r := None;
    }

    /** One round of the scan: marks the first block whose bit is clear in bitmap block q, which
        has the bits from b on. */
    method ScanBlock(b: nat, q: nat) returns (r: Option<nat>)
      requires View().Wf() && b % BPB == 0 && b < g.size && q == g.BitBlock(b) < g.size && b + BPB <= g.ScanEnd()
      requires forall c: nat | c < b :: View().Marked(c)
      modifies disk
      ensures r.Some? ==> FirstClear(old(View()), r.value) && View() == WithMark(old(View()), r.value, true)
      ensures r.None? ==> View() == old(View()) && forall c: nat | c < b + BPB :: View().Marked(c)
    {
      hide Bit;
      var bi := 0;
      while bi < BPB
        invariant bi <= BPB && View() == old(View())
        invariant forall c: nat | c < b + bi :: View().Marked(c)
      {
        BitPosition(g, b, bi);
        if !Bit(disk[q][bi / 8], bi % 8) {
          ByteBits(disk[q][bi / 8], bi % 8);
          PutBlock(q, disk[q][bi / 8 := SetBit(disk[q][bi / 8], bi % 8)]);
          return Some(b + bi);
        }
        bi := bi + 1;
      }
      r := None;
    }

    /** Clears a block and its mark. */
    method Bfree(b: nat)
      requires View().Wf() && Super(disk[1], g) && g.IsData(b)
      requires View().Marked(b)  // else the kernel panics, "freeing free block"
      modifies disk
      ensures View() == WithMark(WithBlock(old(View()), b, Zeros()), b, false)
    {
      hide Super, Bit, Store.Marked;
      DataBit(g, b);
      DataKeepsMarks(View(), b, Zeros());
      hide Geometry.Valid, Geometry.MetaEnd, Geometry.ScanEnd, Geometry.BitBlock, Geometry.IsData;
      PutBlock(b, Zeros());
      var _, ninodes := Readsb();
      var q := b / BPB + ninodes / IPB + 3;
      var bi := b % BPB;
      ByteBits(disk[q][bi / 8], bi % 8);
      PutBlock(q, disk[q][bi / 8 := ClearBit(disk[q][bi / 8], bi % 8)]);
    }

    /** The block of file block bn of inode i, allocated when there is none. */
    method Bmap(i: nat, bn: nat) returns (addr: nat)
      requires Valid() && i < inode.Length && bn < MAXFILE
      requires Missing(View(), i, bn) <= |View().Free()|
      modifies disk, inode, this`own
      ensures Valid() && Extends(old(View()), View(), i)
      ensures addr == View().Slot(i, BnSlot(bn)) != 0
      ensures |View().Free()| == |old(View()).Free()| - Missing(old(View()), i, bn)
      ensures forall l: nat | l < NSLOT && l != BnSlot(bn) && (l == NDIRECT ==> bn < NDIRECT) ::
                View().Slot(i, l) == old(View()).Slot(i, l)
      ensures bn >= NDIRECT ==> inode[i].addrs[NDIRECT] != 0
      ensures Missing(old(View()), i, bn) == 0 ==> View() == old(View())
    {
      hide Store.Marked, Store.Owned;
      if bn < NDIRECT {
        addr := inode[i].addrs[bn];
        if addr == 0 {
          addr := BallocAddr(i, bn);
        }
        return;
      }
      var e := bn - NDIRECT;
      var ind := inode[i].addrs[NDIRECT];
      if ind == 0 {
        ind := BallocAddr(i, NDIRECT);
      }
      IndirectOwned(View(), own, 0, 0, i);
      var a := disk[ind];
      addr := Word(a, e);
      assert addr == View().Slot(i, BnSlot(bn));
      if addr == 0 {
        addr := BallocEntry(i, e, ind, a);
      }
    }

    /** Allocates a block for entry e of the indirect block ind, whose contents are a, as in
        `a[e] = addr = balloc()`. */
    method BallocEntry(i: nat, e: nat, ind: nat, a: Block) returns (addr: nat)
      requires Valid() && i < inode.Length && e < NINDIRECT
      requires 0 < ind < disk.Length && inode[i].addrs[NDIRECT] == ind && disk[ind] == a && Word(a, e) == 0
      requires View().Free() != {}
      modifies disk, this`own
      ensures Valid() && Extends(old(View()), View(), i)
      ensures addr != 0 && SlotBecomes(old(View()), View(), i, e + NDIRECT + 1, addr)
      ensures |View().Free()| == |old(View()).Free()| - 1
    {
      hide Store.Marked, Store.Owned;
      ghost var s := View();
      ghost var k := e + NDIRECT + 1;
      assert s.Slot(i, k) == 0;
      OwnedSuper(s, own, 0, 0);
      var r := Balloc();
      FirstFree(s, own, r);
      addr := r.value;
      AllocEntry(s, own, i, k, addr);
      PutBlock(ind, PutWord(a, e, addr));
      FreeAfterMark(s, View(), addr);
      own := own[addr := Ref(i, k)];
    }

    /** Allocates a block for slot k <= 12 of inode i, as in `ip->addrs[k] = addr = balloc()`. */
    method BallocAddr(i: nat, k: nat) returns (addr: nat)
      requires Valid() && i < inode.Length && k <= NDIRECT && inode[i].addrs[k] == 0
      requires View().Free() != {}
      modifies disk, inode, this`own
      ensures Valid() && Extends(old(View()), View(), i)
      ensures addr != 0 && SlotBecomes(old(View()), View(), i, k, addr) && inode[i].addrs[k] == addr
      ensures |View().Free()| == |old(View()).Free()| - 1
    {
      hide Store.Marked, Store.Owned;
      ghost var s := View();
      OwnedSuper(s, own, 0, 0);
      var r := Balloc();
      FirstFree(s, own, r);
      addr := r.value;
      AllocAddr(s, own, i, k, addr);
      PutAddr(i, k, addr);
      FreeAfterMark(s, View(), addr);
      own := own[addr := Ref(i, k)];
    }

    /** Maps file block bn, the first of the blocks up to hi that a transfer will map. */
    method BmapNext(i: nat, bn: nat, ghost hi: nat) returns (addr: nat)
      requires Valid() && i < inode.Length && bn < hi <= MAXFILE
      requires Slack(View(), i, bn, hi) >= 0
      modifies disk, inode, this`own
      ensures Valid() && Extends(old(View()), View(), i)
      ensures addr == View().Slot(i, BnSlot(bn)) && g.IsData(addr)
      ensures Slack(View(), i, bn + 1, hi) == Slack(old(View()), i, bn, hi)
      ensures Need(old(View()), i, bn, hi) == 0 ==> View() == old(View())
    {
      hide Store.Owned, Store.Marked, Store.Slot, SameBytes;
      ghost var s := View();
      MissingInNeed(s, i, bn, hi);
      addr := Bmap(i, bn);
      NeedStep(s, View(), i, bn, hi);
      SlotIsData(View(), own, i, BnSlot(bn));
    }

    /** One round of the read loop: the bytes of inode i from at up to end or to the end of the
        block, whichever comes first. */
    method ReadChunk(i: nat, at: nat, end: nat) returns (d: seq<byte>)
      requires Valid() && i < inode.Length && at < end <= MAXBYTES && at / BSIZE < BlocksTo(end) <= MAXFILE
      requires SlackAt(View(), i, at, end) >= 0
      modifies disk, inode, this`own
      ensures Valid() && Extends(old(View()), View(), i)
      ensures |d| == Chunk(at, end) && at + |d| <= end
      ensures forall p: nat | at <= p < at + |d| :: d[p - at] == old(View()).ByteAt(i, p)
      ensures at + |d| < end ==> (at + |d|) / BSIZE < BlocksTo(end)
      ensures SlackAt(View(), i, at + |d|, end) == SlackAt(old(View()), i, at, end)
      ensures NeedFor(old(View()), i, at, end) == 0 ==> View() == old(View())
    {
      hide Store.Owned, Store.Marked, Store.Slot, Store.ByteAt, Need, BnSlot;
      NextBlock(at, end);
      var addr := BmapNext(i, at / BSIZE, BlocksTo(end));
      var bp := disk[addr];
      var k := if end - at < BSIZE - at % BSIZE then end - at else BSIZE - at % BSIZE;
      BlockBytes(View(), i, at, k);
      ChunkSlack(View(), i, at, end);
      d := bp[at % BSIZE..at % BSIZE + k];
    }

    /** Reads up to n bytes at off. The blocks of a hole are allocated, and read as zeros. */
    method Readi(i: nat, off: nat, n: nat) returns (r: int, dst: seq<byte>)
      requires Valid() && i < inode.Length && off < UINT && n < UINT
      requires inode[i].size <= MAXBYTES
      requires off <= inode[i].size ==> SlackAt(View(), i, off, off + Clamp(off, n, inode[i].size)) >= 0
      modifies disk, inode, this`own
      ensures Valid() && Extends(old(View()), View(), i)
      ensures if off > old(inode[i].size) || off + n >= UINT then r == -1 && dst == []
              else r == Clamp(off, n, old(inode[i].size)) && dst == Contents(old(View()), i)[off..off + r]
                   && 0 <= r <= n && off + r <= old(inode[i].size) && (r == n || off + r == old(inode[i].size))
      ensures r < 0 ==> View() == old(View())
      ensures r >= 0 ==> off + r <= MAXBYTES && |View().Free()| == SlackAt(old(View()), i, off, off + r)
                         && (NeedFor(old(View()), i, off, off + r) == 0 ==> View() == old(View()))
    {
      hide Store.Owned, Store.Marked, Store.Slot, Store.ByteAt, Store.Free, Need, NeedFor, BlocksTo, Contents;
      hide SlackAt, Extends;
      dst := [];
      if off > inode[i].size || (off + n) % UINT < off {
        ExtendsNone(View(), i);
        return -1, dst;
      }
      var m := n;
      if off + n > inode[i].size {
        m := inode[i].size - off;
      }
      dst := ReadLoop(i, off, m);
      CollectedSlice(old(View()), i, off, dst);
      r := m;
    }

    /** The read loop: the m bytes of inode i from off on. */
    method ReadLoop(i: nat, off: nat, m: nat) returns (dst: seq<byte>)
      requires Valid() && i < inode.Length && off + m <= MAXBYTES && SlackAt(View(), i, off, off + m) >= 0
      modifies disk, inode, this`own
      ensures Valid() && Extends(old(View()), View(), i) && |dst| == m
      ensures forall p: nat | off <= p < off + m :: dst[p - off] == old(View()).ByteAt(i, p)
      ensures |View().Free()| == SlackAt(old(View()), i, off, off + m)
      ensures NeedFor(old(View()), i, off, off + m) == 0 ==> View() == old(View())
    {
      hide Store.Owned, Store.Marked, Store.Slot, Store.ByteAt, Store.Free, Need, NeedFor, BlocksTo, SlackAt, Extends;
      if m > 0 { NextBlock(off, off + m); }
      ExtendsNone(View(), i);
      ghost var s0 := View();
      dst := [];
      var at, tot := off, 0;
      while tot < m
        invariant tot <= m && at == off + tot && |dst| == tot
        invariant tot < m ==> at / BSIZE < BlocksTo(off + m) <= MAXFILE
        invariant Valid() && Extends(s0, View(), i)
        invariant SlackAt(View(), i, at, off + m) == SlackAt(s0, i, off, off + m)
        invariant NeedFor(s0, i, off, off + m) == 0 ==> View() == s0
        invariant forall p: nat | off <= p < at :: dst[p - off] == s0.ByteAt(i, p)
      {
        ghost var s := View();
        var d := ReadChunk(i, at, off + m);
        ChunkOf(s0, s, i, at, d);
        ExtendsThen(s0, s, View(), i);
        NeedNone(s0, s, i, off, at, off + m);
        dst := dst + d;
        tot, at := tot + |d|, at + |d|;
      }
      SlackDone(View(), i, at);
    }

    /** One round of the write loop: copies bytes of src, tot of which are already written, to
        inode i from at up to end or to the end of the block. */
    method WriteChunk(i: nat, at: nat, end: nat, src: seq<byte>, tot: nat) returns (k: nat)
      requires Valid() && i < inode.Length && at < end <= MAXBYTES && at / BSIZE < BlocksTo(end) <= MAXFILE
      requires tot + (end - at) <= |src|
      requires SlackAt(View(), i, at, end) >= 0
      modifies disk, inode, this`own
      ensures Valid() && 0 < k <= end - at && Overwritten(old(View()), View(), i, at, src[tot..tot + k])
      ensures inode[i].size == old(inode[i].size)
      ensures at + k < end ==> (at + k) / BSIZE < BlocksTo(end)
      ensures SlackAt(View(), i, at + k, end) == SlackAt(old(View()), i, at, end)
    {
      hide Store.Owned, Store.Marked, Store.Slot, Store.ByteAt, Need, BnSlot;
      NextBlock(at, end);
      var addr := BmapNext(i, at / BSIZE, BlocksTo(end));
      ghost var s := View();
      k := if end - at < BSIZE - at % BSIZE then end - at else BSIZE - at % BSIZE;
      PatchBlock(s, own, i, at, src[tot..tot + k]);
      PutBlock(addr, disk[addr][..at % BSIZE] + src[tot..tot + k] + disk[addr][at % BSIZE + k..]);
      NeedSame(s, View(), i, at / BSIZE + 1, BlocksTo(end));
      ChunkSlack(View(), i, at, end);
    }

    /** Writes src at off; what does not fit below the largest file size is not written. */
    method Writei(i: nat, src: seq<byte>, off: nat) returns (r: int)
      requires Valid() && i < inode.Length && off < UINT && |src| < UINT
      requires inode[i].size <= MAXBYTES
      requires off <= inode[i].size ==> SlackAt(View(), i, off, off + Clamp(off, |src|, MAXBYTES)) >= 0
      modifies disk, inode, this`own
      ensures Valid()
      ensures if off > old(inode[i].size) || off + |src| >= UINT then r == -1 && View() == old(View())
              else r == Clamp(off, |src|, MAXBYTES) && Written(old(View()), View(), i, off, src[..r])
                   && 0 <= r <= |src| && off + r <= MAXBYTES && (r == |src| || off + r == MAXBYTES)
                   && |View().Free()| == SlackAt(old(View()), i, off, off + r)
    {
      hide Store.Owned, Store.Marked, Store.Slot, Store.ByteAt, Store.Free, Need, BlocksTo, Overwritten, Written;
      if off > inode[i].size || (off + |src|) % UINT < off {
        return -1;
      }
      var m := |src|;
      if off + m > MAXBYTES {
        m := MAXBYTES - off;
      }
      if m > 0 { NextBlock(off, off + m); }
      OverwriteNothing(old(View()), i, off);
      assert src[..0] == [];
      var at, tot := off, 0;
      while tot < m
        invariant tot <= m && at == off + tot
        invariant tot < m ==> at / BSIZE < BlocksTo(off + m) <= MAXFILE
        invariant SlackAt(View(), i, at, off + m) == SlackAt(old(View()), i, off, off + m)
        invariant Valid() && Overwritten(old(View()), View(), i, off, src[..tot]) && inode[i].size == old(inode[i].size)
      {
        ghost var s := View();
        var k := WriteChunk(i, at, off + m, src, tot);
        OverwriteMore(old(View()), s, View(), i, off, src[..tot], src[tot..tot + k]);
        assert src[..tot] + src[tot..tot + k] == src[..tot + k];
        tot, at := tot + k, at + k;
      }
      ghost var s := View();
      assert s.ino[i].size == old(inode[i].size) && src[..tot] == src[..m];
      if m > 0 && at > inode[i].size {
        PutSize(i, at);
      }
      OverwrittenSized(old(View()), s, View(), i, off, src[..m]);
      r := m;
    }

    method PutSize(i: nat, size: nat)
      requires Valid() && i < inode.Length
      modifies inode
      ensures Valid()
      ensures View() == WithSize(old(View()), i, size) && SameBytes(old(View()), View())
      ensures View().Free() == old(View()).Free()
    {
      ghost var s := View();
      inode[i] := inode[i].(size := size);
      assert inode[..] == old(inode[..])[i := inode[i]];
      SizeChange(s, own, i, size);
    }

    /** Frees the block of direct slot k of inode i, if there is one, and clears the slot. */
    method TruncDirect(i: nat, k: nat)
      requires Valid() && i < inode.Length && k < NDIRECT
      modifies disk, inode, this`own
      ensures Valid() && SameShape(old(View()), View()) && Shrunk(old(View()), View(), old(own), own, i)
      ensures inode[i] == old(inode[i]).(addrs := old(inode[i]).addrs[k := 0])
    {
      hide Store.Owned, Store.Marked;
      ghost var s := View();
      var addr := inode[i].addrs[k];
      if addr != 0 {
        FreeAddr(s, own, i, k);
        IsOwned(s, own, 0, 0, i, k);
        OwnedSuper(s, own, 0, 0);
        Bfree(addr);
        PutAddr(i, k, 0);
        ShrunkOnce(s, View(), own, i, addr);
        own := own - {addr};
      }
    }

    /** Frees the block of entry e of inode i's indirect block, if there is one. */
    method TruncEntry(i: nat, e: nat, ghost ind: nat, addr: nat)
      requires View().Wf() && i < inode.Length && e < NINDIRECT
      requires inode[i].addrs[NDIRECT] == ind != 0 && View().Owned(own, i, e + NDIRECT + 1)
      requires addr == View().Slot(i, e + NDIRECT + 1)
      modifies disk, this`own
      ensures View().Wf() && View().Owned(own, i, e + NDIRECT + 2)
      ensures SameShape(old(View()), View()) && Shrunk(old(View()), View(), old(own), own, i)
      ensures forall l: nat | l < NSLOT :: View().Slot(i, l) == old(View()).Slot(i, l)
    {
      ghost var s := View();
      ghost var k := e + NDIRECT + 1;
      if addr == 0 {
        DeadZero(s, own, i, k);
      } else {
        hide Store.Owned, Store.Marked, Store.Slot;
        FreeEntry(s, own, i, k);
        IsOwned(s, own, i, k, i, k);
        OwnedSuper(s, own, i, k);
        Bfree(addr);
        ShrunkOnce(s, View(), own, i, addr);
        own := own - {addr};
      }
    }

    /** Frees the indirect block of inode i after all its entries, and clears its slot. */
    method TruncIndirect(i: nat)
      requires View().Wf() && i < inode.Length && View().Owned(own, i, NSLOT)
      requires inode[i].addrs[NDIRECT] != 0
      modifies disk, inode, this`own
      ensures Valid() && SameShape(old(View()), View()) && Shrunk(old(View()), View(), old(own), own, i)
      ensures inode[i] == old(inode[i]).(addrs := old(inode[i]).addrs[NDIRECT := 0])
    {
      hide Store.Owned, Store.Marked;
      ghost var s := View();
      var addr := inode[i].addrs[NDIRECT];
      FreeIndirect(s, own, i);
      IndirectOwned(s, own, i, NSLOT, i);
      OwnedSuper(s, own, i, NSLOT);
      Bfree(addr);
      PutAddr(i, NDIRECT, 0);
      ShrunkOnce(s, View(), own, i, addr);
      own := own - {addr};
    }

    /** Discards the contents of inode i: frees its direct blocks, the blocks its indirect block
        lists, and the indirect block, and clears its addresses and size. */
    method Itrunc(i: nat)
      requires Valid() && i < inode.Length
      modifies disk, inode, this`own
      ensures Valid() && own == Without(old(own), i)
      ensures SameShape(old(View()), View()) && forall j: nat | j < inode.Length && j != i :: inode[j] == old(inode[j])
      ensures forall j: nat, p: nat | j < inode.Length && j != i && p < MAXBYTES ::
                View().ByteAt(j, p) == old(View()).ByteAt(j, p)
      ensures inode[i] == Inode(old(inode[i]).typ, 0, seq(13, _ => 0))
      ensures View().Free() == old(View()).Free() + set k: nat | k < NSLOT && old(View()).Slot(i, k) != 0 ::
                old(View()).Slot(i, k)
    {
      hide Store.Owned, Store.Marked, Store.Slot, Shrunk, Store.Free;
      ghost var s0 := View();
      ShrunkNone(s0, own, i);
      var k := 0;
      while k < NDIRECT
        invariant k <= NDIRECT && Valid() && SameShape(s0, View()) && Shrunk(s0, View(), old(own), own, i)
        invariant forall l: nat | l < k :: inode[i].addrs[l] == 0
        invariant inode[i].typ == s0.ino[i].typ
      {
        ghost var s, own1 := View(), own;
        TruncDirect(i, k);
        ShrunkTwice(s0, s, View(), old(own), own1, own, i);
        k := k + 1;
      }
      if inode[i].addrs[NDIRECT] != 0 {
        TruncEntries(i, s0, old(own));
        ghost var s, own1 := View(), own;
        TruncIndirect(i);
        ShrunkTwice(s0, s, View(), old(own), own1, own, i);
      }
      ghost var s, own1 := View(), own;
      PutSize(i, 0);
      ShrunkSize(s, View(), own, i);
      ShrunkTwice(s0, s, View(), old(own), own1, own, i);
      assert inode[i].addrs == seq(13, _ => 0);
      ZeroSlots(View(), i);
      ShrunkToNothing(s0, View(), old(own), own, i);
      ShrunkKeepsOthers(s0, View(), old(own), own, i);
      WithoutFree(s0, View(), old(own), i);
    }

    method TruncEntries(i: nat, ghost s0: Store, ghost own0: map<nat, Ref>)
      requires Valid() && i < inode.Length && inode[i].addrs[NDIRECT] != 0
      requires SameShape(s0, View()) && Shrunk(s0, View(), own0, own, i)
      modifies disk, this`own
      ensures View().Wf() && View().Owned(own, i, NSLOT)
      ensures SameShape(s0, View()) && Shrunk(s0, View(), own0, own, i)
    {
      hide Store.Owned, Store.Marked, Store.Slot, Shrunk;
      var ind := inode[i].addrs[NDIRECT];
      IndirectOwned(View(), own, 0, 0, i);
      var a := disk[ind];
      ghost var s1 := View();
      NoneDead(s1, own, i);
      var e := 0;
      while e < NINDIRECT
        invariant e <= NINDIRECT && View().Wf() && View().Owned(own, i, e + NDIRECT + 1)
        invariant SameShape(s0, View()) && Shrunk(s0, View(), own0, own, i)
        invariant forall l: nat | l < NSLOT :: View().Slot(i, l) == s1.Slot(i, l)
      {
        ghost var s, own1 := View(), own;
        EntryIs(s1, i, e);
        TruncEntry(i, e, ind, Word(a, e));
        ShrunkTwice(s0, s, View(), own0, own1, own, i);
        e := e + 1;
      }
    }
  }
}
