/** The image builder's disk: inode records, block allocation, and appending to an inode. */
module MkfsAppend {
  import opened Wrappers
  import opened FsLayout
  import opened FsStore
  import opened FsOwner
  import opened MkfsStore
  import opened MkfsRecord

  const NBLOCKS: nat := 995

  function Blank(typ: int): Inode { Inode(typ, 0, seq(13, _ => 0)) }

  /** The record of inode n; records of inodes in use have one link. */
  function RecordOf(n: Inode, used: bool): DInode
    requires 0 <= n.typ
  {
    DInode(n.typ, 0, 0, if used then 1 else 0, n.size, n.addrs)
  }

  ghost predicate RecordOk(disk: seq<Block>, ino: seq<Inode>, i: nat, fi: nat) {
    && |disk| == SIZE && i < NINODES && i < |ino| && 0 <= ino[i].typ <= 3 && ino[i].size <= MAXBYTES + BSIZE
    && ReadRecord(disk[i / IPB + 2], i % IPB) == RecordOf(ino[i], 1 <= i < fi)
  }

  /** The inode blocks hold the records of ino; numbers from fi on are not in use. */
  ghost predicate RecordsOk(disk: seq<Block>, ino: seq<Inode>, fi: nat) {
    |ino| == NINODES && forall i: nat | i < NINODES :: RecordOk(disk, ino, i, fi)
  }

  /** The inode of a record, as the kernel reads it. */
  function InodeOf(d: DInode): Inode { Inode(d.typ, d.size, d.addrs) }

  /** What an image says: its blocks, with the inodes of the records in its inode blocks. */
  function StoreOf(disk: seq<Block>): Store
    requires |disk| == SIZE
  {
    Store(GEOMETRY, disk,
          seq(NINODES, i requires 0 <= i < NINODES => InodeOf(ReadRecord(disk[i / IPB + 2], i % IPB))))
  }

  /** Inodes that are recorded are those that the image says. */
  lemma RecordsSay(disk: seq<Block>, ino: seq<Inode>, fi: nat)
    requires |disk| == SIZE && RecordsOk(disk, ino, fi)
    ensures StoreOf(disk) == Store(GEOMETRY, disk, ino)
  {
    hide ReadRecord;
    forall i: nat | i < NINODES ensures StoreOf(disk).ino[i] == ino[i] { assert RecordOk(disk, ino, i, fi); }
    assert StoreOf(disk).ino == ino;
  }

  /** The bytes of inode i from off on are src; all other bytes of all inodes are as before. */
  ghost predicate Spliced(s: Store, t: Store, i: nat, off: nat, src: seq<byte>)
    requires i < |s.ino|
  {
    && SameShape(s, t)
    && forall j: nat, p: nat | j < |s.ino| && p < MAXBYTES ::
         t.ByteAt(j, p) == if j == i && off <= p < off + |src| then src[p - off] else s.ByteAt(j, p)
  }

  /** The blocks that a file of n bytes takes, the indirect block included. */
  function Blocks(n: nat): nat { (n + BSIZE - 1) / BSIZE + if n > NDIRECT * BSIZE then 1 else 0 }

  /** Exactly the slots that n bytes take are in use. */
  ghost predicate Filled(s: Store, i: nat, n: nat)
    requires i < |s.ino|
  {
    && (forall bn: nat | bn < MAXFILE :: SlotUsed(s, i, BnSlot(bn)) <==> BSIZE * bn < n)
    && (SlotUsed(s, i, NDIRECT) <==> BSIZE * NDIRECT < n)
  }

  ghost predicate SlotUsed(s: Store, i: nat, k: nat)
    requires i < |s.ino| && k < NSLOT
  {
    s.Slot(i, k) != 0
  }

  ghost predicate SlotsElsewhere(s: Store, t: Store, i: nat) {
    SameShape(s, t) && forall j: nat, l: nat | j < |s.ino| && l < NSLOT && j != i :: t.Slot(j, l) == s.Slot(j, l)
  }

  /** The slots that mapping file block bn of inode i may put to use. */
  predicate OnPath(bn: nat, l: nat) { l == BnSlot(bn) || l == NDIRECT <= bn }

  /** File block bn of inode i is mapped, and no slot changes but for that. */
  ghost predicate Maps(s: Store, t: Store, i: nat, bn: nat)
    requires i < |s.ino| && bn < MAXFILE
  {
    && SameShape(s, t)
    && (forall j: nat, l: nat | j < |s.ino| && l < NSLOT && !(j == i && OnPath(bn, l)) :: t.Slot(j, l) == s.Slot(j, l))
    && (forall l: nat | l < NSLOT && OnPath(bn, l) :: SlotUsed(t, i, l)
                                                      && (SlotUsed(s, i, l) ==> t.Slot(i, l) == s.Slot(i, l)))
  }

  /** How many blocks mapping takes. */
  ghost function Fresh(s: Store, i: nat, bn: nat): nat
    requires i < |s.ino| && bn < MAXFILE
  {
    (if SlotUsed(s, i, BnSlot(bn)) then 0 else 1) + if bn < NDIRECT || SlotUsed(s, i, NDIRECT) then 0 else 1
  }

  /** The super block as it is written: 1024 blocks, 995 of them data blocks, and 200 inodes. */
  ghost predicate SuperOk(b: Block) { Super(b, GEOMETRY) && Word(b, 1) == NBLOCKS }

  function SuperBlock(): (b: Block)
    ensures SuperOk(b)
  {
    var b1 := PutWord(Zeros(), 0, SIZE);
    var b2 := PutWord(b1, 1, NBLOCKS);
    WordOfPutWord(Zeros(), 0, SIZE, 0);
    WordOfPutWord(b1, 1, NBLOCKS, 0); WordOfPutWord(b1, 1, NBLOCKS, 1);
    WordOfPutWord(b2, 2, NINODES, 0); WordOfPutWord(b2, 2, NINODES, 1); WordOfPutWord(b2, 2, NINODES, 2);
    PutWord(b2, 2, NINODES)
  }

  lemma NothingAllotted(s: Store)
    requires s.g == GEOMETRY && s.Wf() && s.ino == seq(NINODES, _ => Blank(0))
    requires forall b: nat | b < SIZE && b != 1 :: s.disk[b] == Zeros()
    ensures Allotted(s, map[], FIRST)
  {
    forall i: nat, k: nat | i < NINODES && k < NSLOT ensures s.Slot(i, k) == 0 {}
  }

  lemma NoRecords(disk: seq<Block>, ino: seq<Inode>)
    requires |disk| == SIZE && ino == seq(NINODES, _ => Blank(0))
    requires forall b: nat | b < SIZE && b != 1 :: disk[b] == Zeros()
    ensures RecordsOk(disk, ino, 1)
  {
    forall i: nat | i < NINODES ensures RecordOk(disk, ino, i, 1) {
      var b := disk[i / IPB + 2];
      forall k: nat | k < NINDIRECT ensures Word(b, k) == 0 {}
      assert ReadRecord(b, i % IPB).addrs == Blank(0).addrs;
    }
  }

  /** Exactly the bits below n are set. */
  ghost predicate BitsBelow(b: Block, n: nat) {
    forall c: nat | c < BPB :: Bit(b[c / 8], c % 8) <==> c < n
  }

  lemma BitsMore(b: Block, n: nat)
    requires BitsBelow(b, n) && n < BPB
    ensures SetBit(b[n / 8], n % 8) < 256 && BitsBelow(b[n / 8 := SetBit(b[n / 8], n % 8)], n + 1)
  {
    ByteBits(b[n / 8], n % 8);
    var b' := b[n / 8 := SetBit(b[n / 8], n % 8)];
    forall c: nat | c < BPB ensures Bit(b'[c / 8], c % 8) <==> c < n + 1 {
      BitOfSetBit(b[n / 8], n % 8, c % 8);
      assert c / 8 == n / 8 && c % 8 == n % 8 ==> c == n;
      assert Bit(b[c / 8], c % 8) <==> c < n;
    }
  }

  lemma NoBits(b: Block)
    requires b == Zeros()
    ensures BitsBelow(b, 0)
  {
    forall c: nat | c < BPB ensures !Bit(b[c / 8], c % 8) { ZeroBit(c % 8); }
  }

  lemma {:induction false} ZeroBit(k: nat)
    ensures !Bit(0, k)
  {
    if k > 0 { ZeroBit(k - 1); }
  }

  class Builder {
    const disk: array<Block>
    var freeblock: nat
    var usedblocks: nat
    var freeinode: nat
    ghost var ino: seq<Inode>        // the inodes as they are recorded or about to be
    ghost var own: map<nat, Ref>

    ghost function View(): Store
      reads this, disk
    {
      Store(GEOMETRY, disk[..], ino)
    }

    /** Blocks are handed out in order, and as many count as used. */
    ghost predicate BlocksValid()
      reads this, disk
    {
      disk.Length == SIZE && Allotted(View(), own, freeblock) && usedblocks == freeblock && SuperOk(disk[1])
    }

    ghost predicate Valid()
      reads this, disk
    {
      BlocksValid() && 1 <= freeinode <= NINODES && RecordsOk(disk[..], ino, freeinode)
    }

    /** An image of zero blocks and a super block. */
    constructor ()
      ensures Valid() && freeblock == FIRST && freeinode == 1 && fresh(disk)
      ensures ino == seq(NINODES, _ => Blank(0))
    {
      disk := new Block[SIZE];
      var bitblocks := SIZE / (512 * 8) + 1;
      usedblocks := NINODES / IPB + 3 + bitblocks;
      freeblock := NINODES / IPB + 3 + bitblocks;
      freeinode := 1;
      ino := seq(NINODES, _ => Blank(0));
      own := map[];
      new;
      assert NBLOCKS + usedblocks == SIZE;
      var i := 0;
      while i < NBLOCKS + usedblocks
        invariant i <= SIZE && forall k: nat | k < i :: disk[k] == Zeros()
        invariant usedblocks == freeblock == FIRST && freeinode == 1 && own == map[]
            && ino == seq(NINODES, _ => Blank(0))
      {
        disk[i] := Zeros();
        i := i + 1;
      }
      disk[1] := SuperBlock();
      NothingAllotted(View());
      NoRecords(disk[..], ino);
    }

    /** Writes a sector. */
    method Wsect(sec: nat, b: Block)
      requires sec < disk.Length
      modifies disk
      ensures forall k: nat | k < disk.Length && k != sec :: disk[k] == old(disk[k])
      ensures View() == WithBlock(old(View()), sec, b)
    {
      disk[sec] := b;
      assert disk[..] == old(disk[..])[sec := b];
    }

    /** Writes the record of inode i. */
    method Winode(i: nat, d: DInode, ghost n: Inode, ghost fi: nat)
      requires BlocksValid() && i < NINODES && InRange(d)
      requires |ino| == NINODES && ino[i] == n
      requires 0 <= n.typ <= 3 && n.size <= MAXBYTES + BSIZE && d == RecordOf(n, 1 <= i < fi)
      requires forall j: nat | j < NINODES && j != i :: RecordOk(disk[..], ino, j, fi)
      modifies disk
      ensures BlocksValid() && RecordsOk(disk[..], ino, fi) && SameSlots(old(View()), View())
          && SameBytes(old(View()), View())
      ensures forall k: nat | k < disk.Length && k != i / IPB + 2 :: disk[k] == old(disk[k])
    {
      hide Allotted;
      ghost var s := View();
      var bn := i / IPB + 2;
      var buf := WriteRecord(disk[bn], i % IPB, d);
      AllottedShape(s, own, freeblock);
      PutMeta(s, own, freeblock, bn, buf);
      Wsect(bn, buf);
      RecordsAfter(s.disk, disk[..], s.disk[bn], buf, ino, i, fi);
    }

    /** Reads the record of inode i. */
    method Rinode(i: nat) returns (d: DInode)
      requires Valid() && i < NINODES
      ensures 0 <= ino[i].typ <= 3 && d == RecordOf(ino[i], 1 <= i < freeinode) && InRange(d)
    {
      assert RecordOk(disk[..], ino, i, freeinode);
      d := ReadRecord(disk[i / IPB + 2], i % IPB);
    }

    /** A bitmap block with the first `used` bits set. */
    static method Bitmap(used: nat) returns (buf: Block)
      requires used < 512 * 8
      ensures BitsBelow(buf, used)
    {
      hide Bit;
      buf := Zeros();
      NoBits(buf);
      for i := 0 to used
        invariant BitsBelow(buf, i)
      {
        BitsMore(buf, i);
        buf := buf[i / 8 := SetBit(buf[i / 8], i % 8)];
      }
    }

    /** Marks the first `used` blocks in use. */
    method Balloc(used: nat)
      requires Valid() && used < 512 * 8
      modifies disk
      ensures Valid() && SameSlots(old(View()), View()) && SameBytes(old(View()), View())
      ensures BitsBelow(disk[NINODES / IPB + 3], used)
    {
      hide Allotted, Bit, ReadRecord;
      ghost var s := View();
      AllottedShape(s, own, freeblock);
      var buf := Bitmap(used);
      var bn := NINODES / IPB + 3;
      PutMeta(s, own, freeblock, bn, buf);
      Wsect(bn, buf);
      forall j: nat | j < NINODES ensures RecordOk(disk[..], ino, j, freeinode) {
        assert RecordOk(s.disk, ino, j, freeinode);
      }
    }

    /** The block of file block fbn of inode inum, whose record in memory has these addresses:
        handed out when there is none, and an indirect block before it when needed. */
    method MapBlock(inum: nat, fbn: nat, addrs: Addrs) returns (x: Option<nat>, addrs': Addrs)
      requires BlocksValid() && inum < NINODES && fbn < MAXFILE && ino[inum].addrs == addrs
      modifies this`freeblock, this`usedblocks, this`ino, this`own, disk
      ensures x.Some? ==> BlocksValid() && SameShape(old(View()), View()) && SameBytes(old(View()), View())
                          && ino == old(ino)[inum := old(ino)[inum].(addrs := addrs')]
                          && 0 < x.value < SIZE && x.value == View().Slot(inum, BnSlot(fbn))
                          && forall b: nat | b < FIRST :: disk[b] == old(disk[b])
      ensures x.Some? ==> Maps(old(View()), View(), inum, fbn)
                          && freeblock == old(freeblock) + Fresh(old(View()), inum, fbn)
      ensures x.None? ==> old(freeblock) + Fresh(old(View()), inum, fbn) > SIZE
    {
      hide Allotted, Store.Slot, Store.ByteAt;
      ghost var s := View();
      AllottedShape(s, own, freeblock);
      addrs' := addrs;
      x := None;
      if fbn < NDIRECT {
        SlotDirect(s, inum, fbn);
        if addrs[fbn] == 0 {
          if freeblock >= SIZE {
            return;  // the new block lies behind the end of the file: reading it fails
          }
          TakeAddr(s, own, freeblock, inum, fbn);
          addrs' := TakeNext(inum, fbn, addrs);
        } else {
          SlotAllotted(s, own, freeblock, inum, fbn);
        }
        x := Some(addrs'[fbn]);
        SlotDirect(View(), inum, fbn);
      } else {
        SlotDirect(s, inum, NDIRECT);
        if addrs[NDIRECT] == 0 {
          if freeblock >= SIZE {
            return;
          }
          TakeAddr(s, own, freeblock, inum, NDIRECT);
          addrs' := TakeNext(inum, NDIRECT, addrs);
        }
        x := MapEntry(inum, fbn, addrs'[NDIRECT]);
      }
    }

    /** `addrs[k] = freeblock++; usedblocks++` */
    method TakeNext(inum: nat, k: nat, addrs: Addrs) returns (addrs': Addrs)
      requires BlocksValid() && inum < NINODES && k <= NDIRECT && ino[inum].addrs == addrs && addrs[k] == 0
      requires freeblock < SIZE
      modifies this`freeblock, this`usedblocks, this`ino, this`own
      ensures BlocksValid() && freeblock == old(freeblock) + 1
      ensures addrs' == addrs[k := old(freeblock)] && ino == old(ino)[inum := old(ino)[inum].(addrs := addrs')]
      ensures SameShape(old(View()), View()) && SlotBecomes(old(View()), View(), inum, k, old(freeblock))
      ensures SameBytes(old(View()), View())
    {
      hide Allotted, Store.Slot, Store.ByteAt;
      ghost var s := View();
      AllottedShape(s, own, freeblock);
      SlotDirect(s, inum, k);
      TakeAddr(s, own, freeblock, inum, k);
      addrs' := addrs[k := freeblock];
      own := own[freeblock := Ref(inum, k)];
      ino := ino[inum := ino[inum].(addrs := addrs')];
      freeblock := freeblock + 1;
      usedblocks := usedblocks + 1;
    }

    /** The block that the indirect block ind of inode inum lists for file block fbn. */
    method MapEntry(inum: nat, fbn: nat, ind: nat) returns (x: Option<nat>)
      requires BlocksValid() && inum < NINODES && NDIRECT <= fbn < MAXFILE && ino[inum].addrs[NDIRECT] == ind != 0
      modifies this`freeblock, this`usedblocks, this`own, disk
      ensures x.Some? ==> BlocksValid() && SameShape(old(View()), View()) && SameBytes(old(View()), View())
                          && 0 < x.value < SIZE && x.value == View().Slot(inum, BnSlot(fbn))
                          && forall b: nat | b < FIRST :: disk[b] == old(disk[b])
      ensures var used := SlotUsed(old(View()), inum, BnSlot(fbn));
              if used then x.Some? && freeblock == old(freeblock) && SameSlots(old(View()), View())
              else if old(freeblock) < SIZE
                then x.Some? && freeblock == old(freeblock) + 1
                     && SlotBecomes(old(View()), View(), inum, BnSlot(fbn), old(freeblock))
                else x.None?
    {
      hide Allotted, Store.Slot, Store.ByteAt;
      ghost var s := View();
      ghost var k := BnSlot(fbn);
      AllottedShape(s, own, freeblock);
      IndirectAllotted(s, own, freeblock, inum);
      var indirect := disk[ind];
      SlotEntry(s, inum, fbn);
      var e := Word(indirect, fbn - NDIRECT);
      if e == 0 {
        if freeblock >= SIZE {
          return None;
        }
        TakeEntry(s, own, freeblock, inum, k);
        e := freeblock;
        freeblock := freeblock + 1;
        usedblocks := usedblocks + 1;
        own := own[e := Ref(inum, k)];
        Wsect(ind, PutWord(indirect, fbn - NDIRECT, e));
      } else {
        SlotAllotted(s, own, freeblock, inum, k);
      }
      x := Some(e);
    }

    /** Copies the bytes d, which lie within one file block, to offset off of inode inum. */
    method AppendPart(inum: nat, off: nat, addrs: Addrs, d: seq<byte>) returns (ok: bool, addrs': Addrs)
      requires BlocksValid() && inum < NINODES && off < MAXBYTES && off % BSIZE + |d| <= BSIZE
          && ino[inum].addrs == addrs
      modifies this`freeblock, this`usedblocks, this`ino, this`own, disk
      ensures ok ==> BlocksValid() && ino == old(ino)[inum := old(ino)[inum].(addrs := addrs')]
                     && Spliced(old(View()), View(), inum, off, d)
                     && forall b: nat | b < FIRST :: disk[b] == old(disk[b])
      ensures ok ==> Maps(old(View()), View(), inum, off / BSIZE)
                     && freeblock == old(freeblock) + Fresh(old(View()), inum, off / BSIZE)
      ensures !ok ==> old(freeblock) + Fresh(old(View()), inum, off / BSIZE) > SIZE
    {
      hide Allotted, Store.Slot, Store.ByteAt, SlotUsed, OnPath, Fresh;
      var fbn, x := off / BSIZE, None;
      ghost var s0 := View();
      AllottedShape(s0, own, freeblock);
      x, addrs' := MapBlock(inum, fbn, addrs);
      if x.None? {
        return false, addrs';
      }
      ghost var s1 := View();
      PatchSpliced(s1, own, freeblock, inum, off, d);
      var buf := disk[x.value];
      assert off - fbn * BSIZE == off % BSIZE;
      Wsect(x.value, buf[..off - fbn * BSIZE] + d + buf[off - fbn * BSIZE + |d|..]);
      SplicedAfter(s0, s1, View(), inum, off, d);
      MapsAfter(s0, s1, View(), inum, fbn);
      ok := true;
    }

    /** Appends the bytes p to inode inum; false when the program ends because the file would be
        too large or the image is full. */
    method Iappend(inum: nat, p: seq<byte>) returns (ok: bool)
      requires Valid() && inum < NINODES && Tidy(View(), inum) && Filled(View(), inum, ino[inum].size)
      modifies this`freeblock, this`usedblocks, this`ino, this`own, disk
      ensures ok ==> Valid() && Spliced(old(View()), View(), inum, old(ino)[inum].size, p)
                     && ino[inum].size == old(ino)[inum].size + |p| && Tidy(View(), inum)
                     && ino == old(ino)[inum := ino[inum]] && ino[inum].typ == old(ino)[inum].typ
                     && Filled(View(), inum, ino[inum].size) && SlotsElsewhere(old(View()), View(), inum)
      ensures var n, m := old(ino)[inum].size, old(ino)[inum].size + |p|;
              && (ok <==> m <= MAXBYTES && old(freeblock) + Blocks(m) - Blocks(n) <= SIZE)
              && (ok ==> freeblock == old(freeblock) + Blocks(m) - Blocks(n))
    {
      hide Allotted, Store.Slot, Store.ByteAt, RecordsOk, Spliced, Filled, Blocks, Maps, Fresh, Tidy, SlotsElsewhere;
      ghost var s0, ino0, fb0 := View(), ino, freeblock;
      AllottedShape(s0, own, freeblock);
      var din := Rinode(inum);
      var off: nat, done: nat, n: nat := din.size, 0, |p|;
      var addrs := din.addrs;
      SplicedNone(s0, inum, off);
      AppendStart(s0, inum);
      while n > 0
        invariant n + done == |p| && off == s0.ino[inum].size + done && off <= MAXBYTES
        invariant BlocksValid() && ino == ino0[inum := ino0[inum].(addrs := addrs)]
        invariant Spliced(s0, View(), inum, s0.ino[inum].size, p[..done])
        invariant Filled(View(), inum, off) && SlotsElsewhere(s0, View(), inum)
        invariant freeblock == fb0 + Blocks(off) - Blocks(s0.ino[inum].size)
        invariant forall b: nat | b < FIRST :: disk[b] == s0.disk[b]
      {
        var fbn := off / BSIZE;
        if fbn >= MAXFILE {
          return false;
        }
        var n1 := if n < (fbn + 1) * BSIZE - off then n else (fbn + 1) * BSIZE - off;
        ghost var s1 := View();
        BlocksGrow(off + n1, s0.ino[inum].size + |p|);
        FilledMore(s1, inum, off, n1);
        ok, addrs := AppendPart(inum, off, addrs, p[done..done + n1]);
        if !ok {
          return false;
        }
        FilledThen(s0, s1, View(), inum, off, n1);
        SplicedMore(s0, s1, View(), inum, s0.ino[inum].size, p[..done], p[done..done + n1]);
        assert p[..done] + p[done..done + n1] == p[..done + n1];
        n, off, done := n - n1, off + n1, done + n1;
      }
      assert p[..done] == p;
      ghost var s2 := View();
      PutRecord(inum, din, addrs, off, s0);
      SlotsThen(s0, s2, View(), inum, off);
      SplicedThen(s0, s2, View(), inum, s0.ino[inum].size, p);
      SplicedTail(s0, View(), inum, p);
      AllottedShape(View(), own, freeblock);
      ok := true;
    }

    /** Writes the record of inode inum back, with new addresses and a new size; s0 is the state in
        which it was read. */
    method PutRecord(inum: nat, din: DInode, addrs: Addrs, size: nat, ghost s0: Store)
      requires BlocksValid() && 1 <= freeinode <= NINODES && RecordsOk(s0.disk, s0.ino, freeinode) && |s0.disk| == SIZE
      requires |s0.ino| == NINODES && inum < NINODES && size <= MAXBYTES
      requires ino == s0.ino[inum := s0.ino[inum].(addrs := addrs)]
      requires 0 <= s0.ino[inum].typ <= 3 && din == RecordOf(s0.ino[inum], 1 <= inum < freeinode) && InRange(din)
      requires forall b: nat | b < FIRST :: disk[b] == s0.disk[b]
      modifies this`ino, disk
      ensures Valid() && ino == s0.ino[inum := s0.ino[inum].(addrs := addrs, size := size)]
      ensures SameSlots(old(View()), View()) && SameBytes(old(View()), View())
    {
      hide Allotted, Store.Slot, Store.ByteAt, RecordsOk;
      ghost var s2 := View();
      AllottedShape(s2, own, freeblock);
      ino := ino[inum := ino[inum].(size := size)];
      SizeOnly(s2, own, freeblock, inum, size);
      OtherRecords(s0.disk, disk[..], s0.ino, ino, inum, freeinode);
      ghost var s3 := View();
      Winode(inum, din.(addrs := addrs, size := size), ino[inum], freeinode);
      SlotsChain(s2, s3, View());
    }
  }

  lemma MapsAfter(s: Store, s1: Store, t: Store, i: nat, bn: nat)
    requires i < |s.ino| && bn < MAXFILE && Maps(s, s1, i, bn) && SameSlots(s1, t)
    ensures Maps(s, t, i, bn)
  {
    hide Store.Slot, OnPath;
    forall l: nat | l < NSLOT && OnPath(bn, l)
      ensures SlotUsed(t, i, l) && (SlotUsed(s, i, l) ==> t.Slot(i, l) == s.Slot(i, l))
    {
      assert t.Slot(i, l) == s1.Slot(i, l) && SlotUsed(s1, i, l);
    }
  }

  lemma BlocksGrow(n: nat, m: nat)
    requires n <= m
    ensures Blocks(n) <= Blocks(m)
  {}

  /** Growing within one file block takes just the blocks that mapping it takes. */
  lemma FilledMore(s: Store, i: nat, off: nat, n: nat)
    requires i < |s.ino| && Filled(s, i, off) && off < MAXBYTES && 0 < n && off % BSIZE + n <= BSIZE
    ensures Blocks(off + n) == Blocks(off) + Fresh(s, i, off / BSIZE)
  {
    hide SlotUsed;
    var bn := off / BSIZE;
    assert SlotUsed(s, i, BnSlot(bn)) <==> BSIZE * bn < off;
  }

  lemma FilledThen(s0: Store, s: Store, t: Store, i: nat, off: nat, n: nat)
    requires i < |s.ino| && Filled(s, i, off) && off < MAXBYTES && 0 < n && off % BSIZE + n <= BSIZE
    requires Maps(s, t, i, off / BSIZE) && SlotsElsewhere(s0, s, i)
    ensures Filled(t, i, off + n) && SlotsElsewhere(s0, t, i)
  {
    hide Store.Slot;
    var bn := off / BSIZE;
    assert SlotUsed(s, i, BnSlot(bn)) <==> BSIZE * bn < off;
    forall b: nat | b < MAXFILE ensures SlotUsed(t, i, BnSlot(b)) <==> BSIZE * b < off + n {
      assert SlotUsed(s, i, BnSlot(b)) <==> BSIZE * b < off;
      if b != bn { assert !OnPath(bn, BnSlot(b)); }
    }
    if bn < NDIRECT { assert !OnPath(bn, NDIRECT); }
  }

  lemma SlotsChain(s: Store, t: Store, u: Store)
    requires SameSlots(s, t) && SameBytes(s, t) && SameSlots(t, u) && SameBytes(t, u)
    ensures SameSlots(s, u) && SameBytes(s, u)
  {
    hide Store.Slot, Store.ByteAt;
  }

  lemma SlotsThen(s0: Store, s: Store, t: Store, i: nat, n: nat)
    requires i < |s.ino| && Filled(s, i, n) && SlotsElsewhere(s0, s, i) && SameSlots(s, t)
    ensures Filled(t, i, n) && SlotsElsewhere(s0, t, i)
  {
    hide Store.Slot;
  }

  lemma SplicedAfter(s: Store, s1: Store, t: Store, i: nat, off: nat, d: seq<byte>)
    requires i < |s.ino| && SameShape(s, s1) && SameBytes(s, s1) && Spliced(s1, t, i, off, d)
    ensures Spliced(s, t, i, off, d)
  {
    hide Store.ByteAt;
  }

  lemma SplicedThen(s: Store, s1: Store, t: Store, i: nat, off: nat, d: seq<byte>)
    requires i < |s.ino| && Spliced(s, s1, i, off, d)
    requires SameShape(s1, t) && SameBytes(s1, t)
    ensures Spliced(s, t, i, off, d)
  {
    hide Store.ByteAt;
  }

  lemma SlotDirect(s: Store, i: nat, k: nat)
    requires i < |s.ino| && k <= NDIRECT
    ensures s.Slot(i, k) == s.ino[i].addrs[k]
  {}

  lemma SlotEntry(s: Store, i: nat, fbn: nat)
    requires i < |s.ino| && NDIRECT <= fbn < MAXFILE && 0 < s.ino[i].addrs[NDIRECT] < |s.disk|
    ensures s.Slot(i, BnSlot(fbn)) == Word(s.disk[s.ino[i].addrs[NDIRECT]], fbn - NDIRECT)
  {}

  lemma SplicedNone(s: Store, i: nat, off: nat)
    requires s.Wf() && i < |s.ino|
    ensures Spliced(s, s, i, off, [])
  {}

  lemma AppendStart(s: Store, i: nat)
    requires s.Wf() && i < |s.ino| && Tidy(s, i)
    ensures s.ino[i].size <= MAXBYTES && SlotsElsewhere(s, s, i)
  {}

  lemma SplicedMore(s: Store, t: Store, u: Store, i: nat, off: nat, d: seq<byte>, e: seq<byte>)
    requires i < |s.ino| && Spliced(s, t, i, off, d) && Spliced(t, u, i, off + |d|, e)
    ensures Spliced(s, u, i, off, d + e)
  {
    hide Store.ByteAt;
    forall j: nat, p: nat | j < |s.ino| && p < MAXBYTES
      ensures u.ByteAt(j, p) == if j == i && off <= p < off + |d + e| then (d + e)[p - off] else s.ByteAt(j, p)
    {
      assert t.ByteAt(j, p) == if j == i && off <= p < off + |d| then d[p - off] else s.ByteAt(j, p);
    }
  }

  /** Copying bytes into the block that holds offset at splices them in. */
  lemma PatchSpliced(s: Store, own: map<nat, Ref>, fb: nat, i: nat, at: nat, d: seq<byte>)
    requires Allotted(s, own, fb) && i < NINODES && at < MAXBYTES && at % BSIZE + |d| <= BSIZE
    requires s.Slot(i, BnSlot(at / BSIZE)) != 0
    ensures var a := s.Slot(i, BnSlot(at / BSIZE));
            FIRST <= a < fb && a < |s.disk|
            && var t := WithBlock(s, a, s.disk[a][..at % BSIZE] + d + s.disk[a][at % BSIZE + |d|..]);
            SameSlots(s, t) && Allotted(t, own, fb) && Spliced(s, t, i, at, d)
  {
    hide Store.Slot, Store.ByteAt, Allotted;
    AllottedShape(s, own, fb);
    var a := s.Slot(i, BnSlot(at / BSIZE));
    SlotAllotted(s, own, fb, i, BnSlot(at / BSIZE));
    var b := s.disk[a][..at % BSIZE] + d + s.disk[a][at % BSIZE + |d|..];
    PutData(s, own, fb, i, at / BSIZE, b);
    var t := WithBlock(s, a, b);
    forall p: nat | p < MAXBYTES && p / BSIZE == at / BSIZE
      ensures b[p % BSIZE] == if at <= p < at + |d| then d[p - at] else s.ByteAt(i, p)
    {
      ByteOf(s, i, p);
    }
    forall p: nat | at <= p < at + |d| ensures p / BSIZE == at / BSIZE {}
  }

  lemma ByteOf(s: Store, i: nat, p: nat)
    requires i < |s.ino| && p < MAXBYTES && 0 < s.Slot(i, BnSlot(p / BSIZE)) < |s.disk|
    ensures s.ByteAt(i, p) == s.disk[s.Slot(i, BnSlot(p / BSIZE))][p % BSIZE]
  {}

  lemma SizeOnly(s: Store, own: map<nat, Ref>, fb: nat, i: nat, size: nat)
    requires Allotted(s, own, fb) && i < NINODES
    ensures var t := s.(ino := s.ino[i := s.ino[i].(size := size)]); Allotted(t, own, fb) && SameSlots(s, t)
                                                                     && SameBytes(s, t)
  {
    var t := s.(ino := s.ino[i := s.ino[i].(size := size)]);
    forall j: nat, l: nat | j < NINODES && l < NSLOT ensures t.Slot(j, l) == s.Slot(j, l) {}
    hide Store.Slot;
    forall c | c in own ensures Owns(t, own[c], c) { assert Owns(s, own[c], c); }
    forall j: nat, p: nat | j < |s.ino| && p < MAXBYTES ensures t.ByteAt(j, p) == s.ByteAt(j, p) {
      assert t.Slot(j, BnSlot(p / BSIZE)) == s.Slot(j, BnSlot(p / BSIZE));
    }
  }

  lemma OtherRecords(disk: seq<Block>, disk': seq<Block>, ino: seq<Inode>, ino': seq<Inode>, i: nat, fi: nat)
    requires RecordsOk(disk, ino, fi) && |disk| == |disk'| == SIZE && i < NINODES && |ino'| == NINODES
    requires forall b: nat | b < FIRST :: disk'[b] == disk[b]
    requires forall j: nat | j < NINODES && j != i :: ino'[j] == ino[j]
    ensures forall j: nat | j < NINODES && j != i :: RecordOk(disk', ino', j, fi)
  {
    hide ReadRecord;
    forall j: nat | j < NINODES && j != i ensures RecordOk(disk', ino', j, fi) {
      assert RecordOk(disk, ino, j, fi);
    }
  }

  lemma SplicedTail(s: Store, t: Store, i: nat, p: seq<byte>)
    requires i < |s.ino| && Spliced(s, t, i, s.ino[i].size, p) && Tidy(s, i)
    requires t.ino[i].size == s.ino[i].size + |p| <= MAXBYTES
    ensures Tidy(t, i)
  {
    hide Store.ByteAt;
  }

  lemma AllottedShape(s: Store, own: map<nat, Ref>, fb: nat)
    requires Allotted(s, own, fb)
    ensures s.Wf() && |s.disk| == SIZE && |s.ino| == NINODES && FIRST <= fb <= SIZE && s.g == GEOMETRY
  {}

  lemma RecordsAfter(disk: seq<Block>, disk': seq<Block>, b0: Block, b1: Block, ino: seq<Inode>, i: nat, fi: nat)
    requires |disk| == |disk'| == SIZE && i < NINODES && |ino| == NINODES && 0 <= ino[i].typ <= 3
        && ino[i].size <= MAXBYTES + BSIZE
    requires forall b: nat | b < SIZE && b != i / IPB + 2 :: disk'[b] == disk[b]
    requires disk[i / IPB + 2] == b0 && disk'[i / IPB + 2] == b1
        && ReadRecord(b1, i % IPB) == RecordOf(ino[i], 1 <= i < fi)
    requires forall j: nat | j < IPB && j != i % IPB :: ReadRecord(b1, j) == ReadRecord(b0, j)
    requires forall j: nat | j < NINODES && j != i :: RecordOk(disk, ino, j, fi)
    ensures RecordsOk(disk', ino, fi)
  {
    hide ReadRecord;
    forall j: nat | j < NINODES ensures RecordOk(disk', ino, j, fi) {
      if j != i {
        assert RecordOk(disk, ino, j, fi);
        assert j / IPB == i / IPB ==> j % IPB != i % IPB;
      }
    }
  }
}
