/** Looking up, adding and clearing directory entries. */
module FsDirectory {
  import opened Wrappers
  import opened FsLayout
  import opened FsStore
  import opened FsNames
  import opened FileSystem
  import opened FsContents

  const PERBLOCK: nat := 32   // directory entries in a block

  predicate Matches(de: seq<byte>, name: seq<byte>)
    requires |de| == DIRENT
  {
    DirentInum(de) != 0 && Key(name) == Key(de[2..])
  }

  function DirentOf(b: Block, d: nat): seq<byte>
    requires d < PERBLOCK
  {
    b[DIRENT * d..DIRENT * d + DIRENT]
  }

  /** Entry e of directory i is in use under that name. */
  predicate Bound(s: Store, i: nat, e: nat, name: seq<byte>)
    requires i < |s.ino| && e < MAXENTRY
  {
    Live(s, i, e) && EntryKey(s, i, e) == Key(name)
  }

  lemma EntryPosition(bn: nat, d: nat)
    requires d < PERBLOCK
    ensures DIRENT * (PERBLOCK * bn + d) == BSIZE * bn + DIRENT * d
    ensures (DIRENT * (PERBLOCK * bn + d)) / BSIZE == bn && (DIRENT * (PERBLOCK * bn + d)) % BSIZE == DIRENT * d
  {}

  /** The entries of file block bn are the 16-byte pieces of its disk block. */
  lemma EntryInBlock(s: Store, i: nat, bn: nat, d: nat, name: seq<byte>)
    requires i < |s.ino| && bn < MAXFILE && d < PERBLOCK && 0 < s.Slot(i, BnSlot(bn)) < |s.disk|
    ensures var de := DirentOf(s.disk[s.Slot(i, BnSlot(bn))], d);
            EntryInum(s, i, PERBLOCK * bn + d) == DirentInum(de)
            && (Bound(s, i, PERBLOCK * bn + d, name) <==> Matches(de, name))
  {
    hide Store.ByteAt, Store.Slot;
    var at := DIRENT * (PERBLOCK * bn + d);
    var de := DirentOf(s.disk[s.Slot(i, BnSlot(bn))], d);
    EntryPosition(bn, d);
    BlockBytes(s, i, at, DIRENT);
    assert forall q: nat | q < DIRENT :: s.ByteAt(i, at + q) == de[q];
    assert EntryName(s, i, PERBLOCK * bn + d) == de[2..];
  }

  /** A name is bound exactly when some entry in use has it. */
  lemma BoundInDir(s: Store, i: nat, name: seq<byte>)
    requires i < |s.ino| && DirOk(s, i)
    ensures Key(name) in Dir(s, i) <==> exists e: nat :: e < Entries(s, i) && Bound(s, i, e, name)
    ensures forall e: nat | e < Entries(s, i) && Bound(s, i, e, name) :: Dir(s, i)[Key(name)] == EntryInum(s, i, e)
  {
    hide EntryInum, EntryKey, DirUpTo, Key;
    DirBindings(s, i, Entries(s, i));
    if Key(name) in Dir(s, i) {
      var e: nat :| e < Entries(s, i) && Live(s, i, e) && EntryKey(s, i, e) == Key(name);
      assert Bound(s, i, e, name);
    }
  }

  /** The first matching entry of a directory block, or 32. */
  method ScanBlock(b: Block, name: seq<byte>) returns (d: nat)
    ensures d <= PERBLOCK && forall c: nat | c < d :: !Matches(DirentOf(b, c), name)
    ensures d < PERBLOCK ==> Matches(DirentOf(b, d), name)
  {
    hide Key, DirentInum;
    d := 0;
    while d < PERBLOCK
      invariant d <= PERBLOCK && forall c: nat | c < d :: !Matches(DirentOf(b, c), name)
    {
      var de := b[DIRENT * d..DIRENT * d + DIRENT];
      if DirentInum(de) != 0 {
        var c := Namecmp(name, de[2..]);
        if c == 0 {
          return;
        }
      }
      d := d + 1;
    }
  }

  lemma SameEntries(s: Store, t: Store, i: nat)
    requires i < |s.ino| && SameShape(s, t) && SameBytes(s, t)
    ensures forall e: nat | e < MAXENTRY :: EntryInum(t, i, e) == EntryInum(s, i, e)
                                            && EntryKey(t, i, e) == EntryKey(s, i, e)
  {
    hide Store.ByteAt;
    forall e: nat | e < MAXENTRY ensures EntryName(t, i, e) == EntryName(s, i, e) {}
  }

  /** An entry past the size is not in use, because its bytes are zero. */
  lemma DeadPastSize(s: Store, i: nat, e: nat)
    requires i < |s.ino| && Tidy(s, i) && s.ino[i].size <= DIRENT * e && e < MAXENTRY
    ensures EntryInum(s, i, e) == 0
  {}

  /** Looks for a name block by block, to the end of the last block; gives inode number and byte
      offset. The blocks are mapped on the way; hi bounds the blocks the caller will need. */
  method Dirlookup(fs: Fs, i: nat, name: seq<byte>, ghost hi: nat) returns (r: Option<(nat, nat)>)
    requires fs.Valid() && i < fs.inode.Length && DirOk(fs.View(), i)
    requires BlocksTo(fs.inode[i].size) <= hi <= MAXFILE && Slack(fs.View(), i, 0, hi) >= 0
    modifies fs.disk, fs.inode, fs`own
    ensures fs.Valid() && Extends(old(fs.View()), fs.View(), i)
    ensures r.Some? <==> Key(name) in Dir(old(fs.View()), i)
    ensures r.Some? ==> r.value.1 % DIRENT == 0 && r.value.1 < old(fs.inode[i].size)
                        && Bound(old(fs.View()), i, r.value.1 / DIRENT, name)
                        && r.value.0 == Dir(old(fs.View()), i)[Key(name)]
    ensures |fs.View().Free()| >= Slack(old(fs.View()), i, 0, hi)
    ensures r.None? ==> Slack(fs.View(), i, BlocksTo(fs.inode[i].size), hi) == Slack(old(fs.View()), i, 0, hi)
                        && forall bn: nat | bn < BlocksTo(fs.inode[i].size) :: fs.View().Slot(i, BnSlot(bn)) != 0
  {
    hide Store.Owned, Store.Marked, Store.Slot, Store.ByteAt, EntryInum, EntryKey, Need, Dir, Bound, Matches, Key;
    hide Store.Free;
    hide Extends, DirOk;
    ghost var s0 := fs.View();
    BoundInDir(s0, i, name);
    ExtendsNone(s0, i);
    DirSize(s0, i);
    var bn := 0;
    while BSIZE * bn < fs.inode[i].size
      invariant bn <= BlocksTo(s0.ino[i].size)
      invariant fs.Valid() && Extends(s0, fs.View(), i) && fs.inode[i].size == s0.ino[i].size
      invariant Slack(fs.View(), i, bn, hi) == Slack(s0, i, 0, hi)
      invariant forall c: nat | c < bn :: fs.View().Slot(i, BnSlot(c)) != 0
      invariant forall e: nat | e < PERBLOCK * bn :: !Bound(s0, i, e, name)
    {
      ghost var s := fs.View();
      var addr := fs.BmapNext(i, bn, hi);
      MappedMore(s, fs.View(), i, bn);
      ExtendsThen(s0, s, fs.View(), i);
      var bp := fs.disk[addr];
      var d := ScanBlock(bp, name);
      BlockScanned(s0, fs.View(), i, bn, d, name);
      if d < PERBLOCK {
        return Some((DirentInum(bp[DIRENT * d..DIRENT * d + DIRENT]), BSIZE * bn + DIRENT * d));
      }
      bn := bn + 1;
    }
    ScannedAll(s0, i, bn, name);
    r := None;
  }

  /** When all blocks have been scanned, no entry is bound. */
  lemma ScannedAll(s: Store, i: nat, bn: nat, name: seq<byte>)
    requires i < |s.ino| && s.ino[i].size <= MAXBYTES && s.ino[i].size <= BSIZE * bn && PERBLOCK * bn <= MAXENTRY
    requires forall e: nat | e < PERBLOCK * bn :: !Bound(s, i, e, name)
    ensures forall e: nat | e < Entries(s, i) :: !Bound(s, i, e, name)
  {
    hide Bound;
    assert Entries(s, i) <= PERBLOCK * bn;
  }

  lemma DirSize(s: Store, i: nat)
    requires i < |s.ino| && DirOk(s, i)
    ensures s.ino[i].size <= MAXBYTES && s.ino[i].size % DIRENT == 0
  {}

  /** Blocks that are mapped stay mapped. */
  lemma MappedMore(s: Store, t: Store, i: nat, bn: nat)
    requires i < |s.ino| && Extends(s, t, i) && bn < MAXFILE && t.Slot(i, BnSlot(bn)) != 0
    ensures forall c: nat | c < bn && s.Slot(i, BnSlot(c)) != 0 :: t.Slot(i, BnSlot(c)) != 0
  {
    hide Store.Slot, Store.ByteAt;
  }

  /** What scanning block bn says about the entries of the directory. */
  lemma BlockScanned(s: Store, t: Store, i: nat, bn: nat, d: nat, name: seq<byte>)
    requires i < |s.ino| && Extends(s, t, i) && DirOk(s, i) && bn < MAXFILE && d <= PERBLOCK
    requires 0 < t.Slot(i, BnSlot(bn)) < |t.disk|
    requires forall c: nat | c < d :: !Matches(DirentOf(t.disk[t.Slot(i, BnSlot(bn))], c), name)
    requires d < PERBLOCK ==> Matches(DirentOf(t.disk[t.Slot(i, BnSlot(bn))], d), name)
    ensures forall e: nat | PERBLOCK * bn <= e < PERBLOCK * bn + d :: !Bound(s, i, e, name)
    ensures d < PERBLOCK ==>
              var e := PERBLOCK * bn + d;
              Bound(s, i, e, name) && e < Entries(s, i)
              && EntryInum(s, i, e) == DirentInum(DirentOf(t.disk[t.Slot(i, BnSlot(bn))], d))
  {
    hide Store.ByteAt, Store.Slot, EntryInum, EntryKey, Matches, DirentOf;
    SameEntries(s, t, i);
    forall e: nat | PERBLOCK * bn <= e < PERBLOCK * bn + d ensures !Bound(s, i, e, name) {
      EntryInBlock(t, i, bn, e - PERBLOCK * bn, name);
    }
    if d < PERBLOCK {
      EntryInBlock(t, i, bn, d, name);
      var e := PERBLOCK * bn + d;
      if e >= Entries(s, i) { DeadPastSize(s, i, e); }
    }
  }

  // ----- adding and removing entries -----

  /** Everything about the inodes other than i is as before. */
  ghost predicate OthersSame(s: Store, t: Store, i: nat)
    requires i < |s.ino|
  {
    && SameShape(s, t)
    && (forall j: nat | j < |s.ino| && j != i :: t.ino[j] == s.ino[j])
    && (forall j: nat, p: nat | j < |s.ino| && j != i && p < MAXBYTES :: t.ByteAt(j, p) == s.ByteAt(j, p))
  }

  lemma {:induction false} MappedNoHoles(s: Store, i: nat, lo: nat, hi: nat)
    requires i < |s.ino| && hi <= MAXFILE && forall bn: nat | lo <= bn < hi :: s.Slot(i, BnSlot(bn)) != 0
    ensures Holes(s, i, lo, hi) == 0
    decreases hi - lo
  {
    if lo < hi { MappedNoHoles(s, i, lo + 1, hi); }
  }

  /** Blocks that are mapped need no allocation. */
  lemma MappedNoNeed(s: Store, i: nat, lo: nat, hi: nat)
    requires i < |s.ino| && hi <= MAXFILE && forall bn: nat | lo <= bn < hi :: s.Slot(i, BnSlot(bn)) != 0
    ensures Need(s, i, lo, hi) == 0
  {
    MappedNoHoles(s, i, lo, hi);
    if lo < hi && NDIRECT < hi { assert s.Slot(i, BnSlot(hi - 1)) != 0; }
  }

  /** Once the blocks below the size are mapped, transferring one entry there needs none. */
  lemma EntryMapped(s: Store, i: nat, off: nat)
    requires i < |s.ino| && s.ino[i].size <= MAXBYTES && off % DIRENT == 0 && off + DIRENT <= s.ino[i].size
    requires forall bn: nat | bn < BlocksTo(s.ino[i].size) :: s.Slot(i, BnSlot(bn)) != 0
    ensures NeedFor(s, i, off, off + DIRENT) == 0
  {
    hide Need, Store.Slot;
    NextBlock(off, off + DIRENT);
    MappedNoNeed(s, i, off / BSIZE, BlocksTo(off + DIRENT));
  }

  /** The blocks that a directory with one more entry reaches. */
  function LinkBlocks(size: nat): (r: nat)
    requires size <= MAXBYTES
    ensures r <= MAXFILE
  {
    BlocksTo(size + Clamp(size, DIRENT, MAXBYTES))
  }

  lemma AppendSlack(s: Store, i: nat)
    requires s.Wf() && i < |s.ino| && s.ino[i].size % DIRENT == 0 && s.ino[i].size <= MAXBYTES
    requires forall bn: nat | bn < BlocksTo(s.ino[i].size) :: s.Slot(i, BnSlot(bn)) != 0
    ensures BlocksTo(s.ino[i].size) <= LinkBlocks(s.ino[i].size) <= MAXFILE
    ensures var z := s.ino[i].size; var m := Clamp(z, DIRENT, MAXBYTES);
            z + m <= MAXBYTES && SlackAt(s, i, z, z + m) >= Slack(s, i, BlocksTo(z), LinkBlocks(z))
  {
    hide Need, Store.Slot, Store.Free;
    var z := s.ino[i].size;
    if z < MAXBYTES && z % BSIZE != 0 {
      MappedNoNeed(s, i, z / BSIZE, LinkBlocks(z));
    }
  }

  ghost predicate Mapped(s: Store, i: nat)
    requires i < |s.ino| && s.ino[i].size <= MAXBYTES
  {
    forall bn: nat | bn < BlocksTo(s.ino[i].size) :: s.Slot(i, BnSlot(bn)) != 0
  }

  /** The offset of the first entry not in use, or the size. */
  method FindFree(fs: Fs, i: nat) returns (off: nat)
    requires fs.Valid() && i < fs.inode.Length && DirOk(fs.View(), i) && Mapped(fs.View(), i)
    modifies fs.disk, fs.inode, fs`own
    ensures fs.Valid() && fs.View() == old(fs.View())
    ensures off <= fs.inode[i].size && off % DIRENT == 0
    ensures forall e: nat | e < off / DIRENT :: Live(fs.View(), i, e)
    ensures off < fs.inode[i].size ==> !Live(fs.View(), i, off / DIRENT)
  {
    hide Store.Owned, Store.Marked, Store.Slot, Store.ByteAt, Store.Free, EntryInum, NeedFor, DirentInum;
    ghost var s := fs.View();
    off := 0;
    while off < fs.inode[i].size
      invariant off <= fs.inode[i].size && off % DIRENT == 0
      invariant fs.Valid() && fs.View() == s
      invariant forall e: nat | e < off / DIRENT :: Live(s, i, e)
    {
      EntryMapped(s, i, off);
      var n, de := fs.Readi(i, off, DIRENT);
      EntryRead(s, i, off / DIRENT, de);
      if DirentInum(de) == 0 {
        return;
      }
      off := off + DIRENT;
    }
  }

  datatype LinkResult = Linked | Exists | Halt

  /** Adds the entry (name, inum). Halt is the kernel's panic when no entry fits. */
  method Dirlink(fs: Fs, i: nat, name: seq<byte>, inum: nat) returns (r: LinkResult)
    requires fs.Valid() && i < fs.inode.Length && DirOk(fs.View(), i) && inum < UINT
    requires Slack(fs.View(), i, 0, LinkBlocks(fs.inode[i].size)) >= 0
    modifies fs.disk, fs.inode, fs`own
    ensures fs.Valid() && OthersSame(old(fs.View()), fs.View(), i) && DirOk(fs.View(), i)
    ensures r == Exists <==> Key(name) in Dir(old(fs.View()), i)
    ensures r == Halt <==> Key(name) !in Dir(old(fs.View()), i) && old(fs.inode[i].size) == MAXBYTES
                           && forall e: nat | e < MAXENTRY :: Live(old(fs.View()), i, e)
    ensures Dir(fs.View(), i) == if r == Linked && inum % 0x1_0000 != 0
                                 then Dir(old(fs.View()), i)[Key(name) := inum % 0x1_0000]
                                 else Dir(old(fs.View()), i)
  {
    hide Store.Owned, Store.Marked, Store.Slot, Store.ByteAt, Store.Free, EntryInum, EntryKey, Need, Dir, Bound, Key;
    hide NeedFor;
    ghost var s0 := fs.View();
    var size := fs.inode[i].size;
    BlocksGrow(size);
    var p := Dirlookup(fs, i, name, LinkBlocks(size));
    ghost var s1 := fs.View();
    ExtendedDir(s0, s1, i);
    if p.Some? {
      return Exists;
    }
    AppendSlack(s1, i);
    var off := FindFree(fs, i);
    r := AddEntry(fs, i, name, inum, off);
  }

  lemma BlocksGrow(size: nat)
    requires size <= MAXBYTES && size % DIRENT == 0
    ensures BlocksTo(size) <= LinkBlocks(size) <= MAXFILE
  {}

  /** Writes the entry (name, inum) at the offset of an entry not in use. */
  method AddEntry(fs: Fs, i: nat, name: seq<byte>, inum: nat, off: nat) returns (r: LinkResult)
    requires fs.Valid() && i < fs.inode.Length && DirOk(fs.View(), i) && inum < UINT && Mapped(fs.View(), i)
    requires off <= fs.inode[i].size && off % DIRENT == 0
    requires off < fs.inode[i].size ==> !Live(fs.View(), i, off / DIRENT)
    requires off == fs.inode[i].size ==> SlackAt(fs.View(), i, off, off + Clamp(off, DIRENT, MAXBYTES)) >= 0
    requires Key(name) !in Dir(fs.View(), i)
    modifies fs.disk, fs.inode, fs`own
    ensures fs.Valid() && OthersSame(old(fs.View()), fs.View(), i) && DirOk(fs.View(), i)
    ensures r == if off == MAXBYTES then Halt else Linked
    ensures Dir(fs.View(), i) == if r == Linked && inum % 0x1_0000 != 0
                                 then Dir(old(fs.View()), i)[Key(name) := inum % 0x1_0000]
                                 else Dir(old(fs.View()), i)
  {
    hide Store.Owned, Store.Marked, Store.Slot, Store.ByteAt, Store.Free, EntryInum, EntryKey, Dir, Key, NeedFor;
    hide DirOk, Written, Mapped, EntriesBut;
    ghost var s := fs.View();
    LinkRoom(s, i, off);
    var nm := Strncpy(name);
    var de := [inum % 0x100, inum / 0x100 % 0x100] + nm;
    DirentIs(inum, nm);
    var n := fs.Writei(i, de, off);
    if n != DIRENT {
      assert de[..n] == [];
      NothingWritten(s, fs.View(), i, off);
      return Halt;
    }
    assert de[..n] == de;
    EntryLinked(s, fs.View(), i, off, de);
    r := Linked;
  }

  /** There is room for an entry at the offset of one not in use, but at the end of the largest
      directory. */
  lemma LinkRoom(s: Store, i: nat, off: nat)
    requires s.Wf() && i < |s.ino| && DirOk(s, i) && Mapped(s, i) && off <= s.ino[i].size && off % DIRENT == 0
    requires off < s.ino[i].size ==> !Live(s, i, off / DIRENT)
    requires off == s.ino[i].size ==> SlackAt(s, i, off, off + Clamp(off, DIRENT, MAXBYTES)) >= 0
    ensures s.ino[i].size <= MAXBYTES && off + Clamp(off, DIRENT, MAXBYTES) <= MAXBYTES
    ensures SlackAt(s, i, off, off + Clamp(off, DIRENT, MAXBYTES)) >= 0
    ensures Clamp(off, DIRENT, MAXBYTES) == if off == MAXBYTES then 0 else DIRENT
    ensures off < MAXBYTES ==> off / DIRENT <= Entries(s, i) && off / DIRENT < MAXENTRY && !Live(s, i, off / DIRENT)
    ensures DIRENT * (off / DIRENT) == off
  {
    hide NeedFor, Store.Free, EntryInum, Store.ByteAt;
    if off < s.ino[i].size { EntryMapped(s, i, off); } else if off < MAXBYTES { DeadPastSize(s, i, off / DIRENT); }
  }

  /** The bytes of an entry: number and name. */
  lemma DirentIs(inum: nat, nm: seq<byte>)
    requires |nm| == DIRSIZ && inum < UINT
    ensures var de := [inum % 0x100, inum / 0x100 % 0x100] + nm;
            |de| == DIRENT && de[2..] == nm && DirentInum(de) == inum % 0x1_0000
  {
    TwoBytes(inum);
  }

  /** The two low bytes of a number. */
  lemma TwoBytes(x: nat)
    ensures x % 0x100 + 256 * (x / 0x100 % 0x100) == x % 0x1_0000
  {
    var q := x / 0x100;
    var low := x % 0x100 + 256 * (q % 0x100);
    assert x == 0x1_0000 * (q / 0x100) + low && low < 0x1_0000;
  }

  lemma EntryLinked(s: Store, t: Store, i: nat, off: nat, de: seq<byte>)
    requires i < |s.ino| && DirOk(s, i) && off % DIRENT == 0 && off / DIRENT <= Entries(s, i) && off / DIRENT < MAXENTRY
    requires !Live(s, i, off / DIRENT) && |de| == DIRENT && Key(de[2..]) !in Dir(s, i) && Written(s, t, i, off, de)
    ensures DirOk(t, i) && OthersSame(s, t, i)
    ensures Dir(t, i) == if DirentInum(de) != 0 then Dir(s, i)[Key(de[2..]) := DirentInum(de)] else Dir(s, i)
  {
    hide EntryInum, EntryKey, Store.ByteAt, Key, DirentInum;
    LinkedDir(s, t, i, off / DIRENT, de);
  }

  lemma NothingWritten(s: Store, t: Store, i: nat, off: nat)
    requires i < |s.ino| && Written(s, t, i, off, []) && DirOk(s, i)
    ensures DirOk(t, i) && Dir(t, i) == Dir(s, i) && OthersSame(s, t, i)
  {
    hide EntryInum, EntryKey, Store.ByteAt;
    SameEntries(s, t, i);
    DirSame(s, t, i, Entries(s, i), Entries(s, i));
  }

  lemma ExtendedDir(s: Store, t: Store, i: nat)
    requires i < |s.ino| && Extends(s, t, i) && DirOk(s, i)
    ensures DirOk(t, i) && Dir(t, i) == Dir(s, i) && OthersSame(s, t, i)
    ensures forall e: nat | e < MAXENTRY :: Live(t, i, e) == Live(s, i, e) && EntryKey(t, i, e) == EntryKey(s, i, e)
  {
    hide EntryInum, EntryKey, Store.ByteAt;
    SameEntries(s, t, i);
    DirSame(s, t, i, Entries(s, i), Entries(s, i));
  }

  /** The block of an entry in use is mapped, since unmapped blocks read as zero. */
  lemma LiveMapped(s: Store, i: nat, e: nat)
    requires i < |s.ino| && e < MAXENTRY && Live(s, i, e)
    ensures NeedFor(s, i, DIRENT * e, DIRENT * e + DIRENT) == 0
  {
    hide Need;
    NextBlock(DIRENT * e, DIRENT * e + DIRENT);
    var bn := DIRENT * e / BSIZE;
    assert (DIRENT * e + 1) / BSIZE == bn && BlocksTo(DIRENT * e + DIRENT) == bn + 1;
    assert s.Slot(i, BnSlot(bn)) != 0;
    MappedNoNeed(s, i, bn, bn + 1);
  }

  /** Removes the entry of a name, as unlinking does: looks it up and overwrites it with zeros.
      The names "." and ".." are refused. */
  method EraseEntry(fs: Fs, i: nat, name: seq<byte>) returns (ok: bool)
    requires fs.Valid() && i < fs.inode.Length && DirOk(fs.View(), i)
    requires Slack(fs.View(), i, 0, LinkBlocks(fs.inode[i].size)) >= 0
    modifies fs.disk, fs.inode, fs`own
    ensures fs.Valid() && OthersSame(old(fs.View()), fs.View(), i) && DirOk(fs.View(), i)
    ensures ok <==> Key(name) in Dir(old(fs.View()), i) && Key(name) != Key([46]) && Key(name) != Key([46, 46])
    ensures Dir(fs.View(), i) == if ok then Dir(old(fs.View()), i) - {Key(name)} else Dir(old(fs.View()), i)
  {
    hide Store.Owned, Store.Marked, Store.Slot, Store.ByteAt, Store.Free, EntryInum, EntryKey, Need, Dir, Key, NeedFor;
    ghost var s0 := fs.View();
    var dot := Namecmp(name, [46]);
    var dotdot := Namecmp(name, [46, 46]);
    if dot == 0 || dotdot == 0 {
      return false;
    }
    BlocksGrow(fs.inode[i].size);
    var p := Dirlookup(fs, i, name, LinkBlocks(fs.inode[i].size));
    ghost var s1 := fs.View();
    ExtendedDir(s0, s1, i);
    if p.None? {
      return false;
    }
    var off := p.value.1;
    LiveMapped(s1, i, off / DIRENT);
    var de := seq(DIRENT, _ => 0);
    var n := fs.Writei(i, de, off);
    assert de[..n] == de;
    ClearedDir(s1, fs.View(), i, off / DIRENT);
    ok := true;
  }

  lemma EntryRead(s: Store, i: nat, e: nat, de: seq<byte>)
    requires i < |s.ino| && DIRENT * e + DIRENT <= s.ino[i].size <= MAXBYTES
    requires de == Contents(s, i)[DIRENT * e..DIRENT * e + DIRENT]
    ensures EntryInum(s, i, e) == DirentInum(de)
  {}
}
