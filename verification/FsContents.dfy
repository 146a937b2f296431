/** What an inode holds, as a byte sequence and, for a directory, as a finite map from names
    to inode numbers. */
module FsContents {
  import opened FsLayout
  import opened FsStore
  import opened FsNames
  import opened FileSystem

  /** Writing src at off splices src into the contents, extending them if need be. */
  lemma WrittenContents(s: Store, t: Store, i: nat, off: nat, src: seq<byte>)
    requires i < |s.ino| && Written(s, t, i, off, src) && Tidy(s, i)
    requires off <= s.ino[i].size && off + |src| <= MAXBYTES
    ensures Tidy(t, i)
    ensures var c := Contents(s, i);
            Contents(t, i) == c[..off] + src + if off + |src| < |c| then c[off + |src|..] else []
    ensures src != [] ==> Contents(t, i)[off..off + |src|] == src
  {
    hide Store.ByteAt;
  }

  /** Writing to inode i leaves the contents of every other inode alone. */
  lemma WrittenOthers(s: Store, t: Store, i: nat, off: nat, src: seq<byte>, j: nat)
    requires i < |s.ino| && Written(s, t, i, off, src) && j < |s.ino| && j != i && s.ino[j].size <= MAXBYTES
    ensures t.ino[j] == s.ino[j] && Contents(t, j) == Contents(s, j) && (Tidy(s, j) ==> Tidy(t, j))
  {
    hide Store.ByteAt;
    assert forall p: nat | p < MAXBYTES :: t.ByteAt(j, p) == s.ByteAt(j, p);
    assert Contents(t, j) == Contents(s, j);
  }

  /** Mapping blocks and reading leave the contents of every inode alone. */
  lemma ExtendedContents(s: Store, t: Store, i: nat, j: nat)
    requires i < |s.ino| && Extends(s, t, i) && j < |s.ino| && s.ino[j].size <= MAXBYTES
    ensures t.ino[j].size == s.ino[j].size && Contents(t, j) == Contents(s, j) && (Tidy(s, j) ==> Tidy(t, j))
  {
    hide Store.ByteAt;
    assert Contents(t, j) == Contents(s, j);
  }

  // ----- directories -----

  const DIRENT: nat := 16
  const MAXENTRY: nat := 4480   // directory entries that fit in the largest file

  function EntryInum(s: Store, i: nat, e: nat): nat
    requires i < |s.ino| && e < MAXENTRY
  {
    s.ByteAt(i, DIRENT * e) as int + 256 * s.ByteAt(i, DIRENT * e + 1)
  }

  function EntryName(s: Store, i: nat, e: nat): seq<byte>
    requires i < |s.ino| && e < MAXENTRY
  {
    seq<byte>(DIRSIZ, q requires 0 <= q < DIRSIZ => s.ByteAt(i, DIRENT * e + 2 + q))
  }

  /** Entry e is in use. */
  predicate Live(s: Store, i: nat, e: nat)
    requires i < |s.ino| && e < MAXENTRY
  {
    EntryInum(s, i, e) != 0
  }

  function EntryKey(s: Store, i: nat, e: nat): seq<byte>
    requires i < |s.ino| && e < MAXENTRY
  {
    Key(EntryName(s, i, e))
  }

  /** The bindings of the first n entries of directory i. */
  function DirUpTo(s: Store, i: nat, n: nat): map<seq<byte>, nat>
    requires i < |s.ino| && n <= MAXENTRY
  {
    if n == 0 then map[]
    else
      var m := DirUpTo(s, i, n - 1);
      if Live(s, i, n - 1) then m[EntryKey(s, i, n - 1) := EntryInum(s, i, n - 1)] else m
  }

  function Entries(s: Store, i: nat): nat
    requires i < |s.ino|
  {
    s.ino[i].size / DIRENT
  }

  /** No two entries in use have the same name. */
  ghost predicate UniqueNames(s: Store, i: nat, n: nat)
    requires i < |s.ino| && n <= MAXENTRY
  {
    forall e: nat, f: nat | e < f < n && Live(s, i, e) && Live(s, i, f) :: EntryKey(s, i, e) != EntryKey(s, i, f)
  }

  /** What the kernel keeps true of every directory. */
  ghost predicate DirOk(s: Store, i: nat)
    requires i < |s.ino|
  {
    && s.ino[i].typ == T_DIR && Tidy(s, i) && s.ino[i].size % DIRENT == 0
    && UniqueNames(s, i, Entries(s, i))
  }

  /** A directory as a finite map from names to inode numbers. */
  function Dir(s: Store, i: nat): map<seq<byte>, nat>
    requires i < |s.ino| && s.ino[i].size <= MAXBYTES
  {
    DirUpTo(s, i, Entries(s, i))
  }

  /** The map has exactly the bindings of the entries in use. */
  lemma {:induction false} DirBindings(s: Store, i: nat, n: nat)
    requires i < |s.ino| && n <= MAXENTRY && UniqueNames(s, i, n)
    ensures forall e: nat | e < n && Live(s, i, e) ::
              EntryKey(s, i, e) in DirUpTo(s, i, n) && DirUpTo(s, i, n)[EntryKey(s, i, e)] == EntryInum(s, i, e)
    ensures forall k | k in DirUpTo(s, i, n) :: exists e: nat :: e < n && Live(s, i, e) && EntryKey(s, i, e) == k
  {
    hide Store.ByteAt, EntryKey, EntryInum;
    if n > 0 {
      DirBindings(s, i, n - 1);
    }
  }

  /** The inode number in the 16 bytes of a directory entry. */
  function DirentInum(de: seq<byte>): nat
    requires |de| == DIRENT
  {
    de[0] as int + 256 * (de[1] as int)
  }

  /** Writing 16 bytes at entry f replaces that entry and no other. */
  lemma WrittenEntry(s: Store, t: Store, i: nat, f: nat, de: seq<byte>, e: nat)
    requires i < |s.ino| && f < MAXENTRY && e < MAXENTRY && |de| == DIRENT
    requires Written(s, t, i, DIRENT * f, de)
    ensures EntryInum(t, i, e) == if e == f then DirentInum(de) else EntryInum(s, i, e)
    ensures EntryName(t, i, e) == if e == f then de[2..] else EntryName(s, i, e)
  {
    hide Store.ByteAt;
    assert forall q: nat | q < DIRENT :: t.ByteAt(i, DIRENT * e + q) == if e == f then de[q]
                                         else s.ByteAt(i, DIRENT * e + q);
    assert EntryName(t, i, e) == if e == f then de[2..] else EntryName(s, i, e);
  }

  /** Entries below n are the same in s and t, except entry f. */
  ghost predicate EntriesBut(s: Store, t: Store, i: nat, n: nat, f: nat)
    requires i < |s.ino| && i < |t.ino| && n <= MAXENTRY
  {
    forall e: nat | e < n && e != f :: EntryInum(t, i, e) == EntryInum(s, i, e)
                                       && EntryKey(t, i, e) == EntryKey(s, i, e)
  }

  lemma {:induction false} DirSame(s: Store, t: Store, i: nat, n: nat, f: nat)
    requires i < |s.ino| && i < |t.ino| && n <= f && n <= MAXENTRY && EntriesBut(s, t, i, n, f)
    ensures DirUpTo(t, i, n) == DirUpTo(s, i, n)
  {
    hide EntryInum, EntryKey;
    if n > 0 { DirSame(s, t, i, n - 1, f); }
  }

  /** Filling the unused entry f adds one binding, when its name is new. */
  lemma {:induction false} DirInsert(s: Store, t: Store, i: nat, n: nat, f: nat)
    requires i < |s.ino| && i < |t.ino| && f < n <= MAXENTRY && EntriesBut(s, t, i, n, f)
    requires !Live(s, i, f) && EntryKey(t, i, f) !in DirUpTo(s, i, n)
    ensures DirUpTo(t, i, n) ==
              if Live(t, i, f) then DirUpTo(s, i, n)[EntryKey(t, i, f) := EntryInum(t, i, f)] else DirUpTo(s, i, n)
  {
    hide EntryInum, EntryKey;
    if f == n - 1 { DirSame(s, t, i, n - 1, f); } else { DirInsert(s, t, i, n - 1, f); }
  }

  /** Clearing entry f removes its binding. */
  lemma {:induction false} DirRemove(s: Store, t: Store, i: nat, n: nat, f: nat)
    requires i < |s.ino| && i < |t.ino| && f < n <= MAXENTRY && EntriesBut(s, t, i, n, f)
    requires Live(s, i, f) && !Live(t, i, f) && UniqueNames(s, i, n)
    ensures DirUpTo(t, i, n) == DirUpTo(s, i, n) - {EntryKey(s, i, f)}
  {
    hide EntryInum, EntryKey;
    if f == n - 1 {
      DirSame(s, t, i, n - 1, f);
      DirBindings(s, i, n - 1);
    } else {
      DirRemove(s, t, i, n - 1, f);
    }
  }

  lemma UniqueAfter(s: Store, t: Store, i: nat, n: nat, f: nat)
    requires i < |s.ino| && i < |t.ino| && f < n <= MAXENTRY && EntriesBut(s, t, i, n, f) && UniqueNames(s, i, n)
    requires Live(t, i, f) ==> EntryKey(t, i, f) !in DirUpTo(s, i, n)
    ensures UniqueNames(t, i, n)
  {
    hide EntryInum, EntryKey, DirUpTo;
    DirBindings(s, i, n);
  }

  /** The effect of a directory entry written into an unused place: one new binding. */
  lemma LinkedDir(s: Store, t: Store, i: nat, f: nat, de: seq<byte>)
    requires i < |s.ino| && DirOk(s, i) && f <= Entries(s, i) && f < MAXENTRY && !Live(s, i, f)
    requires |de| == DIRENT && Key(de[2..]) !in Dir(s, i) && Written(s, t, i, DIRENT * f, de)
    ensures DirOk(t, i)
    ensures Dir(t, i) == if DirentInum(de) != 0 then Dir(s, i)[Key(de[2..]) := DirentInum(de)] else Dir(s, i)
  {
    hide Store.ByteAt, EntryInum, EntryName, DirentInum, Key;
    WrittenContents(s, t, i, DIRENT * f, de);
    var n := Entries(t, i);
    assert n == if f == Entries(s, i) then f + 1 else Entries(s, i);
    forall e: nat | e < n
      ensures e != f ==> EntryInum(t, i, e) == EntryInum(s, i, e) && EntryKey(t, i, e) == EntryKey(s, i, e)
      ensures e == f ==> EntryInum(t, i, e) == DirentInum(de) && EntryKey(t, i, e) == Key(de[2..])
    {
      WrittenEntry(s, t, i, f, de, e);
    }
    assert DirUpTo(s, i, n) == Dir(s, i);
    DirInsert(s, t, i, n, f);
    UniqueAfter(s, t, i, n, f);
  }

  /** The effect of clearing a directory entry in use: its binding is gone. */
  lemma ClearedDir(s: Store, t: Store, i: nat, f: nat)
    requires i < |s.ino| && DirOk(s, i) && f < Entries(s, i) && Live(s, i, f)
    requires Written(s, t, i, DIRENT * f, seq(DIRENT, _ => 0))
    ensures DirOk(t, i) && Dir(t, i) == Dir(s, i) - {EntryKey(s, i, f)}
  {
    hide Store.ByteAt, EntryInum, EntryName, Key;
    var de := seq(DIRENT, _ => 0);
    WrittenContents(s, t, i, DIRENT * f, de);
    var n := Entries(t, i);
    forall e: nat | e < n
      ensures e != f ==> EntryInum(t, i, e) == EntryInum(s, i, e) && EntryKey(t, i, e) == EntryKey(s, i, e)
      ensures e == f ==> EntryInum(t, i, e) == 0
    {
      WrittenEntry(s, t, i, f, de, e);
    }
    DirRemove(s, t, i, n, f);
    UniqueAfter(s, t, i, n, f);
  }
}
