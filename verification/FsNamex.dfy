/** Looking up a whole path: the directories on the way, as maps, are followed one by one. */
module FsNamex {
  import opened Wrappers
  import opened FsLayout
  import opened FsStore
  import opened FsNames
  import opened FileSystem
  import opened FsContents
  import opened FsDirectory
  import opened FsPath

  const ROOTINO: nat := 1

  predicate IsDir(s: Store, i: nat) { i < |s.ino| && s.ino[i].typ == T_DIR && s.ino[i].size <= MAXBYTES }

  /** Inode i is a directory that has the name. */
  predicate Has(s: Store, i: nat, name: seq<byte>) { IsDir(s, i) && Key(name) in Dir(s, i) }

  /** The inode that the names lead to from inode i, if every one but the last is found to be a
      directory. */
  function Walk(s: Store, i: nat, names: seq<seq<byte>>): Option<nat>
    decreases |names|
  {
    if names == [] then Some(i)
    else if Has(s, i, names[0]) then Walk(s, Dir(s, i)[Key(names[0])], names[1..])
    else None
  }

  /** The directory that has or would get the last of the names. */
  function WalkParent(s: Store, i: nat, names: seq<seq<byte>>): Option<nat> {
    if names == [] then None
    else
      var p := Walk(s, i, names[..|names| - 1]);
      if p.Some? && IsDir(s, p.value) then p else None
  }

  /** Following names one after the other is following the directory maps one after the other. */
  lemma {:induction false} WalkThen(s: Store, i: nat, a: seq<seq<byte>>, b: seq<seq<byte>>)
    ensures Walk(s, i, a + b) == if Walk(s, i, a).Some? then Walk(s, Walk(s, i, a).value, b) else None
    decreases |a|
  {
    if a == [] {
      assert a + b == b;
    } else {
      assert (a + b)[0] == a[0] && (a + b)[1..] == a[1..] + b;
      if Has(s, i, a[0]) { WalkThen(s, Dir(s, i)[Key(a[0])], a[1..], b); }
    }
  }

  /** One name: what the directory maps it to. */
  lemma WalkSingle(s: Store, i: nat, name: seq<byte>)
    ensures Walk(s, i, [name]) == if Has(s, i, name) then Some(Dir(s, i)[Key(name)]) else None
  {
    assert [name][1..] == [];
  }

  /** The names lead to what the directory of the last one maps it to. */
  lemma WalkFromParent(s: Store, i: nat, a: seq<seq<byte>>, name: seq<byte>)
    ensures WalkParent(s, i, a + [name]).Some? <==> Walk(s, i, a).Some? && IsDir(s, Walk(s, i, a).value)
    ensures WalkParent(s, i, a + [name]).Some? ==> WalkParent(s, i, a + [name]) == Walk(s, i, a)
    ensures Walk(s, i, a + [name]) ==
            var p := WalkParent(s, i, a + [name]);
            if p.Some? && Has(s, p.value, name) then Some(Dir(s, p.value)[Key(name)]) else None
  {
    hide Walk, Dir, Key;
    WalkThen(s, i, a, [name]);
    assert (a + [name])[..|a|] == a;
    if Walk(s, i, a).Some? { WalkSingle(s, Walk(s, i, a).value, name); }
  }

  lemma ParentNext(s: Store, i: nat, names: seq<seq<byte>>)
    requires |names| >= 2
    ensures WalkParent(s, i, names) == if Has(s, i, names[0]) then WalkParent(s, Dir(s, i)[Key(names[0])], names[1..])
        else None
  {
    hide Dir, Key;
    var n := |names| - 1;
    assert names[..n][0] == names[0] && names[..n][1..] == names[1..][..n - 1];
  }

  // ----- directories in order -----

  /** Directories are well formed, and their entries name inodes in use. */
  ghost predicate DirsOk(s: Store) {
    forall i: nat | i < |s.ino| && s.ino[i].typ == T_DIR :: DirOk(s, i) && Targets(s, i)
  }

  ghost predicate Targets(s: Store, i: nat)
    requires i < |s.ino| && s.ino[i].size <= MAXBYTES
  {
    forall k | k in Dir(s, i) :: Dir(s, i)[k] < |s.ino| && s.ino[Dir(s, i)[k]].typ != 0
  }

  /** Blocks of holes may have been allocated; nothing that can be read has changed. */
  ghost predicate MoreMapped(s: Store, t: Store) {
    && SameShape(s, t) && SameBytes(s, t)
    && (forall j: nat | j < |s.ino| :: t.ino[j].typ == s.ino[j].typ && t.ino[j].size == s.ino[j].size)
    && (forall j: nat, l: nat | j < |s.ino| && l < NSLOT && s.Slot(j, l) != 0 :: t.Slot(j, l) == s.Slot(j, l))
  }

  lemma MappedNone(s: Store)
    requires s.Wf()
    ensures MoreMapped(s, s)
  {}

  lemma MappedThen(s: Store, t: Store, u: Store, i: nat)
    requires MoreMapped(s, t) && i < |t.ino| && Extends(t, u, i)
    ensures MoreMapped(s, u) && MoreMapped(t, u)
  {
    hide Store.ByteAt, Store.Slot;
    assert forall j: nat | j < |t.ino| :: u.ino[j].typ == t.ino[j].typ && u.ino[j].size == t.ino[j].size;
  }

  /** Directories are read as before. */
  lemma SameDir(s: Store, t: Store, i: nat)
    requires MoreMapped(s, t) && i < |s.ino| && DirOk(s, i)
    ensures DirOk(t, i) && Dir(t, i) == Dir(s, i)
  {
    hide EntryInum, EntryKey, Store.ByteAt, Store.Slot;
    SameEntries(s, t, i);
    DirSame(s, t, i, Entries(s, i), Entries(s, i));
  }

  lemma SameDirs(s: Store, t: Store)
    requires MoreMapped(s, t) && DirsOk(s)
    ensures DirsOk(t)
  {
    hide Dir, SameBytes, Store.Slot, UniqueNames;
    forall i: nat | i < |t.ino| && t.ino[i].typ == T_DIR ensures DirOk(t, i) && Targets(t, i) {
      SameDir(s, t, i);
    }
  }

  // ----- the blocks that a walk may allocate -----

  /** Blocks in holes of directory i. */
  function DirNeed(s: Store, i: nat): nat
    requires IsDir(s, i)
  {
    BlocksBound(s.ino[i].size);
    Need(s, i, 0, BlocksTo(s.ino[i].size))
  }

  lemma BlocksBound(size: nat)
    requires size <= MAXBYTES
    ensures BlocksTo(size) <= MAXFILE
  {}

  /** Blocks in holes of the directories on the way. */
  function PathNeed(s: Store, i: nat, names: seq<seq<byte>>): nat
    decreases |names|
  {
    if names == [] || !IsDir(s, i) then 0
    else DirNeed(s, i) + if Key(names[0]) in Dir(s, i) then PathNeed(s, Dir(s, i)[Key(names[0])], names[1..]) else 0
  }

  lemma {:induction false} HolesLess(s: Store, t: Store, i: nat, lo: nat, hi: nat)
    requires i < |s.ino| && i < |t.ino| && hi <= MAXFILE
    requires forall l: nat | l < NSLOT && s.Slot(i, l) != 0 :: t.Slot(i, l) != 0
    ensures Holes(t, i, lo, hi) <= Holes(s, i, lo, hi)
    decreases hi - lo
  {
    hide Store.Slot;
    if lo < hi { HolesLess(s, t, i, lo + 1, hi); }
  }

  lemma DirNeedLess(s: Store, t: Store, i: nat)
    requires MoreMapped(s, t) && IsDir(s, i)
    ensures IsDir(t, i) && DirNeed(t, i) <= DirNeed(s, i)
  {
    BlocksBound(s.ino[i].size);
    HolesLess(s, t, i, 0, BlocksTo(s.ino[i].size));
    assert s.Slot(i, NDIRECT) != 0 ==> t.Slot(i, NDIRECT) == s.Slot(i, NDIRECT);
  }

  lemma {:induction false} PathNeedLess(s: Store, t: Store, i: nat, names: seq<seq<byte>>)
    requires MoreMapped(s, t) && DirsOk(s) && i < |s.ino|
    ensures PathNeed(t, i, names) <= PathNeed(s, i, names)
    decreases |names|
  {
    hide DirNeed, Dir, DirOk, SameBytes, Store.Slot, Key;
    if names != [] && IsDir(s, i) {
      assert DirOk(s, i) && Targets(s, i);
      DirNeedLess(s, t, i);
      SameDir(s, t, i);
      if Key(names[0]) in Dir(s, i) { PathNeedLess(s, t, Dir(s, i)[Key(names[0])], names[1..]); }
    }
  }

  // ----- the walk -----

  lemma NoMore(path: seq<byte>)
    requires path == [] || path[0] != SLASH
    ensures Elements(path) == [] <==> path == []
  {}

  lemma HasSame(s: Store, t: Store, i: nat, name: seq<byte>)
    requires MoreMapped(s, t) && DirsOk(s) && i < |s.ino|
    ensures IsDir(t, i) == IsDir(s, i) == (t.ino[i].typ == T_DIR) && Has(t, i, name) == Has(s, i, name)
    ensures IsDir(s, i) ==> Dir(t, i) == Dir(s, i)
  {
    hide Dir, SameBytes, Store.Slot, Key, Targets, UniqueNames;
    if s.ino[i].typ == T_DIR {
      assert DirOk(s, i);
      SameDir(s, t, i);
    }
  }

  /** Looks the name up in directory ip. */
  method Lookup(fs: Fs, ip: nat, name: seq<byte>) returns (next: Option<nat>)
    requires fs.Valid() && DirsOk(fs.View()) && IsDir(fs.View(), ip) && DirNeed(fs.View(), ip) <= |fs.View().Free()|
    modifies fs.disk, fs.inode, fs`own
    ensures fs.Valid() && MoreMapped(old(fs.View()), fs.View()) && DirsOk(fs.View())
    ensures next == if Has(old(fs.View()), ip, name) then Some(Dir(old(fs.View()), ip)[Key(name)]) else None
    ensures next.Some? ==> next.value < fs.inode.Length
    ensures |fs.View().Free()| >= |old(fs.View()).Free()| - DirNeed(old(fs.View()), ip)
  {
    hide Store.Owned, Store.Slot, Store.ByteAt, Store.Free, Store.Marked, Key, Dir, Need, Tidy, UniqueNames, BlocksTo;
    ghost var s := fs.View();
    assert DirOk(s, ip) && Targets(s, ip);
    BlocksBound(s.ino[ip].size);
    var p := Dirlookup(fs, ip, name, BlocksTo(s.ino[ip].size));
    MappedNone(s);
    MappedThen(s, s, fs.View(), ip);
    SameDirs(s, fs.View());
    next := if p.Some? then Some(p.value.0) else None;
  }

  /** What one element of the path does to the walk and to the blocks it may still need. */
  lemma NextElement(s0: Store, s: Store, t: Store, ip: nat, name: seq<byte>, es: seq<seq<byte>>)
    requires MoreMapped(s0, s) && MoreMapped(s0, t) && MoreMapped(s, t) && DirsOk(s0) && DirsOk(s)
    requires ip < |s0.ino| && es != [] && Key(name) == Key(es[0]) && IsDir(s, ip)
    requires PathNeed(s, ip, es) <= |s.Free()| && |t.Free()| >= |s.Free()| - DirNeed(s, ip)
    ensures Has(s, ip, name) == Has(s0, ip, es[0])
    ensures !Has(s, ip, name) ==> Walk(s0, ip, es) == None && (|es| >= 2 ==> WalkParent(s0, ip, es) == None)
    ensures Has(s, ip, name) ==>
              var next := Dir(s, ip)[Key(name)];
              && next < |s0.ino| && Walk(s0, ip, es) == Walk(s0, next, es[1..])
              && (|es| >= 2 ==> WalkParent(s0, ip, es) == WalkParent(s0, next, es[1..]))
              && PathNeed(t, next, es[1..]) <= |t.Free()|
  {
    hide Store.Slot, Store.Free, Key, DirOk, Dir, SameBytes, DirNeed, WalkParent, Walk;
    HasSame(s0, s, ip, es[0]);
    WalkNext(s0, ip, es);
    if |es| >= 2 { ParentNext(s0, ip, es); }
    if Has(s, ip, name) {
      assert DirOk(s, ip) && Targets(s, ip);
      PathNeedLess(s, t, Dir(s, ip)[Key(name)], es[1..]);
    }
  }

  lemma WalkNext(s: Store, i: nat, names: seq<seq<byte>>)
    requires names != []
    ensures Walk(s, i, names) == if Has(s, i, names[0]) then Walk(s, Dir(s, i)[Key(names[0])], names[1..]) else None
  {}

  /** Where the walk starts: at the root, or at the current directory. */
  function Start(path: seq<byte>, cwd: nat): nat { if CharAt(path, 0) == SLASH then ROOTINO else cwd }

  /** Looks up a path. With nameiparent it stops at the directory that the last element belongs to,
      and leaves that element in name. */
  method Namex(fs: Fs, path: seq<byte>, nameiparent: bool, cwd: nat, name: array<byte>) returns (r: Option<nat>)
    requires fs.Valid() && DirsOk(fs.View()) && 0 !in path && name.Length == DIRSIZ
    requires ROOTINO < fs.inode.Length && cwd < fs.inode.Length
    requires PathNeed(fs.View(), Start(path, cwd), Elements(path)) <= |fs.View().Free()|
    modifies fs.disk, fs.inode, fs`own, name
    ensures fs.Valid() && MoreMapped(old(fs.View()), fs.View()) && DirsOk(fs.View())
    ensures r == if nameiparent then WalkParent(old(fs.View()), Start(path, cwd), Elements(path))
                 else Walk(old(fs.View()), Start(path, cwd), Elements(path))
    ensures path != [] && path[0] == SLASH ==>
              r == if nameiparent then WalkParent(old(fs.View()), 1, Elements(path))
                   else Walk(old(fs.View()), 1, Elements(path))
    ensures path == [] || path[0] != SLASH ==>
              r == if nameiparent then WalkParent(old(fs.View()), cwd, Elements(path))
                   else Walk(old(fs.View()), cwd, Elements(path))
    ensures nameiparent && r.Some? ==> Elements(path) != []
                                       && Key(name[..]) == Key(Elements(path)[|Elements(path)| - 1])
  {
    hide Store.Owned, Store.Marked, Store.Slot, Store.ByteAt, Store.Free, Elements, Key, DirsOk, Dir, MoreMapped, Need;
    hide PathNeed, Walk, WalkParent, DirNeed;
    ghost var s0, all, start, k := fs.View(), Elements(path), Start(path, cwd), 0;
    var ip: nat := if CharAt(path, 0) == SLASH then ROOTINO else cwd;
    var rest := path;
    MappedNone(s0);
    while true
      invariant fs.Valid() && MoreMapped(s0, fs.View()) && DirsOk(fs.View()) && 0 !in rest && ip < fs.inode.Length
      invariant PathNeed(fs.View(), ip, Elements(rest)) <= |fs.View().Free()|
      invariant k <= |all| && Elements(rest) == all[k..]
      invariant Walk(s0, ip, all[k..]) == Walk(s0, start, all)
      invariant nameiparent ==> WalkParent(s0, ip, all[k..]) == WalkParent(s0, start, all)
      decreases |rest|
    {
      ghost var es := Elements(rest);
      var rem := Skipelem(rest, name);
      if rem.None? {
        WalkNone(s0, ip);
        return if nameiparent then None else Some(ip);
      }
      NoMore(rem.value);
      HasSame(s0, fs.View(), ip, es[0]);
      if fs.inode[ip].typ != T_DIR {
        WalkNoDir(s0, ip, es);
        return None;
      }
      if nameiparent && rem.value == [] {
        WalkOne(s0, ip, es);
        return Some(ip);
      }
      NeedNext(fs.View(), ip, es);
      ghost var s := fs.View();
      var next := Lookup(fs, ip, name[..]);
      MappedChain(s0, s, fs.View());
      NextElement(s0, s, fs.View(), ip, name[..], es);
      if next.None? {
        return None;
      }
      ip, rest, k := next.value, rem.value, k + 1;
    }
  }

  /** The inode of a path. */
  method Namei(fs: Fs, path: seq<byte>, cwd: nat) returns (r: Option<nat>)
    requires fs.Valid() && DirsOk(fs.View()) && 0 !in path && ROOTINO < fs.inode.Length && cwd < fs.inode.Length
    requires PathNeed(fs.View(), Start(path, cwd), Elements(path)) <= |fs.View().Free()|
    modifies fs.disk, fs.inode, fs`own
    ensures fs.Valid() && MoreMapped(old(fs.View()), fs.View()) && DirsOk(fs.View())
    ensures path != [] && path[0] == SLASH ==> r == Walk(old(fs.View()), 1, Elements(path))
    ensures path == [] || path[0] != SLASH ==> r == Walk(old(fs.View()), cwd, Elements(path))
  {
    hide Walk, WalkParent, DirsOk, MoreMapped, Elements, PathNeed, Key;
    var name := new byte[DIRSIZ];
    r := Namex(fs, path, false, cwd, name);
  }

  lemma WalkNone(s: Store, i: nat)
    ensures Walk(s, i, []) == Some(i) && WalkParent(s, i, []) == None
  {}

  lemma WalkNoDir(s: Store, i: nat, es: seq<seq<byte>>)
    requires es != [] && !IsDir(s, i)
    ensures Walk(s, i, es) == None && WalkParent(s, i, es) == None
  {
    if |es| >= 2 { ParentNext(s, i, es); } else { assert es[..0] == []; }
  }

  lemma WalkOne(s: Store, i: nat, es: seq<seq<byte>>)
    requires |es| == 1 && IsDir(s, i)
    ensures WalkParent(s, i, es) == Some(i)
  {
    assert es[..0] == [];
  }

  lemma NeedNext(s: Store, i: nat, es: seq<seq<byte>>)
    requires es != [] && IsDir(s, i)
    ensures DirNeed(s, i) <= PathNeed(s, i, es)
  {}

  lemma MappedChain(s: Store, t: Store, u: Store)
    requires MoreMapped(s, t) && MoreMapped(t, u)
    ensures MoreMapped(s, u)
  {
    hide Store.ByteAt, Store.Slot;
  }
}
