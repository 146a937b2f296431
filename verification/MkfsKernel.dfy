/** What the kernel's file system makes of a finished image. */
module MkfsKernel {
  import opened Wrappers
  import opened FsLayout
  import opened FsNames
  import opened FsStore
  import opened MkfsStore
  import opened MkfsAppend
  import opened MkfsTree
  import opened MkfsGood
  import FileSystem
  import FsContents

  /** Every image that was built satisfies the invariant that the kernel's file system keeps. */
  lemma BuiltInv(w: Made)
    requires Built(w)
    ensures w.s.Inv(w.own)
  {
    hide Tree, AllStored, RecordsOk, Store.Slot, Bit, Word;
    var s := w.s;
    BuiltMarked(s, w.fb);
    forall b | b in w.own ensures w.own[b].i < |s.ino| && w.own[b].k < NSLOT && s.Slot(w.own[b].i, w.own[b].k) == b {
      assert Owns(s, w.own[b], b);
    }
  }

  lemma BuiltMarked(s: Store, fb: nat)
    requires s.Wf() && s.g == GEOMETRY && BitsBelow(s.disk[28], fb)
    ensures forall b: nat | b < BPB :: s.Marked(b) <==> b < fb
  {
    hide Bit;
    forall b: nat | b < BPB ensures s.Marked(b) <==> b < fb {
      assert GEOMETRY.BitBlock(b) == 28 && b % BPB == b;
    }
  }

  lemma BuiltShape(w: Made)
    requires Built(w)
    ensures w.s.Wf() && w.s.g == GEOMETRY && FIRST <= w.fb <= SIZE && BitsBelow(w.s.disk[28], w.fb)
  {
    hide Tree, AllStored, RecordsOk, Store.Slot, BitsBelow, SuperOk;
  }

  /** The blocks behind those handed out are free, and the first of them is what the kernel
      allocates next: a block behind the end of the image when the image is full. */
  lemma BuiltFree(w: Made)
    requires Built(w)
    ensures w.s.Wf() && FileSystem.FirstClear(w.s, w.fb)
    ensures w.s.Free() == Upto(w.fb, SIZE)
  {
    hide Built, BitsBelow, Store.Marked;
    BuiltShape(w);
    BuiltMarked(w.s, w.fb);
    assert w.s.g.MetaEnd() == FIRST && w.s.g.ScanEnd() == BPB;
  }

  // ----- directories -----

  /** The children of a directory have different names, after the cut to 14 bytes. */
  ghost predicate DistinctNames(kids: seq<Kid>) {
    forall j: nat, k: nat | j < k < |kids| :: kids[j].name != kids[k].name
  }

  /** The map m has the names and inode numbers of kids, and no others. */
  ghost predicate Lists(m: map<seq<byte>, nat>, kids: seq<Kid>) {
    && (forall n: nat | n < |kids| :: kids[n].name in m && m[kids[n].name] == kids[n].inum)
    && (forall k | k in m :: exists n: nat :: n < |kids| && kids[n].name == k)
  }

  /** Entry e of directory d, as the kernel reads it, is child e with the dot entries first; behind
      the last child no entry is in use. */
  lemma EntryIs(w: Made, d: nat, e: nat)
    requires Built(w) && d in w.nodes && w.nodes[d].Dir? && e < FsContents.MAXENTRY
    ensures d < |w.s.ino|
    ensures var kids := AllKids(d, w.nodes[d]);
            if e < |kids| then
              FsContents.EntryInum(w.s, d, e) == kids[e].inum > 0 && FsContents.EntryKey(w.s, d, e) == kids[e].name
            else FsContents.EntryInum(w.s, d, e) == 0
  {
    hide Allotted, RecordsOk, BitsBelow, SuperOk, Store.ByteAt, Filled, Tree, Entry, Entries, Key;
    var node := w.nodes[d];
    var kids := AllKids(d, node);
    assert Stores(w.s, d, node);
    if e < |kids| {
      KidFacts(w, d, e);
      forall q: nat | q < 16 ensures w.s.ByteAt(d, 16 * e + q) == Entry(kids[e])[q] { EntriesAt(kids, e, q); }
      EntryOf(w.s, d, e, kids[e]);
    }
  }

  lemma EntryOf(s: Store, d: nat, e: nat, k: Kid)
    requires d < |s.ino| && e < FsContents.MAXENTRY && k.inum < 0x1_0000
    requires forall q: nat | q < 16 :: s.ByteAt(d, 16 * e + q) == Entry(k)[q]
    requires k.name == DOT || k.name == DOTDOT || NameOk(k.name)
    ensures FsContents.EntryInum(s, d, e) == k.inum && FsContents.EntryKey(s, d, e) == k.name
  {
    hide Store.ByteAt, Key;
    assert s.ByteAt(d, 16 * e + 0) == Entry(k)[0] && s.ByteAt(d, 16 * e + 1) == Entry(k)[1];
    var nm := FsContents.EntryName(s, d, e);
    forall q: nat | q < DIRSIZ ensures CharAt(nm, q) == CharAt(k.name, q) {
      assert s.ByteAt(d, 16 * e + (2 + q)) == Entry(k)[2 + q];
    }
    KeyIs(nm, |k.name|);
  }

  /** A directory that was built is one that the kernel can work with exactly when its names stay
      different after the cut to 14 bytes; then the kernel sees just the children, "." and "..". */
  lemma BuiltDir(w: Made, d: nat)
    requires Built(w) && d in w.nodes && w.nodes[d].Dir?
    ensures d < |w.s.ino| && (FsContents.DirOk(w.s, d) <==> DistinctNames(w.nodes[d].kids))
    ensures FsContents.DirOk(w.s, d) ==> Lists(FsContents.Dir(w.s, d), AllKids(d, w.nodes[d]))
  {
    hide Built, FsContents.DirUpTo, FsContents.UniqueNames, Tidy, DistinctNames, Lists, AllKids, EntriesAre;
    var n := DirEntries(w, d);
    KidNames(w, d);
    KidsThere(w, d);
    NamesApart(AllKids(d, w.nodes[d]), w.nodes[d].kids);
    UniqueIs(w.s, d, n, AllKids(d, w.nodes[d]));
    if FsContents.UniqueNames(w.s, d, n) { ListsIs(w.s, d, n, AllKids(d, w.nodes[d])); }
  }

  lemma KidsThere(w: Made, d: nat)
    requires d in w.nodes && w.nodes[d].Dir?
    ensures var kids, own := AllKids(d, w.nodes[d]), w.nodes[d].kids;
            |kids| == 2 + |own| && kids[2..] == own && kids[0].name == DOT && kids[1].name == DOTDOT
  {}

  /** What the kernel reads as entries of the directory. */
  lemma DirEntries(w: Made, d: nat) returns (n: nat)
    requires Built(w) && d in w.nodes && w.nodes[d].Dir?
    ensures d < |w.s.ino| && w.s.ino[d].typ == T_DIR && w.s.ino[d].size % FsContents.DIRENT == 0 && Tidy(w.s, d)
    ensures n == FsContents.Entries(w.s, d) <= FsContents.MAXENTRY && EntriesAre(w.s, d, n, AllKids(d, w.nodes[d]))
  {
    hide Built, Tidy, AllKids;
    n := DirStored(w, d);
    hide FsContents.EntryInum, FsContents.EntryKey;
    var s, kids := w.s, AllKids(d, w.nodes[d]);
    forall e: nat | e < n
      ensures if e < |kids| then FsContents.Live(s, d, e) && FsContents.EntryInum(s, d, e) == kids[e].inum
                                 && FsContents.EntryKey(s, d, e) == kids[e].name
              else !FsContents.Live(s, d, e)
    {
      EntryIs(w, d, e);
    }
  }

  /** The first entries of directory d are kids, and the others are not in use. */
  ghost predicate EntriesAre(s: Store, d: nat, n: nat, kids: seq<Kid>)
    requires d < |s.ino|
  {
    && |kids| <= n <= FsContents.MAXENTRY
    && forall e: nat | e < n ::
         if e < |kids| then FsContents.Live(s, d, e) && FsContents.EntryInum(s, d, e) == kids[e].inum
                            && FsContents.EntryKey(s, d, e) == kids[e].name
         else !FsContents.Live(s, d, e)
  }

  lemma UniqueIs(s: Store, d: nat, n: nat, kids: seq<Kid>)
    requires d < |s.ino| && EntriesAre(s, d, n, kids)
    ensures FsContents.UniqueNames(s, d, n) <==> DistinctNames(kids)
  {
    hide FsContents.EntryInum, FsContents.EntryKey;
    if FsContents.UniqueNames(s, d, n) {
      forall j: nat, k: nat | j < k < |kids| ensures kids[j].name != kids[k].name {
        assert FsContents.Live(s, d, j) && FsContents.Live(s, d, k);
      }
    }
  }

  lemma ListsIs(s: Store, d: nat, n: nat, kids: seq<Kid>)
    requires d < |s.ino| && EntriesAre(s, d, n, kids) && FsContents.UniqueNames(s, d, n)
    ensures Lists(FsContents.DirUpTo(s, d, n), kids)
  {
    hide FsContents.EntryInum, FsContents.EntryKey;
    FsContents.DirBindings(s, d, n);
    hide FsContents.DirUpTo;
    forall j: nat | j < |kids|
      ensures kids[j].name in FsContents.DirUpTo(s, d, n) && FsContents.DirUpTo(s, d, n)[kids[j].name] == kids[j].inum
    {
      assert FsContents.Live(s, d, j);
    }
  }

  /** The kernel reads n entries of the directory, those of the children among them. */
  lemma DirStored(w: Made, d: nat) returns (n: nat)
    requires Built(w) && d in w.nodes && w.nodes[d].Dir?
    ensures d < |w.s.ino| && w.s.ino[d].typ == T_DIR && w.s.ino[d].size % FsContents.DIRENT == 0 && Tidy(w.s, d)
    ensures n == FsContents.Entries(w.s, d) && |AllKids(d, w.nodes[d])| <= n <= FsContents.MAXENTRY
  {
    hide Allotted, RecordsOk, BitsBelow, SuperOk, Store.ByteAt, Filled, Tree, Entries;
    assert Stores(w.s, d, w.nodes[d]);
    n := FsContents.Entries(w.s, d);
  }

  /** The dot names differ from each other and from those of children. */
  lemma NamesApart(kids: seq<Kid>, own: seq<Kid>)
    requires |kids| == 2 + |own| && kids[2..] == own && kids[0].name == DOT && kids[1].name == DOTDOT
    requires forall n: nat | n < |own| :: own[n].name != DOT && own[n].name != DOTDOT
    ensures DistinctNames(kids) <==> DistinctNames(own)
  {
    forall n: nat | n < |own| ensures kids[n + 2] == own[n] {}
    if DistinctNames(kids) {
      forall j: nat, k: nat | j < k < |own| ensures own[j].name != own[k].name {
        assert kids[j + 2].name != kids[k + 2].name;
      }
    }
    if DistinctNames(own) {
      assert DOT != DOTDOT;
      forall j: nat, k: nat | j < k < |kids| ensures kids[j].name != kids[k].name {
        if j >= 2 { assert own[j - 2].name != own[k - 2].name; } else if k >= 2 { assert kids[k] == own[k - 2]; }
      }
    }
  }

  lemma KidNames(w: Made, d: nat)
    requires Built(w) && d in w.nodes && w.nodes[d].Dir?
    ensures forall n: nat | n < |w.nodes[d].kids| :: w.nodes[d].kids[n].name != DOT && w.nodes[d].kids[n].name != DOTDOT
  {
    hide Built;
    forall n: nat | n < |w.nodes[d].kids|
      ensures w.nodes[d].kids[n].name != DOT && w.nodes[d].kids[n].name != DOTDOT
    {
      KidFacts(w, d, n + 2);
      assert AllKids(d, w.nodes[d])[n + 2] == w.nodes[d].kids[n];
    }
  }
}
