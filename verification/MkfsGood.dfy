/** A finished image is one that the image checker accepts. */
module MkfsGood {
  import opened FsLayout
  import opened FsNames
  import opened FsStore
  import opened FsImage
  import opened MkfsStore
  import opened MkfsRecord
  import opened MkfsAppend
  import opened MkfsTree

  /** A store with the owners of its blocks, the next free block, the inode tree with the places of
      its nodes, and the next free inode. */
  datatype Made = Made(s: Store, own: map<nat, FsStore.Ref>, fb: nat, nodes: Nodes, place: Places, fi: nat) {
    function Img(): Image { Image(s.disk) }
  }

  /** The store s with all blocks below fb handed out holds a tree of the inodes 1 to fi - 1,
      rooted at inode 1, and the bitmap marks the blocks below fb. */
  ghost predicate Built(w: Made) {
    && Allotted(w.s, w.own, w.fb) && 2 <= w.fi <= NINODES && RecordsOk(w.s.disk, w.s.ino, w.fi) && SuperOk(w.s.disk[1])
    && Tree(w.nodes, w.place, w.fi) && AllStored(w.s, w.nodes, w.fi) && w.nodes[1].Dir? && w.nodes[1].parent == 1
    && (forall k: nat | 2 <= k < w.fi :: k in w.place)
    && BitsBelow(w.s.disk[28], w.fb)
  }

  // ----- what the checker reads from the image -----

  lemma ShapeBuilt(w: Made)
    requires Built(w)
    ensures var img := w.Img();
            img.Shape() && img.NInodes() == NINODES && img.Size() == SIZE && img.DataStart() == FIRST
                && |w.s.disk| == SIZE
    ensures |w.s.ino| == NINODES && w.fi <= NINODES && forall i: nat :: i in w.nodes <==> 1 <= i < w.fi
  {
    hide RecordsOk, BitsBelow, AllStored, Word, Placed, Owns, Store.Slot;
  }

  lemma RecordRead(s: Store, fi: nat, i: nat)
    requires RecordsOk(s.disk, s.ino, fi) && i < NINODES && Image(s.disk).Shape() && Image(s.disk).NInodes() == NINODES
    ensures Image(s.disk).Type(i) == s.ino[i].typ && Image(s.disk).NLink(i) == if 1 <= i < fi then 1 else 0
    ensures forall k: nat | k <= NDIRECT :: Image(s.disk).Addr(i, k) == s.ino[i].addrs[k]
  {
    hide Word;
    assert RecordOk(s.disk, s.ino, i, fi);
    var b := s.disk[i / IPB + 2];
    WordSmall(b, 16 * (i % IPB) + 1);
    var d := ReadRecord(b, i % IPB);
    forall k: nat | k <= NDIRECT ensures Image(s.disk).Addr(i, k) == s.ino[i].addrs[k] {
      assert d.addrs[k] == Word(b, 16 * (i % IPB) + 3 + k);
    }
  }

  lemma WordSmall(b: Block, k: nat)
    requires k < NINDIRECT
    ensures Word(b, k) < UINT
  {}

  /** Addresses as the checker reads them are the slots; where there is no indirect block it reads
      block 0, which is zero. */
  lemma RefIsSlot(w: Made, i: nat, k: nat)
    requires Built(w) && i < NINODES && k < NSLOT
    ensures w.Img().Shape() && w.Img().NInodes() == NINODES
    ensures w.Img().Ref(i, k) == w.s.Slot(i, k)
  {
    hide AllStored, Tree, Word, RecordOk;
    ShapeBuilt(w);
    RecordRead(w.s, w.fi, i);
    assert w.Img().Addr(i, NDIRECT) == w.s.ino[i].addrs[NDIRECT];
    if k <= NDIRECT {
      assert w.Img().Addr(i, k) == w.s.ino[i].addrs[k];
    } else if w.s.ino[i].addrs[NDIRECT] == 0 {
      ZeroWord(w.s.disk[0], k - NDIRECT - 1);
    }
  }

  lemma ZeroWord(b: Block, k: nat)
    requires b == Zeros() && k < NINDIRECT
    ensures Word(b, k) == 0
  {}

  lemma MarksRead(w: Made, b: nat)
    requires Built(w) && b < SIZE
    ensures w.Img().Shape() && w.Img().Size() == SIZE
    ensures w.Img().Marked(b) <==> b < w.fb
  {
    hide AllStored, Tree, Bit, RecordOk, Allotted;
    ShapeBuilt(w);
    assert NINODES / IPB + 3 + b / BPB == 28 && b % BPB == b;
  }

  // ----- directory entries -----

  function EntryNo(x: Edge): nat { 32 * x.s + x.e }

  /** Entry x of directory x.d was appended. */
  ghost predicate HasEntry(nodes: Nodes, x: Edge) {
    x.d in nodes && nodes[x.d].Dir? && x.s < MAXFILE && x.e < NENTRY && EntryNo(x) < 2 + |nodes[x.d].kids|
  }

  lemma UsedSlot(s: Store, i: nat, n: nat, bn: nat)
    requires i < |s.ino| && Filled(s, i, n) && bn < MAXFILE
    ensures s.Slot(i, BnSlot(bn)) != 0 <==> BSIZE * bn < n
  {
    hide Store.Slot;
    assert SlotUsed(s, i, BnSlot(bn)) <==> BSIZE * bn < n;
  }

  lemma ByteRead(s: Store, i: nat, p: nat, sl: nat, q: nat)
    requires i < |s.ino| && p < MAXBYTES && p / BSIZE == sl && p % BSIZE == q && s.Slot(i, BnSlot(sl)) < |s.disk|
    ensures s.ByteAt(i, p) == if s.Slot(i, BnSlot(sl)) != 0 then s.disk[s.Slot(i, BnSlot(sl))][q] else 0
  {}

  /** The bytes of entry x on disk are the bytes that were appended, or zero behind them. */
  lemma EntryBytes(w: Made, i: nat, sl: nat, e: nat, q: nat)
    requires Built(w) && i in w.nodes && w.nodes[i].Dir?
    requires sl < MAXFILE && e < NENTRY && q < 16
    ensures var node, n := w.nodes[i], 32 * sl + e;
            && i < |w.s.ino| && var a := w.s.Slot(i, BnSlot(sl));
            && InumsOk(AllKids(i, node)) && a < SIZE && |w.s.disk| == SIZE && (n < 2 + |node.kids| ==> a != 0)
            && (a != 0 ==> w.s.disk[a][16 * e + q] == if n < 2 + |node.kids| then Entry(AllKids(i, node)[n])[q] else 0)
  {
    hide Tree, RecordsOk, BitsBelow, SuperOk, Entry, Store.Slot, Store.ByteAt, Filled, Allotted, Entries;
    var node := w.nodes[i];
    assert Stores(w.s, i, node);
    var a := w.s.Slot(i, BnSlot(sl));
    var n := 32 * sl + e;
    var p := 16 * n + q;
    AllottedShape(w.s, w.own, w.fb);
    if a != 0 { SlotAllotted(w.s, w.own, w.fb, i, BnSlot(sl)); }
    UsedSlot(w.s, i, |Data(i, node)|, sl);
    assert |AllKids(i, node)| == 2 + |node.kids|;
    assert p / BSIZE == sl && p % BSIZE == 16 * e + q;
    ByteRead(w.s, i, p, sl, 16 * e + q);
    if n < 2 + |node.kids| { EntriesAt(AllKids(i, node), n, q); }
  }

  /** What the checker makes of entry x: in use when it was appended; number 0 is ".", number 1 is
      "..", and the others lead to the children. */
  lemma EntryRead(w: Made, x: Edge)
    requires Built(w)
    ensures w.Img().Shape()
    ensures w.Img().InUse(x) <==> HasEntry(w.nodes, x)
    ensures HasEntry(w.nodes, x) ==> w.Img().Target(x) == AllKids(x.d, w.nodes[x.d])[EntryNo(x)].inum
    ensures HasEntry(w.nodes, x) ==> (w.Img().IsDot(x) <==> EntryNo(x) == 0)
    ensures HasEntry(w.nodes, x) ==> (w.Img().IsDotDot(x) <==> EntryNo(x) == 1)
    ensures w.Img().IsChild(x) <==> HasEntry(w.nodes, x) && EntryNo(x) >= 2
  {
    hide Allotted, RecordOk, BitsBelow, Store.Slot, Word, Entries, Holds, Filled;
    var img := w.Img();
    ShapeBuilt(w);
    if x.d < NINODES && x.s < MAXFILE && x.e < NENTRY {
      DirRead(w, x.d);
      if x.d in w.nodes && w.nodes[x.d].Dir? {
        DirEntry(w, x);
      }
    }
  }

  lemma KidFacts(w: Made, d: nat, n: nat)
    requires Built(w) && d in w.nodes && w.nodes[d].Dir? && n < 2 + |w.nodes[d].kids|
    ensures var k := AllKids(d, w.nodes[d])[n];
            && 1 <= k.inum < w.fi && (n == 0 ==> k == Kid(d, DOT))
            && (n == 1 ==> k == Kid(w.nodes[d].parent, DOTDOT))
            && (n >= 2 ==> k == w.nodes[d].kids[n - 2] && k.inum in w.place && w.place[k.inum] == Place(d, n - 2)
                           && NameOk(k.name))
  {
    hide Allotted, RecordsOk, AllStored, BitsBelow;
    if d != 1 { assert Placed(w.nodes, w.place[d], d, w.fi); }
    if n >= 2 {
      var k := w.nodes[d].kids[n - 2];
      assert Placed(w.nodes, w.place[k.inum], k.inum, w.fi);
    }
  }

  lemma DotNames(name: seq<byte>)
    ensures name == DOT ==> CharAt(name, 0) == 46 && CharAt(name, 1) == 0
    ensures name == DOTDOT ==> CharAt(name, 0) == CharAt(name, 1) == 46 && CharAt(name, 2) == 0
    ensures NameOk(name) ==> !(CharAt(name, 0) == 46 && CharAt(name, 1) == 0)
    ensures NameOk(name) ==> !(CharAt(name, 0) == CharAt(name, 1) == 46 && CharAt(name, 2) == 0)
  {}

  lemma DirEntry(w: Made, x: Edge)
    requires Built(w) && x.d in w.nodes && w.nodes[x.d].Dir? && x.s < MAXFILE && x.e < NENTRY
    ensures w.Img().Shape() && x.d < w.Img().NInodes()
    ensures var a, n := w.Img().SlotAddr(x.d, x.s), EntryNo(x);
            if n >= 2 + |w.nodes[x.d].kids| then a == 0 || (a < SIZE && w.Img().Inum(a, x.e) == 0)
            else
              0 < a < SIZE && w.Img().Inum(a, x.e) == AllKids(x.d, w.nodes[x.d])[n].inum > 0
              && (w.Img().NamedDotDot(a, x.e) <==> n == 1)
              && (w.Img().NamedDot(a, x.e) <==> n == 0)
  {
    hide Built, Store.Slot, Stores, Word, Entries, InumsOk, Image.Ref, Entry, CharAt, Image.Inum, Image.NamedDot;
    hide Image.NamedDotDot, Image.Shape;
    ShapeBuilt(w);
    DirRead(w, x.d);
    RefIsSlot(w, x.d, BnSlot(x.s));
    var node, n, a := w.nodes[x.d], EntryNo(x), w.s.Slot(x.d, BnSlot(x.s));
    EntryBytes(w, x.d, x.s, x.e, 0);
    if n < 2 + |node.kids| {
      UsedEntry(w, x, a);
    } else if a != 0 {
      EntryBytes(w, x.d, x.s, x.e, 1);
      RawNone(w.s.disk, a, x.e);
    }
  }

  lemma UsedEntry(w: Made, x: Edge, a: nat)
    requires Built(w) && HasEntry(w.nodes, x) && x.d < |w.s.ino| && a == w.s.Slot(x.d, BnSlot(x.s)) < |w.s.disk|
    ensures var n := EntryNo(x);
            && w.Img().Inum(a, x.e) == AllKids(x.d, w.nodes[x.d])[n].inum > 0
            && (w.Img().NamedDotDot(a, x.e) <==> n == 1)
            && (w.Img().NamedDot(a, x.e) <==> n == 0)
  {
    hide Built, Store.Slot, Stores, Word, Entries, InumsOk, Entry, CharAt, Image.Inum, Image.NamedDot;
    hide Image.NamedDotDot;
    var node, n := w.nodes[x.d], EntryNo(x);
    KidFacts(w, x.d, n);
    var k := AllKids(x.d, node)[n];
    EntryBytes(w, x.d, x.s, x.e, 0);
    KidInum(x.d, node, n);
    forall q: nat | q < 16 ensures w.s.disk[a][16 * x.e + q] == Entry(k)[q] {
      EntryBytes(w, x.d, x.s, x.e, q);
    }
    RawEntry(w.s.disk, a, x.e, k);
  }

  lemma KidInum(i: nat, node: Node, n: nat)
    requires node.Dir? && InumsOk(AllKids(i, node)) && n < 2 + |node.kids|
    ensures AllKids(i, node)[n].inum < 0x1_0000
  {}

  lemma RawNone(disk: seq<Block>, a: nat, e: nat)
    requires a < |disk| && e < NENTRY && disk[a][16 * e] == 0 && disk[a][16 * e + 1] == 0
    ensures Image(disk).Inum(a, e) == 0
  {}

  /** How the checker reads the bytes of an entry. */
  lemma RawEntry(disk: seq<Block>, a: nat, e: nat, k: Kid)
    requires a < |disk| && e < NENTRY && k.inum < 0x1_0000
    requires forall q: nat | q < 16 :: disk[a][16 * e + q] == Entry(k)[q]
    requires k.name == DOT || k.name == DOTDOT || NameOk(k.name)
    ensures Image(disk).Inum(a, e) == k.inum
    ensures Image(disk).NamedDot(a, e) <==> k.name == DOT
    ensures Image(disk).NamedDotDot(a, e) <==> k.name == DOTDOT
  {
    DotNames(k.name);
    var b := disk[a];
    assert b[16 * e + 0] == Entry(k)[0] && b[16 * e + 1] == Entry(k)[1];
    assert b[16 * e + 2] == CharAt(k.name, 0) && b[16 * e + 3] == CharAt(k.name, 1)
        && b[16 * e + 4] == CharAt(k.name, 2);
  }

  lemma DirRead(w: Made, i: nat)
    requires Built(w) && i < NINODES
    ensures w.Img().Shape() && w.Img().NInodes() == NINODES
    ensures w.Img().Type(i) == if i !in w.nodes then 0 else if w.nodes[i].Dir? then T_DIR else T_FILE
    ensures i in w.nodes ==> w.Img().NLink(i) == 1
    ensures i in w.nodes ==> Stores(w.s, i, w.nodes[i])
  {
    hide Allotted, RecordOk, BitsBelow, Store.Slot, Word, Data;
    ShapeBuilt(w);
    RecordRead(w.s, w.fi, i);
    if i in w.nodes { assert Stores(w.s, i, w.nodes[i]); } else { assert w.s.ino[i] == Blank(0); }
  }

  // ----- the tree -----

  /** The entry that leads to node n. */
  ghost function EdgeTo(place: Places, n: nat): Edge
    requires n in place
  {
    Edge(place[n].d, (place[n].j + 2) / 32, (place[n].j + 2) % 32)
  }

  lemma EdgeToIs(w: Made, n: nat)
    requires Built(w) && 2 <= n < w.fi
    ensures n in w.place && w.Img().Shape() && w.place[n].d < n && w.place[n].d in w.nodes
    ensures w.Img().IsChild(EdgeTo(w.place, n)) && w.Img().Target(EdgeTo(w.place, n)) == n
    ensures w.nodes[n].Dir? ==> w.nodes[n].parent == w.place[n].d
  {
    hide Allotted, RecordsOk, AllStored, BitsBelow, SuperOk, Store.Slot, Image.IsChild, Image.Target;
    var x := EdgeTo(w.place, n);
    assert Placed(w.nodes, w.place[n], n, w.fi);
    DirRead(w, x.d);
    ManyEntries(w.s, x.d, w.nodes[x.d]);
    EntryRead(w, x);
  }

  lemma ManyEntries(s: Store, i: nat, node: Node)
    requires Stores(s, i, node) && node.Dir?
    ensures 2 + |node.kids| <= 32 * MAXFILE
  {}

  /** Over an entry that leads to a child the walk comes to the node that has its place there. */
  lemma ChildIs(w: Made, x: Edge)
    requires Built(w) && w.Img().Shape() && w.Img().IsChild(x)
    ensures var n := w.Img().Target(x); n in w.place && 2 <= n < w.fi && n in w.nodes && x == EdgeTo(w.place, n)
  {
    hide Built, Allotted, RecordsOk, AllStored, BitsBelow, SuperOk, Store.Slot, Image.IsChild, Image.Target;
    EntryRead(w, x);
    KidFacts(w, x.d, EntryNo(x));
    PlaceRange(w, w.Img().Target(x));
  }

  lemma PlaceRange(w: Made, n: nat)
    requires Built(w) && n in w.place
    ensures 2 <= n < w.fi && n in w.nodes
  {
    hide Allotted, RecordsOk, AllStored, BitsBelow, SuperOk;
    assert Placed(w.nodes, w.place[n], n, w.fi);
  }

  /** Every node can be reached. */
  lemma {:induction false} NodeReached(w: Made, n: nat)
    returns (p: seq<Edge>)
    requires Built(w) && 1 <= n < w.fi
    ensures w.Img().Shape() && w.Img().ReachedBy(p, n)
    decreases n
  {
    hide Built, Store.Slot, Image.IsChild, Image.Target;
    ShapeBuilt(w);
    if n == 1 {
      p := [];
    } else {
      EdgeToIs(w, n);
      var q := NodeReached(w, w.place[n].d);
      p := q + [EdgeTo(w.place, n)];
      assert p[..|p| - 1] == q;
    }
  }

  /** Only nodes can be reached. */
  lemma ReachedNode(w: Made, n: nat)
    requires Built(w) && w.Img().Shape() && w.Img().Reachable(n)
    ensures 1 <= n < w.fi
  {
    hide Built, Store.Slot, Image.IsChild, Image.Target;
    var p :| w.Img().ReachedBy(p, n);
    ShapeBuilt(w);
    Bounds(w);
    if p != [] {
      ChildIs(w, p[|p| - 1]);
    }
  }

  lemma Bounds(w: Made)
    requires Built(w)
    ensures 2 <= w.fi <= NINODES && FIRST <= w.fb <= SIZE && w.nodes[1].Dir? && w.nodes[1].parent == 1
  {}

  lemma ReachableIs(w: Made, n: nat)
    requires Built(w)
    ensures w.Img().Shape() && (w.Img().Reachable(n) <==> 1 <= n < w.fi)
  {
    hide Built, Store.Slot, Image.ReachedBy;
    ShapeBuilt(w);
    if 1 <= n < w.fi { var p := NodeReached(w, n); }
    if w.Img().Reachable(n) { ReachedNode(w, n); }
  }

  /** The walk goes over one entry to each node but the root. */
  lemma WalkedIs(w: Made, x: Edge)
    requires Built(w)
    ensures w.Img().Shape()
    ensures w.Img().Walked(x) <==> x == ROOT_EDGE || w.Img().IsChild(x)
    ensures w.Img().Walked(x) ==> var n := w.Img().Target(x);
              1 <= n < w.fi && (n == 1 <==> x == ROOT_EDGE) && (n != 1 ==> n in w.place && x == EdgeTo(w.place, n))
  {
    hide Built, Store.Slot, Image.IsChild, Image.Target, Image.Reachable;
    ShapeBuilt(w);
    Bounds(w);
    ReachableIs(w, x.d);
    RootTarget(w.s.disk);
    if w.Img().IsChild(x) {
      ChildIs(w, x);
      ChildDir(w, x);
    }
  }

  lemma RootTarget(disk: seq<Block>)
    requires Image(disk).Shape()
    ensures Image(disk).Target(ROOT_EDGE) == 1
  {}

  lemma ChildDir(w: Made, x: Edge)
    requires Built(w) && w.Img().Shape() && w.Img().IsChild(x)
    ensures 1 <= x.d < w.fi
  {
    hide Built, Store.Slot, Image.IsChild, Image.Target;
    EntryRead(w, x);
    ShapeBuilt(w);
  }

  // ----- the checker's conditions -----

  lemma InTable(w: Made)
    requires Built(w)
    ensures w.Img().Shape() && w.Img().EntriesInTable()
  {
    hide Built, Store.Slot, Image.Walked, Image.Target;
    var img := w.Img();
    ShapeBuilt(w);
    forall x: Edge | img.Walked(x) ensures img.Target(x) < img.NInodes() {
      WalkedIs(w, x);
    }
  }

  lemma BuiltBlocks(w: Made)
    requires Built(w)
    ensures w.Img().Shape() && w.Img().BlocksOk()
  {
    hide Built, Store.Slot, Image.Ref, Image.Reachable, Image.Marked, Image.Type;
    var img := w.Img();
    ShapeBuilt(w);
    Bounds(w);
    forall n: nat | n < img.NInodes() && img.Reachable(n) ensures 1 <= img.Type(n) <= 3 && img.RefsOk(n) {
      ReachableIs(w, n);
      DirRead(w, n);
      forall k: nat | k < NSLOT ensures img.Ref(n, k) < MAXADDR && img.Marked(img.Ref(n, k)) {
        BlockUsed(w, n, k);
        MarksRead(w, img.Ref(n, k));
      }
    }
    forall m: nat, n: nat, k: nat, l: nat |
      m < img.NInodes() && n < img.NInodes() && img.Reachable(m) && img.Reachable(n) && k < NSLOT && l < NSLOT
      && img.Ref(m, k) == img.Ref(n, l) != 0
      ensures m == n && k == l
    {
      BlockUsed(w, m, k);
      BlockUsed(w, n, l);
    }
  }

  lemma BlockUsed(w: Made, n: nat, k: nat)
    requires Built(w) && n < NINODES && k < NSLOT
    ensures w.Img().Shape() && w.Img().NInodes() == NINODES
    ensures var r := w.Img().Ref(n, k); r < w.fb && (r != 0 ==> r in w.own && w.own[r] == FsStore.Ref(n, k))
  {
    hide Tree, AllStored, RecordsOk, Store.Slot, Image.Ref, BitsBelow, SuperOk;
    RefIsSlot(w, n, k);
    if w.s.Slot(n, k) != 0 { SlotAllotted(w.s, w.own, w.fb, n, k); }
  }

  lemma BuiltMarks(w: Made)
    requires Built(w)
    ensures w.Img().Shape() && w.Img().EntriesInTable() && w.Img().MarksOk()
  {
    hide Built, Store.Slot, Image.Ref, Image.Reachable, Image.Marked, Image.EntriesInTable;
    var img := w.Img();
    ShapeBuilt(w);
    InTable(w);
    forall b: nat | img.DataStart() <= b < img.Size() && img.Marked(b) ensures img.Owned(b) {
      MarksRead(w, b);
      var n, k := OwnerOf(w, b);
      RefIsSlot(w, n, k);
      ReachableIs(w, n);
    }
  }

  lemma OwnerOf(w: Made, b: nat) returns (n: nat, k: nat)
    requires Built(w) && FIRST <= b < w.fb
    ensures 1 <= n < w.fi && n < |w.s.ino| && k < NSLOT && w.s.Slot(n, k) == b
  {
    hide Tree, RecordsOk, BitsBelow, SuperOk, Stores;
    assert Owns(w.s, w.own[b], b);
    n, k := w.own[b].i, w.own[b].k;
  }

  lemma BuiltTree(w: Made)
    requires Built(w)
    ensures w.Img().Shape() && w.Img().EntriesInTable() && w.Img().TreeOk()
  {
    hide Built, Store.Slot, Image.Walked, Image.Target, Image.EntriesInTable, Image.Type, Image.DirOk;
    hide Image.Reenterable;
    var img := w.Img();
    ShapeBuilt(w);
    Bounds(w);
    InTable(w);
    DirRead(w, 1);
    forall x: Edge | img.Walked(x) ensures img.Target(x) < img.NInodes() {
      WalkedIs(w, x);
    }
    forall x: Edge, y: Edge | img.Walked(x) && img.Walked(y) && img.Target(x) == img.Target(y)
      ensures x == y
    {
      WalkedIs(w, x);
      WalkedIs(w, y);
    }
    forall x: Edge | img.Walked(x) && img.Type(img.Target(x)) == T_DIR ensures img.DirOk(x) {
      WalkedIs(w, x);
      DirRead(w, img.Target(x));
      DirsDots(w, x);
    }
  }

  lemma DirsDots(w: Made, x: Edge)
    requires Built(w) && w.Img().Shape() && w.Img().Walked(x)
    requires w.Img().Target(x) in w.nodes && w.nodes[w.Img().Target(x)].Dir?
    ensures w.Img().DirOk(x)
  {
    hide Built, Store.Slot, Image.Walked, Image.Target, Image.IsDot, Image.IsDotDot, Image.InUse, Image.HasDots;
    hide Image.IsChild;
    var img := w.Img();
    var n := img.Target(x);
    WalkedIs(w, x);
    Bounds(w);
    if x != ROOT_EDGE { EdgeToIs(w, n); }
    forall y: Edge | y.d == n && img.IsDotDot(y) ensures img.Target(y) == Parent(x) {
      DotDotTarget(w, y);
    }
    TwoDots(w, n);
  }

  lemma DotDotTarget(w: Made, y: Edge)
    requires Built(w) && w.Img().Shape() && w.Img().IsDotDot(y)
    ensures y.d in w.nodes && w.nodes[y.d].Dir? && w.Img().Target(y) == w.nodes[y.d].parent
  {
    hide Built, Store.Slot, Image.Target, Image.IsDot, Image.IsDotDot, Image.InUse;
    DotInUse(w.s.disk, y);
    EntryRead(w, y);
    KidFacts(w, y.d, 1);
  }

  lemma TwoDots(w: Made, n: nat)
    requires Built(w) && w.Img().Shape() && n in w.nodes && w.nodes[n].Dir?
    ensures w.Img().HasDots(n)
  {
    hide Built, Store.Slot, Image.Target, Image.IsDot, Image.IsDotDot, Image.InUse;
    EntryRead(w, Edge(n, 0, 0));
    EntryRead(w, Edge(n, 0, 1));
    assert w.Img().IsDot(Edge(n, 0, 0)) && w.Img().IsDotDot(Edge(n, 0, 1));
  }

  lemma DotInUse(disk: seq<Block>, y: Edge)
    requires Image(disk).Shape() && Image(disk).IsDotDot(y)
    ensures Image(disk).InUse(y)
  {}

  lemma BuiltLinks(w: Made)
    requires Built(w)
    ensures w.Img().Shape() && w.Img().LinksOk()
  {
    hide Built, Store.Slot, Image.Reachable, Image.Ins, Image.Type, Image.NLink;
    var img := w.Img();
    ShapeBuilt(w);
    forall n: nat | 2 <= n < img.NInodes()
      ensures 0 <= img.Type(n) <= 3 && (img.Type(n) != 0 ==> img.Reachable(n) && |img.Ins(n)| == img.NLink(n))
    {
      DirRead(w, n);
      if n in w.nodes {
        ReachableIs(w, n);
        OneIn(w, n);
      }
    }
  }

  lemma OneIn(w: Made, n: nat)
    requires Built(w) && 2 <= n < w.fi
    ensures w.Img().Shape() && n in w.place && w.Img().Ins(n) == {EdgeTo(w.place, n)}
  {
    hide Built, Store.Slot, Image.Walked, Image.Target;
    var img := w.Img();
    ShapeBuilt(w);
    EdgeToIs(w, n);
    var x := EdgeTo(w.place, n);
    WalkedIs(w, x);
    EntryRead(w, x);
    forall y | y in img.Ins(n) ensures y == x {
      WalkedIs(w, y);
    }
    assert x.d < img.NInodes() && x.s < MAXFILE && x.e < NENTRY;
    assert x == Edge(x.d, x.s, x.e);
    assert x in img.Ins(n);
  }

  /** Every image that was built is accepted. */
  lemma BuiltGood(w: Made)
    requires Built(w)
    ensures w.Img().Shape() && w.Img().EntriesInTable() && w.Img().Good()
  {
    hide Built, Image.BlocksOk, Image.TreeOk, Image.LinksOk, Image.MarksOk, Image.EntriesInTable;
    InTable(w);
    BuiltBlocks(w);
    BuiltTree(w);
    BuiltLinks(w);
    BuiltMarks(w);
  }
}
