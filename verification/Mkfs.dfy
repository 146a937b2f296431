/** The image builder: inode allocation, and the walk that copies a host tree into the image. */
module Mkfs {
  import opened Wrappers
  import opened FsLayout
  import opened FsNames
  import opened FsStore
  import opened MkfsStore
  import opened MkfsRecord
  import opened MkfsAppend
  import opened MkfsTree
  import MkfsGood
  import MkfsHost
  import MkfsKernel
  import FileSystem
  import FsContents
  import FsNamex
  import FsPath
  import FsImage

  /** Between two steps of the walk: inodes 1 to n - 1 form a tree that is stored, and only
      inodes below b.freeinode are in use. */
  ghost predicate State(b: Builder, nodes: Nodes, place: Places, n: nat)
    reads b, b.disk
  {
    b.Valid() && Tree(nodes, place, n) && n <= b.freeinode && AllStored(b.View(), nodes, b.freeinode)
  }

  /** Inode i is in use, of the type typ, and still empty. */
  ghost predicate Empty(s: Store, i: nat, typ: int) {
    i < |s.ino| && s.ino[i] == Blank(typ) && Holds(s, i, []) && Filled(s, i, 0)
  }

  /** The nodes and their inodes, except for but, are as before; more may have come. */
  ghost predicate Kept(nodes: Nodes, ino: seq<Inode>, nodes': Nodes, ino': seq<Inode>, but: nat) {
    |ino| == |ino'| && forall i | i in nodes && i < |ino| && i != but :: i in nodes' && nodes'[i] == nodes[i]
                                                                         && ino'[i] == ino[i]
  }

  /** The nodes lo to hi - 1 have got a place, and no others. */
  ghost predicate PlacedMore(place: Places, place': Places, lo: nat, hi: nat) {
    && (forall k: nat :: k in place' <==> k in place || lo <= k < hi)
    && (forall k | k in place :: place'[k] == place[k])
  }

  // ----- what the single steps keep -----

  /** A store in which some inodes look as before still stores their nodes. */
  lemma StoredSame(s: Store, t: Store, nodes: Nodes, fi: nat, fi': nat)
    requires AllStored(s, nodes, fi) && SameShape(s, t) && SameSlots(s, t) && SameBytes(s, t)
    requires forall i | i in nodes :: i < |s.ino| && t.ino[i].typ == s.ino[i].typ && SizeOk(t.ino[i].size, nodes[i])
    requires forall i: nat | i < NINODES && !(1 <= i < fi') :: t.ino[i] == Blank(0)
    ensures AllStored(t, nodes, fi')
  {
    hide Store.Slot, Store.ByteAt, Data;
    forall i | i in nodes ensures Stores(t, i, nodes[i]) {
      assert Stores(s, i, nodes[i]);
      SameFilled(s, t, i, |Data(i, nodes[i])|);
    }
  }

  lemma SameFilled(s: Store, t: Store, i: nat, n: nat)
    requires i < |s.ino| && SameShape(s, t) && Filled(s, i, n)
    requires forall l: nat | l < NSLOT :: t.Slot(i, l) == s.Slot(i, l)
    ensures Filled(t, i, n)
  {
    hide Store.Slot;
  }

  lemma Appended(s: Store, t: Store, nodes: Nodes, fi: nat, i: nat, d: seq<byte>, p: seq<byte>)
    requires AllStored(s, nodes, fi) && 1 <= i < fi && i < |s.ino|
    requires Spliced(s, t, i, |d|, p) && SlotsElsewhere(s, t, i) && t.ino == s.ino[i := t.ino[i]]
    requires Holds(s, i, d) && |d| + |p| <= MAXBYTES
    ensures AllStored(t, nodes - {i}, fi) && Holds(t, i, d + p)
  {
    hide Store.Slot, Store.ByteAt, Data;
    forall j | j in nodes - {i} ensures Stores(t, j, nodes[j]) {
      assert Stores(s, j, nodes[j]);
      SameFilled(s, t, j, |Data(j, nodes[j])|);
    }
  }

  /** Blank inodes have no blocks, so a new type leaves slots and bytes alone. */
  lemma NewInode(s: Store, own: map<nat, Ref>, fb: nat, i: nat, typ: int)
    requires Allotted(s, own, fb) && i < NINODES && s.ino[i] == Blank(0)
    ensures var t := s.(ino := s.ino[i := Blank(typ)]);
            Allotted(t, own, fb) && SameSlots(s, t) && SameBytes(s, t)
  {
    var t := s.(ino := s.ino[i := Blank(typ)]);
    forall j: nat, l: nat | j < NINODES && l < NSLOT ensures t.Slot(j, l) == s.Slot(j, l) {}
    hide Store.Slot;
    forall c | c in own ensures Owns(t, own[c], c) { assert Owns(s, own[c], c); }
    forall j: nat, p: nat | j < |s.ino| && p < MAXBYTES ensures t.ByteAt(j, p) == s.ByteAt(j, p) {
      assert t.Slot(j, BnSlot(p / BSIZE)) == s.Slot(j, BnSlot(p / BSIZE));
    }
  }

  lemma BlankEmpty(s: Store, i: nat, typ: int)
    requires i < |s.ino| && s.ino[i] == Blank(typ)
    ensures Empty(s, i, typ)
  {}

  /** The records of all other inodes stay right when number fi comes into use. */
  lemma RecordsNew(disk: seq<Block>, ino: seq<Inode>, ino': seq<Inode>, fi: nat, fi': nat)
    requires RecordsOk(disk, ino, fi) && fi < NINODES && |ino'| == NINODES && fi' == fi + 1
    requires forall j: nat | j < NINODES && j != fi :: ino'[j] == ino[j]
    ensures forall j: nat | j < NINODES && j != fi :: RecordOk(disk, ino', j, fi')
  {
    hide ReadRecord;
    forall j: nat | j < NINODES && j != fi ensures RecordOk(disk, ino', j, fi') {
      assert RecordOk(disk, ino, j, fi);
    }
  }

  /** The next inode number, with a record of the given type and one link. */
  method Ialloc(b: Builder, typ: nat, ghost nodes: Nodes) returns (inum: nat)
    requires b.Valid() && b.freeinode < NINODES && typ <= 3 && AllStored(b.View(), nodes, b.freeinode)
    requires forall i | i in nodes :: i < b.freeinode
    modifies b`freeinode, b`ino, b.disk
    ensures inum == old(b.freeinode) && b.freeinode == inum + 1 && b.Valid()
    ensures b.ino == old(b.ino)[inum := Blank(typ)] && Empty(b.View(), inum, typ)
    ensures AllStored(b.View(), nodes, b.freeinode)
  {
    hide Allotted, Store.Slot, Store.ByteAt, Stores, Filled, Holds, RecordOk;
    inum := b.freeinode;
    ghost var s := b.View();
    AllottedShape(s, b.own, b.freeblock);
    b.freeinode := inum + 1;
    NewInode(s, b.own, b.freeblock, inum, typ);
    b.ino := b.ino[inum := Blank(typ)];
    ghost var s1 := b.View();
    RecordsNew(s.disk, s.ino, b.ino, inum, inum + 1);
    b.Winode(inum, DInode(typ, 0, 0, 1, 0, seq(13, _ => 0)), b.ino[inum], inum + 1);
    SlotsChain(s, s1, b.View());
    TypesStored(s, nodes, inum);
    StoredSame(s, b.View(), nodes, inum, inum + 1);
    BlankEmpty(b.View(), inum, typ);
  }

  /** A directory entry in memory: `xshort` of the inode number, and the name by `strncpy`. */
  method Dirent(inum: nat, name: seq<byte>) returns (de: seq<byte>)
    requires inum < 0x1_0000
    ensures de == Entry(Kid(inum, Key(name))) && |de| == 16
  {
    hide Key;
    var d := Strncpy(name);
    KeyChars(d);
    de := [inum % 256, inum / 256] + d;
    forall q: nat | q < DIRSIZ ensures d[q] == CharAt(Key(name), q) {
      if q < |Key(d)| { assert CharAt(d, q) == Key(d)[q]; }
    }
  }

  /** Appends p to inode i, which is not a node yet and holds d. */
  method Append(b: Builder, i: nat, p: seq<byte>, ghost d: seq<byte>, ghost nodes: Nodes) returns (ok: bool)
    requires b.Valid() && AllStored(b.View(), nodes, b.freeinode) && i !in nodes && 1 <= i < b.freeinode && i < |b.ino|
    requires Holds(b.View(), i, d) && Filled(b.View(), i, |d|) && b.ino[i].size == |d|
    modifies b`freeblock, b`usedblocks, b`ino, b`own, b.disk
    ensures ok <==> |d| + |p| <= MAXBYTES && old(b.freeblock) + Blocks(|d| + |p|) - Blocks(|d|) <= SIZE
    ensures ok ==> b.Valid() && |b.ino| == NINODES && b.ino == old(b.ino)[i := b.ino[i]]
                   && b.ino[i].typ == old(b.ino)[i].typ && b.ino[i].size == |d| + |p|
                   && AllStored(b.View(), nodes, b.freeinode) && Holds(b.View(), i, d + p)
                   && Filled(b.View(), i, |d| + |p|)
                   && b.freeblock == old(b.freeblock) + Blocks(|d| + |p|) - Blocks(|d|) <= SIZE
  {
    hide Allotted, Store.Slot, Store.ByteAt, RecordsOk, Stores, Filled, Spliced, Blocks;
    ghost var s := b.View();
    AllottedShape(s, b.own, b.freeblock);
    ok := b.Iappend(i, p);
    if ok {
      Appended(s, b.View(), nodes, b.freeinode, i, d, p);
      assert nodes - {i} == nodes;
      AllottedShape(b.View(), b.own, b.freeblock);
    }
  }

  /** Copies what reading a host file returns into inode inum. */
  method AddFile(b: Builder, inum: nat, runs: seq<seq<byte>>, ghost nodes: Nodes) returns (ok: bool)
    requires b.Valid() && AllStored(b.View(), nodes, b.freeinode) && inum !in nodes && 1 <= inum < b.freeinode
    requires Empty(b.View(), inum, 2)
    modifies b`freeblock, b`usedblocks, b`ino, b`own, b.disk
    ensures ok <==> |Flat(runs)| <= MAXBYTES && old(b.freeblock) + Blocks(|Flat(runs)|) <= SIZE
    ensures ok ==> b.Valid() && b.ino == old(b.ino)[inum := b.ino[inum]]
                   && AllStored(b.View(), nodes[inum := File(Flat(runs))], b.freeinode)
                   && b.freeblock == old(b.freeblock) + Blocks(|Flat(runs)|)
  {
    hide Allotted, Store.Slot, Store.ByteAt, RecordsOk, Stores, Filled, Spliced, Blocks, Holds, AllStored;
    hide Builder.Valid;
    EmptyHolds(b, inum, 2);
    ghost var fb0 := b.freeblock;
    var r := 0;
    while r < |runs|
      invariant r <= |runs| && b.Valid() && |b.ino| == NINODES && b.ino == old(b.ino)[inum := b.ino[inum]]
      invariant AllStored(b.View(), nodes, b.freeinode)
      invariant b.ino[inum].typ == 2 && b.ino[inum].size == |Flat(runs[..r])|
      invariant Holds(b.View(), inum, Flat(runs[..r])) && Filled(b.View(), inum, |Flat(runs[..r])|)
      invariant b.freeblock == fb0 + Blocks(|Flat(runs[..r])|) <= SIZE
    {
      FlatMore(runs, r);
      FlatPrefix(runs, r + 1);
      BlocksGrow(|Flat(runs[..r + 1])|, |Flat(runs)|);
      ok := Append(b, inum, runs[r], Flat(runs[..r]), nodes);
      if !ok {
        return;
      }
      r := r + 1;
    }
    assert runs[..r] == runs;
    FileStored(b.View(), inum, Flat(runs));
    StoredNew(b.View(), nodes, b.freeinode, inum, File(Flat(runs)));
    HoldsShort(b.View(), inum, Flat(runs));
    ok := true;
  }

  lemma EmptyHolds(b: Builder, i: nat, typ: int)
    requires b.Valid() && Empty(b.View(), i, typ)
    ensures |b.ino| == NINODES && i < NINODES && b.ino[i].typ == typ && b.ino[i].size == 0 && b.freeblock <= SIZE
    ensures Holds(b.View(), i, []) && Filled(b.View(), i, 0) && Blocks(0) == 0
  {
    hide Allotted, Store.Slot, Store.ByteAt, RecordsOk, Filled, Holds;
    AllottedShape(b.View(), b.own, b.freeblock);
  }

  lemma HoldsShort(s: Store, i: nat, d: seq<byte>)
    requires i < |s.ino| && Holds(s, i, d)
    ensures |d| <= MAXBYTES
  {}

  lemma FileStored(s: Store, i: nat, d: seq<byte>)
    requires i < |s.ino| && s.ino[i].typ == 2 && s.ino[i].size == |d| && Holds(s, i, d) && Filled(s, i, |d|)
    ensures Stores(s, i, File(d))
  {}

  lemma StoredNew(s: Store, nodes: Nodes, fi: nat, i: nat, node: Node)
    requires AllStored(s, nodes, fi) && Stores(s, i, node)
    ensures AllStored(s, nodes[i := node], fi)
  {
    hide Stores;
  }

  // ----- directories -----

  /** Appends the entries "." and ".." to the new directory cur. */
  method AddDots(b: Builder, cur: nat, parent: nat, ghost nodes: Nodes) returns (ok: bool)
    requires b.Valid() && AllStored(b.View(), nodes, b.freeinode) && cur !in nodes && 1 <= cur < b.freeinode
    requires Empty(b.View(), cur, 1) && parent < NINODES
    modifies b`freeblock, b`usedblocks, b`ino, b`own, b.disk
    ensures ok <==> old(b.freeblock) + Blocks(DirBytes(0)) <= SIZE
    ensures ok ==> b.Valid() && |b.ino| == NINODES && b.ino == old(b.ino)[cur := b.ino[cur]]
                   && b.ino[cur].size == DirBytes(0)
                   && AllStored(b.View(), nodes[cur := Dir(parent, [])], b.freeinode)
                   && b.freeblock == old(b.freeblock) + Blocks(DirBytes(0))
  {
    hide Allotted, Store.Slot, Store.ByteAt, RecordsOk, Stores, Filled, Blocks, Entry, Data, Holds, AllStored;
    hide Builder.Valid;
    EmptyHolds(b, cur, 1);
    BlocksGrow(16, 32);
    DotKeys();
    var de := Dirent(cur, DOT);
    assert [] + de == de;
    ok := Append(b, cur, de, [], nodes);
    if !ok {
      return;
    }
    ghost var d := de;
    de := Dirent(parent, DOTDOT);
    ok := Append(b, cur, de, d, nodes);
    if !ok {
      return;
    }
    DataOfDots(cur, parent);
    assert [] + d == d;
    DirStored(b.View(), cur, Dir(parent, []));
    StoredNew(b.View(), nodes, b.freeinode, cur, Dir(parent, []));
  }

  lemma DotKeys()
    ensures Key(DOT) == DOT && Key(DOTDOT) == DOTDOT
  {
    KeyIs(DOT, 1);
    KeyIs(DOTDOT, 2);
  }

  lemma DirStored(s: Store, i: nat, node: Node)
    requires i < |s.ino| && s.ino[i].typ == 1 && node.Dir? && InumsOk(AllKids(i, node))
    requires Holds(s, i, Data(i, node)) && Filled(s, i, |Data(i, node)|) && s.ino[i].size == DirBytes(|node.kids|)
    ensures Stores(s, i, node)
  {
    DataSize(i, node);
  }

  /** The node of directory cur with child k added under a host name. */
  ghost function WithKid(node: Node, k: nat, name: seq<byte>): Node
    requires node.Dir?
  {
    Dir(node.parent, node.kids + [Kid(k, Key(name))])
  }

  lemma DataSize(i: nat, node: Node)
    requires node.Dir? && InumsOk(AllKids(i, node))
    ensures |Data(i, node)| == DirBytes(|node.kids|)
  {}

  lemma DirLoad(s: Store, i: nat, node: Node)
    requires Stores(s, i, node) && node.Dir?
    ensures i < |s.ino| && s.ino[i].typ == 1 && InumsOk(AllKids(i, node)) && |Data(i, node)| == DirBytes(|node.kids|)
    ensures Holds(s, i, Data(i, node)) && Filled(s, i, DirBytes(|node.kids|))
  {
    DataSize(i, node);
  }

  /** Appends an entry for child k to directory cur. */
  method AddEntry(b: Builder, cur: nat, k: nat, name: seq<byte>, ghost nodes: Nodes) returns (ok: bool)
    requires b.Valid() && AllStored(b.View(), nodes, b.freeinode) && 1 <= cur < b.freeinode
    requires cur in nodes && nodes[cur].Dir? && |nodes[cur].kids| < NINODES && k < NINODES
    requires |b.ino| == NINODES && b.ino[cur].size == DirBytes(|nodes[cur].kids|)
    modifies b`freeblock, b`usedblocks, b`ino, b`own, b.disk
    ensures var n := |nodes[cur].kids|;
            && (ok <==> old(b.freeblock) + Blocks(DirBytes(n + 1)) - Blocks(DirBytes(n)) <= SIZE)
            && (ok ==> b.freeblock == old(b.freeblock) + Blocks(DirBytes(n + 1)) - Blocks(DirBytes(n)))
            && (ok ==> |b.ino| == NINODES && b.ino[cur].size == DirBytes(n + 1))
    ensures ok ==> b.Valid() && b.ino == old(b.ino)[cur := b.ino[cur]]
                   && AllStored(b.View(), nodes[cur := WithKid(nodes[cur], k, name)], b.freeinode)
  {
    hide Allotted, Store.Slot, Store.ByteAt, RecordsOk, Stores, Filled, Spliced, Blocks, Entry, Data, InumsOk, Key;
    ghost var s, node, node' := b.View(), nodes[cur], WithKid(nodes[cur], k, name);
    assert Stores(s, cur, node);
    DirLoad(s, cur, node);
    AllottedShape(s, b.own, b.freeblock);
    var de := Dirent(k, name);
    DataMore(cur, node, Kid(k, Key(name)));
    DataSize(cur, node');
    ok := b.Iappend(cur, de);
    if !ok {
      return;
    }
    Appended(s, b.View(), nodes, b.freeinode, cur, Data(cur, node), de);
    AllottedShape(b.View(), b.own, b.freeblock);
    DirStored(b.View(), cur, node');
    StoredNew(b.View(), nodes - {cur}, b.freeinode, cur, node');
    assert (nodes - {cur})[cur := node'] == nodes[cur := node'];
  }

  /** Rounds the size of directory cur up to whole blocks. */
  method CloseDir(b: Builder, cur: nat, ghost nodes: Nodes)
    requires b.Valid() && AllStored(b.View(), nodes, b.freeinode) && 1 <= cur < b.freeinode
    requires cur in nodes && nodes[cur].Dir? && |nodes[cur].kids| < NINODES
    requires |b.ino| == NINODES && b.ino[cur].size == DirBytes(|nodes[cur].kids|)
    modifies b`ino, b.disk
    ensures b.Valid() && AllStored(b.View(), nodes, b.freeinode)
    ensures b.ino == old(b.ino)[cur := old(b.ino)[cur].(size := (old(b.ino)[cur].size / BSIZE + 1) * BSIZE)]
  {
    hide Allotted, Store.Slot, Store.ByteAt, Stores, Filled, RecordOk;
    ghost var s := b.View();
    AllottedShape(s, b.own, b.freeblock);
    var din := b.Rinode(cur);
    var off := (din.size / BSIZE + 1) * BSIZE;
    SizeOnly(s, b.own, b.freeblock, cur, off);
    b.ino := b.ino[cur := b.ino[cur].(size := off)];
    ghost var s1 := b.View();
    OtherRecords(s.disk, b.disk[..], s.ino, b.ino, cur, b.freeinode);
    b.Winode(cur, din.(size := off), b.ino[cur], b.freeinode);
    SlotsChain(s, s1, b.View());
    TypesStored(s, nodes, b.freeinode);
    RoundedUp(nodes[cur], off);
    hide SizeOk;
    StoredSame(s, b.View(), nodes, b.freeinode, b.freeinode);
  }

  lemma RoundedUp(node: Node, size: nat)
    requires node.Dir? && |node.kids| < NINODES && size == (DirBytes(|node.kids|) / BSIZE + 1) * BSIZE
    ensures SizeOk(size, node)
  {}

  lemma TypesStored(s: Store, nodes: Nodes, fi: nat)
    requires AllStored(s, nodes, fi)
    ensures forall i | i in nodes :: i < |s.ino| && s.ino[i].typ == (if nodes[i].Dir? then 1 else 2)
                                     && SizeOk(s.ino[i].size, nodes[i])
  {
    forall i | i in nodes
      ensures i < |s.ino| && s.ino[i].typ == (if nodes[i].Dir? then 1 else 2) && SizeOk(s.ino[i].size, nodes[i])
    {
      assert Stores(s, i, nodes[i]);
    }
  }

  // ----- the walk over the host tree -----

  function Listed(listing: Option<seq<Host>>): seq<Host> { if listing.Some? then listing.value else [] }

  /** Node cur is a directory below parent that holds what the host lists in es; all inodes in
      use are below fi. */
  ghost predicate Filed(nodes: Nodes, fi: nat, cur: nat, parent: nat, es: seq<Host>) {
    && cur in nodes && nodes[cur].Dir? && nodes[cur].parent == parent && |nodes[cur].kids| == KidCount(es)
    && Mirrors(nodes, fi, cur, nodes[cur].kids, es)
  }

  lemma FiledFirst(nodes: Nodes, fi: nat, cur: nat, parent: nat)
    ensures Filed(nodes[cur := Dir(parent, [])], fi, cur, parent, [])
  {}

  /** A dot entry of the host changes nothing. */
  lemma FiledDots(nodes: Nodes, fi: nat, cur: nat, parent: nat, es: seq<Host>, j: nat)
    requires j < |es| && IsDots(es[j].name) && Filed(nodes, fi, cur, parent, es[..j])
    ensures Filed(nodes, fi, cur, parent, es[..j + 1])
  {
    assert es[..j + 1][..j] == es[..j];
  }

  /** Any other entry adds a child. */
  lemma FiledMore(nodes: Nodes, nodes1: Nodes, fi: nat, fi': nat, cur: nat, parent: nat, es: seq<Host>, j: nat, k: nat)
    requires j < |es| && !IsDots(es[j].name) && Filed(nodes, fi, cur, parent, es[..j])
    requires cur < fi <= k < fi' && k in nodes1 && MirrorsNode(nodes1, fi', cur, k, es[j])
    requires forall i | i in nodes :: i < fi && i in nodes1 && nodes1[i] == nodes[i]
    requires cur in nodes1 && nodes1[cur].Dir?
    ensures Filed(nodes1[cur := WithKid(nodes1[cur], k, es[j].name)], fi', cur, parent, es[..j + 1])
  {
    var node := WithKid(nodes1[cur], k, es[j].name);
    var nodes' := nodes1[cur := node];
    assert es[..j + 1][..j] == es[..j];
    assert node.kids[..|node.kids| - 1] == nodes[cur].kids;
    MirrorsFrame(nodes, nodes', fi, fi', cur, nodes[cur].kids, es[..j]);
    if es[j].HDir? {
      MirrorsFrame(nodes1, nodes', fi', fi', k, nodes1[k].kids, es[j].entries);
    }
  }

  lemma StateTree(b: Builder, nodes: Nodes, place: Places, n: nat)
    requires State(b, nodes, place, n)
    ensures b.Valid() && |b.ino| == NINODES && b.freeblock <= SIZE && n <= b.freeinode
    ensures Tree(nodes, place, n) && AllStored(b.View(), nodes, b.freeinode)
    ensures forall i: nat :: i in nodes <==> 1 <= i < n
    ensures forall k | k in place :: k < n
  {
    forall k | k in place ensures k < n { assert Placed(nodes, place[k], k, n); }
  }

  lemma KeptMore(nodes: Nodes, ino: seq<Inode>, nodes1: Nodes, ino1: seq<Inode>, nodes2: Nodes, ino2: seq<Inode>,
          cur: nat)
    requires Kept(nodes, ino, nodes1, ino1, 0) && Kept(nodes1, ino1, nodes2, ino2, cur) && cur !in nodes && 0 !in nodes
    ensures Kept(nodes, ino, nodes2, ino2, 0)
  {}

  lemma KeptFirst(nodes: Nodes, ino: seq<Inode>, cur: nat)
    ensures Kept(nodes, ino, nodes, ino, cur)
  {}

  lemma KeptNew(nodes: Nodes, ino: seq<Inode>, cur: nat, node: Node, x: Inode)
    requires cur !in nodes && cur < |ino|
    ensures Kept(nodes, ino, nodes[cur := node], ino[cur := x], 0)
  {}

  lemma KeptThen(nodes: Nodes, ino: seq<Inode>, nodes1: Nodes, ino1: seq<Inode>, nodes2: Nodes, ino2: seq<Inode>,
          cur: nat)
    requires Kept(nodes, ino, nodes1, ino1, cur) && Kept(nodes1, ino1, nodes2, ino2, cur)
    ensures Kept(nodes, ino, nodes2, ino2, cur)
  {}

  lemma KeptSize(nodes: Nodes, ino: seq<Inode>, nodes1: Nodes, ino1: seq<Inode>, cur: nat, x: Inode)
    requires Kept(nodes, ino, nodes1, ino1, 0) && cur !in nodes && cur < |ino1|
    ensures Kept(nodes, ino, nodes1, ino1[cur := x], 0)
  {}

  lemma PlacedNone(place: Places, n: nat)
    ensures PlacedMore(place, place, n, n)
  {}

  lemma PlacedThen(place: Places, place1: Places, place2: Places, lo: nat, mid: nat, hi: nat)
    requires lo <= mid <= hi && PlacedMore(place, place1, lo, mid) && PlacedMore(place1, place2, mid, hi)
    ensures PlacedMore(place, place2, lo, hi)
  {}

  lemma PlacedChild(place: Places, place1: Places, k: nat, hi: nat, p: Place)
    requires PlacedMore(place, place1, k + 1, hi) && k < hi && k !in place
    ensures PlacedMore(place, place1[k := p], k, hi) && k !in place1
  {}

  lemma FilesFirst(es: seq<Host>)
    ensures FilesOk(es[..0])
  {}

  lemma FilesMore(es: seq<Host>, j: nat)
    requires j < |es|
    ensures FilesOk(es[..j + 1]) <==> FilesOk(es[..j]) && FileOk(es[j])
    ensures FilesOk(es) ==> FileOk(es[j])
    ensures NamesOk(es) ==> HostOk(es[j])
  {
    hide FileOk, HostOk;
    assert forall k: nat | k < j :: es[..j][k] == es[..j + 1][k];
  }

  lemma DotsOk(e: Host)
    requires IsDots(e.name)
    ensures FileOk(e)
  {}

  /** Fills the new directory cur with what the host lists; the listing is missing when the host
      cannot open the directory. It succeeds exactly when all blocks fit and no file is too large. */
  method AddDir(b: Builder, cur: nat, parent: nat, listing: Option<seq<Host>>, ghost nodes: Nodes, ghost place: Places)
    returns (ok: bool, ghost nodes': Nodes, ghost place': Places)
    requires State(b, nodes, place, cur) && 1 <= cur && b.freeinode == cur + 1 && parent < NINODES
    requires Empty(b.View(), cur, 1)
    requires cur + 1 + Count(Listed(listing)) <= NINODES && NamesOk(Listed(listing))
    modifies b, b.disk
    ensures ok <==> FilesOk(Listed(listing)) && old(b.freeblock) + DirBlocks(Listed(listing)) <= SIZE
    ensures ok ==> b.freeblock == old(b.freeblock) + DirBlocks(Listed(listing))
                   && b.freeinode == cur + 1 + Count(Listed(listing))
                   && State(b, nodes', place', b.freeinode)
                   && Kept(nodes, old(b.ino), nodes', b.ino, 0) && PlacedMore(place, place', cur + 1, b.freeinode)
                   && Filed(nodes', b.freeinode, cur, parent, Listed(listing)) && |b.ino| == NINODES
                   && b.ino[cur].size == if listing.None? then DirBytes(0)
                      else (DirBytes(|nodes'[cur].kids|) / BSIZE + 1) * BSIZE
    decreases Count(Listed(listing)), 3
  {
    hide Allotted, Store.Slot, Store.ByteAt, RecordsOk, Filled, Holds, Blocks, AllStored, Tree, Mirrors, Key, State;
    hide Builder.Valid, Kept, PlacedMore, HostOk, FileOk, FilesOk, BlocksIn, MirrorsNode;
    ghost var es := Listed(listing);
    ghost var ino0, fb0 := b.ino, b.freeblock;
    StateTree(b, nodes, place, cur);
    nodes', place' := nodes, place;
    CountPrefix(es, 0);
    CountNone();
    assert es[..0] == [];
    FilesFirst(es);
    ok := AddDots(b, cur, parent, nodes);
    if !ok {
      return;
    }
    nodes' := nodes[cur := Dir(parent, [])];
    TreeNew(nodes, place, cur, Dir(parent, []));
    FiledFirst(nodes, b.freeinode, cur, parent);
    KeptNew(nodes, ino0, cur, Dir(parent, []), b.ino[cur]);
    ghost var ino1 := b.ino;
    PlacedNone(place, cur + 1);
    StateIs(b, nodes', place', b.freeinode);
    if listing.None? {
      return;
    }
    ok, nodes', place' := AddEntries(b, cur, parent, listing.value, nodes', place');
    if !ok {
      return;
    }
    PlacedThen(place, place, place', cur + 1, cur + 1, b.freeinode);
    KeptMore(nodes, ino0, nodes[cur := Dir(parent, [])], ino1, nodes', b.ino, cur);
    StateTree(b, nodes', place', b.freeinode);
    ghost var ino2 := b.ino;
    CountPrefix(es, |es|);
    assert es[..|es|] == es;
    CloseDir(b, cur, nodes');
    KeptSize(nodes, ino0, nodes', ino2, cur, b.ino[cur]);
    StateIs(b, nodes', place', b.freeinode);
  }

  /** The loop over the listing: one child after the other, the dot entries of the host skipped. */
  method AddEntries(b: Builder, cur: nat, parent: nat, es: seq<Host>, ghost nodes: Nodes, ghost place: Places)
    returns (ok: bool, ghost nodes': Nodes, ghost place': Places)
    requires State(b, nodes, place, b.freeinode) && 1 <= cur < b.freeinode && Filed(nodes, b.freeinode, cur, parent, [])
    requires |b.ino| == NINODES && b.ino[cur].size == DirBytes(0)
    requires b.freeinode + Count(es) <= NINODES && NamesOk(es)
    modifies b, b.disk
    ensures ok <==> FilesOk(es) && old(b.freeblock) + DirBlocks(es) - DirBlocks([]) <= SIZE
    ensures ok ==> b.freeblock == old(b.freeblock) + DirBlocks(es) - DirBlocks([])
                   && b.freeinode == old(b.freeinode) + Count(es)
                   && State(b, nodes', place', b.freeinode)
                   && Kept(nodes, old(b.ino), nodes', b.ino, cur)
                      && PlacedMore(place, place', old(b.freeinode), b.freeinode)
                   && Filed(nodes', b.freeinode, cur, parent, es)
                   && |b.ino| == NINODES && b.ino[cur].size == DirBytes(KidCount(es))
    decreases Count(es), 2
  {
    hide Allotted, Store.Slot, Store.ByteAt, RecordsOk, Filled, Holds, Blocks, AllStored, Tree, Mirrors, Key, State;
    hide Builder.Valid, Kept, PlacedMore, Filed, HostOk, FileOk, Count, BlocksIn, KidCount, FilesOk;
    ghost var ino0, fi0, fb0 := b.ino, b.freeinode, b.freeblock;
    nodes', place' := nodes, place;
    CountNone();
    StateTree(b, nodes, place, fi0);
    KeptFirst(nodes, ino0, cur);
    PlacedNone(place, fi0);
    FilesFirst(es);
    assert es[..0] == [];
    var j := 0;
    while j < |es|
      invariant j <= |es| && State(b, nodes', place', b.freeinode) && |b.ino| == NINODES
      invariant b.freeinode == fi0 + Count(es[..j]) && b.freeblock == fb0 + DirBlocks(es[..j]) - DirBlocks([]) <= SIZE
      invariant Kept(nodes, ino0, nodes', b.ino, cur) && PlacedMore(place, place', fi0, b.freeinode)
      invariant Filed(nodes', b.freeinode, cur, parent, es[..j]) && FilesOk(es[..j])
      invariant b.ino[cur].size == DirBytes(KidCount(es[..j]))
    {
      CountMore(es, j);
      CountPrefix(es, j + 1);
      CountPrefix(es, j);
      FilesMore(es, j);
      if IsDots(es[j].name) {
        DotsOk(es[j]);
        FiledDots(nodes', b.freeinode, cur, parent, es, j);
      } else {
        ghost var nodes1, place1, ino1, fi := nodes', place', b.ino, b.freeinode;
        ok, nodes', place' := AddOne(b, cur, es[j], nodes1, place1, parent, es, j);
        if !ok {
          return;
        }
        PlacedThen(place, place1, place', fi0, fi, b.freeinode);
        KeptThen(nodes, ino0, nodes1, ino1, nodes', b.ino, cur);
        StateTree(b, nodes', place', b.freeinode);
      }
      j := j + 1;
    }
    assert es[..j] == es;
    ok := true;
  }

  lemma StateIs(b: Builder, nodes: Nodes, place: Places, n: nat)
    requires b.Valid() && Tree(nodes, place, n) && n <= b.freeinode && AllStored(b.View(), nodes, b.freeinode)
    ensures State(b, nodes, place, n)
  {}

  /** Copies the host entry e = es[j] into the directory cur: first its own inode and all below
      it, then the entry for it. */
  method AddOne(b: Builder, cur: nat, e: Host, ghost nodes: Nodes, ghost place: Places, ghost parent: nat,
          ghost es: seq<Host>, ghost j: nat)
    returns (ok: bool, ghost nodes': Nodes, ghost place': Places)
    requires State(b, nodes, place, b.freeinode) && 1 <= cur < b.freeinode
    requires j < |es| && e == es[j] && !IsDots(e.name) && HostOk(e) && b.freeinode + CountOf(e) <= NINODES
    requires Filed(nodes, b.freeinode, cur, parent, es[..j]) && KidCount(es[..j]) < NINODES
    requires |b.ino| == NINODES && b.ino[cur].size == DirBytes(KidCount(es[..j]))
    modifies b, b.disk
    ensures var k := KidCount(es[..j]);
            && (ok <==> FileOk(e) && old(b.freeblock) + BlocksOf(e)
                        + Blocks(DirBytes(k + 1)) - Blocks(DirBytes(k)) <= SIZE)
            && (ok ==> b.freeblock == old(b.freeblock) + BlocksOf(e) + Blocks(DirBytes(k + 1)) - Blocks(DirBytes(k))
                       && |b.ino| == NINODES && b.ino[cur].size == DirBytes(k + 1))
    ensures ok ==> b.freeinode == old(b.freeinode) + CountOf(e) && State(b, nodes', place', b.freeinode)
                   && Kept(nodes, old(b.ino), nodes', b.ino, cur)
                   && PlacedMore(place, place', old(b.freeinode), b.freeinode)
                   && Filed(nodes', b.freeinode, cur, parent, es[..j + 1])
    decreases CountOf(e), 1
  {
    hide Allotted, Store.Slot, Store.ByteAt, RecordsOk, Filled, Holds, Blocks, AllStored, Tree, Mirrors, MirrorsNode;
    hide Key, State, Builder.Valid, PlacedMore, HostOk, FileOk;
    ghost var fi := b.freeinode;
    StateTree(b, nodes, place, fi);
    nodes', place' := nodes, place;
    BlocksGrow(DirBytes(KidCount(es[..j])), DirBytes(KidCount(es[..j]) + 1));
    var child;
    ghost var nodes1, place1;
    ok, child, nodes1, place1 := AddChild(b, cur, e, nodes, place);
    if !ok {
      return;
    }
    StateTree(b, nodes1, place1, b.freeinode);
    ok := AddEntry(b, cur, child, e.name, nodes1);
    if !ok {
      return;
    }
    HostName(e);
    nodes' := nodes1[cur := WithKid(nodes1[cur], child, e.name)];
    place' := place1[child := Place(cur, |nodes1[cur].kids|)];
    PlacedChild(place, place1, child, b.freeinode, Place(cur, |nodes1[cur].kids|));
    TreeKid(nodes1, place1, b.freeinode, cur, child, Key(e.name));
    FiledMore(nodes, nodes1, fi, b.freeinode, cur, parent, es, j, child);
    StateIs(b, nodes', place', b.freeinode);
  }

  /** Cut at 14 bytes, a host name is still a name, and not one of the dot names. */
  lemma HostName(e: Host)
    requires HostOk(e) && !IsDots(e.name)
    ensures NameOk(Key(e.name))
  {
    KeyChars(e.name);
    assert CharAt(e.name, 0) == e.name[0] != 0;
    assert |Key(e.name)| == |e.name| ==> Key(e.name) == e.name;
  }

  /** Gives the host entry e an inode and copies the file, or the directory and all below it. */
  method AddChild(b: Builder, cur: nat, e: Host, ghost nodes: Nodes, ghost place: Places)
    returns (ok: bool, child: nat, ghost nodes': Nodes, ghost place': Places)
    requires State(b, nodes, place, b.freeinode) && 1 <= cur < b.freeinode
    requires !IsDots(e.name) && HostOk(e) && b.freeinode + CountOf(e) <= NINODES
    modifies b, b.disk
    ensures ok <==> FileOk(e) && old(b.freeblock) + BlocksOf(e) <= SIZE
    ensures ok ==> child == old(b.freeinode) && b.freeinode == child + CountOf(e) && child in nodes'
                   && b.freeblock == old(b.freeblock) + BlocksOf(e)
                   && State(b, nodes', place', b.freeinode)
                   && Kept(nodes, old(b.ino), nodes', b.ino, 0) && PlacedMore(place, place', child + 1, b.freeinode)
                   && MirrorsNode(nodes', b.freeinode, cur, child, e)
                   && (nodes'[child].Dir? ==> nodes'[child].parent == cur)
    decreases CountOf(e), 0
  {
    hide Allotted, Store.Slot, Store.ByteAt, RecordsOk, Filled, Holds, Blocks, AllStored, Tree, Key, State;
    hide Builder.Valid;
    StateTree(b, nodes, place, b.freeinode);
    nodes', place' := nodes, place;
    if e.HFile? {
      child := Ialloc(b, 2, nodes);
      ok := AddFile(b, child, e.runs, nodes);
      if ok {
        nodes' := nodes[child := File(Flat(e.runs))];
        TreeNew(nodes, place, child, File(Flat(e.runs)));
        StateIs(b, nodes', place, b.freeinode);
      }
    } else {
      child := Ialloc(b, 1, nodes);
      StateIs(b, nodes, place, child);
      ok, nodes', place' := AddDir(b, child, cur, if e.HDir? then Some(e.entries) else None, nodes, place);
    }
  }

  // ----- the program -----

  /** The kernel can work with directory d exactly when its children have different names, and then
      it sees just them, "." and "..". */
  ghost predicate DirBuilt(s: Store, d: nat, node: Node)
    requires node.Dir?
  {
    && d < |s.ino| && (FsContents.DirOk(s, d) <==> MkfsKernel.DistinctNames(node.kids))
    && (FsContents.DirOk(s, d) ==> MkfsKernel.Lists(FsContents.Dir(s, d), AllKids(d, node)))
  }

  lemma DirsBuilt(w: MkfsGood.Made)
    requires MkfsGood.Built(w)
    ensures forall d | d in w.nodes && w.nodes[d].Dir? :: DirBuilt(w.s, d, w.nodes[d])
  {
    hide MkfsGood.Built;
    forall d | d in w.nodes && w.nodes[d].Dir? ensures DirBuilt(w.s, d, w.nodes[d]) { MkfsKernel.BuiltDir(w, d); }
  }

  /** What the kernel makes of an image that was built from the listing es. */
  ghost predicate KernelSees(s: Store, es: seq<Host>) {
    && (FsNamex.DirsOk(s) <==> MkfsHost.TreeApart(es))
    && (MkfsHost.TreeApart(es) ==> forall names | MkfsHost.Plain(names) ::
          MkfsHost.ShownAs(s, FsNamex.Walk(s, FsNamex.ROOTINO, names), MkfsHost.HostAt(es, names)))
  }

  /** Names that can stand between the slashes of a path. */
  ghost predicate PathNames(names: seq<seq<byte>>) {
    MkfsHost.Plain(names) && forall n | n in names :: n != [] && FsPath.SLASH !in n && 0 !in n
  }

  lemma {:induction false} JoinClean(names: seq<seq<byte>>)
    requires forall n | n in names :: 0 !in n
    ensures 0 !in FsPath.Join(names)
        && (names != [] ==> FsPath.Join(names) != [] && FsPath.Join(names)[0] == FsPath.SLASH)
  {
    if names != [] {
      assert forall n | n in names[1..] :: n in names;
      JoinClean(names[1..]);
      assert names[0] in names;
    }
  }

  /** On an image whose names stay apart, the kernel finds at the path "/n1/../nk", from any current
      directory, just what the host has there. */
  method NameiHost(fs: FileSystem.Fs, ghost es: seq<Host>, names: seq<seq<byte>>, cwd: nat) returns (r: Option<nat>)
    requires fs.Valid() && KernelSees(fs.View(), es) && MkfsHost.TreeApart(es) && PathNames(names)
    requires FsNamex.ROOTINO < fs.inode.Length && cwd < fs.inode.Length
    requires FsNamex.PathNeed(fs.View(), FsNamex.ROOTINO, names) <= |fs.View().Free()|
    modifies fs.disk, fs.inode, fs`own
    ensures fs.Valid() && FsNamex.MoreMapped(old(fs.View()), fs.View())
    ensures MkfsHost.ShownAs(old(fs.View()), r, MkfsHost.HostAt(es, names))
  {
    hide FsNamex.Walk, FsNamex.WalkParent, FsNamex.DirsOk, FsNamex.MoreMapped, FsPath.Elements, FsNamex.PathNeed, Key;
    hide MkfsHost.TreeApart, MkfsHost.ShownAs, MkfsHost.HostAt, MkfsHost.Plain, FsPath.Join, Store.Owned;
    var path := FsPath.Join(names);
    PlainPath(names);
    r := FsNamex.Namei(fs, path, cwd);
  }

  lemma PlainPath(names: seq<seq<byte>>)
    requires PathNames(names)
    ensures var p := FsPath.Join(names); p != [] && p[0] == FsPath.SLASH && 0 !in p && FsPath.Elements(p) == names
  {
    hide FsPath.Join, FsPath.Elements;
    JoinClean(names);
    forall k: nat | k < |names| ensures names[k] != [] && FsPath.SLASH !in names[k] { assert names[k] in names; }
    FsPath.ElementsOfJoin(names);
  }

  lemma Finished(w: MkfsGood.Made, es: seq<Host>)
    requires MkfsGood.Built(w) && Filed(w.nodes, w.fi, 1, 1, es)
    ensures w.s.Inv(w.own) && FileSystem.FirstClear(w.s, w.fb) && w.s.Free() == Upto(w.fb, SIZE)
    ensures forall d | d in w.nodes && w.nodes[d].Dir? :: DirBuilt(w.s, d, w.nodes[d])
    ensures KernelSees(w.s, es)
    ensures w.Img().Shape() && w.Img().EntriesInTable() && w.Img().Good()
    ensures |w.s.disk| == SIZE && StoreOf(w.s.disk) == w.s
  {
    MadeSays(w);
    hide MkfsGood.Built, FileSystem.FirstClear, DirBuilt, FsImage.Image.EntriesInTable, FsImage.Image.Good, Store.Owned;
    hide Mirrors, StoreOf, FsNamex.DirsOk, MkfsHost.TreeApart, MkfsHost.ShownAs, MkfsHost.HostAt, MkfsHost.Plain;
    MkfsGood.BuiltGood(w);
    MkfsKernel.BuiltInv(w);
    MkfsKernel.BuiltFree(w);
    DirsBuilt(w);
    MkfsHost.BuiltDirs(w, es);
    forall names | MkfsHost.TreeApart(es) && MkfsHost.Plain(names)
      ensures MkfsHost.ShownAs(w.s, FsNamex.Walk(w.s, FsNamex.ROOTINO, names), MkfsHost.HostAt(es, names))
    {
      MkfsHost.WalkHost(w, 1, es, names);
    }
  }

  lemma MadeSays(w: MkfsGood.Made)
    requires MkfsGood.Built(w)
    ensures |w.s.disk| == SIZE && StoreOf(w.s.disk) == w.s
  {
    hide AllStored, Tree, BitsBelow, SuperOk, RecordOk, StoreOf;
    AllottedShape(w.s, w.own, w.fb);
    RecordsSay(w.s.disk, w.s.ino, w.fi);
  }

  /** The root directory and all below it, before the bitmap is written. */
  method BuildTree(listing: Option<seq<Host>>) returns (ok: bool, b: Builder, ghost nodes: Nodes, ghost place: Places)
    requires 2 + Count(Listed(listing)) <= NINODES && NamesOk(Listed(listing))
    ensures fresh(b) && fresh(b.disk)
    ensures ok <==> FilesOk(Listed(listing)) && FIRST + DirBlocks(Listed(listing)) <= SIZE
    ensures ok ==> b.freeblock == FIRST + DirBlocks(Listed(listing)) && b.freeinode == 2 + Count(Listed(listing))
                   && State(b, nodes, place, b.freeinode) && Filed(nodes, b.freeinode, 1, 1, Listed(listing))
                   && forall k: nat | 2 <= k < b.freeinode :: k in place
  {
    hide Allotted, Store.Slot, Store.ByteAt, RecordsOk, Filled, Holds, Blocks, Stores, Mirrors, Key, Kept, FilesOk;
    hide NamesOk;
    hide BlocksIn, DirBlocks, Count;
    b := new Builder();
    nodes, place := map[], map[];
    var root := Ialloc(b, 1, nodes);
    ok, nodes, place := AddDir(b, root, root, listing, nodes, place);
  }

  /** Builds an image from the host directory, of which the listing is missing when it cannot be
      opened. It succeeds exactly when all blocks fit and no file is too large; then the image, by
      the records in it, holds just what the host shows, the image checker accepts it, and it
      satisfies the invariant that the kernel's file system keeps. If and only if the names of the
      host stay different after the cut to 14 bytes, all its directories are in order for the
      kernel, and then the kernel finds at every path just what the host has there. */
  method Build(listing: Option<seq<Host>>) returns (ok: bool, b: Builder, ghost nodes: Nodes)
    requires 2 + Count(Listed(listing)) <= NINODES && NamesOk(Listed(listing))
    ensures ok <==> FilesOk(Listed(listing)) && FIRST + DirBlocks(Listed(listing)) <= SIZE
    ensures ok ==> AllStored(b.View(), nodes, b.freeinode) && Filed(nodes, b.freeinode, 1, 1, Listed(listing))
                   && forall i: nat :: i in nodes <==> 1 <= i < 2 + Count(Listed(listing))
    ensures ok ==> b.disk.Length == SIZE && b.View() == StoreOf(b.disk[..])
                   && b.freeinode == 2 + Count(Listed(listing)) && RecordsOk(b.disk[..], b.ino, b.freeinode)
    ensures ok ==> KernelSees(b.View(), Listed(listing))
    ensures ok ==> b.View().Inv(b.own) && FileSystem.FirstClear(b.View(), FIRST + DirBlocks(Listed(listing)))
                   && b.View().Free() == Upto(FIRST + DirBlocks(Listed(listing)), SIZE)
    ensures ok ==> forall d | d in nodes && nodes[d].Dir? :: DirBuilt(b.View(), d, nodes[d])
    ensures ok ==> var img := FsImage.Image(b.disk[..]); img.Shape() && img.EntriesInTable() && img.Good()
    ensures fresh(b) && fresh(b.disk)
  {
    hide Allotted, Store.Slot, Store.ByteAt, RecordsOk, Filled, Holds, Blocks, Stores, Mirrors, Key, Bit, Kept;
    hide Store.Owned, FsImage.Image.Good, FsImage.Image.EntriesInTable, FilesOk, NamesOk, BlocksIn, DirBlocks;
    hide DirBuilt, FileSystem.FirstClear, Upto, Store.Free, SizeOk, KernelSees, StoreOf;
    ghost var place;
    ok, b, nodes, place := BuildTree(listing);
    if !ok {
      return;
    }
    AllottedShape(b.View(), b.own, b.freeblock);
    ghost var s := b.View();
    b.Balloc(b.usedblocks);
    TypesStored(s, nodes, b.freeinode);
    StoredSame(s, b.View(), nodes, b.freeinode, b.freeinode);
    ghost var w := MkfsGood.Made(b.View(), b.own, b.freeblock, nodes, place, b.freeinode);
    Finished(w, Listed(listing));
  }

  // ----- names that clash -----

  /** A name of 15 bytes. */
  function LongName(last: byte): seq<byte> { seq<byte>(DIRSIZ, _ => 97) + [last] }

  /** Two empty files whose names differ in the last of 15 bytes. */
  function TwoFiles(): seq<Host> { [HFile(LongName(98), []), HFile(LongName(99), [])] }

  /** Two empty files with names that are not dots. */
  ghost predicate Empties(a: Host, b: Host) {
    a.HFile? && b.HFile? && a.runs == b.runs == [] && !IsDots(a.name) && !IsDots(b.name)
  }

  lemma PairCount(a: Host, b: Host)
    requires Empties(a, b)
    ensures Count([a, b]) == KidCount([a, b]) == 2 && BlocksIn([a, b]) == 0
  {
    hide IsDots;
    var es := [a, b];
    assert es[..1] == [a] && [a][..0] == [];
    assert BlocksOf(a) == BlocksOf(b) == Blocks(0) == 0;
    assert Count([a]) == KidCount([a]) == 1 && BlocksIn([a]) == 0;
  }

  lemma PairOk(a: Host, b: Host)
    requires Empties(a, b) && |a.name| > 0 && |b.name| > 0 && 0 !in a.name && 0 !in b.name
    ensures NamesOk([a, b]) && FilesOk([a, b])
  {
    hide IsDots;
    assert FileOk(a) && FileOk(b);
  }

  lemma PairCut(a: Host, b: Host)
    requires Empties(a, b) && Key(a.name) == Key(b.name)
    ensures !MkfsHost.TreeApart([a, b])
  {
    hide IsDots, Key;
    var es := [a, b];
    assert es[..1] == [a] && [a][..0] == [];
    assert MkfsHost.CutNames([a]) == [Key(a.name)];
    assert MkfsHost.CutNames(es) == [Key(a.name), Key(b.name)];
    assert MkfsHost.CutNames(es)[0] == MkfsHost.CutNames(es)[1];
  }

  lemma LongNames(last: byte)
    requires last != 0
    ensures |LongName(last)| == DIRSIZ + 1 && 0 !in LongName(last) && !IsDots(LongName(last))
    ensures Key(LongName(last)) == seq<byte>(DIRSIZ, _ => 97)
  {
    KeyIs(LongName(last), DIRSIZ);
  }

  lemma CutClash()
    ensures Count(TwoFiles()) == 2 && NamesOk(TwoFiles()) && FilesOk(TwoFiles()) && DirBlocks(TwoFiles()) == 1
    ensures !MkfsHost.TreeApart(TwoFiles())
  {
    LongNames(98);
    LongNames(99);
    hide LongName, Key, IsDots, Count, KidCount, BlocksIn, MkfsHost.TreeApart, NamesOk, FilesOk;
    var a, b := HFile(LongName(98), []), HFile(LongName(99), []);
    assert TwoFiles() == [a, b];
    PairCount(a, b);
    PairOk(a, b);
    PairCut(a, b);
  }

  /** Both files are copied, but the root directory has one name twice: the checker accepts the image,
      and the kernel's directory operations cannot rely on it. */
  method NamesClash() returns (b: Builder)
    ensures b.disk.Length == SIZE && b.View() == StoreOf(b.disk[..]) && b.View().Inv(b.own)
    ensures var img := FsImage.Image(b.disk[..]); img.Shape() && img.EntriesInTable() && img.Good()
    ensures !FsNamex.DirsOk(b.View())
  {
    hide Count, NamesOk, FilesOk, DirBlocks, TwoFiles, MkfsHost.TreeApart, FsNamex.DirsOk, StoreOf, Store.Owned;
    hide FsImage.Image.Good, FsImage.Image.EntriesInTable, AllStored, Filed, RecordsOk;
    CutClash();
    ghost var nodes;
    var ok;
    ok, b, nodes := Build(Some(TwoFiles()));
  }
}
