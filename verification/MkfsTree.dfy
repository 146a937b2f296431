/** The host tree that an image is built from, the inode tree that is built, and what it means
    that inode tree and bytes on disk agree. */
module MkfsTree {
  import opened FsLayout
  import opened FsNames
  import opened FsStore
  import opened MkfsStore
  import opened MkfsAppend

  /** What the host shows: a file as the byte runs that reading it returns, a directory as its
      listing, or a directory that cannot be listed. */
  datatype Host =
    HFile(name: seq<byte>, runs: seq<seq<byte>>) | HDir(name: seq<byte>, entries: seq<Host>) | HShut(name: seq<byte>)

  const DOT: seq<byte> := [46]
  const DOTDOT: seq<byte> := [46, 46]

  predicate IsDots(name: seq<byte>) { name == DOT || name == DOTDOT }

  function Flat(runs: seq<seq<byte>>): seq<byte> {
    if runs == [] then [] else Flat(runs[..|runs| - 1]) + runs[|runs| - 1]
  }

  lemma FlatLast(runs: seq<seq<byte>>)
    ensures Flat([]) == [] && (|runs| == 1 ==> Flat(runs) == runs[0])
    ensures runs != [] ==> Flat(runs) == Flat(runs[..|runs| - 1]) + runs[|runs| - 1]
  {
    assert |runs| == 1 ==> runs[..0] == [];
  }

  /** The bytes of some runs and then of others are those of all of them in order. */
  lemma {:induction false} FlatThen(a: seq<seq<byte>>, b: seq<seq<byte>>)
    ensures Flat(a + b) == Flat(a) + Flat(b)
    ensures Flat([]) == [] && (|a| == 1 ==> Flat(a) == a[0])
    decreases |b|
  {
    hide Flat;
    FlatLast(a);
    if b == [] {
      assert a + b == a;
    } else {
      var n := |b| - 1;
      FlatLast(b);
      FlatLast(a + b);
      assert (a + b)[..|a| + n] == a + b[..n];
      FlatThen(a, b[..n]);
      assert Flat(a) + Flat(b[..n]) + b[n] == Flat(a) + (Flat(b[..n]) + b[n]);
    }
  }

  lemma FlatMore(runs: seq<seq<byte>>, j: nat)
    requires j < |runs|
    ensures Flat(runs[..j + 1]) == Flat(runs[..j]) + runs[j]
  {
    assert runs[..j + 1][..j] == runs[..j];
  }

  lemma {:induction false} FlatPrefix(runs: seq<seq<byte>>, j: nat)
    requires j <= |runs|
    ensures |Flat(runs[..j])| <= |Flat(runs)|
  {
    if j < |runs| {
      FlatPrefix(runs[..|runs| - 1], j);
      assert runs[..|runs| - 1][..j] == runs[..j];
    } else {
      assert runs[..j] == runs;
    }
  }

  /** How many inodes the entries take; "." and ".." are skipped. */
  function Count(es: seq<Host>): nat
    decreases es
  {
    if es == [] then 0 else Count(es[..|es| - 1]) + CountOf(es[|es| - 1])
  }

  function CountOf(e: Host): nat
    decreases e
  {
    if IsDots(e.name) then 0 else if e.HDir? then 1 + Count(e.entries) else 1
  }

  /** How many children a directory with this listing gets. */
  function KidCount(es: seq<Host>): nat {
    if es == [] then 0 else KidCount(es[..|es| - 1]) + if IsDots(es[|es| - 1].name) then 0 else 1
  }

  /** How many blocks the entries take, without the directory that lists them. */
  function BlocksIn(es: seq<Host>): nat
    decreases es
  {
    if es == [] then 0 else BlocksIn(es[..|es| - 1]) + BlocksOf(es[|es| - 1])
  }

  function BlocksOf(e: Host): nat
    decreases e
  {
    if IsDots(e.name) then 0
    else if e.HFile? then Blocks(|Flat(e.runs)|)
    else if e.HShut? then Blocks(DirBytes(0))
    else Blocks(DirBytes(KidCount(e.entries))) + BlocksIn(e.entries)
  }

  /** The bytes of a directory with k children and the two dot entries. */
  function DirBytes(k: nat): nat { 16 * (k + 2) }

  /** How many blocks a directory with this listing takes, all below it included. */
  function DirBlocks(es: seq<Host>): nat { Blocks(DirBytes(KidCount(es))) + BlocksIn(es) }

  /** No file is larger than a file can be. */
  ghost predicate FilesOk(es: seq<Host>)
    decreases es
  {
    forall j: nat | j < |es| :: FileOk(es[j])
  }

  ghost predicate FileOk(e: Host)
    decreases e
  {
    IsDots(e.name) || ((e.HFile? ==> |Flat(e.runs)| <= MAXBYTES) && (e.HDir? ==> FilesOk(e.entries)))
  }

  /** Names of directory entries of the host: not empty, and without zero bytes. */
  ghost predicate NamesOk(es: seq<Host>)
    decreases es
  {
    forall j: nat | j < |es| :: HostOk(es[j])
  }

  ghost predicate HostOk(e: Host)
    decreases e
  {
    |e.name| > 0 && 0 !in e.name && (e.HDir? ==> NamesOk(e.entries))
  }

  lemma CountNone()
    ensures Count([]) == 0 && BlocksIn([]) == 0 && KidCount([]) == 0
  {}

  lemma CountMore(es: seq<Host>, j: nat)
    requires j < |es|
    ensures Count(es[..j + 1]) == Count(es[..j]) + CountOf(es[j])
    ensures BlocksIn(es[..j + 1]) == BlocksIn(es[..j]) + BlocksOf(es[j])
    ensures KidCount(es[..j + 1]) == KidCount(es[..j]) + if IsDots(es[j].name) then 0 else 1
  {
    assert es[..j + 1][..j] == es[..j];
  }

  lemma {:induction false} CountPrefix(es: seq<Host>, j: nat)
    requires j <= |es|
    ensures Count(es[..j]) <= Count(es) && BlocksIn(es[..j]) <= BlocksIn(es) && KidCount(es[..j]) <= KidCount(es)
    ensures KidCount(es[..j]) <= Count(es[..j])
    ensures DirBlocks(es[..j]) <= DirBlocks(es)
    decreases |es|
  {
    if es != [] && j < |es| {
      CountPrefix(es[..|es| - 1], j);
      assert es[..|es| - 1][..j] == es[..j];
    } else {
      assert es[..j] == es;
      if es != [] { CountPrefix(es[..|es| - 1], |es| - 1); assert es[..|es| - 1][..|es| - 1] == es[..|es| - 1]; }
    }
    BlocksGrow(DirBytes(KidCount(es[..j])), DirBytes(KidCount(es)));
  }

  // ----- the inode tree -----

  datatype Kid = Kid(inum: nat, name: seq<byte>)

  datatype Node = File(data: seq<byte>) | Dir(parent: nat, kids: seq<Kid>)

  /** Where a child stands: directory and position among its children. */
  datatype Place = Place(d: nat, j: nat)

  type Nodes = map<nat, Node>
  type Places = map<nat, Place>

  /** Inodes 1 to n - 1 are in the tree. Each child stands in one place of one directory with a
      smaller number, and a child that is a directory knows that directory as its parent. */
  ghost predicate Tree(nodes: Nodes, place: Places, n: nat) {
    && n <= NINODES
    && (forall i: nat :: i in nodes <==> 1 <= i < n)
    && (forall k | k in place :: Placed(nodes, place[k], k, n))
    && (forall d: nat, j: nat | d in nodes && nodes[d].Dir? && j < |nodes[d].kids| ::
          nodes[d].kids[j].inum in place && place[nodes[d].kids[j].inum] == Place(d, j))
  }

  ghost predicate Placed(nodes: Nodes, p: Place, k: nat, n: nat) {
    && 2 <= k < n && k in nodes && p.d < k && p.d in nodes && nodes[p.d].Dir?
    && p.j < |nodes[p.d].kids| && nodes[p.d].kids[p.j].inum == k
    && NameOk(nodes[p.d].kids[p.j].name)
    && (nodes[k].Dir? ==> nodes[k].parent == p.d)
  }

  /** The name of a child: one to 14 bytes, no zero byte, not "." or "..". */
  predicate NameOk(name: seq<byte>) { 1 <= |name| <= DIRSIZ && 0 !in name && !IsDots(name) }

  /** A new directory or file joins the tree. */
  lemma TreeNew(nodes: Nodes, place: Places, n: nat, node: Node)
    requires Tree(nodes, place, n) && 1 <= n < NINODES && (node.Dir? ==> node.kids == [])
    ensures Tree(nodes[n := node], place, n + 1)
  {
    var nodes' := nodes[n := node];
    forall k | k in place ensures Placed(nodes', place[k], k, n + 1) {
      assert Placed(nodes, place[k], k, n);
    }
  }

  /** A node without a place becomes the next child of directory d. */
  lemma TreeKid(nodes: Nodes, place: Places, n: nat, d: nat, k: nat, name: seq<byte>)
    requires Tree(nodes, place, n) && k in nodes && k !in place && d < k && d in nodes && nodes[d].Dir? && NameOk(name)
    requires nodes[k].Dir? ==> nodes[k].parent == d
    requires 2 <= k
    ensures var node := Dir(nodes[d].parent, nodes[d].kids + [Kid(k, name)]);
            Tree(nodes[d := node], place[k := Place(d, |nodes[d].kids|)], n)
  {
    var node := Dir(nodes[d].parent, nodes[d].kids + [Kid(k, name)]);
    var nodes', place' := nodes[d := node], place[k := Place(d, |nodes[d].kids|)];
    forall c | c in place' ensures Placed(nodes', place'[c], c, n) {
      if c != k { assert Placed(nodes, place[c], c, n); }
    }
    forall x: nat, j: nat | x in nodes' && nodes'[x].Dir? && j < |nodes'[x].kids|
      ensures nodes'[x].kids[j].inum in place' && place'[nodes'[x].kids[j].inum] == Place(x, j)
    {
      if !(x == d && j == |nodes[d].kids|) {
        assert nodes'[x].kids[j] == nodes[x].kids[j];
      }
    }
  }

  // ----- the inode tree and the host tree -----

  /** The children kids of directory cur are what the host lists in es, in that order, without
      the dot entries and with names cut at 14 bytes; their inodes are above cur and below n. */
  ghost predicate Mirrors(nodes: Nodes, n: nat, cur: nat, kids: seq<Kid>, es: seq<Host>)
    decreases es
  {
    if es == [] then |kids| == 0
    else
      var e, rest := es[|es| - 1], es[..|es| - 1];
      if IsDots(e.name) then Mirrors(nodes, n, cur, kids, rest)
      else
        && |kids| > 0 && Mirrors(nodes, n, cur, kids[..|kids| - 1], rest)
        && kids[|kids| - 1].name == Key(e.name) && cur < kids[|kids| - 1].inum < n && kids[|kids| - 1].inum in nodes
        && MirrorsNode(nodes, n, cur, kids[|kids| - 1].inum, e)
  }

  /** Node k is what the host entry e is, as a child of directory cur. */
  ghost predicate MirrorsNode(nodes: Nodes, n: nat, cur: nat, k: nat, e: Host)
    requires k in nodes
    decreases e
  {
    if e.HFile? then nodes[k] == File(Flat(e.runs))
    else if e.HShut? then nodes[k] == Dir(cur, [])
    else nodes[k].Dir? && nodes[k].parent == cur && Mirrors(nodes, n, k, nodes[k].kids, e.entries)
  }

  /** What a subtree mirrors depends on the inodes above its root only. */
  lemma {:induction false} MirrorsFrame(nodes: Nodes, nodes': Nodes, n: nat, n': nat, cur: nat, kids: seq<Kid>,
          es: seq<Host>)
    requires Mirrors(nodes, n, cur, kids, es) && n <= n'
    requires forall i: nat | cur < i < n && i in nodes :: i in nodes' && nodes'[i] == nodes[i]
    ensures Mirrors(nodes', n', cur, kids, es)
    decreases es
  {
    if es != [] {
      var e, rest := es[|es| - 1], es[..|es| - 1];
      if IsDots(e.name) {
        MirrorsFrame(nodes, nodes', n, n', cur, kids, rest);
      } else {
        var k := kids[|kids| - 1];
        MirrorsFrame(nodes, nodes', n, n', cur, kids[..|kids| - 1], rest);
        if e.HDir? {
          MirrorsFrame(nodes, nodes', n, n', k.inum, nodes[k.inum].kids, e.entries);
        }
      }
    }
  }

  // ----- the inode tree and the bytes on disk -----

  /** A directory entry: 16-bit inode number and a name filled up with zeros. */
  function Entry(k: Kid): (r: seq<byte>)
    requires k.inum < 0x1_0000
    ensures |r| == 16 && forall q: nat | q < DIRSIZ :: r[2 + q] == CharAt(k.name, q)
  {
    [k.inum % 256, k.inum / 256] + seq<byte>(DIRSIZ, q requires 0 <= q < DIRSIZ => CharAt(k.name, q))
  }

  ghost predicate InumsOk(kids: seq<Kid>) { forall j: nat | j < |kids| :: kids[j].inum < 0x1_0000 }

  ghost function Entries(kids: seq<Kid>): (r: seq<byte>)
    requires InumsOk(kids)
    ensures |r| == 16 * |kids|
  {
    if kids == [] then [] else Entries(kids[..|kids| - 1]) + Entry(kids[|kids| - 1])
  }

  lemma {:induction false} EntriesAt(kids: seq<Kid>, j: nat, q: nat)
    requires InumsOk(kids) && j < |kids| && q < 16
    ensures Entries(kids)[16 * j + q] == Entry(kids[j])[q]
  {
    if j < |kids| - 1 { EntriesAt(kids[..|kids| - 1], j, q); }
  }

  /** The entries of directory i, the dot entries first. */
  ghost function AllKids(i: nat, node: Node): seq<Kid>
    requires node.Dir?
  {
    [Kid(i, DOT), Kid(node.parent, DOTDOT)] + node.kids
  }

  /** The bytes that node i holds. */
  ghost function Data(i: nat, node: Node): seq<byte>
    requires node.Dir? ==> InumsOk(AllKids(i, node))
  {
    if node.File? then node.data else Entries(AllKids(i, node))
  }

  lemma DataMore(i: nat, node: Node, k: Kid)
    requires node.Dir? && InumsOk(AllKids(i, node)) && k.inum < 0x1_0000
    ensures var node' := Dir(node.parent, node.kids + [k]);
            InumsOk(AllKids(i, node')) && Data(i, node') == Data(i, node) + Entry(k)
  {
    var node' := Dir(node.parent, node.kids + [k]);
    assert AllKids(i, node') == AllKids(i, node) + [k];
    assert AllKids(i, node')[..|AllKids(i, node')| - 1] == AllKids(i, node);
  }

  lemma DataOfDots(i: nat, parent: nat)
    requires i < 0x1_0000 && parent < 0x1_0000
    ensures InumsOk(AllKids(i, Dir(parent, [])))
        && Data(i, Dir(parent, [])) == [] + Entry(Kid(i, DOT)) + Entry(Kid(parent, DOTDOT))
  {
    var kids := AllKids(i, Dir(parent, []));
    assert kids == [Kid(i, DOT), Kid(parent, DOTDOT)] && kids[..1] == [Kid(i, DOT)] && kids[..1][..0] == [];
    assert Entries(kids[..1]) == Entry(Kid(i, DOT));
  }

  /** Inode i holds the bytes d and zeros behind them. */
  ghost predicate Holds(s: Store, i: nat, d: seq<byte>)
    requires i < |s.ino|
  {
    |d| <= MAXBYTES && forall p: nat | p < MAXBYTES :: s.ByteAt(i, p) == if p < |d| then d[p] else 0
  }

  /** Inode i stores the node. */
  ghost predicate Stores(s: Store, i: nat, node: Node) {
    && i < |s.ino| && s.ino[i].typ == (if node.Dir? then 1 else 2)
    && (node.Dir? ==> InumsOk(AllKids(i, node)))
    && Holds(s, i, Data(i, node)) && Filled(s, i, |Data(i, node)|)
    && SizeOk(s.ino[i].size, node)
  }

  /** The size of a file is that of its data; that of a directory may be rounded up. */
  ghost predicate SizeOk(size: nat, node: Node) {
    if node.File? then size == |node.data|
    else size % 16 == 0 && DirBytes(|node.kids|) <= size <= MAXBYTES
  }

  /** The nodes are stored, and inodes that are not handed out are blank. */
  ghost predicate AllStored(s: Store, nodes: Nodes, fi: nat) {
    && |s.ino| == NINODES
    && (forall i | i in nodes :: Stores(s, i, nodes[i]))
    && (forall i: nat | i < NINODES && !(1 <= i < fi) :: s.ino[i] == Blank(0))
  }
}
