/** The free list of the user-level heap allocator and the tiling of its memory by blocks.
    Addresses and sizes count headers (8 bytes). */
module HeapList {
  /** A block header: the next block of the free list, and the size of this block. */
  datatype Header = Header(ptr: nat, size: nat)

  type Mem = map<nat, Header>

  const NULL: nat := 0
  const BASE: nat := 1   // the empty block that the list starts with; below all heap addresses

  /** fl are the blocks of the circular list, from BASE up. */
  ghost predicate Linkage(mem: Mem, fl: seq<nat>) {
    && |fl| > 0 && fl[0] == BASE && (forall i: nat | i < |fl| :: fl[i] in mem)
    && mem[BASE].size == 0 && (forall i: nat | 0 < i < |fl| :: mem[fl[i]].size > 0)
    && forall i: nat | i < |fl| :: mem[fl[i]].ptr == Next(fl, i)
  }

  /** The block after position i of the circle. */
  ghost function Next(fl: seq<nat>, i: nat): nat
    requires i < |fl|
  {
    if i + 1 < |fl| then fl[i + 1] else BASE
  }

  /** The blocks ascend and are disjoint; with gap == 1 none ends where another starts. */
  ghost predicate Ordered(mem: Mem, fl: seq<nat>, gap: nat) {
    forall i: nat, j: nat | i < j < |fl| :: fl[i] < fl[j] && End(mem, fl[i]) + gap <= fl[j]
  }

  ghost predicate ListOk(mem: Mem, fl: seq<nat>, gap: nat) { Linkage(mem, fl) && Ordered(mem, fl, gap) }

  /** The first address after a block. */
  ghost function End(mem: Mem, a: nat): nat {
    if a in mem then a + mem[a].size else a
  }

  /** `blocks` gives the size of every block, free or live; they cover the units of `tile`
      exactly, each unit once: tile[u] is the block that unit u belongs to. */
  ghost predicate Tiled(blocks: map<nat, nat>, tile: map<nat, nat>) {
    && (forall u | u in tile :: InBlock(blocks, tile[u], u))
    && (forall a: nat, u: nat | InBlock(blocks, a, u) :: u in tile && tile[u] == a)
  }

  /** Unit u lies in block a. */
  ghost predicate InBlock(blocks: map<nat, nat>, a: nat, u: nat) { a in blocks && a <= u < a + blocks[a] }

  /** The blocks are the listed ones and the live ones, with the sizes in their headers. */
  ghost predicate BlocksOf(mem: Mem, fl: seq<nat>, live: map<nat, nat>, blocks: map<nat, nat>) {
    && (forall a :: a in blocks <==> a in fl || a in live)
    && (forall a | a in blocks :: a in mem && mem[a].size == blocks[a])
    && (forall a | a in live :: a !in fl && live[a] == blocks[a] > 0 && a > BASE)
  }

  /** Two different blocks share no unit. */
  lemma BlocksApart(blocks: map<nat, nat>, tile: map<nat, nat>, a: nat, b: nat)
    requires Tiled(blocks, tile) && a in blocks && b in blocks && a < b && blocks[b] > 0
    ensures a + blocks[a] <= b
  {
    assert InBlock(blocks, b, b);
    assert !InBlock(blocks, a, b);
  }

  // ----- linking a block into the list -----

  /** The list with block b after position k. */
  ghost function Linked(fl: seq<nat>, k: nat, b: nat): seq<nat>
    requires k < |fl|
  {
    fl[..k + 1] + [b] + fl[k + 1..]
  }

  function LinkedMem(mem: Mem, p: nat, b: nat): Mem
    requires p in mem && b in mem
  {
    mem[b := mem[b].(ptr := mem[p].ptr)][p := mem[p].(ptr := b)]
  }

  lemma LinkedAt(fl: seq<nat>, k: nat, b: nat)
    requires k < |fl|
    ensures |Linked(fl, k, b)| == |fl| + 1
    ensures forall i: nat | i <= |fl| :: Linked(fl, k, b)[i] == if i <= k then fl[i] else if i == k + 1 then b
                                         else fl[i - 1]
  {}

  lemma LinkOrder(mem: Mem, mem': Mem, fl: seq<nat>, k: nat, b: nat)
    requires Ordered(mem, fl, 1) && k < |fl| && (forall a :: End(mem', a) == End(mem, a))
    requires End(mem, fl[k]) <= b && fl[k] < b && (k + 1 < |fl| ==> b < fl[k + 1] && End(mem, b) <= fl[k + 1])
    ensures Ordered(mem', Linked(fl, k, b), 0)
  {
    LinkedAt(fl, k, b);
    hide Linked, End;
    var fl' := Linked(fl, k, b);
    forall i: nat, j: nat | i < j < |fl'| ensures fl'[i] < fl'[j] && End(mem', fl'[i]) <= fl'[j] {
      if j == k + 1 && i < k { assert fl[i] < fl[k] && End(mem, fl[i]) <= fl[k]; }
      if i == k + 1 && j > k + 2 { assert fl[k + 1] < fl[j - 1]; }
    }
  }

  lemma LinkPointers(mem: Mem, fl: seq<nat>, k: nat, b: nat)
    requires Linkage(mem, fl) && k < |fl| && b in mem && b !in fl && mem[b].size > 0
    requires forall i: nat | i < |fl| && i != k :: fl[i] != fl[k]
    ensures Linkage(LinkedMem(mem, fl[k], b), Linked(fl, k, b))
  {
    LinkedAt(fl, k, b);
    hide Linked;
    var mem', fl' := LinkedMem(mem, fl[k], b), Linked(fl, k, b);
    assert fl'[0] == fl[0] == BASE;
    assert mem'[BASE].size == 0;
    forall i: nat | i < |fl'|
      ensures fl'[i] in mem' && mem'[fl'[i]].ptr == Next(fl', i)
        ensures i > 0 ==> mem'[fl'[i]].size > 0
    {
      assert fl'[i] == if i <= k then fl[i] else if i == k + 1 then b else fl[i - 1];
    }
  }

  // ----- joining a block with its successor -----

  function JoinedMem(mem: Mem, a: nat, b: nat): Mem
    requires a in mem && b in mem
  {
    mem[a := Header(mem[b].ptr, mem[a].size + mem[b].size)]
  }

  ghost function Without(fl: seq<nat>, k: nat): seq<nat>
    requires k < |fl|
  {
    fl[..k] + fl[k + 1..]
  }

  lemma WithoutAt(fl: seq<nat>, k: nat)
    requires k < |fl|
    ensures |Without(fl, k)| == |fl| - 1
    ensures forall i: nat | i < |fl| - 1 :: Without(fl, k)[i] == if i < k then fl[i] else fl[i + 1]
  {}

  lemma JoinPointers(mem: Mem, fl: seq<nat>, k: nat)
    requires Linkage(mem, fl) && 0 < k && k + 1 < |fl| && forall i: nat | i < |fl| && i != k :: fl[i] != fl[k]
    ensures Linkage(JoinedMem(mem, fl[k], fl[k + 1]), Without(fl, k + 1))
  {
    WithoutAt(fl, k + 1);
    hide Without;
    var mem', fl' := JoinedMem(mem, fl[k], fl[k + 1]), Without(fl, k + 1);
    assert fl'[0] == fl[0] == BASE && mem'[BASE].size == 0;
    forall i: nat | i < |fl'|
      ensures fl'[i] in mem' && mem'[fl'[i]].ptr == Next(fl', i) && (i > 0 ==> mem'[fl'[i]].size > 0)
    {
      assert fl'[i] == if i <= k then fl[i] else fl[i + 1];
      assert mem[fl[k + 1]].ptr == Next(fl, k + 1);
    }
  }

  lemma JoinOrder(mem: Mem, mem': Mem, fl: seq<nat>, k: nat)
    requires Ordered(mem, fl, 0) && k + 1 < |fl|
    requires forall a | a != fl[k] :: End(mem', a) == End(mem, a)
    requires End(mem', fl[k]) == End(mem, fl[k + 1])
    ensures Ordered(mem', Without(fl, k + 1), 0)
  {
    WithoutAt(fl, k + 1);
    hide Without, End;
    var fl' := Without(fl, k + 1);
    forall i: nat, j: nat | i < j < |fl'| ensures fl'[i] < fl'[j] && End(mem', fl'[i]) <= fl'[j] {
      if i == k { assert End(mem, fl[k + 1]) <= fl[j + 1]; }
    }
  }

  // ----- the tiling under these steps -----

  lemma LinkedMembers(fl: seq<nat>, k: nat, b: nat)
    requires k < |fl|
    ensures forall a :: a in Linked(fl, k, b) <==> a == b || a in fl
  {
    LinkedAt(fl, k, b);
    hide Linked;
    var fl' := Linked(fl, k, b);
    assert fl'[k + 1] == b;
    forall a | a in fl ensures a in fl' {
      var i: nat :| i < |fl| && fl[i] == a;
      assert fl'[if i <= k then i else i + 1] == a;
    }
  }

  lemma WithoutMembers(fl: seq<nat>, k: nat)
    requires k < |fl| && forall i: nat | i < |fl| && i != k :: fl[i] != fl[k]
    ensures forall a :: a in Without(fl, k) <==> a != fl[k] && a in fl
  {
    WithoutAt(fl, k);
    hide Without;
    var fl' := Without(fl, k);
    forall a | a in fl && a != fl[k] ensures a in fl' {
      var i: nat :| i < |fl| && fl[i] == a;
      assert fl'[if i < k then i else i - 1] == a;
    }
  }

  ghost function Retile(tile: map<nat, nat>, lo: nat, hi: nat, a: nat): map<nat, nat> {
    map u | u in tile :: if lo <= u < hi then a else tile[u]
  }

  ghost function JoinedBlocks(blocks: map<nat, nat>, a: nat, b: nat): map<nat, nat>
    requires a in blocks && b in blocks
  {
    (blocks - {b})[a := blocks[a] + blocks[b]]
  }

  /** Two adjacent blocks become one: the units of the second move to the first. */
  lemma JoinTiles(blocks: map<nat, nat>, tile: map<nat, nat>, a: nat, b: nat)
    requires Tiled(blocks, tile) && a in blocks && b in blocks && a + blocks[a] == b && blocks[a] > 0
    ensures Tiled(JoinedBlocks(blocks, a, b), Retile(tile, b, b + blocks[b], a))
  {
    var blocks', tile' := JoinedBlocks(blocks, a, b), Retile(tile, b, b + blocks[b], a);
    forall c: nat, u: nat | InBlock(blocks', c, u) ensures u in tile' && tile'[u] == c {
      assert InBlock(blocks, if c == a && u >= b then b else c, u);
      assert InBlock(blocks, b, u) <==> b <= u < b + blocks[b];
    }
    forall u | u in tile' ensures InBlock(blocks', tile'[u], u) {
      assert InBlock(blocks, tile[u], u);
      assert InBlock(blocks, b, u) <==> b <= u < b + blocks[b];
    }
  }

  ghost function SplitBlocks(blocks: map<nat, nat>, a: nat, n: nat): map<nat, nat>
    requires a in blocks && n <= blocks[a]
  {
    blocks[a := blocks[a] - n][a + blocks[a] - n := n]
  }

  /** The last n units of a block become a block of their own. */
  lemma SplitTiles(blocks: map<nat, nat>, tile: map<nat, nat>, a: nat, n: nat)
    requires Tiled(blocks, tile) && a in blocks && 0 < n < blocks[a]
    requires forall b | b in blocks && blocks[b] == 0 :: b < a
    ensures var q := a + blocks[a] - n;
            q !in blocks && Tiled(SplitBlocks(blocks, a, n), Retile(tile, q, q + n, q))
  {
    var q: nat := a + blocks[a] - n;
    assert InBlock(blocks, a, q);
    assert !InBlock(blocks, q, q);
    var blocks', tile' := SplitBlocks(blocks, a, n), Retile(tile, q, q + n, q);
    forall c: nat, u: nat | InBlock(blocks', c, u) ensures u in tile' && tile'[u] == c {
      assert InBlock(blocks, if c == q then a else c, u);
      assert c != q && c != a ==> !InBlock(blocks, a, u);
    }
    forall u | u in tile' ensures InBlock(blocks', tile'[u], u) {
      assert InBlock(blocks, tile[u], u);
      assert q <= u < q + n ==> InBlock(blocks, a, u);
    }
  }

  ghost function Range(p: nat, n: nat): set<nat> { set u: nat | p <= u < p + n && Unit(u) }

  ghost predicate Unit(u: nat) { true }

  /** New units form a new block. */
  lemma GrowTiles(blocks: map<nat, nat>, tile: map<nat, nat>, p: nat, n: nat)
    requires Tiled(blocks, tile) && p !in blocks && forall u: nat | p <= u < p + n :: u !in tile
    ensures Tiled(blocks[p := n], tile + map u | u in Range(p, n) :: p)
  {
    var blocks', tile' := blocks[p := n], tile + map u | u in Range(p, n) :: p;
    forall c: nat, u: nat | InBlock(blocks', c, u) ensures u in tile' && tile'[u] == c {
      if c != p { assert InBlock(blocks, c, u); } else { assert Unit(u) && u in Range(p, n); }
    }
    forall u | u in tile' ensures InBlock(blocks', tile'[u], u) {
      if u in tile { assert InBlock(blocks, tile[u], u); }
    }
  }

  // ----- freeing a block -----

  /** Position k of the list is where block b belongs. */
  ghost predicate Place(fl: seq<nat>, k: nat, b: nat) {
    k < |fl| && fl[k] < b && (k + 1 < |fl| ==> b < fl[k + 1])
  }

  lemma {:induction false} FindPlace(mem: Mem, fl: seq<nat>, b: nat, n: nat) returns (k: nat)
    requires Linkage(mem, fl) && b > BASE && b !in fl && 0 < n <= |fl| && (n < |fl| ==> b < fl[n])
    ensures Place(fl, k, b)
  {
    if n == 1 || fl[n - 1] < b { k := n - 1; } else { k := FindPlace(mem, fl, b, n - 1); }
  }

  /** With neighbours apart, all blocks are apart. */
  lemma Strictly(mem: Mem, fl: seq<nat>)
    requires Ordered(mem, fl, 0) && forall i: nat | i + 1 < |fl| :: Apart(mem, fl, i)
    ensures Ordered(mem, fl, 1)
  {
    forall i: nat, j: nat | i < j < |fl| ensures End(mem, fl[i]) + 1 <= fl[j] {
      assert Apart(mem, fl, i);
      if i + 1 < j { assert fl[i + 1] < fl[j]; }
    }
  }

  /** The block at position i ends before the next one starts. */
  ghost predicate Apart(mem: Mem, fl: seq<nat>, i: nat)
    requires i + 1 < |fl|
  {
    End(mem, fl[i]) < fl[i + 1]
  }

  /** A list, its live blocks and the tiling agree. */
  ghost predicate Agree(mem: Mem, fl: seq<nat>, live: map<nat, nat>, blocks: map<nat, nat>, tile: map<nat, nat>) {
    BlocksOf(mem, fl, live, blocks) && Tiled(blocks, tile)
  }

  lemma Distinct(mem: Mem, fl: seq<nat>, gap: nat, k: nat)
    requires Ordered(mem, fl, gap) && k < |fl|
    ensures forall i: nat | i < |fl| && i != k :: fl[i] != fl[k]
  {}

  /** The block fits between its neighbours. */
  lemma LinkFits(mem: Mem, fl: seq<nat>, live: map<nat, nat>, blocks: map<nat, nat>, tile: map<nat, nat>, k: nat,
          b: nat)
    requires Linkage(mem, fl) && Agree(mem, fl, live, blocks, tile) && b in live && Place(fl, k, b)
    ensures End(mem, fl[k]) <= b && (k + 1 < |fl| ==> End(mem, b) <= fl[k + 1])
  {
    assert fl[k] in blocks && (k + 1 < |fl| ==> fl[k + 1] in blocks);
    if k > 0 { BlocksApart(blocks, tile, fl[k], b); }
    if k + 1 < |fl| { BlocksApart(blocks, tile, b, fl[k + 1]); }
  }

  lemma LinkBlocksOf(mem: Mem, fl: seq<nat>, live: map<nat, nat>, blocks: map<nat, nat>, k: nat, b: nat)
    requires BlocksOf(mem, fl, live, blocks) && k < |fl| && b in live && fl[k] in mem && b in mem
    ensures BlocksOf(LinkedMem(mem, fl[k], b), Linked(fl, k, b), live - {b}, blocks)
  {
    LinkedMembers(fl, k, b);
    hide Linked;
  }

  lemma LinkApart(mem: Mem, m: Mem, fl: seq<nat>, k: nat, b: nat, i: nat)
    requires Ordered(mem, fl, 1) && k < |fl| && i < |fl| && i != k && i != k + 1
    requires forall a :: End(m, a) == End(mem, a)
    ensures |Linked(fl, k, b)| == |fl| + 1 && Apart(m, Linked(fl, k, b), i)
  {
    LinkedAt(fl, k, b);
    hide Linked, End;
    var j := if i < k then i else i - 1;
    assert End(mem, fl[j]) + 1 <= fl[j + 1];
  }

  lemma LinkStep(mem: Mem, fl: seq<nat>, live: map<nat, nat>, blocks: map<nat, nat>, tile: map<nat, nat>, k: nat,
          b: nat)
    requires ListOk(mem, fl, 1) && Agree(mem, fl, live, blocks, tile) && b in live && Place(fl, k, b)
    requires b in mem && fl[k] in mem && b !in fl && mem[b].size > 0
    ensures var m, l := LinkedMem(mem, fl[k], b), Linked(fl, k, b);
            |l| == |fl| + 1 && ListOk(m, l, 0) && Agree(m, l, live - {b}, blocks, tile)
            && forall i: nat | i < |fl| && i != k && i != k + 1 :: Apart(m, l, i)
  {
    hide Linked, Linkage, Ordered, BlocksOf, Tiled, Apart;
    var m, l := LinkedMem(mem, fl[k], b), Linked(fl, k, b);
    LinkedAt(fl, k, b);
    LinkFits(mem, fl, live, blocks, tile, k, b);
    Distinct(mem, fl, 1, k);
    LinkPointers(mem, fl, k, b);
    LinkOrder(mem, m, fl, k, b);
    LinkBlocksOf(mem, fl, live, blocks, k, b);
    forall i: nat | i < |fl| && i != k && i != k + 1 ensures Apart(m, l, i) {
      LinkApart(mem, m, fl, k, b, i);
    }
  }

  lemma JoinBlocksOf(mem: Mem, fl: seq<nat>, live: map<nat, nat>, blocks: map<nat, nat>, k: nat)
    requires BlocksOf(mem, fl, live, blocks) && k + 1 < |fl| && fl[k] in mem && fl[k + 1] in mem
    requires forall i: nat | i < |fl| && i != k + 1 :: fl[i] != fl[k + 1]
    ensures fl[k] in blocks && fl[k + 1] in blocks
    ensures BlocksOf(JoinedMem(mem, fl[k], fl[k + 1]), Without(fl, k + 1), live, JoinedBlocks(blocks, fl[k], fl[k + 1]))
  {
    WithoutMembers(fl, k + 1);
    hide Without;
    assert fl[k] in fl && fl[k + 1] in fl && fl[k] != fl[k + 1];
  }

  lemma JoinApart(mem: Mem, m: Mem, fl: seq<nat>, k: nat, i: nat)
    requires k + 1 < |fl| && i + 2 < |fl| && Apart(mem, fl, if i < k then i else i + 1)
    requires forall a | a != fl[k] :: End(m, a) == End(mem, a)
    requires End(m, fl[k]) == End(mem, fl[k + 1])
    requires forall i: nat | i < |fl| && i != k :: fl[i] != fl[k]
    ensures |Without(fl, k + 1)| == |fl| - 1 && Apart(m, Without(fl, k + 1), i)
  {
    WithoutAt(fl, k + 1);
    hide Without, End;
  }

  lemma JoinStep(mem: Mem, fl: seq<nat>, live: map<nat, nat>, blocks: map<nat, nat>, tile: map<nat, nat>, k: nat)
    requires ListOk(mem, fl, 0) && Agree(mem, fl, live, blocks, tile) && 0 < k && k + 1 < |fl|
    requires fl[k] in mem && fl[k + 1] in mem && End(mem, fl[k]) == fl[k + 1]
    ensures fl[k] in blocks && fl[k + 1] in blocks
    ensures var m, l := JoinedMem(mem, fl[k], fl[k + 1]), Without(fl, k + 1);
            |l| == |fl| - 1 && ListOk(m, l, 0)
            && Agree(m, l, live, JoinedBlocks(blocks, fl[k], fl[k + 1]),
                     Retile(tile, fl[k + 1], fl[k + 1] + blocks[fl[k + 1]], fl[k]))
            && forall i: nat | i + 2 < |fl| && Apart(mem, fl, if i < k then i else i + 1) :: Apart(m, l, i)
  {
    hide Without, Linkage, Ordered, BlocksOf, Tiled, Apart;
    var a, b := fl[k], fl[k + 1];
    var m, l := JoinedMem(mem, a, b), Without(fl, k + 1);
    WithoutAt(fl, k + 1);
    Distinct(mem, fl, 0, k);
    Distinct(mem, fl, 0, k + 1);
    JoinPointers(mem, fl, k);
    JoinOrder(mem, m, fl, k);
    JoinBlocksOf(mem, fl, live, blocks, k);
    JoinSizes(mem, fl, live, blocks, k);
    JoinTiles(blocks, tile, a, b);
    forall i: nat | i + 2 < |fl| && Apart(mem, fl, if i < k then i else i + 1) ensures Apart(m, l, i) {
      JoinApart(mem, m, fl, k, i);
    }
  }

  lemma JoinSizes(mem: Mem, fl: seq<nat>, live: map<nat, nat>, blocks: map<nat, nat>, k: nat)
    requires Linkage(mem, fl) && BlocksOf(mem, fl, live, blocks) && 0 < k && k + 1 < |fl|
    ensures fl[k] in mem && fl[k + 1] in mem
    ensures fl[k] in blocks && fl[k + 1] in blocks && blocks[fl[k]] > 0 && End(mem, fl[k]) == fl[k] + blocks[fl[k]]
  {
    assert fl[k] in fl && fl[k + 1] in fl;
  }

  // ----- what freeing does, as a whole -----

  datatype Heap = Heap(mem: Mem, fl: seq<nat>, live: map<nat, nat>, blocks: map<nat, nat>, tile: map<nat, nat>)

  /** The free list is one ascending circle from BASE, no two of its blocks adjacent, and free
      and live blocks cover the units of the heap exactly once. */
  ghost predicate HeapOk(h: Heap) { ListOk(h.mem, h.fl, 1) && Agree(h.mem, h.fl, h.live, h.blocks, h.tile) }

  ghost function LinkHeap(h: Heap, k: nat, b: nat): Heap
    requires k < |h.fl| && h.fl[k] in h.mem && b in h.mem
  {
    Heap(LinkedMem(h.mem, h.fl[k], b), Linked(h.fl, k, b), h.live - {b}, h.blocks, h.tile)
  }

  ghost function JoinHeap(h: Heap, k: nat): Heap
    requires k + 1 < |h.fl| && h.fl[k] in h.mem && h.fl[k + 1] in h.mem && h.fl[k] in h.blocks
        && h.fl[k + 1] in h.blocks
  {
    var a, b := h.fl[k], h.fl[k + 1];
    Heap(JoinedMem(h.mem, a, b), Without(h.fl, k + 1), h.live, JoinedBlocks(h.blocks, a, b),
         Retile(h.tile, b, b + h.blocks[b], a))
  }

  /** All blocks but those at positions lo..hi-1 end before their successors start. */
  ghost predicate Nearly(h: Heap, lo: nat, hi: nat) {
    && ListOk(h.mem, h.fl, 0) && Agree(h.mem, h.fl, h.live, h.blocks, h.tile)
    && forall i: nat | i + 1 < |h.fl| && !(lo <= i < hi) :: Apart(h.mem, h.fl, i)
  }

  lemma NearlyLinked(h: Heap, k: nat, b: nat)
    requires HeapOk(h) && b in h.live && Place(h.fl, k, b)
    ensures h.fl[k] in h.mem && b in h.mem && Nearly(LinkHeap(h, k, b), k, k + 2)
  {
    assert b in h.blocks;
    LinkStep(h.mem, h.fl, h.live, h.blocks, h.tile, k, b);
  }

  lemma NearlyJoined(h: Heap, lo: nat, k: nat)
    requires Nearly(h, lo, k + 1) && lo <= k && 0 < k && k + 1 < |h.fl| && End(h.mem, h.fl[k]) == h.fl[k + 1]
    ensures h.fl[k] in h.mem && h.fl[k + 1] in h.mem && h.fl[k] in h.blocks && h.fl[k + 1] in h.blocks
    ensures Nearly(JoinHeap(h, k), lo, k) && |JoinHeap(h, k).fl| == |h.fl| - 1
  {
    hide Apart, Ordered, Tiled, Linkage, BlocksOf, End, Without, JoinedMem, JoinedBlocks, Retile;
    JoinSizes(h.mem, h.fl, h.live, h.blocks, k);
    JoinStep(h.mem, h.fl, h.live, h.blocks, h.tile, k);
  }

  lemma NearlyApart(h: Heap, lo: nat, k: nat)
    requires Nearly(h, lo, k + 1) && lo <= k && (k + 1 < |h.fl| ==> End(h.mem, h.fl[k]) != h.fl[k + 1])
    ensures Nearly(h, lo, k)
  {
    assert k + 1 < |h.fl| ==> Apart(h.mem, h.fl, k);
  }

  lemma NearlyOk(h: Heap, k: nat)
    requires Nearly(h, k, k)
    ensures HeapOk(h)
  {
    Strictly(h.mem, h.fl);
  }

  /** The headers after block b took over its successor q, or linked to it. */
  function RightMem(mem: Mem, b: nat, q: nat): Mem
    requires b in mem && q in mem
  {
    if b + mem[b].size == q then mem[b := Header(mem[q].ptr, mem[b].size + mem[q].size)]
        else mem[b := mem[b].(ptr := q)]
  }

  /** The headers after p took over block b, or linked to it. */
  function LeftMem(m: Mem, p: nat, b: nat): Mem
    requires p in m && b in m
  {
    if p + m[p].size == b then m[p := Header(m[b].ptr, m[p].size + m[b].size)] else m[p := m[p].(ptr := b)]
  }

  lemma FreedStart(h: Heap, k: nat, b: nat)
    requires HeapOk(h) && b in h.live && Place(h.fl, k, b)
    ensures h.fl[k] in h.mem && b in h.mem && h.mem[h.fl[k]].ptr == Next(h.fl, k) && Next(h.fl, k) in h.mem
        && b != h.fl[k]
    ensures k == 0 ==> h.fl[k] == BASE && h.mem[BASE].size == 0
    ensures Next(h.fl, k) != h.fl[k] || Next(h.fl, k) == BASE
    ensures Next(h.fl, k) != b && b > BASE && (k + 1 == |h.fl| ==> Next(h.fl, k) == BASE)
  {
    assert b in h.blocks;
  }

  lemma FreedRight(h: Heap, k: nat, b: nat) returns (h': Heap)
    requires HeapOk(h) && b in h.live && Place(h.fl, k, b)
    requires h.fl[k] in h.mem && b in h.mem && Next(h.fl, k) in h.mem && h.mem[h.fl[k]].ptr == Next(h.fl, k)
    requires b != h.fl[k] && Next(h.fl, k) != b && b > BASE && (k + 1 == |h.fl| ==> Next(h.fl, k) == BASE)
    ensures Nearly(h', k, k + 1) && k + 1 < |h'.fl| && h'.fl[k] == h.fl[k] && h'.fl[k + 1] == b
    ensures h'.live == h.live - {b} && h'.tile.Keys == h.tile.Keys
    ensures var m := RightMem(h.mem, b, Next(h.fl, k)); h'.mem == m[h.fl[k] := m[h.fl[k]].(ptr := b)]
  {
    hide HeapOk, Nearly;
    var p, q := h.fl[k], Next(h.fl, k);
    NearlyLinked(h, k, b);
    LinkedAt(h.fl, k, b);
    var l := LinkHeap(h, k, b);
    assert l.fl[k] == p && l.fl[k + 1] == b && (k + 1 < |h.fl| ==> l.fl[k + 2] == q);
    if b + h.mem[b].size == q {
      NearlyJoined(l, k, k + 1);
      WithoutAt(l.fl, k + 2);
      h' := JoinHeap(l, k + 1);
    } else {
      NearlyApart(l, k, k + 1);
      h' := l;
    }
  }

  ghost predicate BlockFits(h: Heap, i: nat, n: nat) {
    i < |h.fl| && h.fl[i] in h.mem && h.mem[h.fl[i]].size >= n
  }

  /** Some free block has at least n units. */
  ghost predicate Fits(h: Heap, n: nat) { exists i: nat :: BlockFits(h, i, n) }

  lemma FitsLess(h: Heap, n: nat, m: nat)
    requires Fits(h, n) && m <= n
    ensures Fits(h, m)
  {
    var i: nat :| BlockFits(h, i, n);
    assert BlockFits(h, i, m);
  }

  lemma FreedLeft(r: Heap, k: nat, m: Mem) returns (h': Heap)
    requires Nearly(r, k, k + 1) && k + 1 < |r.fl| && r.fl[k] in m && r.fl[k + 1] in m && r.fl[k + 1] > BASE
    requires r.mem == m[r.fl[k] := m[r.fl[k]].(ptr := r.fl[k + 1])] && r.fl[k] != r.fl[k + 1]
    requires k == 0 ==> r.fl[k] == BASE && m[BASE].size == 0
    ensures HeapOk(h') && h'.mem == LeftMem(m, r.fl[k], r.fl[k + 1])
    ensures h'.live == r.live && h'.tile.Keys == r.tile.Keys && r.fl[k] in h'.fl
    ensures Fits(h', m[r.fl[k + 1]].size)
  {
    hide HeapOk, Nearly;
    if r.fl[k] + m[r.fl[k]].size == r.fl[k + 1] {
      NearlyJoined(r, k, k);
      WithoutAt(r.fl, k + 1);
      h' := JoinHeap(r, k);
    } else {
      NearlyApart(r, k, k);
      h' := r;
    }
    NearlyOk(h', k);
    assert h'.fl[k] == r.fl[k];
    var i := if r.fl[k] + m[r.fl[k]].size == r.fl[k + 1] then k else k + 1;
    assert BlockFits(h', i, m[r.fl[k + 1]].size);
  }

  /** Freeing block b behind its place keeps the heap in order, and no unit is lost. */
  lemma Freed(h: Heap, k: nat, b: nat) returns (h': Heap)
    requires HeapOk(h) && b in h.live && Place(h.fl, k, b)
    ensures h.fl[k] in h.mem && b in h.mem && h.mem[h.fl[k]].ptr in h.mem
    ensures HeapOk(h') && h'.mem == LeftMem(RightMem(h.mem, b, h.mem[h.fl[k]].ptr), h.fl[k], b)
    ensures h'.live == h.live - {b} && h'.tile.Keys == h.tile.Keys && h.fl[k] in h'.fl
    ensures Fits(h', h.mem[b].size)
  {
    FreedStart(h, k, b);
    hide HeapOk, Nearly, Fits;
    var r := FreedRight(h, k, b);
    h' := FreedLeft(r, k, RightMem(h.mem, b, Next(h.fl, k)));
    FitsLess(h', RightMem(h.mem, b, Next(h.fl, k))[b].size, h.mem[b].size);
  }

  // ----- allocating -----

  /** Taking all of the block at position i. */
  ghost function TakeHeap(h: Heap, i: nat): Heap
    requires 0 < i < |h.fl| && h.fl[i - 1] in h.mem && h.fl[i] in h.mem
  {
    h.(mem := h.mem[h.fl[i - 1] := h.mem[h.fl[i - 1]].(ptr := h.mem[h.fl[i]].ptr)],
       fl := Without(h.fl, i), live := h.live[h.fl[i] := h.mem[h.fl[i]].size])
  }

  lemma TakePointers(mem: Mem, fl: seq<nat>, i: nat)
    requires Linkage(mem, fl) && 0 < i < |fl| && forall j: nat | j < |fl| && j != i - 1 :: fl[j] != fl[i - 1]
    ensures Linkage(mem[fl[i - 1] := mem[fl[i - 1]].(ptr := mem[fl[i]].ptr)], Without(fl, i))
  {
    WithoutAt(fl, i);
    hide Without;
    var m, l := mem[fl[i - 1] := mem[fl[i - 1]].(ptr := mem[fl[i]].ptr)], Without(fl, i);
    assert l[0] == fl[0] == BASE && m[BASE].size == 0;
    forall j: nat | j < |l| ensures l[j] in m && m[l[j]].ptr == Next(l, j) && (j > 0 ==> m[l[j]].size > 0) {
      assert l[j] == if j < i then fl[j] else fl[j + 1];
      assert mem[fl[i]].ptr == Next(fl, i);
    }
  }

  lemma TakeOrder(mem: Mem, m: Mem, fl: seq<nat>, i: nat)
    requires Ordered(mem, fl, 1) && i < |fl| && forall a :: End(m, a) == End(mem, a)
    ensures Ordered(m, Without(fl, i), 1)
  {
    WithoutAt(fl, i);
    hide Without, End;
  }

  lemma TakeBlocksOf(mem: Mem, m: Mem, fl: seq<nat>, live: map<nat, nat>, blocks: map<nat, nat>, i: nat)
    requires BlocksOf(mem, fl, live, blocks) && i < |fl| && fl[i] in mem && fl[i] > BASE && mem[fl[i]].size > 0
    requires forall j: nat | j < |fl| && j != i :: fl[j] != fl[i]
    requires forall a | a in mem :: a in m && m[a].size == mem[a].size
    ensures BlocksOf(m, Without(fl, i), live[fl[i] := mem[fl[i]].size], blocks)
  {
    WithoutMembers(fl, i);
    hide Without;
    assert fl[i] in fl;
  }

  lemma ListAt(mem: Mem, fl: seq<nat>, i: nat)
    requires ListOk(mem, fl, 1) && 0 < i < |fl|
    ensures fl[i - 1] in mem && fl[i] in mem && fl[i] > BASE && mem[fl[i]].size > 0 && fl[i - 1] != fl[i]
    ensures mem[fl[i - 1]].ptr == fl[i] && fl[i - 1] >= BASE
  {
    assert fl[0] < fl[i];
    assert mem[fl[i - 1]].ptr == Next(fl, i - 1);
  }

  lemma EndSame(mem: Mem, m: Mem)
    requires m.Keys == mem.Keys && forall a | a in mem :: m[a].size == mem[a].size
    ensures forall a :: End(m, a) == End(mem, a)
  {}

  lemma Taken(h: Heap, i: nat)
    requires HeapOk(h) && 0 < i < |h.fl|
    ensures h.fl[i - 1] in h.mem && h.fl[i] in h.mem && h.fl[i] !in h.live
    ensures HeapOk(TakeHeap(h, i)) && |TakeHeap(h, i).fl| == |h.fl| - 1 && TakeHeap(h, i).fl[i - 1] == h.fl[i - 1]
  {
    hide Without, BlocksOf, Tiled, Ordered, Linkage, End;
    ListAt(h.mem, h.fl, i);
    var t := TakeHeap(h, i);
    Distinct(h.mem, h.fl, 1, i - 1);
    Distinct(h.mem, h.fl, 1, i);
    WithoutAt(h.fl, i);
    EndSame(h.mem, t.mem);
    TakePointers(h.mem, h.fl, i);
    TakeOrder(h.mem, t.mem, h.fl, i);
    TakeBlocksOf(h.mem, t.mem, h.fl, h.live, h.blocks, i);
    TakeNotLive(h.mem, h.fl, h.live, h.blocks, i);
  }

  lemma TakeNotLive(mem: Mem, fl: seq<nat>, live: map<nat, nat>, blocks: map<nat, nat>, i: nat)
    requires BlocksOf(mem, fl, live, blocks) && i < |fl|
    ensures fl[i] !in live && fl[i] in blocks && fl[i] in mem && mem[fl[i]].size == blocks[fl[i]]
  {
    assert fl[i] in fl;
  }

  /** The headers after the last n units of block a got header hdr. */
  function CutMem(mem: Mem, a: nat, n: nat, hdr: Header): Mem
    requires a in mem && n <= mem[a].size
  {
    mem[a := mem[a].(size := mem[a].size - n)][a + mem[a].size - n := hdr]
  }

  /** Cutting the last n units off block a. */
  ghost function CutHeap(h: Heap, a: nat, n: nat, hdr: Header): Heap
    requires a in h.mem && n <= h.mem[a].size && a in h.blocks && n <= h.blocks[a]
  {
    var q := a + h.mem[a].size - n;
    Heap(CutMem(h.mem, a, n, hdr), h.fl, h.live[q := n], SplitBlocks(h.blocks, a, n), Retile(h.tile, q, q + n, q))
  }

  lemma CutPointers(mem: Mem, m: Mem, fl: seq<nat>)
    requires Linkage(mem, fl)
    requires forall j: nat | j < |fl| :: fl[j] in m && m[fl[j]].ptr == mem[fl[j]].ptr
    requires forall j: nat | j < |fl| :: m[fl[j]].size <= mem[fl[j]].size && (mem[fl[j]].size > 0 ==> m[fl[j]].size > 0)
    ensures Linkage(m, fl)
  {
    assert fl[0] in m && m[fl[0]].size == 0;
  }

  lemma CutOrder(mem: Mem, m: Mem, fl: seq<nat>)
    requires Ordered(mem, fl, 1) && forall j: nat | j < |fl| :: End(m, fl[j]) <= End(mem, fl[j])
    ensures Ordered(m, fl, 1)
  {
    hide End;
  }

  lemma CutList(mem: Mem, fl: seq<nat>, i: nat, n: nat, hdr: Header)
    requires ListOk(mem, fl, 1) && 0 < i < |fl| && fl[i] in mem && 0 < n < mem[fl[i]].size
    requires fl[i] + mem[fl[i]].size - n !in fl && forall j: nat | j < |fl| && j != i :: fl[j] != fl[i]
    requires forall j: nat | j < |fl| :: fl[j] in mem
    ensures ListOk(CutMem(mem, fl[i], n, hdr), fl, 1)
  {
    hide Ordered, Linkage;
    var m := CutMem(mem, fl[i], n, hdr);
    CutPointers(mem, m, fl);
    CutOrder(mem, m, fl);
  }

  lemma CutBlocksOf(mem: Mem, fl: seq<nat>, live: map<nat, nat>, blocks: map<nat, nat>, a: nat, n: nat, q: nat,
          hdr: Header)
    requires BlocksOf(mem, fl, live, blocks) && a in mem && a in blocks && 0 < n < blocks[a] && blocks[a] == mem[a].size
    requires q == a + blocks[a] - n && q !in blocks && hdr.size == n && a >= BASE && a !in live
    ensures BlocksOf(CutMem(mem, a, n, hdr), fl, live[q := n], SplitBlocks(blocks, a, n))
  {
    assert q !in fl && q !in live;
  }

  lemma Cut(h: Heap, i: nat, n: nat, hdr: Header)
    requires HeapOk(h) && 0 < i < |h.fl| && h.fl[i] in h.mem && 0 < n < h.mem[h.fl[i]].size && hdr.size == n
    ensures h.fl[i] in h.blocks && h.blocks[h.fl[i]] == h.mem[h.fl[i]].size
    ensures h.fl[i] + h.mem[h.fl[i]].size - n !in h.live
    ensures HeapOk(CutHeap(h, h.fl[i], n, hdr)) && CutHeap(h, h.fl[i], n, hdr).tile.Keys == h.tile.Keys
  {
    hide BlocksOf, Tiled, Ordered, Linkage;
    var a := h.fl[i];
    ListAt(h.mem, h.fl, i);
    TakeNotLive(h.mem, h.fl, h.live, h.blocks, i);
    Distinct(h.mem, h.fl, 1, i);
    AllIn(h.mem, h.fl);
    ZeroIsBase(h.mem, h.fl, h.live, h.blocks, i);
    SplitTiles(h.blocks, h.tile, a, n);
    NotBlock(h.mem, h.fl, h.live, h.blocks, a + h.mem[a].size - n);
    CutList(h.mem, h.fl, i, n, hdr);
    CutBlocksOf(h.mem, h.fl, h.live, h.blocks, a, n, a + h.mem[a].size - n, hdr);
  }

  lemma AllIn(mem: Mem, fl: seq<nat>)
    requires Linkage(mem, fl)
    ensures forall j: nat | j < |fl| :: fl[j] in mem
  {}

  lemma ZeroIsBase(mem: Mem, fl: seq<nat>, live: map<nat, nat>, blocks: map<nat, nat>, i: nat)
    requires ListOk(mem, fl, 1) && BlocksOf(mem, fl, live, blocks) && 0 < i < |fl|
    ensures forall b | b in blocks && blocks[b] == 0 :: b < fl[i]
  {
    forall b | b in blocks && blocks[b] == 0 ensures b == BASE {
      assert b in fl && mem[b].size == 0;
    }
    assert fl[0] < fl[i];
  }

  lemma NotBlock(mem: Mem, fl: seq<nat>, live: map<nat, nat>, blocks: map<nat, nat>, q: nat)
    requires BlocksOf(mem, fl, live, blocks) && q !in blocks
    ensures q !in fl && q !in live
  {}

  // ----- growing -----

  ghost function GrowHeap(h: Heap, p: nat, hdr: Header): Heap {
    Heap(h.mem[p := hdr], h.fl, h.live[p := hdr.size], h.blocks[p := hdr.size],
         h.tile + map u | u in Range(p, hdr.size) :: p)
  }

  lemma FreshAddress(h: Heap, p: nat)
    requires HeapOk(h) && p > BASE && forall u | u in h.tile :: u < p
    ensures p !in h.blocks && p !in h.fl && p !in h.live
  {
    forall a | a in h.blocks && a > BASE ensures a in h.tile {
      assert a in h.fl ==> h.mem[a].size > 0;
      assert InBlock(h.blocks, a, a);
    }
  }

  lemma GrownList(mem: Mem, fl: seq<nat>, p: nat, hdr: Header)
    requires ListOk(mem, fl, 1) && p !in fl && forall j: nat | j < |fl| :: fl[j] in mem
    ensures ListOk(mem[p := hdr], fl, 1)
  {
    hide Ordered, Linkage;
    CutPointers(mem, mem[p := hdr], fl);
    CutOrder(mem, mem[p := hdr], fl);
  }

  /** New units can be taken for a live block. */
  lemma GrownBlocksOf(mem: Mem, fl: seq<nat>, live: map<nat, nat>, blocks: map<nat, nat>, p: nat, hdr: Header)
    requires BlocksOf(mem, fl, live, blocks) && p !in fl && p !in blocks && hdr.size > 0 && p > BASE
    ensures BlocksOf(mem[p := hdr], fl, live[p := hdr.size], blocks[p := hdr.size])
  {}

  lemma Grown(h: Heap, p: nat, hdr: Header)
    requires HeapOk(h) && hdr.size > 0 && p > BASE && forall u | u in h.tile :: u < p
    ensures HeapOk(GrowHeap(h, p, hdr)) && p !in h.live
    ensures GrowHeap(h, p, hdr).tile.Keys == h.tile.Keys + Range(p, hdr.size)
  {
    hide Ordered, Linkage, Tiled, BlocksOf;
    FreshAddress(h, p);
    AllIn(h.mem, h.fl);
    GrownList(h.mem, h.fl, p, hdr);
    GrowTiles(h.blocks, h.tile, p, hdr.size);
    GrownBlocksOf(h.mem, h.fl, h.live, h.blocks, p, hdr);
  }

  // ----- what the invariant means for clients -----

  /** A live block shares no unit with any other live block or with any free block. */
  lemma LiveApart(h: Heap, a: nat, b: nat)
    requires HeapOk(h) && a in h.live && (b in h.live || b in h.fl) && b != a
    ensures a + h.live[a] <= b || b + h.mem[b].size <= a
  {
    assert a in h.blocks && b in h.blocks;
    if a < b && h.blocks[b] > 0 { BlocksApart(h.blocks, h.tile, a, b); }
    if b < a { BlocksApart(h.blocks, h.tile, b, a); }
  }

  /** The free list is one circle through all free blocks, from the lowest up; two free blocks do not
      even touch, so that no two could be joined. */
  lemma FreeApart(h: Heap, i: nat, j: nat)
    requires HeapOk(h) && i < j < |h.fl|
    ensures h.fl[i] in h.mem && h.fl[i] + h.mem[h.fl[i]].size < h.fl[j]
    ensures h.mem[h.fl[i]].ptr == h.fl[i + 1] && h.fl[|h.fl| - 1] in h.mem
        && h.mem[h.fl[|h.fl| - 1]].ptr == h.fl[0] == BASE
  {
    assert End(h.mem, h.fl[i]) + 1 <= h.fl[j];
  }

  ghost function Total(blocks: map<nat, nat>): nat {
    if blocks == map[] then 0 else var a :| a in blocks; blocks[a] + Total(blocks - {a})
  }

  lemma RangeSize(p: nat, n: nat)
    ensures |Range(p, n)| == n
  {
    if n == 0 {
      assert Range(p, n) == {};
    } else {
      RangeSize(p, n - 1);
      assert Unit(p + n - 1);
      assert Range(p, n) == Range(p, n - 1) + {p + n - 1};
    }
  }

  /** The sizes of all blocks, free and live, add up to the units obtained from the kernel. */
  lemma {:induction false} UnitsCounted(blocks: map<nat, nat>, tile: map<nat, nat>)
    requires Tiled(blocks, tile)
    ensures |tile.Keys| == Total(blocks)
  {
    forall u | u in tile ensures tile[u] in blocks { assert InBlock(blocks, tile[u], u); }
    if blocks == map[] {
      assert tile.Keys == {};
    } else {
      var a :| a in blocks && Total(blocks) == blocks[a] + Total(blocks - {a});
      var r := Range(a, blocks[a]);
      forall u | u in r ensures u in tile.Keys { assert InBlock(blocks, a, u); }
      TiledWithout(blocks, tile, a);
      UnitsCounted(blocks - {a}, tile - r);
      RangeSize(a, blocks[a]);
      assert tile.Keys == (tile - r).Keys + r;
    }
  }

  lemma TiledWithout(blocks: map<nat, nat>, tile: map<nat, nat>, a: nat)
    requires Tiled(blocks, tile) && a in blocks
    ensures Tiled(blocks - {a}, tile - Range(a, blocks[a]))
  {
    var b', t' := blocks - {a}, tile - Range(a, blocks[a]);
    forall c: nat, u: nat | InBlock(b', c, u) ensures u in t' && t'[u] == c {
      assert InBlock(blocks, c, u);
      assert u in Range(a, blocks[a]) ==> InBlock(blocks, a, u);
    }
    forall u | u in t' ensures InBlock(b', t'[u], u) {
      assert InBlock(blocks, tile[u], u) && Unit(u);
    }
  }
}
