/** The user-level heap allocator: free, morecore and malloc over the circular free list. */
module Umalloc {
  import opened Wrappers
  import opened HeapList

  const HEADER: nat := 8             // bytes in a header
  const LIMIT: nat := 0x2000_0000    // a 32-bit address space, in headers
  const CHUNK: nat := 4096           // fewest units to ask of the kernel

  /** Steps along the circle from position f to position i: all the way around when they agree. */
  function Steps(f: nat, i: nat, n: nat): (d: nat)
    requires f < n && i < n
    ensures 1 <= d <= n && (f + d) % n == i
  {
    if i > f then i - f else i + n - f
  }

  class Allocator {
    var mem: map<nat, Header>   // the headers in memory
    var freep: nat              // where the next search starts; 0 before the first malloc
    var brk: nat                // the end of the process's memory
    ghost var h: Heap

    ghost predicate Valid()
      reads this
    {
      && BASE < brk <= LIMIT
      && h.mem == mem
      && (if freep == NULL then h.fl == [] && h.live == map[] && h.tile == map[]
          else HeapOk(h) && freep in h.fl)
      && (forall u | u in h.tile :: u < brk)
    }

    constructor (brk: nat)
      requires BASE < brk <= LIMIT
      ensures Valid() && freep == NULL && this.brk == brk && h.live == map[] && h.tile == map[]
    {
      mem, freep, this.brk := map[], NULL, brk;
      h := Heap(map[], [], map[], map[], map[]);
    }

    /** Walks the circle from freep to the block that the freed block bp belongs behind. */
    method Search(bp: nat, ghost k: nat) returns (p: nat)
      requires Valid() && freep != NULL && bp > BASE && bp !in h.fl && Place(h.fl, k, bp)
      ensures p == h.fl[k]
    {
      hide Linkage, Ordered, Agree;
      p := freep;
      ghost var j: nat :| j < |h.fl| && h.fl[j] == freep;
      while true
        invariant j < |h.fl| && p == h.fl[j]
        decreases if j == k then 0 else Steps(j, k, |h.fl|)
      {
        LinkAt(h, j);
        SearchAt(h, k, bp, j);
        if bp > p && bp < mem[p].ptr {
          break;
        }
        if p >= mem[p].ptr && (bp > p || bp < mem[p].ptr) {
          break;
        }
        p := mem[p].ptr;
        j := if j + 1 < |h.fl| then j + 1 else 0;
      }
    }

    /** Returns the block whose data starts at ap to the free list, joining it with the free
        blocks right after and right before it. */
    method Free(ap: nat)
      requires Valid() && ap > 0 && ap - 1 in h.live
      modifies this
      ensures Valid() && freep != NULL && brk == old(brk)
      ensures h.live == old(h.live) - {ap - 1} && h.tile.Keys == old(h.tile.Keys)
      ensures Fits(h, old(h.live)[ap - 1])
    {
      hide Linkage, Ordered, BlocksOf, Tiled, Fits;
      var bp := ap - 1;
      LiveBlock(h, bp);
      ghost var k := FindPlace(mem, h.fl, bp, |h.fl|);
      var p := Search(bp, k);
      ghost var h' := Freed(h, k, bp);
      var q := mem[p].ptr;
      if bp + mem[bp].size == q {
        mem := mem[bp := Header(mem[q].ptr, mem[bp].size + mem[q].size)];
      } else {
        mem := mem[bp := mem[bp].(ptr := q)];
      }
      if p + mem[p].size == bp {
        mem := mem[p := Header(mem[bp].ptr, mem[p].size + mem[bp].size)];
      } else {
        mem := mem[p := mem[p].(ptr := bp)];
      }
      freep := p;
      h := h';
    }

    /** Asks the kernel for nu more units of memory: fails, or gives the address they start at.
        Other users of sbrk may have moved the break, so the address need not be the old break. */
    method Sbrk(nu: nat) returns (p: Option<nat>)
      modifies this`brk
      ensures p.None? ==> brk == old(brk)
      ensures p.Some? ==> old(brk) <= p.value && (old(brk) <= LIMIT ==> brk == p.value + nu <= LIMIT)
    {
      var gap: nat :| gap >= 0;
      var refuse: bool := *;
      if refuse || brk + gap + nu > LIMIT {
        return None;
      }
      var start: nat := brk + gap;
      p := Some(start);
      brk := start + nu;
    }

    /** Adds a block of at least nu units from the kernel to the free list; 0 when refused. */
    method Morecore(nu: nat) returns (r: nat)
      requires Valid() && freep != NULL && nu > 0
      modifies this
      ensures Valid() && freep != NULL && h.live == old(h.live)
      ensures r == NULL ==> h == old(h) && freep == old(freep) && brk == old(brk)
      ensures r != NULL ==> r == freep && Fits(h, nu)
                            && Grew(old(h), h, old(brk), if nu < CHUNK then CHUNK else nu)
    {
      hide Linkage, Ordered, BlocksOf, Tiled, Fits;
      var n := nu;
      if n < CHUNK {
        n := CHUNK;
      }
      var p := Sbrk(n);
      if p.None? {
        return NULL;
      }
      var hp := p.value;
      ghost var hdr := Header(if hp in mem then mem[hp].ptr else 0, n);
      Grown(h, hp, hdr);
      mem := mem[hp := Header(if hp in mem then mem[hp].ptr else 0, n)];
      h := GrowHeap(h, hp, hdr);
      Free(hp + 1);
      FitsLess(h, n, nu);
      r := freep;
    }

    /** Takes n units off the end of the free block p, or all of it when it has n units. */
    method Carve(prevp: nat, p: nat, n: nat, ghost i: nat) returns (r: nat)
      requires Valid() && freep != NULL && 0 < i < |h.fl| && h.fl[i - 1] == prevp && h.fl[i] == p
      requires n > 0 && BlockFits(h, i, n)
      modifies this
      ensures Valid() && HeapOk(h) && freep == prevp && freep != NULL && brk == old(brk)
      ensures r > 0 && r - 1 + n == End(old(mem), p)
      ensures r - 1 !in old(h.live) && h.live == old(h.live)[r - 1 := n] && h.tile.Keys == old(h.tile.Keys)
    {
      hide HeapOk, BlockFits, Without, SplitBlocks, Retile;
      CarveAt(h, i, n);
      if mem[p].size == n {
        Taken(h, i);
        h := TakeHeap(h, i);
        mem := mem[prevp := mem[prevp].(ptr := mem[p].ptr)];
        r := p + 1;
      } else {
        ghost var q := p + mem[p].size - n;
        ghost var hdr := Header(if q in mem then mem[q].ptr else 0, n);
        Cut(h, i, n, hdr);
        h := CutHeap(h, p, n, hdr);
        mem := mem[p := mem[p].(size := mem[p].size - n)];
        var t := p + mem[p].size;
        mem := mem[t := Header(if t in mem then mem[t].ptr else 0, n)];
        r := t + 1;
      }
      freep := prevp;
      assert h.fl[i - 1] == prevp && prevp in h.fl;
    }

    /** Allocates nbytes bytes: searches the circle from behind freep, asks the kernel for more
        when it comes around, and gives the address of the data, or 0.
        pre is the heap the block is taken from, f where its search started, i which block. */
    method Malloc(nbytes: nat) returns (r: nat, ghost pre: Heap, ghost f: nat, ghost i: nat)
      requires Valid() && Units(nbytes) < LIMIT
      modifies this
      ensures Valid() && freep != NULL
      ensures r == NULL ==> h.live == old(h.live) && h.tile.Keys == old(h.tile.Keys) && !Fits(h, Units(nbytes))
      ensures r != NULL ==> r - 1 !in old(h.live) && h.live == old(h.live)[r - 1 := Units(nbytes)]
      ensures r != NULL ==> nbytes <= HEADER * (h.live[r - 1] - 1) < nbytes + HEADER && HasBytes(h, r, nbytes)
      ensures r != NULL ==> FirstFit(pre, f, i, Units(nbytes)) && pre.live == old(h.live)
                            && r - 1 + Units(nbytes) == End(pre.mem, pre.fl[i]) && freep == pre.fl[i - 1]
                            && h.tile.Keys == pre.tile.Keys
      ensures r != NULL ==> f < |pre.fl| && i < |pre.fl| && forall j: nat | j < |pre.fl| && pre.fl[j] in pre.mem
                              && Steps(f, j, |pre.fl|) < Steps(f, i, |pre.fl|) ::
                                 pre.mem[pre.fl[j]].size < Units(nbytes)
      ensures old(freep) != NULL && Fits(old(h), Units(nbytes)) ==> r != NULL && pre == old(h)
                                                                    && pre.fl[f] == old(freep)
      ensures old(freep) != NULL && r == NULL ==>
                forall j: nat | j < |old(h).fl| && old(h).fl[j] in old(h).mem ::
                  old(h).mem[old(h).fl[j]].size < Units(nbytes)
      ensures r == NULL ==> forall j: nat | j < |h.fl| && h.fl[j] in h.mem :: h.mem[h.fl[j]].size < Units(nbytes)
      ensures h.tile.Keys == old(h.tile.Keys)
              || Grew(old(h), h, old(brk), if Units(nbytes) < CHUNK then CHUNK else Units(nbytes))
    {
      hide Fits, BlockFits, Scanned, HeapOk, Steps, End, Next, Grew, FirstFit, After, Allocator.Valid;
      var nunits := (nbytes + HEADER - 1) / HEADER + 1;
      FitsIs(h, nunits);
      Start();
      var prevp := freep;
      ghost var h0, freep0, brk0, grown := h, freep, brk, false;
      pre := h;
      f := StartScan(nunits);
      i := After(h.fl, f);
      var p := mem[prevp].ptr;
      while true
        invariant Running() && h.live == h0.live && (!grown ==> h == h0 && freep == freep0 && brk == brk0)
        invariant f < |h.fl| && h.fl[f] == freep && i < |h.fl| && p == h.fl[i] && (i > 0 ==> prevp == h.fl[i - 1])
        invariant Scanned(h, f, Steps(f, i, |h.fl|), nunits)
        invariant grown ==> Fits(h, nunits) && !Fits(h0, nunits)
                            && Grew(h0, h, brk0, if nunits < CHUNK then CHUNK else nunits)
        decreases !grown, |h.fl| - Steps(f, i, |h.fl|)
      {
        Follow(h, i);
        if mem[p].size >= nunits {
          FoundAt(h, i, nunits);
          FirstFound(h, f, i, nunits);
          pre := h;
          r := Carve(prevp, p, nunits, i);
          UnitsHold(nbytes);
          TooSmall(pre, f, i, nunits);
          BytesHeld(h, r, nbytes);
          if grown { GrewSame(h0, old(h), pre, h, brk0, if nunits < CHUNK then CHUNK else nunits); }
          return;
        }
        ScanStep(h, f, i, nunits);
        if p == freep {
          p, f := Refill(nunits);
          if p == NULL {
            FitsIs(h, nunits);
            r := NULL;
            return;
          }
          grown := true;
          i := f;
        }
        prevp := p;
        p := mem[p].ptr;
        i := After(h.fl, i);
      }
    }

    /** The free list is there. */
    ghost predicate Running()
      reads this
    {
      Valid() && freep != NULL && HeapOk(h) && freep in h.fl && h.mem == mem
    }

    /** Before the first allocation the free list is made: the empty block BASE alone. */
    method Start()
      requires Valid()
      modifies this
      ensures Running() && brk == old(brk) && h.live == old(h.live) && h.tile.Keys == old(h.tile.Keys)
      ensures old(freep) != NULL ==> h == old(h) && freep == old(freep)
    {
      hide HeapOk;
      if freep == NULL {
        StartOk();
        mem := map[BASE := Header(BASE, 0)];
        freep := BASE;
        h := StartHeap();
      }
    }

    /** Where the scan of the circle starts. */
    ghost method StartScan(n: nat) returns (f: nat)
      requires Running()
      ensures f < |h.fl| && h.fl[f] == freep && After(h.fl, f) < |h.fl|
      ensures freep in mem && mem[freep].ptr == h.fl[After(h.fl, f)]
          && (After(h.fl, f) > 0 ==> h.fl[After(h.fl, f) - 1] == freep)
      ensures Scanned(h, f, Steps(f, After(h.fl, f), |h.fl|), n)
    {
      hide HeapOk, Scanned, Allocator.Valid;
      f :| f < |h.fl| && h.fl[f] == freep;
      Follow(h, f);
      ScanStart(h, f, n);
    }

    /** Gets more memory, after a scan without success, and starts over. */
    method Refill(nunits: nat) returns (p: nat, ghost f: nat)
      requires Running() && nunits > 0
      modifies this
      ensures p == NULL ==> Running() && h == old(h) && freep == old(freep) && brk == old(brk)
      ensures p != NULL ==> Running() && p == freep && h.live == old(h.live) && Fits(h, nunits)
                            && Grew(old(h), h, old(brk), if nunits < CHUNK then CHUNK else nunits)
                            && f < |h.fl| && h.fl[f] == freep && After(h.fl, f) < |h.fl|
                            && freep in mem && mem[freep].ptr == h.fl[After(h.fl, f)]
                            && (After(h.fl, f) > 0 ==> h.fl[After(h.fl, f) - 1] == freep)
                            && Scanned(h, f, Steps(f, After(h.fl, f), |h.fl|), nunits)
    {
      hide Fits, Grew, Scanned, HeapOk, After, Steps;
      p := Morecore(nunits);
      f := 0;
      if p != NULL {
        f := StartScan(nunits);
      }
    }
  }

  lemma CarveAt(h: Heap, i: nat, n: nat)
    requires HeapOk(h) && 0 < i < |h.fl| && BlockFits(h, i, n)
    ensures h.fl[i] in h.mem && h.mem[h.fl[i]].size >= n && h.fl[i] >= BASE && h.fl[i - 1] >= BASE
  {}

  /** The next position on the circle. */
  ghost function After(fl: seq<nat>, i: nat): nat
    requires i < |fl|
  {
    if i + 1 < |fl| then i + 1 else 0
  }

  lemma Follow(h: Heap, i: nat)
    requires HeapOk(h) && i < |h.fl|
    ensures After(h.fl, i) < |h.fl| && h.fl[i] in h.mem && h.mem[h.fl[i]].ptr == h.fl[After(h.fl, i)]
    ensures h.fl[i] != NULL && (After(h.fl, i) > 0 ==> h.fl[After(h.fl, i) - 1] == h.fl[i])
  {
    assert h.fl[0] <= h.fl[i];
  }

  /** Block i is the first behind position f on the circle that has n units. */
  ghost predicate FirstFit(h: Heap, f: nat, i: nat, n: nat) {
    HeapOk(h) && f < |h.fl| && 0 < i < |h.fl| && BlockFits(h, i, n) && Scanned(h, f, Steps(f, i, |h.fl|), n)
  }

  lemma FitsIs(h: Heap, n: nat)
    ensures Fits(h, n) <==> exists j: nat :: j < |h.fl| && h.fl[j] in h.mem && h.mem[h.fl[j]].size >= n
  {
    if j: nat :| j < |h.fl| && h.fl[j] in h.mem && h.mem[h.fl[j]].size >= n { assert BlockFits(h, j, n); }
  }

  lemma TooSmall(h: Heap, f: nat, i: nat, n: nat)
    requires FirstFit(h, f, i, n) && n > 0
    ensures f < |h.fl| && i < |h.fl| && forall j: nat | j < |h.fl| && h.fl[j] in h.mem
              && Steps(f, j, |h.fl|) < Steps(f, i, |h.fl|) :: h.mem[h.fl[j]].size < n
  {
    hide Agree, Linkage, Ordered;
    forall j: nat | j < |h.fl| && h.fl[j] in h.mem && Steps(f, j, |h.fl|) < Steps(f, i, |h.fl|)
      ensures h.mem[h.fl[j]].size < n
    {
      assert !BlockFits(h, j, n);
    }
  }

  lemma FirstFound(h: Heap, f: nat, i: nat, n: nat)
    requires HeapOk(h) && f < |h.fl| && 0 < i < |h.fl| && BlockFits(h, i, n) && Scanned(h, f, Steps(f, i, |h.fl|), n)
    ensures FirstFit(h, f, i, n)
  {}

  function Units(nbytes: nat): nat { (nbytes + HEADER - 1) / HEADER + 1 }

  /** The units hold the bytes behind the header, and one unit less would not. */
  lemma UnitsHold(nbytes: nat)
    ensures Units(nbytes) > 0 && nbytes <= HEADER * (Units(nbytes) - 1) < nbytes + HEADER
  {}

  /** The bytes from r on lie behind the header of the live block that starts one unit before, and
      in no other block. Addresses count headers; byte x lies in unit x / HEADER. */
  ghost predicate HasBytes(h: Heap, r: nat, nbytes: nat) {
    r > 0 && r - 1 in h.live && forall x: nat, b: nat | HEADER * r <= x < HEADER * r + nbytes ::
        InBlock(h.blocks, b, x / HEADER) <==> b == r - 1
  }

  lemma BytesHeld(h: Heap, r: nat, nbytes: nat)
    requires HeapOk(h) && r > 0 && r - 1 in h.live && nbytes <= HEADER * (h.live[r - 1] - 1)
    ensures HasBytes(h, r, nbytes)
  {
    hide Linkage, Ordered;
    forall x: nat, b: nat | HEADER * r <= x < HEADER * r + nbytes
      ensures InBlock(h.blocks, b, x / HEADER) <==> b == r - 1
    {
      assert r <= x / HEADER < r - 1 + h.live[r - 1];
      assert InBlock(h.blocks, r - 1, x / HEADER);
    }
  }

  ghost function StartHeap(): Heap { Heap(map[BASE := Header(BASE, 0)], [BASE], map[], map[BASE := 0], map[]) }

  lemma StartOk()
    ensures HeapOk(StartHeap())
  {}

  /** The blocks less than d steps behind position f on the circle are too small. */
  ghost predicate Scanned(h: Heap, f: nat, d: nat, n: nat)
    requires f < |h.fl|
  {
    forall i: nat | i < |h.fl| && Steps(f, i, |h.fl|) < d :: !BlockFits(h, i, n)
  }

  lemma ScanStart(h: Heap, f: nat, n: nat)
    requires f < |h.fl|
    ensures Steps(f, After(h.fl, f), |h.fl|) == 1 && Scanned(h, f, 1, n)
  {}

  lemma ScanStep(h: Heap, f: nat, i: nat, n: nat)
    requires HeapOk(h) && f < |h.fl| && i < |h.fl| && Scanned(h, f, Steps(f, i, |h.fl|), n)
    requires h.fl[i] in h.mem && h.mem[h.fl[i]].size < n
    ensures i != f ==> Steps(f, After(h.fl, i), |h.fl|) == Steps(f, i, |h.fl|) + 1
                       && Scanned(h, f, Steps(f, After(h.fl, i), |h.fl|), n)
    ensures i != f ==> h.fl[i] != h.fl[f]
    ensures i == f ==> !Fits(h, n)
  {
    hide Linkage, Agree;
    Distinct(h.mem, h.fl, 1, f);
    assert !BlockFits(h, i, n);
    forall k: nat | k < |h.fl| && Steps(f, k, |h.fl|) <= Steps(f, i, |h.fl|) ensures !BlockFits(h, k, n) {
      assert Steps(f, k, |h.fl|) == Steps(f, i, |h.fl|) ==> k == i;
    }
  }

  lemma FoundAt(h: Heap, i: nat, n: nat)
    requires HeapOk(h) && i < |h.fl| && h.fl[i] in h.mem && h.mem[h.fl[i]].size >= n > 0
    ensures BlockFits(h, i, n) && Fits(h, n) && i > 0
  {
    assert BlockFits(h, i, n);
  }

  /** The units of the heap are those of before and n new ones from some address past brk on. */
  ghost predicate Grew(h: Heap, h': Heap, brk: nat, n: nat) {
    exists p: nat | p >= brk :: h'.tile.Keys == h.tile.Keys + Range(p, n)
  }

  lemma GrewSame(h0: Heap, h0': Heap, h1: Heap, h1': Heap, brk: nat, n: nat)
    requires Grew(h0, h1, brk, n) && h0'.tile.Keys == h0.tile.Keys && h1'.tile.Keys == h1.tile.Keys
    ensures Grew(h0', h1', brk, n)
  {}

  lemma LiveBlock(h: Heap, b: nat)
    requires HeapOk(h) && b in h.live
    ensures b > BASE && b !in h.fl && b in h.mem && h.mem[b].size == h.live[b] > 0
    ensures |h.fl| > 0 && Linkage(h.mem, h.fl) && forall i: nat | i < |h.fl| :: h.fl[i] >= BASE
  {
    assert b in h.blocks;
  }

  lemma LinkAt(h: Heap, i: nat)
    requires HeapOk(h) && i < |h.fl|
    ensures h.fl[i] in h.mem && h.mem[h.fl[i]].ptr == Next(h.fl, i) && h.fl[0] == BASE
  {}

  /** The search of free stops at the place of block b and nowhere else. */
  lemma SearchAt(h: Heap, k: nat, b: nat, j: nat)
    requires HeapOk(h) && Place(h.fl, k, b) && j < |h.fl| && b > BASE && b !in h.fl
    ensures var p, q := h.fl[j], Next(h.fl, j);
            (p < b < q || (p >= q && (b > p || b < q))) <==> j == k
  {
    hide Agree, Linkage;
    AscendingAt(h.mem, h.fl, k, j);
    LinkAt(h, j);
  }

  lemma AscendingAt(mem: Mem, fl: seq<nat>, k: nat, j: nat)
    requires Ordered(mem, fl, 1) && k < |fl| && j < |fl|
    ensures j < k ==> fl[j + 1] <= fl[k]
    ensures k < j ==> fl[k + 1] <= fl[j]
    ensures j + 1 < |fl| ==> fl[j] < fl[j + 1]
    ensures fl[j] >= fl[0]
  {
    hide End;
  }
}
