/** Processes: the shape of an address space, with a heap that grows up, a stack that grows down
    and slots for shared pages, and fork. */
module VmProc {
  import opened Wrappers
  import opened FsLayout
  import opened VmMem
  import opened VmSteps
  import opened Vm
  import opened VmUser

  const GAP: nat := 20480   // 5 pages are kept between heap and stack

  class Process {
    var pgdir: nat
    var sz: nat               // the end of the heap, which starts at page 4
    var stackBm: nat          // the bottom of the stack
    var sharedpg: seq<int>    // the shared page in each of the slots 1 to 3, or -1

    constructor (pgdir: nat, sz: nat, stackBm: nat, sharedpg: seq<int>)
      ensures this.pgdir == pgdir && this.sz == sz && this.stackBm == stackBm && this.sharedpg == sharedpg
    {
      this.pgdir, this.sz, this.stackBm, this.sharedpg := pgdir, sz, stackBm, sharedpg;
    }
  }

  /** The slots are filled in order, with different shared pages. */
  predicate SlotsOk(sh: seq<int>) {
    && |sh| == 3 && (forall i: nat | i < 3 :: -1 <= sh[i] < 3)
    && (forall i: nat, j: nat | i < j < 3 && sh[j] >= 0 :: sh[i] >= 0 && sh[i] != sh[j])
  }

  predicate BoundsOk(sz: nat, sb: nat) { 4 * PGSIZE <= sz && sz + GAP <= sb < USERTOP && sb % PGSIZE == 0 }

  /** The pages that a process has: heap, stack, and filled slots. */
  predicate HasPage(sz: nat, sb: nat, sh: seq<int>, v: nat) { Private(sz, sb, v) || Slotted(sh, v) }

  predicate Private(sz: nat, sb: nat, v: nat) { 4 <= v < PagesTo(sz) || sb / PGSIZE <= v < UPAGES }

  predicate Slotted(sh: seq<int>, v: nat) { 1 <= v <= 3 && v - 1 < |sh| && sh[v - 1] >= 0 }

  ghost predicate PageShape(m: Mach, d: nat, sz: nat, sb: nat, sh: seq<int>, v: nat) {
    && (Lookup(m, d, v) != 0 <==> HasPage(sz, sb, sh, v))
    && (Slotted(sh, v) && sh[v - 1] < |m.shared| ==> Lookup(m, d, v) == Entry(m.shared[sh[v - 1]], PWU))
  }

  /** The address space is complete, and its user pages are just those of heap, stack and slots. */
  ghost predicate Shape(m: Mach, d: nat, sz: nat, sb: nat, sh: seq<int>) {
    && Sized(m) && Complete(m, d) && SlotsOk(sh) && BoundsOk(sz, sb)
    && forall v: nat | v < UPAGES :: PageShape(m, d, sz, sb, sh, v)
  }

  ghost predicate ShapeOf(m: Mach, p: Process)
    reads p
  {
    Shape(m, p.pgdir, p.sz, p.stackBm, p.sharedpg)
  }

  /** Kernel page 160 has the page table that all user pages have. */
  lemma ShapeTable(m: Mach, d: nat)
    requires Sized(m) && Complete(m, d)
    ensures PteAt(m, d, 0) != 0
  {
    assert Lookup(m, d, UPAGES) != 0;
  }

  lemma CompleteSame(m: Mach, n: Mach, d: nat)
    requires Sized(m) && Sized(n) && Complete(m, d) && n.use[d] == Dir
    requires forall v: nat | UPAGES <= v < VPAGES :: Lookup(n, d, v) == Lookup(m, d, v)
    ensures Complete(n, d)
  {
    hide Lookup;
  }

  // ----- growing heap and stack -----

  /** Pages lo to hi - 1 have been added. */
  lemma ShapeFilled(m: Mach, n: Mach, d: nat, sz: nat, sb: nat, sh: seq<int>, sz': nat, sb': nat, lo: nat, hi: nat)
    requires Inv(m) && Shape(m, d, sz, sb, sh) && Filled(m, n, d, lo, hi) && 4 <= lo <= hi <= UPAGES
        && BoundsOk(sz', sb')
    requires forall v: nat | v < UPAGES :: Private(sz', sb', v) <==> Private(sz, sb, v) || lo <= v < hi
    ensures Shape(n, d, sz', sb', sh)
  {
    hide Lookup, PteAt, FreeOk;
    CompleteSame(m, n, d);
    forall v: nat | v < UPAGES ensures PageShape(n, d, sz', sb', sh, v) {
      assert PageShape(m, d, sz, sb, sh, v);
      if lo <= v < hi { assert Zeroed(m, n, d, v); } else { assert Lookup(n, d, v) == Lookup(m, d, v); }
    }
  }

  lemma ShapeDropped(m: Mach, n: Mach, d: nat, sz: nat, sb: nat, sh: seq<int>, sz': nat, lo: nat, hi: nat)
    requires Inv(m) && Shape(m, d, sz, sb, sh) && Dropped(m, n, d, lo, hi) && 4 <= lo <= hi <= UPAGES
        && BoundsOk(sz', sb)
    requires forall v: nat | v < UPAGES :: Private(sz', sb, v) <==> Private(sz, sb, v) && !(lo <= v < hi)
    ensures Shape(n, d, sz', sb, sh)
  {
    hide Lookup, PteAt, FreeOk;
    CompleteSame(m, n, d);
    forall v: nat | v < UPAGES ensures PageShape(n, d, sz', sb, sh, v) {
      assert PageShape(m, d, sz, sb, sh, v);
      if lo <= v < hi { assert Lookup(n, d, v) == 0; } else { assert Lookup(n, d, v) == Lookup(m, d, v); }
    }
  }

  lemma ShapeRestored(m: Mach, n: Mach, d: nat, sz: nat, sb: nat, sh: seq<int>)
    requires Inv(m) && Shape(m, d, sz, sb, sh) && Restored(m, n)
    ensures Shape(n, d, sz, sb, sh)
  {
    hide Lookup, PteAt, FreeOk;
    assert SameEntries(m, n, d);
    CompleteSame(m, n, d);
    forall v: nat | v < UPAGES ensures PageShape(n, d, sz, sb, sh, v) {
      assert PageShape(m, d, sz, sb, sh, v);
    }
  }

  lemma ShapeDir(m: Mach, d: nat, sz: nat, sb: nat, sh: seq<int>)
    requires Shape(m, d, sz, sb, sh)
    ensures d < NPHYS && |m.use| == NPHYS && m.use[d] == Dir && PteAt(m, d, 0) != 0 && BoundsOk(sz, sb) && SlotsOk(sh)
    ensures forall v: nat | v < UPAGES && !HasPage(sz, sb, sh, v) :: Lookup(m, d, v) == 0
  {
    hide Lookup, PteAt;
    ShapeTable(m, d);
    forall v: nat | v < UPAGES && !HasPage(sz, sb, sh, v) ensures Lookup(m, d, v) == 0 {
      assert PageShape(m, d, sz, sb, sh, v);
    }
  }

  /** The sum of an unsigned and a signed number. */
  function AddUint(a: nat, n: int): nat { (a + n) % UINT }

  /** Grows the heap by n bytes. It succeeds exactly when the heap stays below the gap under the
      stack and there are pages enough; otherwise nothing changes. */
  method Growproc(k: Kernel, p: Process, n: int) returns (r: int)
    requires k.Valid() && ShapeOf(k.M(), p) && -0x8000_0000 <= n < 0x8000_0000
    requires !(0 <= p.sz + n < 4 * PGSIZE)
    modifies k`freelist, k`free, k`use, k.page, p`sz
    ensures k.Valid() && ShapeOf(k.M(), p) && (r == 0 || r == -1)
    ensures r == 0 <==> 0 <= old(p.sz) + n <= p.stackBm - GAP
                        && (n > 0 ==> |old(k.free)| >= PagesTo(old(p.sz) + n) - PagesTo(old(p.sz)))
    ensures r == -1 ==> p.sz == old(p.sz) && Restored(old(k.M()), k.M())
    ensures r == 0 ==> p.sz == old(p.sz) + n && BytesKept(old(k.M()), k.M(), p.pgdir)
    ensures r == 0 && n >= 0 ==> Filled(old(k.M()), k.M(), p.pgdir, PagesTo(old(p.sz)), PagesTo(p.sz))
    ensures r == 0 && n >= 0 ==> ZeroFrom(k.M(), p.pgdir, PagesTo(old(p.sz)) * PGSIZE, PagesTo(p.sz) * PGSIZE)
    ensures r == 0 && n < 0 ==> Dropped(old(k.M()), k.M(), p.pgdir, PagesTo(p.sz), PagesTo(old(p.sz)))
  {
    hide FreeOk, Lookup, PteAt, Inv, Filled, Dropped, Restored, Shape, Complete, ZeroFrom, BytesKept;
    ghost var m := k.M();
    ShapeDir(m, p.pgdir, p.sz, p.stackBm, p.sharedpg);
    RestoredSelf(m);
    KeptSelf(m, p.pgdir);
    ZeroNone(m, p.pgdir, PagesTo(p.sz) * PGSIZE);
    FilledNone(m, p.pgdir, PagesTo(p.sz));
    var sz := p.sz;
    if AddUint(sz, n) > p.stackBm - 5 * PGSIZE {
      return -1;
    }
    if n > 0 {
      sz := Allocuvm(k, p.pgdir, sz, sz + n);
      if sz == 0 {
        ShapeRestored(m, k.M(), p.pgdir, p.sz, p.stackBm, p.sharedpg);
        return -1;
      }
      ShapeFilled(m, k.M(), p.pgdir, p.sz, p.stackBm, p.sharedpg, sz, p.stackBm, PagesTo(p.sz), PagesTo(sz));
      FilledKeeps(m, k.M(), p.pgdir, PagesTo(p.sz), PagesTo(sz));
    } else if n < 0 {
      sz := Deallocuvm(k, p.pgdir, sz, sz + n);
      if sz == 0 {
        return -1;
      }
      ShapeDropped(m, k.M(), p.pgdir, p.sz, p.stackBm, p.sharedpg, sz, PagesTo(sz), PagesTo(p.sz));
      ShapeDir(k.M(), p.pgdir, sz, p.stackBm, p.sharedpg);
      DroppedKeeps(m, k.M(), p.pgdir, PagesTo(sz), PagesTo(p.sz));
    }
    p.sz := sz;
    r := 0;
  }

  lemma KeptSelf(m: Mach, d: nat)
    ensures BytesKept(m, m, d)
  {}

  lemma ZeroNone(m: Mach, d: nat, a: nat)
    requires Sized(m)
    ensures ZeroFrom(m, d, a, a)
  {}

  lemma RestoredSelf(m: Mach)
    requires Inv(m)
    ensures Restored(m, m) && Sized(m)
  {}

  /** Adds one page to the stack. */
  method Growstack(k: Kernel, p: Process) returns (r: int)
    requires k.Valid() && ShapeOf(k.M(), p)
    modifies k`freelist, k`free, k`use, k.page, p`stackBm
    ensures k.Valid() && ShapeOf(k.M(), p) && (r == 0 || r == -1)
    ensures r == 0 <==> p.sz + GAP <= old(p.stackBm) - PGSIZE && |old(k.free)| >= 1
    ensures r == -1 ==> p.stackBm == old(p.stackBm) && Restored(old(k.M()), k.M())
    ensures r == 0 ==> p.stackBm == old(p.stackBm) - PGSIZE
                       && Filled(old(k.M()), k.M(), p.pgdir, p.stackBm / PGSIZE, p.stackBm / PGSIZE + 1)
                       && ZeroFrom(k.M(), p.pgdir, p.stackBm, p.stackBm + PGSIZE)
                       && BytesKept(old(k.M()), k.M(), p.pgdir)
  {
    hide FreeOk, Lookup, PteAt, Inv, Filled, Dropped, Restored, Shape, Complete, ZeroFrom, BytesKept;
    ghost var m := k.M();
    ShapeDir(m, p.pgdir, p.sz, p.stackBm, p.sharedpg);
    RestoredSelf(m);
    var stack := p.stackBm - PGSIZE;
    if stack < p.sz + 5 * PGSIZE {
      return -1;
    }
    stack := Allocuvm(k, p.pgdir, stack, stack + PGSIZE);
    if stack == 0 {
      ShapeRestored(m, k.M(), p.pgdir, p.sz, p.stackBm, p.sharedpg);
      return -1;
    }
    ShapeFilled(m, k.M(), p.pgdir, p.sz, p.stackBm, p.sharedpg, p.sz, stack - PGSIZE, (stack - PGSIZE) / PGSIZE,
        stack / PGSIZE);
    FilledKeeps(m, k.M(), p.pgdir, (stack - PGSIZE) / PGSIZE, stack / PGSIZE);
    p.stackBm := stack - PGSIZE;
    r := 0;
  }

  // ----- shared pages -----

  lemma ShapeSlot(m: Mach, n: Mach, d: nat, sz: nat, sb: nat, sh: seq<int>, t: nat, i: nat)
    requires Inv(m) && Inv(n) && Shape(m, d, sz, sb, sh) && t < 3 && i < 3 && sh[t] == -1 && i !in sh
        && (forall j: nat | j < t :: sh[j] != -1)
    requires n.use == m.use && n.shared == m.shared && EntryBecomes(m, n, d, t + 1, Entry(m.shared[i], PWU))
    ensures Shape(n, d, sz, sb, sh[t := i])
  {
    hide Lookup, PteAt, FreeOk;
    var sh' := sh[t := i];
    forall v: nat | UPAGES <= v < VPAGES ensures Lookup(n, d, v) == Lookup(m, d, v) {}
    CompleteSame(m, n, d);
    UsesOk(m);
    forall v: nat | v < UPAGES ensures PageShape(n, d, sz, sb, sh', v) {
      assert PageShape(m, d, sz, sb, sh, v);
    }
  }

  /** Maps shared page pgnum at the first free slot, unless it is mapped already, and returns its
      address. Every existing shared page can be mapped: there are as many slots. */
  method Shmget(k: Kernel, p: Process, pgnum: int) returns (va: nat)
    requires k.Valid() && ShapeOf(k.M(), p)
    modifies k`freelist, k`free, k`use, k.page, p`sharedpg
    ensures k.Valid() && ShapeOf(k.M(), p) && k.use == old(k.use)
    ensures va == 0 <==> !(0 <= pgnum < 3)
    ensures va == 0 ==> k.M() == old(k.M()) && p.sharedpg == old(p.sharedpg)
    ensures va != 0 ==> var t := va / PGSIZE - 1;
              && va % PGSIZE == 0 && 0 <= t < 3 && |p.sharedpg| == 3 && p.sharedpg[t] == pgnum
              && p.sharedpg == old(p.sharedpg)[t := pgnum] && (pgnum in old(p.sharedpg) ==> k.M() == old(k.M()))
  {
    hide FreeOk, Lookup, PteAt, Inv, Shape, Complete;
    va := 0;
    if pgnum < 0 || pgnum > 2 {
      return 0;
    }
    ghost var m := k.M();
    ShapeDir(m, p.pgdir, p.sz, p.stackBm, p.sharedpg);
    InvSized(m);
    var temp := 0;
    while temp < 3
      invariant temp <= 3 && k.M() == m && p.sharedpg == old(p.sharedpg) && k.Valid() && ShapeOf(m, p)
      invariant forall j: nat | j < temp :: p.sharedpg[j] != pgnum && p.sharedpg[j] != -1
    {
      if p.sharedpg[temp] == pgnum {
        return (temp + 1) * PGSIZE;
      }
      if p.sharedpg[temp] == -1 {
        MapShared(m, p.pgdir, temp + 1, pgnum);
        var _ := k.Mappages(p.pgdir, (temp + 1) * PGSIZE, PGSIZE, k.shared[pgnum] * PGSIZE, PWU, SharedPage(pgnum));
        ShapeSlot(m, k.M(), p.pgdir, p.sz, p.stackBm, p.sharedpg, temp, pgnum);
        p.sharedpg := p.sharedpg[temp := pgnum];
        return (temp + 1) * PGSIZE;
      }
      temp := temp + 1;
    }
    ThreeSlots(p.sharedpg, pgnum);
  }

  /** Three filled slots hold all three shared pages. */
  lemma ThreeSlots(sh: seq<int>, i: int)
    requires SlotsOk(sh) && 0 <= i < 3 && forall j: nat | j < 3 :: sh[j] != -1
    ensures exists j: nat :: j < 3 && sh[j] == i
  {
    assert sh[0] != sh[1] && sh[0] != sh[2] && sh[1] != sh[2];
    assert sh[0] == i || sh[1] == i || sh[2] == i;
  }

  // ----- fork -----

  /** Page v of directory e is a fresh copy of page v of directory d. */
  ghost predicate Copied(m: Mach, n: Mach, d: nat, e: nat, v: nat)
    requires Sized(m) && Sized(n)
  {
    && FrameOf(Lookup(m, d, v)) < NPHYS && FrameOf(Lookup(n, e, v)) < NPHYS && Lookup(n, e, v) != 0
    && m.use[FrameOf(Lookup(n, e, v))] == Free && n.use[FrameOf(Lookup(n, e, v))] == User(e, v)
    && n.page[FrameOf(Lookup(n, e, v))] == m.page[FrameOf(Lookup(m, d, v))]
  }

  /** Only free pages have been taken, all for directory e, and no other address space has changed. */
  ghost predicate Beside(m: Mach, n: Mach, e: nat) {
    && Sized(m) && Sized(n) && n.shared == m.shared && 0 < e < NPHYS && m.use[e] == Free && n.use[e] == Dir
       && DataSame(m, n)
    && (forall f: nat | f < NPHYS :: n.use[f] == m.use[f] || (m.use[f] == Free && OwnedBy(n.use[f], f, e)))
    && (forall g: nat | g < NPHYS && m.use[g] == Dir :: SameEntries(m, n, g))
  }

  predicate HalfCopied(v: nat, h: nat, sb: nat, s: nat) { 4 <= v < h || sb / PGSIZE <= v < s }

  /** The copy e of directory d, with the heap up to page h and the stack up to page s. */
  ghost predicate Copying(m: Mach, n: Mach, d: nat, e: nat, sb: nat, h: nat, s: nat) {
    && Beside(m, n, e) && Complete(n, e)
    && (forall v: nat | v < UPAGES && HalfCopied(v, h, sb, s) :: Copied(m, n, d, e, v))
    && (forall v: nat | v < UPAGES && !HalfCopied(v, h, sb, s) :: Lookup(n, e, v) == 0)
    && |n.free| + KPAGES + (h - 4) + (s - sb / PGSIZE) == |m.free|
  }

  lemma CopyStart(m: Mach, n: Mach, d: nat, e: nat, sb: nat)
    requires Inv(m) && SetUp(m, n, e) && |n.free| == |m.free| - KPAGES
    ensures Copying(m, n, d, e, sb, 4, sb / PGSIZE)
  {
    hide Lookup, PteAt, FreeOk;
  }

  /** The frame that page v of the parent is in. */
  lemma ParentPage(m: Mach, d: nat, sz: nat, sb: nat, sh: seq<int>, v: nat)
    requires Inv(m) && Shape(m, d, sz, sb, sh) && v < UPAGES && Private(sz, sb, v)
    ensures d < NPHYS && m.use[d] == Dir && Present(Lookup(m, d, v)) && FrameOf(Lookup(m, d, v)) < NPHYS
    ensures m.use[FrameOf(Lookup(m, d, v))] == User(d, v) && m.page[FrameOf(Lookup(m, d, v))].Data?
  {
    hide Lookup, PteAt, FreeOk, Entry, Present;
    assert PageShape(m, d, sz, sb, sh, v);
    PrivatePage(m, d, v);
  }

  lemma PrivatePage(m: Mach, d: nat, v: nat)
    requires Inv(m) && d < NPHYS && m.use[d] == Dir && 4 <= v < UPAGES && Lookup(m, d, v) != 0
    ensures Present(Lookup(m, d, v)) && FrameOf(Lookup(m, d, v)) < NPHYS
    ensures m.use[FrameOf(Lookup(m, d, v))] == User(d, v) && m.page[FrameOf(Lookup(m, d, v))].Data?
  {
    hide Lookup, PteAt, FreeOk, Entry, FrameOf, Present;
    assert EntryOk(m, d, v);
    assert UserOk(m, FrameOf(Lookup(m, d, v)));
    EntryPresent(FrameOf(Lookup(m, d, v)), PWU);
  }

  lemma CopyMore(m: Mach, n: Mach, n': Mach, d: nat, e: nat, sb: nat, h: nat, s: nat, h': nat, s': nat, v: nat,
          f: nat, c: Page)
    requires Inv(m) && Inv(n) && Copying(m, n, d, e, sb, h, s) && d < NPHYS && m.use[d] == Dir && 4 <= v < UPAGES
        && !HalfCopied(v, h, sb, s)
    requires PageAdded(n, n', e, v, f, c) && FrameOf(Lookup(m, d, v)) < NPHYS && c == m.page[FrameOf(Lookup(m, d, v))]
    requires forall u: nat | u < UPAGES :: HalfCopied(u, h', sb, s') <==> HalfCopied(u, h, sb, s) || u == v
    requires h' + s' == h + s + 1
    ensures Copying(m, n', d, e, sb, h', s')
  {
    hide Lookup, PteAt, FreeOk;
    BesideMore(m, n, n', e, v, f, c);
    forall u: nat | UPAGES <= u < VPAGES ensures Lookup(n', e, u) == Lookup(n, e, u) {}
    CompleteSame(n, n', e);
    forall u: nat | u < UPAGES && HalfCopied(u, h', sb, s') ensures Copied(m, n', d, e, u) {
      assert Lookup(n', e, u) == if u == v then Entry(f, PWU) else Lookup(n, e, u);
      if u != v { assert Copied(m, n, d, e, u); }
    }
    forall u: nat | u < UPAGES && !HalfCopied(u, h', sb, s') ensures Lookup(n', e, u) == 0 {
      assert Lookup(n', e, u) == Lookup(n, e, u);
    }
  }

  lemma BesideMore(m: Mach, n: Mach, n': Mach, e: nat, v: nat, f: nat, c: Page)
    requires Inv(m) && Inv(n) && Beside(m, n, e) && Complete(n, e) && v < VPAGES && PageAdded(n, n', e, v, f, c)
    ensures Beside(m, n', e)
  {
    hide Lookup, PteAt, FreeOk, Complete;
    assert n.use[e] == Dir by { CompleteDir(n, e); }
    forall g: nat | g < NPHYS && m.use[g] == Dir ensures SameEntries(m, n', g) {
      assert SameEntries(m, n, g) && n.use[g] == Dir;
      forall u: nat | u < VPAGES ensures Lookup(n', g, u) == Lookup(m, g, u) {
        assert Lookup(n', g, u) == Lookup(n, g, u);
      }
    }
  }

  lemma CompleteDir(n: Mach, e: nat)
    requires Sized(n) && Complete(n, e)
    ensures e < NPHYS && n.use[e] == Dir
  {}

  /** Freeing the half-made copy restores everything. */
  lemma CopyFreed(m: Mach, n: Mach, n': Mach, e: nat)
    requires Inv(m) && Inv(n') && Beside(m, n, e) && Released(n, n', e)
    ensures Restored(m, n')
  {
    hide Lookup, PteAt, FreeOk;
    forall f: nat | f < NPHYS ensures n'.use[f] == m.use[f] {
      NotOwned(m, f, e);
    }
    assert n'.use == m.use;
    forall g: nat | g < NPHYS && m.use[g] == Dir ensures SameEntries(m, n', g) {
      assert SameEntries(m, n, g) && n.use[g] == Dir && SameEntries(n, n', g);
    }
    RestoredIs(m, n');
  }

  /** A page that is free is not the directory of any other page. */
  lemma NotOwned(m: Mach, f: nat, e: nat)
    requires Inv(m) && f < NPHYS && e < NPHYS && m.use[e] == Free
    ensures m.use[f] != Free ==> !OwnedBy(m.use[f], f, e)
  {
    hide Lookup, PteAt, FreeOk;
    assert TableOk(m, f) && UserOk(m, f);
  }

  /** Copies page v of directory d into directory e; false when there is no page left. */
  method CopyPage(k: Kernel, d: nat, e: nat, v: nat, ghost m: Mach, ghost sz: nat, ghost sb: nat, ghost sh: seq<int>,
                  ghost h: nat, ghost s: nat, ghost h': nat, ghost s': nat)
    returns (ok: bool)
    requires k.Valid() && Inv(m) && Shape(m, d, sz, sb, sh) && Copying(m, k.M(), d, e, sb, h, s)
    requires 4 <= v < UPAGES && Private(sz, sb, v) && !HalfCopied(v, h, sb, s)
    requires forall u: nat | u < UPAGES :: HalfCopied(u, h', sb, s') <==> HalfCopied(u, h, sb, s) || u == v
    requires h' + s' == h + s + 1
    modifies k`freelist, k`free, k`use, k.page
    ensures k.Valid()
    ensures ok <==> old(k.free) != []
    ensures ok ==> Copying(m, k.M(), d, e, sb, h', s')
    ensures !ok ==> k.M() == old(k.M())
  {
    hide FreeOk, Lookup, PteAt, Inv, Shape, Copying, EntryBecomes, PageAdded, Complete, Taken;
    ghost var n := k.M();
    InvSized(m);
    ParentPage(m, d, sz, sb, sh, v);
    CopyParent(m, n, d, e, sb, h, s, v);
    var t := k.Walkpgdir(d, v, false);
    WalkedParent(n, d, v);
    assert t != 0;   // so the kernel does not panic with "pte should exist"
    TableRead(n, d, v);
    var pte := k.page[t].pte[v % NPTE];
    assert Present(pte);   // nor with "page not present"
    var pa := FrameOf(pte);
    InvAlloc(n);
    var mem := k.Kalloc();
    if mem == 0 {
      return false;
    }
    TakenPages(n);
    NewPage(k, e, v, mem, k.page[pa], n);
    CopyMore(m, n, k.M(), d, e, sb, h, s, h', s', v, mem, m.page[FrameOf(Lookup(m, d, v))]);
    ok := true;
  }

  lemma TakenPages(n: Mach)
    requires Inv(n) && n.free != []
    ensures Sized(n) && 0 < n.free[0] < NPHYS && Taken(n).page == n.page && Taken(n).use == n.use[n.free[0] := Held]
  {
    InvAlloc(n);
    TakenHeld(n);
  }

  lemma CopyParent(m: Mach, n: Mach, d: nat, e: nat, sb: nat, h: nat, s: nat, v: nat)
    requires Inv(m) && Inv(n) && Copying(m, n, d, e, sb, h, s) && d < NPHYS && m.use[d] == Dir && v < UPAGES
        && !HalfCopied(v, h, sb, s)
    requires FrameOf(Lookup(m, d, v)) < NPHYS && m.use[FrameOf(Lookup(m, d, v))] == User(d, v)
    ensures Sized(n) && n.use[d] == Dir && Lookup(n, d, v) == Lookup(m, d, v)
    ensures n.page[FrameOf(Lookup(m, d, v))] == m.page[FrameOf(Lookup(m, d, v))]
    ensures e < NPHYS && n.use[e] == Dir && Lookup(n, e, v) == 0 && PteAt(n, e, 0) != 0
  {
    ShapeTable(n, e);
    hide Lookup, PteAt, FreeOk;
    assert SameEntries(m, n, d);
  }

  lemma WalkedParent(n: Mach, d: nat, v: nat)
    requires Lookup(n, d, v) != 0
    ensures PteAt(n, d, v / NPTE) != 0
  {}

  /** All private pages have been copied, and the first i slots are mapped as in the parent. */
  ghost predicate Slotting(m: Mach, n: Mach, d: nat, e: nat, sz: nat, sb: nat, sh: seq<int>, i: nat) {
    && Beside(m, n, e) && Complete(n, e)
    && (forall v: nat | v < UPAGES && Private(sz, sb, v) :: Copied(m, n, d, e, v))
    && (forall v: nat | v < UPAGES && !Private(sz, sb, v) ::
          Lookup(n, e, v) == if Slotted(sh, v) && v <= i then Lookup(m, d, v) else 0)
  }

  /** The child e has copies of the private pages of d, on fresh pages, and the same shared pages. */
  ghost predicate Forked(m: Mach, n: Mach, d: nat, e: nat, sz: nat, sb: nat, sh: seq<int>) {
    && Beside(m, n, e) && Shape(n, e, sz, sb, sh)
    && (forall v: nat | v < UPAGES && Private(sz, sb, v) :: Copied(m, n, d, e, v))
    && (forall v: nat | v < UPAGES && Slotted(sh, v) :: Lookup(n, e, v) == Lookup(m, d, v))
  }

  lemma SlotStart(m: Mach, n: Mach, d: nat, e: nat, sz: nat, sb: nat, sh: seq<int>)
    requires BoundsOk(sz, sb) && Copying(m, n, d, e, sb, PagesTo(sz), UPAGES)
    ensures Slotting(m, n, d, e, sz, sb, sh, 0)
  {
    hide Lookup, PteAt;
  }

  lemma SlotSkip(m: Mach, n: Mach, d: nat, e: nat, sz: nat, sb: nat, sh: seq<int>, i: nat)
    requires Slotting(m, n, d, e, sz, sb, sh, i) && i < 3 && |sh| == 3 && sh[i] < 0
    ensures Slotting(m, n, d, e, sz, sb, sh, i + 1)
  {
    hide Lookup, PteAt;
  }

  lemma SlotMore(m: Mach, n: Mach, n': Mach, d: nat, e: nat, sz: nat, sb: nat, sh: seq<int>, i: nat)
    requires Inv(m) && Inv(n) && Slotting(m, n, d, e, sz, sb, sh, i) && i < 3 && BoundsOk(sz, sb) && |sh| == 3
        && sh[i] >= 0
    requires Sized(n') && n'.use == n.use && n'.shared == n.shared && EntryBecomes(n, n', e, i + 1, Lookup(m, d, i + 1))
    requires forall f: nat | f < NPHYS && !n.use[f].Table? :: n'.page[f] == n.page[f]
    ensures Slotting(m, n', d, e, sz, sb, sh, i + 1)
  {
    hide Lookup, PteAt, FreeOk;
    CompleteDir(n, e);
    forall u: nat | UPAGES <= u < VPAGES ensures Lookup(n', e, u) == Lookup(n, e, u) {}
    CompleteSame(n, n', e);
    forall g: nat | g < NPHYS && m.use[g] == Dir ensures SameEntries(m, n', g) {
      assert SameEntries(m, n, g) && n.use[g] == Dir;
      forall u: nat | u < VPAGES ensures Lookup(n', g, u) == Lookup(m, g, u) {
        assert Lookup(n', g, u) == Lookup(n, g, u);
      }
    }
    forall v: nat | v < UPAGES && Private(sz, sb, v) ensures Copied(m, n', d, e, v) {
      assert Copied(m, n, d, e, v);
      assert Lookup(n', e, v) == Lookup(n, e, v);
    }
    forall v: nat | v < UPAGES && !Private(sz, sb, v)
      ensures Lookup(n', e, v) == if Slotted(sh, v) && v <= i + 1 then Lookup(m, d, v) else 0
    {
      assert Lookup(n', e, v) == if v == i + 1 then Lookup(m, d, i + 1) else Lookup(n, e, v);
    }
  }

  lemma SlotsDone(m: Mach, n: Mach, d: nat, e: nat, sz: nat, sb: nat, sh: seq<int>)
    requires Inv(m) && Inv(n) && Shape(m, d, sz, sb, sh) && Slotting(m, n, d, e, sz, sb, sh, 3)
    ensures Forked(m, n, d, e, sz, sb, sh)
  {
    hide Lookup, PteAt, FreeOk;
    forall v: nat | v < UPAGES ensures PageShape(n, e, sz, sb, sh, v) {
      assert PageShape(m, d, sz, sb, sh, v);
      if Private(sz, sb, v) { assert Copied(m, n, d, e, v); }
    }
  }

  /** A process whose directory is not touched keeps its shape. */
  lemma ShapeKept(m: Mach, n: Mach, d: nat, sz: nat, sb: nat, sh: seq<int>)
    requires Shape(m, d, sz, sb, sh) && Sized(n) && n.shared == m.shared && n.use[d] == Dir && SameEntries(m, n, d)
    ensures Shape(n, d, sz, sb, sh)
  {
    hide Lookup, PteAt;
    CompleteSame(m, n, d);
    forall v: nat | v < UPAGES ensures PageShape(n, d, sz, sb, sh, v) {
      assert PageShape(m, d, sz, sb, sh, v);
    }
  }

  lemma SlotPage(m: Mach, n: Mach, d: nat, e: nat, sz: nat, sb: nat, sh: seq<int>, i: nat)
    requires Inv(m) && Inv(n) && Shape(m, d, sz, sb, sh) && Slotting(m, n, d, e, sz, sb, sh, i) && i < 3 && sh[i] >= 0
    ensures Sized(n) && d < NPHYS && n.use[d] == Dir
        && Lookup(n, d, i + 1) == Lookup(m, d, i + 1) == Entry(n.shared[sh[i]], PWU)
    ensures e < NPHYS && n.use[e] == Dir && Lookup(n, e, i + 1) == 0 && PteAt(n, e, 0) != 0
    ensures FrameOf(Entry(n.shared[sh[i]], PWU)) == n.shared[sh[i]] && Entry(n.shared[sh[i]], PWU) != 0
  {
    ShapeTable(n, e);
    hide Lookup, PteAt, FreeOk;
    assert SameEntries(m, n, d);
    assert PageShape(m, d, sz, sb, sh, i + 1);
  }

  lemma SharedPages(n: Mach, d: nat, v: nat, w: nat)
    requires Inv(n) && d < NPHYS && n.use[d] == Dir && v < VPAGES && HasTable(n, d, v)
    ensures var c := WithEntry(n, d, v, w);
            c.use == n.use && c.shared == n.shared && Sized(c)
            && forall f: nat | f < NPHYS && !n.use[f].Table? :: c.page[f] == n.page[f]
  {
    TableOf(n, d, v);
  }

  /** How many pages fork needs. */
  function ForkPages(sz: nat, sb: nat): int { KPAGES + (PagesTo(sz) - 4) + (UPAGES - sb / PGSIZE) }

  /** Copies the address space of the process p: private pages are copied to fresh pages, shared
      pages are mapped again. It succeeds exactly when there are pages enough. When the kernel part
      could be made, a failure restores everything. */
  method Copyuvm(k: Kernel, p: Process) returns (e: nat)
    requires k.Valid() && ShapeOf(k.M(), p)
    modifies k`freelist, k`free, k`use, k.page
    ensures k.Valid() && ShapeOf(k.M(), p)
    ensures e != 0 <==> |old(k.free)| >= ForkPages(p.sz, p.stackBm)
    ensures e != 0 ==> Forked(old(k.M()), k.M(), p.pgdir, e, p.sz, p.stackBm, p.sharedpg)
                       && |k.free| + ForkPages(p.sz, p.stackBm) == |old(k.free)|
    ensures e == 0 && |old(k.free)| >= KPAGES ==> Restored(old(k.M()), k.M())
    ensures e == 0 && |old(k.free)| < KPAGES ==> k.free == [] && OnlyFreeUsed(old(k.M()), k.M())
  {
    hide FreeOk, Lookup, PteAt, Inv, Shape, Copying, Complete, Restored, OnlyFreeUsed, SetUp, Slotting, Forked, Beside;
    ghost var m := k.M();
    var d, sz, sb, sh := p.pgdir, p.sz, p.stackBm, p.sharedpg;
    ShapeDir(m, d, sz, sb, sh);
    e := k.Setupkvm();
    if e == 0 {
      UsedSame(m, k.M(), d);
      ShapeKept(m, k.M(), d, sz, sb, sh);
      return;
    }
    CopyStart(m, k.M(), d, e, sb);
    var i := 4;
    while i * PGSIZE < sz
      invariant 4 <= i <= PagesTo(sz) && k.Valid() && Copying(m, k.M(), d, e, sb, i, sb / PGSIZE)
    {
      CopyCount(m, k.M(), d, e, sb, i, sb / PGSIZE);
      var ok := CopyPage(k, d, e, i, m, sz, sb, sh, i, sb / PGSIZE, i + 1, sb / PGSIZE);
      if !ok {
        GiveUp(k, d, e, m, sz, sb, sh, i, sb / PGSIZE);
        return 0;
      }
      i := i + 1;
    }
    ghost var h := i;
    i := sb / PGSIZE;
    while i * PGSIZE <= USERTOP - PGSIZE
      invariant sb / PGSIZE <= i <= UPAGES && k.Valid() && Copying(m, k.M(), d, e, sb, h, i)
    {
      CopyCount(m, k.M(), d, e, sb, h, i);
      var ok := CopyPage(k, d, e, i, m, sz, sb, sh, h, i, h, i + 1);
      if !ok {
        GiveUp(k, d, e, m, sz, sb, sh, h, i);
        return 0;
      }
      i := i + 1;
    }
    CopyCount(m, k.M(), d, e, sb, h, i);
    SlotStart(m, k.M(), d, e, sz, sb, sh);
    CopySlots(k, d, e, m, sz, sb, sh);
  }

  lemma CopyCount(m: Mach, n: Mach, d: nat, e: nat, sb: nat, h: nat, s: nat)
    requires Copying(m, n, d, e, sb, h, s)
    ensures |n.free| + KPAGES + (h - 4) + (s - sb / PGSIZE) == |m.free|
  {}

  lemma UsedSame(m: Mach, n: Mach, d: nat)
    requires OnlyFreeUsed(m, n) && d < NPHYS && m.use[d] == Dir
    ensures Sized(n) && n.shared == m.shared && n.use[d] == Dir && SameEntries(m, n, d)
  {}

  lemma RestoredSame(m: Mach, n: Mach, d: nat)
    requires Restored(m, n) && d < NPHYS && m.use[d] == Dir
    ensures Sized(n) && n.shared == m.shared && n.use[d] == Dir && SameEntries(m, n, d)
  {}

  /** The copy is given up: what it has taken is freed. */
  method GiveUp(k: Kernel, d: nat, e: nat, ghost m: Mach, ghost sz: nat, ghost sb: nat, ghost sh: seq<int>,
          ghost h: nat, ghost s: nat)
    requires k.Valid() && Inv(m) && Shape(m, d, sz, sb, sh) && Copying(m, k.M(), d, e, sb, h, s)
    modifies k`freelist, k`free, k`use, k.page
    ensures k.Valid() && Restored(m, k.M()) && Shape(k.M(), d, sz, sb, sh)
  {
    hide FreeOk, Lookup, PteAt, Inv, Shape, Complete, Restored, Beside, Released;
    ghost var n := k.M();
    InvSized(n);
    CompleteDir(n, e);
    ShapeDir(m, d, sz, sb, sh);
    Freevm(k, e);
    CopyFreed(m, n, k.M(), e);
    RestoredSame(m, k.M(), d);
    ShapeKept(m, k.M(), d, sz, sb, sh);
  }

  /** The shared pages of the parent are mapped in the same slots of the child. */
  method CopySlots(k: Kernel, d: nat, e: nat, ghost m: Mach, ghost sz: nat, ghost sb: nat, sh: seq<int>)
    requires k.Valid() && Inv(m) && Shape(m, d, sz, sb, sh) && Slotting(m, k.M(), d, e, sz, sb, sh, 0)
    modifies k`freelist, k`free, k`use, k.page
    ensures k.Valid() && Shape(k.M(), d, sz, sb, sh) && Forked(m, k.M(), d, e, sz, sb, sh)
    ensures |k.free| == |old(k.free)|
  {
    hide FreeOk, Lookup, PteAt, Inv, Shape, Complete, Slotting, Forked, Beside, EntryBecomes;
    ShapeDir(m, d, sz, sb, sh);
    InvSized(m);
    ghost var n0 := k.M();
    var i := 0;
    while i < 3
      invariant i <= 3 && k.Valid() && Slotting(m, k.M(), d, e, sz, sb, sh, i) && k.use == n0.use
    {
      ghost var n := k.M();
      if sh[i] >= 0 {
        SlotPage(m, n, d, e, sz, sb, sh, i);
        var t := k.Walkpgdir(d, i + 1, false);
        WalkedParent(n, d, i + 1);
        TableRead(n, d, i + 1);
        var pa := FrameOf(k.page[t].pte[(i + 1) % NPTE]);
        MapShared(n, e, i + 1, sh[i]);
        SharedPages(n, e, i + 1, Entry(pa, PWU));
        var _ := k.Mappages(e, (i + 1) * PGSIZE, PGSIZE, pa * PGSIZE, PWU, SharedPage(sh[i]));
        SlotMore(m, n, k.M(), d, e, sz, sb, sh, i);
      } else {
        SlotSkip(m, n, d, e, sz, sb, sh, i);
      }
      i := i + 1;
    }
    SameFree(n0, k.M());
    SlotsDone(m, k.M(), d, e, sz, sb, sh);
    ForkedSame(m, k.M(), d, e, sz, sb, sh);
    ShapeKept(m, k.M(), d, sz, sb, sh);
  }

  /** As many pages are free as the uses of the pages say. */
  lemma SameFree(m: Mach, n: Mach)
    requires Inv(m) && Inv(n) && n.use == m.use
    ensures |n.free| == |m.free|
  {
    hide Inv;
    FreeSize(m);
    FreeSize(n);
  }

  lemma ForkedSame(m: Mach, n: Mach, d: nat, e: nat, sz: nat, sb: nat, sh: seq<int>)
    requires Forked(m, n, d, e, sz, sb, sh) && d < NPHYS && Sized(m) && m.use[d] == Dir
    ensures Sized(n) && n.shared == m.shared && n.use[d] == Dir && SameEntries(m, n, d)
  {}

  /** Parent and child have the same pages with the same bytes, in different frames from page 4 on
      and in the same frames below. */
  ghost predicate SameMemory(m: Mach, n: Mach, d: nat, e: nat) {
    && (forall a: nat | a < USERTOP :: UserByte(n, e, a) == UserByte(n, d, a) == UserByte(m, d, a))
    && (forall v: nat | v < UPAGES :: Lookup(n, e, v) == 0 <==> Lookup(m, d, v) == 0)
    && (forall v: nat | v < UPAGES && Lookup(m, d, v) != 0 :: FrameAt(n, e, v) == FrameAt(m, d, v) <==> v < 4)
  }

  lemma ForkedMemory(m: Mach, n: Mach, d: nat, e: nat, sz: nat, sb: nat, sh: seq<int>)
    requires Inv(m) && Inv(n) && Shape(m, d, sz, sb, sh) && Forked(m, n, d, e, sz, sb, sh)
    ensures SameMemory(m, n, d, e) && BytesKept(m, n, d)
  {
    hide Lookup, PteAt, FreeOk, Complete, Inv, Forked, Shape;
    forall v: nat | v < UPAGES ensures PageForked(m, n, d, e, v) {
      ForkedPage(m, n, d, e, sz, sb, sh, v);
    }
    forall a: nat | a < USERTOP ensures UserByte(n, e, a) == UserByte(n, d, a) == UserByte(m, d, a) {
      assert PageForked(m, n, d, e, a / PGSIZE);
    }
    forall v: nat | v < UPAGES
      ensures Lookup(n, e, v) == 0 <==> Lookup(m, d, v) == 0
      ensures Lookup(m, d, v) != 0 ==> (FrameAt(n, e, v) == FrameAt(m, d, v) <==> v < 4)
    {
      assert PageForked(m, n, d, e, v);
    }
  }

  ghost predicate PageForked(m: Mach, n: Mach, d: nat, e: nat, v: nat) {
    && Lookup(n, d, v) == Lookup(m, d, v) && (Lookup(n, e, v) == 0 <==> Lookup(m, d, v) == 0)
    && (Lookup(m, d, v) != 0 ==>
          && FrameAt(m, d, v) < |m.page| == |n.page| && FrameAt(n, e, v) < |n.page|
          && n.page[FrameAt(m, d, v)] == m.page[FrameAt(m, d, v)]
          && n.page[FrameAt(n, e, v)] == m.page[FrameAt(m, d, v)]
          && (FrameAt(n, e, v) == FrameAt(m, d, v) <==> v < 4))
  }

  lemma ForkedPage(m: Mach, n: Mach, d: nat, e: nat, sz: nat, sb: nat, sh: seq<int>, v: nat)
    requires Inv(m) && Shape(m, d, sz, sb, sh) && Forked(m, n, d, e, sz, sb, sh) && v < UPAGES
    ensures PageForked(m, n, d, e, v)
  {
    hide Lookup, PteAt, FreeOk, Complete;
    ShapeDir(m, d, sz, sb, sh);
    assert SameEntries(m, n, d);
    assert PageShape(m, d, sz, sb, sh, v) && PageShape(n, e, sz, sb, sh, v);
    if Lookup(m, d, v) != 0 { FrameUsed(m, d, v); }
    hide Inv;
    if Private(sz, sb, v) { assert Copied(m, n, d, e, v); }
  }

  /** The address-space part of fork. */
  method Fork(k: Kernel, p: Process) returns (np: Option<Process>)
    requires k.Valid() && ShapeOf(k.M(), p)
    modifies k`freelist, k`free, k`use, k.page
    ensures k.Valid() && ShapeOf(k.M(), p)
    ensures np.Some? <==> |old(k.free)| >= ForkPages(p.sz, p.stackBm)
    ensures np.Some? ==> fresh(np.value) && ShapeOf(k.M(), np.value)
                         && np.value.sz == p.sz && np.value.stackBm == p.stackBm && np.value.sharedpg == p.sharedpg
                         && Forked(old(k.M()), k.M(), p.pgdir, np.value.pgdir, p.sz, p.stackBm, p.sharedpg)
                         && |k.free| + ForkPages(p.sz, p.stackBm) == |old(k.free)|
    ensures np.Some? ==> SameMemory(old(k.M()), k.M(), p.pgdir, np.value.pgdir) && BytesKept(old(k.M()), k.M(), p.pgdir)
    ensures np.None? && |old(k.free)| >= KPAGES ==> Restored(old(k.M()), k.M())
    ensures np.None? && |old(k.free)| < KPAGES ==> k.free == [] && OnlyFreeUsed(old(k.M()), k.M())
  {
    var d := Copyuvm(k, p);
    if d == 0 {
      return None;
    }
    ForkedMemory(old(k.M()), k.M(), p.pgdir, d, p.sz, p.stackBm, p.sharedpg);
    var c := new Process(d, p.sz, p.stackBm, p.sharedpg);
    np := Some(c);
  }

  /** Every operation conserves the physical pages: growing, shrinking, freeing an address space,
      copying one, and failing. A page of the pool is always in exactly one use. */
  lemma PagesConserved(m: Mach, n: Mach, d: nat, lo: nat, hi: nat)
    requires Inv(m) && (Filled(m, n, d, lo, hi) || Dropped(m, n, d, lo, hi)
        || (Released(m, n, d) && d < NPHYS && m.use[d] == Dir)
                        || Beside(m, n, d) || Restored(m, n) || OnlyFreeUsed(m, n))
    ensures SamePool(m, n)
  {
    hide Lookup, PteAt, FreeOk, SharedOk;
  }
}
