/** The page allocator, page tables and user address spaces of the kernel. */
module Vm {
  import opened Wrappers
  import opened FsLayout
  import opened VmMem
  import opened VmSteps

  const KPAGES: nat := 13   // pages of an empty address space: the directory and 12 page tables

  type KData = k: nat | 256 < k < NPHYS witness 257

  /** A kernel mapping: addresses from p up to e, where 0 stands for the end of memory. */
  datatype KMap = KMap(p: nat, e: nat, flags: nat)

  class Kernel {
    const page: array<Page>      // physical memory
    const kdata: KData           // the first page of the kernel's data
    var freelist: nat            // the first free page, or 0
    var shared: seq<nat>         // the shared pages
    ghost var free: seq<nat>
    ghost var use: seq<Use>

    ghost function M(): Mach
      reads this, page
    {
      Mach(page[..], freelist, free, shared, use)
    }

    ghost predicate Valid()
      reads this, page
    {
      Inv(M())
    }

    /** The kernel after its memory has been set up: the pages behind the kernel image are free,
        except for the three shared pages. */
    constructor (end: nat, kdata: KData)
      requires 0 < end && (end + PGSIZE - 1) / PGSIZE + 3 <= NPHYS
      ensures Valid() && fresh(page) && this.kdata == kdata
      ensures var first := (end + PGSIZE - 1) / PGSIZE;
              && |use| == NPHYS && |free| == NPHYS - first - 3
              && forall f: nat | f < NPHYS :: (use[f] == Outside <==> f < first)
                                              && (use[f] == Outside || use[f] == Free || use[f].Shared?)
    {
      page := new Page[NPHYS];
      this.kdata := kdata;
      freelist, free, shared, use := 0, [], [0, 0, 0], seq(NPHYS, _ => Outside);
      new;
      Kinit(end);
      Initsharepg();
      Booted(M());
    }

    /** Puts all pages from the end of the kernel image on into the free list. */
    method Kinit(end: nat)
      requires Sized(M()) && freelist == 0 && free == [] && use == seq(NPHYS, _ => Outside) && 0 < end <= NPHYS * PGSIZE
      modifies this`freelist, this`free, this`use, page
      ensures CanAlloc(M()) && shared == old(shared)
      ensures var first := (end + PGSIZE - 1) / PGSIZE;
              |free| == NPHYS - first && forall f: nat | f < NPHYS :: use[f] == if f < first then Outside else Free
    {
      var first := (end + PGSIZE - 1) / PGSIZE;
      var p := first;
      while p + 1 <= NPHYS
        invariant first <= p <= NPHYS && CanAlloc(M()) && shared == old(shared) && |free| == p - first
        invariant forall f: nat | f < NPHYS :: use[f] == if first <= f < p then Free else Outside
      {
        GiveFree(M(), p);
        Kfree(p);
        p := p + 1;
      }
    }

    /** Takes three pages to be shared. */
    method Initsharepg()
      requires CanAlloc(M()) && |free| >= 3 && forall f: nat | f < NPHYS :: use[f] == Outside || use[f] == Free
      modifies this`freelist, this`free, this`use, this`shared, page
      ensures CanAlloc(M()) && |free| == old(|free|) - 3
      ensures SharedOk(M())
      ensures forall f: nat | f < NPHYS :: (use[f] == Outside <==> old(use)[f] == Outside)
                                           && (use[f] == Outside || use[f] == Free || use[f].Shared?)
    {
      hide FreeOk, Taken;
      var i := 0;
      while i < 3
        invariant i <= 3 && CanAlloc(M()) && |free| == old(|free|) - i && SharedUpTo(M(), i)
        invariant forall f: nat | f < NPHYS :: use[f] == Outside <==> old(use)[f] == Outside
      {
        ghost var m := M();
        TakenHeld(m);
        var mem := Kalloc();
        SetPage(mem, Data(ZeroBytes()));   // its contents do not matter
        shared := shared[i := mem];
        use := use[mem := Shared(i)];
        ShareOne(m, M(), i, mem);
        i := i + 1;
      }
    }

    method SetPage(f: nat, p: Page)
      requires f < page.Length
      modifies page
      ensures M() == old(M()).(page := old(M()).page[f := p])
    {
      page[f] := p;
      assert page[..] == old(page[..])[f := p];
    }

    /** Takes the first page from the free list, or returns 0. */
    method Kalloc() returns (f: nat)
      requires CanAlloc(M())
      modifies this`freelist, this`free, this`use
      ensures CanAlloc(M()) && (old(Valid()) ==> Valid())
      ensures f == 0 <==> old(free) == []
      ensures f == 0 ==> M() == old(M())
      ensures f != 0 ==> f < NPHYS && f == old(free)[0] && old(use)[f] == Free && M() == Taken(old(M()))
      ensures old(Valid()) ==> forall d: nat | d < NPHYS && old(use)[d] == Dir :: SameEntries(old(M()), M(), d)
    {
      hide FreeOk, SharedOk, Lookup;
      ghost var m := M();
      FirstFree(m);
      f := freelist;
      if f != 0 {
        TakeFree(m);
        if Inv(m) { TakeKeeps(m); }
        freelist := page[f].next;
        use := use[f := Held];
        free := free[1..];
      }
    }

    /** Puts a page in front of the free list; its contents are lost. */
    method Kfree(f: nat)
      requires Sized(M()) && 0 < f < NPHYS
      modifies this`freelist, this`free, this`use, page
      ensures M() == Given(old(M()), f)
    {
      SetPage(f, Run(freelist));
      freelist := f;
      free := [f] + free;
      use := use[f := Free];
    }

    /** The page table entry of page v in directory d, as the page that holds it; a missing page
        table is created if asked for. */
    method Walkpgdir(d: nat, v: nat, create: bool) returns (t: nat)
      requires Valid() && d < NPHYS && use[d] == Dir && v < VPAGES
      modifies this`freelist, this`free, this`use, page
      ensures Valid() && forall e: nat | e < NPHYS && old(use)[e] == Dir :: SameEntries(old(M()), M(), e)
      ensures t != 0 ==> HasTable(M(), d, v) && t == FrameOf(PteAt(M(), d, v / NPTE)) < NPHYS
      ensures var w := PteAt(old(M()), d, v / NPTE);
              if w != 0 then t != 0 && M() == old(M())
              else if !create || old(free) == [] then t == 0 && M() == old(M())
              else t != 0 && t == old(free)[0] && NewTable(old(M()), M(), d, v / NPTE, t)
    {
      hide FreeOk, SharedOk, Lookup;
      ghost var m := M();
      DirPage(m, d);
      var pde := page[d].pte[v / NPTE];
      if Present(pde) {
        TableOf(m, d, v);
        return FrameOf(pde);
      }
      DirEntryZero(m, d, v / NPTE);
      if !create {
        return 0;
      }
      InvAlloc(m);
      t := Kalloc();
      if t == 0 {
        return;
      }
      ghost var m1 := M();
      TakenSame(m, d);
      SetPage(t, Ptes(NoEntries()));
      TableKeeps(m1, d, v / NPTE, t);
      SetPage(d, Ptes(page[d].pte[v / NPTE := Entry(t, PWU)]));
      use := use[t := Table(d, v / NPTE)];
      assert M() == WithTable(m1, d, v / NPTE, t);
      forall e: nat | e < NPHYS && m.use[e] == Dir ensures SameEntries(m, M(), e) {
        assert SameEntries(m, m1, e) && SameEntries(m1, M(), e);
      }
      TableOf(M(), d, v);
    }

    /** Maps page v of directory d to page f, which must not be mapped yet. */
    method MapOne(d: nat, v: nat, f: nat, flags: nat, ghost kind: Kind) returns (ok: bool)
      requires Valid() && d < NPHYS && use[d] == Dir && v < VPAGES && Lookup(M(), d, v) == 0
      requires MayMap(M(), d, v, f, flags, kind)
      modifies this`freelist, this`free, this`use, page
      ensures Valid() && shared == old(shared) && |use| == NPHYS && use[d] == Dir && (kind.UserPage? ==> f < NPHYS)
      ensures ok ==> EntryBecomes(old(M()), M(), d, v, Entry(f, flags))
      ensures ok <==> PteAt(old(M()), d, v / NPTE) != 0 || old(free) != []
      ensures !ok ==> M() == old(M())
      ensures kind.UserPage? ==> ok && HasTable(old(M()), d, v) && M() == WithUser(old(M()), d, v, f)
      ensures kind.SharedPage? ==> ok && HasTable(old(M()), d, v) && M() == WithEntry(old(M()), d, v, Entry(f, flags))
      ensures kind.KernelPages? && ok ==> TableGrown(old(M()), M(), d, v / NPTE)
    {
      hide FreeOk, SharedOk, Lookup, PteAt;
      ghost var m := M();
      var t := Walkpgdir(d, v, true);
      if t == 0 {
        return false;
      }
      ghost var m1 := M();
      ghost var w := Entry(f, flags);
      assert SameEntries(m, m1, d);
      WalkedStill(m, m1, d, v, f, flags, kind, t);
      match kind {
        case KernelPages => MapKernel(m1, d, v, flags);
        case UserPage => MapUser(m1, d, v, f);
        case SharedPage(i) => MapShared(m1, d, v, i);
      }
      TableRead(m1, d, v);
      assert !Present(page[t].pte[v % NPTE]);   // so the kernel does not panic with "remap"
      SetPage(t, Ptes(page[t].pte[v % NPTE := f * PGSIZE + flags]));
      assert M() == WithEntry(m1, d, v, w);
      if kind.UserPage? { use := use[f := User(d, v)]; }
      BecomesThen(m, m1, M(), d, v, w);
      if kind.KernelPages? { GrownThen(m, m1, d, v, w, t); }
      ok := true;
    }

    /** Maps the pages from address la to la + size - 1 to the pages from address pa on. */
    method Mappages(d: nat, la: nat, size: nat, pa: nat, flags: nat, ghost kind: Kind) returns (ok: bool)
      requires Valid() && d < NPHYS && use[d] == Dir && la % PGSIZE == 0 && pa % PGSIZE == 0 && 0 < size
          && la + size <= UINT
      requires var first, last := la / PGSIZE, (la + size - 1) / PGSIZE;
               && (kind != KernelPages ==> first == last && MayMap(M(), d, first, pa / PGSIZE, flags, kind))
               && (kind == KernelPages ==> la == pa && (flags == P || flags == PW)
                                           && forall v: nat | first <= v <= last :: KernelPage(v))
               && forall v: nat | first <= v <= last :: Lookup(M(), d, v) == 0
      modifies this`freelist, this`free, this`use, page
      ensures Valid() && shared == old(shared) && |use| == NPHYS && use[d] == Dir
      ensures var first, last := la / PGSIZE, (la + size - 1) / PGSIZE;
              && (kind.UserPage? ==> ok && pa / PGSIZE < NPHYS && HasTable(old(M()), d, first)
                                     && M() == WithUser(old(M()), d, first, pa / PGSIZE))
              && (kind.SharedPage? ==> ok && HasTable(old(M()), d, first)
                                       && M() == WithEntry(old(M()), d, first, Entry(pa / PGSIZE, flags)))
              && (kind.KernelPages? ==> RangeMapped(old(M()), M(), d, first, last + 1, flags, ok))
    {
      hide FreeOk, SharedOk, Lookup, PteAt, Inv, RangeDone, TableGrown, EntryBecomes, WithUser, WithEntry, HasTable;
      hide RangeMapped, MayMap;
      ghost var m := M();
      var a, f := la / PGSIZE, pa / PGSIZE;
      var last := (la + size - 1) / PGSIZE;
      ghost var first := a;
      RangeNone(m, d, first, flags);
      while true
        invariant first <= a <= last < VPAGES && Valid() && shared == m.shared && f == pa / PGSIZE + (a - first)
        invariant kind.KernelPages? ==> RangeDone(m, M(), d, first, a, flags)
        invariant !kind.KernelPages? ==> M() == m
        invariant |use| == NPHYS && use[d] == Dir
        decreases last - a
      {
        ghost var m1 := M();
        if kind.KernelPages? { RangeNext(m, m1, d, first, a, flags); }
        KernelMay(m1, d, a, flags);
        ok := MapOne(d, a, f, flags, kind);
        if !ok {
          if kind.KernelPages? { RangeStop(m, m1, d, first, a, last + 1, flags); }
          return;
        }
        if kind.KernelPages? { RangeMore(m, m1, M(), d, first, a, flags); }
        if a == last {
          break;
        }
        a, f := a + 1, f + 1;
      }
      RangeEnd(m, M(), d, first, last + 1, flags);
    }

    /** A page directory with the kernel part mapped, or 0. It takes 13 pages; with less it fails,
        and the pages that it has taken are lost. */
    method Setupkvm() returns (d: nat)
      requires Valid()
      modifies this`freelist, this`free, this`use, page
      ensures Valid() && (d != 0 <==> |old(free)| >= KPAGES)
      ensures d != 0 ==> SetUp(old(M()), M(), d) && |free| == |old(free)| - KPAGES && Identity(M(), d, kdata)
      ensures d == 0 ==> free == [] && OnlyFreeUsed(old(M()), M())
    {
      hide FreeOk, SharedOk, Lookup, PteAt, Inv, RangeDone, RangeMapped, Tables, Pdxs, KMapped, OnlyFreeUsed, SetUp;
      hide Kmap, KStart, KEnd, KEntry, Identity;
      ghost var m := M();
      InvAlloc(m);
      d := Kalloc();
      if d == 0 {
        NoneUsed(m);
        return;
      }
      ghost var m1 := M();
      InvAlloc(m);
      TakenHeld(m);
      DirKeeps(m1, d);
      SetPage(d, Ptes(NoEntries()));
      use := use[d := Dir];
      ghost var m2 := M();
      assert m2 == WithDir(m1, d);
      SetUpStart(m, m1, m2, d, kdata);
      var kmap := Kmap(kdata);
      var k := 0;
      KNext(m, m2, d, kdata, 0);
      while k < 4
        invariant k <= 4 && Valid() && KMapped(m, M(), d, kdata, k)
      {
        KMapSize(kdata, k);
        var size := (kmap[k].e + UINT - kmap[k].p) % UINT;
        ghost var m3 := M();
        KNext(m, m3, d, kdata, k);
        var ok := Mappages(d, kmap[k].p, size, kmap[k].p, kmap[k].flags, KernelPages);
        if !ok {
          KStop(m, m3, M(), d, kdata, k, kmap[k].flags);
          return 0;
        }
        KMore(m, m3, M(), d, kdata, k, kmap[k].flags);
        k := k + 1;
      }
      KAll(m, M(), d, kdata);
    }
  }

  /** With five free pages the kernel part of an address space cannot be made, and the five pages are
      lost: they are part of a directory that is not returned. */
  method LosesPages(kdata: KData) returns (k: Kernel, ghost lost: seq<nat>, d: nat)
    ensures k.Valid() && k.free == [] && d == 0 && |k.use| == NPHYS && |lost| == 5
    ensures forall i: nat, j: nat | i < j < 5 :: lost[i] != lost[j]
    ensures forall f | f in lost :: f < NPHYS && (k.use[f].Dir? || k.use[f].Table?)
  {
    k := new Kernel((NPHYS - 8) * PGSIZE, kdata);
    ghost var m := k.M();
    lost := k.free;
    d := k.Setupkvm();
    forall f | f in lost ensures f < NPHYS && (k.use[f].Dir? || k.use[f].Table?) {
      var i: nat :| i < |lost| && lost[i] == f;
      assert LinkOk(m, i);
    }
  }

  /** What a mapping is for: a page of the kernel, a private user page, or a shared page. */
  datatype Kind = KernelPages | UserPage | SharedPage(i: nat)

  ghost predicate MayMap(m: Mach, d: nat, v: nat, f: nat, flags: nat, kind: Kind)
    requires Sized(m)
  {
    match kind
    case KernelPages => KernelPage(v) && f == v && (flags == P || flags == PW)
    case UserPage => 4 <= v < UPAGES && 0 < f < NPHYS && m.use[f] == Held && m.page[f].Data? && flags == PWU
        && PteAt(m, d, v / NPTE) != 0
    case SharedPage(i) => 1 <= v <= 3 && i < 3 && f == m.shared[i] && flags == PWU && PteAt(m, d, v / NPTE) != 0
  }

  /** At most a page table for entry x of directory d has come from the free list. */
  ghost predicate TableGrown(m: Mach, n: Mach, d: nat, x: nat) {
    && Sized(m) && Sized(n) && n.shared == m.shared
    && (forall y: nat | y < NPTE && y != x :: PteAt(n, d, y) == PteAt(m, d, y))
    && PteAt(n, d, x) != 0 && (PteAt(m, d, x) != 0 ==> n.free == m.free && n.use == m.use)
    && (PteAt(m, d, x) == 0 ==> m.free != [] && n.free == m.free[1..] && m.free[0] < NPHYS
                                && n.use == m.use[m.free[0] := Table(d, x)])
    && DataSame(m, n)
  }

  /** No data page and no free page changes. */
  ghost predicate DataSame(m: Mach, n: Mach)
    requires Sized(m) && Sized(n)
  {
    forall f: nat | f < NPHYS && (m.use[f].User? || m.use[f].Shared? || m.use[f].Held?) :: n.page[f] == m.page[f]
  }

  /** Walking to the table of page v leaves what is to be mapped as it was. */
  lemma WalkedStill(m: Mach, n: Mach, d: nat, v: nat, f: nat, flags: nat, kind: Kind, t: nat)
    requires Inv(m) && Inv(n) && d < NPHYS && m.use[d] == Dir && v < VPAGES && MayMap(m, d, v, f, flags, kind)
    requires n == m || NewTable(m, n, d, v / NPTE, t)
    requires n == m <== PteAt(m, d, v / NPTE) != 0
    requires t != 0 && t == FrameOf(PteAt(n, d, v / NPTE))
    ensures forall e: nat | e < NPHYS && m.use[e] == Dir :: n.use[e] == Dir
    ensures PteAt(n, d, v / NPTE) != 0 && MayMap(n, d, v, f, flags, kind) && DataSame(m, n)
  {
    hide Inv, Lookup;
  }

  lemma TableRead(m: Mach, d: nat, v: nat)
    requires Sized(m) && v < VPAGES && HasTable(m, d, v)
    ensures m.page[FrameOf(PteAt(m, d, v / NPTE))].pte[v % NPTE] == Lookup(m, d, v)
  {}

  lemma BecomesThen(m: Mach, m1: Mach, n: Mach, d: nat, v: nat, w: nat)
    requires Sized(m) && Sized(m1) && forall e: nat | e < NPHYS && m.use[e] == Dir :: m1.use[e] == Dir
                                                                                      && SameEntries(m, m1, e)
    requires EntryBecomes(m1, n, d, v, w)
    ensures EntryBecomes(m, n, d, v, w)
  {
    hide Lookup;
    forall e: nat, u: nat | e < NPHYS && m.use[e] == Dir && u < VPAGES
      ensures Lookup(n, e, u) == if e == d && u == v then w else Lookup(m, e, u)
    {
      assert SameEntries(m, m1, e);
    }
  }

  lemma GrownThen(m: Mach, m1: Mach, d: nat, v: nat, w: nat, t: nat)
    requires Inv(m) && Inv(m1) && d < NPHYS && m.use[d] == Dir && v < VPAGES && HasTable(m1, d, v)
    requires m1 == m || NewTable(m, m1, d, v / NPTE, t)
    requires m1 == m <== PteAt(m, d, v / NPTE) != 0
    requires m1 == m ==> PteAt(m, d, v / NPTE) != 0
    requires DataSame(m, m1) && m1.use[d] == Dir && t == FrameOf(PteAt(m1, d, v / NPTE)) && t != 0
    requires m.free != [] && m1 != m ==> t == m.free[0]
    ensures TableGrown(m, WithEntry(m1, d, v, w), d, v / NPTE)
  {
    EntryWritten(m1, d, v, w);
    TableOf(m1, d, v);
    hide Inv, Lookup;
  }

  // ----- mapping a range of kernel pages -----

  /** The entries of directory d that are in use. */
  ghost function Tables(m: Mach, d: nat): set<nat> { set x: nat | x < NPTE && PteAt(m, d, x) != 0 }

  /** The directory entries of pages lo to hi - 1. */
  ghost function Pdxs(lo: nat, hi: nat): set<nat> { set v: nat | lo <= v < hi :: v / NPTE }

  lemma PdxsMore(lo: nat, a: nat)
    ensures Pdxs(lo, lo) == {} && (lo <= a ==> Pdxs(lo, a + 1) == Pdxs(lo, a) + {a / NPTE})
  {}

  /** Pages lo to hi - 1 of directory d have been mapped to themselves, with page tables from the
      free list. */
  ghost predicate RangeDone(m: Mach, n: Mach, d: nat, lo: nat, hi: nat, flags: nat) {
    && Sized(m) && Sized(n) && n.shared == m.shared && d < NPHYS && m.use[d] == Dir
    && (forall e: nat, u: nat | e < NPHYS && m.use[e] == Dir && u < VPAGES ::
          Lookup(n, e, u) == if e == d && lo <= u < hi then Entry(u, flags) else Lookup(m, e, u))
    && Tables(n, d) == Tables(m, d) + Pdxs(lo, hi)
    && TablesFrom(m, n, d)
  }

  /** Only page tables of d have been taken from the free list. */
  ghost predicate TablesFrom(m: Mach, n: Mach, d: nat)
    requires Sized(m) && Sized(n)
  {
    && |n.free| + |Tables(n, d)| == |m.free| + |Tables(m, d)|
    && (forall f: nat | f < NPHYS :: n.use[f] == m.use[f] || (m.use[f] == Free && n.use[f].Table? && n.use[f].d == d))
    && DataSame(m, n)
  }

  /** How a mapping of pages lo to hi - 1 ends: they are all mapped, or the free list is empty and
      some page table is missing. */
  ghost predicate RangeMapped(m: Mach, n: Mach, d: nat, lo: nat, hi: nat, flags: nat, ok: bool) {
    if ok then RangeDone(m, n, d, lo, hi, flags)
    else
      Sized(m) && Sized(n) && n.shared == m.shared && n.free == [] && TablesFrom(m, n, d) && d < NPHYS
          && n.use[d] == Dir
      && (forall e: nat | e < NPHYS && e != d && m.use[e] == Dir :: SameEntries(m, n, e))
      && exists v: nat :: lo <= v < hi && Tables(n, d) <= Tables(m, d) + Pdxs(lo, v) && v / NPTE !in Tables(n, d)
  }

  lemma RangeNone(m: Mach, d: nat, lo: nat, flags: nat)
    requires Inv(m) && d < NPHYS && m.use[d] == Dir
    ensures RangeDone(m, m, d, lo, lo, flags) && Sized(m)
  {
    hide Lookup, PteAt, FreeOk;
    PdxsMore(lo, 0);
  }

  lemma RangeNext(m: Mach, n: Mach, d: nat, lo: nat, a: nat, flags: nat)
    requires RangeDone(m, n, d, lo, a, flags) && a < VPAGES && Lookup(m, d, a) == 0
    ensures Lookup(n, d, a) == 0
  {
    hide Lookup;
  }

  lemma RangeMore(m: Mach, m1: Mach, n: Mach, d: nat, lo: nat, a: nat, flags: nat)
    requires RangeDone(m, m1, d, lo, a, flags) && lo <= a < VPAGES && Inv(m1)
    requires EntryBecomes(m1, n, d, a, Entry(a, flags)) && TableGrown(m1, n, d, a / NPTE)
    ensures RangeDone(m, n, d, lo, a + 1, flags)
  {
    RangeEntries(m, m1, n, d, lo, a, flags);
    FreeUses(m1);
    hide Lookup, PteAt, Inv, EntryBecomes, Tables, Pdxs;
    RangeTables(m1, n, d, a);
    PdxsMore(lo, a);
    RangeUses(m, m1, n, d, a);
  }

  lemma RangeEntries(m: Mach, m1: Mach, n: Mach, d: nat, lo: nat, a: nat, flags: nat)
    requires RangeDone(m, m1, d, lo, a, flags) && lo <= a < VPAGES && Inv(m1)
    requires EntryBecomes(m1, n, d, a, Entry(a, flags))
    ensures forall e: nat, u: nat | e < NPHYS && m.use[e] == Dir && u < VPAGES ::
              Lookup(n, e, u) == if e == d && lo <= u < a + 1 then Entry(u, flags) else Lookup(m, e, u)
  {
    hide Lookup, PteAt, Inv, Tables, Pdxs, DataSame;
    forall e: nat, u: nat | e < NPHYS && m.use[e] == Dir && u < VPAGES
      ensures Lookup(n, e, u) == if e == d && lo <= u < a + 1 then Entry(u, flags) else Lookup(m, e, u)
    {
      assert m1.use[e] == Dir;
      assert Lookup(n, e, u) == if e == d && u == a then Entry(a, flags) else Lookup(m1, e, u);
    }
  }

  lemma RangeUses(m: Mach, m1: Mach, n: Mach, d: nat, a: nat)
    requires Sized(m) && Sized(m1) && TablesFrom(m, m1, d) && TableGrown(m1, n, d, a / NPTE)
    requires |n.free| + |Tables(n, d)| == |m1.free| + |Tables(m1, d)|
    requires m1.free != [] ==> m1.free[0] < NPHYS && m1.use[m1.free[0]] == Free
    ensures TablesFrom(m, n, d)
  {
    hide PteAt, Tables;
  }

  lemma FreeUses(m: Mach)
    requires Inv(m)
    ensures m.free != [] ==> m.free[0] < NPHYS && m.use[m.free[0]] == Free
  {
    if m.free != [] { assert LinkOk(m, 0); }
  }

  lemma RangeTables(m: Mach, n: Mach, d: nat, a: nat)
    requires a < VPAGES && TableGrown(m, n, d, a / NPTE)
    ensures Tables(n, d) == Tables(m, d) + {a / NPTE}
    ensures |n.free| + |Tables(n, d)| == |m.free| + |Tables(m, d)|
  {
    hide PteAt;
    var x := a / NPTE;
    assert x < NPTE;
    assert Tables(n, d) == Tables(m, d) + {x};
    if PteAt(m, d, x) != 0 { assert Tables(n, d) == Tables(m, d); }
  }

  lemma RangeEnd(m: Mach, n: Mach, d: nat, lo: nat, hi: nat, flags: nat)
    ensures RangeDone(m, n, d, lo, hi, flags) ==> RangeMapped(m, n, d, lo, hi, flags, true)
  {}

  lemma KernelMay(m: Mach, d: nat, v: nat, flags: nat)
    requires Inv(m)
    ensures KernelPage(v) && (flags == P || flags == PW) ==> MayMap(m, d, v, v, flags, KernelPages)
  {}

  lemma RangeStop(m: Mach, n: Mach, d: nat, lo: nat, a: nat, hi: nat, flags: nat)
    requires RangeDone(m, n, d, lo, a, flags) && lo <= a < hi && a < VPAGES && n.use[d] == Dir
    requires n.free == [] && PteAt(n, d, a / NPTE) == 0
    ensures RangeMapped(m, n, d, lo, hi, flags, false)
  {
    hide Lookup, PteAt;
    assert a / NPTE !in Tables(n, d);
  }

  // ----- the kernel part of an address space -----

  /** The pages that the first k kernel mappings cover. */
  function KStart(kdata: KData, k: nat): nat {
    if k == 0 then UPAGES else if k == 1 then 256 else if k == 2 then kdata else DEVPAGE
  }

  function KEnd(kdata: KData, k: nat): nat {
    if k == 0 then 256 else if k == 1 then kdata else if k == 2 then NPHYS else VPAGES
  }

  predicate Covered(kdata: KData, k: nat, u: nat) {
    UPAGES <= u < (if k == 0 then UPAGES else if k == 1 then 256 else if k == 2 then kdata else NPHYS)
        || (k == 4 && DEVPAGE <= u < VPAGES)
  }

  ghost function KTables(kdata: KData, k: nat): set<nat> {
    if k == 0 then {} else KTables(kdata, k - 1) + Pdxs(KStart(kdata, k - 1), KEnd(kdata, k - 1))
  }

  /** Only free pages have changed their use, to directory or page table, and no address space and no
      data page has changed. */
  ghost predicate OnlyFreeUsed(m: Mach, n: Mach) {
    && Sized(m) && Sized(n) && n.shared == m.shared && DataSame(m, n)
    && (forall f: nat | f < NPHYS :: n.use[f] == m.use[f] || (m.use[f] == Free && (n.use[f].Dir? || n.use[f].Table?)))
    && (forall e: nat | e < NPHYS && m.use[e] == Dir :: SameEntries(m, n, e))
  }

  /** d is a new directory of which the first k kernel mappings have been made. */
  ghost predicate KMapped(m: Mach, n: Mach, d: nat, kdata: KData, k: nat) {
    && OnlyFreeUsed(m, n) && 0 < d < NPHYS && m.use[d] == Free && n.use[d] == Dir
    && (forall f: nat | f < NPHYS :: n.use[f] == m.use[f] || (m.use[f] == Free && PartOf(n.use[f], f, d)))
    && (forall u: nat | u < VPAGES :: Lookup(n, d, u) == if Covered(kdata, k, u) then KEntry(kdata, u) else 0)
    && Tables(n, d) == KTables(kdata, k) && |n.free| + |Tables(n, d)| + 1 == |m.free|
  }

  /** d is a new directory with nothing but the complete kernel part. */
  ghost predicate SetUp(m: Mach, n: Mach, d: nat) {
    && OnlyFreeUsed(m, n) && 0 < d < NPHYS && m.use[d] == Free && Complete(n, d)
    && (forall f: nat | f < NPHYS :: n.use[f] == m.use[f] || (m.use[f] == Free && PartOf(n.use[f], f, d)))
    && (forall u: nat | u < UPAGES :: Lookup(n, d, u) == 0) && PteAt(n, d, 0) != 0
  }

  /** The entry of kernel page v: the physical page of the same number, which only the kernel may
      use, and which it may not write from 1 MB up to its data. */
  function KEntry(kdata: KData, v: nat): (w: nat)
    ensures w != 0 && Present(w) && FrameOf(w) == v
  {
    Entry(v, if 256 <= v < kdata then P else PW)
  }

  /** The kernel part of directory d maps each page to the physical page of the same number. */
  ghost predicate Identity(m: Mach, d: nat, kdata: KData) {
    forall v: nat | v < VPAGES && KernelPage(v) :: Lookup(m, d, v) == Entry(v, if 256 <= v < kdata then P else PW)
  }

  function Kmap(kdata: KData): seq<KMap> {
    [KMap(UPAGES * PGSIZE, 0x10_0000, PW), KMap(0x10_0000, kdata * PGSIZE, P),
     KMap(kdata * PGSIZE, NPHYS * PGSIZE, PW), KMap(DEVPAGE * PGSIZE, 0, PW)]
  }

  lemma KMapSize(kdata: KData, k: nat)
    requires k < 4
    ensures |Kmap(kdata)| == 4 && var e := Kmap(kdata)[k]; var size := (e.e + UINT - e.p) % UINT;
            && e.p == PGSIZE * KStart(kdata, k) && size == PGSIZE * (KEnd(kdata, k) - KStart(kdata, k)) && 0 < size
            && e.p + size <= UINT && (e.flags == P || e.flags == PW)
            && (forall v: nat | KStart(kdata, k) <= v < KEnd(kdata, k) :: Entry(v, e.flags) == KEntry(kdata, v))
            && e.p / PGSIZE == KStart(kdata, k) && (e.p + size - 1) / PGSIZE == KEnd(kdata, k) - 1
    ensures KStart(kdata, k) < KEnd(kdata, k) <= VPAGES
    ensures forall v: nat | KStart(kdata, k) <= v < KEnd(kdata, k) :: KernelPage(v) && !Covered(kdata, k, v)
    ensures forall u: nat :: Covered(kdata, k + 1, u) <==> Covered(kdata, k, u)
                                                           || KStart(kdata, k) <= u < KEnd(kdata, k)
  {
    assert k == 0 || k == 1 || k == 2 || k == 3;
    forall u: nat
      ensures Covered(kdata, k + 1, u) <==> Covered(kdata, k, u) || KStart(kdata, k) <= u < KEnd(kdata, k)
    {}
  }

  lemma NoneUsed(m: Mach)
    requires Inv(m)
    ensures OnlyFreeUsed(m, m)
  {}

  lemma TakenHeld(m: Mach)
    requires CanAlloc(m) && m.free != []
    ensures Sized(m) && 0 < m.free[0] < NPHYS && m.use[m.free[0]] == Free && Taken(m).use == m.use[m.free[0] := Held]
    ensures Taken(m).page == m.page && |Taken(m).free| + 1 == |m.free|
  {
    assert LinkOk(m, 0);
  }

  lemma SetUpStart(m: Mach, m1: Mach, n: Mach, d: nat, kdata: KData)
    requires Inv(m) && m.free != [] && d == m.free[0] < NPHYS && m1 == Taken(m) && 0 < d && m.use[d] == Free
        && n == WithDir(m1, d)
    requires forall e: nat | e < NPHYS && m.use[e] == Dir :: SameEntries(m, m1, e)
    requires forall e: nat | e < NPHYS && m1.use[e] == Dir :: SameEntries(m1, n, e)
    requires (forall v: nat :: Lookup(n, d, v) == 0) && forall x: nat :: PteAt(n, d, x) == 0
    ensures KMapped(m, n, d, kdata, 0)
  {
    hide Lookup, PteAt, FreeOk;
    assert Tables(n, d) == {};
    forall e: nat | e < NPHYS && m.use[e] == Dir ensures SameEntries(m, n, e) {
      assert SameEntries(m, m1, e) && SameEntries(m1, n, e);
    }
  }

  lemma KNext(m: Mach, n: Mach, d: nat, kdata: KData, k: nat)
    requires KMapped(m, n, d, kdata, k) && k < 4
    ensures d < NPHYS && n.use[d] == Dir
    ensures forall v: nat | KStart(kdata, k) <= v < KEnd(kdata, k) :: KernelPage(v) && Lookup(n, d, v) == 0
  {
    hide Lookup, PteAt;
    KMapSize(kdata, k);
  }

  lemma FreshStill(m: Mach, m1: Mach, n: Mach, d: nat)
    requires OnlyFreeUsed(m, m1) && 0 < d < NPHYS && m.use[d] == Free && Sized(n)
    requires forall f: nat | f < NPHYS :: m1.use[f] == m.use[f] || (m.use[f] == Free && PartOf(m1.use[f], f, d))
    requires m1.use[d] == Dir
    requires TablesFrom(m1, n, d) && n.shared == m1.shared
    requires forall e: nat | e < NPHYS && e != d && m1.use[e] == Dir :: SameEntries(m1, n, e)
    ensures OnlyFreeUsed(m, n)
    ensures forall f: nat | f < NPHYS :: n.use[f] == m.use[f] || (m.use[f] == Free && PartOf(n.use[f], f, d))
  {
    hide Lookup, PteAt, Tables;
    forall e: nat | e < NPHYS && m.use[e] == Dir ensures SameEntries(m, n, e) {
      assert m1.use[e] == Dir && SameEntries(m, m1, e);
      assert SameEntries(m1, n, e);
    }
  }

  lemma KMore(m: Mach, m1: Mach, n: Mach, d: nat, kdata: KData, k: nat, flags: nat)
    requires KMapped(m, m1, d, kdata, k) && k < 4
        && RangeMapped(m1, n, d, KStart(kdata, k), KEnd(kdata, k), flags, true)
    requires forall v: nat | KStart(kdata, k) <= v < KEnd(kdata, k) :: Entry(v, flags) == KEntry(kdata, v)
    requires n.use[d] == Dir
    ensures KMapped(m, n, d, kdata, k + 1)
  {
    hide Lookup, PteAt, Tables, Pdxs, DataSame;
    KMapSize(kdata, k);
    forall e: nat | e < NPHYS && e != d && m1.use[e] == Dir ensures SameEntries(m1, n, e) {}
    FreshStill(m, m1, n, d);
    forall u: nat | u < VPAGES ensures Lookup(n, d, u) == if Covered(kdata, k + 1, u) then KEntry(kdata, u) else 0 {
      assert Lookup(n, d, u) == if KStart(kdata, k) <= u < KEnd(kdata, k) then Entry(u, flags) else Lookup(m1, d, u);
    }
  }

  lemma PdxsIs(lo: nat, hi: nat, a: nat, b: nat)
    requires a * NPTE <= lo && (b - 1) * NPTE < hi <= b * NPTE && lo < (a + 1) * NPTE && a < b && lo < hi
    ensures Pdxs(lo, hi) == Upto(a, b)
  {
    forall x: nat | a <= x < b ensures x in Pdxs(lo, hi) {
      var v := if x == a then lo else x * NPTE;
      assert lo <= v < hi && v / NPTE == x;
    }
  }

  /** The kernel mappings need 12 page tables. */
  lemma KTablesSize(kdata: KData)
    ensures 0 in KTables(kdata, 4) && |KTables(kdata, 4)| == 12
    ensures forall k: nat | k <= 4 :: KTables(kdata, k) <= KTables(kdata, 4)
  {
    hide Pdxs, KTables;
    KTablesAll(kdata);
    PdxsIs(UPAGES, 256, 0, 1);
    PdxsParts(256, kdata, NPHYS);
    PdxsIs(256, NPHYS, 0, 4);
    PdxsIs(DEVPAGE, VPAGES, 1016, 1024);
    TwelveTables(Upto(0, 1), Pdxs(256, kdata), Pdxs(kdata, NPHYS), Upto(0, 4), Upto(1016, 1024));
  }

  lemma TwelveTables(a: set<nat>, b: set<nat>, c: set<nat>, d: set<nat>, e: set<nat>)
    requires a == Upto(0, 1) && b + c == d == Upto(0, 4) && e == Upto(1016, 1024)
    ensures 0 in a + b + c + e && |a + b + c + e| == 12
  {
    hide Upto;
    assert a + b + c + e == d + e;
    assert d !! e;
    assert |d + e| == |d| + |e|;
  }

  lemma KTablesAll(kdata: KData)
    ensures KTables(kdata, 4) == Pdxs(UPAGES, 256) + Pdxs(256, kdata) + Pdxs(kdata, NPHYS) + Pdxs(DEVPAGE, VPAGES)
    ensures forall k: nat | k <= 4 :: KTables(kdata, k) <= KTables(kdata, 4)
  {
    hide Pdxs;
    assert KTables(kdata, 1) == Pdxs(UPAGES, 256) + KTables(kdata, 0);
    assert KTables(kdata, 2) == KTables(kdata, 1) + Pdxs(256, kdata);
    assert KTables(kdata, 3) == KTables(kdata, 2) + Pdxs(kdata, NPHYS);
    assert KTables(kdata, 4) == KTables(kdata, 3) + Pdxs(DEVPAGE, VPAGES);
    forall k: nat | k <= 4 ensures KTables(kdata, k) <= KTables(kdata, 4) {
      assert k == 0 || k == 1 || k == 2 || k == 3 || k == 4;
    }
  }

  lemma PdxsParts(lo: nat, mid: nat, hi: nat)
    requires lo <= mid <= hi
    ensures Pdxs(lo, hi) == Pdxs(lo, mid) + Pdxs(mid, hi)
  {}

  lemma KStop(m: Mach, m1: Mach, n: Mach, d: nat, kdata: KData, k: nat, flags: nat)
    requires KMapped(m, m1, d, kdata, k) && k < 4
        && RangeMapped(m1, n, d, KStart(kdata, k), KEnd(kdata, k), flags, false)
    ensures |m.free| < KPAGES && n.free == [] && OnlyFreeUsed(m, n)
  {
    hide Lookup, PteAt, Tables, DataSame;
    FreshStill(m, m1, n, d);
    KTablesSize(kdata);
    var lo, hi := KStart(kdata, k), KEnd(kdata, k);
    var v: nat :| lo <= v < hi && Tables(n, d) <= Tables(m1, d) + Pdxs(lo, v) && v / NPTE !in Tables(n, d);
    PdxsParts(lo, v, hi);
    assert Tables(n, d) <= KTables(kdata, k + 1) <= KTables(kdata, 4);
    assert v / NPTE in Pdxs(lo, hi) && Pdxs(lo, hi) <= KTables(kdata, k + 1);
    Smaller(Tables(n, d), KTables(kdata, 4), v / NPTE);
  }

  lemma Smaller(a: set<nat>, b: set<nat>, x: nat)
    requires a <= b && x in b && x !in a
    ensures |a| < |b|
  {
    assert |b| == |a| + |b - a| by { assert b == a + (b - a); }
    assert x in b - a;
  }

  lemma KAll(m: Mach, n: Mach, d: nat, kdata: KData)
    requires KMapped(m, n, d, kdata, 4)
    ensures SetUp(m, n, d) && |m.free| >= KPAGES && |n.free| == |m.free| - KPAGES && Identity(n, d, kdata)
  {
    hide Lookup, PteAt, OnlyFreeUsed;
    KTablesSize(kdata);
    assert 0 in Tables(n, d);
    forall u: nat | u < VPAGES ensures KernelPage(u) ==> Covered(kdata, 4, u) {}
  }

  /** The first i shared pages have been taken, and nothing else is in use. */
  ghost predicate SharedUpTo(m: Mach, i: nat) {
    && Sized(m)
    && (forall j: nat | j < i && j < 3 :: 0 < m.shared[j] < NPHYS && m.use[m.shared[j]] == Shared(j)
                                          && m.page[m.shared[j]].Data?)
    && (forall f: nat | f < NPHYS && m.use[f].Shared? :: m.use[f].slot < i && m.use[f].slot < 3
                                                         && m.shared[m.use[f].slot] == f)
    && (forall f: nat | f < NPHYS :: m.use[f] == Outside || m.use[f] == Free || m.use[f].Shared?)
  }

  lemma ShareOne(m: Mach, n: Mach, i: nat, f: nat)
    requires CanAlloc(m) && m.free != [] && f == m.free[0] && i < 3 && SharedUpTo(m, i)
    requires f < NPHYS && 0 < f && m.use[f] == Free && Sized(n)
    requires n == Taken(m).(page := m.page[f := Data(ZeroBytes())], shared := m.shared[i := f],
        use := m.use[f := Shared(i)])
    ensures CanAlloc(n) && SharedUpTo(n, i + 1) && |n.free| + 1 == |m.free|
    ensures forall g: nat | g < NPHYS :: n.use[g] == Outside <==> m.use[g] == Outside
  {
    TakeFree(m);
    FreeSame(Taken(m), n);
    hide FreeOk;
  }

  lemma Booted(m: Mach)
    requires CanAlloc(m) && SharedOk(m) && forall f: nat | f < NPHYS :: m.use[f] == Outside || m.use[f] == Free
                                                                        || m.use[f].Shared?
    ensures Inv(m)
  {}

  ghost predicate CanAlloc(m: Mach) { Sized(m) && FreeOk(m) }

  lemma InvAlloc(m: Mach)
    requires Inv(m)
    ensures CanAlloc(m)
  {}

  lemma FirstFree(m: Mach)
    requires CanAlloc(m)
    ensures m.freelist == 0 <==> m.free == []
    ensures m.free != [] ==>
              0 < m.freelist < NPHYS && m.freelist == m.free[0] && m.use[m.freelist] == Free && m.page[m.freelist].Run?
              && m.page[m.freelist].next == if |m.free| > 1 then m.free[1] else 0
  {
    if m.free != [] { assert LinkOk(m, 0); }
  }

  lemma DirPage(m: Mach, d: nat)
    requires Inv(m) && d < NPHYS && m.use[d] == Dir
    ensures m.page[d].Ptes? && 0 < d
  {
    assert DirOk(m, d);
  }

  lemma DirEntryZero(m: Mach, d: nat, x: nat)
    requires Inv(m) && d < NPHYS && m.use[d] == Dir && x < NPTE && !Present(PteAt(m, d, x))
    ensures PteAt(m, d, x) == 0
  {
    assert DirOk(m, d) && DirEntryOk(m, d, x);
  }

  lemma TakenSame(m: Mach, d: nat)
    requires Sized(m) && m.free != [] && m.free[0] < NPHYS
    ensures forall f: nat, x: nat :: PteAt(Taken(m), f, x) == PteAt(m, f, x)
  {}

  /** The page t, free before, has become the table of entry x of directory d. */
  ghost predicate NewTable(m: Mach, n: Mach, d: nat, x: nat, t: nat) {
    && Sized(m) && Sized(n) && n.shared == m.shared && t < NPHYS && m.use[t] == Free && n.use == m.use[t := Table(d, x)]
    && m.free != [] && n.free == m.free[1..]
    && (forall f: nat | f < NPHYS && f != t && f != d :: n.page[f] == m.page[f])
    && (forall y: nat | y < NPTE :: PteAt(n, d, y) == if y == x then Entry(t, PWU) else PteAt(m, d, y))
  }
}
