/** Each single step on pages and page tables keeps the invariant. */
module VmSteps {
  import opened VmMem

  /** The allocator gives out the first free page. */
  function Taken(m: Mach): Mach
    requires Sized(m) && m.free != [] && m.free[0] < NPHYS
  {
    m.(free := m.free[1..], freelist := if |m.free| > 1 then m.free[1] else 0, use := m.use[m.free[0] := Held])
  }

  lemma LookupSame(m: Mach, n: Mach, d: nat)
    requires Sized(m) && Sized(n) && d < NPHYS && DirOk(m, d) && m.use[d] == Dir && n.page[d] == m.page[d]
    requires forall t: nat | t < NPHYS && m.use[t].Table? && m.use[t].d == d :: n.page[t] == m.page[t]
    ensures forall v: nat | v < VPAGES :: Lookup(n, d, v) == Lookup(m, d, v)
  {
    forall v: nat | v < VPAGES ensures Lookup(n, d, v) == Lookup(m, d, v) {
      assert DirEntryOk(m, d, v / NPTE);
    }
  }

  /** Pages that belong to no address space may change in any way. */
  lemma Unrelated(m: Mach, n: Mach)
    requires Inv(m) && Sized(n) && FreeOk(n) && n.shared == m.shared
    requires forall f: nat | f < NPHYS && (m.use[f].Dir? || m.use[f].Table? || m.use[f].User? || m.use[f].Shared?) ::
               n.use[f] == m.use[f] && n.page[f] == m.page[f]
    requires forall f: nat | f < NPHYS && !(m.use[f].Dir? || m.use[f].Table? || m.use[f].User? || m.use[f].Shared?) ::
               !(n.use[f].Dir? || n.use[f].Table? || n.use[f].User? || n.use[f].Shared?)
    ensures Inv(n) && forall d: nat | d < NPHYS && m.use[d] == Dir :: SameEntries(m, n, d)
  {
    hide FreeOk, Lookup;
    forall d: nat | d < NPHYS && m.use[d] == Dir ensures SameEntries(m, n, d) {
      assert DirOk(m, d);
      LookupSame(m, n, d);
    }
    forall d: nat | d < NPHYS ensures DirOk(n, d) {
      assert DirOk(m, d);
      if m.use[d] == Dir {
        forall x: nat | x < NPTE ensures DirEntryOk(n, d, x) { assert DirEntryOk(m, d, x); }
      }
    }
    forall t: nat | t < NPHYS ensures TableOk(n, t) { assert TableOk(m, t); }
    forall f: nat | f < NPHYS ensures UserOk(n, f) {
      assert UserOk(m, f);
      assert m.use[f].User? ==> SameEntries(m, n, m.use[f].d);
    }
    forall d: nat, v: nat | d < NPHYS && n.use[d] == Dir && v < VPAGES ensures EntryOk(n, d, v) {
      assert EntryOk(m, d, v);
      assert SameEntries(m, n, d);
    }
  }

  lemma TakeKeeps(m: Mach)
    requires Inv(m) && m.free != []
    ensures m.free[0] < NPHYS && 0 < m.free[0] && m.use[m.free[0]] == Free
    ensures var n := Taken(m); Inv(n) && forall d: nat | d < NPHYS && m.use[d] == Dir :: SameEntries(m, n, d)
  {
    assert LinkOk(m, 0);
    var n := Taken(m);
    TakeFree(m);
    hide FreeOk;
    Unrelated(m, n);
  }

  lemma TakeFree(m: Mach)
    requires Sized(m) && FreeOk(m) && m.free != []
    ensures m.free[0] < NPHYS && FreeOk(Taken(m))
  {
    assert LinkOk(m, 0);
    var n := Taken(m);
    forall i: nat | i < |n.free| ensures LinkOk(n, i) {
      assert LinkOk(m, i + 1);
      assert m.free[0] != m.free[i + 1];
    }
    forall f: nat | f < NPHYS && n.use[f] == Free ensures f in n.free {
      assert f in m.free;
      assert m.free == [m.free[0]] + n.free;
    }
  }

  /** Page f goes back to the free list. */
  function Given(m: Mach, f: nat): Mach
    requires Sized(m) && f < NPHYS
  {
    m.(page := m.page[f := Run(m.freelist)], freelist := f, free := [f] + m.free, use := m.use[f := Free])
  }

  lemma GiveFree(m: Mach, f: nat)
    requires Sized(m) && FreeOk(m) && 0 < f < NPHYS && m.use[f] != Free
    ensures FreeOk(Given(m, f))
  {
    var n := Given(m, f);
    forall i: nat | i < |n.free| ensures LinkOk(n, i) {
      if i > 0 { assert LinkOk(m, i - 1); }
    }
    forall i: nat, j: nat | i < j < |n.free| ensures n.free[i] != n.free[j] {
      assert LinkOk(m, j - 1);
      if i > 0 { assert m.free[i - 1] != m.free[j - 1]; }
    }
    forall g: nat | g < NPHYS && n.use[g] == Free ensures g in n.free {
      if g != f { assert g in m.free; }
      assert n.free[0] == f && n.free[1..] == m.free;
    }
  }

  lemma GiveKeeps(m: Mach, f: nat)
    requires Inv(m) && 0 < f < NPHYS && m.use[f] == Held
    ensures var n := Given(m, f); Inv(n) && forall d: nat | d < NPHYS && m.use[d] == Dir :: SameEntries(m, n, d)
  {
    GiveFree(m, f);
    hide FreeOk;
    Unrelated(m, Given(m, f));
  }

  /** Changing the page or the use of pages that are not free does not concern the free list. */
  lemma FreeSame(m: Mach, n: Mach)
    requires Sized(m) && FreeOk(m) && Sized(n) && n.free == m.free && n.freelist == m.freelist
    requires forall f: nat | f < NPHYS && m.use[f] == Free :: n.use[f] == Free && n.page[f] == m.page[f]
    requires forall f: nat | f < NPHYS && n.use[f] == Free :: m.use[f] == Free
    ensures FreeOk(n)
  {
    forall i: nat | i < |n.free| ensures LinkOk(n, i) { assert LinkOk(m, i); }
  }

  lemma SharedSame(m: Mach, n: Mach)
    requires Sized(m) && SharedOk(m) && Sized(n) && n.shared == m.shared
    requires forall f: nat | f < NPHYS && m.use[f].Shared? :: n.use[f] == m.use[f] && n.page[f] == m.page[f]
    requires forall f: nat | f < NPHYS && n.use[f].Shared? :: m.use[f] == n.use[f]
    ensures SharedOk(n)
  {}

  // ----- page directories and page tables -----

  /** Page f becomes an empty page directory. */
  function WithDir(m: Mach, f: nat): Mach
    requires Sized(m) && f < NPHYS
  {
    m.(page := m.page[f := Ptes(NoEntries())], use := m.use[f := Dir])
  }

  lemma DirKeeps(m: Mach, f: nat)
    requires Inv(m) && 0 < f < NPHYS && m.use[f] == Held
    ensures var n := WithDir(m, f);
            && Inv(n) && (forall d: nat | d < NPHYS && m.use[d] == Dir :: SameEntries(m, n, d))
            && (forall v: nat :: Lookup(n, f, v) == 0) && forall x: nat :: PteAt(n, f, x) == 0
  {
    var n := WithDir(m, f);
    FreeSame(m, n);
    SharedSame(m, n);
    hide FreeOk, SharedOk;
    forall d: nat | d < NPHYS && m.use[d] == Dir ensures SameEntries(m, n, d) {
      assert DirOk(m, d);
      LookupSame(m, n, d);
    }
    hide Lookup;
    forall d: nat | d < NPHYS ensures DirOk(n, d) {
      assert DirOk(m, d);
      if m.use[d] == Dir {
        forall x: nat | x < NPTE ensures DirEntryOk(n, d, x) { assert DirEntryOk(m, d, x); }
      }
    }
    forall t: nat | t < NPHYS ensures TableOk(n, t) { assert TableOk(m, t); }
    forall g: nat | g < NPHYS ensures UserOk(n, g) {
      assert UserOk(m, g);
      assert m.use[g].User? ==> SameEntries(m, n, m.use[g].d);
    }
    NoLookup(n, f);
    forall d: nat, v: nat | d < NPHYS && n.use[d] == Dir && v < VPAGES ensures EntryOk(n, d, v) {
      assert d != f ==> EntryOk(m, d, v) && SameEntries(m, n, d);
    }
  }

  lemma NoLookup(n: Mach, f: nat)
    requires f < |n.page| && n.page[f] == Ptes(NoEntries())
    ensures forall v: nat :: Lookup(n, f, v) == 0
  {}

  /** Page f becomes the empty page table of entry x of directory d. */
  function WithTable(m: Mach, d: nat, x: nat, f: nat): Mach
    requires Sized(m) && f < NPHYS && d < NPHYS && m.page[d].Ptes? && x < NPTE
  {
    m.(page := m.page[f := Ptes(NoEntries())][d := Ptes(m.page[d].pte[x := Entry(f, PWU)])],
        use := m.use[f := Table(d, x)])
  }

  lemma TableKeeps(m: Mach, d: nat, x: nat, f: nat)
    requires Inv(m) && 0 < f < NPHYS && m.use[f] == Held && d < NPHYS && m.use[d] == Dir && x < NPTE
        && PteAt(m, d, x) == 0
    ensures m.page[d].Ptes?
    ensures var n := WithTable(m, d, x, f);
            && Inv(n) && (forall e: nat | e < NPHYS && m.use[e] == Dir :: SameEntries(m, n, e))
            && forall y: nat | y < NPTE :: PteAt(n, d, y) == if y == x then Entry(f, PWU) else PteAt(m, d, y)
  {
    assert DirOk(m, d);
    var n := WithTable(m, d, x, f);
    FreeSame(m, n);
    SharedSame(m, n);
    hide FreeOk, SharedOk, Lookup;
    TablePtes(m, d, x, f);
    forall e: nat | e < NPHYS && m.use[e] == Dir ensures SameEntries(m, n, e) {
      TableLookup(m, d, x, f, e);
    }
    hide PteAt;
    TableDirs(m, d, x, f);
    TableTables(m, d, x, f);
    hide DirOk, TableOk, DirEntryOk;
    forall g: nat | g < NPHYS ensures UserOk(n, g) {
      assert UserOk(m, g);
      assert m.use[g].User? ==> SameEntries(m, n, m.use[g].d);
    }
    forall e: nat, v: nat | e < NPHYS && n.use[e] == Dir && v < VPAGES ensures EntryOk(n, e, v) {
      assert EntryOk(m, e, v) && SameEntries(m, n, e);
    }
  }

  /** Which entries of page directories change. */
  lemma TablePtes(m: Mach, d: nat, x: nat, f: nat)
    requires Sized(m) && 0 < f < NPHYS && m.use[f] == Held && d < NPHYS && m.use[d] == Dir && x < NPTE
        && m.page[d].Ptes?
    ensures var n := WithTable(m, d, x, f);
            && (forall e: nat, y: nat | e < NPHYS && m.use[e] == Dir && y < NPTE ::
                  PteAt(n, e, y) == if e == d && y == x then Entry(f, PWU) else PteAt(m, e, y))
  {}

  lemma TableDirs(m: Mach, d: nat, x: nat, f: nat)
    requires Inv(m) && 0 < f < NPHYS && m.use[f] == Held && d < NPHYS && m.use[d] == Dir && x < NPTE && m.page[d].Ptes?
    ensures forall e: nat | e < NPHYS :: DirOk(WithTable(m, d, x, f), e)
  {
    TablePtes(m, d, x, f);
    hide FreeOk, SharedOk, Lookup, PteAt;
    var n := WithTable(m, d, x, f);
    forall e: nat | e < NPHYS ensures DirOk(n, e) {
      assert DirOk(m, e);
      if m.use[e] == Dir {
        forall y: nat | y < NPTE ensures DirEntryOk(n, e, y) { assert DirEntryOk(m, e, y); }
      }
    }
  }

  lemma TableTables(m: Mach, d: nat, x: nat, f: nat)
    requires Inv(m) && 0 < f < NPHYS && m.use[f] == Held && d < NPHYS && m.use[d] == Dir && x < NPTE && m.page[d].Ptes?
    requires PteAt(m, d, x) == 0
    ensures forall t: nat | t < NPHYS :: TableOk(WithTable(m, d, x, f), t)
  {
    TablePtes(m, d, x, f);
    hide FreeOk, SharedOk, Lookup, PteAt;
    forall t: nat | t < NPHYS ensures TableOk(WithTable(m, d, x, f), t) {
      assert TableOk(m, t);
    }
  }


  lemma TableLookup(m: Mach, d: nat, x: nat, f: nat, e: nat)
    requires Inv(m) && 0 < f < NPHYS && m.use[f] == Held && d < NPHYS && m.use[d] == Dir && x < NPTE
        && PteAt(m, d, x) == 0
    requires m.page[d].Ptes? && e < NPHYS && m.use[e] == Dir
    ensures SameEntries(m, WithTable(m, d, x, f), e)
  {
    hide FreeOk;
    var n := WithTable(m, d, x, f);
    assert DirOk(m, e);
    forall v: nat | v < VPAGES ensures Lookup(n, e, v) == Lookup(m, e, v) {
      assert DirEntryOk(m, e, v / NPTE);
    }
  }

  // ----- entries -----

  /** The entry of page v in directory d, whose page table exists, is written. */
  function WithEntry(m: Mach, d: nat, v: nat, w: nat): Mach
    requires Sized(m) && v < VPAGES && HasTable(m, d, v)
  {
    var t := FrameOf(PteAt(m, d, v / NPTE));
    m.(page := m.page[t := Ptes(m.page[t].pte[v % NPTE := w])])
  }

  predicate HasTable(m: Mach, d: nat, v: nat) {
    var w := PteAt(m, d, v / NPTE);
    Present(w) && FrameOf(w) < |m.page| && m.page[FrameOf(w)].Ptes?
  }

  /** The page table of page v. */
  lemma TableOf(m: Mach, d: nat, v: nat)
    requires Inv(m) && d < NPHYS && m.use[d] == Dir && v < VPAGES && PteAt(m, d, v / NPTE) != 0
    ensures HasTable(m, d, v) && var t := FrameOf(PteAt(m, d, v / NPTE)); 0 < t < NPHYS
                                                                          && m.use[t] == Table(d, v / NPTE)
  {
    hide FreeOk, Lookup;
    assert DirOk(m, d) && DirEntryOk(m, d, v / NPTE);
    assert TableOk(m, FrameOf(PteAt(m, d, v / NPTE)));
  }

  lemma EntryWritten(m: Mach, d: nat, v: nat, w: nat)
    requires Inv(m) && d < NPHYS && m.use[d] == Dir && v < VPAGES && HasTable(m, d, v)
    ensures EntryBecomes(m, WithEntry(m, d, v, w), d, v, w)
    ensures forall e: nat, x: nat | e < NPHYS && m.use[e] == Dir :: PteAt(WithEntry(m, d, v, w), e, x) == PteAt(m, e, x)
  {
    hide FreeOk;
    TableOf(m, d, v);
    var n := WithEntry(m, d, v, w);
    forall e: nat, u: nat | e < NPHYS && m.use[e] == Dir && u < VPAGES
      ensures Lookup(n, e, u) == if e == d && u == v then w else Lookup(m, e, u)
    {
      assert DirOk(m, e) && DirEntryOk(m, e, u / NPTE);
      assert u / NPTE == v / NPTE && u % NPTE == v % NPTE ==> u == v;
    }
  }

  /** An entry is written, and the page that it leads to or no longer leads to changes its use. */
  ghost predicate EntryStep(m: Mach, n: Mach, d: nat, v: nat, w: nat) {
    && Inv(m) && Sized(n) && n.shared == m.shared && FreeOk(n)
    && d < NPHYS && m.use[d] == Dir && v < VPAGES
    && EntryBecomes(m, n, d, v, w)
    && (forall e: nat, x: nat | e < NPHYS && m.use[e] == Dir && x < NPTE :: PteAt(n, e, x) == PteAt(m, e, x))
    && (forall f: nat | f < NPHYS && (m.use[f].Dir? || m.use[f].Table?) :: n.use[f] == m.use[f] && n.page[f].Ptes?)
    && (forall f: nat | f < NPHYS && m.use[f].Shared? :: n.use[f] == m.use[f] && n.page[f] == m.page[f])
    && (forall f: nat | f < NPHYS && (n.use[f].Dir? || n.use[f].Table? || n.use[f].Shared?) :: n.use[f] == m.use[f])
    && (forall f: nat | f < NPHYS && n.use[f].User? :: n.page[f].Data? && 0 < f && 4 <= n.use[f].v < UPAGES)
    && (forall f: nat | f < NPHYS && m.use[f].User? && m.use[f] != User(d, v) :: n.use[f] == m.use[f])
    && (forall f: nat | f < NPHYS && n.use[f].User? && n.use[f] != User(d, v) :: n.use[f] == m.use[f])
    && (forall f: nat | f < NPHYS && n.use[f] == User(d, v) :: w == Entry(f, PWU))
  }

  lemma StepKeeps(m: Mach, n: Mach, d: nat, v: nat, w: nat)
    requires EntryStep(m, n, d, v, w) && EntryOk(n, d, v)
    ensures Inv(n)
  {
    hide FreeOk, SharedOk, Lookup, PteAt;
    SharedSame(m, n);
    forall e: nat | e < NPHYS ensures DirOk(n, e) {
      assert DirOk(m, e);
      if n.use[e] == Dir {
        forall x: nat | x < NPTE ensures DirEntryOk(n, e, x) { assert DirEntryOk(m, e, x); }
      }
    }
    forall t: nat | t < NPHYS ensures TableOk(n, t) { assert TableOk(m, t); }
    forall f: nat | f < NPHYS ensures UserOk(n, f) { assert UserOk(m, f); }
    forall e: nat, u: nat | e < NPHYS && n.use[e] == Dir && u < VPAGES ensures EntryOk(n, e, u) {
      assert EntryOk(m, e, u);
    }
  }

  // ----- mapping and unmapping -----

  /** A kernel page is mapped to itself. */
  lemma MapKernel(m: Mach, d: nat, v: nat, flags: nat)
    requires Inv(m) && d < NPHYS && m.use[d] == Dir && v < VPAGES && KernelPage(v) && (flags == P || flags == PW)
    requires PteAt(m, d, v / NPTE) != 0
    ensures HasTable(m, d, v) && var n := WithEntry(m, d, v, Entry(v, flags));
            Inv(n) && EntryBecomes(m, n, d, v, Entry(v, flags))
            && forall e: nat, x: nat | e < NPHYS && m.use[e] == Dir :: PteAt(n, e, x) == PteAt(m, e, x)
  {
    TableOf(m, d, v);
    var n := WithEntry(m, d, v, Entry(v, flags));
    EntryWritten(m, d, v, Entry(v, flags));
    PlainStep(m, d, v, Entry(v, flags));
    StepKeeps(m, n, d, v, Entry(v, flags));
  }

  /** A shared page is mapped at one of the pages 1 to 3. */
  lemma MapShared(m: Mach, d: nat, v: nat, i: nat)
    requires Inv(m) && d < NPHYS && m.use[d] == Dir && 1 <= v <= 3 && i < 3 && PteAt(m, d, v / NPTE) != 0
    ensures HasTable(m, d, v) && var w := Entry(m.shared[i], PWU); var n := WithEntry(m, d, v, w);
            Inv(n) && EntryBecomes(m, n, d, v, w)
            && forall e: nat, x: nat | e < NPHYS && m.use[e] == Dir :: PteAt(n, e, x) == PteAt(m, e, x)
  {
    TableOf(m, d, v);
    var w := Entry(m.shared[i], PWU);
    var n := WithEntry(m, d, v, w);
    EntryWritten(m, d, v, w);
    PlainStep(m, d, v, w);
    StepKeeps(m, n, d, v, w);
  }

  lemma PlainStep(m: Mach, d: nat, v: nat, w: nat)
    requires Inv(m) && d < NPHYS && m.use[d] == Dir && v < VPAGES && HasTable(m, d, v)
    requires (v < 4 || UPAGES <= v)
    ensures EntryStep(m, WithEntry(m, d, v, w), d, v, w)
  {
    TableOf(m, d, v);
    var n := WithEntry(m, d, v, w);
    EntryWritten(m, d, v, w);
    FreeSame(m, n);
    hide FreeOk, Lookup;
    UsesOk(m);
  }

  /** Facts of the invariant about single pages. */
  lemma UsesOk(m: Mach)
    requires Inv(m)
    ensures forall f: nat | f < NPHYS && m.use[f].User? :: m.page[f].Data? && 0 < f && 4 <= m.use[f].v < UPAGES
    ensures forall f: nat | f < NPHYS && (m.use[f].Dir? || m.use[f].Table?) :: m.page[f].Ptes?
    ensures forall i: nat | i < 3 :: 0 < m.shared[i] < NPHYS && m.use[m.shared[i]] == Shared(i)
  {
    hide FreeOk, Lookup;
    forall f: nat | f < NPHYS && m.use[f].User? ensures m.page[f].Data? && 0 < f && 4 <= m.use[f].v < UPAGES {
      assert UserOk(m, f);
    }
    forall f: nat | f < NPHYS && (m.use[f].Dir? || m.use[f].Table?) ensures m.page[f].Ptes? {
      assert DirOk(m, f) && TableOk(m, f);
    }
  }

  /** A held page becomes the private page v of directory d. */
  function WithUser(m: Mach, d: nat, v: nat, f: nat): Mach
    requires Sized(m) && v < VPAGES && HasTable(m, d, v) && f < NPHYS
  {
    WithEntry(m, d, v, Entry(f, PWU)).(use := m.use[f := User(d, v)])
  }

  /** The pages that are not of directory d have no entries in it. */
  lemma UnmappedUnused(m: Mach, d: nat, v: nat)
    requires Inv(m) && Lookup(m, d, v) == 0
    ensures forall g: nat | g < NPHYS :: m.use[g] != User(d, v)
  {
    hide FreeOk, Lookup;
    forall g: nat | g < NPHYS ensures m.use[g] != User(d, v) { assert UserOk(m, g); }
  }

  lemma MapUser(m: Mach, d: nat, v: nat, f: nat)
    requires Inv(m) && d < NPHYS && m.use[d] == Dir && 4 <= v < UPAGES && PteAt(m, d, v / NPTE) != 0
    requires Lookup(m, d, v) == 0 && 0 < f < NPHYS && m.use[f] == Held && m.page[f].Data?
    ensures HasTable(m, d, v) && var n := WithUser(m, d, v, f);
            Inv(n) && EntryBecomes(m, n, d, v, Entry(f, PWU))
            && forall e: nat, x: nat | e < NPHYS && m.use[e] == Dir :: PteAt(n, e, x) == PteAt(m, e, x)
  {
    TableOf(m, d, v);
    var w := Entry(f, PWU);
    var n := WithUser(m, d, v, f);
    EntryWritten(m, d, v, w);
    LookupPages(WithEntry(m, d, v, w), n);
    FreeSame(m, n);
    SharedSame(m, n);
    hide FreeOk, Lookup, PteAt, SharedOk;
    UsesOk(m);
    UnmappedUnused(m, d, v);
    StepKeeps(m, n, d, v, w);
  }

  lemma LookupPages(m: Mach, n: Mach)
    requires n.page == m.page
    ensures forall d: nat, v: nat :: Lookup(n, d, v) == Lookup(m, d, v)
    ensures forall d: nat, x: nat :: PteAt(n, d, x) == PteAt(m, d, x)
  {}

  /** The private page v of directory d is given back. */
  function WithoutUser(m: Mach, d: nat, v: nat): Mach
    requires Sized(m) && v < VPAGES && HasTable(m, d, v) && FrameOf(Lookup(m, d, v)) < NPHYS
  {
    Given(WithEntry(m, d, v, 0), FrameOf(Lookup(m, d, v)))
  }

  lemma Unmap(m: Mach, d: nat, v: nat)
    requires Inv(m) && d < NPHYS && m.use[d] == Dir && 4 <= v < UPAGES && Lookup(m, d, v) != 0
    ensures HasTable(m, d, v) && 0 < FrameOf(Lookup(m, d, v)) < NPHYS && m.use[FrameOf(Lookup(m, d, v))] == User(d, v)
    ensures var n := WithoutUser(m, d, v);
            Inv(n) && EntryBecomes(m, n, d, v, 0)
            && forall e: nat, x: nat | e < NPHYS && m.use[e] == Dir :: PteAt(n, e, x) == PteAt(m, e, x)
  {
    hide FreeOk, SharedOk, Lookup, PteAt, UserOk, TableOk, DirOk;
    PageUnmapped(m, d, v);
    var f := FrameOf(Lookup(m, d, v));
    EntryWritten(m, d, v, 0);
    var c, n := WithEntry(m, d, v, 0), WithoutUser(m, d, v);
    FreeSame(m, c);
    GiveFree(c, f);
    GivenLookup(m, c, f, d, v);
    UsesOk(m);
    OneUser(m, d, v, f);
    StepKeeps(m, n, d, v, 0);
  }

  /** A private page in use belongs to its entry, for which there is a page table. */
  lemma PageUnmapped(m: Mach, d: nat, v: nat)
    requires Inv(m) && d < NPHYS && m.use[d] == Dir && 4 <= v < UPAGES && Lookup(m, d, v) != 0
    ensures HasTable(m, d, v) && 0 < FrameOf(Lookup(m, d, v)) < NPHYS && m.use[FrameOf(Lookup(m, d, v))] == User(d, v)
    ensures var t := FrameOf(PteAt(m, d, v / NPTE)); 0 < t < NPHYS && m.use[t] == Table(d, v / NPTE)
  {
    hide FreeOk, SharedOk, TableOk;
    assert EntryOk(m, d, v);
    assert UserOk(m, FrameOf(Lookup(m, d, v)));
    TableOf(m, d, v);
  }

  lemma OneUser(m: Mach, d: nat, v: nat, f: nat)
    requires Inv(m) && FrameOf(Lookup(m, d, v)) == f
    ensures forall g: nat | g < NPHYS && m.use[g] == User(d, v) :: g == f
  {
    hide FreeOk, Lookup;
    forall g: nat | g < NPHYS && m.use[g] == User(d, v) ensures g == f { assert UserOk(m, g); }
  }

  /** Giving a data page back changes no entry. */
  lemma GivenLookup(m: Mach, c: Mach, f: nat, d: nat, v: nat)
    requires Inv(m) && 0 < f < NPHYS && m.use[f].User? && d < NPHYS && m.use[d] == Dir && v < VPAGES
        && HasTable(m, d, v)
    requires c == WithEntry(m, d, v, 0)
    ensures forall e: nat, x: nat | e < NPHYS && m.use[e] == Dir :: PteAt(Given(c, f), e, x) == PteAt(c, e, x)
    ensures forall e: nat, u: nat | e < NPHYS && m.use[e] == Dir && u < VPAGES ::
        Lookup(Given(c, f), e, u) == Lookup(c, e, u)
  {
    hide FreeOk;
    TableOf(m, d, v);
    forall e: nat, u: nat | e < NPHYS && m.use[e] == Dir && u < VPAGES
      ensures Lookup(Given(c, f), e, u) == Lookup(c, e, u)
    {
      assert DirOk(m, e) && DirEntryOk(m, e, u / NPTE);
    }
  }

  // ----- taking an address space apart -----

  predicate PartOf(u: Use, f: nat, d: nat) { f == d || (u.Table? && u.d == d) }

  /** The directory d and its page tables are no longer part of an address space. */
  function Dismantled(m: Mach, d: nat): Mach
    requires Sized(m)
  {
    m.(use := seq(NPHYS, f requires 0 <= f < NPHYS => if PartOf(m.use[f], f, d) then Held else m.use[f]))
  }

  lemma DismantleKeeps(m: Mach, d: nat)
    requires Inv(m) && d < NPHYS && m.use[d] == Dir && forall v: nat | 4 <= v < UPAGES :: Lookup(m, d, v) == 0
    ensures var n := Dismantled(m, d); Inv(n) && forall e: nat | e < NPHYS && e != d && m.use[e] == Dir ::
        SameEntries(m, n, e)
  {
    var n := Dismantled(m, d);
    FreeSame(m, n);
    SharedSame(m, n);
    LookupPages(m, n);
    hide FreeOk, Lookup, PteAt, SharedOk;
    forall f: nat | f < NPHYS ensures m.use[f].User? ==> m.use[f].d != d {
      assert UserOk(m, f);
    }
    forall e: nat | e < NPHYS ensures DirOk(n, e) {
      assert DirOk(m, e);
      if n.use[e] == Dir {
        forall x: nat | x < NPTE ensures DirEntryOk(n, e, x) { assert DirEntryOk(m, e, x); }
      }
    }
    forall t: nat | t < NPHYS ensures TableOk(n, t) { assert TableOk(m, t); }
    forall f: nat | f < NPHYS ensures UserOk(n, f) { assert UserOk(m, f); }
    forall e: nat, u: nat | e < NPHYS && n.use[e] == Dir && u < VPAGES ensures EntryOk(n, e, u) {
      assert EntryOk(m, e, u);
    }
  }
}
