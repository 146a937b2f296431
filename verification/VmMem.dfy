/** Physical pages and what they are used for: free, page directories, page tables, private user
    pages and shared pages, with the two-level page tables that refer to them. */
module VmMem {
  import opened FsLayout

  const PGSIZE: nat := 4096
  const NPTE: nat := 1024         // entries of a page directory or page table
  const UPAGES: nat := 160        // user pages: USERTOP / PGSIZE
  const NPHYS: nat := 4096        // physical pages: PHYSTOP / PGSIZE
  const VPAGES: nat := 0x10_0000  // virtual pages
  const DEVPAGE: nat := 0xF_E000  // first page of the device mappings

  const P: nat := 1      // present
  const PW: nat := 3     // present, writable
  const PWU: nat := 7    // present, writable, for the user

  type Entries = s: seq<nat> | |s| == 1024 witness seq(1024, _ => 0)
  type Bytes = s: seq<byte> | |s| == 4096 witness seq(4096, _ => 0)

  function NoEntries(): Entries { seq(1024, _ => 0) }

  function ZeroBytes(): Bytes { seq(4096, _ => 0) }

  /** A physical page: a link of the free list, a page directory or page table, or data. */
  datatype Page = Run(next: nat) | Ptes(pte: Entries) | Data(data: Bytes)

  /** What a page is used for. A page directory is known by its page. Outside: never in the pool of
      the allocator; Held: allocated, and not part of an address space. */
  datatype Use = Outside | Free | Held | Shared(slot: nat) | Dir | Table(d: nat, x: nat) | User(d: nat, v: nat)

  datatype Mach = Mach(page: seq<Page>, freelist: nat, free: seq<nat>, shared: seq<nat>, use: seq<Use>)

  predicate Present(w: nat) { w % 2 == 1 }

  function Entry(f: nat, flags: nat): nat { PGSIZE * f + flags }

  function FrameOf(w: nat): nat { w / PGSIZE }

  function PteAt(m: Mach, f: nat, k: nat): nat {
    if f < |m.page| && m.page[f].Ptes? && k < NPTE then m.page[f].pte[k] else 0
  }

  /** The entry of virtual page v in the page directory d. */
  function Lookup(m: Mach, d: nat, v: nat): nat {
    var w := PteAt(m, d, v / NPTE);
    if Present(w) then PteAt(m, FrameOf(w), v % NPTE) else 0
  }

  /** Pages that the kernel maps for itself, each to the physical page of the same number. */
  predicate KernelPage(v: nat) { UPAGES <= v < NPHYS || DEVPAGE <= v < VPAGES }

  // ----- the invariant -----

  predicate Sized(m: Mach) { |m.page| == NPHYS && |m.use| == NPHYS && |m.shared| == 3 }

  /** The free list runs through all free pages. */
  ghost predicate FreeOk(m: Mach)
    requires Sized(m)
  {
    && m.freelist == (if m.free == [] then 0 else m.free[0])
    && (forall i: nat | i < |m.free| :: LinkOk(m, i))
    && (forall i: nat, j: nat | i < j < |m.free| :: m.free[i] != m.free[j])
    && (forall f: nat | f < NPHYS && m.use[f] == Free :: f in m.free)
  }

  ghost predicate LinkOk(m: Mach, i: nat)
    requires Sized(m) && i < |m.free|
  {
    && 0 < m.free[i] < NPHYS && m.use[m.free[i]] == Free
    && m.page[m.free[i]] == Run(if i + 1 < |m.free| then m.free[i + 1] else 0)
  }

  ghost predicate DirOk(m: Mach, d: nat)
    requires Sized(m) && d < NPHYS
  {
    m.use[d] == Dir ==> 0 < d && m.page[d].Ptes? && forall x: nat | x < NPTE :: DirEntryOk(m, d, x)
  }

  /** A directory entry is zero or leads to the page table of that entry. */
  ghost predicate DirEntryOk(m: Mach, d: nat, x: nat)
    requires Sized(m)
  {
    var w := PteAt(m, d, x);
    w == 0 || (FrameOf(w) < NPHYS && w == Entry(FrameOf(w), PWU) && m.use[FrameOf(w)] == Table(d, x))
  }

  ghost predicate TableOk(m: Mach, t: nat)
    requires Sized(m) && t < NPHYS
  {
    m.use[t].Table? ==>
      0 < t && m.use[t].d < NPHYS && m.use[m.use[t].d] == Dir && m.use[t].x < NPTE && m.page[t].Ptes?
      && PteAt(m, m.use[t].d, m.use[t].x) == Entry(t, PWU)
  }

  ghost predicate UserOk(m: Mach, f: nat)
    requires Sized(m) && f < NPHYS
  {
    m.use[f].User? ==>
      0 < f && m.page[f].Data? && m.use[f].d < NPHYS && m.use[m.use[f].d] == Dir && 4 <= m.use[f].v < UPAGES
      && Lookup(m, m.use[f].d, m.use[f].v) == Entry(f, PWU)
  }

  /** An entry is zero, a kernel mapping, or leads to a user page of that address or, from the
      pages 1 to 3, to a shared page. */
  ghost predicate EntryOk(m: Mach, d: nat, v: nat)
    requires Sized(m)
  {
    var w := Lookup(m, d, v);
    w == 0 || (KernelPage(v) && (w == Entry(v, P) || w == Entry(v, PW)))
    || (v < UPAGES && FrameOf(w) < NPHYS && w == Entry(FrameOf(w), PWU)
        && (m.use[FrameOf(w)] == User(d, v) || (1 <= v <= 3 && m.use[FrameOf(w)].Shared?)))
  }

  ghost predicate SharedOk(m: Mach)
    requires Sized(m)
  {
    && (forall i: nat | i < 3 :: 0 < m.shared[i] < NPHYS && m.use[m.shared[i]] == Shared(i)
                                 && m.page[m.shared[i]].Data?)
    && (forall f: nat | f < NPHYS && m.use[f].Shared? :: m.use[f].slot < 3 && m.shared[m.use[f].slot] == f)
  }

  ghost predicate Inv(m: Mach) {
    && Sized(m) && FreeOk(m) && SharedOk(m)
    && (forall d: nat | d < NPHYS :: DirOk(m, d))
    && (forall t: nat | t < NPHYS :: TableOk(m, t))
    && (forall f: nat | f < NPHYS :: UserOk(m, f))
    && (forall d: nat, v: nat | d < NPHYS && m.use[d] == Dir && v < VPAGES :: EntryOk(m, d, v))
  }

  /** The kernel part of page directory d is complete. */
  ghost predicate Complete(m: Mach, d: nat)
    requires Sized(m)
  {
    d < NPHYS && m.use[d] == Dir && forall v: nat | v < VPAGES && KernelPage(v) :: Lookup(m, d, v) != 0
  }

  // ----- how two states compare -----

  /** The pool of the allocator is the same, no shared page has been freed, and what is allocated for
      other purposes still is. */
  ghost predicate SamePool(m: Mach, n: Mach) {
    && Sized(m) && Sized(n) && n.shared == m.shared
    && (forall f: nat | f < NPHYS :: n.use[f] == Outside <==> m.use[f] == Outside)
    && (forall f: nat | f < NPHYS && (m.use[f].Shared? || m.use[f].Held?) :: n.use[f] == m.use[f])
    && (forall f: nat | f < NPHYS && n.use[f].Shared? :: n.use[f] == m.use[f])
  }

  ghost predicate SameEntries(m: Mach, n: Mach, d: nat) {
    forall v: nat | v < VPAGES :: Lookup(n, d, v) == Lookup(m, d, v)
  }

  /** The entry of page v in directory d becomes w, and no other entry of a directory changes. */
  ghost predicate EntryBecomes(m: Mach, n: Mach, d: nat, v: nat, w: nat)
    requires Sized(m)
  {
    forall e: nat, u: nat | e < NPHYS && m.use[e] == Dir && u < VPAGES ::
      Lookup(n, e, u) == if e == d && u == v then w else Lookup(m, e, u)
  }
}
