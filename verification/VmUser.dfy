/** User address spaces: growing, shrinking, freeing and copying them. */
module VmUser {
  import opened FsLayout
  import opened VmMem
  import opened VmSteps
  import opened Vm

  const USERTOP: nat := 655360   // 160 pages

  /** The first page that does not start below address a. */
  function PagesTo(a: nat): (n: nat)
    ensures forall v: nat :: v < n <==> v * PGSIZE < a
  {
    (a + PGSIZE - 1) / PGSIZE
  }

  // ----- how user pages change -----

  /** No page directory entry changes. */
  ghost predicate SameDirs(m: Mach, n: Mach) {
    && Sized(m) && Sized(n) && n.shared == m.shared
    && forall e: nat, x: nat | e < NPHYS && m.use[e] == Dir && x < NPTE :: PteAt(n, e, x) == PteAt(m, e, x)
  }

  ghost predicate InRange(u: Use, d: nat, lo: nat, hi: nat) { u.User? && u.d == d && lo <= u.v < hi }

  /** Entries of directory d outside pages lo to hi - 1, and of all other directories, are as before. */
  ghost predicate OthersSame(m: Mach, n: Mach, d: nat, lo: nat, hi: nat)
    requires Sized(m)
  {
    forall e: nat, u: nat | e < NPHYS && m.use[e] == Dir && u < VPAGES && !(e == d && lo <= u < hi) ::
        Lookup(n, e, u) == Lookup(m, e, u)
  }

  /** Page u of directory d is mapped to a page that was free, and is all zero. */
  ghost predicate Zeroed(m: Mach, n: Mach, d: nat, u: nat)
    requires Sized(m) && Sized(n)
  {
    Lookup(n, d, u) != 0 && FrameOf(Lookup(n, d, u)) < NPHYS && m.use[FrameOf(Lookup(n, d, u))] == Free
    && n.use[FrameOf(Lookup(n, d, u))] == User(d, u) && Blank(n.page[FrameOf(Lookup(n, d, u))])
  }

  /** The page is a data page of zeros. */
  ghost predicate Blank(c: Page) { c.Data? && forall j: nat | j < PGSIZE :: c.data[j] == 0 }

  /** The byte at every address from lo to hi - 1 is a zero in a data page. */
  ghost predicate ZeroFrom(m: Mach, d: nat, lo: nat, hi: nat)
    requires Sized(m)
  {
    forall a: nat | lo <= a < hi :: ZeroAt(m, d, a)
  }

  function FrameAt(m: Mach, d: nat, v: nat): nat { FrameOf(Lookup(m, d, v)) }

  /** The byte at user address a; 0 where nothing is mapped. */
  function UserByte(m: Mach, d: nat, a: nat): byte {
    var f := FrameAt(m, d, a / PGSIZE);
    if Lookup(m, d, a / PGSIZE) != 0 && f < |m.page| && m.page[f].Data? then m.page[f].data[a % PGSIZE] else 0
  }

  /** What is mapped before and after has the same bytes. */
  ghost predicate BytesKept(m: Mach, n: Mach, d: nat) {
    forall a: nat | a < USERTOP && Lookup(m, d, a / PGSIZE) != 0 && Lookup(n, d, a / PGSIZE) != 0 ::
      UserByte(n, d, a) == UserByte(m, d, a)
  }

  /** A mapped user page is in a frame that is used. */
  lemma FrameUsed(m: Mach, d: nat, v: nat)
    requires Inv(m) && d < NPHYS && m.use[d] == Dir && v < UPAGES && Lookup(m, d, v) != 0
    ensures FrameAt(m, d, v) < NPHYS && (m.use[FrameAt(m, d, v)].User? || m.use[FrameAt(m, d, v)].Shared?)
  {
    hide Lookup, Entry, FreeOk;
    assert EntryOk(m, d, v);
  }

  lemma FilledKeeps(m: Mach, n: Mach, d: nat, lo: nat, hi: nat)
    requires Inv(m) && d < NPHYS && m.use[d] == Dir && Filled(m, n, d, lo, hi)
    requires forall v: nat | lo <= v < hi :: Lookup(m, d, v) == 0
    ensures BytesKept(m, n, d)
  {
    hide Lookup, PteAt, FreeOk, Zeroed;
    forall a: nat | a < USERTOP && Lookup(m, d, a / PGSIZE) != 0 ensures UserByte(n, d, a) == UserByte(m, d, a) {
      FrameUsed(m, d, a / PGSIZE);
      assert Lookup(n, d, a / PGSIZE) == Lookup(m, d, a / PGSIZE);
    }
  }

  lemma DroppedKeeps(m: Mach, n: Mach, d: nat, lo: nat, hi: nat)
    requires Inv(m) && Inv(n) && d < NPHYS && m.use[d] == Dir && n.use[d] == Dir && Dropped(m, n, d, lo, hi)
    ensures BytesKept(m, n, d)
  {
    hide Lookup, PteAt, FreeOk;
    forall a: nat | a < USERTOP && Lookup(m, d, a / PGSIZE) != 0 && Lookup(n, d, a / PGSIZE) != 0
      ensures UserByte(n, d, a) == UserByte(m, d, a)
    {
      FrameUsed(n, d, a / PGSIZE);
      assert !(lo <= a / PGSIZE < hi);
      assert Lookup(n, d, a / PGSIZE) == Lookup(m, d, a / PGSIZE);
    }
  }

  ghost predicate ZeroAt(m: Mach, d: nat, a: nat)
    requires Sized(m)
  {
    var f := FrameOf(Lookup(m, d, a / PGSIZE));
    f < NPHYS && m.page[f].Data? && m.page[f].data[a % PGSIZE] == 0
  }

  lemma ZeroedFrom(m: Mach, n: Mach, d: nat, lo: nat, hi: nat)
    requires Sized(m) && Sized(n) && forall u: nat | lo <= u < hi :: Zeroed(m, n, d, u)
    ensures ZeroFrom(n, d, lo * PGSIZE, hi * PGSIZE)
  {
    hide Lookup;
    forall a: nat | lo * PGSIZE <= a < hi * PGSIZE ensures ZeroAt(n, d, a) {
      assert lo <= a / PGSIZE < hi;
      assert Zeroed(m, n, d, a / PGSIZE);
    }
  }

  /** Pages lo to hi - 1 of directory d have got fresh pages of zeros. */
  ghost predicate Filled(m: Mach, n: Mach, d: nat, lo: nat, hi: nat) {
    && SameDirs(m, n) && OthersSame(m, n, d, lo, hi) && DataSame(m, n)
    && (forall u: nat | lo <= u < hi :: Zeroed(m, n, d, u))
    && (forall f: nat | f < NPHYS :: n.use[f] == m.use[f] || (m.use[f] == Free && InRange(n.use[f], d, lo, hi)))
    && (lo <= hi ==> |n.free| + (hi - lo) == |m.free|)
  }

  /** Pages lo to hi - 1 of directory d have been given back. */
  ghost predicate Dropped(m: Mach, n: Mach, d: nat, lo: nat, hi: nat) {
    && SameDirs(m, n) && OthersSame(m, n, d, lo, hi)
    && (d < NPHYS && m.use[d] == Dir ==> forall u: nat | lo <= u < hi :: Lookup(n, d, u) == 0)
    && (forall f: nat | f < NPHYS :: n.use[f] == if InRange(m.use[f], d, lo, hi) then Free else m.use[f])
    && (forall f: nat | f < NPHYS && (n.use[f].User? || n.use[f].Shared? || n.use[f].Held?) :: n.page[f] == m.page[f])
  }

  lemma FilledNone(m: Mach, d: nat, lo: nat)
    requires Sized(m)
    ensures Filled(m, m, d, lo, lo)
  {}

  lemma DroppedNone(m: Mach, d: nat, lo: nat)
    requires Sized(m)
    ensures Dropped(m, m, d, lo, lo)
  {}

  /** A held page may be written. */
  lemma HeldPage(m: Mach, f: nat, p: Page)
    requires Inv(m) && f < NPHYS && m.use[f] == Held
    ensures var n := m.(page := m.page[f := p]);
            Inv(n) && SameDirs(m, n) && forall e: nat | e < NPHYS && m.use[e] == Dir :: SameEntries(m, n, e)
  {
    var n := m.(page := m.page[f := p]);
    FreeSame(m, n);
    hide FreeOk;
    Unrelated(m, n);
  }

  /** One more page has been allocated, cleared and mapped. */
  lemma FilledMore(m0: Mach, m: Mach, n: Mach, d: nat, lo: nat, a: nat, f: nat)
    requires Filled(m0, m, d, lo, a) && lo <= a < UPAGES && d < NPHYS && m.use[d] == Dir && m0.use[d] == Dir
    requires Blank(Data(ZeroBytes())) && PageAdded(m, n, d, a, f, Data(ZeroBytes()))
    ensures Filled(m0, n, d, lo, a + 1)
  {
    hide Lookup, PteAt, Inv;
    forall e: nat, u: nat | e < NPHYS && m0.use[e] == Dir && u < VPAGES && !(e == d && lo <= u < a + 1)
      ensures Lookup(n, e, u) == Lookup(m0, e, u)
    {
      assert m.use[e] == Dir;
      assert Lookup(n, e, u) == if e == d && u == a then Entry(f, PWU) else Lookup(m, e, u);
    }
    forall u: nat | lo <= u < a + 1 ensures Zeroed(m0, n, d, u) {
      assert Lookup(n, d, u) == if u == a then Entry(f, PWU) else Lookup(m, d, u);
      assert u != a ==> Zeroed(m0, m, d, u);
    }
  }

  /** After a failed allocation everything that was taken has been given back. */
  lemma FilledDropped(m0: Mach, m: Mach, n: Mach, d: nat, lo: nat, a: nat, hi: nat)
    requires Inv(m0) && Filled(m0, m, d, lo, a) && Dropped(m, n, d, lo, hi) && lo <= a <= hi && d < NPHYS
        && m0.use[d] == Dir
    requires forall u: nat | lo <= u < hi :: Lookup(m0, d, u) == 0
    requires hi <= UPAGES
    ensures n.use == m0.use && SameDirs(m0, n) && forall e: nat | e < NPHYS && m0.use[e] == Dir :: SameEntries(m0, n, e)
    ensures DataSame(m0, n)
  {
    hide Lookup, PteAt, FreeOk;
    forall f: nat | f < NPHYS ensures n.use[f] == m0.use[f] {
      assert UserOk(m0, f);
      assert InRange(m0.use[f], d, lo, hi) ==> Lookup(m0, d, m0.use[f].v) == Entry(f, PWU);
    }
    forall e: nat | e < NPHYS && m0.use[e] == Dir ensures SameEntries(m0, n, e) {
      assert m.use[e] == Dir;
      forall u: nat | u < VPAGES ensures Lookup(n, e, u) == Lookup(m0, e, u) {
        if e == d && lo <= u < hi {
          assert Lookup(m0, d, u) == 0;
        } else {
          assert Lookup(m, e, u) == Lookup(m0, e, u);
        }
      }
    }
  }

  /** The free list has one link for each free page. */
  lemma FreeSize(m: Mach)
    requires Inv(m)
    ensures |m.free| == |set f: nat | f < NPHYS && m.use[f] == Free|
  {
    hide Lookup;
    forall i: nat | i < |m.free| ensures m.free[i] < NPHYS && m.use[m.free[i]] == Free { assert LinkOk(m, i); }
    DistinctSize(m.free);
    assert (set f: nat | f in m.free) == set f: nat | f < NPHYS && m.use[f] == Free;
  }

  lemma {:induction false} DistinctSize(s: seq<nat>)
    requires forall i: nat, j: nat | i < j < |s| :: s[i] != s[j]
    ensures |set f: nat | f in s| == |s|
  {
    if s == [] {
      assert (set f: nat | f in s) == {};
    } else {
      var n := |s| - 1;
      DistinctSize(s[..n]);
      assert s[n] !in s[..n];
      assert (set f: nat | f in s) == (set f: nat | f in s[..n]) + {s[n]};
    }
  }

  // ----- dropping one page -----

  lemma DirSized(m: Mach, d: nat)
    requires Inv(m) && d < NPHYS && m.use[d] == Dir
    ensures Sized(m)
  {}

  /** A page table entry that is not present is zero. */
  lemma AbsentPage(m: Mach, d: nat, a: nat)
    requires Inv(m) && d < NPHYS && m.use[d] == Dir && a < VPAGES && !Present(Lookup(m, d, a))
    ensures Lookup(m, d, a) == 0
  {
    hide FreeOk, Lookup, Entry, FrameOf, Present;
    assert EntryOk(m, d, a);
    EntryPresent(a, P);
    EntryPresent(a, PW);
    EntryPresent(FrameOf(Lookup(m, d, a)), PWU);
  }

  lemma OddSum(q: nat)
    ensures (2 * q + 1) % 2 == 1
  {}

  lemma EntryPresent(f: nat, flags: nat)
    requires flags == P || flags == PW || flags == PWU
    ensures Present(Entry(f, flags))
  {
    OddSum(2048 * f + flags / 2);
  }

  lemma NoTable(m: Mach, d: nat, a: nat)
    requires PteAt(m, d, a / NPTE) == 0
    ensures Lookup(m, d, a) == 0
  {}

  lemma GivenTable(m: Mach, d: nat, a: nat, f: nat, t: nat)
    requires Inv(m) && d < NPHYS && m.use[d] == Dir && a < VPAGES && HasTable(m, d, a)
        && f == FrameOf(Lookup(m, d, a)) < NPHYS
    requires m.use[f] == User(d, a) && t == FrameOf(PteAt(m, d, a / NPTE))
    ensures t < NPHYS && t != f && m.page[t].Ptes? && Given(m, f).page[t] == m.page[t]
    ensures var g := Given(m, f);
            g.(page := g.page[t := Ptes(m.page[t].pte[a % NPTE := 0])]) == WithoutUser(m, d, a)
  {
    hide FreeOk;
    TableOf(m, d, a);
  }

  lemma DroppedUser(m: Mach, m1: Mach, d: nat, lo: nat, a: nat, f: nat)
    requires Dropped(m, m1, d, lo, a) && lo <= a < UPAGES && Inv(m1) && d < NPHYS && m1.use[d] == Dir
        && HasTable(m1, d, a)
    requires f == FrameOf(Lookup(m1, d, a)) && 0 < f < NPHYS && m1.use[f] == User(d, a)
    requires EntryBecomes(m1, WithoutUser(m1, d, a), d, a, 0)
    requires forall e: nat, x: nat | e < NPHYS && m1.use[e] == Dir ::
        PteAt(WithoutUser(m1, d, a), e, x) == PteAt(m1, e, x)
    ensures Dropped(m, WithoutUser(m1, d, a), d, lo, a + 1)
  {
    TableOf(m1, d, a);
    OneUser(m1, d, a, f);
    var n := WithoutUser(m1, d, a);
    hide Lookup, PteAt, Inv, HasTable;
    forall e: nat, u: nat | e < NPHYS && m.use[e] == Dir && u < VPAGES && !(e == d && lo <= u < a + 1)
      ensures Lookup(n, e, u) == Lookup(m, e, u)
    {
      assert m1.use[e] == Dir;
      assert Lookup(n, e, u) == if e == d && u == a then 0 else Lookup(m1, e, u);
    }
    forall u: nat | lo <= u < a + 1 ensures Lookup(n, d, u) == 0 {
      assert Lookup(n, d, u) == if u == a then 0 else Lookup(m1, d, u);
    }
  }

  lemma DroppedSame(m: Mach, n: Mach, d: nat, lo: nat, a: nat)
    requires Dropped(m, n, d, lo, a) && lo <= a < UPAGES && Inv(n) && Lookup(n, d, a) == 0
    ensures Dropped(m, n, d, lo, a + 1)
  {
    UnmappedUnused(n, d, a);
    hide Lookup, PteAt, Inv;
  }

  // ----- growing and shrinking -----

  /** Gives back the user pages from newsz up to oldsz. */
  method Deallocuvm(k: Kernel, d: nat, oldsz: nat, newsz: nat) returns (r: nat)
    requires k.Valid() && d < NPHYS && k.use[d] == Dir && 4 * PGSIZE <= newsz && oldsz <= USERTOP
    modifies k`freelist, k`free, k`use, k.page
    ensures k.Valid() && r == (if newsz < oldsz then newsz else oldsz)
    ensures if newsz < oldsz then Dropped(old(k.M()), k.M(), d, PagesTo(newsz), PagesTo(oldsz)) else k.M() == old(k.M())
    ensures newsz < oldsz ==> |k.use| == |old(k.use)| == NPHYS && forall f: nat | f < NPHYS :: var u := old(k.use)[f];
              k.use[f] == if u.User? && u.d == d && newsz <= u.v * PGSIZE < oldsz then Free else u
  {
    hide FreeOk, Lookup, PteAt, Inv, Dropped;
    ghost var m := k.M();
    if newsz >= oldsz {
      return oldsz;
    }
    var a := PagesTo(newsz);
    ghost var lo := a;
    DirSized(m, d);
    DroppedNone(m, d, lo);
    while a * PGSIZE < oldsz
      invariant 4 <= lo <= a <= PagesTo(oldsz) && k.Valid() && Dropped(m, k.M(), d, lo, a) && |k.use| == NPHYS
          && k.use[d] == Dir
    {
      a := DropPage(k, d, a, m, lo);
    }
    DroppedUses(m, k.M(), d, newsz, oldsz);
    r := newsz;
  }

  lemma DroppedUses(m: Mach, n: Mach, d: nat, newsz: nat, oldsz: nat)
    requires Dropped(m, n, d, PagesTo(newsz), PagesTo(oldsz))
    ensures Sized(m) && Sized(n) && forall f: nat | f < NPHYS :: var u := m.use[f];
              n.use[f] == if u.User? && u.d == d && newsz <= u.v * PGSIZE < oldsz then Free else u
  {}

  lemma ReleasedUses(m: Mach, n: Mach, d: nat)
    requires Released(m, n, d)
    ensures Sized(m) && Sized(n) && forall f: nat | f < NPHYS :: var u := m.use[f];
              n.use[f] == if f == d || (u.Table? && u.d == d) || (u.User? && u.d == d) then Free else u
  {}

  /** Page a of directory d is given back if it is mapped. */
  method DropPage(k: Kernel, d: nat, a: nat, ghost m: Mach, ghost lo: nat) returns (next: nat)
    requires k.Valid() && d < NPHYS && |k.use| == NPHYS && k.use[d] == Dir && 4 <= lo <= a < UPAGES
        && Dropped(m, k.M(), d, lo, a)
    modifies k`freelist, k`free, k`use, k.page
    ensures next == a + 1 && k.Valid() && Dropped(m, k.M(), d, lo, a + 1) && |k.use| == NPHYS && k.use[d] == Dir
  {
    hide FreeOk, Lookup, PteAt, Inv, Dropped, EntryBecomes, DirEntryOk;
    ghost var m1 := k.M();
    DirSized(m1, d);
    var t := k.Walkpgdir(d, a, false);
    if t != 0 {
      TableRead(m1, d, a);
      if Present(k.page[t].pte[a % NPTE]) {
        var pa := FrameOf(k.page[t].pte[a % NPTE]);
        Unmap(m1, d, a);
        k.Kfree(pa);
        GivenTable(m1, d, a, pa, t);
        k.SetPage(t, Ptes(k.page[t].pte[a % NPTE := 0]));
        DroppedUser(m, m1, d, lo, a, pa);
        return a + 1;
      }
      AbsentPage(m1, d, a);
    } else {
      NoTable(m1, d, a);
    }
    DroppedSame(m, m1, d, lo, a);
    next := a + 1;
  }

  /** Allocates zeroed pages to grow from oldsz to newsz. On failure everything is as before. */
  method Allocuvm(k: Kernel, d: nat, oldsz: nat, newsz: nat) returns (r: nat)
    requires k.Valid() && d < NPHYS && k.use[d] == Dir && PteAt(k.M(), d, 0) != 0 && 4 * PGSIZE <= oldsz
    requires newsz <= USERTOP ==> forall v: nat | PagesTo(oldsz) <= v < PagesTo(newsz) :: Lookup(k.M(), d, v) == 0
    modifies k`freelist, k`free, k`use, k.page
    ensures k.Valid()
    ensures newsz > USERTOP ==> r == 0 && k.M() == old(k.M())
    ensures newsz <= USERTOP && newsz < oldsz ==> r == oldsz && k.M() == old(k.M())
    ensures oldsz <= newsz <= USERTOP ==> var n := PagesTo(newsz) - PagesTo(oldsz);
              if |old(k.free)| >= n then r == newsz && Filled(old(k.M()), k.M(), d, PagesTo(oldsz), PagesTo(newsz))
              else r == 0 && Restored(old(k.M()), k.M())
    ensures oldsz <= newsz && r != 0 ==> Sized(k.M())
                                         && ZeroFrom(k.M(), d, PagesTo(oldsz) * PGSIZE, PagesTo(newsz) * PGSIZE)
  {
    hide FreeOk, Lookup, PteAt, Inv, Filled, Dropped, Restored, ZeroFrom;
    if newsz > USERTOP {
      return 0;
    }
    if newsz < oldsz {
      return oldsz;
    }
    ghost var m := k.M();
    var a := PagesTo(oldsz);
    ghost var lo, hi := a, PagesTo(newsz);
    DirSized(m, d);
    FilledNone(m, d, lo);
    while a * PGSIZE < newsz
      invariant 4 <= lo <= a <= hi <= UPAGES && k.Valid() && Filled(m, k.M(), d, lo, a) && |k.use| == NPHYS
          && k.use[d] == Dir
      invariant |k.free| + (a - lo) == |m.free|
    {
      ghost var m1 := k.M();
      InvAlloc(m1);
      var mem := k.Kalloc();
      if mem == 0 {
        var _ := Deallocuvm(k, d, newsz, oldsz);
        FilledDropped(m, m1, k.M(), d, lo, a, hi);
        RestoredIs(m, k.M());
        return 0;
      }
      FillPage(k, d, a, mem, m, m1, lo);
      a := a + 1;
    }
    FilledZero(m, k.M(), d, lo, hi);
    r := newsz;
  }

  lemma FilledZero(m: Mach, n: Mach, d: nat, lo: nat, hi: nat)
    requires Filled(m, n, d, lo, hi)
    ensures Sized(n) && ZeroFrom(n, d, lo * PGSIZE, hi * PGSIZE)
  {
    ZeroedFrom(m, n, d, lo, hi);
  }

  /** Nothing has changed but the order of the free list. */
  ghost predicate Restored(m: Mach, n: Mach) {
    && Sized(m) && Sized(n) && n.shared == m.shared && n.use == m.use && |n.free| == |m.free| && DataSame(m, n)
    && forall e: nat | e < NPHYS && m.use[e] == Dir :: SameEntries(m, n, e)
  }

  lemma RestoredIs(m: Mach, n: Mach)
    requires Inv(m) && Inv(n) && n.shared == m.shared && n.use == m.use && DataSame(m, n)
    requires forall e: nat | e < NPHYS && m.use[e] == Dir :: SameEntries(m, n, e)
    ensures Restored(m, n)
  {
    hide Lookup, PteAt, FreeOk;
    FreeSize(m);
    FreeSize(n);
  }

  /** Clears the page mem, just allocated, and maps it as page a of directory d. */
  method FillPage(k: Kernel, d: nat, a: nat, mem: nat, ghost m: Mach, ghost m1: Mach, ghost lo: nat)
    requires k.Valid() && d < NPHYS && |k.use| == NPHYS && k.use[d] == Dir && 4 <= lo <= a < UPAGES
    requires Inv(m) && Inv(m1) && m.use[d] == Dir && m1.use[d] == Dir && Filled(m, m1, d, lo, a) && PteAt(m, d, 0) != 0
    requires JustTaken(m1, k.M(), mem) && Lookup(m, d, a) == 0
    modifies k`freelist, k`free, k`use, k.page
    ensures k.Valid() && Filled(m, k.M(), d, lo, a + 1) && |k.use| == NPHYS && k.use[d] == Dir
    ensures |k.free| + 1 == |m1.free|
  {
    hide FreeOk, Lookup, PteAt, Inv, Filled, EntryBecomes;
    FillReady(m, m1, d, lo, a);
    DirSized(m1, d);
    NewPage(k, d, a, mem, Data(ZeroBytes()), m1);
    FilledMore(m, m1, k.M(), d, lo, a, mem);
  }

  /** n is m after the allocator has given out the page f. */
  ghost predicate JustTaken(m: Mach, n: Mach, f: nat) {
    && Sized(m) && m.free != [] && f == m.free[0] && 0 < f < NPHYS && m.use[f] == Free && n == Taken(m)
    && forall e: nat | e < NPHYS && m.use[e] == Dir :: SameEntries(m, n, e)
  }

  /** The page f, free in m, holds c and is the private page a of directory d. */
  ghost predicate PageAdded(m: Mach, n: Mach, d: nat, a: nat, f: nat, c: Page) {
    && Sized(m) && Sized(n) && f < NPHYS && m.use[f] == Free && n.shared == m.shared && m.free != []
       && n.free == m.free[1..]
    && n.use == m.use[f := User(d, a)] && n.page[f] == c && SameDirs(m, n) && EntryBecomes(m, n, d, a, Entry(f, PWU))
    && (forall g: nat | g < NPHYS && g != f && (m.use[g].User? || m.use[g].Shared? || m.use[g].Held?) ::
       n.page[g] == m.page[g])
  }

  /** Writes c to the page mem, just allocated, and maps it as page a of directory d; the page
      table exists, so this cannot fail. */
  method NewPage(k: Kernel, d: nat, a: nat, mem: nat, c: Page, ghost m: Mach)
    requires k.Valid() && d < NPHYS && |k.use| == NPHYS && k.use[d] == Dir && 4 <= a < UPAGES && c.Data?
    requires Inv(m) && m.use[d] == Dir && JustTaken(m, k.M(), mem) && Lookup(m, d, a) == 0 && PteAt(m, d, 0) != 0
    modifies k`freelist, k`free, k`use, k.page
    ensures k.Valid() && PageAdded(m, k.M(), d, a, mem, c) && |k.use| == NPHYS && k.use[d] == Dir
  {
    hide FreeOk, Lookup, PteAt, Inv, EntryBecomes;
    ghost var m2 := k.M();
    DirSized(m, d);
    HeldPage(m2, mem, c);
    k.SetPage(mem, c);
    ghost var m3 := k.M();
    PageReady(m, m2, m3, d, a, mem, c);
    var _ := k.Mappages(d, a * PGSIZE, PGSIZE, mem * PGSIZE, PWU, UserPage);
    MapUser(m3, d, a, mem);
    PageDone(m, m2, m3, k.M(), d, a, mem, c);
  }

  lemma FillReady(m: Mach, m1: Mach, d: nat, lo: nat, a: nat)
    requires Filled(m, m1, d, lo, a) && 4 <= lo <= a < UPAGES && d < NPHYS && m.use[d] == Dir && PteAt(m, d, 0) != 0
        && Lookup(m, d, a) == 0
    ensures Lookup(m1, d, a) == 0 && PteAt(m1, d, 0) != 0
  {
    hide Lookup, PteAt;
    assert Lookup(m1, d, a) == Lookup(m, d, a);
  }

  lemma PageReady(m: Mach, m2: Mach, m3: Mach, d: nat, a: nat, f: nat, c: Page)
    requires JustTaken(m, m2, f) && d < NPHYS && m.use[d] == Dir && 4 <= a < UPAGES && c.Data?
    requires Lookup(m, d, a) == 0 && PteAt(m, d, 0) != 0
    requires Sized(m2) && m3 == m2.(page := m2.page[f := c]) && SameDirs(m2, m3) && SameEntries(m2, m3, d)
    ensures Sized(m3) && m3.use[d] == Dir && Lookup(m3, d, a) == 0 && PteAt(m3, d, a / NPTE) != 0
    ensures MayMap(m3, d, a, f, PWU, UserPage)
  {
    TakenSame(m, d);
    hide Lookup, PteAt;
    assert SameEntries(m, m2, d);
    assert a / NPTE == 0;
  }

  lemma PageDone(m: Mach, m2: Mach, m3: Mach, n: Mach, d: nat, a: nat, f: nat, c: Page)
    requires JustTaken(m, m2, f) && Sized(m2) && Sized(m3) && d < NPHYS && m.use[d] == Dir && 4 <= a < UPAGES && c.Data?
    requires m3 == m2.(page := m2.page[f := c]) && SameDirs(m2, m3)
    requires forall e: nat | e < NPHYS && m2.use[e] == Dir :: SameEntries(m2, m3, e)
    requires Inv(m3) && HasTable(m3, d, a) && n == WithUser(m3, d, a, f) && EntryBecomes(m3, n, d, a, Entry(f, PWU))
    requires forall e: nat, x: nat | e < NPHYS && m3.use[e] == Dir :: PteAt(n, e, x) == PteAt(m3, e, x)
    ensures PageAdded(m, n, d, a, f, c)
  {
    TakenSame(m, d);
    assert m3.use[d] == Dir;
    TableOf(m3, d, a);
    hide Inv, Lookup, PteAt, HasTable;
    forall e: nat, u: nat | e < NPHYS && m.use[e] == Dir && u < VPAGES
      ensures Lookup(n, e, u) == if e == d && u == a then Entry(f, PWU) else Lookup(m, e, u)
    {
      assert m2.use[e] == Dir && m3.use[e] == Dir;
      assert SameEntries(m, m2, e) && SameEntries(m2, m3, e);
      assert Lookup(n, e, u) == if e == d && u == a then Entry(f, PWU) else Lookup(m3, e, u);
    }
  }

  // ----- freeing an address space -----

  /** The page is part of the address space of directory d. */
  predicate OwnedBy(u: Use, f: nat, d: nat) { PartOf(u, f, d) || (u.User? && u.d == d) }

  /** The address space of directory d is gone: its directory, page tables and private pages are
      free, and nothing else has changed. */
  ghost predicate Released(m: Mach, n: Mach, d: nat) {
    && Sized(m) && Sized(n) && n.shared == m.shared
    && (forall f: nat | f < NPHYS :: n.use[f] == if OwnedBy(m.use[f], f, d) then Free else m.use[f])
    && (forall f: nat | f < NPHYS && (n.use[f].User? || n.use[f].Shared? || n.use[f].Held?) :: n.page[f] == m.page[f])
    && (forall e: nat | e < NPHYS && e != d && m.use[e] == Dir :: SameEntries(m, n, e))
  }

  /** After the private pages, i page tables have been freed; directory and tables are held. */
  ghost predicate Freed(m: Mach, n: Mach, d: nat, i: nat) {
    && Sized(m) && Sized(n) && n.shared == m.shared && d < NPHYS && m.use[d] == Dir && n.page[d] == m.page[d]
    && (forall f: nat | f < NPHYS :: n.use[f] == AfterTables(m.use[f], f, d, i))
    && (forall f: nat | f < NPHYS && (n.use[f].User? || n.use[f].Shared? || (n.use[f].Held? && m.use[f].Held?)) ::
       n.page[f] == m.page[f])
    && (forall e: nat | e < NPHYS && e != d && m.use[e] == Dir :: SameEntries(m, n, e))
  }

  function AfterTables(u: Use, f: nat, d: nat, i: nat): Use {
    if f == d then Held
    else if u.Table? && u.d == d then (if u.x < i then Free else Held)
    else if u.User? && u.d == d then Free
    else u
  }

  lemma InvSized(m: Mach)
    requires Inv(m)
    ensures Sized(m)
  {}

  lemma FreedFirst(m: Mach, m1: Mach, d: nat)
    requires Inv(m) && Inv(m1) && d < NPHYS && m.use[d] == Dir && Dropped(m, m1, d, 4, UPAGES)
    ensures Inv(Dismantled(m1, d)) && PteAt(m1, d, 0) == PteAt(m, d, 0)
    ensures Freed(m, Dismantled(m1, d), d, 0)
  {
    DirPage(m, d);
    DirPage(m1, d);
    DismantleKeeps(m1, d);
    hide Lookup, FreeOk, SharedOk;
    forall x: nat | x < NPTE ensures m1.page[d].pte[x] == m.page[d].pte[x] {
      assert PteAt(m1, d, x) == PteAt(m, d, x);
    }
    assert m1.page[d].pte == m.page[d].pte;
    var n := Dismantled(m1, d);
    forall f: nat | f < NPHYS ensures n.use[f] == AfterTables(m.use[f], f, d, 0) {
      assert UserOk(m, f);
    }
    forall e: nat | e < NPHYS && e != d && m.use[e] == Dir ensures SameEntries(m, n, e) {
      assert m1.use[e] == Dir && SameEntries(m1, n, e);
    }
  }

  lemma FreedNext(m: Mach, n: Mach, d: nat, i: nat)
    requires Inv(m) && Inv(n) && Freed(m, n, d, i) && i < NPTE
    ensures n.page[d].Ptes? && d > 0
    ensures var w := n.page[d].pte[i];
            if Present(w) then
              0 < FrameOf(w) < NPHYS && FrameOf(w) != d && n.use[FrameOf(w)] == Held
                  && Freed(m, Given(n, FrameOf(w)), d, i + 1)
            else Freed(m, n, d, i + 1)
  {
    DirPage(m, d);
    TableEntry(m, d, i);
    var w := n.page[d].pte[i];
    assert w == PteAt(m, d, i);
    hide Inv, Lookup, PteAt, SameEntries, Present, FrameOf, Entry;
    if Present(w) { FreedTable(m, n, d, i, FrameOf(w)); } else { FreedNone(m, n, d, i); }
  }

  /** A directory entry is present and leads to its page table, or is zero. */
  lemma TableEntry(m: Mach, d: nat, i: nat)
    requires Inv(m) && d < NPHYS && m.use[d] == Dir && i < NPTE
    ensures var w := PteAt(m, d, i);
            if Present(w) then FrameOf(w) < NPHYS && m.use[FrameOf(w)] == Table(d, i) else w == 0
  {
    hide FreeOk, SharedOk, Lookup, Entry, FrameOf, PteAt;
    assert DirOk(m, d) && DirEntryOk(m, d, i);
    EntryPresent(FrameOf(PteAt(m, d, i)), PWU);
    assert !Present(0);
  }

  /** Entry i has a page table, which is freed. */
  lemma FreedTable(m: Mach, n: Mach, d: nat, i: nat, t: nat)
    requires Inv(m) && Inv(n) && Freed(m, n, d, i) && i < NPTE && t < NPHYS && m.use[t] == Table(d, i)
    ensures 0 < t && t != d && n.use[t] == Held && Freed(m, Given(n, t), d, i + 1)
  {
    hide Lookup, FreeOk, SharedOk;
    assert TableOk(m, t);
    GiveKeeps(n, t);
    var g := Given(n, t);
    UsesAfter(m, d, i);
    hide Inv;
    forall e: nat | e < NPHYS && e != d && m.use[e] == Dir ensures SameEntries(m, g, e) {
      assert n.use[e] == Dir && SameEntries(n, g, e);
    }
  }

  /** Entry i has no page table, so no page is one of that entry. */
  lemma FreedNone(m: Mach, n: Mach, d: nat, i: nat)
    requires Inv(m) && Freed(m, n, d, i) && i < NPTE && PteAt(m, d, i) == 0
    ensures Freed(m, n, d, i + 1)
  {
    hide Lookup, FreeOk, SharedOk, SameEntries;
    forall f: nat | f < NPHYS ensures n.use[f] == AfterTables(m.use[f], f, d, i + 1) {
      assert TableOk(m, f);
    }
  }

  /** What freeing the page table of entry i does to the uses of pages. */
  lemma UsesAfter(m: Mach, d: nat, i: nat)
    requires Inv(m) && i < NPTE
    ensures forall f: nat, t: nat | f < NPHYS && t < NPHYS && m.use[t] == Table(d, i)
        && m.use[f] == Table(d, i) :: f == t
  {
    hide Lookup, FreeOk, SharedOk;
    forall f: nat, t: nat | f < NPHYS && t < NPHYS && m.use[t] == Table(d, i) && m.use[f] == Table(d, i)
      ensures f == t
    {
      assert TableOk(m, f) && TableOk(m, t);
    }
  }

  lemma FreedLast(m: Mach, n: Mach, d: nat)
    requires Inv(m) && Inv(n) && Freed(m, n, d, NPTE) && 0 < d
    ensures n.use[d] == Held && Inv(Given(n, d)) && Released(m, Given(n, d), d)
  {
    GiveKeeps(n, d);
    var g := Given(n, d);
    hide Lookup, FreeOk, SharedOk;
    forall f: nat | f < NPHYS ensures g.use[f] == if OwnedBy(m.use[f], f, d) then Free else m.use[f] {
      assert TableOk(m, f);
    }
    forall e: nat | e < NPHYS && e != d && m.use[e] == Dir ensures SameEntries(m, g, e) {
      assert n.use[e] == Dir && SameEntries(n, g, e);
    }
  }

  /** Frees the address space of directory d: its private pages, page tables and directory. The
      pages 1 to 3, where shared pages are mapped, are not looked at. */
  method Freevm(k: Kernel, d: nat)
    requires k.Valid() && d < NPHYS && k.use[d] == Dir
    modifies k`freelist, k`free, k`use, k.page
    ensures k.Valid() && Released(old(k.M()), k.M(), d)
    ensures |k.use| == |old(k.use)| == NPHYS && forall f: nat | f < NPHYS :: var u := old(k.use)[f];
              k.use[f] == if f == d || (u.Table? && u.d == d) || (u.User? && u.d == d) then Free else u
  {
    hide FreeOk, Lookup, PteAt, Inv, Dropped, Freed, Released;
    ghost var m := k.M();
    DirPage(m, d);
    DirSized(m, d);
    var _ := Deallocuvm(k, d, USERTOP, 4 * PGSIZE);
    FreedFirst(m, k.M(), d);
    InvSized(k.M());
    k.use := Dismantled(k.M(), d).use;
    var i := 0;
    while i < NPTE
      invariant i <= NPTE && k.Valid() && Freed(m, k.M(), d, i) && k.page.Length == NPHYS && |k.use| == NPHYS
          && |k.shared| == 3
    {
      FreedNext(m, k.M(), d, i);
      if Present(k.page[d].pte[i]) {
        GiveKeeps(k.M(), FrameOf(k.page[d].pte[i]));
        k.Kfree(FrameOf(k.page[d].pte[i]));
      }
      i := i + 1;
    }
    FreedLast(m, k.M(), d);
    k.Kfree(d);
    ReleasedUses(m, k.M(), d);
  }
}
