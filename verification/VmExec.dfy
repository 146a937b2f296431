/** The address space that exec makes for a program. */
module VmExec {
  import opened Wrappers
  import opened FsLayout
  import opened VmMem
  import opened VmSteps
  import opened Vm
  import opened VmUser
  import opened VmProc

  const STACK: nat := USERTOP - PGSIZE   // the bottom of the first stack page
  const NOSLOTS: seq<int> := [-1, -1, -1]

  // ----- the end of the image -----

  /** The end of the image when segments with these ends have been loaded; it starts at page 4. */
  function Top(ends: seq<nat>): nat {
    if ends == [] then 4 * PGSIZE
    else
      var t := Top(ends[..|ends| - 1]);
      if ends[|ends| - 1] < t then t else ends[|ends| - 1]
  }

  predicate InUser(ends: seq<nat>) { forall i: nat | i < |ends| :: ends[i] <= USERTOP }

  lemma {:induction false} TopBounds(ends: seq<nat>)
    ensures 4 * PGSIZE <= Top(ends) && (InUser(ends) ==> Top(ends) <= USERTOP)
  {
    if ends != [] {
      TopBounds(ends[..|ends| - 1]);
    }
  }

  /** The image ends where the segment that ends last does, or at page 4. */
  lemma {:induction false} TopIsMax(ends: seq<nat>)
    ensures forall i: nat | i < |ends| :: ends[i] <= Top(ends)
    ensures Top(ends) == 4 * PGSIZE || Top(ends) in ends
  {
    if ends != [] {
      var rest := ends[..|ends| - 1];
      TopIsMax(rest);
      assert forall i: nat | i < |rest| :: ends[i] == rest[i];
    }
  }

  lemma {:induction false} TopGrows(ends: seq<nat>, i: nat)
    requires i <= |ends|
    ensures Top(ends[..i]) <= Top(ends)
    decreases |ends|
  {
    if i < |ends| {
      var rest := ends[..|ends| - 1];
      assert rest[..i] == ends[..i];
      TopGrows(rest, i);
    } else {
      assert ends[..i] == ends;
    }
  }

  lemma TopNone(ends: seq<nat>)
    ensures Top(ends[..0]) == 4 * PGSIZE
  {}

  lemma TopNext(ends: seq<nat>, i: nat)
    requires i < |ends|
    ensures Top(ends[..i + 1]) == if ends[i] < Top(ends[..i]) then Top(ends[..i]) else ends[i]
  {
    assert ends[..i + 1][..i] == ends[..i];
  }

  /** How many pages exec needs: the kernel part, the image from page 4 on, and one for the stack. */
  function ExecPages(ends: seq<nat>): int { KPAGES + (PagesTo(Top(ends)) - 4) + 1 }

  // ----- a new address space -----

  predicate Within(v: nat, h: nat, s: nat) { 4 <= v < h || s <= v < UPAGES }

  /** e is a new address space with zeroed pages from 4 up to h and from s on. */
  ghost predicate Loading(m: Mach, n: Mach, e: nat, h: nat, s: nat) {
    && Beside(m, n, e) && Complete(n, e) && |n.free| + KPAGES + (h - 4) + (UPAGES - s) == |m.free|
    && forall v: nat | v < UPAGES :: if Within(v, h, s) then Zeroed(m, n, e, v) else Lookup(n, e, v) == 0
  }

  lemma LoadStart(m: Mach, n: Mach, e: nat)
    requires Inv(m) && SetUp(m, n, e) && |n.free| == |m.free| - KPAGES
    ensures Loading(m, n, e, 4, UPAGES)
  {
    hide Lookup, PteAt, FreeOk;
  }

  lemma LoadDir(m: Mach, n: Mach, e: nat, h: nat, s: nat)
    requires Loading(m, n, e, h, s)
    ensures Sized(n) && 0 < e < NPHYS && n.use[e] == Dir && PteAt(n, e, 0) != 0 && Beside(m, n, e)
    ensures forall v: nat | h <= v < s && 4 <= v < UPAGES :: Lookup(n, e, v) == 0
    ensures |n.free| + KPAGES + (h - 4) + (UPAGES - s) == |m.free|
  {
    ShapeTable(n, e);
    hide Lookup, PteAt;
  }

  lemma LoadMore(m: Mach, n: Mach, n': Mach, e: nat, h: nat, s: nat, h': nat, s': nat, lo: nat, hi: nat)
    requires Inv(m) && Inv(n) && Loading(m, n, e, h, s) && Filled(n, n', e, lo, hi) && 4 <= lo <= hi <= UPAGES
    requires forall v: nat | lo <= v < hi :: !Within(v, h, s)
    requires forall v: nat | v < UPAGES :: Within(v, h', s') <==> Within(v, h, s) || lo <= v < hi
    requires h' - s' == h - s + (hi - lo)
    ensures Loading(m, n', e, h', s')
  {
    hide Lookup, PteAt, FreeOk;
    LoadBeside(m, n, n', e, lo, hi);
    CompleteSame(n, n', e);
    forall v: nat | v < UPAGES
      ensures if Within(v, h', s') then Zeroed(m, n', e, v) else Lookup(n', e, v) == 0
    {
      if lo <= v < hi {
        assert Zeroed(n, n', e, v);
      } else {
        assert Lookup(n', e, v) == Lookup(n, e, v);
      }
    }
  }

  lemma LoadBeside(m: Mach, n: Mach, n': Mach, e: nat, lo: nat, hi: nat)
    requires Inv(m) && Inv(n) && Beside(m, n, e) && Filled(n, n', e, lo, hi)
    ensures Beside(m, n', e)
  {
    hide Lookup, PteAt, FreeOk;
    forall g: nat | g < NPHYS && m.use[g] == Dir ensures SameEntries(m, n', g) {
      assert SameEntries(m, n, g) && n.use[g] == Dir;
      forall u: nat | u < VPAGES ensures Lookup(n', g, u) == Lookup(m, g, u) {
        assert Lookup(n', g, u) == Lookup(n, g, u);
      }
    }
  }

  /** An allocation for the new address space has failed, and what it had taken has been given back. */
  lemma BesideRestored(m: Mach, n: Mach, n': Mach, e: nat)
    requires Inv(m) && Beside(m, n, e) && (n' == n || Restored(n, n'))
    ensures Beside(m, n', e)
  {
    hide Lookup, PteAt, FreeOk;
    forall g: nat | g < NPHYS && m.use[g] == Dir ensures SameEntries(m, n', g) {
      assert SameEntries(m, n, g) && n.use[g] == Dir && SameEntries(n, n', g);
    }
  }

  lemma BesideDropped(m: Mach, n: Mach, n': Mach, e: nat, lo: nat, hi: nat)
    requires Inv(m) && Beside(m, n, e) && Dropped(n, n', e, lo, hi)
    ensures Beside(m, n', e)
  {
    hide Lookup, PteAt, FreeOk;
    forall f: nat | f < NPHYS ensures n'.use[f] == m.use[f] || (m.use[f] == Free && OwnedBy(n'.use[f], f, e)) {
      NotOwned(m, f, e);
    }
    forall g: nat | g < NPHYS && m.use[g] == Dir ensures SameEntries(m, n', g) {
      assert SameEntries(m, n, g) && n.use[g] == Dir;
      forall u: nat | u < VPAGES ensures Lookup(n', g, u) == Lookup(m, g, u) {
        assert Lookup(n', g, u) == Lookup(n, g, u);
      }
    }
  }

  /** Loads the segments: the image grows to the end of each. A failure undoes everything. */
  method LoadImage(k: Kernel, e: nat, ends: seq<nat>, ghost m: Mach) returns (sz: nat)
    requires k.Valid() && Inv(m) && Loading(m, k.M(), e, 4, UPAGES)
    modifies k`freelist, k`free, k`use, k.page
    ensures k.Valid()
    ensures sz != 0 <==> InUser(ends) && |m.free| >= ExecPages(ends) - 1
    ensures sz != 0 ==> sz == Top(ends) && Loading(m, k.M(), e, PagesTo(sz), UPAGES)
    ensures sz == 0 ==> Restored(m, k.M())
  {
    hide FreeOk, Lookup, PteAt, Inv, Loading, Beside, Filled, Dropped, Restored, Released, Top;
    sz := 4 * PGSIZE;
    TopNone(ends);
    var i := 0;
    while i < |ends|
      invariant i <= |ends| && k.Valid() && InUser(ends[..i]) && sz == Top(ends[..i]) && 4 * PGSIZE <= sz <= USERTOP
      invariant Loading(m, k.M(), e, PagesTo(sz), UPAGES)
    {
      ghost var n := k.M();
      LoadDir(m, n, e, PagesTo(sz), UPAGES);
      TopNext(ends, i);
      TopGrows(ends, i + 1);
      var r := Allocuvm(k, e, sz, ends[i]);
      if r == 0 {
        BesideRestored(m, n, k.M(), e);
        Discard(k, e, m);
        return 0;
      }
      if ends[i] >= sz {
        LoadMore(m, n, k.M(), e, PagesTo(sz), UPAGES, PagesTo(r), UPAGES, PagesTo(sz), PagesTo(r));
      }
      sz := r;
      i := i + 1;
    }
    assert ends[..i] == ends;
    LoadDir(m, k.M(), e, PagesTo(sz), UPAGES);
  }

  /** The new address space is given up. */
  method Discard(k: Kernel, e: nat, ghost m: Mach)
    requires k.Valid() && Inv(m) && Beside(m, k.M(), e)
    modifies k`freelist, k`free, k`use, k.page
    ensures k.Valid() && Restored(m, k.M())
  {
    hide FreeOk, Lookup, PteAt, Inv, Restored, Released;
    ghost var n := k.M();
    Freevm(k, e);
    CopyFreed(m, n, k.M(), e);
  }

  /** The stack page is added. The kernel panics when the image already has that page; here that is
      the outcome halts. */
  method LoadStack(k: Kernel, e: nat, sz: nat, ghost m: Mach) returns (ok: bool, halts: bool)
    requires k.Valid() && Inv(m) && Loading(m, k.M(), e, PagesTo(sz), UPAGES) && 4 * PGSIZE <= sz <= USERTOP
    modifies k`freelist, k`free, k`use, k.page
    ensures k.Valid()
    ensures halts <==> sz > STACK && old(k.free) != []
    ensures ok <==> sz <= STACK && old(k.free) != []
    ensures ok ==> Loading(m, k.M(), e, PagesTo(sz), STACK / PGSIZE)
    ensures !ok && !halts ==> Restored(m, k.M())
  {
    hide FreeOk, Lookup, PteAt, Inv, Loading, Beside, Filled, Dropped, Restored, Taken;
    ghost var n := k.M();
    LoadDir(m, n, e, PagesTo(sz), UPAGES);
    ok, halts := false, false;
    if sz <= STACK {
      var r := Allocuvm(k, e, STACK, USERTOP);
      if r != 0 {
        LoadMore(m, n, k.M(), e, PagesTo(sz), UPAGES, PagesTo(sz), STACK / PGSIZE, STACK / PGSIZE, UPAGES);
        ok := true;
        return;
      }
      BesideRestored(m, n, k.M(), e);
    } else {
      InvAlloc(n);
      var mem := k.Kalloc();
      if mem != 0 {
        halts := true;   // the entry of the page is present
        return;
      }
      var _ := Deallocuvm(k, e, USERTOP, STACK);
      BesideDropped(m, n, k.M(), e, STACK / PGSIZE, UPAGES);
    }
    Discard(k, e, m);
  }

  // ----- exec -----

  /** The address space d is gone, the new one e has taken free pages, and all others are as before. */
  ghost predicate Replaced(m: Mach, n: Mach, d: nat, e: nat) {
    && Sized(m) && Sized(n) && n.shared == m.shared && 0 < e < NPHYS && m.use[e] == Free && n.use[e] == Dir
    && (forall f: nat | f < NPHYS ::
          || n.use[f] == (if OwnedBy(m.use[f], f, d) then Free else m.use[f])
          || (m.use[f] == Free && OwnedBy(n.use[f], f, e)))
    && (forall g: nat | g < NPHYS && g != d && m.use[g] == Dir :: SameEntries(m, n, g))
    && forall f: nat | f < NPHYS && (m.use[f].User? || m.use[f].Shared? || m.use[f].Held?) ::
         OwnedBy(m.use[f], f, d) || n.page[f] == m.page[f]
  }

  /** The pages of heap and stack are zeroed pages that were free, and there are no others. */
  ghost predicate Fresh(m: Mach, n: Mach, e: nat, sz: nat, sb: nat) {
    && Sized(m) && Sized(n)
    && forall v: nat | v < UPAGES :: if Private(sz, sb, v) then Zeroed(m, n, e, v) else Lookup(n, e, v) == 0
  }

  lemma LoadReplaced(m: Mach, n1: Mach, n: Mach, d: nat, e: nat, sz: nat)
    requires Inv(m) && Inv(n1) && Inv(n) && d < NPHYS && m.use[d] == Dir && Released(n1, n, d)
    requires Loading(m, n1, e, PagesTo(sz), STACK / PGSIZE)
    ensures Replaced(m, n, d, e) && Fresh(m, n, e, sz, STACK) && Complete(n, e)
    ensures Sized(m) && Sized(n) && forall f: nat | f < NPHYS :: var u := m.use[f];
              f == d || (u.Table? && u.d == d) || (u.User? && u.d == d) ==> n.use[f] == Free
  {
    hide Lookup, PteAt, FreeOk;
    assert SameEntries(n1, n, e);
    CompleteSame(n1, n, e);
    forall g: nat | g < NPHYS && g != d && m.use[g] == Dir ensures SameEntries(m, n, g) {
      assert SameEntries(m, n1, g) && n1.use[g] == Dir && SameEntries(n1, n, g);
    }
    forall v: nat | v < UPAGES ensures if Private(sz, STACK, v) then Zeroed(m, n, e, v) else Lookup(n, e, v) == 0 {
      assert Within(v, PagesTo(sz), STACK / PGSIZE) <==> Private(sz, STACK, v);
      assert Lookup(n, e, v) == Lookup(n1, e, v);
    }
  }

  /** The new address space has the shape of a process exactly when the image leaves the gap. */
  lemma FreshShape(m: Mach, n: Mach, e: nat, sz: nat)
    requires Fresh(m, n, e, sz, STACK) && Complete(n, e) && 4 * PGSIZE <= sz
    ensures Shape(n, e, sz, STACK, NOSLOTS) <==> sz + GAP <= STACK
  {
    hide Lookup, PteAt;
    forall v: nat | v < UPAGES ensures PageShape(n, e, sz, STACK, NOSLOTS, v) {
      assert Private(sz, STACK, v) ==> Zeroed(m, n, e, v);
    }
  }

  lemma FreshZero(m: Mach, n: Mach, e: nat, sz: nat)
    requires Fresh(m, n, e, sz, STACK) && sz % PGSIZE == 0 && sz <= USERTOP
    ensures ZeroFrom(n, e, 4 * PGSIZE, sz) && ZeroFrom(n, e, STACK, USERTOP)
  {
    hide Lookup, ZeroFrom, Zeroed;
    ZeroedFrom(m, n, e, 4, sz / PGSIZE);
    ZeroedFrom(m, n, e, STACK / PGSIZE, UPAGES);
  }

  /** Gives the process p a new address space for a program whose segments have these ends. It fails
      exactly when a segment ends above the user part or there are too few pages. Exec does not look
      at the gap between heap and stack: the new address space has the shape that the other
      operations keep exactly when the image leaves the gap, and an image that reaches into the page
      of the stack stops the kernel. */
  method Exec(k: Kernel, p: Process, ends: seq<nat>) returns (r: int, halts: bool)
    requires k.Valid() && |k.use| == NPHYS && p.pgdir < NPHYS && k.use[p.pgdir] == Dir
    modifies k`freelist, k`free, k`use, k.page, p
    ensures k.Valid() && (r == 0 || r == -1)
    ensures halts <==> InUser(ends) && Top(ends) > STACK && |old(k.free)| >= ExecPages(ends)
    ensures r == 0 <==> InUser(ends) && Top(ends) <= STACK && |old(k.free)| >= ExecPages(ends)
    ensures r == 0 ==> Replaced(old(k.M()), k.M(), old(p.pgdir), p.pgdir)
                       && Fresh(old(k.M()), k.M(), p.pgdir, p.sz, p.stackBm) && Complete(k.M(), p.pgdir)
                       && ZeroFrom(k.M(), p.pgdir, 4 * PGSIZE, p.sz) && ZeroFrom(k.M(), p.pgdir, p.stackBm, USERTOP)
                       && (forall f: nat | f < NPHYS :: var u := old(k.use)[f];
                             f == old(p.pgdir) || (u.Table? && u.d == old(p.pgdir)) || (u.User? && u.d == old(p.pgdir))
                             ==> k.use[f] == Free)
                       && p.sz == PagesTo(Top(ends)) * PGSIZE && p.stackBm == STACK && p.sharedpg == NOSLOTS
                       && (ShapeOf(k.M(), p) <==> p.sz + GAP <= p.stackBm)
    ensures r == -1 ==> p.pgdir == old(p.pgdir) && p.sz == old(p.sz) && p.stackBm == old(p.stackBm)
                        && p.sharedpg == old(p.sharedpg)
    ensures r == -1 && !halts && |old(k.free)| >= KPAGES ==> Restored(old(k.M()), k.M())
    ensures r == -1 && !halts && |old(k.free)| < KPAGES ==> k.free == [] && OnlyFreeUsed(old(k.M()), k.M())
  {
    hide FreeOk, Lookup, PteAt, Inv, Loading, Beside, Restored, OnlyFreeUsed, SetUp, Replaced, Fresh, Complete, Shape;
    hide Top, Released, ZeroFrom;
    ghost var m := k.M();
    r, halts := -1, false;
    TopBounds(ends);
    var e := k.Setupkvm();
    if e == 0 {
      return;
    }
    LoadStart(m, k.M(), e);
    var sz := LoadImage(k, e, ends, m);
    if sz == 0 {
      return;
    }
    LoadDir(m, k.M(), e, PagesTo(sz), UPAGES);
    sz := PagesTo(sz) * PGSIZE;
    var ok;
    ok, halts := LoadStack(k, e, sz, m);
    if !ok {
      return;
    }
    ghost var n := k.M();
    LoadOthers(m, n, e, PagesTo(sz), STACK / PGSIZE, p.pgdir);
    var oldpgdir := p.pgdir;
    p.pgdir, p.sz, p.stackBm, p.sharedpg := e, sz, STACK, NOSLOTS;
    Freevm(k, oldpgdir);
    LoadReplaced(m, n, k.M(), oldpgdir, e, sz);
    FreshShape(m, k.M(), e, sz);
    FreshZero(m, k.M(), e, sz);
    r := 0;
  }

  lemma LoadOthers(m: Mach, n: Mach, e: nat, h: nat, s: nat, d: nat)
    requires Loading(m, n, e, h, s) && d < NPHYS && m.use[d] == Dir
    ensures Sized(n) && n.use[d] == Dir
  {}

  /** A process with the shape that the operations ask for: after start-up, an empty address space
      and exec of a program without segments. */
  method StartedProcess(end: nat, kdata: KData) returns (k: Kernel, p: Process)
    requires 0 < end && (end + PGSIZE - 1) / PGSIZE + 3 + 2 * KPAGES + 1 <= NPHYS
    ensures fresh(k) && fresh(p) && k.Valid() && ShapeOf(k.M(), p)
    ensures p.sz == 4 * PGSIZE && p.stackBm == STACK && p.sharedpg == NOSLOTS
  {
    hide FreeOk, Lookup, PteAt, Inv, SetUp, Shape, Replaced, Fresh, Complete, Top;
    k := new Kernel(end, kdata);
    ghost var m := k.M();
    var d := k.Setupkvm();
    SetUpDir(m, k.M(), d);
    p := new Process(d, PGSIZE, 0, NOSLOTS);
    TopNone([]);
    var r, halts := Exec(k, p, []);
  }

  lemma SetUpDir(m: Mach, n: Mach, d: nat)
    requires SetUp(m, n, d)
    ensures Sized(n) && d < NPHYS && n.use[d] == Dir
  {}
}
