/** Copying bytes to the user addresses of an address space. */
module VmCopyout {
  import opened FsLayout
  import opened VmMem
  import opened VmSteps
  import opened Vm
  import opened VmUser
  import VmProc

  /** The user may access page v: its entry has the user flag. */
  predicate UserPage(m: Mach, d: nat, v: nat) { v < UPAGES && Lookup(m, d, v) != 0 }

  /** No page is mapped twice in directory d. */
  ghost predicate OneToOne(m: Mach, d: nat) {
    forall u: nat, v: nat | u < v < UPAGES && Lookup(m, d, u) != 0 && Lookup(m, d, v) != 0 ::
        FrameAt(m, d, u) != FrameAt(m, d, v)
  }

  /** The bytes from va on have become src; all other bytes of the address space are as before, and
      no other physical page has changed. */
  ghost predicate Written(m: Mach, n: Mach, d: nat, va: nat, src: seq<byte>) {
    && Sized(m) && Sized(n) && n == m.(page := n.page)
    && (forall e: nat | e < NPHYS && m.use[e] == Dir :: SameEntries(m, n, e))
    && (forall a: nat | UserPage(m, d, a / PGSIZE) :: UserByte(n, d, a) == if va <= a < va + |src| then src[a - va]
                                                      else UserByte(m, d, a))
    && (forall f: nat | f < NPHYS && n.page[f] != m.page[f] :: exists v: nat :: va / PGSIZE <= v
                                                                                && v * PGSIZE < va + |src|
                                                                                   && f == FrameAt(m, d, v))
  }

  lemma WrittenNone(m: Mach, d: nat, va: nat)
    requires Sized(m)
    ensures Written(m, m, d, va, [])
  {
    hide Lookup;
  }

  function Patched(p: Bytes, o: nat, d: seq<byte>): Bytes
    requires o + |d| <= PGSIZE
  {
    p[..o] + d + p[o + |d|..]
  }

  /** A user page leads to a data page. */
  lemma UserFrame(m: Mach, d: nat, v: nat)
    requires Inv(m) && d < NPHYS && m.use[d] == Dir && UserPage(m, d, v)
    ensures 0 < FrameAt(m, d, v) < NPHYS && m.page[FrameAt(m, d, v)].Data?
        && Lookup(m, d, v) == Entry(FrameAt(m, d, v), PWU)
    ensures m.use[FrameAt(m, d, v)].User? || m.use[FrameAt(m, d, v)].Shared?
  {
    hide FreeOk, Lookup, Entry;
    assert EntryOk(m, d, v);
    assert UserOk(m, FrameAt(m, d, v));
  }

  /** Which entries let the user in: the kernel's entries do not have the user flag. */
  lemma UserFlag(m: Mach, d: nat, v: nat)
    requires Inv(m) && d < NPHYS && m.use[d] == Dir && v < VPAGES
    ensures (Present(Lookup(m, d, v)) && Lookup(m, d, v) / 4 % 2 == 1) <==> UserPage(m, d, v)
  {
    hide FreeOk, Lookup, Entry, FrameOf, Present;
    assert EntryOk(m, d, v);
    FlagBits(v, P);
    FlagBits(v, PW);
    FlagBits(FrameOf(Lookup(m, d, v)), PWU);
  }

  lemma FlagBits(f: nat, flags: nat)
    requires flags == P || flags == PW || flags == PWU
    ensures Present(Entry(f, flags)) && (Entry(f, flags) / 4 % 2 == 1 <==> flags == PWU) && Entry(f, flags) != 0
    ensures Present(0) == false
  {
    EntryPresent(f, flags);
    assert Entry(f, flags) / 4 == 2 * (512 * f) + flags / 4;
  }

  ghost predicate SameTables(m: Mach, n: Mach, d: nat) { forall x: nat :: PteAt(n, d, x) == PteAt(m, d, x) }

  /** The page table of page v exists. */
  predicate Tabled(m: Mach, d: nat, v: nat) { PteAt(m, d, v / NPTE) != 0 }

  /** Writing to a data page keeps the invariant and all entries. */
  lemma DataWritten(m: Mach, f: nat, b: Bytes)
    requires Inv(m) && f < NPHYS && m.page[f].Data? && (m.use[f].User? || m.use[f].Shared?)
    ensures var n := m.(page := m.page[f := Data(b)]);
            Inv(n) && forall e: nat | e < NPHYS && m.use[e] == Dir :: SameEntries(m, n, e) && SameTables(m, n, e)
  {
    var n := m.(page := m.page[f := Data(b)]);
    FreeSame(m, n);
    hide FreeOk;
    forall e: nat | e < NPHYS && m.use[e] == Dir ensures SameEntries(m, n, e) {
      assert DirOk(m, e);
      assert forall t: nat | t < NPHYS && m.use[t].Table? :: n.page[t] == m.page[t];
      LookupSame(m, n, e);
    }
    hide Lookup;
    forall e: nat | e < NPHYS ensures DirOk(n, e) {
      assert DirOk(m, e);
      if m.use[e] == Dir {
        forall x: nat | x < NPTE ensures DirEntryOk(n, e, x) { assert DirEntryOk(m, e, x); }
      }
    }
    forall t: nat | t < NPHYS ensures TableOk(n, t) { assert TableOk(m, t); }
    forall g: nat | g < NPHYS ensures UserOk(n, g) {
      assert UserOk(m, g);
      assert m.use[g].User? ==> SameEntries(m, n, m.use[g].d);
    }
    forall e: nat, v: nat | e < NPHYS && n.use[e] == Dir && v < VPAGES ensures EntryOk(n, e, v) {
      assert EntryOk(m, e, v) && SameEntries(m, n, e);
    }
  }

  /** Writing within one page of the address space. */
  lemma WrittenMore(m: Mach, n: Mach, n': Mach, d: nat, va: nat, src: seq<byte>, piece: seq<byte>, v: nat)
    requires Inv(n) && OneToOne(m, d) && d < NPHYS && Written(m, n, d, va, src) && m.use[d] == Dir
    requires v == (va + |src|) / PGSIZE && UserPage(n, d, v) && (va + |src|) % PGSIZE + |piece| <= PGSIZE && piece != []
    requires FrameAt(n, d, v) < NPHYS && n.page[FrameAt(n, d, v)].Data?
    requires n' == n.(page := n.page[FrameAt(n, d,
        v) := Data(Patched(n.page[FrameAt(n, d, v)].data, (va + |src|) % PGSIZE, piece))])
    requires forall e: nat | e < NPHYS && n.use[e] == Dir :: SameEntries(n, n', e)
    ensures Written(m, n', d, va, src + piece)
  {
    hide Lookup;
    var at, f := va + |src|, FrameAt(n, d, v);
    assert SameEntries(m, n, d) && SameEntries(n, n', d);
    forall e: nat | e < NPHYS && m.use[e] == Dir ensures SameEntries(m, n', e) {
      assert SameEntries(m, n, e) && SameEntries(n, n', e);
    }
    forall a: nat | UserPage(m, d, a / PGSIZE)
      ensures UserByte(n', d, a) == if va <= a < va + |src + piece| then (src + piece)[a - va] else UserByte(m, d, a)
    {
      if a / PGSIZE == v {
        assert UserByte(n', d, a) == if at <= a < at + |piece| then piece[a - at] else UserByte(n, d, a);
      } else {
        assert FrameAt(m, d, a / PGSIZE) != FrameAt(m, d, v);
        assert UserByte(n', d, a) == UserByte(n, d, a);
        assert !(at <= a < at + |piece|);
      }
    }
    forall g: nat | g < NPHYS && n'.page[g] != m.page[g]
      ensures exists u: nat :: va / PGSIZE <= u && u * PGSIZE < va + |src + piece| && g == FrameAt(m, d, u)
    {
      if g == f { assert va / PGSIZE <= v && v * PGSIZE < va + |src + piece| && g == FrameAt(m, d, v); }
    }
  }

  /** Copies src to the user addresses from va on. It stops at the first page that the user may not
      access; then what lies before has been written. The page tables of user addresses and of va
      must exist, as the kernel follows the address of the entry without a test. */
  method Copyout(k: Kernel, d: nat, va: nat, src: seq<byte>) returns (r: int, ghost done: nat)
    requires k.Valid() && d < NPHYS && k.use[d] == Dir && OneToOne(k.M(), d) && va + |src| <= UINT
    requires Tabled(k.M(), d, 0) && (src != [] ==> Tabled(k.M(), d, va / PGSIZE))
    modifies k`freelist, k`free, k`use, k.page
    ensures k.Valid() && (r == 0 || r == -1) && done <= |src|
    ensures Written(old(k.M()), k.M(), d, va, src[..done])
    ensures forall j: nat | j < done :: UserByte(k.M(), d, va + j) == src[j]
    ensures forall a: nat | UserPage(old(k.M()), d, a / PGSIZE) && !(va <= a < va + done) ::
              UserByte(k.M(), d, a) == UserByte(old(k.M()), d, a)
    ensures r == 0 <==> forall a: nat | va <= a < va + |src| :: UserPage(old(k.M()), d, a / PGSIZE)
    ensures r == 0 ==> done == |src|
    ensures r == -1 ==> done < |src| && !UserPage(old(k.M()), d, (va + done) / PGSIZE)
  {
    hide FreeOk, Lookup, PteAt, Inv, Written, UserPage, HasTable, SameEntries, OneToOne;
    ghost var m := k.M();
    InvSized(m);
    WrittenNone(m, d, va);
    done := 0;
    var at, i := va, 0;
    while i < |src|
      invariant 0 <= i <= |src| && at == va + i && done == i && k.Valid() && |k.use| == NPHYS && k.use[d] == Dir
      invariant Tabled(k.M(), d, 0) && (i < |src| ==> Tabled(k.M(), d, at / PGSIZE))
      invariant Written(m, k.M(), d, va, src[..i])
      invariant forall a: nat | va <= a < at :: UserPage(m, d, a / PGSIZE)
    {
      var v := at / PGSIZE;
      ghost var n := k.M();
      WrittenSame(m, n, d, va, src[..i], v);
      var pa := Uva2ka(k, d, v);
      if pa == 0 {
        WrittenBytes(m, n, d, va, src, done);
        return -1, done;
      }
      var len := if PGSIZE - at % PGSIZE < |src| - i then PGSIZE - at % PGSIZE else |src| - i;
      UserFrame(n, d, v);
      DataWritten(n, pa, Patched(k.page[pa].data, at % PGSIZE, src[i..i + len]));
      k.SetPage(pa, Data(Patched(k.page[pa].data, at % PGSIZE, src[i..i + len])));
      WrittenMore(m, n, k.M(), d, va, src[..i], src[i..i + len], v);
      assert src[..i] + src[i..i + len] == src[..i + len];
      forall a: nat | at <= a < at + len ensures a / PGSIZE == v {}
      NextTabled(n, k.M(), d, at, len);
      at, i := at + len, i + len;
      done := i;
    }
    assert src[..i] == src;
    WrittenBytes(m, k.M(), d, va, src, done);
    r := 0;
  }

  lemma WrittenBytes(m: Mach, n: Mach, d: nat, va: nat, src: seq<byte>, done: nat)
    requires done <= |src| && Written(m, n, d, va, src[..done])
    requires forall a: nat | va <= a < va + done :: UserPage(m, d, a / PGSIZE)
    ensures forall j: nat | j < done :: UserByte(n, d, va + j) == src[j]
    ensures forall a: nat | UserPage(m, d, a / PGSIZE) && !(va <= a < va + done) ::
        UserByte(n, d, a) == UserByte(m, d, a)
  {
    hide UserPage, UserByte;
    forall j: nat | j < done ensures UserByte(n, d, va + j) == src[j] {
      assert UserPage(m, d, (va + j) / PGSIZE);
    }
  }

  lemma WrittenSame(m: Mach, n: Mach, d: nat, va: nat, src: seq<byte>, v: nat)
    requires Written(m, n, d, va, src) && d < NPHYS && m.use[d] == Dir && v < VPAGES
    ensures UserPage(n, d, v) <==> UserPage(m, d, v)
  {
    hide Lookup, PteAt;
    assert SameEntries(m, n, d);
  }

  /** Behind a user page there is a page with a page table. */
  lemma NextTabled(m: Mach, n: Mach, d: nat, at: nat, len: nat)
    requires SameTables(m, n, d) && Tabled(m, d, 0) && UserPage(m, d, at / PGSIZE) && at % PGSIZE + len <= PGSIZE
    ensures Tabled(n, d, 0) && Tabled(n, d, (at + len) / PGSIZE)
  {
    hide PteAt, Lookup;
    assert (at + len) / PGSIZE <= UPAGES;
    assert (at + len) / PGSIZE / NPTE == 0;
    assert PteAt(n, d, 0) == PteAt(m, d, 0);
  }

  // ----- the address spaces of processes -----

  /** No page of a process is mapped twice. */
  lemma ShapeOneToOne(m: Mach, d: nat, sz: nat, sb: nat, sh: seq<int>)
    requires Inv(m) && VmProc.Shape(m, d, sz, sb, sh)
    ensures OneToOne(m, d)
  {
    hide FreeOk, Lookup, Entry;
    forall u: nat, v: nat | u < v < UPAGES && Lookup(m, d, u) != 0 && Lookup(m, d, v) != 0
      ensures FrameAt(m, d, u) != FrameAt(m, d, v)
    {
      assert VmProc.PageShape(m, d, sz, sb, sh, u) && VmProc.PageShape(m, d, sz, sb, sh, v);
      assert EntryOk(m, d, u) && EntryOk(m, d, v);
      if FrameAt(m, d, u) == FrameAt(m, d, v) {
        assert m.use[FrameAt(m, d, u)].Shared? ==> u <= 3 && v <= 3;
        if v <= 3 { SlotFrames(m, d, sh, u, v); }
      }
    }
  }

  lemma SlotFrames(m: Mach, d: nat, sh: seq<int>, u: nat, v: nat)
    requires Inv(m) && VmProc.SlotsOk(sh) && 1 <= u < v <= 3 && VmProc.Slotted(sh, u) && VmProc.Slotted(sh, v)
    requires Lookup(m, d, u) == Entry(m.shared[sh[u - 1]], PWU) && Lookup(m, d, v) == Entry(m.shared[sh[v - 1]], PWU)
    ensures FrameAt(m, d, u) != FrameAt(m, d, v)
  {
    hide FreeOk, Lookup;
    assert m.use[m.shared[sh[u - 1]]] == Shared(sh[u - 1]) && m.use[m.shared[sh[v - 1]]] == Shared(sh[v - 1]);
  }

  /** The page tables that Copyout needs exist below 16 MB and for the devices. */
  lemma ShapeTabled(m: Mach, d: nat, v: nat)
    requires Sized(m) && Complete(m, d) && (v < NPHYS || DEVPAGE <= v < VPAGES)
    ensures Tabled(m, d, v)
  {
    hide PteAt;
    var u := if v < UPAGES then UPAGES else v;
    assert u / NPTE == v / NPTE;
    assert KernelPage(u) && Lookup(m, d, u) != 0;
    NoTable(m, d, u);
  }

  lemma NoTable(m: Mach, d: nat, v: nat)
    requires Lookup(m, d, v) != 0
    ensures PteAt(m, d, v / NPTE) != 0
  {}

  /** The physical page of user page v, or 0 when the user may not access it. */
  method Uva2ka(k: Kernel, d: nat, v: nat) returns (pa: nat)
    requires k.Valid() && d < NPHYS && |k.use| == NPHYS && k.use[d] == Dir && v < VPAGES && Tabled(k.M(), d, v)
    modifies k`freelist, k`free, k`use, k.page
    ensures k.M() == old(k.M()) && (pa != 0 <==> UserPage(k.M(), d, v))
    ensures pa != 0 ==> pa == FrameAt(k.M(), d, v) < NPHYS
  {
    hide FreeOk, Lookup, PteAt, Inv, UserPage;
    InvSized(k.M());
    var t := k.Walkpgdir(d, v, false);
    UserFlag(k.M(), d, v);
    if UserPage(k.M(), d, v) { UserFrame(k.M(), d, v); }
    TableRead(k.M(), d, v);
    var pte := k.page[t].pte[v % NPTE];
    if !Present(pte) {
      return 0;
    }
    if pte / 4 % 2 == 0 {
      return 0;
    }
    pa := FrameOf(pte);
  }
}
