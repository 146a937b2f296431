/** Each single step on blocks and slots keeps the ownership invariant. */
module FsOwner {
  import opened FsLayout
  import opened FsStore

  function WithAddr(s: Store, i: nat, k: nat, v: nat): Store
    requires i < |s.ino| && k <= NDIRECT && v < UINT
  {
    s.(ino := s.ino[i := s.ino[i].(addrs := s.ino[i].addrs[k := v])])
  }

  function WithBlock(s: Store, b: nat, d: Block): Store
    requires b < |s.disk|
  {
    s.(disk := s.disk[b := d])
  }

  /** An indirect block in use is owned by slot 12 of its inode. */
  lemma IndirectOwned(s: Store, own: map<nat, Ref>, x: nat, hi: nat, i: nat)
    requires s.Wf() && s.Owned(own, x, hi) && i < |s.ino| && s.ino[i].addrs[NDIRECT] != 0
    ensures var a := s.ino[i].addrs[NDIRECT]; s.g.IsData(a) && a in own && own[a] == Ref(i, NDIRECT)
  {
    assert s.Slot(i, NDIRECT) != 0;
  }

  /** Writing a data block changes no mark. */
  lemma DataKeepsMarks(s: Store, a: nat, d: Block)
    requires s.Wf() && s.g.IsData(a)
    ensures var t := WithBlock(s, a, d);
            SameShape(s, t) && forall c: nat | c < s.g.ScanEnd() :: t.Marked(c) == s.Marked(c)
  {}

  /** Changing an address of an inode changes no mark. */
  lemma AddrKeepsMarks(s: Store, i: nat, k: nat, v: nat)
    requires s.Wf() && i < |s.ino| && k <= NDIRECT && v < UINT
    ensures var t := WithAddr(s, i, k, v);
            SameShape(s, t) && forall c: nat | c < s.g.ScanEnd() :: t.Marked(c) == s.Marked(c)
  {}

  // ----- the two ways the matching changes -----

  lemma OwnNew(s: Store, t: Store, own: map<nat, Ref>, i: nat, k: nat, b: nat)
    requires s.Inv(own) && SameShape(s, t) && i < |s.ino| && k < NSLOT
    requires s.Slot(i, k) == 0 && s.g.IsData(b) && !s.Marked(b)
    requires SlotBecomes(s, t, i, k, b) && MarkBecomes(s, t, b, true)
    requires forall c: nat | s.g.IsData(c) && !s.Marked(c) :: t.disk[c] == s.disk[c]
    ensures t.Inv(own[b := Ref(i, k)])
  {
    hide Store.Slot, Store.Marked;
    var own' := own[b := Ref(i, k)];
    forall c | c in own'
      ensures t.g.IsData(c) && own'[c].i < |t.ino| && own'[c].k < NSLOT && t.Slot(own'[c].i, own'[c].k) == c
    {
      if c != b { assert s.Slot(own[c].i, own[c].k) == c; }
    }
    forall j: nat, l: nat | j < |t.ino| && l < NSLOT && t.Slot(j, l) != 0
      ensures t.Slot(j, l) in own' && own'[t.Slot(j, l)] == Ref(j, l)
    {
      if j != i || l != k { assert t.Slot(j, l) == s.Slot(j, l); }
    }
  }

  lemma OwnGone(s: Store, t: Store, own: map<nat, Ref>, x: nat, hi: nat, hi': nat, i: nat, k: nat)
    requires SameShape(s, t) && s.Owned(own, x, hi) && i < |s.ino| && k < NSLOT
    requires s.Slot(i, k) != 0 && !Dead(x, hi, i, k)
    requires MarkBecomes(s, t, s.Slot(i, k), false) && OnlyBlock(s, t, s.Slot(i, k))
    requires s.g.IsData(s.Slot(i, k)) ==> t.disk[s.Slot(i, k)] == Zeros()
    requires forall j: nat, l: nat | j < |s.ino| && l < NSLOT ::
               if Dead(x, hi, j, l) || (j == i && l == k) then Dead(x, hi', j, l) || t.Slot(j, l) == 0
               else !Dead(x, hi', j, l) && t.Slot(j, l) == s.Slot(j, l)
    ensures t.Owned(own - {s.Slot(i, k)}, x, hi')
  {
    hide Store.Slot, Store.Marked;
  }

  // ----- steps of allocation -----

  /** Slots and data blocks do not notice a change of the bitmap. */
  lemma MarkKeepsSlots(s: Store, own: map<nat, Ref>, x: nat, hi: nat, b: nat, v: bool)
    requires s.Wf() && s.Owned(own, x, hi) && b < s.g.ScanEnd()
    ensures var t := WithMark(s, b, v);
            forall j: nat, l: nat | j < |s.ino| && l < NSLOT :: t.Slot(j, l) == s.Slot(j, l)
    ensures forall c: nat | s.g.IsData(c) :: WithMark(s, b, v).disk[c] == s.disk[c]
  {
    var t := WithMark(s, b, v);
    WithMarkMarks(s, b, v);
    forall j: nat, l: nat | j < |s.ino| && l < NSLOT ensures t.Slot(j, l) == s.Slot(j, l) {
      if s.ino[j].addrs[NDIRECT] != 0 { IndirectOwned(s, own, x, hi, j); }
    }
  }

  /** Taking free block b for a direct slot or as an indirect block. A fresh indirect block has
      no entries, because a free block is all zero. */
  lemma AllocAddr(s: Store, own: map<nat, Ref>, i: nat, k: nat, b: nat)
    requires s.Inv(own) && i < |s.ino| && k <= NDIRECT && s.Slot(i, k) == 0
    requires s.g.IsData(b) && !s.Marked(b)
    ensures var t := WithAddr(WithMark(s, b, true), i, k, b);
            t.Inv(own[b := Ref(i, k)]) && SlotBecomes(s, t, i, k, b) && MarkBecomes(s, t, b, true)
            && SameBytes(s, t) && forall c: nat | s.g.IsData(c) :: t.disk[c] == s.disk[c]
  {
    hide Store.Marked;
    var m := WithMark(s, b, true);
    var t := WithAddr(m, i, k, b);
    MarkKeepsSlots(s, own, 0, 0, b, true);
    WithMarkMarks(s, b, true);
    AddrKeepsMarks(m, i, k, b);
    forall j: nat, l: nat | j < |s.ino| && l < NSLOT
      ensures t.Slot(j, l) == if j == i && l == k then b else s.Slot(j, l)
    {
      assert m.Slot(j, l) == s.Slot(j, l);
      if j == i && k == NDIRECT && l > NDIRECT { assert Word(Zeros(), l - NDIRECT - 1) == 0; }
    }
    OwnNew(s, t, own, i, k, b);
    AllocKeepsBytes(s, t, own, i, k, b);
  }

  lemma EntrySlot(s: Store, m: Store, own: map<nat, Ref>, i: nat, k: nat, b: nat, j: nat, l: nat)
    requires s.Inv(own) && SameShape(s, m) && m.ino == s.ino && i < |s.ino| && NDIRECT < k < NSLOT
    requires s.ino[i].addrs[NDIRECT] != 0 && j < |s.ino| && l < NSLOT && b < UINT
    requires forall c: nat | s.g.IsData(c) :: m.disk[c] == s.disk[c]
    ensures var a := s.ino[i].addrs[NDIRECT];
            s.g.IsData(a)
            && WithBlock(m, a, PutWord(s.disk[a], k - NDIRECT - 1, b)).Slot(j, l) == if j == i && l == k then b
               else s.Slot(j, l)
  {
    hide Store.Marked;
    var a := s.ino[i].addrs[NDIRECT];
    IndirectOwned(s, own, 0, 0, i);
    if l > NDIRECT && s.ino[j].addrs[NDIRECT] != 0 {
      IndirectOwned(s, own, 0, 0, j);
      WordOfPutWord(s.disk[a], k - NDIRECT - 1, b, l - NDIRECT - 1);
    }
  }

  /** Taking free block b for an entry of the indirect block. */
  lemma AllocEntry(s: Store, own: map<nat, Ref>, i: nat, k: nat, b: nat)
    requires s.Inv(own) && i < |s.ino| && NDIRECT < k < NSLOT && s.Slot(i, k) == 0
    requires s.g.IsData(b) && !s.Marked(b) && s.ino[i].addrs[NDIRECT] != 0
    ensures var a := s.ino[i].addrs[NDIRECT];
            s.g.IsData(a) && b < UINT
            && var t := WithBlock(WithMark(s, b, true), a, PutWord(s.disk[a], k - NDIRECT - 1, b));
            t.Inv(own[b := Ref(i, k)]) && SlotBecomes(s, t, i, k, b) && MarkBecomes(s, t, b, true)
            && SameBytes(s, t) && OnlyBlock(s, t, a)
  {
    hide Store.Marked;
    var a := s.ino[i].addrs[NDIRECT];
    IndirectOwned(s, own, 0, 0, i);
    var m := WithMark(s, b, true);
    var d := PutWord(s.disk[a], k - NDIRECT - 1, b);
    var t := WithBlock(m, a, d);
    MarkKeepsSlots(s, own, 0, 0, b, true);
    WithMarkMarks(s, b, true);
    forall j: nat, l: nat | j < |s.ino| && l < NSLOT
      ensures t.Slot(j, l) == if j == i && l == k then b else s.Slot(j, l)
    {
      EntrySlot(s, m, own, i, k, b, j, l);
    }
    DataKeepsMarks(m, a, d);
    assert MarkBecomes(s, t, b, true);
    OwnNew(s, t, own, i, k, b);
    AllocKeepsBytes(s, t, own, i, k, b);
  }

  lemma AllocKeepsBytes(s: Store, t: Store, own: map<nat, Ref>, i: nat, k: nat, b: nat)
    requires s.Inv(own) && SameShape(s, t) && i < |s.ino| && k < NSLOT && s.Slot(i, k) == 0
    requires s.g.IsData(b) && !s.Marked(b) && SlotBecomes(s, t, i, k, b)
    requires forall c: nat | s.g.IsData(c) && !(c in own && own[c].k == NDIRECT) :: t.disk[c] == s.disk[c]
    ensures SameBytes(s, t)
  {
    forall j: nat, p: nat | j < |s.ino| && p < MAXBYTES ensures t.ByteAt(j, p) == s.ByteAt(j, p) {
      var l := BnSlot(p / BSIZE);
      assert t.Slot(j, l) == if j == i && l == k then b else s.Slot(j, l);
    }
  }

  // ----- writing the data of a block -----

  lemma DataWriteSlots(s: Store, own: map<nat, Ref>, i: nat, k: nat, d: Block)
    requires s.Inv(own) && i < |s.ino| && k < NSLOT && k != NDIRECT && s.Slot(i, k) != 0
    ensures var a := s.Slot(i, k);
            s.g.IsData(a)
            && var t := WithBlock(s, a, d);
            t.Inv(own) && (forall j: nat, l: nat | j < |s.ino| && l < NSLOT :: t.Slot(j, l) == s.Slot(j, l))
  {
    hide Store.Marked;
    var a := s.Slot(i, k);
    assert a in own && own[a] == Ref(i, k);
    var t := WithBlock(s, a, d);
    DataKeepsMarks(s, a, d);
    forall j: nat, l: nat | j < |s.ino| && l < NSLOT ensures t.Slot(j, l) == s.Slot(j, l) {
      if s.ino[j].addrs[NDIRECT] != 0 { IndirectOwned(s, own, 0, 0, j); }
    }
  }

  /** Overwriting a data block of inode i changes the bytes of that file block only. */
  lemma DataWrite(s: Store, own: map<nat, Ref>, i: nat, bn: nat, d: Block)
    requires s.Inv(own) && i < |s.ino| && bn < MAXFILE && s.Slot(i, BnSlot(bn)) != 0
    ensures var a := s.Slot(i, BnSlot(bn));
            s.g.IsData(a)
            && var t := WithBlock(s, a, d);
            SameShape(s, t) && t.Inv(own)
            && (forall j: nat, p: nat | j < |s.ino| && p < MAXBYTES ::
                  t.ByteAt(j, p) == if j == i && p / BSIZE == bn then d[p % BSIZE] else s.ByteAt(j, p))
  {
    var a := s.Slot(i, BnSlot(bn));
    DataWriteSlots(s, own, i, BnSlot(bn), d);
    var t := WithBlock(s, a, d);
    forall j: nat, p: nat | j < |s.ino| && p < MAXBYTES
      ensures t.ByteAt(j, p) == if j == i && p / BSIZE == bn then d[p % BSIZE] else s.ByteAt(j, p)
    {
      var l := BnSlot(p / BSIZE);
      assert t.Slot(j, l) == s.Slot(j, l);
      if s.Slot(j, l) == a { assert own[a] == Ref(j, l) == Ref(i, BnSlot(bn)); }
    }
  }

  // ----- steps of truncation -----

  /** Freeing the block of direct slot k and clearing the slot. */
  lemma FreeAddr(s: Store, own: map<nat, Ref>, i: nat, k: nat)
    requires s.Inv(own) && i < |s.ino| && k < NDIRECT && s.Slot(i, k) != 0
    ensures var b := s.Slot(i, k);
            s.g.IsData(b) && s.Marked(b)
            && var t := WithAddr(WithMark(WithBlock(s, b, Zeros()), b, false), i, k, 0);
            t.Inv(own - {b}) && SlotBecomes(s, t, i, k, 0) && MarkBecomes(s, t, b, false) && OnlyBlock(s, t, b)
  {
    hide Store.Marked;
    var b := s.Slot(i, k);
    assert own[b] == Ref(i, k);
    var z := WithBlock(s, b, Zeros());
    DataWriteSlots(s, own, i, k, Zeros());
    DataKeepsMarks(s, b, Zeros());
    MarkKeepsSlots(z, own, 0, 0, b, false);
    WithMarkMarks(z, b, false);
    var m := WithMark(z, b, false);
    var t := WithAddr(m, i, k, 0);
    AddrKeepsMarks(m, i, k, 0);
    forall j: nat, l: nat | j < |s.ino| && l < NSLOT
      ensures t.Slot(j, l) == if j == i && l == k then 0 else s.Slot(j, l)
    {
      assert m.Slot(j, l) == z.Slot(j, l) == s.Slot(j, l);
    }
    OwnGone(s, t, own, 0, 0, 0, i, k);
  }

  /** Freeing an entry of the indirect block; the entry itself is not cleared. */
  lemma FreeEntry(s: Store, own: map<nat, Ref>, i: nat, k: nat)
    requires s.Wf() && i < |s.ino| && NDIRECT < k < NSLOT && s.Owned(own, i, k) && s.Slot(i, k) != 0
    ensures var b := s.Slot(i, k);
            s.g.IsData(b) && s.Marked(b)
            && var t := WithMark(WithBlock(s, b, Zeros()), b, false);
            t.Owned(own - {b}, i, k + 1) && MarkBecomes(s, t, b, false) && OnlyBlock(s, t, b)
            && forall l: nat | l < NSLOT :: t.Slot(i, l) == s.Slot(i, l)
  {
    hide Store.Marked;
    var b := s.Slot(i, k);
    assert own[b] == Ref(i, k);
    var z := WithBlock(s, b, Zeros());
    var t := WithMark(z, b, false);
    DataKeepsMarks(s, b, Zeros());
    WithMarkMarks(z, b, false);
    forall j: nat, l: nat | j < |s.ino| && l < NSLOT ensures t.Slot(j, l) == s.Slot(j, l) {
      if s.ino[j].addrs[NDIRECT] != 0 { IndirectOwned(s, own, i, k, j); }
    }
    OwnGone(s, t, own, i, k, k + 1, i, k);
  }

  /** Freeing the indirect block once all its entries are dead, and clearing its slot. */
  lemma FreeIndirect(s: Store, own: map<nat, Ref>, i: nat)
    requires s.Wf() && i < |s.ino| && s.Owned(own, i, NSLOT) && s.ino[i].addrs[NDIRECT] != 0
    ensures var b := s.ino[i].addrs[NDIRECT];
            s.g.IsData(b) && s.Marked(b)
            && var t := WithAddr(WithMark(WithBlock(s, b, Zeros()), b, false), i, NDIRECT, 0);
            SameShape(s, t) && t.Inv(own - {b}) && MarkBecomes(s, t, b, false) && OnlyBlock(s, t, b)
            && (forall l: nat | l < NSLOT :: t.Slot(i, l) == if l < NDIRECT then s.Slot(i, l) else 0)
  {
    hide Store.Marked;
    var b := s.ino[i].addrs[NDIRECT];
    IndirectOwned(s, own, i, NSLOT, i);
    var z := WithBlock(s, b, Zeros());
    var t := WithAddr(WithMark(z, b, false), i, NDIRECT, 0);
    DataKeepsMarks(s, b, Zeros());
    WithMarkMarks(z, b, false);
    forall j: nat, l: nat | j < |s.ino| && l < NSLOT && j != i ensures t.Slot(j, l) == s.Slot(j, l) {
      if s.ino[j].addrs[NDIRECT] != 0 { IndirectOwned(s, own, i, NSLOT, j); }
    }
    forall l: nat | l < NSLOT ensures t.Slot(i, l) == if l < NDIRECT then s.Slot(i, l) else 0 {
    }
    AddrKeepsMarks(WithMark(z, b, false), i, NDIRECT, 0);
    OwnGone(s, t, own, i, NSLOT, 0, i, NDIRECT);
  }

  /** From s to t only blocks of inode i were given up; all blocks still owned are as before. */
  ghost predicate Shrunk(s: Store, t: Store, own: map<nat, Ref>, own': map<nat, Ref>, i: nat)
    requires SameShape(s, t)
  {
    && (forall b | b in own' :: b in own && own'[b] == own[b])
    && (forall b | b in own && own[b].i != i :: b in own')
    && (forall b | b in own' && s.g.IsData(b) :: t.disk[b] == s.disk[b])
    && (forall j: nat | j < |s.ino| && j != i :: t.ino[j] == s.ino[j])
  }

  lemma ShrunkNone(s: Store, own: map<nat, Ref>, i: nat)
    requires s.Wf()
    ensures Shrunk(s, s, own, own, i)
  {}

  /** Changing the size of inode i gives up no block. */
  lemma ShrunkSize(s: Store, t: Store, own: map<nat, Ref>, i: nat)
    requires SameShape(s, t) && t.disk == s.disk
    requires forall j: nat | j < |s.ino| && j != i :: t.ino[j] == s.ino[j]
    ensures Shrunk(s, t, own, own, i)
  {}

  lemma ShrunkOnce(s: Store, t: Store, own: map<nat, Ref>, i: nat, b: nat)
    requires SameShape(s, t) && b in own && own[b].i == i && OnlyBlock(s, t, b)
    requires forall j: nat | j < |s.ino| && j != i :: t.ino[j] == s.ino[j]
    ensures Shrunk(s, t, own, own - {b}, i)
  {}

  lemma ShrunkTwice(r: Store, s: Store, t: Store, own: map<nat, Ref>, own': map<nat, Ref>, own'': map<nat, Ref>, i: nat)
    requires SameShape(r, s) && SameShape(s, t) && Shrunk(r, s, own, own', i) && Shrunk(s, t, own', own'', i)
    ensures Shrunk(r, t, own, own'', i)
  {}

  /** The blocks that stay when inode i gives up all of its own. */
  ghost function Without(own: map<nat, Ref>, i: nat): map<nat, Ref> {
    map b | b in own && own[b].i != i :: own[b]
  }

  lemma ShrunkToNothing(s: Store, t: Store, own: map<nat, Ref>, own': map<nat, Ref>, i: nat)
    requires SameShape(s, t) && i < |s.ino| && t.Inv(own') && Shrunk(s, t, own, own', i)
    requires forall l: nat | l < NSLOT :: t.Slot(i, l) == 0
    ensures own' == Without(own, i)
  {
    hide Store.Marked, Store.Slot;
    forall b | b in own' ensures own'[b].i != i {
      assert t.Slot(own'[b].i, own'[b].k) == b;
    }
  }

  lemma OwnedMark(s: Store, own: map<nat, Ref>, b: nat)
    requires s.Inv(own) && s.g.IsData(b)
    ensures s.Marked(b) <==> b in own
    ensures b in own ==> own[b].i < |s.ino| && own[b].k < NSLOT && s.Slot(own[b].i, own[b].k) == b && b != 0
  {
    hide Store.Slot;
  }

  lemma OwnedSlot(s: Store, own: map<nat, Ref>, i: nat, k: nat)
    requires s.Inv(own) && i < |s.ino| && k < NSLOT && s.Slot(i, k) != 0
    ensures s.Slot(i, k) in own && own[s.Slot(i, k)] == Ref(i, k) && s.g.IsData(s.Slot(i, k))
  {
    hide Store.Slot, Store.Marked;
  }

  /** Giving up all blocks of inode i frees just these. */
  lemma WithoutFree(s: Store, t: Store, own: map<nat, Ref>, i: nat)
    requires s.Inv(own) && t.Inv(Without(own, i)) && SameShape(s, t) && i < |s.ino|
    ensures t.Free() == s.Free() + set k: nat | k < NSLOT && s.Slot(i, k) != 0 :: s.Slot(i, k)
  {
    hide Store.Slot, Store.Owned, Store.Marked;
    var freed := set k: nat | k < NSLOT && s.Slot(i, k) != 0 :: s.Slot(i, k);
    forall b: nat | s.g.IsData(b) ensures b in t.Free() <==> b in s.Free() || b in freed {
      OwnedMark(s, own, b);
      OwnedMark(t, Without(own, i), b);
      if k: nat :| k < NSLOT && s.Slot(i, k) == b != 0 { OwnedSlot(s, own, i, k); }
    }
    forall b | b in freed ensures s.g.IsData(b) {
      var k: nat :| k < NSLOT && s.Slot(i, k) == b != 0;
      OwnedSlot(s, own, i, k);
    }
  }

  lemma ShrunkKeepsOthers(s: Store, t: Store, own: map<nat, Ref>, own': map<nat, Ref>, i: nat)
    requires SameShape(s, t) && s.Inv(own) && t.Inv(own') && Shrunk(s, t, own, own', i)
    ensures forall j: nat, p: nat | j < |s.ino| && j != i && p < MAXBYTES :: t.ByteAt(j, p) == s.ByteAt(j, p)
  {
    forall j: nat, p: nat | j < |s.ino| && j != i && p < MAXBYTES ensures t.ByteAt(j, p) == s.ByteAt(j, p) {
      var l := BnSlot(p / BSIZE);
      var a, c := s.Slot(j, l), t.Slot(j, l);
      if a != 0 { assert own[a] == Ref(j, l) && a in own'; }
      if c != 0 { assert own'[c] == Ref(j, l) && c in own; }
    }
  }
}
