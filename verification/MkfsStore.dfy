/** The blocks of an image under construction: they are handed out in order, each to one address
    slot of one inode. */
module MkfsStore {
  import opened FsLayout
  import opened FsStore
  import opened FsOwner

  const SIZE: nat := 1024
  const NINODES: nat := 200
  const FIRST: nat := 29    // first data block: after the boot, super, inode and bitmap blocks
  const GEOMETRY := Geometry(SIZE, NINODES)

  /** The data blocks below fb are handed out, one to each nonzero slot; own says to which. The
      blocks from fb on are still zero, and so is block 0. */
  ghost predicate Allotted(s: Store, own: map<nat, Ref>, fb: nat) {
    && s.g == GEOMETRY && s.Wf() && |s.ino| == NINODES && FIRST <= fb <= SIZE
    && (forall b: nat :: b in own <==> FIRST <= b < fb)
    && (forall b: nat | fb <= b < SIZE :: s.disk[b] == Zeros()) && s.disk[0] == Zeros()
    && (forall b | b in own :: Owns(s, own[b], b))
    && (forall i: nat, k: nat | i < NINODES && k < NSLOT && s.Slot(i, k) != 0 ::
          s.Slot(i, k) in own && own[s.Slot(i, k)] == Ref(i, k))
  }

  ghost predicate Owns(s: Store, r: Ref, b: nat) {
    r.i < |s.ino| && r.k < NSLOT && s.Slot(r.i, r.k) == b
  }

  ghost predicate SameSlots(s: Store, t: Store) {
    SameShape(s, t) && forall j: nat, l: nat | j < |s.ino| && l < NSLOT :: t.Slot(j, l) == s.Slot(j, l)
  }

  lemma SlotAllotted(s: Store, own: map<nat, Ref>, fb: nat, i: nat, k: nat)
    requires Allotted(s, own, fb) && i < NINODES && k < NSLOT && s.Slot(i, k) != 0
    ensures FIRST <= s.Slot(i, k) < fb && own[s.Slot(i, k)] == Ref(i, k)
  {}

  lemma IndirectAllotted(s: Store, own: map<nat, Ref>, fb: nat, i: nat)
    requires Allotted(s, own, fb) && i < NINODES && s.ino[i].addrs[NDIRECT] != 0
    ensures FIRST <= s.ino[i].addrs[NDIRECT] < fb && own[s.ino[i].addrs[NDIRECT]] == Ref(i, NDIRECT)
  {
    assert s.Slot(i, NDIRECT) != 0;
  }

  lemma AllotNew(s: Store, t: Store, own: map<nat, Ref>, fb: nat, i: nat, k: nat)
    requires Allotted(s, own, fb) && fb < SIZE && i < NINODES && k < NSLOT && s.Slot(i, k) == 0
    requires SameShape(s, t) && SlotBecomes(s, t, i, k, fb)
    requires t.disk[0] == Zeros() && forall b: nat | fb <= b < SIZE :: t.disk[b] == s.disk[b]
    ensures Allotted(t, own[fb := Ref(i, k)], fb + 1)
  {
    hide Store.Slot;
    var own' := own[fb := Ref(i, k)];
    forall b | b in own' ensures Owns(t, own'[b], b) {
      if b != fb { assert Owns(s, own[b], b); }
    }
    forall j: nat, l: nat | j < NINODES && l < NSLOT && t.Slot(j, l) != 0
      ensures t.Slot(j, l) in own' && own'[t.Slot(j, l)] == Ref(j, l)
    {
      if j != i || l != k { assert t.Slot(j, l) == s.Slot(j, l); }
    }
  }

  lemma AllotKeepsBytes(s: Store, t: Store, own: map<nat, Ref>, fb: nat, i: nat, k: nat)
    requires Allotted(s, own, fb) && fb < SIZE && i < NINODES && k < NSLOT && s.Slot(i, k) == 0
    requires SameShape(s, t) && SlotBecomes(s, t, i, k, fb)
    requires t.disk[fb] == Zeros()
    requires forall b: nat | b in own && own[b].k != NDIRECT && b < SIZE :: t.disk[b] == s.disk[b]
    ensures SameBytes(s, t)
  {
    hide Store.Slot;
    forall j: nat, p: nat | j < |s.ino| && p < MAXBYTES ensures t.ByteAt(j, p) == s.ByteAt(j, p) {
      var l := BnSlot(p / BSIZE);
      assert t.Slot(j, l) == if j == i && l == k then fb else s.Slot(j, l);
    }
  }

  /** Handing the next block to a direct slot, or as the indirect block of an inode: a new
      indirect block has no entries, because the block is zero. */
  lemma TakeAddr(s: Store, own: map<nat, Ref>, fb: nat, i: nat, k: nat)
    requires Allotted(s, own, fb) && fb < SIZE && i < NINODES && k <= NDIRECT && s.Slot(i, k) == 0
    ensures var t := WithAddr(s, i, k, fb);
            SameShape(s, t) && Allotted(t, own[fb := Ref(i, k)], fb + 1) && SlotBecomes(s, t, i, k, fb)
                && SameBytes(s, t)
  {
    var t := WithAddr(s, i, k, fb);
    TakeAddrSlots(s, i, k, fb);
    hide Store.Slot, Store.ByteAt;
    AllotNew(s, t, own, fb, i, k);
    AllotKeepsBytes(s, t, own, fb, i, k);
  }

  lemma TakeAddrSlots(s: Store, i: nat, k: nat, fb: nat)
    requires s.Wf() && i < |s.ino| && k <= NDIRECT && s.Slot(i, k) == 0 && 0 < fb < |s.disk| && s.disk[fb] == Zeros()
    ensures SameShape(s, WithAddr(s, i, k, fb)) && SlotBecomes(s, WithAddr(s, i, k, fb), i, k, fb)
  {
    var t := WithAddr(s, i, k, fb);
    forall j: nat, l: nat | j < |s.ino| && l < NSLOT
      ensures t.Slot(j, l) == if j == i && l == k then fb else s.Slot(j, l)
    {
      if j == i && k == NDIRECT && l > NDIRECT { assert Word(Zeros(), l - NDIRECT - 1) == 0; }
    }
  }

  /** Handing the next block to an entry of the indirect block. */
  lemma TakeEntry(s: Store, own: map<nat, Ref>, fb: nat, i: nat, k: nat)
    requires Allotted(s, own, fb) && fb < SIZE && i < NINODES && NDIRECT < k < NSLOT && s.Slot(i, k) == 0
    requires s.ino[i].addrs[NDIRECT] != 0
    ensures var a := s.ino[i].addrs[NDIRECT];
            FIRST <= a < fb
            && var t := WithBlock(s, a, PutWord(s.disk[a], k - NDIRECT - 1, fb));
            SameShape(s, t) && Allotted(t, own[fb := Ref(i, k)], fb + 1) && SlotBecomes(s, t, i, k, fb)
                && SameBytes(s, t)
  {
    var a := s.ino[i].addrs[NDIRECT];
    IndirectAllotted(s, own, fb, i);
    var t := WithBlock(s, a, PutWord(s.disk[a], k - NDIRECT - 1, fb));
    forall j: nat, l: nat | j < |s.ino| && l < NSLOT
      ensures t.Slot(j, l) == if j == i && l == k then fb else s.Slot(j, l)
    {
      TakeEntrySlot(s, own, fb, i, k, j, l);
    }
    hide Store.Slot, Store.ByteAt;
    AllotNew(s, t, own, fb, i, k);
    AllotKeepsBytes(s, t, own, fb, i, k);
  }

  lemma TakeEntrySlot(s: Store, own: map<nat, Ref>, fb: nat, i: nat, k: nat, j: nat, l: nat)
    requires Allotted(s, own, fb) && fb < SIZE && i < NINODES && NDIRECT < k < NSLOT && j < NINODES && l < NSLOT
    requires s.ino[i].addrs[NDIRECT] != 0
    ensures var a := s.ino[i].addrs[NDIRECT];
            FIRST <= a < fb
            && WithBlock(s, a, PutWord(s.disk[a], k - NDIRECT - 1, fb)).Slot(j, l)
               == if j == i && l == k then fb else s.Slot(j, l)
  {
    IndirectAllotted(s, own, fb, i);
    if l > NDIRECT && s.ino[j].addrs[NDIRECT] != 0 {
      IndirectAllotted(s, own, fb, j);
      WordOfPutWord(s.disk[s.ino[i].addrs[NDIRECT]], k - NDIRECT - 1, fb, l - NDIRECT - 1);
    }
  }

  /** Writing a block that is neither an indirect block nor unallotted changes no slot. */
  lemma PutBlockSlots(s: Store, own: map<nat, Ref>, fb: nat, b: nat, d: Block)
    requires Allotted(s, own, fb) && 2 <= b < fb && (b in own ==> own[b].k != NDIRECT)
    ensures SameSlots(s, WithBlock(s, b, d)) && Allotted(WithBlock(s, b, d), own, fb)
  {
    var t := WithBlock(s, b, d);
    forall j: nat, l: nat | j < NINODES && l < NSLOT ensures t.Slot(j, l) == s.Slot(j, l) {
      if s.ino[j].addrs[NDIRECT] != 0 { IndirectAllotted(s, own, fb, j); }
    }
    hide Store.Slot;
    forall c | c in own ensures Owns(t, own[c], c) { assert Owns(s, own[c], c); }
  }

  /** Writing file block bn of inode i changes its bytes and no others. */
  lemma PutData(s: Store, own: map<nat, Ref>, fb: nat, i: nat, bn: nat, d: Block)
    requires Allotted(s, own, fb) && i < NINODES && bn < MAXFILE && s.Slot(i, BnSlot(bn)) != 0
    ensures var a := s.Slot(i, BnSlot(bn));
            FIRST <= a < fb
            && var t := WithBlock(s, a, d);
            SameSlots(s, t) && Allotted(t, own, fb)
            && forall j: nat, p: nat | j < NINODES && p < MAXBYTES ::
                 t.ByteAt(j, p) == if j == i && p / BSIZE == bn then d[p % BSIZE] else s.ByteAt(j, p)
  {
    var a := s.Slot(i, BnSlot(bn));
    SlotAllotted(s, own, fb, i, BnSlot(bn));
    PutBlockSlots(s, own, fb, a, d);
    var t := WithBlock(s, a, d);
    hide Store.Slot;
    forall j: nat, p: nat | j < NINODES && p < MAXBYTES
      ensures t.ByteAt(j, p) == if j == i && p / BSIZE == bn then d[p % BSIZE] else s.ByteAt(j, p)
    {
      var l := BnSlot(p / BSIZE);
      assert t.Slot(j, l) == s.Slot(j, l);
      if s.Slot(j, l) == a { assert own[a] == Ref(j, l) == Ref(i, BnSlot(bn)); }
    }
  }

  /** Writing a metadata block changes no byte of any inode. */
  lemma PutMeta(s: Store, own: map<nat, Ref>, fb: nat, b: nat, d: Block)
    requires Allotted(s, own, fb) && 2 <= b < FIRST
    ensures SameSlots(s, WithBlock(s, b, d)) && Allotted(WithBlock(s, b, d), own, fb)
        && SameBytes(s, WithBlock(s, b, d))
  {
    PutBlockSlots(s, own, fb, b, d);
    hide Store.Slot;
    var t := WithBlock(s, b, d);
    forall j: nat, p: nat | j < |s.ino| && p < MAXBYTES ensures t.ByteAt(j, p) == s.ByteAt(j, p) {
      assert t.Slot(j, BnSlot(p / BSIZE)) == s.Slot(j, BnSlot(p / BSIZE));
    }
  }
}
