/** The 64-byte inode records that the image builder writes, eight to a block. */
module MkfsRecord {
  import opened FsLayout
  import opened FsStore

  const USHORT: nat := 0x1_0000

  datatype DInode = DInode(typ: nat, major: nat, minor: nat, nlink: nat, size: nat, addrs: Addrs)

  predicate InRange(d: DInode) {
    d.typ < USHORT && d.major < USHORT && d.minor < USHORT && d.nlink < USHORT && d.size < UINT
  }

  /** Word w of the record. */
  function RecordWord(d: DInode, w: nat): (r: nat)
    requires InRange(d) && w < 16
    ensures r < UINT
  {
    if w == 0 then d.typ + USHORT * d.major
    else if w == 1 then d.minor + USHORT * d.nlink
    else if w == 2 then d.size
    else d.addrs[w - 3]
  }

  /** Record j of a block of inodes. */
  function ReadRecord(b: Block, j: nat): DInode
    requires j < IPB
  {
    var w0, w1 := Word(b, 16 * j), Word(b, 16 * j + 1);
    WordInRange(b);
    DInode(w0 % USHORT, w0 / USHORT, w1 % USHORT, w1 / USHORT, Word(b, 16 * j + 2),
           seq(13, k requires 0 <= k < 13 => Word(b, 16 * j + 3 + k)))
  }

  lemma WordInRange(b: Block)
    ensures forall k: nat | k < NINDIRECT :: Word(b, k) < UINT
  {}

  /** Writes record j of a block of inodes, word by word. */
  method WriteRecord(b: Block, j: nat, d: DInode) returns (r: Block)
    requires j < IPB && InRange(d)
    ensures ReadRecord(r, j) == d
    ensures forall i: nat | i < IPB && i != j :: ReadRecord(r, i) == ReadRecord(b, i)
  {
    r := b;
    var w := 0;
    while w < 16
      invariant w <= 16
      invariant forall k: nat | k < NINDIRECT ::
                  Word(r, k) == if 16 * j <= k < 16 * j + w then RecordWord(d, k - 16 * j) else Word(b, k)
    {
      var s := r;
      r := PutWord(s, 16 * j + w, RecordWord(d, w));
      forall k: nat | k < NINDIRECT
        ensures Word(r, k) == if 16 * j <= k < 16 * j + (w + 1) then RecordWord(d, k - 16 * j) else Word(b, k)
      {
        WordOfPutWord(s, 16 * j + w, RecordWord(d, w), k);
      }
      w := w + 1;
    }
    RecordWritten(b, r, j, d);
  }

  lemma RecordWritten(b: Block, r: Block, j: nat, d: DInode)
    requires j < IPB && InRange(d)
    requires forall k: nat | k < NINDIRECT ::
               Word(r, k) == if 16 * j <= k < 16 * j + 16 then RecordWord(d, k - 16 * j) else Word(b, k)
    ensures ReadRecord(r, j) == d
    ensures forall i: nat | i < IPB && i != j :: ReadRecord(r, i) == ReadRecord(b, i)
  {
    hide Word;
    RecordThere(r, j, d);
    forall i: nat | i < IPB && i != j ensures ReadRecord(r, i) == ReadRecord(b, i) {
      RecordSame(b, r, i);
    }
  }

  lemma RecordThere(r: Block, j: nat, d: DInode)
    requires j < IPB && InRange(d) && forall k: nat | 16 * j <= k < 16 * j + 16 ::
        Word(r, k) == RecordWord(d, k - 16 * j)
    ensures ReadRecord(r, j) == d
  {
    hide Word;
    var e := ReadRecord(r, j);
    assert Word(r, 16 * j) == RecordWord(d, 0) && Word(r, 16 * j + 1) == RecordWord(d, 1);
    forall k: nat | k < 13 ensures e.addrs[k] == d.addrs[k] {
      assert Word(r, 16 * j + 3 + k) == RecordWord(d, 3 + k);
    }
    assert e.addrs == d.addrs;
  }

  lemma RecordSame(b: Block, r: Block, i: nat)
    requires i < IPB && forall k: nat | 16 * i <= k < 16 * i + 16 :: Word(r, k) == Word(b, k)
    ensures ReadRecord(r, i) == ReadRecord(b, i)
  {
    hide Word;
    forall k: nat | k < 13 ensures ReadRecord(r, i).addrs[k] == ReadRecord(b, i).addrs[k] {
      assert Word(r, 16 * i + 3 + k) == Word(b, 16 * i + 3 + k);
    }
    assert ReadRecord(r, i).addrs == ReadRecord(b, i).addrs;
  }
}
