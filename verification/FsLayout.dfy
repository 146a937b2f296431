/** The on-disk layout of the file system: bytes, little-endian words, and the bits of the
    block bitmap. */
module FsLayout {
  const BSIZE: nat := 512       // bytes in a block
  const BPB: nat := 4096        // bitmap bits in a block
  const IPB: nat := 8           // inodes in a block
  const NDIRECT: nat := 12      // direct addresses of an inode
  const NINDIRECT: nat := 128   // addresses in an indirect block
  const MAXFILE: nat := 140     // blocks a file can have
  const MAXBYTES: nat := 71680  // bytes a file can have
  const NSLOT: nat := 141       // addresses of a file: direct, the indirect block, and its entries
  const UINT: nat := 0x1_0000_0000

  const T_DIR := 1
  const T_FILE := 2
  const T_DEV := 3

  type byte = x: int | 0 <= x < 256
  type Block = s: seq<byte> | |s| == 512 witness seq(512, _ => 0)

  function Zeros(): Block { seq(512, _ => 0) }

  /** The slot that holds the address of file block bn: the indirect block takes slot 12. */
  function BnSlot(bn: nat): nat { if bn < NDIRECT then bn else bn + 1 }

  // ----- uint words in a block -----

  /** The kth uint of a block, least significant byte first. */
  function Word(b: Block, k: nat): nat
    requires k < NINDIRECT
  {
    var b0: int, b1: int, b2: int, b3: int := b[4*k], b[4*k+1], b[4*k+2], b[4*k+3];
    b0 + 256 * (b1 + 256 * (b2 + 256 * b3))
  }

  function PutWord(b: Block, k: nat, w: nat): Block
    requires k < NINDIRECT && w < UINT
  {
    var w1 := w / 256;
    var w2 := w1 / 256;
    b[4*k := w % 256][4*k+1 := w1 % 256][4*k+2 := w2 % 256][4*k+3 := w2 / 256]
  }

  /** Storing a word changes that word and no other. */
  lemma WordOfPutWord(b: Block, k: nat, w: nat, j: nat)
    requires k < NINDIRECT && j < NINDIRECT && w < UINT
    ensures Word(PutWord(b, k, w), j) == if j == k then w else Word(b, j)
  {
    if j < k { assert 4*j+3 < 4*k; }
    if j > k { assert 4*k+3 < 4*j; }
  }

  // ----- bits in a byte -----

  /** `d & (1 << k)` is not zero. */
  predicate Bit(d: nat, k: nat) {
    if k == 0 then d % 2 == 1 else Bit(d / 2, k - 1)
  }

  /** `d | (1 << k)` */
  function SetBit(d: nat, k: nat): (r: nat)
    ensures forall n | k < n && d < Pow2(n) :: r < Pow2(n)
  {
    if k == 0 then d / 2 * 2 + 1 else
      assert forall n | k < n && d < Pow2(n) :: k - 1 < n - 1 && d / 2 < Pow2(n - 1);
      2 * SetBit(d / 2, k - 1) + d % 2
  }

  /** `d & ~(1 << k)` */
  function ClearBit(d: nat, k: nat): (r: nat)
    ensures r <= d
  {
    if k == 0 then d / 2 * 2 else 2 * ClearBit(d / 2, k - 1) + d % 2
  }

  function Pow2(n: nat): nat {
    if n == 0 then 1 else 2 * Pow2(n - 1)
  }

  lemma Halves(x: nat, b: nat)
    requires b < 2
    ensures (2 * x + b) / 2 == x && (2 * x + b) % 2 == b
  {}

  lemma {:induction false} BitOfSetBit(d: nat, k: nat, j: nat)
    ensures Bit(SetBit(d, k), j) <==> j == k || Bit(d, j)
  {
    if k == 0 { Halves(d / 2, 1); } else { Halves(SetBit(d / 2, k - 1), d % 2); }
    if k > 0 && j > 0 { BitOfSetBit(d / 2, k - 1, j - 1); }
  }

  lemma {:induction false} BitOfClearBit(d: nat, k: nat, j: nat)
    ensures Bit(ClearBit(d, k), j) <==> j != k && Bit(d, j)
  {
    if k == 0 { Halves(d / 2, 0); } else { Halves(ClearBit(d / 2, k - 1), d % 2); }
    if k > 0 && j > 0 { BitOfClearBit(d / 2, k - 1, j - 1); }
  }

  /** The bit operations of a byte yield a byte. */
  lemma ByteBits(d: byte, k: nat)
    requires k < 8
    ensures SetBit(d, k) < 256 && ClearBit(d, k) < 256
  {
    assert Pow2(8) == 256;
    assert SetBit(d, k) < Pow2(8);
  }
}
