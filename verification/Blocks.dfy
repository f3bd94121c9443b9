/** A disk block as bytes, and the same bytes read as little-endian 32-bit words. */
module Blocks {

  type Byte = x: int | 0 <= x < 256

  const BLKSIZE: nat := 4096
  const NINDIRECT: nat := 1024

  type Block = b: seq<Byte> | |b| == BLKSIZE witness seq(BLKSIZE, _ => 0)

  function Load(b: Block, i: nat): (w: nat)
    requires i < NINDIRECT
    ensures w < 0x1_0000_0000
  {
    var b0: int, b1: int, b2: int, b3: int := b[4 * i], b[4 * i + 1], b[4 * i + 2], b[4 * i + 3];
    b0 + 0x100 * b1 + 0x1_0000 * b2 + 0x100_0000 * b3
  }

  function Store(b: Block, i: nat, w: nat): Block
    requires i < NINDIRECT && w < 0x1_0000_0000
  {
    b[4 * i := w % 0x100][4 * i + 1 := w / 0x100 % 0x100]
     [4 * i + 2 := w / 0x1_0000 % 0x100][4 * i + 3 := w / 0x100_0000]
  }

  lemma Digits(w: nat)
    requires w < 0x1_0000_0000
    ensures w == w % 0x100 + 0x100 * (w / 0x100 % 0x100)
                 + 0x1_0000 * (w / 0x1_0000 % 0x100) + 0x100_0000 * (w / 0x100_0000)
  {
    assert w / 0x1_0000 == w / 0x100 / 0x100 && w / 0x100_0000 == w / 0x1_0000 / 0x100;
  }

  /** A stored word reads back, and every other word of the block is as it was. */
  lemma LoadStore(b: Block, i: nat, w: nat, j: nat)
    requires i < NINDIRECT && j < NINDIRECT && w < 0x1_0000_0000
    ensures Load(Store(b, i, w), j) == if i == j then w else Load(b, j)
  {
    if i == j {
      Digits(w);
    } else {
      var b' := Store(b, i, w);
      assert b'[4 * j] == b[4 * j] && b'[4 * j + 1] == b[4 * j + 1];
      assert b'[4 * j + 2] == b[4 * j + 2] && b'[4 * j + 3] == b[4 * j + 3];
    }
  }

  function Zero(): Block { seq(BLKSIZE, _ => 0) }

  lemma LoadZero(i: nat)
    requires i < NINDIRECT
    ensures Load(Zero(), i) == 0
  {}

  /** memmove of data into a block, at an offset. */
  function Patch(b: Block, at: nat, data: seq<Byte>): Block
    requires at + |data| <= BLKSIZE
  {
    b[..at] + data + b[at + |data|..]
  }
}
