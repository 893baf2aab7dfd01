/** Disk blocks as bytes, and the little-endian 32-bit words stored in them. */
module Blocks {
  import Common

  const BSIZE: nat := 1024
  const WORDS: nat := 256         // BSIZE / sizeof(uint)
  const UINT_LIMIT: nat := 0x1_0000_0000

  type Byte = Common.Byte
  type Word = x: int | 0 <= x < UINT_LIMIT
  type Block = b: seq<Byte> | |b| == BSIZE witness seq(BSIZE, _ => 0)
  type Disk = seq<Block>

  function ZeroBlock(): Block {
    seq(BSIZE, _ => 0)
  }

  /** The j-th uint of a block, as the kernel reads it through a (uint*) cast. */
  function GetWord(b: Block, j: nat): Word
    requires j < WORDS
  {
    (b[4 * j] as int) + 0x100 * (b[4 * j + 1] as int) + 0x1_0000 * (b[4 * j + 2] as int)
    + 0x100_0000 * (b[4 * j + 3] as int)
  }

  /** The block after the kernel stores v into its j-th uint. */
  function PutWord(b: Block, j: nat, v: Word): Block
    requires j < WORDS
  {
    b[4 * j := v % 0x100][4 * j + 1 := v / 0x100 % 0x100]
     [4 * j + 2 := v / 0x1_0000 % 0x100][4 * j + 3 := v / 0x100_0000]
  }

  lemma PutGetSame(b: Block, j: nat, v: Word)
    requires j < WORDS
    ensures GetWord(PutWord(b, j, v), j) == v
  {
    Digits(v);
  }

  lemma Digits(v: Word)
    ensures v % 0x100 + 0x100 * (v / 0x100 % 0x100) + 0x1_0000 * (v / 0x1_0000 % 0x100)
            + 0x100_0000 * (v / 0x100_0000) == v
  {
    var a := v / 0x100;
    var b := a / 0x100;
    assert b == v / 0x1_0000;
    assert b / 0x100 == v / 0x100_0000;
  }

  lemma PutGetOther(b: Block, j: nat, v: Word, k: nat)
    requires j < WORDS && k < WORDS && j != k
    ensures GetWord(PutWord(b, j, v), k) == GetWord(b, k)
  {
  }

  lemma ZeroWords(j: nat)
    requires j < WORDS
    ensures GetWord(ZeroBlock(), j) == 0
  {
  }
}
