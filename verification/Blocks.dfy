/**
  Disk blocks: 512 bytes, also read as 128 little-endian 32-bit words (the log
  header and the indirect blocks are laid out that way).
 */
module Blocks {
  import opened Common

  const BSIZE: nat := 512
  const WORDS: nat := 128

  type Block = b: seq<byte> | |b| == BSIZE witness seq(BSIZE, i => 0)

  /** The block that memset(data, 0, BSIZE) leaves. */
  function Zeros(): (b: Block)
    ensures forall k :: 0 <= k < BSIZE ==> b[k] == 0
  {
    seq(BSIZE, i => 0)
  }

  /** The four bytes at index i, least significant first. */
  function Word(b: Block, i: nat): (w: uint32)
    requires i < WORDS
  {
    var b0: int, b1: int, b2: int, b3: int := b[4 * i], b[4 * i + 1], b[4 * i + 2], b[4 * i + 3];
    b0 + 0x100 * b1 + 0x1_0000 * b2 + 0x100_0000 * b3
  }

  function PutWord(b: Block, i: nat, w: uint32): (r: Block)
    requires i < WORDS
  {
    b[4 * i := w % 0x100]
     [4 * i + 1 := w / 0x100 % 0x100]
     [4 * i + 2 := w / 0x1_0000 % 0x100]
     [4 * i + 3 := w / 0x100_0000]
  }

  lemma SplitWord(w: uint32)
    ensures w == w % 0x100 + 0x100 * (w / 0x100 % 0x100)
                 + 0x1_0000 * (w / 0x1_0000 % 0x100) + 0x100_0000 * (w / 0x100_0000)
  {
    var b, c := w / 0x100, w / 0x1_0000;
    assert c == b / 0x100;
    assert w / 0x100_0000 == c / 0x100;
  }

  /** Storing a word is read back, and leaves every other word alone. */
  lemma WordAfterPut(b: Block, i: nat, w: uint32, j: nat)
    requires i < WORDS && j < WORDS
    ensures Word(PutWord(b, i, w), j) == if i == j then w else Word(b, j)
  {
    if i == j {
      SplitWord(w);
    }
  }

  /** Every word of the zero block is 0. */
  lemma WordOfZeros(i: nat)
    requires i < WORDS
    ensures Word(Zeros(), i) == 0
  {
  }
}
