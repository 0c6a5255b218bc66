/**
  The free bit map (fs.c): bit b % BPB of map block b / BPB is set when block b is in use.
 */
module FreeMap {
  import opened Blocks

  /** Bitmap bits per block. */
  const BPB: nat := 4096

  /** 1 << k */
  function Mask(k: nat): (m: nat)
    ensures m >= 1
  {
    if k == 0 then 1 else 2 * Mask(k - 1)
  }

  /** x & (1 << k) is not 0 */
  predicate Bit(x: nat, k: nat) {
    if k == 0 then x % 2 == 1 else Bit(x / 2, k - 1)
  }

  /** Or-ing a clear bit in sets that bit only, and stays within the word. */
  lemma {:induction false} SetBit(x: nat, k: nat, j: nat)
    requires !Bit(x, k)
    ensures Bit(x + Mask(k), j) <==> j == k || Bit(x, j)
  {
    if k > 0 && j > 0 {
      assert (x + Mask(k)) / 2 == x / 2 + Mask(k - 1);
      SetBit(x / 2, k - 1, j - 1);
    } else if k > 0 {
      assert (x + 2 * Mask(k - 1)) % 2 == x % 2;
    } else if j > 0 {
      assert (x + 1) / 2 == x / 2;
    }
  }

  lemma {:induction false} SetBitFits(x: nat, k: nat, n: nat)
    requires !Bit(x, k) && k < n && x < Mask(n)
    ensures x + Mask(k) < Mask(n)
  {
    if k > 0 {
      SetBitFits(x / 2, k - 1, n - 1);
    } else {
      assert Mask(n) % 2 == 0;
    }
  }

  /** Masking a set bit out clears that bit only. */
  lemma {:induction false} ClearBit(x: nat, k: nat, j: nat)
    requires Bit(x, k)
    ensures x >= Mask(k) && (Bit(x - Mask(k), j) <==> j != k && Bit(x, j))
  {
    if k > 0 {
      ClearBit(x / 2, k - 1, if j > 0 then j - 1 else 0);
      assert (x - Mask(k)) / 2 == x / 2 - Mask(k - 1);
      assert (x - 2 * Mask(k - 1)) % 2 == x % 2;
    } else if j > 0 {
      assert (x - 1) / 2 == x / 2;
    }
  }

  lemma MaskEight()
    ensures Mask(8) == 256
  {
    assert Mask(4) == 16;
    assert Mask(6) == 64;
  }

  /** The bit of block b in the map that starts at block start. */
  predicate Used(disk: seq<Block>, start: nat, b: nat)
    requires start + b / BPB < |disk|
  {
    Bit(disk[start + b / BPB][b % BPB / 8], b % BPB % 8)
  }

  /** The map block with bit bi set, if it was clear. */
  function SetIn(bp: Block, bi: nat): (r: Block)
    requires bi < BPB && !Bit(bp[bi / 8], bi % 8)
  {
    SetBitFits(bp[bi / 8], bi % 8, 8);
    MaskEight();
    bp[bi / 8 := bp[bi / 8] + Mask(bi % 8)]
  }

  /** The map block with bit bi cleared, if it was set. */
  function ClearIn(bp: Block, bi: nat): (r: Block)
    requires bi < BPB && Bit(bp[bi / 8], bi % 8)
  {
    ClearBit(bp[bi / 8], bi % 8, 0);
    bp[bi / 8 := bp[bi / 8] - Mask(bi % 8)]
  }

  lemma SetInBit(bp: Block, bi: nat, bj: nat)
    requires bi < BPB && bj < BPB && !Bit(bp[bi / 8], bi % 8)
    ensures Bit(SetIn(bp, bi)[bj / 8], bj % 8) <==> bj == bi || Bit(bp[bj / 8], bj % 8)
  {
    SetBit(bp[bi / 8], bi % 8, bj % 8);
  }

  lemma ClearInBit(bp: Block, bi: nat, bj: nat)
    requires bi < BPB && bj < BPB && Bit(bp[bi / 8], bi % 8)
    ensures Bit(ClearIn(bp, bi)[bj / 8], bj % 8) <==> bj != bi && Bit(bp[bj / 8], bj % 8)
  {
    ClearBit(bp[bi / 8], bi % 8, bj % 8);
  }

  /** Setting the bit of b marks b in use and nothing else. */
  lemma SetUsed(disk: seq<Block>, start: nat, b: nat, c: nat)
    requires start + b / BPB < |disk| && start + c / BPB < |disk| && !Used(disk, start, b)
    ensures Used(disk[start + b / BPB := SetIn(disk[start + b / BPB], b % BPB)], start, c) <==>
              c == b || Used(disk, start, c)
  {
    hide Bit, SetIn;
    if b / BPB == c / BPB {
      SetInBit(disk[start + b / BPB], b % BPB, c % BPB);
    }
  }

  /** Clearing the bit of b marks b free and nothing else. */
  lemma ClearUsed(disk: seq<Block>, start: nat, b: nat, c: nat)
    requires start + b / BPB < |disk| && start + c / BPB < |disk| && Used(disk, start, b)
    ensures Used(disk[start + b / BPB := ClearIn(disk[start + b / BPB], b % BPB)], start, c) <==>
              c != b && Used(disk, start, c)
  {
    hide Bit, ClearIn;
    if b / BPB == c / BPB {
      ClearInBit(disk[start + b / BPB], b % BPB, c % BPB);
    }
  }
}
