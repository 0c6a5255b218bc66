/**
  What several models share: optional values, machine words, the parameters of the log (param.h) and the memory layout
  (memlayout.h, mmu.h).
 */
module Common {
  datatype Option<+T> = None | Some(value: T)

  type byte = x: int | 0 <= x < 256
  type uint32 = x: int | 0 <= x < 0x1_0000_0000

  const UINT_LIMIT: nat := 0x1_0000_0000

  /** A 32-bit word as an int. */
  function AsInt(w: int): (r: int)
    requires 0 <= w < UINT_LIMIT
    ensures -0x8000_0000 <= r < 0x8000_0000 && (r == w || r == w - UINT_LIMIT)
  {
    if w < 0x8000_0000 then w else w - UINT_LIMIT
  }

  const MAXOPBLOCKS: nat := 10
  const LOGSIZE: nat := 30

  const PGSIZE: nat := 4096
  const EXTMEM: nat := 0x10_0000
  const PHYSTOP: nat := 0xE00_0000
  const HEAPLIMIT: nat := 0x7F00_0000
  const KERNBASE: nat := 0x8000_0000

  lemma SubsetSize<T>(a: set<T>, b: set<T>)
    requires a <= b
    ensures |a| <= |b|
  {
    assert b == a + (b - a);
  }
}
