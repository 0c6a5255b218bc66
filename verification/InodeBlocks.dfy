/**
  The bytes of inode blocks (fs.h): eight dinodes of 64 bytes, each four 16-bit fields, the size and the block numbers.
 */
module InodeBlocks {
  import opened Common
  import opened Blocks
  import opened Ownership

  /** 32-bit words of a dinode. */
  const INODE_WORDS: nat := 16

  /** The 16 bits of a short, and back. */
  function Half(x: int): (h: nat)
    ensures h < 0x1_0000
  {
    x % 0x1_0000
  }

  function Signed(h: nat): (x: int)
    requires h < 0x1_0000
  {
    if h < 0x8000 then h else h - 0x1_0000
  }

  predicate Short(x: int) {
    -0x8000 <= x < 0x8000
  }

  /** The fields that are shorts fit in 16 bits. */
  predicate Shorts(x: Inode) {
    Short(x.kind) && Short(x.major) && Short(x.minor) && Short(x.nlink)
  }

  function InodeWords(x: Inode): (ws: seq<uint32>)
    ensures |ws| == INODE_WORDS
  {
    var w0: uint32, w1: uint32 := Half(x.kind) + 0x1_0000 * Half(x.major), Half(x.minor) + 0x1_0000 * Half(x.nlink);
    [w0, w1, x.size] + x.addrs
  }

  /** The words stored from word at on. */
  function PutWords(b: Block, at: nat, ws: seq<uint32>): (r: Block)
    requires at + |ws| <= WORDS
  {
    if ws == [] then b else PutWord(PutWords(b, at, ws[..|ws| - 1]), at + |ws| - 1, ws[|ws| - 1])
  }

  lemma {:induction false} WordAfterPuts(b: Block, at: nat, ws: seq<uint32>, j: nat)
    requires at + |ws| <= WORDS && j < WORDS
    ensures Word(PutWords(b, at, ws), j) == if at <= j < at + |ws| then ws[j - at] else Word(b, j)
  {
    hide Word, PutWord;
    if ws != [] {
      var k := |ws| - 1;
      WordAfterPuts(b, at, ws[..k], j);
      WordAfterPut(PutWords(b, at, ws[..k]), at + k, ws[k], j);
    }
  }

  /** iupdate()'s store of inode number k of a block. */
  function PutInode(b: Block, k: nat, x: Inode): (r: Block)
    requires k < IPB
  {
    PutWords(b, INODE_WORDS * k, InodeWords(x))
  }

  /** Word i of inode number k of a block. */
  function InodeWord(b: Block, k: nat, i: nat): (w: uint32)
    requires k < IPB && i < INODE_WORDS
  {
    Word(b, INODE_WORDS * k + i)
  }

  function GetAddrs(b: Block, k: nat): (a: Addrs)
    requires k < IPB
    ensures forall j :: 0 <= j < NDIRECT + 1 ==> a[j] == InodeWord(b, k, j + 3)
  {
    var a: seq<uint32> := seq(NDIRECT + 1, j requires 0 <= j < NDIRECT + 1 => InodeWord(b, k, j + 3));
    a
  }

  /** ilock()'s load of inode number k of a block. */
  function GetInode(b: Block, k: nat): (x: Inode)
    requires k < IPB
  {
    var w0, w1 := InodeWord(b, k, 0), InodeWord(b, k, 1);
    Inode(Signed(w0 % 0x1_0000), Signed(w0 / 0x1_0000), Signed(w1 % 0x1_0000), Signed(w1 / 0x1_0000),
          InodeWord(b, k, 2), GetAddrs(b, k))
  }

  lemma HalfRoundTrip(x: int, y: int)
    requires Short(x) && Short(y)
    ensures var w := Half(x) + 0x1_0000 * Half(y);
            w < UINT_LIMIT && Signed(w % 0x1_0000) == x && Signed(w / 0x1_0000) == y
  {
  }

  /** Two and four bytes of a block, least significant first. */
  ghost function ShortAt(b: Block, p: nat): (h: int)
    requires p + 2 <= BSIZE
  {
    b[p] as int + 0x100 * b[p + 1] as int
  }

  /** Where the fields of a struct dinode lie: type, major, minor and nlink in the first eight bytes, then the size,
      then the block numbers. */
  lemma InodeLayout(b: Block, k: nat, x: Inode, j: nat)
    requires k < IPB && Shorts(x) && j < NDIRECT + 1
    ensures var r, p := PutInode(b, k, x), 64 * k;
            && ShortAt(r, p) == x.kind % 0x1_0000 && ShortAt(r, p + 2) == x.major % 0x1_0000
            && ShortAt(r, p + 4) == x.minor % 0x1_0000 && ShortAt(r, p + 6) == x.nlink % 0x1_0000
            && ShortAt(r, p + 8) + 0x1_0000 * ShortAt(r, p + 10) == x.size
            && ShortAt(r, p + 12 + 4 * j) + 0x1_0000 * ShortAt(r, p + 14 + 4 * j) == x.addrs[j]
  {
    hide PutWords, PutWord, Word, ShortAt;
    var r, ws, p := PutInode(b, k, x), InodeWords(x), INODE_WORDS * k;
    WordAfterPuts(b, p, ws, p);
    WordAfterPuts(b, p, ws, p + 1);
    WordAfterPuts(b, p, ws, p + 2);
    WordAfterPuts(b, p, ws, p + 3 + j);
    WordBytes(r, p);
    WordBytes(r, p + 1);
    WordBytes(r, p + 2);
    WordBytes(r, p + 3 + j);
    assert ws[3 + j] == x.addrs[j];
  }

  lemma WordBytes(b: Block, i: nat)
    requires i < WORDS
    ensures Word(b, i) == ShortAt(b, 4 * i) + 0x1_0000 * ShortAt(b, 4 * i + 2)
    ensures 0 <= ShortAt(b, 4 * i) < 0x1_0000 && 0 <= ShortAt(b, 4 * i + 2) < 0x1_0000
  {
  }

  /** An inode stored is read back, and the other seven of the block are as before. */
  lemma InodeAfterPut(b: Block, k: nat, x: Inode, j: nat)
    requires k < IPB && j < IPB && Shorts(x)
    ensures GetInode(PutInode(b, k, x), j) == if j == k then x else GetInode(b, j)
  {
    hide Word, PutWords, Half, Signed;
    var b', ws := PutInode(b, k, x), InodeWords(x);
    forall i | 0 <= i < INODE_WORDS ensures InodeWord(b', j, i) == if j == k then ws[i] else InodeWord(b, j, i) {
      WordAfterPuts(b, INODE_WORDS * k, ws, INODE_WORDS * j + i);
    }
    hide InodeWord, InodeWords;
    SameInode(b, b', k, x, j);
  }

  lemma SameInode(b: Block, b': Block, k: nat, x: Inode, j: nat)
    requires k < IPB && j < IPB && Shorts(x)
    requires forall i ::
               0 <= i < INODE_WORDS ==> InodeWord(b', j, i) == if j == k then InodeWords(x)[i] else InodeWord(b, j, i)
    ensures GetInode(b', j) == if j == k then x else GetInode(b, j)
  {
    hide InodeWord, GetAddrs, Half, Signed;
    HalfRoundTrip(x.kind, x.major);
    HalfRoundTrip(x.minor, x.nlink);
    assert InodeWord(b', j, 0) == if j == k then InodeWords(x)[0] else InodeWord(b, j, 0);
    assert InodeWord(b', j, 1) == if j == k then InodeWords(x)[1] else InodeWord(b, j, 1);
    assert InodeWord(b', j, 2) == if j == k then InodeWords(x)[2] else InodeWord(b, j, 2);
    forall i | 0 <= i < NDIRECT + 1 ensures GetAddrs(b', j)[i] == if j == k then x.addrs[i] else GetAddrs(b, j)[i] {
      assert InodeWord(b', j, i + 3) == if j == k then InodeWords(x)[i + 3] else InodeWord(b, j, i + 3);
    }
    assert GetAddrs(b', j) == if j == k then x.addrs else GetAddrs(b, j);
  }

  /** The inodes from first on stored in the first n places of a block. */
  ghost function PutInodes(b: Block, dinodes: seq<Inode>, first: nat, n: nat): (r: Block)
    requires n <= IPB
  {
    if n == 0 then b
    else
      var c := PutInodes(b, dinodes, first, n - 1);
      if first + n - 1 < |dinodes| then PutInode(c, n - 1, dinodes[first + n - 1]) else c
  }

  lemma {:induction false} InodesAfterPut(b: Block, dinodes: seq<Inode>, first: nat, n: nat, k: nat)
    requires k < n <= IPB && first + k < |dinodes| && forall i :: 0 <= i < |dinodes| ==> Shorts(dinodes[i])
    ensures GetInode(PutInodes(b, dinodes, first, n), k) == dinodes[first + k]
  {
    hide PutInode, GetInode;
    var c := PutInodes(b, dinodes, first, n - 1);
    if k < n - 1 {
      InodesAfterPut(b, dinodes, first, n - 1, k);
    }
    if first + n - 1 < |dinodes| {
      InodeAfterPut(c, n - 1, dinodes[first + n - 1], k);
    }
  }

  lemma {:induction false} PutInodesSame(b: Block, dinodes: seq<Inode>, dinodes': seq<Inode>, first: nat, n: nat)
    requires n <= IPB && |dinodes'| == |dinodes|
    requires forall i :: first <= i < first + n && i < |dinodes| ==> dinodes'[i] == dinodes[i]
    ensures PutInodes(b, dinodes', first, n) == PutInodes(b, dinodes, first, n)
  {
    hide PutInode;
    if n > 0 {
      PutInodesSame(b, dinodes, dinodes', first, n - 1);
    }
  }
}
