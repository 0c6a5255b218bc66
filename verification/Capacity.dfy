/** How many links a disk has room for.  Every entry of a directory takes its bytes in a block that nothing else holds,
    so right counts are at most the entries that fit on the disk, and on a small disk they fit in 16 bits. */
module Capacity {
  import opened Common
  import opened Blocks
  import opened Ownership
  import opened Inodes
  import opened FileContents
  import opened Directory
  import opened Paths
  import opened LinkCounts
  import opened Links

  /** The entries in a block. */
  const PERBLOCK: nat := 32

  // --------------------------------------------------------------- names and blocks of one directory

  lemma {:induction false} NamesFit(c: seq<byte>, n: nat)
    requires n <= Count(c)
    ensures |MapOf(c, n).Keys| <= n
  {
    hide Live, NameAt, Inum, Ent;
    if n > 0 {
      NamesFit(c, n - 1);
      if Live(c, n - 1) {
        assert MapOf(c, n).Keys == MapOf(c, n - 1).Keys + {NameAt(c, n - 1)};
      }
    }
  }

  /** The blocks of inode i. */
  ghost function BlocksOf(owner: map<nat, Slot>, i: nat): (r: set<nat>) {
    set b | b in owner && owner[b].i == i
  }

  /** The first n blocks of file i. */
  ghost function FirstBlocks(inodes: seq<Inode>, disk: seq<Block>, i: nat, n: nat): (r: set<nat>)
    requires i < |inodes| && n <= MAXFILE
  {
    if n == 0 then {} else FirstBlocks(inodes, disk, i, n - 1) + {At(inodes, disk, DataSlot(i, n - 1))}
  }

  lemma {:induction false} FirstBlocksHeld(g: Geometry, inodes: seq<Inode>, disk: seq<Block>, owner: map<nat, Slot>,
                                           i: nat, n: nat)
    requires Owned(g, inodes, disk, {}, owner) && i < |inodes| && n <= MAXFILE
    requires forall bn :: 0 <= bn < n ==> At(inodes, disk, DataSlot(i, bn)) != 0
    ensures |FirstBlocks(inodes, disk, i, n)| == n
    ensures forall b :: b in FirstBlocks(inodes, disk, i, n) ==> b in owner && HeldBelow(owner[b], i, n)
  {
    hide Owned, At;
    if n > 0 {
      FirstBlocksHeld(g, inodes, disk, owner, i, n - 1);
      NextHeld(g, inodes, disk, owner, i, n - 1);
    }
  }

  /** The slot of one of the first n blocks of file i. */
  ghost predicate HeldBelow(s: Slot, i: nat, n: nat) {
    s.i == i && (s.Direct? ==> s.k < n) && (s.Entry? ==> NDIRECT + s.k < n)
  }

  lemma NextHeld(g: Geometry, inodes: seq<Inode>, disk: seq<Block>, owner: map<nat, Slot>, i: nat, bn: nat)
    requires Owned(g, inodes, disk, {}, owner) && i < |inodes| && bn < MAXFILE
    requires At(inodes, disk, DataSlot(i, bn)) != 0
    ensures var b := At(inodes, disk, DataSlot(i, bn));
            b in owner && owner[b] == DataSlot(i, bn) && !HeldBelow(owner[b], i, bn) && HeldBelow(owner[b], i, bn + 1)
  {
    hide BlockOk, BitOk, At;
    assert SlotOk(inodes, disk, {}, owner, DataSlot(i, bn));
  }

  /** The first blocks of a file are among its blocks. */
  lemma BlocksCounted(g: Geometry, inodes: seq<Inode>, disk: seq<Block>, owner: map<nat, Slot>, d: nat)
    requires Owned(g, inodes, disk, {}, owner) && d < |inodes| && HoleFree(inodes, disk, d)
    ensures Extent(inodes[d].size) <= |BlocksOf(owner, d)|
  {
    hide Owned, At;
    var n := Extent(inodes[d].size);
    FirstBlocksHeld(g, inodes, disk, owner, d, n);
    SubsetSize(FirstBlocks(inodes, disk, d, n), BlocksOf(owner, d));
  }

  lemma EntriesInBlocks(size: nat)
    ensures size / DESIZE <= PERBLOCK * Extent(size)
  {
  }

  /** A directory has no more names than fit in its blocks. */
  lemma NamesInBlocks(g: Geometry, inodes: seq<Inode>, disk: seq<Block>, owner: map<nat, Slot>, d: nat)
    requires Owned(g, inodes, disk, {}, owner) && Tree(inodes, disk) && d < |inodes| && inodes[d].size <= MAXBYTES
    ensures |DirOf(inodes, disk, d).Keys| <= PERBLOCK * |BlocksOf(owner, d)|
  {
    hide Owned, Content, MapOf, HoleFree, Extent, BlocksOf, Unique, Whole;
    if inodes[d].kind == T_DIR {
      assert DirOk(inodes, disk, d);
      var c := Content(inodes, disk, d);
      NamesFit(c, Count(c));
      BlocksCounted(g, inodes, disk, owner, d);
      EntriesInBlocks(inodes[d].size);
    }
  }

  // --------------------------------------------------------------- all of them

  ghost function BlocksUpto(owner: map<nat, Slot>, k: nat): (r: set<nat>) {
    set b | b in owner && owner[b].i < k
  }

  lemma UptoMore(owner: map<nat, Slot>, k: nat)
    ensures |BlocksUpto(owner, k + 1)| == |BlocksUpto(owner, k)| + |BlocksOf(owner, k)|
  {
    assert BlocksUpto(owner, k + 1) == BlocksUpto(owner, k) + BlocksOf(owner, k);
  }

  lemma PartFits(m: map<Name, nat>, v: int, x: nat)
    ensures Part(m, v, x) <= |m.Keys|
  {
    SubsetSize(Naming(m, x), m.Keys);
  }

  lemma {:induction false} LinksUpto(g: Geometry, inodes: seq<Inode>, disk: seq<Block>, owner: map<nat, Slot>, x: nat,
                                     k: nat)
    requires && Owned(g, inodes, disk, {}, owner) && Tree(inodes, disk) && Sized(inodes) && ROOT < |inodes|
             && k <= |inodes|
    ensures Upto(GraphOf(inodes, disk), x, k) <= PERBLOCK * |BlocksUpto(owner, k)|
  {
    hide Owned, Tree, DirOf, Part, BlocksUpto, BlocksOf;
    var gr := GraphOf(inodes, disk);
    if k > 0 {
      LinksUpto(g, inodes, disk, owner, x, k - 1);
      assert gr.dirs[k - 1] == DirOf(inodes, disk, k - 1);
      PartFits(gr.dirs[k - 1], gr.nl[k - 1], x);
      NamesInBlocks(g, inodes, disk, owner, k - 1);
      UptoMore(owner, k - 1);
    }
  }

  lemma UptoRoom(g: Geometry, inodes: seq<Inode>, disk: seq<Block>, owner: map<nat, Slot>, k: nat)
    requires Owned(g, inodes, disk, {}, owner)
    ensures |BlocksUpto(owner, k)| <= g.size - g.data
  {
    hide Owned;
    SubsetSize(BlocksUpto(owner, k), owner.Keys);
    assert |owner.Keys| == |owner|;
    RoomIs(g, inodes, disk, {}, owner);
  }

  /** Right counts are at most the entries that fit in the data area. */
  lemma LinksFit(g: Geometry, inodes: seq<Inode>, disk: seq<Block>, owner: map<nat, Slot>, x: nat)
    requires Owned(g, inodes, disk, {}, owner) && Tree(inodes, disk) && Sized(inodes) && x < |inodes|
    requires Good(GraphOf(inodes, disk))
    ensures 0 <= inodes[x].nlink <= PERBLOCK * (g.size - g.data)
  {
    hide Owned, Tree, DirOf, Good, Upto, BlocksUpto, DirsOf;
    var gr := GraphOf(inodes, disk);
    GoodShape(gr);
    assert |gr.nl| == |inodes| && gr.nl[x] == inodes[x].nlink;
    GoodCount(gr, x);
    LinksUpto(g, inodes, disk, owner, x, |inodes|);
    UptoRoom(g, inodes, disk, owner, |inodes|);
  }
}
