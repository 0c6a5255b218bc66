/**
  Who holds which disk block (fs.c): an inode's direct slots, its indirect block, and the entries of that block.
  The ownership invariant says that every slot's block is held by that slot alone and that the free bit map marks
  exactly the held blocks, besides the blocks before the data area.
 */
module Ownership {
  import opened Common
  import opened Blocks
  import opened FreeMap

  const NDIRECT: nat := 12
  const NINDIRECT: nat := 128
  const MAXFILE: nat := 140

  type Addrs = s: seq<uint32> | |s| == NDIRECT + 1 witness seq(NDIRECT + 1, _ => 0)

  /** The fields of an inode that live on disk; kind 0 is a free inode. */
  datatype Inode = Inode(kind: int, major: int, minor: int, nlink: int, size: uint32, addrs: Addrs)

  /** The superblock; data is the first block after the bit map. */
  datatype Geometry = Geometry(size: nat, ninodes: nat, inodestart: nat, bmapstart: nat, data: nat)

  const IPB: nat := 8

  ghost predicate Sound(g: Geometry) {
    && 1 < g.inodestart && g.inodestart + g.ninodes / IPB < g.bmapstart
    && g.bmapstart + g.size / BPB < g.data <= g.size < UINT_LIMIT
  }

  datatype Slot = Direct(i: nat, k: nat) | Top(i: nat) | Entry(i: nat, k: nat)

  predicate IsSlot(inodes: seq<Inode>, s: Slot) {
    s.i < |inodes| && (s.Direct? ==> s.k < NDIRECT) && (s.Entry? ==> s.k < NINDIRECT)
  }

  /** The block number in a slot, 0 if none. */
  function At(inodes: seq<Inode>, disk: seq<Block>, s: Slot): (b: nat)
    requires IsSlot(inodes, s)
  {
    match s
    case Direct(i, k) => inodes[i].addrs[k]
    case Top(i) => inodes[i].addrs[NDIRECT]
    case Entry(i, k) =>
      var top := inodes[i].addrs[NDIRECT];
      if 0 < top < |disk| then Word(disk[top], k) else 0
  }

  /** As At, with the slots in gone already counted as empty. */
  ghost function Held(inodes: seq<Inode>, disk: seq<Block>, gone: set<Slot>, s: Slot): (b: nat)
    requires IsSlot(inodes, s)
  {
    if s in gone then 0 else At(inodes, disk, s)
  }

  ghost predicate Shaped(g: Geometry, inodes: seq<Inode>, disk: seq<Block>) {
    Sound(g) && |inodes| == g.ninodes && |disk| == g.size
  }

  /** The slot holds nothing, or a block that is held by it. */
  ghost predicate SlotOk(inodes: seq<Inode>, disk: seq<Block>, gone: set<Slot>, owner: map<nat, Slot>, s: Slot)
    requires IsSlot(inodes, s)
  {
    var b := Held(inodes, disk, gone, s);
    b != 0 ==> b in owner && owner[b] == s
  }

  ghost predicate BlockOk(g: Geometry, inodes: seq<Inode>, disk: seq<Block>, gone: set<Slot>, owner: map<nat, Slot>,
                          b: nat)
    requires b in owner
  {
    g.data <= b < g.size && IsSlot(inodes, owner[b]) && Held(inodes, disk, gone, owner[b]) == b
  }

  ghost predicate BitOk(g: Geometry, disk: seq<Block>, owner: map<nat, Slot>, b: nat)
    requires Sound(g) && |disk| == g.size && b < g.size
  {
    InUse(g, disk, b) <==> b < g.data || b in owner
  }

  /** The bit of b is set. */
  ghost predicate InUse(g: Geometry, disk: seq<Block>, b: nat)
    requires Sound(g) && |disk| == g.size && b < g.size
  {
    BitBlock(g, b);
    Used(disk, g.bmapstart, b)
  }

  lemma BitBlock(g: Geometry, b: nat)
    requires Sound(g) && b < g.size
    ensures g.bmapstart + b / BPB < g.data
  {
  }

  ghost predicate Owned(g: Geometry, inodes: seq<Inode>, disk: seq<Block>, gone: set<Slot>, owner: map<nat, Slot>) {
    && Shaped(g, inodes, disk)
    && (forall s :: IsSlot(inodes, s) ==> SlotOk(inodes, disk, gone, owner, s))
    && (forall b :: b in owner ==> BlockOk(g, inodes, disk, gone, owner, b))
    && (forall b :: 0 <= b < g.size ==> BitOk(g, disk, owner, b))
  }

  /** No block is in two slots. */
  lemma HeldOnce(g: Geometry, inodes: seq<Inode>, disk: seq<Block>, owner: map<nat, Slot>, s: Slot, t: Slot)
    requires Owned(g, inodes, disk, {}, owner) && IsSlot(inodes, s) && IsSlot(inodes, t)
    requires At(inodes, disk, s) == At(inodes, disk, t) != 0
    ensures s == t && g.data <= At(inodes, disk, s) < g.size && InUse(g, disk, At(inodes, disk, s))
  {
    assert SlotOk(inodes, disk, {}, owner, s) && SlotOk(inodes, disk, {}, owner, t);
    var b := At(inodes, disk, s);
    assert BlockOk(g, inodes, disk, {}, owner, b) && BitOk(g, disk, owner, b);
  }

  // --------------------------------------------------------------- one slot changes

  /** All slots but s hold in the second state what they hold in the first. */
  ghost predicate SameBut(inodes: seq<Inode>, disk: seq<Block>, gone: set<Slot>,
                          inodes': seq<Inode>, disk': seq<Block>, gone': set<Slot>, s: Slot)
  {
    && |inodes'| == |inodes|
    && forall t :: IsSlot(inodes, t) && t != s ==> Held(inodes', disk', gone', t) == Held(inodes, disk, gone, t)
  }

  /** The bit of b, and no other, has become `to`. */
  ghost predicate BitsBut(g: Geometry, disk: seq<Block>, disk': seq<Block>, b: nat, to: bool)
    requires Sound(g) && |disk| == |disk'| == g.size
  {
    forall c :: 0 <= c < g.size ==>
      (InUse(g, disk', c) <==> if c == b then to else InUse(g, disk, c))
  }

  /** An empty slot takes a block nobody holds. */
  lemma Grow(g: Geometry, inodes: seq<Inode>, disk: seq<Block>, inodes': seq<Inode>, disk': seq<Block>, gone: set<Slot>,
             owner: map<nat, Slot>, s: Slot, b: nat)
    requires Owned(g, inodes, disk, gone, owner) && Shaped(g, inodes', disk')
    requires IsSlot(inodes, s) && Held(inodes, disk, gone, s) == 0 && g.data <= b < g.size && b !in owner
    requires SameBut(inodes, disk, gone, inodes', disk', gone, s) && Held(inodes', disk', gone, s) == b
    requires BitsBut(g, disk, disk', b, true)
    ensures Owned(g, inodes', disk', gone, owner[b := s])
  {
    hide InUse, At;
    var owner' := owner[b := s];
    forall t | IsSlot(inodes', t) ensures SlotOk(inodes', disk', gone, owner', t) {
      assert SlotOk(inodes, disk, gone, owner, t);
    }
    forall c | c in owner' ensures BlockOk(g, inodes', disk', gone, owner', c) {
      if c != b {
        assert BlockOk(g, inodes, disk, gone, owner, c);
      }
    }
    forall c | 0 <= c < g.size ensures BitOk(g, disk', owner', c) {
      assert BitOk(g, disk, owner, c);
    }
  }

  /** A slot gives its block up. */
  lemma Shrink(g: Geometry, inodes: seq<Inode>, disk: seq<Block>, gone: set<Slot>, inodes': seq<Inode>,
               disk': seq<Block>, gone': set<Slot>,
               owner: map<nat, Slot>, s: Slot, b: nat)
    requires Owned(g, inodes, disk, gone, owner) && Shaped(g, inodes', disk')
    requires IsSlot(inodes, s) && Held(inodes, disk, gone, s) == b != 0
    requires SameBut(inodes, disk, gone, inodes', disk', gone', s) && Held(inodes', disk', gone', s) == 0
    requires BitsBut(g, disk, disk', b, false)
    ensures b in owner && owner[b] == s && Owned(g, inodes', disk', gone', owner - {b})
  {
    hide InUse, At;
    var owner' := owner - {b};
    assert SlotOk(inodes, disk, gone, owner, s);
    assert BlockOk(g, inodes, disk, gone, owner, b);
    forall t | IsSlot(inodes', t) ensures SlotOk(inodes', disk', gone', owner', t) {
      assert SlotOk(inodes, disk, gone, owner, t);
    }
    forall c | c in owner' ensures BlockOk(g, inodes', disk', gone', owner', c) {
      assert BlockOk(g, inodes, disk, gone, owner, c);
    }
    forall c | 0 <= c < g.size ensures BitOk(g, disk', owner', c) {
      assert BitOk(g, disk, owner, c);
    }
  }

  /** The entries of indirect blocks are read from blocks the inodes hold. */
  lemma TopIsHeld(g: Geometry, inodes: seq<Inode>, disk: seq<Block>, gone: set<Slot>, owner: map<nat, Slot>, i: nat)
    requires Owned(g, inodes, disk, gone, owner) && i < |inodes| && Top(i) !in gone && inodes[i].addrs[NDIRECT] != 0
    ensures var b := inodes[i].addrs[NDIRECT]; b in owner && owner[b] == Top(i) && g.data <= b < g.size
  {
    assert SlotOk(inodes, disk, gone, owner, Top(i));
    assert BlockOk(g, inodes, disk, gone, owner, inodes[i].addrs[NDIRECT]);
  }

  /** Where the indirect blocks and an inode's numbers are unchanged, so is what its slots hold. */
  lemma FrameAt(g: Geometry, inodes: seq<Inode>, disk: seq<Block>, inodes': seq<Inode>, disk': seq<Block>,
                gone: set<Slot>, owner: map<nat, Slot>, t: Slot)
    requires Owned(g, inodes, disk, gone, owner) && |inodes'| == |inodes| && |disk'| == |disk|
    requires IsSlot(inodes, t) && Top(t.i) !in gone && inodes'[t.i].addrs == inodes[t.i].addrs
    requires forall b :: b in owner && owner[b] == Top(t.i) && b < |disk| ==> disk'[b] == disk[b]
    ensures At(inodes', disk', t) == At(inodes, disk, t)
  {
    hide InUse, Word;
    if t.Entry? && inodes[t.i].addrs[NDIRECT] != 0 {
      TopIsHeld(g, inodes, disk, gone, owner, t.i);
    }
  }
}
