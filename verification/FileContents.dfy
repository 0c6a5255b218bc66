/**
  readi(), writei() and filewrite() (fs.c, file.c) on flat byte sequences: what a file holds is a function from
  offsets to bytes, and a write changes it at its own offsets only.
 */
module FileContents {
  import opened Common
  import opened Blocks
  import opened FreeMap
  import opened Ownership
  import opened Inodes

  const MAXBYTES: nat := 71680

  /** Byte p of file i; unallocated blocks read as zeros. */
  ghost function ByteAt(inodes: seq<Inode>, disk: seq<Block>, i: nat, p: nat): (x: byte)
    requires i < |inodes| && p < MAXBYTES
  {
    var b := At(inodes, disk, DataSlot(i, p / BSIZE));
    if 0 < b < |disk| then disk[b][p % BSIZE] else 0
  }

  /** The file's bytes up to its size. */
  ghost function Content(inodes: seq<Inode>, disk: seq<Block>, i: nat): (c: seq<byte>)
    requires i < |inodes| && inodes[i].size <= MAXBYTES
    ensures |c| == inodes[i].size
  {
    seq(inodes[i].size, p requires 0 <= p < inodes[i].size => ByteAt(inodes, disk, i, p))
  }

  /** Byte p of file j is the same in both states, except that file i now has data at off. */
  ghost predicate ByteOk(inodes: seq<Inode>, disk: seq<Block>, inodes': seq<Inode>, disk': seq<Block>,
                         i: nat, off: nat, data: seq<byte>, j: nat, p: nat)
    requires |inodes'| == |inodes| && j < |inodes| && p < MAXBYTES
  {
    ByteAt(inodes', disk', j, p) ==
      if j == i && off <= p < off + |data| then data[p - off] else ByteAt(inodes, disk, j, p)
  }

  ghost predicate Wrote(inodes: seq<Inode>, disk: seq<Block>, inodes': seq<Inode>, disk': seq<Block>, i: nat,
                        off: nat, data: seq<byte>) {
    && |inodes'| == |inodes|
    && forall j, p ::
         0 <= j < |inodes| && 0 <= p < MAXBYTES ==> ByteOk(inodes, disk, inodes', disk', i, off, data, j, p)
  }

  /** Only inode i's block numbers may have changed. */
  ghost predicate OnlyAddrs(inodes: seq<Inode>, inodes': seq<Inode>, i: nat)
    requires i < |inodes|
  {
    && |inodes'| == |inodes| && inodes'[i] == inodes[i].(addrs := inodes'[i].addrs)
    && forall j :: 0 <= j < |inodes| && j != i ==> inodes'[j] == inodes[j]
  }

  lemma InBlock(off: nat, d: nat)
    requires off % BSIZE + d < BSIZE
    ensures (off + d) / BSIZE == off / BSIZE && (off + d) % BSIZE == off % BSIZE + d
  {
  }

  /** Mapping a block reads the same: it was zeros before and is zeros now. */
  lemma MapReadsSame(inodes: seq<Inode>, disk: seq<Block>, inodes': seq<Inode>, disk': seq<Block>, i: nat, bn: nat)
    requires i < |inodes| && bn < MAXFILE && Mapping(inodes, disk, inodes', disk', i, DataSlot(i, bn))
    requires var s := DataSlot(i, bn);
             At(inodes, disk, s) == 0 ==>
               0 < At(inodes', disk', s) < |disk'| && disk'[At(inodes', disk', s)] == Zeros()
    ensures Wrote(inodes, disk, inodes', disk', i, 0, [])
  {
    hide At;
    forall j, p | 0 <= j < |inodes| && 0 <= p < MAXBYTES ensures ByteOk(inodes, disk, inodes', disk', i, 0, [], j, p) {
      var t := DataSlot(j, p / BSIZE);
      if t != DataSlot(i, bn) || At(inodes, disk, t) != 0 {
        assert Kept(inodes, disk, inodes', disk', t);
      }
    }
  }

  /** The slots of different file blocks are different. */
  lemma DataSlotInjective(i: nat, bn: nat, j: nat, cn: nat)
    requires DataSlot(i, bn) == DataSlot(j, cn)
    ensures i == j && bn == cn
  {
  }

  /** Storing bytes in the block of file block off / BSIZE changes those bytes of that file only. */
  lemma StoreWrote(g: Geometry, inodes: seq<Inode>, disk: seq<Block>, owner: map<nat, Slot>, i: nat, off: nat,
                   data: seq<byte>, blk: Block)
    requires Owned(g, inodes, disk, {}, owner) && i < |inodes| && off % BSIZE + |data| <= BSIZE && off < MAXBYTES
    requires var b := At(inodes, disk, DataSlot(i, off / BSIZE));
             0 < b < |disk| && blk == disk[b][..off % BSIZE] + data + disk[b][off % BSIZE + |data|..]
    ensures var b := At(inodes, disk, DataSlot(i, off / BSIZE));
            Wrote(inodes, disk, inodes, disk[b := blk], i, off, data) && Owned(g, inodes, disk[b := blk], {}, owner)
  {
    hide InUse, Used;
    var s := DataSlot(i, off / BSIZE);
    var b := At(inodes, disk, s);
    assert SlotOk(inodes, disk, {}, owner, s) && BlockOk(g, inodes, disk, {}, owner, b);
    StoreOwned(g, inodes, disk, owner, s, blk);
    var disk' := disk[b := blk];
    forall j, p | 0 <= j < |inodes| && 0 <= p < MAXBYTES
      ensures ByteOk(inodes, disk, inodes, disk', i, off, data, j, p)
    {
      StoreByte(g, inodes, disk, owner, i, off, data, blk, j, p);
    }
  }

  /** Data blocks hold no block numbers, so storing in one keeps every slot. */
  lemma StoreOwned(g: Geometry, inodes: seq<Inode>, disk: seq<Block>, owner: map<nat, Slot>, s: Slot, blk: Block)
    requires Owned(g, inodes, disk, {}, owner) && IsSlot(inodes, s) && !s.Top? && At(inodes, disk, s) != 0
    ensures var b := At(inodes, disk, s);
            && g.data <= b < g.size
            && (forall t :: IsSlot(inodes, t) ==> At(inodes, disk[b := blk], t) == At(inodes, disk, t))
            && Owned(g, inodes, disk[b := blk], {}, owner)
  {
    hide Word, Used;
    var b := At(inodes, disk, s);
    assert SlotOk(inodes, disk, {}, owner, s) && BlockOk(g, inodes, disk, {}, owner, b);
    var disk' := disk[b := blk];
    forall t | IsSlot(inodes, t)
      ensures At(inodes, disk', t) == At(inodes, disk, t) && SlotOk(inodes, disk', {}, owner, t)
    {
      assert SlotOk(inodes, disk, {}, owner, t);
      FrameAt(g, inodes, disk, inodes, disk', {}, owner, t);
    }
    forall c | c in owner ensures BlockOk(g, inodes, disk', {}, owner, c) {
      assert BlockOk(g, inodes, disk, {}, owner, c);
    }
    forall c | 0 <= c < g.size ensures BitOk(g, disk', owner, c) {
      BitBlock(g, c);
      SameMapBlock(disk, disk', g.bmapstart, c);
      assert BitOk(g, disk, owner, c);
    }
  }

  lemma StoreByte(g: Geometry, inodes: seq<Inode>, disk: seq<Block>, owner: map<nat, Slot>, i: nat, off: nat,
                  data: seq<byte>, blk: Block, j: nat, p: nat)
    requires && Owned(g, inodes, disk, {}, owner) && i < |inodes| && off % BSIZE + |data| <= BSIZE && off < MAXBYTES
             && j < |inodes| && p < MAXBYTES
    requires var b := At(inodes, disk, DataSlot(i, off / BSIZE));
             0 < b < |disk| && blk == disk[b][..off % BSIZE] + data + disk[b][off % BSIZE + |data|..]
    ensures ByteOk(inodes, disk, inodes, disk[At(inodes, disk, DataSlot(i, off / BSIZE)) := blk], i, off, data, j, p)
  {
    hide InUse, Owned, At;
    var s, t := DataSlot(i, off / BSIZE), DataSlot(j, p / BSIZE);
    StoreOwned(g, inodes, disk, owner, s, blk);
    if s == t {
      DataSlotInjective(i, off / BSIZE, j, p / BSIZE);
      if off <= p < off + |data| {
        InBlock(off, p - off);
      }
    } else {
      if At(inodes, disk, t) == At(inodes, disk, s) {
        HeldOnce(g, inodes, disk, owner, s, t);
      }
      if off <= p < off + |data| {
        InBlock(off, p - off);
      }
    }
  }

  // --------------------------------------------------------------- which blocks a file has

  /** Blocks that cover size bytes. */
  function Extent(size: nat): (n: nat) {
    (size + BSIZE - 1) / BSIZE
  }

  /** The number of file block bn of file j is kept, except that blocks lo..hi of file i now exist. */
  ghost predicate NumOk(inodes: seq<Inode>, disk: seq<Block>, inodes': seq<Inode>, disk': seq<Block>, i: nat,
                        lo: nat, hi: nat, j: nat, bn: nat)
    requires |inodes'| == |inodes| && j < |inodes| && bn < MAXFILE
  {
    var a, a' := At(inodes, disk, DataSlot(j, bn)), At(inodes', disk', DataSlot(j, bn));
    if j == i && lo <= bn < hi then a' != 0 && (a != 0 ==> a' == a) else a' == a
  }

  ghost predicate Grown(inodes: seq<Inode>, disk: seq<Block>, inodes': seq<Inode>, disk': seq<Block>, i: nat,
                        lo: nat, hi: nat) {
    && |inodes'| == |inodes|
    && forall j, bn :: 0 <= j < |inodes| && 0 <= bn < MAXFILE ==> NumOk(inodes, disk, inodes', disk', i, lo, hi, j, bn)
  }

  /** File i has exactly the blocks that cover its size. */
  ghost predicate HoleFree(inodes: seq<Inode>, disk: seq<Block>, i: nat)
    requires i < |inodes|
  {
    && inodes[i].size <= MAXBYTES
    && forall bn :: 0 <= bn < MAXFILE ==> (At(inodes, disk, DataSlot(i, bn)) != 0 <==> bn < Extent(inodes[i].size))
  }

  /** The blocks an operation on blocks lo..hi of file i may log: map blocks, the indirect block, and those blocks. */
  ghost predicate Mine(g: Geometry, inodes: seq<Inode>, disk: seq<Block>, i: nat, lo: nat, hi: nat, c: nat)
    requires i < |inodes| && hi <= MAXFILE
  {
    || MapBlock(g, c)
    || c == inodes[i].addrs[NDIRECT] != 0
    || exists bn :: lo <= bn < hi && c == At(inodes, disk, DataSlot(i, bn))
  }

  // --------------------------------------------------------------- how many blocks a write takes

  /** How many of the blocks lo..hi of file i are missing. */
  ghost function Missing(inodes: seq<Inode>, disk: seq<Block>, i: nat, lo: nat, hi: nat): (n: nat)
    requires i < |inodes|
    decreases hi
  {
    if hi <= lo then 0
    else
      Missing(inodes, disk, i, lo, hi - 1)
      + if hi <= MAXFILE && At(inodes, disk, DataSlot(i, hi - 1)) == 0 then 1 else 0
  }

  /** 1 if the blocks lo..hi of file i need an indirect block that is missing. */
  ghost function TopNeed(inodes: seq<Inode>, i: nat, lo: nat, hi: nat): (n: nat)
    requires i < |inodes|
  {
    if inodes[i].addrs[NDIRECT] == 0 && lo < hi && hi > NDIRECT then 1 else 0
  }

  /** How many free blocks it takes for the blocks lo..hi of file i all to exist. */
  ghost function Needs(inodes: seq<Inode>, disk: seq<Block>, i: nat, lo: nat, hi: nat): (n: nat)
    requires i < |inodes|
  {
    Missing(inodes, disk, i, lo, hi) + TopNeed(inodes, i, lo, hi)
  }

  /** The indirect block exists afterwards if it did or if a block lo..hi is reached through it. */
  ghost predicate TopGrown(inodes: seq<Inode>, inodes': seq<Inode>, i: nat, lo: nat, hi: nat)
    requires i < |inodes| == |inodes'|
  {
    inodes'[i].addrs[NDIRECT] != 0 <==> inodes[i].addrs[NDIRECT] != 0 || (lo < hi && hi > NDIRECT)
  }

  lemma NeedIs(inodes: seq<Inode>, disk: seq<Block>, i: nat, bn: nat)
    requires i < |inodes| && bn < MAXFILE
    ensures Needs(inodes, disk, i, bn, bn + 1) == Need(inodes, disk, i, bn)
  {
    assert Missing(inodes, disk, i, bn, bn) == 0;
  }

  lemma {:induction false} MissingSplit(inodes: seq<Inode>, disk: seq<Block>, i: nat, lo: nat, h: nat, hi: nat)
    requires i < |inodes| && lo <= h <= hi
    ensures Missing(inodes, disk, i, lo, hi) == Missing(inodes, disk, i, lo, h) + Missing(inodes, disk, i, h, hi)
    decreases hi
  {
    hide At;
    if h < hi {
      MissingSplit(inodes, disk, i, lo, h, hi - 1);
    }
  }

  /** Blocks past those that were made are missing as before. */
  lemma {:induction false} MissingPast(inodes: seq<Inode>, disk: seq<Block>, inodes': seq<Inode>, disk': seq<Block>,
                                       i: nat, lo: nat, h: nat, hi: nat)
    requires i < |inodes| && Grown(inodes, disk, inodes', disk', i, lo, h) && h <= hi
    ensures Missing(inodes', disk', i, h, hi) == Missing(inodes, disk, i, h, hi)
    decreases hi
  {
    hide At;
    if h < hi {
      MissingPast(inodes, disk, inodes', disk', i, lo, h, hi - 1);
      if hi <= MAXFILE {
        assert NumOk(inodes, disk, inodes', disk', i, lo, h, i, hi - 1);
      }
    }
  }

  /** Blocks that were made are not missing. */
  lemma {:induction false} MissingMade(inodes: seq<Inode>, disk: seq<Block>, inodes': seq<Inode>, disk': seq<Block>,
                                       i: nat, lo: nat, bn: nat, h: nat)
    requires i < |inodes| && Grown(inodes, disk, inodes', disk', i, lo, h) && lo <= bn <= h
    ensures Missing(inodes', disk', i, bn, h) == 0
  {
    hide At;
    var k := bn;
    while k < h
      invariant bn <= k <= h && Missing(inodes', disk', i, bn, k) == 0
    {
      k := k + 1;
      if k <= MAXFILE {
        assert NumOk(inodes, disk, inodes', disk', i, lo, h, i, k - 1);
      }
    }
  }

  /** What the blocks lo..h took and what bn..hi take then is what lo..hi take. */
  lemma NeedsStep(inodes: seq<Inode>, disk: seq<Block>, inodes': seq<Inode>, disk': seq<Block>, i: nat, lo: nat,
                  bn: nat, h: nat, hi: nat)
    requires && i < |inodes| == |inodes'| && Grown(inodes, disk, inodes', disk', i, lo, h)
             && TopGrown(inodes, inodes', i, lo, h)
    requires lo <= bn <= h <= hi
    ensures Needs(inodes, disk, i, lo, hi) == Needs(inodes, disk, i, lo, h) + Needs(inodes', disk', i, bn, hi)
  {
    hide Missing, Grown;
    MissingSplit(inodes, disk, i, lo, h, hi);
    MissingPast(inodes, disk, inodes', disk', i, lo, h, hi);
    MissingSplit(inodes', disk', i, bn, h, hi);
    MissingMade(inodes, disk, inodes', disk', i, lo, bn, h);
  }

  lemma NeedsMore(inodes: seq<Inode>, disk: seq<Block>, i: nat, lo: nat, h: nat, hi: nat)
    requires i < |inodes| && lo <= h <= hi
    ensures Needs(inodes, disk, i, lo, h) <= Needs(inodes, disk, i, lo, hi)
  {
    hide Missing;
    MissingSplit(inodes, disk, i, lo, h, hi);
  }

  lemma NeedsNothing(inodes: seq<Inode>, disk: seq<Block>, i: nat, lo: nat)
    requires i < |inodes|
    ensures Needs(inodes, disk, i, lo, lo) == 0 && TopGrown(inodes, inodes, i, lo, lo)
  {
  }

  lemma TopStep(inodes: seq<Inode>, inodes': seq<Inode>, inodes'': seq<Inode>, i: nat, lo: nat, bn: nat, h: nat,
                hi: nat)
    requires i < |inodes| == |inodes'| == |inodes''| && lo <= bn <= h <= hi
    requires TopGrown(inodes, inodes', i, lo, h) && TopGrown(inodes', inodes'', i, bn, hi)
    ensures TopGrown(inodes, inodes'', i, lo, hi)
  {
  }

  lemma GrownStep(inodes: seq<Inode>, disk: seq<Block>, inodes': seq<Inode>, disk': seq<Block>, inodes'': seq<Inode>,
                  disk'': seq<Block>,
                  i: nat, lo: nat, hi: nat, bn: nat, hi': nat)
    requires Grown(inodes, disk, inodes', disk', i, lo, hi) && Grown(inodes', disk', inodes'', disk'', i, bn, hi')
    requires lo <= bn <= hi <= hi'
    ensures Grown(inodes, disk, inodes'', disk'', i, lo, hi')
  {
    hide At;
    forall j, n | 0 <= j < |inodes| && 0 <= n < MAXFILE
      ensures NumOk(inodes, disk, inodes'', disk'', i, lo, hi', j, n)
    {
      assert NumOk(inodes, disk, inodes', disk', i, lo, hi, j, n);
      assert NumOk(inodes', disk', inodes'', disk'', i, bn, hi', j, n);
    }
  }

  lemma WroteStep(inodes: seq<Inode>, disk: seq<Block>, inodes': seq<Inode>, disk': seq<Block>, inodes'': seq<Inode>,
                  disk'': seq<Block>,
                  i: nat, off: nat, data: seq<byte>, more: seq<byte>)
    requires && Wrote(inodes, disk, inodes', disk', i, off, data)
             && Wrote(inodes', disk', inodes'', disk'', i, off + |data|, more)
    ensures Wrote(inodes, disk, inodes'', disk'', i, off, data + more)
  {
    hide ByteAt;
    forall j, p | 0 <= j < |inodes| && 0 <= p < MAXBYTES
      ensures ByteOk(inodes, disk, inodes'', disk'', i, off, data + more, j, p)
    {
      assert ByteOk(inodes, disk, inodes', disk', i, off, data, j, p);
      assert ByteOk(inodes', disk', inodes'', disk'', i, off + |data|, more, j, p);
    }
  }

  /** A mapped block counts as one more block of the file. */
  lemma MappedGrown(inodes: seq<Inode>, disk: seq<Block>, inodes': seq<Inode>, disk': seq<Block>, i: nat, bn: nat)
    requires && i < |inodes| && bn < MAXFILE && Mapping(inodes, disk, inodes', disk', i, DataSlot(i, bn))
             && At(inodes', disk', DataSlot(i, bn)) != 0
    ensures Grown(inodes, disk, inodes', disk', i, bn, bn + 1)
  {
    hide At;
    var hi := bn + 1;
    forall j, n | 0 <= j < |inodes| && 0 <= n < MAXFILE ensures NumOk(inodes, disk, inodes', disk', i, bn, hi, j, n) {
      var t := DataSlot(j, n);
      if t != DataSlot(i, bn) || At(inodes, disk, t) != 0 {
        assert Kept(inodes, disk, inodes', disk', t);
      }
      if t == DataSlot(i, bn) {
        DataSlotInjective(j, n, i, bn);
      }
    }
  }

  lemma SameNumbers(inodes: seq<Inode>, disk: seq<Block>, disk': seq<Block>, i: nat)
    requires forall t :: IsSlot(inodes, t) ==> At(inodes, disk', t) == At(inodes, disk, t)
    ensures Grown(inodes, disk, inodes, disk', i, 0, 0)
  {
    hide At;
  }

  // --------------------------------------------------------------- one block of a write

  /** One iteration of writei(): bread(bmap()), memmove, log_write. */
  method WriteBlock(fs: FileSys, i: nat, off: nat, data: seq<byte>) returns (ok: bool)
    requires fs.Valid() && i < |fs.inodes| && off < MAXBYTES && off % BSIZE + |data| <= BSIZE
    modifies fs`disk, fs`inodes, fs`owner, fs`logged
    ensures ok <==> Room(fs.g, old(fs.owner)) >= Need(old(fs.inodes), old(fs.disk), i, off / BSIZE)
    ensures !ok ==> Full(fs.g, fs.disk) && At(old(fs.inodes), old(fs.disk), DataSlot(i, off / BSIZE)) == 0
    ensures ok ==>
              && fs.Valid() && OnlyAddrs(old(fs.inodes), fs.inodes, i)
              && Room(fs.g, fs.owner) == Room(fs.g, old(fs.owner)) - Need(old(fs.inodes), old(fs.disk), i, off / BSIZE)
              && TopGrown(old(fs.inodes), fs.inodes, i, off / BSIZE, off / BSIZE + 1)
              && Wrote(old(fs.inodes), old(fs.disk), fs.inodes, fs.disk, i, off, data)
              && Grown(old(fs.inodes), old(fs.disk), fs.inodes, fs.disk, i, off / BSIZE, off / BSIZE + 1)
              && (At(old(fs.inodes), old(fs.disk), DataSlot(i, off / BSIZE)) != 0 ==> fs.inodes == old(fs.inodes))
              && (old(fs.inodes[i]).addrs[NDIRECT] != 0 ==>
                    fs.inodes[i].addrs[NDIRECT] == old(fs.inodes[i]).addrs[NDIRECT])
              && forall c ::
                   c in fs.logged ==>
                     c in old(fs.logged) || Mine(fs.g, fs.inodes, fs.disk, i, off / BSIZE, off / BSIZE + 1, c)
  {
    hide Owned, At, Mapping, Wrote, Grown, InUse, Covers, Full;
    var bn := off / BSIZE;
    var r := fs.Bmap(i, bn);
    if r.None? {
      return false;
    }
    ghost var inodes1, disk1 := fs.inodes, fs.disk;
    var b := r.value;
    MapReadsSame(old(fs.inodes), old(fs.disk), inodes1, disk1, i, bn);
    MappedGrown(old(fs.inodes), old(fs.disk), inodes1, disk1, i, bn);
    MappingOnly(old(fs.inodes), old(fs.disk), inodes1, disk1, i, DataSlot(i, bn));
    var blk: Block := fs.disk[b][..off % BSIZE] + data + fs.disk[b][off % BSIZE + |data|..];
    StoreWrote(fs.g, inodes1, disk1, fs.owner, i, off, data, blk);
    StoreOwned(fs.g, inodes1, disk1, fs.owner, DataSlot(i, bn), blk);
    fs.LogWrite(b, blk);
    WroteAfterMap(old(fs.inodes), old(fs.disk), inodes1, disk1, fs.inodes, fs.disk, i, off, data);
    SameNumbers(inodes1, disk1, fs.disk, i);
    GrownSame(old(fs.inodes), old(fs.disk), inodes1, disk1, fs.disk, i, bn);
    return true;
  }

  lemma MappingOnly(inodes: seq<Inode>, disk: seq<Block>, inodes': seq<Inode>, disk': seq<Block>, i: nat, s: Slot)
    requires i < |inodes| && Mapping(inodes, disk, inodes', disk', i, s)
    ensures OnlyAddrs(inodes, inodes', i)
  {
  }

  lemma WroteAfterMap(inodes: seq<Inode>, disk: seq<Block>, inodes': seq<Inode>, disk': seq<Block>,
                      inodes'': seq<Inode>, disk'': seq<Block>,
                      i: nat, off: nat, data: seq<byte>)
    requires Wrote(inodes, disk, inodes', disk', i, 0, []) && Wrote(inodes', disk', inodes'', disk'', i, off, data)
    ensures Wrote(inodes, disk, inodes'', disk'', i, off, data)
  {
    hide ByteAt;
    forall j, p | 0 <= j < |inodes| && 0 <= p < MAXBYTES
      ensures ByteOk(inodes, disk, inodes'', disk'', i, off, data, j, p)
    {
      assert ByteOk(inodes, disk, inodes', disk', i, 0, [], j, p);
      assert ByteOk(inodes', disk', inodes'', disk'', i, off, data, j, p);
    }
  }

  lemma GrownSame(inodes: seq<Inode>, disk: seq<Block>, inodes': seq<Inode>, disk': seq<Block>, disk'': seq<Block>,
                  i: nat, bn: nat)
    requires Grown(inodes, disk, inodes', disk', i, bn, bn + 1) && Grown(inodes', disk', inodes', disk'', i, 0, 0)
    ensures Grown(inodes, disk, inodes', disk'', i, bn, bn + 1)
  {
    hide At;
    var hi := bn + 1;
    forall j, n | 0 <= j < |inodes| && 0 <= n < MAXFILE ensures NumOk(inodes, disk, inodes', disk'', i, bn, hi, j, n) {
      assert NumOk(inodes, disk, inodes', disk', i, bn, bn + 1, j, n);
      assert NumOk(inodes', disk', inodes', disk'', i, 0, 0, j, n);
    }
  }

  // --------------------------------------------------------------- writei

  const T_DEV: int := 3

  /** The file block after the last one touched by n bytes at off. */
  function EndBlock(off: nat, n: nat): (hi: nat) {
    if n == 0 then off / BSIZE else (off + n - 1) / BSIZE + 1
  }

  lemma EndBlockStep(off: nat, tot: nat, m: nat)
    requires 1 <= m && (off + tot) % BSIZE + m <= BSIZE && off + tot + m <= MAXBYTES
    ensures var bn := (off + tot) / BSIZE;
            && off / BSIZE <= EndBlock(off, tot) && bn <= EndBlock(off, tot) <= bn + 1 && off / BSIZE <= bn < MAXFILE
            && EndBlock(off, tot + m) == bn + 1
  {
  }

  /** With no holes, a block that is missing lies past the file's size. */
  lemma MissingIsPast(inodes: seq<Inode>, disk: seq<Block>, inodes': seq<Inode>, disk': seq<Block>, i: nat, lo: nat,
                      hi: nat, o: nat)
    requires i < |inodes| && HoleFree(inodes, disk, i) && Grown(inodes, disk, inodes', disk', i, lo, hi) && o < MAXBYTES
    requires At(inodes', disk', DataSlot(i, o / BSIZE)) == 0
    ensures o >= inodes[i].size
  {
    hide At;
    assert NumOk(inodes, disk, inodes', disk', i, lo, hi, i, o / BSIZE);
  }

  lemma MineStep(g: Geometry, inodes: seq<Inode>, disk: seq<Block>, inodes': seq<Inode>, disk': seq<Block>, i: nat,
                 lo: nat, hi: nat, bn: nat, c: nat)
    requires i < |inodes| && lo <= bn <= hi <= bn + 1 <= MAXFILE
    requires Grown(inodes, disk, inodes', disk', i, bn, bn + 1)
    requires inodes[i].addrs[NDIRECT] != 0 ==> inodes'[i].addrs[NDIRECT] == inodes[i].addrs[NDIRECT]
    requires forall n :: lo <= n < hi ==> At(inodes, disk, DataSlot(i, n)) != 0
    requires Mine(g, inodes, disk, i, lo, hi, c) || Mine(g, inodes', disk', i, bn, bn + 1, c)
    ensures Mine(g, inodes', disk', i, lo, bn + 1, c)
  {
    hide At;
    if Mine(g, inodes, disk, i, lo, hi, c) {
      if n :| lo <= n < hi && c == At(inodes, disk, DataSlot(i, n)) {
        assert NumOk(inodes, disk, inodes', disk', i, bn, bn + 1, i, n);
      }
    }
  }

  /** The blocks written so far exist. */
  lemma GrownExist(inodes: seq<Inode>, disk: seq<Block>, inodes': seq<Inode>, disk': seq<Block>, i: nat, lo: nat,
                   hi: nat)
    requires i < |inodes| && Grown(inodes, disk, inodes', disk', i, lo, hi) && hi <= MAXFILE
    ensures forall n :: lo <= n < hi ==> At(inodes', disk', DataSlot(i, n)) != 0
  {
    hide At;
    forall n | lo <= n < hi ensures At(inodes', disk', DataSlot(i, n)) != 0 {
      assert NumOk(inodes, disk, inodes', disk', i, lo, hi, i, n);
    }
  }

  lemma UnwrittenSame(inodes: seq<Inode>, disk: seq<Block>, i: nat, off: nat)
    requires i < |inodes|
    ensures && Wrote(inodes, disk, inodes, disk, i, off, [])
            && Grown(inodes, disk, inodes, disk, i, off / BSIZE, off / BSIZE)
    ensures OnlyAddrs(inodes, inodes, i)
  {
    hide At;
  }

  /** The loop of writei(). */
  method WriteLoop(fs: FileSys, i: nat, src: seq<byte>, off: nat) returns (ok: bool)
    requires fs.Valid() && i < |fs.inodes| && off + |src| <= MAXBYTES
    modifies fs`disk, fs`inodes, fs`owner, fs`logged
    ensures ok <==>
              Room(fs.g, old(fs.owner)) >= Needs(old(fs.inodes), old(fs.disk), i, off / BSIZE, EndBlock(off, |src|))
    ensures !ok ==>
              && Full(fs.g, fs.disk)
              && (HoleFree(old(fs.inodes), old(fs.disk), i) ==> off + |src| > old(fs.inodes[i].size))
    ensures ok ==>
              && fs.Valid() && OnlyAddrs(old(fs.inodes), fs.inodes, i)
              && Room(fs.g, fs.owner) ==
                 Room(fs.g, old(fs.owner)) - Needs(old(fs.inodes), old(fs.disk), i, off / BSIZE, EndBlock(off, |src|))
              && TopGrown(old(fs.inodes), fs.inodes, i, off / BSIZE, EndBlock(off, |src|))
              && Wrote(old(fs.inodes), old(fs.disk), fs.inodes, fs.disk, i, off, src)
              && Grown(old(fs.inodes), old(fs.disk), fs.inodes, fs.disk, i, off / BSIZE, EndBlock(off, |src|))
              && (HoleFree(old(fs.inodes), old(fs.disk), i) && fs.inodes != old(fs.inodes) ==>
                    off + |src| > old(fs.inodes[i].size))
              && EndBlock(off, |src|) <= MAXFILE
              && forall c ::
                   c in fs.logged ==>
                     c in old(fs.logged) || Mine(fs.g, fs.inodes, fs.disk, i, off / BSIZE, EndBlock(off, |src|), c)
  {
    hide Owned, At, Wrote, Grown, Full, HoleFree, Mine, EndBlock, Covers, Needs, Need, TopGrown;
    ghost var lo := off / BSIZE;
    var n, tot, o := |src|, 0, off;
    UnwrittenSame(fs.inodes, fs.disk, i, off);
    EndBlockStart(off);
    NeedsNothing(fs.inodes, fs.disk, i, lo);
    RoomIs(fs.g, fs.inodes, fs.disk, {}, fs.owner);
    assert src[..0] == [];
    while tot < n
      invariant && 0 <= tot <= n && o == off + tot && fs.Valid() && EndBlock(off, tot) <= MAXFILE
                && |fs.inodes| == old(|fs.inodes|)
      invariant && OnlyAddrs(old(fs.inodes), fs.inodes, i)
                && TopGrown(old(fs.inodes), fs.inodes, i, lo, EndBlock(off, tot))
      invariant Room(fs.g, fs.owner) ==
                  Room(fs.g, old(fs.owner)) - Needs(old(fs.inodes), old(fs.disk), i, lo, EndBlock(off, tot))
      invariant 0 <= Room(fs.g, fs.owner)
      invariant Wrote(old(fs.inodes), old(fs.disk), fs.inodes, fs.disk, i, off, src[..tot])
      invariant Grown(old(fs.inodes), old(fs.disk), fs.inodes, fs.disk, i, lo, EndBlock(off, tot))
      invariant HoleFree(old(fs.inodes), old(fs.disk), i) && fs.inodes != old(fs.inodes) ==> o > old(fs.inodes[i].size)
      invariant forall c ::
                  c in fs.logged ==>
                    c in old(fs.logged) || Mine(fs.g, fs.inodes, fs.disk, i, lo, EndBlock(off, tot), c)
    {
      var m := if n - tot < BSIZE - o % BSIZE then n - tot else BSIZE - o % BSIZE;
      EndBlockStep(off, tot, m);
      LoopNeeds(old(fs.inodes), old(fs.disk), fs.inodes, fs.disk, i, off, tot, m, n);
      ghost var inodes1, disk1, logged1 := fs.inodes, fs.disk, fs.logged;
      ok := WriteBlock(fs, i, o, src[tot..tot + m]);
      if !ok {
        if HoleFree(old(fs.inodes), old(fs.disk), i) {
          MissingIsPast(old(fs.inodes), old(fs.disk), inodes1, disk1, i, lo, EndBlock(off, tot), o);
        }
        return;
      }
      TopStep(old(fs.inodes), inodes1, fs.inodes, i, lo, o / BSIZE, EndBlock(off, tot), o / BSIZE + 1);
      RoomIs(fs.g, fs.inodes, fs.disk, {}, fs.owner);
      LoopStep(fs.g, old(fs.inodes), old(fs.disk), inodes1, disk1, fs.inodes, fs.disk, i, off, src, tot, m);
      MineAll(fs.g, old(fs.inodes), old(fs.disk), inodes1, disk1, fs.inodes, fs.disk, i, lo, EndBlock(off, tot),
              o / BSIZE, old(fs.logged), logged1, fs.logged);
      tot := tot + m;
      o := o + m;
    }
    assert src[..n] == src;
    return true;
  }

  /** The blocks taken by the next turn of the loop. */
  lemma LoopNeeds(inodes: seq<Inode>, disk: seq<Block>, inodes1: seq<Inode>, disk1: seq<Block>, i: nat, off: nat,
                  tot: nat, m: nat, n: nat)
    requires && i < |inodes| == |inodes1| && 1 <= m && tot + m <= n && (off + tot) % BSIZE + m <= BSIZE
             && off + n <= MAXBYTES
    requires Grown(inodes, disk, inodes1, disk1, i, off / BSIZE, EndBlock(off, tot))
    requires TopGrown(inodes, inodes1, i, off / BSIZE, EndBlock(off, tot))
    ensures var lo, bn := off / BSIZE, (off + tot) / BSIZE;
            && bn < MAXFILE && EndBlock(off, tot + m) == bn + 1
            && Needs(inodes, disk, i, lo, bn + 1) ==
                 Needs(inodes, disk, i, lo, EndBlock(off, tot)) + Need(inodes1, disk1, i, bn)
            && Needs(inodes, disk, i, lo, bn + 1) <= Needs(inodes, disk, i, lo, EndBlock(off, n))
  {
    hide Grown, TopGrown, Needs, Need, EndBlock;
    var lo, bn := off / BSIZE, (off + tot) / BSIZE;
    EndBlockStep(off, tot, m);
    EndBlockMore(off, tot + m, n);
    NeedsStep(inodes, disk, inodes1, disk1, i, lo, bn, EndBlock(off, tot), bn + 1);
    NeedIs(inodes1, disk1, i, bn);
    NeedsMore(inodes, disk, i, lo, bn + 1, EndBlock(off, n));
  }

  lemma EndBlockMore(off: nat, m: nat, n: nat)
    requires m <= n
    ensures off / BSIZE <= EndBlock(off, m) <= EndBlock(off, n)
  {
  }

  lemma EndBlockStart(off: nat)
    requires off <= MAXBYTES
    ensures EndBlock(off, 0) == off / BSIZE <= MAXFILE
  {
  }

  lemma LoopStep(g: Geometry, inodes: seq<Inode>, disk: seq<Block>, inodes1: seq<Inode>, disk1: seq<Block>,
                 inodes2: seq<Inode>, disk2: seq<Block>,
                 i: nat, off: nat, src: seq<byte>, tot: nat, m: nat)
    requires i < |inodes| && tot + m <= |src| && 1 <= m && (off + tot) % BSIZE + m <= BSIZE && off + |src| <= MAXBYTES
    requires OnlyAddrs(inodes, inodes1, i) && OnlyAddrs(inodes1, inodes2, i)
    requires && Wrote(inodes, disk, inodes1, disk1, i, off, src[..tot])
             && Wrote(inodes1, disk1, inodes2, disk2, i, off + tot, src[tot..tot + m])
    requires Grown(inodes, disk, inodes1, disk1, i, off / BSIZE, EndBlock(off, tot))
    requires var bn := (off + tot) / BSIZE;
             && Grown(inodes1, disk1, inodes2, disk2, i, bn, bn + 1)
             && (At(inodes1, disk1, DataSlot(i, bn)) != 0 ==> inodes2 == inodes1)
    requires HoleFree(inodes, disk, i) && inodes1 != inodes ==> off + tot > inodes[i].size
    ensures OnlyAddrs(inodes, inodes2, i)
    ensures Wrote(inodes, disk, inodes2, disk2, i, off, src[..tot + m])
    ensures Grown(inodes, disk, inodes2, disk2, i, off / BSIZE, EndBlock(off, tot + m))
    ensures HoleFree(inodes, disk, i) && inodes2 != inodes ==> off + tot + m > inodes[i].size
  {
    hide At, Wrote, Grown, EndBlock, HoleFree;
    EndBlockStep(off, tot, m);
    assert src[..tot + m] == src[..tot] + src[tot..tot + m];
    WroteStep(inodes, disk, inodes1, disk1, inodes2, disk2, i, off, src[..tot], src[tot..tot + m]);
    GrownStep(inodes, disk, inodes1, disk1, inodes2, disk2, i, off / BSIZE, EndBlock(off, tot), (off + tot) / BSIZE,
              (off + tot) / BSIZE + 1);
    if HoleFree(inodes, disk, i) && inodes2 != inodes1 {
      MissingIsPast(inodes, disk, inodes1, disk1, i, off / BSIZE, EndBlock(off, tot), off + tot);
    }
  }

  lemma MineAll(g: Geometry, inodes: seq<Inode>, disk: seq<Block>, inodes1: seq<Inode>, disk1: seq<Block>,
                inodes2: seq<Inode>, disk2: seq<Block>,
                i: nat, lo: nat, hi: nat, bn: nat, logged: set<nat>, logged1: set<nat>, logged2: set<nat>)
    requires i < |inodes| && lo <= bn <= hi <= bn + 1 <= MAXFILE
    requires Grown(inodes, disk, inodes1, disk1, i, lo, hi) && Grown(inodes1, disk1, inodes2, disk2, i, bn, bn + 1)
    requires inodes1[i].addrs[NDIRECT] != 0 ==> inodes2[i].addrs[NDIRECT] == inodes1[i].addrs[NDIRECT]
    requires forall c :: c in logged1 ==> c in logged || Mine(g, inodes1, disk1, i, lo, hi, c)
    requires forall c :: c in logged2 ==> c in logged1 || Mine(g, inodes2, disk2, i, bn, bn + 1, c)
    ensures forall c :: c in logged2 ==> c in logged || Mine(g, inodes2, disk2, i, lo, bn + 1, c)
  {
    hide At, Mine;
    GrownExist(inodes, disk, inodes1, disk1, i, lo, hi);
    forall c | c in logged2 && c !in logged ensures Mine(g, inodes2, disk2, i, lo, bn + 1, c) {
      MineStep(g, inodes1, disk1, inodes2, disk2, i, lo, hi, bn, c);
    }
  }

  /** No file is larger than its slots allow. */
  ghost predicate Sized(inodes: seq<Inode>) {
    forall j :: 0 <= j < |inodes| ==> inodes[j].size <= MAXBYTES
  }

  /** c with data written over it at off. */
  ghost function Splice(c: seq<byte>, off: nat, data: seq<byte>): (r: seq<byte>)
    requires off <= |c|
  {
    c[..off] + data + if off + |data| < |c| then c[off + |data|..] else []
  }

  function Max(a: int, b: int): int {
    if a < b then b else a
  }

  /** What writei() and readi() leave of the other files. */
  ghost predicate OthersSame(inodes: seq<Inode>, disk: seq<Block>, inodes': seq<Inode>, disk': seq<Block>, i: nat) {
    && |inodes'| == |inodes|
    && forall j :: 0 <= j < |inodes| && j != i && inodes[j].size <= MAXBYTES ==>
         inodes'[j] == inodes[j] && Content(inodes', disk', j) == Content(inodes, disk, j)
  }

  /** writei() on a file: none is the panic of a full disk.  Overwriting needs no free block. */
  method Writei(fs: FileSys, i: nat, src: seq<byte>, off: uint32) returns (r: Option<int>)
    requires fs.Valid() && i < |fs.inodes| && Sized(fs.inodes) && |src| < UINT_LIMIT && fs.inodes[i].kind != T_DEV
    modifies fs`disk, fs`inodes, fs`dinodes, fs`owner, fs`logged
    ensures r.None? <==> && off <= old(fs.inodes[i].size) && off + |src| <= MAXBYTES
                         && Room(fs.g, old(fs.owner)) < Needs(old(fs.inodes), old(fs.disk), i, off / BSIZE,
                                                              EndBlock(off, |src|))
    ensures r.None? ==>
              Full(fs.g, fs.disk) && !(old(HoleFree(fs.inodes, fs.disk, i)) && off + |src| <= old(fs.inodes[i].size))
    ensures r == Some(-1) ==> (off > old(fs.inodes[i].size) || off + |src| > MAXBYTES)
    ensures off > old(fs.inodes[i].size) || off + |src| > MAXBYTES ==>
              && r == Some(-1) && fs.disk == old(fs.disk) && fs.inodes == old(fs.inodes)
              && fs.dinodes == old(fs.dinodes) && fs.owner == old(fs.owner) && fs.logged == old(fs.logged)
    ensures r.Some? && r.value != -1 ==>
              && r.value == |src| && fs.Valid() && Sized(fs.inodes) && |fs.inodes| == old(|fs.inodes|)
              && Room(fs.g, fs.owner) ==
                 Room(fs.g, old(fs.owner)) - Needs(old(fs.inodes), old(fs.disk), i, off / BSIZE, EndBlock(off, |src|))
              && TopGrown(old(fs.inodes), fs.inodes, i, off / BSIZE, EndBlock(off, |src|))
              && Grown(old(fs.inodes), old(fs.disk), fs.inodes, fs.disk, i, off / BSIZE, EndBlock(off, |src|))
              && fs.inodes[i] ==
                   old(fs.inodes[i]).(addrs := fs.inodes[i].addrs, size := Max(old(fs.inodes[i].size), off + |src|))
              && Content(fs.inodes, fs.disk, i) == Splice(old(Content(fs.inodes, fs.disk, i)), off, src)
              && OthersSame(old(fs.inodes), old(fs.disk), fs.inodes, fs.disk, i)
              && (forall j ::
                    0 <= j < |fs.inodes| && old(HoleFree(fs.inodes, fs.disk, j)) ==> HoleFree(fs.inodes, fs.disk, j))
              && (forall j :: 0 <= j < |fs.dinodes| && j != i ==> fs.dinodes[j] == old(fs.dinodes[j]))
              && (old(HoleFree(fs.inodes, fs.disk, i) && fs.dinodes[i] == fs.inodes[i]) ==>
                    fs.dinodes[i] == fs.inodes[i])
              && EndBlock(off, |src|) <= MAXFILE
              && forall c :: c in fs.logged ==>
                   || c in old(fs.logged) || c == InodeBlock(fs.g, i)
                   || Mine(fs.g, fs.inodes, fs.disk, i, off / BSIZE, EndBlock(off, |src|), c)
  {
    hide Owned, At, Wrote, Grown, Full, HoleFree, Mine, EndBlock, Content, Covers, Needs;
    var n := |src|;
    if off > fs.inodes[i].size || (off + n) % UINT_LIMIT < off {
      return Some(-1);
    }
    if off + n > MAXBYTES {
      return Some(-1);
    }
    var ok := WriteLoop(fs, i, src, off);
    if !ok {
      return None;
    }
    ghost var inodes1 := fs.inodes;
    if n > 0 && off + n > fs.inodes[i].size {
      fs.inodes := fs.inodes[i := fs.inodes[i].(size := off + n)];
      fs.Iupdate(i);
    }
    Resized(fs.g, inodes1, fs.disk, fs.inodes, fs.owner, i, off / BSIZE, EndBlock(off, n));
    ResizedGrown(old(fs.inodes), old(fs.disk), inodes1, fs.disk, fs.inodes, i, off / BSIZE, EndBlock(off, n));
    WrittenContent(old(fs.inodes), old(fs.disk), inodes1, fs.disk, fs.inodes, i, off, src);
    WrittenOthers(old(fs.inodes), old(fs.disk), inodes1, fs.disk, fs.inodes, i, off, src);
    WrittenHoles(old(fs.inodes), old(fs.disk), inodes1, fs.disk, fs.inodes, i, off, n);
    return Some(n);
  }

  /** The size field does not matter to block numbers. */
  lemma Resized(g: Geometry, inodes: seq<Inode>, disk: seq<Block>, inodes': seq<Inode>, owner: map<nat, Slot>,
                i: nat, lo: nat, hi: nat)
    requires Owned(g, inodes, disk, {}, owner) && |inodes'| == |inodes| && i < |inodes| && hi <= MAXFILE
    requires forall j :: 0 <= j < |inodes| ==> inodes'[j].addrs == inodes[j].addrs
    ensures Owned(g, inodes', disk, {}, owner)
    ensures forall c :: Mine(g, inodes, disk, i, lo, hi, c) ==> Mine(g, inodes', disk, i, lo, hi, c)
  {
    hide Owned;
    SizeOnly(g, inodes, disk, inodes', owner);
    forall c | Mine(g, inodes, disk, i, lo, hi, c) ensures Mine(g, inodes', disk, i, lo, hi, c) {
      if n :| lo <= n < hi && c == At(inodes, disk, DataSlot(i, n)) {
        assert At(inodes', disk, DataSlot(i, n)) == c;
      }
    }
  }

  lemma ResizedGrown(inodes: seq<Inode>, disk: seq<Block>, inodes1: seq<Inode>, disk': seq<Block>, inodes': seq<Inode>,
                     i: nat, lo: nat, hi: nat)
    requires Grown(inodes, disk, inodes1, disk', i, lo, hi) && |inodes'| == |inodes|
    requires forall j :: 0 <= j < |inodes| ==> inodes'[j].addrs == inodes1[j].addrs
    ensures Grown(inodes, disk, inodes', disk', i, lo, hi)
  {
    forall j, bn | 0 <= j < |inodes| && 0 <= bn < MAXFILE
      ensures NumOk(inodes, disk, inodes', disk', i, lo, hi, j, bn)
    {
      assert NumOk(inodes, disk, inodes1, disk', i, lo, hi, j, bn);
      assert At(inodes', disk', DataSlot(j, bn)) == At(inodes1, disk', DataSlot(j, bn));
    }
  }

  /** The size field does not matter to a byte. */
  lemma ResizedByte(inodes: seq<Inode>, disk: seq<Block>, inodes': seq<Inode>, j: nat, p: nat)
    requires |inodes'| == |inodes| && j < |inodes| && p < MAXBYTES && inodes'[j].addrs == inodes[j].addrs
    ensures ByteAt(inodes', disk, j, p) == ByteAt(inodes, disk, j, p)
  {
  }

  lemma WrittenContent(inodes: seq<Inode>, disk: seq<Block>, inodes1: seq<Inode>, disk': seq<Block>,
                       inodes': seq<Inode>, i: nat, off: nat, src: seq<byte>)
    requires && i < |inodes| && |inodes1| == |inodes| && inodes[i].size <= MAXBYTES && off <= inodes[i].size
             && off + |src| <= MAXBYTES
    requires Wrote(inodes, disk, inodes1, disk', i, off, src)
    requires && |inodes'| == |inodes| && inodes'[i].addrs == inodes1[i].addrs
             && inodes'[i].size == Max(inodes[i].size, off + |src|)
    ensures Content(inodes', disk', i) == Splice(Content(inodes, disk, i), off, src)
  {
    hide ByteAt;
    var c, c' := Content(inodes, disk, i), Content(inodes', disk', i);
    forall p | 0 <= p < |c'| ensures c'[p] == Splice(c, off, src)[p] {
      ResizedByte(inodes1, disk', inodes', i, p);
      assert ByteOk(inodes, disk, inodes1, disk', i, off, src, i, p);
    }
  }

  lemma WrittenOthers(inodes: seq<Inode>, disk: seq<Block>, inodes1: seq<Inode>, disk': seq<Block>,
                      inodes': seq<Inode>, i: nat, off: nat, src: seq<byte>)
    requires i < |inodes| && Wrote(inodes, disk, inodes1, disk', i, off, src) && OnlyAddrs(inodes, inodes1, i)
    requires |inodes'| == |inodes| && forall j :: 0 <= j < |inodes| && j != i ==> inodes'[j] == inodes1[j]
    ensures OthersSame(inodes, disk, inodes', disk', i)
  {
    hide ByteAt;
    forall j | 0 <= j < |inodes| && j != i && inodes[j].size <= MAXBYTES
      ensures Content(inodes', disk', j) == Content(inodes, disk, j)
    {
      forall p | 0 <= p < inodes[j].size ensures ByteAt(inodes', disk', j, p) == ByteAt(inodes, disk, j, p) {
        ResizedByte(inodes1, disk', inodes', j, p);
        assert ByteOk(inodes, disk, inodes1, disk', i, off, src, j, p);
      }
    }
  }

  /** A write that starts within the file leaves no hole. */
  lemma WrittenHoles(inodes: seq<Inode>, disk: seq<Block>, inodes1: seq<Inode>, disk': seq<Block>,
                     inodes': seq<Inode>, i: nat, off: nat, n: nat)
    requires i < |inodes| && off <= inodes[i].size && off + n <= MAXBYTES
    requires Grown(inodes, disk, inodes1, disk', i, off / BSIZE, EndBlock(off, n)) && OnlyAddrs(inodes, inodes1, i)
    requires && |inodes'| == |inodes|
             && (forall j :: 0 <= j < |inodes| ==> inodes'[j] == inodes1[j].(size := inodes'[j].size))
    requires && inodes'[i].size == Max(inodes[i].size, off + n)
             && forall j :: 0 <= j < |inodes| && j != i ==> inodes'[j] == inodes1[j]
    ensures forall j :: 0 <= j < |inodes| && HoleFree(inodes, disk, j) ==> HoleFree(inodes', disk', j)
  {
    forall j | 0 <= j < |inodes| && HoleFree(inodes, disk, j) ensures HoleFree(inodes', disk', j) {
      forall bn | 0 <= bn < MAXFILE ensures At(inodes', disk', DataSlot(j, bn)) != 0 <==> bn < Extent(inodes'[j].size) {
        assert NumOk(inodes, disk, inodes1, disk', i, off / BSIZE, EndBlock(off, n), j, bn);
        assert At(inodes', disk', DataSlot(j, bn)) == At(inodes1, disk', DataSlot(j, bn));
        ExtentOfWrite(inodes[i].size, off, n, bn);
      }
    }
  }

  lemma ExtentOfWrite(size: nat, off: nat, n: nat, bn: nat)
    requires off <= size
    ensures bn < Extent(Max(size, off + n)) <==> bn < Extent(size) || off / BSIZE <= bn < EndBlock(off, n)
  {
  }

  // --------------------------------------------------------------- readi

  /** One iteration of readi(): m bytes from the block of off. */
  method ReadBlock(fs: FileSys, i: nat, off: nat, m: nat) returns (ok: bool, data: seq<byte>)
    requires fs.Valid() && i < |fs.inodes| && off < MAXBYTES && off % BSIZE + m <= BSIZE && off + m <= MAXBYTES
    modifies fs`disk, fs`inodes, fs`owner, fs`logged
    ensures ok <==> Room(fs.g, old(fs.owner)) >= Need(old(fs.inodes), old(fs.disk), i, off / BSIZE)
    ensures !ok ==> Full(fs.g, fs.disk) && At(old(fs.inodes), old(fs.disk), DataSlot(i, off / BSIZE)) == 0
    ensures ok ==>
              && fs.Valid() && OnlyAddrs(old(fs.inodes), fs.inodes, i)
              && Room(fs.g, fs.owner) == Room(fs.g, old(fs.owner)) - Need(old(fs.inodes), old(fs.disk), i, off / BSIZE)
              && TopGrown(old(fs.inodes), fs.inodes, i, off / BSIZE, off / BSIZE + 1)
              && Grown(old(fs.inodes), old(fs.disk), fs.inodes, fs.disk, i, off / BSIZE, off / BSIZE + 1)
              && Wrote(old(fs.inodes), old(fs.disk), fs.inodes, fs.disk, i, 0, [])
              && |data| == m && (forall k :: 0 <= k < m ==> data[k] == ByteAt(old(fs.inodes), old(fs.disk), i, off + k))
              && (At(old(fs.inodes), old(fs.disk), DataSlot(i, off / BSIZE)) != 0 ==>
                    && fs.disk == old(fs.disk) && fs.inodes == old(fs.inodes) && fs.owner == old(fs.owner)
                    && fs.logged == old(fs.logged))
  {
    hide Owned, At, Mapping, Wrote, InUse, Grown, Covers, Full;
    var bn := off / BSIZE;
    var r := fs.Bmap(i, bn);
    if r.None? {
      return false, [];
    }
    MappedGrown(old(fs.inodes), old(fs.disk), fs.inodes, fs.disk, i, bn);
    MapReadsSame(old(fs.inodes), old(fs.disk), fs.inodes, fs.disk, i, bn);
    MappingOnly(old(fs.inodes), old(fs.disk), fs.inodes, fs.disk, i, DataSlot(i, bn));
    data := fs.disk[r.value][off % BSIZE..off % BSIZE + m];
    forall k | 0 <= k < m ensures data[k] == ByteAt(old(fs.inodes), old(fs.disk), i, off + k) {
      InBlock(off, k);
      SameByte(old(fs.inodes), old(fs.disk), fs.inodes, fs.disk, i, off + k);
    }
    return true, data;
  }

  lemma SameByte(inodes: seq<Inode>, disk: seq<Block>, inodes': seq<Inode>, disk': seq<Block>, i: nat, p: nat)
    requires i < |inodes| && p < MAXBYTES && Wrote(inodes, disk, inodes', disk', i, 0, [])
    ensures ByteAt(inodes', disk', i, p) == ByteAt(inodes, disk, i, p)
  {
    hide ByteAt;
    assert ByteOk(inodes, disk, inodes', disk', i, 0, [], i, p);
  }

  /** The loop of readi(). */
  method ReadLoop(fs: FileSys, i: nat, off: nat, n: nat) returns (ok: bool, dst: seq<byte>)
    requires fs.Valid() && i < |fs.inodes| && off + n <= fs.inodes[i].size <= MAXBYTES
    modifies fs`disk, fs`inodes, fs`owner, fs`logged
    ensures ok <==> Room(fs.g, old(fs.owner)) >= Needs(old(fs.inodes), old(fs.disk), i, off / BSIZE, EndBlock(off, n))
    ensures !ok ==> Full(fs.g, fs.disk) && !old(HoleFree(fs.inodes, fs.disk, i))
    ensures ok ==>
              && fs.Valid() && OnlyAddrs(old(fs.inodes), fs.inodes, i)
              && Wrote(old(fs.inodes), old(fs.disk), fs.inodes, fs.disk, i, 0, [])
              && dst == old(Content(fs.inodes, fs.disk, i))[off..off + n]
              && (old(HoleFree(fs.inodes, fs.disk, i)) ==>
                    && fs.disk == old(fs.disk) && fs.inodes == old(fs.inodes) && fs.owner == old(fs.owner)
                    && fs.logged == old(fs.logged))
  {
    hide Owned, At, Wrote, Full, ByteAt, HoleFree, Covers, Needs, Need, EndBlock, Grown, TopGrown;
    ghost var lo := off / BSIZE;
    ghost var c := Content(fs.inodes, fs.disk, i);
    var tot, o := 0, off;
    dst := [];
    UnwrittenSame(fs.inodes, fs.disk, i, 0);
    NothingTaken(fs.g, fs.inodes, fs.disk, fs.owner, i, off);
    RoomIs(fs.g, fs.inodes, fs.disk, {}, fs.owner);
    while tot < n
      invariant && 0 <= tot <= n && o == off + tot && fs.Valid() && |fs.inodes| == old(|fs.inodes|)
                && OnlyAddrs(old(fs.inodes), fs.inodes, i)
      invariant Wrote(old(fs.inodes), old(fs.disk), fs.inodes, fs.disk, i, 0, [])
      invariant Taken(fs.g, old(fs.inodes), old(fs.disk), old(fs.owner), fs.inodes, fs.disk, fs.owner, i, lo,
                      EndBlock(off, tot))
      invariant 0 <= Room(fs.g, fs.owner)
      invariant dst == c[off..off + tot]
      invariant old(HoleFree(fs.inodes, fs.disk, i)) ==>
                  && fs.disk == old(fs.disk) && fs.inodes == old(fs.inodes) && fs.owner == old(fs.owner)
                  && fs.logged == old(fs.logged)
    {
      var m := if n - tot < BSIZE - o % BSIZE then n - tot else BSIZE - o % BSIZE;
      ghost var inodes1, disk1, owner1 := fs.inodes, fs.disk, fs.owner;
      LoopNeeds(old(fs.inodes), old(fs.disk), fs.inodes, fs.disk, i, off, tot, m, n);
      if HoleFree(old(fs.inodes), old(fs.disk), i) {
        CoveredBlock(old(fs.inodes), old(fs.disk), i, o);
      }
      var data;
      ok, data := ReadBlock(fs, i, o, m);
      if !ok {
        return;
      }
      WroteAfterMap(old(fs.inodes), old(fs.disk), inodes1, disk1, fs.inodes, fs.disk, i, 0, []);
      TakenBlock(fs.g, old(fs.inodes), old(fs.disk), old(fs.owner), inodes1, disk1, owner1, fs.inodes, fs.disk,
                 fs.owner, i, off, tot, m);
      RoomIs(fs.g, fs.inodes, fs.disk, {}, fs.owner);
      forall k | 0 <= k < m ensures data[k] == c[o + k] {
        SameByte(old(fs.inodes), old(fs.disk), inodes1, disk1, i, o + k);
      }
      assert c[off..off + tot + m] == c[off..off + tot] + data;
      dst := dst + data;
      tot := tot + m;
      o := o + m;
    }
    return true, dst;
  }

  lemma TakenBlock(g: Geometry, inodes: seq<Inode>, disk: seq<Block>, owner: map<nat, Slot>, inodes1: seq<Inode>,
                   disk1: seq<Block>, owner1: map<nat, Slot>, inodes2: seq<Inode>, disk2: seq<Block>,
                   owner2: map<nat, Slot>, i: nat, off: nat, tot: nat, m: nat)
    requires 1 <= m && (off + tot) % BSIZE + m <= BSIZE && off + tot + m <= MAXBYTES
    requires Taken(g, inodes, disk, owner, inodes1, disk1, owner1, i, off / BSIZE, EndBlock(off, tot))
    requires i < |inodes1| == |inodes2|
    requires var bn := (off + tot) / BSIZE;
             && Grown(inodes1, disk1, inodes2, disk2, i, bn, bn + 1) && TopGrown(inodes1, inodes2, i, bn, bn + 1)
             && bn < MAXFILE && Room(g, owner2) == Room(g, owner1) - Need(inodes1, disk1, i, bn)
    ensures Taken(g, inodes, disk, owner, inodes2, disk2, owner2, i, off / BSIZE, EndBlock(off, tot + m))
  {
    hide Grown, TopGrown, Needs, Need, EndBlock;
    EndBlockStep(off, tot, m);
    var bn := (off + tot) / BSIZE;
    NeedIs(inodes1, disk1, i, bn);
    EndsTogether(off + tot, m);
    ChunkTakes(g, inodes, disk, owner, inodes1, disk1, owner1, inodes2, disk2, owner2, i, off, tot, m);
  }

  lemma EndsTogether(o: nat, m: nat)
    requires 1 <= m && o % BSIZE + m <= BSIZE
    ensures EndBlock(o, m) == o / BSIZE + 1
  {
  }

  lemma CoveredBlock(inodes: seq<Inode>, disk: seq<Block>, i: nat, o: nat)
    requires i < |inodes| && HoleFree(inodes, disk, i) && o < inodes[i].size
    ensures At(inodes, disk, DataSlot(i, o / BSIZE)) != 0
  {
    hide At;
    assert o / BSIZE < Extent(inodes[i].size);
  }

  /** readi() on a file: the bytes of the file from off, cut at its size.  Without holes it changes nothing. */
  method Readi(fs: FileSys, i: nat, off: uint32, n: uint32) returns (r: Option<int>, dst: seq<byte>)
    requires fs.Valid() && i < |fs.inodes| && Sized(fs.inodes) && fs.inodes[i].kind != T_DEV
    modifies fs`disk, fs`inodes, fs`owner, fs`logged
    ensures r.None? <==>
              && off <= old(fs.inodes[i].size) && off + n < UINT_LIMIT
              && var m := if off + n > old(fs.inodes[i].size) then old(fs.inodes[i].size) - off else n;
                 Room(fs.g, old(fs.owner)) < Needs(old(fs.inodes), old(fs.disk), i, off / BSIZE, EndBlock(off, m))
    ensures r.None? ==> Full(fs.g, fs.disk) && !old(HoleFree(fs.inodes, fs.disk, i))
    ensures r == Some(-1) <==> off > old(fs.inodes[i].size) || off + n >= UINT_LIMIT
    ensures r == Some(-1) ==>
              && fs.disk == old(fs.disk) && fs.inodes == old(fs.inodes) && fs.owner == old(fs.owner)
              && fs.logged == old(fs.logged)
    ensures r.Some? && r.value != -1 ==>
              && fs.Valid() && Sized(fs.inodes)
              && r.value == (if off + n > old(fs.inodes[i].size) then old(fs.inodes[i].size) - off else n)
              && dst == old(Content(fs.inodes, fs.disk, i))[off..off + r.value]
              && |fs.inodes| == old(|fs.inodes|) && OthersSame(old(fs.inodes), old(fs.disk), fs.inodes, fs.disk, i)
              && fs.inodes[i].size == old(fs.inodes[i].size)
              && Content(fs.inodes, fs.disk, i) == old(Content(fs.inodes, fs.disk, i))
    ensures old(HoleFree(fs.inodes, fs.disk, i)) ==>
              && fs.disk == old(fs.disk) && fs.inodes == old(fs.inodes) && fs.owner == old(fs.owner)
              && fs.logged == old(fs.logged)
  {
    hide Owned, At, Wrote, Full, HoleFree, Content, Grown, Covers, Needs, EndBlock;
    if off > fs.inodes[i].size || (off + n) % UINT_LIMIT < off {
      return Some(-1), [];
    }
    var m := if off + n > fs.inodes[i].size then fs.inodes[i].size - off else n;
    var ok;
    ok, dst := ReadLoop(fs, i, off, m);
    if !ok {
      return None, [];
    }
    WrittenOthers(old(fs.inodes), old(fs.disk), fs.inodes, fs.disk, fs.inodes, i, 0, []);
    WrittenContent(old(fs.inodes), old(fs.disk), fs.inodes, fs.disk, fs.inodes, i, 0, []);
    return Some(m), dst;
  }

  // --------------------------------------------------------------- filewrite

  const MAXCHUNK: nat := 1536

  /** max in filewrite() */
  lemma ChunkBytes()
    ensures MAXCHUNK == (MAXOPBLOCKS - 1 - 1 - 2) / 2 * BSIZE
  {
  }

  ghost function Numbers(inodes: seq<Inode>, disk: seq<Block>, i: nat, lo: nat, hi: nat): (r: set<nat>)
    requires i < |inodes| && lo <= hi <= MAXFILE
    decreases hi
  {
    if lo == hi then {} else Numbers(inodes, disk, i, lo, hi - 1) + {At(inodes, disk, DataSlot(i, hi - 1))}
  }

  lemma {:induction false} NumbersAre(inodes: seq<Inode>, disk: seq<Block>, i: nat, lo: nat, hi: nat)
    requires i < |inodes| && lo <= hi <= MAXFILE
    ensures |Numbers(inodes, disk, i, lo, hi)| <= hi - lo
    ensures forall bn :: lo <= bn < hi ==> At(inodes, disk, DataSlot(i, bn)) in Numbers(inodes, disk, i, lo, hi)
    decreases hi
  {
    if lo < hi {
      NumbersAre(inodes, disk, i, lo, hi - 1);
    }
  }

  /** A transaction that logs only an inode block, the one map block, an indirect block and the blocks of at most
      MAXCHUNK bytes logs at most 7 blocks. */
  lemma ChunkLogs(g: Geometry, inodes: seq<Inode>, disk: seq<Block>, i: nat, off: nat, n: nat, logged: set<nat>)
    requires i < |inodes| && n <= MAXCHUNK && EndBlock(off, n) <= MAXFILE && g.size < BPB
    requires forall c ::
               c in logged ==> c == InodeBlock(g, i) || Mine(g, inodes, disk, i, off / BSIZE, EndBlock(off, n), c)
    ensures |logged| <= 7
  {
    hide At, Numbers, EndBlock;
    var lo, hi := off / BSIZE, EndBlock(off, n);
    ChunkSpan(off, n);
    NumbersAre(inodes, disk, i, lo, hi);
    var top: nat := inodes[i].addrs[NDIRECT];
    var three, some := {InodeBlock(g, i), g.bmapstart, top}, Numbers(inodes, disk, i, lo, hi);
    ThreeAtMost(InodeBlock(g, i), g.bmapstart, top);
    UnionSize(three, some);
    forall c | c in logged ensures c in three + some {
      if Mine(g, inodes, disk, i, lo, hi, c) {
        assert g.size / BPB == 0;
      }
    }
    SubsetSize(logged, three + some);
  }

  lemma ChunkSpan(off: nat, n: nat)
    requires n <= MAXCHUNK
    ensures off / BSIZE <= EndBlock(off, n) <= off / BSIZE + 4
  {
  }

  lemma ThreeAtMost(x: nat, y: nat, z: nat)
    ensures |{x, y, z}| <= 3
  {
    SubsetSize({x}, {x, y, z});
    assert {x, y, z} - {x} <= {y, z};
    SubsetSize({x, y, z} - {x}, {y, z});
    assert {y, z} - {y} <= {z};
    SubsetSize({y, z} - {y}, {z});
  }

  lemma UnionSize(a: set<nat>, b: set<nat>)
    ensures |a + b| <= |a| + |b|
  {
    assert a + b == a + (b - a);
    SubsetSize(b - a, b);
  }

  /** How many of n bytes filewrite() gets written at off: all of them, or the chunks that fit. */
  ghost function Fits(size: nat, off: nat, n: nat): (w: nat)
    ensures w <= n
  {
    if off > size then 0
    else if off + n <= MAXBYTES then n
    else if off <= MAXBYTES then (MAXBYTES - off) / MAXCHUNK * MAXCHUNK
    else 0
  }

  lemma FitsStep(size: nat, off: nat, n: nat, i: nat, n1: nat)
    requires i < n && n1 == (if n - i > MAXCHUNK then MAXCHUNK else n - i) && i % MAXCHUNK == 0
    requires off <= size && off + i <= MAXBYTES
    ensures off + i + n1 <= MAXBYTES ==> i + n1 <= Fits(size, off, n)
    ensures off + i + n1 > MAXBYTES ==> i == Fits(size, off, n) || i > Fits(size, off, n)
  {
  }

  lemma FitsNone(size: nat, off: nat, n: nat)
    requires off > size
    ensures Fits(size, off, n) == 0
  {
  }

  lemma SpliceNothing(c: seq<byte>, off: nat)
    requires off <= |c|
    ensures Splice(c, off, []) == c
  {
  }

  lemma SpliceTwice(c: seq<byte>, off: nat, a: seq<byte>, b: seq<byte>)
    requires off <= |c|
    ensures && |Splice(c, off, a)| == Max(|c|, off + |a|)
            && Splice(Splice(c, off, a), off + |a|, b) == Splice(c, off, a + b)
  {
  }

  lemma ChunkDone(g: Geometry, inodes: seq<Inode>, disk: seq<Block>, i: nat, off: nat, n: nat, logged: set<nat>)
    requires i < |inodes| && n <= MAXCHUNK && EndBlock(off, n) <= MAXFILE
    requires forall c ::
               c in logged ==> c == InodeBlock(g, i) || Mine(g, inodes, disk, i, off / BSIZE, EndBlock(off, n), c)
    ensures g.size < BPB ==> |logged| <= 7
  {
    hide Mine, EndBlock, At;
    if g.size < BPB {
      ChunkLogs(g, inodes, disk, i, off, n, logged);
    }
  }

  /** One transaction of filewrite(). */
  method WriteChunk(fs: FileSys, i: nat, src: seq<byte>, off: uint32) returns (r: Option<int>)
    requires fs.Valid() && i < |fs.inodes| && Sized(fs.inodes) && |src| <= MAXCHUNK && fs.inodes[i].kind != T_DEV
    modifies fs`disk, fs`inodes, fs`dinodes, fs`owner, fs`logged, fs`disk0, fs`dinodes0
    ensures fs.disk0 == old(fs.disk) && fs.dinodes0 == old(fs.dinodes)
    ensures r.None? <==> && off <= old(fs.inodes[i].size) && off + |src| <= MAXBYTES
                         && Room(fs.g, old(fs.owner)) < Needs(old(fs.inodes), old(fs.disk), i, off / BSIZE,
                                                              EndBlock(off, |src|))
    ensures r.None? ==> Full(fs.g, fs.disk)
    ensures r == Some(-1) <==> off > old(fs.inodes[i].size) || off + |src| > MAXBYTES
    ensures r == Some(-1) ==>
              && fs.Valid() && fs.disk == old(fs.disk) && fs.inodes == old(fs.inodes) && fs.dinodes == old(fs.dinodes)
              && fs.owner == old(fs.owner)
    ensures r.Some? && fs.g.size < BPB ==> |fs.logged| <= 7
    ensures r.Some? && r.value != -1 ==>
              && r.value == |src| && fs.Valid() && Sized(fs.inodes) && |fs.inodes| == old(|fs.inodes|)
              && Room(fs.g, fs.owner) ==
                 Room(fs.g, old(fs.owner)) - Needs(old(fs.inodes), old(fs.disk), i, off / BSIZE, EndBlock(off, |src|))
              && TopGrown(old(fs.inodes), fs.inodes, i, off / BSIZE, EndBlock(off, |src|))
              && Grown(old(fs.inodes), old(fs.disk), fs.inodes, fs.disk, i, off / BSIZE, EndBlock(off, |src|))
              && fs.inodes[i] ==
                 old(fs.inodes[i]).(addrs := fs.inodes[i].addrs, size := Max(old(fs.inodes[i].size), off + |src|))
              && Content(fs.inodes, fs.disk, i) == Splice(old(Content(fs.inodes, fs.disk, i)), off, src)
              && OthersSame(old(fs.inodes), old(fs.disk), fs.inodes, fs.disk, i)
              && (old(HoleFree(fs.inodes, fs.disk, i)) ==> HoleFree(fs.inodes, fs.disk, i))
              && (old(HoleFree(fs.inodes, fs.disk, i) && fs.dinodes == fs.inodes) ==> fs.dinodes == fs.inodes)
  {
    hide Owned, At, Full, HoleFree, Content, Splice, Mine, EndBlock, Needs, Grown, TopGrown, Covers;
    fs.BeginOp();
    r := Writei(fs, i, src, off);
    if r.Some? {
      if r.value != -1 {
        ChunkDone(fs.g, fs.inodes, fs.disk, i, off, |src|, fs.logged);
      }
    }
  }

  /** filewrite() on a file, one transaction a chunk.  logs collects what each transaction logged. */
  method Filewrite(fs: FileSys, i: nat, off0: uint32, addr: seq<byte>, n: int)
    returns (r: Option<int>, off: int, ghost logs: seq<set<nat>>)
    requires fs.Valid() && i < |fs.inodes| && Sized(fs.inodes) && fs.inodes[i].kind != T_DEV
    requires n <= |addr| < 0x8000_0000
    modifies fs`disk, fs`inodes, fs`dinodes, fs`owner, fs`logged, fs`disk0, fs`dinodes0
    ensures var w := if n < 0 then 0 else Fits(old(fs.inodes[i].size), off0, n);
            r.None? <==>
              Room(fs.g, old(fs.owner)) < Needs(old(fs.inodes), old(fs.disk), i, off0 / BSIZE, EndBlock(off0, w))
    ensures r.None? ==> Full(fs.g, fs.disk)
    ensures r.Some? ==>
              var w := if n < 0 then 0 else Fits(old(fs.inodes[i].size), off0, n);
              && r.value == (if w == n then n else -1) && off == off0 + w
              && fs.Valid() && Sized(fs.inodes) && |fs.inodes| == old(|fs.inodes|)
              && (old(HoleFree(fs.inodes, fs.disk, i)) ==> HoleFree(fs.inodes, fs.disk, i))
              && OthersSame(old(fs.inodes), old(fs.disk), fs.inodes, fs.disk, i)
              && Content(fs.inodes, fs.disk, i) ==
                 (if off0 <= old(fs.inodes[i].size) then Splice(old(Content(fs.inodes, fs.disk, i)), off0, addr[..w])
                  else old(Content(fs.inodes, fs.disk, i)))
    ensures fs.g.size < BPB ==> forall k :: 0 <= k < |logs| ==> |logs[k]| <= 7
  {
    hide Owned, At, Full, HoleFree, Content, Splice, Mine, EndBlock, Fits, Needs, Grown, TopGrown, Covers;
    var max := MAXCHUNK;
    var k := 0;
    off, logs := off0, [];
    ghost var size0, c0, lo := fs.inodes[i].size, Content(fs.inodes, fs.disk, i), off0 / BSIZE;
    ghost var w := if n < 0 then 0 else Fits(size0, off0, n);
    assert addr[..0] == [];
    if off0 <= size0 {
      SpliceNothing(c0, off0);
    }
    NothingTaken(fs.g, fs.inodes, fs.disk, fs.owner, i, off0);
    while k < n
      invariant && 0 <= k && (n >= 0 ==> k <= n) && (n < 0 ==> k == 0) && off == off0 + k
                && (k > 0 ==> off0 <= size0 && off0 + k <= MAXBYTES)
      invariant k % MAXCHUNK == 0 || k == n
      invariant k <= w
      invariant fs.Valid() && Sized(fs.inodes) && |fs.inodes| == old(|fs.inodes|) && fs.inodes[i].kind != T_DEV
      invariant old(HoleFree(fs.inodes, fs.disk, i)) ==> HoleFree(fs.inodes, fs.disk, i)
      invariant OthersSame(old(fs.inodes), old(fs.disk), fs.inodes, fs.disk, i)
      invariant Taken(fs.g, old(fs.inodes), old(fs.disk), old(fs.owner), fs.inodes, fs.disk, fs.owner, i, lo,
                      EndBlock(off0, k))
      invariant fs.inodes[i].size == if off0 <= size0 then Max(size0, off0 + k) else size0
      invariant Content(fs.inodes, fs.disk, i) == if off0 <= size0 then Splice(c0, off0, addr[..k]) else c0
      invariant fs.g.size < BPB ==> forall j :: 0 <= j < |logs| ==> |logs[j]| <= 7
    {
      var n1 := if n - k > max then max else n - k;
      ghost var inodes1, disk1, owner1 := fs.inodes, fs.disk, fs.owner;
      var res := WriteChunk(fs, i, addr[k..k + n1], off);
      if off0 <= size0 {
        FitsStep(size0, off0, n, k, n1);
      } else {
        FitsNone(size0, off0, n);
      }
      if res.None? {
        ChunkStops(fs.g, old(fs.inodes), old(fs.disk), old(fs.owner), inodes1, disk1, owner1, i, off0, k, n1, w);
        return None, off, logs;
      }
      logs := logs + [fs.logged];
      if res.value < 0 {
        break;
      }
      ChunkTakes(fs.g, old(fs.inodes), old(fs.disk), old(fs.owner), inodes1, disk1, owner1, fs.inodes, fs.disk,
                 fs.owner, i, off0, k, n1);
      SpliceTwice(c0, off0, addr[..k], addr[k..k + n1]);
      assert addr[..k] + addr[k..k + n1] == addr[..k + n1];
      off := off + res.value;
      k := k + res.value;
    }
    RoomIs(fs.g, fs.inodes, fs.disk, {}, fs.owner);
    return Some(if k == n then n else -1), off, logs;
  }

  /** The blocks lo..hi of file i have been made, out of what was free. */
  ghost predicate Taken(g: Geometry, inodes: seq<Inode>, disk: seq<Block>, owner: map<nat, Slot>, inodes': seq<Inode>,
                        disk': seq<Block>, owner': map<nat, Slot>, i: nat, lo: nat, hi: nat) {
    && i < |inodes| == |inodes'| && Grown(inodes, disk, inodes', disk', i, lo, hi)
    && TopGrown(inodes, inodes', i, lo, hi)
    && Room(g, owner') == Room(g, owner) - Needs(inodes, disk, i, lo, hi)
  }

  lemma NothingTaken(g: Geometry, inodes: seq<Inode>, disk: seq<Block>, owner: map<nat, Slot>, i: nat, off: nat)
    requires i < |inodes|
    ensures Taken(g, inodes, disk, owner, inodes, disk, owner, i, off / BSIZE, EndBlock(off, 0))
  {
    hide At, Missing;
    NeedsNothing(inodes, disk, i, off / BSIZE);
    UnwrittenSame(inodes, disk, i, off);
  }

  lemma ChunkEnds(off: nat, k: nat, n1: nat)
    requires n1 >= 1
    ensures var bn := (off + k) / BSIZE;
            off / BSIZE <= bn <= EndBlock(off, k) <= EndBlock(off + k, n1) == EndBlock(off, k + n1)
  {
  }

  lemma ChunkTakes(g: Geometry, inodes: seq<Inode>, disk: seq<Block>, owner: map<nat, Slot>, inodes1: seq<Inode>,
                   disk1: seq<Block>, owner1: map<nat, Slot>, inodes2: seq<Inode>, disk2: seq<Block>,
                   owner2: map<nat, Slot>, i: nat, off: nat, k: nat, n1: nat)
    requires n1 >= 1 && Taken(g, inodes, disk, owner, inodes1, disk1, owner1, i, off / BSIZE, EndBlock(off, k))
    requires Taken(g, inodes1, disk1, owner1, inodes2, disk2, owner2, i, (off + k) / BSIZE, EndBlock(off + k, n1))
    ensures Taken(g, inodes, disk, owner, inodes2, disk2, owner2, i, off / BSIZE, EndBlock(off, k + n1))
  {
    hide Grown, TopGrown, Needs, EndBlock;
    var lo, bn, h, hi := off / BSIZE, (off + k) / BSIZE, EndBlock(off, k), EndBlock(off + k, n1);
    ChunkEnds(off, k, n1);
    NeedsStep(inodes, disk, inodes1, disk1, i, lo, bn, h, hi);
    GrownStep(inodes, disk, inodes1, disk1, inodes2, disk2, i, lo, h, bn, hi);
    TopStep(inodes, inodes1, inodes2, i, lo, bn, h, hi);
  }

  lemma ChunkStops(g: Geometry, inodes: seq<Inode>, disk: seq<Block>, owner: map<nat, Slot>, inodes1: seq<Inode>,
                   disk1: seq<Block>, owner1: map<nat, Slot>, i: nat, off: nat, k: nat, n1: nat, w: nat)
    requires && n1 >= 1 && Taken(g, inodes, disk, owner, inodes1, disk1, owner1, i, off / BSIZE, EndBlock(off, k))
             && k + n1 <= w
    requires Room(g, owner1) < Needs(inodes1, disk1, i, (off + k) / BSIZE, EndBlock(off + k, n1))
    ensures Room(g, owner) < Needs(inodes, disk, i, off / BSIZE, EndBlock(off, w))
  {
    hide Grown, TopGrown, Needs, EndBlock;
    var lo, bn, h, hi := off / BSIZE, (off + k) / BSIZE, EndBlock(off, k), EndBlock(off + k, n1);
    ChunkEnds(off, k, n1);
    NeedsStep(inodes, disk, inodes1, disk1, i, lo, bn, h, hi);
    EndBlockMore(off, k + n1, w);
    NeedsMore(inodes, disk, i, lo, hi, EndBlock(off, w));
  }
}
