/**
  Block allocation and inode contents (fs.c).  disk is the latest contents of the blocks, which is what bread()
  returns; log_write() of a changed buffer makes the change the latest contents.  logged collects the blocks
  logged by the current operation, and disk0 and dinodes0 are the blocks and inodes on disk when it began.
 */
module Inodes {
  import opened Common
  import opened Blocks
  import opened FreeMap
  import opened Ownership

  const NOBLOCK: Addrs := [0, 0, 0, 0, 0, 0, 0, 0, 0, 0, 0, 0, 0]

  /** balloc()'s effect on the disk: bit b set, block b zeroed, data blocks otherwise alone. */
  ghost predicate Allocated(g: Geometry, before: seq<Block>, after: seq<Block>, b: nat)
    requires Sound(g) && |before| == |after| == g.size
  {
    && g.data <= b < g.size && after[b] == Zeros() && BitsBut(g, before, after, b, true)
    && forall c :: g.data <= c < g.size && c != b ==> after[c] == before[c]
  }

  /** bfree()'s effect on the disk: bit b clear, data blocks alone. */
  ghost predicate Released(g: Geometry, before: seq<Block>, after: seq<Block>, b: nat)
    requires Sound(g) && |before| == |after| == g.size
  {
    BitsBut(g, before, after, b, false) && forall c :: g.data <= c < g.size ==> after[c] == before[c]
  }

  ghost predicate MetaUsed(g: Geometry, disk: seq<Block>)
    requires Sound(g) && |disk| == g.size
  {
    forall c :: 0 <= c < g.data ==> InUse(g, disk, c)
  }

  /** No block is free. */
  ghost predicate Full(g: Geometry, disk: seq<Block>) {
    Sound(g) && |disk| == g.size && forall c :: 0 <= c < g.size ==> InUse(g, disk, c)
  }

  lemma OwnedMeta(g: Geometry, inodes: seq<Inode>, disk: seq<Block>, gone: set<Slot>, owner: map<nat, Slot>)
    requires Owned(g, inodes, disk, gone, owner)
    ensures Shaped(g, inodes, disk) && MetaUsed(g, disk)
  {
    hide InUse;
    forall c | 0 <= c < g.data ensures InUse(g, disk, c) {
      assert BitOk(g, disk, owner, c);
    }
  }

  // --------------------------------------------------------------- room on the disk

  /** How many blocks are free. */
  ghost function Room(g: Geometry, owner: map<nat, Slot>): (r: int) {
    g.size - g.data - |owner|
  }

  ghost function Range(lo: nat, hi: nat): (r: set<nat>)
    requires lo <= hi
    ensures |r| == hi - lo && forall c :: c in r <==> lo <= c < hi
    decreases hi
  {
    if lo == hi then {} else Range(lo, hi - 1) + {hi - 1}
  }

  lemma Within(a: set<nat>, b: set<nat>)
    requires a <= b
    ensures |a| <= |b| && (|a| == |b| ==> a == b)
  {
    assert b == a + (b - a);
    if |a| == |b| {
      assert b - a == {};
    }
  }

  lemma RoomIs(g: Geometry, inodes: seq<Inode>, disk: seq<Block>, gone: set<Slot>, owner: map<nat, Slot>)
    requires Owned(g, inodes, disk, gone, owner)
    ensures 0 <= Room(g, owner) && (Full(g, disk) <==> Room(g, owner) == 0)
  {
    hide InUse, Held;
    var all := Range(g.data, g.size);
    forall c | c in owner ensures c in all {
      assert BlockOk(g, inodes, disk, gone, owner, c);
    }
    Within(owner.Keys, all);
    forall c | 0 <= c < g.size ensures InUse(g, disk, c) <==> c < g.data || c in owner {
      assert BitOk(g, disk, owner, c);
    }
    if Full(g, disk) {
      assert owner.Keys == all;
    }
  }

  /** How many blocks bmap() takes for block bn of file i. */
  ghost function Need(inodes: seq<Inode>, disk: seq<Block>, i: nat, bn: nat): (n: nat)
    requires i < |inodes| && bn < MAXFILE
    ensures n <= 2
  {
    if At(inodes, disk, DataSlot(i, bn)) != 0 then 0
    else if bn >= NDIRECT && inodes[i].addrs[NDIRECT] == 0 then 2
    else 1
  }

  // --------------------------------------------------------------- what an operation logs

  /** A block of the free map. */
  ghost predicate MapBlock(g: Geometry, c: nat) {
    g.bmapstart <= c <= g.bmapstart + g.size / BPB
  }

  /** Nothing but blocks of the free map is newly logged. */
  ghost predicate OnlyMaps(g: Geometry, was: set<nat>, now: set<nat>) {
    forall c :: c in now ==> c in was || MapBlock(g, c)
  }

  /** Block b is as it was, or logged. */
  ghost predicate BlockCovered(disk0: seq<Block>, disk: seq<Block>, logged: set<nat>, b: nat)
    requires b < |disk0| == |disk|
  {
    b in logged || disk[b] == disk0[b]
  }

  /** The inode on disk is as it was, or its block is logged. */
  ghost predicate InodeCovered(g: Geometry, dinodes0: seq<Inode>, dinodes: seq<Inode>, logged: set<nat>, i: nat)
    requires i < |dinodes0| == |dinodes|
  {
    InodeBlock(g, i) in logged || dinodes[i] == dinodes0[i]
  }

  function InodeBlock(g: Geometry, i: nat): (b: nat) {
    g.inodestart + i / IPB
  }

  ghost predicate Covers(g: Geometry, disk0: seq<Block>, disk: seq<Block>, dinodes0: seq<Inode>, dinodes: seq<Inode>,
                         logged: set<nat>) {
    && |disk0| == |disk| && |dinodes0| == |dinodes|
    && (forall b :: 0 <= b < |disk| ==> BlockCovered(disk0, disk, logged, b))
    && (forall i :: 0 <= i < |dinodes| ==> InodeCovered(g, dinodes0, dinodes, logged, i))
    && (forall c :: c in logged ==> Loggable(g, c))
  }

  /** A block that operations log: of inodes, of the map or of data. */
  ghost predicate Loggable(g: Geometry, c: nat) {
    g.inodestart <= c < g.size
  }

  lemma CoversWrite(g: Geometry, disk0: seq<Block>, disk: seq<Block>, dinodes0: seq<Inode>, dinodes: seq<Inode>,
                    logged: set<nat>, b: nat, data: Block)
    requires Covers(g, disk0, disk, dinodes0, dinodes, logged) && b < |disk| && Loggable(g, b)
    ensures Covers(g, disk0, disk[b := data], dinodes0, dinodes, logged + {b})
  {
    var disk', logged' := disk[b := data], logged + {b};
    forall c | 0 <= c < |disk| ensures BlockCovered(disk0, disk', logged', c) {
      assert BlockCovered(disk0, disk, logged, c);
    }
    forall i | 0 <= i < |dinodes| ensures InodeCovered(g, dinodes0, dinodes, logged', i) {
      assert InodeCovered(g, dinodes0, dinodes, logged, i);
    }
  }

  lemma CoversUpdate(g: Geometry, disk0: seq<Block>, disk: seq<Block>, dinodes0: seq<Inode>, dinodes: seq<Inode>,
                     logged: set<nat>, i: nat, x: Inode)
    requires Covers(g, disk0, disk, dinodes0, dinodes, logged) && i < |dinodes| && Loggable(g, InodeBlock(g, i))
    ensures Covers(g, disk0, disk, dinodes0, dinodes[i := x], logged + {InodeBlock(g, i)})
  {
    var dinodes', logged' := dinodes[i := x], logged + {InodeBlock(g, i)};
    forall c | 0 <= c < |disk| ensures BlockCovered(disk0, disk, logged', c) {
      assert BlockCovered(disk0, disk, logged, c);
    }
    forall j | 0 <= j < |dinodes| ensures InodeCovered(g, dinodes0, dinodes', logged', j) {
      assert InodeCovered(g, dinodes0, dinodes, logged, j);
    }
  }

  /** The scan of one map block in balloc(): the first of its n bits that is clear, else n. */
  method ScanMapBlock(bp: Block, n: nat) returns (bi: nat)
    requires n <= BPB
    ensures bi <= n && forall j :: 0 <= j < bi ==> Bit(bp[j / 8], j % 8)
    ensures bi < n ==> !Bit(bp[bi / 8], bi % 8)
  {
    bi := 0;
    while bi < n && Bit(bp[bi / 8], bi % 8)
      invariant bi <= n && forall j :: 0 <= j < bi ==> Bit(bp[j / 8], j % 8)
    {
      bi := bi + 1;
    }
  }

  /** Bits of the map block that starts at block b, for b a multiple of BPB. */
  lemma BitInBlock(disk: seq<Block>, start: nat, b: nat, j: nat)
    requires b % BPB == 0 && j < BPB && start + b / BPB < |disk|
    ensures (b + j) / BPB == b / BPB && (b + j) % BPB == j
    ensures Used(disk, start, b + j) <==> Bit(disk[start + b / BPB][j / 8], j % 8)
  {
  }

  lemma AllocatedBy(g: Geometry, disk: seq<Block>, b: nat)
    requires Sound(g) && |disk| == g.size && g.data <= b < g.size && g.bmapstart + b / BPB < g.data
    requires !Used(disk, g.bmapstart, b)
    ensures var m := g.bmapstart + b / BPB;
            Allocated(g, disk, disk[m := SetIn(disk[m], b % BPB)][b := Zeros()], b)
  {
    hide Bit, SetIn;
    var m := g.bmapstart + b / BPB;
    var mid := disk[m := SetIn(disk[m], b % BPB)];
    var after := mid[b := Zeros()];
    forall c | 0 <= c < g.size ensures InUse(g, after, c) <==> if c == b then true else InUse(g, disk, c) {
      BitBlock(g, c);
      SetUsed(disk, g.bmapstart, b, c);
      SameMapBlock(mid, after, g.bmapstart, c);
    }
  }

  lemma SameMapBlock(disk: seq<Block>, disk': seq<Block>, start: nat, c: nat)
    requires start + c / BPB < |disk| == |disk'| && disk'[start + c / BPB] == disk[start + c / BPB]
    ensures Used(disk', start, c) <==> Used(disk, start, c)
  {
  }

  // --------------------------------------------------------------- mapping file blocks

  /** The slot of block bn of file i. */
  function DataSlot(i: nat, bn: nat): (s: Slot) {
    if bn < NDIRECT then Direct(i, bn) else Entry(i, bn - NDIRECT)
  }

  /** Where the number of file block bn is: the first twelve in the inode, the others in the indirect block. */
  lemma BlockNumber(g: Geometry, inodes: seq<Inode>, disk: seq<Block>, owner: map<nat, Slot>, i: nat, bn: nat)
    requires Owned(g, inodes, disk, {}, owner) && i < |inodes| && bn < MAXFILE
    ensures inodes[i].addrs[12] < |disk|
    ensures At(inodes, disk, DataSlot(i, bn)) ==
              if bn < 12 then inodes[i].addrs[bn]
              else if inodes[i].addrs[12] == 0 then 0
              else Word(disk[inodes[i].addrs[12]], bn - 12)
  {
    hide Word;
    assert SlotOk(inodes, disk, {}, owner, Top(i));
    if inodes[i].addrs[12] != 0 {
      assert BlockOk(g, inodes, disk, {}, owner, inodes[i].addrs[12]);
    }
  }

  /** Slot t keeps its number and that block keeps its contents. */
  ghost predicate Kept(inodes: seq<Inode>, disk: seq<Block>, inodes': seq<Inode>, disk': seq<Block>, t: Slot)
    requires IsSlot(inodes, t) && |inodes'| == |inodes| && |disk'| == |disk|
  {
    var b := At(inodes, disk, t);
    At(inodes', disk', t) == b && (0 < b < |disk| ==> disk'[b] == disk[b])
  }

  /** Only inode i's block numbers change, and of the file blocks only slot s, if it was empty. */
  ghost predicate Mapping(inodes: seq<Inode>, disk: seq<Block>, inodes': seq<Inode>, disk': seq<Block>, i: nat, s: Slot)
    requires i < |inodes|
  {
    && |inodes'| == |inodes| && |disk'| == |disk|
    && (forall j :: 0 <= j < |inodes| && j != i ==> inodes'[j] == inodes[j])
    && inodes'[i] == inodes[i].(addrs := inodes'[i].addrs)
    && forall t ::
         IsSlot(inodes, t) && !t.Top? && (t != s || At(inodes, disk, t) != 0) ==>
           Kept(inodes, disk, inodes', disk', t)
  }

  lemma MappingTrans(inodes: seq<Inode>, disk: seq<Block>, inodes': seq<Inode>, disk': seq<Block>,
                     inodes'': seq<Inode>, disk'': seq<Block>, i: nat, s: Slot)
    requires && i < |inodes| && Mapping(inodes, disk, inodes', disk', i, s)
             && Mapping(inodes', disk', inodes'', disk'', i, s)
    ensures Mapping(inodes, disk, inodes'', disk'', i, s)
  {
    hide At;
    forall t | IsSlot(inodes, t) && !t.Top? && (t != s || At(inodes, disk, t) != 0)
      ensures Kept(inodes, disk, inodes'', disk'', t)
    {
      assert Kept(inodes, disk, inodes', disk', t);
      assert Kept(inodes', disk', inodes'', disk'', t);
    }
  }

  /** Slot k of the inode itself: a direct slot, or the one of the indirect block. */
  ghost function OwnSlot(i: nat, k: nat): (s: Slot) {
    if k < NDIRECT then Direct(i, k) else Top(i)
  }

  /** What storing a fresh block b in addrs[k] of inode i does to every slot. */
  lemma TakenSlots(g: Geometry, inodes: seq<Inode>, disk: seq<Block>, inodes': seq<Inode>, disk': seq<Block>,
                   owner: map<nat, Slot>,
                   i: nat, k: nat, b: uint32)
    requires Owned(g, inodes, disk, {}, owner) && i < |inodes| && k <= NDIRECT && inodes[i].addrs[k] == 0
    requires |disk'| == |disk| && Allocated(g, disk, disk', b) && b !in owner
    requires inodes' == inodes[i := inodes[i].(addrs := inodes[i].addrs[k := b])]
    ensures SameBut(inodes, disk, {}, inodes', disk', {}, OwnSlot(i, k))
    ensures At(inodes', disk', OwnSlot(i, k)) == b
    ensures Mapping(inodes, disk, inodes', disk', i, OwnSlot(i, k))
  {
    hide Word, BitsBut;
    forall t | IsSlot(inodes, t) && t != OwnSlot(i, k)
      ensures Kept(inodes, disk, inodes', disk', t) || t.Top? ensures At(inodes', disk', t) == At(inodes, disk, t)
    {
      if t.Entry? && t.i == i && k == NDIRECT {
        WordOfZeros(t.k);
      } else {
        TakenElsewhere(g, inodes, disk, inodes', disk', owner, b, t);
      }
    }
  }

  lemma TakenElsewhere(g: Geometry, inodes: seq<Inode>, disk: seq<Block>, inodes': seq<Inode>, disk': seq<Block>,
                       owner: map<nat, Slot>,
                       b: nat, t: Slot)
    requires Owned(g, inodes, disk, {}, owner) && |disk'| == |disk| && Allocated(g, disk, disk', b) && b !in owner
    requires IsSlot(inodes, t) && |inodes'| == |inodes|
    requires t.Direct? ==> inodes'[t.i].addrs[t.k] == inodes[t.i].addrs[t.k]
    requires !t.Direct? ==> inodes'[t.i].addrs[NDIRECT] == inodes[t.i].addrs[NDIRECT]
    ensures At(inodes', disk', t) == At(inodes, disk, t) && Kept(inodes, disk, inodes', disk', t)
  {
    hide Word, BitsBut, InUse;
    if t.Entry? && inodes[t.i].addrs[NDIRECT] != 0 {
      TopIsHeld(g, inodes, disk, {}, owner, t.i);
    }
    assert SlotOk(inodes, disk, {}, owner, t);
    var c := At(inodes, disk, t);
    if c != 0 {
      assert BlockOk(g, inodes, disk, {}, owner, c);
    }
  }

  /** What storing a fresh block b in entry k of inode i's indirect block does to every slot. */
  lemma EntrySlots(g: Geometry, inodes: seq<Inode>, disk: seq<Block>, mid: seq<Block>, owner: map<nat, Slot>, i: nat,
                   k: nat, b: uint32)
    requires Owned(g, inodes, disk, {}, owner) && i < |inodes| && k < NINDIRECT && At(inodes, disk, Entry(i, k)) == 0
    requires |mid| == |disk| && Allocated(g, disk, mid, b) && b !in owner && inodes[i].addrs[NDIRECT] != 0
    ensures var top := inodes[i].addrs[NDIRECT];
            && top < |disk| && mid[top] == disk[top] && top != b && g.data <= top
            && var disk' := mid[top := PutWord(mid[top], k, b)];
               && SameBut(inodes, disk, {}, inodes, disk', {}, Entry(i, k)) && At(inodes, disk', Entry(i, k)) == b
               && BitsBut(g, disk, disk', b, true)
               && Mapping(inodes, disk, inodes, disk', i, Entry(i, k))
  {
    hide Word, PutWord;
    TopIsHeld(g, inodes, disk, {}, owner, i);
    var top := inodes[i].addrs[NDIRECT];
    var disk' := mid[top := PutWord(mid[top], k, b)];
    WordAfterPut(mid[top], k, b, k);
    forall t | IsSlot(inodes, t) && t != Entry(i, k)
      ensures Kept(inodes, disk, inodes, disk', t) || t.Top? ensures At(inodes, disk', t) == At(inodes, disk, t)
    {
      EntryElsewhere(g, inodes, disk, mid, disk', owner, i, k, b, t);
    }
    EntryBits(g, disk, mid, disk', top, b);
  }

  lemma EntryBits(g: Geometry, disk: seq<Block>, mid: seq<Block>, disk': seq<Block>, top: nat, b: nat)
    requires Sound(g) && |disk| == |mid| == |disk'| == g.size && BitsBut(g, disk, mid, b, true)
    requires forall c :: 0 <= c < g.data ==> disk'[c] == mid[c]
    ensures BitsBut(g, disk, disk', b, true)
  {
    forall c | 0 <= c < g.size ensures InUse(g, disk', c) <==> if c == b then true else InUse(g, disk, c) {
      BitBlock(g, c);
      SameMapBlock(mid, disk', g.bmapstart, c);
      assert InUse(g, mid, c) <==> if c == b then true else InUse(g, disk, c);
    }
  }

  lemma EntryElsewhere(g: Geometry, inodes: seq<Inode>, disk: seq<Block>, mid: seq<Block>, disk': seq<Block>,
                       owner: map<nat, Slot>,
                       i: nat, k: nat, b: uint32, t: Slot)
    requires Owned(g, inodes, disk, {}, owner) && i < |inodes| && k < NINDIRECT
    requires |mid| == |disk| && Allocated(g, disk, mid, b) && b !in owner && inodes[i].addrs[NDIRECT] != 0
    requires var top := inodes[i].addrs[NDIRECT];
             && g.data <= top < |disk| && top in owner && owner[top] == Top(i)
             && disk' == mid[top := PutWord(mid[top], k, b)]
    requires IsSlot(inodes, t) && t != Entry(i, k)
    ensures At(inodes, disk', t) == At(inodes, disk, t) && (t.Top? || Kept(inodes, disk, inodes, disk', t))
  {
    hide Word, PutWord, BitsBut, InUse;
    TakenElsewhere(g, inodes, disk, inodes, mid, owner, b, t);
    if t.Entry? {
      if t.i == i {
        WordAfterPut(mid[inodes[i].addrs[NDIRECT]], k, b, t.k);
      } else if inodes[t.i].addrs[NDIRECT] != 0 {
        TopIsHeld(g, inodes, disk, {}, owner, t.i);
      }
    }
    assert SlotOk(inodes, disk, {}, owner, t);
  }

  lemma NewIsUnowned(g: Geometry, inodes: seq<Inode>, disk: seq<Block>, gone: set<Slot>, owner: map<nat, Slot>, b: nat)
    requires Owned(g, inodes, disk, gone, owner) && b < g.size && !InUse(g, disk, b)
    ensures b !in owner
  {
    assert BitOk(g, disk, owner, b);
  }

  lemma NotFull(g: Geometry, disk: seq<Block>, b: nat)
    requires Sound(g) && |disk| == g.size && b < g.size && !InUse(g, disk, b)
    ensures !Full(g, disk)
  {
    hide InUse;
  }

  /** Block 0 is never held. */
  lemma NotOwned(g: Geometry, inodes: seq<Inode>, disk: seq<Block>, gone: set<Slot>, owner: map<nat, Slot>)
    requires Owned(g, inodes, disk, gone, owner)
    ensures 0 !in owner
  {
    forall b | b in owner ensures b != 0 {
      assert BlockOk(g, inodes, disk, gone, owner, b);
    }
  }

  lemma HeldIsAt(inodes: seq<Inode>, disk: seq<Block>, s: Slot)
    requires IsSlot(inodes, s)
    ensures Held(inodes, disk, {}, s) == At(inodes, disk, s)
  {
  }

  lemma AtDirect(inodes: seq<Inode>, disk: seq<Block>, i: nat, k: nat)
    requires i < |inodes| && k < NDIRECT
    ensures At(inodes, disk, Direct(i, k)) == inodes[i].addrs[k]
  {
  }

  lemma EmptySlot(inodes: seq<Inode>, disk: seq<Block>, i: nat, k: nat)
    requires i < |inodes| && k <= NDIRECT && inodes[i].addrs[k] == 0
    ensures Held(inodes, disk, {}, OwnSlot(i, k)) == 0
  {
  }

  lemma OwnSlotHeld(g: Geometry, inodes: seq<Inode>, disk: seq<Block>, owner: map<nat, Slot>, i: nat, k: nat)
    requires Owned(g, inodes, disk, {}, owner) && i < |inodes| && k <= NDIRECT && inodes[i].addrs[k] != 0
    ensures g.data <= inodes[i].addrs[k] < g.size
  {
    assert SlotOk(inodes, disk, {}, owner, OwnSlot(i, k));
    assert BlockOk(g, inodes, disk, {}, owner, inodes[i].addrs[k]);
  }

  lemma EntryHeld(g: Geometry, inodes: seq<Inode>, disk: seq<Block>, owner: map<nat, Slot>, i: nat, k: nat)
    requires Owned(g, inodes, disk, {}, owner) && i < |inodes| && k < NINDIRECT && At(inodes, disk, Entry(i, k)) != 0
    ensures g.data <= At(inodes, disk, Entry(i, k)) < g.size
  {
    assert SlotOk(inodes, disk, {}, owner, Entry(i, k));
    assert BlockOk(g, inodes, disk, {}, owner, At(inodes, disk, Entry(i, k)));
  }

  lemma MappingSelf(inodes: seq<Inode>, disk: seq<Block>, i: nat, s: Slot)
    requires i < |inodes|
    ensures Mapping(inodes, disk, inodes, disk, i, s)
  {
  }

  /** Allocating the indirect block leaves the file's entries as they were. */
  lemma TopEntries(g: Geometry, inodes: seq<Inode>, disk: seq<Block>, inodes': seq<Inode>, disk': seq<Block>, i: nat,
                   k: nat)
    requires i < |inodes| && k < NINDIRECT && Mapping(inodes, disk, inodes', disk', i, Top(i))
    ensures At(inodes', disk', Entry(i, k)) == At(inodes, disk, Entry(i, k))
    ensures Mapping(inodes, disk, inodes', disk', i, Entry(i, k))
    ensures At(inodes, disk, Entry(i, k)) != 0 ==> inodes[i].addrs[NDIRECT] != 0
  {
    assert Kept(inodes, disk, inodes', disk', Entry(i, k));
  }

  lemma TopEmptyIf(inodes: seq<Inode>, disk: seq<Block>, i: nat, k: nat)
    requires i < |inodes| && k < NINDIRECT
    ensures inodes[i].addrs[NDIRECT] == 0 ==> At(inodes, disk, Entry(i, k)) == 0
  {
  }

  // --------------------------------------------------------------- truncation

  ghost function Without(owner: map<nat, Slot>, s: Slot): (r: map<nat, Slot>) {
    map c | c in owner && owner[c] != s :: owner[c]
  }

  lemma WithoutOne(g: Geometry, inodes: seq<Inode>, disk: seq<Block>, gone: set<Slot>, owner: map<nat, Slot>, s: Slot)
    requires Owned(g, inodes, disk, gone, owner) && IsSlot(inodes, s)
    ensures Without(owner, s) == owner - {Held(inodes, disk, gone, s)}
  {
    hide InUse, At;
    assert SlotOk(inodes, disk, gone, owner, s);
    forall c | c in owner ensures owner[c] == s <==> c == Held(inodes, disk, gone, s) {
      assert BlockOk(g, inodes, disk, gone, owner, c);
    }
  }

  /** Clearing addrs[k] of inode i, with the disk unchanged past the map, empties that slot only. */
  lemma ClearedSlots(g: Geometry, inodes: seq<Inode>, disk: seq<Block>, disk': seq<Block>, owner: map<nat, Slot>,
                     i: nat, k: nat)
    requires Owned(g, inodes, disk, {}, owner) && i < |inodes| && k < NDIRECT
    requires |disk'| == |disk| && forall c :: g.data <= c < g.size ==> disk'[c] == disk[c]
    ensures var inodes' := inodes[i := inodes[i].(addrs := inodes[i].addrs[k := 0])];
            SameBut(inodes, disk, {}, inodes', disk', {}, Direct(i, k)) && Held(inodes', disk', {}, Direct(i, k)) == 0
  {
    hide InUse, Word;
    var inodes' := inodes[i := inodes[i].(addrs := inodes[i].addrs[k := 0])];
    forall t | IsSlot(inodes, t) && t != Direct(i, k) ensures Held(inodes', disk', {}, t) == Held(inodes, disk, {}, t) {
      if t.Entry? && inodes[t.i].addrs[NDIRECT] != 0 {
        TopIsHeld(g, inodes, disk, {}, owner, t.i);
      }
    }
  }

  /** The entries of inode i's indirect block up to j. */
  ghost function Entries(i: nat, j: nat): (r: set<Slot>) {
    if j == 0 then {} else Entries(i, j - 1) + {Entry(i, j - 1)}
  }

  lemma NoneCounted(i: nat)
    ensures Entries(i, 0) == {}
  {
  }

  lemma {:induction false} EntriesAre(i: nat, j: nat, t: Slot)
    ensures t in Entries(i, j) <==> t.Entry? && t.i == i && t.k < j
  {
    if j > 0 {
      EntriesAre(i, j - 1, t);
    }
  }

  /** Counting entry j as empty, with the disk unchanged past the map, empties that slot only. */
  lemma CountedSlots(g: Geometry, inodes: seq<Inode>, disk: seq<Block>, disk': seq<Block>, owner: map<nat, Slot>,
                     i: nat, j: nat)
    requires Owned(g, inodes, disk, Entries(i, j), owner) && i < |inodes| && j < NINDIRECT
    requires |disk'| == |disk| && forall c :: g.data <= c < g.size ==> disk'[c] == disk[c]
    ensures SameBut(inodes, disk, Entries(i, j), inodes, disk', Entries(i, j + 1), Entry(i, j))
    ensures Held(inodes, disk', Entries(i, j + 1), Entry(i, j)) == 0
    ensures Held(inodes, disk, Entries(i, j), Entry(i, j)) == At(inodes, disk, Entry(i, j))
  {
    hide InUse, Word, Entries;
    forall t | IsSlot(inodes, t) && t != Entry(i, j)
      ensures Held(inodes, disk', Entries(i, j + 1), t) == Held(inodes, disk, Entries(i, j), t)
    {
      EntriesAre(i, j, t);
      EntriesAre(i, j + 1, t);
      EntriesAre(i, j, Top(t.i));
      if t.Entry? && inodes[t.i].addrs[NDIRECT] != 0 {
        TopIsHeld(g, inodes, disk, Entries(i, j), owner, t.i);
      }
    }
    EntriesAre(i, j, Entry(i, j));
    EntriesAre(i, j + 1, Entry(i, j));
  }

  /** With all entries counted as empty, clearing the indirect block's number empties that slot only. */
  lemma TopSlots(g: Geometry, inodes: seq<Inode>, disk: seq<Block>, disk': seq<Block>, owner: map<nat, Slot>, i: nat)
    requires Owned(g, inodes, disk, Entries(i, NINDIRECT), owner) && i < |inodes|
    requires |disk'| == |disk| && forall c :: g.data <= c < g.size ==> disk'[c] == disk[c]
    ensures var inodes' := inodes[i := inodes[i].(addrs := inodes[i].addrs[NDIRECT := 0])];
            && SameBut(inodes, disk, Entries(i, NINDIRECT), inodes', disk', {}, Top(i))
            && Held(inodes', disk', {}, Top(i)) == 0
    ensures Held(inodes, disk, Entries(i, NINDIRECT), Top(i)) == inodes[i].addrs[NDIRECT]
  {
    hide InUse, Word, Entries;
    var inodes' := inodes[i := inodes[i].(addrs := inodes[i].addrs[NDIRECT := 0])];
    EntriesAre(i, NINDIRECT, Top(i));
    forall t | IsSlot(inodes, t) && t != Top(i)
      ensures Held(inodes', disk', {}, t) == Held(inodes, disk, Entries(i, NINDIRECT), t)
    {
      EntriesAre(i, NINDIRECT, t);
      EntriesAre(i, NINDIRECT, Top(t.i));
      if t.Entry? && inodes[t.i].addrs[NDIRECT] != 0 {
        TopIsHeld(g, inodes, disk, Entries(i, NINDIRECT), owner, t.i);
      }
    }
  }

  /** Counting an empty slot as empty changes nothing. */
  lemma CountEmpty(g: Geometry, inodes: seq<Inode>, disk: seq<Block>, owner: map<nat, Slot>, i: nat, j: nat)
    requires && Owned(g, inodes, disk, Entries(i, j), owner) && i < |inodes| && j < NINDIRECT
             && At(inodes, disk, Entry(i, j)) == 0
    ensures Owned(g, inodes, disk, Entries(i, j + 1), owner)
  {
    hide InUse, At, Entries;
    CountedSlots(g, inodes, disk, disk, owner, i, j);
    forall t | IsSlot(inodes, t) ensures SlotOk(inodes, disk, Entries(i, j + 1), owner, t) {
      assert SlotOk(inodes, disk, Entries(i, j), owner, t);
    }
    forall c | c in owner ensures BlockOk(g, inodes, disk, Entries(i, j + 1), owner, c) {
      assert BlockOk(g, inodes, disk, Entries(i, j), owner, c);
    }
  }

  /** A held block is in use, so bfree() does not panic on it. */
  lemma HeldInUse(g: Geometry, inodes: seq<Inode>, disk: seq<Block>, gone: set<Slot>, owner: map<nat, Slot>, s: Slot)
    requires Owned(g, inodes, disk, gone, owner) && IsSlot(inodes, s) && Held(inodes, disk, gone, s) != 0
    ensures var b := Held(inodes, disk, gone, s); g.data <= b < g.size && InUse(g, disk, b)
  {
    hide InUse, At;
    var b := Held(inodes, disk, gone, s);
    assert SlotOk(inodes, disk, gone, owner, s);
    assert BlockOk(g, inodes, disk, gone, owner, b) && BitOk(g, disk, owner, b);
  }

  lemma SlotsInRange(g: Geometry, inodes: seq<Inode>, disk: seq<Block>, gone: set<Slot>, owner: map<nat, Slot>)
    requires Owned(g, inodes, disk, gone, owner)
    ensures forall c :: c in owner ==> IsSlot(inodes, owner[c])
  {
    forall c | c in owner ensures IsSlot(inodes, owner[c]) {
      assert BlockOk(g, inodes, disk, gone, owner, c);
    }
  }

  /** An inode without an indirect block holds nothing through one. */
  lemma NoEntries(g: Geometry, inodes: seq<Inode>, disk: seq<Block>, owner: map<nat, Slot>, i: nat)
    requires Owned(g, inodes, disk, {}, owner) && i < |inodes| && inodes[i].addrs[NDIRECT] == 0
    ensures forall c :: c in owner && owner[c].i == i ==> owner[c].Direct?
  {
    hide InUse;
    forall c | c in owner && owner[c].i == i ensures owner[c].Direct? {
      assert BlockOk(g, inodes, disk, {}, owner, c);
    }
  }

  lemma FreedExactly(g: Geometry, inodes: seq<Inode>, disk: seq<Block>, owner: map<nat, Slot>,
                     inodes': seq<Inode>, disk': seq<Block>, owner': map<nat, Slot>, i: nat)
    requires Owned(g, inodes, disk, {}, owner) && Owned(g, inodes', disk', {}, owner')
    requires forall c :: c in owner' <==> c in owner && owner[c].i != i
    ensures forall c ::
              0 <= c < g.size ==> (InUse(g, disk', c) <==> InUse(g, disk, c) && !(c in owner && owner[c].i == i))
  {
    hide InUse;
    forall c | 0 <= c < g.size ensures InUse(g, disk', c) <==> InUse(g, disk, c) && !(c in owner && owner[c].i == i) {
      assert BitOk(g, disk, owner, c) && BitOk(g, disk', owner', c);
      if c in owner {
        assert BlockOk(g, inodes, disk, {}, owner, c);
      }
    }
  }

  /** Fields other than the block numbers do not matter to ownership. */
  lemma SizeOnly(g: Geometry, inodes: seq<Inode>, disk: seq<Block>, inodes': seq<Inode>, owner: map<nat, Slot>)
    requires Owned(g, inodes, disk, {}, owner) && |inodes'| == |inodes|
    requires forall j :: 0 <= j < |inodes| ==> inodes'[j].addrs == inodes[j].addrs
    ensures Owned(g, inodes', disk, {}, owner)
  {
    hide InUse;
    forall t | IsSlot(inodes', t) ensures SlotOk(inodes', disk, {}, owner, t) {
      assert SlotOk(inodes, disk, {}, owner, t);
    }
    forall c | c in owner ensures BlockOk(g, inodes', disk, {}, owner, c) {
      assert BlockOk(g, inodes, disk, {}, owner, c);
    }
  }

  class FileSys {
    const g: Geometry
    var disk: seq<Block>
    var inodes: seq<Inode>
    var dinodes: seq<Inode>
    ghost var owner: map<nat, Slot>
    ghost var logged: set<nat>
    ghost var disk0: seq<Block>
    ghost var dinodes0: seq<Inode>

    ghost predicate Valid()
      reads this
    {
      Shaped(g, inodes, disk) && Owned(g, inodes, disk, {}, owner) && |dinodes| == |inodes| && Covered()
    }

    /** Whatever the current operation has changed is logged. */
    ghost predicate Covered()
      reads this
    {
      Covers(g, disk0, disk, dinodes0, dinodes, logged)
    }

    /** A file system with free inodes only, and a map that marks exactly the blocks before the data area. */
    constructor (g: Geometry, disk: seq<Block>)
      requires Sound(g) && |disk| == g.size && forall b :: 0 <= b < g.size ==> (InUse(g, disk, b) <==> b < g.data)
      ensures Valid() && this.g == g && this.disk == disk && owner == map[] && logged == {}
      ensures forall i :: 0 <= i < |inodes| ==> inodes[i] == Inode(0, 0, 0, 0, 0, NOBLOCK)
      ensures dinodes == inodes && disk0 == disk && dinodes0 == dinodes
    {
      this.g, this.disk, this.disk0 := g, disk, disk;
      var free := Inode(0, 0, 0, 0, 0, NOBLOCK);
      inodes := seq(g.ninodes, _ => free);
      dinodes := seq(g.ninodes, _ => free);
      dinodes0 := seq(g.ninodes, _ => free);
      owner, logged := map[], {};
      new;
      hide InUse, Word;
    }

    /** log_write() of a changed buffer. */
    method LogWrite(b: nat, data: Block)
      requires b < |disk| && Loggable(g, b)
      modifies this`disk, this`logged
      ensures disk == old(disk)[b := data] && logged == old(logged) + {b} && (old(Covered()) ==> Covered())
    {
      if Covered() {
        CoversWrite(g, disk0, disk, dinodes0, dinodes, logged, b, data);
      }
      disk := disk[b := data];
      logged := logged + {b};
    }

    /** begin_op(): nothing logged yet. */
    method BeginOp()
      modifies this`logged, this`disk0, this`dinodes0
      ensures logged == {} && disk0 == disk && dinodes0 == dinodes && Covered()
    {
      logged, disk0, dinodes0 := {}, disk, dinodes;
    }

    method Bzero(b: nat)
      requires b < |disk| && Loggable(g, b)
      modifies this`disk, this`logged
      ensures disk == old(disk)[b := Zeros()] && logged == old(logged) + {b} && (old(Covered()) ==> Covered())
    {
      LogWrite(b, Zeros());
    }

    /** The scan of balloc() over the map blocks: the lowest free block. */
    method FirstFree() returns (r: Option<nat>)
      requires Shaped(g, inodes, disk)
      ensures r.None? ==> Full(g, disk)
      ensures r.Some? ==>
                r.value < g.size && !InUse(g, disk, r.value) && forall c :: 0 <= c < r.value ==> InUse(g, disk, c)
    {
      hide Bit, Used;
      var b := 0;
      while b < g.size
        invariant b % BPB == 0
        invariant forall c :: 0 <= c < b && c < g.size ==> InUse(g, disk, c)
      {
        BitBlock(g, b);
        var bp := disk[g.bmapstart + b / BPB];
        var n := if g.size - b < BPB then g.size - b else BPB;
        var bi := ScanMapBlock(bp, n);
        forall c | b <= c < b + bi ensures InUse(g, disk, c) {
          BitInBlock(disk, g.bmapstart, b, c - b);
        }
        if bi < n {
          BitInBlock(disk, g.bmapstart, b, bi);
          return Some(b + bi);
        }
        b := b + BPB;
      }
      return None;
    }

    /** balloc(): the lowest free block, zeroed and marked; none (the panic) if there is no free block. */
    method Balloc() returns (r: Option<nat>)
      requires Shaped(g, inodes, disk) && MetaUsed(g, disk)
      modifies this`disk, this`logged
      ensures |disk| == g.size && (old(Covered()) ==> Covered())
      ensures r.None? ==> disk == old(disk) && logged == old(logged) && Full(g, disk)
      ensures r.Some? ==>
                var b := r.value;
                && Allocated(g, old(disk), disk, b) && !InUse(g, old(disk), b)
                && (forall c :: 0 <= c < b ==> InUse(g, old(disk), c))
                && logged == old(logged) + {g.bmapstart + b / BPB, b}
    {
      hide Bit, SetIn, BitsBut, Full, Covers;
      r := FirstFree();
      if r.Some? {
        var b := r.value;
        BitBlock(g, b);
        AllocatedBy(g, disk, b);
        var m := g.bmapstart + b / BPB;
        LogWrite(m, SetIn(disk[m], b % BPB));
        Bzero(b);
      }
    }

    /** bfree(): false stands for the panic on a block that is already free. */
    method Bfree(b: nat) returns (ok: bool)
      requires Shaped(g, inodes, disk) && b < g.size
      modifies this`disk, this`logged
      ensures |disk| == g.size && (old(Covered()) ==> Covered())
      ensures ok <==> InUse(g, old(disk), b)
      ensures ok ==> Released(g, old(disk), disk, b) && logged == old(logged) + {g.bmapstart + b / BPB}
      ensures !ok ==> disk == old(disk) && logged == old(logged)
    {
      hide Bit, ClearIn, Covers;
      BitBlock(g, b);
      var m := g.bmapstart + b / BPB;
      var bp := disk[m];
      var bi := b % BPB;
      if !Bit(bp[bi / 8], bi % 8) {
        return false;
      }
      forall c | 0 <= c < g.size
        ensures InUse(g, disk[m := ClearIn(bp, bi)], c) <==> if c == b then false else InUse(g, disk, c)
      {
        BitBlock(g, c);
        ClearUsed(disk, g.bmapstart, b, c);
      }
      LogWrite(m, ClearIn(bp, bi));
      return true;
    }

    /** `if((addr = ip->addrs[k]) == 0) ip->addrs[k] = addr = balloc(ip->dev);` */
    method TakeAddr(i: nat, k: nat) returns (r: Option<nat>)
      requires Valid() && i < |inodes| && k <= NDIRECT
      modifies this`disk, this`inodes, this`owner, this`logged
      ensures r.None? <==> old(inodes[i].addrs[k]) == 0 && Room(g, old(owner)) == 0
      ensures r.None? ==> disk == old(disk) && Full(g, disk)
      ensures r.Some? ==>
                var b := r.value;
                && Valid() && Mapping(old(inodes), old(disk), inodes, disk, i, OwnSlot(i, k))
                && g.data <= b < g.size
                && inodes == old(inodes)[i := old(inodes[i]).(addrs := old(inodes[i]).addrs[k := b])]
                && if old(inodes[i].addrs[k]) != 0 then
                     disk == old(disk) && inodes == old(inodes) && owner == old(owner) && logged == old(logged)
                   else b !in old(owner) && owner == old(owner)[b := OwnSlot(i, k)] && disk[b] == Zeros()
                        && SameBut(old(inodes), old(disk), {}, inodes, disk, {}, OwnSlot(i, k))
                        && logged == old(logged) + {g.bmapstart + b / BPB, b}
    {
      hide Owned, BitsBut, At, Held, Full, Covers;
      OwnedMeta(g, inodes, disk, {}, owner);
      RoomIs(g, inodes, disk, {}, owner);
      var addr := inodes[i].addrs[k];
      if addr == 0 {
        var b := Balloc();
        if b.None? {
          return None;
        }
        addr := b.value;
        NewIsUnowned(g, inodes, old(disk), {}, owner, addr);
        NotFull(g, old(disk), addr);
        inodes := inodes[i := inodes[i].(addrs := inodes[i].addrs[k := addr])];
        TakenSlots(g, old(inodes), old(disk), inodes, disk, owner, i, k, addr);
        EmptySlot(old(inodes), old(disk), i, k);
        HeldIsAt(inodes, disk, OwnSlot(i, k));
        Grow(g, old(inodes), old(disk), inodes, disk, {}, owner, OwnSlot(i, k), addr);
        owner := owner[addr := OwnSlot(i, k)];
      } else {
        assert inodes[i].addrs == inodes[i].addrs[k := addr];
        OwnSlotHeld(g, inodes, disk, owner, i, k);
        MappingSelf(inodes, disk, i, OwnSlot(i, k));
      }
      return Some(addr);
    }

    /** bmap(): the block of file block bn, allocated if there was none. */
    method Bmap(i: nat, bn: nat) returns (r: Option<nat>)
      requires Valid() && i < |inodes| && bn < MAXFILE
      modifies this`disk, this`inodes, this`owner, this`logged
      ensures r.None? <==> Room(g, old(owner)) < Need(old(inodes), old(disk), i, bn)
      ensures r.None? ==> At(old(inodes), old(disk), DataSlot(i, bn)) == 0 && Full(g, disk)
      ensures r.Some? ==> Room(g, owner) == Room(g, old(owner)) - Need(old(inodes), old(disk), i, bn)
      ensures r.Some? ==>
                var b, s := r.value, DataSlot(i, bn);
                && Valid() && Mapping(old(inodes), old(disk), inodes, disk, i, s)
                && At(inodes, disk, s) == b && g.data <= b < g.size
                && (old(inodes[i]).addrs[NDIRECT] != 0 || bn < NDIRECT ==>
                      inodes[i].addrs[NDIRECT] == old(inodes[i]).addrs[NDIRECT])
                && (bn >= NDIRECT ==> inodes[i].addrs[NDIRECT] != 0)
                && (forall c :: c in old(owner) ==> c in owner && owner[c] == old(owner)[c])
                && (forall c :: c in owner && c !in old(owner) ==> owner[c].i == i)
                && (forall c ::
                      c in logged ==>
                        c in old(logged) || c == b || c == inodes[i].addrs[NDIRECT] != 0 || MapBlock(g, c))
                && if At(old(inodes), old(disk), s) != 0 then
                     disk == old(disk) && inodes == old(inodes) && owner == old(owner) && logged == old(logged)
                   else b !in old(owner) && disk[b] == Zeros()
    {
      hide Owned, BitsBut, At, Held, Mapping, SameBut, Full, Covers;
      RoomIs(g, inodes, disk, {}, owner);
      if bn < NDIRECT {
        r := TakeAddr(i, bn);
        AtDirect(old(inodes), old(disk), i, bn);
        if r.Some? {
          AtDirect(inodes, disk, i, bn);
        }
        return;
      }
      r := MapEntry(i, bn - NDIRECT);
    }

    /** The part of bmap() for a block that is reached through the indirect block. */
    method MapEntry(i: nat, k: nat) returns (r: Option<nat>)
      requires Valid() && i < |inodes| && k < NINDIRECT
      modifies this`disk, this`inodes, this`owner, this`logged
      ensures r.None? <==> Room(g, old(owner)) < Need(old(inodes), old(disk), i, NDIRECT + k)
      ensures r.None? ==> At(old(inodes), old(disk), Entry(i, k)) == 0 && Full(g, disk)
      ensures r.Some? ==> Room(g, owner) == Room(g, old(owner)) - Need(old(inodes), old(disk), i, NDIRECT + k)
      ensures r.Some? ==>
                var b, s := r.value, Entry(i, k);
                && Valid() && Mapping(old(inodes), old(disk), inodes, disk, i, s)
                && At(inodes, disk, s) == b && g.data <= b < g.size && inodes[i].addrs[NDIRECT] != 0
                && (old(inodes[i]).addrs[NDIRECT] != 0 ==> inodes[i].addrs[NDIRECT] == old(inodes[i]).addrs[NDIRECT])
                && (forall c :: c in old(owner) ==> c in owner && owner[c] == old(owner)[c])
                && (forall c :: c in owner && c !in old(owner) ==> owner[c].i == i)
                && (forall c ::
                      c in logged ==> c in old(logged) || c == b || c == inodes[i].addrs[NDIRECT] || MapBlock(g, c))
                && if At(old(inodes), old(disk), s) != 0 then
                     disk == old(disk) && inodes == old(inodes) && owner == old(owner) && logged == old(logged)
                   else b !in old(owner) && disk[b] == Zeros()
    {
      hide Owned, BitsBut, At, Held, Mapping, SameBut, Full, Covers;
      RoomIs(g, inodes, disk, {}, owner);
      TopEmptyIf(inodes, disk, i, k);
      var t := TakeAddr(i, NDIRECT);
      if t.None? {
        return None;
      }
      ghost var inodes1, disk1 := inodes, disk;
      TopEntries(g, old(inodes), old(disk), inodes, disk, i, k);
      r := TakeEntry(i, k, t.value);
      if r.Some? {
        MappingTrans(old(inodes), old(disk), inodes1, disk1, inodes, disk, i, Entry(i, k));
      }
    }

    /** `if((addr = a[bn]) == 0){ a[bn] = addr = balloc(ip->dev); log_write(bp); }` on the indirect block. */
    method TakeEntry(i: nat, k: nat, top: nat) returns (r: Option<nat>)
      requires Valid() && i < |inodes| && k < NINDIRECT && g.data <= top < g.size && inodes[i].addrs[NDIRECT] == top
      modifies this`disk, this`owner, this`logged
      ensures r.None? <==> At(inodes, old(disk), Entry(i, k)) == 0 && Room(g, old(owner)) == 0
      ensures r.None? ==> disk == old(disk) && Full(g, disk)
      ensures r.Some? ==>
                var b, s := r.value, Entry(i, k);
                && Valid() && Mapping(inodes, old(disk), inodes, disk, i, s)
                && At(inodes, disk, s) == b && g.data <= b < g.size
                && if At(inodes, old(disk),
                         s) != 0 then disk == old(disk) && owner == old(owner) && logged == old(logged)
                   else b !in old(owner) && owner == old(owner)[b := s] && disk[b] == Zeros()
                        && logged == old(logged) + {g.bmapstart + b / BPB, b, top}
    {
      hide Owned, BitsBut, Held, Mapping, SameBut, Full, Covers;
      RoomIs(g, inodes, disk, {}, owner);
      var bp := disk[top];
      var addr := Word(bp, k);
      OwnedMeta(g, inodes, disk, {}, owner);
      if addr == 0 {
        var b := Balloc();
        if b.None? {
          return None;
        }
        addr := b.value;
        NewIsUnowned(g, inodes, old(disk), {}, owner, addr);
        NotFull(g, old(disk), addr);
        EntrySlots(g, inodes, old(disk), disk, owner, i, k, addr);
        bp := PutWord(bp, k, addr);
        LogWrite(top, bp);
        HeldIsAt(inodes, old(disk), Entry(i, k));
        HeldIsAt(inodes, disk, Entry(i, k));
        Grow(g, inodes, old(disk), inodes, disk, {}, owner, Entry(i, k), addr);
        owner := owner[addr := Entry(i, k)];
      } else {
        EntryHeld(g, inodes, disk, owner, i, k);
        MappingSelf(inodes, disk, i, Entry(i, k));
      }
      return Some(addr);
    }

    /** `if(ip->addrs[k]){ bfree(ip->dev, ip->addrs[k]); ip->addrs[k] = 0; }` */
    method FreeDirect(i: nat, k: nat)
      requires Valid() && i < |inodes| && k < NDIRECT
      modifies this`disk, this`inodes, this`owner, this`logged
      ensures Valid() && inodes == old(inodes)[i := old(inodes[i]).(addrs := old(inodes[i]).addrs[k := 0])]
      ensures owner == Without(old(owner), Direct(i, k))
      ensures forall c :: g.data <= c < g.size ==> disk[c] == old(disk)[c]
      ensures OnlyMaps(g, old(logged), logged)
    {
      hide Covers, Owned, BitsBut, At, Without, SameBut, InUse;
      ClearedSlots(g, inodes, disk, disk, owner, i, k);
      WithoutOne(g, inodes, disk, {}, owner, Direct(i, k));
      HeldIsAt(inodes, disk, Direct(i, k));
      AtDirect(inodes, disk, i, k);
      var b := inodes[i].addrs[k];
      if b != 0 {
        HeldInUse(g, inodes, disk, {}, owner, Direct(i, k));
        var ok := Bfree(b);
        assert ok;
        ClearedSlots(g, inodes, old(disk), disk, owner, i, k);
        inodes := inodes[i := inodes[i].(addrs := inodes[i].addrs[k := 0])];
        Shrink(g, old(inodes), old(disk), {}, inodes, disk, {}, owner, Direct(i, k), b);
        owner := owner - {b};
      } else {
        NotOwned(g, inodes, disk, {}, owner);
        assert inodes[i].addrs == inodes[i].addrs[k := 0];
        assert inodes == old(inodes)[i := old(inodes[i]).(addrs := old(inodes[i]).addrs[k := 0])];
        assert owner - {0} == owner;
      }
    }

    /** `if(a[j]) bfree(ip->dev, a[j]);` for entry j of the indirect block. */
    method FreeEntry(i: nat, j: nat, a: Block)
      requires Shaped(g, inodes, disk) && Owned(g, inodes, disk, Entries(i, j), owner) && i < |inodes| && j < NINDIRECT
      requires 0 < inodes[i].addrs[NDIRECT] < |disk| && disk[inodes[i].addrs[NDIRECT]] == a
      requires Covered()
      modifies this`disk, this`owner, this`logged
      ensures Shaped(g, inodes, disk) && Owned(g, inodes, disk, Entries(i, j + 1), owner)
      ensures owner == Without(old(owner), Entry(i, j))
      ensures forall c :: g.data <= c < g.size ==> disk[c] == old(disk)[c]
      ensures OnlyMaps(g, old(logged), logged) && Covered()
    {
      hide Covers, Owned, BitsBut, Without, SameBut, InUse, Held, Entries;
      WithoutOne(g, inodes, disk, Entries(i, j), owner, Entry(i, j));
      CountedSlots(g, inodes, disk, disk, owner, i, j);
      var b := Word(a, j);
      assert At(inodes, disk, Entry(i, j)) == b;
      if b != 0 {
        HeldInUse(g, inodes, disk, Entries(i, j), owner, Entry(i, j));
        var ok := Bfree(b);
        assert ok;
        CountedSlots(g, inodes, old(disk), disk, owner, i, j);
        Shrink(g, inodes, old(disk), Entries(i, j), inodes, disk, Entries(i, j + 1), owner, Entry(i, j), b);
        owner := owner - {b};
      } else {
        NotOwned(g, inodes, disk, Entries(i, j), owner);
        assert owner - {0} == owner;
        CountEmpty(g, inodes, disk, owner, i, j);
      }
    }

    /** itrunc(): every block of inode i is freed, once; nobody else's. */
    method Itrunc(i: nat)
      requires Valid() && i < |inodes|
      modifies this`disk, this`inodes, this`dinodes, this`owner, this`logged
      ensures Valid() && inodes == old(inodes)[i := old(inodes[i]).(size := 0, addrs := NOBLOCK)]
      ensures dinodes == old(dinodes)[i := inodes[i]]
      ensures forall c :: c in owner <==> c in old(owner) && old(owner)[c].i != i
      ensures forall c :: c in owner ==> owner[c] == old(owner)[c]
      ensures forall c :: g.data <= c < g.size ==> disk[c] == old(disk)[c]
      ensures forall c ::
                0 <= c < g.size ==>
                  (InUse(g, disk, c) <==> InUse(g, old(disk), c) && !(c in old(owner) && old(owner)[c].i == i))
      ensures forall c :: c in logged ==> c in old(logged) || MapBlock(g, c) || c == InodeBlock(g, i)
    {
      hide Covers, Owned, At, Without, Entries, InUse;
      FreeDirects(i);
      if inodes[i].addrs[NDIRECT] != 0 {
        FreeIndirect(i);
      } else {
        NoEntries(g, inodes, disk, owner, i);
      }
      assert inodes[i].addrs == NOBLOCK;
      ghost var mid := inodes;
      inodes := inodes[i := inodes[i].(size := 0)];
      SizeOnly(g, mid, disk, inodes, owner);
      FreedExactly(g, old(inodes), old(disk), old(owner), inodes, disk, owner, i);
      Iupdate(i);
    }

    method FreeDirects(i: nat)
      requires Valid() && i < |inodes|
      modifies this`disk, this`inodes, this`owner, this`logged
      ensures && Valid() && |inodes| == old(|inodes|)
              && (forall j :: 0 <= j < |inodes| && j != i ==> inodes[j] == old(inodes)[j])
      ensures inodes[i] == old(inodes[i]).(addrs := NOBLOCK[NDIRECT := old(inodes[i]).addrs[NDIRECT]])
      ensures forall c :: c in owner <==> c in old(owner) && !(old(owner)[c].Direct? && old(owner)[c].i == i)
      ensures forall c :: c in owner ==> owner[c] == old(owner)[c]
      ensures forall c :: g.data <= c < g.size ==> disk[c] == old(disk)[c]
      ensures OnlyMaps(g, old(logged), logged)
    {
      ghost var addrs := inodes[i].addrs;
      SlotsInRange(g, inodes, disk, {}, owner);
      hide Covers, Owned, At;
      var k := 0;
      while k < NDIRECT
        invariant 0 <= k <= NDIRECT && Valid() && |inodes| == old(|inodes|)
        invariant forall j :: 0 <= j < |inodes| && j != i ==> inodes[j] == old(inodes)[j]
        invariant inodes[i] == old(inodes[i]).(addrs := inodes[i].addrs)
        invariant forall j :: 0 <= j <= NDIRECT ==> inodes[i].addrs[j] == if j < k then 0 else addrs[j]
        invariant forall c ::
                    c in owner <==>
                      c in old(owner) && !(old(owner)[c].Direct? && old(owner)[c].i == i && old(owner)[c].k < k)
        invariant forall c :: c in owner ==> owner[c] == old(owner)[c]
        invariant forall c :: g.data <= c < g.size ==> disk[c] == old(disk)[c]
        invariant OnlyMaps(g, old(logged), logged)
      {
        FreeDirect(i, k);
        k := k + 1;
      }
      assert inodes[i].addrs == NOBLOCK[NDIRECT := addrs[NDIRECT]];
    }

    method FreeIndirect(i: nat)
      requires Valid() && i < |inodes| && inodes[i].addrs[NDIRECT] != 0
      modifies this`disk, this`inodes, this`owner, this`logged
      ensures Valid() && inodes == old(inodes)[i := old(inodes[i]).(addrs := old(inodes[i]).addrs[NDIRECT := 0])]
      ensures forall c :: c in owner <==> c in old(owner) && (old(owner)[c].Direct? || old(owner)[c].i != i)
      ensures forall c :: c in owner ==> owner[c] == old(owner)[c]
      ensures forall c :: g.data <= c < g.size ==> disk[c] == old(disk)[c]
      ensures OnlyMaps(g, old(logged), logged)
    {
      hide Covers, Owned, At, Held, Entries, BitsBut, SameBut, InUse;
      SlotsInRange(g, inodes, disk, {}, owner);
      TopIsHeld(g, inodes, disk, {}, owner, i);
      FreeEntries(i);
      FreeTop(i);
    }

    /** The loop of itrunc() over the indirect block. */
    method FreeEntries(i: nat)
      requires Valid() && i < |inodes| && 0 < inodes[i].addrs[NDIRECT] < |disk| && g.data <= inodes[i].addrs[NDIRECT]
      modifies this`disk, this`owner, this`logged
      ensures Shaped(g, inodes, disk) && Owned(g, inodes, disk, Entries(i, NINDIRECT), owner)
      ensures forall c ::
                c in owner <==>
                  c in old(owner) && !(old(owner)[c].Entry? && old(owner)[c].i == i && old(owner)[c].k < NINDIRECT)
      ensures forall c :: c in owner ==> owner[c] == old(owner)[c]
      ensures forall c :: g.data <= c < g.size ==> disk[c] == old(disk)[c]
      ensures OnlyMaps(g, old(logged), logged) && Covered()
    {
      hide Covers, Owned, At, Entries;
      var a := disk[inodes[i].addrs[NDIRECT]];
      var j := 0;
      NoneCounted(i);
      while j < NINDIRECT
        invariant 0 <= j <= NINDIRECT && Shaped(g, inodes, disk) && Owned(g, inodes, disk, Entries(i, j), owner)
        invariant forall c ::
                    c in owner <==>
                      c in old(owner) && !(old(owner)[c].Entry? && old(owner)[c].i == i && old(owner)[c].k < j)
        invariant forall c :: c in owner ==> owner[c] == old(owner)[c]
        invariant forall c :: g.data <= c < g.size ==> disk[c] == old(disk)[c]
        invariant OnlyMaps(g, old(logged), logged) && Covered()
      {
        FreeEntry(i, j, a);
        j := j + 1;
      }
    }

    /** `bfree(ip->dev, ip->addrs[NDIRECT]); ip->addrs[NDIRECT] = 0;` once the entries are freed. */
    method FreeTop(i: nat)
      requires Shaped(g, inodes, disk) && Owned(g, inodes, disk, Entries(i, NINDIRECT), owner) && |dinodes| == |inodes|
      requires i < |inodes| && inodes[i].addrs[NDIRECT] != 0
      requires Covered()
      modifies this`disk, this`inodes, this`owner, this`logged
      ensures Valid() && inodes == old(inodes)[i := old(inodes[i]).(addrs := old(inodes[i]).addrs[NDIRECT := 0])]
      ensures owner == Without(old(owner), Top(i))
      ensures forall c :: g.data <= c < g.size ==> disk[c] == old(disk)[c]
      ensures OnlyMaps(g, old(logged), logged)
    {
      hide Covers, Owned, At, Held, Entries, BitsBut, SameBut, InUse, Without;
      TopSlots(g, inodes, disk, disk, owner, i);
      WithoutOne(g, inodes, disk, Entries(i, NINDIRECT), owner, Top(i));
      var b := inodes[i].addrs[NDIRECT];
      HeldInUse(g, inodes, disk, Entries(i, NINDIRECT), owner, Top(i));
      var ok := Bfree(b);
      assert ok;
      TopSlots(g, inodes, old(disk), disk, owner, i);
      inodes := inodes[i := inodes[i].(addrs := inodes[i].addrs[NDIRECT := 0])];
      Shrink(g, old(inodes), old(disk), Entries(i, NINDIRECT), inodes, disk, {}, owner, Top(i), b);
      owner := owner - {b};
    }

    /** iupdate(): the inode's fields go to its block. */
    method Iupdate(i: nat)
      requires i < |inodes| == |dinodes| && Shaped(g, inodes, disk)
      modifies this`dinodes, this`logged
      ensures dinodes == old(dinodes)[i := inodes[i]] && logged == old(logged) + {InodeBlock(g, i)}
      ensures old(Covered()) ==> Covered()
    {
      if Covered() {
        CoversUpdate(g, disk0, disk, dinodes0, dinodes, logged, i, inodes[i]);
      }
      dinodes := dinodes[i := inodes[i]];
      logged := logged + {InodeBlock(g, i)};
    }
  }
}
