/**
  unlink() (sysfile.c) on the file system: the name goes, the counts follow, and an inode without links and
  references is freed with its blocks.
 */
module Unlink {
  import opened Common
  import opened Blocks
  import opened FreeMap
  import opened Ownership
  import opened Inodes
  import opened FileContents
  import opened Directory
  import opened Paths
  import opened LinkCounts
  import opened Links

  // --------------------------------------------------------------- names and emptiness

  lemma CanonDots()
    ensures && Canon([46, 0]) == DOT && Canon([46, 46, 0]) == DOTDOT && Readable([46, 0], DIRSIZ)
            && Readable([46, 46, 0], DIRSIZ)
  {
    assert Cut([0], 13) == [] && Cut([46, 0][1..], 13) == Cut([0], 13);
    assert Cut([46, 46, 0][1..], 13) == [46] + Cut([46, 0][1..], 12);
    assert Cut([46, 0][1..], 12) == [];
    var one, two: seq<byte> := [46, 0], [46, 46, 0];
    assert one[1] == 0 && two[2] == 0;
  }

  /** A directory whose entries past the dots are free has nothing but the dots. */
  lemma OnlyDots(c: seq<byte>)
    requires Unique(c) && 2 <= Count(c) && Named(c, 0, DOT) && Named(c, 1, DOTDOT)
    requires forall l: nat :: 2 <= l < Count(c) ==> !Live(c, l)
    ensures DirMap(c).Keys == {DOT, DOTDOT}
  {
    hide Canon, Ent, Inum, MapOf, Count;
    forall x ensures x in DirMap(c).Keys <==> x in {DOT, DOTDOT} {
      MapOfIs(c, Count(c), x);
    }
  }

  /** A live entry past the dots has another name than they have. */
  lemma NotOnlyDots(c: seq<byte>, l: nat)
    requires Unique(c) && 2 <= l < Count(c) && Live(c, l) && Named(c, 0, DOT) && Named(c, 1, DOTDOT)
    ensures DirMap(c).Keys != {DOT, DOTDOT}
  {
    hide Canon, Ent, Inum, MapOf, Count;
    var x := NameAt(c, l);
    assert Named(c, l, x);
    MapOfIs(c, Count(c), x);
    assert x in DirMap(c).Keys;
  }

  /** The entry erased is not one of the dots, so they stay. */
  lemma DotsStayErased(c: seq<byte>, c': seq<byte>, k: nat, n: Name)
    requires 2 <= Count(c) && Named(c, 0, DOT) && Named(c, 1, DOTDOT) && k < Count(c) && Named(c, k, n) && Regular(n)
    requires forall l: nat :: l < Count(c) && l != k ==> Same(c, c', l)
    ensures 2 <= Count(c') && Named(c', 0, DOT) && Named(c', 1, DOTDOT)
  {
    hide Canon, Count, Inum, Ent;
    assert Same(c, c', 0) && Same(c, c', 1);
    SameEntry(c, c', 0);
    SameEntry(c, c', 1);
  }

  // --------------------------------------------------------------- freeing an inode

  /** The other files keep their contents when inode i is truncated. */
  lemma FreedContent(g: Geometry, inodes: seq<Inode>, disk: seq<Block>, owner: map<nat, Slot>, inodes': seq<Inode>,
                     disk': seq<Block>, i: nat, j: nat)
    requires && Owned(g, inodes, disk, {}, owner) && |inodes'| == |inodes| && |disk'| == |disk| && j < |inodes|
             && j != i
             && inodes'[j] == inodes[j]
    requires inodes[j].size <= MAXBYTES && forall c :: g.data <= c < g.size ==> disk'[c] == disk[c]
    ensures && Content(inodes', disk', j) == Content(inodes, disk, j)
            && (HoleFree(inodes', disk', j) <==> HoleFree(inodes, disk, j))
  {
    hide InUse, Word, At;
    forall bn | 0 <= bn < MAXFILE ensures At(inodes', disk', DataSlot(j, bn)) == At(inodes, disk, DataSlot(j, bn)) {
      FreedSlot(g, inodes, disk, owner, inodes', disk', DataSlot(j, bn));
    }
    forall p | 0 <= p < inodes[j].size ensures ByteAt(inodes', disk', j, p) == ByteAt(inodes, disk, j, p) {
      FreedSlot(g, inodes, disk, owner, inodes', disk', DataSlot(j, p / BSIZE));
    }
  }

  lemma FreedSlot(g: Geometry, inodes: seq<Inode>, disk: seq<Block>, owner: map<nat, Slot>, inodes': seq<Inode>,
                  disk': seq<Block>, t: Slot)
    requires && Owned(g, inodes, disk, {}, owner) && |inodes'| == |inodes| && |disk'| == |disk| && IsSlot(inodes, t)
             && inodes'[t.i] == inodes[t.i]
    requires forall c :: g.data <= c < g.size ==> disk'[c] == disk[c]
    ensures At(inodes', disk', t) == At(inodes, disk, t)
    ensures var b := At(inodes, disk, t); b != 0 ==> g.data <= b < g.size
  {
    hide InUse, Word;
    if inodes[t.i].addrs[NDIRECT] != 0 {
      TopIsHeld(g, inodes, disk, {}, owner, t.i);
    }
    assert SlotOk(inodes, disk, {}, owner, t);
    var b := At(inodes, disk, t);
    if b != 0 {
      assert BlockOk(g, inodes, disk, {}, owner, b);
    }
  }

  /** What freeing inode i, which has no links, leaves. */
  lemma FreedTree(g: Geometry, inodes: seq<Inode>, disk: seq<Block>, owner: map<nat, Slot>, inodes': seq<Inode>,
                  disk': seq<Block>, dinodes': seq<Inode>, i: nat)
    requires && Owned(g, inodes, disk, {}, owner) && Sane(inodes, disk, inodes) && 0 < i < |inodes|
             && inodes[i].nlink == 0 && |disk'| == |disk|
    requires inodes' == inodes[i := inodes[i].(kind := 0, size := 0, addrs := NOBLOCK)] && dinodes' == inodes'
    requires forall c :: g.data <= c < g.size ==> disk'[c] == disk[c]
    requires Good(GraphOf(inodes, disk))
    ensures && Sane(inodes', disk', dinodes') && GraphOf(inodes', disk') == Freed(GraphOf(inodes, disk), i)
            && Good(GraphOf(inodes', disk'))
    ensures KeptBut(inodes, disk, inodes', disk', {i})
  {
    hide Owned, Content, HoleFree, Unique, DirMap, Whole, Named, Count, Good;
    assert Sized(inodes');
    forall d | 0 <= d < |inodes| && d != i
      ensures && Content(inodes', disk', d) == Content(inodes, disk, d)
              && (HoleFree(inodes', disk', d) <==> HoleFree(inodes, disk, d))
    {
      FreedContent(g, inodes, disk, owner, inodes', disk', i, d);
    }
    forall d | 0 <= d < |inodes'| && inodes'[d].kind == T_DIR
      ensures DirOk(inodes', disk', d) && DotsFirst(inodes', disk', d)
    {
      assert DirOk(inodes, disk, d) && DotsFirst(inodes, disk, d);
    }
    FreedGraph(inodes, disk, inodes', disk', i);
    GoodShape(GraphOf(inodes, disk));
    FreeKeeps(GraphOf(inodes, disk), i);
  }

  lemma FreedGraph(inodes: seq<Inode>, disk: seq<Block>, inodes': seq<Inode>, disk': seq<Block>, i: nat)
    requires Sized(inodes) && Sized(inodes') && ROOTINO < |inodes| && i < |inodes|
    requires inodes' == inodes[i := inodes[i].(kind := 0, size := 0, addrs := NOBLOCK)]
    requires forall d :: 0 <= d < |inodes| && d != i ==> Content(inodes', disk', d) == Content(inodes, disk, d)
    ensures GraphOf(inodes', disk') == Freed(GraphOf(inodes, disk), i)
  {
    hide Content, DirMap;
    var g, g' := GraphOf(inodes, disk), GraphOf(inodes', disk');
    assert KindsOf(inodes') == KindsOf(inodes)[i := false];
    assert LinksOf(inodes') == LinksOf(inodes);
    assert DirsOf(inodes', disk') == DirsOf(inodes, disk)[i := map[]];
  }

  // --------------------------------------------------------------- the effect of an unlink

  ghost predicate CanUnlink(g: Graph, dp: nat, n: Name) {
    CanRemove(g, dp, n) || CanRemoveDir(g, dp, n)
  }

  /** The graph without the name. */
  ghost function Unlinked(g: Graph, dp: nat, n: Name): (r: Graph)
    requires CanUnlink(g, dp, n)
  {
    if g.isdir[g.dirs[dp][n]] then RemovedDir(g, dp, n) else Removed(g, dp, n)
  }

  lemma UnlinkKeeps(g: Graph, dp: nat, n: Name)
    requires Good(g) && CanUnlink(g, dp, n)
    ensures Good(Unlinked(g, dp, n)) && g.nl[dp] > 0 && g.nl[g.dirs[dp][n]] >= 1 && Unlinked(g, dp, n).nl[dp] >= 1
  {
    hide Good;
    if g.isdir[g.dirs[dp][n]] {
      RemoveDirKeeps(g, dp, n);
      EmptyHasOneLink(g, dp, n);
    } else {
      RemoveKeeps(g, dp, n);
      HasNames(g, dp, n);
    }
  }

  /** The state of the inodes once the entry is erased: counts of the directory and of what it named. */
  ghost function Dropped(inodes: seq<Inode>, dp: nat, i: nat): (r: seq<Inode>)
    requires dp < |inodes| && i < |inodes| && dp != i
  {
    var mid := if inodes[i].kind == T_DIR then inodes[dp := inodes[dp].(nlink := inodes[dp].nlink - 1)] else inodes;
    mid[i := mid[i].(nlink := mid[i].nlink - 1)]
  }

  /** The name n of inode i is gone from directory dp. */
  ghost predicate Erased(inodes: seq<Inode>, disk: seq<Block>, inodes': seq<Inode>, disk': seq<Block>,
                         dinodes': seq<Inode>, dp: nat, n: Name)
    requires Sized(inodes) && dp < |inodes|
  {
    && Sane(inodes', disk', dinodes') && |inodes'| == |inodes| && KeptBut(inodes, disk, inodes', disk', {dp})
    && SameDevices(inodes, inodes', {})
    && (forall j :: 0 <= j < |inodes| ==> inodes'[j].kind == inodes[j].kind && inodes'[j].nlink == inodes[j].nlink)
    && GraphOf(inodes', disk') ==
         GraphOf(inodes, disk).(dirs := DirsOf(inodes, disk)[dp := DirOf(inodes, disk, dp) - {n}])
  }

  lemma ErasedBy(inodes: seq<Inode>, disk: seq<Block>, dinodes: seq<Inode>, inodes': seq<Inode>, disk': seq<Block>,
                 dinodes': seq<Inode>, dp: nat, k: nat, n: Name)
    requires Sane(inodes, disk, dinodes) && dp < |inodes| && inodes[dp].kind == T_DIR && Sized(inodes') && Regular(n)
    requires && OnlyDir(inodes, disk, dinodes, inodes', disk', dinodes', dp) && IsDir(inodes', disk', dp)
             && Unique(Content(inodes', disk', dp))
    requires var c := Content(inodes, disk, dp);
             && k < Count(c) && Named(c, k, n)
             && (forall l: nat :: l < Count(c) && l != k ==> Same(c, Content(inodes', disk', dp), l))
    requires DirMap(Content(inodes', disk', dp)) == DirMap(Content(inodes, disk, dp)) - {n}
    ensures Erased(inodes, disk, inodes', disk', dinodes', dp, n)
  {
    hide Content, HoleFree, Unique, DirMap, IsEmpty, Count, Named, Live;
    assert DirOk(inodes, disk, dp) && DotsFirst(inodes, disk, dp);
    DotsStayErased(Content(inodes, disk, dp), Content(inodes', disk', dp), k, n);
    DirStep(inodes, disk, dinodes, inodes', disk', dinodes', dp);
    KeptByDir(inodes, disk, dinodes, inodes', disk', dinodes', dp);
  }

  /** The counts adjusted after the entry is erased: the graph without the name, in order again. */
  lemma DroppedGood(inodes: seq<Inode>, disk: seq<Block>, inodes1: seq<Inode>, disk1: seq<Block>,
                    dinodes1: seq<Inode>, dp: nat, n: Name)
    requires Sized(inodes) && dp < |inodes| && Erased(inodes, disk, inodes1, disk1, dinodes1, dp, n)
    requires Good(GraphOf(inodes, disk)) && CanUnlink(GraphOf(inodes, disk), dp, n)
    ensures var i := GraphOf(inodes, disk).dirs[dp][n];
            && i < |inodes| && i != dp
            && var inodes2 := Dropped(inodes1, dp, i);
               && Sane(inodes2, disk1, inodes2) && GraphOf(inodes2, disk1) == Unlinked(GraphOf(inodes, disk), dp, n)
               && Good(GraphOf(inodes2, disk1))
               && inodes2[dp].nlink >= 1 && inodes2[i].nlink >= 0 && KeptBut(inodes, disk, inodes2, disk1, {dp})
               && SameDevices(inodes, inodes2, {})
  {
    hide Good, Tree, AllDotsFirst, DirOf, KeptAt;
    var g := GraphOf(inodes, disk);
    GoodShape(g);
    UnlinkKeeps(g, dp, n);
    assert g.dirs[dp] == DirOf(inodes, disk, dp);
    var i := g.dirs[dp][n];
    assert i != dp;
    var inodes2 := Dropped(inodes1, dp, i);
    SaneSized(inodes1, disk1, dinodes1);
    NlinkTree(inodes1, inodes2, disk1);
    KeptByNlink(inodes1, inodes2, disk1);
    KeptTwice(inodes, disk, inodes1, disk1, inodes2, disk1, {dp}, {});
    DevicesTwice(inodes, inodes1, inodes2, {});
    assert g.nl[i] == inodes[i].nlink && g.nl[dp] == inodes[dp].nlink && (g.isdir[i] <==> inodes[i].kind == T_DIR);
    DroppedGraph(inodes, disk, inodes1, disk1, dp, n, i);
    DroppedFree(inodes1, dp, i);
  }

  lemma DroppedGraph(inodes: seq<Inode>, disk: seq<Block>, inodes1: seq<Inode>, disk1: seq<Block>, dp: nat, n: Name,
                     i: nat)
    requires Sized(inodes) && Sized(inodes1) && |inodes1| == |inodes| && dp < |inodes| && i < |inodes| && dp != i
    requires forall j :: 0 <= j < |inodes| ==> inodes1[j].kind == inodes[j].kind && inodes1[j].nlink == inodes[j].nlink
    requires var g := GraphOf(inodes, disk);
             && CanUnlink(g, dp, n) && g.dirs[dp][n] == i
             && GraphOf(inodes1, disk1) == g.(dirs := DirsOf(inodes, disk)[dp := g.dirs[dp] - {n}])
    requires GraphOf(Dropped(inodes1, dp, i), disk1) == GraphOf(inodes1, disk1).(nl := LinksOf(Dropped(inodes1, dp, i)))
    ensures GraphOf(Dropped(inodes1, dp, i), disk1) == Unlinked(GraphOf(inodes, disk), dp, n)
  {
    hide DirOf;
    var g, inodes2 := GraphOf(inodes, disk), Dropped(inodes1, dp, i);
    assert g.isdir[i] <==> inodes1[i].kind == T_DIR;
    assert LinksOf(inodes2) == Unlinked(g, dp, n).nl;
  }

  lemma DroppedFree(inodes: seq<Inode>, dp: nat, i: nat)
    requires && dp < |inodes| && i < |inodes| && dp != i && FreeEmpty(inodes) && inodes[i].nlink >= 1
             && inodes[dp].nlink >= 1
    ensures FreeEmpty(Dropped(inodes, dp, i))
  {
    var inodes' := Dropped(inodes, dp, i);
    forall j | 0 <= j < |inodes'| && inodes'[j].kind == 0 ensures IsEmpty(inodes'[j]) {
      assert IsEmpty(inodes[j]);
    }
  }

  // --------------------------------------------------------------- unlink

  /** The effect of an unlink of the name n of inode i in directory dp: the name is gone, and with the last link and no
      reference i is free and holds no block; all other files are as before. */
  ghost predicate UnlinkedBy(inodes: seq<Inode>, disk: seq<Block>, inodes': seq<Inode>, disk': seq<Block>,
                             owner': map<nat, Slot>, dp: nat, n: Name, refs: nat) {
    && Sized(inodes) && Sized(inodes')
    && var g := GraphOf(inodes, disk);
       && CanUnlink(g, dp, n) && Good(GraphOf(inodes', disk'))
       && var i, g' := g.dirs[dp][n], Unlinked(g, dp, n);
          && |inodes'| == |inodes| && (forall j :: 0 <= j < |inodes| && j != i ==> inodes'[j].kind == inodes[j].kind)
          && SameDevices(inodes, inodes', {})
          && if g'.nl[i] == 0 && refs == 0 then
               && GraphOf(inodes', disk') == Freed(g', i) && inodes'[i].kind == 0
               && KeptBut(inodes, disk, inodes', disk', {dp, i})
               && forall c :: c in owner' ==> owner'[c].i != i
             else
               && GraphOf(inodes', disk') == g' && inodes'[i].kind == inodes[i].kind
               && KeptBut(inodes, disk, inodes', disk', {dp})
  }

  /** sys_unlink() from the erasing of the entry on: entries d and k are those of the directory and of the inode. */
  method Drop(fs: FileSys, ic: ICache, d: nat, k: nat, off: nat, ghost n: Name, ghost e0: seq<Cached>)
    returns (r: Option<int>)
    requires && Sized(fs.inodes) && fs.Valid() && Sane(fs.inodes, fs.disk, fs.dinodes)
             && Good(GraphOf(fs.inodes, fs.disk)) && LiveCache(fs.inodes, ic.entries)
    requires && d < NINODE && k < NINODE && d != k && ic.entries[d].ref > 0 && ic.entries[k].ref > 0
             && ic.entries[k].valid && OneEntry(e0) && Pinned(e0, ic.entries)
    requires && Regular(n) && 0 < ic.entries[k].inum && Anchored(fs.inodes, e0)
             && TwoMore(e0, ic.entries, ic.entries[d].inum, ic.entries[k].inum)
    requires var dp := ic.entries[d].inum;
             && fs.inodes[dp].kind == T_DIR && CanUnlink(GraphOf(fs.inodes, fs.disk), dp, n)
             && GraphOf(fs.inodes, fs.disk).dirs[dp][n] == ic.entries[k].inum != dp
             && off % DESIZE == 0 && off < fs.inodes[dp].size
             && var c := Content(fs.inodes, fs.disk, dp); off / DESIZE < Count(c) && Named(c, off / DESIZE, n)
    modifies ic, fs`disk, fs`inodes, fs`dinodes, fs`owner, fs`logged
    ensures && r == Some(0) && fs.Valid() && Sane(fs.inodes, fs.disk, fs.dinodes) && LiveCache(fs.inodes, ic.entries)
            && Pinned(e0, ic.entries)
            && SameRefs(e0, ic.entries) && Anchored(fs.inodes, e0) && |fs.inodes| == old(|fs.inodes|)
            && FewMore(fs.g, old(fs.logged), fs.logged, 8) && Room(fs.g, fs.owner) >= Room(fs.g, old(fs.owner))
            && UnlinkedBy(old(fs.inodes), old(fs.disk), fs.inodes, fs.disk, fs.owner, old(ic.entries[d].inum), n,
                          Refs(e0, old(ic.entries[k].inum)))
  {
    hide Owned, Refs, Tree, Good, GraphOf, Sane, UnlinkedBy, Content, Anchored, CanUnlink, Erased, TwoMore, OneMore,
      SameRefs, Pinned, AnchoredBut, OneMoreAt, KeptBut, FewMore, Covers, SameDevices;
    var dp, i := ic.entries[d].inum, ic.entries[k].inum;
    r := EraseName(fs, dp, off, n);
    ghost var inodes1, logged1 := fs.inodes, fs.logged;
    DroppedGood(old(fs.inodes), old(fs.disk), inodes1, fs.disk, fs.dinodes, dp, n);
    MidFacts(old(fs.inodes), old(fs.disk), inodes1, fs.disk, fs.dinodes, dp, n, i, e0, ic.entries);
    Uncount(fs, ic, d, i, e0);
    ghost var disk2, logged3 := fs.disk, fs.logged;
    SaneSized(fs.inodes, fs.disk, fs.dinodes);
    LastPut(fs, ic, k, e0);
    DropFew(fs.g, old(fs.logged), logged1, logged3, fs.logged, InodeBlock(fs.g, dp), InodeBlock(fs.g, i));
    UnlinkDone(old(fs.inodes), old(fs.disk), Dropped(inodes1, dp, i), disk2, fs.inodes, fs.disk, fs.owner, dp, n,
               Refs(e0, i));
  }

  /** The decrements of sys_unlink(), and iunlockput(dp) between them. */
  method Uncount(fs: FileSys, ic: ICache, d: nat, i: nat, ghost e0: seq<Cached>)
    requires fs.Valid() && fs.dinodes == fs.inodes && OneEntry(e0) && Pinned(e0, ic.entries) && i < |fs.inodes|
    requires d < NINODE && |ic.entries| == NINODE && ic.entries[d].ref > 0 && ic.entries[d].inum < |fs.inodes|
    requires var dp := ic.entries[d].inum;
             && dp != i && fs.inodes[dp].kind != 0 && TwoMore(e0, ic.entries, dp, i) && OneMoreAt(e0, ic.entries, dp)
             && var mid := if fs.inodes[i].kind != T_DIR then fs.inodes
                           else fs.inodes[dp := fs.inodes[dp].(nlink := fs.inodes[dp].nlink - 1)];
                Anchored(mid, e0) && LiveCache(mid, ic.entries)
    modifies ic, fs`disk, fs`inodes, fs`dinodes, fs`owner, fs`logged
    ensures fs.Valid() && fs.disk == old(fs.disk) && fs.owner == old(fs.owner)
    ensures var dp := old(ic.entries[d].inum);
            && fs.inodes == Dropped(old(fs.inodes), dp, i) && fs.dinodes == fs.inodes
            && OneMore(e0, ic.entries, i)
            && (|| fs.logged == old(fs.logged) + {InodeBlock(fs.g, i)}
                || fs.logged == old(fs.logged) + {InodeBlock(fs.g, dp)} + {InodeBlock(fs.g, i)})
    ensures LiveCache(fs.inodes, ic.entries) && Pinned(e0, ic.entries)
    ensures forall j :: 0 <= j < NINODE && j != d ==> ic.entries[j] == old(ic.entries[j])
  {
    hide Owned, Refs, Anchored, TwoMore, OneMore, Pinned, OneMoreAt, Covers;
    var dp := ic.entries[d].inum;
    if fs.inodes[i].kind == T_DIR {
      AddLinks(fs, dp, -1);
    }
    ghost var e2 := ic.entries;
    PutBack(fs, ic, d, e0);
    OneOfTwo(e0, e2, ic.entries, dp, i);
    AddLinks(fs, i, -1);
    assert fs.inodes == Dropped(old(fs.inodes), dp, i) && fs.dinodes == fs.inodes;
  }

  lemma DropFew(g: Geometry, was: set<nat>, one: set<nat>, three: set<nat>, now: set<nat>, a: nat, b: nat)
    requires FewMore(g, was, one, 4) && (three == one + {b} || three == one + {a} + {b}) && FewMore(g, three, now, 2)
    ensures FewMore(g, was, now, 8)
  {
    hide FewMore;
    FewOne(g, one, a);
    FewOne(g, one, b);
    FewOne(g, one + {a}, b);
    if three == one + {b} {
      FewGrow(g, one, three, 1, 2);
    } else {
      FewTwice(g, one, one + {a}, three, 1, 1);
    }
    FewTwice(g, was, one, three, 4, 2);
    FewTwice(g, was, three, now, 6, 2);
  }

  lemma MoreRoom(g: Geometry, owner: map<nat, Slot>, owner': map<nat, Slot>)
    requires forall c :: c in owner' ==> c in owner
    ensures Room(g, owner') >= Room(g, owner)
  {
    SubsetSize(owner'.Keys, owner.Keys);
  }

  /** Freeing an inode logs its block and the map. */
  lemma FreeFew(g: Geometry, was: set<nat>, now: set<nat>, b: nat)
    requires forall c :: c in now ==> c in was || MapBlock(g, c) || c == b
    ensures FewMore(g, was, now, 2)
  {
    if g.size < BPB {
      forall c | c in now - was ensures c in {g.bmapstart, b} {
        OneMapBlock(g, c);
      }
      SubsetSize(now - was, {g.bmapstart, b});
    }
  }

  /** The final iunlockput(ip): the inode is freed if that was its last reference and it has no links. */
  method LastPut(fs: FileSys, ic: ICache, k: nat, ghost e0: seq<Cached>)
    requires && Sized(fs.inodes) && fs.Valid() && Sane(fs.inodes, fs.disk, fs.dinodes)
             && Good(GraphOf(fs.inodes, fs.disk)) && LiveCache(fs.inodes, ic.entries)
    requires && k < NINODE && ic.entries[k].ref > 0 && ic.entries[k].valid && 0 < ic.entries[k].inum && OneEntry(e0)
             && Pinned(e0, ic.entries)
    requires OneMore(e0, ic.entries, ic.entries[k].inum) && AnchoredBut(fs.inodes, e0, ic.entries[k].inum)
    modifies ic, fs`disk, fs`inodes, fs`dinodes, fs`owner, fs`logged
    ensures && fs.Valid() && Sane(fs.inodes, fs.disk, fs.dinodes) && LiveCache(fs.inodes, ic.entries)
            && Pinned(e0, ic.entries)
    ensures && SameRefs(e0, ic.entries) && Anchored(fs.inodes, e0) && |fs.inodes| == old(|fs.inodes|)
            && Sized(fs.inodes)
            && Good(GraphOf(fs.inodes, fs.disk))
    ensures var i := old(ic.entries[k].inum);
            if old(fs.inodes)[i].nlink == 0 && Refs(e0, i) == 0 then
              && Shape(GraphOf(old(fs.inodes), old(fs.disk)))
              && GraphOf(fs.inodes, fs.disk) == Freed(GraphOf(old(fs.inodes), old(fs.disk)), i)
              && fs.inodes[i].kind == 0 && (forall c :: c in fs.owner ==> fs.owner[c].i != i)
              && KeptBut(old(fs.inodes), old(fs.disk), fs.inodes, fs.disk, {i})
            else fs.inodes == old(fs.inodes) && fs.disk == old(fs.disk)
    ensures FewMore(fs.g, old(fs.logged), fs.logged, 2) && Room(fs.g, fs.owner) >= Room(fs.g, old(fs.owner))
    ensures forall j :: 0 <= j < |fs.inodes| && j != old(ic.entries[k].inum) ==> fs.inodes[j] == old(fs.inodes)[j]
    ensures SameDevices(old(fs.inodes), fs.inodes, {})
  {
    hide Owned, Refs, Tree, Good, GraphOf, AllDotsFirst, KeptBut, FewMore, Covers;
    ghost var e1, i := ic.entries, ic.entries[k].inum;
    if e0[k].ref > 0 {
      RefsAt(e0, k);
    }
    RefsAt(ic.entries, k);
    GoodShape(GraphOf(fs.inodes, fs.disk));
    SlotsInRange(fs.g, fs.inodes, fs.disk, {}, fs.owner);
    ghost var freed := fs.inodes[i].nlink == 0 && Refs(e1, i) == 1;
    ic.Iput(fs, k);
    FreeFew(fs.g, old(fs.logged), fs.logged, InodeBlock(fs.g, i));
    MoreRoom(fs.g, old(fs.owner), fs.owner);
    if freed {
      FreedTree(fs.g, old(fs.inodes), old(fs.disk), old(fs.owner), fs.inodes, fs.disk, fs.dinodes, i);
      SlotsInRange(fs.g, fs.inodes, fs.disk, {}, fs.owner);
      OwnerLost(fs.g, fs.inodes, fs.disk, fs.owner, i);
      SaneSized(fs.inodes, fs.disk, fs.dinodes);
    }
    BackToBefore(e0, e1, ic.entries, i);
  }

  /** A free inode holds no block. */
  lemma OwnerLost(g: Geometry, inodes: seq<Inode>, disk: seq<Block>, owner: map<nat, Slot>, i: nat)
    requires Owned(g, inodes, disk, {}, owner) && i < |inodes| && inodes[i].addrs == NOBLOCK
    ensures forall c :: c in owner ==> owner[c].i != i
  {
    hide InUse;
    forall c | c in owner ensures owner[c].i != i {
      assert BlockOk(g, inodes, disk, {}, owner, c);
    }
  }

  /** As Anchored, but for inode i. */
  ghost predicate AnchoredBut(inodes: seq<Inode>, entries: seq<Cached>, i: nat) {
    forall x :: 0 <= x < |inodes| && x != i && inodes[x].kind != 0 && inodes[x].nlink == 0 ==> Refs(entries, x) >= 1
  }

  lemma OneOfTwo(before: seq<Cached>, entries: seq<Cached>, after: seq<Cached>, x: nat, y: nat)
    requires TwoMore(before, entries, x, y) && OneMore(after, entries, x)
    ensures OneMore(before, after, y)
  {
    forall z ensures Refs(after, z) == Refs(before, z) + if z == y then 1 else 0 {
      assert Refs(entries, z) == Refs(before, z) + (if z == x then 1 else 0) + if z == y then 1 else 0;
    }
  }

  /** Between the two decrements nothing has lost its last link but perhaps i. */
  lemma MidFacts(inodes: seq<Inode>, disk: seq<Block>, inodes1: seq<Inode>, disk1: seq<Block>, dinodes1: seq<Inode>,
                 dp: nat, n: Name, i: nat,
                 e0: seq<Cached>, entries: seq<Cached>)
    requires && Sized(inodes) && dp < |inodes| && i < |inodes| && i != dp
             && Erased(inodes, disk, inodes1, disk1, dinodes1, dp, n)
    requires && Anchored(inodes, e0) && LiveCache(inodes, entries) && TwoMore(e0, entries, dp, i)
             && Dropped(inodes1, dp, i)[dp].nlink >= 1
    ensures |inodes1| == |inodes| && dinodes1 == inodes1 && OneMoreAt(e0, entries, dp)
    ensures var mid := if inodes1[i].kind != T_DIR then inodes1
                       else inodes1[dp := inodes1[dp].(nlink := inodes1[dp].nlink - 1)];
            Anchored(mid, e0) && LiveCache(mid, entries) && mid[dp].kind == inodes[dp].kind
    ensures && AnchoredBut(Dropped(inodes1, dp, i), e0, i)
            && forall j :: 0 <= j < |inodes| ==> inodes1[j].kind == inodes[j].kind
  {
    hide Refs, Tree, AllDotsFirst, GraphOf, DirsOf;
  }

  lemma UnlinkDone(inodes: seq<Inode>, disk: seq<Block>, inodes2: seq<Inode>, disk2: seq<Block>, inodes3: seq<Inode>,
                   disk3: seq<Block>, owner3: map<nat, Slot>,
                   dp: nat, n: Name, refs: nat)
    requires && Sized(inodes) && Sized(inodes2) && Sized(inodes3) && |inodes3| == |inodes|
             && CanUnlink(GraphOf(inodes, disk), dp, n)
    requires GraphOf(inodes2, disk2) == Unlinked(GraphOf(inodes, disk), dp, n) && Good(GraphOf(inodes3, disk3))
    requires |inodes2| == |inodes| && forall j :: 0 <= j < |inodes| ==> inodes2[j].kind == inodes[j].kind
    requires KeptBut(inodes, disk, inodes2, disk2, {dp})
    requires SameDevices(inodes, inodes2, {}) && SameDevices(inodes2, inodes3, {})
    requires var g, g' := GraphOf(inodes, disk), GraphOf(inodes2, disk2);
             var i := g.dirs[dp][n];
             && i < |inodes2| && (forall j :: 0 <= j < |inodes| && j != i ==> inodes3[j].kind == inodes2[j].kind)
             && if inodes2[i].nlink == 0 && refs == 0 then
                  && Shape(g') && GraphOf(inodes3, disk3) == Freed(g', i) && inodes3[i].kind == 0
                  && (forall c :: c in owner3 ==> owner3[c].i != i) && KeptBut(inodes2, disk2, inodes3, disk3, {i})
                else inodes3 == inodes2 && disk3 == disk2
    ensures UnlinkedBy(inodes, disk, inodes3, disk3, owner3, dp, n, refs)
  {
    hide Good, DirsOf, KeptBut, SameDevices;
    DevicesTwice(inodes, inodes2, inodes3, {});
    var g', i := GraphOf(inodes2, disk2), GraphOf(inodes, disk).dirs[dp][n];
    if inodes2[i].nlink == 0 && refs == 0 {
      KeptTwice(inodes, disk, inodes2, disk2, inodes3, disk3, {dp}, {i});
      assert {dp} + {i} == {dp, i};
    }
    assert && |g'.nl| == |inodes2|
           && g'.nl[GraphOf(inodes, disk).dirs[dp][n]] == inodes2[GraphOf(inodes, disk).dirs[dp][n]].nlink;
  }

  /** One reference more to each of two inodes. */
  ghost predicate TwoMore(before: seq<Cached>, entries: seq<Cached>, x: nat, y: nat) {
    forall z :: Refs(entries, z) == Refs(before, z) + (if z == x then 1 else 0) + if z == y then 1 else 0
  }

  method EraseName(fs: FileSys, dp: nat, off: nat, ghost n: Name) returns (r: Option<int>)
    requires && fs.Valid() && Sane(fs.inodes, fs.disk, fs.dinodes) && dp < |fs.inodes| && fs.inodes[dp].kind == T_DIR
             && Sized(fs.inodes) && Regular(n)
    requires off % DESIZE == 0 && off < fs.inodes[dp].size
    requires var c := Content(fs.inodes, fs.disk, dp); off / DESIZE < Count(c) && Named(c, off / DESIZE, n)
    modifies fs`disk, fs`inodes, fs`dinodes, fs`owner, fs`logged
    ensures FewMore(fs.g, old(fs.logged), fs.logged, 4) && Room(fs.g, fs.owner) == Room(fs.g, old(fs.owner))
    ensures r == Some(0) && fs.Valid() && Erased(old(fs.inodes), old(fs.disk), fs.inodes, fs.disk, fs.dinodes, dp, n)
  {
    hide Owned, Content, Canon, OnlyDir, DirMap, Unique, AllDotsFirst, Erased, EntryLogs, Covers;
    assert DirOk(fs.inodes, fs.disk, dp);
    r := EraseEntry(fs, dp, off);
    EntryFew(fs.g, fs.inodes, fs.disk, dp, off / BSIZE, old(fs.logged), fs.logged);
    ErasedBy(old(fs.inodes), old(fs.disk), old(fs.dinodes), fs.inodes, fs.disk, fs.dinodes, dp, off / DESIZE, n);
  }

  /** What sys_unlink() needs to know of the inode it looked up: it has a link, so it is allocated. */
  lemma LookedUp(inodes: seq<Inode>, disk: seq<Block>, dinodes: seq<Inode>, dp: nat, n: Name)
    requires && Sane(inodes, disk, dinodes) && Sized(inodes) && Good(GraphOf(inodes, disk)) && dp < |inodes|
             && inodes[dp].kind == T_DIR
    requires n in DirMap(Content(inodes, disk, dp)) && Regular(n)
    ensures var g, i := GraphOf(inodes, disk), DirMap(Content(inodes, disk, dp))[n];
            && |g.dirs| == |inodes| && g.dirs[dp] == DirMap(Content(inodes, disk, dp)) && 0 < i < |inodes| && i != dp
            && inodes[i].kind != 0 && inodes[i].nlink >= 1
            && (inodes[i].kind != T_DIR ==> CanUnlink(g, dp, n))
            && (inodes[i].kind == T_DIR && DirMap(Content(inodes, disk, i)).Keys == {DOT, DOTDOT} ==>
                  CanUnlink(g, dp, n))
  {
    hide Good, Tree, AllDotsFirst, Content, DirMap;
    var g := GraphOf(inodes, disk);
    GoodShape(g);
    assert g.dirs[dp] == DirOf(inodes, disk, dp);
    HasNames(g, dp, n);
    GoodNamed(g, dp, n);
    var i := g.dirs[dp][n];
    assert g.dirs[i] == DirOf(inodes, disk, i) && g.nl[i] == inodes[i].nlink;
    FreeHasNoLinks(inodes, i);
    assert |g.dirs| == |inodes|;
  }

  lemma FreeHasNoLinks(inodes: seq<Inode>, i: nat)
    requires FreeEmpty(inodes) && i < |inodes| && inodes[i].nlink != 0
    ensures inodes[i].kind != 0
  {
  }

  /** When unlink() refuses a name of directory dp: it is one of the dots, it is not there, or it is that of a directory
      that is not empty. */
  ghost predicate Unremovable(inodes: seq<Inode>, disk: seq<Block>, dp: nat, name: seq<byte>)
    requires Tree(inodes, disk) && Sized(inodes) && dp < |inodes|
  {
    var i := Child(inodes, disk, dp, name);
    || Canon(name) == DOT || Canon(name) == DOTDOT || i.None?
    || (inodes[i.value].kind == T_DIR && DirOf(inodes, disk, i.value).Keys != {DOT, DOTDOT})
  }

  /** There is no cache entry for the inode that directory dp has under the name, while dp is held too. */
  ghost predicate NoEntryFor(inodes: seq<Inode>, disk: seq<Block>, used: set<nat>, dp: nat, name: seq<byte>)
    requires Tree(inodes, disk) && dp < |inodes|
  {
    Child(inodes, disk, dp, name).Some? && NoEntry(used + {dp}, Child(inodes, disk, dp, name).value)
  }

  /** When unlink() panics: on the way to the directory, or for want of a cache entry for the inode. */
  ghost predicate UnlinkStuck(inodes: seq<Inode>, disk: seq<Block>, used: set<nat>, cwd: nat, path: seq<byte>) {
    && Tree(inodes, disk) && Sized(inodes) && From(cwd, path) < |inodes|
    && (|| NamexPanics(inodes, disk, used, cwd, path, true)
        || (var d, es := Target(inodes, disk, From(cwd, path), Elements(path), true), Elements(path);
            && d.Some? && es != [] && Regular(Canon(es[|es| - 1]))
            && NoEntryFor(inodes, disk, used, d.value, es[|es| - 1])))
  }

  /** When unlink() returns -1. */
  ghost predicate UnlinkRefused(inodes: seq<Inode>, disk: seq<Block>, start: nat, es: seq<seq<byte>>) {
    && Tree(inodes, disk) && Sized(inodes) && start < |inodes|
    && var d := Target(inodes, disk, start, es, true);
       d.None? || es == [] || Unremovable(inodes, disk, d.value, es[|es| - 1])
  }

  /** What can be unlinked is not refused. */
  lemma Removable(inodes: seq<Inode>, disk: seq<Block>, dp: nat, name: seq<byte>)
    requires Tree(inodes, disk) && Sized(inodes) && dp < |inodes| && inodes[dp].kind == T_DIR
    requires CanUnlink(GraphOf(inodes, disk), dp, Canon(name))
    ensures !Unremovable(inodes, disk, dp, name)
  {
    hide Tree, Canon, Child, DirMap, Content;
    ChildIs(inodes, disk, dp, name);
    var g := GraphOf(inodes, disk);
    assert g.dirs[dp] == DirOf(inodes, disk, dp);
    var i := g.dirs[dp][Canon(name)];
    assert g.dirs[i] == DirOf(inodes, disk, i) && g.isdir[i] == (inodes[i].kind == T_DIR);
  }

  lemma SameUnremovable(inodes: seq<Inode>, disk: seq<Block>, dp: nat, name: seq<byte>, name': seq<byte>)
    requires Tree(inodes, disk) && Sized(inodes) && dp < |inodes| && Canon(name) == Canon(name')
    ensures Unremovable(inodes, disk, dp, name) <==> Unremovable(inodes, disk, dp, name')
  {
    hide Tree, Canon, Child;
    SameChild(inodes, disk, dp, name, name');
  }

  /** sys_unlink() in the directory locked in entry d. */
  method UnlinkIn(fs: FileSys, ic: ICache, d: nat, name: seq<byte>, ghost e0: seq<Cached>) returns (r: Option<int>)
    requires && Sized(fs.inodes) && fs.Valid() && Sane(fs.inodes, fs.disk, fs.dinodes)
             && Good(GraphOf(fs.inodes, fs.disk)) && LiveCache(fs.inodes, ic.entries)
    requires && d < NINODE && ic.entries[d].ref > 0 && OneEntry(e0) && Pinned(e0, ic.entries)
             && fs.inodes[ic.entries[d].inum].kind == T_DIR && |name| == DIRSIZ
    requires Anchored(fs.inodes, e0) && OneMore(e0, ic.entries, ic.entries[d].inum)
    modifies ic, fs`disk, fs`inodes, fs`dinodes, fs`owner, fs`logged
    ensures r.Some? ==>
              && fs.Valid() && LiveCache(fs.inodes, ic.entries) && Pinned(e0, ic.entries) && SameRefs(e0, ic.entries)
              && Anchored(fs.inodes, e0) && |fs.inodes| == old(|fs.inodes|)
    ensures var dp := old(ic.entries[d].inum);
            && Tree(old(fs.inodes), old(fs.disk)) && dp < old(|fs.inodes|)
            && (r.None? <==> Regular(Canon(name)) && NoEntryFor(old(fs.inodes), old(fs.disk), InCache(e0), dp, name))
    ensures r.Some? ==> FewMore(fs.g, old(fs.logged), fs.logged, 8) && Room(fs.g, fs.owner) >= Room(fs.g, old(fs.owner))
    ensures r == Some(-1) ==>
              && Tree(old(fs.inodes), old(fs.disk))
              && Unremovable(old(fs.inodes), old(fs.disk), old(ic.entries[d].inum), name)
    ensures r == Some(-1) ==>
              && fs.inodes == old(fs.inodes) && fs.dinodes == old(fs.dinodes) && fs.disk == old(fs.disk)
              && fs.owner == old(fs.owner)
    ensures r.Some? && r != Some(-1) ==>
              && r == Some(0) && Sane(fs.inodes, fs.disk, fs.dinodes)
              && var dp, n, g := old(ic.entries[d].inum), Canon(name), GraphOf(old(fs.inodes), old(fs.disk));
                 && dp < |g.dirs| && n in g.dirs[dp]
                 && UnlinkedBy(old(fs.inodes), old(fs.disk), fs.inodes, fs.disk, fs.owner, dp, n,
                               Refs(e0, g.dirs[dp][n]))
  {
    hide Owned, Refs, Tree, Good, GraphOf, UnlinkedBy, Content, Canon, Finds, DirMap, IsDir, Unique, OneMore,
      SameRefs, CanUnlink, Anchored, AllDotsFirst, Count, Named, Child, InCache, FewMore, Covers, NoEntry;
    FewOne(fs.g, fs.logged, 0);
    FewGrow(fs.g, fs.logged, fs.logged, 0, 8);
    ghost var e1 := ic.entries;
    var dp := ic.entries[d].inum;
    MoreThanBefore(e0, e1, dp);
    CanonDots();
    var dot := Namecmp(name, [46, 0]);
    var dotdot := Namecmp(name, [46, 46, 0]);
    if dot == 0 || dotdot == 0 {
      PutBack(fs, ic, d, e0);
      BackToBefore(e0, e1, ic.entries, dp);
      return Some(-1);
    }
    ghost var n := Canon(name);
    DirFacts(fs.inodes, fs.disk, fs.dinodes, dp);
    var found := Dirlookup(fs, dp, name);
    FindsIsLookup(Content(fs.inodes, fs.disk, dp), n, found);
    ChildIs(fs.inodes, fs.disk, dp, name);
    if found.None? {
      PutBack(fs, ic, d, e0);
      BackToBefore(e0, e1, ic.entries, dp);
      return Some(-1);
    }
    r := UnlinkFound(fs, ic, d, found.value.0, found.value.1, n, e0);
  }

  lemma DirFacts(inodes: seq<Inode>, disk: seq<Block>, dinodes: seq<Inode>, dp: nat)
    requires Sane(inodes, disk, dinodes) && dp < |inodes| && inodes[dp].kind == T_DIR
    ensures Sized(inodes) && IsDir(inodes, disk, dp) && Unique(Content(inodes, disk, dp)) && DotsFirst(inodes, disk, dp)
  {
    assert DirOk(inodes, disk, dp);
  }

  /** sys_unlink() once the name is found, at off, to be that of inum. */
  method UnlinkFound(fs: FileSys, ic: ICache, d: nat, inum: nat, off: nat, ghost n: Name, ghost e0: seq<Cached>)
    returns (r: Option<int>)
    requires && Sized(fs.inodes) && fs.Valid() && Sane(fs.inodes, fs.disk, fs.dinodes)
             && Good(GraphOf(fs.inodes, fs.disk)) && LiveCache(fs.inodes, ic.entries)
    requires && d < NINODE && ic.entries[d].ref > 0 && OneEntry(e0) && Pinned(e0, ic.entries)
             && fs.inodes[ic.entries[d].inum].kind == T_DIR && Regular(n)
    requires Anchored(fs.inodes, e0) && OneMore(e0, ic.entries, ic.entries[d].inum)
    requires var c := Content(fs.inodes, fs.disk, ic.entries[d].inum);
             Unique(c) && n in DirMap(c) && DirMap(c)[n] == inum && Finds(c, n, Some((inum, off)))
    modifies ic, fs`disk, fs`inodes, fs`dinodes, fs`owner, fs`logged
    ensures r.Some? ==>
              && fs.Valid() && LiveCache(fs.inodes, ic.entries) && Pinned(e0, ic.entries) && SameRefs(e0, ic.entries)
              && Anchored(fs.inodes, e0) && |fs.inodes| == old(|fs.inodes|)
    ensures r.None? <==> NoEntry(InCache(e0) + {old(ic.entries[d].inum)}, inum)
    ensures r.Some? ==> FewMore(fs.g, old(fs.logged), fs.logged, 8) && Room(fs.g, fs.owner) >= Room(fs.g, old(fs.owner))
    ensures r == Some(-1) ==>
              && inum < old(|fs.inodes|) && old(fs.inodes)[inum].kind == T_DIR
              && DirOf(old(fs.inodes), old(fs.disk), inum).Keys != {DOT, DOTDOT}
    ensures r == Some(-1) ==>
              && fs.inodes == old(fs.inodes) && fs.dinodes == old(fs.dinodes) && fs.disk == old(fs.disk)
              && fs.owner == old(fs.owner)
    ensures r.Some? && r != Some(-1) ==>
              && r == Some(0) && Sane(fs.inodes, fs.disk, fs.dinodes)
              && var dp, g := old(ic.entries[d].inum), GraphOf(old(fs.inodes), old(fs.disk));
                 && dp < |g.dirs| && n in g.dirs[dp] && g.dirs[dp][n] == inum
                 && UnlinkedBy(old(fs.inodes), old(fs.disk), fs.inodes, fs.disk, fs.owner, dp, n, Refs(e0, inum))
  {
    hide Owned, Refs, Tree, Good, GraphOf, UnlinkedBy, Content, DirMap, IsDir, Unique, OneMore, SameRefs, CanUnlink,
      Anchored, AllDotsFirst, Sane, Regular, TwoMore, InCache, NoEntry, FewMore, Covers;
    FewOne(fs.g, fs.logged, 0);
    FewGrow(fs.g, fs.logged, fs.logged, 0, 8);
    var dp := ic.entries[d].inum;
    LookedUp(fs.inodes, fs.disk, fs.dinodes, dp, n);
    FoundFacts(fs.inodes, fs.disk, dp, n, inum, off);
    ghost var e1 := ic.entries;
    InCacheMore(e0, e1, dp);
    var next := GetLocked(fs, ic, inum);
    if next.None? || fs.inodes[inum].nlink < 1 {
      return None;
    }
    var k := next.value;
    AndOneMore(e0, e1, ic.entries, dp, inum);
    if fs.inodes[inum].kind == T_DIR {
      DirFacts(fs.inodes, fs.disk, fs.dinodes, inum);
      var empty := Isdirempty(fs, inum);
      if !empty {
        ghost var c := Content(fs.inodes, fs.disk, inum);
        ghost var l: nat :| 2 <= l < Count(c) && Live(c, l);
        NotOnlyDots(c, l);
        PutTwo(fs, ic, d, k, e0, e1);
        return Some(-1);
      }
      OnlyDots(Content(fs.inodes, fs.disk, inum));
    }
    r := Drop(fs, ic, d, k, off, n, e0);
  }

  /** iget() and ilock(); none stands for their panics. */
  method GetLocked(fs: FileSys, ic: ICache, inum: nat) returns (r: Option<nat>)
    requires LiveCache(fs.inodes, ic.entries) && inum < |fs.inodes|
    modifies ic
    ensures r.None? <==> NoEntry(InCache(old(ic.entries)), inum) || fs.inodes[inum].kind == 0
    ensures r.Some? ==>
              && r.value < NINODE && LiveCache(fs.inodes, ic.entries) && Pinned(old(ic.entries), ic.entries)
              && OneMore(old(ic.entries), ic.entries, inum)
              && ic.entries[r.value].ref > 0 && ic.entries[r.value].inum == inum && ic.entries[r.value].valid
  {
    hide Refs, InCache, NoEntry;
    r := ic.Iget(inum);
    if r.Some? {
      var ok := ic.Ilock(fs, r.value);
      if !ok {
        return None;
      }
    }
  }

  lemma FoundFacts(inodes: seq<Inode>, disk: seq<Block>, dp: nat, n: Name, inum: nat, off: nat)
    requires dp < |inodes| && inodes[dp].size <= MAXBYTES && Finds(Content(inodes, disk, dp), n, Some((inum, off)))
    ensures var c := Content(inodes, disk, dp);
            off % DESIZE == 0 && off < inodes[dp].size && off / DESIZE < Count(c) && Named(c, off / DESIZE, n)
  {
    hide Canon;
  }

  lemma AndOneMore(e0: seq<Cached>, e1: seq<Cached>, e2: seq<Cached>, x: nat, y: nat)
    requires OneMore(e0, e1, x) && OneMore(e1, e2, y)
    ensures TwoMore(e0, e2, x, y) && OneMoreAt(e1, e2, y)
  {
    forall z ensures Refs(e2, z) == Refs(e0, z) + (if z == x then 1 else 0) + if z == y then 1 else 0 {
      assert Refs(e1, z) == Refs(e0, z) + if z == x then 1 else 0;
      assert Refs(e2, z) == Refs(e1, z) + if z == y then 1 else 0;
    }
  }

  /** iunlockput() of the inode and of the directory. */
  method PutTwo(fs: FileSys, ic: ICache, d: nat, k: nat, ghost e0: seq<Cached>, ghost e1: seq<Cached>)
    requires && fs.Valid() && LiveCache(fs.inodes, ic.entries) && OneEntry(e0) && OneEntry(e1) && Pinned(e0, e1)
             && Pinned(e1, ic.entries)
    requires && d < NINODE && k < NINODE && e1[d].ref > 0 && ic.entries[k].ref > 0
             && fs.inodes[ic.entries[k].inum].kind != 0
    requires e1[d].inum < |fs.inodes| && fs.inodes[e1[d].inum].kind != 0
    requires Anchored(fs.inodes, e0) && OneMore(e0, e1, e1[d].inum) && OneMore(e1, ic.entries, ic.entries[k].inum)
    modifies ic, fs`disk, fs`inodes, fs`dinodes, fs`owner, fs`logged
    ensures LiveCache(fs.inodes, ic.entries) && Pinned(e0, ic.entries) && SameRefs(e0, ic.entries)
    ensures && fs.inodes == old(fs.inodes) && fs.disk == old(fs.disk) && fs.dinodes == old(fs.dinodes)
            && fs.owner == old(fs.owner)
    ensures fs.logged == old(fs.logged) && fs.Valid()
  {
    hide Owned, Refs;
    ghost var e2, i := ic.entries, ic.entries[k].inum;
    StillAnchored(fs.inodes, e0, e1, e1[d].inum);
    PutBack(fs, ic, k, e1);
    BackToBefore(e1, e2, ic.entries, i);
    Finish(fs, ic, d, e0, e1);
  }

  /** sys_unlink(): none stands for a panic.  dp and n are the directory and the name that the path leads to. */
  method SysUnlink(fs: FileSys, ic: ICache, path: seq<byte>, cwd: nat, buf: seq<byte>)
    returns (r: Option<int>, ghost dp: nat, ghost n: Name)
    requires fs.Valid() && Ready(fs.inodes, fs.disk, fs.dinodes, ic.entries, cwd) && IsString(path) && |buf| == DIRSIZ
    requires Good(GraphOf(fs.inodes, fs.disk))
    modifies ic, fs`disk, fs`inodes, fs`dinodes, fs`owner, fs`logged, fs`disk0, fs`dinodes0
    ensures r.Some? ==>
              && fs.Valid() && Ready(fs.inodes, fs.disk, fs.dinodes, ic.entries, cwd)
              && SameRefs(old(ic.entries), ic.entries)
              && Pinned(old(ic.entries), ic.entries)
              && Good(GraphOf(fs.inodes, fs.disk))
    ensures r.None? <==>
              UnlinkStuck(old(fs.inodes), old(fs.disk), InCache(old(ic.entries)), old(ic.entries[cwd].inum), path)
    ensures fs.disk0 == old(fs.disk) && fs.dinodes0 == old(fs.dinodes)
    ensures r.Some? && fs.g.size < BPB ==> |fs.logged| <= 8
    ensures r.Some? ==> Room(fs.g, fs.owner) >= Room(fs.g, old(fs.owner))
    ensures r.Some? ==>
              (r == Some(-1) <==>
                 UnlinkRefused(old(fs.inodes), old(fs.disk), Start(old(ic.entries), cwd, path), Elements(path)))
    ensures r == Some(-1) ==>
              && fs.inodes == old(fs.inodes) && fs.dinodes == old(fs.dinodes) && fs.disk == old(fs.disk)
              && fs.owner == old(fs.owner)
    ensures r.Some? && r != Some(-1) ==>
              && r == Some(0)
              && Leads(old(fs.inodes), old(fs.disk), Start(old(ic.entries), cwd, path), Elements(path), true, dp)
              && Elements(path) != [] && n == Canon(Elements(path)[|Elements(path)| - 1])
              && var g := GraphOf(old(fs.inodes), old(fs.disk));
                 && dp < |g.dirs| && n in g.dirs[dp]
                 && UnlinkedBy(old(fs.inodes), old(fs.disk), fs.inodes, fs.disk, fs.owner, dp, n,
                               Refs(old(ic.entries), g.dirs[dp][n]))
  {
    hide Owned, Tree, Refs, Target, Elements, Canon, GraphOf, Good, Ready, Anchored, UnlinkedBy, Pinned,
      Unremovable, InCache, Sane, NamexPanics, NoEntryFor, Regular, FewMore, Covers;
    dp, n := 0, [];
    fs.BeginOp();
    ghost var e0 := ic.entries;
    ReadyFacts(fs.inodes, fs.disk, fs.dinodes, ic.entries, cwd);
    var out, name := Namex(fs, ic, path, cwd, true, buf);
    if out.Panic? {
      return None, dp, n;
    }
    if out.Nothing? {
      ReadyAgain(old(fs.inodes), fs.disk, fs.dinodes, e0, cwd, fs.inodes, fs.disk, fs.dinodes, ic.entries);
      return Some(-1), dp, n;
    }
    ParentIsDir(fs.inodes, fs.disk, Start(e0, cwd, path), Elements(path));
    dp, n := ic.entries[out.slot].inum, Canon(name);
    ghost var e1 := ic.entries;
    var ok := ic.Ilock(fs, out.slot);
    if !ok {
      return None, dp, n;
    }
    LockedMore(e0, e1, ic.entries, dp);
    LockedPinned(e0, e1, ic.entries, out.slot);
    SameUnremovable(fs.inodes, fs.disk, dp, name, Elements(path)[|Elements(path)| - 1]);
    SameEntryFor(fs.inodes, fs.disk, InCache(e0), dp, name, Elements(path)[|Elements(path)| - 1]);
    r := UnlinkIn(fs, ic, out.slot, name, e0);
    if r.Some? {
      FewOfNone(fs.g, fs.logged, 8);
    }
    if r == Some(-1) {
      ReadyAgain(old(fs.inodes), fs.disk, fs.dinodes, e0, cwd, fs.inodes, fs.disk, fs.dinodes, ic.entries);
    } else if r.Some? {
      NowRemovable(old(fs.inodes), old(fs.disk), fs.inodes, fs.disk, fs.owner, dp, name,
                   Refs(e0, GraphOf(old(fs.inodes), old(fs.disk)).dirs[dp][n]));
      ReadyUnlinked(old(fs.inodes), old(fs.disk), old(fs.dinodes), e0, cwd, fs.inodes, fs.disk, fs.dinodes, fs.owner,
                    ic.entries, dp, n);
    }
  }

  lemma SameEntryFor(inodes: seq<Inode>, disk: seq<Block>, used: set<nat>, dp: nat, name: seq<byte>, name': seq<byte>)
    requires Tree(inodes, disk) && dp < |inodes| && Canon(name) == Canon(name')
    ensures NoEntryFor(inodes, disk, used, dp, name) <==> NoEntryFor(inodes, disk, used, dp, name')
  {
    hide Tree, Canon, Child;
    SameChild(inodes, disk, dp, name, name');
  }

  lemma NowRemovable(inodes: seq<Inode>, disk: seq<Block>, inodes': seq<Inode>, disk': seq<Block>,
                     owner': map<nat, Slot>, dp: nat, name: seq<byte>, refs: nat)
    requires Tree(inodes, disk) && Sized(inodes) && dp < |inodes| && inodes[dp].kind == T_DIR
    requires UnlinkedBy(inodes, disk, inodes', disk', owner', dp, Canon(name), refs)
    ensures !Unremovable(inodes, disk, dp, name)
  {
    hide Tree, Canon, Good, Unremovable, KeptBut;
    Removable(inodes, disk, dp, name);
  }

  lemma LockedPinned(e0: seq<Cached>, e1: seq<Cached>, e2: seq<Cached>, k: nat)
    requires Pinned(e0, e1) && k < |e1| && e2 == e1[k := e1[k].(valid := true)]
    ensures Pinned(e0, e2)
  {
  }

  /** After an unlink the next call can start. */
  lemma ReadyUnlinked(inodes: seq<Inode>, disk: seq<Block>, dinodes: seq<Inode>, e: seq<Cached>, cwd: nat,
                      inodes': seq<Inode>, disk': seq<Block>, dinodes': seq<Inode>, owner': map<nat, Slot>,
                      e': seq<Cached>, dp: nat, n: Name)
    requires && Ready(inodes, disk, dinodes, e, cwd) && Good(GraphOf(inodes, disk)) && Sane(inodes', disk', dinodes')
             && LiveCache(inodes', e')
    requires Anchored(inodes', e) && SameRefs(e, e') && Pinned(e, e') && |inodes'| == |inodes|
    requires dp < |GraphOf(inodes, disk).dirs| && n in GraphOf(inodes, disk).dirs[dp]
    requires UnlinkedBy(inodes, disk, inodes', disk', owner', dp, n, Refs(e, GraphOf(inodes, disk).dirs[dp][n]))
    ensures Ready(inodes', disk', dinodes', e', cwd) && Good(GraphOf(inodes', disk'))
  {
    hide Tree, Refs, AllDotsFirst, IsEmpty, Good, DirsOf;
    StillAnchored(inodes', e, e', 0);
    var g, g' := GraphOf(inodes, disk), GraphOf(inodes', disk');
    GoodShape(g);
    GoodShape(g');
    assert g'.isdir[ROOTINO] == (inodes'[ROOTINO].kind == T_DIR);
    forall j | 0 <= j < |inodes'| ensures inodes'[j].nlink >= 0 {
      GoodCount(g', j);
      assert g'.nl[j] == inodes'[j].nlink;
    }
    RefsAt(e, cwd);
  }
}
