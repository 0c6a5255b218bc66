/**
  link(), unlink() and create() (sysfile.c) on the file system: one call at a time, each keeps the link counts equal
  to the entries that name an inode, and a failed call puts everything back.
 */
module Links {
  import opened Common
  import opened Blocks
  import opened FreeMap
  import opened Ownership
  import opened Inodes
  import opened FileContents
  import opened Directory
  import opened Paths
  import opened LinkCounts

  // --------------------------------------------------------------- the graph of the file system

  ghost function DirOf(inodes: seq<Inode>, disk: seq<Block>, d: nat): (m: map<Name, nat>)
    requires d < |inodes| && inodes[d].size <= MAXBYTES
  {
    if inodes[d].kind == T_DIR then DirMap(Content(inodes, disk, d)) else map[]
  }

  ghost function DirsOf(inodes: seq<Inode>, disk: seq<Block>): (r: seq<map<Name, nat>>)
    requires Sized(inodes)
    ensures |r| == |inodes| && forall d :: 0 <= d < |inodes| ==> r[d] == DirOf(inodes, disk, d)
  {
    seq(|inodes|, d requires 0 <= d < |inodes| => DirOf(inodes, disk, d))
  }

  ghost function KindsOf(inodes: seq<Inode>): (r: seq<bool>) {
    seq(|inodes|, d requires 0 <= d < |inodes| => inodes[d].kind == T_DIR)
  }

  ghost function LinksOf(inodes: seq<Inode>): (r: seq<int>) {
    seq(|inodes|, d requires 0 <= d < |inodes| => inodes[d].nlink)
  }

  ghost function GraphOf(inodes: seq<Inode>, disk: seq<Block>): (g: Graph)
    requires Sized(inodes)
  {
    Graph(KindsOf(inodes), LinksOf(inodes), DirsOf(inodes, disk))
  }

  /** "." and ".." are the first two entries of directory d. */
  ghost predicate DotsFirst(inodes: seq<Inode>, disk: seq<Block>, d: nat)
    requires d < |inodes| && inodes[d].size <= MAXBYTES
  {
    var c := Content(inodes, disk, d);
    2 <= Count(c) && Named(c, 0, DOT) && Named(c, 1, DOTDOT)
  }

  ghost predicate AllDotsFirst(inodes: seq<Inode>, disk: seq<Block>)
    requires Sized(inodes)
  {
    forall d :: 0 <= d < |inodes| && inodes[d].kind == T_DIR ==> DotsFirst(inodes, disk, d)
  }

  ghost predicate IsEmpty(x: Inode) {
    x.nlink == 0 && x.size == 0 && x.addrs == NOBLOCK
  }

  /** A free inode is empty. */
  ghost predicate FreeEmpty(inodes: seq<Inode>) {
    forall i :: 0 <= i < |inodes| && inodes[i].kind == 0 ==> IsEmpty(inodes[i])
  }

  /** What holds between calls, link counts aside. */
  ghost predicate Sane(inodes: seq<Inode>, disk: seq<Block>, dinodes: seq<Inode>) {
    && Tree(inodes, disk) && AllDotsFirst(inodes, disk) && FreeEmpty(inodes) && dinodes == inodes
    && ROOTINO < |inodes| <= 0x1_0000 && inodes[0].kind == 0
  }

  // --------------------------------------------------------------- changing link counts

  ghost predicate SameButNlink(a: Inode, b: Inode) {
    a.kind == b.kind && a.major == b.major && a.minor == b.minor && a.size == b.size && a.addrs == b.addrs
  }

  ghost predicate OnlyNlink(inodes: seq<Inode>, inodes': seq<Inode>) {
    |inodes'| == |inodes| && forall j :: 0 <= j < |inodes| ==> SameButNlink(inodes[j], inodes'[j])
  }

  lemma NlinkContent(inodes: seq<Inode>, inodes': seq<Inode>, disk: seq<Block>, j: nat)
    requires OnlyNlink(inodes, inodes') && j < |inodes| && inodes[j].size <= MAXBYTES
    ensures && Content(inodes', disk, j) == Content(inodes, disk, j)
            && (HoleFree(inodes', disk, j) <==> HoleFree(inodes, disk, j))
  {
    hide ByteAt;
    forall bn | 0 <= bn < MAXFILE ensures At(inodes', disk, DataSlot(j, bn)) == At(inodes, disk, DataSlot(j, bn)) {
    }
    forall p | 0 <= p < inodes[j].size ensures ByteAt(inodes', disk, j, p) == ByteAt(inodes, disk, j, p) {
      ResizedByte(inodes, disk, inodes', j, p);
    }
  }

  lemma NlinkTree(inodes: seq<Inode>, inodes': seq<Inode>, disk: seq<Block>)
    requires OnlyNlink(inodes, inodes') && Tree(inodes, disk)
    ensures Tree(inodes', disk) && GraphOf(inodes', disk) == GraphOf(inodes, disk).(nl := LinksOf(inodes'))
    ensures AllDotsFirst(inodes, disk) ==> AllDotsFirst(inodes', disk)
    ensures forall d, name :: 0 <= d < |inodes| ==> Child(inodes', disk, d, name) == Child(inodes, disk, d, name)
  {
    hide Content, HoleFree, Unique, DirMap, Whole;
    assert Sized(inodes');
    forall d | 0 <= d < |inodes| ensures Content(inodes', disk, d) == Content(inodes, disk, d) {
      NlinkContent(inodes, inodes', disk, d);
    }
    forall d | 0 <= d < |inodes| && inodes'[d].kind == T_DIR ensures DirOk(inodes', disk, d) {
      NlinkContent(inodes, inodes', disk, d);
      assert DirOk(inodes, disk, d);
    }
  }

  /** Looking a path up does not depend on link counts. */
  lemma {:induction false} NlinkWalk(inodes: seq<Inode>, inodes': seq<Inode>, disk: seq<Block>, d: nat,
                                     es: seq<seq<byte>>)
    requires OnlyNlink(inodes, inodes') && Tree(inodes, disk) && Tree(inodes', disk) && d < |inodes|
    requires forall d, name :: 0 <= d < |inodes| ==> Child(inodes', disk, d, name) == Child(inodes, disk, d, name)
    ensures Walk(inodes', disk, d, es) == Walk(inodes, disk, d, es)
    decreases |es|
  {
    hide Tree, Child;
    if es != [] && Child(inodes, disk, d, es[0]).Some? {
      NlinkWalk(inodes, inodes', disk, Child(inodes, disk, d, es[0]).value, es[1..]);
    }
  }

  lemma NlinkTarget(inodes: seq<Inode>, inodes': seq<Inode>, disk: seq<Block>, d: nat, es: seq<seq<byte>>, parent: bool)
    requires OnlyNlink(inodes, inodes') && Tree(inodes, disk) && d < |inodes|
    ensures Tree(inodes', disk) && Target(inodes', disk, d, es, parent) == Target(inodes, disk, d, es, parent)
  {
    hide Tree, Child, Walk;
    NlinkTree(inodes, inodes', disk);
    NlinkWalk(inodes, inodes', disk, d, es);
    if es != [] {
      NlinkWalk(inodes, inodes', disk, d, es[..|es| - 1]);
    }
  }

  lemma {:induction false} NlinkPanics(inodes: seq<Inode>, inodes': seq<Inode>, disk: seq<Block>, used: set<nat>,
                                       d: nat, es: seq<seq<byte>>, parent: bool)
    requires OnlyNlink(inodes, inodes') && Tree(inodes, disk) && Tree(inodes', disk) && d < |inodes|
    requires forall d, name :: 0 <= d < |inodes| ==> Child(inodes', disk, d, name) == Child(inodes, disk, d, name)
    ensures WalkPanics(inodes', disk, used, d, es, parent) <==> WalkPanics(inodes, disk, used, d, es, parent)
    decreases |es|
  {
    hide Tree, Child, NoEntry;
    if es != [] && Child(inodes, disk, d, es[0]).Some? {
      NlinkPanics(inodes, inodes', disk, used, Child(inodes, disk, d, es[0]).value, es[1..], parent);
    }
  }

  // --------------------------------------------------------------- what a call leaves alone

  /** Inode j keeps its fields, but for the link count, and its contents. */
  ghost predicate KeptAt(inodes: seq<Inode>, disk: seq<Block>, inodes': seq<Inode>, disk': seq<Block>, j: nat)
    requires j < |inodes| == |inodes'|
  {
    && SameButNlink(inodes[j], inodes'[j])
    && (inodes[j].size <= MAXBYTES ==> Content(inodes', disk', j) == Content(inodes, disk, j))
  }

  ghost predicate SameDevice(a: Inode, b: Inode) {
    a.major == b.major && a.minor == b.minor
  }

  /** All inodes outside changed keep their device numbers. */
  ghost predicate SameDevices(inodes: seq<Inode>, inodes': seq<Inode>, changed: set<nat>) {
    && |inodes'| == |inodes|
    && forall j :: 0 <= j < |inodes| && j !in changed ==> SameDevice(inodes[j], inodes'[j])
  }

  lemma DevicesTwice(inodes: seq<Inode>, inodes1: seq<Inode>, inodes2: seq<Inode>, changed: set<nat>)
    requires SameDevices(inodes, inodes1, changed) && SameDevices(inodes1, inodes2, {})
    ensures SameDevices(inodes, inodes2, changed)
  {
    forall j | 0 <= j < |inodes| && j !in changed ensures SameDevice(inodes[j], inodes2[j]) {
      assert SameDevice(inodes[j], inodes1[j]) && SameDevice(inodes1[j], inodes2[j]);
    }
  }

  /** So do all inodes outside changed. */
  ghost predicate KeptBut(inodes: seq<Inode>, disk: seq<Block>, inodes': seq<Inode>, disk': seq<Block>,
                          changed: set<nat>) {
    |inodes'| == |inodes| && forall j :: 0 <= j < |inodes| && j !in changed ==> KeptAt(inodes, disk, inodes', disk', j)
  }

  lemma KeptTwice(inodes: seq<Inode>, disk: seq<Block>, inodes1: seq<Inode>, disk1: seq<Block>, inodes2: seq<Inode>,
                  disk2: seq<Block>, changed: set<nat>, changed': set<nat>)
    requires KeptBut(inodes, disk, inodes1, disk1, changed) && KeptBut(inodes1, disk1, inodes2, disk2, changed')
    ensures KeptBut(inodes, disk, inodes2, disk2, changed + changed')
  {
    hide Content;
    forall j | 0 <= j < |inodes| && j !in changed + changed' ensures KeptAt(inodes, disk, inodes2, disk2, j) {
      assert KeptAt(inodes, disk, inodes1, disk1, j) && KeptAt(inodes1, disk1, inodes2, disk2, j);
    }
  }

  lemma KeptByNlink(inodes: seq<Inode>, inodes': seq<Inode>, disk: seq<Block>)
    requires OnlyNlink(inodes, inodes')
    ensures KeptBut(inodes, disk, inodes', disk, {})
  {
    hide Content, HoleFree;
    forall j | 0 <= j < |inodes| ensures KeptAt(inodes, disk, inodes', disk, j) {
      if inodes[j].size <= MAXBYTES {
        NlinkContent(inodes, inodes', disk, j);
      }
    }
  }

  lemma KeptByDir(inodes: seq<Inode>, disk: seq<Block>, dinodes: seq<Inode>, inodes': seq<Inode>, disk': seq<Block>,
                  dinodes': seq<Inode>, dp: nat)
    requires dp < |inodes| && Sized(inodes) && OnlyDir(inodes, disk, dinodes, inodes', disk', dinodes', dp)
    ensures KeptBut(inodes, disk, inodes', disk', {dp})
  {
    hide Content, HoleFree;
  }

  // --------------------------------------------------------------- when a call fails

  /** The path with elements es leads from start to inode i, or to directory i of its last element. */
  ghost predicate Leads(inodes: seq<Inode>, disk: seq<Block>, start: nat, es: seq<seq<byte>>, parent: bool, i: nat) {
    Tree(inodes, disk) && start < |inodes| && Target(inodes, disk, start, es, parent) == Some(i)
  }

  /** There is no directory for the last element of the path, or it has the name already. */
  ghost predicate NoPlace(inodes: seq<Inode>, disk: seq<Block>, start: nat, es: seq<seq<byte>>)
    requires Tree(inodes, disk) && start < |inodes|
  {
    var d := Target(inodes, disk, start, es, true);
    d.None? || es == [] || Child(inodes, disk, d.value, es[|es| - 1]).Some?
  }

  /** When link() returns -1: there is no such file, it is a directory, or there is no place for the name. */
  ghost predicate LinkRefused(inodes: seq<Inode>, disk: seq<Block>, from: nat, es: seq<seq<byte>>, to: nat,
                              es': seq<seq<byte>>) {
    && Tree(inodes, disk) && from < |inodes| && to < |inodes|
    && var i := Target(inodes, disk, from, es, false);
       i.None? || inodes[i.value].kind == T_DIR || NoPlace(inodes, disk, to, es')
  }

  /** A new name for the path's last element panics: on the way to its directory, or for want of an entry there. */
  ghost predicate PlaceStuck(inodes: seq<Inode>, disk: seq<Block>, used: set<nat>, cwd: nat, path: seq<byte>,
                             room: int) {
    && Tree(inodes, disk) && From(cwd, path) < |inodes|
    && (|| NamexPanics(inodes, disk, used, cwd, path, true)
        || (!NoPlace(inodes, disk, From(cwd, path), Elements(path))
            && Crowded(inodes, disk, Target(inodes, disk, From(cwd, path), Elements(path), true).value, room)))
  }

  /** When link() panics: on the way to the file, on a name of a freed inode, or in making the new name while it holds
      the file. */
  ghost predicate LinkStuck(inodes: seq<Inode>, disk: seq<Block>, used: set<nat>, cwd: nat, oldPath: seq<byte>,
                            newPath: seq<byte>, room: int) {
    && Tree(inodes, disk) && From(cwd, oldPath) < |inodes|
    && (|| NamexPanics(inodes, disk, used, cwd, oldPath, false)
        || (var i := Target(inodes, disk, From(cwd, oldPath), Elements(oldPath), false);
            && i.Some?
            && (|| inodes[i.value].kind == 0
                || (inodes[i.value].kind != T_DIR && PlaceStuck(inodes, disk, used + {i.value}, cwd, newPath, room)))))
  }

  /** The outcomes of link(), by where the old path leads. */
  lemma LinkCases(inodes: seq<Inode>, disk: seq<Block>, used: set<nat>, cwd: nat, oldPath: seq<byte>,
                  newPath: seq<byte>, room: int)
    requires Tree(inodes, disk) && From(cwd, oldPath) < |inodes| && From(cwd, newPath) < |inodes|
    ensures var stuck, refused := LinkStuck(inodes, disk, used, cwd, oldPath, newPath, room),
                                  LinkRefused(inodes, disk, From(cwd, oldPath), Elements(oldPath), From(cwd, newPath),
                                              Elements(newPath));
            var i := Target(inodes, disk, From(cwd, oldPath), Elements(oldPath), false);
            && (NamexPanics(inodes, disk, used, cwd, oldPath, false) ==> stuck)
            && (i.None? ==> refused && (stuck ==> NamexPanics(inodes, disk, used, cwd, oldPath, false)))
            && (i.Some? ==> i.value < |inodes|)
            && (i.Some? && !NamexPanics(inodes, disk, used, cwd, oldPath, false) ==>
                  && (stuck <==>
                        || inodes[i.value].kind == 0
                        || (&& inodes[i.value].kind != T_DIR
                            && PlaceStuck(inodes, disk, used + {i.value}, cwd, newPath, room)))
                  && (refused <==>
                        inodes[i.value].kind == T_DIR || NoPlace(inodes, disk, From(cwd, newPath), Elements(newPath))))
  {
    hide Tree, Elements, NamexPanics, PlaceStuck, NoPlace;
  }

  lemma NlinkCrowded(inodes: seq<Inode>, inodes': seq<Inode>, disk: seq<Block>, dp: nat, room: int)
    requires OnlyNlink(inodes, inodes') && dp < |inodes| && inodes[dp].size <= MAXBYTES
    ensures Crowded(inodes', disk, dp, room) <==> Crowded(inodes, disk, dp, room)
  {
    hide Content, AllLive, HoleFree;
    NlinkContent(inodes, inodes', disk, dp);
    assert SameButNlink(inodes[dp], inodes'[dp]);
  }

  lemma NlinkPlaceStuck(inodes: seq<Inode>, inodes': seq<Inode>, disk: seq<Block>, used: set<nat>, cwd: nat,
                        path: seq<byte>, room: int)
    requires OnlyNlink(inodes, inodes') && Tree(inodes, disk) && Tree(inodes', disk)
    ensures PlaceStuck(inodes', disk, used, cwd, path, room) <==> PlaceStuck(inodes, disk, used, cwd, path, room)
  {
    hide Tree, Child, Target, WalkPanics, Crowded, Elements, NoEntry;
    var d, es := From(cwd, path), Elements(path);
    if d < |inodes| {
      NlinkTree(inodes, inodes', disk);
      NlinkPanics(inodes, inodes', disk, used, d, es, true);
      NlinkNoPlace(inodes, inodes', disk, d, es);
      NlinkTarget(inodes, inodes', disk, d, es, true);
      ParentIsDir(inodes, disk, d, es);
      if !NoPlace(inodes, disk, d, es) {
        TreeDir(inodes, disk, Target(inodes, disk, d, es, true).value);
        NlinkCrowded(inodes, inodes', disk, Target(inodes, disk, d, es, true).value, room);
      }
    }
  }

  lemma TreeDir(inodes: seq<Inode>, disk: seq<Block>, d: nat)
    requires Tree(inodes, disk) && d < |inodes|
    ensures inodes[d].size <= MAXBYTES
  {
  }

  // --------------------------------------------------------------- how much a call logs

  /** At most k blocks are newly logged, if one map block covers the disk. */
  ghost predicate FewMore(g: Geometry, was: set<nat>, now: set<nat>, k: nat) {
    g.size < BPB ==> |now - was| <= k
  }

  lemma FewTwice(g: Geometry, was: set<nat>, mid: set<nat>, now: set<nat>, k: nat, m: nat)
    requires FewMore(g, was, mid, k) && FewMore(g, mid, now, m)
    ensures FewMore(g, was, now, k + m)
  {
    SubsetSize(now - was, (mid - was) + (now - mid));
    UnionSize(mid - was, now - mid);
  }

  lemma FewGrow(g: Geometry, was: set<nat>, now: set<nat>, k: nat, m: nat)
    requires FewMore(g, was, now, k) && k <= m
    ensures FewMore(g, was, now, m)
  {
  }

  lemma FewOfNone(g: Geometry, now: set<nat>, k: nat)
    requires FewMore(g, {}, now, k)
    ensures g.size < BPB ==> |now| <= k
  {
    assert now - {} == now;
  }

  lemma FewOne(g: Geometry, was: set<nat>, b: nat)
    ensures FewMore(g, was, was + {b}, 1) && FewMore(g, was, was, 0)
  {
    SubsetSize(was + {b} - was, {b});
    assert was - was == {};
  }

  /** A change of an entry logs four blocks: those of the inode, the map, the indirect block and the entry. */
  lemma EntryFew(g: Geometry, inodes: seq<Inode>, disk: seq<Block>, dp: nat, bn: nat, was: set<nat>, now: set<nat>)
    requires EntryLogs(g, inodes, disk, dp, bn, was, now)
    ensures FewMore(g, was, now, 4)
  {
    if g.size < BPB {
      var three, one := {InodeBlock(g, dp), g.bmapstart,
                         inodes[dp].addrs[NDIRECT]}, {At(inodes, disk, DataSlot(dp, bn))};
      forall c | c in now - was ensures c in three + one {
        OneMapBlock(g, c);
      }
      ThreeAtMost(InodeBlock(g, dp), g.bmapstart, inodes[dp].addrs[NDIRECT]);
      UnionSize(three, one);
      SubsetSize(now - was, three + one);
    }
  }

  lemma OneMapBlock(g: Geometry, c: nat)
    requires g.size < BPB
    ensures MapBlock(g, c) <==> c == g.bmapstart
  {
    assert g.size / BPB == 0;
  }

  lemma NlinkNoPlace(inodes: seq<Inode>, inodes': seq<Inode>, disk: seq<Block>, start: nat, es: seq<seq<byte>>)
    requires OnlyNlink(inodes, inodes') && Tree(inodes, disk) && Tree(inodes', disk) && start < |inodes|
    ensures NoPlace(inodes', disk, start, es) <==> NoPlace(inodes, disk, start, es)
  {
    hide Tree, Child, Target;
    NlinkTree(inodes, inodes', disk);
    NlinkTarget(inodes, inodes', disk, start, es, true);
    ParentIsDir(inodes, disk, start, es);
    var d := Target(inodes, disk, start, es, true);
    if d.Some? && es != [] {
      assert Child(inodes', disk, d.value, es[|es| - 1]) == Child(inodes, disk, d.value, es[|es| - 1]);
    }
  }

  /** The name under which a directory is looked up is cut like the one it is looked up in. */
  lemma ChildIs(inodes: seq<Inode>, disk: seq<Block>, dp: nat, name: seq<byte>)
    requires Tree(inodes, disk) && dp < |inodes| && inodes[dp].kind == T_DIR
    ensures inodes[dp].size <= MAXBYTES
    ensures Child(inodes, disk, dp, name).Some? <==> Canon(name) in DirMap(Content(inodes, disk, dp))
    ensures Child(inodes, disk, dp, name).Some? ==>
              Child(inodes, disk, dp, name).value == DirMap(Content(inodes, disk, dp))[Canon(name)]
  {
    hide Canon;
  }

  // --------------------------------------------------------------- changing a directory

  lemma DirStep(inodes: seq<Inode>, disk: seq<Block>, dinodes: seq<Inode>, inodes': seq<Inode>, disk': seq<Block>,
                dinodes': seq<Inode>, dp: nat)
    requires dp < |inodes| && Tree(inodes, disk) && inodes[dp].kind == T_DIR && Sized(inodes')
    requires OnlyDir(inodes, disk, dinodes, inodes', disk', dinodes', dp)
    requires IsDir(inodes', disk', dp) && Unique(Content(inodes', disk', dp))
    requires forall n :: n in DirMap(Content(inodes', disk', dp)) ==> DirMap(Content(inodes', disk', dp))[n] < |inodes|
    ensures Tree(inodes', disk')
    ensures GraphOf(inodes', disk') ==
              GraphOf(inodes, disk).(dirs := DirsOf(inodes, disk)[dp := DirMap(Content(inodes', disk', dp))])
    ensures AllDotsFirst(inodes, disk) && DotsFirst(inodes', disk', dp) ==> AllDotsFirst(inodes', disk')
  {
    hide Content, HoleFree, Unique, DirMap, Whole, Named, Count;
    forall d | 0 <= d < |inodes| && d != dp
      ensures inodes'[d] == inodes[d] && Content(inodes', disk', d) == Content(inodes, disk, d)
    {
    }
    forall d | 0 <= d < |inodes'| && inodes'[d].kind == T_DIR ensures DirOk(inodes', disk', d) {
      if d != dp {
        assert DirOk(inodes, disk, d);
      }
    }
  }

  /** A new entry leaves the dots where they are. */
  lemma DotsStay(c: seq<byte>, c': seq<byte>)
    requires 2 <= Count(c) && Named(c, 0, DOT) && Named(c, 1, DOTDOT) && LiveKept(c, c')
    ensures 2 <= Count(c') && Named(c', 0, DOT) && Named(c', 1, DOTDOT)
  {
    hide Canon, Count, Inum, Ent;
    assert Live(c, 0) && Live(c, 1);
    assert Same(c, c', 0) && Same(c, c', 1);
    SameEntry(c, c', 0);
    SameEntry(c, c', 1);
  }

  // --------------------------------------------------------------- link

  /** `ip->nlink += d; iupdate(ip);` */
  method AddLinks(fs: FileSys, i: nat, d: int)
    requires fs.Valid() && i < |fs.inodes|
    modifies fs`inodes, fs`dinodes, fs`logged
    ensures fs.Valid() && fs.inodes == old(fs.inodes)[i := old(fs.inodes[i]).(nlink := old(fs.inodes[i]).nlink + d)]
    ensures fs.dinodes == old(fs.dinodes)[i := fs.inodes[i]] && fs.logged == old(fs.logged) + {InodeBlock(fs.g, i)}
  {
    hide Owned, Covers;
    ghost var before := fs.inodes;
    fs.inodes := fs.inodes[i := fs.inodes[i].(nlink := fs.inodes[i].nlink + d)];
    SizeOnly(fs.g, before, fs.disk, fs.inodes, fs.owner);
    fs.Iupdate(i);
  }

  /** Between calls: the file system is in order, and the caller's directory is a cached, allocated inode. */
  ghost predicate Ready(inodes: seq<Inode>, disk: seq<Block>, dinodes: seq<Inode>, entries: seq<Cached>, cwd: nat) {
    && Sane(inodes, disk, dinodes) && LiveCache(inodes, entries) && Anchored(inodes, entries)
    && inodes[ROOTINO].kind != 0 && (forall j :: 0 <= j < |inodes| ==> inodes[j].nlink >= 0)
    && cwd < NINODE && entries[cwd].ref > 0 && inodes[entries[cwd].inum].kind != 0
  }

  /** Adding a link to an allocated inode keeps everything in order. */
  lemma MoreLinks(inodes: seq<Inode>, disk: seq<Block>, dinodes: seq<Inode>, entries: seq<Cached>, cwd: nat, i: nat,
                  inodes': seq<Inode>)
    requires Ready(inodes, disk, dinodes, entries, cwd) && i < |inodes| && inodes[i].kind != 0
    requires inodes' == inodes[i := inodes[i].(nlink := inodes[i].nlink + 1)]
    ensures OnlyNlink(inodes, inodes') && Ready(inodes', disk, inodes', entries, cwd)
    ensures GraphOf(inodes', disk) == GraphOf(inodes, disk).(nl := GraphOf(inodes, disk).nl[i := inodes[i].nlink + 1])
  {
    hide Tree, AllDotsFirst, Refs, IsEmpty;
    NlinkTree(inodes, inodes', disk);
    assert LinksOf(inodes') == LinksOf(inodes)[i := inodes[i].nlink + 1];
  }

  /** More references keep unlinked inodes anchored. */
  lemma StillAnchored(inodes: seq<Inode>, entries: seq<Cached>, entries': seq<Cached>, x: nat)
    requires Anchored(inodes, entries) && (OneMore(entries, entries', x) || SameRefs(entries, entries'))
    ensures Anchored(inodes, entries')
  {
    hide Refs;
  }

  /** Where a call that starts in the directory of cache entry cwd begins to walk a path. */
  ghost function Start(entries: seq<Cached>, cwd: nat, path: seq<byte>): (d: nat)
    requires cwd < |entries|
  {
    From(entries[cwd].inum, path)
  }

  /** The effect of a link: the directory dp, which did not have the name n, has it for the file i.  The counts are
      right afterwards exactly when dp is itself linked, and all other files are as before. */
  ghost predicate LinkedBy(inodes: seq<Inode>, disk: seq<Block>, inodes': seq<Inode>, disk': seq<Block>, dp: nat,
                           n: Name, i: nat) {
    && Sized(inodes) && Sized(inodes')
    && var g := GraphOf(inodes, disk);
       && CanLink(g, dp, n, i) && GraphOf(inodes', disk') == Linked(g, dp, n, i)
       && KeptBut(inodes, disk, inodes', disk', {dp}) && SameDevices(inodes, inodes', {})
       && (Good(GraphOf(inodes', disk')) <==> g.nl[dp] > 0)
  }

  /** sys_link(): none stands for a panic.  i, dp and n are the inode, the directory and the name that the two paths
      lead to. */
  method SysLink(fs: FileSys, ic: ICache, oldPath: seq<byte>, newPath: seq<byte>, cwd: nat, buf: seq<byte>)
    returns (r: Option<int>, ghost i: nat, ghost dp: nat, ghost n: Name)
    requires && fs.Valid() && Ready(fs.inodes, fs.disk, fs.dinodes, ic.entries, cwd) && IsString(oldPath)
             && IsString(newPath) && |buf| == DIRSIZ
    requires Good(GraphOf(fs.inodes, fs.disk))
    modifies ic, fs`disk, fs`inodes, fs`dinodes, fs`owner, fs`logged, fs`disk0, fs`dinodes0
    ensures r.Some? ==>
              && fs.Valid() && Ready(fs.inodes, fs.disk, fs.dinodes, ic.entries, cwd)
              && SameRefs(old(ic.entries), ic.entries)
    ensures r == Some(-1) ==>
              && fs.inodes == old(fs.inodes) && fs.dinodes == old(fs.dinodes) && fs.disk == old(fs.disk)
              && fs.owner == old(fs.owner)
    ensures r.None? <==>
              LinkStuck(old(fs.inodes), old(fs.disk), InCache(old(ic.entries)), old(ic.entries[cwd].inum), oldPath,
                        newPath, Room(fs.g, old(fs.owner)))
    ensures fs.disk0 == old(fs.disk) && fs.dinodes0 == old(fs.dinodes)
    ensures r.Some? && fs.g.size < BPB ==> |fs.logged| <= 5
    ensures r.Some? ==>
              (r == Some(-1) <==>
                 LinkRefused(old(fs.inodes), old(fs.disk), Start(old(ic.entries), cwd, oldPath), Elements(oldPath),
                             Start(old(ic.entries), cwd, newPath), Elements(newPath)))
    ensures r.Some? && r != Some(-1) ==>
              && r == Some(0)
              && Leads(old(fs.inodes), old(fs.disk), Start(old(ic.entries), cwd, oldPath), Elements(oldPath), false, i)
              && Leads(old(fs.inodes), old(fs.disk), Start(old(ic.entries), cwd, newPath), Elements(newPath), true, dp)
              && Elements(newPath) != [] && n == Canon(Elements(newPath)[|Elements(newPath)| - 1])
              && LinkedBy(old(fs.inodes), old(fs.disk), fs.inodes, fs.disk, dp, n, i)
  {
    hide Owned, Tree, Refs, Target, Elements, Canon, GraphOf, Good, Ready, Anchored, LinkedBy, InCache, NamexPanics,
      PlaceStuck, Covers, NoPlace, OneMore, SameRefs, Sane, FewMore, LinkStuck, LinkRefused, Child;
    i, dp, n := 0, 0, [];
    fs.BeginOp();
    ghost var e0, inodes0 := ic.entries, fs.inodes;
    ReadyFacts(fs.inodes, fs.disk, fs.dinodes, ic.entries, cwd);
    LinkCases(fs.inodes, fs.disk, InCache(e0), e0[cwd].inum, oldPath, newPath, Room(fs.g, fs.owner));
    var out, name := Namex(fs, ic, oldPath, cwd, false, buf);
    if out.Panic? {
      return None, i, dp, n;
    }
    if out.Nothing? {
      ReadyAgain(inodes0, fs.disk, fs.dinodes, e0, cwd, fs.inodes, fs.disk, fs.dinodes, ic.entries);
      return Some(-1), i, dp, n;
    }
    i := ic.entries[out.slot].inum;
    r, dp, n := LinkTo(fs, ic, out.slot, newPath, cwd, buf, e0);
    if r.Some? {
      FewOfNone(fs.g, fs.logged, 5);
      if r == Some(0) {
        NotRefused(inodes0, old(fs.disk), fs.inodes, fs.disk, Start(e0, cwd, oldPath), Elements(oldPath),
                   Start(e0, cwd, newPath), Elements(newPath), i, dp);
        LinkedCounting(inodes0, old(fs.disk), fs.inodes, fs.disk, dp, n, i, old(fs.dinodes), e0, cwd);
      }
      ReadyAgain(inodes0, old(fs.disk), old(fs.dinodes), e0, cwd, fs.inodes, fs.disk, fs.dinodes, ic.entries);
    }
  }

  lemma NotRefused(inodes: seq<Inode>, disk: seq<Block>, inodes': seq<Inode>, disk': seq<Block>, from: nat,
                   es: seq<seq<byte>>, to: nat, es': seq<seq<byte>>, i: nat, dp: nat)
    requires Tree(inodes, disk) && from < |inodes| && to < |inodes| && es' != []
    requires Target(inodes, disk, from, es, false) == Some(i) && Target(inodes, disk, to, es', true) == Some(dp)
    requires LinkedBy(inodes, disk, inodes', disk', dp, Canon(es'[|es'| - 1]), i)
    ensures !LinkRefused(inodes, disk, from, es, to, es')
  {
    hide Tree, Target, Canon, Good, KeptBut, Child, DirMap;
    ParentIsDir(inodes, disk, to, es');
    ChildIs(inodes, disk, dp, es'[|es'| - 1]);
    var g := GraphOf(inodes, disk);
    assert g.dirs[dp] == DirOf(inodes, disk, dp) && g.isdir[i] == (inodes[i].kind == T_DIR);
  }

  lemma LinkedCounting(inodes: seq<Inode>, disk: seq<Block>, inodes': seq<Inode>, disk': seq<Block>, dp: nat,
                       n: Name, i: nat,
                       dinodes: seq<Inode>, e: seq<Cached>, cwd: nat)
    requires LinkedBy(inodes, disk, inodes', disk', dp, n, i) && Ready(inodes, disk, dinodes, e, cwd)
    ensures |inodes'| == |inodes| && forall j :: 0 <= j < |inodes'| ==> inodes'[j].nlink >= 0
  {
    hide Sane, Anchored, Good, DirsOf;
    var g, g' := GraphOf(inodes, disk), GraphOf(inodes', disk');
    assert |g'.nl| == |g.nl|;
    forall j | 0 <= j < |inodes'| ensures inodes'[j].nlink >= 0 {
      assert g'.nl[j] == inodes'[j].nlink && g.nl[j] == inodes[j].nlink;
    }
  }

  lemma ReadyAgain(inodes: seq<Inode>, disk: seq<Block>, dinodes: seq<Inode>, e: seq<Cached>, cwd: nat,
                   inodes': seq<Inode>, disk': seq<Block>, dinodes': seq<Inode>, e': seq<Cached>)
    requires Ready(inodes, disk, dinodes, e, cwd)
    requires (inodes' == inodes && disk' == disk && dinodes' == dinodes) || Sane(inodes', disk', dinodes')
    requires LiveCache(inodes', e') && Anchored(inodes', e) && SameRefs(e, e') && Pinned(e, e')
    requires |inodes'| == |inodes| && (inodes' == inodes || forall j :: 0 <= j < |inodes'| ==> inodes'[j].nlink >= 0)
    requires forall j :: 0 <= j < |inodes'| && j < |inodes| ==> inodes'[j].kind == inodes[j].kind
    ensures Ready(inodes', disk', dinodes', e', cwd)
  {
    hide Tree, Refs, AllDotsFirst, IsEmpty;
    StillAnchored(inodes', e, e', 0);
  }

  lemma ReadyFacts(inodes: seq<Inode>, disk: seq<Block>, dinodes: seq<Inode>, entries: seq<Cached>, cwd: nat)
    requires Ready(inodes, disk, dinodes, entries, cwd)
    ensures && Tree(inodes, disk) && LiveCache(inodes, entries) && Anchored(inodes, entries) && ROOTINO < |inodes|
            && inodes[ROOTINO].kind != 0
    ensures cwd < NINODE && entries[cwd].ref > 0 && inodes[entries[cwd].inum].kind != 0 && Sized(inodes)
    ensures Sane(inodes, disk, dinodes) && inodes[0].kind == 0 && dinodes == inodes
  {
  }

  /** Same kinds of inodes, and none loses its last link. */
  ghost predicate NoLinkLost(inodes: seq<Inode>, inodes': seq<Inode>) {
    && |inodes'| == |inodes|
    && forall j ::
         0 <= j < |inodes| ==> inodes'[j].kind == inodes[j].kind && (inodes'[j].nlink == 0 ==> inodes[j].nlink == 0)
  }

  lemma NoLinkLostKeeps(inodes: seq<Inode>, inodes': seq<Inode>, entries: seq<Cached>)
    requires NoLinkLost(inodes, inodes')
    ensures LiveCache(inodes, entries) ==> LiveCache(inodes', entries)
    ensures Anchored(inodes, entries) ==> Anchored(inodes', entries)
  {
    hide Refs;
  }

  /** What a new entry n for i in directory dp does to the file system. */
  ghost predicate Entered(inodes: seq<Inode>, disk: seq<Block>, inodes': seq<Inode>, disk': seq<Block>,
                          dinodes': seq<Inode>, dp: nat, n: Name, i: nat)
    requires Sized(inodes) && dp < |inodes|
  {
    && Sane(inodes', disk', dinodes') && NoLinkLost(inodes, inodes') && KeptBut(inodes, disk, inodes', disk', {dp})
    && SameDevices(inodes, inodes', {}) && n !in DirOf(inodes, disk, dp)
    && GraphOf(inodes', disk') ==
         GraphOf(inodes, disk).(dirs := DirsOf(inodes, disk)[dp := Put(DirOf(inodes, disk, dp), n, i)])
  }

  lemma EnteredBy(inodes: seq<Inode>, disk: seq<Block>, dinodes: seq<Inode>, inodes': seq<Inode>, disk': seq<Block>,
                  dinodes': seq<Inode>, dp: nat, n: Name, i: nat)
    requires Sane(inodes, disk, dinodes) && dp < |inodes| && inodes[dp].kind == T_DIR && i < |inodes| && Sized(inodes')
    requires OnlyDir(inodes, disk, dinodes, inodes', disk', dinodes', dp)
    requires && IsDir(inodes', disk', dp) && Unique(Content(inodes', disk', dp))
             && LiveKept(Content(inodes, disk, dp), Content(inodes', disk', dp))
    requires && n !in DirMap(Content(inodes, disk, dp))
             && DirMap(Content(inodes', disk', dp)) == DirMap(Content(inodes, disk, dp))[n := i]
    ensures Entered(inodes, disk, inodes', disk', dinodes', dp, n, i)
  {
    hide Content, HoleFree, Unique, DirMap, IsEmpty, Count, Named, Live;
    assert DirOk(inodes, disk, dp) && DotsFirst(inodes, disk, dp);
    DotsStay(Content(inodes, disk, dp), Content(inodes', disk', dp));
    DirStep(inodes, disk, dinodes, inodes', disk', dinodes', dp);
    KeptByDir(inodes, disk, dinodes, inodes', disk', dinodes', dp);
  }

  /** The part of sys_link() from ilock(dp) to iunlockput(dp). */
  method LinkIn(fs: FileSys, ic: ICache, d: nat, name: seq<byte>, i: nat, ghost before: seq<Cached>)
    returns (r: Option<int>)
    requires fs.Valid() && Sane(fs.inodes, fs.disk, fs.dinodes) && LiveCache(fs.inodes, ic.entries) && |name| == DIRSIZ
    requires d < NINODE && ic.entries[d].ref > 0 && fs.inodes[ic.entries[d].inum].kind == T_DIR && 0 < i < |fs.inodes|
    requires && OneEntry(before) && Pinned(before, ic.entries) && Anchored(fs.inodes, before)
             && OneMore(before, ic.entries, ic.entries[d].inum)
    modifies ic, fs`disk, fs`inodes, fs`dinodes, fs`owner, fs`logged
    ensures r.Some? ==> LiveCache(fs.inodes, ic.entries) && Pinned(before, ic.entries) && SameRefs(before, ic.entries)
    ensures var dp := old(ic.entries[d].inum);
            && Tree(old(fs.inodes), old(fs.disk)) && dp < old(|fs.inodes|) && old(fs.inodes)[dp].size <= MAXBYTES
            && (r.None? <==> && Child(old(fs.inodes), old(fs.disk), dp, name).None?
                             && Crowded(old(fs.inodes), old(fs.disk), dp, Room(fs.g, old(fs.owner))))
    ensures r.Some? ==> FewMore(fs.g, old(fs.logged), fs.logged, if r == Some(-1) then 0 else 4)
    ensures r == Some(-1) ==>
              && fs.Valid() && fs.inodes == old(fs.inodes) && fs.dinodes == old(fs.dinodes) && fs.disk == old(fs.disk)
              && fs.owner == old(fs.owner)
    ensures r == Some(-1) ==> Child(fs.inodes, fs.disk, old(ic.entries[d].inum), name).Some?
    ensures r.Some? && r != Some(-1) ==>
              && r == Some(0) && fs.Valid()
              && Entered(old(fs.inodes), old(fs.disk), fs.inodes, fs.disk, fs.dinodes, old(ic.entries[d].inum),
                         Canon(name), i)
  {
    hide Owned, Refs, Canon, Entered, Unique, DirMap, Content, IsDir, OnlyDir, Anchored, OneMore, LiveKept,
      AllDotsFirst, Crowded, EntryNeed, EntryLogs, Covers, FewMore;
    FewOne(fs.g, fs.logged, 0);
    var ok := ic.Ilock(fs, d);
    if !ok {
      return None;
    }
    ghost var mid := ic.entries;
    LockedMore(before, old(ic.entries), mid, mid[d].inum);
    var dp := ic.entries[d].inum;
    assert DirOk(fs.inodes, fs.disk, dp);
    ChildIs(fs.inodes, fs.disk, dp, name);
    var res, bn := Dirlink(fs, dp, name, i);
    if res.None? {
      return None;
    }
    if res == Some(0) {
      EntryFew(fs.g, fs.inodes, fs.disk, dp, bn, old(fs.logged), fs.logged);
      EnteredBy(old(fs.inodes), old(fs.disk), old(fs.dinodes), fs.inodes, fs.disk, fs.dinodes, dp, Canon(name), i);
      EnteredKeeps(old(fs.inodes), old(fs.disk), fs.inodes, fs.disk, fs.dinodes, dp, Canon(name), i, before, mid);
    }
    PutBack(fs, ic, d, before);
    BackToBefore(before, mid, ic.entries, dp);
    return res;
  }

  lemma LockedMore(before: seq<Cached>, entries: seq<Cached>, mid: seq<Cached>, cur: nat)
    requires OneMore(before, entries, cur) && forall x :: Refs(mid, x) == Refs(entries, x)
    ensures OneMore(before, mid, cur) && OneMoreAt(before, mid, cur)
  {
    forall x ensures Refs(mid, x) == Refs(before, x) + if x == cur then 1 else 0 {
      assert Refs(mid, x) == Refs(entries, x);
    }
  }

  lemma EnteredKeeps(inodes: seq<Inode>, disk: seq<Block>, inodes': seq<Inode>, disk': seq<Block>,
                     dinodes': seq<Inode>, dp: nat, n: Name, i: nat,
                     before: seq<Cached>, entries: seq<Cached>)
    requires Sized(inodes) && dp < |inodes| && Entered(inodes, disk, inodes', disk', dinodes', dp, n, i)
    requires Anchored(inodes, before) && LiveCache(inodes, entries)
    ensures && Anchored(inodes', before) && LiveCache(inodes', entries) && |inodes'| == |inodes|
            && inodes'[dp].kind == inodes[dp].kind
  {
    hide Refs, Sane, GraphOf, DirsOf;
    NoLinkLostKeeps(inodes, inodes', before);
    NoLinkLostKeeps(inodes, inodes', entries);
  }

  /** sys_link() from ilock(ip) on, with the inode to link in entry k. */
  method LinkTo(fs: FileSys, ic: ICache, k: nat, newPath: seq<byte>, cwd: nat, buf: seq<byte>, ghost e0: seq<Cached>)
    returns (r: Option<int>, ghost dp: nat, ghost n: Name)
    requires && Sized(fs.inodes) && Tree(fs.inodes, fs.disk) && |e0| == NINODE && cwd < NINODE
             && Start(e0, cwd, newPath) < |fs.inodes|
    requires fs.Valid() && Ready(fs.inodes, fs.disk, fs.dinodes, e0, cwd) && IsString(newPath) && |buf| == DIRSIZ
    requires && LiveCache(fs.inodes, ic.entries) && Pinned(e0, ic.entries) && k < NINODE && ic.entries[k].ref > 0
    requires OneMore(e0, ic.entries, ic.entries[k].inum) && Good(GraphOf(fs.inodes, fs.disk))
    modifies ic, fs`disk, fs`inodes, fs`dinodes, fs`owner, fs`logged
    ensures r.Some? ==>
              && SameRefs(e0, ic.entries) && LiveCache(fs.inodes, ic.entries) && Pinned(e0, ic.entries)
              && Anchored(fs.inodes, e0) && fs.Valid()
    ensures r == Some(-1) ==>
              && fs.inodes == old(fs.inodes) && fs.dinodes == old(fs.dinodes) && fs.disk == old(fs.disk)
              && fs.owner == old(fs.owner)
    ensures r.None? <==> || old(fs.inodes)[old(ic.entries[k].inum)].kind == 0
                         || (&& old(fs.inodes)[old(ic.entries[k].inum)].kind != T_DIR
                             && PlaceStuck(old(fs.inodes), old(fs.disk), InCache(e0) + {old(ic.entries[k].inum)},
                                           e0[cwd].inum, newPath, Room(fs.g, old(fs.owner))))
    ensures r.Some? ==> FewMore(fs.g, old(fs.logged), fs.logged, 5)
    ensures r == Some(-1) ==>
              || old(fs.inodes)[old(ic.entries[k].inum)].kind == T_DIR
              || NoPlace(old(fs.inodes), old(fs.disk), Start(e0, cwd, newPath), Elements(newPath))
    ensures r.Some? && r != Some(-1) ==>
              && r == Some(0) && Sane(fs.inodes, fs.disk, fs.dinodes)
              && (forall j ::
                    0 <= j < |fs.inodes| && j < old(|fs.inodes|) ==> fs.inodes[j].kind == old(fs.inodes)[j].kind)
              && Target(old(fs.inodes), old(fs.disk), Start(e0, cwd, newPath), Elements(newPath), true) == Some(dp)
              && Elements(newPath) != [] && n == Canon(Elements(newPath)[|Elements(newPath)| - 1])
              && LinkedBy(old(fs.inodes), old(fs.disk), fs.inodes, fs.disk, dp, n, old(ic.entries[k].inum))
  {
    hide Owned, Tree, Refs, Target, Elements, Canon, GraphOf, Good, Ready, Anchored, OneMore, SameRefs, LinkedBy,
      NoPlace, PlaceStuck, InCache, Sane, Covers, FewMore;
    FewOne(fs.g, fs.logged, 0);
    FewGrow(fs.g, fs.logged, fs.logged, 0, 5);
    dp, n := 0, [];
    ghost var e1, i := ic.entries, ic.entries[k].inum;
    var ok := ic.Ilock(fs, k);
    if !ok {
      return None, dp, n;
    }
    LockedMore(e0, e1, ic.entries, i);
    if fs.inodes[ic.entries[k].inum].kind != T_DIR {
      r, dp, n := LinkFile(fs, ic, k, newPath, cwd, buf, e0);
      return;
    }
    ReadyFacts(fs.inodes, fs.disk, fs.dinodes, e0, cwd);
    ghost var e2 := ic.entries;
    PutBack(fs, ic, k, e0);
    BackToBefore(e0, e2, ic.entries, i);
    r := Some(-1);
  }

  /** The rest of sys_link() for an inode that is not a directory: the count goes up, and down again on failure. */
  method LinkFile(fs: FileSys, ic: ICache, k: nat, newPath: seq<byte>, cwd: nat, buf: seq<byte>, ghost e0: seq<Cached>)
    returns (r: Option<int>, ghost dp: nat, ghost n: Name)
    requires && Sized(fs.inodes) && Tree(fs.inodes, fs.disk) && |e0| == NINODE && cwd < NINODE
             && Start(e0, cwd, newPath) < |fs.inodes|
    requires fs.Valid() && Ready(fs.inodes, fs.disk, fs.dinodes, e0, cwd) && IsString(newPath) && |buf| == DIRSIZ
    requires && LiveCache(fs.inodes, ic.entries) && Pinned(e0, ic.entries) && k < NINODE && ic.entries[k].ref > 0
             && fs.inodes[ic.entries[k].inum].kind != 0 && fs.inodes[ic.entries[k].inum].kind != T_DIR
    requires OneMore(e0, ic.entries, ic.entries[k].inum) && Good(GraphOf(fs.inodes, fs.disk))
    modifies ic, fs`disk, fs`inodes, fs`dinodes, fs`owner, fs`logged
    ensures r.Some? ==>
              && SameRefs(e0, ic.entries) && LiveCache(fs.inodes, ic.entries) && Pinned(e0, ic.entries)
              && Anchored(fs.inodes, e0) && fs.Valid()
    ensures r == Some(-1) ==>
              && fs.inodes == old(fs.inodes) && fs.dinodes == old(fs.dinodes) && fs.disk == old(fs.disk)
              && fs.owner == old(fs.owner)
    ensures r.None? <==>
              PlaceStuck(old(fs.inodes), old(fs.disk), InCache(e0) + {old(ic.entries[k].inum)}, e0[cwd].inum, newPath,
                         Room(fs.g, old(fs.owner)))
    ensures r.Some? ==> FewMore(fs.g, old(fs.logged), fs.logged, 5)
    ensures r == Some(-1) ==> NoPlace(old(fs.inodes), old(fs.disk), Start(e0, cwd, newPath), Elements(newPath))
    ensures r.Some? && r != Some(-1) ==>
              && r == Some(0) && Sane(fs.inodes, fs.disk, fs.dinodes)
              && (forall j ::
                    0 <= j < |fs.inodes| && j < old(|fs.inodes|) ==> fs.inodes[j].kind == old(fs.inodes)[j].kind)
              && Target(old(fs.inodes), old(fs.disk), Start(e0, cwd, newPath), Elements(newPath), true) == Some(dp)
              && Elements(newPath) != [] && n == Canon(Elements(newPath)[|Elements(newPath)| - 1])
              && LinkedBy(old(fs.inodes), old(fs.disk), fs.inodes, fs.disk, dp, n, old(ic.entries[k].inum))
  {
    hide Owned, Tree, Refs, Target, Elements, Canon, GraphOf, Good, Ready, Anchored, Entered, Sane, OneMore, SameRefs,
      LinksOf, OnlyNlink, LinkedBy, Pinned, NoPlace, PlaceStuck, InCache, Child, Content, SameButNlink, Sized,
      IsString, Covers, FewMore;
    dp, n := 0, [];
    ReadyFacts(fs.inodes, fs.disk, fs.dinodes, e0, cwd);
    ghost var e1 := ic.entries;
    var i := ic.entries[k].inum;
    Bump(fs.inodes, fs.disk, fs.dinodes, e0, e1, cwd, k, newPath, Room(fs.g, fs.owner));
    AddLinks(fs, i, 1);
    ghost var logged1 := fs.logged;
    r, dp, n := LinkUnder(fs, ic, i, newPath, cwd, buf);
    if r.None? {
      return;
    }
    ghost var logged2 := fs.logged;
    if r == Some(0) {
      DoneLink(old(fs.inodes), old(fs.disk), Bumped(old(fs.inodes), i), fs.inodes, fs.disk, fs.dinodes, dp, n, i, e0,
               ic.entries);
    } else {
      LiveFrame(fs.inodes, old(fs.inodes), ic.entries);
      TakeBack(fs, i, old(fs.inodes), old(fs.dinodes));
    }
    Finish(fs, ic, k, e0, e1);
    LinkFew(fs.g, old(fs.logged), logged1, logged2, fs.logged, InodeBlock(fs.g, i), if r == Some(-1) then 0 else 4);
  }

  lemma LinkFew(g: Geometry, was: set<nat>, one: set<nat>, two: set<nat>, now: set<nat>, b: nat, k: nat)
    requires one == was + {b} && FewMore(g, one, two, k) && k <= 4 && (now == two || (now == two + {b} && k == 0))
    ensures FewMore(g, was, now, 5)
  {
    hide FewMore;
    FewOne(g, was, b);
    FewTwice(g, was, one, two, 1, k);
    FewOne(g, two, b);
    FewTwice(g, was, two, now, 1 + k, if now == two then 0 else 1);
    FewGrow(g, was, now, 1 + k + if now == two then 0 else 1, 5);
  }

  /** `ip->nlink--; iupdate(ip);` undoes the increment. */
  method TakeBack(fs: FileSys, i: nat, ghost inodes: seq<Inode>, ghost dinodes: seq<Inode>)
    requires fs.Valid() && i < |inodes| == |dinodes| && fs.inodes == Bumped(inodes, i)
    requires dinodes == inodes && fs.dinodes == dinodes[i := fs.inodes[i]]
    modifies fs`inodes, fs`dinodes, fs`logged
    ensures && fs.Valid() && fs.inodes == inodes && fs.dinodes == dinodes
            && fs.logged == old(fs.logged) + {InodeBlock(fs.g, i)}
  {
    hide Owned, Covers;
    AddLinks(fs, i, -1);
    assert fs.inodes == inodes;
    assert fs.dinodes == dinodes;
  }

  ghost function Bumped(inodes: seq<Inode>, i: nat): (r: seq<Inode>)
    requires i < |inodes|
  {
    inodes[i := inodes[i].(nlink := inodes[i].nlink + 1)]
  }

  /** With one more link on the locked inode everything is as the rest of the call needs it. */
  lemma Bump(inodes: seq<Inode>, disk: seq<Block>, dinodes: seq<Inode>, e0: seq<Cached>, e1: seq<Cached>, cwd: nat,
             k: nat, newPath: seq<byte>, room: int)
    requires Ready(inodes, disk, dinodes, e0, cwd) && LiveCache(inodes, e1) && Pinned(e0, e1)
    requires k < NINODE && e1[k].ref > 0 && inodes[e1[k].inum].kind != 0 && OneMore(e0, e1, e1[k].inum)
    ensures var i := e1[k].inum;
            var inodes1 := Bumped(inodes, i);
            && Sized(inodes) && |dinodes| == |inodes| && dinodes[i := inodes1[i]] == inodes1
            && Sane(inodes1, disk, inodes1)
            && LiveCache(inodes1, e1) && Anchored(inodes1, e0) && Anchored(inodes1, e1) && inodes1[ROOTINO].kind != 0
            && e1[cwd].ref > 0 && e1[cwd].inum == e0[cwd].inum && inodes1[e1[cwd].inum].kind != 0 && 0 < i
            && Tree(inodes, disk)
            && Tree(inodes1, disk) && Sized(inodes1) && OnlyNlink(inodes, inodes1)
            && Target(inodes1, disk, Start(e0, cwd, newPath), Elements(newPath), true) ==
                 Target(inodes, disk, Start(e0, cwd, newPath), Elements(newPath), true)
            && (NoPlace(inodes1, disk, Start(e0, cwd, newPath), Elements(newPath)) <==>
                  NoPlace(inodes, disk, Start(e0, cwd, newPath), Elements(newPath)))
            && (PlaceStuck(inodes1, disk, InCache(e1), e1[cwd].inum, newPath, room) <==>
                PlaceStuck(inodes, disk, InCache(e0) + {i}, e0[cwd].inum, newPath, room))
            && GraphOf(inodes1, disk) ==
                 GraphOf(inodes, disk).(nl := GraphOf(inodes, disk).nl[i := inodes[i].nlink + 1])
  {
    hide Tree, Refs, Target, Elements, GraphOf, Anchored, OneMore, Ready, Sane, PlaceStuck, InCache;
    var i := e1[k].inum;
    var inodes1 := Bumped(inodes, i);
    ReadyFacts(inodes, disk, dinodes, e0, cwd);
    MoreLinks(inodes, disk, dinodes, e0, cwd, i, inodes1);
    ReadyFacts(inodes1, disk, inodes1, e0, cwd);
    SyncedAfter(inodes, disk, dinodes, dinodes[i := inodes1[i]], i, inodes1, e0, cwd);
    StillAnchored(inodes1, e0, e1, i);
    NlinkTarget(inodes, inodes1, disk, Start(e0, cwd, newPath), Elements(newPath), true);
    NlinkNoPlace(inodes, inodes1, disk, Start(e0, cwd, newPath), Elements(newPath));
    InCacheMore(e0, e1, i);
    NlinkPlaceStuck(inodes, inodes1, disk, InCache(e1), e0[cwd].inum, newPath, room);
    LiveFrame(inodes, inodes1, e1);
  }

  /** nameiparent() of the new path, and the entry in the directory it finds. */
  method LinkUnder(fs: FileSys, ic: ICache, i: nat, newPath: seq<byte>, cwd: nat, buf: seq<byte>)
    returns (r: Option<int>, ghost dp: nat, ghost n: Name)
    requires && fs.Valid() && Sane(fs.inodes, fs.disk, fs.dinodes) && LiveCache(fs.inodes, ic.entries)
             && Anchored(fs.inodes, ic.entries)
    requires IsString(newPath) && |buf| == DIRSIZ && 0 < i < |fs.inodes| && fs.inodes[ROOTINO].kind != 0
    requires cwd < NINODE && ic.entries[cwd].ref > 0 && fs.inodes[ic.entries[cwd].inum].kind != 0
    modifies ic, fs`disk, fs`inodes, fs`dinodes, fs`owner, fs`logged
    ensures r.Some? ==>
              && LiveCache(fs.inodes, ic.entries) && Pinned(old(ic.entries), ic.entries)
              && SameRefs(old(ic.entries), ic.entries)
    ensures r == Some(-1) ==>
              && fs.inodes == old(fs.inodes) && fs.dinodes == old(fs.dinodes) && fs.disk == old(fs.disk)
              && fs.owner == old(fs.owner) && fs.Valid()
    ensures r.None? <==>
              PlaceStuck(old(fs.inodes), old(fs.disk), InCache(old(ic.entries)), old(ic.entries[cwd].inum), newPath,
                         Room(fs.g, old(fs.owner)))
    ensures r.Some? ==> FewMore(fs.g, old(fs.logged), fs.logged, if r == Some(-1) then 0 else 4)
    ensures r == Some(-1) ==>
              NoPlace(old(fs.inodes), old(fs.disk), Start(old(ic.entries), cwd, newPath), Elements(newPath))
    ensures r.Some? && r != Some(-1) ==>
              && r == Some(0) && fs.Valid() && dp < old(|fs.inodes|) && old(fs.inodes)[dp].kind == T_DIR
              && Target(old(fs.inodes), old(fs.disk), Start(old(ic.entries), cwd, newPath), Elements(newPath),
                        true) == Some(dp)
              && Elements(newPath) != [] && n == Canon(Elements(newPath)[|Elements(newPath)| - 1])
              && Entered(old(fs.inodes), old(fs.disk), fs.inodes, fs.disk, fs.dinodes, dp, n, i)
  {
    hide Owned, Refs, Target, Elements, Canon, Entered, NamexPanics, InCache, Crowded, AllDotsFirst, OneMore,
      SameRefs, Anchored, Covers, FewMore;
    FewOne(fs.g, fs.logged, 0);
    dp, n := 0, [];
    ghost var e1 := ic.entries;
    var out, name := Namex(fs, ic, newPath, cwd, true, buf);
    if out.Panic? {
      return None, dp, n;
    }
    if out.Nothing? {
      return Some(-1), dp, n;
    }
    dp, n := ic.entries[out.slot].inum, Canon(name);
    ParentIsDir(fs.inodes, fs.disk, Start(e1, cwd, newPath), Elements(newPath));
    SameChild(fs.inodes, fs.disk, dp, name, Elements(newPath)[|Elements(newPath)| - 1]);
    r := LinkIn(fs, ic, out.slot, name, i, e1);
  }

  /** The last iput(ip) of sys_link(). */
  method Finish(fs: FileSys, ic: ICache, k: nat, ghost e0: seq<Cached>, ghost e1: seq<Cached>)
    requires fs.Valid() && LiveCache(fs.inodes, ic.entries) && k < NINODE && OneEntry(e0) && Anchored(fs.inodes, e0)
    requires && Pinned(e0, e1) && Pinned(e1, ic.entries) && OneEntry(e1) && e1[k].ref > 0 && e1[k].inum < |fs.inodes|
             && fs.inodes[e1[k].inum].kind != 0
    requires OneMore(e0, e1, e1[k].inum) && SameRefs(e1, ic.entries)
    modifies ic, fs`disk, fs`inodes, fs`dinodes, fs`owner, fs`logged
    ensures SameRefs(e0, ic.entries) && LiveCache(fs.inodes, ic.entries) && Pinned(e0, ic.entries)
    ensures && fs.inodes == old(fs.inodes) && fs.disk == old(fs.disk) && fs.dinodes == old(fs.dinodes)
            && fs.owner == old(fs.owner)
            && fs.logged == old(fs.logged)
  {
    hide Owned, Refs, Covers;
    ghost var e2 := ic.entries;
    PutBack(fs, ic, k, e0);
    BackToBefore(e0, e2, ic.entries, e2[k].inum);
  }

  lemma SyncedAfter(inodes: seq<Inode>, disk: seq<Block>, dinodes: seq<Inode>, dinodes': seq<Inode>, i: nat,
                    inodes': seq<Inode>, e: seq<Cached>, cwd: nat)
    requires && Ready(inodes, disk, dinodes, e, cwd) && i < |inodes| && |inodes'| == |inodes|
             && dinodes' == dinodes[i := inodes'[i]]
    requires inodes' == inodes[i := inodes'[i]]
    ensures dinodes' == inodes'
  {
    hide Tree, AllDotsFirst, Anchored;
  }

  lemma SaneSized(inodes: seq<Inode>, disk: seq<Block>, dinodes: seq<Inode>)
    requires Sane(inodes, disk, dinodes)
    ensures Sized(inodes)
  {
  }

  lemma LiveFrame(inodes: seq<Inode>, inodes': seq<Inode>, entries: seq<Cached>)
    requires |inodes'| == |inodes| && forall j :: 0 <= j < |inodes| ==> inodes'[j].kind == inodes[j].kind
    ensures LiveCache(inodes, entries) ==> LiveCache(inodes', entries)
  {
  }

  lemma ParentIsDir(inodes: seq<Inode>, disk: seq<Block>, d: nat, es: seq<seq<byte>>)
    requires Tree(inodes, disk) && d < |inodes|
    ensures Target(inodes, disk, d, es, true).Some? ==>
              && Target(inodes, disk, d, es, true).value < |inodes|
              && inodes[Target(inodes, disk, d, es, true).value].kind == T_DIR
  {
    hide Tree, Walk;
  }

  lemma DoneLink(inodes: seq<Inode>, disk: seq<Block>, inodes1: seq<Inode>, inodes2: seq<Inode>, disk2: seq<Block>,
                 dinodes2: seq<Inode>,
                 dp: nat, n: Name, i: nat, e0: seq<Cached>, entries: seq<Cached>)
    requires && Sized(inodes) && Sized(inodes1) && i < |inodes| && |inodes1| == |inodes| && dp < |inodes|
             && inodes[dp].kind == T_DIR && inodes[i].kind != T_DIR
    requires inodes1 == inodes[i := inodes[i].(nlink := inodes[i].nlink + 1)]
    requires GraphOf(inodes1, disk) == GraphOf(inodes, disk).(nl := GraphOf(inodes, disk).nl[i := inodes[i].nlink + 1])
    requires && Entered(inodes1, disk, inodes2, disk2, dinodes2, dp, n, i) && Good(GraphOf(inodes, disk))
             && Anchored(inodes1, e0)
    ensures Sane(inodes2, disk2, dinodes2) && Anchored(inodes2, e0) && |inodes2| == |inodes|
    ensures forall j :: 0 <= j < |inodes| ==> inodes2[j].kind == inodes[j].kind
    ensures LinkedBy(inodes, disk, inodes2, disk2, dp, n, i)
  {
    hide Refs, Sane, Good, DirOf, KeptAt;
    var g := GraphOf(inodes, disk);
    assert g.dirs[dp] == DirOf(inodes, disk, dp);
    assert GraphOf(inodes1, disk).dirs[dp] == DirOf(inodes1, disk, dp);
    GoodShape(g);
    NoLinkLostKeeps(inodes1, inodes2, e0);
    KeptByNlink(inodes, inodes1, disk);
    KeptTwice(inodes, disk, inodes1, disk, inodes2, disk2, {}, {dp});
    DevicesTwice(inodes, inodes1, inodes2, {});
    SaneSized(inodes2, disk2, dinodes2);
    LinkKeeps(g, dp, n, i);
  }
}
