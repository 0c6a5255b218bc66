/**
  create() (sysfile.c), for files, directories and devices, with ialloc() (fs.c).
 */
module Create {
  import opened Common
  import opened Blocks
  import opened FreeMap
  import opened Ownership
  import opened Inodes
  import opened FileContents
  import opened Directory
  import opened Paths
  import opened LinkCounts
  import opened Links
  import opened Unlink

  const T_FILE: int := 2

  /** What create() is asked to make. */
  datatype Node = Node(kind: int, major: int, minor: int)

  /** Inode c is the lowest free one, from 1 on. */
  ghost predicate FirstFreeInode(inodes: seq<Inode>, c: nat) {
    1 <= c < |inodes| && inodes[c].kind == 0 && forall i :: 1 <= i < c ==> inodes[i].kind != 0
  }

  ghost predicate NoFreeInode(inodes: seq<Inode>) {
    forall i :: 1 <= i < |inodes| ==> inodes[i].kind != 0
  }

  /** When create() returns 0: there is no directory for the name, or the name is there and is not to be opened. */
  ghost predicate CreateRefused(inodes: seq<Inode>, disk: seq<Block>, start: nat, es: seq<seq<byte>>, kind: int) {
    && Tree(inodes, disk) && start < |inodes|
    && var d := Target(inodes, disk, start, es, true);
       d.None? || es == [] || Unopenable(inodes, disk, d.value, es[|es| - 1], kind)
  }

  /** The name is there, and a file was not asked for or it is not that of a file. */
  ghost predicate Unopenable(inodes: seq<Inode>, disk: seq<Block>, dp: nat, name: seq<byte>, kind: int)
    requires Tree(inodes, disk) && dp < |inodes|
  {
    var i := Child(inodes, disk, dp, name);
    i.Some? && !(kind == T_FILE && inodes[i.value].kind == T_FILE)
  }

  /** What stops create() in directory dp: for a name that is there, no cache entry or a freed inode; for a new one, no
      inode, no cache entry, no block for a directory's dots, or no room for the entry. */
  ghost predicate NodeStuck(inodes: seq<Inode>, disk: seq<Block>, used: set<nat>, dp: nat, name: seq<byte>, kind: int,
                            room: int)
    requires Tree(inodes, disk) && dp < |inodes|
  {
    match Child(inodes, disk, dp, name)
    case Some(i) => NoEntry(used + {dp}, i) || inodes[i].kind == 0
    case None =>
      || NoFreeInode(inodes)
      || (exists c :: FirstFreeInode(inodes, c) && NoEntry(used + {dp}, c))
      || NoSpace(inodes, disk, dp, kind, room)
  }

  /** There is no block for a directory's dots, or no room for the entry in directory dp. */
  ghost predicate NoSpace(inodes: seq<Inode>, disk: seq<Block>, dp: nat, kind: int, room: int) {
    && dp < |inodes| && inodes[dp].size <= MAXBYTES
    && if kind == T_DIR then room < 1 || Crowded(inodes, disk, dp, room - 1) else Crowded(inodes, disk, dp, room)
  }

  /** When create() panics. */
  ghost predicate CreateStuck(inodes: seq<Inode>, disk: seq<Block>, used: set<nat>, cwd: nat, path: seq<byte>,
                              kind: int, room: int) {
    && Tree(inodes, disk) && From(cwd, path) < |inodes|
    && (|| NamexPanics(inodes, disk, used, cwd, path, true)
        || (var d, es := Target(inodes, disk, From(cwd, path), Elements(path), true), Elements(path);
            d.Some? && es != [] && NodeStuck(inodes, disk, used, d.value, es[|es| - 1], kind, room)))
  }

  /** A directory without holes that keeps its size, numbers and contents has as much room as before. */
  lemma CrowdedKept(inodes: seq<Inode>, disk: seq<Block>, inodes': seq<Inode>, disk': seq<Block>, dp: nat, room: int)
    requires dp < |inodes| == |inodes'| && KeptAt(inodes, disk, inodes', disk', dp)
    requires HoleFree(inodes, disk, dp) && HoleFree(inodes', disk', dp)
    ensures Crowded(inodes', disk', dp, room) <==> Crowded(inodes, disk, dp, room)
    ensures EntryNeed(inodes', disk', dp) == EntryNeed(inodes, disk, dp)
  {
    hide Content, AllLive, At;
  }

  /** A new inode: no contents yet. */
  function NewInode(kind: int, major: int, minor: int, nlink: int): (x: Inode) {
    Inode(kind, major, minor, nlink, 0, NOBLOCK)
  }

  /** Sane, but directory c may lack its dots. */
  ghost predicate SaneBut(inodes: seq<Inode>, disk: seq<Block>, dinodes: seq<Inode>, c: nat) {
    && Tree(inodes, disk) && FreeEmpty(inodes) && dinodes == inodes && ROOTINO < |inodes| <= 0x1_0000
    && inodes[0].kind == 0
    && forall d :: 0 <= d < |inodes| && d != c && inodes[d].kind == T_DIR ==> DotsFirst(inodes, disk, d)
  }

  lemma SaneAgain(inodes: seq<Inode>, disk: seq<Block>, dinodes: seq<Inode>, c: nat)
    requires && SaneBut(inodes, disk, dinodes, c) && c < |inodes|
             && (inodes[c].kind == T_DIR ==> DotsFirst(inodes, disk, c))
    ensures Sane(inodes, disk, dinodes)
  {
  }

  // --------------------------------------------------------------- a new inode

  /** An inode without contents holds the empty map, whatever else its fields say. */
  lemma EmptyContent(inodes: seq<Inode>, disk: seq<Block>, c: nat)
    requires c < |inodes| && inodes[c].size == 0 && inodes[c].addrs == NOBLOCK
    ensures && Content(inodes, disk, c) == [] && HoleFree(inodes, disk, c) && Whole([]) && Unique([])
            && DirMap([]) == map[] && Count([]) == 0
  {
    forall bn | 0 <= bn < MAXFILE ensures At(inodes, disk, DataSlot(c, bn)) == 0 {
    }
  }

  /** The other inodes do not see a change of c's fields. */
  lemma InitContent(inodes: seq<Inode>, disk: seq<Block>, inodes': seq<Inode>, c: nat, j: nat)
    requires |inodes'| == |inodes| && j < |inodes| && j != c && inodes'[j] == inodes[j] && inodes[j].size <= MAXBYTES
    ensures && Content(inodes', disk, j) == Content(inodes, disk, j)
            && (HoleFree(inodes', disk, j) <==> HoleFree(inodes, disk, j))
  {
    hide ByteAt;
    forall bn | 0 <= bn < MAXFILE ensures At(inodes', disk, DataSlot(j, bn)) == At(inodes, disk, DataSlot(j, bn)) {
    }
    forall p | 0 <= p < inodes[j].size ensures ByteAt(inodes', disk, j, p) == ByteAt(inodes, disk, j, p) {
      ResizedByte(inodes, disk, inodes', j, p);
    }
  }

  lemma InitStep(inodes: seq<Inode>, disk: seq<Block>, dinodes: seq<Inode>, inodes': seq<Inode>, c: nat, x: Inode)
    requires && Sane(inodes, disk, dinodes) && 0 < c < |inodes| && inodes[c].kind == 0 && x.kind != 0 && x.size == 0
             && x.addrs == NOBLOCK
    requires inodes' == inodes[c := x]
    ensures SaneBut(inodes', disk, inodes', c)
    ensures GraphOf(inodes', disk) ==
              GraphOf(inodes, disk).(isdir := KindsOf(inodes)[c := x.kind == T_DIR],
                                     nl := LinksOf(inodes)[c := x.nlink])
    ensures Content(inodes', disk, c) == [] && KeptBut(inodes, disk, inodes', disk, {c})
  {
    hide Content, HoleFree, Unique, DirMap, Whole, Named, Count, IsEmpty;
    EmptyContent(inodes', disk, c);
    assert Sized(inodes');
    forall d | 0 <= d < |inodes| && d != c
      ensures && Content(inodes', disk, d) == Content(inodes, disk, d)
              && (HoleFree(inodes', disk, d) <==> HoleFree(inodes, disk, d))
    {
      InitContent(inodes, disk, inodes', c, d);
    }
    forall d | 0 <= d < |inodes'| && inodes'[d].kind == T_DIR ensures DirOk(inodes', disk, d) {
      if d != c {
        assert DirOk(inodes, disk, d);
      }
    }
    forall d | 0 <= d < |inodes'| && d != c && inodes'[d].kind == T_DIR ensures DotsFirst(inodes', disk, d) {
      assert DotsFirst(inodes, disk, d);
    }
    assert DirsOf(inodes', disk) == DirsOf(inodes, disk);
    assert KindsOf(inodes') == KindsOf(inodes)[c := x.kind == T_DIR];
    assert LinksOf(inodes') == LinksOf(inodes)[c := x.nlink];
  }

  /** ialloc(): the lowest free inode, from 1 on; none stands for its panic. */
  method Ialloc(fs: FileSys, kind: int) returns (r: Option<nat>)
    requires fs.Valid() && fs.dinodes == fs.inodes && FreeEmpty(fs.inodes) && kind != 0
    modifies fs`inodes, fs`dinodes, fs`logged
    ensures r.None? ==> fs.inodes == old(fs.inodes) && forall i :: 1 <= i < |fs.inodes| ==> fs.inodes[i].kind != 0
    ensures r.Some? ==>
              && 1 <= r.value < old(|fs.inodes|) && old(fs.inodes)[r.value].kind == 0
              && (forall i :: 1 <= i < r.value ==> old(fs.inodes)[i].kind != 0)
              && fs.Valid() && fs.inodes == old(fs.inodes)[r.value := NewInode(kind, 0, 0, 0)]
              && fs.dinodes == fs.inodes
              && fs.logged == old(fs.logged) + {InodeBlock(fs.g, r.value)}
  {
    hide Owned, Covers;
    var inum := 1;
    while inum < fs.g.ninodes
      invariant 1 <= inum && fs.inodes == old(fs.inodes) && fs.dinodes == old(fs.dinodes) && fs.logged == old(fs.logged)
      invariant forall i :: 1 <= i < inum && i < |fs.inodes| ==> fs.inodes[i].kind != 0
    {
      if fs.dinodes[inum].kind == 0 {
        assert IsEmpty(fs.inodes[inum]);
        ghost var before := fs.inodes;
        fs.inodes := fs.inodes[inum := NewInode(kind, 0, 0, 0)];
        SizeOnly(fs.g, before, fs.disk, fs.inodes, fs.owner);
        fs.Iupdate(inum);
        return Some(inum);
      }
      inum := inum + 1;
    }
    return None;
  }

  // --------------------------------------------------------------- entries while a directory is being made

  /** Entry n for i in directory d, while c is being made. */
  ghost predicate EnteredBut(inodes: seq<Inode>, disk: seq<Block>, inodes': seq<Inode>, disk': seq<Block>,
                             dinodes': seq<Inode>, c: nat, d: nat, n: Name, i: nat)
    requires Sized(inodes) && d < |inodes|
  {
    && SaneBut(inodes', disk', dinodes', c) && |inodes'| == |inodes| && KeptBut(inodes, disk, inodes', disk', {d})
    && (forall j :: 0 <= j < |inodes| ==> inodes'[j] == inodes[j].(size := inodes'[j].size, addrs := inodes'[j].addrs))
    && GraphOf(inodes', disk') ==
         GraphOf(inodes, disk).(dirs := DirsOf(inodes, disk)[d := Put(DirOf(inodes, disk, d), n, i)])
  }

  lemma EnteredButBy(inodes: seq<Inode>, disk: seq<Block>, dinodes: seq<Inode>, inodes': seq<Inode>,
                     disk': seq<Block>, dinodes': seq<Inode>,
                     c: nat, d: nat, n: Name, i: nat)
    requires && SaneBut(inodes, disk, dinodes, c) && d < |inodes| && inodes[d].kind == T_DIR && i < |inodes|
             && Sized(inodes')
    requires OnlyDir(inodes, disk, dinodes, inodes', disk', dinodes', d)
    requires && IsDir(inodes', disk', d) && Unique(Content(inodes', disk', d))
             && LiveKept(Content(inodes, disk, d), Content(inodes', disk', d))
    requires && n !in DirMap(Content(inodes, disk, d))
             && DirMap(Content(inodes', disk', d)) == DirMap(Content(inodes, disk, d))[n := i]
    ensures EnteredBut(inodes, disk, inodes', disk', dinodes', c, d, n, i)
  {
    hide Content, HoleFree, Unique, DirMap, IsEmpty, Count, Named, Live;
    assert DirOk(inodes, disk, d);
    if d != c {
      assert DotsFirst(inodes, disk, d);
      DotsStay(Content(inodes, disk, d), Content(inodes', disk', d));
    }
    DirStep(inodes, disk, dinodes, inodes', disk', dinodes', d);
    KeptByDir(inodes, disk, dinodes, inodes', disk', dinodes', d);
    forall j | 0 <= j < |inodes'| && j != c && inodes'[j].kind == T_DIR ensures DotsFirst(inodes', disk', j) {
      assert DotsFirst(inodes, disk, j);
    }
  }

  /** dirlink() of a name that is not there. */
  method LinkName(fs: FileSys, d: nat, name: seq<byte>, i: nat, ghost c: nat, ghost base: set<nat>)
    returns (r: Option<int>)
    requires && fs.Valid() && SaneBut(fs.inodes, fs.disk, fs.dinodes, c) && Readable(name, DIRSIZ) && d < |fs.inodes|
             && 0 < i < |fs.inodes|
    requires fs.inodes[d].kind == T_DIR && Sized(fs.inodes) && Canon(name) !in DirMap(Content(fs.inodes, fs.disk, d))
    requires InodeBlock(fs.g, d) in base && fs.g.bmapstart in base
    modifies fs`disk, fs`inodes, fs`dinodes, fs`owner, fs`logged
    ensures r.None? <==> Crowded(old(fs.inodes), old(fs.disk), d, Room(fs.g, old(fs.owner)))
    ensures r.Some? ==>
              && Room(fs.g, fs.owner) == Room(fs.g, old(fs.owner)) - EntryNeed(old(fs.inodes), old(fs.disk), d)
              && FewMore(fs.g, old(fs.logged) + base, fs.logged + base, 2)
    ensures r.Some? ==>
              && r == Some(0) && fs.Valid() && Sized(fs.inodes)
              && EnteredBut(old(fs.inodes), old(fs.disk), fs.inodes, fs.disk, fs.dinodes, c, d, Canon(name), i)
              && LiveKept(old(Content(fs.inodes, fs.disk, d)), Content(fs.inodes, fs.disk, d))
              && Unique(Content(fs.inodes, fs.disk, d))
              && Count(Content(fs.inodes, fs.disk, d)) <= Count(old(Content(fs.inodes, fs.disk, d))) + 1
              && DirMap(Content(fs.inodes, fs.disk, d)) ==
                   Put(DirMap(old(Content(fs.inodes, fs.disk, d))), Canon(name), i)
              && forall j ::
                   0 <= j < |fs.inodes| && j != d ==>
                     Content(fs.inodes, fs.disk, j) == old(Content(fs.inodes, fs.disk, j))
  {
    hide Owned, Content, Canon, DirMap, Unique, EnteredBut, LiveKept, HoleFree, Count, Crowded, EntryNeed, EntryLogs,
      Covers, FewMore;
    assert DirOk(fs.inodes, fs.disk, d);
    ghost var bn;
    r, bn := Dirlink(fs, d, name, i);
    if r.Some? {
      EntryAdds(fs.g, fs.inodes, fs.disk, d, bn, old(fs.logged), fs.logged, base);
      EnteredButBy(old(fs.inodes), old(fs.disk), old(fs.dinodes), fs.inodes, fs.disk, fs.dinodes, c, d, Canon(name), i);
    }
  }

  /** Besides the inode's block and the map, a change of an entry logs two blocks. */
  lemma EntryAdds(g: Geometry, inodes: seq<Inode>, disk: seq<Block>, d: nat, bn: nat, was: set<nat>, now: set<nat>,
                  base: set<nat>)
    requires EntryLogs(g, inodes, disk, d, bn, was, now) && InodeBlock(g, d) in base && g.bmapstart in base
    ensures FewMore(g, was + base, now + base, 2)
  {
    if g.size < BPB {
      var two := {inodes[d].addrs[NDIRECT], At(inodes, disk, DataSlot(d, bn))};
      forall c | c in now + base - (was + base) ensures c in two {
        OneMapBlock(g, c);
      }
      SubsetSize(now + base - (was + base), two);
    }
  }

  /** Blocks of base are counted once. */
  lemma FewBased(g: Geometry, was: set<nat>, now: set<nat>, base: set<nat>, k: nat, m: nat)
    requires FewMore(g, was + base, now + base, k) && |base| <= m
    ensures FewMore(g, was, now, k + m)
  {
    SubsetSize(now - was, base + (now + base - (was + base)));
    UnionSize(base, now + base - (was + base));
  }

  /** The first entries of a directory that has had "." and then ".." put into it. */
  lemma TwoDots(c0: seq<byte>, c1: seq<byte>, c2: seq<byte>, i: nat, j: nat)
    requires c0 == [] && Unique(c1) && Unique(c2) && Count(c1) <= 1 && Count(c2) <= Count(c1) + 1 && LiveKept(c1, c2)
    requires DirMap(c1) == Put(DirMap(c0), DOT, i) && DirMap(c2) == Put(DirMap(c1), DOTDOT, j) && DirMap(c0) == map[]
    ensures 2 <= Count(c2) && Named(c2, 0, DOT) && Named(c2, 1, DOTDOT) && DirMap(c2) == DotsOf(i, j)
  {
    hide Canon, Ent, Inum, MapOf, Count;
    MapOfIs(c1, Count(c1), DOT);
    assert Named(c1, 0, DOT);
    assert Same(c1, c2, 0);
    SameEntry(c1, c2, 0);
    MapOfIs(c2, Count(c2), DOTDOT);
    var k :| 0 <= k < Count(c2) && Named(c2, k, DOTDOT);
    assert k != 0;
  }

  /** `dirlink(ip, ".", ip->inum)` and `dirlink(ip, "..", dp->inum)` */
  method MakeDots(fs: FileSys, c: nat, dp: nat, ghost base: set<nat>) returns (r: Option<int>)
    requires fs.Valid() && SaneBut(fs.inodes, fs.disk, fs.dinodes, c) && 0 < c < |fs.inodes| && 0 < dp < |fs.inodes|
    requires fs.inodes[c].kind == T_DIR && Sized(fs.inodes) && Content(fs.inodes, fs.disk, c) == []
    requires InodeBlock(fs.g, c) in base && fs.g.bmapstart in base
    modifies fs`disk, fs`inodes, fs`dinodes, fs`owner, fs`logged
    ensures r.None? <==> Room(fs.g, old(fs.owner)) < 1
    ensures r.Some? ==>
              && Room(fs.g, fs.owner) == Room(fs.g, old(fs.owner)) - 1
              && FewMore(fs.g, old(fs.logged) + base, fs.logged + base, 4)
    ensures r.Some? ==>
              && fs.Valid() && Sane(fs.inodes, fs.disk, fs.dinodes) && Sized(fs.inodes)
              && |fs.inodes| == old(|fs.inodes|)
              && (forall j ::
                    0 <= j < |fs.inodes| ==>
                      fs.inodes[j] == old(fs.inodes)[j].(size := fs.inodes[j].size, addrs := fs.inodes[j].addrs))
              && KeptBut(old(fs.inodes), old(fs.disk), fs.inodes, fs.disk, {c})
              && GraphOf(fs.inodes, fs.disk) ==
                   GraphOf(old(fs.inodes), old(fs.disk)).(
                     dirs := DirsOf(old(fs.inodes), old(fs.disk))[c := DotsOf(c, dp)])
              && forall j ::
                   0 <= j < |fs.inodes| && j != c ==>
                     Content(fs.inodes, fs.disk, j) == old(Content(fs.inodes, fs.disk, j))
  {
    hide Owned, Content, Canon, DirMap, Unique, LiveKept, Count, Named, SaneBut, KeptBut, Crowded, EntryNeed, FewMore,
      Covers;
    CanonDots();
    NoNames();
    RoomIs(fs.g, fs.inodes, fs.disk, {}, fs.owner);
    EmptyDir(fs.inodes, fs.disk, fs.dinodes, c, Room(fs.g, fs.owner));
    r := LinkName(fs, c, [46, 0], c, c, base);
    if r.None? {
      return;
    }
    ghost var inodes1, disk1, logged1 := fs.inodes, fs.disk, fs.logged;
    RoomIs(fs.g, fs.inodes, fs.disk, {}, fs.owner);
    DotDir(fs.inodes, fs.disk, fs.dinodes, c, c, Room(fs.g, fs.owner));
    r := LinkName(fs, c, [46, 46, 0], dp, c, base);
    if r.None? {
      return;
    }
    FewTwice(fs.g, old(fs.logged) + base, logged1 + base, fs.logged + base, 2, 2);
    KeptTwice(old(fs.inodes), old(fs.disk), inodes1, disk1, fs.inodes, fs.disk, {c}, {c});
    assert {c} + {c} == {c};
    TwoDots([], Content(inodes1, disk1, c), Content(fs.inodes, fs.disk, c), c, dp);
    SaneAgain(fs.inodes, fs.disk, fs.dinodes, c);
    assert DirsOf(fs.inodes, fs.disk) == DirsOf(old(fs.inodes), old(fs.disk))[c := DotsOf(c, dp)];
  }

  /** The first entry of an empty directory takes a block. */
  lemma EmptyDir(inodes: seq<Inode>, disk: seq<Block>, dinodes: seq<Inode>, c: nat, room: int)
    requires SaneBut(inodes, disk, dinodes, c) && c < |inodes| && inodes[c].kind == T_DIR && inodes[c].size <= MAXBYTES
    requires Content(inodes, disk, c) == []
    ensures Crowded(inodes, disk, c, room) <==> room < 1
    ensures EntryNeed(inodes, disk, c) == 1
  {
    hide Content, At;
    assert DirOk(inodes, disk, c);
    assert inodes[c].size == 0 && Extent(0) == 0 && Count([]) == 0;
  }

  /** The second one fits in the same block. */
  lemma DotDir(inodes: seq<Inode>, disk: seq<Block>, dinodes: seq<Inode>, c: nat, i: nat, room: int)
    requires SaneBut(inodes, disk, dinodes, c) && c < |inodes| && inodes[c].kind == T_DIR && inodes[c].size <= MAXBYTES
    requires Count(Content(inodes, disk, c)) <= 1 && DirMap(Content(inodes, disk, c)) == map[DOT := i] && room >= 0
    ensures !Crowded(inodes, disk, c, room) && EntryNeed(inodes, disk, c) == 0
  {
    hide Content, At, Canon, MapOf, Ent, Inum;
    assert DirOk(inodes, disk, c);
    var d := Content(inodes, disk, c);
    MapOfIs(d, Count(d), DOT);
    assert inodes[c].size == 16 by {
      assert Whole(d) && |d| == inodes[c].size;
    }
    assert 16 / BSIZE == 0 && Extent(16) == 1;
  }

  lemma NoNames()
    ensures DirMap([]) == map[] && Count([]) == 0
  {
  }

  // --------------------------------------------------------------- the new node

  /** One link more on a directory, while c is being made. */
  lemma NlinkBut(inodes: seq<Inode>, disk: seq<Block>, inodes': seq<Inode>, c: nat, dp: nat)
    requires SaneBut(inodes, disk, inodes, c) && dp < |inodes| && inodes[dp].kind != 0 && c < |inodes|
    requires inodes' == inodes[dp := inodes[dp].(nlink := inodes[dp].nlink + 1)]
    ensures SaneBut(inodes', disk, inodes', c) && Content(inodes', disk, c) == Content(inodes, disk, c)
    ensures GraphOf(inodes', disk) == GraphOf(inodes, disk).(nl := LinksOf(inodes)[dp := inodes[dp].nlink + 1])
    ensures forall j :: 0 <= j < |inodes| ==> Content(inodes', disk, j) == Content(inodes, disk, j)
  {
    hide Tree, Content, HoleFree, IsEmpty, Count, Named, GraphOf, DirsOf;
    assert OnlyNlink(inodes, inodes');
    TreeSized(inodes, disk);
    NlinkTree(inodes, inodes', disk);
    forall j | 0 <= j < |inodes| ensures Content(inodes', disk, j) == Content(inodes, disk, j) {
      NlinkContent(inodes, inodes', disk, j);
    }
    forall d | 0 <= d < |inodes'| && d != c && inodes'[d].kind == T_DIR ensures DotsFirst(inodes', disk, d) {
      assert DotsFirst(inodes, disk, d);
    }
    assert LinksOf(inodes') == LinksOf(inodes)[dp := inodes[dp].nlink + 1];
  }

  lemma TreeSized(inodes: seq<Inode>, disk: seq<Block>)
    requires Tree(inodes, disk)
    ensures Sized(inodes)
  {
  }

  /** The effect of create() of a new node c, as x says, under the name n of directory dp: c was free, it has no
      contents but a directory's dots, and all other files are as before.  The counts are right afterwards exactly
      when dp is itself linked. */
  ghost predicate CreatedBy(inodes: seq<Inode>, disk: seq<Block>, inodes': seq<Inode>, disk': seq<Block>, dp: nat,
                            n: Name, c: nat, x: Node) {
    && Sized(inodes) && Sized(inodes') && |inodes'| == |inodes| && c < |inodes| && inodes[c].kind == 0
    && FirstFreeInode(inodes, c)
    && inodes'[c].kind == x.kind && inodes'[c].major == x.major && inodes'[c].minor == x.minor
    && (x.kind != T_DIR ==> inodes'[c].size == 0)
    && (forall j :: 0 <= j < |inodes| && j != c ==> inodes'[j].kind == inodes[j].kind)
    && KeptBut(inodes, disk, inodes', disk', {dp, c}) && SameDevices(inodes, inodes', {c})
    && var g, g' := GraphOf(inodes, disk), GraphOf(inodes', disk');
       && CanMake(g, dp, n, c) && g' == (if x.kind == T_DIR then Made(g, dp, n, c) else Linked(g, dp, n, c))
       && (Good(g') <==> g.nl[dp] > 0)
  }

  lemma CreatedGood(inodes: seq<Inode>, disk: seq<Block>, dinodes: seq<Inode>, dp: nat, n: Name, c: nat)
    requires && Sane(inodes, disk, dinodes) && Sized(inodes) && dp < |inodes| && inodes[dp].kind == T_DIR
             && c < |inodes|
             && inodes[c].kind == 0
    requires n !in DirMap(Content(inodes, disk, dp)) && Good(GraphOf(inodes, disk))
    ensures var g := GraphOf(inodes, disk);
            && CanMake(g, dp, n, c) && CanLink(g, dp, n, c) && (Good(Made(g, dp, n, c)) <==> g.nl[dp] > 0)
            && (Good(Linked(g, dp, n, c)) <==> g.nl[dp] > 0)
  {
    hide Good, Tree, AllDotsFirst, Content, DirMap;
    var g := GraphOf(inodes, disk);
    GoodShape(g);
    assert g.dirs[dp] == DirOf(inodes, disk, dp);
    assert IsEmpty(inodes[c]);
    assert && g.nl[c] == inodes[c].nlink && g.isdir[c] == (inodes[c].kind == T_DIR)
           && g.isdir[dp] == (inodes[dp].kind == T_DIR);
    MakeKeeps(g, dp, n, c);
    LinkKeeps(g, dp, n, c);
  }

  /** create() of a file or device once ialloc() has given inode c. */
  method MakeFile(fs: FileSys, c: nat, dp: nat, name: seq<byte>, kind: int, major: int, minor: int,
                  ghost inodes0: seq<Inode>, ghost base: set<nat>) returns (r: Option<int>)
    requires && Sane(inodes0, fs.disk, inodes0) && Sized(inodes0) && Good(GraphOf(inodes0, fs.disk))
             && Readable(name, DIRSIZ)
    requires FirstFreeInode(inodes0, c) && dp < |inodes0| && inodes0[dp].kind == T_DIR && kind != 0 && kind != T_DIR
    requires Canon(name) !in DirMap(Content(inodes0, fs.disk, dp))
    requires fs.Valid() && fs.inodes == inodes0[c := NewInode(kind, 0, 0, 0)] && fs.dinodes == fs.inodes
    requires InodeBlock(fs.g, c) in base && InodeBlock(fs.g, dp) in base && fs.g.bmapstart in base
    modifies fs`disk, fs`inodes, fs`dinodes, fs`owner, fs`logged
    ensures r.Some? ==>
              && fs.Valid() && Sane(fs.inodes, fs.disk, fs.dinodes)
              && CreatedBy(inodes0, old(fs.disk), fs.inodes, fs.disk, dp, Canon(name), c, Node(kind, major, minor))
    ensures r.None? <==> Crowded(inodes0, old(fs.disk), dp, Room(fs.g, old(fs.owner)))
    ensures r.Some? ==>
              && FewMore(fs.g, old(fs.logged) + base, fs.logged + base, 2)
              && Room(fs.g, fs.owner) >= Room(fs.g, old(fs.owner)) - 3
  {
    hide Owned, Content, Canon, DirMap, Unique, LiveKept, Count, Good, Sane, SaneBut, Made, Crowded, EntryNeed,
      FewMore, Covers;
    CreatedGood(inodes0, fs.disk, inodes0, dp, Canon(name), c);
    InitNode(fs, c, kind, major, minor, inodes0);
    InitStep(inodes0, fs.disk, inodes0, fs.inodes, c, NewInode(kind, major, minor, 1));
    InitContent(inodes0, fs.disk, fs.inodes, c, dp);
    ButSized(fs.inodes, fs.disk, fs.dinodes, c);
    ghost var inodes1 := fs.inodes;
    assert fs.logged + base == old(fs.logged) + base;
    DirRoomKept(inodes0, fs.disk, inodes0, inodes1, fs.disk, inodes1, dp, c, Room(fs.g, fs.owner));
    r := LinkName(fs, dp, name, c, c, base);
    if r.Some? {
      KeptTwice(inodes0, old(fs.disk), inodes1, old(fs.disk), fs.inodes, fs.disk, {c}, {dp});
      assert {c} + {dp} == {dp, c};
      DevicesTwice(inodes0, inodes1, fs.inodes, {c});
      assert KeptAt(inodes1, old(fs.disk), fs.inodes, fs.disk, c);
      SaneAgain(fs.inodes, fs.disk, fs.dinodes, c);
      FileGraph(inodes0, old(fs.disk), fs.inodes, fs.disk, dp, Canon(name), c);
    }
  }

  lemma ButSized(inodes: seq<Inode>, disk: seq<Block>, dinodes: seq<Inode>, c: nat)
    requires SaneBut(inodes, disk, dinodes, c)
    ensures Sized(inodes)
  {
  }

  lemma FileGraph(inodes: seq<Inode>, disk: seq<Block>, inodes': seq<Inode>, disk': seq<Block>, dp: nat, n: Name,
                  c: nat)
    requires && Sized(inodes) && Sized(inodes') && dp < |inodes| && c < |inodes| && inodes[c].kind == 0
             && inodes[c].nlink == 0 && ROOTINO < |inodes|
    requires GraphOf(inodes', disk') ==
             GraphOf(inodes, disk).(isdir := KindsOf(inodes)[c := false], nl := LinksOf(inodes)[c := 1],
                                    dirs := DirsOf(inodes, disk)[dp := Put(DirOf(inodes, disk, dp), n, c)])
    ensures GraphOf(inodes', disk') == Linked(GraphOf(inodes, disk), dp, n, c)
  {
    hide DirOf;
    assert KindsOf(inodes)[c := false] == KindsOf(inodes);
  }

  /** `ip->major = major; ip->minor = minor; ip->nlink = 1; iupdate(ip);` */
  method InitNode(fs: FileSys, c: nat, kind: int, major: int, minor: int, ghost inodes0: seq<Inode>)
    requires && fs.Valid() && c < |inodes0| && fs.inodes == inodes0[c := NewInode(kind, 0, 0, 0)]
             && fs.dinodes == fs.inodes
    modifies fs`inodes, fs`dinodes, fs`logged
    ensures fs.Valid() && fs.inodes == inodes0[c := NewInode(kind, major, minor, 1)] && fs.dinodes == fs.inodes
    ensures fs.logged == old(fs.logged) + {InodeBlock(fs.g, c)}
  {
    hide Owned, Covers;
    ghost var before := fs.inodes;
    fs.inodes := fs.inodes[c := fs.inodes[c].(major := major, minor := minor, nlink := 1)];
    SizeOnly(fs.g, before, fs.disk, fs.inodes, fs.owner);
    fs.Iupdate(c);
  }

  /** create() of a directory, up to the entry in directory dp: the new directory c has its dots, and dp its link. */
  method FillDir(fs: FileSys, c: nat, dp: nat, major: int, minor: int, ghost inodes0: seq<Inode>, ghost base: set<nat>)
    returns (r: Option<int>)
    requires Sane(inodes0, fs.disk, inodes0) && Sized(inodes0) && FirstFreeInode(inodes0, c)
    requires 0 < dp < |inodes0| && inodes0[dp].kind == T_DIR
    requires fs.Valid() && fs.inodes == inodes0[c := NewInode(T_DIR, 0, 0, 0)] && fs.dinodes == fs.inodes
    requires InodeBlock(fs.g, c) in base && InodeBlock(fs.g, dp) in base && fs.g.bmapstart in base
    modifies fs`disk, fs`inodes, fs`dinodes, fs`owner, fs`logged
    ensures r.None? <==> Room(fs.g, old(fs.owner)) < 1
    ensures r.Some? ==>
              && Room(fs.g, fs.owner) == Room(fs.g, old(fs.owner)) - 1
              && FewMore(fs.g, old(fs.logged) + base, fs.logged + base, 4)
    ensures r.Some? ==>
              && fs.Valid() && Sane(fs.inodes, fs.disk, fs.dinodes) && Sized(fs.inodes) && |fs.inodes| == |inodes0|
              && KeptBut(inodes0, old(fs.disk), fs.inodes, fs.disk, {c}) && SameDevices(inodes0, fs.inodes, {c})
              && (forall j :: 0 <= j < |inodes0| && j != c ==> fs.inodes[j].kind == inodes0[j].kind)
              && fs.inodes[c].kind == T_DIR && fs.inodes[c].major == major && fs.inodes[c].minor == minor
              && GraphOf(fs.inodes, fs.disk) ==
                 Graph(KindsOf(inodes0)[c := true], LinksOf(inodes0)[c := 1][dp := inodes0[dp].nlink + 1],
                       DirsOf(inodes0, old(fs.disk))[c := DotsOf(c, dp)])
  {
    hide Owned, Content, Canon, DirMap, Unique, LiveKept, Count, Sane, SaneBut, KeptBut, FewMore, Covers, SameDevices;
    InitNode(fs, c, T_DIR, major, minor, inodes0);
    ghost var inodes1 := fs.inodes;
    InitStep(inodes0, fs.disk, inodes0, fs.inodes, c, NewInode(T_DIR, major, minor, 1));
    NlinkBut(inodes1, fs.disk, inodes1[dp := inodes1[dp].(nlink := inodes1[dp].nlink + 1)], c, dp);
    AddLinks(fs, dp, 1);
    ButSized(fs.inodes, fs.disk, fs.dinodes, c);
    ghost var inodes2 := fs.inodes;
    KeptByNlink(inodes1, inodes2, fs.disk);
    assert fs.logged + base == old(fs.logged) + base;
    r := MakeDots(fs, c, dp, base);
    if r.Some? {
      KeptMade(inodes0, inodes1, inodes2, old(fs.disk), fs.inodes, fs.disk, c, dp);
      DevicesMade(inodes0, inodes2, fs.inodes, dp, c);
    }
  }

  /** create() of a directory once ialloc() has given inode c. */
  method MakeDir(fs: FileSys, c: nat, dp: nat, name: seq<byte>, major: int, minor: int, ghost inodes0: seq<Inode>,
                 ghost base: set<nat>)
    returns (r: Option<int>)
    requires && Sane(inodes0, fs.disk, inodes0) && Sized(inodes0) && Good(GraphOf(inodes0, fs.disk))
             && Readable(name, DIRSIZ)
    requires FirstFreeInode(inodes0, c) && 0 < dp < |inodes0| && inodes0[dp].kind == T_DIR
    requires Canon(name) !in DirMap(Content(inodes0, fs.disk, dp))
    requires fs.Valid() && fs.inodes == inodes0[c := NewInode(T_DIR, 0, 0, 0)] && fs.dinodes == fs.inodes
    requires InodeBlock(fs.g, c) in base && InodeBlock(fs.g, dp) in base && fs.g.bmapstart in base
    modifies fs`disk, fs`inodes, fs`dinodes, fs`owner, fs`logged
    ensures r.Some? ==>
              && fs.Valid() && Sane(fs.inodes, fs.disk, fs.dinodes)
              && CreatedBy(inodes0, old(fs.disk), fs.inodes, fs.disk, dp, Canon(name), c, Node(T_DIR, major, minor))
    ensures var room := Room(fs.g, old(fs.owner)); r.None? <==> room < 1 || Crowded(inodes0, old(fs.disk), dp, room - 1)
    ensures r.Some? ==>
              && FewMore(fs.g, old(fs.logged) + base, fs.logged + base, 6)
              && Room(fs.g, fs.owner) >= Room(fs.g, old(fs.owner)) - 3
  {
    hide Owned, Content, Canon, DirMap, Unique, LiveKept, Count, Good, Sane, SaneBut, Made, Linked, KeptBut, Crowded,
      EntryNeed, FewMore, Covers;
    CreatedGood(inodes0, fs.disk, inodes0, dp, Canon(name), c);
    r := FillDir(fs, c, dp, major, minor, inodes0, base);
    if r.None? {
      return;
    }
    ghost var inodes3, disk3, logged3 := fs.inodes, fs.disk, fs.logged;
    ButOf(fs.inodes, fs.disk, fs.dinodes, c);
    DirRoomKept(inodes0, old(fs.disk), inodes0, inodes3, disk3, fs.dinodes, dp, c, Room(fs.g, fs.owner));
    r := LinkName(fs, dp, name, c, c, base);
    if r.Some? {
      FewTwice(fs.g, old(fs.logged) + base, logged3 + base, fs.logged + base, 4, 2);
      KeptTwice(inodes0, old(fs.disk), inodes3, disk3, fs.inodes, fs.disk, {c}, {dp});
      assert {c} + {dp} == {dp, c};
      DevicesTwice(inodes0, inodes3, fs.inodes, {c});
      DotsAgain(inodes3, disk3, inodes3, fs.inodes, fs.disk, c);
      SaneAgain(fs.inodes, fs.disk, fs.dinodes, c);
      DirGraph(inodes0, old(fs.disk), inodes3, disk3, fs.inodes, fs.disk, dp, Canon(name), c);
    }
  }

  /** Directory dp, which is not c, has as much room as before. */
  lemma DirRoomKept(inodes: seq<Inode>, disk: seq<Block>, dinodes: seq<Inode>, inodes': seq<Inode>, disk': seq<Block>,
                    dinodes': seq<Inode>, dp: nat, c: nat, room: int)
    requires Sane(inodes, disk, dinodes) && SaneBut(inodes', disk', dinodes', c) && dp < |inodes| && dp != c
    requires inodes[dp].kind == T_DIR && KeptBut(inodes, disk, inodes', disk', {c})
    ensures && inodes[dp].size <= MAXBYTES && dp < |inodes'| && inodes'[dp].size <= MAXBYTES
            && inodes'[dp].kind == inodes[dp].kind
    ensures Content(inodes', disk', dp) == Content(inodes, disk, dp)
    ensures Crowded(inodes', disk', dp, room) <==> Crowded(inodes, disk, dp, room)
  {
    hide Content, HoleFree, Crowded, EntryNeed, IsEmpty;
    assert KeptAt(inodes, disk, inodes', disk', dp);
    assert DirOk(inodes, disk, dp) && DirOk(inodes', disk', dp);
    CrowdedKept(inodes, disk, inodes', disk', dp, room);
  }

  lemma DevicesMade(inodes0: seq<Inode>, inodes2: seq<Inode>, inodes3: seq<Inode>, dp: nat, c: nat)
    requires |inodes2| == |inodes0| == |inodes3| && dp < |inodes0|
    requires forall j ::
               0 <= j < |inodes0| && j != c ==>
                 inodes2[j] == inodes0[j] || (j == dp && SameDevice(inodes0[j], inodes2[j]))
    requires forall j ::
               0 <= j < |inodes3| ==>
                 inodes3[j] == inodes2[j].(size := inodes3[j].size, addrs := inodes3[j].addrs)
    ensures SameDevices(inodes0, inodes3, {c})
  {
  }

  lemma KeptMade(inodes0: seq<Inode>, inodes1: seq<Inode>, inodes2: seq<Inode>, disk: seq<Block>, inodes3: seq<Inode>,
                 disk3: seq<Block>, c: nat, dp: nat)
    requires dp < |inodes0| && dp != c
    requires KeptBut(inodes0, disk, inodes1, disk, {c}) && KeptBut(inodes1, disk, inodes2, disk, {})
    requires KeptBut(inodes2, disk, inodes3, disk3, {c})
    ensures && KeptBut(inodes0, disk, inodes3, disk3, {c}) && |inodes3| == |inodes0|
            && inodes3[dp].size == inodes0[dp].size
  {
    hide Content;
    KeptTwice(inodes0, disk, inodes1, disk, inodes2, disk, {c}, {});
    KeptTwice(inodes0, disk, inodes2, disk, inodes3, disk3, {c} + {}, {c});
    assert {c} + {} + {c} == {c};
    assert KeptAt(inodes0, disk, inodes3, disk3, dp);
  }

  lemma ButOf(inodes: seq<Inode>, disk: seq<Block>, dinodes: seq<Inode>, c: nat)
    requires Sane(inodes, disk, dinodes)
    ensures SaneBut(inodes, disk, dinodes, c)
  {
  }

  /** A directory whose contents stay keeps its dots. */
  lemma DotsAgain(inodes: seq<Inode>, disk: seq<Block>, dinodes: seq<Inode>, inodes': seq<Inode>, disk': seq<Block>,
                  c: nat)
    requires && Sane(inodes, disk, dinodes) && c < |inodes| && inodes[c].kind == T_DIR && Sized(inodes')
             && |inodes'| == |inodes|
    requires Sized(inodes) && Content(inodes', disk', c) == Content(inodes, disk, c)
    ensures DotsFirst(inodes', disk', c)
  {
    hide Content, Tree;
    assert DotsFirst(inodes, disk, c);
  }

  lemma DirGraph(inodes: seq<Inode>, disk: seq<Block>, inodes3: seq<Inode>, disk3: seq<Block>, inodes': seq<Inode>,
                 disk': seq<Block>, dp: nat, n: Name, c: nat)
    requires && Sized(inodes) && Sized(inodes3) && Sized(inodes') && dp < |inodes| && c < |inodes| && dp != c
             && ROOTINO < |inodes| && |inodes3| == |inodes|
    requires GraphOf(inodes3, disk3) ==
               Graph(KindsOf(inodes)[c := true], LinksOf(inodes)[c := 1][dp := inodes[dp].nlink + 1],
                     DirsOf(inodes, disk)[c := DotsOf(c, dp)])
    requires GraphOf(inodes', disk') ==
               GraphOf(inodes3, disk3).(dirs := DirsOf(inodes3, disk3)[dp := Put(DirOf(inodes3, disk3, dp), n, c)])
    ensures GraphOf(inodes', disk') == Made(GraphOf(inodes, disk), dp, n, c)
  {
    hide DirOf, DotsOf;
    var g := GraphOf(inodes, disk);
    assert DirsOf(inodes3, disk3)[dp] == DirOf(inodes3, disk3, dp) == DirOf(inodes, disk, dp) == g.dirs[dp];
    assert g.nl[dp] == inodes[dp].nlink;
  }

  // --------------------------------------------------------------- create

  /** create() from ialloc() on, with the directory locked in entry d. */
  method CreateNew(fs: FileSys, ic: ICache, d: nat, name: seq<byte>, kind: int, major: int, minor: int,
                   ghost e0: seq<Cached>) returns (out: Outcome)
    requires && Sized(fs.inodes) && fs.Valid() && Sane(fs.inodes, fs.disk, fs.dinodes)
             && Good(GraphOf(fs.inodes, fs.disk)) && LiveCache(fs.inodes, ic.entries)
    requires && d < NINODE && ic.entries[d].ref > 0 && OneEntry(e0) && Pinned(e0, ic.entries)
             && fs.inodes[ic.entries[d].inum].kind == T_DIR && |name| == DIRSIZ
    requires Anchored(fs.inodes, e0) && OneMore(e0, ic.entries, ic.entries[d].inum) && kind != 0
    requires Canon(name) !in DirMap(Content(fs.inodes, fs.disk, ic.entries[d].inum))
    modifies ic, fs`disk, fs`inodes, fs`dinodes, fs`owner, fs`logged
    ensures !out.Nothing?
    ensures out.Panic? <==> || NoFreeInode(old(fs.inodes))
                            || (exists c ::
                                  && FirstFreeInode(old(fs.inodes), c)
                                  && NoEntry(InCache(e0) + {old(ic.entries[d].inum)}, c))
                            || NoSpace(old(fs.inodes), old(fs.disk), old(ic.entries[d].inum), kind,
                                       Room(fs.g, old(fs.owner)))
    ensures out.Found? ==>
              FewMore(fs.g, old(fs.logged), fs.logged, 9) && Room(fs.g, fs.owner) >= Room(fs.g, old(fs.owner)) - 3
    ensures out.Found? ==>
              && fs.Valid() && Sane(fs.inodes, fs.disk, fs.dinodes) && LiveCache(fs.inodes, ic.entries)
              && Pinned(e0, ic.entries)
              && out.slot < NINODE && ic.entries[out.slot].ref > 0
              && OneMore(e0, ic.entries, ic.entries[out.slot].inum)
              && AnchoredBut(fs.inodes, e0, ic.entries[out.slot].inum)
              && CreatedBy(old(fs.inodes), old(fs.disk), fs.inodes, fs.disk, old(ic.entries[d].inum), Canon(name),
                           ic.entries[out.slot].inum, Node(kind, major, minor))
  {
    hide Owned, Refs, Tree, Good, GraphOf, Content, Canon, DirMap, OneMore, Anchored, AllDotsFirst, CreatedBy,
      AnchoredBut, KeptBut, InCache, NoEntry,
      Crowded, FewMore, Covers;
    ghost var inodes0, e1 := fs.inodes, ic.entries;
    var dp := ic.entries[d].inum;
    InCacheMore(e0, e1, dp);
    OnlyFirst(fs.inodes);
    var got := Ialloc(fs, kind);
    if got.None? {
      return Panic;
    }
    var c := got.value;
    ghost var base := {InodeBlock(fs.g, c), InodeBlock(fs.g, dp), fs.g.bmapstart};
    ghost var logged1 := fs.logged;
    AllocKeeps(inodes0, fs.inodes, e1, c);
    var k := GetLocked(fs, ic, c);
    if k.None? {
      return Panic;
    }
    var r;
    if kind == T_DIR {
      r := MakeDir(fs, c, dp, name, major, minor, inodes0, base);
    } else {
      r := MakeFile(fs, c, dp, name, kind, major, minor, inodes0, base);
    }
    if r.None? {
      return Panic;
    }
    CreateFew(fs.g, old(fs.logged), logged1, fs.logged, InodeBlock(fs.g, c), InodeBlock(fs.g, dp),
              if kind == T_DIR then 6 else 2);
    ghost var e2 := ic.entries;
    CreatedKeeps(inodes0, old(fs.disk), fs.inodes, fs.disk, dp, Canon(name), c, Node(kind, major, minor), e0, e1, e2);
    PutBack(fs, ic, d, e0);
    OneOfTwo(e0, e2, ic.entries, dp, c);
    return Found(k.value);
  }

  lemma CreateFew(g: Geometry, was: set<nat>, one: set<nat>, now: set<nat>, a: nat, b: nat, k: nat)
    requires one == was + {a} && k <= 6 && FewMore(g, one + {a, b, g.bmapstart}, now + {a, b, g.bmapstart}, k)
    ensures FewMore(g, was, now, 9)
  {
    hide FewMore;
    var base := {a, b, g.bmapstart};
    ThreeAtMost(a, b, g.bmapstart);
    assert one + base == was + base;
    FewBased(g, was, now, base, k, 3);
    FewGrow(g, was, now, k + 3, 9);
  }

  /** There is one lowest free inode, or none. */
  lemma OnlyFirst(inodes: seq<Inode>)
    ensures forall c, d :: FirstFreeInode(inodes, c) && FirstFreeInode(inodes, d) ==> c == d
    ensures NoFreeInode(inodes) ==> forall c :: !FirstFreeInode(inodes, c)
  {
  }

  lemma AllocKeeps(inodes: seq<Inode>, inodes': seq<Inode>, entries: seq<Cached>, c: nat)
    requires && LiveCache(inodes, entries) && |inodes'| == |inodes|
             && forall j :: 0 <= j < |inodes| && inodes[j].kind != 0 ==> inodes'[j].kind == inodes[j].kind
    ensures LiveCache(inodes', entries)
  {
  }

  lemma CreatedKeeps(inodes: seq<Inode>, disk: seq<Block>, inodes': seq<Inode>, disk': seq<Block>, dp: nat, n: Name,
                     c: nat, x: Node,
                     e0: seq<Cached>, e1: seq<Cached>, e2: seq<Cached>)
    requires CreatedBy(inodes, disk, inodes', disk', dp, n, c, x) && x.kind != 0 && Good(GraphOf(inodes, disk))
    requires && Anchored(inodes, e0) && Pinned(e0, e1) && Pinned(e1, e2) && OneMore(e0, e1, dp) && OneMore(e1, e2, c)
             && LiveCache(inodes, e1) && OneEntry(e2)
    requires forall j ::
               0 <= j < NINODE && e2[j].ref > 0 ==>
                 e2[j].inum < |inodes| && (e2[j].valid ==> e2[j].inum == c || inodes[e2[j].inum].kind != 0)
    ensures && Anchored(inodes', e0) && AnchoredBut(inodes', e0, c) && LiveCache(inodes', e2) && TwoMore(e0, e2, dp, c)
            && OneMoreAt(e0, e2, dp) && Pinned(e0, e2)
    ensures |inodes'| == |inodes| && dp < |inodes| && inodes'[dp].kind != 0 && dp != c
  {
    hide Good, Refs, DirsOf, OneMore, TwoMore, KeptBut;
    AndOneMore(e0, e1, e2, dp, c);
    MoreOfTwo(e0, e2, dp, c);
    var g, g' := GraphOf(inodes, disk), GraphOf(inodes', disk');
    assert |g.nl| == |inodes|;
    assert g.isdir[dp] == (inodes[dp].kind == T_DIR);
    forall y | 0 <= y < |inodes| && y != c ensures inodes'[y].nlink == 0 ==> inodes[y].nlink == 0 {
      GoodCount(g, y);
      assert g'.nl[y] == inodes'[y].nlink && g.nl[y] == inodes[y].nlink;
    }
    assert g'.nl[c] == inodes'[c].nlink;
  }

  lemma MoreOfTwo(e0: seq<Cached>, e2: seq<Cached>, x: nat, y: nat)
    requires TwoMore(e0, e2, x, y)
    ensures OneMoreAt(e0, e2, x)
  {
    assert Refs(e2, x) == Refs(e0, x) + (if x == x then 1 else 0) + if x == y then 1 else 0;
  }

  /** create() of a name that is there already: a file is opened, anything else is an error. */
  method OpenFound(fs: FileSys, ic: ICache, d: nat, inum: nat, kind: int, ghost e0: seq<Cached>) returns (out: Outcome)
    requires fs.Valid() && LiveCache(fs.inodes, ic.entries) && inum < |fs.inodes|
    requires && d < NINODE && ic.entries[d].ref > 0 && OneEntry(e0) && Pinned(e0, ic.entries)
             && fs.inodes[ic.entries[d].inum].kind != 0
    requires Anchored(fs.inodes, e0) && OneMore(e0, ic.entries, ic.entries[d].inum)
    modifies ic, fs`disk, fs`inodes, fs`dinodes, fs`owner, fs`logged
    ensures && fs.inodes == old(fs.inodes) && fs.disk == old(fs.disk) && fs.dinodes == old(fs.dinodes)
            && fs.owner == old(fs.owner)
    ensures out.Panic? <==> NoEntry(InCache(e0) + {old(ic.entries[d].inum)}, inum) || fs.inodes[inum].kind == 0
    ensures fs.logged == old(fs.logged)
    ensures !out.Panic? ==> fs.Valid() && LiveCache(fs.inodes, ic.entries) && Pinned(e0, ic.entries)
    ensures out.Nothing? ==> SameRefs(e0, ic.entries) && !(kind == T_FILE && fs.inodes[inum].kind == T_FILE)
    ensures out.Found? ==>
              && kind == T_FILE && fs.inodes[inum].kind == T_FILE && out.slot < NINODE && ic.entries[out.slot].ref > 0
              && ic.entries[out.slot].inum == inum && OneMore(e0, ic.entries, inum)
  {
    hide Owned, Refs, OneMore, TwoMore, SameRefs, Anchored, InCache, NoEntry, Covers;
    ghost var e1, dp := ic.entries, ic.entries[d].inum;
    InCacheMore(e0, e1, dp);
    var next := ic.Iget(inum);
    if next.None? {
      return Panic;
    }
    ghost var e2 := ic.entries;
    AndOneMore(e0, e1, e2, dp, inum);
    MoreOfTwo(e0, e2, dp, inum);
    PutBack(fs, ic, d, e0);
    OneOfTwo(e0, e2, ic.entries, dp, inum);
    ghost var e3 := ic.entries;
    MoreThanBefore(e0, e3, inum);
    var ok := ic.Ilock(fs, next.value);
    if !ok {
      return Panic;
    }
    LockedMore(e0, e3, ic.entries, inum);
    if kind == T_FILE && fs.inodes[inum].kind == T_FILE {
      return Found(next.value);
    }
    ghost var e4 := ic.entries;
    PutBack(fs, ic, next.value, e0);
    BackToBefore(e0, e4, ic.entries, inum);
    return Nothing;
  }

  /** create(): dp and n are the directory and the name that the path leads to. */
  method Create(fs: FileSys, ic: ICache, path: seq<byte>, kind: int, major: int, minor: int, cwd: nat, buf: seq<byte>)
    returns (out: Outcome, ghost dp: nat, ghost n: Name)
    requires && fs.Valid() && Ready(fs.inodes, fs.disk, fs.dinodes, ic.entries, cwd) && IsString(path)
             && |buf| == DIRSIZ && kind != 0
    requires Good(GraphOf(fs.inodes, fs.disk))
    modifies ic, fs`disk, fs`inodes, fs`dinodes, fs`owner, fs`logged
    ensures out.Panic? <==>
              CreateStuck(old(fs.inodes), old(fs.disk), InCache(old(ic.entries)), old(ic.entries[cwd].inum), path,
                          kind, Room(fs.g, old(fs.owner)))
    ensures !out.Panic? ==>
              FewMore(fs.g, old(fs.logged), fs.logged, 9) && Room(fs.g, fs.owner) >= Room(fs.g, old(fs.owner)) - 3
    ensures !out.Panic? ==> Pinned(old(ic.entries), ic.entries)
    ensures !out.Panic? ==> fs.Valid() && Ready(fs.inodes, fs.disk, fs.dinodes, ic.entries, cwd)
    ensures !out.Panic? ==>
              (out.Nothing? <==>
                 CreateRefused(old(fs.inodes), old(fs.disk), Start(old(ic.entries), cwd, path), Elements(path), kind))
    ensures out.Nothing? ==>
              && fs.inodes == old(fs.inodes) && fs.dinodes == old(fs.dinodes) && fs.disk == old(fs.disk)
              && fs.owner == old(fs.owner)
              && SameRefs(old(ic.entries), ic.entries)
    ensures out.Found? ==>
              && out.slot < NINODE && |ic.entries| == NINODE && ic.entries[out.slot].ref > 0
              && OneMore(old(ic.entries), ic.entries, ic.entries[out.slot].inum)
              && Leads(old(fs.inodes), old(fs.disk), Start(old(ic.entries), cwd, path), Elements(path), true, dp)
              && Elements(path) != [] && n == Canon(Elements(path)[|Elements(path)| - 1]) && dp < old(|fs.inodes|)
              && var i := ic.entries[out.slot].inum;
                 if n in DirOf(old(fs.inodes), old(fs.disk), dp) then
                   && fs.inodes == old(fs.inodes) && fs.disk == old(fs.disk) && fs.owner == old(fs.owner)
                   && DirOf(old(fs.inodes), old(fs.disk), dp)[n] == i && kind == T_FILE && i < old(|fs.inodes|)
                   && old(fs.inodes)[i].kind == T_FILE
                 else CreatedBy(old(fs.inodes), old(fs.disk), fs.inodes, fs.disk, dp, n, i, Node(kind, major, minor))
  {
    hide Owned, Tree, Refs, Target, Elements, Canon, GraphOf, Good, Ready, Anchored, CreatedBy, DirMap,
      Content, IsDir, Unique, Finds, AnchoredBut, Unopenable, Child, InCache, NamexPanics, NodeStuck, FewMore, Covers,
      OneMore, SameRefs, Sane;
    FewOne(fs.g, fs.logged, 0);
    FewGrow(fs.g, fs.logged, fs.logged, 0, 9);
    dp, n := 0, [];
    ghost var e0 := ic.entries;
    ReadyFacts(fs.inodes, fs.disk, fs.dinodes, ic.entries, cwd);
    var name;
    out, name := Namex(fs, ic, path, cwd, true, buf);
    if out.Panic? {
      return;
    }
    if out.Nothing? {
      ReadyAgain(old(fs.inodes), fs.disk, fs.dinodes, e0, cwd, fs.inodes, fs.disk, fs.dinodes, ic.entries);
      return;
    }
    var d := out.slot;
    ParentIsDir(fs.inodes, fs.disk, Start(e0, cwd, path), Elements(path));
    dp, n := ic.entries[d].inum, Canon(name);
    DirFacts(fs.inodes, fs.disk, fs.dinodes, dp);
    assert DirOf(fs.inodes, fs.disk, dp) == DirMap(Content(fs.inodes, fs.disk, dp));
    SameUnopenable(fs.inodes, fs.disk, dp, name, Elements(path)[|Elements(path)| - 1], kind);
    SameNodeStuck(fs.inodes, fs.disk, InCache(e0), dp, name, Elements(path)[|Elements(path)| - 1], kind,
                  Room(fs.g, fs.owner));
    out := CreateIn(fs, ic, d, name, kind, major, minor, cwd, e0);
  }

  /** create() in the directory of entry d, from ilock(dp) on. */
  method CreateIn(fs: FileSys, ic: ICache, d: nat, name: seq<byte>, kind: int, major: int, minor: int,
                  ghost cwd: nat, ghost e0: seq<Cached>) returns (out: Outcome)
    requires && Sized(fs.inodes) && fs.Valid() && Ready(fs.inodes, fs.disk, fs.dinodes, e0, cwd)
             && Good(GraphOf(fs.inodes, fs.disk)) && LiveCache(fs.inodes, ic.entries)
    requires && d < NINODE && ic.entries[d].ref > 0 && OneEntry(e0) && Pinned(e0, ic.entries)
             && fs.inodes[ic.entries[d].inum].kind == T_DIR && |name| == DIRSIZ
    requires OneMore(e0, ic.entries, ic.entries[d].inum) && kind != 0
    modifies ic, fs`disk, fs`inodes, fs`dinodes, fs`owner, fs`logged
    ensures !out.Panic? ==> fs.Valid() && Ready(fs.inodes, fs.disk, fs.dinodes, ic.entries, cwd)
    ensures Tree(old(fs.inodes), old(fs.disk))
    ensures out.Panic? <==>
              NodeStuck(old(fs.inodes), old(fs.disk), InCache(e0), old(ic.entries[d].inum), name, kind,
                        Room(fs.g, old(fs.owner)))
    ensures !out.Panic? ==>
              FewMore(fs.g, old(fs.logged), fs.logged, 9) && Room(fs.g, fs.owner) >= Room(fs.g, old(fs.owner)) - 3
    ensures !out.Panic? ==>
              (out.Nothing? <==> Unopenable(old(fs.inodes), old(fs.disk), old(ic.entries[d].inum), name, kind))
    ensures out.Nothing? ==>
              && fs.inodes == old(fs.inodes) && fs.dinodes == old(fs.dinodes) && fs.disk == old(fs.disk)
              && fs.owner == old(fs.owner)
              && SameRefs(e0, ic.entries)
    ensures !out.Panic? ==> Pinned(e0, ic.entries)
    ensures out.Found? ==>
              && out.slot < NINODE && |ic.entries| == NINODE && ic.entries[out.slot].ref > 0
              && OneMore(e0, ic.entries, ic.entries[out.slot].inum)
              && var i, dp, n := ic.entries[out.slot].inum, old(ic.entries[d].inum), Canon(name);
                 var m := DirMap(old(Content(fs.inodes, fs.disk, ic.entries[d].inum)));
                 if n in m then
                   && fs.inodes == old(fs.inodes) && fs.disk == old(fs.disk) && fs.owner == old(fs.owner)
                   && m[n] == i && kind == T_FILE && i < old(|fs.inodes|) && old(fs.inodes)[i].kind == T_FILE
                 else CreatedBy(old(fs.inodes), old(fs.disk), fs.inodes, fs.disk, dp, n, i, Node(kind, major, minor))
  {
    hide Owned, Tree, Refs, Canon, GraphOf, Good, Ready, Anchored, CreatedBy, DirMap, Content, IsDir, Unique, Finds,
      AnchoredBut, OneMore, Sane, SameRefs, Child, NoFreeInode, InCache, NoEntry, NoSpace, FewMore, Covers;
    FewOne(fs.g, fs.logged, 0);
    FewGrow(fs.g, fs.logged, fs.logged, 0, 9);
    ReadyFacts(fs.inodes, fs.disk, fs.dinodes, e0, cwd);
    var dp := ic.entries[d].inum;
    ghost var e1 := ic.entries;
    var ok := ic.Ilock(fs, d);
    assert ok;
    LockedMore(e0, e1, ic.entries, dp);
    DirFacts(fs.inodes, fs.disk, fs.dinodes, dp);
    ghost var m := DirMap(Content(fs.inodes, fs.disk, dp));
    var found := Dirlookup(fs, dp, name);
    FindsIsLookup(Content(fs.inodes, fs.disk, dp), Canon(name), found);
    ChildIs(fs.inodes, fs.disk, dp, name);
    if found.Some? {
      NamedInode(fs.inodes, fs.disk, dp, Canon(name));
      out := OpenFound(fs, ic, d, found.value.0, kind, e0);
      if out.Nothing? {
        ReadyAgain(old(fs.inodes), fs.disk, fs.dinodes, e0, cwd, fs.inodes, fs.disk, fs.dinodes, ic.entries);
      } else if out.Found? {
        ReadyOpened(fs.inodes, fs.disk, fs.dinodes, e0, cwd, ic.entries, found.value.0);
      }
    } else {
      out := CreateNew(fs, ic, d, name, kind, major, minor, e0);
      if out.Found? {
        ReadyCreated(old(fs.inodes), old(fs.disk), old(fs.dinodes), e0, cwd, fs.inodes, fs.disk, fs.dinodes,
                     ic.entries, dp, Canon(name), ic.entries[out.slot].inum, Node(kind, major, minor));
      }
    }
  }

  lemma SameNodeStuck(inodes: seq<Inode>, disk: seq<Block>, used: set<nat>, dp: nat, name: seq<byte>, name': seq<byte>,
                      kind: int, room: int)
    requires Tree(inodes, disk) && dp < |inodes| && Canon(name) == Canon(name')
    ensures NodeStuck(inodes, disk, used, dp, name, kind, room) <==>
              NodeStuck(inodes, disk, used, dp, name', kind, room)
  {
    hide Tree, Canon, Child, NoSpace, NoFreeInode, FirstFreeInode;
    SameChild(inodes, disk, dp, name, name');
  }

  lemma SameUnopenable(inodes: seq<Inode>, disk: seq<Block>, dp: nat, name: seq<byte>, name': seq<byte>, kind: int)
    requires Tree(inodes, disk) && dp < |inodes| && Canon(name) == Canon(name')
    ensures Unopenable(inodes, disk, dp, name, kind) <==> Unopenable(inodes, disk, dp, name', kind)
  {
    hide Tree, Canon, Child;
    SameChild(inodes, disk, dp, name, name');
  }

  lemma NamedInode(inodes: seq<Inode>, disk: seq<Block>, dp: nat, n: Name)
    requires && Tree(inodes, disk) && Sized(inodes) && dp < |inodes| && inodes[dp].kind == T_DIR
             && n in DirMap(Content(inodes, disk, dp))
    ensures DirMap(Content(inodes, disk, dp))[n] < |inodes|
  {
    assert DirOk(inodes, disk, dp);
  }

  lemma ReadyOpened(inodes: seq<Inode>, disk: seq<Block>, dinodes: seq<Inode>, e: seq<Cached>, cwd: nat,
                    e': seq<Cached>, i: nat)
    requires Ready(inodes, disk, dinodes, e, cwd) && LiveCache(inodes, e') && OneMore(e, e', i) && Pinned(e, e')
    ensures Ready(inodes, disk, dinodes, e', cwd)
  {
    hide Sane, Refs;
    StillAnchored(inodes, e, e', i);
  }

  /** After a create the next call can start. */
  lemma ReadyCreated(inodes: seq<Inode>, disk: seq<Block>, dinodes: seq<Inode>, e: seq<Cached>, cwd: nat,
                     inodes': seq<Inode>, disk': seq<Block>, dinodes': seq<Inode>, e': seq<Cached>, dp: nat, n: Name,
                     c: nat, x: Node)
    requires && Ready(inodes, disk, dinodes, e, cwd) && Sane(inodes', disk', dinodes') && LiveCache(inodes', e')
             && Pinned(e, e')
    requires AnchoredBut(inodes', e, c) && OneMore(e, e', c) && x.kind != 0
    requires CreatedBy(inodes, disk, inodes', disk', dp, n, c, x)
    ensures Ready(inodes', disk', dinodes', e', cwd)
  {
    hide Tree, Refs, AllDotsFirst, IsEmpty, Good, DirsOf, KeptBut;
    var g, g' := GraphOf(inodes, disk), GraphOf(inodes', disk');
    assert |g.nl| == |inodes|;
    forall j | 0 <= j < |inodes'| ensures inodes'[j].nlink >= 0 {
      assert g'.nl[j] == inodes'[j].nlink && g.nl[j] == inodes[j].nlink;
    }
    forall y | 0 <= y < |inodes'| && inodes'[y].kind != 0 && inodes'[y].nlink == 0 ensures Refs(e', y) >= 1 {
      assert Refs(e', y) == Refs(e, y) + if y == c then 1 else 0;
    }
  }

  /** sys_mkdir() and sys_mknod() on their arguments: create(), and the new node is not kept open.  c is its inode. */
  method SysMake(fs: FileSys, ic: ICache, path: seq<byte>, kind: int, major: int, minor: int, cwd: nat, buf: seq<byte>)
    returns (r: Option<int>, ghost dp: nat, ghost n: Name, ghost c: nat)
    requires fs.Valid() && Ready(fs.inodes, fs.disk, fs.dinodes, ic.entries, cwd) && IsString(path) && |buf| == DIRSIZ
    requires Good(GraphOf(fs.inodes, fs.disk)) && kind != 0 && kind != T_FILE
    modifies ic, fs`disk, fs`inodes, fs`dinodes, fs`owner, fs`logged, fs`disk0, fs`dinodes0
    ensures r.None? <==>
              CreateStuck(old(fs.inodes), old(fs.disk), InCache(old(ic.entries)), old(ic.entries[cwd].inum), path,
                          kind, Room(fs.g, old(fs.owner)))
    ensures fs.disk0 == old(fs.disk) && fs.dinodes0 == old(fs.dinodes)
    ensures r.Some? && fs.g.size < BPB ==> |fs.logged| <= 9
    ensures r.Some? ==>
              && fs.Valid() && Ready(fs.inodes, fs.disk, fs.dinodes, ic.entries, cwd)
              && SameRefs(old(ic.entries), ic.entries)
              && Pinned(old(ic.entries), ic.entries) && Room(fs.g, fs.owner) >= Room(fs.g, old(fs.owner)) - 3
    ensures r.Some? ==>
              (r == Some(-1) <==>
                 CreateRefused(old(fs.inodes), old(fs.disk), Start(old(ic.entries), cwd, path), Elements(path), kind))
    ensures r == Some(-1) ==>
              && fs.inodes == old(fs.inodes) && fs.dinodes == old(fs.dinodes) && fs.disk == old(fs.disk)
              && fs.owner == old(fs.owner)
    ensures r.Some? && r != Some(-1) ==>
              && r == Some(0)
              && Leads(old(fs.inodes), old(fs.disk), Start(old(ic.entries), cwd, path), Elements(path), true, dp)
              && Elements(path) != [] && n == Canon(Elements(path)[|Elements(path)| - 1])
              && CreatedBy(old(fs.inodes), old(fs.disk), fs.inodes, fs.disk, dp, n, c, Node(kind, major, minor))
  {
    hide Owned, Refs, Target, Elements, Canon, GraphOf, Good, Ready, Anchored, CreatedBy, CreateStuck, CreateRefused,
      Leads, DirOf, InCache, FewMore, Covers, OneMore, SameRefs, Pinned, Start, OneMoreAt;
    c := 0;
    fs.BeginOp();
    ghost var e0 := ic.entries;
    var out;
    out, dp, n := Create(fs, ic, path, kind, major, minor, cwd, buf);
    if out.Panic? {
      return None, dp, n, c;
    }
    FewOfNone(fs.g, fs.logged, 9);
    if out.Nothing? {
      return Some(-1), dp, n, c;
    }
    c := ic.entries[out.slot].inum;
    ghost var e1 := ic.entries;
    MadeFacts(old(fs.inodes), old(fs.disk), old(fs.dinodes), e0, cwd, fs.inodes, fs.disk, fs.dinodes, e1, dp, n, c,
              Node(kind, major, minor));
    MoreThanBefore(e0, e1, c);
    PutBack(fs, ic, out.slot, e0);
    BackToBefore(e0, e1, ic.entries, c);
    ReadyPut(fs.inodes, fs.disk, fs.dinodes, e0, e1, ic.entries, cwd, old(fs.inodes), old(fs.disk), old(fs.dinodes));
    r := Some(0);
  }

  lemma MadeFacts(inodes: seq<Inode>, disk: seq<Block>, dinodes: seq<Inode>, e0: seq<Cached>, cwd: nat,
                  inodes': seq<Inode>, disk': seq<Block>, dinodes': seq<Inode>, e1: seq<Cached>, dp: nat, n: Name,
                  c: nat, x: Node)
    requires Ready(inodes, disk, dinodes, e0, cwd) && Ready(inodes', disk', dinodes', e1, cwd) && x.kind != 0
    requires CreatedBy(inodes, disk, inodes', disk', dp, n, c, x)
    ensures OneEntry(e0) && LiveCache(inodes', e1) && Anchored(inodes', e0) && |inodes'| == |inodes| && c < |inodes'|
    ensures inodes'[c].kind != 0
  {
    hide Good, Refs, DirsOf, KeptBut, Sane;
    var g, g' := GraphOf(inodes, disk), GraphOf(inodes', disk');
    assert |g.nl| == |inodes|;
    forall y | 0 <= y < |inodes'| && inodes'[y].kind != 0 && inodes'[y].nlink == 0 ensures Refs(e0, y) >= 1 {
      assert g'.nl[y] == inodes'[y].nlink && g.nl[y] == inodes[y].nlink;
      assert g.nl[c] == inodes[c].nlink;
    }
  }

  /** Between calls again, once the reference is given back. */
  lemma ReadyPut(inodes: seq<Inode>, disk: seq<Block>, dinodes: seq<Inode>, e0: seq<Cached>, e1: seq<Cached>,
                 e2: seq<Cached>, cwd: nat, inodes0: seq<Inode>, disk0: seq<Block>, dinodes0: seq<Inode>)
    requires Ready(inodes0, disk0, dinodes0, e0, cwd) && Ready(inodes, disk, dinodes, e1, cwd) && Pinned(e0, e1)
    requires LiveCache(inodes, e2) && Anchored(inodes, e0) && SameRefs(e0, e2) && Pinned(e0, e2)
    ensures Ready(inodes, disk, dinodes, e2, cwd)
  {
    hide Sane, Refs;
    StillAnchored(inodes, e0, e2, 0);
  }

  // --------------------------------------------------------------- the first state

  /** mkfs rounds the root directory's size up to a block that it has not always allocated: no hole appears exactly
      when the entries do not fill their last block. */
  lemma RootRounding(size: nat)
    ensures Extent((size / BSIZE + 1) * BSIZE) == Extent(size) <==> size % BSIZE != 0
  {
  }

  /** The image mkfs makes when it is given no files, except that the root directory's size is not rounded up. */
  method MakeRoot(fs: FileSys) returns (r: Option<int>)
    requires fs.Valid() && ROOTINO < |fs.inodes| <= 0x1_0000 && fs.dinodes == fs.inodes
    requires forall i :: 0 <= i < |fs.inodes| ==> fs.inodes[i] == NewInode(0, 0, 0, 0)
    modifies fs`disk, fs`inodes, fs`dinodes, fs`owner, fs`logged
    ensures r.None? <==> Room(fs.g, old(fs.owner)) < 1
    ensures r.Some? ==> Room(fs.g, fs.owner) == Room(fs.g, old(fs.owner)) - 1
    ensures r.Some? ==>
              && fs.Valid() && |fs.inodes| == old(|fs.inodes|) && Sane(fs.inodes, fs.disk, fs.dinodes)
              && Sized(fs.inodes)
              && Good(GraphOf(fs.inodes, fs.disk)) && fs.inodes[ROOTINO].kind == T_DIR
              && GraphOf(fs.inodes, fs.disk) == OnlyRoot(|fs.inodes|)
              && forall i :: 0 <= i < |fs.inodes| && i != ROOTINO ==> fs.inodes[i].kind == 0
  {
    hide Owned, Good, Sane, SaneBut, Content, DotsOf, Covers, FewMore;
    ghost var inodes0 := fs.inodes;
    fs.inodes := fs.inodes[ROOTINO := NewInode(T_DIR, 0, 0, 1)];
    SizeOnly(fs.g, inodes0, fs.disk, fs.inodes, fs.owner);
    fs.Iupdate(ROOTINO);
    RootBut(fs.inodes, fs.disk);
    r := MakeDots(fs, ROOTINO, ROOTINO, {InodeBlock(fs.g, ROOTINO), fs.g.bmapstart});
    if r.Some? {
      OnlyRootGood(|fs.inodes|);
    }
  }

  lemma RootBut(inodes: seq<Inode>, disk: seq<Block>)
    requires ROOTINO < |inodes| <= 0x1_0000 && inodes[ROOTINO] == NewInode(T_DIR, 0, 0, 1)
    requires forall i :: 0 <= i < |inodes| && i != ROOTINO ==> inodes[i] == NewInode(0, 0, 0, 0)
    ensures SaneBut(inodes, disk, inodes, ROOTINO) && Sized(inodes) && Content(inodes, disk, ROOTINO) == []
    ensures GraphOf(inodes, disk).(dirs := DirsOf(inodes, disk)[ROOTINO := DotsOf(ROOTINO, ROOTINO)]) ==
              OnlyRoot(|inodes|)
  {
    hide Content, HoleFree, Unique, DirMap, Whole, Named, Count, DotsOf;
    EmptyContent(inodes, disk, ROOTINO);
    assert Sized(inodes) && FreeEmpty(inodes);
    assert DirOk(inodes, disk, ROOTINO);
    var g, h := GraphOf(inodes, disk), OnlyRoot(|inodes|);
    assert KindsOf(inodes) == h.isdir && LinksOf(inodes) == h.nl;
    assert DirsOf(inodes, disk)[ROOTINO := DotsOf(ROOTINO, ROOTINO)] == h.dirs;
  }

  /** `p->cwd = namei("/")` of the first process, on that image: the calls can start. */
  method Boot(fs: FileSys) returns (ic: ICache, cwd: nat)
    requires && fs.Valid() && Sane(fs.inodes, fs.disk, fs.dinodes) && Sized(fs.inodes)
             && Good(GraphOf(fs.inodes, fs.disk)) && fs.inodes[ROOTINO].kind == T_DIR
    requires forall i :: 0 <= i < |fs.inodes| && i != ROOTINO ==> fs.inodes[i].kind == 0
    ensures fresh(ic) && Ready(fs.inodes, fs.disk, fs.dinodes, ic.entries, cwd) && ic.entries[cwd].inum == ROOTINO
    ensures forall x :: Refs(ic.entries, x) == if x == ROOTINO then 1 else 0
  {
    hide Owned, Good, Tree, AllDotsFirst, Refs;
    ic := new ICache();
    ghost var e0 := ic.entries;
    var r := ic.Iget(ROOTINO);
    if r.None? {
      NoneInUse(e0, 0);
      assert false;
    }
    cwd := r.value;
    forall j | 0 <= j < |fs.inodes| ensures fs.inodes[j].nlink >= 0 {
      GoodCount(GraphOf(fs.inodes, fs.disk), j);
      assert GraphOf(fs.inodes, fs.disk).nl[j] == fs.inodes[j].nlink;
    }
    forall k | 0 <= k < NINODE ensures e0[k].ref == 0 {
      NoneInUse(e0, k);
    }
  }

  /** With no references no entry is in use. */
  lemma NoneInUse(entries: seq<Cached>, k: nat)
    requires OneEntry(entries) && k < NINODE && forall x :: Refs(entries, x) == 0
    ensures entries[k].ref == 0
  {
    if entries[k].ref > 0 {
      RefsAt(entries, k);
    }
  }
}
