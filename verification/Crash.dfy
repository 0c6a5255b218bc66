/** The file system on the redo log.  The blocks that fs.c leaves are the disk's home blocks, with the inodes in
    theirs; an operation's changes are exactly in the blocks it logs.  So after a crash at any block write of its
    commit(), recovery leaves a file system with all of the operation's effects or with none. */
module Crash {
  import opened Common
  import opened Blocks
  import opened FreeMap
  import opened Ownership
  import opened Inodes
  import opened FileContents
  import opened Directory
  import opened Paths
  import opened LinkCounts
  import opened Links
  import opened Unlink
  import opened Create
  import opened InodeBlocks
  import opened Capacity
  import L = RedoLog
  import J = Log
  import R = LogReservation

  // --------------------------------------------------------------- the blocks of a file system

  /** What bread() returns: blocks of inodes have the inodes in them. */
  ghost function BlockOf(g: Geometry, disk: seq<Block>, dinodes: seq<Inode>, b: nat): (r: Block)
    requires b < |disk|
  {
    if g.inodestart <= b < g.bmapstart then PutInodes(disk[b], dinodes, IPB * (b - g.inodestart), IPB) else disk[b]
  }

  /** The home blocks, those outside the log area. */
  ghost function HomeOf(lg: L.Geometry, g: Geometry, disk: seq<Block>, dinodes: seq<Inode>): (h: L.Disk) {
    map b | 0 <= b < |disk| && !L.InLog(lg, b) :: BlockOf(g, disk, dinodes, b)
  }

  /** A disk with a file system on it and nothing in the log, which comes before the inodes. */
  ghost predicate OnDisk(d: L.Disk, lg: L.Geometry, g: Geometry, disk: seq<Block>, dinodes: seq<Inode>) {
    && L.WfDisk(d, lg) && L.Clean(d, lg) && lg.start + lg.size <= g.inodestart && LOGSIZE <= lg.size
    && L.Home(d, lg) == HomeOf(lg, g, disk, dinodes)
  }

  ghost predicate AllShorts(dinodes: seq<Inode>) {
    forall i :: 0 <= i < |dinodes| ==> Shorts(dinodes[i])
  }

  /** Blocks that are not logged are as they were. */
  lemma UnloggedSame(g: Geometry, disk: seq<Block>, dinodes: seq<Inode>, disk': seq<Block>, dinodes': seq<Inode>,
                     logged: set<nat>, b: nat)
    requires Covers(g, disk, disk', dinodes, dinodes', logged) && b < |disk| && b !in logged
    ensures BlockOf(g, disk', dinodes', b) == BlockOf(g, disk, dinodes, b)
  {
    hide PutInodes;
    assert BlockCovered(disk, disk', logged, b);
    if g.inodestart <= b < g.bmapstart {
      var first := IPB * (b - g.inodestart);
      forall i | first <= i < first + IPB && i < |dinodes| ensures dinodes'[i] == dinodes[i] {
        assert InodeBlock(g, i) == b;
        assert InodeCovered(g, dinodes, dinodes', logged, i);
      }
      PutInodesSame(disk[b], dinodes, dinodes', first, IPB);
    }
  }

  /** The transaction of an operation: the blocks it logged, in the order of the log, with their latest contents. */
  ghost function TxOf(g: Geometry, disk: seq<Block>, dinodes: seq<Inode>, blocks: seq<nat>): (tx: L.Tx)
    requires forall t :: 0 <= t < |blocks| ==> blocks[t] < |disk|
  {
    L.Tx(blocks, seq(|blocks|, t requires 0 <= t < |blocks| => BlockOf(g, disk, dinodes, blocks[t])))
  }

  /** An order in which the logged blocks can be in the log. */
  ghost predicate OrderOf(g: Geometry, blocks: seq<nat>, logged: set<nat>) {
    && L.Distinct(blocks) && |blocks| < LOGSIZE && J.Numbers(blocks) == logged
    && (forall t :: 0 <= t < |blocks| ==> Loggable(g, blocks[t]))
  }

  /** The changes of an operation are those of its transaction. */
  lemma TxInstalls(d: L.Disk, lg: L.Geometry, g: Geometry, disk: seq<Block>, dinodes: seq<Inode>, disk': seq<Block>,
                   dinodes': seq<Inode>, logged: set<nat>, blocks: seq<nat>)
    requires OnDisk(d, lg, g, disk, dinodes) && Covers(g, disk, disk', dinodes, dinodes', logged) && |disk| == g.size
    requires OrderOf(g, blocks, logged)
    ensures var tx := TxOf(g, disk', dinodes', blocks);
            && L.WfTx(d, lg, tx) && L.Overlay(L.Home(d, lg), tx.blocks, tx.data) == HomeOf(lg, g, disk', dinodes')
  {
    hide BlockOf, L.WfDisk, L.Clean;
    var tx := TxOf(g, disk', dinodes', blocks);
    var home, home' := HomeOf(lg, g, disk, dinodes), HomeOf(lg, g, disk', dinodes');
    forall t | 0 <= t < |blocks| ensures blocks[t] in d && !L.InLog(lg, blocks[t]) && blocks[t] in home {
      assert Loggable(g, blocks[t]);
      assert blocks[t] in L.Home(d, lg);
    }
    L.OverlayLookup(L.Home(d, lg), tx.blocks, tx.data);
    var over := L.Overlay(L.Home(d, lg), tx.blocks, tx.data);
    forall b: nat ensures (b in over <==> b in home') && (b in home' ==> over[b] == home'[b]) {
      if b in blocks {
        var t :| 0 <= t < |blocks| && blocks[t] == b;
        assert over[blocks[t]] == tx.data[t];
      } else if b < |disk| {
        assert b !in J.Numbers(blocks);
        UnloggedSame(g, disk, dinodes, disk', dinodes', logged, b);
      }
    }
    assert over == home';
  }

  // --------------------------------------------------------------- mounting a recovered disk

  /** The blocks that a file system reads from home blocks h. */
  ghost predicate Mounted(h: L.Disk, g: Geometry, disk: seq<Block>) {
    |disk| == g.size && forall b :: b in h && b < |disk| ==> disk[b] == h[b]
  }

  ghost function InodesOn(g: Geometry, disk: seq<Block>): (r: seq<Inode>)
    requires Sound(g) && |disk| == g.size
    ensures |r| == g.ninodes
  {
    seq(g.ninodes, i requires 0 <= i < g.ninodes => InodeOn(g, disk, i))
  }

  /** ilock()'s reading of inode i. */
  ghost function InodeOn(g: Geometry, disk: seq<Block>, i: nat): (x: Inode)
    requires Sound(g) && |disk| == g.size && i < g.ninodes
  {
    GetInode(disk[InodeBlock(g, i)], i % IPB)
  }

  /** Home blocks h hold the file system of disk and inodes: whoever mounts them reads those inodes, with every block
      held once and marked, and every file's contents. */
  ghost predicate Holds(h: L.Disk, g: Geometry, disk: seq<Block>, inodes: seq<Inode>, owner: map<nat, Slot>) {
    Sound(g) && forall m :: Mounted(h, g, m) ==> HoldsAs(g, m, disk, inodes, owner)
  }

  ghost predicate HoldsAs(g: Geometry, m: seq<Block>, disk: seq<Block>, inodes: seq<Inode>, owner: map<nat, Slot>)
    requires Sound(g) && |m| == g.size
  {
    && InodesOn(g, m) == inodes && Owned(g, inodes, m, {}, owner)
    && forall i :: 0 <= i < |inodes| && inodes[i].size <= MAXBYTES ==> Content(inodes, m, i) == Content(inodes, disk, i)
  }

  lemma ReadsBack(lg: L.Geometry, g: Geometry, disk: seq<Block>, inodes: seq<Inode>, owner: map<nat, Slot>)
    requires Owned(g, inodes, disk, {}, owner) && AllShorts(inodes) && lg.start + lg.size <= g.inodestart
    ensures Holds(HomeOf(lg, g, disk, inodes), g, disk, inodes, owner)
  {
    hide Owned, Content, PutInodes;
    var h := HomeOf(lg, g, disk, inodes);
    OwnedMeta(g, inodes, disk, {}, owner);
    forall m | Mounted(h, g, m) ensures HoldsAs(g, m, disk, inodes, owner) {
      forall i | 0 <= i < g.ninodes ensures InodeOn(g, m, i) == inodes[i] {
        InodeReadsBack(lg, g, disk, inodes, m, i);
      }
      assert InodesOn(g, m) == inodes;
      forall b | g.bmapstart <= b < g.size ensures m[b] == disk[b] {
        assert b in h && h[b] == BlockOf(g, disk, inodes, b);
      }
      SameFromMap(g, inodes, disk, m, owner);
    }
  }

  lemma InodeReadsBack(lg: L.Geometry, g: Geometry, disk: seq<Block>, inodes: seq<Inode>, m: seq<Block>, i: nat)
    requires Shaped(g, inodes, disk) && AllShorts(inodes) && lg.start + lg.size <= g.inodestart && i < |inodes|
    requires Mounted(HomeOf(lg, g, disk, inodes), g, m)
    ensures InodeOn(g, m, i) == inodes[i]
  {
    hide PutInodes, GetInode;
    var b := InodeBlock(g, i);
    var first := IPB * (b - g.inodestart);
    assert first + i % IPB == i && g.inodestart <= b < g.bmapstart;
    assert b in HomeOf(lg, g, disk, inodes);
    InodesAfterPut(disk[b], inodes, first, IPB, i % IPB);
  }

  /** The blocks from the map on are all that ownership and contents depend on. */
  lemma SameFromMap(g: Geometry, inodes: seq<Inode>, disk: seq<Block>, disk': seq<Block>, owner: map<nat, Slot>)
    requires Owned(g, inodes, disk, {}, owner) && |disk'| == |disk|
    requires forall b :: g.bmapstart <= b < g.size ==> disk'[b] == disk[b]
    ensures Owned(g, inodes, disk', {}, owner)
    ensures forall i ::
              0 <= i < |inodes| && inodes[i].size <= MAXBYTES ==>
                Content(inodes, disk', i) == Content(inodes, disk, i)
  {
    hide Word, Used, ByteAt;
    forall t | IsSlot(inodes, t)
      ensures At(inodes, disk', t) == At(inodes, disk, t) && SlotOk(inodes, disk', {}, owner, t)
    {
      if inodes[t.i].addrs[NDIRECT] != 0 {
        TopIsHeld(g, inodes, disk, {}, owner, t.i);
      }
      assert SlotOk(inodes, disk, {}, owner, t);
    }
    forall c | c in owner ensures BlockOk(g, inodes, disk', {}, owner, c) {
      assert BlockOk(g, inodes, disk, {}, owner, c);
    }
    forall c | 0 <= c < g.size ensures BitOk(g, disk', owner, c) {
      BitBlock(g, c);
      SameMapBlock(disk, disk', g.bmapstart, c);
      assert BitOk(g, disk, owner, c);
    }
    forall i, p | 0 <= i < |inodes| && 0 <= p < MAXBYTES
      ensures ByteAt(inodes, disk', i, p) == ByteAt(inodes, disk, i, p)
    {
      SameByteFromMap(g, inodes, disk, disk', owner, i, p);
    }
  }

  lemma SameByteFromMap(g: Geometry, inodes: seq<Inode>, disk: seq<Block>, disk': seq<Block>, owner: map<nat, Slot>,
                        i: nat, p: nat)
    requires Owned(g, inodes, disk, {}, owner) && |disk'| == |disk| && i < |inodes| && p < MAXBYTES
    requires forall b :: g.bmapstart <= b < g.size ==> disk'[b] == disk[b]
    ensures ByteAt(inodes, disk', i, p) == ByteAt(inodes, disk, i, p)
  {
    hide Word, Used;
    var t := DataSlot(i, p / BSIZE);
    if inodes[i].addrs[NDIRECT] != 0 {
      TopIsHeld(g, inodes, disk, {}, owner, i);
    }
    assert SlotOk(inodes, disk, {}, owner, t);
    var b := At(inodes, disk, t);
    if b != 0 {
      assert BlockOk(g, inodes, disk, {}, owner, b);
    }
  }

  // --------------------------------------------------------------- all or nothing

  /** A crash after cut block writes of the commit() of an operation, and a recovery: the home blocks hold the file
      system from before the operation, or the one it left if the header of its transaction was written. */
  ghost predicate Survives(d: L.Disk, lg: L.Geometry, g: Geometry, disk: seq<Block>, inodes: seq<Inode>,
                           owner: map<nat, Slot>, disk': seq<Block>, inodes': seq<Inode>, owner': map<nat, Slot>,
                           blocks: seq<nat>, cut: nat)
    requires && (forall t :: 0 <= t < |blocks| ==> blocks[t] < |disk'|) && L.WfDisk(d, lg)
             && L.WfTx(d, lg, TxOf(g, disk', inodes', blocks))
    requires L.Fits(blocks) && cut <= |L.CommitWrites(d, lg, TxOf(g, disk', inodes', blocks))|
  {
    var e := L.Apply(d, L.CommitWrites(d, lg, TxOf(g, disk', inodes', blocks))[..cut]);
    && L.WfDisk(e, lg)
    && var h := L.Home(L.Apply(e, L.RecoverWrites(e, lg)), lg);
       if cut > |blocks| then Holds(h, g, disk', inodes', owner') else Holds(h, g, disk, inodes, owner)
  }

  /** The operation from one file system to another is atomic, in whatever order its blocks are in the log. */
  ghost predicate Atomic(d: L.Disk, lg: L.Geometry, g: Geometry, disk: seq<Block>, inodes: seq<Inode>,
                         owner: map<nat, Slot>, disk': seq<Block>, inodes': seq<Inode>, owner': map<nat, Slot>,
                         logged: set<nat>) {
    forall blocks, cut: nat ::
      OrderOf(g, blocks, logged) ==> CutIsSafe(d, lg, g, disk, inodes, owner, disk', inodes', owner', blocks, cut)
  }

  ghost predicate CutIsSafe(d: L.Disk, lg: L.Geometry, g: Geometry, disk: seq<Block>, inodes: seq<Inode>,
                            owner: map<nat, Slot>, disk': seq<Block>, inodes': seq<Inode>, owner': map<nat, Slot>,
                            blocks: seq<nat>, cut: nat) {
    && (forall t :: 0 <= t < |blocks| ==> blocks[t] < |disk'|) && L.WfDisk(d, lg)
    && L.WfTx(d, lg, TxOf(g, disk', inodes', blocks))
    && L.Fits(blocks)
    && (cut <= |L.CommitWrites(d, lg, TxOf(g, disk', inodes', blocks))| ==>
          Survives(d, lg, g, disk, inodes, owner, disk', inodes', owner', blocks, cut))
  }

  lemma SafeCut(d: L.Disk, lg: L.Geometry, g: Geometry, disk: seq<Block>, inodes: seq<Inode>, owner: map<nat, Slot>,
                disk': seq<Block>, inodes': seq<Inode>, owner': map<nat, Slot>, logged: set<nat>, blocks: seq<nat>,
                cut: nat)
    requires && OnDisk(d, lg, g, disk, inodes) && Covers(g, disk, disk', inodes, inodes', logged)
             && OrderOf(g, blocks, logged)
    requires && Owned(g, inodes, disk, {}, owner) && Owned(g, inodes', disk', {}, owner') && AllShorts(inodes)
             && AllShorts(inodes')
    ensures CutIsSafe(d, lg, g, disk, inodes, owner, disk', inodes', owner', blocks, cut)
  {
    hide Owned, Covers, Holds, L.Apply, L.Home, L.Overlay, HomeOf, L.RecoverWrites, L.CommitWrites, L.Committed;
    OwnedMeta(g, inodes, disk, {}, owner);
    OwnedMeta(g, inodes', disk', {}, owner');
    TxInstalls(d, lg, g, disk, inodes, disk', inodes', logged, blocks);
    ReadsBack(lg, g, disk, inodes, owner);
    ReadsBack(lg, g, disk', inodes', owner');
    forall t | 0 <= t < |blocks| ensures blocks[t] < |disk'| {
      assert Loggable(g, blocks[t]);
    }
    var tx := TxOf(g, disk', inodes', blocks);
    if cut <= |L.CommitWrites(d, lg, tx)| {
      L.CommitCut(d, lg, tx, cut);
      var e := L.Apply(d, L.CommitWrites(d, lg, tx)[..cut]);
      var ws := L.RecoverWrites(e, lg);
      L.RecoverCut(e, lg, |ws|);
      assert ws[..|ws|] == ws;
    }
  }

  lemma AllOrNothing(d: L.Disk, lg: L.Geometry, g: Geometry, disk: seq<Block>, inodes: seq<Inode>,
                     owner: map<nat, Slot>, disk': seq<Block>, inodes': seq<Inode>, owner': map<nat, Slot>,
                     logged: set<nat>)
    requires OnDisk(d, lg, g, disk, inodes) && Covers(g, disk, disk', inodes, inodes', logged)
    requires && Owned(g, inodes, disk, {}, owner) && Owned(g, inodes', disk', {}, owner') && AllShorts(inodes)
             && AllShorts(inodes')
    ensures Atomic(d, lg, g, disk, inodes, owner, disk', inodes', owner', logged)
  {
    hide Owned, Covers, OnDisk, OrderOf, CutIsSafe;
    forall blocks, cut: nat | OrderOf(g, blocks, logged)
      ensures CutIsSafe(d, lg, g, disk, inodes, owner, disk', inodes', owner', blocks, cut)
    {
      SafeCut(d, lg, g, disk, inodes, owner, disk', inodes', owner', logged, blocks, cut);
    }
  }

  // --------------------------------------------------------------- the fields in 16 bits

  /** All link counts leave room for one more. */
  ghost predicate CountsLow(inodes: seq<Inode>) {
    forall i :: 0 <= i < |inodes| ==> 0 <= inodes[i].nlink < 0x7FFF
  }

  /** The data area has few enough blocks for every right count to fit in 16 bits, as one of FSSIZE blocks has. */
  predicate SmallDisk(g: Geometry) {
    PERBLOCK * (g.size - g.data) < 0x7FFF
  }

  lemma SmallCounts(g: Geometry, inodes: seq<Inode>, disk: seq<Block>, owner: map<nat, Slot>)
    requires Owned(g, inodes, disk, {}, owner) && Tree(inodes, disk) && Sized(inodes) && SmallDisk(g)
    requires Good(GraphOf(inodes, disk))
    ensures CountsLow(inodes)
  {
    hide Owned, Tree, Good, GraphOf;
    forall x | 0 <= x < |inodes| ensures 0 <= inodes[x].nlink < 0x7FFF {
      LinksFit(g, inodes, disk, owner, x);
    }
  }

  lemma UnlinkShorts(inodes: seq<Inode>, disk: seq<Block>, inodes': seq<Inode>, disk': seq<Block>,
                     owner': map<nat, Slot>, dp: nat, n: Name, refs: nat)
    requires UnlinkedBy(inodes, disk, inodes', disk', owner', dp, n, refs) && AllShorts(inodes)
    ensures AllShorts(inodes')
  {
    hide Good, DirsOf, KeptBut;
    var g, g' := GraphOf(inodes, disk), GraphOf(inodes', disk');
    forall j | 0 <= j < |inodes'| ensures Shorts(inodes'[j]) {
      assert Shorts(inodes[j]) && SameDevice(inodes[j], inodes'[j]);
      GoodCount(g', j);
      assert g'.nl[j] == inodes'[j].nlink && g.nl[j] == inodes[j].nlink;
    }
  }

  lemma LinkShorts(inodes: seq<Inode>, disk: seq<Block>, inodes': seq<Inode>, disk': seq<Block>, dp: nat, n: Name,
                   i: nat)
    requires LinkedBy(inodes, disk, inodes', disk', dp, n, i) && AllShorts(inodes) && CountsLow(inodes)
    ensures AllShorts(inodes')
  {
    hide Good, DirsOf, Content;
    var g, g' := GraphOf(inodes, disk), GraphOf(inodes', disk');
    forall j | 0 <= j < |inodes'| ensures Shorts(inodes'[j]) {
      assert Shorts(inodes[j]) && SameDevice(inodes[j], inodes'[j]);
      assert j != dp ==> KeptAt(inodes, disk, inodes', disk', j);
      assert g'.isdir[j] == (inodes'[j].kind == T_DIR) && g.isdir[j] == (inodes[j].kind == T_DIR);
      assert g'.nl[j] == inodes'[j].nlink && g.nl[j] == inodes[j].nlink;
    }
  }

  lemma CreateShorts(inodes: seq<Inode>, disk: seq<Block>, inodes': seq<Inode>, disk': seq<Block>, dp: nat, n: Name,
                     c: nat, x: Node)
    requires CreatedBy(inodes, disk, inodes', disk', dp, n, c, x) && AllShorts(inodes) && CountsLow(inodes)
    requires Short(x.kind) && Short(x.major) && Short(x.minor)
    ensures AllShorts(inodes')
  {
    hide Good, DirsOf, KeptBut;
    var g, g' := GraphOf(inodes, disk), GraphOf(inodes', disk');
    forall j | 0 <= j < |inodes'| ensures Shorts(inodes'[j]) {
      assert Shorts(inodes[j]) && (j != c ==> SameDevice(inodes[j], inodes'[j]));
      assert g'.nl[j] == inodes'[j].nlink && g.nl[j] == inodes[j].nlink;
    }
  }

  // --------------------------------------------------------------- the calls

  /** unlink() is atomic. */
  method UnlinkSurvives(fs: FileSys, ic: ICache, path: seq<byte>, cwd: nat, buf: seq<byte>, ghost d: L.Disk,
                        ghost lg: L.Geometry)
    returns (r: Option<int>, ghost dp: nat, ghost n: Name)
    requires fs.Valid() && Ready(fs.inodes, fs.disk, fs.dinodes, ic.entries, cwd) && IsString(path) && |buf| == DIRSIZ
    requires Good(GraphOf(fs.inodes, fs.disk)) && OnDisk(d, lg, fs.g, fs.disk, fs.dinodes) && AllShorts(fs.inodes)
    modifies ic, fs`disk, fs`inodes, fs`dinodes, fs`owner, fs`logged, fs`disk0, fs`dinodes0
    ensures r.Some? ==>
              && AllShorts(fs.inodes)
              && Atomic(d, lg, fs.g, old(fs.disk), old(fs.inodes), old(fs.owner), fs.disk, fs.inodes, fs.owner,
                        fs.logged)
    ensures r == Some(0) ==>
              && var g := GraphOf(old(fs.inodes), old(fs.disk));
                 && dp < |g.dirs| && n in g.dirs[dp]
                 && UnlinkedBy(old(fs.inodes), old(fs.disk), fs.inodes, fs.disk, fs.owner, dp, n,
                               Refs(old(ic.entries), g.dirs[dp][n]))
  {
    hide Owned, Covers, Good, GraphOf, Ready, UnlinkedBy, UnlinkStuck, UnlinkRefused, Refs, OnDisk, Atomic, InCache,
      AllShorts, Leads, SmallDisk, CountsLow;
    ReadyFacts(fs.inodes, fs.disk, fs.dinodes, ic.entries, cwd);
    r, dp, n := SysUnlink(fs, ic, path, cwd, buf);
    if r.Some? {
      if r == Some(0) {
        UnlinkShorts(old(fs.inodes), old(fs.disk), fs.inodes, fs.disk, fs.owner, dp, n,
                     Refs(old(ic.entries), GraphOf(old(fs.inodes), old(fs.disk)).dirs[dp][n]));
      }
      ReadyFacts(fs.inodes, fs.disk, fs.dinodes, ic.entries, cwd);
      AllOrNothing(d, lg, fs.g, old(fs.disk), old(fs.inodes), old(fs.owner), fs.disk, fs.inodes, fs.owner, fs.logged);
    }
  }

  /** link() is atomic. */
  method LinkSurvives(fs: FileSys, ic: ICache, oldPath: seq<byte>, newPath: seq<byte>, cwd: nat, buf: seq<byte>,
                      ghost d: L.Disk, ghost lg: L.Geometry)
    returns (r: Option<int>, ghost i: nat, ghost dp: nat, ghost n: Name)
    requires && fs.Valid() && Ready(fs.inodes, fs.disk, fs.dinodes, ic.entries, cwd) && IsString(oldPath)
             && IsString(newPath)
    requires && |buf| == DIRSIZ && Good(GraphOf(fs.inodes, fs.disk)) && OnDisk(d, lg, fs.g, fs.disk, fs.dinodes)
             && AllShorts(fs.inodes)
    modifies ic, fs`disk, fs`inodes, fs`dinodes, fs`owner, fs`logged, fs`disk0, fs`dinodes0
    ensures r.Some? && AllShorts(fs.inodes) ==>
              Atomic(d, lg, fs.g, old(fs.disk), old(fs.inodes), old(fs.owner), fs.disk, fs.inodes, fs.owner, fs.logged)
    ensures r.Some? && SmallDisk(fs.g) ==> AllShorts(fs.inodes)
    ensures r == Some(0) ==> LinkedBy(old(fs.inodes), old(fs.disk), fs.inodes, fs.disk, dp, n, i)
  {
    hide Owned, Covers, Good, GraphOf, Ready, LinkedBy, LinkStuck, LinkRefused, Refs, OnDisk, Atomic, InCache,
      AllShorts, Leads, SmallDisk, CountsLow;
    ReadyFacts(fs.inodes, fs.disk, fs.dinodes, ic.entries, cwd);
    r, i, dp, n := SysLink(fs, ic, oldPath, newPath, cwd, buf);
    if r == Some(0) && SmallDisk(fs.g) {
      SmallCounts(fs.g, old(fs.inodes), old(fs.disk), old(fs.owner));
      LinkShorts(old(fs.inodes), old(fs.disk), fs.inodes, fs.disk, dp, n, i);
    }
    if r.Some? && AllShorts(fs.inodes) {
      ReadyFacts(fs.inodes, fs.disk, fs.dinodes, ic.entries, cwd);
      AllOrNothing(d, lg, fs.g, old(fs.disk), old(fs.inodes), old(fs.owner), fs.disk, fs.inodes, fs.owner, fs.logged);
    }
  }

  /** mkdir() and mknod() are atomic. */
  method MakeSurvives(fs: FileSys, ic: ICache, path: seq<byte>, kind: int, major: int, minor: int, cwd: nat,
                      buf: seq<byte>, ghost d: L.Disk, ghost lg: L.Geometry)
    returns (r: Option<int>, ghost dp: nat, ghost n: Name, ghost c: nat)
    requires fs.Valid() && Ready(fs.inodes, fs.disk, fs.dinodes, ic.entries, cwd) && IsString(path) && |buf| == DIRSIZ
    requires Good(GraphOf(fs.inodes, fs.disk)) && kind != 0 && kind != T_FILE
    requires OnDisk(d, lg, fs.g, fs.disk, fs.dinodes) && AllShorts(fs.inodes)
    modifies ic, fs`disk, fs`inodes, fs`dinodes, fs`owner, fs`logged, fs`disk0, fs`dinodes0
    ensures r.Some? && AllShorts(fs.inodes) ==>
              Atomic(d, lg, fs.g, old(fs.disk), old(fs.inodes), old(fs.owner), fs.disk, fs.inodes, fs.owner, fs.logged)
    ensures r.Some? && SmallDisk(fs.g) && Short(kind) && Short(major) && Short(minor) ==> AllShorts(fs.inodes)
    ensures r == Some(0) ==>
              CreatedBy(old(fs.inodes), old(fs.disk), fs.inodes, fs.disk, dp, n, c, Node(kind, major, minor))
  {
    hide Owned, Covers, Good, GraphOf, Ready, CreatedBy, CreateStuck, CreateRefused, Refs, OnDisk, Atomic, InCache,
      AllShorts, Leads, SmallDisk, CountsLow;
    ReadyFacts(fs.inodes, fs.disk, fs.dinodes, ic.entries, cwd);
    r, dp, n, c := SysMake(fs, ic, path, kind, major, minor, cwd, buf);
    if r == Some(0) && SmallDisk(fs.g) && Short(kind) && Short(major) && Short(minor) {
      SmallCounts(fs.g, old(fs.inodes), old(fs.disk), old(fs.owner));
      CreateShorts(old(fs.inodes), old(fs.disk), fs.inodes, fs.disk, dp, n, c, Node(kind, major, minor));
    }
    if r.Some? && AllShorts(fs.inodes) {
      ReadyFacts(fs.inodes, fs.disk, fs.dinodes, ic.entries, cwd);
      AllOrNothing(d, lg, fs.g, old(fs.disk), old(fs.inodes), old(fs.owner), fs.disk, fs.inodes, fs.owner, fs.logged);
    }
  }

  /** open() with O_CREATE is atomic: begin_op() and create(), after which nothing on the disk changes. */
  method OpenSurvives(fs: FileSys, ic: ICache, path: seq<byte>, cwd: nat, buf: seq<byte>, ghost d: L.Disk,
                      ghost lg: L.Geometry)
    returns (out: Outcome, ghost dp: nat, ghost n: Name)
    requires fs.Valid() && Ready(fs.inodes, fs.disk, fs.dinodes, ic.entries, cwd) && IsString(path) && |buf| == DIRSIZ
    requires Good(GraphOf(fs.inodes, fs.disk)) && OnDisk(d, lg, fs.g, fs.disk, fs.dinodes) && AllShorts(fs.inodes)
    modifies ic, fs`disk, fs`inodes, fs`dinodes, fs`owner, fs`logged, fs`disk0, fs`dinodes0
    ensures !out.Panic? && AllShorts(fs.inodes) ==>
              Atomic(d, lg, fs.g, old(fs.disk), old(fs.inodes), old(fs.owner), fs.disk, fs.inodes, fs.owner, fs.logged)
    ensures !out.Panic? && SmallDisk(fs.g) ==> AllShorts(fs.inodes)
    ensures !out.Panic? && fs.g.size < BPB ==> |fs.logged| <= 9
    ensures out.Found? ==>
              && Sized(old(fs.inodes)) && dp < old(|fs.inodes|) && out.slot < NINODE && |ic.entries| == NINODE
              && var c := ic.entries[out.slot].inum;
                 if n in DirOf(old(fs.inodes), old(fs.disk), dp) then
                   && fs.inodes == old(fs.inodes) && fs.disk == old(fs.disk) && c < |fs.inodes|
                   && DirOf(old(fs.inodes), old(fs.disk), dp)[n] == c && fs.inodes[c].kind == T_FILE
                 else CreatedBy(old(fs.inodes), old(fs.disk), fs.inodes, fs.disk, dp, n, c, Node(T_FILE, 0, 0))
  {
    hide Owned, Covers, Good, GraphOf, Ready, CreatedBy, CreateStuck, CreateRefused, Refs, OnDisk, Atomic, InCache,
      AllShorts, Leads, DirOf, OneMore, Pinned, FewMore, SmallDisk, CountsLow;
    ReadyFacts(fs.inodes, fs.disk, fs.dinodes, ic.entries, cwd);
    fs.BeginOp();
    out, dp, n := Create.Create(fs, ic, path, T_FILE, 0, 0, cwd, buf);
    if out.Panic? {
      return;
    }
    FewOfNone(fs.g, fs.logged, 9);
    ReadyFacts(fs.inodes, fs.disk, fs.dinodes, ic.entries, cwd);
    if out.Found? && SmallDisk(fs.g) && n !in DirOf(old(fs.inodes), old(fs.disk), dp) {
      SmallCounts(fs.g, old(fs.inodes), old(fs.disk), old(fs.owner));
      CreateShorts(old(fs.inodes), old(fs.disk), fs.inodes, fs.disk, dp, n, ic.entries[out.slot].inum,
                   Node(T_FILE, 0, 0));
    }
    if AllShorts(fs.inodes) {
      AllOrNothing(d, lg, fs.g, old(fs.disk), old(fs.inodes), old(fs.owner), fs.disk, fs.inodes, fs.owner, fs.logged);
    }
  }

  /** A chunk of a write is atomic. */
  method ChunkSurvives(fs: FileSys, i: nat, src: seq<byte>, off: uint32, ghost d: L.Disk, ghost lg: L.Geometry)
    returns (r: Option<int>)
    requires fs.Valid() && i < |fs.inodes| && Sized(fs.inodes) && |src| <= MAXCHUNK && fs.inodes[i].kind != T_DEV
    requires && HoleFree(fs.inodes, fs.disk, i) && fs.dinodes == fs.inodes && OnDisk(d, lg, fs.g, fs.disk, fs.dinodes)
             && AllShorts(fs.inodes)
    modifies fs`disk, fs`inodes, fs`dinodes, fs`owner, fs`logged, fs`disk0, fs`dinodes0
    ensures r.Some? ==>
              Atomic(d, lg, fs.g, old(fs.disk), old(fs.inodes), old(fs.owner), fs.disk, fs.inodes, fs.owner,
                     fs.logged)
    ensures r.Some? && r != Some(-1) ==>
              && i < |fs.inodes| && fs.inodes[i].size <= MAXBYTES && off <= old(fs.inodes[i].size)
              && Content(fs.inodes, fs.disk, i) == Splice(old(Content(fs.inodes, fs.disk, i)), off, src)
  {
    hide Owned, Covers, HoleFree, Content, Splice, OnDisk, Atomic, Needs, EndBlock, Grown, TopGrown, Full;
    r := WriteChunk(fs, i, src, off);
    if r.Some? {
      AllOrNothing(d, lg, fs.g, old(fs.disk), old(fs.inodes), old(fs.owner), fs.disk, fs.inodes, fs.owner, fs.logged);
    }
  }

  /** A chunk of a write logs few enough blocks for the reservation of begin_op(): in whatever order it logs them it
      stays within the limit under which log_write() never panics. */
  lemma ChunkReserved(g: Geometry, inodes: seq<Inode>, disk: seq<Block>, i: nat, off: nat, n: nat, logged: set<nat>,
                      s: R.State, op: nat, blk: nat)
    requires i < |inodes| && n <= MAXCHUNK && EndBlock(off, n) <= MAXFILE && g.size < BPB
    requires forall c ::
               c in logged ==>
                 c == InodeBlock(g, i) || Mine(g, inodes, disk, i, off / BSIZE, EndBlock(off, n), c)
    requires op < |s.ops| && s.ops[op] <= logged && blk in logged
    ensures R.Enabled(s, R.LogWrite(op, blk), MAXOPBLOCKS - 1)
  {
    hide Mine, EndBlock;
    ChunkLogs(g, inodes, disk, i, off, n, logged);
    R.WithinLimit(s, op, blk, logged, MAXOPBLOCKS - 1);
  }

  // --------------------------------------------------------------- on the log itself

  /** end_op() of the only operation, once its changes are in the cache: the blocks it writes are a transaction of that
      operation, so the calls above are about them. */
  method EndsAtomically(l: J.Log, g: Geometry, ghost disk: seq<Block>, ghost inodes: seq<Inode>,
                        ghost owner: map<nat, Slot>, ghost disk': seq<Block>, ghost inodes': seq<Inode>,
                        ghost owner': map<nat, Slot>, ghost logged: set<nat>)
    requires l.Serving() && |l.ops| == 1 && l.cache.Idle() && l.n < LOGSIZE
    requires OnDisk(l.cache.disk, l.g, g, disk, inodes) && L.Home(l.cache.view, l.g) == HomeOf(l.g, g, disk', inodes')
    requires Covers(g, disk, disk', inodes, inodes', logged) && J.Numbers(l.Blocks()) == logged && |disk'| == g.size
    requires Atomic(l.cache.disk, l.g, g, disk, inodes, owner, disk', inodes', owner', logged)
    modifies l`n, l`outstanding, l`committing, l`ops, l`waiting, l`states, l`steps, l.cache, l.cache.bufs
    ensures && l.Serving() && OrderOf(g, old(l.Blocks()), logged)
            && forall t :: 0 <= t < |old(l.Blocks())| ==> old(l.Blocks())[t] < |disk'|
    ensures L.WfDisk(old(l.cache.disk), l.g) && L.WfTx(old(l.cache.disk), l.g, TxOf(g, disk', inodes', old(l.Blocks())))
    ensures L.Fits(old(l.Blocks()))
    ensures l.cache.trace ==
              old(l.cache.trace) + L.CommitWrites(old(l.cache.disk), l.g, TxOf(g, disk', inodes', old(l.Blocks())))
    ensures forall cut: nat ::
              CutIsSafe(old(l.cache.disk), l.g, g, disk, inodes, owner, disk', inodes', owner', old(l.Blocks()), cut)
  {
    hide OnDisk, Covers, L.Home, L.CommitWrites, L.Apply, HomeOf, CutIsSafe, Owned;
    ghost var blocks := l.Blocks();
    LoggedOrder(l, g, disk, disk', inodes, inodes', logged);
    assert CutIsSafe(l.cache.disk, l.g, g, disk, inodes, owner, disk', inodes', owner', blocks, 0);
    SafeShape(l.cache.disk, l.g, g, disk, inodes, owner, disk', inodes', owner', blocks);
    SameTx(l, g, disk', inodes');
    l.EndOp(0);
  }

  lemma SafeShape(d: L.Disk, lg: L.Geometry, g: Geometry, disk: seq<Block>, inodes: seq<Inode>, owner: map<nat, Slot>,
                  disk': seq<Block>, inodes': seq<Inode>, owner': map<nat, Slot>, blocks: seq<nat>)
    requires CutIsSafe(d, lg, g, disk, inodes, owner, disk', inodes', owner', blocks, 0)
    ensures && (forall t :: 0 <= t < |blocks| ==> blocks[t] < |disk'|) && L.WfDisk(d, lg)
            && L.WfTx(d, lg, TxOf(g, disk', inodes', blocks))
    ensures L.Fits(blocks)
  {
    hide Survives;
  }

  lemma LoggedOrder(l: J.Log, g: Geometry, disk: seq<Block>, disk': seq<Block>, inodes: seq<Inode>, inodes': seq<Inode>,
                    logged: set<nat>)
    requires && l.Serving() && l.n < LOGSIZE && Covers(g, disk, disk', inodes, inodes', logged)
             && J.Numbers(l.Blocks()) == logged
    ensures OrderOf(g, l.Blocks(), logged)
  {
    var blocks := l.Blocks();
    forall t | 0 <= t < |blocks| ensures Loggable(g, blocks[t]) {
      assert blocks[t] in J.Numbers(blocks);
    }
  }

  lemma SameTx(l: J.Log, g: Geometry, disk: seq<Block>, inodes: seq<Inode>)
    requires l.Serving() && L.Home(l.cache.view, l.g) == HomeOf(l.g, g, disk, inodes) && |disk| == g.size
    requires forall t :: 0 <= t < |l.Blocks()| ==> l.Blocks()[t] < |disk|
    ensures forall t :: 0 <= t < |l.Blocks()| ==> l.Blocks()[t] in l.cache.view
    ensures L.Tx(l.Blocks(), J.Latest(l.cache.view, l.Blocks())) == TxOf(g, disk, inodes, l.Blocks())
  {
    hide BlockOf;
    var blocks, home := l.Blocks(), HomeOf(l.g, g, disk, inodes);
    forall t | 0 <= t < |blocks|
      ensures blocks[t] in l.cache.view && l.cache.view[blocks[t]] == BlockOf(g, disk, inodes, blocks[t])
    {
      assert blocks[t] in home && home[blocks[t]] == L.Home(l.cache.view, l.g)[blocks[t]];
    }
    assert J.Latest(l.cache.view, blocks) == TxOf(g, disk, inodes, blocks).data;
  }
}
