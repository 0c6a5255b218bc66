/**
  A directory that is unlinked while a process still has it as its working directory: a run of the file system from its
  first state to there, and what goes wrong afterwards.  Its ".." comes to name a freed inode, on which namex() panics,
  and what is created in it is not counted.
 */
module Orphans {
  import opened Common
  import opened Blocks
  import opened Ownership
  import opened Inodes
  import opened FileContents
  import opened Directory
  import opened Paths
  import opened LinkCounts
  import opened Links
  import opened Unlink
  import opened Create

  const A: Name := [97]
  const B: Name := [98]
  const X: Name := [120]

  /** The paths "a", "a/b", "x" and "../x". */
  lemma PathElements()
    ensures && Elements([97]) == [A] && Elements([97, 47, 98]) == [A, B] && Elements([120]) == [X]
            && Elements([46, 46, 47, 120]) == [DOTDOT, X]
    ensures Canon(A) == A && Canon(B) == B && Canon(X) == X && Canon(DOTDOT) == DOTDOT
  {
    OneElement(97);
    OneElement(98);
    OneElement(120);
    Slashed([97], [98]);
    Slashed([46, 46], [120]);
    ShortName(A);
    ShortName(B);
    ShortName(X);
    ShortName(DOTDOT);
    assert [97, 47, 98] == [97] + [SLASH] + [98] && [46, 46, 47, 120] == [46, 46] + [SLASH] + [120];
  }

  lemma {:induction false} WholeElement(e: seq<byte>, rest: seq<byte>)
    requires SLASH !in e && (rest == [] || rest[0] == SLASH)
    ensures ElemLen(e + rest) == |e|
  {
    if e == [] {
      assert e + rest == rest;
    } else {
      assert (e + rest)[1..] == e[1..] + rest;
      WholeElement(e[1..], rest);
    }
  }

  lemma OneElement(x: byte)
    requires x != SLASH
    ensures Elements([x]) == [[x]]
  {
    var e: seq<byte> := [x];
    assert e + [] == e;
    WholeElement(e, []);
    assert SkipSlashes(e) == e && e[..1] == e && e[1..] == [];
    assert Elements([]) == [];
  }

  lemma Slashed(e: seq<byte>, f: seq<byte>)
    requires e != [] && f != [] && SLASH !in e && SLASH !in f
    ensures Elements(e + [SLASH] + f) == [e] + Elements(f)
  {
    var p, rest := e + [SLASH] + f, [SLASH] + f;
    assert p == e + rest;
    WholeElement(e, rest);
    assert SkipSlashes(p) == p && p[..|e|] == e && p[|e|..] == rest;
    ElementsOfRest(p);
    assert rest[1..] == f && SkipSlashes(f) == f;
  }

  lemma {:induction false} ShortCut(s: seq<byte>, n: nat)
    requires |s| <= n && 0 !in s
    ensures Cut(s, n) == s
  {
    if s != [] {
      ShortCut(s[1..], n - 1);
    }
  }

  lemma ShortName(s: seq<byte>)
    requires |s| <= DIRSIZ && 0 !in s
    ensures Canon(s) == s
  {
    ShortCut(s, DIRSIZ);
  }

  // --------------------------------------------------------------- looking up and making room

  /** What a directory has under a name, by the graph. */
  lemma ByGraph(inodes: seq<Inode>, disk: seq<Block>, d: nat, name: seq<byte>)
    requires Tree(inodes, disk) && Sized(inodes) && d < |inodes| && inodes[d].kind == T_DIR
    ensures var m := GraphOf(inodes, disk).dirs[d];
            && m == DirOf(inodes, disk, d)
            && (Child(inodes, disk, d, name).Some? <==> Canon(name) in m)
            && (Canon(name) in m ==> Child(inodes, disk, d, name) == Some(m[Canon(name)]))
  {
    hide Tree, Canon, Child, DirMap, Content;
    ChildIs(inodes, disk, d, name);
  }

  lemma OneStep(inodes: seq<Inode>, disk: seq<Block>, used: set<nat>, d: nat, e: seq<byte>)
    requires Tree(inodes, disk) && d < |inodes| && inodes[d].kind == T_DIR
    ensures Target(inodes, disk, d, [e], true) == Some(d) && !WalkPanics(inodes, disk, used, d, [e], true)
  {
    hide Tree, Child;
    assert [e][..0] == [];
  }

  lemma TwoSteps(inodes: seq<Inode>, disk: seq<Block>, used: set<nat>, d: nat, e: seq<byte>, f: seq<byte>, n: nat)
    requires Tree(inodes, disk) && d < |inodes| && inodes[d].kind == T_DIR && n < |inodes| && inodes[n].kind == T_DIR
    requires Child(inodes, disk, d, e) == Some(n) && |used| + 1 < NINODE
    ensures Target(inodes, disk, d, [e, f], true) == Some(n) && !WalkPanics(inodes, disk, used, d, [e, f], true)
  {
    hide Tree, Child;
    var es := [e, f];
    assert es[1..] == [f];
    TargetStep(inodes, disk, d, es, true);
    OneStep(inodes, disk, used, n, f);
  }

  lemma Roomy(inodes: seq<Inode>, disk: seq<Block>, d: nat, room: int)
    requires Tree(inodes, disk) && Sized(inodes) && d < |inodes| && inodes[d].kind == T_DIR && room >= 2
    requires |DirOf(inodes, disk, d).Keys| <= 3
    ensures !Crowded(inodes, disk, d, room)
  {
    hide Content, DirMap, Unique, Crowded;
    assert DirOk(inodes, disk, d);
    NotCrowded(inodes, disk, d, room);
  }

  /** The inodes from 1 to m are directories, and the others are free. */
  ghost predicate DirsUpto(inodes: seq<Inode>, m: nat) {
    m < |inodes| && forall i :: 1 <= i < |inodes| ==> inodes[i].kind == if i < m then T_DIR else 0
  }

  lemma LowestIs(inodes: seq<Inode>, m: nat, c: nat)
    requires DirsUpto(inodes, m) && 1 <= m
    ensures !NoFreeInode(inodes) && (FirstFreeInode(inodes, c) ==> c == m)
  {
    assert inodes[m].kind == 0;
  }

  lemma FewEntries(entries: seq<Cached>, most: set<nat>)
    requires OneEntry(entries) && forall x :: Refs(entries, x) > 0 ==> x in most
    ensures InCache(entries) <= most
  {
    hide InCache, Refs;
    forall x | x in InCache(entries) ensures x in most {
      InCacheIs(entries, x);
    }
  }

  lemma NeverFull(used: set<nat>, d: nat, n: nat)
    requires |used| <= 3
    ensures !NoEntry(used + {d}, n)
  {
    UnionSize(used, {d});
  }

  // --------------------------------------------------------------- the graphs of the run

  /** After mkdir "a", then mkdir "a/b", then unlink "a/b". */
  ghost function MadeA(m: nat): (g: Graph)
    requires m > 4
    ensures Shape(g) && |g.nl| == m && g.nl[1] == 2 && g.nl[2] == 1
    ensures g.dirs[1] == Put(DotsOf(1, 1), A, 2) && g.dirs[2] == DotsOf(2, 1)
  {
    Made(OnlyRoot(m), 1, A, 2)
  }

  ghost function MadeB(m: nat): (g: Graph)
    requires m > 4
    ensures Shape(g) && |g.nl| == m && g.nl[1] == 2 && g.nl[2] == 2 && g.nl[3] == 1 && g.isdir[2] && g.isdir[3]
    ensures g.dirs[1] == Put(DotsOf(1, 1), A, 2) && g.dirs[2] == Put(DotsOf(2, 1), B, 3) && g.dirs[3] == DotsOf(3, 2)
  {
    Made(MadeA(m), 2, B, 3)
  }

  ghost function LostB(m: nat): (g: Graph)
    requires m > 4
    ensures Shape(g) && |g.nl| == m && g.nl[1] == 2 && g.nl[2] == 1 && g.nl[3] == 0 && g.isdir[2] && g.isdir[3]
    ensures g.dirs[1] == Put(DotsOf(1, 1), A, 2) && g.dirs[2].Keys == {DOT, DOTDOT} && g.dirs[3] == DotsOf(3, 2)
  {
    assert B != DOT && B != DOTDOT;
    RemovedDir(MadeB(m), 2, B)
  }

  /** No directory of the run has more than three names. */
  lemma FewNames(c: nat, dp: nat, n: Name, i: nat)
    ensures |DotsOf(c, dp).Keys| <= 3 && |Put(DotsOf(c, dp), n, i).Keys| <= 3
  {
    var three := {DOT, DOTDOT, n};
    assert Put(DotsOf(c, dp), n, i).Keys <= three && DotsOf(c, dp).Keys <= three;
    assert |three| <= 3 by {
      assert three - {n} <= {DOT, DOTDOT};
    }
    SubsetSize(Put(DotsOf(c, dp), n, i).Keys, three);
    SubsetSize(DotsOf(c, dp).Keys, three);
  }

  // --------------------------------------------------------------- the run

  /** Between calls, with right counts: the graph of directories is gr, inodes 1 to m are the directories, root is the
      cache entry of the root, and besides it there is a reference to n, if n is not 0. */
  ghost predicate Stage(inodes: seq<Inode>, disk: seq<Block>, dinodes: seq<Inode>, entries: seq<Cached>, root: nat,
                        gr: Graph, m: nat, n: nat) {
    && Ready(inodes, disk, dinodes, entries, root) && entries[root].inum == ROOTINO && Sized(inodes)
    && GraphOf(inodes, disk) == gr && Good(gr) && DirsUpto(inodes, m) && Holding(entries, n)
  }

  ghost predicate Holding(entries: seq<Cached>, n: nat) {
    forall x :: Refs(entries, x) == (if x == ROOTINO then 1 else 0) + if x == n != 0 then 1 else 0
  }

  lemma StageFacts(inodes: seq<Inode>, disk: seq<Block>, dinodes: seq<Inode>, entries: seq<Cached>, root: nat,
                   gr: Graph, m: nat, n: nat)
    requires Stage(inodes, disk, dinodes, entries, root, gr, m, n)
    ensures && Tree(inodes, disk) && Sized(inodes) && ROOTINO < |inodes| && GraphOf(inodes, disk) == gr
            && DirsUpto(inodes, m) && OneEntry(entries)
            && root < |entries| && entries[root].inum == ROOTINO && entries[root].ref > 0 && |InCache(entries)| <= 3
            && Start(entries, root, [97]) == ROOTINO && Start(entries, root, [97, 47, 98]) == ROOTINO
  {
    hide Refs, GraphOf, Good, Tree, AllDotsFirst, InCache, Anchored;
    ReadyFacts(inodes, disk, dinodes, entries, root);
    FewEntries(entries, {ROOTINO, n});
    SubsetSize(InCache(entries), {ROOTINO, n});
  }

  /** A new name in directory dp, which the path leads to, is neither refused nor stuck. */
  lemma CanCreate(inodes: seq<Inode>, disk: seq<Block>, used: set<nat>, cwd: nat, path: seq<byte>, dp: nat, kind: int,
                  room: int, m: nat)
    requires && Tree(inodes, disk) && Sized(inodes) && From(cwd, path) < |inodes| && !FromRoot(path) && |used| <= 3
             && room >= 3
    requires DirsUpto(inodes, m) && 1 <= m && dp < |inodes| && inodes[dp].kind == T_DIR && Elements(path) != []
    requires Target(inodes, disk, From(cwd, path), Elements(path), true) == Some(dp)
    requires !WalkPanics(inodes, disk, used, From(cwd, path), Elements(path), true)
    requires && |DirOf(inodes, disk, dp).Keys| <= 3
             && Canon(Elements(path)[|Elements(path)| - 1]) !in GraphOf(inodes, disk).dirs[dp]
    ensures !CreateStuck(inodes, disk, used, cwd, path, kind, room)
    ensures !CreateRefused(inodes, disk, From(cwd, path), Elements(path), kind)
  {
    hide Tree, Target, WalkPanics, Elements, Canon, Child, GraphOf, Crowded, DirOf, NoEntry;
    var es := Elements(path);
    ByGraph(inodes, disk, dp, es[|es| - 1]);
    Roomy(inodes, disk, dp, room);
    Roomy(inodes, disk, dp, room - 1);
    LowestIs(inodes, m, m);
    forall c ensures !NoEntry(used + {dp}, c) {
      NeverFull(used, dp, c);
    }
  }

  /** The name in directory dp, which the path leads to, is that of an empty directory, and can be unlinked. */
  lemma CanRemoveIt(inodes: seq<Inode>, disk: seq<Block>, used: set<nat>, cwd: nat, path: seq<byte>, dp: nat, i: nat)
    requires Tree(inodes, disk) && Sized(inodes) && From(cwd, path) < |inodes| && !FromRoot(path) && |used| <= 3
    requires && dp < |inodes| && inodes[dp].kind == T_DIR && i < |inodes| && inodes[i].kind == T_DIR
             && Elements(path) != []
    requires Target(inodes, disk, From(cwd, path), Elements(path), true) == Some(dp)
    requires !WalkPanics(inodes, disk, used, From(cwd, path), Elements(path), true)
    requires var n := Canon(Elements(path)[|Elements(path)| - 1]);
             Regular(n) && n in GraphOf(inodes, disk).dirs[dp] && GraphOf(inodes, disk).dirs[dp][n] == i
    requires GraphOf(inodes, disk).dirs[i].Keys == {DOT, DOTDOT}
    ensures !UnlinkStuck(inodes, disk, used, cwd, path)
    ensures !UnlinkRefused(inodes, disk, From(cwd, path), Elements(path))
  {
    hide Tree, Target, WalkPanics, Elements, Canon, Child, GraphOf, DirOf, NoEntry;
    var es := Elements(path);
    ByGraph(inodes, disk, dp, es[|es| - 1]);
    ByGraph(inodes, disk, i, es[|es| - 1]);
    NeverFull(used, dp, i);
  }

  /** The file system of mkfs, and the first process in its root directory. */
  method Begin(fs: FileSys) returns (ic: ICache, root: nat)
    requires fs.Valid() && 5 < |fs.inodes| <= 0x1_0000 && fs.dinodes == fs.inodes && Room(fs.g, fs.owner) >= 10
    requires forall i :: 0 <= i < |fs.inodes| ==> fs.inodes[i] == NewInode(0, 0, 0, 0)
    modifies fs`disk, fs`inodes, fs`dinodes, fs`owner, fs`logged
    ensures fresh(ic) && fs.Valid() && |fs.inodes| == old(|fs.inodes|) && Room(fs.g, fs.owner) >= 9
    ensures Stage(fs.inodes, fs.disk, fs.dinodes, ic.entries, root, OnlyRoot(|fs.inodes|), 2, 0)
  {
    hide Owned, Good, Sane, Refs, Covers, GraphOf, Ready;
    var r := MakeRoot(fs);
    ic, root := Boot(fs);
  }

  /** mkdir "a". */
  method MakeFirst(fs: FileSys, ic: ICache, root: nat, buf: seq<byte>)
    requires fs.Valid() && |fs.inodes| > 5 && Room(fs.g, fs.owner) >= 9 && |buf| == DIRSIZ
    requires Stage(fs.inodes, fs.disk, fs.dinodes, ic.entries, root, OnlyRoot(|fs.inodes|), 2, 0)
    modifies ic, fs`disk, fs`inodes, fs`dinodes, fs`owner, fs`logged, fs`disk0, fs`dinodes0
    ensures fs.Valid() && |fs.inodes| == old(|fs.inodes|) && Room(fs.g, fs.owner) >= 6
    ensures Stage(fs.inodes, fs.disk, fs.dinodes, ic.entries, root, MadeA(|fs.inodes|), 3, 0)
  {
    hide Owned, Good, Refs, Covers, GraphOf, Ready, CreateStuck, CreateRefused, Leads, CreatedBy, Elements, Canon,
      InCache, Made, DotsOf, DirOf, Tree, Target, WalkPanics;
    StageFacts(fs.inodes, fs.disk, fs.dinodes, ic.entries, root, OnlyRoot(|fs.inodes|), 2, 0);
    PathElements();
    OneStep(fs.inodes, fs.disk, InCache(ic.entries), ROOTINO, A);
    LeadsTo(fs.inodes, fs.disk, ROOTINO, [97], ROOTINO);
    FewNames(1, 1, A, 2);
    ByGraph(fs.inodes, fs.disk, ROOTINO, A);
    CanCreate(fs.inodes, fs.disk, InCache(ic.entries), ROOTINO, [97], ROOTINO, T_DIR, Room(fs.g, fs.owner), 2);
    var r, dp, n, c := SysMake(fs, ic, [97], T_DIR, 0, 0, root, buf);
    MadeDir(old(fs.inodes), old(fs.disk), fs.inodes, fs.disk, ROOTINO, [97], ROOTINO, dp, n, c, 2,
            OnlyRoot(|fs.inodes|));
    StillThere(old(ic.entries), ic.entries, root, 0);
  }

  lemma LeadsTo(inodes: seq<Inode>, disk: seq<Block>, start: nat, path: seq<byte>, d: nat)
    requires Tree(inodes, disk) && start < |inodes| && Target(inodes, disk, start, Elements(path), true) == Some(d)
    ensures Leads(inodes, disk, start, Elements(path), true, d)
  {
  }

  lemma SameLead(inodes: seq<Inode>, disk: seq<Block>, start: nat, path: seq<byte>, d: nat, d': nat)
    requires Leads(inodes, disk, start, Elements(path), true, d) && Leads(inodes, disk, start, Elements(path), true, d')
    ensures d == d'
  {
    hide Elements, Tree, Target;
  }

  /** What a new directory is, by the graph before. */
  lemma MadeDir(inodes: seq<Inode>, disk: seq<Block>, inodes': seq<Inode>, disk': seq<Block>, start: nat,
                path: seq<byte>, d: nat, dp: nat, n: Name, c: nat, m: nat, gr: Graph)
    requires && Sized(inodes) && GraphOf(inodes, disk) == gr && Good(gr) && DirsUpto(inodes, m) && 1 <= m
             && m + 1 < |inodes|
    requires Leads(inodes, disk, start, Elements(path), true, dp) && Leads(inodes, disk, start, Elements(path), true, d)
    requires CreatedBy(inodes, disk, inodes', disk', dp, n, c, Node(T_DIR, 0, 0)) && d < |gr.nl| && gr.nl[d] > 0
    ensures dp == d && c == m && |inodes'| == |inodes| && Sized(inodes') && DirsUpto(inodes', m + 1)
    ensures Shape(gr) && |gr.nl| == |inodes| && GraphOf(inodes', disk') == Made(gr, d, n, m) && Good(Made(gr, d, n, m))
  {
    hide Good, Made, Elements, Tree, Target, KeptBut, DirsOf;
    LowestIs(inodes, m, c);
    GoodShape(gr);
  }

  lemma StillThere(entries: seq<Cached>, entries': seq<Cached>, root: nat, n: nat)
    requires Holding(entries, n) && SameRefs(entries, entries') && Pinned(entries, entries')
    requires root < |entries| && entries[root].ref > 0 && entries[root].inum == ROOTINO
    ensures Holding(entries', n) && |entries'| == |entries| && entries'[root].inum == ROOTINO
  {
    hide Refs;
    forall x ensures Refs(entries', x) == (if x == ROOTINO then 1 else 0) + if x == n != 0 then 1 else 0 {
      assert Refs(entries', x) == Refs(entries, x);
    }
  }

  /** mkdir "a/b", as the working directory of a process: b is its cache entry. */
  method MakeSecond(fs: FileSys, ic: ICache, root: nat, buf: seq<byte>) returns (b: nat)
    requires fs.Valid() && |fs.inodes| > 5 && Room(fs.g, fs.owner) >= 6 && |buf| == DIRSIZ
    requires Stage(fs.inodes, fs.disk, fs.dinodes, ic.entries, root, MadeA(|fs.inodes|), 3, 0)
    modifies ic, fs`disk, fs`inodes, fs`dinodes, fs`owner, fs`logged, fs`disk0, fs`dinodes0
    ensures fs.Valid() && |fs.inodes| == old(|fs.inodes|) && Room(fs.g, fs.owner) >= 3
    ensures Stage(fs.inodes, fs.disk, fs.dinodes, ic.entries, root, MadeB(|fs.inodes|), 4, 3)
    ensures b < NINODE && ic.entries[b].ref > 0 && ic.entries[b].inum == 3
  {
    hide Owned, Good, Refs, Covers, GraphOf, Ready, CreateStuck, CreateRefused, Leads, CreatedBy, Elements, Canon,
      InCache, Made, DotsOf, DirOf, Tree, Target, WalkPanics, FewMore, OneMore, MadeA, Child;
    ghost var gr := MadeA(|fs.inodes|);
    StageFacts(fs.inodes, fs.disk, fs.dinodes, ic.entries, root, gr, 3, 0);
    PathElements();
    FewNames(2, 1, B, 3);
    ByGraph(fs.inodes, fs.disk, ROOTINO, A);
    ByGraph(fs.inodes, fs.disk, 2, B);
    TwoSteps(fs.inodes, fs.disk, InCache(ic.entries), ROOTINO, A, B, 2);
    LeadsTo(fs.inodes, fs.disk, ROOTINO, [97, 47, 98], 2);
    CanCreate(fs.inodes, fs.disk, InCache(ic.entries), ROOTINO, [97, 47, 98], 2, T_DIR, Room(fs.g, fs.owner), 3);
    fs.BeginOp();
    var out, dp, n := Create.Create(fs, ic, [97, 47, 98], T_DIR, 0, 0, root, buf);
    b := out.slot;
    MadeDir(old(fs.inodes), old(fs.disk), fs.inodes, fs.disk, ROOTINO, [97, 47, 98], 2, dp, n, ic.entries[b].inum, 3,
            gr);
    OneHeld(old(ic.entries), ic.entries, root, 3);
    IsMadeB(|fs.inodes|);
  }

  lemma IsMadeB(m: nat)
    requires m > 4
    ensures MadeB(m) == Made(MadeA(m), 2, B, 3)
  {
  }

  lemma OneHeld(entries: seq<Cached>, entries': seq<Cached>, root: nat, n: nat)
    requires Holding(entries, 0) && OneMore(entries, entries', n) && Pinned(entries, entries') && n != 0
    requires root < |entries| && entries[root].ref > 0 && entries[root].inum == ROOTINO
    ensures Holding(entries', n) && |entries'| == |entries| && entries'[root].inum == ROOTINO
  {
    hide Refs;
    forall x ensures Refs(entries', x) == (if x == ROOTINO then 1 else 0) + if x == n != 0 then 1 else 0 {
      assert Refs(entries', x) == Refs(entries, x) + if x == n then 1 else 0;
    }
  }

  /** unlink "a/b": it has no name any more, and is kept for its reference. */
  method RemoveSecond(fs: FileSys, ic: ICache, root: nat, b: nat, buf: seq<byte>)
    requires fs.Valid() && |fs.inodes| > 5 && Room(fs.g, fs.owner) >= 3 && |buf| == DIRSIZ
    requires Stage(fs.inodes, fs.disk, fs.dinodes, ic.entries, root, MadeB(|fs.inodes|), 4, 3)
    requires b < NINODE && |ic.entries| == NINODE && ic.entries[b].ref > 0 && ic.entries[b].inum == 3
    modifies ic, fs`disk, fs`inodes, fs`dinodes, fs`owner, fs`logged, fs`disk0, fs`dinodes0
    ensures fs.Valid() && |fs.inodes| == old(|fs.inodes|) && Room(fs.g, fs.owner) >= 3
    ensures Stage(fs.inodes, fs.disk, fs.dinodes, ic.entries, root, LostB(|fs.inodes|), 4, 3)
    ensures |ic.entries| == NINODE && ic.entries[b].ref > 0 && ic.entries[b].inum == 3
  {
    hide Owned, Good, Refs, Covers, GraphOf, Ready, UnlinkStuck, UnlinkRefused, Leads, UnlinkedBy, Elements, Canon,
      InCache, DotsOf, DirOf, Tree, Target, WalkPanics, MadeB, LostB, Child;
    ghost var gr := MadeB(|fs.inodes|);
    StageFacts(fs.inodes, fs.disk, fs.dinodes, ic.entries, root, gr, 4, 3);
    PathElements();
    ByGraph(fs.inodes, fs.disk, ROOTINO, A);
    TwoSteps(fs.inodes, fs.disk, InCache(ic.entries), ROOTINO, A, B, 2);
    LeadsTo(fs.inodes, fs.disk, ROOTINO, [97, 47, 98], 2);
    CanRemoveIt(fs.inodes, fs.disk, InCache(ic.entries), ROOTINO, [97, 47, 98], 2, 3);
    var r, dp, n := SysUnlink(fs, ic, [97, 47, 98], root, buf);
    SameLead(old(fs.inodes), old(fs.disk), ROOTINO, [97, 47, 98], dp, 2);
    assert Refs(old(ic.entries), 3) == 1;
    LostDir(old(fs.inodes), old(fs.disk), fs.inodes, fs.disk, fs.owner, ROOTINO, [97, 47, 98], 2, dp, n, 3, 1, 4, gr);
    StillThere(old(ic.entries), ic.entries, root, 3);
    IsLostB(|fs.inodes|);
  }

  lemma IsLostB(m: nat)
    requires m > 4
    ensures LostB(m) == RemovedDir(MadeB(m), 2, B)
  {
  }

  /** What an unlinked empty directory i of directory d is, by the graph before, if somebody has it open. */
  lemma LostDir(inodes: seq<Inode>, disk: seq<Block>, inodes': seq<Inode>, disk': seq<Block>, owner': map<nat, Slot>,
                start: nat, path: seq<byte>, d: nat, dp: nat, n: Name, i: nat, refs: nat, m: nat, gr: Graph)
    requires Sized(inodes) && GraphOf(inodes, disk) == gr && Good(gr) && DirsUpto(inodes, m)
    requires Leads(inodes, disk, start, Elements(path), true, dp) && Leads(inodes, disk, start, Elements(path), true, d)
    requires d < |gr.dirs| && n in gr.dirs[d] && gr.dirs[d][n] == i && 1 <= i < |gr.isdir| && gr.isdir[i]
    requires refs > 0 && UnlinkedBy(inodes, disk, inodes', disk', owner', dp, n, refs)
    ensures dp == d && |inodes'| == |inodes| && Sized(inodes') && DirsUpto(inodes', m)
    ensures && Shape(gr) && |gr.nl| == |inodes| && d != i && GraphOf(inodes', disk') == RemovedDir(gr, d, n)
            && Good(RemovedDir(gr, d, n))
  {
    hide Good, Elements, Tree, Target, KeptBut, DirsOf;
    GoodShape(gr);
  }

  /** unlink "a": nobody has it open, so it is freed, though ".." of the directory that was in it still names it. */
  method RemoveFirst(fs: FileSys, ic: ICache, root: nat, b: nat, buf: seq<byte>)
    requires fs.Valid() && |fs.inodes| > 5 && |buf| == DIRSIZ
    requires Stage(fs.inodes, fs.disk, fs.dinodes, ic.entries, root, LostB(|fs.inodes|), 4, 3)
    requires b < NINODE && |ic.entries| == NINODE && ic.entries[b].ref > 0 && ic.entries[b].inum == 3
    modifies ic, fs`disk, fs`inodes, fs`dinodes, fs`owner, fs`logged, fs`disk0, fs`dinodes0
    ensures fs.Valid() && |fs.inodes| == old(|fs.inodes|) && Ready(fs.inodes, fs.disk, fs.dinodes, ic.entries, root)
    ensures Sized(fs.inodes) && Good(GraphOf(fs.inodes, fs.disk)) && GraphOf(fs.inodes, fs.disk).dirs[3] == DotsOf(3, 2)
    ensures fs.inodes[2].kind == 0 && fs.inodes[3].kind == T_DIR
    ensures |ic.entries| == NINODE && ic.entries[b].ref > 0 && ic.entries[b].inum == 3
  {
    hide Owned, Good, Refs, Covers, GraphOf, Ready, UnlinkStuck, UnlinkRefused, Leads, UnlinkedBy, Elements, Canon,
      InCache, DotsOf, DirOf, Tree, Target, WalkPanics, LostB, Child;
    ghost var gr := LostB(|fs.inodes|);
    StageFacts(fs.inodes, fs.disk, fs.dinodes, ic.entries, root, gr, 4, 3);
    PathElements();
    ByGraph(fs.inodes, fs.disk, ROOTINO, A);
    OneStep(fs.inodes, fs.disk, InCache(ic.entries), ROOTINO, A);
    LeadsTo(fs.inodes, fs.disk, ROOTINO, [97], ROOTINO);
    CanRemoveIt(fs.inodes, fs.disk, InCache(ic.entries), ROOTINO, [97], ROOTINO, 2);
    var r, dp, n := SysUnlink(fs, ic, [97], root, buf);
    SameLead(old(fs.inodes), old(fs.disk), ROOTINO, [97], dp, ROOTINO);
    assert Refs(old(ic.entries), 2) == 0;
    GoneDir(old(fs.inodes), old(fs.disk), fs.inodes, fs.disk, fs.owner, ROOTINO, [97], ROOTINO, dp, n, 2, 4, gr);
  }

  /** If nobody has it open it is freed. */
  lemma GoneDir(inodes: seq<Inode>, disk: seq<Block>, inodes': seq<Inode>, disk': seq<Block>, owner': map<nat, Slot>,
                start: nat, path: seq<byte>, d: nat, dp: nat, n: Name, i: nat, m: nat, gr: Graph)
    requires Sized(inodes) && GraphOf(inodes, disk) == gr && Good(gr) && DirsUpto(inodes, m)
    requires Leads(inodes, disk, start, Elements(path), true, dp) && Leads(inodes, disk, start, Elements(path), true, d)
    requires && d < |gr.dirs| && n in gr.dirs[d] && gr.dirs[d][n] == i && 1 <= i < |gr.isdir| && gr.isdir[i]
             && i < |gr.nl| && gr.nl[i] == 1
    requires UnlinkedBy(inodes, disk, inodes', disk', owner', dp, n, 0)
    ensures |inodes'| == |inodes| && Sized(inodes') && inodes'[i].kind == 0
    ensures forall j :: 0 <= j < |inodes| && j != i ==> inodes'[j].kind == inodes[j].kind
    ensures forall j ::
              0 <= j < |inodes| && j != i && j != d && j < |gr.dirs| ==> GraphOf(inodes', disk').dirs[j] == gr.dirs[j]
  {
    hide Good, Elements, Tree, Target, KeptBut, DirsOf;
    GoodShape(gr);
  }

  /** The run up to there: cache entry b is that of a directory that has been unlinked. */
  method Orphan(fs: FileSys, buf: seq<byte>) returns (ic: ICache, root: nat, b: nat)
    requires && fs.Valid() && 5 < |fs.inodes| <= 0x1_0000 && fs.dinodes == fs.inodes && Room(fs.g, fs.owner) >= 10
             && |buf| == DIRSIZ
    requires forall i :: 0 <= i < |fs.inodes| ==> fs.inodes[i] == NewInode(0, 0, 0, 0)
    modifies fs
    ensures fresh(ic) && fs.Valid() && |fs.inodes| == old(|fs.inodes|) && Room(fs.g, fs.owner) >= 3
    ensures Stage(fs.inodes, fs.disk, fs.dinodes, ic.entries, root, LostB(|fs.inodes|), 4, 3)
    ensures b < NINODE && |ic.entries| == NINODE && ic.entries[b].ref > 0 && ic.entries[b].inum == 3
  {
    hide Owned, Covers, Stage;
    ic, root := Begin(fs);
    MakeFirst(fs, ic, root, buf);
    b := MakeSecond(fs, ic, root, buf);
    HasEntries(fs.inodes, fs.disk, fs.dinodes, ic.entries, root, MadeB(|fs.inodes|), 4, 3);
    RemoveSecond(fs, ic, root, b, buf);
  }

  // --------------------------------------------------------------- what goes wrong

  lemma ThroughFreed(inodes: seq<Inode>, disk: seq<Block>, used: set<nat>, d: nat, e: seq<byte>, f: seq<byte>, n: nat)
    requires && Tree(inodes, disk) && d < |inodes| && n < |inodes| && inodes[n].kind == 0
             && Child(inodes, disk, d, e) == Some(n)
    ensures MeetsFreed(inodes, disk, d, [e, f]) && WalkPanics(inodes, disk, used, d, [e, f], false)
  {
    hide Tree, Child;
    assert [e, f][1..] == [f];
    assert MeetsFreed(inodes, disk, n, [f]) && WalkPanics(inodes, disk, used, n, [f], false);
  }

  /** In a directory whose ".." names a freed inode a path that starts with ".." panics. */
  method UpFromOrphan(fs: FileSys, ic: ICache, root: nat, b: nat, buf: seq<byte>) returns (out: Outcome)
    requires fs.Valid() && |fs.inodes| > 5 && Ready(fs.inodes, fs.disk, fs.dinodes, ic.entries, root) && |buf| == DIRSIZ
    requires Sized(fs.inodes) && GraphOf(fs.inodes, fs.disk).dirs[3] == DotsOf(3, 2)
    requires fs.inodes[2].kind == 0 && fs.inodes[3].kind == T_DIR
    requires b < NINODE && |ic.entries| == NINODE && ic.entries[b].ref > 0 && ic.entries[b].inum == 3
    modifies ic, fs`disk, fs`inodes, fs`dinodes, fs`owner, fs`logged
    ensures out.Panic?
  {
    hide Owned, Refs, Covers, GraphOf, Ready, InCache, Elements, Tree, Child, DirOf, Canon, Target, WalkPanics;
    ReadyFacts(fs.inodes, fs.disk, fs.dinodes, ic.entries, root);
    PathElements();
    ByGraph(fs.inodes, fs.disk, 3, DOTDOT);
    ThroughFreed(fs.inodes, fs.disk, InCache(ic.entries), 3, DOTDOT, X, 2);
    var name;
    out, name := Namex(fs, ic, [46, 46, 47, 120], b, false, buf);
  }

  /** namex() of "../x" in the unlinked directory panics: ".." names the inode that was freed. */
  method FreedParentPanics(fs: FileSys, buf: seq<byte>) returns (out: Outcome)
    requires && fs.Valid() && 5 < |fs.inodes| <= 0x1_0000 && fs.dinodes == fs.inodes && Room(fs.g, fs.owner) >= 10
             && |buf| == DIRSIZ
    requires forall i :: 0 <= i < |fs.inodes| ==> fs.inodes[i] == NewInode(0, 0, 0, 0)
    modifies fs
    ensures out.Panic?
  {
    hide Owned, Covers, Stage, Good, GraphOf, Ready;
    var ic, root, b := Orphan(fs, buf);
    RemoveFirst(fs, ic, root, b, buf);
    out := UpFromOrphan(fs, ic, root, b, buf);
  }

  lemma HasEntries(inodes: seq<Inode>, disk: seq<Block>, dinodes: seq<Inode>, entries: seq<Cached>, root: nat,
                   gr: Graph, m: nat, n: nat)
    requires Stage(inodes, disk, dinodes, entries, root, gr, m, n)
    ensures |entries| == NINODE
  {
  }

  /** What is created in the unlinked directory, a file or a directory, makes the counts wrong. */
  method CreateInOrphan(fs: FileSys, ic: ICache, root: nat, b: nat, kind: int, buf: seq<byte>) returns (out: Outcome)
    requires fs.Valid() && |fs.inodes| > 5 && Room(fs.g, fs.owner) >= 3 && |buf| == DIRSIZ && kind != 0
    requires Stage(fs.inodes, fs.disk, fs.dinodes, ic.entries, root, LostB(|fs.inodes|), 4, 3)
    requires b < NINODE && |ic.entries| == NINODE && ic.entries[b].ref > 0 && ic.entries[b].inum == 3
    modifies ic, fs`disk, fs`inodes, fs`dinodes, fs`owner, fs`logged, fs`disk0, fs`dinodes0
    ensures out.Found? && fs.Valid() && Sized(fs.inodes) && !Good(GraphOf(fs.inodes, fs.disk))
  {
    hide Owned, Good, Refs, Covers, GraphOf, Ready, InCache, Elements, Tree, Child, DotsOf, DirOf, CreateStuck,
      CreateRefused, CreatedBy, Leads, Target, WalkPanics, FewMore, LostB, Canon, Stage;
    ghost var inodes, disk, gr := fs.inodes, fs.disk, LostB(|fs.inodes|);
    StageFacts(inodes, disk, fs.dinodes, ic.entries, root, gr, 4, 3);
    FromThere(inodes, disk, fs.dinodes, ic.entries, root, gr, 4, 3, b);
    PathElements();
    FewNames(3, 2, X, 0);
    ByGraph(inodes, disk, 3, X);
    OneStep(inodes, disk, InCache(ic.entries), 3, X);
    LeadsTo(inodes, disk, 3, [120], 3);
    CanCreate(inodes, disk, InCache(ic.entries), 3, [120], 3, kind, Room(fs.g, fs.owner), 4);
    fs.BeginOp();
    ghost var dp, n;
    out, dp, n := Create.Create(fs, ic, [120], kind, 0, 0, b, buf);
    SameLead(inodes, disk, 3, [120], dp, 3);
    NotCounted(inodes, disk, fs.inodes, fs.disk, 3, n, ic.entries[out.slot].inum, Node(kind, 0, 0), gr);
  }

  method OrphanCreatesWrongCounts(fs: FileSys, kind: int, buf: seq<byte>) returns (out: Outcome)
    requires && fs.Valid() && 5 < |fs.inodes| <= 0x1_0000 && fs.dinodes == fs.inodes && Room(fs.g, fs.owner) >= 10
             && |buf| == DIRSIZ
    requires forall i :: 0 <= i < |fs.inodes| ==> fs.inodes[i] == NewInode(0, 0, 0, 0)
    requires kind != 0
    modifies fs
    ensures out.Found? && fs.Valid() && Sized(fs.inodes) && !Good(GraphOf(fs.inodes, fs.disk))
  {
    hide Owned, Covers, Stage, Good, GraphOf;
    var ic, root, b := Orphan(fs, buf);
    out := CreateInOrphan(fs, ic, root, b, kind, buf);
  }

  lemma FromThere(inodes: seq<Inode>, disk: seq<Block>, dinodes: seq<Inode>, entries: seq<Cached>, root: nat, gr: Graph,
                  m: nat, n: nat, b: nat)
    requires Stage(inodes, disk, dinodes, entries, root, gr, m, n)
    requires b < |entries| && entries[b].ref > 0 && entries[b].inum == 3 && 4 <= m
    ensures Ready(inodes, disk, dinodes, entries, b) && Good(GraphOf(inodes, disk)) && Start(entries, b, [120]) == 3
  {
    hide Good, GraphOf, Refs;
  }

  lemma NotCounted(inodes: seq<Inode>, disk: seq<Block>, inodes': seq<Inode>, disk': seq<Block>, d: nat, n: Name,
                   c: nat, x: Node, gr: Graph)
    requires Sized(inodes) && GraphOf(inodes, disk) == gr && d < |gr.nl| && gr.nl[d] == 0
    requires CreatedBy(inodes, disk, inodes', disk', d, n, c, x)
    ensures Sized(inodes') && !Good(GraphOf(inodes', disk'))
  {
    hide Good, KeptBut;
  }
}
