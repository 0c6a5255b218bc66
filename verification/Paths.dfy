/**
  Path names (fs.c): skipelem(), the inode cache with its reference counts, and namex() as looking the elements of
  a path up one after the other.
 */
module Paths {
  import opened Common
  import opened Blocks
  import opened Ownership
  import opened Inodes
  import opened FileContents
  import opened Directory

  const SLASH: byte := 47

  // --------------------------------------------------------------- elements of a path

  ghost function SkipSlashes(p: seq<byte>): (r: seq<byte>)
    ensures |r| <= |p| && (r != [] ==> r[0] != SLASH)
  {
    if p != [] && p[0] == SLASH then SkipSlashes(p[1..]) else p
  }

  /** The length of the element a path starts with. */
  ghost function ElemLen(p: seq<byte>): (n: nat)
    ensures n <= |p| && (p != [] && p[0] != SLASH ==> n > 0)
  {
    if p != [] && p[0] != SLASH then 1 + ElemLen(p[1..]) else 0
  }

  /** The '/'-separated elements of a path. */
  ghost function Elements(p: seq<byte>): (es: seq<seq<byte>>)
    decreases |p|
  {
    var q := SkipSlashes(p);
    if q == [] then [] else [q[..ElemLen(q)]] + Elements(q[ElemLen(q)..])
  }

  /** A NUL-terminated string, as its bytes before the NUL. */
  ghost predicate IsString(p: seq<byte>) {
    0 !in p
  }

  /** Slashes in front do not matter. */
  lemma {:induction false} SkipTwice(p: seq<byte>)
    ensures SkipSlashes(SkipSlashes(p)) == SkipSlashes(p) && Elements(SkipSlashes(p)) == Elements(p)
    ensures IsString(p) ==> IsString(SkipSlashes(p))
  {
    if p != [] && p[0] == SLASH {
      SkipTwice(p[1..]);
    }
  }

  lemma ElementsOfRest(q: seq<byte>)
    requires q != [] && q[0] != SLASH
    ensures var n := ElemLen(q); Elements(q) == [q[..n]] + Elements(SkipSlashes(q[n..]))
  {
    SkipTwice(q[ElemLen(q)..]);
  }

  /** No slash in front: the path is empty exactly when it has no element left. */
  lemma NoneLeft(r: seq<byte>)
    requires r == SkipSlashes(r)
    ensures r == [] <==> Elements(r) == []
  {
  }

  lemma {:induction false} ElemLenSplit(a: seq<byte>, b: seq<byte>)
    ensures ElemLen(a + [47] + b) == ElemLen(a)
  {
    var p := a + [47] + b;
    if a != [] && a[0] != SLASH {
      assert p[1..] == a[1..] + [47] + b && p[0] == a[0];
      ElemLenSplit(a[1..], b);
    }
  }

  lemma {:induction false} WholeElement(e: seq<byte>)
    requires 47 !in e
    ensures ElemLen(e) == |e|
  {
    if e != [] {
      WholeElement(e[1..]);
    }
  }

  lemma NoElements()
    ensures Elements([]) == []
  {
  }

  /** A name without slashes is its only element. */
  lemma OneElement(e: seq<byte>)
    requires e != [] && 47 !in e
    ensures Elements(e) == [e]
  {
    WholeElement(e);
    assert e[..|e|] == e && e[|e|..] == [] && Elements([]) == [];
    assert SkipSlashes(e) == e;
  }

  /** The elements of a path are those of the path before a slash and those of the path after it. */
  lemma {:induction false} ElementsSplit(a: seq<byte>, b: seq<byte>)
    ensures Elements(a + [47] + b) == Elements(a) + Elements(b)
    decreases |a|
  {
    var p := a + [47] + b;
    if a == [] {
      assert p[1..] == b;
      SkipTwice(b);
      SkipTwice(p);
    } else if a[0] == SLASH {
      assert p[1..] == a[1..] + [47] + b && p[0] == a[0];
      ElementsSplit(a[1..], b);
      SkipTwice(p);
      SkipTwice(p[1..]);
      SkipTwice(a);
      SkipTwice(a[1..]);
    } else {
      ElemLenSplit(a, b);
      var n := ElemLen(a);
      assert p[..n] == a[..n] && p[n..] == a[n..] + [47] + b && p[0] == a[0];
      ElementsSplit(a[n..], b);
    }
  }

  method SkipWhileSlash(path: seq<byte>) returns (p: seq<byte>)
    ensures p == SkipSlashes(path)
  {
    p := path;
    while p != [] && p[0] == SLASH
      invariant SkipSlashes(p) == SkipSlashes(path)
      decreases |p|
    {
      p := p[1..];
    }
  }

  method ElementLength(s: seq<byte>) returns (n: nat)
    ensures n == ElemLen(s)
  {
    n := 0;
    while n < |s| && s[n] != SLASH
      invariant n <= |s| && ElemLen(s) == n + ElemLen(s[n..])
    {
      assert s[n..][1..] == s[n + 1..];
      n := n + 1;
    }
  }

  /** skipelem(): name is the caller's 14-byte buffer.  The first element goes to name, cut to 14 bytes; the rest of
      the path is empty exactly when that was the last element. */
  method Skipelem(path: seq<byte>, name: seq<byte>) returns (r: Option<seq<byte>>, name': seq<byte>)
    requires IsString(path) && |name| == DIRSIZ
    ensures |name'| == DIRSIZ && (r.None? <==> Elements(path) == [])
    ensures r.Some? ==>
              && IsString(r.value) && |r.value| < |path|
              && Elements(path) != [] && Canon(name') == Canon(Elements(path)[0])
              && Elements(path)[1..] == Elements(r.value)
              && (r.value == [] <==> |Elements(path)| == 1)
  {
    hide Cut, SkipSlashes, ElemLen;
    var s := SkipWhileSlash(path);
    SkipTwice(path);
    NoneLeft(s);
    if s == [] {
      return None, name;
    }
    var len := ElementLength(s);
    ElementsOfRest(s);
    if len >= DIRSIZ {
      name' := s[..DIRSIZ];
    } else {
      name' := s[..len] + [0] + name[len + 1..];
    }
    CutOfElement(s, len, name');
    var rest := SkipWhileSlash(s[len..]);
    SkipTwice(s[len..]);
    NoneLeft(rest);
    return Some(rest), name';
  }

  /** The buffer stands for the element. */
  lemma CutOfElement(s: seq<byte>, len: nat, name: seq<byte>)
    requires IsString(s) && len <= |s| && |name| == DIRSIZ
    requires if len >= DIRSIZ then name == s[..DIRSIZ] else name[..len] == s[..len] && name[len] == 0
    ensures Canon(name) == Canon(s[..len])
  {
    hide Cut;
    var n := if len >= DIRSIZ then DIRSIZ else len;
    CutIs(name, s[..n], DIRSIZ);
    CutPrefix(s[..len], DIRSIZ);
    assert s[..len][..n] == s[..n];
  }

  lemma {:induction false} CutPrefix(s: seq<byte>, n: nat)
    requires IsString(s)
    ensures Cut(s, n) == s[..if |s| < n then |s| else n]
  {
    if n > 0 && s != [] {
      CutPrefix(s[1..], n - 1);
    }
  }

  // --------------------------------------------------------------- the inode cache

  const NINODE: nat := 50
  const ROOTINO: nat := 1

  /** An entry of icache; valid when the inode has been read from disk. */
  datatype Cached = Cached(inum: nat, ref: nat, valid: bool)

  /** The references to inode x. */
  ghost function Refs(entries: seq<Cached>, x: nat): (n: nat) {
    if entries == [] then 0
    else Refs(entries[..|entries| - 1], x) + if entries[|entries| - 1].inum == x then entries[|entries| - 1].ref else 0
  }

  ghost function Share(e: Cached, x: nat): (n: nat) {
    if e.inum == x then e.ref else 0
  }

  lemma {:induction false} RefsUpdate(entries: seq<Cached>, k: nat, e: Cached, x: nat)
    requires k < |entries|
    ensures Refs(entries[k := e], x) == Refs(entries, x) - Share(entries[k], x) + Share(e, x)
  {
    var last := |entries| - 1;
    if k < last {
      assert entries[k := e][..last] == entries[..last][k := e];
      RefsUpdate(entries[..last], k, e, x);
    } else {
      assert entries[k := e][..last] == entries[..last];
    }
  }

  lemma {:induction false} RefsZero(entries: seq<Cached>, x: nat)
    requires forall k :: 0 <= k < |entries| ==> Share(entries[k], x) == 0
    ensures Refs(entries, x) == 0
  {
    if entries != [] {
      RefsZero(entries[..|entries| - 1], x);
    }
  }

  /** An inode has at most one entry in use. */
  ghost predicate OneEntry(entries: seq<Cached>) {
    && |entries| == NINODE
    && forall a, b ::
         0 <= a < b < |entries| && entries[a].ref > 0 && entries[b].ref > 0 ==> entries[a].inum != entries[b].inum
  }

  /** The count in an inode's entry is the number of references to it. */
  lemma RefsAt(entries: seq<Cached>, k: nat)
    requires OneEntry(entries) && k < |entries| && entries[k].ref > 0
    ensures Refs(entries, entries[k].inum) == entries[k].ref
  {
    var x, e := entries[k].inum, entries[k].(ref := 0);
    RefsUpdate(entries, k, e, x);
    RefsZero(entries[k := e], x);
  }

  /** One reference more to inode cur, otherwise the same. */
  ghost predicate OneMore(entries: seq<Cached>, entries': seq<Cached>, cur: nat) {
    forall x :: Refs(entries', x) == Refs(entries, x) + if x == cur then 1 else 0
  }

  /** The inodes that have an entry in use, among the first n. */
  ghost function InCacheUpto(entries: seq<Cached>, n: nat): (r: set<nat>)
    requires n <= |entries|
  {
    set k | 0 <= k < n && entries[k].ref > 0 :: entries[k].inum
  }

  /** The inodes that have an entry in use. */
  ghost function InCache(entries: seq<Cached>): (r: set<nat>) {
    InCacheUpto(entries, |entries|)
  }

  /** iget() of n would find no entry, with those of the inodes in used. */
  ghost predicate NoEntry(used: set<nat>, n: nat) {
    n !in used && |used| >= NINODE
  }

  lemma InCacheIs(entries: seq<Cached>, x: nat)
    requires OneEntry(entries)
    ensures x in InCache(entries) <==> Refs(entries, x) > 0
  {
    hide Refs;
    if k :| 0 <= k < |entries| && entries[k].ref > 0 && entries[k].inum == x {
      RefsAt(entries, k);
    } else {
      RefsZero(entries, x);
    }
  }

  lemma {:induction false} InCacheCount(entries: seq<Cached>, n: nat)
    requires OneEntry(entries) && n <= |entries|
    ensures |InCacheUpto(entries, n)| <= n
    ensures |InCacheUpto(entries, n)| == n <==> forall k :: 0 <= k < n ==> entries[k].ref > 0
  {
    if n > 0 {
      InCacheCount(entries, n - 1);
      var x := entries[n - 1].inum;
      if entries[n - 1].ref > 0 {
        assert x !in InCacheUpto(entries, n - 1);
        assert InCacheUpto(entries, n) == InCacheUpto(entries, n - 1) + {x};
      } else {
        assert InCacheUpto(entries, n) == InCacheUpto(entries, n - 1);
      }
    } else {
      assert InCacheUpto(entries, n) == {};
    }
  }

  /** There is no entry for n exactly when the cache is full of others. */
  lemma NoEntryIs(entries: seq<Cached>, n: nat)
    requires OneEntry(entries)
    ensures NoEntry(InCache(entries), n) <==>
              forall k :: 0 <= k < |entries| ==> entries[k].ref > 0 && entries[k].inum != n
  {
    InCacheCount(entries, |entries|);
    if NoEntry(InCache(entries), n) {
      forall k | 0 <= k < |entries| ensures entries[k].ref > 0 && entries[k].inum != n {
        assert entries[k].ref > 0;
        assert entries[k].inum in InCache(entries);
      }
    }
  }

  lemma InCacheMore(entries: seq<Cached>, entries': seq<Cached>, cur: nat)
    requires OneEntry(entries) && OneEntry(entries') && OneMore(entries, entries', cur)
    ensures InCache(entries') == InCache(entries) + {cur}
  {
    hide Refs, InCache;
    forall x ensures x in InCache(entries') <==> x in InCache(entries) + {cur} {
      InCacheIs(entries, x);
      InCacheIs(entries', x);
    }
  }

  class ICache {
    var entries: seq<Cached>

    constructor ()
      ensures OneEntry(entries) && forall x :: Refs(entries, x) == 0
    {
      entries := seq(NINODE, _ => Cached(0, 0, false));
      new;
      forall x ensures Refs(entries, x) == 0 {
        RefsZero(entries, x);
      }
    }

    /** iget(): the entry of the inode, or the first free one; none (the panic) if there is neither. */
    method Iget(inum: nat) returns (r: Option<nat>)
      requires OneEntry(entries)
      modifies this
      ensures OneEntry(entries)
      ensures r.None? <==> NoEntry(InCache(old(entries)), inum)
      ensures r.None? ==>
                && entries == old(entries)
                && forall k :: 0 <= k < NINODE ==> entries[k].ref > 0 && entries[k].inum != inum
      ensures r.Some? ==>
                && r.value < NINODE && entries[r.value].inum == inum && entries[r.value].ref > 0
                && OneMore(old(entries), entries, inum)
      ensures r.Some? ==> forall k :: 0 <= k < NINODE && k != r.value ==> entries[k] == old(entries[k])
      ensures r.Some? ==>
                entries[r.value] ==
                  if old(entries[r.value].ref) > 0 then old(entries[r.value]).(ref := old(entries[r.value].ref) + 1)
                  else Cached(inum, 1, false)
    {
      hide Refs, InCache, NoEntry;
      NoEntryIs(entries, inum);
      var empty := -1;
      var i := 0;
      while i < NINODE
        invariant 0 <= i <= NINODE && entries == old(entries) && -1 <= empty < i
        invariant forall k :: 0 <= k < i ==> !(entries[k].ref > 0 && entries[k].inum == inum)
        invariant empty == -1 ==> forall k :: 0 <= k < i ==> entries[k].ref > 0
        invariant empty != -1 ==> entries[empty].ref == 0
      {
        if entries[i].ref > 0 && entries[i].inum == inum {
          SetEntry(i, entries[i].(ref := entries[i].ref + 1));
          return Some(i);
        }
        if empty == -1 && entries[i].ref == 0 {
          empty := i;
        }
        i := i + 1;
      }
      if empty == -1 {
        return None;
      }
      SetEntry(empty, Cached(inum, 1, false));
      return Some(empty);
    }

    method SetEntry(k: nat, e: Cached)
      requires k < |entries|
      modifies this
      ensures entries == old(entries)[k := e]
      ensures forall x :: Refs(entries, x) == Refs(old(entries), x) - Share(old(entries[k]), x) + Share(e, x)
    {
      forall x ensures Refs(entries[k := e], x) == Refs(entries, x) - Share(entries[k], x) + Share(e, x) {
        RefsUpdate(entries, k, e, x);
      }
      entries := entries[k := e];
    }

    /** idup() */
    method Idup(k: nat)
      requires OneEntry(entries) && k < NINODE && entries[k].ref > 0
      modifies this
      ensures entries == old(entries)[k := old(entries[k]).(ref := old(entries[k].ref) + 1)]
      ensures OneEntry(entries) && OneMore(old(entries), entries, entries[k].inum)
    {
      SetEntry(k, entries[k].(ref := entries[k].ref + 1));
    }

    /** ilock()'s reading of the inode; false stands for its panic on a free inode. */
    method Ilock(fs: FileSys, k: nat) returns (ok: bool)
      requires OneEntry(entries) && k < NINODE && entries[k].ref > 0 && entries[k].inum < |fs.inodes|
      modifies this
      ensures OneEntry(entries) && entries == old(entries)[k := old(entries[k]).(valid := true)]
      ensures forall x :: Refs(entries, x) == Refs(old(entries), x)
      ensures ok <==> old(entries[k].valid) || fs.inodes[entries[k].inum].kind != 0
    {
      var was := entries[k].valid;
      SetEntry(k, entries[k].(valid := true));
      return was || fs.inodes[entries[k].inum].kind != 0;
    }

    /** iput(): one reference less; an inode without links whose last reference this was is truncated and freed. */
    method Iput(fs: FileSys, k: nat)
      requires OneEntry(entries) && k < NINODE && entries[k].ref > 0 && fs.Valid() && entries[k].inum < |fs.inodes|
      modifies this, fs`disk, fs`inodes, fs`dinodes, fs`owner, fs`logged
      ensures OneEntry(entries) && OneMore(entries, old(entries), old(entries[k].inum)) && fs.Valid()
      ensures forall j :: 0 <= j < NINODE && j != k ==> entries[j] == old(entries[j])
      ensures entries[k].inum == old(entries[k].inum) && entries[k].ref == old(entries[k].ref) - 1
      ensures var i := old(entries[k].inum);
              if old(entries[k].valid) && old(fs.inodes)[i].nlink == 0 && Refs(old(entries), i) == 1 then
                && fs.inodes == old(fs.inodes)[i := old(fs.inodes)[i].(kind := 0, size := 0, addrs := NOBLOCK)]
                && fs.dinodes == old(fs.dinodes)[i := fs.inodes[i]]
                && (forall c :: c in fs.owner <==> c in old(fs.owner) && old(fs.owner)[c].i != i)
                && (forall c :: c in fs.logged ==> c in old(fs.logged) || MapBlock(fs.g, c) || c == InodeBlock(fs.g, i))
                && |fs.disk| == |old(fs.disk)|
                && (forall c :: fs.g.data <= c < fs.g.size ==> fs.disk[c] == old(fs.disk)[c])
                && !entries[k].valid
              else
                && fs.inodes == old(fs.inodes) && fs.disk == old(fs.disk) && fs.dinodes == old(fs.dinodes)
                && fs.owner == old(fs.owner) && fs.logged == old(fs.logged) && entries[k].valid == old(entries[k].valid)
    {
      hide Owned, InUse, Refs, Covers;
      RefsAt(entries, k);
      var i := entries[k].inum;
      var valid := entries[k].valid;
      if valid && fs.inodes[i].nlink == 0 {
        if entries[k].ref == 1 {
          fs.Itrunc(i);
          ghost var mid := fs.inodes;
          fs.inodes := fs.inodes[i := fs.inodes[i].(kind := 0)];
          SizeOnly(fs.g, mid, fs.disk, fs.inodes, fs.owner);
          fs.Iupdate(i);
          valid := false;
        }
      }
      SetEntry(k, Cached(i, entries[k].ref - 1, valid));
    }
  }

  // --------------------------------------------------------------- walking a path

  /** Directory d has unique names of inodes. */
  ghost predicate DirOk(inodes: seq<Inode>, disk: seq<Block>, d: nat)
    requires d < |inodes|
  {
    && IsDir(inodes, disk, d) && Unique(Content(inodes, disk, d))
    && forall name :: name in DirMap(Content(inodes, disk, d)) ==>
         DirMap(Content(inodes, disk, d))[name] < |inodes|
  }

  ghost predicate Tree(inodes: seq<Inode>, disk: seq<Block>) {
    Sized(inodes) && forall d :: 0 <= d < |inodes| && inodes[d].kind == T_DIR ==> DirOk(inodes, disk, d)
  }

  /** The inode a directory has under a name. */
  ghost function Child(inodes: seq<Inode>, disk: seq<Block>, d: nat, name: seq<byte>): (r: Option<nat>)
    requires Tree(inodes, disk) && d < |inodes|
    ensures r.Some? ==> r.value < |inodes|
  {
    if inodes[d].kind != T_DIR then None
    else
      assert DirOk(inodes, disk, d);
      var m := DirMap(Content(inodes, disk, d));
      if Canon(name) in m then Some(m[Canon(name)]) else None
  }

  /** The inode reached from d by looking the elements up in turn. */
  ghost function Walk(inodes: seq<Inode>, disk: seq<Block>, d: nat, es: seq<seq<byte>>): (r: Option<nat>)
    requires Tree(inodes, disk) && d < |inodes|
    ensures r.Some? ==> r.value < |inodes|
    decreases |es|
  {
    if es == [] then Some(d)
    else match Child(inodes, disk, d, es[0])
      case None => None
      case Some(n) => Walk(inodes, disk, n, es[1..])
  }

  /** Walking on from where a path leads. */
  lemma {:induction false} WalkOn(inodes: seq<Inode>, disk: seq<Block>, d: nat, a: seq<seq<byte>>, b: seq<seq<byte>>)
    requires Tree(inodes, disk) && d < |inodes|
    ensures Walk(inodes, disk, d, a + b) ==
              match Walk(inodes, disk, d, a)
              case None => None
              case Some(n) => Walk(inodes, disk, n, b)
    decreases |a|
  {
    hide Tree, Child;
    if a == [] {
      assert a + b == b;
    } else {
      assert (a + b)[1..] == a[1..] + b && (a + b)[0] == a[0];
      if Child(inodes, disk, d, a[0]).Some? {
        WalkOn(inodes, disk, Child(inodes, disk, d, a[0]).value, a[1..], b);
      }
    }
  }

  /** Path a/b leads where b leads from where a leads. */
  lemma PathOn(inodes: seq<Inode>, disk: seq<Block>, d: nat, a: seq<byte>, b: seq<byte>)
    requires Tree(inodes, disk) && d < |inodes|
    ensures Walk(inodes, disk, d, Elements(a + [47] + b)) ==
              match Walk(inodes, disk, d, Elements(a))
              case None => None
              case Some(n) => Walk(inodes, disk, n, Elements(b))
  {
    hide Tree, Walk, Elements;
    ElementsSplit(a, b);
    WalkOn(inodes, disk, d, Elements(a), Elements(b));
  }

  /** The directory that holds the last of the elements. */
  ghost function WalkParent(inodes: seq<Inode>, disk: seq<Block>, d: nat, es: seq<seq<byte>>): (r: Option<nat>)
    requires Tree(inodes, disk) && d < |inodes|
  {
    if es == [] then None
    else match Walk(inodes, disk, d, es[..|es| - 1])
      case None => None
      case Some(n) => if inodes[n].kind == T_DIR then Some(n) else None
  }

  /** What namex() is to return. */
  ghost function Target(inodes: seq<Inode>, disk: seq<Block>, d: nat, es: seq<seq<byte>>,
                        parent: bool): (r: Option<nat>)
    requires Tree(inodes, disk) && d < |inodes|
  {
    if parent then WalkParent(inodes, disk, d, es) else Walk(inodes, disk, d, es)
  }

  /** One element at a time. */
  lemma TargetStep(inodes: seq<Inode>, disk: seq<Block>, d: nat, es: seq<seq<byte>>, parent: bool)
    requires Tree(inodes, disk) && d < |inodes| && es != []
    ensures parent && |es| == 1 ==>
              Target(inodes, disk, d, es, parent) == if inodes[d].kind == T_DIR then Some(d) else None
    ensures !(parent && |es| == 1) ==>
              Target(inodes, disk, d, es, parent) ==
              match Child(inodes, disk, d, es[0])
              case None => None
              case Some(n) => Target(inodes, disk, n, es[1..], parent)
  {
    hide Tree, Child;
    if parent && |es| > 1 {
      assert es[..|es| - 1][0] == es[0];
      assert es[..|es| - 1][1..] == es[1..][..|es| - 2];
    }
  }

  datatype Outcome = Panic | Nothing | Found(slot: nat)

  /** An allocated inode without links is referenced: iput() frees it with its last reference. */
  ghost predicate Anchored(inodes: seq<Inode>, entries: seq<Cached>) {
    forall x :: 0 <= x < |inodes| && inodes[x].kind != 0 && inodes[x].nlink == 0 ==> Refs(entries, x) >= 1
  }

  /** Entries in use are of inodes, and those read from disk are of allocated ones. */
  ghost predicate LiveCache(inodes: seq<Inode>, entries: seq<Cached>) {
    OneEntry(entries) && forall k :: 0 <= k < |entries| && entries[k].ref > 0 ==>
      entries[k].inum < |inodes| && (entries[k].valid ==> inodes[entries[k].inum].kind != 0)
  }

  /** The path goes on from an inode that has been freed. */
  ghost predicate MeetsFreed(inodes: seq<Inode>, disk: seq<Block>, d: nat, es: seq<seq<byte>>)
    requires Tree(inodes, disk) && d < |inodes|
    decreases |es|
  {
    && es != []
    && (|| inodes[d].kind == 0
        || match Child(inodes, disk, d, es[0])
           case None => false
           case Some(n) => MeetsFreed(inodes, disk, n, es[1..]))
  }

  /** namex() panics on its way from d: it goes on from a freed inode, or finds no cache entry for the next one while it
      holds the last, besides those of the inodes in used. */
  ghost predicate WalkPanics(inodes: seq<Inode>, disk: seq<Block>, used: set<nat>, d: nat, es: seq<seq<byte>>,
                             parent: bool)
    requires Tree(inodes, disk) && d < |inodes|
    decreases |es|
  {
    && es != []
    && (|| inodes[d].kind == 0
        || (!(parent && |es| == 1)
            && match Child(inodes, disk, d, es[0])
               case None => false
               case Some(n) => NoEntry(used + {d}, n) || WalkPanics(inodes, disk, used, n, es[1..], parent)))
  }

  /** namex() panics, with the entries of the inodes in used and a working directory cwd. */
  ghost predicate NamexPanics(inodes: seq<Inode>, disk: seq<Block>, used: set<nat>, cwd: nat, path: seq<byte>,
                              parent: bool) {
    && Tree(inodes, disk) && From(cwd, path) < |inodes|
    && (|| (FromRoot(path) && NoEntry(used, ROOTINO))
        || WalkPanics(inodes, disk, used, From(cwd, path), Elements(path), parent))
  }

  /** Where namex() starts, with working directory cwd. */
  function From(cwd: nat, path: seq<byte>): (d: nat) {
    if FromRoot(path) then ROOTINO else cwd
  }

  predicate FromRoot(path: seq<byte>) {
    path != [] && path[0] == SLASH
  }

  /** A path that begins with a slash starts at the root, whatever the working directory, and any other at the working
      directory. */
  lemma AbsoluteOrRelative(inodes: seq<Inode>, disk: seq<Block>, used: set<nat>, cwd: nat, cwd': nat, p: seq<byte>,
                           parent: bool)
    requires Tree(inodes, disk) && 1 < |inodes| && cwd < |inodes| && cwd' < |inodes|
    ensures From(cwd, [47] + p) == 1 && From(cwd, []) == cwd && (p != [] && p[0] != 47 ==> From(cwd, p) == cwd)
    ensures var path := [47] + p;
            && Target(inodes, disk, From(cwd, path), Elements(path), parent) ==
                 Target(inodes, disk, 1, Elements(p), parent)
            && (NamexPanics(inodes, disk, used, cwd, path, parent) <==>
                  NamexPanics(inodes, disk, used, cwd', path, parent))
  {
    hide Tree, Target, WalkPanics, Elements;
    NoElements();
    ElementsSplit([], p);
    assert [] + [47] + p == [47] + p;
    assert [] + Elements(p) == Elements(p);
  }

  /** With two cache entries to spare it is exactly the freed inodes that make namex() panic. */
  lemma {:induction false} PanicsOnFreed(inodes: seq<Inode>, disk: seq<Block>, used: set<nat>, d: nat,
                                         es: seq<seq<byte>>, parent: bool)
    requires Tree(inodes, disk) && d < |inodes| && |used| + 1 < NINODE
    ensures WalkPanics(inodes, disk, used, d, es, parent) <==> MeetsFreed(inodes, disk, d, es)
    decreases |es|
  {
    hide Tree, Child;
    if es != [] && Child(inodes, disk, d, es[0]).Some? {
      PanicsOnFreed(inodes, disk, used, Child(inodes, disk, d, es[0]).value, es[1..], parent);
    }
  }

  ghost predicate SameRefs(entries: seq<Cached>, entries': seq<Cached>) {
    forall x :: Refs(entries', x) == Refs(entries, x)
  }

  /** Entries in use before are still those of the same inodes. */
  ghost predicate Pinned(before: seq<Cached>, entries: seq<Cached>) {
    && |before| == |entries|
    && forall k :: 0 <= k < |before| && before[k].ref > 0 ==> entries[k].inum == before[k].inum && entries[k].ref > 0
  }

  /** iunlockput() of an inode that had the other references it needs: nothing is freed. */
  method PutBack(fs: FileSys, ic: ICache, k: nat, ghost before: seq<Cached>)
    requires && LiveCache(fs.inodes, ic.entries) && k < NINODE && ic.entries[k].ref > 0 && fs.Valid()
             && OneEntry(before)
             && Pinned(before, ic.entries)
    requires && Anchored(fs.inodes, before) && fs.inodes[ic.entries[k].inum].kind != 0
             && OneMoreAt(before, ic.entries, ic.entries[k].inum)
    modifies ic, fs`disk, fs`inodes, fs`dinodes, fs`owner, fs`logged
    ensures && LiveCache(fs.inodes, ic.entries) && OneMore(ic.entries, old(ic.entries), old(ic.entries[k].inum))
            && Pinned(before, ic.entries)
    ensures forall j :: 0 <= j < NINODE && j != k ==> ic.entries[j] == old(ic.entries[j])
    ensures ic.entries[k].inum == old(ic.entries[k].inum) && ic.entries[k].ref == old(ic.entries[k].ref) - 1
    ensures && fs.inodes == old(fs.inodes) && fs.disk == old(fs.disk) && fs.dinodes == old(fs.dinodes)
            && fs.owner == old(fs.owner) && fs.logged == old(fs.logged)
  {
    hide Owned, Refs;
    if before[k].ref > 0 {
      RefsAt(before, k);
    }
    RefsAt(ic.entries, k);
    ic.Iput(fs, k);
  }

  ghost predicate OneMoreAt(before: seq<Cached>, entries: seq<Cached>, cur: nat) {
    Refs(entries, cur) > Refs(before, cur)
  }

  /** The part of namex()'s loop that goes from one directory to the next. */
  method Descend(fs: FileSys, ic: ICache, k: nat, name: seq<byte>, ghost before: seq<Cached>) returns (out: Outcome)
    requires fs.Valid() && Tree(fs.inodes, fs.disk) && LiveCache(fs.inodes, ic.entries) && |name| == DIRSIZ
    requires && k < NINODE && ic.entries[k].ref > 0 && fs.inodes[ic.entries[k].inum].kind == T_DIR && OneEntry(before)
             && Pinned(before, ic.entries)
    requires Anchored(fs.inodes, before) && OneMore(before, ic.entries, ic.entries[k].inum)
    modifies ic, fs`disk, fs`inodes, fs`dinodes, fs`owner, fs`logged
    ensures && fs.inodes == old(fs.inodes) && fs.disk == old(fs.disk) && fs.dinodes == old(fs.dinodes)
            && fs.owner == old(fs.owner) && fs.logged == old(fs.logged)
    ensures LiveCache(fs.inodes, ic.entries) && Pinned(before, ic.entries)
    ensures var d := old(ic.entries[k].inum);
            out.Panic? <==>
              && Child(fs.inodes, fs.disk, d, name).Some?
              && NoEntry(InCache(before) + {d}, Child(fs.inodes, fs.disk, d, name).value)
    ensures out.Nothing? ==>
              Child(fs.inodes, fs.disk, old(ic.entries[k].inum), name) == None && SameRefs(before, ic.entries)
    ensures out.Found? ==>
              && out.slot < NINODE && ic.entries[out.slot].ref > 0
              && Child(fs.inodes, fs.disk, old(ic.entries[k].inum), name) == Some(ic.entries[out.slot].inum)
              && OneMore(before, ic.entries, ic.entries[out.slot].inum)
  {
    hide Owned, Refs, IsDir, Finds, Unique, DirMap, Canon, InCache, NoEntry, Covers;
    var d := ic.entries[k].inum;
    InCacheMore(before, ic.entries, d);
    assert DirOk(fs.inodes, fs.disk, d);
    var found := Dirlookup(fs, d, name);
    FindsIsLookup(Content(fs.inodes, fs.disk, d), Canon(name), found);
    if found.None? {
      PutBack(fs, ic, k, before);
      return Nothing;
    }
    var next := ic.Iget(found.value.0);
    if next.None? {
      return Panic;
    }
    PutBack(fs, ic, k, before);
    return Found(next.value);
  }

  /** The body of namex()'s loop, on element es[0] in name: it returns, or goes on from the entry in out. */
  method Visit(fs: FileSys, ic: ICache, k: nat, name: seq<byte>, parent: bool, last: bool, ghost es: seq<seq<byte>>,
               ghost before: seq<Cached>)
    returns (out: Outcome, stop: bool)
    requires fs.Valid() && Tree(fs.inodes, fs.disk) && LiveCache(fs.inodes, ic.entries) && |name| == DIRSIZ
    requires k < NINODE && ic.entries[k].ref > 0
    requires Anchored(fs.inodes, before) && OneMore(before, ic.entries, ic.entries[k].inum)
    requires && es != [] && Canon(name) == Canon(es[0]) && (last <==> |es| == 1) && OneEntry(before)
             && Pinned(before, ic.entries)
    modifies ic, fs`disk, fs`inodes, fs`dinodes, fs`owner, fs`logged
    ensures && fs.inodes == old(fs.inodes) && fs.disk == old(fs.disk) && fs.dinodes == old(fs.dinodes)
            && fs.owner == old(fs.owner) && fs.logged == old(fs.logged)
    ensures out.Panic? ==> stop
    ensures WalkPanics(fs.inodes, fs.disk, InCache(before), old(ic.entries[k].inum), es, parent) <==>
              if stop then out.Panic?
              else && out.Found? && out.slot < NINODE && |ic.entries| == NINODE
                   && ic.entries[out.slot].inum < |fs.inodes|
                   && WalkPanics(fs.inodes, fs.disk, InCache(before), ic.entries[out.slot].inum, es[1..], parent)
    ensures !out.Panic? ==> LiveCache(fs.inodes, ic.entries) && Pinned(before, ic.entries)
    ensures var w := Target(fs.inodes, fs.disk, old(ic.entries[k].inum), es, parent);
            && (out.Nothing? ==> stop && w == None && SameRefs(before, ic.entries))
            && (out.Found? ==>
                  var n := out.slot;
                  && n < NINODE && ic.entries[n].ref > 0
                  && OneMore(before, ic.entries, ic.entries[n].inum)
                  && if stop then parent && last && w == Some(ic.entries[n].inum)
                     else !(parent && last) && w == Target(fs.inodes, fs.disk, ic.entries[n].inum, es[1..], parent))
  {
    hide Owned, Refs, Target, Canon, Tree, Child, InCache, NoEntry, Covers;
    var ok := ic.Ilock(fs, k);
    if !ok {
      return Panic, true;
    }
    var d := ic.entries[k].inum;
    TargetStep(fs.inodes, fs.disk, d, es, parent);
    if fs.inodes[d].kind != T_DIR {
      NoChild(fs.inodes, fs.disk, d, es[0]);
      PutBack(fs, ic, k, before);
      return Nothing, true;
    }
    if parent && last {
      return Found(k), true;
    }
    SameChild(fs.inodes, fs.disk, d, name, es[0]);
    out := Descend(fs, ic, k, name, before);
    stop := !out.Found?;
  }

  /** namex() from the entry it starts at. */
  method WalkFrom(fs: FileSys, ic: ICache, start: nat, path: seq<byte>, parent: bool, buf: seq<byte>,
                  ghost before: seq<Cached>)
    returns (out: Outcome, name: seq<byte>)
    requires && fs.Valid() && Tree(fs.inodes, fs.disk) && LiveCache(fs.inodes, ic.entries)
             && Anchored(fs.inodes, before)
             && IsString(path) && |buf| == DIRSIZ
    requires start < NINODE && ic.entries[start].ref > 0 && fs.inodes[ic.entries[start].inum].kind != 0
    requires OneMore(before, ic.entries, ic.entries[start].inum) && OneEntry(before) && Pinned(before, ic.entries)
    modifies ic, fs`disk, fs`inodes, fs`dinodes, fs`owner, fs`logged
    ensures && fs.inodes == old(fs.inodes) && fs.disk == old(fs.disk) && fs.dinodes == old(fs.dinodes)
            && fs.owner == old(fs.owner) && fs.logged == old(fs.logged)
    ensures out.Panic? <==>
              WalkPanics(fs.inodes, fs.disk, InCache(before), old(ic.entries[start].inum), Elements(path), parent)
    ensures !out.Panic? ==> LiveCache(fs.inodes, ic.entries) && Pinned(before, ic.entries)
    ensures var w := Target(fs.inodes, fs.disk, old(ic.entries[start].inum), Elements(path), parent);
            && (out.Nothing? ==> w == None && SameRefs(before, ic.entries))
            && (out.Found? ==> out.slot < NINODE && ic.entries[out.slot].ref > 0 && w == Some(ic.entries[out.slot].inum)
                               && OneMore(before, ic.entries, ic.entries[out.slot].inum))
            && (out.Found? && parent ==>
                  Elements(path) != [] && Canon(name) == Canon(Elements(path)[|Elements(path)| - 1]))
    ensures |name| == DIRSIZ
  {
    hide Owned, Refs, Tree, Target, Canon, Elements, OneMore, SameRefs, Anchored, WalkPanics, InCache, Covers;
    ghost var es, d0, done := Elements(path), ic.entries[start].inum, 0;
    var k: nat := start;
    var rest;
    rest, name := Skipelem(path, buf);
    while rest.Some?
      invariant && LiveCache(fs.inodes, ic.entries) && Pinned(before, ic.entries) && k < NINODE
                && ic.entries[k].ref > 0 && 0 <= done <= |es|
      invariant && fs.inodes == old(fs.inodes) && fs.disk == old(fs.disk) && fs.dinodes == old(fs.dinodes)
                && fs.owner == old(fs.owner) && fs.logged == old(fs.logged)
      invariant OneMore(before, ic.entries, ic.entries[k].inum)
      invariant WalkPanics(fs.inodes, fs.disk, InCache(before), ic.entries[k].inum, es[done..], parent) <==>
                  WalkPanics(fs.inodes, fs.disk, InCache(before), d0, es, parent)
      invariant Target(fs.inodes, fs.disk, ic.entries[k].inum, es[done..], parent) ==
                  Target(fs.inodes, fs.disk, d0, es, parent)
      invariant |name| == DIRSIZ && (rest.None? <==> done == |es|)
      invariant rest.None? && parent ==> fs.inodes[ic.entries[k].inum].kind != 0
      invariant rest.Some? ==>
                  && IsString(rest.value) && Canon(name) == Canon(es[done]) && es[done + 1..] == Elements(rest.value)
                  && (rest.value == [] <==> done + 1 == |es|)
      decreases |es| - done
    {
      var next, stop := Visit(fs, ic, k, name, parent, rest.value == [], es[done..], before);
      if stop {
        return next, name;
      }
      k := next.slot;
      assert es[done..][1..] == es[done + 1..];
      done := done + 1;
      rest, name := Skipelem(rest.value, name);
    }
    assert es[done..] == [];
    TargetEnd(fs.inodes, fs.disk, ic.entries[k].inum, parent);
    WalkEnd(fs.inodes, fs.disk, InCache(before), ic.entries[k].inum, parent);
    if parent {
      ghost var mid := ic.entries;
      MoreThanBefore(before, mid, mid[k].inum);
      PutBack(fs, ic, k, before);
      BackToBefore(before, mid, ic.entries, mid[k].inum);
      return Nothing, name;
    }
    return Found(k), name;
  }

  lemma MoreThanBefore(before: seq<Cached>, entries: seq<Cached>, cur: nat)
    requires OneMore(before, entries, cur)
    ensures OneMoreAt(before, entries, cur)
  {
  }

  lemma BackToBefore(before: seq<Cached>, mid: seq<Cached>, after: seq<Cached>, cur: nat)
    requires OneMore(before, mid, cur) && OneMore(after, mid, cur)
    ensures SameRefs(before, after)
  {
    forall x ensures Refs(after, x) == Refs(before, x) {
      assert Refs(mid, x) == Refs(before, x) + if x == cur then 1 else 0;
    }
  }

  /** namex(): the target of the path, with exactly one new reference, on what is returned.  It panics exactly where
      the path goes on from a freed inode, or for want of a cache entry. */
  method Namex(fs: FileSys, ic: ICache, path: seq<byte>, cwd: nat, parent: bool, buf: seq<byte>)
    returns (out: Outcome, name: seq<byte>)
    requires && fs.Valid() && Tree(fs.inodes, fs.disk) && LiveCache(fs.inodes, ic.entries)
             && Anchored(fs.inodes, ic.entries)
    requires IsString(path) && |buf| == DIRSIZ && ROOTINO < |fs.inodes| && fs.inodes[ROOTINO].kind != 0
    requires cwd < NINODE && ic.entries[cwd].ref > 0 && fs.inodes[ic.entries[cwd].inum].kind != 0
    modifies ic, fs`disk, fs`inodes, fs`dinodes, fs`owner, fs`logged
    ensures && fs.inodes == old(fs.inodes) && fs.disk == old(fs.disk) && fs.dinodes == old(fs.dinodes)
            && fs.owner == old(fs.owner) && fs.logged == old(fs.logged)
    ensures out.Panic? <==>
              NamexPanics(fs.inodes, fs.disk, InCache(old(ic.entries)), old(ic.entries[cwd].inum), path, parent)
    ensures !out.Panic? ==> LiveCache(fs.inodes, ic.entries) && Pinned(old(ic.entries), ic.entries)
    ensures var start := From(old(ic.entries[cwd].inum), path);
            var w := Target(fs.inodes, fs.disk, start, Elements(path), parent);
            && (out.Nothing? ==> w == None && SameRefs(old(ic.entries), ic.entries))
            && (out.Found? ==> out.slot < NINODE && ic.entries[out.slot].ref > 0 && w == Some(ic.entries[out.slot].inum)
                               && OneMore(old(ic.entries), ic.entries, ic.entries[out.slot].inum))
            && (out.Found? && parent ==>
                  Elements(path) != [] && Canon(name) == Canon(Elements(path)[|Elements(path)| - 1]))
    ensures |name| == DIRSIZ
  {
    hide Owned, Refs, Tree, Target, Canon, Elements, WalkPanics, InCache, NoEntry, Covers;
    ghost var before := ic.entries;
    var start: nat := cwd;
    if path != [] && path[0] == SLASH {
      var root := ic.Iget(ROOTINO);
      if root.None? {
        return Panic, buf;
      }
      start := root.value;
    } else {
      ic.Idup(cwd);
    }
    out, name := WalkFrom(fs, ic, start, path, parent, buf, before);
  }

  lemma NoChild(inodes: seq<Inode>, disk: seq<Block>, d: nat, name: seq<byte>)
    requires Tree(inodes, disk) && d < |inodes| && inodes[d].kind != T_DIR
    ensures Child(inodes, disk, d, name) == None
  {
  }

  lemma SameChild(inodes: seq<Inode>, disk: seq<Block>, d: nat, name: seq<byte>, name': seq<byte>)
    requires Tree(inodes, disk) && d < |inodes| && Canon(name) == Canon(name')
    ensures Child(inodes, disk, d, name) == Child(inodes, disk, d, name')
  {
    hide Canon;
  }

  lemma WalkEnd(inodes: seq<Inode>, disk: seq<Block>, used: set<nat>, d: nat, parent: bool)
    requires Tree(inodes, disk) && d < |inodes|
    ensures !WalkPanics(inodes, disk, used, d, [], parent)
  {
  }

  lemma TargetEnd(inodes: seq<Inode>, disk: seq<Block>, d: nat, parent: bool)
    requires Tree(inodes, disk) && d < |inodes|
    ensures Target(inodes, disk, d, [], parent) == if parent then None else Some(d)
  {
  }
}
