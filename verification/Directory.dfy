/**
  Directories (fs.c): a directory file is a sequence of 16-byte entries, a 16-bit inode number and a name of up to
  14 bytes; it implements a finite map from names, cut to 14 bytes, to inode numbers.
 */
module Directory {
  import opened Common
  import opened Blocks
  import opened Ownership
  import opened Inodes
  import opened FileContents

  const DIRSIZ: nat := 14
  const T_DIR: int := 1

  // --------------------------------------------------------------- names

  /** The bytes of s up to a NUL, at most n of them. */
  ghost function Cut(s: seq<byte>, n: nat): (r: seq<byte>) {
    if n == 0 || s == [] || s[0] == 0 then [] else [s[0]] + Cut(s[1..], n - 1)
  }

  /** The name that s stands for in a directory. */
  ghost function Canon(s: seq<byte>): (r: seq<byte>) {
    Cut(s, DIRSIZ)
  }

  /** A string that can be read up to its NUL or DIRSIZ bytes. */
  ghost predicate Readable(s: seq<byte>, n: nat) {
    |s| >= n || 0 in s
  }

  lemma {:induction false} ReadableRest(s: seq<byte>, n: nat)
    requires Readable(s, n) && n > 0
    ensures s != [] && (s[0] != 0 ==> Readable(s[1..], n - 1))
  {
    if |s| < n && s[0] != 0 {
      var k :| 0 <= k < |s| && s[k] == 0;
      assert s[1..][k - 1] == 0;
    }
  }

  /** The strings agree up to byte k, without ending before it, and byte k of s is d more than that of t. */
  ghost predicate FirstDiffer(s: seq<byte>, t: seq<byte>, k: int, d: int) {
    0 <= k < |s| && k < |t| && s[k] == t[k] + d && d != 0 && forall j :: 0 <= j < k ==> s[j] == t[j] != 0
  }

  /** strncmp(): 0 if the strings agree, else the difference of the first bytes that differ. */
  method Strncmp(s: seq<byte>, t: seq<byte>, n: nat) returns (r: int)
    requires Readable(s, n) && Readable(t, n)
    ensures r == 0 <==> Cut(s, n) == Cut(t, n)
    ensures r != 0 ==> exists k :: 0 <= k < n && FirstDiffer(s, t, k, r)
  {
    hide Cut, Readable;
    var m, p, q := n, s, t;
    while m > 0 && (ReadableRest(p, m); p[0] != 0) && (ReadableRest(q, m); p[0] == q[0])
      invariant 0 <= m <= n && Readable(p, m) && Readable(q, m)
      invariant Cut(s, n) == Cut(t, n) <==> Cut(p, m) == Cut(q, m)
      invariant n - m <= |s| && n - m <= |t| && p == s[n - m..] && q == t[n - m..]
      invariant forall j :: 0 <= j < n - m ==> s[j] == t[j] != 0
      decreases m
    {
      ReadableRest(p, m);
      ReadableRest(q, m);
      CutAgree(p, q, m);
      m, p, q := m - 1, p[1..], q[1..];
    }
    if m == 0 {
      CutNone(p);
      CutNone(q);
      return 0;
    }
    ReadableRest(p, m);
    ReadableRest(q, m);
    CutAgree(p, q, m);
    var a: int, b: int := p[0], q[0];
    r := a - b;
    ghost var k := n - m;
    assert s[k] == p[0] && t[k] == q[0] && (r != 0 ==> FirstDiffer(s, t, k, r));
  }

  /** Strings agree if their first bytes do and so do the rests, of strings that have not ended. */
  lemma CutAgree(s: seq<byte>, t: seq<byte>, m: nat)
    requires m > 0 && s != [] && t != []
    ensures Cut(s, m) == Cut(t, m) <==> s[0] == t[0] && (s[0] == 0 || Cut(s[1..], m - 1) == Cut(t[1..], m - 1))
  {
    hide Cut;
    CutStep(s, m);
    CutStep(t, m);
    if s[0] != 0 && t[0] != 0 {
      assert Cut(s, m)[0] == s[0] && Cut(t, m)[0] == t[0];
      assert Cut(s, m)[1..] == Cut(s[1..], m - 1) && Cut(t, m)[1..] == Cut(t[1..], m - 1);
    }
  }

  /** namecmp() */
  method Namecmp(s: seq<byte>, t: seq<byte>) returns (r: int)
    requires Readable(s, DIRSIZ) && Readable(t, DIRSIZ)
    ensures r == 0 <==> Canon(s) == Canon(t)
  {
    r := Strncmp(s, t, DIRSIZ);
  }

  /** The first loop of strncpy(): the string and its NUL, if there is room. */
  method CopyString(t: seq<byte>, n: nat) returns (s: seq<byte>)
    requires Readable(t, n)
    ensures |s| <= n && s == if |Cut(t, n)| < n then Cut(t, n) + [0] else Cut(t, n)
    ensures forall k :: 0 <= k < |Cut(t, n)| ==> Cut(t, n)[k] != 0
  {
    hide Cut, Readable;
    var m, q := n, t;
    s := [];
    while m > 0
      invariant 0 <= m <= n && |s| + m == n && Readable(q, m) && Cut(t, n) == s + Cut(q, m)
      invariant forall k :: 0 <= k < |s| ==> s[k] != 0
    {
      ReadableRest(q, m);
      CutStep(q, m);
      s := s + [q[0]];
      if q[0] == 0 {
        return;
      }
      m, q := m - 1, q[1..];
    }
    CutNone(q);
  }

  lemma CutStep(s: seq<byte>, n: nat)
    requires n > 0 && s != []
    ensures Cut(s, n) == if s[0] == 0 then [] else [s[0]] + Cut(s[1..], n - 1)
  {
  }

  lemma CutNone(s: seq<byte>)
    ensures Cut(s, 0) == []
  {
  }

  /** strncpy() of n bytes: the string, then NULs. */
  method Strncpy(t: seq<byte>, n: nat) returns (s: seq<byte>)
    requires Readable(t, n)
    ensures |s| == n && Cut(s, n) == Cut(t, n)
    ensures forall k :: |Cut(t, n)| <= k < n ==> s[k] == 0
  {
    hide Cut, Readable;
    s := CopyString(t, n);
    ghost var name, got := Cut(t, n), s;
    while |s| < n
      invariant |got| <= |s| <= n && s[..|got|] == got
      invariant forall k :: |got| <= k < |s| ==> s[k] == 0
    {
      s := s + [0];
    }
    CutIs(s, name, n);
  }

  /** A string that reads name, then NUL or the end of n bytes, stands for name. */
  lemma {:induction false} CutIs(s: seq<byte>, name: seq<byte>, n: nat)
    requires |s| == n && |name| <= n && s[..|name|] == name && (forall k :: 0 <= k < |name| ==> name[k] != 0)
    requires |name| < n ==> s[|name|] == 0
    ensures Cut(s, n) == name
  {
    if n > 0 && name != [] {
      assert s[0] == name[0];
      CutIs(s[1..], name[1..], n - 1);
    }
  }

  // --------------------------------------------------------------- entries

  const DESIZE: nat := 16

  function Inum(e: seq<byte>): (r: nat)
    requires |e| == DESIZE
    ensures r % 0x100 == e[0] && r / 0x100 == e[1]
  {
    var lo: int, hi: int := e[0], e[1];
    lo + 0x100 * hi
  }

  /** A struct dirent. */
  function Dirent(inum: nat, name: seq<byte>): (e: seq<byte>)
    requires inum < 0x1_0000 && |name| == DIRSIZ
    ensures |e| == DESIZE && Inum(e) == inum && e[2..] == name
  {
    var lo: byte, hi: byte := inum % 0x100, inum / 0x100;
    [lo, hi] + name
  }

  ghost predicate Whole(c: seq<byte>) {
    |c| % DESIZE == 0
  }

  ghost function Count(c: seq<byte>): (n: nat) {
    |c| / DESIZE
  }

  /** Entry k. */
  ghost function Ent(c: seq<byte>, k: nat): (e: seq<byte>)
    requires k < Count(c)
    ensures |e| == DESIZE
  {
    c[k * DESIZE..k * DESIZE + DESIZE]
  }

  ghost predicate Live(c: seq<byte>, k: nat)
    requires k < Count(c)
  {
    Inum(Ent(c, k)) != 0
  }

  ghost function NameAt(c: seq<byte>, k: nat): (r: seq<byte>)
    requires k < Count(c)
  {
    Canon(Ent(c, k)[2..])
  }

  ghost predicate Named(c: seq<byte>, k: nat, name: seq<byte>)
    requires k < Count(c)
  {
    Live(c, k) && NameAt(c, k) == name
  }

  /** No two live entries have the same name. */
  ghost predicate Unique(c: seq<byte>) {
    forall k, l :: 0 <= k < l < Count(c) && Live(c, k) && Live(c, l) ==> NameAt(c, k) != NameAt(c, l)
  }

  /** The map that the first n entries stand for. */
  ghost function MapOf(c: seq<byte>, n: nat): (m: map<seq<byte>, nat>)
    requires n <= Count(c)
  {
    if n == 0 then map[]
    else if Live(c, n - 1) then MapOf(c, n - 1)[NameAt(c, n - 1) := Inum(Ent(c, n - 1))]
    else MapOf(c, n - 1)
  }

  ghost function DirMap(c: seq<byte>): (m: map<seq<byte>, nat>) {
    MapOf(c, Count(c))
  }

  /** The map has exactly the live entries. */
  lemma {:induction false} MapOfIs(c: seq<byte>, n: nat, name: seq<byte>)
    requires n <= Count(c) && Unique(c)
    ensures name in MapOf(c, n) <==> exists k :: 0 <= k < n && Named(c, k, name)
    ensures forall k :: 0 <= k < n && Named(c, k, name) ==> MapOf(c, n)[name] == Inum(Ent(c, k))
  {
    hide Canon, Ent, Inum, Count;
    if n > 0 {
      MapOfIs(c, n - 1, name);
      if Named(c, n - 1, name) {
        assert forall k :: 0 <= k < n - 1 ==> !Named(c, k, name);
      }
    }
  }

  /** c' is c with entry k replaced by e, k possibly one past the end. */
  ghost predicate Replaced(c: seq<byte>, c': seq<byte>, k: nat, e: seq<byte>) {
    Whole(c) && k <= Count(c) && |e| == DESIZE && c' == Splice(c, k * DESIZE, e)
  }

  /** Entry l reads the same in both. */
  ghost predicate Same(c: seq<byte>, c': seq<byte>, l: nat) {
    l < Count(c) && l < Count(c') && Ent(c', l) == Ent(c, l)
  }

  lemma ReplacedEntries(c: seq<byte>, c': seq<byte>, k: nat, e: seq<byte>)
    requires Replaced(c, c', k, e)
    ensures Whole(c') && Count(c') == Max(Count(c), k + 1) && Ent(c', k) == e
    ensures forall l: nat :: l < Count(c') && l != k ==> Same(c, c', l)
  {
    forall l: nat | l < Count(c') && l != k ensures Same(c, c', l) {
      assert l < k || l >= k + 1;
    }
  }

  lemma SameEntry(c: seq<byte>, c': seq<byte>, l: nat)
    requires Same(c, c', l)
    ensures && Live(c', l) == Live(c, l) && NameAt(c', l) == NameAt(c, l)
            && forall x :: Named(c', l, x) <==> Named(c, l, x)
  {
  }

  lemma UniqueAfter(c: seq<byte>, c': seq<byte>, k: nat)
    requires Unique(c) && k < Count(c') && forall l: nat :: l < Count(c') && l != k ==> Same(c, c', l)
    requires Live(c', k) ==> forall l: nat :: l < Count(c) && l != k && Live(c, l) ==> NameAt(c, l) != NameAt(c', k)
    ensures Unique(c')
  {
    hide Canon, Ent, Inum, Count;
    forall l, m | 0 <= l < m < Count(c') && Live(c', l) && Live(c', m) ensures NameAt(c', l) != NameAt(c', m) {
      if l != k {
        assert Same(c, c', l);
        SameEntry(c, c', l);
      }
      if m != k {
        assert Same(c, c', m);
        SameEntry(c, c', m);
      }
    }
  }

  /** What a name is found at, after entry k was replaced. */
  lemma FoundAfter(c: seq<byte>, c': seq<byte>, k: nat, x: seq<byte>)
    requires && k <= Count(c) && Count(c') == Max(Count(c), k + 1)
             && forall l: nat :: l < Count(c') && l != k ==> Same(c, c', l)
    ensures forall l: nat :: l < Count(c') && l != k ==> (Named(c', l, x) <==> Named(c, l, x))
    ensures forall l: nat :: l < Count(c') && l != k ==> Ent(c', l) == Ent(c, l)
  {
    hide Canon, Inum, Count, Ent, Named;
    forall l: nat | l < Count(c') && l != k ensures Named(c', l, x) <==> Named(c, l, x) {
      assert Same(c, c', l);
      SameEntry(c, c', l);
    }
    forall l: nat | l < Count(c') && l != k ensures Ent(c', l) == Ent(c, l) {
      assert Same(c, c', l);
    }
  }

  /** Putting a new name in a free entry, or after the last, adds it to the map. */
  lemma PutKeeps(c: seq<byte>, c': seq<byte>, k: nat, e: seq<byte>, name: seq<byte>)
    requires Replaced(c, c', k, e) && Unique(c) && Inum(e) != 0 && Canon(e[2..]) == name && name !in DirMap(c)
    requires k < Count(c) ==> !Live(c, k)
    ensures Whole(c') && Unique(c') && DirMap(c') == DirMap(c)[name := Inum(e)]
  {
    hide Canon, Ent, Inum, MapOf, Splice, Count;
    ReplacedEntries(c, c', k, e);
    MapOfIs(c, Count(c), name);
    assert Named(c', k, name);
    forall l: nat | l < Count(c) && l != k && Live(c, l) ensures NameAt(c, l) != name {
      assert !Named(c, l, name);
    }
    UniqueAfter(c, c', k);
    forall x ensures x in DirMap(c') <==> x in DirMap(c)[name := Inum(e)]
             ensures x in DirMap(c') ==> DirMap(c')[x] == DirMap(c)[name := Inum(e)][x]
    {
      MapOfIs(c, Count(c), x);
      MapOfIs(c', Count(c'), x);
      FoundAfter(c, c', k, x);
    }
  }

  /** Zeroing a live entry removes its name from the map. */
  lemma ClearKeeps(c: seq<byte>, c': seq<byte>, k: nat, e: seq<byte>)
    requires Replaced(c, c', k, e) && Unique(c) && k < Count(c) && Live(c, k) && Inum(e) == 0
    ensures Whole(c') && Count(c') == Count(c) && Unique(c') && DirMap(c') == DirMap(c) - {NameAt(c, k)}
  {
    hide Canon, Ent, Inum, MapOf, Splice, Count;
    ReplacedEntries(c, c', k, e);
    var name := NameAt(c, k);
    assert Named(c, k, name);
    UniqueAfter(c, c', k);
    forall x ensures x in DirMap(c') <==> x in DirMap(c) - {name}
             ensures x in DirMap(c') ==> DirMap(c')[x] == DirMap(c)[x]
    {
      MapOfIs(c, Count(c), x);
      MapOfIs(c', Count(c'), x);
      FoundAfter(c, c', k, x);
    }
  }

  // --------------------------------------------------------------- operations

  /** dp is a directory without holes, of whole entries. */
  ghost predicate IsDir(inodes: seq<Inode>, disk: seq<Block>, dp: nat)
    requires dp < |inodes|
  {
    inodes[dp].kind == T_DIR && HoleFree(inodes, disk, dp) && Whole(Content(inodes, disk, dp))
  }

  /** Reads entry k; in a directory readi() never comes back short. */
  method ReadEntry(fs: FileSys, dp: nat, off: uint32) returns (de: seq<byte>)
    requires fs.Valid() && dp < |fs.inodes| && Sized(fs.inodes) && IsDir(fs.inodes, fs.disk, dp)
    requires off % DESIZE == 0 && off < fs.inodes[dp].size
    modifies fs`disk, fs`inodes, fs`owner, fs`logged
    ensures && fs.disk == old(fs.disk) && fs.inodes == old(fs.inodes) && fs.owner == old(fs.owner)
            && fs.logged == old(fs.logged)
    ensures && off / DESIZE < Count(Content(fs.inodes, fs.disk, dp))
            && de == Ent(Content(fs.inodes, fs.disk, dp), off / DESIZE)
  {
    hide Owned, Full, HoleFree, Content, OthersSame;
    WholeRoom(Content(fs.inodes, fs.disk, dp), off);
    var r, dst := Readi(fs, dp, off, DESIZE);
    assert r == Some(DESIZE);
    return dst;
  }

  lemma WholeRoom(c: seq<byte>, off: nat)
    requires Whole(c) && off % DESIZE == 0 && off < |c|
    ensures off + DESIZE <= |c| && off / DESIZE < Count(c) && Ent(c, off / DESIZE) == c[off..off + DESIZE]
  {
    assert off / DESIZE * DESIZE == off;
  }

  /** What dirlookup() finds: the first entry with the name. */
  ghost predicate Finds(c: seq<byte>, name: seq<byte>, r: Option<(nat, nat)>) {
    match r
    case None => forall l: nat :: l < Count(c) ==> !Named(c, l, name)
    case Some((inum, off)) =>
      && off % DESIZE == 0 && off / DESIZE < Count(c) && Named(c, off / DESIZE, name)
      && inum == Inum(Ent(c, off / DESIZE))
      && forall l: nat :: l < off / DESIZE ==> !Named(c, l, name)
  }

  /** On a directory with unique names that is looking the name up in the map. */
  lemma FindsIsLookup(c: seq<byte>, name: seq<byte>, r: Option<(nat, nat)>)
    requires Unique(c) && Finds(c, name, r)
    ensures r == None <==> name !in DirMap(c)
    ensures r.Some? ==> DirMap(c)[name] == r.value.0
  {
    hide Ent, Inum, Count, Canon, MapOf;
    MapOfIs(c, Count(c), name);
  }

  /** dirlookup(): the inode number and offset of the name. */
  method Dirlookup(fs: FileSys, dp: nat, name: seq<byte>) returns (r: Option<(nat, nat)>)
    requires && fs.Valid() && dp < |fs.inodes| && Sized(fs.inodes) && IsDir(fs.inodes, fs.disk, dp)
             && Readable(name, DIRSIZ)
    modifies fs`disk, fs`inodes, fs`owner, fs`logged
    ensures && fs.disk == old(fs.disk) && fs.inodes == old(fs.inodes) && fs.owner == old(fs.owner)
            && fs.logged == old(fs.logged)
    ensures Finds(Content(fs.inodes, fs.disk, dp), Canon(name), r)
  {
    hide Owned, HoleFree, Content, Canon;
    ghost var c := Content(fs.inodes, fs.disk, dp);
    var off := 0;
    while off < fs.inodes[dp].size
      invariant off % DESIZE == 0
      invariant && fs.disk == old(fs.disk) && fs.inodes == old(fs.inodes) && fs.owner == old(fs.owner)
                && fs.logged == old(fs.logged)
      invariant forall l: nat :: l < off / DESIZE && l < Count(c) ==> !Named(c, l, Canon(name))
    {
      var de := ReadEntry(fs, dp, off);
      if Inum(de) != 0 {
        var cmp := Namecmp(name, de[2..]);
        if cmp == 0 {
          return Some((Inum(de), off));
        }
      }
      off := off + DESIZE;
    }
    return None;
  }

  /** The search of dirlink() for a place: the first free entry, else the end. */
  method FindFree(fs: FileSys, dp: nat) returns (off: nat)
    requires fs.Valid() && dp < |fs.inodes| && Sized(fs.inodes) && IsDir(fs.inodes, fs.disk, dp)
    modifies fs`disk, fs`inodes, fs`owner, fs`logged
    ensures && fs.disk == old(fs.disk) && fs.inodes == old(fs.inodes) && fs.owner == old(fs.owner)
            && fs.logged == old(fs.logged)
    ensures off % DESIZE == 0 && off <= fs.inodes[dp].size
    ensures var c := Content(fs.inodes, fs.disk, dp);
            && (off < |c| ==> off / DESIZE < Count(c) && !Live(c, off / DESIZE))
            && forall l: nat :: l < off / DESIZE && l < Count(c) ==> Live(c, l)
  {
    hide Owned, HoleFree, Content;
    ghost var c := Content(fs.inodes, fs.disk, dp);
    off := 0;
    while off < fs.inodes[dp].size
      invariant off % DESIZE == 0 && off <= |c|
      invariant && fs.disk == old(fs.disk) && fs.inodes == old(fs.inodes) && fs.owner == old(fs.owner)
                && fs.logged == old(fs.logged)
      invariant forall l: nat :: l < off / DESIZE && l < Count(c) ==> Live(c, l)
    {
      WholeRoom(c, off);
      var de := ReadEntry(fs, dp, off);
      if Inum(de) == 0 {
        return;
      }
      off := off + DESIZE;
    }
  }

  /** What dirlink() and unlink change: the contents of directory dp, and with them its size and block numbers. */
  ghost predicate OnlyDir(inodes: seq<Inode>, disk: seq<Block>, dinodes: seq<Inode>, inodes': seq<Inode>,
                          disk': seq<Block>, dinodes': seq<Inode>, dp: nat)
    requires dp < |inodes|
  {
    && |inodes'| == |inodes| && OthersSame(inodes, disk, inodes', disk', dp)
    && inodes'[dp] == inodes[dp].(size := inodes'[dp].size, addrs := inodes'[dp].addrs)
    && (forall j :: 0 <= j < |inodes| && HoleFree(inodes, disk, j) ==> HoleFree(inodes', disk', j))
    && (dinodes == inodes ==> dinodes' == inodes')
  }

  /** Entries in use stay where they are. */
  ghost predicate LiveKept(c: seq<byte>, c': seq<byte>) {
    forall l: nat :: l < Count(c) && Live(c, l) ==> Same(c, c', l)
  }

  /** The directory has no free entry. */
  ghost predicate AllLive(c: seq<byte>) {
    forall l: nat :: l < Count(c) ==> Live(c, l)
  }

  /** A new entry of directory dp cannot be had with room free blocks: none is free, and the directory cannot grow. */
  ghost predicate Crowded(inodes: seq<Inode>, disk: seq<Block>, dp: nat, room: int)
    requires dp < |inodes| && inodes[dp].size <= MAXBYTES
  {
    && AllLive(Content(inodes, disk, dp))
    && (inodes[dp].size == MAXBYTES || room < Need(inodes, disk, dp, inodes[dp].size / BSIZE))
  }

  /** How many free blocks a new entry of directory dp takes. */
  ghost function EntryNeed(inodes: seq<Inode>, disk: seq<Block>, dp: nat): (n: nat)
    requires dp < |inodes| && inodes[dp].size <= MAXBYTES
    ensures n <= 2
  {
    if AllLive(Content(inodes, disk, dp)) && inodes[dp].size < MAXBYTES then
      Need(inodes, disk, dp, inodes[dp].size / BSIZE)
    else 0
  }

  lemma {:induction false} LiveCount(c: seq<byte>, n: nat)
    requires Unique(c) && AllLive(c) && n <= Count(c)
    ensures |MapOf(c, n).Keys| == n
  {
    hide Canon, Ent, Inum;
    if n > 0 {
      LiveCount(c, n - 1);
      var x := NameAt(c, n - 1);
      assert Live(c, n - 1);
      MapOfIs(c, n - 1, x);
      assert MapOf(c, n).Keys == MapOf(c, n - 1).Keys + {x};
    }
  }

  /** With two blocks to spare a directory with fewer names than fit has room for another. */
  lemma NotCrowded(inodes: seq<Inode>, disk: seq<Block>, dp: nat, room: int)
    requires && dp < |inodes| && inodes[dp].size <= MAXBYTES && IsDir(inodes, disk, dp)
             && Unique(Content(inodes, disk, dp))
    requires |DirMap(Content(inodes, disk, dp)).Keys| * DESIZE < MAXBYTES && room >= 2
    ensures !Crowded(inodes, disk, dp, room)
  {
    hide Content, HoleFree, Unique, Live, MapOf, Need;
    var c := Content(inodes, disk, dp);
    if AllLive(c) {
      LiveCount(c, Count(c));
      assert |c| == Count(c) * DESIZE;
    }
  }

  /** What a change of an entry in block bn of directory dp logs: its inode, and the block with what mapping it takes.
      */
  ghost predicate EntryLogs(g: Geometry, inodes: seq<Inode>, disk: seq<Block>, dp: nat, bn: nat, was: set<nat>,
                            now: set<nat>) {
    && dp < |inodes| && bn < MAXFILE
    && forall c :: c in now ==> c in was || c == InodeBlock(g, dp) || Mine(g, inodes, disk, dp, bn, bn + 1, c)
  }

  /** An entry is in one block. */
  lemma EntryBlock(inodes: seq<Inode>, disk: seq<Block>, dp: nat, off: nat)
    requires dp < |inodes| && off % DESIZE == 0 && off < MAXBYTES
    ensures off + DESIZE <= MAXBYTES && EndBlock(off, DESIZE) == off / BSIZE + 1 && off / BSIZE < MAXFILE
    ensures Needs(inodes, disk, dp, off / BSIZE, EndBlock(off, DESIZE)) == Need(inodes, disk, dp, off / BSIZE)
  {
    hide Needs, Need;
    assert off % BSIZE + DESIZE <= BSIZE;
    NeedIs(inodes, disk, dp, off / BSIZE);
  }

  /** A directory has the block of each of its entries. */
  lemma EntryThere(inodes: seq<Inode>, disk: seq<Block>, dp: nat, off: nat)
    requires dp < |inodes| && HoleFree(inodes, disk, dp) && off < inodes[dp].size
    ensures off / BSIZE < MAXFILE && Need(inodes, disk, dp, off / BSIZE) == 0
  {
    hide At;
    CoveredBlock(inodes, disk, dp, off);
  }

  /** Stores entry e at off; none stands for the panics of a full disk or a directory of the largest size. */
  method StoreEntry(fs: FileSys, dp: nat, off: nat, e: seq<byte>) returns (r: Option<int>)
    requires fs.Valid() && dp < |fs.inodes| && Sized(fs.inodes) && IsDir(fs.inodes, fs.disk, dp)
    requires off % DESIZE == 0 && off <= fs.inodes[dp].size && |e| == DESIZE
    modifies fs`disk, fs`inodes, fs`dinodes, fs`owner, fs`logged
    ensures r.None? <==>
              off == MAXBYTES || Room(fs.g, old(fs.owner)) < Need(old(fs.inodes), old(fs.disk), dp, off / BSIZE)
    ensures r.None? ==> old(off == fs.inodes[dp].size) && (Full(fs.g, fs.disk) || old(fs.inodes[dp].size == MAXBYTES))
    ensures r.Some? ==>
              && Room(fs.g, fs.owner) == Room(fs.g, old(fs.owner)) - Need(old(fs.inodes), old(fs.disk), dp, off / BSIZE)
              && EntryLogs(fs.g, fs.inodes, fs.disk, dp, off / BSIZE, old(fs.logged), fs.logged)
              && r == Some(0) && fs.Valid() && Sized(fs.inodes) && |fs.inodes| == old(|fs.inodes|)
              && IsDir(fs.inodes, fs.disk, dp)
              && OnlyDir(old(fs.inodes), old(fs.disk), old(fs.dinodes), fs.inodes, fs.disk, fs.dinodes, dp)
              && Replaced(old(Content(fs.inodes, fs.disk, dp)), Content(fs.inodes, fs.disk, dp), off / DESIZE, e)
  {
    hide Owned, HoleFree, Content, Full, Mine, EndBlock, Splice, Needs, Need, Grown, TopGrown, Covers;
    ghost var c := Content(fs.inodes, fs.disk, dp);
    StoreRoom(c, off, e);
    if off < MAXBYTES {
      EntryBlock(fs.inodes, fs.disk, dp, off);
    }
    if off < fs.inodes[dp].size {
      EntryThere(fs.inodes, fs.disk, dp, off);
      RoomIs(fs.g, fs.inodes, fs.disk, {}, fs.owner);
    }
    var n := Writei(fs, dp, e, off);
    if n != Some(DESIZE) {
      return None;
    }
    assert old(fs.dinodes == fs.inodes) ==> fs.dinodes == fs.inodes;
    return Some(0);
  }

  lemma StoreRoom(c: seq<byte>, off: nat, e: seq<byte>)
    requires Whole(c) && off % DESIZE == 0 && off <= |c| <= MAXBYTES && |e| == DESIZE
    ensures && off / DESIZE * DESIZE == off && off / DESIZE <= Count(c)
            && Replaced(c, Splice(c, off, e), off / DESIZE, e) && Whole(Splice(c, off, e))
    ensures off + DESIZE > MAXBYTES ==> off == |c| == MAXBYTES
  {
    hide Splice;
    assert off / DESIZE * DESIZE == off;
    ReplacedEntries(c, Splice(c, off, e), off / DESIZE, e);
  }

  /** dirlink(): the map gains the name, or the name was there and nothing changes. */
  method Dirlink(fs: FileSys, dp: nat, name: seq<byte>, inum: nat) returns (r: Option<int>, ghost bn: nat)
    requires && fs.Valid() && dp < |fs.inodes| && Sized(fs.inodes) && IsDir(fs.inodes, fs.disk, dp)
             && Readable(name, DIRSIZ) && 0 < inum < 0x1_0000
    requires Unique(Content(fs.inodes, fs.disk, dp))
    modifies fs`disk, fs`inodes, fs`dinodes, fs`owner, fs`logged
    ensures r == Some(-1) <==> Canon(name) in DirMap(old(Content(fs.inodes, fs.disk, dp)))
    ensures r == Some(-1) ==>
              && fs.disk == old(fs.disk) && fs.inodes == old(fs.inodes) && fs.owner == old(fs.owner)
              && fs.logged == old(fs.logged) && fs.dinodes == old(fs.dinodes)
    ensures r.None? <==> && Canon(name) !in DirMap(old(Content(fs.inodes, fs.disk, dp)))
                         && Crowded(old(fs.inodes), old(fs.disk), dp, Room(fs.g, old(fs.owner)))
    ensures r.Some? && r.value != -1 ==>
              && Room(fs.g, fs.owner) == Room(fs.g, old(fs.owner)) - EntryNeed(old(fs.inodes), old(fs.disk), dp)
              && bn <= old(fs.inodes[dp].size) / BSIZE
              && EntryLogs(fs.g, fs.inodes, fs.disk, dp, bn, old(fs.logged), fs.logged)
    ensures r.Some? && r.value != -1 ==>
              && r.value == 0 && fs.Valid() && Sized(fs.inodes) && |fs.inodes| == old(|fs.inodes|)
              && IsDir(fs.inodes, fs.disk, dp)
              && Unique(Content(fs.inodes, fs.disk, dp))
              && OnlyDir(old(fs.inodes), old(fs.disk), old(fs.dinodes), fs.inodes, fs.disk, fs.dinodes, dp)
              && DirMap(Content(fs.inodes, fs.disk, dp)) ==
                   DirMap(old(Content(fs.inodes, fs.disk, dp)))[Canon(name) := inum]
              && LiveKept(old(Content(fs.inodes, fs.disk, dp)), Content(fs.inodes, fs.disk, dp))
              && Count(Content(fs.inodes, fs.disk, dp)) <= Count(old(Content(fs.inodes, fs.disk, dp))) + 1
  {
    hide Owned, HoleFree, Content, Canon, Full, OnlyDir, DirMap, Replaced, Finds, Unique, Inum, Need, EntryLogs, Covers;
    bn := 0;
    ghost var c := Content(fs.inodes, fs.disk, dp);
    var found := Dirlookup(fs, dp, name);
    FindsIsLookup(c, Canon(name), found);
    if found.Some? {
      return Some(-1), bn;
    }
    var off := FindFree(fs, dp);
    bn := off / BSIZE;
    PlaceForEntry(fs.g, fs.inodes, fs.disk, fs.owner, dp, off);
    var copy := Strncpy(name, DIRSIZ);
    CanonCopy(name, copy);
    var de := Dirent(inum, copy);
    StoreRoom(c, off, de);
    r := StoreEntry(fs, dp, off, de);
    if r.Some? {
      ReplacedEntries(c, Content(fs.inodes, fs.disk, dp), off / DESIZE, de);
      PutKeeps(c, Content(fs.inodes, fs.disk, dp), off / DESIZE, de, Canon(name));
    }
  }

  /** Where the search for a place ends says whether a new entry takes a block. */
  lemma PlaceForEntry(g: Geometry, inodes: seq<Inode>, disk: seq<Block>, owner: map<nat, Slot>, dp: nat, off: nat)
    requires && dp < |inodes| && inodes[dp].size <= MAXBYTES && IsDir(inodes, disk, dp)
             && Owned(g, inodes, disk, {}, owner)
    requires off % DESIZE == 0 && off <= inodes[dp].size
    requires var c := Content(inodes, disk, dp);
             && (off < |c| ==> off / DESIZE < Count(c) && !Live(c, off / DESIZE))
             && forall l: nat :: l < off / DESIZE && l < Count(c) ==> Live(c, l)
    ensures off < MAXBYTES ==>
              off / BSIZE < MAXFILE && EntryNeed(inodes, disk, dp) == Need(inodes, disk, dp, off / BSIZE)
    ensures Crowded(inodes, disk, dp, Room(g, owner)) <==>
              off == MAXBYTES || (off < MAXBYTES && Room(g, owner) < Need(inodes, disk, dp, off / BSIZE))
  {
    hide Owned, HoleFree, Content, Need, Live;
    RoomIs(g, inodes, disk, {}, owner);
    var c := Content(inodes, disk, dp);
    if off < |c| {
      EntryThere(inodes, disk, dp, off);
    } else {
      assert Count(c) <= off / DESIZE;
    }
  }

  lemma CanonCopy(name: seq<byte>, copy: seq<byte>)
    requires Cut(copy, DIRSIZ) == Cut(name, DIRSIZ)
    ensures Canon(copy) == Canon(name)
  {
  }

  /** The part of sys_unlink() that erases the entry at off; it never needs a free block. */
  method EraseEntry(fs: FileSys, dp: nat, off: nat) returns (r: Option<int>)
    requires && fs.Valid() && dp < |fs.inodes| && Sized(fs.inodes) && IsDir(fs.inodes, fs.disk, dp)
             && Unique(Content(fs.inodes, fs.disk, dp))
    requires off % DESIZE == 0 && off < fs.inodes[dp].size
    requires var c := Content(fs.inodes, fs.disk, dp); off / DESIZE < Count(c) && Live(c, off / DESIZE)
    modifies fs`disk, fs`inodes, fs`dinodes, fs`owner, fs`logged
    ensures r == Some(0) && Room(fs.g, fs.owner) == Room(fs.g, old(fs.owner))
    ensures EntryLogs(fs.g, fs.inodes, fs.disk, dp, off / BSIZE, old(fs.logged), fs.logged)
    ensures && fs.Valid() && Sized(fs.inodes) && |fs.inodes| == old(|fs.inodes|) && IsDir(fs.inodes, fs.disk, dp)
            && Unique(Content(fs.inodes, fs.disk, dp))
            && OnlyDir(old(fs.inodes), old(fs.disk), old(fs.dinodes), fs.inodes, fs.disk, fs.dinodes, dp)
            && DirMap(Content(fs.inodes, fs.disk, dp)) ==
               DirMap(old(Content(fs.inodes, fs.disk, dp)))
               - {NameAt(old(Content(fs.inodes, fs.disk, dp)), off / DESIZE)}
            && forall l: nat :: l < Count(old(Content(fs.inodes, fs.disk, dp))) && l != off / DESIZE ==>
                 Same(old(Content(fs.inodes, fs.disk, dp)), Content(fs.inodes, fs.disk, dp), l)
  {
    hide Need, EntryLogs, Covers, Owned, HoleFree, Content, Canon, Full, OnlyDir, DirMap, Replaced, Unique;
    ghost var c := Content(fs.inodes, fs.disk, dp);
    var de := seq(DESIZE, _ => 0);
    EntryThere(fs.inodes, fs.disk, dp, off);
    RoomIs(fs.g, fs.inodes, fs.disk, {}, fs.owner);
    StoreRoom(c, off, de);
    r := StoreEntry(fs, dp, off, de);
    ReplacedEntries(c, Content(fs.inodes, fs.disk, dp), off / DESIZE, de);
    ClearKeeps(c, Content(fs.inodes, fs.disk, dp), off / DESIZE, de);
  }

  /** isdirempty(): no live entry from the third on. */
  method Isdirempty(fs: FileSys, dp: nat) returns (empty: bool)
    requires fs.Valid() && dp < |fs.inodes| && Sized(fs.inodes) && IsDir(fs.inodes, fs.disk, dp)
    modifies fs`disk, fs`inodes, fs`owner, fs`logged
    ensures && fs.disk == old(fs.disk) && fs.inodes == old(fs.inodes) && fs.owner == old(fs.owner)
            && fs.logged == old(fs.logged)
    ensures empty <==>
              forall l: nat ::
                2 <= l < Count(Content(fs.inodes, fs.disk, dp)) ==> !Live(Content(fs.inodes, fs.disk, dp), l)
  {
    hide Owned, HoleFree, Content;
    ghost var c := Content(fs.inodes, fs.disk, dp);
    var off := 2 * DESIZE;
    while off < fs.inodes[dp].size
      invariant off % DESIZE == 0 && off >= 2 * DESIZE
      invariant && fs.disk == old(fs.disk) && fs.inodes == old(fs.inodes) && fs.owner == old(fs.owner)
                && fs.logged == old(fs.logged)
      invariant forall l: nat :: 2 <= l < off / DESIZE && l < Count(c) ==> !Live(c, l)
    {
      var de := ReadEntry(fs, dp, off);
      if Inum(de) != 0 {
        assert Live(c, off / DESIZE);
        return false;
      }
      off := off + DESIZE;
    }
    return true;
  }
}
