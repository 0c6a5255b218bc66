/**
  The directory graph behind link(), unlink(), create() and mkdir() (sysfile.c): the link count of every inode is the
  number of entries that name it in linked directories, "." aside.
 */
module LinkCounts {
  import opened Common

  type Name = seq<byte>

  const DOT: Name := [46]
  const DOTDOT: Name := [46, 46]
  const ROOT: nat := 1

  /** For each inode: is it a directory, its link count, and its entries. */
  datatype Graph = Graph(isdir: seq<bool>, nl: seq<int>, dirs: seq<map<Name, nat>>)

  ghost predicate Shape(g: Graph) {
    |g.isdir| == |g.nl| == |g.dirs| && ROOT < |g.nl|
  }

  function Put(m: map<Name, nat>, n: Name, i: nat): (r: map<Name, nat>) {
    m[n := i]
  }

  // --------------------------------------------------------------- counting entries

  /** The entries of m that count as links to x. */
  ghost function Naming(m: map<Name, nat>, x: nat): (r: set<Name>) {
    set n | n in m && n != DOT && m[n] == x
  }

  /** What a directory with count v and entries m adds to the links of x. */
  ghost function Part(m: map<Name, nat>, v: int, x: nat): (r: nat) {
    if v > 0 then |Naming(m, x)| else 0
  }

  /** The entries naming x in linked directories, among the first k inodes. */
  ghost function Upto(g: Graph, x: nat, k: nat): (r: nat)
    requires Shape(g) && k <= |g.nl|
  {
    if k == 0 then 0 else Upto(g, x, k - 1) + Part(g.dirs[k - 1], g.nl[k - 1], x)
  }

  ghost function Total(g: Graph, x: nat): (r: nat)
    requires Shape(g)
  {
    Upto(g, x, |g.nl|)
  }

  /** Changing one inode changes its own part. */
  lemma {:induction false} UptoChange(g: Graph, g': Graph, d: nat, x: nat, k: nat)
    requires Shape(g) && Shape(g') && |g'.nl| == |g.nl| && d < |g.nl| && k <= |g.nl|
    requires forall j :: 0 <= j < |g.nl| && j != d ==> Part(g'.dirs[j], g'.nl[j], x) == Part(g.dirs[j], g.nl[j], x)
    ensures Upto(g', x, k) ==
              Upto(g, x, k) + if d < k then Part(g'.dirs[d], g'.nl[d], x) - Part(g.dirs[d], g.nl[d], x) else 0
  {
    hide Part;
    if k > 0 {
      UptoChange(g, g', d, x, k - 1);
    }
  }

  lemma TotalChange(g: Graph, g': Graph, d: nat, x: nat)
    requires Shape(g) && Shape(g') && |g'.nl| == |g.nl| && d < |g.nl|
    requires forall j :: 0 <= j < |g.nl| && j != d ==> Part(g'.dirs[j], g'.nl[j], x) == Part(g.dirs[j], g.nl[j], x)
    ensures Total(g', x) == Total(g, x) + Part(g'.dirs[d], g'.nl[d], x) - Part(g.dirs[d], g.nl[d], x)
  {
    UptoChange(g, g', d, x, |g.nl|);
  }

  lemma {:induction false} UptoAtLeast(g: Graph, d: nat, x: nat, k: nat)
    requires Shape(g) && d < k <= |g.nl|
    ensures Upto(g, x, k) >= Part(g.dirs[d], g.nl[d], x)
  {
    if d < k - 1 {
      UptoAtLeast(g, d, x, k - 1);
    }
  }

  lemma {:induction false} UptoZero(g: Graph, x: nat, k: nat)
    requires Shape(g) && k <= |g.nl| && forall j :: 0 <= j < k ==> Part(g.dirs[j], g.nl[j], x) == 0
    ensures Upto(g, x, k) == 0
  {
    hide Part;
    if k > 0 {
      UptoZero(g, x, k - 1);
    }
  }

  /** A counted entry makes the count positive. */
  lemma Counted(g: Graph, d: nat, n: Name)
    requires Shape(g) && d < |g.nl| && g.nl[d] > 0 && n in g.dirs[d] && n != DOT
    ensures Total(g, g.dirs[d][n]) >= 1
  {
    var x := g.dirs[d][n];
    assert n in Naming(g.dirs[d], x);
    UptoAtLeast(g, d, x, |g.nl|);
  }

  /** One more name for i. */
  lemma NamingPut(m: map<Name, nat>, n: Name, i: nat, x: nat)
    requires n !in m && n != DOT
    ensures |Naming(Put(m, n, i), x)| == |Naming(m, x)| + if x == i then 1 else 0
  {
    if x == i {
      assert Naming(Put(m, n, i), x) == Naming(m, x) + {n};
    } else {
      assert Naming(Put(m, n, i), x) == Naming(m, x);
    }
  }

  lemma NamingRemove(m: map<Name, nat>, n: Name, x: nat)
    requires n in m && n != DOT
    ensures |Naming(m - {n}, x)| == |Naming(m, x)| - if x == m[n] then 1 else 0
  {
    if x == m[n] {
      assert Naming(m - {n}, x) == Naming(m, x) - {n} && n in Naming(m, x);
    } else {
      assert Naming(m - {n}, x) == Naming(m, x);
    }
  }

  /** A directory with only its two dots counts as one link to its parent. */
  lemma NamingDots(m: map<Name, nat>, x: nat)
    requires m.Keys == {DOT, DOTDOT}
    ensures |Naming(m, x)| == if x == m[DOTDOT] then 1 else 0
  {
    assert DOTDOT != DOT;
    if x == m[DOTDOT] {
      assert Naming(m, x) == {DOTDOT};
    } else {
      assert Naming(m, x) == {};
    }
  }

  // --------------------------------------------------------------- the invariant

  ghost predicate Regular(n: Name) {
    n != DOT && n != DOTDOT
  }

  /** Directory d has its dots; without links it has nothing else. */
  ghost predicate DotsOk(g: Graph, d: nat)
    requires Shape(g) && d < |g.nl|
  {
    && DOT in g.dirs[d] && g.dirs[d][DOT] == d && DOTDOT in g.dirs[d]
    && (g.nl[d] == 0 ==> g.dirs[d].Keys == {DOT, DOTDOT})
    && (forall n :: n in g.dirs[d] ==> g.dirs[d][n] < |g.nl|)
  }

  /** A directory is named, dots aside, only in its parent and only once there. */
  ghost predicate NamedOnce(g: Graph, d: nat, n: Name)
    requires Shape(g) && d < |g.nl| && n in g.dirs[d]
  {
    var c := g.dirs[d][n];
    c < |g.nl| && g.isdir[c] ==>
      && c != ROOT && c != d && DOTDOT in g.dirs[c] && g.dirs[c][DOTDOT] == d
      && forall n' :: n' in g.dirs[d] && Regular(n') && g.dirs[d][n'] == c ==> n' == n
  }

  /** A linked directory other than the root is named in its parent. */
  ghost predicate HasParent(g: Graph, d: nat)
    requires Shape(g) && d < |g.nl|
  {
    DOTDOT in g.dirs[d] &&
    var p := g.dirs[d][DOTDOT];
    if d == ROOT then p == ROOT
    else p < |g.nl| && g.isdir[p] && g.nl[p] > 0 && exists n :: Names(g, p, n, d)
  }

  /** Directory p has d under the name n. */
  ghost predicate Names(g: Graph, p: nat, n: Name, d: nat)
    requires Shape(g) && p < |g.nl|
  {
    n in g.dirs[p] && Regular(n) && g.dirs[p][n] == d
  }

  ghost predicate Good(g: Graph) {
    && Shape(g) && g.isdir[ROOT] && g.nl[ROOT] > 0
    && (forall x :: 0 <= x < |g.nl| ==> g.nl[x] == Total(g, x))
    && (forall d :: 0 <= d < |g.nl| && g.isdir[d] ==> DotsOk(g, d))
    && (forall d :: 0 <= d < |g.nl| && !g.isdir[d] ==> g.dirs[d] == map[])
    && (forall d, n :: 0 <= d < |g.nl| && g.nl[d] > 0 && n in g.dirs[d] && Regular(n) ==> NamedOnce(g, d, n))
    && (forall d :: 0 <= d < |g.nl| && g.isdir[d] && g.nl[d] > 0 ==> HasParent(g, d))
  }

  lemma GoodDots(g: Graph, d: nat)
    requires Good(g) && d < |g.nl| && g.isdir[d]
    ensures Shape(g) && DotsOk(g, d)
  {
  }

  lemma GoodFile(g: Graph, d: nat)
    requires Good(g) && d < |g.nl| && !g.isdir[d]
    ensures Shape(g) && g.dirs[d] == map[]
  {
  }

  lemma GoodNamed(g: Graph, d: nat, n: Name)
    requires Good(g) && d < |g.nl| && g.nl[d] > 0 && n in g.dirs[d] && Regular(n)
    ensures Shape(g) && NamedOnce(g, d, n) && g.isdir[d]
  {
    hide Total;
  }

  lemma GoodParent(g: Graph, d: nat)
    requires Good(g) && d < |g.nl| && g.isdir[d] && g.nl[d] > 0
    ensures Shape(g) && HasParent(g, d)
  {
  }

  lemma GoodShape(g: Graph)
    requires Good(g)
    ensures Shape(g) && g.isdir[ROOT] && g.nl[ROOT] > 0
  {
  }

  lemma GoodCount(g: Graph, x: nat)
    requires Good(g) && x < |g.nl|
    ensures Shape(g) && g.nl[x] == Total(g, x)
  {
  }

  // --------------------------------------------------------------- a link to a file

  ghost function Linked(g: Graph, dp: nat, n: Name, i: nat): (r: Graph)
    requires Shape(g) && dp < |g.nl| && i < |g.nl|
  {
    g.(nl := g.nl[i := g.nl[i] + 1], dirs := g.dirs[dp := Put(g.dirs[dp], n, i)])
  }

  /** A file i and a directory dp that does not have the name n. */
  ghost predicate CanLink(g: Graph, dp: nat, n: Name, i: nat) {
    Shape(g) && dp < |g.nl| && g.isdir[dp] && i < |g.nl| && !g.isdir[i] && n !in g.dirs[dp]
  }

  lemma LinkedTotals(g: Graph, dp: nat, n: Name, i: nat, x: nat)
    requires CanLink(g, dp, n, i) && Good(g)
    ensures Total(Linked(g, dp, n, i), x) == Total(g, x) + if g.nl[dp] > 0 && x == i then 1 else 0
  {
    hide Total, Good;
    var g' := Linked(g, dp, n, i);
    GoodDots(g, dp);
    GoodFile(g, i);
    NamingEmpty(x);
    TotalChange(g, g', dp, x);
    NamingPut(g.dirs[dp], n, i, x);
  }

  lemma NamingEmpty(x: nat)
    ensures |Naming(map[], x)| == 0
  {
    assert Naming(map[], x) == {};
  }

  ghost predicate AllCounts(g: Graph)
    requires Shape(g)
  {
    forall x :: 0 <= x < |g.nl| ==> g.nl[x] == Total(g, x)
  }

  ghost predicate AllDots(g: Graph)
    requires Shape(g)
  {
    && (forall d :: 0 <= d < |g.nl| && g.isdir[d] ==> DotsOk(g, d))
    && (forall d :: 0 <= d < |g.nl| && !g.isdir[d] ==> g.dirs[d] == map[])
  }

  ghost predicate AllNamedOnce(g: Graph)
    requires Shape(g)
  {
    forall d, n :: 0 <= d < |g.nl| && g.nl[d] > 0 && n in g.dirs[d] && Regular(n) ==> NamedOnce(g, d, n)
  }

  ghost predicate AllParents(g: Graph)
    requires Shape(g)
  {
    forall d :: 0 <= d < |g.nl| && g.isdir[d] && g.nl[d] > 0 ==> HasParent(g, d)
  }

  /** Linking a file keeps the invariant exactly when the directory is linked itself. */
  lemma LinkKeeps(g: Graph, dp: nat, n: Name, i: nat)
    requires CanLink(g, dp, n, i) && Good(g)
    ensures Good(Linked(g, dp, n, i)) <==> g.nl[dp] > 0
  {
    hide Total, Good, AllCounts, AllDots, AllNamedOnce, AllParents;
    var g' := Linked(g, dp, n, i);
    LinkedTotals(g, dp, n, i, i);
    GoodCount(g, i);
    if Good(g') {
      GoodCount(g', i);
    }
    if g.nl[dp] > 0 {
      LinkedCounts(g, dp, n, i);
      LinkedShape(g, dp, n, i);
      GoodShape(g);
      MakeGood(g');
    }
  }

  lemma MakeGood(g: Graph)
    requires && Shape(g) && g.isdir[ROOT] && g.nl[ROOT] > 0 && AllCounts(g) && AllDots(g) && AllNamedOnce(g)
             && AllParents(g)
    ensures Good(g)
  {
    hide Total;
  }

  lemma LinkedCounts(g: Graph, dp: nat, n: Name, i: nat)
    requires CanLink(g, dp, n, i) && Good(g) && g.nl[dp] > 0
    ensures AllCounts(Linked(g, dp, n, i))
  {
    hide Total, Good;
    var g' := Linked(g, dp, n, i);
    forall x | 0 <= x < |g.nl| ensures g'.nl[x] == Total(g', x) {
      LinkedTotals(g, dp, n, i, x);
      GoodCount(g, x);
    }
  }

  lemma LinkedShape(g: Graph, dp: nat, n: Name, i: nat)
    requires CanLink(g, dp, n, i) && Good(g) && g.nl[dp] > 0
    ensures var g' := Linked(g, dp, n, i); AllDots(g') && AllNamedOnce(g') && AllParents(g')
  {
    hide Good, DotsOk, NamedOnce, HasParent;
    var g' := Linked(g, dp, n, i);
    forall d | 0 <= d < |g.nl| && g.isdir[d] ensures DotsOk(g', d) {
      LinkedDots(g, dp, n, i, d);
    }
    forall d | 0 <= d < |g.nl| && !g.isdir[d] ensures g'.dirs[d] == map[] {
      GoodFile(g, d);
    }
    forall d, m | 0 <= d < |g.nl| && g'.nl[d] > 0 && m in g'.dirs[d] && Regular(m) ensures NamedOnce(g', d, m) {
      LinkedNamed(g, dp, n, i, d, m);
    }
    forall d | 0 <= d < |g.nl| && g'.isdir[d] && g'.nl[d] > 0 ensures HasParent(g', d) {
      LinkedParent(g, dp, n, i, d);
    }
  }

  lemma LinkedDots(g: Graph, dp: nat, n: Name, i: nat, d: nat)
    requires CanLink(g, dp, n, i) && Good(g) && g.nl[dp] > 0 && d < |g.nl| && g.isdir[d]
    ensures DotsOk(Linked(g, dp, n, i), d)
  {
    hide Good;
    GoodDots(g, d);
  }

  lemma LinkedNamed(g: Graph, dp: nat, n: Name, i: nat, d: nat, m: Name)
    requires CanLink(g, dp, n, i) && Good(g) && g.nl[dp] > 0 && d < |g.nl| && Regular(m)
    requires var g' := Linked(g, dp, n, i); g'.nl[d] > 0 && m in g'.dirs[d]
    ensures NamedOnce(Linked(g, dp, n, i), d, m)
  {
    hide Good;
    GoodDots(g, dp);
    GoodFile(g, i);
    if d != dp || m != n {
      GoodNamed(g, d, m);
    }
  }

  lemma LinkedParent(g: Graph, dp: nat, n: Name, i: nat, d: nat)
    requires CanLink(g, dp, n, i) && Good(g) && g.nl[dp] > 0 && d < |g.nl| && g.isdir[d] && g.nl[d] > 0
    ensures HasParent(Linked(g, dp, n, i), d)
  {
    hide Good;
    var g' := Linked(g, dp, n, i);
    GoodParent(g, d);
    GoodDots(g, dp);
    if d != ROOT {
      var p := g.dirs[d][DOTDOT];
      var m :| Names(g, p, m, d);
      assert Names(g', p, m, d);
    }
  }

  // --------------------------------------------------------------- unlinking a file

  ghost function Removed(g: Graph, dp: nat, n: Name): (r: Graph)
    requires Shape(g) && dp < |g.nl| && n in g.dirs[dp] && g.dirs[dp][n] < |g.nl|
  {
    var i := g.dirs[dp][n];
    g.(nl := g.nl[i := g.nl[i] - 1], dirs := g.dirs[dp := g.dirs[dp] - {n}])
  }

  ghost predicate CanRemove(g: Graph, dp: nat, n: Name) {
    && Shape(g) && dp < |g.nl| && g.isdir[dp] && n in g.dirs[dp] && Regular(n)
    && g.dirs[dp][n] < |g.nl| && !g.isdir[g.dirs[dp][n]]
  }

  /** A directory that has a regular name is linked. */
  lemma HasNames(g: Graph, dp: nat, n: Name)
    requires Good(g) && dp < |g.nl| && g.isdir[dp] && n in g.dirs[dp] && Regular(n)
    ensures g.nl[dp] > 0 && g.dirs[dp][n] < |g.nl| && g.nl[g.dirs[dp][n]] >= 1
  {
    hide Good;
    GoodDots(g, dp);
    GoodCount(g, dp);
    Counted(g, dp, n);
    GoodCount(g, g.dirs[dp][n]);
  }

  lemma RemovedTotals(g: Graph, dp: nat, n: Name, x: nat)
    requires CanRemove(g, dp, n) && Good(g)
    ensures Total(Removed(g, dp, n), x) == Total(g, x) - if x == g.dirs[dp][n] then 1 else 0
  {
    hide Total, Good;
    HasNames(g, dp, n);
    GoodFile(g, g.dirs[dp][n]);
    NamingEmpty(x);
    TotalChange(g, Removed(g, dp, n), dp, x);
    NamingRemove(g.dirs[dp], n, x);
  }

  /** Unlinking a file keeps the invariant. */
  lemma RemoveKeeps(g: Graph, dp: nat, n: Name)
    requires CanRemove(g, dp, n) && Good(g)
    ensures Good(Removed(g, dp, n))
  {
    hide Total, Good, DotsOk, NamedOnce, HasParent;
    var g' := Removed(g, dp, n);
    HasNames(g, dp, n);
    GoodShape(g);
    forall x | 0 <= x < |g.nl| ensures g'.nl[x] == Total(g', x) {
      RemovedTotals(g, dp, n, x);
      GoodCount(g, x);
    }
    forall d | 0 <= d < |g.nl| && g.isdir[d] ensures DotsOk(g', d) {
      RemovedDots(g, dp, n, d);
    }
    forall d | 0 <= d < |g.nl| && !g.isdir[d] ensures g'.dirs[d] == map[] {
      GoodFile(g, d);
    }
    forall d, m | 0 <= d < |g.nl| && g'.nl[d] > 0 && m in g'.dirs[d] && Regular(m) ensures NamedOnce(g', d, m) {
      RemovedNamed(g, dp, n, d, m);
    }
    forall d | 0 <= d < |g.nl| && g'.isdir[d] && g'.nl[d] > 0 ensures HasParent(g', d) {
      RemovedParent(g, dp, n, d);
    }
    MakeGood(g');
  }

  lemma RemovedDots(g: Graph, dp: nat, n: Name, d: nat)
    requires CanRemove(g, dp, n) && Good(g) && d < |g.nl| && g.isdir[d]
    ensures DotsOk(Removed(g, dp, n), d)
  {
    hide Good;
    GoodDots(g, d);
    HasNames(g, dp, n);
  }

  lemma RemovedNamed(g: Graph, dp: nat, n: Name, d: nat, m: Name)
    requires CanRemove(g, dp, n) && Good(g) && d < |g.nl| && Regular(m)
    requires var g' := Removed(g, dp, n); g'.nl[d] > 0 && m in g'.dirs[d]
    ensures NamedOnce(Removed(g, dp, n), d, m)
  {
    hide Good;
    GoodNamed(g, d, m);
  }

  lemma RemovedParent(g: Graph, dp: nat, n: Name, d: nat)
    requires CanRemove(g, dp, n) && Good(g) && d < |g.nl| && g.isdir[d] && g.nl[d] > 0
    ensures HasParent(Removed(g, dp, n), d)
  {
    hide Good;
    var g' := Removed(g, dp, n);
    GoodParent(g, d);
    if d != ROOT {
      var p := g.dirs[d][DOTDOT];
      var m :| Names(g, p, m, d);
      assert Names(g', p, m, d);
    }
  }

  // --------------------------------------------------------------- unlinking an empty directory

  ghost function RemovedDir(g: Graph, dp: nat, n: Name): (r: Graph)
    requires Shape(g) && dp < |g.nl| && n in g.dirs[dp] && g.dirs[dp][n] < |g.nl| && dp != g.dirs[dp][n]
  {
    var c := g.dirs[dp][n];
    g.(nl := g.nl[c := g.nl[c] - 1][dp := g.nl[dp] - 1], dirs := g.dirs[dp := g.dirs[dp] - {n}])
  }

  ghost predicate CanRemoveDir(g: Graph, dp: nat, n: Name) {
    && Shape(g) && dp < |g.nl| && g.isdir[dp] && n in g.dirs[dp] && Regular(n)
    && var c := g.dirs[dp][n];
       c < |g.nl| && g.isdir[c] && c != dp && g.dirs[c].Keys == {DOT, DOTDOT}
  }

  /** An empty directory has one link: its name in its parent. */
  lemma EmptyHasOneLink(g: Graph, dp: nat, n: Name)
    requires CanRemoveDir(g, dp, n) && Good(g)
    ensures g.nl[g.dirs[dp][n]] == 1 && g.nl[dp] >= 2 && g.dirs[g.dirs[dp][n]][DOTDOT] == dp && g.dirs[dp][n] != ROOT
  {
    hide Good, Total, Part;
    HasNames(g, dp, n);
    GoodNamed(g, dp, n);
    var c := g.dirs[dp][n];
    var g1 := g.(dirs := g.dirs[dp := g.dirs[dp] - {n}]);
    TotalChange(g, g1, dp, c);
    PartRemove(g.dirs[dp], n, g.nl[dp], c);
    forall j | 0 <= j < |g1.nl| ensures Part(g1.dirs[j], g1.nl[j], c) == 0 {
      NobodyElse(g, dp, n, j);
    }
    TotalZero(g1, c);
    GoodCount(g, c);
    ParentHasTwo(g, dp, n);
  }

  lemma PartRemove(m: map<Name, nat>, n: Name, v: int, x: nat)
    requires n in m && n != DOT && v > 0
    ensures Part(m - {n}, v, x) == Part(m, v, x) - if x == m[n] then 1 else 0
  {
    NamingRemove(m, n, x);
  }

  lemma TotalZero(g: Graph, x: nat)
    requires Shape(g) && forall j :: 0 <= j < |g.nl| ==> Part(g.dirs[j], g.nl[j], x) == 0
    ensures Total(g, x) == 0
  {
    UptoZero(g, x, |g.nl|);
  }

  /** No entry but n of dp names the empty directory. */
  lemma NobodyElse(g: Graph, dp: nat, n: Name, j: nat)
    requires CanRemoveDir(g, dp, n) && Good(g) && j < |g.nl|
    ensures Part(if j == dp then g.dirs[dp] - {n} else g.dirs[j], g.nl[j], g.dirs[dp][n]) == 0
  {
    hide Good, Total;
    var c := g.dirs[dp][n];
    HasNames(g, dp, n);
    GoodNamed(g, dp, n);
    if g.nl[j] > 0 {
      var m := if j == dp then g.dirs[dp] - {n} else g.dirs[j];
      forall k | k in m && k != DOT ensures m[k] != c {
        NotNamed(g, dp, n, j, k);
      }
      assert Naming(m, c) == {};
    }
  }

  lemma NotNamed(g: Graph, dp: nat, n: Name, j: nat, k: Name)
    requires && CanRemoveDir(g, dp, n) && Good(g) && j < |g.nl| && g.nl[j] > 0 && k in g.dirs[j] && k != DOT
             && (j == dp ==> k != n)
    ensures g.dirs[j][k] != g.dirs[dp][n]
  {
    hide Good;
    var c := g.dirs[dp][n];
    HasNames(g, dp, n);
    GoodNamed(g, dp, n);
    if Regular(k) {
      GoodNamed(g, j, k);
    } else {
      if !g.isdir[j] {
        GoodFile(g, j);
      }
      GoodParent(g, j);
    }
  }

  /** The parent of a directory has a link of its own besides that directory's "..". */
  lemma ParentHasTwo(g: Graph, dp: nat, n: Name)
    requires CanRemoveDir(g, dp, n) && Good(g)
    ensures g.nl[dp] >= 2
  {
    hide Good, Total, Part, Naming;
    HasNames(g, dp, n);
    GoodNamed(g, dp, n);
    var c := g.dirs[dp][n];
    HasLinks(g, dp, n);
    var g1 := g.(nl := g.nl[c := 0]);
    TotalChange(g, g1, c, dp);
    PartDots(g.dirs[c], g.nl[c], dp);
    GoodParent(g, dp);
    var p := g.dirs[dp][DOTDOT];
    if dp == ROOT {
      Counted(g1, dp, DOTDOT);
    } else {
      var m :| Names(g, p, m, dp);
      assert p != c;
      Counted(g1, p, m);
    }
    GoodCount(g, dp);
  }

  lemma HasLinks(g: Graph, dp: nat, n: Name)
    requires CanRemoveDir(g, dp, n) && Good(g)
    ensures g.nl[g.dirs[dp][n]] > 0 && g.nl[dp] > 0
  {
    HasNames(g, dp, n);
  }

  lemma PartDots(m: map<Name, nat>, v: int, x: nat)
    requires m.Keys == {DOT, DOTDOT}
    ensures Part(m, v, x) == if v > 0 && x == m[DOTDOT] then 1 else 0
    ensures Part(m, 0, x) == 0
  {
    NamingDots(m, x);
  }

  lemma RemovedDirTotals(g: Graph, dp: nat, n: Name, x: nat)
    requires CanRemoveDir(g, dp, n) && Good(g)
    ensures Total(RemovedDir(g, dp, n), x) ==
              Total(g, x) - (if x == g.dirs[dp][n] then 1 else 0) - if x == dp then 1 else 0
  {
    hide Total, Good, Part, Naming;
    EmptyHasOneLink(g, dp, n);
    var c := g.dirs[dp][n];
    var g1, g' := g.(nl := g.nl[c := 0]), RemovedDir(g, dp, n);
    TotalChange(g, g1, c, x);
    PartDots(g.dirs[c], g.nl[c], x);
    PartSign(g.dirs[dp] - {n}, g'.nl[dp], g.nl[dp], x);
    PartRemove(g.dirs[dp], n, g.nl[dp], x);
    TotalChange(g1, g', dp, x);
  }

  /** Only whether there are links matters to a directory's part. */
  lemma PartSign(m: map<Name, nat>, v: int, w: int, x: nat)
    requires v > 0 && w > 0
    ensures Part(m, v, x) == Part(m, w, x)
  {
  }

  /** Unlinking an empty directory keeps the invariant and leaves the directory without links. */
  lemma RemoveDirKeeps(g: Graph, dp: nat, n: Name)
    requires CanRemoveDir(g, dp, n) && Good(g)
    ensures && Good(RemovedDir(g, dp, n)) && RemovedDir(g, dp, n).nl[g.dirs[dp][n]] == 0
            && RemovedDir(g, dp, n).nl[dp] >= 1
  {
    hide Total, Good, DotsOk, NamedOnce, HasParent;
    var g' := RemovedDir(g, dp, n);
    EmptyHasOneLink(g, dp, n);
    GoodShape(g);
    forall x | 0 <= x < |g.nl| ensures g'.nl[x] == Total(g', x) {
      RemovedDirTotals(g, dp, n, x);
      GoodCount(g, x);
    }
    forall d | 0 <= d < |g.nl| && g.isdir[d] ensures DotsOk(g', d) {
      RemovedDirDots(g, dp, n, d);
    }
    forall d | 0 <= d < |g.nl| && !g.isdir[d] ensures g'.dirs[d] == map[] {
      GoodFile(g, d);
    }
    forall d, m | 0 <= d < |g.nl| && g'.nl[d] > 0 && m in g'.dirs[d] && Regular(m) ensures NamedOnce(g', d, m) {
      RemovedDirNamed(g, dp, n, d, m);
    }
    forall d | 0 <= d < |g.nl| && g'.isdir[d] && g'.nl[d] > 0 ensures HasParent(g', d) {
      RemovedDirParent(g, dp, n, d);
    }
    MakeGood(g');
  }

  lemma RemovedDirDots(g: Graph, dp: nat, n: Name, d: nat)
    requires CanRemoveDir(g, dp, n) && Good(g) && d < |g.nl| && g.isdir[d]
    ensures DotsOk(RemovedDir(g, dp, n), d)
  {
    hide Good;
    GoodDots(g, d);
    EmptyHasOneLink(g, dp, n);
  }

  lemma RemovedDirNamed(g: Graph, dp: nat, n: Name, d: nat, m: Name)
    requires CanRemoveDir(g, dp, n) && Good(g) && d < |g.nl| && Regular(m)
    requires var g' := RemovedDir(g, dp, n); g'.nl[d] > 0 && m in g'.dirs[d]
    ensures NamedOnce(RemovedDir(g, dp, n), d, m)
  {
    hide Good;
    EmptyHasOneLink(g, dp, n);
    GoodNamed(g, d, m);
  }

  lemma RemovedDirParent(g: Graph, dp: nat, n: Name, d: nat)
    requires CanRemoveDir(g, dp, n) && Good(g) && d < |g.nl| && g.isdir[d] && RemovedDir(g, dp, n).nl[d] > 0
    ensures HasParent(RemovedDir(g, dp, n), d)
  {
    hide Good;
    var g' := RemovedDir(g, dp, n);
    EmptyHasOneLink(g, dp, n);
    GoodParent(g, d);
    if d != ROOT {
      var p := g.dirs[d][DOTDOT];
      var m :| Names(g, p, m, d);
      assert p != g.dirs[dp][n];
      assert Names(g', p, m, d);
    }
  }

  ghost function Freed(g: Graph, c: nat): (r: Graph)
    requires Shape(g) && c < |g.nl|
  {
    g.(isdir := g.isdir[c := false], dirs := g.dirs[c := map[]])
  }

  /** Freeing an inode without links keeps the invariant. */
  lemma FreeKeeps(g: Graph, c: nat)
    requires Shape(g) && Good(g) && c < |g.nl| && g.nl[c] == 0
    ensures Good(Freed(g, c))
  {
    hide Total, Part, Good, DotsOk, NamedOnce, HasParent;
    GoodShape(g);
    var g' := Freed(g, c);
    forall x | 0 <= x < |g.nl| ensures g'.nl[x] == Total(g', x) {
      TotalChange(g, g', c, x);
      PartUnlinked(g.dirs[c], x);
      PartUnlinked(map[], x);
      GoodCount(g, x);
    }
    forall d | 0 <= d < |g.nl| && g'.isdir[d] ensures DotsOk(g', d) {
      GoodDots(g, d);
      FreedDots(g, c, d);
    }
    forall d | 0 <= d < |g.nl| && !g'.isdir[d] ensures g'.dirs[d] == map[] {
      if d != c {
        GoodFile(g, d);
      }
    }
    forall d, m | 0 <= d < |g.nl| && g'.nl[d] > 0 && m in g'.dirs[d] && Regular(m) ensures NamedOnce(g', d, m) {
      FreedNamed(g, c, d, m);
    }
    forall d | 0 <= d < |g.nl| && g'.isdir[d] && g'.nl[d] > 0 ensures HasParent(g', d) {
      FreedParent(g, c, d);
    }
    MakeGood(g');
  }

  lemma PartUnlinked(m: map<Name, nat>, x: nat)
    ensures Part(m, 0, x) == 0
  {
  }

  lemma FreedDots(g: Graph, c: nat, d: nat)
    requires Shape(g) && c < |g.nl| && d < |g.nl| && d != c && DotsOk(g, d)
    ensures DotsOk(Freed(g, c), d)
  {
  }

  lemma FreedNamed(g: Graph, c: nat, d: nat, m: Name)
    requires Good(g) && c < |g.nl| && g.nl[c] == 0 && d < |g.nl| && g.nl[d] > 0 && m in g.dirs[d] && Regular(m)
    ensures Shape(g) && NamedOnce(Freed(g, c), d, m)
  {
    hide Good;
    GoodNamed(g, d, m);
  }

  lemma FreedParent(g: Graph, c: nat, d: nat)
    requires Good(g) && c < |g.nl| && g.nl[c] == 0 && d < |g.nl| && g.isdir[d] && g.nl[d] > 0
    ensures Shape(g) && HasParent(Freed(g, c), d)
  {
    hide Good;
    GoodParent(g, d);
    var g' := Freed(g, c);
    if d != ROOT {
      var p := g.dirs[d][DOTDOT];
      var m :| Names(g, p, m, d);
      assert Names(g', p, m, d);
    }
  }

  // --------------------------------------------------------------- making a directory

  ghost function DotsOf(c: nat, dp: nat): (m: map<Name, nat>)
    ensures m.Keys == {DOT, DOTDOT} == {[46], [46, 46]} && m[[46]] == c && m[[46, 46]] == dp
  {
    assert DOT != DOTDOT;
    Put(Put(map[], DOT, c), DOTDOT, dp)
  }

  ghost function Made(g: Graph, dp: nat, n: Name, c: nat): (r: Graph)
    requires Shape(g) && dp < |g.nl| && c < |g.nl|
  {
    Graph(g.isdir[c := true], g.nl[c := 1][dp := g.nl[dp] + 1], g.dirs[c := DotsOf(c, dp)][dp := Put(g.dirs[dp], n, c)])
  }

  /** c is a free inode and dp a directory that does not have the name n. */
  ghost predicate CanMake(g: Graph, dp: nat, n: Name, c: nat) {
    Shape(g) && dp < |g.nl| && g.isdir[dp] && c < |g.nl| && !g.isdir[c] && g.nl[c] == 0 && n !in g.dirs[dp]
  }

  /** No linked directory names a free inode. */
  lemma FreeNotNamed(g: Graph, c: nat, d: nat, k: Name)
    requires Good(g) && c < |g.nl| && g.nl[c] == 0 && d < |g.nl| && g.nl[d] > 0 && k in g.dirs[d] && k != DOT
    ensures g.dirs[d][k] != c
  {
    hide Good, Total;
    GoodCount(g, c);
    Counted(g, d, k);
  }

  lemma MadeTotals(g: Graph, dp: nat, n: Name, c: nat, x: nat)
    requires CanMake(g, dp, n, c) && Good(g) && g.nl[dp] > 0
    ensures Total(Made(g, dp, n, c), x) == Total(g, x) + (if x == c then 1 else 0) + if x == dp then 1 else 0
  {
    hide Total, Good, Part, Naming;
    GoodDots(g, dp);
    GoodFile(g, c);
    var g' := Made(g, dp, n, c);
    var g1 := Graph(g'.isdir, g.nl[c := 1], g.dirs[c := DotsOf(c, dp)]);
    TotalChange(g, g1, c, x);
    PartUnlinked(g.dirs[c], x);
    PartDots(DotsOf(c, dp), 1, x);
    TotalChange(g1, g', dp, x);
    PartPut(g.dirs[dp], n, c, g.nl[dp], g.nl[dp] + 1, x);
  }

  lemma PartPut(m: map<Name, nat>, n: Name, i: nat, v: int, w: int, x: nat)
    requires n !in m && n != DOT && v > 0 && w > 0
    ensures Part(Put(m, n, i), w, x) == Part(m, v, x) + if x == i then 1 else 0
  {
    NamingPut(m, n, i, x);
  }

  /** Making a directory keeps the invariant exactly when the directory it is made in is linked. */
  lemma MakeKeeps(g: Graph, dp: nat, n: Name, c: nat)
    requires CanMake(g, dp, n, c) && Good(g)
    ensures Good(Made(g, dp, n, c)) <==> g.nl[dp] > 0
  {
    hide Total, Good, DotsOk, NamedOnce, HasParent;
    GoodCount(g, dp);
    if g.nl[dp] > 0 {
      MadeGood(g, dp, n, c);
    } else if Good(Made(g, dp, n, c)) {
      MadeInUnlinked(g, dp, n, c);
    }
  }

  lemma MadeGood(g: Graph, dp: nat, n: Name, c: nat)
    requires CanMake(g, dp, n, c) && Good(g) && g.nl[dp] > 0
    ensures Good(Made(g, dp, n, c))
  {
    hide Total, Good, DotsOk, NamedOnce, HasParent;
    var g' := Made(g, dp, n, c);
    GoodShape(g);
    forall x | 0 <= x < |g.nl| ensures g'.nl[x] == Total(g', x) {
      MadeTotals(g, dp, n, c, x);
      GoodCount(g, x);
    }
    forall d | 0 <= d < |g.nl| && g'.isdir[d] ensures DotsOk(g', d) {
      MadeDots(g, dp, n, c, d);
    }
    forall d | 0 <= d < |g.nl| && !g'.isdir[d] ensures g'.dirs[d] == map[] {
      GoodFile(g, d);
    }
    forall d, m | 0 <= d < |g.nl| && g'.nl[d] > 0 && m in g'.dirs[d] && Regular(m) ensures NamedOnce(g', d, m) {
      MadeNamed(g, dp, n, c, d, m);
    }
    forall d | 0 <= d < |g.nl| && g'.isdir[d] && g'.nl[d] > 0 ensures HasParent(g', d) {
      MadeParent(g, dp, n, c, d);
    }
    MakeGood(g');
  }

  lemma MadeDots(g: Graph, dp: nat, n: Name, c: nat, d: nat)
    requires CanMake(g, dp, n, c) && Good(g) && g.nl[dp] > 0 && d < |g.nl| && (g.isdir[d] || d == c)
    ensures DotsOk(Made(g, dp, n, c), d)
  {
    hide Good;
    GoodDots(g, dp);
    if d != c {
      GoodDots(g, d);
    }
  }

  lemma MadeNamed(g: Graph, dp: nat, n: Name, c: nat, d: nat, m: Name)
    requires CanMake(g, dp, n, c) && Good(g) && g.nl[dp] > 0 && d < |g.nl| && Regular(m)
    requires var g' := Made(g, dp, n, c); g'.nl[d] > 0 && m in g'.dirs[d]
    ensures NamedOnce(Made(g, dp, n, c), d, m)
  {
    hide Good;
    GoodDots(g, dp);
    GoodShape(g);
    forall k | k in g.dirs[dp] && k != DOT ensures g.dirs[dp][k] != c {
      FreeNotNamed(g, c, dp, k);
    }
    if d != dp || m != n {
      GoodNamed(g, d, m);
      FreeNotNamed(g, c, d, m);
    }
  }

  lemma MadeParent(g: Graph, dp: nat, n: Name, c: nat, d: nat)
    requires CanMake(g, dp, n, c) && Good(g) && g.nl[dp] > 0 && d < |g.nl| && ((g.isdir[d] && g.nl[d] > 0) || d == c)
    ensures HasParent(Made(g, dp, n, c), d)
  {
    hide Good;
    var g' := Made(g, dp, n, c);
    GoodDots(g, dp);
    GoodShape(g);
    if d == c {
      assert Names(g', dp, n, c);
    } else {
      GoodParent(g, d);
      if d != ROOT {
        var p := g.dirs[d][DOTDOT];
        var m :| Names(g, p, m, d);
        assert Names(g', p, m, d);
      }
    }
  }

  /** In an unlinked directory the count of the directory itself goes wrong. */
  lemma MadeInUnlinked(g: Graph, dp: nat, n: Name, c: nat)
    requires CanMake(g, dp, n, c) && Good(g) && Good(Made(g, dp, n, c))
    ensures g.nl[dp] > 0
  {
    hide Good, Total;
    GoodShape(g);
    GoodDots(g, dp);
    GoodCount(g, dp);
    var g' := Made(g, dp, n, c);
    if g.nl[dp] == 0 {
      GoodParent(g', dp);
      var p := g'.dirs[dp][DOTDOT];
      var m :| Names(g', p, m, dp);
      assert p != c && p != dp;
      FreeNotNamed(g, dp, p, m);
    }
  }

  // --------------------------------------------------------------- the first graph

  /** An image of m inodes with only the root directory. */
  ghost function OnlyRoot(m: nat): (g: Graph)
    requires m > ROOT
    ensures Shape(g) && |g.nl| == m
  {
    Graph(seq(m, i => i == ROOT), seq(m, i => if i == ROOT then 1 else 0),
          seq(m, i => if i == ROOT then DotsOf(ROOT, ROOT) else map[]))
  }

  lemma OnlyRootGood(m: nat)
    requires m > ROOT
    ensures Good(OnlyRoot(m))
  {
    hide Part, Total, DotsOf;
    var g := OnlyRoot(m);
    forall x | 0 <= x < m ensures g.nl[x] == Total(g, x) {
      var none := g.(nl := seq(m, i => 0));
      forall j | 0 <= j < m
        ensures Part(none.dirs[j], none.nl[j], x) == 0 && (j != ROOT ==> Part(g.dirs[j], g.nl[j], x) == 0)
      {
        PartUnlinked(none.dirs[j], x);
        PartUnlinked(g.dirs[j], x);
      }
      TotalZero(none, x);
      TotalChange(none, g, ROOT, x);
      PartDots(g.dirs[ROOT], 1, x);
    }
    MakeGood(g);
  }
}
