/**
  The buffer cache (bio.c) over a disk whose iderw() is one atomic block transfer
  (memide.c).  Buffers live in a fixed array; the last element is the list head of the
  doubly linked LRU ring, so a pointer is an index.

  Each method is one section that runs under bcache.lock or under a buffer's sleep-lock,
  so runs that interleave several processes are sequences of these calls.
 */
module BufferCache {
  import opened Common
  import opened Blocks
  import opened RedoLog

  const NBUF: nat := 30
  const HEAD: nat := 30
  const ROOTDEV: nat := 1

  datatype Buf = Buf(dev: nat, blockno: nat, valid: bool, dirty: bool, refcnt: nat, locked: bool,
                     data: Block, next: nat, prev: nat)

  // --------------------------------------------------------------- the LRU ring

  /** Position k of the ring: the head, then order, then the head again. */
  function At(order: seq<nat>, k: int): nat {
    if 1 <= k <= |order| then order[k - 1] else HEAD
  }

  ghost predicate Linked(s: seq<Buf>, order: seq<nat>) {
    && |s| == NBUF + 1
    && Distinct(order)
    && (forall k :: 0 <= k < |order| ==> order[k] < NBUF)
    && (forall k :: 0 <= k <= |order| ==> s[At(order, k)].next == At(order, k + 1))
    && (forall k :: 1 <= k <= |order| + 1 ==> s[At(order, k)].prev == At(order, k - 1))
  }

  /** The ring holds every buffer exactly once. */
  ghost predicate Ring(s: seq<Buf>, order: seq<nat>) {
    && Linked(s, order)
    && |order| == NBUF
    && (forall b :: 0 <= b < NBUF ==> b in order)
  }

  function Without(order: seq<nat>, k: nat): (r: seq<nat>)
    requires k < |order|
  {
    order[..k] + order[k + 1..]
  }

  /** b->next->prev = b->prev; b->prev->next = b->next */
  function Unlink(s: seq<Buf>, b: nat): (r: seq<Buf>)
    requires b < |s| && s[b].next < |s| && s[b].prev < |s|
  {
    var t := s[s[b].next := s[s[b].next].(prev := s[b].prev)];
    t[s[b].prev := t[s[b].prev].(next := s[b].next)]
  }

  /** b->next = head.next; b->prev = &head; head.next->prev = b; head.next = b */
  function LinkFront(s: seq<Buf>, b: nat): (r: seq<Buf>)
    requires b < |s| == NBUF + 1 && s[HEAD].next < |s|
  {
    var t := s[b := s[b].(next := s[HEAD].next, prev := HEAD)];
    var u := t[s[HEAD].next := t[s[HEAD].next].(prev := b)];
    u[HEAD := u[HEAD].(next := b)]
  }

  /** The two states differ in ring links only. */
  ghost predicate SameButLinks(s: seq<Buf>, t: seq<Buf>) {
    && |s| == |t|
    && forall i :: 0 <= i < |s| ==> t[i] == s[i].(next := t[i].next, prev := t[i].prev)
  }

  /** Every position of the ring but the closing one names a different slot. */
  lemma AtInjective(order: seq<nat>, i: nat, j: nat)
    requires Distinct(order) && forall k :: 0 <= k < |order| ==> order[k] < NBUF
    requires i <= |order| && j <= |order| && i != j
    ensures At(order, i) != At(order, j)
  {
  }

  lemma UnlinkNext(s: seq<Buf>, order: seq<nat>, k: nat, j: nat)
    requires Linked(s, order) && k < |order| && j < |order|
    requires s[order[k]].next == At(order, k + 2) && s[order[k]].prev == At(order, k)
    ensures var w := Without(order, k); Unlink(s, order[k])[At(w, j)].next == At(w, j + 1)
  {
    var w := Without(order, k);
    var o := if j <= k then j else j + 1;
    assert At(w, j) == At(order, o);
    assert At(w, j + 1) == At(order, if j < k then j + 1 else j + 2);
    assert s[At(order, o)].next == At(order, o + 1);
    if o != k {
      AtInjective(order, o, k);
    }
  }

  lemma UnlinkPrev(s: seq<Buf>, order: seq<nat>, k: nat, j: nat)
    requires Linked(s, order) && k < |order| && 1 <= j <= |order|
    requires s[order[k]].next == At(order, k + 2) && s[order[k]].prev == At(order, k)
    ensures var w := Without(order, k); Unlink(s, order[k])[At(w, j)].prev == At(w, j - 1)
  {
    var w := Without(order, k);
    var o := if j <= k then j else j + 1;
    assert At(w, j) == At(order, o);
    assert At(w, j - 1) == At(order, if j - 1 <= k then j - 1 else j);
    assert s[At(order, o)].prev == At(order, o - 1);
    if o != k + 2 {
      AtInjective(order, if o == |order| + 1 then 0 else o, if k + 2 == |order| + 1 then 0 else k + 2);
    }
  }

  lemma UnlinkRemoves(s: seq<Buf>, order: seq<nat>, k: nat)
    requires Linked(s, order) && k < |order|
    ensures s[order[k]].next < |s| && s[order[k]].prev < |s|
    ensures Linked(Unlink(s, order[k]), Without(order, k))
    ensures SameButLinks(s, Unlink(s, order[k]))
  {
    assert order[k] == At(order, k + 1);
    assert s[At(order, k + 1)].next == At(order, k + 2) && s[At(order, k + 1)].prev == At(order, k);
    var w := Without(order, k);
    forall j | 0 <= j <= |w| ensures Unlink(s, order[k])[At(w, j)].next == At(w, j + 1) {
      UnlinkNext(s, order, k, j);
    }
    forall j | 1 <= j <= |w| + 1 ensures Unlink(s, order[k])[At(w, j)].prev == At(w, j - 1) {
      UnlinkPrev(s, order, k, j);
    }
  }

  lemma LinkFrontAdds(s: seq<Buf>, order: seq<nat>, b: nat)
    requires Linked(s, order) && b < NBUF && b !in order
    ensures s[HEAD].next < |s|
    ensures Linked(LinkFront(s, b), [b] + order)
    ensures SameButLinks(s, LinkFront(s, b))
  {
    var w := [b] + order;
    assert s[At(order, 0)].next == At(order, 1);
    var t := LinkFront(s, b);
    forall j | 0 <= j <= |w| ensures t[At(w, j)].next == At(w, j + 1) {
      assert At(w, j + 1) == if j == 0 then b else At(order, j);
      assert j >= 2 ==> At(w, j) == At(order, j - 1);
    }
    forall j | 1 <= j <= |w| + 1 ensures t[At(w, j)].prev == At(w, j - 1) {
      assert j >= 2 ==> At(w, j) == At(order, j - 1);
      assert j >= 3 ==> At(w, j - 1) == At(order, j - 2);
    }
  }

  lemma MoveToFront(s: seq<Buf>, order: seq<nat>, k: nat)
    requires Ring(s, order) && k < |order|
    ensures s[order[k]].next < |s| && s[order[k]].prev < |s|
    ensures s[order[k]].next != order[k] && s[order[k]].prev != order[k]
    ensures Unlink(s, order[k])[HEAD].next < |s|
    ensures Ring(LinkFront(Unlink(s, order[k]), order[k]), [order[k]] + Without(order, k))
    ensures SameButLinks(s, LinkFront(Unlink(s, order[k]), order[k]))
  {
    UnlinkRemoves(s, order, k);
    assert s[At(order, k + 1)].next == At(order, k + 2) && s[At(order, k + 1)].prev == At(order, k);
    LinkFrontAdds(Unlink(s, order[k]), Without(order, k), order[k]);
    var w := [order[k]] + Without(order, k);
    forall b | 0 <= b < NBUF ensures b in w {
      assert b in order;
      var j :| 0 <= j < |order| && order[j] == b;
      if j < k {
        assert w[j + 1] == b;
      } else if j > k {
        assert w[j] == b;
      }
    }
  }

  // --------------------------------------------------------------- cache consistency

  predicate Holds(b: Buf, dev: nat, blockno: nat) {
    b.dev == dev && b.blockno == blockno
  }

  predicate Recyclable(b: Buf) {
    b.refcnt == 0 && !b.dirty
  }

  ghost predicate Cached(s: seq<Buf>, dev: nat, blockno: nat)
    requires |s| == NBUF + 1
  {
    exists i :: 0 <= i < NBUF && Holds(s[i], dev, blockno)
  }

  ghost predicate Loaded(s: seq<Buf>, blockno: nat)
    requires |s| == NBUF + 1
  {
    exists i :: 0 <= i < NBUF && s[i].valid && s[i].blockno == blockno
  }

  ghost predicate PinnedIn(s: seq<Buf>, blockno: nat)
    requires |s| == NBUF + 1
  {
    exists i :: 0 <= i < NBUF && s[i].dirty && s[i].blockno == blockno
  }

  ghost predicate GoodBuf(b: Buf, disk: Disk, view: Disk, pinned: set<nat>) {
    && (b.locked ==> b.refcnt > 0)
    && (b.valid ==> b.dev == ROOTDEV && b.blockno in disk && b.blockno in view && view[b.blockno] == b.data)
    && (b.dirty ==> b.valid && b.blockno in pinned)
    && (b.valid && !b.dirty && !b.locked ==> disk[b.blockno] == b.data)
  }

  /** Apart from the buffers binit() leaves on device 0, no block has two buffers. */
  ghost predicate Unique(s: seq<Buf>)
    requires |s| == NBUF + 1
  {
    forall i, j :: 0 <= i < j < NBUF && s[i].dev == s[j].dev && s[i].blockno == s[j].blockno ==> s[i].dev == 0
  }

  lemma SameKeysUnique(s: seq<Buf>, t: seq<Buf>)
    requires |s| == |t| == NBUF + 1 && Unique(s)
    requires forall i :: 0 <= i < NBUF ==> t[i].dev == s[i].dev && t[i].blockno == s[i].blockno
    ensures Unique(t)
  {
  }

  lemma UniqueLoaded(s: seq<Buf>, i: nat, j: nat)
    requires |s| == NBUF + 1 && Unique(s) && i < NBUF && j < NBUF && i != j
    requires s[i].dev == s[j].dev != 0
    ensures s[i].blockno != s[j].blockno
  {
  }

  /** view is the latest contents of every block; pinned is the set of logged, not yet installed blocks. */
  ghost predicate Consistent(s: seq<Buf>, disk: Disk, view: Disk, pinned: set<nat>) {
    && |s| == NBUF + 1
    && disk.Keys == view.Keys
    && (forall i :: 0 <= i < NBUF ==> GoodBuf(s[i], disk, view, pinned))
    && Unique(s)
    && (forall b :: b in disk && !Loaded(s, b) ==> view[b] == disk[b])
    && (forall b :: b in pinned ==> PinnedIn(s, b))
  }

  /** Buffers may change locks, counts and links without changing what is loaded or pinned. */
  lemma SameContents(s: seq<Buf>, t: seq<Buf>)
    requires |s| == |t| == NBUF + 1
    requires forall i :: 0 <= i < NBUF ==>
               t[i].valid == s[i].valid && t[i].blockno == s[i].blockno && t[i].dirty == s[i].dirty
    ensures forall b :: Loaded(s, b) ==> Loaded(t, b)
    ensures forall b :: PinnedIn(s, b) ==> PinnedIn(t, b)
  {
    forall b | Loaded(s, b) ensures Loaded(t, b) {
      var i :| 0 <= i < NBUF && s[i].valid && s[i].blockno == b;
      assert t[i].valid;
    }
    forall b | PinnedIn(s, b) ensures PinnedIn(t, b) {
      var i :| 0 <= i < NBUF && s[i].dirty && s[i].blockno == b;
      assert t[i].dirty;
    }
  }

  // --------------------------------------------------------------- what one update keeps

  lemma RingSameLinks(s: seq<Buf>, t: seq<Buf>, order: seq<nat>)
    requires Ring(s, order) && |t| == |s|
    requires forall i :: 0 <= i < |s| ==> t[i].next == s[i].next && t[i].prev == s[i].prev
    ensures Ring(t, order)
  {
  }

  lemma StoreConsistent(s: seq<Buf>, b: nat, data: Block, disk: Disk, view: Disk, pinned: set<nat>)
    requires Consistent(s, disk, view, pinned) && b < NBUF && s[b].locked && s[b].valid
    ensures Consistent(s[b := s[b].(data := data)], disk, view[s[b].blockno := data], pinned)
  {
    hide Unique;
    var t := s[b := s[b].(data := data)];
    SameKeysUnique(s, t);
    assert GoodBuf(s[b], disk, view, pinned);
    SameContents(s, t);
    forall i | 0 <= i < NBUF ensures GoodBuf(t[i], disk, view[s[b].blockno := data], pinned) {
      assert GoodBuf(s[i], disk, view, pinned);
    }
    assert Loaded(t, s[b].blockno) by {
      assert t[b].valid;
    }
  }

  lemma PinConsistent(s: seq<Buf>, b: nat, disk: Disk, view: Disk, pinned: set<nat>)
    requires Consistent(s, disk, view, pinned) && b < NBUF && s[b].locked && s[b].valid
    ensures Consistent(s[b := s[b].(dirty := true)], disk, view, pinned + {s[b].blockno})
  {
    hide Unique;
    var t := s[b := s[b].(dirty := true)];
    SameKeysUnique(s, t);
    forall bno | Loaded(s, bno) ensures Loaded(t, bno) {
      var i :| 0 <= i < NBUF && s[i].valid && s[i].blockno == bno;
      assert t[i].valid;
    }
    forall bno | bno in pinned + {s[b].blockno} ensures PinnedIn(t, bno) {
      assert t[b].dirty;
      if bno in pinned {
        assert PinnedIn(s, bno);
        var i :| 0 <= i < NBUF && s[i].dirty && s[i].blockno == bno;
        assert t[i].dirty;
      }
    }
    forall i | 0 <= i < NBUF ensures GoodBuf(t[i], disk, view, pinned + {s[b].blockno}) {
      assert GoodBuf(s[i], disk, view, pinned);
    }
  }

  lemma WriteConsistent(s: seq<Buf>, b: nat, disk: Disk, view: Disk, pinned: set<nat>)
    requires Consistent(s, disk, view, pinned) && b < NBUF && s[b].locked && s[b].valid
    ensures s[b].blockno in disk
    ensures Consistent(s[b := s[b].(dirty := false)], disk[s[b].blockno := s[b].data], view, pinned - {s[b].blockno})
  {
    hide Unique, Loaded, PinnedIn;
    var t := s[b := s[b].(dirty := false)];
    SameKeysUnique(s, t);
    assert GoodBuf(s[b], disk, view, pinned);
    forall bno | Loaded(s, bno) ensures Loaded(t, bno) {
      CleanedLoaded(s, b, bno);
    }
    forall bno | bno in pinned - {s[b].blockno} ensures PinnedIn(t, bno) {
      assert PinnedIn(s, bno);
      CleanedPinned(s, b, bno);
    }
    ItIsLoaded(t, b);
    forall i | 0 <= i < NBUF ensures GoodBuf(t[i], disk[s[b].blockno := s[b].data], view, pinned - {s[b].blockno}) {
      WriteGood(s, b, disk, view, pinned, i);
    }
  }

  lemma ItIsLoaded(s: seq<Buf>, b: nat)
    requires |s| == NBUF + 1 && b < NBUF && s[b].valid
    ensures Loaded(s, s[b].blockno)
  {
  }

  lemma CleanedLoaded(s: seq<Buf>, b: nat, bno: nat)
    requires |s| == NBUF + 1 && b < NBUF && Loaded(s, bno)
    ensures Loaded(s[b := s[b].(dirty := false)], bno)
  {
    var i :| 0 <= i < NBUF && s[i].valid && s[i].blockno == bno;
    assert s[b := s[b].(dirty := false)][i].valid;
  }

  lemma CleanedPinned(s: seq<Buf>, b: nat, bno: nat)
    requires |s| == NBUF + 1 && b < NBUF && PinnedIn(s, bno) && bno != s[b].blockno
    ensures PinnedIn(s[b := s[b].(dirty := false)], bno)
  {
    var i :| 0 <= i < NBUF && s[i].dirty && s[i].blockno == bno;
    assert s[b := s[b].(dirty := false)][i].dirty;
  }

  lemma WriteGood(s: seq<Buf>, b: nat, disk: Disk, view: Disk, pinned: set<nat>, i: nat)
    requires && Consistent(s, disk, view, pinned) && b < NBUF && s[b].locked && s[b].valid && i < NBUF
             && s[b].blockno in disk
    ensures var t := s[b := s[b].(dirty := false)];
            GoodBuf(t[i], disk[s[b].blockno := s[b].data], view, pinned - {s[b].blockno})
  {
    hide Unique, Loaded, PinnedIn;
    assert GoodBuf(s[i], disk, view, pinned) && GoodBuf(s[b], disk, view, pinned);
    if i != b && s[i].valid {
      UniqueLoaded(s, i, b);
    }
  }

  lemma ReleaseConsistent(s: seq<Buf>, b: nat, disk: Disk, view: Disk, pinned: set<nat>)
    requires Consistent(s, disk, view, pinned) && b < NBUF && s[b].locked && s[b].refcnt > 0
    requires s[b].valid && !s[b].dirty ==> s[b].blockno in disk && disk[s[b].blockno] == s[b].data
    ensures Consistent(s[b := s[b].(locked := false, refcnt := s[b].refcnt - 1)], disk, view, pinned)
  {
    hide Unique, Loaded, PinnedIn;
    var t := s[b := s[b].(locked := false, refcnt := s[b].refcnt - 1)];
    SameKeysUnique(s, t);
    SameContents(s, t);
    forall i | 0 <= i < NBUF ensures GoodBuf(t[i], disk, view, pinned) {
      assert GoodBuf(s[i], disk, view, pinned);
    }
  }

  lemma LinksOnlyConsistent(s: seq<Buf>, t: seq<Buf>, disk: Disk, view: Disk, pinned: set<nat>)
    requires Consistent(s, disk, view, pinned) && SameButLinks(s, t)
    ensures Consistent(t, disk, view, pinned)
  {
    SameContents(s, t);
    forall i | 0 <= i < NBUF ensures GoodBuf(t[i], disk, view, pinned) {
      assert GoodBuf(s[i], disk, view, pinned);
    }
  }

  lemma BumpKeepsValid(before: seq<Buf>, b: nat, order: seq<nat>, disk: Disk, view: Disk, pinned: set<nat>)
    requires b < NBUF && Ring(before, order) && Consistent(before, disk, view, pinned)
    ensures var s := before[b := before[b].(refcnt := before[b].refcnt + 1)];
            Ring(s, order) && Consistent(s, disk, view, pinned)
  {
    SameContents(before, before[b := before[b].(refcnt := before[b].refcnt + 1)]);
  }

  /** A recyclable buffer agrees with the disk, so dropping its contents loses nothing. */
  lemma RecycleKeepsValid(before: seq<Buf>, b: nat, dev: nat, blockno: nat, order: seq<nat>, disk: Disk, view: Disk,
                          pinned: set<nat>)
    requires b < NBUF && Ring(before, order) && Consistent(before, disk, view, pinned)
    requires Recyclable(before[b]) && dev != 0 && !Cached(before, dev, blockno)
    ensures var s := before[b := before[b].(dev := dev, blockno := blockno, valid := false,
                                            dirty := false, refcnt := 1)];
            Ring(s, order) && Consistent(s, disk, view, pinned)
  {
    var s := before[b := before[b].(dev := dev, blockno := blockno, valid := false,
                                    dirty := false, refcnt := 1)];
    assert forall i :: 0 <= i < NBUF ==> !Holds(before[i], dev, blockno);
    forall bno | Loaded(before, bno) && bno in disk ensures Loaded(s, bno) || view[bno] == disk[bno] {
      var i :| 0 <= i < NBUF && before[i].valid && before[i].blockno == bno;
      if i != b {
        assert s[i].valid;
      }
    }
    forall bno | PinnedIn(before, bno) ensures PinnedIn(s, bno) {
      var i :| 0 <= i < NBUF && before[i].dirty && before[i].blockno == bno;
      assert s[i].dirty;
    }
  }

  lemma FillKeepsValid(before: seq<Buf>, b: nat, order: seq<nat>, disk: Disk, view: Disk, pinned: set<nat>)
    requires b < NBUF && Ring(before, order) && Consistent(before, disk, view, pinned)
    requires !before[b].valid && before[b].dev == ROOTDEV && before[b].blockno in disk
    ensures var s := before[b := before[b].(data := disk[before[b].blockno], valid := true)];
            Ring(s, order) && Consistent(s, disk, view, pinned)
  {
    var s := before[b := before[b].(data := disk[before[b].blockno], valid := true)];
    assert !Loaded(before, before[b].blockno) by {
      assert forall i :: 0 <= i < NBUF ==> GoodBuf(before[i], disk, view, pinned);
    }
    forall bno | Loaded(before, bno) ensures Loaded(s, bno) {
      var i :| 0 <= i < NBUF && before[i].valid && before[i].blockno == bno;
      assert s[i].valid;
    }
    forall bno | PinnedIn(before, bno) ensures PinnedIn(s, bno) {
      var i :| 0 <= i < NBUF && before[i].dirty && before[i].blockno == bno;
      assert s[i].dirty;
    }
  }

  // --------------------------------------------------------------- a buffer can be found

  lemma {:induction false} Pigeonhole(keys: seq<nat>, bound: set<nat>)
    requires Distinct(keys) && forall i :: 0 <= i < |keys| ==> keys[i] in bound
    ensures |keys| <= |bound|
  {
    if keys != [] {
      var k := |keys| - 1;
      Pigeonhole(keys[..k], bound - {keys[k]});
    }
  }

  /** If fewer than NBUF blocks are pinned or in use, some buffer can be recycled. */
  lemma SomeRecyclable(s: seq<Buf>, disk: Disk, view: Disk, pinned: set<nat>, held: set<nat>)
    requires Consistent(s, disk, view, pinned)
    requires forall i :: 0 <= i < NBUF && s[i].refcnt > 0 ==> s[i].dev == ROOTDEV && s[i].blockno in held
    requires |pinned + held| < NBUF
    ensures exists i :: 0 <= i < NBUF && Recyclable(s[i])
  {
    if forall i :: 0 <= i < NBUF ==> !Recyclable(s[i]) {
      var keys := seq(NBUF, i requires 0 <= i < NBUF => s[i].blockno);
      assert forall i :: 0 <= i < NBUF ==> s[i].dev == ROOTDEV && keys[i] in pinned + held;
      Pigeonhole(keys, pinned + held);
      assert false;
    }
  }

  // --------------------------------------------------------------- the cache

  class Cache {
    const bufs: array<Buf>
    var disk: Disk
    ghost var order: seq<nat>
    ghost var view: Disk
    ghost var pinned: set<nat>
    ghost var trace: seq<Write>

    ghost predicate Valid()
      reads this, bufs
    {
      && bufs.Length == NBUF + 1
      && Ring(bufs[..], order)
      && Consistent(bufs[..], disk, view, pinned)
    }

    /** No process holds or waits for a buffer. */
    ghost predicate Idle()
      reads bufs
    {
      bufs.Length == NBUF + 1 && forall i :: 0 <= i < NBUF ==> bufs[i].refcnt == 0
    }

    /** binit() after a boot: the disk survives, memory starts empty. */
    constructor (d: Disk)
      ensures Valid() && Idle() && fresh(bufs)
      ensures disk == view == d && pinned == {} && trace == []
    {
      bufs := new Buf[NBUF + 1](_ => Buf(0, 0, false, false, 0, false, Zeros(), HEAD, HEAD));
      disk, view, pinned, trace, order := d, d, {}, [], [];
      new;
      assert forall i :: 0 <= i < NBUF ==> !bufs[i].valid && !bufs[i].dirty && bufs[i].dev == 0;
      for b := 0 to NBUF
        invariant Linked(bufs[..], order) && |order| == b
        invariant forall i :: 0 <= i < |order| ==> order[i] == b - 1 - i
        invariant disk == view == d && pinned == {} && trace == []
        invariant forall i :: 0 <= i < NBUF ==>
          bufs[i].refcnt == 0 && !bufs[i].valid && !bufs[i].dirty && !bufs[i].locked && bufs[i].dev == 0
      {
        LinkFrontAdds(bufs[..], order, b);
        InsertFront(b);
        order := [b] + order;
      }
      forall b | 0 <= b < NBUF ensures b in order {
        assert order[NBUF - 1 - b] == b;
      }
    }

    /** The four pointer assignments that put b first in the ring. */
    method InsertFront(b: nat)
      requires bufs.Length == NBUF + 1 && b < NBUF && bufs[HEAD].next <= NBUF
      modifies bufs
      ensures bufs[..] == LinkFront(old(bufs[..]), b)
    {
      bufs[b] := bufs[b].(next := bufs[HEAD].next, prev := HEAD);
      var first := bufs[HEAD].next;
      bufs[first] := bufs[first].(prev := b);
      bufs[HEAD] := bufs[HEAD].(next := b);
    }

    /** The two pointer assignments that take b out of the ring. */
    method Remove(b: nat)
      requires bufs.Length == NBUF + 1 && b < NBUF && bufs[b].next <= NBUF && bufs[b].prev <= NBUF
      requires bufs[b].next != b && bufs[b].prev != b
      modifies bufs
      ensures bufs[..] == Unlink(old(bufs[..]), b)
    {
      var next, prev := bufs[b].next, bufs[b].prev;
      bufs[next] := bufs[next].(prev := prev);
      bufs[prev] := bufs[prev].(next := next);
    }

    /** bget(): the buffer already holding the block, else the least recently used buffer that is
        neither in use nor dirty; None is the panic "bget: no buffers". */
    method Bget(dev: nat, blockno: nat) returns (r: Option<nat>)
      requires Valid() && dev != 0
      modifies bufs
      ensures Valid()
      ensures r.None? <==> !old(Cached(bufs[..], dev, blockno))
                           && old(forall i :: 0 <= i < NBUF ==> !Recyclable(bufs[i]))
      ensures r.None? ==> bufs[..] == old(bufs[..])
      ensures r.Some? ==> r.value < NBUF
      ensures r.Some? && old(Cached(bufs[..], dev, blockno)) ==>
                var b := r.value;
                && old(Holds(bufs[b], dev, blockno))
                && bufs[..] == old(bufs[..])[b := old(bufs[b]).(refcnt := old(bufs[b]).refcnt + 1)]
      ensures r.Some? && !old(Cached(bufs[..], dev, blockno)) ==>
                var b := r.value;
                && old(Recyclable(bufs[b]))
                && bufs[..] == old(bufs[..])[b := old(bufs[b]).(dev := dev, blockno := blockno, valid := false,
                                                               dirty := false, refcnt := 1)]
                && exists k :: 0 <= k < NBUF && order[k] == b &&
                     forall j :: k < j < NBUF ==> !old(Recyclable(bufs[order[j]]))
    {
      var b := bufs[HEAD].next;
      ghost var k := 0;
      assert At(order, 0) == HEAD;
      while b != HEAD
        invariant 0 <= k <= NBUF && b == At(order, k + 1)
        invariant forall j :: 0 <= j < k ==> !Holds(bufs[order[j]], dev, blockno)
        decreases NBUF - k
      {
        if bufs[b].dev == dev && bufs[b].blockno == blockno {
          assert Cached(bufs[..], dev, blockno);
          ghost var before := bufs[..];
          bufs[b] := bufs[b].(refcnt := bufs[b].refcnt + 1);
          assert bufs[..] == before[b := before[b].(refcnt := before[b].refcnt + 1)];
          BumpKeepsValid(before, b, order, disk, view, pinned);
          return Some(b);
        }
        b := bufs[b].next;
        k := k + 1;
      }
      forall i | 0 <= i < NBUF ensures !Holds(bufs[i], dev, blockno) {
        assert i in order;
      }

      b := bufs[HEAD].prev;
      k := NBUF;
      assert At(order, NBUF + 1) == HEAD;
      while b != HEAD
        invariant 0 <= k <= NBUF && b == At(order, k)
        invariant forall j :: k <= j < NBUF ==> !Recyclable(bufs[order[j]])
        decreases k
      {
        if bufs[b].refcnt == 0 && !bufs[b].dirty {
          assert order[k - 1] == b;
          ghost var before := bufs[..];
          bufs[b] := bufs[b].(dev := dev, blockno := blockno, valid := false, dirty := false, refcnt := 1);
          assert bufs[..] == before[b := before[b].(dev := dev, blockno := blockno, valid := false,
                                                    dirty := false, refcnt := 1)];
          RecycleKeepsValid(before, b, dev, blockno, order, disk, view, pinned);
          return Some(b);
        }
        b := bufs[b].prev;
        k := k - 1;
      }
      forall i | 0 <= i < NBUF ensures !Recyclable(bufs[i]) {
        assert i in order;
      }
      return None;
    }

    /** acquiresleep(&b->lock), at the moment the lock is free. */
    method AcquireSleep(b: nat)
      requires Valid() && b < NBUF && bufs[b].refcnt > 0 && !bufs[b].locked
      modifies bufs
      ensures Valid()
      ensures bufs[..] == old(bufs[..])[b := old(bufs[b]).(locked := true)]
    {
      ghost var before := bufs[..];
      bufs[b] := bufs[b].(locked := true);
      assert bufs[..] == before[b := before[b].(locked := true)];
      SameContents(before, bufs[..]);
    }

    /** bread(): the locked buffer with the latest contents of the block.  None is a panic: no buffer,
        or iderw() on another device or past the end of the disk.  A call on a block that another
        process has locked sleeps first; this is the call once the lock is free. */
    method Bread(dev: nat, blockno: nat) returns (r: Option<nat>)
      requires Valid() && dev != 0
      requires forall i :: 0 <= i < NBUF && Holds(bufs[i], dev, blockno) ==> !bufs[i].locked
      modifies bufs
      ensures Valid()
      ensures r.None? <==> || dev != ROOTDEV || blockno !in disk
                           || (!old(Cached(bufs[..], dev, blockno))
                               && old(forall i :: 0 <= i < NBUF ==> !Recyclable(bufs[i])))
      ensures r.Some? ==>
                var b := r.value;
                && b < NBUF && var c := bufs[b];
                && Holds(c, dev, blockno) && c.locked && c.valid && c.data == view[blockno]
                && (forall i :: 0 <= i < NBUF && i != b ==> bufs[i] == old(bufs[i]))
                && (if old(Cached(bufs[..], dev, blockno)) then
                      && old(Holds(bufs[b], dev, blockno)) && c.refcnt == old(bufs[b].refcnt) + 1
                      && c.dirty == old(bufs[b].dirty)
                    else old(Recyclable(bufs[b])) && c.refcnt == 1 && !c.dirty)
    {
      r := Bget(dev, blockno);
      if r == None {
        return;
      }
      var b := r.value;
      assert Holds(bufs[b], dev, blockno) && !bufs[b].locked;
      AcquireSleep(b);
      assert GoodBuf(bufs[..][b], disk, view, pinned);
      var ok := Fill(b);
      if !ok {
        return None;
      }
    }

    /** bread() once the buffer's sleep-lock is held, also after a sleep: iderw() unless the buffer is valid.  False is
        the panic of iderw(). */
    method Fill(b: nat) returns (ok: bool)
      requires Valid() && b < NBUF && bufs[b].locked && bufs[b].refcnt > 0
      modifies bufs
      ensures Valid()
      ensures ok <==> old(bufs[b].valid) || (old(bufs[b].dev) == ROOTDEV && old(bufs[b].blockno) in disk)
      ensures ok ==>
                && old(bufs[b].blockno) in view
                && bufs[..] == old(bufs[..])[b := old(bufs[b]).(data := view[old(bufs[b].blockno)], valid := true)]
      ensures !ok ==> bufs[..] == old(bufs[..])
    {
      hide Ring;
      assert GoodBuf(bufs[..][b], disk, view, pinned);
      if !bufs[b].valid {
        if bufs[b].dev != ROOTDEV || bufs[b].blockno !in disk {
          return false;
        }
        ghost var before := bufs[..];
        bufs[b] := bufs[b].(data := disk[bufs[b].blockno], valid := true);
        assert bufs[..] == before[b := before[b].(data := disk[before[b].blockno], valid := true)];
        FillKeepsValid(before, b, order, disk, view, pinned);
        assert GoodBuf(bufs[..][b], disk, view, pinned);
      } else {
        assert bufs[..] == bufs[..][b := bufs[b].(data := view[bufs[b].blockno], valid := true)];
      }
      return true;
    }

    /** The holder of the lock overwrites the data. */
    method Store(b: nat, data: Block)
      requires Valid() && b < NBUF && bufs[b].locked && bufs[b].valid
      modifies this`view, bufs
      ensures Valid()
      ensures bufs[..] == old(bufs[..])[b := old(bufs[b]).(data := data)]
      ensures view == old(view)[old(bufs[b]).blockno := data]
    {
      hide Consistent, Ring;
      ghost var before := bufs[..];
      StoreConsistent(before, b, data, disk, view, pinned);
      bufs[b] := bufs[b].(data := data);
      view := view[bufs[b].blockno := data];
      assert bufs[..] == before[b := before[b].(data := data)];
      RingSameLinks(before, bufs[..], order);
    }

    /** b->flags |= B_DIRTY, as log_write() does. */
    method Pin(b: nat)
      requires Valid() && b < NBUF && bufs[b].locked && bufs[b].valid
      modifies this`pinned, bufs
      ensures Valid()
      ensures bufs[..] == old(bufs[..])[b := old(bufs[b]).(dirty := true)]
      ensures pinned == old(pinned) + {old(bufs[b]).blockno}
    {
      hide Consistent, Ring;
      ghost var before := bufs[..];
      PinConsistent(before, b, disk, view, pinned);
      bufs[b] := bufs[b].(dirty := true);
      pinned := pinned + {bufs[b].blockno};
      assert bufs[..] == before[b := before[b].(dirty := true)];
      RingSameLinks(before, bufs[..], order);
    }

    /** bwrite(): the locked buffer goes to disk and is clean. */
    method Bwrite(b: nat)
      requires Valid() && b < NBUF && bufs[b].locked && bufs[b].valid
      modifies this`disk, this`pinned, this`trace, bufs
      ensures Valid()
      ensures bufs[..] == old(bufs[..])[b := old(bufs[b]).(dirty := false)]
      ensures disk == old(disk)[old(bufs[b]).blockno := old(bufs[b]).data]
      ensures disk.Keys == old(disk).Keys
      ensures pinned == old(pinned) - {old(bufs[b]).blockno}
      ensures trace == old(trace) + [Write(old(bufs[b]).blockno, old(bufs[b]).data)]
    {
      hide Consistent, Ring;
      ghost var before := bufs[..];
      WriteConsistent(before, b, disk, view, pinned);
      bufs[b] := bufs[b].(dirty := false);
      disk := disk[bufs[b].blockno := bufs[b].data];
      pinned := pinned - {bufs[b].blockno};
      trace := trace + [Write(bufs[b].blockno, bufs[b].data)];
      assert bufs[..] == before[b := before[b].(dirty := false)];
      RingSameLinks(before, bufs[..], order);
    }

    /** brelse(): unlock and drop the reference; the last one moves the buffer to the front of the ring.
        The holder has logged or written whatever it changed. */
    method Brelse(b: nat)
      requires Valid() && b < NBUF && bufs[b].locked && bufs[b].refcnt > 0
      requires bufs[b].valid && !bufs[b].dirty ==> bufs[b].blockno in disk && disk[bufs[b].blockno] == bufs[b].data
      modifies this`order, bufs
      ensures Valid()
      ensures SameButLinks(old(bufs[..])[b := old(bufs[b]).(locked := false, refcnt := old(bufs[b]).refcnt - 1)],
                           bufs[..])
      ensures if old(bufs[b].refcnt) > 1 then order == old(order)
              else exists k :: 0 <= k < NBUF && old(order)[k] == b && order == [b] + Without(old(order), k)
    {
      hide Consistent, Linked, Distinct;
      ghost var before := bufs[..];
      ReleaseConsistent(before, b, disk, view, pinned);
      bufs[b] := bufs[b].(locked := false, refcnt := bufs[b].refcnt - 1);
      ghost var s := bufs[..];
      assert s == before[b := before[b].(locked := false, refcnt := before[b].refcnt - 1)];
      RingSameLinks(before, s, order);
      if bufs[b].refcnt == 0 {
        assert b in order;
        ghost var k :| 0 <= k < |order| && order[k] == b;
        MoveToFront(s, order, k);
        Remove(b);
        InsertFront(b);
        order := [b] + Without(order, k);
        LinksOnlyConsistent(s, bufs[..], disk, view, pinned);
      }
    }
  }
}
