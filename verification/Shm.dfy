/**
  System V style shared memory (shm.c): the table of segment pages with its one-pass first-fit
  search, and the attachments of processes in the window between HEAPLIMIT and KERNBASE.
  The physical page of an entry is an opaque handle.
 */
module Shm {
  import opened Common

  const SHMMAXSEG: nat := 4096
  const SHMMIN: nat := 1024
  const MAXSEGSIZE: nat := 0x100_0000

  datatype Errno = EEXIST | EINVAL | ENOENT | ENOMEM | ENOSPC | EIDRM

  datatype Result<+T> = Ok(value: T) | Err(e: Errno)

  /** One entry of shm_segs: a page of a segment.  dest is the SHM_DEST bit of the mode. */
  datatype Seg = Seg(key: int, size: nat, perm: nat, dest: bool, nattch: nat, pa: nat)

  const NOKEY: int := -1

  // --------------------------------------------------------------- runs of free entries

  /** Entries from..from+n are free and not past the last entry in use so far. */
  ghost predicate FreeRun(free: seq<bool>, from: int, n: nat) {
    0 <= from && from + n <= |free| && forall i :: from <= i < from + n ==> free[i]
  }

  /** The lowest place for n entries. */
  ghost predicate LowestRun(free: seq<bool>, at: int, n: nat) {
    FreeRun(free, at, n) && forall j :: 0 <= j < at ==> !FreeRun(free, j, n)
  }

  /** The scan shared by allocShmSeg() and shmatHelper(): si is the start of the current free run and zc its
      length; -1 if no run is long enough. */
  method FirstFit(free: seq<bool>, n: nat) returns (index: int)
    requires n >= 1
    ensures index == -1 || LowestRun(free, index, n)
    ensures index == -1 <==> forall j :: 0 <= j ==> !FreeRun(free, j, n)
  {
    var si, zc := -1, 0;
    var i := 0;
    while i < |free|
      invariant 0 <= i <= |free| && 0 <= zc < n && zc <= i
      invariant if zc == 0 then si == -1 else si == i - zc
      invariant forall j :: i - zc <= j < i ==> free[j]
      invariant zc < i ==> !free[i - zc - 1]
      invariant forall j :: 0 <= j && j + n <= i ==> !FreeRun(free, j, n)
    {
      if free[i] {
        if si == -1 {
          si := i;
        }
        zc := zc + 1;
        if zc == n {
          return si;
        }
      } else {
        si := -1;
        zc := 0;
      }
      i := i + 1;
    }
    index := -1;
  }

  // --------------------------------------------------------------- the segment table

  /** Pages of a segment of the given byte size. */
  function Pages(size: nat): nat {
    size / PGSIZE
  }

  lemma PagesOf(n: nat)
    ensures Pages(n * PGSIZE) == n
  {
  }

  /** The entry i is used exactly when it belongs to a segment; owner gives the segment's first entry. */
  ghost predicate EntryOk(segs: seq<Seg>, owner: map<nat, nat>, i: nat)
    requires i < |segs|
  {
    if i in owner then
      var s := owner[i];
      && s <= i < s + Pages(segs[i].size) && s + Pages(segs[i].size) <= |segs|
      && segs[i].key != NOKEY && segs[i].size == Pages(segs[i].size) * PGSIZE
      && segs[s].key == segs[i].key && segs[s].size == segs[i].size && segs[s].nattch == segs[i].nattch
    else segs[i].key == NOKEY && segs[i].size == 0 && segs[i].nattch == 0 && !segs[i].dest
  }

  /** The entries of segment s are exactly its pages, consecutive. */
  ghost predicate Whole(segs: seq<Seg>, owner: map<nat, nat>, s: nat)
    requires s < |segs|
  {
    forall j :: s <= j < s + Pages(segs[s].size) ==> j in owner && owner[j] == s
  }

  /** The entries up to the last one split into free entries and disjoint contiguous segments. */
  ghost predicate Split(segs: seq<Seg>, owner: map<nat, nat>) {
    && (forall i :: i in owner ==> i < |segs|)
    && (forall i :: 0 <= i < |segs| ==> EntryOk(segs, owner, i))
    && (forall i :: i in owner ==> owner[i] < |segs| && Whole(segs, owner, owner[i]))
  }

  ghost predicate IsStart(owner: map<nat, nat>, s: nat) {
    s in owner && owner[s] == s
  }

  /** Entries at..at+n of the table hold one new segment. */
  ghost predicate Filled(before: seq<Seg>, after: seq<Seg>, at: nat, n: nat, key: int, perm: nat, pages: seq<nat>) {
    && |pages| == n && at + n <= |after| && |before| <= |after|
    && (|before| < |after| ==> at == |before| && |after| == at + n)
    && (forall i :: 0 <= i < |before| && !(at <= i < at + n) ==> after[i] == before[i])
    && (forall i :: at <= i < at + n ==> after[i] == Seg(key, n * PGSIZE, perm, false, 0, pages[i - at]))
  }

  ghost function Claim(owner: map<nat, nat>, at: nat, n: nat): (r: map<nat, nat>) {
    if n == 0 then owner else Claim(owner, at, n - 1)[at + n - 1 := at]
  }

  lemma {:induction false} ClaimLookup(owner: map<nat, nat>, at: nat, n: nat)
    ensures forall i :: i in Claim(owner, at, n) <==> i in owner || at <= i < at + n
    ensures forall i :: at <= i < at + n ==> Claim(owner, at, n)[i] == at
    ensures forall i :: i in owner && !(at <= i < at + n) ==> Claim(owner, at, n)[i] == owner[i]
  {
    if n > 0 {
      ClaimLookup(owner, at, n - 1);
    }
  }

  /** A segment placed on free entries, or after the last one, keeps the split. */
  lemma FillKeepsSplit(before: seq<Seg>, after: seq<Seg>, owner: map<nat, nat>, at: nat, n: nat, key: int, perm: nat,
                       pages: seq<nat>)
    requires Split(before, owner) && n >= 1 && key != NOKEY && Filled(before, after, at, n, key, perm, pages)
    requires forall i :: at <= i < at + n ==> i !in owner
    ensures Split(after, Claim(owner, at, n)) && IsStart(Claim(owner, at, n), at)
  {
    hide Claim, Pages;
    ClaimLookup(owner, at, n);
    PagesOf(n);
    var o := Claim(owner, at, n);
    forall i | 0 <= i < |after| ensures EntryOk(after, o, i) {
      if i < |before| && !(at <= i < at + n) {
        FillEntry(before, after, owner, at, n, key, perm, pages, i);
      }
    }
    forall i | i in o ensures o[i] < |after| && Whole(after, o, o[i]) {
      FillWhole(before, after, owner, at, n, key, perm, pages, i);
    }
  }

  lemma FillWhole(before: seq<Seg>, after: seq<Seg>, owner: map<nat, nat>, at: nat, n: nat, key: int, perm: nat,
                  pages: seq<nat>, i: nat)
    requires Split(before, owner) && n >= 1 && Filled(before, after, at, n, key, perm, pages)
    requires (forall j :: at <= j < at + n ==> j !in owner) && i in Claim(owner, at, n)
    ensures var o := Claim(owner, at, n); o[i] < |after| && Whole(after, o, o[i])
  {
    hide Claim, Pages;
    ClaimLookup(owner, at, n);
    PagesOf(n);
    var o := Claim(owner, at, n);
    if !(at <= i < at + n) {
      FillEntry(before, after, owner, at, n, key, perm, pages, i);
      var s := owner[i];
      assert Whole(before, owner, s);
      forall j | s <= j < s + Pages(after[s].size) ensures j in o && o[j] == s {
        assert j in owner && owner[j] == s;
      }
    }
  }

  lemma FillEntry(before: seq<Seg>, after: seq<Seg>, owner: map<nat, nat>, at: nat, n: nat, key: int, perm: nat,
                  pages: seq<nat>, i: nat)
    requires Split(before, owner) && Filled(before, after, at, n, key, perm, pages)
    requires (forall j :: at <= j < at + n ==> j !in owner) && i < |before| && !(at <= i < at + n)
    ensures EntryOk(after, Claim(owner, at, n), i)
    ensures i in owner ==> owner[i] in owner && after[owner[i]] == before[owner[i]]
  {
    hide Claim, Pages;
    ClaimLookup(owner, at, n);
    assert EntryOk(before, owner, i);
    if i in owner {
      assert Whole(before, owner, owner[i]);
      assert owner[i] in owner;
    }
  }

  /** Entries at..at+n become free. */
  ghost predicate Cleared(before: seq<Seg>, after: seq<Seg>, at: nat, n: nat) {
    && |after| == |before| && at + n <= |before|
    && (forall i :: 0 <= i < |before| && !(at <= i < at + n) ==> after[i] == before[i])
    && (forall i :: at <= i < at + n ==> after[i] == Seg(NOKEY, 0, 0, false, 0, 0))
  }

  ghost function Unclaim(owner: map<nat, nat>, s: nat): (r: map<nat, nat>) {
    map i | i in owner && owner[i] != s :: owner[i]
  }

  lemma ClearKeepsSplit(before: seq<Seg>, after: seq<Seg>, owner: map<nat, nat>, s: nat)
    requires Split(before, owner) && IsStart(owner, s) && s < |before|
    requires Cleared(before, after, s, Pages(before[s].size))
    ensures Split(after, Unclaim(owner, s))
  {
    hide Pages;
    var o, n := Unclaim(owner, s), Pages(before[s].size);
    assert EntryOk(before, owner, s) && Whole(before, owner, s);
    forall i | 0 <= i < |after| ensures EntryOk(after, o, i) {
      ClearEntry(before, after, owner, s, i);
    }
    forall i | i in o ensures o[i] < |after| && Whole(after, o, o[i]) {
      ClearEntry(before, after, owner, s, i);
      ClearEntry(before, after, owner, s, owner[i]);
      assert Whole(before, owner, owner[i]);
    }
  }

  lemma ClearEntry(before: seq<Seg>, after: seq<Seg>, owner: map<nat, nat>, s: nat, i: nat)
    requires Split(before, owner) && IsStart(owner, s) && s < |before| && i < |before|
    requires Cleared(before, after, s, Pages(before[s].size))
    ensures EntryOk(after, Unclaim(owner, s), i)
    ensures i in owner && owner[i] != s ==> IsStart(owner, owner[i]) && after[owner[i]] == before[owner[i]]
  {
    hide Pages;
    assert EntryOk(before, owner, s) && Whole(before, owner, s) && EntryOk(before, owner, i);
    if i in owner {
      assert Whole(before, owner, owner[i]);
      assert owner[i] in owner;
    }
  }

  /** Marking a segment's pages, or counting an attachment on all of them, keeps the split. */
  lemma TouchKeepsSplit(before: seq<Seg>, after: seq<Seg>, owner: map<nat, nat>, s: nat)
    requires Split(before, owner) && IsStart(owner, s) && |after| == |before| && s < |before|
    requires forall i :: 0 <= i < |before| ==> after[i].key == before[i].key && after[i].size == before[i].size
    requires forall i ::
               0 <= i < |before| && !(i in owner && owner[i] == s) ==>
                 after[i].nattch == before[i].nattch && after[i].dest == before[i].dest
    requires forall i :: i in owner && owner[i] == s ==> after[i].nattch == after[s].nattch
    ensures Split(after, owner)
  {
    hide Pages;
    forall i | 0 <= i < |after| ensures EntryOk(after, owner, i) {
      assert EntryOk(before, owner, i);
      if i in owner {
        assert Whole(before, owner, owner[i]);
        assert owner[owner[i]] == owner[i];
      }
    }
    forall i | i in owner ensures Whole(after, owner, owner[i]) {
      assert Whole(before, owner, owner[i]);
    }
  }

  /** The first entry with a key is the start of a segment. */
  lemma FirstWithKeyStarts(segs: seq<Seg>, owner: map<nat, nat>, i: nat)
    requires Split(segs, owner) && i < |segs| && segs[i].key != NOKEY
    requires forall j :: 0 <= j < i ==> segs[j].key != segs[i].key
    ensures IsStart(owner, i)
  {
    hide Pages;
    assert EntryOk(segs, owner, i);
    assert Whole(segs, owner, owner[i]);
  }

  // --------------------------------------------------------------- page handles

  /** Each page belongs to one entry or to the free list, once. */
  ghost predicate Handles(segs: seq<Seg>, owner: map<nat, nat>, free: seq<nat>) {
    && (forall i, j :: 0 <= i < j < |free| ==> free[i] != free[j])
    && (forall i :: i in owner ==> i < |segs| && segs[i].pa !in free)
    && (forall i, j :: i in owner && j in owner && i < j ==> i < |segs| && j < |segs| && segs[i].pa != segs[j].pa)
  }

  lemma FillKeepsHandles(before: seq<Seg>, after: seq<Seg>, owner: map<nat, nat>, free: seq<nat>, at: nat, n: nat,
                         key: int, perm: nat)
    requires Handles(before, owner, free) && n <= |free| && Filled(before, after, at, n, key, perm, free[..n])
    requires forall i :: at <= i < at + n ==> i !in owner
    ensures Handles(after, Claim(owner, at, n), free[n..])
  {
    hide Claim;
    ClaimLookup(owner, at, n);
    var o := Claim(owner, at, n);
    forall i | i in o ensures i < |after| && after[i].pa !in free[n..] {
      if at <= i < at + n {
        assert after[i].pa == free[i - at];
      }
    }
    forall i, j | i in o && j in o && i < j ensures i < |after| && j < |after| && after[i].pa != after[j].pa {
      if at <= i < at + n {
        assert after[i].pa == free[i - at];
      }
      if at <= j < at + n {
        assert after[j].pa == free[j - at];
      }
    }
  }

  /** The pages of a removed segment, latest first, in front of the free list. */
  ghost function Returned(segs: seq<Seg>, s: nat, n: nat, free: seq<nat>): (r: seq<nat>)
    requires s + n <= |segs|
  {
    if n == 0 then free else [segs[s + n - 1].pa] + Returned(segs, s, n - 1, free)
  }

  lemma {:induction false} ReturnedContents(segs: seq<Seg>, s: nat, n: nat, free: seq<nat>, x: nat)
    requires s + n <= |segs|
    ensures x in Returned(segs, s, n, free) <==> x in free || exists i :: s <= i < s + n && segs[i].pa == x
  {
    if n > 0 {
      ReturnedContents(segs, s, n - 1, free, x);
    }
  }

  lemma {:induction false} ReturnedDistinct(segs: seq<Seg>, owner: map<nat, nat>, s: nat, n: nat, free: seq<nat>)
    requires Handles(segs, owner, free) && s + n <= |segs| && forall i :: s <= i < s + n ==> i in owner
    ensures var r := Returned(segs, s, n, free); forall i, j :: 0 <= i < j < |r| ==> r[i] != r[j]
  {
    if n > 0 {
      ReturnedDistinct(segs, owner, s, n - 1, free);
      ReturnedContents(segs, s, n - 1, free, segs[s + n - 1].pa);
    }
  }

  lemma ClearKeepsHandles(before: seq<Seg>, after: seq<Seg>, owner: map<nat, nat>, free: seq<nat>, s: nat, n: nat)
    requires Handles(before, owner, free) && Cleared(before, after, s, n)
    requires forall i :: s <= i < s + n ==> i in owner && owner[i] == s
    requires forall i :: i in owner && owner[i] == s ==> s <= i < s + n
    ensures Handles(after, Unclaim(owner, s), Returned(before, s, n, free))
  {
    hide Returned;
    ReturnedDistinct(before, owner, s, n, free);
    forall i | i in Unclaim(owner, s) ensures after[i].pa !in Returned(before, s, n, free) {
      ReturnedContents(before, s, n, free, before[i].pa);
    }
  }

  // --------------------------------------------------------------- attachments

  /** A process's entry of shmsegs for one page of the window. */
  datatype Slot = Slot(attached: bool, shmid: int)

  /** The window of a process: its slots, and the page each virtual page of the window maps to, if present. */
  datatype Space = Space(slots: seq<Slot>, window: seq<Option<nat>>)

  /** A live attachment: segment shmid in process pid from slot si on. */
  datatype Att = Att(pid: nat, si: nat, shmid: nat)

  ghost predicate Shape(spaces: map<nat, Space>) {
    forall p :: p in spaces ==> |spaces[p].slots| == SHMMAXSEG && |spaces[p].window| == SHMMAXSEG
  }

  /** Page k of the attachment is attached, maps the segment's page k, and belongs to no other attachment. */
  ghost predicate PageOk(segs: seq<Seg>, sp: Space, cover: map<(nat, nat), Att>, a: Att, k: nat) {
    && a.shmid + k < |segs| && a.si + k < |sp.slots| && a.si + k < |sp.window|
    && sp.slots[a.si + k] == Slot(true, a.shmid) && sp.window[a.si + k] == Some(segs[a.shmid + k].pa)
    && (a.pid, a.si + k) in cover && cover[(a.pid, a.si + k)] == a
  }

  ghost predicate AttOk(segs: seq<Seg>, owner: map<nat, nat>, spaces: map<nat, Space>, cover: map<(nat, nat), Att>,
                        a: Att) {
    && a.pid in spaces && IsStart(owner, a.shmid) && a.shmid < |segs|
    && forall k: nat :: k < Pages(segs[a.shmid].size) ==> PageOk(segs, spaces[a.pid], cover, a, k)
  }

  /** A slot is attached exactly when some live attachment covers it, and exactly then it is mapped. */
  ghost predicate SlotOk(segs: seq<Seg>, spaces: map<nat, Space>, cover: map<(nat, nat), Att>, live: set<Att>,
                         p: nat, j: nat)
    requires Shape(spaces) && p in spaces && j < SHMMAXSEG
  {
    && (spaces[p].slots[j].attached <==> (p, j) in cover)
    && (spaces[p].window[j].Some? <==> (p, j) in cover)
    && ((p, j) in cover ==>
          var a := cover[(p, j)];
          a in live && a.pid == p && a.shmid < |segs| && a.si <= j < a.si + Pages(segs[a.shmid].size))
  }

  ghost function Of(live: set<Att>, s: nat): (r: set<Att>) {
    set a | a in live && a.shmid == s
  }

  ghost predicate Attached(segs: seq<Seg>, owner: map<nat, nat>, spaces: map<nat, Space>,
                           cover: map<(nat, nat), Att>, live: set<Att>) {
    && Shape(spaces)
    && (forall a :: a in live ==> AttOk(segs, owner, spaces, cover, a))
    && (forall p, j: nat :: p in spaces && j < SHMMAXSEG ==> SlotOk(segs, spaces, cover, live, p, j))
    && (forall s: nat :: IsStart(owner, s) ==> s < |segs| && segs[s].nattch == |Of(live, s)|)
  }

  /** Segments change only where no live attachment looks. */
  lemma AttachedFrame(before: seq<Seg>, owner: map<nat, nat>, after: seq<Seg>, owner': map<nat, nat>,
                      spaces: map<nat, Space>, cover: map<(nat, nat), Att>, live: set<Att>)
    requires Split(before, owner) && Attached(before, owner, spaces, cover, live) && |before| <= |after|
    requires forall s: nat :: IsStart(owner, s) && Of(live, s) != {} ==>
               && IsStart(owner', s)
               && forall i :: s <= i < s + Pages(before[s].size) && i < |before| ==> after[i] == before[i]
    requires forall s: nat :: IsStart(owner', s) ==> s < |after| && after[s].nattch == |Of(live, s)|
    ensures Attached(after, owner', spaces, cover, live)
  {
    hide Pages;
    forall a | a in live ensures AttOk(after, owner', spaces, cover, a) && after[a.shmid].size == before[a.shmid].size {
      assert AttOk(before, owner, spaces, cover, a);
      assert a in Of(live, a.shmid);
      assert EntryOk(before, owner, a.shmid) && Whole(before, owner, a.shmid);
      forall k: nat | k < Pages(before[a.shmid].size) ensures PageOk(after, spaces[a.pid], cover, a, k) {
        assert PageOk(before, spaces[a.pid], cover, a, k);
      }
    }
    forall p, j: nat | p in spaces && j < SHMMAXSEG ensures SlotOk(after, spaces, cover, live, p, j) {
      assert SlotOk(before, spaces, cover, live, p, j);
    }
  }

  ghost function Covered(cover: map<(nat, nat), Att>, a: Att, n: nat): (r: map<(nat, nat), Att>) {
    if n == 0 then cover else Covered(cover, a, n - 1)[(a.pid, a.si + n - 1) := a]
  }

  lemma {:induction false} CoveredLookup(cover: map<(nat, nat), Att>, a: Att, n: nat)
    ensures forall p, j: nat ::
              (p, j) in Covered(cover, a, n) <==> (p, j) in cover || (p == a.pid && a.si <= j < a.si + n)
    ensures forall p, j: nat :: (p, j) in Covered(cover, a, n) ==>
              Covered(cover, a, n)[(p, j)] == if p == a.pid && a.si <= j < a.si + n then a else cover[(p, j)]
  {
    if n > 0 {
      CoveredLookup(cover, a, n - 1);
    }
  }

  /** What shmat() does to the process: slots si..si+n attached and mapped to the pages of segment shmid. */
  ghost predicate MapsIn(before: Space, after: Space, segs: seq<Seg>, a: Att, n: nat) {
    && |before.slots| == |after.slots| == |before.window| == |after.window| == SHMMAXSEG
    && a.si + n <= SHMMAXSEG && a.shmid + n <= |segs|
    && (forall j ::
          0 <= j < SHMMAXSEG && !(a.si <= j < a.si + n) ==>
            after.slots[j] == before.slots[j] && after.window[j] == before.window[j])
    && (forall j ::
          a.si <= j < a.si + n ==>
            after.slots[j] == Slot(true, a.shmid) && after.window[j] == Some(segs[a.shmid + j - a.si].pa))
  }

  /** The count of every page of segment s changes by d; nothing else does. */
  ghost predicate Recounted(before: seq<Seg>, after: seq<Seg>, s: nat, n: nat, d: int) {
    && |after| == |before| && s + n <= |before|
    && (forall i :: 0 <= i < |before| ==>
          after[i].key == before[i].key && after[i].size == before[i].size && after[i].pa == before[i].pa
          && after[i].perm == before[i].perm && (after[i].dest <==> before[i].dest || (d < 0 && i == s))
          && after[i].nattch == before[i].nattch + if s <= i < s + n then d else 0)
  }

  lemma AttachKeeps(segs: seq<Seg>, after: seq<Seg>, owner: map<nat, nat>, spaces: map<nat, Space>, sp: Space,
                    cover: map<(nat, nat), Att>, live: set<Att>, a: Att)
    requires Split(segs, owner) && Attached(segs, owner, spaces, cover, live)
    requires IsStart(owner, a.shmid) && a.shmid < |segs| && a.pid in spaces
    requires var n := Pages(segs[a.shmid].size);
             && Recounted(segs, after, a.shmid, n, 1) && MapsIn(spaces[a.pid], sp, segs, a, n)
             && forall j :: a.si <= j < a.si + n ==> !spaces[a.pid].slots[j].attached
    ensures a !in live
    ensures Attached(after, owner, spaces[a.pid := sp], Covered(cover, a, Pages(segs[a.shmid].size)), live + {a})
  {
    hide Pages, Covered;
    assert EntryOk(segs, owner, a.shmid);
    if a in live {
      LiveIsAttached(segs, owner, spaces, cover, live, a);
    }
    AttachAtts(segs, after, owner, spaces, sp, spaces[a.pid := sp], cover, live, a);
    AttachSlots(segs, after, owner, spaces, sp, spaces[a.pid := sp], cover, live, a);
    AttachCounts(segs, after, owner, live, a);
  }

  lemma LiveIsAttached(segs: seq<Seg>, owner: map<nat, nat>, spaces: map<nat, Space>, cover: map<(nat, nat), Att>,
                       live: set<Att>, a: Att)
    requires Split(segs, owner) && Attached(segs, owner, spaces, cover, live) && a in live
    ensures a.pid in spaces && a.si < SHMMAXSEG && spaces[a.pid].slots[a.si] == Slot(true, a.shmid)
  {
    hide Pages;
    assert AttOk(segs, owner, spaces, cover, a);
    assert EntryOk(segs, owner, a.shmid);
    assert PageOk(segs, spaces[a.pid], cover, a, 0);
  }

  lemma AttachSlots(segs: seq<Seg>, after: seq<Seg>, owner: map<nat, nat>, spaces: map<nat, Space>, sp: Space,
                    spaces': map<nat, Space>,
                    cover: map<(nat, nat), Att>, live: set<Att>, a: Att)
    requires Attached(segs, owner, spaces, cover, live) && a.shmid < |segs| && a.pid in spaces
    requires var n := Pages(segs[a.shmid].size);
             Recounted(segs, after, a.shmid, n, 1) && MapsIn(spaces[a.pid], sp, segs, a, n)
    requires spaces' == spaces[a.pid := sp]
    ensures Shape(spaces')
    ensures forall p, j: nat :: p in spaces' && j < SHMMAXSEG ==>
              SlotOk(after, spaces', Covered(cover, a, Pages(segs[a.shmid].size)), live + {a}, p, j)
  {
    hide Pages, Covered;
    var n := Pages(segs[a.shmid].size);
    CoveredLookup(cover, a, n);
    var cover', live' := Covered(cover, a, n), live + {a};
    forall p, j: nat | p in spaces' && j < SHMMAXSEG ensures SlotOk(after, spaces', cover', live', p, j) {
      assert SlotOk(segs, spaces, cover, live, p, j);
    }
  }

  lemma AttachCounts(segs: seq<Seg>, after: seq<Seg>, owner: map<nat, nat>, live: set<Att>, a: Att)
    requires Split(segs, owner) && IsStart(owner, a.shmid) && a.shmid < |segs| && a !in live
    requires Recounted(segs, after, a.shmid, Pages(segs[a.shmid].size), 1)
    requires forall s: nat :: IsStart(owner, s) ==> s < |segs| && segs[s].nattch == |Of(live, s)|
    ensures forall s: nat :: IsStart(owner, s) ==> s < |after| && after[s].nattch == |Of(live + {a}, s)|
  {
    hide Pages;
    var live' := live + {a};
    forall s: nat | IsStart(owner, s) ensures s < |after| && after[s].nattch == |Of(live', s)| {
      assert EntryOk(segs, owner, s) && Whole(segs, owner, a.shmid);
      if s == a.shmid {
        assert Of(live', s) == Of(live, s) + {a};
      } else {
        assert Of(live', s) == Of(live, s);
      }
    }
  }

  lemma AttachAtts(segs: seq<Seg>, after: seq<Seg>, owner: map<nat, nat>, spaces: map<nat, Space>, sp: Space,
                   spaces': map<nat, Space>,
                   cover: map<(nat, nat), Att>, live: set<Att>, a: Att)
    requires Split(segs, owner) && Attached(segs, owner, spaces, cover, live)
    requires IsStart(owner, a.shmid) && a.shmid < |segs| && a.pid in spaces
    requires var n := Pages(segs[a.shmid].size);
             && Recounted(segs, after, a.shmid, n, 1) && MapsIn(spaces[a.pid], sp, segs, a, n)
             && forall j :: a.si <= j < a.si + n ==> !spaces[a.pid].slots[j].attached
    requires spaces' == spaces[a.pid := sp]
    ensures forall b :: b in live + {a} ==>
              AttOk(after, owner, spaces', Covered(cover, a, Pages(segs[a.shmid].size)), b)
  {
    hide Pages, Covered;
    var n := Pages(segs[a.shmid].size);
    CoveredLookup(cover, a, n);
    var cover' := Covered(cover, a, n);
    forall b | b in live + {a} ensures AttOk(after, owner, spaces', cover', b) {
      if b == a {
        forall k: nat | k < n ensures PageOk(after, sp, cover', a, k) {
          assert sp.slots[a.si + k] == Slot(true, a.shmid);
        }
      } else {
        assert AttOk(segs, owner, spaces, cover, b);
        forall k: nat | k < Pages(segs[b.shmid].size) ensures PageOk(after, spaces'[b.pid], cover', b, k) {
          assert PageOk(segs, spaces[b.pid], cover, b, k);
        }
      }
    }
  }

  // --------------------------------------------------------------- detaching

  ghost function Uncovered(cover: map<(nat, nat), Att>, a: Att): (r: map<(nat, nat), Att>) {
    map k | k in cover && cover[k] != a :: cover[k]
  }

  /** What shmdt() does to the process: slots si..si+n detached and unmapped. */
  ghost predicate MapsOut(before: Space, after: Space, a: Att, n: nat) {
    && |before.slots| == |after.slots| == |before.window| == |after.window| == SHMMAXSEG && a.si + n <= SHMMAXSEG
    && (forall j ::
          0 <= j < SHMMAXSEG && !(a.si <= j < a.si + n) ==>
            after.slots[j] == before.slots[j] && after.window[j] == before.window[j])
    && (forall j :: a.si <= j < a.si + n ==> !after.slots[j].attached && after.window[j] == None)
  }

  lemma DetachKeeps(segs: seq<Seg>, after: seq<Seg>, owner: map<nat, nat>, spaces: map<nat, Space>, sp: Space,
                    cover: map<(nat, nat), Att>, live: set<Att>, a: Att)
    requires Split(segs, owner) && Attached(segs, owner, spaces, cover, live) && a in live
    requires a.pid in spaces && a.shmid < |segs|
    requires var n := Pages(segs[a.shmid].size);
             Recounted(segs, after, a.shmid, n, -1) && MapsOut(spaces[a.pid], sp, a, n)
    ensures Attached(after, owner, spaces[a.pid := sp], Uncovered(cover, a), live - {a})
  {
    hide Pages;
    DetachAtts(segs, after, owner, spaces, sp, spaces[a.pid := sp], cover, live, a);
    DetachSlots(segs, after, owner, spaces, sp, spaces[a.pid := sp], cover, live, a);
    assert AttOk(segs, owner, spaces, cover, a);
    DetachCounts(segs, after, owner, live, a);
  }

  lemma DetachAtts(segs: seq<Seg>, after: seq<Seg>, owner: map<nat, nat>, spaces: map<nat, Space>, sp: Space,
                   spaces': map<nat, Space>,
                   cover: map<(nat, nat), Att>, live: set<Att>, a: Att)
    requires Split(segs, owner) && Attached(segs, owner, spaces, cover, live) && a in live
    requires a.pid in spaces && a.shmid < |segs|
    requires var n := Pages(segs[a.shmid].size);
             Recounted(segs, after, a.shmid, n, -1) && MapsOut(spaces[a.pid], sp, a, n)
    requires spaces' == spaces[a.pid := sp]
    ensures forall b :: b in live - {a} ==> AttOk(after, owner, spaces', Uncovered(cover, a), b)
  {
    hide Pages;
    var n := Pages(segs[a.shmid].size);
    assert AttOk(segs, owner, spaces, cover, a);
    forall b | b in live - {a} ensures AttOk(after, owner, spaces', Uncovered(cover, a), b) {
      assert AttOk(segs, owner, spaces, cover, b);
      forall k: nat | k < Pages(segs[b.shmid].size) ensures PageOk(after, spaces'[b.pid], Uncovered(cover, a), b, k) {
        assert b.pid == a.pid && a.si <= b.si + k < a.si + n ==> PageOk(segs, spaces[a.pid], cover, a, b.si + k - a.si);
        assert PageOk(segs, spaces[b.pid], cover, b, k);
      }
    }
  }

  lemma DetachSlots(segs: seq<Seg>, after: seq<Seg>, owner: map<nat, nat>, spaces: map<nat, Space>, sp: Space,
                    spaces': map<nat, Space>,
                    cover: map<(nat, nat), Att>, live: set<Att>, a: Att)
    requires Split(segs, owner) && Attached(segs, owner, spaces, cover, live) && a in live
    requires a.pid in spaces && a.shmid < |segs|
    requires var n := Pages(segs[a.shmid].size);
             Recounted(segs, after, a.shmid, n, -1) && MapsOut(spaces[a.pid], sp, a, n)
    requires spaces' == spaces[a.pid := sp]
    ensures Shape(spaces')
    ensures forall p, j: nat :: p in spaces' && j < SHMMAXSEG ==>
              SlotOk(after, spaces', Uncovered(cover, a), live - {a}, p, j)
  {
    hide Pages;
    var n := Pages(segs[a.shmid].size);
    assert AttOk(segs, owner, spaces, cover, a);
    forall p, j: nat | p in spaces' && j < SHMMAXSEG
      ensures SlotOk(after, spaces', Uncovered(cover, a), live - {a}, p, j)
    {
      assert SlotOk(segs, spaces, cover, live, p, j);
      if p == a.pid && a.si <= j < a.si + n {
        assert PageOk(segs, spaces[a.pid], cover, a, j - a.si);
      }
    }
  }

  lemma DetachCounts(segs: seq<Seg>, after: seq<Seg>, owner: map<nat, nat>, live: set<Att>, a: Att)
    requires Split(segs, owner) && IsStart(owner, a.shmid) && a.shmid < |segs| && a in live
    requires Recounted(segs, after, a.shmid, Pages(segs[a.shmid].size), -1)
    requires forall s: nat :: IsStart(owner, s) ==> s < |segs| && segs[s].nattch == |Of(live, s)|
    ensures forall s: nat :: IsStart(owner, s) ==> s < |after| && after[s].nattch == |Of(live - {a}, s)|
  {
    hide Pages;
    forall s: nat | IsStart(owner, s) ensures s < |after| && after[s].nattch == |Of(live - {a}, s)| {
      assert EntryOk(segs, owner, s) && Whole(segs, owner, a.shmid);
      if s == a.shmid {
        assert Of(live - {a}, s) == Of(live, s) - {a} && a in Of(live, s);
      } else {
        assert Of(live - {a}, s) == Of(live, s);
      }
    }
  }

  // --------------------------------------------------------------- the operations

  function FreeFlags(segs: seq<Seg>): (r: seq<bool>) {
    seq(|segs|, i requires 0 <= i < |segs| => segs[i].key == NOKEY)
  }

  /** PGROUNDUP(size) / PGSIZE */
  function Needed(size: nat): (n: nat)
    ensures size <= n * PGSIZE < size + PGSIZE
  {
    (size + PGSIZE - 1) / PGSIZE
  }

  /** The entries of a new segment: each has the whole size, and a page of its own. */
  lemma NewEntries(before: seq<Seg>, after: seq<Seg>, at: nat, n: nat, key: int, perm: nat, free: seq<nat>)
    requires 1 <= n <= |free| && Filled(before, after, at, n, key, perm, free[..n])
    ensures at < |after| && after[at].size == n * PGSIZE && after[at].size % PGSIZE == 0
    ensures after[at].size / PGSIZE == n
    ensures forall i :: 0 <= i < n ==>
              at + i < |after| && after[at + i] == Seg(key, after[at].size, perm, false, 0, free[i])
  {
    forall i | 0 <= i < n
      ensures at + i < |after| && after[at + i] == Seg(key, n * PGSIZE, perm, false, 0, free[i])
    {
      assert free[..n][i] == free[i];
      assert at <= at + i < at + n;
    }
  }

  lemma NeededRange(size: nat)
    requires SHMMIN <= size <= MAXSEGSIZE
    ensures 1 <= Needed(size) <= SHMMAXSEG
  {
  }

  /** Where a new segment of n pages goes: the lowest free run, or after the last entry if there is none. */
  ghost predicate PlaceFor(segs: seq<Seg>, at: nat, n: nat) {
    if exists j :: FreeRun(FreeFlags(segs), j, n) then LowestRun(FreeFlags(segs), at, n) else at == |segs|
  }

  lemma PlaceIsFree(segs: seq<Seg>, owner: map<nat, nat>, at: nat, n: nat)
    requires Split(segs, owner) && PlaceFor(segs, at, n)
    ensures forall i :: at <= i < at + n ==> i !in owner
    ensures at + n <= |segs| || at == |segs|
  {
    forall i | at <= i < at + n ensures i !in owner {
      if i < |segs| {
        assert EntryOk(segs, owner, i);
        assert FreeFlags(segs)[i];
      }
    }
  }

  /** A new segment disturbs no attachment. */
  lemma FillKeepsAttached(before: seq<Seg>, after: seq<Seg>, owner: map<nat, nat>, at: nat, n: nat, key: int,
                          perm: nat, pages: seq<nat>,
                          spaces: map<nat, Space>, cover: map<(nat, nat), Att>, live: set<Att>)
    requires Split(before, owner) && Attached(before, owner, spaces, cover, live)
    requires n >= 1 && Filled(before, after, at, n, key, perm, pages) && forall i :: at <= i < at + n ==> i !in owner
    ensures Attached(after, Claim(owner, at, n), spaces, cover, live)
  {
    hide Pages, Claim;
    ClaimLookup(owner, at, n);
    var o := Claim(owner, at, n);
    forall s: nat | IsStart(owner, s)
      ensures IsStart(o, s) && forall i :: s <= i < s + Pages(before[s].size) && i < |before| ==> after[i] == before[i]
    {
      assert EntryOk(before, owner, s) && Whole(before, owner, s);
    }
    forall a | a in live ensures a.shmid != at {
      assert AttOk(before, owner, spaces, cover, a);
    }
    assert Of(live, at) == {};
    forall s: nat | IsStart(o, s) ensures s < |after| && after[s].nattch == |Of(live, s)| {
      if s != at {
        assert IsStart(owner, s);
      }
    }
    AttachedFrame(before, owner, after, o, spaces, cover, live);
  }

  /** Removing a segment nobody is attached to disturbs no attachment. */
  lemma ClearKeepsAttached(before: seq<Seg>, after: seq<Seg>, owner: map<nat, nat>, s: nat,
                           spaces: map<nat, Space>, cover: map<(nat, nat), Att>, live: set<Att>)
    requires Split(before, owner) && Attached(before, owner, spaces, cover, live)
    requires && IsStart(owner, s) && s < |before| && before[s].nattch == 0
             && Cleared(before, after, s, Pages(before[s].size))
    ensures Attached(after, Unclaim(owner, s), spaces, cover, live) && Of(live, s) == {}
  {
    hide Pages;
    var o, n := Unclaim(owner, s), Pages(before[s].size);
    assert Whole(before, owner, s);
    forall t: nat | IsStart(owner, t) && t != s
      ensures IsStart(o, t) && t < |before| && !(s <= t < s + n)
      ensures forall i :: t <= i < t + Pages(before[t].size) && i < |before| ==> after[i] == before[i]
    {
      assert EntryOk(before, owner, t) && Whole(before, owner, t);
    }
    AttachedFrame(before, owner, after, o, spaces, cover, live);
  }

  lemma ClearKeeps(before: seq<Seg>, after: seq<Seg>, owner: map<nat, nat>, free: seq<nat>, s: nat,
                   spaces: map<nat, Space>, cover: map<(nat, nat), Att>, live: set<Att>)
    requires Split(before, owner) && Handles(before, owner, free) && Attached(before, owner, spaces, cover, live)
    requires IsStart(owner, s) && s < |before| && Of(live, s) == {} && Cleared(before, after, s, Pages(before[s].size))
    ensures var o := Unclaim(owner, s);
            && Split(after, o) && Handles(after, o, Returned(before, s, Pages(before[s].size), free))
            && Attached(after, o, spaces, cover, live)
  {
    StartFacts(before, owner, s);
    hide Pages, Returned, Unclaim;
    ClearKeepsSplit(before, after, owner, s);
    ClearKeepsHandles(before, after, owner, free, s, Pages(before[s].size));
    ClearKeepsAttached(before, after, owner, s, spaces, cover, live);
  }

  lemma StartFacts(segs: seq<Seg>, owner: map<nat, nat>, s: nat)
    requires Split(segs, owner) && IsStart(owner, s)
    ensures s < |segs| && 1 <= Pages(segs[s].size) && s + Pages(segs[s].size) <= |segs|
    ensures forall i :: s <= i < s + Pages(segs[s].size) ==> i in owner && owner[i] == s
    ensures forall i :: i in owner && owner[i] == s ==> s <= i < s + Pages(segs[s].size)
  {
    hide Pages;
    assert EntryOk(segs, owner, s) && Whole(segs, owner, s);
    forall i | i in owner && owner[i] == s ensures s <= i < s + Pages(segs[s].size) {
      assert EntryOk(segs, owner, i);
    }
  }

  lemma AttachCount(segs: seq<Seg>, owner: map<nat, nat>, spaces: map<nat, Space>, cover: map<(nat, nat), Att>,
                    live: set<Att>, s: nat)
    requires Attached(segs, owner, spaces, cover, live) && IsStart(owner, s)
    ensures s < |segs| && segs[s].nattch == |Of(live, s)|
  {
  }

  const IPC_CREAT: nat := 4
  const IPC_EXCL: nat := 16

  /** The flags that create a segment: exactly IPC_CREAT, or it and IPC_EXCL. */
  predicate Creates(flag: nat) {
    flag == IPC_CREAT || flag == IPC_CREAT + IPC_EXCL
  }

  /** Entry i is the first one with the key. */
  ghost predicate FirstKey(segs: seq<Seg>, key: int, i: nat) {
    i < |segs| && segs[i].key == key && forall j :: 0 <= j < i ==> segs[j].key != key
  }

  /** Entry s is the one removeshmHelper() works on. */
  ghost predicate Sought(segs: seq<Seg>, id: int, byKey: bool, s: nat) {
    if byKey then FirstKey(segs, id, s) else s == id && s < |segs|
  }

  lemma OneSought(segs: seq<Seg>, id: int, byKey: bool, s: nat)
    requires Sought(segs, id, byKey, s)
    ensures forall t: nat :: Sought(segs, id, byKey, t) ==> t == s
  {
  }

  /** What a search by key finds is a free entry or the start of a segment. */
  lemma SoughtStarts(segs: seq<Seg>, owner: map<nat, nat>, id: int, byKey: bool, s: nat)
    requires Split(segs, owner) && Sought(segs, id, byKey, s) && (!byKey && s in owner ==> IsStart(owner, s))
    ensures s < |segs| && (s in owner ==> IsStart(owner, s))
  {
    if byKey && s in owner {
      assert EntryOk(segs, owner, s);
      FirstWithKeyStarts(segs, owner, s);
    }
  }

  lemma FoundEntry(segs: seq<Seg>, owner: map<nat, nat>, s: nat)
    requires Split(segs, owner) && s < |segs| && (s in owner ==> IsStart(owner, s))
    ensures s + Pages(segs[s].size) <= |segs|
    ensures s in owner ==> 1 <= Pages(segs[s].size)
    ensures s !in owner ==> Pages(segs[s].size) == 0 && !segs[s].dest
  {
    if s in owner {
      StartFacts(segs, owner, s);
    } else {
      assert EntryOk(segs, owner, s);
    }
  }

  lemma NoneMarked(before: seq<Seg>, after: seq<Seg>, s: nat, n: nat)
    requires Marked(before, after, s, n) && n == 0
    ensures after == before
  {
  }

  lemma FilledKeeps(before: seq<Seg>, after: seq<Seg>, owner: map<nat, nat>, at: nat, size: nat, key: int, perm: nat,
                    pages: seq<nat>)
    requires SHMMIN <= size <= MAXSEGSIZE
    requires && Split(before, owner) && PlaceFor(before, at, Needed(size))
             && Filled(before, after, at, Needed(size), key, perm, pages)
    ensures at < |after| && after[at].key == key
    ensures var o := Claim(owner, at, Needed(size));
            forall i :: i in owner ==> i < |before| && i in o && o[i] == owner[i] && after[i] == before[i]
  {
    hide Needed;
    NeededRange(size);
    PlaceIsFree(before, owner, at, Needed(size));
    ClaimLookup(owner, at, Needed(size));
  }

  class Shared {
    const table: array<Seg>
    var last: int
    var free: seq<nat>
    var spaces: map<nat, Space>
    ghost var owner: map<nat, nat>
    ghost var cover: map<(nat, nat), Att>
    ghost var live: set<Att>

    /** The entries up to lastShmSegIndex. */
    ghost function Segs(): (r: seq<Seg>)
      requires table.Length == SHMMAXSEG && -1 <= last < SHMMAXSEG
      reads this, table
    {
      table[..last + 1]
    }

    ghost predicate Valid()
      reads this, table
    {
      && table.Length == SHMMAXSEG && -1 <= last < SHMMAXSEG
      && Split(Segs(), owner)
      && Handles(Segs(), owner, free)
      && Attached(Segs(), owner, spaces, cover, live)
    }

    /** An empty table, some processes with empty windows, and the pages kalloc() will hand out. */
    constructor (pids: set<nat>, pages: seq<nat>)
      requires forall i, j :: 0 <= i < j < |pages| ==> pages[i] != pages[j]
      ensures Valid() && last == -1 && free == pages && live == {} && spaces.Keys == pids
    {
      table := new Seg[SHMMAXSEG](_ => Seg(0, 0, 0, false, 0, 0));
      last, free := -1, pages;
      spaces := map p | p in pids :: Space(seq(SHMMAXSEG, _ => Slot(false, -1)), seq(SHMMAXSEG, _ => None));
      owner, cover, live := map[], map[], {};
    }

    /** allocShmSeg(), with kalloc() succeeding: the segment goes to the lowest free run that is long enough,
        else after the last entry; no other entry changes. */
    method AllocShmSeg(size: nat, key: int, perm: nat) returns (r: Result<nat>)
      requires Valid() && key != NOKEY && |free| >= Needed(size)
      modifies this, table
      ensures Valid() && spaces == old(spaces) && live == old(live)
      ensures r == Err(EINVAL) <==> size < SHMMIN || size > MAXSEGSIZE
      ensures r.Err? ==> last == old(last) && table[..] == old(table[..]) && free == old(free) && owner == old(owner)
      ensures r == Err(ENOSPC) ==>
                exists at: nat :: PlaceFor(old(Segs()), at, Needed(size)) && at + Needed(size) > SHMMAXSEG
      ensures r.Err? ==> r.e == EINVAL || r.e == ENOSPC
      ensures r.Ok? ==>
                var n := Needed(size);
                && PlaceFor(old(Segs()), r.value, n) && IsStart(owner, r.value)
                && Filled(old(Segs()), Segs(), r.value, n, key, perm, old(free)[..n]) && free == old(free)[n..]
                && owner == Claim(old(owner), r.value, n)
      ensures r.Ok? ==>
                && r.value <= last && size <= table[r.value].size < size + PGSIZE
                && table[r.value].size % PGSIZE == 0
                && forall i :: 0 <= i < table[r.value].size / PGSIZE ==>
                     && r.value + i <= last && i < |old(free)|
                     && table[r.value + i] == Seg(key, table[r.value].size, perm, false, 0, old(free)[i])
    {
      hide Split, Handles, Attached, Claim, Needed;
      if size < SHMMIN || size > MAXSEGSIZE {
        return Err(EINVAL);
      }
      var n := Needed(size);
      NeededRange(size);
      ghost var before := Segs();
      var index := FirstFit(FreeFlags(table[..last + 1]), n);
      var append := index == -1;
      if append {
        index := last + 1;
      } else {
        assert FreeRun(FreeFlags(before), index, n);
      }
      assert PlaceFor(before, index, n);
      if index + n > SHMMAXSEG {
        return Err(ENOSPC);
      }
      PlaceIsFree(before, owner, index, n);
      FillEntries(index, n, key, perm, append);
      FillKeepsSplit(before, Segs(), owner, index, n, key, perm, old(free)[..n]);
      FillKeepsHandles(before, Segs(), owner, old(free), index, n, key, perm);
      FillKeepsAttached(before, Segs(), owner, index, n, key, perm, old(free)[..n], spaces, cover, live);
      owner := Claim(owner, index, n);
      NewEntries(before, Segs(), index, n, key, perm, old(free));
      r := Ok(index);
    }

    /** The page loop of allocShmSeg(): kalloc() and mapShmSegPage() for each page. */
    method FillEntries(index: nat, n: nat, key: int, perm: nat, append: bool)
      requires table.Length == SHMMAXSEG && -1 <= last < SHMMAXSEG && index + n <= SHMMAXSEG && n <= |free|
      requires if append then index == last + 1 else index + n <= last + 1
      modifies this`last, this`free, table
      ensures -1 <= last < SHMMAXSEG && free == old(free)[n..]
      ensures Filled(old(Segs()), Segs(), index, n, key, perm, old(free)[..n])
    {
      ghost var before := table[..];
      var k := 0;
      while k < n
        invariant 0 <= k <= n && free == old(free)[k..]
        invariant last == old(last) + if append then k else 0
        invariant forall i :: 0 <= i < SHMMAXSEG && !(index <= i < index + k) ==> table[i] == before[i]
        invariant forall i ::
                    index <= i < index + k ==> table[i] == Seg(key, n * PGSIZE, perm, false, 0, old(free)[i - index])
      {
        var page := free[0];
        free := free[1..];
        table[index + k] := Seg(key, n * PGSIZE, perm, false, 0, page);
        if append {
          last := last + 1;
        }
        k := k + 1;
      }
    }

    /** The search of shmgetHelper() and removeshmHelper() for a key: the first entry that has it. */
    method Lookup(key: int) returns (r: Option<nat>)
      requires Valid() && key != NOKEY
      ensures r.None? <==> forall i :: 0 <= i <= last ==> table[i].key != key
      ensures r.Some? ==> r.value <= last && table[r.value].key == key && IsStart(owner, r.value)
      ensures r.Some? ==> forall i :: 0 <= i < r.value ==> table[i].key != key
    {
      var i := 0;
      while i <= last
        invariant 0 <= i <= last + 1
        invariant forall j :: 0 <= j < i ==> table[j].key != key
      {
        if table[i].key == key {
          FirstWithKeyStarts(Segs(), owner, i);
          return Some(i);
        }
        i := i + 1;
      }
      return None;
    }

    /** shmgetHelper(): key is the key sought, for IPC_PRIVATE the generated one.  A found segment larger than the
        request is not reused: a second segment with the same key is created. */
    method Shmget(key: int, size: nat, flag: nat) returns (r: Result<nat>)
      requires Valid() && key != NOKEY && |free| >= Needed(size)
      modifies this, table
      ensures Valid() && spaces == old(spaces) && live == old(live)
      ensures r.Ok? ==> IsStart(owner, r.value) && r.value <= last && table[r.value].key == key
      ensures r.Err? ==> last == old(last) && table[..] == old(table[..])
      ensures (forall i: nat :: !FirstKey(old(Segs()), key, i)) && !Creates(flag) ==> r == Err(ENOENT)
      ensures forall i: nat :: FirstKey(old(Segs()), key, i) ==>
                if flag == IPC_CREAT + IPC_EXCL then r == Err(EEXIST)
                else !Creates(flag) || old(table[i].size) <= size ==> r == Ok(i) && table[..] == old(table[..])
      ensures && Creates(flag) && r.Ok?
              && (forall i: nat :: FirstKey(old(Segs()), key, i) ==> flag == IPC_CREAT && old(table[i].size) > size) ==>
                var n := Needed(size);
                && PlaceFor(old(Segs()), r.value, n)
                && Filled(old(Segs()), Segs(), r.value, n, key, flag % 4, old(free)[..n])
                && size <= table[r.value].size < size + PGSIZE && table[r.value].size % PGSIZE == 0
                && forall i :: 0 <= i < table[r.value].size / PGSIZE ==>
                     && r.value + i <= last && i < |old(free)|
                     && table[r.value + i] == Seg(key, table[r.value].size, flag % 4, false, 0, old(free)[i])
      ensures && Creates(flag) && r.Err?
              && (forall i: nat :: FirstKey(old(Segs()), key, i) ==> flag == IPC_CREAT && old(table[i].size) > size) ==>
                if size < SHMMIN || size > MAXSEGSIZE then r.e == EINVAL
                else
                  && r.e == ENOSPC
                  && exists at: nat :: PlaceFor(old(Segs()), at, Needed(size)) && at + Needed(size) > SHMMAXSEG
      ensures forall i ::
                i in old(owner) ==> i in owner && owner[i] == old(owner)[i] && i <= last && table[i] == old(table[i])
    {
      hide Split, Handles, Attached, Claim, Needed, PlaceFor;
      OwnedInTable();
      ghost var before, owner0 := Segs(), owner;
      var shmid := Lookup(key);
      assert forall i: nat :: FirstKey(before, key, i) <==> shmid == Some(i);
      if flag == IPC_CREAT + IPC_EXCL {
        if shmid.Some? {
          return Err(EEXIST);
        }
      } else if flag == IPC_CREAT {
        if shmid.Some? && table[shmid.value].size <= size {
          return Ok(shmid.value);
        }
      } else if shmid.Some? {
        return Ok(shmid.value);
      } else {
        return Err(ENOENT);
      }
      r := AllocShmSeg(size, key, flag % 4);
      if r.Ok? {
        FilledKeeps(before, Segs(), owner0, r.value, size, key, flag % 4, old(free)[..Needed(size)]);
      }
    }

    lemma OwnedInTable()
      requires Valid()
      ensures forall i :: i in owner ==> i <= last
    {
    }

    /** freeshmPages(): the entries of segment s become free and its pages go back. */
    method FreePages(s: nat)
      requires Valid() && IsStart(owner, s) && Of(live, s) == {}
      modifies this, table
      ensures && Valid() && spaces == old(spaces) && live == old(live) && last == old(last)
              && owner == Unclaim(old(owner), s)
      ensures Cleared(old(Segs()), Segs(), s, Pages(old(table[s].size)))
      ensures free == Returned(old(Segs()), s, Pages(old(table[s].size)), old(free))
    {
      hide Split, Handles, Attached, Pages, Returned, Unclaim, Cleared, Of;
      StartFacts(Segs(), owner, s);
      ghost var before := Segs();
      var n := Pages(table[s].size);
      ClearEntries(s, n);
      ClearKeeps(before, Segs(), owner, old(free), s, spaces, cover, live);
      owner := Unclaim(owner, s);
    }

    /** The loop of freeshmPages(). */
    method ClearEntries(s: nat, n: nat)
      requires table.Length == SHMMAXSEG && -1 <= last < SHMMAXSEG && s + n <= last + 1
      modifies this`free, table
      ensures Cleared(old(Segs()), Segs(), s, n) && free == Returned(old(Segs()), s, n, old(free))
    {
      ghost var before := Segs();
      var i := 0;
      while i < n
        invariant 0 <= i <= n && free == Returned(before, s, i, old(free))
        invariant forall j :: 0 <= j < SHMMAXSEG && !(s <= j < s + i) ==> table[j] == old(table[j])
        invariant forall j :: s <= j < s + i ==> table[j] == Seg(NOKEY, 0, 0, false, 0, 0)
      {
        free := [table[s + i].pa] + free;
        table[s + i] := Seg(NOKEY, 0, 0, false, 0, 0);
        i := i + 1;
      }
    }

    /** removeshmHelper() on an entry it has found: the pages of a segment are marked, and freed only if nobody is
        attached; a free entry is left as it is. */
    method Remove(s: nat) returns (ok: bool)
      requires Valid() && s <= last && (s in owner ==> IsStart(owner, s))
      modifies this, table
      ensures Valid() && spaces == old(spaces) && live == old(live) && last == old(last)
      ensures s in old(owner) ==> (ok <==> Of(live, s) == {})
      ensures ok ==> s in old(owner) && owner == Unclaim(old(owner), s)
      ensures ok ==> Cleared(old(Segs()), Segs(), s, Pages(old(table[s].size)))
                     && free == Returned(old(Segs()), s, Pages(old(table[s].size)), old(free))
      ensures !ok ==>
                owner == old(owner) && free == old(free) && Marked(old(Segs()), Segs(), s, Pages(old(table[s].size)))
    {
      hide Split, Handles, Attached, Pages, Returned, Unclaim;
      ghost var before := Segs();
      FoundEntry(before, owner, s);
      var n := Pages(table[s].size);
      MarkEntries(s, n);
      if s !in owner {
        NoneMarked(before, Segs(), s, n);
      } else {
        MarkKeeps(before, Segs(), s, n);
        AttachCount(Segs(), owner, spaces, cover, live, s);
      }
      if table[s].nattch == 0 && table[s].dest {
        ghost var marked := Segs();
        FreePages(s);
        ReturnedFrame(before, marked, s, n, old(free));
        ok := true;
      } else {
        ok := false;
      }
    }

    /** removeshmHelper(): byKey says whether id is a key or an identifier, which then is that of an entry.  A free
        entry, which key -1 finds too, is left as it is. */
    method RemoveShm(id: int, byKey: bool) returns (ok: bool)
      requires Valid() && (!byKey ==> last == -1 || (0 <= id <= last + 1 && (id in owner ==> IsStart(owner, id))))
      modifies this, table
      ensures Valid() && spaces == old(spaces) && live == old(live) && last == old(last)
      ensures forall s: nat :: Sought(old(Segs()), id, byKey, s) && s in old(owner) ==>
                && IsStart(old(owner), s) && (ok <==> Of(live, s) == {})
                && if ok then
                     && owner == Unclaim(old(owner), s) && Cleared(old(Segs()), Segs(), s, Pages(old(table[s].size)))
                     && free == Returned(old(Segs()), s, Pages(old(table[s].size)), old(free))
                   else
                     && owner == old(owner) && free == old(free)
                     && Marked(old(Segs()), Segs(), s, Pages(old(table[s].size)))
      ensures (forall s: nat :: Sought(old(Segs()), id, byKey, s) ==> s !in old(owner)) ==>
                !ok && Segs() == old(Segs()) && owner == old(owner) && free == old(free)
    {
      hide Split, Handles, Attached, Pages, Returned, Unclaim, Cleared, Marked, Of;
      ghost var before := Segs();
      var shmid, i := id, 0;
      if byKey {
        i := FindKey(id);
        shmid := if i <= last then i else id;
      }
      if i == last + 1 || shmid == last + 1 {
        return false;
      }
      OneSought(before, id, byKey, shmid);
      SoughtStarts(before, owner, id, byKey, shmid);
      FoundEntry(before, owner, shmid);
      ok := Remove(shmid);
      if shmid !in old(owner) {
        NoneMarked(before, Segs(), shmid, Pages(before[shmid].size));
      }
    }

    /** The search of removeshmHelper(): the first entry with the key, or one past the last. */
    method FindKey(key: int) returns (i: nat)
      requires table.Length == SHMMAXSEG && -1 <= last < SHMMAXSEG
      ensures i <= last + 1 && (forall j :: 0 <= j < i ==> table[j].key != key) && (i <= last ==> table[i].key == key)
    {
      i := 0;
      while i <= last && table[i].key != key
        invariant 0 <= i <= last + 1 && forall j :: 0 <= j < i ==> table[j].key != key
      {
        i := i + 1;
      }
    }

    /** The marking loop of removeshmHelper(). */
    method MarkEntries(s: nat, n: nat)
      requires table.Length == SHMMAXSEG && -1 <= last < SHMMAXSEG && s + n <= last + 1
      modifies table
      ensures Marked(old(Segs()), Segs(), s, n)
    {
      var i := 0;
      while i < n
        invariant 0 <= i <= n
        invariant forall j :: 0 <= j < SHMMAXSEG && !(s <= j < s + i) ==> table[j] == old(table[j])
        invariant forall j :: s <= j < s + i ==> table[j] == old(table[j]).(dest := true, perm := 0)
      {
        table[s + i] := table[s + i].(dest := true, perm := 0);
        i := i + 1;
      }
    }

    lemma MarkKeeps(before: seq<Seg>, after: seq<Seg>, s: nat, n: nat)
      requires && Split(before, owner) && Handles(before, owner, free) && Attached(before, owner, spaces, cover, live)
               && IsStart(owner, s)
      requires s < |before| && n == Pages(before[s].size) && Marked(before, after, s, n)
      ensures Split(after, owner) && Handles(after, owner, free) && Attached(after, owner, spaces, cover, live)
    {
      hide Pages;
      StartFacts(before, owner, s);
      forall i | i in owner && owner[i] == s ensures after[i].nattch == after[s].nattch {
        assert EntryOk(before, owner, i);
      }
      TouchKeepsSplit(before, after, owner, s);
      RemarkAttached(before, after, owner, spaces, cover, live, s, n);
    }

    /** shmatHelper() with no address given, and allocshmuvm() with page-table pages to be had: the segment is
        mapped at the lowest free run of slots, and every page of it counts one attachment more. */
    method Shmat(pid: nat, shmid: int) returns (r: Result<nat>)
      requires Valid() && pid in spaces && (shmid >= 0 && shmid in owner ==> IsStart(owner, shmid))
      modifies this, table
      ensures Valid() && last == old(last) && owner == old(owner) && free == old(free)
      ensures r == Err(EINVAL) <==> shmid < 0 || shmid > last
      ensures r == Err(EIDRM) <==> 0 <= shmid <= last && shmid !in owner
      ensures r == Err(ENOMEM) <==> shmid >= 0 && shmid in owner
                                    && forall j ::
                                         0 <= j ==>
                                           !FreeRun(FreeSlots(old(spaces)[pid].slots), j,
                                                    Pages(old(table[shmid].size)))
      ensures r.Err? ==> spaces == old(spaces) && live == old(live) && table[..] == old(table[..])
      ensures r.Ok? ==>
                var n, si := Pages(old(table[shmid].size)), (r.value - HEAPLIMIT) / PGSIZE;
                && r.value == si * PGSIZE + HEAPLIMIT && 0 <= si && LowestRun(FreeSlots(old(spaces)[pid].slots), si, n)
                && Att(pid, si, shmid) !in old(live) && live == old(live) + {Att(pid, si, shmid)}
                && spaces.Keys == old(spaces).Keys
                && (forall p :: p in spaces && p != pid ==> spaces[p] == old(spaces)[p])
                && MapsIn(old(spaces)[pid], spaces[pid], old(Segs()), Att(pid, si, shmid), n)
                && Recounted(old(Segs()), Segs(), shmid, n, 1)
    {
      hide Split, Handles, Attached, Pages, Covered, MapsIn, Recounted;
      if shmid < 0 || shmid > last {
        OwnedInTable();
        return Err(EINVAL);
      }
      EntryFacts(Segs(), owner, shmid);
      if table[shmid].size == 0 {
        return Err(EIDRM);
      }
      StartFacts(Segs(), owner, shmid);
      var n := Pages(table[shmid].size);
      var si := FirstFit(FreeSlots(spaces[pid].slots), n);
      if si == -1 {
        return Err(ENOMEM);
      }
      ghost var before, spaces0 := Segs(), spaces;
      ShapeOf(before, owner, spaces, cover, live, pid, si, n);
      AttachPages(pid, si, shmid, n);
      ghost var a := Att(pid, si, shmid);
      AttachKeepsAll(before, Segs(), owner, free, spaces0, spaces[pid], cover, live, a);
      assert spaces == spaces0[pid := spaces[pid]];
      cover, live := Covered(cover, a, n), live + {a};
      r := Ok(si * PGSIZE + HEAPLIMIT);
    }

    /** The loop of allocshmuvm(); mappages() panics on a page that is already mapped. */
    method AttachPages(pid: nat, si: nat, shmid: nat, n: nat)
      requires table.Length == SHMMAXSEG && -1 <= last < SHMMAXSEG && shmid + n <= last + 1 && pid in spaces
      requires |spaces[pid].slots| == |spaces[pid].window| == SHMMAXSEG && si + n <= SHMMAXSEG
      requires forall j :: si <= j < si + n ==> spaces[pid].window[j] == None
      modifies this`spaces, table
      ensures spaces.Keys == old(spaces).Keys && forall p :: p in spaces && p != pid ==> spaces[p] == old(spaces)[p]
      ensures MapsIn(old(spaces)[pid], spaces[pid], old(Segs()), Att(pid, si, shmid), n)
      ensures Recounted(old(Segs()), Segs(), shmid, n, 1)
    {
      ghost var sp0 := spaces[pid];
      var i := 0;
      while i < n
        invariant 0 <= i <= n && spaces.Keys == old(spaces).Keys
        invariant forall p :: p in spaces && p != pid ==> spaces[p] == old(spaces)[p]
        invariant |spaces[pid].slots| == |spaces[pid].window| == SHMMAXSEG
        invariant forall j ::
                    0 <= j < SHMMAXSEG && !(si <= j < si + i) ==>
                      spaces[pid].slots[j] == sp0.slots[j] && spaces[pid].window[j] == sp0.window[j]
        invariant forall j ::
                    si <= j < si + i ==>
                      && spaces[pid].slots[j] == Slot(true, shmid)
                      && spaces[pid].window[j] == Some(old(table[shmid + j - si].pa))
        invariant forall j :: 0 <= j < SHMMAXSEG ==>
                    table[j] ==
                      if shmid <= j < shmid + i then old(table[j]).(nattch := old(table[j]).nattch + 1)
                      else old(table[j])
      {
        var sp := spaces[pid];
        assert sp.window[si + i] == None;
        var window := sp.window[si + i := Some(table[shmid + i].pa)];
        spaces := spaces[pid := Space(sp.slots[si + i := Slot(true, shmid)], window)];
        table[shmid + i] := table[shmid + i].(nattch := table[shmid + i].nattch + 1);
        i := i + 1;
      }
    }

    /** shmdtHelper() at an address where an attachment begins: the attachment is unmapped whole, and every
        page of its segment counts one attachment less.  An address from KERNBASE on is negative as an int, and fails
        the comparison with HEAPLIMIT. */
    method Shmdt(pid: nat, addr: int) returns (r: Result<nat>)
      requires Valid() && pid in spaces && 0 <= addr < UINT_LIMIT
      requires HEAPLIMIT <= addr < KERNBASE && (pid, SlotOf(addr)) in cover ==>
                 cover[(pid, SlotOf(addr))].si == SlotOf(addr)
      modifies this, table
      ensures Valid() && last == old(last) && owner == old(owner) && free == old(free)
      ensures r.Ok? || r == Err(EINVAL)
      ensures r.Err? <==> addr < HEAPLIMIT || addr >= KERNBASE || !old(spaces)[pid].slots[SlotOf(addr)].attached
      ensures r.Err? ==> spaces == old(spaces) && live == old(live) && table[..] == old(table[..])
      ensures r.Ok? ==>
                var shmid, si := old(spaces)[pid].slots[SlotOf(addr)].shmid, SlotOf(addr);
                && 0 <= shmid <= last && Att(pid, si, shmid) in old(live) && live == old(live) - {Att(pid, si, shmid)}
                && spaces.Keys == old(spaces).Keys
                && (forall p :: p in spaces && p != pid ==> spaces[p] == old(spaces)[p])
                && MapsOut(old(spaces)[pid], spaces[pid], Att(pid, si, shmid), Pages(old(table[shmid].size)))
                && Recounted(old(Segs()), Segs(), shmid, Pages(old(table[shmid].size)), -1)
    {
      hide Split, Handles, Attached, Pages, Uncovered, MapsOut, Recounted;
      ShapeHolds(Segs(), owner, spaces, cover, live);
      if AsInt(addr) < HEAPLIMIT || addr > KERNBASE {
        return Err(EINVAL);
      }
      var si := SlotOf(addr);
      CoverAt(Segs(), owner, spaces, cover, live, pid, si);
      if !spaces[pid].slots[si].attached {
        return Err(EINVAL);
      }
      var shmid := spaces[pid].slots[si].shmid;
      ghost var a := Att(pid, si, shmid);
      var n := Pages(table[shmid].size);
      ghost var before, spaces0 := Segs(), spaces;
      DetachPages(pid, si, shmid, n);
      DetachKeepsAll(before, Segs(), owner, free, spaces0, spaces[pid], cover, live, a);
      assert spaces == spaces0[pid := spaces[pid]];
      cover, live := Uncovered(cover, a), live - {a};
      r := Ok(0);
    }

    /** The loop of shmdtHelper(); the first slot forgets its segment, and the first page is marked. */
    method DetachPages(pid: nat, si: nat, shmid: nat, n: nat)
      requires table.Length == SHMMAXSEG && -1 <= last < SHMMAXSEG && 1 <= n && shmid + n <= last + 1 && pid in spaces
      requires |spaces[pid].slots| == |spaces[pid].window| == SHMMAXSEG && si + n <= SHMMAXSEG
      requires forall j :: shmid <= j < shmid + n ==> table[j].nattch >= 1
      modifies this`spaces, table
      ensures spaces.Keys == old(spaces).Keys && forall p :: p in spaces && p != pid ==> spaces[p] == old(spaces)[p]
      ensures MapsOut(old(spaces)[pid], spaces[pid], Att(pid, si, shmid), n)
      ensures Recounted(old(Segs()), Segs(), shmid, n, -1)
    {
      var sp0 := spaces[pid];
      spaces := spaces[pid := sp0.(slots := sp0.slots[si := Slot(false, -1)])];
      var i := 0;
      while i < n
        invariant 0 <= i <= n && spaces.Keys == old(spaces).Keys
        invariant forall p :: p in spaces && p != pid ==> spaces[p] == old(spaces)[p]
        invariant |spaces[pid].slots| == |spaces[pid].window| == SHMMAXSEG
        invariant forall j ::
                    0 <= j < SHMMAXSEG && !(si <= j < si + n) ==>
                      spaces[pid].slots[j] == sp0.slots[j] && spaces[pid].window[j] == sp0.window[j]
        invariant forall j :: si <= j < si + i ==> !spaces[pid].slots[j].attached && spaces[pid].window[j] == None
        invariant forall j :: 0 <= j < SHMMAXSEG ==>
                    table[j] ==
                      if shmid <= j < shmid + i then old(table[j]).(nattch := old(table[j]).nattch - 1)
                      else old(table[j])
      {
        var sp := spaces[pid];
        var slots := sp.slots[si + i := sp.slots[si + i].(attached := false)];
        spaces := spaces[pid := Space(slots, sp.window[si + i := None])];
        table[shmid + i] := table[shmid + i].(nattch := table[shmid + i].nattch - 1);
        i := i + 1;
      }
      table[shmid] := table[shmid].(dest := true);
    }
  }

  function FreeSlots(slots: seq<Slot>): (r: seq<bool>) {
    seq(|slots|, i requires 0 <= i < |slots| => !slots[i].attached)
  }

  function SlotOf(addr: int): (r: nat)
    requires addr >= HEAPLIMIT
    ensures addr < KERNBASE ==> r < SHMMAXSEG
    ensures HEAPLIMIT + r * PGSIZE <= addr < HEAPLIMIT + (r + 1) * PGSIZE
  {
    (addr - HEAPLIMIT) / PGSIZE
  }

  /** An entry has size 0 exactly when it is free. */
  lemma EntryFacts(segs: seq<Seg>, owner: map<nat, nat>, i: nat)
    requires Split(segs, owner) && i < |segs|
    ensures segs[i].size == 0 <==> i !in owner
  {
    assert EntryOk(segs, owner, i);
  }

  lemma ShapeHolds(segs: seq<Seg>, owner: map<nat, nat>, spaces: map<nat, Space>, cover: map<(nat, nat), Att>,
                   live: set<Att>)
    requires Attached(segs, owner, spaces, cover, live)
    ensures Shape(spaces)
  {
  }

  /** Slots free for an attachment are unmapped. */
  lemma ShapeOf(segs: seq<Seg>, owner: map<nat, nat>, spaces: map<nat, Space>, cover: map<(nat, nat), Att>,
                live: set<Att>, pid: nat, si: nat, n: nat)
    requires Attached(segs, owner, spaces, cover, live) && pid in spaces && FreeRun(FreeSlots(spaces[pid].slots), si, n)
    ensures |spaces[pid].slots| == |spaces[pid].window| == SHMMAXSEG && si + n <= SHMMAXSEG
    ensures forall j :: si <= j < si + n ==> spaces[pid].window[j] == None && !spaces[pid].slots[j].attached
  {
    forall j | si <= j < si + n ensures spaces[pid].window[j] == None && !spaces[pid].slots[j].attached {
      assert FreeSlots(spaces[pid].slots)[j];
      assert SlotOk(segs, spaces, cover, live, pid, j);
    }
  }

  /** What is known of a slot that is attached and begins its attachment. */
  lemma CoverAt(segs: seq<Seg>, owner: map<nat, nat>, spaces: map<nat, Space>, cover: map<(nat, nat), Att>,
                live: set<Att>, pid: nat, j: nat)
    requires Split(segs, owner) && Attached(segs, owner, spaces, cover, live) && pid in spaces && j < SHMMAXSEG
    requires (pid, j) in cover ==> cover[(pid, j)].si == j
    ensures spaces[pid].slots[j].attached ==>
              var s := spaces[pid].slots[j].shmid;
              && 0 <= s < |segs| && Att(pid, j, s) in live && IsStart(owner, s)
              && 1 <= Pages(segs[s].size) && s + Pages(segs[s].size) <= |segs| && j + Pages(segs[s].size) <= SHMMAXSEG
              && forall i :: s <= i < s + Pages(segs[s].size) ==> segs[i].nattch >= 1
  {
    hide Pages;
    assert SlotOk(segs, spaces, cover, live, pid, j);
    if spaces[pid].slots[j].attached {
      var a := cover[(pid, j)];
      LiveIsAttached(segs, owner, spaces, cover, live, a);
      assert AttOk(segs, owner, spaces, cover, a);
      var s := a.shmid;
      StartFacts(segs, owner, s);
      var n := Pages(segs[s].size);
      assert PageOk(segs, spaces[pid], cover, a, n - 1);
      assert a in Of(live, s);
      forall i | s <= i < s + n ensures segs[i].nattch >= 1 {
        assert EntryOk(segs, owner, i);
      }
    }
  }

  lemma AttachKeepsAll(segs: seq<Seg>, after: seq<Seg>, owner: map<nat, nat>, free: seq<nat>,
                       spaces: map<nat, Space>, sp: Space,
                       cover: map<(nat, nat), Att>, live: set<Att>, a: Att)
    requires Split(segs, owner) && Handles(segs, owner, free) && Attached(segs, owner, spaces, cover, live)
    requires IsStart(owner, a.shmid) && a.shmid < |segs| && a.pid in spaces
    requires var n := Pages(segs[a.shmid].size);
             && Recounted(segs, after, a.shmid, n, 1) && MapsIn(spaces[a.pid], sp, segs, a, n)
             && forall j :: a.si <= j < a.si + n ==> !spaces[a.pid].slots[j].attached
    ensures a !in live && Split(after, owner) && Handles(after, owner, free)
    ensures Attached(after, owner, spaces[a.pid := sp], Covered(cover, a, Pages(segs[a.shmid].size)), live + {a})
  {
    hide Pages, Attached, Covered, MapsIn;
    AttachKeeps(segs, after, owner, spaces, sp, cover, live, a);
    RecountKeeps(segs, after, owner, free, a.shmid, 1);
  }

  lemma DetachKeepsAll(segs: seq<Seg>, after: seq<Seg>, owner: map<nat, nat>, free: seq<nat>,
                       spaces: map<nat, Space>, sp: Space,
                       cover: map<(nat, nat), Att>, live: set<Att>, a: Att)
    requires Split(segs, owner) && Handles(segs, owner, free) && Attached(segs, owner, spaces, cover, live) && a in live
    requires a.pid in spaces && IsStart(owner, a.shmid) && a.shmid < |segs|
    requires var n := Pages(segs[a.shmid].size);
             Recounted(segs, after, a.shmid, n, -1) && MapsOut(spaces[a.pid], sp, a, n)
    ensures Split(after, owner) && Handles(after, owner, free)
    ensures Attached(after, owner, spaces[a.pid := sp], Uncovered(cover, a), live - {a})
  {
    hide Pages, Attached, Uncovered, MapsOut;
    DetachKeeps(segs, after, owner, spaces, sp, cover, live, a);
    RecountKeeps(segs, after, owner, free, a.shmid, -1);
  }

  lemma RecountKeeps(segs: seq<Seg>, after: seq<Seg>, owner: map<nat, nat>, free: seq<nat>, s: nat, d: int)
    requires Split(segs, owner) && Handles(segs, owner, free) && IsStart(owner, s) && s < |segs|
    requires Recounted(segs, after, s, Pages(segs[s].size), d)
    ensures Split(after, owner) && Handles(after, owner, free)
  {
    hide Pages;
    StartFacts(segs, owner, s);
    forall i | i in owner && owner[i] == s ensures after[i].nattch == after[s].nattch {
      assert EntryOk(segs, owner, i);
    }
    TouchKeepsSplit(segs, after, owner, s);
  }

  // --------------------------------------------------------------- addresses

  /** V2P() on 32-bit words. */
  function V2P(a: int): (r: nat) {
    (a - KERNBASE) % 0x1_0000_0000
  }

  /** allocShmSeg() stores V2P(mem), and both allocshmuvm() and freeshmPages() apply V2P() again: that gives the
      kernel address of the page back, which is right for kfree() and, as the frame to map, lies above the
      machine's memory. */
  lemma TranslatedTwice(mem: nat)
    requires KERNBASE <= mem < KERNBASE + PHYSTOP
    ensures V2P(V2P(mem)) == mem && V2P(V2P(mem)) >= PHYSTOP && V2P(mem) < PHYSTOP
  {
    assert V2P(mem) == mem - KERNBASE;
    assert V2P(V2P(mem)) == mem - KERNBASE - KERNBASE + 0x1_0000_0000;
  }

  /** Entries s..s+n marked for destruction, their permissions dropped. */
  ghost predicate Marked(before: seq<Seg>, after: seq<Seg>, s: nat, n: nat) {
    && |after| == |before| && s + n <= |before|
    && forall i ::
         0 <= i < |before| ==> after[i] == if s <= i < s + n then before[i].(dest := true, perm := 0) else before[i]
  }

  lemma {:induction false} ReturnedFrame(before: seq<Seg>, after: seq<Seg>, s: nat, n: nat, free: seq<nat>)
    requires s + n <= |before| == |after| && forall i :: 0 <= i < |before| ==> after[i].pa == before[i].pa
    ensures Returned(after, s, n, free) == Returned(before, s, n, free)
  {
    if n > 0 {
      ReturnedFrame(before, after, s, n - 1, free);
    }
  }

  lemma RemarkAttached(before: seq<Seg>, after: seq<Seg>, owner: map<nat, nat>, spaces: map<nat, Space>,
                       cover: map<(nat, nat), Att>, live: set<Att>,
                       s: nat, n: nat)
    requires Attached(before, owner, spaces, cover, live) && Marked(before, after, s, n)
    ensures Attached(after, owner, spaces, cover, live)
  {
    hide Pages;
    forall a | a in live ensures AttOk(after, owner, spaces, cover, a) {
      assert AttOk(before, owner, spaces, cover, a);
      forall k: nat | k < Pages(before[a.shmid].size) ensures PageOk(after, spaces[a.pid], cover, a, k) {
        assert PageOk(before, spaces[a.pid], cover, a, k);
      }
    }
    forall p, j: nat | p in spaces && j < SHMMAXSEG ensures SlotOk(after, spaces, cover, live, p, j) {
      assert SlotOk(before, spaces, cover, live, p, j);
    }
  }
}
