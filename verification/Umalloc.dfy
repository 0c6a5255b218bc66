/**
  The Kernighan and Ritchie heap allocator (umalloc.c; The C Programming Language, second
  edition, section 8.7).  Addresses count units of sizeof(Header) = 8 bytes; address 0 is
  the null pointer, and base is the static header, below everything sbrk() returns.
 */
module Umalloc {
  import opened Common

  datatype Header = Header(ptr: nat, size: nat)

  type Memory = map<nat, Header>

  /** The free list, from base in address order, is linked into a circle. */
  ghost predicate Linked(mem: Memory, ring: seq<nat>, base: nat) {
    && |ring| >= 1 && ring[0] == base && 0 < base
    && (forall i :: 0 <= i < |ring| ==> ring[i] in mem)
    && (forall i, j :: 0 <= i < j < |ring| ==> ring[i] < ring[j])
    && (forall i :: 0 <= i < |ring| - 1 ==> mem[ring[i]].ptr == ring[i + 1])
    && mem[ring[|ring| - 1]].ptr == base
    && mem[base].size == 0
  }

  /** Fully coalesced: no free block ends where the next one starts. */
  ghost predicate Gaps(mem: Memory, ring: seq<nat>)
    requires forall i :: 0 <= i < |ring| ==> ring[i] in mem
  {
    forall i :: 1 <= i < |ring| - 1 ==> ring[i] + mem[ring[i]].size < ring[i + 1]
  }

  /** owner maps every unit obtained from sbrk() to the header of the one block that holds it; so blocks do
      not overlap, and together they are everything obtained. */
  ghost predicate Owned(mem: Memory, blocks: set<nat>, owner: map<nat, nat>) {
    && (forall a :: a in blocks ==> a in mem && mem[a].size >= 1)
    && (forall u :: u in owner ==> owner[u] in blocks && Covers(mem, owner[u], u))
    && (forall a, u :: a in blocks && Covers(mem, a, u) ==> u in owner && owner[u] == a)
  }

  /** Unit u lies in the block with header a. */
  ghost predicate Covers(mem: Memory, a: nat, u: nat) {
    a in mem && a <= u < a + mem[a].size
  }

  /** The ring holds exactly the free blocks, after base. */
  ghost predicate Holds(ring: seq<nat>, base: nat, free: set<nat>) {
    && base !in free
    && (forall i :: 1 <= i < |ring| ==> ring[i] in free)
    && (forall a :: a in free ==> a in ring)
  }

  /** The position in the ring after which an address belongs. */
  ghost predicate Slot(ring: seq<nat>, k: int, a: nat) {
    && 0 <= k < |ring| && ring[k] < a
    && (k + 1 < |ring| ==> a < ring[k + 1])
  }

  lemma {:induction false} SlotExists(ring: seq<nat>, a: nat) returns (k: nat)
    requires |ring| >= 1 && ring[0] < a && a !in ring
    requires forall i, j :: 0 <= i < j < |ring| ==> ring[i] < ring[j]
    ensures Slot(ring, k, a)
  {
    k := |ring| - 1;
    if a < ring[k] {
      var shorter := ring[..k];
      k := SlotExists(shorter, a);
    } else {
      assert ring[k] in ring;
    }
  }

  function Inserted(ring: seq<nat>, k: nat, a: nat): (r: seq<nat>)
    requires k < |ring|
  {
    ring[..k + 1] + [a] + ring[k + 1..]
  }

  function Removed(ring: seq<nat>, k: nat): (r: seq<nat>)
    requires k < |ring|
  {
    ring[..k] + ring[k + 1..]
  }

  /** Linking block a in after ring[k]. */
  function Insert(mem: Memory, p: nat, a: nat): (r: Memory)
    requires p in mem && a in mem
  {
    mem[a := Header(mem[p].ptr, mem[a].size)][p := Header(a, mem[p].size)]
  }

  lemma InsertLinked(mem: Memory, ring: seq<nat>, base: nat, k: nat, a: nat)
    requires Linked(mem, ring, base) && Slot(ring, k, a) && a in mem && a !in ring
    ensures Linked(Insert(mem, ring[k], a), Inserted(ring, k, a), base)
  {
    var r := Inserted(ring, k, a);
    var m := Insert(mem, ring[k], a);
    forall i, j | 0 <= i < j < |r| ensures r[i] < r[j] {
      assert r[i] == if i <= k then ring[i] else if i == k + 1 then a else ring[i - 1];
      assert r[j] == if j <= k then ring[j] else if j == k + 1 then a else ring[j - 1];
    }
    forall i | 0 <= i < |r| - 1 ensures m[r[i]].ptr == r[i + 1] {
      if i > k + 1 {
        assert r[i] == ring[i - 1] && r[i + 1] == ring[i];
        assert r[i] != ring[k];
      }
    }
  }

  lemma InsertHolds(ring: seq<nat>, base: nat, free: set<nat>, k: nat, a: nat)
    requires Holds(ring, base, free) && k < |ring| && a != base
    ensures Holds(Inserted(ring, k, a), base, free + {a})
  {
    var r := Inserted(ring, k, a);
    forall i | 1 <= i < |r| ensures r[i] in free + {a} {
      assert r[i] == if i <= k then ring[i] else if i == k + 1 then a else ring[i - 1];
    }
    assert forall x :: x in ring ==> x in r by {
      assert ring == ring[..k + 1] + ring[k + 1..];
    }
  }

  /** ring[k] absorbs the adjacent ring[k + 1]. */
  function Merge(mem: Memory, p: nat, q: nat): (r: Memory)
    requires p in mem && q in mem
  {
    mem[p := Header(mem[q].ptr, mem[p].size + mem[q].size)]
  }

  /** The units of block q now belong to block p. */
  function Reown(owner: map<nat, nat>, p: nat, q: nat): (r: map<nat, nat>) {
    map u | u in owner :: if owner[u] == q then p else owner[u]
  }

  lemma MergeLinked(mem: Memory, ring: seq<nat>, base: nat, k: nat)
    requires Linked(mem, ring, base) && 1 <= k < |ring| - 1
    ensures Linked(Merge(mem, ring[k], ring[k + 1]), Removed(ring, k + 1), base)
  {
    var r := Removed(ring, k + 1);
    var m := Merge(mem, ring[k], ring[k + 1]);
    assert forall i :: 0 <= i < |r| ==> r[i] == if i <= k then ring[i] else ring[i + 1];
    forall i | 0 <= i < |r| - 1 ensures m[r[i]].ptr == r[i + 1] {
      assert i != k ==> r[i] != ring[k];
    }
  }

  lemma RemoveHolds(ring: seq<nat>, base: nat, free: set<nat>, k: nat)
    requires Holds(ring, base, free) && 1 <= k < |ring|
    requires forall i, j :: 0 <= i < j < |ring| ==> ring[i] < ring[j]
    ensures Holds(Removed(ring, k), base, free - {ring[k]})
  {
    var r := Removed(ring, k);
    forall i | 1 <= i < |r| ensures r[i] in free - {ring[k]} {
      assert r[i] == if i < k then ring[i] else ring[i + 1];
    }
    assert forall x :: x in ring && x != ring[k] ==> x in r by {
      assert ring == ring[..k] + [ring[k]] + ring[k + 1..];
    }
  }

  lemma MergeOwned(mem: Memory, blocks: set<nat>, owner: map<nat, nat>, p: nat, q: nat)
    requires Owned(mem, blocks, owner) && p in blocks && q in blocks && p != q
    requires p + mem[p].size == q
    ensures Owned(Merge(mem, p, q), blocks - {q}, Reown(owner, p, q))
  {
    var m, o := Merge(mem, p, q), Reown(owner, p, q);
    forall u | u in o ensures o[u] in blocks - {q} && Covers(m, o[u], u) {
      assert owner[u] in blocks && Covers(mem, owner[u], u);
    }
    forall a, u | a in blocks - {q} && Covers(m, a, u) ensures u in o && o[u] == a {
      assert Covers(mem, a, u) || (a == p && Covers(mem, q, u));
    }
  }

  // --------------------------------------------------------------- free()

  /** No gap is missing, except possibly after positions lo to hi. */
  ghost predicate GapsExcept(mem: Memory, ring: seq<nat>, lo: int, hi: int)
    requires forall i :: 0 <= i < |ring| ==> ring[i] in mem
  {
    forall i :: 1 <= i < |ring| - 1 && !(lo <= i <= hi) ==> ring[i] + mem[ring[i]].size < ring[i + 1]
  }

  lemma NoOverlap(mem: Memory, blocks: set<nat>, owner: map<nat, nat>, a: nat, b: nat)
    requires Owned(mem, blocks, owner) && a in blocks && b in blocks && a < b
    ensures a + mem[a].size <= b
  {
    assert Covers(mem, b, b);
    if a + mem[a].size > b {
      assert Covers(mem, a, b);
      assert false;
    }
  }

  lemma InsertOwned(mem: Memory, blocks: set<nat>, owner: map<nat, nat>, p: nat, a: nat)
    requires Owned(mem, blocks, owner) && p in mem && a in mem && p != a
    ensures Owned(Insert(mem, p, a), blocks, owner)
  {
    var m := Insert(mem, p, a);
    assert forall b :: b in mem ==> m[b].size == mem[b].size;
    assert forall b, u :: Covers(m, b, u) == Covers(mem, b, u);
  }

  lemma InsertGaps(mem: Memory, ring: seq<nat>, base: nat, k: nat, a: nat)
    requires Linked(mem, ring, base) && Gaps(mem, ring) && k < |ring| && a in mem && a !in ring
    ensures Linked(Insert(mem, ring[k], a), Inserted(ring, k, a), base) ==>
              GapsExcept(Insert(mem, ring[k], a), Inserted(ring, k, a), k, k + 1)
  {
    var r, m := Inserted(ring, k, a), Insert(mem, ring[k], a);
    assert forall b :: b in mem ==> m[b].size == mem[b].size;
    assert forall i :: 0 <= i < |r| ==> r[i] == if i <= k then ring[i] else if i == k + 1 then a else ring[i - 1];
  }

  lemma MergeGaps(mem: Memory, ring: seq<nat>, base: nat, k: nat, lo: nat)
    requires Linked(mem, ring, base) && 1 <= k < |ring| - 1 && ring[k] + mem[ring[k]].size == ring[k + 1]
    requires lo <= k && GapsExcept(mem, ring, lo, k)
    ensures Linked(Merge(mem, ring[k], ring[k + 1]), Removed(ring, k + 1), base) ==>
              GapsExcept(Merge(mem, ring[k], ring[k + 1]), Removed(ring, k + 1), lo, k - 1)
  {
    var r, m := Removed(ring, k + 1), Merge(mem, ring[k], ring[k + 1]);
    assert forall i :: 0 <= i < |r| ==> r[i] == if i <= k then ring[i] else ring[i + 1];
    forall i | 1 <= i < |r| - 1 && !(lo <= i <= k - 1) ensures r[i] + m[r[i]].size < r[i + 1] {
      if i == k && k + 2 < |ring| {
        assert ring[k + 1] + mem[ring[k + 1]].size < ring[k + 2];
      }
    }
  }

  /** The heap with freed block a linked in after p and merged with an adjacent successor. */
  function Upper(mem: Memory, p: nat, a: nat): (r: Memory)
    requires p in mem && a in mem && mem[p].ptr in mem
  {
    var q := mem[p].ptr;
    if a + mem[a].size == q then mem[a := Header(mem[q].ptr, mem[a].size + mem[q].size)]
    else mem[a := Header(q, mem[a].size)]
  }

  /** Then merged with an adjacent predecessor. */
  function Lower(mem: Memory, p: nat, a: nat): (r: Memory)
    requires p in mem && a in mem
  {
    if p + mem[p].size == a then mem[p := Header(mem[a].ptr, mem[p].size + mem[a].size)]
    else mem[p := Header(a, mem[p].size)]
  }

  /** A consistent free list, coalesced except after positions lo to hi. */
  ghost predicate FreeList(mem: Memory, ring: seq<nat>, base: nat, free: set<nat>, lo: int, hi: int) {
    Linked(mem, ring, base) && Holds(ring, base, free) && GapsExcept(mem, ring, lo, hi)
  }

  lemma InsertStep(mem: Memory, ring: seq<nat>, base: nat, free: set<nat>, k: nat, a: nat)
    requires FreeList(mem, ring, base, free, 1, 0) && Slot(ring, k, a) && a in mem && a !in ring
    ensures FreeList(Insert(mem, ring[k], a), Inserted(ring, k, a), base, free + {a}, k, k + 1)
  {
    hide Insert, Inserted;
    InsertLinked(mem, ring, base, k, a);
    InsertHolds(ring, base, free, k, a);
    InsertGaps(mem, ring, base, k, a);
  }

  lemma MergeStep(mem: Memory, ring: seq<nat>, base: nat, free: set<nat>, blocks: set<nat>, owner: map<nat, nat>,
                  k: nat, lo: nat)
    requires 1 <= k < |ring| - 1 && lo <= k && FreeList(mem, ring, base, free, lo, k)
    requires Owned(mem, blocks, owner) && free <= blocks && ring[k] + mem[ring[k]].size == ring[k + 1]
    ensures FreeList(Merge(mem, ring[k], ring[k + 1]), Removed(ring, k + 1), base, free - {ring[k + 1]}, lo, k - 1)
    ensures Owned(Merge(mem, ring[k], ring[k + 1]), blocks - {ring[k + 1]}, Reown(owner, ring[k], ring[k + 1]))
  {
    hide Merge, Removed, Reown, Owned;
    MergeLinked(mem, ring, base, k);
    RemoveHolds(ring, base, free, k + 1);
    MergeGaps(mem, ring, base, k, lo);
    MergeOwned(mem, blocks, owner, ring[k], ring[k + 1]);
  }

  /** If ring[k] is not adjacent to its successor, there is a gap after it. */
  lemma CloseGap(mem: Memory, ring: seq<nat>, base: nat, free: set<nat>, blocks: set<nat>, owner: map<nat, nat>,
                 k: nat, lo: nat)
    requires k < |ring| && lo <= k && FreeList(mem, ring, base, free, lo, k)
    requires Owned(mem, blocks, owner) && free <= blocks
    requires k + 1 < |ring| ==> ring[k] + mem[ring[k]].size != ring[k + 1]
    ensures FreeList(mem, ring, base, free, lo, k - 1)
  {
    if 1 <= k && k + 1 < |ring| {
      assert ring[k] in free && ring[k + 1] in free;
      NoOverlap(mem, blocks, owner, ring[k], ring[k + 1]);
    }
  }

  lemma NextOf(mem: Memory, ring: seq<nat>, base: nat, k: nat)
    requires Linked(mem, ring, base) && k < |ring|
    ensures ring[k] in mem && mem[ring[k]].ptr in mem
    ensures mem[ring[k]].ptr == if k + 1 < |ring| then ring[k + 1] else base
  {
    assert ring[0] in mem && (k + 1 < |ring| ==> ring[k + 1] in mem);
  }

  /** The two halves of free(), for the block a linked in after p = ring[k]: first the successor. */
  lemma UpperStep(mem: Memory, ring: seq<nat>, base: nat, free: set<nat>, blocks: set<nat>, owner: map<nat, nat>,
                  k: nat, a: nat)
    returns (mem2: Memory, ring2: seq<nat>, free2: set<nat>, blocks2: set<nat>, owner2: map<nat, nat>)
    requires FreeList(mem, ring, base, free, 1, 0) && Owned(mem, blocks, owner)
    requires free <= blocks && a in blocks && a !in free && base < a
    requires Slot(ring, k, a) && a in mem && a !in ring
    ensures FreeList(mem2, ring2, base, free2, k, k) && Owned(mem2, blocks2, owner2)
    ensures k + 1 < |ring2| && ring2[k] == ring[k] && ring2[k + 1] == a && owner2.Keys == owner.Keys
    ensures free2 <= blocks2 && a in free2 && blocks2 - free2 == blocks - free - {a}
    ensures ring[k] in mem && mem[ring[k]].ptr in mem
    ensures mem2 == Upper(mem, ring[k], a)[ring[k] := Header(a, mem[ring[k]].size)]
  {
    hide Linked, Holds, GapsExcept, Owned;
    var p := ring[k];
    NextOf(mem, ring, base, k);
    InsertStep(mem, ring, base, free, k, a);
    InsertOwned(mem, blocks, owner, p, a);
    var mem1, ring1, free1 := Insert(mem, p, a), Inserted(ring, k, a), free + {a};
    assert ring1[k] == p && ring1[k + 1] == a && (k + 1 < |ring| ==> ring1[k + 2] == ring[k + 1]);
    if a + mem[a].size == mem[p].ptr {
      var q := ring[k + 1];
      AfterBase(ring, base, free, k + 1);
      MergeStep(mem1, ring1, base, free1, blocks, owner, k + 1, k);
      mem2, ring2, free2, blocks2, owner2 :=
        Merge(mem1, a, q), Removed(ring1, k + 2), free1 - {q}, blocks - {q}, Reown(owner, a, q);
    } else {
      CloseGap(mem1, ring1, base, free1, blocks, owner, k + 1, k);
      mem2, ring2, free2, blocks2, owner2 := mem1, ring1, free1, blocks, owner;
    }
  }

  lemma AfterBase(ring: seq<nat>, base: nat, free: set<nat>, k: nat)
    requires Holds(ring, base, free) && 1 <= k < |ring|
    ensures ring[k] in free
  {
  }

  /** Then the predecessor. */
  lemma LowerStep(mem: Memory, ring: seq<nat>, base: nat, free: set<nat>, blocks: set<nat>, owner: map<nat, nat>,
                  k: nat)
    returns (mem2: Memory, ring2: seq<nat>, free2: set<nat>, blocks2: set<nat>, owner2: map<nat, nat>)
    requires k + 1 < |ring| && FreeList(mem, ring, base, free, k, k) && Owned(mem, blocks, owner)
    requires free <= blocks
    ensures FreeList(mem2, ring2, base, free2, 1, 0) && Owned(mem2, blocks2, owner2)
    ensures k < |ring2| && ring2[k] == ring[k] && owner2.Keys == owner.Keys
    ensures free2 <= blocks2 && blocks2 - free2 == blocks - free
    ensures ring[k] in mem && ring[k + 1] in mem && mem2 == Lower(mem, ring[k], ring[k + 1])
    ensures ring[k + 1] in owner2 && owner2[ring[k + 1]] in free2 && owner2[ring[k + 1]] in mem2
    ensures mem2[owner2[ring[k + 1]]].size >= mem[ring[k + 1]].size
  {
    hide Linked, Holds, GapsExcept, Owned;
    var p, a := ring[k], ring[k + 1];
    AfterBase(ring, base, free, k + 1);
    Covering(mem, blocks, owner, a);
    NextOf(mem, ring, base, k);
    NotAtBase(mem, ring, base, k);
    if p + mem[p].size == a {
      MergeStep(mem, ring, base, free, blocks, owner, k, k);
      AfterBase(ring, base, free, k);
      mem2, ring2, free2, blocks2, owner2 :=
        Merge(mem, p, a), Removed(ring, k + 1), free - {a}, blocks - {a}, Reown(owner, p, a);
    } else {
      CloseGap(mem, ring, base, free, blocks, owner, k, k);
      mem2, ring2, free2, blocks2, owner2 := mem, ring, free, blocks, owner;
      assert mem[p := Header(a, mem[p].size)] == mem;
    }
    NoExceptions(mem2, ring2, base, free2, k);
  }

  lemma NoExceptions(mem: Memory, ring: seq<nat>, base: nat, free: set<nat>, k: nat)
    requires FreeList(mem, ring, base, free, k, k - 1)
    ensures FreeList(mem, ring, base, free, 1, 0)
  {
  }

  lemma Covering(mem: Memory, blocks: set<nat>, owner: map<nat, nat>, a: nat)
    requires Owned(mem, blocks, owner) && a in blocks
    ensures a in owner && owner[a] == a && a in mem
  {
    assert Covers(mem, a, a);
  }

  lemma NotAtBase(mem: Memory, ring: seq<nat>, base: nat, k: nat)
    requires Linked(mem, ring, base) && k + 1 < |ring|
    ensures ring[k] < ring[k + 1] && (ring[k] + mem[ring[k]].size == ring[k + 1] ==> 1 <= k)
  {
  }

  // --------------------------------------------------------------- malloc()

  /** Unlinking ring[k] for an exact fit. */
  lemma UnlinkStep(mem: Memory, ring: seq<nat>, base: nat, free: set<nat>, k: nat)
    requires FreeList(mem, ring, base, free, 1, 0) && 1 <= k < |ring|
    ensures var m := mem[ring[k - 1] := Header(mem[ring[k]].ptr, mem[ring[k - 1]].size)];
            FreeList(m, Removed(ring, k), base, free - {ring[k]}, 1, 0)
  {
    hide Holds;
    RemoveHolds(ring, base, free, k);
    UnlinkLinked(mem, ring, base, k);
    UnlinkGaps(mem, ring, base, k);
  }

  lemma UnlinkLinked(mem: Memory, ring: seq<nat>, base: nat, k: nat)
    requires Linked(mem, ring, base) && 1 <= k < |ring|
    ensures Linked(mem[ring[k - 1] := Header(mem[ring[k]].ptr, mem[ring[k - 1]].size)], Removed(ring, k), base)
  {
    var m := mem[ring[k - 1] := Header(mem[ring[k]].ptr, mem[ring[k - 1]].size)];
    var r := Removed(ring, k);
    assert forall i :: 0 <= i < |r| ==> r[i] == if i < k then ring[i] else ring[i + 1];
    forall i | 0 <= i < |r| - 1 ensures m[r[i]].ptr == r[i + 1] {
      assert i != k - 1 ==> r[i] != ring[k - 1];
    }
  }

  lemma UnlinkGaps(mem: Memory, ring: seq<nat>, base: nat, k: nat)
    requires Linked(mem, ring, base) && GapsExcept(mem, ring, 1, 0) && 1 <= k < |ring|
    ensures var m := mem[ring[k - 1] := Header(mem[ring[k]].ptr, mem[ring[k - 1]].size)];
            Linked(m, Removed(ring, k), base) ==> GapsExcept(m, Removed(ring, k), 1, 0)
  {
    var m := mem[ring[k - 1] := Header(mem[ring[k]].ptr, mem[ring[k - 1]].size)];
    var r := Removed(ring, k);
    assert forall b :: b in mem ==> m[b].size == mem[b].size;
    forall i | 1 <= i < |r| - 1 ensures r[i] in m && r[i] + m[r[i]].size < r[i + 1] {
      assert && r[i] == (if i < k then ring[i] else ring[i + 1])
             && r[i + 1] == if i + 1 < k then ring[i + 1] else ring[i + 2];
    }
  }

  lemma ResizeOwned(mem: Memory, m: Memory, blocks: set<nat>, owner: map<nat, nat>)
    requires Owned(mem, blocks, owner)
    requires forall a :: a in mem ==> a in m && m[a].size == mem[a].size
    ensures Owned(m, blocks, owner)
  {
    forall u | u in owner ensures Covers(m, owner[u], u) {
      assert Covers(mem, owner[u], u);
    }
    forall a, u | a in blocks && Covers(m, a, u) ensures u in owner && owner[u] == a {
      assert Covers(mem, a, u);
    }
  }

  /** Block p gives its last n units to a new block t. */
  function Carve(mem: Memory, p: nat, n: nat): (r: Memory)
    requires p in mem && n < mem[p].size
  {
    var t := p + mem[p].size - n;
    mem[p := Header(mem[p].ptr, mem[p].size - n)][t := Header(if t in mem then mem[t].ptr else 0, n)]
  }

  function Carved(owner: map<nat, nat>, t: nat, n: nat): (r: map<nat, nat>) {
    map u | u in owner :: if t <= u < t + n then t else owner[u]
  }

  lemma CarveOwned(mem: Memory, blocks: set<nat>, owner: map<nat, nat>, p: nat, n: nat)
    requires Owned(mem, blocks, owner) && p in blocks && 1 <= n < mem[p].size
    ensures var t := p + mem[p].size - n;
            t !in blocks && Owned(Carve(mem, p, n), blocks + {t}, Carved(owner, t, n))
  {
    var t := p + mem[p].size - n;
    var m, o := Carve(mem, p, n), Carved(owner, t, n);
    assert Covers(mem, p, t);
    if t in blocks {
      assert Covers(mem, t, t);
      assert false;
    }
    forall u | u in o ensures o[u] in blocks + {t} && Covers(m, o[u], u) {
      assert Covers(mem, owner[u], u);
      if t <= u < t + n {
        assert Covers(mem, p, u);
      }
    }
    forall a: nat, u: nat | a in blocks + {t} && Covers(m, a, u) ensures u in o && o[u] == a {
      if a == t {
        assert Covers(mem, p, u);
      } else {
        assert Covers(mem, a, u);
        if t <= u < t + n {
          assert Covers(mem, p, u);
        }
      }
    }
  }

  lemma CarveStep(mem: Memory, ring: seq<nat>, base: nat, free: set<nat>, blocks: set<nat>, owner: map<nat, nat>,
                  k: nat, n: nat)
    requires FreeList(mem, ring, base, free, 1, 0) && Owned(mem, blocks, owner) && free <= blocks
    requires 1 <= k < |ring| && 1 <= n < mem[ring[k]].size && base !in owner
    ensures FreeList(Carve(mem, ring[k], n), ring, base, free, 1, 0)
  {
    CarveOutside(mem, ring, base, free, blocks, owner, k, n);
    var m, p := Carve(mem, ring[k], n), ring[k];
    assert forall i :: 0 <= i < |ring| && i != k ==> ring[i] != p;
    assert forall i :: 0 <= i < |ring| ==> m[ring[i]].ptr == mem[ring[i]].ptr && m[ring[i]].size <= mem[ring[i]].size;
  }

  /** The new block is not in the ring. */
  lemma CarveOutside(mem: Memory, ring: seq<nat>, base: nat, free: set<nat>, blocks: set<nat>, owner: map<nat, nat>,
                     k: nat, n: nat)
    requires FreeList(mem, ring, base, free, 1, 0) && Owned(mem, blocks, owner) && free <= blocks
    requires 1 <= k < |ring| && 1 <= n < mem[ring[k]].size && base !in owner
    ensures forall i :: 0 <= i < |ring| ==> ring[i] != ring[k] + mem[ring[k]].size - n
  {
    hide Linked, GapsExcept;
    var p := ring[k];
    var t := p + mem[p].size - n;
    CarveOwned(mem, blocks, owner, p, n);
    assert Covers(mem, p, t);
    forall i | 0 <= i < |ring| ensures ring[i] != t {
      assert i >= 1 ==> ring[i] in free;
      BaseFirst(mem, ring, base);
    }
  }

  lemma BaseFirst(mem: Memory, ring: seq<nat>, base: nat)
    requires Linked(mem, ring, base)
    ensures |ring| >= 1 && ring[0] == base
  {
  }

  /** Changing memory away from the ring keeps the free list. */
  lemma FrameFreeList(mem: Memory, m: Memory, ring: seq<nat>, base: nat, free: set<nat>)
    requires FreeList(mem, ring, base, free, 1, 0)
    requires forall i :: 0 <= i < |ring| ==> ring[i] in m && m[ring[i]] == mem[ring[i]]
    ensures FreeList(m, ring, base, free, 1, 0)
  {
    assert ring[0] == base;
  }

  /** The n units from a on, all owned by a. */
  ghost function Extent(a: nat, n: nat): (r: map<nat, nat>) {
    if n == 0 then map[] else Extent(a, n - 1)[a + n - 1 := a]
  }

  lemma {:induction false} ExtentLookup(a: nat, n: nat)
    ensures forall u :: u in Extent(a, n) <==> a <= u < a + n
    ensures forall u :: u in Extent(a, n) ==> Extent(a, n)[u] == a
  {
    if n > 0 {
      ExtentLookup(a, n - 1);
    }
  }

  /** Units fresh from sbrk() form one more block. */
  lemma GrowOwned(mem: Memory, blocks: set<nat>, owner: map<nat, nat>, a: nat, n: nat)
    requires Owned(mem, blocks, owner) && 1 <= n && a !in blocks
    requires forall u :: u in owner ==> u < a
    ensures Owned(mem[a := Header(0, n)], blocks + {a}, owner + Extent(a, n))
  {
    ExtentLookup(a, n);
    hide Extent;
    var m := mem[a := Header(0, n)];
    var o := owner + Extent(a, n);
    forall u | u in o ensures o[u] in blocks + {a} && Covers(m, o[u], u) {
      if u in owner {
        assert Covers(mem, owner[u], u);
      }
    }
    forall b: nat, u: nat | b in blocks + {a} && Covers(m, b, u) ensures u in o && o[u] == b {
      if b != a {
        assert Covers(mem, b, u);
      }
    }
  }

  // --------------------------------------------------------------- the allocator

  const HEADER_BYTES: nat := 8
  const MIN_UNITS: nat := 4096

  /** nunits in malloc(), with the 32-bit wrap-around of nbytes + sizeof(Header) - 1. */
  function Units(nbytes: nat): (r: nat)
    ensures r >= 1
  {
    (nbytes + HEADER_BYTES - 1) % UINT_LIMIT / HEADER_BYTES + 1
  }

  /** A block of Units(nbytes) has room for nbytes after its header exactly when that sum does not wrap. */
  lemma RoomForRequest(nbytes: uint32)
    ensures (Units(nbytes) - 1) * HEADER_BYTES >= nbytes <==> nbytes <= UINT_LIMIT - HEADER_BYTES
  {
  }

  /** What morecore() asks for at least. */
  function CoreUnits(nu: nat): (r: nat) {
    if nu < MIN_UNITS then MIN_UNITS else nu
  }

  /** The argument of sbrk(), an int, for nu units. */
  function SbrkArg(nu: nat): (r: int)
    ensures -0x8000_0000 <= r < 0x8000_0000 && r % HEADER_BYTES == 0
  {
    AsInt(nu * HEADER_BYTES % UINT_LIMIT)
  }

  /** The largest request that malloc() can serve. */
  const MAX_REQUEST: nat := 0x7FFF_FFF0

  /** The units have room and sbrk() is asked for just those bytes, for exactly the requests of at most MAX_REQUEST. */
  lemma ServedExactly(nbytes: uint32)
    ensures var nu := CoreUnits(Units(nbytes));
            && (Units(nbytes) - 1) * HEADER_BYTES >= nbytes && SbrkArg(nu) == nu * HEADER_BYTES
            <==> nbytes <= MAX_REQUEST
    ensures MAX_REQUEST < nbytes <= UINT_LIMIT - HEADER_BYTES <==>
              CoreUnits(Units(nbytes)) * HEADER_BYTES >= 0x8000_0000
  {
    RoomForRequest(nbytes);
  }

  lemma SbrkArgSign(nu: nat)
    requires 0 < nu <= UINT_LIMIT / HEADER_BYTES
    ensures SbrkArg(nu) > 0 <==> nu * HEADER_BYTES < 0x8000_0000
  {
  }

  /** What growproc() does to a process: whether it succeeds, and where the memory of the process ends then. */
  datatype Growth = Growth(ok: bool, top: nat)

  /** growproc(n) for a process of sz bytes, as long as there are pages: allocuvm() up to HEAPLIMIT, or deallocuvm() to
      sz + n in 32 bits, which does nothing if that is no less than sz. */
  function Grown(sz: nat, n: int): (r: Growth)
    requires 0 < sz < HEAPLIMIT
  {
    if n > 0 then
      if sz + n >= HEAPLIMIT then Growth(false, sz) else Growth(true, sz + n)
    else
      var newsz := (sz + n) % UINT_LIMIT;
      if newsz >= sz then Growth(true, sz) else Growth(newsz != 0, newsz)
  }

  lemma WholeUnits(units: nat, n: int)
    requires 0 < units * HEADER_BYTES < HEAPLIMIT && n % HEADER_BYTES == 0
    ensures Grown(units * HEADER_BYTES, n).top % HEADER_BYTES == 0
  {
    var k := n / HEADER_BYTES;
    assert (units * HEADER_BYTES + n) % UINT_LIMIT == HEADER_BYTES * ((units + k) % (UINT_LIMIT / HEADER_BYTES));
  }

  /** sbrk() for nu units gives them or refuses and changes nothing, or it gives none and says that it has, or it takes
      memory away; the former exactly as long as the bytes are fewer than 2^31. */
  lemma GrownExactly(sz: nat, nu: nat)
    requires 0 < sz < HEAPLIMIT && 0 < nu <= UINT_LIMIT / HEADER_BYTES
    ensures var g := Grown(sz, SbrkArg(nu));
            && g.top < HEAPLIMIT
            && (nu * HEADER_BYTES < 0x8000_0000 <==>
                  g == Growth(true, sz + nu * HEADER_BYTES) || g == Growth(false, sz))
            && (nu * HEADER_BYTES >= 0x8000_0000 <==> g == Growth(true, sz) || g.top < sz)
            && (nu * HEADER_BYTES >= 0x8000_0000 ==>
                  var less := UINT_LIMIT - nu * HEADER_BYTES;
                  g == if less > sz then Growth(true, sz) else Growth(less != sz, sz - less))
  {
  }

  /** A request for 2 GB: sbrk() is called with a negative number, and succeeds without adding anything, in every
      process. */
  lemma TwoGigabytes(sz: nat)
    requires 0 < sz < HEAPLIMIT
    ensures Units(0x8000_0000) == 0x1000_0001 && SbrkArg(0x1000_0001) < 0
    ensures Grown(sz, SbrkArg(0x1000_0001)) == Growth(true, sz)
  {
  }

  class Heap {
    const base: nat
    var mem: Memory
    var freep: nat
    var brk: nat
    ghost var ring: seq<nat>
    ghost var free: set<nat>
    ghost var live: map<nat, nat>
    ghost var owner: map<nat, nat>
    /** Every unit obtained from sbrk() so far, and how often it was asked. */
    ghost var obtained: set<nat>
    ghost var asked: nat

    ghost predicate Valid()
      reads this
    {
      && 0 < base < brk && brk * HEADER_BYTES < HEAPLIMIT
      && (if freep == 0 then free == {} && live == map[] else FreeList(mem, ring, base, free, 1, 0) && freep in ring)
      && Owned(mem, free + live.Keys, owner) && free !! live.Keys
      && (forall a :: a in live ==> a in mem && mem[a].size == live[a])
      && owner.Keys == obtained
      && (forall u :: u in obtained ==> base < u < brk)
    }

    constructor (base: nat, brk: nat)
      requires 0 < base < brk && brk * HEADER_BYTES < HEAPLIMIT
      ensures Valid() && live == map[] && obtained == {} && asked == 0
    {
      this.base, this.brk := base, brk;
      mem, freep := map[], 0;
      ring, free, live, owner, obtained, asked := [], {}, map[], map[], {}, 0;
    }

    /** The search loop of free(): it stops, at the free block after which bp belongs. */
    method FindSlot(bp: nat) returns (p: nat, ghost k: nat)
      requires Linked(mem, ring, base) && freep in ring && base < bp && bp !in ring
      ensures Slot(ring, k, bp) && p == ring[k]
    {
      k := SlotExists(ring, bp);
      p := freep;
      ghost var i :| 0 <= i < |ring| && ring[i] == p;
      while !(bp > p && bp < mem[p].ptr)
        invariant 0 <= i < |ring| && ring[i] == p
        invariant Slot(ring, k, bp)
        decreases if i <= k then k - i else |ring| - i + k
      {
        NextOf(mem, ring, base, i);
        if p >= mem[p].ptr && (bp > p || bp < mem[p].ptr) {
          break;
        }
        p := mem[p].ptr;
        i := if i + 1 < |ring| then i + 1 else 0;
      }
      NextOf(mem, ring, base, i);
      k := i;
    }

    /** free(): the block leaves the live ones, its units stay with the heap, and the free list is again
        fully coalesced. */
    method Free(ap: nat)
      requires Valid() && 1 <= ap && ap - 1 in live
      modifies this
      ensures Valid() && freep != 0
      ensures live == old(live) - {ap - 1} && obtained == old(obtained) && brk == old(brk) && asked == old(asked)
      ensures var a := ap - 1; a in owner && owner[a] in free && owner[a] in mem && mem[owner[a]].size >= old(live)[a]
    {
      hide Linked, Holds, GapsExcept, Owned;
      var bp := ap - 1;
      LiveFacts(bp);
      var p;
      ghost var k;
      p, k := FindSlot(bp);
      NextOf(mem, ring, base, k);
      RingFacts(k);
      ghost var mem2, ring2, free2, blocks2, owner2 := UpperStep(mem, ring, base, free, free + live.Keys, owner, k, bp);
      ghost var mem3, ring3, free3, blocks3, owner3 := LowerStep(mem2, ring2, base, free2, blocks2, owner2, k);
      FreedSets(free, live, free2, blocks2, free3, blocks3, bp);
      SizesKept(mem, live, p, bp);
      Link(p, bp);
      ring, free, live, owner := ring3, free3, live - {bp}, owner3;
      assert ring[k] == freep && mem == mem3;
    }

    /** The pointer and size stores of free(). */
    method Link(p: nat, bp: nat)
      requires p in mem && bp in mem && mem[p].ptr in mem && p != bp
      modifies this`mem, this`freep
      ensures mem == Lower(Upper(old(mem), p, bp), p, bp) && freep == p
    {
      if bp + mem[bp].size == mem[p].ptr {
        mem := mem[bp := Header(mem[mem[p].ptr].ptr, mem[bp].size + mem[mem[p].ptr].size)];
      } else {
        mem := mem[bp := Header(mem[p].ptr, mem[bp].size)];
      }
      if p + mem[p].size == bp {
        mem := mem[p := Header(mem[bp].ptr, mem[p].size + mem[bp].size)];
      } else {
        mem := mem[p := Header(bp, mem[p].size)];
      }
      freep := p;
    }

    lemma LiveFacts(a: nat)
      requires Valid() && a in live
      ensures base < a && a !in ring && freep != 0 && a !in free
    {
      Covering(mem, free + live.Keys, owner, a);
    }

    /** A header in the ring is base or a free block, so not a live one. */
    lemma RingFacts(k: nat)
      requires Valid() && freep != 0 && k < |ring|
      ensures ring[k] in mem && ring[k] !in live && ring[k] >= base
    {
      if ring[k] in live {
        LiveFacts(ring[k]);
      }
    }

    /** sbrk(n): the old break, unless growproc() fails, which it may also do for want of a page. */
    method Sbrk(n: int) returns (p: Option<nat>)
      requires 0 < brk * HEADER_BYTES < HEAPLIMIT && n % HEADER_BYTES == 0
      modifies this`brk, this`asked
      ensures asked == old(asked) + 1
      ensures var g := Grown(old(brk) * HEADER_BYTES, n);
              || (p == (if g.ok then Some(old(brk)) else None) && brk * HEADER_BYTES == g.top)
              || (n > 0 && p == None && brk == old(brk))
    {
      hide Grown;
      asked := asked + 1;
      var pages: bool := *;
      if n > 0 && !pages {
        return None;
      }
      var g := Grown(brk * HEADER_BYTES, n);
      WholeUnits(brk, n);
      p := if g.ok then Some(brk) else None;
      brk := g.top / HEADER_BYTES;
    }

    /** Some other caller of sbrk() moves the break. */
    method OtherSbrk(n: nat)
      requires Valid()
      modifies this`brk
      ensures Valid() && brk == if (old(brk) + n) * HEADER_BYTES < HEAPLIMIT then old(brk) + n else old(brk)
    {
      if (brk + n) * HEADER_BYTES < HEAPLIMIT {
        brk := brk + n;
      }
    }

    /** morecore(): null and no change if sbrk() refuses; else the heap has grown, nothing live has changed, and some
        free block now has nu units.  None stands for what happens otherwise, exactly if the bytes are no int: the
        header goes to the old break, although sbrk() has added no memory there, or sbrk() has taken memory away. */
    method Morecore(nu: nat) returns (p: Option<nat>, ghost big: nat)
      requires Valid() && freep != 0 && 1 <= nu <= UINT_LIMIT / HEADER_BYTES
      modifies this
      ensures asked == old(asked) + 1 && live == old(live) && old(obtained) <= obtained
      ensures p.None? <==> CoreUnits(nu) * HEADER_BYTES >= 0x8000_0000
      ensures p.None? ==> brk <= old(brk) && mem == old(mem) && freep == old(freep) && obtained == old(obtained)
      ensures p.Some? ==> Valid() && freep != 0
      ensures p == Some(0) ==> mem == old(mem) && freep == old(freep) && ring == old(ring) && obtained == old(obtained)
      ensures p.Some? && p.value != 0 ==> p.value == freep && big in free && big in mem && mem[big].size >= nu
      ensures p.Some? && p.value != 0 ==> brk == old(brk) + if nu < 4096 then 4096 else nu
      ensures p == Some(0) ==> brk == old(brk)
    {
      hide FreeList, Owned, SbrkArg, Grown;
      var n, top := CoreUnits(nu), brk;
      GrownExactly(brk * HEADER_BYTES, n);
      big := 0;
      SbrkArgSign(n);
      var r := Sbrk(SbrkArg(n));
      if brk < top || (r.Some? && brk <= r.value) {
        return None, 0;
      }
      if r == None {
        return Some(0), 0;
      }
      var hp := r.value;
      AddCore(hp, n);
      Free(hp + 1);
      big := owner[hp];
      p := Some(freep);
    }

    /** hp->s.size = nu: the new units are one block that free() is about to take. */
    method AddCore(hp: nat, n: nat)
      requires freep != 0 && n >= 1 && brk == hp + n && brk * HEADER_BYTES < HEAPLIMIT
      requires 0 < base < hp && FreeList(mem, ring, base, free, 1, 0) && freep in ring
      requires Owned(mem, free + live.Keys, owner) && free !! live.Keys
      requires forall a :: a in live ==> a in mem && mem[a].size == live[a]
      requires owner.Keys == obtained && forall u :: u in obtained ==> base < u < hp
      modifies this`mem, this`live, this`owner, this`obtained
      ensures Valid() && live == old(live)[hp := n] && hp !in old(live) && old(obtained) <= obtained
    {
      hide FreeList, Owned, Extent;
      NotYetThere(hp);
      GrowOwned(mem, free + live.Keys, owner, hp, n);
      RingInMem(mem, ring, base, free);
      FrameFreeList(mem, mem[hp := Header(0, n)], ring, base, free);
      ExtentLookup(hp, n);
      mem := mem[hp := Header(0, n)];
      live, owner := live[hp := n], owner + Extent(hp, n);
      obtained := obtained + Extent(hp, n).Keys;
      assert free + old(live).Keys + {hp} == free + live.Keys;
    }

    lemma NotYetThere(hp: nat)
      requires base < hp && FreeList(mem, ring, base, free, 1, 0)
      requires Owned(mem, free + live.Keys, owner) && forall u :: u in owner ==> u < hp
      ensures hp !in free && hp !in live && forall i :: 0 <= i < |ring| ==> ring[i] != hp
    {
      if hp in free + live.Keys {
        Covering(mem, free + live.Keys, owner, hp);
        assert false;
      }
      forall i | 0 <= i < |ring| ensures ring[i] != hp {
        assert i >= 1 ==> ring[i] in free;
      }
    }

    /** The block p = ring[j] after prevp is exactly what was asked for. */
    method TakeWhole(prevp: nat, p: nat, ghost j: nat)
      requires Valid() && freep != 0 && 1 <= j < |ring| && p == ring[j] && prevp == ring[j - 1]
      modifies this
      ensures && Valid() && freep == prevp != 0 && p in old(mem) && p !in old(live)
              && live == old(live)[p := old(mem)[p].size]
      ensures obtained == old(obtained) && asked == old(asked) && brk == old(brk)
    {
      hide FreeList, Owned, Removed;
      RingInMem(mem, ring, base, free);
      RingFacts(j);
      RingFacts(j - 1);
      InFree(mem, ring, base, free, j);
      UnlinkStep(mem, ring, base, free, j);
      ghost var before, blocks := mem, free + live.Keys;
      mem := mem[prevp := Header(mem[p].ptr, mem[prevp].size)];
      ResizeOwned(before, mem, blocks, owner);
      freep := prevp;
      RemovedAt(ring, j);
      ring, free, live := Removed(ring, j), free - {p}, live[p := mem[p].size];
      assert free + live.Keys == blocks;
    }

    /** The block p = ring[j] gives up its last n units. */
    method TakeTail(prevp: nat, p: nat, n: nat, ghost j: nat) returns (r: nat)
      requires Valid() && freep != 0 && 1 <= j < |ring| && p == ring[j] && prevp == ring[j - 1]
      requires p in mem && 1 <= n < mem[p].size
      modifies this
      ensures Valid() && freep == prevp != 0 && r !in old(live) && live == old(live)[r := n]
      ensures obtained == old(obtained) && asked == old(asked) && brk == old(brk)
    {
      hide FreeList, Owned, Carve, Carved;
      RingInMem(mem, ring, base, free);
      RingFacts(j);
      RingFacts(j - 1);
      InFree(mem, ring, base, free, j);
      ghost var blocks := free + live.Keys;
      CarveStep(mem, ring, base, free, blocks, owner, j, n);
      CarveOwned(mem, blocks, owner, p, n);
      CarveValue(mem, p, n);
      r := p + (mem[p].size - n);
      CarvedKeys(owner, r, n);
      mem := mem[p := Header(mem[p].ptr, mem[p].size - n)];
      mem := mem[r := Header(if r in mem then mem[r].ptr else 0, n)];
      freep := prevp;
      live, owner := live[r := n], Carved(owner, r, n);
      assert free + live.Keys == blocks + {r};
    }

    /** The first call links base to itself. */
    method Start()
      requires Valid() && freep == 0
      modifies this
      ensures Valid() && freep != 0 && live == old(live) && obtained == old(obtained) && asked == old(asked)
      ensures free == old(free) == {} && brk == old(brk)
    {
      mem := mem[base := Header(base, 0)];
      freep := base;
      ring := [base];
      assert ring[0] == base;
    }

    /** The branch of malloc() for a block that is large enough: it is taken whole, or gives up its tail. */
    method Take(prevp: nat, p: nat, n: nat, ghost j: nat) returns (ap: nat)
      requires Valid() && freep != 0 && 1 <= j < |ring| && p == ring[j] && prevp == ring[j - 1]
      requires p in mem && 1 <= n <= mem[p].size
      modifies this
      ensures Valid() && freep == prevp != 0 && ap != 0 && ap - 1 !in old(live) && live == old(live)[ap - 1 := n]
      ensures obtained == old(obtained) && asked == old(asked) && brk == old(brk)
    {
      hide FreeList, Owned;
      if mem[p].size == n {
        TakeWhole(prevp, p, j);
        ap := p + 1;
      } else {
        var r := TakeTail(prevp, p, n, j);
        ap := r + 1;
      }
    }

    /** malloc(): a block with room for the request that overlaps nothing live, or null when the kernel
        gives no memory.  Both loops end, and the kernel is asked at most once, and only if no free block is large
        enough.  None is that of morecore().  The block has the room exactly up to 2^32 - 8 bytes, so that all is well
        exactly up to MAX_REQUEST. */
    method Malloc(nbytes: uint32) returns (ap: Option<nat>)
      requires Valid()
      modifies this
      ensures ap.None? <==> MAX_REQUEST < nbytes <= UINT_LIMIT - HEADER_BYTES
      ensures ap.None? ==> brk <= old(brk) && live == old(live) && obtained == old(obtained)
      ensures ap.Some? ==> Valid() && freep != 0
      ensures old(asked) <= asked <= old(asked) + 1 && old(obtained) <= obtained
      ensures asked == old(asked) ==> ap.Some? && ap.value != 0 && obtained == old(obtained)
      ensures asked > old(asked) ==> AllSmaller(old(mem), old(free), Units(nbytes))
      ensures ap == Some(0) ==> live == old(live) && obtained == old(obtained)
      ensures ap.Some? && ap.value != 0 ==>
                ap.value - 1 !in old(live) && live == old(live)[ap.value - 1 := Units(nbytes)]
      ensures (Units(nbytes) - 1) * HEADER_BYTES >= nbytes <==> nbytes <= UINT_LIMIT - HEADER_BYTES
    {
      hide FreeList, Owned, Walked, AllSmaller;
      RoomForRequest(nbytes);
      ServedExactly(nbytes);
      var nunits := Units(nbytes);
      if freep == 0 {
        Start();
      }
      ghost var mem0 := mem;
      var prevp := freep;
      ghost var f: nat, v: nat, grown, big := IndexOf(ring, freep), 0, false, 0;
      RingStep(mem, ring, base, free, f);
      WalkNone(mem, ring, f, nunits);
      var p := mem[prevp].ptr;
      while true
        invariant Valid() && freep != 0 && live == old(live) && old(obtained) <= obtained
        invariant asked == old(asked) + (if grown then 1 else 0) && (!grown ==> obtained == old(obtained))
        invariant if grown then AllSmaller(old(mem), old(free), nunits)
                  else free == old(free) && mem == mem0 && brk == old(brk)
        invariant grown ==> big in free && big in mem && mem[big].size >= nunits
        invariant v < |ring| && f < |ring| && ring[f] == freep
        invariant prevp == ring[Around(f + v, |ring|)] && p == ring[Around(f + v + 1, |ring|)]
        invariant Walked(mem, ring, f, v, nunits)
        decreases !grown, |ring| - v
      {
        ghost var j := Around(f + v + 1, |ring|);
        RingStep(mem, ring, base, free, j);
        if mem[p].size >= nunits {
          NotBase(mem, ring, base, free, j);
          InFree(mem, ring, base, free, j);
          BelowBreak(p);
          var taken := Take(prevp, p, nunits, j);
          return Some(taken);
        }
        WalkOn(mem, ring, f, v, nunits);
        if p == freep {
          Once(mem, ring, base, free, f, j);
          NoneBig(mem, ring, base, free, f, nunits);
          if grown {
            NotSmaller(mem, free, nunits, big);
          } else {
            SmallerBefore(old(mem), mem, free, nunits);
          }
          var more;
          more, big := Morecore(nunits);
          if more.None? || more.value == 0 {
            return more;
          }
          p := more.value;
          grown, f, v := true, IndexOf(ring, freep), 0;
          RingStep(mem, ring, base, free, f);
          WalkNone(mem, ring, f, nunits);
        } else {
          v := v + 1;
        }
        prevp := p;
        p := mem[p].ptr;
      }
    }

    /** No free block is as large as the memory of the process. */
    lemma BelowBreak(a: nat)
      requires Valid() && a in free
      ensures a in mem && mem[a].size < brk
    {
      assert a in free + live.Keys;
      assert Covers(mem, a, a + mem[a].size - 1);
    }

    /** Distinct live blocks do not overlap, and no free block overlaps a live one. */
    lemma Disjoint(a: nat, b: nat)
      requires Valid() && a in live && b in live.Keys + free && a != b
      ensures b in mem && (a + live[a] <= b || b + mem[b].size <= a)
    {
      if a < b {
        NoOverlap(mem, free + live.Keys, owner, a, b);
      } else {
        NoOverlap(mem, free + live.Keys, owner, b, a);
      }
    }
  }

  lemma FreedSets(free: set<nat>, live: map<nat, nat>, free2: set<nat>, blocks2: set<nat>, free3: set<nat>,
                  blocks3: set<nat>, a: nat)
    requires free !! live.Keys && a in live
    requires free2 <= blocks2 && blocks2 - free2 == free + live.Keys - free - {a}
    requires free3 <= blocks3 && blocks3 - free3 == blocks2 - free2
    ensures free3 !! (live - {a}).Keys && blocks3 == free3 + (live - {a}).Keys
  {
    assert (live - {a}).Keys == live.Keys - {a};
    assert blocks3 - free3 == live.Keys - {a};
  }

  lemma SizesKept(mem: Memory, live: map<nat, nat>, p: nat, a: nat)
    requires p in mem && a in mem && mem[p].ptr in mem && p !in live
    requires forall b :: b in live ==> b in mem && mem[b].size == live[b]
    ensures var m := Lower(Upper(mem, p, a), p, a);
            forall b :: b in live - {a} ==> b in m && m[b].size == (live - {a})[b]
  {
  }

  lemma RingInMem(mem: Memory, ring: seq<nat>, base: nat, free: set<nat>)
    requires FreeList(mem, ring, base, free, 1, 0)
    ensures forall i :: 0 <= i < |ring| ==> ring[i] in mem
    ensures forall i, j :: 0 <= i < j < |ring| ==> ring[i] < ring[j]
  {
  }

  lemma InFree(mem: Memory, ring: seq<nat>, base: nat, free: set<nat>, j: nat)
    requires FreeList(mem, ring, base, free, 1, 0) && 1 <= j < |ring|
    ensures ring[j] in free
  {
  }

  lemma RemovedAt(ring: seq<nat>, j: nat)
    requires 1 <= j < |ring|
    ensures ring[j - 1] in Removed(ring, j)
  {
    assert Removed(ring, j)[j - 1] == ring[j - 1];
  }

  lemma CarveValue(mem: Memory, p: nat, n: nat)
    requires p in mem && n < mem[p].size
    ensures var t := p + (mem[p].size - n);
            Carve(mem, p, n) ==
              mem[p := Header(mem[p].ptr, mem[p].size - n)][t := Header(if t in mem then mem[t].ptr else 0, n)]
  {
  }

  lemma CarvedKeys(owner: map<nat, nat>, t: nat, n: nat)
    ensures Carved(owner, t, n).Keys == owner.Keys
  {
  }

  /** Index k of a circle of n, for k at most one turn on. */
  function Around(k: nat, n: nat): (r: nat) {
    if k >= n then k - n else k
  }

  ghost function IndexOf(ring: seq<nat>, a: nat): (i: nat)
    requires a in ring
    ensures i < |ring| && ring[i] == a
  {
    var i :| 0 <= i < |ring| && ring[i] == a;
    i
  }

  /** The v blocks after position f are all too small. */
  ghost predicate Walked(mem: Memory, ring: seq<nat>, f: nat, v: nat, n: nat) {
    && f < |ring| && v <= |ring|
    && forall w: nat :: w < v ==> Small(mem, ring, f, w, n)
  }

  /** The w-th block after position f's successor is too small. */
  ghost predicate Small(mem: Memory, ring: seq<nat>, f: nat, w: nat, n: nat)
    requires f < |ring| && w < |ring|
  {
    var a := ring[Around(f + 1 + w, |ring|)];
    a in mem && mem[a].size < n
  }

  lemma RingStep(mem: Memory, ring: seq<nat>, base: nat, free: set<nat>, k: nat)
    requires FreeList(mem, ring, base, free, 1, 0) && k < |ring|
    ensures ring[k] in mem && mem[ring[k]].ptr == ring[Around(k + 1, |ring|)]
  {
    NextOf(mem, ring, base, k);
  }

  lemma NotBase(mem: Memory, ring: seq<nat>, base: nat, free: set<nat>, k: nat)
    requires FreeList(mem, ring, base, free, 1, 0) && k < |ring| && mem[ring[k]].size >= 1
    ensures k >= 1
  {
  }

  lemma Once(mem: Memory, ring: seq<nat>, base: nat, free: set<nat>, f: nat, j: nat)
    requires FreeList(mem, ring, base, free, 1, 0) && f < |ring| && j < |ring| && ring[f] == ring[j]
    ensures f == j
  {
  }

  lemma WalkNone(mem: Memory, ring: seq<nat>, f: nat, n: nat)
    requires f < |ring|
    ensures Walked(mem, ring, f, 0, n)
  {
  }

  lemma WalkOn(mem: Memory, ring: seq<nat>, f: nat, v: nat, n: nat)
    requires Walked(mem, ring, f, v, n) && v < |ring|
    requires ring[Around(f + v + 1, |ring|)] in mem && mem[ring[Around(f + v + 1, |ring|)]].size < n
    ensures Walked(mem, ring, f, v + 1, n)
  {
  }

  /** No free block has n units. */
  ghost predicate AllSmaller(mem: Memory, free: set<nat>, n: nat) {
    forall b :: b in free ==> b in mem && mem[b].size < n
  }

  lemma NotSmaller(mem: Memory, free: set<nat>, n: nat, big: nat)
    requires AllSmaller(mem, free, n) && big in free && big in mem
    ensures mem[big].size < n
  {
  }

  lemma SmallerBefore(mem: Memory, mem': Memory, free: set<nat>, n: nat)
    requires AllSmaller(mem', free, n) && (free == {} || mem == mem')
    ensures AllSmaller(mem, free, n)
  {
  }

  /** Once round the ring every free block has been seen. */
  lemma NoneBig(mem: Memory, ring: seq<nat>, base: nat, free: set<nat>, f: nat, n: nat)
    requires FreeList(mem, ring, base, free, 1, 0) && Walked(mem, ring, f, |ring|, n)
    ensures AllSmaller(mem, free, n)
  {
    forall big | big in free ensures big in mem && mem[big].size < n {
      assert big in ring;
      var b :| 0 <= b < |ring| && ring[b] == big;
      var w := if b > f then b - f - 1 else b + |ring| - f - 1;
      assert Small(mem, ring, f, w, n);
    }
  }
}
