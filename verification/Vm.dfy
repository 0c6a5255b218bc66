/**
  Two-level page tables (vm.c) over the page allocator (kalloc.c), with user memory below HEAPLIMIT, the window for
  shared memory from HEAPLIMIT to KERNBASE, and the kernel above.
 */
module Vm {
  import opened Common
  import opened PageOwner

  datatype Outcome<+T> = Panic | Fail | Ok(value: T)

  /** PTE_W | PTE_U */
  const USERFLAGS: nat := 6

  /** Pages of users and of the kernel code that holds them keep their contents. */
  ghost predicate DataKept(pages: seq<Page>, pages': seq<Page>, owner: map<nat, Use>) {
    && |pages'| == |pages|
    && forall p :: p in owner && p < |pages| && (owner[p].User? || owner[p].Held?) ==> pages'[p] == pages[p]
  }

  /** Every virtual page of every directory reads the same. */
  ghost predicate SameLookups(pages: seq<Page>, pages': seq<Page>, roots: set<nat>) {
    && |pages| == |pages'| == NFRAMES
    && forall r, v :: r in roots && r < NFRAMES && 0 <= v < ALLPAGES ==> Lookup(pages', r, v) == Lookup(pages, r, v)
  }

  /** As SameLookups, except that page v of r now reads e. */
  ghost predicate LookupsBut(pages: seq<Page>, pages': seq<Page>, roots: set<nat>, r: nat, v: nat, e: Entry) {
    && |pages| == |pages'| == NFRAMES
    && forall q, w :: q in roots && q < NFRAMES && 0 <= w < ALLPAGES ==>
         Lookup(pages', q, w) == if q == r && w == v then e else Lookup(pages, q, w)
  }

  class Memory {
    const first: nat
    var pages: seq<Page>
    var free: seq<nat>
    ghost var roots: set<nat>
    ghost var held: set<nat>
    ghost var owner: map<nat, Use>
    /** How often kalloc() has found no free page. */
    ghost var misses: nat

    ghost function S(): (s: State)
      reads this
    {
      State(pages, roots, held)
    }

    ghost predicate Valid()
      reads this
    {
      && 0 < first && |pages| == NFRAMES
      && Owned(S(), owner, free, first) && NonZero(S())
    }

    /** freerange() of the frames from first to PHYSTOP. */
    constructor (first: nat)
      requires 0 < first <= NFRAMES
      ensures Valid() && this.first == first && roots == {} && held == {} && owner == map[] && |free| == NFRAMES - first
    {
      this.first := first;
      pages := seq(NFRAMES, _ => JunkPage());
      free := [];
      roots, held, owner, misses := {}, {}, map[], 0;
      new;
      hide Lookup;
      var p := first;
      while p < NFRAMES
        invariant && first <= p <= NFRAMES && |free| == p - first && roots == {} && held == {} && owner == map[]
                  && |pages| == NFRAMES
        invariant forall i :: 0 <= i < |free| ==> free[i] == p - 1 - i
      {
        free := [p] + free;
        p := p + 1;
      }
      forall q | first <= q < NFRAMES ensures q in free {
        assert free[NFRAMES - 1 - q] == q;
      }
    }

    /** kalloc(): the head of the free list; the caller holds the page. */
    method Kalloc() returns (r: Option<nat>)
      requires Valid()
      modifies this`free, this`held, this`owner, this`misses
      ensures misses == old(misses) + if r.None? then 1 else 0
      ensures Valid() && (r.None? <==> old(free) == [])
      ensures r.None? ==> free == old(free) && held == old(held) && owner == old(owner)
      ensures r.Some? ==>
                && r.value == old(free)[0] && free == old(free)[1..] && held == old(held) + {r.value}
                && owner == old(owner)[r.value := Held(r.value)]
      ensures r.Some? ==> r.value !in old(owner) && r.value !in old(held) && first <= r.value < NFRAMES
    {
      hide Val;
      if free == [] {
        misses := misses + 1;
        return None;
      }
      var p := free[0];
      TakeHeld(S(), owner, free, first);
      free := free[1..];
      held := held + {p};
      owner := owner[p := Held(p)];
      return Some(p);
    }

    /** kfree() of a page the caller holds; its panics cannot happen then. */
    method Kfree(p: nat)
      requires Valid() && p in held
      modifies this`pages, this`free, this`held, this`owner
      ensures Valid() && free == [p] + old(free) && held == old(held) - {p} && owner == old(owner) - {p}
      ensures && p < old(|pages|) && pages == old(pages)[p := JunkPage()] && SameLookups(old(pages), pages, roots)
              && forall r :: r in roots && r < NFRAMES ==> pages[r] == old(pages)[r]
    {
      hide Val, Lookup;
      HeldIsOwned(S(), owner, free, first, p);
      DataWrite(S(), owner, free, first, p, JunkPage());
      GiveHeld(S(), owner, free, first, p);
      pages := pages[p := JunkPage()];
      free := [p] + free;
      held := held - {p};
      owner := owner - {p};
    }

    /** Fills a page the caller holds. */
    method Fill(p: nat, page: Page)
      requires Valid() && p in held
      modifies this`pages
      ensures && Valid() && p < old(|pages|) && pages == old(pages)[p := page]
              && SameLookups(old(pages), pages, roots)
              && forall r :: r in roots && r < NFRAMES ==> pages[r] == old(pages)[r]
      ensures first <= p < NFRAMES
    {
      hide Val, Lookup;
      HeldIsOwned(S(), owner, free, first, p);
      DataWrite(S(), owner, free, first, p, page);
      SameAll(S(), State(pages[p := page], roots, held), owner, free, first);
      pages := pages[p := page];
    }

    /** walkpgdir(): where the entry of virtual page v is, as the frame of its page table and an index.  A page table
        is made if alloc is set; every entry of every directory reads as before. */
    method Walkpgdir(r: nat, v: nat, alloc: bool) returns (res: Option<(nat, nat)>)
      requires Valid() && r in roots && v < ALLPAGES
      modifies this`pages, this`free, this`held, this`owner, this`misses
      ensures misses == old(misses) + if alloc && res.None? then 1 else 0
      ensures && Valid() && held == old(held) && SameLookups(old(pages), pages, roots)
              && DataKept(old(pages), pages, old(owner))
      ensures && TablesGrew(old(owner), owner, r) && r < NFRAMES
              && forall q :: q in roots && q != r && q < NFRAMES ==> pages[q] == old(pages)[q]
      ensures res.None? ==> !Present(pages[r][v / NENTRIES]) && (alloc ==> free == [])
      ensures res.Some? ==> Present(pages[r][v / NENTRIES]) && res.value == (pages[r][v / NENTRIES].ppn, v % NENTRIES)
      ensures res.None? || !alloc || Present(old(pages)[r][v / NENTRIES]) ==>
                pages == old(pages) && free == old(free) && owner == old(owner)
      ensures res.Some? && !Present(old(pages)[r][v / NENTRIES]) ==>
                alloc && pages[r][v / NENTRIES].flags == 7 && old(free) != [] && res.value.0 == old(free)[0]
    {
      hide Val, Lookup;
      RootIsOwned(S(), owner, free, first, r);
      var i := v / NENTRIES;
      var pde := pages[r][i];
      if Present(pde) {
        return Some((pde.ppn, v % NENTRIES));
      }
      if !alloc {
        return None;
      }
      var mem := Kalloc();
      if mem.None? {
        return None;
      }
      var p := mem.value;
      RootKept(S(), owner, free, first, r, p);
      Fill(p, ZeroPage());
      LinkTable(S(), owner, free, first, r, i, p);
      pages := pages[r := pages[r][i := Mapped(p, USERFLAGS)]];
      held := held - {p};
      owner := owner[p := Table(r, i)];
      return Some((p, v % NENTRIES));
    }

    /** One iteration of mappages(): virtual page v of r maps to frame ppn.  Below HEAPLIMIT the frame is one the caller
        holds, and r takes it over. */
    method MapOne(r: nat, v: nat, ppn: nat, flags: nat) returns (o: Outcome<()>)
      requires Valid() && r in roots && v < ALLPAGES && (v < HEAPPAGES ==> ppn in held)
      modifies this`pages, this`free, this`held, this`owner, this`misses
      ensures !o.Panic? ==> misses == old(misses) + if o.Fail? then 1 else 0
      ensures r < old(|pages|) && (o.Panic? ==> Present(old(Lookup(pages, r, v))))
      ensures Present(old(Lookup(pages, r, v))) ==> o.Panic?
      ensures o.Fail? ==>
                && Valid() && free == [] && pages == old(pages) && free == old(free) && held == old(held)
                && owner == old(owner)
      ensures o.Ok? ==>
                && Valid() && LookupsBut(old(pages), pages, roots, r, v, Mapped(ppn, flags))
                && DataKept(old(pages), pages, old(owner))
                && held == (if v < HEAPPAGES then old(held) - {ppn} else old(held))
                && TablesGrew(if v < HEAPPAGES then old(owner)[ppn := User(r, v)] else old(owner), owner, r)
    {
      hide Val, Lookup, Owned, NonZero;
      RootInRange(S(), owner, free, first, r);
      var w := Walkpgdir(r, v, true);
      if w.None? {
        NotThere(pages, r, v);
        return Fail;
      }
      var t, k := w.value.0, w.value.1;
      TableThere(S(), owner, free, first, r, v);
      var pte := pages[t][k];
      if Present(pte) {
        return Panic;
      }
      ghost var s1, owner1 := S(), owner;
      SetPte(S(), owner, free, first, r, v, ppn, flags);
      pages := pages[t := pages[t][k := Mapped(ppn, flags)]];
      if v < HEAPPAGES {
        held := held - {ppn};
        owner := owner[ppn := User(r, v)];
      }
      return Ok(());
    }

    /** mappages(): the pages of va..va+size map to consecutive frames.  Panic stands for "remap".  Out of memory it
        fails with the first m pages mapped. */
    method Mappages(r: nat, va: nat, size: nat, pa: nat, perm: nat) returns (o: Outcome<()>, ghost m: nat)
      requires Valid() && r in roots && 1 <= size && va + size <= ALLPAGES * PGSIZE && pa % PGSIZE == 0
      requires va / PGSIZE < HEAPPAGES ==> va / PGSIZE == (va + size - 1) / PGSIZE && pa / PGSIZE in held
      modifies this`pages, this`free, this`held, this`owner, this`misses
      ensures !o.Panic? ==> misses == old(misses) + if o.Fail? then 1 else 0
      ensures !o.Panic? ==>
                var v, n, user := va / PGSIZE, (va + size - 1) / PGSIZE - va / PGSIZE + 1, va / PGSIZE < HEAPPAGES;
                && Valid() && m <= n && (o.Ok? ==> m == n) && (o.Fail? ==> m < n && free == [])
                && LookupsRange(old(pages), pages, roots, r, v, m, pa / PGSIZE, perm)
                && DataKept(old(pages), pages, old(owner))
                && held == (if user && m == 1 then old(held) - {pa / PGSIZE} else old(held))
                && TablesGrew(if user && m == 1 then old(owner)[pa / PGSIZE := User(r, v)] else old(owner), owner, r)
      ensures !o.Panic? ==>
                && r < NFRAMES == |pages|
                && forall w ::
                     va / PGSIZE <= w < va / PGSIZE + m ==>
                       && w < ALLPAGES && Present(Lookup(pages, r, w))
                       && Lookup(pages, r, w).ppn == pa / PGSIZE + w - va / PGSIZE
                       && Lookup(pages, r, w).flags / 2 == perm / 2
      ensures o.Fail? && m == 0 ==> pages == old(pages) && free == old(free) && owner == old(owner)
      ensures o.Panic? ==>
                exists k ::
                  && va / PGSIZE <= k <= (va + size - 1) / PGSIZE && r < old(|pages|)
                  && Present(old(Lookup(pages, r, k)))
    {
      hide Owned, NonZero, Lookup, LookupsRange, TablesGrew, DataKept;
      RootInRange(S(), owner, free, first, r);
      var a, last, ppn := va / PGSIZE, (va + size - 1) / PGSIZE, pa / PGSIZE;
      var v := a;
      m := 0;
      NoRange(pages, roots, r, v, ppn, perm, owner);
      while true
        invariant Valid() && a == v + m <= last && ppn == pa / PGSIZE + m && (m > 0 ==> v >= HEAPPAGES)
        invariant m == 0 ==> pages == old(pages) && free == old(free) && owner == old(owner)
        invariant && LookupsRange(old(pages), pages, roots, r, v, m, pa / PGSIZE, perm)
                  && DataKept(old(pages), pages, old(owner))
        invariant held == old(held) && misses == old(misses) && TablesGrew(old(owner), owner, r)
        decreases last - a
      {
        ghost var pages1, owner1 := pages, owner;
        RangeAt(old(pages), pages, roots, r, v, m, pa / PGSIZE, perm);
        o := MapOne(r, a, ppn, perm);
        if !o.Ok? {
          if o.Fail? {
            RangeFlags(old(pages), pages, roots, r, v, m, pa / PGSIZE, perm);
          }
          return;
        }
        RangeStep(old(pages), pages1, pages, roots, r, v, m, pa / PGSIZE, perm);
        if a >= HEAPPAGES {
          GrewTwice(old(owner), owner1, owner, r, old(pages), pages1, pages);
        }
        m := m + 1;
        if a == last {
          RangeFlags(old(pages), pages, roots, r, v, m, pa / PGSIZE, perm);
          return;
        }
        a := a + 1;
        ppn := ppn + 1;
      }
    }

    /** The freeing of a present page in deallocuvm(): kfree(v), then *pte = 0. */
    method FreeUser(r: nat, v: nat, t: nat, k: nat)
      requires && Valid() && r in roots && r < NFRAMES && v < HEAPPAGES && Present(pages[r][v / NENTRIES])
               && t == pages[r][v / NENTRIES].ppn && k == v % NENTRIES
      requires Present(Lookup(pages, r, v))
      modifies this`pages, this`free, this`owner
      ensures Valid() && (pages, free) == FreeOne(old(pages), old(free), r, v)
      ensures && LookupsBut(old(pages), pages, roots, r, v, NONE) && DataKept(old(pages), pages, owner) && r in roots
              && pages[r] == old(pages)[r]
      ensures OwnerFreed(old(owner), owner, r, v, v + 1)
    {
      hide Val, Lookup, Owned, NonZero;
      TableThere(S(), owner, free, first, r, v);
      var pa := pages[t][k].ppn;
      ClearUser(S(), owner, free, first, r, v);
      pages := pages[pa := JunkPage()];
      free := [pa] + free;
      pages := pages[t := pages[t][k := NONE]];
      owner := owner - {pa};
    }

    /** deallocuvm(): exactly what freeing page by page does, although the loop skips missing page tables. */
    method Deallocuvm(r: nat, oldsz: nat, newsz: nat) returns (sz: nat)
      requires Valid() && r in roots && oldsz <= HEAPLIMIT
      modifies this`pages, this`free, this`owner
      ensures sz == (if newsz >= oldsz then oldsz else newsz) && Valid() && r < old(|pages|)
      ensures newsz >= oldsz ==> pages == old(pages) && free == old(free) && owner == old(owner)
      ensures newsz < oldsz ==>
                var lo, hi := PageUp(newsz), PageUp(oldsz);
                && (pages, free) == FreeFrom(old(pages), old(free), r, lo, hi)
                && LookupsFreed(old(pages), pages, roots, r, lo, hi) && OwnerFreed(old(owner), owner, r, lo, hi)
                && DataKept(old(pages), pages, owner) && |pages| == NFRAMES && pages[r] == old(pages)[r]
    {
      hide Lookup, Owned, NonZero, FreeOne, FreeFrom, LookupsFreed, OwnerFreed, DataKept, LookupsBut;
      RootInRange(S(), owner, free, first, r);
      if newsz >= oldsz {
        return oldsz;
      }
      var a := PageUp(newsz);
      ghost var lo, hi := a, PageUp(oldsz);
      NothingFreed(pages, roots, owner, r, lo);
      while a * PGSIZE < oldsz
        invariant Valid() && lo <= a && |pages| == NFRAMES && pages[r] == old(pages)[r]
        invariant FreeFrom(old(pages), old(free), r, lo, hi) == FreeFrom(pages, free, r, a, hi)
        invariant && LookupsFreed(old(pages), pages, roots, r, lo, Cap(a, hi))
                  && OwnerFreed(old(owner), owner, r, lo, Cap(a, hi)) && DataKept(old(pages), pages, owner)
        decreases HEAPPAGES + NENTRIES - a
      {
        InHeap(a, oldsz);
        ghost var pages1, owner1 := pages, owner;
        var pte := Walk(r, a);
        if pte.None? {
          var next := (a / NENTRIES + 1) * NENTRIES;
          SkipTable(pages, free, r, a, next, hi);
          SkipLookups(S(), owner, free, first, old(pages), old(owner), r, lo, a, Cap(next, hi));
          a := next - 1;
        } else {
          var t, k := pte.value.0, pte.value.1;
          TableThere(S(), owner, free, first, r, a);
          StepFrom(pages, free, r, a, hi);
          if Present(pages[t][k]) {
            FreeUser(r, a, t, k);
            FreedMore(old(pages), pages1, pages, roots, old(owner), owner1, owner, r, lo, a);
          } else {
            NotFreed(pages, free, r, a);
            KeptMore(S(), owner, free, first, old(pages), old(owner), r, lo, a);
          }
        }
        a := a + 1;
      }
      FromEnd(pages, free, r, a, hi, oldsz);
      return newsz;
    }

    /** walkpgdir() without allocation. */
    method Walk(r: nat, v: nat) returns (res: Option<(nat, nat)>)
      requires |pages| == NFRAMES && r < NFRAMES && v < ALLPAGES
      ensures res.None? <==> !Present(pages[r][v / NENTRIES])
      ensures res.Some? ==> res.value == (pages[r][v / NENTRIES].ppn, v % NENTRIES)
    {
      var pde := pages[r][v / NENTRIES];
      if Present(pde) {
        return Some((pde.ppn, v % NENTRIES));
      }
      return None;
    }

    /** freevm(): every page of r's tables and of its user part goes back, once, and no other page. */
    method Freevm(r: nat)
      requires Valid() && r in roots
      modifies this`pages, this`free, this`roots, this`held, this`owner
      ensures Valid() && roots == old(roots) - {r} && held == old(held)
      ensures OwnerWithout(old(owner), owner, r)
      ensures forall p :: p in free <==> p in old(free) || (p in old(owner) && Of(old(owner)[p], r))
      ensures SameLookups(old(pages), pages, roots) && DataKept(old(pages), pages, owner)
    {
      hide Val, Lookup, Owned, NonZero, FreeFrom, SameLookups, DataKept, LookupsFreed, OwnerFreed, OwnerWithout, PageUp;
      ghost var owner0, pages0, free0 := owner, pages, free;
      FreeIff(S(), owner, free, first);
      HeapPages();
      var sz := Deallocuvm(r, HEAPLIMIT, 0);
      ghost var pages1, owner1 := pages, owner;
      AfterDealloc(S(), owner, free, first, pages0, owner0, r);
      FreeDir(r);
      FreeIff(S(), owner, free, first);
      WithoutTwice(owner0, owner1, owner, r);
      KeptTwice(pages0, pages1, pages, roots, owner1, owner, r);
      BackFree(owner0, owner, free0, free, first, r);
    }

    /** The part of freevm() that frees the page tables and the directory. */
    method FreeDir(r: nat)
      requires Valid() && r in roots && forall p :: p in owner && Of(owner[p], r) ==> !owner[p].User?
      modifies this`pages, this`free, this`roots, this`held, this`owner
      ensures Valid() && roots == old(roots) - {r} && held == old(held)
      ensures && OwnerWithout(old(owner), owner, r) && SameLookups(old(pages), pages, roots)
              && DataKept(old(pages), pages, owner)
    {
      hide Val, Lookup, Owned, NonZero, SameLookups;
      ghost var owner1, held1, pages1 := owner, held, pages;
      DirFrames(S(), owner, free, first, r);
      RetireRoot(S(), owner, free, first, r);
      held := held + FramesOf(owner, r);
      owner := Retired(owner, r);
      roots := roots - {r};
      FreeTables(r, owner1);
      ghost var pages3 := pages;
      Kfree(r);
      SameTrans(pages1, pages3, pages, roots);
      assert held == held1;
    }

    /** The loop of freevm() over the page directory. */
    method FreeTables(r: nat, ghost owner1: map<nat, Use>)
      requires Valid() && r < NFRAMES && r in held && r in owner1 && owner1[r] == Dir(r)
      requires forall j :: 0 <= j < NENTRIES && Present(pages[r][j]) ==>
                 var t := pages[r][j].ppn; t in held && t in owner1 && owner1[t] == Table(r, j)
      modifies this`pages, this`free, this`held, this`owner
      ensures Valid() && pages[r] == old(pages)[r] && r in held
      ensures SameLookups(old(pages), pages, roots)
      ensures forall p :: 0 <= p < |pages| && !InDir(old(pages)[r], p, NENTRIES) ==> pages[p] == old(pages)[p]
      ensures forall p :: p in held <==> p in old(held) && !InDir(old(pages)[r], p, NENTRIES)
      ensures forall p :: p in owner <==> p in old(owner) && !InDir(old(pages)[r], p, NENTRIES)
      ensures forall p :: p in owner ==> owner[p] == old(owner)[p]
    {
      hide Val, Lookup, Owned, NonZero, SameLookups;
      ghost var dir := pages[r];
      var i := 0;
      SameSelf(pages, roots);
      while i < NENTRIES
        invariant 0 <= i <= NENTRIES && Valid() && pages[r] == dir && r in held && SameLookups(old(pages), pages, roots)
        invariant forall j :: i <= j < NENTRIES && Present(dir[j]) ==> dir[j].ppn in held
        invariant forall p :: 0 <= p < |pages| && !InDir(dir, p, i) ==> pages[p] == old(pages)[p]
        invariant forall p :: p in held <==> p in old(held) && !InDir(dir, p, i)
        invariant forall p :: p in owner <==> p in old(owner) && !InDir(dir, p, i)
        invariant forall p :: p in owner ==> owner[p] == old(owner)[p]
      {
        ghost var pages1 := pages;
        if Present(pages[r][i]) {
          Kfree(pages[r][i].ppn);
          SameTrans(old(pages), pages1, pages, roots);
        }
        i := i + 1;
      }
    }

    /** setupkvm() up to the kernel mappings: a zeroed page as a new directory. */
    method NewDir() returns (d: Option<nat>)
      requires Valid()
      modifies this`pages, this`free, this`roots, this`held, this`owner, this`misses
      ensures misses == old(misses) + if d.None? then 1 else 0
      ensures && Valid() && held == old(held) && SameLookups(old(pages), pages, old(roots))
              && DataKept(old(pages), pages, old(owner))
      ensures d.None? ==>
                && old(free) == [] && pages == old(pages) && free == old(free) && roots == old(roots)
                && owner == old(owner)
      ensures d.Some? ==>
                d.value !in old(roots) && roots == old(roots) + {d.value} && OwnerGrew(old(owner), owner, d.value)
      ensures d.Some? ==> d.value < NFRAMES && forall v :: 0 <= v < ALLPAGES ==> Lookup(pages, d.value, v) == NONE
    {
      hide Val, Lookup, Owned, NonZero, SameLookups;
      ghost var held0 := held;
      SameSelf(pages, roots);
      UnusedRoots(S(), owner, free, first);
      var mem := Kalloc();
      if mem.None? {
        return None;
      }
      var p := mem.value;
      Fill(p, ZeroPage());
      AddRoot(S(), owner, free, first, p);
      roots := roots + {p};
      held := held - {p};
      owner := owner[p := Dir(p)];
      assert held == held0;
      return Some(p);
    }

    /** setupkvm(): a directory with the kernel's mappings and nothing below KERNBASE.  dataPa is V2P(data).  Out of
        memory everything taken is given back. */
    method Setupkvm(dataPa: nat) returns (d: Option<nat>)
      requires Valid() && dataPa % PGSIZE == 0 && EXTMEM < dataPa < PHYSTOP
      modifies this`pages, this`free, this`roots, this`held, this`owner, this`misses
      ensures misses == old(misses) + if d.None? then 1 else 0
      ensures && Valid() && held == old(held) && SameLookups(old(pages), pages, old(roots))
              && DataKept(old(pages), pages, old(owner))
      ensures d.None? ==> roots == old(roots) && owner == old(owner) && forall p :: p in free <==> p in old(free)
      ensures d.Some? ==>
                d.value !in old(roots) && roots == old(roots) + {d.value} && OwnerGrew(old(owner), owner, d.value)
      ensures d.Some? ==>
                && d.value < NFRAMES
                && forall v :: 0 <= v < ALLPAGES ==> Lookup(pages, d.value, v) == KernelEntry(v, dataPa)
      ensures d.Some? ==>
                && d.value < |pages|
                && (forall v :: 0 <= v < KERNPAGES ==> !Present(Lookup(pages, d.value, v)))
                && (forall p: nat ::
                      p * PGSIZE < PHYSTOP ==>
                        && KERNPAGES + p < ALLPAGES && Lookup(pages, d.value, KERNPAGES + p).ppn == p
                        && Lookup(pages, d.value, KERNPAGES + p).flags ==
                             if EXTMEM <= p * PGSIZE < dataPa then 1 else 3)
                && forall v :: DEVSPACE <= v * PGSIZE && 0 <= v < ALLPAGES ==> Lookup(pages, d.value, v) == Entry(v, 3)
    {
      hide Val, Lookup, Owned, NonZero, SameLookups, DataKept, TablesGrew, OwnerGrew, OwnerWithout, LookupsRange,
        Mapped, KernelEntry, KMap, KernelUpto;
      ghost var pages0, roots0, owner0, held0, free0 := pages, roots, owner, held, free;
      FreeIff(S(), owner, free, first);
      d := NewDir();
      if d.None? {
        return;
      }
      var p := d.value;
      NoKernelYet(pages, p, dataPa);
      var k := 0;
      while k < 4
        invariant && 0 <= k <= 4 && Valid() && held == held0 && misses == old(misses) && roots == roots0 + {p}
                  && p < NFRAMES && p !in roots0
        invariant SameLookups(pages0, pages, roots0) && DataKept(pages0, pages, owner0) && OwnerGrew(owner0, owner, p)
        invariant KernelUpto(pages, p, dataPa, k)
      {
        var m := KMap(dataPa, k);
        KMapFits(dataPa, k);
        ghost var pages1, owner1 := pages, owner;
        NoRemap(pages, p, dataPa, k);
        var o, n := Mappages(p, m.virt, m.end - m.start, m.start, m.perm);
        SameWithRange(pages0, pages1, pages, roots0, roots, owner0, owner1, owner, p, m.virt / PGSIZE, n,
                      m.start / PGSIZE, m.perm);
        if o.Fail? {
          ghost var pages2, owner2 := pages, owner;
          Freevm(p);
          assert roots == roots0;
          Restored(pages0, pages2, pages, roots0, owner0, owner2, owner, p);
          FreeIff(S(), owner, free, first);
          return None;
        }
        KernelStep(pages1, pages, roots, p, dataPa, k);
        k := k + 1;
      }
      KernelAll(pages, p, dataPa);
      KernelFlags(pages, p, dataPa);
    }

    /** The page that allocuvm() and copyuvm() add in each iteration: kalloc(), its contents, mappages().  If the
        mapping fails the new page is still held. */
    method AddPage(r: nat, v: nat, page: Page, flags: nat) returns (o: Outcome<nat>, mem: Option<nat>)
      requires Valid() && r in roots && r < NFRAMES && v < HEAPPAGES && !Present(Lookup(pages, r, v))
      modifies this`pages, this`free, this`held, this`owner, this`misses
      ensures misses == old(misses) + if o.Fail? then 1 else 0
      ensures Valid() && !o.Panic? && SameBut(old(pages), pages, roots, r, v) && DataKept(old(pages), pages, old(owner))
      ensures o.Ok? ==>
                && mem == Some(o.value) && held == old(held) && o.value !in old(owner)
                && NewPage(pages, owner, r, v, flags, page) && Lookup(pages, r, v).ppn == o.value
                && TablesGrew(old(owner)[o.value := User(r, v)], owner, r)
      ensures o.Fail? ==> SameLookups(old(pages), pages, roots)
      ensures o.Fail? && mem.None? ==>
                pages == old(pages) && free == old(free) && held == old(held) && owner == old(owner)
      ensures o.Fail? && mem.Some? ==>
                && mem.value !in old(held) && held == old(held) + {mem.value} && mem.value !in old(owner)
                && owner == old(owner)[mem.value := Held(mem.value)]
    {
      hide Val, Lookup, Owned, NonZero, SameLookups, DataKept, TablesGrew, LookupsRange, Mapped;
      ghost var pages0, owner0, held0 := pages, owner, held;
      SameSelf(pages, roots);
      KeptSelf(pages, roots, owner, r, v);
      mem := Kalloc();
      if mem.None? {
        return Fail, mem;
      }
      var p := mem.value;
      Fill(p, page);
      ghost var pages1, owner1 := pages, owner;
      FilledPage(pages0, pages1, roots, owner0, owner1, r, v, p, page);
      o := MapAt(r, v, p, flags);
      if o.Ok? {
        assert held == held0;
        AddedPage(pages0, pages1, pages, roots, owner0, owner1, owner, r, v, p, page, flags);
        return Ok(p), mem;
      }
      return Fail, mem;
    }

    /** mappages() of one page below HEAPLIMIT that is not mapped yet. */
    method MapAt(r: nat, v: nat, p: nat, flags: nat) returns (o: Outcome<nat>)
      requires Valid() && r in roots && r < NFRAMES && v < HEAPPAGES && !Present(Lookup(pages, r, v)) && p in held
      modifies this`pages, this`free, this`held, this`owner, this`misses
      ensures misses == old(misses) + if o.Fail? then 1 else 0
      ensures Valid() && !o.Panic?
      ensures o.Fail? ==> pages == old(pages) && free == old(free) && owner == old(owner) && held == old(held)
      ensures o.Ok? ==>
                && LookupsRange(old(pages), pages, roots, r, v, 1, p, flags) && DataKept(old(pages), pages, old(owner))
                && held == old(held) - {p} && TablesGrew(old(owner)[p := User(r, v)], owner, r)
    {
      hide Val, Lookup, Owned, NonZero, DataKept, TablesGrew, LookupsRange, Mapped;
      var va, pa := v * PGSIZE, p * PGSIZE;
      assert pa / PGSIZE == p && va / PGSIZE == v && (va + PGSIZE - 1) / PGSIZE == v;
      var x, _ := Mappages(r, va, PGSIZE, pa, flags);
      if x.Ok? {
        o := Ok(p);
      } else {
        o := Fail;
      }
    }

    /** allocuvm(): zeroed pages of its own for r up to newsz; on failure r's page map is as before, and of what was
        taken only page tables are kept. */
    method Allocuvm(r: nat, oldsz: nat, newsz: nat) returns (sz: nat)
      requires Valid() && r in roots && r < NFRAMES && oldsz <= HEAPLIMIT
      requires newsz < HEAPLIMIT ==>
                 forall v :: PageUp(oldsz) <= v < PageUp(newsz) ==> v < ALLPAGES && !Present(Lookup(pages, r, v))
      modifies this`pages, this`free, this`held, this`owner, this`misses
      ensures misses == old(misses) + if oldsz <= newsz < HEAPLIMIT && sz < newsz then 1 else 0
      ensures Valid() && held == old(held) && DataKept(old(pages), pages, old(owner)) && |pages| == NFRAMES
      ensures newsz < HEAPLIMIT && newsz < oldsz ==> sz == oldsz
      ensures newsz >= HEAPLIMIT || newsz < oldsz ==> pages == old(pages) && free == old(free) && owner == old(owner)
      ensures newsz >= HEAPLIMIT ==> sz == 0
      ensures oldsz <= newsz < HEAPLIMIT ==> sz == newsz || sz == 0
      ensures oldsz <= newsz < HEAPLIMIT && 0 < sz ==>
                var lo, hi := PageUp(oldsz), PageUp(newsz);
                && SameOutside(old(pages), pages, roots, r, lo, hi) && Added(old(owner), owner, r, lo, hi)
                && Batch(pages, owner, old(owner), r, lo, hi, seq(Span(lo, hi), _ => Want(USERFLAGS, ZeroPage())))
      ensures oldsz <= newsz < HEAPLIMIT && 0 < sz ==>
                forall v: nat ::
                  oldsz <= v * PGSIZE < newsz ==>
                    && v < ALLPAGES && Lookup(pages, r, v).flags == 7 && Lookup(pages, r, v).ppn in old(free)
                    && Lookup(pages, r, v).ppn < NFRAMES && pages[Lookup(pages, r, v).ppn] == ZeroPage()
      ensures oldsz <= newsz < HEAPLIMIT && sz == 0 && 0 < newsz ==>
                && TablesGrew(old(owner), owner, r)
                && forall q, w ::
                     q in roots && q < NFRAMES && 0 <= w < ALLPAGES ==> Flat(pages, q, w) == Flat(old(pages), q, w)
    {
      hide Val, Lookup, Owned, NonZero, DataKept, TablesGrew, Added, Batch, SameOutside, PageUp, NewPage, SameBut,
        SameLookups, FreeFrom, LookupsFreed, OwnerFreed;
      NothingAdded(pages, roots, owner, r, PageUp(oldsz), []);
      if newsz >= HEAPLIMIT {
        return 0;
      }
      if newsz < oldsz {
        return oldsz;
      }
      var a := PageUp(oldsz);
      ghost var lo, hi := a, PageUp(newsz);
      ghost var want := seq(Span(lo, hi), _ => Want(USERFLAGS, ZeroPage()));
      PageUps(oldsz, newsz);
      FreeIff(S(), owner, free, first);
      NoUsersIn(S(), owner, free, first, r, lo, hi);
      NothingAdded(pages, roots, owner, r, lo, want);
      while a * PGSIZE < newsz
        invariant lo <= a <= hi && Valid() && held == old(held) && misses == old(misses) && |pages| == NFRAMES
        invariant && DataKept(old(pages), pages, old(owner)) && SameOutside(old(pages), pages, roots, r, lo, a)
                  && Added(old(owner), owner, r, lo, a)
        invariant Batch(pages, owner, old(owner), r, lo, a, want)
        decreases hi - a
      {
        InHeap(a, newsz);
        ghost var pages1, owner1 := pages, owner;
        NotYet(old(pages), pages, roots, r, lo, a, hi);
        var o, mem := AddPage(r, a, ZeroPage(), USERFLAGS);
        if o.Fail? {
          ghost var pages2, owner2 := pages, owner;
          FailedAdd(old(pages), pages1, pages, roots, old(owner), owner1, owner, r, lo, a, hi, mem);
          var x := Deallocuvm(r, newsz, oldsz);
          UndoAlloc(old(pages), pages2, pages, roots, old(owner), owner2, owner, r, lo, a, hi, mem);
          ghost var pages3, owner3 := pages, owner;
          if mem.Some? {
            Kfree(mem.value);
          }
          UndoneAlloc(old(pages), pages3, pages, roots, old(owner), owner3, owner, r, mem);
          assert held == old(held);
          return 0;
        }
        BatchStep(old(pages), pages1, pages, roots, old(owner), owner1, owner, r, lo, a, hi, want, o.value);
        a := a + 1;
      }
      PageEnd(a, newsz, hi);
      FreeIff(S(), owner, free, first);
      AllocFlags(pages, owner, old(owner), old(free), first, r, oldsz, newsz, want);
      return newsz;
    }

    /** copyuvm(): a new address space with a copy of each of r's pages below sz, with the same flags, in a frame of its
        own; out of memory everything is as before.  Panic stands for a page of r that is not present. */
    method Copyuvm(r: nat, sz: nat, dataPa: nat) returns (o: Outcome<nat>)
      requires && Valid() && r in roots && r < NFRAMES && sz <= HEAPLIMIT && dataPa % PGSIZE == 0
               && EXTMEM < dataPa < PHYSTOP
      modifies this`pages, this`free, this`roots, this`held, this`owner, this`misses
      ensures !o.Panic? ==> misses == old(misses) + if o.Fail? then 1 else 0
      ensures o.Panic? ==>
                exists v ::
                  0 <= v < PageUp(sz) && v < ALLPAGES && r < old(|pages|) && !Present(old(Lookup(pages, r, v)))
      ensures !o.Panic? ==>
                && Valid() && held == old(held) && SameLookups(old(pages), pages, old(roots))
                && DataKept(old(pages), pages, old(owner))
      ensures o.Fail? ==> roots == old(roots) && owner == old(owner) && forall p :: p in free <==> p in old(free)
      ensures o.Ok? ==>
                && r < old(|pages|) && PageUp(sz) <= ALLPAGES
                && forall v :: 0 <= v < PageUp(sz) ==> Present(old(Lookup(pages, r, v)))
      ensures o.Ok? ==>
                var d := o.value;
                && d !in old(roots) && roots == old(roots) + {d} && OwnerGrew(old(owner), owner, d)
                && |old(pages)| == |pages| == NFRAMES && d < NFRAMES
                && Batch(pages, owner, old(owner), d, 0, PageUp(sz), Copies(old(pages), r, PageUp(sz)))
                && forall v :: PageUp(sz) <= v < ALLPAGES ==> Lookup(pages, d, v) == KernelEntry(v, dataPa)
      ensures o.Ok? ==>
                && o.value < NFRAMES == |pages| == old(|pages|)
                && forall v: nat ::
                     v * PGSIZE < sz ==>
                       && v < ALLPAGES && Lookup(pages, o.value, v).flags == old(Lookup(pages, r, v)).flags
                       && Lookup(pages, o.value, v).ppn in old(free) && Lookup(pages, o.value, v).ppn < NFRAMES
                       && old(Lookup(pages, r, v)).ppn < NFRAMES
                       && pages[Lookup(pages, o.value, v).ppn] == old(pages[Lookup(pages, r, v).ppn])
    {
      hide Val, Lookup, Owned, NonZero, DataKept, TablesGrew, Added, Batch, SameOutside, NewPage, SameBut,
        SameLookups, OwnerGrew, OwnerWithout, KernelEntry, PageUp;
      ghost var s0, owner0, free0 := S(), owner, free;
      FreeIff(S(), owner, free, first);
      CopySizes(sz);
      ghost var hi, want := PageUp(sz), Copies(pages, r, PageUp(sz));
      var made := Setupkvm(dataPa);
      if made.None? {
        return Fail;
      }
      var d := made.value;
      ghost var pages1, owner1 := pages, owner;
      NothingAdded(pages, roots, owner, d, 0, want);
      var v := 0;
      while v * PGSIZE < sz
        invariant && 0 <= v <= hi && Valid() && held == old(held) && misses == old(misses) && roots == s0.roots + {d}
                  && |pages| == NFRAMES && d < NFRAMES
        invariant && DataKept(pages1, pages, owner1) && SameOutside(pages1, pages, roots, d, 0, v)
                  && Added(owner1, owner, d, 0, v)
        invariant Batch(pages, owner, owner1, d, 0, v, want)
        invariant forall u :: 0 <= u < v ==> Present(Lookup(s0.pages, r, u))
        decreases hi - v
      {
        InHeap(v, sz);
        ghost var pages2, owner2 := pages, owner;
        StillSource(s0, owner0, free0, first, pages1, pages, roots, owner1, r, d, v, hi, dataPa);
        var w := Walk(r, v);
        if w.None? {
          NotThere(pages, r, v);
          return Panic;
        }
        TableThere(S(), owner, free, first, r, v);
        var pte := pages[w.value.0][w.value.1];
        if !Present(pte) {
          return Panic;
        }
        CopyFrame(s0, owner0, free0, first, r, v);
        CopyContents(s0.pages, pages1, pages, owner0, owner1, r, d, v, pte.ppn);
        var x, mem := AddPage(d, v, pages[pte.ppn], pte.flags);
        if x.Fail? {
          FailedAdd(pages1, pages2, pages, roots, owner1, owner2, owner, d, 0, v, hi, mem);
          UndoCopy(d, mem, s0, owner0, free0, pages1, owner1, v);
          return Fail;
        }
        BatchStep(pages1, pages2, pages, roots, owner1, owner2, owner, d, 0, v, hi, want, x.value);
        v := v + 1;
      }
      PageEnd(v, sz, hi);
      GrewMore(s0.pages, pages1, pages, s0.roots, roots, owner0, owner1, owner, d, hi);
      BatchOld(pages, owner, owner0, owner1, d, hi, want);
      KernelKept(pages1, pages, roots, d, hi, dataPa);
      FreeIff(S(), owner, free, first);
      CopiedFlags(s0, owner0, free0, first, pages, owner, r, d, sz, hi);
      return Ok(d);
    }

    /** The end of copyuvm() out of memory: the page that could not be mapped and the whole new space go back. */
    method UndoCopy(d: nat, mem: Option<nat>, ghost s0: State, ghost owner0: map<nat, Use>, ghost free0: seq<nat>,
                    ghost pages1: seq<Page>, ghost owner1: map<nat, Use>, ghost v: nat)
      requires Valid() && d in roots && d !in s0.roots && roots == s0.roots + {d} && |pages| == NFRAMES
      requires Owned(s0, owner0, free0, first)
      requires SameLookups(s0.pages, pages1, s0.roots) && DataKept(s0.pages, pages1, owner0)
      requires OwnerGrew(owner0, owner1, d)
      requires DataKept(pages1, pages, owner1) && SameOutside(pages1, pages, roots, d, 0, v)
      requires AddedHeld(owner1, owner, d, 0, v, mem)
      requires if mem.Some? then held == s0.held + {mem.value} && mem.value !in s0.held else held == s0.held
      modifies this`pages, this`free, this`roots, this`held, this`owner
      ensures Valid() && held == s0.held && roots == s0.roots && owner == owner0
      ensures SameLookups(s0.pages, pages, s0.roots) && DataKept(s0.pages, pages, owner0)
      ensures forall p :: p in free <==> p in free0
    {
      hide Val, Lookup, Owned, NonZero, DataKept, TablesGrew, Added, AddedHeld, SameOutside, SameLookups, OwnerGrew,
        OwnerWithout;
      FreeIff(s0, owner0, free0, first);
      ghost var pages3, owner3 := pages, owner;
      if mem.Some? {
        Kfree(mem.value);
      }
      DropHeld(pages1, pages3, pages, roots, owner1, owner3, owner, d, v, mem);
      assert held == s0.held;
      ghost var pages4, owner4 := pages, owner;
      GrewMore(s0.pages, pages1, pages, s0.roots, roots, owner0, owner1, owner, d, v);
      Freevm(d);
      assert roots == s0.roots;
      Restored(s0.pages, pages4, pages, s0.roots, owner0, owner4, owner, d);
      FreeIff(S(), owner, free, first);
    }

    /** clearmapping(): the page is no longer present.  It is used for the shared-memory window. */
    method Clearmapping(r: nat, v: nat) returns (ok: bool)
      requires Valid() && r in roots && r < NFRAMES && HEAPPAGES <= v < KERNPAGES
      modifies this`pages
      ensures Valid() && |pages| == old(|pages|) == NFRAMES
      ensures ok <==> Present(old(pages)[r][v / NENTRIES])
      ensures !ok ==> pages == old(pages)
      ensures ok ==>
                LookupsBut(old(pages), pages, roots, r, v,
                           Entry(old(Lookup(pages, r, v)).ppn, old(Lookup(pages, r, v)).flags / 2 * 2))
      ensures DataKept(old(pages), pages, owner) && !Present(Lookup(pages, r, v))
    {
      hide Val, Lookup, Owned, NonZero;
      var w := Walk(r, v);
      if w.None? {
        NotThere(pages, r, v);
        return false;
      }
      TableThere(S(), owner, free, first, r, v);
      var t, k := w.value.0, w.value.1;
      var e := Entry(pages[t][k].ppn, pages[t][k].flags / 2 * 2);
      ClearWindow(S(), owner, free, first, r, v, e);
      pages := pages[t := pages[t][k := e]];
      return true;
    }
  }

  lemma HeldIsOwned(s: State, owner: map<nat, Use>, free: seq<nat>, first: nat, p: nat)
    requires Owned(s, owner, free, first) && p in s.held && 0 < first
    ensures first <= p < NFRAMES && p in owner && owner[p] == Held(p) && p !in s.roots
  {
    assert UseOk(s, owner, Held(p)) && UseOk(s, owner, Dir(p));
    assert FrameOk(s, owner, first, p);
  }

  lemma TakeHeld(s: State, owner: map<nat, Use>, free: seq<nat>, first: nat)
    requires Owned(s, owner, free, first) && NonZero(s) && free != []
    ensures var p := free[0];
            && p !in s.held && p !in owner
            && Owned(s.(held := s.held + {p}), owner[p := Held(p)], free[1..], first)
            && NonZero(s.(held := s.held + {p}))
  {
    hide Lookup;
    var p := free[0];
    assert UseOk(s, owner, Held(p));
    var s' := s.(held := s.held + {p});
    forall t | t != Held(p) ensures SameVal(s, s', t) {
    }
    Take(s, s', owner, free, first, Held(p));
  }

  lemma GiveHeld(s: State, owner: map<nat, Use>, free: seq<nat>, first: nat, p: nat)
    requires Owned(s, owner, free, first) && NonZero(s) && p in s.held && 0 < first
    ensures first <= p < NFRAMES
    ensures var s' := State(s.pages[p := JunkPage()], s.roots, s.held - {p});
            Owned(s', owner - {p}, [p] + free, first) && NonZero(s')
  {
    hide Lookup, Val;
    HeldIsOwned(s, owner, free, first, p);
    DataWrite(s, owner, free, first, p, JunkPage());
    var mid := s.(pages := s.pages[p := JunkPage()]);
    var s' := State(s.pages[p := JunkPage()], s.roots, s.held - {p});
    forall t | t != Held(p) ensures SameVal(s, s', t) {
      SameTablesVal(s, mid, t);
      HeldVal(mid, s', t, p);
    }
    HeldVals(s, s', p);
    Give(s, s', owner, free, first, Held(p));
    SameTablesNonZero(s, mid);
    SameTablesNonZero(mid, s');
  }

  lemma HeldVal(s: State, s': State, t: Use, p: nat)
    requires && Shaped(s) && Shaped(s') && s'.pages == s.pages && s'.roots == s.roots && s'.held == s.held - {p}
             && t != Held(p)
    ensures Val(s', t) == Val(s, t)
  {
  }

  lemma HeldVals(s: State, s': State, p: nat)
    requires Shaped(s) && Shaped(s') && p in s.held && p !in s'.held
    ensures Val(s, Held(p)) == p && Val(s', Held(p)) == 0
  {
  }

  lemma SameAll(s: State, s': State, owner: map<nat, Use>, free: seq<nat>, first: nat)
    requires Owned(s, owner, free, first) && NonZero(s) && Shaped(s') && SameTables(s, s') && s'.held == s.held
    ensures Owned(s', owner, free, first) && NonZero(s')
  {
    hide Lookup, Val;
    forall t ensures SameVal(s, s', t) {
      SameTablesVal(s, s', t);
    }
    Same(s, s', owner, free, first);
    SameTablesNonZero(s, s');
  }

  /** Only page tables of r have been added. */
  ghost predicate TablesGrew(owner: map<nat, Use>, owner': map<nat, Use>, r: nat) {
    && (forall p :: p in owner ==> p in owner' && owner'[p] == owner[p])
    && (forall p :: p in owner' && p !in owner ==> owner'[p].Table? && owner'[p].r == r)
  }

  lemma RootKept(s: State, owner: map<nat, Use>, free: seq<nat>, first: nat, r: nat, p: nat)
    requires Owned(s, owner, free, first) && r in s.roots && p in s.held && 0 < first
    ensures r != p && r in owner && owner[r] == Dir(r)
  {
    HeldIsOwned(s, owner, free, first, p);
    RootIsOwned(s, owner, free, first, r);
  }

  /** A held zero page becomes the table of an absent directory entry. */
  lemma LinkTable(s: State, owner: map<nat, Use>, free: seq<nat>, first: nat, r: nat, i: nat, p: nat)
    requires && Owned(s, owner, free, first) && NonZero(s) && 0 < first && r in s.roots && i < NENTRIES
             && !Present(s.pages[r][i])
    requires p in s.held && p < NFRAMES && s.pages[p] == ZeroPage()
    ensures var s' := State(s.pages[r := s.pages[r][i := Mapped(p, USERFLAGS)]], s.roots, s.held - {p});
            && Owned(s', owner[p := Table(r, i)], free, first) && NonZero(s')
            && SameLookups(s.pages, s'.pages, s.roots) && r != p
  {
    hide Lookup, Val;
    HeldIsOwned(s, owner, free, first, p);
    NewTable(s, owner, free, first, r, i, p, USERFLAGS);
    assert s.pages[p := ZeroPage()] == s.pages;
    var s' := State(s.pages[r := s.pages[r][i := Mapped(p, USERFLAGS)]], s.roots, s.held - {p});
    LinkVals(s, s', r, i, p);
    Move(s, s', owner, free, first, Held(p), Table(r, i));
  }

  lemma LinkVals(s: State, s': State, r: nat, i: nat, p: nat)
    requires && Shaped(s) && Shaped(s') && r in s.roots && i < NENTRIES && !Present(s.pages[r][i]) && p in s.held
             && NonZero(s) && 0 < p
    requires s'.roots == s.roots && s'.held == s.held - {p}
    requires && (forall q :: q in s.roots && q != r ==> s'.pages[q] == s.pages[q])
             && s'.pages[r] == s.pages[r][i := Mapped(p, USERFLAGS)]
    requires forall q, v :: q in s.roots && 0 <= v < ALLPAGES ==> Lookup(s'.pages, q, v) == Lookup(s.pages, q, v)
    ensures Val(s, Held(p)) == p && Val(s', Held(p)) == 0 && Val(s, Table(r, i)) == 0 && Val(s', Table(r, i)) == p
    ensures (forall t :: t != Held(p) && t != Table(r, i) ==> SameVal(s, s', t)) && NonZero(s')
  {
    hide Lookup;
  }

  lemma RootInRange(s: State, owner: map<nat, Use>, free: seq<nat>, first: nat, r: nat)
    requires Owned(s, owner, free, first) && r in s.roots
    ensures r < NFRAMES && Shaped(s)
  {
  }

  lemma NotThere(pages: seq<Page>, r: nat, v: nat)
    requires r < |pages| && v < ALLPAGES && !Present(pages[r][v / NENTRIES])
    ensures Lookup(pages, r, v) == NONE && !Present(NONE)
  {
  }

  /** The page table of v is one of r's, and holds what is read for v. */
  lemma TableThere(s: State, owner: map<nat, Use>, free: seq<nat>, first: nat, r: nat, v: nat)
    requires && Owned(s, owner, free, first) && NonZero(s) && r in s.roots && v < ALLPAGES
             && Present(s.pages[r][v / NENTRIES])
    ensures var t := s.pages[r][v / NENTRIES].ppn;
            && t < NFRAMES && t in owner && owner[t] == Table(r, v / NENTRIES)
            && Lookup(s.pages, r, v) == s.pages[t][v % NENTRIES]
  {
    TableIsOwned(s, owner, free, first, r, v / NENTRIES);
  }

  /** Writing a present entry for virtual page v, which had none. */
  lemma SetPte(s: State, owner: map<nat, Use>, free: seq<nat>, first: nat, r: nat, v: nat, ppn: nat, flags: nat)
    requires && Owned(s, owner, free, first) && NonZero(s) && 0 < first && r in s.roots && v < ALLPAGES
             && Present(s.pages[r][v / NENTRIES])
    requires !Present(Lookup(s.pages, r, v)) && (v < HEAPPAGES ==> ppn in s.held)
    ensures var t := s.pages[r][v / NENTRIES].ppn;
            && t < NFRAMES && t in owner && owner[t].Table?
            && var pages' := s.pages[t := s.pages[t][v % NENTRIES := Mapped(ppn, flags)]];
               && LookupsBut(s.pages, pages', s.roots, r, v, Mapped(ppn, flags))
               && var s' := State(pages', s.roots, if v < HEAPPAGES then s.held - {ppn} else s.held);
                  Owned(s', if v < HEAPPAGES then owner[ppn := User(r, v)] else owner, free, first) && NonZero(s')
  {
    hide Lookup, Val;
    TableWrite(s, owner, free, first, r, v / NENTRIES, v % NENTRIES, Mapped(ppn, flags));
    assert v / NENTRIES * NENTRIES + v % NENTRIES == v;
    var t := s.pages[r][v / NENTRIES].ppn;
    var pages' := s.pages[t := s.pages[t][v % NENTRIES := Mapped(ppn, flags)]];
    var s' := State(pages', s.roots, if v < HEAPPAGES then s.held - {ppn} else s.held);
    if v < HEAPPAGES {
      HeldIsOwned(s, owner, free, first, ppn);
      MapVals(s, s', r, v, ppn, Mapped(ppn, flags));
      Move(s, s', owner, free, first, Held(ppn), User(r, v));
    } else {
      OtherVals(s, s', r, v, Mapped(ppn, flags));
      Same(s, s', owner, free, first);
    }
  }

  /** Every directory keeps its contents, and page v of r reads e instead. */
  ghost predicate OneEntryBut(s: State, s': State, r: nat, v: nat, e: Entry)
    requires Shaped(s) && Shaped(s')
  {
    && s'.roots == s.roots && (forall q :: q in s.roots ==> s'.pages[q] == s.pages[q])
    && forall q, w ::
         q in s.roots && 0 <= w < ALLPAGES ==>
           Lookup(s'.pages, q, w) == if q == r && w == v then e else Lookup(s.pages, q, w)
  }

  lemma MapVals(s: State, s': State, r: nat, v: nat, ppn: nat, e: Entry)
    requires Shaped(s) && Shaped(s') && r in s.roots && v < HEAPPAGES && OneEntryBut(s, s', r, v, e) && NonZero(s)
    requires && !Present(Lookup(s.pages, r, v)) && Present(e) && e.ppn == ppn != 0 && ppn in s.held
             && s'.held == s.held - {ppn}
    ensures Val(s, Held(ppn)) == ppn && Val(s', Held(ppn)) == 0 && Val(s, User(r, v)) == 0 && Val(s', User(r, v)) == ppn
    ensures (forall t :: t != Held(ppn) && t != User(r, v) ==> SameVal(s, s', t)) && NonZero(s')
  {
    hide Lookup;
  }

  lemma OtherVals(s: State, s': State, r: nat, v: nat, e: Entry)
    requires && Shaped(s) && Shaped(s') && HEAPPAGES <= v < ALLPAGES && OneEntryBut(s, s', r, v, e) && NonZero(s)
             && s'.held == s.held
    ensures (forall t :: SameVal(s, s', t)) && NonZero(s')
  {
    hide Lookup;
  }

  /** n pages of r from v on read as mapped to frames from ppn on; all else reads as before. */
  ghost predicate LookupsRange(pages: seq<Page>, pages': seq<Page>, roots: set<nat>, r: nat, v: nat, n: nat,
                               ppn: nat, flags: nat) {
    && |pages| == |pages'| == NFRAMES
    && forall q, w :: q in roots && q < NFRAMES && 0 <= w < ALLPAGES ==>
         Lookup(pages', q, w) == if q == r && v <= w < v + n then Mapped(ppn + w - v, flags) else Lookup(pages, q, w)
  }

  lemma NoRange(pages: seq<Page>, roots: set<nat>, r: nat, v: nat, ppn: nat, flags: nat, owner: map<nat, Use>)
    requires |pages| == NFRAMES
    ensures && LookupsRange(pages, pages, roots, r, v, 0, ppn, flags) && DataKept(pages, pages, owner)
            && TablesGrew(owner, owner, r)
  {
    hide Lookup;
  }

  lemma RangeAt(pages: seq<Page>, pages': seq<Page>, roots: set<nat>, r: nat, v: nat, n: nat, ppn: nat, flags: nat)
    requires LookupsRange(pages, pages', roots, r, v, n, ppn, flags) && r in roots && r < NFRAMES && v + n < ALLPAGES
    ensures Lookup(pages', r, v + n) == Lookup(pages, r, v + n)
  {
    hide Lookup;
  }

  lemma RangeFlags(pages: seq<Page>, pages': seq<Page>, roots: set<nat>, r: nat, v: nat, n: nat, ppn: nat, flags: nat)
    requires LookupsRange(pages, pages', roots, r, v, n, ppn, flags) && r in roots && r < NFRAMES && v + n <= ALLPAGES
    ensures forall w ::
              v <= w < v + n ==>
                && Present(Lookup(pages', r, w)) && Lookup(pages', r, w).ppn == ppn + w - v
                && Lookup(pages', r, w).flags / 2 == flags / 2
  {
    hide Lookup, Mapped;
  }

  lemma RangeStep(pages: seq<Page>, pages1: seq<Page>, pages2: seq<Page>, roots: set<nat>, r: nat, v: nat, n: nat,
                  ppn: nat, flags: nat)
    requires && LookupsRange(pages, pages1, roots, r, v, n, ppn, flags)
             && LookupsBut(pages1, pages2, roots, r, v + n, Mapped(ppn + n, flags))
    ensures LookupsRange(pages, pages2, roots, r, v, n + 1, ppn, flags)
  {
    hide Lookup;
  }

  lemma GrewTwice(owner: map<nat, Use>, owner1: map<nat, Use>, owner2: map<nat, Use>, r: nat, pages: seq<Page>,
                  pages1: seq<Page>, pages2: seq<Page>)
    requires && TablesGrew(owner, owner1, r) && TablesGrew(owner1, owner2, r) && DataKept(pages, pages1, owner)
             && DataKept(pages1, pages2, owner1)
    ensures TablesGrew(owner, owner2, r) && DataKept(pages, pages2, owner)
  {
  }

  // --------------------------------------------------------------- freeing user pages

  /** PGROUNDUP(sz) / PGSIZE */
  function PageUp(sz: nat): (v: nat)
    ensures sz <= v * PGSIZE < sz + PGSIZE
  {
    (sz + PGSIZE - 1) / PGSIZE
  }

  /** Freeing virtual page v of r, if it is present. */
  function FreeOne(pages: seq<Page>, free: seq<nat>, r: nat, v: nat): (res: (seq<Page>, seq<nat>))
    requires |pages| == NFRAMES && r < NFRAMES && v < ALLPAGES
    ensures |res.0| == NFRAMES
  {
    var e, t := Lookup(pages, r, v), pages[r][v / NENTRIES].ppn;
    if Present(e) && t < NFRAMES && e.ppn < NFRAMES then
      var junked := pages[e.ppn := JunkPage()];
      (junked[t := junked[t][v % NENTRIES := NONE]], [e.ppn] + free)
    else (pages, free)
  }

  /** Freeing the pages v..hi of r one by one. */
  function FreeFrom(pages: seq<Page>, free: seq<nat>, r: nat, v: nat, hi: nat): (res: (seq<Page>, seq<nat>))
    requires |pages| == NFRAMES && r < NFRAMES && hi <= ALLPAGES
    decreases hi - v
  {
    if v >= hi then (pages, free)
    else
      var res := FreeOne(pages, free, r, v);
      FreeFrom(res.0, res.1, r, v + 1, hi)
  }

  /** Pages lo..hi of r that were present read as absent; all else reads as before. */
  ghost predicate LookupsFreed(pages: seq<Page>, pages': seq<Page>, roots: set<nat>, r: nat, lo: nat, hi: nat) {
    && |pages| == |pages'| == NFRAMES
    && forall q, w :: q in roots && q < NFRAMES && 0 <= w < ALLPAGES ==>
         Lookup(pages', q, w) ==
           if q == r && lo <= w < hi && Present(Lookup(pages, q, w)) then NONE else Lookup(pages, q, w)
  }

  /** The user pages lo..hi of r have been given up, and nothing else. */
  ghost predicate OwnerFreed(owner: map<nat, Use>, owner': map<nat, Use>, r: nat, lo: nat, hi: nat) {
    && (forall p :: p in owner' ==> p in owner && owner'[p] == owner[p])
    && (forall p :: p in owner ==> (p in owner' <==> !(owner[p].User? && owner[p].r == r && lo <= owner[p].v < hi)))
  }

  lemma InHeap(a: nat, oldsz: nat)
    requires a * PGSIZE < oldsz <= HEAPLIMIT
    ensures a < HEAPPAGES && a < PageUp(oldsz) <= HEAPPAGES
  {
  }

  lemma NothingFreed(pages: seq<Page>, roots: set<nat>, owner: map<nat, Use>, r: nat, lo: nat)
    requires |pages| == NFRAMES
    ensures && LookupsFreed(pages, pages, roots, r, lo, lo) && OwnerFreed(owner, owner, r, lo, lo)
            && DataKept(pages, pages, owner)
  {
    hide Lookup;
  }

  /** Where there is no page table, freeing page by page does nothing. */
  lemma {:induction false} SkipTable(pages: seq<Page>, free: seq<nat>, r: nat, a: nat, next: nat, hi: nat)
    requires |pages| == NFRAMES && r < NFRAMES && hi <= HEAPPAGES && a < ALLPAGES
    requires a <= next && next == (a / NENTRIES + 1) * NENTRIES && !Present(pages[r][a / NENTRIES])
    ensures FreeFrom(pages, free, r, a, hi) == FreeFrom(pages, free, r, next, hi)
    decreases next - a
  {
    if a < hi {
      NotThere(pages, r, a);
      if a + 1 < next {
        assert (a + 1) / NENTRIES == a / NENTRIES;
        SkipTable(pages, free, r, a + 1, next, hi);
      }
    }
  }

  lemma StepFrom(pages: seq<Page>, free: seq<nat>, r: nat, a: nat, hi: nat)
    requires |pages| == NFRAMES && r < NFRAMES && a < hi <= ALLPAGES
    ensures FreeFrom(pages, free, r, a, hi) ==
              FreeFrom(FreeOne(pages, free, r, a).0, FreeOne(pages, free, r, a).1, r, a + 1, hi)
  {
  }

  lemma NotFreed(pages: seq<Page>, free: seq<nat>, r: nat, a: nat)
    requires |pages| == NFRAMES && r < NFRAMES && a < ALLPAGES && !Present(Lookup(pages, r, a))
    ensures FreeOne(pages, free, r, a) == (pages, free)
  {
  }

  lemma FromEnd(pages: seq<Page>, free: seq<nat>, r: nat, a: nat, hi: nat, oldsz: nat)
    requires |pages| == NFRAMES && r < NFRAMES && hi == PageUp(oldsz) && hi <= ALLPAGES && a * PGSIZE >= oldsz
    ensures FreeFrom(pages, free, r, a, hi) == (pages, free) && a >= hi
  {
  }

  /** No user page where nothing is present. */
  lemma NoUser(s: State, owner: map<nat, Use>, free: seq<nat>, first: nat, r: nat, w: nat, p: nat)
    requires Owned(s, owner, free, first) && p in owner && owner[p] == User(r, w) && r in s.roots
    ensures w < HEAPPAGES && Present(Lookup(s.pages, r, w))
  {
    assert FrameOk(s, owner, first, p);
  }

  lemma SkipLookups(s: State, owner: map<nat, Use>, free: seq<nat>, first: nat, pages0: seq<Page>,
                    owner0: map<nat, Use>, r: nat, lo: nat, a: nat, next: nat)
    requires && Owned(s, owner, free, first) && r in s.roots && lo <= a < next <= (a / NENTRIES + 1) * NENTRIES
             && a < HEAPPAGES && !Present(s.pages[r][a / NENTRIES])
    requires LookupsFreed(pages0, s.pages, s.roots, r, lo, a) && OwnerFreed(owner0, owner, r, lo, a)
    ensures LookupsFreed(pages0, s.pages, s.roots, r, lo, next) && OwnerFreed(owner0, owner, r, lo, next)
  {
    hide Lookup, Val, Owned;
    RootInRange(s, owner, free, first, r);
    forall w | a <= w < next && w < ALLPAGES ensures Lookup(s.pages, r, w) == NONE && !Present(NONE) {
      assert w / NENTRIES == a / NENTRIES;
      NotThere(s.pages, r, w);
    }
    forall p | p in owner && owner[p].User? && owner[p].r == r ensures !(a <= owner[p].v < next) {
      NoUser(s, owner, free, first, r, owner[p].v, p);
    }
  }

  lemma KeptMore(s: State, owner: map<nat, Use>, free: seq<nat>, first: nat, pages0: seq<Page>,
                 owner0: map<nat, Use>, r: nat, lo: nat, a: nat)
    requires && Owned(s, owner, free, first) && r in s.roots && lo <= a < HEAPPAGES && r < NFRAMES
             && |s.pages| == NFRAMES && !Present(Lookup(s.pages, r, a))
    requires LookupsFreed(pages0, s.pages, s.roots, r, lo, a) && OwnerFreed(owner0, owner, r, lo, a)
    ensures LookupsFreed(pages0, s.pages, s.roots, r, lo, a + 1) && OwnerFreed(owner0, owner, r, lo, a + 1)
  {
    hide Lookup, Val, Owned;
    forall p | p in owner && owner[p].User? && owner[p].r == r ensures owner[p].v != a {
      NoUser(s, owner, free, first, r, owner[p].v, p);
    }
  }

  lemma FreedMore(pages0: seq<Page>, pages1: seq<Page>, pages2: seq<Page>, roots: set<nat>, owner0: map<nat, Use>,
                  owner1: map<nat, Use>, owner2: map<nat, Use>,
                  r: nat, lo: nat, a: nat)
    requires lo <= a < HEAPPAGES && r in roots && r < NFRAMES
    requires && LookupsFreed(pages0, pages1, roots, r, lo, a) && OwnerFreed(owner0, owner1, r, lo, a)
             && DataKept(pages0, pages1, owner1)
    requires && LookupsBut(pages1, pages2, roots, r, a, NONE) && OwnerFreed(owner1, owner2, r, a, a + 1)
             && DataKept(pages1, pages2, owner2)
    requires Present(Lookup(pages1, r, a))
    ensures && LookupsFreed(pages0, pages2, roots, r, lo, a + 1) && OwnerFreed(owner0, owner2, r, lo, a + 1)
            && DataKept(pages0, pages2, owner2)
  {
    hide Lookup;
  }

  /** The page a loop at a has come to, not past the end. */
  ghost function Cap(a: nat, hi: nat): nat {
    if a < hi then a else hi
  }

  lemma ClearUser(s: State, owner: map<nat, Use>, free: seq<nat>, first: nat, r: nat, v: nat)
    requires && Owned(s, owner, free, first) && NonZero(s) && 0 < first && r in s.roots && v < HEAPPAGES
             && Present(s.pages[r][v / NENTRIES])
    requires r < NFRAMES && Present(Lookup(s.pages, r, v))
    ensures var t, p := s.pages[r][v / NENTRIES].ppn, Lookup(s.pages, r, v).ppn;
            && t < NFRAMES && p < NFRAMES && p != t && t in owner && owner[t].Table? && p in owner
            && owner[p] == User(r, v) && r != p && r != t
            && var pages' := s.pages[p := JunkPage()][t := s.pages[t][v % NENTRIES := NONE]];
               && LookupsBut(s.pages, pages', s.roots, r, v, NONE)
               && Owned(s.(pages := pages'), owner - {p}, [p] + free, first) && NonZero(s.(pages := pages'))
               && forall q :: q in owner && owner[q] == User(r, v) ==> q == p
  {
    hide Lookup, Val;
    TableThere(s, owner, free, first, r, v);
    var t, p := s.pages[r][v / NENTRIES].ppn, Lookup(s.pages, r, v).ppn;
    UserIsOwned(s, owner, free, first, r, v);
    RootIsOwned(s, owner, free, first, r);
    var mid := s.(pages := s.pages[p := JunkPage()]);
    DataWrite(s, owner, free, first, p, JunkPage());
    SameAll(s, mid, owner, free, first);
    TableWrite(mid, owner, free, first, r, v / NENTRIES, v % NENTRIES, NONE);
    assert v / NENTRIES * NENTRIES + v % NENTRIES == v;
    var s' := s.(pages := mid.pages[t := mid.pages[t][v % NENTRIES := NONE]]);
    ClearVals(s, s', r, v);
    Give(s, s', owner, free, first, User(r, v));
  }

  lemma UserIsOwned(s: State, owner: map<nat, Use>, free: seq<nat>, first: nat, r: nat, v: nat)
    requires && Owned(s, owner, free, first) && NonZero(s) && r in s.roots && v < HEAPPAGES
             && Present(Lookup(s.pages, r, v))
    ensures var p := Lookup(s.pages, r, v).ppn;
            Val(s, User(r, v)) == p != 0 && first <= p < NFRAMES && p in owner && owner[p] == User(r, v)
    ensures forall q :: q in owner && owner[q] == User(r, v) ==> q == Lookup(s.pages, r, v).ppn
  {
    hide Lookup;
    var p := Lookup(s.pages, r, v).ppn;
    assert UseOk(s, owner, User(r, v));
    assert FrameOk(s, owner, first, p);
    forall q | q in owner && owner[q] == User(r, v) ensures q == p {
      assert FrameOk(s, owner, first, q);
    }
  }

  lemma ClearVals(s: State, s': State, r: nat, v: nat)
    requires && Shaped(s) && Shaped(s') && r in s.roots && v < HEAPPAGES && OneEntryBut(s, s', r, v, NONE)
             && NonZero(s) && s'.held == s.held
    ensures Val(s', User(r, v)) == 0 && (forall t :: t != User(r, v) ==> SameVal(s, s', t)) && NonZero(s')
  {
    hide Lookup;
  }

  // --------------------------------------------------------------- freeing an address space

  /** The use is part of the address space of r. */
  ghost predicate Of(u: Use, r: nat) {
    !u.Held? && u.r == r
  }

  /** Frame p is one of the page tables named by the first i entries of dir. */
  ghost predicate InDir(dir: Page, p: nat, i: nat)
    requires i <= NENTRIES
  {
    exists j :: 0 <= j < i && Present(dir[j]) && dir[j].ppn == p
  }

  ghost predicate OwnerWithout(owner: map<nat, Use>, owner': map<nat, Use>, r: nat) {
    && (forall p :: p in owner' <==> p in owner && !Of(owner[p], r))
    && (forall p :: p in owner' ==> owner'[p] == owner[p])
  }

  ghost function FramesOf(owner: map<nat, Use>, r: nat): (f: set<nat>) {
    set p | p in owner && Of(owner[p], r)
  }

  /** The pages of r become pages the kernel code holds. */
  ghost function Retired(owner: map<nat, Use>, r: nat): (o: map<nat, Use>) {
    map p | p in owner :: if Of(owner[p], r) then Held(p) else owner[p]
  }

  lemma HeapPages()
    ensures PageUp(0) == 0 && PageUp(HEAPLIMIT) == HEAPPAGES
  {
  }

  lemma SameSelf(pages: seq<Page>, roots: set<nat>)
    requires |pages| == NFRAMES
    ensures SameLookups(pages, pages, roots)
  {
    hide Lookup;
  }

  lemma SameTrans(pages: seq<Page>, pages1: seq<Page>, pages2: seq<Page>, roots: set<nat>)
    requires SameLookups(pages, pages1, roots) && SameLookups(pages1, pages2, roots)
    ensures SameLookups(pages, pages2, roots)
  {
    hide Lookup;
  }

  /** After deallocuvm() of everything r has its tables only. */
  lemma AfterDealloc(s: State, owner: map<nat, Use>, free: seq<nat>, first: nat, pages0: seq<Page>,
                     owner0: map<nat, Use>, r: nat)
    requires Owned(s, owner, free, first) && NonZero(s) && r in s.roots && r < NFRAMES
    requires LookupsFreed(pages0, s.pages, s.roots, r, 0, HEAPPAGES) && OwnerFreed(owner0, owner, r, 0, HEAPPAGES)
    ensures forall p :: p in owner && Of(owner[p], r) ==> !owner[p].User?
    ensures forall v :: 0 <= v < HEAPPAGES ==> !Present(Lookup(s.pages, r, v))
    ensures SameLookups(pages0, s.pages, s.roots - {r})
    ensures r in owner && owner[r] == Dir(r)
    ensures forall j ::
              0 <= j < NENTRIES && Present(s.pages[r][j]) ==>
                var t := s.pages[r][j].ppn; t in owner && owner[t] == Table(r, j)
  {
    hide Lookup, Val;
    RootIsOwned(s, owner, free, first, r);
    forall p | p in owner && Of(owner[p], r) ensures !owner[p].User? {
      if owner[p].User? {
        NoUser(s, owner, free, first, r, owner[p].v, p);
      }
    }
    forall j | 0 <= j < NENTRIES && Present(s.pages[r][j])
      ensures var t := s.pages[r][j].ppn; t in owner && owner[t] == Table(r, j)
    {
      TableIsOwned(s, owner, free, first, r, j);
    }
  }

  /** An address space without user pages can be taken apart: its pages are held instead. */
  lemma RetireRoot(s: State, owner: map<nat, Use>, free: seq<nat>, first: nat, r: nat)
    requires Owned(s, owner, free, first) && NonZero(s) && r in s.roots && 0 < first
    requires forall p :: p in owner && Of(owner[p], r) ==> !owner[p].User?
    ensures var s' := State(s.pages, s.roots - {r}, s.held + FramesOf(owner, r));
            Owned(s', Retired(owner, r), free, first) && NonZero(s')
  {
    hide Lookup;
    var s', owner' := State(s.pages, s.roots - {r}, s.held + FramesOf(owner, r)), Retired(owner, r);
    forall p | p in FramesOf(owner, r) ensures p != 0 {
      assert FrameOk(s, owner, first, p);
    }
    forall u ensures UseOk(s', owner', u) {
      assert UseOk(s, owner, u);
    }
    forall p | p in owner' ensures FrameOk(s', owner', first, p) {
      assert FrameOk(s, owner, first, p);
    }
  }

  /** The pages of r without its user pages: the directory and the tables it names. */
  lemma DirFrames(s: State, owner: map<nat, Use>, free: seq<nat>, first: nat, r: nat)
    requires Owned(s, owner, free, first) && NonZero(s) && r in s.roots && 0 < first
    requires forall p :: p in owner && Of(owner[p], r) ==> !owner[p].User?
    ensures r < NFRAMES && r in owner && owner[r] == Dir(r)
    ensures forall p :: p in owner && Of(owner[p], r) <==> p == r || InDir(s.pages[r], p, NENTRIES)
    ensures forall j ::
              0 <= j < NENTRIES && Present(s.pages[r][j]) ==>
                var t := s.pages[r][j].ppn; t in owner && owner[t] == Table(r, j)
    ensures forall p :: p in s.held ==> p in owner && owner[p] == Held(p)
  {
    hide Lookup;
    RootIsOwned(s, owner, free, first, r);
    forall j | 0 <= j < NENTRIES && Present(s.pages[r][j])
      ensures var t := s.pages[r][j].ppn; t in owner && owner[t] == Table(r, j)
    {
      TableIsOwned(s, owner, free, first, r, j);
    }
    forall p | p in owner && Of(owner[p], r) ensures p == r || InDir(s.pages[r], p, NENTRIES) {
      assert FrameOk(s, owner, first, p);
    }
    forall p | p in s.held ensures p in owner && owner[p] == Held(p) {
      HeldIsOwned(s, owner, free, first, p);
    }
  }

  /** A frame is free exactly when it is managed and not in use. */
  lemma FreeIff(s: State, owner: map<nat, Use>, free: seq<nat>, first: nat)
    requires Owned(s, owner, free, first)
    ensures forall p :: p in free <==> first <= p < NFRAMES && p != 0 && p !in owner
    ensures forall p :: p in owner ==> first <= p < NFRAMES && p != 0
  {
    hide Val;
    forall p | p in owner ensures first <= p < NFRAMES && p != 0 {
      assert FrameOk(s, owner, first, p);
    }
  }

  lemma WithoutTwice(owner0: map<nat, Use>, owner1: map<nat, Use>, owner2: map<nat, Use>, r: nat)
    requires OwnerFreed(owner0, owner1, r, 0, HEAPPAGES) && OwnerWithout(owner1, owner2, r)
    ensures OwnerWithout(owner0, owner2, r)
  {
  }

  lemma KeptTwice(pages0: seq<Page>, pages1: seq<Page>, pages2: seq<Page>, roots: set<nat>, owner1: map<nat, Use>,
                  owner2: map<nat, Use>, r: nat)
    requires SameLookups(pages0, pages1, roots) && SameLookups(pages1, pages2, roots)
    requires DataKept(pages0, pages1, owner1) && DataKept(pages1, pages2, owner2) && OwnerWithout(owner1, owner2, r)
    ensures SameLookups(pages0, pages2, roots) && DataKept(pages0, pages2, owner2)
  {
    hide Lookup;
  }

  lemma BackFree(owner0: map<nat, Use>, owner: map<nat, Use>, free0: seq<nat>, free: seq<nat>, first: nat, r: nat)
    requires OwnerWithout(owner0, owner, r)
    requires forall p :: p in free0 <==> first <= p < NFRAMES && p != 0 && p !in owner0
    requires forall p :: p in free <==> first <= p < NFRAMES && p != 0 && p !in owner
    requires forall p :: p in owner0 ==> first <= p < NFRAMES && p != 0
    ensures forall p :: p in free <==> p in free0 || (p in owner0 && Of(owner0[p], r))
  {
  }

  // --------------------------------------------------------------- the kernel part of an address space

  const DEVSPACE: nat := 0xFE00_0000

  datatype KEntry = KEntry(virt: nat, start: nat, end: nat, perm: nat)

  /** The table kmap. */
  function KMap(dataPa: nat, k: nat): (m: KEntry)
    requires k < 4
  {
    if k == 0 then KEntry(KERNBASE, 0, EXTMEM, 2)
    else if k == 1 then KEntry(KERNBASE + EXTMEM, EXTMEM, dataPa, 0)
    else if k == 2 then KEntry(KERNBASE + dataPa, dataPa, PHYSTOP, 2)
    else KEntry(DEVSPACE, DEVSPACE, ALLPAGES * PGSIZE, 2)
  }

  /** What virtual page v maps to for the kernel: memory from KERNBASE on, writable but for the kernel's text, and the
      devices at their own addresses. */
  ghost function KernelEntry(v: nat, dataPa: nat): (e: Entry) {
    if KERNPAGES <= v < KERNPAGES + NFRAMES then
      Mapped(v - KERNPAGES, if EXTMEM / PGSIZE <= v - KERNPAGES < dataPa / PGSIZE then 0 else 2)
    else if DEVSPACE / PGSIZE <= v < ALLPAGES then Mapped(v, 2)
    else NONE
  }

  /** Virtual page v is in entry k of kmap. */
  ghost predicate InKMap(v: nat, dataPa: nat, k: nat)
    requires k < 4
  {
    var m := KMap(dataPa, k);
    m.start <= m.end && m.virt / PGSIZE <= v < m.virt / PGSIZE + (m.end - m.start) / PGSIZE
  }

  /** The first k entries of kmap, and nothing else, are mapped. */
  ghost predicate KernelUpto(pages: seq<Page>, p: nat, dataPa: nat, k: nat)
    requires |pages| == NFRAMES && p < NFRAMES && k <= 4
  {
    forall v :: 0 <= v < ALLPAGES ==>
      Lookup(pages, p, v) == if exists j :: 0 <= j < k && InKMap(v, dataPa, j) then KernelEntry(v, dataPa) else NONE
  }

  lemma KMapFits(dataPa: nat, k: nat)
    requires k < 4 && dataPa % PGSIZE == 0 && EXTMEM < dataPa < PHYSTOP
    ensures var m := KMap(dataPa, k);
            && m.start < m.end && m.virt + (m.end - m.start) <= ALLPAGES * PGSIZE && m.start % PGSIZE == 0
            && m.virt / PGSIZE >= KERNPAGES
            && (m.virt + (m.end - m.start) - 1) / PGSIZE - m.virt / PGSIZE + 1 == (m.end - m.start) / PGSIZE
  {
    var m, q := KMap(dataPa, k), dataPa / PGSIZE;
    assert dataPa == PGSIZE * q;
    if k == 1 {
      assert m.end - m.start == PGSIZE * (q - EXTMEM / PGSIZE);
    } else if k == 2 {
      assert m.end - m.start == PGSIZE * (NFRAMES - q);
    }
  }

  /** The entries of kmap do not overlap, and each maps as KernelEntry says. */
  lemma KMapIs(v: nat, dataPa: nat, k: nat)
    requires k < 4 && dataPa % PGSIZE == 0 && EXTMEM < dataPa < PHYSTOP && InKMap(v, dataPa, k)
    ensures forall j :: 0 <= j < k ==> !InKMap(v, dataPa, j)
    ensures var m := KMap(dataPa, k); Mapped(m.start / PGSIZE + v - m.virt / PGSIZE, m.perm) == KernelEntry(v, dataPa)
  {
  }

  lemma KMapAll(v: nat, dataPa: nat)
    requires dataPa % PGSIZE == 0 && EXTMEM < dataPa < PHYSTOP && v < ALLPAGES && KernelEntry(v, dataPa) != NONE
    ensures exists k :: 0 <= k < 4 && InKMap(v, dataPa, k)
  {
    assert InKMap(v, dataPa, 0) || InKMap(v, dataPa, 1) || InKMap(v, dataPa, 2) || InKMap(v, dataPa, 3);
  }

  lemma NoKernelYet(pages: seq<Page>, p: nat, dataPa: nat)
    requires |pages| == NFRAMES && p < NFRAMES && forall v :: 0 <= v < ALLPAGES ==> Lookup(pages, p, v) == NONE
    ensures KernelUpto(pages, p, dataPa, 0)
  {
    hide Lookup, KMap, KernelEntry;
  }

  lemma NoRemap(pages: seq<Page>, p: nat, dataPa: nat, k: nat)
    requires && |pages| == NFRAMES && p < NFRAMES && k < 4 && dataPa % PGSIZE == 0 && EXTMEM < dataPa < PHYSTOP
             && KernelUpto(pages, p, dataPa, k)
    ensures var m := KMap(dataPa, k);
            && m.start < m.end
            && forall v ::
                 m.virt / PGSIZE <= v <= (m.virt + (m.end - m.start) - 1) / PGSIZE ==>
                   v < ALLPAGES && !Present(Lookup(pages, p, v))
  {
    hide Lookup, KMap, KernelEntry;
    KMapFits(dataPa, k);
    var m := KMap(dataPa, k);
    forall v | m.virt / PGSIZE <= v <= (m.virt + (m.end - m.start) - 1) / PGSIZE
      ensures v < ALLPAGES && !Present(Lookup(pages, p, v))
    {
      assert InKMap(v, dataPa, k);
      KMapIs(v, dataPa, k);
    }
  }

  lemma KernelStep(pages: seq<Page>, pages': seq<Page>, roots: set<nat>, p: nat, dataPa: nat, k: nat)
    requires && p in roots && p < NFRAMES && k < 4 && dataPa % PGSIZE == 0 && EXTMEM < dataPa < PHYSTOP
             && |pages| == NFRAMES && KernelUpto(pages, p, dataPa, k)
    requires var m := KMap(dataPa, k);
             && m.start <= m.end
             && LookupsRange(pages, pages', roots, p, m.virt / PGSIZE,
                             (m.virt + (m.end - m.start) - 1) / PGSIZE - m.virt / PGSIZE + 1, m.start / PGSIZE,
                             m.perm)
    ensures KernelUpto(pages', p, dataPa, k + 1)
  {
    hide Lookup, KMap, KernelEntry, Mapped;
    KMapFits(dataPa, k);
    var k1 := k + 1;
    forall v | 0 <= v < ALLPAGES
      ensures Lookup(pages', p, v) ==
                if exists j :: 0 <= j < k1 && InKMap(v, dataPa, j) then KernelEntry(v, dataPa) else NONE
    {
      if InKMap(v, dataPa, k) {
        KMapIs(v, dataPa, k);
      }
    }
  }

  /** The permissions: the kernel's text is read-only, the rest of memory and the devices are writable, and nothing of
      it is for user code. */
  lemma KernelFlags(pages: seq<Page>, r: nat, dataPa: nat)
    requires && |pages| == NFRAMES && r < NFRAMES && dataPa % PGSIZE == 0 && EXTMEM < dataPa < PHYSTOP
             && forall v :: 0 <= v < ALLPAGES ==> Lookup(pages, r, v) == KernelEntry(v, dataPa)
    ensures forall v :: 0 <= v < KERNPAGES ==> !Present(Lookup(pages, r, v))
    ensures forall p: nat ::
              p * PGSIZE < PHYSTOP ==>
                && KERNPAGES + p < ALLPAGES && Lookup(pages, r, KERNPAGES + p).ppn == p
                && Lookup(pages, r, KERNPAGES + p).flags == if EXTMEM <= p * PGSIZE < dataPa then 1 else 3
    ensures forall v :: DEVSPACE <= v * PGSIZE && 0 <= v < ALLPAGES ==> Lookup(pages, r, v) == Entry(v, 3)
  {
    hide Lookup;
    forall p: nat | p * PGSIZE < PHYSTOP
      ensures KERNPAGES + p < ALLPAGES && Lookup(pages, r, KERNPAGES + p).ppn == p
      ensures Lookup(pages, r, KERNPAGES + p).flags == if EXTMEM <= p * PGSIZE < dataPa then 1 else 3
    {
      assert Lookup(pages, r, KERNPAGES + p) == KernelEntry(KERNPAGES + p, dataPa);
    }
    forall v | DEVSPACE <= v * PGSIZE && 0 <= v < ALLPAGES ensures Lookup(pages, r, v) == Entry(v, 3) {
      assert Lookup(pages, r, v) == KernelEntry(v, dataPa);
    }
  }

  lemma KernelAll(pages: seq<Page>, p: nat, dataPa: nat)
    requires && |pages| == NFRAMES && p < NFRAMES && dataPa % PGSIZE == 0 && EXTMEM < dataPa < PHYSTOP
             && KernelUpto(pages, p, dataPa, 4)
    ensures forall v :: 0 <= v < ALLPAGES ==> Lookup(pages, p, v) == KernelEntry(v, dataPa)
  {
    hide Lookup, KMap;
    forall v | 0 <= v < ALLPAGES ensures Lookup(pages, p, v) == KernelEntry(v, dataPa) {
      if KernelEntry(v, dataPa) != NONE {
        KMapAll(v, dataPa);
      }
    }
  }

  /** Uses have been added, all of the new address space d. */
  ghost predicate OwnerGrew(owner: map<nat, Use>, owner': map<nat, Use>, d: nat) {
    && (forall p :: p in owner ==> p in owner' && owner'[p] == owner[p] && !Of(owner[p], d))
    && (forall p :: p in owner' && p !in owner ==> Of(owner'[p], d))
  }

  /** No use is of a directory that does not exist. */
  lemma UnusedRoots(s: State, owner: map<nat, Use>, free: seq<nat>, first: nat)
    requires Owned(s, owner, free, first)
    ensures forall p, d :: p in owner && d !in s.roots ==> !Of(owner[p], d)
    ensures forall p :: p in s.roots ==> p in owner
  {
    hide Lookup;
    forall p, d | p in owner && d !in s.roots ensures !Of(owner[p], d) {
      assert FrameOk(s, owner, first, p);
    }
    forall p | p in s.roots ensures p in owner {
      RootIsOwned(s, owner, free, first, p);
    }
  }

  /** A held zero page becomes a directory. */
  lemma AddRoot(s: State, owner: map<nat, Use>, free: seq<nat>, first: nat, p: nat)
    requires && Owned(s, owner, free, first) && NonZero(s) && 0 < first && p in s.held && p < NFRAMES
             && s.pages[p] == ZeroPage()
    ensures p !in s.roots && forall v :: 0 <= v < ALLPAGES ==> Lookup(s.pages, p, v) == NONE
    ensures var s' := State(s.pages, s.roots + {p}, s.held - {p});
            Owned(s', owner[p := Dir(p)], free, first) && NonZero(s')
  {
    HeldIsOwned(s, owner, free, first, p);
    var s' := State(s.pages, s.roots + {p}, s.held - {p});
    forall v | 0 <= v < ALLPAGES ensures Lookup(s.pages, p, v) == NONE {
      NotThere(s.pages, p, v);
    }
    AddVals(s, s', p);
    Move(s, s', owner, free, first, Held(p), Dir(p));
  }

  lemma AddVals(s: State, s': State, p: nat)
    requires Shaped(s) && p in s.held && 0 < p < NFRAMES && p !in s.roots && NonZero(s) && s.pages[p] == ZeroPage()
    requires && s' == State(s.pages, s.roots + {p}, s.held - {p})
             && forall v :: 0 <= v < ALLPAGES ==> Lookup(s.pages, p, v) == NONE
    ensures Shaped(s') && Val(s, Held(p)) == p && Val(s', Held(p)) == 0 && Val(s, Dir(p)) == 0 && Val(s', Dir(p)) == p
    ensures (forall t :: t != Held(p) && t != Dir(p) ==> SameVal(s, s', t)) && NonZero(s')
  {
    hide Lookup;
  }

  /** Mapping pages of the new address space leaves the old ones alone. */
  lemma SameWithRange(pages0: seq<Page>, pages1: seq<Page>, pages2: seq<Page>, roots0: set<nat>, roots: set<nat>,
                      owner0: map<nat, Use>, owner1: map<nat, Use>, owner2: map<nat, Use>, p: nat, v: nat, n: nat,
                      ppn: nat, flags: nat)
    requires SameLookups(pages0, pages1, roots0) && DataKept(pages0, pages1, owner0) && OwnerGrew(owner0, owner1, p)
    requires p !in roots0 && roots == roots0 + {p} && LookupsRange(pages1, pages2, roots, p, v, n, ppn, flags)
    requires DataKept(pages1, pages2, owner1) && TablesGrew(owner1, owner2, p)
    ensures SameLookups(pages0, pages2, roots0) && DataKept(pages0, pages2, owner0) && OwnerGrew(owner0, owner2, p)
  {
    hide Lookup;
  }

  /** With the new address space freed again the old state is back. */
  lemma Restored(pages0: seq<Page>, pages2: seq<Page>, pages3: seq<Page>, roots0: set<nat>, owner0: map<nat, Use>,
                 owner2: map<nat, Use>, owner3: map<nat, Use>, p: nat)
    requires SameLookups(pages0, pages2, roots0) && DataKept(pages0, pages2, owner0) && OwnerGrew(owner0, owner2, p)
    requires SameLookups(pages2, pages3, roots0) && DataKept(pages2, pages3, owner3) && OwnerWithout(owner2, owner3, p)
    ensures owner3 == owner0 && SameLookups(pages0, pages3, roots0) && DataKept(pages0, pages3, owner0)
  {
    hide Lookup;
    assert owner3.Keys == owner0.Keys;
  }

  // --------------------------------------------------------------- adding user pages

  /** All entries but that of page v of r read as before. */
  ghost predicate SameBut(pages: seq<Page>, pages': seq<Page>, roots: set<nat>, r: nat, v: nat) {
    && |pages| == |pages'| == NFRAMES
    && forall q, w ::
         q in roots && q < NFRAMES && 0 <= w < ALLPAGES && !(q == r && w == v) ==>
           Lookup(pages', q, w) == Lookup(pages, q, w)
  }

  /** Page v of r maps, with the flags, to a frame of its own with the contents. */
  ghost predicate NewPage(pages: seq<Page>, owner: map<nat, Use>, r: nat, v: nat, flags: nat, page: Page)
    requires |pages| == NFRAMES && r < NFRAMES && v < ALLPAGES
  {
    var e := Lookup(pages, r, v);
    e == Mapped(e.ppn, flags) && e.ppn < NFRAMES && e.ppn in owner && owner[e.ppn] == User(r, v) && pages[e.ppn] == page
  }

  lemma KeptSelf(pages: seq<Page>, roots: set<nat>, owner: map<nat, Use>, r: nat, v: nat)
    requires |pages| == NFRAMES
    ensures DataKept(pages, pages, owner) && SameBut(pages, pages, roots, r, v)
  {
    hide Lookup;
  }

  lemma FilledPage(pages: seq<Page>, pages1: seq<Page>, roots: set<nat>, owner: map<nat, Use>, owner1: map<nat, Use>,
                   r: nat, v: nat, p: nat, page: Page)
    requires && |pages| == NFRAMES && p < NFRAMES && p !in owner && pages1 == pages[p := page]
             && owner1 == owner[p := Held(p)] && SameLookups(pages, pages1, roots)
    ensures DataKept(pages, pages1, owner) && SameBut(pages, pages1, roots, r, v)
    ensures r in roots && r < NFRAMES && v < ALLPAGES ==> Lookup(pages1, r, v) == Lookup(pages, r, v)
  {
    hide Lookup;
  }

  lemma AddedPage(pages: seq<Page>, pages1: seq<Page>, pages2: seq<Page>, roots: set<nat>, owner: map<nat, Use>,
                  owner1: map<nat, Use>, owner2: map<nat, Use>,
                  r: nat, v: nat, p: nat, page: Page, flags: nat)
    requires && r in roots && r < NFRAMES && v < HEAPPAGES && p < NFRAMES && p !in owner && |pages1| == NFRAMES
             && pages1[p] == page && owner1 == owner[p := Held(p)]
    requires SameBut(pages, pages1, roots, r, v) && DataKept(pages, pages1, owner)
    requires && LookupsRange(pages1, pages2, roots, r, v, 1, p, flags) && DataKept(pages1, pages2, owner1)
             && TablesGrew(owner1[p := User(r, v)], owner2, r)
    ensures && SameBut(pages, pages2, roots, r, v) && DataKept(pages, pages2, owner)
            && NewPage(pages2, owner2, r, v, flags, page)
    ensures Lookup(pages2, r, v).ppn == p && TablesGrew(owner[p := User(r, v)], owner2, r)
  {
    hide Lookup;
    assert owner1[p := User(r, v)] == owner[p := User(r, v)];
  }

  datatype Want = Want(flags: nat, page: Page)

  function Span(lo: nat, hi: nat): nat {
    if lo <= hi then hi - lo else 0
  }

  /** Pages lo..a of r are new pages of their own, as wanted. */
  ghost predicate Batch(pages: seq<Page>, owner: map<nat, Use>, owner0: map<nat, Use>, r: nat, lo: nat, a: nat,
                        want: seq<Want>) {
    && |pages| == NFRAMES && r < NFRAMES && a <= ALLPAGES && a <= lo + |want|
    && forall v :: lo <= v < a ==> BatchPage(pages, owner, owner0, r, lo, v, want)
  }

  ghost predicate BatchPage(pages: seq<Page>, owner: map<nat, Use>, owner0: map<nat, Use>, r: nat, lo: nat, v: nat,
                            want: seq<Want>)
    requires |pages| == NFRAMES && r < NFRAMES && lo <= v < ALLPAGES && v < lo + |want|
  {
    NewPage(pages, owner, r, v, want[v - lo].flags, want[v - lo].page) && Lookup(pages, r, v).ppn !in owner0
  }

  /** All entries but those of pages lo..a of r read as before. */
  ghost predicate SameOutside(pages: seq<Page>, pages': seq<Page>, roots: set<nat>, r: nat, lo: nat, a: nat) {
    && |pages| == |pages'| == NFRAMES
    && forall q, w ::
         q in roots && q < NFRAMES && 0 <= w < ALLPAGES && !(q == r && lo <= w < a) ==>
           Lookup(pages', q, w) == Lookup(pages, q, w)
  }

  /** Only page tables of r and user pages lo..a of r have been added. */
  ghost predicate Added(owner: map<nat, Use>, owner': map<nat, Use>, r: nat, lo: nat, a: nat) {
    && (forall p :: p in owner ==> p in owner' && owner'[p] == owner[p])
    && (forall p ::
          p in owner' && p !in owner ==>
            (owner'[p].Table? && owner'[p].r == r) || (owner'[p].User? && owner'[p].r == r && lo <= owner'[p].v < a))
  }

  lemma NothingAdded(pages: seq<Page>, roots: set<nat>, owner: map<nat, Use>, r: nat, lo: nat, want: seq<Want>)
    requires |pages| == NFRAMES && r < NFRAMES
    ensures && DataKept(pages, pages, owner) && SameOutside(pages, pages, roots, r, lo, lo)
            && Added(owner, owner, r, lo, lo)
    ensures lo <= ALLPAGES ==> Batch(pages, owner, owner, r, lo, lo, want)
  {
    hide Lookup;
  }

  lemma PageUps(oldsz: nat, newsz: nat)
    requires oldsz <= newsz < HEAPLIMIT
    ensures PageUp(oldsz) <= PageUp(newsz) <= HEAPPAGES
  {
  }

  lemma PageEnd(a: nat, newsz: nat, hi: nat)
    requires a <= hi == PageUp(newsz) && a * PGSIZE >= newsz
    ensures a == hi
  {
  }

  lemma NotYet(pages0: seq<Page>, pages: seq<Page>, roots: set<nat>, r: nat, lo: nat, a: nat, hi: nat)
    requires SameOutside(pages0, pages, roots, r, lo, a) && r in roots && r < NFRAMES && lo <= a < hi <= HEAPPAGES
    requires forall v :: lo <= v < hi ==> v < ALLPAGES && !Present(Lookup(pages0, r, v))
    ensures !Present(Lookup(pages, r, a))
  {
    hide Lookup;
  }

  lemma BatchStep(pages0: seq<Page>, pages1: seq<Page>, pages2: seq<Page>, roots: set<nat>, owner0: map<nat, Use>,
                  owner1: map<nat, Use>, owner2: map<nat, Use>,
                  r: nat, lo: nat, a: nat, hi: nat, want: seq<Want>, p: nat)
    requires r in roots && r < NFRAMES && lo <= a < hi <= HEAPPAGES && |want| == hi - lo
    requires && DataKept(pages0, pages1, owner0) && SameOutside(pages0, pages1, roots, r, lo, a)
             && Added(owner0, owner1, r, lo, a) && Batch(pages1, owner1, owner0, r, lo, a, want)
    requires && SameBut(pages1, pages2, roots, r, a) && DataKept(pages1, pages2, owner1) && p !in owner1
             && TablesGrew(owner1[p := User(r, a)], owner2, r)
    requires NewPage(pages2, owner2, r, a, want[a - lo].flags, want[a - lo].page) && Lookup(pages2, r, a).ppn == p
    ensures && DataKept(pages0, pages2, owner0) && SameOutside(pages0, pages2, roots, r, lo, a + 1)
            && Added(owner0, owner2, r, lo, a + 1)
    ensures Batch(pages2, owner2, owner0, r, lo, a + 1, want)
  {
    hide Lookup;
    var a1 := a + 1;
    forall v | lo <= v < a1 ensures BatchPage(pages2, owner2, owner0, r, lo, v, want) {
      if v < a {
        assert BatchPage(pages1, owner1, owner0, r, lo, v, want);
      }
    }
  }

  /** Uses as in Added, and perhaps a page still held. */
  ghost predicate AddedHeld(owner: map<nat, Use>, owner': map<nat, Use>, r: nat, lo: nat, a: nat, mem: Option<nat>) {
    && (forall p :: p in owner ==> p in owner' && owner'[p] == owner[p])
    && (mem.Some? ==> mem.value in owner' && mem.value !in owner && owner'[mem.value] == Held(mem.value))
    && (forall p ::
          p in owner' && p !in owner && mem != Some(p) ==>
            (owner'[p].Table? && owner'[p].r == r) || (owner'[p].User? && owner'[p].r == r && lo <= owner'[p].v < a))
  }

  lemma FailedAdd(pages0: seq<Page>, pages1: seq<Page>, pages2: seq<Page>, roots: set<nat>, owner0: map<nat, Use>,
                  owner1: map<nat, Use>, owner2: map<nat, Use>,
                  r: nat, lo: nat, a: nat, hi: nat, mem: Option<nat>)
    requires && lo <= a < hi && DataKept(pages0, pages1, owner0) && SameOutside(pages0, pages1, roots, r, lo, a)
             && Added(owner0, owner1, r, lo, a)
    requires SameLookups(pages1, pages2, roots) && DataKept(pages1, pages2, owner1)
    requires if mem.Some? then mem.value !in owner1 && owner2 == owner1[mem.value := Held(mem.value)]
             else owner2 == owner1
    ensures && DataKept(pages0, pages2, owner0) && SameOutside(pages0, pages2, roots, r, lo, a)
            && AddedHeld(owner0, owner2, r, lo, a, mem)
  {
    hide Lookup;
  }

  lemma UndoAlloc(pages0: seq<Page>, pages2: seq<Page>, pages3: seq<Page>, roots: set<nat>, owner0: map<nat, Use>,
                  owner2: map<nat, Use>, owner3: map<nat, Use>,
                  r: nat, lo: nat, a: nat, hi: nat, mem: Option<nat>)
    requires r in roots && r < NFRAMES && lo <= a < hi <= HEAPPAGES && |pages0| == NFRAMES
    requires forall v :: lo <= v < hi ==> v < ALLPAGES && !Present(Lookup(pages0, r, v))
    requires && DataKept(pages0, pages2, owner0) && SameOutside(pages0, pages2, roots, r, lo, a)
             && AddedHeld(owner0, owner2, r, lo, a, mem)
    requires && LookupsFreed(pages2, pages3, roots, r, lo, hi) && OwnerFreed(owner2, owner3, r, lo, hi)
             && DataKept(pages2, pages3, owner3)
    requires forall p :: p in owner0 && owner0[p].User? && owner0[p].r == r ==> !(lo <= owner0[p].v < hi)
    ensures forall q, w :: q in roots && q < NFRAMES && 0 <= w < ALLPAGES ==> Flat(pages3, q, w) == Flat(pages0, q, w)
    ensures DataKept(pages0, pages3, owner0) && AddedHeld(owner0, owner3, r, 0, 0, mem)
  {
    hide Lookup;
    forall q, w | q in roots && q < NFRAMES && 0 <= w < ALLPAGES ensures Flat(pages3, q, w) == Flat(pages0, q, w) {
      if q == r && lo <= w < hi {
        assert !Present(Lookup(pages0, r, w)) && !Present(NONE);
      }
    }
  }

  /** No user pages where nothing is present. */
  lemma NoUsersIn(s: State, owner: map<nat, Use>, free: seq<nat>, first: nat, r: nat, lo: nat, hi: nat)
    requires Owned(s, owner, free, first) && r in s.roots && r < NFRAMES && hi <= ALLPAGES
    requires forall v :: lo <= v < hi ==> v < ALLPAGES && !Present(Lookup(s.pages, r, v))
    ensures forall p :: p in owner && owner[p].User? && owner[p].r == r ==> !(lo <= owner[p].v < hi)
  {
    hide Lookup, Val;
    forall p | p in owner && owner[p].User? && owner[p].r == r ensures !(lo <= owner[p].v < hi) {
      NoUser(s, owner, free, first, r, owner[p].v, p);
    }
  }

  lemma UndoneAlloc(pages0: seq<Page>, pages3: seq<Page>, pages4: seq<Page>, roots: set<nat>, owner0: map<nat, Use>,
                    owner3: map<nat, Use>, owner4: map<nat, Use>,
                    r: nat, mem: Option<nat>)
    requires forall q, w ::
               q in roots && q < NFRAMES && 0 <= w < ALLPAGES && |pages3| == |pages0| == NFRAMES ==>
                 Flat(pages3, q, w) == Flat(pages0, q, w)
    requires DataKept(pages0, pages3, owner0) && AddedHeld(owner0, owner3, r, 0, 0, mem) && |pages0| == NFRAMES
    requires if mem.Some? then
               && SameLookups(pages3, pages4, roots) && mem.value < |pages3|
               && pages4 == pages3[mem.value := JunkPage()] && owner4 == owner3 - {mem.value}
             else pages4 == pages3 && owner4 == owner3
    ensures && |pages4| == NFRAMES
            && forall q, w ::
                 q in roots && q < NFRAMES && 0 <= w < ALLPAGES ==> Flat(pages4, q, w) == Flat(pages0, q, w)
    ensures DataKept(pages0, pages4, owner0) && TablesGrew(owner0, owner4, r)
  {
    hide Lookup;
  }

  // --------------------------------------------------------------- copying an address space

  /** The contents and flags of the first n pages of r. */
  /** New pages have the flags and the contents wanted, in frames that were free. */
  lemma BatchFlags(pages: seq<Page>, owner: map<nat, Use>, owner0: map<nat, Use>, free0: seq<nat>, first: nat, r: nat,
                   lo: nat, hi: nat, want: seq<Want>, v: nat)
    requires Batch(pages, owner, owner0, r, lo, hi, want) && lo <= v < hi
    requires forall p :: p in owner ==> first <= p < NFRAMES && p != 0
    requires forall p :: p in free0 <==> first <= p < NFRAMES && p != 0 && p !in owner0
    ensures v < ALLPAGES && v < lo + |want|
    ensures var e := Lookup(pages, r, v);
            && Present(e) && e.flags / 2 == want[v - lo].flags / 2 && e.ppn in free0 && e.ppn < NFRAMES
            && pages[e.ppn] == want[v - lo].page
  {
    hide Lookup, Mapped;
    assert BatchPage(pages, owner, owner0, r, lo, v, want);
  }

  lemma AllocFlags(pages: seq<Page>, owner: map<nat, Use>, owner0: map<nat, Use>, free0: seq<nat>, first: nat, r: nat,
                   oldsz: nat, newsz: nat, want: seq<Want>)
    requires |pages| == NFRAMES && r < NFRAMES && PageUp(newsz) <= HEAPPAGES
    requires Batch(pages, owner, owner0, r, PageUp(oldsz), PageUp(newsz), want)
    requires forall k :: 0 <= k < |want| ==> want[k] == Want(USERFLAGS, ZeroPage())
    requires forall p :: p in owner ==> first <= p < NFRAMES && p != 0
    requires forall p :: p in free0 <==> first <= p < NFRAMES && p != 0 && p !in owner0
    ensures forall v: nat ::
              oldsz <= v * PGSIZE < newsz ==>
                && v < ALLPAGES && Lookup(pages, r, v).flags == 7 && Lookup(pages, r, v).ppn in free0
                && Lookup(pages, r, v).ppn < NFRAMES && pages[Lookup(pages, r, v).ppn] == ZeroPage()
  {
    hide Lookup, Batch, PageUp;
    forall v: nat | oldsz <= v * PGSIZE < newsz
      ensures && v < ALLPAGES && Lookup(pages, r, v).flags == 7 && Lookup(pages, r, v).ppn in free0
              && Lookup(pages, r, v).ppn < NFRAMES && pages[Lookup(pages, r, v).ppn] == ZeroPage()
    {
      BatchFlags(pages, owner, owner0, free0, first, r, PageUp(oldsz), PageUp(newsz), want, v);
    }
  }

  lemma CopiedFlags(s0: State, owner0: map<nat, Use>, free0: seq<nat>, first: nat, pages: seq<Page>,
                    owner: map<nat, Use>, r: nat, d: nat, sz: nat, hi: nat)
    requires && Owned(s0, owner0, free0, first) && NonZero(s0) && r in s0.roots && r < NFRAMES && hi == PageUp(sz)
             && |s0.pages| == |pages| == NFRAMES && d < NFRAMES
    requires hi <= HEAPPAGES && Batch(pages, owner, owner0, d, 0, hi, Copies(s0.pages, r, hi))
    requires forall p :: p in owner ==> first <= p < NFRAMES && p != 0
    requires forall v :: 0 <= v < hi ==> Present(Lookup(s0.pages, r, v))
    ensures forall v: nat ::
              v * PGSIZE < sz ==>
                && v < ALLPAGES && Lookup(pages, d, v).flags == Lookup(s0.pages, r, v).flags
                && Lookup(pages, d, v).ppn in free0 && Lookup(pages, d, v).ppn < NFRAMES
                && Lookup(s0.pages, r, v).ppn < NFRAMES
                && pages[Lookup(pages, d, v).ppn] == s0.pages[Lookup(s0.pages, r, v).ppn]
  {
    hide Lookup, Owned, Batch, Copies, PageUp;
    FreeIff(s0, owner0, free0, first);
    forall v: nat | v * PGSIZE < sz
      ensures && v < ALLPAGES && Lookup(pages, d, v).flags == Lookup(s0.pages, r, v).flags
              && Lookup(pages, d, v).ppn in free0 && Lookup(pages, d, v).ppn < NFRAMES
              && Lookup(s0.pages, r, v).ppn < NFRAMES
              && pages[Lookup(pages, d, v).ppn] == s0.pages[Lookup(s0.pages, r, v).ppn]
    {
      BatchFlags(pages, owner, owner0, free0, first, d, 0, hi, Copies(s0.pages, r, hi), v);
      CopyFrame(s0, owner0, free0, first, r, v);
      CopyAt(s0.pages, r, hi, v);
    }
  }

  lemma CopyAt(pages: seq<Page>, r: nat, n: nat, v: nat)
    requires |pages| == NFRAMES && r < NFRAMES && v < n <= ALLPAGES
    ensures Copies(pages, r, n)[v] == CopyOf(pages, r, v)
  {
  }

  ghost function Copies(pages: seq<Page>, r: nat, n: nat): (want: seq<Want>)
    requires |pages| == NFRAMES && r < NFRAMES && n <= ALLPAGES
    ensures |want| == n
  {
    seq(n, v requires 0 <= v < n => CopyOf(pages, r, v))
  }

  ghost function CopyOf(pages: seq<Page>, r: nat, v: nat): (w: Want)
    requires |pages| == NFRAMES && r < NFRAMES && v < ALLPAGES
  {
    var e := Lookup(pages, r, v);
    Want(e.flags, if e.ppn < NFRAMES then pages[e.ppn] else ZeroPage())
  }

  lemma CopySizes(sz: nat)
    requires sz <= HEAPLIMIT
    ensures PageUp(sz) <= HEAPPAGES
  {
  }

  /** While the copy is made the source reads as before, and the next page of the copy is not there yet. */
  lemma StillSource(s0: State, owner0: map<nat, Use>, free0: seq<nat>, first: nat, pages1: seq<Page>,
                    pages: seq<Page>, roots: set<nat>, owner1: map<nat, Use>,
                    r: nat, d: nat, v: nat, hi: nat, dataPa: nat)
    requires && r in s0.roots && d !in s0.roots && r < NFRAMES && d < NFRAMES && v < hi <= HEAPPAGES
             && roots == s0.roots + {d}
    requires SameLookups(s0.pages, pages1, s0.roots) && SameOutside(pages1, pages, roots, d, 0, v)
    requires forall w :: 0 <= w < ALLPAGES ==> Lookup(pages1, d, w) == KernelEntry(w, dataPa)
    ensures && |s0.pages| == |pages| == NFRAMES && Lookup(pages, r, v) == Lookup(s0.pages, r, v)
            && !Present(Lookup(pages, d, v))
  {
    hide Lookup;
  }

  lemma CopyFrame(s: State, owner: map<nat, Use>, free: seq<nat>, first: nat, r: nat, v: nat)
    requires && Owned(s, owner, free, first) && NonZero(s) && r in s.roots && r < NFRAMES && v < HEAPPAGES
             && |s.pages| == NFRAMES && Present(Lookup(s.pages, r, v))
    ensures var p := Lookup(s.pages, r, v).ppn; p < NFRAMES && p in owner && owner[p] == User(r, v)
    ensures CopyOf(s.pages, r, v) == Want(Lookup(s.pages, r, v).flags, s.pages[Lookup(s.pages, r, v).ppn])
  {
    hide Lookup;
    UserIsOwned(s, owner, free, first, r, v);
  }

  lemma CopyContents(pages0: seq<Page>, pages1: seq<Page>, pages: seq<Page>, owner0: map<nat, Use>,
                     owner1: map<nat, Use>, r: nat, d: nat, v: nat, p: nat)
    requires |pages0| == NFRAMES && p < NFRAMES && p in owner0 && owner0[p] == User(r, v)
    requires DataKept(pages0, pages1, owner0) && OwnerGrew(owner0, owner1, d) && DataKept(pages1, pages, owner1)
    ensures |pages| == NFRAMES && pages[p] == pages0[p]
  {
  }

  /** The page that could not be mapped is given back. */
  lemma DropHeld(pages1: seq<Page>, pages3: seq<Page>, pages4: seq<Page>, roots: set<nat>, owner1: map<nat, Use>,
                 owner3: map<nat, Use>, owner4: map<nat, Use>,
                 d: nat, v: nat, mem: Option<nat>)
    requires && DataKept(pages1, pages3, owner1) && SameOutside(pages1, pages3, roots, d, 0, v)
             && AddedHeld(owner1, owner3, d, 0, v, mem)
    requires if mem.Some? then
               && SameLookups(pages3, pages4, roots) && mem.value < |pages3|
               && pages4 == pages3[mem.value := JunkPage()] && owner4 == owner3 - {mem.value}
             else pages4 == pages3 && owner4 == owner3
    ensures && DataKept(pages1, pages4, owner1) && SameOutside(pages1, pages4, roots, d, 0, v)
            && Added(owner1, owner4, d, 0, v)
  {
    hide Lookup;
  }

  lemma GrewMore(pages0: seq<Page>, pages1: seq<Page>, pages: seq<Page>, roots0: set<nat>, roots: set<nat>,
                 owner0: map<nat, Use>, owner1: map<nat, Use>, owner: map<nat, Use>,
                 d: nat, v: nat)
    requires && d !in roots0 && roots == roots0 + {d} && SameLookups(pages0, pages1, roots0)
             && SameOutside(pages1, pages, roots, d, 0, v)
    requires && DataKept(pages0, pages1, owner0) && DataKept(pages1, pages, owner1) && OwnerGrew(owner0, owner1, d)
             && Added(owner1, owner, d, 0, v)
    ensures SameLookups(pages0, pages, roots0) && DataKept(pages0, pages, owner0) && OwnerGrew(owner0, owner, d)
  {
    hide Lookup;
  }

  lemma BatchOld(pages: seq<Page>, owner: map<nat, Use>, owner0: map<nat, Use>, owner1: map<nat, Use>, d: nat,
                 hi: nat, want: seq<Want>)
    requires Batch(pages, owner, owner1, d, 0, hi, want) && OwnerGrew(owner0, owner1, d)
    ensures Batch(pages, owner, owner0, d, 0, hi, want)
  {
    hide Lookup;
    forall v | 0 <= v < hi ensures BatchPage(pages, owner, owner0, d, 0, v, want) {
      assert BatchPage(pages, owner, owner1, d, 0, v, want);
    }
  }

  lemma KernelKept(pages1: seq<Page>, pages: seq<Page>, roots: set<nat>, d: nat, hi: nat, dataPa: nat)
    requires d in roots && d < NFRAMES && SameOutside(pages1, pages, roots, d, 0, hi)
    requires |pages1| == NFRAMES && forall w :: 0 <= w < ALLPAGES ==> Lookup(pages1, d, w) == KernelEntry(w, dataPa)
    ensures forall w :: hi <= w < ALLPAGES ==> Lookup(pages, d, w) == KernelEntry(w, dataPa)
  {
    hide Lookup, KernelEntry;
  }

  /** Changing an entry of the window changes nobody's pages. */
  lemma ClearWindow(s: State, owner: map<nat, Use>, free: seq<nat>, first: nat, r: nat, v: nat, e: Entry)
    requires && Owned(s, owner, free, first) && NonZero(s) && r in s.roots && HEAPPAGES <= v < ALLPAGES
             && Present(s.pages[r][v / NENTRIES])
    ensures var t := s.pages[r][v / NENTRIES].ppn;
            && t < NFRAMES && t in owner && owner[t].Table?
            && var s' := s.(pages := s.pages[t := s.pages[t][v % NENTRIES := e]]);
               Owned(s', owner, free, first) && NonZero(s') && LookupsBut(s.pages, s'.pages, s.roots, r, v, e)
  {
    hide Lookup, Val;
    TableWrite(s, owner, free, first, r, v / NENTRIES, v % NENTRIES, e);
    assert v / NENTRIES * NENTRIES + v % NENTRIES == v;
    var t := s.pages[r][v / NENTRIES].ppn;
    var s' := s.(pages := s.pages[t := s.pages[t][v % NENTRIES := e]]);
    OtherVals(s, s', r, v, e);
    Same(s, s', owner, free, first);
  }
}
