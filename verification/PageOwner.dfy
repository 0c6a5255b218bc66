/**
  Page frames and who uses them (vm.c, kalloc.c).  A page is 1024 words; a word is read as a page-table entry, a frame
  number and 12 flag bits.  Every frame that kalloc() manages is on the free list or has exactly one use: a page
  directory, a page table, a user page below HEAPLIMIT, or a page some kernel code holds.
 */
module PageOwner {
  import opened Common

  /** NPDENTRIES and NPTENTRIES */
  const NENTRIES: nat := 1024
  /** Frames below PHYSTOP. */
  const NFRAMES: nat := 0xE000
  /** Virtual pages below HEAPLIMIT, KERNBASE and 2^32. */
  const HEAPPAGES: nat := 0x7F000
  const KERNPAGES: nat := 0x80000
  const ALLPAGES: nat := 0x10_0000

  datatype Entry = Entry(ppn: nat, flags: nat)

  type Page = p: seq<Entry> | |p| == NENTRIES witness seq(NENTRIES, _ => Entry(0, 0))

  const NONE: Entry := Entry(0, 0)

  /** memset(v, 0, PGSIZE) */
  function ZeroPage(): (p: Page)
    ensures forall k :: 0 <= k < NENTRIES ==> p[k] == NONE
  {
    seq(NENTRIES, _ => NONE)
  }

  /** memset(v, 1, PGSIZE) */
  function JunkPage(): (p: Page)
    ensures forall k :: 0 <= k < NENTRIES ==> p[k].ppn * PGSIZE + p[k].flags == 0x0101_0101
  {
    seq(NENTRIES, _ => Entry(0x1010, 0x101))
  }

  /** PTE_P */
  predicate Present(e: Entry) {
    e.flags % 2 == 1
  }

  /** pa | perm | PTE_P */
  function Mapped(ppn: nat, flags: nat): (e: Entry)
    ensures Present(e) && e.ppn == ppn && e.flags / 2 == flags / 2
  {
    Entry(ppn, if flags % 2 == 1 then flags else flags + 1)
  }

  /** The entry of virtual page v in the two-level table r, NONE where there is no page table. */
  function Lookup(pages: seq<Page>, r: nat, v: nat): (e: Entry)
    requires r < |pages| && v < ALLPAGES
  {
    var pde := pages[r][v / NENTRIES];
    if Present(pde) && pde.ppn < |pages| then pages[pde.ppn][v % NENTRIES] else NONE
  }

  /** The flat page map a directory stands for. */
  function Flat(pages: seq<Page>, r: nat, v: nat): (e: Option<Entry>)
    requires r < |pages| && v < ALLPAGES
  {
    var e := Lookup(pages, r, v);
    if Present(e) then Some(e) else None
  }

  datatype Use = Dir(r: nat) | Table(r: nat, i: nat) | User(r: nat, v: nat) | Held(p: nat)

  /** The pages, the page directories in existence, and the pages that kernel code holds. */
  datatype State = State(pages: seq<Page>, roots: set<nat>, held: set<nat>)

  ghost predicate Shaped(s: State) {
    |s.pages| == NFRAMES && (forall r :: r in s.roots ==> 0 < r < NFRAMES) && 0 !in s.held
  }

  /** The frame a use takes up, 0 if the use does not exist. */
  ghost function Val(s: State, u: Use): (p: nat)
    requires Shaped(s)
  {
    match u
    case Dir(r) => if r in s.roots then r else 0
    case Table(r, i) => if r in s.roots && i < NENTRIES && Present(s.pages[r][i]) then s.pages[r][i].ppn else 0
    case User(r, v) =>
      if r in s.roots && v < HEAPPAGES && Present(Lookup(s.pages, r, v)) then Lookup(s.pages, r, v).ppn else 0
    case Held(p) => if p in s.held then p else 0
  }

  ghost predicate UseOk(s: State, owner: map<nat, Use>, u: Use)
    requires Shaped(s)
  {
    Val(s, u) != 0 ==> Val(s, u) in owner && owner[Val(s, u)] == u
  }

  ghost predicate FrameOk(s: State, owner: map<nat, Use>, first: nat, p: nat)
    requires Shaped(s) && p in owner
  {
    first <= p < NFRAMES && p != 0 && Val(s, owner[p]) == p
  }

  /** Frames from first on are free, once, or in use, once. */
  ghost predicate Owned(s: State, owner: map<nat, Use>, free: seq<nat>, first: nat) {
    && Shaped(s)
    && (forall u :: UseOk(s, owner, u))
    && (forall p :: p in owner ==> FrameOk(s, owner, first, p))
    && (forall i :: 0 <= i < |free| ==> first <= free[i] < NFRAMES && free[i] != 0 && free[i] !in owner)
    && (forall i, j :: 0 <= i < j < |free| ==> free[i] != free[j])
    && (forall p :: first <= p < NFRAMES && p != 0 ==> p in owner || p in free)
  }

  // --------------------------------------------------------------- one frame changes hands

  ghost predicate SameVal(s: State, s': State, u: Use)
    requires Shaped(s) && Shaped(s')
  {
    Val(s', u) == Val(s, u)
  }

  /** A free frame is put to use u. */
  lemma Take(s: State, s': State, owner: map<nat, Use>, free: seq<nat>, first: nat, u: Use)
    requires Owned(s, owner, free, first) && Shaped(s') && free != []
    requires Val(s, u) == 0 && Val(s', u) == free[0] && forall t :: t != u ==> SameVal(s, s', t)
    ensures Owned(s', owner[free[0] := u], free[1..], first)
  {
    hide Val;
    var p, owner' := free[0], owner[free[0] := u];
    forall t ensures UseOk(s', owner', t) {
      assert UseOk(s, owner, t);
      assert t != u ==> SameVal(s, s', t);
    }
    forall q | q in owner' ensures FrameOk(s', owner', first, q) {
      if q != p {
        assert FrameOk(s, owner, first, q);
        assert owner[q] != u ==> SameVal(s, s', owner[q]);
      }
    }
  }

  /** A frame goes from one use to another. */
  lemma Move(s: State, s': State, owner: map<nat, Use>, free: seq<nat>, first: nat, u: Use, u': Use)
    requires Owned(s, owner, free, first) && Shaped(s') && u != u'
    requires Val(s, u) != 0 && Val(s', u) == 0 && Val(s, u') == 0 && Val(s', u') == Val(s, u)
    requires forall t :: t != u && t != u' ==> SameVal(s, s', t)
    ensures Owned(s', owner[Val(s, u) := u'], free, first)
  {
    hide Val;
    var p := Val(s, u);
    var owner' := owner[p := u'];
    assert UseOk(s, owner, u);
    forall t ensures UseOk(s', owner', t) {
      assert UseOk(s, owner, t);
      assert t != u && t != u' ==> SameVal(s, s', t);
    }
    forall q | q in owner' ensures FrameOk(s', owner', first, q) {
      assert FrameOk(s, owner, first, p);
      if q != p {
        assert FrameOk(s, owner, first, q);
        assert owner[q] != u && owner[q] != u' ==> SameVal(s, s', owner[q]);
      }
    }
  }

  /** A frame in use u goes back to the free list. */
  lemma Give(s: State, s': State, owner: map<nat, Use>, free: seq<nat>, first: nat, u: Use)
    requires Owned(s, owner, free, first) && Shaped(s')
    requires Val(s, u) != 0 && Val(s', u) == 0 && forall t :: t != u ==> SameVal(s, s', t)
    ensures Owned(s', owner - {Val(s, u)}, [Val(s, u)] + free, first)
  {
    hide Val;
    var p := Val(s, u);
    var owner' := owner - {p};
    assert UseOk(s, owner, u) && FrameOk(s, owner, first, p);
    forall t ensures UseOk(s', owner', t) {
      assert UseOk(s, owner, t);
      assert t != u ==> SameVal(s, s', t);
    }
    forall q | q in owner' ensures FrameOk(s', owner', first, q) {
      assert FrameOk(s, owner, first, q);
      assert owner[q] != u ==> SameVal(s, s', owner[q]);
    }
  }

  /** Nothing changes hands. */
  lemma Same(s: State, s': State, owner: map<nat, Use>, free: seq<nat>, first: nat)
    requires Owned(s, owner, free, first) && Shaped(s') && forall t :: SameVal(s, s', t)
    ensures Owned(s', owner, free, first)
  {
    hide Val;
    forall t ensures UseOk(s', owner, t) {
      assert UseOk(s, owner, t) && SameVal(s, s', t);
    }
    forall q | q in owner ensures FrameOk(s', owner, first, q) {
      assert FrameOk(s, owner, first, q) && SameVal(s, s', owner[q]);
    }
  }

  // --------------------------------------------------------------- where entries are read

  /** A present directory entry leads to a page table of that directory. */
  lemma TableIsOwned(s: State, owner: map<nat, Use>, free: seq<nat>, first: nat, r: nat, i: nat)
    requires && Owned(s, owner, free, first) && r in s.roots && i < NENTRIES && Present(s.pages[r][i])
             && s.pages[r][i].ppn != 0
    ensures var t := s.pages[r][i].ppn; first <= t < NFRAMES && t in owner && owner[t] == Table(r, i)
  {
    assert UseOk(s, owner, Table(r, i));
    assert FrameOk(s, owner, first, s.pages[r][i].ppn);
  }

  lemma RootIsOwned(s: State, owner: map<nat, Use>, free: seq<nat>, first: nat, r: nat)
    requires Owned(s, owner, free, first) && r in s.roots
    ensures first <= r < NFRAMES && r in owner && owner[r] == Dir(r)
  {
    assert UseOk(s, owner, Dir(r));
    assert FrameOk(s, owner, first, r);
  }

  /** Present entries of directories and of user pages have a frame. */
  ghost predicate NonZero(s: State)
    requires Shaped(s)
  {
    && (forall r, i :: r in s.roots && 0 <= i < NENTRIES && Present(s.pages[r][i]) ==> s.pages[r][i].ppn != 0)
    && (forall r, v ::
          r in s.roots && 0 <= v < HEAPPAGES && Present(Lookup(s.pages, r, v)) ==> Lookup(s.pages, r, v).ppn != 0)
  }

  // --------------------------------------------------------------- effects on the two-level tables

  /** Directories keep their contents and every entry is read as before. */
  ghost predicate SameTables(s: State, s': State)
    requires Shaped(s) && Shaped(s')
  {
    && s'.roots == s.roots
    && (forall r :: r in s.roots ==> s'.pages[r] == s.pages[r])
    && (forall r, v :: r in s.roots && 0 <= v < ALLPAGES ==> Lookup(s'.pages, r, v) == Lookup(s.pages, r, v))
  }

  /** A page that is neither directory nor page table can be overwritten. */
  lemma DataWrite(s: State, owner: map<nat, Use>, free: seq<nat>, first: nat, p: nat, page: Page)
    requires && Owned(s, owner, free, first) && NonZero(s) && p < NFRAMES
             && (p in owner ==> owner[p].User? || owner[p].Held?)
    ensures SameTables(s, s.(pages := s.pages[p := page]))
  {
    var s' := s.(pages := s.pages[p := page]);
    forall r | r in s.roots ensures s'.pages[r] == s.pages[r] {
      RootIsOwned(s, owner, free, first, r);
    }
    forall r, v | r in s.roots && 0 <= v < ALLPAGES ensures Lookup(s'.pages, r, v) == Lookup(s.pages, r, v) {
      RootIsOwned(s, owner, free, first, r);
      if Present(s.pages[r][v / NENTRIES]) {
        TableIsOwned(s, owner, free, first, r, v / NENTRIES);
      }
    }
  }

  lemma SameTablesVal(s: State, s': State, u: Use)
    requires Shaped(s) && Shaped(s') && SameTables(s, s') && (u.Held? ==> s'.held == s.held)
    ensures SameVal(s, s', u)
  {
    hide Lookup;
  }

  lemma SameTablesNonZero(s: State, s': State)
    requires Shaped(s) && Shaped(s') && SameTables(s, s') && NonZero(s)
    ensures NonZero(s')
  {
    hide Lookup;
  }

  /** Writing entry k of the table of directory entry (r, i) changes what virtual page i * 1024 + k of r reads, and
      nothing else. */
  lemma TableWrite(s: State, owner: map<nat, Use>, free: seq<nat>, first: nat, r: nat, i: nat, k: nat, e: Entry)
    requires && Owned(s, owner, free, first) && NonZero(s) && r in s.roots && i < NENTRIES && k < NENTRIES
             && Present(s.pages[r][i])
    ensures var t := s.pages[r][i].ppn;
            && t < NFRAMES && t in owner && owner[t] == Table(r, i)
            && var s' := s.(pages := s.pages[t := s.pages[t][k := e]]);
               && Shaped(s') && (forall q :: q in s.roots ==> s'.pages[q] == s.pages[q])
               && forall q, v :: q in s.roots && 0 <= v < ALLPAGES ==>
                    Lookup(s'.pages, q, v) == if q == r && v == i * NENTRIES + k then e else Lookup(s.pages, q, v)
  {
    TableIsOwned(s, owner, free, first, r, i);
    var t := s.pages[r][i].ppn;
    var s' := s.(pages := s.pages[t := s.pages[t][k := e]]);
    forall q | q in s.roots ensures s'.pages[q] == s.pages[q] {
      RootIsOwned(s, owner, free, first, q);
    }
    forall q, v | q in s.roots && 0 <= v < ALLPAGES
      ensures Lookup(s'.pages, q, v) == if q == r && v == i * NENTRIES + k then e else Lookup(s.pages, q, v)
    {
      RootIsOwned(s, owner, free, first, q);
      if Present(s.pages[q][v / NENTRIES]) {
        TableIsOwned(s, owner, free, first, q, v / NENTRIES);
      }
      SplitPage(v, i, k);
    }
  }

  lemma SplitPage(v: nat, i: nat, k: nat)
    requires k < NENTRIES
    ensures v == i * NENTRIES + k <==> v / NENTRIES == i && v % NENTRIES == k
  {
  }

  /** A zeroed page as the table of an absent directory entry: every entry is read as before. */
  lemma NewTable(s: State, owner: map<nat, Use>, free: seq<nat>, first: nat, r: nat, i: nat, p: nat, flags: nat)
    requires Owned(s, owner, free, first) && NonZero(s) && r in s.roots && i < NENTRIES && !Present(s.pages[r][i])
    requires 0 < p < NFRAMES && (p in owner ==> owner[p].Held?)
    ensures var s' := s.(pages := s.pages[p := ZeroPage()][r := s.pages[r][i := Mapped(p, flags)]]);
            && Shaped(s') && r != p && (forall q :: q in s.roots && q != r ==> s'.pages[q] == s.pages[q])
            && s'.pages[r] == s.pages[r][i := Mapped(p, flags)]
            && forall q, v :: q in s.roots && 0 <= v < ALLPAGES ==> Lookup(s'.pages, q, v) == Lookup(s.pages, q, v)
  {
    var s' := s.(pages := s.pages[p := ZeroPage()][r := s.pages[r][i := Mapped(p, flags)]]);
    RootIsOwned(s, owner, free, first, r);
    forall q | q in s.roots && q != r ensures s'.pages[q] == s.pages[q] {
      RootIsOwned(s, owner, free, first, q);
    }
    forall q, v | q in s.roots && 0 <= v < ALLPAGES ensures Lookup(s'.pages, q, v) == Lookup(s.pages, q, v) {
      RootIsOwned(s, owner, free, first, q);
      if Present(s.pages[q][v / NENTRIES]) {
        TableIsOwned(s, owner, free, first, q, v / NENTRIES);
      }
    }
  }
}
