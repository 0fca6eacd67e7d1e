/** Address spaces: page tables and lists of regions, and what has to hold between the two. */
module Spaces {
  import opened Prelude
  import opened Sv39
  import opened Memory
  import FrameLists
  import opened PhysMemory
  import opened PageTables
  import opened Framed
  import opened UserMemory

  const USER_RW: Flags := NO_FLAGS.(read := true, write := true, user := true)

  /** A run of user pages `[first, last)` sharing permissions, each page backed by a frame the region owns. */
  datatype Region = Region(first: nat, last: nat, perm: Flags, frames: map<nat, nat>)

  function RegionPages(r: Region): (m: PageMap)
    ensures m.Keys == r.frames.Keys
  {
    map v | v in r.frames :: Pte(r.frames[v], Present(r.perm))
  }

  /** The pages of all regions. */
  function AllPages(rs: seq<Region>): PageMap {
    if rs == [] then map[] else AllPages(rs[..|rs| - 1]) + RegionPages(rs[|rs| - 1])
  }

  /** The frames the regions own. */
  ghost function DataFrames(rs: seq<Region>): set<nat> {
    FramesOf(AllPages(rs))
  }

  ghost predicate RegionsOk(rs: seq<Region>) {
    && (forall i | 0 <= i < |rs| :: rs[i].frames.Keys == PageRange(rs[i].first, rs[i].last) && rs[i].last <= USER_PAGES)
    && (forall i, j | 0 <= i < j < |rs| :: rs[i].frames.Keys !! rs[j].frames.Keys)
  }

  /** Frames in use by nobody else. */
  ghost predicate Apart(s: Snapshot, data: set<nat>) {
    data <= s.tables.Keys && data !! s.free && data !! s.node.Values && data !! s.shared
  }

  /** What is true of a space at all times: every page of every region is mapped as the region says, to a frame
      that backs no other page. */
  ghost predicate Holds(s: Snapshot, rs: seq<Region>) {
    && SnapOk(s) && NoSupers(s) && s.lim >= UPPER_HALF && s.bytes.Keys == s.tables.Keys && s.free <= s.tables.Keys
    && RegionsOk(rs) && OneToOne(AllPages(rs)) && Apart(s, DataFrames(rs))
    && Backed(s.bytes, UserPages(s.tables, s.root))
    && (forall v | v in AllPages(rs) :: Translate(s.tables, s.root, v) == Some(AllPages(rs)[v]))
  }

  /** The table maps no user page but those of the regions. */
  ghost predicate Agrees(s: Snapshot, rs: seq<Region>) {
    UserPages(s.tables, s.root) == AllPages(rs)
  }

  /** Every page mapped before is mapped the same way. */
  ghost predicate Extends(before: PageMap, after: PageMap) {
    forall v | v in before :: v in after && after[v] == before[v]
  }

  // ---- regions and their pages -----------------------------------------------------------

  lemma AddRegion(rs: seq<Region>, r: Region)
    ensures AllPages(rs + [r]) == AllPages(rs) + RegionPages(r)
  {
    assert (rs + [r])[..|rs + [r]| - 1] == rs;
  }

  lemma {:induction false} PagesFromRegions(rs: seq<Region>, v: nat)
    ensures v in AllPages(rs) <==> exists i :: 0 <= i < |rs| && v in rs[i].frames
    ensures RegionsOk(rs) ==>
              forall i | 0 <= i < |rs| && v in rs[i].frames ::
                  AllPages(rs)[v] == Pte(rs[i].frames[v], Present(rs[i].perm))
  {
    PageKeys(rs, v);
    forall i | 0 <= i < |rs| && v in rs[i].frames
      ensures RegionsOk(rs) ==> AllPages(rs)[v] == Pte(rs[i].frames[v], Present(rs[i].perm))
    {
      if RegionsOk(rs) { PageEntry(rs, i, v); }
    }
  }

  lemma {:induction false} PageKeys(rs: seq<Region>, v: nat)
    ensures v in AllPages(rs) <==> exists i :: 0 <= i < |rs| && v in rs[i].frames
  {
    if rs != [] {
      var front, r := rs[..|rs| - 1], rs[|rs| - 1];
      PageKeys(front, v);
      if i :| 0 <= i < |front| && v in front[i].frames { assert v in rs[i].frames; }
      if i :| 0 <= i < |rs| && v in rs[i].frames { assert i < |front| ==> v in front[i].frames; }
    }
  }

  lemma {:induction false} PageEntry(rs: seq<Region>, i: nat, v: nat)
    requires RegionsOk(rs) && i < |rs| && v in rs[i].frames
    ensures v in AllPages(rs) && AllPages(rs)[v] == Pte(rs[i].frames[v], Present(rs[i].perm))
  {
    var front := rs[..|rs| - 1];
    if i < |front| {
      PageEntry(front, i, v);
      assert rs[i].frames.Keys !! rs[|rs| - 1].frames.Keys;
    }
  }

  /** A user page translates exactly if some region contains it, then only that one does, and it translates to the
      frame that region owns, with that region's permissions; no frame backs two pages. */
  lemma RegionsDecide(s: Snapshot, rs: seq<Region>, v: nat)
    requires Holds(s, rs) && Agrees(s, rs) && UserPage(v)
    ensures Translate(s.tables, s.root, v).Some? <==> exists i :: 0 <= i < |rs| && rs[i].first <= v < rs[i].last
    ensures forall i, j | 0 <= i < |rs| && 0 <= j < |rs| && rs[i].first <= v < rs[i].last
              && rs[j].first <= v < rs[j].last :: i == j
    ensures forall i | 0 <= i < |rs| && rs[i].first <= v < rs[i].last ::
              v in rs[i].frames && Translate(s.tables, s.root, v) == Some(Pte(rs[i].frames[v], Present(rs[i].perm)))
    ensures forall w | UserPage(w) && Translate(s.tables, s.root, v).Some? && Translate(s.tables, s.root, w).Some?
                       && Translate(s.tables, s.root, v).value.ppn == Translate(s.tables, s.root, w).value.ppn :: v == w
  {
    hide SnapOk, NoSupers, Apart, Translate;
    PagesFromRegions(rs, v);
    forall i | 0 <= i < |rs| ensures v in rs[i].frames <==> rs[i].first <= v < rs[i].last {
      assert v in rs[i].frames.Keys <==> v in PageRange(rs[i].first, rs[i].last);
    }
  }

  // ---- adding a region ---------------------------------------------------------------------

  lemma NewFrames(rs: seq<Region>, r: Region)
    requires AllPages(rs).Keys !! r.frames.Keys
    ensures DataFrames(rs + [r]) == DataFrames(rs) + r.frames.Values
  {
    AddRegion(rs, r);
    var pages, all := AllPages(rs), AllPages(rs + [r]);
    forall f | f in DataFrames(rs) + r.frames.Values ensures f in DataFrames(rs + [r]) {
      if f in r.frames.Values {
        var v :| v in r.frames && r.frames[v] == f;
        assert all[v].ppn == f;
      } else {
        var v :| v in pages && pages[v].ppn == f;
        assert all[v].ppn == f;
      }
    }
    forall f | f in DataFrames(rs + [r]) ensures f in DataFrames(rs) + r.frames.Values {
      var v :| v in all && all[v].ppn == f;
      if v in r.frames { assert r.frames[v] == f; } else { assert pages[v].ppn == f; }
    }
  }

  lemma NewOneToOne(rs: seq<Region>, r: Region)
    requires OneToOne(AllPages(rs)) && OneToOneFrames(r.frames) && DataFrames(rs) !! r.frames.Values
    ensures OneToOne(AllPages(rs + [r]))
  {
    AddRegion(rs, r);
    var pages, all := AllPages(rs), AllPages(rs + [r]);
    forall v, w | v in all && w in all && all[v].ppn == all[w].ppn ensures v == w {
      assert v in r.frames ==> r.frames[v] in r.frames.Values;
      assert w in r.frames ==> r.frames[w] in r.frames.Values;
      assert v in pages ==> pages[v].ppn in DataFrames(rs);
      assert w in pages ==> pages[w].ppn in DataFrames(rs);
    }
  }

  lemma NewRegionsOk(rs: seq<Region>, r: Region)
    requires RegionsOk(rs) && AllPages(rs).Keys !! r.frames.Keys
    requires r.frames.Keys == PageRange(r.first, r.last) && r.last <= USER_PAGES
    ensures RegionsOk(rs + [r])
  {
    var all := rs + [r];
    forall i, j | 0 <= i < j < |all| ensures all[i].frames.Keys !! all[j].frames.Keys {
      if j == |rs| {
        forall v | v in all[i].frames.Keys ensures v !in r.frames.Keys {
          PagesFromRegions(rs, v);
        }
      }
    }
  }

  /** What mapping a framed region changes in the map of user pages. */
  lemma FramedPages(a: Tables, b: Tables, root: nat, r: Region)
    requires FramedView(a, b, root, r.frames, r.perm) && forall v | v in r.frames :: UserPage(v)
    ensures UserPages(b, root) == UserPages(a, root) + RegionPages(r)
  {
    hide Translate;
    var pa, pb := UserPages(a, root), UserPages(b, root);
    forall v: nat ensures v in pb <==> v in pa + RegionPages(r) { assert UserPage(v) ==> Canonical(v); }
    forall v | v in pb ensures pb[v] == (pa + RegionPages(r))[v] { assert Canonical(v); }
  }

  /** After the pages of a new region were mapped, whether or not all of them were: the old regions still hold,
      and they do with the frames of the new pages given back. */
  lemma OldRegionsHold(a: Snapshot, b: Snapshot, rs: seq<Region>, r: Region)
    requires Holds(a, rs) && SnapOk(b) && NoSupers(b) && b.bytes.Keys == b.tables.Keys
    requires Grew(a, b, r.frames.Values) && FramedView(a.tables, b.tables, a.root, r.frames, r.perm)
    requires forall v | v in r.frames :: UserPage(v) && Translate(a.tables, a.root, v).None?
    ensures b.root == a.root && b.lim == a.lim
    ensures AllPages(rs).Keys !! r.frames.Keys && DataFrames(rs) !! r.frames.Values
    ensures r.frames.Values <= a.free && Apart(b, DataFrames(rs) + r.frames.Values)
    ensures UserPages(b.tables, b.root) == UserPages(a.tables, a.root) + RegionPages(r)
    ensures Backed(b.bytes, UserPages(b.tables, b.root))
    ensures forall v | v in AllPages(rs) :: Translate(b.tables, b.root, v) == Some(AllPages(rs)[v])
  {
    hide NoSupers, Translate, OneToOne, TableOk;
    FramedPages(a.tables, b.tables, a.root, r);
    var pa, pb := UserPages(a.tables, a.root), UserPages(b.tables, b.root);
    assert r.frames.Values <= a.free && a.free !! a.shared by { FreeInMemory(a, r.frames.Values, b); }
    forall v | v in pb ensures pb[v].ppn in b.bytes {
      if v in r.frames { assert r.frames[v] in r.frames.Values; }
    }
    forall v | v in AllPages(rs) ensures v !in r.frames && Translate(b.tables, b.root, v) == Some(AllPages(rs)[v]) {
      PagesFromRegions(rs, v);
      assert v in pa && pa[v] == AllPages(rs)[v] by { UserPageOf(rs, v); }
      assert v in pb && pb[v] == pa[v];
    }
  }

  lemma UserPageOf(rs: seq<Region>, v: nat)
    requires RegionsOk(rs) && v in AllPages(rs)
    ensures UserPage(v)
  {
    PagesFromRegions(rs, v);
    var i :| 0 <= i < |rs| && v in rs[i].frames;
    assert v in rs[i].frames.Keys;
  }

  lemma FreeInMemory(a: Snapshot, taken: set<nat>, b: Snapshot)
    requires SnapOk(a) && Grew(a, b, taken)
    ensures taken <= a.free && a.free !! a.shared
  {
  }

  /** The frames that are a space's own or nobody's. */
  ghost function Mine(s: Snapshot, rs: seq<Region>): set<nat> {
    s.free + s.node.Values + DataFrames(rs)
  }

  /** What an operation on one space may do to the machine: write its own tables and frames and free ones, never
      the upper half of its root; and no frame gets lost. */
  ghost predicate Local(a: Snapshot, ra: seq<Region>, b: Snapshot, rb: seq<Region>) {
    && b.root == a.root && b.lim == a.lim && b.shared == a.shared && a.root in a.tables && a.root in b.tables
    && (forall i: nat | a.lim <= i < PTE_PER_TABLE :: b.tables[a.root][i] == a.tables[a.root][i])
    && TablesWithin(a.tables, b.tables, Mine(a, ra)) && BytesWithin(a.bytes, b.bytes, Mine(a, ra))
    && Mine(b, rb) == Mine(a, ra)
  }

  lemma GrewIsLocal(a: Snapshot, ra: seq<Region>, b: Snapshot, rb: seq<Region>, taken: set<nat>)
    requires Grew(a, b, taken) && DataFrames(rb) == DataFrames(ra) + taken
    ensures Local(a, ra, b, rb)
  {
    hide DataFrames;
  }

  /** All pages of a new region were mapped. */
  lemma PushOk(a: Snapshot, b: Snapshot, rs: seq<Region>, r: Region)
    requires Holds(a, rs) && SnapOk(b) && NoSupers(b) && b.bytes.Keys == b.tables.Keys && b.free <= b.tables.Keys
    requires Grew(a, b, r.frames.Values) && FramedView(a.tables, b.tables, a.root, r.frames, r.perm)
    requires OneToOneFrames(r.frames)
    requires r.frames.Keys == PageRange(r.first, r.last) && r.last <= USER_PAGES
    requires forall v | v in r.frames :: Translate(a.tables, a.root, v).None?
    ensures Holds(b, rs + [r]) && Local(a, rs, b, rs + [r])
    ensures UserPages(b.tables, b.root) == UserPages(a.tables, a.root) + RegionPages(r)
    ensures Agrees(a, rs) ==> Agrees(b, rs + [r])
  {
    hide *;
    HoldsParts(a, rs);
    assert forall v | v in r.frames :: v in r.frames.Keys;
    assert forall v: nat | v < USER_PAGES :: UserPage(v) by { UserBound(); }
    OldRegionsHold(a, b, rs, r);
    NewFrames(rs, r);
    NewOneToOne(rs, r);
    NewRegionsOk(rs, r);
    GrewIsLocal(a, rs, b, rs + [r], r.frames.Values);
    AddRegion(rs, r);
    AddedPages(a, b, rs, r);
    HoldsIntro(b, rs + [r]);
    assert Agrees(a, rs) ==> Agrees(b, rs + [r]) by { AgreesUnfold(a, rs); AgreesUnfold(b, rs + [r]); }
  }

  lemma AgreesUnfold(s: Snapshot, rs: seq<Region>)
    ensures Agrees(s, rs) <==> UserPages(s.tables, s.root) == AllPages(rs)
  {
  }

  lemma UserBound()
    ensures 0 < USER_MAX_ADDR
    ensures forall v: nat | v < USER_PAGES :: UserPage(v)
  {
  }

  lemma HoldsParts(s: Snapshot, rs: seq<Region>)
    requires Holds(s, rs)
    ensures RegionsOk(rs) && OneToOne(AllPages(rs)) && s.lim >= UPPER_HALF && SnapOk(s) && NoSupers(s)
    ensures s.bytes.Keys == s.tables.Keys && s.free <= s.tables.Keys && Apart(s, DataFrames(rs))
    ensures Backed(s.bytes, UserPages(s.tables, s.root))
  {
  }

  lemma HoldsIntro(s: Snapshot, rs: seq<Region>)
    requires SnapOk(s) && NoSupers(s) && s.lim >= UPPER_HALF && s.bytes.Keys == s.tables.Keys && s.free <= s.tables.Keys
    requires RegionsOk(rs) && OneToOne(AllPages(rs)) && Apart(s, DataFrames(rs))
    requires Backed(s.bytes, UserPages(s.tables, s.root))
    requires forall v | v in AllPages(rs) :: Translate(s.tables, s.root, v) == Some(AllPages(rs)[v])
    ensures Holds(s, rs)
  {
  }

  /** A table none of whose frames were written, nor given away. */
  ghost predicate Untouched(s: Snapshot, s': Snapshot) {
    && s' == s.(tables := s'.tables, bytes := s'.bytes, free := s'.free) && s'.tables.Keys == s.tables.Keys
    && (forall f | f in s.tables && (f in s.node.Values || f in s.shared) :: s'.tables[f] == s.tables[f])
    && s'.free !! s.node.Values && s'.free !! s.shared
  }

  /** A space keeps all its promises while others work with frames that are not its own. */
  lemma HoldsElsewhere(s: Snapshot, s': Snapshot, rs: seq<Region>)
    requires Holds(s, rs) && Untouched(s, s') && s'.bytes.Keys == s'.tables.Keys && s'.free <= s'.tables.Keys
    requires s'.free !! DataFrames(rs)
    ensures Holds(s', rs) && SameViews(s.tables, s'.tables, s.root)
    ensures UserPages(s'.tables, s'.root) == UserPages(s.tables, s.root)
  {
    OtherTable(s, s');
    assert SnapOk(s') && NoSupers(s') by { hide NoLeafAbove; }
    hide SnapOk, NoSupers, HwWalk, Translate;
    var p, p' := UserPages(s.tables, s.root), UserPages(s'.tables, s'.root);
    assert p == p';
  }

  /** No page that the kernel would write for the process maps a table of this space or of the kernel. */
  ghost predicate SealedOff(s: Snapshot) {
    var frames := WritableFrames(UserPages(s.tables, s.root));
    frames !! s.node.Values && frames !! s.shared
  }

  /** A space in agreement with its table is sealed: its user pages are the frames of its regions. */
  lemma AgreesSealed(s: Snapshot, rs: seq<Region>)
    requires Holds(s, rs) && Agrees(s, rs)
    ensures SealedOff(s) && FramesOf(UserPages(s.tables, s.root)) == DataFrames(rs)
  {
    hide SnapOk, NoSupers, RegionsOk, OneToOne, Backed, UserPages, AllPages;
    WritableAreFrames(UserPages(s.tables, s.root));
  }

  lemma WritableAreFrames(pages: PageMap)
    ensures WritableFrames(pages) <= FramesOf(pages)
  {
  }

  /** Frames that are no tables of this space were written. */
  lemma FramesWritten(a: Snapshot, b: Snapshot, rs: seq<Region>, may: set<nat>)
    requires Holds(a, rs) && b == a.(tables := b.tables, bytes := b.bytes)
    requires TablesWithin(a.tables, b.tables, may) && BytesWithin(a.bytes, b.bytes, may)
    requires may !! a.node.Values && may !! a.shared
    ensures Holds(b, rs) && UserPages(b.tables, b.root) == UserPages(a.tables, a.root)
    ensures Agrees(a, rs) ==> Agrees(b, rs)
    ensures SealedOff(a) ==> SealedOff(b)
  {
    HoldsParts(a, rs);
    assert Untouched(a, b) by { FreeApart(a); }
    hide Holds, UserPages;
    HoldsElsewhere(a, b, rs);
  }

  lemma FreeApart(a: Snapshot)
    requires SnapOk(a)
    ensures a.free !! a.node.Values && a.free !! a.shared
  {
  }

  /** In a sealed space no write into user pages can change what they map. */
  lemma SealedStable(s: Snapshot)
    requires SnapOk(s) && SealedOff(s) && s.tables == Decoded(s.bytes)
    ensures Stable(s.bytes, s.root, UserPages(s.tables, s.root))
  {
    var pages := UserPages(s.tables, s.root);
    forall b: Bytes | BytesWithin(s.bytes, b, WritableFrames(pages)) ensures UserPages(Decoded(b), s.root) == pages {
      DecodedWithin(s.bytes, b, WritableFrames(pages));
      WrittenPages(s, b);
    }
  }

  lemma WrittenPages(s: Snapshot, b: Bytes)
    requires SnapOk(s) && SealedOff(s)
    requires TablesWithin(s.tables, Decoded(b), WritableFrames(UserPages(s.tables, s.root)))
    ensures UserPages(Decoded(b), s.root) == UserPages(s.tables, s.root)
  {
    hide Decoded, Booked;
    FreeApart(s);
    OtherTable(s, s.(tables := Decoded(b)));
    hide SnapOk, HwWalk, Translate;
    assert UserPages(Decoded(b), s.root) == UserPages(s.tables, s.root);
  }

  lemma AddedPages(a: Snapshot, b: Snapshot, rs: seq<Region>, r: Region)
    requires AllPages(rs + [r]) == AllPages(rs) + RegionPages(r)
    requires UserPages(b.tables, b.root) == UserPages(a.tables, a.root) + RegionPages(r)
    requires forall v | v in AllPages(rs) :: Translate(b.tables, b.root, v) == Some(AllPages(rs)[v])
    ensures forall v | v in AllPages(rs + [r]) :: Translate(b.tables, b.root, v) == Some(AllPages(rs + [r])[v])
  {
    hide Translate, AllPages;
    var pb, all := UserPages(b.tables, b.root), AllPages(rs + [r]);
    forall v | v in all ensures Translate(b.tables, b.root, v) == Some(all[v]) {
      if v in r.frames { assert v in pb && pb[v] == all[v]; }
    }
  }

  /** A space does not care what the allocator writes into free frames. */
  lemma Reshuffled(a: Snapshot, b: Snapshot, c: Snapshot, rs: seq<Region>)
    requires Holds(b, rs) && Local(a, rs, b, rs) && Grew(a, b, {})
    requires c == b.(tables := c.tables, bytes := c.bytes)
    requires TablesWithin(b.tables, c.tables, b.free) && BytesWithin(b.bytes, c.bytes, b.free)
    ensures Holds(c, rs) && Local(a, rs, c, rs) && Grew(a, c, {})
    ensures UserPages(c.tables, c.root) == UserPages(b.tables, b.root) && (Agrees(c, rs) <==> Agrees(b, rs))
  {
    hide *;
    AgreesUnfold(b, rs);
    AgreesUnfold(c, rs);
    HoldsParts(b, rs);
    FreeApart(b);
    ShuffledUntouched(b, c);
    ApartFree(b, rs);
    HoldsElsewhere(b, c, rs);
    ShuffledLocal(a, b, c, rs);
  }

  lemma ApartFree(s: Snapshot, rs: seq<Region>)
    requires Apart(s, DataFrames(rs))
    ensures DataFrames(rs) !! s.free
  {
    hide DataFrames;
  }

  lemma ShuffledUntouched(b: Snapshot, c: Snapshot)
    requires b.free !! b.node.Values && b.free !! b.shared && c == b.(tables := c.tables, bytes := c.bytes)
    requires TablesWithin(b.tables, c.tables, b.free) && BytesWithin(b.bytes, c.bytes, b.free)
    ensures Untouched(b, c) && c.tables.Keys == b.tables.Keys && c.bytes.Keys == b.bytes.Keys
  {
  }

  lemma ShuffledLocal(a: Snapshot, b: Snapshot, c: Snapshot, rs: seq<Region>)
    requires Local(a, rs, b, rs) && Grew(a, b, {}) && c == b.(tables := c.tables, bytes := c.bytes) && SnapOk(b)
    requires TablesWithin(b.tables, c.tables, b.free) && BytesWithin(b.bytes, c.bytes, b.free)
    ensures Local(a, rs, c, rs) && Grew(a, c, {})
  {
    RootIsOwned(b);
    hide DataFrames, SnapOk;
  }

  /** Only the pages of `r` were mapped, and the frames under them were given back: the entries are still there. */
  lemma PushFailed(a: Snapshot, b: Snapshot, c: Snapshot, rs: seq<Region>, r: Region)
    requires Holds(a, rs) && SnapOk(b) && NoSupers(b) && b.bytes.Keys == b.tables.Keys && b.free <= b.tables.Keys
    requires Grew(a, b, r.frames.Values) && FramedView(a.tables, b.tables, a.root, r.frames, r.perm)
    requires forall v | v in r.frames :: UserPage(v) && Translate(a.tables, a.root, v).None?
    requires c == b.(free := b.free + r.frames.Values)
    ensures Holds(c, rs) && Local(a, rs, c, rs) && Grew(a, c, {})
    ensures UserPages(c.tables, c.root) == UserPages(a.tables, a.root) + RegionPages(r)
    ensures Agrees(a, rs) ==> (Agrees(c, rs) <==> r.frames == map[])
    ensures r.frames.Values <= c.free
  {
    hide *;
    HoldsParts(a, rs);
    OldRegionsHold(a, b, rs, r);
    FreedOk(a, b, c, r.frames.Values, DataFrames(rs));
    assert DataFrames(rs) + {} == DataFrames(rs);
    GrewIsLocal(a, rs, c, rs, {});
    HoldsIntro(c, rs);
    AgreesUnfold(a, rs);
    AgreesUnfold(c, rs);
    assert r.frames != map[] ==> exists v :: v in r.frames && v in RegionPages(r) && v !in AllPages(rs) by {
      if r.frames != map[] {
        var v :| v in r.frames;
        assert v in r.frames.Keys;
      }
    }
    assert r.frames == map[] ==> RegionPages(r).Keys == {};
  }

  lemma FreedOk(a: Snapshot, b: Snapshot, c: Snapshot, taken: set<nat>, data: set<nat>)
    requires SnapOk(a) && SnapOk(b) && NoSupers(b) && Grew(a, b, taken) && c == b.(free := b.free + taken)
    requires Apart(b, data + taken) && data !! taken && b.free <= b.tables.Keys
    ensures SnapOk(c) && NoSupers(c) && Grew(a, c, {}) && Apart(c, data) && c.free <= c.tables.Keys
  {
    hide TreeOk, NoLeafAbove, Distinct;
    assert data <= data + taken && taken <= data + taken;
    assert GrewSets(a, c, {});
  }

  /** The tables there are, and the frames it takes, once several runs of pages have been mapped one after the other. */
  ghost function KeysOver(keys: set<Path>, spans: seq<(nat, nat)>): set<Path> {
    if spans == [] then keys
    else
      var rest, end := spans[..|spans| - 1], spans[|spans| - 1];
      KeysAfter(KeysOver(keys, rest), end.0, end.1)
  }

  ghost function NeedOver(keys: set<Path>, spans: seq<(nat, nat)>): nat {
    if spans == [] then 0
    else
      var rest, end := spans[..|spans| - 1], spans[|spans| - 1];
      NeedOver(keys, rest) + FramesNeeded(KeysOver(keys, rest), end.0, end.1)
  }

  lemma NeedStep(keys: set<Path>, spans: seq<(nat, nat)>, i: nat)
    requires i < |spans|
    ensures NeedOver(keys, spans[..i + 1]) == NeedOver(keys, spans[..i])
              + FramesNeeded(KeysOver(keys, spans[..i]), spans[i].0, spans[i].1)
    ensures KeysOver(keys, spans[..i + 1]) == KeysAfter(KeysOver(keys, spans[..i]), spans[i].0, spans[i].1)
  {
    assert spans[..i + 1][..i] == spans[..i];
  }

  lemma {:induction false} NeedMore(keys: set<Path>, spans: seq<(nat, nat)>, i: nat)
    requires i <= |spans|
    ensures NeedOver(keys, spans[..i]) <= NeedOver(keys, spans)
  {
    if i < |spans| {
      var rest := spans[..|spans| - 1];
      NeedMore(keys, rest, i);
      assert rest[..i] == spans[..i];
    } else {
      assert spans[..i] == spans;
    }
  }

  /** What a failed push leaves behind: the pages `[first, left.last)`, mapped to frames that were given back. It
      stopped at the first page for which the frames did not suffice or, if they did, that was mapped already
      (`taken`). Then the tables that were made for these pages are the only frames it keeps. */
  ghost predicate Left(a: Snapshot, b: Snapshot, left: Region, first: nat, last: nat, perm: Flags, taken: bool) {
    && left.first == first <= left.last < last && left.perm == perm && left.frames.Keys == PageRange(first, left.last)
    && left.frames.Values <= b.free
    && UserPages(b.tables, b.root) == UserPages(a.tables, a.root) + RegionPages(left)
    && Vacant(a.tables, a.root, first, left.last) && |a.free| >= FramesNeeded(a.node.Keys, first, left.last)
    && (taken ==> Translate(a.tables, a.root, left.last).Some?)
    && (taken <==> |a.free| >= FramesNeeded(a.node.Keys, first, left.last + 1))
    && (taken ==> |b.free| + FramesNeeded(a.node.Keys, first, left.last + 1) == |a.free| + left.last + 1 - first)
  }

  lemma LeftBehind(a: Snapshot, b: Snapshot, left: Region, first: nat, last: nat, perm: Flags, taken: bool)
    requires left.first == first <= left.last < last && left.perm == perm
    requires left.frames.Keys == PageRange(first, left.last)
    requires left.frames.Values <= b.free
    requires UserPages(b.tables, b.root) == UserPages(a.tables, a.root) + RegionPages(left)
    requires Vacant(a.tables, a.root, first, left.last) && |a.free| >= FramesNeeded(a.node.Keys, first, left.last)
    requires taken ==> Translate(a.tables, a.root, left.last).Some?
    requires taken <==> |a.free| >= FramesNeeded(a.node.Keys, first, left.last + 1)
    requires taken ==> |b.free| + FramesNeeded(a.node.Keys, first, left.last + 1) == |a.free| + left.last + 1 - first
    ensures Left(a, b, left, first, last, perm, taken)
  {
  }

  /** Something stays behind exactly if the first page was free to map and there were frames for it. */
  lemma LeftGuard(a: Snapshot, b: Snapshot, left: Region, first: nat, last: nat, perm: Flags, taken: bool)
    requires Left(a, b, left, first, last, perm, taken)
    ensures left.frames != map[] <==>
              Translate(a.tables, a.root, first).None? && |a.free| >= FramesNeeded(a.node.Keys, first, first + 1)
    ensures left.frames != map[] <==> first in left.frames
  {
    EmptyRange(left.frames, first, left.last);
    hide Translate, UserPages;
    if first < left.last {
      assert first in left.frames.Keys;
      NeededGrows(a.node.Keys, first, first + 1, left.last);
    }
  }

  /** No page of `[first, last)` is mapped and there are frames enough for them and for the tables they need. */
  ghost predicate Room(s: Snapshot, first: nat, last: nat) {
    Vacant(s.tables, s.root, first, last) && |s.free| >= FramesNeeded(s.node.Keys, first, last)
  }

  /** The region `r` was added to a space: it took exactly the frames and tables it needs. */
  ghost predicate Added(a: Snapshot, b: Snapshot, rs: seq<Region>, r: Region) {
    && Holds(b, rs + [r]) && Local(a, rs, b, rs + [r]) && Grew(a, b, r.frames.Values)
    && UserPages(b.tables, b.root) == UserPages(a.tables, a.root) + RegionPages(r)
    && |b.free| == |a.free| - FramesNeeded(a.node.Keys, r.first, r.last)
    && b.node.Keys == KeysAfter(a.node.Keys, r.first, r.last)
    && (Agrees(a, rs) ==> Agrees(b, rs + [r]))
  }

  /** Adding a region failed and left the pages of `left` behind: every region is as it was, and the table agrees with
      them exactly if nothing is left. */
  ghost predicate Failed(a: Snapshot, b: Snapshot, rs: seq<Region>, left: Region) {
    && Holds(b, rs) && Local(a, rs, b, rs) && Grew(a, b, {})
    && (Agrees(a, rs) ==> (Agrees(b, rs) <==> left.frames == map[]))
  }

  lemma AddedParts(a: Snapshot, b: Snapshot, rs: seq<Region>, r: Region)
    requires Added(a, b, rs, r)
    ensures Holds(b, rs + [r]) && Local(a, rs, b, rs + [r]) && Grew(a, b, r.frames.Values)
    ensures UserPages(b.tables, b.root) == UserPages(a.tables, a.root) + RegionPages(r)
    ensures |b.free| == |a.free| - FramesNeeded(a.node.Keys, r.first, r.last)
    ensures b.node.Keys == KeysAfter(a.node.Keys, r.first, r.last)
    ensures Agrees(a, rs) ==> Agrees(b, rs + [r])
  {
  }

  lemma AddedIntro(a: Snapshot, b: Snapshot, rs: seq<Region>, r: Region)
    requires Holds(b, rs + [r]) && Local(a, rs, b, rs + [r]) && Grew(a, b, r.frames.Values)
    requires UserPages(b.tables, b.root) == UserPages(a.tables, a.root) + RegionPages(r)
    requires |b.free| == |a.free| - FramesNeeded(a.node.Keys, r.first, r.last)
    requires b.node.Keys == KeysAfter(a.node.Keys, r.first, r.last)
    requires Agrees(a, rs) ==> Agrees(b, rs + [r])
    ensures Added(a, b, rs, r)
  {
  }

  lemma FailedParts(a: Snapshot, b: Snapshot, rs: seq<Region>, left: Region)
    requires Failed(a, b, rs, left)
    ensures Holds(b, rs) && Local(a, rs, b, rs) && Grew(a, b, {})
    ensures Agrees(a, rs) ==> (Agrees(b, rs) <==> left.frames == map[])
  {
  }

  lemma FailedIntro(a: Snapshot, b: Snapshot, rs: seq<Region>, left: Region)
    requires Holds(b, rs) && Local(a, rs, b, rs) && Grew(a, b, {})
    requires Agrees(a, rs) ==> (Agrees(b, rs) <==> left.frames == map[])
    ensures Failed(a, b, rs, left)
  {
  }

  lemma RoomUnfold(s: Snapshot, first: nat, last: nat)
    ensures Room(s, first, last) <==>
              Vacant(s.tables, s.root, first, last) && |s.free| >= FramesNeeded(s.node.Keys, first, last)
  {
  }

  /** The last key of a map is the one whose frame was given back last. */
  ghost predicate LastReturned(mem: PhysMem, frames: map<nat, nat>)
    reads mem
  {
    frames != map[] ==>
        exists v :: v in frames && (forall u | u in frames :: u <= v) && LastGave(mem.origin, mem.log, frames[v])
  }

  lemma {:induction false} LowestKey(keys: set<nat>) returns (v: nat)
    requires keys != {}
    ensures v in keys && forall u | u in keys :: v <= u
  {
    v :| v in keys;
    if keys != {v} {
      var w := LowestKey(keys - {v});
      forall u | u in keys ensures u == v || w <= u { assert u == v || u in keys - {v}; }
      if w < v { v := w; }
    } else {
      assert forall u | u in keys :: u == v;
    }
  }

  /** The frames of all pages but those in `left`, which come after the others, were given back in order. */
  ghost predicate UpTo(origin: FrameLists.Book, log: seq<FrameLists.Call>, frames: map<nat, nat>, left: set<nat>,
                       v: nat) {
    && v in frames && v !in left && LastGave(origin, log, frames[v])
    && (forall u | u in frames :: u <= v || u in left) && (forall u | u in left :: v < u)
  }

  ghost predicate GivenUpTo(origin: FrameLists.Book, log: seq<FrameLists.Call>, frames: map<nat, nat>, left: set<nat>) {
    left == frames.Keys || exists v :: UpTo(origin, log, frames, left, v)
  }

  lemma OneMoreGiven(origin: FrameLists.Book, was: seq<FrameLists.Call>, log: seq<FrameLists.Call>,
                     frames: map<nat, nat>, left: set<nat>, v: nat)
    requires GivenUpTo(origin, was, frames, left) && left <= frames.Keys && v in left && forall u | u in left :: v <= u
    requires LastGave(origin, log, frames[v])
    ensures GivenUpTo(origin, log, frames, left - {v})
  {
    hide LastGave;
    assert UpTo(origin, log, frames, left - {v}, v);
  }

  lemma AllGiven(mem: PhysMem, frames: map<nat, nat>)
    requires GivenUpTo(mem.origin, mem.log, frames, {})
    ensures LastReturned(mem, frames)
  {
    hide LastGave;
    if frames != map[] {
      assert frames.Keys != {} by {
        var v :| v in frames;
        assert v in frames.Keys;
      }
      var v :| UpTo(mem.origin, mem.log, frames, {}, v);
    }
  }

  ghost predicate Given(frames: map<nat, nat>, left: set<nat>, was: set<nat>, free: set<nat>) {
    left <= frames.Keys && free == was + set v | v in frames && v !in left :: frames[v]
  }

  lemma GivenOne(frames: map<nat, nat>, left: set<nat>, was: set<nat>, free: set<nat>, v: nat)
    requires Given(frames, left, was, free) && v in left && OneToOneFrames(frames) && frames.Values !! was
    ensures v in frames && frames[v] in frames.Values && frames[v] !in free
    ensures Given(frames, left - {v}, was, free + {frames[v]})
  {
    assert frames[v] in frames.Values;
  }

  lemma GivenAll(frames: map<nat, nat>, was: set<nat>, free: set<nat>)
    requires Given(frames, {}, was, free)
    ensures free == was + frames.Values
  {
  }

  lemma NoneGiven(frames: map<nat, nat>, was: set<nat>)
    ensures Given(frames, frames.Keys, was, was)
  {
  }

  /** Give back the frames of a region, in the order of its pages. */
  method ReleaseFrames(mem: PhysMem, frames: map<nat, nat>)
    requires mem.Valid() && OneToOneFrames(frames) && frames.Values <= mem.tables.Keys && frames.Values !! mem.free
    modifies mem
    ensures mem.Valid() && mem.free == old(mem.free) + frames.Values && old(mem.log) <= mem.log
    ensures BytesWithin(old(mem.bytes), mem.bytes, mem.free) && TablesWithin(old(mem.tables), mem.tables, mem.free)
    ensures LastReturned(mem, frames)
  {
    hide Decoded, Booked, Given, GivenUpTo, OneToOneFrames, LastReturned, LastGave;
    var left := frames.Keys;
    NoneGiven(frames, mem.free);
    NoneUpTo(mem.origin, mem.log, frames);
    while left != {}
      invariant mem.Valid() && old(mem.log) <= mem.log && Given(frames, left, old(mem.free), mem.free)
      invariant BytesWithin(old(mem.bytes), mem.bytes, mem.free) && TablesWithin(old(mem.tables), mem.tables, mem.free)
      invariant left <= frames.Keys && GivenUpTo(mem.origin, mem.log, frames, left)
      decreases left
    {
      ghost var was := mem.log;
      ghost var lowest := LowestKey(left);
      var v :| v in left && forall u | u in left :: v <= u;
      GivenOne(frames, left, old(mem.free), mem.free, v);
      mem.Release(frames[v]);
      OneMoreGiven(mem.origin, was, mem.log, frames, left, v);
      left := left - {v};
    }
    GivenAll(frames, old(mem.free), mem.free);
    AllGiven(mem, frames);
  }

  lemma NoneUpTo(origin: FrameLists.Book, log: seq<FrameLists.Call>, frames: map<nat, nat>)
    ensures GivenUpTo(origin, log, frames, frames.Keys)
  {
  }

  // ---- the space itself ------------------------------------------------------------------------

  class AddressSpace {
    const table: PageTable
    var regions: seq<Region>

    ghost predicate Valid()
      reads this, table, table.mem
    {
      table.Valid() && Holds(table.Now(), regions)
    }

    /** The table maps no user page but those of the regions. */
    ghost predicate Exact()
      reads this, table, table.mem
    {
      Agrees(table.Now(), regions)
    }

    /** The user pages as the kernel's walk finds them. */
    ghost function Pages(): PageMap
      reads table, table.mem
    {
      UserPages(table.mem.tables, table.root)
    }

    /** A space with no regions around a table that maps no user page. */
    constructor (table: PageTable)
      requires table.Valid() && NoSupers(table.Now()) && table.lim >= UPPER_HALF
      requires forall v: nat | UserPage(v) :: Translate(table.mem.tables, table.root, v).None?
      ensures this.table == table && regions == [] && Valid() && Exact()
    {
      this.table := table;
      regions := [];
      new;
      hide Holds, Agrees, TableOk, NoSupers, Translate, Decoded, Booked;
      FreshSpace(table.Now());
    }

    /** No user page maps a table of this space or of the kernel. */
    ghost predicate Sealed()
      reads table, table.mem
    {
      SealedOff(table.Now())
    }

    /** Return the frames of pages that were mapped since `a`, without unmapping the pages. */
    method GiveBack(frames: map<nat, nat>, ghost a: Snapshot, ghost left: Region)
      requires table.Valid() && NoSupers(table.Now()) && Holds(a, regions) && Grew(a, table.Now(), frames.Values)
      requires FramedView(a.tables, table.mem.tables, a.root, frames, left.perm) && OneToOneFrames(frames)
      requires left.frames == frames
      requires forall v | v in frames :: UserPage(v) && Translate(a.tables, a.root, v).None?
      modifies table.mem
      ensures table.Valid() && Failed(a, table.Now(), regions, left) && frames.Values <= table.mem.free
      ensures |table.mem.free| == |old(table.mem.free)| + |frames|
      ensures old(table.mem.log) <= table.mem.log && LastReturned(table.mem, frames)
      ensures Pages() == UserPages(a.tables, a.root) + RegionPages(left)
      ensures Extends(UserPages(a.tables, a.root), Pages())
    {
      hide TableOk, Holds, Grew, NoSupers, FramedView, Agrees, OneToOneFrames, Translate, Local, AllPages, RegionPages,
           UserPages, OneToOne, Extends, Failed, Decoded, Booked, LastReturned, RegionsOk, Apart, Backed, UserPage,
           BytesWithin, TablesWithin;
      ghost var b := table.Now();
      HoldsParts(a, regions);
      TakenFrames(a, b, frames.Values);
      ReleaseFrames(table.mem, frames);
      ManyGiven(frames, b.free);
      ghost var c := b.(free := b.free + frames.Values);
      PushFailed(a, b, c, regions, left);
      Reshuffled(a, c, table.Now(), regions);
      NewPagesExtend(a.tables, a.root, left, Pages());
      HoldsParts(table.Now(), regions);
      FailedIntro(a, table.Now(), regions, left);
    }

    /** Map the framed region `[first, last)` without recording it yet. If that fails the frames taken are returned,
        but the pages mapped before the failure, those of `left`, stay in the table and map frames that are free. */
    method Install(first: nat, last: nat, perm: Flags) returns (r: MapResult, region: Region, ghost left: Region)
      requires Valid() && last <= USER_PAGES
      modifies table`frames, table`node, table.mem
      ensures table.Valid() && region.first == first && region.last == last && region.perm == perm
      ensures Extends(old(Pages()), Pages()) && old(table.mem.log) <= table.mem.log
      ensures r != Mapped ==> LastReturned(table.mem, left.frames)
      ensures r == Mapped || r == AlreadyMapped || r == OutOfMemory
      ensures r == Mapped <==> Room(old(table.Now()), first, last)
      ensures r == Mapped ==>
                Added(old(table.Now()), table.Now(), regions, region) && AllZero(table.mem.bytes, region.frames)
      ensures r != Mapped ==>
                && Failed(old(table.Now()), table.Now(), regions, left)
                && Left(old(table.Now()), table.Now(), left, first, last, perm, r == AlreadyMapped)
    {
      hide TableOk, Holds, Grew, NoSupers, FramedView, Agrees, OneToOneFrames, AllZero, Missing, Translate, Local,
           AllPages, RegionPages, UserPages, PageRange, OneToOne, Extends, Vacant, FramesNeeded, KeysAfter, Left, Added,
           Failed, Room, Decoded, Booked, LastReturned, RegionsOk, Apart, Backed, FramesOf, DataFrames, TablesWithin,
           BytesWithin, UserPage, Canonical;
      ghost var a := table.Now();
      HoldsParts(a, regions);
      RoomUnfold(a, first, last);
      var frames; ghost var done;
      r, frames, done := MapFramed(table, first, last, perm);
      ghost var b := table.Now();
      region := Region(first, last, perm, frames);
      left := Region(first, done, perm, frames);
      VacantFrames(a.tables, a.root, first, done, last, frames);
      if r != Mapped {
        GiveBack(frames, a, left);
        RangeSize(frames, first, done);
        LeftBehind(a, table.Now(), left, first, last, perm, r == AlreadyMapped);
        return;
      }
      PageRangeTail(first, done, last);
      NewPagesExtend(a.tables, a.root, region, UserPages(a.tables, a.root) + RegionPages(region));
      PushOk(a, b, regions, region);
      AddedIntro(a, b, regions, region);
    }

    /** Map the framed region `[first, last)` and take ownership of it. It works exactly if there is room for it; if
        there is not, `left` are the pages that stay behind. */
    method Push(first: nat, last: nat, perm: Flags) returns (r: MapResult, ghost left: Region)
      requires Valid() && last <= USER_PAGES
      modifies `regions, table`frames, table`node, table.mem
      ensures Valid() && Extends(old(Pages()), Pages()) && old(table.mem.log) <= table.mem.log
      ensures r != Mapped ==> LastReturned(table.mem, left.frames)
      ensures r == Mapped || r == AlreadyMapped || r == OutOfMemory
      ensures r == Mapped <==> Room(old(table.Now()), first, last)
      ensures r == Mapped ==>
                && regions == old(regions) + [left] && left.first == first && left.last == last && left.perm == perm
                && Added(old(table.Now()), table.Now(), old(regions), left) && AllZero(table.mem.bytes, left.frames)
      ensures r != Mapped ==>
                && regions == old(regions) && Failed(old(table.Now()), table.Now(), regions, left)
                && Left(old(table.Now()), table.Now(), left, first, last, perm, r == AlreadyMapped)
    {
      hide TableOk, Holds, Grew, Agrees, AllZero, Missing, Translate, Local, AllPages, RegionPages, UserPages, Extends,
           Vacant, FramesNeeded, KeysAfter, Left, Added, Failed, Room, Decoded, Booked, LastReturned;
      var region;
      r, region, left := Install(first, last, perm);
      if r == Mapped {
        AddedParts(old(table.Now()), table.Now(), regions, region);
        regions := regions + [region];
        left := region;
      } else {
        FailedParts(old(table.Now()), table.Now(), regions, left);
      }
    }

    /** Map a framed region with `data` in it, from byte `offset` on. The rest of it reads as zeroes. */
    method PushWithOffset(first: nat, last: nat, perm: Flags, offset: nat, data: seq<Byte>)
      returns (r: MapResult, ghost left: Region)
      requires Valid() && last <= USER_PAGES && first * PAGE_SIZE + offset + |data| <= last * PAGE_SIZE
      modifies `regions, table`frames, table`node, table.mem
      ensures Valid() && Extends(old(Pages()), Pages()) && old(table.mem.log) <= table.mem.log
      ensures r != Mapped ==> LastReturned(table.mem, left.frames)
      ensures r == Mapped || r == AlreadyMapped || r == OutOfMemory
      ensures r == Mapped <==> Room(old(table.Now()), first, last)
      ensures r == Mapped ==>
                && regions == old(regions) + [left] && left.first == first && left.last == last && left.perm == perm
                && Added(old(table.Now()), table.Now(), old(regions), left)
                && Filled(table.mem.bytes, Pages(), first, last, first * PAGE_SIZE + offset, data)
      ensures r != Mapped ==>
                && regions == old(regions) && Failed(old(table.Now()), table.Now(), regions, left)
                && Left(old(table.Now()), table.Now(), left, first, last, perm, r == AlreadyMapped)
    {
      hide TableOk, Holds, Grew, Agrees, AllZero, Missing, Translate, Local, AllPages, RegionPages, UserPages, Filled,
           CopyTo, OpenPages, OneToOneFrames, Extends, Vacant, FramesNeeded, KeysAfter, Left, Added, Failed, Room,
           Decoded, Booked, LastReturned, BytesWithin, TablesWithin, RegionsOk, Apart, Backed, NoSupers, OneToOne,
           PageRange;
      ghost var a := table.Now();
      var region;
      r, region, left := Install(first, last, perm);
      if r == Mapped {
        ghost var b := table.Now();
        ghost var rs := regions;
        NewRegionFacts(a, b, rs, region);
        WriteData(table.mem, region, offset, data);
        ghost var c := table.Now();
        WriteDataKeeps(a, b, c, rs, region, first * PAGE_SIZE + offset, data);
        AddedParts(a, c, rs, region);
        HoldsParts(c, rs + [region]);
        regions := regions + [region];
        left := region;
      } else {
        FailedParts(a, table.Now(), regions, left);
      }
    }

    /** Put `src` at `addr`, through the frames and only on pages that have WRITE and USER. Every page is looked up in
        the memory as it is by then. If no such page maps a table, that changes no translation, so every page is where
        it was found first; and if none maps a free frame, the allocator's lists are as before. */
    method CopyToUser(addr: nat, src: seq<Byte>) returns (ok: bool)
      requires table.mem.Readable()
      modifies table.mem`bytes, table.mem`tables, table.mem`log
      ensures table.mem.Readable() && CopyThrough(old(table.mem.bytes), table.root, addr, src) == (table.mem.bytes, ok)
      ensures old(table.mem.log) <= table.mem.log
      ensures old(Valid() && Sealed()) ==>
                && Holds(table.Now(), regions) && Sealed() && Pages() == old(Pages())
                && CopyTo(old(table.mem.bytes), Pages(), addr, src) == (table.mem.bytes, ok)
      ensures old(Valid() && Sealed() && WritableFrames(Pages()) !! table.mem.free) ==> Valid()
      ensures old(Valid() && Exact()) ==>
                Valid() && Sealed() && Exact() && Local(old(table.Now()), regions, table.Now(), regions)
    {
      hide CopyTo, CopyThrough, Holds, TableOk, Agrees, Local, UserPages, SealedOff, Decoded, Booked, BytesWithin,
           WritableFrames, Tidy;
      ghost var start := table.Now();
      if Valid() && Exact() { ExactTidy(start, regions); }
      if Valid() && Sealed() && WritableFrames(Pages()) !! table.mem.free { TidyIntro(start, regions); }
      ok := CopyPages(addr, src, start);
      AfterCopy(start, table.Now(), regions, addr, src, ok);
    }

    /** The copy page by page. */
    method CopyPages(addr: nat, src: seq<Byte>, ghost start: Snapshot) returns (ok: bool)
      requires table.mem.Readable() && start == table.Now()
      modifies table.mem`bytes, table.mem`tables, table.mem`log
      ensures table.mem.Readable() && CopyThrough(start.bytes, table.root, addr, src) == (table.mem.bytes, ok)
      ensures old(table.mem.log) <= table.mem.log
      ensures old(table.mem.Valid()) && Tidy(start, regions) ==> table.mem.Valid()
    {
      hide CopyThrough, CopiedSoFar, Tidy, Decoded, Booked, BytesWithin, WritableFrames, UserPages;
      ghost var tidy := table.mem.Valid() && Tidy(start, regions);
      ghost var may := WritableFrames(UserPages(start.tables, start.root));
      SameBytes(start.bytes, may);
      var copied: nat := 0;
      ok := true;
      CopyBegins(start.bytes, table.root, addr, src);
      while ok && copied < |src|
        invariant copied <= |src| && table.mem.Readable() && old(table.mem.log) <= table.mem.log
        invariant tidy ==> table.mem.Valid() && BytesWithin(start.bytes, table.mem.bytes, may)
        invariant CopiedSoFar(start.bytes, table.root, addr, src, copied, table.mem.bytes, ok)
        decreases ok, |src| - copied
      {
        ok, copied := PutPiece(addr, copied, src, start, tidy);
      }
      CopyEnds(start.bytes, table.root, addr, src, copied, table.mem.bytes, ok);
    }

    /** One page of a copy, if the page is there and may be written. */
    method PutPiece(addr: nat, copied: nat, src: seq<Byte>, ghost start: Snapshot, ghost tidy: bool)
      returns (ok: bool, next: nat)
      requires table.mem.Readable() && copied < |src| && start.root == table.root && start.free == table.mem.free
      requires CopiedSoFar(start.bytes, table.root, addr, src, copied, table.mem.bytes, true)
      requires tidy ==>
                 && table.mem.Valid() && Tidy(start, regions)
                 && BytesWithin(start.bytes, table.mem.bytes, WritableFrames(UserPages(start.tables, start.root)))
      modifies table.mem`bytes, table.mem`tables, table.mem`log
      ensures table.mem.Readable() && old(table.mem.log) <= table.mem.log
      ensures next <= |src| && (ok ==> copied < next)
      ensures CopiedSoFar(start.bytes, table.root, addr, src, next, table.mem.bytes, ok)
      ensures tidy ==>
                && table.mem.Valid()
                && BytesWithin(start.bytes, table.mem.bytes, WritableFrames(UserPages(start.tables, start.root)))
    {
      hide CopyThrough, Tidy, PageOf, OffsetOf, Piece, Patched, Translate, UserPages, Decoded, Booked, BytesWithin,
           WritableFrames;
      var mem, va := table.mem, addr + copied;
      ThroughPage(mem.bytes, table.root, addr, copied, src);
      if va >= USER_MAX_ADDR {
        return false, copied;
      }
      var pte := table.Lookup(PageOf(va));
      if pte.None? || !(pte.value.flags.write && pte.value.flags.user) || pte.value.ppn !in mem.bytes {
        return false, copied;
      }
      ghost var before := mem.bytes;
      if tidy { TidyPage(start, regions, before, va); }
      mem.WriteFrame(pte.value.ppn, Patched(mem.bytes[pte.value.ppn], addr, copied, src));
      if tidy {
        WithinOneMore(start.bytes, before, mem.bytes, pte.value.ppn,
                      WritableFrames(UserPages(start.tables, start.root)));
      }
      return true, copied + Piece(va, |src| - copied);
    }

    /** What the space has at `addr`, `len` bytes of it. */
    method CopyFromUser(addr: nat, len: nat) returns (r: Option<seq<Byte>>)
      requires table.mem.Readable()
      ensures r == CopyFrom(table.mem.bytes, Pages(), addr, len)
    {
      hide CopyFrom, Prepend, PageOf, OffsetOf, Piece, Translate, UserPages, Decoded, Booked;
      var mem := table.mem;
      ghost var pages := Pages();
      var copied, dst: seq<Byte> := 0, [];
      PrependEmpty([], CopyFrom(mem.bytes, pages, addr, len));
      while copied < len
        invariant copied <= len
        invariant CopyFrom(mem.bytes, pages, addr, len)
                  == Prepend(dst, CopyFrom(mem.bytes, pages, addr + copied, len - copied))
      {
        var va := addr + copied;
        PrependEmpty(dst, None);
        CopyFromStep(mem.bytes, pages, va, len - copied);
        if va >= USER_MAX_ADDR {
          return None;
        }
        PageBelowMax(va);
        InPages(table.Now(), PageOf(va));
        var pte := table.Lookup(PageOf(va));
        if pte.None? || pte.value.ppn !in mem.bytes {
          return None;
        }
        var n := Piece(va, len - copied);
        PrependTwice(dst, mem.bytes[pte.value.ppn][OffsetOf(va)..OffsetOf(va) + n],
                     CopyFrom(mem.bytes, pages, va + n, len - copied - n));
        dst := dst + mem.bytes[pte.value.ppn][OffsetOf(va)..OffsetOf(va) + n];
        copied := copied + n;
      }
      CopyFromEnd(mem.bytes, pages, addr + copied);
      PrependEmpty(dst, None);
      return Some(dst);
    }

    /** The string at `addr`, if its NUL is among the first `max` bytes. */
    method ReadCstr(addr: nat, max: nat) returns (r: Option<seq<Byte>>)
      requires table.mem.Readable()
      ensures r == (var s := ReadStr(table.mem.bytes, Pages(), addr, max);
                    if s.Some? && Utf8(s.value) then s else None)
    {
      hide ReadStr, Prepend, Holds, TableOk, PageOf, OffsetOf, Translate, Backed, CopyFrom, Utf8;
      var mem := table.mem;
      ghost var pages := Pages();
      var s: seq<Byte> := [];
      PrependEmpty(s, ReadStr(mem.bytes, pages, addr, max));
      for i := 0 to max
        invariant ReadStr(mem.bytes, pages, addr, max) == Prepend(s, ReadStr(mem.bytes, pages, addr + i, max - i))
      {
        var byte := CopyFromUser(addr + i, 1);
        ReadStrStep(mem.bytes, pages, addr + i, max - i);
        PrependEmpty(s, None);
        if byte.None? {
          return None;
        }
        if byte.value[0] == 0 {
          return if Utf8(s) then Some(s) else None;
        }
        PrependTwice(s, byte.value, ReadStr(mem.bytes, pages, addr + i + 1, max - i - 1));
        s := s + byte.value;
      }
      ReadStrEnd(mem.bytes, pages, addr + max);
      PrependEmpty(s, None);
      return None;
    }

    /** Remove the pages of a region from the table. */
    method UnmapRegion(r: Region)
      requires table.Valid() && table.lim >= UPPER_HALF && r.last <= USER_PAGES
      modifies table.mem`tables, table.mem`bytes, table.mem`log
      ensures table.Valid() && BytesWithin(old(table.mem.bytes), table.mem.bytes, table.mem.free + table.Owned())
      ensures old(table.mem.log) <= table.mem.log
      ensures TablesWithin(old(table.mem.tables), table.mem.tables, table.mem.free + table.Owned())
      ensures forall w: nat | Canonical(w) :: Translate(table.mem.tables, table.root, w) ==
                if r.first <= w < r.last then None else Translate(old(table.mem.tables), table.root, w)
    {
      hide TableOk, Translate, PageSet, Edited, Canonical, Decoded, Booked;
      var vpn := r.first;
      while vpn < r.last
        invariant vpn >= r.first && (vpn > r.first ==> vpn <= r.last) && old(table.mem.log) <= table.mem.log
        invariant table.Valid() && TablesWithin(old(table.mem.tables), table.mem.tables, table.mem.free + table.Owned())
        invariant BytesWithin(old(table.mem.bytes), table.mem.bytes, table.mem.free + table.Owned())
        invariant forall w: nat | Canonical(w) :: Translate(table.mem.tables, table.root, w) ==
                    if r.first <= w < vpn then None else Translate(old(table.mem.tables), table.root, w)
      {
        ghost var before := table.Now();
        assert Canonical(vpn) && Index(vpn, 0) < table.lim by { UserIndex(vpn, table.lim); }
        var gone := table.Unmap(vpn);
        EditedTables(before, table.Now());
        UnmappedPage(before.tables, table.mem.tables, table.root, vpn, gone);
        vpn := vpn + 1;
      }
    }

    /** Unmap a region and give its frames back. */
    method DropRegion(r: Region, ghost a: Snapshot, ghost data: set<nat>)
      requires table.Valid() && table.lim >= UPPER_HALF && r.last <= USER_PAGES && OneToOneFrames(r.frames)
      requires Apart(a, data) && r.frames.Values <= data && table.Now().node == a.node && table.Now().shared == a.shared
      requires r.frames.Values <= table.mem.tables.Keys && r.frames.Values !! table.mem.free
      modifies table.mem
      ensures table.Valid() && table.mem.free == old(table.mem.free) + r.frames.Values
      ensures old(table.mem.log) <= table.mem.log
      ensures table.mem.tables.Keys == old(table.mem.tables.Keys)
      ensures TablesWithin(old(table.mem.tables), table.mem.tables, table.mem.free + table.Owned())
      ensures BytesWithin(old(table.mem.bytes), table.mem.bytes, table.mem.free + table.Owned())
    {
      hide TableOk, Translate, Canonical, OneToOneFrames, Decoded, Booked, LastReturned;
      ghost var start := table.Now();
      UnmapRegion(r);
      ghost var b := table.Now();
      ReleaseFrames(table.mem, r.frames);
      ghost var c := b.(free := b.free + r.frames.Values);
      MoreFree(a, b, c, r.frames.Values, data);
      Shuffled(c, table.Now(), 0);
      WithinEither(start, b, table.Now(), b.free + b.node.Values, table.mem.free);
    }

    /** Unmap all regions and give their frames back. */
    method DropRegions(rs: seq<Region>)
      requires table.Valid() && Holds(table.Now(), rs)
      modifies table.mem
      ensures table.Valid() && old(table.mem.log) <= table.mem.log
      ensures table.mem.free == old(table.mem.free) + DataFrames(rs)
      ensures TablesWithin(old(table.mem.tables), table.mem.tables, table.mem.free + table.Owned())
      ensures BytesWithin(old(table.mem.bytes), table.mem.bytes, table.mem.free + table.Owned())
    {
      hide TableOk, Holds, Translate, Canonical, DataFrames, OneToOneFrames, Apart, PageRange, Decoded, Booked,
           RegionsOk, Backed, NoSupers, OneToOne, UserPages, AllPages, TablesWithin, BytesWithin;
      ghost var a := table.Now();
      var mem := table.mem;
      HoldsParts(a, rs);
      NoDataFrames();
      assert rs[..0] == [];
      WithinRefl(a, a.free + a.node.Values);
      var i := 0;
      while i < |rs|
        invariant i <= |rs| && table.Valid() && old(mem.log) <= mem.log
        invariant mem.free == a.free + DataFrames(rs[..i]) && mem.tables.Keys == a.tables.Keys
        invariant TablesWithin(a.tables, mem.tables, mem.free + table.Owned())
        invariant BytesWithin(a.bytes, mem.bytes, mem.free + table.Owned())
      {
        ghost var b := table.Now();
        RegionFrames(a, rs, i);
        DropRegion(rs[i], a, DataFrames(rs));
        WithinMore(a, b, table.Now(), b.free + b.node.Values, mem.free + table.Owned());
        i := i + 1;
      }
      assert rs[..|rs|] == rs;
    }

    /** Drop the space: first the frames of its regions become free, then those of its table. */
    method Drop()
      requires Valid()
      modifies `regions, table.mem
      ensures old(table.mem.log) <= table.mem.log
      ensures table.mem.Valid() && table.mem.free == old(table.mem.free) + table.Owned() + DataFrames(old(regions))
      ensures TablesWithin(old(table.mem.tables), table.mem.tables, table.mem.free)
      ensures BytesWithin(old(table.mem.bytes), table.mem.bytes, table.mem.free)
    {
      hide TableOk, Holds, DataFrames, Decoded, Booked, TablesWithin, BytesWithin;
      ghost var a := table.Now();
      DropRegions(regions);
      regions := [];
      ghost var b := table.Now();
      table.Drop();
      WithinMore(a, b, table.Now(), b.free + b.node.Values, table.mem.free);
    }
  }

  lemma WithinEither(a: Snapshot, b: Snapshot, c: Snapshot, may: set<nat>, more: set<nat>)
    requires TablesWithin(a.tables, b.tables, may) && BytesWithin(a.bytes, b.bytes, may)
    requires TablesWithin(b.tables, c.tables, more) && BytesWithin(b.bytes, c.bytes, more) && b.free <= more
    requires may == b.free + b.node.Values
    ensures TablesWithin(a.tables, c.tables, more + b.node.Values)
    ensures BytesWithin(a.bytes, c.bytes, more + b.node.Values)
  {
  }

  lemma WithinRefl(a: Snapshot, may: set<nat>)
    ensures TablesWithin(a.tables, a.tables, may) && BytesWithin(a.bytes, a.bytes, may)
  {
  }

  lemma WithinMore(a: Snapshot, b: Snapshot, c: Snapshot, may: set<nat>, more: set<nat>)
    requires TablesWithin(a.tables, b.tables, may) && BytesWithin(a.bytes, b.bytes, may) && may <= more
    requires TablesWithin(b.tables, c.tables, more) && BytesWithin(b.bytes, c.bytes, more)
    ensures TablesWithin(a.tables, c.tables, more) && BytesWithin(a.bytes, c.bytes, more)
  {
  }

  lemma FreshSpace(s: Snapshot)
    requires SnapOk(s) && NoSupers(s) && s.lim >= UPPER_HALF && s.bytes.Keys == s.tables.Keys && s.free <= s.tables.Keys
    requires forall v: nat | UserPage(v) :: Translate(s.tables, s.root, v).None?
    ensures Holds(s, []) && Agrees(s, [])
  {
    hide SnapOk, NoSupers, Translate;
    assert UserPages(s.tables, s.root) == map[];
    NoDataFrames();
  }

  lemma UserIndex(v: nat, lim: nat)
    requires v < USER_PAGES && lim >= UPPER_HALF
    ensures Canonical(v) && Index(v, 0) < lim
  {
    UserIndices(v);
  }

  lemma EditedTables(a: Snapshot, b: Snapshot)
    requires Edited(a, b)
    ensures TablesWithin(a.tables, b.tables, a.free + a.node.Values)
    ensures BytesWithin(a.bytes, b.bytes, a.free + a.node.Values)
  {
  }

  lemma UnmappedPage(a: Tables, b: Tables, root: nat, v: nat, gone: Option<nat>)
    requires gone == (if Translate(a, root, v).Some? then Some(Translate(a, root, v).value.ppn) else None)
    requires gone.None? ==> b == a
    requires gone.Some? ==> PageSet(a, b, root, v, None)
    ensures forall w: nat | Canonical(w) :: Translate(b, root, w) == if w == v then None else Translate(a, root, w)
  {
    hide Translate, Canonical, HwWalk;
  }

  lemma NoDataFrames()
    ensures DataFrames([]) == {}
  {
  }

  /** The frames of one region among those of the space. */
  lemma RegionFrames(s: Snapshot, rs: seq<Region>, i: nat)
    requires Holds(s, rs) && i < |rs|
    ensures rs[i].last <= USER_PAGES && rs[i].frames.Keys == PageRange(rs[i].first, rs[i].last)
    ensures OneToOneFrames(rs[i].frames)
    ensures rs[i].frames.Values <= s.tables.Keys && rs[i].frames.Values !! s.free
    ensures rs[i].frames.Values !! DataFrames(rs[..i])
    ensures rs[i].frames.Values <= DataFrames(rs)
    ensures DataFrames(rs[..i + 1]) == DataFrames(rs[..i]) + rs[i].frames.Values
  {
    hide TableOk, NoSupers, Translate, AllPages;
    var r, front, all := rs[i], rs[..i], AllPages(rs);
    forall v | v in r.frames
      ensures v in all && all[v].ppn == r.frames[v] && v !in AllPages(front)
    {
      PageOfRegion(rs, i, v);
    }
    forall v, w | v in r.frames && w in r.frames && r.frames[v] == r.frames[w] ensures v == w {
      assert all[v].ppn == all[w].ppn;
    }
    forall f | f in r.frames.Values ensures f in DataFrames(rs) && f !in DataFrames(front) {
      var v :| v in r.frames && r.frames[v] == f;
      assert all[v].ppn == f;
      assert forall w | w in AllPages(front) :: AllPages(front)[w].ppn != f by { FrontFrames(rs, i, v); }
    }
    NewFrames(front, r);
    assert front + [r] == rs[..i + 1];
  }

  lemma PageOfRegion(rs: seq<Region>, i: nat, v: nat)
    requires RegionsOk(rs) && i < |rs| && v in rs[i].frames
    ensures v in AllPages(rs) && AllPages(rs)[v].ppn == rs[i].frames[v]
    ensures v !in AllPages(rs[..i])
  {
    hide AllPages;
    PagesFromRegions(rs, v);
    PagesFromRegions(rs[..i], v);
    forall j | 0 <= j < i ensures v !in rs[..i][j].frames {
      assert rs[j].frames.Keys !! rs[i].frames.Keys;
      assert v in rs[i].frames.Keys;
    }
  }

  lemma FrontFrames(rs: seq<Region>, i: nat, v: nat)
    requires RegionsOk(rs) && OneToOne(AllPages(rs)) && i < |rs| && v in rs[i].frames
    ensures forall w | w in AllPages(rs[..i]) :: AllPages(rs[..i])[w].ppn != rs[i].frames[v]
  {
    hide AllPages;
    PageOfRegion(rs, i, v);
    forall w | w in AllPages(rs[..i]) ensures w in AllPages(rs) && AllPages(rs)[w] == AllPages(rs[..i])[w] {
      FrontPage(rs, i, w);
    }
  }

  lemma FrontPage(rs: seq<Region>, i: nat, w: nat)
    requires RegionsOk(rs) && i <= |rs| && w in AllPages(rs[..i])
    ensures w in AllPages(rs) && AllPages(rs)[w] == AllPages(rs[..i])[w]
  {
    hide AllPages;
    PagesFromRegions(rs[..i], w);
    PagesFromRegions(rs, w);
    var j :| 0 <= j < i && w in rs[..i][j].frames;
    assert rs[..i][j] == rs[j];
  }

  lemma MoreFree(a: Snapshot, b: Snapshot, c: Snapshot, more: set<nat>, data: set<nat>)
    requires SnapOk(b) && c == b.(free := b.free + more) && Apart(a, data) && more <= data
    requires b.node == a.node && b.shared == a.shared
    ensures SnapOk(c)
  {
    hide TreeOk, Distinct;
  }

  lemma PageBelowMax(va: nat)
    requires va < USER_MAX_ADDR
    ensures UserPage(PageOf(va))
  {
  }

  /** The piece of a copy that starts `k` bytes in. */
  lemma PieceStep(bytes: Bytes, pages: PageMap, a: nat, k: nat, src: seq<Byte>)
    requires k < |src| && Writable(bytes, pages, a + k)
    ensures var n, f := Piece(a + k, |src| - k), pages[PageOf(a + k)].ppn;
            && f in bytes
            && CopyTo(bytes, pages, a + k, src[k..]) ==
               CopyTo(bytes[f := Splice(bytes[f], OffsetOf(a + k), src[k..k + n])], pages, a + k + n, src[k + n..])
  {
    WritableMapped(bytes, pages, a + k);
    var n := Piece(a + k, |src| - k);
    hide CopyTo, Splice, Piece, PageOf, OffsetOf, Writable;
    CopyToStep(bytes, pages, a + k, src[k..]);
    Slices(src, k, n);
  }

  lemma Slices(src: seq<Byte>, k: nat, n: nat)
    requires k + n <= |src|
    ensures src[k..][..n] == src[k..k + n] && src[k..][n..] == src[k + n..]
  {
  }

  lemma SameBytes(b: Bytes, may: set<nat>)
    ensures BytesWithin(b, b, may)
  {
  }

  /** A page after the piece of a copy that starts `copied` bytes in. */
  function Patched(page: Page, addr: nat, copied: nat, src: seq<Byte>): Page
    requires copied < |src|
  {
    Splice(page, OffsetOf(addr + copied), src[copied..copied + Piece(addr + copied, |src| - copied)])
  }

  /** The next piece of a copy: it stops at a page that is not mapped, or not for the user to write; else it goes into
      the frame found there. */
  lemma ThroughPage(bytes: Bytes, root: nat, addr: nat, copied: nat, src: seq<Byte>)
    requires copied < |src|
    ensures var va := addr + copied;
            var pte := Translate(Decoded(bytes), root, PageOf(va));
            CopyThrough(bytes, root, va, src[copied..]) ==
            if va < USER_MAX_ADDR && pte.Some? && pte.value.flags.write && pte.value.flags.user
                && pte.value.ppn in bytes then
              var n, f := Piece(va, |src| - copied), pte.value.ppn;
              CopyThrough(bytes[f := Patched(bytes[f], addr, copied, src)], root, va + n, src[copied + n..])
            else (bytes, false)
  {
    hide CopyThrough, Decoded, Booked, Translate, UserPages, Splice, PageOf, OffsetOf;
    var va, pages := addr + copied, UserPages(Decoded(bytes), root);
    if va < USER_MAX_ADDR { PageBelowMax(va); PageFound(Decoded(bytes), root, PageOf(va)); }
    var n := Piece(va, |src| - copied);
    Slices(src, copied, n);
    if Writable(bytes, pages, va) {
      CopyThroughStep(bytes, root, pages, va, src[copied..]);
    } else {
      CopyThroughStop(bytes, root, pages, va, src[copied..]);
    }
  }

  lemma ThroughEnd(bytes: Bytes, root: nat, a: nat, src: seq<Byte>)
    requires src == []
    ensures CopyThrough(bytes, root, a, src) == (bytes, true)
  {
    hide UserPages, Decoded, Booked;
  }

  lemma PageFound(tables: Tables, root: nat, v: nat)
    requires UserPage(v)
    ensures v in UserPages(tables, root) <==> Translate(tables, root, v).Some?
    ensures v in UserPages(tables, root) ==> UserPages(tables, root)[v] == Translate(tables, root, v).value
  {
    hide Translate;
  }

  /** A space that agrees with its regions is sealed and maps no free frame. */
  lemma ExactTidy(s: Snapshot, rs: seq<Region>)
    requires Holds(s, rs) && Agrees(s, rs)
    ensures SealedOff(s) && WritableFrames(UserPages(s.tables, s.root)) !! s.free
  {
    hide Holds, Agrees, UserPages, SealedOff, WritableFrames, FramesOf;
    AgreesSealed(s, rs);
    HoldsParts(s, rs);
    ApartFree(s, rs);
    WritableAreFrames(UserPages(s.tables, s.root));
  }

  /** The first `copied` bytes of `src` are in memory, and the rest of the copy goes on from there, unless it failed. */
  ghost predicate CopiedSoFar(was: Bytes, root: nat, addr: nat, src: seq<Byte>, copied: nat, now: Bytes, ok: bool) {
    && copied <= |src|
    && CopyThrough(was, root, addr, src) ==
       if ok then CopyThrough(now, root, addr + copied, src[copied..]) else (now, false)
  }

  lemma CopyBegins(bytes: Bytes, root: nat, addr: nat, src: seq<Byte>)
    ensures CopiedSoFar(bytes, root, addr, src, 0, bytes, true)
  {
    hide CopyThrough;
    assert src[0..] == src;
  }

  lemma CopyEnds(was: Bytes, root: nat, addr: nat, src: seq<Byte>, copied: nat, now: Bytes, ok: bool)
    requires CopiedSoFar(was, root, addr, src, copied, now, ok) && (ok ==> copied == |src|)
    ensures CopyThrough(was, root, addr, src) == (now, ok)
  {
    hide CopyThrough;
    if ok { ThroughEnd(now, root, addr + copied, src[copied..]); }
  }

  /** No page that can be written maps a table or a free frame. */
  ghost predicate Tidy(s: Snapshot, rs: seq<Region>) {
    && Holds(s, rs) && SealedOff(s) && s.tables == Decoded(s.bytes)
    && WritableFrames(UserPages(s.tables, s.root)) !! s.free
  }

  lemma TidyIntro(s: Snapshot, rs: seq<Region>)
    requires Holds(s, rs) && SealedOff(s) && s.tables == Decoded(s.bytes)
    requires WritableFrames(UserPages(s.tables, s.root)) !! s.free
    ensures Tidy(s, rs)
  {
    hide Holds, SealedOff, Decoded, UserPages, WritableFrames;
  }

  /** In a sealed space the page found while copying is one of those found before. */
  lemma TidyPage(s: Snapshot, rs: seq<Region>, bytes: Bytes, va: nat)
    requires Tidy(s, rs) && va < USER_MAX_ADDR
    requires BytesWithin(s.bytes, bytes, WritableFrames(UserPages(s.tables, s.root)))
    ensures var pte := Translate(Decoded(bytes), s.root, PageOf(va));
            pte.Some? && pte.value.flags.write && pte.value.flags.user ==>
              pte.value.ppn in WritableFrames(UserPages(s.tables, s.root)) && pte.value.ppn !in s.free
  {
    hide Holds, SealedOff, Decoded, UserPages, Translate, PageOf, BytesWithin;
    HoldsParts(s, rs);
    SealedStable(s);
    StableNow(s.bytes, bytes, s.root, UserPages(s.tables, s.root));
    PageBelowMax(va);
    InPages(s.(tables := Decoded(bytes)), PageOf(va));
  }

  lemma WithinOneMore(a: Bytes, b: Bytes, c: Bytes, f: nat, may: set<nat>)
    requires BytesWithin(a, b, may) && f in b && f in may && f in c && c == b[f := c[f]]
    ensures BytesWithin(a, c, may)
  {
  }

  /** In a sealed space, the copy that looks every page up again is the simple one. */
  lemma AfterCopy(start: Snapshot, now: Snapshot, rs: seq<Region>, addr: nat, src: seq<Byte>, ok: bool)
    requires start.tables == Decoded(start.bytes) && now.tables == Decoded(now.bytes)
    requires now == start.(tables := now.tables, bytes := now.bytes)
    requires CopyThrough(start.bytes, start.root, addr, src) == (now.bytes, ok)
    ensures Holds(start, rs) && SealedOff(start) ==> Copied(start, now, rs, addr, src, ok) && SnapOk(now)
    ensures Holds(start, rs) && SealedOff(start) && Agrees(start, rs) ==> Agrees(now, rs) && Local(start, rs, now, rs)
  {
    hide *;
    if Holds(start, rs) && SealedOff(start) {
      SealedCopy(start, rs, addr, src);
      CopyToUserKeeps(start, now, rs, addr, src, ok);
      CopiedParts(start, now, rs, addr, src, ok);
      HoldsParts(now, rs);
    }
  }

  lemma CopiedParts(start: Snapshot, now: Snapshot, rs: seq<Region>, addr: nat, src: seq<Byte>, ok: bool)
    requires Copied(start, now, rs, addr, src, ok)
    ensures Holds(now, rs) && (Agrees(start, rs) ==> Agrees(now, rs) && Local(start, rs, now, rs))
  {
    hide Holds, Agrees, Local, CopyTo, CopyThrough, UserPages;
  }

  lemma SealedCopy(s: Snapshot, rs: seq<Region>, addr: nat, src: seq<Byte>)
    requires Holds(s, rs) && SealedOff(s) && s.tables == Decoded(s.bytes)
    ensures CopyThrough(s.bytes, s.root, addr, src) == CopyTo(s.bytes, UserPages(s.tables, s.root), addr, src)
  {
    hide Holds, Decoded, Booked, CopyThrough, CopyTo, UserPages, SealedOff, Stable, BytesWithin, WritableFrames,
         RegionsOk, NoSupers, Backed, SnapOk, OneToOne, Apart;
    HoldsParts(s, rs);
    SealedStable(s);
    SameBytes(s.bytes, WritableFrames(UserPages(s.tables, s.root)));
    CopyThroughStable(s.bytes, s.bytes, s.root, UserPages(s.tables, s.root), addr, src);
  }

  lemma InPages(s: Snapshot, v: nat)
    requires UserPage(v)
    ensures v in UserPages(s.tables, s.root) <==> Translate(s.tables, s.root, v).Some?
    ensures v in UserPages(s.tables, s.root) ==> UserPages(s.tables, s.root)[v] == Translate(s.tables, s.root, v).value
  {
    hide Translate;
  }

  /** What a copy into a sealed space did. */
  ghost predicate Copied(start: Snapshot, now: Snapshot, rs: seq<Region>, addr: nat, src: seq<Byte>, ok: bool) {
    && Holds(now, rs) && SealedOff(now) && UserPages(now.tables, now.root) == UserPages(start.tables, start.root)
    && CopyTo(start.bytes, UserPages(start.tables, start.root), addr, src) == (now.bytes, ok)
    && CopyThrough(start.bytes, start.root, addr, src) == (now.bytes, ok)
    && (Agrees(start, rs) ==> Agrees(now, rs) && Local(start, rs, now, rs))
  }

  lemma CopyToUserKeeps(a: Snapshot, b: Snapshot, rs: seq<Region>, addr: nat, src: seq<Byte>, ok: bool)
    requires Holds(a, rs) && SealedOff(a) && a.tables == Decoded(a.bytes) && b.tables == Decoded(b.bytes)
    requires b == a.(tables := b.tables, bytes := b.bytes)
    requires CopyTo(a.bytes, UserPages(a.tables, a.root), addr, src) == (b.bytes, ok)
    ensures Copied(a, b, rs, addr, src, ok)
  {
    var pages := UserPages(a.tables, a.root);
    var frames := WritableFrames(pages);
    assert frames !! a.node.Values && frames !! a.shared;
    hide CopyTo, CopyThrough, Decoded, Booked, UserPages, Holds, SealedOff, Agrees, Local, TablesWithin, BytesWithin,
         WritableFrames;
    CopyToFrames(a.bytes, pages, addr, src);
    DecodedWithin(a.bytes, b.bytes, frames);
    FramesWritten(a, b, rs, frames);
    SealedCopy(a, rs, addr, src);
    if Agrees(a, rs) { CopyIsLocal(a, b, rs, frames); }
  }

  lemma CopyIsLocal(a: Snapshot, b: Snapshot, rs: seq<Region>, frames: set<nat>)
    requires Holds(a, rs) && Agrees(a, rs) && frames == WritableFrames(UserPages(a.tables, a.root))
    requires b == a.(tables := b.tables, bytes := b.bytes)
    requires TablesWithin(a.tables, b.tables, frames) && BytesWithin(a.bytes, b.bytes, frames)
    ensures Local(a, rs, b, rs)
  {
    hide Holds, UserPages, DataFrames, WritableFrames, FramesOf, SealedOff;
    HoldsParts(a, rs);
    AgreesSealed(a, rs);
    WritableAreFrames(UserPages(a.tables, a.root));
    RootIsOwned(a);
    RootFacts(a);
    assert a.root !in frames;
  }

  function Prepend(s: seq<Byte>, r: Option<seq<Byte>>): Option<seq<Byte>> {
    if r.None? then None else Some(s + r.value)
  }

  lemma PrependEmpty(s: seq<Byte>, r: Option<seq<Byte>>)
    ensures Prepend([], r) == r && Prepend(s, Some([])) == Some(s) && Prepend(s, None) == None
  {
    assert s + [] == s;
    if r.Some? { assert [] + r.value == r.value; }
  }

  lemma PrependTwice(s: seq<Byte>, t: seq<Byte>, r: Option<seq<Byte>>)
    ensures Prepend(s, Prepend(t, r)) == Prepend(s + t, r)
  {
    if r.Some? { assert s + (t + r.value) == (s + t) + r.value; }
  }

  lemma CopyFromStep(bytes: Bytes, pages: PageMap, va: nat, len: nat)
    requires len > 0
    ensures va >= USER_MAX_ADDR || PageOf(va) !in pages || pages[PageOf(va)].ppn !in bytes ==>
              CopyFrom(bytes, pages, va, len) == None
    ensures va < USER_MAX_ADDR && PageOf(va) in pages && pages[PageOf(va)].ppn in bytes ==>
              var n := Piece(va, len);
              CopyFrom(bytes, pages, va, len) ==
              Prepend(bytes[pages[PageOf(va)].ppn][OffsetOf(va)..OffsetOf(va) + n],
                      CopyFrom(bytes, pages, va + n, len - n))
  {
  }

  lemma CopyFromEnd(bytes: Bytes, pages: PageMap, va: nat)
    ensures CopyFrom(bytes, pages, va, 0) == Some([])
  {
  }

  lemma ReadStrStep(bytes: Bytes, pages: PageMap, a: nat, max: nat)
    requires max > 0
    ensures var byte := CopyFrom(bytes, pages, a, 1);
            ReadStr(bytes, pages, a, max) ==
            if byte.None? then None else if byte.value[0] == 0 then Some([])
            else Prepend(byte.value, ReadStr(bytes, pages, a + 1, max - 1))
  {
    CopyFromView(bytes, pages, a, 1);
    hide CopyFrom;
    assert UserMemory.Mapped(bytes, pages, a) ==>
        Load(bytes, pages, a) == Some(CopyFrom(bytes, pages, a, 1).value[0]) by {
      if CopyFrom(bytes, pages, a, 1).Some? {
        assert Load(bytes, pages, a + 0) == Some(CopyFrom(bytes, pages, a, 1).value[0]);
      }
    }
    if CopyFrom(bytes, pages, a, 1).Some? {
      assert CopyFrom(bytes, pages, a, 1).value == [CopyFrom(bytes, pages, a, 1).value[0]];
    }
  }

  lemma ReadStrEnd(bytes: Bytes, pages: PageMap, a: nat)
    ensures ReadStr(bytes, pages, a, 0) == None
  {
  }

  /** Between `first` and `last` a process reads `data` at `at` and zeroes elsewhere. */
  ghost predicate Filled(bytes: Bytes, pages: PageMap, first: nat, last: nat, at: nat, data: seq<Byte>) {
    forall x: nat | first * PAGE_SIZE <= x < last * PAGE_SIZE ::
      Load(bytes, pages, x) == Some(if at <= x < at + |data| then data[x - at] else 0)
  }

  /** The pages of a region as the kernel sees them, through the direct map: all of them writable. */
  function OpenPages(frames: map<nat, nat>): (m: PageMap)
    ensures m.Keys == frames.Keys
  {
    map v | v in frames :: Pte(frames[v], NO_FLAGS.(valid := true, read := true, write := true, user := true))
  }

  /** Copy `data` into a region, `offset` bytes after its base. */
  method WriteData(mem: PhysMem, r: Region, offset: nat, data: seq<Byte>)
    requires mem.Valid() && r.frames.Keys == PageRange(r.first, r.last) && r.last <= USER_PAGES
    requires r.frames.Values <= mem.bytes.Keys && r.frames.Values !! mem.free
    requires r.first * PAGE_SIZE + offset + |data| <= r.last * PAGE_SIZE
    modifies mem`bytes, mem`tables, mem`log
    ensures mem.Valid() && old(mem.log) <= mem.log
    ensures CopyTo(old(mem.bytes), OpenPages(r.frames), r.first * PAGE_SIZE + offset, data) == (mem.bytes, true)
  {
    hide CopyTo, OpenPages, Splice, PageOf, OffsetOf, Piece, Writable, PageRange, FirstPiece, Decoded, Booked;
    ghost var pages, a, start := OpenPages(r.frames), r.first * PAGE_SIZE + offset, mem.bytes;
    var written, pos := 0, offset;
    assert data[0..] == data;
    while written < |data|
      invariant written <= |data| && pos == offset + written
      invariant mem.bytes.Keys == start.Keys && mem.Valid() && old(mem.log) <= mem.log
      invariant CopyTo(start, pages, a, data) == CopyTo(mem.bytes, pages, a + written, data[written..])
    {
      var vpn := (r.first * PAGE_SIZE + pos) / PAGE_SIZE;
      var pageOff := pos % PAGE_SIZE;
      var n := if PAGE_SIZE - pageOff < |data| - written then PAGE_SIZE - pageOff else |data| - written;
      WriteDataIndex(r, offset, written, data);
      assert vpn in r.frames.Keys && r.frames[vpn] in r.frames.Values;
      WriteDataStep(mem.bytes, r.frames, a, written, data);
      mem.WriteFrame(r.frames[vpn], Splice(mem.bytes[r.frames[vpn]], pageOff, data[written..written + n]));
      written, pos := written + n, pos + n;
    }
    CopyToStop(mem.bytes, pages, a + written, data[written..]);
  }

  /** The page and offset of the next piece, and that the piece lies in the region. */
  lemma WriteDataIndex(r: Region, offset: nat, written: nat, data: seq<Byte>)
    requires r.first * PAGE_SIZE + offset + |data| <= r.last * PAGE_SIZE && r.last <= USER_PAGES && written < |data|
    ensures var x, pos := r.first * PAGE_SIZE + offset + written, offset + written;
            && x / PAGE_SIZE == PageOf(x) && r.first <= PageOf(x) < r.last && x < USER_MAX_ADDR
            && pos % PAGE_SIZE == OffsetOf(x)
            && Piece(x, |data| - written) ==
               if PAGE_SIZE - pos % PAGE_SIZE < |data| - written then PAGE_SIZE - pos % PAGE_SIZE else |data| - written
  {
  }

  lemma WriteDataStep(bytes: Bytes, frames: map<nat, nat>, a: nat, written: nat, data: seq<Byte>)
    requires written < |data| && PageOf(a + written) in frames && frames[PageOf(a + written)] in bytes
    requires a + written < USER_MAX_ADDR
    ensures var n, f := Piece(a + written, |data| - written), frames[PageOf(a + written)];
            CopyTo(bytes, OpenPages(frames), a + written, data[written..]) ==
            CopyTo(bytes[f := Splice(bytes[f], OffsetOf(a + written), data[written..written + n])], OpenPages(frames),
                   a + written + n, data[written + n..])
  {
    OpenWritable(bytes, frames, a + written);
    hide CopyTo, Splice, Piece, PageOf, OffsetOf, OpenPages, Writable;
    PieceStep(bytes, OpenPages(frames), a, written, data);
  }

  lemma OpenWritable(bytes: Bytes, frames: map<nat, nat>, a: nat)
    requires PageOf(a) in frames && frames[PageOf(a)] in bytes && a < USER_MAX_ADDR
    ensures Writable(bytes, OpenPages(frames), a) && OpenPages(frames)[PageOf(a)].ppn == frames[PageOf(a)]
  {
  }

  lemma NewRegionFacts(a: Snapshot, b: Snapshot, rs: seq<Region>, r: Region)
    requires Added(a, b, rs, r)
    ensures r.frames.Keys == PageRange(r.first, r.last) && r.last <= USER_PAGES && r.frames.Values <= b.bytes.Keys
    ensures r.frames.Values <= a.free && r.frames.Values !! b.free
  {
    assert (rs + [r])[|rs|] == r;
    AddRegion(rs, r);
    forall f | f in r.frames.Values ensures f in b.bytes.Keys {
      var v :| v in r.frames && r.frames[v] == f;
      assert AllPages(rs + [r])[v].ppn == f;
      assert f in DataFrames(rs + [r]);
    }
  }

  /** Filling a new region changes nothing but its bytes. */
  lemma WriteDataKeeps(a: Snapshot, b: Snapshot, c: Snapshot, rs: seq<Region>, r: Region, at: nat, data: seq<Byte>)
    requires Added(a, b, rs, r) && AllZero(b.bytes, r.frames)
    requires b.tables == Decoded(b.bytes) && c.tables == Decoded(c.bytes)
    requires CopyTo(b.bytes, OpenPages(r.frames), at, data) == (c.bytes, true)
    requires c == b.(tables := c.tables, bytes := c.bytes)
    requires r.frames.Keys == PageRange(r.first, r.last)
    ensures Added(a, c, rs, r) && UserPages(c.tables, c.root) == UserPages(b.tables, b.root)
    ensures Filled(c.bytes, UserPages(c.tables, c.root), r.first, r.last, at, data)
  {
    hide Holds, CopyTo, UserPages, Load, AllZero, PageOf, PageRange, Decoded, Booked, Added, OpenPages, TablesWithin,
         BytesWithin;
    AddedParts(a, b, rs, r);
    OpenFrames(b.bytes, r.frames, at, data);
    DecodedWithin(b.bytes, c.bytes, r.frames.Values);
    FreshWritten(a, b, c, rs, r);
    forall x: nat | r.first * PAGE_SIZE <= x < r.last * PAGE_SIZE
      ensures Load(c.bytes, UserPages(c.tables, c.root), x) == Some(if at <= x < at + |data| then data[x - at] else 0)
    {
      FilledAt(b, c, rs, r, at, data, x);
    }
  }

  /** The frames of a new region were written. */
  lemma FreshWritten(a: Snapshot, b: Snapshot, c: Snapshot, rs: seq<Region>, r: Region)
    requires Added(a, b, rs, r) && c == b.(tables := c.tables, bytes := c.bytes)
    requires TablesWithin(b.tables, c.tables, r.frames.Values) && BytesWithin(b.bytes, c.bytes, r.frames.Values)
    ensures Added(a, c, rs, r) && UserPages(c.tables, c.root) == UserPages(b.tables, b.root)
  {
    hide Holds, AllPages, DataFrames, UserPages, Local, Added, Grew, Agrees, TablesWithin, BytesWithin;
    AddedParts(a, b, rs, r);
    TakenFrames(a, b, r.frames.Values);
    FreshApart(b, rs, r);
    RootApart(b, rs, r);
    FramesWritten(b, c, rs + [r], r.frames.Values);
    LocalAfter(a, rs, b, rs + [r], c, r.frames.Values);
    AddedIntro(a, c, rs, r);
  }

  /** Writing through the direct map writes the frames of the region. */
  lemma OpenFrames(bytes: Bytes, frames: map<nat, nat>, at: nat, data: seq<Byte>)
    ensures BytesWithin(bytes, CopyTo(bytes, OpenPages(frames), at, data).0, frames.Values)
  {
    hide CopyTo;
    CopyToFrames(bytes, OpenPages(frames), at, data);
    forall f | f in FramesOf(OpenPages(frames)) ensures f in frames.Values {
      var v :| v in OpenPages(frames) && OpenPages(frames)[v].ppn == f;
      assert frames[v] == f;
    }
  }

  lemma FreshApart(b: Snapshot, rs: seq<Region>, r: Region)
    requires Holds(b, rs + [r])
    ensures r.frames.Values !! b.node.Values && r.frames.Values !! b.shared
  {
    assert (rs + [r])[|rs|] == r;
    RegionFrames(b, rs + [r], |rs|);
  }

  lemma RootApart(b: Snapshot, rs: seq<Region>, r: Region)
    requires Holds(b, rs + [r])
    ensures b.root !in r.frames.Values
  {
    FreshApart(b, rs, r);
    HoldsParts(b, rs + [r]);
    RootIsOwned(b);
  }

  /** More frames that were free at the start were written. */
  lemma LocalAfter(a: Snapshot, ra: seq<Region>, b: Snapshot, rb: seq<Region>, c: Snapshot, may: set<nat>)
    requires Local(a, ra, b, rb) && c == b.(tables := c.tables, bytes := c.bytes)
    requires TablesWithin(b.tables, c.tables, may) && BytesWithin(b.bytes, c.bytes, may) && may <= a.free
    requires b.root !in may
    ensures Local(a, ra, c, rb)
    ensures Grew(a, b, may) ==> Grew(a, c, may)
  {
    hide DataFrames;
  }

  lemma InRegion(r: Region, x: nat)
    requires r.frames.Keys == PageRange(r.first, r.last) && r.first * PAGE_SIZE <= x < r.last * PAGE_SIZE
    ensures PageOf(x) in r.frames
  {
    assert PageOf(x) in r.frames.Keys;
  }

  lemma FilledAt(b: Snapshot, c: Snapshot, rs: seq<Region>, r: Region, at: nat, data: seq<Byte>, x: nat)
    requires Holds(b, rs + [r]) && AllZero(b.bytes, r.frames) && r.frames.Keys == PageRange(r.first, r.last)
    requires CopyTo(b.bytes, OpenPages(r.frames), at, data) == (c.bytes, true)
    requires c == b.(tables := c.tables, bytes := c.bytes)
    requires UserPages(c.tables, c.root) == UserPages(b.tables, b.root)
    requires r.first * PAGE_SIZE <= x < r.last * PAGE_SIZE
    ensures Load(c.bytes, UserPages(c.tables, c.root), x) == Some(if at <= x < at + |data| then data[x - at] else 0)
  {
    hide *;
    InRegion(r, x);
    RegionAlone(b, rs, r);
    CopyToOutcome(b.bytes, OpenPages(r.frames), at, data);
    CopyToView(b.bytes, OpenPages(r.frames), at, data, x);
    SameLoad(b, c, rs, r, x);
    OverlayAll(Some(0), at, data, x);
  }

  lemma OverlayAll(before: Option<Byte>, at: nat, data: seq<Byte>, x: nat)
    ensures Overlay(before, at, data[..|data|], x) == if at <= x < at + |data| then Some(data[x - at]) else before
  {
  }

  lemma RegionAlone(b: Snapshot, rs: seq<Region>, r: Region)
    requires Holds(b, rs + [r])
    ensures OneToOne(OpenPages(r.frames))
    ensures forall v | v in r.frames ::
              UserPage(v) && Translate(b.tables, b.root, v) == Some(Pte(r.frames[v], Present(r.perm)))
  {
    AddRegion(rs, r);
    var all := AllPages(rs + [r]);
    forall v | v in r.frames ensures v in all && all[v] == Pte(r.frames[v], Present(r.perm)) {
    }
    forall v | v in r.frames ensures UserPage(v) { UserPageOf(rs + [r], v); }
  }

  /** Inside the region, the process reads what the kernel sees through the direct map. */
  lemma SameLoad(b: Snapshot, c: Snapshot, rs: seq<Region>, r: Region, x: nat)
    requires UserPages(c.tables, c.root) == UserPages(b.tables, b.root) && c.bytes.Keys == b.bytes.Keys
    requires forall v | v in r.frames ::
               UserPage(v) && Translate(b.tables, b.root, v) == Some(Pte(r.frames[v], Present(r.perm)))
    requires PageOf(x) in r.frames && AllZero(b.bytes, r.frames)
    ensures Load(c.bytes, UserPages(c.tables, c.root), x) == Load(c.bytes, OpenPages(r.frames), x)
    ensures Load(b.bytes, OpenPages(r.frames), x) == Some(0)
  {
    hide Translate;
  }

  lemma NewPagesExtend(tables: Tables, root: nat, r: Region, after: PageMap)
    requires after == UserPages(tables, root) + RegionPages(r)
    requires forall v | v in r.frames :: Translate(tables, root, v).None?
    ensures Extends(UserPages(tables, root), after)
  {
    hide Translate;
  }

  lemma GrewOnlyFree(a: Snapshot, b: Snapshot, taken: set<nat>)
    requires Grew(a, b, taken)
    ensures BytesWithin(a.bytes, b.bytes, a.free + a.node.Values)
  {
  }

  lemma TakenFrames(a: Snapshot, b: Snapshot, taken: set<nat>)
    requires Grew(a, b, taken)
    ensures taken !! b.free && taken <= a.free && b.tables.Keys == a.tables.Keys
  {
  }

  lemma EmptyRange(frames: map<nat, nat>, first: nat, done: nat)
    requires frames.Keys == PageRange(first, done) && first <= done
    ensures frames == map[] <==> done == first
  {
    if done > first { assert first in frames.Keys; }
    if done == first { assert frames.Keys == {}; }
  }

  lemma VacantFrames(tables: Tables, root: nat, first: nat, done: nat, last: nat, frames: map<nat, nat>)
    requires Vacant(tables, root, first, done) && frames.Keys == PageRange(first, done)
    requires (done > first ==> done <= last) && last <= USER_PAGES
    ensures forall v | v in frames :: UserPage(v) && Translate(tables, root, v).None?
  {
    hide Translate, PageRange;
    forall v | v in frames ensures first <= v < done { assert v in frames.Keys; }
  }

  lemma PageRangeTail(first: nat, done: nat, last: nat)
    requires done >= last && first <= done && (done > first ==> done <= last)
    ensures PageRange(first, done) == PageRange(first, last)
  {
  }
}
