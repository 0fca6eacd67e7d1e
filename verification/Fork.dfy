/** Making address spaces: an empty one with the kernel half, and a duplicate of an existing one. */
module Fork {
  import opened Prelude
  import opened Sv39
  import opened Memory
  import opened PhysMemory
  import opened PageTables
  import opened Framed
  import opened UserMemory
  import opened Spaces
  import opened UserView
  import opened Isolation

  /** The kernel half of a root table is the kernel's. */
  ghost predicate SharesKernel(tables: Tables, root: nat, kernelRoot: nat) {
    && root in tables && kernelRoot in tables
    && forall i: nat | UPPER_HALF <= i < PTE_PER_TABLE :: tables[root][i] == tables[kernelRoot][i]
  }

  /** A root whose user entries are empty maps no user page. */
  lemma EmptyLower(s: Snapshot)
    requires SnapOk(s) && UPPER_HALF <= s.lim <= PTE_PER_TABLE
    requires forall i: nat | i < s.lim :: s.tables[s.root][i] == EMPTY
    ensures NoSupers(s) && forall v: nat | UserPage(v) :: Translate(s.tables, s.root, v).None?
  {
    forall w: nat | Index(w, 0) < s.lim ensures NoLeafAbove(s.tables, s.root, w, 2) {
      assert EntryAt(s.tables, s.root, w, 0) == Some(EMPTY);
    }
    forall v: nat | UserPage(v) ensures Translate(s.tables, s.root, v).None? {
      UserIndices(v);
    }
  }

  /** An empty user space with the kernel half mapped, if there is a frame for its root. */
  method NewUserSpace(kernel: PageTable) returns (r: AddressSpace?)
    requires kernel.Valid() && kernel.lim == PTE_PER_TABLE
    modifies kernel.mem
    ensures kernel.Valid() && SameViews(old(kernel.mem.tables), kernel.mem.tables, kernel.root)
    ensures old(kernel.mem.log) <= kernel.mem.log
    ensures r == null <==> old(kernel.mem.free) == {}
    ensures r == null ==> kernel.mem.tables == old(kernel.mem.tables) && kernel.mem.bytes == old(kernel.mem.bytes)
    ensures r == null ==> kernel.mem.free == old(kernel.mem.free)
    ensures r != null ==>
              && fresh(r) && fresh(r.table) && r.table.mem == kernel.mem && r.Valid() && r.Exact() && r.regions == []
              && r.table.lim == UPPER_HALF && r.table.shared == kernel.Owned() && r.table.Owned() == {r.table.root}
              && r.table.root in old(kernel.mem.free) && kernel.mem.free == old(kernel.mem.free) - {r.table.root}
              && r.table.node.Keys == {Root}
              && TablesWithin(old(kernel.mem.tables), kernel.mem.tables, old(kernel.mem.free))
              && BytesWithin(old(kernel.mem.bytes), kernel.mem.bytes, old(kernel.mem.free))
              && SharesKernel(kernel.mem.tables, r.table.root, kernel.root)
              && (forall w: nat | Index(w, 0) >= UPPER_HALF ::
                   HwWalk(kernel.mem.tables, r.table.root, w) == HwWalk(kernel.mem.tables, kernel.root, w))
  {
    hide TableOk, HwWalk, Translate, Index, Holds, Agrees, SameViews, NoSupers, SharesKernel, Decoded, Booked,
         TablesWithin, BytesWithin, ZeroTable, ZeroPage, SnapOk, JoinHalves;
    ghost var k := kernel.Now();
    RootFacts(k);
    SameRefl(k);
    var frame; ghost var shuffled;
    frame, shuffled := kernel.mem.Alloc();
    if frame.None? {
      return null;
    }
    FreeIsNotOwned(k, frame.value);
    ghost var k1 := kernel.Now();
    FrameTakenFrom(k, k1, shuffled, frame.value);
    KernelStands(k, k1);
    var table := new PageTable(kernel.mem, frame.value);
    table.ShareUpperHalf(kernel);
    ghost var k2 := kernel.Now();
    RootWritten(k, k1, k2, frame.value);
    KernelStands(k, k2);
    UpperFromKernel(k1.tables, k.tables, k2.tables, kernel.root, table.root);
    SharedRoot(k1.tables, k2.tables, table.root, kernel.root);
    EmptyLower(table.Now());
    r := new AddressSpace(table);
  }

  /** A frame was taken from the allocator, which wrote free frames meanwhile. */
  lemma FrameTakenFrom(a: Snapshot, b: Snapshot, mid: Bytes, f: nat)
    requires a.tables == Decoded(a.bytes) && BytesWithin(a.bytes, mid, a.free) && f in a.free && f in a.bytes
    requires f in b.tables && f in b.bytes && b == a.(tables := b.tables, bytes := b.bytes, free := a.free - {f})
    requires b.tables == Decoded(mid)[f := b.tables[f]] && b.bytes == mid[f := b.bytes[f]]
    ensures OnlyFree(a, b)
  {
    hide Decoded;
    DecodedWithin(a.bytes, mid, a.free);
  }

  lemma RootWritten(a: Snapshot, b: Snapshot, c: Snapshot, f: nat)
    requires OnlyFree(a, b) && f in a.free && f in b.tables && c == b.(tables := c.tables, bytes := c.bytes)
    requires f in c.tables && c.tables == b.tables[f := c.tables[f]] && BytesWithin(b.bytes, c.bytes, {f})
    ensures OnlyFree(a, c)
  {
  }

  lemma KernelStands(k: Snapshot, k': Snapshot)
    requires SnapOk(k) && OnlyFree(k, k')
    ensures SnapOk(k') && SameViews(k.tables, k'.tables, k.root) && BytesWithin(k.bytes, k'.bytes, k.free)
    ensures TablesWithin(k.tables, k'.tables, k.free)
  {
    OnlyFreeUntouched(k, k');
    OtherTable(k, k');
  }

  lemma SharedRoot(a: Tables, b: Tables, root: nat, kernelRoot: nat)
    requires root in a && kernelRoot in a && root != kernelRoot
    requires b == a[root := JoinTables(a[root], a[kernelRoot])]
    ensures SharesKernel(b, root, kernelRoot)
    ensures forall i: nat | i < UPPER_HALF :: b[root][i] == a[root][i]
  {
  }

  lemma UpperFromKernel(mid: Tables, before: Tables, after: Tables, kernelRoot: nat, root: nat)
    requires SameViews(before, mid, kernelRoot) && SameViews(before, after, kernelRoot)
    requires forall w: nat | Index(w, 0) >= UPPER_HALF :: HwWalk(after, root, w) == HwWalk(mid, kernelRoot, w)
    ensures forall w: nat | Index(w, 0) >= UPPER_HALF :: HwWalk(after, root, w) == HwWalk(after, kernelRoot, w)
  {
    hide HwWalk, Translate, Index;
  }

  // ---- duplicating a space ------------------------------------------------------------------

  /** Two regions with the same pages and permissions and, frame by frame, the same contents. */
  ghost predicate Twin(p: Region, c: Region, before: Bytes, after: Bytes) {
    && c.first == p.first && c.last == p.last && c.perm == p.perm && c.frames.Keys == p.frames.Keys
    && (forall v | v in p.frames ::
        p.frames[v] in before && c.frames[v] in after && after[c.frames[v]] == before[p.frames[v]])
  }

  ghost predicate Twins(ps: seq<Region>, cs: seq<Region>, before: Bytes, after: Bytes) {
    |ps| == |cs| && forall i | 0 <= i < |ps| :: Twin(ps[i], cs[i], before, after)
  }

  /** Everything the new space has was free in `m`, and nothing else was written. */
  ghost predicate BuiltFrom(m: Snapshot, c: Snapshot, rs: seq<Region>) {
    && c.free + c.node.Values + DataFrames(rs) == m.free
    && TablesWithin(m.tables, c.tables, m.free) && BytesWithin(m.bytes, c.bytes, m.free)
  }

  lemma BuiltFurther(m: Snapshot, a: Snapshot, ra: seq<Region>, b: Snapshot, rb: seq<Region>)
    requires BuiltFrom(m, a, ra) && Local(a, ra, b, rb)
    ensures BuiltFrom(m, b, rb)
  {
    hide DataFrames;
  }

  lemma CopiedOne(src: map<nat, nat>, dst: map<nat, nat>, left: set<nat>, u: nat, start: Bytes, a: Bytes, b: Bytes)
    requires src.Keys <= dst.Keys && OneToOneFrames(dst) && src.Values !! dst.Values && u in left && left <= src.Keys
    requires src.Values <= start.Keys && dst.Values <= start.Keys && BytesWithin(start, a, dst.Values)
    requires forall v | v in src && v !in left :: dst[v] in a && src[v] in start && a[dst[v]] == start[src[v]]
    requires src[u] in a && b == a[dst[u] := a[src[u]]]
    ensures BytesWithin(start, b, dst.Values)
    ensures forall v | v in src && v !in left - {u} :: dst[v] in b && src[v] in start && b[dst[v]] == start[src[v]]
  {
    assert src[u] in src.Values && dst[u] in dst.Values;
    forall v | v in src && v !in left - {u} ensures dst[v] in b && src[v] in start && b[dst[v]] == start[src[v]] {
      assert v in dst.Keys && src[v] in src.Values;
    }
  }

  /** Copy the frames of one region over those of another, page by page. */
  method CopyFrames(mem: PhysMem, src: map<nat, nat>, dst: map<nat, nat>)
    requires mem.Valid() && src.Keys <= dst.Keys && OneToOneFrames(dst) && src.Values !! dst.Values
    requires src.Values <= mem.bytes.Keys && dst.Values <= mem.bytes.Keys && dst.Values !! mem.free
    modifies mem`bytes, mem`tables, mem`log
    ensures old(mem.log) <= mem.log
    ensures mem.Valid() && BytesWithin(old(mem.bytes), mem.bytes, dst.Values)
    ensures forall v | v in src ::
              src[v] in old(mem.bytes) && dst[v] in mem.bytes && mem.bytes[dst[v]] == old(mem.bytes)[src[v]]
  {
    hide Decoded, Booked, Decode, OneToOneFrames;
    var left := src.Keys;
    while left != {}
      invariant left <= src.Keys && mem.Valid() && BytesWithin(old(mem.bytes), mem.bytes, dst.Values)
      invariant old(mem.log) <= mem.log
      invariant forall v | v in src && v !in left ::
                  src[v] in old(mem.bytes) && dst[v] in mem.bytes && mem.bytes[dst[v]] == old(mem.bytes)[src[v]]
      decreases left
    {
      var v :| v in left;
      assert src[v] in src.Values && dst[v] in dst.Values;
      ghost var before := mem.bytes;
      mem.WriteFrame(dst[v], mem.bytes[src[v]]);
      CopiedOne(src, dst, left, v, old(mem.bytes), before, mem.bytes);
      left := left - {v};
    }
  }

  /** One more region of the child is a copy; the ones before it still are. */
  lemma TwinsMore(ps: seq<Region>, i: nat, cs: seq<Region>, copy: Region, m: Snapshot, a: Snapshot, b: Bytes)
    requires i < |ps| && Twins(ps[..i], cs, m.bytes, a.bytes) && Twin(ps[i], copy, m.bytes, b)
    requires BytesWithin(a.bytes, b, a.free + a.node.Values) && Holds(a, cs)
    ensures Twins(ps[..i + 1], cs + [copy], m.bytes, b)
  {
    forall j | 0 <= j < i + 1 ensures Twin(ps[..i + 1][j], (cs + [copy])[j], m.bytes, b) {
      if j < i {
        assert Twin(ps[..i][j], cs[j], m.bytes, a.bytes);
        RegionFrames(a, cs, j);
        hide Holds;
        forall v | v in ps[j].frames
          ensures cs[j].frames[v] in b && b[cs[j].frames[v]] == m.bytes[ps[j].frames[v]]
        {
          assert v in cs[j].frames.Keys && cs[j].frames[v] in cs[j].frames.Values;
        }
      }
    }
  }

  lemma NewTwin(p: Region, copy: Region, m: Bytes, b: Bytes, c: Bytes)
    requires copy.first == p.first && copy.last == p.last && copy.perm == p.perm && copy.frames.Keys == p.frames.Keys
    requires forall v | v in p.frames :: p.frames[v] in m && p.frames[v] in b && b[p.frames[v]] == m[p.frames[v]]
    requires forall v | v in p.frames :: copy.frames[v] in c && c[copy.frames[v]] == b[p.frames[v]]
    ensures Twin(p, copy, m, c)
  {
  }

  /** The frames of a region of the parent are apart from everything that was free. */
  lemma ParentFrames(p: Snapshot, ps: seq<Region>, i: nat, now: Bytes)
    requires Holds(p, ps) && i < |ps| && BytesWithin(p.bytes, now, p.free)
    ensures ps[i].last <= USER_PAGES && ps[i].frames.Keys == PageRange(ps[i].first, ps[i].last)
    ensures ps[i].frames.Values !! p.free && ps[i].frames.Values <= now.Keys
    ensures forall v | v in ps[i].frames ::
              ps[i].frames[v] in p.bytes && ps[i].frames[v] in now && now[ps[i].frames[v]] == p.bytes[ps[i].frames[v]]
  {
    RegionFrames(p, ps, i);
    assert p.bytes.Keys == p.tables.Keys;
    hide Holds;
    forall v | v in ps[i].frames
      ensures ps[i].frames[v] in p.bytes && now[ps[i].frames[v]] == p.bytes[ps[i].frames[v]]
    {
      assert ps[i].frames[v] in ps[i].frames.Values;
    }
  }

  lemma NewOneToOneRegion(s: Snapshot, rs: seq<Region>, r: Region)
    requires Holds(s, rs + [r])
    ensures OneToOneFrames(r.frames)
  {
    RegionFrames(s, rs + [r], |rs|);
  }

  /** Only frames that were free were written or taken. */
  ghost predicate OnlyFree(s: Snapshot, s': Snapshot) {
    && s' == s.(tables := s'.tables, bytes := s'.bytes, free := s'.free)
    && TablesWithin(s.tables, s'.tables, s.free) && BytesWithin(s.bytes, s'.bytes, s.free) && s'.free <= s.free
  }

  lemma BuiltOnlyFree(m: Snapshot, c: Snapshot, rs: seq<Region>)
    requires BuiltFrom(m, c, rs)
    ensures OnlyFree(m, m.(tables := c.tables, bytes := c.bytes, free := c.free))
  {
  }

  lemma DroppedAll(m: Snapshot, c: Snapshot, rs: seq<Region>, after: Snapshot)
    requires BuiltFrom(m, c, rs)
    requires after == m.(tables := after.tables, bytes := after.bytes, free := c.free + c.node.Values + DataFrames(rs))
    requires TablesWithin(c.tables, after.tables, after.free) && BytesWithin(c.bytes, after.bytes, after.free)
    ensures OnlyFree(m, after) && after.free == m.free
  {
  }

  lemma OnlyFreeUntouched(s: Snapshot, s': Snapshot)
    requires SnapOk(s) && OnlyFree(s, s')
    ensures Untouched(s, s')
  {
    hide TreeOk, Distinct;
  }

  /** A space and a table that were there before are as they were. */
  lemma BystandersKept(p: Snapshot, ps: seq<Region>, k: Snapshot, p': Snapshot, k': Snapshot)
    requires Holds(p, ps) && SnapOk(k) && k.tables == p.tables && k.bytes == p.bytes && k.free == p.free
    requires OnlyFree(p, p') && k' == k.(tables := p'.tables, bytes := p'.bytes, free := p'.free)
    ensures Holds(p', ps) && UserPages(p'.tables, p'.root) == UserPages(p.tables, p.root)
    ensures SnapOk(p') && SnapOk(k') && SameViews(k.tables, k'.tables, k.root)
    ensures BytesWithin(p.bytes, p'.bytes, p.free)
  {
    hide UserPages, SameViews, NoSupers, TableOk;
    HoldsParts(p, ps);
    OnlyFreeUntouched(p, p');
    assert p'.free !! DataFrames(ps) && p'.bytes.Keys == p'.tables.Keys && p'.free <= p'.tables.Keys;
    hide Holds;
    HoldsElsewhere(p, p', ps);
    HoldsParts(p', ps);
    OnlyFreeUntouched(k, k');
    OtherTable(k, k');
  }

  lemma FirstBuilt(m: Snapshot, c: Snapshot)
    requires c.node.Values == {c.root} && c.root in m.free && c.free == m.free - {c.root}
    requires TablesWithin(m.tables, c.tables, m.free) && BytesWithin(m.bytes, c.bytes, m.free)
    ensures BuiltFrom(m, c, [])
  {
    NoDataFrames();
  }

  lemma NoNeed(keys: set<Path>, spans: seq<(nat, nat)>)
    ensures NeedOver(keys, spans[..0]) == 0 && KeysOver(keys, spans[..0]) == keys && NeedOver(keys, spans) >= 0
  {
  }

  lemma NoTwins(before: Bytes, after: Bytes)
    ensures Twins([], [], before, after)
  {
  }

  function Spans(rs: seq<Region>): (r: seq<(nat, nat)>)
    ensures |r| == |rs| && forall i | 0 <= i < |rs| :: r[i] == (rs[i].first, rs[i].last)
  {
    seq(|rs|, i requires 0 <= i < |rs| => (rs[i].first, rs[i].last))
  }

  /** Give the child a copy of the `i`-th region of the parent, if there are frames for it. */
  method CopyRegion(child: AddressSpace, region: Region, ghost p: Snapshot, ghost ps: seq<Region>, ghost i: nat)
    returns (ok: bool)
    requires child.Valid() && child.Exact() && BuiltFrom(p, child.table.Now(), child.regions)
    requires Holds(p, ps) && i < |ps| && region == ps[i]
    requires Twins(ps[..i], child.regions, p.bytes, child.table.mem.bytes)
    modifies child`regions, child.table`frames, child.table`node, child.table.mem
    ensures child.Valid() && BuiltFrom(p, child.table.Now(), child.regions)
    ensures old(child.table.mem.log) <= child.table.mem.log
    ensures Local(old(child.table.Now()), old(child.regions), child.table.Now(), child.regions)
    ensures ok <==> |old(child.table.mem.free)| >= FramesNeeded(old(child.table.node.Keys), region.first, region.last)
    ensures ok ==>
              && child.Exact() && Twins(ps[..i + 1], child.regions, p.bytes, child.table.mem.bytes)
              && |child.table.mem.free|
                  == |old(child.table.mem.free)| - FramesNeeded(old(child.table.node.Keys), region.first, region.last)
              && child.table.node.Keys == KeysAfter(old(child.table.node.Keys), region.first, region.last)
  {
    hide TableOk, Holds, Grew, Agrees, AllZero, Missing, Translate, Local, AllPages, RegionPages, UserPages, BuiltFrom,
         Twins, Twin, OneToOneFrames, PageRange, BytesWithin, TablesWithin, DataFrames, Decoded, Booked, Added, Failed,
         Left, Room, Vacant, FramesNeeded, KeysAfter, Extends, LastReturned;
    ghost var a, cs := child.table.Now(), child.regions;
    ParentFrames(p, ps, i, a.bytes) by { BuiltBytes(p, a, cs); }
    NextVacant(a, cs, p, ps, i);
    RoomUnfold(a, region.first, region.last);
    var r, copy; ghost var left;
    r, copy, left := child.Install(region.first, region.last, region.perm);
    ghost var b := child.table.Now();
    if r != Mapped {
      FailedParts(a, b, cs, left);
      BuiltFurther(p, a, cs, b, cs);
      return false;
    }
    AddedParts(a, b, cs, copy);
    ParentFrames(p, ps, i, b.bytes) by { BuiltFurther(p, a, cs, b, cs + [copy]); BuiltBytes(p, b, cs + [copy]); }
    NewRegionFacts(a, b, cs, copy);
    NewOneToOneRegion(b, cs, copy);
    BuiltFree(p, a, cs);
    CopyFrames(child.table.mem, region.frames, copy.frames);
    RegionCopied(p, ps, i, a, b, child.table.Now(), cs, copy);
    child.regions := child.regions + [copy];
    return true;
  }

  lemma RegionCopied(p: Snapshot, ps: seq<Region>, i: nat, a: Snapshot, b: Snapshot, c: Snapshot, cs: seq<Region>,
                     copy: Region)
    requires Holds(p, ps) && i < |ps| && Holds(a, cs) && Agrees(a, cs) && BuiltFrom(p, a, cs)
    requires Twins(ps[..i], cs, p.bytes, a.bytes)
    requires Added(a, b, cs, copy) && c == b.(tables := c.tables, bytes := c.bytes)
    requires b.tables == Decoded(b.bytes) && c.tables == Decoded(c.bytes)
    requires BytesWithin(b.bytes, c.bytes, copy.frames.Values)
    requires copy.first == ps[i].first && copy.last == ps[i].last && copy.perm == ps[i].perm
    requires copy.frames.Keys == ps[i].frames.Keys
    requires forall v | v in ps[i].frames ::
               ps[i].frames[v] in p.bytes && ps[i].frames[v] in b.bytes
                   && b.bytes[ps[i].frames[v]] == p.bytes[ps[i].frames[v]]
    requires forall v | v in ps[i].frames ::
               copy.frames[v] in c.bytes && c.bytes[copy.frames[v]] == b.bytes[ps[i].frames[v]]
    ensures Holds(c, cs + [copy]) && Agrees(c, cs + [copy]) && BuiltFrom(p, c, cs + [copy])
    ensures Local(a, cs, c, cs + [copy]) && SnapOk(c)
    ensures Twins(ps[..i + 1], cs + [copy], p.bytes, c.bytes)
    ensures |c.free| == |a.free| - FramesNeeded(a.node.Keys, ps[i].first, ps[i].last)
    ensures c.node.Keys == KeysAfter(a.node.Keys, ps[i].first, ps[i].last)
  {
    hide *;
    DecodedWithin(b.bytes, c.bytes, copy.frames.Values);
    FreshWritten(a, b, c, cs, copy);
    AddedParts(a, c, cs, copy);
    BuiltFurther(p, a, cs, c, cs + [copy]);
    NewTwin(ps[i], copy, p.bytes, b.bytes, c.bytes);
    GrewOnlyFree(a, c, copy.frames.Values);
    TwinsMore(ps, i, cs, copy, p, a, c.bytes);
    HoldsParts(c, cs + [copy]);
  }

  /** A region that is not copied yet overlaps none that is. */
  lemma NextVacant(a: Snapshot, cs: seq<Region>, p: Snapshot, ps: seq<Region>, i: nat)
    requires Holds(p, ps) && Holds(a, cs) && Agrees(a, cs) && i < |ps| && Twins(ps[..i], cs, p.bytes, a.bytes)
    ensures Vacant(a.tables, a.root, ps[i].first, ps[i].last)
  {
    hide SnapOk, NoSupers, Translate, UserPages, AllPages, Apart, OneToOne, Backed;
    forall v: nat | ps[i].first <= v < ps[i].last ensures Translate(a.tables, a.root, v).None? {
      assert v in ps[i].frames.Keys;
      assert UserPage(v);
      PagesFromRegions(cs, v);
      InPages(a, v);
      forall j | 0 <= j < |cs| ensures v !in cs[j].frames {
        assert Twin(ps[..i][j], cs[j], p.bytes, a.bytes);
        assert ps[j].frames.Keys !! ps[i].frames.Keys;
      }
    }
  }

  lemma BuiltBytes(m: Snapshot, c: Snapshot, rs: seq<Region>)
    requires BuiltFrom(m, c, rs)
    ensures BytesWithin(m.bytes, c.bytes, m.free)
  {
  }

  lemma BuiltFree(m: Snapshot, c: Snapshot, rs: seq<Region>)
    requires BuiltFrom(m, c, rs)
    ensures c.free <= m.free
  {
  }

  /** Work on a space being built leaves the kernel half of its root alone. */
  lemma SharesKept(k: Snapshot, m: Snapshot, a: Snapshot, ra: seq<Region>, b: Snapshot, rb: seq<Region>)
    requires SnapOk(k) && k.free == m.free && BuiltFrom(m, a, ra) && Local(a, ra, b, rb) && a.lim == UPPER_HALF
    requires SharesKernel(a.tables, a.root, k.root)
    ensures SharesKernel(b.tables, b.root, k.root)
  {
    RootIsOwned(k);
    hide TableOk, DataFrames;
    assert k.root !in a.free + a.node.Values;
  }

  /** Give a new space copies of all regions, if there are frames for them. */
  method CopyRegions(child: AddressSpace, rs: seq<Region>, ghost p: Snapshot, ghost k: Snapshot) returns (ok: bool)
    requires child.Valid() && child.Exact() && child.regions == [] && BuiltFrom(p, child.table.Now(), [])
    requires Holds(p, rs) && SnapOk(k) && k.free == p.free && child.table.lim == UPPER_HALF
    requires child.table.node.Keys == {Root}
    requires SharesKernel(child.table.mem.tables, child.table.root, k.root)
    modifies child`regions, child.table`frames, child.table`node, child.table.mem
    ensures child.Valid() && BuiltFrom(p, child.table.Now(), child.regions)
    ensures old(child.table.mem.log) <= child.table.mem.log
    ensures ok <==> |old(child.table.mem.free)| >= NeedOver({Root}, Spans(rs))
    ensures ok ==>
              && child.Exact() && SharesKernel(child.table.mem.tables, child.table.root, k.root)
              && Twins(rs, child.regions, p.bytes, child.table.mem.bytes)
  {
    hide TableOk, Holds, Agrees, BuiltFrom, Twins, SharesKernel, Local, Decoded, Booked, NeedOver, KeysOver,
         FramesNeeded, KeysAfter;
    ghost var spans, start := Spans(rs), |child.table.mem.free|;
    assert rs[..0] == [];
    NoTwins(p.bytes, child.table.mem.bytes);
    NoNeed({Root}, spans);
    var i := 0;
    while i < |rs|
      invariant i <= |rs| && child.Valid() && child.Exact() && BuiltFrom(p, child.table.Now(), child.regions)
      invariant SharesKernel(child.table.mem.tables, child.table.root, k.root)
      invariant old(child.table.mem.log) <= child.table.mem.log
      invariant Twins(rs[..i], child.regions, p.bytes, child.table.mem.bytes)
      invariant child.table.node.Keys == KeysOver({Root}, spans[..i])
      invariant |child.table.mem.free| == start - NeedOver({Root}, spans[..i])
    {
      NeedStep({Root}, spans, i);
      NeedMore({Root}, spans, i + 1);
      ghost var c, cs := child.table.Now(), child.regions;
      ok := CopyRegion(child, rs[i], p, rs, i);
      if !ok {
        return;
      }
      SharesKept(k, p, c, cs, child.table.Now(), child.regions);
      i := i + 1;
    }
    assert rs[..|rs|] == rs && spans[..|rs|] == spans;
    ok := true;
  }

  /** Duplicate a space: the same layout on fresh frames with the same contents, and the kernel half. */
  method Duplicate(parent: AddressSpace, kernel: PageTable) returns (r: AddressSpace?)
    requires parent.Valid() && kernel.Valid() && kernel.lim == PTE_PER_TABLE && kernel.mem == parent.table.mem
    modifies kernel.mem
    ensures parent.Valid() && kernel.Valid() && old(kernel.mem.log) <= kernel.mem.log
    ensures parent.Pages() == old(parent.Pages()) && SameViews(old(kernel.mem.tables), kernel.mem.tables, kernel.root)
    ensures BytesWithin(old(kernel.mem.bytes), kernel.mem.bytes, old(kernel.mem.free))
    ensures r == null <==> |old(kernel.mem.free)| < 1 + NeedOver({Root}, Spans(parent.regions))
    ensures r == null ==> kernel.mem.free == old(kernel.mem.free)
    ensures r != null ==>
              && fresh(r) && fresh(r.table) && r.table.mem == kernel.mem && r.Valid() && r.Exact()
              && r.table.lim == UPPER_HALF && r.table.shared == kernel.Owned()
              && SharesKernel(kernel.mem.tables, r.table.root, kernel.root)
              && BuiltFrom(old(parent.table.Now()), r.table.Now(), r.regions)
              && Twins(parent.regions, r.regions, old(kernel.mem.bytes), kernel.mem.bytes)
  {
    hide TableOk, Holds, Agrees, SameViews, BuiltFrom, Twins, BytesWithin, TablesWithin, SharesKernel, UserPages,
         HwWalk, Translate, Index, DataFrames, Decoded, Booked, NeedOver, OnlyFree, RegionsOk, Apart, Backed, OneToOne,
         NoSupers, Spans, SealedOff;
    ghost var p, k, ps := parent.table.Now(), kernel.Now(), parent.regions;
    HoldsParts(p, ps);
    var child := NewUserSpace(kernel);
    if child == null {
      SameBytes(p.bytes, p.free);
      return null;
    }
    FirstBuilt(p, child.table.Now());
    var ok := FillChild(child, parent, kernel, p, k);
    return if ok then child else null;
  }

  /** Copy the regions of the parent, or drop the child again. */
  method FillChild(child: AddressSpace, parent: AddressSpace, kernel: PageTable, ghost p: Snapshot, ghost k: Snapshot)
    returns (ok: bool)
    requires child.Valid() && child.Exact() && child.regions == [] && BuiltFrom(p, child.table.Now(), [])
    requires child.table.mem == kernel.mem == parent.table.mem && child.table != kernel && child.table != parent.table
    requires child != parent && Holds(p, parent.regions) && SnapOk(k) && child.table.lim == UPPER_HALF
    requires child.table.node.Keys == {Root} && SharesKernel(kernel.mem.tables, child.table.root, kernel.root)
    requires k.tables == p.tables && k.bytes == p.bytes && k.free == p.free
    requires parent.table.Now() == p.(tables := kernel.mem.tables, bytes := kernel.mem.bytes, free := kernel.mem.free)
    requires kernel.Now() == k.(tables := kernel.mem.tables, bytes := kernel.mem.bytes, free := kernel.mem.free)
    modifies child`regions, child.table`frames, child.table`node, kernel.mem
    ensures parent.Valid() && kernel.Valid() && old(kernel.mem.log) <= kernel.mem.log
    ensures parent.Pages() == UserPages(p.tables, p.root) && SameViews(k.tables, kernel.mem.tables, kernel.root)
    ensures BytesWithin(p.bytes, kernel.mem.bytes, p.free)
    ensures ok <==> |old(kernel.mem.free)| >= NeedOver({Root}, Spans(parent.regions))
    ensures !ok ==> kernel.mem.free == p.free
    ensures ok ==>
              && child.Valid() && child.Exact() && SharesKernel(kernel.mem.tables, child.table.root, kernel.root)
              && BuiltFrom(p, child.table.Now(), child.regions)
              && Twins(parent.regions, child.regions, p.bytes, kernel.mem.bytes)
  {
    hide TableOk, Holds, Agrees, SameViews, BuiltFrom, Twins, BytesWithin, TablesWithin, SharesKernel, UserPages,
         HwWalk, Translate, DataFrames, Decoded, Booked, NeedOver, OnlyFree, Spans;
    ok := CopyRegions(child, parent.regions, p, k);
    ghost var c, cs := child.table.Now(), child.regions;
    if ok {
      BuiltOnlyFree(p, c, cs);
    } else {
      child.Drop();
      DroppedAll(p, c, cs, parent.table.Now());
    }
    BystandersKept(p, parent.regions, k, parent.table.Now(), kernel.Now());
  }

  // ---- what a fork means ----------------------------------------------------------------------

  /** One page of parent and child: the same permissions and contents, on different frames. */
  lemma TwinPage(ps: seq<Region>, cs: seq<Region>, before: Bytes, after: Bytes, v: nat)
    requires RegionsOk(ps) && RegionsOk(cs) && Twins(ps, cs, before, after)
    ensures v in AllPages(ps) <==> v in AllPages(cs)
    ensures v in AllPages(ps) ==>
              && AllPages(cs)[v].flags == AllPages(ps)[v].flags
              && AllPages(ps)[v].ppn in before && AllPages(cs)[v].ppn in after
              && after[AllPages(cs)[v].ppn] == before[AllPages(ps)[v].ppn]
  {
    hide AllPages, RegionsOk;
    PagesFromRegions(ps, v);
    PagesFromRegions(cs, v);
    forall i | 0 <= i < |ps| ensures v in ps[i].frames <==> v in cs[i].frames {
      assert Twin(ps[i], cs[i], before, after);
      assert v in ps[i].frames.Keys <==> v in cs[i].frames.Keys;
    }
    if v in AllPages(ps) {
      var i :| 0 <= i < |ps| && v in ps[i].frames;
      assert Twin(ps[i], cs[i], before, after);
    }
  }

  /** A forked parent and child, `p` before and `c` after: the child is made of copies of the parent's regions. The
      parent may have pages that no region accounts for. */
  ghost predicate Forked(p: Snapshot, ps: seq<Region>, c: Snapshot, cs: seq<Region>) {
    && Holds(p, ps) && Holds(c, cs) && Agrees(c, cs)
    && Twins(ps, cs, p.bytes, c.bytes) && BuiltFrom(p, c, cs)
  }

  lemma ForkedParts(p: Snapshot, ps: seq<Region>, c: Snapshot, cs: seq<Region>)
    requires Forked(p, ps, c, cs)
    ensures Holds(p, ps) && Holds(c, cs) && Agrees(c, cs) && Twins(ps, cs, p.bytes, c.bytes) && BuiltFrom(p, c, cs)
    ensures UserPages(c.tables, c.root) == AllPages(cs)
    ensures FramesOf(UserPages(c.tables, c.root)) <= p.free
  {
    hide Holds, Twins, AllPages, UserPages;
  }

  /** The child maps the pages of the parent's regions, with the same permissions. On each of them both read the same
      byte and can write alike, and the parent reads what it read before; elsewhere the child reads nothing. */
  lemma ForkedSame(p: Snapshot, ps: seq<Region>, c: Snapshot, cs: seq<Region>, x: nat)
    requires Forked(p, ps, c, cs) && x < USER_MAX_ADDR
    ensures var parent, child := UserPages(p.tables, p.root), UserPages(c.tables, c.root);
            && child.Keys == AllPages(ps).Keys && child.Keys <= parent.Keys
            && (forall v | v in child :: v in parent && child[v].flags == parent[v].flags)
            && (PageOf(x) in child ==>
                  && Load(c.bytes, child, x) == Load(c.bytes, parent, x) == Load(p.bytes, parent, x)
                  && UserReads(c.tables, c.bytes, c.root, x) == UserReads(p.tables, p.bytes, p.root, x)
                  && (UserWrites(c.tables, c.bytes, c.root, x) <==> UserWrites(p.tables, p.bytes, p.root, x)))
            && (PageOf(x) !in child ==>
                  && Load(c.bytes, child, x) == None && UserReads(c.tables, c.bytes, c.root, x) == None
                  && !UserWrites(c.tables, c.bytes, c.root, x))
  {
    hide *;
    ForkedParts(p, ps, c, cs);
    HoldsParts(p, ps);
    HoldsParts(c, cs);
    forall v ensures v in AllPages(ps) <==> v in AllPages(cs)
             ensures v in AllPages(ps) ==>
                       && v in UserPages(p.tables, p.root) && UserPages(p.tables, p.root)[v] == AllPages(ps)[v]
                       && AllPages(cs)[v].flags == AllPages(ps)[v].flags
    {
      TwinPage(ps, cs, p.bytes, c.bytes, v);
      if v in AllPages(ps) { OwnPage(p, ps, v); }
    }
    TwinPage(ps, cs, p.bytes, c.bytes, PageOf(x));
    ForkFrames(p, ps, c, cs);
    TwinLoad(AllPages(ps), UserPages(p.tables, p.root), AllPages(cs), p.bytes, c.bytes, x);
    UserAccess(p, p.bytes, x);
    UserAccess(c, c.bytes, x);
  }

  lemma OwnPage(s: Snapshot, rs: seq<Region>, v: nat)
    requires Holds(s, rs) && v in AllPages(rs)
    ensures v in UserPages(s.tables, s.root) && UserPages(s.tables, s.root)[v] == AllPages(rs)[v]
  {
    UserPageOf(rs, v);
    InPages(s, v);
    hide UserPages, AllPages, RegionsOk, NoSupers, SnapOk;
  }

  /** Parent and child read the same everywhere exactly if the parent's table maps nothing but its regions. */
  lemma ForkExact(p: Snapshot, ps: seq<Region>, c: Snapshot, cs: seq<Region>)
    requires Forked(p, ps, c, cs)
    ensures (forall x: nat ::
              Load(c.bytes, UserPages(c.tables, c.root), x) == Load(p.bytes, UserPages(p.tables, p.root), x)) <==>
              Agrees(p, ps)
  {
    hide *;
    var parent, child := UserPages(p.tables, p.root), UserPages(c.tables, c.root);
    assert 0 < USER_MAX_ADDR by { UserBound(); }
    ForkedSame(p, ps, c, cs, 0);
    ForkedParts(p, ps, c, cs);
    AgreesUnfold(p, ps);
    OwnPages(p, ps);
    if Agrees(p, ps) {
      forall x: nat ensures Load(c.bytes, child, x) == Load(p.bytes, parent, x) {
        if PageOf(x) in child || PageOf(x) in parent {
          UserAddress(p, x);
          ForkedSame(p, ps, c, cs, x);
        } else {
          NoPage(c.bytes, child, x);
          NoPage(p.bytes, parent, x);
        }
      }
    } else {
      var v :| v in parent && v !in child;
      HoldsParts(p, ps);
      StaleLoad(p.bytes, parent, c.bytes, child, v);
    }
  }

  lemma OwnPages(s: Snapshot, rs: seq<Region>)
    requires Holds(s, rs)
    ensures UserPages(s.tables, s.root) == AllPages(rs) <==> UserPages(s.tables, s.root).Keys == AllPages(rs).Keys
    ensures AllPages(rs).Keys <= UserPages(s.tables, s.root).Keys
  {
    hide UserPages, AllPages, Holds;
    forall v | v in AllPages(rs)
      ensures v in UserPages(s.tables, s.root) && UserPages(s.tables, s.root)[v] == AllPages(rs)[v]
    {
      OwnPage(s, rs, v);
    }
  }

  lemma UserAddress(s: Snapshot, x: nat)
    requires PageOf(x) in UserPages(s.tables, s.root)
    ensures x < USER_MAX_ADDR
  {
    hide Translate;
    PageInRange(x, USER_PAGES);
  }

  lemma NoPage(bytes: Bytes, pages: PageMap, x: nat)
    requires PageOf(x) !in pages
    ensures Load(bytes, pages, x) == None
  {
  }

  lemma StaleLoad(a: Bytes, parent: PageMap, b: Bytes, child: PageMap, v: nat)
    requires v in parent && v !in child && Backed(a, parent)
    ensures exists x: nat :: Load(b, child, x) != Load(a, parent, x)
  {
    assert PageOf(v * PAGE_SIZE) == v;
    assert Load(b, child, v * PAGE_SIZE) != Load(a, parent, v * PAGE_SIZE);
  }

  lemma ForkFrames(p: Snapshot, ps: seq<Region>, c: Snapshot, cs: seq<Region>)
    requires Apart(p, DataFrames(ps)) && BuiltFrom(p, c, cs)
    ensures FramesOf(AllPages(ps)) !! FramesOf(AllPages(cs))
    ensures forall f | f in FramesOf(AllPages(ps)) && f in p.bytes :: f in c.bytes && c.bytes[f] == p.bytes[f]
  {
    hide AllPages;
  }

  lemma TwinLoad(regions: PageMap, parent: PageMap, child: PageMap, before: Bytes, after: Bytes, x: nat)
    requires PageOf(x) in regions <==> PageOf(x) in child
    requires PageOf(x) in regions ==>
              && PageOf(x) in parent && parent[PageOf(x)] == regions[PageOf(x)]
              && regions[PageOf(x)].ppn in before && child[PageOf(x)].ppn in after
              && after[child[PageOf(x)].ppn] == before[regions[PageOf(x)].ppn]
    requires forall f | f in FramesOf(regions) && f in before :: f in after && after[f] == before[f]
    ensures PageOf(x) in child ==>
              Load(after, child, x) == Load(before, parent, x) && Load(after, parent, x) == Load(before, parent, x)
    ensures PageOf(x) in child ==> Load(after, child, x).Some?
    ensures PageOf(x) !in child ==> Load(after, child, x) == None
  {
    if PageOf(x) in regions { assert regions[PageOf(x)].ppn in FramesOf(regions); }
  }

  /** The kernel's table `k` beside a parent and its child. */
  ghost predicate WithKernel(p: Snapshot, c: Snapshot, k: Snapshot) {
    && SnapOk(k) && k.lim == PTE_PER_TABLE && k.shared == {} && k.tables == p.tables && k.bytes == p.bytes
    && k.free == p.free
    && p.lim == UPPER_HALF && c.lim == UPPER_HALF && p.shared == k.node.Values && c.shared == k.node.Values
    && p.tables == Decoded(p.bytes) && c.tables == Decoded(c.bytes) && (forall f | f in p.bytes :: f < PPN_LIMIT)
  }

  /** A table that was there before the fork, in the memory after it. */
  function Later(s: Snapshot, c: Snapshot): Snapshot {
    s.(tables := c.tables, bytes := c.bytes, free := c.free)
  }

  lemma ForkTogether(p: Snapshot, ps: seq<Region>, c: Snapshot, cs: seq<Region>, k: Snapshot)
    requires Forked(p, ps, c, cs) && WithKernel(p, c, k)
    ensures Together([Later(p, c), c], Later(k, c))
    ensures UserPages(c.tables, p.root) == UserPages(p.tables, p.root)
  {
    hide Holds, Agrees, Twins, BuiltFrom, UserPages, Decoded, Booked, SnapOk, NoSupers, OnlyFree, RegionsOk, OneToOne,
         Apart, Backed, SameViews;
    BuiltOnlyFree(p, c, cs);
    BystandersKept(p, ps, k, Later(p, c), Later(k, c));
    HoldsParts(Later(p, c), ps);
    HoldsParts(c, cs);
    BuiltBytes(p, c, cs);
    WithinKeys(p.bytes, c.bytes, p.free);
  }

  lemma WithinKeys(a: Bytes, b: Bytes, may: set<nat>)
    requires BytesWithin(a, b, may)
    ensures b.Keys == a.Keys
  {
  }

  /** Fork isolation, exactly: whatever parent and child write afterwards, in whatever order, each sees what its own
      writes did, and kernel pages stay where they are, if and only if neither can write a table, its own, the other's
      or the kernel's, or a frame the other one sees. That is so whenever the parent mapped no frame that was free and
      could write no table; and so whenever its table agreed with its regions. */
  lemma ForkIsolation(p: Snapshot, ps: seq<Region>, c: Snapshot, cs: seq<Region>, k: Snapshot)
    requires Forked(p, ps, c, cs) && WithKernel(p, c, k)
    ensures Isolated([Later(p, c), c], Later(k, c)) <==> KeptApart([Later(p, c), c], Later(k, c))
    ensures FramesOf(UserPages(p.tables, p.root)) !! p.free && SealedOff(p) ==> Isolated([Later(p, c), c], Later(k, c))
    ensures Agrees(p, ps) ==> FramesOf(UserPages(p.tables, p.root)) !! p.free && SealedOff(p)
  {
    hide *;
    ForkTogether(p, ps, c, cs, k);
    IsolationExact([Later(p, c), c], Later(k, c));
    ForkedParts(p, ps, c, cs);
    HoldsParts(p, ps);
    if FramesOf(UserPages(p.tables, p.root)) !! p.free && SealedOff(p) { ForkApart(p, ps, c, cs, k); }
    if Agrees(p, ps) { AgreesSealed(p, ps); ApartFree(p, ps); }
  }

  lemma ForkApart(p: Snapshot, ps: seq<Region>, c: Snapshot, cs: seq<Region>, k: Snapshot)
    requires Forked(p, ps, c, cs) && WithKernel(p, c, k) && UserPages(c.tables, p.root) == UserPages(p.tables, p.root)
    requires FramesOf(UserPages(p.tables, p.root)) !! p.free && SealedOff(p)
    ensures KeptApart([Later(p, c), c], Later(k, c))
  {
    hide *;
    var parent, child := UserPages(p.tables, p.root), UserPages(c.tables, c.root);
    ForkedParts(p, ps, c, cs);
    HoldsParts(p, ps);
    HoldsParts(c, cs);
    AgreesSealed(c, cs);
    FreeApart(p);
    WritableAreFrames(parent);
    WritableAreFrames(child);
    SealParts(p);
    SealParts(c);
    BuiltNodes(p, c, cs);
    KernelNodes(p, c, k);
    LaterIs(p, c);
    LaterIs(k, c);
    PairApart([Later(p, c), c], Later(k, c));
  }

  lemma SealParts(s: Snapshot)
    requires SealedOff(s)
    ensures WritableFrames(UserPages(s.tables, s.root)) !! s.node.Values
    ensures WritableFrames(UserPages(s.tables, s.root)) !! s.shared
  {
    hide UserPages, WritableFrames;
  }

  lemma BuiltNodes(m: Snapshot, c: Snapshot, cs: seq<Region>)
    requires BuiltFrom(m, c, cs)
    ensures c.node.Values <= m.free
  {
    hide DataFrames;
  }

  lemma KernelNodes(p: Snapshot, c: Snapshot, k: Snapshot)
    requires WithKernel(p, c, k)
    ensures p.shared == k.node.Values && c.shared == k.node.Values
  {
    hide SnapOk, Decoded, Booked;
  }

  lemma PairApart(ss: seq<Snapshot>, k: Snapshot)
    requires |ss| == 2
    requires var a, b := UserPages(ss[0].tables, ss[0].root), UserPages(ss[1].tables, ss[1].root);
             && WritableFrames(a) !! k.node.Values && WritableFrames(a) !! ss[0].node.Values
             && WritableFrames(a) !! ss[1].node.Values
             && WritableFrames(b) !! k.node.Values && WritableFrames(b) !! ss[0].node.Values
             && WritableFrames(b) !! ss[1].node.Values
             && WritableFrames(a) !! FramesOf(b) && WritableFrames(b) !! FramesOf(a)
    ensures KeptApart(ss, k)
  {
    hide WritableFrames, UserPages, FramesOf, Keeps;
    OneKeeps(ss, k, 0, 1, WritableFrames(UserPages(ss[0].tables, ss[0].root)));
    OneKeeps(ss, k, 1, 0, WritableFrames(UserPages(ss[1].tables, ss[1].root)));
  }

  lemma OneKeeps(ss: seq<Snapshot>, k: Snapshot, i: nat, j: nat, mine: set<nat>)
    requires |ss| == 2 && i < 2 && j < 2 && i != j && mine !! k.node.Values && mine !! ss[i].node.Values
    requires mine !! ss[j].node.Values && mine !! FramesOf(UserPages(ss[j].tables, ss[j].root))
    ensures Keeps(ss, k, i, mine)
  {
    hide UserPages, FramesOf;
  }

  /** If the fork took a frame that the parent can write, for the child's root, one of its tables or its memory, then
      the two are not isolated. */
  lemma ForkOverStale(p: Snapshot, ps: seq<Region>, c: Snapshot, cs: seq<Region>, k: Snapshot, f: nat)
    requires Forked(p, ps, c, cs) && WithKernel(p, c, k)
    requires f in WritableFrames(UserPages(p.tables, p.root)) && f in p.free && f !in c.free
    ensures !Isolated([Later(p, c), c], Later(k, c))
  {
    hide *;
    ForkTogether(p, ps, c, cs, k);
    IsolationExact([Later(p, c), c], Later(k, c));
    ForkedParts(p, ps, c, cs);
    AgreesSealedFrames(c, cs);
    TakenByChild(p, c, cs, f);
    NotApart([Later(p, c), c], Later(k, c), f) by { LaterIs(p, c); }
  }

  lemma LaterIs(s: Snapshot, c: Snapshot)
    ensures Later(s, c).tables == c.tables && Later(s, c).root == s.root && Later(s, c).node == s.node
  {
  }

  lemma AgreesSealedFrames(s: Snapshot, rs: seq<Region>)
    requires Holds(s, rs) && Agrees(s, rs)
    ensures FramesOf(UserPages(s.tables, s.root)) == DataFrames(rs)
  {
    hide Holds, Agrees, UserPages;
    AgreesSealed(s, rs);
  }

  lemma TakenByChild(p: Snapshot, c: Snapshot, cs: seq<Region>, f: nat)
    requires BuiltFrom(p, c, cs) && f in p.free && f !in c.free
    ensures f in c.node.Values || f in DataFrames(cs)
  {
    hide DataFrames;
  }

  lemma NotApart(ss: seq<Snapshot>, k: Snapshot, f: nat)
    requires |ss| == 2 && f in WritableFrames(UserPages(ss[0].tables, ss[0].root))
    requires f in ss[1].node.Values || f in FramesOf(UserPages(ss[1].tables, ss[1].root))
    ensures !KeptApart(ss, k)
  {
    hide WritableFrames, UserPages, FramesOf;
    assert !Keeps(ss, k, 0, WritableFrames(UserPages(ss[0].tables, ss[0].root)));
  }
}
