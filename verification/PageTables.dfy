/** A page table as the kernel edits it: the walk that creates tables, mapping at every level, unmapping,
    protecting, and sharing the kernel half. */
module PageTables {
  import opened Prelude
  import opened Sv39
  import opened Sv39Tree
  import opened Memory
  import opened Hardware
  import opened PhysMemory

  datatype MapResult = Mapped | AlreadyMapped | NotMapped | OutOfMemory

  /** No superpage lies on the way of `v` above `level`. */
  ghost predicate NoLeafAbove(tables: Tables, root: nat, v: nat, level: nat)
    requires level <= SV39_LEVELS
  {
    forall l | 0 <= l < level :: EntryAt(tables, root, v, l).Some? ==> !EntryAt(tables, root, v, l).value.IsLeaf()
  }

  /** Both walks give the same result for every page. */
  ghost predicate SameViews(a: Tables, b: Tables, root: nat) {
    forall w :: HwWalk(b, root, w) == HwWalk(a, root, w) && Translate(b, root, w) == Translate(a, root, w)
  }

  /** No page that had no superpage on its way got one. */
  ghost predicate NoNewSuper(a: Tables, b: Tables, root: nat) {
    forall w: nat | NoLeafAbove(a, root, w, 2) :: NoLeafAbove(b, root, w, 2)
  }

  predicate HasRwx(flags: Flags) {
    flags.read || flags.write || flags.exec
  }

  /** What the hardware makes of a bottom-level or leaf entry. */
  function HwLeaf(pte: Pte, w: nat, level: nat): Option<Mapping> {
    if pte.IsLeaf() then LeafMapping(pte, w, level) else None
  }

  /** The pages below one entry at `level` are an aligned run. */
  lemma SameWayIsSameRun(v: nat, w: nat, level: nat)
    requires Canonical(v) && Canonical(w) && level < SV39_LEVELS
    ensures SameWay(v, w, level) <==> w / LeafPages(level) == v / LeafPages(level)
  {
    Digits(v);
    Digits(w);
    if level == 0 {
      NestedDivision(v);
      NestedDivision(w);
    }
  }

  lemma NestedDivision(v: nat)
    ensures v / 0x4_0000 == v / 512 / 512
  {
  }

  // ---- what one write does to every translation --------------------------------------------

  /** Writing `pte` where no pointer was, at `level` on the way of `v`. */
  lemma PutLeafViews(tables: Tables, node: map<Path, nat>, lim: nat, v: nat, level: nat, pte: Pte, w: nat)
    requires TreeOk(tables, node, lim) && Index(v, 0) < lim && level < SV39_LEVELS && PathTo(v, level) in node
    requires level == 2 || (!pte.IsPointer() && !tables[node[PathTo(v, level)]][Index(v, level)].IsPointer())
    requires Canonical(v) && Canonical(w) && Index(w, 0) < lim
    ensures var tables' := PutEntry(tables, node[PathTo(v, level)], Index(v, level), pte);
            && HwWalk(tables', node[Root], w) ==
               (if w / LeafPages(level) == v / LeafPages(level) then HwLeaf(pte, w, level)
                   else HwWalk(tables, node[Root], w))
            && Translate(tables', node[Root], w) ==
               (if level == 2 && w == v then (if pte.flags.valid then Some(pte) else None)
                   else Translate(tables, node[Root], w))
  {
    var root, tables' := node[Root], PutEntry(tables, node[PathTo(v, level)], Index(v, level), pte);
    hide TreeOk, Canonical, Index, LeafPages, LeafMapping;
    PutLeafEntries(tables, node, lim, v, level, pte, w, 0);
    PutLeafEntries(tables, node, lim, v, level, pte, w, 1);
    PutLeafEntries(tables, node, lim, v, level, pte, w, 2);
    HwByEntries(tables, root, w);
    HwByEntries(tables', root, w);
    SlotByEntries(tables, root, w);
    SlotByEntries(tables', root, w);
    SameWayIsSameRun(v, w, level);
    if SameWay(v, w, level) { WayIsOpen(tables, node, lim, v, w, level); }
    assert LeafPages(2) == 1 by { SmallPages(); }
  }

  lemma SmallPages()
    ensures LeafPages(2) == 1
  {
  }

  /** A table exists on the way of `v` at `level`, so every walk that goes the same way gets there. */
  lemma WayIsOpen(tables: Tables, node: map<Path, nat>, lim: nat, v: nat, w: nat, level: nat)
    requires TreeOk(tables, node, lim) && Index(v, 0) < lim && level < SV39_LEVELS && PathTo(v, level) in node
    requires SameWay(v, w, level)
    ensures forall l: nat | l < level ::
              EntryAt(tables, node[Root], w, l).Some? && EntryAt(tables, node[Root], w, l).value.IsPointer()
    ensures EntryAt(tables, node[Root], w, level) == Some(tables[node[PathTo(v, level)]][Index(v, level)])
  {
    EntryInTree(tables, node, lim, w, 0);
    EntryInTree(tables, node, lim, w, level);
    if level == 2 { EntryInTree(tables, node, lim, w, 1); }
  }

  /** The upper half seen through the root is untouched by writes elsewhere. */
  lemma UpperViews(tables: Tables, tables': Tables, root: nat, lim: nat, shared: set<nat>)
    requires UpperIn(tables, root, lim, shared) && root in tables'
    requires forall i: nat | lim <= i < PTE_PER_TABLE :: tables'[root][i] == tables[root][i]
    requires tables'.Keys == tables.Keys && forall f | f in shared && f in tables :: tables'[f] == tables[f]
    ensures UpperIn(tables', root, lim, shared)
    ensures forall w: nat | Index(w, 0) >= lim ::
              HwWalk(tables', root, w) == HwWalk(tables, root, w)
                  && Translate(tables', root, w) == Translate(tables, root, w)
    ensures forall w: nat | Index(w, 0) >= lim && NoLeafAbove(tables, root, w, 2) :: NoLeafAbove(tables', root, w, 2)
  {
    UpperUnchanged(tables, tables', root, lim, shared);
    hide UpperIn;
    forall w: nat | Index(w, 0) >= lim
      ensures HwWalk(tables', root, w) == HwWalk(tables, root, w)
      ensures Translate(tables', root, w) == Translate(tables, root, w)
      ensures NoLeafAbove(tables, root, w, 2) ==> NoLeafAbove(tables', root, w, 2)
    {
      WalksReadEntries(tables, tables', root, w);
    }
  }

  /** A page table whose frames are `frames`: the tree `node` below root entry `lim`, and above it entries
      that lead into tables owned by someone else, `shared`. */
  ghost predicate TableOk(tables: Tables, free: set<nat>, root: nat, frames: seq<nat>, node: map<Path, nat>, lim: nat,
                          shared: set<nat>) {
    && TreeOk(tables, node, lim) && node[Root] == root && lim <= PTE_PER_TABLE
    && Distinct(frames) && (forall f :: f in frames <==> f in node.Values)
    && node.Values !! free
    && UpperIn(tables, root, lim, shared) && shared !! node.Values && shared !! free
  }

  lemma GraftOk(tables: Tables, free: set<nat>, root: nat, frames: seq<nat>, node: map<Path, nat>, lim: nat,
                shared: set<nat>,
                v: nat, level: nat, f: nat)
    requires TableOk(tables, free, root, frames, node, lim, shared) && CanGraft(tables, node, lim, v, level, f)
    requires f in free
    ensures var tables' := Graft(tables, node[PathTo(v, level)], Index(v, level), f);
            && TableOk(tables', free - {f}, root, frames + [f], node[PathTo(v, level + 1) := f], lim, shared)
            && SameViews(tables, tables', root) && NoNewSuper(tables, tables', root)
            && node[PathTo(v, level + 1) := f].Values == node.Values + {f}
            && PathTo(v, level + 1) !in node
            && (forall i: nat | lim <= i < PTE_PER_TABLE :: tables'[root][i] == tables[root][i])
  {
    var parent := node[PathTo(v, level)];
    var tables' := Graft(tables, parent, Index(v, level), f);
    var node' := node[PathTo(v, level + 1) := f];
    GraftTree(tables, node, lim, v, level, f);
    assert parent in node.Values;
    assert node'.Values == node.Values + {f} by { ExtendValues(node, PathTo(v, level + 1), f); }
    assert root in node.Values;
    assert forall i: nat | lim <= i < PTE_PER_TABLE :: tables'[root][i] == tables[root][i] by {
      assert parent == root ==> PathTo(v, level) == Root;
    }
    UpperViews(tables, tables', root, lim, shared);
    forall w
      ensures HwWalk(tables', root, w) == HwWalk(tables, root, w)
      ensures Translate(tables', root, w) == Translate(tables, root, w)
    {
      if Index(w, 0) < lim { GraftViews(tables, node, lim, v, level, f, w); }
    }
    forall w: nat | NoLeafAbove(tables, root, w, 2) ensures NoLeafAbove(tables', root, w, 2) {
      if Index(w, 0) < lim { GraftNoLeaf(tables, node, lim, v, level, f, w, 2); }
    }
  }

  lemma GraftNoLeaf(tables: Tables, node: map<Path, nat>, lim: nat, v: nat, level: nat, f: nat, w: nat, stop: nat)
    requires CanGraft(tables, node, lim, v, level, f) && Index(w, 0) < lim && stop <= 2
    requires NoLeafAbove(tables, node[Root], w, stop)
    ensures NoLeafAbove(Graft(tables, node[PathTo(v, level)], Index(v, level), f), node[Root], w, stop)
  {
    var tables' := Graft(tables, node[PathTo(v, level)], Index(v, level), f);
    forall l | 0 <= l < stop
      ensures EntryAt(tables', node[Root], w, l).Some? ==> !EntryAt(tables', node[Root], w, l).value.IsLeaf()
    {
      GraftEntries(tables, node, lim, v, level, f, w, l);
    }
  }

  lemma ExtendValues(node: map<Path, nat>, p: Path, f: nat)
    requires p !in node
    ensures node[p := f].Values == node.Values + {f}
  {
    var node' := node[p := f];
    assert node'[p] == f;
    forall x | x in node.Values ensures x in node'.Values {
      var q :| q in node && node[q] == x;
      assert node'[q] == x;
    }
  }

  lemma PutLeafOk(tables: Tables, free: set<nat>, root: nat, frames: seq<nat>, node: map<Path, nat>, lim: nat,
                  shared: set<nat>,
                  v: nat, level: nat, pte: Pte)
    requires TableOk(tables, free, root, frames, node, lim, shared)
    requires Canonical(v) && Index(v, 0) < lim && level < SV39_LEVELS && PathTo(v, level) in node
    requires level == 2 || (!pte.IsPointer() && !tables[node[PathTo(v, level)]][Index(v, level)].IsPointer())
    ensures var tables' := PutEntry(tables, node[PathTo(v, level)], Index(v, level), pte);
            && TableOk(tables', free, root, frames, node, lim, shared)
            && (forall i: nat | lim <= i < PTE_PER_TABLE :: tables'[root][i] == tables[root][i])
            && (forall w: nat | Canonical(w) :: HwWalk(tables', root, w) ==
                 (if w / LeafPages(level) == v / LeafPages(level) then HwLeaf(pte, w, level)
                     else HwWalk(tables, root, w)))
            && (forall w: nat | Canonical(w) :: Translate(tables', root, w) ==
                 (if level == 2 && w == v then (if pte.flags.valid then Some(pte) else None)
                     else Translate(tables, root, w)))
            && (forall w: nat | NoLeafAbove(tables, root, w, 2) && (level == 2 || !SameWay(v, w, level)) ::
                NoLeafAbove(tables', root, w, 2))
  {
    var frame := node[PathTo(v, level)];
    var tables' := PutEntry(tables, frame, Index(v, level), pte);
    PutLeafTree(tables, node, lim, v, level, pte);
    assert frame in node.Values && root in node.Values;
    assert forall i: nat | lim <= i < PTE_PER_TABLE :: tables'[root][i] == tables[root][i] by {
      assert frame == root ==> PathTo(v, level) == Root;
    }
    UpperViews(tables, tables', root, lim, shared);
    forall w: nat | NoLeafAbove(tables, root, w, 2) && (level == 2 || !SameWay(v, w, level))
      ensures NoLeafAbove(tables', root, w, 2)
    {
      if Index(w, 0) < lim {
        PutLeafEntries(tables, node, lim, v, level, pte, w, 0);
        PutLeafEntries(tables, node, lim, v, level, pte, w, 1);
      }
    }
    hide HwWalk, Translate, Canonical, HwLeaf, TreeOk, UpperIn, NoLeafAbove;
    forall w: nat | Canonical(w)
      ensures HwWalk(tables', root, w) ==
                (if w / LeafPages(level) == v / LeafPages(level) then HwLeaf(pte, w, level)
                    else HwWalk(tables, root, w))
      ensures Translate(tables', root, w) ==
                (if level == 2 && w == v then (if pte.flags.valid then Some(pte) else None)
                    else Translate(tables, root, w))
    {
      if Index(w, 0) < lim {
        PutLeafViews(tables, node, lim, v, level, pte, w);
      } else {
        SameWayIsSameRun(v, w, level);
        DifferentRoot(v, w, level);
      }
    }
  }

  lemma DifferentRoot(v: nat, w: nat, level: nat)
    requires Index(v, 0) != Index(w, 0)
    ensures !SameWay(v, w, level) && v != w
  {
  }

  // ---- the table itself ------------------------------------------------------------------------

  class PageTable {
    const mem: PhysMem
    var root: nat
    /** Root plus interior tables. */
    var frames: seq<nat>
    /** Where each of those tables sits. */
    ghost var node: map<Path, nat>
    /** Root entries from `lim` on were copied from the kernel's table and lead into `shared`. */
    ghost var lim: nat
    ghost var shared: set<nat>

    ghost predicate Valid()
      reads this, mem
    {
      mem.Valid() && TableOk(mem.tables, mem.free, root, frames, node, lim, shared)
    }

    ghost function Owned(): set<nat>
      reads this
    {
      node.Values
    }

    ghost function Now(): Snapshot
      reads this, mem
    {
      Snapshot(mem.tables, mem.bytes, mem.free, root, frames, node, lim, shared)
    }

    /** An empty table in a fresh frame. */
    constructor (mem: PhysMem, frame: nat)
      requires mem.Valid() && frame in mem.tables && frame !in mem.free && mem.tables[frame] == ZeroTable()
      ensures this.mem == mem && Valid() && root == frame && Owned() == {frame}
      ensures node == map[Root := frame] && lim == PTE_PER_TABLE && shared == {}
      ensures forall w :: HwWalk(mem.tables, root, w) == None && Translate(mem.tables, root, w) == None
    {
      this.mem := mem;
      root, frames := frame, [frame];
      node, lim, shared := map[Root := frame], PTE_PER_TABLE, {};
      new;
      EmptyTree(mem.tables, frame);
    }

    /** One step of the walk: from the table at `level` to the one below it, made if need be. */
    method Descend(v: nat, level: nat, stop: nat, ppn: nat) returns (r: Option<nat>)
      requires Valid() && Canonical(v) && level < stop < SV39_LEVELS && Index(v, 0) < lim
      requires NoLeafAbove(mem.tables, root, v, stop)
      requires PathTo(v, level) in node && ppn == node[PathTo(v, level)]
      modifies `frames, `node, mem
      ensures Valid() && Kept(old(Now()), Now()) && NoLeafAbove(mem.tables, root, v, stop) && old(mem.log) <= mem.log
      ensures r.None? ==> Now() == old(Now()) && mem.free == {} && PathTo(v, level + 1) !in node
      ensures SlotsKept(old(Now()), Now(), v)
      ensures r.Some? ==> Descended(old(Now()), Now(), v, level, r.value)
    {
      hide Decoded, Booked, TableOk, Kept, NoLeafAbove, SlotsKept, Index, Descended;
      ghost var before := Now();
      RootFacts(before);
      ChildOnWay(before, v, level);
      NotALeaf(before, v, level, stop);
      var entry := mem.Entry(ppn, Index(v, level));
      if !entry.flags.valid {
        r := MakeTable(v, level, stop, ppn);
        return;
      }
      SlotsRefl(before, v);
      KeptRefl(before);
      FoundBelow(before, v, level, entry.ppn);
      return Some(entry.ppn);
    }

    /** Make the table below the one at `level`. */
    method MakeTable(v: nat, level: nat, stop: nat, ppn: nat) returns (r: Option<nat>)
      requires Valid() && Canonical(v) && level < stop < SV39_LEVELS && Index(v, 0) < lim
      requires NoLeafAbove(mem.tables, root, v, stop)
      requires PathTo(v, level) in node && ppn == node[PathTo(v, level)] && PathTo(v, level + 1) !in node
      requires ppn in mem.tables && !mem.tables[ppn][Index(v, level)].flags.valid
      modifies `frames, `node, mem
      ensures Valid() && Kept(old(Now()), Now()) && NoLeafAbove(mem.tables, root, v, stop) && old(mem.log) <= mem.log
      ensures SlotsKept(old(Now()), Now(), v)
      ensures r.None? ==> Now() == old(Now()) && mem.free == {}
      ensures r.Some? ==> Descended(old(Now()), Now(), v, level, r.value)
    {
      hide Decoded, Booked, TableOk, Kept, NoLeafAbove, SlotsKept, Index, Descended, Canonical, ZeroTable, ZeroPage;
      ghost var before := Now();
      RootFacts(before);
      var frame; ghost var shuffled;
      frame, shuffled := mem.Alloc();
      if frame.None? {
        SlotsRefl(before, v);
        KeptRefl(before);
        return None;
      }
      ghost var mid := before.(tables := Decoded(shuffled), bytes := shuffled);
      DecodedWithin(before.bytes, shuffled, before.free);
      Shuffled(before, mid, v);
      ShuffledWay(before, mid, v, level, stop);
      OwnedIsNotFree(before, PathTo(v, level));
      ghost var taken := mem.bytes;
      mem.PutEntry(ppn, Index(v, level), Pte(frame.value, POINTER_FLAGS));
      TwoWritten(shuffled, taken, mem.bytes, frame.value, ppn);
      frames := frames + [frame.value];
      node := node[PathTo(v, level + 1) := frame.value];
      GraftKeeps(mid, Now(), v, level, stop, frame.value);
      KeptTrans(before, mid, Now());
      SlotsTrans(before, mid, Now(), v);
      MadeBelow(before, Now(), v, level, frame.value);
      return frame;
    }

    /** Walk to the table holding the slot of `v` at `stop`, allocating interior tables as needed. */
    method WalkCreateTo(v: nat, stop: nat) returns (r: Option<nat>)
      requires Valid() && Canonical(v) && stop < SV39_LEVELS && Index(v, 0) < lim
      requires NoLeafAbove(mem.tables, root, v, stop)
      modifies `frames, `node, mem
      ensures Valid() && Kept(old(Now()), Now()) && old(mem.log) <= mem.log
      ensures r.None? <==> |old(mem.free)| < Missing(old(node.Keys), v, stop)
      ensures r.None? ==> mem.free == {} && PathTo(v, stop) !in old(node)
      ensures r.Some? ==> node.Keys == old(node.Keys) + Way(v, stop)
      ensures SlotsKept(old(Now()), Now(), v)
      ensures r.Some? ==> |mem.free| == |old(mem.free)| - Missing(old(node.Keys), v, stop)
      ensures r.Some? ==> PathTo(v, stop) in node && r.value == node[PathTo(v, stop)]
      ensures r.Some? && PathTo(v, stop) in old(node) ==> Now() == old(Now())
      ensures r.Some? && PathTo(v, stop) !in old(node) ==> r.value in mem.tables && mem.tables[r.value] == ZeroTable()
    {
      hide TableOk, Kept, NoLeafAbove, Index, SlotsKept, Decoded, Booked, Way, Missing, Walked, Descended;
      ghost var start := Now();
      RootFacts(start);
      var ppn := root;
      var level := 0;
      WalkedNowhere(start, v);
      while level < stop
        invariant Valid() && old(mem.log) <= mem.log && level <= stop && lim == start.lim
        invariant NoLeafAbove(mem.tables, root, v, stop) && Walked(start, Now(), v, level, ppn)
      {
        ghost var before := Now();
        WalkedAt(start, before, v, level, ppn);
        var next := Descend(v, level, stop, ppn);
        if next.None? {
          WalkedStop(start, before, v, level, stop, ppn);
          return None;
        }
        WalkedMore(start, before, Now(), v, level, ppn, next.value);
        ppn := next.value;
        level := level + 1;
      }
      WalkedTo(start, Now(), v, level, ppn);
      return Some(ppn);
    }

    /** Map a leaf at `level`; a superpage when `level < 2`. */
    method MapAtLevel(v: nat, ppn: nat, flags: Flags, level: nat) returns (r: MapResult)
      requires Valid() && level < SV39_LEVELS && Canonical(v) && Index(v, 0) < lim
      requires v % LeafPages(level) == 0 && ppn % LeafPages(level) == 0 && (level < 2 ==> HasRwx(flags))
      requires NoLeafAbove(mem.tables, root, v, level) && ppn < PPN_LIMIT
      modifies `frames, `node, mem
      ensures Valid() && Edited(old(Now()), Now()) && old(mem.log) <= mem.log
      ensures r == Mapped || r == AlreadyMapped || r == OutOfMemory
      ensures r == AlreadyMapped <==> var e := old(EntryAt(mem.tables, root, v, level)); e.Some? && e.value.flags.valid
      ensures r == OutOfMemory <==> |old(mem.free)| < Missing(old(node.Keys), v, level)
      ensures r == OutOfMemory ==> mem.free == {}
      ensures r != OutOfMemory ==> |mem.free| == |old(mem.free)| - Missing(old(node.Keys), v, level)
      ensures r != OutOfMemory ==> node.Keys == old(node.Keys) + Way(v, level)
      ensures SlotsKept(old(Now()), Now(), v)
      ensures r != Mapped ==>
                SameViews(old(mem.tables), mem.tables, root) && NoNewSuper(old(mem.tables), mem.tables, root)
      ensures r == Mapped ==>
                LeafAdded(old(mem.tables), mem.tables, root, v, Pte(ppn, Present(flags)), level)
    {
      hide TableOk, Edited, SameViews, NoNewSuper, NoLeafAbove, Canonical, LeafPages, Index, SlotsKept, Decoded, Booked,
           Kept, LeafAdded, EntryAt, Missing, Way;
      ghost var start := Now();
      SlotOnWay(start, v, level);
      var table := WalkCreateTo(v, level);
      ghost var mid := Now();
      KeptSame(start, mid);
      SlotOnWay(mid, v, level);
      if table.None? {
        return OutOfMemory;
      }
      var index := Index(v, level);
      if mem.Entry(table.value, index).flags.valid {
        return AlreadyMapped;
      }
      OwnedIsNotFree(mid, PathTo(v, level));
      mem.PutEntry(table.value, index, Pte(ppn, Present(flags)));
      PutLeafSnap(mid, Now(), v, level, Pte(ppn, Present(flags)));
      SlotsTrans(start, mid, Now(), v) by { KeptSame(start, mid); EditedSame(mid, Now()); }
      EditedTrans(start, mid, Now());
      LeafAddedAfter(start.tables, mid.tables, mem.tables, root, v, Pte(ppn, Present(flags)), level);
      return Mapped;
    }

    /** Map one 4 KiB page. */
    method Map(v: nat, ppn: nat, flags: Flags) returns (r: MapResult)
      requires Valid() && Canonical(v) && Index(v, 0) < lim && NoLeafAbove(mem.tables, root, v, 2) && ppn < PPN_LIMIT
      modifies `frames, `node, mem
      ensures Valid() && Edited(old(Now()), Now()) && old(mem.log) <= mem.log
      ensures r == Mapped || r == AlreadyMapped || r == OutOfMemory
      ensures r == AlreadyMapped <==> old(Translate(mem.tables, root, v)).Some?
      ensures r == OutOfMemory <==> |old(mem.free)| < Missing(old(node.Keys), v, 2)
      ensures r == OutOfMemory ==> mem.free == {}
      ensures r != OutOfMemory ==> |mem.free| == |old(mem.free)| - Missing(old(node.Keys), v, 2)
      ensures r != OutOfMemory ==> node.Keys == old(node.Keys) + Way(v, 2)
      ensures SlotsKept(old(Now()), Now(), v)
      ensures r != Mapped ==>
                SameViews(old(mem.tables), mem.tables, root) && NoNewSuper(old(mem.tables), mem.tables, root)
      ensures r == Mapped ==> PageSet(old(mem.tables), mem.tables, root, v, Some(Pte(ppn, Present(flags))))
      ensures r == Mapped && (flags.read || (flags.exec && !flags.write)) ==>
                RawWalk(mem.bytes, root, v) == Some((ppn, PresentWord(flags)))
    {
      hide Decoded, Booked, SlotsKept, Edited, TableOk, SameViews, NoNewSuper, LeafAdded, PageSet, RawWalk, PresentWord,
           Translate, NoLeafAbove, Missing, Way, Canonical, Index, EntryAt;
      SlotByEntries(mem.tables, root, v);
      ghost var before := mem.tables;
      r := MapAtLevel(v, ppn, flags, 2);
      if r == Mapped {
        LeafIsPage(before, mem.tables, root, v, Pte(ppn, Present(flags)));
        PageIsRaw(before, mem.tables, mem.bytes, root, v, ppn, flags);
      }
    }

    /** The table holding the bottom slot of `v`, without allocating. */
    method WalkPtr(v: nat) returns (r: Option<nat>)
      requires Valid()
      ensures r.Some? <==> SlotFrom(mem.tables, root, v, 0).Some?
      ensures r.Some? ==>
                r.value in mem.tables && SlotFrom(mem.tables, root, v, 0) == Some(mem.tables[r.value][Index(v, 2)])
      ensures r.Some? && Index(v, 0) < lim ==> PathTo(v, 2) in node && node[PathTo(v, 2)] == r.value
      ensures r.None? && Index(v, 0) < lim ==> PathTo(v, 2) !in node
    {
      ghost var now := Now();
      RootFacts(now);
      hide TableOk, Decoded, Booked;
      var ppn := root;
      var level := 0;
      while level < 2
        invariant level <= 2 && ppn in mem.tables
        invariant SlotFrom(mem.tables, root, v, 0) == SlotFrom(mem.tables, ppn, v, level)
        invariant level == 0 ==> ppn == root
        invariant Index(v, 0) < lim ==> PathTo(v, level) in node && node[PathTo(v, level)] == ppn
        invariant Index(v, 0) >= lim && level > 0 ==>
                  ppn in shared && (level == 1 ==> SharedMid(mem.tables, root, lim, ppn))
      {
        var pte := mem.Entry(ppn, Index(v, level));
        if Index(v, 0) < lim {
          ChildOnWay(now, v, level);
          NoTableBelow(now, v, level);
        } else {
          SharedStep(now, v, level, ppn);
        }
        if !pte.flags.valid || pte.IsLeaf() {
          return None;
        }
        ppn := pte.ppn;
        level := level + 1;
      }
      return Some(ppn);
    }

    /** The kernel's walk for `v`, on whatever the memory holds: the tables need not be in order. */
    method Lookup(v: nat) returns (r: Option<Pte>)
      requires mem.Readable()
      ensures r == Translate(mem.tables, root, v)
    {
      hide Decoded, Booked;
      var ppn := root;
      var level := 0;
      while level < 2
        invariant level <= 2
        invariant SlotFrom(mem.tables, root, v, 0) == SlotFrom(mem.tables, ppn, v, level)
      {
        if ppn !in mem.bytes {
          return None;
        }
        var pte := mem.Entry(ppn, Index(v, level));
        if !pte.flags.valid || pte.IsLeaf() {
          return None;
        }
        ppn := pte.ppn;
        level := level + 1;
      }
      if ppn !in mem.bytes || !mem.Entry(ppn, Index(v, 2)).flags.valid {
        return None;
      }
      return Some(mem.Entry(ppn, Index(v, 2)));
    }

    method PutPage(v: nat, table: nat, pte: Pte)
      requires Valid() && Canonical(v) && Index(v, 0) < lim && PathTo(v, 2) in node && node[PathTo(v, 2)] == table
      requires pte.ppn < PPN_LIMIT
      modifies mem`tables, mem`bytes, mem`log
      ensures Valid() && Edited(old(Now()), Now()) && old(mem.log) <= mem.log
      ensures PageSet(old(mem.tables), mem.tables, root, v, if pte.flags.valid then Some(pte) else None)
    {
      hide TableOk, Edited, Canonical, Index, Decoded, Booked, SlotsKept, LeafAdded, PageSet;
      ghost var before := Now();
      SlotOnWay(before, v, 2);
      OwnedIsNotFree(before, PathTo(v, 2));
      mem.PutEntry(table, Index(v, 2), pte);
      PutLeafSnap(before, Now(), v, 2, pte);
      LeafIsPage(before.tables, mem.tables, root, v, pte);
    }

    /** Remove the mapping of `v`, returning the frame it pointed at. */
    method Unmap(v: nat) returns (r: Option<nat>)
      requires Valid() && Canonical(v) && Index(v, 0) < lim
      modifies mem`tables, mem`bytes, mem`log
      ensures Valid() && Edited(old(Now()), Now()) && old(mem.log) <= mem.log
      ensures r == (var t := old(Translate(mem.tables, root, v)); if t.Some? then Some(t.value.ppn) else None)
      ensures r.None? ==> mem.tables == old(mem.tables) && mem.bytes == old(mem.bytes)
      ensures r.Some? ==> PageSet(old(mem.tables), mem.tables, root, v, None)
    {
      ghost var before := Now();
      RootFacts(before);
      KeptRefl(before);
      hide TableOk, Edited, Decoded, Booked;
      var table := WalkPtr(v);
      if table.None? || !mem.Entry(table.value, Index(v, 2)).flags.valid {
        return None;
      }
      var ppn := mem.Entry(table.value, Index(v, 2)).ppn;
      PutPage(v, table.value, EMPTY);
      return Some(ppn);
    }

    /** New permissions for a page that is mapped. */
    method Protect(v: nat, flags: Flags) returns (ok: bool)
      requires Valid() && Canonical(v) && Index(v, 0) < lim
      modifies mem`tables, mem`bytes, mem`log
      ensures Valid() && Edited(old(Now()), Now()) && old(mem.log) <= mem.log
      ensures ok <==> old(Translate(mem.tables, root, v)).Some?
      ensures !ok ==> mem.tables == old(mem.tables) && mem.bytes == old(mem.bytes)
      ensures ok ==> PageSet(old(mem.tables), mem.tables, root, v,
                             Some(Pte(old(Translate(mem.tables, root, v)).value.ppn, Present(flags))))
    {
      ghost var before := Now();
      RootFacts(before);
      KeptRefl(before);
      hide TableOk, Edited, Decoded, Booked;
      var table := WalkPtr(v);
      if table.None? || !mem.Entry(table.value, Index(v, 2)).flags.valid {
        return false;
      }
      PutPage(v, table.value, Pte(mem.Entry(table.value, Index(v, 2)).ppn, Present(flags)));
      return true;
    }

    /** Give this table the kernel's upper half by copying its root entries. */
    method ShareUpperHalf(kernel: PageTable)
      requires Valid() && kernel.Valid() && kernel.mem == mem && kernel.lim == lim == PTE_PER_TABLE
      requires Owned() !! kernel.Owned()
      requires forall i: nat | UPPER_HALF <= i :: Mid(i) !in node
      modifies mem`tables, mem`bytes, mem`log, `lim, `shared
      ensures Valid() && lim == UPPER_HALF && shared == kernel.Owned() && old(mem.log) <= mem.log
      ensures root in old(mem.tables) && kernel.root in old(mem.tables)
      ensures BytesWithin(old(mem.bytes), mem.bytes, {root})
      ensures mem.tables == old(mem.tables)[root := JoinTables(old(mem.tables)[root], old(mem.tables)[kernel.root])]
      ensures forall w: nat | Index(w, 0) < UPPER_HALF ::
                && HwWalk(mem.tables, root, w) == HwWalk(old(mem.tables), root, w)
                && Translate(mem.tables, root, w) == Translate(old(mem.tables), root, w)
      ensures forall w: nat | Index(w, 0) >= UPPER_HALF ::
                && HwWalk(mem.tables, root, w) == HwWalk(old(mem.tables), kernel.root, w)
                && Translate(mem.tables, root, w) == Translate(old(mem.tables), kernel.root, w)
      ensures root != kernel.root
    {
      hide Decoded, Booked, TableOk, HwWalk, Translate, Index;
      ghost var before := Now();
      ghost var theirs := kernel.Now();
      RootFacts(before);
      RootFacts(theirs);
      OwnedIsNotFree(before, Root);
      assert kernel.root in kernel.node.Values && root in node.Values;
      mem.CopyUpper(root, kernel.root);
      lim, shared := UPPER_HALF, kernel.node.Values;
      ShareSnap(before, theirs, Now());
    }

    /** Dropping the table returns every frame it owns. */
    method Drop()
      requires Valid()
      modifies mem
      ensures mem.Valid() && mem.free == old(mem.free) + Owned() && old(mem.log) <= mem.log
      ensures BytesWithin(old(mem.bytes), mem.bytes, mem.free) && TablesWithin(old(mem.tables), mem.tables, mem.free)
    {
      hide TreeOk, UpperIn, Decoded, Booked;
      TablesInMemory(Now());
      var i := 0;
      while i < |frames|
        invariant i <= |frames| && mem.Valid() && old(mem.log) <= mem.log
        invariant BytesWithin(old(mem.bytes), mem.bytes, mem.free)
        invariant TablesWithin(old(mem.tables), mem.tables, mem.free)
        invariant mem.free == old(mem.free) + set j | 0 <= j < i :: frames[j]
      {
        assert frames[i] in frames && frames[i] in node.Values;
        mem.Release(frames[i]);
        i := i + 1;
      }
      assert (set j | 0 <= j < i :: frames[j]) == Owned();
    }
  }

  lemma OwnedIsNotFree(s: Snapshot, p: Path)
    requires SnapOk(s) && p in s.node
    ensures s.node[p] !in s.free && s.node[p] in s.tables
  {
    hide UpperIn, Distinct;
    assert s.node[p] in s.node.Values;
  }

  /** A table does not care what the allocator writes into free frames. */
  lemma Shuffled(a: Snapshot, b: Snapshot, v: nat)
    requires SnapOk(a) && b == a.(tables := b.tables, bytes := b.bytes)
    requires TablesWithin(a.tables, b.tables, a.free) && BytesWithin(a.bytes, b.bytes, a.free)
    ensures SnapOk(b) && Kept(a, b) && SlotsKept(a, b, v)
  {
    OtherTable(a, b);
    RootFacts(a);
    OwnedIsNotFree(a, Root);
    hide SameViews, NoNewSuper, TableOk, SlotUsed, Index, Canonical;
    forall w: nat | Canonical(w) && Index(w, 0) < a.lim && w / 512 != v / 512
      ensures SlotUsed(b.tables, a.root, w) <==> SlotUsed(a.tables, a.root, w)
    {
      ShuffledEntries(a, b, w);
      SlotEntry(a.tables, b.tables, a.root, w);
    }
  }

  lemma SlotEntry(a: Tables, b: Tables, root: nat, w: nat)
    requires EntryAt(b, root, w, 1) == EntryAt(a, root, w, 1)
    ensures SlotUsed(b, root, w) <==> SlotUsed(a, root, w)
  {
  }

  lemma ShuffledEntries(a: Snapshot, b: Snapshot, w: nat)
    requires SnapOk(a) && SnapOk(b) && b == a.(tables := b.tables, bytes := b.bytes)
    requires TablesWithin(a.tables, b.tables, a.free) && Index(w, 0) < a.lim
    ensures forall l | 0 <= l < SV39_LEVELS :: EntryAt(b.tables, a.root, w, l) == EntryAt(a.tables, a.root, w, l)
  {
    hide UpperIn, Distinct, EntryAt, TreeOk;
    forall p | p in a.node ensures p in a.node && a.node[p] in a.tables && b.tables[a.node[p]] == a.tables[a.node[p]] {
      OwnedIsNotFree(a, p);
    }
    OwnEntries(a, b, w);
  }

  lemma ShuffledWay(a: Snapshot, b: Snapshot, v: nat, level: nat, stop: nat)
    requires SnapOk(a) && SnapOk(b) && b == a.(tables := b.tables, bytes := b.bytes)
    requires TablesWithin(a.tables, b.tables, a.free) && Index(v, 0) < a.lim && level < stop < SV39_LEVELS
    requires NoLeafAbove(a.tables, a.root, v, stop) && PathTo(v, level) in a.node
    ensures NoLeafAbove(b.tables, b.root, v, stop)
    ensures var f := a.node[PathTo(v, level)]; f in a.tables && f in b.tables && b.tables[f] == a.tables[f]
  {
    hide TableOk, EntryAt, Index;
    ShuffledEntries(a, b, v);
    OwnedIsNotFree(a, PathTo(v, level));
  }

  lemma TablesInMemory(s: Snapshot)
    requires SnapOk(s)
    ensures s.node.Values <= s.tables.Keys
  {
  }

  lemma NoTableBelow(s: Snapshot, v: nat, level: nat)
    requires SnapOk(s) && level < 2
    ensures PathTo(v, level + 1) !in s.node ==> PathTo(v, 2) !in s.node
  {
  }

  /** One step of a walk above `lim`. */
  lemma SharedStep(s: Snapshot, v: nat, level: nat, ppn: nat)
    requires SnapOk(s) && Index(v, 0) >= s.lim && level < 2 && ppn in s.tables
    requires level == 0 ==> ppn == s.root
    requires level == 1 ==> ppn in s.shared && SharedMid(s.tables, s.root, s.lim, ppn)
    ensures var pte := s.tables[ppn][Index(v, level)];
            pte.IsPointer() ==>
              && pte.ppn in s.shared && pte.ppn in s.tables
              && (level == 0 ==> SharedMid(s.tables, s.root, s.lim, pte.ppn))
  {
    assert LeadsInto(s.tables, s.tables[ppn][Index(v, level)], s.shared);
  }

  lemma ShareSnap(a: Snapshot, k: Snapshot, b: Snapshot)
    requires SnapOk(a) && SnapOk(k) && k.tables == a.tables && k.free == a.free && k.lim == a.lim == PTE_PER_TABLE
    requires a.node.Values !! k.node.Values && forall i: nat | UPPER_HALF <= i :: Mid(i) !in a.node
    requires a.root in a.tables && k.root in a.tables
    requires b == a.(tables := a.tables[a.root := JoinTables(a.tables[a.root], a.tables[k.root])],
                     bytes := b.bytes, lim := UPPER_HALF, shared := k.node.Values)
    ensures SnapOk(b)
    ensures forall w: nat | Index(w, 0) < UPPER_HALF ::
              HwWalk(b.tables, a.root, w) == HwWalk(a.tables, a.root, w)
                  && Translate(b.tables, a.root, w) == Translate(a.tables, a.root, w)
    ensures forall w: nat | Index(w, 0) >= UPPER_HALF ::
              HwWalk(b.tables, a.root, w) == HwWalk(a.tables, k.root, w)
                  && Translate(b.tables, a.root, w) == Translate(a.tables, k.root, w)
  {
    ShareTree(a, k, b);
    ShareUpper(a, k, b);
    forall w: nat
      ensures Index(w, 0) < UPPER_HALF ==>
              HwWalk(b.tables, a.root, w) == HwWalk(a.tables, a.root, w)
                  && Translate(b.tables, a.root, w) == Translate(a.tables, a.root, w)
      ensures Index(w, 0) >= UPPER_HALF ==>
              HwWalk(b.tables, a.root, w) == HwWalk(a.tables, k.root, w)
                  && Translate(b.tables, a.root, w) == Translate(a.tables, k.root, w)
    {
      if Index(w, 0) < UPPER_HALF {
        ShareLower(a, b, w);
      } else {
        ShareHigher(a, k, b, w);
      }
    }
  }

  lemma ShareTree(a: Snapshot, k: Snapshot, b: Snapshot)
    requires SnapOk(a) && SnapOk(k) && k.tables == a.tables && a.lim == PTE_PER_TABLE
    requires a.root in a.tables && k.root in a.tables && forall i: nat | UPPER_HALF <= i :: Mid(i) !in a.node
    requires b == a.(tables := a.tables[a.root := JoinTables(a.tables[a.root], a.tables[k.root])],
                     bytes := b.bytes, lim := UPPER_HALF, shared := k.node.Values)
    ensures TreeOk(b.tables, b.node, b.lim)
  {
    forall i: nat | i < b.lim && i < PTE_PER_TABLE ensures EdgeOk(b.tables[b.node[Root]][i], b.node, Mid(i)) {
      assert EdgeOk(a.tables[a.node[Root]][i], a.node, Mid(i));
    }
    forall i: nat, j: nat | Mid(i) in b.node && j < PTE_PER_TABLE
      ensures EdgeOk(b.tables[b.node[Mid(i)]][j], b.node, Low(i, j))
    {
      assert EdgeOk(a.tables[a.node[Mid(i)]][j], a.node, Low(i, j));
      assert a.node[Mid(i)] != a.node[Root];
    }
  }

  lemma ShareUpper(a: Snapshot, k: Snapshot, b: Snapshot)
    requires SnapOk(k) && k.tables == a.tables && k.lim == PTE_PER_TABLE && a.root !in k.node.Values
    requires a.root in a.tables && k.root in a.tables
    requires b == a.(tables := a.tables[a.root := JoinTables(a.tables[a.root], a.tables[k.root])],
                     bytes := b.bytes, lim := UPPER_HALF, shared := k.node.Values)
    ensures UpperIn(b.tables, b.root, b.lim, b.shared)
  {
    forall i: nat | b.lim <= i < PTE_PER_TABLE ensures LeadsInto(b.tables, b.tables[b.root][i], b.shared) {
      assert EdgeOk(k.tables[k.node[Root]][i], k.node, Mid(i));
      assert Mid(i) in k.node ==> k.node[Mid(i)] in k.node.Values;
    }
    forall f, j: nat | f in b.shared && f in b.tables && j < PTE_PER_TABLE && SharedMid(b.tables, b.root, b.lim, f)
      ensures LeadsInto(b.tables, b.tables[f][j], b.shared)
    {
      var i: nat :| b.lim <= i < PTE_PER_TABLE && b.tables[b.root][i].IsPointer() && b.tables[b.root][i].ppn == f;
      assert EdgeOk(k.tables[k.node[Root]][i], k.node, Mid(i));
      assert EdgeOk(k.tables[k.node[Mid(i)]][j], k.node, Low(i, j));
      assert Low(i, j) in k.node ==> k.node[Low(i, j)] in k.node.Values;
    }
  }

  lemma ShareLower(a: Snapshot, b: Snapshot, w: nat)
    requires TreeOk(a.tables, a.node, a.lim) && TreeOk(b.tables, b.node, b.lim) && a.lim == PTE_PER_TABLE
    requires b.lim == UPPER_HALF
    requires a.node == b.node && a.node[Root] == a.root && Index(w, 0) < UPPER_HALF
    requires b.tables.Keys == a.tables.Keys && (forall f | f in a.tables && f != a.root :: b.tables[f] == a.tables[f])
    requires forall i: nat | i < UPPER_HALF :: b.tables[a.root][i] == a.tables[a.root][i]
    ensures HwWalk(b.tables, a.root, w) == HwWalk(a.tables, a.root, w)
    ensures Translate(b.tables, a.root, w) == Translate(a.tables, a.root, w)
  {
    forall l | 0 <= l < SV39_LEVELS ensures EntryAt(b.tables, a.root, w, l) == EntryAt(a.tables, a.root, w, l) {
      EntryInTree(a.tables, a.node, a.lim, w, l);
      EntryInTree(b.tables, b.node, b.lim, w, l);
      assert PathTo(w, l) in a.node && a.node[PathTo(w, l)] == a.root ==> l == 0;
    }
    WalksReadEntries(a.tables, b.tables, a.root, w);
  }

  lemma ShareHigher(a: Snapshot, k: Snapshot, b: Snapshot, w: nat)
    requires SnapOk(k) && k.tables == a.tables && k.lim == PTE_PER_TABLE && a.root !in k.node.Values
    requires Index(w, 0) >= UPPER_HALF && a.root in a.tables && k.root in a.tables
    requires b.tables == a.tables[a.root := JoinTables(a.tables[a.root], a.tables[k.root])]
    ensures HwWalk(b.tables, a.root, w) == HwWalk(a.tables, k.root, w)
    ensures Translate(b.tables, a.root, w) == Translate(a.tables, k.root, w)
  {
    var pte := a.tables[k.root][Index(w, 0)];
    assert b.tables[a.root][Index(w, 0)] == pte;
    EntryInTree(k.tables, k.node, k.lim, w, 1);
    EntryInTree(k.tables, k.node, k.lim, w, 2);
    SharedEntries(a.tables, b.tables, k, a.root, w);
    HwByEntries(a.tables, k.root, w);
    HwByEntries(b.tables, a.root, w);
    SlotByEntries(a.tables, k.root, w);
    SlotByEntries(b.tables, a.root, w);
  }

  lemma SharedEntries(a: Tables, b: Tables, k: Snapshot, root: nat, w: nat)
    requires SnapOk(k) && k.tables == a && k.lim == PTE_PER_TABLE && root in a && root !in k.node.Values
    requires b.Keys == a.Keys && (forall f | f in a && f != root :: b[f] == a[f])
    requires k.root in a && b[root][Index(w, 0)] == a[k.root][Index(w, 0)]
    ensures EntryAt(b, root, w, 0) == EntryAt(a, k.root, w, 0)
    ensures EntryAt(b, root, w, 1) == EntryAt(a, k.root, w, 1)
    ensures EntryAt(b, root, w, 2) == EntryAt(a, k.root, w, 2)
  {
    var i, j := Index(w, 0), Index(w, 1);
    assert EdgeOk(a[k.node[Root]][i], k.node, Mid(i));
    if Mid(i) in k.node {
      assert k.node[Mid(i)] in k.node.Values;
      assert EdgeOk(a[k.node[Mid(i)]][j], k.node, Low(i, j));
      if Low(i, j) in k.node { assert k.node[Low(i, j)] in k.node.Values; }
    }
  }

  /** A table is unaffected by writes to frames that are neither its own nor shared with it. */
  lemma OtherTable(s: Snapshot, s': Snapshot)
    requires SnapOk(s) && s' == s.(tables := s'.tables, bytes := s'.bytes, free := s'.free)
    requires s'.tables.Keys == s.tables.Keys
    requires forall f | f in s.tables && (f in s.node.Values || f in s.shared) :: s'.tables[f] == s.tables[f]
    requires s'.free !! s.node.Values && s'.free !! s.shared
    ensures SnapOk(s') && SameViews(s.tables, s'.tables, s.root) && NoNewSuper(s.tables, s'.tables, s.root)
  {
    forall p | p in s.node ensures s'.tables[s.node[p]] == s.tables[s.node[p]] { assert s.node[p] in s.node.Values; }
    assert TreeOk(s'.tables, s.node, s.lim) by { SameTree(s.tables, s'.tables, s.node, s.lim); }
    UpperViews(s.tables, s'.tables, s.root, s.lim, s.shared);
    forall w: nat
      ensures HwWalk(s'.tables, s.root, w) == HwWalk(s.tables, s.root, w)
      ensures Translate(s'.tables, s.root, w) == Translate(s.tables, s.root, w)
      ensures NoLeafAbove(s.tables, s.root, w, 2) ==> NoLeafAbove(s'.tables, s.root, w, 2)
    {
      if Index(w, 0) < s.lim {
        OwnEntries(s, s', w);
        WalksReadEntries(s.tables, s'.tables, s.root, w);
      }
    }
  }

  lemma OwnEntries(s: Snapshot, s': Snapshot, w: nat)
    requires TreeOk(s.tables, s.node, s.lim) && TreeOk(s'.tables, s.node, s.lim) && s.node[Root] == s.root
    requires Index(w, 0) < s.lim
    requires forall p | p in s.node :: s'.tables[s.node[p]] == s.tables[s.node[p]]
    ensures forall l | 0 <= l < SV39_LEVELS :: EntryAt(s'.tables, s.root, w, l) == EntryAt(s.tables, s.root, w, l)
  {
    forall l | 0 <= l < SV39_LEVELS ensures EntryAt(s'.tables, s.root, w, l) == EntryAt(s.tables, s.root, w, l) {
      EntryInTree(s.tables, s.node, s.lim, w, l);
      EntryInTree(s'.tables, s.node, s.lim, w, l);
    }
  }

  lemma SameTree(a: Tables, b: Tables, node: map<Path, nat>, lim: nat)
    requires TreeOk(a, node, lim) && b.Keys == a.Keys && forall p | p in node :: b[node[p]] == a[node[p]]
    ensures TreeOk(b, node, lim)
  {
    forall i: nat | i < lim && i < PTE_PER_TABLE ensures EdgeOk(b[node[Root]][i], node, Mid(i)) {
      assert EdgeOk(a[node[Root]][i], node, Mid(i));
    }
    forall i: nat, j: nat | Mid(i) in node && j < PTE_PER_TABLE ensures EdgeOk(b[node[Mid(i)]][j], node, Low(i, j)) {
      assert EdgeOk(a[node[Mid(i)]][j], node, Low(i, j));
    }
  }

  /** The translations after a leaf for `v` appeared at `level`: those below it changed, all others did not. */
  ghost predicate LeafAdded(a: Tables, b: Tables, root: nat, v: nat, pte: Pte, level: nat) {
    && (forall w: nat | Canonical(w) :: HwWalk(b, root, w) ==
         (if w / LeafPages(level) == v / LeafPages(level) then HwLeaf(pte, w, level) else HwWalk(a, root, w)))
    && (forall w: nat | Canonical(w) :: Translate(b, root, w) ==
         (if level == 2 && w == v then (if pte.flags.valid then Some(pte) else None) else Translate(a, root, w)))
    && (forall w: nat | NoLeafAbove(a, root, w, 2) && (level == 2 || !SameWay(v, w, level)) ::
        NoLeafAbove(b, root, w, 2))
  }

  /** One key of the map from pages to entries was set; every other page translates as before. */
  ghost predicate PageSet(a: Tables, b: Tables, root: nat, v: nat, pte: Option<Pte>) {
    && (forall w: nat | Canonical(w) :: Translate(b, root, w) == if w == v then pte else Translate(a, root, w))
    && (forall w: nat | Canonical(w) :: HwWalk(b, root, w) ==
         if w == v then (if pte.Some? then HwLeaf(pte.value, w, 2) else None) else HwWalk(a, root, w))
    && NoNewSuper(a, b, root)
  }

  /** A page that was set is what the hardware finds in the bytes. */
  lemma PageIsRaw(a: Tables, b: Tables, bytes: Bytes, root: nat, v: nat, ppn: nat, flags: Flags)
    requires PageSet(a, b, root, v, Some(Pte(ppn, Present(flags)))) && b == Decoded(bytes) && Canonical(v)
    ensures flags.read || (flags.exec && !flags.write) ==>
              RawWalk(bytes, root, v) == Some((ppn, PresentWord(flags)))
  {
    hide HwWalk, Translate, Decoded, RawWalk, PresentWord, NoNewSuper;
    if flags.read || (flags.exec && !flags.write) { MappedIsRaw(bytes, root, v, ppn, flags); }
  }

  lemma LeafIsPage(a: Tables, b: Tables, root: nat, v: nat, pte: Pte)
    requires LeafAdded(a, b, root, v, pte, 2)
    ensures PageSet(a, b, root, v, if pte.flags.valid then Some(pte) else None)
  {
    hide HwWalk, Translate, Canonical, LeafMapping, NoLeafAbove;
  }

  lemma LeafAddedAfter(a: Tables, b: Tables, c: Tables, root: nat, v: nat, pte: Pte, level: nat)
    requires SameViews(a, b, root) && NoNewSuper(a, b, root) && LeafAdded(b, c, root, v, pte, level)
    ensures LeafAdded(a, c, root, v, pte, level)
  {
    hide HwWalk, Translate, Canonical, HwLeaf, LeafPages, NoLeafAbove, SameWay;
  }

  /** The entry a walk reads at `level` is the one in the table there, if there is one. */
  lemma SlotOnWay(s: Snapshot, v: nat, level: nat)
    requires SnapOk(s) && level < SV39_LEVELS && Index(v, 0) < s.lim
    ensures PathTo(v, level) in s.node ==> s.node[PathTo(v, level)] in s.tables
    ensures EntryAt(s.tables, s.root, v, level) ==
            if PathTo(v, level) in s.node then Some(s.tables[s.node[PathTo(v, level)]][Index(v, level)]) else None
  {
    EntryInTree(s.tables, s.node, s.lim, v, level);
  }

  lemma PutLeafSnap(a: Snapshot, b: Snapshot, v: nat, level: nat, pte: Pte)
    requires SnapOk(a) && Canonical(v) && Index(v, 0) < a.lim && level < SV39_LEVELS && PathTo(v, level) in a.node
    requires a.node[PathTo(v, level)] in a.tables
    requires level == 2 || (!pte.IsPointer() && !a.tables[a.node[PathTo(v, level)]][Index(v, level)].IsPointer())
    requires b == a.(tables := PutEntry(a.tables, a.node[PathTo(v, level)], Index(v, level), pte), bytes := b.bytes)
    requires BytesWithin(a.bytes, b.bytes, {a.node[PathTo(v, level)]})
    ensures SnapOk(b) && Edited(a, b) && SlotsKept(a, b, v) && LeafAdded(a.tables, b.tables, a.root, v, pte, level)
  {
    PutLeafOk(a.tables, a.free, a.root, a.frames, a.node, a.lim, a.shared, v, level, pte);
    assert a.node[PathTo(v, level)] in a.node.Values;
    PutLeafSlots(a, b, v, level, pte);
    hide TreeOk, UpperIn, HwWalk, Translate, Canonical, Distinct, NoLeafAbove, SameWay, SlotsKept;
  }

  /** The level-1 slot for `w` holds something: a superpage or a table of small pages. */
  ghost predicate SlotUsed(tables: Tables, root: nat, w: nat) {
    var e := EntryAt(tables, root, w, 1);
    e.Some? && e.value.flags.valid
  }

  /** Mapping at `v` fills no level-1 slot but its own. */
  ghost predicate SlotsKept(a: Snapshot, b: Snapshot, v: nat) {
    forall w: nat | Canonical(w) && Index(w, 0) < a.lim && w / 512 != v / 512 ::
      SlotUsed(b.tables, a.root, w) <==> SlotUsed(a.tables, a.root, w)
  }

  lemma SlotsRefl(a: Snapshot, v: nat)
    ensures SlotsKept(a, a, v)
  {
  }

  lemma SlotsTrans(a: Snapshot, b: Snapshot, c: Snapshot, v: nat)
    requires SlotsKept(a, b, v) && SlotsKept(b, c, v) && b.lim == a.lim && b.root == a.root
    ensures SlotsKept(a, c, v)
  {
    hide SlotUsed, Canonical, Index;
  }

  lemma KeptSame(a: Snapshot, b: Snapshot)
    requires Kept(a, b)
    ensures b.lim == a.lim && b.root == a.root
    ensures Edited(a, b) && SameViews(a.tables, b.tables, a.root) && NoNewSuper(a.tables, b.tables, a.root)
  {
    hide SameViews, NoNewSuper;
  }

  lemma EditedSame(a: Snapshot, b: Snapshot)
    requires Edited(a, b)
    ensures b.lim == a.lim && b.root == a.root
  {
  }

  lemma PutLeafSlots(a: Snapshot, b: Snapshot, v: nat, level: nat, pte: Pte)
    requires SnapOk(a) && Canonical(v) && Index(v, 0) < a.lim && level < SV39_LEVELS && PathTo(v, level) in a.node
    requires a.node[PathTo(v, level)] in a.tables
    requires level == 2 || (!pte.IsPointer() && !a.tables[a.node[PathTo(v, level)]][Index(v, level)].IsPointer())
    requires b.tables == PutEntry(a.tables, a.node[PathTo(v, level)], Index(v, level), pte)
    ensures SlotsKept(a, b, v)
  {
    forall w: nat | Canonical(w) && Index(w, 0) < a.lim && w / 512 != v / 512
      ensures SlotUsed(b.tables, a.root, w) <==> SlotUsed(a.tables, a.root, w)
    {
      PutLeafEntries(a.tables, a.node, a.lim, v, level, pte, w, 1);
      SameWayIsSameRun(v, w, 1);
    }
  }

  lemma GraftSlots(a: Snapshot, b: Snapshot, v: nat, level: nat, f: nat)
    requires CanGraft(a.tables, a.node, a.lim, v, level, f) && a.node[Root] == a.root && Canonical(v)
    requires b.tables == Graft(a.tables, a.node[PathTo(v, level)], Index(v, level), f)
    ensures SlotsKept(a, b, v)
  {
    forall w: nat | Canonical(w) && Index(w, 0) < a.lim && w / 512 != v / 512
      ensures SlotUsed(b.tables, a.root, w) <==> SlotUsed(a.tables, a.root, w)
    {
      GraftEntries(a.tables, a.node, a.lim, v, level, f, w, 1);
      SameWayIsSameRun(v, w, 1);
    }
  }

  /** The tables on the way of `v` down to `stop`. */
  function Way(v: nat, stop: nat): set<Path> {
    if stop == 0 then {Root} else Way(v, stop - 1) + {PathTo(v, stop)}
  }

  /** Everything a page table and its memory are at one moment. */
  datatype Snapshot = Snapshot(tables: Tables, bytes: Bytes, free: set<nat>, root: nat, frames: seq<nat>,
                               node: map<Path, nat>, lim: nat, shared: set<nat>)

  ghost predicate SnapOk(s: Snapshot) {
    TableOk(s.tables, s.free, s.root, s.frames, s.node, s.lim, s.shared)
  }

  /** What an operation that may create tables leaves alone: it takes frames from the allocator, writes only
      those and its own tables, never the upper half, and changes no translation. */
  ghost predicate Kept(a: Snapshot, b: Snapshot) {
    Edited(a, b) && SameViews(a.tables, b.tables, a.root) && NoNewSuper(a.tables, b.tables, a.root)
  }

  /** The frames an operation on a table may write, and what it may do with them. */
  ghost predicate Edited(a: Snapshot, b: Snapshot) {
    && b.root == a.root && b.lim == a.lim && b.shared == a.shared
    && b.free <= a.free && a.node.Values <= b.node.Values
    && b.free + b.node.Values == a.free + a.node.Values
    && TablesWithin(a.tables, b.tables, a.free + a.node.Values)
    && BytesWithin(a.bytes, b.bytes, a.free + a.node.Values)
    && a.root in a.tables && a.root in b.tables
    && forall i: nat | a.lim <= i < PTE_PER_TABLE :: b.tables[a.root][i] == a.tables[a.root][i]
  }

  /** How many tables the way of `v` down to `stop` lacks, there being tables at `keys`. */
  ghost function Missing(keys: set<Path>, v: nat, stop: nat): nat {
    if stop == 0 || PathTo(v, stop) in keys then 0 else 1 + Missing(keys, v, stop - 1)
  }

  lemma WayStarts(s: Snapshot, v: nat)
    requires SnapOk(s)
    ensures Missing(s.node.Keys, v, 0) == 0 && s.node.Keys + Way(v, 0) == s.node.Keys
  {
  }

  /** One table further down, made if need be. */
  ghost predicate Descended(before: Snapshot, now: Snapshot, v: nat, level: nat, next: nat) {
    && PathTo(v, level + 1) in now.node && next == now.node[PathTo(v, level + 1)]
    && (PathTo(v, level + 1) in before.node ==> now == before)
    && (PathTo(v, level + 1) !in before.node ==>
        && now.node == before.node[PathTo(v, level + 1) := next]
        && next in now.tables && now.tables[next] == ZeroTable()
        && next in before.free && now.free == before.free - {next})
  }

  lemma FoundBelow(s: Snapshot, v: nat, level: nat, next: nat)
    requires PathTo(v, level + 1) in s.node && next == s.node[PathTo(v, level + 1)]
    ensures Descended(s, s, v, level, next)
  {
  }

  lemma MadeBelow(before: Snapshot, now: Snapshot, v: nat, level: nat, next: nat)
    requires PathTo(v, level + 1) !in before.node && now.node == before.node[PathTo(v, level + 1) := next]
    requires next in now.tables && now.tables[next] == ZeroTable()
    requires next in before.free && now.free == before.free - {next}
    ensures Descended(before, now, v, level, next)
  {
    hide ZeroTable;
  }

  lemma TwoWritten(a: Bytes, b: Bytes, c: Bytes, f: nat, g: nat)
    requires f in a && f in b && b == a[f := b[f]] && BytesWithin(b, c, {g})
    ensures BytesWithin(a, c, {f, g})
  {
  }

  /** From `start` on, the walk has come to table `ppn` at `level`, and has made exactly the tables that were
      missing. */
  ghost predicate Walked(start: Snapshot, now: Snapshot, v: nat, level: nat, ppn: nat) {
    && Kept(start, now) && SlotsKept(start, now, v) && PathTo(v, level) in now.node && ppn == now.node[PathTo(v, level)]
    && now.node.Keys == start.node.Keys + Way(v, level)
    && |now.free| + Missing(start.node.Keys, v, level) == |start.free|
    && (PathTo(v, level) in start.node ==> now == start)
    && (PathTo(v, level) !in start.node ==> ppn in now.tables && now.tables[ppn] == ZeroTable())
  }

  lemma WalkedNowhere(start: Snapshot, v: nat)
    requires SnapOk(start)
    ensures Walked(start, start, v, 0, start.root)
  {
    RootFacts(start);
    hide SnapOk, Kept, SlotsKept, Way, Missing;
    KeptRefl(start);
    SlotsRefl(start, v);
    WayStarts(start, v);
  }

  lemma WalkedAt(start: Snapshot, now: Snapshot, v: nat, level: nat, ppn: nat)
    requires Walked(start, now, v, level, ppn)
    ensures PathTo(v, level) in now.node && ppn == now.node[PathTo(v, level)] && now.lim == start.lim
  {
    hide SlotsKept, Way, Missing, Kept;
    KeptSame(start, now);
  }

  lemma WalkedMore(start: Snapshot, before: Snapshot, now: Snapshot, v: nat, level: nat, ppn: nat, next: nat)
    requires SnapOk(start) && SnapOk(before) && level < 2 && Index(v, 0) < start.lim
    requires Walked(start, before, v, level, ppn) && Descended(before, now, v, level, next)
    requires Kept(before, now) && SlotsKept(before, now, v)
    ensures Walked(start, now, v, level + 1, next)
  {
    hide *;
    if PathTo(v, level + 1) in before.node {
      WalkedFound(start, before, now, v, level, ppn, next);
    } else {
      WalkedMade(start, before, now, v, level, ppn, next);
    }
  }

  /** A table that is there was there from the start, and so were those above it. */
  lemma WalkedFound(start: Snapshot, before: Snapshot, now: Snapshot, v: nat, level: nat, ppn: nat, next: nat)
    requires SnapOk(start) && SnapOk(before) && level < 2 && Index(v, 0) < start.lim
    requires Walked(start, before, v, level, ppn) && Descended(before, now, v, level, next)
    requires PathTo(v, level + 1) in before.node
    ensures Walked(start, now, v, level + 1, next)
  {
    hide SnapOk, Kept, SlotsKept, Way, Missing, Index, PathTo, ZeroTable;
    KeptSame(start, before);
    if PathTo(v, level) !in start.node { FreshHasNoChild(before, v, level); }
    WayStep(start.node.Keys, v, level);
    PathsAbove(start, v, level, level + 1);
    MissingNone(start.node.Keys, v, level);
  }

  lemma WalkedMade(start: Snapshot, before: Snapshot, now: Snapshot, v: nat, level: nat, ppn: nat, next: nat)
    requires SnapOk(start) && level < 2 && Walked(start, before, v, level, ppn)
    requires Descended(before, now, v, level, next) && PathTo(v, level + 1) !in before.node
    requires Kept(before, now) && SlotsKept(before, now, v)
    ensures Walked(start, now, v, level + 1, next)
  {
    hide *;
    WalkedTo(start, before, v, level, ppn);
    KeptSame(start, before);
    KeptTrans(start, before, now);
    SlotsTrans(start, before, now, v);
    WayStep(start.node.Keys, v, level);
    OneTableMore(before, now, v, level, next);
    assert PathTo(v, level + 1) !in start.node.Keys;
    assert start.node.Keys + Way(v, level + 1) == before.node.Keys + {PathTo(v, level + 1)};
    WalkedIntro(start, now, v, level + 1, next);
  }

  lemma WalkedIntro(start: Snapshot, now: Snapshot, v: nat, level: nat, ppn: nat)
    requires Kept(start, now) && SlotsKept(start, now, v)
    requires PathTo(v, level) in now.node && ppn == now.node[PathTo(v, level)]
    requires now.node.Keys == start.node.Keys + Way(v, level)
    requires |now.free| + Missing(start.node.Keys, v, level) == |start.free|
    requires PathTo(v, level) !in start.node && ppn in now.tables && now.tables[ppn] == ZeroTable()
    ensures Walked(start, now, v, level, ppn)
  {
    hide Kept, SlotsKept, PathTo, Way, Missing, ZeroTable;
  }

  lemma OneTableMore(before: Snapshot, now: Snapshot, v: nat, level: nat, next: nat)
    requires Descended(before, now, v, level, next) && PathTo(v, level + 1) !in before.node
    ensures now.node.Keys == before.node.Keys + {PathTo(v, level + 1)} && |now.free| == |before.free| - 1
    ensures PathTo(v, level + 1) in now.node && now.node[PathTo(v, level + 1)] == next
    ensures next in now.tables && now.tables[next] == ZeroTable()
  {
    hide PathTo, ZeroTable;
  }

  lemma MissingNone(keys: set<Path>, v: nat, level: nat)
    requires PathTo(v, level) in keys
    ensures Missing(keys, v, level) == 0
  {
  }

  /** There was no frame for the table below. */
  lemma WalkedStop(start: Snapshot, now: Snapshot, v: nat, level: nat, stop: nat, ppn: nat)
    requires SnapOk(start) && level < stop < SV39_LEVELS && Walked(start, now, v, level, ppn)
    requires now.free == {} && PathTo(v, level + 1) !in now.node
    ensures Kept(start, now) && SlotsKept(start, now, v) && PathTo(v, stop) !in start.node
    ensures |start.free| < Missing(start.node.Keys, v, stop)
  {
    hide SnapOk, Kept, SlotsKept, Way, Missing;
    MissingGrows(start, v, level, stop);
    PathsAbove(start, v, level, stop);
  }

  lemma WalkedTo(start: Snapshot, now: Snapshot, v: nat, level: nat, ppn: nat)
    requires Walked(start, now, v, level, ppn)
    ensures Kept(start, now) && SlotsKept(start, now, v) && now.node.Keys == start.node.Keys + Way(v, level)
    ensures |now.free| == |start.free| - Missing(start.node.Keys, v, level)
    ensures PathTo(v, level) in now.node && ppn == now.node[PathTo(v, level)]
    ensures PathTo(v, level) in start.node ==> now == start
    ensures PathTo(v, level) !in start.node ==> ppn in now.tables && now.tables[ppn] == ZeroTable()
  {
    hide Kept, SlotsKept, Way, Missing;
  }

  lemma WayStep(keys: set<Path>, v: nat, level: nat)
    ensures Missing(keys, v, level + 1) == if PathTo(v, level + 1) in keys then 0 else 1 + Missing(keys, v, level)
    ensures Way(v, level + 1) == Way(v, level) + {PathTo(v, level + 1)}
  {
  }

  lemma MissingGrows(s: Snapshot, v: nat, level: nat, stop: nat)
    requires SnapOk(s) && level < stop < SV39_LEVELS && PathTo(v, level + 1) !in s.node
    ensures Missing(s.node.Keys, v, stop) > Missing(s.node.Keys, v, level)
  {
  }

  lemma KeptRefl(a: Snapshot)
    requires a.root in a.tables
    ensures Kept(a, a)
  {
  }

  lemma EditedRefl(a: Snapshot)
    requires a.root in a.tables
    ensures Edited(a, a)
  {
  }

  lemma KeptTrans(a: Snapshot, b: Snapshot, c: Snapshot)
    requires Kept(a, b) && Kept(b, c)
    ensures Kept(a, c)
  {
    hide HwWalk, Translate, NoLeafAbove;
    EditedTrans(a, b, c);
  }

  lemma EditedTrans(a: Snapshot, b: Snapshot, c: Snapshot)
    requires Edited(a, b) && Edited(b, c)
    ensures Edited(a, c)
  {
    forall f | f in a.tables && f !in a.free + a.node.Values ensures c.tables[f] == a.tables[f] {
      assert f !in b.free + b.node.Values;
    }
    forall f | f in a.bytes && f !in a.free + a.node.Values ensures c.bytes[f] == a.bytes[f] {
      assert f !in b.free + b.node.Values;
    }
  }

  /** The entry of `v` at `level` and the table below it. */
  lemma ChildOnWay(s: Snapshot, v: nat, level: nat)
    requires SnapOk(s) && level < 2 && Index(v, 0) < s.lim && PathTo(v, level) in s.node
    ensures EdgeOk(s.tables[s.node[PathTo(v, level)]][Index(v, level)], s.node, PathTo(v, level + 1))
    ensures EntryAt(s.tables, s.root, v, level) == Some(s.tables[s.node[PathTo(v, level)]][Index(v, level)])
  {
    EntryInTree(s.tables, s.node, s.lim, v, level);
  }

  lemma NotALeaf(s: Snapshot, v: nat, level: nat, stop: nat)
    requires SnapOk(s) && level < stop <= 2 && Index(v, 0) < s.lim && PathTo(v, level) in s.node
    requires NoLeafAbove(s.tables, s.root, v, stop)
    ensures s.node[PathTo(v, level)] in s.tables && !s.tables[s.node[PathTo(v, level)]][Index(v, level)].IsLeaf()
  {
    EntryInTree(s.tables, s.node, s.lim, v, level);
  }

  lemma FreshHasNoChild(s: Snapshot, v: nat, level: nat)
    requires SnapOk(s) && level < 2 && Index(v, 0) < s.lim && PathTo(v, level) in s.node
    requires s.tables[s.node[PathTo(v, level)]] == ZeroTable()
    ensures PathTo(v, level + 1) !in s.node
  {
    ChildOnWay(s, v, level);
  }

  lemma RootFacts(s: Snapshot)
    requires SnapOk(s)
    ensures Root in s.node && s.node[Root] == s.root && s.root in s.tables
  {
  }

  lemma GraftKeeps(a: Snapshot, b: Snapshot, v: nat, level: nat, stop: nat, f: nat)
    requires SnapOk(a) && level < stop < SV39_LEVELS && Index(v, 0) < a.lim && NoLeafAbove(a.tables, a.root, v, stop)
    requires PathTo(v, level) in a.node && f in a.free && f in a.tables
    requires !a.tables[a.node[PathTo(v, level)]][Index(v, level)].flags.valid
    requires b == a.(tables := Graft(a.tables, a.node[PathTo(v, level)], Index(v, level), f),
                     bytes := b.bytes, free := a.free - {f},
                     frames := a.frames + [f], node := a.node[PathTo(v, level + 1) := f])
    requires BytesWithin(a.bytes, b.bytes, {f, a.node[PathTo(v, level)]}) && Canonical(v)
    ensures SnapOk(b) && Kept(a, b) && SlotsKept(a, b, v) && NoLeafAbove(b.tables, b.root, v, stop)
    ensures PathTo(v, level + 1) !in a.node
    ensures b.tables[f] == ZeroTable()
  {
    hide TreeOk, UpperIn, SameViews, NoNewSuper, NoLeafAbove, Distinct, SlotsKept, Canonical, TableOk, CanGraft;
    GraftReady(a, v, level, f);
    GraftSlots(a, b, v, level, f);
    GraftOk(a.tables, a.free, a.root, a.frames, a.node, a.lim, a.shared, v, level, f);
    GraftNoLeaf(a.tables, a.node, a.lim, v, level, f, v, stop);
  }

  lemma GraftReady(a: Snapshot, v: nat, level: nat, f: nat)
    requires SnapOk(a) && level < 2 && Index(v, 0) < a.lim && PathTo(v, level) in a.node && f in a.free && f in a.tables
    requires !a.tables[a.node[PathTo(v, level)]][Index(v, level)].flags.valid
    ensures CanGraft(a.tables, a.node, a.lim, v, level, f) && Root in a.node && a.node[Root] == a.root
    ensures TableOk(a.tables, a.free, a.root, a.frames, a.node, a.lim, a.shared)
    ensures a.node[PathTo(v, level)] in a.node.Values && a.root in a.tables && f !in a.node.Values
  {
    RootFacts(a);
    hide UpperIn, Index;
  }

  /** A table on the way at `stop` means there is one at every level above. */
  lemma PathsAbove(s: Snapshot, v: nat, level: nat, stop: nat)
    requires SnapOk(s) && level < stop < SV39_LEVELS
    ensures PathTo(v, stop) in s.node ==> PathTo(v, level) in s.node && PathTo(v, level + 1) in s.node
    ensures PathTo(v, level + 1) in s.node ==> PathTo(v, level) in s.node
  {
  }

  lemma EmptyTree(tables: Tables, frame: nat)
    requires frame in tables && tables[frame] == ZeroTable()
    ensures TreeOk(tables, map[Root := frame], PTE_PER_TABLE)
    ensures UpperIn(tables, frame, PTE_PER_TABLE, {})
    ensures forall w :: HwWalk(tables, frame, w) == None && Translate(tables, frame, w) == None
  {
  }
}
