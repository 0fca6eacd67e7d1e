/** Installing a framed region: one fresh frame per page, mapped one page at a time. */
module Framed {
  import opened Prelude
  import opened Sv39
  import opened Memory
  import opened PhysMemory
  import opened PageTables

  const USER_PAGES: nat := 0x400_0000

  /** No superpage anywhere in the half of the tree this table owns. */
  ghost predicate NoSupers(s: Snapshot) {
    forall w: nat | Index(w, 0) < s.lim :: NoLeafAbove(s.tables, s.root, w, 2)
  }

  /** From `a` to `b` a table took the frames `taken` for data, and others for tables of its own; what it did not
      take is still free. */
  ghost predicate GrewSets(a: Snapshot, b: Snapshot, taken: set<nat>) {
    && b.free <= a.free && a.node.Values <= b.node.Values && taken <= a.free
    && taken !! b.free && taken !! b.node.Values
    && b.free + b.node.Values + taken == a.free + a.node.Values
  }

  /** In the meantime only free frames and its own tables were written, and nothing in the upper half. */
  ghost predicate GrewMem(a: Snapshot, b: Snapshot) {
    && b.root == a.root && b.lim == a.lim && b.shared == a.shared
    && TablesWithin(a.tables, b.tables, a.free + a.node.Values)
    && BytesWithin(a.bytes, b.bytes, a.free + a.node.Values)
    && a.root in a.tables && a.root in b.tables
    && (forall i: nat | a.lim <= i < PTE_PER_TABLE :: b.tables[a.root][i] == a.tables[a.root][i])
  }

  ghost predicate Grew(a: Snapshot, b: Snapshot, taken: set<nat>) {
    GrewSets(a, b, taken) && GrewMem(a, b)
  }

  /** The pages in `frames` are mapped with `perm`; every other page translates as before. */
  ghost predicate FramedView(a: Tables, b: Tables, root: nat, frames: map<nat, nat>, perm: Flags) {
    forall w: nat | Canonical(w) ::
      Translate(b, root, w) == if w in frames then Some(Pte(frames[w], Present(perm))) else Translate(a, root, w)
  }

  ghost predicate OneToOneFrames(frames: map<nat, nat>) {
    forall v, w | v in frames && w in frames && frames[v] == frames[w] :: v == w
  }

  lemma GrewRefl(a: Snapshot)
    requires a.root in a.tables
    ensures Grew(a, a, {})
  {
  }

  /** A snapshot after one frame was taken from the allocator. */
  ghost function FrameOut(a: Snapshot, f: nat): Snapshot {
    a.(tables := a.tables[f := ZeroTable()], bytes := a.bytes[f := ZeroPage()], free := a.free - {f})
  }

  lemma TakeFrameOk(a: Snapshot, f: nat)
    requires SnapOk(a) && f in a.free && f in a.tables
    ensures SnapOk(FrameOut(a, f)) && SameViews(a.tables, FrameOut(a, f).tables, a.root)
    ensures NoNewSuper(a.tables, FrameOut(a, f).tables, a.root)
    ensures NoSupers(a) ==> NoSupers(FrameOut(a, f))
  {
    OtherTable(a, FrameOut(a, f));
    hide NoLeafAbove;
  }

  /** A frame was taken and the table edited. */
  lemma GrewPage(m: Snapshot, f: nat, b: Snapshot)
    requires SnapOk(m) && f in m.free && f in m.tables && m.bytes.Keys == m.tables.Keys
    requires Edited(FrameOut(m, f), b)
    ensures Grew(m, b, {f})
  {
    hide SnapOk, ZeroPage, ZeroTable;
    FreeIsNotOwned(m, f);
    RootIsOwned(m);
    assert FrameOut(m, f).free * b.free == b.free;
    GrewMore(m, f, b);
  }

  lemma GrewMore(m: Snapshot, f: nat, b: Snapshot)
    requires f in m.free && f in m.tables && m.bytes.Keys == m.tables.Keys && m.root != f && m.root in m.tables
    requires Edited(FrameOut(m, f), b.(free := FrameOut(m, f).free * b.free))
    ensures GrewMem(m, b)
  {
    hide ZeroPage, ZeroTable;
    var t := FrameOut(m, f);
    UpdateWithin(m.tables, f, ZeroTable(), b.tables, m.free + m.node.Values);
    UpdateWithin(m.bytes, f, ZeroPage(), b.bytes, m.free + m.node.Values);
    assert t.tables[m.root] == m.tables[m.root];
  }

  /** What is left alone after one key of `may` was updated was left alone before. */
  lemma UpdateWithin<T>(a: map<nat, T>, f: nat, x: T, b: map<nat, T>, may: set<nat>)
    requires f in a && f in may
    ensures (forall g | g in a[f := x] && g !in may :: g in b && b[g] == a[f := x][g]) ==>
            (forall g | g in a && g !in may :: g in b && b[g] == a[g])
    ensures a[f := x].Keys == a.Keys
  {
  }

  lemma GrewTrans(a: Snapshot, b: Snapshot, c: Snapshot, s: set<nat>, t: set<nat>)
    requires Grew(a, b, s) && Grew(b, c, t)
    ensures Grew(a, c, s + t) && s !! t
  {
    GrewSetsTrans(a, b, c, s, t);
    assert forall g | g !in a.free + a.node.Values :: g !in b.free + b.node.Values;
  }

  lemma GrewSetsTrans(a: Snapshot, b: Snapshot, c: Snapshot, s: set<nat>, t: set<nat>)
    requires GrewSets(a, b, s) && GrewSets(b, c, t)
    ensures GrewSets(a, c, s + t) && s !! t
  {
  }

  lemma FreeIsNotOwned(m: Snapshot, f: nat)
    requires SnapOk(m) && f in m.free
    ensures f !in m.node.Values && f !in m.shared
  {
  }

  lemma RootIsOwned(m: Snapshot)
    requires SnapOk(m)
    ensures m.root in m.node.Values && m.root !in m.free
  {
  }

  /** A page failed after its frame was taken, and the frame was given back. */
  lemma GrewNothing(m: Snapshot, f: nat, b: Snapshot)
    requires SnapOk(m) && f in m.free && f in m.tables && m.bytes.Keys == m.tables.Keys
    requires Edited(FrameOut(m, f), b.(free := b.free - {f})) && f in b.free
    ensures Grew(m, b, {})
  {
    hide SnapOk, ZeroPage, ZeroTable;
    FreeIsNotOwned(m, f);
    RootIsOwned(m);
    assert b.free == (b.free - {f}) + {f};
    assert (b.free - {f}) + b.node.Values == (m.free - {f}) + m.node.Values;
    assert m.free == (m.free - {f}) + {f};
    assert FrameOut(m, f).free * b.free == b.free - {f};
    GrewMore(m, f, b);
  }

  /** The frames of `frames` all read as zeroes. */
  ghost predicate AllZero(bytes: Bytes, frames: map<nat, nat>) {
    forall v | v in frames :: frames[v] in bytes && bytes[frames[v]] == ZeroPage()
  }

  lemma PageFramed(a: Tables, b: Tables, c: Tables, root: nat, frames: map<nat, nat>, v: nat, f: nat, perm: Flags)
    requires FramedView(a, b, root, frames, perm) && PageSet(b, c, root, v, Some(Pte(f, Present(perm))))
    ensures FramedView(a, c, root, frames[v := f], perm)
  {
    hide HwWalk, Translate, NoLeafAbove, HwLeaf, Canonical;
  }

  lemma SameFramed(a: Tables, b: Tables, c: Tables, root: nat, frames: map<nat, nat>, perm: Flags)
    requires FramedView(a, b, root, frames, perm) && SameViews(b, c, root)
    ensures FramedView(a, c, root, frames, perm)
  {
    hide HwWalk, Translate;
  }

  lemma SupersKept(a: Snapshot, b: Snapshot)
    requires NoSupers(a) && NoNewSuper(a.tables, b.tables, a.root) && b.root == a.root && b.lim == a.lim
    ensures NoSupers(b)
  {
    hide NoLeafAbove;
  }

  lemma ClearWay(s: Snapshot, v: nat)
    requires NoSupers(s) && UserPage(v) && s.lim >= UPPER_HALF
    ensures Canonical(v) && Index(v, 0) < s.lim && NoLeafAbove(s.tables, s.root, v, 2)
  {
    UserIndices(v);
  }

  lemma AddFrame(frames: map<nat, nat>, v: nat, f: nat)
    requires v !in frames && f !in frames.Values && OneToOneFrames(frames)
    ensures OneToOneFrames(frames[v := f]) && frames[v := f].Values == frames.Values + {f}
  {
    var after := frames[v := f];
    assert after[v] == f;
    forall x | x in frames.Values ensures x in after.Values {
      var w :| w in frames && frames[w] == x;
      assert after[w] == x;
    }
    forall w | w in frames ensures frames[w] != f { assert frames[w] in frames.Values; }
  }

  /** The pages `[first, upto)`. */
  function PageRange(first: nat, upto: nat): (r: set<nat>)
    ensures forall v: nat :: v in r <==> first <= v < upto
    decreases upto - first
  {
    if upto <= first then {} else {first} + PageRange(first + 1, upto)
  }

  /** No page of `[first, upto)` is mapped. */
  ghost predicate Vacant(tables: Tables, root: nat, first: nat, upto: nat) {
    forall v: nat | first <= v < upto :: Translate(tables, root, v).None?
  }

  /** One page: take a frame, map it, and give it back if that fails. */
  method MapPage(table: PageTable, v: nat, perm: Flags) returns (r: MapResult, frame: nat)
    requires table.Valid() && NoSupers(table.Now()) && table.lim >= UPPER_HALF && UserPage(v)
    modifies table`frames, table`node, table.mem
    ensures table.Valid() && NoSupers(table.Now()) && old(table.mem.log) <= table.mem.log
    ensures Grew(old(table.Now()), table.Now(), if r == Mapped then {frame} else {})
    ensures r == Mapped || r == AlreadyMapped || r == OutOfMemory
    ensures r == OutOfMemory <==> |old(table.mem.free)| < 1 + Missing(old(table.node.Keys), v, 2)
    ensures r == OutOfMemory ==> |table.mem.free| <= 1
    ensures r == Mapped ==> |table.mem.free| == |old(table.mem.free)| - 1 - Missing(old(table.node.Keys), v, 2)
    ensures r == Mapped ==> table.node.Keys == old(table.node.Keys) + Way(v, 2)
    ensures r == AlreadyMapped ==> |table.mem.free| == |old(table.mem.free)| - Missing(old(table.node.Keys), v, 2)
    ensures r == AlreadyMapped ==> old(Translate(table.mem.tables, table.root, v)).Some?
    ensures r == Mapped ==> old(Translate(table.mem.tables, table.root, v)).None?
    ensures r == Mapped ==>
              PageSet(old(table.mem.tables), table.mem.tables, table.root, v, Some(Pte(frame, Present(perm))))
    ensures r == Mapped ==> frame in table.mem.bytes && table.mem.bytes[frame] == ZeroPage()
    ensures r != Mapped ==> SameViews(old(table.mem.tables), table.mem.tables, table.root)
  {
    hide TableOk, Grew, NoSupers, NoLeafAbove, PageSet, SameViews, NoNewSuper, Edited, Missing, Translate, Canonical,
         Index, SlotsKept, Way, Decoded, Booked, UserPage, ZeroPage, ZeroTable;
    ghost var before := table.Now();
    RootFacts(before);
    var taken; ghost var shuffled;
    taken, shuffled := table.mem.Alloc();
    if taken.None? {
      SameRefl(before);
      return OutOfMemory, 0;
    }
    frame := taken.value;
    ghost var m := before.(tables := Decoded(shuffled), bytes := shuffled);
    ShuffledGrew(before, m);
    ghost var t := table.Now();
    assert t == FrameOut(m, frame);
    TakeFrameOk(m, frame);
    SameTwice(before.tables, m.tables, t.tables, m.root);
    ClearWay(t, v);
    r := table.Map(v, frame, perm);
    ghost var b := table.Now();
    FrameKept(m, b, frame);
    AfterMap(before, t, b, v, r == Mapped, Some(Pte(frame, Present(perm))));
    if r != Mapped {
      table.mem.Release(frame);
      ReleaseOk(b, frame);
      Returned(before, m, b, table.Now(), frame);
      return r, 0;
    }
    GrewPage(m, frame, b);
    GrewTrans(before, m, b, {}, {frame});
    assert {} + {frame} == {frame};
  }

  /** The allocator wrote free frames. */
  lemma ShuffledGrew(a: Snapshot, b: Snapshot)
    requires SnapOk(a) && a.tables == Decoded(a.bytes) && BytesWithin(a.bytes, b.bytes, a.free)
    requires b == a.(tables := Decoded(b.bytes), bytes := b.bytes)
    ensures SnapOk(b) && Grew(a, b, {}) && (NoSupers(a) ==> NoSupers(b))
    ensures SameViews(a.tables, b.tables, a.root) && NoNewSuper(a.tables, b.tables, a.root)
  {
    hide SnapOk, SameViews, NoNewSuper, Decoded, NoSupers;
    DecodedWithin(a.bytes, b.bytes, a.free);
    Shuffled(a, b, 0);
    if NoSupers(a) { SupersKept(a, b); }
  }

  lemma SameTwice(a: Tables, b: Tables, c: Tables, root: nat)
    requires SameViews(a, b, root) && NoNewSuper(a, b, root) && SameViews(b, c, root) && NoNewSuper(b, c, root)
    ensures SameViews(a, c, root) && NoNewSuper(a, c, root)
  {
    hide HwWalk, Translate, NoLeafAbove;
  }

  /** The page failed: the frame went back, and the allocator wrote free frames. */
  lemma Returned(before: Snapshot, m: Snapshot, b: Snapshot, now: Snapshot, f: nat)
    requires SnapOk(m) && f in m.free && f in m.tables && m.bytes.Keys == m.tables.Keys && m.root == before.root
    requires Grew(before, m, {}) && Edited(FrameOut(m, f), b) && f !in b.free
    requires SnapOk(b.(free := b.free + {f})) && NoSupers(b.(free := b.free + {f})) && b.tables == Decoded(b.bytes)
    requires now == b.(tables := Decoded(now.bytes), bytes := now.bytes, free := b.free + {f})
    requires BytesWithin(b.bytes, now.bytes, now.free) && SameViews(before.tables, b.tables, before.root)
    ensures Grew(before, now, {}) && SnapOk(now) && NoSupers(now) && SameViews(before.tables, now.tables, before.root)
  {
    hide SnapOk, SameViews, NoNewSuper, Decoded, NoSupers, Grew, ZeroPage, ZeroTable;
    var freed := b.(free := b.free + {f});
    assert freed.(free := freed.free - {f}) == b;
    GrewNothing(m, f, freed);
    ShuffledGrew(freed, now);
    var none: set<nat> := {};
    GrewTrans(before, m, freed, {}, {});
    assert none + none == none;
    GrewTrans(before, freed, now, {}, {});
    ViewsTrans(before.tables, b.tables, now.tables, before.root) by { SameBase(m, f, b); }
  }

  lemma SameBase(m: Snapshot, f: nat, b: Snapshot)
    requires Edited(FrameOut(m, f), b)
    ensures b.root == m.root
  {
  }

  lemma ViewsTrans(a: Tables, b: Tables, c: Tables, root: nat)
    requires SameViews(a, b, root) && SameViews(b, c, root)
    ensures SameViews(a, c, root)
  {
    hide HwWalk, Translate;
  }

  /** Where there are tables once the pages `[first, upto)` have been mapped one by one. */
  ghost function KeysAfter(keys: set<Path>, first: nat, upto: nat): set<Path>
    decreases upto
  {
    if upto <= first then keys else KeysAfter(keys, first, upto - 1) + Way(upto - 1, 2)
  }

  /** The frames mapping them takes: one for each page, and the tables that are missing when its turn comes. */
  ghost function FramesNeeded(keys: set<Path>, first: nat, upto: nat): nat
    decreases upto
  {
    if upto <= first then 0
        else FramesNeeded(keys, first, upto - 1) + 1 + Missing(KeysAfter(keys, first, upto - 1), upto - 1, 2)
  }

  lemma {:induction false} NeededGrows(keys: set<Path>, first: nat, mid: nat, upto: nat)
    requires mid <= upto
    ensures FramesNeeded(keys, first, mid) <= FramesNeeded(keys, first, upto)
    decreases upto
  {
    if mid < upto { NeededGrows(keys, first, mid, upto - 1); }
  }

  lemma {:induction false} ManyGiven(frames: map<nat, nat>, free: set<nat>)
    requires OneToOneFrames(frames) && frames.Values !! free
    ensures |free + frames.Values| == |free| + |frames|
    decreases |frames|
  {
    if frames == map[] {
      assert frames.Values == {} && free + frames.Values == free;
    } else {
      var v :| v in frames;
      OneApart(frames, v);
      hide OneToOneFrames;
      var rest := frames - {v};
      ManyGiven(rest, free);
      assert free + frames.Values == (free + rest.Values) + {frames[v]};
    }
  }

  lemma OneApart(frames: map<nat, nat>, v: nat)
    requires OneToOneFrames(frames) && v in frames
    ensures var rest := frames - {v};
            && |rest| == |frames| - 1 && OneToOneFrames(rest) && frames.Values == rest.Values + {frames[v]}
            && frames[v] !in rest.Values
  {
    var rest := frames - {v};
    forall f | f in frames.Values ensures f in rest.Values + {frames[v]} {
      var u :| u in frames && frames[u] == f;
      if u != v { assert rest[u] == f; }
    }
    assert rest.Keys == frames.Keys - {v} && |rest| == |rest.Keys| && |frames| == |frames.Keys|;
  }

  lemma RangeSize(frames: map<nat, nat>, first: nat, last: nat)
    requires frames.Keys == PageRange(first, last) && first <= last
    ensures |frames| == last - first
  {
    PageRangeSize(first, last);
    assert |frames| == |frames.Keys|;
  }

  lemma {:induction false} PageRangeSize(first: nat, last: nat)
    requires first <= last
    ensures |PageRange(first, last)| == last - first
    decreases last - first
  {
    if first < last {
      PageRangeSize(first + 1, last);
    } else {
      assert PageRange(first, last) == {};
    }
  }

  /** From `a` to `b` mapping the pages `[first, upto)` took just the frames needed. */
  ghost predicate Accounted(a: Snapshot, b: Snapshot, first: nat, upto: nat) {
    |b.free| + FramesNeeded(a.node.Keys, first, upto) == |a.free| && b.node.Keys == KeysAfter(a.node.Keys, first, upto)
  }

  lemma AccountStart(a: Snapshot, first: nat)
    ensures Accounted(a, a, first, first)
  {
  }

  lemma AccountStep(a: Snapshot, m: Snapshot, b: Snapshot, first: nat, v: nat)
    requires Accounted(a, m, first, v) && first <= v
    requires |b.free| == |m.free| - 1 - Missing(m.node.Keys, v, 2) && b.node.Keys == m.node.Keys + Way(v, 2)
    ensures Accounted(a, b, first, v + 1)
  {
    hide Missing, Way;
  }

  /** At page `v` the frames run out, or not, as the count says. */
  lemma AccountStop(a: Snapshot, m: Snapshot, first: nat, v: nat, last: nat)
    requires Accounted(a, m, first, v) && first <= v < last
    ensures |m.free| < 1 + Missing(m.node.Keys, v, 2) <==> |a.free| < FramesNeeded(a.node.Keys, first, v + 1)
    ensures FramesNeeded(a.node.Keys, first, v + 1) <= FramesNeeded(a.node.Keys, first, last)
    ensures |a.free| >= FramesNeeded(a.node.Keys, first, v)
    ensures |m.free| == 1 + Missing(m.node.Keys, v, 2) + |a.free| - FramesNeeded(a.node.Keys, first, v + 1)
  {
    hide Missing, Way;
    NeededGrows(a.node.Keys, first, v + 1, last);
  }

  lemma AccountEnd(a: Snapshot, b: Snapshot, first: nat, done: nat, last: nat)
    requires Accounted(a, b, first, done) && first <= done && done >= last && (done > first ==> done <= last)
    ensures |b.free| == |a.free| - FramesNeeded(a.node.Keys, first, last)
    ensures b.node.Keys == KeysAfter(a.node.Keys, first, last)
  {
  }

  /** Install every page of the framed region `[first, last)`. On failure a prefix `[first, done)` is installed,
      and the frame that did not make it into the region is back in the allocator. It succeeds exactly if no page was
      mapped and there are frames enough. */
  method MapFramed(table: PageTable, first: nat, last: nat, perm: Flags)
    returns (r: MapResult, frames: map<nat, nat>, ghost done: nat)
    requires table.Valid() && NoSupers(table.Now()) && table.lim >= UPPER_HALF && last <= USER_PAGES
    modifies table`frames, table`node, table.mem
    ensures table.Valid() && NoSupers(table.Now()) && old(table.mem.log) <= table.mem.log
    ensures Grew(old(table.Now()), table.Now(), frames.Values)
    ensures FramedView(old(table.mem.tables), table.mem.tables, table.root, frames, perm)
    ensures frames.Keys == PageRange(first, done) && OneToOneFrames(frames) && AllZero(table.mem.bytes, frames)
    ensures first <= done && (r == Mapped <==> done >= last) && (done > first ==> done <= last)
    ensures r == Mapped || r == AlreadyMapped || r == OutOfMemory
    ensures Vacant(old(table.mem.tables), table.root, first, done)
    ensures r == AlreadyMapped ==> Translate(old(table.mem.tables), table.root, done).Some?
    ensures r == OutOfMemory ==> |old(table.mem.free)| < FramesNeeded(old(table.node.Keys), first, done + 1)
    ensures r == AlreadyMapped ==> |old(table.mem.free)| >= FramesNeeded(old(table.node.Keys), first, done + 1)
    ensures r == AlreadyMapped ==>
              |table.mem.free| == |old(table.mem.free)| + 1 - FramesNeeded(old(table.node.Keys), first, done + 1)
    ensures r != Mapped ==> |old(table.mem.free)| >= FramesNeeded(old(table.node.Keys), first, done)
    ensures r == Mapped ==> |table.mem.free| == |old(table.mem.free)| - FramesNeeded(old(table.node.Keys), first, last)
    ensures r == Mapped ==> table.node.Keys == KeysAfter(old(table.node.Keys), first, last)
    ensures r == Mapped <==>
            && Vacant(old(table.mem.tables), table.root, first, last)
            && |old(table.mem.free)| >= FramesNeeded(old(table.node.Keys), first, last)
  {
    hide TableOk, Grew, FramedView, NoSupers, PageSet, SameViews, OneToOneFrames, AllZero, Missing, Translate,
         PageRange, Vacant, FramesNeeded, KeysAfter, Way, Decoded, Booked, Installed;
    ghost var start := table.Now();
    InstalledStart(start, first, perm);
    frames := map[];
    var vpn := first;
    while vpn < last
      invariant first <= vpn && (vpn > first ==> vpn <= last)
      invariant table.Valid() && NoSupers(table.Now()) && table.lim == start.lim && table.root == start.root
      invariant Installed(start, table.Now(), first, vpn, frames, perm) && old(table.mem.log) <= table.mem.log
    {
      ghost var m := table.Now();
      var frame;
      r, frame := MapPage(table, vpn, perm);
      if r != Mapped {
        InstalledStop(start, m, table.Now(), first, vpn, last, frames, perm);
        return r, frames, vpn;
      }
      InstalledMore(start, m, table.Now(), first, vpn, frames, perm, frame);
      frames := frames[vpn := frame];
      vpn := vpn + 1;
    }
    InstalledParts(start, table.Now(), first, vpn, last, frames, perm);
    return Mapped, frames, vpn;
  }

  /** The pages `[first, v)` have been installed since `a`. */
  ghost predicate Installed(a: Snapshot, b: Snapshot, first: nat, v: nat, frames: map<nat, nat>, perm: Flags) {
    && Grew(a, b, frames.Values) && FramedView(a.tables, b.tables, a.root, frames, perm)
    && frames.Keys == PageRange(first, v) && OneToOneFrames(frames) && AllZero(b.bytes, frames)
    && Vacant(a.tables, a.root, first, v) && Accounted(a, b, first, v)
  }

  lemma InstalledStart(a: Snapshot, first: nat, perm: Flags)
    requires SnapOk(a)
    ensures Installed(a, a, first, first, map[], perm)
  {
    hide TableOk, Grew, FramedView, OneToOneFrames, AllZero, Translate, PageRange, Vacant, Accounted;
    var none: map<nat, nat> := map[];
    assert none.Values == {} && none.Keys == {};
    RootFacts(a);
    GrewRefl(a);
    FramedRefl(a.tables, a.root, perm);
    NoneVacant(a.tables, a.root, first);
    NoFrames(a.bytes);
    AccountStart(a, first);
  }

  lemma InstalledMore(a: Snapshot, m: Snapshot, b: Snapshot, first: nat, v: nat, frames: map<nat, nat>, perm: Flags,
                      frame: nat)
    requires Installed(a, m, first, v, frames, perm) && first <= v && UserPage(v) && m.root == a.root
    requires Grew(m, b, {frame})
    requires |b.free| == |m.free| - 1 - Missing(m.node.Keys, v, 2) && b.node.Keys == m.node.Keys + Way(v, 2)
    requires Translate(m.tables, m.root, v).None?
    requires PageSet(m.tables, b.tables, m.root, v, Some(Pte(frame, Present(perm))))
    requires frame in b.bytes && b.bytes[frame] == ZeroPage()
    ensures Installed(a, b, first, v + 1, frames[v := frame], perm)
  {
    hide Grew, FramedView, OneToOneFrames, AllZero, Translate, PageRange, Vacant, Accounted, PageSet, Missing, Way,
         ZeroPage;
    NotInRange(frames, first, v);
    FramedAt(a.tables, m.tables, a.root, frames, perm, v);
    GrewTrans(a, m, b, frames.Values, {frame});
    ZeroKept(a, m, b, frames, {frame});
    AccountStep(a, m, b, first, v);
    PageFramed(a.tables, m.tables, b.tables, a.root, frames, v, frame, perm);
    AddFrame(frames, v, frame);
    AddZero(b.bytes, frames, v, frame);
    NextPage(a.tables, a.root, first, v, frames, frame);
  }

  lemma NotInRange(frames: map<nat, nat>, first: nat, v: nat)
    requires frames.Keys == PageRange(first, v)
    ensures v !in frames
  {
    assert v !in frames.Keys;
  }

  /** Page `v` could not be installed: what is known then. */
  lemma InstalledStop(a: Snapshot, m: Snapshot, b: Snapshot, first: nat, v: nat, last: nat, frames: map<nat, nat>,
                      perm: Flags)
    requires Installed(a, m, first, v, frames, perm) && first <= v < last && UserPage(v) && m.root == a.root
    requires Grew(m, b, {})
    requires SameViews(m.tables, b.tables, m.root)
    ensures Grew(a, b, frames.Values) && FramedView(a.tables, b.tables, a.root, frames, perm)
    ensures frames.Keys == PageRange(first, v) && OneToOneFrames(frames) && AllZero(b.bytes, frames)
    ensures Vacant(a.tables, a.root, first, v)
    ensures Translate(m.tables, m.root, v) == Translate(a.tables, a.root, v)
    ensures Translate(a.tables, a.root, v).Some? ==> !Vacant(a.tables, a.root, first, last)
    ensures |m.free| < 1 + Missing(m.node.Keys, v, 2) <==> |a.free| < FramesNeeded(a.node.Keys, first, v + 1)
    ensures FramesNeeded(a.node.Keys, first, v + 1) <= FramesNeeded(a.node.Keys, first, last)
    ensures |a.free| >= FramesNeeded(a.node.Keys, first, v)
    ensures |m.free| == 1 + Missing(m.node.Keys, v, 2) + |a.free| - FramesNeeded(a.node.Keys, first, v + 1)
  {
    hide Grew, FramedView, OneToOneFrames, AllZero, Translate, PageRange, Vacant, Accounted, Missing, FramesNeeded,
         SameViews;
    NotInRange(frames, first, v);
    FramedAt(a.tables, m.tables, a.root, frames, perm, v);
    GrewTrans(a, m, b, frames.Values, {});
    assert frames.Values + {} == frames.Values;
    ZeroKept(a, m, b, frames, {});
    SameFramed(a.tables, m.tables, b.tables, a.root, frames, perm);
    AccountStop(a, m, first, v, last);
    NotVacant(a.tables, a.root, first, v, last);
  }

  lemma InstalledParts(a: Snapshot, b: Snapshot, first: nat, v: nat, last: nat, frames: map<nat, nat>, perm: Flags)
    requires Installed(a, b, first, v, frames, perm) && first <= v && v >= last && (v > first ==> v <= last)
    ensures Grew(a, b, frames.Values) && FramedView(a.tables, b.tables, a.root, frames, perm)
    ensures frames.Keys == PageRange(first, v) && OneToOneFrames(frames) && AllZero(b.bytes, frames)
    ensures Vacant(a.tables, a.root, first, v)
    ensures Vacant(a.tables, a.root, first, last) && |a.free| >= FramesNeeded(a.node.Keys, first, last)
    ensures |b.free| == |a.free| - FramesNeeded(a.node.Keys, first, last)
    ensures b.node.Keys == KeysAfter(a.node.Keys, first, last)
  {
    hide Grew, FramedView, OneToOneFrames, AllZero, Translate, PageRange, Vacant, Accounted, FramesNeeded, KeysAfter;
    EmptyVacant(a.tables, a.root, first, last);
    AccountEnd(a, b, first, v, last);
  }

  lemma NotVacant(tables: Tables, root: nat, first: nat, v: nat, last: nat)
    requires first <= v < last
    ensures Translate(tables, root, v).Some? ==> !Vacant(tables, root, first, last)
  {
  }

  lemma EmptyVacant(tables: Tables, root: nat, first: nat, last: nat)
    ensures first >= last ==> Vacant(tables, root, first, last)
  {
  }

  lemma SameRefl(m: Snapshot)
    requires m.root in m.tables
    ensures SameViews(m.tables, m.tables, m.root) && Grew(m, m, {})
  {
  }

  /** What the page operation did, as seen from before the frame was taken. */
  lemma AfterMap(m: Snapshot, t: Snapshot, b: Snapshot, v: nat, ok: bool, pte: Option<Pte>)
    requires SameViews(m.tables, t.tables, m.root) && NoNewSuper(m.tables, t.tables, m.root)
    requires t.root == m.root && t.lim == m.lim && NoSupers(t) && Edited(t, b)
    requires ok ==> PageSet(t.tables, b.tables, m.root, v, pte)
    requires !ok ==> SameViews(t.tables, b.tables, m.root) && NoNewSuper(t.tables, b.tables, m.root)
    ensures NoSupers(b) && Translate(t.tables, m.root, v) == Translate(m.tables, m.root, v)
    ensures ok ==> PageSet(m.tables, b.tables, m.root, v, pte)
    ensures !ok ==> SameViews(m.tables, b.tables, m.root)
  {
    hide HwWalk, Translate, NoLeafAbove, HwLeaf, Canonical;
    assert NoNewSuper(t.tables, b.tables, m.root);
    SupersKept(t, b);
  }

  /** The frame taken for a page stays apart from what the table did meanwhile. */
  lemma FrameKept(m: Snapshot, b: Snapshot, f: nat)
    requires SnapOk(m) && f in m.free && f in m.tables && m.bytes.Keys == m.tables.Keys
    requires Edited(FrameOut(m, f), b)
    ensures f in b.bytes && b.bytes[f] == ZeroPage()
    ensures f in b.tables && f !in b.free && f !in b.node.Values && f !in b.shared
  {
    hide ZeroPage, ZeroTable;
    FreeIsNotOwned(m, f);
    assert f in FrameOut(m, f).bytes;
  }

  lemma ReleaseOk(b: Snapshot, f: nat)
    requires SnapOk(b) && f !in b.node.Values && f !in b.shared
    ensures SnapOk(b.(free := b.free + {f}))
    ensures NoSupers(b) ==> NoSupers(b.(free := b.free + {f}))
  {
  }

  lemma FramedAt(a: Tables, b: Tables, root: nat, frames: map<nat, nat>, perm: Flags, v: nat)
    requires FramedView(a, b, root, frames, perm) && v !in frames && Canonical(v)
    ensures Translate(b, root, v) == Translate(a, root, v)
  {
  }

  lemma ZeroKept(a: Snapshot, m: Snapshot, b: Snapshot, frames: map<nat, nat>, taken: set<nat>)
    requires Grew(a, m, frames.Values) && Grew(m, b, taken) && AllZero(m.bytes, frames)
    ensures AllZero(b.bytes, frames)
  {
    forall w | w in frames ensures frames[w] in b.bytes && b.bytes[frames[w]] == ZeroPage() {
      assert frames[w] in frames.Values;
    }
  }

  lemma AddZero(bytes: Bytes, frames: map<nat, nat>, v: nat, f: nat)
    requires AllZero(bytes, frames) && f in bytes && bytes[f] == ZeroPage()
    ensures AllZero(bytes, frames[v := f])
  {
  }

  lemma NoneVacant(tables: Tables, root: nat, first: nat)
    ensures Vacant(tables, root, first, first) && PageRange(first, first) == {}
  {
  }

  lemma NextPage(tables: Tables, root: nat, first: nat, v: nat, frames: map<nat, nat>, f: nat)
    requires first <= v && frames.Keys == PageRange(first, v) && Vacant(tables, root, first, v)
    requires Translate(tables, root, v).None?
    ensures frames[v := f].Keys == PageRange(first, v + 1) && Vacant(tables, root, first, v + 1)
  {
    hide Translate, PageRange;
  }

  lemma FramedRefl(a: Tables, root: nat, perm: Flags)
    ensures FramedView(a, a, root, map[], perm)
  {
  }

  lemma NoFrames(bytes: Bytes)
    ensures OneToOneFrames(map[]) && AllZero(bytes, map[])
  {
  }
}
