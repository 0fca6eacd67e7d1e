/** Mapping a linear region of the kernel: 2 MiB leaves where they fit, 4 KiB pages elsewhere. Under the
    hardware's walk the result is the same as mapping every page on its own. */
module LinearMap {
  import opened Prelude
  import opened Sv39
  import opened Sv39Tree
  import opened Memory
  import opened Hardware
  import opened PhysMemory
  import opened PageTables

  const END_PAGES: nat := 0x10_0000_0000_0000
  /** `SUPERPAGE_SIZE / PAGE_SIZE` */
  const SUPER_PAGES: nat := 512

  /** The 4 KiB entry for page `w` of a linear region. */
  function LinearPte(w: nat, perm: Flags): Pte
    requires OFFSET_PAGES <= w
  {
    Pte(w - OFFSET_PAGES, Present(perm))
  }

  /** Page `w` of the direct map leads to the frame as many pages above the start of memory, with these rights, by the
      bytes of the tables. */
  ghost predicate RawLinear(bytes: Bytes, root: nat, w: nat, perm: Flags) {
    w >= 0xf_ffff_fc00_0000 &&
    (perm.read ==> RawWalk(bytes, root, w) == Some((w - 0xf_ffff_fc00_0000, PresentWord(perm))))
  }

  lemma LinearIsRaw(bytes: Bytes, root: nat, w: nat, perm: Flags)
    requires OFFSET_PAGES <= w && HwWalk(Decoded(bytes), root, w) == HwLeaf(LinearPte(w, perm), w, 2)
    ensures RawLinear(bytes, root, w, perm)
  {
    hide HwWalk, RawWalk, PresentWord, Decoded;
    if perm.read { MappedIsRaw(bytes, root, w, w - OFFSET_PAGES, perm); }
  }

  /** One superpage leaf means the same to the hardware as the 512 page entries it replaces. */
  lemma SuperpageIs512Pages(v: nat, w: nat, perm: Flags)
    requires OFFSET_PAGES <= v && v % SUPER_PAGES == 0 && w / SUPER_PAGES == v / SUPER_PAGES
    ensures OFFSET_PAGES <= w
    ensures HwLeaf(LinearPte(v, perm), w, 1) == HwLeaf(LinearPte(w, perm), w, 2)
  {
    assert w == v + w % 512;
  }

  /** The pages of `[first, upto)` translate linearly; every other page as before. */
  ghost predicate LinearView(a: Tables, b: Tables, root: nat, first: nat, upto: nat, perm: Flags)
    requires OFFSET_PAGES <= first
  {
    forall w: nat | Canonical(w) ::
      HwWalk(b, root, w) == if first <= w < upto then HwLeaf(LinearPte(w, perm), w, 2) else HwWalk(a, root, w)
  }

  /** No superpage covers a page of `[from, last)`. */
  ghost predicate Clear(tables: Tables, root: nat, from: nat, last: nat) {
    forall w: nat | from <= w < last :: NoLeafAbove(tables, root, w, 2)
  }

  lemma ExtendBySuper(a: Tables, b: Tables, c: Tables, root: nat, first: nat, v: nat, last: nat, perm: Flags)
    requires OFFSET_PAGES <= first <= v && v % SUPER_PAGES == 0 && v + SUPER_PAGES <= last <= END_PAGES
    requires LinearView(a, b, root, first, v, perm) && LeafAdded(b, c, root, v, LinearPte(v, perm), 1)
    ensures LinearView(a, c, root, first, v + SUPER_PAGES, perm)
  {
    hide HwWalk, Translate, NoLeafAbove, HwLeaf;
    forall w: nat | Canonical(w)
      ensures HwWalk(c, root, w) == if first <= w < v + SUPER_PAGES then HwLeaf(LinearPte(w, perm), w, 2)
                else HwWalk(a, root, w)
    {
      assert v <= w < v + 512 <==> w / 512 == v / 512;
      if v <= w < v + 512 { SuperpageIs512Pages(v, w, perm); }
    }
  }

  lemma ExtendByPage(a: Tables, b: Tables, c: Tables, root: nat, first: nat, v: nat, last: nat, perm: Flags)
    requires OFFSET_PAGES <= first <= v < last <= END_PAGES
    requires LinearView(a, b, root, first, v, perm) && PageSet(b, c, root, v, Some(LinearPte(v, perm)))
    ensures LinearView(a, c, root, first, v + 1, perm)
  {
    hide HwWalk, Translate, NoLeafAbove, HwLeaf;
  }

  lemma SameStart(a: Tables, b: Tables, root: nat, first: nat, v: nat, perm: Flags, c: Tables)
    requires OFFSET_PAGES <= first && LinearView(a, b, root, first, v, perm) && SameViews(b, c, root)
    ensures LinearView(a, c, root, first, v, perm)
  {
    hide HwWalk, Translate, HwLeaf;
  }

  /** A 2 MiB leaf fits at `v`. */
  predicate Super(v: nat, last: nat)
    requires OFFSET_PAGES <= v
  {
    v % SUPER_PAGES == 0 && (v - OFFSET_PAGES) % SUPER_PAGES == 0 && v + SUPER_PAGES <= last
  }

  /** The slot that the next leaf would go to is taken. */
  ghost predicate Occupied(tables: Tables, root: nat, v: nat, last: nat)
    requires OFFSET_PAGES <= v
  {
    if Super(v, last) then SlotUsed(tables, root, v) else Translate(tables, root, v).Some?
  }

  /** The first slot that is taken, going leaf by leaf. */
  ghost function FirstOccupied(tables: Tables, root: nat, v: nat, last: nat): (r: nat)
    requires OFFSET_PAGES <= v <= last
    ensures v <= r <= last
    decreases last - v
  {
    if v == last || Occupied(tables, root, v, last) then v
    else FirstOccupied(tables, root, if Super(v, last) then v + SUPER_PAGES else v + 1, last)
  }

  /** A run of `n` pages at `w` has none in `[first, upto)`. */
  predicate Beside(w: nat, n: nat, first: nat, upto: nat) {
    w + n <= first || upto <= w || upto <= first
  }

  /** A page outside `[first, upto)` has no superpage on its way unless it had one, and the same bottom entry as
      before. */
  ghost predicate PageKept(a: Tables, b: Tables, root: nat, w: nat) {
    (NoLeafAbove(a, root, w, 2) ==> NoLeafAbove(b, root, w, 2)) && Translate(b, root, w) == Translate(a, root, w)
  }

  ghost predicate PagesBeside(a: Tables, b: Tables, root: nat, first: nat, upto: nat) {
    forall w: nat | OFFSET_PAGES <= w < END_PAGES && Beside(w, 1, first, upto) :: PageKept(a, b, root, w)
  }

  /** The slots of superpages beside `[first, upto)` are taken if they were. */
  ghost predicate SlotsBeside(a: Tables, b: Tables, root: nat, first: nat, upto: nat) {
    forall w: nat | OFFSET_PAGES <= w < END_PAGES && w % SUPER_PAGES == 0 && Beside(w, SUPER_PAGES, first, upto) ::
      SlotUsed(b, root, w) <==> SlotUsed(a, root, w)
  }

  lemma BesideRefl(a: Tables, root: nat, first: nat)
    ensures PagesBeside(a, a, root, first, first) && SlotsBeside(a, a, root, first, first)
  {
  }

  lemma PagesFurther(a: Tables, b: Snapshot, c: Snapshot, first: nat, v: nat, next: nat, pte: Pte, level: nat)
    requires PagesBeside(a, b.tables, b.root, first, v) && OFFSET_PAGES <= first <= v < next <= END_PAGES
    requires || (level == 1 && v % SUPER_PAGES == 0 && next == v + SUPER_PAGES
               && LeafAdded(b.tables, c.tables, b.root, v, pte, 1))
             || (level == 2 && next == v + 1 && PageSet(b.tables, c.tables, b.root, v, Some(pte)))
    ensures PagesBeside(a, c.tables, b.root, first, next)
  {
    hide HwWalk, Translate, NoLeafAbove, HwLeaf, SameWay;
    forall w: nat | OFFSET_PAGES <= w < END_PAGES && Beside(w, 1, first, next)
      ensures PageKept(a, c.tables, b.root, w)
    {
      assert Canonical(w) && PageKept(a, b.tables, b.root, w);
      if level == 1 {
        assert w / 512 != v / 512;
        SameWayIsSameRun(v, w, 1);
      }
    }
  }

  lemma PagesStill(a: Tables, b: Tables, c: Tables, root: nat, first: nat, v: nat)
    requires PagesBeside(a, b, root, first, v) && SameViews(b, c, root) && NoNewSuper(b, c, root)
    ensures PagesBeside(a, c, root, first, v)
  {
    hide HwWalk, Translate, NoLeafAbove;
    forall w: nat | OFFSET_PAGES <= w < END_PAGES && Beside(w, 1, first, v) ensures PageKept(a, c, root, w) {
      assert PageKept(a, b, root, w);
    }
  }

  lemma SlotsFurther(a: Tables, b: Snapshot, c: Snapshot, first: nat, v: nat, next: nat)
    requires SlotsBeside(a, b.tables, b.root, first, v) && OFFSET_PAGES <= first <= v < next <= END_PAGES
    requires b.lim == PTE_PER_TABLE
    requires SlotsKept(b, c, v)
    ensures SlotsBeside(a, c.tables, b.root, first, next)
  {
    hide SlotUsed;
    forall w: nat | OFFSET_PAGES <= w < END_PAGES && w % SUPER_PAGES == 0 && Beside(w, SUPER_PAGES, first, next)
      ensures SlotUsed(c.tables, b.root, w) <==> SlotUsed(a, b.root, w)
    {
      assert Canonical(w) && w / 512 != v / 512;
    }
  }

  lemma SameOccupied(a: Tables, b: Tables, root: nat, first: nat, v: nat, last: nat)
    requires PagesBeside(a, b, root, first, v) && SlotsBeside(a, b, root, first, v)
    requires OFFSET_PAGES <= v < last <= END_PAGES
    ensures Occupied(a, root, v, last) <==> Occupied(b, root, v, last)
    ensures NoLeafAbove(a, root, v, 2) ==> NoLeafAbove(b, root, v, 2)
  {
    hide Translate, SlotUsed, NoLeafAbove;
    assert PageKept(a, b, root, v);
  }

  /** The pages `[first, v)` of the region are installed, and nothing else changed. */
  ghost predicate Through(start: Snapshot, now: Snapshot, first: nat, v: nat, last: nat, perm: Flags)
    requires OFFSET_PAGES <= first
  {
    && first <= v <= last && Edited(start, now) && now.lim == PTE_PER_TABLE && now.root == start.root
    && LinearView(start.tables, now.tables, start.root, first, v, perm)
    && PagesBeside(start.tables, now.tables, start.root, first, v)
    && SlotsBeside(start.tables, now.tables, start.root, first, v)
    && FirstOccupied(start.tables, start.root, first, last) == FirstOccupied(start.tables, start.root, v, last)
  }

  lemma ThroughStart(s: Snapshot, first: nat, last: nat, perm: Flags)
    requires OFFSET_PAGES <= first <= last && s.lim == PTE_PER_TABLE && SnapOk(s)
    ensures Through(s, s, first, first, last, perm)
  {
    hide LinearView, PagesBeside, SlotsBeside, FirstOccupied, Edited, SnapOk;
    RootFacts(s);
    EditedRefl(s);
    LinearRefl(s.tables, s.root, first, perm);
    BesideRefl(s.tables, s.root, first);
  }

  /** The next slot: what is known before it is tried. */
  lemma ThroughNext(start: Snapshot, now: Snapshot, first: nat, v: nat, last: nat, perm: Flags)
    requires OFFSET_PAGES <= first <= v < last <= END_PAGES && Clear(start.tables, start.root, first, last)
    requires Through(start, now, first, v, last, perm)
    ensures NoLeafAbove(now.tables, now.root, v, 1) && NoLeafAbove(now.tables, now.root, v, 2)
    ensures Occupied(now.tables, now.root, v, last) ==> FirstOccupied(start.tables, start.root, first, last) == v
    ensures Super(v, last) ==> Occupied(now.tables, now.root, v, last) == SlotUsed(now.tables, now.root, v)
    ensures !Super(v, last) ==> Occupied(now.tables, now.root, v, last) == Translate(now.tables, now.root, v).Some?
    ensures v <= FirstOccupied(start.tables, start.root, first, last)
  {
    hide LinearView, PagesBeside, SlotsBeside, Edited, NoLeafAbove, Translate, SlotUsed, Clear;
    SameOccupied(start.tables, now.tables, start.root, first, v, last);
    ClearAt(start.tables, now.tables, start.root, first, v, last);
  }

  lemma ThroughSuper(start: Snapshot, before: Snapshot, now: Snapshot, first: nat, v: nat, last: nat, perm: Flags)
    requires OFFSET_PAGES <= first <= v < last <= END_PAGES && Super(v, last)
    requires Through(start, before, first, v, last, perm)
    requires Edited(before, now) && SlotsKept(before, now, v) && !SlotUsed(before.tables, before.root, v)
    requires LeafAdded(before.tables, now.tables, before.root, v, LinearPte(v, perm), 1)
    ensures Through(start, now, first, v + SUPER_PAGES, last, perm)
  {
    hide LinearView, PagesBeside, SlotsBeside, Edited, LeafAdded, SlotsKept, Translate, SlotUsed;
    SameOccupied(start.tables, before.tables, start.root, first, v, last);
    EditedFields(before, now);
    EditedTrans(start, before, now);
    ExtendBySuper(start.tables, before.tables, now.tables, start.root, first, v, last, perm);
    PagesFurther(start.tables, before, now, first, v, v + SUPER_PAGES, LinearPte(v, perm), 1);
    SlotsFurther(start.tables, before, now, first, v, v + SUPER_PAGES);
  }

  lemma ThroughPage(start: Snapshot, before: Snapshot, now: Snapshot, first: nat, v: nat, last: nat, perm: Flags)
    requires OFFSET_PAGES <= first <= v < last <= END_PAGES && !Super(v, last)
    requires Through(start, before, first, v, last, perm)
    requires Edited(before, now) && SlotsKept(before, now, v) && Translate(before.tables, before.root, v) == None
    requires PageSet(before.tables, now.tables, before.root, v, Some(LinearPte(v, perm)))
    ensures Through(start, now, first, v + 1, last, perm)
  {
    hide LinearView, PagesBeside, SlotsBeside, Edited, PageSet, SlotsKept, Translate, SlotUsed;
    SameOccupied(start.tables, before.tables, start.root, first, v, last);
    EditedFields(before, now);
    EditedTrans(start, before, now);
    ExtendByPage(start.tables, before.tables, now.tables, start.root, first, v, last, perm);
    PagesFurther(start.tables, before, now, first, v, v + 1, LinearPte(v, perm), 2);
    SlotsFurther(start.tables, before, now, first, v, v + 1);
  }

  lemma EditedFields(a: Snapshot, b: Snapshot)
    requires Edited(a, b)
    ensures b.root == a.root && b.lim == a.lim
  {
  }

  /** A slot that could not be filled. */
  lemma ThroughStop(start: Snapshot, before: Snapshot, now: Snapshot, first: nat, v: nat, last: nat, perm: Flags)
    requires OFFSET_PAGES <= first && Through(start, before, first, v, last, perm) && Edited(before, now)
    requires SameViews(before.tables, now.tables, before.root) && NoNewSuper(before.tables, now.tables, before.root)
    ensures Edited(start, now) && LinearView(start.tables, now.tables, start.root, first, v, perm)
    ensures PagesBeside(start.tables, now.tables, start.root, first, v)
  {
    hide LinearView, PagesBeside, SlotsBeside, Edited, SameViews, NoNewSuper, FirstOccupied;
    EditedTrans(start, before, now);
    SameStart(start.tables, before.tables, start.root, first, v, perm, now.tables);
    PagesStill(start.tables, before.tables, now.tables, start.root, first, v);
  }

  lemma ThroughEnd(start: Snapshot, now: Snapshot, first: nat, last: nat, perm: Flags)
    requires OFFSET_PAGES <= first && Through(start, now, first, last, last, perm)
    ensures Edited(start, now) && LinearView(start.tables, now.tables, start.root, first, last, perm)
    ensures PagesBeside(start.tables, now.tables, start.root, first, last)
    ensures SlotsBeside(start.tables, now.tables, start.root, first, last)
    ensures FirstOccupied(start.tables, start.root, first, last) == last
  {
    hide LinearView, PagesBeside, SlotsBeside, Edited;
  }

  /** Install every page of the linear region `[first, last)`. On failure a prefix is installed. It stops at the first
      slot that is taken, unless it runs out of frames for tables before. No page beside the region gets a superpage on
      its way. */
  method MapLinear(table: PageTable, first: nat, last: nat, perm: Flags) returns (r: MapResult, ghost done: nat)
    requires table.Valid() && table.lim == PTE_PER_TABLE && OFFSET_PAGES <= first <= last <= END_PAGES && HasRwx(perm)
    requires Clear(table.mem.tables, table.root, first, last)
    modifies table`frames, table`node, table.mem
    ensures table.Valid() && Edited(old(table.Now()), table.Now()) && old(table.mem.log) <= table.mem.log
    ensures first <= done <= last && (r == Mapped <==> done == last)
    ensures LinearView(old(table.mem.tables), table.mem.tables, table.root, first, done, perm)
    ensures r == Mapped || r == AlreadyMapped || r == OutOfMemory
    ensures r == Mapped || r == AlreadyMapped ==> done == FirstOccupied(old(table.mem.tables), table.root, first, last)
    ensures r == OutOfMemory ==>
              table.mem.free == {} && done <= FirstOccupied(old(table.mem.tables), table.root, first, last)
    ensures PagesBeside(old(table.mem.tables), table.mem.tables, table.root, first, done)
    ensures r == Mapped ==> SlotsBeside(old(table.mem.tables), table.mem.tables, table.root, first, last)
  {
    hide TableOk, Edited, LinearView, NoLeafAbove, LeafAdded, PageSet, SameViews, NoNewSuper, Clear, SlotsKept,
         SlotUsed, Translate, Way, Missing, Decoded, Booked, PagesBeside, SlotsBeside, FirstOccupied, Occupied, Through;
    ghost var start := table.Now();
    RootFacts(start);
    ThroughStart(start, first, last, perm);
    var vpn := first;
    while vpn < last
      invariant first <= vpn <= last && table.Valid() && table.lim == PTE_PER_TABLE
      invariant Through(start, table.Now(), first, vpn, last, perm) && old(table.mem.log) <= table.mem.log
    {
      var ppn := vpn - OFFSET_PAGES;
      ghost var before := table.Now();
      ThroughNext(start, before, first, vpn, last, perm);
      if vpn % SUPER_PAGES == 0 && ppn % SUPER_PAGES == 0 && vpn + SUPER_PAGES <= last {
        SlotOf(before.tables, table.root, vpn);
        r := table.MapAtLevel(vpn, ppn, perm, 1);
        if r != Mapped {
          ThroughStop(start, before, table.Now(), first, vpn, last, perm);
          return r, vpn;
        }
        ThroughSuper(start, before, table.Now(), first, vpn, last, perm);
        vpn := vpn + SUPER_PAGES;
        continue;
      }
      r := table.Map(vpn, ppn, perm);
      if r != Mapped {
        ThroughStop(start, before, table.Now(), first, vpn, last, perm);
        return r, vpn;
      }
      ThroughPage(start, before, table.Now(), first, vpn, last, perm);
      vpn := vpn + 1;
    }
    ThroughEnd(start, table.Now(), first, last, perm);
    return Mapped, vpn;
  }

  lemma SlotOf(tables: Tables, root: nat, v: nat)
    ensures SlotUsed(tables, root, v) <==> var e := EntryAt(tables, root, v, 1); e.Some? && e.value.flags.valid
  {
  }

  lemma LinearRefl(a: Tables, root: nat, first: nat, perm: Flags)
    requires OFFSET_PAGES <= first
    ensures LinearView(a, a, root, first, first, perm)
  {
  }

  lemma ClearAt(a: Tables, b: Tables, root: nat, first: nat, v: nat, last: nat)
    requires Clear(a, root, first, last) && first <= v < last
    requires (NoLeafAbove(a, root, v, 2) ==> NoLeafAbove(b, root, v, 2))
    ensures NoLeafAbove(b, root, v, 1) && NoLeafAbove(b, root, v, 2)
  {
    assert NoLeafAbove(a, root, v, 2);
  }

  // ---- the kernel's own space ----------------------------------------------------------------------------

  datatype Window = Window(first: nat, last: nat, perm: Flags)

  predicate InWindow(l: Window, w: nat) {
    l.first <= w < l.last
  }

  /** Windows of the direct map, no page in two of them. */
  ghost predicate WindowsOk(ls: seq<Window>) {
    && (forall l | l in ls :: OFFSET_PAGES <= l.first <= l.last <= END_PAGES && HasRwx(l.perm))
    && (forall i, j, w: nat | 0 <= i < j < |ls| :: !(InWindow(ls[i], w) && InWindow(ls[j], w)))
  }

  /** Page `w` is in one of the first `n` windows. */
  ghost predicate InOne(ls: seq<Window>, n: nat, w: nat) {
    exists i: nat :: i < n && i < |ls| && InWindow(ls[i], w)
  }

  ghost predicate Vacancy(tables: Tables, root: nat, ls: seq<Window>, n: nat, w: nat) {
    && (!InOne(ls, n, w) ==>
        NoLeafAbove(tables, root, w, 2) && Translate(tables, root, w) == None && HwWalk(tables, root, w) == None)
    && (w % SUPER_PAGES == 0 && RunVacant(ls, n, w) ==> !SlotUsed(tables, root, w))
  }

  ghost predicate RunVacant(ls: seq<Window>, n: nat, w: nat) {
    forall u: nat | w <= u < w + SUPER_PAGES :: !InOne(ls, n, u)
  }

  /** Outside the first `n` windows nothing is mapped and no slot is taken. */
  ghost predicate Vacancies(tables: Tables, root: nat, ls: seq<Window>, n: nat) {
    forall w: nat | OFFSET_PAGES <= w < END_PAGES :: Vacancy(tables, root, ls, n, w)
  }

  /** The hardware finds every page of the first `n` windows at its place. */
  ghost predicate Windows(tables: Tables, root: nat, ls: seq<Window>, n: nat)
    requires WindowsOk(ls)
  {
    forall i: nat, w: nat | i < n && i < |ls| && InWindow(ls[i], w) :: AtPlace(tables, root, ls[i], w)
  }

  ghost predicate AtPlace(tables: Tables, root: nat, l: Window, w: nat)
    requires OFFSET_PAGES <= l.first && InWindow(l, w)
  {
    HwWalk(tables, root, w) == HwLeaf(LinearPte(w, l.perm), w, 2)
  }

  /** On a table without entries nothing is mapped. */
  lemma EmptyVacant(tables: Tables, root: nat, ls: seq<Window>)
    requires root in tables && tables[root] == ZeroTable()
    ensures Vacancies(tables, root, ls, 0)
  {
    forall w: nat | OFFSET_PAGES <= w < END_PAGES ensures Vacancy(tables, root, ls, 0, w) {
      EmptyAt(tables, root, w);
    }
  }

  lemma EmptyAt(tables: Tables, root: nat, w: nat)
    requires root in tables && tables[root] == ZeroTable()
    ensures NoLeafAbove(tables, root, w, 2) && !SlotUsed(tables, root, w)
    ensures Translate(tables, root, w) == None && HwWalk(tables, root, w) == None
  {
    assert Index(w, 0) < PTE_PER_TABLE && tables[root][Index(w, 0)] == EMPTY;
    assert EntryAt(tables, root, w, 0) == Some(EMPTY) && EntryAt(tables, root, w, 1) == None;
  }

  /** So the slots of the next window are all free. */
  lemma {:induction false} NothingOccupied(tables: Tables, root: nat, ls: seq<Window>, n: nat, v: nat)
    requires WindowsOk(ls) && n < |ls| && ls[n].first <= v <= ls[n].last && Vacancies(tables, root, ls, n)
    ensures OFFSET_PAGES <= v && FirstOccupied(tables, root, v, ls[n].last) == ls[n].last
    decreases ls[n].last - v
  {
    hide Vacancies, Vacancy, Occupied, WindowsOk;
    WindowBounds(ls, n);
    if v < ls[n].last {
      NotOccupied(tables, root, ls, n, v);
      NothingOccupied(tables, root, ls, n, if Super(v, ls[n].last) then v + SUPER_PAGES else v + 1);
    }
  }

  lemma WindowBounds(ls: seq<Window>, n: nat)
    requires WindowsOk(ls) && n < |ls|
    ensures OFFSET_PAGES <= ls[n].first <= ls[n].last <= END_PAGES && HasRwx(ls[n].perm)
    ensures forall w: nat | InWindow(ls[n], w) :: !InOne(ls, n, w)
  {
    hide HasRwx;
  }

  lemma NotOccupied(tables: Tables, root: nat, ls: seq<Window>, n: nat, v: nat)
    requires WindowsOk(ls) && n < |ls| && ls[n].first <= v < ls[n].last && Vacancies(tables, root, ls, n)
    ensures OFFSET_PAGES <= v && !Occupied(tables, root, v, ls[n].last) && NoLeafAbove(tables, root, v, 2)
  {
    hide Translate, SlotUsed, NoLeafAbove, HwWalk, WindowsOk, InOne;
    WindowBounds(ls, n);
    assert Vacancy(tables, root, ls, n, v);
    if Super(v, ls[n].last) {
      forall u: nat | v <= u < v + SUPER_PAGES ensures !InOne(ls, n, u) { assert InWindow(ls[n], u); }
    }
    assert InWindow(ls[n], v);
  }

  lemma WindowClear(tables: Tables, root: nat, ls: seq<Window>, n: nat)
    requires WindowsOk(ls) && n < |ls| && Vacancies(tables, root, ls, n)
    ensures Clear(tables, root, ls[n].first, ls[n].last)
  {
    hide Vacancies, NoLeafAbove, WindowsOk, Occupied;
    forall w: nat | ls[n].first <= w < ls[n].last ensures NoLeafAbove(tables, root, w, 2) {
      NotOccupied(tables, root, ls, n, w);
    }
  }

  lemma MoreVacant(a: Tables, b: Tables, root: nat, ls: seq<Window>, n: nat)
    requires WindowsOk(ls) && n < |ls| && Vacancies(a, root, ls, n)
    requires LinearView(a, b, root, ls[n].first, ls[n].last, ls[n].perm)
    requires PagesBeside(a, b, root, ls[n].first, ls[n].last) && SlotsBeside(a, b, root, ls[n].first, ls[n].last)
    ensures Vacancies(b, root, ls, n + 1)
  {
    hide Translate, SlotUsed, NoLeafAbove, HwWalk, WindowsOk, InOne, LinearPte, HwLeaf;
    var m := n + 1;
    forall w: nat | OFFSET_PAGES <= w < END_PAGES ensures Vacancy(b, root, ls, m, w) {
      assert Canonical(w) && Vacancy(a, root, ls, n, w);
      OneMoreWindow(ls, n, w);
      if !InOne(ls, m, w) { assert PageKept(a, b, root, w); }
      if w % SUPER_PAGES == 0 && RunVacant(ls, m, w) {
        forall u: nat | w <= u < w + SUPER_PAGES
          ensures !InOne(ls, n, u) && !InWindow(ls[n], u)
        {
          OneMoreWindow(ls, n, u);
        }
        RunBeside(ls[n], w);
      }
    }
  }

  lemma OneMoreWindow(ls: seq<Window>, n: nat, w: nat)
    requires n < |ls|
    ensures InOne(ls, n + 1, w) <==> InOne(ls, n, w) || InWindow(ls[n], w)
  {
  }

  /** A run without a page of the window lies beside it. */
  lemma RunBeside(l: Window, w: nat)
    requires forall u: nat | w <= u < w + SUPER_PAGES :: !InWindow(l, u)
    ensures Beside(w, SUPER_PAGES, l.first, l.last)
  {
    if !Beside(w, SUPER_PAGES, l.first, l.last) {
      var u := if w < l.first then l.first else w;
      assert InWindow(l, u);
    }
  }

  lemma MoreWindows(a: Tables, b: Tables, root: nat, ls: seq<Window>, n: nat)
    requires WindowsOk(ls) && n < |ls| && Windows(a, root, ls, n)
    requires LinearView(a, b, root, ls[n].first, ls[n].last, ls[n].perm)
    ensures Windows(b, root, ls, n + 1)
  {
    hide HwWalk, LinearPte, HwLeaf;
    forall i: nat, w: nat | i < n + 1 && i < |ls| && InWindow(ls[i], w) ensures AtPlace(b, root, ls[i], w) {
      assert Canonical(w);
      if i < n {
        assert !InWindow(ls[n], w);
        assert AtPlace(a, root, ls[i], w);
      }
    }
  }

  /** Map all windows into an empty table. It fails only for lack of frames. Then every page of every window is found at
      its place, with the window's permissions, and no other page of the upper half is mapped. */
  method MapWindows(table: PageTable, ls: seq<Window>) returns (r: MapResult)
    requires table.Valid() && table.lim == PTE_PER_TABLE && table.mem.tables[table.root] == ZeroTable() && WindowsOk(ls)
    modifies table`frames, table`node, table.mem
    ensures table.Valid() && Edited(old(table.Now()), table.Now()) && old(table.mem.log) <= table.mem.log
    ensures r == Mapped || (r == OutOfMemory && table.mem.free == {})
    ensures r == Mapped ==> Windows(table.mem.tables, table.root, ls, |ls|)
    ensures r == Mapped ==> Vacancies(table.mem.tables, table.root, ls, |ls|)
  {
    hide TableOk, Edited, LinearView, Vacancies, Windows, Clear, PagesBeside, SlotsBeside, WindowsOk, Decoded, Booked,
         ZeroTable, HasRwx, FirstOccupied;
    ghost var start := table.Now();
    RootFacts(start);
    EditedRefl(start);
    EmptyVacant(start.tables, start.root, ls);
    NoWindows(start.tables, start.root, ls);
    for n := 0 to |ls|
      invariant table.Valid() && Edited(start, table.Now()) && table.lim == PTE_PER_TABLE && table.root == start.root
      invariant old(table.mem.log) <= table.mem.log
      invariant Windows(table.mem.tables, table.root, ls, n) && Vacancies(table.mem.tables, table.root, ls, n)
    {
      ghost var before := table.Now();
      WindowBounds(ls, n);
      WindowClear(before.tables, table.root, ls, n);
      NothingOccupied(before.tables, table.root, ls, n, ls[n].first);
      ghost var done;
      r, done := MapLinear(table, ls[n].first, ls[n].last, ls[n].perm);
      EditedTrans(start, before, table.Now());
      if r != Mapped {
        return;
      }
      MoreWindows(before.tables, table.mem.tables, table.root, ls, n);
      MoreVacant(before.tables, table.mem.tables, table.root, ls, n);
    }
    return Mapped;
  }

  /** What the hardware finds for a page of a window in the bytes of memory. */
  lemma WindowIsRaw(bytes: Bytes, root: nat, ls: seq<Window>, i: nat, w: nat)
    requires WindowsOk(ls) && Windows(Decoded(bytes), root, ls, |ls|) && i < |ls| && InWindow(ls[i], w)
    ensures RawLinear(bytes, root, w, ls[i].perm)
  {
    hide HwWalk, HwLeaf, LinearPte, RawLinear, Decoded;
    assert ls[i] in ls && AtPlace(Decoded(bytes), root, ls[i], w);
    LinearIsRaw(bytes, root, w, ls[i].perm);
  }

  /** If no window is for users, no page of the upper half is. */
  lemma WindowsHidden(tables: Tables, root: nat, ls: seq<Window>, w: nat)
    requires WindowsOk(ls) && Windows(tables, root, ls, |ls|) && Vacancies(tables, root, ls, |ls|)
    requires OFFSET_PAGES <= w < END_PAGES && forall l | l in ls :: !l.perm.user
    ensures HwWalk(tables, root, w).Some? ==> !HwWalk(tables, root, w).value.flags.user
  {
    hide HwWalk;
    assert Vacancy(tables, root, ls, |ls|, w);
    if InOne(ls, |ls|, w) {
      var i: nat :| i < |ls| && InWindow(ls[i], w);
      assert ls[i] in ls && AtPlace(tables, root, ls[i], w);
    }
  }

  lemma NoWindows(tables: Tables, root: nat, ls: seq<Window>)
    requires WindowsOk(ls)
    ensures Windows(tables, root, ls, 0)
  {
  }
}
