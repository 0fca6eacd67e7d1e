/** A failed push and one copy after it, in a memory of eight frames: what the allocator can still find afterwards. */
module LostBlocks {
  import opened Sv39
  import opened Memory
  import opened Dyadic
  import opened BuddySpec
  import FrameLists
  import opened PhysMemory
  import opened PageTables
  import opened Framed
  import opened UserMemory
  import opened Spaces
  import opened Fork
  import opened StalePages
  import opened Processes
  import opened FreeLists
  import ProcessSteps

  /** The world of a kernel that has just got its table. */
  lemma KernelWorld(w: World, kernel: PageTable)
    requires kernel.Valid() && kernel.lim == PTE_PER_TABLE && kernel.shared == {} && ProcessSteps.ShowsKernel(w, kernel)
    requires w.procs == map[] && w.taken == {}
    ensures WorldOk(w)
  {
    hide TableOk, Decoded, Booked;
  }

  /** One process, and six frames left. */
  method FirstProcess() returns (space: AddressSpace, ghost w: World)
    ensures fresh(space) && fresh(space.table) && fresh(space.table.mem)
    ensures space.table.mem.Valid() && ProcessSteps.ShowsSpace(w, 0, space) && WorldOk(w) && w.procs.Keys == {0}
    ensures w.taken == {} && |w.free| == 6 && space.regions == [] && space.table.node.Keys == {Root}
    ensures space.table.mem.origin.ledger.base == 0
  {
    hide TableOk, Decoded, Booked, WorldOk, Next, Served, Holds;
    var mem := new PhysMem(0, 8);
    EightFrames();
    var root; ghost var shuffled;
    root, shuffled := mem.Alloc();
    assert |mem.free| == 7;
    var kernel := new PageTable(mem, root.value);
    ghost var start := World(mem.bytes, mem.free, {}, ProcessSteps.TreeOf(kernel), map[]);
    KernelWorld(start, kernel);
    var made;
    made, w := ProcessSteps.NewUserSpace(kernel, start, 0);
    space := made;
    Stepped(start, w, Create(0));
    MadeOnly(start, w, 0);
  }

  lemma EightFrames()
    ensures |FrameLists.Managed(0, 8)| == 8
  {
    assert FrameLists.Managed(0, 8) == {0, 1, 2, 3, 4, 5, 6, 7};
  }

  lemma Stepped(w: World, w': World, st: Step)
    requires WorldOk(w) && Next(w, w', st) && Clean(st)
    ensures WorldOk(w')
  {
    hide *;
    StepKeeps(w, w', st);
  }

  lemma MadeOnly(w: World, w': World, id: nat)
    requires Next(w, w', Create(id)) && w.procs == map[]
    ensures w'.procs.Keys == {id} && w'.taken == w.taken
  {
    hide BuiltFrom, ProcOk;
  }

  /** The process gets page 1. */
  method OnePage() returns (space: AddressSpace, ghost w: World)
    ensures fresh(space) && fresh(space.table) && fresh(space.table.mem)
    ensures space.table.mem.Valid() && ProcessSteps.ShowsSpace(w, 0, space) && WorldOk(w) && w.procs.Keys == {0}
    ensures w.taken == {} && |w.free| == 3 && space.table.mem.origin.ledger.base == 0
    ensures |space.regions| == 1 && space.regions[0].first == 1 && space.regions[0].last == 2
  {
    hide TableOk, Decoded, Booked, WorldOk, Next, Served, Holds, Agrees, Room, FramesNeeded, Usable;
    ghost var start;
    space, start := FirstProcess();
    ProcessSteps.ShownValid(start, 0, space);
    ghost var s := Snap(start, start.procs[0].tree);
    RoomForOne(s);
    NeedForOne();
    var r; ghost var st;
    r, w, st := ProcessSteps.Push(space, 1, 2, USER_RW, start, 0);
    Stepped(start, w, st);
    GrownBy(start, w, st);
  }

  lemma GrownBy(w: World, w': World, st: Step)
    requires Next(w, w', st) && st.Grow?
    ensures st.id in w.procs && st.id in w'.procs && w'.procs.Keys == w.procs.Keys && w'.taken == w.taken
    ensures w'.procs[st.id].regions == w.procs[st.id].regions + [st.added]
    ensures |w'.free| == |w.free| - FramesNeeded(w.procs[st.id].tree.node.Keys, st.added.first, st.added.last)
  {
    hide Added, Usable, FramesNeeded, Decoded, Holds, Local, Grew, Agrees, UserPages;
    AddedParts(Snap(w, w.procs[st.id].tree), Snap(w', w'.procs[st.id].tree), w.procs[st.id].regions, st.added);
  }

  /** The kernel takes the other three frames. */
  method NoneLeft() returns (space: AddressSpace, x: nat, y: nat, z: nat, ghost w: World)
    ensures fresh(space) && fresh(space.table) && fresh(space.table.mem)
    ensures space.table.mem.Valid() && ProcessSteps.ShowsSpace(w, 0, space) && WorldOk(w) && w.procs.Keys == {0}
    ensures |space.regions| == 1 && space.regions[0].first == 1 && space.regions[0].last == 2
    ensures w.free == {} && {x, y, z} <= w.taken && x != y && x != z && y != z
    ensures space.table.mem.origin.ledger.base == 0
  {
    hide TableOk, Decoded, Booked, WorldOk, Next, Served, Holds;
    space, w := OnePage();
    var mem := space.table.mem;
    x, w := TakeOne(mem, w);
    y, w := TakeOne(mem, w);
    z, w := TakeOne(mem, w);
  }

  /** And returns two of them that are no buddies. */
  method TwoLeft() returns (space: AddressSpace, p: nat, q: nat, ghost w: World)
    ensures fresh(space) && fresh(space.table) && fresh(space.table.mem)
    ensures space.table.mem.Valid() && ProcessSteps.ShowsSpace(w, 0, space) && WorldOk(w)
    ensures |space.regions| == 1 && space.regions[0].first == 1 && space.regions[0].last == 2
    ensures w.free == {p, q} && p != q && Buddy(p, 0) != q && space.table.mem.origin.ledger.base == 0
  {
    hide TableOk, Decoded, Booked, WorldOk, Next, Served, Holds, Buddy;
    var y, z;
    space, p, y, z, w := NoneLeft();
    q := if Buddy(p, 0) == y then z else y;
    ghost var none := w.free;
    w := ReturnOne(space.table.mem, p, w);
    w := ReturnOne(space.table.mem, q, w);
    assert w.free == none + {p} + {q} == {p, q};
  }

  method TakeOne(mem: PhysMem, ghost w: World) returns (f: nat, ghost w': World)
    requires mem.Valid() && ProcessSteps.ShowsMemory(w, mem) && WorldOk(w) && 1 !in w.procs && |w.free| > 0
    modifies mem
    ensures mem.Valid() && ProcessSteps.ShowsMemory(w', mem) && WorldOk(w') && w'.procs == w.procs
    ensures f in w.free && w'.free == w.free - {f} && |w'.free| == |w.free| - 1 && w'.taken == w.taken + {f}
  {
    hide Decoded, Booked, WorldOk, Next, Served;
    TakenApart(w);
    var r;
    r, w' := ProcessSteps.TakeFrame(mem, w, 1);
    Stepped(w, w', Serve(1));
    f := r.value;
  }

  method ReturnOne(mem: PhysMem, f: nat, ghost w: World) returns (ghost w': World)
    requires mem.Valid() && ProcessSteps.ShowsMemory(w, mem) && WorldOk(w) && 1 !in w.procs && f in w.taken
    modifies mem
    ensures mem.Valid() && ProcessSteps.ShowsMemory(w', mem) && WorldOk(w') && w'.procs == w.procs
    ensures w'.free == w.free + {f} && w'.taken == w.taken - {f}
  {
    hide Decoded, Booked, WorldOk, Next, Served;
    TakenApart(w);
    TakenInMemory(w);
    w' := ProcessSteps.ReturnFrame(mem, f, w, 1);
    Stepped(w, w', Serve(1));
  }

  lemma TakenInMemory(w: World)
    requires WorldOk(w)
    ensures w.taken <= w.bytes.Keys
  {
    hide KernelOk, ProcOk;
  }

  /** Two free frames that are no buddies are two blocks on the same list. */
  lemma TwoSingles(a: FrameLists.Ledger, p: nat, q: nat)
    requires FrameLists.ListsOk(a.n, a.lists) && FrameLists.FreeFrames(a) == {p, q} && a.base == 0
    requires p != q && Buddy(p, 0) != q
    ensures |a.lists| > 0 && |a.lists[0]| >= 2 && FrameLists.Starts(a, p) && FrameLists.Starts(a, q)
    ensures forall b | Listed(a.lists, b) :: b.order == 0
  {
    hide FrameLists.ListsOk, FrameLists.FreeFrames, FrameLists.Starts, Buddy;
    forall b | Listed(a.lists, b) ensures b.order == 0 && b.start in {p, q} { OnlySingles(a, p, q, b); }
    ListedAlone(a, p, q, p);
    ListedAlone(a, p, q, q);
    TwoElements(a.lists[0], p, q);
  }

  lemma OnlySingles(a: FrameLists.Ledger, p: nat, q: nat, b: Block)
    requires FrameLists.ListsOk(a.n, a.lists) && FrameLists.FreeFrames(a) == {p, q} && a.base == 0
    requires p != q && Buddy(p, 0) != q && Listed(a.lists, b)
    ensures b.order == 0 && b.start in {p, q}
  {
    hide FrameLists.ListsOk;
    InFree(a, b, b.start);
    if b.order > 0 { InFree(a, b, b.start + 1); }
  }

  lemma InFree(a: FrameLists.Ledger, b: Block, x: nat)
    requires FrameLists.ListsOk(a.n, a.lists) && Listed(a.lists, b) && a.base == 0
    requires x == b.start || (x == b.start + 1 && b.order > 0)
    ensures x in FrameLists.FreeFrames(a) && Placed(a.n, b)
  {
    assert b in FreeBlocks(a.lists) && Covers(b, x);
    assert FrameLists.OnList(a, x);
  }

  lemma ListedAlone(a: FrameLists.Ledger, p: nat, q: nat, x: nat)
    requires FrameLists.FreeFrames(a) == {p, q} && a.base == 0 && x in {p, q}
    requires forall b | Listed(a.lists, b) :: b.order == 0 && b.start in {p, q}
    ensures |a.lists| > 0 && x in a.lists[0] && FrameLists.Starts(a, x)
  {
    assert FrameLists.OnList(a, x);
    var b :| b in FreeBlocks(a.lists) && Covers(b, x - a.base);
    assert Listed(a.lists, b);
  }

  lemma TwoElements(list: seq<nat>, p: nat, q: nat)
    requires p in list && q in list && p != q
    ensures |list| >= 2
  {
  }

  /** What is left by a push of pages 0 and 1 into a space that has page 1. */
  lemma LeftOne(w: World, w': World, st: Step, p: nat, q: nat)
    requires Next(w, w', st) && st.FailGrow? && st.last == 2 && st.left.first == 0 && WorldOk(w) && st.id in w.procs
    requires w.free == {p, q} && p != q
    requires var rs := w.procs[st.id].regions; |rs| == 1 && rs[0].first == 1 && rs[0].last == 2
    ensures !Clean(st) && st.left.last == 1 && w'.free == {p, q}
    ensures 0 in st.left.frames && st.left.frames[0] in {p, q}
  {
    hide *;
    ProcParts(w, st.id);
    var s, rs := Snap(w, w.procs[st.id].tree), w.procs[st.id].regions;
    PageOneMapped(s, rs);
    LeftHere(w, w', st, s, p, q);
  }

  lemma ProcParts(w: World, id: nat)
    requires WorldOk(w) && id in w.procs
    ensures var s := Snap(w, w.procs[id].tree); Holds(s, w.procs[id].regions) && Agrees(s, w.procs[id].regions)
    ensures Tab(w) == Decoded(w.bytes)
  {
    hide KernelOk, Holds, Agrees, Decoded, SharesKernel;
    assert ProcOk(w, w.procs[id]);
  }

  lemma LeftHere(w: World, w': World, st: Step, s: Snapshot, p: nat, q: nat)
    requires Next(w, w', st) && st.FailGrow? && st.last == 2 && st.left.first == 0 && st.id in w.procs
    requires w.free == {p, q} && p != q && s == Snap(w, w.procs[st.id].tree)
    requires Translate(s.tables, s.root, 0).None? && Translate(s.tables, s.root, 1).Some?
    requires Missing(s.node.Keys, 0, 2) == 0
    ensures !Clean(st) && st.left.last == 1 && w'.free == {p, q}
    ensures 0 in st.left.frames && st.left.frames[0] in {p, q}
  {
    hide Usable, Failed, Left, Translate, Decoded, FramesNeeded, Missing;
    var s', left := Snap(w', w'.procs[st.id].tree), st.left;
    var taken :| Left(s, s', left, 0, 2, left.perm, taken);
    TwoNeeded(s.node.Keys);
    assert |w.free| == 2;
    LeftGuard(s, s', left, 0, 2, left.perm, taken);
    LeftCount(s, s', left, taken, p, q);
    FailedParts(s, s', w.procs[st.id].regions, left);
    GrewFree(s, s', p, q);
    assert left.frames[0] in left.frames.Values;
  }

  lemma TwoNeeded(keys: set<Path>)
    requires Missing(keys, 0, 2) == 0
    ensures FramesNeeded(keys, 0, 1) == 1 && FramesNeeded(keys, 0, 2) == 2
  {
    hide Missing, Way;
    assert KeysAfter(keys, 0, 0) == keys;
    NotMissing(keys);
  }

  lemma NotMissing(keys: set<Path>)
    requires Missing(keys, 0, 2) == 0
    ensures Missing(keys + Way(0, 2), 1, 2) == 0
  {
    assert PathTo(0, 2) == PathTo(1, 2) && PathTo(0, 2) in Way(0, 2);
  }

  lemma LeftCount(a: Snapshot, b: Snapshot, left: Region, taken: bool, p: nat, q: nat)
    requires Left(a, b, left, 0, 2, left.perm, taken) && left.frames != map[] && 0 in left.frames
    requires |a.free| == 2 && FramesNeeded(a.node.Keys, 0, 2) == 2
    ensures left.last == 1 && |b.free| == 2 && left.frames.Values <= b.free
  {
    hide Translate, UserPages, FramesNeeded, Vacant;
  }

  lemma GrewFree(a: Snapshot, b: Snapshot, p: nat, q: nat)
    requires Grew(a, b, {}) && a.free == {p, q} && p != q && |b.free| == 2
    ensures b.free == {p, q}
  {
    assert b.free <= a.free && |a.free - b.free| == |a.free| - |b.free|;
    assert a.free - b.free == {};
  }

  /** A push of pages 0 and 1 fails at page 1. After that one copy into page 0 makes the allocator lose a frame: two are
      free, but once one is taken its list is empty. */
  method LostBlockExample() returns (space: AddressSpace, ghost w: World, ghost w': World, ghost st: Step)
    ensures space.table.mem.Valid() && ProcessSteps.ShowsSpace(w, 0, space) && Ordered(w, space.table.mem.ledger)
    ensures |w.free| == 2 && |space.table.mem.ledger.lists| > 0 && LosesBy(w, w', st, space.table.mem.ledger, 0)
  {
    hide TableOk, Decoded, Booked, WorldOk, Next, Served, Holds, Ordered, Agrees, Room, Usable, LosesBy, Buddy,
         Translate, Missing, FrameLists.Starts, FirstOn, Clean;
    var p, q; ghost var before;
    space, p, q, before := TwoLeft();
    var mem := space.table.mem;
    ProcessSteps.ShownValid(before, 0, space);
    ProcessSteps.ShownInOrder(before, mem);
    PageOneMapped(Snap(before, before.procs[0].tree), space.regions);
    NoRoom(Snap(before, before.procs[0].tree));
    ghost var a, pushed := mem.ledger, FailGrow(0, 2, Region(0, 0, USER_RW, map[]));
    var r;
    r, w, pushed := ProcessSteps.Push(space, 0, 2, USER_RW, before, 0);
    LeftOne(before, w, pushed, p, q);
    FailureLoses(before, w, pushed, a, mem.ledger);
    w', st := Loses(w, pushed, mem, p, q);
  }

  lemma Loses(w: World, pushed: Step, mem: PhysMem, p: nat, q: nat) returns (w': World, st: Step)
    requires mem.Valid() && mem.origin.ledger.base == 0 && Ordered(w, mem.ledger) && w.free == {p, q}
    requires p != q && Buddy(p, 0) != q
    requires pushed.FailGrow? && 0 in pushed.left.frames && pushed.left.frames[0] in {p, q}
    requires var a, x := mem.ledger, pushed.left.frames[0];
             a.base <= x && (FrameLists.Starts(a, x - a.base) ==> exists k: nat ::
               k < |a.lists| && FirstOn(a, k, x - a.base) && (|a.lists[k]| >= 2 ==>
                 exists w2: World, st2: Step :: LosesBy(w, w2, st2, a, k) && st2.id == pushed.id))
    ensures |mem.ledger.lists| > 0 && LosesBy(w, w', st, mem.ledger, 0)
  {
    hide LosesBy, Ordered, FrameLists.Starts, FrameLists.ListsOk, FrameLists.FreeFrames, FrameLists.Threaded, Buddy,
         Decoded, Booked, FirstOn;
    var a, x := mem.ledger, pushed.left.frames[0];
    OrderedParts(w, a);
    AtBase(mem);
    TwoSingles(a, p, q);
    var k: nat :| k < |a.lists| && FirstOn(a, k, x - a.base) && (|a.lists[k]| >= 2 ==>
      exists w2: World, st2: Step :: LosesBy(w, w2, st2, a, k) && st2.id == pushed.id);
    FirstParts(a, k, x - a.base);
    assert Listed(a.lists, Block(x - a.base, k));
    w', st :| LosesBy(w, w', st, a, k) && st.id == pushed.id;
  }

  lemma AtBase(mem: PhysMem)
    requires mem.Valid()
    ensures mem.ledger.base == mem.origin.ledger.base
  {
    hide Decoded, FrameLists.Play, FrameLists.InOrder;
  }
}
