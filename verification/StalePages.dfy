/** What a failed push can cost: a page it left behind maps a frame that is free, and whoever gets that frame next
    shares it with the process that has the page. */
module StalePages {
  import opened Prelude
  import opened Sv39
  import opened Memory
  import FrameLists
  import opened PhysMemory
  import opened PageTables
  import opened Framed
  import opened UserMemory
  import opened Spaces
  import opened UserView
  import opened Isolation
  import opened Fork

  /** A space that agreed with its table stays sealed when a push fails: what is left behind maps free frames. */
  lemma FailedSealed(a: Snapshot, b: Snapshot, rs: seq<Region>, left: Region, first: nat, last: nat, perm: Flags,
                     taken: bool)
    requires Holds(a, rs) && Agrees(a, rs) && Failed(a, b, rs, left) && Left(a, b, left, first, last, perm, taken)
    ensures SealedOff(b)
  {
    hide *;
    FailedParts(a, b, rs, left);
    HoldsParts(b, rs);
    FreeApart(b);
    AgreesUnfold(a, rs);
    LeftFrames(a, b, rs, left, first, last, perm, taken);
    OffTables(b, rs);
  }

  lemma LeftFrames(a: Snapshot, b: Snapshot, rs: seq<Region>, left: Region, first: nat, last: nat, perm: Flags,
                   taken: bool)
    requires UserPages(a.tables, a.root) == AllPages(rs) && Left(a, b, left, first, last, perm, taken)
    ensures FramesOf(UserPages(b.tables, b.root)) <= DataFrames(rs) + b.free
  {
    hide UserPages, AllPages, Vacant, FramesNeeded, Translate;
    var pages := UserPages(b.tables, b.root);
    forall f | f in FramesOf(pages) ensures f in DataFrames(rs) + b.free {
      var v :| v in pages && pages[v].ppn == f;
      if v in left.frames { assert left.frames[v] in left.frames.Values; } else { assert AllPages(rs)[v].ppn == f; }
    }
  }

  lemma OffTables(s: Snapshot, rs: seq<Region>)
    requires Apart(s, DataFrames(rs)) && s.free !! s.node.Values && s.free !! s.shared
    requires FramesOf(UserPages(s.tables, s.root)) <= DataFrames(rs) + s.free
    ensures SealedOff(s)
  {
    hide UserPages, DataFrames, FramesOf, WritableFrames;
    WritableAreFrames(UserPages(s.tables, s.root));
  }

  /** A push of pages 0 and 1 into a space that has page 1, with one frame left: page 0 stays, and its frame is the only
      one that is free. */
  method PushOver(space: AddressSpace) returns (r: MapResult, ghost f: nat)
    requires space.Valid() && space.Exact() && |space.regions| == 1 && space.regions[0].first == 1
    requires space.regions[0].last == 2
    requires |space.table.mem.free| == 1
    modifies space`regions, space.table`frames, space.table`node, space.table.mem
    ensures space.Valid() && space.Sealed() && !space.Exact() && r == OutOfMemory && space.regions == old(space.regions)
    ensures Local(old(space.table.Now()), space.regions, space.table.Now(), space.regions)
    ensures space.table.mem.free == {f} && 0 in space.Pages() && space.Pages()[0] == Pte(f, Present(USER_RW))
  {
    hide Holds, TableOk, Agrees, Local, Grew, Translate, Missing, UserPages, RegionPages, AllZero, BytesWithin, Extends,
         Added, Failed, Room, Left, FramesNeeded, KeysAfter, Vacant, SealedOff, Decoded, Booked, LastReturned;
    ghost var a, rs := space.table.Now(), space.regions;
    PageOneMapped(a, rs);
    ghost var left;
    r, left := space.Push(0, 2, USER_RW);
    NoRoom(a);
    f := OneLeft(a, space.table.Now(), rs, left, r == AlreadyMapped);
    FailedSealed(a, space.table.Now(), rs, left, 0, 2, USER_RW, r == AlreadyMapped);
    FailedParts(a, space.table.Now(), rs, left);
  }

  lemma NoRoom(a: Snapshot)
    requires Translate(a.tables, a.root, 1).Some?
    ensures !Room(a, 0, 2)
  {
    hide Translate;
  }

  lemma OneLeft(a: Snapshot, b: Snapshot, rs: seq<Region>, left: Region, taken: bool) returns (f: nat)
    requires Translate(a.tables, a.root, 0).None? && Translate(a.tables, a.root, 1).Some?
    requires Missing(a.node.Keys, 0, 2) == 0
    requires |a.free| == 1 && Failed(a, b, rs, left) && Left(a, b, left, 0, 2, USER_RW, taken)
    ensures !taken && left.frames != map[] && b.free == {f}
    ensures var pages := UserPages(b.tables, b.root); 0 in pages && pages[0] == Pte(f, Present(USER_RW))
  {
    hide Translate, UserPages, Holds, Local, Agrees, GrewMem, FramesNeeded, Vacant;
    assert FramesNeeded(a.node.Keys, 0, 1) == 1 <= FramesNeeded(a.node.Keys, 0, 2) - 1 by { FirstTwo(a.node.Keys); }
    LeftGuard(a, b, left, 0, 2, USER_RW, taken);
    EmptyRange(left.frames, 0, left.last);
    f := left.frames[0];
    assert f in left.frames.Values && b.free <= a.free;
    OneElement(a.free, f);
  }

  lemma FirstTwo(keys: set<Path>)
    ensures FramesNeeded(keys, 0, 1) == 1 + Missing(keys, 0, 2)
    ensures FramesNeeded(keys, 0, 2) >= 1 + FramesNeeded(keys, 0, 1)
  {
    hide Missing;
    assert KeysAfter(keys, 0, 0) == keys;
  }

  lemma OneElement(s: set<nat>, f: nat)
    requires |s| == 1 && f in s
    ensures s == {f}
  {
    assert |s - {f}| == 0;
  }

  lemma PageOneMapped(s: Snapshot, rs: seq<Region>)
    requires Holds(s, rs) && Agrees(s, rs) && |rs| == 1 && rs[0].first == 1 && rs[0].last == 2
    ensures Translate(s.tables, s.root, 0).None? && Translate(s.tables, s.root, 1).Some?
    ensures Missing(s.node.Keys, 0, 2) == 0
  {
    RegionsDecide(s, rs, 0);
    RegionsDecide(s, rs, 1);
    HoldsParts(s, rs);
    hide Holds, Agrees, SnapOk;
    MappedHasTable(s, 1);
    assert PathTo(0, 2) == PathTo(1, 2);
  }

  lemma MappedHasTable(s: Snapshot, v: nat)
    requires SnapOk(s) && s.lim >= UPPER_HALF && UserPage(v) && Translate(s.tables, s.root, v).Some?
    ensures PathTo(v, 2) in s.node
  {
    UserIndices(v);
    hide SnapOk;
    SlotOnWay(s, v, 2);
    SlotByEntries(s.tables, s.root, v);
  }

  /** The kernel's own table while a space that shares its upper half is worked on. */
  lemma KernelBeside(k: Snapshot, k': Snapshot, a: Snapshot, ra: seq<Region>, b: Snapshot, rb: seq<Region>)
    requires SnapOk(k) && k.shared == {} && Holds(a, ra) && Local(a, ra, b, rb) && a.shared == k.node.Values
    requires k.tables == a.tables && k' == k.(tables := b.tables, bytes := b.bytes, free := b.free)
    ensures SnapOk(k')
  {
    HoldsParts(a, ra);
    FreeApart(a);
    SharedApart(a);
    hide Holds, SnapOk, DataFrames, RegionsOk, NoSupers;
    assert Untouched(k, k');
    OtherTable(k, k');
  }

  lemma SharedApart(a: Snapshot)
    requires SnapOk(a)
    ensures a.node.Values !! a.shared
  {
  }

  /** A kernel table and an empty space, with four frames left. */
  method FourLeft() returns (kernel: PageTable, a: AddressSpace)
    ensures fresh(kernel) && fresh(kernel.mem) && fresh(a) && fresh(a.table) && a.table.mem == kernel.mem
    ensures a.table != kernel
    ensures kernel.Valid() && kernel.lim == PTE_PER_TABLE && kernel.shared == {} && a.table.shared == kernel.Owned()
    ensures a.Valid() && a.Exact() && a.regions == [] && a.table.node.Keys == {Root} && |kernel.mem.free| == 4
  {
    hide TableOk, Holds, Agrees, SameViews, Translate, HwWalk, Index, SharesKernel, Decoded, Booked, TablesWithin,
         BytesWithin;
    var mem := new PhysMem(0, 6);
    SixFrames();
    var root; ghost var shuffled;
    root, shuffled := mem.Alloc();
    assert |mem.free| == 5;
    kernel := new PageTable(mem, root.value);
    a := NewUserSpace(kernel);
  }

  lemma SixFrames()
    ensures |FrameLists.Managed(0, 6)| == 6
  {
    assert FrameLists.Managed(0, 6) == {0, 1, 2, 3, 4, 5};
  }

  /** A space with page 1 mapped and one frame left. */
  method OneShort() returns (kernel: PageTable, a: AddressSpace)
    ensures fresh(kernel) && fresh(kernel.mem) && fresh(a) && fresh(a.table) && a.table.mem == kernel.mem
    ensures a.table != kernel
    ensures kernel.Valid() && kernel.lim == PTE_PER_TABLE && kernel.shared == {} && a.table.shared == kernel.Owned()
    ensures a.Valid() && a.Exact() && |a.regions| == 1 && a.regions[0].first == 1 && a.regions[0].last == 2
    ensures |kernel.mem.free| == 1
  {
    hide TableOk, Holds, Agrees, Local, Grew, Extends, Added, Failed, Left, Room, AllZero, Decoded, Booked,
         FramesNeeded, KeysAfter, UserPages, LastReturned;
    kernel, a := FourLeft();
    ghost var k, s := kernel.Now(), a.table.Now();
    RoomForOne(s);
    NeedForOne();
    var one; ghost var added;
    one, added := a.Push(1, 2, USER_RW);
    AddedParts(s, a.table.Now(), [], added);
    KernelBeside(k, kernel.Now(), s, [], a.table.Now(), a.regions);
  }

  lemma NeedForOne()
    ensures FramesNeeded({Root}, 1, 2) == 3
  {
    assert KeysAfter({Root}, 1, 1) == {Root} && FramesNeeded({Root}, 1, 1) == 0;
    assert Missing({Root}, 1, 1) == 1;
  }

  lemma RoomForOne(s: Snapshot)
    requires Agrees(s, []) && s.node.Keys == {Root} && |s.free| >= 3
    ensures Room(s, 1, 2)
  {
    hide Translate, UserPages;
    NeedForOne();
    InPages(s, 1);
  }

  /** After the failed push the frame of the page left behind becomes the root of the next space. */
  method Reused() returns (a: AddressSpace, b: AddressSpace)
    ensures fresh(a) && fresh(a.table) && fresh(a.table.mem) && fresh(b) && a.table.mem == b.table.mem
    ensures a.table.root != b.table.root
    ensures a.Valid() && a.Sealed() && b.Valid() && b.Exact() && b.regions == [] && b.table.root < PPN_LIMIT
    ensures 0 in a.Pages() && a.Pages()[0] == Pte(b.table.root, Present(USER_RW)) && a.table.mem.free == {}
  {
    hide TableOk, Holds, Agrees, Local, SameViews, Translate, HwWalk, Index, SharesKernel, Decoded, Booked, SealedOff,
         TablesWithin, BytesWithin, UserPages, NoSupers;
    var kernel, r; ghost var f;
    kernel, a := OneShort();
    ghost var k, s, rs := kernel.Now(), a.table.Now(), a.regions;
    r, f := PushOver(a);
    ghost var t, k1 := a.table.Now(), kernel.Now();
    KernelBeside(k, k1, s, rs, t, rs);
    b := NewUserSpace(kernel);
    FrameGiven(t, a.table.Now(), f);
    BystandersKept(t, rs, k1, a.table.Now(), kernel.Now());
    SameSeal(t, a.table.Now());
  }

  lemma FrameGiven(a: Snapshot, b: Snapshot, f: nat)
    requires f in a.free && b == a.(tables := b.tables, bytes := b.bytes, free := a.free - {f}) && SnapOk(a)
    requires TablesWithin(a.tables, b.tables, a.free) && BytesWithin(a.bytes, b.bytes, a.free)
    ensures OnlyFree(a, b) && a.root != f
  {
    FreeIsNotOwned(a, f);
    RootIsOwned(a);
  }

  lemma SameSeal(a: Snapshot, b: Snapshot)
    requires SealedOff(a) && UserPages(b.tables, b.root) == UserPages(a.tables, a.root) && b.node == a.node
    requires b.shared == a.shared
    ensures SealedOff(b)
  {
    hide UserPages;
  }

  /** Two spaces in one memory. A push into `a` has failed and `b` was made after that; then a copy into `a`, which does
      all it promises, changes what `b` reads. */
  method SharedFrameExample()
    returns (a: AddressSpace, b: AddressSpace, ghost was: Bytes, ghost addr: nat, ghost src: seq<Byte>, ghost x: nat)
    ensures a.Valid() && a.table.mem == b.table.mem && a.table.root != b.table.root
    ensures CopyThrough(was, a.table.root, addr, src) == (a.table.mem.bytes, true)
    ensures UserReads(Decoded(was), was, b.table.root, x) == None
    ensures UserReads(b.table.mem.tables, b.table.mem.bytes, b.table.root, x).Some?
  {
    hide TableOk, Holds, Agrees, Local, Decoded, Booked, SealedOff, UserPages, CopyTo, CopyThrough, UserReads,
         TakeoverPage, Target;
    a, b := Reused();
    was, addr, x := a.table.mem.bytes, 0, Target();
    var page := TakeoverPage(b.table.root, Pte(b.table.root, OPEN), 0, 1, 0);
    src := page;
    NothingRead(b.table.Now(), x);
    HoldsParts(b.table.Now(), []);
    RootFacts(b.table.Now());
    OverRoot(was, a.table.root, b.table.root);
    var ok := a.CopyToUser(0, page);
  }

  /** A takeover page copied through page 0 onto the root of another space. */
  lemma OverRoot(bytes: Bytes, root: nat, other: nat)
    requires other in bytes && other < PPN_LIMIT
    requires var pages := UserPages(Decoded(bytes), root); 0 in pages && pages[0] == Pte(other, Present(USER_RW))
    ensures var page := TakeoverPage(other, Pte(other, OPEN), 0, 1, 0);
            && CopyThrough(bytes, root, 0, page) == (bytes[other := page], true)
            && UserReads(Decoded(bytes[other := page]), bytes[other := page], other, Target()).Some?
  {
    hide Decoded, Booked, UserPages, CopyThrough, UserReads, TakeoverPage, Target;
    CopyPage(bytes, root, 0, TakeoverPage(other, Pte(other, OPEN), 0, 1, 0));
    RootTaken(bytes, other, 0);
  }

  lemma NothingRead(s: Snapshot, x: nat)
    requires Holds(s, []) && Agrees(s, []) && x < USER_MAX_ADDR
    ensures UserReads(s.tables, s.bytes, s.root, x) == None
  {
    hide *;
    HoldsParts(s, []);
    AgreesUnfold(s, []);
    UserAccess(s, s.bytes, x);
    NoRegions();
  }

  lemma NoRegions()
    ensures AllPages([]) == map[]
  {
  }
}
