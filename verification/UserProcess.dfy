/** A process image from end to end: the loaded file, the stack with the arguments, and the program break. */
module UserProcess {
  import opened Prelude
  import opened LittleEndian
  import opened Sv39
  import opened Memory
  import opened PhysMemory
  import opened PageTables
  import opened Framed
  import opened UserMemory
  import opened Spaces
  import opened UserView
  import opened Fork
  import opened Loader
  import opened ExecArgs

  const STACK_LAST: nat := 0x3ff_ffff
  const STACK_FIRST: nat := 0x3ff_ffbf
  const USER_HEAP_BASE: nat := 0x1000_0000

  lemma StackPages()
    ensures STACK_FIRST * PAGE_SIZE == USER_STACK_TOP - USER_STACK_SIZE && STACK_LAST * PAGE_SIZE == USER_STACK_TOP
    ensures STACK_LAST <= USER_PAGES && USER_STACK_TOP < USER_MAX_ADDR
  {
  }

  /** A region that a process may write can be written by copies all over. */
  lemma RegionWritable(s: Snapshot, rs: seq<Region>, i: nat)
    requires Holds(s, rs) && i < |rs| && rs[i].perm.write && rs[i].perm.user
    ensures CanWrite(s.bytes, UserPages(s.tables, s.root), rs[i].first * PAGE_SIZE, rs[i].last * PAGE_SIZE)
  {
    forall x: nat | rs[i].first * PAGE_SIZE <= x < rs[i].last * PAGE_SIZE
      ensures Writable(s.bytes, UserPages(s.tables, s.root), x)
    {
      RegionWritableAt(s, rs, i, x);
    }
  }

  lemma RegionWritableAt(s: Snapshot, rs: seq<Region>, i: nat, x: nat)
    requires Holds(s, rs) && i < |rs| && rs[i].perm.write && rs[i].perm.user
    requires rs[i].first * PAGE_SIZE <= x < rs[i].last * PAGE_SIZE
    ensures Writable(s.bytes, UserPages(s.tables, s.root), x)
  {
    hide NoSupers, TableOk, Translate, OneToOne, AllPages, DataFrames;
    RegionFrames(s, rs, i);
    PageBetween(rs[i].first, rs[i].last, x);
    BelowMax(rs[i].last, x);
    var v := PageOf(x);
    assert v in rs[i].frames.Keys;
    PagesFromRegions(rs, v);
    assert v in AllPages(rs) && AllPages(rs)[v] == Pte(rs[i].frames[v], Present(rs[i].perm));
  }

  lemma BelowMax(last: nat, x: nat)
    requires x < last * PAGE_SIZE && last <= USER_PAGES
    ensures x < USER_MAX_ADDR
  {
  }

  /** The stack as something to be loaded: pages that read as zeroes. */
  function Stack(): (s: Segment)
    ensures SegmentOk(s) && FirstPage(s) == STACK_FIRST && LastPage(s) == STACK_LAST
  {
    Segment(USER_STACK_TOP - USER_STACK_SIZE, USER_STACK_SIZE, [], USER_RW)
  }

  /** Map the user stack; the initial stack pointer. It works exactly if there is room for the stack. */
  method MapUserStack(space: AddressSpace) returns (r: Option<nat>, ghost stack: Region)
    requires space.Valid()
    modifies space`regions, space.table`frames, space.table`node, space.table.mem
    ensures old(space.table.mem.log) <= space.table.mem.log
    ensures space.Valid() && (r.Some? <==> Room(old(space.table.Now()), STACK_FIRST, STACK_LAST))
    ensures r.Some? ==>
              && r.value == 0x3f_ffff_f000 && space.regions == old(space.regions) + [stack]
              && stack.first == STACK_FIRST && stack.last == STACK_LAST && stack.perm == USER_RW
              && Added(old(space.table.Now()), space.table.Now(), old(space.regions), stack)
              && Filled(space.table.mem.bytes, space.Pages(), STACK_FIRST, STACK_LAST, Stack().vaddr, [])
              && CanWrite(space.table.mem.bytes, space.Pages(), USER_STACK_TOP - USER_STACK_SIZE, USER_STACK_TOP)
    ensures r.None? ==>
              space.regions == old(space.regions)
              && Spaces.Failed(old(space.table.Now()), space.table.Now(), space.regions, stack)
  {
    hide Holds, TableOk, UserPages, CanWrite, AllZero, Decoded, Booked, Added, Spaces.Failed, Left, Room, Extends,
         Filled;
    StackPages();
    var pushed;
    pushed, stack := space.Push(STACK_FIRST, STACK_LAST, USER_RW);
    if pushed != MapResult.Mapped {
      return None, stack;
    }
    RegionWritable(space.table.Now(), space.regions, |space.regions| - 1);
    FreshZero(space.table.Now(), space.regions);
    NothingFilled(space.table.mem.bytes, space.Pages(), STACK_FIRST, STACK_LAST, 0, Stack().vaddr);
    return Some(USER_STACK_TOP), stack;
  }

  lemma NothingFilled(bytes: Bytes, pages: PageMap, first: nat, last: nat, at: nat, at': nat)
    requires Filled(bytes, pages, first, last, at, [])
    ensures Filled(bytes, pages, first, last, at', [])
  {
    hide Load;
  }

  // ---- exec -------------------------------------------------------------------------------------------

  datatype Launch = Started(space: AddressSpace, entry: nat, sp: nat, argc: nat, argv: nat, brk: nat)
      | BadImage(error: LoadError) | NoMemory

  /** The first regions hold the segments of the image. */
  ghost predicate InPlace(s: Snapshot, rs: seq<Region>, segments: seq<Segment>) {
    && |segments| <= |rs|
    && forall i | 0 <= i < |segments| :: Holding(s.bytes, UserPages(s.tables, s.root), rs[i], segments[i])
  }

  lemma InPlaceAt(s: Snapshot, rs: seq<Region>, segments: seq<Segment>, i: nat)
    requires InPlace(s, rs, segments) && i < |segments|
    ensures i < |rs| && Holding(s.bytes, UserPages(s.tables, s.root), rs[i], segments[i])
  {
    hide Holding;
  }

  lemma InPlaceIntro(s: Snapshot, rs: seq<Region>, segments: seq<Segment>)
    requires |segments| <= |rs|
    requires forall i | 0 <= i < |segments| :: Holding(s.bytes, UserPages(s.tables, s.root), rs[i], segments[i])
    ensures InPlace(s, rs, segments)
  {
  }

  /** Adding a region keeps what is in place. */
  lemma StackBeside(a: Snapshot, b: Snapshot, rs: seq<Region>, r: Region, segments: seq<Segment>)
    requires Holds(a, rs) && Holds(b, rs + [r]) && AllHolding(a, rs, segments) && b.root == a.root
    requires BytesWithin(a.bytes, b.bytes, a.free + a.node.Values)
    requires UserPages(b.tables, b.root) == UserPages(a.tables, a.root) + RegionPages(r)
    ensures InPlace(b, rs + [r], segments)
  {
    hide *;
    HoldingLength(a, rs, segments);
    forall i | 0 <= i < |segments| ensures Holding(b.bytes, UserPages(b.tables, b.root), (rs + [r])[i], segments[i]) {
      HoldingAt(a, rs, segments, i);
      SameFilled(a, b, rs, r, i, segments[i]);
    }
    InPlaceIntro(b, rs + [r], segments);
  }

  /** Arguments that fit the stack are written beside the segments. */
  lemma ArgsBeside(b: Snapshot, c: Snapshot, rs: seq<Region>, segments: seq<Segment>, from: nat)
    requires Holds(b, rs) && InPlace(b, rs, segments) && UserPages(c.tables, c.root) == UserPages(b.tables, b.root)
    requires |rs| == |segments| + 1
    requires rs[|segments|].first == STACK_FIRST && rs[|segments|].last == STACK_LAST
    requires USER_STACK_TOP - USER_STACK_SIZE <= from
    requires SameOutside(b.bytes, c.bytes, UserPages(b.tables, b.root), from, USER_STACK_TOP)
    ensures InPlace(c, rs, segments)
  {
    hide *;
    InPlaceLength(b, rs, segments);
    forall i | 0 <= i < |segments| ensures Holding(c.bytes, UserPages(c.tables, c.root), rs[i], segments[i]) {
      InPlaceAt(b, rs, segments, i);
      SegmentBeside(b, c, rs, i, |segments|, segments[i], from);
    }
    InPlaceIntro(c, rs, segments);
  }

  lemma InPlaceLength(s: Snapshot, rs: seq<Region>, segments: seq<Segment>)
    requires InPlace(s, rs, segments)
    ensures |segments| <= |rs|
  {
  }

  lemma SegmentBeside(b: Snapshot, c: Snapshot, rs: seq<Region>, i: nat, top: nat, s: Segment, from: nat)
    requires Holds(b, rs) && i < top < |rs| && UserPages(c.tables, c.root) == UserPages(b.tables, b.root)
    requires Holding(b.bytes, UserPages(b.tables, b.root), rs[i], s)
    requires rs[top].first == STACK_FIRST && rs[top].last == STACK_LAST && USER_STACK_TOP - USER_STACK_SIZE <= from
    requires SameOutside(b.bytes, c.bytes, UserPages(b.tables, b.root), from, USER_STACK_TOP)
    ensures Holding(c.bytes, UserPages(c.tables, c.root), rs[i], s)
  {
    hide SnapOk, NoSupers, Translate, OneToOne, DataFrames, AllPages, Load, FirstPage, LastPage, UserPages, PageRange;
    StackPages();
    assert rs[i].frames.Keys !! rs[top].frames.Keys;
    var pages := UserPages(b.tables, b.root);
    forall x: nat | rs[i].first * PAGE_SIZE <= x < rs[i].last * PAGE_SIZE
      ensures Load(c.bytes, pages, x) == Load(b.bytes, pages, x)
    {
      NotOnStack(rs[i], rs[top], x);
    }
  }

  lemma NotOnStack(r: Region, stack: Region, x: nat)
    requires r.frames.Keys == PageRange(r.first, r.last) && stack.frames.Keys == PageRange(STACK_FIRST, STACK_LAST)
    requires r.frames.Keys !! stack.frames.Keys && r.first * PAGE_SIZE <= x < r.last * PAGE_SIZE
    ensures !(USER_STACK_TOP - USER_STACK_SIZE <= x < USER_STACK_TOP)
  {
    assert PageOf(x) in r.frames.Keys;
    assert PageOf(x) !in stack.frames.Keys;
  }

  /** Writing into its own frames, a space being built stays built from the same frames and keeps the kernel half. */
  lemma BuiltWritten(k: Snapshot, b: Snapshot, c: Snapshot, rs: seq<Region>)
    requires SnapOk(k) && k.tables == Decoded(k.bytes) && b.tables == Decoded(b.bytes) && c.tables == Decoded(c.bytes)
    requires Holds(b, rs) && Agrees(b, rs) && BuiltFrom(k, b, rs) && SharesKernel(b.tables, b.root, k.root)
    requires c == b.(tables := c.tables, bytes := c.bytes) && Inside(b.bytes, c.bytes, UserPages(b.tables, b.root))
    ensures BuiltFrom(k, c, rs) && SharesKernel(c.tables, c.root, k.root)
  {
    hide Decoded, Booked, UserPages, AllPages, Holds, SnapOk, Agrees, RegionsOk, NoSupers, OneToOne, Backed;
    AgreesSealed(b, rs);
    HoldsParts(b, rs);
    RootIsOwned(b);
    RootIsOwned(k);
    FreeApart(k);
    DecodedWithin(b.bytes, c.bytes, DataFrames(rs));
    assert b.root !in DataFrames(rs) && k.root !in DataFrames(rs);
    assert BytesWithin(k.bytes, c.bytes, k.free);
    DecodedWithin(k.bytes, c.bytes, k.free);
  }

  /** The stack region, and with it everything the kernel put there, reads for the process as the kernel wrote it. */
  lemma StackReads(s: Snapshot, rs: seq<Region>, i: nat, x: nat)
    requires Holds(s, rs) && i < |rs| && rs[i].first == STACK_FIRST && rs[i].last == STACK_LAST && rs[i].perm == USER_RW
    requires USER_STACK_TOP - USER_STACK_SIZE <= x < USER_STACK_TOP
    ensures UserReads(s.tables, s.bytes, s.root, x) == Load(s.bytes, UserPages(s.tables, s.root), x)
    ensures UserReads(s.tables, s.bytes, s.root, x).Some? && UserWrites(s.tables, s.bytes, s.root, x)
    ensures !UserRuns(s.tables, s.bytes, s.root, x)
  {
    StackPages();
    PageBetween(STACK_FIRST, STACK_LAST, x);
    hide Holds, UserReads, UserWrites, UserRuns, Load, UserPages, PageOf;
    RegionAccess(s, rs, s.bytes, i, x);
  }

  /** A loaded image with a stack on top, in a space built from the free frames of `k`. */
  ghost predicate Ready(s: Snapshot, rs: seq<Region>, k: Snapshot, segments: seq<Segment>) {
    && Holds(s, rs) && Agrees(s, rs) && BuiltFrom(k, s, rs) && SharesKernel(s.tables, s.root, k.root)
    && |rs| == |segments| + 1 && rs[|segments|].first == STACK_FIRST && rs[|segments|].last == STACK_LAST
    && rs[|segments|].perm == USER_RW
  }

  /** Load the image and map the stack, or drop everything again. It works exactly if the file is acceptable and its
      segments and the stack fit into memory together. */
  method Prepare(image: seq<Byte>, kernel: PageTable) returns (r: Image, noStack: bool, ghost segments: seq<Segment>)
    requires kernel.Valid() && kernel.lim == PTE_PER_TABLE && |image| <= MAX_LEN
    modifies kernel.mem
    ensures old(kernel.mem.log) <= kernel.mem.log
    ensures kernel.Valid() && SameViews(old(kernel.mem.tables), kernel.mem.tables, kernel.root)
    ensures BytesWithin(old(kernel.mem.bytes), kernel.mem.bytes, old(kernel.mem.free))
    ensures r.Failed? ==> kernel.mem.free == old(kernel.mem.free)
    ensures r.Loaded? <==> Parse(image).Ok? && Fits(Parse(image).value.1 + [Stack()], |old(kernel.mem.free)|)
    ensures noStack ==> r == Failed(LoadError.OutOfMemory) && Parse(image).Ok?
    ensures r.Failed? && !noStack ==> Outcome(image, |old(kernel.mem.free)|, r, segments)
    ensures r.Loaded? ==>
              && fresh(r.space) && fresh(r.space.table) && r.space.table.mem == kernel.mem && r.space.table != kernel
              && r.space.Valid()
              && r.space.table.lim == UPPER_HALF && r.space.table.shared == kernel.Owned()
              && Parse(image) == Ok((r.entry, segments)) && IsBrk(r.brk, segments)
              && kernel.Now()
                  == old(kernel.Now()).(tables := kernel.mem.tables, bytes := kernel.mem.bytes, free := kernel.mem.free)
              && Ready(r.space.table.Now(), r.space.regions, old(kernel.Now()), segments)
              && InPlace(r.space.table.Now(), r.space.regions, segments)
              && CanWrite(kernel.mem.bytes, r.space.Pages(), USER_STACK_TOP - USER_STACK_SIZE, USER_STACK_TOP)
  {
    hide Holds, TableOk, Progress, BuiltFrom, IsBrk, Parse, SameViews, Fits, Decoded, Booked, Outcome, Added,
         Spaces.Failed, Room, Filled, CanWrite, InPlace, Ready, UserPages, OnlyFree, TablesWithin, BytesWithin,
         DataFrames, Local, LastReturned, Agrees, SharesKernel, SegmentOk, FirstPage, LastPage, Stack;
    ghost var k := kernel.Now();
    noStack := false;
    r, segments := LoadImage(image, kernel);
    LoadedFits(image, |k.free|, r, segments);
    if r.Failed? {
      return;
    }
    var ok := AddStack(r.space, kernel, k, segments);
    if !ok {
      r, noStack := Failed(LoadError.OutOfMemory), true;
    }
  }

  /** Map the stack of a loaded image, or drop the space. */
  method AddStack(space: AddressSpace, kernel: PageTable, ghost k: Snapshot, ghost segments: seq<Segment>)
    returns (ok: bool)
    requires space.Valid() && space.table.mem == kernel.mem && space.table != kernel && SnapOk(k)
    requires Progress(space.table.Now(), space.regions, k, k, segments)
    requires kernel.Now() == k.(tables := kernel.mem.tables, bytes := kernel.mem.bytes, free := kernel.mem.free)
    modifies space`regions, space.table`frames, space.table`node, kernel.mem
    ensures old(kernel.mem.log) <= kernel.mem.log && kernel.Valid()
    ensures SameViews(k.tables, kernel.mem.tables, kernel.root)
    ensures BytesWithin(k.bytes, kernel.mem.bytes, k.free)
    ensures ok <==> Fits(segments + [Stack()], |k.free|)
    ensures !ok ==> kernel.mem.free == k.free
    ensures ok ==>
              && space.Valid() && Ready(space.table.Now(), space.regions, k, segments)
              && InPlace(space.table.Now(), space.regions, segments)
              && CanWrite(kernel.mem.bytes, space.Pages(), USER_STACK_TOP - USER_STACK_SIZE, USER_STACK_TOP)
  {
    hide Holds, TableOk, Progress, BuiltFrom, SameViews, Fits, Decoded, Booked, Added, Spaces.Failed, Room, Filled,
         CanWrite, InPlace, Ready, UserPages, OnlyFree, TablesWithin, BytesWithin, DataFrames, Local, LastReturned;
    ghost var a, rs := space.table.Now(), space.regions;
    RoomIsFit(a, rs, k, k, segments, Stack());
    ProgressBuilt(a, rs, k, k, segments);
    var top; ghost var stack;
    top, stack := MapUserStack(space);
    ghost var b := space.table.Now();
    ok := top.Some?;
    if ok {
      StackOnTop(a, b, rs, stack, k, segments);
      BuiltOnlyFree(k, b, rs + [stack]);
    } else {
      FailedParts(a, b, rs, stack);
      BuiltFurther(k, a, rs, b, rs);
      space.Drop();
      DroppedAll(k, b, rs, kernel.Now());
    }
    KernelAfter(k, kernel.Now());
  }

  lemma LoadedFits(image: seq<Byte>, n: nat, r: Image, segments: seq<Segment>)
    requires Outcome(image, n, r, segments)
    ensures r.Loaded? ==> Parse(image) == Ok((r.entry, segments)) && IsBrk(r.brk, segments) && Fits(segments, n)
    ensures r.Failed? ==> !(Parse(image).Ok? && Fits(Parse(image).value.1 + [Stack()], n))
  {
    hide Parse, Fits, IsBrk;
    if Parse(image).Ok? && Fits(Parse(image).value.1 + [Stack()], n) {
      var all := Parse(image).value.1 + [Stack()];
      FitsPrefix(all, |all| - 1, n);
      assert all[..|all| - 1] == Parse(image).value.1;
    }
  }

  lemma StackOnTop(a: Snapshot, b: Snapshot, rs: seq<Region>, stack: Region, k: Snapshot, segments: seq<Segment>)
    requires Holds(a, rs) && Progress(a, rs, k, k, segments) && Added(a, b, rs, stack)
    requires stack.first == STACK_FIRST && stack.last == STACK_LAST && stack.perm == USER_RW
    ensures Ready(b, rs + [stack], k, segments) && InPlace(b, rs + [stack], segments) && BuiltFrom(k, b, rs + [stack])
  {
    hide Holds, Agrees, AllHolding, BuiltFrom, SnapOk, SharesKernel, UserPages, RegionPages, BytesWithin, Added, Fits,
         Local, Grew, Progress, InPlace;
    ProgressParts(a, rs, k, k, segments);
    AddedParts(a, b, rs, stack);
    GrewOnlyFree(a, b, stack.frames.Values);
    SameRoot(a, rs, b, rs + [stack]);
    BuiltFurther(k, a, rs, b, rs + [stack]);
    SharesKept(k, k, a, rs, b, rs + [stack]);
    StackBeside(a, b, rs, stack, segments);
    HoldingLength(a, rs, segments);
  }

  /** `exec`. If the arguments fit on the stack it works exactly if the file is acceptable and its segments and the
      stack fit into memory; then the new process finds its image and its arguments exactly as given. On failure no
      frame is lost. */
  method ExecImage(image: seq<Byte>, args: seq<Str>, kernel: PageTable)
    returns (r: Launch, ghost segments: seq<Segment>)
    requires kernel.Valid() && kernel.lim == PTE_PER_TABLE && |image| <= MAX_LEN && FitBelow(USER_STACK_TOP, args)
    modifies kernel.mem
    ensures old(kernel.mem.log) <= kernel.mem.log
    ensures kernel.Valid() && SameViews(old(kernel.mem.tables), kernel.mem.tables, kernel.root)
    ensures BytesWithin(old(kernel.mem.bytes), kernel.mem.bytes, old(kernel.mem.free))
    ensures !r.Started? ==> kernel.mem.free == old(kernel.mem.free)
    ensures r.BadImage? ==> Outcome(image, |old(kernel.mem.free)|, Failed(r.error), segments)
    ensures r.Started? ==> Parse(image).Ok? && Fits(Parse(image).value.1 + [Stack()], |old(kernel.mem.free)|)
    ensures Argv(USER_STACK_TOP, args) >= USER_STACK_TOP - USER_STACK_SIZE ==>
              (r.Started? <==> Parse(image).Ok? && Fits(Parse(image).value.1 + [Stack()], |old(kernel.mem.free)|))
    ensures r.Started? ==>
              && fresh(r.space) && fresh(r.space.table) && r.space.table.mem == kernel.mem && r.space.Valid()
              && Parse(image) == Ok((r.entry, segments))
              && r.argc == |args| && r.sp == r.argv == Argv(USER_STACK_TOP, args)
              && Vector(kernel.mem.bytes, r.space.Pages(), USER_STACK_TOP, args)
              && Ready(r.space.table.Now(), r.space.regions, old(kernel.Now()), segments)
              && r.space.table.lim == UPPER_HALF && r.space.table.shared == kernel.Owned()
              && (forall s | s in segments :: s.vaddr + s.memsz <= r.brk) && r.brk % PAGE_SIZE == 0
              && FirstBreak(r.brk, segments)
    ensures r.Started? && Argv(USER_STACK_TOP, args) >= USER_STACK_TOP - USER_STACK_SIZE ==>
              InPlace(r.space.table.Now(), r.space.regions, segments)
  {
    hide Holds, Agrees, TableOk, UserPages, CanWrite, Vector, FitBelow, Argv, InPlace, SameOutside, SameViews, Inside,
         IsBrk, Parse, Fits, Ready, Decoded, Booked, BuiltFrom, OnlyFree, Outcome, TablesWithin, BytesWithin,
         DataFrames, FirstBreak;
    ghost var k := kernel.Now();
    var loaded, noStack;
    loaded, noStack, segments := Prepare(image, kernel);
    if loaded.Failed? {
      return if noStack then NoMemory else BadImage(loaded.error), segments;
    }
    var space := loaded.space;
    ghost var b, rs := space.table.Now(), space.regions;
    ReadyParts(b, rs, k, segments);
    var pushed := PushArgs(space, USER_STACK_TOP, args);
    ghost var c := space.table.Now();
    BuiltWritten(k, b, c, rs);
    ghost var argv := Argv(USER_STACK_TOP, args);
    if argv >= USER_STACK_TOP - USER_STACK_SIZE {
      LessWritable(b.bytes, UserPages(b.tables, b.root), USER_STACK_TOP - USER_STACK_SIZE, argv, USER_STACK_TOP);
    }
    if pushed.None? {
      space.Drop();
      DroppedAll(k, c, rs, kernel.Now());
      KernelAfter(k, kernel.Now());
      return NoMemory, segments;
    }
    if argv >= USER_STACK_TOP - USER_STACK_SIZE { ArgsBeside(b, c, rs, segments, argv); }
    ReadyIntro(b, c, rs, k, segments);
    BuiltOnlyFree(k, c, rs);
    KernelAfter(k, kernel.Now());
    BrkFacts(loaded.brk, segments);
    FirstBreakIs(loaded.brk, segments);
    var brk := if loaded.brk < USER_HEAP_BASE then USER_HEAP_BASE else loaded.brk;
    return Started(space, loaded.entry, pushed.value.0, pushed.value.1, pushed.value.2, brk), segments;
  }

  lemma ReadyParts(s: Snapshot, rs: seq<Region>, k: Snapshot, segments: seq<Segment>)
    requires Ready(s, rs, k, segments)
    ensures Holds(s, rs) && Agrees(s, rs) && BuiltFrom(k, s, rs) && SharesKernel(s.tables, s.root, k.root)
    ensures |rs| == |segments| + 1 && rs[|segments|].first == STACK_FIRST && rs[|segments|].last == STACK_LAST
    ensures rs[|segments|].perm == USER_RW
  {
    hide Holds, Agrees, BuiltFrom, SharesKernel;
  }

  lemma ReadyIntro(b: Snapshot, c: Snapshot, rs: seq<Region>, k: Snapshot, segments: seq<Segment>)
    requires Ready(b, rs, k, segments) && Holds(c, rs) && Agrees(c, rs) && BuiltFrom(k, c, rs)
    requires SharesKernel(c.tables, c.root, k.root)
    ensures Ready(c, rs, k, segments)
  {
    hide Holds, Agrees, BuiltFrom, SharesKernel;
  }

  /** What a process finds that `exec` started with arguments that fit the stack, by the hardware's walk: every byte of
      its segments that it may read, and the pointer array with its NULL and the arguments with their NULs, each where
      its pointer says. */
  lemma StartedReads(c: Snapshot, rs: seq<Region>, k: Snapshot, segments: seq<Segment>, args: seq<Str>, i: nat, x: nat)
    requires Ready(c, rs, k, segments) && InPlace(c, rs, segments) && forall s | s in segments :: SegmentOk(s)
    requires FitBelow(USER_STACK_TOP, args) && Vector(c.bytes, UserPages(c.tables, c.root), USER_STACK_TOP, args)
    requires Argv(USER_STACK_TOP, args) >= USER_STACK_TOP - USER_STACK_SIZE
    ensures i < |segments| && segments[i].vaddr <= x < segments[i].vaddr + segments[i].memsz ==>
              var s := segments[i];
              UserReads(c.tables, c.bytes, c.root, x) ==
              if s.perm.user && s.perm.read then Some(if x < s.vaddr + |s.data| then s.data[x - s.vaddr] else 0)
                  else None
    ensures SeesVector(c, USER_STACK_TOP, args)
  {
    hide *;
    ReadyParts(c, rs, k, segments);
    if i < |segments| && segments[i].vaddr <= x < segments[i].vaddr + segments[i].memsz {
      InPlaceAt(c, rs, segments, i);
      SegmentBytes(c, rs, i, segments[i], x);
    }
    VectorSeen(c, rs, |segments|, args);
  }

  lemma VectorSeen(c: Snapshot, rs: seq<Region>, top: nat, args: seq<Str>)
    requires FitBelow(USER_STACK_TOP, args) && Vector(c.bytes, UserPages(c.tables, c.root), USER_STACK_TOP, args)
    requires Argv(USER_STACK_TOP, args) >= USER_STACK_TOP - USER_STACK_SIZE
    requires Holds(c, rs) && top < |rs| && rs[top].first == STACK_FIRST && rs[top].last == STACK_LAST
    requires rs[top].perm == USER_RW
    ensures SeesVector(c, USER_STACK_TOP, args)
  {
    hide *;
    var sp, pages := USER_STACK_TOP, UserPages(c.tables, c.root);
    forall j: nat | j < |args| ensures SeesArgument(c, sp, args, j) {
      ArgumentShown(c.bytes, pages, sp, args, j);
      Layout(sp, args, j, j);
      ArgvBelow(sp, args, j);
      ShownIsSeen(c, rs, top, Slot(Argv(sp, args), j), ToLe(Pointer(sp, args, j), PTR_SIZE));
      ShownIsSeen(c, rs, top, Pointer(sp, args, j), args[j] + [0]);
      ArgumentSeen(c, sp, args, j);
    }
    EndShown(c.bytes, pages, sp, args);
    ArgvBelow(sp, args, |args|);
    ShownIsSeen(c, rs, top, Slot(Argv(sp, args), |args|), ToLe(0, PTR_SIZE));
    AllSeen(c, sp, args);
  }

  /** What the kernel put on the stack, the process reads there. */
  lemma ShownIsSeen(c: Snapshot, rs: seq<Region>, top: nat, a: nat, s: seq<Byte>)
    requires Holds(c, rs) && top < |rs| && rs[top].first == STACK_FIRST && rs[top].last == STACK_LAST
    requires rs[top].perm == USER_RW
    requires Shows(c.bytes, UserPages(c.tables, c.root), a, s)
    requires USER_STACK_TOP - USER_STACK_SIZE <= a && a + |s| <= USER_STACK_TOP
    ensures Sees(c, a, s)
  {
    hide Holds, UserPages, Load, UserReads;
    forall i | 0 <= i < |s| ensures UserReads(c.tables, c.bytes, c.root, a + i) == Some(s[i]) {
      StackReads(c, rs, top, a + i);
    }
  }

  lemma ArgumentShown(bytes: Bytes, pages: PageMap, sp: nat, args: seq<Str>, i: nat)
    requires FitBelow(sp, args) && Vector(bytes, pages, sp, args) && i < |args|
    ensures Shows(bytes, pages, Pointer(sp, args, i), args[i] + [0])
    ensures Shows(bytes, pages, Slot(Argv(sp, args), i), ToLe(Pointer(sp, args, i), PTR_SIZE))
  {
    hide FitBelow, Pointer, Argv, Shows, Slot;
  }

  lemma EndShown(bytes: Bytes, pages: PageMap, sp: nat, args: seq<Str>)
    requires FitBelow(sp, args) && Vector(bytes, pages, sp, args)
    ensures Shows(bytes, pages, Slot(Argv(sp, args), |args|), ToLe(0, PTR_SIZE))
  {
    hide FitBelow, Pointer, Argv, Shows, Slot, Strings, Pointers;
  }

  lemma ArgumentSeen(c: Snapshot, sp: nat, args: seq<Str>, i: nat)
    requires FitBelow(sp, args) && i < |args| && Sees(c, Pointer(sp, args, i), args[i] + [0])
    requires Sees(c, Slot(Argv(sp, args), i), ToLe(Pointer(sp, args, i), PTR_SIZE))
    ensures SeesArgument(c, sp, args, i)
  {
    hide FitBelow, Pointer, Argv, Sees, Slot;
  }

  lemma AllSeen(c: Snapshot, sp: nat, args: seq<Str>)
    requires FitBelow(sp, args) && Sees(c, Slot(Argv(sp, args), |args|), ToLe(0, PTR_SIZE))
    requires forall j: nat | j < |args| :: SeesArgument(c, sp, args, j)
    ensures SeesVector(c, sp, args)
  {
    hide FitBelow, Argv, Sees, Slot, SeesArgument;
  }

  lemma LessWritable(bytes: Bytes, pages: PageMap, from: nat, from': nat, to: nat)
    requires CanWrite(bytes, pages, from, to) && from <= from'
    ensures CanWrite(bytes, pages, from', to)
  {
    hide Writable;
  }

  /** The break of a fresh image: the first page boundary above its segments, or the start of the heap if that is
      higher. */
  ghost predicate FirstBreak(brk: nat, segments: seq<Segment>) {
    exists b: nat :: IsBrk(b, segments) && brk == if b < 0x1000_0000 then 0x1000_0000 else b
  }

  lemma FirstBreakIs(b: nat, segments: seq<Segment>)
    requires IsBrk(b, segments)
    ensures FirstBreak(if b < USER_HEAP_BASE then USER_HEAP_BASE else b, segments)
  {
    hide IsBrk;
  }

  lemma BrkFacts(brk: nat, segments: seq<Segment>)
    requires IsBrk(brk, segments)
    ensures brk % PAGE_SIZE == 0 && (forall s | s in segments :: s.vaddr + s.memsz <= brk)
  {
  }

  // ---- the program break ---------------------------------------------------------------------------------

  const PAGE_MASK: nat := PAGE_SIZE - 1

  /** `n.next_multiple_of(PAGE_SIZE)` */
  function PageUp(n: nat): (r: nat)
    ensures n <= r < n + PAGE_SIZE && r % PAGE_SIZE == 0
  {
    (n + PAGE_MASK) / PAGE_SIZE * PAGE_SIZE
  }

  /** Moving the break this way needs more memory than is mapped. */
  predicate Grows(brk: nat, heapTop: nat, delta: int) {
    delta != 0 && USER_HEAP_BASE <= brk + delta < USER_MAX_ADDR && brk + delta > heapTop
  }

  /** The heap of a process: from `base` up to `heapTop` it is mapped, and `brk` is how much of it is in use. */
  class Heap {
    const space: AddressSpace
    ghost const base: nat
    var brk: nat
    var heapTop: nat

    ghost predicate Valid()
      reads this, space, space.table, space.table.mem
    {
      && space.Valid()
      && USER_HEAP_BASE <= base <= heapTop <= USER_MAX_ADDR && heapTop % PAGE_SIZE == 0
      && USER_HEAP_BASE <= brk <= heapTop
      && CanWrite(space.table.mem.bytes, space.Pages(), base, heapTop)
    }

    /** The heap of a fresh image is empty. */
    constructor (space: AddressSpace, brk: nat)
      requires space.Valid() && USER_HEAP_BASE <= brk <= USER_MAX_ADDR && brk % PAGE_SIZE == 0
      ensures this.space == space && this.brk == brk && heapTop == brk && base == brk && Valid()
    {
      this.space, this.brk, heapTop, base := space, brk, brk, brk;
    }

    /** Move the break by `delta`; the previous break if that worked. It works exactly if the new break is in range and
        the heap reaches it or there is room to grow. Everything below the new break stays or becomes writable and
        memory gained reads as zeroes. A failure moves nothing, but it leaves the pages of `left` mapped, to frames that
        are free; while the page at the heap's top is mapped no growth succeeds. */
    method Adjust(delta: int) returns (r: Option<nat>, ghost left: Region)
      requires Valid()
      modifies `brk, `heapTop, space`regions, space.table`frames, space.table`node, space.table.mem
      ensures old(space.table.mem.log) <= space.table.mem.log
      ensures Valid() && heapTop >= old(heapTop) && Extends(old(space.Pages()), space.Pages())
      ensures r.Some? <==>
              || delta == 0
              || (&& 0x1000_0000 <= old(brk) + delta < 0x40_0000_0000
                  && (|| old(brk) + delta <= old(heapTop)
                      || Room(old(space.table.Now()), old(heapTop) / PAGE_SIZE, PageUp(old(brk) + delta) / PAGE_SIZE)))
      ensures r.Some? ==> r.value == old(brk) && brk == old(brk) + delta
      ensures r.None? ==> brk == old(brk) && heapTop == old(heapTop) && space.regions == old(space.regions)
      ensures Grows(old(brk), old(heapTop), delta) && r.None? ==>
                && Spaces.Failed(old(space.table.Now()), space.table.Now(), space.regions, left)
                && (var s, first, last := old(space.table.Now()), heapTop / PAGE_SIZE,
                    PageUp(old(brk) + delta) / PAGE_SIZE;
                    Left(s, space.table.Now(), left, first, last, USER_RW, true)
                        || Left(s, space.table.Now(), left, first, last, USER_RW, false))
      ensures Grows(old(brk), old(heapTop), delta) && old(heapTop) / PAGE_SIZE in old(space.Pages()) ==> r.None?
      ensures r.Some? && delta != 0 ==> USER_HEAP_BASE <= brk < USER_MAX_ADDR
      ensures r.Some? && brk <= old(heapTop) ==>
                heapTop == old(heapTop) && space.table.mem.bytes == old(space.table.mem.bytes)
      ensures brk > old(heapTop) ==>
                && heapTop == PageUp(brk)
                && Filled(space.table.mem.bytes, space.Pages(), old(heapTop) / PAGE_SIZE, heapTop / PAGE_SIZE, 0, [])
    {
      hide Holds, TableOk, UserPages, CanWrite, AllZero, Decoded, Booked, Added, Spaces.Failed, Left, Room, Extends,
           Filled, PageUp;
      ghost var before := space.Pages();
      SamePages(before);
      left := Region(0, 0, USER_RW, map[]);
      var was := brk;
      if delta == 0 {
        return Some(was), left;
      }
      var now := was + delta;
      if now < USER_HEAP_BASE || now >= USER_MAX_ADDR {
        return None, left;
      }
      if now > heapTop {
        var to := PageUp(now);
        HeapPages(heapTop, to);
        ghost var a := space.table.Now();
        TopVacant(a, heapTop / PAGE_SIZE, to / PAGE_SIZE);
        var pushed;
        pushed, left := space.Push(heapTop / PAGE_SIZE, to / PAGE_SIZE, USER_RW);
        ghost var b := space.table.Now();
        StillWritable(a, b, space.regions, base, heapTop);
        if pushed != MapResult.Mapped {
          return None, left;
        }
        RegionWritable(b, space.regions, |space.regions| - 1);
        FreshZero(b, space.regions);
        JoinWritable(b.bytes, space.Pages(), base, heapTop, to);
        heapTop := to;
      }
      brk := now;
      return Some(was), left;
    }
  }

  lemma SamePages(p: PageMap)
    ensures Extends(p, p)
  {
  }

  lemma HeapPages(from: nat, to: nat)
    requires from % PAGE_SIZE == 0 && to % PAGE_SIZE == 0
    ensures from / PAGE_SIZE * PAGE_SIZE == from && to / PAGE_SIZE * PAGE_SIZE == to
    ensures to < USER_MAX_ADDR + PAGE_SIZE ==> to <= USER_MAX_ADDR && to / PAGE_SIZE <= USER_PAGES
    ensures from < USER_MAX_ADDR ==> UserPage(from / PAGE_SIZE)
    ensures from < to ==> from / PAGE_SIZE < to / PAGE_SIZE
  {
  }

  lemma TopVacant(a: Snapshot, first: nat, last: nat)
    requires first < last && UserPage(first)
    ensures first in UserPages(a.tables, a.root) ==> !Room(a, first, last)
  {
    InPages(a, first);
    hide UserPages, Translate;
  }

  lemma StillWritable(a: Snapshot, b: Snapshot, rs: seq<Region>, from: nat, to: nat)
    requires CanWrite(a.bytes, UserPages(a.tables, a.root), from, to) && Holds(b, rs) && b.root == a.root
    requires Extends(UserPages(a.tables, a.root), UserPages(b.tables, b.root))
    ensures CanWrite(b.bytes, UserPages(b.tables, b.root), from, to)
  {
    hide SnapOk, NoSupers, Translate, OneToOne, DataFrames, AllPages, RegionsOk, UserPages;
    forall x: nat | from <= x < to ensures Writable(b.bytes, UserPages(b.tables, b.root), x) {
      assert Writable(a.bytes, UserPages(a.tables, a.root), x);
    }
  }

  lemma JoinWritable(bytes: Bytes, pages: PageMap, from: nat, mid: nat, to: nat)
    requires CanWrite(bytes, pages, from, mid) && CanWrite(bytes, pages, mid, to)
    ensures CanWrite(bytes, pages, from, to)
  {
    hide Writable;
  }

  /** The last region, still all zero, reads as zeroes. */
  lemma FreshZero(s: Snapshot, rs: seq<Region>)
    requires Holds(s, rs) && rs != [] && AllZero(s.bytes, rs[|rs| - 1].frames)
    ensures Filled(s.bytes, UserPages(s.tables, s.root), rs[|rs| - 1].first, rs[|rs| - 1].last, 0, [])
  {
    hide Holds, Load, UserPages, AllZero, PageOf, PageRange;
    var r, front := rs[|rs| - 1], rs[..|rs| - 1];
    RegionFrames(s, rs, |rs| - 1);
    assert front + [r] == rs;
    forall x: nat | r.first * PAGE_SIZE <= x < r.last * PAGE_SIZE
      ensures Load(s.bytes, UserPages(s.tables, s.root), x) == Some(0)
    {
      PageBetween(r.first, r.last, x);
      assert PageOf(x) in r.frames.Keys;
      RegionAlone(s, front, r);
      SameLoad(s, s, front, r, x);
    }
  }
}
