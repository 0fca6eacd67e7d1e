/** The operations on address spaces as steps of the machine: what each of them promises makes it one of the steps that
    the laws in `Processes` are about, served by the allocator as the laws in `FreeLists` ask for. */
module ProcessSteps {
  import opened Prelude
  import opened Sv39
  import opened Memory
  import opened PhysMemory
  import opened PageTables
  import opened Framed
  import opened UserMemory
  import opened Spaces
  import opened Fork
  import opened Loader
  import opened ExecArgs
  import opened UserProcess
  import opened Processes
  import FrameLists
  import opened FreeLists

  ghost function TreeOf(t: PageTable): Tree
    reads t
  {
    Tree(t.root, t.frames, t.node, t.lim, t.shared)
  }

  /** Process `id` of world `w` is `space`, in the memory as it is now. */
  ghost predicate ShowsSpace(w: World, id: nat, space: AddressSpace)
    reads space, space.table, space.table.mem
  {
    && w.bytes == space.table.mem.bytes && w.free == space.table.mem.free
    && id in w.procs && w.procs[id] == Proc(TreeOf(space.table), space.regions)
  }

  /** The kernel's table of world `w` is `kernel`, in the memory as it is now. */
  ghost predicate ShowsKernel(w: World, kernel: PageTable)
    reads kernel, kernel.mem
  {
    w.bytes == kernel.mem.bytes && w.free == kernel.mem.free && w.kernel == TreeOf(kernel)
  }

  /** `w` after process `id` became `space`. */
  ghost function With(w: World, id: nat, space: AddressSpace): World
    reads space, space.table, space.table.mem
  {
    w.(bytes := space.table.mem.bytes, free := space.table.mem.free,
       procs := w.procs[id := Proc(TreeOf(space.table), space.regions)])
  }

  /** World `w` is memory as it is now. */
  ghost predicate ShowsMemory(w: World, mem: PhysMem)
    reads mem
  {
    w.bytes == mem.bytes && w.free == mem.free
  }

  /** A process in order is a space that can be worked on. */
  lemma ShownValid(w: World, id: nat, space: AddressSpace)
    requires WorldOk(w) && ShowsSpace(w, id, space) && space.table.mem.Valid()
    ensures space.Valid() && space.Exact() && Usable(w, w.procs[id])
  {
    hide Holds, Agrees, Decoded, Booked, SharesKernel, KernelOk;
    assert ProcOk(w, w.procs[id]);
    HoldsParts(Snap(w, w.procs[id].tree), space.regions);
  }

  /** Then the lists are in order, and hold exactly what counts as free in `w`. */
  lemma ShownInOrder(w: World, mem: PhysMem)
    requires mem.Valid() && ShowsMemory(w, mem)
    ensures Ordered(w, mem.ledger)
  {
    hide Decoded, FrameLists.InOrder, FrameLists.Play;
  }

  /** What the log says happened in between is how the allocator served the step. */
  lemma ServedByLog(origin: FrameLists.Book, was: seq<FrameLists.Call>, w: World, a: FrameLists.Ledger,
                    log: seq<FrameLists.Call>, w': World, a': FrameLists.Ledger, st: Step)
    requires Booked(origin, was, FrameLists.Book(w.bytes, a), w.free)
    requires Booked(origin, log, FrameLists.Book(w'.bytes, a'), w'.free)
    requires was <= log && !st.Copy? && !st.Store? && EndsAs(st, a, log[|was|..])
    ensures Served(w, w', st, a, a')
  {
    hide Booked, EndsAs, FrameLists.Play, FrameLists.FreeAfter;
    BookedCalls(origin, was, FrameLists.Book(w.bytes, a), w.free, log, FrameLists.Book(w'.bytes, a'), w'.free);
    assert ByCalls(w, w', a, a', log[|was|..]);
  }

  /** The same for a step that leaves no page behind. */
  lemma ServedCleanly(origin: FrameLists.Book, was: seq<FrameLists.Call>, w: World, a: FrameLists.Ledger,
                      log: seq<FrameLists.Call>, w': World, a': FrameLists.Ledger, st: Step)
    requires Booked(origin, was, FrameLists.Book(w.bytes, a), w.free)
    requires Booked(origin, log, FrameLists.Book(w'.bytes, a'), w'.free)
    requires was <= log && !st.Copy? && !st.Store? && Clean(st)
    ensures Served(w, w', st, a, a')
  {
    hide Booked, Served;
    ServedByLog(origin, was, w, a, log, w', a', st);
  }

  method Push(space: AddressSpace, first: nat, last: nat, perm: Flags, ghost w: World, ghost id: nat)
    returns (r: MapResult, ghost w': World, ghost st: Step)
    requires space.Valid() && ShowsSpace(w, id, space) && Usable(w, w.procs[id]) && last <= USER_PAGES
    modifies space`regions, space.table`frames, space.table`node, space.table.mem
    ensures space.Valid() && ShowsSpace(w', id, space) && Next(w, w', st) && st.id == id
    ensures Served(w, w', st, old(space.table.mem.ledger), space.table.mem.ledger)
    ensures r == Mapped <==> Room(Snap(w, w.procs[id].tree), first, last)
    ensures if r == Mapped then st.Grow?
              else st.FailGrow? && st.last == last && st.left.first == first && st.left.perm == perm
    ensures r == Mapped ==> st.added.first == first && st.added.last == last && st.added.perm == perm
  {
    hide Holds, Decoded, Booked, Added, Spaces.Failed, Left, Room, AllZero, TableOk, UserPages, Extends, Served, EndsAs,
         LastReturned;
    ghost var mem := space.table.mem;
    ghost var left;
    r, left := space.Push(first, last, perm);
    w' := With(w, id, space);
    st := if r == Mapped then Grow(id, left) else FailGrow(id, last, left);
    if r == Mapped {
      ServedCleanly(mem.origin, old(mem.log), w, old(mem.ledger), mem.log, w', mem.ledger, st);
    } else {
      LeftFields(Snap(w, w.procs[id].tree), space.table.Now(), left, first, last, perm, r == AlreadyMapped);
      LeftLast(mem, old(mem.log), w, old(mem.ledger), w', st, r == AlreadyMapped);
      ServedByLog(mem.origin, old(mem.log), w, old(mem.ledger), mem.log, w', mem.ledger, st);
    }
  }

  /** The last thing such a push does is to give back the frame of the last page left. */
  lemma LeftLast(mem: PhysMem, was: seq<FrameLists.Call>, w: World, a: FrameLists.Ledger, w': World, st: Step,
                 taken: bool)
    requires mem.Valid() && ShowsMemory(w', mem) && was <= mem.log
    requires Booked(mem.origin, was, FrameLists.Book(w.bytes, a), w.free)
    requires st.FailGrow? && st.id in w.procs && st.id in w'.procs && LastReturned(mem, st.left.frames)
    requires w'.procs[st.id].tree.root == w.procs[st.id].tree.root
    requires Left(Snap(w, w.procs[st.id].tree), Snap(w', w'.procs[st.id].tree), st.left, st.left.first, st.last,
                  st.left.perm, taken)
    ensures EndsAs(st, a, mem.log[|was|..])
  {
    hide Booked, Left, LastReturned, Decoded;
    var s, s' := Snap(w, w.procs[st.id].tree), Snap(w', w'.procs[st.id].tree);
    if !Clean(st) {
      LeftKeys(s, s', st.left, st.left.first, st.last, st.left.perm, taken);
      var v := LastOf(mem, st.left);
      if was == mem.log {
        SameBook(mem.origin, was, FrameLists.Book(w.bytes, a), w.free, FrameLists.Book(mem.bytes, mem.ledger),
                 mem.free);
        LeftIsNew(s, s', st.left, st.left.first, st.last, st.left.perm, taken, v);
        assert false;
      }
      OneBase(mem.origin, was, FrameLists.Book(w.bytes, a), w.free);
      assert mem.log[|was|..][|mem.log| - |was| - 1] == mem.log[|mem.log| - 1];
    }
  }

  lemma LastOf(mem: PhysMem, left: Region) returns (v: nat)
    requires LastReturned(mem, left.frames) && left.frames != map[]
    requires left.frames.Keys == PageRange(left.first, left.last)
    ensures v == left.last - 1 && v in left.frames && LastGave(mem.origin, mem.log, left.frames[v])
  {
    hide LastGave;
    v :| v in left.frames && (forall u | u in left.frames :: u <= v) && LastGave(mem.origin, mem.log, left.frames[v]);
    assert v in PageRange(left.first, left.last) && left.last - 1 in PageRange(left.first, left.last);
  }

  lemma SameBook(origin: FrameLists.Book, log: seq<FrameLists.Call>, now: FrameLists.Book, free: set<nat>,
                 now': FrameLists.Book, free': set<nat>)
    requires Booked(origin, log, now, free) && Booked(origin, log, now', free')
    ensures now' == now && free' == free
  {
    hide FrameLists.Play, FrameLists.InOrder;
  }

  lemma OneBase(origin: FrameLists.Book, log: seq<FrameLists.Call>, now: FrameLists.Book, free: set<nat>)
    requires Booked(origin, log, now, free)
    ensures now.ledger.base == origin.ledger.base
  {
    hide FrameLists.Play, FrameLists.InOrder;
  }

  lemma LeftIsNew(a: Snapshot, b: Snapshot, left: Region, first: nat, last: nat, perm: Flags, taken: bool, v: nat)
    requires Left(a, b, left, first, last, perm, taken) && v in left.frames && a.root == b.root
    ensures a.tables != b.tables
  {
    hide Left;
    LeftKeys(a, b, left, first, last, perm, taken);
    LeftPage(a, b, left, first, last, perm, taken, v);
    LeftVacant(a, b, left, first, last, perm, taken);
    AllUserPages(a.tables, a.root);
  }

  lemma LeftVacant(a: Snapshot, b: Snapshot, left: Region, first: nat, last: nat, perm: Flags, taken: bool)
    requires Left(a, b, left, first, last, perm, taken)
    ensures Vacant(a.tables, a.root, first, left.last)
  {
    hide Vacant, UserPages, FramesNeeded, Translate;
  }

  lemma LeftFields(a: Snapshot, b: Snapshot, left: Region, first: nat, last: nat, perm: Flags, taken: bool)
    requires Left(a, b, left, first, last, perm, taken)
    ensures left.first == first && left.perm == perm && exists t :: Left(a, b, left, left.first, last, left.perm, t)
  {
    hide Left;
    LeftStart(a, b, left, first, last, perm, taken);
  }

  lemma LeftStart(a: Snapshot, b: Snapshot, left: Region, first: nat, last: nat, perm: Flags, taken: bool)
    requires Left(a, b, left, first, last, perm, taken)
    ensures left.first == first && left.perm == perm
  {
    hide UserPages, Vacant, FramesNeeded, Translate;
  }

  method CopyToUser(space: AddressSpace, addr: nat, src: seq<Byte>, ghost w: World, ghost id: nat)
    returns (ok: bool, ghost w': World)
    requires space.table.mem.Readable() && ShowsSpace(w, id, space)
    modifies space.table.mem`bytes, space.table.mem`tables, space.table.mem`log
    ensures space.table.mem.Readable() && ShowsSpace(w', id, space) && Next(w, w', Copy(id, addr, src))
    ensures Served(w, w', Copy(id, addr, src), old(space.table.mem.ledger), space.table.mem.ledger)
    ensures old(space.Valid() && space.Exact()) ==> space.Valid() && space.Exact()
  {
    hide Holds, Decoded, Booked, TableOk, UserPages, CopyTo, CopyThrough, SealedOff, Agrees, Local;
    ok := space.CopyToUser(addr, src);
    w' := w.(bytes := space.table.mem.bytes);
  }

  function Made(ok: bool, id: nat): Step {
    if ok then Create(id) else Refuse(id)
  }

  lemma MadeIsClean(ok: bool, id: nat)
    ensures Clean(Made(ok, id)) && !Made(ok, id).Copy? && !Made(ok, id).Store?
  {
  }

  /** An empty process. */
  method NewUserSpace(kernel: PageTable, ghost w: World, ghost id: nat) returns (r: AddressSpace?, ghost w': World)
    requires kernel.Valid() && kernel.lim == PTE_PER_TABLE && ShowsKernel(w, kernel) && id !in w.procs
    modifies kernel.mem
    ensures kernel.Valid() && ShowsKernel(w', kernel)
    ensures Served(w, w', Made(r != null, id), old(kernel.mem.ledger), kernel.mem.ledger)
    ensures r == null ==> Next(w, w', Refuse(id))
    ensures r == null <==> old(kernel.mem.free) == {}
    ensures r != null ==>
              && fresh(r) && fresh(r.table) && r.table.mem == kernel.mem && r.Valid() && ShowsSpace(w', id, r)
              && Next(w, w', Create(id)) && r.regions == [] && r.table.node.Keys == {Root}
              && |kernel.mem.free| == |old(kernel.mem.free)| - 1
  {
    hide Holds, Decoded, Booked, TableOk, Agrees, SharesKernel, HwWalk, SameViews, TablesWithin, BytesWithin, BuiltFrom,
         Served;
    r := Fork.NewUserSpace(kernel);
    if r == null {
      w' := w;
      SameBytes(w.bytes, w.free);
    } else {
      w' := With(w, id, r);
      FirstBuilt(Snap(w, w.kernel), r.table.Now());
    }
    MadeIsClean(r != null, id);
    ServedCleanly(kernel.mem.origin, old(kernel.mem.log), w, old(kernel.mem.ledger), kernel.mem.log, w',
                  kernel.mem.ledger, Made(r != null, id));
  }

  /** A duplicate of process `pid`. */
  method Duplicate(parent: AddressSpace, kernel: PageTable, ghost w: World, ghost pid: nat, ghost id: nat)
    returns (r: AddressSpace?, ghost w': World)
    requires parent.Valid() && ShowsSpace(w, pid, parent) && kernel.mem == parent.table.mem && id !in w.procs
    requires kernel.Valid() && kernel.lim == PTE_PER_TABLE && ShowsKernel(w, kernel)
    modifies kernel.mem
    ensures parent.Valid() && kernel.Valid() && ShowsKernel(w', kernel)
    ensures Served(w, w', Made(r != null, id), old(kernel.mem.ledger), kernel.mem.ledger)
    ensures r == null ==> Next(w, w', Refuse(id)) && ShowsSpace(w', pid, parent)
    ensures r != null ==>
              && fresh(r) && fresh(r.table) && r.table.mem == kernel.mem && r.Valid()
              && ShowsSpace(w', id, r) && ShowsSpace(w', pid, parent)
              && Next(w, w', Create(id))
              && Forked(Snap(w, w.procs[pid].tree), parent.regions, Snap(w', w'.procs[id].tree), r.regions)
  {
    hide Holds, Decoded, Booked, TableOk, Agrees, SharesKernel, HwWalk, SameViews, BytesWithin, BuiltFrom, Twins,
         UserPages, NeedOver, Served;
    r := Fork.Duplicate(parent, kernel);
    w' := w.(bytes := kernel.mem.bytes);
    if r != null {
      w' := With(w, id, r);
      SameSource(old(parent.table.Now()), Snap(w, w.kernel), r.table.Now(), r.regions);
    }
    MadeIsClean(r != null, id);
    ServedCleanly(kernel.mem.origin, old(kernel.mem.log), w, old(kernel.mem.ledger), kernel.mem.log, w',
                  kernel.mem.ledger, Made(r != null, id));
  }

  /** A process from a file. */
  method LoadImage(image: seq<Byte>, kernel: PageTable, ghost w: World, ghost id: nat)
    returns (r: Image, ghost w': World)
    requires kernel.Valid() && kernel.lim == PTE_PER_TABLE && |image| <= MAX_LEN && ShowsKernel(w, kernel)
    requires id !in w.procs
    modifies kernel.mem
    ensures kernel.Valid() && ShowsKernel(w', kernel)
    ensures Served(w, w', Made(r.Loaded?, id), old(kernel.mem.ledger), kernel.mem.ledger)
    ensures r.Failed? ==> Next(w, w', Refuse(id))
    ensures r.Loaded? ==>
              && fresh(r.space) && fresh(r.space.table) && r.space.table.mem == kernel.mem && r.space.Valid()
              && ShowsSpace(w', id, r.space) && Next(w, w', Create(id))
  {
    hide Holds, Decoded, Booked, TableOk, Agrees, SharesKernel, SameViews, BytesWithin, BuiltFrom, Progress, Outcome,
         SnapOk, UserPages, Served;
    ghost var segments;
    r, segments := Loader.LoadImage(image, kernel);
    w' := w.(bytes := kernel.mem.bytes);
    if r.Loaded? {
      w' := With(w, id, r.space);
      LoadedParts(r.space.table.Now(), r.space.regions, Snap(w, w.kernel), segments);
    }
    MadeIsClean(r.Loaded?, id);
    ServedCleanly(kernel.mem.origin, old(kernel.mem.log), w, old(kernel.mem.ledger), kernel.mem.log, w',
                  kernel.mem.ledger, Made(r.Loaded?, id));
  }

  lemma LoadedParts(c: Snapshot, rs: seq<Region>, k: Snapshot, segments: seq<Segment>)
    requires Progress(c, rs, k, k, segments)
    ensures Agrees(c, rs) && BuiltFrom(k, c, rs) && SharesKernel(c.tables, c.root, k.root)
  {
    hide *;
    ProgressParts(c, rs, k, k, segments);
  }

  /** A process that `exec` starts. The one it takes the place of is removed after that. */
  method ExecImage(image: seq<Byte>, args: seq<Str>, kernel: PageTable, ghost w: World, ghost id: nat)
    returns (r: Launch, ghost w': World)
    requires kernel.Valid() && kernel.lim == PTE_PER_TABLE && |image| <= MAX_LEN && FitBelow(USER_STACK_TOP, args)
    requires ShowsKernel(w, kernel) && id !in w.procs
    modifies kernel.mem
    ensures kernel.Valid() && ShowsKernel(w', kernel)
    ensures Served(w, w', Made(r.Started?, id), old(kernel.mem.ledger), kernel.mem.ledger)
    ensures !r.Started? ==> Next(w, w', Refuse(id))
    ensures r.Started? ==>
              && fresh(r.space) && fresh(r.space.table) && r.space.table.mem == kernel.mem && r.space.Valid()
              && ShowsSpace(w', id, r.space) && Next(w, w', Create(id))
  {
    hide Holds, Decoded, Booked, TableOk, Agrees, SharesKernel, SameViews, BytesWithin, BuiltFrom, Ready, Outcome,
         Parse, Fits, FitBelow, Argv, Vector, InPlace, UserPages, Served;
    ghost var segments;
    r, segments := UserProcess.ExecImage(image, args, kernel);
    w' := w.(bytes := kernel.mem.bytes);
    if r.Started? {
      w' := With(w, id, r.space);
      ReadyParts(r.space.table.Now(), r.space.regions, Snap(w, w.kernel), segments);
    }
    MadeIsClean(r.Started?, id);
    ServedCleanly(kernel.mem.origin, old(kernel.mem.log), w, old(kernel.mem.ledger), kernel.mem.log, w',
                  kernel.mem.ledger, Made(r.Started?, id));
  }

  lemma SameSource(p: Snapshot, k: Snapshot, c: Snapshot, rs: seq<Region>)
    requires BuiltFrom(p, c, rs) && k.tables == p.tables && k.bytes == p.bytes && k.free == p.free
    ensures BuiltFrom(k, c, rs)
  {
    hide DataFrames;
  }

  method Drop(space: AddressSpace, ghost w: World, ghost id: nat) returns (ghost w': World)
    requires space.Valid() && ShowsSpace(w, id, space) && Usable(w, w.procs[id])
    modifies space`regions, space.table.mem
    ensures space.table.mem.Valid() && ShowsMemory(w', space.table.mem) && Next(w, w', Remove(id))
    ensures Served(w, w', Remove(id), old(space.table.mem.ledger), space.table.mem.ledger)
  {
    hide Holds, Decoded, Booked, TableOk, BytesWithin, TablesWithin, DataFrames, Served;
    ghost var mem := space.table.mem;
    space.Drop();
    w' := w.(bytes := mem.bytes, free := mem.free, procs := w.procs - {id});
    ServedCleanly(mem.origin, old(mem.log), w, old(mem.ledger), mem.log, w', mem.ledger, Remove(id));
  }

  // ---- the kernel for itself ---------------------------------------------------------------------------

  /** A frame for a kernel stack, the kernel's heap or a driver. */
  method TakeFrame(mem: PhysMem, ghost w: World, ghost id: nat) returns (r: Option<nat>, ghost w': World)
    requires mem.Valid() && ShowsMemory(w, mem) && w.taken !! w.free && id !in w.procs
    modifies mem
    ensures mem.Valid() && ShowsMemory(w', mem) && Next(w, w', Serve(id))
    ensures Served(w, w', Serve(id), old(mem.ledger), mem.ledger)
    ensures w'.taken == w.taken + (if r.Some? then {r.value} else {}) && w'.procs == w.procs
    ensures (r.None? <==> w.free == {}) && (r.Some? ==> r.value in w.free && w'.free == w.free - {r.value})
  {
    hide Decoded, Booked, ZeroTable, ZeroPage, Served;
    ghost var mid;
    r, mid := mem.Alloc();
    w' := w.(bytes := mem.bytes, free := mem.free, taken := w.taken + if r.Some? then {r.value} else {});
    ServedCleanly(mem.origin, old(mem.log), w, old(mem.ledger), mem.log, w', mem.ledger, Serve(id));
  }

  method ReturnFrame(mem: PhysMem, f: nat, ghost w: World, ghost id: nat) returns (ghost w': World)
    requires mem.Valid() && ShowsMemory(w, mem) && w.taken !! w.free && id !in w.procs
    requires f in mem.bytes && f in w.taken
    modifies mem
    ensures mem.Valid() && ShowsMemory(w', mem) && Next(w, w', Serve(id))
    ensures w'.taken == w.taken - {f} && w'.free == w.free + {f} && w'.procs == w.procs
    ensures Served(w, w', Serve(id), old(mem.ledger), mem.ledger)
  {
    hide Decoded, Booked, LastGave, Served;
    mem.Release(f);
    w' := w.(bytes := mem.bytes, free := mem.free, taken := w.taken - {f});
    ServedCleanly(mem.origin, old(mem.log), w, old(mem.ledger), mem.log, w', mem.ledger, Serve(id));
  }

  /** The kernel writes a frame it took. */
  method WriteTaken(mem: PhysMem, f: nat, page: Page, ghost w: World, ghost id: nat) returns (ghost w': World)
    requires mem.Valid() && ShowsMemory(w, mem) && w.taken !! w.free && id !in w.procs
    requires f in mem.bytes && f in w.taken
    modifies mem`bytes, mem`tables, mem`log
    ensures mem.Valid() && ShowsMemory(w', mem) && Next(w, w', Serve(id)) && w'.taken == w.taken
    ensures Served(w, w', Serve(id), old(mem.ledger), mem.ledger)
  {
    hide Decoded, Booked, Decode, Served;
    mem.WriteFrame(f, page);
    w' := w.(bytes := mem.bytes);
    ServedCleanly(mem.origin, old(mem.log), w, old(mem.ledger), mem.log, w', mem.ledger, Serve(id));
  }
}
