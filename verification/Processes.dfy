/** All address spaces of the machine together: spaces are made, grow, fail to grow, are written and are dropped, and
    the kernel takes frames for itself, in any order. As long as no push fails after it has mapped a page, the kernel
    half stays what it was, in every space, no space changes another, no write reaches a free frame, and no frame is
    lost; after such a failure all of this can break. */
module Processes {
  import opened Prelude
  import opened Sv39
  import opened Memory
  import opened PageTables
  import LinearMap
  import opened Framed
  import opened UserMemory
  import opened Spaces
  import opened UserView
  import opened Isolation
  import opened Fork
  import opened StalePages

  datatype Tree = Tree(root: nat, frames: seq<nat>, node: map<Path, nat>, lim: nat, shared: set<nat>)
  datatype Proc = Proc(tree: Tree, regions: seq<Region>)
  /** `taken` are the frames the kernel has for itself, for stacks and its heap. */
  datatype World = World(bytes: Bytes, free: set<nat>, taken: set<nat>, kernel: Tree, procs: map<nat, Proc>)

  /** Memory read as page tables. */
  function Tab(w: World): (t: Tables)
    ensures t.Keys == w.bytes.Keys
  {
    Decoded(w.bytes)
  }

  function Snap(w: World, t: Tree): Snapshot {
    Snapshot(Tab(w), w.bytes, w.free, t.root, t.frames, t.node, t.lim, t.shared)
  }

  /** The frames a process holds: its tables and its memory. */
  ghost function Held(p: Proc): set<nat> {
    p.tree.node.Values + DataFrames(p.regions)
  }

  /** A space that shares the kernel half, whatever else its table maps. */
  ghost predicate Usable(w: World, p: Proc) {
    Holds(Snap(w, p.tree), p.regions) && p.tree.lim == UPPER_HALF && p.tree.shared == w.kernel.node.Values
  }

  ghost predicate ProcOk(w: World, p: Proc) {
    Usable(w, p) && Agrees(Snap(w, p.tree), p.regions) && SharesKernel(Tab(w), p.tree.root, w.kernel.root)
  }

  ghost predicate KernelOk(w: World) {
    && SnapOk(Snap(w, w.kernel)) && w.kernel.lim == PTE_PER_TABLE && w.kernel.shared == {}
    && (forall f | f in w.bytes :: f < PPN_LIMIT)
  }

  ghost predicate WorldOk(w: World) {
    && KernelOk(w)
    && (forall id | id in w.procs :: ProcOk(w, w.procs[id]))
    && (forall id, jd | id in w.procs && jd in w.procs && id != jd :: Held(w.procs[id]) !! Held(w.procs[jd]))
    && TakenOk(w)
  }

  /** What the kernel has for itself nobody else has. */
  ghost predicate TakenOk(w: World) {
    && w.taken <= w.bytes.Keys && w.free <= w.bytes.Keys && w.taken !! w.free && w.taken !! w.kernel.node.Values
    && (forall id | id in w.procs :: w.taken !! Held(w.procs[id]))
  }

  // ---- the steps -----------------------------------------------------------------------------

  datatype Step =
    | Grow(id: nat, added: Region)                // a push that went through
    | FailGrow(id: nat, last: nat, left: Region)  // a push up to `last` that failed and left pages behind
    | Copy(id: nat, addr: nat, src: seq<Byte>)    // the kernel copies into the process
    | Store(id: nat, addr: nat, byte: Byte)       // the process itself stores a byte
    | Create(id: nat)                             // a new process: an empty space, a loaded image or a duplicate
    | Remove(id: nat)                             // the process is dropped
    | Refuse(id: nat)                             // a creation that failed
    | Serve(id: nat)                              // the kernel takes or returns frames of its own, or writes them

  /** One process changed, and memory; the kernel's table and the other processes are where they were. */
  ghost predicate Changes(w: World, w': World, id: nat) {
    id in w.procs && id in w'.procs
        && w' == w.(bytes := w'.bytes, free := w'.free, procs := w.procs[id := w'.procs[id]])
  }

  /** The step `st` leads from `w` to `w'`. The operations on a space start from one whose regions are mapped. */
  ghost predicate Next(w: World, w': World, st: Step) {
    match st
    case Grow(id, r) =>
      && Changes(w, w', id) && Usable(w, w.procs[id]) && w'.procs[id].regions == w.procs[id].regions + [r]
      && Added(Snap(w, w.procs[id].tree), Snap(w', w'.procs[id].tree), w.procs[id].regions, r)
    case FailGrow(id, last, left) =>
      && Changes(w, w', id) && Usable(w, w.procs[id]) && w'.procs[id].regions == w.procs[id].regions
      && (var s, s' := Snap(w, w.procs[id].tree), Snap(w', w'.procs[id].tree);
          && Failed(s, s', w.procs[id].regions, left)
          && exists taken :: Left(s, s', left, left.first, last, left.perm, taken))
    case Copy(id, addr, src) =>
      id in w.procs && w' == w.(bytes := CopyThrough(w.bytes, w.procs[id].tree.root, addr, src).0)
    case Store(id, addr, b) =>
      id in w.procs && addr < USER_MAX_ADDR
          && w' == w.(bytes := UserStore(Tab(w), w.bytes, w.procs[id].tree.root, addr, b))
    case Create(id) =>
      && id !in w.procs && id in w'.procs
      && w' == w.(bytes := w'.bytes, free := w'.free, procs := w.procs[id := w'.procs[id]])
      && BuiltFrom(Snap(w, w.kernel), Snap(w', w'.procs[id].tree), w'.procs[id].regions) && ProcOk(w', w'.procs[id])
    case Remove(id) =>
      && id in w.procs && Usable(w, w.procs[id])
      && w' == w.(bytes := w'.bytes, free := w'.free, procs := w.procs - {id})
      && w'.free == w.free + Held(w.procs[id]) && BytesWithin(w.bytes, w'.bytes, w'.free)
    case Refuse(id) =>
      id !in w.procs && w' == w.(bytes := w'.bytes) && BytesWithin(w.bytes, w'.bytes, w.free)
    case Serve(id) =>
      && id !in w.procs && w' == w.(bytes := w'.bytes, free := w'.free, taken := w'.taken)
      && w'.free + w'.taken == w.free + w.taken && w'.free !! w'.taken
      && BytesWithin(w.bytes, w'.bytes, w.free + w.taken)
  }

  /** A step of a process that was there before and still is. */
  predicate Works(st: Step) {
    st.Grow? || st.FailGrow? || st.Copy? || st.Store?
  }

  /** No push that failed had mapped a page before. */
  predicate Clean(st: Step) {
    st.FailGrow? ==> st.left.frames == map[]
  }

  /** What the process itself did, apart from creation and removal, wrote and used only what is its own or free. */
  ghost predicate Act(w: World, w': World, id: nat) {
    && Changes(w, w', id)
    && (var p, p' := w.procs[id], w'.procs[id];
        && Local(Snap(w, p.tree), p.regions, Snap(w', p'.tree), p'.regions)
        && Holds(Snap(w', p'.tree), p'.regions) && Agrees(Snap(w', p'.tree), p'.regions))
  }

  /** Every clean step of an existing process is of that kind. */
  lemma CleanAct(w: World, w': World, st: Step)
    requires WorldOk(w) && Next(w, w', st) && Clean(st) && Works(st)
    ensures Act(w, w', st.id)
  {
    hide Holds, Agrees, Local, Added, Failed, Left, Decoded, CopyThrough, UserStore, SharesKernel, UserPages, SealedOff;
    var p := w.procs[st.id];
    assert ProcOk(w, p);
    var s := Snap(w, p.tree);
    match st
    case Grow(id, r) => AddedParts(s, Snap(w', w'.procs[id].tree), p.regions, r);
    case FailGrow(id, last, left) => FailedParts(s, Snap(w', w'.procs[id].tree), p.regions, left);
    case Copy(id, addr, src) => CopyActs(w, w', id, addr, src);
    case Store(id, addr, b) => StoreActs(w, w', id, addr, b);
  }

  /** The space of a process in order is sealed, so a copy into it is the simple one. */
  lemma CopyIsSimple(w: World, id: nat, addr: nat, src: seq<Byte>)
    requires id in w.procs && ProcOk(w, w.procs[id])
    ensures SealedOff(Snap(w, w.procs[id].tree))
    ensures CopyThrough(w.bytes, w.procs[id].tree.root, addr, src)
              == CopyTo(w.bytes, UserPages(Tab(w), w.procs[id].tree.root), addr, src)
  {
    hide Holds, Agrees, Decoded, CopyThrough, CopyTo, SharesKernel, UserPages, SealedOff;
    AgreesSealed(Snap(w, w.procs[id].tree), w.procs[id].regions);
    SealedCopy(Snap(w, w.procs[id].tree), w.procs[id].regions, addr, src);
  }

  lemma CopyActs(w: World, w': World, id: nat, addr: nat, src: seq<Byte>)
    requires id in w.procs && ProcOk(w, w.procs[id])
    requires w' == w.(bytes := CopyTo(w.bytes, UserPages(Tab(w), w.procs[id].tree.root), addr, src).0)
          || w' == w.(bytes := CopyThrough(w.bytes, w.procs[id].tree.root, addr, src).0)
    ensures Act(w, w', id)
  {
    hide Holds, Agrees, Local, Decoded, CopyThrough, CopyTo, SharesKernel, UserPages, SealedOff;
    var p := w.procs[id];
    var s, s' := Snap(w, p.tree), Snap(w', p.tree);
    CopyIsSimple(w, id, addr, src);
    var ok := CopyTo(w.bytes, UserPages(Tab(w), p.tree.root), addr, src).1;
    CopyToUserKeeps(s, s', p.regions, addr, src, ok);
    assert w.procs[id := p] == w.procs;
  }

  lemma StoreActs(w: World, w': World, id: nat, addr: nat, b: Byte)
    requires id in w.procs && ProcOk(w, w.procs[id]) && addr < USER_MAX_ADDR
    requires w' == w.(bytes := UserStore(Tab(w), w.bytes, w.procs[id].tree.root, addr, b))
    ensures Act(w, w', id)
  {
    hide Holds, Agrees, Local, Decoded, CopyTo, SharesKernel, UserPages, SealedOff, UserWrites, NoSupers, HwWalk, Act;
    var p := w.procs[id];
    var s := Snap(w, p.tree);
    HoldsParts(s, p.regions);
    if UserWrites(Tab(w), w.bytes, p.tree.root, addr) {
      StoreIsCopy(s, w.bytes, addr, b);
      CopyActs(w, w', id, addr, [b]);
    } else {
      CopyToStop(w.bytes, UserPages(Tab(w), p.tree.root), addr, []);
      CopyActs(w, w', id, addr, []);
    }
  }

  /** What a clean step in a world in order amounts to. */
  ghost predicate Tame(w: World, w': World, st: Step) {
    if Works(st) then Act(w, w', st.id) else Next(w, w', st)
  }

  lemma CleanIsTame(w: World, w': World, st: Step)
    requires WorldOk(w) && Next(w, w', st) && Clean(st)
    ensures Tame(w, w', st)
  {
    hide Next, Act, WorldOk, Clean, Works;
    if Works(st) { CleanAct(w, w', st); }
  }

  // ---- one step, seen by those it does not concern -----------------------------------------------

  /** Only frames in `may` are written or become free. */
  ghost predicate Within(w: World, w': World, may: set<nat>) {
    && w'.kernel == w.kernel && BytesWithin(w.bytes, w'.bytes, may) && TablesWithin(Tab(w), Tab(w'), may)
    && w'.free <= may && w'.free <= w.bytes.Keys
  }

  /** What a step may touch: free frames and those of the process, or of the kernel if it works for itself. */
  ghost function Reach(w: World, st: Step): set<nat> {
    w.free + (if st.id in w.procs then Held(w.procs[st.id]) else {}) + (if st.Serve? then w.taken else {})
  }

  lemma StepWithin(w: World, w': World, st: Step)
    requires WorldOk(w) && Tame(w, w', st)
    ensures Within(w, w', Reach(w, st))
  {
    hide WorldOk, Act, Next, Works, KernelOk, ProcOk, Held, Reach, Decoded;
    WorldParts(w);
    if Works(st) {
      ActWithin(w, w', st);
    } else {
      if st.id in w.procs { HeldInMemory(w, w.procs[st.id]); }
      OtherWithin(w, w', st);
    }
    DecodedWithin(w.bytes, w'.bytes, Reach(w, st));
  }

  lemma HeldInMemory(w: World, p: Proc)
    requires ProcOk(w, p)
    ensures Held(p) <= w.bytes.Keys
  {
    hide SnapOk, NoSupers, RegionsOk, OneToOne, DataFrames, Agrees, Decoded, SharesKernel;
    TablesInMemory(Snap(w, p.tree));
  }

  lemma ActWithin(w: World, w': World, st: Step)
    requires Act(w, w', st.id)
    ensures w'.kernel == w.kernel && BytesWithin(w.bytes, w'.bytes, Reach(w, st)) && w'.free <= Reach(w, st)
    ensures w'.free <= w.bytes.Keys
  {
    hide SnapOk, NoSupers, RegionsOk, OneToOne, AllPages, UserPages, Backed, Translate, Agrees, DataFrames, Decoded;
  }

  lemma OtherWithin(w: World, w': World, st: Step)
    requires Next(w, w', st) && !Works(st) && w.free <= w.bytes.Keys && w.taken <= w.bytes.Keys
    requires st.id in w.procs ==> Held(w.procs[st.id]) <= w.bytes.Keys
    ensures w'.kernel == w.kernel && BytesWithin(w.bytes, w'.bytes, Reach(w, st)) && w'.free <= Reach(w, st)
    ensures w'.free <= w.bytes.Keys
  {
    hide Usable, ProcOk, Held, Decoded, SnapOk;
  }

  lemma ReachApart(w: World, st: Step, jd: nat)
    requires WorldOk(w) && jd in w.procs && jd != st.id
    ensures Reach(w, st) !! Held(w.procs[jd])
  {
    hide NoSupers, RegionsOk, OneToOne, Backed, DataFrames, Agrees, Translate, TreeOk, Distinct, Decoded, SharesKernel;
    assert ProcOk(w, w.procs[jd]);
    assert w.taken !! Held(w.procs[jd]);
  }

  lemma KernelApart(w: World, st: Step)
    requires WorldOk(w)
    ensures Reach(w, st) !! w.kernel.node.Values
  {
    hide NoSupers, RegionsOk, OneToOne, Backed, DataFrames, Agrees, Translate, TreeOk, Distinct, Decoded, SharesKernel;
    if st.id in w.procs { assert ProcOk(w, w.procs[st.id]); }
  }

  /** The kernel's own table: no frame of it is written or freed, and it translates every page as before. */
  lemma KernelKept(w: World, w': World, may: set<nat>)
    requires KernelOk(w) && Within(w, w', may) && may !! w.kernel.node.Values
    ensures KernelOk(w') && SameViews(Tab(w), Tab(w'), w.kernel.root)
    ensures w.kernel.root in Tab(w) && w.kernel.root in Tab(w') && Tab(w')[w.kernel.root] == Tab(w)[w.kernel.root]
    ensures forall f | f in w.kernel.node.Values && f in Tab(w) :: f in Tab(w') && Tab(w')[f] == Tab(w)[f]
  {
    var k, k' := Snap(w, w.kernel), Snap(w', w.kernel);
    hide TableOk, Decoded;
    RootFacts(k);
    RootIsOwned(k);
    OtherTable(k, k');
  }

  /** Nothing a process can see differs between two moments: neither what the kernel finds for it nor what it can read
      and write itself. */
  ghost predicate SameProc(w: World, w': World, p: Proc) {
    && UserPages(Tab(w'), p.tree.root) == UserPages(Tab(w), p.tree.root)
    && (forall x: nat ::
        Load(w'.bytes, UserPages(Tab(w'), p.tree.root), x) == Load(w.bytes, UserPages(Tab(w), p.tree.root), x))
    && (forall x: nat | x < USER_MAX_ADDR ::
          && UserReads(Tab(w'), w'.bytes, p.tree.root, x) == UserReads(Tab(w), w.bytes, p.tree.root, x)
          && (UserWrites(Tab(w'), w'.bytes, p.tree.root, x) <==> UserWrites(Tab(w), w.bytes, p.tree.root, x)))
  }

  /** A process that is not stepping: its pages and everything it reads are as before. */
  lemma ProcKept(w: World, w': World, may: set<nat>, p: Proc)
    requires ProcOk(w, p) && Within(w, w', may) && may !! Held(p) && may !! w.kernel.node.Values
    requires w.kernel.root in w.kernel.node.Values
    ensures ProcOk(w', p) && SameProc(w, w', p)
  {
    hide SnapOk, NoSupers, HwWalk, Translate, RegionsOk, OneToOne, DataFrames, UserPages, Decoded, Backed, UserReads,
         UserWrites, Load;
    var s, s' := Snap(w, p.tree), Snap(w', p.tree);
    HoldsParts(s, p.regions);
    RootIsOwned(s);
    assert Untouched(s, s');
    HoldsElsewhere(s, s', p.regions);
    HoldsParts(s', p.regions);
    AgreesUnfold(s, p.regions);
    forall f | f in DataFrames(p.regions) && f in w.bytes ensures w'.bytes[f] == w.bytes[f] {
      assert f !in may;
    }
    SameFrames(s, s', p.regions);
    SameAccess(s, s');
  }

  lemma SameFrames(s: Snapshot, s': Snapshot, rs: seq<Region>)
    requires UserPages(s'.tables, s'.root) == UserPages(s.tables, s.root) && UserPages(s.tables, s.root) == AllPages(rs)
    requires s'.bytes.Keys == s.bytes.Keys
    requires forall f | f in DataFrames(rs) && f in s.bytes :: s'.bytes[f] == s.bytes[f]
    ensures forall x: nat ::
              Load(s'.bytes, UserPages(s'.tables, s'.root), x) == Load(s.bytes, UserPages(s.tables, s.root), x)
  {
    hide UserPages, AllPages;
    forall x: nat ensures Load(s'.bytes, AllPages(rs), x) == Load(s.bytes, AllPages(rs), x) {
      if PageOf(x) in AllPages(rs) { assert AllPages(rs)[PageOf(x)].ppn in DataFrames(rs); }
    }
  }

  lemma SameAccess(s: Snapshot, s': Snapshot)
    requires NoSupers(s) && NoSupers(s') && s.lim >= UPPER_HALF && s'.lim >= UPPER_HALF
    requires UserPages(s'.tables, s'.root) == UserPages(s.tables, s.root)
    requires forall x: nat ::
               Load(s'.bytes, UserPages(s'.tables, s'.root), x) == Load(s.bytes, UserPages(s.tables, s.root), x)
    ensures forall x: nat | x < USER_MAX_ADDR ::
              && UserReads(s'.tables, s'.bytes, s'.root, x) == UserReads(s.tables, s.bytes, s.root, x)
              && (UserWrites(s'.tables, s'.bytes, s'.root, x) <==> UserWrites(s.tables, s.bytes, s.root, x))
  {
    hide NoSupers, UserPages, Load, UserReads, UserWrites;
    forall x: nat | x < USER_MAX_ADDR
      ensures UserReads(s'.tables, s'.bytes, s'.root, x) == UserReads(s.tables, s.bytes, s.root, x)
      ensures UserWrites(s'.tables, s'.bytes, s'.root, x) <==> UserWrites(s.tables, s.bytes, s.root, x)
    {
      UserAccess(s, s.bytes, x);
      UserAccess(s', s'.bytes, x);
    }
  }

  // ---- the stepping process -----------------------------------------------------------------------

  /** What a step leaves the process with came from what it could reach. */
  lemma ActorHeld(w: World, w': World, st: Step)
    requires Tame(w, w', st)
    ensures st.id in w'.procs ==> Held(w'.procs[st.id]) <= Reach(w, st)
    ensures forall jd | jd in w'.procs && jd != st.id :: jd in w.procs && w'.procs[jd] == w.procs[jd]
    ensures forall jd | jd in w.procs && jd != st.id :: jd in w'.procs
  {
    hide SnapOk, NoSupers, Holds, DataFrames, Agrees, ProcOk, Decoded;
  }

  lemma ActorOk(w: World, w': World, st: Step)
    requires WorldOk(w) && Tame(w, w', st) && st.id in w'.procs
    requires w.kernel.root in Tab(w) && w.kernel.root in Tab(w') && Tab(w')[w.kernel.root] == Tab(w)[w.kernel.root]
    ensures ProcOk(w', w'.procs[st.id])
  {
    hide Holds, DataFrames, Agrees, SnapOk, Decoded;
    if Works(st) { assert ProcOk(w, w.procs[st.id]); }
  }

  /** Every clean step keeps the world in order; the kernel's tables and every process but the stepping one are
      untouched. */
  lemma StepKeeps(w: World, w': World, st: Step)
    requires WorldOk(w) && Next(w, w', st) && Clean(st)
    ensures WorldOk(w')
    ensures w'.kernel == w.kernel && SameViews(Tab(w), Tab(w'), w.kernel.root)
    ensures forall f | f in w.kernel.node.Values && f in Tab(w) :: f in Tab(w') && Tab(w')[f] == Tab(w)[f]
    ensures forall jd | jd in w.procs && jd != st.id ::
              jd in w'.procs && w'.procs[jd] == w.procs[jd] && SameProc(w, w', w.procs[jd])
  {
    hide *;
    var may := Reach(w, st);
    CleanIsTame(w, w', st);
    WorldParts(w);
    KernelApart(w, st);
    StepWithin(w, w', st);
    KernelKept(w, w', may);
    ActorHeld(w, w', st);
    forall jd | jd in w.procs && jd != st.id
      ensures ProcOk(w', w.procs[jd]) && SameProc(w, w', w.procs[jd]) && may !! Held(w.procs[jd])
    {
      ReachApart(w, st, jd);
      ProcKept(w, w', may, w.procs[jd]);
    }
    if st.id in w'.procs { ActorOk(w, w', st); }
    WithinKernel(w, w', may);
    TakenKept(w, w', st);
    WorldIntro(w, w', st.id, may);
  }

  lemma WorldParts(w: World)
    requires WorldOk(w)
    ensures KernelOk(w) && w.kernel.root in w.kernel.node.Values && w.free <= w.bytes.Keys && w.taken <= w.bytes.Keys
    ensures forall id | id in w.procs :: ProcOk(w, w.procs[id])
  {
    hide SnapOk, ProcOk, Held, Decoded;
    RootIsOwned(Snap(w, w.kernel));
  }

  lemma WithinKernel(w: World, w': World, may: set<nat>)
    requires Within(w, w', may)
    ensures w'.kernel == w.kernel
  {
    hide Decoded;
  }

  lemma WorldIntro(w: World, w': World, id: nat, may: set<nat>)
    requires WorldOk(w) && w'.kernel == w.kernel && KernelOk(w')
    requires forall jd | jd in w'.procs && jd != id :: jd in w.procs && w'.procs[jd] == w.procs[jd]
    requires forall jd | jd in w.procs && jd != id :: ProcOk(w', w.procs[jd]) && may !! Held(w.procs[jd])
    requires id in w'.procs ==> ProcOk(w', w'.procs[id]) && Held(w'.procs[id]) <= may
    requires TakenOk(w')
    ensures WorldOk(w')
  {
    hide KernelOk, ProcOk, Held, TakenOk;
  }

  lemma TakenKept(w: World, w': World, st: Step)
    requires WorldOk(w) && Tame(w, w', st) && Within(w, w', Reach(w, st))
    requires st.id in w'.procs ==> Held(w'.procs[st.id]) <= Reach(w, st)
    requires forall jd | jd in w'.procs && jd != st.id :: jd in w.procs && w'.procs[jd] == w.procs[jd]
    ensures TakenOk(w')
  {
    hide KernelOk, ProcOk, DataFrames, Decoded, TablesWithin, Added, Failed, Local, Holds, Agrees, CopyThrough,
         UserStore, BuiltFrom;
    KernelFree(w);
    forall jd | jd in w'.procs ensures w'.taken !! Held(w'.procs[jd]) {
      if jd != st.id && st.Serve? { ProcFree(w, jd); }
    }
  }

  lemma KernelFree(w: World)
    requires KernelOk(w)
    ensures w.free !! w.kernel.node.Values
  {
    hide Decoded, TreeOk;
  }

  lemma ProcFree(w: World, jd: nat)
    requires WorldOk(w) && jd in w.procs
    ensures w.free !! Held(w.procs[jd])
  {
    hide Decoded, TreeOk, KernelOk, DataFrames, RegionsOk, NoSupers, OneToOne, Backed, Agrees, SharesKernel, Translate;
    assert ProcOk(w, w.procs[jd]);
  }

  // ---- whole runs ------------------------------------------------------------------------------------

  /** Any run, failed pushes included. */
  ghost predicate IsRun(ws: seq<World>, steps: seq<Step>) {
    |ws| == |steps| + 1 && WorldOk(ws[0]) && forall i | 0 <= i < |steps| :: Next(ws[i], ws[i + 1], steps[i])
  }

  /** Up to moment `n`, no push failed after it had mapped a page. */
  predicate CleanUpTo(steps: seq<Step>, n: nat) {
    forall i | 0 <= i < |steps| && i < n :: Clean(steps[i])
  }

  /** There are worlds to start from: zeroed memory with an empty kernel table in one frame and all others free. */
  lemma FirstWorld(all: set<nat>, root: nat)
    requires root in all && forall f | f in all :: f < PPN_LIMIT
    ensures WorldOk(World(map f | f in all :: ZeroPage(), all - {root}, {},
                          Tree(root, [root], map[Root := root], PTE_PER_TABLE, {}), map[]))
  {
    hide ZeroPage, TreeOk, HwWalk, Translate;
    var w := World(map f | f in all :: ZeroPage(), all - {root}, {},
                   Tree(root, [root], map[Root := root], PTE_PER_TABLE, {}), map[]);
    ZeroDecodes();
    EmptyTree(Tab(w), root);
    OnlyRoot(root);
    assert w.kernel.node.Values == {root};
  }

  lemma {:induction false} RunKeeps(ws: seq<World>, steps: seq<Step>, n: nat)
    requires IsRun(ws, steps) && n < |ws| && CleanUpTo(steps, n)
    ensures WorldOk(ws[n]) && ws[n].kernel == ws[0].kernel
    ensures SameViews(Tab(ws[0]), Tab(ws[n]), ws[0].kernel.root)
    ensures forall f | f in ws[0].kernel.node.Values && f in Tab(ws[0]) ::
              f in Tab(ws[n]) && Tab(ws[n])[f] == Tab(ws[0])[f]
  {
    hide WorldOk, Next, HwWalk, Translate, Clean, Tab;
    if n > 0 {
      RunKeeps(ws, steps, n - 1);
      assert Next(ws[n - 1], ws[n - 1 + 1], steps[n - 1]) && Clean(steps[n - 1]);
      StepKeeps(ws[n - 1], ws[n], steps[n - 1]);
    }
  }

  /** In one world: below the kernel's root entries, a process's walk and the kernel's are the same walk. */
  lemma UpperIsKernel(w: World, p: Proc, v: nat)
    requires KernelOk(w) && ProcOk(w, p) && Index(v, 0) >= UPPER_HALF
    ensures HwWalk(Tab(w), p.tree.root, v) == HwWalk(Tab(w), w.kernel.root, v)
  {
    hide NoSupers, RegionsOk, OneToOne, Backed, DataFrames, Agrees, Translate, TreeOk, Distinct, Decoded;
    var k := Snap(w, w.kernel);
    assert p.tree.root !in w.kernel.node.Values by { RootIsOwned(Snap(w, p.tree)); }
    SharedEntries(Tab(w), Tab(w), k, p.tree.root, v);
    HwByEntries(Tab(w), p.tree.root, v);
    HwByEntries(Tab(w), w.kernel.root, v);
  }

  /** As long as no push has failed after mapping a page, the kernel half is the same in every space: every process
      translates every kernel page as the kernel did at the start; and the kernel's table frames are never written or
      freed. */
  lemma KernelHalf(ws: seq<World>, steps: seq<Step>, n: nat, id: nat, v: nat)
    requires IsRun(ws, steps) && n < |ws| && CleanUpTo(steps, n) && id in ws[n].procs && Index(v, 0) >= UPPER_HALF
    ensures HwWalk(Tab(ws[n]), ws[n].procs[id].tree.root, v) == HwWalk(Tab(ws[0]), ws[0].kernel.root, v)
    ensures ws[0].kernel.node.Values !! ws[n].free
    ensures forall f | f in ws[0].kernel.node.Values && f in Tab(ws[0]) ::
              f in Tab(ws[n]) && Tab(ws[n])[f] == Tab(ws[0])[f]
  {
    RunKeeps(ws, steps, n);
    hide Decoded, IsRun;
    UpperIsKernel(ws[n], ws[n].procs[id], v);
  }

  /** In every such run that starts with the kernel's windows, none of them for users, user-mode code of every process
      can neither read nor write nor run anything in the upper half. */
  lemma KernelOutOfReach(ws: seq<World>, steps: seq<Step>, n: nat, id: nat, ls: seq<LinearMap.Window>, a: nat)
    requires IsRun(ws, steps) && n < |ws| && CleanUpTo(steps, n) && id in ws[n].procs && LinearMap.WindowsOk(ls)
    requires LinearMap.Windows(Tab(ws[0]), ws[0].kernel.root, ls, |ls|)
    requires LinearMap.Vacancies(Tab(ws[0]), ws[0].kernel.root, ls, |ls|)
    requires forall l | l in ls :: !l.perm.user
    requires 0xffff_ffc0_0000_0000 <= a < 0x1_0000_0000_0000_0000
    ensures var root := ws[n].procs[id].tree.root;
            && UserReads(Tab(ws[n]), ws[n].bytes, root, a).None? && !UserWrites(Tab(ws[n]), ws[n].bytes, root, a)
            && !UserRuns(Tab(ws[n]), ws[n].bytes, root, a)
  {
    hide IsRun, HwWalk, Tab, LinearMap.WindowsOk, LinearMap.Windows, LinearMap.Vacancies, CleanUpTo;
    var v := PageOf(a);
    assert Index(v, 0) >= UPPER_HALF;
    KernelHalf(ws, steps, n, id, v);
    LinearMap.WindowsHidden(Tab(ws[0]), ws[0].kernel.root, ls, v);
  }

  /** Isolation over such runs: as long as a process does not step itself, nothing it can see changes. */
  lemma {:induction false} BystanderSeesNothing(ws: seq<World>, steps: seq<Step>, m: nat, n: nat, jd: nat)
    requires IsRun(ws, steps) && m <= n < |ws| && CleanUpTo(steps, n) && jd in ws[m].procs
    requires forall i | m <= i < n :: steps[i].id != jd
    ensures jd in ws[n].procs && ws[n].procs[jd] == ws[m].procs[jd] && SameProc(ws[m], ws[n], ws[m].procs[jd])
    decreases n
  {
    hide WorldOk, Next, UserPages, Load, SameViews, Tab, UserReads, UserWrites, Clean;
    if n > m {
      BystanderSeesNothing(ws, steps, m, n - 1, jd);
      RunKeeps(ws, steps, n - 1);
      assert Next(ws[n - 1], ws[n - 1 + 1], steps[n - 1]) && Clean(steps[n - 1]);
      StepKeeps(ws[n - 1], ws[n], steps[n - 1]);
    }
  }

  // ---- conservation -----------------------------------------------------------------------------------

  /** The step writes no free frame through a user page. The allocator keeps the nodes of its lists in free frames. */
  ghost predicate Quiet(w: World, w': World, st: Step) {
    st.Copy? || st.Store? ==> forall f | f in w.free && f in w.bytes :: f in w'.bytes && w'.bytes[f] == w.bytes[f]
  }

  ghost predicate QuietUpTo(ws: seq<World>, steps: seq<Step>, n: nat)
    requires |ws| == |steps| + 1
  {
    forall i | 0 <= i < |steps| && i < n :: Quiet(ws[i], ws[i + 1], steps[i])
  }

  /** In a world in order every user page is on a frame of its process, so no clean step writes a free frame that
      way. */
  lemma CleanIsQuiet(w: World, w': World, st: Step)
    requires WorldOk(w) && Next(w, w', st) && Clean(st)
    ensures Quiet(w, w', st)
  {
    hide Next, Act, WorldOk, Clean;
    if st.Copy? || st.Store? {
      HasActor(w, w', st);
      WorldParts(w);
      ProcFree(w, st.id);
      OwnFramesOnly(w, w', st);
    }
  }

  lemma HasActor(w: World, w': World, st: Step)
    requires (st.Copy? || st.Store?) && Next(w, w', st)
    ensures st.id in w.procs
  {
    hide CopyThrough, UserStore, Tab;
  }

  lemma OwnFramesOnly(w: World, w': World, st: Step)
    requires (st.Copy? || st.Store?) && Next(w, w', st) && st.id in w.procs && ProcOk(w, w.procs[st.id])
    ensures BytesWithin(w.bytes, w'.bytes, Held(w.procs[st.id]))
  {
    hide Holds, Agrees, Decoded, CopyTo, CopyThrough, SharesKernel, UserPages, SealedOff, DataFrames, FramesOf,
         NoSupers, UserWrites, HwWalk, Splice, UserStore, BytesWithin;
    var p := w.procs[st.id];
    var s, pages := Snap(w, p.tree), UserPages(Tab(w), p.tree.root);
    AgreesSealed(s, p.regions);
    HoldsParts(s, p.regions);
    SameBytes(w.bytes, FramesOf(pages));
    if st.Copy? {
      CopyIsSimple(w, st.id, st.addr, st.src);
      CopyToFrames(w.bytes, pages, st.addr, st.src);
    } else if UserWrites(Tab(w), w.bytes, p.tree.root, st.addr) {
      StoreIsCopy(s, w.bytes, st.addr, st.byte);
      CopyToFrames(w.bytes, pages, st.addr, [st.byte]);
    } else {
      NoStore(w, p.tree.root, st.addr, st.byte);
    }
    MoreFrames(w.bytes, w'.bytes, FramesOf(pages), Held(p));
  }

  lemma NoStore(w: World, root: nat, addr: nat, b: Byte)
    requires !UserWrites(Tab(w), w.bytes, root, addr)
    ensures UserStore(Tab(w), w.bytes, root, addr, b) == w.bytes
  {
    hide UserWrites, HwWalk;
  }

  lemma MoreFrames(a: Bytes, b: Bytes, may: set<nat>, more: set<nat>)
    requires BytesWithin(a, b, may) && may <= more
    ensures BytesWithin(a, b, more)
  {
  }

  lemma {:induction false} CleanRunIsQuiet(ws: seq<World>, steps: seq<Step>, n: nat)
    requires IsRun(ws, steps) && n < |ws| && CleanUpTo(steps, n)
    ensures QuietUpTo(ws, steps, n)
  {
    hide WorldOk, Next, Clean, Quiet, SameViews, Tab;
    forall i | 0 <= i < |steps| && i < n ensures Quiet(ws[i], ws[i + 1], steps[i]) {
      RunKeeps(ws, steps, i);
      assert Next(ws[i], ws[i + 1], steps[i]) && Clean(steps[i]);
      CleanIsQuiet(ws[i], ws[i + 1], steps[i]);
    }
  }

  /** Every frame that is free, the kernel's or held by a process. */
  ghost function AllFrames(w: World): (r: set<nat>)
    ensures w.free <= r && w.taken <= r
    ensures forall id | id in w.procs :: Held(w.procs[id]) <= r
    ensures forall f | f in r :: f in w.free || f in w.taken || exists id :: id in w.procs && f in Held(w.procs[id])
  {
    w.free + w.taken + set id, f | id in w.procs && f in Held(w.procs[id]) :: f
  }

  /** Whoever steps and the free frames together have what they had; nobody else has more or less. */
  lemma ActorConserves(w: World, w': World, st: Step)
    requires Next(w, w', st)
    ensures Reach(w', st) == Reach(w, st) && (st.Serve? || w'.taken == w.taken)
    ensures forall jd | jd in w'.procs && jd != st.id :: jd in w.procs && w'.procs[jd] == w.procs[jd]
    ensures forall jd | jd in w.procs && jd != st.id :: jd in w'.procs
  {
    hide Holds, DataFrames, Agrees, ProcOk, Decoded, Added, Failed, Left, UserPages, CopyThrough, UserStore, Local,
         SharesKernel, TablesWithin, BytesWithin;
    match st
    case Grow(id, r) =>
      AddedParts(Snap(w, w.procs[id].tree), Snap(w', w'.procs[id].tree), w.procs[id].regions, r);
      LocalConserves(w, w', st);
    case FailGrow(id, last, left) =>
      FailedParts(Snap(w, w.procs[id].tree), Snap(w', w'.procs[id].tree), w.procs[id].regions, left);
      LocalConserves(w, w', st);
    case _ =>
  }

  lemma LocalConserves(w: World, w': World, st: Step)
    requires !st.Serve? && Changes(w, w', st.id)
    requires Local(Snap(w, w.procs[st.id].tree), w.procs[st.id].regions, Snap(w', w'.procs[st.id].tree),
                   w'.procs[st.id].regions)
    ensures Reach(w', st) == Reach(w, st)
  {
    hide DataFrames, Decoded, TablesWithin, BytesWithin;
  }

  lemma StepConserves(w: World, w': World, st: Step)
    requires Next(w, w', st)
    ensures AllFrames(w') == AllFrames(w)
  {
    hide Next, Held, Reach, AllFrames;
    ActorConserves(w, w', st);
    forall f | f in AllFrames(w') ensures f in AllFrames(w) { FrameSource(w', w, st, f); }
    forall f | f in AllFrames(w) ensures f in AllFrames(w') { FrameSource(w, w', st, f); }
  }

  lemma FrameSource(a: World, b: World, st: Step, f: nat)
    requires Reach(a, st) == Reach(b, st) && f in AllFrames(a) && (st.Serve? || b.taken == a.taken)
    requires forall jd | jd in a.procs && jd != st.id :: jd in b.procs && b.procs[jd] == a.procs[jd]
    ensures f in AllFrames(b)
  {
    hide Held;
    if f !in Reach(a, st) && f !in a.taken {
      var jd :| jd in a.procs && f in Held(a.procs[jd]);
      assert f in Held(b.procs[jd]);
    }
  }

  /** No operation loses a frame: those that count as free, the kernel's and those held by processes stay the same set.
      How long the allocator can find those that count as free is `FreeLists.RunConservesLists`. */
  lemma {:induction false} RunConserves(ws: seq<World>, steps: seq<Step>, n: nat)
    requires IsRun(ws, steps) && n < |ws|
    ensures AllFrames(ws[n]) == AllFrames(ws[0])
    ensures ws[0].procs == map[] && ws[n].procs == map[] ==> ws[n].free + ws[n].taken == ws[0].free + ws[0].taken
  {
    hide WorldOk, Next, Held;
    if n > 0 {
      RunConserves(ws, steps, n - 1);
      assert Next(ws[n - 1], ws[n - 1 + 1], steps[n - 1]);
      StepConserves(ws[n - 1], ws[n], steps[n - 1]);
    }
  }

  // ---- after a push that failed halfway ---------------------------------------------------------------------

  /** A new, empty process whose root table is in frame `f`. */
  function Newborn(w: World, f: nat): Proc {
    Proc(Tree(f, [f], map[Root := f], UPPER_HALF, w.kernel.node.Values), [])
  }

  function CreateOn(w: World, jd: nat, f: nat): World
    requires f in w.bytes && w.kernel.root in w.bytes
  {
    w.(bytes := w.bytes[f := JoinHalves(ZeroPage(), w.bytes[w.kernel.root])], free := w.free - {f},
       procs := w.procs[jd := Newborn(w, f)])
  }

  lemma OnlyRoot(f: nat)
    ensures map[Root := f].Values == {f}
  {
    var node := map[Root := f];
    assert f == node[Root] && Root in node;
  }

  /** The table of such a process is what sharing the kernel half leaves of an empty one. */
  lemma NewbornTable(w: World, jd: nat, f: nat)
    requires KernelOk(w) && f in w.free && f in w.bytes && w.kernel.root in w.bytes
    ensures var s := Snap(CreateOn(w, jd, f), Newborn(w, f).tree);
            && SnapOk(s) && f in s.tables && (forall i: nat | i < UPPER_HALF :: s.tables[f][i] == EMPTY)
            && SharesKernel(s.tables, f, w.kernel.root)
  {
    hide Decoded, Decode, JoinHalves, ZeroPage, TreeOk, HwWalk, Translate;
    var zero := w.bytes[f := ZeroPage()];
    var k := Snap(w, w.kernel);
    var k1 := k.(tables := Decoded(zero), bytes := zero, free := w.free - {f});
    var a := Snapshot(Decoded(zero), zero, w.free - {f}, f, [f], map[Root := f], PTE_PER_TABLE, {});
    var b := Snap(CreateOn(w, jd, f), Newborn(w, f).tree);
    FreeIsNotOwned(k, f);
    RootIsOwned(k);
    DecodedUpdate(w.bytes, f, ZeroPage());
    ZeroDecodes();
    KernelUntouched(k, k1, f);
    EmptyTree(a.tables, f);
    assert a.node.Values == {f};
    JoinedRoot(w.bytes, f, w.kernel.root);
    ShareSnap(a, k1, b);
    SharedRoot(a.tables, b.tables, f, w.kernel.root);
  }

  lemma KernelUntouched(k: Snapshot, k': Snapshot, f: nat)
    requires SnapOk(k) && f in k.free && k' == k.(tables := k'.tables, bytes := k'.bytes, free := k.free - {f})
    requires TablesWithin(k.tables, k'.tables, {f})
    ensures SnapOk(k') && SameViews(k.tables, k'.tables, k.root)
  {
    FreeIsNotOwned(k, f);
    OtherTable(k, k');
  }

  lemma JoinedRoot(bytes: Bytes, f: nat, root: nat)
    requires f in bytes && root in bytes && f != root
    ensures var zero := Decoded(bytes[f := ZeroPage()]);
            Decoded(bytes[f := JoinHalves(ZeroPage(), bytes[root])]) == zero[f := JoinTables(zero[f], zero[root])]
  {
    hide Decoded, Decode, JoinHalves, ZeroPage;
    var page := JoinHalves(ZeroPage(), bytes[root]);
    DecodedUpdate(bytes, f, ZeroPage());
    DecodedUpdate(bytes, f, page);
    JoinDecodes(ZeroPage(), bytes[root]);
  }

  /** Any free frame can become the root of the next process. */
  lemma CreateIsStep(w: World, jd: nat, f: nat)
    requires KernelOk(w) && f in w.free && w.free <= w.bytes.Keys && w.kernel.root in w.bytes && jd !in w.procs
    ensures Next(w, CreateOn(w, jd, f), Create(jd))
  {
    hide Decoded, SnapOk, SharesKernel, JoinHalves, NoSupers, Holds, Agrees, Translate;
    var w' := CreateOn(w, jd, f);
    var s := Snap(w', Newborn(w, f).tree);
    NewbornTable(w, jd, f);
    EmptyLower(s);
    FreshSpace(s);
    DecodedWithin(w.bytes, w'.bytes, {f});
    OnlyRoot(f);
    FirstBuilt(Snap(w, w.kernel), s);
  }

  /** After process `id` failed to grow: page `v` of it maps the free frame `f`, writable. */
  ghost predicate Exposed(w: World, id: nat, v: nat, f: nat) {
    && KernelOk(w) && w.kernel.root in w.bytes && w.free <= w.bytes.Keys
    && id in w.procs && Usable(w, w.procs[id]) && f in w.free && UserPage(v) && WritesTo(w, id, v, f)
  }

  ghost predicate WritesTo(w: World, id: nat, v: nat, f: nat)
    requires id in w.procs
  {
    var pages := UserPages(Tab(w), w.procs[id].tree.root);
    v in pages && KernelWrites(pages[v]) && pages[v].ppn == f
  }

  lemma FailureExposes(w: World, w1: World, st: Step, v: nat)
    requires WorldOk(w) && Next(w, w1, st) && !Clean(st) && st.left.perm.write && st.left.perm.user
    ensures st.left.first in st.left.frames && st.left.frames.Keys == PageRange(st.left.first, st.left.last)
    ensures v in st.left.frames ==> Exposed(w1, st.id, v, st.left.frames[v])
  {
    hide Holds, Agrees, Local, Failed, Left, Decoded, SharesKernel, UserPages, SnapOk, UserPage, TakenOk;
    var p, left := w.procs[st.id], st.left;
    assert ProcOk(w, p);
    var s, s1 := Snap(w, p.tree), Snap(w1, w1.procs[st.id].tree);
    var taken :| Left(s, s1, left, left.first, st.last, left.perm, taken);
    FailedParts(s, s1, p.regions, left);
    LeftGuard(s, s1, left, left.first, st.last, left.perm, taken);
    LeftKeys(s, s1, left, left.first, st.last, left.perm, taken);
    if v in left.frames { LeftPage(s, s1, left, left.first, st.last, left.perm, taken, v); }
    HoldsParts(s1, p.regions);
    WorldParts(w);
    KernelApart(w, st);
    LocalWithin(w, w1, st);
    KernelKept(w, w1, Reach(w, st));
    LocalFields(s, p.regions, s1, p.regions);
  }

  lemma LeftKeys(a: Snapshot, b: Snapshot, left: Region, first: nat, last: nat, perm: Flags, taken: bool)
    requires Left(a, b, left, first, last, perm, taken)
    ensures left.frames.Keys == PageRange(first, left.last)
  {
    hide UserPages, Vacant, FramesNeeded, Translate;
  }

  lemma AllUserPages(tables: Tables, root: nat)
    ensures forall v | v in UserPages(tables, root) :: UserPage(v)
  {
    hide Translate;
  }

  lemma LeftPage(a: Snapshot, b: Snapshot, left: Region, first: nat, last: nat, perm: Flags, taken: bool, v: nat)
    requires Left(a, b, left, first, last, perm, taken) && v in left.frames
    ensures var pages := UserPages(b.tables, b.root);
            v in pages && pages[v] == Pte(left.frames[v], Present(perm)) && UserPage(v)
    ensures left.frames[v] in b.free
  {
    AllUserPages(b.tables, b.root);
    hide UserPages, Vacant, FramesNeeded, Translate, UserPage;
    assert left.frames[v] in left.frames.Values;
  }

  lemma LocalWithin(w: World, w': World, st: Step)
    requires Changes(w, w', st.id) && w'.free <= w'.bytes.Keys
    requires Local(Snap(w, w.procs[st.id].tree), w.procs[st.id].regions, Snap(w', w'.procs[st.id].tree),
                   w'.procs[st.id].regions)
    ensures Within(w, w', Reach(w, st))
  {
    hide DataFrames, Decoded;
  }

  lemma LocalFields(a: Snapshot, ra: seq<Region>, b: Snapshot, rb: seq<Region>)
    requires Local(a, ra, b, rb)
    ensures b.root == a.root && b.lim == a.lim && b.shared == a.shared
  {
    hide DataFrames;
  }

  lemma ExposedParts(w: World, id: nat, v: nat, f: nat)
    requires Exposed(w, id, v, f)
    ensures KernelOk(w) && w.kernel.root in w.bytes && w.free <= w.bytes.Keys && f in w.free && f in w.bytes
    ensures f < PPN_LIMIT
    ensures id in w.procs && UserPage(v) && WritesTo(w, id, v, f)
  {
    hide SnapOk, Usable, Decoded, WritesTo, UserPage;
  }

  /** The process does not notice that another one is made on a free frame, be it `f` or not. */
  lemma StillWrites(w: World, id: nat, jd: nat, v: nat, f: nat, g: nat)
    requires Exposed(w, id, v, f) && jd !in w.procs && g in w.free && g in w.bytes && w.kernel.root in w.bytes
    ensures var w2 := CreateOn(w, jd, g);
            id in w2.procs && w2.procs[id] == w.procs[id] && Usable(w2, w2.procs[id]) && WritesTo(w2, id, v, f)
  {
    hide Holds, UserPages, Decoded, SnapOk, NoSupers, RegionsOk, OneToOne, DataFrames, Backed, JoinHalves, UserPage,
         SameViews, KernelOk;
    var w2, p := CreateOn(w, jd, g), w.procs[id];
    DecodedWithin(w.bytes, w2.bytes, {g});
    FrameTaken(Snap(w, p.tree), Snap(w2, p.tree), p.regions, g);
  }

  lemma FrameTaken(s: Snapshot, s': Snapshot, rs: seq<Region>, f: nat)
    requires Holds(s, rs) && f in s.free && s' == s.(tables := s'.tables, bytes := s'.bytes, free := s.free - {f})
    requires TablesWithin(s.tables, s'.tables, {f}) && BytesWithin(s.bytes, s'.bytes, {f})
    ensures Holds(s', rs) && UserPages(s'.tables, s'.root) == UserPages(s.tables, s.root)
  {
    hide Holds, UserPages, SnapOk, NoSupers, RegionsOk, OneToOne, DataFrames, Backed, SameViews;
    HoldsParts(s, rs);
    FreeApart(s);
    HoldsElsewhere(s, s', rs);
  }

  lemma CreateKernel(w: World, jd: nat, g: nat)
    requires KernelOk(w) && g in w.free && g in w.bytes && w.kernel.root in w.bytes
    ensures var w2 := CreateOn(w, jd, g);
            KernelOk(w2) && w2.bytes.Keys == w.bytes.Keys && w2.free == w.free - {g} && w2.kernel == w.kernel
  {
    hide SnapOk, Decoded, JoinHalves, SameViews;
    var w2 := CreateOn(w, jd, g);
    DecodedWithin(w.bytes, w2.bytes, {g});
    KernelUntouched(Snap(w, w.kernel), Snap(w2, w.kernel), g);
  }

  /** The page is still exposed if the allocator picked another frame. */
  lemma StillExposed(w: World, id: nat, jd: nat, v: nat, f: nat, g: nat)
    requires Exposed(w, id, v, f) && jd !in w.procs && g in w.free && g != f && g in w.bytes && w.kernel.root in w.bytes
    ensures Exposed(CreateOn(w, jd, g), id, v, f)
  {
    hide KernelOk, Usable, WritesTo, UserPage, CreateOn;
    ExposedParts(w, id, v, f);
    StillWrites(w, id, jd, v, f, g);
    CreateKernel(w, jd, g);
  }

  /** Nor that the allocator writes free frames. */
  lemma ShuffledExposed(w: World, w': World, id: nat, v: nat, f: nat)
    requires Exposed(w, id, v, f) && w' == w.(bytes := w'.bytes) && BytesWithin(w.bytes, w'.bytes, w.free)
    ensures Exposed(w', id, v, f)
  {
    hide Holds, UserPages, Decoded, SnapOk, NoSupers, RegionsOk, OneToOne, DataFrames, Backed, UserPage, SameViews,
         AllPages, Translate, Kept, SlotsKept;
    var p := w.procs[id];
    var s, s' := Snap(w, p.tree), Snap(w', p.tree);
    DecodedWithin(w.bytes, w'.bytes, w.free);
    Shuffled(Snap(w, w.kernel), Snap(w', w.kernel), 0);
    HoldsParts(s, p.regions);
    FreeApart(s);
    ShuffledUntouched(s, s');
    ApartFree(s, p.regions);
    HoldsElsewhere(s, s', p.regions);
  }

  /** A process can be made after the allocator wrote free frames. */
  lemma CreateShuffled(w: World, w': World, jd: nat, f: nat)
    requires KernelOk(w) && f in w.free && w.free <= w.bytes.Keys && w.kernel.root in w.bytes && jd !in w.procs
    requires KernelOk(w') && w' == w.(bytes := w'.bytes) && BytesWithin(w.bytes, w'.bytes, w.free)
    ensures f in w'.bytes && w.kernel.root in w'.bytes && Next(w, CreateOn(w', jd, f), Create(jd))
  {
    hide Decoded, SnapOk, SharesKernel, JoinHalves, Holds, Agrees, KernelOk, ProcOk;
    CreateIsStep(w', jd, f);
    DecodedWithin(w.bytes, w'.bytes, w.free);
    var after := CreateOn(w', jd, f);
    BuiltAfter(Snap(w, w.kernel), Snap(w', w.kernel), Snap(after, after.procs[jd].tree), after.procs[jd].regions);
  }

  lemma BuiltAfter(m: Snapshot, m': Snapshot, c: Snapshot, rs: seq<Region>)
    requires BuiltFrom(m', c, rs) && m' == m.(tables := m'.tables, bytes := m'.bytes)
    requires TablesWithin(m.tables, m'.tables, m.free) && BytesWithin(m.bytes, m'.bytes, m.free)
    ensures BuiltFrom(m, c, rs)
  {
    hide DataFrames;
  }

  /** Through the page, a copy puts any page into the frame. */
  lemma CopyIntoFrame(w: World, id: nat, v: nat, f: nat, page: Page)
    requires id in w.procs && UserPage(v) && WritesTo(w, id, v, f) && f in w.bytes
    ensures Next(w, w.(bytes := w.bytes[f := page]), Copy(id, v * PAGE_SIZE, page))
  {
    hide UserPages, Decoded, CopyThrough;
    CopyPage(w.bytes, w.procs[id].tree.root, v, page);
  }

  // ---- whatever frames the allocator picks ---------------------------------------------------------------

  /** `picks` are the frames of `free`, in the order in which the allocator hands them out. */
  ghost predicate Order(picks: seq<nat>, free: set<nat>) {
    Distinct(picks) && forall f :: f in free <==> f in picks
  }

  /** An empty process was made on frame `g`. */
  ghost predicate MadeOn(w: World, w': World, st: Step, g: nat) {
    st.Create? && st.id !in w.procs && g in w.free && g in w.bytes && w.kernel.root in w.bytes
        && w' == CreateOn(w, st.id, g)
  }

  /** Processes are made on the first frames of `picks`, the last one on frame number `n`. */
  ghost predicate Making(ws: seq<World>, steps: seq<Step>, w: World, picks: seq<nat>, n: nat) {
    && Follows(ws, steps, w) && n < |picks| && n < |steps|
    && (forall i | 0 <= i <= n :: MadeOn(ws[i], ws[i + 1], steps[i], picks[i]))
  }

  /** The worlds until frame `f` has its turn. */
  lemma {:induction false} MakeUntil(w: World, id: nat, v: nat, f: nat, picks: seq<nat>)
    returns (n: nat, ws: seq<World>, steps: seq<Step>)
    requires Exposed(w, id, v, f) && f in picks && Distinct(picks) && forall g | g in picks :: g in w.free
    ensures |steps| == n + 1 && |ws| == n + 2 && n < |picks| && Making(ws, steps, w, picks, n)
    ensures picks[n] == f && Exposed(ws[n], id, v, f) && steps[n].id != id
    decreases |picks|
  {
    hide *;
    ExposedParts(w, id, v, f);
    var jd := FreshId(w.procs);
    var g := picks[0];
    assert g in picks;
    FreeHasBytes(w, g);
    CreateIsStep(w, jd, g);
    FirstMade(w, jd, g);
    var w2 := CreateOn(w, jd, g);
    if g == f {
      n, ws, steps := 0, [w, w2], [Create(jd)];
      MadeFirst(w, w2, Create(jd), picks);
    } else {
      StillExposed(w, id, jd, v, f, g);
      CreateKernel(w, jd, g);
      LaterPicks(picks, w.free, f);
      var m, ws', steps' := MakeUntil(w2, id, v, f, picks[1..]);
      n, ws, steps := m + 1, [w] + ws', [Create(jd)] + steps';
      OneMore(w, w2, Create(jd), ws', steps', picks, m);
      assert ws[n] == ws'[m] && steps[n] == steps'[m] && picks[n] == picks[1..][m];
    }
  }

  lemma FreeHasBytes(w: World, g: nat)
    requires w.free <= w.bytes.Keys && g in w.free
    ensures g in w.bytes
  {
  }

  lemma FirstMade(w: World, jd: nat, g: nat)
    requires jd !in w.procs && g in w.free && g in w.bytes && w.kernel.root in w.bytes
    ensures MadeOn(w, CreateOn(w, jd, g), Create(jd), g)
  {
    hide CreateOn;
  }

  lemma MadeFirst(w: World, w2: World, st: Step, picks: seq<nat>)
    requires picks != [] && MadeOn(w, w2, st, picks[0]) && Next(w, w2, st)
    ensures Making([w, w2], [st], w, picks, 0)
  {
    hide Next, MadeOn;
  }

  lemma LaterPicks(picks: seq<nat>, free: set<nat>, f: nat)
    requires picks != [] && Distinct(picks) && (forall g | g in picks :: g in free) && f in picks && picks[0] != f
    ensures f in picks[1..] && Distinct(picks[1..]) && forall g | g in picks[1..] :: g in free - {picks[0]}
  {
    forall g | g in picks[1..] ensures g in free - {picks[0]} { assert g in picks; }
  }

  lemma OneMore(w: World, w2: World, st: Step, ws: seq<World>, steps: seq<Step>, picks: seq<nat>, m: nat)
    requires picks != [] && MadeOn(w, w2, st, picks[0]) && Next(w, w2, st) && Making(ws, steps, w2, picks[1..], m)
    ensures Making([w] + ws, [st] + steps, w, picks, m + 1)
  {
    hide Next, MadeOn;
    var ws', steps' := [w] + ws, [st] + steps;
    forall i | 0 <= i < |steps'| ensures Next(ws'[i], ws'[i + 1], steps'[i]) {
      if i > 0 { assert Next(ws[i - 1], ws[i - 1 + 1], steps[i - 1]); }
    }
    forall i | 0 <= i <= m + 1 ensures MadeOn(ws'[i], ws'[i + 1], steps'[i], picks[i]) {
      if i > 0 { assert MadeOn(ws[i - 1], ws[i - 1 + 1], steps[i - 1], picks[1..][i - 1]); }
    }
  }

  /** A run from `w` in which processes are made, on frames as picked, until one of them, doing nothing itself, sees
      something else after a copy into process `id`. */
  ghost predicate ViewBroken(w: World, id: nat, picks: seq<nat>, n: nat, ws: seq<World>, steps: seq<Step>) {
    && Making(ws, steps, w, picks, n) && |steps| == n + 2 && steps[n + 1].Copy? && steps[n + 1].id == id
    && steps[n].id != id
    && steps[n].id in ws[n + 1].procs && !SameProc(ws[n + 1], ws[n + 2], ws[n + 1].procs[steps[n].id])
  }

  /** The same until one of them translates kernel page `u` differently from the kernel. */
  ghost predicate HalfBroken(w: World, id: nat, picks: seq<nat>, n: nat, ws: seq<World>, steps: seq<Step>, u: nat) {
    && Making(ws, steps, w, picks, n) && |steps| == n + 2 && steps[n + 1].Copy? && steps[n + 1].id == id
    && steps[n].id != id
    && steps[n].id in ws[n + 2].procs && Index(u, 0) >= UPPER_HALF
    && (var w' := ws[n + 2]; HwWalk(Tab(w'), w'.procs[steps[n].id].tree.root, u) != HwWalk(Tab(w'), w'.kernel.root, u))
  }

  /** After a push of writable pages that failed with a page mapped: whatever frames the allocator picks, once enough
      processes have been made one of them has the frame for its root, and then both can happen to it. */
  lemma FailureBreaks(w: World, w1: World, st: Step, picks: seq<nat>)
    requires WorldOk(w) && Next(w, w1, st) && !Clean(st) && st.left.perm.write && st.left.perm.user
    requires Order(picks, w1.free)
    ensures exists n, ws, steps :: ViewBroken(w1, st.id, picks, n, ws, steps)
    ensures exists n, ws, steps, u :: HalfBroken(w1, st.id, picks, n, ws, steps, u)
  {
    hide *;
    DirtyPush(st);
    var v := st.left.first;
    FailureExposes(w, w1, st, v);
    var f := st.left.frames[v];
    ExposedParts(w1, st.id, v, f);
    OrderParts(picks, w1.free);
    var n, ws, steps := MakeUntil(w1, st.id, v, f, picks);
    MakingParts(ws, steps, w1, picks, n);
    BreakView(ws[n], st.id, steps[n].id, v, f);
    var pageV := ViewPage(f);
    EndWith(w1, st.id, picks, n, ws, steps, v, f, pageV);
    ViewBrokenIntro(w1, st.id, picks, n, ws, steps, v, f);
    var pageK, u := BreakHalf(ws[n], st.id, steps[n].id, v, f);
    EndWith(w1, st.id, picks, n, ws, steps, v, f, pageK);
    HalfBrokenIntro(w1, st.id, picks, n, ws, steps, v, f, pageK, u);
  }

  lemma OrderParts(picks: seq<nat>, free: set<nat>)
    requires Order(picks, free)
    ensures Distinct(picks) && (forall f | f in free :: f in picks) && forall f | f in picks :: f in free
  {
    hide Distinct;
  }

  lemma MakingParts(ws: seq<World>, steps: seq<Step>, w: World, picks: seq<nat>, n: nat)
    requires Making(ws, steps, w, picks, n) && |steps| == n + 1
    ensures |ws| == n + 2 && MadeOn(ws[n], ws[n + 1], steps[n], picks[n])
    ensures steps[n].Create? && steps[n].id !in ws[n].procs && picks[n] in ws[n].bytes
    ensures ws[n].kernel.root in ws[n].bytes
    ensures ws[n + 1] == CreateOn(ws[n], steps[n].id, picks[n])
  {
    hide Next, CreateOn;
  }

  /** The last copy of such a run. */
  function LastCopy(w: World, f: nat, page: Page): World
    requires f in w.bytes
  {
    w.(bytes := w.bytes[f := page])
  }

  lemma EndWith(w: World, id: nat, picks: seq<nat>, n: nat, ws: seq<World>, steps: seq<Step>, v: nat, f: nat,
                page: Page)
    requires |steps| == n + 1 && Making(ws, steps, w, picks, n) && |ws| == n + 2 && picks[n] == f
    requires Exposed(ws[n], id, v, f) && steps[n].id !in ws[n].procs && f in ws[n].bytes
    requires ws[n].kernel.root in ws[n].bytes
    requires ws[n + 1] == CreateOn(ws[n], steps[n].id, f)
    ensures f in ws[n + 1].bytes
    ensures Making(ws + [LastCopy(ws[n + 1], f, page)], steps + [Copy(id, v * PAGE_SIZE, page)], w, picks, n)
  {
    hide *;
    ExposedParts(ws[n], id, v, f);
    StillWrites(ws[n], id, steps[n].id, v, f, f);
    CreateKernel(ws[n], steps[n].id, f);
    CopyIntoFrame(ws[n + 1], id, v, f, page);
    LastCopyIs(ws[n + 1], f, page);
    OneLater(ws, steps, w, picks, n, LastCopy(ws[n + 1], f, page), Copy(id, v * PAGE_SIZE, page));
  }

  lemma LastCopyIs(w: World, f: nat, page: Page)
    requires f in w.bytes
    ensures LastCopy(w, f, page) == w.(bytes := w.bytes[f := page])
  {
  }

  lemma OneLater(ws: seq<World>, steps: seq<Step>, w: World, picks: seq<nat>, n: nat, w': World, st: Step)
    requires Making(ws, steps, w, picks, n) && |ws| == |steps| + 1 && Next(ws[|steps|], w', st)
    ensures Making(ws + [w'], steps + [st], w, picks, n)
  {
    hide Next, MadeOn;
    var ws', steps' := ws + [w'], steps + [st];
    forall i | 0 <= i < |steps'| ensures Next(ws'[i], ws'[i + 1], steps'[i]) {
      if i < |steps| { assert Next(ws[i], ws[i + 1], steps[i]); }
    }
    forall i | 0 <= i <= n ensures MadeOn(ws'[i], ws'[i + 1], steps'[i], picks[i]) {
      assert MadeOn(ws[i], ws[i + 1], steps[i], picks[i]);
    }
  }

  /** A page that makes a root map its own frame for the user. */
  function ViewPage(f: nat): Page {
    TakeoverPage(f, Pte(f, OPEN), 0, 1, 0)
  }

  lemma BreakView(w: World, id: nat, jd: nat, v: nat, f: nat)
    requires Exposed(w, id, v, f) && jd !in w.procs && f in w.bytes && w.kernel.root in w.bytes
    ensures var w2 := CreateOn(w, jd, f);
            && f in w2.bytes && jd in w2.procs && !SameProc(w2, LastCopy(w2, f, ViewPage(f)), w2.procs[jd])
  {
    hide Exposed, Next, KernelOk, Decoded, JoinHalves, TakeoverPage, UserReads, SameProc, Target;
    ExposedParts(w, id, v, f);
    CreateIsStep(w, jd, f);
    var w2 := CreateOn(w, jd, f);
    NewbornReads(w, w2, jd, Target());
    RootTaken(w2.bytes, f, 0);
    NotSame(w2, LastCopy(w2, f, ViewPage(f)), w2.procs[jd], Target());
  }

  lemma NewbornReads(w1: World, w2: World, jd: nat, x: nat)
    requires Next(w1, w2, Create(jd)) && jd in w2.procs && w2.procs[jd].regions == [] && x < USER_MAX_ADDR
    ensures UserReads(Tab(w2), w2.bytes, w2.procs[jd].tree.root, x) == None
  {
    hide Holds, Agrees, Decoded, UserReads, BuiltFrom, SharesKernel;
    NothingRead(Snap(w2, w2.procs[jd].tree), x);
  }

  lemma NotSame(w: World, w': World, p: Proc, x: nat)
    requires x < USER_MAX_ADDR
    requires UserReads(Tab(w'), w'.bytes, p.tree.root, x) != UserReads(Tab(w), w.bytes, p.tree.root, x)
    ensures !SameProc(w, w', p)
  {
    hide UserPages, UserReads, UserWrites, Load, Tab;
  }

  lemma ViewBrokenIntro(w: World, id: nat, picks: seq<nat>, n: nat, ws: seq<World>, steps: seq<Step>, v: nat, f: nat)
    requires |steps| == n + 1 && |ws| == n + 2 && f in ws[n + 1].bytes && steps[n].id != id
    requires Making(ws + [LastCopy(ws[n + 1], f, ViewPage(f))], steps + [Copy(id, v * PAGE_SIZE, ViewPage(f))], w,
                    picks, n)
    requires steps[n].id in ws[n + 1].procs
    requires !SameProc(ws[n + 1], LastCopy(ws[n + 1], f, ViewPage(f)), ws[n + 1].procs[steps[n].id])
    ensures exists m, ws', steps' :: ViewBroken(w, id, picks, m, ws', steps')
  {
    hide Making, SameProc, LastCopy, ViewPage;
    var ws', steps' := ws + [LastCopy(ws[n + 1], f, ViewPage(f))], steps + [Copy(id, v * PAGE_SIZE, ViewPage(f))];
    assert ViewBroken(w, id, picks, n, ws', steps');
  }

  /** A page that makes a root map a kernel page unlike the kernel. */
  lemma BreakHalf(w: World, id: nat, jd: nat, v: nat, f: nat) returns (page: Page, u: nat)
    requires Exposed(w, id, v, f) && jd !in w.procs && f in w.bytes && w.kernel.root in w.bytes
    ensures var w2 := CreateOn(w, jd, f);
            && f in w2.bytes && jd in w2.procs && w2.procs[jd].tree.root == f && Index(u, 0) >= UPPER_HALF
            && (var w3 := LastCopy(w2, f, page); HwWalk(Tab(w3), f, u) != HwWalk(Tab(w3), w3.kernel.root, u))
  {
    hide Exposed, KernelOk, Decoded, JoinHalves, TakeoverPage, HwWalk, Index, Translate, PageUnder;
    ExposedParts(w, id, v, f);
    var w2 := CreateOn(w, jd, f);
    u := PageUnder(Root, UPPER_HALF, UPPER_HALF + 1);
    var kernel := HwWalk(Tab(w2), w.kernel.root, u);
    var flags := if kernel == Some(Mapping(f, OPEN)) then OPEN.(exec := true) else OPEN;
    page := TakeoverPage(f, Pte(f, flags), UPPER_HALF, UPPER_HALF + 1, 0);
    RootTakeover(w2.bytes, f, Pte(f, flags), UPPER_HALF, UPPER_HALF + 1, 0);
    KernelViews(w, jd, f, page);
  }

  lemma KernelViews(w: World, jd: nat, f: nat, page: Page)
    requires KernelOk(w) && f in w.free && f in w.bytes && w.kernel.root in w.bytes
    ensures var w2 := CreateOn(w, jd, f);
            f in w2.bytes && SameViews(Tab(w2), Tab(LastCopy(w2, f, page)), w.kernel.root)
  {
    hide SnapOk, Decoded, JoinHalves, HwWalk, Translate;
    var w2 := CreateOn(w, jd, f);
    var w3 := LastCopy(w2, f, page);
    var k, k2, k3 := Snap(w, w.kernel), Snap(w2, w.kernel), Snap(w3, w.kernel);
    FreeIsNotOwned(k, f);
    FreeApart(k);
    DecodedWithin(w.bytes, w2.bytes, {f});
    DecodedWithin(w2.bytes, w3.bytes, {f});
    OtherTable(k, k2);
    OtherTable(k2, k3);
  }

  lemma HalfBrokenIntro(w: World, id: nat, picks: seq<nat>, n: nat, ws: seq<World>, steps: seq<Step>, v: nat, f: nat,
                        page: Page, u: nat)
    requires |steps| == n + 1 && |ws| == n + 2 && f in ws[n + 1].bytes && steps[n].id != id && Index(u, 0) >= UPPER_HALF
    requires Making(ws + [LastCopy(ws[n + 1], f, page)], steps + [Copy(id, v * PAGE_SIZE, page)], w, picks, n)
    requires steps[n].id in ws[n + 1].procs && ws[n + 1].procs[steps[n].id].tree.root == f
    requires var w3 := LastCopy(ws[n + 1], f, page); HwWalk(Tab(w3), f, u) != HwWalk(Tab(w3), w3.kernel.root, u)
    ensures exists m, ws', steps', u' :: HalfBroken(w, id, picks, m, ws', steps', u')
  {
    hide Making, HwWalk, Tab, Index;
    var ws', steps' := ws + [LastCopy(ws[n + 1], f, page)], steps + [Copy(id, v * PAGE_SIZE, page)];
    assert HalfBroken(w, id, picks, n, ws', steps', u);
  }

  // ---- the exact condition ----------------------------------------------------------------------------

  /** Whatever clean steps follow, no process sees anything change that it did not do itself. */
  ghost predicate Isolating(w: World) {
    forall ws: seq<World>, steps: seq<Step>, n: nat, jd: nat |
      Follows(ws, steps, w) && CleanUpTo(steps, |steps|) && n < |steps| :: Unaffected(ws, steps, n, jd)
  }

  ghost predicate Unaffected(ws: seq<World>, steps: seq<Step>, n: nat, jd: nat)
    requires |ws| == |steps| + 1 && n < |steps|
  {
    jd in ws[n].procs && steps[n].id != jd ==>
      jd in ws[n + 1].procs && ws[n + 1].procs[jd] == ws[n].procs[jd] && SameProc(ws[n], ws[n + 1], ws[n].procs[jd])
  }

  ghost predicate Follows(ws: seq<World>, steps: seq<Step>, w: World) {
    |ws| == |steps| + 1 && ws[0] == w && forall i | 0 <= i < |steps| :: Next(ws[i], ws[i + 1], steps[i])
  }

  /** From a world in order, a step leads to a world that isolates its processes if and only if it is not a push that
      failed with a page mapped. Pushes into a space that lives on are of writable pages. In the other case, no choice
      of frames by the allocator helps. */
  lemma CleanExact(w: World, w1: World, st: Step)
    requires WorldOk(w) && Next(w, w1, st) && (st.FailGrow? ==> st.left.perm.write && st.left.perm.user)
    ensures Isolating(w1) <==> Clean(st)
    ensures !Clean(st) ==>
              forall picks | Order(picks, w1.free) :: exists n, ws, steps :: ViewBroken(w1, st.id, picks, n, ws, steps)
  {
    hide WorldOk, Next, Clean, Tab, SameProc, Order, ViewBroken;
    if Clean(st) {
      StepKeeps(w, w1, st);
      forall ws: seq<World>, steps: seq<Step>, n: nat, jd: nat |
        Follows(ws, steps, w1) && CleanUpTo(steps, |steps|) && n < |steps|
        ensures Unaffected(ws, steps, n, jd)
      {
        if jd in ws[n].procs && steps[n].id != jd { BystanderSeesNothing(ws, steps, n, n + 1, jd); }
      }
    } else {
      DirtyPush(st);
      forall picks | Order(picks, w1.free) ensures exists n, ws, steps :: ViewBroken(w1, st.id, picks, n, ws, steps) {
        FailureBreaks(w, w1, st, picks);
      }
      var picks := SomeOrder(w1.free);
      var n, ws, steps :| ViewBroken(w1, st.id, picks, n, ws, steps);
      NotIsolating(w1, st.id, picks, n, ws, steps);
    }
  }

  lemma NotIsolating(w: World, id: nat, picks: seq<nat>, n: nat, ws: seq<World>, steps: seq<Step>)
    requires ViewBroken(w, id, picks, n, ws, steps)
    ensures !Isolating(w)
  {
    hide Next, SameProc;
    forall i | 0 <= i < |steps| ensures Clean(steps[i]) {
      if i <= n { assert MadeOn(ws[i], ws[i + 1], steps[i], picks[i]); }
    }
    assert CleanUpTo(steps, |steps|);
    assert ws[n + 1 + 1] == ws[n + 2] && !Unaffected(ws, steps, n + 1, steps[n].id);
  }

  lemma {:induction false} SomeOrder(free: set<nat>) returns (picks: seq<nat>)
    ensures Order(picks, free)
    decreases free
  {
    if free == {} {
      picks := [];
    } else {
      var f :| f in free;
      picks := SomeOrder(free - {f});
      assert f !in picks;
      picks := picks + [f];
      forall g ensures g in free <==> g in picks { assert g in free - {f} <==> g in picks[..|picks| - 1]; }
    }
  }

  /** And whether a failing push is of that kind can be told before it starts: exactly if its first page is not mapped
      and there are frames for that page and its tables. */
  lemma CleanGuard(w: World, w1: World, st: Step)
    requires Next(w, w1, st) && st.FailGrow?
    ensures var tree := w.procs[st.id].tree;
            Clean(st) <==>
            Translate(Tab(w), tree.root, st.left.first).Some?
                || |w.free| < FramesNeeded(tree.node.Keys, st.left.first, st.left.first + 1)
  {
    hide Usable, Failed, Left, Translate, FramesNeeded, Decoded;
    var s, s1, left := Snap(w, w.procs[st.id].tree), Snap(w1, w1.procs[st.id].tree), st.left;
    var taken :| Left(s, s1, left, left.first, st.last, left.perm, taken);
    LeftGuard(s, s1, left, left.first, st.last, left.perm, taken);
  }

  lemma DirtyPush(st: Step)
    requires !Clean(st)
    ensures st.FailGrow?
  {
  }

  lemma FreshId(procs: map<nat, Proc>) returns (jd: nat)
    ensures jd !in procs
  {
    jd := Above(procs.Keys);
  }

  lemma {:induction false} Above(s: set<nat>) returns (n: nat)
    ensures forall x | x in s :: x < n
    decreases s
  {
    if s == {} {
      n := 0;
    } else {
      var x :| x in s;
      n := Above(s - {x});
      forall y | y in s ensures y == x || y < n { assert y == x || y in s - {x}; }
      if n <= x { n := x + 1; }
    }
  }
}
