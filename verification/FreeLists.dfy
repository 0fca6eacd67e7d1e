/** The frame allocator keeps the nodes of its lists in the free frames themselves. So whoever writes a free frame
    writes the lists: here is how long they survive in a run of the machine, and what the allocator hands out when they
    do not. */
module FreeLists {
  import opened Prelude
  import opened Sv39
  import opened Memory
  import opened BuddySpec
  import opened BuddyAllocator
  import opened FrameLists
  import opened UserMemory
  import opened UserView
  import opened Processes

  /** The lists of `a` can be read from memory and hold exactly the frames that count as free. */
  ghost predicate Ordered(w: World, a: Ledger) {
    InOrder(Book(w.bytes, a)) && w.free == FreeFrames(a)
  }

  lemma OrderedParts(w: World, a: Ledger)
    requires Ordered(w, a)
    ensures InOrder(Book(w.bytes, a)) && Threaded(w.bytes, a) && ListsOk(a.n, a.lists) && w.free == FreeFrames(a)
  {
    hide Threaded, ListsOk;
  }

  lemma QuietNodes(w: World, w': World, st: Step, a: Ledger)
    requires Ordered(w, a) && (st.Copy? || st.Store?) && Quiet(w, w', st)
    ensures HasFrames(w.bytes, a) && (HasFrames(w'.bytes, a) ==> NodesKept(w.bytes, w'.bytes, a))
  {
    hide NodeIn, Represents, ListsOk, Starts, StartsIn;
    FreeStarts(a);
    if HasFrames(w'.bytes, a) {
      forall x: nat | x < a.n && Starts(a, x) ensures NodeIn(w'.bytes[a.base + x]) == NodeIn(w.bytes[a.base + x]) {
        StartFree(a, x, w.free);
      }
    }
  }

  /** A copy or a store: the lists survive if and only if no link of a listed block changed. They do if it wrote no free
      frame. */
  lemma UserWriteExact(w: World, w': World, st: Step, a: Ledger)
    requires Next(w, w', st) && (st.Copy? || st.Store?) && Ordered(w, a)
    ensures HasFrames(w.bytes, a) && HasFrames(w'.bytes, a) && (Ordered(w', a) <==> NodesKept(w.bytes, w'.bytes, a))
    ensures Quiet(w, w', st) ==> Ordered(w', a)
  {
    hide Represents, NodesKept, Quiet, Decoded, CopyThrough, UserStore, ListsOk, FreeFrames;
    assert w'.bytes.Keys == w.bytes.Keys && w'.free == w.free;
    ListsExact(w.bytes, w'.bytes, a);
    if Quiet(w, w', st) { QuietNodes(w, w', st, a); }
  }

  // ---- runs ------------------------------------------------------------------------------------------------

  /** `calls` lead from `w` and `a` to `w'` and `a'`. */
  ghost predicate ByCalls(w: World, w': World, a: Ledger, a': Ledger, calls: seq<Call>) {
    Play(Book(w.bytes, a), calls) == Some(Book(w'.bytes, a')) && w'.free == FreeAfter(a, w.free, calls)
  }

  /** A push that failed with pages mapped gives the frame of the last of them back last. */
  ghost predicate EndsAs(st: Step, a: Ledger, calls: seq<Call>) {
    !Clean(st) ==>
      var v := st.left.last - 1;
      && v in st.left.frames && a.base <= st.left.frames[v]
      && calls != [] && calls[|calls| - 1] == Gave(Block(st.left.frames[v] - a.base, 0))
  }

  /** Copies and stores call no allocator. All other steps get and give back frames by its calls, and write only frames
      that are on no list. */
  ghost predicate Served(w: World, w': World, st: Step, a: Ledger, a': Ledger) {
    if st.Copy? || st.Store? then a' == a else exists calls :: ByCalls(w, w', a, a', calls) && EndsAs(st, a, calls)
  }

  /** Whatever calls a step makes, the lists are in order afterwards and hold what counts as free then. */
  lemma CallsKeepLists(w: World, w': World, a: Ledger, a': Ledger, calls: seq<Call>)
    requires Ordered(w, a) && ByCalls(w, w', a, a', calls)
    ensures Ordered(w', a') && a'.base == a.base && a'.n == a.n
  {
    hide InOrder, Play, FreeAfter, FreeFrames;
    PlayKeeps(Book(w.bytes, a), calls);
    PlayAccounts(Book(w.bytes, a), calls);
  }

  lemma StepKeepsLists(w: World, w': World, st: Step, a: Ledger, a': Ledger)
    requires Next(w, w', st) && Served(w, w', st, a, a') && Ordered(w, a) && Quiet(w, w', st)
    ensures Ordered(w', a') && a'.base == a.base && a'.n == a.n
  {
    hide Next, Ordered, ByCalls, EndsAs, Quiet, NodesKept;
    if st.Copy? || st.Store? {
      UserWriteExact(w, w', st, a);
    } else {
      var calls :| ByCalls(w, w', a, a', calls) && EndsAs(st, a, calls);
      CallsKeepLists(w, w', a, a', calls);
    }
  }

  /** A run with the state of the allocator at every moment. */
  ghost predicate ServedRun(ws: seq<World>, steps: seq<Step>, ledgers: seq<Ledger>) {
    && |ws| == |steps| + 1 == |ledgers| && Ordered(ws[0], ledgers[0])
    && (forall i | 0 <= i < |steps| :: Next(ws[i], ws[i + 1], steps[i]))
    && (forall i | 0 <= i < |steps| :: Served(ws[i], ws[i + 1], steps[i], ledgers[i], ledgers[i + 1]))
  }

  /** As long as no copy and no store has reached a free frame, the lists are in order and hold exactly the frames that
      count as free. That is so until a push fails with a page mapped. */
  lemma {:induction false} RunKeepsLists(ws: seq<World>, steps: seq<Step>, ledgers: seq<Ledger>, n: nat)
    requires ServedRun(ws, steps, ledgers) && n < |ws|
    requires QuietUpTo(ws, steps, n) || (IsRun(ws, steps) && CleanUpTo(steps, n))
    ensures Ordered(ws[n], ledgers[n]) && ledgers[n].base == ledgers[0].base && ledgers[n].n == ledgers[0].n
  {
    hide Next, Quiet, Ordered, WorldOk, Clean, Served;
    if IsRun(ws, steps) && CleanUpTo(steps, n) { CleanRunIsQuiet(ws, steps, n); }
    if n > 0 {
      var w, w', st, a, a' := ws[n - 1], ws[n - 1 + 1], steps[n - 1], ledgers[n - 1], ledgers[n - 1 + 1];
      RunKeepsLists(ws, steps, ledgers, n - 1);
      assert Next(w, w', st) && Quiet(w, w', st) && Served(w, w', st, a, a');
      StepKeepsLists(w, w', st, a, a');
    }
  }

  /** And the allocator can hand out every frame that nobody has: what is on its lists, the kernel's and what processes
      hold stay the same set. When all processes are gone and the kernel has what it had, the lists hold the blocks they
      held, so nothing stays split up. */
  lemma RunConservesLists(ws: seq<World>, steps: seq<Step>, ledgers: seq<Ledger>, n: nat)
    requires ServedRun(ws, steps, ledgers) && n < |ws| && IsRun(ws, steps) && CleanUpTo(steps, n)
    ensures FreeFrames(ledgers[n]) == ws[n].free && AllFrames(ws[n]) == AllFrames(ws[0])
    ensures ws[0].procs == map[] == ws[n].procs && ws[n].taken == ws[0].taken ==>
              FreeBlocks(ledgers[n].lists) == FreeBlocks(ledgers[0].lists)
  {
    hide *;
    RunShape(ws, steps, ledgers, n);
    RunKeepsLists(ws, steps, ledgers, n);
    RunConserves(ws, steps, n);
    OrderedParts(ws[0], ledgers[0]);
    OrderedParts(ws[n], ledgers[n]);
    if ws[0].procs == map[] == ws[n].procs && ws[n].taken == ws[0].taken {
      RunKeeps(ws, steps, n);
      TakenApart(ws[0]);
      TakenApart(ws[n]);
      assert ws[n].free == ws[0].free;
      SameFreeBlocks(ledgers[n], ledgers[0]);
    }
  }

  lemma RunShape(ws: seq<World>, steps: seq<Step>, ledgers: seq<Ledger>, n: nat)
    requires ServedRun(ws, steps, ledgers) && IsRun(ws, steps)
    ensures |ws| == |steps| + 1 == |ledgers| && Ordered(ws[0], ledgers[0]) && WorldOk(ws[0])
  {
    hide Next, Ordered, WorldOk, Served;
  }

  lemma TakenApart(w: World)
    requires WorldOk(w)
    ensures w.taken !! w.free
  {
    hide KernelOk, ProcOk;
  }

  // ---- after a push that failed with a page mapped ------------------------------------------------------

  /** Process `id` still maps the free frame `f`, which is the first block on list `k`. A copy into the page makes its
      node anything, and the lists survive if and only if that is what it was. If its links lead anywhere in memory, the
      allocator can take the block: then the list goes on with whatever the copy chose, also with a frame in use, or the
      block is first on the list again. */
  lemma StaleWrite(w: World, id: nat, v: nat, f: nat, a: Ledger, k: nat, page: Page)
    requires Exposed(w, id, v, f) && Threaded(w.bytes, a) && k < |a.lists| && a.lists[k] != []
    requires f == a.base + a.lists[k][0]
    ensures f in w.bytes && Next(w, LastCopy(w, f, page), Copy(id, v * PAGE_SIZE, page))
    ensures var now, x, node := Book(LastCopy(w, f, page).bytes, a), f - a.base, NodeIn(page);
            && (Threaded(now.bytes, a) <==> node == NodeIn(w.bytes[f]))
            && (CanUnlink(now, k, x) <==> LinksIn(w.bytes, a.base, node))
            && (LinksIn(w.bytes, a.base, node) ==>
                var r := Unlink(now, k, x);
                && k < |r.ledger.heads| && r.ledger.heads[k] == (if node.prev == NIL then node.next else x)
                && (Threaded(r.bytes, r.ledger) <==> node == NodeIn(w.bytes[f])))
  {
    hide *;
    ExposedParts(w, id, v, f);
    CopyIntoFrame(w, id, v, f, page);
    LastCopyIs(w, f, page);
    TakeExact(Book(w.bytes, a), k, page);
    OneNode(w.bytes, a, k, page);
    DamagedIs(Book(w.bytes, a), f - a.base, page);
  }

  lemma DamagedIs(b: Book, x: nat, page: Page)
    ensures Damaged(b, x, page) == b.(bytes := b.bytes[b.ledger.base + x := page])
  {
  }

  /** Memory after the first block of a list was overwritten. */
  lemma OneNode(bytes: Bytes, a: Ledger, k: nat, page: Page)
    requires Threaded(bytes, a) && k < |a.lists| && a.lists[k] != []
    ensures var f := a.base + a.lists[k][0];
            f in bytes && (Threaded(bytes[f := page], a) <==> NodeIn(page) == NodeIn(bytes[f]))
  {
    hide Represents, NodeIn, NodesIn, Distinct;
    var x := a.lists[k][0];
    ListsShape(a, NodesIn(bytes, a));
    assert NodeAt(NodesIn(bytes, a), a.lists[k], 0);
    assert Starts(a, x);
    ListsExact(bytes, bytes[a.base + x := page], a);
  }

  /** The first block of list `k` can be taken, but none of those that were behind it can be found after that. */
  ghost predicate LostBehind(b: Book, k: nat) {
    && k < |b.ledger.lists| && |b.ledger.lists[k]| >= 2 && CanUnlink(b, k, b.ledger.lists[k][0])
    && (var r := Unlink(b, k, b.ledger.lists[k][0]);
        k < |r.ledger.heads| && r.ledger.heads[k] == NIL && !Threaded(r.bytes, r.ledger))
  }

  ghost predicate LosesBy(w: World, w': World, st: Step, a: Ledger, k: nat) {
    st.Copy? && Next(w, w', st) && w'.free == w.free && !Threaded(w'.bytes, a) && LostBehind(Book(w'.bytes, a), k)
  }

  /** After a push of writable pages that failed with a page mapped, the frame of the last page left is the one given
      back last. If it starts a block, that block is first on its list, and with other blocks behind it, one copy into
      the process makes the allocator lose all of those. */
  lemma FailureLoses(w: World, w1: World, st: Step, a: Ledger, a1: Ledger)
    requires WorldOk(w) && Next(w, w1, st) && !Clean(st) && st.left.perm.write && st.left.perm.user
    requires Ordered(w, a) && Served(w, w1, st, a, a1)
    ensures Ordered(w1, a1)
    ensures st.left.last > 0 && st.left.last - 1 in st.left.frames && a1.base <= st.left.frames[st.left.last - 1]
    ensures var x := st.left.frames[st.left.last - 1] - a1.base;
            Starts(a1, x) ==> exists k: nat :: k < |a1.lists| && FirstOn(a1, k, x) && (|a1.lists[k]| >= 2 ==>
                exists w2: World, st2: Step :: LosesBy(w1, w2, st2, a1, k) && st2.id == st.id)
  {
    hide *;
    DirtyPush(st);
    var calls := LeftCalls(w, w1, st, a, a1);
    CallsKeepLists(w, w1, a, a1, calls);
    OrderedParts(w1, a1);
    var v := st.left.last - 1;
    var f := st.left.frames[v];
    if Starts(a1, f - a1.base) {
      var k := LeftIsFirst(w, w1, a, a1, calls, f);
      FirstParts(a1, k, f - a1.base);
      if |a1.lists[k]| >= 2 {
        FailureExposes(w, w1, st, v);
        LosesRest(w1, st.id, v, f, a1, k);
      }
    }
  }

  /** Block `x` is the first on list `k`. */
  ghost predicate FirstOn(a: Ledger, k: nat, x: nat) {
    k < |a.lists| && a.lists[k] != [] && a.lists[k][0] == x
  }

  lemma FirstParts(a: Ledger, k: nat, x: nat)
    requires FirstOn(a, k, x)
    ensures k < |a.lists| && a.lists[k] != [] && a.lists[k][0] == x
  {
  }

  lemma LeftCalls(w: World, w1: World, st: Step, a: Ledger, a1: Ledger) returns (calls: seq<Call>)
    requires !Clean(st) && st.FailGrow? && Served(w, w1, st, a, a1)
    ensures ByCalls(w, w1, a, a1, calls) && st.left.last > 0 && st.left.last - 1 in st.left.frames && calls != []
    ensures var f := st.left.frames[st.left.last - 1];
            a.base <= f && calls[|calls| - 1] == Gave(Block(f - a.base, 0))
  {
    hide ByCalls;
    calls :| ByCalls(w, w1, a, a1, calls) && EndsAs(st, a, calls);
  }

  lemma LeftIsFirst(w: World, w1: World, a: Ledger, a1: Ledger, calls: seq<Call>, f: nat) returns (k: nat)
    requires Ordered(w, a) && ByCalls(w, w1, a, a1, calls) && calls != [] && a.base <= f && a1.base == a.base
    requires calls[|calls| - 1] == Gave(Block(f - a.base, 0)) && Starts(a1, f - a.base)
    ensures FirstOn(a1, k, f - a.base)
  {
    hide InOrder, Play, Starts, FreeAfter, FreeFrames;
    k := LastGivenFirst(Book(w.bytes, a), calls, f - a.base);
  }

  lemma LosesRest(w: World, id: nat, v: nat, f: nat, a: Ledger, k: nat)
    requires Exposed(w, id, v, f) && Threaded(w.bytes, a) && k < |a.lists| && |a.lists[k]| >= 2
    requires f == a.base + a.lists[k][0]
    ensures exists w': World, st: Step :: LosesBy(w, w', st, a, k) && st.id == id
  {
    hide *;
    var node := FreeNode(NIL, NIL);
    var page := NodePage(node);
    NilNode(w.bytes, a.base);
    StaleWrite(w, id, v, f, a, k, page);
    HasSecond(w.bytes, a, k);
    LastCopyIs(w, f, page);
    var w', st := LastCopy(w, f, page), Copy(id, v * PAGE_SIZE, page);
    LostIntro(Book(w'.bytes, a), k);
    LosesIntro(w, w', st, a, k);
  }

  lemma NilNode(bytes: Bytes, base: nat)
    ensures NodeIn(NodePage(FreeNode(NIL, NIL))) == FreeNode(NIL, NIL) && LinksIn(bytes, base, FreeNode(NIL, NIL))
  {
    hide NodeIn, NodePage;
    NodeRoundTrip(FreeNode(NIL, NIL));
  }

  lemma HasSecond(bytes: Bytes, a: Ledger, k: nat)
    requires Threaded(bytes, a) && k < |a.lists| && |a.lists[k]| >= 2 && a.base + a.lists[k][0] in bytes
    ensures NodeIn(bytes[a.base + a.lists[k][0]]) != FreeNode(NIL, NIL)
  {
    hide Represents, Distinct, NodesIn, NodeIn;
    ListsShape(a, NodesIn(bytes, a));
    Neighbours(NodesIn(bytes, a), a.heads[k], a.lists[k], 0);
    NodeOf(bytes, a, a.lists[k][0]);
  }

  lemma LostIntro(b: Book, k: nat)
    requires k < |b.ledger.lists| && |b.ledger.lists[k]| >= 2 && CanUnlink(b, k, b.ledger.lists[k][0])
    requires var r := Unlink(b, k, b.ledger.lists[k][0]);
             k < |r.ledger.heads| && r.ledger.heads[k] == NIL && !Threaded(r.bytes, r.ledger)
    ensures LostBehind(b, k)
  {
    hide Unlink, CanUnlink, Threaded;
  }

  lemma LosesIntro(w: World, w': World, st: Step, a: Ledger, k: nat)
    requires st.Copy? && Next(w, w', st) && w'.free == w.free && !Threaded(w'.bytes, a)
    requires LostBehind(Book(w'.bytes, a), k)
    ensures LosesBy(w, w', st, a, k)
  {
    hide Next, Threaded, LostBehind;
  }

  // ---- the same frame, in the allocator's own order ------------------------------------------------------

  /** The allocator hands out a frame for a process, as its lists are. */
  lemma TakeForProcess(w: World, a: Ledger) returns (mid: Bytes, a': Ledger, g: nat, calls: seq<Call>)
    requires Ordered(w, a) && w.free != {}
    ensures g in w.free && BytesWithin(w.bytes, mid, w.free) && g in mid && a.base <= g
    ensures forall page: Page ::
              ByCalls(w, w.(bytes := mid[g := page], free := w.free - {g}), a, a', calls + [Wrote(g, page)])
  {
    hide InOrder, Take, FreeFrames, Play, BlockFrames;
    var b := Book(w.bytes, a);
    NoneFree(b);
    TakeKeeps(b, 0);
    var (c, x) := Take(b, 0).value;
    mid, a', g, calls := c.bytes, c.ledger, a.base + x, [Took(Block(x, 0))];
    OneFrame(a, x);
    FreeInMemory(b);
    forall page: Page
      ensures ByCalls(w, w.(bytes := mid[g := page], free := w.free - {g}), a, a', calls + [Wrote(g, page)])
    {
      TakeThenWrite(b, c, x, g, page);
      assert calls[..0] == [] && (calls + [Wrote(g, page)])[..1] == calls;
      assert FreeAfter(a, w.free, calls) == w.free - {g};
    }
  }

  lemma TakeThenWrite(b: Book, c: Book, x: nat, g: nat, page: Page)
    requires InOrder(b) && Take(b, 0) == Some((c, x)) && g in c.bytes && g !in FreeFrames(c.ledger)
    ensures Play(b, [Took(Block(x, 0))] + [Wrote(g, page)]) == Some(c.(bytes := c.bytes[g := page]))
  {
    hide InOrder, Take, FreeFrames;
    var first := Took(Block(x, 0));
    assert [] + [first] == [first];
    PlayOneMore(b, [], first);
    PlayOneMore(b, [first], Wrote(g, page));
  }

  /** One more process, made on the frame that the allocator hands out. */
  lemma MakeOne(w: World, a: Ledger, id: nat, v: nat, f: nat) returns (mid: World, a': Ledger, g: nat, jd: nat)
    requires Exposed(w, id, v, f) && Ordered(w, a)
    ensures jd !in w.procs && id in w.procs && g in w.free && Exposed(mid, id, v, f) && mid == w.(bytes := mid.bytes)
    ensures g in mid.bytes && mid.kernel.root in mid.bytes
    ensures var w' := CreateOn(mid, jd, g);
            && Next(w, w', Create(jd)) && Served(w, w', Create(jd), a, a') && Ordered(w', a')
            && w'.free == w.free - {g}
  {
    hide *;
    ExposedParts(w, id, v, f);
    var bytes, calls;
    bytes, a', g, calls := TakeForProcess(w, a);
    mid := w.(bytes := bytes);
    jd := FreshId(w.procs);
    ShuffledExposed(w, mid, id, v, f);
    ExposedParts(mid, id, v, f);
    CreateShuffled(w, mid, jd, g);
    CreateByCalls(w, mid, jd, g, a, a', calls);
    CallsKeepLists(w, CreateOn(mid, jd, g), a, a', calls + [Wrote(g, RootPage(mid))]);
    CreateKernel(mid, jd, g);
  }

  function RootPage(w: World): Page
    requires w.kernel.root in w.bytes
  {
    JoinHalves(ZeroPage(), w.bytes[w.kernel.root])
  }

  lemma CreateByCalls(w: World, mid: World, jd: nat, g: nat, a: Ledger, a': Ledger, calls: seq<Call>)
    requires mid == w.(bytes := mid.bytes) && g in mid.bytes && mid.kernel.root in mid.bytes
    requires forall page: Page ::
               ByCalls(w, w.(bytes := mid.bytes[g := page], free := w.free - {g}), a, a', calls + [Wrote(g, page)])
    ensures var w' := CreateOn(mid, jd, g);
            && ByCalls(w, w', a, a', calls + [Wrote(g, RootPage(mid))]) && Served(w, w', Create(jd), a, a')
  {
    hide JoinHalves, ZeroPage, Play, FreeAfter;
    var page := RootPage(mid);
    assert ByCalls(w, w.(bytes := mid.bytes[g := page], free := w.free - {g}), a, a', calls + [Wrote(g, page)]);
    var all := calls + [Wrote(g, page)];
    assert ByCalls(w, CreateOn(mid, jd, g), a, a', all) && EndsAs(Create(jd), a, all);
  }

  /** A run from `w` in which empty processes are made, the last one on frame `f`, from memory `mid`. */
  ghost predicate MadeUntil(ws: seq<World>, steps: seq<Step>, ledgers: seq<Ledger>, w: World, a: Ledger, f: nat,
                            mid: World)
  {
    && ServedRun(ws, steps, ledgers) && steps != [] && ws[0] == w && ledgers[0] == a
    && (forall i | 0 <= i < |steps| :: steps[i].Create?)
    && (var jd := steps[|steps| - 1].id;
        && jd !in mid.procs && f in mid.bytes && mid.kernel.root in mid.bytes
        && ws[|steps|] == CreateOn(mid, jd, f) && Ordered(ws[|steps|], ledgers[|steps|]))
  }

  lemma MadeAtOnce(w: World, w': World, st: Step, a: Ledger, a': Ledger, f: nat, mid: World)
    requires Next(w, w', st) && Served(w, w', st, a, a') && Ordered(w, a) && Ordered(w', a') && st.Create?
    requires st.id !in mid.procs && f in mid.bytes && mid.kernel.root in mid.bytes && w' == CreateOn(mid, st.id, f)
    ensures MadeUntil([w, w'], [st], [a, a'], w, a, f, mid)
  {
    hide Next, Served, Ordered, CreateOn;
  }

  lemma MadeBefore(w: World, w': World, st: Step, a: Ledger, a': Ledger, ws: seq<World>, steps: seq<Step>,
                   ledgers: seq<Ledger>, f: nat, mid: World)
    requires Next(w, w', st) && Served(w, w', st, a, a') && Ordered(w, a) && st.Create?
    requires MadeUntil(ws, steps, ledgers, w', a', f, mid)
    ensures MadeUntil([w] + ws, [st] + steps, [a] + ledgers, w, a, f, mid)
  {
    hide Next, Served, Ordered, CreateOn;
    var ws', steps', ledgers' := [w] + ws, [st] + steps, [a] + ledgers;
    forall i | 0 <= i < |steps'|
      ensures Next(ws'[i], ws'[i + 1], steps'[i])
      ensures Served(ws'[i], ws'[i + 1], steps'[i], ledgers'[i], ledgers'[i + 1])
    {
      if i > 0 {
        assert Next(ws[i - 1], ws[i - 1 + 1], steps[i - 1]);
        assert Served(ws[i - 1], ws[i - 1 + 1], steps[i - 1], ledgers[i - 1], ledgers[i - 1 + 1]);
      }
    }
  }

  /** The allocator hands out every free frame in the end. */
  lemma {:induction false} MakeUntilServed(w: World, a: Ledger, id: nat, v: nat, f: nat)
    returns (ws: seq<World>, steps: seq<Step>, ledgers: seq<Ledger>, mid: World)
    requires Exposed(w, id, v, f) && Ordered(w, a)
    ensures MadeUntil(ws, steps, ledgers, w, a, f, mid) && Exposed(mid, id, v, f)
    decreases w.free
  {
    hide *;
    var mid', a', g, jd := MakeOne(w, a, id, v, f);
    var w' := CreateOn(mid', jd, g);
    if g == f {
      ws, steps, ledgers, mid := [w, w'], [Create(jd)], [a, a'], mid';
      MadeAtOnce(w, w', Create(jd), a, a', f, mid);
    } else {
      StillExposed(mid', id, jd, v, f, g);
      ws, steps, ledgers, mid := MakeUntilServed(w', a', id, v, f);
      MadeBefore(w, w', Create(jd), a, a', ws, steps, ledgers, f, mid);
      ws, steps, ledgers := [w] + ws, [Create(jd)] + steps, [a] + ledgers;
    }
  }

  /** A served run from `w` in which processes are made and a copy into process `id` follows; the lists of the allocator
      are in order at the end. */
  ghost predicate EndsInOrder(ws: seq<World>, steps: seq<Step>, ledgers: seq<Ledger>, w: World, a: Ledger, id: nat) {
    && ServedRun(ws, steps, ledgers) && ws[0] == w && ledgers[0] == a && CleanUpTo(steps, |steps|)
    && |steps| >= 2 && Ordered(ws[|steps|], ledgers[|steps|])
    && (var n := |steps| - 1;
        && steps[n].Copy? && steps[n].id == id && steps[n - 1].Create? && steps[n - 1].id != id
        && steps[n - 1].id in ws[n].procs && ws[n + 1].procs == ws[n].procs)
  }

  /** The process made last, doing nothing itself, sees something else after the copy. */
  ghost predicate ViewBreaks(ws: seq<World>, steps: seq<Step>, ledgers: seq<Ledger>, w: World, a: Ledger, id: nat) {
    && EndsInOrder(ws, steps, ledgers, w, a, id)
    && (var n := |steps| - 1; !SameProc(ws[n], ws[n + 1], ws[n].procs[steps[n - 1].id]))
  }

  /** It translates kernel page `u` differently from the kernel. */
  ghost predicate HalfBreaks(ws: seq<World>, steps: seq<Step>, ledgers: seq<Ledger>, w: World, a: Ledger, id: nat,
                             u: nat)
  {
    && EndsInOrder(ws, steps, ledgers, w, a, id) && Index(u, 0) >= UPPER_HALF
    && (var w', jd := ws[|steps|], steps[|steps| - 2].id;
        HwWalk(Tab(w'), w'.procs[jd].tree.root, u) != HwWalk(Tab(w'), w'.kernel.root, u))
  }

  /** After a push of writable pages that failed with a page mapped: in the order in which the allocator really hands
      out frames, one of the next processes gets the frame, and then a copy into the process that failed to grow can
      change what it sees and can break its kernel half. The lists need not be damaged for that. */
  lemma FailureBreaksInOrder(w: World, w1: World, st: Step, a: Ledger, a1: Ledger)
    requires WorldOk(w) && Next(w, w1, st) && !Clean(st) && st.left.perm.write && st.left.perm.user
    requires Ordered(w, a) && Served(w, w1, st, a, a1)
    ensures exists ws, steps, ledgers :: ViewBreaks(ws, steps, ledgers, w1, a1, st.id)
    ensures exists ws, steps, ledgers, u :: HalfBreaks(ws, steps, ledgers, w1, a1, st.id, u)
  {
    hide *;
    DirtyPush(st);
    var calls := LeftCalls(w, w1, st, a, a1);
    CallsKeepLists(w, w1, a, a1, calls);
    var v := st.left.first;
    FailureExposes(w, w1, st, v);
    var f := st.left.frames[v];
    var ws, steps, ledgers, mid := MakeUntilServed(w1, a1, st.id, v, f);
    MadeParts(ws, steps, ledgers, w1, a1, f, mid);
    ExposedParts(mid, st.id, v, f);
    var jd := steps[|steps| - 1].id;
    BreakView(mid, st.id, jd, v, f);
    EndWithCopy(ws, steps, ledgers, w1, a1, st.id, v, f, mid, ViewPage(f));
    ViewBreaksIntro(ws, steps, ledgers, w1, a1, st.id, v, f, ViewPage(f));
    var page, u := BreakHalf(mid, st.id, jd, v, f);
    EndWithCopy(ws, steps, ledgers, w1, a1, st.id, v, f, mid, page);
    HalfBreaksIntro(ws, steps, ledgers, w1, a1, st.id, v, f, page, u);
  }

  lemma MadeParts(ws: seq<World>, steps: seq<Step>, ledgers: seq<Ledger>, w: World, a: Ledger, f: nat, mid: World)
    requires MadeUntil(ws, steps, ledgers, w, a, f, mid)
    ensures |ws| == |ledgers| == |steps| + 1 && steps != []
    ensures var jd := steps[|steps| - 1].id;
            && jd !in mid.procs && f in mid.bytes && mid.kernel.root in mid.bytes
            && ws[|steps|] == CreateOn(mid, jd, f) && Ordered(ws[|steps|], ledgers[|steps|])
  {
    hide Next, Served, Ordered, CreateOn;
  }

  /** A copy into a frame that is in use does the lists no harm. */
  lemma CopyInOrder(w: World, a: Ledger, f: nat, page: Page)
    requires Ordered(w, a) && f in w.bytes && f !in w.free
    ensures Ordered(w.(bytes := w.bytes[f := page]), a)
  {
    hide InOrder, FreeFrames;
    WriteKeeps(Book(w.bytes, a), f, page);
  }

  /** The run that makes the processes, with the copy of `page` after it. */
  lemma EndWithCopy(ws: seq<World>, steps: seq<Step>, ledgers: seq<Ledger>, w: World, a: Ledger, id: nat, v: nat,
                    f: nat, mid: World, page: Page)
    requires MadeUntil(ws, steps, ledgers, w, a, f, mid) && Exposed(mid, id, v, f)
    ensures |ws| == |ledgers| == |steps| + 1 && f in ws[|steps|].bytes
    ensures EndsInOrder(ws + [LastCopy(ws[|steps|], f, page)], steps + [Copy(id, v * PAGE_SIZE, page)],
                        ledgers + [ledgers[|steps|]], w, a, id)
  {
    hide *;
    MadeParts(ws, steps, ledgers, w, a, f, mid);
    ExposedParts(mid, id, v, f);
    var n := |steps|;
    var jd, w2 := steps[n - 1].id, ws[n];
    NewId(mid, jd, f);
    StillWrites(mid, id, jd, v, f, f);
    CreateKernel(mid, jd, f);
    CopyIntoFrame(w2, id, v, f, page);
    LastCopyIs(w2, f, page);
    CopyInOrder(w2, ledgers[n], f, page);
    MadeThen(ws, steps, ledgers, w, a, f, mid, LastCopy(w2, f, page), Copy(id, v * PAGE_SIZE, page));
  }

  lemma NewId(w: World, jd: nat, f: nat)
    requires f in w.bytes && w.kernel.root in w.bytes
    ensures jd in CreateOn(w, jd, f).procs
  {
  }

  lemma MadeThen(ws: seq<World>, steps: seq<Step>, ledgers: seq<Ledger>, w: World, a: Ledger, f: nat, mid: World,
                 w': World, st: Step)
    requires MadeUntil(ws, steps, ledgers, w, a, f, mid) && |ws| == |ledgers| == |steps| + 1 && steps != []
    requires Next(ws[|steps|], w', st) && st.Copy? && Ordered(w', ledgers[|steps|])
    requires w' == ws[|steps|].(bytes := w'.bytes)
    requires steps[|steps| - 1].id != st.id && steps[|steps| - 1].id in ws[|steps|].procs
    ensures EndsInOrder(ws + [w'], steps + [st], ledgers + [ledgers[|steps|]], w, a, st.id)
  {
    hide Next, Ordered, CreateOn, ByCalls;
    var ws', steps', ledgers' := ws + [w'], steps + [st], ledgers + [ledgers[|steps|]];
    forall i | 0 <= i < |steps'|
      ensures Next(ws'[i], ws'[i + 1], steps'[i])
      ensures Served(ws'[i], ws'[i + 1], steps'[i], ledgers'[i], ledgers'[i + 1])
    {
      if i < |steps| {
        assert Next(ws[i], ws[i + 1], steps[i]) && Served(ws[i], ws[i + 1], steps[i], ledgers[i], ledgers[i + 1]);
      }
    }
  }

  lemma ViewBreaksIntro(ws: seq<World>, steps: seq<Step>, ledgers: seq<Ledger>, w: World, a: Ledger, id: nat, v: nat,
                        f: nat, page: Page)
    requires |ws| == |ledgers| == |steps| + 1 && steps != [] && f in ws[|steps|].bytes
    requires EndsInOrder(ws + [LastCopy(ws[|steps|], f, page)], steps + [Copy(id, v * PAGE_SIZE, page)],
                         ledgers + [ledgers[|steps|]], w, a, id)
    requires var w2, jd := ws[|steps|], steps[|steps| - 1].id;
             jd in w2.procs && !SameProc(w2, LastCopy(w2, f, page), w2.procs[jd])
    ensures exists ws', steps', ledgers' :: ViewBreaks(ws', steps', ledgers', w, a, id)
  {
    hide EndsInOrder, SameProc, LastCopy;
    assert ViewBreaks(ws + [LastCopy(ws[|steps|], f, page)], steps + [Copy(id, v * PAGE_SIZE, page)],
                      ledgers + [ledgers[|steps|]], w, a, id);
  }

  lemma HalfBreaksIntro(ws: seq<World>, steps: seq<Step>, ledgers: seq<Ledger>, w: World, a: Ledger, id: nat, v: nat,
                        f: nat, page: Page, u: nat)
    requires |ws| == |ledgers| == |steps| + 1 && steps != [] && f in ws[|steps|].bytes && Index(u, 0) >= UPPER_HALF
    requires EndsInOrder(ws + [LastCopy(ws[|steps|], f, page)], steps + [Copy(id, v * PAGE_SIZE, page)],
                         ledgers + [ledgers[|steps|]], w, a, id)
    requires var w2, jd := ws[|steps|], steps[|steps| - 1].id; jd in w2.procs && w2.procs[jd].tree.root == f
    requires var w3 := LastCopy(ws[|steps|], f, page); HwWalk(Tab(w3), f, u) != HwWalk(Tab(w3), w3.kernel.root, u)
    ensures exists ws', steps', ledgers', u' :: HalfBreaks(ws', steps', ledgers', w, a, id, u')
  {
    hide EndsInOrder, HwWalk, Tab, Index;
    assert HalfBreaks(ws + [LastCopy(ws[|steps|], f, page)], steps + [Copy(id, v * PAGE_SIZE, page)],
                      ledgers + [ledgers[|steps|]], w, a, id, u);
  }
}
