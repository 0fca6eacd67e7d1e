/** The laws of the buddy allocator: canonical form, completeness, conservation, and that freeing
    undoes allocating, over every run. */
module BuddyLaws {
  import opened Prelude
  import opened Dyadic
  import opened BuddySpec

  // ---- completeness -----------------------------------------------------------

  predicate Within(inner: Block, outer: Block) {
    outer.start <= inner.start && inner.start + Pow2(inner.order) <= outer.start + Pow2(outer.order)
  }

  ghost predicate RunFree(s: State, run: Block) {
    forall f: int | Covers(run, f) :: FrameFree(s, f)
  }

  /** Some naturally aligned run of `2^order` frames is entirely free. */
  ghost predicate HasFreeRun(s: State, order: nat) {
    exists run: Block :: run.order == order && Placed(s.n, run) && RunFree(s, run)
  }

  lemma FreeIsPlaced(s: State, b: Block)
    requires Inv(s) && Listed(s.lists, b)
    ensures Placed(s.n, b)
  {
    assert b in FreeBlocks(s.lists) + s.live;
  }

  /** A listed block that reaches into an aligned run no larger than itself holds the whole run. */
  lemma OverlapIsWithin(s: State, run: Block, b: Block, f: int)
    requires Inv(s) && Placed(s.n, run) && Listed(s.lists, b) && run.order <= b.order
    requires Covers(run, f) && Covers(b, f)
    ensures Within(run, b)
  {
    FreeIsPlaced(s, b);
    NestedOrDisjoint(run.start, run.order, b.start, b.order);
  }

  lemma SameExtent(b: Block, c: Block)
    requires Within(b, c) && c.order <= b.order
    ensures b == c
  {
    if c.order < b.order { Pow2Monotone(c.order, b.order); }
  }

  /** With no free buddies, an aligned free run is never left fragmented: one listed block holds all of it. */
  lemma {:induction false} RunInOneBlock(s: State, run: Block) returns (b: Block)
    requires Inv(s) && Placed(s.n, run) && RunFree(s, run)
    ensures Listed(s.lists, b) && run.order <= b.order && Within(run, b)
    decreases run.order
  {
    if run.order == 0 {
      assert Covers(run, run.start);
      b :| Listed(s.lists, b) && Covers(b, run.start);
    } else {
      HalvesOf(s.n, run);
      var lo, hi := Lower(run), Upper(run);
      b := RunInOneBlock(s, lo);
      var c := RunInOneBlock(s, hi);
      if run.order <= b.order {
        OverlapIsWithin(s, run, b, lo.start);
      } else {
        SameExtent(lo, b);
        b := c;
        if run.order <= c.order {
          OverlapIsWithin(s, run, c, hi.start);
        } else {
          SameExtent(hi, c);
        }
      }
    }
  }

  /** `alloc` fails exactly when no aligned run of the requested size is free. */
  lemma AllocComplete(s: State, order: nat)
    requires Inv(s) && order <= MAX_ORDER
    ensures Alloc(s.lists, order).None? <==> !HasFreeRun(s, order)
  {
    if Alloc(s.lists, order).Some? {
      AllocKeeps(s, order);
      var run := Block(Alloc(s.lists, order).value.1, order);
      assert RunFree(s, run);
    }
    if run: Block :| run.order == order && Placed(s.n, run) && RunFree(s, run) {
      var b := RunInOneBlock(s, run);
      FreeIsPlaced(s, b);
    }
  }

  // ---- canonical form -----------------------------------------------------------

  /** A managed frame is free exactly when it is not handed out. */
  lemma FreeOrLive(s: State, f: int)
    requires Inv(s)
    ensures FrameFree(s, f) <==> 0 <= f < s.n && !FrameLive(s, f)
  {
    var all := FreeBlocks(s.lists) + s.live;
    if FrameFree(s, f) {
      var b :| Listed(s.lists, b) && Covers(b, f);
      assert b in all;
      assert forall c | c in s.live :: c in all;
    }
    if 0 <= f < s.n && !FrameLive(s, f) {
      assert Covered(all, f);
      var b :| b in all && Covers(b, f);
      assert Listed(s.lists, b);
    }
  }

  lemma CanonicalSubset(s: State, t: State, b: Block)
    requires Inv(s) && Inv(t) && s.n == t.n && (forall f: int :: FrameFree(s, f) <==> FrameFree(t, f))
    requires Listed(s.lists, b)
    ensures Listed(t.lists, b)
  {
    FreeIsPlaced(s, b);
    assert RunFree(t, b) by {
      forall f: int | Covers(b, f) ensures FrameFree(t, f) { assert FrameFree(s, f); }
    }
    var c := RunInOneBlock(t, b);
    FreeIsPlaced(t, c);
    assert RunFree(s, c) by {
      forall f: int | Covers(c, f) ensures FrameFree(s, f) { assert FrameFree(t, f); }
    }
    var d := RunInOneBlock(s, c);
    assert Covers(b, b.start) && Covers(d, b.start);
    assert b in FreeBlocks(s.lists) + s.live && d in FreeBlocks(s.lists) + s.live;
    assert b == d;
    Pow2Monotone(c.order, b.order);
    SameExtent(b, c);
  }

  /** The free blocks of every order are a function of the set of allocated frames alone. */
  lemma CanonicalForm(s: State, t: State)
    requires Inv(s) && Inv(t) && s.n == t.n
    requires forall f: int :: FrameLive(s, f) <==> FrameLive(t, f)
    ensures FreeBlocks(s.lists) == FreeBlocks(t.lists)
  {
    forall f: int ensures FrameFree(s, f) <==> FrameFree(t, f) {
      FreeOrLive(s, f);
      FreeOrLive(t, f);
      assert FrameLive(s, f) <==> FrameLive(t, f);
    }
    forall b ensures Listed(s.lists, b) <==> Listed(t.lists, b) {
      if Listed(s.lists, b) { CanonicalSubset(s, t, b); }
      if Listed(t.lists, b) { CanonicalSubset(t, s, b); }
    }
  }

  // ---- seeding --------------------------------------------------------------------

  predicate MaximalSeed(n: nat, b: Block) {
    b.order < MAX_ORDER ==> !(Aligned(b.start, b.order + 1) && b.start + Pow2(b.order + 1) <= n)
  }

  ghost predicate Seeded(n: nat, lists: Lists, x: nat) {
    && Shape(lists)
    && Tiles(x, FreeBlocks(lists))
    && forall b | Listed(lists, b) :: MaximalSeed(n, b)
  }

  lemma ExtendTiling(x: nat, blocks: set<Block>, b: Block)
    requires Tiles(x, blocks) && b.start == x && b.order <= MAX_ORDER && Aligned(x, b.order)
    ensures b !in blocks && Tiles(x + Pow2(b.order), blocks + {b})
  {
    var n, all := x + Pow2(b.order), blocks + {b};
    forall f | 0 <= f < n ensures Covered(all, f) {
      if f < x {
        assert Covered(blocks, f);
        var c :| c in blocks && Covers(c, f);
        assert c in all;
      } else {
        assert b in all && Covers(b, f);
      }
    }
    forall c, d, f: int | c in all && d in all && Covers(c, f) && Covers(d, f) ensures c == d {
      assert c in blocks ==> Placed(x, c);
      assert d in blocks ==> Placed(x, d);
    }
  }

  lemma SeedOnce(n: nat, lists: Lists, x: nat)
    requires Seeded(n, lists, x) && x < n
    ensures var k := SeedOrder(n, x, |lists| - 1);
            Seeded(n, Push(lists, k, x), x + Pow2(k))
  {
    var b := Block(x, SeedOrder(n, x, |lists| - 1));
    ExtendTiling(x, FreeBlocks(lists), b);
    PushBlocks(lists, b);
    var lists' := Push(lists, b.order, x);
    forall c | Listed(lists', c) ensures MaximalSeed(n, c) {
      assert c in FreeBlocks(lists');
    }
  }

  lemma {:induction false} SeedKeeps(n: nat, lists: Lists, x: nat)
    requires Seeded(n, lists, x) && x <= n
    ensures Seeded(n, Seed(n, lists, x), n)
    decreases n - x
  {
    if x < n {
      var k := SeedOrder(n, x, |lists| - 1);
      SeedOnce(n, lists, x);
      SeedKeeps(n, Push(lists, k, x), x + Pow2(k));
    }
  }

  lemma InitialInv(n: nat)
    ensures Inv(Initial(n))
  {
    var e := EmptyLists();
    assert FreeBlocks(e) == {};
    SeedKeeps(n, e, 0);
    var lists := Initial(n).lists;
    assert FreeBlocks(lists) + {} == FreeBlocks(lists);
    forall b | Listed(lists, b) && b.order < MAX_ORDER ensures !Listed(lists, Mate(b)) {
      assert b in FreeBlocks(lists);
      if Listed(lists, Mate(b)) {
        assert Mate(b) in FreeBlocks(lists);
        ParentOf(n, b);
      }
    }
  }

  // ---- runs --------------------------------------------------------------------------

  datatype Op = DoAlloc(order: nat) | DoFree(block: Block)

  /** `free` is called only on live allocations. */
  predicate Legal(s: State, op: Op) {
    op.DoFree? ==> op.block in s.live && op.block.order <= MAX_ORDER
  }

  function Apply(s: State, op: Op): (r: State)
    requires |s.lists| == MAX_ORDER + 1 && Legal(s, op)
    ensures |r.lists| == MAX_ORDER + 1 && r.n == s.n
  {
    match op
    case DoAlloc(order) =>
      var r := Alloc(s.lists, order);
      if r.None? then s else State(s.n, r.value.0, s.live + {Block(r.value.1, order)})
    case DoFree(b) =>
      State(s.n, Merge(s.n, s.lists, b.order, b.start), s.live - {b})
  }

  /** `t` is reached from `s` by the operations `ops`, every free naming a live block. */
  ghost predicate Reaches(s: State, ops: seq<Op>, t: State)
    requires |s.lists| == MAX_ORDER + 1
    decreases ops
  {
    if ops == [] then s == t else Legal(s, ops[0]) && Reaches(Apply(s, ops[0]), ops[1..], t)
  }

  lemma {:induction false} ReachesOneMore(s: State, ops: seq<Op>, t: State, op: Op)
    requires |s.lists| == MAX_ORDER + 1 && Reaches(s, ops, t)
    requires |t.lists| == MAX_ORDER + 1 && Legal(t, op)
    ensures Reaches(s, ops + [op], Apply(t, op))
    decreases ops
  {
    if ops == [] {
      assert (ops + [op])[1..] == [];
    } else {
      ReachesOneMore(Apply(s, ops[0]), ops[1..], t, op);
      assert (ops + [op])[1..] == ops[1..] + [op];
    }
  }

  lemma ApplyKeeps(s: State, op: Op)
    requires Inv(s) && Legal(s, op)
    ensures Inv(Apply(s, op))
  {
    match op
    case DoAlloc(order) =>
      if Alloc(s.lists, order).Some? { AllocKeeps(s, order); }
    case DoFree(b) => FreeKeeps(s, b);
  }

  lemma {:induction false} RunKeeps(s: State, ops: seq<Op>, t: State)
    requires Inv(s) && Reaches(s, ops, t)
    ensures Inv(t) && t.n == s.n
    decreases ops
  {
    if ops != [] {
      ApplyKeeps(s, ops[0]);
      RunKeeps(Apply(s, ops[0]), ops[1..], t);
    }
  }

  lemma ReachableInv(n: nat, ops: seq<Op>, t: State)
    requires Reaches(Initial(n), ops, t)
    ensures Inv(t) && t.n == n
  {
    InitialInv(n);
    RunKeeps(Initial(n), ops, t);
  }

  /** In every reachable state, live and listed blocks tile the region in canonical form. */
  lemma EveryRunTiles(n: nat, ops: seq<Op>, t: State)
    requires Reaches(Initial(n), ops, t)
    ensures t.n == n && FreeBlocks(t.lists) !! t.live
    ensures Tiles(n, FreeBlocks(t.lists) + t.live)
    ensures NoFreeBuddies(t.lists)
    ensures SumSizes(FreeBlocks(t.lists)) + SumSizes(t.live) == n
  {
    ReachableInv(n, ops, t);
    TilingSum(n, FreeBlocks(t.lists) + t.live);
    SumUnion(FreeBlocks(t.lists), t.live);
  }

  /** Two runs that end with the same frames allocated end with the same free blocks. */
  lemma HistoryDoesNotMatter(n: nat, ops1: seq<Op>, t1: State, ops2: seq<Op>, t2: State)
    requires Reaches(Initial(n), ops1, t1) && Reaches(Initial(n), ops2, t2)
    requires forall f: int :: FrameLive(t1, f) <==> FrameLive(t2, f)
    ensures FreeBlocks(t1.lists) == FreeBlocks(t2.lists)
  {
    ReachableInv(n, ops1, t1);
    ReachableInv(n, ops2, t2);
    CanonicalForm(t1, t2);
  }

  /** Once everything is freed, in whatever order, the free blocks are the seeded ones. */
  lemma FreeingEverythingRestoresSeed(n: nat, ops: seq<Op>, t: State)
    requires Reaches(Initial(n), ops, t) && t.live == {}
    ensures FreeBlocks(t.lists) == FreeBlocks(Initial(n).lists)
  {
    assert Reaches(Initial(n), [], Initial(n));
    forall f: int ensures FrameLive(t, f) <==> FrameLive(Initial(n), f) {
      assert !FrameLive(t, f) && !FrameLive(Initial(n), f);
    }
    HistoryDoesNotMatter(n, ops, t, [], Initial(n));
  }

  // ---- conservation --------------------------------------------------------------------

  ghost function SumSizes(blocks: set<Block>): nat {
    if blocks == {} then 0
    else
      var b :| b in blocks;
      Pow2(b.order) + SumSizes(blocks - {b})
  }

  lemma {:induction false} SumRemove(blocks: set<Block>, b: Block)
    requires b in blocks
    ensures SumSizes(blocks) == Pow2(b.order) + SumSizes(blocks - {b})
    decreases blocks
  {
    var c :| c in blocks && SumSizes(blocks) == Pow2(c.order) + SumSizes(blocks - {c});
    if c != b {
      SumRemove(blocks - {c}, b);
      SumRemove(blocks - {b}, c);
      assert blocks - {c} - {b} == blocks - {b} - {c};
    }
  }

  lemma SumInsert(blocks: set<Block>, b: Block)
    requires b !in blocks
    ensures SumSizes(blocks + {b}) == SumSizes(blocks) + Pow2(b.order)
  {
    SumRemove(blocks + {b}, b);
    assert blocks + {b} - {b} == blocks;
  }

  lemma {:induction false} SumUnion(p: set<Block>, q: set<Block>)
    requires p !! q
    ensures SumSizes(p + q) == SumSizes(p) + SumSizes(q)
    decreases p
  {
    if p == {} {
      assert p + q == q;
    } else {
      var b :| b in p;
      SumUnion(p - {b}, q);
      SumRemove(p, b);
      SumRemove(p + q, b);
      assert p + q - {b} == (p - {b}) + q;
    }
  }

  ghost function Interval(lo: int, hi: int): (r: set<int>)
    requires lo <= hi
    ensures forall f :: f in r <==> lo <= f < hi
    ensures |r| == hi - lo
    decreases hi - lo
  {
    if lo == hi then {} else Interval(lo, hi - 1) + {hi - 1}
  }

  ghost function FramesOf(n: nat, blocks: set<Block>): set<int> {
    set f | f in Interval(0, n) && Covered(blocks, f)
  }

  ghost predicate Apart(blocks: set<Block>) {
    forall b, c, f: int | b in blocks && c in blocks && Covers(b, f) && Covers(c, f) :: b == c
  }

  lemma FramesOfUnion(n: nat, rest: set<Block>, b: Block)
    requires Placed(n, b)
    ensures FramesOf(n, rest + {b}) == FramesOf(n, rest) + Interval(b.start, b.start + Pow2(b.order))
  {
    hide Interval, Pow2;
    var own, all := Interval(b.start, b.start + Pow2(b.order)), rest + {b};
    forall f: int ensures f in FramesOf(n, all) <==> f in FramesOf(n, rest) + own {
      if f in own { assert b in all && Covers(b, f); }
      if f in FramesOf(n, rest) {
        var c :| c in rest && Covers(c, f);
        assert c in all;
      }
      if f in FramesOf(n, all) {
        var c :| c in all && Covers(c, f);
        assert c == b || c in rest;
      }
    }
  }

  lemma FramesOfApart(n: nat, all: set<Block>, b: Block)
    requires b in all && Apart(all)
    ensures FramesOf(n, all - {b}) !! Interval(b.start, b.start + Pow2(b.order))
  {
    hide Interval, Pow2;
    forall f: int | f in FramesOf(n, all - {b}) ensures f !in Interval(b.start, b.start + Pow2(b.order)) {
      var c :| c in all - {b} && Covers(c, f);
      assert !Covers(b, f);
    }
  }

  /** Disjoint blocks cover as many frames as their sizes add up to. */
  lemma {:induction false} CoveredCount(n: nat, blocks: set<Block>)
    requires forall b | b in blocks :: Placed(n, b)
    requires Apart(blocks)
    ensures |FramesOf(n, blocks)| == SumSizes(blocks)
    decreases blocks
  {
    if blocks == {} {
      assert FramesOf(n, blocks) == {};
    } else {
      var b :| b in blocks;
      CoveredCount(n, blocks - {b});
      assert blocks - {b} + {b} == blocks;
      FramesOfUnion(n, blocks - {b}, b);
      FramesOfApart(n, blocks, b);
      SumRemove(blocks, b);
    }
  }

  /** The sizes of the blocks of a tiling add up to the region. */
  lemma TilingSum(n: nat, blocks: set<Block>)
    requires Tiles(n, blocks)
    ensures SumSizes(blocks) == n
  {
    CoveredCount(n, blocks);
    assert FramesOf(n, blocks) == Interval(0, n);
  }

  // ---- free undoes alloc ------------------------------------------------------------------

  /** Merging back a block split over empty lists gives what merging the whole block would have. */
  lemma {:induction false} MergeUndoesSplit(n: nat, lists: Lists, level: nat, order: nat, x: nat)
    requires |lists| == MAX_ORDER + 1 && order <= level <= MAX_ORDER
    requires Placed(n, Block(x, level))
    requires forall j | order <= j < level :: lists[j] == []
    ensures Merge(n, Split(lists, level, order, x), order, x) == Merge(n, lists, level, x)
    decreases level
  {
    if order < level {
      var hi := x + Pow2(level - 1);
      var lists1 := Push(lists, level - 1, hi);
      HalvesOf(n, Block(x, level));
      MergeUndoesSplit(n, lists1, level - 1, order, x);
      assert lists1[level - 1] == [hi];
      assert Without([hi], hi) == [];
      assert Remove(lists1, level - 1, hi) == lists;
    }
  }

  /** Freeing the block just allocated restores every free list, in its original order. */
  lemma FreeUndoesAlloc(s: State, order: nat)
    requires Inv(s) && Alloc(s.lists, order).Some?
    ensures order <= MAX_ORDER
    ensures var (lists', x) := Alloc(s.lists, order).value;
            Merge(s.n, lists', order, x) == s.lists
  {
    var d := Donor(s.lists, order);
    var x := s.lists[d][0];
    var donor := Block(x, d);
    assert Listed(s.lists, donor);
    FreeIsPlaced(s, donor);
    var taken := Remove(s.lists, d, x);
    MergeUndoesSplit(s.n, taken, d, order, x);
    PutBackHead(s.n, s.lists, d);
  }

  /** Merging back the head of a list whose buddy is not free relinks it where it was. */
  lemma PutBackHead(n: nat, lists: Lists, d: nat)
    requires Shape(lists) && NoFreeBuddies(lists) && d <= MAX_ORDER && lists[d] != []
    requires Placed(n, Block(lists[d][0], d))
    ensures Merge(n, Remove(lists, d, lists[d][0]), d, lists[d][0]) == lists
  {
    var x := lists[d][0];
    assert Listed(lists, Block(x, d));
    assert Without(lists[d], x) == lists[d][1..];
    var taken := Remove(lists, d, x);
    assert d < MAX_ORDER ==> !Listed(lists, Mate(Block(x, d)));
    assert Buddy(x, d) in taken[d] ==> Buddy(x, d) in lists[d];
    assert Push(taken, d, x)[d] == lists[d];
    assert Push(taken, d, x) == lists;
  }

  /** So an allocation of the same order that follows returns the same block. */
  lemma ReuseIsImmediate(s: State, order: nat)
    requires Inv(s) && Alloc(s.lists, order).Some?
    ensures var (lists', x) := Alloc(s.lists, order).value;
            order <= MAX_ORDER && Alloc(Merge(s.n, lists', order, x), order) == Some((lists', x))
  {
    FreeUndoesAlloc(s, order);
  }

  // ---- which blocks ------------------------------------------------------------------------------------

  /** Splitting a block from `d` down to `order`: on each level in between its upper half is now the first of the
      list. */
  lemma {:induction false} SplitList(lists: Lists, d: nat, order: nat, x: nat, j: nat)
    requires |lists| == 11 && order <= d <= 10 && j <= 10
    ensures Split(lists, d, order, x)[j] == if order <= j < d then [x + Pow2(j)] + lists[j] else lists[j]
    decreases d
  {
    hide Pow2;
    if d > order { SplitList(Push(lists, d - 1, x + Pow2(d - 1)), d - 1, order, x, j); }
  }

  /** Allocation takes the first block of the smallest order that has one, hands out its lowest part, and puts the upper
      halves on the lists in between; no other list changes. It fails exactly if there is no such order. */
  lemma AllocExact(lists: Lists, order: nat)
    requires |lists| == 11
    ensures Alloc(lists, order).None? <==> forall d: nat | order <= d <= 10 :: lists[d] == []
    ensures Alloc(lists, order).Some? ==>
              var (lists', x) := Alloc(lists, order).value;
              exists d: nat ::
                && order <= d <= 10 && (forall j | order <= j < d :: lists[j] == []) && lists[d] != []
                && x == lists[d][0] && AfterAlloc(lists, lists', order, d, x)
  {
    hide Split, Pow2, Remove;
    if order <= 10 && Donor(lists, order) <= 10 { AllocAfter(lists, order, Donor(lists, order)); }
  }

  lemma AllocAfter(lists: Lists, order: nat, d: nat)
    requires |lists| == 11 && order <= d <= 10 && lists[d] != [] && forall j | order <= j < d :: lists[j] == []
    ensures |Remove(lists, d, lists[d][0])| == 11
    ensures AfterAlloc(lists, Split(Remove(lists, d, lists[d][0]), d, order, lists[d][0]), order, d, lists[d][0])
  {
    hide Split, Pow2;
    var x := lists[d][0];
    var taken := Remove(lists, d, x);
    forall j: nat | j <= 10 { SplitList(taken, d, order, x, j); }
  }

  ghost predicate AfterAlloc(lists: Lists, lists': Lists, order: nat, d: nat, x: nat)
    requires |lists| == 11
  {
    |lists'| == 11 && forall j: nat | j <= 10 ::
      if j == d then lists[j] == [x] + lists'[j]
      else if order <= j < d then lists'[j] == [x + Pow2(j)] else lists'[j] == lists[j]
  }

  lemma RemainderAtMost(x: nat, p: nat)
    requires p > 0
    ensures x % p <= x
  {
    if x < p { DivisionUnique(x, p, 0, x); }
  }

  /** The start of the block of order `j` that frame `x` is part of. */
  function Around(x: nat, j: nat): nat {
    RemainderAtMost(x, Pow2(j));
    x - x % Pow2(j)
  }

  /** The lists after the block at `x` was joined with its buddies on the levels from `level` up to `k`. */
  ghost predicate AfterFree(n: nat, lists: Lists, lists': Lists, level: nat, x: nat, k: nat)
    requires |lists| == 11
  {
    && |lists'| == 11 && level <= k <= 10 && lists'[k] == [Around(x, k)] + lists[k]
    && (forall j: nat | level <= j < k ::
          var b := Buddy(Around(x, j), j);
          b in lists[j] && b + Pow2(j) <= n && lists'[j] == Without(lists[j], b))
    && (forall j: nat | j <= 10 && (j < level || k < j) :: lists'[j] == lists[j])
    && (k < 10 ==> Buddy(Around(x, k), k) !in lists[k] || Buddy(Around(x, k), k) + Pow2(k) > n)
  }

  lemma AroundItself(x: nat, level: nat)
    requires Aligned(x, level)
    ensures Around(x, level) == x
  {
    AlignedIsModulo(x, level);
  }

  /** A block and the first frame of the one it is joined to lie in the same larger blocks. */
  lemma AroundSame(x: nat, y: nat, level: nat, j: nat)
    requires Aligned(y, level) && y <= x < y + Pow2(level) && level <= j
    ensures Around(x, j) == Around(y, j)
  {
    var q := Shr(y, j);
    var start := q * Pow2(j);
    MultipleAligned(q, j);
    ShiftBounds(y, j);
    hide Pow2, Aligned, Shr;
    NestedOrDisjoint(y, level, start, j);
    DivisionUnique(x, Pow2(j), q, x - start);
    DivisionUnique(y, Pow2(j), q, y - start);
  }

  /** A block that is freed is joined with its buddy, level by level, for as long as that is free; what comes of it is
      the first block on its list, the buddies have left theirs, and no other list changes. */
  lemma {:induction false} FreeExact(n: nat, lists: Lists, level: nat, x: nat) returns (k: nat)
    requires |lists| == 11 && level <= 10 && Aligned(x, level)
    ensures AfterFree(n, lists, Merge(n, lists, level, x), level, x, k)
    decreases 10 - level
  {
    hide Aligned, Around, Buddy, Without;
    AroundItself(x, level);
    var b := Buddy(x, level);
    if level == 10 || b + Pow2(level) > n || b !in lists[level] {
      k := level;
    } else {
      var rest := Remove(lists, level, b);
      BuddyProperties(x, level);
      k := FreeExact(n, rest, level + 1, Min(x, b));
      forall j: nat | level + 1 <= j <= 10 ensures Around(Min(x, b), j) == Around(x, j) {
        AroundSame(x, Min(x, b), level + 1, j);
      }
    }
  }

  /** The list goes down from below `x`. */
  ghost predicate Falls(list: seq<nat>, x: nat) {
    && (forall i | 0 <= i < |list| :: list[i] < x)
    && (forall i, j | 0 <= i < j < |list| :: list[j] < list[i])
  }

  ghost predicate Descending(lists: Lists, x: nat) {
    forall k | 0 <= k < |lists| :: Falls(lists[k], x)
  }

  /** Seeding works upwards and puts every block in front: the first block of a list is the highest one. */
  lemma {:induction false} SeedDescends(n: nat, lists: Lists, x: nat)
    requires |lists| == MAX_ORDER + 1 && x <= n && Descending(lists, x)
    ensures Descending(Seed(n, lists, x), n)
    decreases n - x
  {
    hide SeedOrder, Falls, Pow2;
    if x < n {
      var k := SeedOrder(n, x, |lists| - 1);
      var more := Push(lists, k, x);
      forall j | 0 <= j < |more| ensures Falls(more[j], x + Pow2(k)) { FallsFurther(lists[j], x, Pow2(k)); }
      SeedDescends(n, more, x + Pow2(k));
    }
  }

  lemma FallsFurther(list: seq<nat>, x: nat, p: nat)
    requires Falls(list, x) && p > 0
    ensures Falls(list, x + p) && Falls([x] + list, x + p)
  {
  }

  lemma InitialDescends(n: nat)
    ensures Descending(Initial(n).lists, n)
  {
    SeedDescends(n, EmptyLists(), 0);
  }
}
