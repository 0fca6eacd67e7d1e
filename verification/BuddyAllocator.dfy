/** The buddy allocator in place: intrusive doubly linked lists, a packed bitmap, and counters. Every
    method is proved to compute the corresponding function of `BuddySpec`. */
module BuddyAllocator {
  import opened Prelude
  import opened Dyadic
  import opened BuddySpec
  import opened BuddyBitmap
  import Laws = BuddyLaws

  /** Ends a list; not 0, which is a frame. */
  const NIL: nat := 0xffff_ffff_ffff_ffff

  /** The list node kept in the first bytes of a free block. */
  datatype FreeNode = FreeNode(next: nat, prev: nat)

  // ---- linked lists over the frames -------------------------------------------------

  function At(list: seq<nat>, i: int): nat {
    if 0 <= i < |list| then list[i] else NIL
  }

  ghost predicate NodeAt(nodes: seq<FreeNode>, list: seq<nat>, i: nat)
    requires i < |list|
  {
    list[i] < |nodes| && nodes[list[i]] == FreeNode(At(list, i + 1), At(list, i - 1))
  }

  /** `head` starts a chain through `nodes` that visits exactly `list`, with `prev` the inverse of `next`. */
  ghost predicate Linked(nodes: seq<FreeNode>, head: nat, list: seq<nat>) {
    && head == At(list, 0)
    && forall i | 0 <= i < |list| :: NodeAt(nodes, list, i)
  }

  function LinkFront(nodes: seq<FreeNode>, head: nat, x: nat): (r: seq<FreeNode>)
    requires x < |nodes| && (head == NIL || head < |nodes|)
    ensures |r| == |nodes|
  {
    var r := nodes[x := FreeNode(head, NIL)];
    if head == NIL then r else r[head := r[head].(prev := x)]
  }

  function Bypass(nodes: seq<FreeNode>, x: nat): (r: seq<FreeNode>)
    requires x < |nodes|
    requires nodes[x].prev == NIL || nodes[x].prev < |nodes|
    requires nodes[x].next == NIL || nodes[x].next < |nodes|
    ensures |r| == |nodes|
  {
    var FreeNode(next, prev) := nodes[x];
    var r := if prev == NIL then nodes else nodes[prev := nodes[prev].(next := next)];
    if next == NIL then r else r[next := r[next].(prev := prev)]
  }

  lemma LinkedFront(nodes: seq<FreeNode>, head: nat, list: seq<nat>, x: nat)
    requires Linked(nodes, head, list) && Distinct(list) && x < |nodes| <= NIL && x !in list
    ensures head == NIL || head < |nodes|
    ensures Linked(LinkFront(nodes, head, x), x, [x] + list)
  {
    var list', nodes' := [x] + list, nodes;
    assert list != [] ==> NodeAt(nodes, list, 0);
    nodes' := LinkFront(nodes, head, x);
    forall i | 0 <= i < |list'| ensures NodeAt(nodes', list', i) {
      if i > 0 {
        assert list'[i] == list[i - 1];
        assert NodeAt(nodes, list, i - 1);
      }
      if i > 1 { assert list[i - 1] != list[0]; }
    }
  }

  /** A chain is untouched by writes to nodes that are not on it. */
  lemma LinkedElsewhere(nodes: seq<FreeNode>, nodes': seq<FreeNode>, head: nat, list: seq<nat>)
    requires Linked(nodes, head, list) && |nodes'| == |nodes|
    requires forall y | y in list :: y < |nodes| ==> nodes'[y] == nodes[y]
    ensures Linked(nodes', head, list)
  {
    forall i | 0 <= i < |list| ensures NodeAt(nodes', list, i) {
      assert NodeAt(nodes, list, i);
    }
  }

  lemma Neighbours(nodes: seq<FreeNode>, head: nat, list: seq<nat>, i: nat)
    requires Linked(nodes, head, list) && i < |list| && |nodes| <= NIL
    ensures list[i] < |nodes|
    ensures var node := nodes[list[i]];
            && (node.prev == NIL <==> i == 0)
            && (node.next == NIL <==> i == |list| - 1)
            && (i > 0 ==> node.prev == list[i - 1] < |nodes|)
            && (i < |list| - 1 ==> node.next == list[i + 1] < |nodes|)
            && node == FreeNode(At(list, i + 1), At(list, i - 1))
  {
    assert NodeAt(nodes, list, i);
    if i > 0 { assert NodeAt(nodes, list, i - 1); }
    if i < |list| - 1 { assert NodeAt(nodes, list, i + 1); }
  }

  /** What bypassing element `i` does to the node of another element `j`. */
  lemma BypassNode(nodes: seq<FreeNode>, head: nat, list: seq<nat>, i: nat, j: nat)
    requires Linked(nodes, head, list) && Distinct(list) && |nodes| <= NIL && i < |list| && j < |list| && i != j
    ensures list[j] < |nodes| && list[i] < |nodes|
    ensures var x := nodes[list[i]];
            (x.prev == NIL || x.prev < |nodes|) && (x.next == NIL || x.next < |nodes|)
    ensures Bypass(nodes, list[i])[list[j]]
         == FreeNode(At(list, if j == i - 1 then i + 1 else j + 1), At(list, if j == i + 1 then i - 1 else j - 1))
  {
    Neighbours(nodes, head, list, i);
    Neighbours(nodes, head, list, j);
    assert i > 0 && j != i - 1 ==> list[j] != list[i - 1];
    assert i < |list| - 1 && j != i + 1 ==> list[j] != list[i + 1];
  }

  lemma LinkedBypass(nodes: seq<FreeNode>, head: nat, list: seq<nat>, i: nat)
    requires Linked(nodes, head, list) && Distinct(list) && |nodes| <= NIL && i < |list|
    ensures list[i] < |nodes|
    ensures var FreeNode(next, prev) := nodes[list[i]];
            && (prev == NIL || (prev < |nodes| && prev in list && prev != list[i]))
            && (next == NIL || (next < |nodes| && next in list && next != list[i]))
            && Linked(Bypass(nodes, list[i]), if prev == NIL then next else head, Without(list, list[i]))
  {
    Neighbours(nodes, head, list, i);
    WithoutIsMiddleRemoval(list, i);
    var list' := list[..i] + list[i + 1..];
    forall j | 0 <= j < |list'| ensures NodeAt(Bypass(nodes, list[i]), list', j) {
      BypassedNodeAt(nodes, head, list, i, j);
    }
  }

  lemma BypassedNodeAt(nodes: seq<FreeNode>, head: nat, list: seq<nat>, i: nat, j: nat)
    requires Linked(nodes, head, list) && Distinct(list) && |nodes| <= NIL && i < |list| && j < |list| - 1
    requires list[i] < |nodes|
    requires var x := nodes[list[i]];
             (x.prev == NIL || x.prev < |nodes|) && (x.next == NIL || x.next < |nodes|)
    ensures NodeAt(Bypass(nodes, list[i]), list[..i] + list[i + 1..], j)
  {
    hide Bypass, Linked, Distinct;
    BypassNode(nodes, head, list, i, if j < i then j else j + 1);
  }

  // ---- what the fields represent ------------------------------------------------------

  ghost predicate NotAStart(lists: Lists, x: nat) {
    forall k | 0 <= k < |lists| :: x !in lists[k]
  }

  ghost predicate StartsDistinct(lists: Lists) {
    forall j, k, x | 0 <= j < |lists| && 0 <= k < |lists| && x in lists[j] && x in lists[k] :: j == k
  }

  ghost predicate AllPlaced(n: nat, lists: Lists) {
    forall k, x | 0 <= k < |lists| && x in lists[k] :: Placed(n, Block(x, k))
  }

  /** List heads, in-frame nodes and bitmap words that stand for the free lists `lists` of `n` frames. */
  ghost predicate Represents(n: nat, heads: seq<nat>, nodes: seq<FreeNode>, words: seq<Word>, lists: Lists) {
    && Shape(lists) && StartsDistinct(lists) && AllPlaced(n, lists)
    && |heads| == MAX_ORDER + 1
    && |nodes| == n <= NIL
    && (forall k | 0 <= k <= MAX_ORDER :: Linked(nodes, heads[k], lists[k]))
    && BitBase(n, MAX_ORDER + 1) <= 64 * |words|
    && BitsAgree(n, words, lists)
  }

  /** Linking a new front into list `k` touches no other list. */
  lemma LinkFrontOthers(nodes: seq<FreeNode>, heads: seq<nat>, lists: Lists, k: nat, x: nat, j: nat)
    requires StartsDistinct(lists) && Shape(lists) && |heads| == MAX_ORDER + 1 && |nodes| <= NIL
    requires k <= MAX_ORDER && j <= MAX_ORDER && j != k && x < |nodes| && NotAStart(lists, x)
    requires Linked(nodes, heads[k], lists[k]) && Linked(nodes, heads[j], lists[j])
    ensures heads[k] == NIL || heads[k] < |nodes|
    ensures Linked(LinkFront(nodes, heads[k], x), heads[j], lists[j])
  {
    LinkedFront(nodes, heads[k], lists[k], x);
    assert heads[k] != NIL ==> heads[k] in lists[k];
    LinkedElsewhere(nodes, LinkFront(nodes, heads[k], x), heads[j], lists[j]);
  }

  lemma PushRepresents(n: nat, heads: seq<nat>, nodes: seq<FreeNode>, words: seq<Word>, lists: Lists, k: nat, x: nat)
    requires Represents(n, heads, nodes, words, lists)
    requires k <= MAX_ORDER && Placed(n, Block(x, k)) && NotAStart(lists, x)
    ensures x < n && (heads[k] == NIL || heads[k] < n) && BitIndex(n, k, x) < 64 * |words|
    ensures Represents(n, heads[k := x], LinkFront(nodes, heads[k], x),
                       PutBitAt(words, BitIndex(n, k, x), true), Push(lists, k, x))
  {
    var lists' := Push(lists, k, x);
    assert Shape(lists') && StartsDistinct(lists') && AllPlaced(n, lists') by {
      PushBlocks(lists, Block(x, k));
      assert forall j | 0 <= j <= MAX_ORDER && j != k :: lists'[j] == lists[j];
    }
    LinkedFront(nodes, heads[k], lists[k], x);
    forall j | 0 <= j <= MAX_ORDER ensures Linked(LinkFront(nodes, heads[k], x), heads[k := x][j], lists'[j]) {
      if j != k {
        LinkFrontOthers(nodes, heads, lists, k, x, j);
      }
    }
    WriteBit(n, words, lists, lists', k, x, true);
  }

  /** Bypassing an element of list `k` touches no other list. */
  lemma BypassOthers(nodes: seq<FreeNode>, heads: seq<nat>, lists: Lists, k: nat, i: nat, j: nat)
    requires StartsDistinct(lists) && Shape(lists) && |heads| == MAX_ORDER + 1 && |nodes| <= NIL
    requires k <= MAX_ORDER && j <= MAX_ORDER && j != k && i < |lists[k]|
    requires Linked(nodes, heads[k], lists[k]) && Linked(nodes, heads[j], lists[j])
    ensures lists[k][i] < |nodes|
    ensures var x := nodes[lists[k][i]];
            (x.prev == NIL || x.prev < |nodes|) && (x.next == NIL || x.next < |nodes|)
    ensures Linked(Bypass(nodes, lists[k][i]), heads[j], lists[j])
  {
    LinkedBypass(nodes, heads[k], lists[k], i);
    LinkedElsewhere(nodes, Bypass(nodes, lists[k][i]), heads[j], lists[j]);
  }

  lemma RemoveRepresents(n: nat, heads: seq<nat>, nodes: seq<FreeNode>, words: seq<Word>, lists: Lists, k: nat, x: nat)
    requires Represents(n, heads, nodes, words, lists)
    requires k <= MAX_ORDER && x in lists[k]
    ensures x < n && BitIndex(n, k, x) < 64 * |words|
    ensures (nodes[x].prev == NIL || (nodes[x].prev < n && nodes[x].prev != x))
    ensures (nodes[x].next == NIL || (nodes[x].next < n && nodes[x].next != x))
    ensures Represents(n, if nodes[x].prev == NIL then heads[k := nodes[x].next] else heads, Bypass(nodes, x),
                       PutBitAt(words, BitIndex(n, k, x), false), Remove(lists, k, x))
  {
    var i :| 0 <= i < |lists[k]| && lists[k][i] == x;
    var lists' := Remove(lists, k, x);
    assert Placed(n, Block(x, k));
    WithoutElements(lists[k], x);
    assert Shape(lists') && StartsDistinct(lists') && AllPlaced(n, lists') by {
      assert forall j | 0 <= j <= MAX_ORDER && j != k :: lists'[j] == lists[j];
    }
    LinkedBypass(nodes, heads[k], lists[k], i);
    var heads' := if nodes[x].prev == NIL then heads[k := nodes[x].next] else heads;
    forall j | 0 <= j <= MAX_ORDER ensures Linked(Bypass(nodes, x), heads'[j], lists'[j]) {
      if j != k {
        BypassOthers(nodes, heads, lists, k, i, j);
      }
    }
    WriteBit(n, words, lists, lists', k, x, false);
  }

  // ---- carving up the region ------------------------------------------------------------

  function FirstFrame(start: nat): nat { DivCeil(start, PAGE_SIZE) }

  function LastFrame(end: nat): nat { end / PAGE_SIZE }

  /** Frames set aside in front of the region for the bitmap of `total` frames. */
  function BitmapFrames(total: nat): nat {
    var bytes := DivCeil(DivCeil(BitBase(total, MAX_ORDER + 1), 8), 8) * 8;
    DivCeil(bytes, PAGE_SIZE)
  }

  /** The first managed frame: past the bitmap, rounded up to the largest block. */
  function RegionBase(start: nat, end: nat): nat
    requires FirstFrame(start) < LastFrame(end)
  {
    DivCeil(FirstFrame(start) + BitmapFrames(LastFrame(end) - FirstFrame(start)), 1024) * 1024
  }

  /** A block aligned relative to the region base is aligned physically. */
  lemma PhysicallyAligned(base: nat, idx: nat, order: nat)
    requires base % 1024 == 0 && order <= MAX_ORDER && Aligned(idx, order)
    ensures Aligned(base + idx, order)
  {
    assert Pow2(10) == 1024;
    AlignedIsModulo(base, MAX_ORDER);
    AlignedWeaken(base, order, MAX_ORDER);
    AlignedSum(base, idx, order);
  }

  /** The bits of the bitmap: one for every block of every order that a region of `total` frames may have. */
  lemma BitsNeeded(total: nat)
    ensures BitBase(total, MAX_ORDER + 1) ==
            DivCeil(total, 1) + DivCeil(total, 2) + DivCeil(total, 4) + DivCeil(total, 8) + DivCeil(total, 16)
            + DivCeil(total, 32) + DivCeil(total, 64) + DivCeil(total, 128) + DivCeil(total, 256)
            + DivCeil(total, 512) + DivCeil(total, 1024)
  {
    hide DivCeil;
    assert Pow2(0) == 1 && Pow2(1) == 2 && Pow2(2) == 4 && Pow2(3) == 8 && Pow2(4) == 16 && Pow2(5) == 32;
    assert Pow2(6) == 64 && Pow2(7) == 128 && Pow2(8) == 256 && Pow2(9) == 512 && Pow2(10) == 1024;
    hide Pow2;
    assert BitBase(total, 1) == DivCeil(total, 1);
    assert BitBase(total, 2) == BitBase(total, 1) + DivCeil(total, 2);
    assert BitBase(total, 3) == BitBase(total, 2) + DivCeil(total, 4);
    assert BitBase(total, 4) == BitBase(total, 3) + DivCeil(total, 8);
    assert BitBase(total, 5) == BitBase(total, 4) + DivCeil(total, 16);
    assert BitBase(total, 6) == BitBase(total, 5) + DivCeil(total, 32);
    assert BitBase(total, 7) == BitBase(total, 6) + DivCeil(total, 64);
    assert BitBase(total, 8) == BitBase(total, 7) + DivCeil(total, 128);
    assert BitBase(total, 9) == BitBase(total, 8) + DivCeil(total, 256);
    assert BitBase(total, 10) == BitBase(total, 9) + DivCeil(total, 512);
  }

  lemma Ceiling(a: nat, b: nat)
    requires b > 0
    ensures a <= DivCeil(a, b) * b < a + b
  {
    var q, r := (a + b - 1) / b, (a + b - 1) % b;
    assert a + b - 1 == q * b + r;
  }

  /** Bits to bytes to words to frames, rounded up each time: as if rounded up once. */
  lemma FramesForBits(bits: nat, bytes: nat, words: nat, frames: nat)
    requires bits <= bytes * 8 < bits + 8 && bytes <= words * 8 < bytes + 8
    requires words * 8 <= frames * 4096 < words * 8 + 4096
    ensures (frames - 1) * 32768 < bits <= frames * 32768
  {
    assert words <= 512 * frames && words >= 512 * (frames - 1) + 1;
    assert 8 * bytes <= bits + 7 && 8 * words <= bytes + 7;
    assert 64 * words <= bits + 63;
  }

  /** Nothing of the region is given away: the first and the last whole frame, as few frames as hold the bits, and then
      the first frame at a boundary of the largest block. */
  lemma RegionExact(start: nat, end: nat)
    requires FirstFrame(start) < LastFrame(end)
    ensures start <= FirstFrame(start) * 4096 < start + 4096
    ensures LastFrame(end) * 4096 <= end < LastFrame(end) * 4096 + 4096
    ensures var total := LastFrame(end) - FirstFrame(start);
            var bits, frames := BitBase(total, MAX_ORDER + 1), BitmapFrames(total);
            && (frames - 1) * 32768 < bits <= frames * 32768
            && FirstFrame(start) + frames <= RegionBase(start, end) < FirstFrame(start) + frames + 1024
            && RegionBase(start, end) % 1024 == 0
  {
    hide BitBase, DivCeil;
    var total := LastFrame(end) - FirstFrame(start);
    var bits := BitBase(total, MAX_ORDER + 1);
    var bytes := DivCeil(bits, 8);
    var words := DivCeil(bytes, 8);
    Ceiling(start, 4096);
    Ceiling(bits, 8);
    Ceiling(bytes, 8);
    Ceiling(words * 8, 4096);
    Ceiling(FirstFrame(start) + BitmapFrames(total), 1024);
    FramesForBits(bits, bytes, words, BitmapFrames(total));
  }

  lemma RegionFacts(start: nat, end: nat)
    requires FirstFrame(start) < LastFrame(end) && RegionBase(start, end) <= LastFrame(end)
    ensures start <= FirstFrame(start) * PAGE_SIZE
    ensures LastFrame(end) * PAGE_SIZE <= end
    ensures FirstFrame(start) + BitmapFrames(LastFrame(end) - FirstFrame(start)) <= RegionBase(start, end)
    ensures RegionBase(start, end) % 1024 == 0
    ensures var total := LastFrame(end) - FirstFrame(start);
            BitBase(LastFrame(end) - RegionBase(start, end), MAX_ORDER + 1) <= 64 * (512 * BitmapFrames(total))
  {
    hide BitmapFrames, BitBase;
    var total := LastFrame(end) - FirstFrame(start);
    DivCeilBounds(start, PAGE_SIZE);
    DivCeilBounds(FirstFrame(start) + BitmapFrames(total), 1024);
    BitBaseGrows(LastFrame(end) - RegionBase(start, end), total, MAX_ORDER + 1);
    BitmapIsLargeEnough(total);
  }

  lemma BitmapIsLargeEnough(total: nat)
    ensures BitBase(total, MAX_ORDER + 1) <= 64 * (512 * BitmapFrames(total))
  {
    hide BitBase, DivCeil;
    var bits := BitBase(total, MAX_ORDER + 1);
    DivCeilBounds(bits, 8);
    DivCeilBounds(DivCeil(bits, 8), 8);
    DivCeilBounds(DivCeil(DivCeil(bits, 8), 8) * 8, PAGE_SIZE);
  }

  lemma {:induction false} ZeroHasNoBits(i: nat)
    ensures !TestBit(0, i)
  {
    if i > 0 { ZeroHasNoBits(i - 1); }
  }

  lemma NothingListed(n: nat, heads: seq<nat>, nodes: seq<FreeNode>, words: seq<Word>)
    requires |heads| == MAX_ORDER + 1 && (forall k | 0 <= k <= MAX_ORDER :: heads[k] == NIL)
    requires |nodes| == n <= NIL && BitBase(n, MAX_ORDER + 1) <= 64 * |words|
    requires forall i | 0 <= i < |words| :: words[i] == 0
    ensures Represents(n, heads, nodes, words, EmptyLists())
  {
    forall k, x | 0 <= k <= MAX_ORDER && 0 <= x < n && Aligned(x, k)
      ensures BitSet(n, words, k, x) <==> x in EmptyLists()[k]
    {
      BitIndexInStorage(n, k, x);
      ZeroHasNoBits(BitIndex(n, k, x) % 64);
    }
  }

  /** A block starting inside the block in hand is on no list. */
  lemma InHandNotListed(s: State, piece: Block, x: nat)
    requires InHand(s, piece) && Covers(piece, x)
    ensures NotAStart(s.lists, x)
  {
    forall k: nat | k < |s.lists| ensures x !in s.lists[k] {
      var all := FreeBlocks(s.lists) + s.live + {piece};
      assert piece in all;
      assert x in s.lists[k] ==> Block(x, k) in all && Covers(Block(x, k), x);
    }
  }

  // What the loops of the allocator need of each pass, in the shape of the functions they compute.

  ghost predicate SplitOk(n: nat, lists: Lists, level: nat, order: nat, x: nat)
    requires |lists| == MAX_ORDER + 1 && level <= MAX_ORDER
    decreases level
  {
    level > order ==>
      var half := x + Pow2(level - 1);
      && Placed(n, Block(half, level - 1)) && NotAStart(lists, half)
      && SplitOk(n, Push(lists, level - 1, half), level - 1, order, x)
  }

  ghost predicate MergeOk(n: nat, lists: Lists, level: nat, x: nat)
    requires |lists| == MAX_ORDER + 1 && level <= MAX_ORDER
    decreases MAX_ORDER - level
  {
    var b := Buddy(x, level);
    && Placed(n, Block(x, level)) && NotAStart(lists, x)
    && (level < MAX_ORDER && b in lists[level] ==> MergeOk(n, Remove(lists, level, b), level + 1, Min(x, b)))
  }

  ghost predicate SeedOk(n: nat, lists: Lists, x: nat)
    requires |lists| == MAX_ORDER + 1 && x <= n
    decreases n - x
  {
    x < n ==>
      var k := SeedOrder(n, x, |lists| - 1);
      NotAStart(lists, x) && SeedOk(n, Push(lists, k, x), x + Pow2(k))
  }

  lemma {:induction false} InHandSplitOk(s: State, piece: Block, order: nat)
    requires InHand(s, piece) && piece.order <= MAX_ORDER
    ensures SplitOk(s.n, s.lists, piece.order, order, piece.start)
    decreases piece.order
  {
    if piece.order > order {
      assert piece in FreeBlocks(s.lists) + s.live + {piece};
      HalvesOf(s.n, piece);
      InHandNotListed(s, piece, Upper(piece).start);
      SplitOnce(s, piece);
      InHandSplitOk(s.(lists := Push(s.lists, piece.order - 1, Upper(piece).start)), Lower(piece), order);
    }
  }

  lemma {:induction false} InHandMergeOk(s: State, piece: Block)
    requires InHand(s, piece) && piece.order <= MAX_ORDER
    ensures MergeOk(s.n, s.lists, piece.order, piece.start)
    decreases MAX_ORDER - piece.order
  {
    assert piece in FreeBlocks(s.lists) + s.live + {piece};
    InHandNotListed(s, piece, piece.start);
    if piece.order < MAX_ORDER && Listed(s.lists, Mate(piece)) {
      MergeOnce(s, piece);
      InHandMergeOk(s.(lists := Remove(s.lists, piece.order, Mate(piece).start)), Parent(piece));
    }
  }

  lemma {:induction false} SeededSeedOk(n: nat, lists: Lists, x: nat)
    requires Laws.Seeded(n, lists, x) && x <= n
    ensures SeedOk(n, lists, x)
    decreases n - x
  {
    if x < n {
      forall k: nat | k < |lists| ensures x !in lists[k] {
        assert x in lists[k] ==> Block(x, k) in FreeBlocks(lists);
      }
      Laws.SeedOnce(n, lists, x);
      var k := SeedOrder(n, x, |lists| - 1);
      SeededSeedOk(n, Push(lists, k, x), x + Pow2(k));
    }
  }

  lemma DonorOk(s: State, order: nat)
    requires Inv(s) && Alloc(s.lists, order).Some?
    ensures var d := Donor(s.lists, order);
            SplitOk(s.n, Remove(s.lists, d, s.lists[d][0]), d, order, s.lists[d][0])
  {
    var d := Donor(s.lists, order);
    var donor := Block(s.lists[d][0], d);
    assert Listed(s.lists, donor);
    TakeFree(s, donor);
    InHandSplitOk(s.(lists := Remove(s.lists, d, donor.start)), donor, order);
  }

  /** What `Allocator.Alloc` needs to know of a reachable state. */
  lemma AllocOk(n: nat, ops: seq<Laws.Op>, s: State, order: nat)
    requires Laws.Reaches(Initial(n), ops, s)
    ensures |s.lists| == MAX_ORDER + 1
    ensures Alloc(s.lists, order).None? <==> order > MAX_ORDER || !Laws.HasFreeRun(s, order)
    ensures Alloc(s.lists, order).Some? ==>
              var (lists', x) := Alloc(s.lists, order).value;
              var d, b := Donor(s.lists, order), Block(x, order);
              && SplitOk(n, Remove(s.lists, d, s.lists[d][0]), d, order, s.lists[d][0])
              && Aligned(x, order) && b !in s.live
              && Laws.Reaches(Initial(n), ops + [Laws.DoAlloc(order)], State(n, lists', s.live + {b}))
              && Laws.SumSizes(s.live + {b}) == Laws.SumSizes(s.live) + Pow2(order)
  {
    Laws.ReachableInv(n, ops, s);
    if order <= MAX_ORDER { Laws.AllocComplete(s, order); }
    if Alloc(s.lists, order).Some? {
      DonorOk(s, order);
      AllocKeeps(s, order);
      Laws.ReachesOneMore(Initial(n), ops, s, Laws.DoAlloc(order));
      Laws.SumInsert(s.live, Block(Alloc(s.lists, order).value.1, order));
    }
  }

  /** What `Allocator.Free` needs to know of a reachable state. */
  lemma FreeOk(n: nat, ops: seq<Laws.Op>, s: State, b: Block)
    requires Laws.Reaches(Initial(n), ops, s) && b in s.live
    ensures |s.lists| == MAX_ORDER + 1 && Placed(n, b) && b.start !in s.lists[b.order]
    ensures MergeOk(n, s.lists, b.order, b.start)
    ensures Laws.Reaches(Initial(n), ops + [Laws.DoFree(b)],
                         State(n, Merge(n, s.lists, b.order, b.start), s.live - {b}))
    ensures Laws.SumSizes(s.live) == Laws.SumSizes(s.live - {b}) + Pow2(b.order)
  {
    Laws.ReachableInv(n, ops, s);
    assert b in FreeBlocks(s.lists) + s.live;
    assert !Listed(s.lists, b);
    var s' := s.(live := s.live - {b});
    assert FreeBlocks(s.lists) + s'.live + {b} == FreeBlocks(s.lists) + s.live;
    InHandMergeOk(s', b);
    Laws.ReachesOneMore(Initial(n), ops, s, Laws.DoFree(b));
    Laws.SumRemove(s.live, b);
  }

  lemma InitialOk(n: nat)
    ensures SeedOk(n, EmptyLists(), 0)
    ensures Laws.Reaches(Initial(n), [], Initial(n))
    ensures Initial(n) == State(n, Seed(n, EmptyLists(), 0), {})
  {
    assert FreeBlocks(EmptyLists()) == {};
    SeededSeedOk(n, EmptyLists(), 0);
  }

  /** A live block holds no list node. */
  lemma LiveNotListed(n: nat, ops: seq<Laws.Op>, s: State, b: Block, f: nat)
    requires Laws.Reaches(Initial(n), ops, s) && b in s.live && Covers(b, f)
    ensures |s.lists| == MAX_ORDER + 1 && f < n && NotAStart(s.lists, f)
  {
    hide Laws.Reaches, NoFreeBuddies, Initial;
    Laws.ReachableInv(n, ops, s);
    var all := FreeBlocks(s.lists) + s.live;
    assert b in all;
    forall k: nat | k <= MAX_ORDER ensures f !in s.lists[k] {
      assert f in s.lists[k] ==> Block(f, k) in all && Covers(Block(f, k), f);
    }
  }

  // ---- the allocator ----------------------------------------------------------------------

  class Allocator {
    /** The first managed frame; everything else counts from it. */
    var base: nat
    /** Frames under management. */
    var frames: nat
    /** Where the list of each order begins, or `NIL`. */
    var freeLists: array<nat>
    /** The in-frame list nodes, by relative frame index. */
    var nodes: array<FreeNode>
    var bitmap: array<Word>
    /** The number of the first bit that belongs to an order. */
    var orderBitBase: array<nat>
    /** Frames handed out, and the most ever handed out at once. */
    var used: nat
    var peak: nat

    /** The free lists the fields stand for, and the blocks handed out. */
    ghost var lists: Lists
    ghost var live: set<Block>
    /** The calls made so far. */
    ghost var history: seq<Laws.Op>

    ghost function State(): State
      reads this
    {
      BuddySpec.State(frames, lists, live)
    }

    ghost predicate Concrete()
      reads `frames, `lists, `freeLists, `nodes, `bitmap, `orderBitBase, freeLists, nodes, bitmap, orderBitBase
    {
      && freeLists != orderBitBase && freeLists.Length == |lists| == MAX_ORDER + 1
      && Represents(frames, freeLists[..], nodes[..], bitmap[..], lists)
      && orderBitBase.Length == MAX_ORDER + 1
      && forall k | 0 <= k <= MAX_ORDER :: orderBitBase[k] == BitBase(frames, k)
    }

    ghost predicate Valid()
      reads this, freeLists, nodes, bitmap, orderBitBase
    {
      && Concrete()
      && Laws.Reaches(Initial(frames), history, State())
      && base % 1024 == 0
      && used == Laws.SumSizes(live)
      && used <= peak
    }

    constructor (start: nat, end: nat)
      requires FirstFrame(start) < LastFrame(end) && RegionBase(start, end) <= LastFrame(end) <= NIL
      ensures Valid()
      ensures fresh(freeLists) && fresh(nodes) && fresh(bitmap) && fresh(orderBitBase)
      ensures base == RegionBase(start, end) && base + frames == LastFrame(end)
      ensures start <= FirstFrame(start) * PAGE_SIZE && (base + frames) * PAGE_SIZE <= end
      ensures bitmap.Length * 8 == BitmapFrames(LastFrame(end) - FirstFrame(start)) * PAGE_SIZE
      ensures FirstFrame(start) * PAGE_SIZE + bitmap.Length * 8 <= base * PAGE_SIZE
      ensures lists == Initial(frames).lists && live == {} && used == peak == 0
    {
      hide BitmapFrames, RegionBase, Initial, Seed, SeedOk, Laws.Reaches, Aligned, BitBase, Represents;
      RegionFacts(start, end);
      var first, last := FirstFrame(start), LastFrame(end);
      var total := last - first;
      var bitmapFrames := BitmapFrames(total);
      var aligned := RegionBase(start, end);
      bitmap := new Word[512 * bitmapFrames](_ => 0);
      base := aligned;
      frames := total - (aligned - first);
      freeLists := new nat[MAX_ORDER + 1](_ => NIL);
      nodes := new FreeNode[total - (aligned - first)];
      orderBitBase := new nat[MAX_ORDER + 1];
      used, peak := 0, 0;
      lists, live, history := EmptyLists(), {}, [];
      new;

      NumberBits();
      NothingListed(frames, freeLists[..], nodes[..], bitmap[..]);
      InitialOk(frames);
      SeedLists();
    }

    /** Lay out the bitmap regions of the orders one after another. */
    method NumberBits()
      requires orderBitBase.Length == MAX_ORDER + 1
      modifies orderBitBase
      ensures forall k | 0 <= k <= MAX_ORDER :: orderBitBase[k] == BitBase(frames, k)
    {
      var bit := 0;
      for k := 0 to orderBitBase.Length
        invariant bit == BitBase(frames, k)
        invariant forall j | 0 <= j < k :: orderBitBase[j] == BitBase(frames, j)
      {
        orderBitBase[k] := bit;
        bit := bit + DivCeil(frames, Pow2(k));
      }
    }

    /** Seed the free lists, taking at each step the largest aligned block that still fits. */
    method SeedLists()
      requires Concrete() && SeedOk(frames, lists, 0)
      modifies `lists, freeLists, nodes, bitmap
      ensures Concrete() && lists == Seed(frames, old(lists), 0)
    {
      hide Represents, Aligned, Pow2, SeedOrder;
      var idx := 0;
      while idx < frames
        invariant idx <= frames
        invariant Concrete() && SeedOk(frames, lists, idx)
        invariant Seed(frames, lists, idx) == Seed(frames, old(lists), 0)
        decreases frames - idx
      {
        var order := LargestOrder(idx);
        Push(order, idx);
        idx := idx + Pow2(order);
      }
    }

    /** The largest order whose block starts aligned at `idx` and fits in the region. */
    method LargestOrder(idx: nat) returns (order: nat)
      requires idx < frames && |lists| == MAX_ORDER + 1
      ensures order == SeedOrder(frames, idx, |lists| - 1)
    {
      order := MAX_ORDER;
      while order > 0 && (!Aligned(idx, order) || idx + Pow2(order) > frames)
        invariant order <= MAX_ORDER
        invariant SeedOrder(frames, idx, order) == SeedOrder(frames, idx, |lists| - 1)
      {
        order := order - 1;
      }
    }

    predicate IsFree(order: nat, idx: nat)
      requires Concrete() && order <= MAX_ORDER && idx < frames && Aligned(idx, order)
      reads this, freeLists, nodes, bitmap, orderBitBase
      ensures IsFree(order, idx) <==> idx in lists[order]
    {
      BitIndexInStorage(frames, order, idx);
      assert BitSet(frames, bitmap[..], order, idx) <==> idx in lists[order];
      var bit := orderBitBase[order] + Shr(idx, order);
      TestBit(bitmap[bit / 64], bit % 64)
    }

    method SetFree(order: nat, idx: nat, free: bool)
      requires orderBitBase.Length == MAX_ORDER + 1 && order <= MAX_ORDER && idx < frames
      requires orderBitBase[order] == BitBase(frames, order)
      requires BitBase(frames, MAX_ORDER + 1) <= 64 * bitmap.Length
      modifies bitmap
      ensures BitIndex(frames, order, idx) < 64 * bitmap.Length
      ensures bitmap[..] == PutBitAt(old(bitmap[..]), BitIndex(frames, order, idx), free)
    {
      BitIndexInStorage(frames, order, idx);
      var bit := orderBitBase[order] + Shr(idx, order);
      WordWidth();
      PutBitInWord(bitmap[bit / 64], bit % 64, free, 64);
      bitmap[bit / 64] := PutBit(bitmap[bit / 64], bit % 64, free);
    }

    /** A block becomes the first one on its list, and its bit is set. */
    method Push(order: nat, idx: nat)
      requires Concrete() && order <= MAX_ORDER && Placed(frames, Block(idx, order)) && NotAStart(lists, idx)
      modifies `lists, freeLists, nodes, bitmap
      ensures Concrete()
      ensures lists == BuddySpec.Push(old(lists), order, idx)
    {
      PushRepresents(frames, freeLists[..], nodes[..], bitmap[..], lists, order, idx);
      var head := freeLists[order];
      nodes[idx] := FreeNode(head, NIL);
      if head != NIL {
        nodes[head] := nodes[head].(prev := idx);
      }
      assert nodes[..] == LinkFront(old(nodes[..]), head, idx);
      freeLists[order] := idx;
      assert freeLists[..] == old(freeLists[..])[order := idx];
      SetFree(order, idx, true);
      lists := BuddySpec.Push(lists, order, idx);
    }

    /** A block leaves its list, wherever on it it was, and its bit is cleared. */
    method Remove(order: nat, idx: nat)
      requires Concrete() && order <= MAX_ORDER && idx in lists[order]
      modifies `lists, freeLists, nodes, bitmap
      ensures Concrete()
      ensures lists == BuddySpec.Remove(old(lists), order, idx)
    {
      RemoveRepresents(frames, freeLists[..], nodes[..], bitmap[..], lists, order, idx);
      var FreeNode(next, prev) := nodes[idx];
      if prev != NIL {
        nodes[prev] := nodes[prev].(next := next);
      } else {
        freeLists[order] := next;
      }
      if next != NIL {
        nodes[next] := nodes[next].(prev := prev);
      }
      assert nodes[..] == Bypass(old(nodes[..]), idx);
      assert freeLists[..] == if prev == NIL then old(freeLists[..])[order := next] else old(freeLists[..]);
      SetFree(order, idx, false);
      lists := BuddySpec.Remove(lists, order, idx);
    }

    /** The smallest order from `order` up with a free block. */
    method FindDonor(order: nat) returns (donor: nat)
      requires Concrete() && order <= MAX_ORDER
      ensures donor == Donor(lists, order)
      ensures donor <= MAX_ORDER ==> lists[donor] != [] && freeLists[donor] == lists[donor][0]
    {
      donor := order;
      while donor <= MAX_ORDER && freeLists[donor] == NIL
        invariant order <= donor <= MAX_ORDER + 1
        invariant Donor(lists, donor) == Donor(lists, order)
      {
        HeadOf(donor);
        donor := donor + 1;
      }
      if donor <= MAX_ORDER { HeadOf(donor); }
    }

    /** Take a block of `order` off the lists, splitting a larger one if need be. */
    method TakeBlock(order: nat) returns (r: Option<nat>)
      requires Concrete()
      requires BuddySpec.Alloc(lists, order).Some? ==>
                 var d := Donor(lists, order);
                 SplitOk(frames, BuddySpec.Remove(lists, d, lists[d][0]), d, order, lists[d][0])
      modifies `lists, freeLists, nodes, bitmap
      ensures Concrete()
      ensures r.None? ==> BuddySpec.Alloc(old(lists), order).None? && lists == old(lists)
      ensures r.Some? ==> BuddySpec.Alloc(old(lists), order) == Some((lists, r.value))
    {
      if order > MAX_ORDER {
        return None;
      }
      var donor := FindDonor(order);
      if donor > MAX_ORDER {
        return None;
      }
      var idx := freeLists[donor];
      Remove(donor, idx);
      SplitDown(idx, donor, order);
      return Some(idx);
    }

    /** Split the unlisted block at `idx` from `donor` down to `order`, listing each upper half. */
    method SplitDown(idx: nat, donor: nat, order: nat)
      requires Concrete() && order <= donor <= MAX_ORDER && SplitOk(frames, lists, donor, order, idx)
      modifies `lists, freeLists, nodes, bitmap
      ensures Concrete() && lists == Split(old(lists), donor, order, idx)
    {
      hide Represents, Placed;
      var level := donor;
      while level > order
        invariant order <= level <= donor
        invariant Concrete() && SplitOk(frames, lists, level, order, idx)
        invariant Split(lists, level, order, idx) == Split(old(lists), donor, order, idx)
      {
        level := level - 1;
        var buddy := idx + Pow2(level);
        Push(level, buddy);
      }
    }

    /** Allocate `2^order` contiguous frames. */
    method Alloc(order: nat) returns (r: Option<nat>)
      requires Valid()
      modifies `lists, `live, `history, `used, `peak, freeLists, nodes, bitmap
      ensures Valid()
      ensures r.None? <==> order > MAX_ORDER || !Laws.HasFreeRun(old(State()), order)
      ensures r.None? ==> State() == old(State()) && used == old(used) && peak == old(peak)
      ensures r.Some? ==>
                && base <= r.value && BuddySpec.Alloc(old(lists), order) == Some((lists, r.value - base))
                && Aligned(r.value, order)
                && live == old(live) + {Block(r.value - base, order)}
                && Block(r.value - base, order) !in old(live)
                && used == old(used) + Pow2(order)
                && peak == Max(old(peak), used)
    {
      hide Represents, Laws.HasFreeRun, Laws.Reaches, Laws.SumSizes, Aligned, Pow2, Initial, BuddySpec.Alloc;
      AllocOk(frames, history, State(), order);
      var taken := TakeBlock(order);
      if taken.None? {
        return None;
      }
      var idx := taken.value;
      live := live + {Block(idx, order)};
      history := history + [Laws.DoAlloc(order)];
      used := used + Pow2(order);
      peak := Max(peak, used);
      PhysicallyAligned(base, idx, order);
      return Some(base + idx);
    }

    lemma HeadOf(k: nat)
      requires Concrete() && k <= MAX_ORDER
      ensures freeLists[k] == NIL <==> lists[k] == []
      ensures lists[k] != [] ==> freeLists[k] == lists[k][0]
    {
      assert Linked(nodes[..], freeLists[..][k], lists[k]);
      if lists[k] != [] { assert NodeAt(nodes[..], lists[k], 0); }
    }

    /** The range, alignment and double-free checks `Free` makes on entry pass for every live block. */
    lemma FreeChecksPass(b: Block)
      requires Valid() && b in live
      ensures b.order <= MAX_ORDER && b.start + Pow2(b.order) <= frames && Aligned(b.start, b.order)
      ensures !IsFree(b.order, b.start)
    {
      FreeOk(frames, history, State(), b);
    }

    /** Return the live block at frame `ppn`, merging it with free buddies. */
    method Free(ppn: nat, order: nat)
      requires Valid() && base <= ppn && Block(ppn - base, order) in live
      modifies `lists, `live, `history, `used, freeLists, nodes, bitmap
      ensures Valid()
      ensures order <= MAX_ORDER && lists == Merge(frames, old(lists), order, ppn - base)
      ensures live == old(live) - {Block(ppn - base, order)}
      ensures used == old(used) - Pow2(order)
    {
      hide *;
      FreeBlock(Block(ppn - base, order));
    }

    method FreeBlock(b: Block)
      requires Valid() && b in live
      modifies `lists, `live, `history, `used, freeLists, nodes, bitmap
      ensures Valid()
      ensures b.order <= MAX_ORDER && lists == Merge(frames, old(lists), b.order, b.start)
      ensures live == old(live) - {b}
      ensures used == old(used) - Pow2(b.order)
    {
      hide Represents, Laws.Reaches, Laws.SumSizes, Aligned, Pow2, Initial, Merge, MergeOk, BitBase;
      FreeOk(frames, history, State(), b);
      ghost var after := BuddySpec.State(frames, Merge(frames, lists, b.order, b.start), live - {b});
      Coalesce(b.order, b.start);
      used := used - Pow2(b.order);
      live := live - {b};
      history := history + [Laws.DoFree(b)];
      assert State() == after;
    }

    /** Join an unlisted block with its free buddies and list the result. */
    method Coalesce(order: nat, start: nat)
      requires Concrete() && order <= MAX_ORDER && MergeOk(frames, lists, order, start)
      modifies `lists, freeLists, nodes, bitmap
      ensures Concrete() && lists == Merge(frames, old(lists), order, start)
    {
      hide Represents;
      var level, idx := order, start;
      while level < MAX_ORDER
        invariant order <= level <= MAX_ORDER
        invariant Concrete() && MergeOk(frames, lists, level, idx)
        invariant Merge(frames, lists, level, idx) == Merge(frames, old(lists), order, start)
      {
        BuddyProperties(idx, level);
        var buddy := Buddy(idx, level);
        if buddy + Pow2(level) > frames || !IsFree(level, buddy) {
          break;
        }
        Remove(level, buddy);
        idx := Min(idx, buddy);
        level := level + 1;
      }
      Push(level, idx);
    }

    method FreeFrames() returns (r: nat)
      requires Valid()
      ensures r == Laws.SumSizes(FreeBlocks(lists))
      ensures r + Laws.SumSizes(live) == frames
    {
      Laws.EveryRunTiles(frames, history, State());
      r := frames - used;
    }

    /** The owner of a live block may write anything into its frames. */
    method OwnerWrites(b: Block, f: nat, node: FreeNode)
      requires Valid() && b in live && Covers(b, f)
      modifies nodes
      ensures Valid()
    {
      LiveNotListed(frames, history, State(), b, f);
      nodes[f] := node;
      forall k | 0 <= k <= MAX_ORDER ensures Linked(nodes[..], freeLists[..][k], lists[k]) {
        LinkedElsewhere(old(nodes[..]), nodes[..], freeLists[k], lists[k]);
      }
    }
  }
}
