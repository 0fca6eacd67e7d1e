/** The kernel heap: segregated free lists carved out of frames, large requests straight from the buddy allocator.
    Everything is a block of `2^order` bytes: a class block (orders 3 to 11) or whole frames (12 and up). */
module KernelHeap {
  import opened Prelude
  import opened Dyadic
  import opened BuddySpec
  import opened BuddyAllocator
  import Laws = BuddyLaws

  const CLASS_SIZES: seq<nat> := [8, 16, 32, 64, 128, 256, 512, 1024, 2048]
  const NUM_CLASSES: nat := 9
  const MAX_CLASS_SIZE: nat := 2048
  const PAGE_SHIFT: nat := 12

  // ---- sizes ---------------------------------------------------------------------------------------

  function SizeOf(c: nat): nat
    requires c < NUM_CLASSES
  {
    CLASS_SIZES[c]
  }

  lemma ClassSize(c: nat)
    requires c < NUM_CLASSES
    ensures SizeOf(c) == Pow2(c + 3)
  {
    assert Pow2(3) == 8 && Pow2(4) == 16 && Pow2(5) == 32 && Pow2(6) == 64;
    assert Pow2(7) == 128 && Pow2(8) == 256 && Pow2(9) == 512;
    assert Pow2(10) == 1024 && Pow2(11) == 2048;
  }

  lemma PageIsPow2()
    ensures Pow2(PAGE_SHIFT) == PAGE_SIZE
  {
    ClassSize(8);
  }

  function FirstClass(need: nat, c: nat): (r: nat)
    requires c < NUM_CLASSES && need <= MAX_CLASS_SIZE
    ensures c <= r < NUM_CLASSES && SizeOf(r) >= need && forall d | c <= d < r :: SizeOf(d) < need
    decreases NUM_CLASSES - c
  {
    if SizeOf(c) >= need then c else FirstClass(need, c + 1)
  }

  /** The smallest class that satisfies a layout: large enough for its size, and for its alignment. */
  function ClassFor(size: nat, align: nat): (r: Option<nat>)
    ensures r.None? <==> size > 2048 || align > 2048
    ensures r.Some? ==> r.value < NUM_CLASSES && SizeOf(r.value) >= size && SizeOf(r.value) >= align
    ensures r.Some? ==> forall d | 0 <= d < r.value :: SizeOf(d) < size || SizeOf(d) < align
  {
    var need := Max(size, align);
    if need > MAX_CLASS_SIZE then None else Some(FirstClass(need, 0))
  }

  /** `usize::BITS - n.leading_zeros()` */
  function BitLength(n: nat): nat {
    if n == 0 then 0 else 1 + BitLength(n / 2)
  }

  function OrderFor(count: nat): nat {
    if count <= 1 then 0 else BitLength(count - 1)
  }

  lemma {:induction false} BitLengthBounds(n: nat)
    ensures n < Pow2(BitLength(n))
    ensures n > 0 ==> Pow2(BitLength(n) - 1) <= n
  {
    if n > 0 { BitLengthBounds(n / 2); }
  }

  /** The smallest order whose block holds `count` frames. */
  lemma OrderForIsSmallest(count: nat)
    ensures count <= Pow2(OrderFor(count))
    ensures forall k: nat | count <= Pow2(k) :: OrderFor(count) <= k
  {
    if count > 1 {
      BitLengthBounds(count - 1);
      var r := OrderFor(count);
      forall k: nat | count <= Pow2(k) ensures r <= k {
        if k < r { Pow2Monotone(k, r - 1); }
      }
    }
  }

  // ---- the heap as a value -----------------------------------------------------------------------

  /** The free list of every class, the class each carved page belongs to, and the blocks handed out. */
  datatype Spec = Spec(lists: seq<seq<nat>>, carved: map<nat, nat>, live: set<Block>)

  function PageNo(b: Block): nat { b.start / PAGE_SIZE }

  /** A block that some carved page was cut into. */
  predicate IsPiece(carved: map<nat, nat>, b: Block) {
    && 3 <= b.order < PAGE_SHIFT && Aligned(b.start, b.order)
    && PageNo(b) in carved && carved[PageNo(b)] == b.order - 3
  }

  predicate OnList(lists: seq<seq<nat>>, b: Block) {
    3 <= b.order < PAGE_SHIFT && b.order - 3 < |lists| && b.start in lists[b.order - 3]
  }

  /** The block of frames, in the allocator's terms, that holds a block of the heap. */
  function Home(base: nat, b: Block): Block {
    Block(if OFFSET_PAGES + base <= PageNo(b) then PageNo(b) - OFFSET_PAGES - base else 0,
          if b.order < PAGE_SHIFT then 0 else b.order - PAGE_SHIFT)
  }

  ghost predicate HomeOk(base: nat, owned: set<Block>, b: Block) {
    PageNo(b) >= OFFSET_PAGES + base && Home(base, b) in owned
  }

  ghost predicate LargeOk(base: nat, owned: set<Block>, carved: map<nat, nat>, b: Block) {
    Aligned(b.start, PAGE_SHIFT) && PageNo(b) !in carved && HomeOk(base, owned, b)
  }

  ghost predicate CarvedOk(base: nat, owned: set<Block>, g: nat) {
    g >= OFFSET_PAGES + base && Block(g - OFFSET_PAGES - base, 0) in owned
  }

  /** Each class list holds exactly the blocks carved for it that are not handed out, each once. `base` and `owned`
      are the frame allocator's: its first frame and the blocks it has handed out. */
  ghost predicate HeapInv(h: Spec, base: nat, owned: set<Block>) {
    && |h.lists| == NUM_CLASSES && (forall c | 0 <= c < NUM_CLASSES :: Distinct(h.lists[c]))
    && (forall b: Block | b.order < PAGE_SHIFT :: b in h.live || OnList(h.lists, b) <==> IsPiece(h.carved, b))
    && (forall b: Block | OnList(h.lists, b) :: b !in h.live)
    && (forall b: Block | b in h.live && b.order >= PAGE_SHIFT :: LargeOk(base, owned, h.carved, b))
    && (forall g | g in h.carved :: CarvedOk(base, owned, g))
  }

  /** Two blocks with no byte in common. */
  predicate Apart(a: Block, b: Block) {
    a.start + Pow2(a.order) <= b.start || b.start + Pow2(b.order) <= a.start
  }

  function Pages(b: Block): nat {
    if b.order < PAGE_SHIFT then 1 else Pow2(b.order - PAGE_SHIFT)
  }

  /** A block lies inside the pages of its home. */
  lemma InsideHome(base: nat, owned: set<Block>, carved: map<nat, nat>, b: Block)
    requires IsPiece(carved, b) || (b.order >= PAGE_SHIFT && LargeOk(base, owned, carved, b))
    ensures PageNo(b) * PAGE_SIZE <= b.start && b.start + Pow2(b.order) <= (PageNo(b) + Pages(b)) * PAGE_SIZE
  {
    PageIsPow2();
    if b.order < PAGE_SHIFT {
      MultipleAligned(PageNo(b), PAGE_SHIFT);
      NestedOrDisjoint(b.start, b.order, PageNo(b) * PAGE_SIZE, PAGE_SHIFT);
    } else {
      AlignedIsMultiple(b.start, PAGE_SHIFT);
      ShiftIsDivision(b.start, PAGE_SHIFT);
      PowSplit(b.order - PAGE_SHIFT);
    }
  }

  lemma {:induction false} PowSplit(k: nat)
    ensures Pow2(k + PAGE_SHIFT) == Pow2(k) * PAGE_SIZE
  {
    if k == 0 { PageIsPow2(); } else { PowSplit(k - 1); }
  }

  /** Different blocks handed out by the frame allocator are disjoint runs of frames. */
  lemma HomesApart(s: State, x: Block, y: Block)
    requires Inv(s) && x in s.live && y in s.live && x != y
    ensures Apart(x, y)
  {
    assert x in FreeBlocks(s.lists) + s.live && y in FreeBlocks(s.lists) + s.live;
    var f := Max(x.start, y.start);
    assert !(Covers(x, f) && Covers(y, f));
  }

  predicate Used(h: Spec, b: Block) {
    b in h.live || OnList(h.lists, b)
  }

  /** Every block of the heap, free or handed out, has a home among the frames claimed. */
  lemma HasHome(h: Spec, base: nat, owned: set<Block>, b: Block)
    requires HeapInv(h, base, owned) && Used(h, b)
    ensures Placement(h, base, owned, b) && HomeOk(base, owned, b) && Home(base, b) in owned
  {
    hide Aligned, PageNo;
    if b.order < PAGE_SHIFT {
      assert IsPiece(h.carved, b);
      assert CarvedOk(base, owned, PageNo(b));
    }
  }

  /** No two blocks of the heap overlap, be they handed out or on a list. */
  lemma BlocksApart(h: Spec, base: nat, s: State, a: Block, b: Block)
    requires HeapInv(h, base, s.live) && Inv(s) && Used(h, a) && Used(h, b) && a != b
    ensures Apart(a, b)
  {
    HasHome(h, base, s.live, a);
    HasHome(h, base, s.live, b);
    hide *;
    if Home(base, a) != Home(base, b) {
      HomesApart(s, Home(base, a), Home(base, b));
      DifferentHomes(h, base, s.live, a, b);
    } else {
      SameHome(h, base, s.live, a, b);
    }
  }

  ghost predicate Placement(h: Spec, base: nat, owned: set<Block>, b: Block) {
    && HomeOk(base, owned, b)
    && (if b.order < PAGE_SHIFT then IsPiece(h.carved, b) else LargeOk(base, owned, h.carved, b))
  }

  lemma DifferentHomes(h: Spec, base: nat, owned: set<Block>, a: Block, b: Block)
    requires Placement(h, base, owned, a) && Placement(h, base, owned, b) && Apart(Home(base, a), Home(base, b))
    ensures Apart(a, b)
  {
    InsideHome(base, owned, h.carved, a);
    InsideHome(base, owned, h.carved, b);
    assert Pow2(0) == 1;
    hide Pow2, Aligned, PageNo, IsPiece;
    assert PageNo(a) + Pages(a) <= PageNo(b) || PageNo(b) + Pages(b) <= PageNo(a);
  }

  lemma SameHome(h: Spec, base: nat, owned: set<Block>, a: Block, b: Block)
    requires Placement(h, base, owned, a) && Placement(h, base, owned, b) && Home(base, a) == Home(base, b) && a != b
    ensures Apart(a, b)
  {
    hide Pow2, Aligned, PageNo;
    assert PageNo(a) == PageNo(b);
    if a.order < PAGE_SHIFT && b.order < PAGE_SHIFT {
      NestedOrDisjoint(a.start, a.order, b.start, b.order);
    } else if a.order >= PAGE_SHIFT && b.order >= PAGE_SHIFT {
      PageStart(a);
      PageStart(b);
    }
  }

  lemma PageStart(b: Block)
    requires Aligned(b.start, PAGE_SHIFT)
    ensures b.start == PageNo(b) * PAGE_SIZE
  {
    PageIsPow2();
    AlignedIsMultiple(b.start, PAGE_SHIFT);
    ShiftIsDivision(b.start, PAGE_SHIFT);
  }

  // ---- the operations on values ------------------------------------------------------------------------

  function Nth(start: nat, size: nat, i: nat): nat { start + i * size }

  /** The blocks of class size `size` at `start`, from the `i`-th to the last before `count`, lowest first. */
  function Carve(start: nat, size: nat, i: nat, count: nat): (r: seq<nat>)
    requires i <= count
    ensures |r| == count - i && forall j | 0 <= j < |r| :: r[j] == start + (i + j) * size
    decreases count - i
  {
    if i == count then [] else [start + i * size] + Carve(start, size, i + 1, count)
  }

  /** The blocks cut out of a page are exactly its aligned blocks. */
  lemma CarveIsPage(g: nat, c: nat, a: nat)
    requires c < NUM_CLASSES
    ensures PAGE_SIZE / SizeOf(c) * SizeOf(c) == PAGE_SIZE
    ensures a in Carve(g * PAGE_SIZE, SizeOf(c), 0, PAGE_SIZE / SizeOf(c)) <==> Aligned(a, c + 3) && a / PAGE_SIZE == g
    ensures Distinct(Carve(g * PAGE_SIZE, SizeOf(c), 0, PAGE_SIZE / SizeOf(c)))
  {
    ClassCount(c);
    ClassSize(c);
    AlignedIsModulo(a, c + 3);
    hide Pow2, Aligned, Carve, SizeOf;
    CarveMembers(g, SizeOf(c), PAGE_SIZE / SizeOf(c), a);
    CarveDistinct(g * PAGE_SIZE, SizeOf(c), PAGE_SIZE / SizeOf(c));
  }

  lemma ClassCount(c: nat)
    requires c < NUM_CLASSES
    ensures SizeOf(c) > 0 && PAGE_SIZE / SizeOf(c) * SizeOf(c) == PAGE_SIZE
  {
  }

  lemma CarveMembers(g: nat, size: nat, count: nat, a: nat)
    requires size > 0 && count * size == PAGE_SIZE
    ensures a in Carve(g * PAGE_SIZE, size, 0, count) <==> a % size == 0 && a / PAGE_SIZE == g
  {
    var r := Carve(g * PAGE_SIZE, size, 0, count);
    if a in r {
      var j :| 0 <= j < |r| && r[j] == a;
      CarveElement(g, size, count, j);
    }
    if a % size == 0 && a / PAGE_SIZE == g {
      CarveFinds(g, size, count, a);
      assert r[(a - g * PAGE_SIZE) / size] == a;
    }
  }

  lemma CarveDistinct(start: nat, size: nat, count: nat)
    requires size > 0
    ensures Distinct(Carve(start, size, 0, count))
  {
    var r := Carve(start, size, 0, count);
    forall i, j | 0 <= i < j < |r| ensures r[i] != r[j] { MulOrder(i, j, size); }
  }

  lemma CarveElement(g: nat, size: nat, count: nat, j: nat)
    requires size > 0 && count * size == PAGE_SIZE && j < count
    ensures (g * PAGE_SIZE + j * size) % size == 0 && (g * PAGE_SIZE + j * size) / PAGE_SIZE == g
  {
    MulOrder(j, count, size);
    assert g * PAGE_SIZE + j * size == (g * count + j) * size by { assert g * (count * size) == g * count * size; }
    DivisionUnique(g * PAGE_SIZE + j * size, size, g * count + j, 0);
    DivisionUnique(g * PAGE_SIZE + j * size, PAGE_SIZE, g, j * size);
  }

  lemma CarveFinds(g: nat, size: nat, count: nat, a: nat)
    requires size > 0 && count * size == PAGE_SIZE && a % size == 0 && a / PAGE_SIZE == g
    ensures g * PAGE_SIZE <= a && (a - g * PAGE_SIZE) / size < count
    ensures g * PAGE_SIZE + (a - g * PAGE_SIZE) / size * size == a
  {
    var q := a / size;
    assert a == q * size;
    assert g * PAGE_SIZE == g * count * size by { assert g * (count * size) == g * count * size; }
    assert a - g * PAGE_SIZE == (q - g * count) * size;
    assert 0 <= a - g * PAGE_SIZE < count * size;
    DivisionUnique(a - g * PAGE_SIZE, size, q - g * count, 0);
    MulOrder(count, q - g * count, size);
  }

  /** A page was carved for class `c`. */
  function Refilled(h: Spec, g: nat, c: nat): Spec
    requires c < |h.lists| && c < NUM_CLASSES
  {
    Spec(h.lists[c := Carve(g * PAGE_SIZE, SizeOf(c), 0, PAGE_SIZE / SizeOf(c)) + h.lists[c]], h.carved[g := c], h.live)
  }

  lemma RefillKeeps(h: Spec, base: nat, owned: set<Block>, owned': set<Block>, g: nat, c: nat)
    requires HeapInv(h, base, owned) && c < NUM_CLASSES && g >= OFFSET_PAGES + base
    requires Block(g - OFFSET_PAGES - base, 0) !in owned && owned' == owned + {Block(g - OFFSET_PAGES - base, 0)}
    requires forall b | b in h.live && b.order >= PAGE_SHIFT :: PageNo(b) != g
    ensures HeapInv(Refilled(h, g, c), base, owned') && g !in h.carved
  {
    var h' := Refilled(h, g, c);
    assert !CarvedOk(base, owned, g);
    hide Aligned, Carve, PageNo;
    forall b: Block | b.order < PAGE_SHIFT
      ensures b in h'.live || OnList(h'.lists, b) <==> IsPiece(h'.carved, b)
      ensures OnList(h'.lists, b) ==> b !in h'.live
    {
      assert b in h.live || OnList(h.lists, b) <==> IsPiece(h.carved, b);
      RefillPiece(h, g, c, b);
    }
    forall k | 0 <= k < NUM_CLASSES ensures Distinct(h'.lists[k]) { if k == c { RefillDistinct(h, g, c); } }
    forall b: Block | b in h'.live && b.order >= PAGE_SHIFT ensures LargeOk(base, owned', h'.carved, b) {
      assert LargeOk(base, owned, h.carved, b);
    }
    forall p | p in h'.carved ensures CarvedOk(base, owned', p) { assert p != g ==> CarvedOk(base, owned, p); }
  }

  /** On the lists, a page carved adds exactly its own blocks. */
  lemma RefillPiece(h: Spec, g: nat, c: nat, b: Block)
    requires |h.lists| == NUM_CLASSES && c < NUM_CLASSES && g !in h.carved && b.order < PAGE_SHIFT
    requires b in h.live || OnList(h.lists, b) <==> IsPiece(h.carved, b)
    requires OnList(h.lists, b) ==> b !in h.live
    ensures b in h.live || OnList(Refilled(h, g, c).lists, b) <==> IsPiece(h.carved[g := c], b)
    ensures OnList(Refilled(h, g, c).lists, b) ==> b !in h.live
  {
    CarveIsPage(g, c, b.start);
    hide Aligned, Carve;
  }

  lemma RefillDistinct(h: Spec, g: nat, c: nat)
    requires |h.lists| == NUM_CLASSES && c < NUM_CLASSES && g !in h.carved && Distinct(h.lists[c])
    requires forall b: Block | b.order < PAGE_SHIFT && OnList(h.lists, b) :: IsPiece(h.carved, b)
    ensures Distinct(Refilled(h, g, c).lists[c])
  {
    var added := Carve(g * PAGE_SIZE, SizeOf(c), 0, PAGE_SIZE / SizeOf(c));
    CarveIsPage(g, c, 0);
    forall x | x in h.lists[c] ensures x !in added {
      CarveIsPage(g, c, x);
      assert OnList(h.lists, Block(x, c + 3));
    }
    DistinctJoin(added, h.lists[c]);
  }

  lemma DistinctJoin(p: seq<nat>, q: seq<nat>)
    requires Distinct(p) && Distinct(q) && forall x | x in q :: x !in p
    ensures Distinct(p + q)
  {
    forall i, j | 0 <= i < j < |p + q| ensures (p + q)[i] != (p + q)[j] {
      if i < |p| <= j { assert (p + q)[j] in q && (p + q)[i] in p; }
    }
  }

  /** The head of list `c` was handed out. */
  function Taken(h: Spec, c: nat): Spec
    requires c < |h.lists| && h.lists[c] != []
  {
    Spec(h.lists[c := h.lists[c][1..]], h.carved, h.live + {Block(h.lists[c][0], c + 3)})
  }

  lemma TakeKeeps(h: Spec, base: nat, owned: set<Block>, c: nat)
    requires HeapInv(h, base, owned) && c < NUM_CLASSES && h.lists[c] != []
    ensures HeapInv(Taken(h, c), base, owned) && Block(h.lists[c][0], c + 3) !in h.live
    ensures IsPiece(h.carved, Block(h.lists[c][0], c + 3))
  {
    var a, h' := Block(h.lists[c][0], c + 3), Taken(h, c);
    hide Aligned;
    assert OnList(h.lists, a);
    forall b: Block | b.order < PAGE_SHIFT
      ensures OnList(h'.lists, b) <==> OnList(h.lists, b) && b != a
      ensures b in h'.live || OnList(h'.lists, b) <==> IsPiece(h'.carved, b)
    {
      assert b in h.live || OnList(h.lists, b) <==> IsPiece(h.carved, b);
      if b.order == a.order { HeadOnce(h.lists[c], b.start); }
    }
  }

  lemma HeadOnce(list: seq<nat>, x: nat)
    requires list != [] && Distinct(list)
    ensures x in list[1..] <==> x in list && x != list[0]
  {
    if x in list && x != list[0] {
      var i :| 0 <= i < |list| && list[i] == x;
      assert list[1..][i - 1] == x;
    }
  }

  /** A class block came back. */
  function Returned(h: Spec, b: Block): Spec
    requires 3 <= b.order < PAGE_SHIFT && b.order - 3 < |h.lists|
  {
    Spec(h.lists[b.order - 3 := [b.start] + h.lists[b.order - 3]], h.carved, h.live - {b})
  }

  lemma ReturnKeeps(h: Spec, base: nat, owned: set<Block>, b: Block)
    requires HeapInv(h, base, owned) && b in h.live && 3 <= b.order < PAGE_SHIFT
    ensures HeapInv(Returned(h, b), base, owned) && !OnList(h.lists, b)
  {
    var h' := Returned(h, b);
    hide Aligned;
    assert !OnList(h.lists, b);
    forall x: Block | x.order < PAGE_SHIFT
      ensures OnList(h'.lists, x) <==> OnList(h.lists, x) || x == b
      ensures x in h'.live || OnList(h'.lists, x) <==> IsPiece(h'.carved, x)
    {
      assert x in h.live || OnList(h.lists, x) <==> IsPiece(h.carved, x);
    }
  }

  /** The last block returned to a class is the next one handed out, and the lists are as before. */
  lemma LastInFirstOut(h: Spec, b: Block)
    requires |h.lists| == NUM_CLASSES && 3 <= b.order < PAGE_SHIFT && b in h.live
    ensures var again := Taken(Returned(h, b), b.order - 3);
            again == h && Returned(h, b).lists[b.order - 3][0] == b.start
  {
    var again := Taken(Returned(h, b), b.order - 3);
    assert again.lists == h.lists;
    assert again.live == h.live;
  }

  /** Whole frames were handed out. */
  lemma LargeKeeps(h: Spec, base: nat, owned: set<Block>, ppn: nat, k: nat)
    requires HeapInv(h, base, owned) && base <= ppn && Block(ppn - base, k) !in owned
    requires forall g | g in h.carved :: g != OFFSET_PAGES + ppn
    ensures var b := Block((OFFSET_PAGES + ppn) * PAGE_SIZE, k + PAGE_SHIFT);
            && HeapInv(h.(live := h.live + {b}), base, owned + {Block(ppn - base, k)})
            && b !in h.live && Aligned(b.start, PAGE_SHIFT)
  {
    var b := Block((OFFSET_PAGES + ppn) * PAGE_SIZE, k + PAGE_SHIFT);
    PageIsPow2();
    MultipleAligned(OFFSET_PAGES + ppn, PAGE_SHIFT);
    assert PageNo(b) == OFFSET_PAGES + ppn;
    hide Aligned;
    assert !LargeOk(base, owned, h.carved, b);
    hide PageNo;
    var h', owned' := h.(live := h.live + {b}), owned + {Block(ppn - base, k)};
    forall x: Block | x in h'.live && x.order >= PAGE_SHIFT ensures LargeOk(base, owned', h'.carved, x) {
      assert x != b ==> LargeOk(base, owned, h.carved, x);
    }
    forall g | g in h.carved ensures CarvedOk(base, owned', g) { assert CarvedOk(base, owned, g); }
    forall x: Block | x.order < PAGE_SHIFT ensures x in h'.live || OnList(h'.lists, x) <==> IsPiece(h'.carved, x) {
      assert x in h.live || OnList(h.lists, x) <==> IsPiece(h.carved, x);
    }
  }

  /** Whole frames came back. */
  lemma LargeReturns(h: Spec, base: nat, owned: set<Block>, b: Block)
    requires HeapInv(h, base, owned) && b in h.live && b.order >= PAGE_SHIFT
    ensures HeapInv(h.(live := h.live - {b}), base, owned - {Home(base, b)}) && Home(base, b) in owned
    ensures b.start == PageNo(b) * PAGE_SIZE && PageNo(b) >= OFFSET_PAGES + base
  {
    assert LargeOk(base, owned, h.carved, b);
    PageStart(b);
    hide Aligned, PageNo;
    var h', owned' := h.(live := h.live - {b}), owned - {Home(base, b)};
    forall x: Block | x in h'.live && x.order >= PAGE_SHIFT ensures LargeOk(base, owned', h'.carved, x) {
      assert LargeOk(base, owned, h.carved, x);
      PageStart(x);
    }
    forall g | g in h.carved ensures CarvedOk(base, owned', g) { assert CarvedOk(base, owned, g); }
    forall x: Block | x.order < PAGE_SHIFT ensures x in h'.live || OnList(h'.lists, x) <==> IsPiece(h'.carved, x) {
      assert x in h.live || OnList(h.lists, x) <==> IsPiece(h.carved, x);
    }
  }

  // ---- bytes --------------------------------------------------------------------------------------------

  /** The bytes on the lists of the first `c` classes. */
  function FreeBytes(lists: seq<seq<nat>>, c: nat): nat
    requires c <= |lists|
  {
    if c == 0 then 0 else |lists[c - 1]| * Pow2(c + 2) + FreeBytes(lists, c - 1)
  }

  lemma {:induction false} FreeBytesChange(lists: seq<seq<nat>>, k: nat, list: seq<nat>, c: nat)
    requires k < |lists| && c <= |lists|
    ensures FreeBytes(lists[k := list], c) ==
            FreeBytes(lists, c) + if k < c then (|list| - |lists[k]|) * Pow2(k + 3) else 0
  {
    if c > 0 {
      FreeBytesChange(lists, k, list, c - 1);
      if k == c - 1 { Distribute(|list|, |lists[k]|, Pow2(c + 2)); }
    }
  }

  lemma Distribute(a: int, b: int, d: int)
    ensures (a - b) * d == a * d - b * d
  {
  }

  /** The length of one list changed by `d`. */
  lemma FreeBytesBy(lists: seq<seq<nat>>, k: nat, list: seq<nat>, d: int)
    requires k < |lists| == NUM_CLASSES && |list| == |lists[k]| + d
    ensures FreeBytes(lists[k := list], NUM_CLASSES) == FreeBytes(lists, NUM_CLASSES) + d * Pow2(k + 3)
  {
    FreeBytesChange(lists, k, list, NUM_CLASSES);
  }

  // ---- lists in memory ----------------------------------------------------------------------------------

  /** `head` starts a chain of links through memory that visits exactly `list`. */
  ghost predicate Chain(links: map<nat, nat>, head: nat, list: seq<nat>)
    decreases |list|
  {
    if list == [] then head == 0
        else head == list[0] && head != 0 && head in links && Chain(links, links[head], list[1..])
  }

  lemma {:induction false} ChainElsewhere(links: map<nat, nat>, links': map<nat, nat>, head: nat, list: seq<nat>)
    requires Chain(links, head, list) && forall a | a in list && a in links :: a in links' && links'[a] == links[a]
    ensures Chain(links', head, list)
    decreases |list|
  {
    if list != [] { ChainElsewhere(links, links', links[head], list[1..]); }
  }

  lemma ChainFront(links: map<nat, nat>, head: nat, list: seq<nat>, a: nat)
    requires Chain(links, head, list) && a !in list && a != 0
    ensures Chain(links[a := head], a, [a] + list)
  {
    ChainElsewhere(links, links[a := head], head, list);
    assert ([a] + list)[1..] == list;
  }

  ghost predicate Chains(links: map<nat, nat>, heads: seq<nat>, lists: seq<seq<nat>>) {
    |heads| == |lists| == NUM_CLASSES && forall c | 0 <= c < NUM_CLASSES :: Chain(links, heads[c], lists[c])
  }

  lemma ChainsElsewhere(links: map<nat, nat>, heads: seq<nat>, lists: seq<seq<nat>>, links': map<nat, nat>,
                        c: nat, head: nat, list: seq<nat>)
    requires Chains(links, heads, lists) && c < NUM_CLASSES && Chain(links', head, list)
    requires forall k, a | 0 <= k < NUM_CLASSES && k != c && a in lists[k] && a in links ::
               a in links' && links'[a] == links[a]
    ensures Chains(links', heads[c := head], lists[c := list])
  {
    hide Chain;
    var heads', lists' := heads[c := head], lists[c := list];
    forall k | 0 <= k < NUM_CLASSES ensures Chain(links', heads'[k], lists'[k]) {
      if k != c { ChainElsewhere(links, links', heads[k], lists[k]); }
    }
  }

  /** What was taken from the frames: one page for each carved one, and the large blocks. */
  ghost predicate Claims(h: Spec, claimed: set<Block>) {
    forall b: Block :: b in claimed <==>
      (b.order == PAGE_SHIFT && b.start == PageNo(b) * PAGE_SIZE && PageNo(b) in h.carved)
          || (b in h.live && b.order >= PAGE_SHIFT)
  }

  /** The counters: bytes handed out, bytes claimed, and nothing lost between them and the lists. */
  ghost predicate Counted(h: Spec, inUse: nat, reserved: nat, claimed: set<Block>)
    requires |h.lists| == NUM_CLASSES
  {
    && Claims(h, claimed) && inUse == Laws.SumSizes(h.live) && reserved == Laws.SumSizes(claimed)
    && inUse + FreeBytes(h.lists, NUM_CLASSES) == reserved
  }

  /** The heap, the frame allocator's first frame and live blocks, and the memory of the lists. */
  datatype Heap = Heap(spec: Spec, base: nat, owned: set<Block>, links: map<nat, nat>, heads: seq<nat>,
                       inUse: nat, reserved: nat, claimed: set<Block>)

  /** Everything that holds between two calls. */
  ghost predicate HeapOk(f: Heap) {
    && HeapInv(f.spec, f.base, f.owned) && Chains(f.links, f.heads, f.spec.lists)
    && Counted(f.spec, f.inUse, f.reserved, f.claimed)
  }

  lemma OkParts(f: Heap)
    requires HeapOk(f)
    ensures HeapInv(f.spec, f.base, f.owned) && Chains(f.links, f.heads, f.spec.lists)
    ensures |f.spec.lists| == |f.heads| == NUM_CLASSES
    ensures Counted(f.spec, f.inUse, f.reserved, f.claimed)
  {
  }

  /** The order of the block a layout is served with. */
  function OrderOf(size: nat, align: nat): nat {
    var c := ClassFor(size, align);
    if c.Some? then c.value + 3 else OrderFor(DivCeil(size, PAGE_SIZE)) + PAGE_SHIFT
  }

  lemma OrderFits(size: nat, alignLog: nat)
    ensures Pow2(OrderOf(size, Pow2(alignLog))) >= size
    ensures ClassFor(size, Pow2(alignLog)).Some? ==> alignLog <= OrderOf(size, Pow2(alignLog)) < PAGE_SHIFT
    ensures Pow2(alignLog) <= PAGE_SIZE ==> alignLog <= PAGE_SHIFT
  {
    var align := Pow2(alignLog);
    PageIsPow2();
    if alignLog > PAGE_SHIFT { Pow2Monotone(PAGE_SHIFT, alignLog); }
    var c := ClassFor(size, align);
    if c.Some? {
      ClassSize(c.value);
      if c.value + 3 < alignLog { Pow2Monotone(c.value + 3, alignLog); }
    } else {
      var count := DivCeil(size, PAGE_SIZE);
      OrderForIsSmallest(count);
      DivCeilBounds(size, PAGE_SIZE);
      PowSplit(OrderFor(count));
      MulOrder(count, Pow2(OrderFor(count)), PAGE_SIZE);
    }
  }

  // ---- what each step does to all of it ---------------------------------------------------------------

  /** A block just handed out by the frame allocator starts where no earlier one does. */
  lemma FreshStart(s: State, x: Block, y: Block)
    requires Inv(s) && x in s.live && y in s.live && x != y
    ensures x.start != y.start
  {
    hide Inv;
    HomesApart(s, x, y);
  }

  lemma RefillCounts(h: Spec, inUse: nat, reserved: nat, claimed: set<Block>, g: nat, c: nat)
    requires |h.lists| == NUM_CLASSES && Counted(h, inUse, reserved, claimed) && c < NUM_CLASSES && g !in h.carved
    requires forall b | b in h.live && b.order >= PAGE_SHIFT :: PageNo(b) != g
    ensures Counted(Refilled(h, g, c), inUse, reserved + PAGE_SIZE, claimed + {Block(g * PAGE_SIZE, PAGE_SHIFT)})
  {
    var page, h', count := Block(g * PAGE_SIZE, PAGE_SHIFT), Refilled(h, g, c), PAGE_SIZE / SizeOf(c);
    assert PageNo(page) == g;
    hide Carve;
    ClassCount(c);
    ClassSize(c);
    PageIsPow2();
    hide Pow2, SizeOf;
    Laws.SumInsert(claimed, page);
    FreeBytesBy(h.lists, c, h'.lists[c], count);
    hide FreeBytes;
    RefillClaims(h, claimed, g, c);
  }

  lemma RefillClaims(h: Spec, claimed: set<Block>, g: nat, c: nat)
    requires |h.lists| == NUM_CLASSES && c < NUM_CLASSES && Claims(h, claimed)
    ensures Claims(Refilled(h, g, c), claimed + {Block(g * PAGE_SIZE, PAGE_SHIFT)})
  {
    hide Carve;
  }

  lemma RefillOk(f: Heap, ppn: nat, c: nat, s: State, links: map<nat, nat>, head: nat)
    requires HeapOk(f) && c < NUM_CLASSES && f.base <= ppn && |f.spec.lists| == |f.heads| == NUM_CLASSES
    requires Inv(s) && s.live == f.owned + {Block(ppn - f.base, 0)} && Block(ppn - f.base, 0) !in f.owned
    requires Chain(links, head, Refilled(f.spec, OFFSET_PAGES + ppn, c).lists[c])
    requires forall k, a | 0 <= k < NUM_CLASSES && k != c && a in f.spec.lists[k] && a in f.links ::
               a in links && links[a] == f.links[a]
    ensures HeapOk(Heap(Refilled(f.spec, OFFSET_PAGES + ppn, c), f.base, s.live, links, f.heads[c := head], f.inUse,
                        f.reserved + PAGE_SIZE,
                        f.claimed + {Block((OFFSET_PAGES + ppn) * PAGE_SIZE, PAGE_SHIFT)}))
  {
    hide Inv, Aligned, Carve, Chain, Chains, Counted, HeapInv;
    var g := OFFSET_PAGES + ppn;
    OkParts(f);
    forall b | b in f.spec.live && b.order >= PAGE_SHIFT ensures PageNo(b) != g { NotThere(f, ppn, s, b); }
    RefillKeeps(f.spec, f.base, f.owned, s.live, g, c);
    ChainsElsewhere(f.links, f.heads, f.spec.lists, links, c, head, Refilled(f.spec, g, c).lists[c]);
    RefillCounts(f.spec, f.inUse, f.reserved, f.claimed, g, c);
  }

  lemma NotThere(f: Heap, ppn: nat, s: State, b: Block)
    requires HeapInv(f.spec, f.base, f.owned) && f.base <= ppn && b in f.spec.live && b.order >= PAGE_SHIFT
    requires Inv(s) && s.live == f.owned + {Block(ppn - f.base, 0)} && Block(ppn - f.base, 0) !in f.owned
    ensures PageNo(b) != OFFSET_PAGES + ppn
  {
    assert LargeOk(f.base, f.owned, f.spec.carved, b);
    hide Inv, PageNo, HeapInv;
    FreshStart(s, Home(f.base, b), Block(ppn - f.base, 0));
  }

  lemma TakeOk(f: Heap, c: nat)
    requires HeapOk(f) && c < NUM_CLASSES && |f.spec.lists| == |f.heads| == NUM_CLASSES && f.spec.lists[c] != []
    ensures f.heads[c] == f.spec.lists[c][0] && f.heads[c] in f.links && f.heads[c] != 0
    ensures HeapOk(f.(spec := Taken(f.spec, c), heads := f.heads[c := f.links[f.heads[c]]],
                      inUse := f.inUse + SizeOf(c)))
    ensures Block(f.heads[c], c + 3) !in f.spec.live && Aligned(f.heads[c], c + 3)
  {
    OkParts(f);
    var list, b := f.spec.lists[c], Block(f.heads[c], c + 3);
    assert Chain(f.links, f.heads[c], list);
    hide Aligned, Counted, HeapInv, Chains;
    TakeKeeps(f.spec, f.base, f.owned, c);
    hide Chain;
    ChainsElsewhere(f.links, f.heads, f.spec.lists, f.links, c, f.links[f.heads[c]], list[1..]);
    TakeCounts(f.spec, f.inUse, f.reserved, f.claimed, c);
  }

  lemma TakeCounts(h: Spec, inUse: nat, reserved: nat, claimed: set<Block>, c: nat)
    requires |h.lists| == NUM_CLASSES && Counted(h, inUse, reserved, claimed) && c < NUM_CLASSES
    requires h.lists[c] != [] && Block(h.lists[c][0], c + 3) !in h.live
    ensures Counted(Taken(h, c), inUse + SizeOf(c), reserved, claimed)
  {
    ClassSize(c);
    hide Pow2, SizeOf;
    Laws.SumInsert(h.live, Block(h.lists[c][0], c + 3));
    FreeBytesBy(h.lists, c, h.lists[c][1..], -1);
  }

  lemma ReturnOk(f: Heap, b: Block)
    requires HeapOk(f) && b in f.spec.live && 3 <= b.order < PAGE_SHIFT && |f.spec.lists| == |f.heads| == NUM_CLASSES
    ensures f.inUse >= SizeOf(b.order - 3)
    ensures HeapOk(f.(spec := Returned(f.spec, b), links := f.links[b.start := f.heads[b.order - 3]],
                      heads := f.heads[b.order - 3 := b.start],
                      inUse := f.inUse - SizeOf(b.order - 3)))
  {
    OkParts(f);
    var c := b.order - 3;
    assert Chain(f.links, f.heads[c], f.spec.lists[c]);
    hide Aligned, Counted, HeapInv, Chains, Chain;
    ReturnKeeps(f.spec, f.base, f.owned, b);
    NotNull(f.spec, f.base, f.owned, b);
    ChainFront(f.links, f.heads[c], f.spec.lists[c], b.start);
    forall k, a | 0 <= k < NUM_CLASSES && k != c && a in f.spec.lists[k] && a in f.links ensures a != b.start {
      OtherList(f.spec, f.base, f.owned, b, k, a);
    }
    ChainsElsewhere(f.links, f.heads, f.spec.lists, f.links[b.start := f.heads[c]], c, b.start,
                    [b.start] + f.spec.lists[c]);
    ReturnCounts(f.spec, f.inUse, f.reserved, f.claimed, b);
  }

  lemma NotNull(h: Spec, base: nat, owned: set<Block>, b: Block)
    requires HeapInv(h, base, owned) && Used(h, b)
    ensures b.start != 0
  {
    HasHome(h, base, owned, b);
  }

  lemma ReturnCounts(h: Spec, inUse: nat, reserved: nat, claimed: set<Block>, b: Block)
    requires |h.lists| == NUM_CLASSES && Counted(h, inUse, reserved, claimed) && b in h.live
    requires 3 <= b.order < PAGE_SHIFT
    ensures inUse >= SizeOf(b.order - 3) && Counted(Returned(h, b), inUse - SizeOf(b.order - 3), reserved, claimed)
  {
    ClassSize(b.order - 3);
    hide Pow2, SizeOf;
    Laws.SumRemove(h.live, b);
    FreeBytesBy(h.lists, b.order - 3, [b.start] + h.lists[b.order - 3], 1);
  }

  /** One address is a block of one class only. */
  lemma OtherList(h: Spec, base: nat, owned: set<Block>, b: Block, k: nat, a: nat)
    requires HeapInv(h, base, owned) && b in h.live && b.order < PAGE_SHIFT && k < NUM_CLASSES && k != b.order - 3
    requires a in h.lists[k]
    ensures a != b.start
  {
    hide Aligned;
    assert OnList(h.lists, Block(a, k + 3));
    assert IsPiece(h.carved, Block(a, k + 3)) && IsPiece(h.carved, b);
  }

  lemma LargeOkStep(f: Heap, ppn: nat, k: nat, s: State)
    requires HeapOk(f) && f.base <= ppn && Inv(s) && s.live == f.owned + {Block(ppn - f.base, k)}
    requires Block(ppn - f.base, k) !in f.owned
    ensures var b := Block((OFFSET_PAGES + ppn) * PAGE_SIZE, k + PAGE_SHIFT);
            && HeapOk(f.(spec := f.spec.(live := f.spec.live + {b}), owned := s.live,
                         inUse := f.inUse + PAGE_SIZE * Pow2(k),
                         reserved := f.reserved + PAGE_SIZE * Pow2(k), claimed := f.claimed + {b}))
            && b !in f.spec.live && Aligned(b.start, PAGE_SHIFT)
  {
    hide Inv, Aligned, Chains, Counted, HeapInv;
    OkParts(f);
    forall g | g in f.spec.carved ensures g != OFFSET_PAGES + ppn { CarvedElsewhere(f, ppn, k, s, g); }
    LargeKeeps(f.spec, f.base, f.owned, ppn, k);
    var b := Block((OFFSET_PAGES + ppn) * PAGE_SIZE, k + PAGE_SHIFT);
    LargeCounts(f.spec, f.inUse, f.reserved, f.claimed, b);
    PowSplit(k);
  }

  lemma CarvedElsewhere(f: Heap, ppn: nat, k: nat, s: State, g: nat)
    requires HeapInv(f.spec, f.base, f.owned) && f.base <= ppn && g in f.spec.carved
    requires Inv(s) && s.live == f.owned + {Block(ppn - f.base, k)} && Block(ppn - f.base, k) !in f.owned
    ensures g != OFFSET_PAGES + ppn
  {
    assert CarvedOk(f.base, f.owned, g);
    hide Inv, HeapInv;
    FreshStart(s, Block(g - OFFSET_PAGES - f.base, 0), Block(ppn - f.base, k));
  }

  lemma LargeCounts(h: Spec, inUse: nat, reserved: nat, claimed: set<Block>, b: Block)
    requires |h.lists| == NUM_CLASSES && Counted(h, inUse, reserved, claimed)
    requires b.order >= PAGE_SHIFT && b !in h.live && PageNo(b) !in h.carved
    ensures Counted(h.(live := h.live + {b}), inUse + Pow2(b.order), reserved + Pow2(b.order), claimed + {b})
  {
    hide Pow2, FreeBytes;
    Laws.SumInsert(h.live, b);
    Laws.SumInsert(claimed, b);
  }

  lemma LargeReturnOk(f: Heap, b: Block)
    requires HeapOk(f) && b in f.spec.live && b.order >= PAGE_SHIFT
    ensures f.inUse >= Pow2(b.order) && f.reserved >= Pow2(b.order) && Home(f.base, b) in f.owned
    ensures b.start == PageNo(b) * PAGE_SIZE && PageNo(b) >= OFFSET_PAGES + f.base
    ensures HeapOk(f.(spec := f.spec.(live := f.spec.live - {b}), owned := f.owned - {Home(f.base, b)},
                      inUse := f.inUse - Pow2(b.order),
                      reserved := f.reserved - Pow2(b.order), claimed := f.claimed - {b}))
  {
    OkParts(f);
    assert LargeOk(f.base, f.owned, f.spec.carved, b);
    hide Aligned, Chains, Counted, HeapInv;
    LargeReturns(f.spec, f.base, f.owned, b);
    LargeReturnCounts(f.spec, f.inUse, f.reserved, f.claimed, b);
  }

  lemma LargeReturnCounts(h: Spec, inUse: nat, reserved: nat, claimed: set<Block>, b: Block)
    requires |h.lists| == NUM_CLASSES && Counted(h, inUse, reserved, claimed)
    requires b.order >= PAGE_SHIFT && b in h.live && PageNo(b) !in h.carved
    ensures inUse >= Pow2(b.order) && reserved >= Pow2(b.order)
    ensures Counted(h.(live := h.live - {b}), inUse - Pow2(b.order), reserved - Pow2(b.order), claimed - {b})
  {
    hide Pow2, FreeBytes;
    Laws.SumRemove(h.live, b);
    Laws.SumRemove(claimed, b);
  }

  // ---- other clients of the frame allocator --------------------------------------------------------------

  /** The heap has this block of the frame allocator: it carved it up, or handed it out as a large block. */
  ghost predicate Uses(h: Spec, base: nat, frame: Block) {
    || (exists g :: g in h.carved && g >= OFFSET_PAGES + base && frame == Block(g - OFFSET_PAGES - base, 0))
    || (exists b :: b in h.live && b.order >= PAGE_SHIFT && frame == Home(base, b))
  }

  /** What the heap uses, the frame allocator has handed out. */
  lemma NotTheirs(f: Heap, b: Block)
    requires HeapOk(f) && b !in f.owned
    ensures !Uses(f.spec, f.base, b)
  {
    OkParts(f);
    hide Chains, Counted, Aligned, Distinct, IsPiece, OnList;
    var h := f.spec;
    forall g | g in h.carved ensures CarvedOk(f.base, f.owned, g) {}
    forall b: Block | b in h.live && b.order >= PAGE_SHIFT ensures LargeOk(f.base, f.owned, h.carved, b) {}
  }

  /** Whatever else is taken from the frame allocator or given back to it, page tables and stacks for instance, the heap
      stays in order as long as the blocks it uses stay handed out. */
  lemma OtherClients(f: Heap, owned: set<Block>)
    requires HeapOk(f) && forall b | b in f.owned && Uses(f.spec, f.base, b) :: b in owned
    ensures HeapOk(f.(owned := owned))
  {
    OkParts(f);
    hide Chains, Counted, Aligned, Distinct, IsPiece, OnList;
    var h := f.spec;
    forall b: Block | b in h.live && b.order >= PAGE_SHIFT ensures LargeOk(f.base, owned, h.carved, b) {
      assert LargeOk(f.base, f.owned, h.carved, b);
      assert Uses(h, f.base, Home(f.base, b));
    }
    forall g | g in h.carved ensures CarvedOk(f.base, owned, g) {
      assert CarvedOk(f.base, f.owned, g);
      assert Uses(h, f.base, Block(g - OFFSET_PAGES - f.base, 0));
    }
    assert HeapInv(h, f.base, owned);
  }

  /** The frame allocator handed out the block of frames at address `ptr` of the direct map, the one it had next. */
  ghost predicate TookFrames(before: State, after: State, base: nat, ptr: nat, order: nat) {
    && ptr % PAGE_SIZE == 0 && ptr / PAGE_SIZE >= OFFSET_PAGES + base && |before.lists| == MAX_ORDER + 1
    && (var x := ptr / PAGE_SIZE - OFFSET_PAGES - base;
        BuddySpec.Alloc(before.lists, order) == Some((after.lists, x)) && after.live == before.live + {Block(x, order)})
  }

  lemma TookIntro(before: State, after: State, base: nat, ppn: nat, order: nat)
    requires base <= ppn && |before.lists| == MAX_ORDER + 1
    requires BuddySpec.Alloc(before.lists, order) == Some((after.lists, ppn - base))
    requires after.live == before.live + {Block(ppn - base, order)}
    ensures TookFrames(before, after, base, (OFFSET_PAGES + ppn) * PAGE_SIZE, order)
  {
    hide BuddySpec.Alloc;
  }

  /** One frame was claimed for class `c`: its blocks are on the list before all others, the lowest first. */
  ghost predicate PageClaimed(h: Heap, h': Heap, s: State, s': State, c: nat) {
    && c < NUM_CLASSES && |h.spec.lists| == |h'.spec.lists| == |h'.heads| == NUM_CLASSES
    && h'.spec.lists == h.spec.lists[c := h'.spec.lists[c]] && h'.reserved == h.reserved + PAGE_SIZE
    && TookFrames(s, s', h.base, h'.heads[c], 0)
    && exists n: nat ::
         && 0 < n <= |h'.spec.lists[c]| && n * SizeOf(c) == PAGE_SIZE && h'.spec.lists[c][n..] == h.spec.lists[c]
         && forall j | 0 <= j < n :: h'.spec.lists[c][j] == Nth(h'.heads[c], SizeOf(c), j)
  }

  /** Block `ptr` of class `c` was handed out: the first one on the list, and nothing else changed; or the list was
      empty, one frame was claimed, and it is the lowest block of that frame, the others being on the list. */
  ghost predicate ClassServed(h: Heap, h': Heap, s: State, s': State, c: nat, ptr: nat) {
    && c < NUM_CLASSES && |h.spec.lists| == |h'.spec.lists| == NUM_CLASSES
    && h'.spec.lists == h.spec.lists[c := h'.spec.lists[c]]
    && (if h.spec.lists[c] != [] then
          h.spec.lists[c] == [ptr] + h'.spec.lists[c] && h'.reserved == h.reserved && s' == s
        else
          && TookFrames(s, s', h.base, ptr, 0) && h'.reserved == h.reserved + PAGE_SIZE
          && (|h'.spec.lists[c]| + 1) * SizeOf(c) == PAGE_SIZE
          && forall j | 0 <= j < |h'.spec.lists[c]| :: h'.spec.lists[c][j] == Nth(ptr, SizeOf(c), j + 1))
  }

  ghost predicate LargeServed(h: Heap, h': Heap, s: State, s': State, order: nat, ptr: nat) {
    && TookFrames(s, s', h.base, ptr, order) && h'.spec.lists == h.spec.lists && h'.spec.carved == h.spec.carved
    && h'.reserved == h.reserved + PAGE_SIZE * Pow2(order)
  }

  lemma ClaimedIntro(h: Heap, h': Heap, s: State, s': State, c: nat)
    requires c < NUM_CLASSES && |h.spec.lists| == |h'.spec.lists| == |h'.heads| == NUM_CLASSES && SizeOf(c) > 0
    requires h'.reserved == h.reserved + PAGE_SIZE && TookFrames(s, s', h.base, h'.heads[c], 0)
    requires h'.spec.lists == h.spec.lists[c := Carve(h'.heads[c], SizeOf(c), 0, PAGE_SIZE / SizeOf(c))
                                                + h.spec.lists[c]]
    ensures PageClaimed(h, h', s, s', c)
  {
    ClassCount(c);
    hide TookFrames, SizeOf, Carve;
    var n := PAGE_SIZE / SizeOf(c);
    var carved := Carve(h'.heads[c], SizeOf(c), 0, n);
    assert h'.spec.lists[c][n..] == h.spec.lists[c];
    assert forall j | 0 <= j < n :: h'.spec.lists[c][j] == carved[j] == Nth(h'.heads[c], SizeOf(c), j);
  }

  /** After that, the block is there to be handed out. */
  lemma ServedFromPage(h: Heap, m: Heap, h': Heap, s: State, s': State, c: nat)
    requires PageClaimed(h, m, s, s', c) && h.spec.lists[c] == []
    requires |h'.spec.lists| == NUM_CLASSES && h'.reserved == m.reserved
    requires m.spec.lists[c] != [] && h'.spec.lists == m.spec.lists[c := m.spec.lists[c][1..]]
    ensures m.spec.lists[c][0] == m.heads[c] && ClassServed(h, h', s, s', c, m.heads[c])
  {
    hide TookFrames, SizeOf;
    var n: nat :| && 0 < n <= |m.spec.lists[c]| && n * SizeOf(c) == PAGE_SIZE && m.spec.lists[c][n..] == h.spec.lists[c]
                  && forall j | 0 <= j < n :: m.spec.lists[c][j] == Nth(m.heads[c], SizeOf(c), j);
    assert |m.spec.lists[c]| == n;
    assert m.spec.lists[c][0] == Nth(m.heads[c], SizeOf(c), 0);
  }

  lemma ServedFromList(h: Heap, h': Heap, s: State, c: nat, ptr: nat)
    requires c < NUM_CLASSES && |h.spec.lists| == |h'.spec.lists| == NUM_CLASSES && h.spec.lists[c] != []
    requires ptr == h.spec.lists[c][0] && h'.spec.lists == h.spec.lists[c := h.spec.lists[c][1..]]
    requires h'.reserved == h.reserved
    ensures ClassServed(h, h', s, s, c, ptr)
  {
    hide TookFrames, SizeOf;
  }

  lemma ServedAgain(h: Heap, m: Heap, h': Heap, s: State, s': State, c: nat, ptr: nat, again: nat)
    requires c < NUM_CLASSES && |h.spec.lists| == |m.spec.lists| == NUM_CLASSES && m.reserved == h.reserved
    requires m.spec.lists == h.spec.lists[c := [ptr] + h.spec.lists[c]] && ClassServed(m, h', s, s', c, again)
    ensures again == ptr && h'.spec.lists == h.spec.lists && h'.reserved == h.reserved && s' == s
  {
    hide TookFrames, SizeOf, Nth;
    assert m.spec.lists[c][0] == ptr && m.spec.lists[c][1..] == h.spec.lists[c];
    assert ([again] + h'.spec.lists[c])[1..] == h'.spec.lists[c];
  }

  lemma ClaimedSome(h: Heap, h': Heap, s: State, s': State, c: nat)
    requires PageClaimed(h, h', s, s', c)
    ensures h'.spec.lists[c] != []
  {
    hide TookFrames, SizeOf, Nth;
  }

  lemma AllocatorLists(a: Allocator)
    requires a.Valid()
    ensures |a.lists| == MAX_ORDER + 1
  {
    hide Allocator.Valid;
    AllocatorInv(a);
  }

  // ---- the heap itself --------------------------------------------------------------------------------------

  class HeapInner {
    const frames: Allocator
    /** Where the list of each class begins, 0 if it is empty. */
    var heads: seq<nat>
    /** The first word of the blocks on the lists. */
    var links: map<nat, nat>
    var inUse: nat
    var reserved: nat
    ghost var spec: Spec
    ghost var claimed: set<Block>

    ghost function Now(): Heap
      reads this, frames
    {
      Heap(spec, frames.base, frames.live, links, heads, inUse, reserved, claimed)
    }

    ghost predicate Valid()
      reads this, frames, frames.freeLists, frames.nodes, frames.bitmap, frames.orderBitBase
    {
      frames.Valid() && HeapOk(Now())
    }

    constructor (frames: Allocator)
      requires frames.Valid()
      ensures this.frames == frames && Valid() && spec.live == {} && inUse == reserved == 0
    {
      this.frames := frames;
      heads, links := seq(NUM_CLASSES, _ => 0), map[];
      inUse, reserved := 0, 0;
      spec := Spec(seq(NUM_CLASSES, _ => []), map[], {});
      claimed := {};
      new;
      EmptyHeap(frames.base, frames.live);
    }

    /** Another part of the kernel takes frames: the heap does not change. */
    method OthersAlloc(order: nat) returns (r: Option<nat>)
      requires Valid()
      modifies frames`lists, frames`live, frames`history, frames`used, frames`peak, frames.freeLists, frames.nodes,
          frames.bitmap
      ensures Valid()
      ensures r.Some? ==> frames.base <= r.value && !Uses(spec, frames.base, Block(r.value - frames.base, order))
      ensures r.Some? ==> frames.live == old(frames.live) + {Block(r.value - frames.base, order)}
    {
      hide HeapOk, Allocator.Valid, Laws.HasFreeRun, BuddySpec.Alloc, Uses;
      ghost var f := Now();
      r := frames.Alloc(order);
      OtherClients(f, frames.live);
      if r.Some? { NotTheirs(f, Block(r.value - frames.base, order)); }
    }

    /** Another part of the kernel gives back frames that are not the heap's. */
    method OthersFree(ppn: nat, order: nat)
      requires Valid() && frames.base <= ppn && Block(ppn - frames.base, order) in frames.live
      requires !Uses(spec, frames.base, Block(ppn - frames.base, order))
      modifies frames`lists, frames`live, frames`history, frames`used, frames.freeLists, frames.nodes, frames.bitmap
      ensures Valid() && frames.live == old(frames.live) - {Block(ppn - frames.base, order)}
    {
      hide HeapOk, Allocator.Valid, Merge, Uses;
      ghost var f := Now();
      frames.Free(ppn, order);
      OtherClients(f, frames.live);
    }

    /** Link the blocks of a new page in front of list `c`, back to front. */
    method Thread(c: nat, start: nat, size: nat, count: nat, ghost f: Heap, ghost g: nat) returns (head: nat)
      requires c < NUM_CLASSES && |f.spec.lists| == NUM_CLASSES && Chains(f.links, f.heads, f.spec.lists)
      requires links == f.links && heads == f.heads && |heads| == NUM_CLASSES
      requires start == g * PAGE_SIZE && g > 0 && size == SizeOf(c) && size > 0 && count == PAGE_SIZE / size
      requires forall k, a | 0 <= k < NUM_CLASSES && a in f.spec.lists[k] :: a / PAGE_SIZE != g
      modifies `links
      ensures Chain(links, head, Carve(start, size, 0, count) + f.spec.lists[c])
      ensures forall a | a in f.links && a / PAGE_SIZE != g :: a in links && links[a] == f.links[a]
    {
      hide Carve, Chain, Chains, SizeOf, Nth;
      ChainOf(f, c, start, size, count);
      head := heads[c];
      for i := count downto 0
        invariant Chain(links, head, Carve(start, size, i, count) + f.spec.lists[c])
        invariant forall a | a in f.links && a / PAGE_SIZE != g :: a in links && links[a] == f.links[a]
      {
        var block := Nth(start, size, i);
        CarveNext(f, g, c, i);
        ChainFront(links, head, Carve(start, size, i + 1, count) + f.spec.lists[c], block);
        links := links[block := head];
        head := block;
      }
    }

    /** Claim a frame and thread its blocks onto the free list of class `c`, lowest address first. */
    method Refill(c: nat) returns (ok: bool)
      requires Valid() && c < NUM_CLASSES
      modifies `heads, `links, `reserved, `spec, `claimed
      modifies frames`lists, frames`live, frames`history, frames`used, frames`peak, frames.freeLists, frames.nodes,
          frames.bitmap
      ensures Valid() && spec.live == old(spec.live) && |spec.lists| == |old(spec.lists)| == |heads| == NUM_CLASSES
      ensures ok <==> Laws.HasFreeRun(old(frames.State()), 0)
      ensures !ok ==> spec == old(spec) && reserved == old(reserved) && heads == old(heads)
      ensures ok ==> PageClaimed(old(Now()), Now(), old(frames.State()), frames.State(), c)
    {
      hide HeapOk, Laws.HasFreeRun, Carve, Chain, Chains, Allocator.Valid, BuddySpec.Alloc, Aligned, Inv, HeapInv,
           SizeOf;
      ClassCount(c);
      var size := SizeOf(c);
      ghost var f := Now();
      OkParts(f);
      AllocatorLists(frames);
      var ppn := frames.Alloc(0);
      if ppn.None? {
        return false;
      }
      reserved := reserved + PAGE_SIZE;
      ghost var s, g := frames.State(), OFFSET_PAGES + ppn.value;
      AllocatorInv(frames);
      NewPage(f, ppn.value, s);
      var start := (OFFSET_PAGES + ppn.value) * PAGE_SIZE;
      var count := PAGE_SIZE / size;
      ListsElsewhere(f, g);
      var head := Thread(c, start, size, count, f, g);
      RefillOk(f, ppn.value, c, s, links, head);
      FirstCarved(links, head, start, c, f.spec.lists[c]);
      TookIntro(old(frames.State()), s, frames.base, ppn.value, 0);
      heads := heads[c := head];
      spec := Refilled(spec, g, c);
      claimed := claimed + {Block(start, PAGE_SHIFT)};
      ClaimedIntro(f, Now(), old(frames.State()), s, c);
      return true;
    }

    /** Whole frames straight from the frame allocator. */
    method AllocLarge(order: nat) returns (ptr: nat)
      requires Valid()
      modifies `inUse, `reserved, `spec, `claimed
      modifies frames`lists, frames`live, frames`history, frames`used, frames`peak, frames.freeLists, frames.nodes,
          frames.bitmap
      ensures Valid()
      ensures ptr == 0 <==> order > MAX_ORDER || !Laws.HasFreeRun(old(frames.State()), order)
      ensures ptr == 0 ==> spec == old(spec) && frames.State() == old(frames.State()) && reserved == old(reserved)
      ensures ptr != 0 ==>
                && LargeServed(old(Now()), Now(), old(frames.State()), frames.State(), order, ptr)
                && spec == old(spec).(live := old(spec.live) + {Block(ptr, order + PAGE_SHIFT)})
                && Block(ptr, order + PAGE_SHIFT) !in old(spec.live) && Aligned(ptr, PAGE_SHIFT)
    {
      hide HeapOk, Laws.HasFreeRun, Allocator.Valid, BuddySpec.Alloc, Aligned, Inv, Pow2;
      ghost var f := Now();
      AllocatorLists(frames);
      var ppn := frames.Alloc(order);
      if ppn.None? {
        return 0;
      }
      AllocatorInv(frames);
      TookIntro(old(frames.State()), frames.State(), frames.base, ppn.value, order);
      LargeOkStep(f, ppn.value, order, frames.State());
      inUse := inUse + PAGE_SIZE * Pow2(order);
      reserved := reserved + PAGE_SIZE * Pow2(order);
      ptr := (OFFSET_PAGES + ppn.value) * PAGE_SIZE;
      spec := spec.(live := spec.live + {Block(ptr, order + PAGE_SHIFT)});
      claimed := claimed + {Block(ptr, order + PAGE_SHIFT)};
    }

    /** A block of class `c`, or 0. The first block on the list, and nothing else changes; if the list is empty, one
        frame is claimed and its lowest block handed out. */
    method AllocClass(c: nat) returns (ptr: nat)
      requires Valid() && c < NUM_CLASSES
      modifies `heads, `links, `inUse, `reserved, `spec, `claimed
      modifies frames`lists, frames`live, frames`history, frames`used, frames`peak, frames.freeLists, frames.nodes,
          frames.bitmap
      ensures Valid() && |spec.lists| == |old(spec.lists)| == |old(heads)| == NUM_CLASSES
      ensures old(heads)[c] == 0 <==> old(spec.lists)[c] == []
      ensures ptr == 0 <==> old(spec.lists)[c] == [] && !Laws.HasFreeRun(old(frames.State()), 0)
      ensures ptr == 0 ==> spec == old(spec) && reserved == old(reserved)
      ensures ptr != 0 ==>
                && spec.live == old(spec.live) + {Block(ptr, c + 3)} && Block(ptr, c + 3) !in old(spec.live)
                && Aligned(ptr, c + 3) && inUse == old(inUse) + SizeOf(c)
      ensures ptr != 0 ==> ClassServed(old(Now()), Now(), old(frames.State()), frames.State(), c, ptr)
    {
      hide HeapOk, Laws.HasFreeRun, Chain, Chains, Allocator.Valid, BuddySpec.Alloc, Aligned, Inv, HeapInv, SizeOf,
           Pow2, TookFrames, PageClaimed, ClassServed;
      ghost var f := Now();
      OkParts(f);
      HeadOrEmpty(f, c);
      if heads[c] == 0 {
        var ok := Refill(c);
        if !ok {
          return 0;
        }
        ClaimedSome(f, Now(), old(frames.State()), frames.State(), c);
      }
      ghost var m := Now();
      OkParts(m);
      TakeOk(m, c);
      ptr := heads[c];
      heads := heads[c := links[ptr]];
      inUse := inUse + SizeOf(c);
      spec := Taken(spec, c);
      if f.heads[c] == 0 {
        ServedFromPage(f, m, Now(), old(frames.State()), frames.State(), c);
      } else {
        ServedFromList(f, Now(), frames.State(), c, ptr);
      }
    }

    /** A block for `size` bytes aligned to `2^alignLog`, or 0. It is the first one on the list of its class, which
        takes nothing from the frame allocator; with an empty list it is the first of a frame that is claimed for the
        class; and if it is large, whole frames. */
    method Alloc(size: nat, alignLog: nat) returns (ptr: nat)
      requires Valid()
      modifies `heads, `links, `inUse, `reserved, `spec, `claimed
      modifies frames`lists, frames`live, frames`history, frames`used, frames`peak, frames.freeLists, frames.nodes,
          frames.bitmap
      ensures Valid() && |spec.lists| == |old(spec.lists)| == |old(heads)| == NUM_CLASSES
      ensures ptr == 0 ==> spec == old(spec) && reserved == old(reserved)
      ensures ptr == 0 <==>
              var c := ClassFor(size, Pow2(alignLog));
              if c.Some? then old(heads)[c.value] == 0 && !Laws.HasFreeRun(old(frames.State()), 0)
              else Pow2(alignLog) > PAGE_SIZE || OrderFor(DivCeil(size, PAGE_SIZE)) > MAX_ORDER
                   || !Laws.HasFreeRun(old(frames.State()), OrderFor(DivCeil(size, PAGE_SIZE)))
      ensures ptr != 0 ==>
                var b := Block(ptr, OrderOf(size, Pow2(alignLog)));
                && spec.live == old(spec.live) + {b} && b !in old(spec.live)
                && Pow2(b.order) >= size && Aligned(ptr, alignLog)
      ensures ptr != 0 ==>
                var c := ClassFor(size, Pow2(alignLog));
                if c.Some? then ClassServed(old(Now()), Now(), old(frames.State()), frames.State(), c.value, ptr)
                else LargeServed(old(Now()), Now(), old(frames.State()), frames.State(),
                                 OrderFor(DivCeil(size, PAGE_SIZE)), ptr)
    {
      hide HeapOk, Laws.HasFreeRun, Allocator.Valid, BuddySpec.Alloc, Aligned, SizeOf, ClassFor, OrderFor, DivCeil,
           Pow2, ClassServed, LargeServed;
      OkParts(Now());
      OrderFits(size, alignLog);
      var align := Pow2(alignLog);
      var class' := ClassFor(size, align);
      ClassIndex(size, align);
      if class'.None? {
        if align > PAGE_SIZE {
          return 0;
        }
        ptr := AllocLarge(OrderFor(DivCeil(size, PAGE_SIZE)));
        if ptr != 0 { AlignedWeaken(ptr, alignLog, PAGE_SHIFT); }
        return;
      }
      ptr := AllocClass(class'.value);
      if ptr != 0 { AlignedWeaken(ptr, alignLog, class'.value + 3); }
    }

    /** Take back a block that was handed out for the same layout. */
    method Dealloc(ptr: nat, size: nat, alignLog: nat)
      requires Valid() && Block(ptr, OrderOf(size, Pow2(alignLog))) in spec.live
      modifies `heads, `links, `inUse, `reserved, `spec, `claimed
      modifies frames`lists, frames`live, frames`history, frames`used, frames.freeLists, frames.nodes, frames.bitmap
      ensures Valid() && spec.live == old(spec.live) - {Block(ptr, OrderOf(size, Pow2(alignLog)))}
      ensures |spec.lists| == |old(spec.lists)| == NUM_CLASSES
      ensures ClassFor(size, Pow2(alignLog)).Some? ==>
                var c := ClassFor(size, Pow2(alignLog)).value;
                && spec.lists == old(spec.lists)[c := [ptr] + old(spec.lists)[c]] && spec.carved == old(spec.carved)
                && reserved == old(reserved) && frames.State() == old(frames.State())
      ensures ClassFor(size, Pow2(alignLog)).None? ==>
                var order := OrderFor(DivCeil(size, PAGE_SIZE));
                && spec.lists == old(spec.lists) && spec.carved == old(spec.carved)
                && reserved == old(reserved) - PAGE_SIZE * Pow2(order)
                && frames.live == old(frames.live) - {Home(frames.base, Block(ptr, order + PAGE_SHIFT))}
    {
      hide HeapOk, Chain, Chains, Allocator.Valid, Merge, Aligned, Inv, HeapInv, SizeOf, ClassFor, OrderFor, DivCeil,
           Pow2;
      ghost var f := Now();
      OkParts(f);
      var align := Pow2(alignLog);
      ghost var b := Block(ptr, OrderOf(size, align));
      ClassIndex(size, align);
      var class' := ClassFor(size, align);
      if class'.None? {
        var order := OrderFor(DivCeil(size, PAGE_SIZE));
        LargeReturnOk(f, b);
        PowSplit(order);
        inUse := inUse - PAGE_SIZE * Pow2(order);
        reserved := reserved - PAGE_SIZE * Pow2(order);
        spec := spec.(live := spec.live - {b});
        claimed := claimed - {b};
        frames.Free(ptr / PAGE_SIZE - OFFSET_PAGES, order);
        return;
      }
      var c := class'.value;
      ReturnOk(f, b);
      links := links[ptr := heads[c]];
      heads := heads[c := ptr];
      inUse := inUse - SizeOf(c);
      spec := Returned(spec, b);
    }

    /** A small block that goes back is handed out again next: the heap claims nothing in between, and is as it was. */
    method Reuse(ptr: nat, size: nat, alignLog: nat) returns (again: nat)
      requires Valid() && Block(ptr, OrderOf(size, Pow2(alignLog))) in spec.live && ClassFor(size, Pow2(alignLog)).Some?
      modifies `heads, `links, `inUse, `reserved, `spec, `claimed
      modifies frames`lists, frames`live, frames`history, frames`used, frames`peak, frames.freeLists, frames.nodes,
          frames.bitmap
      ensures Valid() && again == ptr && spec.lists == old(spec.lists) && spec.live == old(spec.live)
      ensures reserved == old(reserved) && frames.State() == old(frames.State())
    {
      hide HeapOk, Laws.HasFreeRun, Allocator.Valid, BuddySpec.Alloc, Aligned, SizeOf, ClassFor, OrderFor, DivCeil,
           Pow2, ClassServed, LargeServed, HeapInv, Chains, Counted;
      OkParts(Now());
      ClassIndex(size, Pow2(alignLog));
      NotNull(spec, frames.base, frames.live, Block(ptr, OrderOf(size, Pow2(alignLog))));
      ghost var c, f := ClassFor(size, Pow2(alignLog)).value, Now();
      Dealloc(ptr, size, alignLog);
      ghost var m, s := Now(), frames.State();
      OkParts(m);
      HeadOrEmpty(m, c);
      again := Alloc(size, alignLog);
      ServedAgain(f, m, Now(), s, frames.State(), c, ptr, again);
    }

    /** The owner of a block may write anything in it: `after` are the words after bytes `[a, a + n)` were written. */
    method OwnerWrites(b: Block, a: nat, n: nat, after: map<nat, nat>)
      requires Valid() && b in spec.live && b.start <= a && a + n <= b.start + Pow2(b.order)
      requires ClearOf(links, after, a, n)
      modifies `links
      ensures Valid() && links == after
    {
      hide HeapOk, Chains, Allocator.Valid, Inv, HeapInv, Pow2, ClearOf;
      AllocatorInv(frames);
      WrittenOk(Now(), frames.State(), b, a, n, after);
      links := after;
    }
  }

  const WORD_BYTES: nat := 8

  /** Words that have no byte in `[a, a + n)` are as before. */
  ghost predicate ClearOf(links: map<nat, nat>, after: map<nat, nat>, a: nat, n: nat) {
    forall x | x in links && (x + WORD_BYTES <= a || a + n <= x) :: x in after && after[x] == links[x]
  }

  lemma WrittenOk(f: Heap, s: State, b: Block, a: nat, n: nat, after: map<nat, nat>)
    requires HeapOk(f) && Inv(s) && s.live == f.owned && b in f.spec.live && b.start <= a
    requires a + n <= b.start + Pow2(b.order)
    requires ClearOf(f.links, after, a, n)
    ensures HeapOk(f.(links := after))
  {
    OkParts(f);
    hide Inv, HeapInv, Counted, Chain, Pow2;
    forall k | 0 <= k < NUM_CLASSES ensures Chain(after, f.heads[k], f.spec.lists[k]) {
      forall x | x in f.spec.lists[k] ensures x + WORD_BYTES <= a || a + n <= x { NotWritten(f, s, b, a, n, k, x); }
      ChainElsewhere(f.links, after, f.heads[k], f.spec.lists[k]);
    }
  }

  lemma NotWritten(f: Heap, s: State, b: Block, a: nat, n: nat, k: nat, x: nat)
    requires HeapInv(f.spec, f.base, s.live) && Inv(s) && b in f.spec.live && b.start <= a
    requires a + n <= b.start + Pow2(b.order)
    requires k < NUM_CLASSES && x in f.spec.lists[k]
    ensures x + WORD_BYTES <= a || a + n <= x
  {
    var block := Block(x, k + 3);
    assert OnList(f.spec.lists, block);
    WordFits(k);
    hide Inv, HeapInv, Pow2;
    BlocksApart(f.spec, f.base, s, b, block);
  }

  /** Every block has room for a word. */
  lemma WordFits(k: nat)
    ensures WORD_BYTES <= Pow2(k + 3)
  {
    assert Pow2(3) == 8;
    Pow2Monotone(3, k + 3);
  }

  /** In every state between calls: blocks handed out do not overlap each other or a free block, and no byte is
      lost: bytes handed out and bytes on the lists are the bytes claimed. */
  lemma HeapSafe(heap: HeapInner, a: Block, b: Block)
    requires heap.Valid() && a in heap.spec.live && Used(heap.spec, b) && a != b
    ensures Apart(a, b)
    ensures |heap.spec.lists| == NUM_CLASSES
    ensures heap.inUse == Laws.SumSizes(heap.spec.live)
    ensures heap.inUse + FreeBytes(heap.spec.lists, NUM_CLASSES) == heap.reserved
  {
    hide Allocator.Valid, Inv, HeapInv, Chains;
    OkParts(heap.Now());
    AllocatorInv(heap.frames);
    BlocksApart(heap.spec, heap.frames.base, heap.frames.State(), a, b);
  }

  lemma ClassIndex(size: nat, align: nat)
    ensures ClassFor(size, align).Some? ==> ClassFor(size, align).value < NUM_CLASSES
  {
  }

  lemma HeadOrEmpty(f: Heap, c: nat)
    requires Chains(f.links, f.heads, f.spec.lists) && c < NUM_CLASSES
    ensures f.heads[c] == 0 <==> f.spec.lists[c] == []
  {
    assert Chain(f.links, f.heads[c], f.spec.lists[c]);
  }

  /** The first block of the chain is the lowest of the page. */
  lemma FirstCarved(links: map<nat, nat>, head: nat, start: nat, c: nat, rest: seq<nat>)
    requires c < NUM_CLASSES && SizeOf(c) > 0
    requires Chain(links, head, Carve(start, SizeOf(c), 0, PAGE_SIZE / SizeOf(c)) + rest)
    ensures head == start
  {
    CarveSome(start, c);
  }

  lemma CarveSome(start: nat, c: nat)
    requires c < NUM_CLASSES
    ensures SizeOf(c) > 0
    ensures var r := Carve(start, SizeOf(c), 0, PAGE_SIZE / SizeOf(c)); r != [] && r[0] == start
  {
  }

  /** The page of a frame just handed out has no block of the heap on it. */
  lemma NewPage(f: Heap, ppn: nat, s: State)
    requires HeapInv(f.spec, f.base, f.owned) && f.base <= ppn
    requires Inv(s) && s.live == f.owned + {Block(ppn - f.base, 0)} && Block(ppn - f.base, 0) !in f.owned
    ensures OFFSET_PAGES + ppn !in f.spec.carved
    ensures forall k, a | 0 <= k < NUM_CLASSES && a in f.spec.lists[k] :: a / PAGE_SIZE != OFFSET_PAGES + ppn
  {
    var g := OFFSET_PAGES + ppn;
    assert !CarvedOk(f.base, f.owned, g);
    hide Inv, Aligned;
    forall k, a | 0 <= k < NUM_CLASSES && a in f.spec.lists[k] ensures a / PAGE_SIZE != g {
      assert OnList(f.spec.lists, Block(a, k + 3));
      assert IsPiece(f.spec.carved, Block(a, k + 3));
    }
  }

  lemma ChainOf(f: Heap, c: nat, start: nat, size: nat, count: nat)
    requires Chains(f.links, f.heads, f.spec.lists) && c < NUM_CLASSES
    ensures Chain(f.links, f.heads[c], Carve(start, size, count, count) + f.spec.lists[c])
  {
    assert Carve(start, size, count, count) + f.spec.lists[c] == f.spec.lists[c];
  }

  lemma CarveNext(f: Heap, g: nat, c: nat, i: nat)
    requires |f.spec.lists| == NUM_CLASSES && c < NUM_CLASSES && i < PAGE_SIZE / SizeOf(c) && g > 0
    requires forall a | a in f.spec.lists[c] :: a / PAGE_SIZE != g
    ensures var size, count, start := SizeOf(c), PAGE_SIZE / SizeOf(c), g * PAGE_SIZE;
            var block := Nth(start, size, i);
            && block / PAGE_SIZE == g && block != 0
            && block !in Carve(start, size, i + 1, count) + f.spec.lists[c]
            && Carve(start, size, i, count) + f.spec.lists[c] == [block]
                + (Carve(start, size, i + 1, count) + f.spec.lists[c])
  {
    ClassCount(c);
    hide SizeOf;
    var size, count := SizeOf(c), PAGE_SIZE / SizeOf(c);
    CarveElement(g, size, count, i);
    var rest := Carve(g * PAGE_SIZE, size, i + 1, count);
    forall j | 0 <= j < |rest| ensures rest[j] != g * PAGE_SIZE + i * size { MulOrder(i, i + 1 + j, size); }
  }

  lemma ListsElsewhere(f: Heap, g: nat)
    requires |f.spec.lists| == NUM_CLASSES
    requires forall k, a | 0 <= k < NUM_CLASSES && a in f.spec.lists[k] :: a / PAGE_SIZE != g
    ensures forall k, a | 0 <= k < NUM_CLASSES && a in f.spec.lists[k] && a in f.links :: a / PAGE_SIZE != g
  {
  }

  lemma AllocatorInv(a: Allocator)
    requires a.Valid()
    ensures Inv(a.State())
  {
    Laws.ReachableInv(a.frames, a.history, a.State());
  }

  lemma EmptyHeap(base: nat, owned: set<Block>)
    ensures HeapOk(Heap(Spec(seq(NUM_CLASSES, _ => []), map[], {}), base, owned, map[], seq(NUM_CLASSES, _ => 0), 0, 0,
                        {}))
  {
    var lists: seq<seq<nat>> := seq(NUM_CLASSES, _ => []);
    NothingFree(lists, NUM_CLASSES);
  }

  lemma {:induction false} NothingFree(lists: seq<seq<nat>>, c: nat)
    requires c <= |lists| && forall k | 0 <= k < |lists| :: lists[k] == []
    ensures FreeBytes(lists, c) == 0
  {
    if c > 0 { NothingFree(lists, c - 1); }
  }
}
