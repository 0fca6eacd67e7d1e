/** The buddy frame allocator as a transformation of its free lists, and what that transformation
    keeps: an exact tiling of the managed frames, in canonical form. `BuddyAllocator.dfy` holds the
    in-place implementation and proves that it computes these functions. */
module BuddySpec {
  import opened Prelude
  import opened Dyadic

  /** Largest block served: `2^MAX_ORDER` frames. */
  const MAX_ORDER: nat := 10

  /** The frames from `start` on, `2^order` of them. */
  datatype Block = Block(start: nat, order: nat)

  /** The free lists, one per order; the head of a list is its first element. */
  type Lists = seq<seq<nat>>

  /** The managed frame count, the free lists, and the blocks handed out and not yet freed. */
  datatype State = State(n: nat, lists: Lists, live: set<Block>)

  // ---- blocks and tilings ---------------------------------------------------

  predicate Covers(b: Block, f: int) {
    b.start <= f < b.start + Pow2(b.order)
  }

  predicate Placed(n: nat, b: Block) {
    b.order <= MAX_ORDER && Aligned(b.start, b.order) && b.start + Pow2(b.order) <= n
  }

  function Upper(b: Block): Block
    requires b.order > 0
  {
    Block(b.start + Pow2(b.order - 1), b.order - 1)
  }

  function Lower(b: Block): Block
    requires b.order > 0
  {
    Block(b.start, b.order - 1)
  }

  function Mate(b: Block): Block {
    Block(Buddy(b.start, b.order), b.order)
  }

  function Parent(b: Block): Block {
    Block(Min(b.start, Buddy(b.start, b.order)), b.order + 1)
  }

  ghost predicate Covered(blocks: set<Block>, f: int) {
    exists b :: b in blocks && Covers(b, f)
  }

  /** Every frame of `[0, n)` lies in exactly one block of `blocks`, and every block is aligned and inside. */
  ghost predicate Tiles(n: nat, blocks: set<Block>) {
    && (forall b | b in blocks :: Placed(n, b))
    && (forall f | 0 <= f < n :: Covered(blocks, f))
    && (forall b, c, f: int | b in blocks && c in blocks && Covers(b, f) && Covers(c, f) :: b == c)
  }

  predicate Shape(lists: Lists) {
    |lists| == MAX_ORDER + 1 && forall k | 0 <= k <= MAX_ORDER :: Distinct(lists[k])
  }

  predicate Listed(lists: Lists, b: Block) {
    b.order < |lists| && b.start in lists[b.order]
  }

  ghost function FreeBlocks(lists: Lists): (r: set<Block>)
    ensures forall b :: b in r <==> Listed(lists, b)
  {
    set k: nat, x: nat | k < |lists| && x in lists[k] :: Block(x, k)
  }

  /** No two buddies below the largest order are both free. */
  ghost predicate NoFreeBuddies(lists: Lists) {
    forall b | Listed(lists, b) && b.order < MAX_ORDER :: !Listed(lists, Mate(b))
  }

  ghost predicate Inv(s: State) {
    && Shape(s.lists)
    && FreeBlocks(s.lists) !! s.live
    && Tiles(s.n, FreeBlocks(s.lists) + s.live)
    && NoFreeBuddies(s.lists)
  }

  /** As `Inv`, with one block in hand that is on no list and belongs to nobody yet. */
  ghost predicate InHand(s: State, piece: Block) {
    && Shape(s.lists)
    && FreeBlocks(s.lists) !! s.live
    && piece !in FreeBlocks(s.lists) + s.live
    && Tiles(s.n, FreeBlocks(s.lists) + s.live + {piece})
    && NoFreeBuddies(s.lists)
  }

  /** Frame `f` lies in some listed block. */
  ghost predicate FrameFree(s: State, f: int) {
    exists b :: Listed(s.lists, b) && Covers(b, f)
  }

  /** Frame `f` lies in some block that is handed out. */
  ghost predicate FrameLive(s: State, f: int) {
    exists b :: b in s.live && Covers(b, f)
  }

  // ---- list operations --------------------------------------------------------

  function Push(lists: Lists, k: nat, x: nat): (r: Lists)
    requires k < |lists|
  {
    lists[k := [x] + lists[k]]
  }

  function Without(s: seq<nat>, x: nat): (r: seq<nat>) {
    if s == [] then []
    else if s[0] == x then s[1..]
    else [s[0]] + Without(s[1..], x)
  }

  function Remove(lists: Lists, k: nat, x: nat): (r: Lists)
    requires k < |lists|
  {
    lists[k := Without(lists[k], x)]
  }

  lemma {:induction false} WithoutIsMiddleRemoval(s: seq<nat>, i: nat)
    requires i < |s| && Distinct(s)
    ensures Without(s, s[i]) == s[..i] + s[i + 1..]
  {
    if i > 0 {
      assert s[1..][i - 1] == s[i];
      WithoutIsMiddleRemoval(s[1..], i - 1);
      assert [s[0]] + (s[1..][..i - 1] + s[1..][i..]) == s[..i] + s[i + 1..];
    }
  }

  lemma WithoutElements(s: seq<nat>, x: nat)
    requires Distinct(s) && x in s
    ensures Distinct(Without(s, x))
    ensures forall y :: y in Without(s, x) <==> y in s && y != x
    ensures |Without(s, x)| == |s| - 1
  {
    var i :| 0 <= i < |s| && s[i] == x;
    WithoutIsMiddleRemoval(s, i);
    forall y ensures y in Without(s, x) <==> y in s && y != x {
      if y in s && y != x {
        var j :| 0 <= j < |s| && s[j] == y;
        assert Without(s, x)[if j < i then j else j - 1] == y;
      }
    }
  }

  lemma PushBlocks(lists: Lists, b: Block)
    requires Shape(lists) && b.order <= MAX_ORDER && !Listed(lists, b)
    ensures Shape(Push(lists, b.order, b.start))
    ensures FreeBlocks(Push(lists, b.order, b.start)) == FreeBlocks(lists) + {b}
  {
    var r := Push(lists, b.order, b.start);
    forall c ensures Listed(r, c) <==> Listed(lists, c) || c == b {
      if c.order == b.order {
        assert r[c.order] == [b.start] + lists[b.order];
      }
    }
  }

  lemma RemoveBlocks(lists: Lists, b: Block)
    requires Shape(lists) && Listed(lists, b)
    ensures Shape(Remove(lists, b.order, b.start))
    ensures FreeBlocks(Remove(lists, b.order, b.start)) == FreeBlocks(lists) - {b}
  {
    WithoutElements(lists[b.order], b.start);
  }

  // ---- the operations ---------------------------------------------------------

  /** The smallest order from `k` up whose list is not empty, or `MAX_ORDER + 1`. */
  function Donor(lists: Lists, k: nat): (d: nat)
    requires |lists| == MAX_ORDER + 1 && k <= MAX_ORDER + 1
    ensures k <= d <= MAX_ORDER + 1
    ensures d <= MAX_ORDER ==> lists[d] != []
    ensures forall j | k <= j < d :: lists[j] == []
    decreases MAX_ORDER + 1 - k
  {
    if k <= MAX_ORDER && lists[k] == [] then Donor(lists, k + 1) else k
  }

  /** Split the unlisted block at `x` from `level` down to `order`, listing each upper half. */
  function Split(lists: Lists, level: nat, order: nat, x: nat): (r: Lists)
    requires |lists| == MAX_ORDER + 1 && level <= MAX_ORDER + 1
    ensures |r| == MAX_ORDER + 1
    decreases level
  {
    if level <= order then lists
    else Split(Push(lists, level - 1, x + Pow2(level - 1)), level - 1, order, x)
  }

  /** The lists after allocating a block of `order`, and where the block starts. */
  function Alloc(lists: Lists, order: nat): (r: Option<(Lists, nat)>)
    requires |lists| == MAX_ORDER + 1
    ensures r.Some? ==> |r.value.0| == MAX_ORDER + 1
  {
    if order > MAX_ORDER then None
    else
      var d := Donor(lists, order);
      if d > MAX_ORDER then None
      else Some((Split(Remove(lists, d, lists[d][0]), d, order, lists[d][0]), lists[d][0]))
  }

  /** Join the unlisted block at `x` with free buddies as far as they go, then list the result. */
  function Merge(n: nat, lists: Lists, level: nat, x: nat): (r: Lists)
    requires |lists| == MAX_ORDER + 1 && level <= MAX_ORDER
    ensures |r| == MAX_ORDER + 1
    decreases MAX_ORDER - level
  {
    var b := Buddy(x, level);
    if level == MAX_ORDER || b + Pow2(level) > n || b !in lists[level] then Push(lists, level, x)
    else Merge(n, Remove(lists, level, b), level + 1, Min(x, b))
  }

  /** The largest order whose block starts aligned at `x` and fits below `n`, from `order` down. */
  function SeedOrder(n: nat, x: nat, order: nat): (r: nat)
    requires order <= MAX_ORDER && x < n
    ensures r <= order
    ensures Aligned(x, r) && x + Pow2(r) <= n
    ensures r < order ==> !(Aligned(x, r + 1) && x + Pow2(r + 1) <= n)
  {
    if order > 0 && (!Aligned(x, order) || x + Pow2(order) > n) then SeedOrder(n, x, order - 1) else order
  }

  /** List the frames from `x` up as greedily chosen blocks. */
  function Seed(n: nat, lists: Lists, x: nat): (r: Lists)
    requires |lists| == MAX_ORDER + 1 && x <= n
    ensures |r| == MAX_ORDER + 1
    decreases n - x
  {
    if x == n then lists
    else
      var k := SeedOrder(n, x, |lists| - 1);
      Seed(n, Push(lists, k, x), x + Pow2(k))
  }

  function EmptyLists(): Lists {
    seq(MAX_ORDER + 1, _ => [])
  }

  function Initial(n: nat): State {
    State(n, Seed(n, EmptyLists(), 0), {})
  }

  // ---- splitting and joining keep a tiling --------------------------------------

  lemma HalvesOf(n: nat, b: Block)
    requires Placed(n, b) && b.order > 0
    ensures Placed(n, Lower(b)) && Placed(n, Upper(b)) && Lower(b) != Upper(b)
    ensures Mate(Lower(b)) == Upper(b) && Mate(Upper(b)) == Lower(b)
    ensures forall f: int :: Covers(b, f) <==> Covers(Lower(b), f) || Covers(Upper(b), f)
    ensures forall f: int :: !(Covers(Lower(b), f) && Covers(Upper(b), f))
  {
    HalvesAreBuddies(b.start, b.order - 1);
  }

  lemma ParentOf(n: nat, b: Block)
    requires Placed(n, b) && Placed(n, Mate(b)) && b.order < MAX_ORDER
    ensures Placed(n, Parent(b)) && Parent(Mate(b)) == Parent(b) && Mate(Mate(b)) == b != Mate(b)
    ensures (Lower(Parent(b)) == b && Upper(Parent(b)) == Mate(b))
              || (Lower(Parent(b)) == Mate(b) && Upper(Parent(b)) == b)
  {
    BuddyProperties(b.start, b.order);
  }

  lemma SplitTiles(n: nat, rest: set<Block>, b: Block)
    requires b !in rest && Tiles(n, rest + {b}) && b.order > 0
    ensures Lower(b) !in rest && Upper(b) !in rest && Lower(b) != Upper(b)
    ensures Tiles(n, rest + {Lower(b)} + {Upper(b)})
  {
    var old' := rest + {b};
    var new' := rest + {Lower(b)} + {Upper(b)};
    assert b in old';
    HalvesOf(n, b);
    assert Covers(Lower(b), b.start) && Covers(b, b.start);
    assert Covers(Upper(b), Upper(b).start) && Covers(b, Upper(b).start);
    forall f | 0 <= f < n ensures Covered(new', f) {
      assert Covered(old', f);
      var c :| c in old' && Covers(c, f);
      if c != b { assert c in new'; }
      else if Covers(Lower(b), f) { assert Lower(b) in new'; }
      else { assert Upper(b) in new'; }
    }
  }

  lemma JoinTiles(n: nat, rest: set<Block>, b: Block)
    requires b !in rest && Mate(b) !in rest && b.order < MAX_ORDER
    requires Tiles(n, rest + {b} + {Mate(b)})
    ensures Parent(b) !in rest
    ensures Tiles(n, rest + {Parent(b)})
  {
    var old' := rest + {b} + {Mate(b)};
    var new' := rest + {Parent(b)};
    assert b in old' && Mate(b) in old';
    ParentOf(n, b);
    HalvesOf(n, Parent(b));
    assert Covers(b, b.start) && Covers(Parent(b), b.start);
    forall f | 0 <= f < n ensures Covered(new', f) {
      assert Covered(old', f);
      var c :| c in old' && Covers(c, f);
      if c == b || c == Mate(b) { assert Parent(b) in new'; } else { assert c in new'; }
    }
  }

  // ---- the operations keep the invariant ----------------------------------------

  /** Listing one half of a block whose other half is in hand creates no pair of free buddies. */
  lemma SplitOnce(s: State, piece: Block)
    requires InHand(s, piece) && piece.order > 0
    ensures InHand(s.(lists := Push(s.lists, piece.order - 1, Upper(piece).start)), Lower(piece))
  {
    var rest := FreeBlocks(s.lists) + s.live;
    assert piece in rest + {piece};
    SplitTiles(s.n, rest, piece);
    HalvesOf(s.n, piece);
    PushBlocks(s.lists, Upper(piece));
    var lists' := Push(s.lists, piece.order - 1, Upper(piece).start);
    assert FreeBlocks(lists') + s.live + {Lower(piece)} == rest + {Lower(piece)} + {Upper(piece)};
    assert FreeBlocks(lists') == FreeBlocks(s.lists) + {Upper(piece)};
    forall b | Listed(lists', b) && b.order < MAX_ORDER ensures !Listed(lists', Mate(b)) {
      assert b in FreeBlocks(lists');
      assert Placed(s.n, b) by { assert b in rest + {Lower(piece)} + {Upper(piece)}; }
      BuddyProperties(b.start, b.order);
      assert Mate(b) !in FreeBlocks(lists');
    }
  }

  lemma {:induction false} SplitKeeps(s: State, piece: Block, order: nat)
    requires InHand(s, piece) && order <= piece.order <= MAX_ORDER
    ensures InHand(s.(lists := Split(s.lists, piece.order, order, piece.start)), Block(piece.start, order))
    decreases piece.order
  {
    if order < piece.order {
      SplitOnce(s, piece);
      SplitKeeps(s.(lists := Push(s.lists, piece.order - 1, Upper(piece).start)), Lower(piece), order);
    }
  }

  lemma TakeFree(s: State, b: Block)
    requires Inv(s) && Listed(s.lists, b)
    ensures InHand(s.(lists := Remove(s.lists, b.order, b.start)), b)
  {
    RemoveBlocks(s.lists, b);
    var lists' := Remove(s.lists, b.order, b.start);
    assert b in FreeBlocks(s.lists);
    assert FreeBlocks(lists') + s.live + {b} == FreeBlocks(s.lists) + s.live;
    forall c | Listed(lists', c) && c.order < MAX_ORDER ensures !Listed(lists', Mate(c)) {
      assert c in FreeBlocks(lists');
      assert Listed(s.lists, c);
      assert Mate(c) !in FreeBlocks(s.lists);
    }
  }

  /** A successful `alloc` moves one aligned block of the requested size from free to live. */
  lemma AllocKeeps(s: State, order: nat)
    requires Inv(s) && Alloc(s.lists, order).Some?
    ensures var (lists', x) := Alloc(s.lists, order).value;
            && Block(x, order) !in s.live
            && Placed(s.n, Block(x, order))
            && Inv(State(s.n, lists', s.live + {Block(x, order)}))
            && (forall f: int | Covers(Block(x, order), f) :: FrameFree(s, f))
  {
    var (lists', x) := Alloc(s.lists, order).value;
    var d := Donor(s.lists, order);
    var donor := Block(x, d);
    assert Listed(s.lists, donor);
    TakeFree(s, donor);
    var taken := s.(lists := Remove(s.lists, d, x));
    SplitKeeps(taken, donor, order);
    var b := Block(x, order);
    assert FreeBlocks(lists') + s.live + {b} == FreeBlocks(lists') + (s.live + {b});
    assert b in FreeBlocks(lists') + (s.live + {b});
    Pow2Monotone(order, d);
    forall f: int | Covers(b, f) ensures FrameFree(s, f) {
      assert Covers(donor, f);
    }
  }

  /** One pass of the merge loop: absorb the free buddy. */
  lemma MergeOnce(s: State, piece: Block)
    requires InHand(s, piece) && piece.order < MAX_ORDER && Listed(s.lists, Mate(piece))
    ensures InHand(s.(lists := Remove(s.lists, piece.order, Mate(piece).start)), Parent(piece))
  {
    var mate := Mate(piece);
    var rest := FreeBlocks(s.lists) + s.live;
    assert mate in rest && piece in rest + {piece};
    RemoveBlocks(s.lists, mate);
    var lists' := Remove(s.lists, piece.order, mate.start);
    assert FreeBlocks(lists') == FreeBlocks(s.lists) - {mate};
    var rest' := FreeBlocks(lists') + s.live;
    ParentOf(s.n, piece);
    assert mate !in rest';
    assert rest' + {piece} + {mate} == rest + {piece};
    JoinTiles(s.n, rest', piece);
    forall c | Listed(lists', c) && c.order < MAX_ORDER ensures !Listed(lists', Mate(c)) {
      assert c in FreeBlocks(lists');
      assert Listed(s.lists, c);
      assert Mate(c) !in FreeBlocks(s.lists);
    }
  }

  /** Listing a block whose buddy is not free (or that has none) creates no pair of free buddies. */
  lemma PutFree(s: State, piece: Block)
    requires InHand(s, piece)
    requires piece.order == MAX_ORDER || !Listed(s.lists, Mate(piece))
    ensures Inv(s.(lists := Push(s.lists, piece.order, piece.start)))
  {
    assert piece in FreeBlocks(s.lists) + s.live + {piece};
    PushBlocks(s.lists, piece);
    var lists' := Push(s.lists, piece.order, piece.start);
    assert FreeBlocks(lists') + s.live == FreeBlocks(s.lists) + s.live + {piece};
    forall c | Listed(lists', c) && c.order < MAX_ORDER ensures !Listed(lists', Mate(c)) {
      assert c in FreeBlocks(lists');
      BuddyProperties(c.start, c.order);
      assert Mate(c) !in FreeBlocks(lists');
    }
  }

  lemma {:induction false} MergeKeeps(s: State, piece: Block)
    requires InHand(s, piece) && piece.order <= MAX_ORDER
    ensures Inv(s.(lists := Merge(s.n, s.lists, piece.order, piece.start)))
    decreases MAX_ORDER - piece.order
  {
    var mate := Mate(piece);
    if piece.order == MAX_ORDER || !Listed(s.lists, mate) {
      PutFree(s, piece);
    } else {
      assert mate in FreeBlocks(s.lists) + s.live + {piece};
      MergeOnce(s, piece);
      MergeKeeps(s.(lists := Remove(s.lists, piece.order, mate.start)), Parent(piece));
    }
  }

  /** Freeing a live block returns its frames and restores canonical form. */
  lemma FreeKeeps(s: State, b: Block)
    requires Inv(s) && b in s.live
    ensures b.order <= MAX_ORDER
    ensures Inv(State(s.n, Merge(s.n, s.lists, b.order, b.start), s.live - {b}))
  {
    assert b in FreeBlocks(s.lists) + s.live;
    var s' := s.(live := s.live - {b});
    assert FreeBlocks(s.lists) + s'.live + {b} == FreeBlocks(s.lists) + s.live;
    MergeKeeps(s', b);
  }
}
