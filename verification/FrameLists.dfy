/** The lists of the frame allocator as they are kept: a node at the front of every free block, in memory that is also
    the memory of page tables and processes, and list heads and a bitmap beside it. Taking a block and giving one back
    are functions on that memory. They write only frames that are free or part of the block, and the lists can be read
    from memory again afterwards. */
module FrameLists {
  import opened Prelude
  import opened LittleEndian
  import opened Memory
  import opened Hardware
  import opened Dyadic
  import opened BuddySpec
  import opened BuddyBitmap
  import opened BuddyAllocator
  import Laws = BuddyLaws

  const NODE_SIZE: nat := 16

  /** The node at the front of a frame. */
  function NodeIn(page: Page): FreeNode {
    FreeNode(FromLe(page[..8]), FromLe(page[8..NODE_SIZE]))
  }

  /** Both links are 64-bit words. */
  predicate IsNode(node: FreeNode) {
    node.next <= NIL && node.prev <= NIL
  }

  /** `next` is the first doubleword of the frame and `prev` the second. */
  lemma NodeLayout(page: Page)
    ensures NodeIn(page) == FreeNode(Doubleword(page, 0), Doubleword(page, 1))
  {
    hide FromLe;
    LittleEndianWords(page[0..8]);
    LittleEndianWords(page[8..16]);
    assert page[..8] == page[0..8];
  }

  /** A page that is a node when it is read as one. */
  function NodePage(node: FreeNode): (r: Page) {
    ToLe(node.next, 8) + ToLe(node.prev, 8) + seq(PAGE_SIZE - NODE_SIZE, _ => 0)
  }

  lemma NodeRoundTrip(node: FreeNode)
    requires IsNode(node)
    ensures NodeIn(NodePage(node)) == node
  {
    hide FromLe, ToLe, Pow256;
    var page := NodePage(node);
    Widths();
    LeRoundTrip(node.next, 8);
    LeRoundTrip(node.prev, 8);
    assert page[..8] == ToLe(node.next, 8) && page[8..NODE_SIZE] == ToLe(node.prev, 8);
  }

  /** A frame after a node was written at its front; the rest of it is as before. */
  function WriteNode(page: Page, node: FreeNode): Page {
    Splice(Splice(page, 0, ToLe(node.next, 8)), 8, ToLe(node.prev, 8))
  }

  lemma WriteNodeReads(page: Page, node: FreeNode)
    requires IsNode(node)
    ensures NodeIn(WriteNode(page, node)) == node
  {
    hide FromLe, ToLe, Pow256;
    var after := WriteNode(page, node);
    Widths();
    LeRoundTrip(node.next, 8);
    LeRoundTrip(node.prev, 8);
    assert after[..8] == ToLe(node.next, 8) && after[8..NODE_SIZE] == ToLe(node.prev, 8);
  }

  lemma NodeIsWords(page: Page)
    ensures IsNode(NodeIn(page))
  {
    hide FromLe, Pow256;
    Widths();
    assert |page[..8]| == 8 && |page[8..NODE_SIZE]| == 8;
    FromLeBound(page[..8]);
    FromLeBound(page[8..NODE_SIZE]);
  }

  /** What the allocator keeps outside the frames it manages, and the lists all of it stands for. */
  datatype Ledger = Ledger(base: nat, n: nat, heads: seq<nat>, words: seq<Word>, lists: Lists)

  ghost predicate HasFrames(bytes: Bytes, a: Ledger) {
    forall f: nat | a.base <= f < a.base + a.n :: f in bytes
  }

  function NodesIn(bytes: Bytes, a: Ledger): (r: seq<FreeNode>)
    requires HasFrames(bytes, a)
    ensures |r| == a.n
  {
    seq(a.n, i requires 0 <= i < a.n => NodeIn(bytes[a.base + i]))
  }

  /** The lists can be read from memory. */
  ghost predicate Threaded(bytes: Bytes, a: Ledger) {
    HasFrames(bytes, a) && Represents(a.n, a.heads, NodesIn(bytes, a), a.words, a.lists)
  }

  /** Relative frame `x` starts a free block. */
  ghost predicate Starts(a: Ledger, x: nat) {
    exists k: nat :: k < |a.lists| && x in a.lists[k]
  }

  /** Every node on a list holds what it held. */
  ghost predicate NodesKept(bytes: Bytes, bytes': Bytes, a: Ledger)
    requires HasFrames(bytes, a) && HasFrames(bytes', a)
  {
    forall x: nat | x < a.n && Starts(a, x) :: NodeIn(bytes'[a.base + x]) == NodeIn(bytes[a.base + x])
  }

  /** Whatever was written: the lists survive if and only if every link of every listed block does. */
  lemma ListsExact(bytes: Bytes, bytes': Bytes, a: Ledger)
    requires Threaded(bytes, a) && HasFrames(bytes', a)
    ensures Threaded(bytes', a) <==> NodesKept(bytes, bytes', a)
  {
    hide NodeIn, Represents, Linked;
    if NodesKept(bytes, bytes', a) { KeptRepresents(bytes, bytes', a); }
    if Threaded(bytes', a) {
      forall x: nat | x < a.n && Starts(a, x) ensures NodeIn(bytes'[a.base + x]) == NodeIn(bytes[a.base + x]) {
        var k: nat :| k < |a.lists| && x in a.lists[k];
        SameNode(a, NodesIn(bytes, a), NodesIn(bytes', a), k, x);
      }
    }
  }

  lemma SameNode(a: Ledger, nodes: seq<FreeNode>, nodes': seq<FreeNode>, k: nat, x: nat)
    requires Represents(a.n, a.heads, nodes, a.words, a.lists) && Represents(a.n, a.heads, nodes', a.words, a.lists)
    requires k < |a.lists| && x in a.lists[k]
    ensures x < a.n && nodes'[x] == nodes[x]
  {
    hide BitsAgree, BitBase, Shape, StartsDistinct, AllPlaced;
    assert |a.lists| == MAX_ORDER + 1 by { ListsShape(a, nodes); }
    var i: nat :| i < |a.lists[k]| && a.lists[k][i] == x;
    assert Linked(nodes, a.heads[k], a.lists[k]) && Linked(nodes', a.heads[k], a.lists[k]);
    assert NodeAt(nodes, a.lists[k], i) && NodeAt(nodes', a.lists[k], i);
  }

  lemma ListsShape(a: Ledger, nodes: seq<FreeNode>)
    requires Represents(a.n, a.heads, nodes, a.words, a.lists)
    ensures |a.lists| == MAX_ORDER + 1 && |a.heads| == MAX_ORDER + 1 && |nodes| == a.n <= NIL
    ensures forall k | 0 <= k <= MAX_ORDER :: Distinct(a.lists[k]) && Linked(nodes, a.heads[k], a.lists[k])
  {
    hide BitsAgree, BitBase, StartsDistinct, AllPlaced, Linked, Distinct;
  }

  lemma KeptRepresents(bytes: Bytes, bytes': Bytes, a: Ledger)
    requires Threaded(bytes, a) && HasFrames(bytes', a) && NodesKept(bytes, bytes', a)
    ensures Threaded(bytes', a)
  {
    hide NodeIn, BitsAgree, BitBase, Linked, Shape, StartsDistinct, AllPlaced;
    var nodes, nodes' := NodesIn(bytes, a), NodesIn(bytes', a);
    ListsShape(a, nodes);
    forall k: nat | k <= MAX_ORDER ensures Linked(nodes', a.heads[k], a.lists[k]) {
      forall y | y in a.lists[k] && y < |nodes| ensures nodes'[y] == nodes[y] { assert Starts(a, y); }
      LinkedElsewhere(nodes, nodes', a.heads[k], a.lists[k]);
    }
  }

  // ---- putting a block on a list and taking it off ----------------------------------------------------------

  /** Memory and what the allocator keeps beside it. */
  datatype Book = Book(bytes: Bytes, ledger: Ledger)

  function SetNode(bytes: Bytes, f: nat, node: FreeNode): (r: Bytes)
    requires f in bytes
    ensures r.Keys == bytes.Keys
  {
    bytes[f := WriteNode(bytes[f], node)]
  }

  lemma SetNodes(bytes: Bytes, a: Ledger, i: nat, node: FreeNode)
    requires HasFrames(bytes, a) && i < a.n && IsNode(node)
    ensures a.base + i in bytes && HasFrames(SetNode(bytes, a.base + i, node), a)
    ensures NodesIn(SetNode(bytes, a.base + i, node), a) == NodesIn(bytes, a)[i := node]
  {
    hide NodeIn, WriteNode;
    WriteNodeReads(bytes[a.base + i], node);
  }

  /** The ledger after block `x` was put on list `k`. */
  function Pushed(a: Ledger, k: nat, x: nat): Ledger
    requires k < |a.heads| && k < |a.lists| && BitIndex(a.n, k, x) < 64 * |a.words|
  {
    a.(heads := a.heads[k := x], words := PutBitAt(a.words, BitIndex(a.n, k, x), true), lists := Push(a.lists, k, x))
  }

  /** A link that leads to frame `f`. */
  predicate LinkTo(a: Ledger, link: nat, f: nat) {
    link != NIL && f == a.base + link
  }

  ghost predicate CanLink(b: Book, k: nat, x: nat) {
    Threaded(b.bytes, b.ledger) && k <= MAX_ORDER && Placed(b.ledger.n, Block(x, k)) && NotAStart(b.ledger.lists, x)
  }

  lemma LinkBounds(b: Book, k: nat, x: nat)
    requires CanLink(b, k, x)
    ensures var a := b.ledger;
            && k < |a.heads| && k < |a.lists| && x < a.n && BitIndex(a.n, k, x) < 64 * |a.words|
            && a.base + x in b.bytes && (a.heads[k] == NIL || (a.heads[k] < a.n && a.base + a.heads[k] in b.bytes))
  {
    hide NodeIn, Represents, NodesIn, BitIndex, Placed, NotAStart;
    var nodes := NodesIn(b.bytes, b.ledger);
    ListsShape(b.ledger, nodes);
    PushRepresents(b.ledger.n, b.ledger.heads, nodes, b.ledger.words, b.ledger.lists, k, x);
  }

  /** Put block `x` in front of list `k`. */
  function Link(b: Book, k: nat, x: nat): Book
    requires CanLink(b, k, x)
  {
    LinkBounds(b, k, x);
    var a := b.ledger;
    var head := a.heads[k];
    var one := SetNode(b.bytes, a.base + x, FreeNode(head, NIL));
    var both := if head == NIL then one else SetNode(one, a.base + head, NodeIn(one[a.base + head]).(prev := x));
    Book(both, Pushed(a, k, x))
  }

  /** Putting a block on a list writes two nodes, in the block and in the first one on the list, and the lists can be
      read from memory again. */
  lemma PushThreaded(b: Book, k: nat, x: nat)
    requires CanLink(b, k, x)
    ensures k < |b.ledger.heads| && k < |b.ledger.lists|
    ensures var r := Link(b, k, x);
            && Threaded(r.bytes, r.ledger) && r.ledger.lists == Push(b.ledger.lists, k, x)
            && r.ledger.base == b.ledger.base && r.ledger.n == b.ledger.n && r.bytes.Keys == b.bytes.Keys
            && (forall f | f in b.bytes && f != b.ledger.base + x && !LinkTo(b.ledger, b.ledger.heads[k], f) ::
                r.bytes[f] == b.bytes[f])
  {
    hide Represents, BitIndex, Placed, NotAStart, NodeIn, WriteNode, NodesIn, HasFrames;
    LinkBounds(b, k, x);
    var a := b.ledger;
    var nodes, head := NodesIn(b.bytes, a), a.heads[k];
    ListsShape(a, nodes);
    PushRepresents(a.n, a.heads, nodes, a.words, a.lists, k, x);
    SetNodes(b.bytes, a, x, FreeNode(head, NIL));
    var one := SetNode(b.bytes, a.base + x, FreeNode(head, NIL));
    if head != NIL {
      NodeOf(one, a, head);
      NodeIsWords(one[a.base + head]);
      SetNodes(one, a, head, NodeIn(one[a.base + head]).(prev := x));
    }
    SameNodes(Link(b, k, x).bytes, a, Pushed(a, k, x));
  }

  lemma NodeOf(bytes: Bytes, a: Ledger, i: nat)
    requires HasFrames(bytes, a) && i < a.n
    ensures a.base + i in bytes && NodesIn(bytes, a)[i] == NodeIn(bytes[a.base + i])
  {
    hide NodeIn;
  }

  lemma SameNodes(bytes: Bytes, a: Ledger, b: Ledger)
    requires HasFrames(bytes, a) && b.base == a.base && b.n == a.n
    ensures HasFrames(bytes, b) && NodesIn(bytes, b) == NodesIn(bytes, a)
  {
    hide NodeIn;
  }

  /** The ledger after block `x` was taken off list `k`, where `node` says who its neighbours are. */
  function Removed(a: Ledger, k: nat, x: nat, node: FreeNode): Ledger
    requires k < |a.heads| && k < |a.lists| && BitIndex(a.n, k, x) < 64 * |a.words|
  {
    a.(heads := if node.prev == NIL then a.heads[k := node.next] else a.heads,
       words := PutBitAt(a.words, BitIndex(a.n, k, x), false), lists := Remove(a.lists, k, x))
  }

  /** The links of a node lead nowhere or to a frame of this memory, managed or not. */
  predicate LinksIn(bytes: Bytes, base: nat, node: FreeNode) {
    (node.next == NIL || base + node.next in bytes) && (node.prev == NIL || base + node.prev in bytes)
  }

  predicate CanUnlink(b: Book, k: nat, x: nat) {
    && k < |b.ledger.heads| && k < |b.ledger.lists| && BitIndex(b.ledger.n, k, x) < 64 * |b.ledger.words|
    && b.ledger.base + x in b.bytes && LinksIn(b.bytes, b.ledger.base, NodeIn(b.bytes[b.ledger.base + x]))
  }

  /** Take block `x` off list `k`, trusting its node. */
  function Unlink(b: Book, k: nat, x: nat): Book
    requires CanUnlink(b, k, x)
  {
    var a := b.ledger;
    var node := NodeIn(b.bytes[a.base + x]);
    var FreeNode(next, prev) := node;
    var one := if prev == NIL then b.bytes
               else SetNode(b.bytes, a.base + prev, NodeIn(b.bytes[a.base + prev]).(next := next));
    var both := if next == NIL then one else SetNode(one, a.base + next, NodeIn(one[a.base + next]).(prev := prev));
    Book(both, Removed(a, k, x, node))
  }

  lemma UnlinkBounds(b: Book, k: nat, x: nat)
    requires Threaded(b.bytes, b.ledger) && k <= MAX_ORDER && k < |b.ledger.lists| && x in b.ledger.lists[k]
    ensures CanUnlink(b, k, x) && x < b.ledger.n
    ensures var node := NodeIn(b.bytes[b.ledger.base + x]);
            && (node.next == NIL || node.next < b.ledger.n) && (node.prev == NIL || node.prev < b.ledger.n)
  {
    hide NodeIn, Represents, NodesIn, BitIndex;
    var a := b.ledger;
    var nodes := NodesIn(b.bytes, a);
    ListsShape(a, nodes);
    RemoveRepresents(a.n, a.heads, nodes, a.words, a.lists, k, x);
    NodeOf(b.bytes, a, x);
  }

  /** Taking a block off a list writes the nodes of its neighbours, and the lists can be read from memory again. */
  lemma RemoveThreaded(b: Book, k: nat, x: nat)
    requires Threaded(b.bytes, b.ledger) && k <= MAX_ORDER && k < |b.ledger.lists| && x in b.ledger.lists[k]
    ensures CanUnlink(b, k, x)
    ensures var r, node := Unlink(b, k, x), NodeIn(b.bytes[b.ledger.base + x]);
            && Threaded(r.bytes, r.ledger) && r.ledger.lists == Remove(b.ledger.lists, k, x)
            && r.ledger.base == b.ledger.base && r.ledger.n == b.ledger.n && r.bytes.Keys == b.bytes.Keys
            && (forall f | f in b.bytes && !LinkTo(b.ledger, node.next, f) && !LinkTo(b.ledger, node.prev, f) ::
                r.bytes[f] == b.bytes[f])
  {
    hide Represents, BitIndex, NodeIn, WriteNode, NodesIn, HasFrames;
    UnlinkBounds(b, k, x);
    var a := b.ledger;
    var nodes := NodesIn(b.bytes, a);
    ListsShape(a, nodes);
    RemoveRepresents(a.n, a.heads, nodes, a.words, a.lists, k, x);
    NodeOf(b.bytes, a, x);
    NodeIsWords(b.bytes[a.base + x]);
    var FreeNode(next, prev) := NodeIn(b.bytes[a.base + x]);
    var one := b.bytes;
    if prev != NIL {
      NodeOf(one, a, prev);
      NodeIsWords(one[a.base + prev]);
      SetNodes(one, a, prev, NodeIn(one[a.base + prev]).(next := next));
      one := SetNode(one, a.base + prev, NodeIn(one[a.base + prev]).(next := next));
    }
    if next != NIL {
      NodeOf(one, a, next);
      NodeIsWords(one[a.base + next]);
      SetNodes(one, a, next, NodeIn(one[a.base + next]).(prev := prev));
    }
    SameNodes(Unlink(b, k, x).bytes, a, Unlink(b, k, x).ledger);
  }

  // ---- the frames on the lists -----------------------------------------------------------------------------

  /** Lists of aligned blocks that do not overlap, with no two free buddies. */
  ghost predicate ListsOk(n: nat, lists: Lists) {
    && Shape(lists) && NoFreeBuddies(lists)
    && (forall b | b in FreeBlocks(lists) :: Placed(n, b))
    && (forall b, c, f: int | b in FreeBlocks(lists) && c in FreeBlocks(lists) && Covers(b, f) && Covers(c, f) ::
        b == c)
  }

  /** Every frame on no list, other than those of `b`, as a block of its own. */
  ghost function Singles(n: nat, lists: Lists, b: set<Block>): (r: set<Block>)
    ensures forall c :: c in r <==>
              c.order == 0 && c.start < n && !Covered(FreeBlocks(lists), c.start) && !Covered(b, c.start)
  {
    set f: nat | f < n && !Covered(FreeBlocks(lists), f) && !Covered(b, f) :: Block(f, 0)
  }

  ghost predicate AtMostOne(b: set<Block>) {
    forall c, d | c in b && d in b :: c == d
  }

  /** A block that has no frame on a list can be thought of as handed out, with every other such frame. */
  lemma GroupedInv(n: nat, lists: Lists, b: set<Block>)
    requires ListsOk(n, lists) && AtMostOne(b) && forall c | c in b :: Placed(n, c) && Unlisted(lists, c)
    ensures Inv(State(n, lists, Singles(n, lists, b) + b))
  {
    var live := Singles(n, lists, b) + b;
    var all := FreeBlocks(lists) + live;
    forall c | c in all ensures Placed(n, c) {
      if c in Singles(n, lists, b) { SinglePlaced(n, c); }
    }
    forall f | 0 <= f < n ensures Covered(all, f) {
      if Covered(FreeBlocks(lists), f) {
        var c :| c in FreeBlocks(lists) && Covers(c, f);
        assert c in all;
      } else if Covered(b, f) {
        var c :| c in b && Covers(c, f);
        assert c in all;
      } else {
        assert Block(f, 0) in all && Covers(Block(f, 0), f);
      }
    }
    forall c, d, f: int | c in all && d in all && Covers(c, f) && Covers(d, f) ensures c == d {
      GroupedApart(n, lists, b, c, d, f);
    }
    forall c | c in FreeBlocks(lists) ensures c !in live {
      CoversStart(c);
      assert Covered(FreeBlocks(lists), c.start);
    }
  }

  lemma CoversStart(c: Block)
    ensures Covers(c, c.start)
  {
  }

  lemma SinglePlaced(n: nat, c: Block)
    requires c.order == 0 && c.start < n
    ensures Placed(n, c) && forall f: int :: Covers(c, f) <==> f == c.start
  {
  }

  ghost predicate Unlisted(lists: Lists, b: Block) {
    forall f: int | Covers(b, f) :: !Covered(FreeBlocks(lists), f)
  }

  lemma GroupedApart(n: nat, lists: Lists, b: set<Block>, c: Block, d: Block, f: int)
    requires ListsOk(n, lists) && AtMostOne(b) && forall e | e in b :: Placed(n, e) && Unlisted(lists, e)
    requires c in FreeBlocks(lists) + (Singles(n, lists, b) + b) && d in FreeBlocks(lists) + (Singles(n, lists, b) + b)
    requires Covers(c, f) && Covers(d, f)
    ensures c == d
  {
    if c in Singles(n, lists, b) { SinglePlaced(n, c); }
    if d in Singles(n, lists, b) { SinglePlaced(n, d); }
    if c in FreeBlocks(lists) { assert Covered(FreeBlocks(lists), f); }
    if d in FreeBlocks(lists) { assert Covered(FreeBlocks(lists), f); }
    if c in b { assert Covered(b, f); }
    if d in b { assert Covered(b, f); }
  }

  lemma InvLists(s: State)
    requires Inv(s)
    ensures ListsOk(s.n, s.lists)
  {
    var all := FreeBlocks(s.lists) + s.live;
    assert forall b | b in FreeBlocks(s.lists) :: b in all;
  }

  /** Frame `f` is part of a block on a list. */
  ghost predicate OnList(a: Ledger, f: nat) {
    a.base <= f < a.base + a.n && Covered(FreeBlocks(a.lists), f - a.base)
  }

  /** The frames on the lists. */
  ghost function FreeFrames(a: Ledger): (r: set<nat>)
    ensures forall f :: f in r <==> OnList(a, f)
  {
    set f: nat | f < a.base + a.n && OnList(a, f)
  }

  predicate InBlock(a: Ledger, b: Block, f: nat) {
    Covers(b, f - a.base)
  }

  ghost function BlockFrames(a: Ledger, b: Block): (r: set<nat>)
    ensures forall f: nat :: f in r <==> InBlock(a, b, f)
  {
    set f: nat | f < a.base + b.start + Pow2(b.order) && InBlock(a, b, f)
  }

  /** The lists can be read from memory and are what the allocator keeps them to be. */
  ghost predicate InOrder(b: Book) {
    Threaded(b.bytes, b.ledger) && ListsOk(b.ledger.n, b.ledger.lists)
  }

  // ---- taking and giving back ------------------------------------------------------------------------------

  /** Frames that may be written: every block on a list starts in `may`. */
  ghost predicate StartsIn(a: Ledger, may: set<nat>) {
    forall x: nat | Starts(a, x) :: a.base + x in may
  }

  lemma LinkWrites(b: Book, k: nat, x: nat, may: set<nat>)
    requires CanLink(b, k, x) && StartsIn(b.ledger, may) && b.ledger.base + x in may
    ensures BytesWithin(b.bytes, Link(b, k, x).bytes, may) && StartsIn(Link(b, k, x).ledger, may)
  {
    hide Link, Threaded, NotAStart, Placed;
    PushThreaded(b, k, x);
    HeadStarts(b, k);
    PushedStarts(b.ledger, Link(b, k, x).ledger, k, x, may);
  }

  lemma HeadStarts(b: Book, k: nat)
    requires Threaded(b.bytes, b.ledger) && k < |b.ledger.lists|
    ensures k < |b.ledger.heads| && (b.ledger.heads[k] == NIL <==> b.ledger.lists[k] == [])
    ensures b.ledger.lists[k] != [] ==> b.ledger.heads[k] == b.ledger.lists[k][0] && Starts(b.ledger, b.ledger.heads[k])
  {
    hide Represents, Distinct, NodesIn;
    var nodes := NodesIn(b.bytes, b.ledger);
    ListsShape(b.ledger, nodes);
    assert Linked(nodes, b.ledger.heads[k], b.ledger.lists[k]);
    if b.ledger.lists[k] != [] { assert NodeAt(nodes, b.ledger.lists[k], 0); }
  }

  lemma PushedStarts(a: Ledger, a': Ledger, k: nat, x: nat, may: set<nat>)
    requires StartsIn(a, may) && a.base + x in may && k < |a.lists| && a'.lists == Push(a.lists, k, x)
    requires a'.base == a.base
    ensures StartsIn(a', may)
  {
    forall y: nat | Starts(a', y) ensures a.base + y in may {
      var j: nat :| j < |a'.lists| && y in a'.lists[j];
      if y != x {
        assert y in a.lists[j];
        assert Starts(a, y);
      }
    }
  }

  lemma RemovedStarts(a: Ledger, a': Ledger, k: nat, x: nat, may: set<nat>)
    requires StartsIn(a, may) && k < |a.lists| && a'.lists == Remove(a.lists, k, x) && a'.base == a.base
    ensures StartsIn(a', may)
  {
    forall y: nat | Starts(a', y) ensures a.base + y in may {
      var j: nat :| j < |a'.lists| && y in a'.lists[j];
      if j == k { WithoutSubset(a.lists[k], x, y); }
      assert y in a.lists[j];
      assert Starts(a, y);
    }
  }

  lemma {:induction false} WithoutSubset(list: seq<nat>, x: nat, y: nat)
    ensures y in Without(list, x) ==> y in list
  {
    if list != [] { WithoutSubset(list[1..], x, y); }
  }

  lemma UnlinkWrites(b: Book, k: nat, x: nat, may: set<nat>)
    requires Threaded(b.bytes, b.ledger) && k <= MAX_ORDER && k < |b.ledger.lists| && x in b.ledger.lists[k]
    requires StartsIn(b.ledger, may)
    ensures CanUnlink(b, k, x)
    ensures BytesWithin(b.bytes, Unlink(b, k, x).bytes, may) && StartsIn(Unlink(b, k, x).ledger, may)
  {
    hide Unlink, Represents, NodeIn, CanUnlink, NodesIn;
    RemoveThreaded(b, k, x);
    NeighboursStart(b, k, x);
    RemovedStarts(b.ledger, Unlink(b, k, x).ledger, k, x, may);
  }

  lemma NeighboursStart(b: Book, k: nat, x: nat)
    requires Threaded(b.bytes, b.ledger) && k <= MAX_ORDER && k < |b.ledger.lists| && x in b.ledger.lists[k]
    ensures b.ledger.base + x in b.bytes
    ensures var node := NodeIn(b.bytes[b.ledger.base + x]);
            && (node.next == NIL || Starts(b.ledger, node.next)) && (node.prev == NIL || Starts(b.ledger, node.prev))
            && (node.prev == NIL && node.next == NIL ==> b.ledger.lists[k] == [x])
  {
    hide Represents, NodeIn, NodesIn, Distinct;
    var a := b.ledger;
    var nodes := NodesIn(b.bytes, a);
    ListsShape(a, nodes);
    var i: nat :| i < |a.lists[k]| && a.lists[k][i] == x;
    Neighbours(nodes, a.heads[k], a.lists[k], i);
    NodeOf(b.bytes, a, x);
    var node := nodes[x];
    if node.next != NIL { assert node.next in a.lists[k]; }
    if node.prev != NIL { assert node.prev in a.lists[k]; }
  }

  /** Split the block at `x`, which is on no list, from `level` down to `order`, listing each upper half. */
  function SplitDown(b: Book, level: nat, order: nat, x: nat): Book
    requires Threaded(b.bytes, b.ledger) && |b.ledger.lists| == MAX_ORDER + 1 && level <= MAX_ORDER
    requires SplitOk(b.ledger.n, b.ledger.lists, level, order, x)
    decreases level
  {
    if level <= order then b
    else
      var half := x + Pow2(level - 1);
      PushThreaded(b, level - 1, half);
      SplitDown(Link(b, level - 1, half), level - 1, order, x)
  }

  lemma {:induction false} SplitThreaded(b: Book, level: nat, order: nat, x: nat, may: set<nat>)
    requires Threaded(b.bytes, b.ledger) && |b.ledger.lists| == MAX_ORDER + 1 && level <= MAX_ORDER
    requires SplitOk(b.ledger.n, b.ledger.lists, level, order, x) && StartsIn(b.ledger, may)
    requires forall f: nat | InBlock(b.ledger, Block(x, level), f) :: f in may
    ensures var r := SplitDown(b, level, order, x);
            && Threaded(r.bytes, r.ledger) && r.ledger.lists == Split(b.ledger.lists, level, order, x)
            && r.ledger.base == b.ledger.base && r.ledger.n == b.ledger.n
            && BytesWithin(b.bytes, r.bytes, may)
    decreases level
  {
    hide Threaded, NotAStart, Placed, Link, StartsIn;
    if level > order {
      var half := x + Pow2(level - 1);
      PushThreaded(b, level - 1, half);
      assert InBlock(b.ledger, Block(x, level), b.ledger.base + half);
      LinkWrites(b, level - 1, half, may);
      var c := Link(b, level - 1, half);
      forall f: nat | InBlock(c.ledger, Block(x, level - 1), f) ensures f in may {
        assert InBlock(b.ledger, Block(x, level), f);
      }
      SplitThreaded(c, level - 1, order, x, may);
    }
  }

  /** Join the block at `x`, which is on no list, with free buddies as far as they go, then list the result. */
  function Coalesce(b: Book, level: nat, x: nat): Book
    requires Threaded(b.bytes, b.ledger) && |b.ledger.lists| == MAX_ORDER + 1 && level <= MAX_ORDER
    requires MergeOk(b.ledger.n, b.ledger.lists, level, x)
    decreases MAX_ORDER - level
  {
    var buddy := Buddy(x, level);
    BuddyBit(b, level, x);
    if level == MAX_ORDER || buddy + Pow2(level) > b.ledger.n || !BitSet(b.ledger.n, b.ledger.words, level, buddy) then
      Link(b, level, x)
    else
      RemoveThreaded(b, level, buddy);
      Coalesce(Unlink(b, level, buddy), level + 1, Min(x, buddy))
  }

  lemma BuddyBit(b: Book, level: nat, x: nat)
    requires Threaded(b.bytes, b.ledger) && |b.ledger.lists| == MAX_ORDER + 1 && level <= MAX_ORDER
    requires Aligned(x, level) && BitBase(b.ledger.n, MAX_ORDER + 1) <= 64 * |b.ledger.words|
    ensures Buddy(x, level) + Pow2(level) <= b.ledger.n ==>
              Buddy(x, level) < b.ledger.n
              && (BitSet(b.ledger.n, b.ledger.words, level, Buddy(x, level)) <==>
                  Buddy(x, level) in b.ledger.lists[level])
  {
    hide NodesIn, Linked, Shape, StartsDistinct, AllPlaced, BitBase;
    BuddyProperties(x, level);
  }

  lemma {:induction false} MergeThreaded(b: Book, level: nat, x: nat, may: set<nat>)
    requires Threaded(b.bytes, b.ledger) && |b.ledger.lists| == MAX_ORDER + 1 && level <= MAX_ORDER
    requires MergeOk(b.ledger.n, b.ledger.lists, level, x) && StartsIn(b.ledger, may) && b.ledger.base + x in may
    ensures var r := Coalesce(b, level, x);
            && Threaded(r.bytes, r.ledger) && r.ledger.lists == Merge(b.ledger.n, b.ledger.lists, level, x)
            && r.ledger.base == b.ledger.base && r.ledger.n == b.ledger.n
            && BytesWithin(b.bytes, r.bytes, may)
    decreases MAX_ORDER - level
  {
    hide Threaded, NotAStart, Placed, Link, Unlink, StartsIn, BitSet, CanUnlink, Aligned, BitBase, BytesWithin, Pow2;
    var buddy := Buddy(x, level);
    ThreadedBits(b);
    PlacedAligned(b.ledger.n, x, level);
    BuddyBit(b, level, x);
    if level == MAX_ORDER || buddy + Pow2(level) > b.ledger.n || buddy !in b.ledger.lists[level] {
      PushThreaded(b, level, x);
      LinkWrites(b, level, x, may);
    } else {
      RemoveThreaded(b, level, buddy);
      UnlinkWrites(b, level, buddy, may);
      BuddyStart(b.ledger, level, buddy, may);
      MergeThreaded(Unlink(b, level, buddy), level + 1, Min(x, buddy), may);
      WithinTwice(b.bytes, Unlink(b, level, buddy).bytes, Coalesce(b, level, x).bytes, may);
    }
  }

  lemma BuddyStart(a: Ledger, k: nat, y: nat, may: set<nat>)
    requires StartsIn(a, may) && k < |a.lists| && y in a.lists[k]
    ensures a.base + y in may
  {
    assert Starts(a, y);
  }

  lemma ThreadedBits(b: Book)
    requires Threaded(b.bytes, b.ledger)
    ensures BitBase(b.ledger.n, MAX_ORDER + 1) <= 64 * |b.ledger.words| && |b.ledger.lists| == MAX_ORDER + 1
  {
    hide NodesIn, Linked, StartsDistinct, AllPlaced, BitBase, BitsAgree;
  }

  lemma PlacedAligned(n: nat, x: nat, k: nat)
    requires Placed(n, Block(x, k))
    ensures Aligned(x, k) && x + Pow2(k) <= n
  {
  }

  // ---- what the two calls promise --------------------------------------------------------------------------

  /** The first order from `k` up whose list has a head. */
  function FirstList(heads: seq<nat>, k: nat): (d: nat)
    requires |heads| == MAX_ORDER + 1 && k <= MAX_ORDER + 1
    ensures k <= d <= MAX_ORDER + 1 && (d <= MAX_ORDER ==> heads[d] != NIL)
    decreases MAX_ORDER + 1 - k
  {
    if k <= MAX_ORDER && heads[k] == NIL then FirstList(heads, k + 1) else k
  }

  lemma {:induction false} FirstListIsDonor(b: Book, k: nat)
    requires Threaded(b.bytes, b.ledger) && k <= MAX_ORDER + 1
    ensures |b.ledger.heads| == |b.ledger.lists| == MAX_ORDER + 1
    ensures FirstList(b.ledger.heads, k) == Donor(b.ledger.lists, k)
    decreases MAX_ORDER + 1 - k
  {
    hide Represents, NodesIn, HasFrames;
    ListsShape(b.ledger, NodesIn(b.bytes, b.ledger));
    if k <= MAX_ORDER {
      HeadStarts(b, k);
      FirstListIsDonor(b, k + 1);
    }
  }

  /** What taking a block of `order` needs. */
  lemma TakeBounds(b: Book, order: nat)
    requires InOrder(b) && order <= MAX_ORDER
    ensures |b.ledger.heads| == |b.ledger.lists| == MAX_ORDER + 1
    ensures var d := FirstList(b.ledger.heads, order);
            && d == Donor(b.ledger.lists, order)
            && (d <= MAX_ORDER ==>
                var x := b.ledger.heads[d];
                && b.ledger.lists[d] != [] && x == b.ledger.lists[d][0] && CanUnlink(b, d, x)
                && (var c := Unlink(b, d, x);
                    && Threaded(c.bytes, c.ledger) && c.ledger.lists == Remove(b.ledger.lists, d, x)
                    && c.ledger.n == b.ledger.n && c.ledger.base == b.ledger.base
                    && SplitOk(c.ledger.n, c.ledger.lists, d, order, x)))
  {
    hide Threaded, ListsOk, Unlink, CanUnlink, SplitOk;
    FirstListIsDonor(b, order);
    var d := FirstList(b.ledger.heads, order);
    if d <= MAX_ORDER {
      HeadStarts(b, d);
      RemoveThreaded(b, d, b.ledger.heads[d]);
      EmptyGroup(b.ledger.n, b.ledger.lists);
      DonorOk(State(b.ledger.n, b.ledger.lists, Singles(b.ledger.n, b.ledger.lists, {})), order);
    }
  }

  lemma EmptyGroup(n: nat, lists: Lists)
    requires ListsOk(n, lists)
    ensures Inv(State(n, lists, Singles(n, lists, {})))
  {
    hide ListsOk, Inv;
    GroupedInv(n, lists, {});
    assert Singles(n, lists, {}) + {} == Singles(n, lists, {});
  }

  /** Take a block of `order`: memory and ledger afterwards, and where the block starts. */
  function Take(b: Book, order: nat): (r: Option<(Book, nat)>)
    requires InOrder(b)
  {
    if order > MAX_ORDER then None
    else
      TakeBounds(b, order);
      var d := FirstList(b.ledger.heads, order);
      if d > MAX_ORDER then None
      else
        var x := b.ledger.heads[d];
        Some((SplitDown(Unlink(b, d, x), d, order, x), x))
  }

  /** Taking a block works exactly if a run of that size is free. It takes exactly that block off the lists, writes only
      frames that were free, and leaves the lists in order. */
  lemma TakeKeeps(b: Book, order: nat)
    requires InOrder(b)
    ensures |b.ledger.lists| == MAX_ORDER + 1
    ensures Take(b, order).None? ==> Alloc(b.ledger.lists, order).None?
    ensures Take(b, order).Some? ==>
              var (c, x) := Take(b, order).value;
              && Alloc(b.ledger.lists, order) == Some((c.ledger.lists, x)) && InOrder(c)
              && c.ledger.base == b.ledger.base && c.ledger.n == b.ledger.n
              && Placed(b.ledger.n, Block(x, order))
              && BlockFrames(b.ledger, Block(x, order)) <= FreeFrames(b.ledger)
              && FreeFrames(c.ledger) == FreeFrames(b.ledger) - BlockFrames(b.ledger, Block(x, order))
              && BytesWithin(b.bytes, c.bytes, FreeFrames(b.ledger))
  {
    hide Threaded, ListsOk, Unlink, CanUnlink, SplitOk, SplitDown, Placed, Inv, Split;
    ThreadedBits(b);
    if order <= MAX_ORDER {
      TakeBounds(b, order);
      if Take(b, order).Some? {
        var (c, x) := Take(b, order).value;
        TakeWrites(b, order);
        EmptyGroup(b.ledger.n, b.ledger.lists);
        var s := State(b.ledger.n, b.ledger.lists, Singles(b.ledger.n, b.ledger.lists, {}));
        AllocKeeps(s, order);
        InvLists(State(s.n, c.ledger.lists, s.live + {Block(x, order)}));
        FramesTaken(b.ledger, c.ledger, s.live, Block(x, order));
      }
    }
  }

  lemma TakeWrites(b: Book, order: nat)
    requires InOrder(b) && order <= MAX_ORDER && Take(b, order).Some?
    ensures var (c, x) := Take(b, order).value;
            && |b.ledger.lists| == MAX_ORDER + 1
            && Threaded(c.bytes, c.ledger) && Alloc(b.ledger.lists, order) == Some((c.ledger.lists, x))
            && c.ledger.base == b.ledger.base && c.ledger.n == b.ledger.n
            && BytesWithin(b.bytes, c.bytes, FreeFrames(b.ledger))
  {
    hide Threaded, ListsOk, Unlink, CanUnlink, SplitOk, StartsIn, Split;
    TakeBounds(b, order);
    var a := b.ledger;
    var d := FirstList(a.heads, order);
    var x, may := a.heads[d], FreeFrames(a);
    FreeStarts(a);
    ListedFrames(a, Block(x, d));
    UnlinkWrites(b, d, x, may);
    var c := Unlink(b, d, x);
    forall f: nat | InBlock(c.ledger, Block(x, d), f) ensures f in may { assert InBlock(a, Block(x, d), f); }
    SplitThreaded(c, d, order, x, may);
    WithinTwice(b.bytes, c.bytes, SplitDown(c, d, order, x).bytes, may);
  }

  lemma WithinTwice(a: Bytes, b: Bytes, c: Bytes, may: set<nat>)
    requires BytesWithin(a, b, may) && BytesWithin(b, c, may)
    ensures BytesWithin(a, c, may)
  {
  }

  /** Blocks on a list are free, and so are their first frames. */
  lemma ListedFrames(a: Ledger, b: Block)
    requires ListsOk(a.n, a.lists) && Listed(a.lists, b)
    ensures BlockFrames(a, b) <= FreeFrames(a)
  {
    hide Shape, NoFreeBuddies;
    assert b in FreeBlocks(a.lists) && Placed(a.n, b);
    forall f | f in BlockFrames(a, b) ensures OnList(a, f) { assert Covers(b, f - a.base); }
  }

  lemma FreeStarts(a: Ledger)
    requires ListsOk(a.n, a.lists)
    ensures StartsIn(a, FreeFrames(a))
  {
    hide ListsOk;
    forall x: nat | Starts(a, x) ensures a.base + x in FreeFrames(a) {
      var k: nat :| k < |a.lists| && x in a.lists[k];
      ListedFrames(a, Block(x, k));
      CoversStart(Block(x, k));
      assert InBlock(a, Block(x, k), a.base + x);
    }
  }

  lemma FramesTaken(a: Ledger, c: Ledger, live: set<Block>, b: Block)
    requires Inv(State(a.n, a.lists, live)) && Inv(State(a.n, c.lists, live + {b})) && b !in live
    requires c.base == a.base && c.n == a.n
    ensures BlockFrames(a, b) <= FreeFrames(a) && FreeFrames(c) == FreeFrames(a) - BlockFrames(a, b)
  {
    hide Inv, OnList, InBlock;
    forall f: nat
      ensures OnList(c, f) <==> OnList(a, f) && !InBlock(a, b, f)
      ensures InBlock(a, b, f) ==> OnList(a, f)
    {
      FrameHandedOut(a, c, live, b, f);
    }
  }

  lemma FrameHandedOut(a: Ledger, c: Ledger, live: set<Block>, b: Block, f: nat)
    requires Inv(State(a.n, a.lists, live)) && Inv(State(a.n, c.lists, live + {b})) && b !in live
    requires c.base == a.base && c.n == a.n
    ensures OnList(c, f) <==> OnList(a, f) && !InBlock(a, b, f)
    ensures InBlock(a, b, f) ==> OnList(a, f)
  {
    hide Inv, Covered, FrameLive, Placed;
    LiveInside(State(a.n, c.lists, live + {b}), b);
    if a.base <= f < a.base + a.n {
      FreeIffNotLive(State(a.n, a.lists, live), f - a.base);
      FreeIffNotLive(State(a.n, c.lists, live + {b}), f - a.base);
      LiveWith(a.n, a.lists, c.lists, live, b, f - a.base);
    }
  }

  lemma LiveInside(s: State, b: Block)
    requires Inv(s) && b in s.live
    ensures Placed(s.n, b) && b.start + Pow2(b.order) <= s.n
  {
    assert b in FreeBlocks(s.lists) + s.live;
  }

  lemma FreeIffNotLive(s: State, f: nat)
    requires Inv(s) && f < s.n
    ensures Covered(FreeBlocks(s.lists), f) <==> !FrameLive(s, f)
  {
    hide Inv;
    Laws.FreeOrLive(s, f);
    if FrameFree(s, f) {
      var b :| Listed(s.lists, b) && Covers(b, f);
      assert b in FreeBlocks(s.lists);
    }
    if Covered(FreeBlocks(s.lists), f) {
      var b :| b in FreeBlocks(s.lists) && Covers(b, f);
      assert Listed(s.lists, b);
    }
  }

  /** Handing out one more block: a frame of it was not handed out before, all others are as they were. */
  lemma LiveWith(n: nat, before: Lists, after: Lists, live: set<Block>, b: Block, f: nat)
    requires Inv(State(n, after, live + {b})) && b !in live
    ensures FrameLive(State(n, after, live + {b}), f) <==> FrameLive(State(n, before, live), f) || Covers(b, f)
    ensures Covers(b, f) ==> !FrameLive(State(n, before, live), f)
  {
    var s, t := State(n, before, live), State(n, after, live + {b});
    var all := FreeBlocks(after) + t.live;
    assert b in all && b in t.live && forall c | c in live :: c in all && c in t.live;
  }

  // ---- giving back -----------------------------------------------------------------------------------------

  /** A block of the managed region with no frame on a list. */
  ghost predicate CanGive(a: Ledger, b: Block) {
    Placed(a.n, b) && Unlisted(a.lists, b)
  }

  lemma GiveBounds(b: Book, block: Block)
    requires InOrder(b) && CanGive(b.ledger, block)
    ensures |b.ledger.lists| == MAX_ORDER + 1 && block.order <= MAX_ORDER
    ensures MergeOk(b.ledger.n, b.ledger.lists, block.order, block.start)
  {
    hide Threaded, ListsOk, Inv, MergeOk;
    ThreadedBits(b);
    GroupedBlock(b.ledger, block);
    InHandMergeOk(State(b.ledger.n, b.ledger.lists, Singles(b.ledger.n, b.ledger.lists, {block})), block);
  }

  lemma GroupedBlock(a: Ledger, block: Block)
    requires ListsOk(a.n, a.lists) && CanGive(a, block)
    ensures block !in Singles(a.n, a.lists, {block})
    ensures Inv(State(a.n, a.lists, Singles(a.n, a.lists, {block}) + {block}))
    ensures InHand(State(a.n, a.lists, Singles(a.n, a.lists, {block})), block)
  {
    hide ListsOk;
    GroupedInv(a.n, a.lists, {block});
    CoversStart(block);
    var rest := Singles(a.n, a.lists, {block});
    assert Covered({block}, block.start);
    assert FreeBlocks(a.lists) + (rest + {block}) == FreeBlocks(a.lists) + rest + {block};
  }

  /** Give a block back. */
  function Give(b: Book, block: Block): Book
    requires InOrder(b) && CanGive(b.ledger, block)
  {
    GiveBounds(b, block);
    Coalesce(b, block.order, block.start)
  }

  /** Giving a block back puts exactly its frames on the lists, writes only frames that are free then, and leaves the
      lists in order. */
  lemma GiveKeeps(b: Book, block: Block)
    requires InOrder(b) && CanGive(b.ledger, block)
    ensures |b.ledger.lists| == MAX_ORDER + 1 && block.order <= MAX_ORDER
    ensures var c := Give(b, block);
            && InOrder(c) && c.ledger.lists == Merge(b.ledger.n, b.ledger.lists, block.order, block.start)
            && c.ledger.base == b.ledger.base && c.ledger.n == b.ledger.n
            && BlockFrames(b.ledger, block) !! FreeFrames(b.ledger)
            && FreeFrames(c.ledger) == FreeFrames(b.ledger) + BlockFrames(b.ledger, block)
            && BytesWithin(b.bytes, c.bytes, FreeFrames(c.ledger))
  {
    hide Threaded, ListsOk, MergeOk, Coalesce, Placed, Inv, InHand, Merge, StartsIn, OnList, InBlock;
    GiveBounds(b, block);
    var a, may := b.ledger, FreeFrames(b.ledger) + BlockFrames(b.ledger, block);
    FreeStarts(a);
    StartsMore(a, FreeFrames(a), may);
    FirstInBlock(a, block);
    MergeThreaded(b, block.order, block.start, may);
    var c := Give(b, block);
    GroupedBlock(a, block);
    var rest := Singles(a.n, a.lists, {block});
    var s := State(a.n, a.lists, rest + {block});
    FreeKeeps(s, block);
    assert s.live - {block} == rest;
    InvLists(State(a.n, c.ledger.lists, rest));
    FramesTaken(c.ledger, a, rest, block);
    SameBlock(a, c.ledger, block);
  }

  lemma StartsMore(a: Ledger, may: set<nat>, more: set<nat>)
    requires StartsIn(a, may) && may <= more
    ensures StartsIn(a, more)
  {
  }

  lemma FirstInBlock(a: Ledger, b: Block)
    ensures a.base + b.start in BlockFrames(a, b)
  {
    CoversStart(b);
  }

  lemma SameBlock(a: Ledger, c: Ledger, b: Block)
    requires c.base == a.base
    ensures BlockFrames(c, b) == BlockFrames(a, b)
  {
  }

  /** The block that was listed last is first on its list, and the block given back is part of it. */
  lemma {:induction false} MergedFirst(n: nat, lists: Lists, level: nat, x: nat, f: int)
    requires |lists| == MAX_ORDER + 1 && level <= MAX_ORDER && Covers(Block(x, level), f) && Aligned(x, level)
    ensures exists k: nat :: k <= MAX_ORDER && FirstCovers(Merge(n, lists, level, x), k, f)
    decreases MAX_ORDER - level
  {
    var buddy := Buddy(x, level);
    if level == MAX_ORDER || buddy + Pow2(level) > n || buddy !in lists[level] {
      assert FirstCovers(Merge(n, lists, level, x), level, f);
    } else {
      BuddyProperties(x, level);
      var rest := Remove(lists, level, buddy);
      MergedFirst(n, rest, level + 1, Min(x, buddy), f);
      var k: nat :| k <= MAX_ORDER && FirstCovers(Merge(n, rest, level + 1, Min(x, buddy)), k, f);
      assert FirstCovers(Merge(n, lists, level, x), k, f);
    }
  }

  predicate FirstCovers(lists: Lists, k: nat, f: int) {
    k < |lists| && lists[k] != [] && Covers(Block(lists[k][0], k), f)
  }

  /** So a frame given back on its own that starts a block is first on its list. It is a block of its own if its buddy
      is not one. */
  lemma GivenFirst(b: Book, f: nat)
    requires InOrder(b) && CanGive(b.ledger, Block(f, 0))
    ensures var a := Give(b, Block(f, 0)).ledger;
            && |a.lists| == |b.ledger.lists| == MAX_ORDER + 1
            && (Buddy(f, 0) !in b.ledger.lists[0] ==> a.lists[0] == [f] + b.ledger.lists[0])
            && (Starts(a, f) ==> exists k: nat :: k <= MAX_ORDER && a.lists[k] != [] && a.lists[k][0] == f)
  {
    hide Threaded, Give, InOrder, CanGive;
    GiveKeeps(b, Block(f, 0));
    var after := Give(b, Block(f, 0));
    BookLists(after);
    if Starts(after.ledger, f) {
      CoversStart(Block(f, 0));
      AlignedAtZero(f);
      MergedFirst(b.ledger.n, b.ledger.lists, 0, f, f);
      var k: nat :| k <= MAX_ORDER && FirstCovers(after.ledger.lists, k, f);
      StartIsFirst(after.ledger, k, f);
    }
  }

  lemma StartIsFirst(a: Ledger, k: nat, f: nat)
    requires ListsOk(a.n, a.lists) && FirstCovers(a.lists, k, f) && Starts(a, f)
    ensures a.lists[k][0] == f
  {
    var j: nat :| j < |a.lists| && f in a.lists[j];
    CoversStart(Block(f, j));
    assert Block(f, j) in FreeBlocks(a.lists) && Block(a.lists[k][0], k) in FreeBlocks(a.lists);
  }

  lemma AlignedAtZero(f: nat)
    ensures Aligned(f, 0)
  {
  }

  lemma BookLists(b: Book)
    requires InOrder(b)
    ensures ListsOk(b.ledger.n, b.ledger.lists) && Threaded(b.bytes, b.ledger)
  {
  }

  /** The blocks on the lists are a function of the frames on them. */
  lemma SameFreeBlocks(a: Ledger, c: Ledger)
    requires ListsOk(a.n, a.lists) && ListsOk(c.n, c.lists) && a.base == c.base && a.n == c.n
    requires FreeFrames(a) == FreeFrames(c)
    ensures FreeBlocks(a.lists) == FreeBlocks(c.lists)
  {
    hide ListsOk, Inv, Covered;
    var s := State(a.n, a.lists, Singles(a.n, a.lists, {}));
    var t := State(c.n, c.lists, Singles(c.n, c.lists, {}));
    EmptyGroup(a.n, a.lists);
    EmptyGroup(c.n, c.lists);
    forall f: int ensures FrameLive(s, f) <==> FrameLive(t, f) {
      SingleLive(a, f);
      SingleLive(c, f);
      assert f >= 0 ==> (OnList(a, a.base + f) <==> a.base + f in FreeFrames(a));
      assert f >= 0 ==> (OnList(c, a.base + f) <==> a.base + f in FreeFrames(c));
    }
    Laws.CanonicalForm(s, t);
  }

  lemma SingleLive(a: Ledger, f: int)
    ensures FrameLive(State(a.n, a.lists, Singles(a.n, a.lists, {})), f) <==>
            0 <= f < a.n && !OnList(a, a.base + f)
  {
    var live := Singles(a.n, a.lists, {});
    if 0 <= f < a.n && !OnList(a, a.base + f) { assert Block(f, 0) in live && Covers(Block(f, 0), f); }
    if FrameLive(State(a.n, a.lists, live), f) {
      var b :| b in live && Covers(b, f);
      SinglePlaced(a.n, b);
    }
  }

  /** A block of order 0 is one frame. */
  lemma OneFrame(a: Ledger, x: nat)
    ensures BlockFrames(a, Block(x, 0)) == {a.base + x}
    ensures x < a.n && a.base + x !in FreeFrames(a) ==> CanGive(a, Block(x, 0))
  {
    SinglePlaced(x + 1, Block(x, 0));
    forall f | f in BlockFrames(a, Block(x, 0)) ensures f == a.base + x { assert Covers(Block(x, 0), f - a.base); }
    FirstInBlock(a, Block(x, 0));
    if x < a.n && a.base + x !in FreeFrames(a) {
      SinglePlaced(a.n, Block(x, 0));
      assert !OnList(a, a.base + x);
    }
  }

  lemma FreeInMemory(b: Book)
    requires InOrder(b)
    ensures FreeFrames(b.ledger) <= b.bytes.Keys
  {
    hide ListsOk;
    forall f | f in FreeFrames(b.ledger) ensures f in b.bytes { assert OnList(b.ledger, f); }
  }

  /** Frames can be taken one by one as long as one is free. */
  lemma NoneFree(b: Book)
    requires InOrder(b)
    ensures Take(b, 0).None? <==> FreeFrames(b.ledger) == {}
  {
    hide Threaded, ListsOk, Take, Inv, InOrder;
    BookLists(b);
    TakeKeeps(b, 0);
    if Take(b, 0).Some? {
      OneFrame(b.ledger, Take(b, 0).value.1);
    } else {
      NothingListedFree(b.ledger);
    }
  }

  lemma NothingListedFree(a: Ledger)
    requires ListsOk(a.n, a.lists) && |a.lists| == MAX_ORDER + 1 && Alloc(a.lists, 0).None?
    ensures FreeFrames(a) == {}
  {
    assert forall k | 0 <= k < |a.lists| :: a.lists[k] == [];
    assert FreeBlocks(a.lists) == {};
  }

  // ---- the first lists -------------------------------------------------------------------------------------

  ghost predicate Seeding(b: Book, x: nat) {
    && Threaded(b.bytes, b.ledger) && |b.ledger.lists| == MAX_ORDER + 1 && x <= b.ledger.n
    && SeedOk(b.ledger.n, b.ledger.lists, x)
  }

  /** List the frames from `x` up as greedily chosen blocks. */
  function SeedFrom(b: Book, x: nat): Book
    requires Seeding(b, x)
    decreases b.ledger.n - x
  {
    hide Seeding, CanLink, Link, Pow2, SeedOrder;
    if x >= b.ledger.n then b
    else
      SeedStep(b, x);
      var k := SeedOrder(b.ledger.n, x, MAX_ORDER);
      SeedFrom(Link(b, k, x), x + Pow2(k))
  }

  lemma SeedStep(b: Book, x: nat)
    requires Seeding(b, x) && x < b.ledger.n
    ensures var k := SeedOrder(b.ledger.n, x, MAX_ORDER);
            && CanLink(b, k, x) && Pow2(k) > 0 && k < |b.ledger.lists|
            && (var c := Link(b, k, x);
                && c.ledger.lists == Push(b.ledger.lists, k, x) && c.ledger.n == b.ledger.n
                && c.ledger.base == b.ledger.base && Seeding(c, x + Pow2(k)))
  {
    hide Threaded, NotAStart, Link, Aligned;
    PushThreaded(b, SeedOrder(b.ledger.n, x, MAX_ORDER), x);
  }

  lemma {:induction false} SeedThreaded(b: Book, x: nat, may: set<nat>)
    requires Seeding(b, x) && StartsIn(b.ledger, may)
    requires forall f: nat | IsManaged(b.ledger.base, b.ledger.n, f) :: f in may
    ensures var r := SeedFrom(b, x);
            && Threaded(r.bytes, r.ledger) && r.ledger.base == b.ledger.base && r.ledger.n == b.ledger.n
            && BytesWithin(b.bytes, r.bytes, may)
            && |b.ledger.lists| == MAX_ORDER + 1 && x <= b.ledger.n
            && r.ledger.lists == Seed(b.ledger.n, b.ledger.lists, x)
    decreases b.ledger.n - x
  {
    hide Seeding, Link, StartsIn, BytesWithin, CanLink, SeedOrder, Pow2;
    SeedingParts(b, x);
    if x >= b.ledger.n {
      WithinSelf(b.bytes, may);
    } else {
      var k := SeedOrder(b.ledger.n, x, MAX_ORDER);
      SeedStep(b, x);
      assert IsManaged(b.ledger.base, b.ledger.n, b.ledger.base + x);
      LinkWrites(b, k, x, may);
      SeedThreaded(Link(b, k, x), x + Pow2(k), may);
      WithinTwice(b.bytes, Link(b, k, x).bytes, SeedFrom(b, x).bytes, may);
    }
  }

  lemma SeedingParts(b: Book, x: nat)
    requires Seeding(b, x)
    ensures Threaded(b.bytes, b.ledger) && |b.ledger.lists| == MAX_ORDER + 1 && x <= b.ledger.n
  {
    hide Threaded, SeedOk;
  }

  lemma WithinSelf(bytes: Bytes, may: set<nat>)
    ensures BytesWithin(bytes, bytes, may)
  {
  }

  function EmptyLedger(base: nat, n: nat): Ledger {
    Ledger(base, n, seq(MAX_ORDER + 1, _ => NIL), seq(BitBase(n, MAX_ORDER + 1), _ => 0), EmptyLists())
  }

  lemma EmptyThreaded(bytes: Bytes, base: nat, n: nat)
    requires n <= NIL && HasFrames(bytes, EmptyLedger(base, n))
    ensures Seeding(Book(bytes, EmptyLedger(base, n)), 0)
    ensures StartsIn(EmptyLedger(base, n), {})
  {
    hide Represents, NodeIn, SeedOk, BitBase;
    var a := EmptyLedger(base, n);
    NothingListed(n, a.heads, NodesIn(bytes, a), a.words);
    InitialOk(n);
  }

  /** Memory and ledger of an allocator that manages `n` frames from `base` on, all of them free. */
  function Opened(bytes: Bytes, base: nat, n: nat): Book
    requires n <= NIL && HasFrames(bytes, EmptyLedger(base, n))
  {
    EmptyThreaded(bytes, base, n);
    SeedFrom(Book(bytes, EmptyLedger(base, n)), 0)
  }

  predicate IsManaged(base: nat, n: nat, f: nat) {
    base <= f < base + n
  }

  function Managed(base: nat, n: nat): (r: set<nat>)
    ensures forall f: nat :: f in r <==> IsManaged(base, n, f)
  {
    set f: nat | f < base + n && IsManaged(base, n, f)
  }

  lemma OpenedKeeps(bytes: Bytes, base: nat, n: nat)
    requires n <= NIL && HasFrames(bytes, EmptyLedger(base, n))
    ensures var b := Opened(bytes, base, n);
            && InOrder(b) && b.ledger.base == base && b.ledger.n == n && FreeFrames(b.ledger) == Managed(base, n)
            && b.ledger.lists == Initial(n).lists && BytesWithin(bytes, b.bytes, Managed(base, n))
  {
    hide Threaded, Seeding, SeedFrom, Seed, StartsIn, ListsOk, BytesWithin, EmptyLists;
    EmptyThreaded(bytes, base, n);
    var a := EmptyLedger(base, n);
    StartsMore(a, {}, Managed(base, n));
    SeedThreaded(Book(bytes, a), 0, Managed(base, n));
    var b := Opened(bytes, base, n);
    Laws.InitialInv(n);
    InvLists(Initial(n));
    forall f: nat | base <= f < base + n ensures OnList(b.ledger, f) { FreeIffNotLive(Initial(n), f - base); }
  }

  // ---- sequences of calls ----------------------------------------------------------------------------------

  /** What happens to memory: the allocator hands out a block or gets one back, or somebody writes a frame. */
  datatype Call = Took(block: Block) | Gave(block: Block) | Wrote(frame: nat, page: Page)

  /** Only frames that are on no list are written by anybody but the allocator. */
  ghost predicate Possible(b: Book, c: Call) {
    match c
    case Took(block) => InOrder(b) && Take(b, block.order).Some? && Take(b, block.order).value.1 == block.start
    case Gave(block) => InOrder(b) && CanGive(b.ledger, block)
    case Wrote(f, _) => f in b.bytes && f !in FreeFrames(b.ledger)
  }

  ghost function Do(b: Book, c: Call): Book
    requires Possible(b, c)
  {
    match c
    case Took(block) => Take(b, block.order).value.0
    case Gave(block) => Give(b, block)
    case Wrote(f, page) => b.(bytes := b.bytes[f := page])
  }

  lemma DoKeeps(b: Book, c: Call)
    requires InOrder(b) && Possible(b, c)
    ensures InOrder(Do(b, c)) && Do(b, c).ledger.base == b.ledger.base && Do(b, c).ledger.n == b.ledger.n
    ensures Do(b, c).bytes.Keys == b.bytes.Keys
  {
    hide InOrder, Take, Give, CanGive, FreeFrames;
    match c
    case Took(block) => TakeKeeps(b, block.order);
    case Gave(block) => GiveKeeps(b, block);
    case Wrote(f, page) => WriteKeeps(b, f, page);
  }

  /** Whoever has a frame may write it. */
  lemma WriteKeeps(b: Book, f: nat, page: Page)
    requires InOrder(b) && f in b.bytes && f !in FreeFrames(b.ledger)
    ensures InOrder(b.(bytes := b.bytes[f := page]))
  {
    hide NodeIn, Represents, ListsOk, StartsIn, Starts;
    var a, after := b.ledger, b.bytes[f := page];
    FreeStarts(a);
    assert HasFrames(after, a);
    forall x: nat | x < a.n && Starts(a, x) ensures NodeIn(after[a.base + x]) == NodeIn(b.bytes[a.base + x]) {
      StartFree(a, x, FreeFrames(a));
    }
    ListsExact(b.bytes, after, a);
  }

  lemma StartFree(a: Ledger, x: nat, may: set<nat>)
    requires StartsIn(a, may) && Starts(a, x)
    ensures a.base + x in may
  {
  }

  /** Memory and ledger after the calls, if all of them are possible. */
  ghost function Play(b: Book, calls: seq<Call>): (r: Option<Book>)
    decreases |calls|
  {
    if calls == [] then Some(b)
    else
      var mid, last := Play(b, calls[..|calls| - 1]), calls[|calls| - 1];
      if mid.Some? && Possible(mid.value, last) then Some(Do(mid.value, last)) else None
  }

  lemma PlayOneMore(b: Book, calls: seq<Call>, c: Call)
    requires Play(b, calls).Some? && Possible(Play(b, calls).value, c)
    ensures Play(b, calls + [c]) == Some(Do(Play(b, calls).value, c))
  {
    hide Possible, Do;
    assert (calls + [c])[..|calls + [c]| - 1] == calls;
  }

  /** Whatever the calls are, the lists are in order afterwards. */
  lemma {:induction false} PlayKeeps(b: Book, calls: seq<Call>)
    requires InOrder(b) && Play(b, calls).Some?
    ensures var c := Play(b, calls).value;
            InOrder(c) && c.ledger.base == b.ledger.base && c.ledger.n == b.ledger.n && c.bytes.Keys == b.bytes.Keys
    decreases |calls|
  {
    hide InOrder, Possible, Do;
    if calls != [] {
      PlayKeeps(b, calls[..|calls| - 1]);
      DoKeeps(Play(b, calls[..|calls| - 1]).value, calls[|calls| - 1]);
    }
  }

  /** Calls one after the other. */
  lemma {:induction false} PlayOn(b: Book, calls: seq<Call>, more: seq<Call>)
    requires Play(b, calls).Some?
    ensures Play(b, calls + more) == Play(Play(b, calls).value, more)
    decreases |more|
  {
    hide Possible, Do;
    if more == [] {
      assert calls + more == calls;
    } else {
      var all := calls + more;
      assert all[..|all| - 1] == calls + more[..|more| - 1] && all[|all| - 1] == more[|more| - 1];
      PlayOn(b, calls, more[..|more| - 1]);
    }
  }

  /** A frame that was given back last and starts a block is first on its list. */
  lemma LastGivenFirst(b: Book, calls: seq<Call>, f: nat) returns (k: nat)
    requires InOrder(b) && Play(b, calls).Some? && calls != [] && calls[|calls| - 1] == Gave(Block(f, 0))
    requires Starts(Play(b, calls).value.ledger, f)
    ensures var a := Play(b, calls).value.ledger; k < |a.lists| && a.lists[k] != [] && a.lists[k][0] == f
  {
    hide InOrder, CanGive, Give, Starts;
    var before := calls[..|calls| - 1];
    assert Play(b, before).Some?;
    PlayKeeps(b, before);
    var mid, after := Play(b, before).value, Play(b, calls).value;
    assert after == Give(mid, Block(f, 0));
    GivenFirst(mid, f);
    k :| k <= MAX_ORDER && after.ledger.lists[k] != [] && after.ledger.lists[k][0] == f;
  }

  /** The frames on the lists after the calls, by what was handed out and given back. */
  ghost function FreeAfter(a: Ledger, free: set<nat>, calls: seq<Call>): set<nat>
    decreases |calls|
  {
    if calls == [] then free
    else
      var mid := FreeAfter(a, free, calls[..|calls| - 1]);
      match calls[|calls| - 1]
      case Took(block) => mid - BlockFrames(a, block)
      case Gave(block) => mid + BlockFrames(a, block)
      case Wrote(_, _) => mid
  }

  /** No frame is lost and none is handed out twice: the lists hold exactly what the calls say. */
  lemma {:induction false} PlayAccounts(b: Book, calls: seq<Call>)
    requires InOrder(b) && Play(b, calls).Some?
    ensures FreeFrames(Play(b, calls).value.ledger) == FreeAfter(b.ledger, FreeFrames(b.ledger), calls)
    decreases |calls|
  {
    hide InOrder, Possible, Do, FreeFrames, BlockFrames;
    if calls != [] {
      var before := calls[..|calls| - 1];
      PlayAccounts(b, before);
      PlayKeeps(b, before);
      DoAccounts(Play(b, before).value, calls[|calls| - 1]);
      SameBlockFrames(Play(b, before).value.ledger, b.ledger, calls[|calls| - 1]);
    }
  }

  lemma DoAccounts(b: Book, c: Call)
    requires InOrder(b) && Possible(b, c)
    ensures FreeFrames(Do(b, c).ledger) ==
            match c
            case Took(block) => FreeFrames(b.ledger) - BlockFrames(b.ledger, block)
            case Gave(block) => FreeFrames(b.ledger) + BlockFrames(b.ledger, block)
            case Wrote(_, _) => FreeFrames(b.ledger)
  {
    hide InOrder, Take, Give, CanGive, FreeFrames, BlockFrames;
    match c
    case Took(block) => TakeKeeps(b, block.order);
    case Gave(block) => GiveKeeps(b, block);
    case Wrote(_, _) =>
  }

  lemma SameBlockFrames(a: Ledger, c: Ledger, call: Call)
    requires a.base == c.base
    ensures call.Took? || call.Gave? ==> BlockFrames(a, call.block) == BlockFrames(c, call.block)
  {
  }

  // ---- taking a block whose node was overwritten -------------------------------------------------------------

  /** Memory after the first block of list `k` was overwritten. */
  function Damaged(b: Book, x: nat, page: Page): Book {
    b.(bytes := b.bytes[b.ledger.base + x := page])
  }

  /** The first block of a list has been overwritten and is then taken, if its links lead anywhere in memory. The lists
      can be read again afterwards if and only if its node is what it was. If not, either the block is first on the list
      again, and is handed out twice, or the list goes on wherever the node says. */
  lemma TakeExact(b: Book, k: nat, page: Page)
    requires Threaded(b.bytes, b.ledger) && k < |b.ledger.lists| && b.ledger.lists[k] != []
    ensures var x, node := b.ledger.lists[k][0], NodeIn(page);
            && b.ledger.base + x in b.bytes
            && (CanUnlink(Damaged(b, x, page), k, x) <==> LinksIn(b.bytes, b.ledger.base, node))
            && (LinksIn(b.bytes, b.ledger.base, node) ==>
                var r := Unlink(Damaged(b, x, page), k, x);
                && k < |r.ledger.heads| && r.ledger.heads[k] == (if node.prev == NIL then node.next else x)
                && (Threaded(r.bytes, r.ledger) <==> node == NodeIn(b.bytes[b.ledger.base + x])))
  {
    hide Represents, NodeIn, BitIndex, WriteNode, SetNode;
    ThreadedBits(b);
    HeadStarts(b, k);
    var a, x := b.ledger, b.ledger.lists[k][0];
    UnlinkBounds(b, k, x);
    SameLinks(b.bytes, a.base + x, page, a.base);
    if LinksIn(b.bytes, a.base, NodeIn(page)) {
      if NodeIn(page) == NodeIn(b.bytes[a.base + x]) {
        SameNodeThreaded(b, x, page);
        RemoveThreaded(Damaged(b, x, page), k, x);
      } else {
        NotTheRest(b, k, page);
      }
    }
  }

  lemma SameLinks(bytes: Bytes, f: nat, page: Page, base: nat)
    requires f in bytes
    ensures LinksIn(bytes[f := page], base, NodeIn(page)) <==> LinksIn(bytes, base, NodeIn(page))
  {
    hide NodeIn;
  }

  lemma SameNodeThreaded(b: Book, x: nat, page: Page)
    requires Threaded(b.bytes, b.ledger) && x < b.ledger.n && b.ledger.base + x in b.bytes
    requires NodeIn(page) == NodeIn(b.bytes[b.ledger.base + x])
    ensures Threaded(Damaged(b, x, page).bytes, b.ledger)
  {
    hide Represents, NodeIn;
    ListsExact(b.bytes, Damaged(b, x, page).bytes, b.ledger);
  }

  /** With another node, the head of the list is not what it should be. */
  lemma NotTheRest(b: Book, k: nat, page: Page)
    requires Threaded(b.bytes, b.ledger) && k < |b.ledger.lists| && b.ledger.lists[k] != []
    requires var x := b.ledger.lists[k][0];
             && CanUnlink(Damaged(b, x, page), k, x) && b.ledger.base + x in b.bytes
             && NodeIn(page) != NodeIn(b.bytes[b.ledger.base + x])
    ensures var r := Unlink(Damaged(b, b.ledger.lists[k][0], page), k, b.ledger.lists[k][0]);
            !Threaded(r.bytes, r.ledger)
  {
    hide Represents, NodeIn, BitIndex, SetNode, NodesIn;
    var a, x := b.ledger, b.ledger.lists[k][0];
    var r := Unlink(Damaged(b, x, page), k, x);
    ThreadedBits(b);
    ListsShape(a, NodesIn(b.bytes, a));
    Neighbours(NodesIn(b.bytes, a), a.heads[k], a.lists[k], 0);
    NodeOf(b.bytes, a, x);
    FirstRemoved(a.lists[k]);
    if Threaded(r.bytes, r.ledger) {
      HeadStarts(r, k);
      NotFirstAgain(a.lists[k]);
      assert false;
    }
  }

  lemma FirstRemoved(list: seq<nat>)
    requires Distinct(list) && list != []
    ensures Without(list, list[0]) == list[1..]
  {
    WithoutIsMiddleRemoval(list, 0);
    assert list[..0] + list[0 + 1..] == list[1..];
  }

  lemma NotFirstAgain(list: seq<nat>)
    requires Distinct(list) && list != [] && list[0] < NIL
    ensures At(list, 1) != list[0] && At(list[1..], 0) == At(list, 1)
  {
  }
}
