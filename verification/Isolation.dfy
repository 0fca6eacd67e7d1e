/** When spaces in one memory are isolated. Writes go through the tables as they are at that moment, so a page over a
    table gives away more than the frame it maps: whoever can write a table decides what it maps. */
module Isolation {
  import opened Prelude
  import opened Sv39
  import opened Memory
  import opened PageTables
  import opened Framed
  import opened UserMemory
  import opened Spaces
  import opened UserView

  // ---- taking over a table ----------------------------------------------------------------------

  function PointerTo(f: nat): Pte {
    Pte(f, NO_FLAGS.(valid := true))
  }

  /** A page whose entry `a` points back to the frame `f` it is meant for and whose entry `b` is `leaf`. Its last byte
      is `c`. */
  function TakeoverPage(f: nat, leaf: Pte, a: nat, b: nat, c: Byte): Page
    requires a < PTE_PER_TABLE - 1 && b < PTE_PER_TABLE - 1
  {
    StoreEntry(StoreEntry(Splice(ZeroPage(), PAGE_SIZE - 1, [c]), a, PointerTo(f)), b, leaf)
  }

  lemma TakeoverDecodes(f: nat, leaf: Pte, a: nat, b: nat, c: Byte)
    requires a < PTE_PER_TABLE - 1 && b < PTE_PER_TABLE - 1 && a != b && f < PPN_LIMIT && leaf.ppn < PPN_LIMIT
    ensures var page := TakeoverPage(f, leaf, a, b, c);
            Decode(page)[a] == PointerTo(f) && Decode(page)[b] == leaf && page[PAGE_SIZE - 1] == c
  {
    hide Decode, EntryBytes, Splice, ZeroPage;
    var base := Splice(ZeroPage(), PAGE_SIZE - 1, [c]);
    var mid := StoreEntry(base, a, PointerTo(f));
    StoreDecodes(base, a, PointerTo(f));
    StoreDecodes(mid, b, leaf);
    assert PTE_SIZE * a + PTE_SIZE <= PAGE_SIZE - 1 && PTE_SIZE * b + PTE_SIZE <= PAGE_SIZE - 1;
    assert base[PAGE_SIZE - 1] == c && mid[PAGE_SIZE - 1] == c;
  }

  /** The page with these three indices. */
  function PageWith(i: nat, j: nat, k: nat): nat {
    (if i < UPPER_HALF then i else 0x3_ffff_fe00 + i) * 0x4_0000 + j * 512 + k
  }

  lemma PageWithIndices(i: nat, j: nat, k: nat)
    requires i < PTE_PER_TABLE && j < PTE_PER_TABLE && k < PTE_PER_TABLE
    ensures var v := PageWith(i, j, k);
            && Canonical(v) && Index(v, 0) == i && Index(v, 1) == j && Index(v, 2) == k
            && (i < UPPER_HALF ==> UserPage(v))
  {
    var q := if i < UPPER_HALF then i else 0x3_ffff_fe00 + i;
    ThreeDigits(q, j, k);
  }

  lemma ThreeDigits(q: nat, j: nat, k: nat)
    requires j < 512 && k < 512
    ensures var v := q * 0x4_0000 + j * 512 + k; v / 512 / 512 == q && v / 512 % 512 == j && v % 512 == k
  {
    var v := q * 0x4_0000 + j * 512 + k;
    assert v == (q * 512 + j) * 512 + k;
    assert v / 512 == q * 512 + j;
  }

  /** A page below the table at position `p`, by way of entries `a` and `b` of that table. */
  function PageUnder(p: Path, a: nat, b: nat): nat {
    match p
    case Root => PageWith(a, a, b)
    case Mid(i) => PageWith(i, a, b)
    case Low(i, j) => PageWith(i, j, b)
  }

  /** Wherever in the tree a table is, once it holds such a page one page below it maps whatever `leaf` says. */
  lemma Takeover(s: Snapshot, p: Path, a: nat, b: nat, leaf: Pte, tables: Tables)
    requires SnapOk(s) && p in s.node && a < PTE_PER_TABLE && b < PTE_PER_TABLE && a != b
    requires TablesWithin(s.tables, tables, {s.node[p]}) && s.node[p] in tables
    requires tables[s.node[p]][a] == PointerTo(s.node[p]) && tables[s.node[p]][b] == leaf && leaf.IsLeaf()
    ensures var u := PageUnder(p, a, b);
            && Canonical(u) && Translate(tables, s.root, u) == Some(leaf)
            && HwWalk(tables, s.root, u) == HwLeaf(leaf, u, 2)
            && (a < UPPER_HALF && s.lim <= UPPER_HALF ==> UserPage(u))
  {
    var u := PageUnder(p, a, b);
    PathBounds(s, p);
    match p {
      case Root => PageWithIndices(a, a, b);
      case Mid(i) => PageWithIndices(i, a, b);
      case Low(i, j) => PageWithIndices(i, j, b);
    }
    WayThere(s, p, tables);
    EntriesUnder(tables, s.root, s.node[p], p, a, b, leaf, u);
    HwByEntries(tables, s.root, u);
    SlotByEntries(tables, s.root, u);
  }

  lemma PathBounds(s: Snapshot, p: Path)
    requires SnapOk(s) && p in s.node
    ensures p.Mid? ==> p.i < PTE_PER_TABLE && p.i < s.lim
    ensures p.Low? ==> p.i < PTE_PER_TABLE && p.i < s.lim && p.j < PTE_PER_TABLE
  {
  }

  /** The tables above position `p` still lead to it. */
  ghost predicate LeadsTo(tables: Tables, root: nat, p: Path, f: nat) {
    match p
    case Root => root == f && f in tables
    case Mid(i) => i < PTE_PER_TABLE && root in tables && tables[root][i].IsPointer() && tables[root][i].ppn == f
        && f in tables
    case Low(i, j) =>
      && i < PTE_PER_TABLE && j < PTE_PER_TABLE && root in tables && tables[root][i].IsPointer()
      && tables[root][i].ppn in tables
      && tables[tables[root][i].ppn][j].IsPointer() && tables[tables[root][i].ppn][j].ppn == f && f in tables
  }

  lemma WayThere(s: Snapshot, p: Path, tables: Tables)
    requires SnapOk(s) && p in s.node && TablesWithin(s.tables, tables, {s.node[p]})
    ensures LeadsTo(tables, s.root, p, s.node[p])
  {
    match p {
      case Root =>
      case Mid(i) => assert EdgeOk(s.tables[s.node[Root]][i], s.node, Mid(i));
      case Low(i, j) =>
        assert EdgeOk(s.tables[s.node[Root]][i], s.node, Mid(i));
        assert EdgeOk(s.tables[s.node[Mid(i)]][j], s.node, Low(i, j));
    }
  }

  lemma EntriesUnder(tables: Tables, root: nat, f: nat, p: Path, a: nat, b: nat, leaf: Pte, u: nat)
    requires LeadsTo(tables, root, p, f) && a < PTE_PER_TABLE && b < PTE_PER_TABLE
    requires tables[f][a] == PointerTo(f) && tables[f][b] == leaf && Index(u, 2) == b
    requires Index(u, 0) == (if p.Root? then a else p.i) && Index(u, 1) == (if p.Low? then p.j else a)
    ensures EntryAt(tables, root, u, 0).Some? && EntryAt(tables, root, u, 0).value.IsPointer()
    ensures EntryAt(tables, root, u, 1).Some? && EntryAt(tables, root, u, 1).value.IsPointer()
    ensures EntryAt(tables, root, u, 2) == Some(leaf)
  {
    hide Index;
    assert PointerTo(f).IsPointer();
  }

  // ---- spaces in one memory ------------------------------------------------------------------------

  /** A space that shares the memory and the kernel half of `k`. */
  ghost predicate Shares(s: Snapshot, k: Snapshot) {
    && s.tables == k.tables && s.bytes == k.bytes && s.free == k.free && s.bytes.Keys == s.tables.Keys
    && SnapOk(s) && NoSupers(s) && s.lim == UPPER_HALF && s.shared == k.node.Values
    && Backed(s.bytes, UserPages(s.tables, s.root))
  }

  ghost predicate Together(ss: seq<Snapshot>, k: Snapshot) {
    && SnapOk(k) && k.lim == PTE_PER_TABLE && k.shared == {} && k.tables == Decoded(k.bytes)
    && (forall f | f in k.bytes :: f < PPN_LIMIT)
    && (forall i | 0 <= i < |ss| :: Shares(ss[i], k))
  }

  function Roots(ss: seq<Snapshot>): (r: seq<nat>)
    ensures |r| == |ss| && forall i | 0 <= i < |ss| :: r[i] == ss[i].root
  {
    seq(|ss|, i requires 0 <= i < |ss| => ss[i].root)
  }

  ghost function PagesOf(ss: seq<Snapshot>): (r: seq<PageMap>)
    ensures |r| == |ss| && forall i | 0 <= i < |ss| :: r[i] == UserPages(ss[i].tables, ss[i].root)
  {
    seq(|ss|, i requires 0 <= i < |ss| => UserPages(ss[i].tables, ss[i].root))
  }

  predicate ByThem(writes: seq<Write>, n: nat) {
    forall w | w in writes :: w.who < n
  }

  /** Memory after the writes, each through the tables as they are when its turn comes. */
  function RunThrough(bytes: Bytes, roots: seq<nat>, writes: seq<Write>): (r: Bytes)
    requires ByThem(writes, |roots|)
    ensures r.Keys == bytes.Keys
    decreases |writes|
  {
    if writes == [] then bytes
    else RunThrough(CopyThrough(bytes, roots[writes[0].who], writes[0].addr, writes[0].src).0, roots, writes[1..])
  }

  /** What the kernel finds at `x` for the space with this root. */
  function Sees(bytes: Bytes, root: nat, x: nat): Option<Byte> {
    Load(bytes, UserPages(Decoded(bytes), root), x)
  }

  /** Two memories that look the same to a space, to the kernel on its behalf and to its user-mode code. */
  ghost predicate SameSight(a: Bytes, b: Bytes, root: nat) {
    && (forall x: nat :: Sees(a, root, x) == Sees(b, root, x))
    && (forall x: nat | x < USER_MAX_ADDR :: UserReads(Decoded(a), a, root, x) == UserReads(Decoded(b), b, root, x))
  }

  /** Two memories in which the kernel's table translates alike, and so do the kernel halves of the spaces. */
  ghost predicate SameKernel(a: Bytes, b: Bytes, kernel: nat, roots: seq<nat>) {
    && (forall v :: HwWalk(Decoded(a), kernel, v) == HwWalk(Decoded(b), kernel, v))
    && (forall j, v: nat | 0 <= j < |roots| && Index(v, 0) >= UPPER_HALF ::
          HwWalk(Decoded(a), roots[j], v) == HwWalk(Decoded(b), roots[j], v))
  }

  /** After these writes every space sees what it would see after its own, and kernel pages are where they were. */
  ghost predicate Undisturbed(bytes: Bytes, roots: seq<nat>, kernel: nat, writes: seq<Write>)
    requires ByThem(writes, |roots|)
  {
    var after := RunThrough(bytes, roots, writes);
    && SameKernel(after, bytes, kernel, roots)
    && (forall j | 0 <= j < |roots| :: SameSight(after, RunThrough(bytes, roots, Own(writes, j)), roots[j]))
  }

  ghost predicate Isolated(ss: seq<Snapshot>, k: Snapshot) {
    forall writes | ByThem(writes, |ss|) :: Undisturbed(k.bytes, Roots(ss), k.root, writes)
  }

  /** No frame that a space can write is a table, its own, another's or the kernel's, or seen by another space. */
  ghost predicate KeptApart(ss: seq<Snapshot>, k: Snapshot) {
    forall i | 0 <= i < |ss| :: Keeps(ss, k, i, WritableFrames(UserPages(ss[i].tables, ss[i].root)))
  }

  ghost predicate Keeps(ss: seq<Snapshot>, k: Snapshot, i: nat, mine: set<nat>)
    requires i < |ss|
  {
    && mine !! k.node.Values && mine !! ss[i].node.Values
    && (forall j | 0 <= j < |ss| && j != i ::
        mine !! ss[j].node.Values && mine !! FramesOf(UserPages(ss[j].tables, ss[j].root)))
  }

  // ---- kept apart, they are isolated -----------------------------------------------------------------

  /** Everything the spaces can write. */
  ghost function Written(ss: seq<Snapshot>): (r: set<nat>)
    ensures forall i | 0 <= i < |ss| :: WritableFrames(UserPages(ss[i].tables, ss[i].root)) <= r
    ensures forall f | f in r :: exists i :: 0 <= i < |ss| && f in WritableFrames(UserPages(ss[i].tables, ss[i].root))
  {
    set i, f | 0 <= i < |ss| && f in WritableFrames(UserPages(ss[i].tables, ss[i].root)) :: f
  }

  lemma WrittenOff(ss: seq<Snapshot>, k: Snapshot)
    requires KeptApart(ss, k)
    ensures Written(ss) !! k.node.Values && forall j | 0 <= j < |ss| :: Written(ss) !! ss[j].node.Values
  {
    hide WritableFrames, UserPages, FramesOf;
    forall f | f in Written(ss) ensures f !in k.node.Values && forall j | 0 <= j < |ss| :: f !in ss[j].node.Values {
      var i :| 0 <= i < |ss| && f in WritableFrames(UserPages(ss[i].tables, ss[i].root));
      assert Keeps(ss, k, i, WritableFrames(UserPages(ss[i].tables, ss[i].root)));
    }
  }

  /** After writes off all tables a space maps what it did. */
  lemma StillMaps(s: Snapshot, k: Snapshot, b: Bytes, may: set<nat>)
    requires Shares(s, k) && k.tables == Decoded(k.bytes)
    requires BytesWithin(k.bytes, b, may) && may !! s.node.Values && may !! k.node.Values
    ensures UserPages(Decoded(b), s.root) == UserPages(s.tables, s.root) && SameViews(s.tables, Decoded(b), s.root)
    ensures NoSupers(s.(tables := Decoded(b), bytes := b))
  {
    hide Decoded, TableOk, UserPages, NoLeafAbove, HwWalk, Translate, Backed;
    DecodedWithin(k.bytes, b, may);
    var s' := s.(tables := Decoded(b), bytes := b);
    FreeApart(s);
    OtherTable(s, s');
    SupersKept(s, s');
    SameMaps(s.tables, Decoded(b), s.root);
  }

  lemma SameMaps(a: Tables, b: Tables, root: nat)
    requires SameViews(a, b, root)
    ensures UserPages(b, root) == UserPages(a, root)
  {
    hide HwWalk, Translate;
    assert UserPages(b, root) == UserPages(a, root);
  }

  lemma StaysStable(s: Snapshot, k: Snapshot, b: Bytes, may: set<nat>)
    requires Shares(s, k) && k.tables == Decoded(k.bytes)
    requires BytesWithin(k.bytes, b, may) && may !! s.node.Values && may !! k.node.Values
    requires WritableFrames(UserPages(s.tables, s.root)) <= may
    ensures Stable(b, s.root, UserPages(s.tables, s.root))
  {
    hide Shares, UserPages, Decoded, WritableFrames;
    var pages := UserPages(s.tables, s.root);
    forall b': Bytes | BytesWithin(b, b', WritableFrames(pages)) ensures UserPages(Decoded(b'), s.root) == pages {
      StillMaps(s, k, b', may);
    }
  }

  /** So the writes are the simple ones, over the pages found first. */
  lemma {:induction false} ThroughIsSimple(ss: seq<Snapshot>, k: Snapshot, b: Bytes, writes: seq<Write>)
    requires Together(ss, k) && KeptApart(ss, k) && ByThem(writes, |ss|) && BytesWithin(k.bytes, b, Written(ss))
    ensures RunThrough(b, Roots(ss), writes) == RunWrites(b, PagesOf(ss), writes)
    ensures BytesWithin(k.bytes, RunThrough(b, Roots(ss), writes), Written(ss))
    decreases |writes|
  {
    hide Shares, Decoded, UserPages, CopyThrough, CopyTo, WritableFrames, KeptApart, SnapOk;
    if writes != [] {
      var w := writes[0];
      var s := ss[w.who];
      var pages := UserPages(s.tables, s.root);
      WrittenOff(ss, k);
      assert Shares(s, k);
      StaysStable(s, k, b, Written(ss));
      SameBytes(b, WritableFrames(pages));
      CopyThroughStable(b, b, s.root, pages, w.addr, w.src);
      CopyToFrames(b, pages, w.addr, w.src);
      ThroughIsSimple(ss, k, CopyTo(b, pages, w.addr, w.src).0, writes[1..]);
    }
  }

  lemma OwnByThem(writes: seq<Write>, n: nat, j: nat)
    requires ByThem(writes, n)
    ensures ByThem(Own(writes, j), n)
  {
  }

  lemma PagesApart(ss: seq<Snapshot>, k: Snapshot)
    requires KeptApart(ss, k)
    ensures FramesApart(PagesOf(ss))
  {
    hide WritableFrames, UserPages, FramesOf;
    forall i, j | 0 <= i < |ss| && 0 <= j < |ss| && i != j
      ensures WritableFrames(PagesOf(ss)[i]) !! FramesOf(PagesOf(ss)[j])
    {
      assert Keeps(ss, k, i, WritableFrames(UserPages(ss[i].tables, ss[i].root)));
    }
  }

  /** Two memories with the tables of `s` as they were and the same bytes in the frames it sees. */
  lemma SameForSight(s: Snapshot, k: Snapshot, a: Bytes, b: Bytes, may: set<nat>)
    requires Shares(s, k) && k.tables == Decoded(k.bytes) && may !! s.node.Values && may !! k.node.Values
    requires BytesWithin(k.bytes, a, may) && BytesWithin(k.bytes, b, may) && SameFor(a, b, UserPages(s.tables, s.root))
    ensures SameSight(a, b, s.root)
  {
    hide Decoded, UserPages, TableOk, NoSupers, UserReads, UserWrites;
    StillMaps(s, k, a, may);
    StillMaps(s, k, b, may);
    var pages := UserPages(s.tables, s.root);
    forall x: nat ensures Load(a, pages, x) == Load(b, pages, x) {
      if PageOf(x) in pages { assert pages[PageOf(x)].ppn in FramesOf(pages); }
    }
    forall x: nat | x < USER_MAX_ADDR
      ensures UserReads(Decoded(a), a, s.root, x) == UserReads(Decoded(b), b, s.root, x)
    {
      UserAccess(s.(tables := Decoded(a), bytes := a), a, x);
      UserAccess(s.(tables := Decoded(b), bytes := b), b, x);
    }
  }

  lemma KernelStays(ss: seq<Snapshot>, k: Snapshot, b: Bytes)
    requires Together(ss, k) && KeptApart(ss, k) && BytesWithin(k.bytes, b, Written(ss))
    ensures SameKernel(b, k.bytes, k.root, Roots(ss))
  {
    hide Decoded, TableOk, NoSupers, HwWalk, Translate, UserPages, Backed, WritableFrames, KeptApart, Index;
    WrittenOff(ss, k);
    DecodedWithin(k.bytes, b, Written(ss));
    FreeApart(k);
    OtherTable(k, k.(tables := Decoded(b), bytes := b));
    forall j, v: nat | 0 <= j < |ss| && Index(v, 0) >= UPPER_HALF
      ensures HwWalk(Decoded(b), ss[j].root, v) == HwWalk(Decoded(k.bytes), ss[j].root, v)
    {
      assert Shares(ss[j], k);
      StillMaps(ss[j], k, b, Written(ss));
    }
  }

  lemma KeptApartIsolates(ss: seq<Snapshot>, k: Snapshot, writes: seq<Write>)
    requires Together(ss, k) && KeptApart(ss, k) && ByThem(writes, |ss|)
    ensures Undisturbed(k.bytes, Roots(ss), k.root, writes)
  {
    hide Shares, Decoded, UserPages, CopyThrough, CopyTo, WritableFrames, KeptApart, SnapOk, SameSight, SameKernel,
         RunThrough, RunWrites, SameFor, Own;
    SameBytes(k.bytes, Written(ss));
    ThroughIsSimple(ss, k, k.bytes, writes);
    var after := RunThrough(k.bytes, Roots(ss), writes);
    KernelStays(ss, k, after);
    WrittenOff(ss, k);
    PagesApart(ss, k);
    forall j | 0 <= j < |ss| ensures ByThem(Own(writes, j), |ss|)
                             ensures SameSight(after, RunThrough(k.bytes, Roots(ss), Own(writes, j)), Roots(ss)[j])
    {
      OwnByThem(writes, |ss|, j);
      ThroughIsSimple(ss, k, k.bytes, Own(writes, j));
      SameForRefl(k.bytes, PagesOf(ss)[j]);
      UserMemory.Isolation(k.bytes, k.bytes, PagesOf(ss), writes, j);
      assert Shares(ss[j], k);
      SameForSight(ss[j], k, after, RunThrough(k.bytes, Roots(ss), Own(writes, j)), Written(ss));
    }
  }

  lemma SameForRefl(b: Bytes, pages: PageMap)
    ensures SameFor(b, b, pages)
  {
  }

  // ---- not kept apart, they are not -------------------------------------------------------------------

  /** Space `i` can write frame `f`, through page `v`. */
  ghost predicate CanWriteFrame(ss: seq<Snapshot>, i: nat, v: nat, f: nat) {
    && i < |ss| && UserPage(v)
    && (var pages := UserPages(ss[i].tables, ss[i].root); v in pages && KernelWrites(pages[v]) && pages[v].ppn == f)
  }

  lemma OneWrite(ss: seq<Snapshot>, k: Snapshot, i: nat, v: nat, f: nat, page: Page)
    requires Together(ss, k) && CanWriteFrame(ss, i, v, f)
    ensures ByThem([Write(i, v * PAGE_SIZE, page)], |ss|) && f in k.bytes && f < PPN_LIMIT
    ensures RunThrough(k.bytes, Roots(ss), [Write(i, v * PAGE_SIZE, page)]) == k.bytes[f := page]
  {
    hide CopyThrough, Decoded, UserPages, SnapOk, NoSupers;
    assert Shares(ss[i], k);
    CopyPage(k.bytes, ss[i].root, v, page);
    var writes := [Write(i, v * PAGE_SIZE, page)];
    assert writes[1..] == [];
  }

  /** It takes one space that sees another byte than after its own writes, or a kernel page that moved. */
  lemma SightBroken(ss: seq<Snapshot>, k: Snapshot, writes: seq<Write>, j: nat, x: nat)
    requires ByThem(writes, |ss|) && j < |ss| && Own(writes, j) == []
    requires Sees(RunThrough(k.bytes, Roots(ss), writes), ss[j].root, x) != Sees(k.bytes, ss[j].root, x)
    ensures !Isolated(ss, k)
  {
    hide Sees, RunThrough, SameKernel, UserReads, Own;
    var after, own := RunThrough(k.bytes, Roots(ss), writes), RunThrough(k.bytes, Roots(ss), Own(writes, j));
    NoWrites(k.bytes, Roots(ss), Own(writes, j));
    assert !SameSight(after, own, Roots(ss)[j]);
    assert !Undisturbed(k.bytes, Roots(ss), k.root, writes);
  }

  lemma NoWrites(bytes: Bytes, roots: seq<nat>, writes: seq<Write>)
    requires writes == []
    ensures RunThrough(bytes, roots, writes) == bytes
  {
  }

  lemma KernelBroken(ss: seq<Snapshot>, k: Snapshot, writes: seq<Write>, v: nat)
    requires ByThem(writes, |ss|)
    requires HwWalk(Decoded(RunThrough(k.bytes, Roots(ss), writes)), k.root, v) != HwWalk(Decoded(k.bytes), k.root, v)
    ensures !Isolated(ss, k)
  {
    hide RunThrough, SameSight, HwWalk, Decoded;
    assert !SameKernel(RunThrough(k.bytes, Roots(ss), writes), k.bytes, k.root, Roots(ss));
    assert !Undisturbed(k.bytes, Roots(ss), k.root, writes);
  }

  const OPEN: Flags := Present(USER_RW)

  lemma FrameFilled(bytes: Bytes, f: nat, page: Page)
    requires f in bytes
    ensures TablesWithin(Decoded(bytes), Decoded(bytes[f := page]), {f}) && Decoded(bytes[f := page])[f] == Decode(page)
  {
    hide Decode;
    DecodedUpdate(bytes, f, page);
  }

  /** A byte that differs from what is there. */
  function Other(b: Option<Byte>): (c: Byte)
    ensures Some(c) != b
  {
    if b == Some(0) then 1 else 0
  }

  /** A table of the space with this snapshot was replaced by a takeover page that maps its own frame: the space then
      sees the page's last byte. */
  lemma SeesTakeover(s: Snapshot, p: Path, bytes: Bytes, c: Byte)
    requires SnapOk(s) && s.lim == UPPER_HALF && p in s.node && s.tables == Decoded(s.bytes)
    requires var f := s.node[p];
             f in s.bytes && f < PPN_LIMIT && bytes == s.bytes[f := TakeoverPage(f, Pte(f, OPEN), 0, 1, c)]
    ensures Sees(bytes, s.root, PageUnder(p, 0, 1) * PAGE_SIZE + PAGE_SIZE - 1) == Some(c)
  {
    hide *;
    SmallEntries();
    var f, leaf, u := s.node[p], Pte(s.node[p], OPEN), PageUnder(p, 0, 1);
    var page := TakeoverPage(f, leaf, 0, 1, c);
    TakeoverDecodes(f, leaf, 0, 1, c);
    FrameFilled(s.bytes, f, page);
    Takeover(s, p, 0, 1, leaf, Decoded(bytes));
    LastByteSeen(bytes, s.root, u, leaf, c);
  }

  lemma SmallEntries()
    ensures 1 < PTE_PER_TABLE - 1 && 1 < UPPER_HALF && PAGE_SIZE == 4096
    ensures forall f :: Pte(f, OPEN).IsLeaf() && KernelWrites(Pte(f, OPEN))
  {
  }

  lemma LastByteSeen(bytes: Bytes, root: nat, u: nat, leaf: Pte, c: Byte)
    requires UserPage(u) && Translate(Decoded(bytes), root, u) == Some(leaf) && leaf.ppn in bytes
    requires bytes[leaf.ppn][PAGE_SIZE - 1] == c
    ensures Sees(bytes, root, u * PAGE_SIZE + PAGE_SIZE - 1) == Some(c)
  {
    hide Decoded, Translate, UserPages;
    PageFound(Decoded(bytes), root, u);
    LastByte(u);
  }

  lemma LastByte(u: nat)
    ensures PageOf(u * PAGE_SIZE + PAGE_SIZE - 1) == u && OffsetOf(u * PAGE_SIZE + PAGE_SIZE - 1) == PAGE_SIZE - 1
  {
  }

  lemma OwnOf(i: nat, j: nat, addr: nat, src: seq<Byte>)
    requires i != j
    ensures Own([Write(i, addr, src)], j) == []
  {
    var writes := [Write(i, addr, src)];
    assert writes[1..] == [];
  }

  /** A table of another space is within reach. */
  lemma OthersTable(ss: seq<Snapshot>, k: Snapshot, i: nat, v: nat, f: nat, j: nat, p: Path)
    requires Together(ss, k) && CanWriteFrame(ss, i, v, f) && j < |ss| && j != i && p in ss[j].node
    requires ss[j].node[p] == f
    ensures !Isolated(ss, k)
  {
    hide CanWriteFrame, Isolated, Sees, Decoded, TakeoverPage, RunThrough, SnapOk, NoSupers, Backed, UserPages, Own;
    var s, x := ss[j], PageUnder(p, 0, 1) * PAGE_SIZE + PAGE_SIZE - 1;
    assert Shares(s, k);
    var c := Other(Sees(k.bytes, s.root, x));
    var page := TakeoverPage(f, Pte(f, OPEN), 0, 1, c);
    OneWrite(ss, k, i, v, f, page);
    OwnOf(i, j, v * PAGE_SIZE, page);
    SeesTakeover(s, p, k.bytes[f := page], c);
    SightBroken(ss, k, [Write(i, v * PAGE_SIZE, page)], j, x);
  }

  /** A table of its own is within reach: with it, the space can reach the root of any other. */
  lemma OwnTable(ss: seq<Snapshot>, k: Snapshot, i: nat, v: nat, f: nat, p: Path, j: nat)
    requires Together(ss, k) && i < |ss| && CanWriteFrame(ss, i, v, f) && p in ss[i].node && ss[i].node[p] == f
    requires j < |ss| && j != i
    requires f !in ss[j].node.Values
    ensures !Isolated(ss, k)
  {
    hide CanWriteFrame, Isolated, Sees, Decoded, TakeoverPage, RunThrough, SnapOk, NoSupers, Backed, UserPages, Own,
         PageUnder, CopyThrough;
    var s, t := ss[i], ss[j];
    assert Shares(s, k) && Shares(t, k);
    RootFacts(t);
    RootIsOwned(t);
    var x := Target();
    var c := Other(Sees(k.bytes, t.root, x));
    var first, second := TakeoverPage(f, Pte(t.root, OPEN), 0, 1, 0), TakeoverPage(t.root, Pte(t.root, OPEN), 0, 1, c);
    var u := PageUnder(p, 0, 1);
    var writes := [Write(i, v * PAGE_SIZE, first), Write(i, u * PAGE_SIZE, second)];
    OneWrite(ss, k, i, v, f, first);
    var mid := k.bytes[f := first];
    CanReach(s, p, mid, t.root);
    CopyPage(mid, s.root, u, second);
    TwoWrites(k.bytes, Roots(ss), i, v, first, u, second, mid, mid[t.root := second]);
    OwnOfTwo(writes, i, j);
    RootTaken(mid, t.root, c);
    SightBroken(ss, k, writes, j, x);
  }

  /** A table of the space was replaced by a takeover page for frame `g`: the space can write `g`. */
  lemma CanReach(s: Snapshot, p: Path, bytes: Bytes, g: nat)
    requires SnapOk(s) && s.lim == UPPER_HALF && p in s.node && s.tables == Decoded(s.bytes) && g < PPN_LIMIT
    requires var f := s.node[p];
             f in s.bytes && f < PPN_LIMIT && bytes == s.bytes[f := TakeoverPage(f, Pte(g, OPEN), 0, 1, 0)]
    ensures var u, pages := PageUnder(p, 0, 1), UserPages(Decoded(bytes), s.root);
            UserPage(u) && u in pages && pages[u] == Pte(g, OPEN) && KernelWrites(pages[u])
  {
    var f, leaf, u := s.node[p], Pte(g, OPEN), PageUnder(p, 0, 1);
    var page := TakeoverPage(f, leaf, 0, 1, 0);
    hide TakeoverPage, Decoded, Decode, SnapOk, UserPages, Translate, HwWalk, PageUnder;
    TakeoverDecodes(f, leaf, 0, 1, 0);
    FrameFilled(s.bytes, f, page);
    Takeover(s, p, 0, 1, leaf, Decoded(bytes));
    PageFound(Decoded(bytes), s.root, u);
  }

  lemma TwoWrites(bytes: Bytes, roots: seq<nat>, i: nat, v: nat, first: Page, u: nat, second: Page, mid: Bytes,
                  end: Bytes)
    requires i < |roots| && RunThrough(bytes, roots, [Write(i, v * PAGE_SIZE, first)]) == mid
    requires CopyThrough(mid, roots[i], u * PAGE_SIZE, second) == (end, true)
    ensures RunThrough(bytes, roots, [Write(i, v * PAGE_SIZE, first), Write(i, u * PAGE_SIZE, second)]) == end
  {
    hide CopyThrough;
    var one, both :=
        [Write(i, v * PAGE_SIZE, first)], [Write(i, v * PAGE_SIZE, first), Write(i, u * PAGE_SIZE, second)];
    assert one[1..] == [] && both[1..] == [Write(i, u * PAGE_SIZE, second)] && both[1..][1..] == [];
    assert RunThrough(mid, roots, both[1..]) == end;
  }

  lemma OwnOfTwo(writes: seq<Write>, i: nat, j: nat)
    requires |writes| == 2 && writes[0].who == i && writes[1].who == i && i != j
    ensures Own(writes, j) == []
  {
    assert writes[1..][1..] == [];
    assert Own(writes[1..], j) == [];
  }

  /** A root replaced by a takeover page decides what a page under it maps, in either half. */
  lemma RootTakeover(bytes: Bytes, root: nat, leaf: Pte, a: nat, b: nat, c: Byte)
    requires root in bytes && root < PPN_LIMIT && leaf.ppn < PPN_LIMIT && leaf.IsLeaf()
    requires a < PTE_PER_TABLE - 1 && b < PTE_PER_TABLE - 1 && a != b
    ensures var tables, u := Decoded(bytes[root := TakeoverPage(root, leaf, a, b, c)]), PageUnder(Root, a, b);
            && Canonical(u) && Index(u, 0) == a && (a < UPPER_HALF ==> UserPage(u))
            && Translate(tables, root, u) == Some(leaf) && HwWalk(tables, root, u) == HwLeaf(leaf, u, 2)
  {
    hide *;
    TakeoverDecodes(root, leaf, a, b, c);
    FrameFilled(bytes, root, TakeoverPage(root, leaf, a, b, c));
    AtRoot(Decoded(bytes[root := TakeoverPage(root, leaf, a, b, c)]), root, leaf, a, b);
  }

  lemma AtRoot(tables: Tables, root: nat, leaf: Pte, a: nat, b: nat)
    requires root in tables && a < PTE_PER_TABLE && b < PTE_PER_TABLE
    requires tables[root][a] == PointerTo(root) && tables[root][b] == leaf && leaf.IsLeaf()
    ensures var u := PageUnder(Root, a, b);
            && Canonical(u) && Index(u, 0) == a && (a < UPPER_HALF ==> UserPage(u))
            && Translate(tables, root, u) == Some(leaf) && HwWalk(tables, root, u) == HwLeaf(leaf, u, 2)
  {
    var u := PageUnder(Root, a, b);
    PageWithIndices(a, a, b);
    hide Translate, HwWalk, Canonical, UserPage, Index, PageWith;
    EntriesUnder(tables, root, root, Root, a, b, leaf, u);
    SlotByEntries(tables, root, u);
    HwByEntries(tables, root, u);
  }

  /** An address under such a root, in the page that maps the root's own frame. */
  function Target(): (x: nat)
    ensures x < USER_MAX_ADDR
  {
    PageUnder(Root, 0, 1) * PAGE_SIZE + PAGE_SIZE - 1
  }

  /** If it maps itself, the kernel and the process read the page's last byte there. */
  lemma RootTaken(bytes: Bytes, root: nat, c: Byte)
    requires root in bytes && root < PPN_LIMIT
    ensures var after := bytes[root := TakeoverPage(root, Pte(root, OPEN), 0, 1, c)];
            Sees(after, root, Target()) == Some(c) && UserReads(Decoded(after), after, root, Target()) == Some(c)
  {
    hide TakeoverPage, Decoded, Decode, UserPages, Translate, HwWalk;
    var page, u := TakeoverPage(root, Pte(root, OPEN), 0, 1, c), PageUnder(Root, 0, 1);
    TakeoverDecodes(root, Pte(root, OPEN), 0, 1, c);
    RootTakeover(bytes, root, Pte(root, OPEN), 0, 1, c);
    LastByteSeen(bytes[root := page], root, u, Pte(root, OPEN), c);
    LastByte(u);
  }

  /** A table of the kernel is within reach. */
  lemma KernelTable(ss: seq<Snapshot>, k: Snapshot, i: nat, v: nat, f: nat, p: Path)
    requires Together(ss, k) && CanWriteFrame(ss, i, v, f) && p in k.node && k.node[p] == f
    ensures !Isolated(ss, k)
  {
    hide CanWriteFrame, Isolated, Decoded, Decode, TakeoverPage, RunThrough, SnapOk, UserPages, HwWalk, PageUnder,
         Translate, Shares, NoSupers, Backed;
    var u := PageUnder(p, 0, 1);
    var flags := if HwWalk(Decoded(k.bytes), k.root, u) == Some(Mapping(f, OPEN)) then OPEN.(exec := true) else OPEN;
    var page := TakeoverPage(f, Pte(f, flags), 0, 1, 0);
    OneWrite(ss, k, i, v, f, page);
    TakeoverDecodes(f, Pte(f, flags), 0, 1, 0);
    FrameFilled(k.bytes, f, page);
    Takeover(k, p, 0, 1, Pte(f, flags), Decoded(k.bytes[f := page]));
    KernelBroken(ss, k, [Write(i, v * PAGE_SIZE, page)], u);
  }

  /** A frame that another space sees is within reach, and it is no table. */
  lemma OthersFrame(ss: seq<Snapshot>, k: Snapshot, i: nat, v: nat, f: nat, j: nat, w: nat)
    requires Together(ss, k) && CanWriteFrame(ss, i, v, f) && j < |ss| && j != i
    requires f !in ss[j].node.Values && f !in k.node.Values
    requires var pages := UserPages(ss[j].tables, ss[j].root); w in pages && pages[w].ppn == f
    ensures !Isolated(ss, k)
  {
    hide CanWriteFrame, Isolated, Decoded, RunThrough, UserPages, Own, SnapOk, NoSupers, Backed;
    var s := ss[j];
    assert Shares(s, k);
    var x := w * PAGE_SIZE;
    assert PageOf(x) == w && OffsetOf(x) == 0;
    var page := Splice(ZeroPage(), 0, [Other(Sees(k.bytes, s.root, x))]);
    OneWrite(ss, k, i, v, f, page);
    OwnOf(i, j, v * PAGE_SIZE, page);
    StillMaps(s, k, k.bytes[f := page], {f});
    SightBroken(ss, k, [Write(i, v * PAGE_SIZE, page)], j, x);
  }

  /** Isolation, exactly: however several spaces in one memory write, each sees what its own writes did and kernel pages
      stay where they are, if and only if no frame that a space can write is a table, be it its own, another's or the
      kernel's, or is seen by another space. */
  lemma IsolationExact(ss: seq<Snapshot>, k: Snapshot)
    requires Together(ss, k) && |ss| >= 2
    ensures Isolated(ss, k) <==> KeptApart(ss, k)
  {
    hide Together, KeptApart, Undisturbed;
    if KeptApart(ss, k) {
      forall writes | ByThem(writes, |ss|) ensures Undisturbed(k.bytes, Roots(ss), k.root, writes) {
        KeptApartIsolates(ss, k, writes);
      }
    } else {
      NotKeptApart(ss, k);
    }
  }

  lemma NotKeptApart(ss: seq<Snapshot>, k: Snapshot)
    requires Together(ss, k) && |ss| >= 2 && !KeptApart(ss, k)
    ensures !Isolated(ss, k)
  {
    hide Together, Isolated, UserPages, WritableFrames, FramesOf;
    var i :| 0 <= i < |ss| && !Keeps(ss, k, i, WritableFrames(UserPages(ss[i].tables, ss[i].root)));
    var mine := WritableFrames(UserPages(ss[i].tables, ss[i].root));
    if f :| f in mine && f in k.node.Values {
      var v := Through(ss, i, f);
      var p :| p in k.node && k.node[p] == f;
      KernelTable(ss, k, i, v, f, p);
    } else if f, j :| f in mine && 0 <= j < |ss| && j != i && f in ss[j].node.Values {
      var v := Through(ss, i, f);
      var p :| p in ss[j].node && ss[j].node[p] == f;
      OthersTable(ss, k, i, v, f, j, p);
    } else if f :| f in mine && f in ss[i].node.Values {
      var v := Through(ss, i, f);
      var p :| p in ss[i].node && ss[i].node[p] == f;
      var j := if i == 0 then 1 else 0;
      OwnTable(ss, k, i, v, f, p, j);
    } else {
      var j :| 0 <= j < |ss| && j != i
          && !(mine !! ss[j].node.Values && mine !! FramesOf(UserPages(ss[j].tables, ss[j].root)));
      var f :| f in mine && f in FramesOf(UserPages(ss[j].tables, ss[j].root));
      var v := Through(ss, i, f);
      var pages := UserPages(ss[j].tables, ss[j].root);
      var w :| w in pages && pages[w].ppn == f;
      OthersFrame(ss, k, i, v, f, j, w);
    }
  }

  lemma Through(ss: seq<Snapshot>, i: nat, f: nat) returns (v: nat)
    requires i < |ss| && f in WritableFrames(UserPages(ss[i].tables, ss[i].root))
    ensures CanWriteFrame(ss, i, v, f)
  {
    hide Translate;
    var pages := UserPages(ss[i].tables, ss[i].root);
    v :| v in pages && KernelWrites(pages[v]) && pages[v].ppn == f;
  }
}
