/** Frames of bytes, and page tables as the decoding of the bytes of their frames: whoever writes bytes into a frame
    writes whatever table is there. */
module Memory {
  import opened Prelude
  import opened LittleEndian
  import opened Sv39

  type Page = p: seq<Byte> | |p| == PAGE_SIZE witness seq(PAGE_SIZE, _ => 0)
  type Bytes = map<nat, Page>

  /** Frame numbers an entry can hold. */
  const PPN_LIMIT: nat := 0x1000_0000_0000
  const PTE_SIZE: nat := 8

  function ZeroPage(): (p: Page)
    ensures forall i | 0 <= i < PAGE_SIZE :: p[i] == 0
  {
    seq(PAGE_SIZE, _ => 0)
  }

  function Splice(page: Page, at: nat, piece: seq<Byte>): (r: Page)
    requires at + |piece| <= PAGE_SIZE
    ensures forall i | 0 <= i < PAGE_SIZE :: r[i] == if at <= i < at + |piece| then piece[i - at] else page[i]
  {
    page[..at] + piece + page[at + |piece|..]
  }

  // ---- tables in memory -------------------------------------------------------------------

  /** Entry `i` of the table in a frame: eight bytes. */
  function EntryOf(page: Page, i: nat): Pte
    requires i < PTE_PER_TABLE
  {
    Unpack(FromLe(page[PTE_SIZE * i..PTE_SIZE * i + PTE_SIZE]))
  }

  /** A frame read as a page table. */
  function Decode(page: Page): (t: Table)
    ensures forall i: nat | i < PTE_PER_TABLE :: t[i] == EntryOf(page, i)
  {
    seq(PTE_PER_TABLE, i requires 0 <= i < PTE_PER_TABLE => EntryOf(page, i))
  }

  function EntryBytes(pte: Pte): (s: seq<Byte>)
    ensures |s| == PTE_SIZE
  {
    ToLe(Pack(pte), PTE_SIZE)
  }

  /** A frame after one entry of its table was written. */
  function StoreEntry(page: Page, i: nat, pte: Pte): (r: Page)
    requires i < PTE_PER_TABLE
  {
    Splice(page, PTE_SIZE * i, EntryBytes(pte))
  }

  lemma EntryRoundTrip(pte: Pte)
    requires pte.ppn < PPN_LIMIT
    ensures Unpack(FromLe(EntryBytes(pte))) == pte
  {
    PackRoundTrip(pte);
    Widths();
    hide Pack, Unpack, Pow256, ToLe, FromLe;
    LeRoundTrip(Pack(pte), PTE_SIZE);
  }

  /** Writing an entry changes that entry and no other. */
  lemma StoreDecodes(page: Page, i: nat, pte: Pte)
    requires i < PTE_PER_TABLE && pte.ppn < PPN_LIMIT
    ensures Decode(StoreEntry(page, i, pte)) == Decode(page)[i := pte]
  {
    EntryRoundTrip(pte);
    var after := StoreEntry(page, i, pte);
    hide Unpack, FromLe, ToLe, Pack, Splice, EntryBytes;
    assert after[PTE_SIZE * i..PTE_SIZE * i + PTE_SIZE] == EntryBytes(pte);
    forall j: nat | j < PTE_PER_TABLE && j != i ensures EntryOf(after, j) == EntryOf(page, j) {
      assert after[PTE_SIZE * j..PTE_SIZE * j + PTE_SIZE] == page[PTE_SIZE * j..PTE_SIZE * j + PTE_SIZE];
    }
  }

  lemma ZeroDecodes()
    ensures Decode(ZeroPage()) == ZeroTable()
  {
    hide EntryOf, ZeroPage;
    forall i: nat | i < PTE_PER_TABLE ensures EntryOf(ZeroPage(), i) == EMPTY { ZeroEntry(i); }
  }

  lemma ZeroEntry(i: nat)
    requires i < PTE_PER_TABLE
    ensures EntryOf(ZeroPage(), i) == EMPTY
  {
    hide Unpack, FromLe, ZeroPage;
    ZeroBytes(ZeroPage()[PTE_SIZE * i..PTE_SIZE * i + PTE_SIZE]);
    ZeroUnpacks();
  }

  lemma ZeroUnpacks()
    ensures Unpack(0) == EMPTY
  {
    hide Unpack;
    PackRoundTrip(EMPTY);
    assert Pack(EMPTY) == 0;
  }

  lemma {:induction false} ZeroBytes(s: seq<Byte>)
    requires forall i | 0 <= i < |s| :: s[i] == 0
    ensures FromLe(s) == 0
  {
    if s != [] { ZeroBytes(s[1..]); }
  }

  /** The lower half of one frame and the upper half of another, as tables. */
  function JoinHalves(p: Page, q: Page): Page {
    p[..PTE_SIZE * UPPER_HALF] + q[PTE_SIZE * UPPER_HALF..]
  }

  lemma JoinDecodes(p: Page, q: Page)
    ensures Decode(JoinHalves(p, q)) == JoinTables(Decode(p), Decode(q))
  {
    hide Unpack, FromLe;
    var r := JoinHalves(p, q);
    forall i: nat | i < PTE_PER_TABLE ensures EntryOf(r, i) == if i < UPPER_HALF then EntryOf(p, i) else EntryOf(q, i) {
      var s := if i < UPPER_HALF then p else q;
      assert r[PTE_SIZE * i..PTE_SIZE * i + PTE_SIZE] == s[PTE_SIZE * i..PTE_SIZE * i + PTE_SIZE];
    }
  }

  /** All of memory read as page tables. */
  function Decoded(bytes: Bytes): (t: Tables)
    ensures t.Keys == bytes.Keys && forall f | f in bytes :: t[f] == Decode(bytes[f])
  {
    map f | f in bytes :: Decode(bytes[f])
  }

  lemma DecodedUpdate(bytes: Bytes, f: nat, page: Page)
    requires f in bytes
    ensures Decoded(bytes[f := page]) == Decoded(bytes)[f := Decode(page)]
  {
    hide Decode;
  }

  /** Frames outside `may` read the same as before. */
  ghost predicate TablesWithin(a: Tables, b: Tables, may: set<nat>) {
    b.Keys == a.Keys && forall f | f in a && f !in may :: b[f] == a[f]
  }

  ghost predicate BytesWithin(a: Bytes, b: Bytes, may: set<nat>) {
    b.Keys == a.Keys && forall f | f in a && f !in may :: b[f] == a[f]
  }

  lemma DecodedWithin(a: Bytes, b: Bytes, may: set<nat>)
    requires BytesWithin(a, b, may)
    ensures TablesWithin(Decoded(a), Decoded(b), may)
  {
    hide Decode;
  }
}
