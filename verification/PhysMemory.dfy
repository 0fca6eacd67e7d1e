/** Physical memory as the paging code sees it. There is one memory: frames of bytes, page tables as the decoding of
    those bytes, and the lists of the frame allocator in the first bytes of the free ones. Frames are handed out and
    given back by the buddy allocator at order 0. */
module PhysMemory {
  import opened Prelude
  import opened Sv39
  import opened Memory
  import opened BuddySpec
  import opened BuddyAllocator
  import opened FrameLists

  /** Memory and ledger came from a first state in order by calls of the allocator and by writes to frames that were on
      no list; `free` are the frames on the lists. */
  ghost predicate Booked(origin: Book, log: seq<Call>, now: Book, free: set<nat>) {
    && InOrder(origin) && Play(origin, log) == Some(now) && InOrder(now) && free == FreeFrames(now.ledger)
    && now.ledger.base == origin.ledger.base
    && (forall f | f in now.bytes :: IsManaged(now.ledger.base, now.ledger.n, f))
  }

  /** The last thing that happened is that frame `f` was given back. */
  ghost predicate LastGave(origin: Book, log: seq<Call>, f: nat) {
    log != [] && origin.ledger.base <= f && log[|log| - 1] == Gave(Block(f - origin.ledger.base, 0))
  }

  lemma BookedWrite(origin: Book, log: seq<Call>, now: Book, free: set<nat>, f: nat, page: Page)
    requires Booked(origin, log, now, free) && f in now.bytes && f !in free
    ensures Booked(origin, log + [Wrote(f, page)], now.(bytes := now.bytes[f := page]), free)
  {
    hide InOrder, Play, FreeFrames;
    PlayOneMore(origin, log, Wrote(f, page));
    DoKeeps(now, Wrote(f, page));
  }

  lemma BookedTake(origin: Book, log: seq<Call>, now: Book, free: set<nat>)
    requires Booked(origin, log, now, free)
    ensures InOrder(now) && (Take(now, 0).None? <==> free == {})
    ensures Take(now, 0).Some? ==>
              var (after, x) := Take(now, 0).value;
              var f := now.ledger.base + x;
              && f in free && f in now.bytes && Booked(origin, log + [Took(Block(x, 0))], after, free - {f})
              && BytesWithin(now.bytes, after.bytes, free)
  {
    hide InOrder, Play, FreeFrames, Take;
    NoneFree(now);
    if Take(now, 0).Some? {
      var (after, x) := Take(now, 0).value;
      PlayOneMore(origin, log, Took(Block(x, 0)));
      TakeKeeps(now, 0);
      OneFrame(now.ledger, x);
      FreeInMemory(now);
    }
  }

  lemma BookedGive(origin: Book, log: seq<Call>, now: Book, free: set<nat>, f: nat)
    requires Booked(origin, log, now, free) && f in now.bytes && f !in free
    ensures InOrder(now) && origin.ledger.base == now.ledger.base <= f
    ensures CanGive(now.ledger, Block(f - now.ledger.base, 0))
    ensures var block := Block(f - now.ledger.base, 0);
            var after := Give(now, block);
            Booked(origin, log + [Gave(block)], after, free + {f}) && BytesWithin(now.bytes, after.bytes, free + {f})
  {
    hide InOrder, Play, FreeFrames, Give, CanGive;
    var x := f - now.ledger.base;
    assert IsManaged(now.ledger.base, now.ledger.n, f);
    OneFrame(now.ledger, x);
    PlayOneMore(origin, log, Gave(Block(x, 0)));
    GiveKeeps(now, Block(x, 0));
  }

  lemma BookedOpen(bytes: Bytes, base: nat, n: nat)
    requires bytes.Keys == Managed(base, n) && forall f | f in bytes :: f < PPN_LIMIT
    ensures n <= NIL && HasFrames(bytes, EmptyLedger(base, n))
    ensures var b := Opened(bytes, base, n);
            && Booked(b, [], b, Managed(base, n)) && b.bytes.Keys == bytes.Keys && b.ledger.base == base
            && b.ledger.lists == BuddySpec.Initial(n).lists
  {
    hide InOrder, FreeFrames, Opened;
    if n > 0 { assert base + n - 1 in bytes; }
    OpenedKeeps(bytes, base, n);
  }

  /** What happened between two moments is a sequence of calls and writes. */
  lemma BookedCalls(origin: Book, was: seq<Call>, before: Book, free: set<nat>, log: seq<Call>, now: Book,
                    free': set<nat>)
    requires Booked(origin, was, before, free) && Booked(origin, log, now, free') && was <= log
    ensures Play(before, log[|was|..]) == Some(now) && free' == FreeAfter(before.ledger, free, log[|was|..])
  {
    hide InOrder, Play, FreeFrames, FreeAfter;
    assert was + log[|was|..] == log;
    PlayOn(origin, was, log[|was|..]);
    PlayAccounts(before, log[|was|..]);
  }

  class PhysMem {
    var bytes: Bytes
    /** The list heads and the bitmap of the allocator. */
    var ledger: Ledger
    ghost var free: set<nat>
    /** The same memory read as page tables. */
    ghost var tables: Tables
    /** Where it all began, and what has happened since. */
    ghost const origin: Book
    ghost var log: seq<Call>

    /** Memory can be read, whatever became of the lists. */
    ghost predicate Readable()
      reads this
    {
      tables == Decoded(bytes) && forall f | f in bytes :: f < PPN_LIMIT
    }

    ghost predicate Valid()
      reads this
    {
      Readable() && free <= bytes.Keys && Booked(origin, log, Book(bytes, ledger), free)
    }

    /** The frames `[base, base + n)`, all of them free. */
    constructor (base: nat, n: nat)
      requires base + n <= PPN_LIMIT
      ensures Valid() && free == bytes.Keys == tables.Keys == Managed(base, n) && origin.ledger.base == base
      ensures ledger.lists == BuddySpec.Initial(n).lists
    {
      hide InOrder, FreeFrames, Opened, Booked, Decoded, Decode;
      var blank: Bytes := map f | f in Managed(base, n) :: ZeroPage();
      BookedOpen(blank, base, n);
      var first := Opened(blank, base, n);
      bytes, ledger := first.bytes, first.ledger;
      free, tables := Managed(base, n), Decoded(first.bytes);
      origin, log := first, [];
    }

    /** Read entry `i` of the table in frame `f`. */
    function Entry(f: nat, i: nat): (pte: Pte)
      requires Readable() && f in bytes && i < PTE_PER_TABLE
      reads this
      ensures f in tables && pte == tables[f][i]
    {
      EntryOf(bytes[f], i)
    }

    /** Replace the contents of frame `f`, whatever it is used for. If it is on no list of the allocator, the lists are
        as before. */
    method WriteFrame(f: nat, page: Page)
      requires Readable() && f in bytes
      modifies `bytes, `tables, `log
      ensures Readable() && bytes == old(bytes)[f := page] && tables == old(tables)[f := Decode(page)]
      ensures old(log) <= log
      ensures old(Valid()) && f !in free ==> Valid() && log == old(log) + [Wrote(f, page)]
    {
      hide Decode, Decoded, Booked;
      DecodedUpdate(bytes, f, page);
      if Valid() && f !in free {
        BookedWrite(origin, log, Book(bytes, ledger), free, f, page);
        log := log + [Wrote(f, page)];
      }
      bytes := bytes[f := page];
      tables := tables[f := Decode(page)];
    }

    /** Write entry `i` of the table in frame `f`. */
    method PutEntry(f: nat, i: nat, pte: Pte)
      requires Valid() && f in bytes && f !in free && i < PTE_PER_TABLE && pte.ppn < PPN_LIMIT
      modifies `bytes, `tables, `log
      ensures Valid() && BytesWithin(old(bytes), bytes, {f}) && old(log) <= log
      ensures f in old(tables) && tables == old(tables)[f := old(tables)[f][i := pte]]
    {
      hide Decode, Decoded, Splice, Booked;
      StoreDecodes(bytes[f], i, pte);
      WriteFrame(f, StoreEntry(bytes[f], i, pte));
    }

    /** Copy the upper half of the table in frame `from` over that of the table in frame `f`. */
    method CopyUpper(f: nat, from: nat)
      requires Valid() && f in bytes && f !in free && from in bytes
      modifies `bytes, `tables, `log
      ensures Valid() && BytesWithin(old(bytes), bytes, {f}) && old(log) <= log
      ensures f in old(tables) && from in old(tables)
      ensures tables == old(tables)[f := JoinTables(old(tables)[f], old(tables)[from])]
    {
      hide Decode, Decoded, JoinHalves, Booked;
      JoinDecodes(bytes[f], bytes[from]);
      WriteFrame(f, JoinHalves(bytes[f], bytes[from]));
    }

    /** Take one free frame and zero it. `mid` is the memory in between: only free frames were written, by the
        allocator. */
    method Alloc() returns (r: Option<nat>, ghost mid: Bytes)
      requires Valid()
      modifies this
      ensures Valid() && old(log) <= log
      ensures r.None? <==> old(free) == {}
      ensures r.None? ==>
                && tables == old(tables) && bytes == old(bytes) && free == old(free) && ledger == old(ledger)
                && log == old(log)
      ensures r.Some? ==>
                && r.value in old(free) && r.value in old(bytes) && r.value < PPN_LIMIT
                && free == old(free) - {r.value} && BytesWithin(old(bytes), mid, old(free))
                && tables == Decoded(mid)[r.value := ZeroTable()]
                && bytes == mid[r.value := ZeroPage()] && old(ledger).base <= r.value
                && log == old(log) + [Took(Block(r.value - old(ledger).base, 0)), Wrote(r.value, ZeroPage())]
    {
      hide Decode, Decoded, Booked, Take;
      BookedTake(origin, log, Book(bytes, ledger), free);
      var taken := Take(Book(bytes, ledger), 0);
      mid := bytes;
      if taken.None? {
        return None, mid;
      }
      var (after, x) := taken.value;
      var f := ledger.base + x;
      log := log + [Took(Block(x, 0))];
      free := free - {f};
      bytes, ledger := after.bytes, after.ledger;
      tables := Decoded(bytes);
      mid := bytes;
      ZeroDecodes();
      WriteFrame(f, ZeroPage());
      return Some(f), mid;
    }

    /** Give back a frame that was handed out. */
    method Release(f: nat)
      requires Valid() && f in bytes && f !in free
      modifies this
      ensures Valid() && free == old(free) + {f} && BytesWithin(old(bytes), bytes, free)
      ensures TablesWithin(old(tables), tables, free) && old(log) <= log
      ensures LastGave(origin, log, f) && log[..|log| - 1] == old(log)
    {
      hide Decode, Decoded, Booked, Give, CanGive;
      BookedGive(origin, log, Book(bytes, ledger), free, f);
      var block := Block(f - ledger.base, 0);
      var after := Give(Book(bytes, ledger), block);
      DecodedWithin(bytes, after.bytes, free + {f});
      log := log + [Gave(block)];
      free := free + {f};
      bytes, ledger := after.bytes, after.ledger;
      tables := Decoded(bytes);
    }
  }
}
