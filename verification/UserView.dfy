/** What user-mode code can read and write, by the hardware's walk and its permission bits, next to what the kernel
    finds by its own walk when it copies for a process. */
module UserView {
  import opened Prelude
  import opened Sv39
  import opened Memory
  import opened Hardware
  import opened PageTables
  import opened Framed
  import opened UserMemory
  import opened Spaces

  /** In a space without superpages the hardware reaches the entry that the kernel's walk finds. */
  lemma HardwareView(s: Snapshot, v: nat)
    requires NoSupers(s) && s.lim >= UPPER_HALF && UserPage(v)
    ensures HwWalk(s.tables, s.root, v) ==
            var pte := Translate(s.tables, s.root, v);
            if pte.Some? then HwLeaf(pte.value, v, 2) else None
  {
    UserIndices(v);
    assert NoLeafAbove(s.tables, s.root, v, 2);
    HwByEntries(s.tables, s.root, v);
    SlotByEntries(s.tables, s.root, v);
    hide HwWalk, Translate;
    var e0, e1 := EntryAt(s.tables, s.root, v, 0), EntryAt(s.tables, s.root, v, 1);
    assert e0.Some? ==> !e0.value.IsLeaf();
    assert e1.Some? ==> !e1.value.IsLeaf();
  }

  /** The permissions under which user-mode code reads through an entry. */
  predicate MayRead(f: Flags) {
    f.user && f.read && f.accessed
  }

  /** A page that can be written but not read is a reserved encoding: the hardware refuses it altogether. */
  predicate MayWrite(f: Flags) {
    f.user && f.write && f.read && f.accessed && f.dirty
  }

  predicate MayRun(f: Flags) {
    f.user && f.exec && f.accessed && (f.read || !f.write)
  }

  /** User-mode code reads a byte exactly if the kernel finds it and the entry lets the user read, and then they read
      the same; it can write exactly if the kernel finds the byte and the entry lets the user read and write, and run it
      exactly if the entry lets the user execute. */
  lemma UserAccess(s: Snapshot, bytes: Bytes, x: nat)
    requires NoSupers(s) && s.lim >= UPPER_HALF && x < USER_MAX_ADDR
    ensures var pages := UserPages(s.tables, s.root);
            && UserReads(s.tables, bytes, s.root, x) ==
               (if PageOf(x) in pages && MayRead(pages[PageOf(x)].flags) then Load(bytes, pages, x) else None)
            && (UserWrites(s.tables, bytes, s.root, x) <==>
                Load(bytes, pages, x).Some? && MayWrite(pages[PageOf(x)].flags))
            && (UserRuns(s.tables, bytes, s.root, x) <==>
                Load(bytes, pages, x).Some? && MayRun(pages[PageOf(x)].flags))
  {
    PageBelowMax(x);
    HardwareView(s, PageOf(x));
    InPages(s, PageOf(x));
    hide HwWalk, Translate, NoSupers, UserPages;
  }

  /** The kernel's test before it writes is the hardware's, except on pages that are writable but not readable, or not
      marked accessed and dirty: there the kernel writes where the process could not. */
  lemma WriteTestExact(s: Snapshot, bytes: Bytes, x: nat)
    requires NoSupers(s) && s.lim >= UPPER_HALF && x < USER_MAX_ADDR
    ensures var pages := UserPages(s.tables, s.root);
            && (UserWrites(s.tables, bytes, s.root, x) ==> Writable(bytes, pages, x))
            && ((Writable(bytes, pages, x) <==> UserWrites(s.tables, bytes, s.root, x)) <==>
                (Writable(bytes, pages, x) ==>
                   pages[PageOf(x)].flags.read && pages[PageOf(x)].flags.accessed && pages[PageOf(x)].flags.dirty))
  {
    hide HwWalk, Translate, NoSupers, UserPages;
    UserAccess(s, bytes, x);
  }

  /** The kernel's test before it reads is the hardware's exactly on the pages that the user may read. */
  lemma ReadTestExact(s: Snapshot, bytes: Bytes, x: nat)
    requires NoSupers(s) && s.lim >= UPPER_HALF && x < USER_MAX_ADDR
    ensures var pages := UserPages(s.tables, s.root);
            Load(bytes, pages, x) == UserReads(s.tables, bytes, s.root, x) <==>
            (Load(bytes, pages, x).Some? ==> MayRead(pages[PageOf(x)].flags))
  {
    hide HwWalk, Translate, NoSupers, UserPages;
    UserAccess(s, bytes, x);
  }

  /** A page that a region maps: user-mode code reads it if the region is readable, writes it if it is readable and
      writable, and runs it if it is executable. */
  lemma RegionAccess(s: Snapshot, rs: seq<Region>, bytes: Bytes, i: nat, x: nat)
    requires Holds(s, rs) && bytes.Keys == s.bytes.Keys && i < |rs| && rs[i].first <= PageOf(x) < rs[i].last
    ensures UserPage(PageOf(x)) && Load(bytes, UserPages(s.tables, s.root), x).Some?
    ensures UserReads(s.tables, bytes, s.root, x) ==
            if rs[i].perm.user && rs[i].perm.read then Load(bytes, UserPages(s.tables, s.root), x) else None
    ensures UserWrites(s.tables, bytes, s.root, x) <==> rs[i].perm.user && rs[i].perm.read && rs[i].perm.write
    ensures UserRuns(s.tables, bytes, s.root, x) <==>
            rs[i].perm.user && rs[i].perm.exec && (rs[i].perm.read || !rs[i].perm.write)
  {
    assert PageOf(x) in rs[i].frames.Keys;
    assert x < USER_MAX_ADDR by { PageInRange(x, rs[i].last); }
    HoldsParts(s, rs);
    PagesFromRegions(rs, PageOf(x));
    assert Translate(s.tables, s.root, PageOf(x)) == Some(AllPages(rs)[PageOf(x)]);
    InPages(s, PageOf(x));
    hide Holds, NoSupers, SnapOk, UserPages, Translate, HwWalk, AllPages, PageOf;
    UserAccess(s, bytes, x);
  }

  lemma PageInRange(x: nat, last: nat)
    requires PageOf(x) < last <= USER_PAGES
    ensures x < USER_MAX_ADDR
  {
  }

  // ---- the same on the bytes of memory -------------------------------------------------------------------

  /** What user-mode code reads at `a`, by the walk over the bytes: bits 1, 4 and 6 of the entry are R, U and A. */
  function RawReads(bytes: Bytes, root: nat, a: nat): Option<Byte> {
    var m := RawWalk(bytes, root, a / 4096);
    if m.Some? && m.value.1 / 2 % 2 == 1 && m.value.1 / 16 % 2 == 1 && m.value.1 / 64 % 2 == 1 && m.value.0 in bytes
    then Some(bytes[m.value.0][a % 4096])
    else None
  }

  /** It can write there: W, U, A and D. */
  predicate RawWrites(bytes: Bytes, root: nat, a: nat) {
    var m := RawWalk(bytes, root, a / 4096);
    m.Some? && m.value.1 / 4 % 2 == 1 && m.value.1 / 16 % 2 == 1 && m.value.1 / 64 % 2 == 1 && m.value.1 / 128 % 2 == 1
        && m.value.0 in bytes
  }

  /** It can run what is there: X, U and A. */
  predicate RawRuns(bytes: Bytes, root: nat, a: nat) {
    var m := RawWalk(bytes, root, a / 4096);
    m.Some? && m.value.1 / 8 % 2 == 1 && m.value.1 / 16 % 2 == 1 && m.value.1 / 64 % 2 == 1 && m.value.0 in bytes
  }

  /** What user-mode code can do, as it is stated over decoded tables, is what it can do by the bits in memory. */
  lemma AccessIsRaw(bytes: Bytes, root: nat, a: nat)
    ensures UserReads(Decoded(bytes), bytes, root, a) == RawReads(bytes, root, a)
    ensures UserWrites(Decoded(bytes), bytes, root, a) <==> RawWrites(bytes, root, a)
    ensures UserRuns(Decoded(bytes), bytes, root, a) <==> RawRuns(bytes, root, a)
  {
    hide HwWalk, RawWalk, Decoded;
    WalkIsRaw(bytes, root, PageOf(a));
  }

  /** User-mode code stores `b` at `x`, where it may. */
  function UserStore(tables: Tables, bytes: Bytes, root: nat, x: nat, b: Byte): (r: Bytes)
    ensures r.Keys == bytes.Keys
  {
    if UserWrites(tables, bytes, root, x) then
      var f := HwWalk(tables, root, PageOf(x)).value.frame;
      bytes[f := Splice(bytes[f], OffsetOf(x), [b])]
    else bytes
  }

  /** What user-mode code stores, the kernel could have copied: one byte to the same address. */
  lemma StoreIsCopy(s: Snapshot, bytes: Bytes, x: nat, b: Byte)
    requires NoSupers(s) && s.lim >= UPPER_HALF && x < USER_MAX_ADDR && UserWrites(s.tables, bytes, s.root, x)
    ensures CopyTo(bytes, UserPages(s.tables, s.root), x, [b]) == (UserStore(s.tables, bytes, s.root, x, b), true)
  {
    var pages := UserPages(s.tables, s.root);
    WriteTestExact(s, bytes, x);
    PageBelowMax(x);
    HardwareView(s, PageOf(x));
    InPages(s, PageOf(x));
    hide HwWalk, Translate, NoSupers, UserPages, Splice;
    CopyToStep(bytes, pages, x, [b]);
    assert [b][..1] == [b] && [b][1..] == [];
    CopyToStop(FirstPiece(bytes, pages, x, [b]), pages, x + 1, []);
  }

  /** After a copy by the kernel, user-mode code reads the copied bytes wherever it may read, and what it read before
      everywhere else. */
  lemma CopyToSeen(s: Snapshot, bytes: Bytes, a: nat, src: seq<Byte>, x: nat)
    requires NoSupers(s) && s.lim >= UPPER_HALF && x < USER_MAX_ADDR && OneToOne(UserPages(s.tables, s.root))
    requires CopyTo(bytes, UserPages(s.tables, s.root), a, src).1
    ensures var pages := UserPages(s.tables, s.root);
            var after := CopyTo(bytes, pages, a, src).0;
            && (a <= x < a + |src| ==> Writable(bytes, pages, x))
            && UserReads(s.tables, after, s.root, x) ==
               if a <= x < a + |src| && MayRead(pages[PageOf(x)].flags) then Some(src[x - a])
               else if a <= x < a + |src| then None
               else UserReads(s.tables, bytes, s.root, x)
  {
    hide HwWalk, Translate, NoSupers, UserPages, CopyTo, OneToOne;
    var pages := UserPages(s.tables, s.root);
    var after := CopyTo(bytes, pages, a, src).0;
    CopyToOutcome(bytes, pages, a, src);
    CopyToView(bytes, pages, a, src, x);
    OverlayAll(Load(bytes, pages, x), a, src, x);
    UserAccess(s, bytes, x);
    UserAccess(s, after, x);
  }

  /** What the kernel copies out is what user-mode code reads there, wherever that may read. */
  lemma CopyFromSeen(s: Snapshot, bytes: Bytes, a: nat, len: nat, k: nat)
    requires NoSupers(s) && s.lim >= UPPER_HALF && k < len
    requires CopyFrom(bytes, UserPages(s.tables, s.root), a, len).Some?
    ensures var pages := UserPages(s.tables, s.root);
            && UserMemory.Mapped(bytes, pages, a + k)
            && UserReads(s.tables, bytes, s.root, a + k) ==
               if MayRead(pages[PageOf(a + k)].flags) then Some(CopyFrom(bytes, pages, a, len).value[k]) else None
  {
    hide HwWalk, Translate, NoSupers, UserPages, CopyFrom;
    CopyFromView(bytes, UserPages(s.tables, s.root), a, len);
    assert UserMemory.Mapped(bytes, UserPages(s.tables, s.root), a + k);
    UserAccess(s, bytes, a + k);
  }
}
