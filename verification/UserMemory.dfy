/** What a process sees of its memory, and the copies the kernel makes into and out of it. A copy goes page by
    page through the frames; these lemmas say it is one write of a byte memory. */
module UserMemory {
  import opened Prelude
  import opened Sv39
  import opened Memory

  /** Addresses from here on are the kernel's. */
  const USER_MAX_ADDR: nat := 0x40_0000_0000

  /** The user pages of a space and the entries they are mapped by. */
  type PageMap = map<nat, Pte>

  /** The user half of a page table as a finite map. */
  function UserPages(tables: Tables, root: nat): (m: PageMap)
    ensures forall v: nat :: v in m <==> UserPage(v) && Translate(tables, root, v).Some?
    ensures forall v | v in m :: Translate(tables, root, v) == Some(m[v])
  {
    map v: nat | v < 0x400_0000 && Translate(tables, root, v).Some? :: Translate(tables, root, v).value
  }

  function PageOf(a: nat): nat { a / PAGE_SIZE }

  function OffsetOf(a: nat): (r: nat)
    ensures r < PAGE_SIZE
  {
    a % PAGE_SIZE
  }

  /** The byte at `a` as the kernel finds it, by its own walk and whatever the permissions. */
  function Load(bytes: Bytes, pages: PageMap, a: nat): Option<Byte> {
    if PageOf(a) in pages && pages[PageOf(a)].ppn in bytes
    then Some(bytes[pages[PageOf(a)].ppn][OffsetOf(a)])
    else None
  }

  /** What user-mode code reads at `a`: through the hardware's walk, on a page it may read. */
  function UserReads(tables: Tables, bytes: Bytes, root: nat, a: nat): Option<Byte> {
    var m := HwWalk(tables, root, PageOf(a));
    if m.Some? && m.value.flags.user && m.value.flags.read && m.value.flags.accessed && m.value.frame in bytes
    then Some(bytes[m.value.frame][OffsetOf(a)])
    else None
  }

  /** User-mode code can write at `a`. */
  predicate UserWrites(tables: Tables, bytes: Bytes, root: nat, a: nat) {
    var m := HwWalk(tables, root, PageOf(a));
    m.Some? && m.value.flags.user && m.value.flags.write && m.value.flags.accessed && m.value.flags.dirty
        && m.value.frame in bytes
  }

  /** User-mode code can run the instruction at `a`. */
  predicate UserRuns(tables: Tables, bytes: Bytes, root: nat, a: nat) {
    var m := HwWalk(tables, root, PageOf(a));
    m.Some? && m.value.flags.user && m.value.flags.exec && m.value.flags.accessed && m.value.frame in bytes
  }

  predicate Mapped(bytes: Bytes, pages: PageMap, a: nat) {
    a < USER_MAX_ADDR && PageOf(a) in pages && pages[PageOf(a)].ppn in bytes
  }

  /** The kernel's test before it writes for a process. */
  predicate Writable(bytes: Bytes, pages: PageMap, a: nat) {
    Mapped(bytes, pages, a) && pages[PageOf(a)].flags.write && pages[PageOf(a)].flags.user
  }

  predicate Backed(bytes: Bytes, pages: PageMap) {
    forall v | v in pages :: pages[v].ppn in bytes
  }

  /** No frame backs two pages. */
  predicate OneToOne(pages: PageMap) {
    forall v, w | v in pages && w in pages && pages[v].ppn == pages[w].ppn :: v == w
  }

  function FramesOf(pages: PageMap): (r: set<nat>)
    ensures forall v | v in pages :: pages[v].ppn in r
    ensures forall f | f in r :: exists v :: v in pages && pages[v].ppn == f
  {
    set v | v in pages :: pages[v].ppn
  }

  /** How many bytes from `a` on the next piece of a copy of `len` bytes takes: to the end of the page. */
  function Piece(a: nat, len: nat): (n: nat)
    ensures n <= len && OffsetOf(a) + n <= PAGE_SIZE
    ensures len > 0 ==> n > 0
    ensures n < len ==> OffsetOf(a + n) == 0
  {
    if len < PAGE_SIZE - OffsetOf(a) then len else PAGE_SIZE - OffsetOf(a)
  }

  lemma WithinPage(a: nat, x: nat)
    requires a <= x && OffsetOf(a) + (x - a) < PAGE_SIZE
    ensures PageOf(x) == PageOf(a) && OffsetOf(x) == OffsetOf(a) + (x - a)
  {
  }

  // ---- copying in -----------------------------------------------------------------------

  /** `copy_to_user`: the memory afterwards, and whether the copy went through. */
  function CopyTo(bytes: Bytes, pages: PageMap, a: nat, src: seq<Byte>): (r: (Bytes, bool))
    ensures r.0.Keys == bytes.Keys
    decreases |src|
  {
    if src == [] then (bytes, true)
    else if !Writable(bytes, pages, a) then (bytes, false)
    else
      var n, f := Piece(a, |src|), pages[PageOf(a)].ppn;
      CopyTo(bytes[f := Splice(bytes[f], OffsetOf(a), src[..n])], pages, a + n, src[n..])
  }

  /** `view` with `src` written at `a`, at one address. */
  function Overlay(before: Option<Byte>, a: nat, src: seq<Byte>, x: nat): Option<Byte> {
    if a <= x < a + |src| then Some(src[x - a]) else before
  }

  /** Writing within one page, seen from every address. */
  lemma SplicePage(bytes: Bytes, pages: PageMap, a: nat, piece: seq<Byte>, x: nat)
    requires OneToOne(pages) && Mapped(bytes, pages, a) && OffsetOf(a) + |piece| <= PAGE_SIZE
    ensures var f := pages[PageOf(a)].ppn;
            Load(bytes[f := Splice(bytes[f], OffsetOf(a), piece)], pages, x)
                == Overlay(Load(bytes, pages, x), a, piece, x)
  {
    var f := pages[PageOf(a)].ppn;
    if a <= x < a + |piece| {
      WithinPage(a, x);
    } else if PageOf(x) == PageOf(a) {
      assert OffsetOf(x) - OffsetOf(a) == x - a;
    }
  }

  lemma OverlayJoin(before: Option<Byte>, a: nat, p: seq<Byte>, q: seq<Byte>, x: nat)
    ensures Overlay(Overlay(before, a, p, x), a + |p|, q, x) == Overlay(before, a, p + q, x)
  {
  }

  /** How far a copy of `src` to `a` gets. */
  ghost function Reached(bytes: Bytes, pages: PageMap, a: nat, src: seq<Byte>): (n: nat)
    ensures n <= |src|
    decreases |src|
  {
    if src == [] || !Writable(bytes, pages, a) then 0
    else
      var n := Piece(a, |src|);
      n + Reached(bytes, pages, a + n, src[n..])
  }

  lemma WritableStays(bytes: Bytes, bytes': Bytes, pages: PageMap)
    requires bytes'.Keys == bytes.Keys
    ensures forall a: nat :: Writable(bytes', pages, a) <==> Writable(bytes, pages, a)
  {
  }

  lemma {:induction false} ReachedStays(bytes: Bytes, bytes': Bytes, pages: PageMap, a: nat, src: seq<Byte>)
    requires bytes'.Keys == bytes.Keys
    ensures Reached(bytes', pages, a, src) == Reached(bytes, pages, a, src)
    decreases |src|
  {
    if src != [] && Writable(bytes, pages, a) {
      var n := Piece(a, |src|);
      ReachedStays(bytes, bytes', pages, a + n, src[n..]);
    }
  }

  /** The memory after the first piece of a copy. */
  function FirstPiece(bytes: Bytes, pages: PageMap, a: nat, src: seq<Byte>): (r: Bytes)
    requires src != [] && Mapped(bytes, pages, a)
    ensures r.Keys == bytes.Keys
  {
    var n, f := Piece(a, |src|), pages[PageOf(a)].ppn;
    bytes[f := Splice(bytes[f], OffsetOf(a), src[..n])]
  }

  lemma CopyToStep(bytes: Bytes, pages: PageMap, a: nat, src: seq<Byte>)
    requires src != [] && Writable(bytes, pages, a)
    ensures var n, mid := Piece(a, |src|), FirstPiece(bytes, pages, a, src);
            && CopyTo(bytes, pages, a, src) == CopyTo(mid, pages, a + n, src[n..])
            && Reached(bytes, pages, a, src) == n + Reached(mid, pages, a + n, src[n..])
  {
    var n := Piece(a, |src|);
    ReachedStays(bytes, FirstPiece(bytes, pages, a, src), pages, a + n, src[n..]);
  }

  lemma CopyToStop(bytes: Bytes, pages: PageMap, a: nat, src: seq<Byte>)
    requires src == [] || !Writable(bytes, pages, a)
    ensures CopyTo(bytes, pages, a, src) == (bytes, src == []) && Reached(bytes, pages, a, src) == 0
  {
  }

  /** The copy writes the bytes it reaches, each where it belongs, and nothing else. */
  lemma {:induction false} CopyToView(bytes: Bytes, pages: PageMap, a: nat, src: seq<Byte>, x: nat)
    requires OneToOne(pages)
    ensures Load(CopyTo(bytes, pages, a, src).0, pages, x) ==
            Overlay(Load(bytes, pages, x), a, src[..Reached(bytes, pages, a, src)], x)
    decreases |src|
  {
    hide CopyTo, Reached, Load, Splice, OneToOne, PageOf, OffsetOf, Piece;
    if src == [] || !Writable(bytes, pages, a) {
      CopyToStop(bytes, pages, a, src);
    } else {
      var n, mid := Piece(a, |src|), FirstPiece(bytes, pages, a, src);
      var m := Reached(mid, pages, a + n, src[n..]);
      CopyToStep(bytes, pages, a, src);
      SplicePage(bytes, pages, a, src[..n], x);
      CopyToView(mid, pages, a + n, src[n..], x);
      OverlayJoin(Load(bytes, pages, x), a, src[..n], src[n..][..m], x);
      assert src[..n + m] == src[..n] + src[n..][..m];
    }
  }

  /** It goes through exactly when every byte of the range passes the kernel's test; if not, it stops at a page boundary
      (or at once), at the first byte that does not. */
  lemma {:induction false} CopyToOutcome(bytes: Bytes, pages: PageMap, a: nat, src: seq<Byte>)
    ensures var ok, n := CopyTo(bytes, pages, a, src).1, Reached(bytes, pages, a, src);
            && (ok <==> n == |src|)
            && (ok <==> forall x: nat | a <= x < a + |src| :: Writable(bytes, pages, x))
            && (!ok ==> !Writable(bytes, pages, a + n) && (n == 0 || OffsetOf(a + n) == 0))
            && (forall x: nat | a <= x < a + n :: Writable(bytes, pages, x))
    decreases |src|
  {
    hide CopyTo, Reached, Splice, PageOf, OffsetOf, Piece, Writable, Mapped;
    if src == [] || !Writable(bytes, pages, a) {
      CopyToStop(bytes, pages, a, src);
    } else {
      WritableMapped(bytes, pages, a);
      var n, mid := Piece(a, |src|), FirstPiece(bytes, pages, a, src);
      CopyToStep(bytes, pages, a, src);
      WritableStays(bytes, mid, pages);
      CopyToOutcome(mid, pages, a + n, src[n..]);
      forall x: nat | a <= x < a + n ensures Writable(bytes, pages, x) {
        PieceWritable(bytes, pages, a, |src|, x);
      }
    }
  }

  lemma WritableMapped(bytes: Bytes, pages: PageMap, a: nat)
    requires Writable(bytes, pages, a)
    ensures Mapped(bytes, pages, a)
  {
  }

  lemma PieceWritable(bytes: Bytes, pages: PageMap, a: nat, len: nat, x: nat)
    requires Writable(bytes, pages, a) && a <= x < a + Piece(a, len)
    ensures Writable(bytes, pages, x)
  {
    WithinPage(a, x);
    SamePageBelowMax(a, x);
  }

  /** A copy that looks every page up again in the memory it is writing. */
  function CopyThrough(bytes: Bytes, root: nat, a: nat, src: seq<Byte>): (r: (Bytes, bool))
    ensures r.0.Keys == bytes.Keys
    decreases |src|
  {
    var pages := UserPages(Decoded(bytes), root);
    if src == [] then (bytes, true)
    else if !Writable(bytes, pages, a) then (bytes, false)
    else CopyThrough(FirstPiece(bytes, pages, a, src), root, a + Piece(a, |src|), src[Piece(a, |src|)..])
  }

  /** No write through the writable pages changes what the user pages map. */
  ghost predicate Stable(bytes: Bytes, root: nat, pages: PageMap) {
    forall b: Bytes | BytesWithin(bytes, b, WritableFrames(pages)) :: UserPages(Decoded(b), root) == pages
  }

  /** Then looking pages up again finds the same pages. */
  lemma {:induction false} CopyThroughStable(start: Bytes, bytes: Bytes, root: nat, pages: PageMap, a: nat,
                                             src: seq<Byte>)
    requires Stable(start, root, pages) && BytesWithin(start, bytes, WritableFrames(pages))
    ensures CopyThrough(bytes, root, a, src) == CopyTo(bytes, pages, a, src)
    decreases |src|
  {
    hide *;
    StableNow(start, bytes, root, pages);
    if src == [] || !Writable(bytes, pages, a) {
      CopyToStop(bytes, pages, a, src);
      CopyThroughStop(bytes, root, pages, a, src);
    } else {
      WritableMapped(bytes, pages, a);
      CopyToStep(bytes, pages, a, src);
      CopyThroughStep(bytes, root, pages, a, src);
      FirstPieceWithin(start, bytes, pages, a, src);
      PieceShorter(a, |src|);
      CopyThroughStable(start, FirstPiece(bytes, pages, a, src), root, pages, a + Piece(a, |src|),
                        src[Piece(a, |src|)..]);
    }
  }

  lemma StableNow(start: Bytes, bytes: Bytes, root: nat, pages: PageMap)
    requires Stable(start, root, pages) && BytesWithin(start, bytes, WritableFrames(pages))
    ensures UserPages(Decoded(bytes), root) == pages
  {
    hide UserPages, Decoded;
  }

  lemma CopyThroughStop(bytes: Bytes, root: nat, pages: PageMap, a: nat, src: seq<Byte>)
    requires UserPages(Decoded(bytes), root) == pages && (src == [] || !Writable(bytes, pages, a))
    ensures CopyThrough(bytes, root, a, src) == (bytes, src == [])
  {
  }

  lemma CopyThroughStep(bytes: Bytes, root: nat, pages: PageMap, a: nat, src: seq<Byte>)
    requires UserPages(Decoded(bytes), root) == pages && src != [] && Writable(bytes, pages, a)
    ensures CopyThrough(bytes, root, a, src) ==
            CopyThrough(FirstPiece(bytes, pages, a, src), root, a + Piece(a, |src|), src[Piece(a, |src|)..])
  {
    hide UserPages, Decoded, FirstPiece, Piece;
  }

  lemma PieceShorter(a: nat, len: nat)
    requires len > 0
    ensures 0 < Piece(a, len) <= len
  {
  }

  lemma FirstPieceWithin(start: Bytes, bytes: Bytes, pages: PageMap, a: nat, src: seq<Byte>)
    requires BytesWithin(start, bytes, WritableFrames(pages)) && src != [] && Writable(bytes, pages, a)
    ensures BytesWithin(start, FirstPiece(bytes, pages, a, src), WritableFrames(pages))
  {
    hide Splice, Piece;
    assert KernelWrites(pages[PageOf(a)]) && pages[PageOf(a)].ppn in WritableFrames(pages);
  }

  /** A whole page copied onto a page boundary replaces the frame there in one piece, whatever the frame is used for. */
  lemma CopyPage(bytes: Bytes, root: nat, v: nat, page: Page)
    requires var pages := UserPages(Decoded(bytes), root);
             v in pages && KernelWrites(pages[v]) && pages[v].ppn in bytes && UserPage(v)
    ensures var f := UserPages(Decoded(bytes), root)[v].ppn;
            CopyThrough(bytes, root, v * PAGE_SIZE, page) == (bytes[f := page], true)
  {
    hide CopyThrough, Decoded, UserPages, Splice;
    var pages, a := UserPages(Decoded(bytes), root), v * PAGE_SIZE;
    assert PageOf(a) == v && OffsetOf(a) == 0 && Piece(a, PAGE_SIZE) == PAGE_SIZE && Writable(bytes, pages, a);
    CopyThroughStep(bytes, root, pages, a, page);
    assert page[..PAGE_SIZE] == page && page[PAGE_SIZE..] == [];
    WholeSplice(bytes[pages[v].ppn], page);
    assert FirstPiece(bytes, pages, a, page) == bytes[pages[v].ppn := page];
    CopyThroughNothing(bytes[pages[v].ppn := page], root, a + PAGE_SIZE);
  }

  lemma WholeSplice(before: Page, page: Page)
    ensures Splice(before, 0, page) == page
  {
  }

  lemma CopyThroughNothing(bytes: Bytes, root: nat, a: nat)
    ensures CopyThrough(bytes, root, a, []) == (bytes, true)
  {
    hide UserPages, Decoded;
  }

  predicate KernelWrites(pte: Pte) {
    pte.flags.write && pte.flags.user
  }

  /** The frames under the pages that the kernel would write for the process. */
  function WritableFrames(pages: PageMap): (r: set<nat>)
    ensures forall v | v in pages && KernelWrites(pages[v]) :: pages[v].ppn in r
    ensures forall f | f in r :: exists v :: v in pages && KernelWrites(pages[v]) && pages[v].ppn == f
  {
    set v | v in pages && KernelWrites(pages[v]) :: pages[v].ppn
  }

  /** Only writable frames of this space are written. */
  lemma {:induction false} CopyToFrames(bytes: Bytes, pages: PageMap, a: nat, src: seq<Byte>)
    ensures BytesWithin(bytes, CopyTo(bytes, pages, a, src).0, WritableFrames(pages))
    ensures BytesWithin(bytes, CopyTo(bytes, pages, a, src).0, FramesOf(pages))
    decreases |src|
  {
    if src != [] && Writable(bytes, pages, a) {
      var n, f := Piece(a, |src|), pages[PageOf(a)].ppn;
      assert KernelWrites(pages[PageOf(a)]);
      CopyToFrames(bytes[f := Splice(bytes[f], OffsetOf(a), src[..n])], pages, a + n, src[n..]);
    }
  }

  // ---- copying out --------------------------------------------------------------------------

  /** `copy_from_user`: the bytes, or nothing if some page of the range is not mapped. */
  function CopyFrom(bytes: Bytes, pages: PageMap, a: nat, len: nat): (r: Option<seq<Byte>>)
    ensures r.Some? ==> |r.value| == len
    decreases len
  {
    if len == 0 then Some([])
    else if !Mapped(bytes, pages, a) then None
    else
      var n, f := Piece(a, len), pages[PageOf(a)].ppn;
      var rest := CopyFrom(bytes, pages, a + n, len - n);
      if rest.None? then None else Some(bytes[f][OffsetOf(a)..OffsetOf(a) + n] + rest.value)
  }

  /** It goes through exactly when every byte of the range is mapped, and then returns what the kernel's walk finds. */
  lemma {:induction false} CopyFromView(bytes: Bytes, pages: PageMap, a: nat, len: nat)
    ensures var r := CopyFrom(bytes, pages, a, len);
            && (r.Some? <==> forall x: nat | a <= x < a + len :: Mapped(bytes, pages, x))
            && (r.Some? ==> forall k | 0 <= k < len :: Load(bytes, pages, a + k) == Some(r.value[k]))
    decreases len
  {
    if len > 0 && Mapped(bytes, pages, a) {
      var n, f := Piece(a, len), pages[PageOf(a)].ppn;
      CopyFromView(bytes, pages, a + n, len - n);
      forall x: nat | a <= x < a + n ensures Mapped(bytes, pages, x) {
        WithinPage(a, x);
        SamePageBelowMax(a, x);
      }
      var r := CopyFrom(bytes, pages, a, len);
      if r.Some? {
        forall k | 0 <= k < len ensures Load(bytes, pages, a + k) == Some(r.value[k]) {
          if k < n {
            WithinPage(a, a + k);
          } else {
            assert a + k == (a + n) + (k - n);
          }
        }
      }
    }
  }

  lemma SamePageBelowMax(a: nat, x: nat)
    requires a < USER_MAX_ADDR && PageOf(x) == PageOf(a)
    ensures x < USER_MAX_ADDR
  {
  }

  /** What was copied in is what is copied out, across any page boundary. */
  lemma CopyRoundTrip(bytes: Bytes, pages: PageMap, a: nat, src: seq<Byte>)
    requires OneToOne(pages) && CopyTo(bytes, pages, a, src).1
    ensures CopyFrom(CopyTo(bytes, pages, a, src).0, pages, a, |src|) == Some(src)
  {
    var bytes' := CopyTo(bytes, pages, a, src).0;
    CopyToOutcome(bytes, pages, a, src);
    CopyFromView(bytes', pages, a, |src|);
    WritableStays(bytes, bytes', pages);
    forall x: nat | a <= x < a + |src| ensures Mapped(bytes', pages, x) {
      assert Writable(bytes, pages, x);
    }
    var r := CopyFrom(bytes', pages, a, |src|);
    hide CopyTo, CopyFrom, Load, Writable, Mapped;
    assert src[..|src|] == src;
    forall k | 0 <= k < |src| ensures r.value[k] == src[k] {
      CopyToView(bytes, pages, a, src, a + k);
    }
    assert r.value == src;
  }

  // ---- strings ----------------------------------------------------------------------------

  /** The bytes from `a` up to the first NUL, if one comes within `max` bytes and all pages up to it are mapped. */
  function ReadStr(bytes: Bytes, pages: PageMap, a: nat, max: nat): Option<seq<Byte>>
    decreases max
  {
    if max == 0 || !Mapped(bytes, pages, a) then None
    else
      var b := bytes[pages[PageOf(a)].ppn][OffsetOf(a)];
      if b == 0 then Some([])
      else
        var rest := ReadStr(bytes, pages, a + 1, max - 1);
        if rest.None? then None else Some([b] + rest.value)
  }

  /** The string `s` and a NUL after it are what a process reads from `a` on. */
  ghost predicate StrAt(bytes: Bytes, pages: PageMap, a: nat, s: seq<Byte>) {
    forall x: nat | a <= x <= a + |s| ::
      Mapped(bytes, pages, x) && Load(bytes, pages, x) == Some(if x < a + |s| then s[x - a] else 0)
  }

  /** A string that is in memory is read back, and nothing else is. */
  lemma {:induction false} ReadStrExact(bytes: Bytes, pages: PageMap, a: nat, max: nat, s: seq<Byte>)
    ensures ReadStr(bytes, pages, a, max) == Some(s) <==> |s| < max && 0 !in s && StrAt(bytes, pages, a, s)
    decreases max
  {
    if max > 0 && Mapped(bytes, pages, a) {
      var b := bytes[pages[PageOf(a)].ppn][OffsetOf(a)];
      assert Load(bytes, pages, a) == Some(b);
      if b != 0 && s != [] {
        ReadStrExact(bytes, pages, a + 1, max - 1, s[1..]);
        assert s == [s[0]] + s[1..];
        hide ReadStr, Load;
        if s[0] == b {
          assert StrAt(bytes, pages, a + 1, s[1..]) ==> StrAt(bytes, pages, a, s);
          assert StrAt(bytes, pages, a, s) ==> StrAt(bytes, pages, a + 1, s[1..]);
        }
      }
    }
  }

  predicate Continues(s: seq<Byte>, n: nat, low: nat, high: nat) {
    |s| >= n >= 2 && low <= s[1] <= high && (forall i | 2 <= i < n :: 0x80 <= s[i] < 0xc0)
  }

  /** The length of the UTF-8 character at the front, 0 if it is malformed (section 4 of RFC 3629). */
  function CharLen(s: seq<Byte>): (n: nat)
    requires s != []
    ensures n <= |s|
  {
    if s[0] < 0x80 then 1
    else if 0xc2 <= s[0] <= 0xdf && |s| >= 2 && Continues(s, 2, 0x80, 0xbf) then 2
    else if 0xe0 <= s[0] <= 0xef && |s| >= 3 &&
            Continues(s, 3, if s[0] == 0xe0 then 0xa0 else 0x80, if s[0] == 0xed then 0x9f else 0xbf) then 3
    else if 0xf0 <= s[0] <= 0xf4 && |s| >= 4 &&
            Continues(s, 4, if s[0] == 0xf0 then 0x90 else 0x80, if s[0] == 0xf4 then 0x8f else 0xbf) then 4
    else 0
  }

  predicate Utf8(s: seq<Byte>) {
    s == [] || (CharLen(s) > 0 && Utf8(s[CharLen(s)..]))
  }

  // ---- isolation ---------------------------------------------------------------------------

  /** One call of `copy_to_user` on the `who`-th space. */
  datatype Write = Write(who: nat, addr: nat, src: seq<Byte>)

  function RunWrites(bytes: Bytes, spaces: seq<PageMap>, writes: seq<Write>): (r: Bytes)
    requires forall w | w in writes :: w.who < |spaces|
    ensures r.Keys == bytes.Keys
    decreases |writes|
  {
    if writes == [] then bytes
    else RunWrites(CopyTo(bytes, spaces[writes[0].who], writes[0].addr, writes[0].src).0, spaces, writes[1..])
  }

  function Own(writes: seq<Write>, k: nat): (r: seq<Write>)
    ensures forall w | w in r :: w in writes && w.who == k
  {
    if writes == [] then []
    else (if writes[0].who == k then [writes[0]] else []) + Own(writes[1..], k)
  }

  /** No space can write a frame that another one sees. */
  ghost predicate FramesApart(spaces: seq<PageMap>) {
    forall i, j | 0 <= i < |spaces| && 0 <= j < |spaces| && i != j :: WritableFrames(spaces[i]) !! FramesOf(spaces[j])
  }

  /** Two memories that one space cannot tell apart. */
  ghost predicate SameFor(a: Bytes, b: Bytes, pages: PageMap) {
    a.Keys == b.Keys && forall f | f in FramesOf(pages) && f in a :: a[f] == b[f]
  }

  lemma {:induction false} CopyToSame(a: Bytes, b: Bytes, pages: PageMap, addr: nat, src: seq<Byte>)
    requires SameFor(a, b, pages)
    ensures SameFor(CopyTo(a, pages, addr, src).0, CopyTo(b, pages, addr, src).0, pages)
    ensures CopyTo(a, pages, addr, src).1 == CopyTo(b, pages, addr, src).1
    decreases |src|
  {
    if src != [] && Writable(a, pages, addr) {
      var n, f := Piece(addr, |src|), pages[PageOf(addr)].ppn;
      CopyToSame(a[f := Splice(a[f], OffsetOf(addr), src[..n])], b[f := Splice(b[f], OffsetOf(addr), src[..n])],
                 pages, addr + n, src[n..]);
    }
  }

  /** However the writes of several spaces are interleaved, each space ends up seeing exactly its own. */
  lemma {:induction false} Isolation(a: Bytes, b: Bytes, spaces: seq<PageMap>, writes: seq<Write>, k: nat)
    requires FramesApart(spaces) && k < |spaces| && (forall w | w in writes :: w.who < |spaces|)
    requires SameFor(a, b, spaces[k])
    ensures forall w | w in Own(writes, k) :: w.who < |spaces|
    ensures SameFor(RunWrites(a, spaces, writes), RunWrites(b, spaces, Own(writes, k)), spaces[k])
    decreases |writes|
  {
    if writes != [] {
      var w, rest := writes[0], writes[1..];
      var a' := CopyTo(a, spaces[w.who], w.addr, w.src).0;
      if w.who == k {
        CopyToSame(a, b, spaces[k], w.addr, w.src);
        Isolation(a', CopyTo(b, spaces[k], w.addr, w.src).0, spaces, rest, k);
        assert Own(writes, k) == [w] + Own(rest, k);
        assert Own(writes, k)[1..] == Own(rest, k);
      } else {
        CopyToFrames(a, spaces[w.who], w.addr, w.src);
        assert FramesOf(spaces[k]) !! WritableFrames(spaces[w.who]);
        Isolation(a', b, spaces, rest, k);
        assert Own(writes, k) == Own(rest, k);
      }
    }
  }

  /** In particular, what a space reads anywhere does not depend on the other spaces' writes. */
  lemma IsolatedReads(bytes: Bytes, spaces: seq<PageMap>, writes: seq<Write>, k: nat, x: nat)
    requires FramesApart(spaces) && k < |spaces| && (forall w | w in writes :: w.who < |spaces|)
    ensures forall w | w in Own(writes, k) :: w.who < |spaces|
    ensures Load(RunWrites(bytes, spaces, writes), spaces[k], x)
              == Load(RunWrites(bytes, spaces, Own(writes, k)), spaces[k], x)
  {
    Isolation(bytes, bytes, spaces, writes, k);
  }
}
