/** The ELF64 loader: every byte sequence is either rejected or turned into an address space in which each loadable
    segment reads as the file says (Program Header, chapter 5 of the System V gABI). */
module Loader {
  import opened Prelude
  import opened Sv39
  import opened LittleEndian
  import opened Memory
  import opened PhysMemory
  import opened PageTables
  import opened Framed
  import opened UserMemory
  import opened Spaces
  import opened UserView
  import opened Fork

  /** No slice is longer than this. */
  const MAX_LEN: nat := 0x7fff_ffff_ffff_ffff

  const ELFCLASS64: nat := 2
  const ELFDATA2LSB: nat := 1
  const ET_EXEC: nat := 2
  const EM_RISCV: nat := 243
  const PT_LOAD: nat := 1

  datatype LoadError = Truncated | BadMagic | WrongFormat | BadAddress | BadSegment | OutOfMemory
  datatype Result<+T> = Ok(value: T) | Err(error: LoadError)

  // ---- reading the file ------------------------------------------------------------------------

  /** The integer of `n` bytes at `offset`, if the file is long enough. */
  function ReadInt(image: seq<Byte>, offset: nat, n: nat): (r: Result<nat>)
    ensures r.Ok? <==> offset + n <= |image|
    ensures r.Err? ==> r.error == Truncated
    ensures r.Ok? ==> r.value < Pow256(n)
  {
    if offset + n > |image| then Err(Truncated)
    else FromLeBound(image[offset..offset + n]); Ok(FromLe(image[offset..offset + n]))
  }

  /** A field that is known to be inside the file. */
  function Field(image: seq<Byte>, offset: nat, n: nat): (r: nat)
    requires offset + n <= |image|
    ensures r < Pow256(n)
  {
    ReadInt(image, offset, n).value
  }

  datatype Header = Header(entry: Word, phoff: Word, phentsize: nat, phnum: nat)

  /** The file header, or why it is not one of an executable this machine runs. */
  function ParseHeader(image: seq<Byte>): (r: Result<Header>)
    ensures r.Ok? ==> |image| >= 64 && r.value.phentsize < 0x1_0000 && r.value.phnum < 0x1_0000
  {
    Widths();
    if |image| < 64 then Err(Truncated)
    else if image[0..4] != [0x7f, 0x45, 0x4c, 0x46] then Err(BadMagic)
    else if image[4] != ELFCLASS64 || image[5] != ELFDATA2LSB then Err(WrongFormat)
    else if Field(image, 16, 2) != ET_EXEC || Field(image, 18, 2) != EM_RISCV then Err(WrongFormat)
    else Ok(Header(Field(image, 24, 8), Field(image, 32, 8), Field(image, 54, 2), Field(image, 56, 2)))
  }

  /** A loadable segment: `data` at `vaddr`, then zeroes up to `memsz` bytes. */
  datatype Segment = Segment(vaddr: nat, memsz: nat, data: seq<Byte>, perm: Flags)

  function Flag(p: nat, weight: nat): bool
    requires weight > 0
  {
    p / weight % 2 == 1
  }

  function SegmentPerm(pFlags: nat): Flags {
    NO_FLAGS.(user := true, read := Flag(pFlags, 4), write := Flag(pFlags, 2), exec := Flag(pFlags, 1))
  }

  /** The program header at `ph`: a segment, something else, or an error. */
  function SegmentAt(image: seq<Byte>, ph: nat): (r: Result<Option<Segment>>)
    ensures r.Ok? ==> ph + 4 <= |image|
    ensures r.Ok? && r.value.Some? ==> SegmentOk(r.value.value)
  {
    if ph + 4 > |image| then Err(Truncated)
    else if Field(image, ph, 4) != PT_LOAD then Ok(None)
    else if ph + 48 > |image| then Err(Truncated)
    else
      var pFlags, pOffset, pVaddr := Field(image, ph + 4, 4), Field(image, ph + 8, 8), Field(image, ph + 16, 8);
      var pFilesz, pMemsz := Field(image, ph + 32, 8), Field(image, ph + 40, 8);
      if pFilesz > pMemsz then Err(BadSegment)
      else if pVaddr + pMemsz > USER_MAX_ADDR || pVaddr < PAGE_SIZE then Err(BadAddress)
      else if pOffset + pFilesz > |image| then Err(Truncated)
      else Ok(Some(Segment(pVaddr, pMemsz, image[pOffset..pOffset + pFilesz], SegmentPerm(pFlags))))
  }

  predicate SegmentOk(s: Segment) {
    |s.data| <= s.memsz && PAGE_SIZE <= s.vaddr && s.vaddr + s.memsz <= USER_MAX_ADDR
  }

  /** The segments described by headers `i` up to `phnum`, or the first error among them. */
  function ParseFrom(image: seq<Byte>, h: Header, i: nat): Result<seq<Segment>>
    decreases h.phnum - i
  {
    if i >= h.phnum then Ok([])
    else
      var s := SegmentAt(image, h.phoff + i * h.phentsize);
      if s.Err? then Err(s.error)
      else
        var rest := ParseFrom(image, h, i + 1);
        if rest.Err? || s.value.None? then rest else Ok([s.value.value] + rest.value)
  }

  /** The segments that headers `i` up to `phnum` describe, as far as there is no error. */
  function ReadableFrom(image: seq<Byte>, h: Header, i: nat): seq<Segment>
    decreases h.phnum - i
  {
    if i >= h.phnum then []
    else
      var s := SegmentAt(image, h.phoff + i * h.phentsize);
      if s.Err? then []
      else if s.value.None? then ReadableFrom(image, h, i + 1)
      else [s.value.value] + ReadableFrom(image, h, i + 1)
  }

  lemma {:induction false} AllReadable(image: seq<Byte>, h: Header, i: nat)
    ensures ParseFrom(image, h, i).Ok? ==> ParseFrom(image, h, i).value == ReadableFrom(image, h, i)
    decreases h.phnum - i
  {
    hide SegmentAt;
    if i < h.phnum { AllReadable(image, h, i + 1); }
  }

  /** The segments before the first bad header. */
  function Readable(image: seq<Byte>): seq<Segment> {
    var h := ParseHeader(image);
    if h.Err? then [] else ReadableFrom(image, h.value, 0)
  }

  /** What the file says: where to start and what to load; or why it is not acceptable. */
  function Parse(image: seq<Byte>): Result<(nat, seq<Segment>)> {
    var h := ParseHeader(image);
    if h.Err? then Err(h.error)
    else
      var segments := ParseFrom(image, h.value, 0);
      if segments.Err? then Err(segments.error)
      else if segments.value == [] then Err(BadSegment)
      else Ok((h.value.entry, segments.value))
  }

  function Cat(done: seq<Segment>, rest: Result<seq<Segment>>): Result<seq<Segment>> {
    if rest.Err? then rest else Ok(done + rest.value)
  }

  // ---- where a segment goes ----------------------------------------------------------------------

  function FirstPage(s: Segment): nat { s.vaddr / PAGE_SIZE }

  /** `end.align_up()`, as a page number */
  function LastPage(s: Segment): nat { (s.vaddr + s.memsz + PAGE_SIZE - 1) / PAGE_SIZE }

  /** Where in its first page a segment starts. */
  function InPage(s: Segment): nat { s.vaddr % PAGE_SIZE }

  lemma SegmentPages(s: Segment)
    requires SegmentOk(s)
    ensures 0 < FirstPage(s) <= LastPage(s) <= USER_PAGES
    ensures FirstPage(s) * PAGE_SIZE <= s.vaddr && FirstPage(s) * PAGE_SIZE + s.vaddr % PAGE_SIZE == s.vaddr
    ensures s.vaddr + s.memsz <= LastPage(s) * PAGE_SIZE < s.vaddr + s.memsz + PAGE_SIZE
  {
  }

  /** A region holding a segment: its pages, its permissions, and every byte. */
  ghost predicate Holding(bytes: Bytes, pages: PageMap, r: Region, s: Segment) {
    && r.first == FirstPage(s) && r.last == LastPage(s) && r.perm == s.perm
    && Filled(bytes, pages, r.first, r.last, s.vaddr, s.data)
  }

  ghost predicate AllHolding(s: Snapshot, rs: seq<Region>, segments: seq<Segment>) {
    |rs| == |segments| && forall i | 0 <= i < |rs| :: Holding(s.bytes, UserPages(s.tables, s.root), rs[i], segments[i])
  }

  /** The first page boundary at or above every segment. */
  ghost predicate IsBrk(brk: nat, segments: seq<Segment>) {
    && brk % PAGE_SIZE == 0 && (forall s | s in segments :: s.vaddr + s.memsz <= brk)
    && (segments == [] ==> brk == 0)
    && (segments != [] ==> brk > 0 && exists s :: s in segments && brk < s.vaddr + s.memsz + PAGE_SIZE)
  }

  lemma NextBrk(brk: nat, segments: seq<Segment>, s: Segment)
    requires IsBrk(brk, segments) && SegmentOk(s)
    ensures IsBrk(if brk < LastPage(s) * PAGE_SIZE then LastPage(s) * PAGE_SIZE else brk, segments + [s])
  {
    SegmentPages(s);
    hide LastPage;
    var brk' := if brk < LastPage(s) * PAGE_SIZE then LastPage(s) * PAGE_SIZE else brk;
    if brk' == brk && segments != [] {
      var t :| t in segments && brk < t.vaddr + t.memsz + PAGE_SIZE;
      assert t in segments + [s];
    } else {
      assert s in segments + [s];
    }
  }

  /** Loading one more segment leaves the earlier ones as they were. */
  lemma MoreHolding(a: Snapshot, b: Snapshot, rs: seq<Region>, r: Region, segments: seq<Segment>, s: Segment)
    requires Holds(a, rs) && Holds(b, rs + [r]) && AllHolding(a, rs, segments) && b.root == a.root
    requires BytesWithin(a.bytes, b.bytes, a.free + a.node.Values)
    requires UserPages(b.tables, b.root) == UserPages(a.tables, a.root) + RegionPages(r)
    requires Holding(b.bytes, UserPages(b.tables, b.root), r, s)
    ensures AllHolding(b, rs + [r], segments + [s])
  {
    hide *;
    HoldingLength(a, rs, segments);
    forall i | 0 <= i < |rs| ensures Holding(b.bytes, UserPages(b.tables, b.root), rs[i], segments[i]) {
      HoldingAt(a, rs, segments, i);
      SameFilled(a, b, rs, r, i, segments[i]);
    }
    HoldingIntro(b, rs + [r], segments + [s]);
  }

  lemma HoldingLength(s: Snapshot, rs: seq<Region>, segments: seq<Segment>)
    requires AllHolding(s, rs, segments)
    ensures |rs| == |segments|
  {
  }

  lemma HoldingAt(s: Snapshot, rs: seq<Region>, segments: seq<Segment>, i: nat)
    requires AllHolding(s, rs, segments) && i < |rs|
    ensures |rs| == |segments| && Holding(s.bytes, UserPages(s.tables, s.root), rs[i], segments[i])
  {
    hide Holding;
  }

  lemma HoldingIntro(s: Snapshot, rs: seq<Region>, segments: seq<Segment>)
    requires |rs| == |segments|
    requires forall i | 0 <= i < |rs| :: Holding(s.bytes, UserPages(s.tables, s.root), rs[i], segments[i])
    ensures AllHolding(s, rs, segments)
  {
  }

  lemma SameFilled(a: Snapshot, b: Snapshot, rs: seq<Region>, r: Region, i: nat, s: Segment)
    requires Holds(a, rs) && Holds(b, rs + [r]) && b.root == a.root
    requires BytesWithin(a.bytes, b.bytes, a.free + a.node.Values) && i < |rs|
    requires UserPages(b.tables, b.root) == UserPages(a.tables, a.root) + RegionPages(r)
    requires Holding(a.bytes, UserPages(a.tables, a.root), rs[i], s)
    ensures Holding(b.bytes, UserPages(b.tables, b.root), rs[i], s)
  {
    hide NoSupers, TableOk, Translate, OneToOne, AllPages, UserPages, DataFrames, Load, PageRange;
    var pa, pb := UserPages(a.tables, a.root), UserPages(b.tables, b.root);
    RegionFrames(a, rs, i);
    assert (rs + [r])[i] == rs[i] && (rs + [r])[|rs|] == r;
    assert rs[i].frames.Keys !! r.frames.Keys;
    forall x: nat | rs[i].first * PAGE_SIZE <= x < rs[i].last * PAGE_SIZE
      ensures Load(b.bytes, pb, x) == Load(a.bytes, pa, x)
    {
      assert PageOf(x) in rs[i].frames.Keys;
      PageInRegion(a, rs, i, PageOf(x));
      SameLoadAt(a.bytes, b.bytes, pa, pb, a.free + a.node.Values, r, x);
    }
  }

  lemma PageInRegion(a: Snapshot, rs: seq<Region>, i: nat, v: nat)
    requires Holds(a, rs) && i < |rs| && v in rs[i].frames
    ensures v in UserPages(a.tables, a.root) && UserPages(a.tables, a.root)[v].ppn == rs[i].frames[v]
    ensures rs[i].frames[v] in rs[i].frames.Values && rs[i].frames[v] !in a.free + a.node.Values
  {
    hide NoSupers, TableOk, Translate, OneToOne, AllPages, DataFrames;
    PageOfRegion(rs, i, v);
    UserPageOf(rs, v);
    RegionFrames(a, rs, i);
    assert rs[i].frames[v] in rs[i].frames.Values;
  }

  lemma SameLoadAt(a: Bytes, b: Bytes, pa: PageMap, pb: PageMap, may: set<nat>, r: Region, x: nat)
    requires BytesWithin(a, b, may) && pb == pa + RegionPages(r) && PageOf(x) in pa && PageOf(x) !in r.frames
    requires pa[PageOf(x)].ppn !in may
    ensures Load(b, pb, x) == Load(a, pa, x)
  {
  }

  // ---- loading ------------------------------------------------------------------------------------------

  /** The next header: what was parsed so far and what is still to be parsed make the whole. */
  lemma ParseStep(image: seq<Byte>, h: Header, i: nat, done: seq<Segment>)
    requires i < h.phnum
    ensures var s := SegmentAt(image, h.phoff + i * h.phentsize);
            && (s.Err? ==> Cat(done, ParseFrom(image, h, i)) == Err(s.error))
            && (s.Ok? && s.value.None? ==> Cat(done, ParseFrom(image, h, i)) == Cat(done, ParseFrom(image, h, i + 1)))
            && (s.Ok? && s.value.Some? ==>
                Cat(done, ParseFrom(image, h, i)) == Cat(done + [s.value.value], ParseFrom(image, h, i + 1)))
    ensures var s := SegmentAt(image, h.phoff + i * h.phentsize);
            && (s.Err? ==> done + ReadableFrom(image, h, i) == done)
            && (s.Ok? && s.value.None? ==> ReadableFrom(image, h, i) == ReadableFrom(image, h, i + 1))
            && (s.Ok? && s.value.Some? ==>
                done + ReadableFrom(image, h, i) == done + [s.value.value] + ReadableFrom(image, h, i + 1))
  {
    hide SegmentAt;
    var s, rest := SegmentAt(image, h.phoff + i * h.phentsize), ParseFrom(image, h, i + 1);
    if s.Ok? && s.value.Some? && rest.Ok? {
      assert done + ([s.value.value] + rest.value) == done + [s.value.value] + rest.value;
    }
  }

  /** The offset of header `i` does not overflow: header 0 was inside the file, and the file is short. */
  lemma NoOverflow(h: Header, i: nat, len: nat)
    requires i < h.phnum < 0x1_0000 && h.phentsize < 0x1_0000 && len <= MAX_LEN && (i > 0 ==> h.phoff <= len)
    ensures h.phoff + i * h.phentsize < 0x1_0000_0000_0000_0000
  {
    SmallProduct(i, h.phentsize);
  }

  lemma {:induction false} SmallProduct(a: nat, b: nat)
    requires b < 0x1_0000
    ensures a * b <= a * 0x1_0000
  {
    if a > 0 {
      SmallProduct(a - 1, b);
      assert a * b == (a - 1) * b + b;
    }
  }

  predicate InSegment(s: Segment, v: nat) {
    FirstPage(s) <= v < LastPage(s)
  }

  function SegmentSpans(segments: seq<Segment>): (r: seq<(nat, nat)>)
    ensures |r| == |segments|
    ensures forall i | 0 <= i < |segments| :: r[i] == (FirstPage(segments[i]), LastPage(segments[i]))
  {
    seq(|segments|, i requires 0 <= i < |segments| => (FirstPage(segments[i]), LastPage(segments[i])))
  }

  /** No page belongs to two segments, and `n` frames are enough for a root table and all segments. */
  ghost predicate Fits(segments: seq<Segment>, n: nat) {
    && (forall i, j, v: nat | 0 <= i < j < |segments| :: !(InSegment(segments[i], v) && InSegment(segments[j], v)))
    && 1 + NeedOver({Root}, SegmentSpans(segments)) <= n
  }

  /** If segments fit, so do the first of them. */
  lemma FitsPrefix(segments: seq<Segment>, i: nat, n: nat)
    requires Fits(segments, n) && i <= |segments|
    ensures Fits(segments[..i], n)
  {
    hide NeedOver, InSegment;
    assert SegmentSpans(segments[..i]) == SegmentSpans(segments)[..i];
    NeedMore({Root}, SegmentSpans(segments), i);
  }

  lemma FitsNext(segments: seq<Segment>, s: Segment, n: nat)
    requires Fits(segments, n)
    ensures var spans := SegmentSpans(segments);
            && Fits(segments + [s], n) <==>
               && (forall i, v: nat | 0 <= i < |segments| :: !(InSegment(segments[i], v) && InSegment(s, v)))
               && 1 + NeedOver({Root}, spans) + FramesNeeded(KeysOver({Root}, spans), FirstPage(s), LastPage(s)) <= n
    ensures SegmentSpans(segments + [s]) == SegmentSpans(segments) + [(FirstPage(s), LastPage(s))]
    ensures var spans := SegmentSpans(segments);
            && NeedOver({Root}, SegmentSpans(segments + [s])) ==
               NeedOver({Root}, spans) + FramesNeeded(KeysOver({Root}, spans), FirstPage(s), LastPage(s))
            && KeysOver({Root}, SegmentSpans(segments + [s]))
                == KeysAfter(KeysOver({Root}, spans), FirstPage(s), LastPage(s))
  {
    hide NeedOver, KeysOver, FramesNeeded, KeysAfter, InSegment, FirstPage, LastPage;
    var all := segments + [s];
    var spans := SegmentSpans(all);
    assert spans == SegmentSpans(segments) + [(FirstPage(s), LastPage(s))];
    assert spans[..|segments|] == SegmentSpans(segments) && spans[..|segments| + 1] == spans;
    NeedStep({Root}, spans, |segments|);
    if Fits(all, n) {
      forall i, v: nat | 0 <= i < |segments| ensures !(InSegment(segments[i], v) && InSegment(s, v)) {
        assert all[i] == segments[i] && all[|segments|] == s;
      }
    }
  }

  /** A space into which `segments` have been loaded, built from the free frames of `m`, with the kernel `k` above. */
  ghost predicate Progress(c: Snapshot, rs: seq<Region>, m: Snapshot, k: Snapshot, segments: seq<Segment>) {
    && Agrees(c, rs) && c.lim == UPPER_HALF && AllHolding(c, rs, segments)
    && BuiltFrom(m, c, rs) && SnapOk(k) && k.free == m.free && SharesKernel(c.tables, c.root, k.root)
    && Fits(segments, |m.free|) && c.node.Keys == KeysOver({Root}, SegmentSpans(segments))
    && |c.free| == |m.free| - 1 - NeedOver({Root}, SegmentSpans(segments))
  }

  /** There is room for the next segment exactly if it fits with those before it. */
  lemma RoomIsFit(a: Snapshot, rs: seq<Region>, m: Snapshot, k: Snapshot, segments: seq<Segment>, s: Segment)
    requires Holds(a, rs) && Progress(a, rs, m, k, segments) && SegmentOk(s)
    ensures Room(a, FirstPage(s), LastPage(s)) <==> Fits(segments + [s], |m.free|)
  {
    hide *;
    ProgressParts(a, rs, m, k, segments);
    RoomUnfold(a, FirstPage(s), LastPage(s));
    FitsNext(segments, s, |m.free|);
    SegmentVacant(a, rs, segments, s);
  }

  lemma ProgressParts(c: Snapshot, rs: seq<Region>, m: Snapshot, k: Snapshot, segments: seq<Segment>)
    requires Progress(c, rs, m, k, segments)
    ensures Agrees(c, rs) && c.lim == UPPER_HALF && AllHolding(c, rs, segments) && BuiltFrom(m, c, rs) && SnapOk(k)
    ensures k.free == m.free
    ensures SharesKernel(c.tables, c.root, k.root) && Fits(segments, |m.free|)
    ensures c.node.Keys == KeysOver({Root}, SegmentSpans(segments))
    ensures |c.free| == |m.free| - 1 - NeedOver({Root}, SegmentSpans(segments))
  {
  }

  lemma SegmentVacant(a: Snapshot, rs: seq<Region>, segments: seq<Segment>, s: Segment)
    requires Holds(a, rs) && Agrees(a, rs) && AllHolding(a, rs, segments) && SegmentOk(s)
    ensures Vacant(a.tables, a.root, FirstPage(s), LastPage(s)) <==>
            forall i, v: nat | 0 <= i < |segments| :: !(InSegment(segments[i], v) && InSegment(s, v))
  {
    SegmentPages(s);
    hide Holds, Agrees, AllHolding, Translate, FirstPage, LastPage;
    forall v: nat | InSegment(s, v)
      ensures Translate(a.tables, a.root, v).Some? <==> exists i :: 0 <= i < |segments| && InSegment(segments[i], v)
    {
      SegmentsApart(a, rs, segments, v);
      assert forall i | 0 <= i < |segments| :: InSegment(segments[i], v) <==>
          FirstPage(segments[i]) <= v < LastPage(segments[i]);
    }
  }

  lemma ProgressMore(a: Snapshot, b: Snapshot, rs: seq<Region>, r: Region, m: Snapshot, k: Snapshot,
                     segments: seq<Segment>, s: Segment)
    requires Progress(a, rs, m, k, segments) && Holds(a, rs) && Added(a, b, rs, r)
    requires Holding(b.bytes, UserPages(b.tables, b.root), r, s) && Fits(segments + [s], |m.free|)
    ensures Progress(b, rs + [r], m, k, segments + [s])
  {
    hide Holds, Agrees, AllHolding, BuiltFrom, SnapOk, SharesKernel, UserPages, RegionPages, BytesWithin, DataFrames,
         Added, Fits, NeedOver, KeysOver, FramesNeeded, KeysAfter, Local, Grew, Filled, FirstPage, LastPage;
    AddedParts(a, b, rs, r);
    GrewOnlyFree(a, b, r.frames.Values);
    SameRoot(a, rs, b, rs + [r]);
    BuiltFurther(m, a, rs, b, rs + [r]);
    SharesKept(k, m, a, rs, b, rs + [r]);
    MoreHolding(a, b, rs, r, segments, s);
    FitsNext(segments, s, |m.free|);
  }

  lemma SameRoot(a: Snapshot, ra: seq<Region>, b: Snapshot, rb: seq<Region>)
    requires Local(a, ra, b, rb)
    ensures b.root == a.root && b.lim == a.lim
  {
    hide DataFrames;
  }

  /** The segment's data lies in its pages, at its place. */
  lemma SegmentFits(s: Segment)
    requires SegmentOk(s)
    ensures LastPage(s) <= USER_PAGES && FirstPage(s) * PAGE_SIZE + InPage(s) == s.vaddr
    ensures s.vaddr + |s.data| <= LastPage(s) * PAGE_SIZE
  {
    SegmentPages(s);
  }

  lemma HoldingNew(bytes: Bytes, pages: PageMap, r: Region, s: Segment)
    requires r.first == FirstPage(s) && r.last == LastPage(s) && r.perm == s.perm
    requires Filled(bytes, pages, r.first, r.last, s.vaddr, s.data)
    ensures Holding(bytes, pages, r, s)
  {
    hide Filled, FirstPage, LastPage;
  }

  /** Load one segment, if it fits with those before it. */
  method LoadSegment(space: AddressSpace, s: Segment, ghost m: Snapshot, ghost k: Snapshot,
                     ghost segments: seq<Segment>) returns (ok: bool)
    requires space.Valid() && SegmentOk(s) && Progress(space.table.Now(), space.regions, m, k, segments)
    modifies space`regions, space.table`frames, space.table`node, space.table.mem
    ensures old(space.table.mem.log) <= space.table.mem.log
    ensures space.Valid() && BuiltFrom(m, space.table.Now(), space.regions)
    ensures ok <==> Fits(segments + [s], |m.free|)
    ensures ok ==> Progress(space.table.Now(), space.regions, m, k, segments + [s])
  {
    hide Holds, TableOk, BuiltFrom, UserPages, Filled, FirstPage, LastPage, InPage, Local, Translate, Added,
         Spaces.Failed, Left, Room, Progress, Fits, Extends, Decoded, Booked, Holding, SegmentOk, RegionPages, Agrees,
         Grew;
    ghost var a, rs := space.table.Now(), space.regions;
    SegmentFits(s);
    RoomIsFit(a, rs, m, k, segments, s);
    var r; ghost var left;
    r, left := space.PushWithOffset(FirstPage(s), LastPage(s), s.perm, InPage(s), s.data);
    if r != Mapped {
      SegmentRefused(a, space.table.Now(), rs, left, m, k, segments);
      return false;
    }
    SegmentAdded(a, space.table.Now(), rs, left, m, k, segments, s);
    return true;
  }

  lemma SegmentRefused(a: Snapshot, b: Snapshot, rs: seq<Region>, left: Region, m: Snapshot, k: Snapshot,
                       segments: seq<Segment>)
    requires Progress(a, rs, m, k, segments) && Spaces.Failed(a, b, rs, left)
    ensures BuiltFrom(m, b, rs)
  {
    hide *;
    ProgressBuilt(a, rs, m, k, segments);
    FailedParts(a, b, rs, left);
    BuiltFurther(m, a, rs, b, rs);
  }

  lemma SegmentAdded(a: Snapshot, b: Snapshot, rs: seq<Region>, r: Region, m: Snapshot, k: Snapshot,
                     segments: seq<Segment>, s: Segment)
    requires Holds(a, rs) && Progress(a, rs, m, k, segments) && Added(a, b, rs, r) && Fits(segments + [s], |m.free|)
    requires r.first == FirstPage(s) && r.last == LastPage(s) && r.perm == s.perm
    requires Filled(b.bytes, UserPages(b.tables, b.root), r.first, r.last, s.vaddr, s.data)
    ensures BuiltFrom(m, b, rs + [r]) && Progress(b, rs + [r], m, k, segments + [s])
  {
    hide *;
    HoldingNew(b.bytes, UserPages(b.tables, b.root), r, s);
    ProgressMore(a, b, rs, r, m, k, segments, s);
    ProgressBuilt(b, rs + [r], m, k, segments + [s]);
  }

  /** Load the segments of `image` into an empty space, one header after the other. */
  method LoadSegments(space: AddressSpace, image: seq<Byte>, h: Header, ghost m: Snapshot, ghost k: Snapshot)
    returns (r: Result<nat>, ghost segments: seq<Segment>)
    requires space.Valid() && space.regions == [] && Progress(space.table.Now(), [], m, k, [])
    requires |image| <= MAX_LEN && ParseHeader(image) == Ok(h)
    modifies space`regions, space.table`frames, space.table`node, space.table.mem
    ensures old(space.table.mem.log) <= space.table.mem.log
    ensures space.Valid() && BuiltFrom(m, space.table.Now(), space.regions)
    ensures r.Ok? ==> Progress(space.table.Now(), space.regions, m, k, segments)
    ensures r.Ok? ==> ParseFrom(image, h, 0) == Ok(segments) && IsBrk(r.value, segments)
    ensures r.Err? && r.error != LoadError.OutOfMemory ==> ParseFrom(image, h, 0) == Err(r.error)
    ensures r != Err(LoadError.OutOfMemory) ==> segments == ReadableFrom(image, h, 0) && Fits(segments, |m.free|)
    ensures r == Err(LoadError.OutOfMemory) ==> segments <= ReadableFrom(image, h, 0) && !Fits(segments, |m.free|)
  {
    hide Holds, TableOk, Progress, BuiltFrom, IsBrk, ParseFrom, ReadableFrom, SegmentAt, ParseHeader, SegmentOk,
         LastPage, Cat, Fits, Decoded, Booked;
    ghost var all := ParseFrom(image, h, 0);
    var brk: nat := 0;
    segments := [];
    HeaderBounds(image);
    ProgressBuilt(space.table.Now(), [], m, k, []);
    ProgressFits(space.table.Now(), [], m, k, []);
    CatEnds(all, segments);
    NoBrk();
    for i := 0 to h.phnum
      invariant space.Valid() && Progress(space.table.Now(), space.regions, m, k, segments)
      invariant old(space.table.mem.log) <= space.table.mem.log
      invariant BuiltFrom(m, space.table.Now(), space.regions) && Fits(segments, |m.free|)
      invariant segments + ReadableFrom(image, h, i) == ReadableFrom(image, h, 0)
      invariant i > 0 ==> h.phoff <= |image|
      invariant all == Cat(segments, ParseFrom(image, h, i)) && IsBrk(brk, segments)
    {
      NoOverflow(h, i, |image|);
      var ph: Word := h.phoff + i * h.phentsize;
      var s := SegmentAt(image, ph);
      ParseStep(image, h, i, segments);
      if s.Err? {
        NotMemory(image, ph);
        return Err(s.error), segments;
      }
      StartsBefore(h, i);
      if s.value.Some? {
        var segment := s.value.value;
        var ok := LoadSegment(space, segment, m, k, segments);
        if !ok {
          return Err(LoadError.OutOfMemory), segments + [segment];
        }
        NextBrk(brk, segments, segment);
        segments := segments + [segment];
        brk := if brk < LastPage(segment) * PAGE_SIZE then LastPage(segment) * PAGE_SIZE else brk;
      }
    }
    ParseEnd(image, h, segments);
    return Ok(brk), segments;
  }

  lemma HeaderBounds(image: seq<Byte>)
    ensures ParseHeader(image).Ok? ==>
              ParseHeader(image).value.phentsize < 0x1_0000 && ParseHeader(image).value.phnum < 0x1_0000
  {
  }

  lemma ProgressBuilt(c: Snapshot, rs: seq<Region>, m: Snapshot, k: Snapshot, segments: seq<Segment>)
    requires Progress(c, rs, m, k, segments)
    ensures BuiltFrom(m, c, rs)
  {
  }

  lemma CatEnds(all: Result<seq<Segment>>, segments: seq<Segment>)
    ensures Cat([], all) == all && Cat(segments, Ok([])) == Ok(segments)
  {
    if all.Ok? { assert [] + all.value == all.value; }
    assert segments + [] == segments;
  }

  lemma ParseEnd(image: seq<Byte>, h: Header, segments: seq<Segment>)
    ensures Cat(segments, ParseFrom(image, h, h.phnum)) == Ok(segments)
    ensures segments + ReadableFrom(image, h, h.phnum) == segments
  {
    CatEnds(Ok([]), segments);
  }

  lemma NotMemory(image: seq<Byte>, ph: nat)
    ensures SegmentAt(image, ph).Err? ==> SegmentAt(image, ph).error != LoadError.OutOfMemory
    ensures ParseHeader(image).Err? ==> ParseHeader(image).error != LoadError.OutOfMemory
  {
  }

  lemma NoBrk()
    ensures IsBrk(0, [])
  {
  }

  lemma StartsBefore(h: Header, i: nat)
    ensures h.phoff <= h.phoff + i * h.phentsize
  {
  }

  datatype Image = Loaded(space: AddressSpace, entry: nat, brk: nat) | Failed(error: LoadError)

  /** How loading `image` with `n` free frames ends: it works exactly if the file is acceptable, no two segments share a
      page and there are frames for all of them. It ends for lack of memory exactly if those before the first bad header
      do not fit. `segments` are those loaded, up to the first that does not fit. */
  ghost predicate Outcome(image: seq<Byte>, n: nat, r: Image, segments: seq<Segment>) {
    && (r.Loaded? <==> Parse(image).Ok? && Fits(Parse(image).value.1, n))
    && (r.Loaded? ==> Parse(image) == Ok((r.entry, segments)) && IsBrk(r.brk, segments))
    && (r.Failed? && r.error != LoadError.OutOfMemory ==> Parse(image) == Err(r.error))
    && (r == Failed(LoadError.OutOfMemory) <==> ParseHeader(image).Ok? && !Fits(Readable(image), n))
    && (r == Failed(LoadError.OutOfMemory) ==> segments <= Readable(image) && !Fits(segments, n))
  }

  /** Load the segments into a new space, or drop it again. */
  method FillSpace(space: AddressSpace, kernel: PageTable, image: seq<Byte>, h: Header, ghost k: Snapshot)
    returns (r: Image, ghost segments: seq<Segment>)
    requires SnapOk(k)
    requires kernel.Now() == k.(tables := kernel.mem.tables, bytes := kernel.mem.bytes, free := kernel.mem.free)
    requires space.table.mem == kernel.mem && space.table != kernel && space.Valid() && space.regions == []
    requires Progress(space.table.Now(), [], k, k, []) && |image| <= MAX_LEN && ParseHeader(image) == Ok(h)
    modifies space`regions, space.table`frames, space.table`node, kernel.mem
    ensures old(kernel.mem.log) <= kernel.mem.log
    ensures kernel.Valid() && SameViews(k.tables, kernel.mem.tables, kernel.root)
    ensures Outcome(image, |k.free|, r, segments)
    ensures BytesWithin(k.bytes, kernel.mem.bytes, k.free)
    ensures r.Failed? ==> kernel.mem.free == k.free
    ensures r.Loaded? ==>
              r.space == space && space.Valid() && Progress(space.table.Now(), space.regions, k, k, segments)
  {
    hide Holds, TableOk, Progress, BuiltFrom, IsBrk, ParseFrom, ParseHeader, SameViews, TablesWithin, BytesWithin,
         DataFrames, Fits, Decoded, Booked, Outcome, OnlyFree, Parse;
    var brk;
    brk, segments := LoadSegments(space, image, h, k, k);
    ghost var c, cs := space.table.Now(), space.regions;
    if brk.Err? || brk.value == 0 {
      space.Drop();
      DroppedAll(k, c, cs, kernel.Now());
      r := Failed(if brk.Err? then brk.error else BadSegment);
    } else {
      BuiltOnlyFree(k, c, cs);
      r := Loaded(space, h.entry, brk.value);
    }
    KernelAfter(k, kernel.Now());
    EndOf(image, h, |k.free|, brk, r, segments);
  }

  lemma ProgressFits(c: Snapshot, rs: seq<Region>, m: Snapshot, k: Snapshot, segments: seq<Segment>)
    requires Progress(c, rs, m, k, segments)
    ensures Fits(segments, |m.free|)
  {
    hide Fits;
  }

  lemma EndOf(image: seq<Byte>, h: Header, n: nat, brk: Result<nat>, r: Image, segments: seq<Segment>)
    requires ParseHeader(image) == Ok(h)
    requires brk.Ok? ==> ParseFrom(image, h, 0) == Ok(segments) && IsBrk(brk.value, segments)
    requires brk.Err? && brk.error != LoadError.OutOfMemory ==> ParseFrom(image, h, 0) == Err(brk.error)
    requires brk != Err(LoadError.OutOfMemory) ==> segments == ReadableFrom(image, h, 0) && Fits(segments, n)
    requires brk == Err(LoadError.OutOfMemory) ==> segments <= ReadableFrom(image, h, 0) && !Fits(segments, n)
    requires brk.Err? || brk.value == 0 ==> r == Failed(if brk.Err? then brk.error else BadSegment)
    requires brk.Ok? && brk.value != 0 ==> r.Loaded? && r.entry == h.entry && r.brk == brk.value
    ensures Outcome(image, n, r, segments)
  {
    hide ParseHeader, ParseFrom, ReadableFrom, IsBrk, Fits;
    AllReadable(image, h, 0);
    NotFit(ReadableFrom(image, h, 0), segments);
    if brk.Ok? {
      if brk.value == 0 { ZeroBrk(segments); }
      if segments == [] { NotZeroBrk(brk.value); }
    }
  }

  /** Make a space that holds what the file describes; whatever happens, no frame is lost. */
  method LoadImage(image: seq<Byte>, kernel: PageTable) returns (r: Image, ghost segments: seq<Segment>)
    requires kernel.Valid() && kernel.lim == PTE_PER_TABLE && |image| <= MAX_LEN
    modifies kernel.mem
    ensures old(kernel.mem.log) <= kernel.mem.log
    ensures kernel.Valid() && SameViews(old(kernel.mem.tables), kernel.mem.tables, kernel.root)
    ensures Outcome(image, |old(kernel.mem.free)|, r, segments)
    ensures BytesWithin(old(kernel.mem.bytes), kernel.mem.bytes, old(kernel.mem.free))
    ensures r.Failed? ==> kernel.mem.free == old(kernel.mem.free)
    ensures r.Loaded? ==>
              && fresh(r.space) && fresh(r.space.table) && r.space.table.mem == kernel.mem && r.space.Valid()
              && r.space.table.lim == UPPER_HALF && r.space.table.shared == kernel.Owned()
              && Progress(r.space.table.Now(), r.space.regions, old(kernel.Now()), old(kernel.Now()), segments)
  {
    hide Holds, TableOk, Progress, BuiltFrom, ParseHeader, Agrees, SharesKernel, SameViews, TablesWithin, BytesWithin,
         HwWalk, Index, Outcome, Decoded, Booked;
    segments := [];
    ghost var k := kernel.Now();
    RootFacts(k);
    SameRefl(k);
    SameBytes(k.bytes, k.free);
    var h := ParseHeader(image);
    if h.Err? {
      NotStarted(image, |k.free|, h.error);
      return Failed(h.error), segments;
    }
    var space := NewUserSpace(kernel);
    if space == null {
      NoRoot(image);
      return Failed(LoadError.OutOfMemory), segments;
    }
    FirstBuilt(k, space.table.Now());
    FirstProgress(space.table.Now(), k);
    r, segments := FillSpace(space, kernel, image, h.value, k);
  }

  lemma NotStarted(image: seq<Byte>, n: nat, e: LoadError)
    requires ParseHeader(image) == Err(e)
    ensures Outcome(image, n, Failed(e), [])
  {
    NotMemory(image, 0);
    hide ParseHeader, ParseFrom, Fits;
  }

  lemma NoRoot(image: seq<Byte>)
    requires ParseHeader(image).Ok?
    ensures Outcome(image, 0, Failed(LoadError.OutOfMemory), [])
  {
    hide Parse, IsBrk, ReadableFrom, ParseHeader, Fits;
    NoneFits();
  }

  lemma NoneFits()
    ensures forall segments :: !Fits(segments, 0)
  {
    hide NeedOver;
  }

  /** If some first segments do not fit, all of them do not. */
  lemma NotFit(all: seq<Segment>, segments: seq<Segment>)
    ensures segments <= all ==> forall n: nat :: !Fits(segments, n) ==> !Fits(all, n)
  {
    hide Fits;
    if segments <= all {
      forall n: nat | Fits(all, n) ensures Fits(segments, n) {
        FitsPrefix(all, |segments|, n);
        assert all[..|segments|] == segments;
      }
    }
  }

  lemma ZeroBrk(segments: seq<Segment>)
    requires IsBrk(0, segments)
    ensures segments == []
  {
  }

  lemma NotZeroBrk(brk: nat)
    requires IsBrk(brk, [])
    ensures brk == 0
  {
  }

  lemma KernelAfter(k: Snapshot, k': Snapshot)
    requires SnapOk(k) && OnlyFree(k, k')
    ensures SnapOk(k') && SameViews(k.tables, k'.tables, k.root) && BytesWithin(k.bytes, k'.bytes, k.free)
  {
    OnlyFreeUntouched(k, k');
    OtherTable(k, k');
  }

  lemma FirstProgress(c: Snapshot, k: Snapshot)
    requires Agrees(c, []) && c.lim == UPPER_HALF && BuiltFrom(k, c, []) && SnapOk(k)
    requires SharesKernel(c.tables, c.root, k.root)
    requires c.node.Keys == {Root} && |c.free| == |k.free| - 1
    ensures Progress(c, [], k, k, [])
  {
    hide BuiltFrom, SnapOk, SharesKernel, Agrees;
    assert SegmentSpans([]) == [];
  }

  // ---- what a loaded image means --------------------------------------------------------------------------

  /** Every segment that is loaded was checked. */
  lemma {:induction false} ParsedOk(image: seq<Byte>, h: Header, i: nat)
    ensures ParseFrom(image, h, i).Ok? ==> forall s | s in ParseFrom(image, h, i).value :: SegmentOk(s)
    decreases h.phnum - i
  {
    hide SegmentAt, SegmentOk;
    if i < h.phnum { ParsedOk(image, h, i + 1); }
  }

  /** Every byte of a segment is in place: the file's bytes, then zeroes. The process reads them if the segment is
      readable, and can write there if it is readable and writable. */
  lemma SegmentBytes(c: Snapshot, rs: seq<Region>, i: nat, s: Segment, x: nat)
    requires Holds(c, rs) && i < |rs| && Holding(c.bytes, UserPages(c.tables, c.root), rs[i], s)
    requires SegmentOk(s) && s.vaddr <= x < s.vaddr + s.memsz
    ensures var byte := if x < s.vaddr + |s.data| then s.data[x - s.vaddr] else 0;
            && Load(c.bytes, UserPages(c.tables, c.root), x) == Some(byte)
            && UserReads(c.tables, c.bytes, c.root, x) == (if s.perm.user && s.perm.read then Some(byte) else None)
            && (UserWrites(c.tables, c.bytes, c.root, x) <==> s.perm.user && s.perm.read && s.perm.write)
            && (UserRuns(c.tables, c.bytes, c.root, x) <==>
                s.perm.user && s.perm.exec && (s.perm.read || !s.perm.write))
  {
    hide *;
    HoldingByte(c.bytes, UserPages(c.tables, c.root), rs[i], s, x);
    RegionAccess(c, rs, c.bytes, i, x);
  }

  /** A segment that the file asks to be writable but not readable is in memory and the kernel copies into it, but the
      process can neither read nor write it. */
  lemma WriteOnlySegment(c: Snapshot, rs: seq<Region>, i: nat, s: Segment, x: nat)
    requires Holds(c, rs) && i < |rs| && Holding(c.bytes, UserPages(c.tables, c.root), rs[i], s)
    requires SegmentOk(s) && s.vaddr <= x < s.vaddr + s.memsz && s.perm == SegmentPerm(2)
    ensures Writable(c.bytes, UserPages(c.tables, c.root), x)
    ensures UserReads(c.tables, c.bytes, c.root, x) == None && !UserWrites(c.tables, c.bytes, c.root, x)
  {
    hide Holds, UserReads, UserWrites, UserPages, Holding;
    SegmentBytes(c, rs, i, s, x);
    HoldingByte(c.bytes, UserPages(c.tables, c.root), rs[i], s, x);
    PageFlags(c, rs, i, PageOf(x));
  }

  lemma PageFlags(c: Snapshot, rs: seq<Region>, i: nat, v: nat)
    requires Holds(c, rs) && i < |rs| && rs[i].first <= v < rs[i].last
    ensures v in UserPages(c.tables, c.root) && UserPages(c.tables, c.root)[v].flags == Present(rs[i].perm)
  {
    assert v in rs[i].frames.Keys;
    hide SnapOk, NoSupers, Translate, UserPages, AllPages;
    PagesFromRegions(rs, v);
    OwnPage(c, rs, v);
  }

  lemma HoldingByte(bytes: Bytes, pages: PageMap, r: Region, s: Segment, x: nat)
    requires Holding(bytes, pages, r, s) && SegmentOk(s) && s.vaddr <= x < s.vaddr + s.memsz
    ensures Load(bytes, pages, x) == Some(if x < s.vaddr + |s.data| then s.data[x - s.vaddr] else 0)
    ensures r.first <= PageOf(x) < r.last && UserPage(PageOf(x)) && r.perm == s.perm
  {
    SegmentPages(s);
    hide LastPage, FirstPage, Load;
    PageBetween(r.first, r.last, x);
  }

  lemma PageBetween(first: nat, last: nat, x: nat)
    requires first * PAGE_SIZE <= x < last * PAGE_SIZE && last <= USER_PAGES
    ensures first <= PageOf(x) < last && UserPage(PageOf(x))
  {
  }

  /** A user page is mapped exactly if one segment reaches into it, and no page belongs to two segments. */
  lemma SegmentsApart(c: Snapshot, rs: seq<Region>, segments: seq<Segment>, v: nat)
    requires Holds(c, rs) && Agrees(c, rs) && AllHolding(c, rs, segments) && UserPage(v)
    ensures Translate(c.tables, c.root, v).Some? <==>
              exists i :: 0 <= i < |segments| && FirstPage(segments[i]) <= v < LastPage(segments[i])
    ensures forall i, j | 0 <= i < |segments| && 0 <= j < |segments|
              && FirstPage(segments[i]) <= v < LastPage(segments[i])
                          && FirstPage(segments[j]) <= v < LastPage(segments[j]) :: i == j
  {
    hide Holds, Agrees, Translate, FirstPage, LastPage, Filled;
    HoldingLength(c, rs, segments);
    RegionsDecide(c, rs, v);
    forall i | 0 <= i < |rs| ensures rs[i].first == FirstPage(segments[i]) && rs[i].last == LastPage(segments[i]) {
      HoldingAt(c, rs, segments, i);
    }
    assert (exists i :: 0 <= i < |rs| && rs[i].first <= v < rs[i].last) <==>
           (exists i :: 0 <= i < |segments| && FirstPage(segments[i]) <= v < LastPage(segments[i])) by {
      if i :| 0 <= i < |rs| && rs[i].first <= v < rs[i].last {
        assert FirstPage(segments[i]) <= v < LastPage(segments[i]);
      }
      if i :| 0 <= i < |segments| && FirstPage(segments[i]) <= v < LastPage(segments[i]) {
        assert rs[i].first <= v < rs[i].last;
      }
    }
  }
}
