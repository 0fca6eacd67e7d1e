/** The argument vector of a new process: how `exec` lays it out on the user stack, and how it is read back, by the
    process itself and by the next `exec`. */
module ExecArgs {
  import opened Prelude
  import opened LittleEndian
  import opened Memory
  import opened PhysMemory
  import opened PageTables
  import opened UserMemory
  import opened Spaces

  const USER_STACK_TOP: nat := 0x3f_ffff_f000
  const USER_STACK_SIZE: nat := 0x4_0000
  const MAX_ARGS: nat := 32
  const MAX_STR: nat := 256
  const PTR_SIZE: nat := 8

  type Str = seq<Byte>

  // ---- the layout --------------------------------------------------------------------------------

  /** `n & !0x7` */
  function Down8(n: int): (r: int)
    ensures r <= n < r + 8 && r % 8 == 0
  {
    n - n % 8
  }

  /** `n & !0xf` */
  function Down16(n: int): (r: int)
    ensures r <= n < r + 16 && r % 16 == 0
  {
    n - n % 16
  }

  /** Where the last of `args` is put, `sp` if there is none; negative if they do not all fit below `sp`. */
  function Lowest(sp: nat, args: seq<Str>): int {
    if args == [] then sp else Down8(Lowest(sp, args[..|args| - 1]) - |args[|args| - 1]| - 1)
  }

  /** The strings and the pointer array fit below `sp`: exactly then no subtraction wraps around. */
  predicate FitBelow(sp: nat, args: seq<Str>) {
    Lowest(sp, args) >= (|args| + 1) * PTR_SIZE
  }

  lemma LowestStep(sp: nat, args: seq<Str>, i: nat)
    requires i < |args|
    ensures Lowest(sp, args[..i + 1]) == Down8(Lowest(sp, args[..i]) - |args[i]| - 1)
  {
    assert args[..i + 1][..i] == args[..i];
  }

  lemma {:induction false} LowestDecreases(sp: nat, args: seq<Str>, i: nat, j: nat)
    requires i <= j <= |args|
    ensures Lowest(sp, args[..j]) <= Lowest(sp, args[..i])
    decreases j
  {
    hide Down8, Lowest;
    if i < j {
      LowestDecreases(sp, args, i, j - 1);
      LowestStep(sp, args, j - 1);
    }
  }

  /** All of them fit, so the first of them do. */
  lemma PrefixFits(sp: nat, args: seq<Str>, i: nat)
    requires FitBelow(sp, args) && i <= |args|
    ensures Lowest(sp, args[..i]) >= (|args| + 1) * PTR_SIZE
  {
    hide Lowest;
    LowestDecreases(sp, args, i, |args|);
    assert args[..|args|] == args;
  }

  /** The pointer to argument `i`. */
  function Pointer(sp: nat, args: seq<Str>, i: nat): (r: nat)
    requires FitBelow(sp, args) && i < |args|
  {
    PrefixFits(sp, args, i + 1);
    Lowest(sp, args[..i + 1])
  }

  /** The pointer array, and the stack pointer. */
  function Argv(sp: nat, args: seq<Str>): (r: nat)
    requires FitBelow(sp, args)
    ensures r % 16 == 0
  {
    Down16(Lowest(sp, args) - (|args| + 1) * PTR_SIZE)
  }

  /** The address of entry `i` of the pointer array. */
  function Slot(argv: nat, i: nat): nat {
    argv + i * PTR_SIZE
  }

  /** Each string lies below the previous one and is 8-byte aligned. */
  lemma PointerStep(sp: nat, args: seq<Str>, i: nat)
    requires FitBelow(sp, args) && i < |args|
    ensures |args[i]| + 1 <= Lowest(sp, args[..i])
    ensures Pointer(sp, args, i) == Down8(Lowest(sp, args[..i]) - |args[i]| - 1)
    ensures Pointer(sp, args, i) == Lowest(sp, args[..i + 1])
    ensures Pointer(sp, args, i) + |args[i]| + 1 <= Lowest(sp, args[..i])
  {
    hide Down8, Lowest, FitBelow;
    LowestStep(sp, args, i);
    PrefixFits(sp, args, i + 1);
  }

  /** Nothing overlaps: the strings follow one another downwards from `sp`, and the NULL-terminated array of
      pointers ends below all of them. The stack pointer is 16-byte aligned. */
  lemma Layout(sp: nat, args: seq<Str>, i: nat, j: nat)
    requires FitBelow(sp, args) && i < |args|
    ensures Pointer(sp, args, i) + |args[i]| + 1 <= sp && Pointer(sp, args, i) % 8 == 0
    ensures i < j < |args| ==> Pointer(sp, args, j) + |args[j]| + 1 <= Pointer(sp, args, i)
    ensures Argv(sp, args) + (|args| + 1) * PTR_SIZE <= Pointer(sp, args, i)
    ensures Argv(sp, args) % 16 == 0
  {
    hide Down8, Lowest;
    PointerStep(sp, args, i);
    LowestDecreases(sp, args, i + 1, |args|);
    LowestDecreases(sp, args, 0, i);
    StartsAt(sp, args);
    assert args[..|args|] == args;
    if i < j < |args| {
      PointerStep(sp, args, j);
      LowestDecreases(sp, args, i + 1, j);
    }
  }

  /** And no room is wasted: each string starts at the highest multiple of 8 that leaves room for it and its NUL below
      the one before, and the stack pointer is the highest multiple of 16 that leaves room for the array below the
      last. */
  lemma LayoutTight(sp: nat, args: seq<Str>, i: nat)
    requires FitBelow(sp, args) && i <= |args|
    ensures var above := if i == 0 then sp else Pointer(sp, args, i - 1);
            if i < |args| then above - 8 < Pointer(sp, args, i) + |args[i]| + 1 <= above
            else above - 16 < Argv(sp, args) + (|args| + 1) * 8 <= above
  {
    hide Lowest;
    StartsAt(sp, args);
    assert args[..|args|] == args;
    if i < |args| { PointerStep(sp, args, i); }
  }

  lemma StartsAt(sp: nat, args: seq<Str>)
    ensures Lowest(sp, args[..0]) == sp
  {
  }

  /** Lists as short as `exec` reads them, at most 32 strings of less than 256 bytes, always fit on the stack. */
  lemma ShortArgsFit(args: seq<Str>)
    requires |args| <= MAX_ARGS && forall i | 0 <= i < |args| :: |args[i]| < MAX_STR
    ensures FitBelow(USER_STACK_TOP, args) && Argv(USER_STACK_TOP, args) >= USER_STACK_TOP - USER_STACK_SIZE
  {
    LowestBound(USER_STACK_TOP, args);
  }

  lemma {:induction false} LowestBound(sp: nat, args: seq<Str>)
    requires forall i | 0 <= i < |args| :: |args[i]| < MAX_STR
    ensures Lowest(sp, args) >= sp - |args| * (MAX_STR + 8)
  {
    if args != [] {
      LowestBound(sp, args[..|args| - 1]);
    }
  }

  // ---- memory contents -----------------------------------------------------------------------------

  /** A process reads `s` from `a` on. */
  ghost predicate Shows(bytes: Bytes, pages: PageMap, a: nat, s: seq<Byte>) {
    forall x: nat | a <= x < a + |s| :: UserMemory.Mapped(bytes, pages, x) && Load(bytes, pages, x) == Some(s[x - a])
  }

  ghost predicate CanWrite(bytes: Bytes, pages: PageMap, from: nat, to: nat) {
    forall x: nat | from <= x < to :: Writable(bytes, pages, x)
  }

  /** A copy that went through put `src` there and left everything beside it. */
  lemma WriteShows(bytes: Bytes, pages: PageMap, a: nat, src: seq<Byte>, after: Bytes)
    requires OneToOne(pages) && CopyTo(bytes, pages, a, src) == (after, true)
    ensures Shows(after, pages, a, src) && after.Keys == bytes.Keys
    ensures forall x: nat | !(a <= x < a + |src|) :: Load(after, pages, x) == Load(bytes, pages, x)
  {
    CopyToOutcome(bytes, pages, a, src);
    assert src[..|src|] == src;
    hide CopyTo, Load, Writable, OneToOne;
    forall x: nat ensures Load(after, pages, x) == Overlay(Load(bytes, pages, x), a, src, x) {
      CopyToView(bytes, pages, a, src, x);
    }
    forall x: nat | a <= x < a + |src| ensures UserMemory.Mapped(after, pages, x) {
      WritableMapped(bytes, pages, x);
    }
  }

  /** Outside `[from, to)` a process reads what it did. */
  ghost predicate SameOutside(a: Bytes, b: Bytes, pages: PageMap, from: nat, to: nat) {
    b.Keys == a.Keys && forall x: nat | !(from <= x < to) :: Load(b, pages, x) == Load(a, pages, x)
  }

  /** Only frames of this space were written. */
  ghost predicate Inside(a: Bytes, b: Bytes, pages: PageMap) {
    BytesWithin(a, b, FramesOf(pages))
  }

  lemma InsideWrite(a: Bytes, b: Bytes, pages: PageMap, at: nat, src: seq<Byte>)
    requires Inside(a, b, pages)
    ensures Inside(a, CopyTo(b, pages, at, src).0, pages)
  {
    CopyToFrames(b, pages, at, src);
  }

  lemma InsideRefl(a: Bytes, pages: PageMap)
    ensures Inside(a, a, pages)
  {
  }

  lemma InsideJoin(a: Bytes, b: Bytes, c: Bytes, pages: PageMap)
    requires Inside(a, b, pages) && Inside(b, c, pages)
    ensures Inside(a, c, pages) && b.Keys == a.Keys && c.Keys == a.Keys
  {
  }

  lemma OutsideWrite(a: Bytes, b: Bytes, c: Bytes, pages: PageMap, from: nat, to: nat, at: nat, n: nat)
    requires SameOutside(a, b, pages, from, to) && from <= at && at + n <= to && c.Keys == b.Keys
    requires forall x: nat | !(at <= x < at + n) :: Load(c, pages, x) == Load(b, pages, x)
    ensures SameOutside(a, c, pages, from, to)
  {
    hide Load;
  }

  lemma OutsideJoin(a: Bytes, b: Bytes, c: Bytes, pages: PageMap, from: nat, to: nat)
    requires SameOutside(a, b, pages, from, to) && SameOutside(b, c, pages, from, to)
    ensures SameOutside(a, c, pages, from, to)
  {
    hide Load;
  }

  lemma OutsideRefl(a: Bytes, pages: PageMap, from: nat, to: nat)
    ensures SameOutside(a, a, pages, from, to)
  {
  }

  lemma StillShows(bytes: Bytes, after: Bytes, pages: PageMap, a: nat, n: nat, b: nat, s: seq<Byte>)
    requires Shows(bytes, pages, b, s) && after.Keys == bytes.Keys && (b + |s| <= a || a + n <= b)
    requires forall x: nat | !(a <= x < a + n) :: Load(after, pages, x) == Load(bytes, pages, x)
    ensures Shows(after, pages, b, s)
  {
    hide Load;
    forall x: nat | b <= x < b + |s|
      ensures UserMemory.Mapped(after, pages, x) && Load(after, pages, x) == Some(s[x - b])
    {
      assert UserMemory.Mapped(bytes, pages, x);
    }
  }

  lemma ShowsBoth(bytes: Bytes, pages: PageMap, a: nat, s: seq<Byte>, t: seq<Byte>)
    requires Shows(bytes, pages, a, s) && Shows(bytes, pages, a + |s|, t)
    ensures Shows(bytes, pages, a, s + t)
  {
    hide Load;
  }

  /** The strings of `args[..n]` are in place. */
  ghost predicate Strings(bytes: Bytes, pages: PageMap, sp: nat, args: seq<Str>, n: nat)
    requires FitBelow(sp, args) && n <= |args|
  {
    forall i: nat | i < n :: Shows(bytes, pages, Pointer(sp, args, i), args[i] + [0])
  }

  /** The first `n` pointers are in place. */
  ghost predicate Pointers(bytes: Bytes, pages: PageMap, sp: nat, args: seq<Str>, n: nat)
    requires FitBelow(sp, args) && n <= |args|
  {
    forall i: nat | i < n :: Shows(bytes, pages, Slot(Argv(sp, args), i), ToLe(Pointer(sp, args, i), PTR_SIZE))
  }

  /** The whole vector as the new process finds it. */
  ghost predicate Vector(bytes: Bytes, pages: PageMap, sp: nat, args: seq<Str>)
    requires FitBelow(sp, args)
  {
    && Strings(bytes, pages, sp, args, |args|) && Pointers(bytes, pages, sp, args, |args|)
    && Shows(bytes, pages, Slot(Argv(sp, args), |args|), ToLe(0, PTR_SIZE))
  }

  /** Writing below the lowest string keeps the strings. */
  lemma StringsKept(bytes: Bytes, after: Bytes, pages: PageMap, sp: nat, args: seq<Str>, n: nat, a: nat, len: nat)
    requires FitBelow(sp, args) && n <= |args| && Strings(bytes, pages, sp, args, n) && after.Keys == bytes.Keys
    requires a + len <= Lowest(sp, args[..n])
    requires forall x: nat | !(a <= x < a + len) :: Load(after, pages, x) == Load(bytes, pages, x)
    ensures Strings(after, pages, sp, args, n)
  {
    hide Load, Lowest, FitBelow, Shows;
    forall i: nat | i < n ensures Shows(after, pages, Pointer(sp, args, i), args[i] + [0]) {
      PointerStep(sp, args, i);
      LowestDecreases(sp, args, i + 1, n);
      StillShows(bytes, after, pages, a, len, Pointer(sp, args, i), args[i] + [0]);
    }
  }

  /** Writing above the first `n` pointers of the array keeps them. */
  lemma PointersKept(bytes: Bytes, after: Bytes, pages: PageMap, sp: nat, args: seq<Str>, n: nat)
    requires FitBelow(sp, args) && n <= |args| && Pointers(bytes, pages, sp, args, n) && after.Keys == bytes.Keys
    requires forall x: nat | !(Slot(Argv(sp, args), n) <= x < Slot(Argv(sp, args), n) + PTR_SIZE) ::
               Load(after, pages, x) == Load(bytes, pages, x)
    ensures Pointers(after, pages, sp, args, n)
  {
    hide Load, Argv, Pointer, FitBelow, Shows;
    forall i: nat | i < n ensures Shows(after, pages, Slot(Argv(sp, args), i), ToLe(Pointer(sp, args, i), PTR_SIZE)) {
      StillShows(bytes, after, pages, Slot(Argv(sp, args), n), PTR_SIZE, Slot(Argv(sp, args), i),
                 ToLe(Pointer(sp, args, i), PTR_SIZE));
    }
  }

  // ---- writing the vector -----------------------------------------------------------------------------

  lemma ExactPages(s: Snapshot, rs: seq<Region>)
    requires Holds(s, rs) && Agrees(s, rs)
    ensures OneToOne(UserPages(s.tables, s.root))
  {
  }

  /** A piece of memory in range can be written. */
  lemma CopyGoes(bytes: Bytes, pages: PageMap, from: nat, to: nat, a: nat, src: seq<Byte>, start: Bytes)
    requires bytes.Keys == start.Keys && CanWrite(start, pages, from, to) && from <= a && a + |src| <= to
    ensures CopyTo(bytes, pages, a, src).1
  {
    CopyToOutcome(bytes, pages, a, src);
    hide CopyTo, Writable;
    WritableStays(start, bytes, pages);
  }

  /** Write `src` at `a` and nothing else, if the process may write there. */
  ghost predicate Wrote(before: Bytes, after: Bytes, pages: PageMap, a: nat, src: seq<Byte>) {
    && Shows(after, pages, a, src) && after.Keys == before.Keys
    && forall x: nat | !(a <= x < a + |src|) :: Load(after, pages, x) == Load(before, pages, x)
  }

  method Put(space: AddressSpace, a: nat, src: seq<Byte>) returns (ok: bool)
    requires space.Valid() && space.Exact()
    modifies space.table.mem`bytes, space.table.mem`tables, space.table.mem`log
    ensures old(space.table.mem.log) <= space.table.mem.log
    ensures space.Valid() && space.Exact() && space.Pages() == old(space.Pages())
    ensures Inside(old(space.table.mem.bytes), space.table.mem.bytes, space.Pages())
    ensures ok <==> CopyTo(old(space.table.mem.bytes), space.Pages(), a, src).1
    ensures ok ==> Wrote(old(space.table.mem.bytes), space.table.mem.bytes, space.Pages(), a, src)
  {
    hide Holds, Agrees, TableOk, Local, UserPages, CopyTo, CopyThrough, Decoded, Booked, SealedOff, Inside, Load, Shows,
         OneToOne;
    ghost var pages, b := space.Pages(), space.table.mem.bytes;
    AgreesSealed(space.table.Now(), space.regions);
    ExactPages(space.table.Now(), space.regions);
    InsideRefl(b, pages);
    InsideWrite(b, b, pages, a, src);
    ok := space.CopyToUser(a, src);
    if ok { WriteShows(b, pages, a, src, space.table.mem.bytes); }
  }

  lemma WroteParts(before: Bytes, after: Bytes, pages: PageMap, a: nat, src: seq<Byte>)
    requires Wrote(before, after, pages, a, src)
    ensures Shows(after, pages, a, src) && after.Keys == before.Keys
    ensures forall x: nat | !(a <= x < a + |src|) :: Load(after, pages, x) == Load(before, pages, x)
  {
    hide Shows, Load;
  }

  /** Put argument `i` and its NUL below the ones before it. */
  method PushString(space: AddressSpace, ghost sp0: nat, sp: nat, args: seq<Str>, i: nat) returns (r: Option<nat>)
    requires space.Valid() && space.Exact() && i < |args| && FitBelow(sp0, args) && sp == Lowest(sp0, args[..i])
    requires Strings(space.table.mem.bytes, space.Pages(), sp0, args, i)
    modifies space.table.mem`bytes, space.table.mem`tables, space.table.mem`log
    ensures old(space.table.mem.log) <= space.table.mem.log
    ensures space.Valid() && space.Exact() && space.Pages() == old(space.Pages())
    ensures Inside(old(space.table.mem.bytes), space.table.mem.bytes, space.Pages())
    ensures CanWrite(old(space.table.mem.bytes), space.Pages(), Argv(sp0, args), sp0) ==> r.Some?
    ensures r.Some? ==>
              r.value == Pointer(sp0, args, i) && Strings(space.table.mem.bytes, space.Pages(), sp0, args, i + 1)
    ensures r.Some? ==>
              SameOutside(old(space.table.mem.bytes), space.table.mem.bytes, space.Pages(), Argv(sp0, args), sp0)
  {
    hide Holds, Agrees, TableOk, UserPages, CopyTo, Decoded, Booked, Load, Lowest, FitBelow, Pointer, Shows, CanWrite,
         Argv, Strings, SameOutside, Inside, Wrote, Down8;
    ghost var pages, b0 := space.Pages(), space.table.mem.bytes;
    PointerStep(sp0, args, i);
    Layout(sp0, args, i, i);
    var p := Down8(sp - |args[i]| - 1);
    var ok := Put(space, p, args[i]);
    ghost var b1 := space.table.mem.bytes;
    InsideKeys(b0, b1, pages);
    if CanWrite(b0, pages, Argv(sp0, args), sp0) { CopyGoes(b0, pages, Argv(sp0, args), sp0, p, args[i], b0); }
    if !ok {
      return None;
    }
    ok := Put(space, p + |args[i]|, [0]);
    ghost var b2 := space.table.mem.bytes;
    InsideJoin(b0, b1, b2, pages);
    if CanWrite(b0, pages, Argv(sp0, args), sp0) { CopyGoes(b1, pages, Argv(sp0, args), sp0, p + |args[i]|, [0], b0); }
    if !ok {
      return None;
    }
    StringPut(b0, b1, b2, pages, sp0, args, i);
    return Some(p);
  }

  lemma InsideKeys(a: Bytes, b: Bytes, pages: PageMap)
    requires Inside(a, b, pages)
    ensures b.Keys == a.Keys
  {
  }

  lemma StringPut(b0: Bytes, b1: Bytes, b2: Bytes, pages: PageMap, sp: nat, args: seq<Str>, i: nat)
    requires FitBelow(sp, args) && i < |args| && Strings(b0, pages, sp, args, i)
    requires Wrote(b0, b1, pages, Pointer(sp, args, i), args[i])
    requires Wrote(b1, b2, pages, Pointer(sp, args, i) + |args[i]|, [0])
    ensures Strings(b2, pages, sp, args, i + 1) && SameOutside(b0, b2, pages, Argv(sp, args), sp)
  {
    hide *;
    var p := Pointer(sp, args, i);
    PointerStep(sp, args, i);
    Layout(sp, args, i, i);
    WroteParts(b0, b1, pages, p, args[i]);
    WroteParts(b1, b2, pages, p + |args[i]|, [0]);
    OutsideRefl(b0, pages, Argv(sp, args), sp);
    OutsideWrite(b0, b0, b1, pages, Argv(sp, args), sp, p, |args[i]|);
    StringsKept(b0, b1, pages, sp, args, i, p, |args[i]|);
    OutsideWrite(b0, b1, b2, pages, Argv(sp, args), sp, p + |args[i]|, 1);
    StringsKept(b1, b2, pages, sp, args, i, p + |args[i]|, 1);
    StillShows(b1, b2, pages, p + |args[i]|, 1, p, args[i]);
    ShowsBoth(b2, pages, p, args[i], [0]);
    OneMoreString(b2, pages, sp, args, i);
  }

  lemma OneMoreString(bytes: Bytes, pages: PageMap, sp: nat, args: seq<Str>, i: nat)
    requires FitBelow(sp, args) && i < |args| && Strings(bytes, pages, sp, args, i)
    requires Shows(bytes, pages, Pointer(sp, args, i), args[i] + [0])
    ensures Strings(bytes, pages, sp, args, i + 1)
  {
    hide Shows, Pointer, FitBelow;
  }

  lemma OneMorePointer(bytes: Bytes, pages: PageMap, sp: nat, args: seq<Str>, i: nat)
    requires FitBelow(sp, args) && i < |args| && Pointers(bytes, pages, sp, args, i)
    requires Shows(bytes, pages, Slot(Argv(sp, args), i), ToLe(Pointer(sp, args, i), PTR_SIZE))
    ensures Pointers(bytes, pages, sp, args, i + 1)
  {
    hide Shows, Pointer, FitBelow, Argv, Slot;
  }

  /** Write one word of the pointer array. */
  method PushWord(space: AddressSpace, ghost sp0: nat, args: seq<Str>, i: nat, argv: nat, word: nat) returns (ok: bool)
    requires space.Valid() && space.Exact() && i <= |args| && FitBelow(sp0, args) && argv == Argv(sp0, args)
    requires Strings(space.table.mem.bytes, space.Pages(), sp0, args, |args|)
    requires Pointers(space.table.mem.bytes, space.Pages(), sp0, args, i)
    modifies space.table.mem`bytes, space.table.mem`tables, space.table.mem`log
    ensures old(space.table.mem.log) <= space.table.mem.log
    ensures space.Valid() && space.Exact() && space.Pages() == old(space.Pages())
    ensures Inside(old(space.table.mem.bytes), space.table.mem.bytes, space.Pages())
    ensures CanWrite(old(space.table.mem.bytes), space.Pages(), argv, sp0) ==> ok
    ensures ok ==>
              && Strings(space.table.mem.bytes, space.Pages(), sp0, args, |args|)
              && Pointers(space.table.mem.bytes, space.Pages(), sp0, args, i)
              && Shows(space.table.mem.bytes, space.Pages(), Slot(argv, i), ToLe(word, PTR_SIZE))
              && SameOutside(old(space.table.mem.bytes), space.table.mem.bytes, space.Pages(), argv, sp0)
  {
    hide Holds, Agrees, TableOk, UserPages, CopyTo, Decoded, Booked, Load, Lowest, FitBelow, Pointer, Shows, CanWrite,
         Argv, Strings, Pointers, ToLe, SameOutside, Inside, Wrote, Slot;
    ghost var pages, b0 := space.Pages(), space.table.mem.bytes;
    ArgvBelow(sp0, args, i);
    ok := Put(space, Slot(argv, i), ToLe(word, PTR_SIZE));
    if CanWrite(b0, pages, argv, sp0) { CopyGoes(b0, pages, argv, sp0, Slot(argv, i), ToLe(word, PTR_SIZE), b0); }
    if ok { WordPut(b0, space.table.mem.bytes, pages, sp0, args, i, ToLe(word, PTR_SIZE)); }
  }

  lemma WordPut(b0: Bytes, b1: Bytes, pages: PageMap, sp: nat, args: seq<Str>, i: nat, word: seq<Byte>)
    requires FitBelow(sp, args) && i <= |args| && Strings(b0, pages, sp, args, |args|)
    requires Pointers(b0, pages, sp, args, i)
    requires |word| == PTR_SIZE && Wrote(b0, b1, pages, Slot(Argv(sp, args), i), word)
    ensures Strings(b1, pages, sp, args, |args|) && Pointers(b1, pages, sp, args, i)
    ensures Shows(b1, pages, Slot(Argv(sp, args), i), word)
    ensures SameOutside(b0, b1, pages, Argv(sp, args), sp)
  {
    hide *;
    var argv := Argv(sp, args);
    ArgvBelow(sp, args, i);
    WroteParts(b0, b1, pages, Slot(argv, i), word);
    OutsideRefl(b0, pages, argv, sp);
    OutsideWrite(b0, b0, b1, pages, argv, sp, Slot(argv, i), PTR_SIZE);
    assert args[..|args|] == args;
    StringsKept(b0, b1, pages, sp, args, |args|, Slot(argv, i), PTR_SIZE);
    PointersKept(b0, b1, pages, sp, args, i);
  }

  lemma ArgvBelow(sp: nat, args: seq<Str>, i: nat)
    requires FitBelow(sp, args) && i <= |args|
    ensures Argv(sp, args) <= Slot(Argv(sp, args), i) <= Slot(Argv(sp, args), i) + PTR_SIZE <= Lowest(sp, args) <= sp
  {
    hide Lowest;
    LowestDecreases(sp, args, 0, |args|);
    StartsAt(sp, args);
    assert args[..|args|] == args;
  }

  /** Put `args` below `sp0`: the new stack pointer, the number of arguments and the pointer array. The kernel's
      strings are shorter than its memory, so nothing here wraps around. */
  method PushArgs(space: AddressSpace, sp0: nat, args: seq<Str>) returns (r: Option<(nat, nat, nat)>)
    requires space.Valid() && space.Exact() && FitBelow(sp0, args)
    modifies space.table.mem`bytes, space.table.mem`tables, space.table.mem`log
    ensures old(space.table.mem.log) <= space.table.mem.log
    ensures space.Valid() && space.Exact() && space.Pages() == old(space.Pages())
    ensures Inside(old(space.table.mem.bytes), space.table.mem.bytes, space.Pages())
    ensures CanWrite(old(space.table.mem.bytes), space.Pages(), Argv(sp0, args), sp0) ==> r.Some?
    ensures r.Some? ==>
              r.value == (Argv(sp0, args), |args|, Argv(sp0, args))
              && Vector(space.table.mem.bytes, space.Pages(), sp0, args)
    ensures r.Some? ==>
              SameOutside(old(space.table.mem.bytes), space.table.mem.bytes, space.Pages(), Argv(sp0, args), sp0)
  {
    hide Holds, Agrees, TableOk, Local, UserPages, Lowest, FitBelow, Pointer, Shows, CanWrite, OneToOne, Argv, Strings,
         Pointers, ToLe, SameOutside, Inside, Decoded, Booked;
    ghost var pages, b0 := space.Pages(), space.table.mem.bytes;
    InsideRefl(b0, pages);
    var sp: nat, pointers: seq<nat> := sp0, [];
    StartLayout(b0, pages, sp0, args);
    OutsideRefl(b0, pages, Argv(sp0, args), sp0);
    for i := 0 to |args|
      invariant space.Valid() && space.Exact() && space.Pages() == pages && Inside(b0, space.table.mem.bytes, pages)
      invariant space.table.mem.bytes.Keys == b0.Keys && old(space.table.mem.log) <= space.table.mem.log
      invariant sp == Lowest(sp0, args[..i])
      invariant |pointers| == i && forall j | 0 <= j < i :: pointers[j] == Pointer(sp0, args, j)
      invariant Strings(space.table.mem.bytes, pages, sp0, args, i)
      invariant SameOutside(b0, space.table.mem.bytes, pages, Argv(sp0, args), sp0)
    {
      ghost var b := space.table.mem.bytes;
      if CanWrite(b0, pages, Argv(sp0, args), sp0) { StillCan(b0, space.table.mem.bytes, pages, Argv(sp0, args), sp0); }
      PrefixFits(sp0, args, i);
      var p := PushString(space, sp0, sp, args, i);
      InsideJoin(b0, b, space.table.mem.bytes, pages);
      if p.None? {
        return None;
      }
      PointerStep(sp0, args, i);
      OutsideJoin(b0, b, space.table.mem.bytes, pages, Argv(sp0, args), sp0);
      sp := p.value;
      pointers := pointers + [sp];
    }
    assert args[..|args|] == args;
    ArgvBelow(sp0, args, |args|);
    ArgvIs(sp0, args);
    sp := Down16(sp - (|pointers| + 1) * PTR_SIZE);
    var argv := sp;
    NoPointers(space.table.mem.bytes, pages, sp0, args);
    for i := 0 to |pointers|
      invariant space.Valid() && space.Exact() && space.Pages() == pages && Inside(b0, space.table.mem.bytes, pages)
      invariant space.table.mem.bytes.Keys == b0.Keys && old(space.table.mem.log) <= space.table.mem.log
      invariant Strings(space.table.mem.bytes, pages, sp0, args, |args|)
      invariant Pointers(space.table.mem.bytes, pages, sp0, args, i)
      invariant SameOutside(b0, space.table.mem.bytes, pages, Argv(sp0, args), sp0)
    {
      ghost var b := space.table.mem.bytes;
      if CanWrite(b0, pages, argv, sp0) { StillCan(b0, space.table.mem.bytes, pages, argv, sp0); }
      var ok := PushWord(space, sp0, args, i, argv, pointers[i]);
      InsideJoin(b0, b, space.table.mem.bytes, pages);
      if !ok {
        return None;
      }
      OneMorePointer(space.table.mem.bytes, pages, sp0, args, i);
      OutsideJoin(b0, b, space.table.mem.bytes, pages, Argv(sp0, args), sp0);
    }
    ghost var b := space.table.mem.bytes;
    if CanWrite(b0, pages, argv, sp0) { StillCan(b0, space.table.mem.bytes, pages, argv, sp0); }
    var ok := PushWord(space, sp0, args, |args|, argv, 0);
    InsideJoin(b0, b, space.table.mem.bytes, pages);
    if !ok {
      return None;
    }
    OutsideJoin(b0, b, space.table.mem.bytes, pages, Argv(sp0, args), sp0);
    return Some((sp, |pointers|, argv));
  }

  lemma StartLayout(bytes: Bytes, pages: PageMap, sp: nat, args: seq<Str>)
    requires FitBelow(sp, args)
    ensures Lowest(sp, args[..0]) == sp && Strings(bytes, pages, sp, args, 0)
  {
  }

  lemma NoPointers(bytes: Bytes, pages: PageMap, sp: nat, args: seq<Str>)
    requires FitBelow(sp, args)
    ensures Pointers(bytes, pages, sp, args, 0)
  {
  }

  lemma ArgvIs(sp: nat, args: seq<Str>)
    requires FitBelow(sp, args)
    ensures (|args| + 1) * PTR_SIZE <= Lowest(sp, args)
    ensures Argv(sp, args) == Down16(Lowest(sp, args) - (|args| + 1) * PTR_SIZE)
  {
  }

  lemma StillCan(start: Bytes, now: Bytes, pages: PageMap, from: nat, to: nat)
    requires CanWrite(start, pages, from, to) && now.Keys == start.Keys
    ensures CanWrite(now, pages, from, to)
  {
    WritableStays(start, now, pages);
  }

  // ---- reading it back, in the process -----------------------------------------------------------------

  /** Loads by the process itself from address `a` on give `s`. */
  ghost predicate Sees(m: Snapshot, a: nat, s: seq<Byte>) {
    forall i | 0 <= i < |s| :: UserReads(m.tables, m.bytes, m.root, a + i) == Some(s[i])
  }

  /** The process finds the strings, the pointers to them and the NULL pointer at their end. */
  ghost predicate SeesVector(m: Snapshot, sp: nat, args: seq<Str>)
    requires FitBelow(sp, args)
  {
    && (forall i | 0 <= i < |args| :: SeesArgument(m, sp, args, i))
    && Sees(m, Slot(Argv(sp, args), |args|), ToLe(0, PTR_SIZE))
  }

  ghost predicate SeesArgument(m: Snapshot, sp: nat, args: seq<Str>, i: nat)
    requires FitBelow(sp, args) && i < |args|
  {
    && Sees(m, Slot(Argv(sp, args), i), ToLe(Pointer(sp, args, i), PTR_SIZE))
    && Sees(m, Pointer(sp, args, i), args[i] + [0])
  }

  ghost predicate CanRead(m: Snapshot, a: nat, n: nat) {
    forall x: nat | a <= x < a + n :: UserReads(m.tables, m.bytes, m.root, x).Some?
  }

  /** User-mode loads. */
  function ReadBytes(m: Snapshot, a: nat, n: nat): (r: seq<Byte>)
    requires CanRead(m, a, n)
    ensures |r| == n
  {
    if n == 0 then [] else ReadBytes(m, a, n - 1) + [UserReads(m.tables, m.bytes, m.root, a + (n - 1)).value]
  }

  lemma {:induction false} ReadSeen(m: Snapshot, a: nat, s: seq<Byte>, n: nat)
    requires Sees(m, a, s) && n <= |s|
    ensures CanRead(m, a, n) && ReadBytes(m, a, n) == s[..n]
  {
    hide UserReads;
    if n > 0 {
      ReadSeen(m, a, s, n - 1);
      assert UserReads(m.tables, m.bytes, m.root, a + (n - 1)) == Some(s[n - 1]);
      assert s[..n] == s[..n - 1] + [s[n - 1]];
    }
  }

  lemma PointerBounds(sp: nat, args: seq<Str>, i: nat)
    requires FitBelow(sp, args) && sp <= USER_MAX_ADDR && i < |args|
    ensures 0 < Pointer(sp, args, i) < Pow256(PTR_SIZE)
  {
    Layout(sp, args, i, i);
    Widths();
  }

  lemma WordSeen(m: Snapshot, a: nat, word: nat)
    requires Sees(m, a, ToLe(word, PTR_SIZE)) && word < Pow256(PTR_SIZE)
    ensures CanRead(m, a, PTR_SIZE) && FromLe(ReadBytes(m, a, PTR_SIZE)) == word
  {
    hide UserReads, Sees, CanRead, ReadBytes;
    ReadSeen(m, a, ToLe(word, PTR_SIZE), PTR_SIZE);
    LeRoundTrip(word, PTR_SIZE);
    assert ToLe(word, PTR_SIZE)[..PTR_SIZE] == ToLe(word, PTR_SIZE);
  }

  ghost predicate NulFree(args: seq<Str>) {
    forall i | 0 <= i < |args| :: 0 !in args[i]
  }

  /** `Args::get`: argument `n` of the vector the kernel built, byte for byte, and nothing past the end. */
  method Get(m: Snapshot, argc: nat, argv: nat, n: nat, ghost sp: nat, ghost args: seq<Str>) returns (r: Option<Str>)
    requires FitBelow(sp, args) && sp <= USER_MAX_ADDR && SeesVector(m, sp, args) && NulFree(args)
    requires argc == |args| && argv == Argv(sp, args)
    ensures r == if n < |args| then Some(args[n]) else None
  {
    hide FitBelow, Pointer, Argv, Sees, UserReads, Slot, CanRead, ToLe, FromLe, ReadBytes;
    if n >= argc {
      return None;
    }
    ghost var s := args[n];
    assert SeesArgument(m, sp, args, n);
    PointerBounds(sp, args, n);
    WordSeen(m, Slot(argv, n), Pointer(sp, args, n));
    var p := FromLe(ReadBytes(m, Slot(argv, n), PTR_SIZE));
    var len := 0;
    ByteSeen(m, p, s, 0);
    while UserReads(m.tables, m.bytes, m.root, p + len) != Some(0)
      invariant len <= |s| && UserReads(m.tables, m.bytes, m.root, p + len) == Some(if len < |s| then s[len] else 0)
      decreases |s| - len
    {
      len := len + 1;
      ByteSeen(m, p, s, len);
    }
    ReadSeen(m, p, s + [0], len);
    assert (s + [0])[..|s|] == s;
    return Some(ReadBytes(m, p, len));
  }

  lemma ByteSeen(m: Snapshot, p: nat, s: Str, k: nat)
    requires Sees(m, p, s + [0]) && k <= |s|
    ensures UserReads(m.tables, m.bytes, m.root, p + k) == Some(if k < |s| then s[k] else 0)
  {
    hide UserReads;
    assert UserReads(m.tables, m.bytes, m.root, p + k) == Some((s + [0])[k]);
  }

  // ---- reading it back, in the next exec ------------------------------------------------------------------

  /** What the next `exec` makes of the pointers from entry `i` on. */
  function ReadVector(bytes: Bytes, pages: PageMap, argv: nat, i: nat): Option<seq<Str>>
    decreases MAX_ARGS - i
  {
    if i >= MAX_ARGS then Some([])
    else
      var slot := CopyFrom(bytes, pages, Slot(argv, i), PTR_SIZE);
      if slot.None? then None
      else
        var p := FromLe(slot.value);
        if p == 0 then Some([])
        else
          var s := ReadStr(bytes, pages, p, MAX_STR);
          if s.None? || !Utf8(s.value) then None
          else
            var rest := ReadVector(bytes, pages, argv, i + 1);
            if rest.None? then None else Some([s.value] + rest.value)
  }

  function Before(done: seq<Str>, rest: Option<seq<Str>>): Option<seq<Str>> {
    if rest.None? then None else Some(done + rest.value)
  }

  /** The argument loop of `exec`: up to 32 pointers, each to a string of less than 256 bytes. */
  method ReadArgs(space: AddressSpace, argv: Word) returns (r: Option<seq<Str>>)
    requires space.Valid()
    ensures r == if argv == 0 then Some([]) else ReadVector(space.table.mem.bytes, space.Pages(), argv, 0)
  {
    hide Holds, TableOk, UserPages, CopyFrom, ReadStr, Utf8, FromLe, ReadVector;
    ghost var bytes, pages := space.table.mem.bytes, space.Pages();
    var args: seq<Str> := [];
    if argv != 0 {
      ghost var all := ReadVector(bytes, pages, argv, 0);
      BeforeEnds(args, all);
      var i := 0;
      while i < MAX_ARGS
        invariant i <= MAX_ARGS && (i > 0 ==> argv < USER_MAX_ADDR)
        invariant all == Before(args, ReadVector(bytes, pages, argv, i))
      {
        var at: Word := argv + i * 8;
        VectorStep(bytes, pages, argv, i, args);
        var slot := space.CopyFromUser(at, PTR_SIZE);
        if slot.None? {
          return None;
        }
        FirstMapped(bytes, pages, at);
        var p := FromLe(slot.value);
        BeforeEnds(args, None);
        if p == 0 {
          return Some(args);
        }
        var s := space.ReadCstr(p, MAX_STR);
        if s.None? {
          return None;
        }
        args := args + [s.value];
        i := i + 1;
      }
      VectorEnd(bytes, pages, argv);
      BeforeEnds(args, None);
    }
    return Some(args);
  }

  lemma BeforeEnds(done: seq<Str>, all: Option<seq<Str>>)
    ensures Before([], all) == all && Before(done, Some([])) == Some(done)
  {
    if all.Some? { assert [] + all.value == all.value; }
    assert done + [] == done;
  }

  lemma FirstMapped(bytes: Bytes, pages: PageMap, a: nat)
    requires CopyFrom(bytes, pages, a, PTR_SIZE).Some?
    ensures a < USER_MAX_ADDR
  {
  }

  lemma VectorStep(bytes: Bytes, pages: PageMap, argv: nat, i: nat, done: seq<Str>)
    requires i < MAX_ARGS
    ensures var slot, all :=
              CopyFrom(bytes, pages, argv + i * 8, PTR_SIZE), Before(done, ReadVector(bytes, pages, argv, i));
            && (slot.None? ==> all == None)
            && (slot.Some? && FromLe(slot.value) == 0 ==> all == Before(done, Some([])))
            && (slot.Some? && FromLe(slot.value) != 0 ==>
                  var s := ReadStr(bytes, pages, FromLe(slot.value), MAX_STR);
                  if s.None? || !Utf8(s.value) then all == None
                  else all == Before(done + [s.value], ReadVector(bytes, pages, argv, i + 1)))
  {
    hide CopyFrom, ReadStr, Utf8, FromLe;
    var rest := ReadVector(bytes, pages, argv, i + 1);
    if rest.Some? {
      forall s: Str ensures done + ([s] + rest.value) == done + [s] + rest.value {}
    }
  }

  lemma VectorEnd(bytes: Bytes, pages: PageMap, argv: nat)
    ensures ReadVector(bytes, pages, argv, MAX_ARGS) == Some([])
  {
  }

  /** So the lists that reach `exec` this way fit below the stack's top, and on the stack. */
  lemma ReadArgsFit(bytes: Bytes, pages: PageMap, argv: nat, args: seq<Str>)
    requires ReadVector(bytes, pages, argv, 0) == Some(args)
    ensures FitBelow(USER_STACK_TOP, args) && Argv(USER_STACK_TOP, args) >= USER_STACK_TOP - USER_STACK_SIZE
  {
    ReadIsShort(bytes, pages, argv, 0, args);
    hide ReadVector, Argv, FitBelow;
    ShortArgsFit(args);
  }

  lemma {:induction false} ReadIsShort(bytes: Bytes, pages: PageMap, argv: nat, i: nat, args: seq<Str>)
    requires ReadVector(bytes, pages, argv, i) == Some(args) && i <= MAX_ARGS
    ensures |args| <= MAX_ARGS - i && forall j | 0 <= j < |args| :: |args[j]| < MAX_STR
    decreases MAX_ARGS - i
  {
    hide CopyFrom, ReadStr, Utf8, FromLe;
    if i < MAX_ARGS && args != [] {
      var s := ReadStr(bytes, pages, FromLe(CopyFrom(bytes, pages, Slot(argv, i), PTR_SIZE).value), MAX_STR).value;
      ReadIsShort(bytes, pages, argv, i + 1, args[1..]);
      StrLength(bytes, pages, FromLe(CopyFrom(bytes, pages, Slot(argv, i), PTR_SIZE).value), MAX_STR);
      assert args == [s] + args[1..];
    }
  }

  lemma {:induction false} StrLength(bytes: Bytes, pages: PageMap, a: nat, max: nat)
    ensures ReadStr(bytes, pages, a, max).Some? ==> |ReadStr(bytes, pages, a, max).value| < max
    decreases max
  {
    if max > 0 { StrLength(bytes, pages, a + 1, max - 1); }
  }

  // ---- round trip -----------------------------------------------------------------------------------------

  ghost predicate AllUtf8(args: seq<Str>) {
    forall i | 0 <= i < |args| :: Utf8(args[i])
  }

  /** How many of `n` arguments the loop looks at. */
  function Seen(n: nat): nat {
    if n < 32 then n else 32
  }

  ghost predicate Short(args: seq<Str>, i: nat) {
    forall j: nat | i <= j < Seen(|args|) :: |args[j]| < 256
  }

  lemma CopyShown(bytes: Bytes, pages: PageMap, a: nat, s: seq<Byte>)
    requires Shows(bytes, pages, a, s)
    ensures CopyFrom(bytes, pages, a, |s|) == Some(s)
  {
    CopyFromView(bytes, pages, a, |s|);
    hide CopyFrom, Load;
    var r := CopyFrom(bytes, pages, a, |s|);
    assert r.Some?;
    forall k | 0 <= k < |s| ensures r.value[k] == s[k] {
      assert Load(bytes, pages, a + k) == Some(r.value[k]);
    }
    assert r.value == s;
  }

  /** A string in memory is read back if it is short enough, and not at all otherwise. */
  lemma StringShown(bytes: Bytes, pages: PageMap, a: nat, s: Str)
    requires Shows(bytes, pages, a, s + [0]) && 0 !in s
    ensures ReadStr(bytes, pages, a, MAX_STR) == if |s| < MAX_STR then Some(s) else None
  {
    hide Load, ReadStr;
    assert StrAt(bytes, pages, a, s);
    ReadStrExact(bytes, pages, a, MAX_STR, s);
    var r := ReadStr(bytes, pages, a, MAX_STR);
    if r.Some? {
      ReadStrExact(bytes, pages, a, MAX_STR, r.value);
      if |r.value| < |s| { NotShorter(bytes, pages, a, s, r.value); }
    }
  }

  lemma NotShorter(bytes: Bytes, pages: PageMap, a: nat, s: Str, t: Str)
    requires Shows(bytes, pages, a, s + [0]) && 0 !in s && |t| < |s|
    ensures !StrAt(bytes, pages, a, t)
  {
    hide Load;
    assert Load(bytes, pages, a + |t|) == Some(s[|t|]);
  }

  /** Round trip: the next `exec` reads the very list that was pushed, at most its first 32 entries, provided those
      are shorter than 256 bytes; otherwise it reports a fault. */
  lemma {:induction false} ReadBack(bytes: Bytes, pages: PageMap, sp: nat, args: seq<Str>, i: nat)
    requires FitBelow(sp, args) && sp <= USER_MAX_ADDR && Vector(bytes, pages, sp, args) && NulFree(args)
    requires AllUtf8(args) && i <= Seen(|args|)
    ensures ReadVector(bytes, pages, Argv(sp, args), i) == if Short(args, i) then Some(args[i..Seen(|args|)]) else None
    decreases MAX_ARGS - i
  {
    hide FitBelow, Pointer, Argv, Shows, ToLe, FromLe, CopyFrom, ReadStr, Utf8, Slot;
    var argv := Argv(sp, args);
    assert i == Seen(|args|) ==> args[i..Seen(|args|)] == [];
    if i < MAX_ARGS {
      if i == |args| {
        CopyShown(bytes, pages, Slot(argv, i), ToLe(0, PTR_SIZE));
        assert FromLe(ToLe(0, PTR_SIZE)) == 0 by { Widths(); LeRoundTrip(0, PTR_SIZE); }
      } else {
        CopyShown(bytes, pages, Slot(argv, i), ToLe(Pointer(sp, args, i), PTR_SIZE));
        PointerBounds(sp, args, i);
        LeRoundTrip(Pointer(sp, args, i), PTR_SIZE);
        StringShown(bytes, pages, Pointer(sp, args, i), args[i]);
        ReadBack(bytes, pages, sp, args, i + 1);
        assert Short(args, i) <==> |args[i]| < MAX_STR && Short(args, i + 1);
        assert args[i..Seen(|args|)] == [args[i]] + args[i + 1..Seen(|args|)];
      }
    }
  }
}
