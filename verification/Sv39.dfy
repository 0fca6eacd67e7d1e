/** Sv39 page tables in a flat frame memory: entries, the hardware's walk, the kernel's walk, and the tree
    that the tables owned by one address space form. */
module Sv39 {
  import opened Prelude
  import Dyadic

  const PTE_PER_TABLE: nat := 512
  const SV39_LEVELS: nat := 3
  /** Root entries from here on belong to the kernel half. */
  const UPPER_HALF: nat := 256

  // ---- entries ------------------------------------------------------------------

  datatype Flags = Flags(valid: bool, read: bool, write: bool, exec: bool, user: bool,
                         global: bool, accessed: bool, dirty: bool, cow: bool, lazy: bool)

  const NO_FLAGS: Flags := Flags(false, false, false, false, false, false, false, false, false, false)
  const POINTER_FLAGS: Flags := NO_FLAGS.(valid := true)

  datatype Pte = Pte(ppn: nat, flags: Flags)
  {
    predicate IsLeaf() {
      flags.valid && (flags.read || flags.write || flags.exec)
    }

    predicate IsPointer() {
      flags.valid && !IsLeaf()
    }
  }

  const EMPTY: Pte := Pte(0, NO_FLAGS)

  /** `flags | VALID | ACCESSED | DIRTY` */
  function Present(flags: Flags): Flags {
    flags.(valid := true, accessed := true, dirty := true)
  }

  // ---- the packed form ------------------------------------------------------------

  function Bit(b: bool): nat { if b then 1 else 0 }

  /** Put a bit below `rest`. */
  function Cons(b: bool, rest: nat): nat { Bit(b) + 2 * rest }

  function FlagBits(f: Flags): (r: nat)
    ensures r < 1024
  {
    Cons(f.valid, Cons(f.read, Cons(f.write, Cons(f.exec, Cons(f.user,
    Cons(f.global, Cons(f.accessed, Cons(f.dirty, Cons(f.cow, Cons(f.lazy, 0))))))))))
  }

  function BitsFlags(n0: nat): Flags {
    var n1 := n0 / 2; var n2 := n1 / 2; var n3 := n2 / 2; var n4 := n3 / 2; var n5 := n4 / 2;
    var n6 := n5 / 2; var n7 := n6 / 2; var n8 := n7 / 2; var n9 := n8 / 2;
    Flags(n0 % 2 == 1, n1 % 2 == 1, n2 % 2 == 1, n3 % 2 == 1, n4 % 2 == 1,
          n5 % 2 == 1, n6 % 2 == 1, n7 % 2 == 1, n8 % 2 == 1, n9 % 2 == 1)
  }

  lemma ConsBit(b: bool, rest: nat)
    ensures Cons(b, rest) / 2 == rest && (Cons(b, rest) % 2 == 1 <==> b)
  {
  }

  /** `(ppn << 10) | flags` */
  function Pack(p: Pte): nat {
    p.ppn * 1024 + FlagBits(p.flags)
  }

  /** `(raw >> 10) & ((1 << 44) - 1)` and `raw & 0x3ff` */
  function Unpack(raw: nat): Pte {
    Pte(raw / 1024 % 0x1000_0000_0000, BitsFlags(raw % 1024))
  }

  lemma FlagsRoundTrip(f: Flags)
    ensures BitsFlags(FlagBits(f)) == f
  {
    hide Cons;
    var n9 := Cons(f.lazy, 0);      ConsBit(f.lazy, 0);
    var n8 := Cons(f.cow, n9);      ConsBit(f.cow, n9);
    var n7 := Cons(f.dirty, n8);    ConsBit(f.dirty, n8);
    var n6 := Cons(f.accessed, n7); ConsBit(f.accessed, n7);
    var n5 := Cons(f.global, n6);   ConsBit(f.global, n6);
    var n4 := Cons(f.user, n5);     ConsBit(f.user, n5);
    var n3 := Cons(f.exec, n4);     ConsBit(f.exec, n4);
    var n2 := Cons(f.write, n3);    ConsBit(f.write, n3);
    var n1 := Cons(f.read, n2);     ConsBit(f.read, n2);
    ConsBit(f.valid, n1);
  }

  /** Packing an entry loses nothing as long as the frame number fits its 44-bit field. */
  lemma PackRoundTrip(p: Pte)
    requires p.ppn < 0x1000_0000_0000
    ensures Unpack(Pack(p)) == p
    ensures Pack(p) < 0x1_0000_0000_0000_0000
  {
    FlagsRoundTrip(p.flags);
    hide FlagBits, BitsFlags;
    assert Pack(p) / 1024 == p.ppn && Pack(p) % 1024 == FlagBits(p.flags);
  }

  /** The weight of a bit if it is set. */
  function On(b: bool, weight: nat): nat {
    if b then weight else 0
  }

  /** Every bit of a packed entry is where section 4.4.1 of the privileged architecture has it: V, R, W, X, U, G, A and
      D from bit 0 on, the two bits left to software after them, and the frame number from bit 10 on. */
  lemma PackBits(p: Pte)
    ensures var f := p.flags;
            Pack(p) == 1024 * p.ppn + On(f.valid, 1) + On(f.read, 2) + On(f.write, 4) + On(f.exec, 8) + On(f.user, 16)
                       + On(f.global, 32) + On(f.accessed, 64) + On(f.dirty, 128) + On(f.cow, 256) + On(f.lazy, 512)
  {
    hide FlagBits, On;
    FlagSum(p.flags);
  }

  lemma FlagSum(f: Flags)
    ensures FlagBits(f) == On(f.valid, 1) + On(f.read, 2) + On(f.write, 4) + On(f.exec, 8) + On(f.user, 16)
                           + On(f.global, 32) + On(f.accessed, 64) + On(f.dirty, 128) + On(f.cow, 256)
                           + On(f.lazy, 512)
  {
    hide On, Cons;
    var n9 := Cons(f.lazy, 0);
    var n5 := Cons(f.global, Cons(f.accessed, Cons(f.dirty, Cons(f.cow, n9))));
    Weighs(f.lazy, 0, 512);
    Weighs(f.cow, n9, 256);
    Weighs(f.dirty, Cons(f.cow, n9), 128);
    Weighs(f.accessed, Cons(f.dirty, Cons(f.cow, n9)), 64);
    Weighs(f.global, Cons(f.accessed, Cons(f.dirty, Cons(f.cow, n9))), 32);
    Weighs(f.user, n5, 16);
    Weighs(f.exec, Cons(f.user, n5), 8);
    Weighs(f.write, Cons(f.exec, Cons(f.user, n5)), 4);
    Weighs(f.read, Cons(f.write, Cons(f.exec, Cons(f.user, n5))), 2);
    Weighs(f.valid, Cons(f.read, Cons(f.write, Cons(f.exec, Cons(f.user, n5)))), 1);
  }

  /** A bit put below `rest`, at that weight. */
  lemma Weighs(b: bool, rest: nat, weight: nat)
    ensures weight * Cons(b, rest) == On(b, weight) + 2 * weight * rest
  {
  }

  /** And each is read from there, whatever the entry holds. */
  lemma UnpackBits(raw: nat)
    ensures var p := Unpack(raw);
            && p.ppn == raw / 1024 % 0x1000_0000_0000
            && (p.flags.valid <==> raw % 2 == 1) && (p.flags.read <==> raw / 2 % 2 == 1)
            && (p.flags.write <==> raw / 4 % 2 == 1) && (p.flags.exec <==> raw / 8 % 2 == 1)
            && (p.flags.user <==> raw / 16 % 2 == 1) && (p.flags.global <==> raw / 32 % 2 == 1)
            && (p.flags.accessed <==> raw / 64 % 2 == 1) && (p.flags.dirty <==> raw / 128 % 2 == 1)
            && (p.flags.cow <==> raw / 256 % 2 == 1) && (p.flags.lazy <==> raw / 512 % 2 == 1)
  {
    var low := raw % 1024;
    LowBit(raw, 1, 512);
    Halved(low, 1);
    LowBit(raw, 2, 256);
    Halved(low, 2);
    LowBit(raw, 4, 128);
    Halved(low, 4);
    LowBit(raw, 8, 64);
    Halved(low, 8);
    LowBit(raw, 16, 32);
    Halved(low, 16);
    LowBit(raw, 32, 16);
    Halved(low, 32);
    LowBit(raw, 64, 8);
    Halved(low, 64);
    LowBit(raw, 128, 4);
    Halved(low, 128);
    LowBit(raw, 256, 2);
    Halved(low, 256);
    LowBit(raw, 512, 1);
  }

  /** A bit below bit 10 is in the low ten bits. */
  lemma LowBit(raw: nat, w: nat, m: nat)
    requires w > 0 && w * (2 * m) == 1024
    ensures raw % 1024 / w % 2 == raw / w % 2
  {
    var q, low := raw / 1024, raw % 1024;
    assert raw == (q * (2 * m) + low / w) * w + low % w by {
      assert low == low / w * w + low % w;
      assert q * (2 * m) * w == q * 1024;
    }
    Dyadic.DivisionUnique(raw, w, q * (2 * m) + low / w, low % w);
    assert q * (2 * m) == 2 * (q * m);
  }

  lemma Halved(n: nat, w: nat)
    requires w > 0
    ensures n / w / 2 == n / (2 * w)
  {
    var q, r := n / w / 2, n / w % 2;
    assert n == q * (2 * w) + (r * w + n % w) by {
      assert n == n / w * w + n % w;
      assert n / w == 2 * q + r;
      assert (2 * q + r) * w == q * (2 * w) + r * w;
    }
    assert r * w + n % w < 2 * w;
    Dyadic.DivisionUnique(n, 2 * w, q, r * w + n % w);
  }

  /** What mapping a page writes: the rights asked for, with the page valid, accessed and dirty. */
  lemma PresentBits(ppn: nat, f: Flags)
    ensures Pack(Pte(ppn, Present(f))) ==
            1024 * ppn + 0xc1 + On(f.read, 2) + On(f.write, 4) + On(f.exec, 8) + On(f.user, 16) + On(f.global, 32)
            + On(f.cow, 256) + On(f.lazy, 512)
  {
    PackBits(Pte(ppn, Present(f)));
    hide Pack;
  }

  // ---- page numbers ------------------------------------------------------------------

  /** Pages of the lower and upper halves: bits 51:26 of the page number all equal. */
  predicate Canonical(v: nat) {
    v < 0x400_0000 || 0xf_ffff_fc00_0000 <= v < 0x10_0000_0000_0000
  }

  predicate UserPage(v: nat) {
    v < 0x400_0000
  }

  /** The index of `v` into the table at `level`, the root being level 0. */
  function Index(v: nat, level: nat): (r: nat)
    ensures r < PTE_PER_TABLE
  {
    if level == 0 then v / 512 / 512 % 512
    else if level == 1 then v / 512 % 512
    else v % 512
  }

  /** Pages covered by a leaf at `level`. */
  function LeafPages(level: nat): nat {
    if level == 0 then 0x4_0000 else if level == 1 then 512 else 1
  }

  /** Among canonical pages the three indices determine the page. */
  lemma IndicesInjective(v: nat, w: nat)
    requires Canonical(v) && Canonical(w)
    requires forall l | 0 <= l < SV39_LEVELS :: Index(v, l) == Index(w, l)
    ensures v == w
  {
    assert Index(v, 0) == Index(w, 0) && Index(v, 1) == Index(w, 1) && Index(v, 2) == Index(w, 2);
    Digits(v);
    Digits(w);
  }

  lemma Digits(v: nat)
    ensures v == ((v / 512 / 512 / 512 * 512 + Index(v, 0)) * 512 + Index(v, 1)) * 512 + Index(v, 2)
    ensures Canonical(v) ==>
              if Index(v, 0) < UPPER_HALF then v / 512 / 512 / 512 == 0 else v / 512 / 512 / 512 == 0x1ff_ffff
  {
  }

  lemma UserIndices(v: nat)
    requires Canonical(v)
    ensures UserPage(v) <==> Index(v, 0) < UPPER_HALF
  {
  }

  // ---- memory and the walks -------------------------------------------------------------

  type Table = t: seq<Pte> | |t| == PTE_PER_TABLE witness seq(PTE_PER_TABLE, _ => EMPTY)
  /** The frames of the machine, read as page tables. */
  type Tables = map<nat, Table>

  function ZeroTable(): (t: Table)
    ensures forall i | 0 <= i < PTE_PER_TABLE :: t[i] == EMPTY
  {
    seq(PTE_PER_TABLE, _ => EMPTY)
  }

  /** The user half of one table and the kernel half of another. */
  function JoinTables(a: Table, b: Table): (r: Table)
    ensures forall i: nat | i < PTE_PER_TABLE :: r[i] == if i < UPPER_HALF then a[i] else b[i]
  {
    a[..UPPER_HALF] + b[UPPER_HALF..]
  }

  datatype Mapping = Mapping(frame: nat, flags: Flags)

  /** The translation process of section 4.3.2 of the RISC-V privileged architecture, from the table in frame `a`
      at `level` down. */
  function HwFrom(tables: Tables, a: nat, v: nat, level: nat): Option<Mapping>
    requires level < SV39_LEVELS
    decreases SV39_LEVELS - level
  {
    if a !in tables then None
    else
      var pte := tables[a][Index(v, level)];
      if !pte.flags.valid || (!pte.flags.read && pte.flags.write) then None
      else if pte.flags.read || pte.flags.exec then
        if pte.ppn % LeafPages(level) != 0 then None
        else Some(Mapping(pte.ppn + v % LeafPages(level), pte.flags))
      else if level + 1 == SV39_LEVELS then None
      else HwFrom(tables, pte.ppn, v, level + 1)
  }

  function HwWalk(tables: Tables, root: nat, v: nat): Option<Mapping> {
    if Canonical(v) then HwFrom(tables, root, v, 0) else None
  }

  /** The kernel's own walk (`walk_ptr`): the bottom entry for `v`, giving up at a superpage. */
  function SlotFrom(tables: Tables, a: nat, v: nat, level: nat): Option<Pte>
    requires level < SV39_LEVELS
    decreases SV39_LEVELS - level
  {
    if a !in tables then None
    else
      var pte := tables[a][Index(v, level)];
      if level + 1 == SV39_LEVELS then Some(pte)
      else if !pte.flags.valid || pte.IsLeaf() then None
      else SlotFrom(tables, pte.ppn, v, level + 1)
  }

  function Translate(tables: Tables, root: nat, v: nat): Option<Pte> {
    var slot := SlotFrom(tables, root, v, 0);
    if slot.Some? && slot.value.flags.valid then slot else None
  }

  // ---- entries along a walk ---------------------------------------------------------------

  /** The entry a walk for `v` reads at `level`, if pointers lead it that far. */
  function EntryAt(tables: Tables, root: nat, v: nat, level: nat): Option<Pte>
    requires level < SV39_LEVELS
  {
    if level == 0 then
      if root in tables then Some(tables[root][Index(v, 0)]) else None
    else
      var above := EntryAt(tables, root, v, level - 1);
      if above.Some? && above.value.IsPointer() && above.value.ppn in tables
      then Some(tables[above.value.ppn][Index(v, level)])
      else None
  }

  /** The two walks read nothing but the entries on the way. */
  lemma WalksReadEntries(tables: Tables, tables': Tables, root: nat, v: nat)
    requires forall l | 0 <= l < SV39_LEVELS :: EntryAt(tables', root, v, l) == EntryAt(tables, root, v, l)
    ensures HwWalk(tables', root, v) == HwWalk(tables, root, v)
    ensures Translate(tables', root, v) == Translate(tables, root, v)
  {
    assert EntryAt(tables', root, v, 0) == EntryAt(tables, root, v, 0);
    assert EntryAt(tables', root, v, 1) == EntryAt(tables, root, v, 1);
    assert EntryAt(tables', root, v, 2) == EntryAt(tables, root, v, 2);
    HwByEntries(tables, root, v);
    HwByEntries(tables', root, v);
    SlotByEntries(tables, root, v);
    SlotByEntries(tables', root, v);
  }

  /** What the hardware makes of a leaf entry for `v` at `level`. */
  function LeafMapping(pte: Pte, v: nat, level: nat): Option<Mapping> {
    if !pte.flags.read && pte.flags.write then None
    else if pte.ppn % LeafPages(level) != 0 then None
    else Some(Mapping(pte.ppn + v % LeafPages(level), pte.flags))
  }

  function HwOf(e0: Option<Pte>, e1: Option<Pte>, e2: Option<Pte>, v: nat): Option<Mapping> {
    if e0.None? || !e0.value.flags.valid then None
    else if e0.value.IsLeaf() then LeafMapping(e0.value, v, 0)
    else if e1.None? || !e1.value.flags.valid then None
    else if e1.value.IsLeaf() then LeafMapping(e1.value, v, 1)
    else if e2.None? || !e2.value.IsLeaf() then None
    else LeafMapping(e2.value, v, 2)
  }

  lemma HwByEntries(tables: Tables, root: nat, v: nat)
    ensures HwWalk(tables, root, v) ==
            if Canonical(v)
            then HwOf(EntryAt(tables, root, v, 0), EntryAt(tables, root, v, 1), EntryAt(tables, root, v, 2), v)
            else None
  {
    var e0, e1, e2 := EntryAt(tables, root, v, 0), EntryAt(tables, root, v, 1), EntryAt(tables, root, v, 2);
    if Canonical(v) && e0.Some? && e0.value.IsPointer() {
      assert HwWalk(tables, root, v) == HwFrom(tables, e0.value.ppn, v, 1);
      if e1.Some? && e1.value.IsPointer() {
        assert HwFrom(tables, e0.value.ppn, v, 1) == HwFrom(tables, e1.value.ppn, v, 2);
      }
    }
  }

  lemma SlotByEntries(tables: Tables, root: nat, v: nat)
    ensures Translate(tables, root, v) ==
            var e2 := EntryAt(tables, root, v, 2);
            if e2.Some? && e2.value.flags.valid then e2 else None
  {
    var e0, e1 := EntryAt(tables, root, v, 0), EntryAt(tables, root, v, 1);
    if e0.Some? && e0.value.IsPointer() {
      assert SlotFrom(tables, root, v, 0) == SlotFrom(tables, e0.value.ppn, v, 1);
      if e1.Some? && e1.value.IsPointer() {
        assert SlotFrom(tables, e0.value.ppn, v, 1) == SlotFrom(tables, e1.value.ppn, v, 2);
      }
    }
  }

  // ---- the tree of owned tables ----------------------------------------------------------------

  /** A position in the tree of tables: the root, or a chain of indices down from it. */
  datatype Path = Root | Mid(i: nat) | Low(i: nat, j: nat)

  function PathTo(v: nat, level: nat): Path {
    if level == 0 then Root else if level == 1 then Mid(Index(v, 0)) else Low(Index(v, 0), Index(v, 1))
  }

  /** `node` places each owned table at one position; pointers in owned tables are exactly the edges of this
      tree, except in the root entries from `lim` on, which belong to someone else. */
  ghost predicate TreeOk(tables: Tables, node: map<Path, nat>, lim: nat) {
    && Root in node
    && (forall p | p in node :: node[p] in tables)
    && (forall p, q | p in node && q in node && node[p] == node[q] :: p == q)
    && (forall i: nat | i < lim && i < PTE_PER_TABLE :: EdgeOk(tables[node[Root]][i], node, Mid(i)))
    && (forall i: nat | Mid(i) in node :: i < lim && i < PTE_PER_TABLE)
    && (forall i: nat, j: nat | Low(i, j) in node :: Mid(i) in node && j < PTE_PER_TABLE)
    && (forall i: nat, j: nat | Mid(i) in node && j < PTE_PER_TABLE :: EdgeOk(tables[node[Mid(i)]][j], node, Low(i, j)))
  }

  /** A pointer entry leads to the table at `child`; any other entry means there is none there. */
  predicate EdgeOk(pte: Pte, node: map<Path, nat>, child: Path) {
    if pte.IsPointer() then child in node && node[child] == pte.ppn else child !in node
  }
}
