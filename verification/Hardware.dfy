/** The translation of section 4.3.2 of the RISC-V privileged architecture on the bytes of physical memory: eight bytes
    for an entry, least significant first, and each field by its bit numbers. The walks over decoded tables are this
    one. */
module Hardware {
  import opened Prelude
  import opened LittleEndian
  import opened Sv39
  import opened Memory

  /** The doubleword at byte `8 * i` of a frame. */
  function Doubleword(page: Page, i: nat): nat
    requires i < 512
  {
    var d: seq<nat> := page[8 * i..8 * i + 8];
    d[0] + 0x100 * d[1] + 0x1_0000 * d[2] + 0x100_0000 * d[3] + 0x1_0000_0000 * d[4] + 0x100_0000_0000 * d[5]
    + 0x1_0000_0000_0000 * d[6] + 0x100_0000_0000_0000 * d[7]
  }

  /** `va.vpn[i]` of page `v` */
  function Vpn(v: nat, i: nat): (r: nat)
    ensures r < 512
  {
    if i == 2 then v / 0x4_0000 % 512 else if i == 1 then v / 512 % 512 else v % 512
  }

  /** Steps 2 to 5, for the table in frame `a`: the frame found and the low ten bits of its entry. */
  function RawFrom(bytes: Bytes, a: nat, v: nat, i: nat): Option<(nat, nat)>
    requires i < 3
    decreases i
  {
    if a !in bytes then None
    else
      var pte := Doubleword(bytes[a], Vpn(v, i));
      var ppn := pte / 1024 % 0x1000_0000_0000;
      if pte % 2 == 0 || (pte / 2 % 2 == 0 && pte / 4 % 2 == 1) then None
      else if pte / 2 % 2 == 1 || pte / 8 % 2 == 1 then
        var pages := if i == 2 then 0x4_0000 else if i == 1 then 512 else 1;
        if ppn % pages != 0 then None else Some((ppn + v % pages, pte % 1024))
      else if i == 0 then None
      else RawFrom(bytes, ppn, v, i - 1)
  }

  /** The whole walk, for a page number of 52 bits: the upper 26 bits must all be equal. */
  function RawWalk(bytes: Bytes, root: nat, v: nat): Option<(nat, nat)> {
    if v < 0x400_0000 || 0xf_ffff_fc00_0000 <= v < 0x10_0000_0000_0000 then RawFrom(bytes, root, v, 2) else None
  }

  /** The flags of an entry are these ten bits. */
  predicate FlagsAre(f: Flags, bits: nat) {
    && (f.valid <==> bits % 2 == 1) && (f.read <==> bits / 2 % 2 == 1) && (f.write <==> bits / 4 % 2 == 1)
    && (f.exec <==> bits / 8 % 2 == 1) && (f.user <==> bits / 16 % 2 == 1) && (f.global <==> bits / 32 % 2 == 1)
    && (f.accessed <==> bits / 64 % 2 == 1) && (f.dirty <==> bits / 128 % 2 == 1)
    && (f.cow <==> bits / 256 % 2 == 1) && (f.lazy <==> bits / 512 % 2 == 1)
  }

  /** The two walks end the same way. */
  predicate SameEnd(m: Option<Mapping>, raw: Option<(nat, nat)>) {
    && (m.Some? <==> raw.Some?)
    && (m.Some? ==> m.value.frame == raw.value.0 && FlagsAre(m.value.flags, raw.value.1))
  }

  /** Entry `i` of the table in a frame, as decoded and as it lies there. */
  lemma EntryBits(page: Page, i: nat)
    requires i < 512
    ensures var raw, pte := Doubleword(page, i), EntryOf(page, i);
            && pte.ppn == raw / 1024 % 0x1000_0000_0000 && FlagsAre(pte.flags, raw) && FlagsAre(pte.flags, raw % 1024)
  {
    hide Unpack, FromLe;
    LittleEndianWords(page[8 * i..8 * i + 8]);
    UnpackBits(Doubleword(page, i));
    LowBits(Doubleword(page, i));
  }

  lemma LowBits(raw: nat)
    ensures var low := raw % 1024;
            && low % 2 == raw % 2 && low / 2 % 2 == raw / 2 % 2 && low / 4 % 2 == raw / 4 % 2
            && low / 8 % 2 == raw / 8 % 2 && low / 16 % 2 == raw / 16 % 2 && low / 32 % 2 == raw / 32 % 2
            && low / 64 % 2 == raw / 64 % 2 && low / 128 % 2 == raw / 128 % 2 && low / 256 % 2 == raw / 256 % 2
            && low / 512 % 2 == raw / 512 % 2
  {
    LowBit(raw, 1, 512);
    LowBit(raw, 2, 256);
    LowBit(raw, 4, 128);
    LowBit(raw, 8, 64);
    LowBit(raw, 16, 32);
    LowBit(raw, 32, 16);
    LowBit(raw, 64, 8);
    LowBit(raw, 128, 4);
    LowBit(raw, 256, 2);
    LowBit(raw, 512, 1);
  }

  lemma {:induction false} RawSteps(bytes: Bytes, a: nat, v: nat, i: nat)
    requires i < 3
    ensures SameEnd(HwFrom(Decoded(bytes), a, v, 2 - i), RawFrom(bytes, a, v, i))
    decreases i
  {
    hide EntryOf, Doubleword, Decode;
    if a in bytes {
      SameIndex(v, i);
      EntryBits(bytes[a], Vpn(v, i));
      var pte := EntryOf(bytes[a], Vpn(v, i));
      assert Decoded(bytes)[a][Index(v, 2 - i)] == pte;
      if i > 0 { RawSteps(bytes, pte.ppn, v, i - 1); }
    }
  }

  lemma SameIndex(v: nat, i: nat)
    requires i < 3
    ensures Index(v, 2 - i) == Vpn(v, i) && LeafPages(2 - i) == if i == 2 then 0x4_0000 else if i == 1 then 512 else 1
  {
  }

  /** The hardware's walk over decoded tables is the walk over the bytes. */
  lemma WalkIsRaw(bytes: Bytes, root: nat, v: nat)
    ensures SameEnd(HwWalk(Decoded(bytes), root, v), RawWalk(bytes, root, v))
  {
    hide HwFrom, RawFrom;
    RawSteps(bytes, root, v, 2);
  }

  /** Ten bits are determined by the flags they are. */
  lemma FlagsDecide(f: Flags, bits: nat)
    requires FlagsAre(f, bits) && bits < 1024
    ensures bits == On(f.valid, 1) + On(f.read, 2) + On(f.write, 4) + On(f.exec, 8) + On(f.user, 16) + On(f.global, 32)
                    + On(f.accessed, 64) + On(f.dirty, 128) + On(f.cow, 256) + On(f.lazy, 512)
  {
    hide On, FlagsAre, Above;
    BitsApart(f, bits);
    AllAbove(bits);
  }

  function Above(bits: nat, weight: nat): nat
    requires weight > 0
  {
    bits / weight
  }

  lemma AllAbove(bits: nat)
    requires bits < 1024
    ensures Above(bits, 1) == bits && Above(bits, 1024) == 0
  {
  }

  lemma BitsApart(f: Flags, bits: nat)
    requires FlagsAre(f, bits)
    ensures Above(bits, 1) == On(f.valid, 1) + 2 * Above(bits, 2)
    ensures 2 * Above(bits, 2) == On(f.read, 2) + 4 * Above(bits, 4)
    ensures 4 * Above(bits, 4) == On(f.write, 4) + 8 * Above(bits, 8)
    ensures 8 * Above(bits, 8) == On(f.exec, 8) + 16 * Above(bits, 16)
    ensures 16 * Above(bits, 16) == On(f.user, 16) + 32 * Above(bits, 32)
    ensures 32 * Above(bits, 32) == On(f.global, 32) + 64 * Above(bits, 64)
    ensures 64 * Above(bits, 64) == On(f.accessed, 64) + 128 * Above(bits, 128)
    ensures 128 * Above(bits, 128) == On(f.dirty, 128) + 256 * Above(bits, 256)
    ensures 256 * Above(bits, 256) == On(f.cow, 256) + 512 * Above(bits, 512)
    ensures 512 * Above(bits, 512) == On(f.lazy, 512) + 1024 * Above(bits, 1024)
  {
    hide On, Above;
    BitOf(f.valid, bits, 1);
    BitOf(f.read, bits, 2);
    BitOf(f.write, bits, 4);
    BitOf(f.exec, bits, 8);
    BitOf(f.user, bits, 16);
    BitOf(f.global, bits, 32);
    BitOf(f.accessed, bits, 64);
    BitOf(f.dirty, bits, 128);
    BitOf(f.cow, bits, 256);
    BitOf(f.lazy, bits, 512);
  }

  /** The bit of that weight, and what is above it. */
  lemma BitOf(b: bool, bits: nat, weight: nat)
    requires weight > 0 && (b <==> bits / weight % 2 == 1)
    ensures weight * Above(bits, weight) == On(b, weight) + 2 * weight * Above(bits, 2 * weight)
  {
    Halved(bits, weight);
    var n := bits / weight;
    assert n == 2 * (n / 2) + n % 2;
    assert weight * n == 2 * weight * (n / 2) + weight * (n % 2);
  }

  /** A page the hardware reaches through a present entry with these rights: what it finds in memory. */
  lemma MappedIsRaw(bytes: Bytes, root: nat, v: nat, ppn: nat, f: Flags)
    requires HwWalk(Decoded(bytes), root, v) == Some(Mapping(ppn, Present(f)))
    ensures RawWalk(bytes, root, v) == Some((ppn, PresentWord(f)))
  {
    hide HwWalk, HwFrom, RawFrom, FlagsAre, On;
    WalkIsRaw(bytes, root, v);
    RawBits(bytes, root, v, 2);
    FlagsDecide(Present(f), RawWalk(bytes, root, v).value.1);
    assert On(true, 1) == 1 && On(true, 64) == 64 && On(true, 128) == 128 by { Set(1); Set(64); Set(128); }
  }

  lemma Set(weight: nat)
    ensures On(true, weight) == weight
  {
  }

  /** The low ten bits of the entry of a page with these rights: valid, accessed and dirty, and each right at its
      place. */
  function PresentWord(f: Flags): nat {
    0xc1 + On(f.read, 2) + On(f.write, 4) + On(f.exec, 8) + On(f.user, 16) + On(f.global, 32) + On(f.cow, 256)
    + On(f.lazy, 512)
  }

  lemma {:induction false} RawBits(bytes: Bytes, a: nat, v: nat, i: nat)
    requires i < 3
    ensures RawFrom(bytes, a, v, i).Some? ==> RawFrom(bytes, a, v, i).value.1 < 1024
    decreases i
  {
    hide Doubleword;
    if a in bytes && i > 0 { RawBits(bytes, Doubleword(bytes[a], Vpn(v, i)) / 1024 % 0x1000_0000_0000, v, i - 1); }
  }
}
