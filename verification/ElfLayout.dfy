/** The ELF64 structures as the System V gABI lays them out, field after field, and that the loader reads every field
    from where it is: chapter 4 (ELF Header) and chapter 5 (Program Header). */
module ElfLayout {
  import opened Prelude
  import opened Sv39
  import opened LittleEndian
  import opened Loader

  datatype ProgramHeader = ProgramHeader(pType: nat, pFlags: nat, pOffset: nat, pVaddr: nat, pPaddr: nat,
                                         pFilesz: nat, pMemsz: nat, pAlign: nat)

  predicate WordsFit(h: ProgramHeader) {
    && h.pType < Pow256(4) && h.pFlags < Pow256(4)
    && h.pOffset < Pow256(8) && h.pVaddr < Pow256(8) && h.pFilesz < Pow256(8) && h.pMemsz < Pow256(8)
  }

  /** `Elf64_Phdr` */
  function PhdrBytes(h: ProgramHeader): (s: seq<Byte>)
    ensures |s| == 56
  {
    ToLe(h.pType, 4) + ToLe(h.pFlags, 4) + ToLe(h.pOffset, 8) + ToLe(h.pVaddr, 8) + ToLe(h.pPaddr, 8)
    + ToLe(h.pFilesz, 8) + ToLe(h.pMemsz, 8) + ToLe(h.pAlign, 8)
  }

  lemma PhdrFields(h: ProgramHeader)
    ensures var s := PhdrBytes(h);
            && s[0..4] == ToLe(h.pType, 4) && s[4..8] == ToLe(h.pFlags, 4) && s[8..16] == ToLe(h.pOffset, 8)
            && s[16..24] == ToLe(h.pVaddr, 8) && s[32..40] == ToLe(h.pFilesz, 8) && s[40..48] == ToLe(h.pMemsz, 8)
  {
    hide ToLe;
  }

  /** The fields of the file header the loader looks at, with the bytes between them left open. */
  datatype FileHeader = FileHeader(ident: seq<Byte>, eType: nat, eMachine: nat, eVersion: nat, eEntry: nat, ePhoff: nat,
                                   eShoff: nat, eFlags: nat, eEhsize: nat, ePhentsize: nat, ePhnum: nat,
                                   eShentsize: nat, eShnum: nat, eShstrndx: nat)

  predicate FileFits(h: FileHeader) {
    && |h.ident| == 16 && h.eType < Pow256(2) && h.eMachine < Pow256(2) && h.eEntry < Pow256(8) && h.ePhoff < Pow256(8)
    && h.ePhentsize < Pow256(2) && h.ePhnum < Pow256(2)
  }

  /** `Elf64_Ehdr` */
  function EhdrBytes(h: FileHeader): (s: seq<Byte>)
    requires |h.ident| == 16
    ensures |s| == 64
  {
    h.ident + ToLe(h.eType, 2) + ToLe(h.eMachine, 2) + ToLe(h.eVersion, 4) + ToLe(h.eEntry, 8) + ToLe(h.ePhoff, 8)
        + ToLe(h.eShoff, 8)
    + ToLe(h.eFlags, 4) + ToLe(h.eEhsize, 2) + ToLe(h.ePhentsize, 2) + ToLe(h.ePhnum, 2)
    + ToLe(h.eShentsize, 2) + ToLe(h.eShnum, 2) + ToLe(h.eShstrndx, 2)
  }

  lemma EhdrFields(h: FileHeader)
    requires |h.ident| == 16
    ensures var s := EhdrBytes(h);
            && s[0..16] == h.ident && s[16..18] == ToLe(h.eType, 2) && s[18..20] == ToLe(h.eMachine, 2)
            && s[24..32] == ToLe(h.eEntry, 8)
            && s[32..40] == ToLe(h.ePhoff, 8) && s[54..56] == ToLe(h.ePhentsize, 2) && s[56..58] == ToLe(h.ePhnum, 2)
  {
    hide ToLe;
  }

  /** A field inside a structure that is in the file. */
  lemma FieldIn(image: seq<Byte>, at: nat, s: seq<Byte>, k: nat, v: nat, n: nat)
    requires at + |s| <= |image| && image[at..at + |s|] == s && k + n <= |s| && s[k..k + n] == ToLe(v, n)
    requires v < Pow256(n)
    ensures Field(image, at + k, n) == v
  {
    hide ToLe, FromLe, Pow256;
    var p, q := image[at + k..at + k + n], s[k..k + n];
    forall j | 0 <= j < n ensures p[j] == q[j] {
      assert image[at..at + |s|][k + j] == s[k + j];
    }
    assert p == q;
    LeRoundTrip(v, n);
  }

  /** What a program header means: not loadable, not acceptable, or a segment of bytes of the file. */
  function Meaning(image: seq<Byte>, h: ProgramHeader): Result<Option<Segment>> {
    if h.pType != 1 then Ok(None)
    else if h.pFilesz > h.pMemsz then Err(BadSegment)
    else if h.pVaddr < 0x1000 || h.pVaddr + h.pMemsz > 0x40_0000_0000 then Err(BadAddress)
    else if h.pOffset + h.pFilesz > |image| then Err(Truncated)
    else Ok(Some(Segment(h.pVaddr, h.pMemsz, image[h.pOffset..h.pOffset + h.pFilesz], UserRights(h.pFlags))))
  }

  /** A user page that can be executed if bit 0 is set, written if bit 1 is and read if bit 2 is, and no other flag. */
  function UserRights(pFlags: nat): Flags {
    Flags(false, pFlags / 4 % 2 == 1, pFlags / 2 % 2 == 1, pFlags % 2 == 1, true, false, false, false, false, false)
  }

  lemma PermIsRights(pFlags: nat)
    ensures SegmentPerm(pFlags) == UserRights(pFlags)
  {
    assert pFlags / 1 == pFlags;
  }

  /** Wherever a program header lies in a file, the loader reads it as the structure says. */
  lemma PhdrRead(image: seq<Byte>, at: nat, h: ProgramHeader)
    requires WordsFit(h) && at + 56 <= |image| && image[at..at + 56] == PhdrBytes(h)
    ensures SegmentAt(image, at) == Meaning(image, h)
  {
    hide ToLe, Field, PhdrBytes, Pow256, SegmentPerm, UserRights;
    PermIsRights(h.pFlags);
    var s := PhdrBytes(h);
    PhdrFields(h);
    FieldIn(image, at, s, 0, h.pType, 4);
    FieldIn(image, at, s, 4, h.pFlags, 4);
    FieldIn(image, at, s, 8, h.pOffset, 8);
    FieldIn(image, at, s, 16, h.pVaddr, 8);
    FieldIn(image, at, s, 32, h.pFilesz, 8);
    FieldIn(image, at, s, 40, h.pMemsz, 8);
  }

  /** A file that starts with a file header is accepted exactly if the header says ELF, 64 bits, little-endian,
      executable and RISC-V, and then the loader has its entry point and its table of program headers. */
  lemma EhdrRead(image: seq<Byte>, h: FileHeader)
    requires FileFits(h) && |image| >= 64 && image[0..64] == EhdrBytes(h)
    ensures var ok := h.ident[..4] == [0x7f, 0x45, 0x4c, 0x46] && h.ident[4] == 2 && h.ident[5] == 1
                      && h.eType == 2 && h.eMachine == 243;
            && (ParseHeader(image).Ok? <==> ok)
            && (ok ==> ParseHeader(image) == Ok(Header(h.eEntry, h.ePhoff, h.ePhentsize, h.ePhnum)))
  {
    hide ToLe, Field, EhdrBytes, Pow256;
    Widths();
    var s := EhdrBytes(h);
    EhdrFields(h);
    assert image[0..16] == image[0..64][0..16];
    assert image[0..4] == h.ident[..4] && image[4] == h.ident[4] && image[5] == h.ident[5];
    FieldIn(image, 0, s, 16, h.eType, 2);
    FieldIn(image, 0, s, 18, h.eMachine, 2);
    FieldIn(image, 0, s, 24, h.eEntry, 8);
    FieldIn(image, 0, s, 32, h.ePhoff, 8);
    FieldIn(image, 0, s, 54, h.ePhentsize, 2);
    FieldIn(image, 0, s, 56, h.ePhnum, 2);
  }

  // ---- the same on the bytes of the file ------------------------------------------------------------------

  function Half(image: seq<Byte>, at: nat): (r: nat)
    requires at + 2 <= |image|
    ensures r < 0x1_0000
  {
    var d: seq<nat> := image[at..at + 2];
    d[0] + 0x100 * d[1]
  }

  function Xword(image: seq<Byte>, at: nat): (r: nat)
    requires at + 8 <= |image|
    ensures r < 0x1_0000_0000_0000_0000
  {
    var d: seq<nat> := image[at..at + 8];
    d[0] + 0x100 * d[1] + 0x1_0000 * d[2] + 0x100_0000 * d[3] + 0x1_0000_0000 * d[4] + 0x100_0000_0000 * d[5]
    + 0x1_0000_0000_0000 * d[6] + 0x100_0000_0000_0000 * d[7]
  }

  lemma HalfField(image: seq<Byte>, at: nat)
    requires at + 2 <= |image|
    ensures Field(image, at, 2) == Half(image, at)
  {
    hide FromLe;
    LittleEndianWords(image[at..at + 2]);
  }

  lemma XwordField(image: seq<Byte>, at: nat)
    requires at + 8 <= |image|
    ensures Field(image, at, 8) == Xword(image, at)
  {
    hide FromLe;
    LittleEndianWords(image[at..at + 8]);
  }

  /** A field of four bytes: when it is 1, and its lowest bits. */
  lemma WordField(image: seq<Byte>, at: nat)
    requires at + 4 <= |image|
    ensures Field(image, at, 4) == 1 <==>
            image[at] == 1 && image[at + 1] == 0 && image[at + 2] == 0 && image[at + 3] == 0
    ensures UserRights(Field(image, at, 4)) == UserRights(image[at])
  {
    hide FromLe;
    var s := image[at..at + 4];
    LittleEndianWords(s);
    var d: seq<nat> := s;
    assert Field(image, at, 4) == d[0] + 256 * (d[1] + 0x100 * d[2] + 0x1_0000 * d[3]);
    LowRights(d[0], d[1] + 0x100 * d[2] + 0x1_0000 * d[3]);
  }

  lemma LowRights(b: nat, rest: nat)
    ensures UserRights(b + 256 * rest) == UserRights(b)
  {
    assert (b + 256 * rest) / 4 == b / 4 + 64 * rest && (b + 256 * rest) / 2 == b / 2 + 128 * rest;
  }

  /** What the loader makes of the first 64 bytes of a file, byte by byte. */
  lemma HeaderExact(image: seq<Byte>)
    ensures ParseHeader(image) ==
            if |image| < 64 then Err(Truncated)
            else if image[0] != 0x7f || image[1] != 0x45 || image[2] != 0x4c || image[3] != 0x46 then Err(BadMagic)
            else if image[4] != 2 || image[5] != 1 || image[16] != 2 || image[17] != 0
                    || image[18] != 0xf3 || image[19] != 0 then Err(WrongFormat)
            else Ok(Header(Xword(image, 24), Xword(image, 32), Half(image, 54), Half(image, 56)))
  {
    if |image| >= 64 {
      HalfField(image, 16);
      HalfField(image, 18);
      assert Half(image, 16) == 2 <==> image[16] == 2 && image[17] == 0;
      assert Half(image, 18) == 243 <==> image[18] == 0xf3 && image[19] == 0;
      hide Field, Xword, Half;
      XwordField(image, 24);
      XwordField(image, 32);
      HalfField(image, 54);
      HalfField(image, 56);
      assert image[0..4] == [0x7f, 0x45, 0x4c, 0x46] <==>
             image[0] == 0x7f && image[1] == 0x45 && image[2] == 0x4c && image[3] == 0x46;
    }
  }

  /** And of a program header, wherever it lies. */
  lemma SegmentExact(image: seq<Byte>, ph: nat)
    ensures SegmentAt(image, ph) ==
            if ph + 4 > |image| then Err(Truncated)
            else if image[ph] != 1 || image[ph + 1] != 0 || image[ph + 2] != 0 || image[ph + 3] != 0 then Ok(None)
            else if ph + 48 > |image| then Err(Truncated)
            else
              var offset, vaddr := Xword(image, ph + 8), Xword(image, ph + 16);
              var filesz, memsz := Xword(image, ph + 32), Xword(image, ph + 40);
              if filesz > memsz then Err(BadSegment)
              else if vaddr < 0x1000 || vaddr + memsz > 0x40_0000_0000 then Err(BadAddress)
              else if offset + filesz > |image| then Err(Truncated)
              else Ok(Some(Segment(vaddr, memsz, image[offset..offset + filesz], UserRights(image[ph + 4]))))
  {
    hide Field, Xword, SegmentPerm, UserRights;
    if ph + 4 <= |image| {
      WordField(image, ph);
      if ph + 48 <= |image| {
        XwordField(image, ph + 8);
        XwordField(image, ph + 16);
        XwordField(image, ph + 32);
        XwordField(image, ph + 40);
        WordField(image, ph + 4);
        PermIsRights(Field(image, ph + 4, 4));
      }
    }
  }

  /** `PF_X`, `PF_W` and `PF_R` are bits 0, 1 and 2; a page of the segment is a user page with just those rights. */
  lemma PermBits(x: bool, w: bool, r: bool, rest: nat)
    ensures SegmentPerm(Bit(x) + 2 * Bit(w) + 4 * Bit(r) + 8 * rest) ==
            Flags(false, r, w, x, true, false, false, false, false, false)
  {
    var p := Bit(x) + 2 * Bit(w) + 4 * Bit(r) + 8 * rest;
    assert p / 1 == p && p / 2 == Bit(w) + 2 * Bit(r) + 4 * rest && p / 4 == Bit(r) + 2 * rest;
  }

  /** The segments a table of program headers asks for, or what is wrong with the first bad one. */
  function MeaningAll(image: seq<Byte>, hs: seq<ProgramHeader>): Result<seq<Segment>> {
    if hs == [] then Ok([])
    else
      var first := Meaning(image, hs[0]);
      if first.Err? then Err(first.error)
      else
        var rest := MeaningAll(image, hs[1..]);
        if rest.Err? || first.value.None? then rest else Ok([first.value.value] + rest.value)
  }

  /** The table of program headers lies where the file header says, one entry every `ePhentsize` bytes. */
  ghost predicate TableIn(image: seq<Byte>, h: Header, hs: seq<ProgramHeader>) {
    |hs| == h.phnum && forall i | 0 <= i < |hs| ::
      && WordsFit(hs[i]) && h.phoff + i * h.phentsize + 56 <= |image|
      && image[h.phoff + i * h.phentsize..h.phoff + i * h.phentsize + 56] == PhdrBytes(hs[i])
  }

  /** The loader sees exactly the segments the table asks for, in order. */
  lemma {:induction false} TableRead(image: seq<Byte>, h: Header, hs: seq<ProgramHeader>, i: nat)
    requires TableIn(image, h, hs) && i <= |hs|
    ensures ParseFrom(image, h, i) == MeaningAll(image, hs[i..])
    decreases |hs| - i
  {
    hide WordsFit, Meaning, PhdrBytes, SegmentAt;
    if i < |hs| {
      PhdrRead(image, h.phoff + i * h.phentsize, hs[i]);
      TableRead(image, h, hs, i + 1);
      assert hs[i..][0] == hs[i] && hs[i..][1..] == hs[i + 1..];
    }
  }

  /** A whole file: what it asks for if its header and every program header are acceptable and one of them is loadable,
      and otherwise what is wrong with it. */
  lemma FileRead(image: seq<Byte>, h: FileHeader, hs: seq<ProgramHeader>)
    requires FileFits(h) && |image| >= 64 && image[0..64] == EhdrBytes(h) && h.eEntry < 0x1_0000_0000_0000_0000
    requires h.ident[..4] == [0x7f, 0x45, 0x4c, 0x46] && h.ident[4] == 2 && h.ident[5] == 1
    requires h.eType == 2 && h.eMachine == 243 && h.ePhoff < 0x1_0000_0000_0000_0000
    requires TableIn(image, Header(h.eEntry, h.ePhoff, h.ePhentsize, h.ePhnum), hs)
    ensures var all := MeaningAll(image, hs);
            Parse(image) ==
            if all.Err? then Err(all.error)
            else if all.value == [] then Err(BadSegment) else Ok((h.eEntry, all.value))
  {
    hide EhdrBytes, TableIn, MeaningAll, ParseFrom, ParseHeader;
    EhdrRead(image, h);
    TableRead(image, Header(h.eEntry, h.ePhoff, h.ePhentsize, h.ePhnum), hs, 0);
    assert hs[0..] == hs;
  }
}
