/** What every part of the kernel shares: optional values, machine words, the page size and the direct map. */
module Prelude {

  datatype Option<+T> = None | Some(value: T)

  predicate Distinct(s: seq<nat>) {
    forall i, j | 0 <= i < j < |s| :: s[i] != s[j]
  }

  /** A `usize`; assigning to a variable of this type is the claim that the arithmetic does not overflow. */
  type Word = n: nat | n < 0x1_0000_0000_0000_0000

  type Byte = b: nat | b < 256

  const PAGE_SIZE: nat := 4096

  /** `VIRT_OFFSET >> PAGE_SHIFT`: frame `ppn` is page `OFFSET_PAGES + ppn` of the direct map. */
  const OFFSET_PAGES: nat := 0xf_ffff_fc00_0000
}
