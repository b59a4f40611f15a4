/** The packed words of the memory code: page table entries (kernel/arch/paging.hh) and physical
    pages (kernel/mem/physical_page.hh). */
module PageEntry {
  import Tables = PageTables

  const PRESENT: bv64 := 1
  const WRITABLE: bv64 := 2
  const USER: bv64 := 4
  const CACHE_DISABLE: bv64 := 0x10
  const LARGE: bv64 := 0x80
  const GLOBAL: bv64 := 0x100
  const NO_EXECUTE: bv64 := 0x8000_0000_0000_0000
  const ADDRESS: bv64 := 0xf_ffff_ffff_f000   // the bits that entry() keeps
  const LOW_52: bv64 := 0xf_ffff_ffff_ffff    // the bits that the constructor keeps of the address
  const ALL_FLAGS: bv64 := 0x8000_0000_0000_019f

  function Pack(entry: bv64, flags: bv64): bv64 { (entry & LOW_52) | flags | PRESENT }

  predicate IsEmpty(raw: bv64) { raw == 0 }

  function Address(raw: bv64): bv64 { raw & ADDRESS }

  function FlagsOf(raw: bv64): bv64 { raw & 0xff }

  /** A stored entry is never mistaken for an empty one. */
  lemma PackedIsNotEmpty(entry: bv64, flags: bv64)
    ensures !IsEmpty(Pack(entry, flags))
  {
  }

  /** The address survives packing exactly when it is a 4 KiB multiple below 2^52 and no flag adds a
      bit to it. */
  lemma AddressSurvives(entry: bv64, flags: bv64)
    ensures Address(Pack(entry, flags)) == entry <==> entry & !ADDRESS == 0 && flags & ADDRESS & !entry == 0
  {
  }

  /** A large leaf and a link to a table can always be told apart: `unset` and `expect` look at the
      Large bit, which the address of a table never sets. */
  lemma LargeSurvives(entry: bv64, flags: bv64)
    requires entry & !ADDRESS == 0
    ensures FlagsOf(Pack(entry, flags)) & LARGE == LARGE <==> flags & LARGE == LARGE
    ensures FlagsOf(Pack(entry, WRITABLE | USER)) & LARGE != LARGE
  {
  }

  /** The flags read back are the ones stored exactly when none lies above bit 7: Global and
      NoExecute are in the entry but not in what flags() returns. */
  lemma FlagsSurvive(entry: bv64, flags: bv64)
    requires entry & !ADDRESS == 0
    ensures FlagsOf(Pack(entry, flags)) == flags | PRESENT <==> flags & !0xff == 0
    ensures flags & !ALL_FLAGS == 0 ==> Pack(entry, flags) & ALL_FLAGS == flags | PRESENT
  {
  }

  function When(b: bool, flag: bv64): bv64 { if b then flag else 0 }

  // The flags of a leaf as the bits of PageFlags.
  function FlagBits(f: Tables.Flags, large: bool): bv64 {
    When(f.writable, WRITABLE) | When(f.user, USER) | When(f.cacheDisable, CACHE_DISABLE)
    | When(f.isGlobal, GLOBAL) | When(f.noExecute, NO_EXECUTE) | When(large, LARGE)
  }

  predicate Bit(word: bv64, n: nat)
    requires n < 64
  {
    (word >> n) & 1 == 1
  }

  /** In the word that the processor reads each right has its own bit: present is bit 0, writable bit 1,
      user bit 2, cache disable bit 4, large bit 7, global bit 8 and no-execute bit 63. */
  lemma RightsAreBits(entry: bv64, f: Tables.Flags, large: bool)
    requires entry & !ADDRESS == 0
    ensures var word := Pack(entry, FlagBits(f, large));
      && Bit(word, 0) && Bit(word, 1) == f.writable && Bit(word, 2) == f.user && Bit(word, 4) == f.cacheDisable
      && Bit(word, 7) == large && Bit(word, 8) == f.isGlobal && Bit(word, 63) == f.noExecute
      && Address(word) == entry
  {
  }

  // ----- physical pages -----

  const PHYS_BITS: bv64 := 0xff_ffff_ffff_ffff
  const ALLOCATED: bv64 := 0x8000_0000_0000_0000

  function PackPage(phys: bv64, size: bv64, owned: bool): bv64
    requires size < 16
  {
    phys | (size << 56) | if owned then ALLOCATED else 0
  }

  function Phys(word: bv64): bv64 { word & PHYS_BITS }

  function Size(word: bv64): bv64 { (word >> 56) & 0xf }

  predicate IsAllocated(word: bv64) { word & ALLOCATED != 0 }

  lemma PhysSurvives(phys: bv64, size: bv64, owned: bool)
    requires size < 8 && phys & !PHYS_BITS == 0
    ensures Phys(PackPage(phys, size, owned)) == phys
  {
  }

  lemma SizeSurvives(phys: bv64, size: bv64, owned: bool)
    requires size < 8 && phys & !PHYS_BITS == 0
    ensures Size(PackPage(phys, size, owned)) == size
  {
  }

  lemma OwnershipSurvives(phys: bv64, size: bv64, owned: bool)
    requires size < 8 && phys & !PHYS_BITS == 0
    ensures IsAllocated(PackPage(phys, size, owned)) == owned
  {
  }

  /** All three parts survive packing for every address below 2^56 and every size. */
  lemma PagePartsSurvive(phys: bv64, size: bv64, owned: bool)
    requires size < 8 && phys & !PHYS_BITS == 0
    ensures var word := PackPage(phys, size, owned);
      Phys(word) == phys && Size(word) == size && IsAllocated(word) == owned
  {
    hide PackPage, Phys, Size, IsAllocated;
    PhysSurvives(phys, size, owned);
    SizeSurvives(phys, size, owned);
    OwnershipSurvives(phys, size, owned);
  }

  /** The word that a move leaves behind owns nothing, and no page that owns its frames looks like it. */
  lemma MovedFromOwnsNothing(phys: bv64, size: bv64, owned: bool)
    requires size < 8
    ensures !IsAllocated(0)
    ensures PackPage(phys, size, owned) == 0 <==> phys == 0 && size == 0 && !owned
  {
  }
}
