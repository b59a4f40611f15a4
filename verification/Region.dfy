/** Physical pages and the regions of an address space that are made of them
    (kernel/mem/physical_page.hh, kernel/mem/region.hh). */
module Regions {

  const KIB: nat := 1024
  const MIB: nat := 1024 * KIB
  const GIB: nat := 1024 * MIB

  datatype PageSize = Normal | Large | Huge

  function Bytes(s: PageSize): (n: nat)
    ensures n > 0
  {
    match s
    case Normal => 4 * KIB
    case Large => 2 * MIB
    case Huge => GIB
  }

  datatype Page = Page(phys: nat, size: PageSize, owned: bool)

  datatype Access = Access(writable: bool, executable: bool, user: bool, uncacheable: bool, isGlobal: bool)

  /** A region: a fixed virtual range, its access rights, the pages of its VM object (none until one
      is mapped) and the links of the intrusive tree it is kept in. */
  class Region {
    const base: nat
    const size: nat
    const access: Access
    var pages: seq<Page>
    var parent: Region?
    var left: Region?
    var right: Region?

    constructor (base: nat, size: nat, access: Access)
      ensures this.base == base && this.size == size && this.access == access
      ensures pages == []
      ensures parent == null && left == null && right == null
    {
      this.base, this.size, this.access := base, size, access;
      pages := [];
      parent, left, right := null, null, null;
    }

    function End(): nat { base + size }
  }
}
