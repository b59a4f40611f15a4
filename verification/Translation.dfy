/** What an address in a mapped region translates to: the processor's walk through the page tables
    against AddressSpace::virt_to_phys (kernel/mem/address_space.cc). */
module Translation {
  import opened AddressSpaces
  import opened Arithmetic
  import opened Frames
  import opened PageTables
  import opened RegionPages
  import opened Regions
  import opened SplayTree
  import opened Sums
  import opened VmObjects

  // ----- the pages of a VM object fit the region that is allocated for it -----

  lemma {:induction false} OffsetsAgree(pages: seq<Page>, j: nat)
    requires j <= |pages|
    ensures PageOffset(pages, j) == Offset(SizesOf(pages), j)
  {
    if j > 0 {
      OffsetsAgree(pages, j - 1);
      OffsetNext(SizesOf(pages), j - 1);
    }
  }

  lemma {:induction false} OffsetOfAll(sizes: seq<PageSize>)
    ensures Offset(sizes, |sizes|) == Total(sizes)
  {
    if sizes != [] {
      OffsetOfAll(sizes[1..]);
    }
  }

  /** The pages of a VM object can be mapped at every multiple of the largest page, which is the
      alignment that the range allocator uses for the object's size. */
  lemma {:induction false} VmObjectMappable(base: nat, pages: seq<Page>, size: nat)
    requires size > 0 && size % FRAME == 0 && SizesOf(pages) == Greedy(size)
    requires forall j :: 0 <= j < |pages| ==> pages[j].phys % Bytes(pages[j].size) == 0
    requires base % Bytes(Largest(size)) == 0 && base + size <= LIMIT
    ensures Mappable(base, pages) && PageOffset(pages, |pages|) == size
  {
    hide Bytes, Greedy, Largest;
    PlacedAligned(size, base);
    GreedyCovers(size);
    OffsetsAgree(pages, |pages|);
    OffsetOfAll(SizesOf(pages));
    forall j | 0 <= j < |pages| ensures (base + PageOffset(pages, j)) % Bytes(pages[j].size) == 0 {
      OffsetsAgree(pages, j);
      assert Greedy(size)[j] == pages[j].size;
    }
  }

  datatype Outcome = Mapped(region: Region) | NoFrames | NoRange

  // The least place where the range allocator can put this size.
  ghost predicate LeastRange(order: seq<Region>, size: nat, base: nat) {
    && LargestUnit(Bytes(Largest(size)), size)
    && Candidate(base, Bytes(Largest(size))) && Vacancy(order, base, size)
    && NoneBelow(order, size, Bytes(Largest(size)), base)
  }

  /** sys_allocate_region: new pages, a region of their size at the least place with room, and the pages
      mapped all over it. It stops only when there is no stripe of frames for the next page of the split,
      or no place for the region. */
  method AllocateRegion(h: PageHolders, space: AddressSpace, size: nat, access: Access) returns (r: Outcome)
    requires h.Valid() && space.Valid() && space.regions != [] && size > 0
    modifies h`pages, h.mm.bitset
    modifies space`regions, space.tree, space.pageMap, space.pageMap.made
    modifies space.tree.cells.Keys`parent, space.tree.cells.Keys`left, space.tree.cells.Keys`right
    ensures h.Valid() && space.Valid() && |old(h.pages)| <= |h.pages| && AlignUp(size, FRAME) % FRAME == 0
    ensures var rounded, pages := AlignUp(size, FRAME), h.pages[|old(h.pages)|..];
      match r
      case Mapped(region) =>
        && fresh(region) && space.regions == old(space.regions) + [region] && region.access == access
        && region.pages == pages && SizesOf(pages) == Greedy(rounded)
        && region.size == rounded == PageOffset(pages, |pages|)
        && LeastRange(old(space.tree.order), rounded, region.base)
        && space.pageMap.leaves == old(space.pageMap.leaves) + RegionLeaves(region, pages)
      case NoFrames =>
        && RanOut(Greedy(rounded), SizesOf(pages), h.mm.Used(), h.mm.frameCount)
        && space.regions == old(space.regions) && space.pageMap.leaves == old(space.pageMap.leaves)
      case NoRange =>
        && SizesOf(pages) == Greedy(rounded)
        && LargestUnit(Bytes(Largest(rounded)), rounded)
        && NoneBelow(old(space.tree.order), rounded, Bytes(Largest(rounded)), LIMIT)
        && space.regions == old(space.regions) && space.pageMap.leaves == old(space.pageMap.leaves)
  {
    hide PageHolders.Valid, AddressSpace.Valid, PageOffset, RegionLeaves, Greedy, Bytes, SizesOf, RanOut, LeastRange;
    hide NoneBelow, LargestUnit;
    AlignUpBounds(size, FRAME);
    var rounded := AlignUp(size, FRAME);
    var ok, pages := MakePages(h, rounded);
    if !ok {
      return NoFrames;
    }
    var region := MapAnywhere(space, rounded, access, pages);
    r := if region.Some? then Mapped(region.value) else NoRange;
  }

  // The pages of a new VM object.
  method MakePages(h: PageHolders, size: nat) returns (ok: bool, pages: seq<Page>)
    requires h.Valid() && size > 0 && size % FRAME == 0
    modifies h`pages, h.mm.bitset
    ensures h.Valid() && |old(h.pages)| <= |h.pages| && pages == h.pages[|old(h.pages)|..]
    ensures ok ==> SizesOf(pages) == Greedy(size)
    ensures !ok ==> RanOut(Greedy(size), SizesOf(pages), h.mm.Used(), h.mm.frameCount)
    ensures forall j :: 0 <= j < |pages| ==> pages[j].phys % Bytes(pages[j].size) == 0
  {
    hide PageHolders.Valid, Greedy, Bytes, SizesOf, RanOut;
    var first;
    ok, first := Create(h, size);
    AlignedIsRounded(size);
    PagesAligned(h, first);
    pages := h.pages[first..];
  }

  method MapAnywhere(space: AddressSpace, size: nat, access: Access, pages: seq<Page>) returns (r: Option<Region>)
    requires space.Valid() && space.regions != [] && size > 0 && size % FRAME == 0 && SizesOf(pages) == Greedy(size)
    requires forall j :: 0 <= j < |pages| ==> pages[j].phys % Bytes(pages[j].size) == 0
    modifies space`regions, space.tree, space.pageMap, space.pageMap.made
    modifies space.tree.cells.Keys`parent, space.tree.cells.Keys`left, space.tree.cells.Keys`right
    ensures space.Valid()
    ensures r.None? ==>
      && space.regions == old(space.regions) && space.pageMap.leaves == old(space.pageMap.leaves)
      && LargestUnit(Bytes(Largest(size)), size)
      && NoneBelow(old(space.tree.order), size, Bytes(Largest(size)), LIMIT)
    ensures r.Some? ==>
      && fresh(r.value) && space.regions == old(space.regions) + [r.value]
      && r.value.access == access && r.value.pages == pages && r.value.size == size == PageOffset(pages, |pages|)
      && LeastRange(old(space.tree.order), size, r.value.base)
      && space.pageMap.leaves == old(space.pageMap.leaves) + RegionLeaves(r.value, pages)
  {
    hide AddressSpace.Valid, Mappable, PageOffset, RegionLeaves, NoneBelow, Bytes, Greedy, Largest, SizesOf;
    hide LargestUnit;
    r := space.AllocateAnywhere(size, access);
    if r.Some? {
      VmObjectMappable(r.value.base, pages, size);
      space.MapRegion(r.value, pages);
    }
  }

  lemma AlignedIsRounded(size: nat)
    requires size % FRAME == 0
    ensures AlignUp(size, FRAME) == size
  {
    AlignUpBounds(size, FRAME);
    AlignUpIsLeast(size, FRAME, size);
  }

  lemma PagesAligned(h: PageHolders, first: nat)
    requires h.Valid() && first <= |h.pages| && forall i :: first <= i < |h.pages| ==> h.pages[i].owned
    ensures var pages := h.pages[first..]; forall j :: 0 <= j < |pages| ==> pages[j].phys % Bytes(pages[j].size) == 0
  {
    hide Bytes;
    var pages := h.pages[first..];
    forall j | 0 <= j < |pages| ensures pages[j].phys % Bytes(pages[j].size) == 0 {
      assert pages[j] == h.pages[first + j];
    }
  }

  // ----- the walk -----

  lemma {:induction false} LeafOfPage(base: nat, pages: seq<Page>, flags: Flags, j: nat, n: nat)
    requires Mappable(base, pages) && j < n <= |pages|
    ensures PagePath(base, pages, j) in LeavesOf(base, pages, flags, n)
    ensures LeavesOf(base, pages, flags, n)[PagePath(base, pages, j)] == Mapping(pages[j].phys, flags)
  {
    hide Mappable, PagePath;
    if j < n - 1 {
      LeafOfPage(base, pages, flags, j, n - 1);
      PathNotAmongEarlier(base, pages, flags, n - 1);
    }
  }

  lemma SameSlot(start: nat, offset: nat, d: nat)
    requires 1 <= d <= 4 && start % Span(d) == 0 && offset < Span(d)
    ensures SlotNumber(start + offset, d) == SlotNumber(start, d) && (start + offset) % Span(d) == offset
  {
  }

  /** Every address of every page of every region: the processor's walk finds the page's own frame
      with the region's rights, at the depth that makes the rest of the address the offset in the page.
      A page may be written, used by user code, left out of the caches or kept across address spaces
      exactly when the region's access says so, and is barred from execution exactly when it does not
      say executable. */
  lemma WalkFindsPage(space: AddressSpace, region: Region, j: nat, offset: nat)
    requires space.Valid() && region in space.tree.cells
    requires j < |region.pages| && offset < Bytes(region.pages[j].size)
    ensures var virt, d := region.base + PageOffset(region.pages, j) + offset, DepthFor(region.pages[j].size);
      var walk := WalkFrom(space.pageMap.pml4, virt, 1);
      && walk.Some? && walk.value.0.phys == region.pages[j].phys && walk.value.1 == d && virt % Span(d) == offset
      && var flags, access := walk.value.0.flags, region.access;
      && flags.writable == access.writable && flags.user == access.user
      && flags.cacheDisable == access.uncacheable && flags.isGlobal == access.isGlobal
      && flags.noExecute == !access.executable
  {
    hide RegionTree.Valid, RegionTree.MinimumExact, Disjoint, Listed, PageMap.Matches, NoneEmptyBut, Formed, Injective;
    hide LeavesOf, Mappable, PathOf, SlotNumber, Span, Bytes, Lookup, WalkFrom;
    var pages, d := region.pages, DepthFor(region.pages[j].size);
    var start := region.base + PageOffset(pages, j);
    assert PagesFit(region, space.Pages()[region]);
    PageAligned(region.base, pages, j);
    SameSlot(start, offset, d);
    SameSlotSamePath(start + offset, start, d);
    LeafOfPage(region.base, pages, FlagsFor(region.access), j, |pages|);
    assert PagePath(region.base, pages, j) in RegionLeaves(region, space.Pages()[region]);
    LookupFindsLeaf(space.pageMap.tables, space.pageMap.leaves, start + offset, d);
    assert PathOf(start + offset, 0) == Top by { TopPath(start + offset); }
    WalkIsLookup(space.pageMap, start + offset, 1);
  }

  lemma TopPath(virt: nat)
    ensures PathOf(virt, 0) == Top
  {
  }

  // ----- a new process -----

  const KERNEL_SIZE: nat := 512 * GIB

  const KERNEL_ACCESS := Access(true, true, false, false, true)

  /** Each page is at the address of its own frames. */
  ghost predicate Identity(pages: seq<Page>) {
    forall j :: 0 <= j < |pages| ==> !pages[j].owned && pages[j].phys == PageOffset(pages, j)
  }

  /** Process::Process: an address space with the kernel's object mapped at 0, after which the range
      allocator can be used. */
  method NewProcess() returns (space: AddressSpace, kernel: Region)
    ensures fresh(space) && space.Valid() && space.regions == [kernel]
    ensures fresh(kernel) && fresh(space.tree) && space.tree.cells.Keys == {kernel}
    ensures kernel.base == 0 && kernel.size == KERNEL_SIZE == 0x80_0000_0000
    ensures kernel.access.writable && kernel.access.executable && kernel.access.isGlobal
    ensures !kernel.access.user && !kernel.access.uncacheable
    ensures Identity(kernel.pages) && PageOffset(kernel.pages, |kernel.pages|) == KERNEL_SIZE
    ensures space.pageMap.leaves == RegionLeaves(kernel, kernel.pages)
  {
    hide AddressSpace.Valid, Mappable, PageOffset, RegionLeaves, Greedy, SizesOf;
    var pages := CreatePhysical(0, KERNEL_SIZE);
    AlignedIsRounded(KERNEL_SIZE);
    PhysicalMappable(pages, KERNEL_SIZE);
    space := new AddressSpace();
    EmptySpace(space);
    kernel := space.NewRegion(0, KERNEL_SIZE, KERNEL_ACCESS);
    space.MapRegion(kernel, pages);
    assert map[] + RegionLeaves(kernel, pages) == RegionLeaves(kernel, pages);
  }

  /** A second region at 0 meets the kernel's, and the address space is no longer whole. */
  method OverlapBreaks() returns (space: AddressSpace, region: Region)
    ensures !space.Valid() && |space.regions| == 2 && region == space.regions[1]
    ensures region.base == space.regions[0].base == 0 && region.size == FRAME
  {
    hide AddressSpace.Valid, PageOffset, RegionLeaves, Identity;
    var kernel;
    space, kernel := NewProcess();
    InTheOrder(space, kernel);
    region := space.NewRegion(0, FRAME, KERNEL_ACCESS);
  }

  lemma InTheOrder(space: AddressSpace, region: Region)
    requires space.Valid() && region in space.regions && region.size > 0
    ensures exists i :: 0 <= i < |space.tree.order| && space.tree.order[i] == region
    ensures !Vacancy(space.tree.order, region.base, FRAME)
  {
    hide RegionTree.MinimumExact, PageMap.Valid, Disjoint, LeavesMatch;
    OtherNode(space.tree.cells, space.tree.root, space.tree.order, region);
  }

  lemma EmptySpace(space: AddressSpace)
    requires space.Valid() && space.regions == []
    ensures space.tree.order == [] && space.pageMap.leaves == map[]
  {
    NoneListed(space.tree);
  }

  lemma {:induction false} PhysicalMappable(pages: seq<Page>, size: nat)
    requires size % FRAME == 0 && 0 < size <= LIMIT && |pages| == |Greedy(size)|
    requires forall j :: 0 <= j < |pages| ==> pages[j] == Page(Offset(Greedy(size), j), Greedy(size)[j], false)
    ensures Mappable(0, pages) && PageOffset(pages, |pages|) == size && Identity(pages)
  {
    hide Greedy, Bytes, Offset, Largest, Mappable, PageOffset;
    assert SizesOf(pages) == Greedy(size);
    PlacedAligned(size, 0);
    ZeroAligned(Largest(size));
    VmObjectMappable(0, pages, size);
    forall j | 0 <= j < |pages| ensures pages[j].phys == PageOffset(pages, j) {
      OffsetsAgree(pages, j);
    }
  }

  lemma ZeroAligned(s: PageSize)
    ensures 0 % Bytes(s) == 0
  {
  }

  lemma {:induction false} PageAround(pages: seq<Page>, offset: nat, n: nat) returns (j: nat)
    requires n <= |pages| && offset < PageOffset(pages, n)
    ensures j < n && PageOffset(pages, j) <= offset < PageOffset(pages, j) + Bytes(pages[j].size)
  {
    if PageOffset(pages, n - 1) <= offset {
      j := n - 1;
    } else {
      j := PageAround(pages, offset, n - 1);
    }
  }

  /** Below 512 GiB the processor's walk maps every address to itself, as long as the kernel's region is
      in the address space and whatever else is. */
  lemma KernelIsIdentity(space: AddressSpace, kernel: Region, virt: nat)
    requires space.Valid() && kernel in space.tree.cells && kernel.base == 0 && Identity(kernel.pages)
    requires virt < PageOffset(kernel.pages, |kernel.pages|)
    ensures var w := WalkFrom(space.pageMap.pml4, virt, 1);
      && w.Some? && 1 <= w.value.1 <= 4
      && w.value.0.phys + virt % Span(w.value.1) == virt
      && var flags, access := w.value.0.flags, kernel.access;
      && flags.writable == access.writable && flags.user == access.user
      && flags.cacheDisable == access.uncacheable && flags.isGlobal == access.isGlobal
      && flags.noExecute == !access.executable
  {
    hide AddressSpace.Valid, WalkFrom, Span, Bytes;
    var j := PageAround(kernel.pages, virt, |kernel.pages|);
    WalkFindsPage(space, kernel, j, virt - PageOffset(kernel.pages, j));
  }

  // ----- virt_to_phys -----

  /** What the inner loop answers for an offset in a region: its page address stays at the region's
      base, so it takes the first page that is longer than the offset. */
  function PagesAnswer(pages: seq<Page>, offset: nat): Option<nat> {
    if pages == [] then None
    else if offset < Bytes(pages[0].size) then Some(pages[0].phys + offset)
    else PagesAnswer(pages[1..], offset)
  }

  predicate Covers(r: Region, virt: nat) {
    r.base <= virt < r.End()
  }

  // The loop over the pages of one region.
  method SearchPages(base: nat, pages: seq<Page>, virt: nat) returns (phys: Option<nat>)
    requires base <= virt
    ensures phys == PagesAnswer(pages, virt - base)
  {
    for k := 0 to |pages|
      invariant PagesAnswer(pages, virt - base) == PagesAnswer(pages[k..], virt - base)
    {
      if virt < base + Bytes(pages[k].size) {
        return Some(pages[k].phys + (virt - base));
      }
    }
    return None;
  }

  /** virt_to_phys. A region that covers the address has a VM object: the source follows the pointer
      without a look. */
  method VirtToPhys(space: AddressSpace, virt: nat) returns (phys: Option<nat>)
    requires space.Valid()
    requires forall r :: r in space.tree.cells && r.base <= virt < r.base + r.size ==> r.pages != []
    ensures forall r :: r in space.tree.cells && r.base <= virt < r.base + r.size ==>
      phys == PagesAnswer(r.pages, virt - r.base)
    ensures phys.Some? ==> exists r :: r in space.tree.cells && r.base <= virt < r.base + r.size
  {
    hide LeavesMatch, PageMap.Valid, Listed, RegionTree.Valid, Disjoint, PagesAnswer;
    var region := space.tree.minimum;
    ghost var order, i := space.tree.order, 0;
    while region != null
      invariant 0 <= i <= |order| && region == if i < |order| then order[i] else null
      invariant forall j :: 0 <= j < i && Covers(order[j], virt) ==>
        PagesAnswer(order[j].pages, virt - order[j].base) == None
      decreases |order| - i
    {
      if Covers(region, virt) {
        phys := SearchPages(region.base, region.pages, virt);
        if phys.Some? {
          AnswerOfOne(space, region, i, virt);
          return;
        }
      }
      region := space.tree.Successor(region, i);
      i := i + 1;
    }
    forall r | r in space.tree.cells && Covers(r, virt) ensures PagesAnswer(r.pages, virt - r.base) == None {
      InOrder(space.tree, r);
    }
    return None;
  }

  lemma InOrder(tree: RegionTree, r: Region)
    requires tree.Valid() && r in tree.cells
    ensures exists i :: 0 <= i < |tree.order| && tree.order[i] == r
  {
    OtherNode(tree.cells, tree.root, tree.order, r);
  }

  // Only one region covers an address.
  lemma AnswerOfOne(space: AddressSpace, region: Region, i: nat, virt: nat)
    requires space.Valid() && i < |space.tree.order| && space.tree.order[i] == region && Covers(region, virt)
    ensures region in space.tree.cells && forall r :: r in space.tree.cells && Covers(r, virt) ==> r == region
  {
    hide LeavesMatch, PageMap.Valid, Listed;
    RegionsApart(space.tree, space.Pages());
    PlaceOf(space.tree.cells, space.tree.root, space.tree.order, i);
  }

  /** For the pages of a VM object the answer is right in the first page and missing after it. */
  lemma FirstPageOnly(pages: seq<Page>, size: nat, offset: nat)
    requires size > 0 && size % FRAME == 0 && SizesOf(pages) == Greedy(size)
    ensures pages != []
    ensures PagesAnswer(pages, offset) == if offset < Bytes(pages[0].size) then Some(pages[0].phys + offset) else None
  {
    GreedyCovers(size);
    assert forall k :: 0 <= k < |pages| ==> pages[k].size == Greedy(size)[k];
    if offset >= Bytes(pages[0].size) {
      TooFar(pages, offset);
    }
  }

  lemma {:induction false} TooFar(pages: seq<Page>, offset: nat)
    requires forall k :: 0 <= k < |pages| ==> Bytes(pages[k].size) <= offset
    ensures PagesAnswer(pages, offset) == None
  {
    if pages != [] {
      TooFar(pages[1..], offset);
    }
  }

  /** virt_to_phys gives the address that the processor uses exactly for the first page of a region. */
  lemma AnswerIsWalkIff(space: AddressSpace, region: Region, size: nat, j: nat, offset: nat)
    requires space.Valid() && region in space.tree.cells
    requires size > 0 && size % FRAME == 0 && SizesOf(region.pages) == Greedy(size)
    requires j < |region.pages| && offset < Bytes(region.pages[j].size)
    ensures var within := PageOffset(region.pages, j) + offset;
      var walk := WalkFrom(space.pageMap.pml4, region.base + within, 1);
      && walk.Some? && 1 <= walk.value.1 <= 4
      && var phys := walk.value.0.phys + (region.base + within) % Span(walk.value.1);
      (PagesAnswer(region.pages, within) == Some(phys) <==> j == 0)
  {
    hide AddressSpace.Valid, WalkFrom, PagesAnswer, Greedy, Bytes;
    WalkFindsPage(space, region, j, offset);
    FirstPageOnly(region.pages, size, PageOffset(region.pages, j) + offset);
    OffsetsGrow(region.pages, 0, j);
  }

  /** A concrete miss: the second page of an object of 8 KiB. */
  lemma SecondPageMissed(phys: nat)
    requires phys % FRAME == 0
    ensures PagesAnswer([Page(phys, Normal, true), Page(phys + FRAME, Normal, true)], FRAME) == None
  {
    TooFar([Page(phys, Normal, true), Page(phys + FRAME, Normal, true)], FRAME);
  }
}
