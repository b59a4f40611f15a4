/** The address space (kernel/mem/address_space.cc, kernel/mem/region.cc): the range allocator that
    walks the region tree, and the regions, their tree and their page tables kept together. */
module AddressSpaces {
  import opened Arithmetic
  import opened Frames
  import opened PageTables
  import opened RegionPages
  import opened Regions
  import opened SplayTree
  import opened Sums
  import opened VmObjects

  // ----- finding a free range -----

  /** Regions in address order: none empty, none overlapping the next, all below 2^48. */
  ghost predicate Disjoint(order: seq<Region>) {
    && (forall i :: 0 <= i < |order| ==> order[i].size > 0 && order[i].End() <= LIMIT)
    && (forall i, j :: 0 <= i < j < |order| ==> order[i].End() <= order[j].base)
  }

  /** A range that meets no region and ends by 2^48. */
  ghost predicate Vacancy(order: seq<Region>, base: nat, size: nat) {
    && base + size <= LIMIT
    && forall i :: 0 <= i < |order| ==> base + size <= order[i].base || order[i].End() <= base
  }

  /** The places that the allocator considers: multiples of the alignment from the alignment on. */
  ghost predicate Candidate(base: nat, alignment: nat)
    requires alignment > 0
  {
    base >= alignment && base % alignment == 0
  }

  // No candidate below `limit` will do.
  ghost predicate NoneBelow(order: seq<Region>, size: nat, alignment: nat, limit: nat)
    requires alignment > 0
  {
    forall b :: 0 <= b < limit && Candidate(b, alignment) ==> !Vacancy(order, b, size)
  }

  // One round of the walk that finds no room before order[i].
  lemma SkipRegion(order: seq<Region>, size: nat, alignment: nat, i: nat, previous: nat)
    requires Disjoint(order) && i < |order| && size > 0 && alignment > 0
    requires Candidate(previous, alignment) && NoneBelow(order, size, alignment, previous)
    requires !(order[i].base > previous && order[i].base - previous >= size)
    ensures Candidate(AlignUp(order[i].End(), alignment), alignment)
    ensures NoneBelow(order, size, alignment, AlignUp(order[i].End(), alignment))
  {
    var next := AlignUp(order[i].End(), alignment);
    AlignUpBounds(order[i].End(), alignment);
    AtLeastOneStep(next, alignment);
    forall b | 0 <= b < next && Candidate(b, alignment) ensures !Vacancy(order, b, size) {
      if b >= previous && b >= order[i].End() {
        AlignUpIsLeast(order[i].End(), alignment, b);
      }
    }
  }

  lemma AtLeastOneStep(x: nat, alignment: nat)
    requires alignment > 0 && x > 0 && x % alignment == 0
    ensures x >= alignment
  {
  }

  // ----- regions and their leaves -----

  /** The leaf entries that pages call for in a region. */
  ghost function RegionLeaves(r: Region, pages: seq<Page>): Leaves {
    LeavesOf(r.base, pages, FlagsFor(r.access), |pages|)
  }

  // Pages fit a region and are where they can be mapped.
  ghost predicate PagesFit(r: Region, pages: seq<Page>) {
    Mappable(r.base, pages) && PageOffset(pages, |pages|) <= r.size
  }

  lemma LeavesInside(r: Region, pages: seq<Page>, p: Path)
    requires PagesFit(r, pages) && p in RegionLeaves(r, pages)
    ensures Proper(p) && Depth(p) >= 2 && r.base <= Start(p) && Start(p) < End(p) <= r.End()
  {
    KeysOfLeaves(r.base, pages, FlagsFor(r.access), |pages|);
    var j :| 0 <= j < |pages| && p == PagePath(r.base, pages, j);
    PagePathRange(r.base, pages, j);
  }

  // The pages of each region.
  type Contents = map<Region, seq<Page>>

  /** The page tables hold the leaves of the regions' pages and nothing else. */
  ghost predicate LeavesMatch(contents: Contents, leaves: Leaves) {
    && (forall r :: r in contents ==> PagesFit(r, contents[r]))
    && (forall r, p :: r in contents && p in RegionLeaves(r, contents[r]) ==>
          p in leaves && leaves[p] == RegionLeaves(r, contents[r])[p])
    && (forall p :: p in leaves ==> exists r: Region :: r in contents && p in RegionLeaves(r, contents[r]))
  }

  ghost predicate Apart(contents: Contents) {
    forall r, s :: r in contents && s in contents && r != s ==> r.End() <= s.base || s.End() <= r.base
  }

  // No leaf of another region is in this region's range.
  lemma OthersOutside(contents: Contents, leaves: Leaves, region: Region, end: nat)
    requires LeavesMatch(contents, leaves) && Apart(contents)
    requires region in contents && contents[region] == [] && end <= region.End()
    ensures forall p :: p in leaves ==> Outside(p, region.base, end)
  {
    forall p | p in leaves ensures Outside(p, region.base, end) {
      var s: Region :| s in contents && p in RegionLeaves(s, contents[s]);
      LeavesInside(s, contents[s], p);
      assert RegionLeaves(region, []) == map[];
    }
  }

  // Leaves of different regions differ.
  lemma LeavesApart(contents: Contents, r: Region, s: Region, p: Path)
    requires Apart(contents) && r in contents && s in contents
    requires PagesFit(r, contents[r]) && PagesFit(s, contents[s])
    requires p in RegionLeaves(r, contents[r]) && p in RegionLeaves(s, contents[s])
    ensures r == s
  {
    LeavesInside(r, contents[r], p);
    LeavesInside(s, contents[s], p);
  }

  /** Mapping the pages of one region keeps the tables and the regions in step. */
  lemma MapKeepsMatch(contents: Contents, leaves: Leaves, region: Region, pages: seq<Page>)
    requires LeavesMatch(contents, leaves) && Apart(contents)
    requires region in contents && contents[region] == [] && PagesFit(region, pages)
    ensures LeavesMatch(contents[region := pages], leaves + RegionLeaves(region, pages))
  {
    hide RegionLeaves, PagesFit;
    var contents', leaves' := contents[region := pages], leaves + RegionLeaves(region, pages);
    EmptyRegionHasNoLeaves(region);
    forall r, p | r in contents' && p in RegionLeaves(r, contents'[r])
      ensures p in leaves' && leaves'[p] == RegionLeaves(r, contents'[r])[p]
    {
      if r != region && p in RegionLeaves(region, pages) {
        LeavesApart(contents', r, region, p);
      }
    }
    forall p | p in leaves' ensures exists r: Region :: r in contents' && p in RegionLeaves(r, contents'[r]) {
      if p in RegionLeaves(region, pages) {
        assert p in RegionLeaves(region, contents'[region]);
      } else {
        var r: Region :| r in contents && p in RegionLeaves(r, contents[r]);
        assert p in RegionLeaves(r, contents'[r]);
      }
    }
  }

  lemma EmptyRegionHasNoLeaves(r: Region)
    ensures RegionLeaves(r, []) == map[]
  {
  }

  lemma EmptyRegionFits(r: Region)
    requires r.End() <= LIMIT
    ensures PagesFit(r, [])
  {
  }

  /** Unmapping the pages of one region leaves exactly the leaves of the others. */
  lemma UnmapKeepsMatch(contents: Contents, leaves: Leaves, region: Region)
    requires LeavesMatch(contents, leaves) && Apart(contents) && region in contents
    ensures PagesFit(region, contents[region]) && RegionLeaves(region, contents[region]).Keys <= leaves.Keys
    ensures LeavesMatch(contents - {region}, leaves - RegionLeaves(region, contents[region]).Keys)
  {
    hide RegionLeaves, PagesFit;
    var contents', leaves' := contents - {region}, leaves - RegionLeaves(region, contents[region]).Keys;
    forall r, p | r in contents' && p in RegionLeaves(r, contents'[r])
      ensures p in leaves' && leaves'[p] == RegionLeaves(r, contents'[r])[p]
    {
      if p in RegionLeaves(region, contents[region]) {
        LeavesApart(contents, r, region, p);
      }
    }
    forall p | p in leaves' ensures exists r: Region :: r in contents' && p in RegionLeaves(r, contents'[r]) {
      var r: Region :| r in contents && p in RegionLeaves(r, contents[r]);
      assert p in RegionLeaves(r, contents'[r]);
    }
  }

  lemma AddKeepsMatch(contents: Contents, leaves: Leaves, region: Region)
    requires LeavesMatch(contents, leaves) && region !in contents && region.End() <= LIMIT
    ensures LeavesMatch(contents[region := []], leaves)
  {
    hide RegionLeaves, PagesFit;
    var contents' := contents[region := []];
    EmptyRegionHasNoLeaves(region);
    EmptyRegionFits(region);
    forall p | p in leaves ensures exists r: Region :: r in contents' && p in RegionLeaves(r, contents'[r]) {
      var r: Region :| r in contents && p in RegionLeaves(r, contents[r]);
      assert p in RegionLeaves(r, contents'[r]);
    }
  }

  lemma DisjointInsert(order: seq<Region>, node: Region, p: nat)
    requires Disjoint(order) && Vacancy(order, node.base, node.size) && node.size > 0
    requires p <= |order| && SortedByBase(WithNode(order, node, p))
    ensures Disjoint(WithNode(order, node, p)) && node.End() <= LIMIT
  {
    hide WithNode;
    var order' := WithNode(order, node, p);
    WithNodeAt(order, node, p, p);
    forall i | 0 <= i < |order'| ensures order'[i].size > 0 && order'[i].End() <= LIMIT {
      WithNodeAt(order, node, p, i);
    }
    forall i, j | 0 <= i < j < |order'| ensures order'[i].End() <= order'[j].base {
      WithNodeAt(order, node, p, i);
      WithNodeAt(order, node, p, j);
    }
  }

  /** allocate_specific takes any range as it comes: the regions stay disjoint exactly when the range
      meets none of them. */
  lemma SpecificRangeIff(order: seq<Region>, node: Region, p: nat)
    requires Disjoint(order) && node.size > 0
    requires p <= |order| && SortedByBase(WithNode(order, node, p))
    ensures Disjoint(WithNode(order, node, p)) <==> Vacancy(order, node.base, node.size)
  {
    hide WithNode;
    if Vacancy(order, node.base, node.size) {
      DisjointInsert(order, node, p);
    } else if Disjoint(WithNode(order, node, p)) {
      WithNodeAt(order, node, p, p);
      forall i | 0 <= i < |order| ensures node.base + node.size <= order[i].base || order[i].End() <= node.base {
        WithNodeAt(order, node, p, if i < p then i else i + 1);
      }
      assert false;
    }
  }

  lemma EmptyNotDisjoint(order: seq<Region>, node: Region, p: nat)
    requires p <= |order| && node.size == 0
    ensures !Disjoint(WithNode(order, node, p))
  {
    WithNodeAt(order, node, p, p);
  }

  lemma VacancyEnds(order: seq<Region>, node: Region)
    requires Vacancy(order, node.base, node.size)
    ensures node.End() <= LIMIT
  {
  }

  lemma InsertedSorted(tree: RegionTree)
    requires tree.Valid()
    ensures SortedByBase(tree.order)
  {
  }

  // The region that starts at 0 is the first one.
  lemma ZeroIsFirst(tree: RegionTree, r: Region)
    requires tree.Valid() && r in tree.cells && r.base == 0
    ensures tree.order != [] && tree.order[0].base == 0
  {
    OtherNode(tree.cells, tree.root, tree.order, r);
  }

  /** The region list holds each region of the tree once, first the one that starts at 0. */
  ghost predicate Listed(regions: seq<Region>, nodes: set<Region>) {
    && (forall r :: r in regions ==> r in nodes)
    && (forall r :: r in nodes ==> r in regions)
    && (forall i, j :: 0 <= i < j < |regions| ==> regions[i] != regions[j])
    && (regions != [] ==> regions[0].base == 0)
  }

  lemma ListedPop(regions: seq<Region>, nodes: set<Region>)
    requires Listed(regions, nodes) && regions != []
    ensures Listed(regions[..|regions| - 1], nodes - {regions[|regions| - 1]})
  {
  }

  lemma ListedPush(regions: seq<Region>, nodes: set<Region>, r: Region)
    requires Listed(regions, nodes) && r !in nodes
    ensures Listed(regions + [r], nodes + {r}) <==> (regions == [] ==> r.base == 0)
  {
  }

  lemma ListedAt(regions: seq<Region>, nodes: set<Region>, i: nat)
    requires Listed(regions, nodes) && i < |regions|
    ensures regions[i] in nodes && (i == 0 ==> regions[i].base == 0)
  {
  }

  lemma NoneListed(tree: RegionTree)
    requires tree.Valid() && Listed([], tree.cells.Keys)
    ensures tree.order == []
  {
  }

  class AddressSpace {
    const tree: RegionTree
    const pageMap: PageMap
    var regions: seq<Region>

    ghost predicate Valid()
      reads this, tree, pageMap, pageMap.made, tree.cells.Keys
    {
      && tree.Valid() && tree.MinimumExact() && Disjoint(tree.order)
      && pageMap.Valid()
      && Listed(regions, tree.cells.Keys)
      && LeavesMatch(Pages(), pageMap.leaves)
    }

    ghost function Pages(): Contents
      reads tree`cells, tree.cells.Keys`pages
    {
      map r | r in tree.cells :: r.pages
    }

    constructor ()
      ensures Valid() && regions == [] && tree.cells == map[]
      ensures fresh(tree) && fresh(pageMap) && fresh(pageMap.made)
    {
      hide RegionTree.Valid, PageMap.Valid;
      tree := new RegionTree();
      pageMap := new PageMap();
      regions := [];
    }

    /** allocate_range_anywhere: the least candidate with room, or None where the source stops. The
        candidates are the multiples of 4 KiB, 2 MiB or 1 GiB, whichever is the largest not above the
        size. */
    method AllocateRangeAnywhere(size: nat) returns (r: Option<nat>)
      requires tree.Valid() && tree.MinimumExact() && Disjoint(tree.order)
      requires size > 0 && size % FRAME == 0
      ensures LargestUnit(Bytes(Largest(size)), size)
      ensures var alignment := Bytes(Largest(size));
        match r
        case Some(base) =>
          && base >= alignment && base % alignment == 0 && Candidate(base, alignment)
          && Vacancy(tree.order, base, size) && NoneBelow(tree.order, size, alignment, base)
        case None => NoneBelow(tree.order, size, alignment, LIMIT)
    {
      hide LargestUnit, Largest, Bytes;
      LargestIsUnit(size);
      var alignment := Bytes(Largest(size));
      var previous: nat := alignment;
      var region := tree.minimum;
      ghost var order, i := tree.order, 0;
      while region != null
        invariant 0 <= i <= |order| && region == if i < |order| then order[i] else null
        invariant Candidate(previous, alignment) && NoneBelow(order, size, alignment, previous)
        invariant forall j :: 0 <= j < i ==> order[j].End() <= previous
        decreases |order| - i
      {
        if region.base > previous {
          var available := region.base - previous;
          if available >= size && previous + available < LIMIT {
            return Some(previous);
          }
        }
        SkipRegion(order, size, alignment, i, previous);
        AlignUpBounds(region.End(), alignment);
        previous := AlignUp(region.End(), alignment);
        region := tree.Successor(region, i);
        i := i + 1;
      }
      if previous < LIMIT {
        if LIMIT - previous >= size {
          return Some(previous);
        }
      }
      return None;
    }

    /** new_region, for any range: the space stays whole exactly when the range is not empty and meets no
        region, and the first region starts at 0. */
    method NewRegion(base: nat, size: nat, access: Access) returns (region: Region)
      requires Valid()
      modifies this`regions, tree, tree.cells.Keys`parent, tree.cells.Keys`left, tree.cells.Keys`right
      ensures Valid() <==> Vacancy(old(tree.order), base, size) && size > 0 && (old(regions) == [] ==> base == 0)
      ensures fresh(region) && tree.Valid() && tree.cells.Keys == old(tree.cells.Keys) + {region}
      ensures region.base == base && region.size == size && region.access == access && region.pages == []
      ensures regions == old(regions) + [region] && pageMap.leaves == old(pageMap.leaves)
    {
      hide RegionTree.Valid, PageMap.Valid, Disjoint, Vacancy, LeavesMatch, WithNode, Listed;
      if regions != [] {
        ListedAt(regions, tree.cells.Keys, 0);
        ZeroIsFirst(tree, regions[0]);
      } else {
        NoneListed(tree);
      }
      region := new Region(base, size, access);
      ghost var order, contents, nodes := tree.order, Pages(), tree.cells.Keys;
      ghost var p := Enter(region);
      if size > 0 {
        SpecificRangeIff(order, region, p);
      } else {
        EmptyNotDisjoint(order, region, p);
      }
      if Vacancy(order, base, size) {
        VacancyEnds(order, region);
        AddKeepsMatch(contents, pageMap.leaves, region);
      }
      ListedPush(regions, nodes, region);
      regions := regions + [region];
    }

    // The region goes into the tree.
    method Enter(region: Region) returns (ghost p: nat)
      requires tree.Valid() && pageMap.Valid() && region !in tree.cells && region.pages == []
      requires region.parent == null && region.left == null && region.right == null
      modifies tree, tree.cells.Keys`parent, tree.cells.Keys`left, tree.cells.Keys`right
      modifies region`parent, region`left, region`right
      ensures tree.Valid() && pageMap.Valid() && tree.cells.Keys == old(tree.cells.Keys) + {region}
      ensures Pages() == old(Pages())[region := []] && pageMap.leaves == old(pageMap.leaves)
      ensures p <= |old(tree.order)| && tree.order == WithNode(old(tree.order), region, p)
      ensures SortedByBase(tree.order)
      ensures tree.MinimumExact() <==>
        old(tree.order) == [] || (old(tree.MinimumExact()) && old(tree.order)[0].base <= region.base)
    {
      hide PageMap.Valid, WithNode, RegionTree.Valid;
      p := tree.Insert(region);
      InsertedSorted(tree);
    }

    /** allocate_anywhere: the new region is at the least candidate with room. */
    method AllocateAnywhere(size: nat, access: Access) returns (r: Option<Region>)
      requires Valid() && regions != [] && size > 0 && size % FRAME == 0
      modifies this`regions, tree, tree.cells.Keys`parent, tree.cells.Keys`left, tree.cells.Keys`right
      ensures Valid() && pageMap.leaves == old(pageMap.leaves) && LargestUnit(Bytes(Largest(size)), size)
      ensures r.None? ==> regions == old(regions) && NoneBelow(old(tree.order), size, Bytes(Largest(size)), LIMIT)
      ensures r.Some? ==>
        && fresh(r.value) && regions == old(regions) + [r.value]
        && r.value.size == size && r.value.access == access && r.value.pages == []
        && Candidate(r.value.base, Bytes(Largest(size))) && Vacancy(old(tree.order), r.value.base, size)
        && NoneBelow(old(tree.order), size, Bytes(Largest(size)), r.value.base)
    {
      hide RegionTree.Valid, PageMap.Valid, Disjoint, Vacancy, LeavesMatch, NoneBelow, Candidate, Bytes, LargestUnit;
      var range := AllocateRangeAnywhere(size);
      if range.None? {
        return None;
      }
      var region := NewRegion(range.value, size, access);
      return Some(region);
    }

    /** Region::map: adds exactly the leaves of the pages to the page tables. */
    method MapRegion(region: Region, pages: seq<Page>)
      requires Valid() && region in regions && region.pages == []
      requires Mappable(region.base, pages) && PageOffset(pages, |pages|) <= region.size
      modifies region`pages, pageMap, pageMap.made
      ensures Valid() && region.pages == pages
      ensures pageMap.leaves == old(pageMap.leaves) + RegionLeaves(region, pages)
    {
      hide RegionTree.Valid, RegionTree.MinimumExact, PageMap.Valid, Disjoint, Mappable, LeavesMatch, Apart;
      hide LeavesOf, Outside, PageOffset, FlagsFor;
      RegionsApart(tree, Pages());
      OthersOutside(Pages(), pageMap.leaves, region, region.base + PageOffset(pages, |pages|));
      MapKeepsMatch(Pages(), pageMap.leaves, region, pages);
      MapPages(pageMap, region.base, pages, FlagsFor(region.access));
      assert LeavesMatch(old(Pages())[region := pages], pageMap.leaves);
      region.pages := pages;
      assert Pages() == old(Pages())[region := pages];
    }

    // detree: takes the region out of the tree, the page tables being left alone.
    method Detree(region: Region)
      requires tree.Valid() && tree.MinimumExact() && Disjoint(tree.order) && region in tree.cells
      requires pageMap.Valid()
      modifies tree, tree.cells.Keys`parent, tree.cells.Keys`left, tree.cells.Keys`right
      ensures pageMap.Valid() && tree.Valid() && tree.MinimumExact() && Disjoint(tree.order)
      ensures tree.cells.Keys == old(tree.cells.Keys) - {region} && Pages() == old(Pages()) - {region}
    {
      hide RegionTree.Valid, PageMap.Valid, Disjoint, Without;
      ghost var i := IndexOf(tree, region);
      DisjointWithout(tree.order, i);
      tree.Remove(region, i);
    }

    // The destructor of the last region: out of the tree first, then out of the page tables.
    method DestroyLast()
      requires Valid() && regions != []
      modifies this`regions, tree, tree.cells.Keys, pageMap, pageMap.made
      ensures Valid() && regions == old(regions)[..|old(regions)| - 1]
      ensures var last := old(regions)[|old(regions)| - 1];
        pageMap.leaves == old(pageMap.leaves) - RegionLeaves(last, old(last.pages)).Keys
      ensures pageMap.made == old(pageMap.made) && tree.cells.Keys <= old(tree.cells.Keys)
    {
      hide RegionTree.Valid, RegionTree.MinimumExact, PageMap.Valid, Disjoint, LeavesMatch, Apart;
      hide RegionLeaves, PagesFit;
      hide Listed;
      var region := regions[|regions| - 1];
      ListedAt(regions, tree.cells.Keys, |regions| - 1);
      RegionsApart(tree, Pages());
      UnmapKeepsMatch(Pages(), pageMap.leaves, region);
      Detree(region);
      ListedPop(regions, old(tree.cells.Keys));
      UnmapRegion(region);
      regions := regions[..|regions| - 1];
    }

    /** The destructor: every region goes, last first. Nothing stays mapped, no table but the PML4 is
        left, and the PML4 may be freed. */
    method Clear()
      requires Valid()
      modifies this`regions, tree, tree.cells.Keys, pageMap, pageMap.made
      ensures Valid() && regions == [] && tree.cells.Keys == {} && tree.root == null
      ensures pageMap.leaves == map[] && pageMap.tables.Keys == {Top} && pageMap.pml4.Deletable()
    {
      hide Valid;
      while regions != []
        invariant Valid() && pageMap.made == old(pageMap.made) && tree.cells.Keys <= old(tree.cells.Keys)
        decreases |regions|
      {
        DestroyLast();
      }
      ClearedMeansEmpty(this);
      NothingMappedNothingLeft(pageMap);
    }

    // unmap_if_needed.
    method UnmapRegion(region: Region)
      requires pageMap.Valid() && PagesFit(region, region.pages)
      requires RegionLeaves(region, region.pages).Keys <= pageMap.leaves.Keys
      requires tree.Valid() && region !in tree.cells
      modifies region`pages, pageMap`tables, pageMap`leaves, pageMap.made
      ensures pageMap.Valid() && region.pages == []
      ensures tree.Valid() && Pages() == old(Pages())
      ensures pageMap.leaves == old(pageMap.leaves) - RegionLeaves(region, old(region.pages)).Keys
    {
      hide RegionTree.Valid, PageMap.Valid, Mappable, LeavesOf, PageOffset;
      UnmapPages(pageMap, region.base, region.pages, FlagsFor(region.access));
      region.pages := [];
    }
  }

  // Without regions there is neither a node nor a leaf.
  lemma ClearedMeansEmpty(space: AddressSpace)
    requires space.Valid() && space.regions == []
    ensures space.tree.cells.Keys == {} && space.tree.root == null
    ensures space.pageMap.Valid() && space.pageMap.leaves == map[]
  {
    hide RegionTree.Valid, PageMap.Valid;
    assert space.tree.cells.Keys == {};
    NoNodeNoRoot(space.tree);
  }

  lemma NoNodeNoRoot(tree: RegionTree)
    requires tree.Valid() && tree.cells.Keys == {}
    ensures tree.root == null
  {
  }

  lemma IndexOf(tree: RegionTree, r: Region) returns (i: nat)
    requires tree.Valid() && tree.MinimumExact() && r in tree.cells
    ensures i < |tree.order| && tree.order[i] == r && (r == tree.minimum ==> i == 0)
  {
    OtherNode(tree.cells, tree.root, tree.order, r);
    i :| 0 <= i < |tree.order| && tree.order[i] == r;
    PlaceOf(tree.cells, tree.root, tree.order, i);
  }

  lemma DisjointWithout(order: seq<Region>, i: nat)
    requires Disjoint(order) && i < |order|
    ensures Disjoint(Without(order, i))
  {
  }

  lemma RegionsApart(tree: RegionTree, contents: Contents)
    requires tree.Valid() && Disjoint(tree.order) && contents.Keys == tree.cells.Keys
    ensures Apart(contents)
  {
    forall r, s | r in contents && s in contents && r != s ensures r.End() <= s.base || s.End() <= r.base {
      OtherNode(tree.cells, tree.root, tree.order, r);
      OtherNode(tree.cells, tree.root, tree.order, s);
      var i :| 0 <= i < |tree.order| && tree.order[i] == r;
      var j :| 0 <= j < |tree.order| && tree.order[j] == s;
    }
  }
}
