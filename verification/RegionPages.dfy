/** The leaf entries that the pages of a region call for (kernel/mem/region.cc). */
module RegionPages {
  import opened Arithmetic
  import opened PageTables
  import opened Regions

  function DepthFor(s: PageSize): (d: nat)
    ensures 2 <= d <= 4 && Span(d) == Bytes(s)
  {
    match s
    case Normal => 4
    case Large => 3
    case Huge => 2
  }

  /** page_flags: NoExecute is the one flag that a right takes away. */
  function FlagsFor(a: Access): Flags {
    Flags(a.writable, a.user, a.uncacheable, a.isGlobal, !a.executable)
  }

  // ----- the address range of a path -----

  ghost predicate Proper(p: Path) {
    p.At? ==> p.index < ENTRIES && Depth(p) <= 4 && Proper(p.table)
  }

  function Extent(depth: nat): nat
    requires depth <= 4
  {
    if depth == 0 then LIMIT else Span(depth)
  }

  ghost function Start(p: Path): nat
    requires Proper(p)
  {
    if p.Top? then 0 else Start(p.table) + p.index * Span(Depth(p))
  }

  ghost function End(p: Path): nat
    requires Proper(p)
  {
    Start(p) + Extent(Depth(p))
  }

  lemma {:induction false} ProperPath(virt: nat, d: nat)
    requires d <= 4
    ensures Proper(PathOf(virt, d)) && Depth(PathOf(virt, d)) == d
  {
    DepthOfPath(virt, d);
    if d > 0 {
      ProperPath(virt, d - 1);
    }
  }

  /** A path starts where its slot starts. */
  lemma {:induction false} StartOfPath(virt: nat, d: nat)
    requires virt < LIMIT && 1 <= d <= 4
    ensures Proper(PathOf(virt, d)) && Start(PathOf(virt, d)) == SlotNumber(virt, d) * Span(d)
  {
    hide SlotNumber, Index;
    ProperPath(virt, d);
    if d == 1 {
      FirstDigit(virt);
      assert Start(PathOf(virt, 0)) == 0;
    } else {
      StartOfPath(virt, d - 1);
      SlotDigits(virt, d);
      assert Span(d - 1) == ENTRIES * Span(d);
    }
  }

  lemma StartOfAlignedPath(virt: nat, d: nat)
    requires virt < LIMIT && 1 <= d <= 4 && virt % Span(d) == 0
    ensures Proper(PathOf(virt, d)) && Depth(PathOf(virt, d)) == d && Start(PathOf(virt, d)) == virt
  {
    hide PathOf, Start, Proper, Span, SlotNumber;
    ProperPath(virt, d);
    StartOfPath(virt, d);
    AlignedSlot(virt, d);
  }

  lemma AlignedSlot(virt: nat, d: nat)
    requires 1 <= d <= 4 && virt % Span(d) == 0
    ensures SlotNumber(virt, d) * Span(d) == virt
  {
    assert Span(d) > 0;
    hide Span;
    Euclid(virt, Span(d));
  }

  /** A path below another covers a part of its range. */
  lemma {:induction false} PrefixCovers(p: Path, q: Path)
    requires Proper(q) && Prefix(p, q)
    ensures Proper(p) && Start(p) <= Start(q) && End(q) <= End(p)
  {
    if p != q {
      PrefixCovers(p, q.table);
      assert Extent(Depth(q.table)) == ENTRIES * Span(Depth(q)) && Span(Depth(q)) > 0;
      hide Span, Extent;
      MulLess(q.index, ENTRIES, Span(Depth(q)));
    }
  }

  /** Two leaves that do not share an address do not get in each other's way. */
  lemma DisjointPathsFree(p: Path, q: Path)
    requires Proper(p) && Proper(q) && (End(p) <= Start(q) || End(q) <= Start(p))
    requires 1 <= Depth(p) && 1 <= Depth(q)
    ensures !Prefix(p, q) && !Prefix(q, p)
  {
    if Prefix(p, q) {
      PrefixCovers(p, q);
    }
    if Prefix(q, p) {
      PrefixCovers(q, p);
    }
  }

  // ----- the pages of a region -----

  // The distance of the j-th page from the base of the region.
  function PageOffset(pages: seq<Page>, j: nat): nat
    requires j <= |pages|
  {
    if j == 0 then 0 else PageOffset(pages, j - 1) + Bytes(pages[j - 1].size)
  }

  function PagePath(base: nat, pages: seq<Page>, j: nat): Path
    requires j < |pages|
  {
    PathOf(base + PageOffset(pages, j), DepthFor(pages[j].size))
  }

  /** The leaves of the first n pages of a region. */
  function LeavesOf(base: nat, pages: seq<Page>, flags: Flags, n: nat): Leaves
    requires n <= |pages|
  {
    if n == 0 then map[]
    else LeavesOf(base, pages, flags, n - 1)[PagePath(base, pages, n - 1) := Mapping(pages[n - 1].phys, flags)]
  }

  /** Every page, virtual and physical, is at a multiple of its size, and all lie below 2^48. */
  ghost predicate Mappable(base: nat, pages: seq<Page>) {
    && (forall j :: 0 <= j < |pages| ==>
          (base + PageOffset(pages, j)) % Bytes(pages[j].size) == 0 && pages[j].phys % Bytes(pages[j].size) == 0)
    && base + PageOffset(pages, |pages|) <= LIMIT
  }

  lemma {:induction false} OffsetsGrow(pages: seq<Page>, i: nat, j: nat)
    requires i <= j <= |pages|
    ensures PageOffset(pages, i) <= PageOffset(pages, j)
    ensures i < j ==> PageOffset(pages, i) + Bytes(pages[i].size) <= PageOffset(pages, j)
  {
    if i < j {
      OffsetsGrow(pages, i, j - 1);
    }
  }

  // The range of the j-th page's path is the page itself.
  lemma PagePathRange(base: nat, pages: seq<Page>, j: nat)
    requires Mappable(base, pages) && j < |pages|
    ensures var p := PagePath(base, pages, j);
      && Proper(p) && Depth(p) == DepthFor(pages[j].size)
      && Start(p) == base + PageOffset(pages, j) && End(p) == base + PageOffset(pages, j + 1)
      && End(p) <= base + PageOffset(pages, |pages|)
  {
    OffsetsGrow(pages, j, |pages|);
    OffsetsGrow(pages, j + 1, |pages|);
    StartOfAlignedPath(base + PageOffset(pages, j), DepthFor(pages[j].size));
  }

  lemma {:induction false} KeysOfLeaves(base: nat, pages: seq<Page>, flags: Flags, n: nat)
    requires n <= |pages|
    ensures forall p ::
      p in LeavesOf(base, pages, flags, n) <==> exists i :: 0 <= i < n && p == PagePath(base, pages, i)
  {
    if n > 0 {
      KeysOfLeaves(base, pages, flags, n - 1);
      var before := LeavesOf(base, pages, flags, n - 1);
      forall p
        ensures p in LeavesOf(base, pages, flags, n) <==> exists i :: 0 <= i < n && p == PagePath(base, pages, i)
      {
        if p in before {
          var i :| 0 <= i < n - 1 && p == PagePath(base, pages, i);
        }
      }
    }
  }

  /** A leaf outside the range of the region's pages. */
  ghost predicate Outside(p: Path, base: nat, end: nat) {
    Proper(p) && Depth(p) >= 1 && (End(p) <= base || end <= Start(p))
  }

  /** When each page is mapped, the leaves of other regions and of the pages before it leave its
      path free. */
  lemma NextPageFree(others: Leaves, base: nat, pages: seq<Page>, flags: Flags, j: nat)
    requires Mappable(base, pages) && j < |pages|
    requires forall p :: p in others ==> Outside(p, base, base + PageOffset(pages, |pages|))
    ensures Free(others + LeavesOf(base, pages, flags, j), PagePath(base, pages, j))
  {
    hide LeavesOf, PagePath, Mappable, Prefix, Proper, Start, End, PageOffset, Depth;
    var path := PagePath(base, pages, j);
    PagePathRange(base, pages, j);
    KeysOfLeaves(base, pages, flags, j);
    forall p | p in others + LeavesOf(base, pages, flags, j) ensures !Prefix(p, path) && !Prefix(path, p) {
      if p in LeavesOf(base, pages, flags, j) {
        var i :| 0 <= i < j && p == PagePath(base, pages, i);
        PagePathRange(base, pages, i);
        OffsetsGrow(pages, i + 1, j);
      }
      DisjointPathsFree(p, path);
    }
  }

  lemma PageAligned(base: nat, pages: seq<Page>, j: nat)
    requires Mappable(base, pages) && j < |pages|
    ensures (base + PageOffset(pages, j)) % Bytes(pages[j].size) == 0 && pages[j].phys % Bytes(pages[j].size) == 0
  {
    hide Bytes, PageOffset;
  }

  // One round of the loop in Region::map.
  method MapPage(pm: PageMap, virt: nat, page: Page, flags: Flags)
    requires pm.Valid() && virt % Bytes(page.size) == 0 && page.phys % Bytes(page.size) == 0
    requires Free(pm.leaves, PathOf(virt, DepthFor(page.size)))
    modifies pm`tables, pm`leaves, pm`made, pm.made
    ensures pm.Valid() && pm.leaves == old(pm.leaves)[PathOf(virt, DepthFor(page.size)) := Mapping(page.phys, flags)]
    ensures fresh(pm.made - old(pm.made))
  {
    match page.size
    case Normal => pm.Map4KiB(virt, page.phys, flags);
    case Large => pm.Map2MiB(virt, page.phys, flags);
    case Huge => pm.Map1GiB(virt, page.phys, flags);
  }

  /** The loop of Region::map: adds exactly the leaves of the pages. */
  method MapPages(pm: PageMap, base: nat, pages: seq<Page>, flags: Flags)
    requires pm.Valid() && Mappable(base, pages)
    requires forall p :: p in pm.leaves ==> Outside(p, base, base + PageOffset(pages, |pages|))
    modifies pm`tables, pm`leaves, pm`made, pm.made
    ensures pm.Valid() && pm.leaves == old(pm.leaves) + LeavesOf(base, pages, flags, |pages|)
    ensures fresh(pm.made - old(pm.made))
  {
    hide PageMap.Valid, Free, Outside, PathOf, DepthFor, Mappable, Bytes;
    var virt := base;
    for j := 0 to |pages|
      invariant pm.Valid() && fresh(pm.made - old(pm.made))
      invariant virt == base + PageOffset(pages, j)
      invariant pm.leaves == old(pm.leaves) + LeavesOf(base, pages, flags, j)
    {
      PageAligned(base, pages, j);
      NextPageFree(old(pm.leaves), base, pages, flags, j);
      MapPage(pm, virt, pages[j], flags);
      virt := virt + Bytes(pages[j].size);
    }
  }

  method UnmapPage(pm: PageMap, virt: nat, page: Page)
    requires pm.Valid() && virt % Bytes(page.size) == 0 && PathOf(virt, DepthFor(page.size)) in pm.leaves
    modifies pm`tables, pm`leaves, pm.made
    ensures pm.Valid() && pm.leaves == old(pm.leaves) - {PathOf(virt, DepthFor(page.size))}
  {
    match page.size
    case Normal => pm.Unmap4KiB(virt);
    case Large => pm.Unmap2MiB(virt);
    case Huge => pm.Unmap1GiB(virt);
  }

  // No earlier page has the path of page j.
  lemma PathNotAmongEarlier(base: nat, pages: seq<Page>, flags: Flags, j: nat)
    requires Mappable(base, pages) && j < |pages|
    ensures PagePath(base, pages, j) !in LeavesOf(base, pages, flags, j)
    ensures PagePath(base, pages, j) in LeavesOf(base, pages, flags, |pages|)
  {
    hide LeavesOf, PagePath, Mappable, Proper, Start, PageOffset, Depth;
    KeysOfLeaves(base, pages, flags, j);
    KeysOfLeaves(base, pages, flags, |pages|);
    PagePathRange(base, pages, j);
    if PagePath(base, pages, j) in LeavesOf(base, pages, flags, j) {
      var i :| 0 <= i < j && PagePath(base, pages, j) == PagePath(base, pages, i);
      PagePathRange(base, pages, i);
      OffsetsGrow(pages, i, j);
    }
  }

  /** The loop of Region::unmap_if_needed: takes away exactly the leaves of the pages. */
  method UnmapPages(pm: PageMap, base: nat, pages: seq<Page>, ghost flags: Flags)
    requires pm.Valid() && Mappable(base, pages)
    requires LeavesOf(base, pages, flags, |pages|).Keys <= pm.leaves.Keys
    modifies pm`tables, pm`leaves, pm.made
    ensures pm.Valid() && pm.leaves == old(pm.leaves) - LeavesOf(base, pages, flags, |pages|).Keys
  {
    hide PageMap.Valid, Free, Outside, PathOf, DepthFor, Mappable, Bytes;
    var virt := base;
    for j := 0 to |pages|
      invariant pm.Valid()
      invariant virt == base + PageOffset(pages, j)
      invariant pm.leaves == old(pm.leaves) - LeavesOf(base, pages, flags, j).Keys
    {
      PageAligned(base, pages, j);
      PathNotAmongEarlier(base, pages, flags, j);
      UnmapPage(pm, virt, pages[j]);
      virt := virt + Bytes(pages[j].size);
    }
  }
}
