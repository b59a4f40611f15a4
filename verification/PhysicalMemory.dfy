/** One physical memory for the kernel heap, the pages and direct allocations: all of them take frames
    from the same bitset (kernel/mem/heap.cc, kernel/mem/physical_page.cc). */
module PhysicalMemory {
  import opened Arithmetic
  import opened Bits
  import opened Frames
  import opened Heap
  import opened KernelHeaps
  import opened Regions
  import opened Sums

  class Memory {
    const mm: MemoryManager
    const heap: KernelHeap
    const holders: PageHolders

    // The frames of heap regions are reserved, so no page owns them.
    ghost predicate Valid()
      reads this, mm, mm.bitset, heap, heap.mm, heap.mm.bitset, heap.regions, heap.Bitsets()
      reads holders, holders.mm, holders.mm.bitset
    {
      && heap.mm == mm && holders.mm == mm && heap.Valid() && holders.Valid()
      && Reserved(heap.regions, holders.reserved)
    }

    constructor (heap: KernelHeap)
      requires heap.Valid()
      ensures Valid() && this.heap == heap && fresh(holders) && holders.pages == []
    {
      mm := heap.mm;
      this.heap := heap;
      holders := new PageHolders(heap.mm);
    }

    // What else changes, the heap stays whole while the frames of its regions stay in use.
    twostate lemma HeapStays()
      requires old(Valid()) && holders.Valid() && unchanged(heap, old(heap.regions), old(heap.Bitsets()))
      requires Reserved(heap.regions, holders.reserved)
      ensures Valid() && heap.State().blocks == old(heap.State()).blocks
    {
      hide HeapRegion.Valid, PageHolders.Accounts, Placed;
      holders.ReservedInUse();
      forall r | r in heap.regions ensures Placed(r, mm.Used()) && r.Valid() {
        assert r in old(heap.regions) && r.bitset in old(heap.Bitsets());
        PlacedMore(r, holders.reserved, mm.Used());
      }
    }

    // The frames that the heap took or gave back since are accounted for again.
    ghost method Recount(before: set<nat>)
      requires heap.mm == mm && holders.mm == mm && heap.Valid()
      requires holders.Accounts(before) && before - mm.Used() <= holders.reserved
      requires Reserved(heap.regions, holders.reserved - (before - mm.Used()) + (mm.Used() - before))
      modifies holders`reserved
      ensures Valid()
      ensures holders.reserved == old(holders.reserved) - (before - mm.Used()) + (mm.Used() - before)
    {
      hide HeapRegion.Valid, PageHolders.Accounts, Reserved;
      holders.Recount(before);
    }

    method HeapAllocate(size: nat) returns (r: Option<nat>, ghost k: nat, ghost first: nat)
      requires Valid() && !AllocatesDirectly(size)
      modifies heap`regions, mm.bitset, heap.regions, heap.Bitsets(), holders`reserved
      ensures Valid()
      ensures r.None? ==>
        && heap.State() == old(heap.State()) && NoRoomBefore(heap.State(), |heap.regions|, ChunksFor(size))
        && NoStripe(mm.Used(), mm.frameCount, REGION_FRAMES) && holders.reserved == old(holders.reserved)
      ensures r.Some? ==>
        && Allocated(old(heap.State()), heap.State(), ChunksFor(size), k, first) && k < |heap.regions|
        && r.value == Pointer(heap.regions[k], first) && first in heap.regions[k].headers
        && Holds(heap.regions[k].memory, first, heap.regions[k].headers[first], r.value, size)
        && old(mm.Used()) <= mm.Used()
        && holders.reserved == old(holders.reserved) + (mm.Used() - old(mm.Used()))
    {
      hide KernelHeap.Sound, HeapRegion.Valid, NoStripe, Placed, Allocated, NoRoomBefore, PageHolders.Accounts, Holds;
      ghost var before := heap.State();
      r, k, first := heap.Allocate(size);
      RegionsApart(heap);
      if r.Some? {
        AllocatedReserves(before, heap.State(), ChunksFor(size), k, first, holders.reserved);
      } else {
        assert holders.reserved - (before.frames - mm.Used()) + (mm.Used() - before.frames) == holders.reserved;
      }
      Recount(before.frames);
    }

    /** Frees a block; with the last block of a later region, its frames. */
    method HeapFree(pointer: nat, ghost k: nat, ghost first: nat)
      requires Valid() && k < |heap.regions| && first in heap.regions[k].headers
      requires pointer == Pointer(heap.regions[k], first) && !FreesDirectly(heap.regions[k].headers[first])
      modifies heap`regions, mm.bitset, heap.regions, heap.Bitsets(), holders`reserved
      ensures Valid() && Freed(old(heap.State()), heap.State(), k, first) && mm.Used() <= old(mm.Used())
      ensures holders.reserved == old(holders.reserved) - (old(mm.Used()) - mm.Used())
    {
      hide KernelHeap.Sound, HeapRegion.Valid, Placed, Freed, PageHolders.Accounts;
      ghost var before := heap.State();
      RegionsApart(heap);
      assert heap.regions[k].bitset in heap.Bitsets();
      heap.Deallocate(pointer, k, first);
      FreedReserves(before, heap.State(), k, first, holders.reserved);
      Recount(before.frames);
    }

    method PageAllocate(size: PageSize) returns (r: Claim)
      requires Valid()
      modifies holders`pages, mm.bitset
      ensures Valid() && heap.State().blocks == old(heap.State()).blocks
      ensures !r.Found? ==>
        && holders.pages == old(holders.pages) && mm.Used() == old(mm.Used())
        && Refused(r, mm.Used(), mm.frameCount, FrameCount(size))
      ensures r.Found? ==>
        && holders.pages == old(holders.pages) + [Page(r.address, size, true)]
        && Lowest(old(mm.Used()), mm.frameCount, FrameCount(size), r.address / FRAME)
    {
      hide HeapRegion.Valid, PageHolders.Accounts, Placed, Refused, Lowest;
      r := holders.Allocate(size);
      HeapStays();
    }

    method PageMove(i: nat)
      requires Valid() && i < |holders.pages|
      modifies holders`pages
      ensures Valid()
      ensures holders.pages == old(holders.pages)[i := Page(0, Normal, false)] + [old(holders.pages)[i]]
    {
      hide HeapRegion.Valid, PageHolders.Accounts, Placed;
      holders.Move(i);
      HeapStays();
    }

    method PageDrop(i: nat)
      requires Valid() && i < |holders.pages|
      modifies holders`pages, mm.bitset
      ensures Valid() && heap.State().blocks == old(heap.State()).blocks
      ensures holders.pages == old(holders.pages)[i := Page(0, Normal, false)]
    {
      hide HeapRegion.Valid, PageHolders.Accounts, Placed;
      holders.Drop(i);
      HeapStays();
    }

    /** Frames that something else takes directly. */
    method TakeFrames(size: nat) returns (r: Claim)
      requires Valid()
      modifies holders`reserved, mm.bitset
      ensures Valid() && heap.State().blocks == old(heap.State()).blocks
      ensures r.Found? ==>
        && r.address % FRAME == 0 && Lowest(old(mm.Used()), mm.frameCount, FramesFor(size), r.address / FRAME)
        && holders.reserved == old(holders.reserved) + Range(r.address / FRAME, FramesFor(size))
      ensures !r.Found? ==>
        holders.reserved == old(holders.reserved) && Refused(r, mm.Used(), mm.frameCount, FramesFor(size))
    {
      hide HeapRegion.Valid, PageHolders.Accounts, Placed, Refused, Lowest, FramesFor;
      r := holders.TakeFrames(size);
      forall s | s in heap.regions ensures Placed(s, holders.reserved) {
        PlacedMore(s, old(holders.reserved), holders.reserved);
      }
      HeapStays();
    }

    /** Frames that are given back directly: reserved ones, outside the heap's regions. */
    method GiveFrames(address: nat, size: nat)
      requires Valid() && address % FRAME == 0 && address / FRAME + FramesFor(size) <= mm.frameCount
      requires Range(address / FRAME, FramesFor(size)) <= holders.reserved
      requires Reserved(heap.regions, holders.reserved - Range(address / FRAME, FramesFor(size)))
      modifies holders`reserved, mm.bitset
      ensures Valid() && heap.State().blocks == old(heap.State()).blocks
      ensures holders.reserved == old(holders.reserved) - Range(address / FRAME, FramesFor(size))
    {
      hide HeapRegion.Valid, PageHolders.Accounts, Placed, FramesFor;
      holders.GiveFrames(address, size);
      HeapStays();
    }
  }

  ghost predicate Apart(regions: seq<HeapRegion>) {
    && (forall r :: r in regions ==> r.chunkCount == CHUNKS)
    && (forall i, j :: 0 <= i < j < |regions| ==> regions[i].memory != regions[j].memory)
  }

  lemma RegionsApart(heap: KernelHeap)
    requires heap.Valid()
    ensures Apart(heap.regions)
  {
  }

  ghost predicate Reserved(regions: seq<HeapRegion>, reserved: set<nat>) {
    forall r :: r in regions ==> Placed(r, reserved)
  }

  lemma AllocatedReserves(s: Snapshot, t: Snapshot, count: nat, k: nat, first: nat, reserved: set<nat>)
    requires Allocated(s, t, count, k, first) && Apart(t.regions) && Reserved(s.regions, reserved)
    ensures s.frames <= t.frames && Reserved(t.regions, reserved - (s.frames - t.frames) + (t.frames - s.frames))
  {
    hide Placed, Grown, FirstFit, NoRoomBefore;
    if k == |s.regions| {
      GrownPlaced(t.regions[k], s.frames, t.frames);
    }
    var after := reserved - (s.frames - t.frames) + (t.frames - s.frames);
    forall r | r in t.regions ensures Placed(r, after) {
      if r in s.regions {
        PlacedMore(r, reserved, after);
      } else {
        PlacedMore(r, t.frames - s.frames, after);
      }
    }
  }

  lemma FreedReserves(s: Snapshot, t: Snapshot, k: nat, first: nat, reserved: set<nat>)
    requires Freed(s, t, k, first) && Apart(s.regions) && Reserved(s.regions, reserved)
    ensures s.frames - t.frames <= reserved && t.frames <= s.frames
    ensures Reserved(t.regions, reserved - (s.frames - t.frames) + (t.frames - s.frames))
  {
    hide Placed, Grown;
    var gone := s.regions[k];
    if t.regions == s.regions {
      assert reserved - (s.frames - t.frames) + (t.frames - s.frames) == reserved;
    } else {
      ShrunkPlaced(gone, t.frames, s.frames, reserved);
      assert reserved - (s.frames - t.frames) + (t.frames - s.frames) == reserved - (s.frames - t.frames);
      forall r | r in t.regions ensures Placed(r, reserved - (s.frames - t.frames)) {
        OthersPlaced(r, gone, t.frames, s.frames, reserved);
      }
    }
  }

  lemma ShrunkPlaced(r: HeapRegion, after: set<nat>, before: set<nat>, reserved: set<nat>)
    requires Grown(r, after, before) && Placed(r, reserved)
    ensures before - after <= reserved && after <= before
  {
    var a: nat :| InStripe(r, a, before) && after == before - Range(a * REGION_FRAMES, REGION_FRAMES);
    var b: nat :| InStripe(r, b, reserved);
    assert a == b;
  }

  lemma OthersPlaced(s: HeapRegion, r: HeapRegion, after: set<nat>, before: set<nat>, reserved: set<nat>)
    requires Grown(r, after, before) && Placed(r, reserved) && Placed(s, reserved) && s.memory != r.memory
    ensures Placed(s, reserved - (before - after))
  {
    var a: nat :| InStripe(r, a, before) && after == before - Range(a * REGION_FRAMES, REGION_FRAMES);
    var b: nat :| InStripe(r, b, reserved);
    assert a == b && before - after == Range(a * REGION_FRAMES, REGION_FRAMES);
    PlacedLess(s, r, b, reserved);
  }

  /** No byte of a live block lies in a page that owns its frames. */
  lemma BlocksAndPagesApart(m: Memory, k: nat, first: nat, i: nat, x: nat)
    requires m.Valid() && k < |m.heap.regions| && first in m.heap.regions[k].headers
    requires var p := Pointer(m.heap.regions[k], first) - HEADER;
      p <= x < p + m.heap.regions[k].headers[first] * CHUNK
    requires i < |m.holders.pages| && m.holders.pages[i].owned
    ensures var page := m.holders.pages[i]; !(page.phys <= x < page.phys + Bytes(page.size))
  {
    var r, page := m.heap.regions[k], m.holders.pages[i];
    BlockBounds(r.headers, r.Used(), r.Scanned(), first);
    var f := InRegionFrame(r, m.holders.reserved, x);
    assert m.holders.Accounted(m.mm.Used(), f);
    SumAtLeast(Owns(f), m.holders.pages, i);
    OutsidePage(page, f, x);
  }

  lemma InRegionFrame(r: HeapRegion, frames: set<nat>, x: nat) returns (f: nat)
    requires Placed(r, frames) && r.memory <= x < r.memory + CHUNKS * CHUNK
    ensures f == x / FRAME && f in frames
  {
    var a: nat :| InStripe(r, a, frames);
    f := x / FRAME;
    assert f in Range(a * REGION_FRAMES, REGION_FRAMES);
  }

  lemma OutsidePage(page: Page, f: nat, x: nat)
    requires f == x / FRAME && page.phys % Bytes(page.size) == 0 && page.owned && Owns(f)(page) == 0
    ensures !(page.phys <= x < page.phys + Bytes(page.size))
  {
    FramesOfPage(page.size);
  }

  lemma GrownPlaced(r: HeapRegion, before: set<nat>, after: set<nat>)
    requires Grown(r, before, after) && r.chunkCount == CHUNKS
    ensures Placed(r, after - before) && before <= after
  {
    var a: nat :| InStripe(r, a, after) && before == after - Range(a * REGION_FRAMES, REGION_FRAMES);
    assert InStripe(r, a, after - before);
  }
}
