/** What the clients of `operator new` and `operator delete` (kernel/mem/heap.cc) hold: each live pointer
    with the size that was asked for, whether it was served from a region or from frames directly. */
module HeapClients {
  import opened Arithmetic
  import opened Bits
  import opened Frames
  import opened Heap
  import opened KernelHeaps
  import opened PhysicalMemory
  import opened Regions
  import opened Sums

  datatype Home = InRegion(region: HeapRegion, first: nat) | InFrames(frame: nat)

  datatype Grant = Grant(size: nat, home: Home)

  type Grants = map<nat, Grant>

  // The frames of a block that was allocated directly.
  ghost function FramesOf(g: Grant): set<nat>
    requires g.home.InFrames?
  {
    Range(g.home.frame, FramesFor(g.size + HEADER))
  }

  ghost predicate HeldInRegion(p: nat, g: Grant, blocks: Blocks)
    requires g.home.InRegion?
  {
    var r, first := g.home.region, g.home.first;
    && !AllocatesDirectly(g.size) && p == Pointer(r, first)
    && r in blocks && first in blocks[r] && blocks[r][first] == ChunksFor(g.size)
  }

  // The frames are reserved for this block: no region of the heap has any of them.
  ghost predicate HeldInFrames(p: nat, g: Grant, blocks: Blocks, reserved: set<nat>)
    requires g.home.InFrames?
  {
    && AllocatesDirectly(g.size) && p == g.home.frame * FRAME + HEADER
    && FramesOf(g) <= reserved
    && forall r :: r in blocks ==> Placed(r, reserved - FramesOf(g))
  }

  ghost predicate Held(p: nat, g: Grant, blocks: Blocks, reserved: set<nat>) {
    if g.home.InRegion? then HeldInRegion(p, g, blocks) else HeldInFrames(p, g, blocks, reserved)
  }

  ghost predicate FramesApart(live: Grants) {
    forall p, q :: p in live && q in live && p != q && live[p].home.InFrames? && live[q].home.InFrames? ==>
      FramesOf(live[p]) !! FramesOf(live[q])
  }

  ghost predicate Kept(live: Grants, blocks: Blocks, reserved: set<nat>) {
    && (forall p :: p in live ==> Held(p, live[p], blocks, reserved))
    && FramesApart(live)
  }

  // ----- an allocation from a region -----

  lemma StaysHeld(p: nat, g: Grant, s: Snapshot, t: Snapshot, count: nat, k: nat, first: nat, reserved: set<nat>)
    requires Held(p, g, s.blocks, reserved) && Allocated(s, t, count, k, first)
    requires reserved <= s.frames && s.frames <= t.frames && Apart(t.regions) && s.Listed()
    ensures Held(p, g, t.blocks, reserved + (t.frames - s.frames))
    ensures g.home != InRegion(t.regions[k], first)
  {
    hide Placed, Grown, FirstFit, NoRoomBefore;
    var reserved', r := reserved + (t.frames - s.frames), t.regions[k];
    if g.home.InFrames? {
      if k == |s.regions| {
        GrownPlaced(r, s.frames, t.frames);
      }
      forall u | u in t.blocks ensures Placed(u, reserved' - FramesOf(g)) {
        if u in s.blocks {
          PlacedMore(u, reserved - FramesOf(g), reserved' - FramesOf(g));
        } else {
          PlacedMore(u, t.frames - s.frames, reserved' - FramesOf(g));
        }
      }
    }
  }

  lemma AllocatedKeeps(live: Grants, s: Snapshot, t: Snapshot, size: nat, k: nat, first: nat, reserved: set<nat>)
    requires Kept(live, s.blocks, reserved) && Allocated(s, t, ChunksFor(size), k, first)
    requires reserved <= s.frames && s.frames <= t.frames && Apart(t.regions) && s.Listed()
    requires !AllocatesDirectly(size)
    ensures var g := Grant(size, InRegion(t.regions[k], first));
      && Kept(live, t.blocks, reserved + (t.frames - s.frames))
      && Held(Pointer(t.regions[k], first), g, t.blocks, reserved + (t.frames - s.frames))
      && forall p :: p in live ==> live[p].home != g.home
  {
    hide Held, NoRoomBefore, Grown, FirstFit, WithBlock;
    forall p | p in live
      ensures Held(p, live[p], t.blocks, reserved + (t.frames - s.frames))
      ensures live[p].home != InRegion(t.regions[k], first)
    {
      StaysHeld(p, live[p], s, t, ChunksFor(size), k, first, reserved);
    }
    NewBlockHeld(s, t, size, k, first, reserved + (t.frames - s.frames));
  }

  lemma NewBlockHeld(s: Snapshot, t: Snapshot, size: nat, k: nat, first: nat, reserved: set<nat>)
    requires Allocated(s, t, ChunksFor(size), k, first) && !AllocatesDirectly(size)
    ensures Held(Pointer(t.regions[k], first), Grant(size, InRegion(t.regions[k], first)), t.blocks, reserved)
  {
    hide Grown, FirstFit, NoRoomBefore, ChunksFor;
  }

  // ----- an allocation of frames -----

  lemma TakenKeeps(live: Grants, blocks: Blocks, reserved: set<nat>, used: set<nat>, size: nat, frame: nat)
    requires Kept(live, blocks, reserved) && reserved <= used && AllocatesDirectly(size)
    requires Vacant(used, frame, FramesFor(size + HEADER))
    requires forall r :: r in blocks ==> Placed(r, reserved)
    ensures var g := Grant(size, InFrames(frame));
      && Kept(live, blocks, reserved + FramesOf(g))
      && Held(frame * FRAME + HEADER, g, blocks, reserved + FramesOf(g))
      && forall p :: p in live && live[p].home.InFrames? ==> FramesOf(live[p]) !! FramesOf(g)
  {
    hide Placed, FramesFor, AllocatesDirectly;
    var g := Grant(size, InFrames(frame));
    var reserved' := reserved + FramesOf(g);
    forall r | r in blocks ensures Placed(r, reserved' - FramesOf(g)) {
      PlacedMore(r, reserved, reserved' - FramesOf(g));
    }
    forall p | p in live && live[p].home.InFrames?
      ensures Held(p, live[p], blocks, reserved') && FramesOf(live[p]) !! FramesOf(g)
    {
      assert Held(p, live[p], blocks, reserved);
      forall r | r in blocks ensures Placed(r, reserved' - FramesOf(live[p])) {
        PlacedMore(r, reserved - FramesOf(live[p]), reserved' - FramesOf(live[p]));
      }
    }
  }

  // ----- a block of a region goes -----

  lemma FreedKeeps(live: Grants, s: Snapshot, t: Snapshot, k: nat, first: nat, p: nat, reserved: set<nat>)
    requires Kept(live, s.blocks, reserved) && Freed(s, t, k, first) && Apart(s.regions) && s.Listed()
    requires k < |s.regions| && p in live && live[p].home == InRegion(s.regions[k], first)
    requires Placed(s.regions[k], reserved)
    ensures Kept(live - {p}, t.blocks, reserved - (s.frames - t.frames))
  {
    hide Placed, Freed, HeldInRegion, HeldInFrames;
    assert Held(p, live[p], s.blocks, reserved);
    assert p == Pointer(s.regions[k], first) by { HeldAt(p, live[p], s.blocks); }
    forall q | q in live - {p} ensures Held(q, live[q], t.blocks, reserved - (s.frames - t.frames)) {
      assert Held(q, live[q], s.blocks, reserved);
      if live[q].home.InFrames? {
        DirectStaysHeld(q, live[q], s, t, k, first, reserved);
      } else {
        OtherStaysHeld(q, live[q], s, t, k, first, reserved);
      }
    }
  }

  lemma HeldAt(p: nat, g: Grant, blocks: Blocks)
    requires g.home.InRegion? && HeldInRegion(p, g, blocks)
    ensures p == Pointer(g.home.region, g.home.first)
  {
  }

  lemma OtherStaysHeld(q: nat, g: Grant, s: Snapshot, t: Snapshot, k: nat, first: nat, reserved: set<nat>)
    requires g.home.InRegion? && HeldInRegion(q, g, s.blocks) && Freed(s, t, k, first)
    requires q != Pointer(s.regions[k], first)
    ensures HeldInRegion(q, g, t.blocks)
  {
    hide Grown, ChunksFor;
    var gone := s.regions[k];
    if g.home.region == gone {
      assert g.home.first in s.blocks[gone] - {first};
    }
  }

  lemma DirectStaysHeld(q: nat, g: Grant, s: Snapshot, t: Snapshot, k: nat, first: nat, reserved: set<nat>)
    requires g.home.InFrames? && HeldInFrames(q, g, s.blocks, reserved) && Freed(s, t, k, first)
    requires Apart(s.regions) && s.Listed() && Placed(s.regions[k], reserved)
    ensures HeldInFrames(q, g, t.blocks, reserved - (s.frames - t.frames))
  {
    hide Placed, Grown;
    var gone := s.regions[k];
    if t.regions == s.regions {
      assert reserved - (s.frames - t.frames) == reserved;
    } else {
      ShrunkPlaced(gone, t.frames, s.frames, reserved - FramesOf(g));
      forall r | r in t.blocks ensures Placed(r, reserved - (s.frames - t.frames) - FramesOf(g)) {
        OthersPlaced(r, gone, t.frames, s.frames, reserved - FramesOf(g));
        PlacedMore(r, reserved - FramesOf(g) - (s.frames - t.frames), reserved - (s.frames - t.frames) - FramesOf(g));
      }
    }
  }

  // ----- frames go -----

  lemma PlacedBeside(r: HeapRegion, frames: set<nat>, a: set<nat>, b: set<nat>)
    requires Placed(r, frames - a) && Placed(r, frames - b)
    ensures Placed(r, frames - a - b)
  {
    var i: nat :| InStripe(r, i, frames - a);
    var j: nat :| InStripe(r, j, frames - b);
    assert i == j;
    assert InStripe(r, i, frames - a - b);
  }

  lemma GivenKeeps(live: Grants, blocks: Blocks, reserved: set<nat>, p: nat, given: set<nat>)
    requires Kept(live, blocks, reserved) && p in live && live[p].home.InFrames? && given <= FramesOf(live[p])
    ensures Kept(live - {p}, blocks, reserved - given)
    ensures given <= reserved && forall r :: r in blocks ==> Placed(r, reserved - given)
  {
    hide Placed, FramesFor;
    assert Held(p, live[p], blocks, reserved);
    forall r | r in blocks ensures Placed(r, reserved - given) {
      PlacedMore(r, reserved - FramesOf(live[p]), reserved - given);
    }
    forall q | q in live - {p} ensures Held(q, live[q], blocks, reserved - given) {
      assert Held(q, live[q], blocks, reserved);
      if live[q].home.InFrames? {
        forall r | r in blocks ensures Placed(r, reserved - given - FramesOf(live[q])) {
          PlacedBeside(r, reserved, given, FramesOf(live[q]));
        }
      }
    }
  }

  // What a header says is never more than what was taken.
  lemma GivesNoMore(size: nat)
    requires AllocatesDirectly(size)
    ensures 0 < FramesFor(HeaderCount(size) * CHUNK) <= FramesFor(size + HEADER)
  {
    var n := FramesFor(size + HEADER);
    FramesCover(size + HEADER);
    assert HeaderCount(size) * CHUNK == AlignUp(size, CHUNK);
    hide HeaderCount, FramesFor, AlignUp;
    DivModUnique(n * FRAME, CHUNK, n * (FRAME / CHUNK), 0);
    AlignUpBounds(size, CHUNK);
    AlignUpIsLeast(size, CHUNK, n * FRAME);
    FramesCover(HeaderCount(size) * CHUNK);
  }

  lemma FramesCover(size: nat)
    ensures size <= FramesFor(size) * FRAME < size + FRAME
  {
    AlignUpBounds(size, FRAME);
    Euclid(AlignUp(size, FRAME), FRAME);
  }

  // ----- bytes -----

  ghost predicate ApartBytes(p: nat, g: Grant, q: nat, h: Grant) {
    p + g.size + HEADER <= q || q + h.size + HEADER <= p
  }

  // Stripes without a common frame lie on two sides of an address.
  lemma StripesSeparate(i: nat, m: nat, j: nat, n: nat)
    requires Range(i, m) !! Range(j, n) && m > 0 && n > 0
    ensures i + m <= j || j + n <= i
  {
    var f := if i < j then j else i;
    assert !(f in Range(i, m) && f in Range(j, n));
  }

  lemma BlockEnds(r: HeapRegion, first: nat)
    requires r.Valid() && r.chunkCount == CHUNKS && first in r.headers
    ensures first + r.headers[first] <= CHUNKS
  {
    BlockBounds(r.headers, r.Used(), r.Scanned(), first);
  }

  lemma RegionBlockBytes(m: Memory, p: nat, g: Grant, frames: set<nat>) returns (a: nat)
    requires m.Valid() && g.home.InRegion? && HeldInRegion(p, g, m.heap.Blocks()) && Placed(g.home.region, frames)
    ensures InStripe(g.home.region, a, frames) && a * MIB + HEADER <= p && p + g.size <= a * MIB + MIB
  {
    hide ChunksFor, HeapRegion.Valid, PageHolders.Valid, PhysicalMemory.Reserved;
    var r := g.home.region;
    assert r.Valid() && r.chunkCount == CHUNKS;
    BlockEnds(r, g.home.first);
    a :| InStripe(r, a, frames);
    ChunksHold(r.memory, g.home.first, g.size);
  }

  lemma InRegionsApart(m: Memory, p: nat, g: Grant, q: nat, h: Grant)
    requires m.Valid() && g.home != h.home && g.home.InRegion? && h.home.InRegion?
    requires HeldInRegion(p, g, m.heap.Blocks()) && HeldInRegion(q, h, m.heap.Blocks())
    ensures ApartBytes(p, g, q, h)
  {
    var r, u := g.home.region, h.home.region;
    var i :| 0 <= i < |m.heap.regions| && m.heap.regions[i] == r;
    var j :| 0 <= j < |m.heap.regions| && m.heap.regions[j] == u;
    LiveBlocksApart(m.heap, i, g.home.first, j, h.home.first);
    ChunksHold(r.memory, g.home.first, g.size);
    ChunksHold(u.memory, h.home.first, h.size);
  }

  lemma InFramesApart(p: nat, g: Grant, q: nat, h: Grant, blocks: Blocks, reserved: set<nat>)
    requires g.home.InFrames? && h.home.InFrames? && FramesOf(g) !! FramesOf(h)
    requires HeldInFrames(p, g, blocks, reserved) && HeldInFrames(q, h, blocks, reserved)
    ensures ApartBytes(p, g, q, h)
  {
    FramesCover(g.size + HEADER);
    FramesCover(h.size + HEADER);
    StripesSeparate(g.home.frame, FramesFor(g.size + HEADER), h.home.frame, FramesFor(h.size + HEADER));
  }

  lemma RegionAndFramesApart(m: Memory, p: nat, g: Grant, q: nat, h: Grant)
    requires m.Valid() && g.home.InRegion? && h.home.InFrames?
    requires HeldInRegion(p, g, m.heap.Blocks()) && HeldInFrames(q, h, m.heap.Blocks(), m.holders.reserved)
    ensures ApartBytes(p, g, q, h)
  {
    hide Placed, HeldInRegion, KernelHeap.Valid, PageHolders.Valid;
    assert g.home.region in m.heap.Blocks() by { RegionOf(p, g, m.heap.Blocks()); }
    var a := RegionBlockBytes(m, p, g, m.holders.reserved - FramesOf(h));
    FramesCover(h.size + HEADER);
    StripesSeparate(a * REGION_FRAMES, REGION_FRAMES, h.home.frame, FramesFor(h.size + HEADER));
  }

  lemma RegionOf(p: nat, g: Grant, blocks: Blocks)
    requires g.home.InRegion? && HeldInRegion(p, g, blocks)
    ensures g.home.region in blocks
  {
  }

  lemma HeldApart(m: Memory, p: nat, g: Grant, q: nat, h: Grant)
    requires m.Valid() && g.home != h.home
    requires Held(p, g, m.heap.Blocks(), m.holders.reserved) && Held(q, h, m.heap.Blocks(), m.holders.reserved)
    requires g.home.InFrames? && h.home.InFrames? ==> FramesOf(g) !! FramesOf(h)
    ensures ApartBytes(p, g, q, h)
  {
    hide Memory.Valid, HeldInRegion, HeldInFrames, FramesOf, ApartBytes;
    if g.home.InRegion? && h.home.InRegion? {
      InRegionsApart(m, p, g, q, h);
    } else if g.home.InFrames? && h.home.InFrames? {
      InFramesApart(p, g, q, h, m.heap.Blocks(), m.holders.reserved);
    } else if g.home.InRegion? {
      RegionAndFramesApart(m, p, g, q, h);
    } else {
      RegionAndFramesApart(m, q, h, p, g);
      assert ApartBytes(p, g, q, h) by { ApartBothWays(q, h, p, g); }
    }
  }

  lemma ApartBothWays(p: nat, g: Grant, q: nat, h: Grant)
    requires ApartBytes(p, g, q, h)
    ensures ApartBytes(q, h, p, g)
  {
  }

  // ----- operator new and operator delete -----

  /** `counts` are the chunk counts in the headers in front of the live pointers. */
  class Clients {
    const memory: Memory
    var counts: map<nat, nat>
    ghost var live: Grants

    ghost predicate Valid()
      reads this, memory, memory.mm, memory.mm.bitset, memory.heap, memory.heap.mm, memory.heap.mm.bitset
      reads memory.heap.regions, memory.heap.Bitsets(), memory.holders, memory.holders.mm, memory.holders.mm.bitset
    {
      && memory.Valid()
      && counts.Keys == live.Keys && (forall p :: p in live ==> counts[p] == HeaderCount(live[p].size))
      && Kept(live, memory.heap.Blocks(), memory.holders.reserved)
    }

    constructor (memory: Memory)
      requires memory.Valid()
      ensures Valid() && this.memory == memory && live == map[]
    {
      this.memory := memory;
      counts := map[];
      live := map[];
    }

    // A new pointer with its size and its header.
    method Record(p: nat, size: nat, count: nat, ghost home: Home)
      requires memory.Valid() && counts.Keys == live.Keys && count == HeaderCount(size)
      requires forall q :: q in live ==> counts[q] == HeaderCount(live[q].size)
      requires Kept(live, memory.heap.Blocks(), memory.holders.reserved)
      requires Held(p, Grant(size, home), memory.heap.Blocks(), memory.holders.reserved)
      requires forall q :: q in live ==> live[q].home != home
      requires home.InFrames? ==> forall q :: q in live && live[q].home.InFrames? ==>
        FramesOf(live[q]) !! FramesOf(Grant(size, home))
      modifies this
      ensures Valid() && p !in old(live) && live == old(live)[p := Grant(size, home)]
    {
      hide HeapRegion.Valid, PageHolders.Accounts, Placed, Held, HeaderCount, ApartBytes, FramesFor;
      ghost var g := Grant(size, home);
      forall q | q in live ensures p != q {
        HeldApart(memory, p, g, q, live[q]);
        ApartDiffer(p, g, q, live[q]);
      }
      KeptMore(live, p, g, memory.heap.Blocks(), memory.holders.reserved);
      counts := counts[p := count];
      live := live[p := g];
    }

    method NewInFrames(size: nat) returns (r: Option<nat>)
      requires Valid() && AllocatesDirectly(size)
      modifies this, memory.mm.bitset, memory.holders`reserved
      ensures Valid()
      ensures r.Some? ==> r.value !in old(live) && r.value in live && live == old(live)[r.value := live[r.value]]
      ensures r.Some? ==> live[r.value].size == size && live[r.value].home.InFrames?
      ensures r.None? ==> live == old(live)
      ensures r.None? ==> NoStripe(memory.mm.Used(), memory.mm.frameCount, FramesFor(size + HEADER))
    {
      hide Kept, Held, FramesFor, NoneBefore, NoStripe, KernelHeap.Valid, PageHolders.Accounts;
      memory.holders.ReservedInUse();
      ghost var reserved, used, blocks := memory.holders.reserved, memory.mm.Used(), memory.heap.Blocks();
      var claim := memory.TakeFrames(size + HEADER);
      assert memory.heap.Blocks() == blocks;
      if !claim.Found? {
        return None;
      }
      ghost var frame := claim.address / FRAME;
      ghost var g := Grant(size, InFrames(frame));
      TakenKeeps(live, blocks, reserved, used, size, frame);
      OthersDiffer(live, g);
      Record(claim.address + HEADER, size, (size + CHUNK - 1) / CHUNK, g.home);
      return Some(claim.address + HEADER);
    }

    method NewInRegion(size: nat) returns (r: Option<nat>)
      requires Valid() && !AllocatesDirectly(size)
      modifies this, memory.heap`regions, memory.mm.bitset, memory.heap.regions, memory.heap.Bitsets()
      modifies memory.holders`reserved
      ensures Valid()
      ensures r.Some? ==> r.value !in old(live) && r.value in live && live == old(live)[r.value := live[r.value]]
      ensures r.Some? ==> live[r.value].size == size && live[r.value].home.InRegion?
      ensures r.None? ==>
        && live == old(live) && NoStripe(memory.mm.Used(), memory.mm.frameCount, REGION_FRAMES)
        && NoRoomBefore(memory.heap.State(), |memory.heap.regions|, ChunksFor(size))
    {
      hide Kept, Held, NoStripe, NoRoomBefore, Allocated, HeapRegion.Valid, PageHolders.Accounts, Holds;
      memory.holders.ReservedInUse();
      ghost var reserved, before := memory.holders.reserved, memory.heap.State();
      ghost var k, first;
      r, k, first := memory.HeapAllocate(size);
      if r.None? {
        return;
      }
      ghost var region := memory.heap.regions[k];
      RegionsApart(memory.heap);
      AllocatedKeeps(live, before, memory.heap.State(), size, k, first, reserved);
      Record(r.value, size, ChunksFor(size), InRegion(region, first));
    }

    /** operator new. None stands for the stop for lack of memory: there is no stripe of frames for the
        block itself, or no region has room and there is none for a new region. */
    method New(size: nat) returns (r: Option<nat>)
      requires Valid()
      modifies this, memory.heap`regions, memory.mm.bitset, memory.heap.regions, memory.heap.Bitsets()
      modifies memory.holders`reserved
      ensures Valid()
      ensures r.Some? ==> r.value !in old(live) && r.value in live && live[r.value].size == size
      ensures live.Keys == old(live.Keys) + (if r.Some? then {r.value} else {})
      ensures forall q :: q in old(live) ==> q in live && live[q] == old(live)[q]
      ensures r.None? ==>
        if AllocatesDirectly(size) then NoStripe(memory.mm.Used(), memory.mm.frameCount, FramesFor(size + HEADER))
        else
          && NoStripe(memory.mm.Used(), memory.mm.frameCount, REGION_FRAMES)
          && NoRoomBefore(memory.heap.State(), |memory.heap.regions|, ChunksFor(size))
    {
      hide Memory.Valid, Kept, Held, FramesOf, NoStripe, FramesFor, Allocated, NoRoomBefore, HeapRegion.Used;
      if AllocatesDirectly(size) {
        r := NewInFrames(size);
      } else {
        r := NewInRegion(size);
      }
    }

    // A pointer that is no longer live.
    method Forget(p: nat)
      requires memory.Valid() && counts.Keys == live.Keys
      requires forall q :: q in live ==> counts[q] == HeaderCount(live[q].size)
      requires Kept(live - {p}, memory.heap.Blocks(), memory.holders.reserved)
      modifies this`counts, this`live
      ensures Valid() && live == old(live) - {p}
    {
      hide HeapRegion.Valid, PageHolders.Accounts, Placed, Kept, HeaderCount;
      counts := counts - {p};
      live := live - {p};
    }

    method DeleteInFrames(p: nat)
      requires Valid() && p in live && live[p].home.InFrames? && FreesDirectly(counts[p])
      modifies this, memory.mm.bitset, memory.holders`reserved
      ensures Valid() && live == old(live) - {p} && memory.heap.Blocks() == old(memory.heap.Blocks())
    {
      hide Kept, FramesFor, HeapRegion.Valid, PageHolders.Accounts, HeaderCount, Placed, FreesDirectly;
      ghost var g, blocks, reserved := live[p], memory.heap.Blocks(), memory.holders.reserved;
      assert HeldInFrames(p, g, blocks, reserved) by { KeptAt(live, blocks, reserved, p); }
      GivesNoMore(g.size);
      ghost var given := Range(g.home.frame, FramesFor(counts[p] * CHUNK));
      GivenKeeps(live, blocks, reserved, p, given);
      StripeInRange(memory, g.home.frame, FramesFor(counts[p] * CHUNK));
      memory.GiveFrames(p - HEADER, counts[p] * CHUNK);
      assert memory.heap.Blocks() == blocks;
      Forget(p);
    }

    method DeleteInRegion(p: nat) returns (ghost k: nat)
      requires Valid() && p in live && live[p].home.InRegion? && !FreesDirectly(counts[p])
      modifies this, memory.heap`regions, memory.mm.bitset, memory.heap.regions, memory.heap.Bitsets()
      modifies memory.holders`reserved
      ensures Valid() && live == old(live) - {p}
      ensures k < |old(memory.heap.regions)| && old(memory.heap.regions)[k] == old(live)[p].home.region
      ensures Freed(old(memory.heap.State()), memory.heap.State(), k, old(live)[p].home.first)
    {
      hide Kept, Freed, HeapRegion.Valid, PageHolders.Accounts, KernelHeap.Sound, Placed, FreesDirectly, HeaderCount;
      ghost var g, before, reserved := live[p], memory.heap.State(), memory.holders.reserved;
      KeptAt(live, before.blocks, reserved, p);
      k := HomeFacts(memory, p, g);
      memory.HeapFree(p, k, g.home.first);
      FreedKeeps(live, before, memory.heap.State(), k, g.home.first, p, reserved);
      Forget(p);
    }

    // Another page takes frames of its own; the clients keep what they have.
    method TakePage(size: PageSize) returns (r: Claim)
      requires Valid()
      modifies memory.holders`pages, memory.mm.bitset
      ensures Valid()
      ensures memory.holders.pages ==
        old(memory.holders.pages) + (if r.Found? then [Page(r.address, size, true)] else [])
    {
      hide HeapRegion.Valid, PageHolders.Accounts, Placed, Kept, HeaderCount, Refused, Lowest;
      r := memory.PageAllocate(size);
    }

    method DropPage(i: nat)
      requires Valid() && i < |memory.holders.pages|
      modifies memory.holders`pages, memory.mm.bitset
      ensures Valid() && memory.holders.pages == old(memory.holders.pages)[i := Page(0, Normal, false)]
    {
      hide HeapRegion.Valid, PageHolders.Accounts, Placed, Kept, HeaderCount;
      memory.PageDrop(i);
    }

    /** operator delete, for null or a live pointer whose size takes the same route back (RoutesAgreeIff
        says which do). */
    method Delete(p: nat)
      requires Valid() && (p == 0 || p in live)
      requires p in live ==> live[p].size + HEADER <= THRESHOLD || live[p].size > THRESHOLD
      modifies this, memory.heap`regions, memory.mm.bitset, memory.heap.regions, memory.heap.Bitsets()
      modifies memory.holders`reserved
      ensures Valid() && live == old(live) - {p}
    {
      hide Memory.Valid, Freed, FramesFor, Placed, FreesDirectly, HeaderCount, AllocatesDirectly;
      if p in live {
        assert Held(p, live[p], memory.heap.Blocks(), memory.holders.reserved);
        RoutesAgreeIff(live[p].size);
      }
      if p == 0 {
        return;
      }
      if FreesDirectly(counts[p]) {
        DeleteInFrames(p);
      } else {
        ghost var k := DeleteInRegion(p);
      }
    }
  }

  // ----- aligned operator new -----

  // The pointer that aligned operator new makes of a plain one.
  function AlignedPointer(p: nat, alignment: nat): nat
    requires alignment > 0
  {
    p + alignment - (p + alignment) % alignment
  }

  /** Aligned operator new asks for size + alignment + 8 bytes. The aligned pointer is a multiple of the
      alignment behind the plain one, and the client's bytes lie in what was asked for. The word in front
      of it, which records the way back, does so exactly when the plain pointer is at least 8 bytes short
      of the next multiple. */
  lemma AlignedFitsIff(p: nat, size: nat, alignment: nat)
    requires alignment > 0
    ensures var q := AlignedPointer(p, alignment);
      && q % alignment == 0 && p < q && q + size <= p + (size + alignment + 8)
      && (p <= q - 8 <==> p % alignment + 8 <= alignment)
  {
    ModStep(p, alignment);
    Euclid(p, alignment);
    DivModUnique(AlignedPointer(p, alignment), alignment, p / alignment + 1, 0);
  }

  /** Every pointer that operator new hands out is a multiple of 16, so the word fits for every alignment
      that is one as well. */
  lemma LivePointersAligned(c: Clients, p: nat, alignment: nat)
    requires c.Valid() && p in c.live && alignment > 0 && alignment % 16 == 0
    ensures p % 16 == 0 && p <= AlignedPointer(p, alignment) - 8
  {
    hide Memory.Valid, Kept, Held;
    KeptAt(c.live, c.memory.heap.Blocks(), c.memory.holders.reserved, p);
    HeldAligned(c.memory, p, c.live[p]);
    hide AlignedPointer;
    WordFits(p, alignment);
  }

  lemma HeldAligned(m: Memory, p: nat, g: Grant)
    requires m.Valid() && Held(p, g, m.heap.Blocks(), m.holders.reserved)
    ensures p % 16 == 0
  {
    hide Memory.Valid, FramesFor, AllocatesDirectly, Placed, ChunksFor;
    if g.home.InRegion? {
      RegionMemoryAligned(m, g.home.region);
      SixteensAdd(g.home.region.memory, g.home.first * 2);
    } else {
      SixteensAdd(0, g.home.frame * 256);
    }
  }

  lemma SixteensAdd(x: nat, n: nat)
    requires x % 16 == 0
    ensures (x + n * 16 + 16) % 16 == 0
  {
  }

  lemma WordFits(p: nat, alignment: nat)
    requires p % 16 == 0 && alignment > 0 && alignment % 16 == 0
    ensures p <= AlignedPointer(p, alignment) - 8
  {
    AlignedFitsIff(p, 0, alignment);
    ModOfMod(p, 16, alignment / 16);
    assert p % alignment % 16 == 0;
  }

  lemma RegionMemoryAligned(m: Memory, r: HeapRegion)
    requires m.Valid() && r in m.heap.regions
    ensures r.memory % 16 == 0
  {
    hide HeapRegion.Valid, PageHolders.Valid;
    var a: nat :| InStripe(r, a, m.holders.reserved);
  }

  /** With an alignment of 4 the word lies over the header. */
  lemma SmallAlignmentHitsHeader()
    ensures AlignedPointer(64, 4) == 68 && AlignedPointer(64, 4) - 8 < 64
  {
  }

  lemma HomeFacts(m: Memory, p: nat, g: Grant) returns (k: nat)
    requires m.Valid() && g.home.InRegion? && HeldInRegion(p, g, m.heap.Blocks())
    ensures k < |m.heap.regions| && m.heap.regions[k] == g.home.region && p == Pointer(g.home.region, g.home.first)
    ensures g.home.first in g.home.region.headers && g.home.region.headers[g.home.first] == HeaderCount(g.size)
    ensures Apart(m.heap.regions) && m.heap.State().Listed() && Placed(m.heap.regions[k], m.holders.reserved)
  {
    hide HeapRegion.Valid, PageHolders.Accounts, Placed, ChunksFor;
    RegionsApart(m.heap);
    k :| k < |m.heap.regions| && m.heap.regions[k] == g.home.region;
  }

  lemma KeptAt(live: Grants, blocks: Blocks, reserved: set<nat>, p: nat)
    requires Kept(live, blocks, reserved) && p in live
    ensures Held(p, live[p], blocks, reserved)
  {
  }

  lemma StripeInRange(m: Memory, frame: nat, n: nat)
    requires m.Valid() && Range(frame, n) <= m.holders.reserved && n > 0
    ensures frame + n <= m.mm.frameCount
  {
    assert frame + n - 1 in Range(frame, n);
  }

  /** Any two live allocations: the bytes that one client may use and the other's, headers included, have
      no byte in common. */
  lemma ClientsApart(c: Clients, p: nat, q: nat)
    requires c.Valid() && p in c.live && q in c.live && p != q
    ensures p + c.live[p].size + HEADER <= q || q + c.live[q].size + HEADER <= p
  {
    hide Memory.Valid, FramesFor, AllocatesDirectly, Placed;
    var blocks, reserved := c.memory.heap.Blocks(), c.memory.holders.reserved;
    KeptAt(c.live, blocks, reserved, p);
    KeptAt(c.live, blocks, reserved, q);
    HeldApart(c.memory, p, c.live[p], q, c.live[q]);
  }

  /** No byte of a live allocation, or of its header, lies in a page that owns its frames. */
  lemma ClientsAndPagesApart(c: Clients, p: nat, i: nat, x: nat)
    requires c.Valid() && p in c.live && i < |c.memory.holders.pages| && c.memory.holders.pages[i].owned
    requires p - HEADER <= x < p + c.live[p].size
    ensures var page := c.memory.holders.pages[i]; !(page.phys <= x < page.phys + Bytes(page.size))
  {
    hide HeapRegion.Valid, FramesFor, AllocatesDirectly, Placed, PageHolders.Accounts, FreeRun;
    var m, g := c.memory, c.live[p];
    KeptAt(c.live, m.heap.Blocks(), m.holders.reserved, p);
    if g.home.InRegion? {
      var k :| 0 <= k < |m.heap.regions| && m.heap.regions[k] == g.home.region;
      ChunksHold(g.home.region.memory, g.home.first, g.size);
      BlocksAndPagesApart(m, k, g.home.first, i, x);
    } else {
      FramesCover(g.size + HEADER);
      ReservedOutsidePages(m, i, x);
    }
  }

  lemma ReservedOutsidePages(m: Memory, i: nat, x: nat)
    requires m.Valid() && i < |m.holders.pages| && m.holders.pages[i].owned && x / FRAME in m.holders.reserved
    ensures var page := m.holders.pages[i]; !(page.phys <= x < page.phys + Bytes(page.size))
  {
    hide KernelHeap.Valid;
    assert m.holders.Accounted(m.mm.Used(), x / FRAME);
    SumAtLeast(Owns(x / FRAME), m.holders.pages, i);
    OutsidePage(m.holders.pages[i], x / FRAME, x);
  }

  lemma KeptMore(live: Grants, p: nat, g: Grant, blocks: Blocks, reserved: set<nat>)
    requires Kept(live, blocks, reserved) && Held(p, g, blocks, reserved)
    requires g.home.InFrames? ==> forall q :: q in live && live[q].home.InFrames? ==> FramesOf(live[q]) !! FramesOf(g)
    ensures Kept(live[p := g], blocks, reserved)
  {
  }

  // A block of frames that has none in common with the others is none of them.
  lemma OthersDiffer(live: Grants, g: Grant)
    requires g.home.InFrames?
    requires forall q :: q in live && live[q].home.InFrames? ==> FramesOf(live[q]) !! FramesOf(g)
    ensures forall q :: q in live ==> live[q].home != g.home
  {
    forall q | q in live ensures live[q].home != g.home {
      if live[q].home.InFrames? {
        FramesCover(g.size + HEADER);
        FramesCover(live[q].size + HEADER);
        assert g.home.frame in FramesOf(g) && live[q].home.frame in FramesOf(live[q]);
      }
    }
  }

  lemma ApartDiffer(p: nat, g: Grant, q: nat, h: Grant)
    requires ApartBytes(p, g, q, h)
    ensures p != q
  {
  }
}
