/** The kernel's allocator (kernel/mem/heap.cc): a list of chunk regions of 1 MiB that grows when none
    has room and shrinks when a region other than the first gets empty. */
module KernelHeaps {
  import opened Arithmetic
  import opened Bits
  import opened Frames
  import opened Heap
  import opened Regions
  import opened Sums

  // A region's own fields come first in its memory: 40 bytes, rounded up to 48.
  const FIELDS: nat := 48

  const REGION_FRAMES: nat := 256

  const CHUNKS: nat := (MIB - FIELDS) / (CHUNK + 1)

  // The chunks of a region that are ever handed out.
  const SCANNED: nat := WORD * (CHUNKS / WORD)

  // Requests from this size on are not served from regions.
  const THRESHOLD: nat := CHUNKS * CHUNK - KIB

  // ----- the two routes -----

  predicate AllocatesDirectly(size: nat) { size >= THRESHOLD }

  // What the header says about the number of chunks.
  function HeaderCount(size: nat): nat {
    if AllocatesDirectly(size) then (size + CHUNK - 1) / CHUNK else ChunksFor(size)
  }

  predicate FreesDirectly(count: nat) { count * CHUNK > THRESHOLD }

  /** A block goes back the way it came exactly when its size with the header stays within the
      threshold, or its size alone is beyond it. */
  lemma RoutesAgreeIff(size: nat)
    ensures AllocatesDirectly(size) == FreesDirectly(HeaderCount(size)) <==>
            size + HEADER <= THRESHOLD || size > THRESHOLD
  {
    assert THRESHOLD == 31741 * CHUNK;
  }

  /** A block of exactly the threshold is taken from the frames and looked for in the regions. */
  lemma ThresholdBlockIsLost()
    ensures AllocatesDirectly(THRESHOLD) && !FreesDirectly(HeaderCount(THRESHOLD))
  {
    assert THRESHOLD == 31741 * CHUNK;
  }

  /** A directly allocated block gives back all its frames exactly when its header did not open
      another frame. */
  lemma DirectFreesAllIff(size: nat)
    requires size > THRESHOLD
    ensures FramesFor(HeaderCount(size) * CHUNK) == FramesFor(size + HEADER) <==>
            1 <= size % FRAME <= FRAME - HEADER
  {
    var r, q := size % FRAME, size / FRAME;
    var n := q + One(r > 0);
    Euclid(size, FRAME);
    assert HeaderCount(size) * CHUNK == AlignUp(size, CHUNK);
    hide HeaderCount, FramesFor, AlignUp;
    AlignUpBounds(size, CHUNK);
    DivModUnique(n * FRAME, CHUNK, n * (FRAME / CHUNK), 0);
    AlignUpIsLeast(size, CHUNK, n * FRAME);
    FramesExactly(HeaderCount(size) * CHUNK, n);
    FramesExactly(size + HEADER, if 1 <= r <= FRAME - HEADER then n else n + 1);
  }

  /** A block of 1 MiB takes 257 frames and gives back 256. */
  lemma OneFrameLost()
    ensures AllocatesDirectly(MIB) && FreesDirectly(HeaderCount(MIB))
    ensures FramesFor(MIB + HEADER) == 257 && FramesFor(HeaderCount(MIB) * CHUNK) == 256
  {
    FramesExactly(MIB + HEADER, 257);
    FramesExactly(MIB, 256);
  }

  lemma FramesExactly(size: nat, n: nat)
    requires n * FRAME >= size > n * FRAME - FRAME
    ensures FramesFor(size) == n
  {
    DivModUnique(size + FRAME - 1, FRAME, n, size + FRAME - 1 - n * FRAME);
    DivModUnique(n * FRAME, FRAME, n, 0);
  }

  /** A fresh region has room for every request below the threshold. */
  lemma FreshRegionHasRoom(size: nat)
    requires !AllocatesDirectly(size)
    ensures 0 < ChunksFor(size) <= SCANNED
  {
  }

  // ----- regions in memory -----

  /** A region has its own stripe of 256 frames, which starts at a multiple of 1 MiB. */
  ghost predicate Placed(r: HeapRegion, frames: set<nat>) {
    && r.chunkCount == CHUNKS
    && exists a: nat :: InStripe(r, a, frames)
  }

  ghost predicate InStripe(r: HeapRegion, a: nat, frames: set<nat>) {
    r.memory == a * MIB + FIELDS && Range(a * REGION_FRAMES, REGION_FRAMES) <= frames
  }

  /** The frames of a region were vacant before and are in use after. */
  ghost predicate Grown(r: HeapRegion, before: set<nat>, after: set<nat>) {
    exists a: nat :: InStripe(r, a, after) && before == after - Range(a * REGION_FRAMES, REGION_FRAMES)
  }

  lemma GrownOnce(r: HeapRegion, before: set<nat>, after: set<nat>, again: set<nat>)
    requires Grown(r, before, after) && Grown(r, again, after)
    ensures before == again
  {
  }

  // The pointer that is handed out for a block.
  function Pointer(r: HeapRegion, first: nat): nat { r.memory + first * CHUNK + HEADER }

  lemma StripesApart(a: nat, b: nat, first: nat)
    requires a != b && first < CHUNKS
    ensures !(b * MIB <= a * MIB + first * CHUNK && a * MIB + first * CHUNK + HEADER < b * MIB + CHUNKS * CHUNK)
  {
    assert first * CHUNK + HEADER < MIB;
    if a < b {
      MulLess(a, b, MIB);
    } else {
      MulLess(b, a, MIB);
    }
  }

  lemma PlacedApart(r: HeapRegion, s: HeapRegion, frames: set<nat>, first: nat)
    requires Placed(r, frames) && Placed(s, frames) && r.memory != s.memory && first < CHUNKS
    ensures !(s.memory <= Pointer(r, first) - HEADER && Pointer(r, first) < s.memory + s.chunkCount * CHUNK)
    ensures Pointer(r, first) < r.memory + r.chunkCount * CHUNK
  {
    var a: nat :| InStripe(r, a, frames);
    var b: nat :| InStripe(s, b, frames);
    StripesApart(a, b, first);
  }

  /** A new region in a stripe of frames that was vacant. None stands for the stop for lack of memory:
      there is no such stripe. */
  method MakeRegion(mm: MemoryManager) returns (r: Option<HeapRegion>)
    requires mm.Valid() && mm.frameCount > 0
    modifies mm.bitset
    ensures r.None? ==> mm.Used() == old(mm.Used()) && NoStripe(mm.Used(), mm.frameCount, REGION_FRAMES)
    ensures r.Some? ==>
      && fresh(r.value) && fresh(r.value.bitset) && r.value.Valid()
      && r.value.headers == map[] && r.value.Used() == {}
      && Placed(r.value, mm.Used() - old(mm.Used())) && old(mm.Used()) <= mm.Used()
      && Grown(r.value, old(mm.Used()), mm.Used())
  {
    assert FramesFor(MIB) == REGION_FRAMES;
    hide FramesFor, NoneBefore, TailOpen;
    var memory := mm.AllocContiguous(MIB);
    if !memory.Found? {
      return None;
    }
    var i := memory.address / FRAME;
    assert memory.address == i / REGION_FRAMES * MIB;
    assert i == i / REGION_FRAMES * REGION_FRAMES;
    var region := new HeapRegion(memory.address + FIELDS, MIB - FIELDS);
    assert mm.Used() - old(mm.Used()) == Range(i, REGION_FRAMES);
    assert InStripe(region, i / REGION_FRAMES, mm.Used() - old(mm.Used()));
    assert InStripe(region, i / REGION_FRAMES, mm.Used());
    return Some(region);
  }

  // ----- what the calls do to the heap -----

  type Blocks = map<HeapRegion, Headers>

  /** The list of regions, the live blocks of each, and the frames in use. */
  datatype Snapshot = Snapshot(regions: seq<HeapRegion>, blocks: Blocks, frames: set<nat>)
  {
    ghost predicate Listed() {
      blocks.Keys == set r | r in regions
    }

    // All regions but the first have a block.
    ghost predicate LaterInUse() {
      forall i :: 0 < i < |regions| ==> regions[i] in blocks && blocks[regions[i]] != map[]
    }
  }

  ghost function WithBlock(headers: Headers, first: nat, count: nat): Headers {
    headers[first := count]
  }

  // No chunk of the run is in a block.
  ghost predicate FreeRun(headers: Headers, first: nat, count: nat) {
    forall s: nat, i: nat :: InBlock(headers, s, i) ==> !(first <= i < first + count)
  }

  ghost predicate Room(headers: Headers, count: nat) {
    exists j :: 0 <= j && j + count <= SCANNED && FreeRun(headers, j, count)
  }

  // The lowest run of free chunks.
  ghost predicate FirstFit(headers: Headers, count: nat, first: nat) {
    && first + count <= SCANNED && FreeRun(headers, first, count)
    && forall j :: 0 <= j < first ==> !FreeRun(headers, j, count)
  }

  lemma FreeIsVacant(headers: Headers, used: set<nat>, limit: nat, first: nat, count: nat)
    requires BlocksFit(headers, used, limit)
    ensures FreeRun(headers, first, count) <==> Vacant(used, first, count)
  {
  }

  ghost predicate NoRoomBefore(s: Snapshot, k: nat, count: nat) {
    k <= |s.regions| && forall j :: 0 <= j < k ==> s.regions[j] in s.blocks && !Room(s.blocks[s.regions[j]], count)
  }

  /** A block goes to the lowest run of the first region with room; without one, to the beginning of a
      region that comes in at the end, in a stripe of frames that was vacant. */
  ghost predicate Allocated(s: Snapshot, t: Snapshot, count: nat, k: nat, first: nat) {
    && NoRoomBefore(s, k, count) && k < |t.regions|
    && var r := t.regions[k];
    if k < |s.regions| then
      && t.regions == s.regions && t.frames == s.frames && r in s.blocks
      && FirstFit(s.blocks[r], count, first) && first !in s.blocks[r]
      && t.blocks == s.blocks[r := WithBlock(s.blocks[r], first, count)]
    else
      && t.regions == s.regions + [r] && r !in s.regions && Grown(r, s.frames, t.frames) && first == 0
      && t.blocks == s.blocks[r := WithBlock(map[], 0, count)]
  }

  /** A block goes, and its region with it exactly when that was the last block and the region is not
      the first. */
  ghost predicate Freed(s: Snapshot, t: Snapshot, k: nat, first: nat) {
    && k < |s.regions|
    && var r := s.regions[k];
    && r in s.blocks && first in s.blocks[r]
    && var left := s.blocks[r] - {first};
    if k > 0 && left == map[] then
      && t.regions == s.regions[..k] + s.regions[k + 1..] && Grown(r, t.frames, s.frames)
      && t.blocks == s.blocks - {r}
    else
      t.regions == s.regions && t.frames == s.frames && t.blocks == s.blocks[r := left]
  }

  /** Freeing a block undoes its allocation, also when that had brought in a region. */
  lemma FreeUndoesAllocate(s: Snapshot, t: Snapshot, u: Snapshot, count: nat, k: nat, first: nat)
    requires s.Listed() && s.LaterInUse() && s.regions != []
    requires Allocated(s, t, count, k, first) && Freed(t, u, k, first)
    ensures u == s
  {
    var r := t.regions[k];
    if k < |s.regions| {
      assert t.blocks[r] - {first} == s.blocks[r];
    } else {
      assert t.blocks[r] - {first} == map[];
      assert t.blocks - {r} == s.blocks;
      assert t.regions[..k] + t.regions[k + 1..] == s.regions;
      GrownOnce(r, s.frames, t.frames, u.frames);
    }
  }

  lemma ChunksOfRegion(r: HeapRegion, size: nat)
    requires r.Valid() && r.chunkCount == CHUNKS
    ensures r.Scanned() == SCANNED && BlocksFit(r.headers, r.Used(), SCANNED) && ChunksFor(size) > 0
  {
  }

  // Region::allocate, with the free chunks read off the blocks.
  method TakeFrom(region: HeapRegion, size: nat) returns (r: Option<nat>, ghost first: nat)
    requires region.Valid() && region.chunkCount == CHUNKS
    modifies region`usedChunks, region`headers, region.bitset
    ensures region.Valid() && region.usedChunks >= old(region.usedChunks)
    ensures r.None? ==> region.headers == old(region.headers) && !Room(region.headers, ChunksFor(size))
    ensures r.Some? ==>
      && r.value == Pointer(region, first) && first !in old(region.headers) && region.usedChunks > 0
      && FirstFit(old(region.headers), ChunksFor(size), first)
      && region.headers == WithBlock(old(region.headers), first, ChunksFor(size))
  {
    hide HeapRegion.Valid, HeapRegion.Used, HeapRegion.Scanned, BlocksFit, Vacant, FirstFit, Room, ChunksFor;
    ghost var headers, used, count := region.headers, region.Used(), ChunksFor(size);
    ChunksOfRegion(region, size);
    r := region.Allocate(size);
    if r.Some? {
      first :| r.value == Pointer(region, first) && first !in headers && region.headers == headers[first := count]
               && first + count <= SCANNED && Vacant(used, first, count)
               && (forall j :: 0 <= j < first ==> !Vacant(used, j, count));
      FoundFits(headers, used, count, first);
    } else {
      MissedFits(headers, used, count);
      first := 0;
    }
  }

  class KernelHeap {
    const mm: MemoryManager
    var regions: seq<HeapRegion>

    ghost function Bitsets(): set<array<Word>>
      reads this`regions
    {
      set r | r in regions :: r.bitset
    }

    /** The regions are whole and lie apart. */
    ghost predicate Sound()
      reads this, mm, mm.bitset, regions, Bitsets()
    {
      && mm.Valid() && mm.frameCount > 0 && regions != []
      && (forall r :: r in regions ==> r.Valid() && Placed(r, mm.Used()) && r.bitset != mm.bitset)
      && (forall i, j :: 0 <= i < j < |regions| ==>
            && regions[i] != regions[j] && regions[i].bitset != regions[j].bitset
            && regions[i].memory != regions[j].memory)
    }

    /** All regions but the first have a block. */
    ghost predicate Valid()
      reads this, mm, mm.bitset, regions, Bitsets()
    {
      mm.Valid() && regions != [] && Sound() && forall i :: 0 < i < |regions| ==> regions[i].usedChunks > 0
    }

    ghost function Blocks(): Blocks
      reads this`regions, regions`headers
    {
      map r | r in regions :: r.headers
    }

    ghost function State(): Snapshot
      requires mm.Valid()
      reads this, mm, mm.bitset, regions
    {
      Snapshot(regions, Blocks(), mm.Used())
    }

    constructor (mm: MemoryManager, base: HeapRegion)
      requires mm.Valid() && mm.frameCount > 0
      requires base.Valid() && Placed(base, mm.Used()) && base.bitset != mm.bitset
      ensures Valid() && regions == [base] && this.mm == mm
    {
      this.mm := mm;
      regions := [base];
    }

    /** create_region: the new region goes to the end of the list. It is empty for now, so the heap is
        whole again only once it has a block. */
    method CreateRegion() returns (r: Option<HeapRegion>)
      requires Valid()
      modifies this`regions, mm.bitset
      ensures r.None? ==> Valid() && State() == old(State()) && NoStripe(mm.Used(), mm.frameCount, REGION_FRAMES)
      ensures r.Some? ==>
        && regions == old(regions) + [r.value] && fresh(r.value) && fresh(r.value.bitset)
        && Blocks() == old(Blocks())[r.value := map[]]
        && mm.Valid() && Grown(r.value, old(mm.Used()), mm.Used())
        && Sound() && forall i :: 0 < i < |old(regions)| ==> regions[i].usedChunks > 0
    {
      hide HeapRegion.Valid, HeapRegion.Used, Placed, Grown, NoStripe;
      r := MakeRegion(mm);
      if r.Some? {
        forall s | s in regions ensures Placed(s, mm.Used()) && s.memory != r.value.memory {
          PlacedMore(s, old(mm.Used()), mm.Used());
          NewPlace(s, r.value, old(mm.Used()), mm.Used());
        }
        PlacedMore(r.value, mm.Used() - old(mm.Used()), mm.Used());
        regions := regions + [r.value];
      }
    }

    // One region's turn.
    method AllocateIn(k: nat, size: nat) returns (r: Option<nat>, ghost first: nat)
      requires Sound() && k < |regions|
      modifies regions[k], regions[k].bitset
      ensures Sound() && regions[k].usedChunks >= old(regions[k].usedChunks) && mm.Used() == old(mm.Used())
      ensures r.None? ==>
        !Room(Blocks()[regions[k]], ChunksFor(size)) && Blocks() == old(Blocks())
      ensures r.Some? ==>
        var region, count := regions[k], ChunksFor(size);
        && r.value == Pointer(region, first) && first !in old(Blocks())[region] && region.usedChunks > 0
        && FirstFit(old(Blocks())[region], count, first)
        && Blocks() == old(Blocks())[region := WithBlock(old(Blocks())[region], first, count)]
    {
      hide HeapRegion.Valid, Placed, FirstFit, Room;
      assert regions[k].chunkCount == CHUNKS by { PlacedMore(regions[k], mm.Used(), mm.Used()); }
      r, first := TakeFrom(regions[k], size);
    }

    // The walk through the list.
    method AllocateInFirst(size: nat) returns (r: Option<nat>, ghost k: nat, ghost first: nat)
      requires Valid()
      modifies regions, Bitsets()
      ensures Valid() && NoRoomBefore(old(State()), k, ChunksFor(size))
      ensures r.None? ==> k == |regions| && State() == old(State())
      ensures r.Some? ==>
        && Allocated(old(State()), State(), ChunksFor(size), k, first) && k < |regions|
        && r.value == Pointer(regions[k], first)
    {
      hide Sound, FirstFit, Room, HeapRegion.Used, Grown;
      first := 0;
      for i := 0 to |regions|
        invariant Valid() && State() == old(State())
        invariant NoRoomBefore(State(), i, ChunksFor(size))
      {
        k := i;
        r, first := AllocateIn(i, size);
        if r.Some? {
          return;
        }
      }
      return None, |regions|, 0;
    }

    /** allocate, for what is served from regions. None, the stop for lack of memory, means that no
        region has room and that there is no stripe of frames for a new one: a new region always takes
        the block. */
    method Allocate(size: nat) returns (r: Option<nat>, ghost k: nat, ghost first: nat)
      requires Valid() && !AllocatesDirectly(size)
      modifies this`regions, mm.bitset, regions, Bitsets()
      ensures Valid()
      ensures r.None? ==>
        && State() == old(State()) && NoRoomBefore(State(), |regions|, ChunksFor(size))
        && NoStripe(mm.Used(), mm.frameCount, REGION_FRAMES)
      ensures r.Some? ==>
        && Allocated(old(State()), State(), ChunksFor(size), k, first) && k < |regions|
        && r.value == Pointer(regions[k], first) && first in regions[k].headers
        && Holds(regions[k].memory, first, regions[k].headers[first], r.value, size)
        && (k == |old(regions)| ==> fresh(regions[k]) && fresh(regions[k].bitset))
    {
      hide Sound, FirstFit, Room, HeapRegion.Used, Grown, NoStripe;
      r, k, first := AllocateInFirst(size);
      if r.None? {
        r, first := AllocateInNew(size);
      }
      if r.Some? {
        assert regions[k].headers == Blocks()[regions[k]];
        ChunksHold(regions[k].memory, first, size);
      }
    }

    method AllocateInNew(size: nat) returns (r: Option<nat>, ghost first: nat)
      requires Valid() && !AllocatesDirectly(size)
      modifies this`regions, mm.bitset
      ensures Valid()
      ensures r.None? ==> State() == old(State()) && NoStripe(mm.Used(), mm.frameCount, REGION_FRAMES)
      ensures r.Some? ==>
        var k := |old(regions)|;
        && k < |regions| && regions == old(regions) + [regions[k]] && fresh(regions[k]) && fresh(regions[k].bitset)
        && Grown(regions[k], old(mm.Used()), mm.Used())
        && first == 0 && r.value == Pointer(regions[k], first)
        && Blocks() == old(Blocks())[regions[k] := WithBlock(map[], 0, ChunksFor(size))]
    {
      hide Sound, HeapRegion.Valid, HeapRegion.Used, HeapRegion.Scanned, Room, Grown, Vacant, ChunksFor, NoStripe;
      var region := CreateRegion();
      if region.None? {
        return None, 0;
      }
      r, first := AllocateIn(|regions| - 1, size);
      FreshRegionHasRoom(size);
      EmptyHasRoom(ChunksFor(size));
    }

    method DeallocateIn(k: nat, pointer: nat, ghost first: nat)
      requires Sound() && k < |regions| && first in regions[k].headers && pointer == Pointer(regions[k], first)
      modifies regions[k], regions[k].bitset
      ensures Sound() && mm.Used() == old(mm.Used())
      ensures Blocks() == old(Blocks())[regions[k] := old(Blocks())[regions[k]] - {first}]
      ensures regions[k].usedChunks == 0 <==> regions[k].headers == map[]
      ensures forall j :: 0 <= j < |regions| && j != k ==> regions[j] != regions[k]
    {
      hide HeapRegion.Valid, HeapRegion.Used, Placed;
      regions[k].Deallocate(pointer, first);
      EmptyMeansNoHeaders(regions[k]);
    }

    // Takes a region out of the list and gives back its frames.
    method DropRegion(k: nat)
      requires Sound() && 0 < k < |regions|
      modifies this`regions, mm.bitset
      ensures Sound() && regions == old(regions)[..k] + old(regions)[k + 1..]
      ensures Blocks() == old(Blocks()) - {old(regions)[k]} && old(regions)[k] !in regions
      ensures Grown(old(regions)[k], mm.Used(), old(mm.Used()))
    {
      hide HeapRegion.Valid, HeapRegion.Used, Placed, InStripe, MemoryManager.Valid, MemoryManager.Used, Range;
      var region := regions[k];
      ghost var a := StripeOf(region, mm.Used());
      StripeBounds(mm, a);
      mm.FreeContiguous(region.memory - FIELDS, MIB);
      OneLess(regions, k);
      regions := regions[..k] + regions[k + 1..];
      forall r | r in regions ensures Placed(r, mm.Used()) {
        PlacedLess(r, region, a, old(mm.Used()));
      }
    }

    // The walk to the region that a pointer lies in.
    method FindHome(pointer: nat, ghost k: nat, ghost first: nat) returns (i: nat)
      requires Sound() && k < |regions| && first in regions[k].headers && pointer == Pointer(regions[k], first)
      ensures i == k && Sound()
    {
      hide HeapRegion.Valid, Placed;
      HeaderInside(regions[k], mm.Used(), first);
      i := 0;
      while i < |regions|
        invariant i <= k
      {
        var inside := regions[i].Contains(pointer);
        if i != k {
          PlacedApart(regions[k], regions[i], mm.Used(), first);
        }
        if inside {
          return;
        }
        PlacedInside(regions[k], mm.Used(), first);
        i := i + 1;
      }
      assert false;
    }

    /** deallocate, for a live block of a region. */
    method Deallocate(pointer: nat, ghost k: nat, ghost first: nat)
      requires Valid() && k < |regions| && first in regions[k].headers && pointer == Pointer(regions[k], first)
      requires !FreesDirectly(regions[k].headers[first])
      modifies this`regions, mm.bitset, regions[k], regions[k].bitset
      ensures Valid() && Freed(old(State()), State(), k, first)
    {
      hide Sound, Grown, HeapRegion.Valid, HeapRegion.Used;
      var i := FindHome(pointer, k, first);
      DeallocateIn(i, pointer, first);
      assert regions[i].headers == Blocks()[regions[i]] == old(Blocks())[regions[i]] - {first};
      if regions[i].usedChunks == 0 && i != 0 {
        DropRegion(i);
      }
    }
  }

  lemma OneLess(regions: seq<HeapRegion>, k: nat)
    requires k < |regions| && forall i, j :: 0 <= i < j < |regions| ==> regions[i] != regions[j]
    ensures forall r :: r in regions[..k] + regions[k + 1..] <==> r in regions && r != regions[k]
  {
  }

  lemma EmptyMeansNoHeaders(r: HeapRegion)
    requires r.Valid()
    ensures r.usedChunks == 0 <==> r.headers == map[]
  {
    if r.headers == map[] {
      NoHeaders(r.Scanned());
    } else if r.usedChunks == 0 {
      var s :| s in r.headers;
      HeaderSumRemove(r.headers, s, r.Scanned());
    }
  }

  lemma HeaderInside(r: HeapRegion, frames: set<nat>, first: nat)
    requires r.Valid() && Placed(r, frames) && first in r.headers
    ensures first < CHUNKS
  {
  }

  lemma PlacedInside(r: HeapRegion, frames: set<nat>, first: nat)
    requires Placed(r, frames) && first < CHUNKS
    ensures r.memory <= Pointer(r, first) - HEADER && Pointer(r, first) < r.memory + r.chunkCount * CHUNK
  {
  }

  lemma StripeOf(r: HeapRegion, frames: set<nat>) returns (a: nat)
    requires Placed(r, frames)
    ensures InStripe(r, a, frames) && FramesFor(MIB) == REGION_FRAMES
    ensures (r.memory - FIELDS) % FRAME == 0 && (r.memory - FIELDS) / FRAME == a * REGION_FRAMES
  {
    a :| InStripe(r, a, frames);
  }

  lemma StripeBounds(mm: MemoryManager, a: nat)
    requires mm.Valid() && Range(a * REGION_FRAMES, REGION_FRAMES) <= mm.Used()
    ensures a * REGION_FRAMES + REGION_FRAMES <= mm.frameCount
  {
    assert a * REGION_FRAMES + REGION_FRAMES - 1 in Range(a * REGION_FRAMES, REGION_FRAMES);
  }

  lemma PlacedLess(r: HeapRegion, s: HeapRegion, a: nat, frames: set<nat>)
    requires Placed(r, frames) && InStripe(s, a, frames) && r.memory != s.memory
    ensures Placed(r, frames - Range(a * REGION_FRAMES, REGION_FRAMES))
  {
    var b: nat :| InStripe(r, b, frames);
    assert InStripe(r, b, frames - Range(a * REGION_FRAMES, REGION_FRAMES));
  }

  lemma EmptyHasRoom(count: nat)
    requires count <= SCANNED
    ensures Room(map[], count) && FreeRun(map[], 0, count)
  {
    assert FreeRun(map[], 0, count);
  }

  lemma FoundFits(headers: Headers, used: set<nat>, count: nat, first: nat)
    requires BlocksFit(headers, used, SCANNED)
    requires first + count <= SCANNED && Vacant(used, first, count)
    requires forall j :: 0 <= j < first ==> !Vacant(used, j, count)
    ensures FirstFit(headers, count, first)
  {
    forall j: nat ensures FreeRun(headers, j, count) <==> Vacant(used, j, count) {
      FreeIsVacant(headers, used, SCANNED, j, count);
    }
  }

  lemma MissedFits(headers: Headers, used: set<nat>, count: nat)
    requires BlocksFit(headers, used, SCANNED)
    requires forall j :: 0 <= j && j + count <= SCANNED ==> !Vacant(used, j, count)
    ensures !Room(headers, count)
  {
    forall j: nat ensures FreeRun(headers, j, count) <==> Vacant(used, j, count) {
      FreeIsVacant(headers, used, SCANNED, j, count);
    }
  }

  lemma PlacedMore(r: HeapRegion, frames: set<nat>, more: set<nat>)
    requires Placed(r, frames) && frames <= more
    ensures Placed(r, more) && r.chunkCount == CHUNKS
  {
    var a: nat :| InStripe(r, a, frames);
    assert InStripe(r, a, more);
  }

  lemma NewPlace(r: HeapRegion, s: HeapRegion, frames: set<nat>, more: set<nat>)
    requires Placed(r, frames) && Placed(s, more - frames)
    ensures r.memory != s.memory
  {
    var a: nat :| InStripe(r, a, frames);
    var b: nat :| InStripe(s, b, more - frames);
    assert a * REGION_FRAMES in Range(a * REGION_FRAMES, REGION_FRAMES);
  }

  /** Heap::initialise: one empty region. Null stands for the stop for lack of memory. */
  method Initialise(mm: MemoryManager) returns (heap: KernelHeap?)
    requires mm.Valid() && mm.frameCount > 0
    modifies mm.bitset
    ensures heap != null ==>
      && fresh(heap) && heap.mm == mm && heap.Valid() && |heap.regions| == 1
      && heap.regions[0].headers == map[] && Grown(heap.regions[0], old(mm.Used()), mm.Used())
    ensures heap == null ==> mm.Used() == old(mm.Used()) && NoStripe(mm.Used(), mm.frameCount, REGION_FRAMES)
  {
    var base := MakeRegion(mm);
    if base.None? {
      return null;
    }
    PlacedMore(base.value, mm.Used() - old(mm.Used()), mm.Used());
    heap := new KernelHeap(mm, base.value);
  }

  /** Any two live blocks, of the same region or of two, have no byte in common. */
  lemma LiveBlocksApart(heap: KernelHeap, i: nat, s: nat, j: nat, t: nat)
    requires heap.Valid() && i < |heap.regions| && j < |heap.regions| && (i, s) != (j, t)
    requires s in heap.regions[i].headers && t in heap.regions[j].headers
    ensures var p, q := Pointer(heap.regions[i], s) - HEADER, Pointer(heap.regions[j], t) - HEADER;
      p + heap.regions[i].headers[s] * CHUNK <= q || q + heap.regions[j].headers[t] * CHUNK <= p
  {
    var r, u, frames := heap.regions[i], heap.regions[j], heap.mm.Used();
    assert r.Valid() && u.Valid();
    if i != j {
      BlockBounds(r.headers, r.Used(), r.Scanned(), s);
      BlockBounds(u.headers, u.Used(), u.Scanned(), t);
      RegionsFarApart(r, u, frames);
    } else if s < t {
      assert s + r.headers[s] <= t;
    } else {
      assert t + r.headers[t] <= s;
    }
  }

  lemma RegionsFarApart(r: HeapRegion, s: HeapRegion, frames: set<nat>)
    requires Placed(r, frames) && Placed(s, frames) && r.memory != s.memory
    ensures r.memory + CHUNKS * CHUNK <= s.memory || s.memory + CHUNKS * CHUNK <= r.memory
  {
    var a: nat :| InStripe(r, a, frames);
    var b: nat :| InStripe(s, b, frames);
    if a < b {
      MulLess(a, b, MIB);
    } else {
      MulLess(b, a, MIB);
    }
  }

  lemma LaterRegionsHaveBlocks(heap: KernelHeap)
    requires heap.Valid()
    ensures heap.State().Listed() && heap.State().LaterInUse()
  {
    forall k | 0 < k < |heap.regions| ensures heap.Blocks()[heap.regions[k]] != map[] {
      EmptyMeansNoHeaders(heap.regions[k]);
    }
  }

  /** A block that is allocated and freed: there is one unless memory is lacking, the heap in between is
      what the allocation makes of it, and in the end it is what it was. */
  method AllocateThenFree(heap: KernelHeap, size: nat)
    returns (pointer: Option<nat>, ghost between: Snapshot, ghost k: nat, ghost first: nat)
    requires heap.Valid() && size + HEADER <= THRESHOLD
    modifies heap`regions, heap.mm.bitset, heap.regions, heap.Bitsets()
    ensures heap.Valid() && heap.State() == old(heap.State())
    ensures pointer.None? ==>
      && NoRoomBefore(heap.State(), |heap.regions|, ChunksFor(size))
      && NoStripe(heap.mm.Used(), heap.mm.frameCount, REGION_FRAMES)
    ensures pointer.Some? ==>
      && Allocated(old(heap.State()), between, ChunksFor(size), k, first)
      && pointer.value == Pointer(between.regions[k], first)
  {
    hide KernelHeap.Sound, NoStripe, Room, FirstFit, HeapRegion.Valid, HeapRegion.Used, Grown;
    RoutesAgreeIff(size);
    LaterRegionsHaveBlocks(heap);
    pointer, k, first := heap.Allocate(size);
    between := heap.State();
    if pointer.Some? {
      assert between.blocks[heap.regions[k]] == heap.regions[k].headers;
      heap.Deallocate(pointer.value, k, first);
      FreeUndoesAllocate(old(heap.State()), between, heap.State(), ChunksFor(size), k, first);
    }
  }
}
