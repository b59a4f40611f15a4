/** VM objects (kernel/mem/vm_object.cc): the greedy split of a size into 1 GiB, 2 MiB and 4 KiB
    pages. */
module VmObjects {
  import opened Arithmetic
  import opened Frames
  import opened Regions

  // The page size that a remaining size is served with.
  function Largest(size: nat): PageSize {
    if size >= GIB then Huge else if size >= 2 * MIB then Large else Normal
  }

  function Greedy(size: nat): (s: seq<PageSize>)
    requires size % FRAME == 0
  {
    if size == 0 then [] else [Largest(size)] + Greedy(size - Bytes(Largest(size)))
  }

  lemma GreedyStep(size: nat)
    requires size % FRAME == 0 && size > 0
    ensures var n := Bytes(Largest(size));
      && n <= size && (size - n) % FRAME == 0
      && Greedy(size) == [Largest(size)] + Greedy(size - n) && Greedy(size)[1..] == Greedy(size - n)
  {
  }

  function Total(sizes: seq<PageSize>): nat {
    if sizes == [] then 0 else Bytes(sizes[0]) + Total(sizes[1..])
  }

  // The distance of the j-th page from the start of the object.
  function Offset(sizes: seq<PageSize>, j: nat): nat
    requires j <= |sizes|
  {
    if j == 0 then 0 else Bytes(sizes[0]) + Offset(sizes[1..], j - 1)
  }

  /** The pages add up to the size, and no page is larger than one before it. */
  lemma {:induction false} GreedyCovers(size: nat)
    requires size % FRAME == 0
    ensures Total(Greedy(size)) == size
    ensures forall j :: 0 <= j < |Greedy(size)| ==> Bytes(Greedy(size)[j]) <= Bytes(Largest(size))
    ensures forall i, j :: 0 <= i < j < |Greedy(size)| ==> Bytes(Greedy(size)[j]) <= Bytes(Greedy(size)[i])
  {
    if size > 0 {
      GreedyCovers(size - Bytes(Largest(size)));
    }
  }

  /** A unit is the largest of 4 KiB, 2 MiB and 1 GiB that is not above the size. */
  ghost predicate LargestUnit(unit: nat, size: nat) {
    && unit in {0x1000, 0x20_0000, 0x4000_0000} && unit <= size
    && (0x20_0000 <= size ==> 0x20_0000 <= unit) && (0x4000_0000 <= size ==> 0x4000_0000 <= unit)
  }

  lemma LargestIsUnit(size: nat)
    requires size % FRAME == 0 && size > 0
    ensures LargestUnit(Bytes(Largest(size)), size)
  {
  }

  /** The split is greedy: at each page, a larger one would not fit into what is left. */
  lemma {:induction false} GreedyTakesLargest(size: nat, j: nat, s: PageSize)
    requires size % FRAME == 0 && j < |Greedy(size)| && Bytes(s) > Bytes(Greedy(size)[j])
    ensures Bytes(s) > size - Offset(Greedy(size), j)
  {
    if j > 0 {
      GreedyStep(size);
      GreedyTakesLargest(size - Bytes(Largest(size)), j - 1, s);
    } else {
      LargestIsUnit(size);
    }
  }

  // How many pages a number of frames needs at least: 512 frames make a large page, 512 of those a huge one.
  ghost function Needed(frames: nat): nat { Wholes(frames / 512) + frames % 512 }

  ghost function Wholes(larges: nat): nat { larges / 512 + larges % 512 }

  lemma NextDigit(x: nat)
    ensures (x + 1) / 512 == x / 512 + (if x % 512 == 511 then 1 else 0)
    ensures (x + 1) % 512 == if x % 512 == 511 then 0 else x % 512 + 1
    ensures (x + 512) / 512 == x / 512 + 1 && (x + 512) % 512 == x % 512
  {
  }

  lemma OnePageMore(frames: nat, s: PageSize)
    ensures Needed(frames + FrameCount(s)) <= Needed(frames) + 1
  {
    NextDigit(frames);
    NextDigit(frames / 512);
    if s.Huge? {
      AddHuge(frames);
    }
  }

  lemma AddHuge(frames: nat)
    ensures Needed(frames + 512 * 512) == Needed(frames) + 1
  {
    assert (frames + 512 * 512) / 512 == frames / 512 + 512 && (frames + 512 * 512) % 512 == frames % 512;
    NextDigit(frames / 512);
  }

  lemma LargestPageLess(frames: nat)
    requires frames > 0
    ensures var n := FrameCount(Largest(frames * FRAME)); n <= frames && Needed(frames) == Needed(frames - n) + 1
  {
    if frames >= 512 * 512 {
      AddHuge(frames - 512 * 512);
    } else if frames >= 512 {
      NextDigit(frames - 512);
      NextDigit(frames / 512 - 1);
    }
  }

  lemma {:induction false} NeedsAtLeast(sizes: seq<PageSize>) returns (frames: nat)
    ensures Total(sizes) == frames * FRAME && Needed(frames) <= |sizes|
  {
    hide Needed, Bytes;
    if sizes == [] {
      frames := 0;
      NeedsNone();
    } else {
      frames := NeedsAtLeast(sizes[1..]);
      OnePageMore(frames, sizes[0]);
      FramesOfPage(sizes[0]);
      frames := frames + FrameCount(sizes[0]);
    }
  }

  lemma NeedsNone()
    ensures Needed(0) == 0
  {
  }

  lemma {:induction false} GreedyNeeds(frames: nat)
    ensures |Greedy(frames * FRAME)| == Needed(frames)
  {
    hide Needed, Largest, Bytes;
    if frames == 0 {
      NeedsNone();
    } else {
      GreedyStep(frames * FRAME);
      LargestPageLess(frames);
      FramesOfPage(Largest(frames * FRAME));
      GreedyNeeds(frames - FrameCount(Largest(frames * FRAME)));
    }
  }

  /** No split of the size into pages has fewer of them. */
  lemma FewestPages(size: nat, sizes: seq<PageSize>)
    requires size % FRAME == 0 && Total(sizes) == size
    ensures |Greedy(size)| <= |sizes|
  {
    var frames := NeedsAtLeast(sizes);
    GreedyNeeds(frames);
  }

  // A smaller page size divides a larger one.
  lemma SizesDivide(a: PageSize, b: PageSize)
    requires Bytes(b) <= Bytes(a)
    ensures Bytes(a) % Bytes(b) == 0
  {
  }

  lemma SumDivides(x: nat, y: nat, s: PageSize)
    requires x % Bytes(s) == 0
    ensures (x + y) % Bytes(s) == y % Bytes(s)
  {
  }

  /** Each page starts at a multiple of its own size from the start of the object. */
  lemma {:induction false} OffsetsAligned(size: nat, j: nat)
    requires size % FRAME == 0 && j < |Greedy(size)|
    ensures Offset(Greedy(size), j) % Bytes(Greedy(size)[j]) == 0
  {
    hide Greedy, Largest;
    if j > 0 {
      FirstOfGreedy(size);
      var first, rest := Largest(size), size - Bytes(Largest(size));
      OffsetsAligned(rest, j - 1);
      GreedyCovers(size);
      var offset, last := Offset(Greedy(rest), j - 1), Greedy(size)[j];
      assert last == Greedy(rest)[j - 1] && Offset(Greedy(size), j) == Bytes(first) + offset;
      AfterLarger(first, last, offset);
    }
  }

  lemma FirstOfGreedy(size: nat)
    requires size % FRAME == 0 && Greedy(size) != []
    ensures size > 0 && Bytes(Largest(size)) <= size && (size - Bytes(Largest(size))) % FRAME == 0
    ensures Greedy(size)[0] == Largest(size) && Greedy(size)[1..] == Greedy(size - Bytes(Largest(size)))
  {
    GreedyStep(size);
  }

  // A larger page in front does not change the alignment.
  lemma AfterLarger(a: PageSize, b: PageSize, offset: nat)
    requires Bytes(b) <= Bytes(a) && offset % Bytes(b) == 0
    ensures (Bytes(a) + offset) % Bytes(b) == 0
  {
    SizesDivide(a, b);
    SumDivides(Bytes(a), offset, b);
  }

  /** Placed at a base that is a multiple of the largest page, every page lies at a multiple of its
      own size; and only such bases will do. */
  lemma PlacedAligned(size: nat, base: nat)
    requires size % FRAME == 0 && size > 0
    ensures (forall j :: 0 <= j < |Greedy(size)| ==> (base + Offset(Greedy(size), j)) % Bytes(Greedy(size)[j]) == 0)
       <==> base % Bytes(Largest(size)) == 0
  {
    var sizes := Greedy(size);
    forall j | 0 <= j < |sizes| ensures (base + Offset(sizes, j)) % Bytes(sizes[j]) == base % Bytes(sizes[j]) {
      OffsetsAligned(size, j);
      SumDivides(Offset(sizes, j), base, sizes[j]);
    }
    if base % Bytes(Largest(size)) == 0 {
      forall j | 0 <= j < |sizes| ensures base % Bytes(sizes[j]) == 0 {
        GreedyCovers(size);
        Divisibility(base, Largest(size), sizes[j]);
      }
    } else {
      assert (base + Offset(sizes, 0)) % Bytes(sizes[0]) != 0;
    }
  }

  lemma Divisibility(x: nat, a: PageSize, b: PageSize)
    requires x % Bytes(a) == 0 && Bytes(b) <= Bytes(a)
    ensures x % Bytes(b) == 0
  {
    assert Bytes(b) * (Bytes(a) / Bytes(b)) == Bytes(a) && Bytes(a) / Bytes(b) > 0;
    hide Bytes;
    ModOfMod(x, Bytes(b), Bytes(a) / Bytes(b));
  }

  function SizesOf(pages: seq<Page>): (s: seq<PageSize>)
    ensures |s| == |pages|
  {
    seq(|pages|, i requires 0 <= i < |pages| => pages[i].size)
  }

  /** The pages so far are the first of the split, and there is no stripe of frames for the next one. */
  ghost predicate RanOut(sizes: seq<PageSize>, got: seq<PageSize>, used: set<nat>, frameCount: nat) {
    && |got| < |sizes| && got == sizes[..|got|]
    && NoStripe(used, frameCount, FrameCount(sizes[|got|]))
  }

  /** VmObject::create: the pages are new holders at the end of `h.pages`. Not ok stands for the stop for
      lack of memory. */
  method Create(h: PageHolders, size: nat) returns (ok: bool, first: nat)
    requires h.Valid() && size > 0
    modifies h`pages, h.mm.bitset
    ensures h.Valid() && first == |old(h.pages)| <= |h.pages| && h.pages[..first] == old(h.pages)
    ensures AlignUp(size, FRAME) % FRAME == 0
    ensures ok ==> SizesOf(h.pages[first..]) == Greedy(AlignUp(size, FRAME))
    ensures !ok ==>
      RanOut(Greedy(AlignUp(size, FRAME)), SizesOf(h.pages[first..]), h.mm.Used(), h.mm.frameCount)
    ensures forall i :: first <= i < |h.pages| ==> h.pages[i].owned
  {
    hide AlignUp, PageHolders.Valid, Greedy, Bytes, Largest, SizesOf, RanOut, Refused, Lowest;
    first := |h.pages|;
    AlignUpBounds(size, FRAME);
    NothingLeft();
    var left := AlignUp(size, FRAME);
    ghost var total := left;
    assert h.pages[first..] == [] && [] + Greedy(left) == Greedy(total);
    while true
      invariant h.Valid() && first <= |h.pages| && h.pages[..first] == old(h.pages)
      invariant left % FRAME == 0 && left > 0
      invariant SizesOf(h.pages[first..]) + Greedy(left) == Greedy(total)
      invariant forall i :: first <= i < |h.pages| ==> h.pages[i].owned
      decreases left
    {
      var next := Largest(left);
      ghost var before := h.pages;
      GreedyStep(left);
      var page := h.Allocate(next);
      if !page.Found? {
        StopsThere(total, left, SizesOf(h.pages[first..]), page, h.mm.Used(), h.mm.frameCount);
        return false, first;
      }
      SizesPush(before, first, h.pages[|before|]);
      left := left - Bytes(next);
      if left == 0 {
        return true, first;
      }
    }
  }

  lemma NothingLeft()
    ensures Greedy(0) == [] && SizesOf([]) == []
  {
  }

  lemma SizesPush(pages: seq<Page>, first: nat, page: Page)
    requires first <= |pages|
    ensures SizesOf((pages + [page])[first..]) == SizesOf(pages[first..]) + [page.size]
    ensures (pages + [page])[..first] == pages[..first]
  {
  }

  lemma StopsThere(total: nat, left: nat, got: seq<PageSize>, r: Claim, used: set<nat>, frameCount: nat)
    requires total % FRAME == 0 && left % FRAME == 0 && left > 0 && got + Greedy(left) == Greedy(total)
    requires Refused(r, used, frameCount, FrameCount(Largest(left)))
    ensures RanOut(Greedy(total), got, used, frameCount)
  {
    hide Greedy, Bytes, Largest, NoStripe;
    GreedyStep(left);
    assert Greedy(total)[|got|] == Largest(left);
  }

  /** VmObject::create_physical: pages that own nothing, at consecutive addresses. */
  method CreatePhysical(base: nat, size: nat) returns (pages: seq<Page>)
    requires size > 0
    ensures AlignUp(size, FRAME) % FRAME == 0
    ensures var sizes := Greedy(AlignUp(size, FRAME));
      |pages| == |sizes| && forall j :: 0 <= j < |sizes| ==> pages[j] == Page(base + Offset(sizes, j), sizes[j], false)
  {
    AlignUpBounds(size, FRAME);
    var left, at := AlignUp(size, FRAME), base;
    ghost var sizes := Greedy(left);
    pages := [];
    while true
      invariant left % FRAME == 0 && left > 0
      invariant |pages| <= |sizes| && Greedy(left) == sizes[|pages|..]
      invariant at == base + Offset(sizes, |pages|)
      invariant forall j :: 0 <= j < |pages| ==> pages[j] == Page(base + Offset(sizes, j), sizes[j], false)
      decreases left
    {
      hide AlignUp, Bytes, Largest, Greedy, Offset;
      GreedyStep(left);
      var next := Largest(left);
      assert sizes[|pages|] == Greedy(left)[0] == next;
      assert sizes[|pages|..][1..] == sizes[|pages| + 1..];
      OffsetNext(sizes, |pages|);
      pages := pages + [Page(at, next, false)];
      at := at + Bytes(next);
      left := left - Bytes(next);
      if left == 0 {
        return;
      }
    }
  }

  lemma {:induction false} OffsetNext(sizes: seq<PageSize>, j: nat)
    requires j < |sizes|
    ensures Offset(sizes, j + 1) == Offset(sizes, j) + Bytes(sizes[j])
  {
    if j > 0 {
      OffsetNext(sizes[1..], j - 1);
    }
  }
}
