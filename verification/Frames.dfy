/** The physical frame bitset (kernel/mem/memory_manager.cc) and the pages that own frames
    (kernel/mem/physical_page.cc). */
module Frames {
  import opened Arithmetic
  import opened Bits
  import opened Regions
  import opened Sums

  const FRAME: nat := 4096

  // The bucket that holds a frame's bit; the first bucket of the array is never used.
  function Bucket(index: nat): nat { (index + WORD) / WORD }

  function BucketCount(frameCount: nat): nat { frameCount / WORD + 1 }

  /** Every frame has a bucket inside the array exactly when the frame count is a multiple of 64. */
  lemma BucketsInBounds(frameCount: nat)
    ensures (forall i :: 0 <= i < frameCount ==> Bucket(i) < BucketCount(frameCount)) <==> frameCount % WORD == 0
  {
    if frameCount % WORD != 0 {
      assert Bucket(frameCount - 1) == BucketCount(frameCount);
    }
  }

  /** Then a frame beyond the last one has none. */
  lemma BeyondHasNoBucket(frameCount: nat, i: nat)
    requires frameCount % WORD == 0
    ensures Bucket(i) < BucketCount(frameCount) <==> i < frameCount
  {
  }

  /** With 65 frames the last one has no bucket. */
  lemma LastBucketMissing()
    ensures !(Bucket(64) < BucketCount(65))
  {
  }

  class MemoryManager {
    const frameCount: nat
    const bitset: array<Word>

    ghost predicate Valid()
      reads this
    {
      frameCount % WORD == 0 && bitset.Length == BucketCount(frameCount)
    }

    ghost predicate IsSet(i: nat)
      requires Valid() && i < frameCount
      reads this, bitset
    {
      bitset[Bucket(i)][i % WORD]
    }

    /** The frames that are in use. */
    ghost function Used(): (s: set<nat>)
      requires Valid()
      reads this, bitset
      ensures forall i :: i in s <==> 0 <= i < frameCount && IsSet(i)
    {
      set i: nat | i < frameCount && IsSet(i)
    }

    constructor (frameCount: nat)
      requires frameCount % WORD == 0
      ensures Valid() && this.frameCount == frameCount && fresh(bitset)
      ensures forall i :: 0 <= i < frameCount ==> i in Used()
    {
      this.frameCount := frameCount;
      bitset := new Word[BucketCount(frameCount)](_ => seq(WORD, _ => true));
    }

    method IsFrameSet(index: nat) returns (b: bool)
      requires Valid() && index < frameCount
      ensures b <==> index in Used()
    {
      b := bitset[Bucket(index)][index % WORD];
    }

    method SetFrame(index: nat)
      requires Valid() && index < frameCount
      modifies bitset
      ensures Used() == old(Used()) + {index}
    {
      bitset[Bucket(index)] := bitset[Bucket(index)][index % WORD := true];
    }

    method ClearFrame(index: nat)
      requires Valid() && index < frameCount
      modifies bitset
      ensures Used() == old(Used()) - {index}
    {
      bitset[Bucket(index)] := bitset[Bucket(index)][index % WORD := false];
    }

    /** alloc_frame: the lowest free frame, or None where the source stops with "No available
        physical memory!". */
    method AllocFrame() returns (r: Option<nat>)
      requires Valid()
      modifies bitset
      ensures r.Some? ==> exists f :: r.value == f * FRAME && f < frameCount && f !in old(Used())
                                      && (forall i :: 0 <= i < f ==> i in old(Used())) && Used() == old(Used()) + {f}
      ensures r.None? ==> Used() == old(Used()) && forall i :: 0 <= i < frameCount ==> i in Used()
    {
      for i := 0 to frameCount
        invariant Used() == old(Used())
        invariant forall j :: 0 <= j < i ==> j in Used()
      {
        var isSet := IsFrameSet(i);
        if !isSet {
          SetFrame(i);
          return Some(i * FRAME);
        }
      }
      return None;
    }

    method FreeFrame(frame: nat)
      requires Valid() && frame % FRAME == 0 && frame / FRAME < frameCount && frame / FRAME in Used()
      modifies bitset
      ensures Used() == old(Used()) - {frame / FRAME}
    {
      ClearFrame(frame / FRAME);
    }

    // The first inner loop of alloc_contiguous.
    method CheckStripe(first: nat, count: nat) returns (r: Stripe)
      requires Valid() && first <= frameCount
      ensures r.Open? ==> first + count <= frameCount && Vacant(Used(), first, count)
      ensures r.Taken? ==> !Vacant(Used(), first, count)
      ensures r.PastEnd? ==> first + count > frameCount && Vacant(Used(), first, frameCount - first)
    {
      for j := first to first + count
        invariant Vacant(Used(), first, j - first) && (j > first ==> j <= frameCount)
      {
        if j >= frameCount {
          return PastEnd;
        }
        var isSet := IsFrameSet(j);
        if isSet {
          assert j in Used();
          return Taken;
        }
      }
      return Open;
    }

    method SetFrames(first: nat, count: nat)
      requires Valid() && first + count <= frameCount
      modifies bitset
      ensures Used() == old(Used()) + Range(first, count)
    {
      for j := first to first + count
        invariant Used() == old(Used()) + Range(first, j - first)
      {
        SetFrame(j);
      }
    }

    /** alloc_contiguous: the lowest vacant stripe that starts at a multiple of its own length. Without
        one, Beyond is the test of a frame past the last one, which the source's assertion catches, and
        Exhausted the stop after the loop. */
    method AllocContiguous(size: nat) returns (r: Claim)
      requires Valid() && frameCount > 0
      modifies bitset
      ensures var n := FramesFor(size);
        match r
        case Found(address) =>
          && address % FRAME == 0 && Lowest(old(Used()), frameCount, n, address / FRAME)
          && Used() == old(Used()) + Range(address / FRAME, n)
        case _ => Used() == old(Used()) && Refused(r, Used(), frameCount, n)
    {
      var n := FramesFor(size);
      assert Multiple(0, n) && NoneBefore(Used(), n, 0);
      hide FramesFor, Multiple, Vacant, NoneBefore, Refused;
      var i := 0;
      while i < frameCount
        invariant Multiple(i, n) && Used() == old(Used())
        invariant n == 0 ==> i == 0
        invariant NoneBefore(Used(), n, i)
        decreases frameCount - i
      {
        var stripe := CheckStripe(i, n);
        if stripe.Open? {
          SetFrames(i, n);
          return Found(i * FRAME);
        }
        if stripe.PastEnd? {
          StopsPastEnd(Used(), frameCount, n, i);
          return Beyond;
        }
        NextStripe(Used(), n, i);
        i := i + n;
      }
      StopsAtEnd(Used(), frameCount, n, i);
      return Exhausted;
    }

    method FreeContiguous(address: nat, size: nat)
      requires Valid() && address % FRAME == 0 && address / FRAME + FramesFor(size) <= frameCount
      requires Range(address / FRAME, FramesFor(size)) <= Used()
      modifies bitset
      ensures Used() == old(Used()) - Range(address / FRAME, FramesFor(size))
    {
      var first, n := address / FRAME, FramesFor(size);
      for i := first to first + n
        invariant Used() == old(Used()) - Range(first, i - first)
      {
        assert i in Range(first, n);
        ClearFrame(i);
      }
    }
  }

  function FramesFor(size: nat): nat { AlignUp(size, FRAME) / FRAME }

  datatype Stripe = Open | Taken | PastEnd

  // What a search for frames comes to.
  datatype Claim = Found(address: nat) | Exhausted | Beyond

  ghost predicate Within(i: nat, first: nat, count: nat) { first <= i < first + count }

  ghost function Range(first: nat, count: nat): (s: set<nat>)
    ensures forall i :: i in s <==> first <= i < first + count
  {
    set i: nat | i < first + count && Within(i, first, count)
  }

  ghost predicate Vacant(used: set<nat>, first: nat, count: nat) {
    forall i :: first <= i < first + count ==> i !in used
  }

  /** i starts the lowest vacant stripe of n frames that begins at a multiple of n. */
  ghost predicate Lowest(used: set<nat>, frameCount: nat, n: nat, i: nat) {
    Multiple(i, n) && i + n <= frameCount && Vacant(used, i, n) && NoneBefore(used, n, i)
  }

  ghost predicate NoneBefore(used: set<nat>, n: nat, i: nat) {
    forall j :: 0 <= j < i && Multiple(j, n) ==> !Vacant(used, j, n)
  }

  /** No stripe of n frames that starts at a multiple of n is vacant. */
  ghost predicate NoStripe(used: set<nat>, frameCount: nat, n: nat) {
    forall j :: 0 <= j && j + n <= frameCount && Multiple(j, n) ==> !Vacant(used, j, n)
  }

  // The last multiple of n before the end.
  function TailStart(frameCount: nat, n: nat): (t: nat)
    requires n > 0
    ensures t <= frameCount
  {
    Euclid(frameCount, n);
    frameCount - frameCount % n
  }

  /** The frame count is no multiple of n, and the frames after its last multiple are all free. */
  ghost predicate TailOpen(used: set<nat>, frameCount: nat, n: nat) {
    n > 0 && TailStart(frameCount, n) < frameCount
    && Vacant(used, TailStart(frameCount, n), frameCount - TailStart(frameCount, n))
  }

  /** Why a search found nothing: there is no stripe, and it ran past the end exactly when the tail is
      free up to there. */
  ghost predicate Refused(r: Claim, used: set<nat>, frameCount: nat, n: nat) {
    !r.Found? && NoStripe(used, frameCount, n) && (r.Beyond? <==> TailOpen(used, frameCount, n))
  }

  lemma NextStripe(used: set<nat>, n: nat, i: nat)
    requires Multiple(i, n) && NoneBefore(used, n, i) && !Vacant(used, i, n)
    ensures n > 0 && Multiple(i + n, n) && NoneBefore(used, n, i + n)
  {
    NextMultiple(i, n);
    forall j | i <= j < i + n && Multiple(j, n) ensures j == i {
      NoMultipleBetween(i, j, n);
    }
  }

  lemma StopsPastEnd(used: set<nat>, frameCount: nat, n: nat, i: nat)
    requires Multiple(i, n) && NoneBefore(used, n, i) && i < frameCount < i + n
    requires Vacant(used, i, frameCount - i)
    ensures Refused(Beyond, used, frameCount, n)
  {
    TailIs(frameCount, n, i);
    forall j | 0 <= j && j + n <= frameCount && Multiple(j, n) ensures j < i {
    }
  }

  lemma StopsAtEnd(used: set<nat>, frameCount: nat, n: nat, i: nat)
    requires NoneBefore(used, n, i) && i >= frameCount > 0 && forall j :: j in used ==> j < frameCount
    requires n == 0 ==> i == 0
    ensures Refused(Exhausted, used, frameCount, n)
  {
    Euclid(frameCount, n);
    DivModUnique(TailStart(frameCount, n), n, frameCount / n, 0);
    var t := TailStart(frameCount, n);
    if t < frameCount {
      assert !Vacant(used, t, n);
    }
  }

  lemma TailIs(frameCount: nat, n: nat, i: nat)
    requires n > 0 && Multiple(i, n) && i <= frameCount < i + n
    ensures TailStart(frameCount, n) == i
  {
    Euclid(i, n);
    DivModUnique(frameCount, n, i / n, frameCount - i);
  }

  // A stripe of one frame: the first free one.
  lemma SingleFrame(used: set<nat>, frameCount: nat, f: nat)
    requires f <= frameCount && forall j :: 0 <= j < f ==> j in used
    ensures f < frameCount && f !in used ==> Lowest(used, frameCount, 1, f)
    ensures f == frameCount ==> Refused(Exhausted, used, frameCount, 1)
    ensures used + Range(f, 1) == used + {f}
  {
    DivModUnique(f, 1, f, 0);
    forall j | 0 <= j < f ensures !Vacant(used, j, 1) {
      assert j in used;
    }
  }

  /** The assertion can be reached: 576 frames of which only the first is in use, and 2 MiB wanted. */
  method SearchRunsPastEnd() returns (mm: MemoryManager, r: Claim)
    ensures mm.Valid() && mm.frameCount == 576 && mm.Used() == {0} && r == Beyond
  {
    mm := new MemoryManager(576);
    for i := 1 to mm.frameCount
      invariant fresh(mm.bitset) && mm.Valid() && mm.frameCount == 576
      invariant forall j :: j in mm.Used() <==> j == 0 || i <= j < 576
    {
      mm.ClearFrame(i);
    }
    assert mm.Used() == {0};
    assert FramesFor(2 * MIB) == 512;
    TailIs(576, 512, 512);
    r := mm.AllocContiguous(2 * MIB);
  }

  // ----- pages that own frames -----

  function FrameCount(s: PageSize): nat {
    match s
    case Normal => 1
    case Large => 512
    case Huge => 262144
  }

  lemma FramesOfPage(s: PageSize)
    ensures FramesFor(Bytes(s)) == FrameCount(s) && Bytes(s) == FrameCount(s) * FRAME
  {
  }

  lemma StripeAligned(s: PageSize, address: nat)
    requires address % FRAME == 0 && Multiple(address / FRAME, FrameCount(s))
    ensures address % Bytes(s) == 0
  {
    var n := FrameCount(s);
    Euclid(address, FRAME);
    Euclid(address / FRAME, n);
    DivModUnique(address, Bytes(s), address / FRAME / n, 0);
  }

  // How often a page owns a frame: once if the frame is one of its own, otherwise not at all.
  function Owns(f: nat): Page -> int {
    (p: Page) => if p.owned && p.phys / FRAME <= f < p.phys / FRAME + FrameCount(p.size) then 1 else 0
  }

  function One(b: bool): int { if b then 1 else 0 }

  /** The holders of physical pages, over one frame bitset. A holder whose page has been moved out or
      destroyed keeps a page that owns nothing. `reserved` are the frames in use for anything else: at
      boot, for the kernel heap, or allocated directly. */
  class PageHolders {
    const mm: MemoryManager
    ghost var reserved: set<nat>
    var pages: seq<Page>

    // A frame of this set is in it exactly as often as it is reserved or owned: so at most once.
    ghost predicate Accounted(used: set<nat>, f: nat)
      reads this
    {
      One(f in used) == One(f in reserved) + Sum(Owns(f), pages)
    }

    ghost predicate Accounts(used: set<nat>)
      reads this
    {
      && (forall f :: f in reserved ==> f < mm.frameCount)
      && (forall f {:trigger Accounted(used, f)} :: 0 <= f < mm.frameCount ==> Accounted(used, f))
      && (forall i :: 0 <= i < |pages| && pages[i].owned ==>
            pages[i].phys % Bytes(pages[i].size) == 0
            && pages[i].phys / FRAME + FrameCount(pages[i].size) <= mm.frameCount)
    }

    ghost predicate Valid()
      reads this, mm, mm.bitset
    {
      mm.Valid() && mm.frameCount > 0 && Accounts(mm.Used())
    }

    constructor (mm: MemoryManager)
      requires mm.Valid() && mm.frameCount > 0
      ensures Valid() && this.mm == mm && pages == [] && reserved == mm.Used()
    {
      this.mm := mm;
      reserved := mm.Used();
      pages := [];
    }

    /** Frames that were taken since are reserved, and reserved ones that were given back are not. */
    ghost method Recount(before: set<nat>)
      requires mm.Valid() && mm.frameCount > 0 && Accounts(before) && before - mm.Used() <= reserved
      modifies this`reserved
      ensures Valid() && reserved == old(reserved) - (before - mm.Used()) + (mm.Used() - before)
    {
      reserved := reserved - (before - mm.Used()) + (mm.Used() - before);
      forall f | 0 <= f < mm.frameCount ensures Accounted(mm.Used(), f) {
        assert old(Accounted(before, f));
        SumNonNegative(Owns(f), pages);
      }
    }

    /** A direct alloc_frame between two operations on pages. */
    method TakeFrame() returns (r: Option<nat>)
      requires Valid()
      modifies this`reserved, mm.bitset
      ensures Valid()
      ensures r.Some? ==>
        && r.value % FRAME == 0 && Lowest(old(mm.Used()), mm.frameCount, 1, r.value / FRAME)
        && reserved == old(reserved) + {r.value / FRAME}
      ensures r.None? ==> reserved == old(reserved) && NoStripe(mm.Used(), mm.frameCount, 1)
    {
      r := mm.AllocFrame();
      var f := if r.Some? then r.value / FRAME else mm.frameCount;
      SingleFrame(old(mm.Used()), mm.frameCount, f);
      Recount(old(mm.Used()));
    }

    /** A direct free_frame of a frame that no page owns. */
    method GiveFrame(frame: nat)
      requires Valid() && frame % FRAME == 0 && frame / FRAME < mm.frameCount && frame / FRAME in reserved
      modifies this`reserved, mm.bitset
      ensures Valid() && reserved == old(reserved) - {frame / FRAME}
    {
      ReservedInUse();
      mm.FreeFrame(frame);
      Recount(old(mm.Used()));
    }

    /** A direct alloc_contiguous between two operations on pages. */
    method TakeFrames(size: nat) returns (r: Claim)
      requires Valid()
      modifies this`reserved, mm.bitset
      ensures Valid()
      ensures r.Found? ==>
        && r.address % FRAME == 0
        && Lowest(old(mm.Used()), mm.frameCount, FramesFor(size), r.address / FRAME)
        && reserved == old(reserved) + Range(r.address / FRAME, FramesFor(size))
      ensures !r.Found? ==> reserved == old(reserved) && Refused(r, mm.Used(), mm.frameCount, FramesFor(size))
    {
      r := mm.AllocContiguous(size);
      Recount(old(mm.Used()));
    }

    /** A direct free_contiguous of frames that no page owns. */
    method GiveFrames(address: nat, size: nat)
      requires Valid() && address % FRAME == 0 && address / FRAME + FramesFor(size) <= mm.frameCount
      requires Range(address / FRAME, FramesFor(size)) <= reserved
      modifies this`reserved, mm.bitset
      ensures Valid() && reserved == old(reserved) - Range(address / FRAME, FramesFor(size))
    {
      ReservedInUse();
      mm.FreeContiguous(address, size);
      Recount(old(mm.Used()));
    }

    lemma ReservedInUse()
      requires Valid()
      ensures reserved <= mm.Used()
    {
      forall f | f in reserved ensures f in mm.Used() {
        assert Accounted(mm.Used(), f);
        SumNonNegative(Owns(f), pages);
      }
    }

    // The switch of PhysicalPage::allocate.
    method Acquire(size: PageSize) returns (r: Claim)
      requires mm.Valid() && mm.frameCount > 0
      modifies mm.bitset
      ensures !r.Found? ==> mm.Used() == old(mm.Used()) && Refused(r, mm.Used(), mm.frameCount, FrameCount(size))
      ensures r.Found? ==>
        && r.address % Bytes(size) == 0
        && Lowest(old(mm.Used()), mm.frameCount, FrameCount(size), r.address / FRAME)
        && mm.Used() == old(mm.Used()) + Range(r.address / FRAME, FrameCount(size))
    {
      FramesOfPage(size);
      hide FramesFor, Multiple, Refused, NoneBefore, Vacant;
      match size {
        case Normal =>
          var frame := mm.AllocFrame();
          if frame.Some? {
            SingleFrame(old(mm.Used()), mm.frameCount, frame.value / FRAME);
            r := Found(frame.value);
          } else {
            SingleFrame(mm.Used(), mm.frameCount, mm.frameCount);
            r := Exhausted;
          }
        case Large => r := mm.AllocContiguous(Bytes(Large));
        case Huge => r := mm.AllocContiguous(Bytes(Huge));
      }
      if r.Found? {
        StripeAligned(size, r.address);
      }
    }

    /** PhysicalPage::allocate, into a new holder. */
    method Allocate(size: PageSize) returns (r: Claim)
      requires Valid()
      modifies this`pages, mm.bitset
      ensures Valid()
      ensures !r.Found? ==>
        && pages == old(pages) && mm.Used() == old(mm.Used())
        && Refused(r, mm.Used(), mm.frameCount, FrameCount(size))
      ensures r.Found? ==>
        && pages == old(pages) + [Page(r.address, size, true)]
        && Lowest(old(mm.Used()), mm.frameCount, FrameCount(size), r.address / FRAME)
    {
      r := Acquire(size);
      if r.Found? {
        pages := pages + [Page(r.address, size, true)];
        forall f | 0 <= f < mm.frameCount ensures Accounted(mm.Used(), f) {
          assert old(Accounted(mm.Used(), f));
          SumAppend(Owns(f), old(pages), Page(r.address, size, true));
        }
      }
    }

    /** The move constructor: the new holder takes the page, the old one owns nothing. */
    method Move(i: nat)
      requires Valid() && i < |pages|
      modifies this`pages
      ensures Valid() && pages == old(pages)[i := Page(0, Normal, false)] + [old(pages)[i]]
    {
      pages := pages[i := Page(0, Normal, false)] + [pages[i]];
      forall f | 0 <= f < mm.frameCount ensures Accounted(mm.Used(), f) {
        assert old(Accounted(mm.Used(), f));
        SumUpdate(Owns(f), old(pages), i, Page(0, Normal, false));
        SumAppend(Owns(f), old(pages)[i := Page(0, Normal, false)], old(pages)[i]);
      }
    }

    // The switch of the destructor, for a page that owns its frames.
    method Release(page: Page)
      requires mm.Valid() && page.phys % Bytes(page.size) == 0
      requires page.phys / FRAME + FrameCount(page.size) <= mm.frameCount
      requires Range(page.phys / FRAME, FrameCount(page.size)) <= mm.Used()
      modifies mm.bitset
      ensures mm.Used() == old(mm.Used()) - Range(page.phys / FRAME, FrameCount(page.size))
    {
      FramesOfPage(page.size);
      hide FramesFor;
      match page.size
      case Normal =>
        assert page.phys / FRAME in Range(page.phys / FRAME, 1);
        mm.FreeFrame(page.phys);
      case Large => mm.FreeContiguous(page.phys, Bytes(Large));
      case Huge => mm.FreeContiguous(page.phys, Bytes(Huge));
    }

    /** The destructor: frees the frames of a page that owns them, and nothing else. */
    method Drop(i: nat)
      requires Valid() && i < |pages|
      modifies this`pages, mm.bitset
      ensures Valid() && pages == old(pages)[i := Page(0, Normal, false)]
    {
      var page := pages[i];
      if page.owned {
        forall f | f in Range(page.phys / FRAME, FrameCount(page.size)) ensures f in mm.Used() {
          assert Accounted(mm.Used(), f);
          SumAtLeast(Owns(f), pages, i);
        }
        Release(page);
      }
      pages := pages[i := Page(0, Normal, false)];
      forall f | 0 <= f < mm.frameCount ensures Accounted(mm.Used(), f) {
        assert old(Accounted(mm.Used(), f));
        SumUpdate(Owns(f), old(pages), i, Page(0, Normal, false));
        SumAtLeast(Owns(f), old(pages), i);
      }
    }
  }

  /** No two holders own the same frame. */
  lemma NoFrameOwnedTwice(h: PageHolders, i: nat, j: nat, f: nat)
    requires h.Valid() && i < j < |h.pages| && f < h.mm.frameCount
    ensures Owns(f)(h.pages[i]) + Owns(f)(h.pages[j]) <= 1
  {
    var none := Page(0, Normal, false);
    assert h.Accounted(h.mm.Used(), f);
    SumUpdate(Owns(f), h.pages, j, none);
    SumAtLeast(Owns(f), h.pages[j := none], i);
  }

  // The frames of a page are those of its bytes.
  lemma BytesInFrames(p: Page)
    requires p.phys % Bytes(p.size) == 0
    ensures p.phys == p.phys / FRAME * FRAME
    ensures p.phys + Bytes(p.size) == (p.phys / FRAME + FrameCount(p.size)) * FRAME && FrameCount(p.size) > 0
  {
    FramesOfPage(p.size);
  }

  /** The pages of two holders that own theirs have no byte in common. */
  lemma OwnedPagesApart(h: PageHolders, i: nat, j: nat)
    requires h.Valid() && i < j < |h.pages| && h.pages[i].owned && h.pages[j].owned
    ensures var p, q := h.pages[i], h.pages[j];
      p.phys + Bytes(p.size) <= q.phys || q.phys + Bytes(q.size) <= p.phys
  {
    var p, q := h.pages[i], h.pages[j];
    BytesInFrames(p);
    BytesInFrames(q);
    hide Bytes, FrameCount;
    var a, b := p.phys / FRAME, q.phys / FRAME;
    NoFrameOwnedTwice(h, i, j, if a < b then b else a);
  }
}
