/** The chunk regions of the kernel heap (kernel/mem/heap.cc): a bitmap of 32-byte chunks, scanned a
    word at a time. */
module Heap {
  import opened Bits
  import opened Frames
  import opened Sums

  const CHUNK: nat := 32
  const HEADER: nat := 16

  // ----- the scan -----

  /** Where a first-fit scan stands after `position` chunks: the last `free` of them are free, the run
      that they make up starts at `first`, and no run of the desired length starts before it. */
  ghost predicate Scan(used: set<nat>, position: nat, free: nat, first: nat, desired: nat) {
    && free <= position && (free > 0 ==> first == position - free)
    && Vacant(used, position - free, free)
    && forall j :: 0 <= j < position - free ==> !Vacant(used, j, desired)
  }

  lemma SawFree(used: set<nat>, position: nat, free: nat, first: nat, desired: nat, n: nat)
    requires Scan(used, position, free, first, desired) && Vacant(used, position, n)
    ensures Scan(used, position + n, free + n, if free == 0 then position else first, desired)
  {
  }

  lemma SawUsed(used: set<nat>, position: nat, free: nat, first: nat, desired: nat, n: nat, any: nat)
    requires Scan(used, position, free, first, desired) && free < desired && n > 0
    requires forall i :: position <= i < position + n ==> i in used
    ensures Scan(used, position + n, 0, any, desired)
  {
    forall j | 0 <= j < position + n ensures !Vacant(used, j, desired) {
      if position - free <= j < position {
        assert position in used;
      } else if j >= position {
        assert j in used;
      }
    }
  }

  /** A scan that found enough stands at the lowest run. */
  lemma ScanFound(used: set<nat>, position: nat, free: nat, first: nat, desired: nat)
    requires Scan(used, position, free, first, desired) && 0 < desired <= free
    ensures Vacant(used, first, desired) && first + desired <= position
    ensures forall j :: 0 <= j < first ==> !Vacant(used, j, desired)
  {
  }

  /** A scan of everything that did not find enough shows that there is no run. */
  lemma ScanMissed(used: set<nat>, position: nat, free: nat, first: nat, desired: nat)
    requires Scan(used, position, free, first, desired) && free < desired
    ensures forall j :: 0 <= j && j + desired <= position ==> !Vacant(used, j, desired)
  {
  }

  // The word shows the chunks from `base` on.
  ghost predicate Shows(w: Word, used: set<nat>, base: nat) {
    forall i :: 0 <= i < WORD ==> (w[i] <==> base + i in used)
  }

  // The word, with `viewed` bits shifted out.
  ghost predicate Shifted(bucket: Word, w: Word, viewed: nat) {
    && viewed <= WORD
    && forall i :: 0 <= i < WORD ==> (bucket[i] <==> viewed + i < WORD && w[viewed + i])
  }

  lemma ShiftMore(bucket: Word, w: Word, viewed: nat, n: nat)
    requires Shifted(bucket, w, viewed) && viewed + n <= WORD
    ensures Shifted(ShiftRight(bucket, n), w, viewed + n)
  {
  }

  lemma ZerosAreFree(bucket: Word, w: Word, used: set<nat>, base: nat, viewed: nat, n: nat)
    requires Shows(w, used, base) && Shifted(bucket, w, viewed) && viewed + n <= WORD
    requires forall i :: 0 <= i < n ==> !bucket[i]
    ensures Vacant(used, base + viewed, n)
  {
    forall i | base + viewed <= i < base + viewed + n ensures i !in used {
      assert !bucket[i - base - viewed];
      assert w[i - base] <==> base + (i - base) in used;
    }
  }

  lemma OnesAreUsed(bucket: Word, w: Word, used: set<nat>, base: nat, viewed: nat, n: nat)
    requires Shows(w, used, base) && Shifted(bucket, w, viewed) && n <= WORD
    requires forall i :: 0 <= i < n ==> bucket[i]
    ensures viewed + n <= WORD
    ensures forall i :: base + viewed <= i < base + viewed + n ==> i in used
  {
    assert n > 0 ==> bucket[n - 1];
    forall i | base + viewed <= i < base + viewed + n ensures i in used {
      assert bucket[i - base - viewed];
      assert w[i - base] <==> base + (i - base) in used;
    }
  }

  /** The inner loop: goes on with the scan through one word, unless it finds enough before its end. */
  method ScanWord(w: Word, base: nat, desired: nat, free0: nat, first0: nat, ghost used: set<nat>)
    returns (free: nat, first: nat)
    requires Shows(w, used, base) && !IsFull(w)
    requires Scan(used, base, free0, first0, desired) && free0 < desired
    ensures free < desired ==> Scan(used, base + WORD, free, first, desired)
    ensures free >= desired ==> Scan(used, first + free, free, first, desired) && base <= first + free <= base + WORD
  {
    hide Scan, Shows, Shifted, Vacant, ShiftRight, IsFull, Complement;
    free, first := free0, first0;
    var bucket, viewed := w, 0;
    assert Shifted(bucket, w, viewed) by { ShiftedAtFirst(w); }
    while viewed < WORD
      invariant viewed <= WORD && Shifted(bucket, w, viewed) && !IsFull(bucket)
      invariant Scan(used, base + viewed, free, first, desired) && free < desired
    {
      if IsZero(bucket) {
        ZerosAreFree(bucket, w, used, base, viewed, WORD - viewed);
        SawFree(used, base + viewed, free, first, desired, WORD - viewed);
        if free == 0 {
          first := base + viewed;
        }
        free := free + (WORD - viewed);
        ScanPlace(used, base + WORD, free, first, desired);
        return;
      }
      var zeros := TrailingZeros(bucket);
      RealBits(bucket, w, viewed, zeros);
      ZerosAreFree(bucket, w, used, base, viewed, zeros);
      SawFree(used, base + viewed, free, first, desired, zeros);
      ShiftMore(bucket, w, viewed, zeros);
      ShiftKeepsRoom(bucket, zeros);
      bucket := ShiftRight(bucket, zeros);
      if free == 0 {
        first := base + viewed;
      }
      free := free + zeros;
      viewed := viewed + zeros;
      if free >= desired {
        ScanPlace(used, base + viewed, free, first, desired);
        return;
      }
      RoomMeansZero(bucket);
      var ones := TrailingZeros(Complement(bucket));
      OnesAreUsed(bucket, w, used, base, viewed, ones);
      SawUsed(used, base + viewed, free, first, desired, ones, first);
      ShiftMore(bucket, w, viewed, ones);
      ShiftKeepsRoom(bucket, ones);
      bucket := ShiftRight(bucket, ones);
      viewed := viewed + ones;
      free := 0;
    }
  }

  lemma ScanPlace(used: set<nat>, position: nat, free: nat, first: nat, desired: nat)
    requires Scan(used, position, free, first, desired)
    ensures free > 0 ==> position == first + free
  {
  }

  lemma ShiftKeepsRoom(bucket: Word, n: nat)
    requires n <= WORD && !IsFull(bucket)
    ensures !IsFull(ShiftRight(bucket, n)) && (n < WORD ==> ShiftRight(bucket, n)[0] == bucket[n])
  {
    if n > 0 {
      assert !ShiftRight(bucket, n)[WORD - 1];
    } else {
      assert ShiftRight(bucket, n) == bucket;
    }
  }

  lemma RoomMeansZero(bucket: Word)
    requires !IsFull(bucket)
    ensures !IsZero(Complement(bucket))
  {
    var i :| 0 <= i < WORD && !bucket[i];
    assert Complement(bucket)[i];
  }

  lemma ShiftedAtFirst(w: Word)
    ensures Shifted(w, w, 0)
  {
  }

  // A set bit of the shifted word is a bit of the word.
  lemma RealBits(bucket: Word, w: Word, viewed: nat, n: nat)
    requires Shifted(bucket, w, viewed) && n < WORD && bucket[n]
    ensures viewed + n < WORD
  {
  }

  // ----- blocks -----

  // Headers by the chunk that they are in; each says how many chunks its block has.
  type Headers = map<nat, nat>

  ghost predicate InBlock(headers: Headers, s: nat, i: nat) {
    s in headers && s <= i < s + headers[s]
  }

  /** Blocks are not empty, lie in the scanned chunks and do not overlap; the used chunks are those in
      a block. */
  ghost predicate BlocksFit(headers: Headers, used: set<nat>, limit: nat) {
    && (forall s :: s in headers ==> headers[s] > 0 && s + headers[s] <= limit)
    && (forall s, t :: s in headers && t in headers && s < t ==> s + headers[s] <= t)
    && (forall s, i :: InBlock(headers, s, i) ==> i in used)
    && (forall i :: i in used ==> exists s :: InBlock(headers, s, i))
  }

  lemma AddBlock(headers: Headers, used: set<nat>, limit: nat, first: nat, count: nat)
    requires BlocksFit(headers, used, limit) && Vacant(used, first, count) && count > 0 && first + count <= limit
    ensures first !in headers && BlocksFit(headers[first := count], used + Range(first, count), limit)
  {
    var headers', used' := headers[first := count], used + Range(first, count);
    assert first in headers ==> InBlock(headers, first, first);
    forall s | s in headers
      ensures s != first && (s < first ==> s + headers[s] <= first) && (first < s ==> first + count <= s)
    {
      assert InBlock(headers, s, s);
      assert !InBlock(headers, s, first);
    }
    forall s, i | InBlock(headers', s, i) ensures i in used' {
      assert s != first ==> InBlock(headers, s, i);
    }
    forall i | i in used' ensures exists s :: InBlock(headers', s, i) {
      if i in used {
        var s :| InBlock(headers, s, i);
        assert InBlock(headers', s, i);
      } else {
        assert InBlock(headers', first, i);
      }
    }
  }

  lemma RemoveBlock(headers: Headers, used: set<nat>, limit: nat, first: nat)
    requires BlocksFit(headers, used, limit) && first in headers
    ensures Range(first, headers[first]) <= used
    ensures BlocksFit(headers - {first}, used - Range(first, headers[first]), limit)
  {
    var headers', used' := headers - {first}, used - Range(first, headers[first]);
    forall i | i in Range(first, headers[first]) ensures i in used {
      assert InBlock(headers, first, i);
    }
    forall s, i | InBlock(headers', s, i) ensures i in used' {
      assert InBlock(headers, s, i);
    }
    forall i | i in used' ensures exists s :: InBlock(headers', s, i) {
      var s :| InBlock(headers, s, i);
      assert InBlock(headers', s, i);
    }
  }

  /** What the headers below `n` add up to. */
  ghost function HeaderSum(headers: Headers, n: nat): nat {
    if n == 0 then 0 else HeaderSum(headers, n - 1) + if n - 1 in headers then headers[n - 1] else 0
  }

  lemma {:induction false} HeaderSumAdd(headers: Headers, first: nat, count: nat, n: nat)
    requires first !in headers
    ensures HeaderSum(headers[first := count], n) == HeaderSum(headers, n) + if first < n then count else 0
  {
    if n > 0 {
      HeaderSumAdd(headers, first, count, n - 1);
    }
  }

  lemma HeaderSumRemove(headers: Headers, first: nat, n: nat)
    requires first in headers && first < n
    ensures HeaderSum(headers, n) == HeaderSum(headers - {first}, n) + headers[first]
  {
    HeaderSumAdd(headers - {first}, first, headers[first], n);
    assert (headers - {first})[first := headers[first]] == headers;
  }

  lemma {:induction false} RangeSize(first: nat, count: nat)
    ensures |Range(first, count)| == count
  {
    if count == 0 {
      assert Range(first, 0) == {};
    } else {
      RangeSize(first, count - 1);
      assert Range(first, count) == Range(first, count - 1) + {first + count - 1};
    }
  }

  lemma AddSize(used: set<nat>, first: nat, count: nat)
    requires Vacant(used, first, count)
    ensures |used + Range(first, count)| == |used| + count
  {
    RangeSize(first, count);
    assert used !! Range(first, count);
  }

  lemma RemoveSize(used: set<nat>, first: nat, count: nat)
    requires Range(first, count) <= used
    ensures |used - Range(first, count)| == |used| - count
  {
    RangeSize(first, count);
    assert used == (used - Range(first, count)) + Range(first, count);
  }

  /** The constructor's assertion holds for every memory size. */
  lemma BitsetFits(size: nat)
    ensures var chunks := size / (CHUNK + 1); chunks * CHUNK + (chunks + 7) / 8 <= size
  {
  }

  function ChunksFor(size: nat): nat { (size + HEADER + CHUNK - 1) / CHUNK }

  /** The bytes from the pointer on lie in the block of `count` chunks behind its header of 16 bytes, and
      in one chunk fewer they would not. */
  ghost predicate Holds(memory: nat, first: nat, count: nat, pointer: nat, size: nat) {
    && pointer == memory + first * 32 + 16
    && pointer + size <= memory + (first + count) * 32 < pointer + size + 32
  }

  lemma ChunksHold(memory: nat, first: nat, size: nat)
    ensures Holds(memory, first, ChunksFor(size), memory + first * CHUNK + HEADER, size)
  {
  }

  class HeapRegion {
    const memory: nat
    const chunkCount: nat
    const bitset: array<Word>
    var usedChunks: nat
    var headers: Headers

    // The chunks that the scan looks at; those after them are never handed out.
    ghost function Scanned(): nat {
      WORD * bitset.Length
    }

    ghost predicate IsSet(i: nat)
      requires i < Scanned()
      reads bitset
    {
      bitset[i / WORD][i % WORD]
    }

    ghost function Used(): (s: set<nat>)
      reads bitset
      ensures forall i :: i in s <==> 0 <= i < Scanned() && IsSet(i)
    {
      set i: nat | i < Scanned() && IsSet(i)
    }

    /** The used count is the number of set bits and what the headers add up to. */
    ghost predicate Valid()
      reads this, bitset
    {
      && bitset.Length == chunkCount / WORD
      && BlocksFit(headers, Used(), Scanned())
      && usedChunks == |Used()| && usedChunks == HeaderSum(headers, Scanned())
    }

    constructor (memory: nat, size: nat)
      ensures Valid() && fresh(bitset) && headers == map[] && Used() == {}
      ensures this.memory == memory && chunkCount == size / (CHUNK + 1)
    {
      this.memory := memory;
      chunkCount := size / (CHUNK + 1);
      bitset := new Word[size / (CHUNK + 1) / WORD](_ => Zeros(WORD));
      usedChunks := 0;
      headers := map[];
      new;
      assert Used() == {};
      NoHeaders(Scanned());
    }

    /** Region::allocate: null exactly when no run of the desired length is free in the scanned
        buckets; otherwise the lowest one, of which exactly the bits are set. */
    method Allocate(size: nat) returns (r: Option<nat>)
      requires Valid()
      modifies this`usedChunks, this`headers, bitset
      ensures Valid()
      ensures var desired := ChunksFor(size);
        match r
        case Some(pointer) =>
          exists first: nat ::
            && pointer == memory + first * CHUNK + HEADER && first + desired <= Scanned()
            && Holds(memory, first, desired, pointer, size)
            && Vacant(old(Used()), first, desired) && (forall j :: 0 <= j < first ==> !Vacant(old(Used()), j, desired))
            && first !in old(headers) && headers == old(headers)[first := desired]
            && Used() == old(Used()) + Range(first, desired) && usedChunks == old(usedChunks) + desired
        case None =>
          && (forall j :: 0 <= j && j + desired <= Scanned() ==> !Vacant(old(Used()), j, desired))
          && headers == old(headers) && Used() == old(Used()) && usedChunks == old(usedChunks)
    {
      hide BlocksFit, HeaderSum, Used, Vacant, Holds;
      var desired := ChunksFor(size);
      var free, first := FindRun(desired);
      if free < desired {
        return None;
      }
      AddBlock(headers, Used(), Scanned(), first, desired);
      HeaderSumAdd(headers, first, desired, Scanned());
      AddSize(Used(), first, desired);
      headers := headers[first := desired];
      SetBits(first, desired);
      usedChunks := usedChunks + desired;
      ChunksHold(memory, first, size);
      return Some(memory + first * CHUNK + HEADER);
    }

    // The scan.
    method FindRun(desired: nat) returns (free: nat, first: nat)
      requires desired > 0
      ensures free >= desired ==> first + desired <= Scanned() && Vacant(Used(), first, desired)
                                  && forall j :: 0 <= j < first ==> !Vacant(Used(), j, desired)
      ensures free < desired ==> forall j :: 0 <= j && j + desired <= Scanned() ==> !Vacant(Used(), j, desired)
    {
      hide Scan, Vacant, Used, IsFull, IsZero, Shows;
      free, first := 0, 0;
      ghost var position: nat, used := 0, Used();
      assert Scan(used, 0, 0, 0, desired) by { ScanStart(used, desired); }
      for b := 0 to bitset.Length
        invariant Scan(used, position, free, first, desired) && position <= WORD * b
        invariant free < desired ==> position == WORD * b
      {
        if free >= desired {
          break;
        }
        var bucket := bitset[b];
        WordShows(b);
        if IsZero(bucket) {
          ZeroWordFree(bucket, used, WORD * b);
          SawFree(used, position, free, first, desired, WORD);
          if free == 0 {
            first := b * WORD;
          }
          free := free + WORD;
          position := position + WORD;
        } else if IsFull(bucket) {
          FullWordUsed(bucket, used, WORD * b);
          SawUsed(used, position, free, first, desired, WORD, first);
          free := 0;
          position := position + WORD;
        } else {
          free, first := ScanWord(bucket, b * WORD, desired, free, first, used);
          position := if free < desired then position + WORD else first + free;
        }
      }
      if free >= desired {
        ScanFound(used, position, free, first, desired);
      } else {
        ScanMissed(used, position, free, first, desired);
      }
    }

    lemma WordShows(b: nat)
      requires b < bitset.Length
      ensures Shows(bitset[b], Used(), WORD * b)
    {
      forall i | 0 <= i < WORD ensures bitset[b][i] <==> WORD * b + i in Used() {
        assert (WORD * b + i) / WORD == b && (WORD * b + i) % WORD == i;
      }
    }

    method SetBits(first: nat, count: nat)
      requires first + count <= Scanned() && Vacant(Used(), first, count)
      modifies bitset
      ensures Used() == old(Used()) + Range(first, count)
    {
      for i := first to first + count
        invariant Used() == old(Used()) + Range(first, i - first)
      {
        // The bit is not set.
        assert i !in Used();
        bitset[(i + WORD) / WORD - 1] := bitset[(i + WORD) / WORD - 1][i % WORD := true];
      }
    }

    /** Region::deallocate: gives up the block whose header is in front of the pointer. */
    method Deallocate(pointer: nat, ghost first: nat)
      requires Valid() && first in headers && pointer == memory + first * CHUNK + HEADER
      modifies this`usedChunks, this`headers, bitset
      ensures Valid() && headers == old(headers) - {first}
      ensures Used() == old(Used()) - Range(first, old(headers)[first])
      ensures usedChunks == old(usedChunks) - old(headers)[first]
    {
      hide BlocksFit, HeaderSum, Used, Vacant;
      var chunk: nat := (pointer - HEADER - memory) / CHUNK;
      var count := headers[chunk];
      assert chunk + count <= Scanned() && 0 < count by { BlockBounds(headers, Used(), Scanned(), chunk); }
      RemoveBlock(headers, Used(), Scanned(), chunk);
      HeaderSumRemove(headers, chunk, Scanned());
      RemoveSize(Used(), chunk, count);
      ClearBits(chunk, count);
      usedChunks := usedChunks - count;
      headers := headers - {chunk};
    }

    method ClearBits(first: nat, count: nat)
      requires first + count <= Scanned() && Range(first, count) <= Used()
      modifies bitset
      ensures Used() == old(Used()) - Range(first, count)
    {
      for i := first to first + count
        invariant Used() == old(Used()) - Range(first, i - first)
      {
        // The bit is set.
        assert i in Range(first, count) && i in Used();
        ClearBit(i);
      }
    }

    method ClearBit(i: nat)
      requires i < Scanned()
      modifies bitset
      ensures Used() == old(Used()) - {i}
    {
      bitset[(i + WORD) / WORD - 1] := bitset[(i + WORD) / WORD - 1][i % WORD := false];
    }

    // Region::contains.
    method Contains(pointer: nat) returns (b: bool)
      requires pointer >= HEADER
      ensures b <==> memory <= pointer - HEADER && pointer < memory + chunkCount * CHUNK
    {
      if pointer - HEADER < memory {
        return false;
      }
      if pointer >= memory + chunkCount * CHUNK {
        return false;
      }
      return true;
    }
  }

  lemma {:induction false} NoHeaders(n: nat)
    ensures HeaderSum(map[], n) == 0
  {
    if n > 0 {
      NoHeaders(n - 1);
    }
  }

  lemma BlockBounds(headers: Headers, used: set<nat>, limit: nat, first: nat)
    requires BlocksFit(headers, used, limit) && first in headers
    ensures headers[first] > 0 && first + headers[first] <= limit
  {
  }

  lemma ScanStart(used: set<nat>, desired: nat)
    ensures Scan(used, 0, 0, 0, desired)
  {
  }

  lemma ZeroWordFree(w: Word, used: set<nat>, base: nat)
    requires Shows(w, used, base) && IsZero(w)
    ensures Vacant(used, base, WORD)
  {
    ShiftedAtFirst(w);
    ZerosAreFree(w, w, used, base, 0, WORD);
  }

  lemma FullWordUsed(w: Word, used: set<nat>, base: nat)
    requires Shows(w, used, base) && IsFull(w)
    ensures forall i :: base <= i < base + WORD ==> i in used
  {
    ShiftedAtFirst(w);
    OnesAreUsed(w, w, used, base, 0, WORD);
  }
}
