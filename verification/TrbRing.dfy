/** The rings that the USB host controller and its driver pass transfer request blocks through
    (servers/usb/trb_ring.cc), against the producers and consumers of section 4.9 of the xHCI
    specification. */
module TrbRings {
  import opened Arithmetic
  import opened Sums

  const RING_LENGTH: nat := 256

  datatype Kind = Link | Other(code: nat)

  // For a link block `evaluateNext` is the bit that makes the reader toggle its cycle state.
  datatype Trb = Trb(data: nat, status: nat, cycle: bool, evaluateNext: bool, chain: bool, kind: Kind)

  // ----- the cycle bit -----

  // The cycle state during a lap; the first lap writes true.
  predicate CycleOf(lap: nat) { lap % 2 == 0 }

  lemma NextCycle(lap: nat)
    ensures CycleOf(lap + 1) == !CycleOf(lap)
  {
  }

  /** The first `n` blocks of a ring after `sent` has been written to it in laps: those before `index`
      are of this lap, the others of the one before, or not written yet. */
  ghost predicate Laid(ring: seq<Trb>, n: nat, sent: seq<Trb>, lap: nat, index: nat) {
    && index < n <= |ring| && |sent| == n * lap + index
    && forall i :: 0 <= i < n ==> SlotOk(ring[i], n, sent, lap, index, i)
  }

  ghost predicate SlotOk(slot: Trb, n: nat, sent: seq<Trb>, lap: nat, index: nat, i: nat) {
    if i < index then IsSent(slot, sent, n * lap + i, CycleOf(lap))
    else if lap > 0 then IsSent(slot, sent, n * (lap - 1) + i, CycleOf(lap - 1))
    else !slot.cycle && slot.kind != Link
  }

  ghost predicate IsSent(slot: Trb, sent: seq<Trb>, k: nat, cycle: bool) {
    k < |sent| && slot == sent[k].(cycle := cycle) && slot.kind != Link
  }

  /** Writing one block with the current cycle state. */
  lemma LaidWrite(ring: seq<Trb>, n: nat, sent: seq<Trb>, lap: nat, index: nat, t: Trb)
    requires Laid(ring, n, sent, lap, index) && t.kind != Link
    ensures var ring' := ring[index := t.(cycle := CycleOf(lap))];
      if index + 1 < n then Laid(ring', n, sent + [t], lap, index + 1) else Laid(ring', n, sent + [t], lap + 1, 0)
  {
    var ring', sent' := ring[index := t.(cycle := CycleOf(lap))], sent + [t];
    assert n * (lap + 1) == n * lap + n;
    forall i | 0 <= i < n
      ensures if index + 1 < n then SlotOk(ring'[i], n, sent', lap, index + 1, i)
              else SlotOk(ring'[i], n, sent', lap + 1, 0, i)
    {
      assert SlotOk(ring[i], n, sent, lap, index, i);
      assert sent'[|sent|] == t && n * lap + index == |sent|;
    }
  }

  lemma LaidLength(ring: seq<Trb>, n: nat, sent: seq<Trb>, lap: nat, index: nat)
    requires Laid(ring, n, sent, lap, index)
    ensures index < n <= |ring| && |sent| == n * lap + index
  {
  }

  // The writer is in the reader's lap or one ahead.
  lemma OneLapApart(n: nat, lap: nat, index: nat, readLap: nat, read: nat)
    requires index < n && read < n
    requires n * readLap + read <= n * lap + index <= n * readLap + read + n
    ensures (lap == readLap && read <= index) || (lap == readLap + 1 && index <= read)
  {
    if lap < readLap {
      MulLess(lap, readLap, n);
    } else if lap > readLap + 1 {
      MulLess(readLap + 1, lap, n);
    }
  }

  /** The cycle bit tells the reader exactly whether there is a block for it, and then the block in its
      slot is the next one that was sent. */
  lemma LaidRead(ring: seq<Trb>, n: nat, sent: seq<Trb>, lap: nat, index: nat, readLap: nat, read: nat)
    requires Laid(ring, n, sent, lap, index) && read < n
    requires n * readLap + read <= |sent| <= n * readLap + read + n
    ensures ring[read].cycle == CycleOf(readLap) <==> n * readLap + read < |sent|
    ensures ring[read].cycle == CycleOf(readLap) ==> IsSent(ring[read], sent, n * readLap + read, CycleOf(readLap))
  {
    OneLapApart(n, lap, index, readLap, read);
    assert SlotOk(ring[read], n, sent, lap, index, read);
    assert n * (readLap + 1) == n * readLap + n;
  }

  // ----- the driver's ring -----

  // The blocks before the link.
  const SLOTS: nat := RING_LENGTH - 1

  // The link block carries the cycle of the last lap that was finished.
  ghost predicate LinkOk(link: Trb, base: nat, lap: nat) {
    link.kind == Link && link.evaluateNext && link.data == base && (link.cycle <==> lap > 0 && CycleOf(lap - 1))
  }

  class TrbRing {
    const base: nat  // physical address
    const ring: array<Trb>
    var index: nat
    var cycleState: bool

    /** A ring with a link, as its producer sees it. */
    ghost predicate Producing(sent: seq<Trb>, lap: nat)
      reads this, ring
    {
      && ring.Length == RING_LENGTH && Laid(ring[..], SLOTS, sent, lap, index)
      && cycleState == CycleOf(lap) && LinkOk(ring[SLOTS], base, lap)
    }

    /** A ring without a link, as its consumer sees it: `read` blocks in, with the writer at most a whole
        ring ahead. */
    ghost predicate Consuming(sent: seq<Trb>, lap: nat, writeIndex: nat, readLap: nat)
      reads this, ring
    {
      && ring.Length == RING_LENGTH && Laid(ring[..], RING_LENGTH, sent, lap, writeIndex)
      && index < RING_LENGTH && cycleState == CycleOf(readLap)
      && RING_LENGTH * readLap + index <= |sent| <= RING_LENGTH * readLap + index + RING_LENGTH
    }

    constructor (base: nat, insertLink: bool)
      ensures fresh(ring) && this.base == base && ring.Length == 256 && index == 0 && cycleState
      ensures forall i :: 0 <= i < (if insertLink then 255 else 256) ==>
        ring[i] == Trb(0, 0, false, false, false, Other(0))
      ensures insertLink ==> ring[255] == Trb(base, 0, false, true, false, Link)
      ensures insertLink ==> Producing([], 0)
      ensures !insertLink ==> Consuming([], 0, 0, 0)
    {
      this.base := base;
      ring := new Trb[RING_LENGTH](_ => Trb(0, 0, false, false, false, Other(0)));
      index, cycleState := 0, true;
      new;
      if insertLink {
        ring[RING_LENGTH - 1] := Trb(base, 0, false, true, false, Link);
      }
    }

    /** enqueue. The blocks that callers send are not links, and the last one before the link is not
        chained to its successor. */
    method Enqueue(trb: Trb, ghost sent: seq<Trb>, ghost lap: nat) returns (slot: nat, ghost lap': nat)
      requires Producing(sent, lap) && trb.kind != Link && (index == SLOTS - 1 ==> !trb.chain)
      modifies this`index, this`cycleState, ring
      ensures Producing(sent + [trb], lap') && lap' == if old(index) == SLOTS - 1 then lap + 1 else lap
      ensures slot == old(index) && ring[slot] == trb.(cycle := CycleOf(lap))
    {
      LaidWrite(ring[..], SLOTS, sent, lap, index, trb);
      slot, lap' := index, lap;
      ghost var blocks := ring[..];
      ring[index] := trb;
      index := index + 1;
      ring[slot] := ring[slot].(cycle := cycleState);
      assert ring[..] == blocks[slot := trb.(cycle := CycleOf(lap))];
      if index < SLOTS {
        assert SlotOk(ring[..][index], SLOTS, sent + [trb], lap, index, index);
      }
      if ring[index].kind == Link {
        ghost var before := ring[..];
        ring[index] := ring[index].(cycle := cycleState);
        cycleState := !cycleState;
        index := 0;
        lap' := lap + 1;
        LaidIgnores(before, ring[..], SLOTS, sent + [trb], lap', 0);
      }
    }

    /** dequeue, on the event ring: it takes as many steps as there are new events, and ends with the
        index and the cycle state of the producer. The span that it returns holds the new events in
        order when it does not run past the end of the ring. */
    method Dequeue(ghost sent: seq<Trb>, ghost lap: nat, ghost writeIndex: nat, ghost readLap: nat)
      returns (start: nat, length: nat)
      requires Consuming(sent, lap, writeIndex, readLap)
      modifies this`index, this`cycleState
      ensures start == old(index) && length == |sent| - (RING_LENGTH * readLap + start) <= RING_LENGTH
      ensures index == writeIndex && cycleState == CycleOf(lap) && Consuming(sent, lap, writeIndex, lap)
      ensures start + length <= RING_LENGTH ==>
        Payloads(ring[start..start + length]) == Payloads(sent[|sent| - length..])
    {
      hide Laid, CycleOf;
      start, length := index, 0;
      ghost var r := readLap;
      LaidRead(ring[..], RING_LENGTH, sent, lap, writeIndex, r, index);
      while ring[index].cycle == cycleState
        invariant Consuming(sent, lap, writeIndex, r)
        invariant RING_LENGTH * r + index == RING_LENGTH * readLap + start + length
        invariant ring[index].cycle == CycleOf(r) <==> RING_LENGTH * r + index < |sent|
        decreases |sent| - (RING_LENGTH * r + index)
      {
        LaidRead(ring[..], RING_LENGTH, sent, lap, writeIndex, r, index);
        index := index + 1;
        if index >= RING_LENGTH {
          NextCycle(r);
          cycleState := !cycleState;
          index := 0;
          r := r + 1;
        }
        LaidRead(ring[..], RING_LENGTH, sent, lap, writeIndex, r, index);
        length := length + 1;
      }
      LaidLength(ring[..], RING_LENGTH, sent, lap, writeIndex);
      OneLapApart(RING_LENGTH, lap, writeIndex, r, index);
      if start + length <= RING_LENGTH {
        SpanHolds(ring[..], sent, lap, writeIndex, readLap, start, length);
      }
    }
  }

  /** A producer of section 4.9.4: it writes events with its cycle state, which it toggles at the end of
      the ring, and stops short of lapping the driver. */
  class EventWriter {
    const events: TrbRing
    var pointer: nat
    var cycle: bool

    constructor (events: TrbRing)
      ensures this.events == events && pointer == 0 && cycle
    {
      this.events := events;
      pointer, cycle := 0, true;
    }

    method Post(trb: Trb, ghost sent: seq<Trb>, ghost lap: nat, ghost readLap: nat) returns (ghost lap': nat)
      requires events.Consuming(sent, lap, pointer, readLap) && cycle == CycleOf(lap) && trb.kind != Link
      requires |sent| < RING_LENGTH * readLap + events.index + RING_LENGTH
      modifies this`pointer, this`cycle, events.ring
      ensures events.Consuming(sent + [trb], lap', pointer, readLap) && cycle == CycleOf(lap')
    {
      hide Laid;
      LaidLength(events.ring[..], RING_LENGTH, sent, lap, pointer);
      LaidWrite(events.ring[..], RING_LENGTH, sent, lap, pointer, trb);
      ghost var before := events.ring[..];
      events.ring[pointer] := trb.(cycle := cycle);
      assert events.ring[..] == before[pointer := trb.(cycle := CycleOf(lap))];
      pointer, lap' := pointer + 1, lap;
      if pointer == RING_LENGTH {
        pointer, cycle, lap' := 0, !cycle, lap + 1;
      }
    }
  }

  // A block without the cycle bit, which belongs to the ring.
  function Payload(t: Trb): Trb { t.(cycle := false) }

  function Payloads(s: seq<Trb>): (r: seq<Trb>)
    ensures |r| == |s| && forall i :: 0 <= i < |s| ==> r[i] == Payload(s[i])
  {
    seq(|s|, i requires 0 <= i < |s| => Payload(s[i]))
  }

  lemma SpanHolds(ring: seq<Trb>, sent: seq<Trb>, lap: nat, writeIndex: nat, readLap: nat, start: nat, length: nat)
    requires Laid(ring, RING_LENGTH, sent, lap, writeIndex) && |ring| == RING_LENGTH
    requires start + length <= RING_LENGTH && RING_LENGTH * readLap + start + length == |sent|
    ensures Payloads(ring[start..start + length]) == Payloads(sent[|sent| - length..])
  {
    hide Laid;
    var here, there := Payloads(ring[start..start + length]), Payloads(sent[|sent| - length..]);
    forall k | 0 <= k < length ensures here[k] == there[k] {
      LaidRead(ring, RING_LENGTH, sent, lap, writeIndex, readLap, start + k);
    }
  }

  lemma LaidIgnores(ring: seq<Trb>, ring': seq<Trb>, n: nat, sent: seq<Trb>, lap: nat, index: nat)
    requires Laid(ring, n, sent, lap, index) && |ring'| == |ring| && ring'[..n] == ring[..n]
    ensures Laid(ring', n, sent, lap, index)
  {
    forall i | 0 <= i < n ensures SlotOk(ring'[i], n, sent, lap, index, i) {
      assert ring'[i] == ring'[..n][i] == ring[..n][i] == ring[i];
    }
  }

  // ----- the controller's side of a transfer or command ring -----

  /** A consumer of section 4.9.2: a block is its own when the cycle bit equals its cycle state; a link
      block takes it back to the start and toggles the state. */
  class Reader {
    const ring: array<Trb>
    var pointer: nat
    var cycle: bool

    constructor (ring: array<Trb>)
      ensures this.ring == ring && pointer == 0 && cycle
    {
      this.ring := ring;
      pointer, cycle := 0, true;
    }

    method Fetch(ghost base: nat, ghost sent: seq<Trb>, ghost lap: nat, ghost index: nat, ghost readLap: nat)
      returns (r: Option<Trb>, ghost readLap': nat)
      requires Follows(ring[..], base, sent, lap, index, readLap, pointer, cycle)
      modifies this`pointer, this`cycle
      ensures Follows(ring[..], base, sent, lap, index, readLap', pointer, cycle)
      ensures r.Some? <==> SLOTS * readLap + old(pointer) < |sent| && !Overrun(sent, readLap, old(pointer))
      ensures r.Some? ==>
        && Payload(r.value) == Payload(sent[SLOTS * readLap + old(pointer)])
        && SLOTS * readLap' + pointer == SLOTS * readLap + old(pointer) + 1 && pointer > 0
      ensures r.None? ==> SLOTS * readLap' + pointer == SLOTS * readLap + old(pointer)
    {
      hide Laid, CycleOf;
      readLap' := readLap;
      LaidLength(ring[..], SLOTS, sent, lap, index);
      if ring[pointer].kind == Link {
        AtTheLink(ring[..], base, sent, lap, index, readLap, pointer, cycle);
        if ring[pointer].cycle != cycle {
          return None, readLap;
        }
        NextCycle(readLap);
        cycle := if ring[pointer].evaluateNext then !cycle else cycle;
        pointer := 0;
        readLap' := readLap + 1;
      } else {
        NotTheLink(ring[..], base, sent, lap, index, readLap, pointer, cycle);
      }
      LaidRead(ring[..], SLOTS, sent, lap, index, readLap', pointer);
      if ring[pointer].cycle != cycle {
        return None, readLap';
      }
      r := Some(ring[pointer]);
      pointer := pointer + 1;
    }
  }

  /** A reader and a writer of one ring, the writer at most 255 blocks ahead. */
  ghost predicate Follows(ring: seq<Trb>, base: nat, sent: seq<Trb>, lap: nat, index: nat, readLap: nat,
                          pointer: nat, cycle: bool) {
    && |ring| == RING_LENGTH && Laid(ring, SLOTS, sent, lap, index) && LinkOk(ring[SLOTS], base, lap)
    && pointer <= SLOTS && cycle == CycleOf(readLap)
    && SLOTS * readLap + pointer <= |sent| <= SLOTS * readLap + pointer + SLOTS
  }

  /** The writer has passed a reader that still stands at the link block. */
  ghost predicate Overrun(sent: seq<Trb>, readLap: nat, pointer: nat) {
    pointer == SLOTS && |sent| == SLOTS * readLap + pointer + SLOTS
  }

  lemma SlotsAreNotLinks(ring: seq<Trb>, n: nat, sent: seq<Trb>, lap: nat, index: nat)
    requires Laid(ring, n, sent, lap, index)
    ensures forall i :: 0 <= i < n ==> ring[i].kind != Link
  {
    forall i | 0 <= i < n ensures ring[i].kind != Link {
      assert SlotOk(ring[i], n, sent, lap, index, i);
    }
  }

  // The link block is the reader's own exactly when the writer has not come round to it again.
  lemma AtTheLink(ring: seq<Trb>, base: nat, sent: seq<Trb>, lap: nat, index: nat, readLap: nat, pointer: nat,
                  cycle: bool)
    requires Follows(ring, base, sent, lap, index, readLap, pointer, cycle) && ring[pointer].kind == Link
    ensures pointer == SLOTS && ring[pointer].evaluateNext
    ensures ring[pointer].cycle == cycle <==> !Overrun(sent, readLap, pointer)
  {
    SlotsAreNotLinks(ring, SLOTS, sent, lap, index);
  }

  lemma NotTheLink(ring: seq<Trb>, base: nat, sent: seq<Trb>, lap: nat, index: nat, readLap: nat, pointer: nat,
                   cycle: bool)
    requires Follows(ring, base, sent, lap, index, readLap, pointer, cycle) && ring[pointer].kind != Link
    ensures pointer < SLOTS
  {
  }

  /** Driver and controller on one ring. */
  class Channel {
    const driver: TrbRing
    const controller: Reader
    ghost var sent: seq<Trb>
    ghost var received: seq<Trb>
    ghost var lap: nat
    ghost var readLap: nat

    /** What has been received is what was sent first. */
    ghost predicate Valid()
      reads this, driver, driver.ring, controller
    {
      && controller.ring == driver.ring && driver.Producing(sent, lap)
      && Follows(driver.ring[..], driver.base, sent, lap, driver.index, readLap, controller.pointer, controller.cycle)
      && |received| == SLOTS * readLap + controller.pointer
      && Payloads(received) == Payloads(sent[..|received|])
    }

    ghost predicate Stuck()
      requires Valid()
      reads this, driver, driver.ring, controller
    {
      Overrun(sent, readLap, controller.pointer)
    }

    constructor (base: nat)
      ensures Valid() && sent == [] && received == [] && fresh(driver) && fresh(driver.ring) && fresh(controller)
    {
      var ring := new TrbRing(base, true);
      driver := ring;
      controller := new Reader(ring.ring);
      sent, received, lap, readLap := [], [], 0, 0;
    }

    method Send(trb: Trb)
      requires Valid() && |sent| - |received| < SLOTS
      requires trb.kind != Link && (driver.index == SLOTS - 1 ==> !trb.chain)
      modifies this`sent, this`lap, driver, driver.ring
      ensures Valid() && sent == old(sent) + [trb] && received == old(received)
      ensures Stuck() <==> |sent| == |received| + SLOTS && controller.pointer == SLOTS
    {
      hide Laid, LinkOk, CycleOf;
      assert sent[..|received|] == (sent + [trb])[..|received|];
      var _, lap' := driver.Enqueue(trb, sent, lap);
      sent, lap := sent + [trb], lap';
    }

    /** The controller follows the link block if it rests there and may. */
    method Settle()
      requires Valid()
      modifies this`readLap, controller
      ensures Valid() && sent == old(sent) && received == old(received)
      ensures !old(Stuck()) ==> controller.pointer < SLOTS && !Stuck()
    {
      hide Laid, CycleOf;
      if controller.ring[controller.pointer].kind == Link {
        AtTheLink(driver.ring[..], driver.base, sent, lap, driver.index, readLap, controller.pointer, controller.cycle);
        if controller.ring[controller.pointer].cycle == controller.cycle {
          NextCycle(readLap);
          controller.pointer, controller.cycle := 0, !controller.cycle;
          readLap := readLap + 1;
        }
      } else {
        NotTheLink(driver.ring[..], driver.base, sent, lap, driver.index, readLap, controller.pointer,
                   controller.cycle);
      }
    }

    /** One step of the controller: it receives the next block, unless there is none or it is stuck. */
    method Receive() returns (r: Option<Trb>)
      requires Valid()
      modifies this`received, this`readLap, controller
      ensures Valid() && sent == old(sent)
      ensures r.Some? <==> old(|received| < |sent| && !Stuck())
      ensures r.Some? ==> received == old(received) + [r.value] && Payload(r.value) == Payload(sent[|old(received)|])
      ensures r.Some? ==> controller.pointer > 0
      ensures r.None? ==> received == old(received)
    {
      hide Laid, LinkOk, CycleOf;
      var fetched, lap' := controller.Fetch(driver.base, sent, lap, driver.index, readLap);
      r, readLap := fetched, lap';
      if r.Some? {
        assert sent[..|received| + 1] == sent[..|received|] + [sent[|received|]];
        received := received + [r.value];
      }
    }
  }

  /** A controller that goes past the link block at once is never passed there: with it settled, 255
      blocks can be outstanding without its getting stuck. */
  method SettledNeverSticks(channel: Channel, trb: Trb) returns (r: Option<Trb>)
    requires channel.Valid() && channel.controller.pointer < SLOTS && |channel.sent| - |channel.received| < SLOTS
    requires trb.kind != Link && (channel.driver.index == SLOTS - 1 ==> !trb.chain)
    modifies channel, channel.driver, channel.driver.ring, channel.controller
    ensures channel.Valid() && channel.controller.pointer < SLOTS
    ensures channel.sent == old(channel.sent) + [trb]
    ensures r.Some? && channel.received == old(channel.received) + [r.value]
  {
    channel.Send(trb);
    r := channel.Receive();
    channel.Settle();
  }

  /** 255 blocks outstanding are one too many for a controller that rests at the link block: after 255
      blocks sent and received, 255 more leave it stuck, with all of them still to come. */
  method FullLapSticks(base: nat) returns (channel: Channel)
    ensures channel.Valid() && channel.Stuck() && |channel.sent| == |channel.received| + SLOTS
  {
    hide Laid, LinkOk, CycleOf, Payloads;
    channel := new Channel(base);
    var trb := Trb(0, 0, false, false, false, Other(1));
    for i := 0 to SLOTS
      invariant channel.Valid() && fresh(channel) && fresh(channel.driver) && fresh(channel.driver.ring)
      invariant fresh(channel.controller)
      invariant |channel.sent| == i && channel.received == []
    {
      channel.Send(trb);
    }
    for i := 0 to SLOTS
      invariant channel.Valid() && fresh(channel) && fresh(channel.driver) && fresh(channel.driver.ring)
      invariant fresh(channel.controller)
      invariant |channel.sent| == SLOTS && |channel.received| == i && (i > 0 ==> channel.controller.pointer > 0)
    {
      var _ := channel.Receive();
    }
    for i := 0 to SLOTS
      invariant channel.Valid() && fresh(channel) && fresh(channel.driver) && fresh(channel.driver.ring)
      invariant fresh(channel.controller)
      invariant |channel.sent| == SLOTS + i && |channel.received| == SLOTS && channel.controller.pointer > 0
    {
      channel.Send(trb);
    }
  }
}
