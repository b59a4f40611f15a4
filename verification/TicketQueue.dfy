/** The scheduler's bounded ring (kernel/proc/scheduler.cc, PriorityQueue) as a step machine.

    Any number of processors run `enqueue` and `dequeue` on one ring. Each step below is one
    atomic access of the source, so a run of steps is one interleaving under sequential
    consistency. Tickets are unbounded here; the 32-bit counters that the source keeps are
    their residues, and every comparison the source makes is made on the residues. */
module TicketQueue {
  import opened Sums

  datatype Priority = IdlePriority | NormalPriority

  datatype ThreadState = Alive | Blocked | Dead

  // A thread's priority is fixed when it is created.
  datatype Thread = Thread(id: nat, priority: Priority)

  const SLOT_COUNT: nat := 1024
  const WRAP: nat := 0x1_0000_0000
  const HALF: nat := 0x8000_0000

  /** Where one processor stands inside `enqueue` or `dequeue`. */
  datatype Pc =
    | Idle
    | EnqSpin(thread: Thread, ticket: nat)  // ticket taken, slot not yet written
    | DeqLoaded(snap: nat)                  // tail read, head not yet read
    | DeqChecked(snap: nat)                 // head read and found ahead, tail not yet claimed
    | DeqSpin(ticket: nat)                  // ticket claimed, slot not yet emptied

  /** `accepted` and `delivered` record every thread that took an enqueue ticket and every
      thread that a dequeue returned. */
  datatype Ring = Ring(
    slots: seq<Option<Thread>>,
    head: nat,
    tail: nat,
    pcs: seq<Pc>,
    accepted: multiset<Thread>,
    delivered: multiset<Thread>)

  datatype Action =
    | EnqClaim(thread: Thread)  // fetch_add on head
    | EnqStore                  // cmpxchg(nullptr, thread) succeeds
    | EnqRetry                  // cmpxchg or load finds the slot full
    | DeqLoadTail               // load of tail
    | DeqEmpty                  // load of head, returns nullptr
    | DeqNonEmpty               // load of head, goes on
    | DeqClaim                  // compare_exchange on tail succeeds
    | DeqStale                  // compare_exchange on tail fails and reloads it
    | DeqTake                   // exchange(nullptr) returns a thread
    | DeqRetry                  // exchange or load finds the slot empty

  function Counter(ticket: nat): nat { ticket % WRAP }

  function Slot(ticket: nat): nat { Counter(ticket) % SLOT_COUNT }

  /** The 32-bit difference of two counters read as a signed number. */
  function SignedDifference(a: nat, b: nat): int {
    var d := (a - b) % WRAP;
    if d < HALF then d else d - WRAP
  }

  predicate FindsEmpty(head: nat, snap: nat) {
    SignedDifference(Counter(head), Counter(snap)) <= 0
  }

  predicate WellSized(r: Ring) {
    |r.slots| == SLOT_COUNT
  }

  predicate Enabled(r: Ring, p: nat, a: Action)
    requires WellSized(r)
  {
    p < |r.pcs| &&
    var pc := r.pcs[p];
    match a
    case EnqClaim(_) => pc.Idle?
    case EnqStore => pc.EnqSpin? && r.slots[Slot(pc.ticket)].None?
    case EnqRetry => pc.EnqSpin? && r.slots[Slot(pc.ticket)].Some?
    case DeqLoadTail => pc.Idle?
    case DeqEmpty => pc.DeqLoaded? && FindsEmpty(r.head, pc.snap)
    case DeqNonEmpty => pc.DeqLoaded? && !FindsEmpty(r.head, pc.snap)
    case DeqClaim => pc.DeqChecked? && Counter(r.tail) == Counter(pc.snap)
    case DeqStale => pc.DeqChecked? && Counter(r.tail) != Counter(pc.snap)
    case DeqTake => pc.DeqSpin? && r.slots[Slot(pc.ticket)].Some?
    case DeqRetry => pc.DeqSpin? && r.slots[Slot(pc.ticket)].None?
  }

  function SetPc(r: Ring, p: nat, pc: Pc): Ring
    requires p < |r.pcs|
  {
    r.(pcs := r.pcs[p := pc])
  }

  function Apply(r: Ring, p: nat, a: Action): Ring
    requires WellSized(r) && Enabled(r, p, a)
  {
    var pc := r.pcs[p];
    match a
    case EnqClaim(t) =>
      SetPc(r, p, EnqSpin(t, r.head)).(head := r.head + 1, accepted := r.accepted + multiset{t})
    case EnqStore =>
      SetPc(r, p, Idle).(slots := r.slots[Slot(pc.ticket) := Some(pc.thread)])
    case EnqRetry => r
    case DeqLoadTail => SetPc(r, p, DeqLoaded(r.tail))
    case DeqEmpty => SetPc(r, p, Idle)
    case DeqNonEmpty => SetPc(r, p, DeqChecked(pc.snap))
    case DeqClaim => SetPc(r, p, DeqSpin(r.tail)).(tail := r.tail + 1)
    case DeqStale => SetPc(r, p, DeqLoaded(r.tail))
    case DeqTake =>
      var t := r.slots[Slot(pc.ticket)].value;
      SetPc(r, p, Idle).(slots := r.slots[Slot(pc.ticket) := None], delivered := r.delivered + multiset{t})
    case DeqRetry => r
  }

  ghost predicate Init(r: Ring) {
    && WellSized(r)
    && (forall s :: 0 <= s < SLOT_COUNT ==> r.slots[s].None?)
    && r.head == r.tail == 0
    && (forall p :: 0 <= p < |r.pcs| ==> r.pcs[p].Idle?)
    && r.accepted == r.delivered == multiset{}
  }

  predicate HoldsSnapshot(pc: Pc) {
    pc.DeqLoaded? || pc.DeqChecked?
  }

  /** Fewer than 2^31 tickets have passed since any dequeue in progress read the tail. */
  ghost predicate NoWrap(r: Ring) {
    forall p :: 0 <= p < |r.pcs| && HoldsSnapshot(r.pcs[p]) ==> r.head - r.pcs[p].snap < HALF
  }

  // The number of tickets below n that belong to slot s.
  function Tickets(n: nat, s: nat): nat {
    if n == 0 then 0 else Tickets(n - 1, s) + if Slot(n - 1) == s then 1 else 0
  }

  function EnqueuesOn(s: nat): Pc -> int {
    (pc: Pc) => if pc.EnqSpin? && Slot(pc.ticket) == s then 1 else 0
  }

  function DequeuesOn(s: nat): Pc -> int {
    (pc: Pc) => if pc.DeqSpin? && Slot(pc.ticket) == s then 1 else 0
  }

  function Carries(t: Thread): Pc -> int {
    (pc: Pc) => if pc.EnqSpin? && pc.thread == t then 1 else 0
  }

  function Stores(t: Thread): Option<Thread> -> int {
    (o: Option<Thread>) => if o == Some(t) then 1 else 0
  }

  function Filled(r: Ring, s: nat): int
    requires WellSized(r) && s < SLOT_COUNT
  {
    if r.slots[s].Some? then 1 else 0
  }

  /** How often a thread is in the ring: written to a slot, or held by an enqueue in progress. */
  function Copies(r: Ring, t: Thread): int {
    Sum(Carries(t), r.pcs) + Sum(Stores(t), r.slots)
  }

  ghost predicate TicketsInRange(r: Ring) {
    && r.tail <= r.head
    && (forall p :: 0 <= p < |r.pcs| && HoldsSnapshot(r.pcs[p]) ==> r.pcs[p].snap <= r.tail)
    && (forall p :: 0 <= p < |r.pcs| && r.pcs[p].DeqChecked? ==> r.pcs[p].snap < r.head)
  }

  // What slot s can still supply is what its outstanding tickets ask for.
  ghost predicate SlotBalanced(r: Ring, s: nat)
    requires WellSized(r) && s < SLOT_COUNT
  {
    Filled(r, s) + Sum(EnqueuesOn(s), r.pcs) - Sum(DequeuesOn(s), r.pcs)
      == Tickets(r.head, s) - Tickets(r.tail, s)
  }

  ghost predicate Conserved(r: Ring, t: Thread) {
    r.accepted[t] == Copies(r, t) + r.delivered[t]
  }

  ghost predicate Inv(r: Ring) {
    && WellSized(r)
    && TicketsInRange(r)
    && (forall s :: 0 <= s < SLOT_COUNT ==> SlotBalanced(r, s))
    && (forall t :: Conserved(r, t))
  }

  // ----- the 32-bit comparisons -----

  /** The guard of `dequeue` reports an empty ring exactly for these distances, so it is the
      true comparison only while fewer than 2^31 tickets separate the counters. */
  lemma EmptyGuardExact(head: nat, snap: nat)
    requires snap <= head
    ensures FindsEmpty(head, snap) <==> ((head - snap) % WRAP == 0 || (head - snap) % WRAP >= HALF)
    ensures head - snap < HALF ==> (FindsEmpty(head, snap) <==> head == snap)
  {
    ResidueOfDifference(head, snap);
  }

  lemma ResidueOfDifference(a: nat, b: nat)
    requires b <= a
    ensures (Counter(a) - Counter(b)) % WRAP == (a - b) % WRAP
  {
    var k := a / WRAP - b / WRAP;
    assert a == WRAP * (a / WRAP) + Counter(a);
    assert b == WRAP * (b / WRAP) + Counter(b);
    assert a - b == WRAP * k + (Counter(a) - Counter(b));
  }

  /** 2^31 queued threads look like none. */
  lemma EmptyGuardFailsAtHalf()
    ensures FindsEmpty(HALF, 0) && HALF != 0
  {
    EmptyGuardExact(HALF, 0);
  }

  /** The exchange on the tail succeeds exactly when nobody else has claimed a ticket. */
  lemma ClaimExact(tail: nat, snap: nat)
    requires snap <= tail && tail - snap < WRAP
    ensures Counter(tail) == Counter(snap) <==> tail == snap
  {
    ResidueOfDifference(tail, snap);
  }

  // ----- the invariant -----

  lemma {:induction false} TicketsMonotone(m: nat, n: nat, s: nat)
    requires m <= n
    ensures Tickets(m, s) <= Tickets(n, s)
  {
    if m < n {
      TicketsMonotone(m, n - 1, s);
    }
  }

  lemma InitInv(r: Ring)
    requires Init(r)
    ensures Inv(r)
  {
    forall s | 0 <= s < SLOT_COUNT ensures SlotBalanced(r, s) {
      SumZero(EnqueuesOn(s), r.pcs);
      SumZero(DequeuesOn(s), r.pcs);
    }
    forall t ensures Conserved(r, t) && Copies(r, t) == 0 {
      SumZero(Carries(t), r.pcs);
      SumZero(Stores(t), r.slots);
    }
  }

  lemma StepKeepsBalance(r: Ring, p: nat, a: Action, s: nat)
    requires WellSized(r) && Enabled(r, p, a) && s < SLOT_COUNT && SlotBalanced(r, s)
    ensures SlotBalanced(Apply(r, p, a), s)
  {
    hide Sum, FindsEmpty, Counter;
    var r' := Apply(r, p, a);
    if r'.pcs != r.pcs {
      SumUpdate(EnqueuesOn(s), r.pcs, p, r'.pcs[p]);
      SumUpdate(DequeuesOn(s), r.pcs, p, r'.pcs[p]);
    }
  }

  lemma StepKeepsThread(r: Ring, p: nat, a: Action, t: Thread)
    requires Inv(r) && Enabled(r, p, a)
    ensures Conserved(Apply(r, p, a), t)
    ensures Copies(Apply(r, p, a), t) == Copies(r, t)
              + (if a == EnqClaim(t) then 1 else 0)
              - (if a.DeqTake? && r.slots[Slot(r.pcs[p].ticket)] == Some(t) then 1 else 0)
  {
    var r' := Apply(r, p, a);
    assert Conserved(r, t);
    SumUpdate(Carries(t), r.pcs, p, r'.pcs[p]);
    assert r'.pcs == r.pcs[p := r'.pcs[p]];
    if a.EnqStore? || a.DeqTake? {
      var i := Slot(r.pcs[p].ticket);
      SumUpdate(Stores(t), r.slots, i, r'.slots[i]);
    }
  }

  /** Every atomic step of every processor keeps the invariant. */
  lemma StepKeepsInv(r: Ring, p: nat, a: Action)
    requires Inv(r) && NoWrap(r) && Enabled(r, p, a)
    ensures Inv(Apply(r, p, a))
  {
    var r' := Apply(r, p, a);
    forall s | 0 <= s < SLOT_COUNT ensures SlotBalanced(r', s) {
      StepKeepsBalance(r, p, a, s);
    }
    forall t ensures Conserved(r', t) {
      StepKeepsThread(r, p, a, t);
    }
    var pc := r.pcs[p];
    if pc.DeqLoaded? {
      EmptyGuardExact(r.head, pc.snap);
    } else if pc.DeqChecked? {
      ClaimExact(r.tail, pc.snap);
    }
    assert TicketsInRange(r');
  }

  // ----- whole runs -----

  ghost predicate Step(r: Ring, r': Ring) {
    WellSized(r) && exists p, a :: Enabled(r, p, a) && r' == Apply(r, p, a)
  }

  /** A run: one interleaving of atomic steps in which no dequeue is overtaken by 2^31 tickets. */
  ghost predicate IsRun(run: seq<Ring>) {
    && |run| > 0
    && Init(run[0])
    && (forall i :: 0 <= i < |run| ==> NoWrap(run[i]))
    && (forall i :: 0 < i < |run| ==> Step(run[i - 1], run[i]))
  }

  lemma {:induction false} RunKeepsInv(run: seq<Ring>, i: nat)
    requires IsRun(run) && i < |run|
    ensures Inv(run[i])
  {
    if i == 0 {
      InitInv(run[0]);
    } else {
      RunKeepsInv(run, i - 1);
      assert Step(run[i - 1], run[i]);
      var p, a :| Enabled(run[i - 1], p, a) && run[i] == Apply(run[i - 1], p, a);
      StepKeepsInv(run[i - 1], p, a);
    }
  }

  /** No thread is lost and none is handed out twice: at every moment, each thread has been
      returned by dequeues exactly as often as it took an enqueue ticket, less the copies that
      are still in the ring. */
  lemma NoneLostNoneDuplicated(run: seq<Ring>, i: nat, t: Thread)
    requires IsRun(run) && i < |run|
    ensures run[i].accepted[t] == Copies(run[i], t) + run[i].delivered[t]
  {
    RunKeepsInv(run, i);
    assert Conserved(run[i], t);
  }

  /** A dequeue that waits on a slot has a supplier: the slot is filled, or another processor is
      inside `enqueue` for that very slot and its exchange would succeed now. */
  lemma ClaimedTicketHasSupplier(r: Ring, p: nat)
    requires Inv(r) && p < |r.pcs| && r.pcs[p].DeqSpin?
    ensures var s := Slot(r.pcs[p].ticket);
      && Sum(DequeuesOn(s), r.pcs) <= Filled(r, s) + Sum(EnqueuesOn(s), r.pcs)
      && (Enabled(r, p, DeqTake)
          || exists q :: 0 <= q < |r.pcs| && r.pcs[q].EnqSpin? && Slot(r.pcs[q].ticket) == s
                         && Enabled(r, q, EnqStore))
  {
    var s := Slot(r.pcs[p].ticket);
    assert SlotBalanced(r, s);
    TicketsMonotone(r.tail, r.head, s);
    SumAtLeast(DequeuesOn(s), r.pcs, p);
    if r.slots[s].None? {
      var q := SumWitness(EnqueuesOn(s), r.pcs);
      assert r.pcs[q].EnqSpin? && Slot(r.pcs[q].ticket) == s && Enabled(r, q, EnqStore);
    }
  }

  /** `dequeue` returns nullptr only at a moment when every enqueue ticket has been claimed. */
  lemma NullMeansAllClaimed(r: Ring, p: nat)
    requires Inv(r) && NoWrap(r) && p < |r.pcs| && r.pcs[p].DeqLoaded?
    ensures Enabled(r, p, DeqEmpty) <==> r.head == r.pcs[p].snap
    ensures Enabled(r, p, DeqEmpty) ==> r.head == r.tail
  {
    EmptyGuardExact(r.head, r.pcs[p].snap);
  }

  /** When every processor is outside the ring and no ticket is outstanding, every thread ever
      enqueued has been handed out exactly as often as it went in. */
  lemma QuiescentRingIsEmpty(r: Ring)
    requires Inv(r) && r.head == r.tail
    requires forall p :: 0 <= p < |r.pcs| ==> r.pcs[p].Idle?
    ensures forall s :: 0 <= s < SLOT_COUNT ==> r.slots[s].None?
    ensures r.delivered == r.accepted
  {
    forall s | 0 <= s < SLOT_COUNT ensures r.slots[s].None? {
      assert SlotBalanced(r, s);
      SumZero(EnqueuesOn(s), r.pcs);
      SumZero(DequeuesOn(s), r.pcs);
    }
    forall t ensures r.delivered[t] == r.accepted[t] {
      assert Conserved(r, t);
      SumZero(Carries(t), r.pcs);
      SumZero(Stores(t), r.slots);
    }
  }

  /** While any processor is inside `dequeue`, some processor in the ring can take a step that is
      not an empty retry: a dequeue cannot wait for ever on a slot that nobody will fill. */
  lemma DequeueNeverDeadlocks(r: Ring, p: nat)
    requires Inv(r) && p < |r.pcs| && (r.pcs[p].DeqSpin? || HoldsSnapshot(r.pcs[p]))
    ensures exists q: nat, a :: Enabled(r, q, a) && !a.EnqRetry? && !a.DeqRetry? && !r.pcs[q].Idle?
  {
    match r.pcs[p]
    case DeqSpin(_) => ClaimedTicketHasSupplier(r, p);
    case DeqLoaded(_) => assert Enabled(r, p, DeqEmpty) || Enabled(r, p, DeqNonEmpty);
    case DeqChecked(_) => assert Enabled(r, p, DeqClaim) || Enabled(r, p, DeqStale);
  }
}
