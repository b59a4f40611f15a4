/** Progress of `enqueue` on the scheduler's ring (PriorityQueue in kernel/proc/scheduler.cc): with at most
    1024 threads an enqueue never waits for nobody. */
module RingProgress {
  import opened Arithmetic
  import opened RingOrder
  import opened RingOvertaking
  import opened Sums
  import opened TicketQueue
  import Kernel = SchedulerMachine

  // ----- how many threads are in the ring -----

  function IsFull(): Option<Thread> -> int {
    (o: Option<Thread>) => if o.Some? then 1 else 0
  }

  function Enqueuing(): Pc -> int {
    (pc: Pc) => if pc.EnqSpin? then 1 else 0
  }

  function Dequeuing(): Pc -> int {
    (pc: Pc) => if pc.DeqSpin? then 1 else 0
  }

  /** The threads in the ring: in slots, or held by enqueues that wait. */
  function Inside(r: Ring): int { Sum(IsFull(), r.slots) + Sum(Enqueuing(), r.pcs) }

  // The tickets that are taken and not claimed, and the claimed ones that wait.
  ghost predicate Balanced(r: Ring) {
    Inside(r) == r.head - r.tail + Sum(Dequeuing(), r.pcs)
  }

  lemma InitBalanced(r: Ring)
    requires Init(r)
    ensures Balanced(r)
  {
    SumZero(IsFull(), r.slots);
    SumZero(Enqueuing(), r.pcs);
    SumZero(Dequeuing(), r.pcs);
  }

  lemma StepBalanced(r: Ring, p: nat, a: Action)
    requires WellSized(r) && Balanced(r) && Enabled(r, p, a)
    ensures Balanced(Apply(r, p, a))
  {
    hide Sum, FindsEmpty, Counter;
    var r' := Apply(r, p, a);
    SumUpdate(Enqueuing(), r.pcs, p, r'.pcs[p]);
    SumUpdate(Dequeuing(), r.pcs, p, r'.pcs[p]);
    assert r'.pcs == r.pcs[p := r'.pcs[p]];
    if a.EnqStore? || a.DeqTake? {
      var i := Slot(r.pcs[p].ticket);
      SumUpdate(IsFull(), r.slots, i, r'.slots[i]);
    }
  }

  lemma {:induction false} RunBalanced(run: seq<Ring>, i: nat)
    requires IsRun(run) && i < |run|
    ensures Balanced(run[i])
  {
    hide Balanced, Init, NoWrap, Enabled, Apply;
    if i == 0 {
      InitBalanced(run[0]);
    } else {
      RunBalanced(run, i - 1);
      assert Step(run[i - 1], run[i]);
      var p, a :| Enabled(run[i - 1], p, a) && run[i] == Apply(run[i - 1], p, a);
      StepBalanced(run[i - 1], p, a);
    }
  }

  // ----- a full slot has a dequeue -----

  lemma {:induction false} NoTicket(m: nat, n: nat, s: nat)
    requires m <= n && forall k :: m <= k < n ==> Slot(k) != s
    ensures Tickets(n, s) == Tickets(m, s)
  {
    if m < n {
      NoTicket(m, n - 1, s);
    }
  }

  // Among 1024 tickets in a row a slot has one at most.
  lemma {:induction false} OneTicket(m: nat, n: nat, s: nat)
    requires m <= n <= m + SLOT_COUNT
    ensures Tickets(n, s) <= Tickets(m, s) + 1
  {
    if m < n {
      if Slot(n - 1) == s {
        forall k | m <= k < n - 1 ensures Slot(k) != s {
          if Slot(k) == s {
            SlotsDiffer(k, n - 1);
          }
        }
        NoTicket(m, n - 1, s);
      } else {
        OneTicket(m, n - 1, s);
      }
    }
  }

  /** With at most 1024 threads in the ring, an enqueue that finds its slot full has a dequeue that can
      empty it now. */
  lemma FullSlotHasDequeue(r: Ring, p: nat)
    requires Inv(r) && Balanced(r) && Inside(r) <= SLOT_COUNT
    requires p < |r.pcs| && r.pcs[p].EnqSpin? && r.slots[Slot(r.pcs[p].ticket)].Some?
    ensures exists q: nat :: Enabled(r, q, DeqTake) && Slot(r.pcs[q].ticket) == Slot(r.pcs[p].ticket)
  {
    var s := Slot(r.pcs[p].ticket);
    assert SlotBalanced(r, s);
    SumAtLeast(EnqueuesOn(s), r.pcs, p);
    SumNonNegative(Dequeuing(), r.pcs);
    OneTicket(r.tail, r.head, s);
    var q := SumWitness(DequeuesOn(s), r.pcs);
    assert Enabled(r, q, DeqTake);
  }

  /** So in every interleaving a waiting enqueue can store, or another processor can make room for it. */
  lemma EnqueueNeverDeadlocks(run: seq<Ring>, i: nat, p: nat)
    requires IsRun(run) && i < |run| && Inside(run[i]) <= SLOT_COUNT
    requires p < |run[i].pcs| && run[i].pcs[p].EnqSpin?
    ensures WellSized(run[i])
    ensures Enabled(run[i], p, EnqStore) || exists q: nat ::
              Enabled(run[i], q, DeqTake) && Slot(run[i].pcs[q].ticket) == Slot(run[i].pcs[p].ticket)
  {
    RunKeepsInv(run, i);
    RunBalanced(run, i);
    if run[i].slots[Slot(run[i].pcs[p].ticket)].Some? {
      FullSlotHasDequeue(run[i], p);
    }
  }

  // ----- at most as many as there are threads -----

  function InSlots(slots: seq<Option<Thread>>): multiset<Thread> {
    if slots == [] then multiset{}
    else
      var n := |slots| - 1;
      InSlots(slots[..n]) + if slots[n].Some? then multiset{slots[n].value} else multiset{}
  }

  function InHands(pcs: seq<Pc>): multiset<Thread> {
    if pcs == [] then multiset{}
    else
      var n := |pcs| - 1;
      InHands(pcs[..n]) + if pcs[n].EnqSpin? then multiset{pcs[n].thread} else multiset{}
  }

  lemma {:induction false} CountSlots(slots: seq<Option<Thread>>)
    ensures |InSlots(slots)| == Sum(IsFull(), slots) && forall t :: InSlots(slots)[t] == Sum(Stores(t), slots)
  {
    if slots != [] {
      CountSlots(slots[..|slots| - 1]);
    }
  }

  lemma {:induction false} CountHands(pcs: seq<Pc>)
    ensures |InHands(pcs)| == Sum(Enqueuing(), pcs) && forall t :: InHands(pcs)[t] == Sum(Carries(t), pcs)
  {
    if pcs != [] {
      CountHands(pcs[..|pcs| - 1]);
    }
  }

  /** A ring in which every thread is at most once holds at most as many as there are threads. */
  lemma InsideAtMost(r: Ring, threads: set<Thread>)
    requires forall t :: Copies(r, t) <= if t in threads then 1 else 0
    ensures Inside(r) <= |threads|
  {
    CountSlots(r.slots);
    CountHands(r.pcs);
    var all := InSlots(r.slots) + InHands(r.pcs);
    forall t ensures all[t] <= multiset(threads)[t] {
      assert Copies(r, t) == all[t];
    }
    var rest := multiset(threads) - all;
    assert multiset(threads) == all + rest;
    assert |threads| == |multiset(threads)| == |all| + |rest|;
  }

  // ----- in the kernel -----

  ghost predicate AllBalanced(k: Kernel.Kernel) { forall q :: 0 <= q < |k.rings| ==> Balanced(k.rings[q]) }

  lemma AccessBalanced(k: Kernel.Kernel, c: nat, q: nat, a: Action, place: Kernel.Place)
    requires Kernel.Shaped(k) && c < |k.cpus| && Kernel.RingEnabled(k, c, q, a) && AllBalanced(k)
    ensures AllBalanced(Kernel.Access(k, c, q, a, place))
  {
    StepBalanced(k.rings[q], c, a);
  }

  lemma KernelStepBalanced(k: Kernel.Kernel, c: nat, e: Kernel.Event)
    requires Kernel.Shaped(k) && Kernel.Enabled(k, c, e) && AllBalanced(k)
    ensures AllBalanced(Kernel.Apply(k, c, e))
  {
    hide Balanced, Apply, Enabled;
    match e
    case StartCpu(t) =>
      forall q | 0 <= q < 3 ensures Balanced(Kernel.WithIdlePc(k.rings[q])) {
        IdlePcBalanced(k.rings[q]);
      }
    case Switch =>
      var t := k.cpus[c].current;
      AccessBalanced(k, c, Kernel.QueueOf(t), EnqClaim(t), Kernel.Put(Kernel.QueueOf(t), Kernel.Fetch(Kernel.BLOCKED)));
    case Store(a) => AccessBalanced(k, c, k.cpus[c].ring, a, Kernel.Apply(k, c, e).cpus[c]);
    case Load(a) => AccessBalanced(k, c, k.cpus[c].ring, a, Kernel.Apply(k, c, e).cpus[c]);
    case Unpark =>
      var t := k.cpus[c].thread;
      AccessBalanced(k, c, Kernel.QueueOf(t), EnqClaim(t), Kernel.Put(Kernel.QueueOf(t), Kernel.Fetch(Kernel.BLOCKED)));
    case Park =>
      var p := k.cpus[c];
      AccessBalanced(k, c, Kernel.BLOCKED, EnqClaim(p.thread), Kernel.Put(Kernel.BLOCKED, Kernel.Fetch(p.ring)));
    case Insert(t) => AccessBalanced(k, c, Kernel.NORMAL, EnqClaim(t), Kernel.Put(Kernel.NORMAL, k.cpus[c]));
    case _ =>
  }

  lemma IdlePcBalanced(r: Ring)
    requires Balanced(r)
    ensures Balanced(Kernel.WithIdlePc(r))
  {
    SumAppend(Enqueuing(), r.pcs, Idle);
    SumAppend(Dequeuing(), r.pcs, Idle);
  }

  lemma {:induction false} KernelRunBalanced(run: seq<Kernel.Kernel>, i: nat)
    requires Kernel.IsRun(run) && i < |run|
    ensures AllBalanced(run[i])
  {
    hide AllBalanced, Kernel.NoWrap, Kernel.Enabled, Kernel.Apply;
    if i == 0 {
      assert AllBalanced(run[0]) by { KernelInitBalanced(run[0]); }
    } else {
      KernelRunBalanced(run, i - 1);
      assert Kernel.Step(run[i - 1], run[i]);
      var c, e :| Kernel.Enabled(run[i - 1], c, e) && run[i] == Kernel.Apply(run[i - 1], c, e);
      KernelStepBalanced(run[i - 1], c, e);
    }
  }

  lemma KernelInitBalanced(k: Kernel.Kernel)
    requires Kernel.Init(k)
    ensures AllBalanced(k)
  {
    forall q | 0 <= q < 3 ensures Balanced(k.rings[q]) {
      InitBalanced(k.rings[q]);
    }
  }

  lemma KernelInside(k: Kernel.Kernel, q: nat)
    requires Kernel.Inv(k) && q < 3
    ensures Inside(k.rings[q]) <= |k.states.Keys|
  {
    hide Inside;
    forall t ensures Copies(k.rings[q], t) <= if t in k.states.Keys then 1 else 0 {
      assert Kernel.LiveOnce(k, t);
      SumNonNegative(Kernel.Holds(t), k.cpus);
      forall i | 0 <= i < 3 ensures Copies(k.rings[i], t) >= 0 {
        Kernel.CopiesNonNegative(k.rings[i], t);
      }
    }
    InsideAtMost(k.rings[q], k.states.Keys);
  }

  // Processor d can take a thread out of the slot that processor c waits for.
  ghost predicate MakesRoom(k: Kernel.Kernel, d: nat, c: nat)
    requires Kernel.Shaped(k) && c < |k.cpus| && k.cpus[c].Put?
  {
    && Kernel.Enabled(k, d, Kernel.Load(DeqTake)) && k.cpus[d].ring == k.cpus[c].ring
    && k.rings[k.cpus[c].ring].pcs[c].EnqSpin?
    && Slot(k.rings[k.cpus[d].ring].pcs[d].ticket) == Slot(k.rings[k.cpus[c].ring].pcs[c].ticket)
  }

  /** With at most 1024 live threads, a processor that waits in an enqueue can store, or another one can
      take a thread out of the very slot; in every interleaving of any number of processors. */
  lemma NoEnqueueWaitsForNobody(run: seq<Kernel.Kernel>, i: nat, c: nat)
    requires Kernel.IsRun(run) && i < |run| && c < |run[i].cpus| && run[i].cpus[c].Put?
    requires |run[i].states.Keys| <= SLOT_COUNT
    ensures Kernel.Shaped(run[i])
    ensures Kernel.Enabled(run[i], c, Kernel.Store(EnqStore)) || exists d: nat :: MakesRoom(run[i], d, c)
  {
    var k := run[i];
    var q := k.cpus[c].ring;
    Kernel.KernelRunKeepsInv(run, i);
    KernelRunBalanced(run, i);
    assert Kernel.InRange(k.cpus[c]) && Kernel.Agrees(k.cpus[c], q, k.rings[q].pcs[c]);
    KernelInside(k, q);
    if k.rings[q].slots[Slot(k.rings[q].pcs[c].ticket)].Some? {
      FullSlotHasDequeue(k.rings[q], c);
      var d: nat :| Enabled(k.rings[q], d, DeqTake)
                    && Slot(k.rings[q].pcs[d].ticket) == Slot(k.rings[q].pcs[c].ticket);
      assert Kernel.Agrees(k.cpus[d], q, k.rings[q].pcs[d]);
      assert MakesRoom(k, d, c);
    }
  }

  // ----- one thread too many -----

  /** Nothing can happen but an enqueue's look at its full slot. */
  ghost predicate Stuck(l: Logged) {
    && WellSized(l.ring) && |l.ring.pcs| == 1 && l.ring.pcs[0].EnqSpin?
    && forall p: nat, a: Action :: Enabled(l.ring, p, a) ==> Apply(l.ring, p, a) == l.ring
  }

  ghost predicate StuckAhead(l: Logged, threads: seq<Thread>) {
    exists xs: seq<Access> :: CanRun(l, xs) && Stuck(End(l, xs)) && End(l, xs).log == threads
  }

  lemma StuckLater(l: Logged, p: nat, a: Action, threads: seq<Thread>)
    requires WellSized(l.ring) && NoWrap(l.ring) && Enabled(l.ring, p, a)
    requires StuckAhead(ApplyLogged(l, p, a), threads)
    ensures StuckAhead(l, threads)
  {
    var l' := ApplyLogged(l, p, a);
    var xs: seq<Access> :| CanRun(l', xs) && Stuck(End(l', xs)) && End(l', xs).log == threads;
    var ys := [RingOrder.Access(p, a)] + xs;
    assert ys[1..] == xs;
    assert CanRun(l, ys) && End(l, ys) == End(l', xs);
  }

  // The first k of the threads are in the ring of one processor.
  ghost predicate Queued(l: Logged, threads: seq<Thread>, k: nat) {
    && WellSized(l.ring) && l.ring.pcs == [Idle] && k == l.ring.head <= SLOT_COUNT && l.ring.tail == 0
    && k <= |threads| && l.log == threads[..k]
    && forall s :: 0 <= s < SLOT_COUNT ==> l.ring.slots[s].Some? == (s < k)
  }

  lemma {:induction false} QueuedGetsStuck(l: Logged, threads: seq<Thread>, k: nat)
    requires Queued(l, threads, k) && |threads| == SLOT_COUNT + 1
    ensures StuckAhead(l, threads)
    decreases SLOT_COUNT - k
  {
    hide StuckAhead, Slot;
    var l1 := ApplyLogged(l, 0, EnqClaim(threads[k]));
    if k == SLOT_COUNT {
      SlotIs(0);
      SameSlot(0);
      assert threads[..k] + [threads[k]] == threads;
      StuckNow(l1, threads);
    } else {
      SlotIs(k);
      var l2 := ApplyLogged(l1, 0, EnqStore);
      assert threads[..k] + [threads[k]] == threads[..k + 1];
      QueuedGetsStuck(l2, threads, k + 1);
      StuckLater(l1, 0, EnqStore, threads);
    }
    StuckLater(l, 0, EnqClaim(threads[k]), threads);
  }

  lemma StuckNow(l: Logged, threads: seq<Thread>)
    requires WellSized(l.ring) && |l.ring.pcs| == 1 && l.ring.pcs[0].EnqSpin? && l.log == threads
    requires l.ring.slots[Slot(l.ring.pcs[0].ticket)].Some?
    ensures StuckAhead(l, threads)
  {
    assert CanRun(l, []) && End(l, []) == l;
    forall p: nat, a: Action | Enabled(l.ring, p, a) ensures Apply(l.ring, p, a) == l.ring {
    }
  }

  /** One processor and 1025 threads: the last enqueue waits for ever. */
  lemma OneThreadTooMany(l: Logged, threads: seq<Thread>)
    requires Init(l.ring) && l.log == [] && |l.ring.pcs| == 1 && |threads| == SLOT_COUNT + 1
    ensures StuckAhead(l, threads)
  {
    assert l.ring.pcs == [Idle];
    QueuedGetsStuck(l, threads, 0);
  }
}
