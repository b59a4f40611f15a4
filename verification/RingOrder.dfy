/** The order in which the scheduler's ring hands out threads (PriorityQueue in
    kernel/proc/scheduler.cc). */
module RingOrder {
  import opened Arithmetic
  import opened Sums
  import opened TicketQueue

  /** A ring with the thread of every ticket taken so far. */
  datatype Logged = Logged(ring: Ring, log: seq<Thread>)

  function ApplyLogged(l: Logged, p: nat, a: Action): Logged
    requires WellSized(l.ring) && Enabled(l.ring, p, a)
  {
    Logged(Apply(l.ring, p, a), if a.EnqClaim? then l.log + [a.thread] else l.log)
  }

  ghost predicate Dequeues(r: Ring, p: nat, n: nat) { p < |r.pcs| && r.pcs[p] == DeqSpin(n) }

  ghost predicate Enqueues(r: Ring, p: nat, n: nat) {
    p < |r.pcs| && r.pcs[p].EnqSpin? && r.pcs[p].ticket == n
  }

  /** Tickets that no dequeue has claimed, or whose dequeue still waits for its thread. */
  ghost predicate Unserved(r: Ring, n: nat) {
    r.tail <= n < r.head || exists p: nat :: Dequeues(r, p, n)
  }

  /** From the oldest ticket that is not served, at most 1024 tickets have been taken. */
  ghost predicate Window(r: Ring) { forall n: nat :: Unserved(r, n) ==> r.head <= n + SLOT_COUNT }

  // Slot s holds the thread of a ticket that is not served, and whose enqueue is over.
  ghost predicate Holds(l: Logged, s: nat, n: nat)
    requires WellSized(l.ring) && s < SLOT_COUNT
  {
    && Unserved(l.ring, n) && Slot(n) == s && n < |l.log| && l.ring.slots[s] == Some(l.log[n])
    && forall p: nat :: !Enqueues(l.ring, p, n)
  }

  ghost predicate Waits(l: Logged, p: nat)
    requires WellSized(l.ring) && p < |l.ring.pcs|
  {
    match l.ring.pcs[p]
    case EnqSpin(t, n) =>
      n < |l.log| && l.log[n] == t && Unserved(l.ring, n) && l.ring.slots[Slot(n)] == None
    case DeqSpin(n) => n < l.ring.tail
    case _ => true
  }

  // The thread of a ticket is in its slot, or its enqueue is still waiting.
  ghost predicate Supplied(l: Logged, n: nat)
    requires WellSized(l.ring)
  {
    n < |l.log| && (l.ring.slots[Slot(n)] == Some(l.log[n]) || exists p: nat :: Enqueues(l.ring, p, n))
  }

  ghost predicate AllSupplied(l: Logged) {
    WellSized(l.ring) && forall n: nat :: Unserved(l.ring, n) ==> Supplied(l, n)
  }

  /** Every waiting enqueue has an empty slot before it, and every full slot holds the thread of a ticket
      of its own. */
  ghost predicate Ordered(l: Logged) {
    && WellSized(l.ring) && |l.log| == l.ring.head && l.ring.tail <= l.ring.head
    && (forall p: nat :: p < |l.ring.pcs| ==> Waits(l, p))
    && (forall p: nat, q: nat, n: nat :: Enqueues(l.ring, p, n) && Enqueues(l.ring, q, n) ==> p == q)
    && (forall p: nat, q: nat, n: nat :: Dequeues(l.ring, p, n) && Dequeues(l.ring, q, n) ==> p == q)
    && (forall s: nat :: s < SLOT_COUNT && l.ring.slots[s].Some? ==> exists n: nat :: Holds(l, s, n))
  }

  lemma SlotsDiffer(m: nat, n: nat)
    requires Slot(m) == Slot(n) && n < m + SLOT_COUNT && m < n + SLOT_COUNT
    ensures m == n
  {
    ModOfMod(m, SLOT_COUNT, WRAP / SLOT_COUNT);
    ModOfMod(n, SLOT_COUNT, WRAP / SLOT_COUNT);
    if m < n {
      RemaindersDiffer(m, n - m);
    } else if n < m {
      RemaindersDiffer(n, m - n);
    }
  }

  lemma RemaindersDiffer(m: nat, d: nat)
    requires 0 < d < SLOT_COUNT
    ensures (m + d) % SLOT_COUNT != m % SLOT_COUNT
  {
    var q, r := m / SLOT_COUNT, m % SLOT_COUNT;
    Euclid(m, SLOT_COUNT);
    if r + d < SLOT_COUNT {
      DivModUnique(m + d, SLOT_COUNT, q, r + d);
    } else {
      DivModUnique(m + d, SLOT_COUNT, q + 1, r + d - SLOT_COUNT);
    }
  }

  lemma UnservedBelowHead(l: Logged, n: nat)
    requires Ordered(l) && Unserved(l.ring, n)
    ensures n < l.ring.head
  {
    if !(l.ring.tail <= n < l.ring.head) {
      var p: nat :| Dequeues(l.ring, p, n);
      assert Waits(l, p);
    }
  }

  /** A dequeue gets the thread of its own ticket. */
  lemma TakesOwnThread(l: Logged, p: nat)
    requires Ordered(l) && Window(l.ring) && Enabled(l.ring, p, DeqTake)
    ensures var n := l.ring.pcs[p].ticket;
      n < |l.log| && l.ring.slots[Slot(n)] == Some(l.log[n]) && Holds(l, Slot(n), n)
  {
    var n := l.ring.pcs[p].ticket;
    assert Dequeues(l.ring, p, n) && Unserved(l.ring, n);
    var m: nat :| Holds(l, Slot(n), m);
    SameTicket(l, m, n);
  }

  // Two tickets that are not served differ in their slots.
  lemma SameTicket(l: Logged, m: nat, n: nat)
    requires Ordered(l) && Window(l.ring) && Unserved(l.ring, m) && Unserved(l.ring, n) && Slot(m) == Slot(n)
    ensures m == n && n < |l.log|
  {
    UnservedBelowHead(l, m);
    UnservedBelowHead(l, n);
    assert l.ring.head <= m + SLOT_COUNT && l.ring.head <= n + SLOT_COUNT;
    SlotsDiffer(m, n);
  }

  // ----- every step keeps the order -----

  // A step of a processor that neither holds a ticket nor takes one.
  lemma QuietStep(l: Logged, p: nat, pc: Pc)
    requires Ordered(l) && p < |l.ring.pcs| && !pc.EnqSpin? && !pc.DeqSpin?
    requires !l.ring.pcs[p].EnqSpin? && !l.ring.pcs[p].DeqSpin?
    ensures Ordered(l.(ring := SetPc(l.ring, p, pc)))
  {
    var l' := l.(ring := SetPc(l.ring, p, pc));
    assert forall q: nat, n: nat {:trigger Enqueues(l'.ring, q, n)} ::
        Enqueues(l'.ring, q, n) ==> Enqueues(l.ring, q, n);
    assert forall q: nat, n: nat {:trigger Dequeues(l'.ring, q, n)} ::
        Dequeues(l'.ring, q, n) ==> Dequeues(l.ring, q, n);
    SamePlaces(l.ring, l'.ring);
    KeptHolds(l, l');
    forall q: nat | q < |l'.ring.pcs| ensures Waits(l', q) {
      assert Waits(l, q);
    }
  }

  // The same processors hold the same tickets.
  lemma SamePlaces(r: Ring, r': Ring)
    requires r'.head == r.head && r'.tail == r.tail && |r'.pcs| == |r.pcs|
    requires forall q: nat, n: nat :: Dequeues(r, q, n) <==> Dequeues(r', q, n)
    ensures forall n: nat :: Unserved(r, n) <==> Unserved(r', n)
  {
    forall n: nat ensures Unserved(r, n) <==> Unserved(r', n) {
      if p: nat :| Dequeues(r, p, n) {
        assert Dequeues(r', p, n);
      }
      if p: nat :| Dequeues(r', p, n) {
        assert Dequeues(r, p, n);
      }
    }
  }

  // What slots hold stays as long as their tickets stay unserved and no new enqueue has one of them.
  lemma KeptHolds(l: Logged, l': Logged)
    requires Ordered(l) && WellSized(l'.ring) && l.log <= l'.log
    requires forall s: nat :: s < SLOT_COUNT && l'.ring.slots[s].Some? ==> l'.ring.slots[s] == l.ring.slots[s]
    requires forall s: nat, n: nat :: s < SLOT_COUNT && l'.ring.slots[s].Some? && Holds(l, s, n) ==>
      Unserved(l'.ring, n) && forall q: nat :: !Enqueues(l'.ring, q, n)
    ensures forall s: nat :: s < SLOT_COUNT && l'.ring.slots[s].Some? ==> exists n: nat :: Holds(l', s, n)
  {
    forall s: nat | s < SLOT_COUNT && l'.ring.slots[s].Some? ensures exists n: nat :: Holds(l', s, n) {
      var n: nat :| Holds(l, s, n);
      assert Holds(l', s, n);
    }
  }

  lemma ClaimHead(l: Logged, p: nat, t: Thread)
    requires Ordered(l) && Enabled(l.ring, p, EnqClaim(t)) && Window(Apply(l.ring, p, EnqClaim(t)))
    ensures Ordered(ApplyLogged(l, p, EnqClaim(t)))
  {
    var l', h := ApplyLogged(l, p, EnqClaim(t)), l.ring.head;
    forall n: nat ensures Unserved(l'.ring, n) <==> Unserved(l.ring, n) || n == h {
      StillWaited(l.ring, l'.ring, n);
      StillWaited(l'.ring, l.ring, n);
    }
    assert forall q: nat, n: nat {:trigger Enqueues(l'.ring, q, n)} ::
        Enqueues(l'.ring, q, n) ==> Enqueues(l.ring, q, n) || (q == p && n == h);
    assert forall q: nat, n: nat {:trigger Dequeues(l'.ring, q, n)} ::
        Dequeues(l'.ring, q, n) ==> Dequeues(l.ring, q, n);
    forall q: nat, n: nat | Enqueues(l.ring, q, n) ensures n < h {
      assert Waits(l, q);
    }
    forall s: nat, n: nat | s < SLOT_COUNT && Holds(l, s, n) ensures n < h && s != Slot(h) {
      UnservedBelowHead(l, n);
      if s == Slot(h) {
        SlotsDiffer(n, h);
      }
    }
    KeptHolds(l, l');
    forall q: nat | q < |l'.ring.pcs| ensures Waits(l', q) {
      assert Waits(l, q);
    }
  }

  lemma StillWaited(r: Ring, r': Ring, n: nat)
    requires forall q: nat :: Dequeues(r, q, n) ==> Dequeues(r', q, n)
    ensures (exists q: nat :: Dequeues(r, q, n)) ==> exists q: nat :: Dequeues(r', q, n)
  {
  }

  lemma StoreThread(l: Logged, p: nat)
    requires Ordered(l) && Window(l.ring) && Enabled(l.ring, p, EnqStore)
    ensures Ordered(ApplyLogged(l, p, EnqStore))
  {
    var l', n := ApplyLogged(l, p, EnqStore), l.ring.pcs[p].ticket;
    assert Enqueues(l.ring, p, n) && Waits(l, p);
    assert forall q: nat, m: nat {:trigger Enqueues(l'.ring, q, m)} ::
        Enqueues(l'.ring, q, m) ==> Enqueues(l.ring, q, m) && q != p;
    assert forall q: nat, m: nat {:trigger Dequeues(l'.ring, q, m)} ::
        Dequeues(l'.ring, q, m) ==> Dequeues(l.ring, q, m);
    SamePlaces(l.ring, l'.ring);
    forall s: nat | s < SLOT_COUNT && l'.ring.slots[s].Some? ensures exists m: nat :: Holds(l', s, m) {
      if s == Slot(n) {
        assert Holds(l', s, n);
      } else {
        var m: nat :| Holds(l, s, m);
        assert Holds(l', s, m);
      }
    }
    forall q: nat | q < |l'.ring.pcs| ensures Waits(l', q) {
      assert Waits(l, q);
      if q != p && l.ring.pcs[q].EnqSpin? {
        var m := l.ring.pcs[q].ticket;
        assert Enqueues(l.ring, q, m);
        if Slot(m) == Slot(n) {
          SameTicket(l, m, n);
          assert false;
        }
      }
    }
  }

  lemma ClaimTail(l: Logged, p: nat)
    requires Ordered(l) && Inv(l.ring) && NoWrap(l.ring) && Enabled(l.ring, p, DeqClaim)
    ensures Ordered(ApplyLogged(l, p, DeqClaim))
  {
    var l', n := ApplyLogged(l, p, DeqClaim), l.ring.tail;
    ClaimExact(l.ring.tail, l.ring.pcs[p].snap);
    assert n < l.ring.head && Dequeues(l'.ring, p, n);
    assert forall q: nat, m: nat {:trigger Enqueues(l'.ring, q, m)} ::
        Enqueues(l'.ring, q, m) ==> Enqueues(l.ring, q, m);
    assert forall q: nat, m: nat {:trigger Dequeues(l'.ring, q, m)} ::
        Dequeues(l'.ring, q, m) ==> Dequeues(l.ring, q, m) || (q == p && m == n);
    forall q: nat, m: nat | Dequeues(l.ring, q, m) ensures m < n && Dequeues(l'.ring, q, m) {
      assert Waits(l, q);
    }
    forall m: nat ensures Unserved(l'.ring, m) <==> Unserved(l.ring, m) {
    }
    KeptHolds(l, l');
    forall q: nat | q < |l'.ring.pcs| ensures Waits(l', q) {
      assert Waits(l, q);
    }
  }

  lemma TakeThread(l: Logged, p: nat)
    requires Ordered(l) && Window(l.ring) && Enabled(l.ring, p, DeqTake)
    ensures Ordered(ApplyLogged(l, p, DeqTake))
  {
    var l', n := ApplyLogged(l, p, DeqTake), l.ring.pcs[p].ticket;
    TakesOwnThread(l, p);
    assert Dequeues(l.ring, p, n) && Waits(l, p);
    assert forall q: nat, m: nat {:trigger Enqueues(l'.ring, q, m)} ::
        Enqueues(l'.ring, q, m) ==> Enqueues(l.ring, q, m);
    assert forall q: nat, m: nat {:trigger Dequeues(l'.ring, q, m)} ::
        Dequeues(l'.ring, q, m) ==> Dequeues(l.ring, q, m);
    forall m: nat | Unserved(l.ring, m) && m != n ensures Unserved(l'.ring, m) {
      if !(l.ring.tail <= m < l.ring.head) {
        var q: nat :| Dequeues(l.ring, q, m);
        assert Dequeues(l'.ring, q, m);
      }
    }
    KeptHolds(l, l');
    forall q: nat | q < |l'.ring.pcs| ensures Waits(l', q) {
      assert Waits(l, q);
      if l'.ring.pcs[q].EnqSpin? {
        assert Enqueues(l.ring, q, l.ring.pcs[q].ticket);
      }
    }
  }

  /** Every atomic step keeps the order while the window is kept. */
  lemma StepKeepsOrder(l: Logged, p: nat, a: Action)
    requires Inv(l.ring) && NoWrap(l.ring) && Ordered(l) && Enabled(l.ring, p, a)
    requires Window(l.ring) && Window(Apply(l.ring, p, a))
    ensures Ordered(ApplyLogged(l, p, a))
  {
    hide Inv, NoWrap, Ordered, Window, FindsEmpty, Counter;
    match a
    case EnqClaim(t) => ClaimHead(l, p, t);
    case EnqStore => StoreThread(l, p);
    case DeqClaim => ClaimTail(l, p);
    case DeqTake => TakeThread(l, p);
    case DeqLoadTail => QuietStep(l, p, DeqLoaded(l.ring.tail));
    case DeqEmpty => QuietStep(l, p, Idle);
    case DeqNonEmpty => QuietStep(l, p, DeqChecked(l.ring.pcs[p].snap));
    case DeqStale => QuietStep(l, p, DeqLoaded(l.ring.tail));
    case EnqRetry =>
    case DeqRetry =>
  }

  /** And the supply of every ticket that is not served. */
  lemma StepKeepsSupply(l: Logged, p: nat, a: Action)
    requires Inv(l.ring) && NoWrap(l.ring) && Ordered(l) && AllSupplied(l) && Enabled(l.ring, p, a)
    requires Window(l.ring)
    ensures AllSupplied(ApplyLogged(l, p, a))
  {
    hide Inv, NoWrap, Window, Counter, FindsEmpty;
    var l' := ApplyLogged(l, p, a);
    forall n: nat | Unserved(l'.ring, n) ensures Supplied(l', n) {
      StaysUnserved(l, p, a, n);
      if n == l.ring.head {
        assert Enqueues(l'.ring, p, n);
      } else if l.ring.slots[Slot(n)] == Some(l.log[n]) {
        SlotStays(l, p, a, n);
      } else {
        var q: nat :| Enqueues(l.ring, q, n);
        assert q == p || Enqueues(l'.ring, q, n);
        assert Waits(l, q);
      }
    }
  }

  // A ticket that is not served after a step was not served before, or has just been taken.
  lemma StaysUnserved(l: Logged, p: nat, a: Action, n: nat)
    requires Inv(l.ring) && NoWrap(l.ring) && Ordered(l) && Enabled(l.ring, p, a)
    requires Unserved(ApplyLogged(l, p, a).ring, n)
    ensures if n == l.ring.head then a.EnqClaim? else Unserved(l.ring, n) && n < l.ring.head
    ensures a.DeqTake? ==> n != l.ring.pcs[p].ticket
  {
    hide Counter, FindsEmpty;
    var l' := ApplyLogged(l, p, a);
    if a.DeqClaim? {
      ClaimExact(l.ring.tail, l.ring.pcs[p].snap);
    }
    if a.DeqTake? {
      assert Dequeues(l.ring, p, l.ring.pcs[p].ticket) && Waits(l, p);
    }
    if !(l'.ring.tail <= n < l'.ring.head) {
      var q: nat :| Dequeues(l'.ring, q, n);
      if q != p || !a.DeqClaim? {
        assert Dequeues(l.ring, q, n);
        UnservedBelowHead(l, n);
      }
    }
  }

  lemma SlotStays(l: Logged, p: nat, a: Action, n: nat)
    requires Ordered(l) && Window(l.ring) && Enabled(l.ring, p, a) && Unserved(l.ring, n) && n < |l.log|
    requires l.ring.slots[Slot(n)] == Some(l.log[n]) && (a.DeqTake? ==> n != l.ring.pcs[p].ticket)
    ensures Apply(l.ring, p, a).slots[Slot(n)] == Some(l.log[n])
  {
    if a.DeqTake? {
      var m := l.ring.pcs[p].ticket;
      assert Dequeues(l.ring, p, m);
      if Slot(m) == Slot(n) {
        SameTicket(l, m, n);
      }
    }
  }

  // ----- whole runs -----

  /** One processor's access. */
  datatype Access = Access(cpu: nat, action: Action)

  ghost predicate Moves(l: Logged, x: Access, l': Logged) {
    WellSized(l.ring) && Enabled(l.ring, x.cpu, x.action) && l' == ApplyLogged(l, x.cpu, x.action)
  }

  /** An interleaving from the empty ring, with the bound on snapshots and the window kept throughout. */
  ghost predicate IsLoggedRun(run: seq<Logged>, accesses: seq<Access>) {
    && |run| == |accesses| + 1 && Init(run[0].ring) && run[0].log == []
    && (forall i :: 0 <= i < |run| ==> NoWrap(run[i].ring) && Window(run[i].ring))
    && (forall i :: 0 <= i < |accesses| ==> Moves(run[i], accesses[i], run[i + 1]))
  }

  lemma InitOrdered(l: Logged)
    requires Init(l.ring) && l.log == []
    ensures Ordered(l) && AllSupplied(l)
  {
  }

  lemma {:induction false} RunKeepsOrder(run: seq<Logged>, accesses: seq<Access>, i: nat)
    requires IsLoggedRun(run, accesses) && i < |run|
    ensures Inv(run[i].ring) && Ordered(run[i]) && AllSupplied(run[i])
  {
    hide Inv, Ordered, AllSupplied, NoWrap, Window, Init, Enabled, Apply;
    if i == 0 {
      InitInv(run[0].ring);
      InitOrdered(run[0]);
    } else {
      RunKeepsOrder(run, accesses, i - 1);
      var x := accesses[i - 1];
      assert Moves(run[i - 1], x, run[i]);
      StepKeepsInv(run[i - 1].ring, x.cpu, x.action);
      StepKeepsOrder(run[i - 1], x.cpu, x.action);
      StepKeepsSupply(run[i - 1], x.cpu, x.action);
    }
  }

  /** First in, first out: in every run, the dequeue with ticket n returns the thread that was enqueued
      with ticket n. Tickets are handed out in order on both sides. */
  lemma FirstInFirstOut(run: seq<Logged>, accesses: seq<Access>, i: nat)
    requires IsLoggedRun(run, accesses) && i < |accesses| && accesses[i].action == DeqTake
    ensures accesses[i].cpu < |run[i].ring.pcs| && run[i].ring.pcs[accesses[i].cpu].DeqSpin?
    ensures var n := run[i].ring.pcs[accesses[i].cpu].ticket;
      && n < |run[i].log|
      && run[i + 1].ring.delivered == run[i].ring.delivered + multiset{run[i].log[n]}
  {
    RunKeepsOrder(run, accesses, i);
    assert Moves(run[i], accesses[i], run[i + 1]);
    TakesOwnThread(run[i], accesses[i].cpu);
  }
}
