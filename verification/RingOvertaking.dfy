/** When the scheduler's ring loses its order (PriorityQueue in kernel/proc/scheduler.cc): as soon as a
    ticket is taken 1024 after one that is not served. */
module RingOvertaking {
  import opened Arithmetic
  import opened RingOrder
  import opened Sums
  import opened TicketQueue

  // ----- continuations -----

  /** These accesses can be made one after the other. */
  ghost predicate CanRun(l: Logged, xs: seq<Access>)
    decreases xs
  {
    && NoWrap(l.ring)
    && (xs != [] ==>
          && WellSized(l.ring) && Enabled(l.ring, xs[0].cpu, xs[0].action)
          && CanRun(ApplyLogged(l, xs[0].cpu, xs[0].action), xs[1..]))
  }

  ghost function End(l: Logged, xs: seq<Access>): Logged
    requires CanRun(l, xs)
    decreases xs
  {
    if xs == [] then l else End(ApplyLogged(l, xs[0].cpu, xs[0].action), xs[1..])
  }

  /** A dequeue that gets the thread of another ticket. */
  ghost predicate TakesWrong(l: Logged, p: nat) {
    && WellSized(l.ring) && Enabled(l.ring, p, DeqTake)
    && var n := l.ring.pcs[p].ticket;
    n < |l.log| && l.ring.slots[Slot(n)] != Some(l.log[n])
  }

  /** Some continuation leads to such a dequeue. */
  ghost predicate WrongAhead(l: Logged) {
    exists xs: seq<Access>, p: nat :: CanRun(l, xs) && TakesWrong(End(l, xs), p)
  }

  lemma WrongNow(l: Logged, p: nat)
    requires NoWrap(l.ring) && TakesWrong(l, p)
    ensures WrongAhead(l)
  {
    assert CanRun(l, []) && End(l, []) == l;
  }

  lemma WrongLater(l: Logged, p: nat, a: Action)
    requires WellSized(l.ring) && NoWrap(l.ring) && Enabled(l.ring, p, a) && WrongAhead(ApplyLogged(l, p, a))
    ensures WrongAhead(l)
  {
    var l' := ApplyLogged(l, p, a);
    var xs: seq<Access>, q: nat :| CanRun(l', xs) && TakesWrong(End(l', xs), q);
    var ys := [Access(p, a)] + xs;
    assert ys[1..] == xs;
    assert CanRun(l, ys) && End(l, ys) == End(l', xs);
  }

  // ----- one dequeue after the other -----

  // A processor outside the ring claims the next ticket.
  function Claimed(l: Logged, b: nat): Logged
    requires b < |l.ring.pcs|
  {
    l.(ring := SetPc(l.ring, b, DeqSpin(l.ring.tail)).(tail := l.ring.tail + 1))
  }

  lemma ClaimAhead(l: Logged, b: nat)
    requires WellSized(l.ring) && NoWrap(l.ring) && b < |l.ring.pcs| && l.ring.pcs[b] == Idle
    requires l.ring.tail < l.ring.head < l.ring.tail + HALF && WrongAhead(Claimed(l, b))
    ensures WrongAhead(l)
  {
    hide WrongAhead;
    var l1 := ApplyLogged(l, b, DeqLoadTail);
    EmptyGuardExact(l.ring.head, l.ring.tail);
    var l2 := ApplyLogged(l1, b, DeqNonEmpty);
    var l3 := ApplyLogged(l2, b, DeqClaim);
    assert l3.ring.pcs == Claimed(l, b).ring.pcs;
    WrongLater(l2, b, DeqClaim);
    WrongLater(l1, b, DeqNonEmpty);
    WrongLater(l, b, DeqLoadTail);
  }

  // The thread of ticket m is in its slot, or its enqueue can put it there now.
  ghost predicate CanServe(l: Logged, b: nat, m: nat)
    requires WellSized(l.ring)
  {
    && m < |l.log|
    && (|| l.ring.slots[Slot(m)] == Some(l.log[m])
        || (l.ring.slots[Slot(m)] == None
            && exists r: nat :: r != b && r < |l.ring.pcs| && l.ring.pcs[r] == EnqSpin(l.log[m], m)))
  }

  /** Ticket n is stored and not taken, the ticket 1024 after it is taken, and processor b can serve all
      tickets between them that are not claimed. */
  ghost predicate Late(l: Logged, n: nat, b: nat) {
    && WellSized(l.ring) && NoWrap(l.ring) && b < |l.ring.pcs| && l.ring.pcs[b] == Idle
    && |l.log| == l.ring.head == n + SLOT_COUNT + 1 && n < l.ring.tail <= n + SLOT_COUNT
    && l.ring.slots[Slot(n)] == Some(l.log[n]) && l.log[n] != l.log[n + SLOT_COUNT]
    && forall m: nat :: l.ring.tail <= m < n + SLOT_COUNT ==> CanServe(l, b, m)
  }

  // With ticket m in its slot, b serves it.
  ghost function Served(l: Logged, b: nat): Logged
    requires WellSized(l.ring) && b < |l.ring.pcs| && l.ring.slots[Slot(l.ring.tail)].Some?
  {
    var t := l.ring.slots[Slot(l.ring.tail)].value;
    l.(ring := l.ring.(slots := l.ring.slots[Slot(l.ring.tail) := None], tail := l.ring.tail + 1,
                       pcs := l.ring.pcs[b := Idle], delivered := l.ring.delivered + multiset{t}))
  }

  lemma StoreLate(l: Logged, n: nat, b: nat, r: nat)
    requires Late(l, n, b) && l.ring.tail < n + SLOT_COUNT && r != b && r < |l.ring.pcs|
    requires l.ring.pcs[r] == EnqSpin(l.log[l.ring.tail], l.ring.tail) && l.ring.slots[Slot(l.ring.tail)] == None
    ensures Late(ApplyLogged(l, r, EnqStore), n, b)
  {
    var l', m := ApplyLogged(l, r, EnqStore), l.ring.tail;
    forall k: nat | l'.ring.tail <= k < n + SLOT_COUNT ensures CanServe(l', b, k) {
      assert CanServe(l, b, k);
      if k != m && Slot(k) == Slot(m) {
        SlotsDiffer(k, m);
      }
      if k != m && l.ring.slots[Slot(k)] == None {
        var q: nat :| q != b && q < |l.ring.pcs| && l.ring.pcs[q] == EnqSpin(l.log[k], k);
        assert l'.ring.pcs[q] == EnqSpin(l'.log[k], k);
      }
    }
  }

  lemma ServeLate(l: Logged, n: nat, b: nat)
    requires Late(l, n, b) && l.ring.tail < n + SLOT_COUNT
    requires l.ring.slots[Slot(l.ring.tail)] == Some(l.log[l.ring.tail])
    ensures Late(Served(l, b), n, b)
  {
    var l', m := Served(l, b), l.ring.tail;
    if Slot(n) == Slot(m) {
      SlotsDiffer(n, m);
    }
    forall k: nat | l'.ring.tail <= k < n + SLOT_COUNT ensures CanServe(l', b, k) {
      assert CanServe(l, b, k);
      if Slot(k) == Slot(m) {
        SlotsDiffer(k, m);
      }
      if l.ring.slots[Slot(k)] == None {
        var q: nat :| q != b && q < |l.ring.pcs| && l.ring.pcs[q] == EnqSpin(l.log[k], k);
        assert l'.ring.pcs[q] == EnqSpin(l'.log[k], k);
      }
    }
  }

  lemma ServeAhead(l: Logged, b: nat)
    requires WellSized(l.ring) && NoWrap(l.ring) && b < |l.ring.pcs| && l.ring.pcs[b] == Idle
    requires l.ring.tail < l.ring.head < l.ring.tail + HALF && l.ring.slots[Slot(l.ring.tail)].Some?
    requires WrongAhead(Served(l, b))
    ensures WrongAhead(l)
  {
    hide WrongAhead;
    var l' := ApplyLogged(Claimed(l, b), b, DeqTake);
    assert l'.ring.pcs == Served(l, b).ring.pcs;
    WrongLater(Claimed(l, b), b, DeqTake);
    ClaimAhead(l, b);
  }

  // The tickets between are served one by one; then the late one finds the thread of ticket n.
  lemma {:induction false} LateIsWrong(l: Logged, n: nat, b: nat)
    requires Late(l, n, b)
    ensures WrongAhead(l)
    decreases n + SLOT_COUNT - l.ring.tail
  {
    hide WrongAhead, CanServe;
    var m := l.ring.tail;
    if m == n + SLOT_COUNT {
      SameSlot(n);
      WrongNow(Claimed(l, b), b);
      ClaimAhead(l, b);
    } else if l.ring.slots[Slot(m)] == Some(l.log[m]) {
      ServeLate(l, n, b);
      LateIsWrong(Served(l, b), n, b);
      ServeAhead(l, b);
    } else {
      var r := Waiting(l, b, m);
      StoreLate(l, n, b, r);
      var l' := ApplyLogged(l, r, EnqStore);
      ServeLate(l', n, b);
      LateIsWrong(Served(l', b), n, b);
      ServeAhead(l', b);
      WrongLater(l, r, EnqStore);
    }
  }

  lemma Waiting(l: Logged, b: nat, m: nat) returns (r: nat)
    requires WellSized(l.ring) && CanServe(l, b, m) && l.ring.slots[Slot(m)] != Some(l.log[m])
    ensures l.ring.slots[Slot(m)] == None && r != b && r < |l.ring.pcs| && l.ring.pcs[r] == EnqSpin(l.log[m], m)
  {
    r :| r != b && r < |l.ring.pcs| && l.ring.pcs[r] == EnqSpin(l.log[m], m);
  }

  lemma SameSlot(n: nat)
    ensures Slot(n + SLOT_COUNT) == Slot(n)
  {
    ModOfMod(n + SLOT_COUNT, SLOT_COUNT, WRAP / SLOT_COUNT);
    ModOfMod(n, SLOT_COUNT, WRAP / SLOT_COUNT);
    ModStep(n, SLOT_COUNT);
  }

  // ----- leaving the window -----

  /** Only the claim of a new ticket leaves the window. */
  lemma OnlyClaimsLeaveWindow(l: Logged, p: nat, a: Action)
    requires Inv(l.ring) && NoWrap(l.ring) && Ordered(l) && Window(l.ring) && Enabled(l.ring, p, a)
    requires !Window(Apply(l.ring, p, a))
    ensures a.EnqClaim? && l.ring.head >= SLOT_COUNT && Unserved(l.ring, l.ring.head - SLOT_COUNT)
  {
    var r' := Apply(l.ring, p, a);
    hide Inv, NoWrap, Ordered, Counter, FindsEmpty;
    assert r' == ApplyLogged(l, p, a).ring;
    var n: nat :| Unserved(r', n) && r'.head > n + SLOT_COUNT;
    StaysUnserved(l, p, a, n);
  }

  /** Leaving the window loses the order: with two more processors outside the ring, and unless the new
      thread is the one of the ticket 1024 before, some continuation has a dequeue that gets the thread of
      another ticket. */
  lemma LeavingWindowLosesOrder(l: Logged, p: nat, t: Thread, a: nat, b: nat)
    requires Inv(l.ring) && NoWrap(l.ring) && Ordered(l) && AllSupplied(l) && Window(l.ring)
    requires Enabled(l.ring, p, EnqClaim(t)) && NoWrap(Apply(l.ring, p, EnqClaim(t)))
    requires !Window(Apply(l.ring, p, EnqClaim(t)))
    requires a < |l.ring.pcs| && b < |l.ring.pcs| && a != b && a != p && b != p
    requires l.ring.pcs[a] == l.ring.pcs[b] == Idle
    requires l.ring.head >= SLOT_COUNT ==> l.log[l.ring.head - SLOT_COUNT] != t
    ensures WrongAhead(ApplyLogged(l, p, EnqClaim(t)))
  {
    hide Inv, Window, Counter, WrongAhead;
    OnlyClaimsLeaveWindow(l, p, EnqClaim(t));
    var l', n := ApplyLogged(l, p, EnqClaim(t)), l.ring.head - SLOT_COUNT;
    if q: nat :| Dequeues(l.ring, q, n) {
      assert Waits(l, q);
      ClaimedLosesOrder(l, p, t, b, l', n, q);
    } else {
      assert l.ring.tail == n by { TailIs(l, n); }
      ClaimedLosesOrder(l, p, t, b, Claimed(l', a), n, a);
      ClaimAhead(l', a);
    }
  }

  lemma TailIs(l: Logged, n: nat)
    requires Ordered(l) && Window(l.ring) && l.ring.tail <= n < l.ring.head == n + SLOT_COUNT
    ensures l.ring.tail == n
  {
    assert Unserved(l.ring, l.ring.tail);
  }

  // After the claim of ticket n + 1024, with ticket n claimed by q.
  lemma ClaimedLosesOrder(l: Logged, p: nat, t: Thread, b: nat, l': Logged, n: nat, q: nat)
    requires Ordered(l) && AllSupplied(l) && l.ring.head == n + SLOT_COUNT && Unserved(l.ring, n)
    requires p < |l.ring.pcs| && b < |l.ring.pcs| && l.ring.pcs[p] == l.ring.pcs[b] == Idle && p != b
    requires l'.log == l.log + [t] && l'.ring.head == l.ring.head + 1 && l'.ring.slots == l.ring.slots
    requires |l'.ring.pcs| == |l.ring.pcs| && NoWrap(l'.ring)
    requires n < l'.ring.tail && l.ring.tail <= l'.ring.tail <= l.ring.head
    requires forall r: nat :: r < |l.ring.pcs| && l.ring.pcs[r].EnqSpin? ==> l'.ring.pcs[r] == l.ring.pcs[r]
    requires l'.ring.pcs[p] == EnqSpin(t, n + SLOT_COUNT) && l'.ring.pcs[b] == Idle
    requires q < |l'.ring.pcs| && l'.ring.pcs[q] == DeqSpin(n) && l.log[n] != t
    ensures WrongAhead(l')
  {
    hide Inv, Window, Counter, WrongAhead;
    SameSlot(n);
    if l.ring.slots[Slot(n)] == Some(l.log[n]) {
      forall m: nat | l'.ring.tail <= m < n + SLOT_COUNT ensures CanServe(l', b, m) {
        assert Unserved(l.ring, m) && Supplied(l, m);
        if l.ring.slots[Slot(m)] != Some(l.log[m]) {
          var r: nat :| Enqueues(l.ring, r, m);
          assert Waits(l, r);
          assert l'.ring.pcs[r] == EnqSpin(l'.log[m], m);
        }
      }
      LateIsWrong(l', n, b);
    } else {
      assert Supplied(l, n);
      var r: nat :| Enqueues(l.ring, r, n);
      assert Waits(l, r);
      var l'' := ApplyLogged(l', p, EnqStore);
      WrongNow(l'', q);
      WrongLater(l', p, EnqStore);
    }
  }

  /** Over every run inside the window: each dequeue gets the thread of its own ticket, and the next step
      that leaves the window has a continuation in which one does not. */
  lemma WindowIsExact(run: seq<Logged>, accesses: seq<RingOrder.Access>, p: nat, x: Action, a: nat, b: nat)
    requires IsLoggedRun(run, accesses)
    ensures forall i :: 0 <= i < |run| ==> !TakesWrong(run[i], p)
    ensures var l := run[|accesses|];
      && WellSized(l.ring)
      && (Enabled(l.ring, p, x) && NoWrap(Apply(l.ring, p, x)) && !Window(Apply(l.ring, p, x)) ==>
            && x.EnqClaim? && SLOT_COUNT <= l.ring.head == |l.log|
            && (TwoOutside(l.ring, p, a, b) && l.log[l.ring.head - SLOT_COUNT] != x.thread ==>
                  WrongAhead(ApplyLogged(l, p, x))))
  {
    hide Inv, NoWrap, Window, Init, Enabled, Apply, WrongAhead, Ordered, AllSupplied;
    forall i | 0 <= i < |run| ensures !TakesWrong(run[i], p) {
      RunKeepsOrder(run, accesses, i);
      if TakesWrong(run[i], p) {
        TakesOwnThread(run[i], p);
      }
    }
    var l := run[|accesses|];
    RunKeepsOrder(run, accesses, |accesses|);
    assert WellSized(l.ring) && |l.log| == l.ring.head by { Sizes(l); }
    if Enabled(l.ring, p, x) && NoWrap(Apply(l.ring, p, x)) && !Window(Apply(l.ring, p, x)) {
      OnlyClaimsLeaveWindow(l, p, x);
      if TwoOutside(l.ring, p, a, b) && l.log[l.ring.head - SLOT_COUNT] != x.thread {
        LeavingWindowLosesOrder(l, p, x.thread, a, b);
      }
    }
  }

  // Two processors besides p that are not inside the ring.
  ghost predicate TwoOutside(r: Ring, p: nat, a: nat, b: nat) {
    a < |r.pcs| && b < |r.pcs| && a != b && a != p && b != p && r.pcs[a] == r.pcs[b] == Idle
  }

  lemma Sizes(l: Logged)
    requires Ordered(l)
    ensures WellSized(l.ring) && |l.log| == l.ring.head
  {
  }

  // ----- a run from the empty ring -----

  // Processor 0 has claimed ticket 0 and not taken its thread; all other tickets so far are served.
  ghost predicate Stalled(l: Logged, k: nat, first: Thread) {
    && WellSized(l.ring) && |l.ring.pcs| >= 3 && 0 < |l.log| == l.ring.head == l.ring.tail == k <= SLOT_COUNT
    && l.log[0] == first && l.ring.slots[0] == Some(first)
    && (forall s :: 0 < s < SLOT_COUNT ==> l.ring.slots[s] == None)
    && l.ring.pcs[0] == DeqSpin(0) && (forall p :: 0 < p < |l.ring.pcs| ==> l.ring.pcs[p] == Idle)
  }

  // Processor 1 enqueues a thread.
  ghost function Enqueued(l: Logged, t: Thread): Logged
    requires WellSized(l.ring)
  {
    Logged(l.ring.(slots := l.ring.slots[Slot(l.ring.head) := Some(t)], head := l.ring.head + 1,
                   accepted := l.ring.accepted + multiset{t}),
           l.log + [t])
  }

  lemma EnqueueAhead(l: Logged, t: Thread)
    requires WellSized(l.ring) && |l.ring.pcs| > 1 && NoSnapshots(l.ring) && l.ring.pcs[1] == Idle
    requires l.ring.slots[Slot(l.ring.head)] == None && WrongAhead(Enqueued(l, t))
    ensures WrongAhead(l)
  {
    hide WrongAhead;
    var l1 := ApplyLogged(l, 1, EnqClaim(t));
    var l2 := ApplyLogged(l1, 1, EnqStore);
    assert l2.ring.pcs == l.ring.pcs;
    WrongLater(l1, 1, EnqStore);
    WrongLater(l, 1, EnqClaim(t));
  }

  ghost predicate NoSnapshots(r: Ring) { forall p :: 0 <= p < |r.pcs| ==> !HoldsSnapshot(r.pcs[p]) }

  lemma SlotIs(n: nat)
    requires n < SLOT_COUNT
    ensures Slot(n) == n
  {
  }

  lemma {:induction false} StalledIsWrong(l: Logged, k: nat, first: Thread, last: Thread)
    requires Stalled(l, k, first) && first != last
    ensures WrongAhead(l)
    decreases SLOT_COUNT - k
  {
    hide WrongAhead, Slot;
    SlotIs(0);
    SameSlot(0);
    if k == SLOT_COUNT {
      var l' := ApplyLogged(l, 1, EnqClaim(last));
      LateIsWrong(l', 0, 2);
      WrongLater(l, 1, EnqClaim(last));
    } else {
      SlotIs(k);
      var l1 := Enqueued(l, last);
      var l2 := Served(l1, 2);
      assert l2.ring.slots == l.ring.slots;
      StalledIsWrong(l2, k + 1, first, last);
      ServeAhead(l1, 2);
      EnqueueAhead(l, last);
    }
  }

  /** Concretely, with any two threads: one processor claims ticket 0 and stops, two others pass a second
      thread through the ring 1023 times, and the next time the first thread comes out. */
  lemma LateTicketOvertaken(l: Logged, first: Thread, last: Thread)
    requires Init(l.ring) && l.log == [] && |l.ring.pcs| >= 3 && first != last
    ensures WrongAhead(l)
  {
    hide WrongAhead, Slot;
    SlotIs(0);
    var l1 := Enqueued(l, first);
    var l2 := Claimed(l1, 0);
    StalledIsWrong(l2, 1, first, last);
    ClaimAhead(l1, 0);
    EnqueueAhead(l, first);
  }
}
