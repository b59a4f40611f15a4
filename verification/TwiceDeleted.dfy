/** An interleaving of two processors in which `switch_next` deletes a thread twice
    (kernel/proc/scheduler.cc). */
module TwiceDeleted {
  import opened DeadThreads
  import opened SchedulerMachine
  import opened Sums
  import opened TicketQueue

  // ----- what lies ahead -----

  datatype Move = Move(cpu: nat, deed: Deed)

  ghost predicate CanGo(x: Tracked, ms: seq<Move>)
    decreases ms
  {
    && SchedulerMachine.NoWrap(x.k)
    && (ms != [] ==> CanDo(x, ms[0].cpu, ms[0].deed) && CanGo(Do(x, ms[0].cpu, ms[0].deed), ms[1..]))
  }

  ghost function Goal(x: Tracked, ms: seq<Move>): Tracked
    requires CanGo(x, ms)
    decreases ms
  {
    if ms == [] then x else Goal(Do(x, ms[0].cpu, ms[0].deed), ms[1..])
  }

  /** Some continuation deletes the thread twice. */
  ghost predicate TwiceAhead(x: Tracked, t: Thread) {
    exists ms: seq<Move> :: CanGo(x, ms) && Goal(x, ms).deleted[t] == 2
  }

  lemma TwiceNow(x: Tracked, t: Thread)
    requires SchedulerMachine.NoWrap(x.k) && x.deleted[t] == 2
    ensures TwiceAhead(x, t)
  {
    assert CanGo(x, []) && Goal(x, []) == x;
  }

  lemma TwiceLater(x: Tracked, c: nat, d: Deed, t: Thread)
    requires SchedulerMachine.NoWrap(x.k) && CanDo(x, c, d)
    ensures TwiceAhead(Do(x, c, d), t) ==> TwiceAhead(x, t)
  {
    var x' := Do(x, c, d);
    if TwiceAhead(x', t) {
      var ms: seq<Move> :| CanGo(x', ms) && Goal(x', ms).deleted[t] == 2;
      var ns := [Move(c, d)] + ms;
      assert ns[1..] == ms;
      assert CanGo(x, ns) && Goal(x, ns) == Goal(x', ms);
    }
  }

  // ----- states between the operations on the rings -----

  // The threads in a ring that no processor is inside of, from the given tail on.
  datatype Queue = Queue(tail: nat, threads: seq<Thread>)

  ghost predicate Shows(r: Ring, q: Queue, cpus: nat) {
    && WellSized(r) && r.tail == q.tail && r.head == q.tail + |q.threads| < SLOT_COUNT
    && r.pcs == seq(cpus, _ => Idle)
    && forall s :: 0 <= s < SLOT_COUNT ==>
         r.slots[s] == if q.tail <= s < r.head then Some(q.threads[s - q.tail]) else None
  }

  datatype View = View(
    cpus: seq<Place>,
    queues: seq<Queue>,
    states: map<Thread, ThreadState>,
    previous: seq<Option<Thread>>,
    late: map<Thread, nat>,
    deleted: multiset<Thread>)

  ghost predicate Sees(x: Tracked, v: View) {
    && |v.queues| == 3 && |x.k.rings| == 3 && |v.previous| == |v.cpus|
    && x.k.cpus == v.cpus && x.k.states == v.states
    && x.previous == v.previous && x.late == v.late && x.deleted == v.deleted
    && (forall q :: 0 <= q < 3 ==> Shows(x.k.rings[q], v.queues[q], |v.cpus|))
  }

  lemma SlotIs(n: nat)
    requires n < SLOT_COUNT
    ensures Slot(n) == n
  {
  }

  lemma QuietNoWrap(x: Tracked, v: View)
    requires Sees(x, v)
    ensures SchedulerMachine.NoWrap(x.k) && Shaped(x.k)
  {
  }

  // ----- an operation of one processor on one ring -----

  lemma RingPut(r: Ring, q: Queue, c: nat, n: nat, t: Thread)
    requires Shows(r, q, n) && c < n && q.tail + |q.threads| + 1 < SLOT_COUNT
    ensures TicketQueue.Enabled(r, c, EnqClaim(t))
    ensures var r1 := TicketQueue.Apply(r, c, EnqClaim(t));
      && TicketQueue.NoWrap(r1) && WellSized(r1) && TicketQueue.Enabled(r1, c, EnqStore)
      && Shows(TicketQueue.Apply(r1, c, EnqStore), Queue(q.tail, q.threads + [t]), n)
  {
    SlotIs(r.head);
    hide Slot;
    var r2 := TicketQueue.Apply(TicketQueue.Apply(r, c, EnqClaim(t)), c, EnqStore);
    assert r2.pcs == r.pcs;
  }

  lemma RingEmpty(r: Ring, q: Queue, c: nat, n: nat)
    requires Shows(r, q, n) && c < n && q.threads == []
    ensures TicketQueue.Enabled(r, c, DeqLoadTail)
    ensures var r1 := TicketQueue.Apply(r, c, DeqLoadTail);
      && TicketQueue.NoWrap(r1) && WellSized(r1) && TicketQueue.Enabled(r1, c, DeqEmpty)
      && TicketQueue.Apply(r1, c, DeqEmpty) == r
  {
    EmptyGuardExact(r.head, r.tail);
    hide Slot, FindsEmpty;
    var r2 := TicketQueue.Apply(TicketQueue.Apply(r, c, DeqLoadTail), c, DeqEmpty);
    assert r2.pcs == r.pcs;
  }

  ghost predicate Takes(r: Ring, c: nat, t: Thread, r': Ring) {
    && WellSized(r) && TicketQueue.Enabled(r, c, DeqLoadTail)
    && var r1 := TicketQueue.Apply(r, c, DeqLoadTail);
    && WellSized(r1) && TicketQueue.NoWrap(r1) && TicketQueue.Enabled(r1, c, DeqNonEmpty)
    && var r2 := TicketQueue.Apply(r1, c, DeqNonEmpty);
    && WellSized(r2) && TicketQueue.NoWrap(r2) && TicketQueue.Enabled(r2, c, DeqClaim)
    && var r3 := TicketQueue.Apply(r2, c, DeqClaim);
    && WellSized(r3) && TicketQueue.NoWrap(r3) && TicketQueue.Enabled(r3, c, DeqTake)
    && r3.slots[Slot(r3.pcs[c].ticket)] == Some(t) && r' == TicketQueue.Apply(r3, c, DeqTake)
  }

  lemma RingTake(r: Ring, q: Queue, c: nat, n: nat) returns (r': Ring)
    requires Shows(r, q, n) && c < n && q.threads != []
    ensures Takes(r, c, q.threads[0], r') && Shows(r', Queue(q.tail + 1, q.threads[1..]), n)
  {
    SlotIs(r.tail);
    EmptyGuardExact(r.head, r.tail);
    hide Slot, FindsEmpty;
    var r1 := TicketQueue.Apply(r, c, DeqLoadTail);
    var r2 := TicketQueue.Apply(r1, c, DeqNonEmpty);
    var r3 := TicketQueue.Apply(r2, c, DeqClaim);
    r' := TicketQueue.Apply(r3, c, DeqTake);
    assert r'.pcs == r.pcs;
  }

  // ----- an operation of one processor on the kernel -----

  lemma StaysShaped(k: Kernel, c: nat, q: nat, a: Action, place: Place)
    requires Shaped(k) && c < |k.cpus| && RingEnabled(k, c, q, a)
    ensures Shaped(SchedulerMachine.Access(k, c, q, a, place))
  {
  }

  // One thread goes into a queue.
  predicate Added(v: seq<Queue>, q: nat, t: Thread, w: seq<Queue>) {
    && q < |v| == |w| && w[q].tail == v[q].tail && w[q].threads == v[q].threads + [t]
    && forall i :: 0 <= i < |v| && i != q ==> w[i] == v[i]
  }

  // The first thread of a queue goes.
  predicate Removed(v: seq<Queue>, q: nat, w: seq<Queue>) {
    && q < |v| == |w| && v[q].threads != [] && w[q].tail == v[q].tail + 1 && w[q].threads == v[q].threads[1..]
    && forall i :: 0 <= i < |v| && i != q ==> w[i] == v[i]
  }

  // Nothing else changes.
  predicate SameBooks(v: View, w: View) { w.states == v.states && w.late == v.late && w.deleted == v.deleted }

  // switch_next up to the end of its enqueue.
  lemma Leave(x: Tracked, c: nat, v: View, w: View, t: Thread) returns (x': Tracked)
    requires Sees(x, v) && c < |v.cpus| && v.cpus[c].Running? && v.previous[c] == None
    requires v.cpus[c].current in v.states && v.states[v.cpus[c].current] != Dead
    requires var q := v.queues[QueueOf(v.cpus[c].current)]; q.tail + |q.threads| + 1 < SLOT_COUNT
    requires var u := v.cpus[c].current;
      && w.cpus == v.cpus[c := Fetch(BLOCKED)] && Added(v.queues, QueueOf(u), u, w.queues)
      && w.previous == v.previous[c := Some(u)] && SameBooks(v, w)
    ensures Sees(x', w)
    ensures TwiceAhead(x', t) ==> TwiceAhead(x, t)
  {
    hide TwiceAhead, TicketQueue.Apply, TicketQueue.Enabled, TicketQueue.NoWrap, Shows;
    var u := v.cpus[c].current;
    var q := QueueOf(u);
    QuietNoWrap(x, v);
    RingPut(x.k.rings[q], v.queues[q], c, |v.cpus|, u);
    var x1 := Do(x, c, Does(Switch));
    StaysShaped(x.k, c, q, EnqClaim(u), Put(q, Fetch(BLOCKED)));
    assert SchedulerMachine.NoWrap(x1.k);
    x' := Do(x1, c, Does(Store(EnqStore)));
    TwiceLater(x, c, Does(Switch), t);
    TwiceLater(x1, c, Does(Store(EnqStore)), t);
  }

  // insert_thread.
  lemma Bring(x: Tracked, c: nat, v: View, w: View, u: Thread, t: Thread) returns (x': Tracked)
    requires Sees(x, v) && c < |v.cpus| && v.cpus[c].Running? && v.previous[c] == None
    requires u.priority == NormalPriority && u !in v.states && u !in v.late
    requires v.queues[NORMAL].tail + |v.queues[NORMAL].threads| + 1 < SLOT_COUNT
    requires w == v.(queues := w.queues, states := w.states) && Added(v.queues, NORMAL, u, w.queues)
    requires w.states == v.states[u := Alive]
    ensures Sees(x', w)
    ensures TwiceAhead(x', t) ==> TwiceAhead(x, t)
  {
    hide TwiceAhead, TicketQueue.Apply, TicketQueue.Enabled, TicketQueue.NoWrap, Shows;
    QuietNoWrap(x, v);
    RingPut(x.k.rings[NORMAL], v.queues[NORMAL], c, |v.cpus|, u);
    var x1 := Do(x, c, Does(Insert(u)));
    StaysShaped(x.k, c, NORMAL, EnqClaim(u), Put(NORMAL, x.k.cpus[c]));
    assert SchedulerMachine.NoWrap(x1.k);
    x' := Do(x1, c, Does(Store(EnqStore)));
    TwiceLater(x, c, Does(Insert(u)), t);
    TwiceLater(x1, c, Does(Store(EnqStore)), t);
  }

  // A dequeue that finds nothing.
  lemma Miss(x: Tracked, c: nat, v: View, w: View, t: Thread) returns (x': Tracked)
    requires Sees(x, v) && c < |v.cpus| && v.cpus[c].Fetch? && v.cpus[c].ring < 3
    requires v.queues[v.cpus[c].ring].threads == []
    requires w == v.(cpus := w.cpus) && w.cpus == v.cpus[c := AfterEmpty(v.cpus[c].ring)]
    ensures Sees(x', w)
    ensures TwiceAhead(x', t) ==> TwiceAhead(x, t)
  {
    hide TwiceAhead, TicketQueue.Apply, TicketQueue.Enabled, TicketQueue.NoWrap, Shows;
    var q := v.cpus[c].ring;
    QuietNoWrap(x, v);
    RingEmpty(x.k.rings[q], v.queues[q], c, |v.cpus|);
    var x1 := Do(x, c, Does(Load(DeqLoadTail)));
    StaysShaped(x.k, c, q, DeqLoadTail, Fetch(q));
    assert SchedulerMachine.NoWrap(x1.k);
    x' := Do(x1, c, Does(Load(DeqEmpty)));
    assert x'.k.rings == x.k.rings;
    TwiceLater(x, c, Does(Load(DeqLoadTail)), t);
    TwiceLater(x1, c, Does(Load(DeqEmpty)), t);
  }

  // The kernel with another ring.
  function WithRing(x: Tracked, q: nat, r: Ring): Tracked
    requires q < |x.k.rings|
  {
    x.(k := x.k.(rings := x.k.rings[q := r]))
  }

  // A step of a dequeue that goes on.
  lemma LoadOn(x: Tracked, c: nat, q: nat, a: Action, t: Thread)
    requires Shaped(x.k) && SchedulerMachine.NoWrap(x.k) && |x.previous| == |x.k.cpus| && c < |x.k.cpus| && q < 3
    requires x.k.cpus[c] == Fetch(q) && TicketQueue.Enabled(x.k.rings[q], c, a)
    requires a.DeqLoadTail? || a.DeqNonEmpty? || a.DeqClaim?
    requires TicketQueue.NoWrap(TicketQueue.Apply(x.k.rings[q], c, a))
    ensures var x' := WithRing(x, q, TicketQueue.Apply(x.k.rings[q], c, a));
      && Shaped(x'.k) && SchedulerMachine.NoWrap(x'.k) && (TwiceAhead(x', t) ==> TwiceAhead(x, t))
  {
    hide TwiceAhead, TicketQueue.Apply, TicketQueue.Enabled, TicketQueue.NoWrap;
    StaysShaped(x.k, c, q, a, Fetch(q));
    assert x.k.cpus[c := Fetch(q)] == x.k.cpus;
    assert Do(x, c, Does(Load(a))) == WithRing(x, q, TicketQueue.Apply(x.k.rings[q], c, a));
    TwiceLater(x, c, Does(Load(a)), t);
  }

  // A dequeue that takes the first thread.
  lemma Take(x: Tracked, c: nat, v: View, w: View, t: Thread) returns (x': Tracked)
    requires Sees(x, v) && c < |v.cpus| && v.cpus[c].Fetch? && v.cpus[c].ring < 3
    requires Removed(v.queues, v.cpus[c].ring, w.queues) && w == v.(cpus := w.cpus, queues := w.queues)
    requires w.cpus == v.cpus[c := Got(v.cpus[c].ring, v.queues[v.cpus[c].ring].threads[0])]
    ensures Sees(x', w)
    ensures TwiceAhead(x', t) ==> TwiceAhead(x, t)
  {
    hide TwiceAhead, TicketQueue.Apply, TicketQueue.Enabled, TicketQueue.NoWrap, Shows;
    var q := v.cpus[c].ring;
    QuietNoWrap(x, v);
    var r0 := x.k.rings[q];
    var r := RingTake(r0, v.queues[q], c, |v.cpus|);
    var r1 := TicketQueue.Apply(r0, c, DeqLoadTail);
    LoadOn(x, c, q, DeqLoadTail, t);
    var r2 := TicketQueue.Apply(r1, c, DeqNonEmpty);
    LoadOn(WithRing(x, q, r1), c, q, DeqNonEmpty, t);
    assert WithRing(WithRing(x, q, r1), q, r2) == WithRing(x, q, r2);
    var r3 := TicketQueue.Apply(r2, c, DeqClaim);
    LoadOn(WithRing(x, q, r2), c, q, DeqClaim, t);
    assert WithRing(WithRing(x, q, r2), q, r3) == WithRing(x, q, r3);
    x' := TakeEnds(WithRing(x, q, r3), c, q, v.queues[q].threads[0], t);
    assert x'.k.rings == x.k.rings[q := r];
  }

  lemma TakeEnds(x: Tracked, c: nat, q: nat, u: Thread, t: Thread) returns (x': Tracked)
    requires Shaped(x.k) && SchedulerMachine.NoWrap(x.k) && |x.previous| == |x.k.cpus| && c < |x.k.cpus| && q < 3
    requires x.k.cpus[c] == Fetch(q) && TicketQueue.Enabled(x.k.rings[q], c, DeqTake)
    requires x.k.rings[q].slots[Slot(x.k.rings[q].pcs[c].ticket)] == Some(u)
    ensures x' == x.(k := x.k.(rings := x.k.rings[q := TicketQueue.Apply(x.k.rings[q], c, DeqTake)],
                               cpus := x.k.cpus[c := Got(q, u)]))
    ensures TwiceAhead(x', t) ==> TwiceAhead(x, t)
  {
    hide TwiceAhead, TicketQueue.Apply, TicketQueue.NoWrap;
    x' := Do(x, c, Does(Load(DeqTake)));
    TwiceLater(x, c, Does(Load(DeqTake)), t);
  }

  // The thread is alive and comes to run; then the second test of the one before.
  lemma Run(x: Tracked, c: nat, v: View, w: View, t: Thread) returns (x': Tracked)
    requires Sees(x, v) && c < |v.cpus| && v.cpus[c].Got? && v.cpus[c].ring != BLOCKED && v.previous[c].Some?
    requires v.cpus[c].thread in v.states && v.states[v.cpus[c].thread] == Alive
    requires w.cpus == v.cpus[c := Running(v.cpus[c].thread)] && w.previous == v.previous[c := None]
    requires w.queues == v.queues && w.states == v.states && w.late == v.late
    requires var u := v.previous[c].value; w.deleted == if u in v.late then v.deleted + multiset{u} else v.deleted
    ensures Sees(x', w)
    ensures TwiceAhead(x', t) ==> TwiceAhead(x, t)
  {
    hide TwiceAhead, TicketQueue.Apply, TicketQueue.Enabled, TicketQueue.NoWrap, Shows;
    QuietNoWrap(x, v);
    var x1 := Do(x, c, Does(Dispatch));
    assert v.states[v.cpus[c].thread := Alive] == v.states;
    x' := Do(x1, c, Finish);
    TwiceLater(x, c, Does(Dispatch), t);
    TwiceLater(x1, c, Finish, t);
  }

  // The current thread dies and leaves.
  lemma Die(x: Tracked, c: nat, v: View, w: View, t: Thread) returns (x': Tracked)
    requires Sees(x, v) && c < |v.cpus| && v.cpus[c] == Running(t) && v.previous[c] == None
    requires t.priority == NormalPriority && t in v.states && t !in v.late
    requires w.cpus == v.cpus[c := Fetch(BLOCKED)] && w.previous == v.previous[c := Some(t)]
    requires w.queues == v.queues && w.states == v.states - {t} && w.late == v.late[t := Pending(x, t)]
    requires w.deleted == v.deleted
    ensures Sees(x', w)
    ensures TwiceAhead(x', t) ==> TwiceAhead(x, t)
  {
    hide TwiceAhead, TicketQueue.Apply, TicketQueue.Enabled, TicketQueue.NoWrap, Shows, Sum;
    QuietNoWrap(x, v);
    var x1 := Do(x, c, Does(Kill));
    x' := Do(x1, c, Does(SwitchFromDead));
    assert v.states[t := Dead] - {t} == v.states - {t};
    TwiceLater(x, c, Does(Kill), t);
    TwiceLater(x1, c, Does(SwitchFromDead), t);
  }

  // ----- the interleaving -----

  // The first processor passes on the thread and is held up before its second test.
  lemma FirstHalf(x: Tracked, i0: Thread, i1: Thread, t: Thread) returns (x': Tracked)
    requires i0 != i1 && i0.priority == i1.priority == IdlePriority && t.priority == NormalPriority
    requires Sees(x, View([Running(i0), Running(i1)], [Queue(0, []), Queue(0, []), Queue(0, [])],
                          map[i0 := Alive, i1 := Alive], [None, None], map[], multiset{}))
    ensures Sees(x', View([Fetch(BLOCKED), Running(i1)], [Queue(0, [i0]), Queue(1, [t]), Queue(0, [])],
                          map[i0 := Alive, i1 := Alive, t := Alive], [Some(t), None], map[], multiset{}))
    ensures TwiceAhead(x', t) ==> TwiceAhead(x, t)
  {
    hide Sees, TwiceAhead;
    var v0 := View([Running(i0), Running(i1)], [Queue(0, []), Queue(0, []), Queue(0, [])],
                   map[i0 := Alive, i1 := Alive], [None, None], map[], multiset{});
    var v1 := v0.(queues := [Queue(0, []), Queue(0, [t]), Queue(0, [])],
                  states := map[i0 := Alive, i1 := Alive, t := Alive]);
    x' := Bring(x, 0, v0, v1, t, t);
    var v2 := v1.(cpus := [Fetch(BLOCKED), Running(i1)], queues := [Queue(0, [i0]), Queue(0, [t]), Queue(0, [])],
                  previous := [Some(i0), None]);
    x' := Leave(x', 0, v1, v2, t);
    var v3 := v2.(cpus := [Fetch(NORMAL), Running(i1)]);
    x' := Miss(x', 0, v2, v3, t);
    var v4 := v3.(cpus := [Got(NORMAL, t), Running(i1)], queues := [Queue(0, [i0]), Queue(1, []), Queue(0, [])]);
    x' := Take(x', 0, v3, v4, t);
    var v5 := v4.(cpus := [Running(t), Running(i1)], previous := [None, None]);
    x' := Run(x', 0, v4, v5, t);
    var v6 := v5.(cpus := [Fetch(BLOCKED), Running(i1)], queues := [Queue(0, [i0]), Queue(1, [t]), Queue(0, [])],
                  previous := [Some(t), None]);
    x' := Leave(x', 0, v5, v6, t);
  }

  // The second processor picks the thread up; it dies there, and is deleted there.
  lemma SecondHalf(x: Tracked, i0: Thread, i1: Thread, t: Thread) returns (x': Tracked)
    requires i0 != i1 && i0.priority == i1.priority == IdlePriority && t.priority == NormalPriority
    requires Sees(x, View([Fetch(BLOCKED), Running(i1)], [Queue(0, [i0]), Queue(1, [t]), Queue(0, [])],
                          map[i0 := Alive, i1 := Alive, t := Alive], [Some(t), None], map[], multiset{}))
    ensures Sees(x', View([Fetch(BLOCKED), Running(i0)], [Queue(1, [i1]), Queue(2, []), Queue(0, [])],
                          map[i0 := Alive, i1 := Alive], [Some(t), None], map[t := 1], multiset{t}))
    ensures TwiceAhead(x', t) ==> TwiceAhead(x, t)
  {
    hide Sees, TwiceAhead;
    var v0 := View([Fetch(BLOCKED), Running(i1)], [Queue(0, [i0]), Queue(1, [t]), Queue(0, [])],
                   map[i0 := Alive, i1 := Alive, t := Alive], [Some(t), None], map[], multiset{});
    var v1 := v0.(cpus := [Fetch(BLOCKED), Fetch(BLOCKED)], previous := [Some(t), Some(i1)],
                  queues := [Queue(0, [i0, i1]), Queue(1, [t]), Queue(0, [])]);
    x' := Leave(x, 1, v0, v1, t);
    var v2 := v1.(cpus := [Fetch(BLOCKED), Fetch(NORMAL)]);
    x' := Miss(x', 1, v1, v2, t);
    var v3 := v2.(cpus := [Fetch(BLOCKED), Got(NORMAL, t)], queues := [Queue(0, [i0, i1]), Queue(2, []), Queue(0, [])]);
    x' := Take(x', 1, v2, v3, t);
    var v4 := v3.(cpus := [Fetch(BLOCKED), Running(t)], previous := [Some(t), None]);
    x' := Run(x', 1, v3, v4, t);
    assert Pending(x', t) == 1 by { OneBehind(x', v4, t); }
    var v5 := v4.(cpus := [Fetch(BLOCKED), Fetch(BLOCKED)], previous := [Some(t), Some(t)],
                  states := map[i0 := Alive, i1 := Alive], late := map[t := 1]);
    assert v4.states - {t} == v5.states;
    x' := Die(x', 1, v4, v5, t);
    var v6 := v5.(cpus := [Fetch(BLOCKED), Fetch(NORMAL)]);
    x' := Miss(x', 1, v5, v6, t);
    var v7 := v6.(cpus := [Fetch(BLOCKED), Fetch(IDLE)]);
    x' := Miss(x', 1, v6, v7, t);
    var v8 := v7.(cpus := [Fetch(BLOCKED), Got(IDLE, i0)], queues := [Queue(1, [i1]), Queue(2, []), Queue(0, [])]);
    x' := Take(x', 1, v7, v8, t);
    var v9 := v8.(cpus := [Fetch(BLOCKED), Running(i0)], previous := [Some(t), None], deleted := multiset{t});
    x' := Run(x', 1, v8, v9, t);
  }

  lemma OneBehind(x: Tracked, v: View, t: Thread)
    requires Sees(x, v) && v.previous == [Some(t), None]
    ensures Pending(x, t) == 1
  {
    SumAppend(Was(t), [], Some(t));
    SumAppend(Was(t), [Some(t)], None);
    assert x.previous == [Some(t)] + [None] && [] + [Some(t)] == [Some(t)];
  }

  // The first processor goes on, finds the thread dead, and deletes it again.
  lemma Aftermath(x: Tracked, i0: Thread, i1: Thread, t: Thread)
    requires i0 != i1 && i0.priority == i1.priority == IdlePriority && t.priority == NormalPriority
    requires Sees(x, View([Fetch(BLOCKED), Running(i0)], [Queue(1, [i1]), Queue(2, []), Queue(0, [])],
                          map[i0 := Alive, i1 := Alive], [Some(t), None], map[t := 1], multiset{t}))
    ensures TwiceAhead(x, t)
  {
    hide TwiceAhead;
    var v0 := View([Fetch(BLOCKED), Running(i0)], [Queue(1, [i1]), Queue(2, []), Queue(0, [])],
                   map[i0 := Alive, i1 := Alive], [Some(t), None], map[t := 1], multiset{t});
    var v1 := v0.(cpus := [Fetch(NORMAL), Running(i0)]);
    var x1 := Miss(x, 0, v0, v1, t);
    var v2 := v1.(cpus := [Fetch(IDLE), Running(i0)]);
    var x2 := Miss(x1, 0, v1, v2, t);
    var v3 := v2.(cpus := [Got(IDLE, i1), Running(i0)], queues := [Queue(2, []), Queue(2, []), Queue(0, [])]);
    var x3 := Take(x2, 0, v2, v3, t);
    var v4 := v3.(cpus := [Running(i1), Running(i0)], previous := [None, None], deleted := multiset{t, t});
    var x4 := Run(x3, 0, v3, v4, t);
    QuietNoWrap(x4, v4);
    TwiceNow(x4, t);
  }

  /** From boot, with a second processor and one thread: the thread is requeued alive on the first, picked up
      by the second, dies there and is deleted; then the first makes its second test and deletes it again. */
  lemma ThreadDeletedTwice(x: Tracked, i1: Thread, t: Thread)
    requires Boots(x) && i1 != x.k.cpus[0].current && i1.priority == IdlePriority && t.priority == NormalPriority
    ensures TwiceAhead(x, t)
  {
    hide TwiceAhead, Sees;
    var i0 := x.k.cpus[0].current;
    var x1 := Do(x, 0, Does(StartCpu(i1)));
    assert Sees(x1, View([Running(i0), Running(i1)], [Queue(0, []), Queue(0, []), Queue(0, [])],
                         map[i0 := Alive, i1 := Alive], [None, None], map[], multiset{})) by { AfterBoot(x, i1); }
    var x2 := FirstHalf(x1, i0, i1, t);
    var x3 := SecondHalf(x2, i0, i1, t);
    Aftermath(x3, i0, i1, t);
    TwiceLater(x, 0, Does(StartCpu(i1)), t);
  }

  lemma AfterBoot(x: Tracked, i1: Thread)
    requires Boots(x) && i1 != x.k.cpus[0].current && i1.priority == IdlePriority
    ensures var i0 := x.k.cpus[0].current;
      Sees(Do(x, 0, Does(StartCpu(i1))),
           View([Running(i0), Running(i1)], [Queue(0, []), Queue(0, []), Queue(0, [])],
                map[i0 := Alive, i1 := Alive], [None, None], map[], multiset{}))
  {
    var i0 := x.k.cpus[0].current;
    var x1 := Do(x, 0, Does(StartCpu(i1)));
    assert x.k.states[i1 := Alive] == map[i0 := Alive, i1 := Alive];
    assert x1.k.cpus == [Running(i0), Running(i1)];
    forall q | 0 <= q < 3 ensures x1.k.rings[q].pcs == seq(2, _ => Idle) {
      assert x.k.rings[q].pcs == [Idle];
    }
  }
}
