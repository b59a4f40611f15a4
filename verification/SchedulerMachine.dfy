/** `switch_next` and `pick_next` (kernel/proc/scheduler.cc) on any number of processors.

    The scheduler owns three rings: the idle queue, the normal queue and the blocked queue. A
    state joins the rings with the place that each processor has reached in `switch_next`; a
    step is one atomic access of one processor. Locks, register state and address spaces do not
    appear. */
module SchedulerMachine {
  import opened Sums
  import opened TicketQueue

  const IDLE: nat := 0     // s_queues[Idle]
  const NORMAL: nat := 1   // s_queues[Normal]
  const BLOCKED: nat := 2  // s_blocked_queue

  /** Where one processor stands. */
  datatype Place =
    | Running(current: Thread)             // outside switch_next
    | Put(ring: nat, after: Place)         // inside enqueue on a ring
    | Fetch(ring: nat)                     // inside dequeue on a ring, or about to call it
    | Got(ring: nat, thread: Thread)       // dequeue returned a thread that is not placed yet
    | QueueEmpty                           // "Thread queue empty!"

  datatype Kernel = Kernel(rings: seq<Ring>, cpus: seq<Place>, states: map<Thread, ThreadState>)

  datatype Event =
    | Switch               // switch_next requeues the current thread
    | SwitchFromDead       // switch_next drops a dead current thread
    | Store(a: Action)     // a step of the enqueue in progress
    | Load(a: Action)      // a step of the dequeue in progress
    | Unpark               // a thread from the blocked queue goes back to its own queue
    | Dispatch             // pick_next returns the thread: it is alive, or its blocker lets go
    | Park                 // pick_next moves a thread that stays blocked to the blocked queue
    | Block                // the current thread blocks
    | Kill                 // the current thread dies
    | Insert(thread: Thread)    // insert_thread of a new normal thread
    | StartCpu(thread: Thread)  // a processor comes up with its own idle thread as current

  function QueueOf(t: Thread): nat {
    if t.priority.IdlePriority? then IDLE else NORMAL
  }

  predicate Shaped(k: Kernel) {
    && |k.rings| == 3
    && (forall q :: 0 <= q < 3 ==> WellSized(k.rings[q]) && |k.rings[q].pcs| == |k.cpus|)
  }

  predicate RingEnabled(k: Kernel, c: nat, q: nat, a: Action)
    requires Shaped(k)
  {
    q < 3 && TicketQueue.Enabled(k.rings[q], c, a)
  }

  // One atomic access of processor c on ring q, after which the processor stands at `place`.
  function Access(k: Kernel, c: nat, q: nat, a: Action, place: Place): Kernel
    requires Shaped(k) && c < |k.cpus| && RingEnabled(k, c, q, a)
  {
    k.(rings := k.rings[q := TicketQueue.Apply(k.rings[q], c, a)], cpus := k.cpus[c := place])
  }

  function Move(k: Kernel, c: nat, place: Place): Kernel
    requires c < |k.cpus|
  {
    k.(cpus := k.cpus[c := place])
  }

  function SetState(k: Kernel, t: Thread, s: ThreadState): Kernel {
    k.(states := k.states[t := s])
  }

  predicate IsEnqueueStep(a: Action) { a.EnqStore? || a.EnqRetry? }

  predicate IsDequeueStep(a: Action) { !a.EnqClaim? && !a.EnqStore? && !a.EnqRetry? }

  predicate Enabled(k: Kernel, c: nat, e: Event)
    requires Shaped(k)
  {
    if e.StartCpu? then
      e.thread.priority.IdlePriority? && e.thread !in k.states
    else
      c < |k.cpus| &&
      var p := k.cpus[c];
      match e
      case Switch =>
        p.Running? && p.current in k.states && k.states[p.current] != Dead
        && RingEnabled(k, c, QueueOf(p.current), EnqClaim(p.current))
      case SwitchFromDead => p.Running? && p.current in k.states && k.states[p.current] == Dead
      case Store(a) => p.Put? && IsEnqueueStep(a) && RingEnabled(k, c, p.ring, a)
      case Load(a) => p.Fetch? && IsDequeueStep(a) && RingEnabled(k, c, p.ring, a)
      case Unpark => p.Got? && p.ring == BLOCKED && RingEnabled(k, c, QueueOf(p.thread), EnqClaim(p.thread))
      case Dispatch => p.Got? && p.ring != BLOCKED && p.thread in k.states && k.states[p.thread] != Dead
      case Park =>
        p.Got? && p.ring != BLOCKED && p.thread in k.states && k.states[p.thread] != Alive
        && RingEnabled(k, c, BLOCKED, EnqClaim(p.thread))
      case Block =>
        && p.Running? && p.current.priority.NormalPriority?
        && p.current in k.states && k.states[p.current] == Alive
      case Kill => p.Running? && p.current.priority.NormalPriority? && p.current in k.states
      case Insert(t) =>
        p.Running? && t.priority.NormalPriority? && t !in k.states && RingEnabled(k, c, NORMAL, EnqClaim(t))
  }

  // Where `pick_next` goes when a queue turns out to be empty.
  function AfterEmpty(ring: nat): Place {
    if ring == BLOCKED then Fetch(NORMAL) else if ring == NORMAL then Fetch(IDLE) else QueueEmpty
  }

  function AfterLoad(k: Kernel, c: nat, q: nat, a: Action): Place
    requires Shaped(k) && c < |k.cpus| && RingEnabled(k, c, q, a)
  {
    match a
    case DeqEmpty => AfterEmpty(q)
    case DeqTake => Got(q, k.rings[q].slots[Slot(k.rings[q].pcs[c].ticket)].value)
    case _ => Fetch(q)
  }

  function Apply(k: Kernel, c: nat, e: Event): Kernel
    requires Shaped(k) && Enabled(k, c, e)
  {
    match e
    case StartCpu(t) => SetState(AddCpu(k, t), t, Alive)
    case Switch =>
      var t := k.cpus[c].current;
      Access(k, c, QueueOf(t), EnqClaim(t), Put(QueueOf(t), Fetch(BLOCKED)))
    case SwitchFromDead => Move(k, c, Fetch(BLOCKED)).(states := k.states - {k.cpus[c].current})
    case Store(a) =>
      var p := k.cpus[c];
      Access(k, c, p.ring, a, if a.EnqStore? then p.after else p)
    case Load(a) =>
      var q := k.cpus[c].ring;
      Access(k, c, q, a, AfterLoad(k, c, q, a))
    case Unpark =>
      var t := k.cpus[c].thread;
      Access(k, c, QueueOf(t), EnqClaim(t), Put(QueueOf(t), Fetch(BLOCKED)))
    case Dispatch =>
      var t := k.cpus[c].thread;
      SetState(Move(k, c, Running(t)), t, Alive)
    case Park =>
      var p := k.cpus[c];
      Access(k, c, BLOCKED, EnqClaim(p.thread), Put(BLOCKED, Fetch(p.ring)))
    case Block => SetState(k, k.cpus[c].current, Blocked)
    case Kill => SetState(k, k.cpus[c].current, Dead)
    case Insert(t) => SetState(Access(k, c, NORMAL, EnqClaim(t), Put(NORMAL, k.cpus[c])), t, Alive)
  }

  function WithIdlePc(r: Ring): Ring { r.(pcs := r.pcs + [Idle]) }

  function AddCpu(k: Kernel, t: Thread): Kernel
    requires Shaped(k)
  {
    k.(rings := [WithIdlePc(k.rings[0]), WithIdlePc(k.rings[1]), WithIdlePc(k.rings[2])],
       cpus := k.cpus + [Running(t)])
  }

  /** Boot: empty rings and one processor, which runs the base idle thread. */
  ghost predicate Init(k: Kernel) {
    && Shaped(k)
    && (forall q :: 0 <= q < 3 ==> TicketQueue.Init(k.rings[q]))
    && |k.cpus| == 1
    && k.cpus[0].Running? && k.cpus[0].current.priority.IdlePriority?
    && k.states == map[k.cpus[0].current := Alive]
  }

  // ----- the invariant -----

  // A processor is inside a ring operation exactly where its place says so.
  predicate Agrees(p: Place, q: nat, pc: Pc) {
    match p
    case Put(ring, after) => (if q == ring then pc.EnqSpin? else pc.Idle?) && (after.Running? || after.Fetch?)
    case Fetch(ring) => if q == ring then !pc.EnqSpin? else pc.Idle?
    case _ => pc.Idle?
  }

  predicate InRange(p: Place) {
    match p
    case Put(ring, after) => ring < 3 && (after.Fetch? ==> after.ring < 3)
    case Fetch(ring) => ring < 3
    case Got(ring, t) =>
      ring < 3 && (ring != BLOCKED ==> ring == QueueOf(t)) && (ring == BLOCKED ==> QueueOf(t) == NORMAL)
    case Running(_) => true
    case QueueEmpty => false
  }

  // A thread only ever waits in its own queue or, if it is not an idle thread, in the blocked queue.
  predicate Belongs(q: nat, t: Thread) {
    if q == IDLE then t.priority.IdlePriority? else t.priority.NormalPriority?
  }

  ghost predicate ThreadsBelong(r: Ring, q: nat) {
    && (forall c :: 0 <= c < |r.pcs| && r.pcs[c].EnqSpin? ==> Belongs(q, r.pcs[c].thread))
    && (forall s :: 0 <= s < |r.slots| && r.slots[s].Some? ==> Belongs(q, r.slots[s].value))
  }

  function Holds(t: Thread): Place -> int {
    (p: Place) => HeldBy(t, p)
  }

  function HeldBy(t: Thread, p: Place): (n: int)
    ensures 0 <= n <= 1
  {
    match p
    case Running(u) => if u == t then 1 else 0
    case Got(_, u) => if u == t then 1 else 0
    case Put(_, after) => HeldBy(t, after)
    case _ => 0
  }

  function HoldsIdle(): Place -> int {
    (p: Place) => IdleHeldBy(p)
  }

  function IdleHeldBy(p: Place): (n: int)
    ensures 0 <= n <= 1
  {
    match p
    case Running(u) => if u.priority.IdlePriority? then 1 else 0
    case Got(_, u) => if u.priority.IdlePriority? then 1 else 0
    case Put(_, after) => IdleHeldBy(after)
    case _ => 0
  }

  function Claims(): Pc -> int {
    (pc: Pc) => if pc.DeqSpin? then 1 else 0
  }

  /** In how many places a thread is: current on a processor, in a processor's hands, or in a ring. */
  function Places(k: Kernel, t: Thread): int
    requires Shaped(k)
  {
    Sum(Holds(t), k.cpus) + Copies(k.rings[0], t) + Copies(k.rings[1], t) + Copies(k.rings[2], t)
  }

  ghost predicate LiveOnce(k: Kernel, t: Thread)
    requires Shaped(k)
  {
    Places(k, t) == if t in k.states then 1 else 0
  }

  // The idle threads: unclaimed in the idle queue, claimed by a dequeue, or held by a processor.
  function IdleCount(k: Kernel): int
    requires Shaped(k)
  {
    var r := k.rings[IDLE];
    r.head - r.tail + Sum(HoldsIdle(), k.cpus) + Sum(Claims(), r.pcs)
  }

  ghost predicate CpusAgree(k: Kernel)
    requires Shaped(k)
  {
    && (forall c :: 0 <= c < |k.cpus| ==> InRange(k.cpus[c]))
    && (forall c, q :: 0 <= c < |k.cpus| && 0 <= q < 3 ==> Agrees(k.cpus[c], q, k.rings[q].pcs[c]))
  }

  ghost predicate Inv(k: Kernel) {
    && Shaped(k)
    && (forall q :: 0 <= q < 3 ==> TicketQueue.Inv(k.rings[q]) && ThreadsBelong(k.rings[q], q))
    && CpusAgree(k)
    && IdleCount(k) == |k.cpus|
    && (forall t :: t in k.states && t.priority.IdlePriority? ==> k.states[t] == Alive)
    && (forall t :: LiveOnce(k, t))
  }

  ghost predicate NoWrap(k: Kernel) {
    forall q :: 0 <= q < |k.rings| ==> TicketQueue.NoWrap(k.rings[q])
  }

  // ----- what one atomic access changes -----

  // The thread that a step takes out of the ring, counted for t.
  function Taken(r: Ring, c: nat, a: Action, t: Thread): int
    requires WellSized(r) && TicketQueue.Enabled(r, c, a)
  {
    if a.DeqTake? && r.slots[Slot(r.pcs[c].ticket)] == Some(t) then 1 else 0
  }

  lemma AccessMovesThread(k: Kernel, c: nat, q: nat, a: Action, place: Place, t: Thread)
    requires Inv(k) && c < |k.cpus| && RingEnabled(k, c, q, a)
    ensures Places(Access(k, c, q, a, place), t)
              == Places(k, t) + HeldBy(t, place) - HeldBy(t, k.cpus[c])
                 + (if a == EnqClaim(t) then 1 else 0) - Taken(k.rings[q], c, a, t)
  {
    hide Sum, ThreadsBelong, LiveOnce;
    StepKeepsThread(k.rings[q], c, a, t);
    SumUpdate(Holds(t), k.cpus, c, place);
  }

  lemma AccessMovesIdle(k: Kernel, c: nat, q: nat, a: Action, place: Place)
    requires Inv(k) && c < |k.cpus| && RingEnabled(k, c, q, a)
    ensures IdleCount(Access(k, c, q, a, place))
              == IdleCount(k) + IdleHeldBy(place) - IdleHeldBy(k.cpus[c])
                 + if q != IDLE then 0 else if a.EnqClaim? then 1 else if a.DeqTake? then -1 else 0
  {
    var r := k.rings[q];
    var r' := TicketQueue.Apply(r, c, a);
    SumUpdate(HoldsIdle(), k.cpus, c, place);
    SumUpdate(Claims(), r.pcs, c, r'.pcs[c]);
    assert r'.pcs == r.pcs[c := r'.pcs[c]];
  }

  lemma AccessKeepsRings(k: Kernel, c: nat, q: nat, a: Action, place: Place)
    requires Inv(k) && NoWrap(k) && c < |k.cpus| && RingEnabled(k, c, q, a)
    requires a.EnqClaim? ==> Belongs(q, a.thread)
    ensures var k' := Access(k, c, q, a, place);
      && Shaped(k')
      && forall i :: 0 <= i < 3 ==> TicketQueue.Inv(k'.rings[i]) && ThreadsBelong(k'.rings[i], i)
  {
    StepKeepsInv(k.rings[q], c, a);
    assert ThreadsBelong(k.rings[q], q);
    assert ThreadsBelong(TicketQueue.Apply(k.rings[q], c, a), q);
  }

  lemma AccessKeepsAgreement(k: Kernel, c: nat, q: nat, a: Action, place: Place)
    requires Inv(k) && c < |k.cpus| && RingEnabled(k, c, q, a)
    requires InRange(place)
    requires Agrees(place, q, TicketQueue.Apply(k.rings[q], c, a).pcs[c])
    requires forall i :: 0 <= i < 3 && i != q ==> Agrees(place, i, k.rings[i].pcs[c])
    ensures Shaped(Access(k, c, q, a, place)) && CpusAgree(Access(k, c, q, a, place))
  {
  }

  // ----- every step keeps the invariant -----

  // A ring access keeps the invariant if it moves one thread from hand to ring or from ring to hand.
  lemma AccessKeepsInv(k: Kernel, c: nat, q: nat, a: Action, place: Place)
    requires Inv(k) && NoWrap(k) && c < |k.cpus| && RingEnabled(k, c, q, a)
    requires a.EnqClaim? ==> Belongs(q, a.thread)
    requires InRange(place)
    requires Agrees(place, q, TicketQueue.Apply(k.rings[q], c, a).pcs[c])
    requires forall i :: 0 <= i < 3 && i != q ==> Agrees(place, i, k.rings[i].pcs[c])
    requires forall t :: HeldBy(t, place) - HeldBy(t, k.cpus[c])
                           + (if a == EnqClaim(t) then 1 else 0) - Taken(k.rings[q], c, a, t) == 0
    requires IdleHeldBy(place) - IdleHeldBy(k.cpus[c])
               + (if q != IDLE then 0 else if a.EnqClaim? then 1 else if a.DeqTake? then -1 else 0) == 0
    ensures Inv(Access(k, c, q, a, place))
  {
    hide TicketQueue.Inv, ThreadsBelong, Sum;
    var k' := Access(k, c, q, a, place);
    AccessKeepsRings(k, c, q, a, place);
    AccessKeepsAgreement(k, c, q, a, place);
    AccessMovesIdle(k, c, q, a, place);
    forall t ensures LiveOnce(k', t) {
      assert LiveOnce(k, t);
      AccessMovesThread(k, c, q, a, place, t);
    }
  }

  /** While a processor looks for a thread in the idle queue, the other processors hold or have
      claimed at most all but one of the idle threads, so an unclaimed one is left. */
  lemma IdleQueueHasOne(k: Kernel, c: nat)
    requires Inv(k) && c < |k.cpus| && k.cpus[c] == Fetch(IDLE) && !k.rings[IDLE].pcs[c].DeqSpin?
    ensures k.rings[IDLE].tail < k.rings[IDLE].head
  {
    var r := k.rings[IDLE];
    forall i | 0 <= i < |k.cpus| ensures HoldsIdle()(k.cpus[i]) + Claims()(r.pcs[i]) <= 1 {
      assert Agrees(k.cpus[i], IDLE, r.pcs[i]);
    }
    SumsBelow(HoldsIdle(), k.cpus, Claims(), r.pcs, c);
  }

  lemma IdleQueueNeverLooksEmpty(k: Kernel, c: nat)
    requires Inv(k) && NoWrap(k) && c < |k.cpus| && k.cpus[c] == Fetch(IDLE)
    ensures !RingEnabled(k, c, IDLE, DeqEmpty)
  {
    if RingEnabled(k, c, IDLE, DeqEmpty) {
      NullMeansAllClaimed(k.rings[IDLE], c);
      IdleQueueHasOne(k, c);
    }
  }

  lemma LoadKeepsInv(k: Kernel, c: nat, a: Action)
    requires Inv(k) && NoWrap(k) && Enabled(k, c, Load(a))
    ensures Inv(Apply(k, c, Load(a)))
  {
    var q := k.cpus[c].ring;
    var r := k.rings[q];
    assert forall i :: 0 <= i < 3 ==> Agrees(k.cpus[c], i, k.rings[i].pcs[c]);
    if q == IDLE {
      IdleQueueNeverLooksEmpty(k, c);
    }
    if a.DeqTake? {
      assert Belongs(q, r.slots[Slot(r.pcs[c].ticket)].value);
    }
    AccessKeepsInv(k, c, q, a, AfterLoad(k, c, q, a));
  }

  lemma StoreKeepsInv(k: Kernel, c: nat, a: Action)
    requires Inv(k) && NoWrap(k) && Enabled(k, c, Store(a))
    ensures Inv(Apply(k, c, Store(a)))
  {
    var p := k.cpus[c];
    assert InRange(p);
    assert forall i :: 0 <= i < 3 ==> Agrees(p, i, k.rings[i].pcs[c]);
    AccessKeepsInv(k, c, p.ring, a, if a.EnqStore? then p.after else p);
  }

  // A thread in a processor's hands goes into a ring.
  lemma ClaimKeepsInv(k: Kernel, c: nat, q: nat, t: Thread, after: Place)
    requires Inv(k) && NoWrap(k) && c < |k.cpus| && RingEnabled(k, c, q, EnqClaim(t))
    requires k.cpus[c] == Running(t) || (k.cpus[c].Got? && k.cpus[c].thread == t)
    requires Belongs(q, t) && after.Fetch? && after.ring < 3
    ensures Inv(Access(k, c, q, EnqClaim(t), Put(q, after)))
  {
    assert forall i :: 0 <= i < 3 ==> Agrees(k.cpus[c], i, k.rings[i].pcs[c]);
    AccessKeepsInv(k, c, q, EnqClaim(t), Put(q, after));
  }

  lemma MoveKeepsRest(k: Kernel, c: nat, place: Place, t: Thread)
    requires Shaped(k) && c < |k.cpus|
    ensures Shaped(Move(k, c, place))
    ensures Places(Move(k, c, place), t) == Places(k, t) + HeldBy(t, place) - HeldBy(t, k.cpus[c])
    ensures IdleCount(Move(k, c, place)) == IdleCount(k) + IdleHeldBy(place) - IdleHeldBy(k.cpus[c])
  {
    SumUpdate(Holds(t), k.cpus, c, place);
    SumUpdate(HoldsIdle(), k.cpus, c, place);
  }

  lemma DispatchKeepsInv(k: Kernel, c: nat)
    requires Inv(k) && Enabled(k, c, Dispatch)
    ensures Inv(Apply(k, c, Dispatch))
  {
    var t := k.cpus[c].thread;
    var k' := Apply(k, c, Dispatch);
    forall u ensures LiveOnce(k', u) {
      assert LiveOnce(k, u);
      MoveKeepsRest(k, c, Running(t), u);
    }
    MoveKeepsRest(k, c, Running(t), t);
    assert forall i :: 0 <= i < 3 ==> Agrees(k.cpus[c], i, k.rings[i].pcs[c]);
  }

  lemma SwitchFromDeadKeepsInv(k: Kernel, c: nat)
    requires Inv(k) && Enabled(k, c, SwitchFromDead)
    ensures Inv(Apply(k, c, SwitchFromDead))
  {
    var t := k.cpus[c].current;
    var k' := Apply(k, c, SwitchFromDead);
    forall u ensures LiveOnce(k', u) {
      assert LiveOnce(k, u);
      MoveKeepsRest(k, c, Fetch(BLOCKED), u);
    }
    MoveKeepsRest(k, c, Fetch(BLOCKED), t);
    assert forall i :: 0 <= i < 3 ==> Agrees(k.cpus[c], i, k.rings[i].pcs[c]);
  }

  lemma InsertKeepsInv(k: Kernel, c: nat, t: Thread)
    requires Inv(k) && NoWrap(k) && Enabled(k, c, Insert(t))
    ensures Inv(Apply(k, c, Insert(t)))
  {
    hide TicketQueue.Inv, ThreadsBelong, Sum;
    var place := Put(NORMAL, k.cpus[c]);
    var k' := Apply(k, c, Insert(t));
    assert forall i :: 0 <= i < 3 ==> Agrees(k.cpus[c], i, k.rings[i].pcs[c]);
    AccessKeepsRings(k, c, NORMAL, EnqClaim(t), place);
    AccessKeepsAgreement(k, c, NORMAL, EnqClaim(t), place);
    AccessMovesIdle(k, c, NORMAL, EnqClaim(t), place);
    forall u ensures LiveOnce(k', u) {
      assert LiveOnce(k, u);
      AccessMovesThread(k, c, NORMAL, EnqClaim(t), place, u);
    }
  }

  lemma IdlePcKeepsRing(r: Ring)
    requires TicketQueue.Inv(r)
    ensures TicketQueue.Inv(WithIdlePc(r))
    ensures forall t :: Copies(WithIdlePc(r), t) == Copies(r, t)
    ensures Sum(Claims(), WithIdlePc(r).pcs) == Sum(Claims(), r.pcs)
  {
    var r' := WithIdlePc(r);
    forall t ensures Copies(r', t) == Copies(r, t) && Conserved(r', t) {
      SumAppend(Carries(t), r.pcs, Idle);
      assert Conserved(r, t);
    }
    forall s | 0 <= s < SLOT_COUNT ensures SlotBalanced(r', s) {
      assert SlotBalanced(r, s);
      SumAppend(EnqueuesOn(s), r.pcs, Idle);
      SumAppend(DequeuesOn(s), r.pcs, Idle);
    }
    SumAppend(Claims(), r.pcs, Idle);
  }

  lemma AddCpuKeepsRings(k: Kernel, t: Thread)
    requires Inv(k)
    ensures var k' := AddCpu(k, t);
      && Shaped(k')
      && (forall q :: 0 <= q < 3 ==> TicketQueue.Inv(k'.rings[q]) && ThreadsBelong(k'.rings[q], q))
      && CpusAgree(k')
      && IdleCount(k') == IdleCount(k) + IdleHeldBy(Running(t))
  {
    hide TicketQueue.Inv, Sum;
    var k' := AddCpu(k, t);
    forall q | 0 <= q < 3
      ensures TicketQueue.Inv(k'.rings[q]) && ThreadsBelong(k'.rings[q], q)
    {
      IdlePcKeepsRing(k.rings[q]);
      assert ThreadsBelong(k.rings[q], q);
      assert k'.rings[q] == WithIdlePc(k.rings[q]);
    }
    IdlePcKeepsRing(k.rings[IDLE]);
    SumAppend(HoldsIdle(), k.cpus, Running(t));
  }

  lemma AddCpuMovesThread(k: Kernel, t: Thread, u: Thread)
    requires Inv(k)
    ensures Shaped(AddCpu(k, t)) && Places(AddCpu(k, t), u) == Places(k, u) + HeldBy(u, Running(t))
  {
    AddCpuKeepsRings(k, t);
    SumAppend(Holds(u), k.cpus, Running(t));
    IdlePcKeepsRing(k.rings[0]);
    IdlePcKeepsRing(k.rings[1]);
    IdlePcKeepsRing(k.rings[2]);
  }

  lemma StartCpuKeepsInv(k: Kernel, c: nat, t: Thread)
    requires Inv(k) && Enabled(k, c, StartCpu(t))
    ensures Inv(Apply(k, c, StartCpu(t)))
  {
    hide TicketQueue.Inv, ThreadsBelong, Sum;
    var k' := Apply(k, c, StartCpu(t));
    AddCpuKeepsRings(k, t);
    assert Shaped(k');
    forall u ensures LiveOnce(k', u) {
      assert LiveOnce(k, u);
      AddCpuMovesThread(k, t, u);
      assert Places(k', u) == Places(AddCpu(k, t), u);
    }
    assert IdleCount(k') == IdleCount(AddCpu(k, t)) == |k'.cpus|;
    assert CpusAgree(k');
  }

  lemma StateChangeKeepsInv(k: Kernel, c: nat, s: ThreadState)
    requires Inv(k) && c < |k.cpus| && k.cpus[c].Running? && k.cpus[c].current in k.states
    requires k.cpus[c].current.priority.NormalPriority?
    ensures Inv(SetState(k, k.cpus[c].current, s))
  {
    forall u ensures LiveOnce(SetState(k, k.cpus[c].current, s), u) {
      assert LiveOnce(k, u);
    }
  }

  /** Every step of every processor keeps the invariant. */
  lemma KernelStepKeepsInv(k: Kernel, c: nat, e: Event)
    requires Inv(k) && NoWrap(k) && Enabled(k, c, e)
    ensures Inv(Apply(k, c, e))
  {
    match e
    case Switch => ClaimKeepsInv(k, c, QueueOf(k.cpus[c].current), k.cpus[c].current, Fetch(BLOCKED));
    case SwitchFromDead => SwitchFromDeadKeepsInv(k, c);
    case Store(a) => StoreKeepsInv(k, c, a);
    case Load(a) => LoadKeepsInv(k, c, a);
    case Unpark => ClaimKeepsInv(k, c, QueueOf(k.cpus[c].thread), k.cpus[c].thread, Fetch(BLOCKED));
    case Dispatch => DispatchKeepsInv(k, c);
    case Park => ParkKeepsInv(k, c);
    case Block => StateChangeKeepsInv(k, c, Blocked);
    case Kill => StateChangeKeepsInv(k, c, Dead);
    case Insert(t) => InsertKeepsInv(k, c, t);
    case StartCpu(t) => StartCpuKeepsInv(k, c, t);
  }

  lemma ParkKeepsInv(k: Kernel, c: nat)
    requires Inv(k) && NoWrap(k) && Enabled(k, c, Park)
    ensures Inv(Apply(k, c, Park))
  {
    var p := k.cpus[c];
    assert InRange(p);
    ClaimKeepsInv(k, c, BLOCKED, p.thread, Fetch(p.ring));
  }

  lemma KernelInitInv(k: Kernel)
    requires Init(k)
    ensures Inv(k)
  {
    forall q | 0 <= q < 3 ensures TicketQueue.Inv(k.rings[q]) {
      InitInv(k.rings[q]);
    }
    var t := k.cpus[0].current;
    assert k.cpus == [] + [Running(t)];
    SumAppend(HoldsIdle(), [], Running(t));
    SumZero(Claims(), k.rings[IDLE].pcs);
    forall u ensures LiveOnce(k, u) {
      SumAppend(Holds(u), [], Running(t));
      forall q | 0 <= q < 3 ensures Copies(k.rings[q], u) == 0 {
        SumZero(Carries(u), k.rings[q].pcs);
        SumZero(Stores(u), k.rings[q].slots);
      }
    }
  }

  // ----- whole runs -----

  ghost predicate Step(k: Kernel, k': Kernel) {
    Shaped(k) && exists c, e :: Enabled(k, c, e) && k' == Apply(k, c, e)
  }

  ghost predicate IsRun(run: seq<Kernel>) {
    && |run| > 0
    && Init(run[0])
    && (forall i :: 0 <= i < |run| ==> NoWrap(run[i]))
    && (forall i :: 0 < i < |run| ==> Step(run[i - 1], run[i]))
  }

  lemma {:induction false} KernelRunKeepsInv(run: seq<Kernel>, i: nat)
    requires IsRun(run) && i < |run|
    ensures Inv(run[i])
  {
    hide Inv, Init, NoWrap, Enabled, Apply;
    if i == 0 {
      KernelInitInv(run[0]);
    } else {
      KernelRunKeepsInv(run, i - 1);
      assert Step(run[i - 1], run[i]);
      var c, e :| Enabled(run[i - 1], c, e) && run[i] == Apply(run[i - 1], c, e);
      KernelStepKeepsInv(run[i - 1], c, e);
    }
  }

  /** In no interleaving does any processor run out of threads. */
  lemma NeverQueueEmpty(run: seq<Kernel>, i: nat, c: nat)
    requires IsRun(run) && i < |run| && c < |run[i].cpus|
    ensures run[i].cpus[c] != QueueEmpty
  {
    KernelRunKeepsInv(run, i);
  }

  /** In every interleaving every live thread is in exactly one place and a dead one in none: no
      thread runs on two processors, waits in two queues, or drops out of the scheduler. */
  lemma EveryThreadInOnePlace(run: seq<Kernel>, i: nat, t: Thread)
    requires IsRun(run) && i < |run|
    ensures Shaped(run[i])
    ensures Places(run[i], t) == if t in run[i].states then 1 else 0
  {
    KernelRunKeepsInv(run, i);
    assert LiveOnce(run[i], t);
  }

  lemma NoThreadRunsTwice(run: seq<Kernel>, i: nat, c: nat, d: nat)
    requires IsRun(run) && i < |run| && c < d < |run[i].cpus|
    requires run[i].cpus[c].Running? && run[i].cpus[d].Running?
    ensures run[i].cpus[c].current != run[i].cpus[d].current
  {
    var k := run[i];
    var t := k.cpus[c].current;
    EveryThreadInOnePlace(run, i, t);
    if k.cpus[d].current == t {
      var rest := k.cpus[d := Fetch(BLOCKED)];
      SumUpdate(Holds(t), k.cpus, d, Fetch(BLOCKED));
      SumAtLeast(Holds(t), rest, c);
      CopiesNonNegative(k.rings[0], t);
      CopiesNonNegative(k.rings[1], t);
      CopiesNonNegative(k.rings[2], t);
    }
  }

  lemma CopiesNonNegative(r: Ring, t: Thread)
    ensures Copies(r, t) >= 0
  {
    SumNonNegative(Carries(t), r.pcs);
    SumNonNegative(Stores(t), r.slots);
  }
}
