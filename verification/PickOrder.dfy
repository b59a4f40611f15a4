/** In which order `pick_next` (kernel/proc/scheduler.cc) goes through the queues, over whole runs.

    Everything here is read off two neighbouring states of a run of `SchedulerMachine`: where a
    processor stands, and how far its own `enqueue` or `dequeue` on a ring has come. */
module PickOrder {
  import opened SchedulerMachine
  import opened Sums
  import Tickets = TicketQueue

  predicate Present(k: Kernel, c: nat) {
    Shaped(k) && c < |k.cpus|
  }

  // The processor still has the thread that it last returned to; insert_thread does not change that.
  predicate HasThread(p: Place) {
    p.Running? || (p.Put? && p.after.Running?)
  }

  predicate Searches(k: Kernel, c: nat) {
    Present(k, c) && !HasThread(k.cpus[c])
  }

  // The processor is inside dequeue on ring q.
  predicate Dequeues(k: Kernel, c: nat, q: nat) {
    Present(k, c) && q < 3 && !k.rings[q].pcs[c].Idle? && !k.rings[q].pcs[c].EnqSpin?
  }

  // The processor's dequeue on ring q returns nothing, and every ticket of the ring is claimed.
  predicate FindsNone(k: Kernel, k': Kernel, c: nat, q: nat) {
    && Present(k, c) && Present(k', c) && q < 3
    && k.rings[q].pcs[c].DeqLoaded? && k'.rings[q].pcs[c].Idle?
    && k.rings[q].head == k.rings[q].tail
  }

  // The processor's dequeue on ring q returns thread t.
  predicate Takes(k: Kernel, k': Kernel, c: nat, q: nat, t: Tickets.Thread) {
    && Present(k, c) && Present(k', c) && q < 3
    && k.rings[q].pcs[c].DeqSpin? && k'.rings[q].pcs[c].Idle?
    && k.rings[q].slots[Tickets.Slot(k.rings[q].pcs[c].ticket)] == Some(t)
  }

  // The processor's enqueue on ring q claims a ticket for thread t.
  predicate Gives(k: Kernel, k': Kernel, c: nat, q: nat, t: Tickets.Thread) {
    && Present(k, c) && Present(k', c) && q < 3
    && k.rings[q].pcs[c].Idle?
    && k'.rings[q].pcs[c] == Tickets.EnqSpin(t, k.rings[q].head)
  }

  // ----- one step -----

  // The queue that a search has come to.
  function Reached(p: Place): nat {
    match p
    case Fetch(q) => q
    case Got(q, _) => q
    case Put(_, after) => if after.Fetch? then after.ring else IDLE
    case _ => IDLE
  }

  predicate Unmoved(k: Kernel, k': Kernel, c: nat) {
    && Present(k, c) && Present(k', c)
    && k'.cpus[c] == k.cpus[c]
    && forall q :: 0 <= q < 3 ==> k'.rings[q].pcs[c] == k.rings[q].pcs[c]
  }

  // A search goes on with the same queue, or with the next one after finding none in this one.
  predicate GoesOn(k: Kernel, k': Kernel, c: nat)
    requires Present(k, c) && Present(k', c)
  {
    var q, q' := Reached(k.cpus[c]), Reached(k'.cpus[c]);
    || q' == q
    || (FindsNone(k, k', c, q) && ((q == BLOCKED && q' == NORMAL) || (q == NORMAL && q' == IDLE)))
  }

  predicate Proceeds(k: Kernel, k': Kernel, c: nat) {
    && Present(k, c) && Present(k', c)
    && var p, p' := k.cpus[c], k'.cpus[c];
    && (HasThread(p) && !HasThread(p') ==>
          p.Running? && !p'.Got? && Reached(p') == BLOCKED && !Dequeues(k', c, BLOCKED))
    && (!HasThread(p) && HasThread(p') ==>
          p.Got? && p.ring != BLOCKED && p.ring == QueueOf(p.thread) && p' == Running(p.thread))
    && (!HasThread(p) && !HasThread(p') ==> GoesOn(k, k', c))
  }

  lemma OthersLeaveUnmoved(k: Kernel, d: nat, e: Event, c: nat)
    requires Present(k, c) && Enabled(k, d, e)
    requires c != d || e.StartCpu?
    ensures Unmoved(k, Apply(k, d, e), c)
  {
    if e.StartCpu? {
      StartLeavesUnmoved(k, e.thread, c);
    } else {
      hide Tickets.Apply, Tickets.Enabled;
      forall q: nat, a | RingEnabled(k, d, q, a)
        ensures forall place :: Unmoved(k, Access(k, d, q, a, place), c)
      {
        AccessLeavesUnmoved(k, d, q, a, c);
      }
    }
  }

  lemma AccessLeavesUnmoved(k: Kernel, d: nat, q: nat, a: Tickets.Action, c: nat)
    requires Present(k, c) && Present(k, d) && RingEnabled(k, d, q, a) && c != d
    ensures forall place :: Unmoved(k, Access(k, d, q, a, place), c)
  {
  }

  lemma StartLeavesUnmoved(k: Kernel, t: Tickets.Thread, c: nat)
    requires Present(k, c)
    ensures Unmoved(k, SetState(AddCpu(k, t), t, Tickets.Alive), c)
  {
  }

  // An empty-handed dequeue of the processor has found every ticket of the ring claimed.
  ghost predicate SeesTruly(k: Kernel, c: nat, e: Event)
    requires Present(k, c) && Enabled(k, c, e)
  {
    e == Load(Tickets.DeqEmpty) ==>
      var q := k.cpus[c].ring;
      q != IDLE && k.rings[q].head == k.rings[q].tail
  }

  lemma LoadProceeds(k: Kernel, c: nat, a: Tickets.Action)
    requires Present(k, c) && Enabled(k, c, Load(a)) && SeesTruly(k, c, Load(a)) && InRange(k.cpus[c])
    ensures Proceeds(k, Apply(k, c, Load(a)), c)
  {
    hide Tickets.FindsEmpty, Tickets.Counter;
  }

  lemma OtherProceeds(k: Kernel, c: nat, e: Event)
    requires Present(k, c) && Enabled(k, c, e) && !e.StartCpu? && !e.Load? && InRange(k.cpus[c])
    requires forall q :: 0 <= q < 3 ==> Agrees(k.cpus[c], q, k.rings[q].pcs[c])
    ensures Proceeds(k, Apply(k, c, e), c)
  {
    hide Tickets.FindsEmpty, Tickets.Counter;
    assert Agrees(k.cpus[c], BLOCKED, k.rings[BLOCKED].pcs[c]);
  }

  lemma EmptyIsTrue(k: Kernel, c: nat, e: Event)
    requires Inv(k) && NoWrap(k) && Present(k, c) && Enabled(k, c, e)
    ensures SeesTruly(k, c, e)
  {
    if e == Load(Tickets.DeqEmpty) {
      var q := k.cpus[c].ring;
      Tickets.NullMeansAllClaimed(k.rings[q], c);
      if q == IDLE {
        IdleQueueNeverLooksEmpty(k, c);
      }
    }
  }

  lemma PlaceAgrees(k: Kernel, c: nat)
    requires Inv(k) && c < |k.cpus|
    ensures Present(k, c) && InRange(k.cpus[c])
    ensures forall q :: 0 <= q < 3 ==> Agrees(k.cpus[c], q, k.rings[q].pcs[c])
  {
  }

  // What one step of any processor means for processor c.
  lemma StepProceeds(k: Kernel, k': Kernel, c: nat)
    requires Inv(k) && NoWrap(k) && Step(k, k') && c < |k.cpus|
    ensures Unmoved(k, k', c) || Proceeds(k, k', c)
  {
    hide Inv, NoWrap, Enabled, Apply;
    var d, e :| Enabled(k, d, e) && k' == Apply(k, d, e);
    if c == d && !e.StartCpu? {
      PlaceAgrees(k, c);
      EmptyIsTrue(k, c, e);
      if e.Load? {
        LoadProceeds(k, c, e.a);
      } else {
        OtherProceeds(k, c, e);
      }
    } else {
      OthersLeaveUnmoved(k, d, e, c);
    }
  }

  // ----- one search -----

  /** The processor leaves its thread at state i and searches up to and including state j. */
  ghost predicate IsSearch(run: seq<Kernel>, c: nat, i: nat, j: nat) {
    && IsRun(run) && i < j < |run|
    && Present(run[i], c) && HasThread(run[i].cpus[c])
    && forall m :: i < m <= j ==> Searches(run[m], c)
  }

  // No dequeue of the processor on ring q after state i up to state j.
  ghost predicate KeepsOff(run: seq<Kernel>, c: nat, q: nat, i: nat, j: nat) {
    forall m :: i < m <= j && m < |run| ==> !Dequeues(run[m], c, q)
  }

  /** At step b the processor finds none in ring q, and neither before nor at b does it dequeue on a
      ring that comes later, nor after b on ring q again. */
  ghost predicate LeavesAt(run: seq<Kernel>, c: nat, q: nat, i: nat, b: nat, j: nat) {
    && i < b < j < |run|
    && FindsNone(run[b], run[b + 1], c, q)
    && KeepsOff(run, c, q, b, j)
    && (q > IDLE ==> KeepsOff(run, c, IDLE, i, b))
    && (q > NORMAL ==> KeepsOff(run, c, NORMAL, i, b))
  }

  // What a search has behind it: b and n are the steps at which it left the blocked and the normal queue.
  ghost predicate Behind(run: seq<Kernel>, c: nat, i: nat, j: nat, b: nat, n: nat)
    requires IsSearch(run, c, i, j)
  {
    var q := Reached(run[j].cpus[c]);
    && q < 3
    && (q < BLOCKED ==> LeavesAt(run, c, BLOCKED, i, b, j))
    && (q < NORMAL ==> b < n && LeavesAt(run, c, NORMAL, i, n, j))
    && (q > IDLE ==> KeepsOff(run, c, IDLE, i, j))
    && (q > NORMAL ==> KeepsOff(run, c, NORMAL, i, j))
  }

  // A processor dequeues only on the ring that its search has come to.
  lemma DequeuesWhereReached(k: Kernel, c: nat)
    requires Inv(k) && Present(k, c)
    ensures Searches(k, c) ==> Reached(k.cpus[c]) < 3
    ensures forall q: nat :: Dequeues(k, c, q) ==> Searches(k, c) && Reached(k.cpus[c]) == q
  {
    PlaceAgrees(k, c);
    forall q: nat | Dequeues(k, c, q) ensures Searches(k, c) && Reached(k.cpus[c]) == q {
      assert Agrees(k.cpus[c], q, k.rings[q].pcs[c]);
    }
  }

  lemma RunProceeds(run: seq<Kernel>, c: nat, j: nat)
    requires IsRun(run) && 0 < j < |run| && Present(run[j - 1], c)
    ensures Unmoved(run[j - 1], run[j], c) || Proceeds(run[j - 1], run[j], c)
    ensures Searches(run[j], c) ==> Reached(run[j].cpus[c]) < 3
    ensures forall q: nat :: Dequeues(run[j], c, q) ==> Searches(run[j], c) && Reached(run[j].cpus[c]) == q
  {
    hide Inv, Init, Enabled, Apply, Unmoved, Proceeds;
    KernelRunKeepsInv(run, j - 1);
    KernelRunKeepsInv(run, j);
    assert NoWrap(run[j - 1]) && Step(run[j - 1], run[j]);
    StepProceeds(run[j - 1], run[j], c);
    assert Present(run[j], c) by { UnmovedOrProceeds(run[j - 1], run[j], c); }
    DequeuesWhereReached(run[j], c);
  }

  lemma UnmovedOrProceeds(k: Kernel, k': Kernel, c: nat)
    requires Unmoved(k, k', c) || Proceeds(k, k', c)
    ensures Present(k', c)
  {
  }

  lemma StaysOff(run: seq<Kernel>, c: nat, q: nat, i: nat, j: nat)
    requires i < j < |run| && KeepsOff(run, c, q, i, j - 1) && !Dequeues(run[j], c, q)
    ensures KeepsOff(run, c, q, i, j)
  {
  }

  lemma StillBehind(run: seq<Kernel>, c: nat, q: nat, i: nat, b: nat, j: nat)
    requires 0 < j < |run| && LeavesAt(run, c, q, i, b, j - 1) && !Dequeues(run[j], c, q)
    ensures b < j - 1 && LeavesAt(run, c, q, i, b, j)
  {
  }

  lemma {:induction false} SearchLeavesBehind(run: seq<Kernel>, c: nat, i: nat, j: nat) returns (b: nat, n: nat)
    requires IsSearch(run, c, i, j)
    ensures Behind(run, c, i, j, b, n)
  {
    hide IsRun, KeepsOff, LeavesAt, Dequeues, FindsNone;
    RunProceeds(run, c, j);
    if j == i + 1 {
      b, n := 0, 0;
      FirstKeepsOff(run, c, IDLE, i);
      FirstKeepsOff(run, c, NORMAL, i);
    } else {
      b, n := SearchLeavesBehind(run, c, i, j - 1);
      var was, now := Reached(run[j - 1].cpus[c]), Reached(run[j].cpus[c]);
      if now > IDLE { StaysOff(run, c, IDLE, i, j); }
      if now > NORMAL { StaysOff(run, c, NORMAL, i, j); }
      if was < BLOCKED { StillBehind(run, c, BLOCKED, i, b, j); }
      if was < NORMAL { StillBehind(run, c, NORMAL, i, n, j); }
      if now == NORMAL != was {
        b := j - 1;
        JustLeft(run, c, BLOCKED, i, j);
      } else if now == IDLE != was {
        n := j - 1;
        JustLeft(run, c, NORMAL, i, j);
      }
    }
  }

  lemma FirstKeepsOff(run: seq<Kernel>, c: nat, q: nat, i: nat)
    requires i + 1 < |run| && !Dequeues(run[i + 1], c, q)
    ensures KeepsOff(run, c, q, i, i + 1)
  {
  }

  lemma JustLeft(run: seq<Kernel>, c: nat, q: nat, i: nat, j: nat)
    requires i + 1 < j < |run| && FindsNone(run[j - 1], run[j], c, q)
    requires q > IDLE ==> KeepsOff(run, c, IDLE, i, j - 1)
    requires q > NORMAL ==> KeepsOff(run, c, NORMAL, i, j - 1)
    ensures LeavesAt(run, c, q, i, j - 1, j)
  {
  }

  /** A processor that leaves its thread at state i and returns from `pick_next` to the next one at
      state j has found the blocked queue without an unclaimed ticket first, at step b, with no dequeue
      on another queue before and none on the blocked queue after. If it returns to an idle thread, it
      has after that found the normal queue without an unclaimed ticket, at step n, with no dequeue on
      the idle queue before and none on the normal queue after. If it returns to a normal thread, it has
      not dequeued on the idle queue at all. */
  lemma QueuesInOrder(run: seq<Kernel>, c: nat, i: nat, j: nat) returns (b: nat, n: nat)
    requires i + 1 < j < |run| && IsSearch(run, c, i, j - 1)
    requires Present(run[j], c) && HasThread(run[j].cpus[c])
    ensures run[j].cpus[c].Running?
    ensures LeavesAt(run, c, BLOCKED, i, b, j)
    ensures run[j].cpus[c].current.priority.IdlePriority? ==> b < n && LeavesAt(run, c, NORMAL, i, n, j)
    ensures run[j].cpus[c].current.priority.NormalPriority? ==> KeepsOff(run, c, IDLE, i, j)
  {
    hide IsRun, KeepsOff, LeavesAt, Dequeues, FindsNone;
    RunProceeds(run, c, j);
    b, n := SearchLeavesBehind(run, c, i, j - 1);
    StillBehind(run, c, BLOCKED, i, b, j);
    if run[j].cpus[c].current.priority.IdlePriority? {
      StillBehind(run, c, NORMAL, i, n, j);
    } else {
      StaysOff(run, c, IDLE, i, j);
    }
  }

  // ----- what becomes of the threads that a search takes -----

  predicate IsAlive(k: Kernel, t: Tickets.Thread) {
    t in k.states && k.states[t] == Tickets.Alive
  }

  // A thread out of the blocked queue goes to the normal one; one out of another queue that is not
  // alive goes to the blocked queue.
  predicate PassesOn(k: Kernel, k': Kernel, c: nat, q: nat, t: Tickets.Thread) {
    if q == BLOCKED then Gives(k, k', c, NORMAL, t) else Gives(k, k', c, BLOCKED, t) && !IsAlive(k, t)
  }

  // What one step of processor c means for the thread in its hands.
  ghost predicate HandsOn(k: Kernel, k': Kernel, c: nat) {
    && Present(k, c) && Present(k', c)
    && var p, p' := k.cpus[c], k'.cpus[c];
    && (forall q: nat, t :: Takes(k, k', c, q, t) ==> p' == Got(q, t))
    && (p'.Got? && p' != p ==> Takes(k, k', c, p'.ring, p'.thread))
    && (p.Got? && p' != p ==>
          if p' == Running(p.thread) then IsAlive(k', p.thread) else PassesOn(k, k', c, p.ring, p.thread))
    && (p.Running? && !HasThread(p') ==>
          if p.current in k.states && k.states[p.current] == Tickets.Dead then p.current !in k'.states
          else Gives(k, k', c, if p.current.priority.IdlePriority? then IDLE else NORMAL, p.current))
  }

  lemma UnmovedHandsOn(k: Kernel, k': Kernel, c: nat)
    requires Unmoved(k, k', c)
    ensures HandsOn(k, k', c)
  {
  }

  lemma LoadHandsOn(k: Kernel, c: nat, a: Tickets.Action)
    requires Present(k, c) && Enabled(k, c, Load(a))
    requires forall q :: 0 <= q < 3 ==> Agrees(k.cpus[c], q, k.rings[q].pcs[c])
    ensures HandsOn(k, Apply(k, c, Load(a)), c)
  {
  }

  lemma OtherHandsOn(k: Kernel, c: nat, e: Event)
    requires Present(k, c) && Enabled(k, c, e) && !e.StartCpu? && !e.Load?
    requires InRange(k.cpus[c])
    requires forall q :: 0 <= q < 3 ==> Agrees(k.cpus[c], q, k.rings[q].pcs[c])
    ensures HandsOn(k, Apply(k, c, e), c)
  {
    assert forall q :: 0 <= q < 3 ==> !k.rings[q].pcs[c].DeqSpin?;
  }

  lemma RunHandsOn(run: seq<Kernel>, c: nat, j: nat)
    requires IsRun(run) && 0 < j < |run| && Present(run[j - 1], c)
    ensures HandsOn(run[j - 1], run[j], c)
  {
    hide Inv, Init, Enabled, Apply, Unmoved, HandsOn;
    var k, k' := run[j - 1], run[j];
    KernelRunKeepsInv(run, j - 1);
    assert Step(k, k');
    var d, e :| Enabled(k, d, e) && k' == Apply(k, d, e);
    if c == d && !e.StartCpu? {
      PlaceAgrees(k, c);
      if e.Load? {
        LoadHandsOn(k, c, e.a);
      } else {
        OtherHandsOn(k, c, e);
      }
    } else {
      OthersLeaveUnmoved(k, d, e, c);
      UnmovedHandsOn(k, k', c);
    }
  }

  /** The thread that a processor leaves goes into the queue of its priority, unless it is dead: then
      it is no longer one of the scheduler's threads. */
  lemma LeftThreadIsQueued(run: seq<Kernel>, c: nat, i: nat)
    requires IsSearch(run, c, i, i + 1)
    ensures run[i].cpus[c].Running?
    ensures var t := run[i].cpus[c].current;
      if t in run[i].states && run[i].states[t] == Tickets.Dead then t !in run[i + 1].states
      else Gives(run[i], run[i + 1], c, if t.priority.IdlePriority? then IDLE else NORMAL, t)
  {
    hide IsRun, Gives;
    RunProceeds(run, c, i + 1);
    RunHandsOn(run, c, i + 1);
  }

  ghost predicate GoneOn(run: seq<Kernel>, c: nat, q: nat, t: Tickets.Thread, x: nat, j: nat)
    requires j < |run|
  {
    exists y :: x < y < j && PassesOn(run[y], run[y + 1], c, q, t)
  }

  /** Every thread that a search takes out of a ring is the one that the processor has in its hands, or
      it has gone on: from the blocked queue to the normal one, from another queue, because it was not
      alive, to the blocked one. */
  lemma {:induction false} TakenGoesOn(run: seq<Kernel>, c: nat, i: nat, j: nat, x: nat, q: nat, t: Tickets.Thread)
    requires IsSearch(run, c, i, j) && i < x < j && Takes(run[x], run[x + 1], c, q, t)
    ensures run[j].cpus[c] == Got(q, t) || GoneOn(run, c, q, t, x, j)
    decreases j
  {
    hide IsRun, PassesOn, Takes;
    RunHandsOn(run, c, j);
    if x + 1 < j {
      TakenGoesOn(run, c, i, j - 1, x, q, t);
    }
  }

  /** A processor returns from `pick_next` to a living thread that this search took out of the queue of
      the thread's priority, at step x; every other thread that it took has gone on. */
  lemma ReturnedWasTaken(run: seq<Kernel>, c: nat, i: nat, j: nat) returns (x: nat)
    requires i + 1 < j < |run| && IsSearch(run, c, i, j - 1)
    requires Present(run[j], c) && HasThread(run[j].cpus[c])
    ensures run[j].cpus[c].Running? && i < x < j - 1
    ensures var t := run[j].cpus[c].current;
      && IsAlive(run[j], t)
      && Takes(run[x], run[x + 1], c, if t.priority.IdlePriority? then IDLE else NORMAL, t)
      && forall y, q: nat, u :: i < y < j - 1 && Takes(run[y], run[y + 1], c, q, u) ==>
           u == t || GoneOn(run, c, q, u, y, j)
  {
    hide IsRun, PassesOn, Takes;
    RunProceeds(run, c, j);
    RunHandsOn(run, c, j);
    x := LastTake(run, c, i, j - 1);
    forall y, q: nat, u | i < y < j - 1 && Takes(run[y], run[y + 1], c, q, u)
      ensures u == run[j].cpus[c].current || GoneOn(run, c, q, u, y, j)
    {
      TakenGoesOn(run, c, i, j - 1, y, q, u);
    }
  }

  lemma {:induction false} LastTake(run: seq<Kernel>, c: nat, i: nat, j: nat) returns (x: nat)
    requires IsSearch(run, c, i, j) && run[j].cpus[c].Got?
    ensures i < x < j && Takes(run[x], run[x + 1], c, run[j].cpus[c].ring, run[j].cpus[c].thread)
    decreases j
  {
    hide IsRun, PassesOn, Takes;
    RunHandsOn(run, c, j);
    RunProceeds(run, c, j);
    if run[j - 1].cpus[c] == run[j].cpus[c] {
      x := LastTake(run, c, i, j - 1);
    } else {
      x := j - 1;
    }
  }

  // ----- when the state of a thread changes -----

  /** A new thread starts alive, and only a thread that is current on a processor after the step has
      changed its state in the step: a thread that waits in a queue never does. */
  lemma StateChangesWhileCurrent(run: seq<Kernel>, j: nat, t: Tickets.Thread)
    requires IsRun(run) && 0 < j < |run| && t in run[j].states
    ensures t !in run[j - 1].states ==> run[j].states[t] == Tickets.Alive
    ensures t in run[j - 1].states && run[j].states[t] != run[j - 1].states[t] ==> Running(t) in run[j].cpus
  {
    hide Init, Inv, Tickets.Apply, Tickets.Enabled;
    assert Step(run[j - 1], run[j]);
    var c: nat, e :| Enabled(run[j - 1], c, e) && run[j] == Apply(run[j - 1], c, e);
    if e.Block? || e.Kill? || e.Dispatch? {
      assert run[j].cpus[c].Running?;
    }
  }

  // ----- no processor is stuck -----

  // A step of switch_next itself.
  predicate IsSwitchStep(e: Event) {
    !e.StartCpu? && !e.Insert? && !e.Block? && !e.Kill?
  }

  lemma HeldIsLive(k: Kernel, c: nat, t: Tickets.Thread)
    requires Inv(k) && c < |k.cpus|
    requires k.cpus[c] == Running(t) || (k.cpus[c].Got? && k.cpus[c].thread == t)
    ensures t in k.states
  {
    assert LiveOnce(k, t);
    SumAtLeast(Holds(t), k.cpus, c);
    CopiesNonNegative(k.rings[0], t);
    CopiesNonNegative(k.rings[1], t);
    CopiesNonNegative(k.rings[2], t);
  }

  /** In every state of every run each processor can make a step of `switch_next`: switch, go on with
      the ring operation it is in, or place the thread in its hands. A living thread in its hands that
      does not come from the blocked queue can be returned to. */
  lemma SwitchNeverStuck(run: seq<Kernel>, i: nat, c: nat)
    requires IsRun(run) && i < |run| && c < |run[i].cpus|
    ensures Shaped(run[i]) && exists e :: IsSwitchStep(e) && Enabled(run[i], c, e)
    ensures var p := run[i].cpus[c];
      p.Got? && p.ring != BLOCKED && IsAlive(run[i], p.thread) ==>
        exists k' :: Step(run[i], k') && k'.cpus == run[i].cpus[c := Running(p.thread)]
  {
    hide Inv, IsRun, HeldBy, Tickets.FindsEmpty, Tickets.Counter;
    KernelRunKeepsInv(run, i);
    var k := run[i];
    var p := k.cpus[c];
    PlaceAgrees(k, c);
    match p
    case Running(t) =>
      HeldIsLive(k, c, t);
      assert Enabled(k, c, Switch) || Enabled(k, c, SwitchFromDead);
    case Put(q, _) =>
      assert Enabled(k, c, Store(Tickets.EnqStore)) || Enabled(k, c, Store(Tickets.EnqRetry));
    case Fetch(q) => FetchNeverStuck(k, c);
    case Got(q, t) =>
      HeldIsLive(k, c, t);
      assert Enabled(k, c, Unpark) || Enabled(k, c, Dispatch) || Enabled(k, c, Park);
      if q != BLOCKED && IsAlive(k, t) {
        assert Step(k, Apply(k, c, Dispatch));
      }
  }

  lemma FetchNeverStuck(k: Kernel, c: nat)
    requires Present(k, c) && k.cpus[c].Fetch? && InRange(k.cpus[c])
    requires Agrees(k.cpus[c], k.cpus[c].ring, k.rings[k.cpus[c].ring].pcs[c])
    ensures exists a :: Enabled(k, c, Load(a))
  {
    match k.rings[k.cpus[c].ring].pcs[c]
    case Idle => assert Enabled(k, c, Load(Tickets.DeqLoadTail));
    case DeqLoaded(_) =>
      assert Enabled(k, c, Load(Tickets.DeqEmpty)) || Enabled(k, c, Load(Tickets.DeqNonEmpty));
    case DeqChecked(_) =>
      assert Enabled(k, c, Load(Tickets.DeqClaim)) || Enabled(k, c, Load(Tickets.DeqStale));
    case DeqSpin(_) =>
      assert Enabled(k, c, Load(Tickets.DeqTake)) || Enabled(k, c, Load(Tickets.DeqRetry));
  }
}
