/** One processor: the ring as the object it is, `pick_next` and `switch_next` as the loops they
    are (kernel/proc/scheduler.cc), and how long a runnable thread can wait.

    With one processor no enqueue or dequeue is interrupted by another, so each exchange on a
    slot succeeds at once as long as at most 1024 threads exist. */
module RoundRobin {
  import opened Arithmetic
  import opened TicketQueue

  class Thread {
    const priority: Priority
    var state: ThreadState

    constructor (priority: Priority)
      ensures this.priority == priority && state == Alive
    {
      this.priority := priority;
      state := Alive;
    }

    /** `shouldUnblock` is what the thread's blocker answers at this moment. */
    method TryUnblock(shouldUnblock: bool)
      modifies this
      ensures state == if old(state) == Blocked && shouldUnblock then Alive else old(state)
    {
      if state != Blocked {
        return;
      }
      if shouldUnblock {
        state := Alive;
      }
    }
  }

  // The slot of the i-th queued thread when the tail counter is `tail`.
  function Place(tail: nat, i: nat): nat { (tail + i) % SLOT_COUNT }

  lemma PlaceInjective(tail: nat, i: nat, j: nat)
    requires i < SLOT_COUNT && j < SLOT_COUNT && Place(tail, i) == Place(tail, j)
    ensures i == j
  {
  }

  // What the i-th slot after the tail holds.
  function Expected(contents: seq<Thread>, i: nat): Thread? {
    if i < |contents| then contents[i] else null
  }

  // The first n slots after the tail hold the queued threads in order and then nothing.
  ghost predicate Matches(slots: seq<Thread?>, tail: nat, contents: seq<Thread>, n: nat)
    requires |slots| == SLOT_COUNT
  {
    n == 0 || (slots[Place(tail, n - 1)] == Expected(contents, n - 1) && Matches(slots, tail, contents, n - 1))
  }

  lemma {:induction false} MatchesAt(slots: seq<Thread?>, tail: nat, contents: seq<Thread>, n: nat, i: nat)
    requires |slots| == SLOT_COUNT && i < n && Matches(slots, tail, contents, n)
    ensures slots[Place(tail, i)] == Expected(contents, i)
  {
    if i < n - 1 {
      MatchesAt(slots, tail, contents, n - 1, i);
    }
  }

  lemma {:induction false} MatchesIntro(slots: seq<Thread?>, tail: nat, contents: seq<Thread>, n: nat)
    requires |slots| == SLOT_COUNT
    requires forall i :: 0 <= i < n ==> slots[Place(tail, i)] == Expected(contents, i)
    ensures Matches(slots, tail, contents, n)
  {
    if n > 0 {
      MatchesIntro(slots, tail, contents, n - 1);
    }
  }

  lemma StoreMatches(slots: seq<Thread?>, tail: nat, contents: seq<Thread>, thread: Thread)
    requires |slots| == SLOT_COUNT && |contents| < SLOT_COUNT && Matches(slots, tail, contents, SLOT_COUNT)
    ensures slots[Place(tail, |contents|)] == null
    ensures Matches(slots[Place(tail, |contents|) := thread], tail, contents + [thread], SLOT_COUNT)
  {
    var slots', contents' := slots[Place(tail, |contents|) := thread], contents + [thread];
    MatchesAt(slots, tail, contents, SLOT_COUNT, |contents|);
    forall i | 0 <= i < SLOT_COUNT ensures slots'[Place(tail, i)] == Expected(contents', i) {
      MatchesAt(slots, tail, contents, SLOT_COUNT, i);
      if Place(tail, i) == Place(tail, |contents|) {
        PlaceInjective(tail, i, |contents|);
      }
    }
    MatchesIntro(slots', tail, contents', SLOT_COUNT);
  }

  lemma NextPlace(tail: nat, i: nat)
    requires i < SLOT_COUNT
    ensures Place((tail + 1) % WRAP, i) == Place(tail, i + 1)
    ensures i == SLOT_COUNT - 1 ==> Place(tail, i + 1) == Place(tail, 0)
  {
    WrapKeepsSlot(tail + 1);
    ModAdd((tail + 1) % WRAP, tail + 1, i, SLOT_COUNT);
    ModStep(tail, SLOT_COUNT);
  }

  // The counter's wrap-around does not disturb the slots.
  lemma WrapKeepsSlot(x: nat)
    ensures x % WRAP % SLOT_COUNT == x % SLOT_COUNT
  {
    ModOfMod(x, SLOT_COUNT, WRAP / SLOT_COUNT);
  }

  lemma TakeMatches(slots: seq<Thread?>, tail: nat, contents: seq<Thread>)
    requires |slots| == SLOT_COUNT && 0 < |contents| <= SLOT_COUNT && Matches(slots, tail, contents, SLOT_COUNT)
    ensures slots[Place(tail, 0)] == contents[0]
    ensures Matches(slots[Place(tail, 0) := null], (tail + 1) % WRAP, contents[1..], SLOT_COUNT)
  {
    var slots', tail' := slots[Place(tail, 0) := null], (tail + 1) % WRAP;
    MatchesAt(slots, tail, contents, SLOT_COUNT, 0);
    forall i | 0 <= i < SLOT_COUNT ensures slots'[Place(tail', i)] == Expected(contents[1..], i) {
      NextPlace(tail, i);
      if i + 1 < SLOT_COUNT {
        MatchesAt(slots, tail, contents, SLOT_COUNT, i + 1);
        if Place(tail, i + 1) == Place(tail, 0) {
          PlaceInjective(tail, i + 1, 0);
        }
      }
    }
    MatchesIntro(slots', tail', contents[1..], SLOT_COUNT);
  }

  class PriorityQueue {
    const slots: array<Thread?>
    var head: nat
    var tail: nat
    ghost var contents: seq<Thread>

    ghost predicate Valid()
      reads this, slots
    {
      && slots.Length == SLOT_COUNT
      && tail < WRAP
      && |contents| <= SLOT_COUNT
      && head == (tail + |contents|) % WRAP
      && Matches(slots[..], tail, contents, SLOT_COUNT)
    }

    constructor ()
      ensures Valid() && contents == [] && fresh(slots)
    {
      slots := new Thread?[SLOT_COUNT](_ => null);
      head, tail := 0, 0;
      contents := [];
      new;
      MatchesIntro(slots[..], tail, contents, SLOT_COUNT);
    }

    method Enqueue(thread: Thread)
      requires Valid() && |contents| < SLOT_COUNT
      modifies this, slots
      ensures Valid() && contents == old(contents) + [thread]
    {
      hide Matches;
      var ticket := head;
      WrapKeepsSlot(tail + |contents|);
      NextHead(tail + |contents|);
      head := (head + 1) % WRAP;
      StoreMatches(slots[..], tail, contents, thread);
      assert slots[..][ticket % SLOT_COUNT] == null;  // the exchange succeeds at once
      ghost var before := slots[..];
      slots[ticket % SLOT_COUNT] := thread;
      assert slots[..] == before[ticket % SLOT_COUNT := thread];
      contents := contents + [thread];
    }

    method Dequeue() returns (thread: Thread?)
      requires Valid()
      modifies this, slots
      ensures Valid()
      ensures old(contents) == [] ==> thread == null && contents == []
      ensures old(contents) != [] ==> thread == old(contents)[0] && contents == old(contents)[1..]
    {
      hide Matches;
      LengthIsDistance(head, tail, |contents|);
      if SignedDifference(head, tail) <= 0 {
        return null;
      }
      var ticket := tail;
      TakeMatches(slots[..], tail, contents);
      assert ticket % SLOT_COUNT == Place(tail, 0);
      ghost var before := slots[..];
      thread := slots[ticket % SLOT_COUNT];
      slots[ticket % SLOT_COUNT] := null;
      assert slots[..] == before[Place(tail, 0) := null];
      NextDistance(tail, |contents|);
      tail := (tail + 1) % WRAP;
      contents := contents[1..];
    }
  }

  lemma NextHead(x: nat)
    ensures (x % WRAP + 1) % WRAP == (x + 1) % WRAP
  {
    ModOfMod(x, WRAP, 1);
    ModAdd(x % WRAP, x, 1, WRAP);
  }

  // The guard of dequeue sees the length.
  lemma LengthIsDistance(head: nat, tail: nat, length: nat)
    requires tail < WRAP && length <= SLOT_COUNT && head == (tail + length) % WRAP
    ensures SignedDifference(head, tail) == length
  {
  }

  lemma NextDistance(tail: nat, length: nat)
    requires tail < WRAP && 0 < length <= SLOT_COUNT
    ensures (tail + length) % WRAP == ((tail + 1) % WRAP + (length - 1)) % WRAP
  {
  }

  // ----- what one call of switch_next does, on values -----

  /** The scheduler as a reader sees it: the current thread and the three queues in order. */
  datatype View = View(current: Thread, blocked: seq<Thread>, normal: seq<Thread>, idle: seq<Thread>)

  function OfPriority(s: seq<Thread>, p: Priority): seq<Thread> {
    if s == [] then [] else OfPriority(s[..|s| - 1], p) + if s[|s| - 1].priority == p then [s[|s| - 1]] else []
  }

  lemma NoneOfPriority(p: Priority)
    ensures OfPriority([], p) == []
  {
  }

  lemma OfPriorityNext(s: seq<Thread>, k: nat, p: Priority)
    requires k < |s|
    ensures OfPriority(s[..k + 1], p) == OfPriority(s[..k], p) + if s[k].priority == p then [s[k]] else []
  {
    assert s[..k + 1][..k] == s[..k];
  }

  // The position of the first ready thread, or the length if there is none.
  function FirstReady(s: seq<Thread>, ready: set<Thread>): (i: nat)
    ensures i <= |s|
    ensures i < |s| ==> s[i] in ready
    ensures forall j :: 0 <= j < i ==> s[j] !in ready
  {
    if s == [] || s[0] in ready then 0 else 1 + FirstReady(s[1..], ready)
  }

  // The current thread goes to the back of its queue unless it is dead.
  function Requeued(v: View, dead: bool): View {
    if dead then v
    else if v.current.priority.IdlePriority? then v.(idle := v.idle + [v.current])
    else v.(normal := v.normal + [v.current])
  }

  // The blocked queue is emptied into the other two.
  function Drained(v: View): View {
    v.(blocked := [],
       normal := v.normal + OfPriority(v.blocked, NormalPriority),
       idle := v.idle + OfPriority(v.blocked, IdlePriority))
  }

  predicate CanPick(v: View, ready: set<Thread>) {
    FirstReady(v.normal, ready) < |v.normal| || FirstReady(v.idle, ready) < |v.idle|
  }

  // The first ready thread is taken, normal threads first; the ones passed over are parked.
  function Picked(v: View, ready: set<Thread>): View
    requires CanPick(v, ready)
  {
    var i, j := FirstReady(v.normal, ready), FirstReady(v.idle, ready);
    if i < |v.normal| then
      View(v.normal[i], v.blocked + v.normal[..i], v.normal[i + 1..], v.idle)
    else
      View(v.idle[j], v.blocked + v.normal + v.idle[..j], [], v.idle[j + 1..])
  }

  ghost function Queued(v: View): multiset<Thread> {
    multiset(v.blocked) + multiset(v.normal) + multiset(v.idle)
  }

  ghost function Everyone(v: View): multiset<Thread> {
    Queued(v) + multiset{v.current}
  }

  // Idle threads wait only in the idle queue, normal threads only in the other two.
  ghost predicate Sorted(v: View) {
    && (forall t :: t in v.blocked ==> t.priority == NormalPriority)
    && (forall t :: t in v.normal ==> t.priority == NormalPriority)
    && (forall t :: t in v.idle ==> t.priority == IdlePriority)
  }

  predicate Ready(t: Thread, unblock: set<Thread>)
    reads t
  {
    t.state == Alive || (t.state == Blocked && t in unblock)
  }

  lemma {:induction false} OfPriorityUniform(s: seq<Thread>, p: Priority)
    requires forall t :: t in s ==> t.priority == p
    ensures OfPriority(s, p) == s
    ensures forall q :: q != p ==> OfPriority(s, q) == []
  {
    if s != [] {
      OfPriorityUniform(s[..|s| - 1], p);
    }
  }

  lemma DrainKeepsThreads(v: View)
    requires Sorted(v)
    ensures Drained(v) == v.(blocked := [], normal := v.normal + v.blocked)
    ensures Sorted(Drained(v)) && Queued(Drained(v)) == Queued(v)
  {
    OfPriorityUniform(v.blocked, NormalPriority);
    assert v.idle + [] == v.idle;
  }

  lemma RequeueKeepsThreads(v: View)
    requires Sorted(v)
    ensures Sorted(Requeued(v, false)) && Queued(Requeued(v, false)) == Everyone(v)
  {
  }

  lemma SplitAt(s: seq<Thread>, i: nat)
    requires i < |s|
    ensures multiset(s) == multiset(s[..i]) + multiset{s[i]} + multiset(s[i + 1..])
  {
    assert s == s[..i] + [s[i]] + s[i + 1..];
  }

  /** Picking hands out one thread and keeps all the others queued. */
  lemma PickKeepsThreads(v: View, ready: set<Thread>)
    requires Sorted(v) && CanPick(v, ready)
    requires forall t :: t in v.idle ==> t in ready
    ensures Sorted(Picked(v, ready)) && Everyone(Picked(v, ready)) == Queued(v)
    ensures Picked(v, ready).current in ready
  {
    hide FirstReady, Queued, Everyone, Sorted;
    PickedSorted(v, ready);
    var i := FirstReady(v.normal, ready);
    if i < |v.normal| {
      NormalTaken(v, i);
    } else {
      assert v.idle != [] && v.idle[0] in v.idle && FirstReady(v.idle, ready) == 0;
      IdleTaken(v);
    }
  }

  lemma PickedSorted(v: View, ready: set<Thread>)
    requires Sorted(v) && CanPick(v, ready)
    requires forall t :: t in v.idle ==> t in ready
    ensures Sorted(Picked(v, ready)) && Picked(v, ready).current in ready
  {
    hide FirstReady;
  }

  lemma NormalTaken(v: View, i: nat)
    requires i < |v.normal|
    ensures Everyone(View(v.normal[i], v.blocked + v.normal[..i], v.normal[i + 1..], v.idle)) == Queued(v)
  {
    SplitAt(v.normal, i);
  }

  lemma IdleTaken(v: View)
    requires v.idle != []
    ensures Everyone(View(v.idle[0], v.blocked + v.normal + v.idle[..0], [], v.idle[1..])) == Queued(v)
  {
    SplitAt(v.idle, 0);
    assert v.blocked + v.normal + v.idle[..0] == v.blocked + v.normal;
  }

  // The inner loop of pick_next on one queue: pass over threads that stay blocked, parking them.
  method Scan(queue: PriorityQueue, parked: PriorityQueue, unblock: set<Thread>, ghost ready: set<Thread>)
      returns (next: Thread?)
    requires queue != parked && queue.slots != parked.slots && queue.Valid() && parked.Valid()
    requires |parked.contents| + |queue.contents| <= SLOT_COUNT
    requires forall t :: t in queue.contents ==> (t in ready <==> Ready(t, unblock))
    modifies parked, parked.slots, queue, queue.slots, queue.contents
    ensures queue.Valid() && parked.Valid()
    ensures var n := old(queue.contents); var i := FirstReady(n, ready);
      && parked.contents == old(parked.contents) + n[..i]
      && (if i < |n| then next == n[i] && queue.contents == n[i + 1..] else next == null && queue.contents == [])
    ensures forall t :: t in old(queue.contents) && t != next ==> t.state == old(t.state)
    ensures next != null ==> next.state == Alive
  {
    hide PriorityQueue.Valid, FirstReady;
    ghost var n, p := queue.contents, parked.contents;
    ghost var last := FirstReady(n, ready);
    ghost var k := 0;
    while true
      invariant queue.Valid() && parked.Valid()
      invariant 0 <= k <= last
      invariant queue.contents == n[k..]
      invariant parked.contents == p + n[..k]
      invariant forall t :: t in n ==> t.state == old(t.state)
      decreases |n| - k
    {
      next := queue.Dequeue();
      if next == null {
        return;
      }
      assert next == n[k];
      next.TryUnblock(next in unblock);
      if next.state == Alive {
        return;
      }
      parked.Enqueue(next);
      k := k + 1;
    }
  }

  // ----- the scheduler object -----

  class Scheduler {
    const blocked: PriorityQueue
    const normal: PriorityQueue
    const idle: PriorityQueue
    var current: Thread

    ghost function Footprint(): set<object>
      reads this
    {
      {this, blocked, normal, idle, blocked.slots, normal.slots, idle.slots}
    }

    ghost predicate QueuesValid()
      reads Footprint()
    {
      && blocked != normal && blocked != idle && normal != idle
      && blocked.slots != normal.slots && blocked.slots != idle.slots && normal.slots != idle.slots
      && blocked.Valid() && normal.Valid() && idle.Valid()
    }

    ghost function Now(): View
      reads Footprint()
    {
      View(current, blocked.contents, normal.contents, idle.contents)
    }

    ghost predicate Holds(all: set<Thread>)
      reads Footprint()
    {
      && current in all
      && (forall t :: t in blocked.contents ==> t in all)
      && (forall t :: t in normal.contents ==> t in all)
      && (forall t :: t in idle.contents ==> t in all)
    }

    constructor (base: Thread)
      requires base.priority == IdlePriority && base.state == Alive
      ensures QueuesValid() && fresh(Footprint())
      ensures Now() == View(base, [], [], [])
    {
      blocked := new PriorityQueue();
      normal := new PriorityQueue();
      idle := new PriorityQueue();
      current := base;
    }

    // The first loop of pick_next.
    method Drain()
      requires QueuesValid() && |blocked.contents| + |normal.contents| + |idle.contents| <= SLOT_COUNT
      modifies blocked, blocked.slots, normal, normal.slots, idle, idle.slots
      ensures QueuesValid()
      ensures Now() == Drained(old(Now()))
    {
      hide PriorityQueue.Valid, OfPriority;
      ghost var b, v := blocked.contents, Now();
      ghost var k := 0;
      NoneOfPriority(NormalPriority);
      NoneOfPriority(IdlePriority);
      while true
        invariant QueuesValid()
        invariant 0 <= k <= |b|
        invariant blocked.contents == b[k..]
        invariant normal.contents == v.normal + OfPriority(b[..k], NormalPriority)
        invariant idle.contents == v.idle + OfPriority(b[..k], IdlePriority)
        invariant |blocked.contents| + |normal.contents| + |idle.contents| <= SLOT_COUNT
        decreases |b| - k
      {
        var thread := blocked.Dequeue();
        if thread == null {
          assert b[..k] == b;
          return;
        }
        OfPriorityNext(b, k, NormalPriority);
        OfPriorityNext(b, k, IdlePriority);
        if thread.priority == IdlePriority {
          idle.Enqueue(thread);
        } else {
          normal.Enqueue(thread);
        }
        k := k + 1;
      }
    }

    // The second loop of pick_next: the normal queue and then the idle queue.
    method ScanQueues(unblock: set<Thread>, ghost ready: set<Thread>, ghost all: set<Thread>) returns (next: Thread)
      requires QueuesValid() && |blocked.contents| + |normal.contents| + |idle.contents| <= SLOT_COUNT
      requires forall t :: t in normal.contents || t in idle.contents ==> t in all
      requires forall t :: t in all ==> (t in ready <==> Ready(t, unblock))
      requires CanPick(Now(), ready)
      modifies blocked, blocked.slots, normal, normal.slots, idle, idle.slots, all
      ensures QueuesValid()
      ensures Now().(current := next) == Picked(old(Now()), ready)
      ensures next in all && next in ready && next.state == Alive
      ensures forall t :: t in all && t != next ==> t.state == old(t.state)
    {
      ghost var n := normal.contents;
      var found := Scan(normal, blocked, unblock, ready);
      if found == null {
        assert n[..|n|] == n;
        found := Scan(idle, blocked, unblock, ready);
      }
      next := found;
    }

    /** pick_next, when some queued thread is ready; `ready` says which of the threads are alive
        or have a blocker that lets go. */
    method PickNext(unblock: set<Thread>, ghost ready: set<Thread>, ghost all: set<Thread>) returns (next: Thread)
      requires QueuesValid() && |blocked.contents| + |normal.contents| + |idle.contents| <= SLOT_COUNT
      requires Sorted(Now())
      requires forall t :: t in blocked.contents || t in normal.contents || t in idle.contents ==> t in all
      requires forall t :: t in all ==> (t in ready <==> Ready(t, unblock))
      requires CanPick(Drained(Now()), ready)
      modifies blocked, blocked.slots, normal, normal.slots, idle, idle.slots, all
      ensures QueuesValid()
      ensures Now().(current := next) == Picked(Drained(old(Now())), ready)
      ensures next in all && next in ready && next.state == Alive
      ensures forall t :: t in all && t != next ==> t.state == old(t.state)
    {
      DrainKeepsThreads(Now());
      Drain();
      next := ScanQueues(unblock, ready, all);
    }

    method Requeue()
      requires QueuesValid() && |normal.contents| < SLOT_COUNT && |idle.contents| < SLOT_COUNT
      modifies normal, normal.slots, idle, idle.slots
      ensures QueuesValid()
      ensures Now() == Requeued(old(Now()), false)
    {
      if current.priority == IdlePriority {
        idle.Enqueue(current);
      } else {
        normal.Enqueue(current);
      }
    }

    /** switch_next: the whole effect of one call. `unblock` are the threads whose blockers let go
        during the call, and `all` any set that contains the threads the scheduler knows. A thread that
        died is deleted. */
    method SwitchNext(unblock: set<Thread>, ghost all: set<Thread>) returns (deleted: Thread?)
      requires QueuesValid() && |blocked.contents| + |normal.contents| + |idle.contents| < SLOT_COUNT
      requires Sorted(Now()) && Holds(all)
      requires CanPick(Drained(Requeued(Now(), current.state == Dead)), ReadySet(all, unblock))
      modifies Footprint(), all
      ensures QueuesValid()
      ensures Now() == Switched(old(Now()), old(current.state) == Dead, old(ReadySet(all, unblock)))
      ensures current in all && current.state == Alive
      ensures forall t :: t in all && t != current ==> t.state == old(t.state)
      ensures deleted == if old(current.state) == Dead then old(current) else null
    {
      hide PriorityQueue.Valid, Sorted, CanPick, Drained;
      var previous := current;
      ghost var v, dead, ready := Now(), current.state == Dead, ReadySet(all, unblock);
      if current.state != Dead {
        Requeue();
      }
      SortedRequeue(v, dead);
      var next := PickNext(unblock, ready, all);
      DrainKeepsThreads(Requeued(v, dead));
      deleted := if previous.state == Dead then previous else null;
      current := next;
    }

    /** insert_thread: idle threads are not queued. */
    method InsertThread(thread: Thread)
      requires QueuesValid() && |normal.contents| < SLOT_COUNT
      modifies normal, normal.slots
      ensures QueuesValid()
      ensures Now() == Inserted(old(Now()), thread)
      ensures Queued(Now()) ==
        if thread.priority == IdlePriority then Queued(old(Now())) else Queued(old(Now())) + multiset{thread}
    {
      if thread.priority != IdlePriority {
        normal.Enqueue(thread);
      }
    }
  }

  ghost function ReadySet(all: set<Thread>, unblock: set<Thread>): set<Thread>
    reads all
  {
    set t | t in all && Ready(t, unblock)
  }

  lemma SortedRequeue(v: View, dead: bool)
    requires Sorted(v)
    ensures Sorted(Requeued(v, dead))
  {
  }

  ghost function Switched(v: View, dead: bool, ready: set<Thread>): View
    requires CanPick(Drained(Requeued(v, dead)), ready)
  {
    Picked(Drained(Requeued(v, dead)), ready)
  }

  ghost function Inserted(v: View, t: Thread): View {
    if t.priority == IdlePriority then v else v.(normal := v.normal + [t])
  }

  // After the first part of switch_next the queues hold all live threads but a dead current one.
  lemma LeaveKeepsThreads(v: View, dead: bool, live: set<Thread>)
    requires Sorted(v) && Everyone(v) == multiset(live)
    ensures Sorted(Requeued(v, dead))
    ensures Queued(Requeued(v, dead)) == multiset(if dead then live - {v.current} else live)
  {
    RequeueKeepsThreads(v);
    assert multiset(live)[v.current] == 1;
    if dead {
      assert Queued(v) == multiset(live) - multiset{v.current};
      assert multiset(live - {v.current}) == multiset(live) - multiset{v.current};
    }
  }

  // A waiting idle thread is in the idle queue.
  lemma SomeoneToPick(v: View, ready: set<Thread>, waiting: set<Thread>)
    requires Sorted(v) && Queued(v) == multiset(waiting)
    requires forall t :: t in waiting && t.priority == IdlePriority ==> t in ready
    requires exists t :: t in waiting && t.priority == IdlePriority
    ensures CanPick(Drained(v), ready)
    ensures forall t :: t in Drained(v).idle ==> t in ready
    ensures forall t :: t in v.blocked || t in v.normal || t in v.idle ==> t in waiting
    ensures |v.blocked| + |v.normal| + |v.idle| == |waiting|
  {
    DrainKeepsThreads(v);
    forall t | t in v.blocked || t in v.normal || t in v.idle ensures t in waiting {
      assert t in Queued(v);
    }
    var t :| t in waiting && t.priority == IdlePriority;
    assert t in Queued(v);
    assert t in v.idle;
    assert |Queued(v)| == |waiting|;
  }

  lemma SwitchKeepsThreads(v: View, dead: bool, ready: set<Thread>, live: set<Thread>)
    requires Sorted(v) && Everyone(v) == multiset(live)
    requires forall t :: t in live && t.priority == IdlePriority ==> t in ready
    requires exists t :: t in live && t.priority == IdlePriority
    requires dead ==> v.current.priority == NormalPriority
    ensures var w := Requeued(v, dead);
      var waiting := if dead then live - {v.current} else live;
      && Sorted(w) && CanPick(Drained(w), ready)
      && (forall t :: t in w.blocked || t in w.normal || t in w.idle ==> t in waiting)
      && |w.blocked| + |w.normal| + |w.idle| == |waiting| <= |live|
      && |v.blocked| + |v.normal| + |v.idle| == |live| - 1
      && Sorted(Switched(v, dead, ready)) && Everyone(Switched(v, dead, ready)) == multiset(waiting)
      && exists t :: t in waiting && t.priority == IdlePriority
  {
    var w := Requeued(v, dead);
    var waiting := if dead then live - {v.current} else live;
    assert |Everyone(v)| == |live|;
    assert exists t :: t in waiting && t.priority == IdlePriority by {
      var t :| t in live && t.priority == IdlePriority;
      assert t in waiting;
    }
    LeaveKeepsThreads(v, dead, live);
    SomeoneToPick(w, ready, waiting);
    DrainKeepsThreads(w);
    PickKeepsThreads(Drained(w), ready);
  }

  lemma InsertKeepsThreads(v: View, thread: Thread, live: set<Thread>)
    requires Sorted(v) && Everyone(v) == multiset(live)
    requires thread !in live && thread.priority == NormalPriority
    ensures Sorted(Inserted(v, thread)) && Everyone(Inserted(v, thread)) == multiset(live + {thread})
    ensures |v.normal| < |live| && |live + {thread}| == |live| + 1
  {
    assert |Everyone(v)| == |live|;
    assert multiset(v.normal + [thread]) == multiset(v.normal) + multiset{thread};
    assert Everyone(Inserted(v, thread)) == Everyone(v) + multiset{thread};
    assert multiset(live + {thread}) == multiset(live) + multiset{thread};
  }

  // ----- how long a runnable thread waits -----

  /** What can happen to the queues: a call of switch_next, or the insertion of a new thread. Blocking
      and dying change a thread's own state only, which shows in `dead` and `ready`: idle threads
      never block and never die. */
  datatype Happening = Switching(dead: bool, ready: set<Thread>) | Inserting(thread: Thread)

  ghost predicate IdlesReady(live: set<Thread>, ready: set<Thread>) {
    forall t :: t in live && t.priority == IdlePriority ==> t in ready
  }

  /** The threads that exist, and the scheduler's view of them. */
  datatype Snapshot = Snapshot(live: set<Thread>, view: View)

  ghost predicate Happens(s: Snapshot, h: Happening, s': Snapshot) {
    var v := s.view;
    match h
    case Switching(dead, ready) =>
      && IdlesReady(s.live, ready)
      && (dead ==> v.current.priority == NormalPriority && v.current !in ready)
      && s'.live == (if dead then s.live - {v.current} else s.live)
      && (CanPick(Drained(Requeued(v, dead)), ready) ==> s'.view == Switched(v, dead, ready))
    case Inserting(t) =>
      t !in s.live && t.priority == NormalPriority && s' == Snapshot(s.live + {t}, Inserted(v, t))
  }

  /** Every live thread is the current one or in exactly one queue, once. */
  ghost predicate Accounted(s: Snapshot) {
    && Sorted(s.view)
    && Everyone(s.view) == multiset(s.live)
    && exists t :: t in s.live && t.priority == IdlePriority
  }

  ghost predicate IsHistory(ss: seq<Snapshot>, hs: seq<Happening>) {
    && |ss| == |hs| + 1
    && Accounted(ss[0])
    && forall i :: 0 <= i < |hs| ==> Happens(ss[i], hs[i], ss[i + 1])
  }

  lemma HappeningKeepsAccount(s: Snapshot, h: Happening, s': Snapshot)
    requires Accounted(s) && Happens(s, h, s')
    ensures Accounted(s')
    ensures h.Switching? ==> CanPick(Drained(Requeued(s.view, h.dead)), h.ready)
  {
    match h
    case Switching(dead, ready) => SwitchKeepsThreads(s.view, dead, ready, s.live);
    case Inserting(t) => InsertKeepsThreads(s.view, t, s.live);
  }

  /** Over every run, each live thread is current or in exactly one queue, and pick_next always
      finds a thread. */
  lemma {:induction false} RunAccountsForThreads(ss: seq<Snapshot>, hs: seq<Happening>, i: nat)
    requires IsHistory(ss, hs) && i < |ss|
    ensures Accounted(ss[i])
    ensures i < |hs| && hs[i].Switching? ==> CanPick(Drained(Requeued(ss[i].view, hs[i].dead)), hs[i].ready)
  {
    if i > 0 {
      RunAccountsForThreads(ss, hs, i - 1);
      HappeningKeepsAccount(ss[i - 1], hs[i - 1], ss[i]);
    }
    if i < |hs| {
      HappeningKeepsAccount(ss[i], hs[i], ss[i + 1]);
    }
  }

  function Switches(hs: seq<Happening>): nat {
    if hs == [] then 0 else (if hs[0].Switching? then 1 else 0) + Switches(hs[1..])
  }

  /** The line in which normal threads wait: the normal queue, the current thread and the parked ones. */
  function Line(v: View): seq<Thread> {
    v.normal + (if v.current.priority == NormalPriority then [v.current] else []) + v.blocked
  }

  /** Every normal thread stands in the line. */
  lemma EveryoneInLine(s: Snapshot, t: Thread) returns (k: nat)
    requires Accounted(s) && t in s.live && t.priority == NormalPriority
    ensures k < |Line(s.view)| && Line(s.view)[k] == t
  {
    assert t in Everyone(s.view);
    assert t in s.view.normal || t == s.view.current || t in s.view.blocked;
    assert t in Line(s.view);
    k :| 0 <= k < |Line(s.view)| && Line(s.view)[k] == t;
  }

  // Requeuing and draining put the line into the normal queue, less a current thread that died.
  lemma LineMovesUp(v: View, dead: bool, k: nat) returns (j: nat)
    requires Sorted(v) && k < |Line(v)| && (dead ==> Line(v)[k] != v.current)
    ensures var w := Drained(Requeued(v, dead)); j <= k && j < |w.normal| && w.normal[j] == Line(v)[k]
  {
    SortedRequeue(v, dead);
    DrainKeepsThreads(Requeued(v, dead));
    j := if dead && k > |v.normal| && v.current.priority == NormalPriority then k - 1 else k;
  }

  // One call either dispatches the thread at position k or leaves it nearer to the front.
  lemma SwitchAdvances(v: View, dead: bool, ready: set<Thread>, k: nat)
    requires Sorted(v) && CanPick(Drained(Requeued(v, dead)), ready)
    requires k < |Line(v)| && Line(v)[k] in ready && (dead ==> v.current !in ready)
    ensures var v' := Switched(v, dead, ready);
      v'.current == Line(v)[k] || exists j :: 0 <= j < k && j < |v'.normal| && v'.normal[j] == Line(v)[k]
  {
    var w := Drained(Requeued(v, dead));
    var l := LineMovesUp(v, dead, k);
    var i := FirstReady(w.normal, ready);
    assert i <= l;
    if i < l {
      assert Switched(v, dead, ready).normal[l - i - 1] == Line(v)[k];
    }
  }

  // A new thread comes in behind the normal queue.
  lemma InsertInLine(v: View, t: Thread, k: nat)
    requires t.priority == NormalPriority && k < |Line(v)|
    ensures var j := if k < |v.normal| then k else k + 1;
      j < |Line(Inserted(v, t))| && Line(Inserted(v, t))[j] == Line(v)[k]
  {
  }

  lemma HappeningAdvances(s: Snapshot, h: Happening, s': Snapshot, k: nat) returns (j: nat)
    requires Accounted(s) && Happens(s, h, s')
    requires k < |Line(s.view)| && (h.Switching? ==> Line(s.view)[k] in h.ready)
    ensures h.Switching? ==>
      || s'.view.current == Line(s.view)[k]
      || (j < k && j < |s'.view.normal| && j < |Line(s'.view)| && Line(s'.view)[j] == Line(s.view)[k])
    ensures h.Inserting? ==>
      && j == (if k < |s.view.normal| then k else k + 1) && (j < |s'.view.normal| <==> k < |s.view.normal|)
      && j < |Line(s'.view)| && Line(s'.view)[j] == Line(s.view)[k]
  {
    hide Sorted, Everyone, Requeued, Drained, CanPick, Switched;
    j := 0;
    if h.Switching? {
      HappeningKeepsAccount(s, h, s');
      SwitchAdvances(s.view, h.dead, h.ready, k);
      if s'.view.current != Line(s.view)[k] {
        j :| 0 <= j < k && j < |s'.view.normal| && s'.view.normal[j] == Line(s.view)[k];
      }
    } else {
      InsertInLine(s.view, h.thread, k);
      j := if k < |s.view.normal| then k else k + 1;
    }
  }

  // The threads that come in before the next call of switch_next.
  function Arrivals(hs: seq<Happening>): nat {
    if hs == [] || hs[0].Switching? then 0 else 1 + Arrivals(hs[1..])
  }

  /** How many threads are or will be ahead: a thread in the normal queue is overtaken by nobody, one that
      runs or is parked also waits for those that are inserted before the next call. */
  function Ahead(v: View, hs: seq<Happening>, k: nat): nat {
    if k < |v.normal| then k else k + Arrivals(hs)
  }

  // After step i the thread runs, i steps after the start and within the given number of calls.
  ghost predicate RunsAt(ss: seq<Snapshot>, hs: seq<Happening>, t: Thread, calls: nat, i: nat) {
    0 < i < |ss| == |hs| + 1 && hs[i - 1].Switching? && ss[i].view.current == t && Switches(hs[..i]) <= calls
  }

  lemma RunTail(ss: seq<Snapshot>, hs: seq<Happening>)
    requires IsHistory(ss, hs) && |hs| > 0
    ensures |ss| == |hs| + 1 && Happens(ss[0], hs[0], ss[1]) && IsHistory(ss[1..], hs[1..])
  {
    assert Happens(ss[0], hs[0], ss[1]);
    HappeningKeepsAccount(ss[0], hs[0], ss[1]);
  }

  lemma RunsAtOnce(ss: seq<Snapshot>, hs: seq<Happening>, t: Thread, calls: nat)
    requires |hs| > 0 && |ss| == |hs| + 1 && hs[0].Switching? && ss[1].view.current == t && calls > 0
    ensures RunsAt(ss, hs, t, calls, 1)
  {
    assert hs[..1] == [hs[0]] && Switches(hs[..1][1..]) == 0;
  }

  lemma LaterStep(ss: seq<Snapshot>, hs: seq<Happening>, t: Thread, calls: nat, i: nat, more: nat)
    requires |hs| > 0 && |ss| == |hs| + 1 && RunsAt(ss[1..], hs[1..], t, calls, i)
    requires calls + (if hs[0].Switching? then 1 else 0) <= more
    ensures RunsAt(ss, hs, t, more, i + 1)
  {
    assert hs[..i + 1][1..] == hs[1..][..i];
  }

  /** A runnable normal thread, wherever it stands in the line, is dispatched within one call of
      switch_next more than there are threads ahead of it, whatever is inserted, blocks, dies or unblocks
      meanwhile. */
  lemma {:induction false} DispatchedWithinKPlusOne(ss: seq<Snapshot>, hs: seq<Happening>, t: Thread, k: nat)
      returns (i: nat)
    requires IsHistory(ss, hs)
    requires k < |Line(ss[0].view)| && Line(ss[0].view)[k] == t
    requires forall i :: 0 <= i < |hs| && hs[i].Switching? ==> t in hs[i].ready
    requires Switches(hs) >= Ahead(ss[0].view, hs, k) + 1
    ensures RunsAt(ss, hs, t, Ahead(ss[0].view, hs, k) + 1, i)
    decreases |hs|
  {
    hide Line, IsHistory, RunsAt;
    RunTail(ss, hs);
    assert Accounted(ss[0]) by { RunAccountsForThreads(ss, hs, 0); }
    var j := HappeningAdvances(ss[0], hs[0], ss[1], k);
    if hs[0].Switching? && ss[1].view.current == t {
      i := 1;
      RunsAtOnce(ss, hs, t, Ahead(ss[0].view, hs, k) + 1);
    } else {
      i := DispatchedWithinKPlusOne(ss[1..], hs[1..], t, j);
      LaterStep(ss, hs, t, Ahead(ss[1].view, hs[1..], j) + 1, i, Ahead(ss[0].view, hs, k) + 1);
      i := i + 1;
    }
  }

  /** Every live normal thread that stays runnable comes to run. */
  lemma EveryRunnableThreadRuns(ss: seq<Snapshot>, hs: seq<Happening>, t: Thread) returns (k: nat, i: nat)
    requires IsHistory(ss, hs) && t in ss[0].live && t.priority == NormalPriority
    requires forall i :: 0 <= i < |hs| && hs[i].Switching? ==> t in hs[i].ready
    ensures k < |Line(ss[0].view)| && Line(ss[0].view)[k] == t
    ensures Switches(hs) > Ahead(ss[0].view, hs, k) ==> RunsAt(ss, hs, t, Ahead(ss[0].view, hs, k) + 1, i)
  {
    hide Line, RunsAt;
    k := EveryoneInLine(ss[0], t);
    i := 0;
    if Switches(hs) > Ahead(ss[0].view, hs, k) {
      i := DispatchedWithinKPlusOne(ss, hs, t, k);
    }
  }

  // ----- the object over whole runs -----

  lemma LongerRun(ss: seq<Snapshot>, hs: seq<Happening>, h: Happening, s: Snapshot)
    requires IsHistory(ss, hs) && Happens(ss[|ss| - 1], h, s)
    ensures IsHistory(ss + [s], hs + [h])
  {
    var ss', hs' := ss + [s], hs + [h];
    forall i | 0 <= i < |hs'| ensures Happens(ss'[i], hs'[i], ss'[i + 1]) {
    }
  }

  // Before a switch: what switch_next requires, and what it makes of the state.
  lemma SwitchAllowed(s: Snapshot, dead: bool, ready: set<Thread>)
    requires Accounted(s) && IdlesReady(s.live, ready)
    requires dead ==> s.view.current.priority == NormalPriority && s.view.current !in ready
    ensures var v := s.view;
      && Sorted(v) && |v.blocked| + |v.normal| + |v.idle| < |s.live|
      && CanPick(Drained(Requeued(v, dead)), ready)
      && Happens(s, Switching(dead, ready),
                 Snapshot(if dead then s.live - {v.current} else s.live, Switched(v, dead, ready)))
  {
    SwitchKeepsThreads(s.view, dead, ready, s.live);
  }

  lemma NoLarger(live: set<Thread>, left: set<Thread>)
    requires left <= live
    ensures |left| <= |live|
  {
    assert |live - left| == |live| - |left|;
  }

  lemma InsertedSize(live: set<Thread>, t: Thread)
    requires t !in live
    ensures |live + {t}| == |live| + 1
  {
  }

  /** A scheduler in use: threads run, block, die and come in, and timer interrupts switch. What happened
      to its queues so far is a run, of which the scheduler's own state is the last one. */
  class Processor {
    const scheduler: Scheduler
    ghost var live: set<Thread>
    ghost var ss: seq<Snapshot>
    ghost var hs: seq<Happening>

    ghost predicate Valid()
      reads this, scheduler, scheduler.Footprint(), live
    {
      && scheduler.QueuesValid() && |live| <= SLOT_COUNT
      && IsHistory(ss, hs) && |ss| == |hs| + 1 && ss[|hs|] == Snapshot(live, scheduler.Now())
      && (forall t :: t in live && t.priority == IdlePriority ==> t.state == Alive)
      && (forall t :: t in live && t != scheduler.current ==> t.state != Dead)
    }

    constructor (base: Thread)
      requires base.priority == IdlePriority && base.state == Alive
      ensures Valid() && fresh(scheduler) && fresh(scheduler.Footprint()) && live == {base} && hs == []
    {
      scheduler := new Scheduler(base);
      live := {base};
      ss := [Snapshot({base}, View(base, [], [], []))];
      hs := [];
    }

    /** switch_next: it always finds a thread. */
    method Switch(unblock: set<Thread>) returns (deleted: Thread?)
      requires Valid()
      modifies this`live, this`ss, this`hs, scheduler.Footprint(), live
      ensures Valid() && scheduler.current.state == Alive
      ensures hs == old(hs) + [Switching(old(scheduler.current.state) == Dead, old(ReadySet(live, unblock)))]
      ensures ss == old(ss) + [Snapshot(live, scheduler.Now())]
      ensures live == old(live) - {deleted}
      ensures deleted == if old(scheduler.current.state) == Dead then old(scheduler.current) else null
    {
      hide Scheduler.QueuesValid, IsHistory, Sorted, Accounted, CanPick, Happens, Requeued, Drained, Switched;
      ghost var s, dead, ready := ss[|hs|], scheduler.current.state == Dead, ReadySet(live, unblock);
      RunAccountsForThreads(ss, hs, |hs|);
      KnownThreads(s);
      SwitchAllowed(s, dead, ready);
      deleted := scheduler.SwitchNext(unblock, live);
      ghost var left := if dead then s.live - {s.view.current} else s.live;
      assert left == s.live - {deleted};
      NoLarger(s.live, left);
      Record(Switching(dead, ready), left);
    }

    ghost method Record(h: Happening, left: set<Thread>)
      requires IsHistory(ss, hs) && |ss| == |hs| + 1 && Happens(ss[|hs|], h, Snapshot(left, scheduler.Now()))
      requires scheduler.QueuesValid()
      modifies this`live, this`ss, this`hs
      ensures scheduler.QueuesValid() && IsHistory(ss, hs) && live == left
      ensures ss == old(ss) + [Snapshot(left, scheduler.Now())] && hs == old(hs) + [h]
    {
      hide Happens;
      LongerRun(ss, hs, h, Snapshot(left, scheduler.Now()));
      live, ss, hs := left, ss + [Snapshot(left, scheduler.Now())], hs + [h];
    }

    /** insert_thread, with room for at most 1024 threads. */
    method Insert(thread: Thread)
      requires Valid() && thread !in live && thread.priority == NormalPriority && thread.state == Alive
      requires |live| < SLOT_COUNT
      modifies this`live, this`ss, this`hs, scheduler.Footprint()
      ensures Valid() && live == old(live) + {thread} && hs == old(hs) + [Inserting(thread)]
    {
      hide Scheduler.QueuesValid, IsHistory, Sorted, Accounted;
      RunAccountsForThreads(ss, hs, |hs|);
      KnownThreads(ss[|hs|]);
      InsertedSize(live, thread);
      scheduler.InsertThread(thread);
      Record(Inserting(thread), live + {thread});
    }

    /** The current thread blocks. */
    method Block()
      requires Valid() && scheduler.current.priority == NormalPriority && scheduler.current.state != Blocked
      modifies scheduler.current
      ensures Valid() && scheduler.current.state == Blocked
    {
      scheduler.current.state := Blocked;
    }

    /** The current thread dies. */
    method Kill()
      requires Valid() && scheduler.current.priority == NormalPriority
      modifies scheduler.current
      ensures Valid() && scheduler.current.state == Dead
    {
      scheduler.current.state := Dead;
    }
  }

  lemma KnownThreads(s: Snapshot)
    requires Accounted(s)
    ensures s.view.current in s.live && |s.view.normal| < |s.live|
    ensures forall t :: t in s.view.blocked || t in s.view.normal || t in s.view.idle ==> t in s.live
  {
    assert s.view.current in Everyone(s.view);
    assert |Everyone(s.view)| == |s.live|;
    forall t | t in s.view.blocked || t in s.view.normal || t in s.view.idle ensures t in s.live {
      assert t in Everyone(s.view);
    }
  }
}
