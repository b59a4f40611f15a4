/** How often `switch_next` deletes a dead thread (kernel/proc/scheduler.cc): it tests the thread that it
    leaves twice, before it is requeued and after the next one has been picked. */
module DeadThreads {
  import opened SchedulerMachine
  import opened Sums
  import opened TicketQueue

  /** The kernel with the thread that each processor has left and not yet tested again. For a thread that
      died, `late` is the number of processors that had requeued it alive and not yet tested it again. */
  datatype Tracked = Tracked(
    k: Kernel,
    previous: seq<Option<Thread>>,
    late: map<Thread, nat>,
    deleted: multiset<Thread>)

  datatype Deed =
    | Does(event: Event)
    | Finish              // the second test, after which the picked thread runs

  // Events of a thread that runs.
  predicate OfRunning(e: Event) { e.Switch? || e.SwitchFromDead? || e.Block? || e.Kill? || e.Insert? }

  predicate Leaves(e: Event) { e.Switch? || e.SwitchFromDead? }

  predicate CanDo(x: Tracked, c: nat, d: Deed) {
    && Shaped(x.k) && |x.previous| == |x.k.cpus|
    && match d
       case Does(e) =>
         && SchedulerMachine.Enabled(x.k, c, e)
         && (e.Insert? || e.StartCpu? ==> e.thread !in x.late)
         && (OfRunning(e) ==> x.previous[c].None?)
       case Finish => c < |x.k.cpus| && x.k.cpus[c].Running? && x.previous[c].Some?
  }

  function Was(t: Thread): Option<Thread> -> int {
    (o: Option<Thread>) => if o == Some(t) then 1 else 0
  }

  // How many processors have left t and not tested it again.
  function Pending(x: Tracked, t: Thread): (n: nat) {
    SumNonNegative(Was(t), x.previous);
    Sum(Was(t), x.previous)
  }

  function Do(x: Tracked, c: nat, d: Deed): Tracked
    requires CanDo(x, c, d)
  {
    match d
    case Does(e) =>
      var t := if OfRunning(e) then Some(x.k.cpus[c].current) else None;
      x.(k := SchedulerMachine.Apply(x.k, c, e),
         previous := if Leaves(e) then x.previous[c := t] else if e.StartCpu? then x.previous + [None] else x.previous,
         late := if e.Kill? && t.value !in x.late then x.late[t.value := Pending(x, t.value)] else x.late)
    case Finish =>
      var t := x.previous[c].value;
      x.(previous := x.previous[c := None], deleted := if t in x.late then x.deleted + multiset{t} else x.deleted)
  }

  // ----- the account of deletions -----

  // A dead thread that has not been left yet.
  function Owed(x: Tracked, t: Thread): nat { if t in x.late && t in x.k.states then 1 else 0 }

  /** A thread that died is deleted once by its own processor, and once more by each that was late. */
  ghost predicate Accounted(x: Tracked, t: Thread) {
    if t in x.late then x.deleted[t] + Pending(x, t) + Owed(x, t) == 1 + x.late[t] else x.deleted[t] == 0
  }

  ghost predicate Tidy(x: Tracked) {
    && SchedulerMachine.Inv(x.k) && |x.previous| == |x.k.cpus|
    && (forall t :: t in x.k.states ==> (x.k.states[t] == Dead <==> t in x.late))
    && (forall t :: Accounted(x, t))
  }

  ghost predicate Boots(x: Tracked) {
    SchedulerMachine.Init(x.k) && x.previous == [None] && x.late == map[] && x.deleted == multiset{}
  }

  lemma BootsTidy(x: Tracked)
    requires Boots(x)
    ensures Tidy(x)
  {
    KernelInitInv(x.k);
  }

  lemma DeedKeepsTidy(x: Tracked, c: nat, d: Deed)
    requires Tidy(x) && SchedulerMachine.NoWrap(x.k) && CanDo(x, c, d)
    ensures Tidy(Do(x, c, d))
  {
    hide SchedulerMachine.Inv, SchedulerMachine.NoWrap, Sum;
    var x' := Do(x, c, d);
    if d.Does? {
      KernelStepKeepsInv(x.k, c, d.event);
    }
    forall t ensures Accounted(x', t) {
      assert Accounted(x, t);
      if d.Finish? || Leaves(d.event) {
        SumUpdate(Was(t), x.previous, c, x'.previous[c]);
      } else if d.event.StartCpu? {
        SumAppend(Was(t), x.previous, None);
      }
    }
  }

  // ----- whole runs -----

  ghost predicate Follows(x: Tracked, x': Tracked) {
    exists c, d :: CanDo(x, c, d) && x' == Do(x, c, d)
  }

  ghost predicate IsTrackedRun(run: seq<Tracked>) {
    && |run| > 0 && Boots(run[0])
    && (forall i :: 0 <= i < |run| ==> SchedulerMachine.NoWrap(run[i].k))
    && (forall i :: 0 < i < |run| ==> Follows(run[i - 1], run[i]))
  }

  lemma {:induction false} RunKeepsTidy(run: seq<Tracked>, i: nat)
    requires IsTrackedRun(run) && i < |run|
    ensures Tidy(run[i])
  {
    hide Tidy, Boots, SchedulerMachine.NoWrap, CanDo, Do;
    if i == 0 {
      BootsTidy(run[0]);
    } else {
      RunKeepsTidy(run, i - 1);
      assert Follows(run[i - 1], run[i]);
      var c, d :| CanDo(run[i - 1], c, d) && run[i] == Do(run[i - 1], c, d);
      DeedKeepsTidy(run[i - 1], c, d);
    }
  }

  /** In every interleaving no living thread is deleted, and a dead one that no processor has still to test
      has been deleted exactly once if and only if, when it died, no other processor stood between
      requeuing it and testing it again; each that did deletes it once more. */
  lemma DeletedOnceIff(run: seq<Tracked>, i: nat, t: Thread)
    requires IsTrackedRun(run) && i < |run|
    ensures t !in run[i].late ==> run[i].deleted[t] == 0
    ensures t in run[i].late && t !in run[i].k.states && Pending(run[i], t) == 0 ==>
      run[i].deleted[t] == 1 + run[i].late[t] && (run[i].deleted[t] == 1 <==> run[i].late[t] == 0)
    ensures t in run[i].late ==> run[i].deleted[t] <= 1 + run[i].late[t]
  {
    RunKeepsTidy(run, i);
    assert Accounted(run[i], t);
  }

  /** What `late` counts: the processors that have left the thread and not tested it again at its death. */
  lemma LateIsKnownAtDeath(x: Tracked, c: nat)
    requires Tidy(x) && CanDo(x, c, Does(Kill)) && x.k.states[x.k.cpus[c].current] != Dead
    ensures var t := x.k.cpus[c].current;
      Do(x, c, Does(Kill)).late == x.late[t := Pending(x, t)] && t !in x.late
  {
  }
}
