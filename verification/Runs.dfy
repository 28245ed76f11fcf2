/** Runs: any interleaving of legal steps from the state that JRT_KernelInit leaves behind. */
module Runs {
  import opened Types
  import opened Graph
  import opened TaskTable
  import opened Machine
  import opened WaitInvariant
  import opened MutexInvariant
  import opened QueueInvariant
  import opened WakeupInvariant
  import opened TimerInvariant
  import opened TimeInvariant
  import opened Checker
  import Inh = Inheritance
  import Scheduler

  // ---- the invariant of every run ----

  ghost predicate Inv(s: State) {
    Sane(s) && LockInv(s) && QueuesOk(s) && WaitersOk(s) && TimersOk(s) && MutexListOk(s) && DeadlinesOk(s)
  }

  lemma StepKeepsInv(s: State, step: Step)
    requires Inv(s) && Legal(s, step)
    ensures Inv(Next(s, step).0)
  {
    hide TasksOk, MutexesOk, QueuesOk, WaitersOk, TimersOk, MutexListOk, DeadlinesOk, Next;
    NonNegative(s);
    StepSane(s, step);
    StepKeepsLocks(s, step);
    StepKeepsQueues(s, step);
    StepKeepsWaiters(s, step);
    StepKeepsTimers(s, step);
    StepKeepsList(s, step);
    StepKeepsDeadlines(s, step);
  }

  lemma InvWf(s: State)
    requires Inv(s)
    ensures Wf(s) && TasksOk(s)
  {}

  ghost predicate LegalRun(s: State, steps: seq<Step>)
    decreases |steps|
  {
    steps == [] || (Wf(s) && Legal(s, steps[0]) && LegalRun(Next(s, steps[0]).0, steps[1..]))
  }

  ghost function Run(s: State, steps: seq<Step>): State
    requires LegalRun(s, steps)
    decreases |steps|
  {
    if steps == [] then s else Run(Next(s, steps[0]).0, steps[1..])
  }

  lemma {:induction false} RunKeepsInv(s: State, steps: seq<Step>)
    requires Inv(s) && LegalRun(s, steps)
    ensures Inv(Run(s, steps))
    decreases |steps|
  {
    if steps != [] {
      StepKeepsInv(s, steps[0]);
      RunKeepsInv(Next(s, steps[0]).0, steps[1..]);
    }
  }

  // ---- the state after initialization ----

  function FreshTask(priority: int): Task {
    Task(Ready, 0, priority, priority, NullObject, NoWait, 0, 0, false, false, 0, 0, false, false, NoCall)
  }

  /** Task 0 is RUNNING whatever its priority, the timer service is BLOCKED, idle has priority 0. */
  function BootTasks(priorities: seq<Word>, servicePriority: Word): (r: seq<Task>)
    requires |priorities| >= 1
    ensures |r| == |priorities| + 2
  {
    var apps := seq(|priorities|, i requires 0 <= i < |priorities| => FreshTask(priorities[i]));
    var service := WaitBegin(FreshTask(servicePriority), ServiceRef, ServiceWait, MakeDeadline(0, WAIT_FOREVER),
        NoCall);
    apps[0 := apps[0].(state := Running)] + [service, FreshTask(0)]
  }

  /** How many objects of each class the application's static storage holds. */
  datatype Pools = Pools(mutexes: nat, semaphores: nat, queues: nat, groups: nat, timers: nat)

  /** Static storage is zero, so no object is linked or usable before its create call. */
  function Boot(priorities: seq<Word>, servicePriority: Word, pools: Pools): State
    requires |priorities| >= 1
  {
    State(0, 0, |priorities|, false, BootTasks(priorities, servicePriority),
      seq(pools.mutexes, _ => Mutex(false, 0, 0, -1)), -1,
      seq(pools.semaphores, _ => false),
      seq(pools.queues, _ => Queue([], 0, 0, 0, 0, 0, 0, 0)),
      seq(pools.groups, _ => 0),
      seq(pools.timers, _ => Timer(0, 0, 0, 0, false, false, 0, 0, -1)), -1)
  }

  lemma BootTaskAt(priorities: seq<Word>, servicePriority: Word, i: nat)
    requires |priorities| >= 1 && i < |priorities| + 2
    ensures
      var t := BootTasks(priorities, servicePriority)[i];
      && t.call.NoCall? && t.priority == t.basePriority >= 0 && t.notification == 0
      && (if i < |priorities| then t == FreshTask(priorities[i]).(state := if i == 0 then Running else Ready)
          else if i == |priorities| then ServiceBlocked(t) && t.waitForever
          else t == FreshTask(0))
  {}

  lemma BootSane(priorities: seq<Word>, servicePriority: Word, pools: Pools)
    requires 1 <= |priorities| < NO_OWNER - 2
    ensures var s := Boot(priorities, servicePriority, pools);
      Sane(s) && DeadlinesOk(s) && TimersOk(s) && MutexListOk(s)
  {
    var s := Boot(priorities, servicePriority, pools);
    forall i | 0 <= i < |s.tasks|
        ensures TaskOk(s, i, s.tasks[i]) && CallInRange(s, s.tasks[i].call) && !TimedOut(s.tasks[i], s.Now()) {
      BootTaskAt(priorities, servicePriority, i);
    }
    assert MutexLinks(s.mutexes) == seq(pools.mutexes, _ => -1);
  }

  lemma BootLocks(priorities: seq<Word>, servicePriority: Word, pools: Pools)
    requires 1 <= |priorities| < NO_OWNER - 2
    ensures var s := Boot(priorities, servicePriority, pools); LockInv(s) && PrioritiesExact(s)
  {
    var s := Boot(priorities, servicePriority, pools);
    BootSane(priorities, servicePriority, pools);
    forall i | 0 <= i < |s.tasks|
      ensures LockPhaseOf(s.tasks[i]) == Aside && s.tasks[i].priority == s.tasks[i].basePriority >= 0
              && Edges(s)[i] == -1
    {
      BootTaskAt(priorities, servicePriority, i);
    }
  }

  lemma BootQueues(priorities: seq<Word>, servicePriority: Word, pools: Pools)
    requires 1 <= |priorities| < NO_OWNER - 2
    ensures var s := Boot(priorities, servicePriority, pools); QueuesOk(s) && WaitersOk(s)
  {
    var s := Boot(priorities, servicePriority, pools);
    BootSane(priorities, servicePriority, pools);
    NobodyCalls(s);
    forall q | 0 <= q < |s.queues| ensures Balanced(s.tasks, s.queues[q], q, 0, 0) {
      TallyNone(s.tasks, HoldsSlot(q), |s.tasks|);
      TallyNone(s.tasks, HoldsItem(q), |s.tasks|);
    }
  }

  lemma BootInv(priorities: seq<Word>, servicePriority: Word, pools: Pools)
    requires 1 <= |priorities| < NO_OWNER - 2
    ensures Inv(Boot(priorities, servicePriority, pools)) && PrioritiesExact(Boot(priorities, servicePriority, pools))
  {
    BootSane(priorities, servicePriority, pools);
    BootLocks(priorities, servicePriority, pools);
    BootQueues(priorities, servicePriority, pools);
  }

  // ---- the runtime checker ----

  /** In every reachable state the kernel's own checker finds nothing: kernel_invariant_fail is unreachable. */
  lemma CheckerNeverFires(priorities: seq<Word>, servicePriority: Word, pools: Pools, steps: seq<Step>)
    requires 1 <= |priorities| < NO_OWNER - 2
    requires LegalRun(Boot(priorities, servicePriority, pools), steps)
    ensures var s := Run(Boot(priorities, servicePriority, pools), steps); ListsValid(s) && Check(s) == NoViolation
  {
    BootInv(priorities, servicePriority, pools);
    RunKeepsInv(Boot(priorities, servicePriority, pools), steps);
    InvariantIsClean(Run(Boot(priorities, servicePriority, pools), steps));
    CheckIffClean(Run(Boot(priorities, servicePriority, pools), steps));
  }

  // ---- no waiter sleeps on available work ----

  /** Apart from queues and mutexes, which have laws of their own: an available semaphore has no waiter, no
      event waiter's condition is satisfied, a notification waiter has nothing pending, and a blocked timer
      service has no timer with a callback and an expiration to go with it. */
  lemma NobodySleepsOnWork(priorities: seq<Word>, servicePriority: Word, pools: Pools, steps: seq<Step>, i: nat)
    requires 1 <= |priorities| < NO_OWNER - 2
    requires LegalRun(Boot(priorities, servicePriority, pools), steps)
    requires i < |Run(Boot(priorities, servicePriority, pools), steps).tasks|
    ensures
      var s := Run(Boot(priorities, servicePriority, pools), steps);
      var t := s.tasks[i];
      t.state.Blocked? ==>
        && (forall x | 0 <= x < |s.semaphores| && Waiting(t, SemaphoreRef(x), SemaphoreWait) :: !s.semaphores[x])
        && (forall g | 0 <= g < |s.groups| && Waiting(t, GroupRef(g), EventWait) ::
              !EventCondition(s.groups[g], t.eventBits, t.eventAll))
        && (t.waitKind.NotificationWait? ==> t.notification == 0)
        && (t.waitKind.ServiceWait? ==>
              forall k | 0 <= k < |s.timers| :: s.timers[k].callback == 0 || s.timers[k].expirations == 0)
  {
    BootInv(priorities, servicePriority, pools);
    RunKeepsInv(Boot(priorities, servicePriority, pools), steps);
    var s := Run(Boot(priorities, servicePriority, pools), steps);
    assert TaskOk(s, i, s.tasks[i]);
  }

  // ---- priority inheritance over runs ----

  /** No step of the run boosts an owner and then finds its own deadline passed. */
  ghost predicate CleanRun(s: State, steps: seq<Step>)
    requires LegalRun(s, steps)
    decreases |steps|
  {
    steps == [] || (Clean(s, steps[0]) && CleanRun(Next(s, steps[0]).0, steps[1..]))
  }

  lemma {:induction false} RunKeepsExact(s: State, steps: seq<Step>)
    requires Inv(s) && PrioritiesExact(s) && LegalRun(s, steps) && CleanRun(s, steps)
    ensures PrioritiesExact(Run(s, steps))
    decreases |steps|
  {
    if steps != [] {
      StepKeepsInv(s, steps[0]);
      StepKeepsExact(s, steps[0]);
      RunKeepsExact(Next(s, steps[0]).0, steps[1..]);
    }
  }

  /** Effective priorities in every state that clean steps reach: the inheritance equation holds, and without
      a deadlock each is the maximum base over the direct and transitive waiters. */
  lemma InheritanceOnRuns(priorities: seq<Word>, servicePriority: Word, pools: Pools, steps: seq<Step>)
    requires 1 <= |priorities| < NO_OWNER - 2
    requires LegalRun(Boot(priorities, servicePriority, pools), steps)
    requires CleanRun(Boot(priorities, servicePriority, pools), steps)
    ensures
      var s := Run(Boot(priorities, servicePriority, pools), steps);
      && PrioritiesExact(s)
      && (Acyclic(Edges(s)) ==> forall t | 0 <= t < |s.tasks| ::
            Inh.TransitiveMax(Edges(s), Priorities(s.tasks), Bases(s.tasks), t))
  {
    var s0 := Boot(priorities, servicePriority, pools);
    BootInv(priorities, servicePriority, pools);
    RunKeepsExact(s0, steps);
    var s := Run(s0, steps);
    if Acyclic(Edges(s)) {
      Inh.ExactIffTransitiveMax(Edges(s), Priorities(s.tasks), Bases(s.tasks));
    }
  }

  /** On every run, clean or not: nobody runs below a direct or transitive waiter, and a task that holds no
      mutex runs at its base priority. */
  lemma BoundsOnRuns(priorities: seq<Word>, servicePriority: Word, pools: Pools, steps: seq<Step>)
    requires 1 <= |priorities| < NO_OWNER - 2
    requires LegalRun(Boot(priorities, servicePriority, pools), steps)
    ensures
      var s := Run(Boot(priorities, servicePriority, pools), steps);
      && (forall u, t | 0 <= t < |s.tasks| && Inh.WaitsFor(Edges(s), u, t) ::
            s.tasks[u].basePriority <= s.tasks[u].priority <= s.tasks[t].priority)
      && (forall t | 0 <= t < |s.tasks| && !HoldsSome(s, t) :: s.tasks[t].priority == s.tasks[t].basePriority)
  {
    var s0 := Boot(priorities, servicePriority, pools);
    BootInv(priorities, servicePriority, pools);
    RunKeepsInv(s0, steps);
    var s := Run(s0, steps);
    forall u, t | 0 <= t < |s.tasks| && Inh.WaitsFor(Edges(s), u, t)
      ensures s.tasks[u].basePriority <= s.tasks[u].priority <= s.tasks[t].priority
    {
      Inh.TransitiveLowerBound(Edges(s), Priorities(s.tasks), Bases(s.tasks), u, t);
    }
  }

  // ---- scheduling ----

  /** After a context switch exactly one task is RUNNING, no READY task outranks it, and the others are as they were,
      except that the preempted task is READY. */
  lemma SwitchIsOptimal(s: State)
    requires Inv(s)
    ensures
      var s' := Switch(s);
      && (forall i | 0 <= i < |s'.tasks| :: s'.tasks[i].state.Running? <==> i == s'.cur)
      && (forall i | 0 <= i < |s'.tasks| && s'.tasks[i].state.Ready? :: s'.tasks[i].priority <= Current(s').priority)
      && (forall i | 0 <= i < |s'.tasks| && i != s'.cur ::
            s'.tasks[i] == if s.tasks[i].state.Running? then s.tasks[i].(state := Ready) else s.tasks[i])
  {
    hide Switch, Inv;
    InvWf(s);
    StepIsSwitch(s);
    forall i | 0 <= i < |s.tasks|
      ensures Switch(s).tasks[i].state.Running? <==> i == Switch(s).cur
      ensures i != Switch(s).cur ==>
                Switch(s).tasks[i] == if s.tasks[i].state.Running? then s.tasks[i].(state := Ready) else s.tasks[i]
    {
      assert TaskOk(Switch(s), i, Switch(s).tasks[i]) && TaskOk(s, i, s.tasks[i]);
    }
  }

  lemma StepIsSwitch(s: State)
    requires Inv(s)
    ensures
      var (s', ts) := (Switch(s), Preempt(s.tasks, s.cur));
      && TasksOk(s') && |s'.tasks| == |s.tasks| && s'.cur < |s.tasks| && Current(s').state.Running?
      && Scheduler.Elected(ts, s.cur, s'.cur)
      && s'.tasks == ts[s'.cur := ts[s'.cur].(state := Running)]
  {
    hide Scheduler.Elected, Preempt, Select;
    NonNegative(s);
    SwitchElects(s);
    SwitchSane(s);
  }

  /** Inversion freedom: when the task at the end of a blocked task's owner chain can run, the task that
      does run has at least the blocked task's priority. */
  lemma NoInversion(s: State, h: nat, k: nat)
    requires Inv(s) && s.started && h < |s.tasks| && Walk(Edges(Switch(s)), h, k) >= 0
    requires
      var e := Switch(s).tasks[Walk(Edges(Switch(s)), h, k)];
      e.state.Ready? || e.state.Running?
    ensures Switch(s).tasks[h].priority <= Current(Switch(s)).priority
  {
    hide Switch;
    var s' := Switch(s);
    StepKeepsInv(s, SwitchStep);
    SwitchIsOptimal(s);
    Inh.ChainAscends(Edges(s'), Priorities(s'.tasks), Bases(s'.tasks), h, k);
  }

  /** Task i is READY and nothing outranks it at every switch of the run, and every switch passes it over. */
  ghost predicate PassedOver(s: State, steps: seq<Step>, i: nat)
    requires LegalRun(s, steps)
    decreases |steps|
  {
    steps == [] ||
    (&& (steps[0].SwitchStep? ==>
           && i < |s.tasks| && s.tasks[i].state.Ready?
           && (forall j | 0 <= j < |s.tasks| && (s.tasks[j].state.Ready? || s.tasks[j].state.Running?) ::
                 s.tasks[j].priority <= s.tasks[i].priority)
           && Switch(s).cur != i)
     && PassedOver(Next(s, steps[0]).0, steps[1..], i))
  }

  ghost function Switches(steps: seq<Step>): nat {
    if steps == [] then 0 else (if steps[0].SwitchStep? then 1 else 0) + Switches(steps[1..])
  }

  lemma SwitchComesCloser(s: State, i: nat)
    requires Inv(s) && i < |s.tasks| && s.tasks[i].state.Ready? && Switch(s).cur != i
    requires forall j | 0 <= j < |s.tasks| && (s.tasks[j].state.Ready? || s.tasks[j].state.Running?) ::
               s.tasks[j].priority <= s.tasks[i].priority
    ensures |Switch(s).tasks| == |s.tasks| && Switch(s).cur < |s.tasks|
    ensures Scheduler.Distance(Switch(s).cur, i, |s.tasks|) < Scheduler.Distance(s.cur, i, |s.tasks|) < |s.tasks|
  {
    NonNegative(s);
    SwitchElects(s);
    Scheduler.PassedOverComesCloser(Preempt(s.tasks, s.cur), s.cur, i);
  }

  lemma DistanceBelow(a: nat, b: nat, n: nat)
    requires a < n && b < n
    ensures Scheduler.Distance(a, b, n) < n
  {}

  /** Round robin is fair: a task that stays READY at the top priority is passed over only as often as tasks
      stand between it and the running one, so at the latest the |tasks|-th switch selects it. */
  lemma {:induction false} PassedOverBriefly(s: State, steps: seq<Step>, i: nat)
    requires Inv(s) && i < |s.tasks| && LegalRun(s, steps) && PassedOver(s, steps, i)
    ensures Switches(steps) <= Scheduler.Distance(s.cur, i, |s.tasks|) < |s.tasks|
    decreases |steps|
  {
    hide Inv, Next, Switch, Scheduler.Distance;
    InvWf(s);
    if steps != [] {
      StepKeepsInv(s, steps[0]);
      StepFrame(s, steps[0]);
      PassedOverBriefly(Next(s, steps[0]).0, steps[1..], i);
      if steps[0].SwitchStep? {
        NextSwitch(s);
        SwitchComesCloser(s, i);
      }
    } else {
      DistanceBelow(s.cur, i, |s.tasks|);
    }
  }
}
