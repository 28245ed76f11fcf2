/** Runs from initialization on which a documented promise fails: a boost that outlives its call, and a wait
    whose deadline does not count from API entry. */
module Findings {
  import opened Types
  import opened Graph
  import opened TaskTable
  import opened Machine
  import opened WaitInvariant
  import opened MutexInvariant
  import opened TimeInvariant
  import opened Runs
  import Inh = Inheritance
  import Scheduler

  /** Two application tasks of priorities 1 and 2, and one mutex. */
  function Start(): State {
    Boot([1, 2], 1, Pools(1, 0, 0, 0, 0))
  }

  /** Task 0 takes the mutex, task 1 is scheduled, and a tick passes. */
  function Prefix(): seq<Step> {
    [CreateMutexStep(0), StartStep, LockStep(0, 0, 0), SwitchStep, TickStep]
  }

  function Created(): State {
    Start().(mutexes := [Mutex(false, NO_OWNER, 0, -1)], mutexList := 0)
  }

  function Started(): State {
    Created().(started := true)
  }

  function Locked(): State {
    Started().(mutexes := [Mutex(true, 0, 1, -1)])
  }

  function Switched(): State {
    var ts := Start().tasks;
    Locked().(cur := 1, tasks := ts[0 := ts[0].(state := Ready)][1 := ts[1].(state := Running)])
  }

  function Ticked(): State {
    Switched().(ticks := 1)
  }

  /** One clean step of the run. */
  lemma Follow(s: State, step: Step, s': State)
    requires Inv(s) && PrioritiesExact(s) && Legal(s, step) && Clean(s, step) && Next(s, step).0 == s'
    ensures Inv(s') && PrioritiesExact(s')
  {
    hide Next, PrioritiesExact;
    StepKeepsInv(s, step);
    StepKeepsExact(s, step);
  }

  /** The four tasks at the start. */
  lemma StartTasks()
    ensures Start().tasks == [FreshTask(1).(state := Running), FreshTask(2), Start().tasks[2], FreshTask(0)]
    ensures ServiceBlocked(Start().tasks[2]) && Start().tasks[2].waitForever
    ensures Start().tasks[2].priority == 1 && |Start().tasks| == 4
  {}

  lemma CreateStep()
    requires Wf(Start())
    ensures Next(Start(), CreateMutexStep(0)).0 == Created()
  {}

  lemma FirstLock()
    requires Wf(Started())
    ensures Legal(Started(), LockStep(0, 0, 0)) && Next(Started(), LockStep(0, 0, 0)).0 == Locked()
    ensures Clean(Started(), LockStep(0, 0, 0))
  {
    StartTasks();
  }

  lemma SwitchTo1()
    requires Inv(Locked())
    ensures Next(Locked(), SwitchStep).0 == Switched()
  {
    hide Next;
    NextSwitch(Locked());
    StartTasks();
    var s := Locked();
    NonNegative(s);
    SwitchElects(s);
    Elects1();
    Scheduler.ElectedUnique(Preempt(s.tasks, 0), 0, Switch(s).cur, 1);
  }

  lemma Elects1()
    ensures |Locked().tasks| == 4 && Scheduler.Elected(Preempt(Locked().tasks, 0), 0, 1)
  {
    StartTasks();
  }

  lemma {:induction false} NothingDue(ts: seq<Task>, ms: seq<Mutex>, now: Word, i: nat)
    requires i <= |ts| && forall k | 0 <= k < |ts| :: !ts[k].state.Sleeping? && !TimedOut(ts[k], now)
    ensures TickTasks(ts, ms, now, i) == ts
    decreases |ts| - i
  {
    if i < |ts| {
      NothingDue(ts, ms, now, i + 1);
    }
  }

  lemma TickOnce()
    requires Wf(Switched())
    ensures Next(Switched(), TickStep).0 == Ticked()
  {
    hide Next;
    NextTick(Switched());
    StartTasks();
    var s0 := Ticked();
    assert TimerTick(s0) == s0;
    NothingDue(s0.tasks, s0.mutexes, 1, 0);
  }

  lemma ReachTicked()
    ensures
      && Inv(Start()) && Inv(Created()) && Inv(Started()) && Inv(Locked()) && Inv(Switched()) && Inv(Ticked())
      && PrioritiesExact(Ticked())
      && Legal(Start(), CreateMutexStep(0)) && Legal(Created(), StartStep) && Legal(Started(), LockStep(0, 0, 0))
  {
    hide Inv, PrioritiesExact, Wf, BootTasks, CreateMutex, Lock, Switch, Tick;
    BootInv([1, 2], 1, Pools(1, 0, 0, 0, 0));
    InvWf(Start());
    CreateStep();
    Follow(Start(), CreateMutexStep(0), Created());
    InvWf(Created());
    Follow(Created(), StartStep, Started());
    InvWf(Started());
    FirstLock();
    Follow(Started(), LockStep(0, 0, 0), Locked());
    InvWf(Locked());
    SwitchTo1();
    Follow(Locked(), SwitchStep, Switched());
    InvWf(Switched());
    TickOnce();
    Follow(Switched(), TickStep, Ticked());
  }

  lemma OneStep(s: State, steps: seq<Step>)
    requires steps != [] && Wf(s) && Legal(s, steps[0]) && LegalRun(Next(s, steps[0]).0, steps[1..])
    ensures LegalRun(s, steps) && Run(s, steps) == Run(Next(s, steps[0]).0, steps[1..])
  {}

  /** The run leads to the state Locked, whatever follows. */
  lemma ReachesLocked(tail: seq<Step>)
    requires LegalRun(Locked(), tail)
    ensures
      var steps := [CreateMutexStep(0), StartStep, LockStep(0, 0, 0)] + tail;
      LegalRun(Start(), steps) && Run(Start(), steps) == Run(Locked(), tail)
  {
    hide Inv, PrioritiesExact, Wf, BootTasks, CreateMutex, Lock, LegalRun, Run;
    ReachTicked();
    InvWf(Start());
    InvWf(Created());
    InvWf(Started());
    var steps := [CreateMutexStep(0), StartStep, LockStep(0, 0, 0)] + tail;
    assert steps[3..] == tail;
    FirstLock();
    OneStep(Started(), steps[2..]);
    OneStep(Created(), steps[1..]);
    CreateStep();
    OneStep(Start(), steps);
  }

  /** The run leads on to the state Ticked, whatever follows. */
  lemma Reaches(tail: seq<Step>)
    requires LegalRun(Ticked(), tail)
    ensures LegalRun(Start(), Prefix() + tail) && Run(Start(), Prefix() + tail) == Run(Ticked(), tail)
  {
    hide Inv, PrioritiesExact, Wf, Next, BootTasks, LegalRun, Run;
    ReachTicked();
    InvWf(Locked());
    InvWf(Switched());
    var steps := [SwitchStep, TickStep] + tail;
    assert steps[2..] == tail;
    TickOnce();
    OneStep(Switched(), steps[1..]);
    SwitchTo1();
    OneStep(Locked(), steps);
    ReachesLocked(steps);
    assert Prefix() + tail == [CreateMutexStep(0), StartStep, LockStep(0, 0, 0)] + steps;
  }

  lemma LastStep(step: Step)
    requires Wf(Ticked()) && Legal(Ticked(), step)
    ensures LegalRun(Ticked(), [step]) && Run(Ticked(), [step]) == Next(Ticked(), step).0
  {
    assert LegalRun(Next(Ticked(), step).0, [step][1..]);
  }

  // ---- the boost ----

  /** Task 1, which entered JRT_MutexLock with timeout 1 at tick 0, now reaches the critical section. */
  function LateLock(): Step {
    LockStep(0, 0, 1)
  }

  /** Nobody waits for a mutex, so the raise stops at the owner. */
  lemma RaiseStops(g: seq<int>, p: seq<int>, x: int)
    requires Valid(g) && |g| == |p| == 4 && g[0] == -1
    ensures Inh.Raise(g, p, 0, x, 4) == p[0 := Inh.Max(p[0], x)]
  {}

  lemma NobodyWaits(s: State)
    requires |s.tasks| == 4 && forall i | 0 <= i < 4 :: !(s.tasks[i].state.Blocked? && s.tasks[i].waitKind.MutexWait?)
    ensures |Edges(s)| == 4 && forall i | 0 <= i < 4 :: Edges(s)[i] == -1
  {}

  lemma TickedTasks()
    ensures
      var ts := Ticked().tasks;
      && |ts| == 4
      && ts[0] == FreshTask(1) && ts[1] == FreshTask(2).(state := Running) && ts[3] == FreshTask(0)
      && ServiceBlocked(ts[2])
  {
    StartTasks();
  }

  lemma LateLockResult()
    requires Wf(Ticked())
    ensures Legal(Ticked(), LateLock()) && Next(Ticked(), LateLock()).1 == Status(false)
    ensures
      var s' := Next(Ticked(), LateLock()).0;
      && |s'.tasks| == 4
      && s'.tasks[0] == FreshTask(1).(priority := 2)
      && forall i | 0 <= i < 4 :: Edges(s')[i] == -1
  {
    hide BootTasks, Inh.Raise;
    var s := Ticked();
    TickedTasks();
    NobodyWaits(s);
    RaiseStops(Edges(s), Priorities(s.tasks), 2);
    NobodyWaits(Next(s, LateLock()).0);
  }

  /** The run is legal, its last call fails on its deadline, and afterwards task 0 runs above its base
      although nobody waits for anybody, so the equation of priority inheritance fails. */
  lemma BoostOutlivesTheCall()
    ensures LegalRun(Start(), Prefix()) && Run(Start(), Prefix()) == Ticked() && Wf(Ticked())
    ensures Legal(Ticked(), LateLock()) && Next(Ticked(), LateLock()).1 == Status(false)
    ensures LegalRun(Start(), Prefix() + [LateLock()])
    ensures
      var s := Next(Ticked(), LateLock()).0;
      && Run(Start(), Prefix() + [LateLock()]) == s
      && |s.tasks| == 4
      && s.tasks[0].priority > s.tasks[0].basePriority
      && (forall i | 0 <= i < 4 :: Edges(s)[i] == -1)
      && !PrioritiesExact(s)
  {
    hide Wf, Next, Legal, LegalRun, Run, PrioritiesExact;
    PrefixReaches();
    LateLockResult();
    LastStep(LateLock());
    Reaches([LateLock()]);
    AboveBase(Next(Ticked(), LateLock()).0);
  }

  lemma PrefixReaches()
    ensures LegalRun(Start(), Prefix()) && Run(Start(), Prefix()) == Ticked() && Wf(Ticked())
  {
    hide Inv, Wf, BootTasks, LegalRun, Run;
    ReachTicked();
    InvWf(Ticked());
    EmptyRun();
    Reaches([]);
    assert Prefix() + [] == Prefix();
  }

  lemma EmptyRun()
    ensures LegalRun(Ticked(), []) && Run(Ticked(), []) == Ticked()
  {}

  lemma AboveBase(s: State)
    requires |s.tasks| == 4 && s.tasks[0].priority > s.tasks[0].basePriority
             && forall i | 0 <= i < 4 :: Edges(s)[i] == -1
    ensures !PrioritiesExact(s)
  {
    assert !Inh.Supported(Edges(s), Priorities(s.tasks), Bases(s.tasks), 0);
  }

  // ---- the deadline ----

  /** In the same state task 1 enters JRT_TaskNotifyTake at tick 0 with a timeout of 5 ticks and blocks at tick 1:
      its deadline is tick 6, not tick 5. */
  lemma DeadlineIsLate()
    ensures LegalRun(Start(), Prefix()) && Run(Start(), Prefix()) == Ticked() && Wf(Ticked())
    ensures
      var (s, step) := (Ticked(), TakeNotificationStep(0, 5));
      && step.entered == s.ticks - 1 && Legal(s, step) && Next(s, step).1.Pending? && |Next(s, step).0.tasks| == 4
      && !EnteredAt(Next(s, step).0.tasks[s.cur], step.entered, step.timeout)
      && Next(s, step).0.tasks[s.cur].waitDeadline == 6
  {
    hide BootTasks, LegalRun, Run;
    PrefixReaches();
    TickedTasks();
  }
}
