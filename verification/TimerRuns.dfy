/** Software timers over runs: how often they expire, and where every expiration goes. */
module TimerRuns {
  import opened Arith
  import opened Types
  import opened TaskTable
  import opened Machine
  import opened WaitInvariant
  import opened TimerInvariant
  import opened Runs
  import opened TimeRuns
  import IntrusiveList

  /** The part of a timer that decides when it expires. */
  datatype Schedule = Schedule(deadline: Word, period: Word, active: bool, periodic: bool)

  function ScheduleOf(t: Timer): Schedule {
    Schedule(t.deadline, t.period, t.active, t.periodic)
  }

  lemma FireSchedule(t: Timer, t': Timer, now: Word)
    requires ScheduleOf(t) == ScheduleOf(t')
    ensures Due(t, now) == Due(t', now) && ScheduleOf(Fire(t, now)) == ScheduleOf(Fire(t', now))
  {}

  // ---- one step ----

  /** The step counts an expiration of timer t. */
  function Recorded(s: State, step: Step, t: nat): nat
    requires Wf(s)
  {
    if step.TickStep? && t in TimerOrder(s) && Due(s.timers[t], Wrap(s.ticks + 1)) then 1 else 0
  }

  /** Expirations of timer t that the step hands out: taken, dispatched or claimed by the timer service. */
  function Consumed(s: State, step: Step, t: nat): Word
    requires Wf(s) && Legal(s, step)
  {
    var out := Next(s, step).1;
    match step
    case TakeExpirationsStep(k) => if k == t && out.Value? then out.value else 0
    case DispatchStep(k) => if k == t && out.Value? then out.value else 0
    case ServiceClaimStep =>
      if FirstClaim(s.timers, TimerOrder(s)) == t < |s.timers|
         && out == Claim(s.timers[t].callback, s.timers[t].argument) then 1 else 0
    case _ => 0
  }

  predicate Disturbs(step: Step, t: nat) {
    || (step.CreateTimerStep? && step.t == t)
    || (step.StartTimerStep? && step.t == t)
    || (step.StartPeriodicStep? && step.t == t)
    || (step.RestartTimerStep? && step.t == t)
    || (step.StopTimerStep? && step.t == t)
  }

  /** What a step that does not touch timer t's schedule makes of it. */
  function NextSchedule(s: State, step: Step, t: nat): Schedule
    requires Wf(s) && t < |s.timers|
  {
    if step.TickStep? && t in TimerOrder(s) then ScheduleOf(Fire(s.timers[t], Wrap(s.ticks + 1)))
        else ScheduleOf(s.timers[t])
  }

  /** What a step does to timer t. */
  ghost predicate TimerStep(s: State, step: Step, t: nat)
    requires Wf(s) && Legal(s, step) && t < |s.timers|
  {
    var s' := Next(s, step).0;
    && |s'.timers| == |s.timers|
    && s'.timers[t].expirations == Wrap(s.timers[t].expirations + Recorded(s, step, t) - Consumed(s, step, t))
    && (!Disturbs(step, t) ==> ScheduleOf(s'.timers[t]) == NextSchedule(s, step, t))
  }

  lemma LinkTimerStep(s: State, t: nat, k: nat, x: Timer)
    requires Wf(s) && k < |s.timers| && t < |s.timers| && x.expirations == s.timers[k].expirations
    ensures
      var s' := LinkTimer(s, k, x);
      && |s'.timers| == |s.timers|
      && s'.timers[t].expirations == s.timers[t].expirations
      && (t != k ==> s'.timers[t] == s.timers[t])
  {}

  lemma TickTimers(s: State)
    requires Wf(s)
    ensures Tick(s).timers == FireAll(s.timers, TimerOrder(s), Wrap(s.ticks + 1)) && Tick(s).timerList == s.timerList
  {
    hide TickTasks, CallsBack, WakeService, FireAll, IntrusiveList.Order;
  }

  lemma FireExpirations(t: Timer, now: Word)
    ensures Fire(t, now).expirations == Wrap(t.expirations + if Due(t, now) then 1 else 0)
  {}

  lemma TickTimerStep(s: State, t: nat)
    requires Inv(s) && s.started && t < |s.timers|
    ensures TimerStep(s, TickStep, t)
  {
    hide Tick, TimerOrder, FireAll, Fire, Due, Wrap;
    TickTimers(s);
    assert Consumed(s, TickStep, t) == 0;
    FireExpirations(s.timers[t], Wrap(s.ticks + 1));
    WrapSmall(s.timers[t].expirations);
  }

  /** A step that leaves timer t's expirations and schedule alone. */
  lemma QuietStep(s: State, step: Step, t: nat)
    requires Wf(s) && Legal(s, step) && t < |s.timers| && !step.TickStep? && |Next(s, step).0.timers| == |s.timers|
    requires Next(s, step).0.timers[t].expirations == s.timers[t].expirations && Consumed(s, step, t) == 0
    requires !Disturbs(step, t) ==> ScheduleOf(Next(s, step).0.timers[t]) == ScheduleOf(s.timers[t])
    ensures TimerStep(s, step, t)
  {
    hide Next, Wrap;
    WrapSmall(s.timers[t].expirations);
  }

  lemma StartStepQuiet(s: State, t: nat, k: nat, delay: Word)
    requires Wf(s) && Legal(s, StartTimerStep(k, delay)) && t < |s.timers|
    ensures TimerStep(s, StartTimerStep(k, delay), t)
  {
    hide Next, TimerStep, LinkTimer, Wrap;
    var x := s.timers[k];
    LinkTimerStep(s, t, k,
      x.(deadline := Wrap(s.Now() + delay), period := 0, reload := delay, periodic := false, active := true));
    NextStartTimer(s, k, delay);
    QuietStep(s, StartTimerStep(k, delay), t);
  }

  lemma StartPeriodicStepQuiet(s: State, t: nat, k: nat, period: Word)
    requires Wf(s) && Legal(s, StartPeriodicStep(k, period)) && t < |s.timers|
    ensures TimerStep(s, StartPeriodicStep(k, period), t)
  {
    hide Next, TimerStep, LinkTimer, Wrap;
    var x := s.timers[k];
    LinkTimerStep(s, t, k,
      x.(deadline := Wrap(s.Now() + period), period := period, reload := period, periodic := true, active := true));
    NextStartPeriodic(s, k, period);
    QuietStep(s, StartPeriodicStep(k, period), t);
  }

  lemma RestartStepQuiet(s: State, t: nat, k: nat)
    requires Wf(s) && Legal(s, RestartTimerStep(k)) && t < |s.timers|
    ensures TimerStep(s, RestartTimerStep(k), t)
  {
    hide Next, TimerStep, LinkTimer, Wrap;
    LinkTimerStep(s, t, k, s.timers[k].(deadline := Wrap(s.Now() + s.timers[k].reload), active := true));
    NextRestartTimer(s, k);
    QuietStep(s, RestartTimerStep(k), t);
  }

  lemma UpdateStepQuiet(s: State, step: Step, t: nat)
    requires Wf(s) && Legal(s, step) && t < |s.timers| && (step.StopTimerStep? || step.SetCallbackStep?)
    ensures TimerStep(s, step, t)
  {
    hide Next, TimerStep, WakeService, Wrap;
    if step.StopTimerStep? {
      NextStopTimer(s, step.t);
    } else {
      NextSetCallback(s, step.t, step.callback, step.argument);
    }
    QuietStep(s, step, t);
  }

  lemma TakeTimerStep(s: State, step: Step, t: nat)
    requires Wf(s) && Legal(s, step) && t < |s.timers| && (step.TakeExpirationsStep? || step.DispatchStep?)
    ensures TimerStep(s, step, t)
  {
    hide Next, TimerOrder, Wrap;
    if step.TakeExpirationsStep? {
      NextTakeExpirations(s, step.t);
    } else {
      NextDispatch(s, step.t);
    }
    WrapSmall(s.timers[t].expirations);
    WrapSmall(Next(s, step).0.timers[t].expirations);
  }

  lemma ClaimTimerStep(s: State, t: nat)
    requires Wf(s) && Legal(s, ServiceClaimStep) && t < |s.timers|
    ensures TimerStep(s, ServiceClaimStep, t)
  {
    hide Next, IntrusiveList.Order, Wrap;
    NextServiceClaim(s);
    var i := FirstClaim(s.timers, TimerOrder(s));
    assert i >= 0 ==> i in TimerOrder(s);
    WrapSmall(s.timers[t].expirations);
    WrapSmall(ServiceClaim(s).0.timers[t].expirations);
  }

  lemma OtherTimerStep(s: State, step: Step, t: nat)
    requires Inv(s) && s.started && Legal(s, step) && t < |s.timers| && !IsTimerStep(step)
    ensures TimerStep(s, step, t)
  {
    hide Next, TimerStep;
    StepFrame(s, step);
    QuietStep(s, step, t);
  }

  lemma StepTimer(s: State, step: Step, t: nat)
    requires Inv(s) && s.started && Legal(s, step) && t < |s.timers|
    ensures TimerStep(s, step, t)
  {
    hide Next, TimerStep, Inv;
    InvWf(s);
    if !IsTimerStep(step) {
      OtherTimerStep(s, step, t);
    } else if step.TickStep? {
      TickTimerStep(s, t);
    } else if step.StartTimerStep? {
      StartStepQuiet(s, t, step.t, step.delay);
    } else if step.StartPeriodicStep? {
      StartPeriodicStepQuiet(s, t, step.t, step.period);
    } else if step.RestartTimerStep? {
      RestartStepQuiet(s, t, step.t);
    } else if step.ServiceClaimStep? {
      ClaimTimerStep(s, t);
    } else if step.StopTimerStep? || step.SetCallbackStep? {
      UpdateStepQuiet(s, step, t);
    } else {
      TakeTimerStep(s, step, t);
    }
  }

  lemma ListUnmoved(s: State, step: Step)
    requires Wf(s) && Legal(s, step) && !step.TickStep?
    requires !(step.CreateTimerStep? || step.StartTimerStep? || step.StartPeriodicStep? || step.RestartTimerStep?)
    ensures
      var s' := Next(s, step).0;
      TimerLinks(s'.timers) == TimerLinks(s.timers) && s'.timerList == s.timerList
  {
    hide Next, WakeService, ServiceClaim;
    if !IsTimerStep(step) {
      StepFrame(s, step);
    } else if step.StopTimerStep? {
      NextStopTimer(s, step.t);
    } else if step.SetCallbackStep? {
      NextSetCallback(s, step.t, step.callback, step.argument);
    } else if step.TakeExpirationsStep? {
      NextTakeExpirations(s, step.t);
    } else if step.DispatchStep? {
      NextDispatch(s, step.t);
    } else {
      NextServiceClaim(s);
      ClaimLinks(s);
    }
  }

  lemma ClaimLinks(s: State)
    requires Wf(s)
    ensures
      var s' := ServiceClaim(s).0;
      TimerLinks(s'.timers) == TimerLinks(s.timers) && s'.timerList == s.timerList
  {
    hide IntrusiveList.Order, Block;
    var i := FirstClaim(s.timers, TimerOrder(s));
    assert i >= 0 ==> i in TimerOrder(s);
  }

  lemma TickLinks(s: State)
    requires Wf(s)
    ensures TimerLinks(Tick(s).timers) == TimerLinks(s.timers) && Tick(s).timerList == s.timerList
  {
    hide Tick;
    TickTimers(s);
  }

  lemma LinkKeepsLinked(s: State, k: nat, x: Timer, t: nat)
    requires Wf(s) && TimerListEnds(s) && k < |s.timers| && t in TimerOrder(s) && Wf(LinkTimer(s, k, x))
    ensures t in TimerOrder(LinkTimer(s, k, x))
    ensures k in TimerOrder(LinkTimer(s, k, x))
  {
    LinkTimerLinks(s, k, x);
    IntrusiveList.LinkKeepsList(TimerLinks(s.timers), s.timerList, k);
  }

  lemma CreateKeepsLinked(s: State, k: nat, t: nat)
    requires Wf(s) && TimerListEnds(s) && k < |s.timers| && t in TimerOrder(s) && Wf(CreateTimer(s, k))
    ensures t in TimerOrder(CreateTimer(s, k))
  {
    hide LinkTimer, IntrusiveList.Order;
    LinkKeepsLinked(s, k, Timer(0, 0, 0, 0, false, false, 0, 0, -1), t);
  }

  lemma StartKeepsLinked(s: State, k: nat, d: Word, t: nat)
    requires Wf(s) && TimerListEnds(s) && k < |s.timers| && t in TimerOrder(s) && Wf(StartTimer(s, k, d))
    ensures t in TimerOrder(StartTimer(s, k, d))
  {
    hide LinkTimer, IntrusiveList.Order, Wrap;
    LinkKeepsLinked(s, k, Armed(s.timers[k], s.Now(), d, false), t);
  }

  lemma StartPeriodicKeepsLinked(s: State, k: nat, p: Word, t: nat)
    requires Wf(s) && TimerListEnds(s) && k < |s.timers| && t in TimerOrder(s) && Wf(StartPeriodic(s, k, p))
    ensures t in TimerOrder(StartPeriodic(s, k, p))
  {
    hide LinkTimer, IntrusiveList.Order, Wrap;
    if p != 0 {
      LinkKeepsLinked(s, k, Armed(s.timers[k], s.Now(), p, true), t);
    }
  }

  lemma RestartKeepsLinked(s: State, k: nat, t: nat)
    requires Wf(s) && TimerListEnds(s) && k < |s.timers| && t in TimerOrder(s) && Wf(RestartTimer(s, k))
    ensures t in TimerOrder(RestartTimer(s, k))
  {
    hide LinkTimer, IntrusiveList.Order, Wrap;
    var x := s.timers[k];
    if x.reload != 0 {
      LinkKeepsLinked(s, k, x.(deadline := Wrap(s.Now() + x.reload), active := true), t);
    }
  }

  /** A linked timer stays linked. */
  lemma StepKeepsLinked(s: State, step: Step, t: nat)
    requires Wf(s) && TimerListEnds(s) && Legal(s, step) && t in TimerOrder(s) && Wf(Next(s, step).0)
    ensures t in TimerOrder(Next(s, step).0)
  {
    hide Next, Tick, CreateTimer, StartTimer, StartPeriodic, RestartTimer, IntrusiveList.Order;
    if step.CreateTimerStep? {
      NextCreateTimer(s, step.t);
      CreateKeepsLinked(s, step.t, t);
    } else if step.StartTimerStep? {
      NextStartTimer(s, step.t, step.delay);
      StartKeepsLinked(s, step.t, step.delay, t);
    } else if step.StartPeriodicStep? {
      NextStartPeriodic(s, step.t, step.period);
      StartPeriodicKeepsLinked(s, step.t, step.period, t);
    } else if step.RestartTimerStep? {
      NextRestartTimer(s, step.t);
      RestartKeepsLinked(s, step.t, t);
    } else if step.TickStep? {
      NextTick(s);
      TickLinks(s);
    } else {
      ListUnmoved(s, step);
      assert TimerLinks(Next(s, step).0.timers) == TimerLinks(s.timers);
    }
  }

  // ---- conservation ----

  ghost function AllRecorded(s: State, steps: seq<Step>, t: nat): nat
    requires LegalRun(s, steps)
    decreases |steps|
  {
    if steps == [] then 0 else Recorded(s, steps[0], t) + AllRecorded(Next(s, steps[0]).0, steps[1..], t)
  }

  ghost function AllConsumed(s: State, steps: seq<Step>, t: nat): nat
    requires LegalRun(s, steps)
    decreases |steps|
  {
    if steps == [] then 0 else Consumed(s, steps[0], t) + AllConsumed(Next(s, steps[0]).0, steps[1..], t)
  }

  lemma NextState(s: State, step: Step, t: nat)
    requires Inv(s) && s.started && Legal(s, step) && t < |s.timers|
    ensures
      var s' := Next(s, step).0;
      && Inv(s') && s'.started && |s'.timers| == |s.timers| && (t in TimerOrder(s) ==> t in TimerOrder(s'))
      && s'.ticks == s.ticks + if step.TickStep? then 1 else 0
  {
    hide Next;
    StepKeepsInv(s, step);
    StepFrame(s, step);
    StepTimer(s, step, t);
    if t in TimerOrder(s) {
      StepKeepsLinked(s, step, t);
    }
  }

  /** Every expiration recorded is claimed, taken, dispatched or pending, modulo 2^32. */
  lemma {:induction false} ExpirationsAddUp(s: State, steps: seq<Step>, t: nat)
    requires Inv(s) && s.started && LegalRun(s, steps) && t < |s.timers|
    ensures t < |Run(s, steps).timers|
    ensures Run(s, steps).timers[t].expirations
            == Wrap(s.timers[t].expirations + AllRecorded(s, steps, t) - AllConsumed(s, steps, t))
    decreases |steps|
  {
    hide Next, Inv, Wrap, Recorded, Consumed;
    if steps != [] {
      NextState(s, steps[0], t);
      StepTimer(s, steps[0], t);
      ExpirationsAddUp(Next(s, steps[0]).0, steps[1..], t);
      WrapSum(s.timers[t].expirations, Recorded(s, steps[0], t), Consumed(s, steps[0], t),
              AllRecorded(Next(s, steps[0]).0, steps[1..], t), AllConsumed(Next(s, steps[0]).0, steps[1..], t));
    } else {
      WrapSmall(s.timers[t].expirations);
    }
  }

  // ---- counting ----

  /** On how many of n undisturbed ticks the timer is due; now is the tick count before the first. */
  ghost function DueCount(t: Timer, now: Word, n: nat): nat {
    if n == 0 then 0 else DueCount(t, now, n - 1) + if Due(Fired(t, now, n - 1), Wrap(now + n)) then 1 else 0
  }

  ghost predicate Undisturbed(steps: seq<Step>, t: nat) {
    forall step | step in steps :: !Disturbs(step, t)
  }

  /** A linked timer that no step disturbs keeps its own time, whoever consumes its expirations. */
  lemma {:induction false} KeepsTime(s: State, steps: seq<Step>, t: nat, x: Timer, now: Word, k: nat)
    requires Inv(s) && s.started && LegalRun(s, steps) && t < |s.timers| && t in TimerOrder(s) && Undisturbed(steps, t)
    requires ScheduleOf(s.timers[t]) == ScheduleOf(Fired(x, now, k)) && Wrap(s.ticks) == Wrap(now + k)
    ensures
      var n := k + Ticks(steps);
      && AllRecorded(s, steps, t) == DueCount(x, now, n) - DueCount(x, now, k)
      && t < |Run(s, steps).timers|
      && ScheduleOf(Run(s, steps).timers[t]) == ScheduleOf(Fired(x, now, n))
    decreases |steps|
  {
    hide Next, Inv, Wrap, TimerOrder, Due, Fire;
    if steps != [] {
      NextState(s, steps[0], t);
      StepTimer(s, steps[0], t);
      assert !Disturbs(steps[0], t) && Undisturbed(steps[1..], t);
      var k' := if steps[0].TickStep? then k + 1 else k;
      if steps[0].TickStep? {
        NextMoment(s.ticks, now, k);
        FireSchedule(s.timers[t], Fired(x, now, k), Wrap(s.ticks + 1));
      }
      KeepsTime(Next(s, steps[0]).0, steps[1..], t, x, now, k');
    }
  }

  lemma NextMoment(ticks: nat, now: Word, k: nat)
    requires Wrap(ticks) == Wrap(now + k)
    ensures Wrap(ticks + 1) == Wrap(now + (k + 1))
  {
    hide Wrap;
    WrapTwice(ticks, 1);
    WrapTwice(now + k, 1);
  }

  lemma {:induction false} PeriodicDueCount(t: Timer, now: Word, p: Word, n: nat)
    requires 1 <= p <= HORIZON
    ensures DueCount(Armed(t, now, p, true), now, n) == n / p
  {
    hide Wrap, Fired;
    if n > 0 {
      PeriodicDueCount(t, now, p, n - 1);
      PeriodicAfter(t, now, p, n - 1);
      PeriodStep(n, p);
      DueExactly(now, n, p * ((n - 1) / p) + p);
    } else {
      QuotientIs(0, p, 0);
    }
  }

  lemma {:induction false} OneShotDueCount(t: Timer, now: Word, d: Word, n: nat)
    ensures DueCount(Armed(t, now, d, false), now, n) == if n < ExpiryTick(d) then 0 else 1
  {
    if n > 0 {
      OneShotDueCount(t, now, d, n - 1);
      OneShotAfter(t, now, d, n - 1);
      OneShotAfter(t, now, d, n);
      if n <= ExpiryTick(d) && 1 <= d <= HORIZON {
        DueExactly(now, n, d);
      }
    }
  }

  // ---- the two guarantees ----

  lemma FiredNone(t: Timer, now: Word)
    ensures Fired(t, now, 0) == t && DueCount(t, now, 0) == 0
  {}

  lemma StartedPeriodic(s: State, t: nat, p: Word)
    requires Inv(s) && Legal(s, StartPeriodicStep(t, p)) && p > 0
    ensures
      var s1 := StartPeriodic(s, t, p);
      && Inv(s1) && s1.started && t < |s1.timers| && t in TimerOrder(s1) && s1.ticks == s.ticks
      && ScheduleOf(s1.timers[t]) == ScheduleOf(Armed(s.timers[t], s.Now(), p, true))
      && s1.timers[t].expirations == s.timers[t].expirations
  {
    hide Inv, TimerOrder, LinkTimer, Wrap;
    InvWf(s);
    StepKeepsInv(s, StartPeriodicStep(t, p));
    InvWf(StartPeriodic(s, t, p));
    NowLinked(s, t,
        s.timers[t].(deadline := Wrap(s.Now() + p), period := p, reload := p, periodic := true, active := true));
  }

  lemma StartedOneShot(s: State, t: nat, d: Word)
    requires Inv(s) && Legal(s, StartTimerStep(t, d))
    ensures
      var s1 := StartTimer(s, t, d);
      && Inv(s1) && s1.started && t < |s1.timers| && t in TimerOrder(s1) && s1.ticks == s.ticks
      && ScheduleOf(s1.timers[t]) == ScheduleOf(Armed(s.timers[t], s.Now(), d, false))
      && s1.timers[t].expirations == s.timers[t].expirations
  {
    hide Inv, TimerOrder, LinkTimer, Wrap;
    InvWf(s);
    StepKeepsInv(s, StartTimerStep(t, d));
    InvWf(StartTimer(s, t, d));
    NowLinked(s, t,
        s.timers[t].(deadline := Wrap(s.Now() + d), period := 0, reload := d, periodic := false, active := true));
  }

  lemma NowLinked(s: State, t: nat, x: Timer)
    requires Inv(s) && Wf(s) && t < |s.timers| && Wf(LinkTimer(s, t, x))
    ensures
      var s1 := LinkTimer(s, t, x);
      && t in TimerOrder(s1) && t < |s1.timers| && s1.timers[t] == x.(next := s1.timers[t].next)
  {
    LinkTimerLinks(s, t, x);
    IntrusiveList.LinkKeepsList(TimerLinks(s.timers), s.timerList, t);
  }

  /** A linked, undisturbed timer records what the schedule it has now prescribes. */
  lemma CountsFrom(s: State, t: nat, x: Timer, now: Word, steps: seq<Step>)
    requires Inv(s) && s.started && LegalRun(s, steps) && t < |s.timers| && t in TimerOrder(s) && Undisturbed(steps, t)
    requires ScheduleOf(s.timers[t]) == ScheduleOf(x) && Wrap(s.ticks) == now
    ensures
      && AllRecorded(s, steps, t) == DueCount(x, now, Ticks(steps))
      && t < |Run(s, steps).timers|
      && ScheduleOf(Run(s, steps).timers[t]) == ScheduleOf(Fired(x, now, Ticks(steps)))
  {
    hide Inv, TimerOrder, DueCount, Fired, Undisturbed, Run, LegalRun, AllRecorded;
    FiredNone(x, now);
    WrapSmall(now);
    KeepsTime(s, steps, t, x, now, 0);
  }

  /** A periodic timer that nobody restarts or stops has expired floor(n / p) times after n ticks, for every
      period from 1 to 2^31 + 1 and across every wrap of the tick counter; what was not consumed is pending. */
  lemma PeriodicCounts(s: State, t: nat, p: Word, steps: seq<Step>)
    requires Inv(s) && Legal(s, StartPeriodicStep(t, p)) && 1 <= p <= HORIZON
    requires LegalRun(StartPeriodic(s, t, p), steps) && Undisturbed(steps, t)
    ensures
      var s1 := StartPeriodic(s, t, p);
      && AllRecorded(s1, steps, t) == Ticks(steps) / p
      && t < |Run(s1, steps).timers|
      && Run(s1, steps).timers[t].expirations
         == Wrap(s.timers[t].expirations + Ticks(steps) / p - AllConsumed(s1, steps, t))
  {
    hide StartPeriodic, Inv, TimerOrder, Next, Armed, DueCount, Fired, Undisturbed, Run, LegalRun, AllRecorded,
      AllConsumed, Wrap, ScheduleOf;
    InvWf(s);
    StartedPeriodic(s, t, p);
    var s1 := StartPeriodic(s, t, p);
    CountsFrom(s1, t, Armed(s.timers[t], s.Now(), p, true), s.Now(), steps);
    PeriodicDueCount(s.timers[t], s.Now(), p, Ticks(steps));
    ExpirationsAddUp(s1, steps, t);
  }

  /** A one-shot timer expires exactly once, at its expiry tick, and is inactive from then on. */
  lemma OneShotCounts(s: State, t: nat, d: Word, steps: seq<Step>)
    requires Inv(s) && Legal(s, StartTimerStep(t, d))
    requires LegalRun(StartTimer(s, t, d), steps) && Undisturbed(steps, t)
    ensures
      var s1 := StartTimer(s, t, d);
      && AllRecorded(s1, steps, t) == (if Ticks(steps) < ExpiryTick(d) then 0 else 1)
      && t < |Run(s1, steps).timers|
      && Run(s1, steps).timers[t].active == (Ticks(steps) < ExpiryTick(d))
  {
    hide StartTimer, Inv, TimerOrder, Next, Armed, DueCount, Fired, Undisturbed, Run, LegalRun, AllRecorded;
    InvWf(s);
    StartedOneShot(s, t, d);
    var s1 := StartTimer(s, t, d);
    CountsFrom(s1, t, Armed(s.timers[t], s.Now(), d, false), s.Now(), steps);
    OneShotDueCount(s.timers[t], s.Now(), d, Ticks(steps));
    OneShotAfter(s.timers[t], s.Now(), d, Ticks(steps));
  }

  /** A restart re-arms the timer with the delay or period it was last started with: its schedule is that of a
      fresh start. */
  lemma RestartRearms(s: State, t: nat)
    requires Inv(s) && Legal(s, RestartTimerStep(t)) && s.timers[t].reload > 0
    ensures
      var (x, s1) := (s.timers[t], RestartTimer(s, t));
      && Inv(s1) && s1.started && t < |s1.timers| && t in TimerOrder(s1) && s1.ticks == s.ticks
      && ScheduleOf(s1.timers[t]) == ScheduleOf(Armed(x, s.Now(), x.reload, x.periodic))
      && s1.timers[t].expirations == x.expirations
  {
    hide Inv, TimerOrder, LinkTimer, Wrap;
    InvWf(s);
    ShapeOf(s, t);
    StepKeepsInv(s, RestartTimerStep(t));
    InvWf(RestartTimer(s, t));
    NowLinked(s, t, s.timers[t].(deadline := Wrap(s.Now() + s.timers[t].reload), active := true));
  }

  lemma ShapeOf(s: State, t: nat)
    requires Inv(s) && t < |s.timers|
    ensures TimerShape(s.timers[t])
  {}

  /** After a restart the timer counts as after the start whose interval it repeats. */
  lemma RestartCounts(s: State, t: nat, steps: seq<Step>)
    requires Inv(s) && Legal(s, RestartTimerStep(t)) && s.timers[t].reload > 0
    requires LegalRun(RestartTimer(s, t), steps) && Undisturbed(steps, t)
    ensures !s.timers[t].periodic ==>
              AllRecorded(RestartTimer(s, t), steps, t)
              == if Ticks(steps) < ExpiryTick(s.timers[t].reload) then 0 else 1
    ensures s.timers[t].periodic && s.timers[t].reload <= HORIZON ==>
              AllRecorded(RestartTimer(s, t), steps, t) == Ticks(steps) / s.timers[t].reload
  {
    hide RestartTimer, Inv, TimerOrder, Next, Armed, DueCount, Undisturbed, Run, LegalRun, AllRecorded;
    InvWf(s);
    var (x, s1) := (s.timers[t], RestartTimer(s, t));
    RestartRearms(s, t);
    CountsFrom(s1, t, Armed(x, s.Now(), x.reload, x.periodic), s.Now(), steps);
    if !x.periodic {
      OneShotDueCount(x, s.Now(), x.reload, Ticks(steps));
    } else if x.reload <= HORIZON {
      PeriodicDueCount(x, s.Now(), x.reload, Ticks(steps));
    }
  }

  lemma {:induction false} InactiveStays(t: Timer, now: Word, n: nat)
    requires !t.active
    ensures Fired(t, now, n) == t && DueCount(t, now, n) == 0
  {
    if n > 0 {
      InactiveStays(t, now, n - 1);
    }
  }

  /** A stopped timer does not expire, however long nobody starts it. */
  lemma StoppedStaysQuiet(s: State, t: nat, steps: seq<Step>)
    requires Inv(s) && Legal(s, StopTimerStep(t)) && t in TimerOrder(s)
    requires LegalRun(StopTimer(s, t), steps) && Undisturbed(steps, t)
    ensures AllRecorded(StopTimer(s, t), steps, t) == 0
  {
    hide Inv, TimerOrder, Next, DueCount, Fired, Undisturbed, Run, LegalRun, AllRecorded;
    InvWf(s);
    var s1 := StopTimer(s, t);
    NextStopTimer(s, t);
    StepKeepsInv(s, StopTimerStep(t));
    InvWf(s1);
    ListEnds(s);
    StepKeepsLinked(s, StopTimerStep(t), t);
    CountsFrom(s1, t, s1.timers[t], s.Now(), steps);
    InactiveStays(s1.timers[t], s.Now(), Ticks(steps));
  }

  lemma ListEnds(s: State)
    requires Inv(s) && Wf(s)
    ensures TimerListEnds(s)
  {}
}
