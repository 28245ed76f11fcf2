/** Software timers: the list stays finite, every callback expiration is claimed, and expirations are
    counted exactly across the 32-bit wrap. */
module TimerInvariant {
  import opened Arith
  import opened Types
  import opened Graph
  import opened TaskTable
  import opened Machine
  import opened WaitInvariant
  import opened Phases
  import IntrusiveList

  // ---- the invariant ----

  predicate TimerListEnds(s: State)
    requires ListsValid(s)
  {
    Ends(TimerLinks(s.timers), s.timerList)
  }

  /** A timer is periodic exactly if it has a period, which then is the interval it was last started with. */
  predicate TimerShape(t: Timer) {
    (t.periodic <==> t.period != 0) && (t.periodic ==> t.period == t.reload)
  }

  /** The service sleeps only if no linked timer has callback work. */
  ghost predicate ServiceOk(s: State)
    requires Wf(s)
  {
    ServiceBlocked(s.tasks[s.Service()]) ==> forall t | t in TimerOrder(s) :: !Claimable(s.timers[t])
  }

  ghost predicate TimersOk(s: State)
    requires Wf(s)
  {
    && TimerListEnds(s)
    && (forall t | 0 <= t < |s.timers| :: TimerShape(s.timers[t]))
    && (forall t | 0 <= t < |s.timers| && t !in TimerOrder(s) :: s.timers[t].expirations == 0)
    && ServiceOk(s)
  }

  // ---- steps that change timers ----

  /** Linking a timer whose expirations and callback are those it had (or none at all). */
  lemma LinkKeepsTimers(s: State, t: nat, x: Timer)
    requires Sane(s) && TimersOk(s) && t < |s.timers| && TimerShape(x)
    requires (x.expirations == s.timers[t].expirations && x.callback == s.timers[t].callback) || x.expirations == 0
    ensures Wf(LinkTimer(s, t, x)) && TimersOk(LinkTimer(s, t, x))
  {
    hide LinkTimer, IntrusiveList.Order, TimerListEnds;
    LinkTimerSane(s, t, x);
    LinkOrder(s, t, x);
    LinkRecords(s, t, x);
  }

  lemma LinkOrder(s: State, t: nat, x: Timer)
    requires Wf(s) && TimerListEnds(s) && t < |s.timers| && Wf(LinkTimer(s, t, x))
    ensures TimerListEnds(LinkTimer(s, t, x))
    ensures forall i :: i in TimerOrder(LinkTimer(s, t, x)) <==> i == t || i in TimerOrder(s)
  {
    hide LinkTimer;
    LinkTimerLinks(s, t, x);
    IntrusiveList.LinkKeepsList(TimerLinks(s.timers), s.timerList, t);
  }

  lemma LinkRecords(s: State, t: nat, x: Timer)
    requires Wf(s) && t < |s.timers|
    ensures
      var s' := LinkTimer(s, t, x);
      && s'.tasks == s.tasks && |s'.timers| == |s.timers| && s'.timers[t] == x.(next := s'.timers[t].next)
      && forall i | 0 <= i < |s.timers| && i != t :: s'.timers[i] == s.timers[i]
  {}

  /** A timer record changes without gaining callback work, unless the service is awake. */
  lemma UpdateKeepsTimers(s: State, t: nat, x: Timer, ts: seq<Task>)
    requires Sane(s) && TimersOk(s) && t < |s.timers| && TimerShape(x) && x.next == s.timers[t].next
    requires ts == s.tasks || ts == WakeService(s.tasks, s.Service())
    requires Claimable(x) ==> Claimable(s.timers[t]) || !ServiceBlocked(ts[s.Service()])
    requires x.expirations == 0 || t in TimerOrder(s) || x.expirations == s.timers[t].expirations
    ensures var s' := s.(timers := s.timers[t := x], tasks := ts); Wf(s') && TimersOk(s')
  {
    var s' := s.(timers := s.timers[t := x], tasks := ts);
    TimerUpdateSane(s, t, x, ts);
    assert TimerLinks(s'.timers) == TimerLinks(s.timers);
  }

  lemma CreateKeepsTimers(s: State, t: nat)
    requires Sane(s) && TimersOk(s) && t < |s.timers|
    ensures Wf(CreateTimer(s, t)) && TimersOk(CreateTimer(s, t))
  {
    LinkKeepsTimers(s, t, Timer(0, 0, 0, 0, false, false, 0, 0, -1));
  }

  lemma StartKeepsTimers(s: State, t: nat, delay: Word)
    requires Sane(s) && TimersOk(s) && t < |s.timers|
    ensures Wf(StartTimer(s, t, delay)) && TimersOk(StartTimer(s, t, delay))
  {
    LinkKeepsTimers(s, t, Armed(s.timers[t], s.Now(), delay, false));
  }

  lemma StartPeriodicKeepsTimers(s: State, t: nat, period: Word)
    requires Sane(s) && TimersOk(s) && t < |s.timers|
    ensures Wf(StartPeriodic(s, t, period)) && TimersOk(StartPeriodic(s, t, period))
  {
    if period != 0 {
      LinkKeepsTimers(s, t, Armed(s.timers[t], s.Now(), period, true));
    }
  }

  lemma RestartKeepsTimers(s: State, t: nat)
    requires Sane(s) && TimersOk(s) && t < |s.timers|
    ensures Wf(RestartTimer(s, t)) && TimersOk(RestartTimer(s, t))
  {
    if s.timers[t].reload != 0 {
      LinkKeepsTimers(s, t, s.timers[t].(deadline := Wrap(s.Now() + s.timers[t].reload), active := true));
    }
  }

  lemma StopKeepsTimers(s: State, t: nat)
    requires Sane(s) && TimersOk(s) && t < |s.timers|
    ensures Wf(StopTimer(s, t)) && TimersOk(StopTimer(s, t))
  {
    UpdateKeepsTimers(s, t, s.timers[t].(active := false), s.tasks);
  }

  lemma CallbackKeepsTimers(s: State, t: nat, callback: nat, argument: nat)
    requires Sane(s) && TimersOk(s) && t < |s.timers|
    ensures Wf(SetCallback(s, t, callback, argument)) && TimersOk(SetCallback(s, t, callback, argument))
  {
    UpdateKeepsTimers(s, t, s.timers[t].(callback := callback, argument := argument),
      SetCallback(s, t, callback, argument).tasks);
  }

  lemma TakeKeepsTimers(s: State, t: nat)
    requires Sane(s) && TimersOk(s) && t < |s.timers|
    ensures Wf(TakeExpirations(s, t).0) && TimersOk(TakeExpirations(s, t).0)
  {
    UpdateKeepsTimers(s, t, s.timers[t].(expirations := 0), s.tasks);
  }

  lemma UpdateStepsKeepTimers(s: State, step: Step)
    requires Sane(s) && TimersOk(s) && Legal(s, step)
    requires step.StopTimerStep? || step.SetCallbackStep? || step.TakeExpirationsStep? || step.DispatchStep?
    ensures Wf(Next(s, step).0) && TimersOk(Next(s, step).0)
  {
    hide Next, WakeService, TimerOrder, TimersOk;
    if step.StopTimerStep? {
      NextStopTimer(s, step.t);
      StopKeepsTimers(s, step.t);
    } else if step.SetCallbackStep? {
      NextSetCallback(s, step.t, step.callback, step.argument);
      CallbackKeepsTimers(s, step.t, step.callback, step.argument);
    } else if step.TakeExpirationsStep? {
      NextTakeExpirations(s, step.t);
      TakeKeepsTimers(s, step.t);
    } else {
      NextDispatch(s, step.t);
      TakeKeepsTimers(s, step.t);
    }
  }

  lemma ClaimKeepsTimers(s: State)
    requires Sane(s) && TimersOk(s) && Executing(s) && s.cur == s.Service()
    ensures Wf(ServiceClaim(s).0) && TimersOk(ServiceClaim(s).0)
  {
    var i := FirstClaim(s.timers, TimerOrder(s));
    var s' := ServiceClaim(s).0;
    if i >= 0 {
      UpdateKeepsTimers(s, i, s'.timers[i], s'.tasks);
    }
  }

  lemma TimerTickKeepsTimers(s: State)
    requires Sane(s) && TimersOk(s)
    ensures Wf(TimerTick(s)) && TimersOk(TimerTick(s))
  {
    var s' := TimerTick(s);
    TimerTickSane(s);
    assert TimerLinks(s'.timers) == TimerLinks(s.timers);
    if ServiceBlocked(s'.tasks[s.Service()]) {
      forall t | t in TimerOrder(s') ensures !Claimable(s'.timers[t]) {
        assert s'.timers[t] == Fire(s.timers[t], s.Now());
      }
    }
  }

  /** The task pass of a tick neither blocks the service nor wakes it. */
  lemma TickKeepsTimers(s: State)
    requires Sane(s) && TimersOk(s)
    ensures Wf(Tick(s)) && TimersOk(Tick(s))
  {
    hide TickTasks, TimerTick;
    var s0 := s.(ticks := s.ticks + 1);
    WakesOnlySane(s, s0);
    TickSane(s);
    TimerTickKeepsTimers(s0);
    ServiceTick(s);
  }

  lemma ServiceTick(s: State)
    requires Sane(s)
    ensures
      var s1 := TimerTick(s.(ticks := s.ticks + 1));
      ServiceBlocked(Tick(s).tasks[s.Service()]) ==> ServiceBlocked(s1.tasks[s.Service()])
  {
    hide TimerTick, Tick, Wrap;
    var s1 := TimerTick(s.(ticks := s.ticks + 1));
    TickTasksOfTick(s, s1, s.Service());
    var t', t1 := Tick(s).tasks[s.Service()], TickOne(s1.tasks[s.Service()], Wrap(s.ticks + 1));
    assert t' == t1.(priority := t'.priority);
  }

  // ---- the other steps ----

  lemma ServiceFrame(s: State, s': State, p: Protocol)
    requires Sane(s) && Sane(s') && AllKeep(p, s, s') && p != ServiceProtocol && s'.apps == s.apps
    ensures ServiceBlocked(s'.tasks[s'.Service()]) ==> ServiceBlocked(s.tasks[s.Service()])
  {
    assert TaskOk(s', s'.Service(), s'.tasks[s'.Service()]);
    assert Keeps(p, s.tasks[s.Service()], s'.tasks[s.Service()]);
  }

  lemma OtherStepKeepsTimers(s: State, step: Step)
    requires Sane(s) && TimersOk(s) && Legal(s, step) && !IsTimerStep(step)
    requires forall i | 0 <= i < |s.tasks| :: s.tasks[i].priority >= 0
    ensures Wf(Next(s, step).0) && TimersOk(Next(s, step).0)
  {
    hide Next;
    StepSane(s, step);
    StepKeeps(s, step);
    StepFrame(s, step);
    ServiceFrame(s, Next(s, step).0, StepProtocol(s, step));
  }

  lemma StepKeepsTimers(s: State, step: Step)
    requires Sane(s) && TimersOk(s) && Legal(s, step)
    requires forall i | 0 <= i < |s.tasks| :: s.tasks[i].priority >= 0
    ensures Wf(Next(s, step).0) && TimersOk(Next(s, step).0)
  {
    hide Next, TimersOk, Tick, StartTimer, StartPeriodic, RestartTimer, ServiceClaim, CreateTimer;
    if !IsTimerStep(step) {
      OtherStepKeepsTimers(s, step);
    } else if step.TickStep? {
      NextTick(s);
      TickKeepsTimers(s);
    } else if step.ServiceClaimStep? {
      NextServiceClaim(s);
      ClaimKeepsTimers(s);
    } else if step.StopTimerStep? || step.SetCallbackStep? || step.TakeExpirationsStep? || step.DispatchStep? {
      UpdateStepsKeepTimers(s, step);
    } else if step.CreateTimerStep? {
      NextCreateTimer(s, step.t);
      CreateKeepsTimers(s, step.t);
    } else if step.StartTimerStep? {
      NextStartTimer(s, step.t, step.delay);
      StartKeepsTimers(s, step.t, step.delay);
    } else if step.StartPeriodicStep? {
      NextStartPeriodic(s, step.t, step.period);
      StartPeriodicKeepsTimers(s, step.t, step.period);
    } else {
      NextRestartTimer(s, step.t);
      RestartKeepsTimers(s, step.t);
    }
  }

  // ---- counting expirations ----

  /** The timer after n ticks on which nothing else touches it; now is the tick count before the first. */
  function Fired(t: Timer, now: Word, n: nat): Timer {
    if n == 0 then t else Fire(Fired(t, now, n - 1), Wrap(now + n))
  }

  /** Started now with delay or period d: the deadline is d ticks away, modulo 2^32. */
  function Armed(t: Timer, now: Word, d: Word, periodic: bool): Timer {
    t.(deadline := Wrap(now + d), period := if periodic then d else 0, reload := d,
    periodic := periodic, active := true)
  }

  /** The longest distance the signed comparison measures: one tick is already over at the first check. */
  const HORIZON: int := 0x8000_0001

  lemma DueExactly(now: Word, n: nat, d: int)
    requires d - HORIZON < n <= d
    ensures Wrap(Wrap(now + n) - Wrap(now + d)) < 0x8000_0000 <==> n == d
  {
    WrapDifference(now + n, now + d);
    assert now + n - (now + d) == n - d;
  }

  lemma PeriodStep(n: nat, p: nat)
    requires p > 0 && n > 0
    ensures
      var k := (n - 1) / p;
      && p * k < n <= p * k + p
      && n / p == if n == p * k + p then k + 1 else k
  {
    var k := (n - 1) / p;
    assert n - 1 == p * k + (n - 1) % p;
    if n == p * k + p {
      assert (k + 1) * p == p * k + p;
      QuotientIs(n, p, k + 1);
    } else {
      QuotientIs(n, p, k);
    }
  }

  /** One tick of a periodic timer whose next deadline is b ticks after now. */
  lemma PeriodicTick(t: Timer, now: Word, p: Word, n: nat, b: int)
    requires 1 <= p <= HORIZON && t.periodic && t.active && t.period == p && t.deadline == Wrap(now + b)
    requires b - p < n <= b
    ensures
      Fire(t, Wrap(now + n))
      == if n == b then t.(expirations := Wrap(t.expirations + 1), deadline := Wrap(now + b + p)) else t
  {
    DueExactly(now, n, b);
    WrapTwice(now + b, p);
  }

  /** A periodic timer after n undisturbed ticks. */
  lemma {:induction false} PeriodicAfter(t: Timer, now: Word, p: Word, n: nat)
    requires 1 <= p <= HORIZON
    ensures Fired(Armed(t, now, p, true), now, n)
         == Armed(t, now, p, true).(expirations := Wrap(t.expirations + n / p), deadline := Wrap(now + p * (n / p) + p))
  {
    hide Fire, Wrap;
    if n > 0 {
      var k := (n - 1) / p;
      PeriodicAfter(t, now, p, n - 1);
      PeriodStep(n, p);
      PeriodAdvance(p, k);
      PeriodicTick(Fired(Armed(t, now, p, true), now, n - 1), now, p, n, p * k + p);
      WrapTwice(t.expirations + k, 1);
    } else {
      QuotientIs(0, p, 0);
      WrapSmall(t.expirations);
    }
  }

  lemma PeriodAdvance(p: int, k: int)
    ensures p * (k + 1) == p * k + p
  {}

  /** Exactly the periods up to 2^31 + 1 are counted right: floor(n / p) expirations after n ticks, for every n. */
  lemma PeriodicCountExactIff(t: Timer, now: Word, p: Word)
    requires p >= 1
    ensures (forall n: nat :: Fired(Armed(t, now, p, true), now, n).expirations == Wrap(t.expirations + n / p))
            <==> p <= HORIZON
  {
    if p <= HORIZON {
      forall n: nat ensures Fired(Armed(t, now, p, true), now, n).expirations == Wrap(t.expirations + n / p) {
        PeriodicAfter(t, now, p, n);
      }
    } else {
      FiresAtOnce(t, now, p, true);
      QuotientIs(1, p, 0);
      assert Fired(Armed(t, now, p, true), now, 1).expirations != Wrap(t.expirations + 1 / p);
    }
  }

  /** Beyond the horizon, and for a delay of zero, the first tick is already taken for the deadline. */
  lemma FiresAtOnce(t: Timer, now: Word, d: Word, periodic: bool)
    requires d > HORIZON || d == 0
    ensures Fired(Armed(t, now, d, periodic), now, 1).expirations == Wrap(t.expirations + 1)
    ensures !periodic ==> !Fired(Armed(t, now, d, periodic), now, 1).active
  {
    hide Wrap;
    var a := Armed(t, now, d, periodic);
    assert Fired(a, now, 0) == a;
    WrapDifference(now + 1, now + d);
    assert now + 1 - (now + d) == 1 - d;
    BeforeHorizon(d);
  }

  lemma BeforeHorizon(d: Word)
    requires d > HORIZON || d == 0
    ensures Wrap(1 - d) < 0x8000_0000
  {}

  /** The tick at which a one-shot timer expires. */
  function ExpiryTick(d: Word): nat {
    if 1 <= d <= HORIZON then d else 1
  }

  /** A one-shot timer expires exactly once, at its expiry tick, and is inactive from then on. */
  lemma {:induction false} OneShotAfter(t: Timer, now: Word, d: Word, n: nat)
    ensures
      var f := Fired(Armed(t, now, d, false), now, n);
      && f.active == (n < ExpiryTick(d))
      && f.expirations == (if n < ExpiryTick(d) then t.expirations else Wrap(t.expirations + 1))
      && f.deadline == Wrap(now + d) && !f.periodic
  {
    if n > 0 {
      OneShotAfter(t, now, d, n - 1);
      if n <= ExpiryTick(d) {
        if 1 <= d <= HORIZON {
          DueExactly(now, n, d);
        } else {
          FiresAtOnce(t, now, d, false);
        }
      }
    }
  }
}
