/** What the timer calls and the timer service promise: whose callback runs with which argument, what a call hands out,
    and which fields of which timer change. */
module TimerCalls {
  import opened Types
  import opened TaskTable
  import opened Machine
  import opened WaitInvariant
  import opened TimerInvariant
  import opened TimerRuns
  import opened TaskCalls
  import opened Runs
  import opened Calls
  import IntrusiveList

  /** Timer t alone changes; no task entry does. */
  predicate OnlyTimer(s: State, s': State, t: nat) {
    && OnlyTimers(s, s') && s'.tasks == s.tasks && |s'.timers| == |s.timers|
    && forall k | 0 <= k < |s.timers| && k != t :: s'.timers[k] == s.timers[k]
  }

  /** ... and it stays where it is in the list. */
  predicate OnlyRecord(s: State, s': State, t: nat, x: Timer) {
    t < |s.timers| && s'.timerList == s.timerList && OnlyTimer(s, s', t) && s'.timers[t] == x
  }

  // ---- claiming callbacks ----

  predicate HasWork(x: Timer) {
    x.callback != 0 && x.expirations != 0
  }

  /** i is a timer with work. */
  predicate WorkAt(ts: seq<Timer>, i: int) {
    0 <= i < |ts| && HasWork(ts[i])
  }

  /** t is the first timer of the order that has work. */
  ghost predicate FirstOf(ts: seq<Timer>, order: seq<int>, t: int) {
    exists j: nat :: j < |order| && order[j] == t && WorkAt(ts, t) && forall k | 0 <= k < j :: !WorkAt(ts, order[k])
  }

  /** Timer t is the first of the list with work. */
  ghost predicate FirstWithWork(s: State, t: nat)
    requires ListsValid(s)
  {
    FirstOf(s.timers, TimerOrder(s), t)
  }

  lemma {:induction false} FirstClaimIsFirst(ts: seq<Timer>, order: seq<int>)
    requires forall i | i in order :: 0 <= i < |ts|
    ensures
      var r := FirstClaim(ts, order);
      if r < 0 then forall i | i in order :: !WorkAt(ts, i) else FirstOf(ts, order, r)
    decreases |order|
  {
    if order != [] {
      assert order[0] in order && forall i | i in order[1..] :: i in order;
      if Claimable(ts[order[0]]) {
        assert order[0] == FirstClaim(ts, order);
      } else {
        FirstClaimIsFirst(ts, order[1..]);
        assert forall i | i in order :: i == order[0] || i in order[1..];
        if FirstClaim(ts, order[1..]) >= 0 {
          FirstOfRest(ts, order, FirstClaim(ts, order[1..]));
        }
      }
    }
  }

  lemma FirstOfRest(ts: seq<Timer>, order: seq<int>, t: int)
    requires order != [] && !WorkAt(ts, order[0]) && FirstOf(ts, order[1..], t)
    ensures FirstOf(ts, order, t)
  {
    var rest := order[1..];
    var j: nat :| j < |rest| && rest[j] == t && WorkAt(ts, t) && forall k | 0 <= k < j :: !WorkAt(ts, rest[k]);
    assert order[j + 1] == t;
    forall k | 0 <= k < j + 1 ensures !WorkAt(ts, order[k]) {
      if k > 0 {
        assert rest[k - 1] == order[k];
      }
    }
  }

  lemma FirstIsUnique(s: State, t: nat, u: nat)
    requires ListsValid(s) && FirstWithWork(s, t) && FirstWithWork(s, u)
    ensures t == u
  {}

  /** The timer service claims one expiration of the first timer in list order that has a callback and an expiration,
      and gets that timer's callback and argument; if there is none, it blocks for ever. */
  lemma ServiceClaimOutcome(s: State)
    requires Inv(s) && Legal(s, ServiceClaimStep)
    ensures
      var (s', out) := Next(s, ServiceClaimStep);
      && (forall t: nat | FirstWithWork(s, t) ::
            && t < |s.timers|
            && var x := s.timers[t];
            && out == Claim(x.callback, x.argument)
            && OnlyRecord(s, s', t, x.(expirations := x.expirations - 1)))
      && ((forall t: nat :: !FirstWithWork(s, t)) ==>
            out == Pending && OnlyWaits(s, s', NoCall, s.ticks, WAIT_FOREVER) && ServiceBlocked(Current(s')))
  {
    hide Next, Inv, FirstClaim, FirstWithWork, Block, MakeDeadline, OnlyWaits, IntrusiveList.Order;
    InvWf(s);
    NextServiceClaim(s);
    ClaimIsFirst(s);
    forall t: nat | FirstWithWork(s, t) ensures t == FirstClaim(s.timers, TimerOrder(s)) {
      ClaimFound(s, t);
    }
    BlockWaits(s, ServiceRef, ServiceWait, NoCall, s.ticks, WAIT_FOREVER);
    ServiceBlocks(s);
  }

  lemma ServiceBlocks(s: State)
    requires s.cur < |s.tasks|
    ensures
      ServiceBlocked(Current(Block(s, ServiceRef, ServiceWait, MakeDeadline(s.Now(), WAIT_FOREVER), NoCall)))
  {}

  lemma ClaimIsFirst(s: State)
    requires ListsValid(s)
    ensures
      var i := FirstClaim(s.timers, TimerOrder(s));
      i >= 0 ==> i < |s.timers| && FirstWithWork(s, i)
  {
    hide IntrusiveList.Order;
    FirstClaimIsFirst(s.timers, TimerOrder(s));
  }

  lemma ClaimFound(s: State, t: nat)
    requires ListsValid(s) && FirstWithWork(s, t)
    ensures t == FirstClaim(s.timers, TimerOrder(s)) && t < |s.timers|
  {
    hide IntrusiveList.Order;
    FirstClaimIsFirst(s.timers, TimerOrder(s));
    var i := FirstClaim(s.timers, TimerOrder(s));
    var order := TimerOrder(s);
    var j: nat :| j < |order| && order[j] == t && WorkAt(s.timers, t);
    assert order[j] in order;
    ClaimIsFirst(s);
    FirstIsUnique(s, t, i);
  }

  // ---- settings over runs ----

  /** What the application sets of a timer. */
  datatype Settings = Settings(reload: Word, periodic: bool, callback: nat, argument: nat)

  function SettingsOf(x: Timer): Settings {
    Settings(x.reload, x.periodic, x.callback, x.argument)
  }

  /** What a step makes of timer t's settings. */
  function Set(c: Settings, step: Step, t: nat): Settings {
    match step
    case CreateTimerStep(k) => if k == t then Settings(0, false, 0, 0) else c
    case StartTimerStep(k, delay) => if k == t then c.(reload := delay, periodic := false) else c
    case StartPeriodicStep(k, period) => if k == t && period != 0 then c.(reload := period, periodic := true) else c
    case SetCallbackStep(k, callback, argument) => if k == t then c.(callback := callback, argument := argument) else c
    case _ => c
  }

  ghost function LastSet(c: Settings, steps: seq<Step>, t: nat): Settings
    decreases |steps|
  {
    if steps == [] then c else LastSet(Set(c, steps[0], t), steps[1..], t)
  }

  lemma LinkSettings(s: State, k: nat, x: Timer, t: nat)
    requires Wf(s) && k < |s.timers| && t < |s.timers|
    ensures
      var s' := LinkTimer(s, k, x);
      && |s'.timers| == |s.timers| && s'.timerList == (if k in TimerOrder(s) then s.timerList else k)
      && s'.timers[t] == if t == k then x.(next := s'.timers[t].next) else s.timers[t]
  {}

  lemma FireKeepsSettings(x: Timer, now: Word)
    ensures SettingsOf(Fire(x, now)) == SettingsOf(x)
  {}

  lemma StepSettings(s: State, step: Step, t: nat)
    requires Wf(s) && Legal(s, step) && t < |s.timers|
    ensures
      var s' := Next(s, step).0;
      |s'.timers| == |s.timers| && SettingsOf(s'.timers[t]) == Set(SettingsOf(s.timers[t]), step, t)
  {
    hide Next, LinkTimer, Tick, ServiceClaim, WakeService, Fire, Wrap;
    if !IsTimerStep(step) {
      StepFrame(s, step);
    } else if step.TickStep? {
      NextTick(s);
      TickTimers(s);
      FireKeepsSettings(s.timers[t], Wrap(s.ticks + 1));
    } else if step.ServiceClaimStep? {
      NextServiceClaim(s);
      ClaimKeepsSettings(s, t);
    } else if step.StopTimerStep? || step.SetCallbackStep? || step.TakeExpirationsStep? || step.DispatchStep? {
      RecordSettings(s, step, t);
    } else {
      LinkStepSettings(s, step, t);
    }
  }

  lemma ClaimKeepsSettings(s: State, t: nat)
    requires Wf(s) && t < |s.timers|
    ensures |ServiceClaim(s).0.timers| == |s.timers|
    ensures SettingsOf(ServiceClaim(s).0.timers[t]) == SettingsOf(s.timers[t])
  {
    hide IntrusiveList.Order, Block;
    var i := FirstClaim(s.timers, TimerOrder(s));
    assert i >= 0 ==> i in TimerOrder(s);
  }

  lemma RecordSettings(s: State, step: Step, t: nat)
    requires Wf(s) && Legal(s, step) && t < |s.timers|
    requires step.StopTimerStep? || step.SetCallbackStep? || step.TakeExpirationsStep? || step.DispatchStep?
    ensures
      var s' := Next(s, step).0;
      |s'.timers| == |s.timers| && SettingsOf(s'.timers[t]) == Set(SettingsOf(s.timers[t]), step, t)
  {
    hide Next, WakeService;
    if step.StopTimerStep? {
      NextStopTimer(s, step.t);
    } else if step.SetCallbackStep? {
      NextSetCallback(s, step.t, step.callback, step.argument);
    } else if step.TakeExpirationsStep? {
      NextTakeExpirations(s, step.t);
    } else {
      NextDispatch(s, step.t);
    }
  }

  lemma LinkStepSettings(s: State, step: Step, t: nat)
    requires Wf(s) && Legal(s, step) && t < |s.timers|
    requires step.CreateTimerStep? || step.StartTimerStep? || step.StartPeriodicStep? || step.RestartTimerStep?
    ensures
      var s' := Next(s, step).0;
      |s'.timers| == |s.timers| && SettingsOf(s'.timers[t]) == Set(SettingsOf(s.timers[t]), step, t)
  {
    hide Next, LinkTimer, Wrap, TimerOrder;
    var k := step.t;
    var x := s.timers[k];
    if step.CreateTimerStep? {
      NextCreateTimer(s, k);
      LinkSettings(s, k, Timer(0, 0, 0, 0, false, false, 0, 0, -1), t);
    } else if step.StartTimerStep? {
      NextStartTimer(s, k, step.delay);
      LinkSettings(s, k, Armed(x, s.Now(), step.delay, false), t);
    } else if step.StartPeriodicStep? {
      NextStartPeriodic(s, k, step.period);
      LinkSettings(s, k, Armed(x, s.Now(), step.period, true), t);
    } else {
      NextRestartTimer(s, k);
      LinkSettings(s, k, x.(deadline := Wrap(s.Now() + x.reload), active := true), t);
    }
  }

  /** Over any run a timer's callback and argument are those of the last call that set them since its creation, and the
      interval a restart repeats is that of its last start. */
  lemma {:induction false} SettingsOnRuns(s: State, steps: seq<Step>, t: nat)
    requires LegalRun(s, steps) && t < |s.timers|
    ensures
      var s' := Run(s, steps);
      t < |s'.timers| && SettingsOf(s'.timers[t]) == LastSet(SettingsOf(s.timers[t]), steps, t)
    decreases |steps|
  {
    hide Next, Wf, Set, SettingsOf;
    if steps != [] {
      StepSettings(s, steps[0], t);
      SettingsOnRuns(Next(s, steps[0]).0, steps[1..], t);
    }
  }

  // ---- the calls ----

  /** Timer t is in the list afterwards, its record is x but for the link, and nothing else changes but the list. */
  ghost predicate Linked(s: State, s': State, t: nat, x: Timer)
    requires ListsValid(s)
  {
    && t < |s.timers| && OnlyTimer(s, s', t) && s'.timers[t] == x.(next := s'.timers[t].next)
    && ListsValid(s')
    && TimerOrder(s') == (if t in TimerOrder(s) then TimerOrder(s) else [t] + TimerOrder(s))
  }

  lemma LinkLinks(s: State, t: nat, x: Timer)
    requires Wf(s) && TimerListEnds(s) && t < |s.timers|
    ensures Linked(s, LinkTimer(s, t, x), t, x)
  {
    LinkTimerLinks(s, t, x);
    IntrusiveList.LinkKeepsList(TimerLinks(s.timers), s.timerList, t);
    LinkRecords(s, t, x);
  }

  lemma InvList(s: State)
    requires Inv(s)
    ensures Wf(s) && TimerListEnds(s)
  {}

  /** A created timer is idle, without callback or expirations; an unlinked one goes to the front of the list. */
  lemma CreateTimerOutcome(s: State, t: nat)
    requires Inv(s) && Legal(s, CreateTimerStep(t))
    ensures Wf(s) && Linked(s, Next(s, CreateTimerStep(t)).0, t, Timer(0, 0, 0, 0, false, false, 0, 0, -1))
  {
    hide Next, Inv, Linked, LinkTimer;
    InvList(s);
    NextCreateTimer(s, t);
    LinkLinks(s, t, Timer(0, 0, 0, 0, false, false, 0, 0, -1));
  }

  /** A started timer is active with its deadline that many ticks ahead; what it has pending stays pending. */
  lemma StartTimerOutcome(s: State, t: nat, delay: Word)
    requires Inv(s) && Legal(s, StartTimerStep(t, delay))
    ensures
      && Wf(s)
      && Linked(s, Next(s, StartTimerStep(t, delay)).0, t,
                s.timers[t].(deadline := (s.ticks + delay) % WORD, period := 0, reload := delay,
                periodic := false, active := true))
  {
    hide Next, Inv, Linked, LinkTimer, Wrap;
    InvList(s);
    NextStartTimer(s, t, delay);
    DeadlineAhead(s.ticks, delay);
    LinkLinks(s, t, Armed(s.timers[t], s.Now(), delay, false));
  }

  lemma DeadlineAhead(ticks: nat, d: Word)
    ensures Wrap(Wrap(ticks) + d) == (ticks + d) % WORD
  {
    WrapTwice(ticks, d);
  }

  /** So is a timer started periodically, unless the period is 0, which changes nothing. */
  lemma StartPeriodicOutcome(s: State, t: nat, period: Word)
    requires Inv(s) && Legal(s, StartPeriodicStep(t, period))
    ensures
      var s' := Next(s, StartPeriodicStep(t, period)).0;
      && Wf(s)
      && if period == 0 then s' == s
         else Linked(s, s', t, s.timers[t].(deadline := (s.ticks + period) % WORD, period := period, reload := period,
                               periodic := true, active := true))
  {
    hide Next, Inv, Linked, LinkTimer, Wrap;
    InvList(s);
    NextStartPeriodic(s, t, period);
    DeadlineAhead(s.ticks, period);
    LinkLinks(s, t, Armed(s.timers[t], s.Now(), period, true));
  }

  /** A restart repeats the interval last set, unless it is 0, which changes nothing. */
  lemma RestartOutcome(s: State, t: nat)
    requires Inv(s) && Legal(s, RestartTimerStep(t))
    ensures
      var (s', x) := (Next(s, RestartTimerStep(t)).0, s.timers[t]);
      && Wf(s)
      && if x.reload == 0 then s' == s
         else Linked(s, s', t, x.(deadline := (s.ticks + x.reload) % WORD, active := true))
  {
    hide Next, Inv, Linked, LinkTimer, Wrap;
    InvList(s);
    NextRestartTimer(s, t);
    DeadlineAhead(s.ticks, s.timers[t].reload);
    LinkLinks(s, t, s.timers[t].(deadline := Wrap(s.Now() + s.timers[t].reload), active := true));
  }

  /** A stopped timer is inactive and keeps everything else, its pending expirations too. */
  lemma StopOutcome(s: State, t: nat)
    requires Inv(s) && Legal(s, StopTimerStep(t))
    ensures OnlyRecord(s, Next(s, StopTimerStep(t)).0, t, s.timers[t].(active := false))
  {
    hide Next, Inv;
    InvWf(s);
    NextStopTimer(s, t);
  }

  /** Everything pending is handed out. */
  lemma TakeExpirationsOutcome(s: State, t: nat)
    requires Inv(s) && Legal(s, TakeExpirationsStep(t))
    ensures
      var (s', out) := Next(s, TakeExpirationsStep(t));
      out == Value(s.timers[t].expirations) && OnlyRecord(s, s', t, s.timers[t].(expirations := 0))
  {
    hide Next, Inv;
    InvWf(s);
    NextTakeExpirations(s, t);
  }

  /** A dispatch runs the callback for everything pending, if there is a callback, and otherwise leaves it pending. */
  lemma DispatchOutcome(s: State, t: nat)
    requires Inv(s) && Legal(s, DispatchStep(t))
    ensures
      var ((s', out), x) := (Next(s, DispatchStep(t)), s.timers[t]);
      if x.callback == 0 then s' == s && out == Value(0)
      else out == Value(x.expirations) && OnlyRecord(s, s', t, x.(expirations := 0))
  {
    hide Next, Inv;
    InvWf(s);
    NextDispatch(s, t);
  }

  /** A callback is set for this timer; the timer service is woken exactly if it sleeps and the timer now has work. */
  lemma SetCallbackOutcome(s: State, t: nat, callback: nat, argument: nat)
    requires Inv(s) && Legal(s, SetCallbackStep(t, callback, argument))
    ensures
      var s' := Next(s, SetCallbackStep(t, callback, argument)).0;
      && OnlyRecord(s, s'.(tasks := s.tasks), t, s.timers[t].(callback := callback, argument := argument))
      && |s'.tasks| == |s.tasks|
      && forall i | 0 <= i < |s.tasks| ::
           if i == s.Service() && s.tasks[i].state.Blocked? && HasWork(s'.timers[t]) then
             Woken(s.tasks[i], s'.tasks[i], true)
           else s'.tasks[i] == s.tasks[i]
  {
    hide Next, Inv, Woken, WaitEnd;
    InvWf(s);
    NextSetCallback(s, t, callback, argument);
    var service := s.tasks[s.Service()];
    assert TaskOk(s, s.Service(), service);
    if service.state.Blocked? {
      WaitEndWakes(service);
    }
  }

  /** The timer after it has expired: one expiration more; a periodic one is due again a period later, a one-shot one
      is inactive. */
  function AfterExpiry(x: Timer): Timer {
    if x.periodic then x.(expirations := (x.expirations + 1) % WORD, deadline := (x.deadline + x.period) % WORD)
    else x.(expirations := (x.expirations + 1) % WORD, active := false)
  }

  lemma FireExpires(x: Timer, now: Word)
    ensures Fire(x, now) == if Due(x, now) then AfterExpiry(x) else x
  {
    hide Wrap, Due;
    WrapIs(x.expirations + 1);
    WrapIs(x.deadline + x.period);
  }

  /** At a tick exactly the linked, active timers whose deadline is reached expire. */
  lemma TickTimersOutcome(s: State, t: nat)
    requires Inv(s) && s.started && t < |s.timers|
    ensures
      var s' := Next(s, TickStep).0;
      && Wf(s) && s'.timerList == s.timerList && |s'.timers| == |s.timers|
      && s'.timers[t] == if t in TimerOrder(s) && ExpiresNext(s, t) then AfterExpiry(s.timers[t]) else s.timers[t]
  {
    hide Next, Inv, Tick, Fire, AfterExpiry, Due, ExpiresNext, TimerOrder, Wrap;
    InvWf(s);
    NextTick(s);
    TickTimers(s);
    DueIff(s, t);
    FireExpires(s.timers[t], Wrap(s.ticks + 1));
  }
}
