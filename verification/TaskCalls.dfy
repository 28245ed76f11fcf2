/** What the context switch, the tick and the task calls promise: which task entries change, and how. */
module TaskCalls {
  import opened Types
  import opened TaskTable
  import opened Machine
  import opened WaitInvariant
  import opened MutexInvariant
  import opened Runs
  import opened Calls
  import Scheduler

  // ---- the context switch ----

  /** The processor can go to task i: it is READY, or it is the task that runs now. */
  predicate Candidate(s: State, i: nat) {
    i < |s.tasks| && (s.tasks[i].state.Ready? || (s.tasks[i].state.Running? && i == s.cur))
  }

  /** A switch makes one candidate RUNNING, the nearest in cyclic order among those of the highest priority. A task that
      loses the processor is READY and otherwise as it was; every other entry is untouched. */
  lemma SwitchOutcome(s: State)
    requires Inv(s) && s.started
    ensures
      var s' := Next(s, SwitchStep).0;
      && OnlyTasks(s.(cur := s'.cur), s') && s'.cur < |s.tasks|
      && Candidate(s, s'.cur) && Current(s') == s.tasks[s'.cur].(state := Running)
      && (s'.cur != s.cur ==>
            s'.tasks[s.cur] == if Current(s).state.Running? then Current(s).(state := Ready) else Current(s))
      && (forall i | 0 <= i < |s.tasks| && i != s.cur && i != s'.cur :: s'.tasks[i] == s.tasks[i])
      && (forall i: nat | Candidate(s, i) ::
            && s.tasks[i].priority <= s.tasks[s'.cur].priority
            && (s.tasks[i].priority == s.tasks[s'.cur].priority ==>
                  Scheduler.Distance(s.cur, s'.cur, |s.tasks|) <= Scheduler.Distance(s.cur, i, |s.tasks|)))
  {
    hide Next, Inv, Select, Scheduler.Distance;
    InvWf(s);
    InvPriorities(s);
    NextSwitch(s);
    SwitchElects(s);
    ElectedIsBest(s, Switch(s).cur);
    var next := Switch(s).cur;
    assert Preempt(s.tasks, s.cur)[next].(state := Running) == s.tasks[next].(state := Running);
  }

  lemma InvPriorities(s: State)
    requires Inv(s)
    ensures Sane(s) && forall i | 0 <= i < |s.tasks| :: s.tasks[i].priority >= 0
  {
    NonNegative(s);
  }

  lemma ElectedIsBest(s: State, next: nat)
    requires TasksOk(s) && s.cur < |s.tasks| && next < |s.tasks|
    requires Scheduler.Elected(Preempt(s.tasks, s.cur), s.cur, next)
    ensures Candidate(s, next)
    ensures forall i: nat | Candidate(s, i) ::
              && s.tasks[i].priority <= s.tasks[next].priority
              && (s.tasks[i].priority == s.tasks[next].priority ==>
                    Scheduler.Distance(s.cur, next, |s.tasks|) <= Scheduler.Distance(s.cur, i, |s.tasks|))
  {
    hide Scheduler.Distance;
    assert TaskOk(s, next, s.tasks[next]);
    var ts := Preempt(s.tasks, s.cur);
    forall i: nat | Candidate(s, i) ensures ts[i].state.Ready? && ts[i].priority == s.tasks[i].priority {
    }
  }

  // ---- the tick ----

  /** A timer with a callback expires at the next tick. */
  ghost predicate CallsBackNext(s: State)
    requires ListsValid(s)
  {
    exists k :: k in TimerOrder(s) && ExpiresNext(s, k) && s.timers[k].callback != 0
  }

  /** Timer k is active and at the next tick its deadline lies at most 2^31 - 1 ticks back. */
  predicate ExpiresNext(s: State, k: int) {
    0 <= k < |s.timers| && s.timers[k].active && (s.ticks + 1 - s.timers[k].deadline) % WORD < 0x8000_0000
  }

  /** At the next tick as many ticks have passed since the wait began, modulo 2^32, as its deadline allows. */
  predicate TimeUp(s: State, t: Task) {
    !t.waitForever && (s.ticks + 1 - t.waitStart) % WORD >= (t.waitDeadline - t.waitStart) % WORD
  }

  /** What a tick makes of task i, its effective priority aside. */
  ghost predicate Ticked(s: State, i: nat, t: Task, t': Task)
    requires ListsValid(s)
  {
    if t.state.Sleeping? then
      && t.sleepTicks > 0
      && t' == t.(sleepTicks := t.sleepTicks - 1, state := if t.sleepTicks == 1 then Ready else Sleeping)
    else if t.state.Blocked? && i == s.Service() then if CallsBackNext(s) then Woken(t, t', true) else t' == t
    else if t.state.Blocked? && TimeUp(s, t) then Woken(t, t', false)
    else t' == t
  }

  /** A tick wakes exactly the sleepers whose delay ends, the waiters whose time is up, and the timer service if there
      is a callback to run; all other entries stay, their effective priorities aside. */
  lemma TickOutcome(s: State)
    requires Inv(s) && s.started
    ensures
      var s' := Next(s, TickStep).0;
      && ListsValid(s) && s'.ticks == s.ticks + 1 && s'.cur == s.cur && |s'.tasks| == |s.tasks|
      && forall i | 0 <= i < |s.tasks| :: Ticked(s, i, s.tasks[i], s'.tasks[i].(priority := s.tasks[i].priority))
  {
    hide Next, Inv, Tick, Ticked;
    InvWf(s);
    NextTick(s);
    StepFrame(s, TickStep);
    forall i | 0 <= i < |s.tasks|
      ensures Ticked(s, i, s.tasks[i], Tick(s).tasks[i].(priority := s.tasks[i].priority))
    {
      TickOfTask(s, i);
    }
  }

  lemma TickOfTask(s: State, i: nat)
    requires Wf(s) && TasksOk(s) && i < |s.tasks| && |Tick(s).tasks| == |s.tasks|
    ensures Ticked(s, i, s.tasks[i], Tick(s).tasks[i].(priority := s.tasks[i].priority))
  {
    hide Tick, Ticked, TickOne, TimerTick;
    ClockWf(s);
    var s1 := TimerTick(s.(ticks := s.ticks + 1));
    TickTasksOfTick(s, s1, i);
    ServiceOfTick(s, s1);
    RestPriority(Tick(s).tasks[i], TickOne(s1.tasks[i], Wrap(s.ticks + 1)), s.tasks[i].priority);
    assert TaskOk(s, i, s.tasks[i]);
    OneTicked(s, i, s.tasks[i], s1.tasks[i]);
  }

  lemma ClockWf(s: State)
    requires Wf(s)
    ensures Wf(s.(ticks := s.ticks + 1))
  {}

  lemma RestPriority(t: Task, u: Task, p: int)
    requires Rest(t) == Rest(u)
    ensures t.(priority := p) == u.(priority := p)
  {
    assert t == u.(priority := t.priority);
  }

  /** The timers' part of a tick moves nobody but the timer service. */
  lemma ServiceOfTick(s: State, s1: State)
    requires Wf(s) && s1 == TimerTick(s.(ticks := s.ticks + 1))
    ensures |s1.tasks| == |s.tasks|
    ensures forall i | 0 <= i < |s.tasks| ::
              s1.tasks[i]
              == if i == s.Service() && ServiceBlocked(s.tasks[i]) && CallsBackNext(s) then WaitEnd(s.tasks[i], true)
                 else s.tasks[i]
  {
    CallsBackIff(s);
  }

  lemma CallsBackIff(s: State)
    requires Wf(s)
    ensures CallsBack(s.timers, TimerOrder(s), Wrap(s.ticks + 1)) <==> CallsBackNext(s)
  {
    if CallsBack(s.timers, TimerOrder(s), Wrap(s.ticks + 1)) {
      var k :| 0 <= k < |s.timers| && k in TimerOrder(s) && Due(s.timers[k], Wrap(s.ticks + 1))
               && s.timers[k].callback != 0;
      DueIff(s, k);
    }
    if CallsBackNext(s) {
      var k :| k in TimerOrder(s) && ExpiresNext(s, k) && s.timers[k].callback != 0;
      DueIff(s, k);
    }
  }

  lemma DueIff(s: State, k: nat)
    requires k < |s.timers|
    ensures Due(s.timers[k], Wrap(s.ticks + 1)) <==> ExpiresNext(s, k)
  {
    hide Wrap;
    var deadline: int := s.timers[k].deadline;
    WrapTwice(s.ticks + 1, -deadline);
    WrapIs(s.ticks + 1 - deadline);
  }

  lemma WrapIs(x: int)
    ensures Wrap(x) == x % WORD
  {}

  lemma OneTicked(s: State, i: nat, t: Task, t1: Task)
    requires ListsValid(s) && TaskOk(s, i, t)
    requires t1 == if i == s.Service() && ServiceBlocked(t) && CallsBackNext(s) then WaitEnd(t, true) else t
    ensures Ticked(s, i, t, TickOne(t1, Wrap(s.ticks + 1)).(priority := t.priority))
  {
    hide Wrap, CallsBackNext, ListsValid, TimedOut, TimeUp, Woken, WaitEnd, SleepTick;
    TimeUpIff(s, t);
    TickOnePriority(t, Wrap(s.ticks + 1));
    if t.state.Sleeping? {
      SleeperTicked(t);
    } else if t.state.Blocked? {
      WaitEnds(t);
      if i == s.Service() {
        ServiceWaits(s, i, t);
      }
      if t1 != t {
        TickOneReady(t1, Wrap(s.ticks + 1));
      }
    }
  }

  lemma TickOnePriority(t: Task, now: Word)
    ensures TickOne(t, now).(priority := t.priority) == TickOne(t, now)
  {
    hide TimedOut;
  }

  lemma TickOneReady(t: Task, now: Word)
    requires t.state.Ready?
    ensures TickOne(t, now) == t && t.(priority := t.priority) == t
  {}

  lemma SleeperTicked(t: Task)
    requires t.state.Sleeping? && t.sleepTicks > 0
    ensures SleepTick(t) == t.(sleepTicks := t.sleepTicks - 1, state := if t.sleepTicks == 1 then Ready else Sleeping)
  {}

  lemma WaitEnds(t: Task)
    requires t.state.Blocked?
    ensures forall r :: Woken(t, WaitEnd(t, r), r) && WaitEnd(t, r).state.Ready? && WaitEnd(t, r).priority == t.priority
  {}

  /** The blocked timer service waits for itself and for ever. */
  lemma ServiceWaits(s: State, i: nat, t: Task)
    requires TaskOk(s, i, t) && t.state.Blocked? && i == s.Service()
    ensures ServiceBlocked(t) && !TimeUp(s, t)
  {}

  lemma TimeUpIff(s: State, t: Task)
    ensures TimedOut(t, Wrap(s.ticks + 1)) <==> t.state.Blocked? && TimeUp(s, t)
    ensures TimeUp(s, t) ==> !t.waitForever
  {
    hide Wrap;
    var start: int := t.waitStart;
    WrapTwice(s.ticks + 1, -start);
    WrapIs(s.ticks + 1 - t.waitStart);
    WrapIs(t.waitDeadline - t.waitStart);
  }

  // ---- delay, suspension, start ----

  /** A delay puts the caller alone to sleep, or gives up the processor if it is 0. */
  lemma DelayOutcome(s: State, n: Word)
    requires Inv(s) && Legal(s, DelayStep(n))
    ensures
      var s' := Next(s, DelayStep(n)).0;
      && OnlyTasks(s, s') && OthersKeep(s, s')
      && Current(s') == Current(s).(sleepTicks := n, state := if n == 0 then Ready else Sleeping)
  {
    hide Next, Inv;
    InvWf(s);
    NextDelay(s, n);
  }

  /** Task id alone gets the run state. */
  predicate OnlyState(s: State, s': State, id: nat, state: RunState)
    requires id < |s.tasks|
  {
    s' == s.(tasks := s.tasks[id := s.tasks[id].(state := state)])
  }

  /** An application task that is READY or RUNNING is suspended; anything else is refused and changes nothing. */
  lemma SuspendOutcome(s: State, task: Word)
    requires Inv(s) && Legal(s, SuspendStep(task))
    ensures
      var (s', out) := Next(s, SuspendStep(task));
      var id := if task == TASK_ID_SELF then s.cur else task;
      if id >= s.apps then s' == s && out == Refused(InvalidTask)
      else if s.tasks[id].state.Ready? || s.tasks[id].state.Running? then
        OnlyState(s, s', id, Suspended) && out == Status(true)
      else s' == s && out == Refused(InvalidState)
  {
    hide Next, Inv;
    InvWf(s);
    NextSuspend(s, task);
    var id := if task == TASK_ID_SELF then s.cur else task;
    if id < s.apps {
      assert TaskOk(s, id, s.tasks[id]);
    }
  }

  /** A suspended application task becomes READY; anything else is refused and changes nothing. */
  lemma ResumeOutcome(s: State, task: Word)
    requires Inv(s) && Legal(s, ResumeStep(task))
    ensures
      var (s', out) := Next(s, ResumeStep(task));
      if task >= s.apps then s' == s && out == Refused(InvalidTask)
      else if s.tasks[task].state.Suspended? then OnlyState(s, s', task, Ready) && out == Status(true)
      else s' == s && out == Refused(InvalidState)
  {
    hide Next, Inv;
    InvWf(s);
    NextResume(s, task);
  }

  lemma StartOutcome(s: State)
    requires Inv(s) && Legal(s, StartStep)
    ensures Next(s, StartStep).0 == s.(started := true)
  {
    InvWf(s);
    hide Inv;
  }
}
