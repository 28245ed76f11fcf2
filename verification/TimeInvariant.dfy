/** Deadlines across the 32-bit wrap: no blocked task has reached its deadline, a wait ends on exactly
    the tick its timeout is reached, a delay of n ticks lasts exactly n ticks. */
module TimeInvariant {
  import opened Types
  import opened TaskTable
  import opened Machine
  import opened WaitInvariant
  import opened Phases

  /** Outside the tick handler no blocked task is past its deadline. */
  ghost predicate DeadlinesOk(s: State) {
    forall i | 0 <= i < |s.tasks| :: !TimedOut(s.tasks[i], s.Now())
  }

  // ---- blocking leaves time ----

  lemma FreshDeadline(now: Word, timeout: Word)
    requires timeout != 0
    ensures !Expired(now, MakeDeadline(now, timeout))
  {}

  lemma LockInTime(s: State, m: nat, entered: nat, timeout: Word)
    requires Sane(s) && AppContext(s) && m < |s.mutexes|
    ensures !TimedOut(Lock(s, m, entered, timeout).0.tasks[s.cur], s.Now())
  {
    var x := s.mutexes[m];
    if x.locked && x.owner != s.cur && timeout != 0 {
      var b := s.(tasks := InheritPriority(s.tasks, s.mutexes, x.owner, Current(s).priority));
      assert Rest(b.tasks[s.cur]) == Rest(s.tasks[s.cur]);
    }
  }

  lemma TakeInTime(s: State, x: nat, entered: nat, timeout: Word)
    requires Sane(s) && AppContext(s) && x < |s.semaphores|
    ensures !TimedOut(Take(s, x, entered, timeout).0.tasks[s.cur], s.Now())
  {}

  lemma WakeLeavesRunning(ts: seq<Task>, obj: Object, kind: WaitKind, i: nat)
    requires i < |ts| && !ts[i].state.Blocked?
    ensures Wake(ts, obj, kind).0[i] == ts[i]
  {}

  lemma SendPassInTime(s: State, q: nat, item: seq<Byte>, timeout: Word, d: Deadline, reserved: bool)
    requires Sane(s) && AppContext(s) && q < |s.queues| && |item| == s.queues[q].itemSize
    ensures !TimedOut(SendPass(s, q, item, timeout, d, reserved).0.tasks[s.cur], s.Now())
  {
    WakeLeavesRunning(s.tasks, QueueRef(q), ReceiveWait, s.cur);
  }

  lemma ReceivePassInTime(s: State, q: nat, timeout: Word, d: Deadline, reserved: bool)
    requires Sane(s) && AppContext(s) && q < |s.queues|
    ensures !TimedOut(ReceivePass(s, q, timeout, d, reserved).0.tasks[s.cur], s.Now())
  {
    WakeLeavesRunning(s.tasks, QueueRef(q), SendWait, s.cur);
  }

  lemma WaitBitsInTime(s: State, g: nat, bits: bv32, all: bool, clear: bool, timeout: Word)
    requires Sane(s) && AppContext(s) && g < |s.groups|
    ensures !TimedOut(WaitBits(s, g, bits, all, clear, timeout).0.tasks[s.cur], s.Now())
  {
    if timeout != 0 {
      FreshDeadline(s.Now(), timeout);
    }
  }

  lemma TakeNotificationInTime(s: State, timeout: Word)
    requires Sane(s) && AppContext(s)
    ensures !TimedOut(TakeNotification(s, timeout).0.tasks[s.cur], s.Now())
  {
    if timeout != 0 {
      FreshDeadline(s.Now(), timeout);
    }
  }

  lemma ContinueInTime(s: State)
    requires Sane(s) && Executing(s) && !Current(s).call.NoCall?
    ensures !TimedOut(Continue(s).0.tasks[s.cur], s.Now())
  {
    ReturnedSane(s);
    match Current(s).call
    case SendCall(q, item, timeout, d) =>
      if Current(s).waitResult {
        SendPassInTime(Returned(s), q, item, timeout, d, true);
      }
    case ReceiveCall(q, timeout, d) =>
      if Current(s).waitResult {
        ReceivePassInTime(Returned(s), q, timeout, d, true);
      }
    case _ =>
  }

  lemma ClaimInTime(s: State)
    requires Sane(s) && Executing(s) && s.cur == s.Service()
    ensures !TimedOut(ServiceClaim(s).0.tasks[s.cur], s.Now())
  {}

  predicate MayBlock(step: Step) {
    || step.LockStep? || step.TakeStep? || step.SendStep? || step.ReceiveStep? || step.WaitBitsStep?
    || step.TakeNotificationStep? || step.ContinueStep? || step.ServiceClaimStep?
  }

  lemma BlockersInTime(s: State, step: Step)
    requires Sane(s) && Legal(s, step) && MayBlock(step)
    ensures !TimedOut(Next(s, step).0.tasks[s.cur], s.Now())
  {
    hide Sane, TimedOut, Lock, Take, SendPass, ReceivePass, WaitBits, TakeNotification, Continue;
    if step.LockStep? {
      LockInTime(s, step.m, step.entered, step.timeout);
    } else if step.TakeStep? {
      TakeInTime(s, step.x, step.entered, step.timeout);
    } else if step.SendStep? {
      SendPassInTime(s, step.q, step.item, step.timeout, MakeDeadline(Wrap(step.entered), step.timeout), false);
    } else if step.ReceiveStep? {
      ReceivePassInTime(s, step.q, step.timeout, MakeDeadline(Wrap(step.entered), step.timeout), false);
    } else if step.WaitBitsStep? {
      WaitBitsInTime(s, step.g, step.bits, step.all, step.clear, step.timeout);
    } else if step.TakeNotificationStep? {
      TakeNotificationInTime(s, step.timeout);
    } else if step.ContinueStep? {
      ContinueInTime(s);
    } else {
      ClaimInTime(s);
    }
  }

  predicate IsSignal(step: Step) {
    step.UnlockStep? || step.GiveStep? || step.SendFromIsrStep? || step.SetBitsStep? || step.NotifyStep?
  }

  /** Still awake, in the same call, with the same result waiting for it. */
  predicate SameResult(t: Task, t': Task) {
    !t'.state.Blocked? && t'.call == t.call && t'.waitResult == t.waitResult
  }

  lemma UnlockLeavesAwake(s: State, m: nat, i: nat)
    requires Wf(s) && m < |s.mutexes| && i < |s.tasks| && !s.tasks[i].state.Blocked?
    ensures SameResult(s.tasks[i], Unlock(s, m).0.tasks[i])
  {
    hide Unlock, Wake;
    UnlockRest(s, m, i);
    WakeLeavesRunning(s.tasks, MutexRef(m), MutexWait, i);
    SameRest(s.tasks[i], Unlock(s, m).0.tasks[i]);
  }

  lemma DeliverLeavesAwake(s: State, q: nat, item: seq<Byte>, i: nat)
    requires Wf(s) && q < |s.queues| && |item| == s.queues[q].itemSize && i < |s.tasks| && !s.tasks[i].state.Blocked?
    ensures SameResult(s.tasks[i], SendFromIsr(s, q, item).0.tasks[i])
  {
    hide Wake, Put;
    WakeLeavesRunning(s.tasks, QueueRef(q), ReceiveWait, i);
  }

  lemma GiveLeavesAwake(s: State, x: nat, i: nat)
    requires Wf(s) && x < |s.semaphores| && i < |s.tasks| && !s.tasks[i].state.Blocked?
    ensures SameResult(s.tasks[i], Give(s, x).tasks[i])
  {
    hide Wake;
    WakeLeavesRunning(s.tasks, SemaphoreRef(x), SemaphoreWait, i);
  }

  lemma BitsLeaveAwake(s: State, g: nat, bits: bv32, i: nat)
    requires Wf(s) && g < |s.groups| && i < |s.tasks| && !s.tasks[i].state.Blocked?
    ensures SameResult(s.tasks[i], SetBits(s, g, bits).0.tasks[i])
  {
    hide WithBits, EventCondition;
  }

  lemma NotifyLeavesAwake(s: State, id: nat, value: Word, i: nat)
    requires Wf(s) && i < |s.tasks| && !s.tasks[i].state.Blocked?
    ensures SameResult(s.tasks[i], Notify(s, id, value).0.tasks[i])
  {
    hide Wrap;
  }

  /** Signals change nothing about a task that is awake. */
  lemma SignalLeavesAwake(s: State, step: Step, i: nat)
    requires Wf(s) && Legal(s, step) && IsSignal(step) && i < |s.tasks| && !s.tasks[i].state.Blocked?
    ensures |Next(s, step).0.tasks| == |s.tasks|
    ensures SameResult(s.tasks[i], Next(s, step).0.tasks[i])
  {
    hide Wf, SameResult, Unlock, Give, SendFromIsr, SetBits, Notify;
    if step.UnlockStep? {
      UnlockLeavesAwake(s, step.m, i);
    } else if step.GiveStep? {
      GiveLeavesAwake(s, step.x, i);
    } else if step.SendFromIsrStep? {
      DeliverLeavesAwake(s, step.q, step.item, i);
    } else if step.SetBitsStep? {
      BitsLeaveAwake(s, step.g, step.bits, i);
    } else {
      NotifyLeavesAwake(s, step.id, step.value, i);
    }
  }

  lemma SameRest(t: Task, t': Task)
    requires Rest(t') == Rest(t) && !t.state.Blocked?
    ensures SameResult(t, t')
  {
    assert t' == t.(priority := t'.priority);
  }

  /** Only these steps put the running task to sleep. */
  lemma StepNeverBlocks(s: State, step: Step)
    requires Sane(s) && Legal(s, step) && !MayBlock(step) && !step.TickStep? && Current(s).state.Running?
    requires forall i | 0 <= i < |s.tasks| :: s.tasks[i].priority >= 0
    ensures |Next(s, step).0.tasks| == |s.tasks|
    ensures !Next(s, step).0.tasks[s.cur].state.Blocked?
  {
    hide Next;
    if IsSignal(step) {
      SignalLeavesAwake(s, step, s.cur);
    } else {
      StepKeeps(s, step);
      assert Keeps(StepProtocol(s, step), Current(s), Next(s, step).0.tasks[s.cur]);
    }
  }

  // ---- the invariant ----

  lemma RestTimedOut(t: Task, t': Task, now: Word)
    requires Rest(t) == Rest(t')
    ensures TimedOut(t, now) == TimedOut(t', now)
  {
    assert t' == t.(priority := t'.priority);
  }

  lemma TickOneInTime(t: Task, now: Word)
    ensures !TimedOut(TickOne(t, now), now) && !TimedOut(WaitEnd(t, true), now)
  {}

  lemma TickInTime(s: State)
    requires Sane(s)
    ensures DeadlinesOk(Tick(s))
  {
    hide Tick, TimedOut, TickOne, TasksOk;
    forall i | 0 <= i < |s.tasks| ensures !TimedOut(Tick(s).tasks[i], Wrap(s.ticks + 1)) {
      var t, t' := s.tasks[i], Tick(s).tasks[i];
      TickAt(s, i);
      TickOneInTime(t, Wrap(s.ticks + 1));
      if Rest(t') == Rest(TickOne(t, Wrap(s.ticks + 1))) {
        RestTimedOut(t', TickOne(t, Wrap(s.ticks + 1)), Wrap(s.ticks + 1));
      } else {
        RestTimedOut(t', WaitEnd(t, true), Wrap(s.ticks + 1));
      }
    }
    TickFrame(s);
  }

  lemma TickFrame(s: State)
    requires Wf(s)
    ensures |Tick(s).tasks| == |s.tasks| && Tick(s).Now() == Wrap(s.ticks + 1)
  {}

  lemma StepInTime(s: State, step: Step, i: nat)
    requires Sane(s) && DeadlinesOk(s) && Legal(s, step) && !step.TickStep? && i < |s.tasks|
    requires forall i | 0 <= i < |s.tasks| :: s.tasks[i].priority >= 0
    ensures |Next(s, step).0.tasks| == |s.tasks|
    ensures !TimedOut(Next(s, step).0.tasks[i], s.Now())
  {
    hide Next;
    StepKeeps(s, step);
    var t, t' := s.tasks[i], Next(s, step).0.tasks[i];
    assert TaskOk(s, i, t);
    assert Keeps(StepProtocol(s, step), t, t');
    if t.state.Running? {
      if MayBlock(step) {
        BlockersInTime(s, step);
      } else {
        StepNeverBlocks(s, step);
      }
    }
  }

  lemma StepKeepsDeadlines(s: State, step: Step)
    requires Sane(s) && DeadlinesOk(s) && Legal(s, step)
    requires forall i | 0 <= i < |s.tasks| :: s.tasks[i].priority >= 0
    ensures DeadlinesOk(Next(s, step).0)
  {
    hide Next, Tick, TasksOk, TimedOut;
    if step.TickStep? {
      NextTick(s);
      TickInTime(s);
    } else {
      StepFrame(s, step);
      forall i | 0 <= i < |s.tasks| ensures !TimedOut(Next(s, step).0.tasks[i], s.Now()) {
        StepInTime(s, step, i);
      }
    }
  }

  // ---- exactness ----

  /** Ticks since the API entry at true time entered, for a task whose wait carries that entry. */
  ghost predicate EnteredAt(t: Task, entered: nat, timeout: Word) {
    && t.state.Blocked? && !t.waitForever
    && t.waitStart == Wrap(entered) && t.waitDeadline == Wrap(entered + timeout)
  }

  lemma ElapsedWraps(ticks: nat, entered: nat, timeout: Word)
    requires entered <= ticks
    ensures Wrap(Wrap(ticks) - Wrap(entered)) == Wrap(ticks - entered)
    ensures Wrap(Wrap(entered + timeout) - Wrap(entered)) == timeout
  {
    hide Wrap;
    WrapDifference(ticks, entered);
    WrapDifference(entered + timeout, entered);
    assert entered + timeout - entered == timeout;
    WrapSmall(timeout);
  }

  /** A finite wait is over at a tick exactly when the ticks since API entry, modulo 2^32, have reached
      the timeout; within 2^32 ticks of the entry that is the true elapsed time. */
  lemma TimedOutIffElapsed(t: Task, ticks: nat, entered: nat, timeout: Word)
    requires EnteredAt(t, entered, timeout) && entered <= ticks
    ensures TimedOut(t, Wrap(ticks)) <==> (ticks - entered) % WORD >= timeout
    ensures ticks - entered < WORD ==> (TimedOut(t, Wrap(ticks)) <==> ticks - entered >= timeout)
  {
    ElapsedWraps(ticks, entered, timeout);
  }

  /** A call entered at tick entered finds its deadline passed exactly when the ticks since then, modulo 2^32, have
      reached a finite timeout. */
  lemma ExpiredIffElapsed(ticks: nat, entered: nat, timeout: Word)
    requires entered <= ticks
    ensures Expired(Wrap(ticks), MakeDeadline(Wrap(entered), timeout))
            <==> timeout != WAIT_FOREVER && (ticks - entered) % WORD >= timeout
  {
    ElapsedWraps(ticks, entered, timeout);
    WrapTwice(entered, timeout);
  }
}
