/** Time over runs: timeouts and delays end on the exact tick, suspension ends only with a resume, and
    notification values add up. */
module TimeRuns {
  import opened Types
  import opened TaskTable
  import opened Machine
  import opened WaitInvariant
  import opened Phases
  import opened MutexInvariant
  import opened TimeInvariant
  import opened Runs

  ghost function Ticks(steps: seq<Step>): nat {
    if steps == [] then 0 else (if steps[0].TickStep? then 1 else 0) + Ticks(steps[1..])
  }

  // ---- timeouts ----

  lemma DeadlineOfEntry(t: Task, entered: nat, timeout: Word)
    requires t.state.Blocked? && timeout != WAIT_FOREVER
    requires
      var d := MakeDeadline(Wrap(entered), timeout);
      t.waitStart == d.start && t.waitDeadline == d.tick && t.waitForever == d.forever
    ensures EnteredAt(t, entered, timeout)
  {
    assert Wrap(Wrap(entered) + timeout) == Wrap(entered + timeout);
  }

  /** Waits whose calls report the wait's result. */
  predicate ReportsResult(k: WaitKind) {
    k.MutexWait? || k.SemaphoreWait? || k.SendWait? || k.ReceiveWait?
  }

  predicate CarriesDeadline(t: Task, d: Deadline) {
    t.state.Blocked? && t.waitStart == d.start && t.waitDeadline == d.tick && t.waitForever == d.forever
  }

  /** The running task is blocked with deadline d, not yet expired, in a wait whose call reports the result. */
  predicate BlockedFor(s: State, s': State, d: Deadline) {
    && s.cur < |s.tasks| == |s'.tasks|
    && CarriesDeadline(s'.tasks[s.cur], d) && !Expired(s.Now(), d) && ReportsResult(s'.tasks[s.cur].waitKind)
  }

  lemma LockBlocks(s: State, m: nat, entered: nat, timeout: Word)
    requires Wf(s) && m < |s.mutexes| && Lock(s, m, entered, timeout).1.Pending?
    ensures BlockedFor(s, Lock(s, m, entered, timeout).0, MakeDeadline(Wrap(entered), timeout))
  {
    hide InheritPriority, Wrap, Expired, MakeDeadline;
    InheritKeeps(s, s.mutexes[m].owner, Current(s).priority);
  }

  lemma TakeBlocks(s: State, x: nat, entered: nat, timeout: Word)
    requires Wf(s) && x < |s.semaphores| && Take(s, x, entered, timeout).1.Pending?
    ensures BlockedFor(s, Take(s, x, entered, timeout).0, MakeDeadline(Wrap(entered), timeout))
  {
    hide Wrap, Expired, MakeDeadline;
  }

  lemma SendBlocks(s: State, q: nat, item: seq<Byte>, timeout: Word, d: Deadline)
    requires Wf(s) && q < |s.queues| && |item| == s.queues[q].itemSize
             && SendPass(s, q, item, timeout, d, false).1.Pending?
    ensures BlockedFor(s, SendPass(s, q, item, timeout, d, false).0, d)
  {
    hide Wrap, Expired, Deliver;
  }

  lemma ReceiveBlocks(s: State, q: nat, timeout: Word, d: Deadline)
    requires Wf(s) && q < |s.queues| && ReceivePass(s, q, timeout, d, false).1.Pending?
    ensures BlockedFor(s, ReceivePass(s, q, timeout, d, false).0, d)
  {
    hide Wrap, Expired, Extract;
  }

  /** Calls that take their deadline at API entry. */
  predicate TimedCall(step: Step) {
    step.LockStep? || step.TakeStep? || step.SendStep? || step.ReceiveStep?
  }

  /** A call that blocks has passed the expiry check and carries the deadline taken at its entry. */
  lemma BlocksWithDeadline(s: State, step: Step)
    requires Wf(s) && Legal(s, step) && TimedCall(step) && Next(s, step).1.Pending?
    ensures BlockedFor(s, Next(s, step).0, MakeDeadline(Wrap(step.entered), step.timeout))
  {
    hide Wf, BlockedFor, Lock, Take, SendPass, ReceivePass, Wrap, MakeDeadline;
    if step.LockStep? {
      LockBlocks(s, step.m, step.entered, step.timeout);
    } else if step.TakeStep? {
      TakeBlocks(s, step.x, step.entered, step.timeout);
    } else if step.SendStep? {
      SendBlocks(s, step.q, step.item, step.timeout, MakeDeadline(Wrap(step.entered), step.timeout));
    } else {
      ReceiveBlocks(s, step.q, step.timeout, MakeDeadline(Wrap(step.entered), step.timeout));
    }
  }

  /** A call that blocks with a finite timeout carries its API entry with it, and less than the timeout has passed. */
  lemma BlocksWithEntry(s: State, step: Step)
    requires Inv(s) && Legal(s, step) && TimedCall(step) && Next(s, step).1.Pending?
    requires step.timeout != WAIT_FOREVER
    ensures |Next(s, step).0.tasks| == |s.tasks|
    ensures
      && EnteredAt(Next(s, step).0.tasks[s.cur], step.entered, step.timeout)
      && (s.ticks - step.entered) % WORD < step.timeout
  {
    hide Next, Inv, Expired, EnteredAt, MakeDeadline, Wrap;
    InvWf(s);
    BlocksWithDeadline(s, step);
    ExpiredIffElapsed(s.ticks, step.entered, step.timeout);
    DeadlineOfEntry(Next(s, step).0.tasks[s.cur], step.entered, step.timeout);
  }

  /** Event and notification waits take their deadline only when they block. So the promise of a deadline taken at
      API entry is kept exactly when no tick, modulo 2^32, came between entry and critical section; in general the
      wait is longer by those ticks. */
  lemma EntryDeadlineIff(s: State, step: Step)
    requires Inv(s) && Legal(s, step) && Next(s, step).1.Pending?
    requires step.WaitBitsStep? || step.TakeNotificationStep?
    requires step.timeout != WAIT_FOREVER
    ensures |Next(s, step).0.tasks| == |s.tasks|
    ensures EnteredAt(Next(s, step).0.tasks[s.cur], step.entered, step.timeout) <==> Wrap(step.entered) == s.Now()
    ensures EnteredAt(Next(s, step).0.tasks[s.cur], s.ticks, step.timeout) && step.timeout > 0
  {
    hide Next, Wrap, Inv;
    InvWf(s);
    BlocksWhenReached(s, step);
    WrapTwice(s.ticks, step.timeout);
    WrapTwice(step.entered, step.timeout);
  }

  lemma BlocksWhenReached(s: State, step: Step)
    requires Wf(s) && Legal(s, step) && Next(s, step).1.Pending?
    requires step.WaitBitsStep? || step.TakeNotificationStep?
    ensures |Next(s, step).0.tasks| == |s.tasks| && step.timeout > 0
    ensures CarriesDeadline(Next(s, step).0.tasks[s.cur], MakeDeadline(s.Now(), step.timeout))
  {
    hide Wrap, MakeDeadline, EventCondition, WithoutBits, CommonBits;
  }

  /** No step of the run but a tick ends or changes the wait of task i. */
  ghost predicate Unsignalled(s: State, steps: seq<Step>, i: nat)
    requires LegalRun(s, steps)
    decreases |steps|
  {
    steps == [] ||
    (var s1 := Next(s, steps[0]).0;
     && i < |s.tasks| && i < |s1.tasks|
     && (!steps[0].TickStep? ==> SameWait(s.tasks[i], s1.tasks[i]))
     && Unsignalled(s1, steps[1..], i))
  }

  lemma SameEntry(t: Task, t': Task, entered: nat, timeout: Word)
    requires EnteredAt(t, entered, timeout) && SameWait(t, t')
    ensures EnteredAt(t', entered, timeout)
  {}

  /** One tick of a finite wait: it goes on unless this is the tick on which the timeout is reached. */
  lemma TickOfWait(s: State, i: nat, entered: nat, timeout: Word)
    requires Inv(s) && i < |s.tasks| && EnteredAt(s.tasks[i], entered, timeout)
    requires entered <= s.ticks < entered + timeout
    ensures
      var t' := Tick(s).tasks[i];
      && (s.ticks + 1 < entered + timeout ==> EnteredAt(t', entered, timeout) && t'.waitKind == s.tasks[i].waitKind)
      && (s.ticks + 1 == entered + timeout ==> t'.state.Ready? && !t'.waitResult && t'.call == s.tasks[i].call)
  {
    var t, t' := s.tasks[i], Tick(s).tasks[i];
    TimedOutIffElapsed(t, s.ticks + 1, entered, timeout);
    TickAt(s, i);
    assert TaskOk(s, i, t);
    var t1 := TickOne(t, Wrap(s.ticks + 1));
    assert t' == t1.(priority := t'.priority);
  }

  /** Until the timeout is reached an unsignalled wait goes on ... */
  lemma {:induction false} WaitLasts(s: State, steps: seq<Step>, i: nat, entered: nat, timeout: Word)
    requires Inv(s) && LegalRun(s, steps) && i < |s.tasks| && Unsignalled(s, steps, i)
    requires EnteredAt(s.tasks[i], entered, timeout) && entered <= s.ticks
    requires s.ticks + Ticks(steps) < entered + timeout
    ensures
      var s' := Run(s, steps);
      && Inv(s') && i < |s'.tasks| && s'.ticks == s.ticks + Ticks(steps)
      && EnteredAt(s'.tasks[i], entered, timeout) && s'.tasks[i].waitKind == s.tasks[i].waitKind
    decreases |steps|
  {
    if steps != [] {
      var s1 := Next(s, steps[0]).0;
      StepKeepsInv(s, steps[0]);
      StepFrame(s, steps[0]);
      if steps[0].TickStep? {
        TickOfWait(s, i, entered, timeout);
      } else {
        SameEntry(s.tasks[i], s1.tasks[i], entered, timeout);
      }
      WaitLasts(s1, steps[1..], i, entered, timeout);
    }
  }

  /** ... and it ends, with failure, on exactly the tick that reaches it; the tick counter may wrap any number of
      times before the call and once during it. */
  lemma TimeoutIsExact(s: State, steps: seq<Step>, i: nat, entered: nat, timeout: Word)
    requires Inv(s) && LegalRun(s, steps) && i < |s.tasks| && Unsignalled(s, steps, i)
    requires EnteredAt(s.tasks[i], entered, timeout) && entered <= s.ticks
    requires s.ticks + Ticks(steps) + 1 == entered + timeout
    ensures
      var s' := Run(s, steps);
      && Wf(s') && i < |s'.tasks| && s'.tasks[i].state.Blocked?
      && Tick(s').tasks[i].state.Ready? && !Tick(s').tasks[i].waitResult
  {
    WaitLasts(s, steps, i, entered, timeout);
    TickOfWait(Run(s, steps), i, entered, timeout);
  }

  // ---- the call that timed out ----

  /** The task has left its wait and has not yet returned from the call. */
  predicate Decided(t: Task) {
    !t.call.NoCall? && !t.state.Blocked?
  }

  lemma TickLeavesDecided(s: State, i: nat)
    requires Sane(s) && i < |s.tasks| && Decided(s.tasks[i])
    ensures |Tick(s).tasks| == |s.tasks| && SameResult(s.tasks[i], Tick(s).tasks[i])
  {
    hide Tick;
    TickAt(s, i);
    TickFrame(s);
    assert TaskOk(s, i, s.tasks[i]);
    SameRest(s.tasks[i], Tick(s).tasks[i]);
  }

  /** Another task's send or receive. */
  lemma QueueCallLeavesAwake(s: State, step: Step, i: nat)
    requires Wf(s) && Legal(s, step) && i < |s.tasks| && i != s.cur && !s.tasks[i].state.Blocked?
    requires step.SendStep? || step.ReceiveStep?
    ensures |Next(s, step).0.tasks| == |s.tasks|
    ensures SameResult(s.tasks[i], Next(s, step).0.tasks[i])
  {
    hide Wake, Put, Drop, Expired, MakeDeadline;
    if step.SendStep? {
      WakeLeavesRunning(s.tasks, QueueRef(step.q), ReceiveWait, i);
    } else {
      WakeLeavesRunning(s.tasks, QueueRef(step.q), SendWait, i);
    }
  }

  /** Another task's take or wait. */
  lemma WaitLeavesAwake(s: State, step: Step, i: nat)
    requires Wf(s) && Legal(s, step) && i < |s.tasks| && i != s.cur && !s.tasks[i].state.Blocked?
    requires step.TakeStep? || step.WaitBitsStep? || step.TakeNotificationStep?
    ensures |Next(s, step).0.tasks| == |s.tasks|
    ensures SameResult(s.tasks[i], Next(s, step).0.tasks[i])
  {
    hide Wf, Expired, MakeDeadline, EventCondition, WithoutBits, CommonBits;
  }

  lemma LockLeavesAwake(s: State, m: nat, entered: nat, timeout: Word, i: nat)
    requires Wf(s) && Legal(s, LockStep(m, entered, timeout)) && i < |s.tasks| && i != s.cur
             && !s.tasks[i].state.Blocked?
    ensures |Lock(s, m, entered, timeout).0.tasks| == |s.tasks|
    ensures SameResult(s.tasks[i], Lock(s, m, entered, timeout).0.tasks[i])
  {
    hide InheritPriority, Expired, MakeDeadline;
    InheritKeeps(s, s.mutexes[m].owner, Current(s).priority);
    SameRest(s.tasks[i], InheritPriority(s.tasks, s.mutexes, s.mutexes[m].owner, Current(s).priority)[i]);
  }

  /** Another task's return from its call. */
  lemma ReturnLeavesAwake(s: State, i: nat)
    requires Wf(s) && Legal(s, ContinueStep) && i < |s.tasks| && i != s.cur && !s.tasks[i].state.Blocked?
    ensures |Continue(s).0.tasks| == |s.tasks|
    ensures SameResult(s.tasks[i], Continue(s).0.tasks[i])
  {
    hide Wake, Put, Drop, Expired, EventCondition, WithoutBits, CommonBits;
    var back := Returned(s);
    match Current(s).call
    case SendCall(q, _, _, _) => WakeLeavesRunning(back.tasks, QueueRef(q), ReceiveWait, i);
    case ReceiveCall(q, _, _) => WakeLeavesRunning(back.tasks, QueueRef(q), SendWait, i);
    case _ =>
  }

  /** Until the task itself returns, no step changes the result its wait has ended with. */
  lemma DecidedStays(s: State, step: Step, i: nat)
    requires Inv(s) && Legal(s, step) && i < |s.tasks| && Decided(s.tasks[i]) && !(step.ContinueStep? && s.cur == i)
    ensures |Next(s, step).0.tasks| == |s.tasks|
    ensures SameResult(s.tasks[i], Next(s, step).0.tasks[i])
  {
    hide Next;
    if step.TickStep? {
      TickLeavesDecided(s, i);
      NextTick(s);
    } else if IsSignal(step) {
      SignalLeavesAwake(s, step, i);
    } else if ProtocolOf(s.tasks[i].call) != StepProtocol(s, step) {
      NonNegative(s);
      StepKeeps(s, step);
      assert Keeps(StepProtocol(s, step), s.tasks[i], Next(s, step).0.tasks[i]);
    } else if step.ContinueStep? {
      ReturnLeavesAwake(s, i);
      NextContinue(s);
    } else if step.LockStep? {
      LockLeavesAwake(s, step.m, step.entered, step.timeout, i);
      NextLock(s, step.m, step.entered, step.timeout);
    } else if step.SendStep? || step.ReceiveStep? {
      QueueCallLeavesAwake(s, step, i);
    } else {
      WaitLeavesAwake(s, step, i);
    }
  }

  /** Task i does not return from its call during the run. */
  ghost predicate NotReturned(s: State, steps: seq<Step>, i: nat)
    requires LegalRun(s, steps)
    decreases |steps|
  {
    steps == [] || (!(steps[0].ContinueStep? && s.cur == i) && NotReturned(Next(s, steps[0]).0, steps[1..], i))
  }

  lemma {:induction false} ResultLasts(s: State, steps: seq<Step>, i: nat)
    requires Inv(s) && LegalRun(s, steps) && i < |s.tasks| && Decided(s.tasks[i]) && NotReturned(s, steps, i)
    ensures
      var s' := Run(s, steps);
      Inv(s') && i < |s'.tasks| && SameResult(s.tasks[i], s'.tasks[i])
    decreases |steps|
  {
    hide Next, Inv;
    if steps != [] {
      StepKeepsInv(s, steps[0]);
      DecidedStays(s, steps[0], i);
      ResultLasts(Next(s, steps[0]).0, steps[1..], i);
    }
  }

  /** A whole timed call. A lock, take, send or receive call entered at tick entered blocks; nothing signals it during
      waiting, which ends one tick before the timeout. It is woken by exactly the next tick, and when the task
      at last returns from the call, after any further run, the call reports failure. */
  lemma TimedCallFails(s: State, step: Step, waiting: seq<Step>, later: seq<Step>)
    requires Inv(s) && Legal(s, step) && TimedCall(step) && Next(s, step).1.Pending?
    requires step.timeout != WAIT_FOREVER && s.ticks - step.entered < WORD
    requires LegalRun(Next(s, step).0, waiting) && Unsignalled(Next(s, step).0, waiting, s.cur)
    requires s.ticks + Ticks(waiting) + 1 == step.entered + step.timeout
    requires
      var atTimeout := Run(Next(s, step).0, waiting);
      && Wf(atTimeout) && Legal(atTimeout, TickStep)
      && LegalRun(Tick(atTimeout), later) && NotReturned(Tick(atTimeout), later, s.cur)
    ensures
      var atTimeout := Run(Next(s, step).0, waiting);
      var returning := Run(Tick(atTimeout), later);
      && s.cur < |atTimeout.tasks| && atTimeout.tasks[s.cur].state.Blocked?
      && s.cur < |Tick(atTimeout).tasks| && Tick(atTimeout).tasks[s.cur].state.Ready?
      && Wf(returning)
      && (returning.cur == s.cur && Legal(returning, ContinueStep) ==> Continue(returning).1 == Status(false))
  {
    hide Inv, Next, Tick, Continue, Wrap, Legal, LegalRun, Run, Unsignalled, NotReturned;
    InvWf(s);
    EnteredBefore(s, step);
    StepKeepsInv(s, step);
    BlocksWithDeadline(s, step);
    BlocksWithEntry(s, step);
    ElapsedIsTrue(s.ticks - step.entered);
    NotATick(s, step);
    var blocked := Next(s, step).0;
    TimesOut(blocked, s.cur, step.entered, step.timeout, waiting);
    FailsLater(Tick(Run(blocked, waiting)), s.cur, later);
  }

  /** The task has timed out of a wait whose result its call reports. */
  predicate TimedOutOfCall(t: Task) {
    t.state.Ready? && !t.waitResult && ReportingCall(t.call)
  }

  lemma TimesOut(s: State, i: nat, entered: nat, timeout: Word, waiting: seq<Step>)
    requires Inv(s) && LegalRun(s, waiting) && i < |s.tasks| && Unsignalled(s, waiting, i)
    requires EnteredAt(s.tasks[i], entered, timeout) && ReportsResult(s.tasks[i].waitKind)
    requires entered <= s.ticks && s.ticks + Ticks(waiting) + 1 == entered + timeout
    requires Wf(Run(s, waiting)) && Legal(Run(s, waiting), TickStep)
    ensures
      var s' := Run(s, waiting);
      && Wf(s') && i < |s'.tasks| && s'.tasks[i].state.Blocked?
      && Inv(Tick(s')) && i < |Tick(s').tasks| && TimedOutOfCall(Tick(s').tasks[i])
  {
    hide Inv, Next, Tick, Wrap;
    WaitLasts(s, waiting, i, entered, timeout);
    var s' := Run(s, waiting);
    InvWf(s');
    BlockedInCall(s', i);
    TickOfWait(s', i, entered, timeout);
    StepKeepsInv(s', TickStep);
    NextTick(s');
  }

  lemma FailsLater(s: State, i: nat, later: seq<Step>)
    requires Inv(s) && LegalRun(s, later) && NotReturned(s, later, i) && i < |s.tasks| && TimedOutOfCall(s.tasks[i])
    ensures
      var s' := Run(s, later);
      Wf(s') && (s'.cur == i && Legal(s', ContinueStep) ==> Continue(s').1 == Status(false))
  {
    hide Inv, Next, Continue;
    ResultLasts(s, later, i);
    var s' := Run(s, later);
    InvWf(s');
    if s'.cur == i && Legal(s', ContinueStep) {
      FailedReturn(s');
    }
  }

  lemma EnteredBefore(s: State, step: Step)
    requires Wf(s) && Legal(s, step) && TimedCall(step)
    ensures step.entered <= s.ticks
  {}

  lemma ElapsedIsTrue(elapsed: nat)
    requires elapsed < WORD
    ensures elapsed % WORD == elapsed
  {}

  lemma NotATick(s: State, step: Step)
    requires Wf(s) && Legal(s, step) && !step.TickStep? && !step.SwitchStep?
    ensures Next(s, step).0.ticks == s.ticks
  {
    StepFrame(s, step);
  }

  predicate ReportingCall(c: Call) {
    c.LockCall? || c.TakeCall? || c.SendCall? || c.ReceiveCall?
  }

  lemma BlockedInCall(s: State, i: nat)
    requires TasksOk(s) && i < |s.tasks| && s.tasks[i].state.Blocked? && ReportsResult(s.tasks[i].waitKind)
    ensures ReportingCall(s.tasks[i].call)
  {
    assert TaskOk(s, i, s.tasks[i]);
  }

  lemma FailedReturn(s: State)
    requires Wf(s) && Legal(s, ContinueStep) && ReportingCall(Current(s).call) && !Current(s).waitResult
    ensures Continue(s).1 == Status(false)
  {
    hide SendPass, ReceivePass;
  }

  // ---- delays and suspension ----

  lemma StepLeavesDormant(s: State, step: Step, i: nat)
    requires Inv(s) && Legal(s, step) && !step.TickStep? && i < |s.tasks| && Dormant(s.tasks[i])
    requires s.tasks[i].state.Suspended? ==> step != ResumeStep(i)
    ensures |Next(s, step).0.tasks| == |s.tasks|
    ensures
      var t, t' := s.tasks[i], Next(s, step).0.tasks[i];
      t'.state == t.state && t'.sleepTicks == t.sleepTicks
  {
    hide Next;
    if step.ResumeStep? {
      NextResume(s, step.task);
    } else {
      NonNegative(s);
      StepKeeps(s, step);
      assert Keeps(StepProtocol(s, step), s.tasks[i], Next(s, step).0.tasks[i]);
    }
  }

  lemma TickOfDormant(s: State, i: nat)
    requires Inv(s) && i < |s.tasks| && Dormant(s.tasks[i])
    ensures
      var t, t' := s.tasks[i], Tick(s).tasks[i];
      && (t.state.Suspended? ==> t'.state.Suspended?)
      && (t.state.Sleeping? ==> t.sleepTicks > 0 && t'.sleepTicks == t.sleepTicks - 1
                                && t'.state == if t.sleepTicks == 1 then Ready else Sleeping)
  {
    TickAt(s, i);
    assert TaskOk(s, i, s.tasks[i]);
    var t', t1 := Tick(s).tasks[i], TickOne(s.tasks[i], Wrap(s.ticks + 1));
    assert t' == t1.(priority := t'.priority);
  }

  /** A sleeping task sleeps through everything but its own ticks ... */
  lemma {:induction false} DelayLasts(s: State, steps: seq<Step>, i: nat)
    requires Inv(s) && LegalRun(s, steps) && i < |s.tasks| && s.tasks[i].state.Sleeping?
    requires Ticks(steps) < s.tasks[i].sleepTicks
    ensures
      var s' := Run(s, steps);
      Inv(s') && i < |s'.tasks| && s'.tasks[i].state.Sleeping?
          && s'.tasks[i].sleepTicks == s.tasks[i].sleepTicks - Ticks(steps)
    decreases |steps|
  {
    if steps != [] {
      StepKeepsInv(s, steps[0]);
      StepFrame(s, steps[0]);
      if steps[0].TickStep? {
        TickOfDormant(s, i);
      } else {
        StepLeavesDormant(s, steps[0], i);
      }
      DelayLasts(Next(s, steps[0]).0, steps[1..], i);
    }
  }

  /** ... so a task delayed by n > 0 ticks becomes READY on exactly the n-th tick. */
  lemma DelayIsExact(s: State, n: Word, steps: seq<Step>)
    requires Inv(s) && Legal(s, DelayStep(n)) && n > 0 && LegalRun(Delay(s, n), steps)
    ensures
      var s' := Run(Delay(s, n), steps);
      && (Ticks(steps) < n ==> s.cur < |s'.tasks| && s'.tasks[s.cur].state.Sleeping?)
      && (Ticks(steps) + 1 == n ==> Wf(s') && s.cur < |s'.tasks| && Tick(s').tasks[s.cur].state.Ready?)
  {
    StepKeepsInv(s, DelayStep(n));
    if Ticks(steps) < n {
      DelayLasts(Delay(s, n), steps, s.cur);
      if Ticks(steps) + 1 == n {
        TickOfDormant(Run(Delay(s, n), steps), s.cur);
      }
    }
  }

  /** No tick and no signal wakes a suspended task; only a resume of it does. */
  lemma {:induction false} SuspensionLasts(s: State, steps: seq<Step>, i: nat)
    requires Inv(s) && LegalRun(s, steps) && i < |s.tasks| && s.tasks[i].state.Suspended? && ResumeStep(i) !in steps
    ensures i < |Run(s, steps).tasks| && Run(s, steps).tasks[i].state.Suspended?
    decreases |steps|
  {
    if steps != [] {
      StepKeepsInv(s, steps[0]);
      StepFrame(s, steps[0]);
      if steps[0].TickStep? {
        TickOfDormant(s, i);
      } else {
        StepLeavesDormant(s, steps[0], i);
      }
      SuspensionLasts(Next(s, steps[0]).0, steps[1..], i);
    }
  }

  /** Suspending and resuming. A READY task, or the RUNNING caller itself, can be suspended; resuming it leaves the
      kernel as it was, except that the caller comes back READY: priorities, calls, waits and values are retained. */
  lemma SuspendThenResume(s: State, requested: Word)
    requires Wf(s) && s.started
    requires
      var id := if requested == TASK_ID_SELF then s.cur else requested;
      id < s.apps && (s.tasks[id].state.Ready? || (s.tasks[id].state.Running? && id == s.cur))
    ensures
      var id := if requested == TASK_ID_SELF then s.cur else requested;
      var suspended := Suspend(s, requested).0;
      && Suspend(s, requested).1 == Status(true) && Wf(suspended) && suspended.tasks[id].state.Suspended?
      && Resume(suspended, id) == (s.(tasks := s.tasks[id := s.tasks[id].(state := Ready)]), Status(true))
      && (s.tasks[id].state.Ready? ==> Resume(suspended, id).0 == s)
  {
    var id := if requested == TASK_ID_SELF then s.cur else requested;
    SuspendedTask(s.tasks, id);
    CallsStay(s, id, s.tasks[id].(state := Suspended));
  }

  lemma SuspendedTask(ts: seq<Task>, id: nat)
    requires id < |ts|
    ensures ts[id := ts[id].(state := Suspended)][id := ts[id].(state := Ready)] == ts[id := ts[id].(state := Ready)]
    ensures ts[id].state.Ready? ==> ts[id := ts[id].(state := Ready)] == ts
  {}

  lemma CallsStay(s: State, id: nat, t: Task)
    requires Wf(s) && id < |s.tasks| && t.call == s.tasks[id].call
    ensures Wf(s.(tasks := s.tasks[id := t]))
  {}

  // ---- notifications ----

  /** What the step adds to task i's notification value. */
  function Notified(step: Step, i: nat): Word {
    if step.NotifyStep? && step.id == i then step.value else 0
  }

  /** What the step hands to task i as the value of a successful take. */
  function TakenValue(s: State, step: Step, i: nat): Word
    requires Wf(s) && Legal(s, step)
  {
    var out := Next(s, step).1;
    if s.cur == i && out.Value? && (step.TakeNotificationStep? || (step.ContinueStep? && Current(s).call.NotifyCall?))
    then out.value
    else 0
  }

  /** What every step does to a notification value. */
  ghost predicate NotificationStep(s: State, step: Step, i: nat)
    requires Wf(s) && Legal(s, step) && i < |s.tasks|
  {
    var s' := Next(s, step).0;
    && |s'.tasks| == |s.tasks|
    && s'.tasks[i].notification == Wrap(s.tasks[i].notification + Notified(step, i) - TakenValue(s, step, i))
  }

  lemma UntouchedNotification(s: State, step: Step, i: nat)
    requires Wf(s) && Legal(s, step) && i < |s.tasks| && Notified(step, i) == 0
    requires !step.TakeNotificationStep? && !(step.ContinueStep? && Current(s).call.NotifyCall?)
    requires |Next(s, step).0.tasks| == |s.tasks| && Next(s, step).0.tasks[i].notification == s.tasks[i].notification
    ensures NotificationStep(s, step, i)
  {
    hide Next, Wrap;
    WrapSmall(s.tasks[i].notification);
  }

  lemma TickNotification(s: State, i: nat)
    requires Inv(s) && Legal(s, TickStep) && i < |s.tasks|
    ensures NotificationStep(s, TickStep, i)
  {
    hide Tick, Next, NotificationStep;
    NextTick(s);
    TickFrame(s);
    TickAt(s, i);
    var t' := Tick(s).tasks[i];
    assert Rest(t').notification == t'.notification;
    UntouchedNotification(s, TickStep, i);
  }

  lemma OtherNotification(s: State, step: Step, i: nat)
    requires Inv(s) && Legal(s, step) && i < |s.tasks| && !step.TickStep? && StepProtocol(s, step) != NotifyProtocol
    ensures NotificationStep(s, step, i)
  {
    hide Next, NotificationStep, Keeps;
    NonNegative(s);
    StepKeeps(s, step);
    KeepsNotification(StepProtocol(s, step), s.tasks[i], Next(s, step).0.tasks[i]);
    UntouchedNotification(s, step, i);
  }

  lemma KeepsNotification(p: Protocol, t: Task, t': Task)
    requires Keeps(p, t, t') && p != NotifyProtocol
    ensures t'.notification == t.notification
  {}

  lemma NotifyNotification(s: State, id: nat, value: Word, i: nat)
    requires Wf(s) && Legal(s, NotifyStep(id, value)) && i < |s.tasks|
    ensures NotificationStep(s, NotifyStep(id, value), i)
  {
    hide Wrap;
    WrapSmall(s.tasks[i].notification);
  }

  /** The two critical sections of a take: what leaves the value is what is returned. */
  lemma TakeEmpties(s: State, step: Step, i: nat)
    requires Wf(s) && Legal(s, step) && i < |s.tasks|
    requires step.TakeNotificationStep? || (step.ContinueStep? && Current(s).call.NotifyCall?)
    ensures NotificationStep(s, step, i)
  {
    hide Wrap;
    WrapSmall(s.tasks[i].notification);
    WrapSmall(0);
  }

  lemma StepNotification(s: State, step: Step, i: nat)
    requires Inv(s) && Legal(s, step) && i < |s.tasks|
    ensures NotificationStep(s, step, i)
  {
    hide NotificationStep, Next;
    if step.TickStep? {
      TickNotification(s, i);
    } else if step.NotifyStep? {
      NotifyNotification(s, step.id, step.value, i);
    } else if step.TakeNotificationStep? || (step.ContinueStep? && Current(s).call.NotifyCall?) {
      TakeEmpties(s, step, i);
    } else {
      OtherNotification(s, step, i);
    }
  }

  ghost function AllNotified(steps: seq<Step>, i: nat): nat {
    if steps == [] then 0 else Notified(steps[0], i) + AllNotified(steps[1..], i)
  }

  ghost function AllTaken(s: State, steps: seq<Step>, i: nat): nat
    requires LegalRun(s, steps)
    decreases |steps|
  {
    if steps == [] then 0 else TakenValue(s, steps[0], i) + AllTaken(Next(s, steps[0]).0, steps[1..], i)
  }

  /** Everything notified is taken or still pending, modulo 2^32. */
  lemma {:induction false} NotificationsAddUp(s: State, steps: seq<Step>, i: nat)
    requires Inv(s) && LegalRun(s, steps) && i < |s.tasks|
    ensures i < |Run(s, steps).tasks|
    ensures Run(s, steps).tasks[i].notification
            == Wrap(s.tasks[i].notification + AllNotified(steps, i) - AllTaken(s, steps, i))
    decreases |steps|
  {
    hide Next, Inv, Wrap, Legal;
    if steps != [] {
      StepKeepsInv(s, steps[0]);
      InvTasks(s, steps[0]);
      StepNotification(s, steps[0], i);
      NotificationsAddUp(Next(s, steps[0]).0, steps[1..], i);
      WrapSum(s.tasks[i].notification, Notified(steps[0], i), TakenValue(s, steps[0], i),
              AllNotified(steps[1..], i), AllTaken(Next(s, steps[0]).0, steps[1..], i));
    } else {
      WrapSmall(s.tasks[i].notification);
    }
  }

  lemma InvTasks(s: State, step: Step)
    requires Inv(s) && Wf(s) && Legal(s, step)
    ensures |Next(s, step).0.tasks| == |s.tasks|
  {
    StepFrame(s, step);
  }
}
