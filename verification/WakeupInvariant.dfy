/** Nobody sleeps on available work: semaphores, event groups, notifications and the timer service. */
module WakeupInvariant {
  import opened Types
  import opened TaskTable
  import opened Machine
  import opened WaitInvariant
  import opened Phases

  predicate WaitsForSemaphore(t: Task, x: nat) {
    t.state.Blocked? && t.call == TakeCall(x)
  }

  predicate WaitsForEvent(t: Task, g: nat) {
    t.state.Blocked? && t.call.WaitBitsCall? && t.call.group == g
  }

  predicate WaitsForNotification(t: Task) {
    t.state.Blocked? && t.call.NotifyCall?
  }

  /** An available semaphore has no waiter. */
  ghost predicate SemaphoresOk(s: State) {
    forall i, x | 0 <= i < |s.tasks| && 0 <= x < |s.semaphores| && WaitsForSemaphore(s.tasks[i], x) :: !s.semaphores[x]
  }

  /** No blocked event waiter's condition is satisfied. */
  ghost predicate EventsOk(s: State) {
    forall i, g | 0 <= i < |s.tasks| && 0 <= g < |s.groups| && WaitsForEvent(s.tasks[i], g) ::
      !EventCondition(s.groups[g], s.tasks[i].eventBits, s.tasks[i].eventAll)
  }

  /** A notification waiter has nothing pending. */
  ghost predicate NotificationsOk(s: State) {
    forall i | 0 <= i < |s.tasks| && WaitsForNotification(s.tasks[i]) :: s.tasks[i].notification == 0
  }

  ghost predicate WaitersOk(s: State) {
    SemaphoresOk(s) && EventsOk(s) && NotificationsOk(s)
  }

  // ---- own steps ----

  lemma TakeOk(s: State, x: nat, entered: nat, timeout: Word)
    requires Sane(s) && WaitersOk(s) && AppContext(s) && x < |s.semaphores|
    ensures SemaphoresOk(Take(s, x, entered, timeout).0)
  {}

  lemma GiveOk(s: State, x: nat)
    requires Sane(s) && WaitersOk(s) && x < |s.semaphores|
    ensures SemaphoresOk(Give(s, x))
  {
    BestWaiterIsBest(s.tasks, SemaphoreRef(x), SemaphoreWait, |s.tasks|);
    forall i | 0 <= i < |s.tasks|
      ensures WaitsForSemaphore(s.tasks[i], x) ==> Waiting(s.tasks[i], SemaphoreRef(x), SemaphoreWait)
    {
      assert TaskOk(s, i, s.tasks[i]);
    }
  }

  lemma ClearIsMonotone(b: bv32, mask: bv32, requested: bv32, all: bool)
    requires !EventCondition(b, requested, all)
    ensures !EventCondition(b & !mask, requested, all)
  {
    if all {
      assert (b & !mask) & requested == requested ==> b & requested == requested;
    } else {
      assert b & requested == 0 ==> (b & !mask) & requested == 0;
    }
  }

  lemma ClearKeepsEvents(s: State, g: nat, mask: bv32, s': State)
    requires EventsOk(s) && g < |s.groups| && s'.groups == s.groups[g := s.groups[g] & !mask]
    requires |s'.tasks| == |s.tasks|
    requires forall i, k | 0 <= i < |s.tasks| && WaitsForEvent(s'.tasks[i], k) ::
               WaitsForEvent(s.tasks[i], k) && s'.tasks[i].eventBits == s.tasks[i].eventBits
                   && s'.tasks[i].eventAll == s.tasks[i].eventAll
    ensures EventsOk(s')
  {
    forall i, k | 0 <= i < |s'.tasks| && 0 <= k < |s'.groups| && WaitsForEvent(s'.tasks[i], k)
      ensures !EventCondition(s'.groups[k], s'.tasks[i].eventBits, s'.tasks[i].eventAll)
    {
      assert WaitsForEvent(s.tasks[i], k);
      ClearIsMonotone(s.groups[k], mask, s.tasks[i].eventBits, s.tasks[i].eventAll);
    }
  }

  lemma SetBitsOk(s: State, g: nat, bits: bv32)
    requires Sane(s) && WaitersOk(s) && g < |s.groups|
    ensures EventsOk(SetBits(s, g, bits).0)
  {
    WakeEventsOk(s, g, WithBits(s.groups[g], bits));
  }

  lemma WakeEventsOk(s: State, g: nat, b: bv32)
    requires Sane(s) && WaitersOk(s) && g < |s.groups|
    ensures EventsOk(s.(groups := s.groups[g := b], tasks := WakeEvents(s.tasks, g, b)))
  {
    var s' := s.(groups := s.groups[g := b], tasks := WakeEvents(s.tasks, g, b));
    forall i, k | 0 <= i < |s'.tasks| && 0 <= k < |s'.groups| && WaitsForEvent(s'.tasks[i], k)
      ensures !EventCondition(s'.groups[k], s'.tasks[i].eventBits, s'.tasks[i].eventAll)
    {
      assert TaskOk(s, i, s.tasks[i]);
      assert WaitsForEvent(s.tasks[i], k);
    }
  }

  lemma WaitBitsOk(s: State, g: nat, bits: bv32, all: bool, clear: bool, timeout: Word)
    requires Sane(s) && WaitersOk(s) && AppContext(s) && g < |s.groups|
    ensures EventsOk(WaitBits(s, g, bits, all, clear, timeout).0)
  {
    var s' := WaitBits(s, g, bits, all, clear, timeout).0;
    if bits != 0 && EventCondition(s.groups[g], bits, all) && clear {
      ClearKeepsEvents(s, g, bits, s');
    }
  }

  lemma ContinueEventsOk(s: State)
    requires Sane(s) && WaitersOk(s) && Executing(s) && Current(s).call.WaitBitsCall?
    ensures EventsOk(Continue(s).0)
  {
    var s' := Continue(s).0;
    var g, bits := Current(s).call.group, Current(s).call.bits;
    if EventCondition(s.groups[g], bits, Current(s).eventAll) && Current(s).eventClear {
      ClearKeepsEvents(s, g, bits, s');
    }
  }

  lemma NotifyOk(s: State, id: nat, value: Word)
    requires Sane(s) && WaitersOk(s)
    ensures NotificationsOk(Notify(s, id, value).0)
  {
    if id < |s.tasks| {
      assert TaskOk(s, id, s.tasks[id]);
    }
  }

  lemma TakeNotificationOk(s: State, timeout: Word)
    requires Sane(s) && WaitersOk(s) && AppContext(s)
    ensures NotificationsOk(TakeNotification(s, timeout).0)
  {}

  // ---- the other steps ----

  lemma SemaphoreFrame(s: State, s': State)
    requires SemaphoresOk(s) && s'.semaphores == s.semaphores && |s'.tasks| == |s.tasks|
    requires forall i, x | 0 <= i < |s.tasks| && WaitsForSemaphore(s'.tasks[i], x) :: WaitsForSemaphore(s.tasks[i], x)
    ensures SemaphoresOk(s')
  {}

  lemma EventFrame(s: State, s': State)
    requires EventsOk(s) && s'.groups == s.groups && |s'.tasks| == |s.tasks|
    requires forall i, k | 0 <= i < |s.tasks| && WaitsForEvent(s'.tasks[i], k) ::
               WaitsForEvent(s.tasks[i], k) && s'.tasks[i].eventBits == s.tasks[i].eventBits
                   && s'.tasks[i].eventAll == s.tasks[i].eventAll
    ensures EventsOk(s')
  {}

  lemma OtherSemaphoreSteps(s: State, s': State, p: Protocol)
    requires SemaphoresOk(s) && AllKeep(p, s, s') && p != SemaphoreProtocol && s'.semaphores == s.semaphores
    ensures SemaphoresOk(s')
  {
    forall i, x | 0 <= i < |s.tasks| && WaitsForSemaphore(s'.tasks[i], x) ensures WaitsForSemaphore(s.tasks[i], x) {
      assert Keeps(p, s.tasks[i], s'.tasks[i]);
    }
    SemaphoreFrame(s, s');
  }

  lemma OtherEventSteps(s: State, s': State, p: Protocol)
    requires EventsOk(s) && AllKeep(p, s, s') && p != EventProtocol && s'.groups == s.groups
    ensures EventsOk(s')
  {
    forall i, k | 0 <= i < |s.tasks| && WaitsForEvent(s'.tasks[i], k)
      ensures WaitsForEvent(s.tasks[i], k) && s'.tasks[i].eventBits == s.tasks[i].eventBits
              && s'.tasks[i].eventAll == s.tasks[i].eventAll
    {
      assert Keeps(p, s.tasks[i], s'.tasks[i]);
    }
    EventFrame(s, s');
  }

  lemma OtherNotifySteps(s: State, s': State, p: Protocol)
    requires NotificationsOk(s) && AllKeep(p, s, s') && p != NotifyProtocol
    ensures NotificationsOk(s')
  {
    forall i | 0 <= i < |s'.tasks| && WaitsForNotification(s'.tasks[i]) ensures s'.tasks[i].notification == 0 {
      assert Keeps(p, s.tasks[i], s'.tasks[i]);
      assert WaitsForNotification(s.tasks[i]);
    }
  }

  /** After popping the running task's frame there is one phase less, and no new waiter. */
  lemma ContinueSemaphoreOk(s: State)
    requires Sane(s) && WaitersOk(s) && Executing(s) && Current(s).call.TakeCall?
    ensures SemaphoresOk(Continue(s).0)
  {
    SemaphoreFrame(s, Continue(s).0);
  }

  lemma ContinueNotifyOk(s: State)
    requires Sane(s) && WaitersOk(s) && Executing(s) && Current(s).call.NotifyCall?
    ensures NotificationsOk(Continue(s).0)
  {}

  lemma RestWaits(t: Task, t': Task)
    requires Rest(t) == Rest(t')
    ensures forall x :: WaitsForSemaphore(t', x) == WaitsForSemaphore(t, x)
    ensures forall g :: WaitsForEvent(t', g) == WaitsForEvent(t, g)
    ensures WaitsForNotification(t') == WaitsForNotification(t) && t'.notification == t.notification
    ensures t'.eventBits == t.eventBits && t'.eventAll == t.eventAll
  {
    assert t' == t.(priority := t'.priority);
  }

  lemma TickWaits(s: State, i: nat)
    requires Sane(s) && i < |s.tasks|
    ensures
      var t, t' := s.tasks[i], Tick(s).tasks[i];
      && (forall x :: WaitsForSemaphore(t', x) ==> WaitsForSemaphore(t, x))
      && (forall g :: WaitsForEvent(t', g) ==> WaitsForEvent(t, g))
      && (WaitsForNotification(t') ==> WaitsForNotification(t))
      && t'.notification == t.notification && t'.eventBits == t.eventBits && t'.eventAll == t.eventAll
  {
    var t, t' := s.tasks[i], Tick(s).tasks[i];
    TickAt(s, i);
    if Rest(t') == Rest(TickOne(t, Wrap(s.ticks + 1))) {
      RestWaits(TickOne(t, Wrap(s.ticks + 1)), t');
    } else {
      RestWaits(WaitEnd(t, true), t');
    }
  }

  lemma TickWaitersOk(s: State)
    requires Sane(s) && WaitersOk(s)
    ensures WaitersOk(Tick(s))
  {
    var s' := Tick(s);
    forall i | 0 <= i < |s.tasks|
      ensures forall x :: WaitsForSemaphore(s'.tasks[i], x) ==> WaitsForSemaphore(s.tasks[i], x)
      ensures forall g :: WaitsForEvent(s'.tasks[i], g) ==> WaitsForEvent(s.tasks[i], g)
      ensures WaitsForNotification(s'.tasks[i]) ==> WaitsForNotification(s.tasks[i])
      ensures s'.tasks[i].notification == s.tasks[i].notification
      ensures s'.tasks[i].eventBits == s.tasks[i].eventBits && s'.tasks[i].eventAll == s.tasks[i].eventAll
    {
      TickWaits(s, i);
    }
    SemaphoreFrame(s, s');
    EventFrame(s, s');
  }

  lemma CreateSemaphoreOk(s: State, x: nat, available: bool)
    requires Sane(s) && Legal(s, CreateSemaphoreStep(x, available))
    ensures SemaphoresOk(Next(s, CreateSemaphoreStep(x, available)).0)
  {
    NobodyCalls(s);
  }

  lemma CreateGroupOk(s: State, g: nat)
    requires Sane(s) && Legal(s, CreateGroupStep(g))
    ensures EventsOk(Next(s, CreateGroupStep(g)).0)
  {
    NobodyCalls(s);
  }

  lemma StepSemaphores(s: State, step: Step)
    requires Sane(s) && WaitersOk(s) && Legal(s, step) && !step.TickStep?
    requires forall i | 0 <= i < |s.tasks| :: s.tasks[i].priority >= 0
    ensures SemaphoresOk(Next(s, step).0)
  {
    hide Next, Take, Give, Continue;
    StepKeeps(s, step);
    StepFrame(s, step);
    if step.TakeStep? {
      NextTake(s, step.x, step.entered, step.timeout);
      TakeOk(s, step.x, step.entered, step.timeout);
    } else if step.GiveStep? {
      NextGive(s, step.x);
      GiveOk(s, step.x);
    } else if step.CreateSemaphoreStep? {
      CreateSemaphoreOk(s, step.x, step.available);
    } else if step.ContinueStep? && Current(s).call.TakeCall? {
      NextContinue(s);
      ContinueSemaphoreOk(s);
    } else {
      OtherSemaphoreSteps(s, Next(s, step).0, StepProtocol(s, step));
    }
  }

  /** Before the start nobody is in a call. */
  lemma NobodyCalls(s: State)
    requires Sane(s) && !s.started
    ensures forall i | 0 <= i < |s.tasks| :: s.tasks[i].call.NoCall?
  {
    forall i | 0 <= i < |s.tasks| ensures s.tasks[i].call.NoCall? {
      assert TaskOk(s, i, s.tasks[i]);
    }
  }

  lemma StepEvents(s: State, step: Step)
    requires Sane(s) && WaitersOk(s) && Legal(s, step) && !step.TickStep?
    requires forall i | 0 <= i < |s.tasks| :: s.tasks[i].priority >= 0
    ensures EventsOk(Next(s, step).0)
  {
    hide Next, SetBits, WaitBits, Continue;
    StepKeeps(s, step);
    StepFrame(s, step);
    if step.SetBitsStep? {
      NextSetBits(s, step.g, step.bits);
      SetBitsOk(s, step.g, step.bits);
    } else if step.WaitBitsStep? {
      NextWaitBits(s, step.g, step.bits, step.all, step.clear, step.entered, step.timeout);
      WaitBitsOk(s, step.g, step.bits, step.all, step.clear, step.timeout);
    } else if step.CreateGroupStep? {
      CreateGroupOk(s, step.g);
    } else if step.ContinueStep? && Current(s).call.WaitBitsCall? {
      NextContinue(s);
      ContinueEventsOk(s);
    } else {
      OtherEventSteps(s, Next(s, step).0, StepProtocol(s, step));
    }
  }

  lemma StepNotifications(s: State, step: Step)
    requires Sane(s) && WaitersOk(s) && Legal(s, step) && !step.TickStep?
    requires forall i | 0 <= i < |s.tasks| :: s.tasks[i].priority >= 0
    ensures NotificationsOk(Next(s, step).0)
  {
    hide Next, Notify, TakeNotification, Continue;
    StepKeeps(s, step);
    if step.NotifyStep? {
      NextNotify(s, step.id, step.value);
      NotifyOk(s, step.id, step.value);
    } else if step.TakeNotificationStep? {
      NextTakeNotification(s, step.entered, step.timeout);
      TakeNotificationOk(s, step.timeout);
    } else if step.ContinueStep? && Current(s).call.NotifyCall? {
      NextContinue(s);
      ContinueNotifyOk(s);
    } else {
      OtherNotifySteps(s, Next(s, step).0, StepProtocol(s, step));
    }
  }

  lemma StepKeepsWaiters(s: State, step: Step)
    requires Sane(s) && WaitersOk(s) && Legal(s, step)
    requires forall i | 0 <= i < |s.tasks| :: s.tasks[i].priority >= 0
    ensures WaitersOk(Next(s, step).0)
  {
    hide Next, Tick;
    if step.TickStep? {
      NextTick(s);
      TickWaitersOk(s);
    } else {
      StepSemaphores(s, step);
      StepEvents(s, step);
      StepNotifications(s, step);
    }
  }
}
