/** Which blocking protocol a task is engaged in, and which protocol each step belongs to.
    A step moves only tasks of its own protocol, so each protocol can be proved by itself. */
module Phases {
  import opened Types
  import opened TaskTable
  import opened Machine
  import opened WaitInvariant

  datatype Protocol =
    | NoProtocol | MutexProtocol | SemaphoreProtocol | QueueProtocol | EventProtocol | NotifyProtocol
    | ServiceProtocol | ResumeProtocol

  function ProtocolOf(c: Call): Protocol {
    match c
    case NoCall => NoProtocol
    case LockCall(_) => MutexProtocol
    case TakeCall(_) => SemaphoreProtocol
    case SendCall(_, _, _, _) => QueueProtocol
    case ReceiveCall(_, _, _) => QueueProtocol
    case WaitBitsCall(_, _) => EventProtocol
    case NotifyCall => NotifyProtocol
  }

  /** The protocol a step may advance; a tick may end a wait of any of them. */
  function StepProtocol(s: State, step: Step): Protocol
    requires s.cur < |s.tasks|
  {
    match step
    case LockStep(_, _, _) => MutexProtocol
    case UnlockStep(_) => MutexProtocol
    case GiveStep(_) => SemaphoreProtocol
    case TakeStep(_, _, _) => SemaphoreProtocol
    case SendStep(_, _, _, _) => QueueProtocol
    case ReceiveStep(_, _, _) => QueueProtocol
    case SendFromIsrStep(_, _) => QueueProtocol
    case SetBitsStep(_, _) => EventProtocol
    case WaitBitsStep(_, _, _, _, _, _) => EventProtocol
    case NotifyStep(_, _) => NotifyProtocol
    case TakeNotificationStep(_, _) => NotifyProtocol
    case ContinueStep => ProtocolOf(Current(s).call)
    case ServiceClaimStep => ServiceProtocol
    case ResumeStep(_) => ResumeProtocol
    case _ => NoProtocol
  }

  predicate SameWait(t: Task, t': Task) {
    && t.state.Blocked? && t'.state.Blocked?
    && t'.waitObject == t.waitObject && t'.waitKind == t.waitKind
    && t'.waitStart == t.waitStart && t'.waitDeadline == t.waitDeadline && t'.waitForever == t.waitForever
  }

  predicate SamePhase(t: Task, t': Task) {
    && t'.call == t.call
    && (t'.state.Blocked? <==> t.state.Blocked?)
    && (t'.state.Blocked? ==> SameWait(t, t'))
    && t'.waitResult == t.waitResult
    && t'.eventBits == t.eventBits && t'.eventAll == t.eventAll
  }

  predicate Outside(p: Protocol, c: Call) {
    ProtocolOf(c) == NoProtocol || ProtocolOf(c) == p
  }

  /** A blocked task was blocked before, or is the running task that has just blocked itself. */
  predicate Settled(p: Protocol, t: Task, t': Task) {
    t'.state.Blocked? ==> SameWait(t, t') || (t.state.Running? && (t'.call.NoCall? ==> p == ServiceProtocol))
  }

  /** Delayed or suspended. */
  predicate Dormant(t: Task) {
    t.state.Sleeping? || t.state.Suspended?
  }

  /** The task keeps its phase, or was and stays outside every protocol but p; only notifications change
      its notification value, and only a resume touches it while it is dormant. */
  predicate Keeps(p: Protocol, t: Task, t': Task) {
    && (SamePhase(t, t') || (Outside(p, t.call) && Outside(p, t'.call) && Settled(p, t, t')))
    && (p != NotifyProtocol ==> t'.notification == t.notification)
    && (p != ResumeProtocol && Dormant(t) ==> t'.state == t.state && t'.sleepTicks == t.sleepTicks)
  }

  ghost predicate AllKeep(p: Protocol, s: State, s': State) {
    |s'.tasks| == |s.tasks| && forall i | 0 <= i < |s.tasks| :: Keeps(p, s.tasks[i], s'.tasks[i])
  }

  ghost predicate SamePriorities(s: State, s': State) {
    |s'.tasks| == |s.tasks|
    && forall i | 0 <= i < |s.tasks| ::
         s'.tasks[i].priority == s.tasks[i].priority && s'.tasks[i].basePriority == s.tasks[i].basePriority
  }

  function KindProtocol(k: WaitKind): Protocol {
    match k
    case NoWait => NoProtocol
    case SemaphoreWait => SemaphoreProtocol
    case SendWait => QueueProtocol
    case ReceiveWait => QueueProtocol
    case MutexWait => MutexProtocol
    case NotificationWait => NotifyProtocol
    case EventWait => EventProtocol
    case ServiceWait => NoProtocol
  }

  lemma KindOfCall(s: State, i: nat)
    requires TasksOk(s) && i < |s.tasks| && s.tasks[i].state.Blocked?
    ensures ProtocolOf(s.tasks[i].call) == KindProtocol(s.tasks[i].waitKind)
  {
    assert TaskOk(s, i, s.tasks[i]);
  }

  lemma WakeKeeps(s: State, obj: Object, kind: WaitKind, i: nat)
    requires TasksOk(s) && i < |s.tasks|
    ensures var t' := Wake(s.tasks, obj, kind).0[i];
      Keeps(KindProtocol(kind), s.tasks[i], t') && t'.priority == s.tasks[i].priority
      && t'.basePriority == s.tasks[i].basePriority && t'.notification == s.tasks[i].notification
  {
    if Wake(s.tasks, obj, kind).1 == i {
      KindOfCall(s, i);
    }
  }

  lemma DeliverKeeps(s: State, q: nat, item: seq<Byte>, reserved: bool)
    requires Sane(s) && q < |s.queues| && Usable(s.queues[q]) && |item| == s.queues[q].itemSize
    ensures var s' := Deliver(s, q, item, reserved); AllKeep(QueueProtocol, s, s') && SamePriorities(s, s')
  {
    forall i | 0 <= i < |s.tasks| {
      WakeKeeps(s, QueueRef(q), ReceiveWait, i);
    }
  }

  lemma ExtractKeeps(s: State, q: nat, reserved: bool)
    requires Sane(s) && q < |s.queues| && Usable(s.queues[q])
    ensures var s' := Extract(s, q, reserved); AllKeep(QueueProtocol, s, s') && SamePriorities(s, s')
  {
    forall i | 0 <= i < |s.tasks| {
      WakeKeeps(s, QueueRef(q), SendWait, i);
    }
  }

  lemma SendPassKeeps(s: State, q: nat, item: seq<Byte>, timeout: Word, d: Deadline, reserved: bool)
    requires Sane(s) && AppContext(s) && q < |s.queues| && |item| == s.queues[q].itemSize
    ensures var s' := SendPass(s, q, item, timeout, d, reserved).0;
      AllKeep(QueueProtocol, s, s') && SamePriorities(s, s')
  {
    if Usable(s.queues[q]) && (reserved || HasRoom(s.queues[q])) {
      DeliverKeeps(s, q, item, reserved);
    }
  }

  lemma ReceivePassKeeps(s: State, q: nat, timeout: Word, d: Deadline, reserved: bool)
    requires Sane(s) && AppContext(s) && q < |s.queues|
    ensures var s' := ReceivePass(s, q, timeout, d, reserved).0; AllKeep(QueueProtocol, s, s') && SamePriorities(s, s')
  {
    if Usable(s.queues[q]) && (reserved || HasItem(s.queues[q])) {
      ExtractKeeps(s, q, reserved);
    }
  }

  lemma SendFromIsrKeeps(s: State, q: nat, item: seq<Byte>)
    requires Sane(s) && q < |s.queues| && |item| == s.queues[q].itemSize
    ensures var s' := SendFromIsr(s, q, item).0; AllKeep(QueueProtocol, s, s') && SamePriorities(s, s')
  {
    if HasRoom(s.queues[q]) {
      DeliverKeeps(s, q, item, false);
    }
  }

  lemma ContinueKeeps(s: State)
    requires Sane(s) && Executing(s) && !Current(s).call.NoCall?
    ensures var s' := Continue(s).0; AllKeep(ProtocolOf(Current(s).call), s, s') && SamePriorities(s, s')
  {
    hide Continue, TasksOk, AllKeep, SamePriorities;
    if Current(s).call.SendCall? || Current(s).call.ReceiveCall? {
      QueueReturnKeeps(s);
    } else {
      OwnReturnKeeps(s);
    }
  }

  /** The second pass of a queue call. */
  lemma QueueReturnKeeps(s: State)
    requires Sane(s) && Executing(s) && (Current(s).call.SendCall? || Current(s).call.ReceiveCall?)
    ensures var s' := Continue(s).0; AllKeep(QueueProtocol, s, s') && SamePriorities(s, s')
  {
    assert TaskOk(s, s.cur, Current(s));
    hide SendPass, ReceivePass, AllKeep, SamePriorities, TasksOk;
    var back := Returned(s);
    ReturnedSane(s);
    ReturnedKeeps(s);
    var t := Current(s);
    if t.waitResult {
      if t.call.SendCall? {
        SendPassKeeps(back, t.call.queue, t.call.item, t.call.timeout, t.call.deadline, true);
      } else {
        ReceivePassKeeps(back, t.call.queue, t.call.timeout, t.call.deadline, true);
      }
      KeepsTrans(s, back, Continue(s).0);
    }
  }

  lemma ReturnedKeeps(s: State)
    requires s.cur < |s.tasks| && Executing(s)
    ensures AllKeep(ProtocolOf(Current(s).call), s, Returned(s)) && SamePriorities(s, Returned(s))
  {}

  /** The return of a call whose second part changes the running task alone. */
  lemma OwnReturnKeeps(s: State)
    requires Sane(s) && Executing(s) && !Current(s).call.NoCall?
    requires !Current(s).call.SendCall? && !Current(s).call.ReceiveCall?
    ensures var s' := Continue(s).0; AllKeep(ProtocolOf(Current(s).call), s, s') && SamePriorities(s, s')
  {
    hide EventCondition, WithoutBits, CommonBits;
  }

  lemma KeepsTrans(s: State, s1: State, s2: State)
    requires AllKeep(QueueProtocol, s, s1) && AllKeep(QueueProtocol, s1, s2)
    requires SamePriorities(s, s1) && SamePriorities(s1, s2)
    requires forall i | 0 <= i < |s.tasks| :: s1.tasks[i].state == s.tasks[i].state
    ensures AllKeep(QueueProtocol, s, s2) && SamePriorities(s, s2)
  {
    forall i | 0 <= i < |s.tasks| ensures Keeps(QueueProtocol, s.tasks[i], s2.tasks[i]) {
      assert Keeps(QueueProtocol, s.tasks[i], s1.tasks[i]) && Keeps(QueueProtocol, s1.tasks[i], s2.tasks[i]);
    }
  }

  lemma InheritKeeps(s: State, id: int, p: int)
    requires 0 <= id
    ensures var s' := s.(tasks := InheritPriority(s.tasks, s.mutexes, id, p));
      forall i | 0 <= i < |s.tasks| :: Rest(s'.tasks[i]) == Rest(s.tasks[i])
  {}

  lemma LockKeeps(s: State, m: nat, entered: nat, timeout: Word)
    requires Sane(s) && AppContext(s) && m < |s.mutexes|
    ensures AllKeep(MutexProtocol, s, Lock(s, m, entered, timeout).0)
  {
    var x := s.mutexes[m];
    InheritKeeps(s, x.owner, Current(s).priority);
    var s' := Lock(s, m, entered, timeout).0;
    forall i | 0 <= i < |s.tasks| ensures Keeps(MutexProtocol, s.tasks[i], s'.tasks[i]) {
      if x.locked && x.owner != s.cur && timeout != 0 {
        var b := InheritPriority(s.tasks, s.mutexes, x.owner, Current(s).priority);
        assert Rest(b[i]) == Rest(s.tasks[i]);
      }
    }
  }

  lemma KeepsRest(p: Protocol, t: Task, t1: Task, t': Task)
    requires Keeps(p, t, t1) && Rest(t') == Rest(t1)
    ensures Keeps(p, t, t')
  {
    assert t' == t1.(priority := t'.priority);
  }

  lemma RestorePriorityRest(ts: seq<Task>, ms: seq<Mutex>, id: int, i: nat)
    requires 0 <= id < |ts| && i < |ts|
    ensures Rest(RestorePriority(ts, ms, id)[i]) == Rest(ts[i])
  {}

  lemma UnlockRest(s: State, m: nat, i: nat)
    requires Wf(s) && m < |s.mutexes| && i < |s.tasks|
    ensures
      var t' := Unlock(s, m).0.tasks[i];
      Rest(t') == Rest(s.tasks[i]) || Rest(t') == Rest(Wake(s.tasks, MutexRef(m), MutexWait).0[i])
  {
    hide RestorePriority, Wake;
    var (ts, to) := Wake(s.tasks, MutexRef(m), MutexWait);
    var ms := s.mutexes[m := Released(s.mutexes[m], to)];
    RestorePriorityRest(ts, ms, s.cur, i);
    if to >= 0 {
      RestorePriorityRest(RestorePriority(ts, ms, s.cur), ms, to, i);
    }
  }

  lemma UnlockKeeps(s: State, m: nat)
    requires Sane(s) && AppContext(s) && m < |s.mutexes|
    ensures AllKeep(MutexProtocol, s, Unlock(s, m).0)
  {
    var s' := Unlock(s, m).0;
    forall i | 0 <= i < |s.tasks| ensures Keeps(MutexProtocol, s.tasks[i], s'.tasks[i]) {
      WakeKeeps(s, MutexRef(m), MutexWait, i);
      UnlockRest(s, m, i);
      if Rest(s'.tasks[i]) == Rest(s.tasks[i]) {
        KeepsRest(MutexProtocol, s.tasks[i], s.tasks[i], s'.tasks[i]);
      } else {
        KeepsRest(MutexProtocol, s.tasks[i], Wake(s.tasks, MutexRef(m), MutexWait).0[i], s'.tasks[i]);
      }
    }
  }

  lemma GiveKeeps(s: State, x: nat)
    requires Sane(s) && x < |s.semaphores|
    ensures AllKeep(SemaphoreProtocol, s, Give(s, x)) && SamePriorities(s, Give(s, x))
  {
    forall i | 0 <= i < |s.tasks| {
      WakeKeeps(s, SemaphoreRef(x), SemaphoreWait, i);
    }
  }

  lemma WakeEventsKeeps(s: State, g: nat, b: bv32, i: nat)
    requires Sane(s) && i < |s.tasks|
    ensures var t' := WakeEvents(s.tasks, g, b)[i];
      Keeps(EventProtocol, s.tasks[i], t') && t'.priority == s.tasks[i].priority
          && t'.basePriority == s.tasks[i].basePriority
  {
    if EventReady(s.tasks[i], g, b) {
      KindOfCall(s, i);
    }
  }

  lemma SetBitsKeeps(s: State, g: nat, bits: bv32)
    requires Sane(s) && g < |s.groups|
    ensures var s' := SetBits(s, g, bits).0; AllKeep(EventProtocol, s, s') && SamePriorities(s, s')
  {
    WakeAllEventsKeeps(s, g, WithBits(s.groups[g], bits));
  }

  lemma WakeAllEventsKeeps(s: State, g: nat, b: bv32)
    requires Sane(s) && g < |s.groups|
    ensures var s' := s.(groups := s.groups[g := b], tasks := WakeEvents(s.tasks, g, b));
      AllKeep(EventProtocol, s, s') && SamePriorities(s, s')
  {
    hide Keeps, WakeEvents, EventCondition;
    forall i | 0 <= i < |s.tasks| {
      WakeEventsKeeps(s, g, b, i);
    }
  }

  /** Steps that change the running task alone. */
  lemma CurrentKeeps(s: State, t: Task, p: Protocol)
    requires s.cur < |s.tasks| && Keeps(p, Current(s), t)
    requires t.priority == Current(s).priority && t.basePriority == Current(s).basePriority
    ensures AllKeep(p, s, SetCurrent(s, t)) && SamePriorities(s, SetCurrent(s, t))
  {}

  lemma TakeKeeps(s: State, x: nat, entered: nat, timeout: Word)
    requires Sane(s) && AppContext(s) && x < |s.semaphores|
    ensures var s' := Take(s, x, entered, timeout).0; AllKeep(SemaphoreProtocol, s, s') && SamePriorities(s, s')
  {
    CurrentKeeps(s, Take(s, x, entered, timeout).0.tasks[s.cur], SemaphoreProtocol);
  }

  lemma WaitBitsKeeps(s: State, g: nat, bits: bv32, all: bool, clear: bool, timeout: Word)
    requires Sane(s) && AppContext(s) && g < |s.groups|
    ensures var s' := WaitBits(s, g, bits, all, clear, timeout).0;
      AllKeep(EventProtocol, s, s') && SamePriorities(s, s')
  {
    CurrentKeeps(s, WaitBits(s, g, bits, all, clear, timeout).0.tasks[s.cur], EventProtocol);
  }

  lemma TakeNotificationKeeps(s: State, timeout: Word)
    requires Sane(s) && AppContext(s)
    ensures var s' := TakeNotification(s, timeout).0; AllKeep(NotifyProtocol, s, s') && SamePriorities(s, s')
  {
    CurrentKeeps(s, TakeNotification(s, timeout).0.tasks[s.cur], NotifyProtocol);
  }

  lemma DelayKeeps(s: State, delay: Word)
    requires Sane(s) && AppContext(s)
    ensures AllKeep(NoProtocol, s, Delay(s, delay)) && SamePriorities(s, Delay(s, delay))
  {
    CurrentKeeps(s, Delay(s, delay).tasks[s.cur], NoProtocol);
  }

  lemma SuspendKeeps(s: State, task: Word)
    requires Sane(s)
    ensures AllKeep(NoProtocol, s, Suspend(s, task).0) && SamePriorities(s, Suspend(s, task).0)
  {}

  lemma ResumeKeeps(s: State, task: Word)
    requires Sane(s)
    ensures AllKeep(ResumeProtocol, s, Resume(s, task).0) && SamePriorities(s, Resume(s, task).0)
  {}

  lemma ServiceClaimKeeps(s: State)
    requires Sane(s) && Executing(s) && s.cur == s.Service()
    ensures AllKeep(ServiceProtocol, s, ServiceClaim(s).0)
    ensures SamePriorities(s, ServiceClaim(s).0)
  {}

  lemma NotifyKeeps(s: State, id: nat, value: Word)
    requires Sane(s)
    ensures var s' := Notify(s, id, value).0; AllKeep(NotifyProtocol, s, s') && SamePriorities(s, s')
  {
    if id < |s.tasks| && s.tasks[id].state.Blocked? {
      KindOfCall(s, id);
    }
  }

  lemma WakeServiceKeeps(s: State, ts: seq<Task>)
    requires Sane(s) && (ts == s.tasks || ts == WakeService(s.tasks, s.Service()))
    ensures AllKeep(NoProtocol, s, s.(tasks := ts)) && SamePriorities(s, s.(tasks := ts))
  {
    if ServiceBlocked(s.tasks[s.Service()]) {
      KindOfCall(s, s.Service());
    }
  }

  /** Preempted, selected or neither. */
  lemma SwitchedTask(s: State, t: Task, t': Task)
    requires t' == t
             || ((t.state.Running? || t.state.Ready?) && (t' == t.(state := Ready) || t' == t.(state := Running)))
    ensures Keeps(NoProtocol, t, t') && t'.priority == t.priority && t'.basePriority == t.basePriority
  {}

  lemma SwitchKeeps(s: State)
    requires Sane(s) && forall i | 0 <= i < |s.tasks| :: s.tasks[i].priority >= 0
    ensures AllKeep(NoProtocol, s, Switch(s)) && SamePriorities(s, Switch(s))
  {
    hide Keeps, Select, TasksOk;
    SwitchElects(s);
    forall i | 0 <= i < |s.tasks| {
      SwitchedTask(s, s.tasks[i], Switch(s).tasks[i]);
    }
  }

  /** A timer step leaves the task table alone, or wakes the timer service. */
  lemma TimerTasks(s: State, step: Step)
    requires Wf(s) && Legal(s, step) && (step.CreateTimerStep? || (IsTimerCall(step) && !step.ServiceClaimStep?))
    ensures var s' := Next(s, step).0; s'.tasks == s.tasks || s'.tasks == WakeService(s.tasks, s.Service())
  {
    hide WakeService, CreateTimer, StartTimer, StartPeriodic, RestartTimer, StopTimer, TakeExpirations, Dispatch;
  }

  lemma TimerKeeps(s: State, step: Step)
    requires Sane(s) && Legal(s, step) && (step.CreateTimerStep? || (IsTimerCall(step) && !step.ServiceClaimStep?))
    ensures AllKeep(NoProtocol, s, Next(s, step).0) && SamePriorities(s, Next(s, step).0)
  {
    hide Next, WakeService, TasksOk, AllKeep, SamePriorities;
    TimerTasks(s, step);
    WakeServiceKeeps(s, Next(s, step).0.tasks);
    TasksDecide(s, Next(s, step).0);
  }

  /** Only the task table matters. */
  lemma TasksDecide(s: State, s': State)
    requires AllKeep(NoProtocol, s, s.(tasks := s'.tasks)) && SamePriorities(s, s.(tasks := s'.tasks))
    ensures AllKeep(NoProtocol, s, s') && SamePriorities(s, s')
  {}

  /** Creating an object and starting the kernel touch no task. */
  lemma SetupKeeps(s: State, step: Step)
    requires Sane(s) && Legal(s, step)
    requires step.CreateMutexStep? || step.CreateSemaphoreStep? || step.CreateQueueStep? || step.CreateGroupStep?
             || step.StartStep?
    ensures AllKeep(NoProtocol, s, Next(s, step).0) && SamePriorities(s, Next(s, step).0)
  {
    assert Next(s, step).0.tasks == s.tasks;
  }

  /** A task's own calls. */
  lemma CallKeeps(s: State, step: Step)
    requires Sane(s) && Legal(s, step)
    requires step.SendStep? || step.ReceiveStep? || step.TakeStep? || step.WaitBitsStep? || step.TakeNotificationStep?
             || step.DelayStep? || step.SuspendStep? || step.ResumeStep? || step.ContinueStep? || step.ServiceClaimStep?
    ensures AllKeep(StepProtocol(s, step), s, Next(s, step).0) && SamePriorities(s, Next(s, step).0)
  {
    hide Sane, Take, SendPass, ReceivePass, WaitBits, TakeNotification, Continue, Delay, Suspend, Resume, ServiceClaim,
      AllKeep, SamePriorities;
    if step.SendStep? {
      SendPassKeeps(s, step.q, step.item, step.timeout, MakeDeadline(Wrap(step.entered), step.timeout), false);
    } else if step.ReceiveStep? {
      ReceivePassKeeps(s, step.q, step.timeout, MakeDeadline(Wrap(step.entered), step.timeout), false);
    } else if step.TakeStep? {
      TakeKeeps(s, step.x, step.entered, step.timeout);
    } else if step.WaitBitsStep? {
      WaitBitsKeeps(s, step.g, step.bits, step.all, step.clear, step.timeout);
    } else if step.TakeNotificationStep? {
      TakeNotificationKeeps(s, step.timeout);
    } else if step.DelayStep? {
      DelayKeeps(s, step.delay);
    } else if step.SuspendStep? {
      SuspendKeeps(s, step.task);
    } else if step.ResumeStep? {
      ResumeKeeps(s, step.task);
    } else if step.ContinueStep? {
      ContinueKeeps(s);
    } else {
      ServiceClaimKeeps(s);
    }
  }

  /** Signals, unlocking, locking and the context switch. */
  lemma SignalKeeps(s: State, step: Step)
    requires Sane(s) && Legal(s, step) && forall i | 0 <= i < |s.tasks| :: s.tasks[i].priority >= 0
    requires step.LockStep? || step.UnlockStep? || step.GiveStep? || step.SendFromIsrStep? || step.SetBitsStep?
             || step.NotifyStep?
             || step.SwitchStep?
    ensures AllKeep(StepProtocol(s, step), s, Next(s, step).0)
    ensures !step.LockStep? && !step.UnlockStep? ==> SamePriorities(s, Next(s, step).0)
  {
    hide Sane, Lock, Unlock, Switch, Give, SendFromIsr, SetBits, Notify, AllKeep, SamePriorities;
    if step.LockStep? {
      LockKeeps(s, step.m, step.entered, step.timeout);
    } else if step.UnlockStep? {
      UnlockKeeps(s, step.m);
    } else if step.GiveStep? {
      GiveKeeps(s, step.x);
    } else if step.SendFromIsrStep? {
      SendFromIsrKeeps(s, step.q, step.item);
    } else if step.SetBitsStep? {
      SetBitsKeeps(s, step.g, step.bits);
    } else if step.NotifyStep? {
      NotifyKeeps(s, step.id, step.value);
    } else {
      SwitchKeeps(s);
    }
  }

  /** Apart from ticks, a step moves only tasks of its own protocol; apart from ticks and mutex steps
      it changes no priority. */
  lemma StepKeeps(s: State, step: Step)
    requires Sane(s) && Legal(s, step) && !step.TickStep? && forall i | 0 <= i < |s.tasks| :: s.tasks[i].priority >= 0
    ensures AllKeep(StepProtocol(s, step), s, Next(s, step).0)
    ensures !step.LockStep? && !step.UnlockStep? ==> SamePriorities(s, Next(s, step).0)
  {
    hide AllKeep, SamePriorities, Next, TasksOk;
    if step.CreateTimerStep? || (IsTimerCall(step) && !step.ServiceClaimStep?) {
      TimerKeeps(s, step);
    } else if step.CreateMutexStep? || step.CreateSemaphoreStep? || step.CreateQueueStep? || step.CreateGroupStep?
        || step.StartStep? {
      SetupKeeps(s, step);
    } else if step.LockStep? || step.UnlockStep? || step.GiveStep? || step.SendFromIsrStep? || step.SetBitsStep?
        || step.NotifyStep?
              || step.SwitchStep? {
      SignalKeeps(s, step);
    } else {
      CallKeeps(s, step);
    }
  }
}
