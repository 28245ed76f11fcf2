/** The task table stays coherent on every run: wait metadata exactly on blocked tasks, the blocked
    call on the stack, one running task, idle always runnable. */
module WaitInvariant {
  import opened Types
  import opened TaskTable
  import opened Machine
  import Scheduler
  import IntrusiveList

  predicate NoMetadata(t: Task) {
    && t.waitObject.NullObject? && t.waitKind.NoWait?
    && t.waitStart == 0 && t.waitDeadline == 0 && !t.waitForever
  }

  /** A blocked task's wait object and kind are those of the call it is blocked in. */
  predicate WaitMatches(s: State, i: nat, t: Task) {
    match t.waitKind
    case NoWait => false
    case SemaphoreWait => t.call.TakeCall? && t.waitObject == SemaphoreRef(t.call.semaphore)
    case SendWait => t.call.SendCall? && t.waitObject == QueueRef(t.call.queue)
    case ReceiveWait => t.call.ReceiveCall? && t.waitObject == QueueRef(t.call.queue)
    case MutexWait => t.call.LockCall? && t.waitObject == MutexRef(t.call.mutex)
    case NotificationWait => t.call.NotifyCall? && t.waitObject == TaskRef(i)
    case EventWait =>
      t.call.WaitBitsCall? && t.waitObject == GroupRef(t.call.group) && t.eventBits == t.call.bits
    case ServiceWait => i == s.Service() && t.waitObject == ServiceRef && t.waitForever
  }

  predicate TaskOk(s: State, i: nat, t: Task) {
    && (if t.state.Blocked? then WaitMatches(s, i, t) else NoMetadata(t))
    && (t.state.Running? ==> i == s.cur)
    && (t.state.Sleeping? ==> i < s.apps && t.sleepTicks > 0 && t.call.NoCall?)
    && (t.state.Suspended? ==> i < s.apps)
    && (!t.call.NoCall? ==> i < s.apps && s.started)
    && (i == s.Idle() ==> t.state.Ready? || t.state.Running?)
    && CallInRange(s, t.call)
  }

  ghost predicate TasksOk(s: State) {
    forall i | 0 <= i < |s.tasks| :: TaskOk(s, i, s.tasks[i])
  }

  /** Wf and the task invariant together. */
  ghost predicate Sane(s: State) {
    Wf(s) && TasksOk(s)
  }

  /** A transition that may move only task entries and queue, group, semaphore and mutex values. */
  predicate SameFrame(s: State, s': State) {
    && s'.cur == s.cur && s'.apps == s.apps && s'.started == s.started
    && |s'.tasks| == |s.tasks| && |s'.mutexes| == |s.mutexes| && |s'.semaphores| == |s.semaphores|
    && |s'.queues| == |s.queues| && |s'.groups| == |s.groups| && |s'.timers| == |s.timers|
    && (forall q | 0 <= q < |s.queues| :: s'.queues[q].itemSize == s.queues[q].itemSize)
  }

  lemma TaskOkFrame(s: State, s': State, i: nat, t: Task)
    requires SameFrame(s, s')
    ensures TaskOk(s, i, t) == TaskOk(s', i, t)
  {}

  /** A task entry without its effective priority. */
  function Rest(t: Task): Task {
    t.(priority := 0)
  }

  /** What one tick does to a task entry apart from its priority. */
  function TickOne(t: Task, now: Word): Task {
    if t.state.Sleeping? && t.sleepTicks > 0 then SleepTick(t)
    else if TimedOut(t, now) then WaitEnd(t, false)
    else t
  }

  lemma TickTaskAt(ts: seq<Task>, ms: seq<Mutex>, now: Word, k: nat, i: nat)
    requires k < |ts| && i < |ts|
    ensures Rest(TickTask(ts, ms, now, k)[i]) == Rest(if i == k then TickOne(ts[i], now) else ts[i])
  {}

  lemma TickOneRest(t: Task, t': Task, now: Word)
    requires Rest(t) == Rest(t')
    ensures Rest(TickOne(t, now)) == Rest(TickOne(t', now))
  {
    assert t' == t.(priority := t'.priority);
    assert TimedOut(t, now) == TimedOut(t', now);
  }

  /** The tick treats every task by itself, apart from priorities. */
  lemma {:induction false} TickTasksAt(ts: seq<Task>, ms: seq<Mutex>, now: Word, k: nat, i: nat)
    requires k <= |ts| && i < |ts|
    ensures Rest(TickTasks(ts, ms, now, k)[i]) == Rest(if i < k then ts[i] else TickOne(ts[i], now))
    decreases |ts| - k
  {
    if k < |ts| {
      var ts1 := TickTask(ts, ms, now, k);
      TickTaskAt(ts, ms, now, k, i);
      TickTasksAt(ts1, ms, now, k + 1, i);
      if i > k {
        TickOneRest(ts1[i], ts[i], now);
      }
    }
  }

  // ---- preservation, one family of steps at a time ----

  lemma LinkMutexValid(s: State, m: nat)
    requires Wf(s) && m < |s.mutexes|
    ensures var s' := CreateMutex(s, m);
      && MutexLinks(s'.mutexes) == IntrusiveList.Link(MutexLinks(s.mutexes), s.mutexList, m).0
      && s'.mutexList == IntrusiveList.Link(MutexLinks(s.mutexes), s.mutexList, m).1
  {}

  lemma LinkTimerLinks(s: State, t: nat, x: Timer)
    requires Wf(s) && t < |s.timers|
    ensures var s' := LinkTimer(s, t, x);
      && TimerLinks(s'.timers) == IntrusiveList.Link(TimerLinks(s.timers), s.timerList, t).0
      && s'.timerList == IntrusiveList.Link(TimerLinks(s.timers), s.timerList, t).1
  {}

  lemma CreateMutexSane(s: State, m: nat)
    requires Sane(s) && m < |s.mutexes|
    ensures Sane(CreateMutex(s, m))
  {
    LinkMutexValid(s, m);
    TasksFrame(s, CreateMutex(s, m));
  }

  lemma CreateTimerSane(s: State, t: nat)
    requires Sane(s) && t < |s.timers|
    ensures Sane(CreateTimer(s, t))
  {
    LinkTimerLinks(s, t, Timer(0, 0, 0, 0, false, false, 0, 0, -1));
    TasksFrame(s, CreateTimer(s, t));
  }

  /** The same tasks, and objects of the same number and shape. */
  lemma TasksFrame(s: State, s': State)
    requires Sane(s) && SameFrame(s, s') && s'.tasks == s.tasks
    ensures TasksOk(s') && forall i | 0 <= i < |s.tasks| :: CallInRange(s', s'.tasks[i].call)
  {
    forall i | 0 <= i < |s.tasks| ensures TaskOk(s', i, s'.tasks[i]) {
      TaskOkFrame(s, s', i, s.tasks[i]);
    }
  }

  lemma CreateSane(s: State, step: Step)
    requires Sane(s) && Legal(s, step) && Starts(step)
    ensures Sane(Next(s, step).0)
  {
    hide CreateMutex, CreateTimer;
    if step.CreateMutexStep? {
      CreateMutexSane(s, step.m);
    } else if step.CreateTimerStep? {
      CreateTimerSane(s, step.t);
    }
  }

  /** Entries change only in priority, or by waking tasks that were blocked. */
  ghost predicate WakesOnly(s: State, s': State) {
    && SameFrame(s, s')
    && forall i | 0 <= i < |s.tasks| ::
         || Rest(s'.tasks[i]) == Rest(s.tasks[i])
         || (s.tasks[i].state.Blocked? && exists r :: Rest(s'.tasks[i]) == Rest(WaitEnd(s.tasks[i], r)))
  }

  lemma TaskOkRest(s: State, i: nat, t: Task, t': Task)
    requires Rest(t) == Rest(t')
    ensures TaskOk(s, i, t) == TaskOk(s, i, t')
  {
    assert t' == t.(priority := t'.priority);
  }

  lemma WaitEndOk(s: State, i: nat, t: Task, r: bool)
    requires TaskOk(s, i, t) && t.state.Blocked?
    ensures TaskOk(s, i, WaitEnd(t, r))
  {}

  lemma WakesOnlySane(s: State, s': State)
    requires Sane(s) && WakesOnly(s, s') && ListsValid(s')
    requires forall q | 0 <= q < |s'.queues| :: QueueShape(s'.queues[q])
    ensures Sane(s')
  {
    forall i | 0 <= i < |s.tasks| ensures TaskOk(s', i, s'.tasks[i]) {
      var t := s.tasks[i];
      if Rest(s'.tasks[i]) == Rest(t) {
        TaskOkRest(s, i, t, s'.tasks[i]);
      } else {
        var r :| Rest(s'.tasks[i]) == Rest(WaitEnd(t, r));
        WaitEndOk(s, i, t, r);
        TaskOkRest(s, i, WaitEnd(t, r), s'.tasks[i]);
      }
      TaskOkFrame(s, s', i, s'.tasks[i]);
    }
  }

  lemma WakeIsWakesOnly(ts: seq<Task>, obj: Object, kind: WaitKind, i: nat)
    requires i < |ts|
    ensures var r := Wake(ts, obj, kind).0[i]; r == ts[i] || (ts[i].state.Blocked? && r == WaitEnd(ts[i], true))
  {}

  lemma GiveSane(s: State, x: nat)
    requires Sane(s) && x < |s.semaphores|
    ensures Sane(Give(s, x))
  {
    WakesOnlySane(s, Give(s, x));
  }

  lemma DeliverSane(s: State, q: nat, item: seq<Byte>, reserved: bool)
    requires Sane(s) && q < |s.queues| && Usable(s.queues[q]) && |item| == s.queues[q].itemSize
    ensures Sane(Deliver(s, q, item, reserved))
  {
    WakesOnlySane(s, Deliver(s, q, item, reserved));
  }

  lemma ExtractSane(s: State, q: nat, reserved: bool)
    requires Sane(s) && q < |s.queues| && Usable(s.queues[q])
    ensures Sane(Extract(s, q, reserved))
  {
    WakesOnlySane(s, Extract(s, q, reserved));
  }

  lemma SetBitsSane(s: State, g: nat, bits: bv32)
    requires Sane(s) && g < |s.groups|
    ensures Sane(SetBits(s, g, bits).0)
  {
    WakesOnlySane(s, SetBits(s, g, bits).0);
  }

  lemma NotifySane(s: State, id: nat, value: Word)
    requires Sane(s)
    ensures Sane(Notify(s, id, value).0)
  {
    if id < |s.tasks| {
      assert TaskOk(s, id, s.tasks[id]);
      UpdateSane(s, id, Notify(s, id, value).0.tasks[id]);
    }
  }

  /** Blocking the running task in a call whose wait object and kind match it. */
  lemma BlockSane(s: State, obj: Object, kind: WaitKind, d: Deadline, call: Call)
    requires Sane(s) && Executing(s) && Current(s).call.NoCall? && CallInRange(s, call)
    requires !call.NoCall? ==> s.cur < s.apps
    requires s.cur <= s.apps
    requires WaitMatches(s, s.cur, WaitBegin(Current(s), obj, kind, d, call))
    ensures Sane(Block(s, obj, kind, d, call))
  {
    var s' := Block(s, obj, kind, d, call);
    assert forall i | 0 <= i < |s.tasks| :: TaskOk(s', i, s'.tasks[i]);
  }

  lemma InheritSane(s: State, id: nat, p: int)
    requires Sane(s)
    ensures Sane(s.(tasks := InheritPriority(s.tasks, s.mutexes, id, p)))
  {
    WakesOnlySane(s, s.(tasks := InheritPriority(s.tasks, s.mutexes, id, p)));
  }

  lemma LockSane(s: State, m: nat, entered: nat, timeout: Word)
    requires Sane(s) && AppContext(s) && m < |s.mutexes|
    ensures Sane(Lock(s, m, entered, timeout).0)
  {
    var x := s.mutexes[m];
    if x.locked && x.owner != s.cur && timeout != 0 {
      InheritSane(s, x.owner, Current(s).priority);
      var boosted := s.(tasks := InheritPriority(s.tasks, s.mutexes, x.owner, Current(s).priority));
      assert Rest(boosted.tasks[s.cur]) == Rest(Current(s));
      BlockSane(boosted, MutexRef(m), MutexWait, MakeDeadline(Wrap(entered), timeout), LockCall(m));
    } else {
      var s' := Lock(s, m, entered, timeout).0;
      assert MutexLinks(s'.mutexes) == MutexLinks(s.mutexes);
      WakesOnlySane(s, s');
    }
  }

  lemma UnlockSane(s: State, m: nat)
    requires Sane(s) && AppContext(s) && m < |s.mutexes|
    ensures Sane(Unlock(s, m).0)
  {
    var s' := Unlock(s, m).0;
    assert MutexLinks(s'.mutexes) == MutexLinks(s.mutexes);
    forall i | 0 <= i < |s.tasks|
      ensures Rest(s'.tasks[i]) == Rest(s.tasks[i])
              || (s.tasks[i].state.Blocked? && Rest(s'.tasks[i]) == Rest(WaitEnd(s.tasks[i], true)))
    {
      WakeIsWakesOnly(s.tasks, MutexRef(m), MutexWait, i);
    }
    WakesOnlySane(s, s');
  }

  lemma TakeSane(s: State, x: nat, entered: nat, timeout: Word)
    requires Sane(s) && AppContext(s) && x < |s.semaphores|
    ensures Sane(Take(s, x, entered, timeout).0)
  {
    if s.semaphores[x] {
      WakesOnlySane(s, Take(s, x, entered, timeout).0);
    } else {
      BlockSane(s, SemaphoreRef(x), SemaphoreWait, MakeDeadline(Wrap(entered), timeout), TakeCall(x));
    }
  }

  lemma SendPassSane(s: State, q: nat, item: seq<Byte>, timeout: Word, d: Deadline, reserved: bool)
    requires Sane(s) && AppContext(s) && q < |s.queues| && |item| == s.queues[q].itemSize
    ensures Sane(SendPass(s, q, item, timeout, d, reserved).0)
  {
    if Usable(s.queues[q]) && (reserved || HasRoom(s.queues[q])) {
      DeliverSane(s, q, item, reserved);
    } else {
      BlockSane(s, QueueRef(q), SendWait, d, SendCall(q, item, timeout, d));
    }
  }

  lemma ReceivePassSane(s: State, q: nat, timeout: Word, d: Deadline, reserved: bool)
    requires Sane(s) && AppContext(s) && q < |s.queues|
    ensures Sane(ReceivePass(s, q, timeout, d, reserved).0)
  {
    if Usable(s.queues[q]) && (reserved || HasItem(s.queues[q])) {
      ExtractSane(s, q, reserved);
    } else {
      BlockSane(s, QueueRef(q), ReceiveWait, d, ReceiveCall(q, timeout, d));
    }
  }

  lemma SendFromIsrSane(s: State, q: nat, item: seq<Byte>)
    requires Sane(s) && q < |s.queues| && |item| == s.queues[q].itemSize
    ensures Sane(SendFromIsr(s, q, item).0)
  {
    if HasRoom(s.queues[q]) {
      DeliverSane(s, q, item, false);
    }
  }

  lemma WaitBitsSane(s: State, g: nat, bits: bv32, all: bool, clear: bool, timeout: Word)
    requires Sane(s) && AppContext(s) && g < |s.groups|
    ensures Sane(WaitBits(s, g, bits, all, clear, timeout).0)
  {
    var s' := WaitBits(s, g, bits, all, clear, timeout).0;
    assert forall i | 0 <= i < |s.tasks| :: TaskOk(s', i, s'.tasks[i]);
  }

  lemma TakeNotificationSane(s: State, timeout: Word)
    requires Sane(s) && AppContext(s)
    ensures Sane(TakeNotification(s, timeout).0)
  {
    var s' := TakeNotification(s, timeout).0;
    assert forall i | 0 <= i < |s.tasks| :: TaskOk(s', i, s'.tasks[i]);
  }

  /** The running task's call frame is popped. */
  function Returned(s: State): State
    requires s.cur < |s.tasks|
  {
    SetCurrent(s, Current(s).(call := NoCall))
  }

  lemma ReturnedSane(s: State)
    requires Sane(s) && Executing(s)
    ensures Sane(Returned(s))
  {
    var s' := Returned(s);
    assert forall i | 0 <= i < |s.tasks| :: TaskOk(s', i, s'.tasks[i]);
  }

  lemma ContinueSane(s: State)
    requires Sane(s) && Executing(s) && !Current(s).call.NoCall?
    ensures Sane(Continue(s).0)
  {
    hide TasksOk, Continue;
    if Current(s).call.SendCall? || Current(s).call.ReceiveCall? {
      QueueReturnSane(s);
    } else {
      OwnReturnSane(s);
    }
  }

  lemma QueueReturnSane(s: State)
    requires Sane(s) && Executing(s) && (Current(s).call.SendCall? || Current(s).call.ReceiveCall?)
    ensures Sane(Continue(s).0)
  {
    hide SendPass, ReceivePass;
    var c := Current(s).call;
    ReturnedSane(s);
    if c.SendCall? {
      SendPassSane(Returned(s), c.queue, c.item, c.timeout, c.deadline, true);
    } else {
      ReceivePassSane(Returned(s), c.queue, c.timeout, c.deadline, true);
    }
  }

  lemma OwnReturnSane(s: State)
    requires Sane(s) && Executing(s) && !Current(s).call.NoCall?
    requires !Current(s).call.SendCall? && !Current(s).call.ReceiveCall?
    ensures Sane(Continue(s).0)
  {
    hide EventCondition, WithoutBits, CommonBits;
    ReturnedSane(s);
    if Current(s).call.WaitBitsCall? {
      WakesOnlySane(Returned(s), Continue(s).0);
    } else if Current(s).call.NotifyCall? {
      var s' := Continue(s).0;
      assert forall i | 0 <= i < |s.tasks| :: TaskOk(s', i, s'.tasks[i]);
    }
  }

  /** One task entry changes to another one that is in order. */
  lemma UpdateSane(s: State, i: nat, t: Task)
    requires Sane(s) && i < |s.tasks| && TaskOk(s, i, t)
    ensures Sane(s.(tasks := s.tasks[i := t]))
  {
    var s' := s.(tasks := s.tasks[i := t]);
    forall k | 0 <= k < |s.tasks| ensures TaskOk(s', k, s'.tasks[k]) {
      assert TaskOk(s, k, if k == i then t else s.tasks[k]);
      TaskOkFrame(s, s', k, s'.tasks[k]);
    }
  }

  lemma DelaySane(s: State, delay: Word)
    requires Sane(s) && AppContext(s)
    ensures Sane(Delay(s, delay))
  {
    assert TaskOk(s, s.cur, Current(s));
    UpdateSane(s, s.cur, Delay(s, delay).tasks[s.cur]);
  }

  lemma SuspendSane(s: State, task: Word)
    requires Sane(s) && AppContext(s)
    ensures Sane(Suspend(s, task).0)
  {
    var id := if task == TASK_ID_SELF then s.cur else task;
    if id < s.apps {
      assert TaskOk(s, id, s.tasks[id]);
      UpdateSane(s, id, Suspend(s, task).0.tasks[id]);
    }
  }

  lemma ResumeSane(s: State, task: Word)
    requires Sane(s) && AppContext(s)
    ensures Sane(Resume(s, task).0)
  {
    if task < s.apps {
      assert TaskOk(s, task, s.tasks[task]);
      UpdateSane(s, task, Resume(s, task).0.tasks[task]);
    }
  }

  lemma LinkTimerSane(s: State, t: nat, x: Timer)
    requires Sane(s) && t < |s.timers|
    ensures Sane(LinkTimer(s, t, x))
  {
    LinkTimerLinks(s, t, x);
    WakesOnlySane(s, LinkTimer(s, t, x));
  }

  /** A timer record changes, but not its link; perhaps the service is woken. */
  lemma TimerUpdateSane(s: State, t: nat, x: Timer, ts: seq<Task>)
    requires Sane(s) && t < |s.timers| && x.next == s.timers[t].next
    requires ts == s.tasks || ts == WakeService(s.tasks, s.Service())
    ensures Sane(s.(timers := s.timers[t := x], tasks := ts))
  {
    var s' := s.(timers := s.timers[t := x], tasks := ts);
    assert TimerLinks(s'.timers) == TimerLinks(s.timers);
    WakesOnlySane(s, s');
  }

  lemma StartTimerSane(s: State, t: nat, delay: Word)
    requires Sane(s) && t < |s.timers|
    ensures Sane(StartTimer(s, t, delay))
  {
    LinkTimerSane(s, t, s.timers[t].(deadline := Wrap(s.Now() + delay), period := 0, reload := delay,
                  periodic := false, active := true));
  }

  lemma StartPeriodicSane(s: State, t: nat, period: Word)
    requires Sane(s) && t < |s.timers|
    ensures Sane(StartPeriodic(s, t, period))
  {
    if period != 0 {
      LinkTimerSane(s, t, s.timers[t].(deadline := Wrap(s.Now() + period), period := period, reload := period,
                    periodic := true, active := true));
    }
  }

  lemma RestartTimerSane(s: State, t: nat)
    requires Sane(s) && t < |s.timers|
    ensures Sane(RestartTimer(s, t))
  {
    if s.timers[t].reload != 0 {
      LinkTimerSane(s, t, s.timers[t].(deadline := Wrap(s.Now() + s.timers[t].reload), active := true));
    }
  }

  lemma StopTimerSane(s: State, t: nat)
    requires Sane(s) && t < |s.timers|
    ensures Sane(StopTimer(s, t))
  {
    TimerUpdateSane(s, t, s.timers[t].(active := false), s.tasks);
  }

  lemma SetCallbackSane(s: State, t: nat, callback: nat, argument: nat)
    requires Sane(s) && t < |s.timers|
    ensures Sane(SetCallback(s, t, callback, argument))
  {
    var x := s.timers[t].(callback := callback, argument := argument);
    TimerUpdateSane(s, t, x, SetCallback(s, t, callback, argument).tasks);
  }

  lemma TakeExpirationsSane(s: State, t: nat)
    requires Sane(s) && t < |s.timers|
    ensures Sane(TakeExpirations(s, t).0)
  {
    TimerUpdateSane(s, t, s.timers[t].(expirations := 0), s.tasks);
  }

  lemma ServiceClaimSane(s: State)
    requires Sane(s) && Executing(s) && s.cur == s.Service()
    ensures Sane(ServiceClaim(s).0)
  {
    var s' := ServiceClaim(s).0;
    var i := FirstClaim(s.timers, TimerOrder(s));
    if i >= 0 {
      TimerUpdateSane(s, i, s'.timers[i], s'.tasks);
    } else {
      BlockSane(s, ServiceRef, ServiceWait, MakeDeadline(s.Now(), WAIT_FOREVER), NoCall);
    }
  }

  lemma TimerTickSane(s: State)
    requires Sane(s)
    ensures Sane(TimerTick(s))
  {
    assert TimerLinks(TimerTick(s).timers) == TimerLinks(s.timers);
    WakesOnlySane(s, TimerTick(s));
  }

  lemma TickOneOk(s: State, i: nat, t: Task, now: Word)
    requires TaskOk(s, i, t)
    ensures TaskOk(s, i, TickOne(t, now))
  {}

  lemma TickTaskOk(s: State, i: nat)
    requires Sane(s) && i < |s.tasks|
    ensures TaskOk(s, i, TickTasks(s.tasks, s.mutexes, s.Now(), 0)[i])
  {
    var r := TickTasks(s.tasks, s.mutexes, s.Now(), 0);
    TickTasksAt(s.tasks, s.mutexes, s.Now(), 0, i);
    TickOneOk(s, i, s.tasks[i], s.Now());
    TaskOkRest(s, i, TickOne(s.tasks[i], s.Now()), r[i]);
  }

  lemma TasksTickSane(s: State)
    requires Sane(s)
    ensures Sane(s.(tasks := TickTasks(s.tasks, s.mutexes, s.Now(), 0)))
  {
    var s' := s.(tasks := TickTasks(s.tasks, s.mutexes, s.Now(), 0));
    forall i | 0 <= i < |s.tasks| ensures TaskOk(s', i, s'.tasks[i]) {
      TickTaskOk(s, i);
      TaskOkFrame(s, s', i, s'.tasks[i]);
    }
  }

  lemma TickSane(s: State)
    requires Sane(s)
    ensures Sane(Tick(s))
  {
    hide TimerTick, TickTasks, TasksOk;
    var s0 := s.(ticks := s.ticks + 1);
    WakesOnlySane(s, s0);
    TimerTickSane(s0);
    TasksTickSane(TimerTick(s0));
  }

  /** After preemption idle is READY, so there always is a task to elect. */
  lemma SwitchElects(s: State)
    requires Sane(s) && forall i | 0 <= i < |s.tasks| :: s.tasks[i].priority >= 0
    ensures Scheduler.Elected(Preempt(s.tasks, s.cur), s.cur, Switch(s).cur)
  {
    assert TaskOk(s, s.Idle(), s.tasks[s.Idle()]);
    Scheduler.SelectElects(Preempt(s.tasks, s.cur), s.cur, s.Idle());
  }

  lemma SwitchTaskOk(s: State, s': State, next: nat, i: nat)
    requires Sane(s) && i < |s.tasks| && next < |s.tasks|
    requires Preempt(s.tasks, s.cur)[next].state.Ready?
    requires s' == s.(cur := next, tasks := s'.tasks) && |s'.tasks| == |s.tasks|
    requires s'.tasks[i] == if i == next then Preempt(s.tasks, s.cur)[i].(state := Running)
             else Preempt(s.tasks, s.cur)[i]
    ensures TaskOk(s', i, s'.tasks[i])
  {
    assert TaskOk(s, i, s.tasks[i]);
    hide Sane;
  }

  lemma SwitchSane(s: State)
    requires Sane(s) && forall i | 0 <= i < |s.tasks| :: s.tasks[i].priority >= 0
    ensures Sane(Switch(s))
  {
    SwitchElects(s);
    var s' := Switch(s);
    forall i | 0 <= i < |s.tasks| ensures TaskOk(s', i, s'.tasks[i]) {
      SwitchTaskOk(s, s', s'.cur, i);
    }
  }

  /** The calls that change timers. */
  lemma TimerCallSane(s: State, step: Step)
    requires Sane(s) && Legal(s, step) && IsTimerCall(step)
    ensures Sane(Next(s, step).0)
  {
    hide Sane, StartTimer, StartPeriodic, RestartTimer, StopTimer, SetCallback, TakeExpirations, ServiceClaim;
    if step.StartTimerStep? {
      StartTimerSane(s, step.t, step.delay);
    } else if step.StartPeriodicStep? {
      StartPeriodicSane(s, step.t, step.period);
    } else if step.RestartTimerStep? {
      RestartTimerSane(s, step.t);
    } else if step.StopTimerStep? {
      StopTimerSane(s, step.t);
    } else if step.SetCallbackStep? {
      SetCallbackSane(s, step.t, step.callback, step.argument);
    } else if step.TakeExpirationsStep? {
      TakeExpirationsSane(s, step.t);
    } else if step.DispatchStep? {
      TakeExpirationsSane(s, step.t);
    } else {
      ServiceClaimSane(s);
    }
  }

  predicate Starts(step: Step) {
    || step.CreateMutexStep? || step.CreateSemaphoreStep? || step.CreateQueueStep? || step.CreateGroupStep?
    || step.CreateTimerStep? || step.StartStep?
  }

  predicate IsCall(step: Step) {
    || step.LockStep? || step.UnlockStep? || step.TakeStep? || step.SendStep? || step.ReceiveStep? || step.WaitBitsStep?
    || step.TakeNotificationStep? || step.DelayStep? || step.SuspendStep? || step.ResumeStep?
  }

  /** The running task's own calls. */
  lemma CallSane(s: State, step: Step)
    requires Sane(s) && Legal(s, step) && IsCall(step)
    ensures Sane(Next(s, step).0)
  {
    hide Sane, Lock, Unlock, Take, SendPass, ReceivePass, WaitBits, TakeNotification, Delay, Suspend, Resume;
    if step.LockStep? {
      LockSane(s, step.m, step.entered, step.timeout);
    } else if step.UnlockStep? {
      UnlockSane(s, step.m);
    } else if step.TakeStep? {
      TakeSane(s, step.x, step.entered, step.timeout);
    } else if step.SendStep? {
      SendPassSane(s, step.q, step.item, step.timeout, MakeDeadline(Wrap(step.entered), step.timeout), false);
    } else if step.ReceiveStep? {
      ReceivePassSane(s, step.q, step.timeout, MakeDeadline(Wrap(step.entered), step.timeout), false);
    } else if step.WaitBitsStep? {
      WaitBitsSane(s, step.g, step.bits, step.all, step.clear, step.timeout);
    } else if step.TakeNotificationStep? {
      TakeNotificationSane(s, step.timeout);
    } else if step.DelayStep? {
      DelaySane(s, step.delay);
    } else if step.SuspendStep? {
      SuspendSane(s, step.task);
    } else {
      ResumeSane(s, step.task);
    }
  }

  /** Tick, context switch, signals, and the return from a call. */
  lemma ExceptionSane(s: State, step: Step)
    requires Sane(s) && Legal(s, step) && forall i | 0 <= i < |s.tasks| :: s.tasks[i].priority >= 0
    requires !IsTimerCall(step) && !Starts(step) && !IsCall(step)
    ensures Sane(Next(s, step).0)
  {
    hide Sane, Tick, Switch, Give, SendFromIsr, SetBits, Notify, Continue;
    if step.TickStep? {
      TickSane(s);
    } else if step.SwitchStep? {
      SwitchSane(s);
    } else if step.GiveStep? {
      GiveSane(s, step.x);
    } else if step.SendFromIsrStep? {
      SendFromIsrSane(s, step.q, step.item);
    } else if step.SetBitsStep? {
      SetBitsSane(s, step.g, step.bits);
    } else if step.NotifyStep? {
      NotifySane(s, step.id, step.value);
    } else {
      ContinueSane(s);
    }
  }

  /** Every step keeps the task table coherent. */
  lemma StepSane(s: State, step: Step)
    requires Sane(s) && Legal(s, step) && forall i | 0 <= i < |s.tasks| :: s.tasks[i].priority >= 0
    ensures Sane(Next(s, step).0)
  {
    hide Sane, Next;
    if IsTimerCall(step) {
      TimerCallSane(s, step);
    } else if Starts(step) {
      CreateSane(s, step);
    } else if IsCall(step) {
      CallSane(s, step);
    } else {
      ExceptionSane(s, step);
    }
  }

  lemma TimerTickAt(s: State, i: nat)
    requires Wf(s) && i < |s.tasks|
    ensures
      var t, t' := s.tasks[i], TimerTick(s).tasks[i];
      t' == t || (i == s.Service() && ServiceBlocked(t) && t' == WaitEnd(t, true))
  {}

  ghost predicate TickEffect(s: State, i: nat, t: Task, t': Task, now: Word) {
    || Rest(t') == Rest(TickOne(t, now))
    || (i == s.Service() && ServiceBlocked(t) && Rest(t') == Rest(WaitEnd(t, true)))
  }

  lemma TickCompose(s: State, i: nat, t: Task, t1: Task, t': Task, now: Word)
    requires t1 == t || (i == s.Service() && ServiceBlocked(t) && t1 == WaitEnd(t, true))
    requires Rest(t') == Rest(TickOne(t1, now))
    ensures TickEffect(s, i, t, t', now)
  {}

  lemma TickTasksOfTick(s: State, s1: State, i: nat)
    requires Wf(s) && s1 == TimerTick(s.(ticks := s.ticks + 1)) && i < |s.tasks|
    ensures Rest(Tick(s).tasks[i]) == Rest(TickOne(s1.tasks[i], Wrap(s.ticks + 1)))
  {
    hide TickTasks, TickOne, TimerTick;
    TickTasksAt(s1.tasks, s1.mutexes, s1.Now(), 0, i);
  }

  /** What a tick does to one task: sleep countdown or timeout, except that it may wake the timer service. */
  lemma TickAt(s: State, i: nat)
    requires Wf(s) && i < |s.tasks|
    ensures TickEffect(s, i, s.tasks[i], Tick(s).tasks[i], Wrap(s.ticks + 1))
  {
    hide TickTasks, TickOne, TimerTick, TickEffect, Tick;
    var s1 := TimerTick(s.(ticks := s.ticks + 1));
    TimerTickAt(s.(ticks := s.ticks + 1), i);
    TickTasksOfTick(s, s1, i);
    TickCompose(s, i, s.tasks[i], s1.tasks[i], Tick(s).tasks[i], Wrap(s.ticks + 1));
  }
}
