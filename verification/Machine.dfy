/** The kernel as a state machine: one step is one critical section of the source, executed by the
    running task, by an interrupt handler, by the tick or by the context switch. */
module Machine {
  import opened Types
  import opened TaskTable
  import opened Graph
  import IntrusiveList

  /** ticks counts every tick since the start; g_kernel_ticks is its low word.
      tasks holds apps application tasks, then the timer service, then idle. */
  datatype State = State(
    ticks: nat,
    cur: nat,
    apps: nat,
    started: bool,
    tasks: seq<Task>,
    mutexes: seq<Mutex>,
    mutexList: int,
    semaphores: seq<bool>,
    queues: seq<Queue>,
    groups: seq<bv32>,
    timers: seq<Timer>,
    timerList: int)
  {
    function Now(): Word { Wrap(ticks) }
    function Service(): nat { apps }
    function Idle(): nat { apps + 1 }
  }

  function MutexLinks(ms: seq<Mutex>): (r: seq<int>)
    ensures |r| == |ms| && forall i | 0 <= i < |ms| :: r[i] == ms[i].next
  {
    seq(|ms|, i requires 0 <= i < |ms| => ms[i].next)
  }

  function TimerLinks(ts: seq<Timer>): (r: seq<int>)
    ensures |r| == |ts| && forall i | 0 <= i < |ts| :: r[i] == ts[i].next
  {
    seq(|ts|, i requires 0 <= i < |ts| => ts[i].next)
  }

  predicate Usable(q: Queue) {
    q.capacity > 0 && q.itemSize > 0
  }

  /** The ring fits its storage and its cursors are inside. */
  predicate QueueShape(q: Queue) {
    && |q.storage| == q.capacity * q.itemSize
    && (q.capacity > 0 ==> q.head < q.capacity && q.tail < q.capacity)
  }

  predicate CallInRange(s: State, c: Call) {
    match c
    case NoCall => true
    case LockCall(m) => m < |s.mutexes|
    case TakeCall(x) => x < |s.semaphores|
    case SendCall(q, item, _, _) => q < |s.queues| && |item| == s.queues[q].itemSize
    case ReceiveCall(q, _, _) => q < |s.queues|
    case WaitBitsCall(g, _) => g < |s.groups|
    case NotifyCall => true
  }

  predicate ListsValid(s: State) {
    && Valid(MutexLinks(s.mutexes)) && ValidNode(MutexLinks(s.mutexes), s.mutexList)
    && Valid(TimerLinks(s.timers)) && ValidNode(TimerLinks(s.timers), s.timerList)
  }

  /** Every index and pointer of the state stays inside its array. */
  ghost predicate Wf(s: State) {
    && 1 <= s.apps && |s.tasks| == s.apps + 2 && s.cur < |s.tasks|
    && |s.tasks| < NO_OWNER
    && ListsValid(s)
    && (forall q | 0 <= q < |s.queues| :: QueueShape(s.queues[q]))
    && (forall i | 0 <= i < |s.tasks| :: CallInRange(s, s.tasks[i].call))
  }

  // ---- what a step leaves alone ----

  predicate OnlyTasks(s: State, s': State) {
    s' == s.(tasks := s'.tasks) && |s'.tasks| == |s.tasks|
  }

  predicate OnlyMutexes(s: State, s': State) {
    s' == s.(tasks := s'.tasks, mutexes := s'.mutexes, mutexList := s'.mutexList) && |s'.tasks| == |s.tasks|
  }

  predicate OnlySemaphores(s: State, s': State) {
    s' == s.(tasks := s'.tasks, semaphores := s'.semaphores) && |s'.tasks| == |s.tasks|
  }

  predicate OnlyQueues(s: State, s': State) {
    s' == s.(tasks := s'.tasks, queues := s'.queues) && |s'.tasks| == |s.tasks|
  }

  predicate OnlyGroups(s: State, s': State) {
    s' == s.(tasks := s'.tasks, groups := s'.groups) && |s'.tasks| == |s.tasks|
  }

  predicate OnlyTimers(s: State, s': State) {
    s' == s.(tasks := s'.tasks, timers := s'.timers, timerList := s'.timerList) && |s'.tasks| == |s.tasks|
  }

  // ---- blocking ----

  function Current(s: State): Task
    requires s.cur < |s.tasks|
  {
    s.tasks[s.cur]
  }

  function SetCurrent(s: State, t: Task): (r: State)
    requires s.cur < |s.tasks|
    ensures OnlyTasks(s, r)
  {
    s.(tasks := s.tasks[s.cur := t])
  }

  function Block(s: State, obj: Object, kind: WaitKind, d: Deadline, call: Call): (r: State)
    requires s.cur < |s.tasks|
    ensures OnlyTasks(s, r)
  {
    SetCurrent(s, WaitBegin(Current(s), obj, kind, d, call))
  }

  /** Block unless the deadline, taken at API entry, has already passed. */
  function BlockUntil(s: State, obj: Object, kind: WaitKind, d: Deadline, call: Call): (r: (State, Outcome))
    requires s.cur < |s.tasks|
    ensures OnlyTasks(s, r.0)
  {
    if Expired(s.Now(), d) then (s, Status(false)) else (Block(s, obj, kind, d, call), Pending)
  }

  // ---- mutexes ----

  function CreateMutex(s: State, m: nat): (r: State)
    requires Wf(s) && m < |s.mutexes|
    ensures OnlyMutexes(s, r)
  {
    var (links, head) := IntrusiveList.Link(MutexLinks(s.mutexes), s.mutexList, m);
    var linked := m in IntrusiveList.Order(MutexLinks(s.mutexes), s.mutexList);
    var next := if linked then s.mutexes[m].next else s.mutexList;
    s.(mutexes := s.mutexes[m := Mutex(false, NO_OWNER, 0, next)], mutexList := head)
  }

  function Lock(s: State, m: nat, entered: nat, timeout: Word): (r: (State, Outcome))
    requires Wf(s) && m < |s.mutexes|
    ensures OnlyMutexes(s, r.0)
  {
    var x := s.mutexes[m];
    if !x.locked then
      (s.(mutexes := s.mutexes[m := x.(locked := true, owner := s.cur, recursion := 1)]), Status(true))
    else if x.owner == s.cur then
      (s.(mutexes := s.mutexes[m := x.(recursion := Wrap(x.recursion + 1))]), Status(true))
    else if timeout == 0 then (s, Status(false))
    else
      var boosted := s.(tasks := InheritPriority(s.tasks, s.mutexes, x.owner, Current(s).priority));
      BlockUntil(boosted, MutexRef(m), MutexWait, MakeDeadline(Wrap(entered), timeout), LockCall(m))
  }

  /** The released mutex goes to the task to, or to nobody (-1). */
  function Released(x: Mutex, to: int): Mutex
    requires -1 <= to < NO_OWNER
  {
    if to >= 0 then x.(owner := to, locked := true, recursion := 1)
    else x.(owner := NO_OWNER, locked := false, recursion := 0)
  }

  function Unlock(s: State, m: nat): (r: (State, Outcome))
    requires Wf(s) && m < |s.mutexes|
    ensures OnlyMutexes(s, r.0)
  {
    var x := s.mutexes[m];
    if !x.locked || x.owner != s.cur then (s, Status(false))
    else if x.recursion > 1 then
      (s.(mutexes := s.mutexes[m := x.(recursion := x.recursion - 1)]), Status(true))
    else
      var (ts, to) := Wake(s.tasks, MutexRef(m), MutexWait);
      var ms := s.mutexes[m := Released(x, to)];
      var ts1 := RestorePriority(ts, ms, s.cur);
      var ts2 := if to >= 0 then RestorePriority(ts1, ms, to) else ts1;
      (s.(tasks := ts2, mutexes := ms), Status(true))
  }

  // ---- semaphores ----

  function Take(s: State, x: nat, entered: nat, timeout: Word): (r: (State, Outcome))
    requires Wf(s) && x < |s.semaphores|
    ensures OnlySemaphores(s, r.0)
  {
    if s.semaphores[x] then (s.(semaphores := s.semaphores[x := false]), Status(true))
    else if timeout == 0 then (s, Status(false))
    else BlockUntil(s, SemaphoreRef(x), SemaphoreWait, MakeDeadline(Wrap(entered), timeout), TakeCall(x))
  }

  function Give(s: State, x: nat): (r: State)
    requires Wf(s) && x < |s.semaphores|
    ensures OnlySemaphores(s, r)
  {
    var (ts, to) := Wake(s.tasks, SemaphoreRef(x), SemaphoreWait);
    if to >= 0 then s.(tasks := ts) else s.(semaphores := s.semaphores[x := true])
  }

  // ---- queues ----

  /** The bytes of ring slot i. */
  function Slot(q: Queue, i: nat): (r: seq<Byte>)
    requires QueueShape(q) && i < q.capacity
    ensures |r| == q.itemSize
  {
    SlotBounds(q, i);
    q.storage[i * q.itemSize .. (i + 1) * q.itemSize]
  }

  lemma SlotBounds(q: Queue, i: nat)
    requires QueueShape(q) && i < q.capacity
    ensures 0 <= i * q.itemSize <= (i + 1) * q.itemSize <= |q.storage|
    ensures (i + 1) * q.itemSize - i * q.itemSize == q.itemSize
  {
    assert (i + 1) * q.itemSize <= q.capacity * q.itemSize;
  }

  /** Copy the item into the slot at head and advance head. */
  function Put(q: Queue, item: seq<Byte>): (r: Queue)
    requires QueueShape(q) && Usable(q) && |item| == q.itemSize
    ensures QueueShape(r) && r.itemSize == q.itemSize && r.capacity == q.capacity
  {
    SlotBounds(q, q.head);
    q.(storage := q.storage[..q.head * q.itemSize] + item + q.storage[(q.head + 1) * q.itemSize..],
    head := Wrap(q.head + 1) % q.capacity, count := Wrap(q.count + 1))
  }

  /** Advance tail past the oldest item. */
  function Drop(q: Queue): (r: Queue)
    requires QueueShape(q) && Usable(q)
    ensures QueueShape(r) && r.itemSize == q.itemSize && r.capacity == q.capacity
  {
    q.(tail := Wrap(q.tail + 1) % q.capacity, count := Wrap(q.count - 1))
  }

  function ReserveSlot(q: Queue, d: int): Queue {
    q.(sendReservations := Wrap(q.sendReservations + d))
  }

  function ReserveItem(q: Queue, d: int): Queue {
    q.(receiveReservations := Wrap(q.receiveReservations + d))
  }

  predicate HasRoom(q: Queue) {
    Usable(q) && Wrap(q.count + q.sendReservations) < q.capacity
  }

  predicate HasItem(q: Queue) {
    Usable(q) && q.count > q.receiveReservations
  }

  /** The item goes in; if a receiver waits, it is woken with a reservation for an item. */
  function Deliver(s: State, q: nat, item: seq<Byte>, reserved: bool): (r: State)
    requires Wf(s) && q < |s.queues| && Usable(s.queues[q]) && |item| == s.queues[q].itemSize
    ensures OnlyQueues(s, r)
  {
    var u := if reserved then ReserveSlot(s.queues[q], -1) else s.queues[q];
    var (ts, to) := Wake(s.tasks, QueueRef(q), ReceiveWait);
    var v := if to >= 0 then ReserveItem(Put(u, item), 1) else Put(u, item);
    s.(tasks := ts, queues := s.queues[q := v])
  }

  /** The oldest item comes out; if a sender waits, it is woken with a reservation for a slot. */
  function Extract(s: State, q: nat, reserved: bool): (r: State)
    requires Wf(s) && q < |s.queues| && Usable(s.queues[q])
    ensures OnlyQueues(s, r)
  {
    var u := if reserved then ReserveItem(s.queues[q], -1) else s.queues[q];
    var (ts, to) := Wake(s.tasks, QueueRef(q), SendWait);
    var v := if to >= 0 then ReserveSlot(Drop(u), 1) else Drop(u);
    s.(tasks := ts, queues := s.queues[q := v])
  }

  /** One pass of the send loop. */
  function SendPass(s: State, q: nat, item: seq<Byte>, timeout: Word, d: Deadline, reserved: bool)
    : (r: (State, Outcome))
    requires Wf(s) && q < |s.queues| && |item| == s.queues[q].itemSize
    ensures OnlyQueues(s, r.0)
  {
    if Usable(s.queues[q]) && (reserved || HasRoom(s.queues[q])) then
      (Deliver(s, q, item, reserved), Status(true))
    else if timeout == 0 then (s, Status(false))
    else BlockUntil(s, QueueRef(q), SendWait, d, SendCall(q, item, timeout, d))
  }

  /** One pass of the receive loop. */
  function ReceivePass(s: State, q: nat, timeout: Word, d: Deadline, reserved: bool): (r: (State, Outcome))
    requires Wf(s) && q < |s.queues|
    ensures OnlyQueues(s, r.0)
  {
    var u := s.queues[q];
    if Usable(u) && (reserved || HasItem(u)) then
      (Extract(s, q, reserved), Item(Slot(u, u.tail)))
    else if timeout == 0 then (s, Status(false))
    else BlockUntil(s, QueueRef(q), ReceiveWait, d, ReceiveCall(q, timeout, d))
  }

  function SendFromIsr(s: State, q: nat, item: seq<Byte>): (r: (State, Outcome))
    requires Wf(s) && q < |s.queues| && |item| == s.queues[q].itemSize
    ensures OnlyQueues(s, r.0)
  {
    if HasRoom(s.queues[q]) then (Deliver(s, q, item, false), Status(true)) else (s, Status(false))
  }

  // ---- event groups ----

  predicate EventCondition(bits: bv32, requested: bv32, all: bool) {
    if all then bits & requested == requested else bits & requested != 0
  }

  function WithBits(b: bv32, bits: bv32): bv32 {
    b | bits
  }

  function WithoutBits(b: bv32, bits: bv32): bv32 {
    b & !bits
  }

  function CommonBits(b: bv32, bits: bv32): bv32 {
    b & bits
  }

  predicate EventReady(t: Task, g: nat, bits: bv32) {
    Waiting(t, GroupRef(g), EventWait) && EventCondition(bits, t.eventBits, t.eventAll)
  }

  function WakeEvents(ts: seq<Task>, g: nat, bits: bv32): (r: seq<Task>)
    ensures |r| == |ts|
    ensures forall i | 0 <= i < |ts| :: r[i] == if EventReady(ts[i], g, bits) then WaitEnd(ts[i], true) else ts[i]
  {
    seq(|ts|, i requires 0 <= i < |ts| => if EventReady(ts[i], g, bits) then WaitEnd(ts[i], true) else ts[i])
  }

  function SetBits(s: State, g: nat, bits: bv32): (r: (State, Outcome))
    requires Wf(s) && g < |s.groups|
    ensures OnlyGroups(s, r.0)
  {
    var b := WithBits(s.groups[g], bits);
    (s.(groups := s.groups[g := b], tasks := WakeEvents(s.tasks, g, b)), Bits(b))
  }

  function WaitBits(s: State, g: nat, bits: bv32, all: bool, clear: bool, timeout: Word): (r: (State, Outcome))
    requires Wf(s) && g < |s.groups|
    ensures OnlyGroups(s, r.0)
  {
    var b := s.groups[g];
    if bits == 0 then (s, Bits(0))
    else if EventCondition(b, bits, all) then
      (if clear then s.(groups := s.groups[g := WithoutBits(b, bits)]) else s, Bits(CommonBits(b, bits)))
    else if timeout == 0 then (s, Bits(0))
    else
      var armed := SetCurrent(s, Current(s).(eventBits := bits, eventAll := all, eventClear := clear));
      (Block(armed, GroupRef(g), EventWait, MakeDeadline(s.Now(), timeout), WaitBitsCall(g, bits)), Pending)
  }

  // ---- notifications ----

  function Notify(s: State, id: nat, value: Word): (r: (State, Outcome))
    requires Wf(s)
    ensures OnlyTasks(s, r.0)
  {
    if id >= |s.tasks| then (s, Status(false))
    else
      var t := s.tasks[id];
      var t1 := t.(notification := Wrap(t.notification + value));
      var t2 := if t.state.Blocked? && t.waitKind.NotificationWait? then WaitEnd(t1, true) else t1;
      (s.(tasks := s.tasks[id := t2]), Status(true))
  }

  function TakeNotification(s: State, timeout: Word): (r: (State, Outcome))
    requires Wf(s)
    ensures OnlyTasks(s, r.0)
  {
    var v := Current(s).notification;
    if v != 0 then (SetCurrent(s, Current(s).(notification := 0)), Value(v))
    else if timeout == 0 then (s, Status(false))
    else (Block(s, TaskRef(s.cur), NotificationWait, MakeDeadline(s.Now(), timeout), NotifyCall), Pending)
  }

  // ---- the second half of a blocking call, after the context switch back ----

  function Continue(s: State): (r: (State, Outcome))
    requires Wf(s)
    ensures match Current(s).call
            case SendCall(_, _, _, _) => OnlyQueues(s, r.0)
            case ReceiveCall(_, _, _) => OnlyQueues(s, r.0)
            case WaitBitsCall(_, _) => OnlyGroups(s, r.0)
            case _ => OnlyTasks(s, r.0)
  {
    var t := Current(s);
    var back := SetCurrent(s, t.(call := NoCall));
    match t.call
    case NoCall => (s, Void)
    case LockCall(_) => (back, Status(t.waitResult))
    case TakeCall(_) => (back, Status(t.waitResult))
    case SendCall(q, item, timeout, d) =>
      if t.waitResult then SendPass(back, q, item, timeout, d, true) else (back, Status(false))
    case ReceiveCall(q, timeout, d) =>
      if t.waitResult then ReceivePass(back, q, timeout, d, true) else (back, Status(false))
    case WaitBitsCall(g, bits) =>
      var b := s.groups[g];
      (if EventCondition(b, bits, t.eventAll) && t.eventClear
          then back.(groups := s.groups[g := WithoutBits(b, bits)]) else back,
       Bits(CommonBits(b, bits)))
    case NotifyCall =>
      (SetCurrent(s, t.(call := NoCall, notification := 0)), if t.notification != 0 then Value(t.notification)
          else Status(false))
  }

  // ---- delay, suspension ----

  function Delay(s: State, ticks: Word): (r: State)
    requires Wf(s)
    ensures OnlyTasks(s, r)
  {
    SetCurrent(s, Current(s).(sleepTicks := ticks, state := if ticks == 0 then Ready else Sleeping))
  }

  function Suspend(s: State, requested: Word): (r: (State, Outcome))
    requires Wf(s)
    ensures OnlyTasks(s, r.0)
  {
    var id := if requested == TASK_ID_SELF then s.cur else requested;
    if !s.started then (s, Refused(InvalidContext))
    else if id >= s.apps then (s, Refused(InvalidTask))
    else if !s.tasks[id].state.Ready? && !(s.tasks[id].state.Running? && id == s.cur) then (s, Refused(InvalidState))
    else (s.(tasks := s.tasks[id := s.tasks[id].(state := Suspended)]), Status(true))
  }

  function Resume(s: State, id: Word): (r: (State, Outcome))
    requires Wf(s)
    ensures OnlyTasks(s, r.0)
  {
    if !s.started then (s, Refused(InvalidContext))
    else if id >= s.apps then (s, Refused(InvalidTask))
    else if !s.tasks[id].state.Suspended? then (s, Refused(InvalidState))
    else (s.(tasks := s.tasks[id := s.tasks[id].(state := Ready)]), Status(true))
  }

  // ---- timers ----

  function TimerOrder(s: State): seq<int>
    requires ListsValid(s)
  {
    IntrusiveList.Order(TimerLinks(s.timers), s.timerList)
  }

  predicate Due(t: Timer, now: Word) {
    t.active && Wrap(now - t.deadline) < 0x8000_0000
  }

  /** One tick for one linked timer. */
  function Fire(t: Timer, now: Word): Timer {
    if !Due(t, now) then t
    else if t.periodic then t.(expirations := Wrap(t.expirations + 1), deadline := Wrap(t.deadline + t.period))
    else t.(expirations := Wrap(t.expirations + 1), active := false)
  }

  predicate ServiceBlocked(t: Task) {
    Waiting(t, ServiceRef, ServiceWait)
  }

  function WakeService(ts: seq<Task>, service: nat): (r: seq<Task>)
    requires service < |ts|
    ensures |r| == |ts|
  {
    if ServiceBlocked(ts[service]) then ts[service := WaitEnd(ts[service], true)] else ts
  }

  function FireAll(ts: seq<Timer>, order: seq<int>, now: Word): (r: seq<Timer>)
    ensures |r| == |ts|
    ensures forall i | 0 <= i < |ts| :: r[i] == if i in order then Fire(ts[i], now) else ts[i]
  {
    seq(|ts|, i requires 0 <= i < |ts| => if i in order then Fire(ts[i], now) else ts[i])
  }

  predicate CallsBack(ts: seq<Timer>, order: seq<int>, now: Word) {
    exists i :: 0 <= i < |ts| && i in order && Due(ts[i], now) && ts[i].callback != 0
  }

  function TimerTick(s: State): (r: State)
    requires Wf(s)
    ensures OnlyTimers(s, r)
  {
    var order := TimerOrder(s);
    s.(timers := FireAll(s.timers, order, s.Now()),
    tasks := if CallsBack(s.timers, order, s.Now()) then WakeService(s.tasks, s.Service()) else s.tasks)
  }

  /** Put timer t on the list, then change its other fields. */
  function LinkTimer(s: State, t: nat, x: Timer): (r: State)
    requires Wf(s) && t < |s.timers|
    ensures OnlyTimers(s, r) && r.tasks == s.tasks
  {
    var order := TimerOrder(s);
    if t in order then s.(timers := s.timers[t := x.(next := s.timers[t].next)])
    else s.(timers := s.timers[t := x.(next := s.timerList)], timerList := t)
  }

  function CreateTimer(s: State, t: nat): (r: State)
    requires Wf(s) && t < |s.timers|
    ensures OnlyTimers(s, r) && r.tasks == s.tasks
  {
    LinkTimer(s, t, Timer(0, 0, 0, 0, false, false, 0, 0, -1))
  }

  function StartTimer(s: State, t: nat, delay: Word): (r: State)
    requires Wf(s) && t < |s.timers|
    ensures OnlyTimers(s, r) && r.tasks == s.tasks
  {
    LinkTimer(s, t, s.timers[t].(deadline := Wrap(s.Now() + delay), period := 0, reload := delay,
    periodic := false, active := true))
  }

  function StartPeriodic(s: State, t: nat, period: Word): (r: State)
    requires Wf(s) && t < |s.timers|
    ensures OnlyTimers(s, r) && r.tasks == s.tasks
  {
    if period == 0 then s
    else LinkTimer(s, t, s.timers[t].(deadline := Wrap(s.Now() + period), period := period, reload := period,
    periodic := true, active := true))
  }

  function RestartTimer(s: State, t: nat): (r: State)
    requires Wf(s) && t < |s.timers|
    ensures OnlyTimers(s, r) && r.tasks == s.tasks
  {
    if s.timers[t].reload == 0 then s
    else LinkTimer(s, t, s.timers[t].(deadline := Wrap(s.Now() + s.timers[t].reload), active := true))
  }

  function StopTimer(s: State, t: nat): (r: State)
    requires Wf(s) && t < |s.timers|
    ensures OnlyTimers(s, r) && r.tasks == s.tasks
  {
    s.(timers := s.timers[t := s.timers[t].(active := false)])
  }

  function SetCallback(s: State, t: nat, callback: nat, argument: nat): (r: State)
    requires Wf(s) && t < |s.timers|
    ensures OnlyTimers(s, r)
  {
    s.(timers := s.timers[t := s.timers[t].(callback := callback, argument := argument)],
    tasks := if callback != 0 && s.timers[t].expirations != 0 then WakeService(s.tasks, s.Service()) else s.tasks)
  }

  function TakeExpirations(s: State, t: nat): (r: (State, Outcome))
    requires Wf(s) && t < |s.timers|
    ensures OnlyTimers(s, r.0) && r.0.tasks == s.tasks
  {
    (s.(timers := s.timers[t := s.timers[t].(expirations := 0)]), Value(s.timers[t].expirations))
  }

  /** The claim part of the dispatch: Value(n) stands for n callback invocations that follow. */
  function Dispatch(s: State, t: nat): (r: (State, Outcome))
    requires Wf(s) && t < |s.timers|
    ensures OnlyTimers(s, r.0) && r.0.tasks == s.tasks
  {
    if s.timers[t].callback == 0 then (s, Value(0)) else TakeExpirations(s, t)
  }

  predicate Claimable(t: Timer) {
    t.callback != 0 && t.expirations != 0
  }

  /** First timer of the list with callback work, -1 if there is none. */
  function FirstClaim(ts: seq<Timer>, order: seq<int>): (r: int)
    requires forall i | i in order :: 0 <= i < |ts|
    ensures r == -1 || (r in order && Claimable(ts[r]))
    ensures r == -1 ==> forall i | i in order :: !Claimable(ts[i])
  {
    if order == [] then -1
    else
      assert order[0] in order && forall i | i in order[1..] :: i in order;
      if Claimable(ts[order[0]]) then order[0] else FirstClaim(ts, order[1..])
  }

  function ServiceClaim(s: State): (r: (State, Outcome))
    requires Wf(s)
    ensures OnlyTimers(s, r.0)
  {
    var i := FirstClaim(s.timers, TimerOrder(s));
    if i >= 0 then
      (s.(timers := s.timers[i := s.timers[i].(expirations := s.timers[i].expirations - 1)]),
       Claim(s.timers[i].callback, s.timers[i].argument))
    else
      (Block(s, ServiceRef, ServiceWait, MakeDeadline(s.Now(), WAIT_FOREVER), NoCall), Pending)
  }

  // ---- tick and switch ----

  function Tick(s: State): (r: State)
    requires Wf(s)
    ensures OnlyTimers(s.(ticks := s.ticks + 1), r)
  {
    var s1 := TimerTick(s.(ticks := s.ticks + 1));
    s1.(tasks := TickTasks(s1.tasks, s1.mutexes, s1.Now(), 0))
  }

  function Switch(s: State): (r: State)
    requires Wf(s)
    ensures OnlyTasks(s.(cur := r.cur), r)
  {
    var ts := Preempt(s.tasks, s.cur);
    var next := Select(ts, s.cur);
    s.(cur := next, tasks := ts[next := ts[next].(state := Running)])
  }

  // ---- steps and runs ----

  datatype Step =
    // before the kernel is started
    | CreateMutexStep(m: nat)
    | CreateSemaphoreStep(x: nat, available: bool)
    | CreateQueueStep(q: nat, storage: seq<Byte>, capacity: Word, itemSize: Word)
    | CreateGroupStep(g: nat)
    | CreateTimerStep(t: nat)
    | StartStep
    // exceptions
    | TickStep
    | SwitchStep
    // task or interrupt context
    | GiveStep(x: nat)
    | SendFromIsrStep(q: nat, item: seq<Byte>)
    | SetBitsStep(g: nat, bits: bv32)
    | NotifyStep(id: nat, value: Word)
    // the running application task
    | LockStep(m: nat, entered: nat, timeout: Word)
    | UnlockStep(m: nat)
    | TakeStep(x: nat, entered: nat, timeout: Word)
    | SendStep(q: nat, item: seq<Byte>, entered: nat, timeout: Word)
    | ReceiveStep(q: nat, entered: nat, timeout: Word)
    | WaitBitsStep(g: nat, bits: bv32, all: bool, clear: bool, entered: nat, timeout: Word)
    | TakeNotificationStep(entered: nat, timeout: Word)
    | ContinueStep
    | DelayStep(delay: Word)
    | SuspendStep(task: Word)
    | ResumeStep(task: Word)
    // the running application task or a timer callback
    | StartTimerStep(t: nat, delay: Word)
    | StartPeriodicStep(t: nat, period: Word)
    | RestartTimerStep(t: nat)
    | StopTimerStep(t: nat)
    | SetCallbackStep(t: nat, callback: nat, argument: nat)
    | TakeExpirationsStep(t: nat)
    | DispatchStep(t: nat)
    // the timer service
    | ServiceClaimStep

  /** The task on the processor is executing API code of its own. */
  predicate Executing(s: State)
    requires s.cur < |s.tasks|
  {
    s.started && Current(s).state.Running?
  }

  predicate AppContext(s: State)
    requires s.cur < |s.tasks|
  {
    Executing(s) && s.cur < s.apps && Current(s).call.NoCall?
  }

  predicate CallbackContext(s: State)
    requires s.cur < |s.tasks|
  {
    Executing(s) && s.cur <= s.apps && Current(s).call.NoCall?
  }

  /** Which steps the source and its execution-context table allow in a state. An API call that takes
      its deadline at entry may be preempted before it blocks, so entered is any earlier tick; event and
      notification waits are entered likewise, but take their deadline only when they block. */
  predicate Legal(s: State, step: Step)
    requires s.cur < |s.tasks|
  {
    match step
    case CreateMutexStep(m) => !s.started && m < |s.mutexes|
    case CreateSemaphoreStep(x, _) => !s.started && x < |s.semaphores|
    case CreateQueueStep(q, storage, capacity, itemSize) =>
      !s.started && q < |s.queues| && |storage| == capacity * itemSize <= MAX_WORD
    case CreateGroupStep(g) => !s.started && g < |s.groups|
    case CreateTimerStep(t) => !s.started && t < |s.timers|
    case StartStep => !s.started
    case TickStep => s.started
    case SwitchStep => s.started
    case GiveStep(x) => s.started && x < |s.semaphores|
    case SendFromIsrStep(q, item) => s.started && q < |s.queues| && |item| == s.queues[q].itemSize
    case SetBitsStep(g, _) => s.started && g < |s.groups|
    case NotifyStep(_, _) => s.started
    case LockStep(m, entered, _) =>
      AppContext(s) && m < |s.mutexes| && entered <= s.ticks
      && (s.mutexes[m].locked && s.mutexes[m].owner == s.cur ==> s.mutexes[m].recursion < MAX_WORD)
    case UnlockStep(m) => AppContext(s) && m < |s.mutexes|
    case TakeStep(x, entered, _) => AppContext(s) && x < |s.semaphores| && entered <= s.ticks
    case SendStep(q, item, entered, _) =>
      AppContext(s) && q < |s.queues| && |item| == s.queues[q].itemSize && entered <= s.ticks
    case ReceiveStep(q, entered, _) => AppContext(s) && q < |s.queues| && entered <= s.ticks
    case WaitBitsStep(g, _, _, _, entered, _) => AppContext(s) && g < |s.groups| && entered <= s.ticks
    case TakeNotificationStep(entered, _) => AppContext(s) && entered <= s.ticks
    case ContinueStep => Executing(s) && !Current(s).call.NoCall?
    case DelayStep(_) => AppContext(s)
    case SuspendStep(_) => AppContext(s)
    case ResumeStep(_) => AppContext(s)
    case StartTimerStep(t, _) => CallbackContext(s) && t < |s.timers|
    case StartPeriodicStep(t, _) => CallbackContext(s) && t < |s.timers|
    case RestartTimerStep(t) => CallbackContext(s) && t < |s.timers|
    case StopTimerStep(t) => CallbackContext(s) && t < |s.timers|
    case SetCallbackStep(t, _, _) => CallbackContext(s) && t < |s.timers|
    case TakeExpirationsStep(t) => CallbackContext(s) && t < |s.timers|
    case DispatchStep(t) => AppContext(s) && t < |s.timers|
    case ServiceClaimStep => Executing(s) && s.cur == s.Service()
  }

  /** The steps of the timer interface and of the timer service. */
  function NextOfTimers(s: State, step: Step): (State, Outcome)
    requires Wf(s) && Legal(s, step) && IsTimerCall(step)
  {
    match step
    case StartTimerStep(t, delay) => (StartTimer(s, t, delay), Void)
    case StartPeriodicStep(t, period) => (StartPeriodic(s, t, period), Void)
    case RestartTimerStep(t) => (RestartTimer(s, t), Void)
    case StopTimerStep(t) => (StopTimer(s, t), Void)
    case SetCallbackStep(t, callback, argument) => (SetCallback(s, t, callback, argument), Void)
    case TakeExpirationsStep(t) => TakeExpirations(s, t)
    case DispatchStep(t) => Dispatch(s, t)
    case ServiceClaimStep => ServiceClaim(s)
  }

  function Next(s: State, step: Step): (State, Outcome)
    requires Wf(s) && Legal(s, step)
  {
    match step
    case CreateMutexStep(m) => (CreateMutex(s, m), Void)
    case CreateSemaphoreStep(x, available) => (s.(semaphores := s.semaphores[x := available]), Void)
    case CreateQueueStep(q, storage, capacity, itemSize) =>
      (s.(queues := s.queues[q := Queue(storage, capacity, itemSize, 0, 0, 0, 0, 0)]), Void)
    case CreateGroupStep(g) => (s.(groups := s.groups[g := 0]), Void)
    case CreateTimerStep(t) => (CreateTimer(s, t), Void)
    case StartStep => (s.(started := true), Void)
    case TickStep => (Tick(s), Void)
    case SwitchStep => (Switch(s), Void)
    case GiveStep(x) => (Give(s, x), Void)
    case SendFromIsrStep(q, item) => SendFromIsr(s, q, item)
    case SetBitsStep(g, bits) => SetBits(s, g, bits)
    case NotifyStep(id, value) => Notify(s, id, value)
    case LockStep(m, entered, timeout) => Lock(s, m, entered, timeout)
    case UnlockStep(m) => Unlock(s, m)
    case TakeStep(x, entered, timeout) => Take(s, x, entered, timeout)
    case SendStep(q, item, entered, timeout) =>
      SendPass(s, q, item, timeout, MakeDeadline(Wrap(entered), timeout), false)
    case ReceiveStep(q, entered, timeout) =>
      ReceivePass(s, q, timeout, MakeDeadline(Wrap(entered), timeout), false)
    case WaitBitsStep(g, bits, all, clear, _, timeout) => WaitBits(s, g, bits, all, clear, timeout)
    case TakeNotificationStep(_, timeout) => TakeNotification(s, timeout)
    case ContinueStep => Continue(s)
    case DelayStep(delay) => (Delay(s, delay), Void)
    case SuspendStep(task) => Suspend(s, task)
    case ResumeStep(task) => Resume(s, task)
    case _ => NextOfTimers(s, step)
  }

  // ---- the case of each step, for proofs that keep Next hidden ----

  lemma NextCreateMutex(s: State, m: nat)
    requires Wf(s) && Legal(s, CreateMutexStep(m))
    ensures Next(s, CreateMutexStep(m)) == (CreateMutex(s, m), Void)
  {}

  lemma NextCreateTimer(s: State, t: nat)
    requires Wf(s) && Legal(s, CreateTimerStep(t))
    ensures Next(s, CreateTimerStep(t)) == (CreateTimer(s, t), Void)
  {}

  lemma NextTick(s: State)
    requires Wf(s) && s.started
    ensures Next(s, TickStep) == (Tick(s), Void)
  {}

  lemma NextSwitch(s: State)
    requires Wf(s) && s.started
    ensures Next(s, SwitchStep) == (Switch(s), Void)
  {}

  lemma NextGive(s: State, x: nat)
    requires Wf(s) && Legal(s, GiveStep(x))
    ensures Next(s, GiveStep(x)) == (Give(s, x), Void)
  {}

  lemma NextSendFromIsr(s: State, q: nat, item: seq<Byte>)
    requires Wf(s) && Legal(s, SendFromIsrStep(q, item))
    ensures Next(s, SendFromIsrStep(q, item)) == SendFromIsr(s, q, item)
  {}

  lemma NextSetBits(s: State, g: nat, bits: bv32)
    requires Wf(s) && Legal(s, SetBitsStep(g, bits))
    ensures Next(s, SetBitsStep(g, bits)) == SetBits(s, g, bits)
  {}

  lemma NextNotify(s: State, id: nat, value: Word)
    requires Wf(s) && Legal(s, NotifyStep(id, value))
    ensures Next(s, NotifyStep(id, value)) == Notify(s, id, value)
  {}

  lemma NextLock(s: State, m: nat, entered: nat, timeout: Word)
    requires Wf(s) && Legal(s, LockStep(m, entered, timeout))
    ensures Next(s, LockStep(m, entered, timeout)) == Lock(s, m, entered, timeout)
  {}

  lemma NextUnlock(s: State, m: nat)
    requires Wf(s) && Legal(s, UnlockStep(m))
    ensures Next(s, UnlockStep(m)) == Unlock(s, m)
  {}

  lemma NextTake(s: State, x: nat, entered: nat, timeout: Word)
    requires Wf(s) && Legal(s, TakeStep(x, entered, timeout))
    ensures Next(s, TakeStep(x, entered, timeout)) == Take(s, x, entered, timeout)
  {}

  lemma NextSend(s: State, q: nat, item: seq<Byte>, entered: nat, timeout: Word)
    requires Wf(s) && Legal(s, SendStep(q, item, entered, timeout))
    ensures Next(s, SendStep(q, item, entered, timeout))
            == SendPass(s, q, item, timeout, MakeDeadline(Wrap(entered), timeout), false)
  {}

  lemma NextReceive(s: State, q: nat, entered: nat, timeout: Word)
    requires Wf(s) && Legal(s, ReceiveStep(q, entered, timeout))
    ensures Next(s, ReceiveStep(q, entered, timeout))
            == ReceivePass(s, q, timeout, MakeDeadline(Wrap(entered), timeout), false)
  {}

  lemma NextWaitBits(s: State, g: nat, bits: bv32, all: bool, clear: bool, entered: nat, timeout: Word)
    requires Wf(s) && Legal(s, WaitBitsStep(g, bits, all, clear, entered, timeout))
    ensures Next(s, WaitBitsStep(g, bits, all, clear, entered, timeout)) == WaitBits(s, g, bits, all, clear, timeout)
  {}

  lemma NextTakeNotification(s: State, entered: nat, timeout: Word)
    requires Wf(s) && Legal(s, TakeNotificationStep(entered, timeout))
    ensures Next(s, TakeNotificationStep(entered, timeout)) == TakeNotification(s, timeout)
  {}

  lemma NextContinue(s: State)
    requires Wf(s) && Legal(s, ContinueStep)
    ensures Next(s, ContinueStep) == Continue(s)
  {}

  lemma NextDelay(s: State, delay: Word)
    requires Wf(s) && Legal(s, DelayStep(delay))
    ensures Next(s, DelayStep(delay)) == (Delay(s, delay), Void)
  {}

  lemma NextSuspend(s: State, task: Word)
    requires Wf(s) && Legal(s, SuspendStep(task))
    ensures Next(s, SuspendStep(task)) == Suspend(s, task)
  {}

  lemma NextResume(s: State, task: Word)
    requires Wf(s) && Legal(s, ResumeStep(task))
    ensures Next(s, ResumeStep(task)) == Resume(s, task)
  {}

  lemma NextStartTimer(s: State, t: nat, delay: Word)
    requires Wf(s) && Legal(s, StartTimerStep(t, delay))
    ensures Next(s, StartTimerStep(t, delay)) == (StartTimer(s, t, delay), Void)
  {}

  lemma NextStartPeriodic(s: State, t: nat, period: Word)
    requires Wf(s) && Legal(s, StartPeriodicStep(t, period))
    ensures Next(s, StartPeriodicStep(t, period)) == (StartPeriodic(s, t, period), Void)
  {}

  lemma NextRestartTimer(s: State, t: nat)
    requires Wf(s) && Legal(s, RestartTimerStep(t))
    ensures Next(s, RestartTimerStep(t)) == (RestartTimer(s, t), Void)
  {}

  lemma NextStopTimer(s: State, t: nat)
    requires Wf(s) && Legal(s, StopTimerStep(t))
    ensures Next(s, StopTimerStep(t)) == (StopTimer(s, t), Void)
  {}

  lemma NextSetCallback(s: State, t: nat, callback: nat, argument: nat)
    requires Wf(s) && Legal(s, SetCallbackStep(t, callback, argument))
    ensures Next(s, SetCallbackStep(t, callback, argument)) == (SetCallback(s, t, callback, argument), Void)
  {}

  lemma NextTakeExpirations(s: State, t: nat)
    requires Wf(s) && Legal(s, TakeExpirationsStep(t))
    ensures Next(s, TakeExpirationsStep(t)) == TakeExpirations(s, t)
  {}

  lemma NextDispatch(s: State, t: nat)
    requires Wf(s) && Legal(s, DispatchStep(t))
    ensures Next(s, DispatchStep(t)) == Dispatch(s, t)
  {}

  lemma NextServiceClaim(s: State)
    requires Wf(s) && Legal(s, ServiceClaimStep)
    ensures Next(s, ServiceClaimStep) == ServiceClaim(s)
  {}

  // ---- which objects a step can change ----

  /** Steps of the timer interface and of the timer service. */
  predicate IsTimerCall(step: Step) {
    || step.StartTimerStep? || step.StartPeriodicStep? || step.RestartTimerStep? || step.StopTimerStep?
    || step.SetCallbackStep? || step.TakeExpirationsStep? || step.DispatchStep? || step.ServiceClaimStep?
  }

  predicate IsMutexStep(step: Step) {
    step.LockStep? || step.UnlockStep? || step.CreateMutexStep?
  }

  predicate IsQueueStep(s: State, step: Step)
    requires s.cur < |s.tasks|
  {
    || step.SendStep? || step.ReceiveStep? || step.SendFromIsrStep? || step.CreateQueueStep?
    || (step.ContinueStep? && (Current(s).call.SendCall? || Current(s).call.ReceiveCall?))
  }

  predicate IsSemaphoreStep(step: Step) {
    step.TakeStep? || step.GiveStep? || step.CreateSemaphoreStep?
  }

  predicate IsGroupStep(s: State, step: Step)
    requires s.cur < |s.tasks|
  {
    || step.SetBitsStep? || step.WaitBitsStep? || step.CreateGroupStep?
    || (step.ContinueStep? && Current(s).call.WaitBitsCall?)
  }

  predicate IsTimerStep(step: Step) {
    || step.CreateTimerStep? || step.TickStep? || step.StartTimerStep? || step.StartPeriodicStep?
    || step.RestartTimerStep? || step.StopTimerStep? || step.SetCallbackStep? || step.TakeExpirationsStep?
    || step.DispatchStep? || step.ServiceClaimStep?
  }

  /** Each object class is changed by its own steps alone. */
  lemma StepFrame(s: State, step: Step)
    requires Wf(s) && Legal(s, step)
    ensures var s' := Next(s, step).0;
      && |s'.tasks| == |s.tasks| && s'.apps == s.apps && (s.started ==> s'.started)
      && (!IsMutexStep(step) ==> s'.mutexes == s.mutexes && s'.mutexList == s.mutexList)
      && (!IsQueueStep(s, step) ==> s'.queues == s.queues)
      && (!IsSemaphoreStep(step) ==> s'.semaphores == s.semaphores)
      && (!IsGroupStep(s, step) ==> s'.groups == s.groups)
      && (!IsTimerStep(step) ==> s'.timers == s.timers && s'.timerList == s.timerList)
      && s'.ticks == (if step.TickStep? then s.ticks + 1 else s.ticks)
      && (!step.SwitchStep? ==> s'.cur == s.cur)
  {
    hide CreateMutex, CreateTimer, Tick, Switch, Give, SendFromIsr, SetBits, Notify, Lock, Unlock, Take, SendPass,
      ReceivePass, WaitBits, TakeNotification, Continue, Delay, Suspend, Resume, StartTimer, StartPeriodic,
      RestartTimer, StopTimer, SetCallback, TakeExpirations, Dispatch, ServiceClaim, ListsValid, CallInRange,
      QueueShape;
  }
}
