/** Transitions of the task table: waiting and waking, priority inheritance, time and selection. */
module TaskTable {
  import opened Types
  import opened Graph
  import Inheritance

  // ---- waits ----

  function MakeDeadline(now: Word, timeout: Word): Deadline {
    Deadline(now, Wrap(now + timeout), timeout == WAIT_FOREVER)
  }

  predicate Expired(now: Word, d: Deadline) {
    !d.forever && Wrap(now - d.start) >= Wrap(d.tick - d.start)
  }

  function WaitBegin(t: Task, obj: Object, kind: WaitKind, d: Deadline, call: Call): Task {
    t.(waitObject := obj, waitKind := kind, waitStart := d.start, waitDeadline := d.tick,
    waitForever := d.forever, waitResult := false, state := Blocked, call := call)
  }

  function WaitEnd(t: Task, result: bool): Task {
    t.(state := Ready, waitResult := result, waitObject := NullObject, waitKind := NoWait,
    waitStart := 0, waitDeadline := 0, waitForever := false)
  }

  predicate Waiting(t: Task, obj: Object, kind: WaitKind) {
    t.state.Blocked? && t.waitObject == obj && t.waitKind == kind
  }

  /** The waiter to wake among the first k tasks, -1 if there is none. */
  function BestWaiter(ts: seq<Task>, obj: Object, kind: WaitKind, k: nat): (r: int)
    requires k <= |ts|
    ensures -1 <= r < k
    ensures r >= 0 ==> Waiting(ts[r], obj, kind)
  {
    if k == 0 then -1
    else
      var best := BestWaiter(ts, obj, kind, k - 1);
      if Waiting(ts[k - 1], obj, kind) && (best == -1 || ts[k - 1].priority > ts[best].priority) then k - 1
      else best
  }

  /** The woken task is the lowest-index one of the highest priority; none is woken only if none waits. */
  lemma {:induction false} BestWaiterIsBest(ts: seq<Task>, obj: Object, kind: WaitKind, k: nat)
    requires k <= |ts|
    ensures var r := BestWaiter(ts, obj, kind, k);
      && (forall i | 0 <= i < k && Waiting(ts[i], obj, kind) ::
            r >= 0 && ts[i].priority <= ts[r].priority && (i < r ==> ts[i].priority < ts[r].priority))
  {
    if k > 0 {
      BestWaiterIsBest(ts, obj, kind, k - 1);
    }
  }

  function Wake(ts: seq<Task>, obj: Object, kind: WaitKind): (r: (seq<Task>, int))
    ensures |r.0| == |ts| && -1 <= r.1 < |ts|
  {
    var best := BestWaiter(ts, obj, kind, |ts|);
    if best >= 0 then (ts[best := WaitEnd(ts[best], true)], best) else (ts, -1)
  }

  // ---- priorities ----

  function OwnerEdge(t: Task, ms: seq<Mutex>, n: nat, i: int): (r: int)
    ensures -1 <= r < n
  {
    if t.state.Blocked? && t.waitKind.MutexWait? && t.waitObject.MutexRef? && t.waitObject.id < |ms|
       && ms[t.waitObject.id].locked && ms[t.waitObject.id].owner < n && ms[t.waitObject.id].owner != i
    then ms[t.waitObject.id].owner
    else -1
  }

  /** The wait-for graph. */
  function Owners(ts: seq<Task>, ms: seq<Mutex>): (r: seq<int>)
    ensures |r| == |ts| && Valid(r)
    ensures forall i | 0 <= i < |ts| :: r[i] == OwnerEdge(ts[i], ms, |ts|, i)
  {
    seq(|ts|, i requires 0 <= i < |ts| => OwnerEdge(ts[i], ms, |ts|, i))
  }

  function Priorities(ts: seq<Task>): (r: seq<int>)
    ensures |r| == |ts| && forall i | 0 <= i < |ts| :: r[i] == ts[i].priority
  {
    seq(|ts|, i requires 0 <= i < |ts| => ts[i].priority)
  }

  function Bases(ts: seq<Task>): (r: seq<int>)
    ensures |r| == |ts| && forall i | 0 <= i < |ts| :: r[i] == ts[i].basePriority
  {
    seq(|ts|, i requires 0 <= i < |ts| => ts[i].basePriority)
  }

  function WithPriorities(ts: seq<Task>, p: seq<int>): (r: seq<Task>)
    requires |p| == |ts|
    ensures |r| == |ts| && forall i | 0 <= i < |ts| :: r[i] == ts[i].(priority := p[i])
  {
    seq(|ts|, i requires 0 <= i < |ts| => ts[i].(priority := p[i]))
  }

  function InheritPriority(ts: seq<Task>, ms: seq<Mutex>, id: int, p: int): (r: seq<Task>)
    requires 0 <= id
    ensures |r| == |ts|
  {
    if id >= |ts| then ts
    else WithPriorities(ts, Inheritance.Raise(Owners(ts, ms), Priorities(ts), id, p, |ts|))
  }

  function RestoreChain(ts: seq<Task>, ms: seq<Mutex>, id: int): (r: seq<Task>)
    requires 0 <= id < |ts|
    ensures |r| == |ts|
  {
    WithPriorities(ts, Inheritance.Restore(Owners(ts, ms), Priorities(ts), Bases(ts), id, |ts|))
  }

  function RestorePriority(ts: seq<Task>, ms: seq<Mutex>, id: int): (r: seq<Task>)
    requires 0 <= id < |ts|
    ensures |r| == |ts|
  {
    WithPriorities(ts, Inheritance.Recompute(Owners(ts, ms), Priorities(ts), Bases(ts), id))
  }

  // ---- time ----

  predicate TimedOut(t: Task, now: Word) {
    t.state.Blocked? && Expired(now, Deadline(t.waitStart, t.waitDeadline, t.waitForever))
  }

  function EndTimedOut(ts: seq<Task>, ms: seq<Mutex>, i: int): (r: seq<Task>)
    requires 0 <= i < |ts|
    ensures |r| == |ts|
  {
    var t := ts[i];
    var ts1 := ts[i := WaitEnd(t, false)];
    if t.waitKind.MutexWait? && t.waitObject.MutexRef? && t.waitObject.id < |ms|
       && ms[t.waitObject.id].locked && ms[t.waitObject.id].owner < |ts|
    then RestoreChain(ts1, ms, ms[t.waitObject.id].owner)
    else ts1
  }

  function SleepTick(t: Task): Task
    requires t.sleepTicks > 0
  {
    t.(sleepTicks := t.sleepTicks - 1, state := if t.sleepTicks == 1 then Ready else t.state)
  }

  function TickTask(ts: seq<Task>, ms: seq<Mutex>, now: Word, i: int): (r: seq<Task>)
    requires 0 <= i < |ts|
    ensures |r| == |ts|
  {
    if ts[i].state.Sleeping? && ts[i].sleepTicks > 0 then ts[i := SleepTick(ts[i])]
    else if TimedOut(ts[i], now) then EndTimedOut(ts, ms, i)
    else ts
  }

  /** The tick's pass over tasks i, i+1, ... */
  function TickTasks(ts: seq<Task>, ms: seq<Mutex>, now: Word, i: nat): (r: seq<Task>)
    requires i <= |ts|
    ensures |r| == |ts|
    decreases |ts| - i
  {
    if i == |ts| then ts else TickTasks(TickTask(ts, ms, now, i), ms, now, i + 1)
  }

  // ---- selection ----

  /** The task index at cyclic offset o behind start. */
  function CyclicIndex(start: nat, o: nat, n: nat): (r: nat)
    requires start < n && o <= n
    ensures r == if start + o < n then start + o else start + o - n
  {
    (start + o) % n
  }

  /** Highest priority among the READY tasks at cyclic offsets 0 .. k-1 from start, at least 0. */
  function BestReady(ts: seq<Task>, start: nat, k: nat): (r: int)
    requires start < |ts| && k <= |ts|
    ensures r >= 0
  {
    if k == 0 then 0
    else
      var best := BestReady(ts, start, k - 1);
      var t := ts[CyclicIndex(start, k - 1, |ts|)];
      if t.state.Ready? && t.priority > best then t.priority else best
  }

  predicate ReadyAt(t: Task, priority: int) {
    t.state.Ready? && t.priority == priority
  }

  /** First READY task of the given priority at cyclic offset >= offset from start, -1 if there is none. */
  function FirstReady(ts: seq<Task>, start: nat, priority: int, offset: nat): (r: int)
    requires start < |ts|
    ensures -1 <= r < |ts|
    decreases |ts| + 1 - offset
  {
    if offset > |ts| then -1
    else
      var i := CyclicIndex(start, offset, |ts|);
      if ReadyAt(ts[i], priority) then i else FirstReady(ts, start, priority, offset + 1)
  }

  /** The running task is preempted. */
  function Preempt(ts: seq<Task>, cur: nat): (r: seq<Task>)
    requires cur < |ts|
    ensures |r| == |ts|
  {
    if ts[cur].state.Running? then ts[cur := ts[cur].(state := Ready)] else ts
  }

  function Select(ts: seq<Task>, cur: nat): (r: nat)
    requires cur < |ts|
    ensures r < |ts|
  {
    var next := FirstReady(ts, cur, BestReady(ts, cur, |ts|), 1);
    if next >= 0 then next else cur
  }
}
