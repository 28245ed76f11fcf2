/** The kernel as the source keeps it: static arrays of records, updated in place by critical sections.
    Every method is proved to be one step of the state machine, so it keeps the invariant of every run. */
module Kernel {
  import opened Types
  import opened Graph
  import opened TaskTable
  import opened Machine
  import opened WaitInvariant
  import opened MutexInvariant
  import opened Runs
  import opened Checker
  import opened KernelFacts
  import IntrusiveList
  import Inh = Inheritance

  class Kernel {
    const tasks: array<Task>
    const mutexes: array<Mutex>
    const semaphores: array<bool>
    const queues: array<Queue>
    const groups: array<bv32>
    const timers: array<Timer>
    const apps: nat
    var kernelTicks: Word
    var current: nat
    var started: bool
    var mutexList: int
    var timerList: int
    /** Every tick since the start; kernelTicks is its low word. */
    ghost var ticks: nat

    ghost function Abs(): State
      reads this, tasks, mutexes, semaphores, queues, groups, timers
    {
      State(ticks, current, apps, started, tasks[..], mutexes[..], mutexList, semaphores[..], queues[..],
        groups[..], timers[..], timerList)
    }

    ghost predicate Valid()
      reads this, tasks, mutexes, semaphores, queues, groups, timers
    {
      Inv(Abs()) && kernelTicks == Wrap(ticks) && Apart()
    }

    /** The event group storage is storage of its own. */
    ghost predicate Apart() {
      var g: object := groups;
      g != tasks && g != mutexes && g != semaphores && g != queues && g != timers
    }

    /** The kernel as initialization leaves it, over zeroed object storage. */
    constructor (priorities: seq<Word>, servicePriority: Word, pools: Pools)
      requires 1 <= |priorities| < NO_OWNER - 2
      ensures Valid() && Abs() == Boot(priorities, servicePriority, pools)
      ensures fresh(tasks) && fresh(mutexes) && fresh(semaphores) && fresh(queues) && fresh(groups) && fresh(timers)
    {
      hide Inv, Wrap, BootTasks;
      var n := |priorities|;
      apps := n;
      kernelTicks, ticks := 0, 0;
      current, started, mutexList, timerList := 0, false, -1, -1;
      tasks := new Task[n + 2](_ => FreshTask(0));
      mutexes := new Mutex[pools.mutexes](_ => Mutex(false, 0, 0, -1));
      semaphores := new bool[pools.semaphores](_ => false);
      queues := new Queue[pools.queues](_ => Queue([], 0, 0, 0, 0, 0, 0, 0));
      groups := new bv32[pools.groups](_ => 0);
      timers := new Timer[pools.timers](_ => Timer(0, 0, 0, 0, false, false, 0, 0, -1));
      new;
      PrepareTasks(priorities, servicePriority);
      BootInv(priorities, servicePriority, pools);
      WrapSmall(0);
      assert Abs() == Boot(priorities, servicePriority, pools);
    }

    method PrepareTasks(priorities: seq<Word>, servicePriority: Word)
      requires |priorities| >= 1 && tasks.Length == |priorities| + 2 && tasks[tasks.Length - 1] == FreshTask(0)
      modifies tasks
      ensures tasks[..] == BootTasks(priorities, servicePriority)
    {
      var n := |priorities|;
      var index := 0;
      while index < n
        invariant index <= n && tasks[n + 1] == FreshTask(0)
        invariant forall i | 0 <= i < index :: tasks[i] == FreshTask(priorities[i])
      {
        tasks[index] := FreshTask(priorities[index]);
        index := index + 1;
      }
      tasks[n] := WaitBegin(FreshTask(servicePriority), ServiceRef, ServiceWait, MakeDeadline(0, WAIT_FOREVER), NoCall);
      tasks[0] := tasks[0].(state := Running);
      forall i | 0 <= i < n + 2 ensures tasks[i] == BootTasks(priorities, servicePriority)[i] {
      }
    }

    // ---- priority inheritance ----

    /** The owner that the owner chain continues with, if any. */
    method ChainOwner(id: nat) returns (owner: int)
      requires id < tasks.Length
      ensures owner == OwnerEdge(tasks[id], mutexes[..], tasks.Length, id)
    {
      if !tasks[id].state.Blocked? || !tasks[id].waitKind.MutexWait? || !tasks[id].waitObject.MutexRef? {
        return -1;
      }
      var m := tasks[id].waitObject.id;
      if m >= mutexes.Length || !mutexes[m].locked || mutexes[m].owner >= tasks.Length || mutexes[m].owner == id {
        return -1;
      }
      return mutexes[m].owner;
    }

    /** One task of the chain. */
    method RaiseOne(owner: nat, p: int) returns (next: int)
      requires owner < tasks.Length
      modifies tasks
      ensures
        var ts := old(tasks[..]);
        && tasks[..] == ts[owner := ts[owner].(priority := Inh.Max(ts[owner].priority, p))]
        && next == Owners(ts, mutexes[..])[owner]
    {
      if tasks[owner].priority < p {
        tasks[owner] := tasks[owner].(priority := p);
      }
      next := ChainOwner(owner);
    }

    method TaskInheritPriority(id: Word, p: int)
      modifies tasks
      ensures tasks[..] == InheritPriority(old(tasks[..]), mutexes[..], id, p)
    {
      ghost var ts, ms := tasks[..], mutexes[..];
      ghost var g := Owners(ts, ms);
      var n := tasks.Length;
      if id >= n {
        return;
      }
      hide Inh.Raise, OwnerEdge, Priorities, SameButPriority;
      VectorsAgree(ts, ts, ms);
      Unchanged(ts);
      var owner: int := id;
      var depth := 0;
      while depth < n && owner >= 0
        invariant 0 <= depth <= n && ValidNode(g, owner) && |ts| == n
        invariant SameButPriority(ts, tasks[..])
        invariant Inh.Raise(g, Priorities(tasks[..]), owner, p, n - depth) == Inh.Raise(g, Priorities(ts), id, p, n)
        decreases n - depth
      {
        RaiseRound(ts, tasks[..], ms, owner, p, n - depth);
        owner := RaiseOne(owner, p);
        depth := depth + 1;
      }
      Inh.RaiseUnfolds(g, Priorities(tasks[..]), owner, p, n - depth);
      VectorsAgree(ts, tasks[..], ms);
    }

    /** The priority a task should have: the maximum of its base and of its waiters' priorities. */
    method EffectivePriority(id: nat) returns (effective: int)
      requires id < tasks.Length && NoSelfWait(tasks[..], mutexes[..])
      ensures effective == Inh.Effective(Owners(tasks[..], mutexes[..]), Priorities(tasks[..]), Bases(tasks[..]), id)
    {
      ghost var g := Owners(tasks[..], mutexes[..]);
      effective := tasks[id].basePriority;
      var scan := 0;
      while scan < tasks.Length
        invariant scan <= tasks.Length
        invariant effective == Inh.ScanWaiters(g, Priorities(tasks[..]), Bases(tasks[..]), id, scan)
      {
        var t := tasks[scan];
        assert tasks[..][scan] == t;
        if t.state.Blocked? && t.waitKind.MutexWait? && t.waitObject.MutexRef? && t.waitObject.id < mutexes.Length {
          var m := mutexes[t.waitObject.id];
          if m.locked && m.owner == id && t.priority > effective {
            effective := t.priority;
          }
        }
        scan := scan + 1;
      }
    }

    /** One task of the chain; the walk goes on with its owner only if the priority changed. */
    method RestoreOne(id: nat) returns (next: int)
      requires id < tasks.Length && NoSelfWait(tasks[..], mutexes[..])
      modifies tasks
      ensures
        var ts := old(tasks[..]);
        var g := Owners(ts, mutexes[..]);
        var e := Inh.Effective(g, Priorities(ts), Bases(ts), id);
        && tasks[..] == ts[id := ts[id].(priority := e)]
        && next == if e == ts[id].priority then -1 else g[id]
    {
      hide Inh.Effective;
      var oldPriority := tasks[id].priority;
      var effective := EffectivePriority(id);
      tasks[id] := tasks[id].(priority := effective);
      if effective == oldPriority {
        return -1;
      }
      next := ChainOwner(id);
    }

    method RestorePriorityChain(start: nat)
      requires start < tasks.Length && NoSelfWait(tasks[..], mutexes[..])
      modifies tasks
      ensures tasks[..] == RestoreChain(old(tasks[..]), mutexes[..], start)
    {
      ghost var ts, ms := tasks[..], mutexes[..];
      ghost var g := Owners(ts, ms);
      hide Inh.Restore, NoSelfWait, Inh.Effective, OwnerEdge, Priorities, Bases, SameButPriority;
      Unchanged(ts);
      var n := tasks.Length;
      var id: int := start;
      var depth := 0;
      while depth < n && id >= 0
        invariant 0 <= depth <= n && ValidNode(g, id) && |ts| == n
        invariant SameButPriority(ts, tasks[..])
        invariant Inh.Restore(g, Priorities(tasks[..]), Bases(ts), id, n - depth)
               == Inh.Restore(g, Priorities(ts), Bases(ts), start, |ts|)
        decreases n - depth
      {
        RestoreRound(ts, tasks[..], ms, id, n - depth);
        id := RestoreOne(id);
        depth := depth + 1;
      }
      Inh.RestoreStops(g, Priorities(tasks[..]), Bases(ts), id, n - depth);
      VectorsAgree(ts, tasks[..], ms);
    }

    method TaskRestorePriority(id: nat)
      requires id < tasks.Length && NoSelfWait(tasks[..], mutexes[..])
      modifies tasks
      ensures tasks[..] == RestorePriority(old(tasks[..]), mutexes[..], id)
    {
      var effective := EffectivePriority(id);
      tasks[id] := tasks[id].(priority := effective);
      assert Priorities(tasks[..]) == Priorities(old(tasks[..]))[id := effective];
      VectorsAgree(old(tasks[..]), tasks[..], mutexes[..]);
    }

    // ---- waking ----

    /** The waiter to wake; -1 when there is none. */
    method SelectWaiter(obj: Object, kind: WaitKind) returns (selected: int)
      ensures selected == BestWaiter(tasks[..], obj, kind, tasks.Length)
    {
      ghost var ts := tasks[..];
      hide BestWaiter;
      BestWaiterNone(ts, obj, kind);
      selected := -1;
      var selectedPriority := 0;
      var index := 0;
      while index < tasks.Length
        invariant index <= tasks.Length
        invariant selected == BestWaiter(ts, obj, kind, index)
        invariant -1 <= selected < index && (selected >= 0 ==> selectedPriority == ts[selected].priority)
      {
        var t := tasks[index];
        assert t == ts[index];
        BestWaiterNext(ts, obj, kind, index);
        if t.state.Blocked? && t.waitObject == obj && t.waitKind == kind {
          if selected == -1 || t.priority > selectedPriority {
            selected := index;
            selectedPriority := t.priority;
          }
        }
        index := index + 1;
      }
    }

    /** Wake the best waiter; -1 when there is none. */
    method TaskWakeGetId(obj: Object, kind: WaitKind) returns (selected: int)
      modifies tasks
      ensures (tasks[..], selected) == Wake(old(tasks[..]), obj, kind)
    {
      selected := SelectWaiter(obj, kind);
      if selected >= 0 {
        tasks[selected] := WaitEnd(tasks[selected], true);
        assert tasks[..] == old(tasks[..])[selected := WaitEnd(old(tasks[..])[selected], true)];
      }
    }

    // ---- the tick ----

    method TickOneTask(index: nat)
      requires index < tasks.Length && NoSelfWait(tasks[..], mutexes[..])
      modifies tasks
      ensures tasks[..] == TickTask(old(tasks[..]), mutexes[..], kernelTicks, index)
      ensures NoSelfWait(tasks[..], mutexes[..])
    {
      hide NoSelfWait, RestoreChain;
      ghost var ts, ms := tasks[..], mutexes[..];
      var t := tasks[index];
      if t.state.Sleeping? && t.sleepTicks > 0 {
        OthersWait(ts, ms, index, SleepTick(t));
        tasks[index] := t.(sleepTicks := t.sleepTicks - 1);
        if t.sleepTicks - 1 == 0 {
          tasks[index] := t.(sleepTicks := 0, state := Ready);
        }
        assert tasks[..] == ts[index := SleepTick(t)];
      } else if t.state.Blocked? && !t.waitForever
                && Wrap(kernelTicks - t.waitStart) >= Wrap(t.waitDeadline - t.waitStart) {
        var mutexOwner := tasks.Length;
        if t.waitKind.MutexWait? && t.waitObject.MutexRef? && t.waitObject.id < mutexes.Length {
          var m := mutexes[t.waitObject.id];
          if m.locked && m.owner < tasks.Length {
            mutexOwner := m.owner;
          }
        }
        OthersWait(ts, ms, index, WaitEnd(t, false));
        tasks[index] := WaitEnd(t, false);
        assert tasks[..] == ts[index := WaitEnd(t, false)];
        if mutexOwner < tasks.Length {
          RestoredVectors(tasks[..], ms, mutexOwner);
          RestorePriorityChain(mutexOwner);
        }
      }
    }

    method TickAllTasks()
      requires NoSelfWait(tasks[..], mutexes[..])
      modifies tasks
      ensures tasks[..] == TickTasks(old(tasks[..]), mutexes[..], kernelTicks, 0)
    {
      ghost var ts := tasks[..];
      var index := 0;
      while index < tasks.Length
        invariant index <= tasks.Length && NoSelfWait(tasks[..], mutexes[..])
        invariant TickTasks(tasks[..], mutexes[..], kernelTicks, index) == TickTasks(ts, mutexes[..], kernelTicks, 0)
      {
        hide TickTask, NoSelfWait;
        TickOneTask(index);
        index := index + 1;
      }
    }

    method WakeTimerService()
      requires apps < tasks.Length
      modifies tasks
      ensures tasks[..] == WakeService(old(tasks[..]), apps)
    {
      if tasks[apps].state.Blocked? && tasks[apps].waitObject == ServiceRef && tasks[apps].waitKind.ServiceWait? {
        tasks[apps] := WaitEnd(tasks[apps], true);
        assert tasks[..] == old(tasks[..])[apps := WaitEnd(old(tasks[..])[apps], true)];
      }
    }

    /** The list of linked timers, front to back. */
    ghost function Linked(): (r: seq<int>)
      requires Graph.Valid(TimerLinks(timers[..])) && ValidNode(TimerLinks(timers[..]), timerList)
      reads this, timers
      ensures forall i | i in r :: 0 <= i < timers.Length
    {
      IntrusiveList.Order(TimerLinks(timers[..]), timerList)
    }

    ghost predicate TimerListOk()
      reads this, timers
    {
      && Graph.Valid(TimerLinks(timers[..])) && ValidNode(TimerLinks(timers[..]), timerList)
      && Ends(TimerLinks(timers[..]), timerList)
    }

    /** One linked timer at this tick. */
    method FireTimer(timer: nat)
      requires apps < tasks.Length && timer < timers.Length
      modifies tasks, timers
      ensures timers[..] == old(timers[..])[timer := Fire(old(timers[timer]), kernelTicks)]
      ensures tasks[..] == if RingsNow(old(timers[timer]), kernelTicks) then WakeService(old(tasks[..]), apps)
              else old(tasks[..])
    {
      hide WakeService;
      if timers[timer].active && Wrap(kernelTicks - timers[timer].deadline) < 0x8000_0000 {
        timers[timer] := timers[timer].(expirations := Wrap(timers[timer].expirations + 1));
        if timers[timer].callback != 0 {
          WakeTimerService();
        }
        if timers[timer].periodic {
          timers[timer] := timers[timer].(deadline := Wrap(timers[timer].deadline + timers[timer].period));
        } else {
          timers[timer] := timers[timer].(active := false);
        }
      }
    }

    method KernelTimerTick()
      requires apps < tasks.Length && TimerListOk()
      modifies tasks, timers
      ensures timers[..] == FireAll(old(timers[..]), old(Linked()), kernelTicks)
      ensures tasks[..]
              == if CallsBack(old(timers[..]), old(Linked()), kernelTicks) then WakeService(old(tasks[..]), apps)
                 else old(tasks[..])
    {
      hide WakeService, FireAll, CallsBack, Fire, RingsNow, IntrusiveList.Order;
      ghost var ts, us, links, order := tasks[..], timers[..], TimerLinks(timers[..]), Linked();
      ghost var j: nat := 0;
      IntrusiveList.Follow(links, timerList, 0);
      IntrusiveList.EndingDistinct(links, timerList);
      FireNone(us, order, kernelTicks);
      var timer := timerList;
      while timer != -1
        invariant j <= |order| && timer == IntrusiveList.At(order, j)
        invariant j < |order| ==> 0 <= order[j] < timers.Length
        invariant timers[..] == FireAll(us, order[..j], kernelTicks)
        invariant tasks[..] == if CallsBack(us, order[..j], kernelTicks) then WakeService(ts, apps) else ts
        decreases |order| - j
      {
        FireNext(us, order, j, kernelTicks);
        WakeOnce(ts, apps);
        FireTimer(timer);
        IntrusiveList.Follow(links, timerList, j);
        IntrusiveList.Follow(links, timerList, j + 1);
        FireLinks(us, order[..j + 1], kernelTicks, timer);
        j := j + 1;
        timer := timers[timer].next;
      }
      assert order[..j] == order;
    }

    // ---- the object lists ----

    ghost predicate MutexListEnds()
      reads this, mutexes
    {
      && Graph.Valid(MutexLinks(mutexes[..])) && ValidNode(MutexLinks(mutexes[..]), mutexList)
      && Ends(MutexLinks(mutexes[..]), mutexList)
    }

    method MutexIsLinked(m: nat) returns (linked: bool)
      requires MutexListEnds() && m < mutexes.Length
      ensures linked <==> m in IntrusiveList.Order(MutexLinks(mutexes[..]), mutexList)
    {
      ghost var links := MutexLinks(mutexes[..]);
      ghost var order := IntrusiveList.Order(links, mutexList);
      hide IntrusiveList.Order;
      ghost var j: nat := 0;
      IntrusiveList.Follow(links, mutexList, 0);
      var x := mutexList;
      while x != -1
        invariant j <= |order| && x == IntrusiveList.At(order, j)
        invariant j < |order| ==> 0 <= order[j] < mutexes.Length
        invariant m !in order[..j]
        decreases |order| - j
      {
        if x == m {
          return true;
        }
        assert order[..j + 1] == order[..j] + [x];
        IntrusiveList.Follow(links, mutexList, j);
        IntrusiveList.Follow(links, mutexList, j + 1);
        j := j + 1;
        x := mutexes[x].next;
      }
      assert order[..j] == order;
      return false;
    }

    method TimerIsLinked(t: nat) returns (linked: bool)
      requires TimerListOk() && t < timers.Length
      ensures linked <==> t in Linked()
    {
      ghost var links := TimerLinks(timers[..]);
      ghost var order := Linked();
      hide IntrusiveList.Order;
      ghost var j: nat := 0;
      IntrusiveList.Follow(links, timerList, 0);
      var x := timerList;
      while x != -1
        invariant j <= |order| && x == IntrusiveList.At(order, j)
        invariant j < |order| ==> 0 <= order[j] < timers.Length
        invariant t !in order[..j]
        decreases |order| - j
      {
        if x == t {
          return true;
        }
        assert order[..j + 1] == order[..j] + [x];
        IntrusiveList.Follow(links, timerList, j);
        IntrusiveList.Follow(links, timerList, j + 1);
        j := j + 1;
        x := timers[x].next;
      }
      assert order[..j] == order;
      return false;
    }

    /** The first linked timer with callback work. */
    method FindClaim() returns (timer: int)
      requires TimerListOk()
      ensures timer == FirstClaim(timers[..], Linked())
    {
      ghost var links := TimerLinks(timers[..]);
      ghost var order := Linked();
      hide IntrusiveList.Order;
      ghost var j: nat := 0;
      IntrusiveList.Follow(links, timerList, 0);
      timer := timerList;
      assert order[0..] == order;
      SuffixIn(order, 0);
      while timer != -1
        invariant j <= |order| && timer == IntrusiveList.At(order, j)
        invariant j < |order| ==> 0 <= order[j] < timers.Length
        invariant Suffix(order, j) && forall i | i in order :: 0 <= i < timers.Length
        invariant FirstClaim(timers[..], order[j..]) == FirstClaim(timers[..], order)
        decreases |order| - j
      {
        if timers[timer].callback != 0 && timers[timer].expirations != 0 {
          return;
        }
        assert order[j..][1..] == order[j + 1..];
        SuffixIn(order, j + 1);
        IntrusiveList.Follow(links, timerList, j);
        IntrusiveList.Follow(links, timerList, j + 1);
        j := j + 1;
        timer := timers[timer].next;
      }
    }

    // ---- the runtime checker ----

    method CheckTasks() returns (v: Violation)
      ensures v == TasksViolation(tasks[..], 0)
    {
      var index := 0;
      while index < tasks.Length
        invariant index <= tasks.Length
        invariant TasksViolation(tasks[..], index) == TasksViolation(tasks[..], 0)
      {
        var t := tasks[index];
        if t.state.Blocked? {
          if t.waitObject.NullObject? {
            return BlockedWaitObject;
          }
          if t.waitKind.NoWait? {
            return BlockedWaitKind;
          }
        } else if !t.waitObject.NullObject? || !t.waitKind.NoWait? || t.waitStart != 0 || t.waitDeadline != 0
            || t.waitForever {
          return NonblockedMetadata;
        }
        index := index + 1;
      }
      return NoViolation;
    }

    method CheckSync() returns (v: Violation)
      requires Graph.Valid(MutexLinks(mutexes[..])) && ValidNode(MutexLinks(mutexes[..]), mutexList)
      ensures v == if !Ends(MutexLinks(mutexes[..]), mutexList) then MutexListCycle
                   else MutexesViolation(mutexes[..], IntrusiveList.Order(MutexLinks(mutexes[..]), mutexList),
                       tasks.Length)
    {
      var cyclic, at := IntrusiveList.FindCycle(MutexLinks(mutexes[..]), mutexList);
      if cyclic {
        return MutexListCycle;
      }
      ghost var links := MutexLinks(mutexes[..]);
      ghost var order := IntrusiveList.Order(links, mutexList);
      hide IntrusiveList.Order;
      ghost var j: nat := 0;
      IntrusiveList.Follow(links, mutexList, 0);
      var x := mutexList;
      assert order[0..] == order;
      SuffixIn(order, 0);
      while x != -1
        invariant j <= |order| && x == IntrusiveList.At(order, j)
        invariant j < |order| ==> 0 <= order[j] < mutexes.Length
        invariant Suffix(order, j) && forall i | i in order :: 0 <= i < mutexes.Length
        invariant MutexesViolation(mutexes[..], order[j..], tasks.Length)
                  == MutexesViolation(mutexes[..], order, tasks.Length)
        decreases |order| - j
      {
        if !mutexes[x].locked {
          if mutexes[x].owner != NO_OWNER || mutexes[x].recursion != 0 {
            return MutexUnlockedState;
          }
        } else {
          if mutexes[x].owner >= tasks.Length {
            return MutexOwner;
          }
          if mutexes[x].recursion == 0 {
            return MutexRecursion;
          }
        }
        assert order[j..][1..] == order[j + 1..];
        SuffixIn(order, j + 1);
        IntrusiveList.Follow(links, mutexList, j);
        IntrusiveList.Follow(links, mutexList, j + 1);
        j := j + 1;
        x := mutexes[x].next;
      }
      return NoViolation;
    }

    method CheckTimers() returns (v: Violation)
      requires Graph.Valid(TimerLinks(timers[..])) && ValidNode(TimerLinks(timers[..]), timerList)
      ensures v == if !Ends(TimerLinks(timers[..]), timerList) then TimerListCycle
              else TimersViolation(timers[..], Linked())
    {
      var cyclic, at := IntrusiveList.FindCycle(TimerLinks(timers[..]), timerList);
      if cyclic {
        return TimerListCycle;
      }
      ghost var links := TimerLinks(timers[..]);
      ghost var order := Linked();
      hide IntrusiveList.Order;
      ghost var j: nat := 0;
      IntrusiveList.Follow(links, timerList, 0);
      var x := timerList;
      assert order[0..] == order;
      SuffixIn(order, 0);
      while x != -1
        invariant j <= |order| && x == IntrusiveList.At(order, j)
        invariant j < |order| ==> 0 <= order[j] < timers.Length
        invariant Suffix(order, j) && forall i | i in order :: 0 <= i < timers.Length
        invariant TimersViolation(timers[..], order[j..]) == TimersViolation(timers[..], order)
        decreases |order| - j
      {
        if (timers[x].periodic && timers[x].period == 0) || (!timers[x].periodic && timers[x].period != 0) {
          return TimerPeriodicState;
        }
        assert order[j..][1..] == order[j + 1..];
        SuffixIn(order, j + 1);
        IntrusiveList.Follow(links, timerList, j);
        IntrusiveList.Follow(links, timerList, j + 1);
        j := j + 1;
        x := timers[x].next;
      }
      return NoViolation;
    }

    /** What the checker reports for the current memory, whatever it holds. */
    method CheckInvariants() returns (v: Violation)
      requires ListsValid(Abs())
      ensures v == Check(Abs())
    {
      hide MutexesViolation, TimersViolation, TasksViolation, IntrusiveList.Order, Ends;
      v := CheckTasks();
      if v == NoViolation {
        v := CheckSync();
        if v == NoViolation {
          v := CheckTimers();
        }
      }
    }

    // ---- the context switch ----

    method BestReadyPriority() returns (best: int)
      requires current < tasks.Length
      ensures best == BestReady(tasks[..], current, tasks.Length)
    {
      best := 0;
      var offset := 0;
      while offset < tasks.Length
        invariant offset <= tasks.Length
        invariant best == BestReady(tasks[..], current, offset)
      {
        var next := (current + offset) % tasks.Length;
        if tasks[next].state.Ready? && tasks[next].priority > best {
          best := tasks[next].priority;
        }
        offset := offset + 1;
      }
    }

    method NextReady(best: int) returns (next: int)
      requires current < tasks.Length
      ensures next == FirstReady(tasks[..], current, best, 1)
    {
      var offset := 1;
      while offset <= tasks.Length
        invariant 1 <= offset <= tasks.Length + 1
        invariant FirstReady(tasks[..], current, best, offset) == FirstReady(tasks[..], current, best, 1)
      {
        next := (current + offset) % tasks.Length;
        if tasks[next].state.Ready? && tasks[next].priority == best {
          return;
        }
        offset := offset + 1;
      }
      return -1;
    }

    // ---- exceptions ----

    /** The timer pass and the task pass of a tick. */
    method AdvanceTasks(ghost s0: State)
      requires Inv(s0) && Wf(s0) && Apart() && kernelTicks == Wrap(ticks) && Abs() == s0.(ticks := s0.ticks + 1)
      modifies tasks, timers
      ensures Abs() == Tick(s0)
    {
      hide Inv, NoSelfWait, TickTasks, FireAll, CallsBack, WakeService, TimerTick, Ends, IntrusiveList.Order;
      ghost var s1 := Abs();
      Facts(s0);
      TickFacts(s0);
      ClockWf(s0);
      TimerTickUnfolds(s1);
      KernelTimerTick();
      assert Abs() == TimerTick(s1);
      TickAllTasks();
    }

    /** The tick handler; v is what the runtime checker at its end reports. */
    method TickHandler() returns (v: Violation)
      requires Valid() && started
      modifies `kernelTicks, `ticks, tasks, timers
      ensures Valid() && Abs() == Next(old(Abs()), TickStep).0
      ensures v == NoViolation
    {
      hide Next, Inv, NoSelfWait, TickTasks, FireAll, CallsBack, WakeService, Check, TimerTick, Ends, Tick,
          IntrusiveList.Order;
      ghost var s0 := Abs();
      Facts(s0);
      TickFacts(s0);
      StepKeepsInv(s0, TickStep);
      NextTick(s0);
      WrapTwice(ticks, 1);
      kernelTicks := Wrap(kernelTicks + 1);
      ticks := ticks + 1;
      AdvanceTasks(s0);
      CleanAfter(Abs());
      v := CheckInvariants();
    }

    /** The context switch. */
    method PendsvSwitch()
      requires Valid() && started
      modifies `current, tasks
      ensures Valid() && Abs() == Next(old(Abs()), SwitchStep).0
    {
      hide Next, Inv, BestReady, FirstReady;
      ghost var s0 := Abs();
      Facts(s0);
      StepKeepsInv(s0, SwitchStep);
      NextSwitch(s0);
      if tasks[current].state.Running? {
        tasks[current] := tasks[current].(state := Ready);
      }
      assert tasks[..] == Preempt(s0.tasks, current);
      hide Preempt;
      var best := BestReadyPriority();
      var next := NextReady(best);
      if next >= 0 {
        current := next;
      }
      ghost var ts := tasks[..];
      tasks[current] := tasks[current].(state := Running);
      assert tasks[..] == ts[current := ts[current].(state := Running)];
    }

    // ---- blocking ----

    /** The deadline of a call, taken at its entry. */
    method TaskWaitDeadline(timeout: Word) returns (d: Deadline)
      requires kernelTicks == Wrap(ticks)
      ensures d == MakeDeadline(Wrap(ticks), timeout)
    {
      d := Deadline(kernelTicks, Wrap(kernelTicks + timeout), timeout == WAIT_FOREVER);
    }

    method TaskWaitBegin(obj: Object, kind: WaitKind, d: Deadline, call: Call)
      requires current < tasks.Length
      modifies tasks
      ensures tasks[..] == old(tasks[..])[current := WaitBegin(old(tasks[current]), obj, kind, d, call)]
    {
      tasks[current] := tasks[current].(waitObject := obj, waitKind := kind);
      tasks[current] := tasks[current].(waitStart := d.start, waitDeadline := d.tick, waitForever := d.forever);
      tasks[current] := tasks[current].(waitResult := false, state := Blocked, call := call);
    }

    /** Blocks the caller only while its deadline is ahead, and fails only when the ticks since its API entry have
        reached the timeout. */
    method TaskBlockUntil(obj: Object, kind: WaitKind, d: Deadline, call: Call) returns (out: Outcome)
      requires current < tasks.Length && kernelTicks == Wrap(ticks)
      modifies tasks
      ensures
        var late := Expired(kernelTicks, d);
        && out == (if late then Status(false) else Pending)
        && tasks[..] == if late then old(tasks[..])
           else old(tasks[..])[current := WaitBegin(old(tasks[current]), obj, kind, d, call)]
      ensures out.Pending? ==> !TimedOut(tasks[current], kernelTicks)
      ensures forall entered: nat, timeout: Word
                {:trigger MakeDeadline(Wrap(entered), timeout)} | entered <= ticks
                    && d == MakeDeadline(Wrap(entered), timeout) ::
                out == Status(false) <==> timeout != WAIT_FOREVER && (ticks - entered) % WORD >= timeout
    {
      hide Wrap, MakeDeadline;
      EntryElapsed(ticks, d);
      if !d.forever && Wrap(kernelTicks - d.start) >= Wrap(d.tick - d.start) {
        return Status(false);
      }
      TaskWaitBegin(obj, kind, d, call);
      return Pending;
    }

    // ---- mutexes ----

    method MutexCreate(m: nat)
      requires Valid() && Legal(Abs(), CreateMutexStep(m))
      modifies `mutexList, mutexes
      ensures Valid() && Abs() == Next(old(Abs()), CreateMutexStep(m)).0
    {
      hide Next, Inv, IntrusiveList.Order, Ends;
      ghost var s0 := Abs();
      Facts(s0);
      StepKeepsInv(s0, CreateMutexStep(m));
      NextCreateMutex(s0, m);
      var linked := MutexIsLinked(m);
      var next := if linked then mutexes[m].next else -1;
      mutexes[m] := Mutex(false, NO_OWNER, 0, next);
      if !linked {
        mutexes[m] := mutexes[m].(next := mutexList);
        mutexList := m;
      }
      assert mutexes[..] == CreateMutex(s0, m).mutexes;
    }

    method MutexLock(m: nat, timeout: Word, d: Deadline, ghost entered: nat) returns (out: Outcome)
      requires Valid() && Legal(Abs(), LockStep(m, entered, timeout)) && d == MakeDeadline(Wrap(entered), timeout)
      modifies tasks, mutexes
      ensures Valid() && (Abs(), out) == Next(old(Abs()), LockStep(m, entered, timeout))
    {
      hide Next, Inv, InheritPriority;
      ghost var s0 := Abs();
      Facts(s0);
      StepKeepsInv(s0, LockStep(m, entered, timeout));
      NextLock(s0, m, entered, timeout);
      if !mutexes[m].locked {
        mutexes[m] := mutexes[m].(locked := true, owner := current, recursion := 1);
        return Status(true);
      }
      if mutexes[m].owner == current {
        mutexes[m] := mutexes[m].(recursion := Wrap(mutexes[m].recursion + 1));
        return Status(true);
      }
      if timeout == 0 {
        return Status(false);
      }
      TaskInheritPriority(mutexes[m].owner, tasks[current].priority);
      out := TaskBlockUntil(MutexRef(m), MutexWait, d, LockCall(m));
    }

    method MutexUnlock(m: nat) returns (out: Outcome)
      requires Valid() && Legal(Abs(), UnlockStep(m))
      modifies tasks, mutexes
      ensures Valid() && (Abs(), out) == Next(old(Abs()), UnlockStep(m))
    {
      hide Next, Inv, RestorePriority, Wake, NoSelfWait;
      ghost var s0 := Abs();
      Facts(s0);
      StepKeepsInv(s0, UnlockStep(m));
      NextUnlock(s0, m);
      if !mutexes[m].locked || mutexes[m].owner != current {
        return Status(false);
      }
      if mutexes[m].recursion > 1 {
        mutexes[m] := mutexes[m].(recursion := mutexes[m].recursion - 1);
        return Status(true);
      }
      ReleasedFacts(s0, m);
      var owner: nat := mutexes[m].owner;
      var next := TaskWakeGetId(MutexRef(m), MutexWait);
      if next >= 0 {
        mutexes[m] := mutexes[m].(owner := next, locked := true, recursion := 1);
      } else {
        mutexes[m] := mutexes[m].(owner := NO_OWNER, locked := false, recursion := 0);
      }
      assert Abs() == Transferred(s0, m);
      ghost var ts := tasks[..];
      RecomputedVectors(ts, mutexes[..], owner);
      TaskRestorePriority(owner);
      if next >= 0 {
        TaskRestorePriority(next);
      }
      return Status(true);
    }

    /** The rest of a lock or take call, after the context switch back: its result is the wait's. */
    method WaitReturn() returns (out: Outcome)
      requires Valid() && Legal(Abs(), ContinueStep)
      requires tasks[current].call.LockCall? || tasks[current].call.TakeCall?
      modifies tasks
      ensures Valid() && (Abs(), out) == Next(old(Abs()), ContinueStep)
    {
      hide Next, Inv;
      ghost var s0 := Abs();
      Facts(s0);
      StepKeepsInv(s0, ContinueStep);
      NextContinue(s0);
      out := Status(tasks[current].waitResult);
      tasks[current] := tasks[current].(call := NoCall);
    }

    // ---- semaphores ----

    method SemaphoreCreate(x: nat, available: bool)
      requires Valid() && Legal(Abs(), CreateSemaphoreStep(x, available))
      modifies semaphores
      ensures Valid() && Abs() == Next(old(Abs()), CreateSemaphoreStep(x, available)).0
    {
      hide Inv;
      Facts(Abs());
      StepKeepsInv(Abs(), CreateSemaphoreStep(x, available));
      semaphores[x] := available;
    }

    method SemaphoreTake(x: nat, timeout: Word, d: Deadline, ghost entered: nat) returns (out: Outcome)
      requires Valid() && Legal(Abs(), TakeStep(x, entered, timeout)) && d == MakeDeadline(Wrap(entered), timeout)
      modifies tasks, semaphores
      ensures Valid() && (Abs(), out) == Next(old(Abs()), TakeStep(x, entered, timeout))
    {
      hide Next, Inv;
      Facts(Abs());
      StepKeepsInv(Abs(), TakeStep(x, entered, timeout));
      NextTake(Abs(), x, entered, timeout);
      if semaphores[x] {
        semaphores[x] := false;
        return Status(true);
      }
      if timeout == 0 {
        return Status(false);
      }
      out := TaskBlockUntil(SemaphoreRef(x), SemaphoreWait, d, TakeCall(x));
    }

    method SemaphoreGive(x: nat)
      requires Valid() && Legal(Abs(), GiveStep(x))
      modifies tasks, semaphores
      ensures Valid() && Abs() == Next(old(Abs()), GiveStep(x)).0
    {
      hide Next, Inv, Wake;
      Facts(Abs());
      StepKeepsInv(Abs(), GiveStep(x));
      NextGive(Abs(), x);
      WakeNobody(tasks[..], SemaphoreRef(x), SemaphoreWait);
      var woken := TaskWakeGetId(SemaphoreRef(x), SemaphoreWait);
      if woken < 0 {
        semaphores[x] := true;
      }
    }

    // ---- queues ----

    method QueueCreate(q: nat, storage: seq<Byte>, capacity: Word, itemSize: Word)
      requires Valid() && Legal(Abs(), CreateQueueStep(q, storage, capacity, itemSize))
      modifies queues
      ensures Valid() && Abs() == Next(old(Abs()), CreateQueueStep(q, storage, capacity, itemSize)).0
    {
      hide Inv;
      Facts(Abs());
      StepKeepsInv(Abs(), CreateQueueStep(q, storage, capacity, itemSize));
      queues[q] := Queue(storage, capacity, itemSize, 0, 0, 0, 0, 0);
    }

    /** Copy an item, byte by byte, into the slot at head. */
    method CopyIn(q: nat, item: seq<Byte>)
      requires q < queues.Length && QueueShape(queues[q]) && Usable(queues[q]) && |item| == queues[q].itemSize
      modifies queues
      ensures
        var u := old(queues[q]);
        && 0 <= u.head * u.itemSize <= (u.head + 1) * u.itemSize <= |u.storage|
        && queues[..]
           == old(queues[..])[q :=
                u.(storage := u.storage[..u.head * u.itemSize] + item + u.storage[(u.head + 1) * u.itemSize..])]
    {
      var u := queues[q];
      SlotBounds(u, u.head);
      var destination: nat := u.head * u.itemSize;
      NoBytes(u.storage, item, destination);
      hide Copied, QueueShape;
      var index := 0;
      while index < u.itemSize
        invariant index <= u.itemSize
        invariant queues[..] == old(queues[..])[q := u.(storage := Copied(u.storage, item, destination, index))]
      {
        OneMoreByte(u.storage, item, destination, index);
        queues[q] := queues[q].(storage := queues[q].storage[destination + index := item[index]]);
        index := index + 1;
      }
      AllBytes(u.storage, item, destination);
    }

    /** Copy the item in the slot at tail out of the queue, byte by byte. */
    method CopyOut(q: nat) returns (item: seq<Byte>)
      requires q < queues.Length && QueueShape(queues[q]) && Usable(queues[q])
      ensures item == Slot(queues[q], queues[q].tail)
    {
      var u := queues[q];
      SlotBounds(u, u.tail);
      var source: nat := u.tail * u.itemSize;
      item := [];
      var index := 0;
      while index < u.itemSize
        invariant index <= u.itemSize
        invariant item == u.storage[source..source + index]
      {
        item := item + [u.storage[source + index]];
        index := index + 1;
      }
    }

    /** Put the item in and wake a receiver with a reservation for an item. */
    method QueueDeliver(q: nat, item: seq<Byte>, reserved: bool)
      requires Wf(Abs()) && Apart() && q < queues.Length && Usable(queues[q]) && |item| == queues[q].itemSize
      modifies tasks, queues
      ensures Abs() == Deliver(old(Abs()), q, item, reserved)
    {
      hide Wake, Wrap;
      ghost var s0 := Abs();
      CopyIn(q, item);
      if reserved {
        queues[q] := queues[q].(sendReservations := Wrap(queues[q].sendReservations - 1));
      }
      var u := queues[q];
      queues[q] := u.(head := Wrap(u.head + 1) % u.capacity, count := Wrap(u.count + 1));
      var woken := TaskWakeGetId(QueueRef(q), ReceiveWait);
      if woken >= 0 {
        queues[q] := queues[q].(receiveReservations := Wrap(queues[q].receiveReservations + 1));
      }
      assert queues[..] == Deliver(s0, q, item, reserved).queues;
    }

    /** Take the oldest item out and wake a sender with a reservation for a slot. */
    method QueueExtract(q: nat, reserved: bool) returns (item: seq<Byte>)
      requires Wf(Abs()) && Apart() && q < queues.Length && Usable(queues[q])
      modifies tasks, queues
      ensures Abs() == Extract(old(Abs()), q, reserved)
      ensures item == Slot(old(queues[q]), old(queues[q].tail))
    {
      hide Wake, Wrap;
      ghost var s0 := Abs();
      item := CopyOut(q);
      if reserved {
        queues[q] := queues[q].(receiveReservations := Wrap(queues[q].receiveReservations - 1));
      }
      var u := queues[q];
      queues[q] := u.(tail := Wrap(u.tail + 1) % u.capacity, count := Wrap(u.count - 1));
      var woken := TaskWakeGetId(QueueRef(q), SendWait);
      if woken >= 0 {
        queues[q] := queues[q].(sendReservations := Wrap(queues[q].sendReservations + 1));
      }
      assert queues[..] == Extract(s0, q, reserved).queues;
    }

    /** One round of the send loop. */
    method QueueSendRound(q: nat, item: seq<Byte>, timeout: Word, d: Deadline, reserved: bool) returns (out: Outcome)
      requires Wf(Abs()) && Apart() && kernelTicks == Wrap(ticks) && q < queues.Length && |item| == queues[q].itemSize
      modifies tasks, queues
      ensures (Abs(), out) == SendPass(old(Abs()), q, item, timeout, d, reserved)
    {
      var u := queues[q];
      if u.capacity != 0 && u.itemSize != 0 && (reserved || Wrap(u.count + u.sendReservations) < u.capacity) {
        QueueDeliver(q, item, reserved);
        return Status(true);
      }
      if timeout == 0 {
        return Status(false);
      }
      out := TaskBlockUntil(QueueRef(q), SendWait, d, SendCall(q, item, timeout, d));
    }

    /** One round of the receive loop; the source does not look at the capacity, which cannot be 0 here. */
    method QueueReceiveRound(q: nat, timeout: Word, d: Deadline, reserved: bool) returns (out: Outcome)
      requires Wf(Abs()) && Apart() && kernelTicks == Wrap(ticks) && q < queues.Length
      requires reserved || queues[q].count > queues[q].receiveReservations ==> queues[q].capacity > 0
      modifies tasks, queues
      ensures (Abs(), out) == ReceivePass(old(Abs()), q, timeout, d, reserved)
    {
      var u := queues[q];
      if u.itemSize != 0 && (reserved || u.count > u.receiveReservations) {
        var item := QueueExtract(q, reserved);
        return Item(item);
      }
      if timeout == 0 {
        return Status(false);
      }
      out := TaskBlockUntil(QueueRef(q), ReceiveWait, d, ReceiveCall(q, timeout, d));
    }

    method QueueSend(q: nat, item: seq<Byte>, timeout: Word, d: Deadline, ghost entered: nat) returns (out: Outcome)
      requires Valid() && Legal(Abs(), SendStep(q, item, entered, timeout)) && d == MakeDeadline(Wrap(entered), timeout)
      modifies tasks, queues
      ensures Valid() && (Abs(), out) == Next(old(Abs()), SendStep(q, item, entered, timeout))
    {
      hide Next, Inv, SendPass;
      Facts(Abs());
      StepKeepsInv(Abs(), SendStep(q, item, entered, timeout));
      NextSend(Abs(), q, item, entered, timeout);
      out := QueueSendRound(q, item, timeout, d, false);
    }

    /** The rest of a send call after its wait: the second round of the loop, unless the wait timed out. */
    method QueueSendReturn() returns (out: Outcome)
      requires Valid() && Legal(Abs(), ContinueStep) && tasks[current].call.SendCall?
      modifies tasks, queues
      ensures Valid() && (Abs(), out) == Next(old(Abs()), ContinueStep)
      ensures out == Status(old(tasks[current].waitResult))
    {
      hide Next, Inv, SendPass;
      ghost var s0 := Abs();
      Facts(s0);
      StepKeepsInv(s0, ContinueStep);
      NextContinue(s0);
      SecondRound(s0);
      var c := tasks[current].call;
      tasks[current] := tasks[current].(call := NoCall);
      assert Abs() == Returned(s0);
      if !tasks[current].waitResult {
        return Status(false);
      }
      out := QueueSendRound(c.queue, c.item, c.timeout, c.deadline, true);
    }

    method QueueReceive(q: nat, timeout: Word, d: Deadline, ghost entered: nat) returns (out: Outcome)
      requires Valid() && Legal(Abs(), ReceiveStep(q, entered, timeout)) && d == MakeDeadline(Wrap(entered), timeout)
      modifies tasks, queues
      ensures Valid() && (Abs(), out) == Next(old(Abs()), ReceiveStep(q, entered, timeout))
    {
      hide Next, Inv, ReceivePass;
      Facts(Abs());
      CapacityFact(Abs(), q);
      StepKeepsInv(Abs(), ReceiveStep(q, entered, timeout));
      NextReceive(Abs(), q, entered, timeout);
      out := QueueReceiveRound(q, timeout, d, false);
    }

    /** The rest of a receive call after its wait. */
    method QueueReceiveReturn() returns (out: Outcome)
      requires Valid() && Legal(Abs(), ContinueStep) && tasks[current].call.ReceiveCall?
      modifies tasks, queues
      ensures Valid() && (Abs(), out) == Next(old(Abs()), ContinueStep)
      ensures if old(tasks[current].waitResult) then out.Item? else out == Status(false)
    {
      hide Next, Inv, ReceivePass;
      ghost var s0 := Abs();
      Facts(s0);
      StepKeepsInv(s0, ContinueStep);
      NextContinue(s0);
      SecondRound(s0);
      var c := tasks[current].call;
      CapacityFact(s0, c.queue);
      tasks[current] := tasks[current].(call := NoCall);
      assert Abs() == Returned(s0);
      if !tasks[current].waitResult {
        return Status(false);
      }
      out := QueueReceiveRound(c.queue, c.timeout, c.deadline, true);
    }

    method QueueSendFromIsr(q: nat, item: seq<Byte>) returns (out: Outcome)
      requires Valid() && Legal(Abs(), SendFromIsrStep(q, item))
      modifies tasks, queues
      ensures Valid() && (Abs(), out) == Next(old(Abs()), SendFromIsrStep(q, item))
    {
      hide Next, Inv, Deliver;
      Facts(Abs());
      StepKeepsInv(Abs(), SendFromIsrStep(q, item));
      NextSendFromIsr(Abs(), q, item);
      var u := queues[q];
      if u.capacity != 0 && u.itemSize != 0 && Wrap(u.count + u.sendReservations) < u.capacity {
        QueueDeliver(q, item, false);
        return Status(true);
      }
      return Status(false);
    }

    // ---- event groups ----

    method EventGroupCreate(g: nat)
      requires Valid() && Legal(Abs(), CreateGroupStep(g))
      modifies groups
      ensures Valid() && Abs() == Next(old(Abs()), CreateGroupStep(g)).0
    {
      hide Inv;
      Facts(Abs());
      StepKeepsInv(Abs(), CreateGroupStep(g));
      groups[g] := 0;
    }

    /** Wake every waiter of the group whose condition the bits satisfy. */
    method WakeSatisfied(g: nat, bits: bv32)
      modifies tasks
      ensures tasks[..] == WakeEvents(old(tasks[..]), g, bits)
    {
      hide EventCondition;
      var index := 0;
      while index < tasks.Length
        invariant index <= tasks.Length
        invariant forall i | 0 <= i < index :: tasks[i] == WakeEvents(old(tasks[..]), g, bits)[i]
        invariant forall i | index <= i < tasks.Length :: tasks[i] == old(tasks[i])
      {
        var t := tasks[index];
        if t.state.Blocked? && t.waitKind.EventWait? && t.waitObject == GroupRef(g)
           && EventCondition(bits, t.eventBits, t.eventAll) {
          tasks[index] := WaitEnd(t, true);
        }
        index := index + 1;
      }
    }

    method EventGroupSetBits(g: nat, bits: bv32) returns (out: Outcome)
      requires Valid() && Legal(Abs(), SetBitsStep(g, bits))
      modifies tasks, groups
      ensures Valid() && (Abs(), out) == Next(old(Abs()), SetBitsStep(g, bits))
    {
      hide Next, Inv, WakeEvents, WithBits;
      ghost var s0 := Abs();
      Facts(s0);
      StepKeepsInv(s0, SetBitsStep(g, bits));
      NextSetBits(s0, g, bits);
      var b := WithBits(groups[g], bits);
      groups[g] := b;
      WakeSatisfied(g, b);
      assert groups[..] == s0.groups[g := b];
      assert Abs() == SetBits(s0, g, bits).0;
      return Bits(b);
    }

    method EventGroupWaitBits(g: nat, bits: bv32, all: bool, clear: bool, timeout: Word, ghost entered: nat)
      returns (out: Outcome)
      requires Valid() && Legal(Abs(), WaitBitsStep(g, bits, all, clear, entered, timeout))
      modifies tasks, groups
      ensures Valid() && (Abs(), out) == Next(old(Abs()), WaitBitsStep(g, bits, all, clear, entered, timeout))
    {
      hide Next, Inv, EventCondition, WithoutBits, CommonBits;
      Facts(Abs());
      StepKeepsInv(Abs(), WaitBitsStep(g, bits, all, clear, entered, timeout));
      NextWaitBits(Abs(), g, bits, all, clear, entered, timeout);
      if bits == 0 {
        return Bits(0);
      }
      var result := groups[g];
      if EventCondition(result, bits, all) {
        if clear {
          groups[g] := WithoutBits(groups[g], bits);
        }
        return Bits(CommonBits(result, bits));
      }
      if timeout == 0 {
        return Bits(0);
      }
      tasks[current] := tasks[current].(eventBits := bits, eventAll := all, eventClear := clear);
      var d := TaskWaitDeadline(timeout);
      TaskWaitBegin(GroupRef(g), EventWait, d, WaitBitsCall(g, bits));
      return Pending;
    }

    method EventGroupWaitReturn() returns (out: Outcome)
      requires Valid() && Legal(Abs(), ContinueStep) && tasks[current].call.WaitBitsCall?
      modifies tasks, groups
      ensures Valid() && (Abs(), out) == Next(old(Abs()), ContinueStep)
    {
      hide Next, Inv, EventCondition, WithoutBits, CommonBits;
      ghost var s0 := Abs();
      Facts(s0);
      StepKeepsInv(s0, ContinueStep);
      NextContinue(s0);
      var c := tasks[current].call;
      var b := groups[c.group];
      if EventCondition(b, c.bits, tasks[current].eventAll) && tasks[current].eventClear {
        groups[c.group] := WithoutBits(b, c.bits);
      }
      tasks[current] := tasks[current].(call := NoCall);
      assert tasks[..] == s0.tasks[current := Current(s0).(call := NoCall)];
      return Bits(CommonBits(b, c.bits));
    }

    // ---- notifications ----

    method TaskNotify(id: nat, value: Word) returns (out: Outcome)
      requires Valid() && Legal(Abs(), NotifyStep(id, value))
      modifies tasks
      ensures Valid() && (Abs(), out) == Next(old(Abs()), NotifyStep(id, value))
    {
      hide Next, Inv;
      Facts(Abs());
      StepKeepsInv(Abs(), NotifyStep(id, value));
      NextNotify(Abs(), id, value);
      if id >= tasks.Length {
        return Status(false);
      }
      tasks[id] := tasks[id].(notification := Wrap(tasks[id].notification + value));
      if tasks[id].state.Blocked? && tasks[id].waitKind.NotificationWait? {
        tasks[id] := WaitEnd(tasks[id], true);
      }
      assert tasks[..] == Notify(old(Abs()), id, value).0.tasks;
      return Status(true);
    }

    method TaskNotifyTake(timeout: Word, ghost entered: nat) returns (out: Outcome)
      requires Valid() && Legal(Abs(), TakeNotificationStep(entered, timeout))
      modifies tasks
      ensures Valid() && (Abs(), out) == Next(old(Abs()), TakeNotificationStep(entered, timeout))
    {
      hide Next, Inv;
      Facts(Abs());
      StepKeepsInv(Abs(), TakeNotificationStep(entered, timeout));
      NextTakeNotification(Abs(), entered, timeout);
      var notification := tasks[current].notification;
      if notification != 0 {
        tasks[current] := tasks[current].(notification := 0);
        return Value(notification);
      }
      if timeout == 0 {
        return Status(false);
      }
      var d := TaskWaitDeadline(timeout);
      TaskWaitBegin(TaskRef(current), NotificationWait, d, NotifyCall);
      return Pending;
    }

    method TaskNotifyReturn() returns (out: Outcome)
      requires Valid() && Legal(Abs(), ContinueStep) && tasks[current].call.NotifyCall?
      modifies tasks
      ensures Valid() && (Abs(), out) == Next(old(Abs()), ContinueStep)
    {
      hide Next, Inv;
      Facts(Abs());
      StepKeepsInv(Abs(), ContinueStep);
      NextContinue(Abs());
      var notification := tasks[current].notification;
      tasks[current] := tasks[current].(notification := 0);
      tasks[current] := tasks[current].(call := NoCall);
      assert tasks[..] == Continue(old(Abs())).0.tasks;
      return if notification != 0 then Value(notification) else Status(false);
    }

    // ---- delay, suspension, start ----

    method SleepCurrent(delay: Word)
      requires Valid() && Legal(Abs(), DelayStep(delay))
      modifies tasks
      ensures Valid() && Abs() == Next(old(Abs()), DelayStep(delay)).0
    {
      hide Next, Inv;
      Facts(Abs());
      StepKeepsInv(Abs(), DelayStep(delay));
      NextDelay(Abs(), delay);
      tasks[current] := tasks[current].(sleepTicks := delay);
      tasks[current] := tasks[current].(state := if delay == 0 then Ready else Sleeping);
      assert tasks[..] == Delay(old(Abs()), delay).tasks;
    }

    method TaskSuspend(requested: Word) returns (out: Outcome)
      requires Valid() && Legal(Abs(), SuspendStep(requested))
      modifies tasks
      ensures Valid() && (Abs(), out) == Next(old(Abs()), SuspendStep(requested))
    {
      hide Next, Inv;
      Facts(Abs());
      StepKeepsInv(Abs(), SuspendStep(requested));
      NextSuspend(Abs(), requested);
      if !started {
        return Refused(InvalidContext);
      }
      var id: nat := if requested == TASK_ID_SELF then current else requested;
      if id >= apps {
        return Refused(InvalidTask);
      }
      if !tasks[id].state.Ready? && (!tasks[id].state.Running? || id != current) {
        return Refused(InvalidState);
      }
      tasks[id] := tasks[id].(state := Suspended);
      return Status(true);
    }

    method TaskResume(id: Word) returns (out: Outcome)
      requires Valid() && Legal(Abs(), ResumeStep(id))
      modifies tasks
      ensures Valid() && (Abs(), out) == Next(old(Abs()), ResumeStep(id))
    {
      hide Next, Inv;
      Facts(Abs());
      StepKeepsInv(Abs(), ResumeStep(id));
      NextResume(Abs(), id);
      if !started {
        return Refused(InvalidContext);
      }
      if id >= apps {
        return Refused(InvalidTask);
      }
      if !tasks[id].state.Suspended? {
        return Refused(InvalidState);
      }
      tasks[id] := tasks[id].(state := Ready);
      return Status(true);
    }

    method KernelStart()
      requires Valid() && Legal(Abs(), StartStep)
      modifies `started
      ensures Valid() && Abs() == Next(old(Abs()), StartStep).0
    {
      hide Inv;
      Facts(Abs());
      StepKeepsInv(Abs(), StartStep);
      started := true;
    }

    // ---- timers ----

    /** Link the timer unless it is linked. */
    method TimerLink(t: nat)
      requires TimerListOk() && t < timers.Length
      modifies `timerList, timers
      ensures
        if t in old(Linked()) then timers[..] == old(timers[..]) && timerList == old(timerList)
        else timers[..] == old(timers[..])[t := old(timers[t]).(next := old(timerList))] && timerList == t
    {
      var linked := TimerIsLinked(t);
      if !linked {
        timers[t] := timers[t].(next := timerList);
        timerList := t;
      }
    }

    method TimerCreate(t: nat)
      requires Valid() && Legal(Abs(), CreateTimerStep(t))
      modifies `timerList, timers
      ensures Valid() && Abs() == Next(old(Abs()), CreateTimerStep(t)).0
    {
      hide Next, Inv, IntrusiveList.Order, Ends;
      ghost var s0 := Abs();
      Facts(s0);
      StepKeepsInv(s0, CreateTimerStep(t));
      NextCreateTimer(s0, t);
      var linked := TimerIsLinked(t);
      var next := if linked then timers[t].next else -1;
      timers[t] := Timer(0, 0, 0, 0, false, false, 0, 0, next);
      if !linked {
        timers[t] := timers[t].(next := timerList);
        timerList := t;
      }
      assert timers[..] == CreateTimer(s0, t).timers;
    }

    method TimerStart(t: nat, delay: Word)
      requires Valid() && Legal(Abs(), StartTimerStep(t, delay))
      modifies `timerList, timers
      ensures Valid() && Abs() == Next(old(Abs()), StartTimerStep(t, delay)).0
    {
      hide Next, Inv, IntrusiveList.Order, Ends;
      ghost var s0 := Abs();
      Facts(s0);
      StepKeepsInv(s0, StartTimerStep(t, delay));
      NextStartTimer(s0, t, delay);
      TimerLink(t);
      timers[t] := timers[t].(deadline := Wrap(kernelTicks + delay), period := 0, reload := delay,
        periodic := false, active := true);
      assert timers[..] == StartTimer(s0, t, delay).timers;
    }

    method TimerStartPeriodic(t: nat, period: Word)
      requires Valid() && Legal(Abs(), StartPeriodicStep(t, period))
      modifies `timerList, timers
      ensures Valid() && Abs() == Next(old(Abs()), StartPeriodicStep(t, period)).0
    {
      hide Next, Inv, IntrusiveList.Order, Ends;
      ghost var s0 := Abs();
      Facts(s0);
      StepKeepsInv(s0, StartPeriodicStep(t, period));
      NextStartPeriodic(s0, t, period);
      if period == 0 {
        return;
      }
      TimerLink(t);
      timers[t] := timers[t].(deadline := Wrap(kernelTicks + period), period := period, reload := period,
        periodic := true, active := true);
      assert timers[..] == StartPeriodic(s0, t, period).timers;
    }

    method TimerRestart(t: nat)
      requires Valid() && Legal(Abs(), RestartTimerStep(t))
      modifies `timerList, timers
      ensures Valid() && Abs() == Next(old(Abs()), RestartTimerStep(t)).0
    {
      hide Next, Inv, IntrusiveList.Order, Ends;
      ghost var s0 := Abs();
      Facts(s0);
      StepKeepsInv(s0, RestartTimerStep(t));
      NextRestartTimer(s0, t);
      if timers[t].reload != 0 {
        TimerLink(t);
        timers[t] := timers[t].(deadline := Wrap(kernelTicks + timers[t].reload), active := true);
        assert timers[..] == RestartTimer(s0, t).timers;
      }
    }

    method TimerStop(t: nat)
      requires Valid() && Legal(Abs(), StopTimerStep(t))
      modifies timers
      ensures Valid() && Abs() == Next(old(Abs()), StopTimerStep(t)).0
    {
      hide Next, Inv;
      Facts(Abs());
      StepKeepsInv(Abs(), StopTimerStep(t));
      NextStopTimer(Abs(), t);
      timers[t] := timers[t].(active := false);
    }

    method TimerSetCallback(t: nat, callback: nat, argument: nat)
      requires Valid() && Legal(Abs(), SetCallbackStep(t, callback, argument))
      modifies tasks, timers
      ensures Valid() && Abs() == Next(old(Abs()), SetCallbackStep(t, callback, argument)).0
    {
      hide Next, Inv, WakeService;
      Facts(Abs());
      StepKeepsInv(Abs(), SetCallbackStep(t, callback, argument));
      NextSetCallback(Abs(), t, callback, argument);
      timers[t] := timers[t].(callback := callback, argument := argument);
      if callback != 0 && timers[t].expirations != 0 {
        WakeTimerService();
      }
    }

    method TimerTakeExpirations(t: nat) returns (out: Outcome)
      requires Valid() && Legal(Abs(), TakeExpirationsStep(t))
      modifies timers
      ensures Valid() && (Abs(), out) == Next(old(Abs()), TakeExpirationsStep(t))
    {
      hide Next, Inv;
      Facts(Abs());
      StepKeepsInv(Abs(), TakeExpirationsStep(t));
      NextTakeExpirations(Abs(), t);
      out := Value(timers[t].expirations);
      timers[t] := timers[t].(expirations := 0);
    }

    method TimerDispatch(t: nat) returns (out: Outcome)
      requires Valid() && Legal(Abs(), DispatchStep(t))
      modifies timers
      ensures Valid() && (Abs(), out) == Next(old(Abs()), DispatchStep(t))
    {
      hide Next, Inv;
      Facts(Abs());
      StepKeepsInv(Abs(), DispatchStep(t));
      NextDispatch(Abs(), t);
      var expirations := timers[t].expirations;
      if timers[t].callback == 0 {
        return Value(0);
      }
      timers[t] := timers[t].(expirations := 0);
      return Value(expirations);
    }

    method TimerServiceClaim() returns (out: Outcome)
      requires Valid() && Legal(Abs(), ServiceClaimStep)
      modifies tasks, timers
      ensures Valid() && (Abs(), out) == Next(old(Abs()), ServiceClaimStep)
    {
      hide Next, Inv, FirstClaim, IntrusiveList.Order, Ends;
      ghost var s0 := Abs();
      Facts(s0);
      StepKeepsInv(s0, ServiceClaimStep);
      NextServiceClaim(s0);
      ClaimRange(s0);
      var timer := FindClaim();
      if timer >= 0 {
        out := Claim(timers[timer].callback, timers[timer].argument);
        timers[timer] := timers[timer].(expirations := timers[timer].expirations - 1);
        return;
      }
      var d := TaskWaitDeadline(WAIT_FOREVER);
      TaskWaitBegin(ServiceRef, ServiceWait, d, NoCall);
      return Pending;
    }
  }
}
