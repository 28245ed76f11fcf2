/** The kernel's own runtime invariant checker, run at the end of every tick. */
module Checker {
  import opened Types
  import opened Graph
  import opened Machine
  import opened WaitInvariant
  import MutexInvariant
  import TimerInvariant
  import IntrusiveList

  datatype Violation =
    | NoViolation
    | BlockedWaitObject
    | BlockedWaitKind
    | NonblockedMetadata
    | MutexListCycle
    | MutexUnlockedState
    | MutexOwner
    | MutexRecursion
    | TimerListCycle
    | TimerPeriodicState

  // ---- what it computes ----

  function TaskViolation(t: Task): Violation {
    if t.state.Blocked? then
      if t.waitObject.NullObject? then BlockedWaitObject
      else if t.waitKind.NoWait? then BlockedWaitKind
      else NoViolation
    else if !NoMetadata(t) then NonblockedMetadata
    else NoViolation
  }

  function MutexViolation(x: Mutex, n: nat): Violation {
    if !x.locked then
      if x.owner != NO_OWNER || x.recursion != 0 then MutexUnlockedState else NoViolation
    else if x.owner >= n then MutexOwner
    else if x.recursion == 0 then MutexRecursion
    else NoViolation
  }

  function TimerViolation(t: Timer): Violation {
    if (t.periodic && t.period == 0) || (!t.periodic && t.period != 0) then TimerPeriodicState else NoViolation
  }

  /** The first violation among tasks i, i+1, ... */
  function TasksViolation(ts: seq<Task>, i: nat): Violation
    requires i <= |ts|
    decreases |ts| - i
  {
    if i == |ts| then NoViolation
    else if TaskViolation(ts[i]) != NoViolation then TaskViolation(ts[i])
    else TasksViolation(ts, i + 1)
  }

  function MutexesViolation(ms: seq<Mutex>, order: seq<int>, n: nat): Violation
    requires forall i | i in order :: 0 <= i < |ms|
  {
    if order == [] then NoViolation
    else
      assert order[0] in order && forall i | i in order[1..] :: i in order;
      var v := MutexViolation(ms[order[0]], n);
      if v != NoViolation then v else MutexesViolation(ms, order[1..], n)
  }

  function TimersViolation(ts: seq<Timer>, order: seq<int>): Violation
    requires forall i | i in order :: 0 <= i < |ts|
  {
    if order == [] then NoViolation
    else
      assert order[0] in order && forall i | i in order[1..] :: i in order;
      var v := TimerViolation(ts[order[0]]);
      if v != NoViolation then v else TimersViolation(ts, order[1..])
  }

  function MutexOrder(s: State): seq<int>
    requires ListsValid(s)
  {
    IntrusiveList.Order(MutexLinks(s.mutexes), s.mutexList)
  }

  function SyncViolation(s: State): Violation
    requires ListsValid(s)
  {
    if !Ends(MutexLinks(s.mutexes), s.mutexList) then MutexListCycle
    else MutexesViolation(s.mutexes, MutexOrder(s), |s.tasks|)
  }

  function TimerListViolation(s: State): Violation
    requires ListsValid(s)
  {
    if !Ends(TimerLinks(s.timers), s.timerList) then TimerListCycle
    else TimersViolation(s.timers, TimerOrder(s))
  }

  /** The code the checker reports first; any but NoViolation is fatal. */
  function Check(s: State): Violation
    requires ListsValid(s)
  {
    if TasksViolation(s.tasks, 0) != NoViolation then TasksViolation(s.tasks, 0)
    else if SyncViolation(s) != NoViolation then SyncViolation(s)
    else TimerListViolation(s)
  }

  // ---- what it means ----

  lemma {:induction false} TasksClean(ts: seq<Task>, i: nat)
    requires i <= |ts|
    ensures TasksViolation(ts, i) == NoViolation <==> forall k | i <= k < |ts| :: TaskViolation(ts[k]) == NoViolation
    decreases |ts| - i
  {
    if i < |ts| {
      TasksClean(ts, i + 1);
    }
  }

  lemma {:induction false} MutexesClean(ms: seq<Mutex>, order: seq<int>, n: nat)
    requires forall i | i in order :: 0 <= i < |ms|
    ensures MutexesViolation(ms, order, n) == NoViolation <==>
            forall i | i in order :: MutexViolation(ms[i], n) == NoViolation
    decreases |order|
  {
    if order != [] {
      assert forall i | i in order :: i == order[0] || i in order[1..];
      assert order[0] in order && forall i | i in order[1..] :: i in order;
      MutexesClean(ms, order[1..], n);
    }
  }

  lemma {:induction false} TimersClean(ts: seq<Timer>, order: seq<int>)
    requires forall i | i in order :: 0 <= i < |ts|
    ensures TimersViolation(ts, order) == NoViolation <==> forall i | i in order :: TimerViolation(ts[i]) == NoViolation
    decreases |order|
  {
    if order != [] {
      assert forall i | i in order :: i == order[0] || i in order[1..];
      assert order[0] in order && forall i | i in order[1..] :: i in order;
      TimersClean(ts, order[1..]);
    }
  }

  /** Wait metadata exactly on a blocked task. */
  predicate TaskClean(t: Task) {
    if t.state.Blocked? then !t.waitObject.NullObject? && !t.waitKind.NoWait?
    else t.waitObject.NullObject? && t.waitKind.NoWait? && t.waitStart == 0 && t.waitDeadline == 0 && !t.waitForever
  }

  /** A locked mutex has one of n tasks as its owner and a depth, an unlocked one has neither. */
  predicate MutexClean(x: Mutex, n: nat) {
    if x.locked then x.owner < n && x.recursion > 0 else x.owner == NO_OWNER && x.recursion == 0
  }

  predicate TimerClean(t: Timer) {
    t.periodic <==> t.period != 0
  }

  /** All conditions the checker tests, over every task and every linked object. */
  ghost predicate CleanState(s: State)
    requires ListsValid(s)
  {
    && (forall i | 0 <= i < |s.tasks| :: TaskClean(s.tasks[i]))
    && Ends(MutexLinks(s.mutexes), s.mutexList)
    && (forall m | m in MutexOrder(s) :: MutexClean(s.mutexes[m], |s.tasks|))
    && Ends(TimerLinks(s.timers), s.timerList)
    && (forall t | t in TimerOrder(s) :: TimerClean(s.timers[t]))
  }

  /** The checker is silent exactly in clean states. */
  lemma CheckIffClean(s: State)
    requires ListsValid(s)
    ensures Check(s) == NoViolation <==> CleanState(s)
  {
    hide IntrusiveList.Order;
    TasksClean(s.tasks, 0);
    MutexesClean(s.mutexes, MutexOrder(s), |s.tasks|);
    TimersClean(s.timers, TimerOrder(s));
    assert forall t :: TaskViolation(t) == NoViolation <==> TaskClean(t);
    assert forall x, n :: MutexViolation(x, n) == NoViolation <==> MutexClean(x, n);
    assert forall t :: TimerViolation(t) == NoViolation <==> TimerClean(t);
  }

  // ---- what it reports ----

  /** Position j is the first of the order that is not clean. */
  ghost predicate FirstBadMutex(ms: seq<Mutex>, order: seq<int>, n: nat, j: nat)
    requires forall i | i in order :: 0 <= i < |ms|
  {
    && j < |order| && order[j] in order && !MutexClean(ms[order[j]], n)
    && forall k | 0 <= k < j :: order[k] in order && MutexClean(ms[order[k]], n)
  }

  ghost predicate FirstBadTask(ts: seq<Task>, i: nat) {
    i < |ts| && !TaskClean(ts[i]) && forall k | 0 <= k < i :: TaskClean(ts[k])
  }

  lemma {:induction false} TaskReported(ts: seq<Task>, i: nat, k: nat)
    requires k <= i && FirstBadTask(ts, i)
    ensures TasksViolation(ts, k)
         == if !ts[i].state.Blocked? then NonblockedMetadata
            else if ts[i].waitObject.NullObject? then BlockedWaitObject else BlockedWaitKind
    decreases i - k
  {
    if k < i {
      assert TaskClean(ts[k]);
      TaskReported(ts, i, k + 1);
    }
  }

  lemma {:induction false} MutexReported(ms: seq<Mutex>, order: seq<int>, n: nat, j: nat)
    requires forall i | i in order :: 0 <= i < |ms|
    requires FirstBadMutex(ms, order, n, j)
    ensures MutexesViolation(ms, order, n)
         == if !ms[order[j]].locked then MutexUnlockedState
            else if ms[order[j]].owner >= n then MutexOwner else MutexRecursion
    decreases j
  {
    assert order[0] in order && forall i | i in order[1..] :: i in order;
    if j > 0 {
      assert MutexClean(ms[order[0]], n);
      assert order[1..][j - 1] == order[j];
      forall k | 0 <= k < j - 1 ensures order[1..][k] in order[1..] && MutexClean(ms[order[1..][k]], n) {
        assert order[1..][k] == order[k + 1];
      }
      MutexReported(ms, order[1..], n, j - 1);
    }
  }

  lemma {:induction false} TimerReported(ts: seq<Timer>, order: seq<int>)
    requires forall i | i in order :: 0 <= i < |ts|
    ensures TimersViolation(ts, order) == NoViolation || TimersViolation(ts, order) == TimerPeriodicState
    decreases |order|
  {
    if order != [] {
      assert order[0] in order && forall i | i in order[1..] :: i in order;
      TimerReported(ts, order[1..]);
    }
  }

  /** What the checker reports: the first task that is not clean; if there is none, an endless mutex list, or else the
      first linked mutex that is not clean; if there is none, an endless timer list, or else a timer. */
  lemma CheckReports(s: State)
    requires ListsValid(s)
    ensures forall i: nat | FirstBadTask(s.tasks, i) ::
              Check(s) == if !s.tasks[i].state.Blocked? then NonblockedMetadata
                          else if s.tasks[i].waitObject.NullObject? then BlockedWaitObject else BlockedWaitKind
    ensures (forall i | 0 <= i < |s.tasks| :: TaskClean(s.tasks[i])) ==>
              if !Ends(MutexLinks(s.mutexes), s.mutexList) then Check(s) == MutexListCycle
              else
                && (forall j: nat | FirstBadMutex(s.mutexes, MutexOrder(s), |s.tasks|, j) ::
                      var x := s.mutexes[MutexOrder(s)[j]];
                      Check(s) == if !x.locked then MutexUnlockedState
                                  else if x.owner >= |s.tasks| then MutexOwner else MutexRecursion)
                && ((forall m | m in MutexOrder(s) :: MutexClean(s.mutexes[m], |s.tasks|)) ==>
                      if !Ends(TimerLinks(s.timers), s.timerList) then Check(s) == TimerListCycle
                      else Check(s) == NoViolation || Check(s) == TimerPeriodicState)
  {
    hide IntrusiveList.Order;
    TasksClean(s.tasks, 0);
    MutexesClean(s.mutexes, MutexOrder(s), |s.tasks|);
    TimerReported(s.timers, TimerOrder(s));
    assert forall t :: TaskViolation(t) == NoViolation <==> TaskClean(t);
    assert forall x, n :: MutexViolation(x, n) == NoViolation <==> MutexClean(x, n);
    forall i: nat | FirstBadTask(s.tasks, i)
      ensures TasksViolation(s.tasks, 0)
           == if !s.tasks[i].state.Blocked? then NonblockedMetadata
              else if s.tasks[i].waitObject.NullObject? then BlockedWaitObject else BlockedWaitKind
    {
      TaskReported(s.tasks, i, 0);
    }
    forall j: nat | FirstBadMutex(s.mutexes, MutexOrder(s), |s.tasks|, j)
      ensures
        var x := s.mutexes[MutexOrder(s)[j]];
        MutexesViolation(s.mutexes, MutexOrder(s), |s.tasks|)
        == if !x.locked then MutexUnlockedState
           else if x.owner >= |s.tasks| then MutexOwner else MutexRecursion
    {
      MutexReported(s.mutexes, MutexOrder(s), |s.tasks|, j);
    }
  }

  // ---- the mutex list on every run ----

  /** The mutex list is finite, and a linked unlocked mutex has no owner. */
  ghost predicate MutexListOk(s: State)
    requires ListsValid(s)
  {
    && Ends(MutexLinks(s.mutexes), s.mutexList)
    && forall m | m in MutexOrder(s) && !s.mutexes[m].locked :: s.mutexes[m].owner == NO_OWNER
  }

  lemma CreateKeepsList(s: State, m: nat)
    requires Sane(s) && MutexListOk(s) && m < |s.mutexes|
    ensures ListsValid(CreateMutex(s, m)) && MutexListOk(CreateMutex(s, m))
  {
    var s' := CreateMutex(s, m);
    LinkMutexValid(s, m);
    IntrusiveList.LinkKeepsList(MutexLinks(s.mutexes), s.mutexList, m);
    assert forall i | i in MutexOrder(s') :: i == m || i in MutexOrder(s);
  }

  /** Locking and unlocking leave the links alone. */
  lemma LinksStay(s: State, s': State)
    requires ListsValid(s) && MutexListOk(s) && ListsValid(s') && s'.mutexList == s.mutexList
    requires MutexLinks(s'.mutexes) == MutexLinks(s.mutexes)
    requires forall m | 0 <= m < |s.mutexes| ::
               s'.mutexes[m].locked || s'.mutexes[m].owner == NO_OWNER || s'.mutexes[m] == s.mutexes[m]
    ensures MutexListOk(s')
  {}

  lemma LockKeepsList(s: State, m: nat, entered: nat, timeout: Word)
    requires Sane(s) && MutexListOk(s) && AppContext(s) && m < |s.mutexes|
    ensures ListsValid(Lock(s, m, entered, timeout).0) && MutexListOk(Lock(s, m, entered, timeout).0)
  {
    var s' := Lock(s, m, entered, timeout).0;
    LockSane(s, m, entered, timeout);
    assert MutexLinks(s'.mutexes) == MutexLinks(s.mutexes);
    LinksStay(s, s');
  }

  lemma UnlockKeepsList(s: State, m: nat)
    requires Sane(s) && MutexListOk(s) && AppContext(s) && m < |s.mutexes|
    ensures ListsValid(Unlock(s, m).0) && MutexListOk(Unlock(s, m).0)
  {
    var s' := Unlock(s, m).0;
    UnlockSane(s, m);
    assert MutexLinks(s'.mutexes) == MutexLinks(s.mutexes);
    LinksStay(s, s');
  }

  lemma StepKeepsList(s: State, step: Step)
    requires Sane(s) && MutexListOk(s) && Legal(s, step)
    requires forall i | 0 <= i < |s.tasks| :: s.tasks[i].priority >= 0
    ensures ListsValid(Next(s, step).0) && MutexListOk(Next(s, step).0)
  {
    hide Next, Lock, Unlock, CreateMutex;
    StepSane(s, step);
    if step.LockStep? {
      NextLock(s, step.m, step.entered, step.timeout);
      LockKeepsList(s, step.m, step.entered, step.timeout);
    } else if step.UnlockStep? {
      NextUnlock(s, step.m);
      UnlockKeepsList(s, step.m);
    } else if step.CreateMutexStep? {
      NextCreateMutex(s, step.m);
      CreateKeepsList(s, step.m);
    } else {
      StepFrame(s, step);
    }
  }

  // ---- the checker never fires ----

  lemma InvariantIsClean(s: State)
    requires Sane(s) && MutexInvariant.MutexesOk(s) && MutexListOk(s) && TimerInvariant.TimersOk(s)
    ensures CleanState(s)
  {
    forall i | 0 <= i < |s.tasks| ensures TaskClean(s.tasks[i]) {
      assert TaskOk(s, i, s.tasks[i]);
    }
    forall m | m in MutexOrder(s) ensures MutexClean(s.mutexes[m], |s.tasks|) {
      assert MutexInvariant.MutexShape(s, s.mutexes[m]);
    }
    forall t | t in TimerOrder(s) ensures TimerClean(s.timers[t]) {
      assert TimerInvariant.TimerShape(s.timers[t]);
    }
  }
}
