/** What the mutex calls promise their callers, in terms of ownership, depth and time. */
module MutexCalls {
  import opened Types
  import opened Graph
  import opened TaskTable
  import opened Machine
  import opened WaitInvariant
  import opened MutexInvariant
  import opened Runs
  import opened Calls
  import Checker
  import Inh = Inheritance
  import IntrusiveList

  /** Nobody holds mutex m. */
  ghost predicate Free(s: State, m: nat) {
    forall i :: !Holds(s, i, m)
  }

  /** Only mutex m changes, and not in its place in the mutex list. */
  predicate OnlyMutex(s: State, s': State, m: nat) {
    && s'.mutexList == s.mutexList && |s'.mutexes| == |s.mutexes|
    && forall k | 0 <= k < |s.mutexes| ::
         s'.mutexes[k].next == s.mutexes[k].next && (k != m ==> s'.mutexes[k] == s.mutexes[k])
  }

  // ---- lock ----

  lemma FreeIsUnlocked(s: State, m: nat)
    requires m < |s.mutexes|
    ensures Free(s, m) <==> !s.mutexes[m].locked
  {
    assert s.mutexes[m].locked ==> Holds(s, s.mutexes[m].owner, m);
  }

  /** A free mutex is locked at once, once, for the caller; no task entry changes. */
  lemma LockFree(s: State, m: nat, entered: nat, timeout: Word)
    requires Inv(s) && Legal(s, LockStep(m, entered, timeout)) && Free(s, m)
    ensures
      var (s', out) := Next(s, LockStep(m, entered, timeout));
      && out == Status(true)
      && OnlyMutex(s, s', m) && Holds(s', s.cur, m) && s'.mutexes[m].recursion == 1
      && s'.tasks == s.tasks
  {
    hide Next;
    FreeIsUnlocked(s, m);
    NextLock(s, m, entered, timeout);
  }

  /** The owner locks once more. */
  lemma LockAgain(s: State, m: nat, entered: nat, timeout: Word)
    requires Inv(s) && Legal(s, LockStep(m, entered, timeout)) && Holds(s, s.cur, m)
    ensures
      var (s', out) := Next(s, LockStep(m, entered, timeout));
      && out == Status(true)
      && OnlyMutex(s, s', m) && Holds(s', s.cur, m) && s'.mutexes[m].recursion == s.mutexes[m].recursion + 1
      && s'.tasks == s.tasks
  {
    hide Next;
    NextLock(s, m, entered, timeout);
  }

  /** Exactly the tasks on the owner chain come out at least at the caller's priority; nothing else of them changes. */
  ghost predicate ChainRaised(s: State, i: nat, o: int, t': Task)
    requires i < |s.tasks| && s.cur < |s.tasks| && 0 <= o < |s.tasks|
  {
    var t := s.tasks[i];
    t' == t.(priority := if i in Visits(Edges(s), o, |s.tasks|) then Inh.Max(t.priority, Current(s).priority)
                         else t.priority)
  }

  /** A mutex that another task holds: the caller waits if and only if it has time left, and otherwise fails; a caller
      without a timeout leaves everything alone, any other one raises the owner chain. */
  lemma LockContended(s: State, m: nat, entered: nat, timeout: Word, o: nat)
    requires Inv(s) && Legal(s, LockStep(m, entered, timeout)) && o != s.cur && Holds(s, o, m)
    ensures o < |s.tasks|
    ensures
      var (s', out) := Next(s, LockStep(m, entered, timeout));
      && OnlyTasks(s, s')
      && out == (if TimeLeft(s, entered, timeout) then Pending else Status(false))
      && (LockPhaseOf(s'.tasks[s.cur]) == BlockedOn(m) <==> TimeLeft(s, entered, timeout))
      && (if TimeLeft(s, entered, timeout) then Waits(Current(s), s'.tasks[s.cur], LockCall(m), entered, timeout)
          else s'.tasks[s.cur] == Current(s))
      && (forall i | 0 <= i < |s.tasks| && i != s.cur ::
            if timeout == 0 then s'.tasks[i] == s.tasks[i] else ChainRaised(s, i, o, s'.tasks[i]))
  {
    hide Next, Lock, Inv, TimeLeft, Waits, ChainRaised, LockPhaseOf;
    InvWf(s);
    OwnerIsTask(s, m);
    NextLock(s, m, entered, timeout);
    if timeout == 0 {
      LockImpatient(s, m, entered);
    } else {
      LockWaits(s, m, entered, timeout);
      forall i | 0 <= i < |s.tasks| ensures ChainRaised(s, i, o, Boosted(s, m).tasks[i]) {
        BoostRaises(s, m, i);
      }
      CallerKept(s, m, o);
      CallerAside(s);
      if TimeLeft(s, entered, timeout) {
        WaiterPhase(Current(s), Lock(s, m, entered, timeout).0.tasks[s.cur], m, entered, timeout);
      }
    }
  }

  lemma WaiterPhase(t: Task, t': Task, m: nat, entered: nat, timeout: Word)
    requires Waits(t, t', LockCall(m), entered, timeout)
    ensures LockPhaseOf(t') == BlockedOn(m)
  {}

  lemma OwnerIsTask(s: State, m: nat)
    requires Inv(s) && m < |s.mutexes|
    ensures s.mutexes[m].locked ==> s.mutexes[m].owner < |s.tasks|
  {
    assert MutexShape(s, s.mutexes[m]);
  }

  lemma LockImpatient(s: State, m: nat, entered: nat)
    requires Inv(s) && Contended(s, m) && entered <= s.ticks
    ensures Lock(s, m, entered, 0) == (s, Status(false)) && !TimeLeft(s, entered, 0)
    ensures LockPhaseOf(Current(s)) == Aside
  {}

  lemma CallerAside(s: State)
    requires s.cur < |s.tasks| && AppContext(s)
    ensures LockPhaseOf(Current(s)) == Aside
  {}

  lemma LockWaits(s: State, m: nat, entered: nat, timeout: Word)
    requires Wf(s) && Contended(s, m) && entered <= s.ticks && timeout != 0
    ensures
      var ((s', out), b) := (Lock(s, m, entered, timeout), Boosted(s, m));
      && OnlyTasks(s, b)
      && if TimeLeft(s, entered, timeout) then out == Pending && OnlyWaits(b, s', LockCall(m), entered, timeout)
         else out == Status(false) && s' == b
  {
    hide BlockUntil, OnlyWaits, InheritPriority, Wrap, MakeDeadline;
    BlockUntilWaits(Boosted(s, m), MutexRef(m), MutexWait, LockCall(m), entered, timeout);
  }

  lemma BoostRaises(s: State, m: nat, i: nat)
    requires Wf(s) && m < |s.mutexes| && s.mutexes[m].owner < |s.tasks| && i < |s.tasks|
    ensures ChainRaised(s, i, s.mutexes[m].owner, Boosted(s, m).tasks[i])
  {
    hide Inh.Raise;
    Inh.RaiseAt(Edges(s), Priorities(s.tasks), s.mutexes[m].owner, Current(s).priority, |s.tasks|);
  }

  lemma CallerKept(s: State, m: nat, o: nat)
    requires s.cur < |s.tasks| && m < |s.mutexes| && Wf(s) && o < |s.tasks|
    requires ChainRaised(s, s.cur, o, Boosted(s, m).tasks[s.cur])
    ensures Boosted(s, m).tasks[s.cur] == Current(s)
  {}

  // ---- unlock ----

  /** Only the owner can unlock. */
  lemma UnlockRefused(s: State, m: nat)
    requires Inv(s) && Legal(s, UnlockStep(m)) && !Holds(s, s.cur, m)
    ensures Next(s, UnlockStep(m)) == (s, Status(false))
  {
    hide Next;
    NextUnlock(s, m);
  }

  /** An inner unlock pays back one lock and nothing else happens. */
  lemma UnlockInner(s: State, m: nat)
    requires Inv(s) && Legal(s, UnlockStep(m)) && Holds(s, s.cur, m) && s.mutexes[m].recursion > 1
    ensures
      var (s', out) := Next(s, UnlockStep(m));
      && out == Status(true)
      && OnlyMutex(s, s', m) && Holds(s', s.cur, m) && s'.mutexes[m].recursion == s.mutexes[m].recursion - 1
      && s'.tasks == s.tasks
  {
    hide Next;
    NextUnlock(s, m);
  }

  /** What the last unlock does to the task table: the best waiter is woken with the mutex, and only its priority and
      that of the caller are recomputed. */
  ghost predicate Handover(s: State, s': State, m: nat) {
    && |s'.tasks| == |s.tasks|
    && forall i | 0 <= i < |s.tasks| ::
         var (t, t') := (s.tasks[i], s'.tasks[i]);
         if IsBest(s.tasks, MutexRef(m), MutexWait, i) then Woken(t, t'.(priority := t.priority), true)
         else t' == t.(priority := t'.priority) && (i != s.cur ==> t' == t)
  }

  /** The priority is no higher than the task's base and its waiters ask for. */
  ghost predicate NotBoosted(s: State, i: nat)
    requires i < |s.tasks|
  {
    Inh.Supported(Edges(s), Priorities(s.tasks), Bases(s.tasks), i)
  }

  /** The last unlock: the mutex goes to the best waiter, once, or becomes free if nobody waits; the caller keeps no
      boost that its other mutexes do not call for. */
  lemma UnlockLast(s: State, m: nat)
    requires Inv(s) && Legal(s, UnlockStep(m)) && Holds(s, s.cur, m) && s.mutexes[m].recursion == 1
    ensures
      var (s', out) := Next(s, UnlockStep(m));
      && out == Status(true)
      && OnlyMutex(s, s', m) && Handover(s, s', m)
      && (Free(s', m) <==> !SomeoneWaits(s.tasks, MutexRef(m), MutexWait))
      && (Free(s', m) ==> s'.mutexes[m].owner == NO_OWNER && s'.mutexes[m].recursion == 0)
      && (forall i: nat | IsBest(s.tasks, MutexRef(m), MutexWait, i) ::
            Holds(s', i, m) && s'.mutexes[m].recursion == 1 && NotBoosted(s', i))
      && NotBoosted(s', s.cur)
  {
    hide Next, Unlock, Inv, Handover, NotBoosted, IsBest, SomeoneWaits;
    InvWf(s);
    NextUnlock(s, m);
    LastUnlockMutexes(s, m);
    LastUnlockTasks(s, m);
    LastUnlockBoosts(s, m);
    WakeIsBest(s.tasks, MutexRef(m), MutexWait);
    FreeIsUnlocked(Unlock(s, m).0, m);
    forall i: nat | IsBest(s.tasks, MutexRef(m), MutexWait, i)
      ensures i == Wake(s.tasks, MutexRef(m), MutexWait).1
    {
      BestWaits(s.tasks, MutexRef(m), MutexWait, i);
      BestIsUnique(s.tasks, MutexRef(m), MutexWait, i, Wake(s.tasks, MutexRef(m), MutexWait).1);
    }
  }

  lemma LastUnlockMutexes(s: State, m: nat)
    requires Wf(s) && LastUnlock(s, m)
    ensures
      var ((s', out), h) := (Unlock(s, m), Wake(s.tasks, MutexRef(m), MutexWait).1);
      && out == Status(true) && OnlyMutex(s, s', m)
      && s'.mutexes[m].locked == (h >= 0)
      && (if h >= 0 then Holds(s', h, m) && s'.mutexes[m].recursion == 1
          else s'.mutexes[m].owner == NO_OWNER && s'.mutexes[m].recursion == 0)
  {
    hide RestorePriority, Wake;
  }

  lemma LastUnlockTasks(s: State, m: nat)
    requires Wf(s) && LastUnlock(s, m)
    ensures Handover(s, Unlock(s, m).0, m)
  {
    hide RestorePriority, Wake, IsBest, Released;
    var (ts, to) := Wake(s.tasks, MutexRef(m), MutexWait);
    var ms := s.mutexes[m := Released(s.mutexes[m], to)];
    WakeIsBest(s.tasks, MutexRef(m), MutexWait);
    if to >= 0 {
      BestWaits(s.tasks, MutexRef(m), MutexWait, to);
    }
    forall i | 0 <= i < |s.tasks|
      ensures RestoredEntry(ts[i], Unlock(s, m).0.tasks[i])
      ensures i != s.cur && i != to ==> Unlock(s, m).0.tasks[i] == ts[i]
    {
      RestoreEntry(ts, ms, s.cur, i);
      if to >= 0 {
        RestoreEntry(RestorePriority(ts, ms, s.cur), ms, to, i);
      }
    }
  }

  predicate RestoredEntry(t: Task, t': Task) {
    t' == t.(priority := t'.priority)
  }

  lemma RestoreEntry(ts: seq<Task>, ms: seq<Mutex>, id: nat, i: nat)
    requires id < |ts| && i < |ts|
    ensures
      var t' := RestorePriority(ts, ms, id)[i];
      RestoredEntry(ts[i], t') && (i != id ==> t' == ts[i])
  {
    hide Inh.Effective;
  }

  lemma LastUnlockBoosts(s: State, m: nat)
    requires Inv(s) && LastUnlock(s, m)
    ensures
      var s' := Unlock(s, m).0;
      && |s'.tasks| == |s.tasks| && NotBoosted(s', s.cur) && NotBoosted(s', Heir(s, m))
  {
    hide Unlock, Transferred, Heir, TasksOk, MutexesOk;
    TransferredGraph(s, m);
    UnlockIsRecomputed(s, m);
    var t := Transferred(s, m);
    RecomputedSupported(Edges(t), Priorities(t.tasks), Bases(t.tasks), s.cur, Heir(s, m));
  }

  lemma RecomputedSupported(g: seq<int>, p: seq<int>, b: seq<int>, i: nat, h: nat)
    requires Inh.Sized(g, p, b) && i < |p| && h < |p| && g[i] == -1 && g[h] == -1
    ensures
      var r := Inh.Recompute(g, Inh.Recompute(g, p, b, i), b, h);
      Inh.Sized(g, r, b) && Inh.Supported(g, r, b, i) && Inh.Supported(g, r, b, h)
  {
    var p1 := Inh.Recompute(g, p, b, i);
    Inh.ScanIsMax(g, p, b, i, |g|);
    Inh.ScanIsMax(g, p1, b, h, |g|);
  }

  // ---- creation and return ----

  /** A created mutex is free, at depth 0, and in the mutex list; nothing else changes. */
  lemma CreateMakesFree(s: State, m: nat)
    requires Inv(s) && Legal(s, CreateMutexStep(m))
    ensures
      var s' := Next(s, CreateMutexStep(m)).0;
      && ListsValid(s') && m in Checker.MutexOrder(s')
      && |s'.mutexes| == |s.mutexes| && Free(s', m)
      && s'.mutexes[m].owner == NO_OWNER && s'.mutexes[m].recursion == 0
      && (forall k | 0 <= k < |s.mutexes| && k != m :: s'.mutexes[k] == s.mutexes[k])
      && s'.tasks == s.tasks
  {
    hide Next, IntrusiveList.Order;
    NextCreateMutex(s, m);
    LinkMutexValid(s, m);
    IntrusiveList.LinkKeepsList(MutexLinks(s.mutexes), s.mutexList, m);
    FreeIsUnlocked(CreateMutex(s, m), m);
  }

  /** A lock call that waited returns what its wait ended with, and nothing else happens. */
  lemma LockReturnsResult(s: State)
    requires Inv(s) && Legal(s, ContinueStep) && Current(s).call.LockCall?
    ensures
      var (s', out) := Next(s, ContinueStep);
      && out == Status(Current(s).waitResult)
      && OnlyTasks(s, s') && OthersKeep(s, s') && Current(s') == Current(s).(call := NoCall)
  {
    hide Next;
    NextContinue(s);
  }
}
