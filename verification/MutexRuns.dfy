/** The mutex protocol over runs: how waits end, what a lock call returns, and locks paid back by unlocks. */
module MutexRuns {
  import opened Types
  import opened TaskTable
  import opened Machine
  import opened WaitInvariant
  import opened Phases
  import opened MutexInvariant
  import opened Runs
  import opened Calls
  import opened MutexCalls

  // ---- how a wait ends ----

  /** From BlockedOn a task goes on only to HandedOver, at an unlock of that mutex, or to GaveUp, at a tick;
      both last until the task itself returns from its call. */
  ghost predicate LockPhaseStep(s: State, step: Step, i: nat, p: LockPhase, p': LockPhase) {
    || p' == p
    || (p.BlockedOn? && p' == HandedOver(p.m) && step == UnlockStep(p.m) && s.cur != i)
    || (p.BlockedOn? && p' == GaveUp(p.m) && step.TickStep?)
    || (!p.BlockedOn? && p' == Aside && step.ContinueStep? && s.cur == i)
    || (p.Aside? && p'.BlockedOn? && step.LockStep? && step.m == p'.m && s.cur == i)
  }

  lemma RestLockPhase(t: Task, t': Task)
    requires Rest(t) == Rest(t')
    ensures LockPhaseOf(t) == LockPhaseOf(t')
  {
    assert t' == t.(priority := t'.priority);
  }

  lemma TickLockPhase(s: State, i: nat)
    requires Sane(s) && i < |s.tasks|
    ensures LockPhaseStep(s, TickStep, i, LockPhaseOf(s.tasks[i]), LockPhaseOf(Tick(s).tasks[i]))
  {
    var t, t' := s.tasks[i], Tick(s).tasks[i];
    TickAt(s, i);
    assert TaskOk(s, i, t);
    if Rest(t') == Rest(TickOne(t, Wrap(s.ticks + 1))) {
      RestLockPhase(t', TickOne(t, Wrap(s.ticks + 1)));
    } else {
      RestLockPhase(t', WaitEnd(t, true));
    }
  }

  lemma UnlockLockPhase(s: State, m: nat, i: nat)
    requires Sane(s) && LockInv(s) && Legal(s, UnlockStep(m)) && i < |s.tasks|
    ensures LockPhaseStep(s, UnlockStep(m), i, LockPhaseOf(s.tasks[i]), LockPhaseOf(Unlock(s, m).0.tasks[i]))
  {
    if LastUnlock(s, m) {
      UnlockIsRecomputed(s, m);
      TransferredPhase(s, m, i);
      RestLockPhase(Unlock(s, m).0.tasks[i], Transferred(s, m).tasks[i]);
      if i == Heir(s, m) && i != s.cur {
        BlockedOnIsWaiting(s, m, i);
      }
    } else {
      InnerUnlockPhases(s, m);
    }
  }

  lemma LockLockPhase(s: State, m: nat, entered: nat, timeout: Word, i: nat)
    requires Sane(s) && LockInv(s) && Legal(s, LockStep(m, entered, timeout)) && i < |s.tasks|
    ensures LockPhaseStep(s, LockStep(m, entered, timeout), i, LockPhaseOf(s.tasks[i]),
            LockPhaseOf(Lock(s, m, entered, timeout).0.tasks[i]))
  {
    if Contended(s, m) && timeout != 0 {
      InheritKeeps(s, s.mutexes[m].owner, Current(s).priority);
      RestLockPhase(Boosted(s, m).tasks[i], s.tasks[i]);
      assert i != s.cur ==> Lock(s, m, entered, timeout).0.tasks[i] == Boosted(s, m).tasks[i];
    }
  }

  lemma LockPhaseSteps(s: State, step: Step, i: nat)
    requires Inv(s) && Legal(s, step) && i < |s.tasks|
    ensures |Next(s, step).0.tasks| == |s.tasks|
    ensures LockPhaseStep(s, step, i, LockPhaseOf(s.tasks[i]), LockPhaseOf(Next(s, step).0.tasks[i]))
  {
    if step.TickStep? {
      TickLockPhase(s, i);
    } else if step.UnlockStep? {
      UnlockLockPhase(s, step.m, i);
    } else if step.LockStep? {
      LockLockPhase(s, step.m, step.entered, step.timeout, i);
    } else if !step.CreateMutexStep? {
      OtherLockPhase(s, step, i);
    }
  }

  lemma OtherLockPhase(s: State, step: Step, i: nat)
    requires Inv(s) && Legal(s, step) && i < |s.tasks| && !IsMutexStep(step) && !step.TickStep?
    ensures |Next(s, step).0.tasks| == |s.tasks|
    ensures LockPhaseStep(s, step, i, LockPhaseOf(s.tasks[i]), LockPhaseOf(Next(s, step).0.tasks[i]))
  {
    hide Next;
    if step.ContinueStep? && Current(s).call.LockCall? {
      NextContinue(s);
    } else {
      NonNegative(s);
      StepKeeps(s, step);
      OtherProtocolPhase(StepProtocol(s, step), s.tasks[i], Next(s, step).0.tasks[i]);
    }
  }

  // ---- what the calls return ----

  /** A lock call waits exactly if another task holds the mutex and there is time left; if it returns at once it returns
      true exactly when the caller owns the mutex. */
  lemma LockReturns(s: State, m: nat, entered: nat, timeout: Word)
    requires Inv(s) && Legal(s, LockStep(m, entered, timeout))
    ensures
      var (s', out) := Next(s, LockStep(m, entered, timeout));
      && (out.Pending? <==> (exists o: nat :: o != s.cur && Holds(s, o, m)) && TimeLeft(s, entered, timeout))
      && (out.Pending? <==> LockPhaseOf(s'.tasks[s.cur]) == BlockedOn(m))
      && (out.Pending? || out == Status(Holds(s', s.cur, m)))
  {
    hide Next, Inv, TimeLeft, LockPhaseOf;
    InvWf(s);
    CallerAside(s);
    if Holds(s, s.cur, m) {
      LockAgain(s, m, entered, timeout);
    } else if !s.mutexes[m].locked {
      FreeIsUnlocked(s, m);
      LockFree(s, m, entered, timeout);
    } else {
      assert Holds(s, s.mutexes[m].owner, m);
      LockContended(s, m, entered, timeout, s.mutexes[m].owner);
    }
  }

  /** So does a lock call that had to wait. */
  lemma ContinueReturns(s: State)
    requires Inv(s) && Legal(s, ContinueStep) && Current(s).call.LockCall?
    ensures
      var m := Current(s).call.mutex;
      && m < |s.mutexes|
      && Continue(s).1 == Status(Holds(Continue(s).0, s.cur, m))
      && (Holds(s, s.cur, m) ==> s.mutexes[m].recursion == 1)
  {
    assert LockPhaseOk(s, s.cur, LockPhaseOf(Current(s)));
  }

  /** An unlocked mutex has no waiter. */
  lemma UnlockedHasNoWaiter(s: State, i: nat, m: nat)
    requires Inv(s) && i < |s.tasks| && LockPhaseOf(s.tasks[i]) == BlockedOn(m)
    ensures m < |s.mutexes| && s.mutexes[m].locked && s.mutexes[m].owner != i
  {
    assert LockPhaseOk(s, i, LockPhaseOf(s.tasks[i]));
  }

  /** Who gets the mutex when it is released for the last time. */
  lemma HeirIsBest(s: State, m: nat)
    requires Inv(s) && LastUnlock(s, m)
    ensures
      var h := Wake(s.tasks, MutexRef(m), MutexWait).1;
      && (h < 0 ==> forall i | 0 <= i < |s.tasks| :: LockPhaseOf(s.tasks[i]) != BlockedOn(m))
      && (h >= 0 ==>
            && h != s.cur && LockPhaseOf(s.tasks[h]) == BlockedOn(m)
            && forall i | 0 <= i < |s.tasks| && LockPhaseOf(s.tasks[i]) == BlockedOn(m) ::
                 s.tasks[i].priority <= s.tasks[h].priority && (i < h ==> s.tasks[i].priority < s.tasks[h].priority))
  {
    hide LockPhaseOf, Waiting, BestWaiter;
    var h := Wake(s.tasks, MutexRef(m), MutexWait).1;
    BestWaiterIsBest(s.tasks, MutexRef(m), MutexWait, |s.tasks|);
    forall i | 0 <= i < |s.tasks|
      ensures LockPhaseOf(s.tasks[i]) == BlockedOn(m) <==> Waiting(s.tasks[i], MutexRef(m), MutexWait)
    {
      BlockedOnIsWaiting(s, m, i);
    }
    if h >= 0 {
      assert Waiting(s.tasks[h], MutexRef(m), MutexWait);
      UnlockedHasNoWaiter(s, h, m);
    }
  }

  /** The mutex after its last unlock. */
  lemma ReleasedMutex(s: State, m: nat)
    requires Inv(s) && LastUnlock(s, m)
    ensures
      var h := Wake(s.tasks, MutexRef(m), MutexWait).1;
      var x := Unlock(s, m).0.mutexes[m];
      x.locked == (h >= 0) && (h >= 0 ==> x.owner == h && x.recursion == 1)
  {
    hide RestorePriority, Wake;
  }

  /** The last unlock hands the mutex to the lowest-index waiter of highest effective priority, once, and
      unlocks it exactly when nobody waits. */
  lemma HandoffToBest(s: State, m: nat)
    requires Inv(s) && LastUnlock(s, m)
    ensures
      var s' := Unlock(s, m).0;
      && (s'.mutexes[m].locked <==> exists i :: 0 <= i < |s.tasks| && LockPhaseOf(s.tasks[i]) == BlockedOn(m))
      && (s'.mutexes[m].locked ==>
            var h := s'.mutexes[m].owner;
            && h < |s.tasks| && h != s.cur && s'.mutexes[m].recursion == 1
            && LockPhaseOf(s.tasks[h]) == BlockedOn(m) && LockPhaseOf(s'.tasks[h]) == HandedOver(m)
            && forall i | 0 <= i < |s.tasks| && LockPhaseOf(s.tasks[i]) == BlockedOn(m) ::
                 s.tasks[i].priority <= s.tasks[h].priority && (i < h ==> s.tasks[i].priority < s.tasks[h].priority))
  {
    hide Unlock, Wake, Inv, LockPhaseOf;
    var h := Wake(s.tasks, MutexRef(m), MutexWait).1;
    HeirIsBest(s, m);
    ReleasedMutex(s, m);
    if h >= 0 {
      HandedPhase(s, m, h);
    }
  }

  lemma HandedPhase(s: State, m: nat, h: nat)
    requires Inv(s) && LastUnlock(s, m) && h < |s.tasks| && Wake(s.tasks, MutexRef(m), MutexWait).1 == h
    requires LockPhaseOf(s.tasks[h]) == BlockedOn(m) && h != s.cur
    ensures LockPhaseOf(Unlock(s, m).0.tasks[h]) == HandedOver(m)
  {
    hide Unlock, Wake, LockPhaseOf;
    UnlockIsRecomputed(s, m);
    TransferredPhase(s, m, h);
    RestLockPhase(Unlock(s, m).0.tasks[h], Transferred(s, m).tasks[h]);
  }

  // ---- depth ----

  /** How many times task i has locked mutex m without unlocking it, as its own calls have reported: a
      mutex handed over but not yet reported does not count. */
  function Held(s: State, i: nat, m: nat): int
    requires i < |s.tasks|
  {
    (if Holds(s, i, m) then s.mutexes[m].recursion else 0) - (if LockPhaseOf(s.tasks[i]) == HandedOver(m) then 1 else 0)
  }

  /** Lock calls of task i on mutex m that report success in this step. */
  function Gained(s: State, step: Step, i: nat, m: nat): nat
    requires Wf(s) && Legal(s, step)
  {
    var ok := Next(s, step).1 == Status(true);
    if s.cur == i && ok && ((step.LockStep? && step.m == m) || (step.ContinueStep? && Current(s).call == LockCall(m)))
        then 1
    else 0
  }

  /** Unlock calls of task i on mutex m that report success in this step. */
  function Paid(s: State, step: Step, i: nat, m: nat): nat
    requires Wf(s) && Legal(s, step)
  {
    if s.cur == i && step == UnlockStep(m) && Next(s, step).1 == Status(true) then 1 else 0
  }

  lemma LockHeld(s: State, m: nat, entered: nat, timeout: Word, i: nat, k: nat)
    requires Inv(s) && Legal(s, LockStep(m, entered, timeout)) && i < |s.tasks|
    ensures Held(Lock(s, m, entered, timeout).0, i, k)
         == Held(s, i, k) + if s.cur == i && k == m && Lock(s, m, entered, timeout).1 == Status(true) then 1 else 0
  {
    hide Lock, LockPhaseOf;
    LockEffect(s, m, entered, timeout);
    LockLockPhase(s, m, entered, timeout, i);
    assert MutexShape(s, s.mutexes[m]);
  }

  lemma LockEffect(s: State, m: nat, entered: nat, timeout: Word)
    requires Wf(s) && Legal(s, LockStep(m, entered, timeout))
    ensures
      var ((s', out), x) := (Lock(s, m, entered, timeout), s.mutexes[m]);
      if !x.locked then
        s'.mutexes == s.mutexes[m := x.(locked := true, owner := s.cur, recursion := 1)] && out == Status(true)
      else if x.owner == s.cur then
        s'.mutexes == s.mutexes[m := x.(recursion := x.recursion + 1)] && out == Status(true)
      else s'.mutexes == s.mutexes && out != Status(true)
  {
    hide InheritPriority, MakeDeadline, Expired;
  }

  lemma LastUnlockHeld(s: State, m: nat, i: nat, k: nat)
    requires Inv(s) && LastUnlock(s, m) && Legal(s, UnlockStep(m)) && i < |s.tasks|
    ensures Unlock(s, m).1 == Status(true)
    ensures Held(Unlock(s, m).0, i, k) == Held(s, i, k) - if s.cur == i && k == m then 1 else 0
  {
    hide Unlock, Inv, LockPhaseOf, Held;
    InvWf(s);
    LastUnlockEffect(s, m);
    if k == m {
      ReleasedHeld(s, m, i);
    } else {
      OthersHeld(s, m, i, k);
    }
  }

  /** No other mutex changes its depth. */
  lemma OthersHeld(s: State, m: nat, i: nat, k: nat)
    requires Inv(s) && LastUnlock(s, m) && Legal(s, UnlockStep(m)) && i < |s.tasks| && k != m
    ensures Held(Unlock(s, m).0, i, k) == Held(s, i, k)
  {
    hide Unlock, LockPhaseOf;
    UnlockLockPhase(s, m, i);
    LastUnlockEffect(s, m);
  }

  /** The mutex itself is paid back, and its heir has not reported its lock yet. */
  lemma ReleasedHeld(s: State, m: nat, i: nat)
    requires Inv(s) && LastUnlock(s, m) && Legal(s, UnlockStep(m)) && i < |s.tasks|
    ensures Held(s, i, m) == if s.cur == i then 1 else 0
    ensures Held(Unlock(s, m).0, i, m) == 0
  {
    hide Unlock, Inv, LockPhaseOf;
    InvWf(s);
    PhaseAfter(s, i);
    AsideAtOtherReturn(s);
    HandoffToBest(s, m);
    StepKeepsInv(s, UnlockStep(m));
    NextUnlock(s, m);
    PhaseAfter(Unlock(s, m).0, i);
  }

  lemma LastUnlockEffect(s: State, m: nat)
    requires Wf(s) && LastUnlock(s, m)
    ensures
      var (s', out) := Unlock(s, m);
      && out == Status(true) && |s'.mutexes| == |s.mutexes|
      && forall k | 0 <= k < |s.mutexes| && k != m :: s'.mutexes[k] == s.mutexes[k]
  {
    hide RestorePriority, Wake, Released;
  }

  lemma UnlockHeld(s: State, m: nat, i: nat, k: nat)
    requires Inv(s) && Legal(s, UnlockStep(m)) && i < |s.tasks|
    ensures Held(Unlock(s, m).0, i, k)
         == Held(s, i, k) - if s.cur == i && k == m && Unlock(s, m).1 == Status(true) then 1 else 0
  {
    hide RestorePriority;
    UnlockLockPhase(s, m, i);
    assert MutexShape(s, s.mutexes[m]);
    assert LockPhaseOk(s, i, LockPhaseOf(s.tasks[i]));
    if LastUnlock(s, m) {
      LastUnlockHeld(s, m, i, k);
    }
  }

  lemma PhaseAfter(s: State, i: nat)
    requires Inv(s) && i < |s.tasks|
    ensures LockPhaseOk(s, i, LockPhaseOf(s.tasks[i]))
  {}

  lemma ContinueHeld(s: State, i: nat, k: nat)
    requires Inv(s) && Legal(s, ContinueStep) && Current(s).call.LockCall? && i < |s.tasks|
    ensures Held(Continue(s).0, i, k)
         == Held(s, i, k) + if s.cur == i && Current(s).call == LockCall(k) && Continue(s).1 == Status(true) then 1
             else 0
  {
    ContinueReturns(s);
  }

  /** Before the start nobody holds anything, so creating a mutex changes no depth. */
  lemma CreateHeld(s: State, m: nat, i: nat, k: nat)
    requires Inv(s) && !s.started && m < |s.mutexes| && i < |s.tasks|
    ensures Held(CreateMutex(s, m), i, k) == Held(s, i, k) == 0
  {
    assert TaskOk(s, i, s.tasks[i]);
    if k < |s.mutexes| {
      assert MutexShape(s, s.mutexes[k]);
    }
  }

  lemma StepHeld(s: State, step: Step, i: nat, m: nat)
    requires Inv(s) && Legal(s, step) && i < |s.tasks|
    ensures |Next(s, step).0.tasks| == |s.tasks|
    ensures Held(Next(s, step).0, i, m) == Held(s, i, m) + Gained(s, step, i, m) - Paid(s, step, i, m)
  {
    hide Next, Tick, Lock, Unlock, CreateMutex, Continue, Inv, Held;
    InvWf(s);
    StepFrame(s, step);
    if step.LockStep? {
      NextLock(s, step.m, step.entered, step.timeout);
      LockHeld(s, step.m, step.entered, step.timeout, i, m);
    } else if step.UnlockStep? {
      NextUnlock(s, step.m);
      UnlockHeld(s, step.m, i, m);
    } else if step.CreateMutexStep? {
      NextCreateMutex(s, step.m);
      CreateHeld(s, step.m, i, m);
    } else if step.ContinueStep? && Current(s).call.LockCall? {
      NextContinue(s);
      ContinueHeld(s, i, m);
    } else {
      OtherHeld(s, step, i, m);
    }
  }

  lemma OtherHeld(s: State, step: Step, i: nat, m: nat)
    requires Inv(s) && Legal(s, step) && i < |s.tasks| && !IsMutexStep(step)
    requires !(step.ContinueStep? && Current(s).call.LockCall?)
    ensures |Next(s, step).0.tasks| == |s.tasks|
    ensures Held(Next(s, step).0, i, m) == Held(s, i, m) && Gained(s, step, i, m) == 0 && Paid(s, step, i, m) == 0
  {
    hide Next, Inv, LockPhaseOf;
    InvWf(s);
    StepFrame(s, step);
    LockPhaseSteps(s, step, i);
    AsideAtOtherReturn(s);
  }

  /** A task returning from another call is not handed a mutex at that moment. */
  lemma AsideAtOtherReturn(s: State)
    requires Inv(s)
    ensures !Current(s).call.LockCall? ==> LockPhaseOf(Current(s)) == Aside
  {}

  ghost function AllGained(s: State, steps: seq<Step>, i: nat, m: nat): nat
    requires LegalRun(s, steps)
    decreases |steps|
  {
    if steps == [] then 0 else Gained(s, steps[0], i, m) + AllGained(Next(s, steps[0]).0, steps[1..], i, m)
  }

  ghost function AllPaid(s: State, steps: seq<Step>, i: nat, m: nat): nat
    requires LegalRun(s, steps)
    decreases |steps|
  {
    if steps == [] then 0 else Paid(s, steps[0], i, m) + AllPaid(Next(s, steps[0]).0, steps[1..], i, m)
  }

  lemma {:induction false} RunHeld(s: State, steps: seq<Step>, i: nat, m: nat)
    requires Inv(s) && LegalRun(s, steps) && i < |s.tasks|
    ensures |Run(s, steps).tasks| == |s.tasks|
    ensures Held(Run(s, steps), i, m) == Held(s, i, m) + AllGained(s, steps, i, m) - AllPaid(s, steps, i, m)
    decreases |steps|
  {
    if steps != [] {
      StepKeepsInv(s, steps[0]);
      StepHeld(s, steps[0], i, m);
      RunHeld(Next(s, steps[0]).0, steps[1..], i, m);
    }
  }

  /** n reported locks need n reported unlocks: between its calls a task owns a mutex exactly while it has locked
      it more often than it has unlocked it, and the recursion count is the difference. */
  lemma LocksNeedUnlocks(priorities: seq<Word>, servicePriority: Word, pools: Pools, steps: seq<Step>, i: nat, m: nat)
    requires 1 <= |priorities| < NO_OWNER - 2 && i < |priorities| && m < pools.mutexes
    requires LegalRun(Boot(priorities, servicePriority, pools), steps)
    ensures
      var s0 := Boot(priorities, servicePriority, pools);
      var s := Run(s0, steps);
      var balance := AllGained(s0, steps, i, m) - AllPaid(s0, steps, i, m);
      && i < |s.tasks|
      && balance >= 0
      && (s.tasks[i].call.NoCall? ==>
            && (Holds(s, i, m) <==> balance > 0)
            && (Holds(s, i, m) ==> s.mutexes[m].recursion == balance))
  {
    var s0 := Boot(priorities, servicePriority, pools);
    var s := Run(s0, steps);
    BootInv(priorities, servicePriority, pools);
    BootTaskAt(priorities, servicePriority, i);
    RunHeld(s0, steps, i, m);
    RunKeepsInv(s0, steps);
    assert LockPhaseOk(s, i, LockPhaseOf(s.tasks[i]));
    if m < |s.mutexes| {
      assert MutexShape(s, s.mutexes[m]);
    }
  }
}
