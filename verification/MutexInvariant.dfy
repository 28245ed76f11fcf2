/** Mutex ownership and inherited priorities on every run. */
module MutexInvariant {
  import opened Types
  import opened Graph
  import opened TaskTable
  import opened Machine
  import opened WaitInvariant
  import opened Phases
  import Inh = Inheritance

  /** Where a task stands in JRT_MutexLock. */
  datatype LockPhase = Aside | BlockedOn(m: nat) | HandedOver(m: nat) | GaveUp(m: nat)

  function LockPhaseOf(t: Task): LockPhase {
    if !t.call.LockCall? then Aside
    else if t.state.Blocked? then BlockedOn(t.call.mutex)
    else if t.waitResult then HandedOver(t.call.mutex)
    else GaveUp(t.call.mutex)
  }

  predicate Holds(s: State, i: int, m: nat)
  {
    m < |s.mutexes| && s.mutexes[m].locked && s.mutexes[m].owner == i
  }

  ghost predicate HoldsSome(s: State, i: int) {
    exists m :: Holds(s, i, m)
  }

  predicate MutexShape(s: State, x: Mutex) {
    if x.locked then s.started && x.owner < s.apps && x.recursion >= 1 else x.recursion == 0
  }

  /** A blocked task waits for another task's lock; a task handed the mutex owns it once; a task whose
      wait timed out does not own it. */
  predicate LockPhaseOk(s: State, i: nat, p: LockPhase) {
    match p
    case Aside => true
    case BlockedOn(m) => m < |s.mutexes| && s.mutexes[m].locked && s.mutexes[m].owner != i
    case HandedOver(m) => Holds(s, i, m) && s.mutexes[m].recursion == 1
    case GaveUp(m) => !Holds(s, i, m)
  }

  ghost predicate MutexesOk(s: State) {
    && (forall m | 0 <= m < |s.mutexes| :: MutexShape(s, s.mutexes[m]))
    && (forall i | 0 <= i < |s.tasks| :: LockPhaseOk(s, i, LockPhaseOf(s.tasks[i])))
  }

  function Edges(s: State): (r: seq<int>)
    ensures |r| == |s.tasks| && Valid(r)
  {
    Owners(s.tasks, s.mutexes)
  }

  /** On every run: no task below its base or below a task it keeps waiting, and no boost outlives
      the last mutex held. */
  ghost predicate PrioritiesOk(s: State) {
    && Inh.Upper(Edges(s), Priorities(s.tasks), Bases(s.tasks))
    && (forall i | 0 <= i < |s.tasks| :: s.tasks[i].basePriority >= 0)
    && (forall i | 0 <= i < |s.tasks| && !HoldsSome(s, i) :: s.tasks[i].priority == s.tasks[i].basePriority)
  }

  ghost predicate LockInv(s: State) {
    MutexesOk(s) && PrioritiesOk(s)
  }

  /** The inheritance equation in the current state. */
  ghost predicate PrioritiesExact(s: State) {
    Inh.Exact(Edges(s), Priorities(s.tasks), Bases(s.tasks))
  }

  lemma NonNegative(s: State)
    requires PrioritiesOk(s)
    ensures forall i | 0 <= i < |s.tasks| :: s.tasks[i].priority >= 0
  {
    forall i | 0 <= i < |s.tasks| ensures s.tasks[i].priority >= 0 {
      assert Bases(s.tasks)[i] <= Priorities(s.tasks)[i];
    }
  }

  /** The wait-for edge of a task, read off its lock phase. */
  lemma EdgeOfPhase(s: State, i: nat)
    requires Sane(s) && MutexesOk(s) && i < |s.tasks|
    ensures Edges(s)[i] == match LockPhaseOf(s.tasks[i]) case BlockedOn(m) => s.mutexes[m].owner case _ => -1
  {
    var t := s.tasks[i];
    assert TaskOk(s, i, t) && LockPhaseOk(s, i, LockPhaseOf(t));
    if LockPhaseOf(t).BlockedOn? {
      assert MutexShape(s, s.mutexes[t.call.mutex]);
    }
  }

  lemma EdgeMeansHolding(s: State, i: nat)
    requires Sane(s) && MutexesOk(s) && i < |s.tasks| && Edges(s)[i] >= 0
    ensures HoldsSome(s, Edges(s)[i])
  {
    EdgeOfPhase(s, i);
    var t := s.tasks[i];
    assert LockPhaseOk(s, i, LockPhaseOf(t));
    assert Holds(s, Edges(s)[i], t.call.mutex);
  }

  // ---- steps of other protocols ----

  lemma OtherProtocolPhase(p: Protocol, t: Task, t': Task)
    requires Keeps(p, t, t') && p != MutexProtocol
    ensures LockPhaseOf(t') == LockPhaseOf(t)
  {}

  /** Unchanged mutexes, lock phases and priorities keep everything. */
  lemma LockFrame(s: State, s': State)
    requires Sane(s) && Sane(s') && LockInv(s) && SamePriorities(s, s')
    requires s'.mutexes == s.mutexes && s'.apps == s.apps && (s.started ==> s'.started)
    requires forall i | 0 <= i < |s.tasks| ::
               LockPhaseOf(s'.tasks[i]) == LockPhaseOf(s.tasks[i])
               || (LockPhaseOf(s'.tasks[i]) == Aside && !LockPhaseOf(s.tasks[i]).BlockedOn?)
    ensures LockInv(s')
    ensures PrioritiesExact(s) ==> PrioritiesExact(s')
  {
    assert forall i | 0 <= i < |s.tasks| :: LockPhaseOk(s, i, LockPhaseOf(s.tasks[i]));
    assert MutexesOk(s');
    forall i | 0 <= i < |s.tasks| ensures Edges(s')[i] == Edges(s)[i] {
      EdgeOfPhase(s, i);
      EdgeOfPhase(s', i);
    }
    assert Edges(s') == Edges(s);
    assert Priorities(s'.tasks) == Priorities(s.tasks);
    assert Bases(s'.tasks) == Bases(s.tasks);
    assert forall i, m :: Holds(s', i, m) == Holds(s, i, m);
    forall i | 0 <= i < |s'.tasks| && !HoldsSome(s', i) ensures s'.tasks[i].priority == s'.tasks[i].basePriority {
      assert !HoldsSome(s, i);
    }
  }

  /** Returning from a lock call only forgets its phase. */
  lemma ContinuePhase(s: State, i: nat)
    requires Sane(s) && Executing(s) && Current(s).call.LockCall? && i < |s.tasks|
    ensures
      var p, p' := LockPhaseOf(s.tasks[i]), LockPhaseOf(Continue(s).0.tasks[i]);
      p' == p || (p' == Aside && !p.BlockedOn?)
  {}

  lemma OtherStepPhase(s: State, step: Step, i: nat)
    requires Sane(s) && LockInv(s) && Legal(s, step) && !IsMutexStep(step) && !step.TickStep? && i < |s.tasks|
    ensures |Next(s, step).0.tasks| == |s.tasks|
    ensures
      var p, p' := LockPhaseOf(s.tasks[i]), LockPhaseOf(Next(s, step).0.tasks[i]);
      p' == p || (p' == Aside && !p.BlockedOn?)
  {
    hide Next, Continue;
    NonNegative(s);
    StepKeeps(s, step);
    if step.ContinueStep? && Current(s).call.LockCall? {
      NextContinue(s);
      ContinuePhase(s, i);
    } else {
      OtherProtocolPhase(StepProtocol(s, step), s.tasks[i], Next(s, step).0.tasks[i]);
    }
  }

  lemma OtherStepKeepsLocks(s: State, step: Step)
    requires Sane(s) && LockInv(s) && Legal(s, step) && !IsMutexStep(step) && !step.TickStep?
    ensures LockInv(Next(s, step).0)
    ensures PrioritiesExact(s) ==> PrioritiesExact(Next(s, step).0)
  {
    hide Next;
    NonNegative(s);
    StepSane(s, step);
    StepKeeps(s, step);
    StepFrame(s, step);
    forall i | 0 <= i < |s.tasks|
      ensures LockPhaseOf(Next(s, step).0.tasks[i]) == LockPhaseOf(s.tasks[i])
              || (LockPhaseOf(Next(s, step).0.tasks[i]) == Aside && !LockPhaseOf(s.tasks[i]).BlockedOn?)
    {
      OtherStepPhase(s, step, i);
    }
    LockFrame(s, Next(s, step).0);
  }

  lemma CreateMutexKeepsLocks(s: State, m: nat)
    requires Sane(s) && LockInv(s) && !s.started && m < |s.mutexes|
    ensures LockInv(CreateMutex(s, m))
    ensures PrioritiesExact(s) ==> PrioritiesExact(CreateMutex(s, m))
  {
    var s' := CreateMutex(s, m);
    CreateSane(s, CreateMutexStep(m));
    forall i | 0 <= i < |s.tasks| ensures LockPhaseOf(s.tasks[i]) == Aside {
      assert TaskOk(s, i, s.tasks[i]);
    }
    assert MutexesOk(s');
    forall i | 0 <= i < |s.tasks| ensures Edges(s')[i] == Edges(s)[i] {
      EdgeOfPhase(s, i);
      EdgeOfPhase(s', i);
    }
    assert Edges(s') == Edges(s);
    forall i | 0 <= i < |s'.tasks| && !HoldsSome(s', i) ensures s'.tasks[i].priority == s'.tasks[i].basePriority {
      assert !HoldsSome(s, i);
    }
  }


  // ---- lock ----

  lemma VectorsOfRaised(ts: seq<Task>, p: seq<int>, ms: seq<Mutex>)
    requires |p| == |ts|
    ensures Owners(WithPriorities(ts, p), ms) == Owners(ts, ms)
    ensures Priorities(WithPriorities(ts, p)) == p
    ensures Bases(WithPriorities(ts, p)) == Bases(ts)
  {}

  /** One mutex changes hands in a way that leaves the wait-for graph alone. */
  lemma SameGraph(s: State, s': State)
    requires Sane(s) && Sane(s') && LockInv(s) && MutexesOk(s') && s'.tasks == s.tasks
    requires forall i | 0 <= i < |s.tasks| :: Edges(s')[i] == Edges(s)[i]
    requires forall i, k | 0 <= i < |s.tasks| && Holds(s, i, k) :: Holds(s', i, k)
    ensures LockInv(s')
    ensures PrioritiesExact(s) ==> PrioritiesExact(s')
  {
    assert Edges(s') == Edges(s);
    forall i | 0 <= i < |s'.tasks| && !HoldsSome(s', i) ensures s'.tasks[i].priority == s'.tasks[i].basePriority {
      assert !HoldsSome(s, i);
    }
  }

  lemma LockUncontended(s: State, m: nat, entered: nat, timeout: Word)
    requires Sane(s) && LockInv(s) && Legal(s, LockStep(m, entered, timeout))
    requires !s.mutexes[m].locked || s.mutexes[m].owner == s.cur || timeout == 0
    ensures LockInv(Lock(s, m, entered, timeout).0)
    ensures PrioritiesExact(s) ==> PrioritiesExact(Lock(s, m, entered, timeout).0)
  {
    var s' := Lock(s, m, entered, timeout).0;
    LockSane(s, m, entered, timeout);
    LockUncontendedPhases(s, m, entered, timeout);
    forall i | 0 <= i < |s.tasks| ensures Edges(s')[i] == Edges(s)[i] {
      EdgeOfPhase(s, i);
      EdgeOfPhase(s', i);
    }
    SameGraph(s, s');
  }

  lemma LockUncontendedPhases(s: State, m: nat, entered: nat, timeout: Word)
    requires Sane(s) && LockInv(s) && Legal(s, LockStep(m, entered, timeout))
    requires !s.mutexes[m].locked || s.mutexes[m].owner == s.cur || timeout == 0
    ensures MutexesOk(Lock(s, m, entered, timeout).0) && Lock(s, m, entered, timeout).0.tasks == s.tasks
  {
    var s' := Lock(s, m, entered, timeout).0;
    forall i | 0 <= i < |s.tasks| ensures LockPhaseOk(s', i, LockPhaseOf(s'.tasks[i])) {
      assert LockPhaseOk(s, i, LockPhaseOf(s.tasks[i]));
    }
  }

  /** Everything but the last step of a contended lock: the owner chain has been raised. */
  function Boosted(s: State, m: nat): (r: State)
    requires Wf(s) && m < |s.mutexes|
    ensures |r.tasks| == |s.tasks|
  {
    s.(tasks := InheritPriority(s.tasks, s.mutexes, s.mutexes[m].owner, Current(s).priority))
  }

  ghost predicate Contended(s: State, m: nat)
    requires s.cur < |s.tasks|
  {
    AppContext(s) && m < |s.mutexes| && s.mutexes[m].locked && s.mutexes[m].owner != s.cur
  }

  lemma CurrentEdge(s: State)
    requires Sane(s) && s.cur < |s.tasks| && !Current(s).state.Blocked?
    ensures Edges(s)[s.cur] == -1
  {}

  lemma BoostedVectors(s: State, m: nat)
    requires Sane(s) && LockInv(s) && Contended(s, m)
    ensures
      var o := s.mutexes[m].owner;
      && o < |s.tasks|
      && Edges(Boosted(s, m)) == Edges(s)
      && Bases(Boosted(s, m).tasks) == Bases(s.tasks)
      && Priorities(Boosted(s, m).tasks)
         == Inh.Raise(Edges(s), Priorities(s.tasks), o, Priorities(s.tasks)[s.cur], |s.tasks|)
  {
    assert MutexShape(s, s.mutexes[m]);
    VectorsOfRaised(s.tasks,
        Inh.Raise(Edges(s), Priorities(s.tasks), s.mutexes[m].owner, Current(s).priority, |s.tasks|), s.mutexes);
  }

  /** Whoever is raised holds a mutex. */
  lemma RaisedHolds(s: State, m: nat, i: nat)
    requires Sane(s) && LockInv(s) && Contended(s, m) && i < |s.tasks|
    ensures Boosted(s, m).tasks[i].priority != s.tasks[i].priority ==> HoldsSome(s, i)
  {
    BoostedVectors(s, m);
    var o := s.mutexes[m].owner;
    Inh.RaiseAt(Edges(s), Priorities(s.tasks), o, Current(s).priority, |s.tasks|);
    assert Holds(s, o, m);
    if Boosted(s, m).tasks[i].priority != s.tasks[i].priority && i != o {
      assert Priorities(Boosted(s, m).tasks)[i] != Priorities(s.tasks)[i];
      var w := VisitsPredecessor(Edges(s), o, |s.tasks|, i);
      EdgeMeansHolding(s, w);
    }
  }

  lemma BoostedKeepsLocks(s: State, m: nat)
    requires Sane(s) && LockInv(s) && Contended(s, m)
    ensures Sane(Boosted(s, m)) && LockInv(Boosted(s, m))
  {
    var b := Boosted(s, m);
    InheritSane(s, s.mutexes[m].owner, Current(s).priority);
    InheritKeeps(s, s.mutexes[m].owner, Current(s).priority);
    BoostedVectors(s, m);
    SameMutexes(s, b);
    hide Boosted, MutexesOk, TasksOk;
    Inh.RaiseKeepsUpper(Edges(s), Priorities(s.tasks), Bases(s.tasks), s.mutexes[m].owner, Current(s).priority);
    forall i | 0 <= i < |b.tasks| ensures b.tasks[i].basePriority >= 0 {
      assert Bases(b.tasks)[i] == Bases(s.tasks)[i];
    }
    forall i | 0 <= i < |b.tasks| && !HoldsSome(b, i) ensures b.tasks[i].priority == b.tasks[i].basePriority {
      assert forall k :: Holds(b, i, k) == Holds(s, i, k);
      RaisedHolds(s, m, i);
      assert Bases(b.tasks)[i] == Bases(s.tasks)[i];
    }
  }

  /** The state in which the caller waits for the mutex. */
  function Queued(s: State, m: nat, d: Deadline): (r: State)
    requires Wf(s) && m < |s.mutexes|
    ensures |r.tasks| == |s.tasks|
  {
    Block(Boosted(s, m), MutexRef(m), MutexWait, d, LockCall(m))
  }

  /** The running task starts to wait for another task's mutex. */
  lemma BlockPhases(s: State, m: nat, d: Deadline)
    requires Sane(s) && MutexesOk(s) && Contended(s, m)
    ensures Sane(Block(s, MutexRef(m), MutexWait, d, LockCall(m)))
    ensures MutexesOk(Block(s, MutexRef(m), MutexWait, d, LockCall(m)))
  {
    BlockSane(s, MutexRef(m), MutexWait, d, LockCall(m));
    var q := Block(s, MutexRef(m), MutexWait, d, LockCall(m));
    forall i | 0 <= i < |q.tasks| ensures LockPhaseOk(q, i, LockPhaseOf(q.tasks[i])) {
      assert LockPhaseOk(s, i, LockPhaseOf(s.tasks[i]));
    }
  }

  lemma QueuedPhases(s: State, m: nat, d: Deadline)
    requires Sane(s) && LockInv(s) && Contended(s, m)
    ensures Sane(Queued(s, m, d)) && MutexesOk(Queued(s, m, d))
  {
    hide TasksOk, MutexesOk, PrioritiesOk, InheritPriority, Block;
    BoostedKeepsLocks(s, m);
    InheritKeeps(s, s.mutexes[m].owner, Current(s).priority);
    assert Rest(Boosted(s, m).tasks[s.cur]) == Rest(s.tasks[s.cur]);
    BlockPhases(Boosted(s, m), m, d);
  }

  lemma QueuedEdges(s: State, m: nat, d: Deadline)
    requires Sane(s) && LockInv(s) && Contended(s, m)
    ensures Edges(Queued(s, m, d)) == Edges(s)[s.cur := s.mutexes[m].owner as int]
  {
    BoostedVectors(s, m);
    BoostedKeepsLocks(s, m);
    QueuedPhases(s, m, d);
    var b := Boosted(s, m);
    var q := Queued(s, m, d);
    forall i | 0 <= i < |s.tasks| ensures Edges(q)[i] == Edges(s)[s.cur := s.mutexes[m].owner as int][i] {
      EdgeOfPhase(q, i);
      EdgeOfPhase(b, i);
    }
  }

  lemma QueuedVectors(s: State, m: nat, d: Deadline)
    requires Sane(s) && LockInv(s) && Contended(s, m)
    ensures
      var o := s.mutexes[m].owner;
      && o < |s.tasks|
      && Bases(Queued(s, m, d).tasks) == Bases(s.tasks)
      && Priorities(Queued(s, m, d).tasks)
         == Inh.Raise(Edges(s), Priorities(s.tasks), o, Priorities(s.tasks)[s.cur], |s.tasks|)
  {
    BoostedVectors(s, m);
    assert Priorities(Queued(s, m, d).tasks) == Priorities(Boosted(s, m).tasks);
    assert Bases(Queued(s, m, d).tasks) == Bases(Boosted(s, m).tasks);
  }

  lemma QueuedKeepsLocks(s: State, m: nat, d: Deadline)
    requires Sane(s) && LockInv(s) && Contended(s, m)
    ensures LockInv(Queued(s, m, d))
    ensures PrioritiesExact(s) ==> PrioritiesExact(Queued(s, m, d))
  {
    QueuedPhases(s, m, d);
    QueuedEdges(s, m, d);
    QueuedVectors(s, m, d);
    CurrentEdge(s);
    var o := s.mutexes[m].owner;
    var q := Queued(s, m, d);
    Inh.BlockKeepsUpper(Edges(s), Priorities(s.tasks), Bases(s.tasks), s.cur, o);
    if PrioritiesExact(s) {
      Inh.BlockKeepsExact(Edges(s), Priorities(s.tasks), Bases(s.tasks), s.cur, o);
    }
    BoostedKeepsLocks(s, m);
    var b := Boosted(s, m);
    forall i | 0 <= i < |q.tasks|
      ensures q.tasks[i].basePriority >= 0
      ensures !HoldsSome(q, i) ==> q.tasks[i].priority == q.tasks[i].basePriority
    {
      assert q.tasks[i].basePriority == b.tasks[i].basePriority && q.tasks[i].priority == b.tasks[i].priority;
      assert forall k :: Holds(b, i, k) == Holds(q, i, k);
    }
  }

  lemma LockKeepsLocks(s: State, m: nat, entered: nat, timeout: Word)
    requires Sane(s) && LockInv(s) && Legal(s, LockStep(m, entered, timeout))
    ensures LockInv(Lock(s, m, entered, timeout).0)
  {
    if Contended(s, m) && timeout != 0 {
      BoostedKeepsLocks(s, m);
      QueuedKeepsLocks(s, m, MakeDeadline(Wrap(entered), timeout));
    } else {
      LockUncontended(s, m, entered, timeout);
    }
  }

  /** The call boosts the owner chain but returns without waiting: its deadline has already passed. */
  ghost predicate BoostsInVain(s: State, m: nat, entered: nat, timeout: Word)
    requires s.cur < |s.tasks|
  {
    Contended(s, m) && timeout != 0 && Expired(s.Now(), MakeDeadline(Wrap(entered), timeout))
  }

  /** Nothing is left behind by such a call when the owner already ran at the caller's priority, or is deadlocked. */
  ghost predicate VainBoostHarmless(s: State, m: nat)
    requires s.cur < |s.tasks| && m < |s.mutexes| && s.mutexes[m].owner < |s.tasks|
  {
    Current(s).priority <= s.tasks[s.mutexes[m].owner].priority || OnCycle(Edges(s), s.mutexes[m].owner)
  }

  /** A lock keeps the inheritance equation exactly unless it boosts in vain a lower owner that is not deadlocked. */
  lemma LockExactIff(s: State, m: nat, entered: nat, timeout: Word)
    requires Sane(s) && LockInv(s) && PrioritiesExact(s) && Legal(s, LockStep(m, entered, timeout))
    requires BoostsInVain(s, m, entered, timeout) ==> s.mutexes[m].owner < |s.tasks|
    ensures PrioritiesExact(Lock(s, m, entered, timeout).0)
            <==> (BoostsInVain(s, m, entered, timeout) ==> VainBoostHarmless(s, m))
  {
    if BoostsInVain(s, m, entered, timeout) {
      BoostedVectors(s, m);
      Inh.BoostAloneExactIff(Edges(s), Priorities(s.tasks), Bases(s.tasks), s.mutexes[m].owner, Current(s).priority);
    } else if Contended(s, m) && timeout != 0 {
      QueuedKeepsLocks(s, m, MakeDeadline(Wrap(entered), timeout));
    } else {
      LockUncontended(s, m, entered, timeout);
    }
  }

  // ---- unlock ----

  ghost predicate LastUnlock(s: State, m: nat)
    requires s.cur < |s.tasks|
  {
    AppContext(s) && m < |s.mutexes| && Holds(s, s.cur, m) && s.mutexes[m].recursion == 1
  }

  /** Owner and waiter metadata after the last unlock, before priorities are recomputed. */
  function Transferred(s: State, m: nat): (r: State)
    requires Wf(s) && m < |s.mutexes|
    ensures OnlyMutexes(s, r)
  {
    var (ts, to) := Wake(s.tasks, MutexRef(m), MutexWait);
    s.(tasks := ts, mutexes := s.mutexes[m := Released(s.mutexes[m], to)])
  }

  /** The task that holds the mutex afterwards, or the caller when nobody does. */
  function Heir(s: State, m: nat): (r: nat)
    requires s.cur < |s.tasks|
    ensures r < |s.tasks|
  {
    var to := Wake(s.tasks, MutexRef(m), MutexWait).1;
    if to >= 0 then to else s.cur
  }

  lemma BlockedOnIsWaiting(s: State, m: nat, i: nat)
    requires Sane(s) && i < |s.tasks|
    ensures LockPhaseOf(s.tasks[i]) == BlockedOn(m) <==> Waiting(s.tasks[i], MutexRef(m), MutexWait)
  {
    assert TaskOk(s, i, s.tasks[i]);
  }

  lemma TransferredSane(s: State, m: nat)
    requires Sane(s) && LockInv(s) && LastUnlock(s, m)
    ensures Sane(Transferred(s, m))
  {
    assert MutexLinks(Transferred(s, m).mutexes) == MutexLinks(s.mutexes);
    WakesOnlySane(s, Transferred(s, m));
  }

  /** The heir comes out with the mutex in hand; every other waiter of it now waits for the heir. */
  lemma TransferredPhase(s: State, m: nat, i: nat)
    requires Sane(s) && LockInv(s) && LastUnlock(s, m) && i < |s.tasks|
    ensures
      var t' := Transferred(s, m);
      && LockPhaseOk(t', i, LockPhaseOf(t'.tasks[i]))
      && LockPhaseOf(t'.tasks[i])
         == if i == Heir(s, m) && i != s.cur then HandedOver(m) else LockPhaseOf(s.tasks[i])
  {
    hide Transferred, Heir, LockPhaseOk, LockPhaseOf, TasksOk, LockInv;
    if i == Heir(s, m) && i != s.cur {
      HeirPhase(s, m);
    } else {
      BystanderPhase(s, m, i);
    }
  }

  lemma HeirPhase(s: State, m: nat)
    requires Sane(s) && LastUnlock(s, m) && Heir(s, m) != s.cur
    ensures
      var (t', h) := (Transferred(s, m), Heir(s, m));
      LockPhaseOf(t'.tasks[h]) == HandedOver(m) && LockPhaseOk(t', h, HandedOver(m))
  {
    BlockedOnIsWaiting(s, m, Heir(s, m));
    BestWaiterIsBest(s.tasks, MutexRef(m), MutexWait, |s.tasks|);
  }

  lemma BystanderPhase(s: State, m: nat, i: nat)
    requires Sane(s) && LockInv(s) && LastUnlock(s, m) && i < |s.tasks| && (i != Heir(s, m) || i == s.cur)
    ensures
      var t' := Transferred(s, m);
      LockPhaseOf(t'.tasks[i]) == LockPhaseOf(s.tasks[i]) && LockPhaseOk(t', i, LockPhaseOf(s.tasks[i]))
  {
    assert LockPhaseOk(s, i, LockPhaseOf(s.tasks[i]));
    BlockedOnIsWaiting(s, m, i);
    BestWaiterIsBest(s.tasks, MutexRef(m), MutexWait, |s.tasks|);
  }

  lemma TransferredMutexesOk(s: State, m: nat)
    requires Sane(s) && LockInv(s) && LastUnlock(s, m)
    ensures MutexesOk(Transferred(s, m))
  {
    var t' := Transferred(s, m);
    forall i | 0 <= i < |s.tasks| ensures LockPhaseOk(t', i, LockPhaseOf(t'.tasks[i])) {
      TransferredPhase(s, m, i);
    }
    var to := Wake(s.tasks, MutexRef(m), MutexWait).1;
    if to >= 0 {
      BlockedOnIsWaiting(s, m, to);
      assert TaskOk(s, to, s.tasks[to]);
    }
  }

  lemma TransferredOwners(s: State, m: nat)
    requires Wf(s) && m < |s.mutexes|
    ensures
      var (ms, h) := (Transferred(s, m).mutexes, Heir(s, m));
      && |ms| == |s.mutexes| && (forall k | 0 <= k < |ms| && k != m :: ms[k] == s.mutexes[k])
      && (h != s.cur ==> ms[m].owner == h && Waiting(s.tasks[h], MutexRef(m), MutexWait))
  {
    BestWaiterIsBest(s.tasks, MutexRef(m), MutexWait, |s.tasks|);
  }

  lemma TransferredGraph(s: State, m: nat)
    requires Sane(s) && LockInv(s) && LastUnlock(s, m)
    ensures Inh.HandedOver(Edges(s), Edges(Transferred(s, m)), s.cur, Heir(s, m))
    ensures Edges(s)[s.cur] == -1
  {
    hide Transferred, Heir, MutexesOk, TasksOk, PrioritiesOk, LockPhaseOk;
    var t' := Transferred(s, m);
    var h := Heir(s, m);
    TransferredSane(s, m);
    TransferredMutexesOk(s, m);
    TransferredOwners(s, m);
    CurrentEdge(s);
    TransferredPhase(s, m, h);
    TransferredPhase(s, m, s.cur);
    EdgeOfPhase(t', h);
    EdgeOfPhase(t', s.cur);
    forall i | 0 <= i < |s.tasks| && i != h
      ensures Edges(t')[i] == Edges(s)[i] || (Edges(s)[i] == s.cur && Edges(t')[i] == h)
    {
      TransferredPhase(s, m, i);
      EdgeOfPhase(s, i);
      EdgeOfPhase(t', i);
      if LockPhaseOf(s.tasks[i]) == BlockedOn(m) {
        NoWaiterNoHeir(s, m, i);
      }
    }
    if h != s.cur {
      BlockedOnIsWaiting(s, m, h);
      EdgeOfPhase(s, h);
    }
  }

  lemma NoWaiterNoHeir(s: State, m: nat, i: nat)
    requires Sane(s) && LastUnlock(s, m) && i < |s.tasks| && LockPhaseOf(s.tasks[i]) == BlockedOn(m)
    ensures Heir(s, m) != s.cur
  {
    BlockedOnIsWaiting(s, m, i);
    BestWaiterIsBest(s.tasks, MutexRef(m), MutexWait, |s.tasks|);
  }

  /** The unlocked state: the transferred one with the two priorities recomputed. */
  lemma UnlockIsRecomputed(s: State, m: nat)
    requires Sane(s) && LockInv(s) && LastUnlock(s, m)
    ensures
      var t' := Transferred(s, m);
      var u := Unlock(s, m).0;
      && OnlyTasks(t', u)
      && (forall i | 0 <= i < |s.tasks| :: Rest(u.tasks[i]) == Rest(t'.tasks[i]))
      && Edges(u) == Edges(t') && Bases(u.tasks) == Bases(t'.tasks)
      && Priorities(u.tasks)
         == Inh.Recompute(Edges(t'), Inh.Recompute(Edges(t'), Priorities(t'.tasks), Bases(t'.tasks), s.cur),
                          Bases(t'.tasks), Heir(s, m))
  {
    hide TasksOk, MutexesOk, PrioritiesOk, Inh.Effective, Wake, Released;
    var t' := Transferred(s, m);
    var g, p, b := Edges(t'), Priorities(t'.tasks), Bases(t'.tasks);
    VectorsOfRaised(t'.tasks, Inh.Recompute(g, p, b, s.cur), t'.mutexes);
    var p1 := Inh.Recompute(g, p, b, s.cur);
    var ts1 := RestorePriority(t'.tasks, t'.mutexes, s.cur);
    if Heir(s, m) != s.cur || Wake(s.tasks, MutexRef(m), MutexWait).1 >= 0 {
      VectorsOfRaised(ts1, Inh.Recompute(g, p1, b, Heir(s, m)), t'.mutexes);
    } else {
      TransferredGraph(s, m);
      Inh.RecomputeTwice(g, p, b, s.cur);
    }
  }

  lemma TransferredVectors(s: State, m: nat)
    requires Wf(s) && m < |s.mutexes|
    ensures Priorities(Transferred(s, m).tasks) == Priorities(s.tasks)
    ensures Bases(Transferred(s, m).tasks) == Bases(s.tasks)
  {}

  /** Priorities do not matter to ownership. */
  lemma SameMutexes(s: State, s': State)
    requires MutexesOk(s) && s'.mutexes == s.mutexes && s'.apps == s.apps && s'.started == s.started
    requires |s'.tasks| == |s.tasks| && forall i | 0 <= i < |s.tasks| :: Rest(s'.tasks[i]) == Rest(s.tasks[i])
    ensures MutexesOk(s')
  {
    forall i | 0 <= i < |s'.tasks| ensures LockPhaseOk(s', i, LockPhaseOf(s'.tasks[i])) {
      assert LockPhaseOk(s, i, LockPhaseOf(s.tasks[i]));
      assert Rest(s'.tasks[i]) == Rest(s.tasks[i]);
    }
  }

  lemma LastUnlockPhases(s: State, m: nat)
    requires Sane(s) && LockInv(s) && LastUnlock(s, m)
    ensures MutexesOk(Unlock(s, m).0)
  {
    var t' := Transferred(s, m);
    var u := Unlock(s, m).0;
    TransferredMutexesOk(s, m);
    UnlockIsRecomputed(s, m);
    SameMutexes(t', u);
  }

  lemma LastUnlockPriorities(s: State, m: nat)
    requires Sane(s) && LockInv(s) && LastUnlock(s, m)
    ensures
      var u := Unlock(s, m).0;
      && Inh.Upper(Edges(u), Priorities(u.tasks), Bases(u.tasks))
      && (PrioritiesExact(s) ==> PrioritiesExact(u))
      && Bases(u.tasks) == Bases(s.tasks)
  {
    TransferredGraph(s, m);
    TransferredVectors(s, m);
    UnlockIsRecomputed(s, m);
    var g' := Edges(Transferred(s, m));
    Inh.HandoverKeepsUpper(Edges(s), g', Priorities(s.tasks), Bases(s.tasks), s.cur, Heir(s, m));
    if PrioritiesExact(s) {
      Inh.HandoverKeepsExact(Edges(s), g', Priorities(s.tasks), Bases(s.tasks), s.cur, Heir(s, m));
    }
  }

  lemma LastUnlockKeepsLocks(s: State, m: nat)
    requires Sane(s) && LockInv(s) && LastUnlock(s, m)
    ensures LockInv(Unlock(s, m).0)
    ensures PrioritiesExact(s) ==> PrioritiesExact(Unlock(s, m).0)
  {
    var u := Unlock(s, m).0;
    LastUnlockPhases(s, m);
    LastUnlockPriorities(s, m);
    forall i | 0 <= i < |s.tasks|
      ensures u.tasks[i].basePriority >= 0
      ensures !HoldsSome(u, i) ==> u.tasks[i].priority == u.tasks[i].basePriority
    {
      assert u.tasks[i].basePriority == Bases(u.tasks)[i] == Bases(s.tasks)[i];
      if !HoldsSome(u, i) {
        UnboostedAfterUnlock(s, m, i);
      }
    }
  }

  /** The old owner drops to its base unless it holds another mutex. */
  lemma UnboostedAfterUnlock(s: State, m: nat, i: nat)
    requires Sane(s) && LockInv(s) && LastUnlock(s, m) && i < |s.tasks| && !HoldsSome(Unlock(s, m).0, i)
    ensures Unlock(s, m).0.tasks[i].priority == s.tasks[i].basePriority
  {
    hide Unlock, Transferred, Heir, TasksOk, MutexesOk;
    var t' := Transferred(s, m);
    var u := Unlock(s, m).0;
    UnlockIsRecomputed(s, m);
    TransferredVectors(s, m);
    TransferredSane(s, m);
    TransferredMutexesOk(s, m);
    TransferredOwners(s, m);
    assert forall k :: Holds(u, i, k) == Holds(t', i, k);
    assert Priorities(u.tasks)[i] == u.tasks[i].priority;
    if i != s.cur && i != Heir(s, m) {
      forall k ensures !Holds(s, i, k) {
        assert !Holds(t', i, k);
      }
      assert !HoldsSome(s, i);
      assert Priorities(s.tasks)[i] == s.tasks[i].priority;
    } else {
      forall w | 0 <= w < |s.tasks| ensures Edges(t')[w] != i {
        if Edges(t')[w] == i {
          EdgeMeansHolding(t', w);
        }
      }
      var p1 := Inh.Recompute(Edges(t'), Priorities(s.tasks), Bases(s.tasks), s.cur);
      Inh.ScanIsMax(Edges(t'), Priorities(s.tasks), Bases(s.tasks), i, |s.tasks|);
      Inh.ScanIsMax(Edges(t'), p1, Bases(s.tasks), i, |s.tasks|);
    }
  }

  lemma UnlockKeepsLocks(s: State, m: nat)
    requires Sane(s) && LockInv(s) && Legal(s, UnlockStep(m))
    ensures LockInv(Unlock(s, m).0)
    ensures PrioritiesExact(s) ==> PrioritiesExact(Unlock(s, m).0)
  {
    if LastUnlock(s, m) {
      LastUnlockKeepsLocks(s, m);
    } else {
      var s' := Unlock(s, m).0;
      UnlockSane(s, m);
      InnerUnlockPhases(s, m);
      forall i | 0 <= i < |s.tasks| ensures Edges(s')[i] == Edges(s)[i] {
        EdgeOfPhase(s, i);
        EdgeOfPhase(s', i);
      }
      SameGraph(s, s');
    }
  }

  lemma InnerUnlockPhases(s: State, m: nat)
    requires Sane(s) && LockInv(s) && Legal(s, UnlockStep(m)) && !LastUnlock(s, m)
    ensures MutexesOk(Unlock(s, m).0) && Unlock(s, m).0.tasks == s.tasks
  {
    var s' := Unlock(s, m).0;
    assert MutexShape(s, s.mutexes[m]);
    forall i | 0 <= i < |s.tasks| ensures LockPhaseOk(s', i, LockPhaseOf(s'.tasks[i])) {
      assert LockPhaseOk(s, i, LockPhaseOf(s.tasks[i]));
    }
  }

  // ---- tick ----

  function Ticked(s: State, k: nat): (r: State)
    requires k < |s.tasks|
    ensures OnlyTasks(s, r)
  {
    s.(tasks := TickTask(s.tasks, s.mutexes, s.Now(), k))
  }

  lemma TickedSane(s: State, k: nat)
    requires Sane(s) && k < |s.tasks|
    ensures Sane(Ticked(s, k))
  {
    var s' := Ticked(s, k);
    forall i | 0 <= i < |s.tasks| ensures TaskOk(s', i, s'.tasks[i]) {
      var t := if i == k then TickOne(s.tasks[i], s.Now()) else s.tasks[i];
      TickTaskAt(s.tasks, s.mutexes, s.Now(), k, i);
      TickOneOk(s, i, s.tasks[i], s.Now());
      TaskOkRest(s, i, t, s'.tasks[i]);
      TaskOkFrame(s, s', i, s'.tasks[i]);
    }
  }

  /** Task k does not wait for a mutex, or not long enough yet. */
  lemma QuietTick(s: State, k: nat)
    requires Sane(s) && LockInv(s) && k < |s.tasks|
    requires !(TimedOut(s.tasks[k], s.Now()) && LockPhaseOf(s.tasks[k]).BlockedOn?)
    ensures LockInv(Ticked(s, k))
    ensures PrioritiesExact(s) ==> PrioritiesExact(Ticked(s, k))
  {
    var s' := Ticked(s, k);
    TickedSane(s, k);
    assert TaskOk(s, k, s.tasks[k]);
    assert s'.tasks == s.tasks[k := TickOne(s.tasks[k], s.Now())];
    LockFrame(s, s');
  }

  /** The waiter k leaves mutex m at its deadline. */
  function Departed(s: State, k: nat): (r: State)
    requires k < |s.tasks|
    ensures OnlyTasks(s, r)
  {
    s.(tasks := s.tasks[k := WaitEnd(s.tasks[k], false)])
  }

  ghost predicate LeavesMutex(s: State, k: nat, m: nat) {
    && k < |s.tasks| && m < |s.mutexes|
    && TimedOut(s.tasks[k], s.Now()) && LockPhaseOf(s.tasks[k]) == BlockedOn(m)
  }

  lemma DepartedOk(s: State, k: nat, m: nat)
    requires Sane(s) && LockInv(s) && LeavesMutex(s, k, m)
    ensures Sane(Departed(s, k)) && MutexesOk(Departed(s, k))
  {
    var d := Departed(s, k);
    WakesOnlySane(s, d);
    forall i | 0 <= i < |s.tasks| ensures LockPhaseOk(d, i, LockPhaseOf(d.tasks[i])) {
      assert LockPhaseOk(s, i, LockPhaseOf(s.tasks[i]));
    }
  }

  lemma DepartedVectors(s: State, k: nat, m: nat)
    requires Sane(s) && LockInv(s) && LeavesMutex(s, k, m)
    ensures Edges(s)[k] == s.mutexes[m].owner
    ensures Edges(Departed(s, k)) == Edges(s)[k := -1]
    ensures Priorities(Departed(s, k).tasks) == Priorities(s.tasks)
    ensures Bases(Departed(s, k).tasks) == Bases(s.tasks)
  {
    var d := Departed(s, k);
    DepartedOk(s, k, m);
    EdgeOfPhase(s, k);
    forall i | 0 <= i < |s.tasks| ensures Edges(d)[i] == Edges(s)[k := -1][i] {
      EdgeOfPhase(s, i);
      EdgeOfPhase(d, i);
    }
  }

  lemma TimeoutIsRestored(s: State, k: nat, m: nat)
    requires Sane(s) && LockInv(s) && LeavesMutex(s, k, m)
    ensures
      var d := Departed(s, k);
      var s' := Ticked(s, k);
      && (forall i | 0 <= i < |s.tasks| :: Rest(s'.tasks[i]) == Rest(d.tasks[i]))
      && Edges(s') == Edges(d) && Bases(s'.tasks) == Bases(s.tasks)
      && Priorities(s'.tasks)
         == Inh.Restore(Edges(s)[k := -1], Priorities(s.tasks), Bases(s.tasks), Edges(s)[k], |s.tasks|)
  {
    DepartedVectors(s, k, m);
    assert TaskOk(s, k, s.tasks[k]) && LockPhaseOk(s, k, LockPhaseOf(s.tasks[k]));
    assert MutexShape(s, s.mutexes[m]);
    var d := Departed(s, k);
    VectorsOfRaised(d.tasks, Inh.Restore(Edges(d), Priorities(d.tasks), Bases(d.tasks), Edges(s)[k], |s.tasks|),
        s.mutexes);
  }

  lemma TimeoutPhases(s: State, k: nat, m: nat)
    requires Sane(s) && LockInv(s) && LeavesMutex(s, k, m)
    ensures MutexesOk(Ticked(s, k))
  {
    DepartedOk(s, k, m);
    TimeoutIsRestored(s, k, m);
    SameMutexes(Departed(s, k), Ticked(s, k));
  }

  lemma TimeoutKeepsLocks(s: State, k: nat, m: nat)
    requires Sane(s) && LockInv(s) && LeavesMutex(s, k, m)
    ensures LockInv(Ticked(s, k))
    ensures PrioritiesExact(s) ==> PrioritiesExact(Ticked(s, k))
  {
    var s' := Ticked(s, k);
    TimeoutPhases(s, k, m);
    DepartedVectors(s, k, m);
    TimeoutIsRestored(s, k, m);
    var g, p, b := Edges(s), Priorities(s.tasks), Bases(s.tasks);
    Inh.TimeoutKeepsUpper(g, p, b, k);
    if PrioritiesExact(s) {
      Inh.TimeoutKeepsExact(g, p, b, k);
    }
    forall i | 0 <= i < |s.tasks|
      ensures s'.tasks[i].basePriority >= 0
      ensures !HoldsSome(s', i) ==> s'.tasks[i].priority == s'.tasks[i].basePriority
    {
      assert s'.tasks[i].basePriority == Bases(s'.tasks)[i] == b[i];
      assert s'.tasks[i].priority == Priorities(s'.tasks)[i];
      if !HoldsSome(s', i) {
        assert forall j :: Holds(s', i, j) == Holds(s, i, j);
        assert !HoldsSome(s, i);
        forall w | 0 <= w < |s.tasks| ensures g[w] != i {
          if g[w] == i {
            EdgeMeansHolding(s, w);
          }
        }
        assert p[i] == b[i];
        Inh.RestoreUnheld(g[k := -1], p, b, g[k], |s.tasks|, i);
      }
    }
  }

  lemma TickedKeepsLocks(s: State, k: nat)
    requires Sane(s) && LockInv(s) && k < |s.tasks|
    ensures Sane(Ticked(s, k)) && LockInv(Ticked(s, k))
    ensures PrioritiesExact(s) ==> PrioritiesExact(Ticked(s, k))
  {
    TickedSane(s, k);
    var phase := LockPhaseOf(s.tasks[k]);
    if TimedOut(s.tasks[k], s.Now()) && phase.BlockedOn? {
      assert LockPhaseOk(s, k, phase);
      TimeoutKeepsLocks(s, k, phase.m);
    } else {
      QuietTick(s, k);
    }
  }

  function AllTicked(s: State, k: nat): (r: State)
    requires k <= |s.tasks|
    ensures OnlyTasks(s, r)
  {
    s.(tasks := TickTasks(s.tasks, s.mutexes, s.Now(), k))
  }

  lemma AllTickedStep(s: State, k: nat)
    requires k < |s.tasks|
    ensures AllTicked(Ticked(s, k), k + 1) == AllTicked(s, k)
  {}

  lemma {:induction false} TickTasksKeepsLocks(s: State, k: nat)
    requires Sane(s) && LockInv(s) && k <= |s.tasks|
    ensures LockInv(AllTicked(s, k))
    ensures PrioritiesExact(s) ==> PrioritiesExact(AllTicked(s, k))
    decreases |s.tasks| - k
  {
    if k < |s.tasks| {
      TickedKeepsLocks(s, k);
      AllTickedStep(s, k);
      TickTasksKeepsLocks(Ticked(s, k), k + 1);
    } else {
      assert AllTicked(s, k) == s;
    }
  }

  lemma TimerTickKeepsLocks(s: State)
    requires Sane(s) && LockInv(s)
    ensures Sane(TimerTick(s)) && LockInv(TimerTick(s))
    ensures PrioritiesExact(s) ==> PrioritiesExact(TimerTick(s))
  {
    var s1 := TimerTick(s);
    TimerTickSane(s);
    WakeServiceKeeps(s, s1.tasks);
    forall i | 0 <= i < |s.tasks| ensures LockPhaseOf(s1.tasks[i]) == LockPhaseOf(s.tasks[i]) {
      OtherProtocolPhase(NoProtocol, s.tasks[i], s1.tasks[i]);
    }
    LockFrame(s, s1);
  }

  lemma ClockKeepsLocks(s: State)
    requires Sane(s) && LockInv(s)
    ensures
      var s0 := s.(ticks := s.ticks + 1);
      Sane(s0) && LockInv(s0) && (PrioritiesExact(s) ==> PrioritiesExact(s0))
  {
    var s0 := s.(ticks := s.ticks + 1);
    WakesOnlySane(s, s0);
    LockFrame(s, s0);
  }

  lemma TickKeepsLocks(s: State)
    requires Sane(s) && LockInv(s)
    ensures LockInv(Tick(s))
    ensures PrioritiesExact(s) ==> PrioritiesExact(Tick(s))
  {
    ClockKeepsLocks(s);
    var s0 := s.(ticks := s.ticks + 1);
    TimerTickKeepsLocks(s0);
    TickTasksKeepsLocks(TimerTick(s0), 0);
    assert Tick(s) == AllTicked(TimerTick(s0), 0);
  }

  // ---- every step ----

  lemma InSane(s: State)
    requires Sane(s)
    ensures Wf(s)
  {}

  lemma StepKeepsLocks(s: State, step: Step)
    requires Sane(s) && LockInv(s) && Legal(s, step)
    ensures LockInv(Next(s, step).0)
  {
    hide Next, Sane, LockInv, Tick, Lock, Unlock, CreateMutex;
    InSane(s);
    if step.TickStep? {
      NextTick(s);
      TickKeepsLocks(s);
    } else if step.LockStep? {
      NextLock(s, step.m, step.entered, step.timeout);
      LockKeepsLocks(s, step.m, step.entered, step.timeout);
    } else if step.UnlockStep? {
      NextUnlock(s, step.m);
      UnlockKeepsLocks(s, step.m);
    } else if step.CreateMutexStep? {
      NextCreateMutex(s, step.m);
      CreateMutexKeepsLocks(s, step.m);
    } else {
      OtherStepKeepsLocks(s, step);
    }
  }

  /** A step that does not leave a boost behind. */
  ghost predicate Clean(s: State, step: Step)
    requires s.cur < |s.tasks|
  {
    step.LockStep? && BoostsInVain(s, step.m, step.entered, step.timeout) ==>
      s.mutexes[step.m].owner < |s.tasks| && VainBoostHarmless(s, step.m)
  }

  lemma StepKeepsExact(s: State, step: Step)
    requires Sane(s) && LockInv(s) && PrioritiesExact(s) && Legal(s, step) && Clean(s, step)
    ensures PrioritiesExact(Next(s, step).0)
  {
    hide Next, Sane, LockInv, PrioritiesExact, BoostsInVain, VainBoostHarmless, Tick, Lock, Unlock, CreateMutex;
    InSane(s);
    if step.TickStep? {
      NextTick(s);
      TickKeepsLocks(s);
    } else if step.LockStep? {
      NextLock(s, step.m, step.entered, step.timeout);
      LockExactIff(s, step.m, step.entered, step.timeout);
    } else if step.UnlockStep? {
      NextUnlock(s, step.m);
      UnlockKeepsLocks(s, step.m);
    } else if step.CreateMutexStep? {
      NextCreateMutex(s, step.m);
      CreateMutexKeepsLocks(s, step.m);
    } else {
      OtherStepKeepsLocks(s, step);
    }
  }
}
