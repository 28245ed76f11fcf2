/** What the methods of the kernel class use: the invariant of every run in the terms of their loops. */
module KernelFacts {
  import opened Types
  import opened Graph
  import opened TaskTable
  import opened Machine
  import opened WaitInvariant
  import opened MutexInvariant
  import opened Runs
  import opened Checker
  import opened QueueInvariant
  import opened TimeInvariant
  import Inh = Inheritance

  /** No task waits for a mutex that it owns itself. */
  ghost predicate NoSelfWait(ts: seq<Task>, ms: seq<Mutex>) {
    forall i | 0 <= i < |ts| && OnMutex(ts[i], ms) :: ms[ts[i].waitObject.id].owner != i
  }

  /** Blocked on a locked mutex. */
  predicate OnMutex(t: Task, ms: seq<Mutex>) {
    && t.state.Blocked? && t.waitKind.MutexWait? && t.waitObject.MutexRef?
    && t.waitObject.id < |ms| && ms[t.waitObject.id].locked
  }

  /** Task entries that differ in priorities only. */
  ghost predicate SameButPriority(ts: seq<Task>, ts': seq<Task>) {
    |ts| == |ts'| && forall i | 0 <= i < |ts| :: ts'[i] == ts[i].(priority := ts'[i].priority)
  }

  lemma VectorsAgree(ts: seq<Task>, ts': seq<Task>, ms: seq<Mutex>)
    requires SameButPriority(ts, ts')
    ensures Owners(ts', ms) == Owners(ts, ms) && Bases(ts') == Bases(ts)
    ensures ts' == WithPriorities(ts, Priorities(ts'))
    ensures NoSelfWait(ts, ms) ==> NoSelfWait(ts', ms)
  {}

  lemma BestWaiterNone(ts: seq<Task>, obj: Object, kind: WaitKind)
    ensures BestWaiter(ts, obj, kind, 0) == -1
  {}

  lemma BestWaiterNext(ts: seq<Task>, obj: Object, kind: WaitKind, k: nat)
    requires k < |ts|
    ensures
      var best := BestWaiter(ts, obj, kind, k);
      BestWaiter(ts, obj, kind, k + 1)
      == if Waiting(ts[k], obj, kind) && (best == -1 || ts[k].priority > ts[best].priority) then k else best
  {}

  lemma Unchanged(ts: seq<Task>)
    ensures SameButPriority(ts, ts)
  {}

  /** One more priority changes. */
  lemma SetPriority(ts: seq<Task>, now: seq<Task>, ms: seq<Mutex>, i: nat, p: int)
    requires SameButPriority(ts, now) && i < |now|
    ensures
      var next := now[i := now[i].(priority := p)];
      && SameButPriority(ts, next) && Priorities(next) == Priorities(now)[i := p]
      && Priorities(now)[i] == now[i].priority
      && Owners(next, ms) == Owners(ts, ms) == Owners(now, ms)
  {}

  /** One round of the walk that raises priorities along the owner chain. */
  lemma RaiseRound(ts: seq<Task>, before: seq<Task>, ms: seq<Mutex>, owner: nat, p: int, fuel: nat)
    requires SameButPriority(ts, before) && owner < |ts| && fuel > 0
    ensures Owners(before, ms) == Owners(ts, ms)
    ensures
      var g := Owners(ts, ms);
      var next := before[owner := before[owner].(priority := Inh.Max(before[owner].priority, p))];
      && SameButPriority(ts, next)
      && Inh.Raise(g, Priorities(next), g[owner], p, fuel - 1) == Inh.Raise(g, Priorities(before), owner, p, fuel)
  {
    hide Inh.Raise, Owners;
    VectorsAgree(ts, before, ms);
    SetPriority(ts, before, ms, owner, Inh.Max(before[owner].priority, p));
    Inh.RaiseUnfolds(Owners(ts, ms), Priorities(before), owner, p, fuel);
  }

  /** The task with which the walk goes on after task id. */
  ghost function After(before: seq<Task>, g: seq<int>, id: nat, e: int): int
    requires id < |before| == |g|
  {
    if e == before[id].priority then -1 else g[id]
  }

  /** One round of the walk that recomputes priorities along the owner chain. */
  lemma RestoreRound(ts: seq<Task>, before: seq<Task>, ms: seq<Mutex>, id: nat, fuel: nat)
    requires SameButPriority(ts, before) && id < |ts| && fuel > 0
    ensures Owners(before, ms) == Owners(ts, ms) && Bases(before) == Bases(ts)
    ensures NoSelfWait(ts, ms) ==> NoSelfWait(before, ms)
    ensures
      var (g, b) := (Owners(ts, ms), Bases(ts));
      var e := Inh.Effective(g, Priorities(before), b, id);
      var next := before[id := before[id].(priority := e)];
      && SameButPriority(ts, next)
      && Inh.Restore(g, Priorities(next), b, After(before, g, id, e), fuel - 1)
         == Inh.Restore(g, Priorities(before), b, id, fuel)
  {
    hide Inh.Restore, Inh.Effective, NoSelfWait, Owners;
    var (g, b) := (Owners(ts, ms), Bases(ts));
    var e := Inh.Effective(g, Priorities(before), b, id);
    VectorsAgree(ts, before, ms);
    SetPriority(ts, before, ms, id, e);
    Inh.RestoreUnfolds(g, Priorities(before), b, id, fuel);
    if e == before[id].priority {
      Inh.RestoreStops(g, Priorities(before), b, -1, fuel - 1);
    }
  }

  /** An entry that does not wait for a mutex takes the place of another one. */
  lemma OthersWait(ts: seq<Task>, ms: seq<Mutex>, i: nat, t: Task)
    requires NoSelfWait(ts, ms) && i < |ts| && !OnMutex(t, ms)
    ensures NoSelfWait(ts[i := t], ms)
  {}

  lemma RestoredVectors(ts: seq<Task>, ms: seq<Mutex>, id: nat)
    requires id < |ts|
    ensures SameButPriority(ts, RestoreChain(ts, ms, id))
    ensures NoSelfWait(ts, ms) ==> NoSelfWait(RestoreChain(ts, ms, id), ms)
  {}

  /** The timer expires at this tick and has a callback to run. */
  predicate RingsNow(t: Timer, now: Word) {
    Due(t, now) && t.callback != 0
  }

  lemma WakeOnce(ts: seq<Task>, service: nat)
    requires service < |ts|
    ensures WakeService(WakeService(ts, service), service) == WakeService(ts, service)
  {}

  lemma FireNone(us: seq<Timer>, order: seq<int>, now: Word)
    ensures FireAll(us, order[..0], now) == us && !CallsBack(us, order[..0], now)
  {}

  lemma FireLinks(us: seq<Timer>, order: seq<int>, now: Word, i: nat)
    requires i < |us|
    ensures FireAll(us, order, now)[i].next == us[i].next
  {}

  /** The next timer of the list has not been touched by the earlier ones. */
  lemma FireNext(us: seq<Timer>, order: seq<int>, j: nat, now: Word)
    requires j < |order| && Distinct(order) && 0 <= order[j] < |us|
    ensures
      var before := FireAll(us, order[..j], now);
      && before[order[j]] == us[order[j]]
      && FireAll(us, order[..j + 1], now) == before[order[j] := Fire(us[order[j]], now)]
    ensures CallsBack(us, order[..j + 1], now) <==> CallsBack(us, order[..j], now) || RingsNow(us[order[j]], now)
  {
    var first, more := order[..j], order[..j + 1];
    assert more == first + [order[j]];
    assert order[j] !in first;
    if CallsBack(us, first, now) {
      var i :| 0 <= i < |us| && i in first && Due(us[i], now) && us[i].callback != 0;
      assert i in more;
    }
  }

  predicate Suffix(order: seq<int>, j: nat) {
    j <= |order| && forall i | i in order[j..] :: i in order
  }

  lemma SuffixIn(order: seq<int>, j: nat)
    requires j <= |order|
    ensures Suffix(order, j)
  {}

  lemma LocksFacts(s: State)
    requires Sane(s) && MutexesOk(s)
    ensures NoSelfWait(s.tasks, s.mutexes)
  {
    forall i | 0 <= i < |s.tasks| && OnMutex(s.tasks[i], s.mutexes)
        ensures s.mutexes[s.tasks[i].waitObject.id].owner != i {
      assert TaskOk(s, i, s.tasks[i]) && LockPhaseOk(s, i, LockPhaseOf(s.tasks[i]));
    }
  }

  /** What the methods use of the invariant. */
  lemma Facts(s: State)
    requires Inv(s)
    ensures Wf(s) && NoSelfWait(s.tasks, s.mutexes)
    ensures Ends(MutexLinks(s.mutexes), s.mutexList) && Ends(TimerLinks(s.timers), s.timerList)
  {
    LocksFacts(s);
  }

  /** In the middle of a tick. */
  lemma TickFacts(s: State)
    requires Inv(s)
    ensures
      var s1 := TimerTick(s.(ticks := s.ticks + 1));
      Wf(s) && NoSelfWait(s1.tasks, s1.mutexes)
  {
    ClockKeepsLocks(s);
    TimerTickKeepsLocks(s.(ticks := s.ticks + 1));
    LocksFacts(TimerTick(s.(ticks := s.ticks + 1)));
  }

  lemma TimerTickUnfolds(s: State)
    requires Wf(s)
    ensures
      var order := TimerOrder(s);
      TimerTick(s) == s.(timers := FireAll(s.timers, order, s.Now()),
                         tasks := if CallsBack(s.timers, order, s.Now()) then WakeService(s.tasks, s.Service())
                             else s.tasks)
  {}

  lemma ClockWf(s: State)
    requires Wf(s)
    ensures Wf(s.(ticks := s.ticks + 1))
  {}

  /** In the middle of the last unlock. */
  lemma ReleasedFacts(s: State, m: nat)
    requires Inv(s) && Legal(s, UnlockStep(m)) && Holds(s, s.cur, m) && s.mutexes[m].recursion <= 1
    ensures var t := Transferred(s, m); NoSelfWait(t.tasks, t.mutexes)
  {
    assert MutexShape(s, s.mutexes[m]);
    TransferredSane(s, m);
    TransferredMutexesOk(s, m);
    LocksFacts(Transferred(s, m));
  }

  lemma RecomputedVectors(ts: seq<Task>, ms: seq<Mutex>, id: nat)
    requires id < |ts|
    ensures NoSelfWait(ts, ms) ==> NoSelfWait(RestorePriority(ts, ms, id), ms)
  {}

  /** A queue with something to take has a capacity. */
  lemma CapacityFact(s: State, q: nat)
    requires Inv(s) && q < |s.queues|
    ensures s.queues[q].count > s.queues[q].receiveReservations ==> s.queues[q].capacity > 0
  {
    assert Balanced(s.tasks, s.queues[q], q, 0, 0);
  }

  /** The storage after k bytes of an item have been copied to position d. */
  ghost function Copied(storage: seq<Byte>, item: seq<Byte>, d: nat, k: nat): (r: seq<Byte>)
    requires d + |item| <= |storage| && k <= |item|
    ensures |r| == |storage|
  {
    storage[..d] + item[..k] + storage[d + k..]
  }

  lemma NoBytes(storage: seq<Byte>, item: seq<Byte>, d: nat)
    requires d + |item| <= |storage|
    ensures Copied(storage, item, d, 0) == storage
  {}

  lemma OneMoreByte(storage: seq<Byte>, item: seq<Byte>, d: nat, k: nat)
    requires d + |item| <= |storage| && k < |item|
    ensures Copied(storage, item, d, k)[d + k := item[k]] == Copied(storage, item, d, k + 1)
  {}

  lemma AllBytes(storage: seq<Byte>, item: seq<Byte>, d: nat)
    requires d + |item| <= |storage|
    ensures Copied(storage, item, d, |item|) == storage[..d] + item + storage[d + |item|..]
  {
    assert item[..|item|] == item;
  }

  /** What the second round of a queue call finds. */
  lemma SecondRound(s: State)
    requires Inv(s) && Legal(s, ContinueStep) && (Current(s).call.SendCall? || Current(s).call.ReceiveCall?)
    ensures Wf(s) && Wf(Returned(s))
    ensures Current(s).call.SendCall? ==> Continue(s).1 == Status(Current(s).waitResult)
    ensures Current(s).call.ReceiveCall? ==>
              if Current(s).waitResult then Continue(s).1.Item? && s.queues[Current(s).call.queue].capacity > 0
              else Continue(s).1 == Status(false)
  {
    ReturnedSane(s);
    GrantedCallFinishes(s);
  }

  lemma WakeNobody(ts: seq<Task>, obj: Object, kind: WaitKind)
    ensures Wake(ts, obj, kind).1 < 0 ==> Wake(ts, obj, kind).0 == ts
  {}

  lemma ClaimRange(s: State)
    requires Wf(s)
    ensures
      var i := FirstClaim(s.timers, TimerOrder(s));
      i == -1 || (0 <= i < |s.timers| && s.timers[i].expirations > 0)
  {}

  lemma CleanAfter(s: State)
    requires Inv(s)
    ensures ListsValid(s) && Check(s) == NoViolation
  {
    InvariantIsClean(s);
    CheckIffClean(s);
  }

  /** Whenever the call was entered, its deadline has passed exactly if its timeout has. */
  lemma EntryElapsed(ticks: nat, d: Deadline)
    ensures forall entered: nat, timeout: Word
              {:trigger MakeDeadline(Wrap(entered), timeout)} | entered <= ticks
                  && d == MakeDeadline(Wrap(entered), timeout) ::
              Expired(Wrap(ticks), d) <==> timeout != WAIT_FOREVER && (ticks - entered) % WORD >= timeout
  {
    hide Wrap, MakeDeadline, Expired;
    forall entered: nat, timeout: Word | entered <= ticks && d == MakeDeadline(Wrap(entered), timeout)
      ensures Expired(Wrap(ticks), d) <==> timeout != WAIT_FOREVER && (ticks - entered) % WORD >= timeout
    {
      ExpiredIffElapsed(ticks, entered, timeout);
    }
  }
}
