/** The vocabulary in which the promises of the API calls are stated: time left, waiting, waking. */
module Calls {
  import opened Types
  import opened TaskTable
  import opened Machine
  import opened WaitInvariant
  import opened TimeInvariant

  /** A call with this timeout, entered at tick entered, may still wait. */
  predicate TimeLeft(s: State, entered: nat, timeout: Word)
    requires entered <= s.ticks
  {
    timeout != 0 && (timeout == WAIT_FOREVER || (s.ticks - entered) % WORD < timeout)
  }

  /** The two entries differ at most in what a wait touches: state, wait metadata, wait result and call frame. */
  predicate WaitOnly(t: Task, t': Task) {
    t' == t.(state := t'.state, waitObject := t'.waitObject, waitKind := t'.waitKind, waitStart := t'.waitStart,
          waitDeadline := t'.waitDeadline, waitForever := t'.waitForever, waitResult := t'.waitResult, call := t'.call)
  }

  /** The task has gone to sleep in the call, without a result yet; its time runs from tick entered. */
  ghost predicate Waits(t: Task, t': Task, call: Call, entered: nat, timeout: Word) {
    && t'.state.Blocked? && t'.call == call && !t'.waitResult && WaitOnly(t, t')
    && (if timeout == WAIT_FOREVER then t'.waitForever else EnteredAt(t', entered, timeout))
  }

  /** The task's wait is over with this result; it is READY in the same call. */
  predicate Woken(t: Task, t': Task, result: bool) {
    && t.state.Blocked? && t'.state.Ready? && t'.waitResult == result && t'.call == t.call
    && NoMetadata(t') && WaitOnly(t, t')
  }

  /** Task i waits, and no other waiter has a higher priority, or the same and a lower index. */
  ghost predicate IsBest(ts: seq<Task>, obj: Object, kind: WaitKind, i: nat) {
    && i < |ts| && Waiting(ts[i], obj, kind)
    && forall j | 0 <= j < |ts| && Waiting(ts[j], obj, kind) ::
         ts[j].priority <= ts[i].priority && (j < i ==> ts[j].priority < ts[i].priority)
  }

  ghost predicate SomeoneWaits(ts: seq<Task>, obj: Object, kind: WaitKind) {
    exists i :: 0 <= i < |ts| && Waiting(ts[i], obj, kind)
  }

  /** The best waiter, if there is a waiter, is woken with success; no other entry changes. */
  ghost predicate WakesBest(ts: seq<Task>, ts': seq<Task>, obj: Object, kind: WaitKind) {
    && |ts'| == |ts|
    && forall i | 0 <= i < |ts| ::
         if IsBest(ts, obj, kind, i) then Woken(ts[i], ts'[i], true) else ts'[i] == ts[i]
  }

  /** There is at most one best waiter. */
  lemma BestIsUnique(ts: seq<Task>, obj: Object, kind: WaitKind, i: nat, j: nat)
    requires IsBest(ts, obj, kind, i) && IsBest(ts, obj, kind, j)
    ensures i == j
  {}

  lemma WaitEndWakes(t: Task)
    requires t.state.Blocked?
    ensures Woken(t, WaitEnd(t, true), true)
  {}

  lemma BestExists(ts: seq<Task>, obj: Object, kind: WaitKind)
    ensures
      var best := BestWaiter(ts, obj, kind, |ts|);
      if best >= 0 then IsBest(ts, obj, kind, best) else !SomeoneWaits(ts, obj, kind)
  {
    BestWaiterIsBest(ts, obj, kind, |ts|);
  }

  lemma WakeIsBest(ts: seq<Task>, obj: Object, kind: WaitKind)
    ensures
      var (ts', to) := Wake(ts, obj, kind);
      && WakesBest(ts, ts', obj, kind)
      && (to >= 0 <==> SomeoneWaits(ts, obj, kind))
      && (if to >= 0 then IsBest(ts, obj, kind, to) else ts' == ts)
  {
    hide BestWaiter, IsBest, WaitEnd, Woken;
    var (ts', to) := Wake(ts, obj, kind);
    BestExists(ts, obj, kind);
    if to >= 0 {
      WaitEndWakes(ts[to]);
    }
    forall i | 0 <= i < |ts|
      ensures if IsBest(ts, obj, kind, i) then Woken(ts[i], ts'[i], true) else ts'[i] == ts[i]
    {
      if IsBest(ts, obj, kind, i) {
        BestWaits(ts, obj, kind, i);
        BestIsUnique(ts, obj, kind, i, to);
      }
    }
  }

  lemma BestWaits(ts: seq<Task>, obj: Object, kind: WaitKind, i: nat)
    requires IsBest(ts, obj, kind, i)
    ensures SomeoneWaits(ts, obj, kind)
  {}

  /** The task on the processor is the only one whose entry may change. */
  predicate OthersKeep(s: State, s': State) {
    |s'.tasks| == |s.tasks| && forall i | 0 <= i < |s.tasks| && i != s.cur :: s'.tasks[i] == s.tasks[i]
  }

  /** The running task blocks in the call from tick entered on, and nothing else happens. */
  ghost predicate OnlyWaits(s: State, s': State, call: Call, entered: nat, timeout: Word)
    requires s.cur < |s.tasks|
  {
    && OnlyTasks(s, s') && OthersKeep(s, s')
    && Waits(Current(s), Current(s'), call, entered, timeout)
  }

  // ---- blocking with a deadline taken at API entry ----

  lemma TimeLeftIff(s: State, entered: nat, timeout: Word)
    requires entered <= s.ticks && timeout != 0
    ensures TimeLeft(s, entered, timeout) <==> !Expired(s.Now(), MakeDeadline(Wrap(entered), timeout))
  {
    hide Wrap, Expired, MakeDeadline;
    ExpiredIffElapsed(s.ticks, entered, timeout);
  }

  lemma BlockWaits(s: State, obj: Object, kind: WaitKind, call: Call, entered: nat, timeout: Word)
    requires s.cur < |s.tasks|
    ensures OnlyWaits(s, Block(s, obj, kind, MakeDeadline(Wrap(entered), timeout), call), call, entered, timeout)
  {
    hide Wrap;
    WrapTwice(entered, timeout);
  }

  lemma BlockUntilWaits(s: State, obj: Object, kind: WaitKind, call: Call, entered: nat, timeout: Word)
    requires s.cur < |s.tasks| && entered <= s.ticks && timeout != 0
    ensures
      var (s', out) := BlockUntil(s, obj, kind, MakeDeadline(Wrap(entered), timeout), call);
      if TimeLeft(s, entered, timeout) then out == Pending && OnlyWaits(s, s', call, entered, timeout)
      else out == Status(false) && s' == s
  {
    hide Wrap, Expired, MakeDeadline, TimeLeft, Block, OnlyWaits;
    TimeLeftIff(s, entered, timeout);
    BlockWaits(s, obj, kind, call, entered, timeout);
  }
}
