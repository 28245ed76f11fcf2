/** Selection: the highest READY priority wins, and among equals the next one in cyclic order. */
module Scheduler {
  import opened Types
  import opened TaskTable

  /** How many tasks the second pass looks at before task i, when it starts behind task cur. */
  function Distance(cur: nat, i: nat, n: nat): (d: nat)
    requires cur < n && i < n
    ensures d < n && CyclicIndex(cur, d + 1, n) == i
  {
    if i > cur then i - cur - 1 else n - 1 - cur + i
  }

  lemma {:induction false} BestReadyIsMax(ts: seq<Task>, start: nat, k: nat)
    requires start < |ts| && k <= |ts|
    ensures var r := BestReady(ts, start, k);
      && (forall o: nat | o < k :: ts[CyclicIndex(start, o, |ts|)].state.Ready? ==>
         ts[CyclicIndex(start, o, |ts|)].priority <= r)
      && (r == 0 || exists i :: 0 <= i < |ts| && ReadyAt(ts[i], r))
  {
    if k > 0 {
      BestReadyIsMax(ts, start, k - 1);
    }
  }

  lemma BestReadyAll(ts: seq<Task>, cur: nat)
    requires cur < |ts|
    ensures var r := BestReady(ts, cur, |ts|);
      && (forall i | 0 <= i < |ts| && ts[i].state.Ready? :: ts[i].priority <= r)
      && (r == 0 || exists i :: 0 <= i < |ts| && ReadyAt(ts[i], r))
  {
    BestReadyIsMax(ts, cur, |ts|);
    forall i | 0 <= i < |ts| && ts[i].state.Ready? ensures ts[i].priority <= BestReady(ts, cur, |ts|) {
      var o := if i >= cur then i - cur else i - cur + |ts|;
      assert CyclicIndex(cur, o, |ts|) == i;
    }
  }

  lemma {:induction false} FirstReadyIsFirst(ts: seq<Task>, start: nat, priority: int, offset: nat, o: nat)
    requires start < |ts| && offset <= o <= |ts| && ReadyAt(ts[CyclicIndex(start, o, |ts|)], priority)
    ensures var r := FirstReady(ts, start, priority, offset);
      && r >= 0 && ReadyAt(ts[r], priority)
      && exists o' {:trigger CyclicIndex(start, o', |ts|)} :: offset <= o' <= o && r == CyclicIndex(start, o', |ts|)
    decreases |ts| - offset
  {
    if !ReadyAt(ts[CyclicIndex(start, offset, |ts|)], priority) {
      FirstReadyIsFirst(ts, start, priority, offset + 1, o);
    }
  }

  /** i is what the scheduler must pick after cur. */
  ghost predicate Elected(ts: seq<Task>, cur: nat, i: nat)
    requires cur < |ts|
  {
    && i < |ts|
    && ts[i].state.Ready?
    && (forall j | 0 <= j < |ts| && ts[j].state.Ready? :: ts[j].priority <= ts[i].priority)
    && (forall j | 0 <= j < |ts| && ts[j].state.Ready? && ts[j].priority == ts[i].priority ::
          Distance(cur, i, |ts|) <= Distance(cur, j, |ts|))
  }

  /** At most one task is electable. */
  lemma ElectedUnique(ts: seq<Task>, cur: nat, i: nat, j: nat)
    requires cur < |ts| && Elected(ts, cur, i) && Elected(ts, cur, j)
    ensures i == j
  {
    assert Distance(cur, i, |ts|) == Distance(cur, j, |ts|);
  }

  lemma SelectElects(ts: seq<Task>, cur: nat, someReady: nat)
    requires cur < |ts| && someReady < |ts| && ts[someReady].state.Ready?
    requires forall i | 0 <= i < |ts| :: ts[i].priority >= 0
    ensures Elected(ts, cur, Select(ts, cur))
  {
    var n := |ts|;
    var best := BestReady(ts, cur, n);
    BestReadyAll(ts, cur);
    var i :| 0 <= i < n && ReadyAt(ts[i], best);
    FirstReadyIsFirst(ts, cur, best, 1, Distance(cur, i, n) + 1);
    var r := Select(ts, cur);
    forall j | 0 <= j < n && ts[j].state.Ready? && ts[j].priority == best
      ensures Distance(cur, r, n) <= Distance(cur, j, n)
    {
      FirstReadyIsFirst(ts, cur, best, 1, Distance(cur, j, n) + 1);
    }
  }

  /** Each selection that passes over an eligible top-priority task brings it strictly closer. */
  lemma PassedOverComesCloser(ts: seq<Task>, cur: nat, i: nat)
    requires cur < |ts| && i < |ts| && Elected(ts, cur, Select(ts, cur))
    requires ts[i].state.Ready? && forall j | 0 <= j < |ts| && ts[j].state.Ready? :: ts[j].priority <= ts[i].priority
    ensures var next := Select(ts, cur);
      next == i || Distance(next, i, |ts|) < Distance(cur, i, |ts|)
  {
    var next := Select(ts, cur);
    assert ts[next].priority == ts[i].priority;
    if next != i {
      assert Distance(cur, next, |ts|) <= Distance(cur, i, |ts|);
    }
  }
}
