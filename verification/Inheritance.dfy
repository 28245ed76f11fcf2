/** Priority inheritance on the wait-for graph.
    owner[i] is the task that owns the mutex task i is blocked on (-1 when i is not blocked on
    a locked mutex), prio[i] its effective and base[i] its configured priority. */
module Inheritance {
  import opened Graph

  function Max(a: int, b: int): int {
    if a < b then b else a
  }

  // ---- what inheritance is supposed to establish ----

  ghost predicate Sized(owner: seq<int>, prio: seq<int>, base: seq<int>) {
    |owner| == |prio| == |base| && Valid(owner)
  }

  /** No task runs below its own base or below a task that it keeps waiting. */
  ghost predicate Upper(owner: seq<int>, prio: seq<int>, base: seq<int>)
    requires Sized(owner, prio, base)
  {
    && (forall i | 0 <= i < |prio| :: base[i] <= prio[i])
    && (forall i | 0 <= i < |prio| && owner[i] >= 0 :: prio[i] <= prio[owner[i]])
  }

  /** Task t's priority is its own or that of some task waiting directly on it. */
  ghost predicate Supported(owner: seq<int>, prio: seq<int>, base: seq<int>, t: int)
    requires Sized(owner, prio, base) && 0 <= t < |prio|
  {
    prio[t] == base[t] || exists w :: 0 <= w < |owner| && owner[w] == t && prio[w] == prio[t]
  }

  /** The inheritance equation: every priority is the maximum of the task's base and of the
      priorities of the tasks waiting on it. */
  ghost predicate Exact(owner: seq<int>, prio: seq<int>, base: seq<int>)
    requires Sized(owner, prio, base)
  {
    Upper(owner, prio, base) && forall t | 0 <= t < |prio| :: Supported(owner, prio, base, t)
  }

  // ---- the kernel's computations ----

  /** Raise the priorities along the owner chain from id, at most fuel tasks. */
  function Raise(owner: seq<int>, prio: seq<int>, id: int, p: int, fuel: nat): (r: seq<int>)
    requires Valid(owner) && |owner| == |prio| && ValidNode(owner, id)
    ensures |r| == |prio|
    decreases fuel
  {
    if fuel == 0 || id < 0 then prio
    else Raise(owner, prio[id := Max(prio[id], p)], owner[id], p, fuel - 1)
  }

  /** The maximum of t's base and the priorities of its waiters among the first k tasks. */
  function ScanWaiters(owner: seq<int>, prio: seq<int>, base: seq<int>, t: int, k: nat): int
    requires |owner| == |prio| == |base| && 0 <= t < |base| && k <= |owner|
    decreases k
  {
    if k == 0 then base[t]
    else
      var e := ScanWaiters(owner, prio, base, t, k - 1);
      if owner[k - 1] == t && prio[k - 1] > e then prio[k - 1] else e
  }

  function Effective(owner: seq<int>, prio: seq<int>, base: seq<int>, t: int): int
    requires |owner| == |prio| == |base| && 0 <= t < |base|
  {
    ScanWaiters(owner, prio, base, t, |owner|)
  }

  /** Recompute priorities along the owner chain from id until one does not change. */
  function Restore(owner: seq<int>, prio: seq<int>, base: seq<int>, id: int, fuel: nat): (r: seq<int>)
    requires Valid(owner) && |owner| == |prio| == |base| && ValidNode(owner, id)
    ensures |r| == |prio|
    decreases fuel
  {
    if fuel == 0 || id < 0 then prio
    else
      var e := Effective(owner, prio, base, id);
      if e == prio[id] then prio
      else Restore(owner, prio[id := e], base, owner[id], fuel - 1)
  }

  lemma RaiseUnfolds(owner: seq<int>, prio: seq<int>, id: int, p: int, fuel: nat)
    requires Valid(owner) && |owner| == |prio| && ValidNode(owner, id)
    ensures
      Raise(owner, prio, id, p, fuel)
      == if fuel == 0 || id < 0 then prio else Raise(owner, prio[id := Max(prio[id], p)], owner[id], p, fuel - 1)
  {}

  lemma RestoreUnfolds(owner: seq<int>, prio: seq<int>, base: seq<int>, id: int, fuel: nat)
    requires Valid(owner) && |owner| == |prio| == |base| && 0 <= id < |owner| && fuel > 0
    ensures
      var e := Effective(owner, prio, base, id);
      && Restore(owner, prio, base, id, fuel)
         == (if e == prio[id] then prio else Restore(owner, prio[id := e], base, owner[id], fuel - 1))
      && (e == prio[id] ==> prio[id := e] == prio)
  {}

  lemma RestoreStops(owner: seq<int>, prio: seq<int>, base: seq<int>, id: int, fuel: nat)
    requires Valid(owner) && |owner| == |prio| == |base| && ValidNode(owner, id)
    ensures fuel == 0 || id < 0 ==> Restore(owner, prio, base, id, fuel) == prio
  {}

  // ---- the scan computes the maximum ----

  lemma {:induction false} ScanIsMax(owner: seq<int>, prio: seq<int>, base: seq<int>, t: int, k: nat)
    requires |owner| == |prio| == |base| && 0 <= t < |base| && k <= |owner|
    ensures var e := ScanWaiters(owner, prio, base, t, k);
      && base[t] <= e
      && (forall w | 0 <= w < k && owner[w] == t :: prio[w] <= e)
      && (e == base[t] || exists w :: 0 <= w < k && owner[w] == t && prio[w] == e)
  {
    if k > 0 {
      ScanIsMax(owner, prio, base, t, k - 1);
    }
  }

  /** The equation holds at t exactly when t's priority is the one the kernel would recompute. */
  lemma EffectiveIffSupported(owner: seq<int>, prio: seq<int>, base: seq<int>, t: int)
    requires Sized(owner, prio, base) && Upper(owner, prio, base) && 0 <= t < |prio|
    ensures Effective(owner, prio, base, t) <= prio[t]
    ensures Effective(owner, prio, base, t) == prio[t] <==> Supported(owner, prio, base, t)
  {
    ScanIsMax(owner, prio, base, t, |owner|);
  }

  // ---- raising ----

  lemma {:induction false} RaiseAt(owner: seq<int>, prio: seq<int>, id: int, p: int, fuel: nat)
    requires Valid(owner) && |owner| == |prio| && ValidNode(owner, id)
    ensures var r := Raise(owner, prio, id, p, fuel);
      forall i | 0 <= i < |prio| :: r[i] == if i in Visits(owner, id, fuel) then Max(prio[i], p) else prio[i]
    decreases fuel
  {
    if fuel > 0 && id >= 0 {
      RaiseAt(owner, prio[id := Max(prio[id], p)], owner[id], p, fuel - 1);
    }
  }

  /** Along a chain of an Upper state priorities do not decrease. */
  lemma {:induction false} ChainAscends(owner: seq<int>, prio: seq<int>, base: seq<int>, x: int, k: nat)
    requires Sized(owner, prio, base) && Upper(owner, prio, base) && 0 <= x < |owner|
    ensures Walk(owner, x, k) >= 0 ==> prio[x] <= prio[Walk(owner, x, k)]
    decreases k
  {
    if k > 0 && owner[x] >= 0 {
      ChainAscends(owner, prio, base, owner[x], k - 1);
    }
  }

  /** Boosting the chain from an owner o keeps the lower bounds, whether or not the caller then waits. */
  lemma RaiseKeepsUpper(owner: seq<int>, prio: seq<int>, base: seq<int>, o: int, p: int)
    requires Sized(owner, prio, base) && Upper(owner, prio, base) && 0 <= o < |prio|
    ensures var r := Raise(owner, prio, o, p, |owner|); Upper(owner, r, base) && p <= r[o]
  {
    RaiseAt(owner, prio, o, p, |owner|);
    forall i | 0 <= i < |prio| && owner[i] >= 0 && i in Visits(owner, o, |owner|)
      ensures owner[i] in Visits(owner, o, |owner|)
    {
      VisitsClosed(owner, o, i);
    }
    assert o in Visits(owner, o, |owner|) by { assert |owner| > 0; }
  }

  /** Lock contention: task c starts to wait on o after the chain from o has been raised to c's priority. */
  lemma BlockKeepsUpper(owner: seq<int>, prio: seq<int>, base: seq<int>, c: int, o: int)
    requires Sized(owner, prio, base) && Upper(owner, prio, base)
    requires 0 <= c < |prio| && 0 <= o < |prio| && owner[c] == -1
    ensures Upper(owner[c := o], Raise(owner, prio, o, prio[c], |owner|), base)
  {
    RaiseKeepsUpper(owner, prio, base, o, prio[c]);
    RaiseAt(owner, prio, o, prio[c], |owner|);
  }

  lemma BlockKeepsExact(owner: seq<int>, prio: seq<int>, base: seq<int>, c: int, o: int)
    requires Sized(owner, prio, base) && Exact(owner, prio, base)
    requires 0 <= c < |prio| && 0 <= o < |prio| && owner[c] == -1 && o != c
    ensures Exact(owner[c := o], Raise(owner, prio, o, prio[c], |owner|), base)
  {
    BlockKeepsUpper(owner, prio, base, c, o);
    var g := owner[c := o];
    var r := Raise(owner, prio, o, prio[c], |owner|);
    RaiseAt(owner, prio, o, prio[c], |owner|);
    var v := Visits(owner, o, |owner|);
    assert r[c] == prio[c];
    forall t | 0 <= t < |r| ensures Supported(g, r, base, t) {
      if r[t] == prio[t] {
        if prio[t] != base[t] {
          assert Supported(owner, prio, base, t);
          var w :| 0 <= w < |owner| && owner[w] == t && prio[w] == prio[t];
          assert g[w] == t && prio[w] <= r[w] <= r[g[w]];
        }
      } else if t == o {
        assert g[c] == t;
      } else {
        var w := VisitsPredecessor(owner, o, |owner|, t);
        assert g[w] == t && prio[c] <= r[w] <= r[g[w]];
      }
    }
  }

  /** A boost without a waiter (the call had already expired) keeps the equation exactly when the
      owner was high enough already or is part of a deadlock cycle. */
  lemma BoostAloneExactIff(owner: seq<int>, prio: seq<int>, base: seq<int>, o: int, p: int)
    requires Sized(owner, prio, base) && Exact(owner, prio, base) && 0 <= o < |prio|
    ensures Exact(owner, Raise(owner, prio, o, p, |owner|), base) <==> p <= prio[o] || OnCycle(owner, o)
  {
    var r := Raise(owner, prio, o, p, |owner|);
    RaiseKeepsUpper(owner, prio, base, o, p);
    RaiseAt(owner, prio, o, p, |owner|);
    var v := Visits(owner, o, |owner|);
    if p <= prio[o] {
      BoostBelowIsNoop(owner, prio, base, o, p);
    } else if OnCycle(owner, o) {
      forall t | 0 <= t < |r| ensures Supported(owner, r, base, t) {
        BoostedCycleSupported(owner, prio, base, o, p, t);
      }
    } else {
      assert |v| > 0 && v[0] == o;
      if Supported(owner, r, base, o) {
        var w :| 0 <= w < |owner| && owner[w] == o && r[w] == r[o];
        assert w in v;
        var j := VisitsIsWalk(owner, o, |owner|, w);
        WalkStep(owner, o, j);
        assert false;
      }
    }
  }

  lemma BoostBelowIsNoop(owner: seq<int>, prio: seq<int>, base: seq<int>, o: int, p: int)
    requires Sized(owner, prio, base) && Upper(owner, prio, base) && 0 <= o < |prio| && p <= prio[o]
    ensures Raise(owner, prio, o, p, |owner|) == prio
  {
    RaiseAt(owner, prio, o, p, |owner|);
    forall i | 0 <= i < |prio| && i in Visits(owner, o, |owner|) ensures p <= prio[i] {
      var j := VisitsIsWalk(owner, o, |owner|, i);
      ChainAscends(owner, prio, base, o, j);
    }
  }

  lemma BoostedCycleSupported(owner: seq<int>, prio: seq<int>, base: seq<int>, o: int, p: int, t: int)
    requires Sized(owner, prio, base) && Exact(owner, prio, base)
    requires 0 <= o < |prio| && OnCycle(owner, o) && 0 <= t < |prio|
    ensures Supported(owner, Raise(owner, prio, o, p, |owner|), base, t)
  {
    var r := Raise(owner, prio, o, p, |owner|);
    RaiseKeepsUpper(owner, prio, base, o, p);
    RaiseAt(owner, prio, o, p, |owner|);
    if r[t] == prio[t] {
      if prio[t] != base[t] {
        assert Supported(owner, prio, base, t);
        var w :| 0 <= w < |owner| && owner[w] == t && prio[w] == prio[t];
        assert prio[w] <= r[w] <= r[owner[w]];
      }
    } else {
      var w;
      if t == o {
        var k: nat :| k >= 1 && Walk(owner, o, k) == o;
        WalkStep(owner, o, k - 1);
        WalkAlive(owner, o, k - 1, k);
        w := Walk(owner, o, k - 1);
        VisitsAll(owner, o, k - 1);
      } else {
        w := VisitsPredecessor(owner, o, |owner|, t);
      }
      assert owner[w] == t && p <= r[w] <= r[owner[w]];
    }
  }

  // ---- restoring ----

  lemma {:induction false} RestoreKeepsUpper(owner: seq<int>, prio: seq<int>, base: seq<int>, id: int, fuel: nat)
    requires Sized(owner, prio, base) && Upper(owner, prio, base) && ValidNode(owner, id)
    ensures Upper(owner, Restore(owner, prio, base, id, fuel), base)
    decreases fuel
  {
    if fuel > 0 && id >= 0 {
      var e := Effective(owner, prio, base, id);
      ScanIsMax(owner, prio, base, id, |owner|);
      EffectiveIffSupported(owner, prio, base, id);
      RestoreKeepsUpper(owner, prio[id := e], base, owner[id], fuel - 1);
    }
  }

  /** All tasks on a deadlock cycle have one priority, so each is supported by its predecessor. */
  lemma CycleSupported(owner: seq<int>, prio: seq<int>, base: seq<int>, x: int)
    requires Sized(owner, prio, base) && Upper(owner, prio, base) && OnCycle(owner, x)
    ensures Supported(owner, prio, base, x)
  {
    var k: nat :| k >= 1 && Walk(owner, x, k) == x;
    WalkStep(owner, x, k - 1);
    WalkAlive(owner, x, k - 1, k);
    var w := Walk(owner, x, k - 1);
    ChainAscends(owner, prio, base, x, k - 1);
    assert owner[w] == x;
  }

  /** The restore walk from start stops only when nobody is left unsupported: it passes a task only
      if that task is on no cycle, and |owner| such tasks cannot be followed by another one. */
  lemma {:induction false} RestoreKeepsExact(owner: seq<int>, prio: seq<int>, base: seq<int>,
                                             start: int, passed: nat, id: int)
    requires Sized(owner, prio, base) && Upper(owner, prio, base)
    requires ValidNode(owner, start) && passed <= |owner| && id == Walk(owner, start, passed)
    requires forall j: nat | j < passed :: !OnCycle(owner, Walk(owner, start, j))
    requires forall t | 0 <= t < |prio| && t != id :: Supported(owner, prio, base, t)
    ensures Exact(owner, Restore(owner, prio, base, id, |owner| - passed), base)
    decreases |owner| - passed
  {
    if id >= 0 {
      if passed == |owner| {
        var j := EndlessMeetsCycle(owner, start);
        assert false;
      }
      var e := Effective(owner, prio, base, id);
      EffectiveIffSupported(owner, prio, base, id);
      if e != prio[id] {
        if OnCycle(owner, id) {
          CycleSupported(owner, prio, base, id);
        }
        WalkStep(owner, start, passed);
        ScanIsMax(owner, prio, base, id, |owner|);
        var p' := prio[id := e];
        forall t | 0 <= t < |prio| && t != owner[id] ensures Supported(owner, p', base, t) {
          RecomputedSupport(owner, prio, base, id, t);
        }
        RestoreKeepsExact(owner, p', base, start, passed + 1, owner[id]);
      }
    }
  }

  lemma RecomputedSupport(owner: seq<int>, prio: seq<int>, base: seq<int>, id: int, t: int)
    requires Sized(owner, prio, base) && 0 <= id < |prio| && owner[id] != id && 0 <= t < |prio| && t != owner[id]
    requires t != id ==> Supported(owner, prio, base, t)
    ensures Supported(owner, prio[id := Effective(owner, prio, base, id)], base, t)
  {
    var p' := prio[id := Effective(owner, prio, base, id)];
    ScanIsMax(owner, prio, base, id, |owner|);
    if p'[t] != base[t] {
      var w :| 0 <= w < |owner| && owner[w] == t && prio[w] == p'[t];
      assert p'[w] == prio[w];
    }
  }

  /** Timeout: waiter w leaves and the chain from its former owner is restored. */
  lemma TimeoutKeepsUpper(owner: seq<int>, prio: seq<int>, base: seq<int>, w: int)
    requires Sized(owner, prio, base) && Upper(owner, prio, base) && 0 <= w < |owner|
    ensures Upper(owner[w := -1], Restore(owner[w := -1], prio, base, owner[w], |owner|), base)
  {
    RestoreKeepsUpper(owner[w := -1], prio, base, owner[w], |owner|);
  }

  lemma TimeoutKeepsExact(owner: seq<int>, prio: seq<int>, base: seq<int>, w: int)
    requires Sized(owner, prio, base) && Exact(owner, prio, base) && 0 <= w < |owner|
    ensures Exact(owner[w := -1], Restore(owner[w := -1], prio, base, owner[w], |owner|), base)
  {
    var g := owner[w := -1];
    forall t | 0 <= t < |prio| && t != owner[w] ensures Supported(g, prio, base, t) {
      if prio[t] != base[t] {
        assert Supported(owner, prio, base, t);
        var u :| 0 <= u < |owner| && owner[u] == t && prio[u] == prio[t];
        assert g[u] == t;
      }
    }
    RestoreKeepsExact(g, prio, base, owner[w], 0, owner[w]);
  }

  /** A task nobody waits for that runs at its base is left there. */
  lemma {:induction false} RestoreUnheld(owner: seq<int>, prio: seq<int>, base: seq<int>, id: int, fuel: nat, t: int)
    requires Sized(owner, prio, base) && ValidNode(owner, id) && 0 <= t < |prio| && prio[t] == base[t]
    requires forall w | 0 <= w < |owner| :: owner[w] != t
    ensures Restore(owner, prio, base, id, fuel)[t] == base[t]
    decreases fuel
  {
    if fuel > 0 && id >= 0 {
      ScanIsMax(owner, prio, base, id, |owner|);
      RestoreUnheld(owner, prio[id := Effective(owner, prio, base, id)], base, owner[id], fuel - 1, t);
    }
  }

  /** Unlock: the graph changes only around the releasing task c and the task h that takes over
      (h == c when nobody does); both are recomputed and neither is waiting. */
  ghost predicate HandedOver(owner: seq<int>, owner': seq<int>, c: int, h: int) {
    && |owner'| == |owner|
    && 0 <= c < |owner| && 0 <= h < |owner|
    && owner'[c] == -1 && owner'[h] == -1
    && (forall i | 0 <= i < |owner| && i != h :: owner'[i] == owner[i] || (owner[i] == c && owner'[i] == h))
    && (h != c ==> owner[h] == c)
  }

  function Recompute(owner: seq<int>, prio: seq<int>, base: seq<int>, t: int): seq<int>
    requires |owner| == |prio| == |base| && 0 <= t < |base|
  {
    prio[t := Effective(owner, prio, base, t)]
  }

  lemma {:induction false} ScanIgnores(owner: seq<int>, prio: seq<int>, base: seq<int>, t: int, i: int, v: int, k: nat)
    requires |owner| == |prio| == |base| && 0 <= t < |base| && k <= |owner| && 0 <= i < |owner| && owner[i] != t
    ensures ScanWaiters(owner, prio[i := v], base, t, k) == ScanWaiters(owner, prio, base, t, k)
  {
    if k > 0 {
      ScanIgnores(owner, prio, base, t, i, v, k - 1);
    }
  }

  /** Recomputing a task that does not wait is idempotent. */
  lemma RecomputeTwice(owner: seq<int>, prio: seq<int>, base: seq<int>, t: int)
    requires |owner| == |prio| == |base| && 0 <= t < |base| && owner[t] == -1
    ensures Recompute(owner, Recompute(owner, prio, base, t), base, t) == Recompute(owner, prio, base, t)
  {
    ScanIgnores(owner, prio, base, t, t, Effective(owner, prio, base, t), |owner|);
  }

  lemma HandoverKeepsUpper(owner: seq<int>, owner': seq<int>, prio: seq<int>, base: seq<int>, c: int, h: int)
    requires Sized(owner, prio, base) && Upper(owner, prio, base) && Valid(owner')
    requires HandedOver(owner, owner', c, h) && owner[c] == -1
    ensures Upper(owner', Recompute(owner', Recompute(owner', prio, base, c), base, h), base)
  {
    var p1 := Recompute(owner', prio, base, c);
    ScanIsMax(owner', prio, base, c, |owner|);
    ScanIsMax(owner', p1, base, h, |owner|);
  }

  lemma HandoverKeepsExact(owner: seq<int>, owner': seq<int>, prio: seq<int>, base: seq<int>, c: int, h: int)
    requires Sized(owner, prio, base) && Exact(owner, prio, base) && Valid(owner')
    requires HandedOver(owner, owner', c, h) && owner[c] == -1
    ensures Exact(owner', Recompute(owner', Recompute(owner', prio, base, c), base, h), base)
  {
    HandoverKeepsUpper(owner, owner', prio, base, c, h);
    var p1 := Recompute(owner', prio, base, c);
    var p2 := Recompute(owner', p1, base, h);
    ScanIsMax(owner', prio, base, c, |owner|);
    ScanIsMax(owner', p1, base, h, |owner|);
    forall t | 0 <= t < |prio| ensures Supported(owner', p2, base, t) {
      if p2[t] != base[t] {
        var w: int;
        if t == h {
          w :| 0 <= w < |owner| && owner'[w] == t && p1[w] == p2[t];
        } else if t == c {
          w :| 0 <= w < |owner| && owner'[w] == t && prio[w] == p2[t];
        } else {
          assert Supported(owner, prio, base, t);
          w :| 0 <= w < |owner| && owner[w] == t && prio[w] == prio[t];
        }
        assert owner'[w] == t && p2[w] == prio[w];
      }
    }
  }

  // ---- what the equation means ----

  ghost predicate WaitsFor(owner: seq<int>, u: int, t: int)
    requires Valid(owner)
  {
    0 <= u < |owner| && exists k: nat :: Walk(owner, u, k) == t
  }

  /** On any graph a task runs at least at the base of every task that directly or transitively waits for it. */
  lemma TransitiveLowerBound(owner: seq<int>, prio: seq<int>, base: seq<int>, u: int, t: int)
    requires Sized(owner, prio, base) && Upper(owner, prio, base) && 0 <= t < |prio| && WaitsFor(owner, u, t)
    ensures base[u] <= prio[u] <= prio[t]
  {
    var k: nat :| Walk(owner, u, k) == t;
    ChainAscends(owner, prio, base, u, k);
  }

  /** Without a deadlock the bound is attained: the priority is the maximum base over the transitive waiters. */
  lemma {:induction false} TransitiveWitness(owner: seq<int>, prio: seq<int>, base: seq<int>, t: int, k: nat)
    returns (u: int)
    requires Sized(owner, prio, base) && Exact(owner, prio, base) && Acyclic(owner)
    requires 0 <= t < |prio| && k <= |owner| && Walk(owner, t, |owner| - k) >= 0
    ensures WaitsFor(owner, u, t) && base[u] == prio[t]
    decreases k
  {
    if prio[t] == base[t] {
      u := t;
      assert Walk(owner, t, 0) == t;
    } else {
      assert Supported(owner, prio, base, t);
      var w :| 0 <= w < |owner| && owner[w] == t && prio[w] == prio[t];
      if k == 0 {
        AcyclicEnds(owner, t);
        assert false;
      }
      assert Walk(owner, w, |owner| - (k - 1)) == Walk(owner, t, |owner| - k);
      u := TransitiveWitness(owner, prio, base, w, k - 1);
      var j: nat :| Walk(owner, u, j) == w;
      WalkStep(owner, u, j);
    }
  }

  /** The fixpoint, read as one formula over the transitive waiters. */
  ghost predicate TransitiveMax(owner: seq<int>, prio: seq<int>, base: seq<int>, t: int)
    requires Sized(owner, prio, base) && 0 <= t < |prio|
  {
    && (forall u :: WaitsFor(owner, u, t) ==> base[u] <= prio[t])
    && (exists u :: WaitsFor(owner, u, t) && base[u] == prio[t])
  }

  lemma ExactIsTransitiveMax(owner: seq<int>, prio: seq<int>, base: seq<int>, t: int)
    requires Sized(owner, prio, base) && Exact(owner, prio, base) && Acyclic(owner) && 0 <= t < |prio|
    ensures TransitiveMax(owner, prio, base, t)
  {
    forall u | WaitsFor(owner, u, t) ensures base[u] <= prio[t] {
      TransitiveLowerBound(owner, prio, base, u, t);
    }
    var u := TransitiveWitness(owner, prio, base, t, |owner|);
  }

  /** Conversely the transitive maxima satisfy the equation, so without a deadlock the two say the same. */
  lemma TransitiveMaxIsExact(owner: seq<int>, prio: seq<int>, base: seq<int>)
    requires Sized(owner, prio, base)
    requires forall t | 0 <= t < |prio| :: TransitiveMax(owner, prio, base, t)
    ensures Exact(owner, prio, base)
  {
    forall i | 0 <= i < |prio| ensures base[i] <= prio[i] {
      assert Walk(owner, i, 0) == i;
      assert WaitsFor(owner, i, i) && TransitiveMax(owner, prio, base, i);
    }
    forall i | 0 <= i < |prio| && owner[i] >= 0 ensures prio[i] <= prio[owner[i]] {
      assert TransitiveMax(owner, prio, base, i) && TransitiveMax(owner, prio, base, owner[i]);
      var u :| WaitsFor(owner, u, i) && base[u] == prio[i];
      var k: nat :| Walk(owner, u, k) == i;
      WalkStep(owner, u, k);
      assert WaitsFor(owner, u, owner[i]);
    }
    forall t | 0 <= t < |prio| ensures Supported(owner, prio, base, t) {
      assert TransitiveMax(owner, prio, base, t);
      var u :| WaitsFor(owner, u, t) && base[u] == prio[t];
      var k: nat :| Walk(owner, u, k) == t;
      if k > 0 {
        WalkStep(owner, u, k - 1);
        var w := Walk(owner, u, k - 1);
        assert WaitsFor(owner, u, w) && TransitiveMax(owner, prio, base, w);
        assert owner[w] == t;
      }
    }
  }

  lemma ExactIffTransitiveMax(owner: seq<int>, prio: seq<int>, base: seq<int>)
    requires Sized(owner, prio, base) && Acyclic(owner)
    ensures Exact(owner, prio, base) <==> forall t | 0 <= t < |prio| :: TransitiveMax(owner, prio, base, t)
  {
    if Exact(owner, prio, base) {
      forall t | 0 <= t < |prio| ensures TransitiveMax(owner, prio, base, t) {
        ExactIsTransitiveMax(owner, prio, base, t);
      }
    }
    if forall t | 0 <= t < |prio| :: TransitiveMax(owner, prio, base, t) {
      TransitiveMaxIsExact(owner, prio, base);
    }
  }
}
