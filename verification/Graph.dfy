/** Functional graphs: node i has at most one successor g[i]; -1 is the null pointer.
    The owner chain of a blocked task and the two intrusive object lists are all
    graphs of this kind. */
module Graph {
  import opened Arith

  predicate ValidNode(g: seq<int>, i: int) {
    -1 <= i < |g|
  }

  predicate Valid(g: seq<int>) {
    forall i | 0 <= i < |g| :: ValidNode(g, g[i])
  }

  /** The node reached from start after k successor steps. */
  function Walk(g: seq<int>, start: int, k: nat): (r: int)
    requires Valid(g) && ValidNode(g, start)
    ensures ValidNode(g, r)
    decreases k
  {
    if k == 0 || start < 0 then start else Walk(g, g[start], k - 1)
  }

  /** Every walk from start is over after |g| steps. */
  predicate Ends(g: seq<int>, start: int)
    requires Valid(g) && ValidNode(g, start)
  {
    Walk(g, start, |g|) == -1
  }

  ghost predicate OnCycle(g: seq<int>, x: int)
    requires Valid(g)
  {
    0 <= x < |g| && exists k: nat :: k >= 1 && Walk(g, x, k) == x
  }

  ghost predicate Acyclic(g: seq<int>)
    requires Valid(g)
  {
    forall x | 0 <= x < |g| :: !OnCycle(g, x)
  }

  /** The nodes of the walk from start, in order, at most fuel of them. */
  function Visits(g: seq<int>, start: int, fuel: nat): (r: seq<int>)
    requires Valid(g) && ValidNode(g, start)
    ensures |r| <= fuel
    ensures forall i | i in r :: 0 <= i < |g|
    decreases fuel
  {
    if fuel == 0 || start < 0 then [] else [start] + Visits(g, g[start], fuel - 1)
  }

  lemma {:induction false} WalkAdd(g: seq<int>, start: int, a: nat, b: nat)
    requires Valid(g) && ValidNode(g, start)
    ensures Walk(g, start, a + b) == Walk(g, Walk(g, start, a), b)
    decreases a
  {
    if a > 0 && start >= 0 {
      WalkAdd(g, g[start], a - 1, b);
    }
  }

  lemma WalkStep(g: seq<int>, start: int, k: nat)
    requires Valid(g) && ValidNode(g, start)
    ensures Walk(g, start, k + 1) == if Walk(g, start, k) < 0 then -1 else g[Walk(g, start, k)]
  {
    WalkAdd(g, start, k, 1);
    var x := Walk(g, start, k);
    if x >= 0 {
      assert Walk(g, x, 1) == Walk(g, g[x], 0);
    }
  }

  /** A walk that is still alive after b steps was alive at every earlier step. */
  lemma WalkAlive(g: seq<int>, start: int, a: nat, b: nat)
    requires Valid(g) && ValidNode(g, start) && a <= b
    requires Walk(g, start, b) >= 0
    ensures Walk(g, start, a) >= 0
  {
    WalkAdd(g, start, a, b - a);
  }

  lemma {:induction false} VisitsAt(g: seq<int>, start: int, fuel: nat, j: nat)
    requires Valid(g) && ValidNode(g, start)
    requires j < |Visits(g, start, fuel)|
    ensures Visits(g, start, fuel)[j] == Walk(g, start, j)
    decreases fuel
  {
    if j > 0 {
      VisitsAt(g, g[start], fuel - 1, j - 1);
    }
  }

  /** The visit list stops at fuel nodes or because the walk is over. */
  lemma {:induction false} VisitsLength(g: seq<int>, start: int, fuel: nat)
    requires Valid(g) && ValidNode(g, start)
    ensures var n := |Visits(g, start, fuel)|; n == fuel || Walk(g, start, n) == -1
    decreases fuel
  {
    if fuel > 0 && start >= 0 {
      VisitsLength(g, g[start], fuel - 1);
    }
  }

  // ---- pigeonhole ----

  /** The first n naturals. */
  ghost function Below(n: nat): (r: set<int>)
    ensures |r| == n && forall x :: x in r <==> 0 <= x < n
  {
    if n == 0 then {} else Below(n - 1) + {n - 1}
  }

  predicate Distinct(s: seq<int>) {
    forall i, j | 0 <= i < j < |s| :: s[i] != s[j]
  }

  lemma {:induction false} DistinctCardinality(s: seq<int>)
    requires Distinct(s)
    ensures |set x | x in s| == |s|
  {
    if s != [] {
      var t := s[..|s| - 1];
      DistinctCardinality(t);
      assert (set x | x in s) == (set x | x in t) + {s[|s| - 1]};
    }
  }

  lemma SubsetCardinality(a: set<int>, b: set<int>)
    requires a <= b
    ensures |a| <= |b|
  {
    assert b == a + (b - a);
  }

  lemma Pigeonhole(s: seq<int>, n: nat) returns (i: nat, j: nat)
    requires |s| > n
    requires forall k | 0 <= k < |s| :: 0 <= s[k] < n
    ensures i < j < |s| && s[i] == s[j]
  {
    if Distinct(s) {
      DistinctCardinality(s);
      SubsetCardinality((set x | x in s), Below(n));
      assert false;
    }
    i, j :| 0 <= i < j < |s| && s[i] == s[j];
  }

  /** A walk of |g| live steps has met some node twice. */
  lemma Repeat(g: seq<int>, start: int) returns (a: nat, b: nat)
    requires Valid(g) && ValidNode(g, start)
    requires Walk(g, start, |g|) >= 0
    ensures a < b <= |g| && Walk(g, start, a) == Walk(g, start, b) >= 0
  {
    var path := seq(|g| + 1, k requires 0 <= k <= |g| => Walk(g, start, k));
    forall k | 0 <= k < |path| ensures 0 <= path[k] < |g| {
      WalkAlive(g, start, k, |g|);
    }
    a, b := Pigeonhole(path, |g|);
  }

  /** From the first repeated node on, the walk is periodic. */
  lemma Periodic(g: seq<int>, start: int, a: nat, b: nat, k: nat)
    requires Valid(g) && ValidNode(g, start)
    requires a <= b && a <= k && Walk(g, start, a) == Walk(g, start, b)
    ensures Walk(g, start, k + (b - a)) == Walk(g, start, k)
  {
    WalkAdd(g, start, a, k - a);
    WalkAdd(g, start, b, k - a);
    assert b + (k - a) == k + (b - a);
  }

  /** A walk that outlives |g| steps has reached a cycle before its last step. */
  lemma EndlessMeetsCycle(g: seq<int>, start: int) returns (j: nat)
    requires Valid(g) && ValidNode(g, start) && !Ends(g, start)
    ensures j < |g| && OnCycle(g, Walk(g, start, j))
  {
    var a, b := Repeat(g, start);
    WalkAdd(g, start, a, b - a);
    j := a;
  }

  lemma {:induction false} CycleRepeats(g: seq<int>, x: int, k: nat, m: nat)
    requires Valid(g) && 0 <= x < |g| && Walk(g, x, k) == x
    ensures Walk(g, x, k * m) == x
    decreases m
  {
    if m > 0 {
      CycleRepeats(g, x, k, m - 1);
      WalkAdd(g, x, k * (m - 1), k);
      assert k * (m - 1) + k == k * m;
    } else {
      assert k * m == 0;
    }
  }

  /** A chain through a node on a cycle never ends. */
  lemma CycleIsEndless(g: seq<int>, start: int, j: nat)
    requires Valid(g) && ValidNode(g, start) && OnCycle(g, Walk(g, start, j))
    ensures !Ends(g, start)
  {
    var x := Walk(g, start, j);
    var k: nat :| k >= 1 && Walk(g, x, k) == x;
    var n := |g|;
    CycleRepeats(g, x, k, n);
    WalkAdd(g, start, j, k * n);
    TimesMonotone(1, k, n);
    WalkAlive(g, start, n, j + k * n);
  }

  /** In an acyclic graph every chain ends. */
  lemma AcyclicEnds(g: seq<int>, start: int)
    requires Valid(g) && ValidNode(g, start) && Acyclic(g)
    ensures Ends(g, start)
  {
    if !Ends(g, start) {
      var j := EndlessMeetsCycle(g, start);
    }
  }

  /** Whatever the walk reaches, it reaches within its first |g| nodes. */
  lemma {:induction false} VisitsAll(g: seq<int>, start: int, k: nat)
    requires Valid(g) && ValidNode(g, start) && Walk(g, start, k) >= 0
    ensures Walk(g, start, k) in Visits(g, start, |g|)
    decreases k
  {
    var v := Visits(g, start, |g|);
    VisitsLength(g, start, |g|);
    if k < |v| {
      VisitsAt(g, start, |g|, k);
    } else {
      WalkAlive(g, start, |v|, k);
      var a, b := Repeat(g, start);
      Periodic(g, start, a, b, k - (b - a));
      VisitsAll(g, start, k - (b - a));
    }
  }

  lemma VisitsIsWalk(g: seq<int>, start: int, fuel: nat, i: int) returns (j: nat)
    requires Valid(g) && ValidNode(g, start) && i in Visits(g, start, fuel)
    ensures j < |Visits(g, start, fuel)| && Visits(g, start, fuel)[j] == i == Walk(g, start, j)
  {
    j :| j < |Visits(g, start, fuel)| && Visits(g, start, fuel)[j] == i;
    VisitsAt(g, start, fuel, j);
  }

  /** The |g| nodes of a full walk are closed under successor: the bound never cuts a chain short. */
  lemma VisitsClosed(g: seq<int>, start: int, i: int)
    requires Valid(g) && ValidNode(g, start)
    requires i in Visits(g, start, |g|) && g[i] >= 0
    ensures g[i] in Visits(g, start, |g|)
  {
    var j := VisitsIsWalk(g, start, |g|, i);
    WalkStep(g, start, j);
    VisitsAll(g, start, j + 1);
  }

  /** Every visited node but the first is the successor of a visited node. */
  lemma VisitsPredecessor(g: seq<int>, start: int, fuel: nat, i: int) returns (w: int)
    requires Valid(g) && ValidNode(g, start)
    requires i in Visits(g, start, fuel) && i != start
    ensures w in Visits(g, start, fuel) && g[w] == i
  {
    var j := VisitsIsWalk(g, start, fuel, i);
    VisitsAt(g, start, fuel, j - 1);
    WalkStep(g, start, j - 1);
    w := Visits(g, start, fuel)[j - 1];
  }
}
