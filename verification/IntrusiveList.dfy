/** The intrusive object lists: next[i] is the link field of object i, head the list variable. */
module IntrusiveList {
  import opened Arith
  import opened Graph

  /** The list, front to back (the part of it that a walk bounded by the pool size reaches). */
  function Order(next: seq<int>, head: int): (r: seq<int>)
    requires Valid(next) && ValidNode(next, head)
    ensures forall i | i in r :: 0 <= i < |next|
  {
    Visits(next, head, |next|)
  }

  /** head and next after putting object i in front, unless it is linked already. */
  function Link(next: seq<int>, head: int, i: int): (r: (seq<int>, int))
    requires Valid(next) && ValidNode(next, head) && 0 <= i < |next|
    ensures |r.0| == |next| && Valid(r.0) && ValidNode(r.0, r.1)
  {
    if i in Order(next, head) then (next, head) else (next[i := head], i)
  }

  lemma {:induction false} WalkFrame(next: seq<int>, next': seq<int>, start: int, k: nat)
    requires Valid(next) && Valid(next') && |next| == |next'| && ValidNode(next, start)
    requires forall i | i in Visits(next, start, k) :: next'[i] == next[i]
    ensures Walk(next', start, k) == Walk(next, start, k)
    ensures Visits(next', start, k) == Visits(next, start, k)
    decreases k
  {
    if k > 0 && start >= 0 {
      assert forall i | i in Visits(next, next[start], k - 1) :: i in Visits(next, start, k);
      WalkFrame(next, next', next[start], k - 1);
    }
  }

  /** Nodes of a list that ends are pairwise different. */
  lemma EndingDistinct(next: seq<int>, head: int)
    requires Valid(next) && ValidNode(next, head) && Ends(next, head)
    ensures Distinct(Order(next, head))
  {
    var v := Order(next, head);
    forall i, j | 0 <= i < j < |v| ensures v[i] != v[j] {
      VisitsAt(next, head, |next|, i);
      VisitsAt(next, head, |next|, j);
      if v[i] == v[j] {
        var x := Walk(next, head, i);
        assert x == v[i] && v[i] in v;
        WalkAdd(next, head, i, j - i);
        assert Walk(next, x, j - i) == x;
        CycleIsEndless(next, head, i);
      }
    }
  }

  /** Distinct nodes that miss one of n objects are fewer than n. */
  lemma DistinctMissingOne(v: seq<int>, n: nat, i: int)
    requires Distinct(v) && 0 <= i < n && i !in v
    requires forall x | x in v :: 0 <= x < n
    ensures |v| < n
  {
    DistinctCardinality(v);
    var nodes := set x | x in v;
    SubsetCardinality(nodes + {i}, Below(n));
    assert |nodes + {i}| == |nodes| + 1;
  }

  /** A list that ends has at most |next| nodes, and one node less if some object is not on it. */
  lemma EndsEarly(next: seq<int>, head: int, i: int)
    requires Valid(next) && ValidNode(next, head) && Ends(next, head)
    requires 0 <= i < |next| && i !in Order(next, head)
    ensures Walk(next, head, |next| - 1) == -1
  {
    hide Walk, Visits, Distinct;
    if Walk(next, head, |next| - 1) >= 0 {
      VisitsLength(next, head, |next|);
      EndingDistinct(next, head);
      DistinctMissingOne(Order(next, head), |next|, i);
      WalkAlive(next, head, |Order(next, head)|, |next| - 1);
    }
  }

  /** Linking keeps the list finite and free of duplicates, and puts a new object in front. */
  lemma LinkKeepsList(next: seq<int>, head: int, i: int)
    requires Valid(next) && ValidNode(next, head) && Ends(next, head) && 0 <= i < |next|
    ensures var (next', head') := Link(next, head, i);
      && Ends(next', head')
      && Distinct(Order(next', head'))
      && i in Order(next', head')
      && Order(next', head') == if i in Order(next, head) then Order(next, head) else [i] + Order(next, head)
  {
    var (next', head') := Link(next, head, i);
    var n := |next|;
    if i !in Order(next, head) {
      WalkFrame(next, next', head, n);
      EndsEarly(next, head, i);
      WalkAlive0(next', head, n - 1, n);
      VisitsShort(next, head, n);
      WalkFrame(next, next', head, n - 1);
      assert Walk(next', i, n) == Walk(next', head, n - 1);
      assert Order(next', i) == [i] + Visits(next', head, n - 1);
    }
    EndingDistinct(next', head');
  }

  lemma WalkAlive0(next: seq<int>, head: int, a: nat, b: nat)
    requires Valid(next) && ValidNode(next, head) && a <= b
    ensures Walk(next, head, b) >= 0 ==> Walk(next, head, a) >= 0
  {
    if Walk(next, head, b) >= 0 {
      WalkAlive(next, head, a, b);
    }
  }

  /** One unit of fuel more changes nothing once the walk is over. */
  lemma {:induction false} VisitsShort(next: seq<int>, head: int, n: nat)
    requires Valid(next) && ValidNode(next, head) && n > 0 && Walk(next, head, n - 1) == -1
    ensures Visits(next, head, n) == Visits(next, head, n - 1)
    decreases n
  {
    if head >= 0 {
      VisitsShort(next, next[head], n - 1);
    }
  }

  /** The object the walk stands at after j steps along a list: the j-th one, null behind the last. */
  function At(order: seq<int>, j: nat): int {
    if j < |order| then order[j] else -1
  }

  /** Following the link of the j-th object of a finite list leads to the next one. */
  lemma Follow(next: seq<int>, head: int, j: nat)
    requires Valid(next) && ValidNode(next, head) && Ends(next, head)
    ensures
      var order := Order(next, head);
      && head == At(order, 0)
      && (j < |order| ==> 0 <= order[j] < |next| && order[j] in order && next[order[j]] == At(order, j + 1))
  {
    var order := Order(next, head);
    VisitsLength(next, head, |next|);
    assert Walk(next, head, |order|) == -1;
    assert head == Walk(next, head, 0);
    if |order| > 0 {
      VisitsAt(next, head, |next|, 0);
    }
    if j < |order| {
      assert order[j] in order;
      VisitsAt(next, head, |next|, j);
      WalkStep(next, head, j);
      if j + 1 < |order| {
        VisitsAt(next, head, |next|, j + 1);
      }
    }
  }

  // ---- Floyd's tortoise and hare ----

  /** On a list that does not end there is a step at which both pointers meet. */
  lemma MeetingPoint(next: seq<int>, head: int) returns (k: nat)
    requires Valid(next) && ValidNode(next, head) && !Ends(next, head)
    ensures k >= 1 && Walk(next, head, k) == Walk(next, head, 2 * k)
  {
    var a, b := Repeat(next, head);
    var period := b - a;
    var m := a + 1;
    k := period * m;
    TimesMonotone(1, period, m);
    WalkAdd(next, head, a, period);
    var x := Walk(next, head, a);
    CycleRepeats(next, x, period, m);
    WalkAdd(next, head, a, k - a);
    WalkAdd(next, head, a, k);
    WalkAdd(next, head, a, k + (k - a));
    WalkAdd(next, x, k, k - a);
    assert a + (k + (k - a)) == 2 * k;
  }

  /** Two different live pointers that meet are on a cycle. */
  lemma MeetingIsEndless(next: seq<int>, head: int, k: nat)
    requires Valid(next) && ValidNode(next, head) && k >= 1
    requires Walk(next, head, k) == Walk(next, head, 2 * k) >= 0
    ensures !Ends(next, head)
  {
    WalkAdd(next, head, k, k);
    CycleIsEndless(next, head, k);
  }

  /** The cycle check at the start of both runtime checkers: terminates on every list, and reports
      a cycle exactly when the list never ends. */
  method FindCycle(next: seq<int>, head: int) returns (cyclic: bool, at: int)
    requires Valid(next) && ValidNode(next, head)
    ensures cyclic <==> !Ends(next, head)
    ensures cyclic ==> OnCycle(next, at)
  {
    ghost var g := next;
    var slow, fast := head, head;
    ghost var k: nat := 0;
    ghost var meet: nat := |g| + 1;
    if !Ends(g, head) {
      meet := MeetingPoint(g, head);
    }
    while fast != -1 && next[fast] != -1
      invariant slow == Walk(g, head, k) && fast == Walk(g, head, 2 * k)
      invariant !Ends(g, head) ==> k < meet && Walk(g, head, meet) == Walk(g, head, 2 * meet)
      invariant Ends(g, head) ==> 2 * k <= |g| + 1 && meet == |g| + 1
      decreases meet - k
    {
      WalkStep(g, head, 2 * k);
      WalkStep(g, head, 2 * k + 1);
      WalkStep(g, head, k);
      WalkAlive(g, head, k, 2 * k);
      if k > 0 {
        WalkAlive(g, head, k + 1, 2 * k + 1);
      }
      slow := next[slow];
      fast := next[next[fast]];
      k := k + 1;
      if slow == fast {
        MeetingIsEndless(g, head, k);
        WalkAdd(g, head, k, k);
        return true, slow;
      }
      if Ends(g, head) && 2 * k > |g| + 1 {
        WalkAlive(g, head, |g|, 2 * k - 1);
      }
    }
    WalkStep(g, head, 2 * k);
    if !Ends(g, head) {
      var j := EndlessMeetsCycle(g, head);
      NeverNull(g, head, 2 * k + 1);
    }
    return false, -1;
  }

  lemma NeverNull(next: seq<int>, head: int, k: nat)
    requires Valid(next) && ValidNode(next, head) && !Ends(next, head)
    ensures Walk(next, head, k) >= 0
  {
    if k <= |next| {
      WalkAlive(next, head, k, |next|);
    } else {
      var j := EndlessMeetsCycle(next, head);
      var x := Walk(next, head, j);
      var c: nat :| c >= 1 && Walk(next, x, c) == x;
      CycleRepeats(next, x, c, k);
      WalkAdd(next, head, j, c * k);
      TimesMonotone(1, c, k);
      WalkAlive(next, head, k, j + c * k);
    }
  }
}
