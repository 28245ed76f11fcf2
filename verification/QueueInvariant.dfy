/** The bounded queue: reservations are exactly the granted calls still to finish, nobody sleeps on
    room or on an item, and the ring buffer is a first-in first-out sequence. */
module QueueInvariant {
  import opened Arith
  import opened Types
  import opened TaskTable
  import opened Machine
  import opened WaitInvariant
  import opened Phases

  // ---- the ring as a sequence ----

  /** The cursors are consistent with the count. */
  predicate Ring(q: Queue) {
    && QueueShape(q)
    && q.count <= q.capacity
    && (if Usable(q) then q.head == CyclicIndex(q.tail, q.count, q.capacity) else q.count == 0)
  }

  /** The items in the queue, oldest first. */
  function Contents(q: Queue): (r: seq<seq<Byte>>)
    requires Ring(q)
    ensures |r| == q.count
  {
    if Usable(q) then seq(q.count, k requires 0 <= k < q.count => Slot(q, CyclicIndex(q.tail, k, q.capacity))) else []
  }

  lemma NextCursor(i: Word, n: Word)
    requires i < n
    ensures Wrap(i + 1) % n == if i + 1 == n then 0 else i + 1
  {
    assert Wrap(i + 1) == i + 1;
    if i + 1 < n {
      ModBelow(i + 1, n);
    } else {
      ModSelf(n);
    }
  }

  /** Replacing z bytes at lo leaves the z bytes at any place that does not overlap. */
  lemma SpliceAt(bytes: seq<Byte>, item: seq<Byte>, lo: nat, z: nat, a: nat)
    requires |item| == z && lo + z <= |bytes| && a + z <= |bytes|
    requires a == lo || a + z <= lo || lo + z <= a
    ensures (bytes[..lo] + item + bytes[lo + z..])[a..a + z] == if a == lo then item else bytes[a..a + z]
  {}

  /** Writing one slot leaves every other slot alone. */
  lemma PutSlot(q: Queue, item: seq<Byte>, i: nat)
    requires QueueShape(q) && Usable(q) && |item| == q.itemSize && i < q.capacity
    ensures Slot(Put(q, item), i) == if i == q.head then item else Slot(q, i)
  {
    var z: nat, h: nat := q.itemSize, q.head;
    SlotBounds(q, i);
    SlotBounds(q, h);
    SlotsApart(i, h, z);
    SpliceAt(q.storage, item, h * z, z, i * z);
  }

  lemma SlotsApart(i: nat, h: nat, z: nat)
    requires z > 0
    ensures (i + 1) * z == i * z + z && (h + 1) * z == h * z + z
    ensures i < h ==> i * z + z <= h * z
    ensures i > h ==> h * z + z <= i * z
  {
    if i < h {
      TimesMonotone(i + 1, h, z);
    } else if i > h {
      TimesMonotone(h + 1, i, z);
    }
  }

  lemma PutAppends(q: Queue, item: seq<Byte>)
    requires Ring(q) && Usable(q) && q.count < q.capacity && |item| == q.itemSize
    ensures Ring(Put(q, item)) && Put(q, item).count == q.count + 1
    ensures Contents(Put(q, item)) == Contents(q) + [item]
  {
    var p := Put(q, item);
    NextCursor(q.head, q.capacity);
    forall k | 0 <= k < p.count ensures Contents(p)[k] == (Contents(q) + [item])[k] {
      PutSlot(q, item, CyclicIndex(q.tail, k, q.capacity));
    }
  }

  lemma DropRemovesOldest(q: Queue)
    requires Ring(q) && Usable(q) && q.count > 0
    ensures Ring(Drop(q)) && Drop(q).count == q.count - 1
    ensures Contents(q)[0] == Slot(q, q.tail)
    ensures Contents(Drop(q)) == Contents(q)[1..]
  {
    var d := Drop(q);
    NextCursor(q.tail, q.capacity);
    forall k | 0 <= k < d.count ensures Contents(d)[k] == Contents(q)[1..][k] {
      assert CyclicIndex(d.tail, k, q.capacity) == CyclicIndex(q.tail, k + 1, q.capacity);
    }
  }

  lemma ReservationsKeepContents(q: Queue, d: int)
    requires Ring(q)
    ensures Ring(ReserveSlot(q, d)) && Contents(ReserveSlot(q, d)) == Contents(q)
    ensures Ring(ReserveItem(q, d)) && Contents(ReserveItem(q, d)) == Contents(q)
  {}

  // ---- who is engaged with a queue ----

  datatype QueuePhase =
    | Elsewhere
    | WantsSlot(q: nat) | WantsItem(q: nat)    // blocked
    | HoldsSlot(q: nat) | HoldsItem(q: nat)    // woken with a reservation, call not finished
    | TimedOutOf(q: nat)

  function QueuePhaseOf(t: Task): QueuePhase {
    match t.call
    case SendCall(q, _, _, _) =>
      if t.state.Blocked? then WantsSlot(q) else if t.waitResult then HoldsSlot(q) else TimedOutOf(q)
    case ReceiveCall(q, _, _) =>
      if t.state.Blocked? then WantsItem(q) else if t.waitResult then HoldsItem(q) else TimedOutOf(q)
    case _ => Elsewhere
  }

  /** How many of the first k tasks are in phase p. */
  function Tally(ts: seq<Task>, p: QueuePhase, k: nat): (r: nat)
    requires k <= |ts|
  {
    if k == 0 then 0 else Tally(ts, p, k - 1) + if QueuePhaseOf(ts[k - 1]) == p then 1 else 0
  }

  lemma {:induction false} TallyUpdate(ts: seq<Task>, p: QueuePhase, i: nat, t: Task, k: nat)
    requires i < |ts| && k <= |ts|
    ensures Tally(ts[i := t], p, k) == Tally(ts, p, k)
            + if i < k then (if QueuePhaseOf(t) == p then 1 else 0) - (if QueuePhaseOf(ts[i]) == p then 1 else 0) else 0
  {
    if k > 0 {
      TallyUpdate(ts, p, i, t, k - 1);
    }
  }

  lemma {:induction false} TallyFrame(ts: seq<Task>, ts': seq<Task>, p: QueuePhase, k: nat)
    requires |ts'| == |ts| && k <= |ts|
    requires forall i | 0 <= i < k :: QueuePhaseOf(ts'[i]) == p <==> QueuePhaseOf(ts[i]) == p
    ensures Tally(ts', p, k) == Tally(ts, p, k)
  {
    if k > 0 {
      TallyFrame(ts, ts', p, k - 1);
    }
  }

  // ---- the invariant ----

  ghost predicate Somebody(ts: seq<Task>, p: QueuePhase) {
    exists i :: 0 <= i < |ts| && QueuePhaseOf(ts[i]) == p
  }

  /** Queue q with slots send reservations and items receive reservations held by the running call
      besides those of the waiting tasks. */
  ghost predicate Balanced(ts: seq<Task>, u: Queue, q: nat, slots: nat, items: nat) {
    && Ring(u)
    && u.sendReservations == Tally(ts, HoldsSlot(q), |ts|) + slots
    && u.receiveReservations == Tally(ts, HoldsItem(q), |ts|) + items
    && u.count + u.sendReservations <= u.capacity
    && u.receiveReservations <= u.count
    && (!Usable(u) ==> u.sendReservations == 0)
    && (Somebody(ts, WantsItem(q)) ==> u.count == u.receiveReservations)
    && (Somebody(ts, WantsSlot(q)) && Usable(u) ==> u.count + u.sendReservations == u.capacity)
  }

  ghost predicate QueuesOk(s: State) {
    forall q | 0 <= q < |s.queues| :: Balanced(s.tasks, s.queues[q], q, 0, 0)
  }

  lemma WantsIsWaiting(s: State, q: nat, i: nat)
    requires TasksOk(s) && i < |s.tasks|
    ensures QueuePhaseOf(s.tasks[i]) == WantsItem(q) <==> Waiting(s.tasks[i], QueueRef(q), ReceiveWait)
    ensures QueuePhaseOf(s.tasks[i]) == WantsSlot(q) <==> Waiting(s.tasks[i], QueueRef(q), SendWait)
  {
    assert TaskOk(s, i, s.tasks[i]);
  }

  /** Waking the best waiter turns one WantsItem (WantsSlot) into HoldsItem (HoldsSlot), if there is one. */
  lemma WakeReceiver(s: State, q: nat)
    requires TasksOk(s)
    ensures
      var (ts, to) := Wake(s.tasks, QueueRef(q), ReceiveWait);
      && (to < 0 ==> ts == s.tasks && !Somebody(ts, WantsItem(q)))
      && (to >= 0 ==> QueuePhaseOf(s.tasks[to]) == WantsItem(q) && ts == s.tasks[to := ts[to]]
                      && QueuePhaseOf(ts[to]) == HoldsItem(q))
  {
    BestWaiterIsBest(s.tasks, QueueRef(q), ReceiveWait, |s.tasks|);
    forall i | 0 <= i < |s.tasks| {
      WantsIsWaiting(s, q, i);
    }
  }

  lemma WakeSender(s: State, q: nat)
    requires TasksOk(s)
    ensures
      var (ts, to) := Wake(s.tasks, QueueRef(q), SendWait);
      && (to < 0 ==> ts == s.tasks && !Somebody(ts, WantsSlot(q)))
      && (to >= 0 ==> QueuePhaseOf(s.tasks[to]) == WantsSlot(q) && ts == s.tasks[to := ts[to]]
                      && QueuePhaseOf(ts[to]) == HoldsSlot(q))
  {
    BestWaiterIsBest(s.tasks, QueueRef(q), SendWait, |s.tasks|);
    forall i | 0 <= i < |s.tasks| {
      WantsIsWaiting(s, q, i);
    }
  }

  /** One task moves from phase a to phase b: only their tallies change. */
  lemma Moved(ts: seq<Task>, i: nat, t: Task, p: QueuePhase)
    requires i < |ts|
    ensures Tally(ts[i := t], p, |ts|) == Tally(ts, p, |ts|)
            + (if QueuePhaseOf(t) == p then 1 else 0) - (if QueuePhaseOf(ts[i]) == p then 1 else 0)
    ensures Somebody(ts[i := t], p) && QueuePhaseOf(t) != p ==> Somebody(ts, p)
  {
    TallyUpdate(ts, p, i, t, |ts|);
    if Somebody(ts[i := t], p) && QueuePhaseOf(t) != p {
      var j :| 0 <= j < |ts| && QueuePhaseOf(ts[i := t][j]) == p;
      assert QueuePhaseOf(ts[j]) == p;
    }
  }

  /** The queue after an item has been put in, and a receiver woken or not. */
  function Delivered(u: Queue, item: seq<Byte>, reserved: bool, wakes: bool): Queue
    requires QueueShape(u) && Usable(u) && |item| == u.itemSize
  {
    var v := if reserved then ReserveSlot(u, -1) else u;
    if wakes then ReserveItem(Put(v, item), 1) else Put(v, item)
  }

  lemma DeliverIs(s: State, q: nat, item: seq<Byte>, reserved: bool)
    requires Wf(s) && q < |s.queues| && Usable(s.queues[q]) && |item| == s.queues[q].itemSize
    ensures
      var (ts, to) := Wake(s.tasks, QueueRef(q), ReceiveWait);
      Deliver(s, q, item, reserved)
          == s.(tasks := ts, queues := s.queues[q := Delivered(s.queues[q], item, reserved, to >= 0)])
  {
    hide Wake, Put, ReserveItem, ReserveSlot;
  }

  /** What a delivery does to the ring. */
  lemma DeliverRing(u: Queue, item: seq<Byte>, reserved: bool, wakes: bool)
    requires Ring(u) && Usable(u) && u.count < u.capacity && |item| == u.itemSize
    ensures
      var w := Delivered(u, item, reserved, wakes);
      Ring(w) && w.count == u.count + 1 && Contents(w) == Contents(u) + [item]
  {
    var v := if reserved then ReserveSlot(u, -1) else u;
    ReservationsKeepContents(u, -1);
    PutAppends(v, item);
    ReservationsKeepContents(Put(v, item), 1);
  }

  /** The reservation counters after a delivery, without wrap-around. */
  lemma DeliverFields(u: Queue, item: seq<Byte>, reserved: bool, wakes: bool)
    requires QueueShape(u) && Usable(u) && |item| == u.itemSize
    requires u.sendReservations >= (if reserved then 1 else 0) && u.receiveReservations < u.capacity
    ensures
      var w := Delivered(u, item, reserved, wakes);
      && w.capacity == u.capacity && w.itemSize == u.itemSize
      && w.sendReservations == u.sendReservations - (if reserved then 1 else 0)
      && w.receiveReservations == u.receiveReservations + (if wakes then 1 else 0)
  {
    hide Wrap, QueueShape;
    if reserved {
      WrapSmall(u.sendReservations - 1);
    }
    WrapSmall(u.receiveReservations + 1);
  }

  /** The items in queue q of a state. */
  function Items(s: State, q: nat): seq<seq<Byte>>
    requires q < |s.queues| && Ring(s.queues[q])
  {
    Contents(s.queues[q])
  }

  /** The waiters' side of a delivery: the task to, if any, goes from wanting to holding an item. */
  lemma DeliverTally(ts: seq<Task>, ts': seq<Task>, to: int, u: Queue, w: Queue, q: nat, slots: nat)
    requires Balanced(ts, u, q, slots, 0) && Usable(u) && slots <= 1
    requires slots == 0 ==> u.count + u.sendReservations < u.capacity
    requires Ring(w) && w.capacity == u.capacity && w.itemSize == u.itemSize && w.count == u.count + 1
    requires w.sendReservations == u.sendReservations - slots
    requires w.receiveReservations == u.receiveReservations + if to >= 0 then 1 else 0
    requires -1 <= to < |ts|
    requires to < 0 ==> ts' == ts && !Somebody(ts, WantsItem(q))
    requires to >= 0 ==> QueuePhaseOf(ts[to]) == WantsItem(q) && |ts'| == |ts| && ts' == ts[to := ts'[to]]
    requires to >= 0 ==> QueuePhaseOf(ts'[to]) == HoldsItem(q)
    ensures Balanced(ts', w, q, 0, 0)
  {
    if to >= 0 {
      assert Somebody(ts, WantsItem(q));
      Moved(ts, to, ts'[to], HoldsSlot(q));
      Moved(ts, to, ts'[to], HoldsItem(q));
      Moved(ts, to, ts'[to], WantsSlot(q));
      Moved(ts, to, ts'[to], WantsItem(q));
    }
  }

  lemma DeliverBalances(s: State, q: nat, item: seq<Byte>, reserved: bool)
    requires Sane(s) && q < |s.queues| && Usable(s.queues[q]) && |item| == s.queues[q].itemSize
    requires Balanced(s.tasks, s.queues[q], q, if reserved then 1 else 0, 0)
    requires reserved || HasRoom(s.queues[q])
    ensures
      var s' := Deliver(s, q, item, reserved);
      && Balanced(s'.tasks, s'.queues[q], q, 0, 0)
      && Items(s', q) == Items(s, q) + [item]
  {
    hide Deliver, Delivered, Wake, Contents, TasksOk, Ring;
    var u := s.queues[q];
    var (ts, to) := Wake(s.tasks, QueueRef(q), ReceiveWait);
    DeliverIs(s, q, item, reserved);
    DeliverFields(u, item, reserved, to >= 0);
    DeliverRing(u, item, reserved, to >= 0);
    WakeReceiver(s, q);
    DeliverTally(s.tasks, ts, to, u, Delivered(u, item, reserved, to >= 0), q, if reserved then 1 else 0);
  }

  /** The queue after its oldest item has been taken out, and a sender woken or not. */
  function Extracted(u: Queue, reserved: bool, wakes: bool): Queue
    requires QueueShape(u) && Usable(u)
  {
    var v := if reserved then ReserveItem(u, -1) else u;
    if wakes then ReserveSlot(Drop(v), 1) else Drop(v)
  }

  lemma ExtractIs(s: State, q: nat, reserved: bool)
    requires Wf(s) && q < |s.queues| && Usable(s.queues[q])
    ensures
      var (ts, to) := Wake(s.tasks, QueueRef(q), SendWait);
      Extract(s, q, reserved) == s.(tasks := ts, queues := s.queues[q := Extracted(s.queues[q], reserved, to >= 0)])
  {
    hide Wake, Drop, ReserveItem, ReserveSlot;
  }

  /** What an extraction does to the ring. */
  lemma ExtractRing(u: Queue, reserved: bool, wakes: bool)
    requires Ring(u) && Usable(u) && u.count > 0
    ensures
      var w := Extracted(u, reserved, wakes);
      Ring(w) && w.count == u.count - 1 && Contents(u) == [Slot(u, u.tail)] + Contents(w)
  {
    var v := if reserved then ReserveItem(u, -1) else u;
    ReservationsKeepContents(u, -1);
    DropRemovesOldest(v);
    ReservationsKeepContents(Drop(v), 1);
    assert Slot(v, v.tail) == Slot(u, u.tail);
    assert Contents(u) == [Contents(u)[0]] + Contents(u)[1..];
  }

  /** The reservation counters after an extraction, without wrap-around. */
  lemma ExtractFields(u: Queue, reserved: bool, wakes: bool)
    requires QueueShape(u) && Usable(u)
    requires u.receiveReservations >= (if reserved then 1 else 0) && u.sendReservations < u.capacity
    ensures
      var w := Extracted(u, reserved, wakes);
      && w.capacity == u.capacity && w.itemSize == u.itemSize
      && w.receiveReservations == u.receiveReservations - (if reserved then 1 else 0)
      && w.sendReservations == u.sendReservations + (if wakes then 1 else 0)
  {}

  lemma ExtractTally(ts: seq<Task>, ts': seq<Task>, to: int, u: Queue, w: Queue, q: nat, items: nat)
    requires Balanced(ts, u, q, 0, items) && Usable(u) && items <= 1
    requires items == 0 ==> u.receiveReservations < u.count
    requires Ring(w) && w.capacity == u.capacity && w.itemSize == u.itemSize && w.count == u.count - 1
    requires w.receiveReservations == u.receiveReservations - items
    requires w.sendReservations == u.sendReservations + if to >= 0 then 1 else 0
    requires -1 <= to < |ts|
    requires to < 0 ==> ts' == ts && !Somebody(ts, WantsSlot(q))
    requires to >= 0 ==> QueuePhaseOf(ts[to]) == WantsSlot(q) && |ts'| == |ts| && ts' == ts[to := ts'[to]]
    requires to >= 0 ==> QueuePhaseOf(ts'[to]) == HoldsSlot(q)
    ensures Balanced(ts', w, q, 0, 0)
  {
    if to >= 0 {
      assert Somebody(ts, WantsSlot(q));
      Moved(ts, to, ts'[to], HoldsSlot(q));
      Moved(ts, to, ts'[to], HoldsItem(q));
      Moved(ts, to, ts'[to], WantsSlot(q));
      Moved(ts, to, ts'[to], WantsItem(q));
    }
  }

  lemma ExtractBalances(s: State, q: nat, reserved: bool)
    requires Sane(s) && q < |s.queues| && Usable(s.queues[q])
    requires Balanced(s.tasks, s.queues[q], q, 0, if reserved then 1 else 0)
    requires reserved || HasItem(s.queues[q])
    ensures
      var s' := Extract(s, q, reserved);
      && Balanced(s'.tasks, s'.queues[q], q, 0, 0)
      && Items(s, q) == [Slot(s.queues[q], s.queues[q].tail)] + Items(s', q)
  {
    hide Extract, Extracted, Wake, Contents, Slot, TasksOk, Ring;
    var u := s.queues[q];
    var (ts, to) := Wake(s.tasks, QueueRef(q), SendWait);
    ExtractIs(s, q, reserved);
    ExtractFields(u, reserved, to >= 0);
    ExtractRing(u, reserved, to >= 0);
    WakeSender(s, q);
    ExtractTally(s.tasks, ts, to, u, Extracted(u, reserved, to >= 0), q, if reserved then 1 else 0);
  }

  // ---- the other queues, and the steps ----

  predicate Engaged(p: QueuePhase, q: nat) {
    p == WantsSlot(q) || p == WantsItem(q) || p == HoldsSlot(q) || p == HoldsItem(q)
  }

  /** From a to b nothing happens that queue q could notice, except perhaps a waiter giving up. */
  predicate Unnoticed(q: nat, a: QueuePhase, b: QueuePhase) {
    b == a || (!Engaged(b, q) && a != HoldsSlot(q) && a != HoldsItem(q))
  }

  lemma BalancedFrame(ts: seq<Task>, ts': seq<Task>, u: Queue, q: nat, slots: nat, items: nat)
    requires Balanced(ts, u, q, slots, items) && |ts'| == |ts|
    requires forall i | 0 <= i < |ts| :: Unnoticed(q, QueuePhaseOf(ts[i]), QueuePhaseOf(ts'[i]))
    ensures Balanced(ts', u, q, slots, items)
  {
    TallyFrame(ts, ts', HoldsSlot(q), |ts|);
    TallyFrame(ts, ts', HoldsItem(q), |ts|);
    forall i | 0 <= i < |ts| ensures Unnoticed(q, QueuePhaseOf(ts[i]), QueuePhaseOf(ts'[i])) {
    }
  }

  /** All queues are balanced, but the running call on queue q holds reservations of its own. */
  ghost predicate QueuesOkBut(s: State, q: nat, slots: nat, items: nat) {
    forall k | 0 <= k < |s.queues| ::
      Balanced(s.tasks, s.queues[k], k, if k == q then slots else 0, if k == q then items else 0)
  }

  lemma DeliverKeepsQueues(s: State, q: nat, item: seq<Byte>, reserved: bool)
    requires Sane(s) && q < |s.queues| && Usable(s.queues[q]) && |item| == s.queues[q].itemSize
    requires QueuesOkBut(s, q, if reserved then 1 else 0, 0)
    requires reserved || HasRoom(s.queues[q])
    ensures
      var s' := Deliver(s, q, item, reserved);
      && |s'.queues| == |s.queues| && QueuesOk(s')
      && (forall k | 0 <= k < |s.queues| :: Ring(s.queues[k]) && Ring(s'.queues[k]))
      && Items(s', q) == Items(s, q) + [item]
      && (forall k | 0 <= k < |s.queues| && k != q :: s'.queues[k] == s.queues[k])
  {
    hide Deliver, Delivered, Wake, Contents, Slot, Ring, Somebody, TasksOk;
    var s' := Deliver(s, q, item, reserved);
    DeliverIs(s, q, item, reserved);
    assert Balanced(s.tasks, s.queues[q], q, if reserved then 1 else 0, 0);
    DeliverBalances(s, q, item, reserved);
    WakeReceiver(s, q);
    forall k | 0 <= k < |s.queues| ensures Balanced(s'.tasks, s'.queues[k], k, 0, 0) {
      assert Balanced(s.tasks, s.queues[k], k, if k == q && reserved then 1 else 0, 0);
      if k != q {
        BalancedFrame(s.tasks, s'.tasks, s.queues[k], k, 0, 0);
      }
    }
  }

  lemma ExtractKeepsQueues(s: State, q: nat, reserved: bool)
    requires Sane(s) && q < |s.queues| && Usable(s.queues[q])
    requires QueuesOkBut(s, q, 0, if reserved then 1 else 0)
    requires reserved || HasItem(s.queues[q])
    ensures
      var s' := Extract(s, q, reserved);
      && |s'.queues| == |s.queues| && QueuesOk(s')
      && (forall k | 0 <= k < |s.queues| :: Ring(s.queues[k]) && Ring(s'.queues[k]))
      && Items(s, q) == [Slot(s.queues[q], s.queues[q].tail)] + Items(s', q)
      && (forall k | 0 <= k < |s.queues| && k != q :: s'.queues[k] == s.queues[k])
  {
    hide Extract, Extracted, Wake, Contents, Slot, Ring, Somebody, TasksOk;
    var s' := Extract(s, q, reserved);
    ExtractIs(s, q, reserved);
    assert Balanced(s.tasks, s.queues[q], q, 0, if reserved then 1 else 0);
    ExtractBalances(s, q, reserved);
    WakeSender(s, q);
    forall k | 0 <= k < |s.queues| ensures Balanced(s'.tasks, s'.queues[k], k, 0, 0) {
      assert Balanced(s.tasks, s.queues[k], k, 0, if k == q && reserved then 1 else 0);
      if k != q {
        BalancedFrame(s.tasks, s'.tasks, s.queues[k], k, 0, 0);
      }
    }
  }

  lemma SleepTally(ts: seq<Task>, i: nat, t: Task, u: Queue, q: nat)
    requires Balanced(ts, u, q, 0, 0) && i < |ts| && QueuePhaseOf(ts[i]) == Elsewhere
    requires (QueuePhaseOf(t) == WantsSlot(q) && !HasRoom(u)) || (QueuePhaseOf(t) == WantsItem(q) && !HasItem(u))
    ensures Balanced(ts[i := t], u, q, 0, 0)
  {
    Moved(ts, i, t, HoldsSlot(q));
    Moved(ts, i, t, HoldsItem(q));
    Moved(ts, i, t, WantsSlot(q));
    Moved(ts, i, t, WantsItem(q));
  }

  /** The running task goes to sleep on queue q because the queue has no room (no item) for it. */
  lemma SleepKeepsQueues(s: State, q: nat, t: Task)
    requires Sane(s) && QueuesOk(s) && q < |s.queues| && QueuePhaseOf(Current(s)) == Elsewhere
    requires || (QueuePhaseOf(t) == WantsSlot(q) && !HasRoom(s.queues[q]))
             || (QueuePhaseOf(t) == WantsItem(q) && !HasItem(s.queues[q]))
    ensures QueuesOk(SetCurrent(s, t))
  {
    var s' := SetCurrent(s, t);
    forall k | 0 <= k < |s.queues| ensures Balanced(s'.tasks, s'.queues[k], k, 0, 0) {
      assert Balanced(s.tasks, s.queues[k], k, 0, 0);
      if k != q {
        BalancedFrame(s.tasks, s'.tasks, s.queues[k], k, 0, 0);
      } else {
        SleepTally(s.tasks, s.cur, t, s.queues[q], q);
      }
    }
  }

  /** One pass of the send loop keeps the balance; with a reservation it always succeeds at once. */
  lemma SendPassKeepsQueues(s: State, q: nat, item: seq<Byte>, timeout: Word, d: Deadline, reserved: bool)
    requires Sane(s) && AppContext(s) && q < |s.queues| && |item| == s.queues[q].itemSize
    requires QueuesOkBut(s, q, if reserved then 1 else 0, 0)
    ensures
      var (s', out) := SendPass(s, q, item, timeout, d, reserved);
      && |s'.queues| == |s.queues| && QueuesOk(s')
      && (reserved ==> out == Status(true))
      && (forall k | 0 <= k < |s.queues| :: Ring(s.queues[k]) && Ring(s'.queues[k]))
      && Items(s', q) == Items(s, q) + (if out == Status(true) then [item] else [])
      && (forall k | 0 <= k < |s.queues| && k != q :: s'.queues[k] == s.queues[k])
  {
    assert Balanced(s.tasks, s.queues[q], q, if reserved then 1 else 0, 0);
    if Usable(s.queues[q]) && (reserved || HasRoom(s.queues[q])) {
      DeliverKeepsQueues(s, q, item, reserved);
    } else {
      assert QueuesOk(s);
      SleepKeepsQueues(s, q, WaitBegin(Current(s), QueueRef(q), SendWait, d, SendCall(q, item, timeout, d)));
    }
  }

  lemma ReceivePassKeepsQueues(s: State, q: nat, timeout: Word, d: Deadline, reserved: bool)
    requires Sane(s) && AppContext(s) && q < |s.queues|
    requires QueuesOkBut(s, q, 0, if reserved then 1 else 0)
    ensures
      var (s', out) := ReceivePass(s, q, timeout, d, reserved);
      && |s'.queues| == |s.queues| && QueuesOk(s')
      && (reserved ==> out.Item?)
      && (forall k | 0 <= k < |s.queues| :: Ring(s.queues[k]) && Ring(s'.queues[k]))
      && Items(s, q) == (if out.Item? then [out.item] else []) + Items(s', q)
      && (forall k | 0 <= k < |s.queues| && k != q :: s'.queues[k] == s.queues[k])
  {
    assert Balanced(s.tasks, s.queues[q], q, 0, if reserved then 1 else 0);
    if Usable(s.queues[q]) && (reserved || HasItem(s.queues[q])) {
      ExtractKeepsQueues(s, q, reserved);
    } else {
      assert QueuesOk(s);
      SleepKeepsQueues(s, q, WaitBegin(Current(s), QueueRef(q), ReceiveWait, d, ReceiveCall(q, timeout, d)));
    }
  }

  /** Popping the frame of a queue call leaves its reservation, if any, with the running call. */
  lemma ReturnedBalance(s: State, q: nat)
    requires Sane(s) && QueuesOk(s) && s.cur < |s.tasks|
    requires Current(s).call.SendCall? || Current(s).call.ReceiveCall?
    requires !Current(s).state.Blocked? && q == Current(s).call.queue
    ensures QueuesOkBut(Returned(s), q,
                        if QueuePhaseOf(Current(s)) == HoldsSlot(q) then 1 else 0,
                        if QueuePhaseOf(Current(s)) == HoldsItem(q) then 1 else 0)
  {
    hide Balanced, TasksOk;
    var s' := Returned(s);
    var p := QueuePhaseOf(Current(s));
    forall k | 0 <= k < |s.queues|
      ensures Balanced(s'.tasks, s'.queues[k], k,
                       if k == q && p == HoldsSlot(q) then 1 else 0, if k == q && p == HoldsItem(q) then 1 else 0)
    {
      assert Balanced(s.tasks, s.queues[k], k, 0, 0);
      if k != q {
        BalancedFrame(s.tasks, s'.tasks, s.queues[k], k, 0, 0);
      } else {
        ReturnTally(s.tasks, s.cur, s.queues[q], q);
      }
    }
  }

  lemma ReturnTally(ts: seq<Task>, i: nat, u: Queue, q: nat)
    requires Balanced(ts, u, q, 0, 0) && i < |ts| && !ts[i].state.Blocked?
    ensures Balanced(ts[i := ts[i].(call := NoCall)], u, q,
                     if QueuePhaseOf(ts[i]) == HoldsSlot(q) then 1 else 0,
                     if QueuePhaseOf(ts[i]) == HoldsItem(q) then 1 else 0)
  {
    hide Ring, HasRoom, HasItem;
    var t := ts[i].(call := NoCall);
    Moved(ts, i, t, HoldsSlot(q));
    Moved(ts, i, t, HoldsItem(q));
    Moved(ts, i, t, WantsSlot(q));
    Moved(ts, i, t, WantsItem(q));
  }

  /** A woken sender or receiver finishes its call in the second pass: it never blocks again. */
  lemma GrantedCallFinishes(s: State)
    requires Sane(s) && QueuesOk(s) && Executing(s)
    ensures QueuePhaseOf(Current(s)).HoldsSlot? ==> Continue(s).1 == Status(true)
    ensures QueuePhaseOf(Current(s)).HoldsItem? ==> Continue(s).1.Item?
    ensures QueuePhaseOf(Current(s)).TimedOutOf? ==> Continue(s).1 == Status(false)
  {
    var back := Returned(s);
    match Current(s).call
    case SendCall(q, item, timeout, d) =>
      ReturnedSane(s);
      ReturnedBalance(s, q);
      if Current(s).waitResult {
        SendPassKeepsQueues(back, q, item, timeout, d, true);
      }
    case ReceiveCall(q, timeout, d) =>
      ReturnedSane(s);
      ReturnedBalance(s, q);
      if Current(s).waitResult {
        ReceivePassKeepsQueues(back, q, timeout, d, true);
      }
    case _ =>
  }

  /** The items a step puts into queue q, and those it takes out. */
  function Accepted(s: State, step: Step, q: nat): seq<seq<Byte>>
    requires Wf(s) && Legal(s, step)
  {
    var ok := Next(s, step).1 == Status(true);
    match step
    case SendStep(k, item, _, _) => if k == q && ok then [item] else []
    case SendFromIsrStep(k, item) => if k == q && ok then [item] else []
    case ContinueStep =>
      if Current(s).call.SendCall? && Current(s).call.queue == q && ok then [Current(s).call.item] else []
    case _ => []
  }

  function Received(s: State, step: Step, q: nat): seq<seq<Byte>>
    requires Wf(s) && Legal(s, step)
  {
    var out := Next(s, step).1;
    match step
    case ReceiveStep(k, _, _) => if k == q && out.Item? then [out.item] else []
    case ContinueStep =>
      if Current(s).call.ReceiveCall? && Current(s).call.queue == q && out.Item? then [out.item] else []
    case _ => []
  }

  /** What a step does to the queues: the balance is kept and items are neither lost, duplicated nor reordered. */
  ghost predicate QueueStepOk(s: State, step: Step)
    requires Wf(s) && Legal(s, step)
  {
    var s' := Next(s, step).0;
    && |s'.queues| == |s.queues|
    && QueuesOk(s')
    && (s.started ==> forall q | 0 <= q < |s.queues| ::
          Ring(s.queues[q]) && Ring(s'.queues[q])
          && Items(s, q) + Accepted(s, step, q) == Received(s, step, q) + Items(s', q))
  }

  lemma SendStepQueues(s: State, q: nat, item: seq<Byte>, entered: nat, timeout: Word)
    requires Sane(s) && QueuesOk(s) && Legal(s, SendStep(q, item, entered, timeout))
    ensures QueueStepOk(s, SendStep(q, item, entered, timeout))
  {
    hide Next, SendPass, Contents, Ring;
    NextSend(s, q, item, entered, timeout);
    SendPassKeepsQueues(s, q, item, timeout, MakeDeadline(Wrap(entered), timeout), false);
  }

  lemma ReceiveStepQueues(s: State, q: nat, entered: nat, timeout: Word)
    requires Sane(s) && QueuesOk(s) && Legal(s, ReceiveStep(q, entered, timeout))
    ensures QueueStepOk(s, ReceiveStep(q, entered, timeout))
  {
    hide Next, ReceivePass, Contents, Ring;
    NextReceive(s, q, entered, timeout);
    ReceivePassKeepsQueues(s, q, timeout, MakeDeadline(Wrap(entered), timeout), false);
  }

  lemma IsrStepQueues(s: State, q: nat, item: seq<Byte>)
    requires Sane(s) && QueuesOk(s) && Legal(s, SendFromIsrStep(q, item))
    ensures QueueStepOk(s, SendFromIsrStep(q, item))
  {
    hide Next, Deliver, Contents, Ring;
    NextSendFromIsr(s, q, item);
    RingsOf(s);
    if HasRoom(s.queues[q]) {
      DeliverKeepsQueues(s, q, item, false);
    }
  }

  /** A queue call that returns, seen as a pass on the queue from the state with its frame popped. */
  lemma ContinueIsPass(s: State)
    requires Wf(s) && Legal(s, ContinueStep) && (Current(s).call.SendCall? || Current(s).call.ReceiveCall?)
    requires Wf(Returned(s))
    ensures
      var (t, c, back) := (Current(s), Current(s).call, Returned(s));
      Next(s, ContinueStep)
      == if !t.waitResult then (back, Status(false))
         else if c.SendCall? then SendPass(back, c.queue, c.item, c.timeout, c.deadline, true)
         else ReceivePass(back, c.queue, c.timeout, c.deadline, true)
  {
    hide Next, SendPass, ReceivePass;
    NextContinue(s);
  }

  lemma ButNothing(s: State, q: nat)
    requires QueuesOkBut(s, q, 0, 0)
    ensures QueuesOk(s)
  {
    forall k | 0 <= k < |s.queues| ensures Balanced(s.tasks, s.queues[k], k, 0, 0) {
      assert Balanced(s.tasks, s.queues[k], k, if k == q then 0 else 0, if k == q then 0 else 0);
    }
  }

  lemma ReturnedContext(s: State)
    requires Sane(s) && Legal(s, ContinueStep)
    ensures AppContext(Returned(s)) && CallInRange(s, Current(s).call)
  {
    assert TaskOk(s, s.cur, Current(s));
  }

  lemma ContinueSendQueues(s: State)
    requires Sane(s) && QueuesOk(s) && Legal(s, ContinueStep) && Current(s).call.SendCall?
    ensures QueueStepOk(s, ContinueStep)
  {
    hide Next, SendPass, TasksOk, Contents, Ring, Balanced;
    var c := Current(s).call;
    ReturnedSane(s);
    ReturnedBalance(s, c.queue);
    ReturnedContext(s);
    ContinueIsPass(s);
    RingsOf(s);
    if Current(s).waitResult {
      SendPassKeepsQueues(Returned(s), c.queue, c.item, c.timeout, c.deadline, true);
    } else {
      ButNothing(Returned(s), c.queue);
    }
  }

  lemma RingsOf(s: State)
    requires QueuesOk(s)
    ensures forall q | 0 <= q < |s.queues| :: Ring(s.queues[q])
  {
    forall q | 0 <= q < |s.queues| ensures Ring(s.queues[q]) {
      assert Balanced(s.tasks, s.queues[q], q, 0, 0);
    }
  }

  lemma ContinueReceiveQueues(s: State)
    requires Sane(s) && QueuesOk(s) && Legal(s, ContinueStep) && Current(s).call.ReceiveCall?
    ensures QueueStepOk(s, ContinueStep)
  {
    hide Next, ReceivePass, TasksOk, Contents, Ring, Balanced;
    var c := Current(s).call;
    ReturnedSane(s);
    ReturnedBalance(s, c.queue);
    ReturnedContext(s);
    ContinueIsPass(s);
    RingsOf(s);
    if Current(s).waitResult {
      ReceivePassKeepsQueues(Returned(s), c.queue, c.timeout, c.deadline, true);
    } else {
      ButNothing(Returned(s), c.queue);
    }
  }

  lemma CreateQueueOk(s: State, q: nat, storage: seq<Byte>, capacity: Word, itemSize: Word)
    requires Sane(s) && QueuesOk(s) && Legal(s, CreateQueueStep(q, storage, capacity, itemSize))
    ensures QueueStepOk(s, CreateQueueStep(q, storage, capacity, itemSize))
  {
    forall i | 0 <= i < |s.tasks| ensures QueuePhaseOf(s.tasks[i]) == Elsewhere {
      assert TaskOk(s, i, s.tasks[i]);
    }
    TallyNone(s.tasks, HoldsSlot(q), |s.tasks|);
    TallyNone(s.tasks, HoldsItem(q), |s.tasks|);
    if capacity > 0 {
      ModBelow(0, capacity);
    }
  }

  lemma {:induction false} TallyNone(ts: seq<Task>, p: QueuePhase, k: nat)
    requires k <= |ts| && forall i | 0 <= i < k :: QueuePhaseOf(ts[i]) != p
    ensures Tally(ts, p, k) == 0
  {
    if k > 0 {
      TallyNone(ts, p, k - 1);
    }
  }

  lemma PhasesKeepQueues(s: State, s': State)
    requires QueuesOk(s) && s'.queues == s.queues && |s'.tasks| == |s.tasks|
    requires forall i | 0 <= i < |s.tasks| ::
               QueuePhaseOf(s'.tasks[i]) == QueuePhaseOf(s.tasks[i])
               || (QueuePhaseOf(s'.tasks[i]).TimedOutOf?
                  && (QueuePhaseOf(s.tasks[i]).WantsSlot? || QueuePhaseOf(s.tasks[i]).WantsItem?))
    ensures QueuesOk(s')
  {
    forall q | 0 <= q < |s.queues| ensures Balanced(s'.tasks, s'.queues[q], q, 0, 0) {
      assert Balanced(s.tasks, s.queues[q], q, 0, 0);
      BalancedFrame(s.tasks, s'.tasks, s.queues[q], q, 0, 0);
    }
  }

  lemma RestPhase(t: Task, t': Task)
    requires Rest(t) == Rest(t')
    ensures QueuePhaseOf(t) == QueuePhaseOf(t')
  {
    assert t' == t.(priority := t'.priority);
  }

  lemma TickPhase(s: State, i: nat)
    requires Sane(s) && i < |s.tasks|
    ensures
      var a, b := QueuePhaseOf(s.tasks[i]), QueuePhaseOf(Tick(s).tasks[i]);
      b == a || (b.TimedOutOf? && (a.WantsSlot? || a.WantsItem?))
  {
    var t, t' := s.tasks[i], Tick(s).tasks[i];
    TickAt(s, i);
    assert TaskOk(s, i, t);
    if Rest(t') == Rest(TickOne(t, Wrap(s.ticks + 1))) {
      RestPhase(t', TickOne(t, Wrap(s.ticks + 1)));
    } else {
      RestPhase(t', WaitEnd(t, true));
    }
  }

  lemma TickKeepsQueues(s: State)
    requires Sane(s) && QueuesOk(s)
    ensures QueuesOk(Tick(s))
  {
    forall i | 0 <= i < |s.tasks|
      ensures QueuePhaseOf(Tick(s).tasks[i]) == QueuePhaseOf(s.tasks[i])
              || (QueuePhaseOf(Tick(s).tasks[i]).TimedOutOf?
                  && (QueuePhaseOf(s.tasks[i]).WantsSlot? || QueuePhaseOf(s.tasks[i]).WantsItem?))
    {
      TickPhase(s, i);
    }
    PhasesKeepQueues(s, Tick(s));
  }

  lemma OtherProtocolPhase(p: Protocol, t: Task, t': Task)
    requires Keeps(p, t, t') && p != QueueProtocol
    ensures QueuePhaseOf(t') == QueuePhaseOf(t)
  {}

  lemma OtherStepProtocol(s: State, step: Step)
    requires s.cur < |s.tasks| && !IsQueueStep(s, step)
    ensures StepProtocol(s, step) != QueueProtocol
  {}

  lemma OtherStepQueues(s: State, step: Step)
    requires Sane(s) && QueuesOk(s) && Legal(s, step) && !IsQueueStep(s, step) && !step.TickStep?
    requires forall i | 0 <= i < |s.tasks| :: s.tasks[i].priority >= 0
    ensures QueuesOk(Next(s, step).0)
  {
    hide Next;
    StepFrame(s, step);
    StepKeeps(s, step);
    OtherStepProtocol(s, step);
    var s' := Next(s, step).0;
    forall i | 0 <= i < |s.tasks| ensures QueuePhaseOf(s'.tasks[i]) == QueuePhaseOf(s.tasks[i]) {
      OtherProtocolPhase(StepProtocol(s, step), s.tasks[i], s'.tasks[i]);
    }
    PhasesKeepQueues(s, s');
  }

  /** Another step neither puts items into a queue nor takes any out. */
  lemma NothingMoved(s: State, step: Step)
    requires Wf(s) && QueuesOk(s) && Legal(s, step) && !IsQueueStep(s, step) && QueuesOk(Next(s, step).0)
    ensures QueueStepOk(s, step)
  {
    hide Next, Contents, Ring, Accepted, Received, QueuesOk;
    StepFrame(s, step);
    RingsOf(s);
    forall q | 0 <= q < |s.queues|
      ensures Items(s, q) + Accepted(s, step, q) == Received(s, step, q) + Items(s, q)
    {
      NoTransfer(s, step, q);
      assert Items(s, q) + [] == Items(s, q) == [] + Items(s, q);
    }
  }

  lemma NoTransfer(s: State, step: Step, q: nat)
    requires Wf(s) && Legal(s, step) && !IsQueueStep(s, step)
    ensures Accepted(s, step, q) == [] && Received(s, step, q) == []
  {
    hide Next;
  }

  lemma StepKeepsQueues(s: State, step: Step)
    requires Sane(s) && QueuesOk(s) && Legal(s, step) && forall i | 0 <= i < |s.tasks| :: s.tasks[i].priority >= 0
    ensures QueueStepOk(s, step)
  {
    hide Next, QueueStepOk, QueuesOk, TasksOk, Tick;
    if !IsQueueStep(s, step) {
      if step.TickStep? {
        NextTick(s);
        TickKeepsQueues(s);
      } else {
        OtherStepQueues(s, step);
      }
      NothingMoved(s, step);
    } else if step.SendStep? {
      SendStepQueues(s, step.q, step.item, step.entered, step.timeout);
    } else if step.ReceiveStep? {
      ReceiveStepQueues(s, step.q, step.entered, step.timeout);
    } else if step.SendFromIsrStep? {
      IsrStepQueues(s, step.q, step.item);
    } else if step.CreateQueueStep? {
      CreateQueueOk(s, step.q, step.storage, step.capacity, step.itemSize);
    } else if Current(s).call.SendCall? {
      ContinueSendQueues(s);
    } else {
      ContinueReceiveQueues(s);
    }
  }
}
