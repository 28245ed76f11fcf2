/** What the queue calls promise their callers, in terms of the items in the queue, of granted calls and of time. */
module QueueCalls {
  import opened Types
  import opened TaskTable
  import opened Machine
  import opened WaitInvariant
  import opened QueueInvariant
  import opened Runs
  import opened Calls

  /** Room for an item that no granted send has a claim to. */
  ghost predicate Room(s: State, q: nat)
    requires q < |s.queues| && Ring(s.queues[q])
  {
    Usable(s.queues[q]) && |Items(s, q)| + Tally(s.tasks, HoldsSlot(q), |s.tasks|) < s.queues[q].capacity
  }

  /** An item that no granted receive has a claim to. */
  ghost predicate Stocked(s: State, q: nat)
    requires q < |s.queues| && Ring(s.queues[q])
  {
    Usable(s.queues[q]) && |Items(s, q)| > Tally(s.tasks, HoldsItem(q), |s.tasks|)
  }

  /** Queue q keeps its size and every other queue keeps everything. */
  ghost predicate OnlyQueue(s: State, s': State, q: nat)
    requires q < |s.queues|
  {
    && OnlyQueues(s, s') && |s'.queues| == |s.queues|
    && s'.queues[q].capacity == s.queues[q].capacity && s'.queues[q].itemSize == s.queues[q].itemSize
    && forall k | 0 <= k < |s.queues| && k != q :: s'.queues[k] == s.queues[k]
  }

  /** The item goes to the end of the queue and the best receiver that waits is woken. */
  ghost predicate Stores(s: State, s': State, q: nat, item: seq<Byte>)
    requires q < |s.queues| && Ring(s.queues[q])
  {
    && OnlyQueue(s, s', q) && Ring(s'.queues[q])
    && Items(s', q) == Items(s, q) + [item]
    && WakesBest(s.tasks, s'.tasks, QueueRef(q), ReceiveWait)
  }

  /** The item leaves the front of the queue and the best sender that waits is woken. */
  ghost predicate HandsOut(s: State, s': State, q: nat, item: seq<Byte>)
    requires q < |s.queues| && Ring(s.queues[q])
  {
    && OnlyQueue(s, s', q) && Ring(s'.queues[q])
    && Items(s, q) == [item] + Items(s', q)
    && WakesBest(s.tasks, s'.tasks, QueueRef(q), SendWait)
  }

  lemma RoomIff(s: State, q: nat)
    requires q < |s.queues| && Balanced(s.tasks, s.queues[q], q, 0, 0)
    ensures Room(s, q) <==> HasRoom(s.queues[q])
    ensures Stocked(s, q) <==> HasItem(s.queues[q])
  {}

  lemma BalancedAt(s: State, q: nat)
    requires QueuesOk(s) && q < |s.queues|
    ensures Balanced(s.tasks, s.queues[q], q, 0, 0) && Ring(s.queues[q])
  {}

  lemma DeliverStores(s: State, q: nat, item: seq<Byte>, reserved: bool)
    requires Sane(s) && q < |s.queues| && Usable(s.queues[q]) && |item| == s.queues[q].itemSize
    requires QueuesOkBut(s, q, if reserved then 1 else 0, 0)
    requires reserved || HasRoom(s.queues[q])
    ensures Ring(s.queues[q]) && Stores(s, Deliver(s, q, item, reserved), q, item)
  {
    hide Wake, Put, WakesBest, TasksOk, Balanced, Items, Ring, QueuesOk;
    DeliverKeepsQueues(s, q, item, reserved);
    WakeIsBest(s.tasks, QueueRef(q), ReceiveWait);
  }

  lemma ExtractHandsOut(s: State, q: nat, reserved: bool)
    requires Sane(s) && q < |s.queues| && Usable(s.queues[q])
    requires QueuesOkBut(s, q, 0, if reserved then 1 else 0)
    requires reserved || HasItem(s.queues[q])
    ensures
      && Ring(s.queues[q])
      && HandsOut(s, Extract(s, q, reserved), q, Slot(s.queues[q], s.queues[q].tail))
  {
    hide Wake, Drop, WakesBest, TasksOk, Balanced, Items, Ring, QueuesOk, Slot;
    ExtractKeepsQueues(s, q, reserved);
    WakeIsBest(s.tasks, QueueRef(q), SendWait);
  }

  lemma NothingHeld(s: State, q: nat)
    requires QueuesOk(s)
    ensures QueuesOkBut(s, q, 0, 0)
  {}

  // ---- the first pass ----

  /** A send stores its item at once if and only if there is unclaimed room; otherwise it waits if and only if it has
      time left, and fails without a trace if not. */
  lemma SendOutcome(s: State, q: nat, item: seq<Byte>, entered: nat, timeout: Word)
    requires Inv(s) && Legal(s, SendStep(q, item, entered, timeout))
    ensures Ring(s.queues[q])
    ensures
      var (s', out) := Next(s, SendStep(q, item, entered, timeout));
      var call := SendCall(q, item, timeout, MakeDeadline(Wrap(entered), timeout));
      if Room(s, q) then out == Status(true) && Stores(s, s', q, item)
      else if TimeLeft(s, entered, timeout) then out == Pending && OnlyWaits(s, s', call, entered, timeout)
      else out == Status(false) && s' == s
  {
    hide Next, Inv, Deliver, Stores, OnlyWaits, BlockUntil, Wrap, MakeDeadline, Room, HasRoom, Ring, TimeLeft;
    InvQueue(s, q);
    NextSend(s, q, item, entered, timeout);
    if Room(s, q) {
      DeliverStores(s, q, item, false);
    } else {
      NoTime(s, entered);
      if timeout != 0 {
        var call := SendCall(q, item, timeout, MakeDeadline(Wrap(entered), timeout));
        BlockUntilWaits(s, QueueRef(q), SendWait, call, entered, timeout);
      }
    }
  }

  lemma NoTime(s: State, entered: nat)
    requires entered <= s.ticks
    ensures !TimeLeft(s, entered, 0)
  {}

  lemma InvQueue(s: State, q: nat)
    requires Inv(s) && q < |s.queues|
    ensures Sane(s) && Ring(s.queues[q]) && QueuesOkBut(s, q, 0, 0)
    ensures Room(s, q) <==> HasRoom(s.queues[q])
    ensures Stocked(s, q) <==> HasItem(s.queues[q])
    ensures (Room(s, q) ==> Usable(s.queues[q])) && (Stocked(s, q) ==> Usable(s.queues[q]))
  {
    BalancedAt(s, q);
    RoomIff(s, q);
    NothingHeld(s, q);
  }

  /** A receive takes the oldest item at once if and only if there is an unclaimed one; otherwise it waits if and only
      if it has time left, and fails without a trace if not. */
  lemma ReceiveOutcome(s: State, q: nat, entered: nat, timeout: Word)
    requires Inv(s) && Legal(s, ReceiveStep(q, entered, timeout))
    ensures Ring(s.queues[q])
    ensures
      var (s', out) := Next(s, ReceiveStep(q, entered, timeout));
      var call := ReceiveCall(q, timeout, MakeDeadline(Wrap(entered), timeout));
      if Stocked(s, q) then out.Item? && HandsOut(s, s', q, out.item)
      else if TimeLeft(s, entered, timeout) then out == Pending && OnlyWaits(s, s', call, entered, timeout)
      else out == Status(false) && s' == s
  {
    hide Next, Inv, Extract, HandsOut, OnlyWaits, BlockUntil, Wrap, MakeDeadline, Stocked, HasItem, Ring, TimeLeft,
      Slot;
    InvQueue(s, q);
    NextReceive(s, q, entered, timeout);
    if Stocked(s, q) {
      ExtractHandsOut(s, q, false);
    } else {
      NoTime(s, entered);
      if timeout != 0 {
        var call := ReceiveCall(q, timeout, MakeDeadline(Wrap(entered), timeout));
        BlockUntilWaits(s, QueueRef(q), ReceiveWait, call, entered, timeout);
      }
    }
  }

  /** An interrupt handler's send stores its item if and only if there is unclaimed room. */
  lemma SendFromIsrOutcome(s: State, q: nat, item: seq<Byte>)
    requires Inv(s) && Legal(s, SendFromIsrStep(q, item))
    ensures Ring(s.queues[q])
    ensures
      var (s', out) := Next(s, SendFromIsrStep(q, item));
      if Room(s, q) then out == Status(true) && Stores(s, s', q, item) else out == Status(false) && s' == s
  {
    hide Next, Inv, Deliver, Stores, Room, HasRoom, Ring;
    InvQueue(s, q);
    NextSendFromIsr(s, q, item);
    if Room(s, q) {
      DeliverStores(s, q, item, false);
    }
  }

  // ---- the second pass ----

  /** A send that waited stores its item exactly if its wait was granted. */
  lemma SendReturn(s: State)
    requires Inv(s) && Legal(s, ContinueStep) && Current(s).call.SendCall?
    ensures
      var ((s', out), c) := (Next(s, ContinueStep), Current(s).call);
      && c.queue < |s.queues| && Ring(s.queues[c.queue])
      && if Current(s).waitResult then out == Status(true) && Stores(Returned(s), s', c.queue, c.item)
         else out == Status(false) && s' == Returned(s)
  {
    hide Next, SendPass, Deliver, Stores, Ring, Balanced, TasksOk;
    var c := Current(s).call;
    ReturnedSane(s);
    ReturnedBalance(s, c.queue);
    ReturnedContext(s);
    BalancedAt(s, c.queue);
    ContinueIsPass(s);
    if Current(s).waitResult {
      GrantedUsable(s, c.queue);
      DeliverStores(Returned(s), c.queue, c.item, true);
      ReservedSend(Returned(s), c);
    }
  }

  lemma ReservedSend(s: State, c: Call)
    requires Wf(s) && c.SendCall? && CallInRange(s, c) && Usable(s.queues[c.queue])
    ensures SendPass(s, c.queue, c.item, c.timeout, c.deadline, true)
         == (Deliver(s, c.queue, c.item, true), Status(true))
  {
    hide Deliver;
  }

  lemma ReservedReceive(s: State, c: Call)
    requires Wf(s) && c.ReceiveCall? && CallInRange(s, c) && Usable(s.queues[c.queue])
    ensures
      var u := s.queues[c.queue];
      ReceivePass(s, c.queue, c.timeout, c.deadline, true) == (Extract(s, c.queue, true), Item(Slot(u, u.tail)))
  {
    hide Extract;
  }

  /** A queue that granted a call is usable. */
  lemma GrantedUsable(s: State, q: nat)
    requires QueuesOk(s) && s.cur < |s.tasks| && q < |s.queues|
    requires QueuePhaseOf(Current(s)) == HoldsSlot(q) || QueuePhaseOf(Current(s)) == HoldsItem(q)
    ensures Usable(s.queues[q])
  {
    BalancedAt(s, q);
    TallyAt(s.tasks, QueuePhaseOf(Current(s)), s.cur, |s.tasks|);
  }

  lemma {:induction false} TallyAt(ts: seq<Task>, p: QueuePhase, i: nat, k: nat)
    requires i < k <= |ts| && QueuePhaseOf(ts[i]) == p
    ensures Tally(ts, p, k) > 0
    decreases k
  {
    if i < k - 1 {
      TallyAt(ts, p, i, k - 1);
    }
  }

  /** A receive that waited takes the oldest item exactly if its wait was granted. */
  lemma ReceiveReturn(s: State)
    requires Inv(s) && Legal(s, ContinueStep) && Current(s).call.ReceiveCall?
    ensures
      var ((s', out), c) := (Next(s, ContinueStep), Current(s).call);
      && c.queue < |s.queues| && Ring(s.queues[c.queue])
      && if Current(s).waitResult then out.Item? && HandsOut(Returned(s), s', c.queue, out.item)
         else out == Status(false) && s' == Returned(s)
  {
    hide Next, ReceivePass, Extract, HandsOut, Ring, Balanced, TasksOk, Slot;
    var c := Current(s).call;
    ReturnedSane(s);
    ReturnedBalance(s, c.queue);
    ReturnedContext(s);
    BalancedAt(s, c.queue);
    ContinueIsPass(s);
    if Current(s).waitResult {
      GrantedUsable(s, c.queue);
      ExtractHandsOut(Returned(s), c.queue, true);
      ReservedReceive(Returned(s), c);
    }
  }

  // ---- creation ----

  /** A created queue is empty and has the given size; no other queue and no task entry changes. */
  lemma CreateMakesEmpty(s: State, q: nat, storage: seq<Byte>, capacity: Word, itemSize: Word)
    requires Inv(s) && Legal(s, CreateQueueStep(q, storage, capacity, itemSize))
    ensures
      var s' := Next(s, CreateQueueStep(q, storage, capacity, itemSize)).0;
      && |s'.queues| == |s.queues| && Ring(s'.queues[q]) && Items(s', q) == []
      && s'.queues[q].capacity == capacity && s'.queues[q].itemSize == itemSize && s'.queues[q].storage == storage
      && s'.queues[q].sendReservations == s'.queues[q].receiveReservations == 0
      && (forall k | 0 <= k < |s.queues| && k != q :: s'.queues[k] == s.queues[k])
      && s'.tasks == s.tasks
  {
    CreateQueueOk(s, q, storage, capacity, itemSize);
  }
}
