/** The bounded queue over runs: nothing is lost, duplicated or reordered, and no granted call fails. */
module QueueRuns {
  import opened Types
  import opened Machine
  import opened MutexInvariant
  import opened QueueInvariant
  import opened Runs
  import opened Calls
  import opened QueueCalls

  /** A step puts an item into queue q exactly if it is a send that finds unclaimed room, or one whose wait was
      granted. */
  lemma AcceptedExactly(s: State, step: Step, q: nat)
    requires Inv(s) && s.started && Legal(s, step) && q < |s.queues|
    ensures Ring(s.queues[q])
    ensures
      var c := Current(s).call;
      Accepted(s, step, q)
      == if (step.SendStep? || step.SendFromIsrStep?) && step.q == q && Room(s, q) then [step.item]
         else if step.ContinueStep? && c.SendCall? && c.queue == q && Current(s).waitResult then [c.item]
         else []
  {
    hide Next, Inv, Ring, Room, TimeLeft, Stores;
    InvQueue(s, q);
    if step.SendStep? {
      SendOutcome(s, step.q, step.item, step.entered, step.timeout);
    } else if step.SendFromIsrStep? {
      SendFromIsrOutcome(s, step.q, step.item);
    } else if step.ContinueStep? && Current(s).call.SendCall? {
      SendReturn(s);
    }
  }

  /** A step takes an item out of queue q exactly if it is a receive that finds an unclaimed one, or one whose wait was
      granted; it is the oldest. */
  lemma ReceivedExactly(s: State, step: Step, q: nat)
    requires Inv(s) && s.started && Legal(s, step) && q < |s.queues|
    ensures Ring(s.queues[q]) && Received(s, step, q) <= Items(s, q)
    ensures
      var c := Current(s).call;
      |Received(s, step, q)|
      == if step.ReceiveStep? && step.q == q && Stocked(s, q) then 1
         else if step.ContinueStep? && c.ReceiveCall? && c.queue == q && Current(s).waitResult then 1
         else 0
  {
    hide Next, Inv, Ring, Stocked, Items, Received;
    InvQueue(s, q);
    if step.ReceiveStep? {
      ReceivedAtOnce(s, step.q, step.entered, step.timeout, q);
    } else if step.ContinueStep? && Current(s).call.ReceiveCall? {
      ReceivedLater(s, q);
    } else {
      ReceivedNothing(s, step, q);
    }
  }

  lemma ReceivedNothing(s: State, step: Step, q: nat)
    requires Wf(s) && Legal(s, step) && !step.ReceiveStep? && !(step.ContinueStep? && Current(s).call.ReceiveCall?)
    ensures Received(s, step, q) == []
  {
    hide Next;
  }

  lemma ReceivedAtOnce(s: State, k: nat, entered: nat, timeout: Word, q: nat)
    requires Inv(s) && Legal(s, ReceiveStep(k, entered, timeout)) && q < |s.queues| && Ring(s.queues[q])
    ensures
      var r := Received(s, ReceiveStep(k, entered, timeout), q);
      r <= Items(s, q) && |r| == if k == q && Stocked(s, q) then 1 else 0
  {
    hide Next, Inv, Ring, Stocked, Items, TimeLeft;
    ReceiveOutcome(s, k, entered, timeout);
  }

  lemma ReceivedLater(s: State, q: nat)
    requires Inv(s) && Legal(s, ContinueStep) && Current(s).call.ReceiveCall? && q < |s.queues| && Ring(s.queues[q])
    ensures
      var r := Received(s, ContinueStep, q);
      r <= Items(s, q) && |r| == if Current(s).call.queue == q && Current(s).waitResult then 1 else 0
  {
    hide Next, Inv, Ring, Contents;
    ReceiveReturn(s);
  }

  /** Everything the run puts into queue q, in order. */
  ghost function AllAccepted(s: State, steps: seq<Step>, q: nat): seq<seq<Byte>>
    requires LegalRun(s, steps)
    decreases |steps|
  {
    if steps == [] then [] else Accepted(s, steps[0], q) + AllAccepted(Next(s, steps[0]).0, steps[1..], q)
  }

  /** Everything the run takes out of queue q, in order. */
  ghost function AllReceived(s: State, steps: seq<Step>, q: nat): seq<seq<Byte>>
    requires LegalRun(s, steps)
    decreases |steps|
  {
    if steps == [] then [] else Received(s, steps[0], q) + AllReceived(Next(s, steps[0]).0, steps[1..], q)
  }

  lemma StartedStays(s: State, step: Step)
    requires Inv(s) && s.started && Legal(s, step)
    ensures Next(s, step).0.started && |Next(s, step).0.queues| == |s.queues|
  {
    NonNegative(s);
    StepFrame(s, step);
    StepKeepsQueues(s, step);
  }

  lemma RingAt(s: State, q: nat)
    requires QueuesOk(s) && q < |s.queues|
    ensures Ring(s.queues[q])
  {
    assert Balanced(s.tasks, s.queues[q], q, 0, 0);
  }

  lemma StepFifo(s: State, step: Step, q: nat)
    requires Inv(s) && s.started && Legal(s, step) && q < |s.queues|
    ensures
      var s' := Next(s, step).0;
      && |s'.queues| == |s.queues| && Ring(s.queues[q]) && Ring(s'.queues[q])
      && Items(s, q) + Accepted(s, step, q) == Received(s, step, q) + Items(s', q)
  {
    NonNegative(s);
    StepKeepsQueues(s, step);
  }

  lemma InvQueues(s: State)
    requires Inv(s)
    ensures QueuesOk(s) && Wf(s)
  {}

  /** Reassociation of the two histories around one step. */
  lemma Splice(a: seq<seq<Byte>>, b: seq<seq<Byte>>, c: seq<seq<Byte>>, d: seq<seq<Byte>>,
               e: seq<seq<Byte>>, f: seq<seq<Byte>>, g: seq<seq<Byte>>)
    requires a + b == c + d && d + e == f + g
    ensures a + (b + e) == (c + f) + g
  {
    assert a + (b + e) == (a + b) + e == c + (d + e);
  }

  /** First in, first out: what was in the queue followed by what the run accepts is what the run
      delivers followed by what is in the queue afterwards. */
  lemma {:induction false} RunFifo(s: State, steps: seq<Step>, q: nat)
    requires Inv(s) && s.started && LegalRun(s, steps) && q < |s.queues|
    ensures
      var s' := Run(s, steps);
      && |s'.queues| == |s.queues| && Ring(s.queues[q]) && Ring(s'.queues[q])
      && Items(s, q) + AllAccepted(s, steps, q) == AllReceived(s, steps, q) + Items(s', q)
    decreases |steps|
  {
    hide Next, Inv, Ring, Accepted, Received, Items;
    InvQueues(s);
    RingAt(s, q);
    if steps != [] {
      var s1 := Next(s, steps[0]).0;
      StepKeepsInv(s, steps[0]);
      StartedStays(s, steps[0]);
      StepFifo(s, steps[0], q);
      RunFifo(s1, steps[1..], q);
      Splice(Items(s, q), Accepted(s, steps[0], q), Received(s, steps[0], q), Items(s1, q),
             AllAccepted(s1, steps[1..], q), AllReceived(s1, steps[1..], q), Items(Run(s1, steps[1..]), q));
    }
  }

  /** From an empty queue on, the received history is a prefix of the accepted one, and the rest is in the queue. */
  lemma ReceivedIsPrefix(s: State, steps: seq<Step>, q: nat)
    requires Inv(s) && s.started && LegalRun(s, steps) && q < |s.queues| && s.queues[q].count == 0
    ensures
      && AllReceived(s, steps, q) <= AllAccepted(s, steps, q)
      && q < |Run(s, steps).queues| && Ring(Run(s, steps).queues[q])
      && Items(Run(s, steps), q) == AllAccepted(s, steps, q)[|AllReceived(s, steps, q)|..]
  {
    RunFifo(s, steps, q);
    assert Items(s, q) == [];
    assert [] + AllAccepted(s, steps, q) == AllAccepted(s, steps, q);
  }

  /** Reservations on every run: each is one granted call still to finish, they fit, and nobody sleeps on
      room or on an item that no granted call has a claim to. */
  lemma ReservationsOnRuns(priorities: seq<Word>, servicePriority: Word, pools: Pools, steps: seq<Step>, q: nat)
    requires 1 <= |priorities| < NO_OWNER - 2
    requires LegalRun(Boot(priorities, servicePriority, pools), steps)
    requires q < |Run(Boot(priorities, servicePriority, pools), steps).queues|
    ensures
      var s := Run(Boot(priorities, servicePriority, pools), steps);
      var u := s.queues[q];
      && u.count + u.sendReservations <= u.capacity
      && u.receiveReservations <= u.count
      && u.sendReservations == Tally(s.tasks, HoldsSlot(q), |s.tasks|)
      && u.receiveReservations == Tally(s.tasks, HoldsItem(q), |s.tasks|)
      && (Usable(u) ==> forall i | 0 <= i < |s.tasks| ::
            && (QueuePhaseOf(s.tasks[i]) == WantsItem(q) ==> u.count == u.receiveReservations)
            && (QueuePhaseOf(s.tasks[i]) == WantsSlot(q) ==> u.count + u.sendReservations == u.capacity))
  {
    BootInv(priorities, servicePriority, pools);
    RunKeepsInv(Boot(priorities, servicePriority, pools), steps);
    var s := Run(Boot(priorities, servicePriority, pools), steps);
    assert Balanced(s.tasks, s.queues[q], q, 0, 0);
  }

  /** A call that was woken with a reservation succeeds on its second pass, on every run. */
  lemma GrantedCallsFinishOnRuns(priorities: seq<Word>, servicePriority: Word, pools: Pools, steps: seq<Step>)
    requires 1 <= |priorities| < NO_OWNER - 2
    requires LegalRun(Boot(priorities, servicePriority, pools), steps)
    requires
      var s := Run(Boot(priorities, servicePriority, pools), steps);
      s.cur < |s.tasks| && Legal(s, ContinueStep) && (Current(s).call.SendCall? || Current(s).call.ReceiveCall?)
    ensures
      var s := Run(Boot(priorities, servicePriority, pools), steps);
      && Wf(s)
      && (Current(s).call.SendCall? ==> Continue(s).1 == Status(Current(s).waitResult))
      && (Current(s).call.ReceiveCall? ==> if Current(s).waitResult then Continue(s).1.Item?
         else Continue(s).1 == Status(false))
  {
    BootInv(priorities, servicePriority, pools);
    RunKeepsInv(Boot(priorities, servicePriority, pools), steps);
    GrantedCallFinishes(Run(Boot(priorities, servicePriority, pools), steps));
  }
}
