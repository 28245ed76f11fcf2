/** What the semaphore, event-group and notification calls promise their callers. */
module SignalCalls {
  import opened Types
  import opened TaskTable
  import opened Machine
  import opened WaitInvariant
  import opened WakeupInvariant
  import opened Runs
  import opened Calls
  import opened EventBits

  // ---- semaphores ----

  /** A take of an available semaphore empties it and succeeds; otherwise the caller waits if and only if it has time
      left, and fails without a trace if not. */
  lemma TakeOutcome(s: State, x: nat, entered: nat, timeout: Word)
    requires Inv(s) && Legal(s, TakeStep(x, entered, timeout))
    ensures
      var (s', out) := Next(s, TakeStep(x, entered, timeout));
      if s.semaphores[x] then out == Status(true) && s' == s.(semaphores := s.semaphores[x := false])
      else if TimeLeft(s, entered, timeout) then out == Pending && OnlyWaits(s, s', TakeCall(x), entered, timeout)
      else out == Status(false) && s' == s
  {
    hide Next, Inv, OnlyWaits, BlockUntil, Wrap, MakeDeadline;
    InvWf(s);
    NextTake(s, x, entered, timeout);
    if timeout != 0 {
      BlockUntilWaits(s, SemaphoreRef(x), SemaphoreWait, TakeCall(x), entered, timeout);
    }
  }

  /** A give wakes the best taker that waits, and makes the semaphore available exactly if there is none. */
  lemma GiveOutcome(s: State, x: nat)
    requires Inv(s) && Legal(s, GiveStep(x))
    ensures
      var s' := Next(s, GiveStep(x)).0;
      && OnlySemaphores(s, s') && WakesBest(s.tasks, s'.tasks, SemaphoreRef(x), SemaphoreWait)
      && s'.semaphores == (if SomeoneWaits(s.tasks, SemaphoreRef(x), SemaphoreWait) then s.semaphores
                           else s.semaphores[x := true])
  {
    hide Next, Inv, Wake, WakesBest, SomeoneWaits;
    InvWf(s);
    NextGive(s, x);
    WakeIsBest(s.tasks, SemaphoreRef(x), SemaphoreWait);
  }

  /** A created semaphore is as available as asked. */
  lemma CreateSemaphoreOutcome(s: State, x: nat, available: bool)
    requires Inv(s) && Legal(s, CreateSemaphoreStep(x, available))
    ensures Next(s, CreateSemaphoreStep(x, available)).0 == s.(semaphores := s.semaphores[x := available])
  {
    InvWf(s);
    hide Inv;
  }

  /** The running task's call frame is popped, and nothing else happens. */
  predicate OnlyReturns(s: State, s': State)
    requires s.cur < |s.tasks|
  {
    OnlyTasks(s, s') && OthersKeep(s, s') && Current(s') == Current(s).(call := NoCall)
  }

  /** A take that waited returns what its wait ended with. */
  lemma TakeReturn(s: State)
    requires Inv(s) && Legal(s, ContinueStep) && Current(s).call.TakeCall?
    ensures
      var (s', out) := Next(s, ContinueStep);
      out == Status(Current(s).waitResult) && OnlyReturns(s, s')
  {
    hide Next;
    NextContinue(s);
  }

  // ---- event groups ----

  /** Every other group keeps its bits. */
  predicate OnlyGroup(s: State, s': State, g: nat) {
    && OnlyGroups(s, s') && |s'.groups| == |s.groups|
    && forall k | 0 <= k < |s.groups| && k != g :: s'.groups[k] == s.groups[k]
  }

  /** A set turns on exactly the bits named and returns the new value; it wakes exactly the waiters of the group whose
      request the new value meets. */
  lemma SetBitsOutcome(s: State, g: nat, bits: bv32)
    requires Inv(s) && Legal(s, SetBitsStep(g, bits))
    ensures
      var (s', out) := Next(s, SetBitsStep(g, bits));
      && OnlyGroup(s, s', g) && out == Bits(s'.groups[g])
      && (forall j: bv6 | j < 32 :: On(s'.groups[g], j) <==> On(s.groups[g], j) || On(bits, j))
      && (forall i | 0 <= i < |s.tasks| ::
            var (t, t') := (s.tasks[i], s'.tasks[i]);
            if WaitsForEvent(t, g) && Meets(s'.groups[g], t.call.bits, t.eventAll) then Woken(t, t', true) else t' == t)
  {
    hide Next, Inv, WithBits, On, EventCondition, Meets, Woken, EventReady;
    InvWf(s);
    NextSetBits(s, g, bits);
    var b := WithBits(s.groups[g], bits);
    forall j: bv6 | j < 32 ensures On(b, j) <==> On(s.groups[g], j) || On(bits, j) {
      WithBit(s.groups[g], bits, j);
    }
    forall i | 0 <= i < |s.tasks|
      ensures
        var t := s.tasks[i];
        EventReady(t, g, b) <==> WaitsForEvent(t, g) && Meets(b, t.call.bits, t.eventAll)
      ensures EventReady(s.tasks[i], g, b) ==> Woken(s.tasks[i], WaitEnd(s.tasks[i], true), true)
    {
      ReadyIff(s, g, b, i);
    }
  }

  lemma ReadyIff(s: State, g: nat, b: bv32, i: nat)
    requires TasksOk(s) && i < |s.tasks|
    ensures WaitsForEvent(s.tasks[i], g) ==> s.tasks[i].call.WaitBitsCall?
    ensures
      var t := s.tasks[i];
      EventReady(t, g, b) <==> WaitsForEvent(t, g) && Meets(b, t.call.bits, t.eventAll)
    ensures EventReady(s.tasks[i], g, b) ==> Woken(s.tasks[i], WaitEnd(s.tasks[i], true), true)
  {
    hide EventCondition, Meets;
    var t := s.tasks[i];
    assert TaskOk(s, i, t);
    ConditionIffMeets(b, t.eventBits, t.eventAll);
    if t.state.Blocked? {
      WaitEndWakes(t);
    }
  }

  /** The bits a wait returns: those on in the group that it asked for. */
  ghost predicate AskedFor(r: bv32, b: bv32, bits: bv32) {
    forall j: bv6 | j < 32 :: On(r, j) <==> On(b, j) && On(bits, j)
  }

  /** The group after a wait: the bits asked for are off if the wait clears them. */
  ghost predicate LeftOver(r: bv32, b: bv32, bits: bv32, clears: bool) {
    forall j: bv6 | j < 32 :: On(r, j) <==> On(b, j) && !(clears && On(bits, j))
  }

  /** The running task waits for the bits, from this tick on. */
  ghost predicate WaitsForBits(s: State, s': State, g: nat, bits: bv32, all: bool, clear: bool, timeout: Word)
    requires s.cur < |s.tasks|
  {
    && OnlyTasks(s, s') && OthersKeep(s, s')
    && Waits(Current(s).(eventBits := bits, eventAll := all, eventClear := clear), Current(s'),
             WaitBitsCall(g, bits), s.ticks, timeout)
  }

  /** A wait for bits that the group meets returns them at once, and takes them away if asked to; otherwise the caller
      waits if and only if it has a timeout, and fails without a trace if not. A wait for nothing returns nothing. */
  lemma WaitBitsOutcome(s: State, g: nat, bits: bv32, all: bool, clear: bool, entered: nat, timeout: Word)
    requires Inv(s) && Legal(s, WaitBitsStep(g, bits, all, clear, entered, timeout))
    ensures
      var (s', out) := Next(s, WaitBitsStep(g, bits, all, clear, entered, timeout));
      var b := s.groups[g];
      if bits != 0 && Meets(b, bits, all) then
        && out.Bits? && AskedFor(out.bits, b, bits)
        && OnlyGroup(s, s', g) && LeftOver(s'.groups[g], b, bits, clear) && s'.tasks == s.tasks
      else if bits != 0 && timeout != 0 then out == Pending && WaitsForBits(s, s', g, bits, all, clear, timeout)
      else out == Bits(0) && s' == s
  {
    hide Next, Inv, On, EventCondition, Meets, AskedFor, LeftOver, WithoutBits, CommonBits, Block, MakeDeadline, Waits;
    InvWf(s);
    NextWaitBits(s, g, bits, all, clear, entered, timeout);
    var b := s.groups[g];
    ConditionIffMeets(b, bits, all);
    MasksTell(b, bits);
    if bits != 0 && !Meets(b, bits, all) && timeout != 0 {
      ArmedWaits(s, g, bits, all, clear, timeout);
    }
  }

  lemma ArmedWaits(s: State, g: nat, bits: bv32, all: bool, clear: bool, timeout: Word)
    requires s.cur < |s.tasks|
    ensures
      var armed := SetCurrent(s, Current(s).(eventBits := bits, eventAll := all, eventClear := clear));
      var s' := Block(armed, GroupRef(g), EventWait, MakeDeadline(s.Now(), timeout), WaitBitsCall(g, bits));
      WaitsForBits(s, s', g, bits, all, clear, timeout)
  {
    hide Wrap, MakeDeadline, Block, Waits;
    var armed := SetCurrent(s, Current(s).(eventBits := bits, eventAll := all, eventClear := clear));
    BlockWaits(armed, GroupRef(g), EventWait, WaitBitsCall(g, bits), s.ticks, timeout);
  }

  lemma MasksTell(b: bv32, bits: bv32)
    ensures AskedFor(CommonBits(b, bits), b, bits)
    ensures LeftOver(WithoutBits(b, bits), b, bits, true) && LeftOver(b, b, bits, false)
  {
    hide On, WithoutBits, CommonBits;
    forall j: bv6 | j < 32
      ensures On(CommonBits(b, bits), j) <==> On(b, j) && On(bits, j)
      ensures On(WithoutBits(b, bits), j) <==> On(b, j) && !On(bits, j)
    {
      CommonBit(b, bits, j);
      WithoutBit(b, bits, j);
    }
  }

  /** A wait that blocked returns what it finds of its bits when it resumes, and takes them away exactly if the group
      then meets the request and the wait clears. */
  lemma WaitBitsReturn(s: State)
    requires Inv(s) && Legal(s, ContinueStep) && Current(s).call.WaitBitsCall?
    ensures
      var ((s', out), t) := (Next(s, ContinueStep), Current(s));
      var (g, bits) := (t.call.group, t.call.bits);
      && g < |s.groups| && out.Bits? && AskedFor(out.bits, s.groups[g], bits)
      && OnlyGroup(s, s', g)
      && LeftOver(s'.groups[g], s.groups[g], bits, t.eventClear && Meets(s.groups[g], bits, t.eventAll))
      && OthersKeep(s, s') && Current(s') == t.(call := NoCall)
  {
    hide Next, On, EventCondition, Meets, AskedFor, LeftOver, WithoutBits, CommonBits;
    NextContinue(s);
    var t := Current(s);
    ConditionIffMeets(s.groups[t.call.group], t.call.bits, t.eventAll);
    MasksTell(s.groups[t.call.group], t.call.bits);
  }

  /** A created group has no bit on. */
  lemma CreateGroupOutcome(s: State, g: nat)
    requires Inv(s) && Legal(s, CreateGroupStep(g))
    ensures
      var s' := Next(s, CreateGroupStep(g)).0;
      && OnlyGroup(s, s', g) && s'.tasks == s.tasks && forall j: bv6 | j < 32 :: !On(s'.groups[g], j)
  {
    InvWf(s);
    hide Inv, On;
    forall j: bv6 | j < 32 ensures !On(0, j) {
      ZeroBit(j);
    }
  }

  // ---- notifications ----

  /** A notification of a task that exists is added to its value, and wakes the task exactly if it waits for one. */
  lemma NotifyOutcome(s: State, id: nat, value: Word)
    requires Inv(s) && Legal(s, NotifyStep(id, value))
    ensures
      var (s', out) := Next(s, NotifyStep(id, value));
      && OnlyTasks(s, s') && out == Status(id < |s.tasks|)
      && forall i | 0 <= i < |s.tasks| ::
           var (t, t') := (s.tasks[i], s'.tasks[i]);
           if i != id then t' == t
           else
             var notified := t.(notification := Wrap(t.notification + value));
             if WaitsForNotification(t) then Woken(notified, t', true) else t' == notified
  {
    hide Next, Inv, Wrap, Woken;
    InvWf(s);
    NextNotify(s, id, value);
    if id < |s.tasks| {
      NotifiedWaits(s, id);
      var t := s.tasks[id].(notification := Wrap(s.tasks[id].notification + value));
      if t.state.Blocked? {
        WaitEndWakes(t);
      }
    }
  }

  lemma NotifiedWaits(s: State, i: nat)
    requires TasksOk(s) && i < |s.tasks|
    ensures WaitsForNotification(s.tasks[i]) <==> s.tasks[i].state.Blocked? && s.tasks[i].waitKind.NotificationWait?
  {
    assert TaskOk(s, i, s.tasks[i]);
  }

  /** A take hands out the whole value and leaves 0; without a value the caller waits, from this tick on, if and only
      if it has a timeout, and fails without a trace if not. */
  lemma TakeNotificationOutcome(s: State, entered: nat, timeout: Word)
    requires Inv(s) && Legal(s, TakeNotificationStep(entered, timeout))
    ensures
      var (s', out) := Next(s, TakeNotificationStep(entered, timeout));
      var t := Current(s);
      if t.notification != 0 then
        out == Value(t.notification) && OnlyTasks(s, s') && OthersKeep(s, s') && Current(s') == t.(notification := 0)
      else if timeout != 0 then out == Pending && OnlyWaits(s, s', NotifyCall, s.ticks, timeout)
      else out == Status(false) && s' == s
  {
    hide Next, Inv, OnlyWaits, Block, MakeDeadline;
    InvWf(s);
    NextTakeNotification(s, entered, timeout);
    BlockWaits(s, TaskRef(s.cur), NotificationWait, NotifyCall, s.ticks, timeout);
  }

  /** A take that waited hands out what has arrived since, and fails exactly if that is nothing. */
  lemma NotifyReturn(s: State)
    requires Inv(s) && Legal(s, ContinueStep) && Current(s).call.NotifyCall?
    ensures
      var ((s', out), t) := (Next(s, ContinueStep), Current(s));
      && out == (if t.notification != 0 then Value(t.notification) else Status(false))
      && OnlyTasks(s, s') && OthersKeep(s, s') && Current(s') == t.(call := NoCall, notification := 0)
  {
    hide Next;
    NextContinue(s);
  }
}
