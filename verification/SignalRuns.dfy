/** Semaphores and event groups over runs: tokens are neither invented nor lost, bits change hands only as asked. */
module SignalRuns {
  import opened Types
  import opened TaskTable
  import opened Machine
  import opened WaitInvariant
  import opened Phases
  import opened MutexInvariant
  import opened WakeupInvariant
  import opened Runs
  import opened EventBits

  // ---- semaphore tokens ----

  /** Woken with the token of semaphore x, its take call not yet finished. */
  predicate Granted(t: Task, x: nat) {
    t.call == TakeCall(x) && !t.state.Blocked? && t.waitResult
  }

  function Grants(ts: seq<Task>, x: nat, k: nat): nat
    requires k <= |ts|
  {
    if k == 0 then 0 else Grants(ts, x, k - 1) + if Granted(ts[k - 1], x) then 1 else 0
  }

  lemma {:induction false} GrantsUpdate(ts: seq<Task>, x: nat, i: nat, t: Task, k: nat)
    requires i < |ts| && k <= |ts|
    ensures Grants(ts[i := t], x, k)
         == Grants(ts, x, k) + if i < k then (if Granted(t, x) then 1 else 0) - (if Granted(ts[i], x) then 1 else 0)
             else 0
  {
    if k > 0 {
      GrantsUpdate(ts, x, i, t, k - 1);
    }
  }

  lemma {:induction false} GrantsFrame(ts: seq<Task>, ts': seq<Task>, x: nat, k: nat)
    requires |ts'| == |ts| && k <= |ts| && forall i | 0 <= i < k :: Granted(ts'[i], x) == Granted(ts[i], x)
    ensures Grants(ts', x, k) == Grants(ts, x, k)
  {
    if k > 0 {
      GrantsFrame(ts, ts', x, k - 1);
    }
  }

  /** The token in the semaphore and those on their way to a woken taker. */
  function Tokens(s: State, x: nat): nat
    requires x < |s.semaphores|
  {
    (if s.semaphores[x] then 1 else 0) + Grants(s.tasks, x, |s.tasks|)
  }

  /** A give adds a token unless the semaphore, being binary, already holds one. */
  function Given(s: State, step: Step, x: nat): nat {
    if step == GiveStep(x) && x < |s.semaphores| && !s.semaphores[x] then 1 else 0
  }

  /** Take calls on semaphore x that report success in this step. */
  function Taken(s: State, step: Step, x: nat): nat
    requires Wf(s) && Legal(s, step)
  {
    var own := (step.TakeStep? && step.x == x) || (step.ContinueStep? && Current(s).call == TakeCall(x));
    if own && Next(s, step).1 == Status(true) then 1 else 0
  }

  ghost predicate TokenStep(s: State, step: Step, x: nat)
    requires Wf(s) && Legal(s, step) && x < |s.semaphores|
  {
    var s' := Next(s, step).0;
    |s'.semaphores| == |s.semaphores| && Tokens(s', x) + Taken(s, step, x) == Tokens(s, x) + Given(s, step, x)
  }

  lemma TakeTokens(s: State, k: nat, entered: nat, timeout: Word, x: nat)
    requires Wf(s) && Legal(s, TakeStep(k, entered, timeout)) && x < |s.semaphores|
    ensures TokenStep(s, TakeStep(k, entered, timeout), x)
  {
    hide Expired, MakeDeadline;
    var t' := Take(s, k, entered, timeout).0.tasks[s.cur];
    GrantsUpdate(s.tasks, x, s.cur, t', |s.tasks|);
  }

  lemma GiveTokens(s: State, k: nat, x: nat)
    requires Sane(s) && WaitersOk(s) && Legal(s, GiveStep(k)) && x < |s.semaphores|
    ensures TokenStep(s, GiveStep(k), x)
  {
    hide BestWaiter;
    var (ts, to) := Wake(s.tasks, SemaphoreRef(k), SemaphoreWait);
    if to >= 0 {
      assert TaskOk(s, to, s.tasks[to]) && WaitsForSemaphore(s.tasks[to], k);
      GrantsUpdate(s.tasks, x, to, ts[to], |s.tasks|);
    }
  }

  lemma ContinueTokens(s: State, x: nat)
    requires Wf(s) && Legal(s, ContinueStep) && Current(s).call.TakeCall? && x < |s.semaphores|
    ensures TokenStep(s, ContinueStep, x)
  {
    GrantsUpdate(s.tasks, x, s.cur, Current(s).(call := NoCall), |s.tasks|);
  }

  lemma TickGranted(s: State, i: nat, x: nat)
    requires Sane(s) && i < |s.tasks|
    ensures Granted(Tick(s).tasks[i], x) == Granted(s.tasks[i], x)
  {
    hide Tick;
    var t, t' := s.tasks[i], Tick(s).tasks[i];
    TickAt(s, i);
    assert TaskOk(s, i, t);
    var t1 := if Rest(t') == Rest(TickOne(t, Wrap(s.ticks + 1))) then TickOne(t, Wrap(s.ticks + 1))
        else WaitEnd(t, true);
    assert t' == t1.(priority := t'.priority);
  }

  lemma KeepsGranted(p: Protocol, t: Task, t': Task, x: nat)
    requires Keeps(p, t, t') && p != SemaphoreProtocol
    ensures Granted(t', x) == Granted(t, x)
  {}

  lemma OtherGranted(s: State, step: Step, i: nat, x: nat)
    requires Inv(s) && Legal(s, step) && i < |s.tasks| && !IsSemaphoreStep(step)
    requires !(step.ContinueStep? && Current(s).call.TakeCall?)
    ensures |Next(s, step).0.tasks| == |s.tasks|
    ensures Granted(Next(s, step).0.tasks[i], x) == Granted(s.tasks[i], x)
  {
    hide Next, Granted, Keeps, TasksOk;
    if step.TickStep? {
      NextTickState(s);
      TickGranted(s, i, x);
    } else {
      NonNegative(s);
      StepKeeps(s, step);
      KeepsGranted(StepProtocol(s, step), s.tasks[i], Next(s, step).0.tasks[i], x);
    }
  }

  lemma OtherTokens(s: State, step: Step, x: nat)
    requires Inv(s) && Legal(s, step) && x < |s.semaphores| && !IsSemaphoreStep(step)
    requires !(step.ContinueStep? && Current(s).call.TakeCall?)
    ensures TokenStep(s, step, x)
  {
    hide Next, Granted;
    StepFrame(s, step);
    forall i | 0 <= i < |s.tasks| ensures Granted(Next(s, step).0.tasks[i], x) == Granted(s.tasks[i], x) {
      OtherGranted(s, step, i, x);
    }
    GrantsFrame(s.tasks, Next(s, step).0.tasks, x, |s.tasks|);
  }

  lemma NextTickState(s: State)
    requires Wf(s) && Legal(s, TickStep)
    ensures Next(s, TickStep).0 == Tick(s) && |Tick(s).tasks| == |s.tasks|
  {}

  lemma StepTokens(s: State, step: Step, x: nat)
    requires Inv(s) && s.started && Legal(s, step) && x < |s.semaphores|
    ensures TokenStep(s, step, x)
  {
    hide Next, TokenStep;
    if step.TakeStep? {
      TakeTokens(s, step.x, step.entered, step.timeout, x);
    } else if step.GiveStep? {
      GiveTokens(s, step.x, x);
    } else if step.ContinueStep? && Current(s).call.TakeCall? {
      ContinueTokens(s, x);
    } else {
      OtherTokens(s, step, x);
    }
  }

  ghost function AllGiven(s: State, steps: seq<Step>, x: nat): nat
    requires LegalRun(s, steps)
    decreases |steps|
  {
    if steps == [] then 0 else Given(s, steps[0], x) + AllGiven(Next(s, steps[0]).0, steps[1..], x)
  }

  ghost function AllTaken(s: State, steps: seq<Step>, x: nat): nat
    requires LegalRun(s, steps)
    decreases |steps|
  {
    if steps == [] then 0 else Taken(s, steps[0], x) + AllTaken(Next(s, steps[0]).0, steps[1..], x)
  }

  lemma NextTokens(s: State, step: Step, x: nat)
    requires Inv(s) && s.started && Legal(s, step) && x < |s.semaphores|
    ensures
      var s' := Next(s, step).0;
      && Inv(s') && s'.started && |s'.semaphores| == |s.semaphores|
      && Tokens(s', x) + Taken(s, step, x) == Tokens(s, x) + Given(s, step, x)
  {
    hide Next;
    StepKeepsInv(s, step);
    StepFrame(s, step);
    StepTokens(s, step, x);
  }

  /** Every token given is taken, in the semaphore, or on its way to a woken taker; so there are never more
      successful takes than tokens at the start and gives. */
  lemma {:induction false} TokensAddUp(s: State, steps: seq<Step>, x: nat)
    requires Inv(s) && s.started && LegalRun(s, steps) && x < |s.semaphores|
    ensures x < |Run(s, steps).semaphores|
    ensures Tokens(Run(s, steps), x) + AllTaken(s, steps, x) == Tokens(s, x) + AllGiven(s, steps, x)
    decreases |steps|
  {
    hide Next, Inv, Given, Taken, Tokens;
    if steps != [] {
      NextTokens(s, steps[0], x);
      TokensAddUp(Next(s, steps[0]).0, steps[1..], x);
    }
  }

  // ---- event bits ----

  /** The bits of group g that a step sets. */
  function BitsSet(step: Step, g: nat): bv32 {
    if step.SetBitsStep? && step.g == g then step.bits else 0
  }

  /** The bits of group g that a wait takes away: all it asked for, if it is satisfied and clears on exit. */
  ghost function BitsCleared(s: State, step: Step, g: nat): bv32
    requires s.cur < |s.tasks| && g < |s.groups|
  {
    var t := Current(s);
    if step.WaitBitsStep? && step.g == g && step.clear && step.bits != 0
       && Meets(s.groups[g], step.bits, step.all)
    then step.bits
    else if step.ContinueStep? && t.call.WaitBitsCall? && t.call.group == g && t.eventClear
            && Meets(s.groups[g], t.call.bits, t.eventAll)
    then t.call.bits
    else 0
  }

  lemma Masks(b: bv32, bits: bv32)
    ensures WithBits(b, 0) == b && WithoutBits(b, 0) == b
    ensures WithoutBits(CommonBits(b, bits), bits) == 0 && WithoutBits(0, bits) == 0
  {}

  /** A bit of a group is on after a step if it was on or the step sets it, unless a satisfied wait that asked for it
      takes it away; nothing else touches it. */
  lemma GroupStep(s: State, step: Step, g: nat, j: bv6)
    requires Wf(s) && s.started && Legal(s, step) && g < |s.groups| && j < 32
    ensures |Next(s, step).0.groups| == |s.groups|
    ensures On(Next(s, step).0.groups[g], j)
            <==> (On(s.groups[g], j) || On(BitsSet(step, g), j)) && !On(BitsCleared(s, step, g), j)
  {
    hide Next, On, BitsSet, BitsCleared, WithBits, WithoutBits;
    GroupWord(s, step, g);
    WithBit(s.groups[g], BitsSet(step, g), j);
    WithoutBit(WithBits(s.groups[g], BitsSet(step, g)), BitsCleared(s, step, g), j);
  }

  lemma GroupWord(s: State, step: Step, g: nat)
    requires Wf(s) && s.started && Legal(s, step) && g < |s.groups|
    ensures |Next(s, step).0.groups| == |s.groups|
    ensures Next(s, step).0.groups[g] == WithoutBits(WithBits(s.groups[g], BitsSet(step, g)), BitsCleared(s, step, g))
  {
    hide EventCondition, Meets, WithBits, WithoutBits, CommonBits, Next;
    var b := s.groups[g];
    Masks(b, 0);
    if step.SetBitsStep? {
      Masks(WithBits(b, step.bits), 0);
      SetGroup(s, step.g, step.bits, g);
    } else if step.WaitBitsStep? {
      WaitGroup(s, step, g);
    } else if step.ContinueStep? && Current(s).call.WaitBitsCall? {
      ResumeGroup(s, g);
    } else {
      StepFrame(s, step);
    }
  }

  lemma SetGroup(s: State, k: nat, bits: bv32, g: nat)
    requires Wf(s) && Legal(s, SetBitsStep(k, bits)) && g < |s.groups|
    ensures |Next(s, SetBitsStep(k, bits)).0.groups| == |s.groups|
    ensures Next(s, SetBitsStep(k, bits)).0.groups[g] == if g == k then WithBits(s.groups[g], bits) else s.groups[g]
  {
    hide WithBits, WakeEvents;
  }

  lemma WaitGroup(s: State, step: Step, g: nat)
    requires Wf(s) && Legal(s, step) && step.WaitBitsStep? && g < |s.groups|
    ensures |Next(s, step).0.groups| == |s.groups|
    ensures Next(s, step).0.groups[g] == WithoutBits(s.groups[g], BitsCleared(s, step, g))
  {
    hide WithoutBits, CommonBits, EventCondition, Meets;
    Masks(s.groups[g], 0);
    ConditionIffMeets(s.groups[step.g], step.bits, step.all);
  }

  lemma ResumeGroup(s: State, g: nat)
    requires Wf(s) && Legal(s, ContinueStep) && Current(s).call.WaitBitsCall? && g < |s.groups|
    ensures |Next(s, ContinueStep).0.groups| == |s.groups|
    ensures Next(s, ContinueStep).0.groups[g] == WithoutBits(s.groups[g], BitsCleared(s, ContinueStep, g))
  {
    hide WithoutBits, CommonBits, EventCondition, Meets;
    Masks(s.groups[g], 0);
    ConditionIffMeets(s.groups[Current(s).call.group], Current(s).call.bits, Current(s).eventAll);
  }

  lemma MaskKeepsCondition(b: bv32, bits: bv32, all: bool)
    ensures EventCondition(CommonBits(b, bits), bits, all) == EventCondition(b, bits, all)
    ensures bits != 0 ==> !EventCondition(0, bits, all)
  {}

  /** What a wait call that does not block returns is the part of the group it asked for; it satisfies the condition
      exactly when the group does. */
  lemma WaitReturns(s: State, g: nat, bits: bv32, all: bool, clear: bool, entered: nat, timeout: Word)
    requires Wf(s) && Legal(s, WaitBitsStep(g, bits, all, clear, entered, timeout)) && bits != 0
    ensures
      var out := WaitBits(s, g, bits, all, clear, timeout).1;
      && (EventCondition(s.groups[g], bits, all) ==> out == Bits(CommonBits(s.groups[g], bits)))
      && (out.Bits? ==> WithoutBits(out.bits, bits) == 0
                        && EventCondition(out.bits, bits, all) == EventCondition(s.groups[g], bits, all))
  {
    hide EventCondition, CommonBits, WithoutBits;
    MaskKeepsCondition(s.groups[g], bits, all);
    Masks(s.groups[g], bits);
  }

  /** A woken waiter looks again when it resumes: others may have emptied the group in between, and then what it
      returns does not satisfy its condition. */
  lemma ResumedWaitReturns(s: State)
    requires Wf(s) && Legal(s, ContinueStep) && Current(s).call.WaitBitsCall?
    ensures
      var (c, all) := (Current(s).call, Current(s).eventAll);
      var out := Continue(s).1;
      && out == Bits(CommonBits(s.groups[c.group], c.bits))
      && WithoutBits(out.bits, c.bits) == 0
      && EventCondition(out.bits, c.bits, all) == EventCondition(s.groups[c.group], c.bits, all)
  {
    hide EventCondition, CommonBits, WithoutBits;
    var c := Current(s).call;
    MaskKeepsCondition(s.groups[c.group], c.bits, Current(s).eventAll);
    Masks(s.groups[c.group], c.bits);
  }
}
