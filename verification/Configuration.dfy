/** Validation of the kernel configuration: what JRT_KernelInit accepts, and that it changes nothing otherwise. */
module Configuration {
  import opened Types
  import opened Machine
  import opened Bits
  import opened Runs
  import K = Kernel
  import Mpu

  datatype Status =
    | Ok | InvalidConfig | TooManyTasks | InvalidEntry | InvalidStack | InvalidMemoryRegion | InvalidPriority

  /** Addresses are 32-bit words, 0 the null pointer. */
  datatype Definition = Definition(
    entry: Word,
    priority: Word,
    guard: Word,
    stack: Word,
    stackWords: Word,
    privateBase: Word,
    privateSize: Word,
    flags: Word)

  const GUARD_BYTES: int := 32
  const FLAG_UNPRIVILEGED: Word := 1
  const INTERNAL_TASKS: int := 2

  /** A half-open address range. */
  datatype Range = Range(start: int, end: int)
  {
    predicate Holds(a: int) {
      start <= a < end
    }
  }

  /** What the build fixes: configuration constants and the placement of the kernel's own memory. */
  datatype Build = Build(
    maxApplicationTasks: Word,
    maxSchedulerTasks: Word,
    maxPriority: Word,
    minimumStackWords: Word,
    servicePriority: Word,
    privateStart: Word,
    privateEnd: Word,
    serviceStack: Range,
    idleStack: Range)

  ghost predicate BuildOk(b: Build) {
    && b.maxApplicationTasks + INTERNAL_TASKS <= b.maxSchedulerTasks < NO_OWNER
    && b.minimumStackWords > 0
    && 0 <= b.serviceStack.start < b.serviceStack.end <= MAX_WORD
    && 0 <= b.idleStack.start < b.idleStack.end <= MAX_WORD
  }

  // ---- what a good layout is ----

  /** No address is in both. */
  ghost predicate Disjoint(a: Range, b: Range) {
    forall x: int :: !(a.Holds(x) && b.Holds(x))
  }

  /** Guard and stack together. */
  function StackRange(d: Definition): Range {
    Range(d.guard, d.stack + 4 * d.stackWords)
  }

  function PrivateRange(d: Definition): Range {
    Range(d.privateBase, d.privateBase + d.privateSize)
  }

  predicate HasPrivate(d: Definition) {
    d.privateBase != 0 || d.privateSize != 0
  }

  /** A stack of an even, sufficient number of words directly behind an aligned guard, inside the address space. */
  predicate StackOk(b: Build, d: Definition) {
    && d.guard > 0 && d.guard % 32 == 0 && d.stack == d.guard + GUARD_BYTES
    && d.stackWords >= b.minimumStackWords && d.stackWords % 2 == 0
    && d.stack + 4 * d.stackWords <= MAX_WORD
  }

  /** A power of two of at least 32 bytes, aligned to its size, inside the private area, for an unprivileged task. */
  ghost predicate PrivateOk(b: Build, d: Definition) {
    && d.privateBase > 0 && d.privateSize >= 32 && IsPow2(d.privateSize)
    && d.privateBase % d.privateSize == 0
    && d.flags % 2 == 1
    && d.privateBase + d.privateSize <= MAX_WORD
    && b.privateStart <= d.privateBase && d.privateBase + d.privateSize <= b.privateEnd
  }

  ghost predicate LaidOut(b: Build, ds: seq<Definition>) {
    && (forall i | 0 <= i < |ds| :: StackOk(b, ds[i]))
    && (forall i, j | 0 <= j < i < |ds| :: Disjoint(StackRange(ds[i]), StackRange(ds[j])))
    && (forall i | 0 <= i < |ds| && HasPrivate(ds[i]) :: PrivateOk(b, ds[i]))
    && (forall i, j | 0 <= i < |ds| && 0 <= j < |ds| && HasPrivate(ds[i]) ::
         Disjoint(PrivateRange(ds[i]), StackRange(ds[j])))
    && (forall i, j | 0 <= j < i < |ds| && HasPrivate(ds[i]) && HasPrivate(ds[j]) ::
          Disjoint(PrivateRange(ds[i]), PrivateRange(ds[j])))
    && (forall i | 0 <= i < |ds| && HasPrivate(ds[i]) ::
          Disjoint(PrivateRange(ds[i]), b.serviceStack) && Disjoint(PrivateRange(ds[i]), b.idleStack))
  }

  // ---- the checks ----

  predicate RangesOverlap(a: Range, b: Range) {
    a.start < b.end && b.start < a.end
  }

  /** For ranges that are not empty the comparison of the source is the absence of a common address. */
  lemma OverlapIff(a: Range, b: Range)
    requires a.start < a.end && b.start < b.end
    ensures RangesOverlap(a, b) <==> !Disjoint(a, b)
  {
    if RangesOverlap(a, b) {
      var x := if a.start < b.start then b.start else a.start;
      assert a.Holds(x) && b.Holds(x);
    }
  }

  ghost predicate StackFits(b: Build, ds: seq<Definition>, i: nat)
    requires i < |ds|
  {
    StackOk(b, ds[i]) && forall j | 0 <= j < i :: Disjoint(StackRange(ds[i]), StackRange(ds[j]))
  }

  /** The tests of the source on 32-bit addresses. */
  predicate StackTests(b: Build, d: Definition) {
    && d.stack != 0 && d.guard != 0 && d.stackWords >= b.minimumStackWords && d.stackWords % 2 == 0
    && d.stack % 8 == 0 && d.guard % 32 == 0 && Wrap(d.guard + GUARD_BYTES) == d.stack
    && d.stackWords <= MAX_WORD / 4 && Wrap(d.stack + 4 * d.stackWords) >= d.stack
  }

  lemma StackArithmetic(b: Build, d: Definition)
    requires b.minimumStackWords > 0
    ensures StackOk(b, d) <==> StackTests(b, d)
  {
    hide Wrap;
    WrapOnce(d.guard + GUARD_BYTES);
    BehindGuard(d.guard);
    if d.stackWords <= MAX_WORD / 4 {
      WrapOnce(d.stack + 4 * d.stackWords);
    }
  }

  lemma BehindGuard(guard: nat)
    ensures guard % 32 == 0 ==> (guard + GUARD_BYTES) % 8 == 0
  {}

  lemma WrapOnce(x: int)
    requires 0 <= x < 2 * WORD
    ensures Wrap(x) == if x < WORD then x else x - WORD
  {}

  method ValidateTaskStack(b: Build, ds: seq<Definition>, index: nat) returns (ok: bool)
    requires BuildOk(b) && index < |ds| && forall j | 0 <= j < index :: StackOk(b, ds[j])
    ensures ok <==> StackFits(b, ds, index)
  {
    var d := ds[index];
    StackArithmetic(b, d);
    if d.stack == 0 || d.guard == 0 || d.stackWords < b.minimumStackWords || d.stackWords % 2 != 0
       || d.stack % 8 != 0 || d.guard % 32 != 0 || Wrap(d.guard + GUARD_BYTES) != d.stack
          || d.stackWords > MAX_WORD / 4 {
      return false;
    }
    var end := Wrap(d.stack + 4 * d.stackWords);
    if end < d.stack {
      return false;
    }
    var previous := 0;
    while previous < index
      invariant previous <= index
      invariant forall j | 0 <= j < previous :: Disjoint(StackRange(d), StackRange(ds[j]))
    {
      var other := ds[previous];
      OverlapIff(StackRange(d), StackRange(other));
      if d.guard < Wrap(other.stack + 4 * other.stackWords) && other.guard < end {
        return false;
      }
      previous := previous + 1;
    }
    return true;
  }

  /** Task i's private region is in order as far as the regions before it and all stacks are concerned. */
  ghost predicate PrivateFits(b: Build, ds: seq<Definition>, i: nat)
    requires i < |ds|
  {
    HasPrivate(ds[i]) ==>
      && PrivateOk(b, ds[i])
      && (forall j | 0 <= j < |ds| :: Disjoint(PrivateRange(ds[i]), StackRange(ds[j])))
      && (forall j | 0 <= j < i && HasPrivate(ds[j]) :: Disjoint(PrivateRange(ds[i]), PrivateRange(ds[j])))
      && Disjoint(PrivateRange(ds[i]), b.serviceStack) && Disjoint(PrivateRange(ds[i]), b.idleStack)
  }

  /** The tests of the source on 32-bit addresses. */
  predicate PrivateTests(b: Build, d: Definition)
    requires d.privateSize >= 32
  {
    && And(d.privateSize, d.privateSize - 1) == 0 && And(d.privateBase, d.privateSize - 1) == 0
    && And(d.flags, FLAG_UNPRIVILEGED) != 0
    && Wrap(d.privateBase + d.privateSize) >= d.privateBase
    && d.privateBase >= b.privateStart && Wrap(d.privateBase + d.privateSize) <= b.privateEnd
  }

  lemma PrivateBits(d: Definition)
    requires d.privateSize >= 32
    ensures And(d.privateSize, d.privateSize - 1) == 0 <==> IsPow2(d.privateSize)
    ensures IsPow2(d.privateSize) ==> And(d.privateBase, d.privateSize - 1) == d.privateBase % d.privateSize
    ensures And(d.flags, FLAG_UNPRIVILEGED) == d.flags % 2
  {
    PowerOfTwoTest(d.privateSize);
    if IsPow2(d.privateSize) {
      var k: nat :| d.privateSize == Pow2(k);
      LowMask(d.privateBase, k);
    }
    LowMask(d.flags, 1);
    assert Pow2(1) == 2;
  }

  lemma PrivateArithmetic(b: Build, d: Definition)
    requires d.privateBase > 0 && d.privateSize >= 32
    ensures PrivateTests(b, d) <==> PrivateOk(b, d)
    ensures PrivateOk(b, d) ==> Wrap(d.privateBase + d.privateSize) == d.privateBase + d.privateSize
  {
    hide And, IsPow2, Wrap;
    PrivateBits(d);
    WrapOnce(d.privateBase + d.privateSize);
  }

  method ValidatePrivateRegion(b: Build, ds: seq<Definition>, index: nat) returns (ok: bool)
    requires BuildOk(b) && index < |ds| && (forall j | 0 <= j < |ds| :: StackOk(b, ds[j]))
    requires forall j | 0 <= j < index && HasPrivate(ds[j]) :: PrivateOk(b, ds[j])
    ensures ok <==> PrivateFits(b, ds, index)
  {
    var d := ds[index];
    var base, size := d.privateBase, d.privateSize;
    if base == 0 && size == 0 {
      return true;
    }
    if base == 0 || size < 32 {
      return false;
    }
    PrivateArithmetic(b, d);
    if And(size, size - 1) != 0 || And(base, size - 1) != 0 || And(d.flags, FLAG_UNPRIVILEGED) == 0 {
      return false;
    }
    var end := Wrap(base + size);
    if end < base || base < b.privateStart || end > b.privateEnd {
      return false;
    }
    hide PrivateOk, PrivateTests, StackOk, Wrap, And;
    assert PrivateOk(b, d) && Range(base, end) == PrivateRange(d) && base < end;
    ok := ClearOfOthers(b, ds, index, Range(base, end));
  }

  method ClearOfOthers(b: Build, ds: seq<Definition>, index: nat, r: Range) returns (ok: bool)
    requires BuildOk(b) && index < |ds| && (forall j | 0 <= j < |ds| :: StackOk(b, ds[j]))
    requires forall j | 0 <= j < index && HasPrivate(ds[j]) :: PrivateOk(b, ds[j])
    requires r == PrivateRange(ds[index]) && r.start < r.end
    ensures ok <==>
              && (forall j | 0 <= j < |ds| :: Disjoint(r, StackRange(ds[j])))
              && (forall j | 0 <= j < index && HasPrivate(ds[j]) :: Disjoint(r, PrivateRange(ds[j])))
              && Disjoint(r, b.serviceStack) && Disjoint(r, b.idleStack)
  {
    hide IsPow2, StackOk, Disjoint, Wrap, RangesOverlap;
    var other := 0;
    while other < |ds|
      invariant other <= |ds|
      invariant forall j | 0 <= j < other :: Disjoint(r, StackRange(ds[j]))
      invariant forall j | 0 <= j < other && j < index && HasPrivate(ds[j]) :: Disjoint(r, PrivateRange(ds[j]))
    {
      var o := ds[other];
      StackBounds(b, o);
      OverlapIff(r, StackRange(o));
      if RangesOverlap(r, Range(o.guard, Wrap(o.stack + 4 * o.stackWords))) {
        return false;
      }
      if other < index && o.privateBase != 0 {
        WrapOnce(o.privateBase + o.privateSize);
        OverlapIff(r, PrivateRange(o));
        if RangesOverlap(r, Range(o.privateBase, Wrap(o.privateBase + o.privateSize))) {
          return false;
        }
      }
      other := other + 1;
    }
    OverlapIff(r, b.serviceStack);
    OverlapIff(r, b.idleStack);
    return !RangesOverlap(r, b.serviceStack) && !RangesOverlap(r, b.idleStack);
  }

  lemma StackBounds(b: Build, d: Definition)
    requires StackOk(b, d)
    ensures
      && StackRange(d).start < StackRange(d).end <= MAX_WORD
      && Wrap(d.stack + 4 * d.stackWords) == StackRange(d).end
  {
    WrapOnce(d.stack + 4 * d.stackWords);
  }

  // ---- the verdict ----

  /** Null pointers and a count of zero, or a table of tasks. */
  datatype Config = NoConfig | Config(tasks: seq<Definition>)

  /** The first fault among the tasks i, i + 1, ... in the order of the source. */
  ghost function FirstFault(b: Build, ds: seq<Definition>, i: nat): Status
    requires i <= |ds|
    decreases |ds| - i
  {
    if i == |ds| then Ok
    else if ds[i].entry == 0 then InvalidEntry
    else if ds[i].priority > b.maxPriority then InvalidPriority
    else if !StackFits(b, ds, i) then InvalidStack
    else FirstFault(b, ds, i + 1)
  }

  ghost function Verdict(b: Build, config: Config): Status {
    if config.NoConfig? || |config.tasks| == 0 then InvalidConfig
    else if |config.tasks| > b.maxApplicationTasks || |config.tasks| + INTERNAL_TASKS > b.maxSchedulerTasks then
      TooManyTasks
    else if FirstFault(b, config.tasks, 0) != Ok then FirstFault(b, config.tasks, 0)
    else if exists i :: 0 <= i < |config.tasks| && !PrivateFits(b, config.tasks, i) then InvalidMemoryRegion
    else Ok
  }

  lemma {:induction false} NoFaultIff(b: Build, ds: seq<Definition>, i: nat)
    requires i <= |ds|
    ensures FirstFault(b, ds, i) == Ok <==>
              forall k | i <= k < |ds| :: ds[k].entry != 0 && ds[k].priority <= b.maxPriority && StackFits(b, ds, k)
    decreases |ds| - i
  {
    if i < |ds| {
      NoFaultIff(b, ds, i + 1);
    }
  }

  /** Accepted exactly when the table has a legal size, every task an entry and a legal priority, and memory is well
      laid out. */
  lemma AcceptedIff(b: Build, config: Config)
    requires BuildOk(b)
    ensures Verdict(b, config) == Ok <==>
              && config.Config? && 1 <= |config.tasks| <= b.maxApplicationTasks
              && (forall k | 0 <= k < |config.tasks| ::
                    config.tasks[k].entry != 0 && config.tasks[k].priority <= b.maxPriority)
              && LaidOut(b, config.tasks)
  {
    if config.Config? && 1 <= |config.tasks| {
      var ds := config.tasks;
      NoFaultIff(b, ds, 0);
      LaidOutIff(b, ds);
    }
  }

  /** Task i is the first one that is not in order as far as entry, priority and stack go. */
  ghost predicate FirstBad(b: Build, ds: seq<Definition>, i: nat) {
    && i < |ds| && !InOrder(b, ds, i)
    && forall k | 0 <= k < i :: InOrder(b, ds, k)
  }

  ghost predicate InOrder(b: Build, ds: seq<Definition>, i: nat)
    requires i < |ds|
  {
    ds[i].entry != 0 && ds[i].priority <= b.maxPriority && StackFits(b, ds, i)
  }

  /** A bad task's fault: its entry before its priority before its stack. */
  function FaultOf(b: Build, d: Definition): Status {
    if d.entry == 0 then InvalidEntry else if d.priority > b.maxPriority then InvalidPriority else InvalidStack
  }

  lemma {:induction false} FaultOfFirstBad(b: Build, ds: seq<Definition>, i: nat, k: nat)
    requires k <= i && FirstBad(b, ds, i)
    ensures i < |ds| && FirstFault(b, ds, k) == FaultOf(b, ds[i])
    decreases i - k
  {
    hide StackFits;
    if k < i {
      assert InOrder(b, ds, k);
      FaultOfFirstBad(b, ds, i, k + 1);
    }
  }

  /** Which fault is reported: a bad table or size first; then that of the first bad task; bad private regions last. */
  lemma FaultReported(b: Build, config: Config)
    ensures config.NoConfig? || config.tasks == [] ==> Verdict(b, config) == InvalidConfig
    ensures config.Config? && config.tasks != [] ==>
              var (ds, v) := (config.tasks, Verdict(b, config));
              if |ds| > b.maxApplicationTasks || |ds| + INTERNAL_TASKS > b.maxSchedulerTasks then v == TooManyTasks
              else
                && (forall i: nat | FirstBad(b, ds, i) :: i < |ds| && v == FaultOf(b, ds[i]))
                && ((forall i | 0 <= i < |ds| :: InOrder(b, ds, i)) ==>
                      v == if forall i | 0 <= i < |ds| :: PrivateFits(b, ds, i) then Ok else InvalidMemoryRegion)
  {
    hide StackFits, PrivateFits, FirstFault, FirstBad, FaultOf;
    if config.Config? && config.tasks != [] {
      var ds := config.tasks;
      forall i: nat | FirstBad(b, ds, i)
        ensures i < |ds| && FirstFault(b, ds, 0) == FaultOf(b, ds[i]) != Ok
      {
        FaultOfFirstBad(b, ds, i, 0);
        FaultIsFault(b, ds[i]);
      }
      if forall i | 0 <= i < |ds| :: InOrder(b, ds, i) {
        NoFault(b, ds);
      }
    }
  }

  lemma FaultIsFault(b: Build, d: Definition)
    ensures FaultOf(b, d) != Ok
  {}

  lemma NoFault(b: Build, ds: seq<Definition>)
    requires forall i | 0 <= i < |ds| :: InOrder(b, ds, i)
    ensures FirstFault(b, ds, 0) == Ok
  {
    hide StackFits;
    forall i | 0 <= i < |ds| ensures ds[i].entry != 0 && ds[i].priority <= b.maxPriority && StackFits(b, ds, i) {
      assert InOrder(b, ds, i);
    }
    NoFaultIff(b, ds, 0);
  }

  lemma LaidOutIff(b: Build, ds: seq<Definition>)
    ensures LaidOut(b, ds) <==>
              (forall i | 0 <= i < |ds| :: StackFits(b, ds, i)) && (forall i | 0 <= i < |ds| :: PrivateFits(b, ds, i))
  {
    hide Disjoint, StackOk, PrivateOk, HasPrivate;
    if LaidOut(b, ds) {
      assert forall i | 0 <= i < |ds| :: StackFits(b, ds, i);
      assert forall i | 0 <= i < |ds| :: PrivateFits(b, ds, i);
    }
    if (forall i | 0 <= i < |ds| :: StackFits(b, ds, i)) && (forall i | 0 <= i < |ds| :: PrivateFits(b, ds, i)) {
      forall i | 0 <= i < |ds|
        ensures StackOk(b, ds[i]) && forall j | 0 <= j < i :: Disjoint(StackRange(ds[i]), StackRange(ds[j]))
      {
        assert StackFits(b, ds, i);
      }
      forall i | 0 <= i < |ds| && HasPrivate(ds[i])
        ensures PrivateOk(b, ds[i])
        ensures forall j | 0 <= j < |ds| :: Disjoint(PrivateRange(ds[i]), StackRange(ds[j]))
        ensures forall j | 0 <= j < i && HasPrivate(ds[j]) :: Disjoint(PrivateRange(ds[i]), PrivateRange(ds[j]))
        ensures Disjoint(PrivateRange(ds[i]), b.serviceStack) && Disjoint(PrivateRange(ds[i]), b.idleStack)
      {
        assert PrivateFits(b, ds, i);
      }
    }
  }

  /** Every accepted private region is one that the memory protection unit can hold exactly: the block of
      2^(SIZE+1) bytes that PrivateRegion encodes is the region, byte for byte. */
  lemma AcceptedRegionsEncodable(b: Build, ds: seq<Definition>, i: nat)
    requires LaidOut(b, ds) && i < |ds| && HasPrivate(ds[i])
    ensures
      var d := ds[i];
      && 32 <= d.privateSize <= 0x8000_0000 && d.privateBase % d.privateSize == 0
      && exists size: nat :: 4 <= size <= 30 && Mpu.Bytes(Mpu.Region(d.privateBase, size)) == d.privateSize
  {
    var d := ds[i];
    var k: nat :| d.privateSize == Pow2(k);
    WordSize();
    if k < 5 {
      Pow2Monotone(k, 4);
    } else if k > 31 {
      Pow2Monotone(32, k);
    }
    Pow2Monotone(k, 31);
    assert Mpu.Bytes(Mpu.Region(d.privateBase, k - 1)) == d.privateSize;
  }

  // ---- initialization ----

  /** The first loop of the validation: entries, priorities and stacks. */
  method ValidateTasks(b: Build, ds: seq<Definition>) returns (status: Status)
    requires BuildOk(b)
    ensures status == FirstFault(b, ds, 0)
  {
    hide StackOk, Disjoint;
    var index := 0;
    while index < |ds|
      invariant index <= |ds|
      invariant FirstFault(b, ds, index) == FirstFault(b, ds, 0)
      invariant forall j | 0 <= j < index :: StackOk(b, ds[j])
    {
      if ds[index].entry == 0 {
        return InvalidEntry;
      }
      if ds[index].priority > b.maxPriority {
        return InvalidPriority;
      }
      var ok := ValidateTaskStack(b, ds, index);
      if !ok {
        return InvalidStack;
      }
      index := index + 1;
    }
    return Ok;
  }

  /** The second loop: private regions. */
  method ValidatePrivateRegions(b: Build, ds: seq<Definition>) returns (ok: bool)
    requires BuildOk(b) && FirstFault(b, ds, 0) == Ok
    ensures ok <==> forall i | 0 <= i < |ds| :: PrivateFits(b, ds, i)
  {
    hide StackOk, PrivateOk, Disjoint, HasPrivate;
    NoFaultIff(b, ds, 0);
    assert forall j | 0 <= j < |ds| :: StackOk(b, ds[j]) by {
      forall j | 0 <= j < |ds| ensures StackOk(b, ds[j]) {
        assert StackFits(b, ds, j);
      }
    }
    var index := 0;
    while index < |ds|
      invariant index <= |ds|
      invariant forall j | 0 <= j < index :: PrivateFits(b, ds, j)
      invariant forall j | 0 <= j < index && HasPrivate(ds[j]) :: PrivateOk(b, ds[j])
    {
      ok := ValidatePrivateRegion(b, ds, index);
      if !ok {
        return;
      }
      index := index + 1;
    }
    return true;
  }

  function PrioritiesOf(ds: seq<Definition>): (r: seq<Word>)
    ensures |r| == |ds|
  {
    seq(|ds|, i requires 0 <= i < |ds| => ds[i].priority)
  }

  /** The kernel that the table of tasks asks for: its tasks in order, the first one RUNNING, at their own priorities;
      then the timer service, blocked for ever; then idle, at priority 0; and no object in use. */
  ghost predicate Initial(s: State, ds: seq<Definition>, servicePriority: Word, pools: Pools) {
    var n := |ds|;
    && s.ticks == 0 && s.cur == 0 && s.apps == n && !s.started && |s.tasks| == n + 2
    && (forall i | 0 <= i < n ::
          s.tasks[i].state == (if i == 0 then Running else Ready) && s.tasks[i].basePriority == ds[i].priority)
    && ServiceBlocked(s.tasks[n]) && s.tasks[n].waitForever && s.tasks[n].basePriority == servicePriority
    && s.tasks[n + 1].state.Ready? && s.tasks[n + 1].basePriority == 0
    && (forall t | t in s.tasks ::
          t.priority == t.basePriority && t.call.NoCall? && t.notification == 0 && t.sleepTicks == 0)
    && |s.mutexes| == pools.mutexes && (forall x | x in s.mutexes :: !x.locked) && s.mutexList == -1
    && |s.semaphores| == pools.semaphores && true !in s.semaphores
    && |s.queues| == pools.queues && (forall q | q in s.queues :: q.capacity == q.itemSize == q.count == 0)
    && |s.groups| == pools.groups && (forall g | g in s.groups :: g == 0)
    && |s.timers| == pools.timers && (forall t | t in s.timers :: !t.active && t.expirations == 0 && t.callback == 0)
    && s.timerList == -1
  }

  lemma BootIsInitial(ds: seq<Definition>, servicePriority: Word, pools: Pools)
    requires |ds| >= 1
    ensures Initial(Boot(PrioritiesOf(ds), servicePriority, pools), ds, servicePriority, pools)
  {
    hide BootTasks;
    ServiceAtBoot(PrioritiesOf(ds), servicePriority);
    var s := Boot(PrioritiesOf(ds), servicePriority, pools);
    forall i | 0 <= i < |s.tasks|
      ensures s.tasks[i].priority == s.tasks[i].basePriority && s.tasks[i].call.NoCall?
      ensures s.tasks[i].notification == 0 && s.tasks[i].sleepTicks == 0
      ensures i < |ds| ==> s.tasks[i].state == if i == 0 then Running else Ready
      ensures i < |ds| ==> s.tasks[i].basePriority == ds[i].priority
    {
      BootTaskAt(PrioritiesOf(ds), servicePriority, i);
    }
    BootTaskAt(PrioritiesOf(ds), servicePriority, |ds|);
    BootTaskAt(PrioritiesOf(ds), servicePriority, |ds| + 1);
  }

  lemma ServiceAtBoot(priorities: seq<Word>, servicePriority: Word)
    requires |priorities| >= 1
    ensures
      var t := BootTasks(priorities, servicePriority)[|priorities|];
      t.basePriority == servicePriority && t.sleepTicks == 0
  {}

  class Startup {
    var kernel: K.Kernel?
    var initialized: bool

    constructor ()
      ensures kernel == null && !initialized
    {
      kernel, initialized := null, false;
    }

    /** JRT_KernelInit: the verdict in the source's order; a rejected configuration changes nothing. */
    method KernelInit(b: Build, config: Config, pools: Pools) returns (status: Status)
      requires BuildOk(b)
      modifies this
      ensures status == Verdict(b, config)
      ensures status != Ok ==> unchanged(this)
      ensures status == Ok ==>
                && config.Config? && |config.tasks| >= 1 && initialized
                && kernel != null && fresh(kernel) && kernel.Valid()
                && kernel.Abs() == Boot(PrioritiesOf(config.tasks), b.servicePriority, pools)
                && Initial(kernel.Abs(), config.tasks, b.servicePriority, pools)
    {
      hide Initial, Boot, FirstFault, PrivateFits, StackFits, HasPrivate;
      if config.NoConfig? || |config.tasks| == 0 {
        return InvalidConfig;
      }
      var ds := config.tasks;
      if |ds| > b.maxApplicationTasks {
        return TooManyTasks;
      }
      if |ds| + INTERNAL_TASKS > b.maxSchedulerTasks {
        return TooManyTasks;
      }
      status := ValidateTasks(b, ds);
      if status != Ok {
        return;
      }
      var ok := ValidatePrivateRegions(b, ds);
      if !ok {
        return InvalidMemoryRegion;
      }
      BootIsInitial(ds, b.servicePriority, pools);
      kernel := new K.Kernel(PrioritiesOf(ds), b.servicePriority, pools);
      initialized := true;
      return Ok;
    }
  }
}
