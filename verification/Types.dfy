/** The kernel's data: 32-bit words, the task table entry and the synchronization objects.
    Objects live in static storage; a pointer to one is its index, the null pointer of a
    link field is -1. */
module Types {
  const WORD: int := 0x1_0000_0000
  const MAX_WORD: int := 0xFFFF_FFFF

  type Word = x: int | 0 <= x < 0x1_0000_0000
  type Byte = x: int | 0 <= x < 256

  /** Owner of an unlocked mutex. */
  const NO_OWNER: Word := 0xFFFF_FFFF
  const WAIT_FOREVER: Word := 0xFFFF_FFFF
  const TASK_ID_SELF: Word := 0xFFFF_FFFF

  /** uint32_t arithmetic. */
  function Wrap(x: int): Word {
    x % 0x1_0000_0000
  }

  lemma WrapSmall(w: Word)
    ensures Wrap(w) == w
  {}

  lemma WrapTwice(a: int, b: int)
    ensures Wrap(Wrap(a) + b) == Wrap(a + b)
  {}

  lemma WrapDifference(a: int, b: int)
    ensures Wrap(Wrap(a) - Wrap(b)) == Wrap(a - b)
  {}

  /** Gains n, ns and losses t, ts accumulate modulo 2^32. */
  lemma WrapSum(w: int, n: int, t: int, ns: int, ts: int)
    ensures Wrap(Wrap(w + n - t) + ns - ts) == Wrap(w + (n + ns) - (t + ts))
  {}

  datatype RunState = Ready | Running | Sleeping | Blocked | Suspended

  datatype WaitKind =
    | NoWait | SemaphoreWait | SendWait | ReceiveWait | MutexWait | NotificationWait | EventWait | ServiceWait

  /** What wait_object points at. */
  datatype Object =
    | NullObject
    | SemaphoreRef(id: nat) | QueueRef(id: nat) | MutexRef(id: nat) | TaskRef(id: nat) | GroupRef(id: nat)
    | ServiceRef

  datatype Deadline = Deadline(start: Word, tick: Word, forever: bool)

  /** The API call whose frame is on the task's stack while the task is off the processor. */
  datatype Call =
    | NoCall
    | LockCall(mutex: nat)
    | TakeCall(semaphore: nat)
    | SendCall(queue: nat, item: seq<Byte>, timeout: Word, deadline: Deadline)
    | ReceiveCall(queue: nat, timeout: Word, deadline: Deadline)
    | WaitBitsCall(group: nat, bits: bv32)
    | NotifyCall

  datatype Task = Task(
    state: RunState,
    sleepTicks: Word,
    priority: int,
    basePriority: int,
    waitObject: Object,
    waitKind: WaitKind,
    waitStart: Word,
    waitDeadline: Word,
    waitForever: bool,
    waitResult: bool,
    notification: Word,
    eventBits: bv32,
    eventAll: bool,
    eventClear: bool,
    call: Call)

  datatype Mutex = Mutex(locked: bool, owner: Word, recursion: Word, next: int)

  datatype Queue = Queue(
    storage: seq<Byte>,
    capacity: Word,
    itemSize: Word,
    head: Word,
    tail: Word,
    count: Word,
    sendReservations: Word,
    receiveReservations: Word)

  datatype Timer = Timer(
    deadline: Word,
    period: Word,
    reload: Word,
    expirations: Word,
    active: bool,
    periodic: bool,
    callback: nat,
    argument: nat,
    next: int)

  datatype Error = InvalidContext | InvalidTask | InvalidState

  /** What an API call hands back; Pending when the caller has been blocked instead. */
  datatype Outcome =
    | Pending
    | Void
    | Status(ok: bool)
    | Refused(error: Error)
    | Item(item: seq<Byte>)
    | Bits(bits: bv32)
    | Value(value: Word)
    | Claim(callback: nat, argument: nat)
}
