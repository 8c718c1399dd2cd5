/** Identifiers, records and constants shared by every part of the model. */
module Types {
  type JobId = nat
  type TubeName = string
  type ClientId = string
  type RequestId = string

  // math.MaxInt64: the clock value that stands for "never".
  const MAX_TIME: int := 0x7FFF_FFFF_FFFF_FFFF

  // Longest time a reservation request may wait.
  const MAX_TIMEOUT_SECS: int := 24 * 3600

  // Documented upper bound on a delay and on a time-to-run; also the largest
  // value of the 32-bit counters of a job.
  const MAX_U32: int := 0xFFFF_FFFF

  // Clock readings for which no 64-bit sum of the machine overflows.
  predicate ClockOk(now: int) {
    0 <= now && now + MAX_U32 < MAX_TIME
  }

  datatype Option<+T> = None | Some(value: T)

  datatype Error =
    | InvalidIndex
    | MismatchJobEntry
    | EntryExists
    | EntryMissing
    | ContainerEmpty
    | InvalidJobTransition
    | InvalidOperation
    | UnauthorizedOperation
    | NoReservationFound
    | InvalidResvTimeout
    | ClientIsWaitingForReservation

  datatype Result<+T> = Ok(value: T) | Err(error: Error)

  datatype JobState = Initial | Ready | Reserved | Buried | Delayed | Deleted

  // The container that holds the entry of a job.
  datatype Place =
    | InReady(tube: TubeName)
    | InDelayed(tube: TubeName)
    | InBuried(tube: TubeName)
    | HeldBy(client: ClientId)
    | Nowhere

  // The four orderings of a job heap.
  datatype Order = ByPriority | ByReadyAt | ByExpiresAt | ByBuriedAt

  type Counter = c: int | 0 <= c <= MAX_U32

  // A 32-bit counter wraps around.
  function Inc(c: Counter): Counter {
    if c == MAX_U32 then 0 else c + 1
  }

  datatype Job = Job(
    id: JobId,
    priority: nat,
    delay: int,
    ttr: int,
    bodySize: int,
    body: seq<bv8>,
    tube: TubeName,
    createdAt: int,
    readyAt: int,
    state: JobState,
    expiresAt: int,
    reservedBy: ClientId,
    buriedAt: int,
    reserves: Counter,
    timeouts: Counter,
    releases: Counter,
    buries: Counter,
    kicks: Counter)
  {
    // Leaving the buried state clears the time of burial.
    function UpdateState(newState: JobState): Job {
      this.(state := newState, buriedAt := if state == Buried then 0 else buriedAt)
    }

    function UpdateReservation(now: int): Job {
      this.(expiresAt := now + ttr)
    }

    // The container named by the state of the job.
    function Place(): Place {
      match state
      case Ready => InReady(tube)
      case Delayed => InDelayed(tube)
      case Buried => InBuried(tube)
      case Reserved => HeldBy(reservedBy)
      case _ => Nowhere
    }

    function Key(o: Order): int {
      match o
      case ByPriority => priority
      case ByReadyAt => readyAt
      case ByExpiresAt => expiresAt
      case ByBuriedAt => buriedAt
    }

    // The ordering of a job heap: by key, ties broken by id.
    predicate Before(o: Order, other: Job) {
      if Key(o) == other.Key(o) then id < other.id else Key(o) < other.Key(o)
    }
  }

  function OrderOf(p: Place): Order {
    match p
    case InReady(_) => ByPriority
    case InDelayed(_) => ByReadyAt
    case InBuried(_) => ByBuriedAt
    case _ => ByExpiresAt
  }

  datatype ResvStatus = Unknown | Queued | DeadlineSoon | Matched | Timeout | Error

  datatype Reservation = Reservation(
    requestId: RequestId,
    clientId: ClientId,
    jobId: JobId,
    status: ResvStatus,
    bodySize: int,
    body: seq<bv8>)

  ghost predicate NoDup<T>(s: seq<T>) {
    forall i, j :: 0 <= i < j < |s| ==> s[i] != s[j]
  }

  // The sequence without the (first) occurrence of x.
  function Without(s: seq<ClientId>, x: ClientId): seq<ClientId> {
    if s == [] then []
    else if s[0] == x then s[1..]
    else [s[0]] + Without(s[1..], x)
  }

  lemma {:induction false} WithoutMembers(s: seq<ClientId>, x: ClientId)
    requires NoDup(s)
    ensures NoDup(Without(s, x))
    ensures forall y :: y in Without(s, x) <==> y in s && y != x
    ensures |Without(s, x)| == if x in s then |s| - 1 else |s|
  {
    if s != [] && s[0] != x {
      assert NoDup(s[1..]);
      WithoutMembers(s[1..], x);
      assert forall y :: y in s <==> y == s[0] || y in s[1..];
      var w := Without(s[1..], x);
      forall i | 0 <= i < |w| ensures w[i] != s[0] {
        assert w[i] in Without(s[1..], x);
        assert w[i] in s[1..];
      }
    } else if s != [] {
      assert forall y :: y in s <==> y == s[0] || y in s[1..];
    }
  }

  // The order of Go strings.
  predicate StrLess(a: string, b: string) {
    b != [] && (a == [] || a[0] < b[0] || (a[0] == b[0] && StrLess(a[1..], b[1..])))
  }

  lemma {:induction false} StrLessTotal(a: string, b: string)
    ensures StrLess(a, b) || StrLess(b, a) || a == b
    ensures !(StrLess(a, b) && StrLess(b, a))
  {
    if a != [] && b != [] && a[0] == b[0] {
      StrLessTotal(a[1..], b[1..]);
      assert a == [a[0]] + a[1..] && b == [b[0]] + b[1..];
    }
  }

  lemma {:induction false} StrLessTransitive(a: string, b: string, c: string)
    requires StrLess(a, b) && StrLess(b, c)
    ensures StrLess(a, c)
  {
    if a != [] && a[0] == b[0] == c[0] {
      StrLessTransitive(a[1..], b[1..], c[1..]);
    }
  }
}
