# coolbeans in Dafny

coolbeans is a replicated work queue that speaks the beanstalkd protocol. Every
replica runs the same *job state machine*: clients put jobs into tubes, ask for
a reservation on the tubes they watch, and delete, release, bury, kick or touch
jobs; a clock tick makes delayed jobs ready, hands ready jobs to waiting
clients, ends reservations that have run out and answers requests that have
waited too long.

The project models that machine, the containers it rests on, its snapshots, the
byte framing of client connections and the reply bookkeeping of the proxy, and
proves what they guarantee. `dafny verify dfyconfig.toml` checks everything.

## How it is laid out

The machine is described twice.

* As a **value**: `Spec.State` holds the jobs, the wait queue of every tube, the
  clients and their timers. A job is in the container that its own record names,
  so containers are derived. `Spec` has one function per operation, `Ticks` has
  the clock step, `Invariant` what every operation keeps, `Runs` whole runs.
* As a **class**: `Machine.LocalJsm` holds an index of jobs, three heaps and a
  wait queue per tube, a heap of reserved jobs per client, an index of clients
  and a heap of their timers, and updates them in place. Every time a job enters
  a heap it gets a new entry, which the index has to note. `Valid()` says that
  all of them agree: the entry noted for a job is in exactly one heap, the one
  its record names, in heap order, at the position it knows, and no heap has
  other entries. Each method is proved to take
  `View()`, the machine as a value, to what the function of `Spec` says, and to
  keep `Valid()`. The panics of the source are `assert false`, so none of them
  can be reached.

| file | about |
|---|---|
| types.dfy, spec.dfy, invariant.dfy | records, operations as functions, the invariant |
| outcomes.dfy | what each operation answers and changes, field by field |
| ticks.dfy, tick_facts.dfy, answers.dfy, matching.dfy | one clock tick, what it guarantees, and what it tells whom; requests |
| runs.dfy, lifecycle.dfy | requests, leases and ids over whole runs, restores included |
| determinism.dfy | replicas that range over the tubes in different orders |
| heap.dfy, queue.dfy | the indexed binary heap of `container/heap`, the queue of clients |
| loops.dfy, client_check.dfy, machine.dfy | the machine with its containers |
| image.dfy, snapshot.dfy | snapshots and restoring |
| records.dfy, store.dfy | the records of the store, writing and reading them |
| starvation.dfy | what becomes of a client that the records have forgotten |
| framing.dfy, skipping.dfy | lines out of a stream of bytes; skipping a line that is too long |
| conn.dfy, hangup.dfy | the connection; reads that fail |
| meaning.dfy, dialogue.dfy | what a stream means; requests and what becomes of them |
| linewise.dfy, chunking.dfy | when the reads decide nothing; streams on which they do |
| proxy.dfy | the proxy's books about waiting clients |
| scenarios.dfy | short runs from the empty machine that end where the code falls short |

## Where the code falls short

Each of these is stated as a theorem about the code as it is written, with the
exact condition under which the intended property holds and an input for which
it does not.

* `Delete` leaves the entry of a buried job in the heap of buried jobs, with a
  record that was reset. The containers still agree afterwards exactly when the
  job was not buried (`Machine.LocalJsm.Delete`). Once such an entry is on top,
  a peek shows a job that is not in the index and every kick of the tube fails
  (`Machine.LocalJsm.KickN`, `Scenarios.DeletedStays`). With the missing case the
  containers always agree (`Machine.LocalJsm.DeleteRepaired`); runs use this step.
* `Touch` in no client's name files a job of some client under a client that
  does not exist; the containers agree afterwards exactly when it was not such a
  touch (`Machine.LocalJsm.Touch`, `Scenarios.TouchedAway`).
* The machine is not deterministic: the ready jobs are handed out while ranging
  over a map of tubes. All orders make a tick lead to the same state if and only
  if, once the due jobs are ready, no client is next in line at two tubes, that
  is, no further back in either queue than there are ready jobs
  (`Determinism.AgreeIff`); three operations from the empty machine lead to a
  state in which replicas part (`Determinism.ReplicasDiverge`). doc/Design.md
  asks for a deterministic machine.
* A restore does not set the time of the next delay, gives back ids of deleted
  jobs, reorders wait queues, and forgets idle tubes and clients without a timer
  (`Image.RestoredInv`, `Image.NextIdAgain`, `Image.RestoredExact`,
  `LifeCycle.IdReturns`; runs in `Scenarios`).
* The snapshot records do not give back the watched tubes, and keep only 32 bits
  of a time to run although 2^32-1 is documented as legal (`Records.StoreExact`,
  `Records.StoreInv`). A client that was waiting then waits in no queue, may not
  ask again, and gets no job whatever happens later (`Starvation.StoreStarves`).
* A read that fails for good, such as on a connection that was reset, is answered
  with an internal error and tried again, for ever. A connection ends exactly if
  its reader does not fail for good or the client has quit before
  (`Hangup.EndsIff`, `Hangup.ResetNeverEnds`).
* `Scan` may take the carriage return of a line it gives up on; then `Discard`
  swallows the next line as well. No sizes of the reads can bring this about
  exactly when the carriage return lies before the limit of `Scan`, or a whole
  read or more beyond it, if less than the limit is in the buffer
  (`Skipping.SkipsLineIff`, `Skipping.LineIff`, `Chunking.CommandSwallowed`).
* `Discard` forgets what it was given beyond the read that holds the line end
  (`Framing.DiscardKeeps`), so with the largest job at its usual size the sizes of
  the reads decide which commands are carried out (`Chunking.ReadsDecide`). The
  streams for which they decide nothing are known exactly (`Linewise.FramedIff`).
* The proxy lowers its recovery flag before a check that may fail. The clients
  that wait are then right exactly if the check came through or there was nobody
  to recover (`Proxy.RecoveredIff`); otherwise a client waits for ever
  (`Proxy.FailedCheckForgets`).

## Model

| member | source | states |
|---|---|---|
| `Heap.IndexedHeap.Swap` | state/job_heap.go:93-97 | two entries change places and both know their new position; nothing else moves |
| `Heap.IndexedHeap.Push` | state/job_heap.go:49-57 | adds exactly the entry, keeps heap order and every back-pointer |
| `Heap.IndexedHeap.Pop` | state/job_heap.go:59-66 | removes and returns the entry that is before all others; order and back-pointers stay right |
| `Heap.IndexedHeap.Remove` | state/job_heap.go:110-118 | heap.Remove of any position takes out exactly that entry |
| `Heap.IndexedHeap.RemoveAt` | state/job_heap.go:68-83 | the position an entry carries leads to the entry itself, so neither error is possible and just that entry goes |
| `Heap.IndexedHeap.Fix` | state/client_resv.go:138-141 | after one key changed, heap order is restored with the same entries |
| `Heap.IndexedHeap.Load` | state/client_resv.go:68-71 | slots filled from outside, every entry with the position of its slot |
| `Heap.IndexedHeap.Init` | state/client_resv.go:74-76 | makes a heap of any slots, and moves nothing if they already are one |
| `Heap.TopIsLeast` | state/job_heap.go:42-47 | the top of a heap is before every other entry |
| `Heap.PopAll` | state/job_heap.go:59-66 | popping a heap until it is empty gives its entries in their order: the sequence is a function of the set of entries |
| `Heap.PopBoth` | state/job_heap.go:135-148 | two heaps with the same entries, whatever their layout, are popped in the same sequence |
| `Heap.SortedAll` | state/job_heap.go:59-66 | that sequence has every entry once |
| `Heap.SortedOrder` | state/job_heap.go:139-145 | and each entry is before all later ones |
| `Machine.JobLessTotal` | state/job_heap.go:139-145 | the job orders are total on the entries that the index notes, ties broken by id |
| `Machine.ClientLessTotal` | state/client_resv.go:82-90 | the order of timers is total, ties broken by client id |
| `Queue.ClientQueue.Enqueue` | state/client_resv.go:181-189 | appends at the end, fails exactly for a client already there, list and index agree |
| `Queue.ClientQueue.Remove` | state/client_resv.go:210-226 | takes out the client and keeps the order of the others |
| `Queue.ClientQueue.Dequeue` | state/client_resv.go:232-245 | the head, which stays in the queue |
| `Outcomes.PutOutcome` | state/jsm.go:63-111 | put makes one job, every field as it was asked for, under the next id; all else stays but the bound on delays and, if it is new, the tube |
| `Outcomes.DeleteOutcome` | state/jsm.go:128-167 | delete refuses exactly unknown jobs and those reserved by others; else just the job goes, and the tube of a delayed job exactly if nothing is left in it |
| `Outcomes.ReleaseOutcome` | state/jsm.go:421-494 | exactly when release is refused and with which error; else just the record, every changed field given, and the bound on delays |
| `Outcomes.TimeoutOutcome` | state/jsm.go:421-457 | the same for the release on a timeout |
| `Outcomes.BuryOutcome` | state/jsm.go:525-555 | the same for bury |
| `Outcomes.KickOutcome` | state/jsm.go:557-581 | the same for kick |
| `Outcomes.TouchOutcome` | state/jsm.go:215-253 | the same for touch: just the expiry, and the timer of the holder, which goes off in time for it |
| `Invariant.PutInv` | state/jsm.go:63-111 | put keeps the invariant: containers, leases, timers, queues, the counter law and the bound on delays |
| `Invariant.DeleteInv` | state/jsm.go:128-167 | the intended delete keeps the invariant |
| `Invariant.ReleaseWithInv` | state/jsm.go:205-212 | so does release, with or without a delay |
| `Invariant.ReleaseInv` | state/jsm.go:199-202 | so does the release on a timeout |
| `Invariant.BuryInv` | state/jsm.go:525-555 | so does bury |
| `Invariant.KickInv` | state/jsm.go:557-581 | so does kick |
| `Invariant.TouchInv` | state/jsm.go:215-253 | touch keeps it if and only if it is not in no client's name on a job that a client holds, or the timer of that client, which such a touch leaves alone, goes off in time all the same |
| `Invariant.AppendReservationInv` | state/jsm.go:585-662 | so does a request: a client that waits is in the queue of every tube it watches and on the timer heap, no later than its deadline |
| `Invariant.MatchInv` | state/jsm.go:785-837 | so does giving a ready job to a waiting client |
| `Invariant.RetireInv` | state/jsm.go:997-1015 | so does taking a client out of its queues |
| `Invariant.ScheduleInv` | state/jsm.go:842-907 | setting the timer of a client re-establishes the invariant for it |
| `Invariant.TotalJobs` | state/index.go:286-300 | ready, delayed, buried and reserved jobs add up to the index |
| `Ticks.TickDelayInv` | state/jsm.go:721-761 | the scan of delayed jobs keeps the invariant, leaves no due job, and the time of the next delay is exactly that of the first one left |
| `Ticks.WakeInv` | state/jsm.go:928-991 | processing one client keeps the invariant |
| `Ticks.WakeOverdue` | state/jsm.go:920-991 | a processed client sleeps until now at least, so the overdue timers become one less: the loop ends |
| `TickFacts.GuardIsSafe` | state/jsm.go:666-669 | skipping the scan by the cached clock changes nothing about the jobs |
| `TickFacts.TickQuiet` | state/jsm.go:664-684 | after a tick no delayed job is due, no reservation is over, no deadline has passed, and no client still waits while a job of it is about to expire |
| `TickFacts.TickJobs` | state/jsm.go:664-684 | what a tick may do to each single job, field by field: a due job becomes ready, a ready job is given away for its time to run, a reservation that is over ends |
| `TickFacts.TickAnswers` | state/jsm.go:764-995 | a tick answers only waiting clients, each at most once and for its own request; exactly they stop waiting |
| `Answers.TickTruthful` | state/jsm.go:785-988 | every answer of a tick is true: a job comes with its size and body and is the client's from then on for its time to run; a timeout comes after the deadline and a warning before it, when a job of the client ends now, both without a job |
| `Answers.TickTells` | state/jsm.go:785-837 | every client that gets a job in a tick is told so |
| `Answers.TickInOrder` | state/job_heap.go:139-145 | a tick hands out the most urgent jobs of a tube: by smaller priority, then by smaller id |
| `Matching.WorkConserved` | state/jsm.go:764-783 | afterwards no tube has both a ready job and a waiting client |
| `Matching.NothingLeft` | state/jsm.go:664-684 | a tick that tells a client of a timeout or of a job about to end has given away every job that was available in the tubes the client watches |
| `Matching.QueuedIff` | state/jsm.go:585-662 | a request is refused exactly for a wait out of range or a client that waits already, and then changes nothing; it is queued, last in each queue and without a job, exactly when no tube it watches has a ready job; else it gets the most urgent job of the first such tube, with its size and body, for its time to run |
| `Determinism.AgreeIff` | state/jsm.go:664-783 | all orders of the tubes make a tick lead to the same state if and only if, once the due jobs are ready, no client is next in line at two tubes |
| `Determinism.OrderDoesNotMatter` | state/jsm.go:664-783 | then the ticks of any two orders also give the same answers |
| `Determinism.ReadyAgrees` | state/jsm.go:764-783 | so does the hand-out of ready jobs by itself |
| `Determinism.OrderMatters` | state/jsm.go:664-781 | a client next in line at two tubes gets a job of whichever is served first and no other, so the states after the tick differ, whatever tubes come after |
| `Determinism.PairsInLine` | state/jsm.go:768-780 | serving a tube matches exactly the clients next in line there |
| `Determinism.ReplicasDiverge` | state/jsm.go:664-783 | a state, three operations from the empty machine, in which the ticks of two orders part |
| `Runs.RunInv` | state/jsm.go:39-54 | the invariant holds in every state of every run, restores from the store included |
| `Runs.AnsweredAtMostOnce` | state/jsm.go:601-661 | over any run, restores included, a queued request waits or has had exactly one answer, with its own id and client |
| `Runs.AnsweredTruly` | state/jsm.go:764-988 | a request that waits no longer was answered by one tick of the run, with a job that became the client's, a timeout past its deadline, or a warning before it |
| `Runs.AnsweredByDeadline` | state/jsm.go:928-946 | it has had exactly one answer, and a true one, after the first tick past its deadline |
| `LifeCycle.StepJobs` | state/state.go:313-334 | each operation creates, removes and moves jobs only as the life cycle allows, every changed field given; a restore from the store loses none and changes no more than a body size of 2^31 or above |
| `LifeCycle.LeaseStep` | state/jsm.go:421-436 | a step ends a reservation if and only if it is delete by the holder, release or bury by the holder or in no client's name, or a tick after the expiry last set; else holder and expiry stay |
| `LifeCycle.LeaseRun` | state/jsm.go:951-969 | over any run a client loses a job only by such a step |
| `LifeCycle.LeaseStart` | state/jsm.go:496-523 | a client gets a job only by its own request or by a tick; the job was ready or due, and only its state, holder, expiry and count of reservations change, the expiry to now plus its time to run |
| `LifeCycle.ExpiryRun` | state/state.go:226-229 | over any run a held job expires its time to run after the last step that gave it away or in which its holder touched it |
| `LifeCycle.Provenance` | state/jsm.go:80-111 | over any run every job stems from one put: tube, body, time to run and creation are those of the put, and its priority that of the put or of the last release or bury |
| `LifeCycle.KickNFacts` | state/jsm.go:268-290 | kicks exactly the jobs buried earliest, ties by id, as many as asked or there are, and changes no other job |
| `LifeCycle.FreshIds` | state/jsm.go:58-61 | the id of a new job was never used before in the run, as long as no restore forgets the newest id |
| `LifeCycle.MaxJobIdStep` | state/jsm.go:58-61 | the largest id grows exactly by a put, by one, and falls exactly by a restore without the newest job |
| `LifeCycle.GivenOut` | state/jsm.go:58-61 | every id up to the largest was given out by a put of the run |
| `LifeCycle.IdReturns` | state/jsm.go:1074-1076 | after a restore that forgets the newest id, the next id is one that an earlier put of the run gave out, though never that of a live job |
| `Machine.LocalJsm.constructor` | state/jsm.go:39-54 | the empty machine is valid |
| `Machine.LocalJsm.EnsureTube` | state/index.go:102-120 | a missing tube is made with empty containers |
| `Machine.LocalJsm.Cleanup` | state/index.go:122-131 | a tube is dropped exactly when all its containers are empty |
| `Machine.LocalJsm.EntryPlaced` | state/index.go:9-12 | the entry that the index notes for a job is in the heap its record names, at the position it knows, and in no other heap |
| `Machine.LocalJsm.OnTopIff` | state/jsm.go:405-408 | that position is the top if and only if the job is the first of its container |
| `Machine.LocalJsm.File` | state/job_heap.go:49-57 | a new entry, never used before, in the heap; if the job belongs there, the containers agree as soon as the index notes this entry |
| `Machine.LocalJsm.EnqueueTubeJob` | state/index.go:133-155 | a new entry of the job in the one heap of its tube that its state names; the containers agree as soon as the index notes it |
| `Machine.LocalJsm.RemoveTubeJob` | state/index.go:169-185 | the noted entry of a ready or buried job leaves its heap |
| `Machine.LocalJsm.RemoveDelayedJob` | state/index.go:157-167 | a delayed job leaves its heap, and its tube goes if nothing is left in it |
| `Machine.LocalJsm.EnqueueReserved` | state/index.go:305-311 | a new entry of the job in the heap of the given client; the containers agree as soon as the index notes it, if this client holds the job |
| `Machine.LocalJsm.Settle` | state/jsm.go:366-373 | a job in no heap gets a record, enters the heap of its tube and the index notes the entry: the containers agree |
| `Machine.LocalJsm.RemoveReserved` | state/index.go:313-333 | the named job leaves the heap of its holder, by the shortcut at the top as well; no empty heap is kept |
| `Machine.LocalJsm.Put` | state/jsm.go:63-111 | puts the job under an id not in the index |
| `Machine.LocalJsm.MakeReady` | state/jsm.go:395-419 | makes a delayed job ready if it is the first of its tube, with every error case |
| `Machine.LocalJsm.FromReservedToReady` | state/jsm.go:421-457 | release now, on request or on a timeout, with every error case |
| `Machine.LocalJsm.FromReservedToDelayed` | state/jsm.go:459-494 | release with a delay, keeping the bound on delays |
| `Machine.LocalJsm.ReleaseWith` | state/jsm.go:205-212 | release keeps the containers in agreement and does what the specification says |
| `Machine.LocalJsm.Release` | state/jsm.go:199-202 | the timeout release does |
| `Machine.LocalJsm.Reserve` | state/jsm.go:496-523 | moves a ready job to the heap of its new holder, with every error case |
| `Machine.LocalJsm.Bury` | state/jsm.go:525-555 | bury does what the specification says, errors included |
| `Machine.LocalJsm.Kick` | state/jsm.go:557-581 | kick does; an id that is not in the index is refused in any state |
| `Machine.LocalJsm.KickN` | state/jsm.go:268-290 | the loop kicks what the specification says and returns how many; if a leftover entry is on top it fails and changes nothing |
| `Machine.LocalJsm.Touch` | state/jsm.go:215-253 | touch as written, errors included: the containers agree afterwards if and only if it was not in no client's name on a job that a client holds; else the job is filed under the empty client, with an error unless there is such a client |
| `Scenarios.TouchedAway` | state/jsm.go:215-253 | put and reserve a job, touch it in no client's name: its entry is filed under nobody and the caller gets an error |
| `Machine.LocalJsm.Delete` | state/jsm.go:128-167 | delete as written: the containers agree afterwards if and only if the job was not buried; else its entry stays in the heap, which is not touched, with a record that was reset |
| `Scenarios.DeletedStays` | state/jsm.go:128-167 | put, reserve, bury and delete a job: peek still shows it and a kick of the tube fails |
| `Machine.LocalJsm.DeleteRepaired` | state/jsm.go:145-161 | with the missing case the containers always agree |
| `Machine.LocalJsm.Top` | state/index.go:187-220 | the entry on top of a heap is the first job of its container in the order of that container |
| `Machine.LocalJsm.PeekTube` | state/jsm.go:169-186 | the first ready, delayed or buried job of a tube, or that there is none; a leftover entry on top is shown although its job is gone |
| `Machine.LocalJsm.SetNextTick` | state/jsm.go:842-907 | sets the timer to the first event that the heap of the client and its deadline give, moving it within, onto or off the heap, in any state of the other containers |
| `Machine.LocalJsm.UpdateClientTickAt` | state/jsm.go:842-907 | if the containers agree, that is the next event of the client, and they still agree |
| `Machine.LocalJsm.UnReserve` | state/jsm.go:997-1015 | the client leaves all its queues; it is in each of them |
| `Machine.LocalJsm.TryReserveJob` | state/jsm.go:785-837 | succeeds exactly on a tube with a waiting client and a ready job, and matches the first job with the given client or the head of the queue |
| `Machine.LocalJsm.AppendReservation` | state/jsm.go:585-662 | a request does what the specification says, errors included |
| `Machine.LocalJsm.TickDelayJobs` | state/jsm.go:721-761 | for every order of the tubes: all due jobs become ready, and the next delay is exact |
| `Machine.LocalJsm.TickReadyJobs` | state/jsm.go:764-783 | serves every tube once, in some order, as specified |
| `Machine.LocalJsm.TickClients` | state/jsm.go:915-995 | processes the overdue clients, first timer first, as specified, and ends |
| `Machine.LocalJsm.ReleaseLapsed` | state/jsm.go:951-988 | the reservations that are over end and at most one warning is given |
| `Machine.LocalJsm.Tick` | state/jsm.go:664-684 | the whole tick is the specified one for some order of the tubes, and keeps the containers in agreement |
| `Machine.LocalJsm.CheckClientState` | state/jsm.go:690-713 | sorts the clients asked about by what the machine knows |
| `ClientCheck.Classified` | state/jsm.go:690-713 | each of the three lists holds exactly the clients it names |
| `ClientCheck.ClassifySplits` | state/jsm.go:690-713 | distinct clients are split into three disjoint lists, none lost |
| `Machine.LocalJsm.TotalJobCounts` | state/index.go:286-300 | the lengths of the heaps of all tubes add up to the ready, delayed and buried jobs of the index |
| `Machine.LocalJsm.TotalReserved` | state/index.go:360-366 | the lengths of the heaps of all clients add up to the reserved jobs |
| `Image.RestoredInv` | state/jsm.go:1140-1147 | a restored machine satisfies the invariant if and only if the receiver's time of the next delay is no later than any delayed job |
| `Image.RestoredWaiters` | state/jsm.go:1128-1134 | every wait queue has the same clients after a restore |
| `Image.RestoredExact` | state/jsm.go:1068-1147 | a restore gives back the very same machine if and only if the newest job is live, every client has a timer, no tube is idle, queues are in order of arrival and the receiver had the same next delay |
| `Image.NextIdAgain` | state/jsm.go:1074-1076 | the next id is the same if and only if the newest job is live; else it is one no larger than the largest given out; it is never the id of a live job |
| `Scenarios.IdGivenTwice` | state/jsm.go:1074-1076 | put, delete, restore from the store, put: both jobs get the same id |
| `Scenarios.FreshReceiverForgetsDelay` | state/jsm.go:1140-1147 | a delayed job restored from the store into a fresh machine: the invariant is broken, and at no time does a tick scan the delayed jobs |
| `Scenarios.IdleForgotten` | state/jsm.go:1118-1138 | a request that times out leaves an idle tube and a client without a timer; a restore forgets both |
| `Image.QueueOrderLost` | state/client_resv.go:248-268 | a queue in the opposite of arrival order comes back swapped |
| `Scenarios.OvertakenSwapped` | state/client_resv.go:248-268 | four requests from the empty machine lead to a queue whose two clients a restore swaps |
| `Image.QueuesAre` | state/jsm.go:1118-1138 | queues rebuilt entry by entry are in order of arrival |
| `Snapshot.SnapshotJobs` | state/index.go:74-83 | lists every job of the index once |
| `Snapshot.SnapshotClients` | state/client_resv.go:248-268 | the clients on the timer heap in order of arrival, each with its position |
| `Snapshot.PositionsIntact` | state/client_resv.go:248-268 | the saved positions are a permutation of the slots |
| `Snapshot.RestoreJob` | state/jsm.go:1068-1089 | a job enters the index and the container it names, or the index alone if it names none; a second one with its id is refused |
| `Snapshot.RestoreJobs` | state/jsm.go:1051-1066 | all jobs, whatever their states, are restored if and only if their ids differ |
| `Snapshot.RestoreClient` | state/jsm.go:1118-1138 | a client enters the index and the queues it waits in, errors included |
| `Snapshot.RestoreClients` | state/jsm.go:1095-1116 | every slot of the timer heap is filled once, and heap.Init then moves nothing if the slots were a heap |
| `Snapshot.FinalizeRestore` | state/jsm.go:1140-1147 | the receiver takes over every container and keeps its own next delay |
| `Snapshot.Transfer` | state/jsm.go:1047-1147 | snapshot and restore with entries passed intact give the restored machine, with the same timer heap slot by slot; valid if and only if the next delay of the receiver allows it |
| `Records.JobRoundTrip` | store/snapshot.go:124-146 | a job survives its record if and only if time to run and body size fit 32 bits; all else always does |
| `Records.WrappedKeeps` | store/snapshot.go:256-357 | place, times and the counter law of a job survive its record |
| `Store.CreateFrom` | store/snapshot.go:157-181 | one record per client on the timer heap and per job |
| `Store.RestoreTo` | store/snapshot.go:183-250 | the receiver becomes what the records say |
| `Store.SaveAndRestore` | store/snapshot.go:20-49 | what comes out of writing and reading a snapshot, with the same timer heap slot by slot |
| `Records.StoreInv` | store/snapshot.go:183-198 | it satisfies the invariant if and only if every time to run is below 2^31 and the next delay of the receiver is early enough |
| `Records.StoreExact` | store/snapshot.go:200-228 | nothing is lost on the way if and only if all numbers fit 32 bits and no client on the timer heap watches a tube |
| `Scenarios.WatcherLost` | store/snapshot.go:213-223 | one request from the empty machine, and the records lose the queue of its tube |
| `Scenarios.LongRunLost` | store/snapshot.go:124-146 | a job with the legal time to run 2^31 comes back with a negative one, which breaks the invariant |
| `Starvation.StoreStrands` | store/snapshot.go:213-223 | every client that was waiting comes back waiting for no tube |
| `Starvation.StrandedRefused` | state/jsm.go:601-620 | such a client cannot make another request |
| `Starvation.StrandedStep` | state/jsm.go:664-995 | no operation gives it a job: it stays as it is, or one timeout or deadline-soon answer ends its wait |
| `Starvation.StrandedRun` | state/jsm.go:664-995 | over any run it is in no queue and without an answer until that one answer |
| `Starvation.StoreStarves` | store/snapshot.go:213-223 | so, whatever is done after a restore from the store in a run, the request a client made before it never gets a job, and the client is in no queue |
| `Framing.Split` | beanstalkd/core/parse.go:116-122 | cuts at the first delimiter, or finds that there is none |
| `Framing.Scan` | beanstalkd/core/parse.go:40-88 | the loop over the reader computes the specified scan, a failing read included, and leaves the specified rest of the stream |
| `Framing.ScanNetOk` | beanstalkd/core/parse.go:40-88 | for every chunking: left is all before the first delimiter of buffer and stream and no byte is lost; at the end of the stream there was no delimiter; when it gives up at least limit bytes had none; when a read fails all bytes read are lost |
| `Framing.ScanFinds` | beanstalkd/core/parse.go:58-85 | a line that ends within the limit is always found |
| `Framing.ScanFails` | beanstalkd/core/parse.go:58-87 | without a delimiter the answer depends on the number of bytes only; a line too long by one read is never found |
| `Framing.Discard` | beanstalkd/core/parse.go:8-38 | the loop over buffer and reader computes the specified skip, a failing read included |
| `Framing.DiscardNetOk` | beanstalkd/core/parse.go:8-38 | for every chunking: skips to the first delimiter, and which bytes after it are returned, left or forgotten |
| `Framing.DiscardKeeps` | beanstalkd/core/parse.go:8-38 | nothing is forgotten if and only if the delimiter ends in the last read of the given buffer or later |
| `Skipping.ForgetsBytes` | beanstalkd/core/parse.go:8-38 | given a line end and more than 1022 bytes, it returns 1022 of these and the others are gone |
| `Skipping.SkipsLineIff` | beanstalkd/core/parse.go:8-88 | whenever Scan gives up on a line Discard resumes at its end, for every chunking, if and only if no read of Scan can end with the carriage return of the line; in the other case the reads are exhibited |
| `Skipping.SwallowsNextLine` | beanstalkd/core/parse.go:82-87 | in that case there are reads with which Discard skips the whole next line too |
| `Skipping.SkipLine` | beanstalkd/proto/conn.go:140-245 | Scan, and Discard if it gave up, leave exactly what comes after the line, unless the carriage return can be taken |
| `Skipping.LineIff` | beanstalkd/core/parse.go:8-88 | a line is found or skipped as meant, whatever part of the first bytes was in the buffer and whatever the reads, if and only if it ends within the limit, or a whole read beyond it and beyond those bytes |
| `Connection.Conn.DoCommand` | beanstalkd/proto/conn.go:195-245 | one step on a command line, with reads that fail or bring nothing, is the step of the connection as a value |
| `Connection.Conn.DoData` | beanstalkd/proto/conn.go:162-193 | so is one step on the data of a command |
| `Connection.Conn.DoEndLine` | beanstalkd/proto/conn.go:140-160 | so is skipping the rest of a line |
| `Connection.Conn.DoClose` | beanstalkd/proto/conn.go:118-127 | so is the end of the stream, which is handed on as quit |
| `Connection.ActShrinks` | beanstalkd/proto/conn.go:248-258 | every step uses up bytes, reads or states, unless it meets an error that stays |
| `Connection.Conn.Tick` | beanstalkd/proto/conn.go:248-258 | any number of rounds of the loop makes at least as many steps, unless the connection has stopped |
| `Hangup.EndsIff` | beanstalkd/proto/conn.go:248-258 | a connection ends if and only if its reader does not fail for good or a quit command was handed on before |
| `Hangup.BreaksForEver` | beanstalkd/proto/conn.go:182-184 | once a read fails for good, n further steps give n internal errors and leave the state as it is |
| `Hangup.FarSteps` | beanstalkd/proto/conn.go:248-258 | after sufficiently many steps a connection has ended with all its events, or they are followed by errors only |
| `Hangup.ResetNeverEnds` | beanstalkd/proto/conn.go:211-213 | a connection that is reset at once is never closed |
| `Hangup.LosesBytes` | beanstalkd/core/parse.go:61-64 | the part of a line read before an error is dropped, even if the error passes |
| `Hangup.IdleKeeps` | beanstalkd/core/parse.go:66-69 | a read without a byte is answered with an error and loses nothing |
| `Meaning.FramedEvents` | beanstalkd/proto/conn.go:118-258 | for every chunking of a framed stream, closed or broken, the events are those that the bytes mean; lines that are too long are answered and skipped |
| `Linewise.FramedIff` | beanstalkd/proto/conn.go:118-258 | a connection begins every line where it is meant to begin, for every chunking, if and only if the stream is framed: each line fits, and after a job that is too big no byte of the buffer can lie beyond the read with the end of the skipped line |
| `Linewise.Strays` | beanstalkd/proto/conn.go:118-258 | for any other stream there are reads with which it does not |
| `Meaning.Serve` | beanstalkd/proto/conn.go:38-48 | a client is served until it quits, or its stream is closed, and for ever otherwise; the events are the same for every chunking of a framed stream |
| `Chunking.ReadsDecide` | beanstalkd/proto/conn.go:140-258 | a put, a put announced above the largest job of 16384 bytes and five hundred stats commands: two chunkings lead to different events, for every parser that knows these commands |
| `Chunking.FewCommands` | beanstalkd/proto/conn.go:140-258 | in one of them 145 of the stats commands are handed on |
| `Chunking.AllCommands` | beanstalkd/proto/conn.go:140-258 | in the other all but the one that is skipped |
| `Chunking.LineSwallowed` | beanstalkd/proto/conn.go:140-245 | for any parser, after a line that is too long by the right amount there are reads with which the next line is lost, whatever it is and whatever follows it |
| `Chunking.CommandSwallowed` | beanstalkd/proto/conn.go:140-245 | so a command after a line of 225 bytes is never handed on |
| `Dialogue.SentIsHanded` | beanstalkd/proto/conn.go:140-258 | requests mean what is to be done with each: a refused line is answered and the next one read, a job that is too big is answered and exactly its data skipped, a command is handed on with its data, and nothing after a quit |
| `Dialogue.RequestsServed` | beanstalkd/proto/conn.go:118-258 | that is what a connection does, in order and for every chunking, unless a job that is too big follows data whose scan can leave more than one read of Discard |
| `Proxy.Client.Add` | beanstalkd/proxy/client.go:601-608 | a queued request is entered once |
| `Proxy.Client.Remove` | beanstalkd/proxy/client.go:615-621 | a client leaves the set of waiting clients, or was not in it |
| `Proxy.Client.Deliver` | beanstalkd/proxy/client.go:359-372 | passes on the first answer to each waiting client and drops the others |
| `Proxy.Client.Tick` | beanstalkd/proxy/client.go:359-426 | for any answer of the server, or none, the tick is the step of the books |
| `Proxy.TickSays` | beanstalkd/proxy/client.go:359-424 | a tick passes on exactly the first answer to each waiting client, as it came, and exactly one kind of error, with no job and the nil request id, to the clients the server does not list as waiting |
| `Proxy.TickBalanced` | beanstalkd/proxy/client.go:359-426 | the clients that stop waiting are those answered, each once, if and only if the server's answer names no client twice and only clients it was asked about |
| `Proxy.SplitsFair` | beanstalkd/proxy/client.go:387-391 | an answer that splits the clients asked about is such a one |
| `Proxy.OnePerRequest` | beanstalkd/proxy/client.go:359-426 | over any run the queued requests are, client by client, the answers given and the clients that still wait |
| `Proxy.DeliveredIff` | beanstalkd/proxy/client.go:362-372 | an answer is passed on if and only if it is the first to a waiting client |
| `Proxy.DeliveredOnce` | beanstalkd/proxy/client.go:362-372 | no client gets two |
| `Proxy.RecoveredIff` | beanstalkd/proxy/client.go:375-424 | after a recovery the clients that wait are those of the server if and only if the check came through or there was nobody to recover |
| `Proxy.ForgottenRun` | beanstalkd/proxy/client.go:375-391 | a client nobody will ask about waits without an answer through any run, until the stream breaks again or an answer names it |
| `Proxy.FailedCheckForgets` | beanstalkd/proxy/client.go:387-391 | a failed check does that to every client it does not answer |
| `Proxy.NeverAsked` | beanstalkd/proxy/client.go:375-391 | queue, broken stream, failed check, good server: it is not asked, and the client waits on |
| `Proxy.ForgetsClient` | beanstalkd/proxy/client.go:359-391 | the same run on the proxy itself |

## Left out

- Raft, the log store, leadership and cluster membership: the log is taken as a sequence of operations.
- Protobuf encoding, gRPC, YAML statistics, logging, metrics and the per-command counters of the machine.
- The regular expressions that parse a command line: `Connection` takes the parser as a parameter, and so does not relate the length of a body to the size announced for it.
- Building the request out of a parsed command, its replies and the errors this can give: the model ends where a command is handed on.
- Goroutines, channels, locks and the timeouts of a restore: snapshots and answers are sequences.
- Clock, delay and time to run are bounded as documented (0 to 2^32-1, sums below math.MaxInt64), and job ids do not wrap at 2^64.
- Records of jobs and clients are values in the index where the source shares pointers: the change of a record inside a heap is an update of the index.
- Heap.IndexedHeap.RemoveAt: compares entries where the source compares the ids of their jobs; the position of an entry is kept in its heap.
- Queue.ClientQueue: a value that the machine reassigns, where the source has a linked list and a map that are changed in place.
- Runs.RunInv: runs delete with the repaired step, do not touch a held job in no client's name, and restore only what the records can hold into a receiver whose next delay is early enough; what happens otherwise is in the rows of `Machine.LocalJsm.Delete`, `Invariant.TouchInv` and `Records.StoreInv`.
- Machine.LocalJsm.AppendReservation: not for a request that names a tube twice, which makes the source panic.
- Snapshot.RestoreClients: only for lists of entries whose positions are a permutation and whose tubes differ; for others the source panics. The slots are filled aside and become the heap at the end.
- Store.SaveAndRestore: for at most 2^31 clients and ids below 2^64.
- Framing.Reader: after finitely many reads that are prescribed, each read gets what it can hold, until the stream is closed or fails for good; readers that return no bytes for ever are left out.
- Meaning.FramedEvents: one way only, because the parser is a parameter and lost bytes may happen to mean nothing; `Linewise.FramedIff` has both ways for the lines instead of the events.
- Connection.Conn.Tick: for a given number of rounds, since the loop of the source need not end.
- Fairness of requests that are served at once: a new request may be served before clients that wait.
