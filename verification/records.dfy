/** The records of jobs and clients that the store keeps, and what passing
    through them loses. */
module Records {
  import opened Types
  import opened Spec
  import opened Invariant
  import opened Ticks
  import opened Image

  // ----- records ----------------------------------------------------------

  const TWO_31 := 0x8000_0000
  const TWO_32 := 0x1_0000_0000
  const TWO_63 := 0x8000_0000_0000_0000
  const TWO_64 := 0x1_0000_0000_0000_0000

  // Conversion to a signed 32-bit integer.
  function I32(x: int): (r: int)
    ensures -TWO_31 <= r < TWO_31
    ensures r == x <==> -TWO_31 <= x < TWO_31
  {
    (x + TWO_31) % TWO_32 - TWO_31
  }

  // Conversions between unsigned and signed 64-bit integers.
  function I64(x: int): int {
    (x + TWO_63) % TWO_64 - TWO_63
  }

  function U64(x: int): nat {
    x % TWO_64
  }

  datatype JobProto = JobProto(
    id: int, priority: nat, delay: int, ttr: int, tube: TubeName, createdAt: int, readyAt: int, expiresAt: int,
    state: JobState, reservedBy: ClientId, bodySize: int, body: seq<bv8>, buriedAt: int,
    reserves: Counter, timeouts: Counter, releases: Counter, buries: Counter, kicks: Counter)

  function JobToJobProto(j: Job): JobProto {
    JobProto(I64(j.id), j.priority, j.delay, I32(j.ttr), j.tube, j.createdAt, j.readyAt, j.expiresAt,
             j.state, j.reservedBy, I32(j.bodySize), j.body, j.buriedAt,
             j.reserves, j.timeouts, j.releases, j.buries, j.kicks)
  }

  function NewJobFromJobProto(p: JobProto): Job {
    Job(U64(p.id), p.priority, p.delay, p.ttr, p.bodySize, p.body, p.tube, p.createdAt, p.readyAt,
        p.state, p.expiresAt, p.reservedBy, p.buriedAt, p.reserves, p.timeouts, p.releases, p.buries, p.kicks)
  }

  function Wrapped(j: Job): Job {
    NewJobFromJobProto(JobToJobProto(j))
  }

  // The time to run and the size of the body survive if they fit 32 bits.
  predicate Fits32(j: Job) {
    -TWO_31 <= j.ttr < TWO_31 && -TWO_31 <= j.bodySize < TWO_31
  }

  lemma JobRoundTrip(j: Job)
    requires j.id < TWO_64
    ensures Wrapped(j) == j.(ttr := I32(j.ttr), bodySize := I32(j.bodySize))
    ensures Wrapped(j) == j <==> Fits32(j)
  {
    assert U64(I64(j.id)) == j.id;
  }

  datatype ClientProto = ClientProto(
    id: ClientId, watched: seq<TubeName>, deadline: int, waiting: bool, tickAt: int, reqId: RequestId, heapIndex: int)

  function ToProto(e: Entry): ClientProto {
    ClientProto(e.id, e.client.watched, e.client.deadline, e.client.waiting, e.client.tickAt, e.client.reqId, I32(e.heapIndex))
  }

  // The watched tubes are not read back.
  function FromProto(p: ClientProto): Entry {
    Entry(p.id, Client([], p.deadline, p.waiting, p.tickAt, p.reqId), p.heapIndex)
  }

  datatype SnapshotProto = SnapshotProto(jobs: seq<JobProto>, reservations: seq<ClientProto>)

  // ----- the machine through the records ----------------------------------

  function Unwatched(clients: map<ClientId, Client>): map<ClientId, Client> {
    map c | c in clients :: clients[c].(watched := [])
  }

  function WrappedJobs(jobs: map<JobId, Job>): map<JobId, Job> {
    map id | id in jobs :: Wrapped(jobs[id])
  }

  function Wire(s: State): State {
    s.(jobs := WrappedJobs(s.jobs), clients := Unwatched(s.clients))
  }

  // Job ids are 64-bit numbers.
  ghost predicate Ids64(s: State) {
    Keyed(s.jobs) && forall id :: id in s.jobs ==> id < TWO_64
  }

  // Nobody is in any queue any more.
  lemma StoreQueues(s: State, at: int, t: TubeName)
    requires t in Restored(Wire(s), at).tubes
    ensures Restored(Wire(s), at).tubes[t] == []
  {
    KeptNone(Kept(s.roster, s.timers), Wanting(Kin(Wire(s)), t));
  }

  lemma StoreKin(s: State)
    ensures Kin(Wire(s)) == Unwatched(Kin(s))
  {
  }

  // The counters and the place of a job survive.
  lemma WrappedKeeps(j: Job)
    requires j.id < TWO_64
    ensures var w := Wrapped(j);
            && w.id == j.id && w.ttr == I32(j.ttr) && w.state == j.state && w.tube == j.tube
            && w.reservedBy == j.reservedBy && w.expiresAt == j.expiresAt && w.readyAt == j.readyAt
            && (CounterLaw(w) <==> CounterLaw(j))
  {
    JobRoundTrip(j);
  }

  lemma StoreLease(s: State, at: int, j: Job, w: Job)
    requires LeaseInv(s, j, {}) && w.expiresAt == j.expiresAt && w.reservedBy == j.reservedBy
    ensures LeaseInv(Restored(Wire(s), at), w, {})
  {
    StoreKin(s);
  }

  lemma StoreTube(s: State, at: int, id: JobId)
    requires id in s.jobs && InTube(Wrapped(s.jobs[id]))
    ensures Wrapped(s.jobs[id]).tube in Restored(Wire(s), at).tubes
  {
    assert Wire(s).jobs[id].tube in TubesOf(Wire(s).jobs);
  }

  lemma JobRead(s: State, s': State, id: JobId)
    requires id in s.jobs && JobInv(s, id, {}) && id in s'.jobs && id <= s'.maxJobId
    requires var j, w := s.jobs[id], s'.jobs[id];
             && w.id == j.id && w.ttr == I32(j.ttr) && w.state == j.state && w.tube == j.tube
             && w.reservedBy == j.reservedBy && w.readyAt == j.readyAt && (CounterLaw(w) <==> CounterLaw(j))
    requires if s'.jobs[id].state == Reserved then LeaseInv(s', s'.jobs[id], {}) else s'.jobs[id].tube in s'.tubes
    ensures JobInv(s', id, {}) <==>
              s.jobs[id].ttr < TWO_31 && (s.jobs[id].state == Delayed ==> s'.nextDelay <= s.jobs[id].readyAt)
  {
    hide CounterLaw, LeaseInv;
    assert 0 <= I32(s.jobs[id].ttr) <==> s.jobs[id].ttr < TWO_31;
  }

  lemma StoreJob(s: State, at: int, id: JobId)
    requires Inv(s) && Ids64(s) && id in s.jobs
    ensures JobInv(Restored(Wire(s), at), id, {}) <==>
              s.jobs[id].ttr < TWO_31 && (s.jobs[id].state == Delayed ==> at <= s.jobs[id].readyAt)
  {
    hide CounterLaw, InvBut, TubesOf, Kept, Kin, Wrapped;
    InvJob(s, id);
    WrappedKeeps(s.jobs[id]);
    StoreMax(s);
    if s.jobs[id].state == Reserved { StoreLease(s, at, s.jobs[id], Wrapped(s.jobs[id])); } else { StoreTube(s, at, id); }
    JobRead(s, Restored(Wire(s), at), id);
  }

  lemma StoreMax(s: State)
    ensures Wire(s).jobs.Keys == s.jobs.Keys && Largest(Wire(s).jobs.Keys) == Largest(s.jobs.Keys)
  {
    assert Wire(s).jobs.Keys == s.jobs.Keys;
  }

  // The machine that comes out satisfies the invariant exactly when no time to
  // run needs 32 bits and the receiver had noted a delay early enough.
  lemma StoreInv(s: State, at: int)
    requires Inv(s) && Ids64(s) && at <= MAX_TIME
    ensures Inv(Restored(Wire(s), at)) <==>
              DelaysFrom(s, at) && forall id :: id in s.jobs ==> s.jobs[id].ttr < TWO_31
  {
    hide JobInv;
    var s' := Restored(Wire(s), at);
    forall id | id in s.jobs
      ensures JobInv(s', id, {}) <==> s.jobs[id].ttr < TWO_31 && (s.jobs[id].state == Delayed ==> at <= s.jobs[id].readyAt)
    {
      StoreJob(s, at, id);
    }
    StoreRest(s, at);
  }

  lemma StoreClient(s: State, at: int, c: ClientId)
    requires Inv(s) && c in Restored(Wire(s), at).clients
    ensures ClientInv(Restored(Wire(s), at), c, {})
  {
    assert ClientInv(s, c, {});
  }

  lemma StoreRoster(s: State, at: int)
    requires Inv(s)
    ensures var s' := Restored(Wire(s), at);
            && s'.timers <= s'.clients.Keys && NoDup(s'.roster) && (forall c :: c in s'.roster <==> c in s'.clients)
            && s'.nextDelay == at && s'.jobs.Keys == s.jobs.Keys
  {
    KeptNoDup(s.roster, s.timers);
  }

  // Everything but the jobs is in order.
  lemma StoreRest(s: State, at: int)
    requires Inv(s) && at <= MAX_TIME
    ensures var s' := Restored(Wire(s), at);
            && s'.jobs.Keys == s.jobs.Keys
            && (Inv(s') <==> forall id :: id in s.jobs ==> JobInv(s', id, {}))
  {
    hide JobInv, ClientInv, Restored;
    var s' := Restored(Wire(s), at);
    forall c | c in s'.clients ensures ClientInv(s', c, {}) { StoreClient(s, at, c); }
    forall t | t in s'.tubes ensures TubeInv(s', t) { StoreQueues(s, at, t); }
    StoreRoster(s, at);
  }

  // Nothing is lost on the way exactly when every number fits and no client on
  // the timer heap watches a tube.
  lemma StoreExact(s: State, at: int)
    requires Inv(s) && Ids64(s)
    ensures Restored(Wire(s), at) == Restored(s, at) <==>
              && (forall id :: id in s.jobs ==> Fits32(s.jobs[id]))
              && (forall c :: c in s.timers ==> c in s.clients && s.clients[c].watched == [])
  {
    StoreJobsSame(s);
    StoreKin(s);
    if (forall id :: id in s.jobs ==> Fits32(s.jobs[id])) && forall c :: c in s.timers ==> c in s.clients && s.clients[c].watched == [] {
      assert Kin(Wire(s)) == Kin(s);
    } else if Restored(Wire(s), at) == Restored(s, at) {
      assert Kin(Wire(s)) == Kin(s);
      forall c | c in s.timers ensures c in s.clients && s.clients[c].watched == [] {
        assert Kin(Wire(s))[c].watched == [];
      }
    }
  }

  lemma StoreJobsSame(s: State)
    requires Ids64(s)
    ensures Wire(s).jobs == s.jobs <==> forall id :: id in s.jobs ==> Fits32(s.jobs[id])
  {
    forall id | id in s.jobs ensures Wire(s).jobs[id] == s.jobs[id] <==> Fits32(s.jobs[id]) { JobRoundTrip(s.jobs[id]); }
    if Wire(s).jobs == s.jobs {
      assert forall id :: id in s.jobs ==> Wire(s).jobs[id] == s.jobs[id];
    }
  }
}
