/** The job state machine as a value: what every operation does, said without
    heaps, queues of pointers or caches.

    A job is in the container its own record names, so the containers of the
    machine are derived here and not stored. */
module Spec {
  import opened Types

  datatype Client = Client(
    watched: seq<TubeName>,
    deadline: int,
    waiting: bool,
    tickAt: int,
    reqId: RequestId)

  // jobs:     every live job
  // tubes:    the existing tubes, each with its queue of waiting clients
  // clients:  every known client; roster is their order of arrival
  // timers:   the clients on the timer heap
  datatype State = State(
    maxJobId: nat,
    jobs: map<JobId, Job>,
    tubes: map<TubeName, seq<ClientId>>,
    clients: map<ClientId, Client>,
    roster: seq<ClientId>,
    timers: set<ClientId>,
    nextDelay: int)

  const EMPTY := State(0, map[], map[], map[], [], {}, MAX_TIME)

  // ----- containers -------------------------------------------------------

  // The jobs whose record names container p.
  function Filed(jobs: map<JobId, Job>, p: Place): set<JobId> {
    set id | id in jobs && jobs[id].Place() == p
  }

  ghost function Contents(s: State, p: Place): set<JobId> {
    Filed(s.jobs, p)
  }

  ghost predicate IsLeast(jobs: map<JobId, Job>, ids: set<JobId>, o: Order, id: JobId)
    requires ids <= jobs.Keys
  {
    id in ids && forall k :: k in ids && k != id ==> jobs[id].Before(o, jobs[k])
  }

  // Every key of the map is the id of its job.
  ghost predicate Keyed(jobs: map<JobId, Job>) {
    forall id :: id in jobs ==> jobs[id].id == id
  }

  lemma {:induction false} LeastExists(jobs: map<JobId, Job>, ids: set<JobId>, o: Order)
    requires ids != {} && ids <= jobs.Keys && Keyed(jobs)
    ensures exists id :: IsLeast(jobs, ids, o, id)
    decreases ids
  {
    var x :| x in ids;
    var rest := ids - {x};
    if rest == {} {
      assert ids == {x};
      assert IsLeast(jobs, ids, o, x);
    } else {
      LeastExists(jobs, rest, o);
      var y :| IsLeast(jobs, rest, o, y);
      assert forall k :: k in ids <==> k == x || k in rest;
      if jobs[x].Before(o, jobs[y]) {
        assert IsLeast(jobs, ids, o, x);
      } else {
        assert IsLeast(jobs, ids, o, y);
      }
    }
  }

  ghost function Least(jobs: map<JobId, Job>, ids: set<JobId>, o: Order): (id: JobId)
    requires ids != {} && ids <= jobs.Keys && Keyed(jobs)
    ensures IsLeast(jobs, ids, o, id)
  {
    LeastExists(jobs, ids, o);
    var id :| IsLeast(jobs, ids, o, id);
    id
  }

  lemma LeastUnique(jobs: map<JobId, Job>, ids: set<JobId>, o: Order, a: JobId, b: JobId)
    requires ids <= jobs.Keys && IsLeast(jobs, ids, o, a) && IsLeast(jobs, ids, o, b)
    ensures a == b
  {
  }

  // The first job of a container, if it has one.
  ghost function Next(s: State, p: Place): (r: Option<JobId>)
    requires Keyed(s.jobs)
    ensures r.None? <==> Contents(s, p) == {}
    ensures r.Some? ==> IsLeast(s.jobs, Contents(s, p), OrderOf(p), r.value)
  {
    if Contents(s, p) == {} then None else Some(Least(s.jobs, Contents(s, p), OrderOf(p)))
  }

  // ----- tubes ------------------------------------------------------------

  function EnsureTube(s: State, t: TubeName): State {
    if t in s.tubes then s else s.(tubes := s.tubes[t := []])
  }

  // A tube with nothing in it is dropped.
  ghost function Cleanup(s: State, t: TubeName): State {
    if && t in s.tubes && s.tubes[t] == []
       && Contents(s, InReady(t)) == {} && Contents(s, InDelayed(t)) == {} && Contents(s, InBuried(t)) == {}
    then s.(tubes := s.tubes - {t})
    else s
  }

  // ----- job transitions --------------------------------------------------

  function SetJob(s: State, j: Job): State {
    s.(jobs := s.jobs[j.id := j])
  }

  // A job put (back) into one of the containers of its tube.
  function SetTubeJob(s: State, j: Job): State {
    EnsureTube(SetJob(s, j), j.tube)
  }

  function NewJob(id: JobId, now: int, pri: nat, delay: int, ttr: int,
                  bodySize: int, body: seq<bv8>, t: TubeName): Job {
    Job(id, pri, delay, ttr, bodySize, body, t, now, now + delay,
        if delay > 0 then Delayed else Ready, 0, "", 0, 0, 0, 0, 0, 0)
  }

  function Min(a: int, b: int): int {
    if a < b then a else b
  }

  function Put(s: State, now: int, pri: nat, delay: int, ttr: int,
               bodySize: int, body: seq<bv8>, t: TubeName): (State, JobId) {
    var id := s.maxJobId + 1;
    var j := NewJob(id, now, pri, delay, ttr, bodySize, body, t);
    var s1 := s.(maxJobId := id, nextDelay := if delay > 0 then Min(s.nextDelay, j.readyAt) else s.nextDelay);
    (SetTubeJob(s1, j), id)
  }

  function Unreserved(j: Job, newState: JobState): Job {
    j.UpdateState(newState).(reservedBy := "")
  }

  function Released(j: Job, pri: nat): Job {
    Unreserved(j, Ready).(priority := pri, releases := Inc(j.releases))
  }

  function ReleasedLater(j: Job, now: int, pri: nat, delay: int): Job {
    Unreserved(j, Delayed).(priority := pri, delay := delay, readyAt := now + delay, releases := Inc(j.releases))
  }

  function TimedOut(j: Job): Job {
    Unreserved(j, Ready).(timeouts := Inc(j.timeouts))
  }

  function BuriedJob(j: Job, now: int, pri: nat): Job {
    Unreserved(j, Buried).(priority := pri, buriedAt := now, buries := Inc(j.buries))
  }

  function Kicked(j: Job): Job {
    j.(state := Ready, buriedAt := 0, kicks := Inc(j.kicks))
  }

  function Undelayed(j: Job): Job {
    j.(state := Ready)
  }

  function ReservedJob(j: Job, now: int, c: ClientId): Job {
    j.UpdateState(Reserved).(expiresAt := now + j.ttr, reservedBy := c, reserves := Inc(j.reserves))
  }

  // Who may end or extend the reservation of a job: its holder, or an
  // operation that names no client.
  predicate Allowed(j: Job, c: ClientId) {
    c == "" || j.reservedBy == c
  }

  ghost function Delete(s: State, id: JobId, c: ClientId): (State, Result<()>) {
    if id !in s.jobs then (s, Err(EntryMissing))
    else if s.jobs[id].state == Reserved && s.jobs[id].reservedBy != c then (s, Err(UnauthorizedOperation))
    else
      var s1 := s.(jobs := s.jobs - {id});
      (if s.jobs[id].state == Delayed then Cleanup(s1, s.jobs[id].tube) else s1, Ok(()))
  }

  // The checks shared by release and bury.
  function Leave(s: State, id: JobId, c: ClientId): Result<Job> {
    if id !in s.jobs then Err(EntryMissing)
    else if s.jobs[id].state != Reserved then Err(InvalidJobTransition)
    else if !Allowed(s.jobs[id], c) then Err(UnauthorizedOperation)
    else Ok(s.jobs[id])
  }

  function ReleaseWith(s: State, now: int, id: JobId, c: ClientId, pri: nat, delay: int): (State, Result<()>) {
    match Leave(s, id, c)
    case Err(e) => (s, Err(e))
    case Ok(j) =>
      if delay == 0 then (SetTubeJob(s, Released(j, pri)), Ok(()))
      else (SetTubeJob(s, ReleasedLater(j, now, pri, delay)).(nextDelay := Min(s.nextDelay, now + delay)), Ok(()))
  }

  function Release(s: State, id: JobId, c: ClientId): (State, Result<()>) {
    match Leave(s, id, c)
    case Err(e) => (s, Err(e))
    case Ok(j) => (SetTubeJob(s, TimedOut(j)), Ok(()))
  }

  function Bury(s: State, now: int, id: JobId, pri: nat, c: ClientId): (State, Result<()>) {
    match Leave(s, id, c)
    case Err(e) => (s, Err(e))
    case Ok(j) => (SetTubeJob(s, BuriedJob(j, now, pri)), Ok(()))
  }

  function Kick(s: State, id: JobId): (State, Result<()>) {
    if id !in s.jobs then (s, Err(EntryMissing))
    else if s.jobs[id].state != Buried then (s, Err(InvalidJobTransition))
    else (SetTubeJob(s, Kicked(s.jobs[id])), Ok(()))
  }

  // Kick the first buried job of a tube, at most n times.
  ghost function KickN(s: State, t: TubeName, n: int): (s': State)
    requires Keyed(s.jobs)
    ensures s'.clients == s.clients && s'.maxJobId == s.maxJobId
    decreases n
  {
    if n <= 0 || Next(s, InBuried(t)).None? then s
    else KickN(Kick(s, Next(s, InBuried(t)).value).0, t, n - 1)
  }

  // How many jobs that kicks.
  ghost function KickCount(s: State, t: TubeName, n: int): nat {
    if n <= 0 then 0 else Min(n, |Contents(s, InBuried(t))|)
  }

  ghost function Touch(s: State, now: int, id: JobId, c: ClientId): (State, Result<()>)
    requires Keyed(s.jobs)
  {
    if id !in s.jobs then (s, Err(EntryMissing))
    else if s.jobs[id].state != Reserved then (s, Err(InvalidOperation))
    else if !Allowed(s.jobs[id], c) then (s, Err(UnauthorizedOperation))
    else
      var s1 := SetJob(s, s.jobs[id].UpdateReservation(now));
      if c !in s.clients then (s1, Err(EntryMissing)) else (Schedule(s1, c), Ok(()))
  }

  // A touch in no client's name is for a job that is reserved by nobody else.
  predicate OwnTouch(s: State, id: JobId, c: ClientId) {
    c == "" && id in s.jobs && s.jobs[id].state == Reserved ==> s.jobs[id].reservedBy == ""
  }

  // ----- clients ----------------------------------------------------------

  // The earliest time at which something happens to a client.
  ghost function NextEvent(s: State, c: ClientId): int
    requires Keyed(s.jobs) && c in s.clients
  {
    var held := Next(s, HeldBy(c));
    var waiting := s.clients[c].waiting;
    var expiry := if held.None? then MAX_TIME
                  else Min(MAX_TIME, if waiting then s.jobs[held.value].expiresAt - 1 else s.jobs[held.value].expiresAt);
    if waiting then Min(expiry, s.clients[c].deadline) else expiry
  }

  // Set the timer of a client to its next event.
  ghost function Schedule(s: State, c: ClientId): State
    requires Keyed(s.jobs) && c in s.clients
  {
    ScheduleAt(s, c, NextEvent(s, c))
  }

  // A client on the timer heap with nothing to wait for is forgotten.
  ghost function ScheduleAt(s: State, c: ClientId, at: int): State
    requires c in s.clients
  {
    if at < MAX_TIME then
      s.(clients := s.clients[c := s.clients[c].(tickAt := at)], timers := s.timers + {c})
    else if c in s.timers then
      s.(clients := s.clients - {c}, roster := Without(s.roster, c), timers := s.timers - {c})
    else
      s.(clients := s.clients[c := s.clients[c].(tickAt := at)])
  }

  // Take a client out of the wait queues of all tubes it watches.
  function Retire(s: State, c: ClientId): State
    requires c in s.clients
  {
    var cli := s.clients[c];
    s.(clients := s.clients[c := cli.(waiting := false, deadline := MAX_TIME)],
       tubes := map t | t in s.tubes :: if t in cli.watched then Without(s.tubes[t], c) else s.tubes[t])
  }

  // Give the first ready job of a tube to a client.
  ghost function Match(s: State, now: int, t: TubeName, c: ClientId): (State, Reservation)
    requires Keyed(s.jobs) && c in s.clients
    requires Next(s, InReady(t)).Some?
  {
    var j := s.jobs[Next(s, InReady(t)).value];
    var s1 := Retire(SetJob(s, ReservedJob(j, now, c)), c);
    (Schedule(s1, c), Reservation(s.clients[c].reqId, c, j.id, Matched, j.bodySize, j.body))
  }

  function Answer(s: State, c: ClientId, status: ResvStatus): Reservation
    requires c in s.clients
  {
    Reservation(s.clients[c].reqId, c, 0, status, 0, [])
  }

  // Append c to the wait queue of every tube in ts.
  function Enqueue(tubes: map<TubeName, seq<ClientId>>, ts: seq<TubeName>, c: ClientId): map<TubeName, seq<ClientId>> {
    map t | t in tubes.Keys + (set t | t in ts) ::
      if t !in ts then tubes[t] else if t in tubes then tubes[t] + [c] else [c]
  }

  // Make c wait for a job of any of the tubes ts.
  function Enroll(s: State, c: ClientId, reqId: RequestId, ts: seq<TubeName>, deadline: int): State {
    var tickAt := if c in s.clients then s.clients[c].tickAt else 0;
    s.(clients := s.clients[c := Client(ts, deadline, true, tickAt, reqId)],
       roster := if c in s.clients then s.roster else s.roster + [c],
       tubes := Enqueue(s.tubes, ts, c))
  }

  // The first tube of ts that has a ready job.
  ghost function FirstReady(s: State, ts: seq<TubeName>): Option<TubeName> {
    if ts == [] then None
    else if Contents(s, InReady(ts[0])) != {} then Some(ts[0])
    else FirstReady(s, ts[1..])
  }

  ghost function AppendReservation(s: State, c: ClientId, reqId: RequestId, ts: seq<TubeName>,
                                   now: int, deadline: int): (State, Result<Reservation>)
    requires Keyed(s.jobs)
  {
    if deadline < now || deadline > now + MAX_TIMEOUT_SECS then (s, Err(InvalidResvTimeout))
    else if c in s.clients && s.clients[c].waiting then (s, Err(ClientIsWaitingForReservation))
    else
      var s1 := Enroll(s, c, reqId, ts, deadline);
      match FirstReady(s1, ts)
      case Some(t) => FirstReadyHas(s1, ts); var (s2, r) := Match(s1, now, t, c); (s2, Ok(r))
      case None => (Schedule(s1, c), Ok(Answer(s1, c, Queued)))
  }

  lemma {:induction false} FirstReadyHas(s: State, ts: seq<TubeName>)
    ensures FirstReady(s, ts).Some? ==>
              FirstReady(s, ts).value in ts && Contents(s, InReady(FirstReady(s, ts).value)) != {}
    ensures FirstReady(s, ts).None? <==> forall t :: t in ts ==> Contents(s, InReady(t)) == {}
  {
    if ts != [] {
      FirstReadyHas(s, ts[1..]);
      assert forall t :: t in ts <==> t == ts[0] || t in ts[1..];
    }
  }
}
