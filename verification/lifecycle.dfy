/** The life of a job: what each operation may do to it. */
module LifeCycle {
  import opened Types
  import opened Spec
  import opened Invariant
  import opened Ticks
  import opened TickFacts
  import opened Image
  import opened Records
  import opened Runs

  // What an operation may make of a job j: the arrows of the life-cycle
  // diagram, each with the operation that labels it and the fields it changes.
  ghost predicate Moves(op: Op, j: Job, j': Job) {
    j' == j ||
    match op
    case ReleaseOp(now, id, c, pri, delay) =>
      && j.id == id && j.state == Reserved && (c == "" || c == j.reservedBy)
      && j' == if delay == 0 then j.(state := Ready, reservedBy := "", priority := pri, releases := Inc(j.releases))
               else j.(state := Delayed, reservedBy := "", priority := pri, delay := delay, readyAt := now + delay,
                       releases := Inc(j.releases))
    case TouchOp(now, id, c) =>
      j.id == id && j.state == Reserved && j.reservedBy == c && j' == j.(expiresAt := now + j.ttr)
    case BuryOp(now, id, pri, c) =>
      && j.id == id && j.state == Reserved && (c == "" || c == j.reservedBy)
      && j' == j.(state := Buried, reservedBy := "", priority := pri, buriedAt := now, buries := Inc(j.buries))
    case KickOp(id) => j.id == id && j.state == Buried && Freed(j, j')
    case KickNOp(t, n) => n > 0 && j.tube == t && j.state == Buried && Freed(j, j')
    case ReserveOp(c, _, ts, now, _) => j.tube in ts && j.state == Ready && GivenTo(j, j', now, c)
    case TickOp(now, _) => JobTicks(j, j', now)
    case RestoreOp(_) => j' == j.(bodySize := I32(j.bodySize))
    case _ => false
  }

  // A buried job is kicked.
  predicate Freed(j: Job, j': Job) {
    j' == j.(state := Ready, buriedAt := 0, kicks := Inc(j.kicks))
  }

  // A job as it was put.
  predicate AsPut(op: Op, id: JobId, j: Job)
    requires op.PutOp?
  {
    && j.id == id && j.priority == op.pri && j.delay == op.delay && j.ttr == op.ttr && j.tube == op.tube
    && j.bodySize == op.bodySize && j.body == op.body && j.createdAt == op.now && j.readyAt == op.now + op.delay
    && j.state == (if op.delay > 0 then Delayed else Ready) && j.reservedBy == "" && j.expiresAt == 0 && j.buriedAt == 0
    && j.reserves == 0 && j.timeouts == 0 && j.releases == 0 && j.buries == 0 && j.kicks == 0
  }

  // The jobs that exist after a step: only put makes one, only delete by
  // someone entitled removes one.
  ghost function KeysAfter(s: State, op: Op): set<JobId> {
    match op
    case PutOp(_, _, _, _, _, _, _) => s.jobs.Keys + {s.maxJobId + 1}
    case DeleteOp(id, c) => if id in s.jobs && s.jobs[id].state == Reserved && s.jobs[id].reservedBy != c
                            then s.jobs.Keys else s.jobs.Keys - {id}
    case _ => s.jobs.Keys
  }

  ghost predicate JobsStep(s: State, op: Op, s': State) {
    && s'.jobs.Keys == KeysAfter(s, op)
    && (forall id :: id in s.jobs && id in s'.jobs ==> Moves(op, s.jobs[id], s'.jobs[id]))
    && (op.PutOp? ==> AsPut(op, s.maxJobId + 1, s'.jobs[s.maxJobId + 1]))
  }

  lemma PutDeleteJobs(s: State, op: Op)
    requires Inv(s) && OpOk(s, op) && (op.PutOp? || op.DeleteOp?)
    ensures JobsStep(s, op, Step(s, op).0)
  {
    forall id | id in s.jobs ensures id <= s.maxJobId { assert JobInv(s, id, {}); }
  }

  lemma LeaveJobs(s: State, op: Op)
    requires Inv(s) && OpOk(s, op) && (op.ReleaseOp? || op.BuryOp?)
    ensures JobsStep(s, op, Step(s, op).0)
  {
    if op.id in s.jobs { InvJob(s, op.id); }
    hide InvBut, JobInv, CounterLaw;
  }

  lemma KickJobs(s: State, op: Op)
    requires Inv(s) && OpOk(s, op) && op.KickOp?
    ensures JobsStep(s, op, Step(s, op).0)
  {
    if op.id in s.jobs { InvJob(s, op.id); }
    hide InvBut, JobInv, CounterLaw;
  }

  lemma TouchJobs(s: State, op: Op)
    requires Inv(s) && OpOk(s, op) && op.TouchOp?
    ensures JobsStep(s, op, Step(s, op).0)
  {
    InvKeyed(s, {});
  }

  lemma AppendJobs(s: State, c: ClientId, reqId: RequestId, ts: seq<TubeName>, now: int, deadline: int)
    requires Keyed(s.jobs)
    ensures var s' := AppendReservation(s, c, reqId, ts, now, deadline).0;
            || s'.jobs == s.jobs
            || exists id :: id in s.jobs && s.jobs[id].state == Ready && s.jobs[id].tube in ts
                            && s'.jobs == s.jobs[id := ReservedJob(s.jobs[id], now, c)]
  {
    hide Match, FirstReady;
    var s1 := Enroll(s, c, reqId, ts, deadline);
    FirstReadyHas(s1, ts);
    match FirstReady(s1, ts)
    case Some(t) => MatchJobs(s1, now, t, c);
    case None =>
  }

  lemma ReserveJobs(s: State, op: Op)
    requires Inv(s) && OpOk(s, op) && op.ReserveOp?
    ensures JobsStep(s, op, Step(s, op).0)
  {
    InvKeyed(s, {});
    AppendJobs(s, op.client, op.reqId, op.watched, op.now, op.deadline);
    hide InvBut, AppendReservation;
    var s' := AppendReservation(s, op.client, op.reqId, op.watched, op.now, op.deadline).0;
    assert Step(s, op).0 == s';
    GivenOnly(op, s.jobs, s'.jobs);
  }

  lemma GivenOnly(op: Op, jobs: map<JobId, Job>, jobs': map<JobId, Job>)
    requires op.ReserveOp?
    requires jobs' == jobs || exists id :: && id in jobs && jobs[id].state == Ready && jobs[id].tube in op.watched
                                           && jobs' == jobs[id := ReservedJob(jobs[id], op.now, op.client)]
    ensures jobs'.Keys == jobs.Keys && forall id :: id in jobs ==> Moves(op, jobs[id], jobs'[id])
  {
  }

  // Some buried jobs of a tube are kicked, all other jobs stay.
  predicate OnlyKicks(jobs: map<JobId, Job>, jobs': map<JobId, Job>, kicked: set<JobId>) {
    && jobs'.Keys == jobs.Keys && kicked <= jobs.Keys
    && forall id :: id in jobs ==> if id in kicked then Freed(jobs[id], jobs'[id]) else jobs'[id] == jobs[id]
  }

  lemma OneKick(s: State, t: TubeName, n: int) returns (id: JobId, s1: State)
    requires Keyed(s.jobs) && n > 0 && Next(s, InBuried(t)).Some?
    ensures Next(s, InBuried(t)) == Some(id) && Keyed(s1.jobs)
    ensures OnlyKicks(s.jobs, s1.jobs, {id}) && Contents(s1, InBuried(t)) == Contents(s, InBuried(t)) - {id}
    ensures s1 == Kick(s, id).0
  {
    id := Next(s, InBuried(t)).value;
    s1 := Kick(s, id).0;
  }

  // Job a was buried before job b, or at the same time and is older.
  predicate LongerBuried(a: Job, b: Job) {
    a.buriedAt < b.buriedAt || (a.buriedAt == b.buriedAt && a.id < b.id)
  }

  // ids are the longest buried jobs of the tube.
  ghost predicate FirstBuried(s: State, t: TubeName, ids: set<JobId>) {
    && ids <= Contents(s, InBuried(t))
    && forall a, b {:trigger LongerBuried(s.jobs[a], s.jobs[b])} ::
         a in ids && b in Contents(s, InBuried(t)) && b !in ids ==> LongerBuried(s.jobs[a], s.jobs[b])
  }

  lemma FirstAndRest(s: State, s1: State, t: TubeName, id: JobId, ids: set<JobId>)
    requires Keyed(s.jobs) && Next(s, InBuried(t)) == Some(id)
    requires OnlyKicks(s.jobs, s1.jobs, {id}) && Contents(s1, InBuried(t)) == Contents(s, InBuried(t)) - {id}
    requires FirstBuried(s1, t, ids)
    ensures FirstBuried(s, t, {id} + ids) && |{id} + ids| == |ids| + 1
  {
    assert id !in ids;
  }

  lemma KicksTwice(jobs: map<JobId, Job>, jobs1: map<JobId, Job>, jobs2: map<JobId, Job>, id: JobId, ids: set<JobId>)
    requires OnlyKicks(jobs, jobs1, {id}) && OnlyKicks(jobs1, jobs2, ids) && id !in ids
    ensures OnlyKicks(jobs, jobs2, {id} + ids)
  {
  }

  // From s to s' exactly the jobs in kicked are kicked: as many as n allows,
  // the longest buried ones.
  ghost predicate KicksExactly(s: State, t: TubeName, n: int, s': State, kicked: set<JobId>) {
    && FirstBuried(s, t, kicked) && OnlyKicks(s.jobs, s'.jobs, kicked)
    && |kicked| == KickCount(s, t, n)
  }

  lemma KicksNone(s: State, t: TubeName, n: int)
    requires n <= 0 || Contents(s, InBuried(t)) == {}
    ensures KicksExactly(s, t, n, s, {})
  {
  }

  lemma KicksOneMore(s: State, s1: State, t: TubeName, n: int, s': State, id: JobId, rest: set<JobId>)
    requires Keyed(s.jobs) && n > 0 && Next(s, InBuried(t)) == Some(id)
    requires OnlyKicks(s.jobs, s1.jobs, {id}) && Contents(s1, InBuried(t)) == Contents(s, InBuried(t)) - {id}
    requires KicksExactly(s1, t, n - 1, s', rest)
    ensures KicksExactly(s, t, n, s', {id} + rest)
  {
    FirstAndRest(s, s1, t, id, rest);
    KicksTwice(s.jobs, s1.jobs, s'.jobs, id, rest);
    assert |Contents(s1, InBuried(t))| == |Contents(s, InBuried(t))| - 1;
  }

  lemma {:induction false} KickNFacts(s: State, t: TubeName, n: int, s': State) returns (kicked: set<JobId>)
    requires Keyed(s.jobs) && s' == KickN(s, t, n)
    ensures KicksExactly(s, t, n, s', kicked)
    decreases n
  {
    if n <= 0 || Next(s, InBuried(t)).None? {
      kicked := {};
      KicksNone(s, t, n);
    } else {
      var id, s1 := OneKick(s, t, n);
      var rest := KickNFacts(s1, t, n - 1, s');
      kicked := {id} + rest;
      KicksOneMore(s, s1, t, n, s', id, rest);
    }
  }

  lemma KickNJobs(s: State, t: TubeName, n: int)
    requires Keyed(s.jobs)
    ensures KickN(s, t, n).jobs.Keys == s.jobs.Keys
    ensures forall id :: id in s.jobs ==> Moves(KickNOp(t, n), s.jobs[id], KickN(s, t, n).jobs[id])
  {
    var kicked := KickNFacts(s, t, n, KickN(s, t, n));
    KicksMove(s, t, n, kicked, KickN(s, t, n).jobs);
  }

  lemma KicksMove(s: State, t: TubeName, n: int, kicked: set<JobId>, jobs': map<JobId, Job>)
    requires FirstBuried(s, t, kicked) && OnlyKicks(s.jobs, jobs', kicked) && (n <= 0 ==> kicked == {})
    ensures forall id :: id in s.jobs ==> Moves(KickNOp(t, n), s.jobs[id], jobs'[id])
  {
    forall id | id in s.jobs ensures Moves(KickNOp(t, n), s.jobs[id], jobs'[id]) {
      assert id in kicked ==> id in Contents(s, InBuried(t));
    }
  }

  // A restore may only cut the size of a body.
  lemma RestoreJobs(s: State, at: int)
    requires Inv(s) && OpOk(s, RestoreOp(at))
    ensures JobsStep(s, RestoreOp(at), Restored(Wire(s), at))
  {
    StoreMax(s);
    forall id | id in s.jobs ensures Moves(RestoreOp(at), s.jobs[id], Wire(s).jobs[id]) {
      InvJob(s, id);
      JobRoundTrip(s.jobs[id]);
    }
  }

  // Every step moves every job along the life cycle, and loses none.
  lemma StepJobs(s: State, op: Op)
    requires Inv(s) && OpOk(s, op)
    ensures JobsStep(s, op, Step(s, op).0)
  {
    match op
    case PutOp(_, _, _, _, _, _, _) => PutDeleteJobs(s, op);
    case DeleteOp(_, _) => PutDeleteJobs(s, op);
    case ReleaseOp(_, _, _, _, _) => LeaveJobs(s, op);
    case BuryOp(_, _, _, _) => LeaveJobs(s, op);
    case KickOp(_) => KickJobs(s, op);
    case TouchOp(_, _, _) => TouchJobs(s, op);
    case ReserveOp(_, _, _, _, _) => ReserveJobs(s, op);
    case KickNOp(t, n) => InvKeyed(s, {}); KickNJobs(s, t, n);
    case TickOp(now, order) => TickJobs(s, now, order);
    case RestoreOp(at) => RestoreJobs(s, at);
  }

  // ----- the lease --------------------------------------------------------


  // The operations that end the reservation of a job: delete, release or bury
  // by its holder (or, for the last two, in no client's name), or a tick
  // after it has expired.
  predicate EndsLease(op: Op, j: Job) {
    match op
    case DeleteOp(id, c) => id == j.id && c == j.reservedBy
    case ReleaseOp(_, id, c, _, _) => id == j.id && Allowed(j, c)
    case BuryOp(_, id, _, c) => id == j.id && Allowed(j, c)
    case TickOp(now, _) => j.expiresAt < now
    case _ => false
  }

  predicate KeepsLease(op: Op, j: Job, j': Job) {
    && j'.state == Reserved && j'.reservedBy == j.reservedBy
    && j'.expiresAt == if op.TouchOp? && op.id == j.id && op.client == j.reservedBy then op.now + j.ttr else j.expiresAt
  }

  lemma MovesLease(op: Op, j: Job, j': Job)
    requires Moves(op, j, j') && j.state == Reserved && (op.TickOp? ==> JobTicks(j, j', op.now))
    requires (op.ReleaseOp? || op.BuryOp?) && EndsLease(op, j) ==> j' != j
    requires op.TouchOp? && op.id == j.id && op.client == j.reservedBy ==> j' == j.UpdateReservation(op.now)
    requires !(op.DeleteOp? && EndsLease(op, j))
    ensures if EndsLease(op, j) then j'.state != Reserved else KeepsLease(op, j, j')
  {
  }

  // The steps that end a lease, or extend it, are not refused.
  lemma LeaseExact(s: State, op: Op, id: JobId)
    requires Inv(s) && OpOk(s, op) && id in s.jobs && s.jobs[id].state == Reserved
    ensures id in Step(s, op).0.jobs <==> !(op.DeleteOp? && EndsLease(op, s.jobs[id]))
    ensures (op.ReleaseOp? || op.BuryOp?) && EndsLease(op, s.jobs[id]) ==> Step(s, op).0.jobs[id] != s.jobs[id]
    ensures op.TouchOp? && op.id == id && op.client == s.jobs[id].reservedBy ==>
              Step(s, op).0.jobs[id] == s.jobs[id].UpdateReservation(op.now)
  {
    assert JobInv(s, id, {});
    InvKeyed(s, {});
    StepJobs(s, op);
  }

  // A reservation ends exactly by such an operation; until then the expiry
  // moves only when the holder touches the job.
  lemma LeaseStep(s: State, op: Op, c: ClientId, id: JobId)
    requires Inv(s) && OpOk(s, op) && Holds(s, c, id)
    ensures Holds(Step(s, op).0, c, id) <==> !EndsLease(op, s.jobs[id])
    ensures Holds(Step(s, op).0, c, id) ==> KeepsLease(op, s.jobs[id], Step(s, op).0.jobs[id])
  {
    assert JobInv(s, id, {});
    StepJobs(s, op);
    LeaseExact(s, op, id);
    if op.TickOp? { TickJobs(s, op.now, op.order); }
    if id in Step(s, op).0.jobs {
      MovesLease(op, s.jobs[id], Step(s, op).0.jobs[id]);
    }
  }

  // Over any run, a job leaves its holder only by such an operation.
  lemma {:induction false} LeaseRun(states: seq<State>, ops: seq<Op>, i: nat, j: nat, c: ClientId, id: JobId)
    returns (k: nat)
    requires Run(states, ops) && i <= j <= |ops| && Holds(states[i], c, id)
    ensures i <= k <= j && Holds(states[k], c, id)
    ensures k == j || EndsLease(ops[k], states[k].jobs[id])
    decreases j
  {
    if i == j {
      k := j;
    } else {
      k := LeaseRun(states, ops, i, j - 1, c, id);
      if k == j - 1 {
        RunInv(states, ops, k);
        assert StepAt(states, ops, k);
        LeaseStep(states[k], ops[k], c, id);
        if !EndsLease(ops[k], states[k].jobs[id]) { k := j; }
      }
    }
  }

  // A client gets a job only by its own request or by a tick; the job was ready
  // or became so in this tick, and the client holds it for its time to run.
  lemma LeaseStart(s: State, op: Op, c: ClientId, id: JobId)
    requires Inv(s) && OpOk(s, op) && !Holds(s, c, id) && Holds(Step(s, op).0, c, id)
    ensures op.TickOp? || (op.ReserveOp? && op.client == c)
    ensures id in s.jobs && (s.jobs[id].state == Ready || (op.TickOp? && s.jobs[id].state == Delayed && s.jobs[id].readyAt < op.now))
    ensures GivenTo(s.jobs[id], Step(s, op).0.jobs[id], op.now, c)
  {
    StepJobs(s, op);
    hide Step, InvBut, OpOk, Moves;
    if id in s.jobs { MovesToHolder(op, s.jobs[id], Step(s, op).0.jobs[id], c); }
  }

  lemma MovesToHolder(op: Op, j: Job, j': Job, c: ClientId)
    requires Moves(op, j, j') && j'.state == Reserved && j'.reservedBy == c && !(j.state == Reserved && j.reservedBy == c)
    ensures op.TickOp? || (op.ReserveOp? && op.client == c)
    ensures j.state == Ready || (op.TickOp? && j.state == Delayed && j.readyAt < op.now)
    ensures GivenTo(j, j', op.now, c)
  {
  }

  // The step sets the expiry of the reservation of job id by client c.
  predicate SetsExpiry(s: State, op: Op, c: ClientId, id: JobId) {
    !Holds(s, c, id) || (op.TouchOp? && op.id == id && op.client == c)
  }

  lemma ExpiryStep(s: State, op: Op, c: ClientId, id: JobId)
    requires Inv(s) && OpOk(s, op) && Holds(Step(s, op).0, c, id)
    ensures var s' := Step(s, op).0;
            if SetsExpiry(s, op, c, id)
            then (op.TickOp? || op.ReserveOp? || op.TouchOp?) && s'.jobs[id].expiresAt == op.now + s'.jobs[id].ttr
            else s'.jobs[id].expiresAt == s.jobs[id].expiresAt && s'.jobs[id].ttr == s.jobs[id].ttr
  {
    if Holds(s, c, id) {
      InvJob(s, id);
      LeaseStep(s, op, c, id);
      StepJobs(s, op);
      hide Step, InvBut, OpOk, JobInv;
      MovesKeeps(op, s.jobs[id], Step(s, op).0.jobs[id]);
    } else {
      LeaseStart(s, op, c, id);
    }
  }

  // Over any run, a held job expires its time to run after the last step that
  // gave it to its holder or in which the holder touched it.
  lemma {:induction false} ExpiryRun(states: seq<State>, ops: seq<Op>, i: nat, j: nat, c: ClientId, id: JobId) returns (k: nat)
    requires Run(states, ops) && i < j <= |ops| && !Holds(states[i], c, id) && Holds(states[j], c, id)
    ensures i <= k < j && SetsExpiry(states[k], ops[k], c, id) && (ops[k].TickOp? || ops[k].ReserveOp? || ops[k].TouchOp?)
    ensures forall m :: k < m < j ==> Holds(states[m], c, id) && !SetsExpiry(states[m], ops[m], c, id)
    ensures states[j].jobs[id].expiresAt == ops[k].now + states[j].jobs[id].ttr
    decreases j
  {
    RunInv(states, ops, j - 1);
    assert StepAt(states, ops, j - 1);
    ExpiryStep(states[j - 1], ops[j - 1], c, id);
    if SetsExpiry(states[j - 1], ops[j - 1], c, id) {
      k := j - 1;
    } else {
      k := ExpiryRun(states, ops, i, j - 1, c, id);
    }
  }

  // ----- where a job comes from -------------------------------------------

  // What no operation changes, and what changes a priority.
  lemma MovesKeeps(op: Op, j: Job, j': Job)
    requires Moves(op, j, j')
    ensures j'.id == j.id && j'.ttr == j.ttr && j'.body == j.body && j'.tube == j.tube && j'.createdAt == j.createdAt
    ensures j'.bodySize == j.bodySize || (op.RestoreOp? && j'.bodySize == I32(j.bodySize))
    ensures j'.priority == j.priority || ((op.ReleaseOp? || op.BuryOp?) && op.id == j.id && j'.priority == op.pri)
  {
  }

  // From j to j' nothing changes but what the step op may change.
  predicate Continues(op: Op, j: Job, j': Job) {
    && j'.id == j.id && j'.ttr == j.ttr && j'.body == j.body && j'.tube == j.tube && j'.createdAt == j.createdAt
    && (j'.bodySize == j.bodySize || j'.bodySize == I32(j.bodySize))
    && (j'.priority == j.priority || ((op.ReleaseOp? || op.BuryOp?) && op.id == j.id && j'.priority == op.pri))
  }

  // A job after a step was there before, or has just been put.
  lemma BornOrKept(states: seq<State>, ops: seq<Op>, j: nat, id: JobId)
    requires Run(states, ops) && j < |ops| && id in states[j + 1].jobs
    ensures if id in states[j].jobs
            then states[j].jobs[id].id == id && Continues(ops[j], states[j].jobs[id], states[j + 1].jobs[id])
            else ops[j].PutOp? && states[j].maxJobId + 1 == id && AsPut(ops[j], id, states[j + 1].jobs[id])
  {
    RunInv(states, ops, j);
    assert StepAt(states, ops, j);
    StepJobs(states[j], ops[j]);
    hide Step, OpOk, Moves;
    if id in states[j].jobs {
      InvJob(states[j], id);
      MovesKeeps(ops[j], states[j].jobs[id], states[j + 1].jobs[id]);
    }
  }

  // What job x has from its put.
  predicate Stems(op: Op, x: Job)
    requires op.PutOp?
  {
    && x.tube == op.tube && x.body == op.body && x.ttr == op.ttr && x.createdAt == op.now
    && (x.bodySize == op.bodySize || x.bodySize == I32(op.bodySize))
  }

  // The step gives job id the priority that it has.
  predicate Ranks(op: Op, id: JobId, x: Job) {
    (op.PutOp? || ((op.ReleaseOp? || op.BuryOp?) && op.id == id)) && x.priority == op.pri
  }

  // Every job of a run is one that was put: its tube, body, time to run and
  // time of creation are those of the put, and so is its priority up to the
  // last release or bury of the job. (A restore cuts the size of its body.)
  lemma {:induction false} Provenance(states: seq<State>, ops: seq<Op>, j: nat, id: JobId) returns (k: nat, p: nat)
    requires Run(states, ops) && states[0] == EMPTY && j <= |ops| && id in states[j].jobs
    ensures k <= p < j && ops[k].PutOp? && states[k].maxJobId + 1 == id && (ops[p].PutOp? ==> p == k)
    ensures Stems(ops[k], states[j].jobs[id])
    ensures forall m :: k < m <= j ==> id in states[m].jobs
    ensures forall m :: p < m <= j ==> Ranks(ops[p], id, states[m].jobs[id])
    decreases j
  {
    assert EMPTY.jobs == map[];
    hide Run, AsPut, Continues, Stems, Ranks;
    BornOrKept(states, ops, j - 1, id);
    if id !in states[j - 1].jobs {
      k, p := j - 1, j - 1;
      StemsFirst(ops[k], id, states[j].jobs[id]);
    } else {
      k, p := Provenance(states, ops, j - 1, id);
      StemsOn(ops[k], ops[p], ops[j - 1], id, states[j - 1].jobs[id], states[j].jobs[id]);
      if !Ranks(ops[p], id, states[j].jobs[id]) { p := j - 1; }
    }
  }

  lemma StemsFirst(op: Op, id: JobId, x: Job)
    requires op.PutOp? && AsPut(op, id, x)
    ensures Stems(op, x) && Ranks(op, id, x)
  {
  }

  lemma StemsOn(put: Op, rank: Op, op: Op, id: JobId, x: Job, x': Job)
    requires put.PutOp? && Stems(put, x) && Ranks(rank, id, x) && x.id == id && Continues(op, x, x')
    ensures Stems(put, x') && (Ranks(rank, id, x') || (Ranks(op, id, x') && !op.PutOp?))
  {
  }

  // ----- ids --------------------------------------------------------------

  // The step does not forget the newest id: only a restore without the newest
  // job does.
  predicate KeepsIds(s: State, op: Op) {
    op.RestoreOp? ==> s.maxJobId == 0 || s.maxJobId in s.jobs
  }

  // The largest id grows exactly by the puts, and falls exactly by the restores
  // that forget.
  lemma MaxJobIdStep(s: State, op: Op)
    requires Inv(s) && OpOk(s, op)
    ensures var m := Step(s, op).0.maxJobId;
            && (op.PutOp? <==> m > s.maxJobId) && (op.PutOp? ==> m == s.maxJobId + 1)
            && (KeepsIds(s, op) <==> m >= s.maxJobId)
  {
    hide InvBut, Filed, CounterLaw, Restored, Wire;
    if op.RestoreOp? { RestoreMax(s, op.at); }
  }

  lemma RestoreMax(s: State, at: int)
    requires Inv(s)
    ensures var m := Restored(Wire(s), at).maxJobId;
            m <= s.maxJobId && (m == s.maxJobId <==> s.maxJobId == 0 || s.maxJobId in s.jobs)
  {
    StoreMax(s);
    LargestIs(s);
  }

  // As long as no restore forgets the newest id, the id of a new job was never
  // used before in the run.
  lemma {:induction false} FreshIds(states: seq<State>, ops: seq<Op>, i: nat, j: nat)
    requires Run(states, ops) && i <= j <= |ops|
    requires forall k :: i <= k < j ==> KeepsIds(states[k], ops[k])
    ensures states[i].maxJobId <= states[j].maxJobId
    ensures states[j].maxJobId + 1 !in states[i].jobs
    decreases j
  {
    RunInv(states, ops, i);
    if i < j {
      FreshIds(states, ops, i, j - 1);
      RunInv(states, ops, j - 1);
      assert StepAt(states, ops, j - 1);
      MaxJobIdStep(states[j - 1], ops[j - 1]);
    }
    forall id | id in states[i].jobs ensures id <= states[i].maxJobId {
      InvJob(states[i], id);
    }
  }

  // Every id up to the largest was given out by a put of the run.
  lemma {:induction false} GivenOut(states: seq<State>, ops: seq<Op>, j: nat, id: JobId) returns (k: nat)
    requires Run(states, ops) && states[0] == EMPTY && j <= |ops| && 1 <= id <= states[j].maxJobId
    ensures k < j && ops[k].PutOp? && states[k].maxJobId + 1 == id
    decreases j
  {
    RunInv(states, ops, j - 1);
    assert StepAt(states, ops, j - 1);
    MaxJobIdStep(states[j - 1], ops[j - 1]);
    if id <= states[j - 1].maxJobId {
      k := GivenOut(states, ops, j - 1, id);
    } else {
      k := j - 1;
    }
  }

  // After a restore that forgets the newest id, the next put gives out an id
  // that an earlier put of the run gave out; it is never the id of a live job.
  lemma IdReturns(states: seq<State>, ops: seq<Op>, j: nat) returns (k: nat)
    requires Run(states, ops) && states[0] == EMPTY && j < |ops| && !KeepsIds(states[j], ops[j])
    ensures k < j && ops[k].PutOp? && states[k].maxJobId + 1 == states[j + 1].maxJobId + 1
    ensures states[j + 1].maxJobId + 1 !in states[j + 1].jobs
  {
    RunInv(states, ops, j);
    assert StepAt(states, ops, j);
    MaxJobIdStep(states[j], ops[j]);
    k := GivenOut(states, ops, j, states[j + 1].maxJobId + 1);
    RunInv(states, ops, j + 1);
    var s := states[j + 1];
    forall id | id in s.jobs ensures id <= s.maxJobId { InvJob(s, id); }
  }
}
