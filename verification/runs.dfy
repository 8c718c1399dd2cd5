/** Whole runs of the machine: a log of operations applied one by one. */
module Runs {
  import opened Types
  import opened Spec
  import opened Invariant
  import opened Ticks
  import opened TickFacts
  import opened Answers
  import opened Image
  import opened Records

  datatype Op =
    | PutOp(now: int, pri: nat, delay: int, ttr: int, bodySize: int, body: seq<bv8>, tube: TubeName)
    | DeleteOp(id: JobId, client: ClientId)
    | ReleaseOp(now: int, id: JobId, client: ClientId, pri: nat, delay: int)
    | TouchOp(now: int, id: JobId, client: ClientId)
    | BuryOp(now: int, id: JobId, pri: nat, client: ClientId)
    | KickOp(id: JobId)
    | KickNOp(tube: TubeName, n: int)
    | ReserveOp(client: ClientId, reqId: RequestId, watched: seq<TubeName>, now: int, deadline: int)
    | TickOp(now: int, order: seq<TubeName>)
    | RestoreOp(at: int)

  // The records of the store can hold the machine, and a receiver with the next
  // delay at looks at every delayed job in time.
  ghost predicate Restorable(s: State, at: int) {
    Ids64(s) && DelaysFrom(s, at) && forall id :: id in s.jobs ==> s.jobs[id].ttr < TWO_31
  }

  // What the machine expects of its callers.
  ghost predicate OpOk(s: State, op: Op) {
    match op
    case PutOp(now, _, delay, ttr, _, _, _) => ClockOk(now) && 0 <= delay <= MAX_U32 && 0 <= ttr <= MAX_U32
    case ReleaseOp(now, _, _, _, delay) => ClockOk(now) && 0 <= delay <= MAX_U32
    case TouchOp(now, id, client) => ClockOk(now) && OwnTouch(s, id, client)
    case ReserveOp(_, _, watched, now, _) => ClockOk(now) && NoDup(watched)
    case TickOp(now, order) => ClockOk(now) && NoDup(order) && (forall t :: t in order <==> t in s.tubes)
    case RestoreOp(at) => at <= MAX_TIME && Restorable(s, at)
    case _ => true
  }

  // The next state, and the reservations handed out by the step.
  ghost function Step(s: State, op: Op): (r: (State, seq<Reservation>))
    requires Inv(s) && OpOk(s, op)
    ensures Inv(r.0)
  {
    InvKeyed(s, {});
    match op
    case PutOp(now, pri, delay, ttr, bodySize, body, t) =>
      PutInv(s, now, pri, delay, ttr, bodySize, body, t);
      (Put(s, now, pri, delay, ttr, bodySize, body, t).0, [])
    case DeleteOp(id, c) => DeleteInv(s, id, c); (Delete(s, id, c).0, [])
    case ReleaseOp(now, id, c, pri, delay) =>
      ReleaseWithInv(s, now, id, c, pri, delay); (ReleaseWith(s, now, id, c, pri, delay).0, [])
    case TouchOp(now, id, c) => TouchInv(s, now, id, c); (Touch(s, now, id, c).0, [])
    case BuryOp(now, id, pri, c) => BuryInv(s, now, id, pri, c); (Bury(s, now, id, pri, c).0, [])
    case KickOp(id) => KickInv(s, id); (Kick(s, id).0, [])
    case KickNOp(t, n) => KickNInv(s, t, n); (KickN(s, t, n), [])
    case ReserveOp(c, reqId, ts, now, deadline) =>
      AppendReservationInv(s, c, reqId, ts, now, deadline);
      var (s', r) := AppendReservation(s, c, reqId, ts, now, deadline);
      (s', if r.Ok? then [r.value] else [])
    case TickOp(now, order) => Tick(s, now, order)
    case RestoreOp(at) => StoreInv(s, at); (Restored(Wire(s), at), [])
  }

  lemma {:induction false} KickNInv(s: State, t: TubeName, n: int)
    requires Inv(s)
    ensures Keyed(s.jobs) && Inv(KickN(s, t, n))
    decreases n
  {
    InvKeyed(s, {});
    if n > 0 && Next(s, InBuried(t)).Some? {
      KickInv(s, Next(s, InBuried(t)).value);
      KickNInv(Kick(s, Next(s, InBuried(t)).value).0, t, n - 1);
    }
  }

  // One step of a run. (The machine is only ever in states with Inv, see
  // RunInv, so a step is always one of Step.)
  ghost predicate StepsTo(s: State, op: Op, s': State) {
    OpOk(s, op) && (Inv(s) ==> s' == Step(s, op).0)
  }

  // A run of the machine, from EMPTY or any other state with the invariant. A
  // replica that is restored from the store goes on in the restored state.
  ghost predicate Run(states: seq<State>, ops: seq<Op>) {
    && |states| == |ops| + 1 && Inv(states[0])
    && forall i :: 0 <= i < |ops| ==> StepAt(states, ops, i)
  }

  ghost predicate StepAt(states: seq<State>, ops: seq<Op>, i: nat)
    requires |states| == |ops| + 1 && i < |ops|
  {
    StepsTo(states[i], ops[i], states[i + 1])
  }

  // The invariant holds throughout every run.
  lemma {:induction false} RunInv(states: seq<State>, ops: seq<Op>, i: nat)
    requires Run(states, ops) && i < |states|
    ensures Inv(states[i])
  {
    if i > 0 {
      RunInv(states, ops, i - 1);
      assert StepAt(states, ops, i - 1);
    }
  }

  // ----- requests and answers ---------------------------------------------

  // The step starts a new wait or gives a job at once to client c.
  ghost predicate Accepts(s: State, op: Op, c: ClientId) {
    op.ReserveOp? && op.client == c && !Waits(s, c) && op.now <= op.deadline <= op.now + MAX_TIMEOUT_SECS
  }

  // The answers in rs that go to client c.
  function For(rs: seq<Reservation>, c: ClientId): seq<Reservation> {
    if rs == [] then []
    else (if rs[0].clientId == c then [rs[0]] else []) + For(rs[1..], c)
  }

  lemma {:induction false} ForNone(rs: seq<Reservation>, c: ClientId)
    requires !Replied(rs, c)
    ensures For(rs, c) == []
  {
    if rs != [] {
      assert rs[0].clientId != c;
      assert forall i :: 0 <= i < |rs| - 1 ==> rs[1..][i] == rs[i + 1];
      ForNone(rs[1..], c);
    }
  }

  lemma {:induction false} ForOne(rs: seq<Reservation>, c: ClientId, k: nat)
    requires k < |rs| && rs[k].clientId == c
    requires forall i, j :: 0 <= i < j < |rs| ==> rs[i].clientId != rs[j].clientId
    ensures For(rs, c) == [rs[k]]
  {
    assert forall i :: 0 <= i < |rs| - 1 ==> rs[1..][i] == rs[i + 1];
    if k == 0 {
      ForNone(rs[1..], c);
    } else {
      ForOne(rs[1..], c, k - 1);
    }
  }

  // The same request is still asked; the tubes may be forgotten.
  predicate StillAsks(a: Client, b: Client) {
    a.waiting == b.waiting && a.reqId == b.reqId && a.deadline == b.deadline && (a.watched == b.watched || a.watched == [])
  }

  // A step that does not start a new wait for c either leaves its request
  // alone or answers it once.
  ghost predicate RequestStep(s: State, s': State, rs: seq<Reservation>, c: ClientId) {
    if Waits(s, c) then
      || (For(rs, c) == [] && Waits(s', c) && StillAsks(s'.clients[c], s.clients[c]))
      || (|For(rs, c)| == 1 && AnswerTo(s, For(rs, c)[0]) && For(rs, c)[0].clientId == c && !Waits(s', c))
    else
      For(rs, c) == [] && !Waits(s', c)
  }

  lemma AnsweredOnce(s: State, s': State, rs: seq<Reservation>, c: ClientId)
    requires Answered(s, s', rs)
    ensures RequestStep(s, s', rs, c)
  {
    if Replied(rs, c) {
      var k :| 0 <= k < |rs| && rs[k].clientId == c;
      ForOne(rs, c, k);
    } else {
      ForNone(rs, c);
    }
  }

  // Requests are left alone by a step that leaves the clients alone.
  lemma SameClients(s: State, s': State, c: ClientId)
    requires s'.clients == s.clients
    ensures RequestStep(s, s', [], c)
  {
  }

  lemma TouchClients(s: State, now: int, id: JobId, d: ClientId, c: ClientId)
    requires Inv(s) && ClockOk(now) && OwnTouch(s, id, d) && Keyed(s.jobs)
    ensures RequestStep(s, Touch(s, now, id, d).0, [], c)
  {
    if id in s.jobs && s.jobs[id].state == Reserved && s.jobs[id].reservedBy == d {
      assert JobInv(s, id, {});
      HolderStays(SetJob(s, s.jobs[id].UpdateReservation(now)), d, id);
    }
  }

  predicate SameClient(s: State, s': State, c: ClientId) {
    (c in s'.clients <==> c in s.clients) && (c in s.clients ==> s'.clients[c] == s.clients[c])
  }

  lemma MatchOtherClients(s: State, now: int, t: TubeName, d: ClientId, c: ClientId)
    requires Keyed(s.jobs) && d in s.clients && Next(s, InReady(t)).Some? && c != d
    ensures SameClient(s, Match(s, now, t, d).0, c)
  {
  }

  lemma ReserveOthers(s: State, d: ClientId, reqId: RequestId, ts: seq<TubeName>, now: int, deadline: int, c: ClientId)
    requires Keyed(s.jobs) && c != d
    ensures SameClient(s, AppendReservation(s, d, reqId, ts, now, deadline).0, c)
  {
    var s1 := Enroll(s, d, reqId, ts, deadline);
    FirstReadyHas(s1, ts);
    match FirstReady(s1, ts)
    case Some(t) => MatchOtherClients(s1, now, t, d, c);
    case None => assert SameClient(s1, Schedule(s1, d), c);
  }

  lemma ReserveReply(s: State, d: ClientId, reqId: RequestId, ts: seq<TubeName>, now: int, deadline: int)
    requires Keyed(s.jobs)
    ensures var r := AppendReservation(s, d, reqId, ts, now, deadline).1;
            r.Ok? ==> r.value.clientId == d && r.value.requestId == reqId
  {
  }

  // The operations that do not touch clients.
  predicate JobOp(op: Op) {
    op.PutOp? || op.DeleteOp? || op.ReleaseOp? || op.BuryOp? || op.KickOp? || op.KickNOp?
  }

  lemma JobOpStep(s: State, op: Op)
    requires Inv(s) && OpOk(s, op) && JobOp(op)
    ensures Step(s, op).0.clients == s.clients && Step(s, op).1 == []
  {
    hide InvBut, Filed, CounterLaw;
  }

  lemma ReserveStep(s: State, op: Op, c: ClientId)
    requires Inv(s) && OpOk(s, op) && op.ReserveOp? && !Accepts(s, op, c)
    ensures RequestStep(s, Step(s, op).0, Step(s, op).1, c)
  {
    InvKeyed(s, {});
    if c != op.client {
      ReserveOthers(s, op.client, op.reqId, op.watched, op.now, op.deadline, c);
      ReserveReply(s, op.client, op.reqId, op.watched, op.now, op.deadline);
    }
  }

  // A restore keeps the clients that wait.
  lemma RestoreClients(s: State, at: int, c: ClientId)
    requires Inv(s)
    ensures RequestStep(s, Restored(Wire(s), at), [], c)
  {
    StoreKin(s);
    if c in s.clients { assert ClientInv(s, c, {}); }
  }

  lemma StepRequest(s: State, op: Op, c: ClientId)
    requires Inv(s) && OpOk(s, op) && !Accepts(s, op, c)
    ensures RequestStep(s, Step(s, op).0, Step(s, op).1, c)
  {
    if JobOp(op) {
      JobOpStep(s, op);
      SameClients(s, Step(s, op).0, c);
    } else if op.TouchOp? {
      InvKeyed(s, {});
      TouchClients(s, op.now, op.id, op.client, c);
    } else if op.ReserveOp? {
      ReserveStep(s, op, c);
    } else if op.RestoreOp? {
      RestoreClients(s, op.at, c);
    } else {
      TickAnswers(s, op.now, op.order);
      AnsweredOnce(s, Step(s, op).0, Step(s, op).1, c);
    }
  }

  // A request that is answered "queued" makes its client wait for it.
  lemma QueuedWaits(s: State, op: Op)
    requires Inv(s) && OpOk(s, op) && op.ReserveOp?
    requires |Step(s, op).1| == 1 && Step(s, op).1[0].status == Queued
    ensures var s' := Step(s, op).0;
            && Waits(s', op.client) && s'.clients[op.client].reqId == op.reqId
            && s'.clients[op.client].deadline == op.deadline
  {
    InvKeyed(s, {});
    var s1 := Enroll(s, op.client, op.reqId, op.watched, op.deadline);
    FirstReadyHas(s1, op.watched);
    NextEventBound(s1, op.client);
  }

  // A step of the clock past the deadline leaves nobody waiting.
  lemma TickPastDeadline(s: State, op: Op, c: ClientId)
    requires Inv(s) && OpOk(s, op) && op.TickOp? && Waits(s, c) && s.clients[c].deadline < op.now
    ensures !Waits(Step(s, op).0, c)
  {
    TickQuiet(s, op.now, op.order);
    StepRequest(s, op, c);
  }

  // The answers that client c gets in the steps i .. j of a run.
  ghost function AnswersTo(states: seq<State>, ops: seq<Op>, i: nat, j: nat, c: ClientId): seq<Reservation>
    requires Run(states, ops) && i <= j <= |ops|
    decreases j
  {
    if i == j then [] else AnswersTo(states, ops, i, j - 1, c) + AnswersAt(states, ops, j - 1, c)
  }

  ghost function AnswersAt(states: seq<State>, ops: seq<Op>, j: nat, c: ClientId): seq<Reservation>
    requires Run(states, ops) && j < |ops|
  {
    RunInv(states, ops, j);
    assert StepAt(states, ops, j);
    For(Step(states[j], ops[j]).1, c)
  }

  // The request of op waits, or has been answered once and for all.
  ghost predicate OnceAnswered(s: State, op: Op, a: seq<Reservation>)
    requires op.ReserveOp?
  {
    if Waits(s, op.client) then
      a == [] && s.clients[op.client].reqId == op.reqId && s.clients[op.client].deadline == op.deadline
    else
      && |a| == 1 && a[0].clientId == op.client && a[0].requestId == op.reqId
      && (a[0].status == Matched || a[0].status == Timeout || a[0].status == DeadlineSoon)
  }

  lemma OnceMore(s: State, s': State, op: Op, a: seq<Reservation>, rs: seq<Reservation>)
    requires op.ReserveOp? && OnceAnswered(s, op, a) && RequestStep(s, s', rs, op.client)
    ensures OnceAnswered(s', op, a + For(rs, op.client))
  {
  }

  ghost predicate QueuedAt(states: seq<State>, ops: seq<Op>, i: nat)
    requires Run(states, ops) && i < |ops|
  {
    RunInv(states, ops, i);
    assert StepAt(states, ops, i);
    && ops[i].ReserveOp?
    && var rs := Step(states[i], ops[i]).1;
    |rs| == 1 && rs[0].status == Queued
  }

  // The client of step i has no other request accepted before step j.
  ghost predicate NoNewRequest(states: seq<State>, ops: seq<Op>, i: nat, j: nat)
    requires |states| == |ops| + 1 && i < j <= |ops| && ops[i].ReserveOp?
  {
    j == i + 1 || (NoNewRequest(states, ops, i, j - 1) && !Accepts(states[j - 1], ops[j - 1], ops[i].client))
  }

  lemma {:induction false} NoNewRequestBefore(states: seq<State>, ops: seq<Op>, i: nat, m: nat, j: nat)
    requires |states| == |ops| + 1 && i < m <= j <= |ops| && ops[i].ReserveOp? && NoNewRequest(states, ops, i, j)
    ensures NoNewRequest(states, ops, i, m)
    decreases j
  {
    if m < j { NoNewRequestBefore(states, ops, i, m, j - 1); }
  }

  lemma OnceAnsweredFirst(states: seq<State>, ops: seq<Op>, i: nat)
    requires Run(states, ops) && i < |ops| && QueuedAt(states, ops, i)
    ensures OnceAnswered(states[i + 1], ops[i], [])
  {
    RunInv(states, ops, i);
    assert StepAt(states, ops, i);
    QueuedWaits(states[i], ops[i]);
  }

  lemma OnceAnsweredNext(states: seq<State>, ops: seq<Op>, i: nat, j: nat)
    requires Run(states, ops) && i < j < |ops| && ops[i].ReserveOp?
    requires !Accepts(states[j], ops[j], ops[i].client)
    requires OnceAnswered(states[j], ops[i], AnswersTo(states, ops, i + 1, j, ops[i].client))
    ensures OnceAnswered(states[j + 1], ops[i], AnswersTo(states, ops, i + 1, j + 1, ops[i].client))
  {
    var c := ops[i].client;
    RunInv(states, ops, j);
    assert StepAt(states, ops, j);
    StepRequest(states[j], ops[j], c);
    OnceMore(states[j], states[j + 1], ops[i], AnswersTo(states, ops, i + 1, j, c), Step(states[j], ops[j]).1);
  }

  lemma {:induction false} OnceAnsweredAll(states: seq<State>, ops: seq<Op>, i: nat, j: nat)
    requires Run(states, ops) && i < j <= |ops| && ops[i].ReserveOp? && OnceAnswered(states[i + 1], ops[i], [])
    requires NoNewRequest(states, ops, i, j)
    ensures OnceAnswered(states[j], ops[i], AnswersTo(states, ops, i + 1, j, ops[i].client))
    decreases j
  {
    hide InvBut, StepsTo, OnceAnswered, AnswersAt, Accepts, Run;
    if j > i + 1 {
      OnceAnsweredAll(states, ops, i, j - 1);
      OnceAnsweredNext(states, ops, i, j - 1);
    }
  }

  // Over any run, a request that was queued gets at most one answer, its own,
  // and stays queued until then.
  lemma AnsweredAtMostOnce(states: seq<State>, ops: seq<Op>, i: nat, j: nat)
    requires Run(states, ops) && i < j <= |ops| && QueuedAt(states, ops, i)
    requires NoNewRequest(states, ops, i, j)
    ensures OnceAnswered(states[j], ops[i], AnswersTo(states, ops, i + 1, j, ops[i].client))
  {
    OnceAnsweredFirst(states, ops, i);
    OnceAnsweredAll(states, ops, i, j);
  }

  // The answers of rs to c, all of them in rs.
  lemma {:induction false} ForIn(rs: seq<Reservation>, c: ClientId, r: Reservation)
    requires r in For(rs, c)
    ensures r in rs && r.clientId == c
  {
    if rs[0].clientId != c || r != rs[0] { ForIn(rs[1..], c, r); }
  }

  // Only ticks answer clients that wait.
  lemma OnlyTicksAnswer(s: State, op: Op, c: ClientId)
    requires Inv(s) && OpOk(s, op) && Waits(s, c) && For(Step(s, op).1, c) != []
    ensures op.TickOp?
  {
    InvKeyed(s, {});
    if op.ReserveOp? {
      ReserveReply(s, op.client, op.reqId, op.watched, op.now, op.deadline);
    }
  }

  // The answer to the request of step i is given by step k, and it is true: a
  // job that becomes the client's, a timeout past the deadline, or a warning
  // before it of a job that ends now.
  ghost predicate AnswersTruly(states: seq<State>, ops: seq<Op>, i: nat, k: nat, r: Reservation)
    requires |states| == |ops| + 1 && i < |ops| && k < |ops| && ops[i].ReserveOp?
  {
    && ops[k].TickOp? && r.clientId == ops[i].client && r.requestId == ops[i].reqId
    && Truthful(states[k], states[k + 1], ops[k].now, r)
    && (r.status == Matched || r.status == Timeout || r.status == DeadlineSoon)
    && (r.status == Timeout ==> ops[i].deadline < ops[k].now)
    && (r.status == DeadlineSoon ==> ops[k].now <= ops[i].deadline)
  }

  lemma TruthAt(states: seq<State>, ops: seq<Op>, i: nat, k: nat)
    requires Run(states, ops) && i < k < |ops| && ops[i].ReserveOp?
    requires OnceAnswered(states[k], ops[i], []) && Waits(states[k], ops[i].client)
    requires |AnswersAt(states, ops, k, ops[i].client)| == 1 && !Accepts(states[k], ops[k], ops[i].client)
    ensures AnswersTruly(states, ops, i, k, AnswersAt(states, ops, k, ops[i].client)[0])
  {
    var c := ops[i].client;
    RunInv(states, ops, k);
    assert StepAt(states, ops, k);
    var (s', rs) := Step(states[k], ops[k]);
    var r := For(rs, c)[0];
    ForIn(rs, c, r);
    StepRequest(states[k], ops[k], c);
    OnlyTicksAnswer(states[k], ops[k], c);
    TickTruthful(states[k], ops[k].now, ops[k].order);
    var n :| 0 <= n < |rs| && rs[n] == r;
    assert Truthful(states[k], s', ops[k].now, rs[n]);
  }

  // A request that waits no longer was answered by one tick, truly.
  lemma {:induction false} AnsweredTruly(states: seq<State>, ops: seq<Op>, i: nat, j: nat) returns (k: nat)
    requires Run(states, ops) && i < j <= |ops| && QueuedAt(states, ops, i) && NoNewRequest(states, ops, i, j)
    requires !Waits(states[j], ops[i].client)
    ensures i < k < j && AnswersTo(states, ops, i + 1, j, ops[i].client) == AnswersAt(states, ops, k, ops[i].client)
    ensures |AnswersAt(states, ops, k, ops[i].client)| == 1
    ensures AnswersTruly(states, ops, i, k, AnswersAt(states, ops, k, ops[i].client)[0])
    decreases j
  {
    hide InvBut, Step, AnswersTruly, AnswersAt, StepsTo;
    var c := ops[i].client;
    OnceAnsweredFirst(states, ops, i);
    AnsweredAtMostOnce(states, ops, i, j);
    assert j > i + 1;
    AnsweredAtMostOnce(states, ops, i, j - 1);
    var a, b := AnswersTo(states, ops, i + 1, j - 1, c), AnswersAt(states, ops, j - 1, c);
    assert AnswersTo(states, ops, i + 1, j, c) == a + b;
    if Waits(states[j - 1], c) {
      k := j - 1;
      assert a + b == b;
      TruthAt(states, ops, i, k);
    } else {
      k := AnsweredTruly(states, ops, i, j - 1);
      assert |a + b| == |a| + |b|;
      assert a + b == a;
    }
  }

  // ... and it has its answer after the first tick past its deadline.
  lemma AnsweredByDeadline(states: seq<State>, ops: seq<Op>, i: nat, m: nat, j: nat) returns (k: nat)
    requires Run(states, ops) && i < m < j <= |ops| && QueuedAt(states, ops, i)
    requires NoNewRequest(states, ops, i, j)
    requires ops[m].TickOp? && ops[i].deadline < ops[m].now
    ensures i < k <= m && AnswersTo(states, ops, i + 1, j, ops[i].client) == AnswersAt(states, ops, k, ops[i].client)
    ensures |AnswersAt(states, ops, k, ops[i].client)| == 1 && !Waits(states[j], ops[i].client)
    ensures AnswersTruly(states, ops, i, k, AnswersAt(states, ops, k, ops[i].client)[0])
  {
    hide InvBut, Step, AnswersTruly, AnswersAt, StepsTo, AnswersTo;
    NoNewRequestBefore(states, ops, i, m, j);
    AnsweredAtMostOnce(states, ops, i, m);
    NotWaitingAfter(states, ops, i, m, j);
    NoNewRequestBefore(states, ops, i, m + 1, j);
    NotWaitingAfter(states, ops, i, m, m + 1);
    k := AnsweredTruly(states, ops, i, m + 1);
    NoMoreAnswers(states, ops, i, m + 1, j);
  }

  // Once answered, the client gets no other answer.
  lemma NoMoreAnswers(states: seq<State>, ops: seq<Op>, i: nat, m: nat, j: nat)
    requires Run(states, ops) && i < m <= j <= |ops| && QueuedAt(states, ops, i) && NoNewRequest(states, ops, i, j)
    requires !Waits(states[m], ops[i].client) && !Waits(states[j], ops[i].client)
    ensures AnswersTo(states, ops, i + 1, j, ops[i].client) == AnswersTo(states, ops, i + 1, m, ops[i].client)
  {
    hide InvBut, Step, AnswersAt, StepsTo, AnswersTo;
    NoNewRequestBefore(states, ops, i, m, j);
    AnsweredAtMostOnce(states, ops, i, m);
    AnsweredAtMostOnce(states, ops, i, j);
    AnswersGrow(states, ops, i + 1, m, j, ops[i].client);
  }

  lemma {:induction false} AnswersGrow(states: seq<State>, ops: seq<Op>, i: nat, m: nat, j: nat, c: ClientId)
    requires Run(states, ops) && i <= m <= j <= |ops|
    ensures AnswersTo(states, ops, i, m, c) <= AnswersTo(states, ops, i, j, c)
    decreases j
  {
    hide InvBut, Step, AnswersAt, StepsTo;
    if m < j { AnswersGrow(states, ops, i, m, j - 1, c); }
  }

  lemma {:induction false} NotWaitingAfter(states: seq<State>, ops: seq<Op>, i: nat, m: nat, j: nat)
    requires Run(states, ops) && i < m < j <= |ops| && ops[i].ReserveOp?
    requires NoNewRequest(states, ops, i, j)
    requires ops[m].TickOp? && ops[i].deadline < ops[m].now
    requires Waits(states[m], ops[i].client) ==> states[m].clients[ops[i].client].deadline == ops[i].deadline
    ensures !Waits(states[j], ops[i].client)
    decreases j
  {
    var c := ops[i].client;
    RunInv(states, ops, j - 1);
    assert StepAt(states, ops, j - 1);
    StepRequest(states[j - 1], ops[j - 1], c);
    if j - 1 > m {
      NotWaitingAfter(states, ops, i, m, j - 1);
    } else if Waits(states[m], c) {
      TickPastDeadline(states[m], ops[m], c);
    }
  }
}
