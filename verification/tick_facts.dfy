/** What one step of the clock guarantees. */
module TickFacts {
  import opened Types
  import opened Spec
  import opened Invariant
  import opened Ticks

  // ----- jobs -------------------------------------------------------------

  predicate Holds(s: State, c: ClientId, id: JobId) {
    id in s.jobs && s.jobs[id].state == Reserved && s.jobs[id].reservedBy == c
  }

  // Job j is given to client c: the reservation lasts for the time to run, and
  // nothing else about the job changes.
  predicate GivenTo(j: Job, j': Job, now: int, c: ClientId) {
    j' == j.(state := Reserved, reservedBy := c, expiresAt := now + j.ttr, reserves := Inc(j.reserves))
  }

  // Serving tubes only reserves ready jobs, each at this very moment.
  ghost predicate OnlyReserves(s: State, s': State, now: int) {
    && s'.jobs.Keys == s.jobs.Keys
    && forall id :: id in s.jobs && s'.jobs[id] != s.jobs[id] ==>
         s.jobs[id].state == Ready && s'.jobs[id] == ReservedJob(s.jobs[id], now, s'.jobs[id].reservedBy)
  }

  lemma ReservesTwice(s: State, s1: State, s2: State, now: int)
    requires OnlyReserves(s, s1, now) && OnlyReserves(s1, s2, now)
    ensures OnlyReserves(s, s2, now)
  {
  }

  lemma {:induction false} TickTubeJobs(s: State, now: int, t: TubeName)
    requires Inv(s) && ClockOk(now)
    ensures OnlyReserves(s, TickTube(s, now, t).0, now)
    decreases |Contents(s, InReady(t))|
  {
    hide InvBut, Match;
    InvKeyed(s, {});
    if Busy(s, t) {
      BusyMatch(s, now, t);
      MatchJobs(s, now, t, s.tubes[t][0]);
      var s1 := Match(s, now, t, s.tubes[t][0]).0;
      TickTubeJobs(s1, now, t);
      ReservesTwice(s, s1, TickTube(s1, now, t).0, now);
    }
  }

  lemma {:induction false} TickReadyJobs(s: State, now: int, order: seq<TubeName>)
    requires Inv(s) && ClockOk(now)
    ensures OnlyReserves(s, TickReady(s, now, order).0, now)
    decreases |order|
  {
    if order != [] {
      var s1 := TickTube(s, now, order[0]).0;
      TickTubeJobs(s, now, order[0]);
      TickReadyJobs(s1, now, order[1..]);
      ReservesTwice(s, s1, TickReady(s1, now, order[1..]).0, now);
    }
  }

  // Waking clients only ends reservations that are over.
  ghost predicate OnlyExpires(s: State, s': State, now: int) {
    && s'.jobs.Keys == s.jobs.Keys
    && forall id :: id in s.jobs && s'.jobs[id] != s.jobs[id] ==>
         s.jobs[id].state == Reserved && s.jobs[id].expiresAt < now && s'.jobs[id] == TimedOut(s.jobs[id])
  }

  lemma WakeJobs(s: State, now: int, c: ClientId)
    requires Keyed(s.jobs) && c in s.clients
    ensures Wake(s, now, c).0.jobs == Expire(s, now, c).jobs
    ensures OnlyExpires(s, Wake(s, now, c).0, now)
  {
    ServedFacts(s, now, c);
    WarnedAhead(Served(s, now, c), now, c);
  }

  lemma ExpiresTwice(s: State, s1: State, s2: State, now: int)
    requires OnlyExpires(s, s1, now) && OnlyExpires(s1, s2, now)
    ensures OnlyExpires(s, s2, now)
  {
  }

  lemma {:induction false} TickClientsJobs(s: State, now: int)
    requires Inv(s) && ClockOk(now)
    ensures OnlyExpires(s, TickClients(s, now).0, now)
    decreases |Overdue(s, now)|
  {
    InvKeyed(s, {});
    var first := FirstTimer(s);
    if first.Some? && s.clients[first.value].tickAt < now {
      WakeInv(s, now, first.value);
      WakeOverdue(s, now, first.value);
      WakeJobs(s, now, first.value);
      var s1 := Wake(s, now, first.value).0;
      TickClientsJobs(s1, now);
      ExpiresTwice(s, s1, TickClients(s1, now).0, now);
    }
  }

  // The state between the phases of a tick.
  ghost function Delayed1(s: State, now: int): (s1: State)
    requires Inv(s)
    ensures Inv(s1)
  {
    TickDelayInv(s, now);
    if now > s.nextDelay then TickDelay(s, now) else s
  }

  // What a tick does to one job: a due job becomes ready, a ready job may be
  // reserved, and a reservation that is over ends.
  ghost predicate JobTicks(j: Job, j': Job, now: int) {
    var j1 := if j.state == Delayed && j.readyAt < now then j.(state := Ready) else j;
    if j.state == Reserved && j.expiresAt < now then
      j' == j.(state := Ready, reservedBy := "", timeouts := Inc(j.timeouts))
    else j' == j1 || (j1.state == Ready && GivenTo(j1, j', now, j'.reservedBy))
  }

  // The cached clock never hides a due job: a tick that skips the scan of the
  // delayed jobs would have found nothing.
  lemma GuardIsSafe(s: State, now: int)
    requires Inv(s)
    ensures Delayed1(s, now).jobs == TickDelay(s, now).jobs
  {
    forall id | id in s.jobs ensures now <= s.nextDelay ==> !Due(s.jobs[id], now) {
      assert JobInv(s, id, {});
    }
  }

  // ----- clients ----------------------------------------------------------

  ghost predicate NoneOverdue(s: State, now: int) {
    forall c :: c in s.timers ==> c in s.clients && now <= s.clients[c].tickAt
  }

  // Afterwards no timer is overdue.
  lemma {:induction false} TickClientsDone(s: State, now: int)
    requires Inv(s) && ClockOk(now)
    ensures NoneOverdue(TickClients(s, now).0, now)
    decreases |Overdue(s, now)|
  {
    InvKeyed(s, {});
    var first := FirstTimer(s);
    if first.Some? && s.clients[first.value].tickAt < now {
      WakeInv(s, now, first.value);
      WakeOverdue(s, now, first.value);
      TickClientsDone(Wake(s, now, first.value).0, now);
    }
  }

  // No client is behind its next event.
  ghost predicate Quiet(s: State, now: int) {
    && (forall id :: id in s.jobs && s.jobs[id].state == Delayed ==> now <= s.jobs[id].readyAt)
    && (forall id :: id in s.jobs && s.jobs[id].state == Reserved ==> now <= s.jobs[id].expiresAt)
    && (forall c :: c in s.clients && s.clients[c].waiting ==> now <= s.clients[c].deadline)
    && (forall id :: (&& id in s.jobs && s.jobs[id].state == Reserved
                      && s.jobs[id].reservedBy in s.clients && s.clients[s.jobs[id].reservedBy].waiting)
                     ==> now < s.jobs[id].expiresAt)
  }

  lemma TimersMakeQuiet(s: State, now: int)
    requires Inv(s) && NoneOverdue(s, now)
    requires forall id :: id in s.jobs && s.jobs[id].state == Delayed ==> now <= s.jobs[id].readyAt
    ensures Quiet(s, now)
  {
    forall id | id in s.jobs && s.jobs[id].state == Reserved
      ensures now <= s.jobs[id].expiresAt
      ensures s.jobs[id].reservedBy in s.clients && s.clients[s.jobs[id].reservedBy].waiting ==> now < s.jobs[id].expiresAt
    {
      assert JobInv(s, id, {});
    }
    forall c | c in s.clients && s.clients[c].waiting ensures now <= s.clients[c].deadline {
      assert ClientInv(s, c, {});
    }
  }

  // The main promise of a tick, from any state the machine can be in.
  lemma TickQuiet(s: State, now: int, order: seq<TubeName>)
    requires Inv(s) && ClockOk(now)
    ensures Quiet(Tick(s, now, order).0, now)
  {
    GuardIsSafe(s, now);
    var s1 := Delayed1(s, now);
    var s2 := TickReady(s1, now, order).0;
    var s3 := TickClients(s2, now).0;
    TickReadyJobs(s1, now, order);
    TickClientsJobs(s2, now);
    TickClientsDone(s2, now);
    TimersMakeQuiet(s3, now);
  }

  // A tick reserves and expires; between two ticks of the same job there is
  // no room for both.
  ghost predicate Phases(s1: State, s2: State, s3: State, now: int) {
    OnlyReserves(s1, s2, now) && OnlyExpires(s2, s3, now) && Quiet(s3, now)
  }

  lemma TickPhases(s: State, now: int, order: seq<TubeName>)
    requires Inv(s) && ClockOk(now)
    ensures var s1 := Delayed1(s, now);
            s1.jobs == TickDelay(s, now).jobs
            && Phases(s1, TickReady(s1, now, order).0, Tick(s, now, order).0, now)
  {
    GuardIsSafe(s, now);
    var s1 := Delayed1(s, now);
    TickReadyJobs(s1, now, order);
    TickClientsJobs(TickReady(s1, now, order).0, now);
    TickQuiet(s, now, order);
  }

  lemma PhasesOfJob(s: State, s1: State, s2: State, s3: State, now: int, id: JobId)
    requires id in s.jobs && 0 <= s.jobs[id].ttr
    requires s1.jobs == TickDelay(s, now).jobs && Phases(s1, s2, s3, now)
    ensures id in s3.jobs && JobTicks(s.jobs[id], s3.jobs[id], now)
  {
  }

  lemma TickJobs(s: State, now: int, order: seq<TubeName>)
    requires Inv(s) && ClockOk(now)
    ensures Tick(s, now, order).0.jobs.Keys == s.jobs.Keys
    ensures forall id :: id in s.jobs ==> JobTicks(s.jobs[id], Tick(s, now, order).0.jobs[id], now)
  {
    TickPhases(s, now, order);
    var s1 := Delayed1(s, now);
    forall id | id in s.jobs ensures JobTicks(s.jobs[id], Tick(s, now, order).0.jobs[id], now) {
      assert JobInv(s, id, {});
      PhasesOfJob(s, s1, TickReady(s1, now, order).0, Tick(s, now, order).0, now, id);
    }
  }

  // ----- answers ----------------------------------------------------------

  predicate SameRequest(a: Client, b: Client) {
    a.waiting == b.waiting && a.reqId == b.reqId && a.deadline == b.deadline && a.watched == b.watched
  }

  // r answers the request that its client was waiting for.
  predicate AnswerTo(s: State, r: Reservation) {
    && r.clientId in s.clients && s.clients[r.clientId].waiting && s.clients[r.clientId].reqId == r.requestId
    && (r.status == Matched || r.status == Timeout || r.status == DeadlineSoon)
  }

  predicate Waits(s: State, c: ClientId) {
    c in s.clients && s.clients[c].waiting
  }

  ghost predicate Replied(rs: seq<Reservation>, c: ClientId) {
    exists i :: 0 <= i < |rs| && rs[i].clientId == c
  }

  // A step that gives the answers rs: each goes to a client that waits, no
  // client gets two, and exactly the clients that got one stop waiting.
  ghost predicate Answered(s: State, s': State, rs: seq<Reservation>) {
    && s'.clients.Keys == s.clients.Keys
    && (forall i :: 0 <= i < |rs| ==> AnswerTo(s, rs[i]) && !Waits(s', rs[i].clientId))
    && (forall i, j :: 0 <= i < j < |rs| ==> rs[i].clientId != rs[j].clientId)
    && (forall c :: Waits(s, c) && !Replied(rs, c) ==> Waits(s', c) && SameRequest(s'.clients[c], s.clients[c]))
    && (forall c :: Waits(s', c) ==> Waits(s, c))
  }

  lemma AnsweredTwice(s: State, s1: State, s2: State, r1: seq<Reservation>, r2: seq<Reservation>)
    requires Answered(s, s1, r1) && Answered(s1, s2, r2)
    ensures Answered(s, s2, r1 + r2)
  {
    var rs := r1 + r2;
    forall i | 0 <= i < |rs| ensures AnswerTo(s, rs[i]) && !Waits(s2, rs[i].clientId) {
      if i >= |r1| {
        var r := r2[i - |r1|];
        assert rs[i] == r && AnswerTo(s1, r) && Waits(s1, r.clientId);
        assert !Replied(r1, r.clientId);
      } else {
        assert rs[i] == r1[i];
      }
    }
    forall i, j | 0 <= i < j < |rs| ensures rs[i].clientId != rs[j].clientId {
      if i < |r1| <= j {
        assert AnswerTo(s1, r2[j - |r1|]) && !Waits(s1, r1[i].clientId);
      }
    }
    forall c | Waits(s, c) && !Replied(rs, c) ensures Waits(s2, c) && SameRequest(s2.clients[c], s.clients[c]) {
      assert forall i :: 0 <= i < |r1| ==> rs[i] == r1[i];
      assert forall i :: 0 <= i < |r2| ==> rs[|r1| + i] == r2[i];
      assert !Replied(r1, c) && !Replied(r2, c);
    }
  }

  // A client that holds a job is never forgotten.
  lemma HolderStays(s: State, c: ClientId, id: JobId)
    requires Keyed(s.jobs) && c in s.clients
    requires id in s.jobs && s.jobs[id].state == Reserved && s.jobs[id].reservedBy == c && s.jobs[id].expiresAt < MAX_TIME
    ensures Schedule(s, c).clients.Keys == s.clients.Keys
  {
    NextEventBound(s, c);
  }

  lemma MatchAnswers(s: State, now: int, t: TubeName, c: ClientId)
    requires Keyed(s.jobs) && Waits(s, c) && Next(s, InReady(t)).Some?
    requires now + s.jobs[Next(s, InReady(t)).value].ttr < MAX_TIME
    ensures Answered(s, Match(s, now, t, c).0, [Match(s, now, t, c).1])
  {
    var id := Next(s, InReady(t)).value;
    var s1 := Retire(SetJob(s, ReservedJob(s.jobs[id], now, c)), c);
    HolderStays(s1, c, id);
    var rs := [Match(s, now, t, c).1];
    assert rs[0].clientId == c;
  }

  lemma {:induction false} TickTubeAnswers(s: State, now: int, t: TubeName)
    requires Inv(s) && ClockOk(now)
    ensures Answered(s, TickTube(s, now, t).0, TickTube(s, now, t).1)
    decreases |Contents(s, InReady(t))|
  {
    if Busy(s, t) {
      BusyMatch(s, now, t);
      var c := s.tubes[t][0];
      var (s1, r1) := Match(s, now, t, c);
      assert JobInv(s, Next(s, InReady(t)).value, {});
      MatchAnswers(s, now, t, c);
      TickTubeAnswers(s1, now, t);
      AnsweredTwice(s, s1, TickTube(s1, now, t).0, [r1], TickTube(s1, now, t).1);
    }
  }

  lemma {:induction false} TickReadyAnswers(s: State, now: int, order: seq<TubeName>)
    requires Inv(s) && ClockOk(now)
    ensures Answered(s, TickReady(s, now, order).0, TickReady(s, now, order).1)
    decreases |order|
  {
    if order != [] {
      TickTubeAnswers(s, now, order[0]);
      var (s1, r1) := TickTube(s, now, order[0]);
      TickReadyAnswers(s1, now, order[1..]);
      AnsweredTwice(s, s1, TickReady(s1, now, order[1..]).0, r1, TickReady(s1, now, order[1..]).1);
    }
  }

  // A client that is woken gets at most one answer, and if none it waits on.
  lemma WakeOnce(s: State, now: int, c: ClientId)
    requires Keyed(s.jobs) && c in s.clients
    ensures var (s', rs) := Wake(s, now, c);
            && s'.clients.Keys == s.clients.Keys
            && (forall d :: d in s.clients && d != c ==> s'.clients[d] == s.clients[d])
            && |rs| <= 1 && (|rs| == 1 ==> rs[0].clientId == c && AnswerTo(s, rs[0]) && !s'.clients[c].waiting)
            && (|rs| == 0 && s.clients[c].waiting ==> s'.clients[c].waiting && SameRequest(s'.clients[c], s.clients[c]))
            && (s'.clients[c].waiting ==> s.clients[c].waiting)
  {
    hide NextEvent, Next, LapsedTubes;
    ServedFacts(s, now, c);
    WarnedAhead(Served(s, now, c), now, c);
  }

  lemma WakeAnswers(s: State, now: int, c: ClientId)
    requires Keyed(s.jobs) && c in s.clients
    ensures Answered(s, Wake(s, now, c).0, Wake(s, now, c).1)
  {
    hide Wake;
    WakeOnce(s, now, c);
    var rs := Wake(s, now, c).1;
    assert |rs| > 0 ==> rs[0].clientId == c;
  }

  lemma {:induction false} TickClientsAnswers(s: State, now: int)
    requires Inv(s) && ClockOk(now)
    ensures Answered(s, TickClients(s, now).0, TickClients(s, now).1)
    decreases |Overdue(s, now)|
  {
    InvKeyed(s, {});
    var first := FirstTimer(s);
    if first.Some? && s.clients[first.value].tickAt < now {
      var c := first.value;
      WakeInv(s, now, c);
      WakeOverdue(s, now, c);
      WakeAnswers(s, now, c);
      var (s1, r1) := Wake(s, now, c);
      TickClientsAnswers(s1, now);
      AnsweredTwice(s, s1, TickClients(s1, now).0, r1, TickClients(s1, now).1);
    }
  }

  lemma TickAnswers(s: State, now: int, order: seq<TubeName>)
    requires Inv(s) && ClockOk(now)
    ensures Answered(s, Tick(s, now, order).0, Tick(s, now, order).1)
  {
    var s1 := Delayed1(s, now);
    var (s2, r2) := TickReady(s1, now, order);
    TickReadyAnswers(s1, now, order);
    TickClientsAnswers(s2, now);
    assert Answered(s, s1, []);
    AnsweredTwice(s1, s2, TickClients(s2, now).0, r2, TickClients(s2, now).1);
    AnsweredTwice(s, s1, TickClients(s2, now).0, [], r2 + TickClients(s2, now).1);
  }
}
