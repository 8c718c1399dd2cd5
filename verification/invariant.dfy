/** What every operation of the machine keeps. */
module Invariant {
  import opened Types
  import opened Spec

  // Reservations end by timeout, release or burial, and burials by a kick;
  // the 32-bit counters of a job balance up to wrap-around.
  predicate CounterLaw(j: Job) {
    && (j.timeouts + j.releases + j.buries + (if j.state == Reserved then 1 else 0) - j.reserves) % (MAX_U32 + 1) == 0
    && (j.kicks + (if j.state == Buried then 1 else 0) - j.buries) % (MAX_U32 + 1) == 0
  }

  // A reserved job wakes its holder in time: when the reservation expires, or
  // one second earlier if the holder is waiting for another job.
  ghost predicate LeaseInv(s: State, j: Job, loose: set<ClientId>) {
    && j.expiresAt < MAX_TIME
    && j.reservedBy in s.clients
    && (j.reservedBy !in loose ==>
          var holder := s.clients[j.reservedBy];
          && j.reservedBy in s.timers
          && holder.tickAt <= if holder.waiting then j.expiresAt - 1 else j.expiresAt)
  }

  ghost predicate JobInv(s: State, id: JobId, loose: set<ClientId>)
    requires id in s.jobs
  {
    var j := s.jobs[id];
    && j.id == id && 1 <= id <= s.maxJobId
    && (j.state == Ready || j.state == Reserved || j.state == Buried || j.state == Delayed)
    && 0 <= j.ttr <= MAX_U32
    && CounterLaw(j)
    && (j.state != Reserved ==> j.tube in s.tubes && j.reservedBy == "")
    && (j.state == Reserved ==> LeaseInv(s, j, loose))
    && (j.state == Delayed ==> s.nextDelay <= j.readyAt)
  }

  // A waiting client is in the queue of every tube it watches and wakes no
  // later than its deadline.
  ghost predicate ClientInv(s: State, c: ClientId, loose: set<ClientId>)
    requires c in s.clients
  {
    var cli := s.clients[c];
    && (cli.waiting ==>
          && cli.deadline < MAX_TIME
          && NoDup(cli.watched)
          && forall t :: t in cli.watched ==> t in s.tubes && c in s.tubes[t])
    && (cli.waiting && c !in loose ==> c in s.timers && cli.tickAt <= cli.deadline)
    && (c in s.timers ==> cli.tickAt < MAX_TIME)
  }

  // The queue of a tube holds only clients that wait and watch the tube.
  ghost predicate TubeInv(s: State, t: TubeName)
    requires t in s.tubes
  {
    && NoDup(s.tubes[t])
    && forall c :: c in s.tubes[t] ==> c in s.clients && s.clients[c].waiting && t in s.clients[c].watched
  }

  // The invariant while the timers of the clients in loose are being reset.
  ghost predicate InvBut(s: State, loose: set<ClientId>) {
    && (forall id {:trigger JobInv(s, id, loose)} :: id in s.jobs ==> JobInv(s, id, loose))
    && (forall c {:trigger ClientInv(s, c, loose)} :: c in s.clients ==> ClientInv(s, c, loose))
    && (forall t {:trigger TubeInv(s, t)} :: t in s.tubes ==> TubeInv(s, t))
    && s.timers <= s.clients.Keys
    && NoDup(s.roster) && (forall c :: c in s.roster <==> c in s.clients)
    && s.nextDelay <= MAX_TIME
  }

  ghost predicate Inv(s: State) {
    InvBut(s, {})
  }

  lemma InvKeyed(s: State, loose: set<ClientId>)
    requires InvBut(s, loose)
    ensures Keyed(s.jobs)
  {
    forall id | id in s.jobs ensures s.jobs[id].id == id {
      assert JobInv(s, id, loose);
    }
  }

  lemma InvJob(s: State, id: JobId)
    requires Inv(s) && id in s.jobs
    ensures JobInv(s, id, {})
  {
  }

  lemma EmptyInv()
    ensures Inv(EMPTY)
  {
  }

  // ----- jobs -------------------------------------------------------------

  // Replacing one job by one that satisfies its own part keeps everything.
  lemma SetJobInv(s: State, s': State, id: JobId, loose: set<ClientId>)
    requires InvBut(s, loose)
    requires s'.jobs.Keys == s.jobs.Keys + {id} && JobInv(s', id, loose)
    requires forall k :: k in s.jobs && k != id ==> s'.jobs[k] == s.jobs[k]
    requires s'.clients == s.clients && s'.roster == s.roster && s'.timers == s.timers
    requires s.maxJobId <= s'.maxJobId && s'.nextDelay <= s.nextDelay
    requires s.tubes.Keys <= s'.tubes.Keys
    requires forall t :: t in s'.tubes ==> s'.tubes[t] == if t in s.tubes then s.tubes[t] else []
    ensures InvBut(s', loose)
  {
    forall k | k in s'.jobs ensures JobInv(s', k, loose) {
      if k != id { assert JobInv(s, k, loose); }
    }
    forall c | c in s'.clients ensures ClientInv(s', c, loose) {
      assert ClientInv(s, c, loose);
    }
    forall t | t in s'.tubes ensures TubeInv(s', t) {
      if t in s.tubes { assert TubeInv(s, t); }
    }
  }

  // Every way to end a reservation keeps the counters balanced.
  lemma ReleaseLaw(j: Job, now: int, pri: nat, delay: int)
    requires CounterLaw(j) && j.state == Reserved
    ensures CounterLaw(Released(j, pri)) && CounterLaw(ReleasedLater(j, now, pri, delay))
  {
  }

  lemma TimeoutLaw(j: Job)
    requires CounterLaw(j) && j.state == Reserved
    ensures CounterLaw(TimedOut(j))
  {
  }

  lemma BuryLaw(j: Job, now: int, pri: nat)
    requires CounterLaw(j) && j.state == Reserved
    ensures CounterLaw(BuriedJob(j, now, pri))
  {
  }

  lemma KickLaw(j: Job)
    requires CounterLaw(j) && j.state == Buried
    ensures CounterLaw(Kicked(j))
  {
  }

  lemma ReserveLaw(j: Job, now: int, c: ClientId)
    requires CounterLaw(j) && j.state == Ready
    ensures CounterLaw(ReservedJob(j, now, c))
  {
  }

  lemma PutInv(s: State, now: int, pri: nat, delay: int, ttr: int, bodySize: int, body: seq<bv8>, t: TubeName)
    requires Inv(s) && 0 <= ttr <= MAX_U32
    ensures Inv(Put(s, now, pri, delay, ttr, bodySize, body, t).0)
  {
    var (s', id) := Put(s, now, pri, delay, ttr, bodySize, body, t);
    forall k | k in s.jobs ensures k != id { assert JobInv(s, k, {}); }
    SetJobInv(s, s', id, {});
  }

  lemma LeaveInv(s: State, j: Job, nextDelay: int)
    requires Inv(s) && j.id in s.jobs && s.jobs[j.id].state == Reserved
    requires j.state == Ready || j.state == Buried || j.state == Delayed
    requires j.ttr == s.jobs[j.id].ttr && CounterLaw(j) && j.reservedBy == ""
    requires nextDelay <= s.nextDelay && (j.state == Delayed ==> nextDelay <= j.readyAt)
    ensures Inv(SetTubeJob(s, j).(nextDelay := nextDelay))
  {
    assert JobInv(s, j.id, {});
    SetJobInv(s, SetTubeJob(s, j).(nextDelay := nextDelay), j.id, {});
  }

  lemma ReleasedInv(s: State, now: int, id: JobId, pri: nat, delay: int)
    requires Inv(s) && id in s.jobs && s.jobs[id].state == Reserved
    ensures Inv(SetTubeJob(s, Released(s.jobs[id], pri)))
    ensures Inv(SetTubeJob(s, ReleasedLater(s.jobs[id], now, pri, delay)).(nextDelay := Min(s.nextDelay, now + delay)))
  {
    assert JobInv(s, id, {});
    ReleaseLaw(s.jobs[id], now, pri, delay);
    LeaveInv(s, Released(s.jobs[id], pri), s.nextDelay);
    LeaveInv(s, ReleasedLater(s.jobs[id], now, pri, delay), Min(s.nextDelay, now + delay));
  }

  lemma ReleaseWithInv(s: State, now: int, id: JobId, c: ClientId, pri: nat, delay: int)
    requires Inv(s)
    ensures Inv(ReleaseWith(s, now, id, c, pri, delay).0)
  {
    if Leave(s, id, c).Ok? {
      assert JobInv(s, id, {});
      ReleasedInv(s, now, id, pri, delay);
    }
  }

  lemma ReleaseInv(s: State, id: JobId, c: ClientId)
    requires Inv(s)
    ensures Inv(Release(s, id, c).0)
  {
    if Leave(s, id, c).Ok? {
      assert JobInv(s, id, {});
      TimeoutLaw(s.jobs[id]);
      LeaveInv(s, TimedOut(s.jobs[id]), s.nextDelay);
    }
  }

  lemma BuryInv(s: State, now: int, id: JobId, pri: nat, c: ClientId)
    requires Inv(s)
    ensures Inv(Bury(s, now, id, pri, c).0)
  {
    if Leave(s, id, c).Ok? {
      assert JobInv(s, id, {});
      BuryLaw(s.jobs[id], now, pri);
      LeaveInv(s, BuriedJob(s.jobs[id], now, pri), s.nextDelay);
    }
  }

  lemma KickInv(s: State, id: JobId)
    requires Inv(s)
    ensures Inv(Kick(s, id).0)
  {
    if id in s.jobs && s.jobs[id].state == Buried {
      assert JobInv(s, id, {});
      KickLaw(s.jobs[id]);
      SetJobInv(s, Kick(s, id).0, id, {});
    }
  }

  lemma CleanupInv(s: State, t: TubeName)
    requires Inv(s)
    ensures Inv(Cleanup(s, t))
  {
    var s' := Cleanup(s, t);
    forall k | k in s'.jobs ensures JobInv(s', k, {}) {
      assert JobInv(s, k, {});
      assert s.jobs[k].tube == t && s.jobs[k].state != Reserved ==>
          k in Contents(s, InReady(t)) || k in Contents(s, InDelayed(t)) || k in Contents(s, InBuried(t));
    }
    forall c | c in s'.clients ensures ClientInv(s', c, {}) {
      assert ClientInv(s, c, {});
    }
    forall u | u in s'.tubes ensures TubeInv(s', u) {
      assert TubeInv(s, u);
    }
  }

  lemma DeleteInv(s: State, id: JobId, c: ClientId)
    requires Inv(s)
    ensures Inv(Delete(s, id, c).0)
  {
    var s1 := s.(jobs := s.jobs - {id});
    forall k | k in s1.jobs ensures JobInv(s1, k, {}) { assert JobInv(s, k, {}); }
    forall c | c in s1.clients ensures ClientInv(s1, c, {}) { assert ClientInv(s, c, {}); }
    forall u | u in s1.tubes ensures TubeInv(s1, u) { assert TubeInv(s, u); }
    if id in s.jobs {
      CleanupInv(s1, s.jobs[id].tube);
    }
  }

  // ----- clients ----------------------------------------------------------

  // Nothing happens to a client before its next event.
  lemma NextEventBound(s: State, c: ClientId)
    requires Keyed(s.jobs) && c in s.clients
    ensures forall id :: id in s.jobs && s.jobs[id].state == Reserved && s.jobs[id].reservedBy == c ==>
              NextEvent(s, c) <= if s.clients[c].waiting then s.jobs[id].expiresAt - 1 else s.jobs[id].expiresAt
    ensures s.clients[c].waiting ==> NextEvent(s, c) <= s.clients[c].deadline
  {
    forall id | id in s.jobs && s.jobs[id].state == Reserved && s.jobs[id].reservedBy == c
      ensures NextEvent(s, c) <= if s.clients[c].waiting then s.jobs[id].expiresAt - 1 else s.jobs[id].expiresAt
    {
      assert id in Contents(s, HeldBy(c));
    }
  }

  lemma ScheduleJobs(s: State, c: ClientId, id: JobId)
    requires Keyed(s.jobs) && c in s.clients
    requires id in s.jobs && JobInv(s, id, {c})
    ensures JobInv(Schedule(s, c), id, {})
  {
    NextEventBound(s, c);
  }

  lemma ScheduleClients(s: State, c: ClientId, d: ClientId)
    requires Keyed(s.jobs) && c in s.clients
    requires d in s.clients && ClientInv(s, d, {c})
    ensures d in Schedule(s, c).clients ==> ClientInv(Schedule(s, c), d, {})
  {
    NextEventBound(s, c);
  }

  lemma ScheduleTubes(s: State, c: ClientId, t: TubeName)
    requires Keyed(s.jobs) && c in s.clients && ClientInv(s, c, {c})
    requires t in s.tubes && TubeInv(s, t)
    ensures TubeInv(Schedule(s, c), t)
  {
  }

  // Setting the timer of a client repairs its part of the invariant.
  lemma ScheduleInv(s: State, c: ClientId)
    requires InvBut(s, {c}) && c in s.clients
    ensures Keyed(s.jobs)
    ensures Inv(Schedule(s, c))
  {
    InvKeyed(s, {c});
    WithoutMembers(s.roster, c);
    var s' := Schedule(s, c);
    forall k | k in s'.jobs ensures JobInv(s', k, {}) {
      ScheduleJobs(s, c, k);
    }
    forall d | d in s'.clients ensures ClientInv(s', d, {}) {
      ScheduleClients(s, c, d);
    }
    assert ClientInv(s, c, {c});
    forall t | t in s'.tubes ensures TubeInv(s', t) {
      ScheduleTubes(s, c, t);
    }
  }

  lemma Loosen(s: State, c: ClientId)
    requires Inv(s)
    ensures InvBut(s, {c})
  {
    forall k | k in s.jobs ensures JobInv(s, k, {c}) { assert JobInv(s, k, {}); }
    forall d | d in s.clients ensures ClientInv(s, d, {c}) { assert ClientInv(s, d, {}); }
  }

  lemma RetireTubes(s: State, c: ClientId, t: TubeName)
    requires c in s.clients && t in s.tubes && TubeInv(s, t)
    ensures TubeInv(Retire(s, c), t)
  {
    WithoutMembers(s.tubes[t], c);
  }

  lemma RetireClients(s: State, c: ClientId, d: ClientId, loose: set<ClientId>)
    requires c in s.clients && d in s.clients && ClientInv(s, d, loose)
    requires forall t {:trigger TubeInv(s, t)} :: t in s.tubes ==> TubeInv(s, t)
    ensures ClientInv(Retire(s, c), d, loose)
  {
    var s' := Retire(s, c);
    if d != c && s.clients[d].waiting {
      forall t | t in s.clients[d].watched ensures t in s'.tubes && d in s'.tubes[t] {
        assert TubeInv(s, t);
        WithoutMembers(s.tubes[t], c);
      }
    }
  }

  // A client that stops waiting leaves every queue.
  lemma RetireInv(s: State, c: ClientId, loose: set<ClientId>)
    requires InvBut(s, loose) && c in s.clients
    ensures InvBut(Retire(s, c), loose)
  {
    var s' := Retire(s, c);
    forall k | k in s'.jobs ensures JobInv(s', k, loose) {
      assert JobInv(s, k, loose);
    }
    forall d | d in s'.clients ensures ClientInv(s', d, loose) {
      RetireClients(s, c, d, loose);
    }
    forall t | t in s'.tubes ensures TubeInv(s', t) {
      RetireTubes(s, c, t);
    }
  }

  lemma MatchInv(s: State, now: int, t: TubeName, c: ClientId)
    requires InvBut(s, {c}) && c in s.clients && ClockOk(now)
    ensures Keyed(s.jobs)
    ensures Next(s, InReady(t)).Some? ==> Inv(Match(s, now, t, c).0)
  {
    InvKeyed(s, {c});
    if Next(s, InReady(t)).Some? {
      var id := Next(s, InReady(t)).value;
      assert JobInv(s, id, {c});
      ReserveLaw(s.jobs[id], now, c);
      var s1 := SetJob(s, ReservedJob(s.jobs[id], now, c));
      SetJobInv(s, s1, id, {c});
      RetireInv(s1, c, {c});
      ScheduleInv(Retire(s1, c), c);
    }
  }

  lemma EnrollTubes(s: State, c: ClientId, reqId: RequestId, ts: seq<TubeName>, deadline: int, t: TubeName)
    requires forall u {:trigger TubeInv(s, u)} :: u in s.tubes ==> TubeInv(s, u)
    requires c in s.clients ==> !s.clients[c].waiting
    requires t in Enroll(s, c, reqId, ts, deadline).tubes
    ensures TubeInv(Enroll(s, c, reqId, ts, deadline), t)
  {
    if t in s.tubes {
      assert TubeInv(s, t);
    }
  }

  lemma EnrollInv(s: State, c: ClientId, reqId: RequestId, ts: seq<TubeName>, deadline: int)
    requires Inv(s) && NoDup(ts) && deadline < MAX_TIME
    requires c in s.clients ==> !s.clients[c].waiting
    ensures InvBut(Enroll(s, c, reqId, ts, deadline), {c})
  {
    var s' := Enroll(s, c, reqId, ts, deadline);
    forall k | k in s'.jobs ensures JobInv(s', k, {c}) {
      assert JobInv(s, k, {});
    }
    forall d | d in s'.clients ensures ClientInv(s', d, {c}) {
      if d in s.clients { assert ClientInv(s, d, {}); }
    }
    forall t | t in s'.tubes ensures TubeInv(s', t) {
      EnrollTubes(s, c, reqId, ts, deadline, t);
    }
  }

  // The timer of the holder of job id, as it is, goes off in time for a
  // reservation that starts now.
  predicate WakesInTime(s: State, id: JobId, now: int)
    requires id in s.jobs && s.jobs[id].reservedBy in s.clients
  {
    var holder := s.clients[s.jobs[id].reservedBy];
    holder.tickAt <= now + s.jobs[id].ttr - if holder.waiting then 1 else 0
  }

  // A touch in no client's name does not set the timer of the holder.
  lemma StrayTouchInv(s: State, now: int, id: JobId)
    requires Inv(s) && ClockOk(now) && !OwnTouch(s, id, "") && Keyed(s.jobs)
    ensures s.jobs[id].reservedBy in s.clients
    ensures Inv(Touch(s, now, id, "").0) <==> WakesInTime(s, id, now)
  {
    InvJob(s, id);
    var s1, s' := SetJob(s, s.jobs[id].UpdateReservation(now)), Touch(s, now, id, "").0;
    if WakesInTime(s, id, now) {
      SetJobInv(s, s1, id, {});
      if "" in s.clients { Loosen(s1, ""); ScheduleInv(s1, ""); }
    } else {
      assert s'.clients[s.jobs[id].reservedBy] == s.clients[s.jobs[id].reservedBy];
      assert !JobInv(s', id, {});
    }
  }

  lemma TouchInv(s: State, now: int, id: JobId, c: ClientId)
    requires Inv(s) && ClockOk(now)
    ensures Keyed(s.jobs)
    ensures Inv(Touch(s, now, id, c).0) <==>
              OwnTouch(s, id, c) || (s.jobs[id].reservedBy in s.clients && WakesInTime(s, id, now))
  {
    InvKeyed(s, {});
    if !OwnTouch(s, id, c) { StrayTouchInv(s, now, id); }
    if id in s.jobs && s.jobs[id].state == Reserved && s.jobs[id].reservedBy == c {
      assert JobInv(s, id, {});
      Loosen(s, c);
      var s1 := SetJob(s, s.jobs[id].UpdateReservation(now));
      SetJobInv(s, s1, id, {c});
      ScheduleInv(s1, c);
    }
  }

  lemma AppendReservationInv(s: State, c: ClientId, reqId: RequestId, ts: seq<TubeName>, now: int, deadline: int)
    requires Inv(s) && ClockOk(now) && NoDup(ts)
    ensures Keyed(s.jobs)
    ensures Inv(AppendReservation(s, c, reqId, ts, now, deadline).0)
  {
    InvKeyed(s, {});
    if now <= deadline <= now + MAX_TIMEOUT_SECS && !(c in s.clients && s.clients[c].waiting) {
      var s1 := Enroll(s, c, reqId, ts, deadline);
      EnrollInv(s, c, reqId, ts, deadline);
      FirstReadyHas(s1, ts);
      match FirstReady(s1, ts)
      case Some(t) => MatchInv(s1, now, t, c);
      case None => ScheduleInv(s1, c);
    }
  }

  // ----- counting ---------------------------------------------------------

  // Every job is in one of the four kinds of container.
  ghost function InState(s: State, st: JobState): set<JobId> {
    set id | id in s.jobs && s.jobs[id].state == st
  }

  lemma TotalJobs(s: State)
    requires Inv(s)
    ensures |InState(s, Ready)| + |InState(s, Delayed)| + |InState(s, Buried)| + |InState(s, Reserved)| == |s.jobs|
  {
    forall id | id in s.jobs
      ensures id in InState(s, Ready) + InState(s, Delayed) + InState(s, Buried) + InState(s, Reserved)
    {
      assert JobInv(s, id, {});
    }
    assert s.jobs.Keys == InState(s, Ready) + InState(s, Delayed) + InState(s, Buried) + InState(s, Reserved);
  }
}
