/** How ready jobs are given to waiting clients. */
module Matching {
  import opened Types
  import opened Spec
  import opened Invariant
  import opened Ticks
  import opened TickFacts
  import opened Answers

  // ----- no work is left undone -------------------------------------------

  // Serving one tube leaves the ready jobs of the others, and shortens queues.
  ghost predicate OtherTubes(s: State, s': State, t: TubeName) {
    && s'.tubes.Keys == s.tubes.Keys
    && (forall u :: u != t ==> Contents(s', InReady(u)) == Contents(s, InReady(u)))
    && (forall u, c :: u in s.tubes && c in s'.tubes[u] ==> c in s.tubes[u])
  }

  lemma MatchOthers(s: State, now: int, t: TubeName, c: ClientId)
    requires Keyed(s.jobs) && c in s.clients && Next(s, InReady(t)).Some?
    requires forall u :: u in s.tubes ==> NoDup(s.tubes[u])
    ensures OtherTubes(s, Match(s, now, t, c).0, t)
  {
    MatchJobs(s, now, t, c);
    forall u | u in s.tubes ensures forall d :: d in Without(s.tubes[u], c) ==> d in s.tubes[u] {
      WithoutMembers(s.tubes[u], c);
    }
  }

  lemma {:induction false} TickTubeOthers(s: State, now: int, t: TubeName)
    requires Inv(s) && ClockOk(now)
    ensures OtherTubes(s, TickTube(s, now, t).0, t)
    ensures !Busy(TickTube(s, now, t).0, t)
    decreases |Contents(s, InReady(t))|
  {
    if Busy(s, t) {
      BusyMatch(s, now, t);
      forall u | u in s.tubes ensures NoDup(s.tubes[u]) { assert TubeInv(s, u); }
      MatchOthers(s, now, t, s.tubes[t][0]);
      TickTubeOthers(Match(s, now, t, s.tubes[t][0]).0, now, t);
    }
  }

  lemma StaysIdle(s: State, s': State, t: TubeName, u: TubeName)
    requires OtherTubes(s, s', t) && u != t && !Busy(s, u)
    ensures !Busy(s', u)
  {
    if u in s'.tubes && s'.tubes[u] != [] {
      assert s'.tubes[u][0] in s'.tubes[u];
    }
  }

  // A tube that has been served, or was idle, is idle at the end.
  lemma {:induction false} TickReadyIdle(s: State, now: int, order: seq<TubeName>, u: TubeName)
    requires Inv(s) && ClockOk(now)
    requires u in order || !Busy(s, u)
    ensures TickReady(s, now, order).0.tubes.Keys == s.tubes.Keys
    ensures !Busy(TickReady(s, now, order).0, u)
    decreases |order|
  {
    if order != [] {
      var t := order[0];
      var s1 := TickTube(s, now, t).0;
      TickTubeOthers(s, now, t);
      if u != t && !Busy(s, u) { StaysIdle(s, s1, t, u); }
      TickReadyIdle(s1, now, order[1..], u);
    }
  }

  // After all tubes were served no tube has both a ready job and a waiting client.
  lemma WorkConserved(s: State, now: int, order: seq<TubeName>)
    requires Inv(s) && ClockOk(now)
    requires forall t :: t in s.tubes ==> t in order
    ensures forall t :: !Busy(TickReady(s, now, order).0, t)
  {
    forall t ensures !Busy(TickReady(s, now, order).0, t) {
      TickReadyIdle(s, now, order, t);
    }
  }

  // ----- no wait ends in vain while there is work -------------------------

  lemma AllHandedOut(s: State, s1: State, s2: State, s3: State, now: int, c: ClientId, k: JobId)
    requires s1.jobs == TickDelay(s, now).jobs && OnlyReserves(s1, s2, now) && OnlyExpires(s2, s3, now)
    requires k in s.jobs && Available(s.jobs[k], now) && 0 <= s.jobs[k].ttr
    requires Inv(s2) && Waits(s2, c) && s.jobs[k].tube in s2.clients[c].watched && !Busy(s2, s.jobs[k].tube)
    ensures k in s3.jobs && GivenTo(s.jobs[k], s3.jobs[k], now, s3.jobs[k].reservedBy)
  {
    hide InvBut, Busy, TickDelay, OnlyReserves, OnlyExpires, GivenTo;
    NoneReady(s2, c, s.jobs[k].tube);
    StillReady(s, s1, s2, s3, now, k);
    assert k !in Contents(s2, InReady(s.jobs[k].tube));
    ReadyGiven(s1, s2, now, k);
    GivenStays(s2, s3, now, k);
    GivenFrom(s.jobs[k], s2.jobs[k], now);
  }

  lemma ReadyGiven(s: State, s': State, now: int, k: JobId)
    requires OnlyReserves(s, s', now) && k in s.jobs && s.jobs[k].state == Ready
    ensures k in s'.jobs && s'.jobs[k].tube == s.jobs[k].tube
    ensures s'.jobs[k].state == Ready || GivenTo(s.jobs[k], s'.jobs[k], now, s'.jobs[k].reservedBy)
  {
  }

  lemma GivenStays(s: State, s': State, now: int, k: JobId)
    requires OnlyExpires(s, s', now) && k in s.jobs
    ensures k in s'.jobs && (now <= s.jobs[k].expiresAt ==> s'.jobs[k] == s.jobs[k])
  {
  }

  lemma GivenFrom(j: Job, j': Job, now: int)
    ensures GivenTo(j.(state := Ready), j', now, j'.reservedBy) ==>
              GivenTo(j, j', now, j'.reservedBy) && j'.expiresAt == now + j.ttr
  {
  }

  lemma NoneReady(s: State, c: ClientId, t: TubeName)
    requires Inv(s) && Waits(s, c) && t in s.clients[c].watched && !Busy(s, t)
    ensures Contents(s, InReady(t)) == {}
  {
    assert ClientInv(s, c, {});
  }

  // A tick ends no wait in vain while there is work: if it tells a client of a
  // timeout or of a job about to end, it has given away every job that was
  // available in the tubes the client watches.
  lemma NothingLeft(s: State, now: int, order: seq<TubeName>, i: nat, k: JobId)
    requires Inv(s) && ClockOk(now) && forall t :: t in s.tubes ==> t in order
    requires i < |Tick(s, now, order).1| && Tick(s, now, order).1[i].status != Matched
    requires var c := Tick(s, now, order).1[i].clientId;
             k in s.jobs && Available(s.jobs[k], now) && c in s.clients && s.jobs[k].tube in s.clients[c].watched
    ensures var s' := Tick(s, now, order).0;
            k in s'.jobs && GivenTo(s.jobs[k], s'.jobs[k], now, s'.jobs[k].reservedBy)
  {
    InvJob(s, k);
    hide InvBut, JobInv, Tick, TickReady, TickClients, OnlyExpires, TickDelay, OnlyReserves, Busy, GivenTo, Available;
    var s1 := Delayed1(s, now);
    var s2 := TickReady(s1, now, order).0;
    var c := Tick(s, now, order).1[i].clientId;
    VainAt(s, now, order, i);
    TickPhases(s, now, order);
    SameTubes(s, now);
    WorkConserved(s1, now, order);
    AllHandedOut(s, s1, s2, Tick(s, now, order).0, now, c, k);
  }

  lemma SameTubes(s: State, now: int)
    requires Inv(s)
    ensures Delayed1(s, now).tubes == s.tubes
  {
  }

  // A client whose wait ends in vain still waits when the jobs have been
  // handed out.
  lemma VainAt(s: State, now: int, order: seq<TubeName>, i: nat)
    requires Inv(s) && ClockOk(now) && i < |Tick(s, now, order).1| && Tick(s, now, order).1[i].status != Matched
    ensures var s2, c := TickReady(Delayed1(s, now), now, order).0, Tick(s, now, order).1[i].clientId;
            Waits(s, c) && Waits(s2, c) && s2.clients[c].watched == s.clients[c].watched
  {
    hide InvBut, TickReady, TickClients, Gives, Answered, InVain, TickDelay;
    var s1 := Delayed1(s, now);
    var (s2, r2) := TickReady(s1, now, order);
    var r3 := TickClients(s2, now).1;
    assert Tick(s, now, order).1 == r2 + r3;
    TickReadyGives(s1, now, order);
    AllMatched(s1, s2, now, r2);
    TickClientsInVain(s2, now);
    NoneMatched(s2, now, r3);
    AnsweredReady(s, now, order);
    StillWatches(s, s2, r2, r3[i - |r2|].clientId);
  }

  lemma StillWatches(s: State, s': State, rs: seq<Reservation>, c: ClientId)
    requires Answered(s, s', rs) && Waits(s', c)
    ensures Waits(s, c) && s'.clients[c].watched == s.clients[c].watched
  {
    assert !Replied(rs, c);
  }

  // ----- requests ---------------------------------------------------------

  // Client c is known, last in order of arrival if it is new; the others are as
  // they were.
  ghost predicate Admits(s: State, s': State, c: ClientId) {
    && c in s'.clients && s'.clients.Keys == s.clients.Keys + {c} && s'.roster == (if c in s.clients then s.roster else s.roster + [c])
    && (forall d :: d in s.clients && d != c ==> s'.clients[d] == s.clients[d])
    && s'.maxJobId == s.maxJobId && s'.nextDelay == s.nextDelay
  }

  // Client c now waits for a job of the tubes ts, last in each of their queues.
  ghost predicate Lined(s: State, s': State, c: ClientId, reqId: RequestId, ts: seq<TubeName>, deadline: int) {
    && Waits(s', c) && s'.clients[c].reqId == reqId && s'.clients[c].watched == ts && s'.clients[c].deadline == deadline
    && s'.jobs == s.jobs && Admits(s, s', c)
    && (forall t :: t in s'.tubes <==> t in s.tubes || t in ts)
    && (forall t :: t in s'.tubes ==>
          s'.tubes[t] == (if t in s.tubes then s.tubes[t] else []) + if t in ts then [c] else [])
  }

  // r hands out the most urgent job of the first of the tubes ts that has one.
  ghost predicate ServedAtOnce(s: State, s': State, c: ClientId, ts: seq<TubeName>, now: int, r: Reservation) {
    && Handover(s, s', now, r) && s'.jobs == s.jobs[r.jobId := s'.jobs[r.jobId]] && !Waits(s', c)
    && exists i :: && 0 <= i < |ts| && r.jobId in Contents(s, InReady(ts[i]))
                   && (forall k :: k in Contents(s, InReady(ts[i])) && k != r.jobId ==> MoreUrgent(s.jobs[r.jobId], s.jobs[k]))
                   && (forall k :: 0 <= k < i ==> Contents(s, InReady(ts[k])) == {})
  }

  // A request is refused exactly if it may not wait so long or its client is
  // already waiting; it is queued exactly if no tube it watches has a ready
  // job; and otherwise it is served at once.
  lemma QueuedIff(s: State, c: ClientId, reqId: RequestId, ts: seq<TubeName>, now: int, deadline: int)
    requires Keyed(s.jobs)
    ensures var (s', r) := AppendReservation(s, c, reqId, ts, now, deadline);
            if !(now <= deadline <= now + MAX_TIMEOUT_SECS) then s' == s && r == Err(InvalidResvTimeout)
            else if Waits(s, c) then s' == s && r == Err(ClientIsWaitingForReservation)
            else
              && r.Ok? && r.value.clientId == c && r.value.requestId == reqId
              && if forall t :: t in ts ==> Contents(s, InReady(t)) == {}
                 then r.value.status == Queued && NoJob(r.value) && (deadline < MAX_TIME ==> Lined(s, s', c, reqId, ts, deadline))
                 else ServedAtOnce(s, s', c, ts, now, r.value)
  {
    hide NextEvent;
    if now <= deadline <= now + MAX_TIMEOUT_SECS && !Waits(s, c) {
      var s1 := Enroll(s, c, reqId, ts, deadline);
      forall p ensures Contents(s1, p) == Contents(s, p) {}
      FirstReadyHas(s1, ts);
      if FirstReady(s1, ts).Some? {
        var i := FirstReadyIndex(s1, ts);
        NextSame(s, s1, InReady(ts[i]));
        MatchServes(s, s1, c, ts, now, i);
      } else {
        if deadline < MAX_TIME { QueueLines(s, c, reqId, ts, deadline); }
      }
    }
  }

  lemma QueueLines(s: State, c: ClientId, reqId: RequestId, ts: seq<TubeName>, deadline: int)
    requires Keyed(s.jobs) && deadline < MAX_TIME
    ensures Lined(s, Schedule(Enroll(s, c, reqId, ts, deadline), c), c, reqId, ts, deadline)
  {
    NextEventBound(Enroll(s, c, reqId, ts, deadline), c);
  }

  lemma MatchServes(s: State, s1: State, c: ClientId, ts: seq<TubeName>, now: int, i: nat)
    requires Keyed(s.jobs) && s1.jobs == s.jobs && c in s1.clients && i < |ts|
    requires Next(s1, InReady(ts[i])) == Next(s, InReady(ts[i])) && Next(s, InReady(ts[i])).Some?
    requires forall k :: 0 <= k < i ==> Contents(s, InReady(ts[k])) == {}
    ensures ServedAtOnce(s, Match(s1, now, ts[i], c).0, c, ts, now, Match(s1, now, ts[i], c).1)
  {
    var t, id := ts[i], Next(s, InReady(ts[i])).value;
    MatchGives(s1, now, t, c);
    MatchJobs(s1, now, t, c);
    assert id in Contents(s, InReady(t));
  }

  lemma NextSame(s: State, s1: State, p: Place)
    requires Keyed(s.jobs) && s1.jobs == s.jobs
    ensures Next(s1, p) == Next(s, p)
  {
  }

  lemma {:induction false} FirstReadyIndex(s: State, ts: seq<TubeName>) returns (i: nat)
    requires FirstReady(s, ts).Some?
    ensures i < |ts| && FirstReady(s, ts) == Some(ts[i])
    ensures forall k :: 0 <= k < i ==> Contents(s, InReady(ts[k])) == {}
  {
    if Contents(s, InReady(ts[0])) != {} {
      i := 0;
    } else {
      var k := FirstReadyIndex(s, ts[1..]);
      i := k + 1;
    }
  }
}
