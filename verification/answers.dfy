/** What a tick tells the clients: which answer, when, and with which job. */
module Answers {
  import opened Types
  import opened Spec
  import opened Invariant
  import opened Ticks
  import opened TickFacts

  // No job comes with the answer.
  predicate NoJob(r: Reservation) {
    r.jobId == 0 && r.bodySize == 0 && r.body == []
  }

  // ----- jobs that are handed out -----------------------------------------

  // r hands a ready job of s to its client, with its body.
  ghost predicate HandsOut(s: State, s': State, now: int, r: Reservation) {
    && r.status == Matched && r.jobId in s.jobs && r.jobId in s'.jobs
    && s.jobs[r.jobId].state == Ready && GivenTo(s.jobs[r.jobId], s'.jobs[r.jobId], now, r.clientId)
    && r.bodySize == s.jobs[r.jobId].bodySize && r.body == s.jobs[r.jobId].body
  }

  ghost predicate Told(rs: seq<Reservation>, id: JobId, c: ClientId) {
    exists i :: 0 <= i < |rs| && rs[i].jobId == id && rs[i].clientId == c
  }

  // Exactly the jobs in rs are handed out.
  ghost predicate Gives(s: State, s': State, now: int, rs: seq<Reservation>) {
    && s'.jobs.Keys == s.jobs.Keys
    && (forall i :: 0 <= i < |rs| ==> HandsOut(s, s', now, rs[i]))
    && (forall id :: id in s.jobs && s'.jobs[id] != s.jobs[id] ==> Told(rs, id, s'.jobs[id].reservedBy))
  }

  lemma GivesTwice(s: State, s1: State, s2: State, now: int, r1: seq<Reservation>, r2: seq<Reservation>)
    requires Gives(s, s1, now, r1) && Gives(s1, s2, now, r2)
    requires OnlyReserves(s, s1, now) && OnlyReserves(s1, s2, now)
    ensures Gives(s, s2, now, r1 + r2)
  {
    var rs := r1 + r2;
    forall i | 0 <= i < |rs| ensures HandsOut(s, s2, now, rs[i]) {
      if i < |r1| {
        assert HandsOut(s, s1, now, r1[i]);
      } else {
        assert HandsOut(s1, s2, now, r2[i - |r1|]);
      }
    }
    forall id | id in s.jobs && s2.jobs[id] != s.jobs[id] ensures Told(rs, id, s2.jobs[id].reservedBy) {
      if s2.jobs[id] != s1.jobs[id] {
        var i :| 0 <= i < |r2| && r2[i].jobId == id && r2[i].clientId == s2.jobs[id].reservedBy;
        assert rs[|r1| + i] == r2[i];
      } else {
        var i :| 0 <= i < |r1| && r1[i].jobId == id && r1[i].clientId == s1.jobs[id].reservedBy;
        assert rs[i] == r1[i];
      }
    }
  }

  lemma MatchGives(s: State, now: int, t: TubeName, c: ClientId)
    requires Keyed(s.jobs) && c in s.clients && Next(s, InReady(t)).Some?
    ensures Gives(s, Match(s, now, t, c).0, now, [Match(s, now, t, c).1])
  {
    MatchJobs(s, now, t, c);
    var rs := [Match(s, now, t, c).1];
    assert rs[0].jobId == Next(s, InReady(t)).value && rs[0].clientId == c;
  }

  lemma {:induction false} TickTubeGives(s: State, now: int, t: TubeName)
    requires Inv(s) && ClockOk(now)
    ensures Gives(s, TickTube(s, now, t).0, now, TickTube(s, now, t).1)
    decreases |Contents(s, InReady(t))|
  {
    if Busy(s, t) {
      hide InvBut, Match, Gives;
      BusyMatch(s, now, t);
      var c := s.tubes[t][0];
      var (s1, r1) := Match(s, now, t, c);
      MatchGives(s, now, t, c);
      MatchReserves(s, now, t, c);
      TickTubeGives(s1, now, t);
      TickTubeJobs(s1, now, t);
      GivesTwice(s, s1, TickTube(s1, now, t).0, now, [r1], TickTube(s1, now, t).1);
    }
  }

  lemma MatchReserves(s: State, now: int, t: TubeName, c: ClientId)
    requires Keyed(s.jobs) && c in s.clients && Next(s, InReady(t)).Some?
    ensures OnlyReserves(s, Match(s, now, t, c).0, now)
  {
    MatchJobs(s, now, t, c);
  }

  lemma {:induction false} TickReadyGives(s: State, now: int, order: seq<TubeName>)
    requires Inv(s) && ClockOk(now)
    ensures Gives(s, TickReady(s, now, order).0, now, TickReady(s, now, order).1)
    decreases |order|
  {
    if order != [] {
      hide InvBut, TickTube, Gives, OnlyReserves;
      var (s1, r1) := TickTube(s, now, order[0]);
      TickTubeGives(s, now, order[0]);
      TickTubeJobs(s, now, order[0]);
      TickReadyGives(s1, now, order[1..]);
      TickReadyJobs(s1, now, order[1..]);
      GivesTwice(s, s1, TickReady(s1, now, order[1..]).0, now, r1, TickReady(s1, now, order[1..]).1);
    }
  }

  // ----- waits that end in vain -------------------------------------------

  // Client c holds a job whose reservation ends now.
  ghost predicate EndsNow(s: State, now: int, c: ClientId) {
    exists id :: Holds(s, c, id) && s.jobs[id].expiresAt == now
  }

  // r ends the wait of its client without a job: its deadline has passed, or
  // it has not, but a job it holds is about to be lost.
  ghost predicate InVain(s: State, now: int, r: Reservation) {
    && Waits(s, r.clientId) && NoJob(r)
    && var deadline := s.clients[r.clientId].deadline;
    || (r.status == Timeout && deadline < now)
    || (r.status == DeadlineSoon && now <= deadline && EndsNow(s, now, r.clientId))
  }

  lemma WakeInVain(s: State, now: int, c: ClientId)
    requires Keyed(s.jobs) && c in s.clients
    ensures forall i :: 0 <= i < |Wake(s, now, c).1| ==> InVain(s, now, Wake(s, now, c).1[i])
  {
    hide Schedule, LapsedTubes;
    ServedFacts(s, now, c);
    var s2 := Served(s, now, c);
    if Soon(s2, now, c) {
      var id := Next(s2, HeldBy(c)).value;
      assert id in Contents(s2, HeldBy(c));
      assert Holds(s, c, id) && s.jobs[id].expiresAt == now;
    }
  }

  // An answer that is right after others have been woken was right before.
  lemma InVainBefore(s: State, s1: State, now: int, rs: seq<Reservation>, r: Reservation)
    requires OnlyExpires(s, s1, now) && Answered(s, s1, rs) && InVain(s1, now, r)
    ensures InVain(s, now, r)
  {
    var c := r.clientId;
    assert Waits(s, c) && !Replied(rs, c);
    if EndsNow(s1, now, c) {
      var id :| Holds(s1, c, id) && s1.jobs[id].expiresAt == now;
      assert Holds(s, c, id) && s.jobs[id].expiresAt == now;
    }
  }

  lemma {:induction false} TickClientsInVain(s: State, now: int)
    requires Inv(s) && ClockOk(now)
    ensures forall i :: 0 <= i < |TickClients(s, now).1| ==> InVain(s, now, TickClients(s, now).1[i])
    decreases |Overdue(s, now)|
  {
    assert s.timers <= s.clients.Keys;
    hide InvBut, Wake, InVain, Answered, OnlyExpires;
    InvKeyed(s, {});
    var first := FirstTimer(s);
    if first.Some? && s.clients[first.value].tickAt < now {
      var c := first.value;
      WakeInv(s, now, c);
      WakeOverdue(s, now, c);
      WakeInVain(s, now, c);
      WakeJobs(s, now, c);
      WakeAnswers(s, now, c);
      var (s1, r1) := Wake(s, now, c);
      TickClientsInVain(s1, now);
      var r2 := TickClients(s1, now).1;
      forall i | 0 <= i < |r1 + r2| ensures InVain(s, now, (r1 + r2)[i]) {
        if i >= |r1| { InVainBefore(s, s1, now, r1, r2[i - |r1|]); }
      }
    }
  }

  // ----- the whole tick ---------------------------------------------------

  // A job that is ready, or will be before this tick hands jobs out.
  predicate Available(j: Job, now: int) {
    j.state == Ready || (j.state == Delayed && j.readyAt < now)
  }

  // The job of r becomes the client's in the step from s to s', and r brings
  // its body; the client holds it for its time to run.
  ghost predicate Handover(s: State, s': State, now: int, r: Reservation) {
    && r.status == Matched && r.jobId in s.jobs && Available(s.jobs[r.jobId], now)
    && r.jobId in s'.jobs && GivenTo(s.jobs[r.jobId], s'.jobs[r.jobId], now, r.clientId)
    && r.bodySize == s.jobs[r.jobId].bodySize && r.body == s.jobs[r.jobId].body
  }

  // The answers of a tick say what happened to their clients.
  ghost predicate Truthful(s: State, s': State, now: int, r: Reservation) {
    if r.status == Matched then Handover(s, s', now, r) else InVain(s, now, r)
  }

  // A client that was not given a job in the first phase holds only what it
  // held before.
  lemma VainBeforeReady(s: State, s1: State, s2: State, now: int, rs: seq<Reservation>, r: Reservation)
    requires Answered(s, s2, rs) && Gives(s1, s2, now, rs) && InVain(s2, now, r)
    requires s1.jobs == TickDelay(s, now).jobs
    ensures InVain(s, now, r)
  {
    var c := r.clientId;
    assert Waits(s, c) && !Replied(rs, c);
    if EndsNow(s2, now, c) {
      var id :| Holds(s2, c, id) && s2.jobs[id].expiresAt == now;
      assert s2.jobs[id] == s1.jobs[id];
      assert Holds(s, c, id) && s.jobs[id].expiresAt == now;
    }
  }

  lemma HandoverWhole(s: State, s1: State, s2: State, s3: State, now: int, r: Reservation)
    requires HandsOut(s1, s2, now, r) && s1.jobs == TickDelay(s, now).jobs && OnlyExpires(s2, s3, now)
    requires r.jobId in s.jobs ==> 0 <= s.jobs[r.jobId].ttr
    ensures Handover(s, s3, now, r)
  {
  }

  lemma AnsweredReady(s: State, now: int, order: seq<TubeName>)
    requires Inv(s) && ClockOk(now)
    ensures var (s2, r2) := TickReady(Delayed1(s, now), now, order); Answered(s, s2, r2)
  {
    hide InvBut;
    var s1 := Delayed1(s, now);
    TickReadyAnswers(s1, now, order);
  }

  // The two kinds of answers, put together.
  lemma BothTruthful(s: State, s1: State, s2: State, s3: State, now: int, r2: seq<Reservation>, r3: seq<Reservation>)
    requires s1.jobs == TickDelay(s, now).jobs && Gives(s1, s2, now, r2) && Answered(s, s2, r2) && OnlyExpires(s2, s3, now)
    requires forall i :: 0 <= i < |r3| ==> InVain(s2, now, r3[i])
    requires forall id :: id in s.jobs ==> 0 <= s.jobs[id].ttr
    ensures forall i :: 0 <= i < |r2 + r3| ==> Truthful(s, s3, now, (r2 + r3)[i])
  {
    hide InVain, Gives, Answered, OnlyExpires, HandsOut, Handover, TickDelay;
    forall i | 0 <= i < |r2 + r3| ensures Truthful(s, s3, now, (r2 + r3)[i]) {
      if i < |r2| {
        GivesOut(s1, s2, now, r2, i);
        HandoverWhole(s, s1, s2, s3, now, r2[i]);
      } else {
        NotMatched(s2, now, r3[i - |r2|]);
        VainBeforeReady(s, s1, s2, now, r2, r3[i - |r2|]);
      }
    }
  }

  // Every answer of a tick is true: a job handed out becomes the client's,
  // with its body and for its time to run; a timeout comes after the deadline;
  // a warning before it, when a job of the client ends now.
  lemma TickTruthful(s: State, now: int, order: seq<TubeName>)
    requires Inv(s) && ClockOk(now)
    ensures var (s', rs) := Tick(s, now, order);
            forall i :: 0 <= i < |rs| ==> Truthful(s, s', now, rs[i])
  {
    forall id | id in s.jobs ensures 0 <= s.jobs[id].ttr { assert JobInv(s, id, {}); }
    hide InvBut, TickReady, TickClients, InVain, Gives, Answered, OnlyExpires, Truthful, TickDelay;
    GuardIsSafe(s, now);
    var s1 := Delayed1(s, now);
    var (s2, r2) := TickReady(s1, now, order);
    var (s3, r3) := TickClients(s2, now);
    TickReadyGives(s1, now, order);
    AnsweredReady(s, now, order);
    TickClientsJobs(s2, now);
    TickClientsInVain(s2, now);
    BothTruthful(s, s1, s2, s3, now, r2, r3);
  }

  lemma GivesOut(s: State, s': State, now: int, rs: seq<Reservation>, i: nat)
    requires Gives(s, s', now, rs) && i < |rs|
    ensures HandsOut(s, s', now, rs[i]) && rs[i].status == Matched
  {
  }

  lemma NoneMatched(s: State, now: int, rs: seq<Reservation>)
    requires forall i :: 0 <= i < |rs| ==> InVain(s, now, rs[i])
    ensures forall i :: 0 <= i < |rs| ==> rs[i].status != Matched && Waits(s, rs[i].clientId)
  {
  }

  lemma AllMatched(s: State, s': State, now: int, rs: seq<Reservation>)
    requires Gives(s, s', now, rs)
    ensures forall i :: 0 <= i < |rs| ==> rs[i].status == Matched
  {
    forall i | 0 <= i < |rs| ensures rs[i].status == Matched { assert HandsOut(s, s', now, rs[i]); }
  }

  lemma NotMatched(s: State, now: int, r: Reservation)
    requires InVain(s, now, r)
    ensures r.status != Matched
  {
  }

  // ... and every client that gets a job is told.
  lemma TickTells(s: State, now: int, order: seq<TubeName>, c: ClientId, id: JobId)
    requires Inv(s) && ClockOk(now)
    requires !Holds(s, c, id) && Holds(Tick(s, now, order).0, c, id)
    ensures var rs := Tick(s, now, order).1;
            exists i :: 0 <= i < |rs| && rs[i].status == Matched && rs[i].clientId == c && rs[i].jobId == id
  {
    hide InvBut, TickReady, TickClients, Gives, OnlyExpires, TickDelay;
    GuardIsSafe(s, now);
    var s1 := Delayed1(s, now);
    var (s2, r2) := TickReady(s1, now, order);
    TickReadyGives(s1, now, order);
    TickClientsJobs(s2, now);
    var i := TellsWho(s, s1, s2, TickClients(s2, now).0, now, r2, c, id);
    assert Tick(s, now, order).1[i] == r2[i];
  }

  lemma TellsWho(s: State, s1: State, s2: State, s3: State, now: int, rs: seq<Reservation>, c: ClientId, id: JobId)
    returns (i: nat)
    requires s1.jobs == TickDelay(s, now).jobs && Gives(s1, s2, now, rs) && OnlyExpires(s2, s3, now)
    requires !Holds(s, c, id) && Holds(s3, c, id)
    ensures i < |rs| && rs[i].status == Matched && rs[i].clientId == c && rs[i].jobId == id
  {
    assert s2.jobs[id] != s1.jobs[id];
    i :| 0 <= i < |rs| && rs[i].jobId == id && rs[i].clientId == c;
    assert HandsOut(s1, s2, now, rs[i]);
  }

  // ----- which job --------------------------------------------------------

  // Job a goes out before job b: a smaller number means more urgent, and among
  // equals the older job goes first.
  predicate MoreUrgent(a: Job, b: Job) {
    a.priority < b.priority || (a.priority == b.priority && a.id < b.id)
  }

  // Whatever is left ready in a tube is less urgent than what was handed out.
  ghost predicate InOrder(s: State, s': State, rs: seq<Reservation>) {
    forall i, k :: (&& 0 <= i < |rs| && rs[i].jobId in s.jobs && k in s.jobs && k in s'.jobs
                    && s'.jobs[k].state == Ready && s'.jobs[k].tube == s.jobs[rs[i].jobId].tube)
                   ==> MoreUrgent(s.jobs[rs[i].jobId], s.jobs[k])
  }

  lemma InOrderTwice(s: State, s1: State, s2: State, now: int, r1: seq<Reservation>, r2: seq<Reservation>)
    requires InOrder(s, s1, r1) && InOrder(s1, s2, r2) && OnlyReserves(s, s1, now) && OnlyReserves(s1, s2, now)
    requires Gives(s1, s2, now, r2)
    ensures InOrder(s, s2, r1 + r2)
  {
    var rs := r1 + r2;
    forall i, k | && 0 <= i < |rs| && rs[i].jobId in s.jobs && k in s.jobs && k in s2.jobs
                  && s2.jobs[k].state == Ready && s2.jobs[k].tube == s.jobs[rs[i].jobId].tube
      ensures MoreUrgent(s.jobs[rs[i].jobId], s.jobs[k])
    {
      assert s1.jobs[k] == s.jobs[k] && s2.jobs[k] == s1.jobs[k];
      if i < |r1| {
        assert rs[i] == r1[i];
      } else {
        assert rs[i] == r2[i - |r1|] && HandsOut(s1, s2, now, r2[i - |r1|]);
        assert s1.jobs[rs[i].jobId] == s.jobs[rs[i].jobId];
      }
    }
  }

  lemma MatchInOrder(s: State, now: int, t: TubeName, c: ClientId)
    requires Keyed(s.jobs) && c in s.clients && Next(s, InReady(t)).Some?
    ensures InOrder(s, Match(s, now, t, c).0, [Match(s, now, t, c).1])
  {
    MatchJobs(s, now, t, c);
    var s', id := Match(s, now, t, c).0, Next(s, InReady(t)).value;
    assert id in Contents(s, InReady(t)) && Match(s, now, t, c).1.jobId == id;
    forall k | k in s'.jobs && s'.jobs[k].state == Ready && s'.jobs[k].tube == t ensures MoreUrgent(s.jobs[id], s.jobs[k]) {
      assert k != id && k in Contents(s, InReady(t));
    }
  }

  lemma {:induction false} TickTubeInOrder(s: State, now: int, t: TubeName)
    requires Inv(s) && ClockOk(now)
    ensures InOrder(s, TickTube(s, now, t).0, TickTube(s, now, t).1)
    decreases |Contents(s, InReady(t))|
  {
    if Busy(s, t) {
      hide InvBut, Match, Gives, InOrder;
      BusyMatch(s, now, t);
      var c := s.tubes[t][0];
      var (s1, r1) := Match(s, now, t, c);
      MatchInOrder(s, now, t, c);
      MatchReserves(s, now, t, c);
      TickTubeInOrder(s1, now, t);
      TickTubeGives(s1, now, t);
      TickTubeJobs(s1, now, t);
      InOrderTwice(s, s1, TickTube(s1, now, t).0, now, [r1], TickTube(s1, now, t).1);
    } else {
      assert TickTube(s, now, t).1 == [];
    }
  }

  lemma {:induction false} TickReadyInOrder(s: State, now: int, order: seq<TubeName>)
    requires Inv(s) && ClockOk(now)
    ensures InOrder(s, TickReady(s, now, order).0, TickReady(s, now, order).1)
    decreases |order|
  {
    if order != [] {
      hide InvBut, TickTube, Gives, OnlyReserves, InOrder;
      var (s1, r1) := TickTube(s, now, order[0]);
      TickTubeInOrder(s, now, order[0]);
      TickTubeJobs(s, now, order[0]);
      TickReadyInOrder(s1, now, order[1..]);
      TickReadyGives(s1, now, order[1..]);
      TickReadyJobs(s1, now, order[1..]);
      InOrderTwice(s, s1, TickReady(s1, now, order[1..]).0, now, r1, TickReady(s1, now, order[1..]).1);
    } else {
      assert TickReady(s, now, order).1 == [];
    }
  }

  // A tick hands out the most urgent jobs: one that was available in the same
  // tube and is still ready afterwards is less urgent than any that went out.
  lemma TickInOrder(s: State, now: int, order: seq<TubeName>, i: nat, k: JobId)
    requires Inv(s) && ClockOk(now)
    requires i < |Tick(s, now, order).1| && Tick(s, now, order).1[i].status == Matched
    requires k in s.jobs && Available(s.jobs[k], now)
    ensures var (s', rs) := Tick(s, now, order);
            && rs[i].jobId in s.jobs && k in s'.jobs
            && (s'.jobs[k].state == Ready && s.jobs[k].tube == s.jobs[rs[i].jobId].tube ==>
                  MoreUrgent(s.jobs[rs[i].jobId], s.jobs[k]))
  {
    InvJob(s, k);
    hide InvBut, TickReady, TickClients, Gives, OnlyExpires, InOrder, InVain, TickDelay, OnlyReserves;
    GuardIsSafe(s, now);
    var s1 := Delayed1(s, now);
    var (s2, r2) := TickReady(s1, now, order);
    TickReadyGives(s1, now, order);
    TickReadyJobs(s1, now, order);
    TickReadyInOrder(s1, now, order);
    TickClientsJobs(s2, now);
    TickClientsInVain(s2, now);
    var r3 := TickClients(s2, now).1;
    NoneMatched(s2, now, r3);
    assert i < |r2|;
    OrderWhole(s, s1, s2, TickClients(s2, now).0, now, r2, i, k);
  }

  lemma OrderWhole(s: State, s1: State, s2: State, s3: State, now: int, rs: seq<Reservation>, i: nat, k: JobId)
    requires s1.jobs == TickDelay(s, now).jobs && Gives(s1, s2, now, rs) && InOrder(s1, s2, rs)
    requires OnlyReserves(s1, s2, now) && OnlyExpires(s2, s3, now)
    requires i < |rs| && k in s.jobs && Available(s.jobs[k], now) && 0 <= s.jobs[k].ttr
    ensures rs[i].jobId in s.jobs && k in s3.jobs
    ensures s3.jobs[k].state == Ready && s.jobs[k].tube == s.jobs[rs[i].jobId].tube ==> MoreUrgent(s.jobs[rs[i].jobId], s.jobs[k])
  {
    GivesOut(s1, s2, now, rs, i);
    StillReady(s, s1, s2, s3, now, k);
    hide Gives, OnlyReserves, OnlyExpires;
  }

  // What was available and is ready after a tick was ready all the time.
  lemma StillReady(s: State, s1: State, s2: State, s3: State, now: int, k: JobId)
    requires s1.jobs == TickDelay(s, now).jobs && OnlyReserves(s1, s2, now) && OnlyExpires(s2, s3, now)
    requires k in s.jobs && Available(s.jobs[k], now) && 0 <= s.jobs[k].ttr
    ensures k in s1.jobs && k in s2.jobs && k in s3.jobs && s1.jobs[k] == s.jobs[k].(state := Ready)
    ensures s3.jobs[k].state == Ready ==> s2.jobs[k] == s1.jobs[k]
  {
  }
}
