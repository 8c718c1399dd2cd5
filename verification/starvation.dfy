/** Clients that wait for nothing: what a restore from the records of the store
    makes of every client that was waiting. */
module Starvation {
  import opened Types
  import opened Spec
  import opened Invariant
  import opened Ticks
  import opened TickFacts
  import opened Image
  import opened Records
  import opened Runs

  // Client c waits and watches no tube.
  predicate Stranded(s: State, c: ClientId) {
    Waits(s, c) && s.clients[c].watched == []
  }

  lemma StrandedNowhere(s: State, c: ClientId)
    requires Inv(s) && Stranded(s, c)
    ensures InNoQueue(s, c)
  {
    forall t | t in s.tubes ensures c !in s.tubes[t] { assert TubeInv(s, t); }
  }

  // ----- who gets a job from a tick ---------------------------------------

  // Jobs go only to clients that watch a tube.
  ghost predicate ToWatchers(s: State, rs: seq<Reservation>) {
    forall i :: 0 <= i < |rs| && rs[i].status == Matched ==>
      rs[i].clientId in s.clients && s.clients[rs[i].clientId].watched != []
  }

  lemma WatchersTwice(s: State, s1: State, r1: seq<Reservation>, s2: State, r2: seq<Reservation>)
    requires Answered(s, s1, r1) && ToWatchers(s, r1) && Answered(s1, s2, r2) && ToWatchers(s1, r2)
    ensures ToWatchers(s, r1 + r2)
  {
    var rs := r1 + r2;
    forall i | 0 <= i < |rs| && rs[i].status == Matched
      ensures rs[i].clientId in s.clients && s.clients[rs[i].clientId].watched != []
    {
      if i < |r1| {
        assert rs[i] == r1[i];
      } else {
        var c := r2[i - |r1|].clientId;
        assert AnswerTo(s1, r2[i - |r1|]) && Waits(s1, c);
        assert !Replied(r1, c);
      }
    }
  }

  lemma {:induction false} TickTubeWatchers(s: State, now: int, t: TubeName)
    requires Inv(s) && ClockOk(now)
    ensures ToWatchers(s, TickTube(s, now, t).1)
    decreases |Contents(s, InReady(t))|
  {
    if Busy(s, t) {
      hide InvBut, Match;
      BusyMatch(s, now, t);
      var c := s.tubes[t][0];
      var (s1, r1) := Match(s, now, t, c);
      HeadWatches(s, now, t);
      InvJob(s, Next(s, InReady(t)).value);
      MatchAnswers(s, now, t, c);
      TickTubeWatchers(s1, now, t);
      TickTubeAnswers(s1, now, t);
      WatchersTwice(s, s1, [r1], TickTube(s1, now, t).0, TickTube(s1, now, t).1);
    }
  }

  lemma HeadWatches(s: State, now: int, t: TubeName)
    requires Inv(s) && ClockOk(now) && Busy(s, t) && Keyed(s.jobs) && s.tubes[t][0] in s.clients
    ensures ToWatchers(s, [Match(s, now, t, s.tubes[t][0]).1])
  {
    assert TubeInv(s, t) && s.tubes[t][0] in s.tubes[t];
  }

  lemma {:induction false} TickReadyWatchers(s: State, now: int, order: seq<TubeName>)
    requires Inv(s) && ClockOk(now)
    ensures ToWatchers(s, TickReady(s, now, order).1)
    decreases |order|
  {
    hide InvBut, TickTube;
    if order != [] {
      var (s1, r1) := TickTube(s, now, order[0]);
      TickTubeWatchers(s, now, order[0]);
      TickTubeAnswers(s, now, order[0]);
      TickReadyWatchers(s1, now, order[1..]);
      TickReadyAnswers(s1, now, order[1..]);
      WatchersTwice(s, s1, r1, TickReady(s1, now, order[1..]).0, TickReady(s1, now, order[1..]).1);
    }
  }

  // Waking clients gives nobody a job.
  ghost predicate NoMatch(rs: seq<Reservation>) {
    forall i :: 0 <= i < |rs| ==> rs[i].status != Matched
  }

  lemma WakeNoMatch(s: State, now: int, c: ClientId)
    requires Keyed(s.jobs) && c in s.clients
    ensures NoMatch(Wake(s, now, c).1)
  {
    hide Served, Soon, Schedule;
  }

  lemma {:induction false} TickClientsNoMatch(s: State, now: int)
    requires Inv(s) && ClockOk(now)
    ensures NoMatch(TickClients(s, now).1)
    decreases |Overdue(s, now)|
  {
    assert s.timers <= s.clients.Keys;
    hide InvBut, Wake;
    InvKeyed(s, {});
    var first := FirstTimer(s);
    if first.Some? && s.clients[first.value].tickAt < now {
      WakeInv(s, now, first.value);
      WakeOverdue(s, now, first.value);
      WakeNoMatch(s, now, first.value);
      TickClientsNoMatch(Wake(s, now, first.value).0, now);
    }
  }

  lemma TickWatchers(s: State, now: int, order: seq<TubeName>)
    requires Inv(s) && ClockOk(now)
    ensures ToWatchers(s, Tick(s, now, order).1)
  {
    hide InvBut, TickReady, TickClients;
    var s1 := Delayed1(s, now);
    TickReadyWatchers(s1, now, order);
    TickClientsNoMatch(TickReady(s1, now, order).0, now);
  }

  // ----- a client that watches nothing ------------------------------------

  // A request of a stranded client is refused and changes nothing.
  lemma StrandedRefused(s: State, c: ClientId, reqId: RequestId, ts: seq<TubeName>, now: int, deadline: int)
    requires Keyed(s.jobs) && Stranded(s, c)
    ensures var (s', r) := AppendReservation(s, c, reqId, ts, now, deadline); s' == s && r.Err?
  {
  }

  // No step gives it a job: it stays stranded, or its wait ends in vain.
  lemma StrandedStep(s: State, op: Op, c: ClientId)
    requires Inv(s) && OpOk(s, op) && Stranded(s, c)
    ensures var (s', rs) := Step(s, op);
            || (For(rs, c) == [] && Stranded(s', c))
            || (|For(rs, c)| == 1 && For(rs, c)[0].status in {Timeout, DeadlineSoon} && !Waits(s', c))
  {
    StepRequest(s, op, c);
    var (s', rs) := Step(s, op);
    if For(rs, c) != [] {
      ForIn(rs, c, For(rs, c)[0]);
      OnlyTicksAnswer(s, op, c);
      TickWatchers(s, op.now, op.order);
    }
  }

  // c is in no queue.
  ghost predicate InNoQueue(s: State, c: ClientId) {
    forall t :: t in s.tubes ==> c !in s.tubes[t]
  }

  // Over any run a stranded client never gets a job: it waits, in no queue and
  // without an answer, until the one answer that ends its wait in vain.
  lemma {:induction false} StrandedRun(states: seq<State>, ops: seq<Op>, i: nat, j: nat, c: ClientId) returns (k: nat)
    requires Run(states, ops) && i <= j <= |ops| && Stranded(states[i], c)
    ensures i <= k <= j && AnswersTo(states, ops, i, k, c) == []
    ensures forall m :: i <= m <= k ==> Stranded(states[m], c) && InNoQueue(states[m], c)
    ensures k < j ==> |AnswersAt(states, ops, k, c)| == 1 && !Waits(states[k + 1], c)
    ensures k < j ==> AnswersAt(states, ops, k, c)[0].status in {Timeout, DeadlineSoon}
    decreases j
  {
    hide InvBut, OpOk, Step, For, InNoQueue;
    RunInv(states, ops, j);
    if i == j {
      k := j;
      StrandedNowhere(states[j], c);
    } else {
      k := StrandedRun(states, ops, i, j - 1, c);
      if k == j - 1 {
        RunInv(states, ops, k);
        assert StepAt(states, ops, k);
        StrandedStep(states[k], ops[k], c);
        if Stranded(states[k + 1], c) {
          StrandedNowhere(states[j], c);
          k := j;
        }
      }
    }
  }

  // ----- after a restore from the store -----------------------------------

  // Every client that was waiting is stranded.
  lemma StoreStrands(s: State, at: int, c: ClientId)
    requires Inv(s) && Waits(s, c)
    ensures Stranded(Restored(Wire(s), at), c)
  {
    assert ClientInv(s, c, {});
    StoreKin(s);
  }

  // So, whatever happens after a restore, the request that a client had made
  // before it never gets a job, and the client is in no queue.
  lemma StoreStarves(states: seq<State>, ops: seq<Op>, i: nat, j: nat, c: ClientId) returns (k: nat)
    requires Run(states, ops) && i < j <= |ops| && ops[i].RestoreOp? && Waits(states[i], c)
    ensures i < k <= j && AnswersTo(states, ops, i + 1, k, c) == []
    ensures forall m :: i < m <= k ==> Stranded(states[m], c) && InNoQueue(states[m], c)
    ensures k < j ==> |AnswersAt(states, ops, k, c)| == 1 && !Waits(states[k + 1], c)
    ensures k < j ==> AnswersAt(states, ops, k, c)[0].status in {Timeout, DeadlineSoon}
  {
    RunInv(states, ops, i);
    assert StepAt(states, ops, i);
    StoreStrands(states[i], ops[i].at, c);
    k := StrandedRun(states, ops, i + 1, j, c);
  }
}
