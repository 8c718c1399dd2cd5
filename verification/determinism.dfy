/** Replicas serve the tubes in different orders. They agree if and only if no
    client is next in line at two tubes. */
module Determinism {
  import opened Types
  import opened Spec
  import opened Invariant
  import opened Ticks
  import opened TickFacts
  import opened Matching

  // ----- all matches at once ----------------------------------------------

  function FilterOut(q: seq<ClientId>, cs: set<ClientId>): seq<ClientId> {
    if q == [] then []
    else (if q[0] in cs then [] else [q[0]]) + FilterOut(q[1..], cs)
  }

  lemma {:induction false} FilterMembers(q: seq<ClientId>, cs: set<ClientId>)
    ensures forall c :: c in FilterOut(q, cs) <==> c in q && c !in cs
    ensures (forall c :: c in q ==> c !in cs) ==> FilterOut(q, cs) == q
  {
    if q != [] {
      FilterMembers(q[1..], cs);
      assert q == [q[0]] + q[1..];
    }
  }

  lemma {:induction false} FilterSame(q: seq<ClientId>, cs: set<ClientId>, c: ClientId)
    requires c !in q
    ensures FilterOut(q, cs) == FilterOut(q, cs + {c}) && Without(FilterOut(q, cs), c) == FilterOut(q, cs)
  {
    if q != [] {
      FilterSame(q[1..], cs, c);
      var f := FilterOut(q, cs);
      assert q[0] !in cs ==> f[0] == q[0] && f[1..] == FilterOut(q[1..], cs);
      assert q[0] in cs ==> f == FilterOut(q[1..], cs);
    }
  }

  lemma {:induction false} FilterOneMore(q: seq<ClientId>, cs: set<ClientId>, c: ClientId)
    requires NoDup(q)
    ensures Without(FilterOut(q, cs), c) == FilterOut(q, cs + {c})
  {
    if q != [] {
      FilterOneMore(q[1..], cs, c);
      var f := FilterOut(q, cs);
      assert q[0] !in cs ==> f[0] == q[0] && f[1..] == FilterOut(q[1..], cs);
      assert q[0] in cs ==> f == FilterOut(q[1..], cs);
      if q[0] == c {
        FilterSame(q[1..], cs, c);
      }
    }
  }

  // A set of matches: which client gets which job.
  type Matches = map<JobId, ClientId>

  ghost function MatchedJobs(s: State, now: int, n: Matches): State {
    s.(jobs := map id | id in s.jobs :: if id in n then ReservedJob(s.jobs[id], now, n[id]) else s.jobs[id],
       clients := map c | c in s.clients ::
         if c in n.Values then s.clients[c].(waiting := false, deadline := MAX_TIME) else s.clients[c],
       tubes := map t | t in s.tubes :: FilterOut(s.tubes[t], n.Values),
       timers := s.timers + n.Values)
  }

  // The state after all the matches n have been made.
  ghost function Apply(s: State, now: int, n: Matches): State
    requires Keyed(s.jobs)
  {
    var s1 := MatchedJobs(s, now, n);
    s1.(clients := map c | c in s1.clients ::
      if c in n.Values then s1.clients[c].(tickAt := NextEvent(s1, c)) else s1.clients[c])
  }

  lemma ApplyNone(s: State, now: int)
    requires Keyed(s.jobs)
    ensures Apply(s, now, map[]) == s
  {
    forall t | t in s.tubes ensures FilterOut(s.tubes[t], {}) == s.tubes[t] { FilterMembers(s.tubes[t], {}); }
    var n: Matches := map[];
    assert n.Values == {};
    var s' := Apply(s, now, n);
    assert s'.jobs == s.jobs && s'.clients == s.clients && s'.tubes == s.tubes && s'.timers == s.timers;
  }

  // The next event of a client depends on its record and the jobs it holds.
  lemma NextEventSame(s: State, s': State, c: ClientId)
    requires Keyed(s.jobs) && Keyed(s'.jobs) && c in s.clients && c in s'.clients
    requires s.clients[c].waiting == s'.clients[c].waiting && s.clients[c].deadline == s'.clients[c].deadline
    requires Contents(s, HeldBy(c)) == Contents(s', HeldBy(c))
    requires forall id :: id in Contents(s, HeldBy(c)) ==> s.jobs[id] == s'.jobs[id]
    ensures NextEvent(s, c) == NextEvent(s', c)
  {
    var ids := Contents(s, HeldBy(c));
    if ids != {} {
      var a, b := Next(s, HeldBy(c)).value, Next(s', HeldBy(c)).value;
      assert IsLeast(s.jobs, ids, ByExpiresAt, b);
      LeastUnique(s.jobs, ids, ByExpiresAt, a, b);
    }
  }

  // ----- one more match ---------------------------------------------------

  lemma ApplyFields(s: State, now: int, n: Matches)
    requires Keyed(s.jobs)
    ensures var a := Apply(s, now, n);
            && a.jobs.Keys == s.jobs.Keys && Keyed(a.jobs)
            && (forall id :: id in s.jobs ==> a.jobs[id] == if id in n then ReservedJob(s.jobs[id], now, n[id]) else s.jobs[id])
            && a.clients.Keys == s.clients.Keys
            && (forall c :: c in s.clients && c !in n.Values ==> a.clients[c] == s.clients[c])
            && (forall c :: c in s.clients && c in n.Values ==> !a.clients[c].waiting)
  {
  }

  // Making one more match on top of n.
  lemma MatchJobsApply(s: State, now: int, n: Matches, id: JobId, c: ClientId)
    requires Keyed(s.jobs) && id in s.jobs && id !in n && c !in n.Values
    ensures MatchedJobs(s, now, n[id := c]).jobs ==
            MatchedJobs(s, now, n).jobs[id := ReservedJob(s.jobs[id], now, c)]
    ensures n[id := c].Values == n.Values + {c}
  {
    var n' := n[id := c];
    assert n'[id] == c;
    forall d | d in n.Values ensures d in n'.Values {
      var k :| k in n && n[k] == d;
      assert k in n' && n'[k] == d;
    }
  }

  lemma MatchTubesApply(s: State, now: int, n: Matches, c: ClientId, t: TubeName)
    requires Keyed(s.jobs) && c in s.clients && c !in n.Values && t in s.tubes && TubeInv(s, t)
    ensures Retire(Apply(s, now, n), c).tubes[t] == FilterOut(s.tubes[t], n.Values + {c})
  {
    FilterOneMore(s.tubes[t], n.Values, c);
    if t !in s.clients[c].watched {
      FilterSame(s.tubes[t], n.Values, c);
    }
  }

  // The clients matched before keep their timers.
  lemma EarlierTimers(s: State, now: int, n: Matches, id: JobId, c: ClientId, d: ClientId)
    requires Keyed(s.jobs) && id in s.jobs && id !in n && c !in n.Values && s.jobs[id].state == Ready
    requires d in s.clients && d in n.Values
    ensures NextEvent(MatchedJobs(s, now, n), d) == NextEvent(MatchedJobs(s, now, n[id := c]), d)
  {
    MatchJobsApply(s, now, n, id, c);
    NextEventSame(MatchedJobs(s, now, n), MatchedJobs(s, now, n[id := c]), d);
  }

  // The client of a match stops waiting and its timer is set.
  ghost function Given(a: State, now: int, id: JobId, c: ClientId): State
    requires id in a.jobs && c in a.clients
  {
    Retire(SetJob(a, ReservedJob(a.jobs[id], now, c)), c)
  }

  ghost function Rescheduled(r: State, c: ClientId): map<ClientId, Client>
    requires Keyed(r.jobs) && c in r.clients
  {
    r.clients[c := r.clients[c].(tickAt := NextEvent(r, c))]
  }

  lemma MatchClientsApply(s: State, now: int, n: Matches, id: JobId, c: ClientId, d: ClientId)
    requires Keyed(s.jobs) && id in s.jobs && id !in n && c !in n.Values && s.jobs[id].state == Ready
    requires c in s.clients && d in s.clients
    requires Keyed(Given(Apply(s, now, n), now, id, c).jobs)
    ensures Apply(s, now, n[id := c]).clients[d] == Rescheduled(Given(Apply(s, now, n), now, id, c), c)[d]
  {
    var a := Apply(s, now, n);
    ApplyFields(s, now, n);
    var r := Given(a, now, id, c);
    var m := MatchedJobs(s, now, n[id := c]);
    MatchJobsApply(s, now, n, id, c);
    if d == c {
      assert r.jobs == m.jobs;
      NextEventSame(r, m, c);
    } else if d in n.Values {
      EarlierTimers(s, now, n, id, c, d);
    }
  }

  lemma AllClientsApply(s: State, now: int, n: Matches, id: JobId, c: ClientId)
    requires Keyed(s.jobs) && id in s.jobs && id !in n && c !in n.Values && s.jobs[id].state == Ready
    requires c in s.clients
    requires Keyed(Given(Apply(s, now, n), now, id, c).jobs)
    ensures Apply(s, now, n[id := c]).clients == Rescheduled(Given(Apply(s, now, n), now, id, c), c)
  {
    var m1, m2 := Apply(s, now, n[id := c]).clients, Rescheduled(Given(Apply(s, now, n), now, id, c), c);
    assert m1.Keys == s.clients.Keys == m2.Keys;
    forall d | d in s.clients ensures m1[d] == m2[d] {
      MatchClientsApply(s, now, n, id, c, d);
    }
  }

  // The state after a match, part by part.
  ghost function MatchParts(a: State, now: int, id: JobId, c: ClientId): State
    requires id in a.jobs && c in a.clients && Keyed(Given(a, now, id, c).jobs)
  {
    a.(jobs := a.jobs[id := ReservedJob(a.jobs[id], now, c)],
       clients := Rescheduled(Given(a, now, id, c), c),
       tubes := Retire(a, c).tubes,
       timers := a.timers + {c})
  }

  lemma MatchIsParts(a: State, now: int, t: TubeName, c: ClientId, id: JobId)
    requires Keyed(a.jobs) && c in a.clients && Next(a, InReady(t)) == Some(id)
    requires now + a.jobs[id].ttr < MAX_TIME
    ensures Keyed(Given(a, now, id, c).jobs)
    ensures Match(a, now, t, c).0 == MatchParts(a, now, id, c)
  {
    var r := Given(a, now, id, c);
    NextEventBound(r, c);
    assert r.jobs[id].state == Reserved && r.jobs[id].reservedBy == c;
  }

  lemma ApplyIsParts(s: State, now: int, n: Matches, id: JobId, c: ClientId)
    requires Keyed(s.jobs)
    requires id in s.jobs && id !in n && s.jobs[id].state == Ready && c in s.clients && c !in n.Values
    requires Keyed(Given(Apply(s, now, n), now, id, c).jobs)
    requires forall t {:trigger TubeInv(s, t)} :: t in s.tubes ==> TubeInv(s, t)
    ensures Apply(s, now, n[id := c]) == MatchParts(Apply(s, now, n), now, id, c)
  {
    var a, a' := Apply(s, now, n), Apply(s, now, n[id := c]);
    MatchJobsApply(s, now, n, id, c);
    AllClientsApply(s, now, n, id, c);
    assert a'.tubes == Retire(a, c).tubes by {
      forall u | u in s.tubes ensures Retire(a, c).tubes[u] == a'.tubes[u] {
        assert TubeInv(s, u);
        MatchTubesApply(s, now, n, c, u);
      }
    }
  }

  // A match on top of n yields the state of n with one match more.
  lemma MatchApply(s: State, now: int, n: Matches, t: TubeName, c: ClientId)
    requires Inv(s) && ClockOk(now) && c in s.clients && c !in n.Values
    requires Keyed(s.jobs) && Keyed(Apply(s, now, n).jobs)
    requires Next(Apply(s, now, n), InReady(t)).Some?
    ensures var id := Next(Apply(s, now, n), InReady(t)).value;
            && id in s.jobs && id !in n
            && Match(Apply(s, now, n), now, t, c).0 == Apply(s, now, n[id := c])
  {
    hide Match;
    var a := Apply(s, now, n);
    ApplyFields(s, now, n);
    var id := Next(a, InReady(t)).value;
    assert id in Contents(a, InReady(t));
    InvJob(s, id);
    MatchIsParts(a, now, t, c, id);
    ApplyIsParts(s, now, n, id, c);
  }

  // ----- one tube ---------------------------------------------------------

  // The matches of a tube: first job to first client, until one side runs out.
  ghost function Pairs(jobs: map<JobId, Job>, ready: set<JobId>, q: seq<ClientId>): (n: Matches)
    requires Keyed(jobs) && ready <= jobs.Keys
    ensures n.Keys <= ready
    ensures forall id :: id in n ==> n[id] in q
  {
    if ready == {} || q == [] then map[]
    else
      var id := Least(jobs, ready, ByPriority);
      Pairs(jobs, ready - {id}, q[1..])[id := q[0]]
  }

  function Reply(s: State, id: JobId, c: ClientId): Reservation
    requires id in s.jobs && c in s.clients
  {
    Reservation(s.clients[c].reqId, c, id, Matched, s.jobs[id].bodySize, s.jobs[id].body)
  }

  ghost predicate SameOn(jobs: map<JobId, Job>, jobs': map<JobId, Job>, ids: set<JobId>) {
    ids <= jobs.Keys && ids <= jobs'.Keys && forall id :: id in ids ==> jobs[id] == jobs'[id]
  }

  lemma LeastSame(jobs: map<JobId, Job>, jobs': map<JobId, Job>, ids: set<JobId>, o: Order)
    requires Keyed(jobs) && Keyed(jobs') && SameOn(jobs, jobs', ids) && ids != {}
    ensures Least(jobs, ids, o) == Least(jobs', ids, o)
  {
    LeastUnique(jobs, ids, o, Least(jobs, ids, o), Least(jobs', ids, o));
  }

  // The queue of a tube in the state after the matches n.
  function Queue(s: State, t: TubeName): seq<ClientId> {
    if t in s.tubes then s.tubes[t] else []
  }

  // What a match on tube t leaves of the jobs and the queue of the tube.
  lemma MatchHead(a: State, now: int, t: TubeName)
    requires Inv(a) && ClockOk(now) && Busy(a, t)
    ensures Keyed(a.jobs) && a.tubes[t][0] in a.clients && Waits(a, a.tubes[t][0])
    ensures var m := Match(a, now, t, a.tubes[t][0]).0;
            && Contents(m, InReady(t)) == Contents(a, InReady(t)) - {Next(a, InReady(t)).value}
            && Queue(m, t) == a.tubes[t][1..]
  {
    BusyMatch(a, now, t);
    var c := a.tubes[t][0];
    assert TubeInv(a, t);
    MatchJobs(a, now, t, c);
  }

  // r is the answer to one of the matches p.
  predicate IsReply(s: State, p: Matches, r: Reservation) {
    && r.jobId in p && r.jobId in s.jobs && r.clientId in s.clients
    && p[r.jobId] == r.clientId && r == Reply(s, r.jobId, r.clientId)
  }

  ghost predicate Replies(s: State, p: Matches, rs: seq<Reservation>) {
    forall r :: r in rs <==> IsReply(s, p, r)
  }

  lemma OneMoreReply(s: State, p: Matches, rs: seq<Reservation>, id: JobId, c: ClientId)
    requires Replies(s, p, rs) && id in s.jobs && c in s.clients && id !in p
    ensures Replies(s, p[id := c], [Reply(s, id, c)] + rs)
  {
    forall r ensures r in [Reply(s, id, c)] + rs <==> IsReply(s, p[id := c], r) {
      assert r in [Reply(s, id, c)] + rs <==> r == Reply(s, id, c) || r in rs;
    }
  }

  ghost function PairsAt(s: State, a: State, t: TubeName): Matches
    requires Keyed(s.jobs) && Contents(a, InReady(t)) <= s.jobs.Keys
  {
    Pairs(s.jobs, Contents(a, InReady(t)), Queue(a, t))
  }

  // One match on top of n, and what is left for the tube afterwards.
  lemma BusyApply(s: State, now: int, n: Matches, t: TubeName)
    requires Inv(s) && ClockOk(now) && Keyed(s.jobs) && Inv(Apply(s, now, n)) && Busy(Apply(s, now, n), t)
    ensures var a := Apply(s, now, n);
            && Contents(a, InReady(t)) <= s.jobs.Keys && Keyed(a.jobs)
            && var id, c := Least(s.jobs, Contents(a, InReady(t)), ByPriority), a.tubes[t][0];
            var a' := Apply(s, now, n[id := c]);
            && id in s.jobs && id !in n && c in s.clients && c !in n.Values && c in a.clients
            && Next(a, InReady(t)).Some? && Match(a, now, t, c) == (a', Reply(s, id, c))
            && Contents(a', InReady(t)) == Contents(a, InReady(t)) - {id} && Queue(a', t) == Queue(a, t)[1..]
  {
    hide InvBut;
    var a := Apply(s, now, n);
    MatchHead(a, now, t);
    ApplyFields(s, now, n);
    var ready := Contents(a, InReady(t));
    assert SameOn(s.jobs, a.jobs, ready);
    LeastSame(s.jobs, a.jobs, ready, ByPriority);
    MatchApply(s, now, n, t, a.tubes[t][0]);
  }

  lemma TickTubeUnfold(a: State, now: int, t: TubeName, a': State, r: Reservation)
    requires Inv(a) && ClockOk(now) && Busy(a, t)
    requires Keyed(a.jobs) && a.tubes[t][0] in a.clients && Next(a, InReady(t)).Some?
    requires Match(a, now, t, a.tubes[t][0]) == (a', r)
    ensures Inv(a') && |Contents(a', InReady(t))| < |Contents(a, InReady(t))|
    ensures TickTube(a, now, t) == (TickTube(a', now, t).0, [r] + TickTube(a', now, t).1)
  {
    BusyMatch(a, now, t);
  }

  lemma PairsUnfold(s: State, a: State, a': State, t: TubeName, n: Matches)
    requires Keyed(s.jobs) && Contents(a, InReady(t)) <= s.jobs.Keys && Busy(a, t)
    requires var id := Least(s.jobs, Contents(a, InReady(t)), ByPriority);
             Contents(a', InReady(t)) == Contents(a, InReady(t)) - {id} && Queue(a', t) == Queue(a, t)[1..]
    ensures var id, c := Least(s.jobs, Contents(a, InReady(t)), ByPriority), a.tubes[t][0];
            && id !in PairsAt(s, a', t)
            && PairsAt(s, a, t) == PairsAt(s, a', t)[id := c]
            && n + PairsAt(s, a, t) == n[id := c] + PairsAt(s, a', t)
  {
  }

  // Serving a tube on top of n adds the matches of the tube.
  ghost predicate AddsPairs(s: State, now: int, n: Matches, t: TubeName, a: State)
    requires Keyed(s.jobs) && Inv(a) && ClockOk(now)
  {
    && Contents(a, InReady(t)) <= s.jobs.Keys
    && TickTube(a, now, t).0 == Apply(s, now, n + PairsAt(s, a, t))
    && Replies(s, PairsAt(s, a, t), TickTube(a, now, t).1)
  }

  lemma AddsOnePair(s: State, now: int, n: Matches, t: TubeName, a: State, a': State, id: JobId, c: ClientId)
    requires Keyed(s.jobs) && Inv(a) && Inv(a') && ClockOk(now) && Contents(a, InReady(t)) <= s.jobs.Keys
    requires id in s.jobs && c in s.clients
    requires TickTube(a, now, t) == (TickTube(a', now, t).0, [Reply(s, id, c)] + TickTube(a', now, t).1)
    requires AddsPairs(s, now, n[id := c], t, a') && id !in PairsAt(s, a', t)
    requires PairsAt(s, a, t) == PairsAt(s, a', t)[id := c]
    requires n + PairsAt(s, a, t) == n[id := c] + PairsAt(s, a', t)
    ensures AddsPairs(s, now, n, t, a)
  {
    OneMoreReply(s, PairsAt(s, a', t), TickTube(a', now, t).1, id, c);
  }

  // One match on top of n, and what is left of the work for the tube.
  lemma BusyStep(s: State, now: int, n: Matches, t: TubeName) returns (id: JobId, c: ClientId)
    requires Inv(s) && ClockOk(now) && Keyed(s.jobs) && Inv(Apply(s, now, n)) && Busy(Apply(s, now, n), t)
    ensures var a, a' := Apply(s, now, n), Apply(s, now, n[id := c]);
            && id in s.jobs && c in s.clients && Inv(a')
            && Contents(a', InReady(t)) < Contents(a, InReady(t)) <= s.jobs.Keys
            && TickTube(a, now, t) == (TickTube(a', now, t).0, [Reply(s, id, c)] + TickTube(a', now, t).1)
            && id !in PairsAt(s, a', t)
            && PairsAt(s, a, t) == PairsAt(s, a', t)[id := c]
            && n + PairsAt(s, a, t) == n[id := c] + PairsAt(s, a', t)
  {
    var a := Apply(s, now, n);
    BusyApply(s, now, n, t);
    id, c := Least(s.jobs, Contents(a, InReady(t)), ByPriority), a.tubes[t][0];
    var a' := Apply(s, now, n[id := c]);
    TickTubeUnfold(a, now, t, a', Reply(s, id, c));
    PairsUnfold(s, a, a', t, n);
  }

  lemma IdleTube(s: State, now: int, n: Matches, t: TubeName)
    requires Inv(s) && ClockOk(now) && Keyed(s.jobs) && Inv(Apply(s, now, n)) && !Busy(Apply(s, now, n), t)
    ensures AddsPairs(s, now, n, t, Apply(s, now, n))
  {
    var p := PairsAt(s, Apply(s, now, n), t);
    assert p == map[] && n + p == n;
  }

  lemma {:induction false} TickTubeApply(s: State, now: int, n: Matches, t: TubeName)
    requires Inv(s) && ClockOk(now) && Keyed(s.jobs) && Inv(Apply(s, now, n))
    ensures AddsPairs(s, now, n, t, Apply(s, now, n))
    decreases Contents(Apply(s, now, n), InReady(t))
  {
    if Busy(Apply(s, now, n), t) {
      var id, c := BusyStep(s, now, n, t);
      TickTubeApply(s, now, n[id := c], t);
      AddsOnePair(s, now, n, t, Apply(s, now, n), Apply(s, now, n[id := c]), id, c);
    } else {
      IdleTube(s, now, n, t);
    }
  }

  // ----- all tubes --------------------------------------------------------

  // Client c is next in line at tube t: as many ready jobs are there as clients
  // up to it in the queue.
  ghost predicate InLine(s: State, t: TubeName, c: ClientId) {
    c in Queue(s, t)[..Min(|Queue(s, t)|, |Contents(s, InReady(t))|)]
  }

  // No client is next in line at two tubes.
  ghost predicate Separate(s: State) {
    forall c, t, u :: InLine(s, t, c) && InLine(s, u, c) ==> t == u
  }

  // The clients next in line are those that are matched.
  lemma {:induction false} PairsInLine(jobs: map<JobId, Job>, ready: set<JobId>, q: seq<ClientId>, c: ClientId)
    requires Keyed(jobs) && ready <= jobs.Keys
    ensures c in Pairs(jobs, ready, q).Values <==> c in q[..Min(|q|, |ready|)]
    decreases |q|
  {
    if ready != {} && q != [] {
      var id := Least(jobs, ready, ByPriority);
      var rest := Pairs(jobs, ready - {id}, q[1..]);
      PairsInLine(jobs, ready - {id}, q[1..], c);
      hide Least;
      var k := Min(|q|, |ready|);
      assert q[..k] == [q[0]] + q[1..][..k - 1];
      ValuesOneMore(rest, id, q[0]);
    }
  }

  lemma ValuesOneMore(n: Matches, id: JobId, c: ClientId)
    requires id !in n
    ensures n[id := c].Values == n.Values + {c}
  {
    var n' := n[id := c];
    assert n'[id] == c;
    forall d | d in n.Values ensures d in n'.Values {
      var k :| k in n && n[k] == d;
      assert n'[k] == d;
    }
  }

  // Clients that are not next in line do not matter.
  lemma {:induction false} PairsFilter(jobs: map<JobId, Job>, ready: set<JobId>, q: seq<ClientId>, cs: set<ClientId>)
    requires Keyed(jobs) && ready <= jobs.Keys
    requires forall c :: c in cs ==> c !in q[..Min(|q|, |ready|)]
    ensures Pairs(jobs, ready, FilterOut(q, cs)) == Pairs(jobs, ready, q)
    decreases |q|
  {
    if ready != {} && q != [] {
      var id := Least(jobs, ready, ByPriority);
      var k := Min(|q|, |ready|);
      assert q[..k] == [q[0]] + q[1..][..k - 1];
      PairsFilter(jobs, ready - {id}, q[1..], cs);
      var f := FilterOut(q, cs);
      assert f == [q[0]] + FilterOut(q[1..], cs);
      assert f[0] == q[0] && f[1..] == FilterOut(q[1..], cs);
    }
  }

  // The matches of the tubes in done.
  ghost function Done(s: State, done: set<TubeName>): Matches
    requires Keyed(s.jobs)
  {
    map id | id in s.jobs && s.jobs[id].tube in done && id in PairsAt(s, s, s.jobs[id].tube) ::
      PairsAt(s, s, s.jobs[id].tube)[id]
  }

  // Where a client of the matches so far comes from.
  lemma DoneFrom(s: State, done: set<TubeName>, c: ClientId) returns (u: TubeName)
    requires Keyed(s.jobs) && c in Done(s, done).Values
    ensures u in done && InLine(s, u, c)
  {
    var id :| id in Done(s, done) && Done(s, done)[id] == c;
    u := s.jobs[id].tube;
    assert id in PairsAt(s, s, u) && PairsAt(s, s, u)[id] == c;
    PairsInLine(s.jobs, Contents(s, InReady(u)), Queue(s, u), c);
  }

  lemma ReadyStay(s: State, now: int, done: set<TubeName>, t: TubeName)
    requires Keyed(s.jobs) && t !in done
    ensures Contents(Apply(s, now, Done(s, done)), InReady(t)) == Contents(s, InReady(t))
  {
    ApplyFields(s, now, Done(s, done));
  }

  // Serving other tubes first does not change the matches of a tube.
  lemma PairsStay(s: State, now: int, done: set<TubeName>, t: TubeName)
    requires Inv(s) && Keyed(s.jobs) && Separate(s) && t !in done
    ensures var a := Apply(s, now, Done(s, done));
            && Contents(a, InReady(t)) <= s.jobs.Keys
            && PairsAt(s, a, t) == PairsAt(s, s, t)
  {
    ReadyStay(s, now, done, t);
    var cs := Done(s, done).Values;
    forall c | c in cs ensures !InLine(s, t, c) {
      var u := DoneFrom(s, done, c);
    }
    PairsFilter(s.jobs, Contents(s, InReady(t)), Queue(s, t), cs);
  }

  lemma PairsTube(s: State, t: TubeName)
    requires Keyed(s.jobs)
    ensures forall id :: id in PairsAt(s, s, t) ==> id in s.jobs && s.jobs[id].tube == t
  {
    forall id | id in PairsAt(s, s, t) ensures id in s.jobs && s.jobs[id].tube == t {
      assert id in Contents(s, InReady(t));
    }
  }

  lemma DoneOneMore(s: State, done: set<TubeName>, t: TubeName)
    requires Keyed(s.jobs)
    ensures Done(s, done) + PairsAt(s, s, t) == Done(s, done + {t})
  {
    hide PairsAt;
    PairsTube(s, t);
  }

  lemma RepliesMore(s: State, t: TubeName, rest: set<TubeName>, r1: seq<Reservation>, r2: seq<Reservation>)
    requires Keyed(s.jobs) && t !in rest
    requires Replies(s, PairsAt(s, s, t), r1) && Replies(s, Done(s, rest), r2)
    ensures Replies(s, Done(s, {t} + rest), r1 + r2)
  {
    hide PairsAt, Done, IsReply;
    forall r ensures r in r1 + r2 <==> IsReply(s, Done(s, {t} + rest), r) {
      assert r in r1 + r2 <==> r in r1 || r in r2;
      ReplyOfEither(s, t, rest, r);
    }
  }

  lemma ReplyOfEither(s: State, t: TubeName, rest: set<TubeName>, r: Reservation)
    requires Keyed(s.jobs) && t !in rest
    ensures IsReply(s, Done(s, {t} + rest), r) <==> IsReply(s, PairsAt(s, s, t), r) || IsReply(s, Done(s, rest), r)
  {
    hide PairsAt;
    PairsTube(s, t);
  }

  lemma NextTube(s: State, now: int, done: set<TubeName>, t: TubeName)
    requires Inv(s) && ClockOk(now) && Keyed(s.jobs) && Separate(s) && t !in done
    requires Inv(Apply(s, now, Done(s, done)))
    ensures var r := TickTube(Apply(s, now, Done(s, done)), now, t);
            r.0 == Apply(s, now, Done(s, done + {t})) && Replies(s, PairsAt(s, s, t), r.1)
  {
    TickTubeApply(s, now, Done(s, done), t);
    PairsStay(s, now, done, t);
    DoneOneMore(s, done, t);
  }

  ghost function Elems(ts: seq<TubeName>): set<TubeName> {
    set t | t in ts
  }

  // r is the state with all the matches of the tubes in done, and the answers
  // of the matches of the tubes in served.
  ghost predicate Serves(s: State, now: int, done: set<TubeName>, served: set<TubeName>, r: (State, seq<Reservation>))
    requires Keyed(s.jobs)
  {
    r.0 == Apply(s, now, Done(s, done)) && Replies(s, Done(s, served), r.1)
  }

  lemma ServesMore(s: State, now: int, done: set<TubeName>, t: TubeName, rest: set<TubeName>,
                   r1: seq<Reservation>, r: (State, seq<Reservation>))
    requires Keyed(s.jobs) && t !in rest && Replies(s, PairsAt(s, s, t), r1) && Serves(s, now, done, rest, r)
    ensures Serves(s, now, done, {t} + rest, (r.0, r1 + r.1))
  {
    RepliesMore(s, t, rest, r1, r.1);
  }

  lemma {:induction false} TickReadyApply(s: State, now: int, done: set<TubeName>, order: seq<TubeName>)
    requires Inv(s) && ClockOk(now) && Keyed(s.jobs) && Separate(s) && Inv(Apply(s, now, Done(s, done)))
    requires NoDup(order) && Elems(order) !! done
    ensures Serves(s, now, done + Elems(order), Elems(order), TickReady(Apply(s, now, Done(s, done)), now, order))
    decreases |order|
  {
    var a := Apply(s, now, Done(s, done));
    if order == [] {
      assert done + Elems(order) == done;
      assert Done(s, {}) == map[];
    } else {
      var t, rest := order[0], order[1..];
      assert t in Elems(order);
      NextTube(s, now, done, t);
      assert Elems(order) == {t} + Elems(rest);
      assert done + Elems(order) == done + {t} + Elems(rest);
      TickReadyApply(s, now, done + {t}, rest);
      ServesMore(s, now, done + Elems(order), t, Elems(rest),
                 TickTube(a, now, t).1, TickReady(TickTube(a, now, t).0, now, rest));
    }
  }

  // Serving the tubes in different orders leads to the same state and gives the
  // same answers.
  lemma ReadyAgrees(s: State, now: int, order1: seq<TubeName>, order2: seq<TubeName>)
    requires Inv(s) && ClockOk(now) && Separate(s)
    requires NoDup(order1) && NoDup(order2) && Elems(order1) == Elems(order2)
    ensures TickReady(s, now, order1).0 == TickReady(s, now, order2).0
    ensures forall r :: r in TickReady(s, now, order1).1 <==> r in TickReady(s, now, order2).1
  {
    InvKeyed(s, {});
    ApplyNone(s, now);
    assert Done(s, {}) == map[];
    TickReadyApply(s, now, {}, order1);
    TickReadyApply(s, now, {}, order2);
  }

  // Two replicas whose ticks serve the tubes in different orders reach the same
  // state and give the same answers.
  lemma OrderDoesNotMatter(s: State, now: int, order1: seq<TubeName>, order2: seq<TubeName>)
    requires Inv(s) && ClockOk(now) && Separate(Delayed1(s, now))
    requires NoDup(order1) && NoDup(order2) && Elems(order1) == Elems(order2)
    ensures Tick(s, now, order1).0 == Tick(s, now, order2).0
    ensures forall r :: r in Tick(s, now, order1).1 <==> r in Tick(s, now, order2).1
  {
    hide InvBut, TickReady, TickClients, TickDelay, Separate;
    var s1 := Delayed1(s, now);
    ReadyAgrees(s1, now, order1, order2);
    var r1, r2 := TickReady(s1, now, order1), TickReady(s1, now, order2);
    var r3 := TickClients(r1.0, now).1;
    assert forall r :: (r in r1.1 + r3 <==> r in r1.1 || r in r3) && (r in r2.1 + r3 <==> r in r2.1 || r in r3);
  }

  // Only clients that wait are given jobs.
  ghost predicate ToWaiters(s: State, s': State) {
    && s'.jobs.Keys == s.jobs.Keys
    && forall id :: id in s.jobs && s'.jobs[id] != s.jobs[id] ==> Waits(s, s'.jobs[id].reservedBy)
  }

  lemma ToWaitersTwice(s: State, s1: State, s2: State)
    requires ToWaiters(s, s1) && ToWaiters(s1, s2) && forall c :: Waits(s1, c) ==> Waits(s, c)
    ensures ToWaiters(s, s2)
  {
  }

  lemma {:induction false} TickTubeWaiters(s: State, now: int, t: TubeName)
    requires Inv(s) && ClockOk(now)
    ensures ToWaiters(s, TickTube(s, now, t).0)
    decreases |Contents(s, InReady(t))|
  {
    hide InvBut, Match;
    if Busy(s, t) {
      BusyMatch(s, now, t);
      var c := s.tubes[t][0];
      MatchJobs(s, now, t, c);
      var s1 := Match(s, now, t, c).0;
      InvJob(s, Next(s, InReady(t)).value);
      MatchAnswers(s, now, t, c);
      TickTubeWaiters(s1, now, t);
      ToWaitersTwice(s, s1, TickTube(s1, now, t).0);
    }
  }

  lemma {:induction false} TickReadyWaiters(s: State, now: int, order: seq<TubeName>)
    requires Inv(s) && ClockOk(now)
    ensures ToWaiters(s, TickReady(s, now, order).0)
    decreases |order|
  {
    hide InvBut;
    if order != [] {
      var s1 := TickTube(s, now, order[0]).0;
      TickTubeWaiters(s, now, order[0]);
      TickTubeAnswers(s, now, order[0]);
      TickReadyWaiters(s1, now, order[1..]);
      ToWaitersTwice(s, s1, TickReady(s1, now, order[1..]).0);
    }
  }

  // Serving tube t first makes the matches of the tube; the other tubes leave
  // alone whoever was matched.
  lemma ServedFirst(s: State, now: int, t: TubeName, rest: seq<TubeName>)
    requires Inv(s) && ClockOk(now) && Keyed(s.jobs)
    ensures var s1 := Apply(s, now, PairsAt(s, s, t));
            var s' := TickReady(s, now, [t] + rest).0;
            OnlyReserves(s1, s', now) && ToWaiters(s1, s')
  {
    hide InvBut, TickTube, Apply, PairsAt;
    var n: Matches := map[];
    ApplyNone(s, now);
    TickTubeApply(s, now, n, t);
    assert n + PairsAt(s, s, t) == PairsAt(s, s, t);
    assert ([t] + rest)[1..] == rest;
    var s1 := TickTube(s, now, t).0;
    TickReadyJobs(s1, now, rest);
    TickReadyWaiters(s1, now, rest);
  }

  // Client c, next in line at tube t, gets a job of the tube and no other one.
  lemma HeadServed(s: State, now: int, t: TubeName, c: ClientId, rest: seq<TubeName>) returns (id: JobId)
    requires Inv(s) && ClockOk(now) && Keyed(s.jobs) && InLine(s, t, c)
    ensures id in Contents(s, InReady(t))
    ensures var s' := TickReady(s, now, [t] + rest).0;
            && s'.jobs.Keys == s.jobs.Keys
            && s'.jobs[id].state == Reserved && s'.jobs[id].reservedBy == c && now <= s'.jobs[id].expiresAt
            && forall k :: k in s.jobs && s.jobs[k].tube != t && s'.jobs[k] != s.jobs[k] ==> s'.jobs[k].reservedBy != c
  {
    hide InvBut, TickReady, Pairs, Apply;
    var n := PairsAt(s, s, t);
    PairsInLine(s.jobs, Contents(s, InReady(t)), Queue(s, t), c);
    id :| id in n && n[id] == c;
    PairsTube(s, t);
    ApplyFields(s, now, n);
    QueuedKnown(s, t, c);
    InvJob(s, id);
    ServedFirst(s, now, t, rest);
  }

  lemma QueuedKnown(s: State, t: TubeName, c: ClientId)
    requires Inv(s) && InLine(s, t, c)
    ensures c in s.clients
  {
    assert t in s.tubes && c in s.tubes[t] && TubeInv(s, t);
  }

  // ... and keeps it to the end of the tick.
  lemma HeadKeeps(s: State, now: int, t: TubeName, c: ClientId, rest: seq<TubeName>) returns (id: JobId)
    requires Inv(s) && ClockOk(now) && InLine(Delayed1(s, now), t, c)
    ensures var s1, s' := Delayed1(s, now), Tick(s, now, [t] + rest).0;
            && id in Contents(s1, InReady(t)) && s'.jobs.Keys == s1.jobs.Keys
            && s'.jobs[id].state == Reserved && s'.jobs[id].reservedBy == c
            && forall k :: k in s1.jobs && s1.jobs[k].state == Ready && s1.jobs[k].tube != t && s'.jobs[k].state == Reserved ==>
                 s'.jobs[k].reservedBy != c
  {
    hide InvBut, TickReady, TickDelay, TickClients, InLine;
    var s1 := Delayed1(s, now);
    InvKeyed(s1, {});
    id := HeadServed(s1, now, t, c, rest);
    TickClientsJobs(TickReady(s1, now, [t] + rest).0, now);
  }

  // A client next in line at two tubes gets the job of whichever is served
  // first, so the replicas part for good.
  lemma OrderMatters(s: State, now: int, t: TubeName, u: TubeName, c: ClientId, rest: seq<TubeName>, rest': seq<TubeName>)
    requires Inv(s) && ClockOk(now) && t != u && InLine(Delayed1(s, now), t, c) && InLine(Delayed1(s, now), u, c)
    ensures Tick(s, now, [t] + rest).0 != Tick(s, now, [u] + rest').0
  {
    hide InvBut, Tick, InLine, TickDelay;
    var id := HeadKeeps(s, now, t, c, rest);
    var k := HeadKeeps(s, now, u, c, rest');
    assert Delayed1(s, now).jobs[id].tube == t;
  }

  // The tubes in some order.
  lemma {:induction false} Listed(ts: set<TubeName>) returns (order: seq<TubeName>)
    ensures NoDup(order) && Elems(order) == ts
    decreases ts
  {
    order := [];
    if ts != {} {
      var t :| t in ts;
      var rest := Listed(ts - {t});
      order := [t] + rest;
      assert forall u :: u in rest ==> u in Elems(rest);
      assert Elems(order) == {t} + Elems(rest);
    }
  }

  lemma ListedFrom(ts: set<TubeName>, t: TubeName) returns (rest: seq<TubeName>)
    requires t in ts
    ensures NoDup([t] + rest) && Elems([t] + rest) == ts
  {
    rest := Listed(ts - {t});
    assert forall u :: u in rest ==> u in Elems(rest);
    assert Elems([t] + rest) == {t} + Elems(rest);
  }

  // Both orders serve every tube once.
  ghost predicate Orders(s: State, order1: seq<TubeName>, order2: seq<TubeName>) {
    NoDup(order1) && NoDup(order2) && Elems(order1) == s.tubes.Keys && Elems(order2) == s.tubes.Keys
  }

  // All orders of the tubes make a tick lead to the same state if and only if,
  // once the due jobs are ready, no client is next in line at two tubes.
  lemma AgreeIff(s: State, now: int)
    requires Inv(s) && ClockOk(now)
    ensures Separate(Delayed1(s, now)) <==>
              forall order1, order2 :: Orders(s, order1, order2) ==> Tick(s, now, order1).0 == Tick(s, now, order2).0
  {
    hide InvBut, Tick, InLine, Elems, Delayed1;
    var s1 := Delayed1(s, now);
    if Separate(s1) {
      forall order1, order2 | Orders(s, order1, order2) ensures Tick(s, now, order1).0 == Tick(s, now, order2).0 {
        OrderDoesNotMatter(s, now, order1, order2);
      }
    } else {
      var c, t, u :| InLine(s1, t, c) && InLine(s1, u, c) && t != u;
      InLineTube(s, now, t, c);
      InLineTube(s, now, u, c);
      var rest := ListedFrom(s.tubes.Keys, t);
      var rest' := ListedFrom(s.tubes.Keys, u);
      OrderMatters(s, now, t, u, c, rest, rest');
      assert Orders(s, [t] + rest, [u] + rest');
    }
  }

  lemma InLineTube(s: State, now: int, t: TubeName, c: ClientId)
    requires Inv(s) && InLine(Delayed1(s, now), t, c)
    ensures t in s.tubes
  {
  }

  lemma HeadInLine(s: State, t: TubeName)
    requires Busy(s, t)
    ensures InLine(s, t, s.tubes[t][0])
  {
    assert Queue(s, t)[..Min(|Queue(s, t)|, |Contents(s, InReady(t))|)][0] == s.tubes[t][0];
  }

  // A client asks for a job of tubes t and u, and then each gets one.
  ghost function Crossed(): State
  {
    var s := AppendReservation(EMPTY, "c", "r", ["t", "u"], 0, 10).0;
    Put(Put(s, 0, 0, 0, 1, 0, [], "t").0, 0, 0, 0, 1, 0, [], "u").0
  }

  lemma CrossedQueued()
    ensures var s := AppendReservation(EMPTY, "c", "r", ["t", "u"], 0, 10).0;
            && s.jobs == map[] && s.maxJobId == 0 && s.nextDelay == MAX_TIME
            && "t" in s.tubes && "u" in s.tubes && s.tubes["t"] == ["c"] && s.tubes["u"] == ["c"]
  {
    var s1 := Enroll(EMPTY, "c", "r", ["t", "u"], 10);
    FirstReadyHas(s1, ["t", "u"]);
    assert Contents(s1, InReady("t")) == {} && Contents(s1, InReady("u")) == {};
    assert Contents(s1, HeldBy("c")) == {};
  }

  // Two replicas in the same reachable state that range over its tubes in
  // different orders part.
  lemma ReplicasDiverge()
    ensures Inv(Crossed())
    ensures Tick(Crossed(), 0, ["t", "u"]).0 != Tick(Crossed(), 0, ["u", "t"]).0
  {
    hide AppendReservation, InvBut, Tick, TickDelay;
    EmptyInv();
    AppendReservationInv(EMPTY, "c", "r", ["t", "u"], 0, 10);
    CrossedQueued();
    var s := AppendReservation(EMPTY, "c", "r", ["t", "u"], 0, 10).0;
    PutInv(s, 0, 0, 0, 1, 0, [], "t");
    var s1 := Put(s, 0, 0, 0, 1, 0, [], "t").0;
    PutInv(s1, 0, 0, 0, 1, 0, [], "u");
    assert Crossed().nextDelay == MAX_TIME;
    assert 1 in Contents(Crossed(), InReady("t")) && 2 in Contents(Crossed(), InReady("u"));
    assert ["t"] + ["u"] == ["t", "u"] && ["u"] + ["t"] == ["u", "t"];
    HeadInLine(Crossed(), "t");
    HeadInLine(Crossed(), "u");
    assert Delayed1(Crossed(), 0) == Crossed();
    OrderMatters(Crossed(), 0, "t", "u", "c", ["u"], ["t"]);
  }
}
