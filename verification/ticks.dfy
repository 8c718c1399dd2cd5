/** One step of the clock. */
module Ticks {
  import opened Types
  import opened Spec
  import opened Invariant

  // ----- delayed jobs -----------------------------------------------------

  predicate Due(j: Job, now: int) {
    j.state == Delayed && j.readyAt < now
  }

  // Every delayed job whose time has come becomes ready.
  ghost function TickDelay(s: State, now: int): State {
    var jobs := map id | id in s.jobs :: if Due(s.jobs[id], now) then Undelayed(s.jobs[id]) else s.jobs[id];
    s.(jobs := jobs, nextDelay := EarliestDelayed(jobs))
  }

  // The noted time is when the first delayed job becomes ready.
  ghost predicate NextDelayIs(s: State) {
    && s.nextDelay <= MAX_TIME
    && (forall id :: id in s.jobs && s.jobs[id].state == Delayed ==> s.nextDelay <= s.jobs[id].readyAt)
    && (s.nextDelay < MAX_TIME ==>
          exists id :: id in s.jobs && s.jobs[id].state == Delayed && s.jobs[id].readyAt == s.nextDelay)
  }

  // When the first of the delayed jobs becomes ready.
  ghost function EarliestDelayed(jobs: map<JobId, Job>): (at: int)
    ensures at <= MAX_TIME
    ensures forall id :: id in jobs && jobs[id].state == Delayed ==> at <= jobs[id].readyAt
    ensures at < MAX_TIME ==> exists id :: id in jobs && jobs[id].state == Delayed && jobs[id].readyAt == at
  {
    Earliest(jobs, set id | id in jobs && jobs[id].state == Delayed)
  }

  ghost function Earliest(jobs: map<JobId, Job>, ids: set<JobId>): (at: int)
    requires ids <= jobs.Keys
    ensures at <= MAX_TIME
    ensures forall id :: id in ids ==> at <= jobs[id].readyAt
    ensures at < MAX_TIME ==> exists id :: id in ids && jobs[id].readyAt == at
  {
    if ids == {} then MAX_TIME
    else
      var id :| id in ids;
      Min(jobs[id].readyAt, Earliest(jobs, ids - {id}))
  }

  // The scan leaves no due job, and an exact time of the next delay.
  lemma TickDelayInv(s: State, now: int)
    requires Inv(s)
    ensures Inv(TickDelay(s, now))
    ensures forall id :: id in s.jobs ==> !Due(TickDelay(s, now).jobs[id], now)
    ensures NextDelayIs(TickDelay(s, now))
  {
    var s' := TickDelay(s, now);
    forall k | k in s'.jobs ensures JobInv(s', k, {}) { assert JobInv(s, k, {}); }
    forall c | c in s'.clients ensures ClientInv(s', c, {}) { assert ClientInv(s, c, {}); }
    forall t | t in s'.tubes ensures TubeInv(s', t) { assert TubeInv(s, t); }
  }

  // ----- ready jobs -------------------------------------------------------

  // A match moves one job and nothing else.
  lemma MatchJobs(s: State, now: int, t: TubeName, c: ClientId)
    requires Keyed(s.jobs) && c in s.clients && Next(s, InReady(t)).Some?
    ensures var id := Next(s, InReady(t)).value;
            Match(s, now, t, c).0.jobs == s.jobs[id := ReservedJob(s.jobs[id], now, c)]
    ensures Contents(Match(s, now, t, c).0, InReady(t)) == Contents(s, InReady(t)) - {Next(s, InReady(t)).value}
  {
  }

  // A tube with both a waiting client and a ready job.
  ghost predicate Busy(s: State, t: TubeName) {
    t in s.tubes && s.tubes[t] != [] && Contents(s, InReady(t)) != {}
  }

  // The head of the queue of a busy tube can be matched.
  lemma BusyMatch(s: State, now: int, t: TubeName)
    requires Inv(s) && ClockOk(now) && Busy(s, t)
    ensures Keyed(s.jobs) && s.tubes[t][0] in s.clients && s.clients[s.tubes[t][0]].waiting
    ensures Inv(Match(s, now, t, s.tubes[t][0]).0)
    ensures |Contents(Match(s, now, t, s.tubes[t][0]).0, InReady(t))| < |Contents(s, InReady(t))|
  {
    InvKeyed(s, {});
    var c := s.tubes[t][0];
    assert TubeInv(s, t) && c in s.tubes[t];
    Loosen(s, c);
    MatchInv(s, now, t, c);
    MatchJobs(s, now, t, c);
  }

  // Serve the wait queue of one tube until it has no client or no ready job.
  ghost function TickTube(s: State, now: int, t: TubeName): (r: (State, seq<Reservation>))
    requires Inv(s) && ClockOk(now)
    ensures Inv(r.0) && r.0.maxJobId == s.maxJobId
    decreases |Contents(s, InReady(t))|
  {
    if !Busy(s, t) then (s, [])
    else
      BusyMatch(s, now, t);
      var (s1, r1) := Match(s, now, t, s.tubes[t][0]);
      var (s2, rs) := TickTube(s1, now, t);
      (s2, [r1] + rs)
  }

  // Serve the tubes in the given order.
  ghost function TickReady(s: State, now: int, order: seq<TubeName>): (r: (State, seq<Reservation>))
    requires Inv(s) && ClockOk(now)
    ensures Inv(r.0) && r.0.maxJobId == s.maxJobId
    decreases |order|
  {
    if order == [] then (s, [])
    else
      var (s1, r1) := TickTube(s, now, order[0]);
      var (s2, r2) := TickReady(s1, now, order[1..]);
      (s2, r1 + r2)
  }

  // ----- clients ----------------------------------------------------------

  predicate Lapsed(j: Job, now: int, c: ClientId) {
    j.state == Reserved && j.reservedBy == c && j.expiresAt < now
  }

  function LapsedTubes(s: State, now: int, c: ClientId): set<TubeName> {
    set id | id in s.jobs && Lapsed(s.jobs[id], now, c) :: s.jobs[id].tube
  }

  // Every job held by c whose reservation is over becomes ready again.
  function Expire(s: State, now: int, c: ClientId): State {
    s.(jobs := map id | id in s.jobs :: if Lapsed(s.jobs[id], now, c) then TimedOut(s.jobs[id]) else s.jobs[id],
       tubes := map t | t in s.tubes.Keys + LapsedTubes(s, now, c) :: if t in s.tubes then s.tubes[t] else [])
  }

  lemma ExpireJobs(s: State, now: int, c: ClientId, id: JobId, loose: set<ClientId>)
    requires id in s.jobs && JobInv(s, id, loose)
    ensures JobInv(Expire(s, now, c), id, loose)
  {
    if Lapsed(s.jobs[id], now, c) {
      TimeoutLaw(s.jobs[id]);
      assert s.jobs[id].tube in LapsedTubes(s, now, c);
    }
  }

  lemma ExpireInv(s: State, now: int, c: ClientId, loose: set<ClientId>)
    requires InvBut(s, loose)
    ensures InvBut(Expire(s, now, c), loose)
  {
    var s' := Expire(s, now, c);
    forall k | k in s'.jobs ensures JobInv(s', k, loose) { ExpireJobs(s, now, c, k, loose); }
    forall d | d in s'.clients ensures ClientInv(s', d, loose) { assert ClientInv(s, d, loose); }
    forall t | t in s'.tubes ensures TubeInv(s', t) {
      if t in s.tubes { assert TubeInv(s, t); }
    }
  }

  predicate Late(s: State, now: int, c: ClientId)
    requires c in s.clients
  {
    s.clients[c].waiting && s.clients[c].deadline < now
  }

  // A waiting client holds a job whose reservation is about to end.
  ghost predicate Soon(s: State, now: int, c: ClientId)
    requires Keyed(s.jobs) && c in s.clients
  {
    && s.clients[c].waiting
    && Next(s, HeldBy(c)).Some?
    && s.jobs[Next(s, HeldBy(c)).value].expiresAt <= now
  }

  // A client taken off the timer heap: its request times out if its deadline
  // has passed, and it loses the jobs whose reservation is over.
  function Served(s: State, now: int, c: ClientId): State
    requires c in s.clients
  {
    var s0 := s.(timers := s.timers - {c});
    Expire(if Late(s, now, c) then Retire(s0, c) else s0, now, c)
  }

  lemma ServedFacts(s: State, now: int, c: ClientId)
    requires c in s.clients
    ensures var s' := Served(s, now, c);
            && s'.timers == s.timers - {c} && s'.clients.Keys == s.clients.Keys && s'.roster == s.roster
            && (forall d :: d in s.clients && d != c ==> s'.clients[d] == s.clients[d])
            && s'.jobs == Expire(s, now, c).jobs
            && (s'.clients[c].waiting ==> s'.clients[c] == s.clients[c] && now <= s.clients[c].deadline)
            && (Keyed(s.jobs) ==> Keyed(s'.jobs))
  {
  }

  // ... and, if it still waits, it is told of a reservation about to end.
  ghost function Warned(s: State, now: int, c: ClientId): State
    requires Keyed(s.jobs) && c in s.clients
  {
    if Soon(s, now, c) then Retire(s, c) else s
  }

  ghost function Wake(s: State, now: int, c: ClientId): (r: (State, seq<Reservation>))
    requires Keyed(s.jobs) && c in s.clients
  {
    ServedFacts(s, now, c);
    var s2 := Served(s, now, c);
    (Schedule(Warned(s2, now, c), c),
     (if Late(s, now, c) then [Answer(s, c, Timeout)] else [])
     + (if Soon(s2, now, c) then [Answer(s, c, DeadlineSoon)] else []))
  }

  lemma WakeInv(s: State, now: int, c: ClientId)
    requires Inv(s) && c in s.clients
    ensures Keyed(s.jobs) && Inv(Wake(s, now, c).0)
  {
    InvKeyed(s, {});
    OffTimerInv(s, c);
    var s0 := s.(timers := s.timers - {c});
    RetireInv(s0, c, {c});
    ExpireInv(if Late(s, now, c) then Retire(s0, c) else s0, now, c, {c});
    var s2 := Served(s, now, c);
    InvKeyed(s2, {c});
    RetireInv(s2, c, {c});
    ScheduleInv(Warned(s2, now, c), c);
  }

  lemma OffTimerInv(s: State, c: ClientId)
    requires Inv(s)
    ensures InvBut(s.(timers := s.timers - {c}), {c})
  {
    var s' := s.(timers := s.timers - {c});
    forall k | k in s'.jobs ensures JobInv(s', k, {c}) { assert JobInv(s, k, {}); }
    forall d | d in s'.clients ensures ClientInv(s', d, {c}) { assert ClientInv(s, d, {}); }
    forall t | t in s'.tubes ensures TubeInv(s', t) { assert TubeInv(s, t); }
  }

  // The order of the timer heap: by time, ties broken by client id.
  predicate TimerBefore(clients: map<ClientId, Client>, a: ClientId, b: ClientId)
    requires a in clients && b in clients
  {
    if clients[a].tickAt == clients[b].tickAt then StrLess(a, b) else clients[a].tickAt < clients[b].tickAt
  }

  ghost predicate IsFirstTimer(s: State, ids: set<ClientId>, c: ClientId)
    requires ids <= s.clients.Keys
  {
    c in ids && forall d :: d in ids && d != c ==> TimerBefore(s.clients, c, d)
  }

  lemma {:induction false} FirstTimerExists(s: State, ids: set<ClientId>)
    requires ids <= s.clients.Keys && ids != {}
    ensures exists c :: IsFirstTimer(s, ids, c)
    decreases ids
  {
    var x :| x in ids;
    var rest := ids - {x};
    assert forall k :: k in ids <==> k == x || k in rest;
    if rest == {} {
      assert IsFirstTimer(s, ids, x);
    } else {
      FirstTimerExists(s, rest);
      var y :| IsFirstTimer(s, rest, y);
      StrLessTotal(x, y);
      if TimerBefore(s.clients, x, y) {
        forall k | k in rest && k != y ensures TimerBefore(s.clients, x, k) {
          if StrLess(x, y) && StrLess(y, k) { StrLessTransitive(x, y, k); }
        }
        assert IsFirstTimer(s, ids, x);
      } else {
        assert IsFirstTimer(s, ids, y);
      }
    }
  }

  // The client that wakes first.
  ghost function FirstTimer(s: State): (r: Option<ClientId>)
    requires s.timers <= s.clients.Keys
    ensures r.None? <==> s.timers == {}
    ensures r.Some? ==> IsFirstTimer(s, s.timers, r.value)
  {
    if s.timers == {} then None
    else
      FirstTimerExists(s, s.timers);
      var c :| IsFirstTimer(s, s.timers, c);
      Some(c)
  }

  // The clients whose timer has gone off.
  ghost function Overdue(s: State, now: int): set<ClientId> {
    set c | c in s.timers && c in s.clients && s.clients[c].tickAt < now
  }

  // Nothing lies behind a client that was served and warned.
  lemma WarnedAhead(s: State, now: int, c: ClientId)
    requires Keyed(s.jobs) && c in s.clients
    ensures var s3 := Warned(s, now, c);
            && s3.jobs == s.jobs && s3.timers == s.timers && s3.clients.Keys == s.clients.Keys
            && (forall d :: d in s.clients && d != c ==> s3.clients[d] == s.clients[d])
            && (s3.clients[c].waiting ==>
                  s3.clients[c] == s.clients[c] && forall id :: id in Contents(s, HeldBy(c)) ==> now < s.jobs[id].expiresAt)
  {
  }

  lemma NextEventAhead(s: State, now: int, c: ClientId)
    requires Keyed(s.jobs) && c in s.clients && now <= MAX_TIME
    requires s.clients[c].waiting ==> now <= s.clients[c].deadline
    requires forall id :: id in Contents(s, HeldBy(c)) ==>
               now <= s.jobs[id].expiresAt && (s.clients[c].waiting ==> now < s.jobs[id].expiresAt)
    ensures now <= NextEvent(s, c)
  {
  }

  // A client that was woken sleeps until now at least; the others are left alone.
  lemma WakeClients(s: State, now: int, c: ClientId)
    requires Keyed(s.jobs) && c in s.clients && now <= MAX_TIME
    ensures var s' := Wake(s, now, c).0;
            && (forall d :: d != c ==> (d in s'.timers <==> d in s.timers) && (d in s'.clients <==> d in s.clients))
            && (forall d :: d != c && d in s.clients ==> s'.clients[d] == s.clients[d])
            && (c in s'.clients && c in s'.timers ==> s'.clients[c].tickAt >= now)
  {
    ServedFacts(s, now, c);
    var s2 := Served(s, now, c);
    WarnedAhead(s2, now, c);
    NextEventAhead(Warned(s2, now, c), now, c);
  }

  lemma WakeOverdue(s: State, now: int, c: ClientId)
    requires Keyed(s.jobs) && c in Overdue(s, now) && now <= MAX_TIME
    ensures Overdue(Wake(s, now, c).0, now) == Overdue(s, now) - {c}
  {
    WakeClients(s, now, c);
  }

  // Wake every client whose timer has gone off, first one first.
  ghost function TickClients(s: State, now: int): (r: (State, seq<Reservation>))
    requires Inv(s) && ClockOk(now)
    ensures Inv(r.0) && r.0.maxJobId == s.maxJobId
    decreases |Overdue(s, now)|
  {
    var first := FirstTimer(s);
    if first.None? || now <= s.clients[first.value].tickAt then (s, [])
    else
      WakeInv(s, now, first.value);
      WakeOverdue(s, now, first.value);
      var (s1, r1) := Wake(s, now, first.value);
      var (s2, r2) := TickClients(s1, now);
      (s2, r1 + r2)
  }

  // ----- the whole step ---------------------------------------------------

  ghost function Tick(s: State, now: int, order: seq<TubeName>): (r: (State, seq<Reservation>))
    requires Inv(s) && ClockOk(now)
    ensures Inv(r.0)
  {
    TickDelayInv(s, now);
    var s1 := if now > s.nextDelay then TickDelay(s, now) else s;
    var (s2, r2) := TickReady(s1, now, order);
    var (s3, r3) := TickClients(s2, now);
    (s3, r2 + r3)
  }
}
