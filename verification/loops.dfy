/** What the loops of the machine keep, said on states: how far a loop has come
    and what is left to do. */
module Loops {
  import opened Types
  import opened Spec
  import opened Invariant
  import opened Ticks
  import opened Matching

  // The queues after c was taken out of those of the tubes ts.
  function Dequeued(tubes: map<TubeName, seq<ClientId>>, ts: seq<TubeName>, c: ClientId): map<TubeName, seq<ClientId>> {
    map t | t in tubes :: if t in ts then Without(tubes[t], c) else tubes[t]
  }

  lemma DequeuedOne(tubes: map<TubeName, seq<ClientId>>, ts: seq<TubeName>, i: nat, c: ClientId)
    requires i < |ts| && NoDup(ts) && ts[i] in tubes
    ensures ts[i] !in ts[..i]
    ensures Dequeued(tubes, ts[..i], c)[ts[i] := Without(tubes[ts[i]], c)] == Dequeued(tubes, ts[..i + 1], c)
  {
    assert ts[..i + 1] == ts[..i] + [ts[i]];
  }

  lemma EnqueuedOne(tubes: map<TubeName, seq<ClientId>>, ts: seq<TubeName>, i: nat, c: ClientId)
    requires i < |ts| && NoDup(ts) && forall t :: t in tubes ==> c !in tubes[t]
    ensures var q := Enqueue(tubes, ts[..i], c);
            var q0 := if ts[i] in q then q else q[ts[i] := []];
            c !in q0[ts[i]] && Enqueue(tubes, ts[..i + 1], c) == q0[ts[i] := q0[ts[i]] + [c]]
  {
    assert ts[i] !in ts[..i];
    assert forall t :: t in ts[..i + 1] <==> t in ts[..i] || t == ts[i] by { assert ts[..i + 1] == ts[..i] + [ts[i]]; }
    EnqueueLast(tubes, ts[..i], ts[..i + 1], ts[i], c);
  }

  lemma EnqueueLast(tubes: map<TubeName, seq<ClientId>>, ts: seq<TubeName>, ts': seq<TubeName>, u: TubeName, c: ClientId)
    requires u !in ts && (forall t :: t in ts' <==> t in ts || t == u) && forall t :: t in tubes ==> c !in tubes[t]
    ensures var q := Enqueue(tubes, ts, c);
            var q0 := if u in q then q else q[u := []];
            c !in q0[u] && Enqueue(tubes, ts', c) == q0[u := q0[u] + [c]]
  {
    hide Enqueue;
    var q, q' := Enqueue(tubes, ts, c), Enqueue(tubes, ts', c);
    forall t ensures EnqueuedAt(tubes, ts, c, t) && EnqueuedAt(tubes, ts', c, t) {
      EnqueueAt(tubes, ts, c, t);
      EnqueueAt(tubes, ts', c, t);
    }
    assert EnqueuedAt(tubes, ts, c, u) && EnqueuedAt(tubes, ts', c, u);
    var q0 := if u in q then q else q[u := []];
    var q1 := q0[u := q0[u] + [c]];
    forall t ensures t in q' <==> t in q1 { assert EnqueuedAt(tubes, ts, c, t) && EnqueuedAt(tubes, ts', c, t); }
    forall t | t in q' ensures q'[t] == q1[t] { assert EnqueuedAt(tubes, ts, c, t) && EnqueuedAt(tubes, ts', c, t); }
  }

  ghost predicate EnqueuedAt(tubes: map<TubeName, seq<ClientId>>, ts: seq<TubeName>, c: ClientId, t: TubeName) {
    var q := Enqueue(tubes, ts, c);
    && (t in q <==> t in tubes || t in ts)
    && (t in q ==> q[t] == (if t in tubes then tubes[t] else []) + if t in ts then [c] else [])
  }

  lemma EnqueueAt(tubes: map<TubeName, seq<ClientId>>, ts: seq<TubeName>, c: ClientId, t: TubeName)
    ensures EnqueuedAt(tubes, ts, c, t)
  {
  }

  // Kicking the first buried job of a tube leaves one less.
  lemma KickOne(s: State, t: TubeName, id: JobId)
    requires Keyed(s.jobs) && Next(s, InBuried(t)) == Some(id)
    ensures Spec.Kick(s, id).1 == Ok(()) && Keyed(Spec.Kick(s, id).0.jobs)
    ensures |Contents(Spec.Kick(s, id).0, InBuried(t))| + 1 == |Contents(s, InBuried(t))|
  {
    assert Contents(Spec.Kick(s, id).0, InBuried(t)) == Contents(s, InBuried(t)) - {id};
  }

  // KickN(s, t, n) has kicked k jobs and come to s'.
  ghost predicate KicksOn(s: State, t: TubeName, n: int, s': State, k: int) {
    && Keyed(s.jobs) && Keyed(s'.jobs) && 0 <= k && (n <= 0 ==> k == 0)
    && Spec.KickN(s', t, n - k) == Spec.KickN(s, t, n)
    && KickCount(s', t, n - k) + k == KickCount(s, t, n)
  }

  ghost function KickTop(s: State, t: TubeName): State
    requires Keyed(s.jobs)
  {
    match Next(s, InBuried(t))
    case None => s
    case Some(id) => Spec.Kick(s, id).0
  }

  lemma KickNStep(s: State, s': State, t: TubeName, n: int, k: int)
    requires KicksOn(s, t, n, s', k) && k < n
    ensures if Contents(s', InBuried(t)) == {} then KickTop(s', t) == Spec.KickN(s, t, n) && k == KickCount(s, t, n)
            else KicksOn(s, t, n, KickTop(s', t), k + 1)
  {
    hide Spec.Kick, Filed, Keyed;
    match Next(s', InBuried(t))
    case None =>
    case Some(id) => KickOne(s', t, id);
  }

  lemma KickNStart(s: State, t: TubeName, n: int)
    requires Inv(s)
    ensures KicksOn(s, t, n, s, 0)
  {
    InvKeyed(s, {});
  }

  lemma KickNDone(s: State, s': State, t: TubeName, n: int, k: int)
    requires KicksOn(s, t, n, s', k) && n <= k
    ensures s' == Spec.KickN(s, t, n) && k == KickCount(s, t, n)
  {
  }

  // The due jobs of tube t become ready.
  ghost function UndelayTube(s: State, now: int, t: TubeName): State {
    s.(jobs := map id | id in s.jobs ::
         if Due(s.jobs[id], now) && s.jobs[id].tube == t then Undelayed(s.jobs[id]) else s.jobs[id])
  }

  // at is when the first delayed job of tube t becomes ready.
  ghost predicate NextDue(s: State, t: TubeName, at: int) {
    && at <= MAX_TIME
    && (forall id :: id in Contents(s, InDelayed(t)) ==> at <= s.jobs[id].readyAt)
    && (at < MAX_TIME ==> exists id :: id in Contents(s, InDelayed(t)) && s.jobs[id].readyAt == at)
  }

  lemma NoneDue(s: State, now: int, t: TubeName)
    requires Keyed(s.jobs)
    requires var n := Next(s, InDelayed(t)); n.None? || now <= s.jobs[n.value].readyAt
    ensures UndelayTube(s, now, t) == s
    ensures var n := Next(s, InDelayed(t)); NextDue(s, t, if n.None? then MAX_TIME else Min(MAX_TIME, s.jobs[n.value].readyAt))
  {
    forall id | id in s.jobs && s.jobs[id].state == Delayed && s.jobs[id].tube == t ensures now <= s.jobs[id].readyAt {
      assert id in Contents(s, InDelayed(t));
    }
    assert UndelayTube(s, now, t).jobs == s.jobs;
  }

  lemma UndelayOne(s: State, now: int, t: TubeName, id: JobId)
    requires Keyed(s.jobs) && Next(s, InDelayed(t)) == Some(id) && s.jobs[id].readyAt < now
    ensures UndelayTube(SetJob(s, Undelayed(s.jobs[id])), now, t) == UndelayTube(s, now, t)
    ensures |Contents(SetJob(s, Undelayed(s.jobs[id])), InDelayed(t))| < |Contents(s, InDelayed(t))|
    ensures s.jobs[id].state == Delayed && s.jobs[id].tube == t
  {
    assert id in Contents(s, InDelayed(t));
    assert Contents(SetJob(s, Undelayed(s.jobs[id])), InDelayed(t)) == Contents(s, InDelayed(t)) - {id};
    assert UndelayTube(SetJob(s, Undelayed(s.jobs[id])), now, t).jobs == UndelayTube(s, now, t).jobs;
  }

  // s after the tubes outside todo were scanned.
  ghost function UndelayBut(s: State, now: int, todo: set<TubeName>): State {
    s.(jobs := map id | id in s.jobs ::
         if Due(s.jobs[id], now) && s.jobs[id].tube !in todo then Undelayed(s.jobs[id]) else s.jobs[id])
  }

  // next is when the first delayed job of the tubes outside todo becomes ready.
  ghost predicate FirstDelay(jobs: map<JobId, Job>, todo: set<TubeName>, next: int) {
    && next <= MAX_TIME
    && (forall id :: id in jobs && jobs[id].state == Delayed && jobs[id].tube !in todo ==> next <= jobs[id].readyAt)
    && (next < MAX_TIME ==>
          exists id :: id in jobs && jobs[id].state == Delayed && jobs[id].tube !in todo && jobs[id].readyAt == next)
  }

  ghost predicate DelaysLeft(s: State, s': State, now: int, todo: set<TubeName>, next: int) {
    s' == UndelayBut(s, now, todo) && FirstDelay(s'.jobs, todo, next)
  }

  lemma DelaysStart(s: State, now: int)
    requires forall id :: id in s.jobs && s.jobs[id].state == Delayed ==> s.jobs[id].tube in s.tubes
    ensures DelaysLeft(s, s, now, s.tubes.Keys, MAX_TIME)
  {
    assert s.jobs == UndelayBut(s, now, s.tubes.Keys).jobs;
  }

  lemma DelaysDone(s: State, s': State, now: int, next: int)
    requires DelaysLeft(s, s', now, {}, next)
    ensures s'.(nextDelay := next) == TickDelay(s, now)
  {
    assert s'.jobs == TickDelay(s, now).jobs;
  }

  lemma OneTubeLess(s: State, now: int, todo: set<TubeName>, t: TubeName)
    requires t in todo
    ensures UndelayTube(UndelayBut(s, now, todo), now, t) == UndelayBut(s, now, todo - {t})
  {
    assert UndelayTube(UndelayBut(s, now, todo), now, t).jobs == UndelayBut(s, now, todo - {t}).jobs;
  }

  lemma FirstDelayStep(v: State, v': State, now: int, todo: set<TubeName>, next: int, t: TubeName, at: int)
    requires v' == UndelayTube(v, now, t) && FirstDelay(v.jobs, todo, next) && t in todo && NextDue(v', t, at)
    ensures FirstDelay(v'.jobs, todo - {t}, Min(next, at))
  {
    forall id | id in v'.jobs && v'.jobs[id].state == Delayed && v'.jobs[id].tube == t ensures at <= v'.jobs[id].readyAt {
      assert id in Contents(v', InDelayed(t));
    }
    if at < next {
      var id :| id in Contents(v', InDelayed(t)) && v'.jobs[id].readyAt == at;
      assert id in v'.jobs && v'.jobs[id].state == Delayed && v'.jobs[id].tube == t;
    } else if next < MAX_TIME {
      var id :| id in v.jobs && v.jobs[id].state == Delayed && v.jobs[id].tube !in todo && v.jobs[id].readyAt == next;
      assert v'.jobs[id] == v.jobs[id];
    }
  }

  lemma DelaysStep(s: State, v: State, now: int, todo: set<TubeName>, next: int, t: TubeName, at: int)
    requires DelaysLeft(s, v, now, todo, next) && t in todo
    requires NextDue(UndelayTube(v, now, t), t, at)
    ensures DelaysLeft(s, UndelayTube(v, now, t), now, todo - {t}, Min(next, at))
  {
    OneTubeLess(s, now, todo, t);
    FirstDelayStep(v, UndelayTube(v, now, t), now, todo, next, t, at);
  }

  // Serving tube t from s has come to v and given the answers rs.
  ghost predicate TubeSplit(s: State, now: int, t: TubeName, v: State, rs: seq<Reservation>) {
    && Inv(s) && Inv(v) && ClockOk(now) && t in v.tubes
    && TickTube(s, now, t) == (TickTube(v, now, t).0, rs + TickTube(v, now, t).1)
  }

  lemma TubeSplitStart(s: State, now: int, t: TubeName)
    requires Inv(s) && ClockOk(now) && t in s.tubes
    ensures TubeSplit(s, now, t, s, [])
  {
    assert [] + TickTube(s, now, t).1 == TickTube(s, now, t).1;
  }

  lemma TubeSplitStep(s: State, now: int, t: TubeName, v: State, rs: seq<Reservation>)
    requires TubeSplit(s, now, t, v, rs)
    ensures Inv(v) && t in v.tubes
    ensures !Busy(v, t) ==> (v, rs) == TickTube(s, now, t)
    ensures Busy(v, t) ==>
      && Keyed(v.jobs) && v.tubes[t][0] in v.clients && Next(v, InReady(t)).Some?
      && var (v', r) := Match(v, now, t, v.tubes[t][0]);
      && Inv(v') && TubeSplit(s, now, t, v', rs + [r])
      && |Contents(v', InReady(t))| < |Contents(v, InReady(t))|
  {
    hide InvBut;
    if Busy(v, t) {
      BusyMatch(v, now, t);
      var (v', r) := Match(v, now, t, v.tubes[t][0]);
      assert rs + ([r] + TickTube(v', now, t).1) == rs + [r] + TickTube(v', now, t).1;
    } else {
      assert rs + [] == rs;
    }
  }

  lemma TickReadyNone(s: State, now: int)
    requires Inv(s) && ClockOk(now)
    ensures TickReady(s, now, []) == (s, [])
  {
  }

  // Serving one tube more.
  lemma {:induction false} TickReadyMore(s: State, now: int, order: seq<TubeName>, t: TubeName)
    requires Inv(s) && ClockOk(now)
    ensures var (s1, r1) := TickReady(s, now, order);
            var (s2, r2) := TickTube(s1, now, t);
            TickReady(s, now, order + [t]) == (s2, r1 + r2) && s2.tubes.Keys == s1.tubes.Keys
    decreases |order|
  {
    hide Inv, TickTube, OtherTubes;
    if order == [] {
      assert [] + [t] == [t] && [t][1..] == [];
      var r2 := TickTube(s, now, t);
      assert TickReady(r2.0, now, []) == (r2.0, []);
      assert r2.1 + [] == [] + r2.1;
      ServedKeys(s, now, t);
    } else {
      var r0 := TickTube(s, now, order[0]);
      assert (order + [t])[1..] == order[1..] + [t];
      TickReadyMore(r0.0, now, order[1..], t);
      var r1 := TickReady(r0.0, now, order[1..]);
      var r2 := TickTube(r1.0, now, t);
      assert r0.1 + (r1.1 + r2.1) == r0.1 + r1.1 + r2.1;
    }
  }

  lemma ServedKeys(s: State, now: int, t: TubeName)
    requires Inv(s) && ClockOk(now)
    ensures TickTube(s, now, t).0.tubes.Keys == s.tubes.Keys
  {
    TickTubeOthers(s, now, t);
  }

  lemma FirstTimerUnique(s: State, a: ClientId, b: ClientId)
    requires s.timers <= s.clients.Keys && IsFirstTimer(s, s.timers, a) && IsFirstTimer(s, s.timers, b)
    ensures a == b
  {
    StrLessTotal(a, b);
  }

  // If client c waits, it is in the queues of all the tubes it watches.
  ghost predicate Wanted(s: State, c: ClientId)
    requires c in s.clients
  {
    s.clients[c].waiting ==>
      && NoDup(s.clients[c].watched)
      && forall t :: t in s.clients[c].watched ==> t in s.tubes && c in s.tubes[t]
  }

  // e is the state in which the lapsed reservations of c have ended: v is on
  // the way there, or c was warned there.
  ghost predicate Expiring(e: State, now: int, c: ClientId, v: State, rs: seq<Reservation>) {
    && Keyed(e.jobs) && c in e.clients && Expire(e, now, c) == e
    && Keyed(v.jobs) && c in v.clients && Wanted(v, c)
    && if rs == [] then Expire(v, now, c) == e
       else Soon(e, now, c) && v == Retire(e, c) && rs == [Answer(e, c, DeadlineSoon)]
  }

  // ... and v is the end.
  ghost predicate Expired(e: State, now: int, c: ClientId, v: State, rs: seq<Reservation>) {
    && Keyed(e.jobs) && c in e.clients
    && v == Warned(e, now, c) && rs == if Soon(e, now, c) then [Answer(e, c, DeadlineSoon)] else []
  }

  lemma NoneLapsed(s: State, now: int, c: ClientId)
    requires forall id :: id in s.jobs ==> !Lapsed(s.jobs[id], now, c)
    ensures Expire(s, now, c) == s
  {
    assert LapsedTubes(s, now, c) == {};
    assert Expire(s, now, c).jobs == s.jobs;
    assert Expire(s, now, c).tubes == s.tubes;
  }

  lemma ExpiringFacts(e: State, now: int, c: ClientId, v: State, rs: seq<Reservation>)
    requires Expiring(e, now, c, v, rs)
    ensures c in v.clients && Wanted(v, c)
  {
  }

  lemma ExpiringStart(s: State, now: int, c: ClientId)
    requires Keyed(s.jobs) && c in s.clients && Wanted(s, c)
    ensures Expiring(Expire(s, now, c), now, c, s, [])
  {
    NoneLapsed(Expire(s, now, c), now, c);
  }

  lemma LapsedOne(v: State, v': State, now: int, c: ClientId, id: JobId)
    requires id in v.jobs && Lapsed(v.jobs[id], now, c) && v'.jobs == v.jobs[id := TimedOut(v.jobs[id])]
    ensures LapsedTubes(v, now, c) == LapsedTubes(v', now, c) + {v.jobs[id].tube}
  {
    forall t | t in LapsedTubes(v, now, c) ensures t in LapsedTubes(v', now, c) || t == v.jobs[id].tube {
      var k :| k in v.jobs && Lapsed(v.jobs[k], now, c) && v.jobs[k].tube == t;
      assert k != id ==> v'.jobs[k] == v.jobs[k];
    }
    forall t | t in LapsedTubes(v', now, c) ensures t in LapsedTubes(v, now, c) {
      var k :| k in v'.jobs && Lapsed(v'.jobs[k], now, c) && v'.jobs[k].tube == t;
      assert v'.jobs[k] == v.jobs[k];
    }
  }

  lemma ExpireOne(v: State, now: int, c: ClientId, id: JobId)
    requires Keyed(v.jobs) && id in v.jobs && Lapsed(v.jobs[id], now, c)
    ensures Expire(SetTubeJob(v, TimedOut(v.jobs[id])), now, c) == Expire(v, now, c)
  {
    hide LapsedTubes;
    var v' := SetTubeJob(v, TimedOut(v.jobs[id]));
    LapsedOne(v, v', now, c, id);
    assert Expire(v', now, c).jobs == Expire(v, now, c).jobs;
    assert Expire(v', now, c).tubes == Expire(v, now, c).tubes;
  }

  lemma StillLapsed(e: State, now: int, c: ClientId, id: JobId)
    requires Expire(e, now, c).jobs == e.jobs && id in e.jobs
    ensures !Lapsed(e.jobs[id], now, c)
  {
  }

  lemma ExpiringRelease(e: State, now: int, c: ClientId, v: State, rs: seq<Reservation>, id: JobId)
    requires Expiring(e, now, c, v, rs) && Next(v, HeldBy(c)) == Some(id) && v.jobs[id].expiresAt < now
    ensures var (v', r) := Spec.Release(v, id, c);
            && r == Ok(()) && Expiring(e, now, c, v', rs)
            && |Contents(v', HeldBy(c))| < |Contents(v, HeldBy(c))|
  {
    hide Expire, Soon, Warned;
    assert id in Contents(v, HeldBy(c)) && Lapsed(v.jobs[id], now, c);
    ExpireOne(v, now, c, id);
    assert Contents(Spec.Release(v, id, c).0, HeldBy(c)) == Contents(v, HeldBy(c)) - {id};
    if rs != [] { StillLapsed(e, now, c, id); }
  }

  lemma AllAhead(v: State, now: int, c: ClientId)
    requires Keyed(v.jobs)
    requires var n := Next(v, HeldBy(c)); n.None? || now <= v.jobs[n.value].expiresAt
    ensures Expire(v, now, c) == v
  {
    forall id | id in v.jobs ensures !Lapsed(v.jobs[id], now, c) {
      if v.jobs[id].Place() == HeldBy(c) { assert id in Contents(v, HeldBy(c)); }
    }
    NoneLapsed(v, now, c);
  }

  lemma ExpiringWarn(e: State, now: int, c: ClientId, v: State, rs: seq<Reservation>, id: JobId)
    requires Expiring(e, now, c, v, rs) && Next(v, HeldBy(c)) == Some(id) && v.jobs[id].expiresAt == now
    requires v.clients[c].waiting
    ensures rs == [] && Wanted(v, c) && Expiring(e, now, c, Retire(v, c), [Answer(v, c, DeadlineSoon)])
    ensures Contents(Retire(v, c), HeldBy(c)) == Contents(v, HeldBy(c)) && !Retire(v, c).clients[c].waiting
  {
    AllAhead(v, now, c);
  }

  lemma ExpiringDone(e: State, now: int, c: ClientId, v: State, rs: seq<Reservation>)
    requires Expiring(e, now, c, v, rs)
    requires var n := Next(v, HeldBy(c));
             n.None? || now < v.jobs[n.value].expiresAt || (v.jobs[n.value].expiresAt == now && !v.clients[c].waiting)
    ensures Expired(e, now, c, v, rs)
  {
    AllAhead(v, now, c);
  }

  lemma WaitingWanted(s: State, c: ClientId)
    requires Inv(s) && c in s.clients
    ensures Wanted(s, c)
  {
    assert ClientInv(s, c, {});
  }

  lemma WakeParts(s: State, now: int, c: ClientId, v: State, warned: seq<Reservation>)
    requires Keyed(s.jobs) && c in s.clients && Expired(Served(s, now, c), now, c, v, warned)
    ensures Keyed(v.jobs) && c in v.clients
    ensures Wake(s, now, c) == (Schedule(v, c), (if Late(s, now, c) then [Answer(s, c, Timeout)] else []) + warned)
  {
    ServedFacts(s, now, c);
  }

  // Waking the overdue clients of s has come to v and given the answers rs.
  ghost predicate ClientsSplit(s: State, now: int, v: State, rs: seq<Reservation>) {
    && Inv(s) && Inv(v) && ClockOk(now)
    && Ticks.TickClients(s, now) == (Ticks.TickClients(v, now).0, rs + Ticks.TickClients(v, now).1)
  }

  lemma ClientsSplitStart(s: State, now: int)
    requires Inv(s) && ClockOk(now)
    ensures ClientsSplit(s, now, s, [])
  {
    assert [] + Ticks.TickClients(s, now).1 == Ticks.TickClients(s, now).1;
  }

  lemma ClientsSplitStep(s: State, now: int, v: State, rs: seq<Reservation>)
    requires ClientsSplit(s, now, v, rs)
    ensures Inv(v) && v.timers <= v.clients.Keys
    ensures var c := FirstTimer(v);
            if c.None? || now <= v.clients[c.value].tickAt then (v, rs) == Ticks.TickClients(s, now)
            else
              && Keyed(v.jobs)
              && var (v', r) := Wake(v, now, c.value);
              && Inv(v') && ClientsSplit(s, now, v', rs + r) && |Overdue(v', now)| < |Overdue(v, now)|
  {
    hide InvBut, Wake;
    assert Inv(v) && v.timers <= v.clients.Keys by { InvTimers(v); }
    var c := FirstTimer(v);
    if c.None? || now <= v.clients[c.value].tickAt {
      assert rs + [] == rs;
    } else {
      WakeInv(v, now, c.value);
      WakeOverdue(v, now, c.value);
      var (v', r) := Wake(v, now, c.value);
      assert rs + (r + Ticks.TickClients(v', now).1) == rs + r + Ticks.TickClients(v', now).1;
    }
  }

  lemma InvTimers(s: State)
    requires Inv(s)
    ensures s.timers <= s.clients.Keys
  {
  }

  lemma TickDelayKeys(s: State, now: int)
    ensures TickDelay(s, now).tubes == s.tubes
  {
  }

  // The scan does not depend on when it was due.
  lemma TickDelayAgain(s: State, now: int)
    ensures TickDelay(s.(nextDelay := MAX_TIME), now) == TickDelay(s, now)
  {
  }

  // The jobs in a state of the tubes outside todo.
  ghost function Counted(jobs: map<JobId, Job>, st: JobState, todo: set<TubeName>): set<JobId> {
    set id | id in jobs && jobs[id].state == st && jobs[id].tube !in todo
  }

  lemma NoneCounted(jobs: map<JobId, Job>, todo: set<TubeName>)
    requires forall id :: id in jobs && jobs[id].state in {Ready, Delayed, Buried} ==> jobs[id].tube in todo
    ensures Counted(jobs, Ready, todo) == {} && Counted(jobs, Delayed, todo) == {} && Counted(jobs, Buried, todo) == {}
  {
  }

  lemma TubeCounted(jobs: map<JobId, Job>, todo: set<TubeName>, t: TubeName)
    requires t in todo
    ensures |Counted(jobs, Ready, todo - {t})| == |Counted(jobs, Ready, todo)| + |Filed(jobs, InReady(t))|
    ensures |Counted(jobs, Delayed, todo - {t})| == |Counted(jobs, Delayed, todo)| + |Filed(jobs, InDelayed(t))|
    ensures |Counted(jobs, Buried, todo - {t})| == |Counted(jobs, Buried, todo)| + |Filed(jobs, InBuried(t))|
  {
    OneCounted(jobs, Ready, todo, t, InReady(t));
    OneCounted(jobs, Delayed, todo, t, InDelayed(t));
    OneCounted(jobs, Buried, todo, t, InBuried(t));
  }

  lemma OneCounted(jobs: map<JobId, Job>, st: JobState, todo: set<TubeName>, t: TubeName, p: Place)
    requires t in todo && forall id :: id in jobs ==> (jobs[id].Place() == p <==> jobs[id].state == st && jobs[id].tube == t)
    ensures |Counted(jobs, st, todo - {t})| == |Counted(jobs, st, todo)| + |Filed(jobs, p)|
  {
    assert Counted(jobs, st, todo - {t}) == Counted(jobs, st, todo) + Filed(jobs, p);
    assert Counted(jobs, st, todo) !! Filed(jobs, p);
  }

  lemma AllCounted(s: State)
    ensures Counted(s.jobs, Ready, {}) == InState(s, Ready) && Counted(s.jobs, Delayed, {}) == InState(s, Delayed)
    ensures Counted(s.jobs, Buried, {}) == InState(s, Buried)
  {
  }

  // The jobs reserved by clients outside todo.
  ghost function ReservedBy(jobs: map<JobId, Job>, todo: set<ClientId>): set<JobId> {
    set id | id in jobs && jobs[id].state == Reserved && jobs[id].reservedBy !in todo
  }

  lemma HolderCounted(jobs: map<JobId, Job>, todo: set<ClientId>, c: ClientId)
    requires c in todo
    ensures |ReservedBy(jobs, todo - {c})| == |ReservedBy(jobs, todo)| + |Filed(jobs, HeldBy(c))|
  {
    assert ReservedBy(jobs, todo - {c}) == ReservedBy(jobs, todo) + Filed(jobs, HeldBy(c));
    assert ReservedBy(jobs, todo) !! Filed(jobs, HeldBy(c));
  }

  // A client that does not wait is in no queue.
  lemma NotQueued(s: State, c: ClientId)
    requires Inv(s) && !(c in s.clients && s.clients[c].waiting)
    ensures forall t :: t in s.tubes ==> c !in s.tubes[t]
  {
    forall t | t in s.tubes ensures c !in s.tubes[t] {
      assert TubeInv(s, t);
    }
  }

  lemma VacantCleanup(s: State, t: TubeName)
    ensures Spec.Cleanup(s, t) == s.(tubes := if Vacant(s, t, {}) then s.tubes - {t} else s.tubes)
  {
  }

  // A tube dropped because of its last job comes back with the job.
  lemma TubeBack(s: State, j: Job)
    requires j.tube in s.tubes
    ensures Vacant(s, j.tube, {j.id}) ==> EnsureTube(SetJob(s.(tubes := s.tubes - {j.tube}), j), j.tube) == SetJob(s, j)
  {
    if s.tubes[j.tube] == [] {
      assert (s.tubes - {j.tube})[j.tube := []] == s.tubes;
    }
  }

  // Tube t exists but has no jobs, except loose ones, and no waiting clients.
  ghost predicate Vacant(s: State, t: TubeName, loose: set<JobId>) {
    && t in s.tubes && s.tubes[t] == []
    && Contents(s, InReady(t)) <= loose && Contents(s, InDelayed(t)) <= loose && Contents(s, InBuried(t)) <= loose
  }
}
