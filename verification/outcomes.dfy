/** What each operation on a job answers, and what it changes: field by field,
    and nothing else. */
module Outcomes {
  import opened Types
  import opened Spec
  import opened Invariant

  // Clients and ids are as they were.
  predicate ClientsKept(s: State, s': State) {
    s'.clients == s.clients && s'.roster == s.roster && s'.timers == s.timers
  }

  // The queues are as they were; at most tube t is new, with an empty one.
  ghost predicate QueuesKept(s: State, s': State, t: TubeName) {
    && (forall u :: u in s'.tubes <==> u in s.tubes || u == t)
    && (forall u :: u in s'.tubes ==> s'.tubes[u] == if u in s.tubes then s.tubes[u] else [])
  }

  // The noted time of the next delay, lowered to at if that is earlier.
  function Lowered(next: int, at: int): int {
    if at < next then at else next
  }

  // A put makes one job, just as it was asked for, under the next id.
  lemma PutOutcome(s: State, now: int, pri: nat, delay: int, ttr: int, bodySize: int, body: seq<bv8>, t: TubeName)
    ensures var (s', id) := Put(s, now, pri, delay, ttr, bodySize, body, t);
            && id == s.maxJobId + 1 && s'.maxJobId == id && ClientsKept(s, s') && QueuesKept(s, s', t)
            && s'.nextDelay == (if delay > 0 then Lowered(s.nextDelay, now + delay) else s.nextDelay)
            && id in s'.jobs && s'.jobs == s.jobs[id := s'.jobs[id]]
            && var j := s'.jobs[id];
            && j.id == id && j.priority == pri && j.delay == delay && j.ttr == ttr && j.bodySize == bodySize
            && j.body == body && j.tube == t && j.createdAt == now && j.readyAt == now + delay
            && j.state == (if delay > 0 then Delayed else Ready) && j.reservedBy == "" && j.expiresAt == 0 && j.buriedAt == 0
            && j.reserves == 0 && j.timeouts == 0 && j.releases == 0 && j.buries == 0 && j.kicks == 0
  {
  }

  // Nothing is left in tube t.
  ghost predicate Abandoned(s: State, t: TubeName) {
    && t in s.tubes && s.tubes[t] == []
    && forall k :: k in s.jobs && s.jobs[k].tube == t ==> s.jobs[k].state !in {Ready, Delayed, Buried}
  }

  // Delete removes any job but one that is reserved by somebody else. The tube
  // of a delayed job goes exactly if nothing is left in it.
  lemma DeleteOutcome(s: State, id: JobId, c: ClientId)
    ensures var (s', r) := Delete(s, id, c);
            && (r == Err(EntryMissing) <==> id !in s.jobs)
            && (r == Err(UnauthorizedOperation) <==> id in s.jobs && s.jobs[id].state == Reserved && s.jobs[id].reservedBy != c)
            && (r.Err? ==> s' == s && (r.error == EntryMissing || r.error == UnauthorizedOperation))
            && (r.Ok? ==>
                  && s'.jobs == s.jobs - {id} && ClientsKept(s, s') && s'.maxJobId == s.maxJobId && s'.nextDelay == s.nextDelay
                  && var t := s.jobs[id].tube;
                  s'.tubes == if s.jobs[id].state == Delayed && Abandoned(s.(jobs := s'.jobs), t) then s.tubes - {t} else s.tubes)
  {
    var (s', r) := Delete(s, id, c);
    if r.Ok? {
      var s1, t := s.(jobs := s.jobs - {id}), s.jobs[id].tube;
      LeftInTube(s1, t);
    }
  }

  lemma LeftInTube(s: State, t: TubeName)
    ensures Contents(s, InReady(t)) == {} && Contents(s, InDelayed(t)) == {} && Contents(s, InBuried(t)) == {} <==>
              forall k :: k in s.jobs && s.jobs[k].tube == t ==> s.jobs[k].state !in {Ready, Delayed, Buried}
  {
    forall k | k in s.jobs && s.jobs[k].tube == t && s.jobs[k].state in {Ready, Delayed, Buried}
      ensures Contents(s, InReady(t)) != {} || Contents(s, InDelayed(t)) != {} || Contents(s, InBuried(t)) != {}
    {
      assert k in Contents(s, s.jobs[k].Place());
    }
  }

  // The job is reserved, and by c if c is somebody.
  predicate MayLeave(s: State, id: JobId, c: ClientId) {
    id in s.jobs && s.jobs[id].state == Reserved && (c == "" || s.jobs[id].reservedBy == c)
  }

  // The answer to an operation that only the holder of a job may do.
  predicate LeaveAnswer(s: State, id: JobId, c: ClientId, r: Result<()>) {
    && (r == Ok(()) <==> MayLeave(s, id, c))
    && (r == Err(EntryMissing) <==> id !in s.jobs)
    && (r == Err(InvalidJobTransition) <==> id in s.jobs && s.jobs[id].state != Reserved)
    && (r == Err(UnauthorizedOperation) <==>
          id in s.jobs && s.jobs[id].state == Reserved && c != "" && s.jobs[id].reservedBy != c)
  }

  // Job id becomes j, in its tube; nothing else changes but the next delay.
  ghost predicate Becomes(s: State, s': State, id: JobId, j: Job) {
    s'.jobs == s.jobs[id := j] && ClientsKept(s, s') && s'.maxJobId == s.maxJobId && QueuesKept(s, s', j.tube)
  }

  // A released job is ready again, or delayed, with the given priority.
  lemma ReleaseOutcome(s: State, now: int, id: JobId, c: ClientId, pri: nat, delay: int)
    requires Keyed(s.jobs)
    ensures var (s', r) := ReleaseWith(s, now, id, c, pri, delay);
            && LeaveAnswer(s, id, c, r) && (r.Err? ==> s' == s)
            && (r.Ok? ==>
                  var j := s.jobs[id].(reservedBy := "", priority := pri, releases := Inc(s.jobs[id].releases));
                  if delay == 0 then Becomes(s, s', id, j.(state := Ready)) && s'.nextDelay == s.nextDelay
                  else && Becomes(s, s', id, j.(state := Delayed, delay := delay, readyAt := now + delay))
                       && s'.nextDelay == Lowered(s.nextDelay, now + delay))
  {
  }

  // A reservation that timed out: only the count of timeouts tells.
  lemma TimeoutOutcome(s: State, id: JobId, c: ClientId)
    requires Keyed(s.jobs)
    ensures var (s', r) := Release(s, id, c);
            && LeaveAnswer(s, id, c, r) && (r.Err? ==> s' == s)
            && (r.Ok? ==>
                  && Becomes(s, s', id, s.jobs[id].(state := Ready, reservedBy := "", timeouts := Inc(s.jobs[id].timeouts)))
                  && s'.nextDelay == s.nextDelay)
  {
  }

  lemma BuryOutcome(s: State, now: int, id: JobId, pri: nat, c: ClientId)
    requires Keyed(s.jobs)
    ensures var (s', r) := Bury(s, now, id, pri, c);
            && LeaveAnswer(s, id, c, r) && (r.Err? ==> s' == s)
            && (r.Ok? ==>
                  && Becomes(s, s', id, s.jobs[id].(state := Buried, reservedBy := "", priority := pri, buriedAt := now,
                                                    buries := Inc(s.jobs[id].buries)))
                  && s'.nextDelay == s.nextDelay)
  {
  }

  lemma KickOutcome(s: State, id: JobId)
    requires Keyed(s.jobs)
    ensures var (s', r) := Kick(s, id);
            && (r == Ok(()) <==> id in s.jobs && s.jobs[id].state == Buried)
            && (r == Err(EntryMissing) <==> id !in s.jobs)
            && (r == Err(InvalidJobTransition) <==> id in s.jobs && s.jobs[id].state != Buried)
            && (r.Err? ==> s' == s)
            && (r.Ok? ==>
                  && Becomes(s, s', id, s.jobs[id].(state := Ready, buriedAt := 0, kicks := Inc(s.jobs[id].kicks)))
                  && s'.nextDelay == s.nextDelay)
  {
  }

  // A touch starts the reservation again, in the name of the holder or in no
  // client's name; the timer of the client that is named, if it is the holder,
  // goes off in time for it.
  lemma TouchOutcome(s: State, now: int, id: JobId, c: ClientId)
    requires Inv(s) && ClockOk(now)
    ensures Keyed(s.jobs)
    ensures var (s', r) := Touch(s, now, id, c);
            && (r == Ok(()) <==> MayLeave(s, id, c) && c in s.clients)
            && (r == Err(EntryMissing) <==> id !in s.jobs || (MayLeave(s, id, c) && c !in s.clients))
            && (r == Err(InvalidOperation) <==> id in s.jobs && s.jobs[id].state != Reserved)
            && (r == Err(UnauthorizedOperation) <==>
                  id in s.jobs && s.jobs[id].state == Reserved && c != "" && s.jobs[id].reservedBy != c)
            && s'.jobs == (if MayLeave(s, id, c) then s.jobs[id := s.jobs[id].(expiresAt := now + s.jobs[id].ttr)] else s.jobs)
            && s'.tubes == s.tubes && s'.maxJobId == s.maxJobId && s'.nextDelay == s.nextDelay
            && (r.Err? ==> ClientsKept(s, s'))
            && (r.Ok? && s.jobs[id].reservedBy == c ==> Rescheduled(s, s', c, now + s.jobs[id].ttr))
  {
    InvKeyed(s, {});
    if MayLeave(s, id, c) && s.jobs[id].reservedBy == c {
      InvJob(s, id);
      var s1 := SetJob(s, s.jobs[id].UpdateReservation(now));
      assert id in Contents(s1, HeldBy(c));
      NextEventBound(s1, c);
    }
  }

  // Only the timer of client c is set, to a time no later than at.
  ghost predicate Rescheduled(s: State, s': State, c: ClientId, at: int) {
    && c in s.clients && c in s'.clients && s'.roster == s.roster && s'.timers == s.timers + {c}
    && s'.clients == s.clients[c := s.clients[c].(tickAt := s'.clients[c].tickAt)] && s'.clients[c].tickAt <= at
  }
}
