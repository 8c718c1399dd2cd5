/** Short runs from the empty machine that end where the code falls short. */
module Scenarios {
  import opened Types
  import opened Spec
  import opened Invariant
  import opened Ticks
  import opened Image
  import opened Records
  import opened Machine

  // A ready job with the given time to run.
  ghost function Puts(s: State, ttr: int, t: TubeName): (s': State)
    requires Inv(s) && 0 <= ttr <= MAX_U32
    ensures Inv(s')
  {
    PutInv(s, 0, 0, 0, ttr, 0, [], t);
    Put(s, 0, 0, 0, ttr, 0, [], t).0
  }

  // Client c asks for a job of tube t.
  ghost function Asks(s: State, c: ClientId, reqId: RequestId, t: TubeName): (s': State)
    requires Inv(s)
    ensures Inv(s')
  {
    AppendReservationInv(s, c, reqId, [t], 0, 10);
    AppendReservation(s, c, reqId, [t], 0, 10).0
  }

  // A request that finds no ready job is queued, last in the queue.
  lemma QueuesLast(s: State, c: ClientId, reqId: RequestId, t: TubeName)
    requires Inv(s) && Contents(s, InReady(t)) == {} && !(c in s.clients && s.clients[c].waiting)
    ensures var s' := Asks(s, c, reqId, t);
            && s'.jobs == s.jobs && s'.maxJobId == s.maxJobId && s'.nextDelay == s.nextDelay
            && t in s'.tubes && s'.tubes[t] == (if t in s.tubes then s.tubes[t] else []) + [c]
            && s'.roster == (if c in s.clients then s.roster else s.roster + [c])
            && s'.clients.Keys == s.clients.Keys + {c} && s'.clients[c].waiting && s'.clients[c].watched == [t]
            && (forall d :: d in s.clients && d != c ==> s'.clients[d] == s.clients[d])
  {
    hide InvBut, NextEvent;
    InvKeyed(s, {});
    var s1 := Enroll(s, c, reqId, [t], 10);
    FirstReadyHas(s1, [t]);
    assert Contents(s1, InReady(t)) == Contents(s, InReady(t));
    NextEventBound(s1, c);
  }

  // A request that finds one ready job gets it.
  lemma GetsOnly(s: State, c: ClientId, reqId: RequestId, t: TubeName, id: JobId)
    requires Inv(s) && Contents(s, InReady(t)) == {id} && c !in s.clients
    ensures var s' := Asks(s, c, reqId, t);
            && id in s.jobs && s'.jobs == s.jobs[id := ReservedJob(s.jobs[id], 0, c)]
            && s'.maxJobId == s.maxJobId && s'.nextDelay == s.nextDelay
            && s'.roster == s.roster + [c] && s'.clients.Keys == s.clients.Keys + {c} && !s'.clients[c].waiting
            && s'.tubes.Keys == s.tubes.Keys + {t}
  {
    hide InvBut;
    InvKeyed(s, {});
    InvJob(s, id);
    var s1 := Enroll(s, c, reqId, [t], 10);
    FirstReadyHas(s1, [t]);
    assert Contents(s1, InReady(t)) == {id};
    assert Next(s1, InReady(t)) == Some(id);
    KeepsHolder(s1, t, id, c);
  }

  lemma KeepsHolder(s1: State, t: TubeName, id: JobId, c: ClientId)
    requires Keyed(s1.jobs) && c in s1.clients && Next(s1, InReady(t)) == Some(id) && 0 <= s1.jobs[id].ttr <= MAX_U32
    ensures var s' := Match(s1, 0, t, c).0;
            && s'.jobs == s1.jobs[id := ReservedJob(s1.jobs[id], 0, c)] && s'.roster == s1.roster
            && s'.clients.Keys == s1.clients.Keys && !s'.clients[c].waiting && s'.tubes.Keys == s1.tubes.Keys
            && s'.maxJobId == s1.maxJobId && s'.nextDelay == s1.nextDelay
  {
    var m := Retire(SetJob(s1, ReservedJob(s1.jobs[id], 0, c)), c);
    assert id in Contents(m, HeldBy(c));
    NextEventBound(m, c);
  }

  // A fresh machine has noted no delay, so a tick does not scan the delayed
  // jobs it was given, whatever the time, until something else lowers the
  // time it has noted.
  lemma FreshReceiverForgetsDelay(now: int, delay: int)
    requires ClockOk(now) && 0 < delay <= MAX_U32
    ensures var s := Put(EMPTY, now, 0, delay, 1, 0, [], "t").0;
            var s' := Restored(Wire(s), EMPTY.nextDelay);
            && Inv(s) && !Inv(s') && 1 in s'.jobs && s'.jobs[1].state == Delayed && s'.jobs[1].readyAt == now + delay
            && forall t :: ClockOk(t) ==> t <= s'.nextDelay
  {
    var (s, id) := Put(EMPTY, now, 0, delay, 1, 0, [], "t");
    EmptyInv();
    PutInv(EMPTY, now, 0, delay, 1, 0, [], "t");
    StoreInv(s, MAX_TIME);
    WrappedKeeps(s.jobs[id]);
    assert s.jobs[id].state == Delayed && s.jobs[id].readyAt < MAX_TIME;
  }

  // Put, delete, restore, put: the second job gets the id of the first.
  lemma IdGivenTwice()
    ensures Inv(EMPTY)
    ensures var s1 := Puts(EMPTY, 1, "t");
            var s2 := Delete(s1, 1, "c").0;
            var s3 := Restored(Wire(s2), MAX_TIME);
            && Inv(s2) && Inv(s3) && Put(EMPTY, 0, 0, 0, 1, 0, [], "t").1 == 1 && Put(s3, 0, 0, 0, 1, 0, [], "t").1 == 1
  {
    EmptyInv();
    var s1 := Puts(EMPTY, 1, "t");
    DeleteInv(s1, 1, "c");
    var s2 := Delete(s1, 1, "c").0;
    assert s2.jobs == map[];
    StoreInv(s2, MAX_TIME);
  }

  // The machine after a first request, of client c for a job of tube t.
  function Waiting(): State {
    State(0, map[], map["t" := ["c"]], map["c" := Client(["t"], 10, true, 10, "r")], ["c"], {"c"}, MAX_TIME)
  }

  lemma FirstRequest()
    ensures Inv(EMPTY) && Asks(EMPTY, "c", "r", "t") == Waiting() && Inv(Waiting())
  {
    EmptyInv();
    var s1 := Enroll(EMPTY, "c", "r", ["t"], 10);
    FirstReadyHas(s1, ["t"]);
    assert Contents(s1, InReady("t")) == {} && Contents(s1, HeldBy("c")) == {};
  }

  // ... and after its deadline has passed: an idle tube, and a client without a
  // timer.
  function Idle(): State {
    State(0, map[], map["t" := []], map["c" := Client(["t"], MAX_TIME, false, MAX_TIME, "r")], ["c"], {}, MAX_TIME)
  }

  lemma RequestTimesOut()
    ensures Inv(Waiting()) && Tick(Waiting(), 11, ["t"]).0 == Idle()
  {
    FirstRequest();
    var s := Waiting();
    assert Contents(s, InReady("t")) == {};
    assert TickTube(s, 11, "t") == (s, []);
    assert ["t"][1..] == [] && TickReady(s, 11, []) == (s, []);
    assert TickReady(s, 11, ["t"]).0 == s;
    WokenIdle();
  }

  lemma TimeIsUp()
    ensures Served(Waiting(), 11, "c") == Idle().(clients := map["c" := Client(["t"], MAX_TIME, false, 10, "r")])
  {
    var s' := Served(Waiting(), 11, "c");
    assert s'.tubes == map["t" := []] && s'.jobs == map[];
  }

  lemma WakesIdle()
    ensures Wake(Waiting(), 11, "c").0 == Idle()
  {
    hide Served;
    TimeIsUp();
    assert Contents(Served(Waiting(), 11, "c"), HeldBy("c")) == {};
  }

  lemma WokenIdle()
    ensures Inv(Waiting()) && TickClients(Waiting(), 11).0 == Idle()
  {
    FirstRequest();
    hide InvBut, Wake;
    assert FirstTimer(Waiting()) == Some("c");
    WakesIdle();
    WakeInv(Waiting(), 11, "c");
    assert TickClients(Idle(), 11).0 == Idle();
  }

  // A restore forgets both.
  lemma IdleForgotten(at: int)
    ensures Inv(Waiting()) && Asks(EMPTY, "c", "r", "t") == Waiting() && Tick(Waiting(), 11, ["t"]).0 == Idle()
    ensures Restored(Idle(), at).tubes == map[] && Restored(Idle(), at).clients == map[]
  {
    hide InvBut, Tick, Asks, Restored;
    FirstRequest();
    RequestTimesOut();
    IdleRestored(at);
  }

  lemma IdleRestored(at: int)
    ensures Restored(Idle(), at).tubes == map[] && Restored(Idle(), at).clients == map[]
  {
  }

  // The job of a tube, reserved by a client, is buried.
  lemma BuriedOnly(s: State)
    requires Inv(s) && s == Asks(Puts(EMPTY, 1, "t"), "c", "r", "t")
    ensures var s' := Bury(s, 0, 1, 0, "c").0;
            s'.jobs.Keys == {1} && s'.jobs[1].state == Buried && s'.jobs[1].tube == "t" && Filed(s'.jobs, InBuried("t")) == {1}
  {
    hide Asks, InvBut;
    EmptyInv();
    var s1 := Puts(EMPTY, 1, "t");
    assert Contents(s1, InReady("t")) == {1};
    GetsOnly(s1, "c", "r", "t", 1);
  }

  // Put, reserve and bury a job.
  method BuryOne() returns (m: LocalJsm)
    ensures fresh(m) && fresh(m.Repr) && m.Valid()
    ensures m.jobs.Keys == {1} && m.jobs[1].state == Buried && m.jobs[1].tube == "t" && Filed(m.jobs, InBuried("t")) == {1}
  {
    hide LocalJsm.Base, LocalJsm.NoneIdle, LocalJsm.View, InvBut, Spec.Put, Spec.AppendReservation, Spec.Bury;
    EmptyInv();
    m := new LocalJsm();
    var p := m.Put(0, 0, 0, 1, 0, [], "t");
    assert m.View() == Puts(EMPTY, 1, "t");
    var q := m.AppendReservation("c", "r", ["t"], 0, 10);
    assert m.View() == Asks(Puts(EMPTY, 1, "t"), "c", "r", "t");
    BuriedOnly(m.View());
    var b := m.Bury(0, 1, 0, "c");
    m.BaseKeyed();
  }

  // After it is deleted, the job is still shown on top of the buried jobs, and
  // a kick of the tube fails, now and later.
  method DeletedStays() returns (m: LocalJsm, peeked: Result<JobId>, kicked: Result<int>)
    ensures fresh(m) && m.jobs == map[] && !m.Valid() && m.Stuck(InBuried("t"))
    ensures peeked == Ok(1) && kicked == Err(EntryMissing)
  {
    hide LocalJsm.Base, LocalJsm.NoneIdle, LocalJsm.View, Inv, Spec.Delete;
    m := BuryOne();
    m.EntryPlaced(1);
    m.HeapSize(InBuried("t"));
    m.HeapKnown(InBuried("t"), {});
    assert m.HeapAt(InBuried("t")) == m.tubes["t"].buried;
    var d := m.Delete(1, "c");
    assert m.jobs == map[];
    peeked := m.PeekTube(InBuried("t"));
    kicked := m.KickN("t", 1);
    m.NoLeftover("t", m.tubes["t"].buried.slots[0]);
  }

  // Put and reserve a job, and touch it in no client's name: the entry is filed
  // under a client that does not exist, and the caller gets an error.
  method TouchedAway() returns (m: LocalJsm, r: Result<()>)
    ensures fresh(m) && !m.Valid() && m.Misfiled(1, "") && 1 in m.jobs && m.jobs[1].reservedBy == "c"
    ensures r == Err(EntryMissing)
  {
    hide LocalJsm.Base, LocalJsm.NoneIdle, InvBut, Spec.Put, Spec.AppendReservation, Spec.Touch;
    EmptyInv();
    m := new LocalJsm();
    var p := m.Put(0, 0, 0, 1, 0, [], "t");
    assert m.View() == Puts(EMPTY, 1, "t");
    var q := m.AppendReservation("c", "r", ["t"], 0, 10);
    assert m.View() == Asks(Puts(EMPTY, 1, "t"), "c", "r", "t");
    ReservedOnly(m.View());
    m.BaseKeyed();
    r := m.Touch(0, 1, "");
    m.NotMisfiled(1, "");
  }

  lemma ReservedOnly(s: State)
    requires Inv(s) && s == Asks(Puts(EMPTY, 1, "t"), "c", "r", "t")
    ensures s.jobs.Keys == {1} && s.jobs[1].state == Reserved && s.jobs[1].reservedBy == "c" && s.clients.Keys == {"c"}
    ensures Keyed(s.jobs) && Touch(s, 0, 1, "").0.jobs.Keys == {1} && Touch(s, 0, 1, "").0.jobs[1].reservedBy == "c"
  {
    hide Asks, InvBut;
    EmptyInv();
    var s1 := Puts(EMPTY, 1, "t");
    assert Contents(s1, InReady("t")) == {1};
    GetsOnly(s1, "c", "r", "t", 1);
    InvKeyed(s, {});
  }

  // A job of tube u for client a, then b and a ask for a job of tube t: a has
  // come before b, but b waits before a.
  ghost function Overtaken(): State {
    EmptyInv();
    Asks(Asks(Asks(Puts(EMPTY, 5, "u"), "a", "r1", "u"), "b", "r2", "t"), "a", "r3", "t")
  }

  // The restore of this machine swaps two clients in a queue.
  lemma OvertakenSwapped(at: int)
    ensures var s := Overtaken();
            && Inv(s) && "t" in s.tubes && s.tubes["t"] == ["b", "a"]
            && "t" in Restored(s, at).tubes && Restored(s, at).tubes["t"] == ["a", "b"]
  {
    hide Asks, InvBut, Restored;
    EmptyInv();
    var s1 := Puts(EMPTY, 5, "u");
    assert Contents(s1, InReady("u")) == {1};
    GetsOnly(s1, "a", "r1", "u", 1);
    var s2 := Asks(s1, "a", "r1", "u");
    QueuesLast(s2, "b", "r2", "t");
    QueuesLast(Asks(s2, "b", "r2", "t"), "a", "r3", "t");
    QueueOrderLost(Overtaken(), at, "a", "b", "t");
  }

  // A client waits in the queue of tube t; the records of the store forget it.
  lemma WatcherLost(at: int)
    ensures Inv(EMPTY)
    ensures var s := Asks(EMPTY, "c", "r", "t");
            && "t" in s.tubes && s.tubes["t"] == ["c"]
            && "t" in Restored(s, at).tubes && Restored(s, at).tubes["t"] == ["c"]
            && Restored(Wire(s), at).tubes == map[] && Restored(Wire(s), at) != Restored(s, at)
  {
    hide InvBut, Asks, Restored, Wire;
    EmptyInv();
    var s := Asks(EMPTY, "c", "r", "t");
    QueuesLast(EMPTY, "c", "r", "t");
    OneTube(s, at);
    NoTubesLeft(s, at);
  }

  lemma NoTubesLeft(s: State, at: int)
    requires s.jobs == map[]
    ensures Restored(Wire(s), at).tubes == map[]
  {
    assert TubesOf(Wire(s).jobs) == {} && Watched(Kin(Wire(s))) == {};
  }

  lemma OneTube(s: State, at: int)
    requires Inv(s) && s.jobs == map[] && s.roster == ["c"] && s.clients.Keys == {"c"}
    requires s.clients["c"].waiting && s.clients["c"].watched == ["t"] && "t" in s.tubes && s.tubes["t"] == ["c"]
    ensures "t" in Restored(s, at).tubes && Restored(s, at).tubes["t"] == ["c"]
  {
    assert ClientInv(s, "c", {});
    RestoredWaiters(s, at, "t", "c");
    KeptAll(["c"], s.timers);
    KeptAll(["c"], Wanting(Kin(s), "t"));
  }

  // A time to run of 2^31 is legal, but comes back negative.
  lemma LongRunLost()
    ensures Inv(EMPTY)
    ensures var s := Puts(EMPTY, TWO_31, "t");
            && Inv(Restored(s, MAX_TIME)) && !Inv(Restored(Wire(s), MAX_TIME))
            && 1 in s.jobs && Wire(s).jobs[1].ttr == -TWO_31
  {
    hide InvBut;
    EmptyInv();
    var s := Puts(EMPTY, TWO_31, "t");
    InvKeyed(s, {});
    RestoredInv(s, MAX_TIME);
    StoreInv(s, MAX_TIME);
    JobRoundTrip(s.jobs[1]);
  }
}
