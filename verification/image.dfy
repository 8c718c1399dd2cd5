/** What a snapshot keeps of the machine and what a restore makes of it. */
module Image {
  import opened Types
  import opened Spec
  import opened Invariant
  import opened Ticks

  // ----- parts ------------------------------------------------------------

  // The members of cs that are in xs, in order.
  function Kept(cs: seq<ClientId>, xs: set<ClientId>): (r: seq<ClientId>)
    ensures forall c :: c in r <==> c in cs && c in xs
  {
    if cs == [] then []
    else
      var rest := cs[..|cs| - 1];
      assert forall c :: c in cs <==> c in rest || c == cs[|cs| - 1];
      Kept(rest, xs) + if cs[|cs| - 1] in xs then [cs[|cs| - 1]] else []
  }

  lemma {:induction false} KeptNoDup(cs: seq<ClientId>, xs: set<ClientId>)
    requires NoDup(cs)
    ensures NoDup(Kept(cs, xs))
  {
    if cs != [] {
      KeptNoDup(cs[..|cs| - 1], xs);
      assert cs[|cs| - 1] !in cs[..|cs| - 1];
    }
  }

  lemma {:induction false} KeptAll(cs: seq<ClientId>, xs: set<ClientId>)
    ensures Kept(cs, xs) == cs <==> forall c :: c in cs ==> c in xs
  {
    if cs != [] {
      var rest := cs[..|cs| - 1];
      KeptAll(rest, xs);
      assert cs == rest + [cs[|cs| - 1]];
      assert (forall c :: c in cs ==> c in xs) ==> forall c :: c in rest ==> c in xs;
    }
  }

  lemma KeptNone(cs: seq<ClientId>, xs: set<ClientId>)
    requires xs == {}
    ensures Kept(cs, xs) == []
  {
    assert Kept(cs, xs) != [] ==> Kept(cs, xs)[0] in Kept(cs, xs);
  }

  // The clients that wait for a job of tube t.
  function Wanting(clients: map<ClientId, Client>, t: TubeName): set<ClientId> {
    set c | c in clients && clients[c].waiting && t in clients[c].watched
  }

  function Watched(clients: map<ClientId, Client>): set<TubeName> {
    set c, t | c in clients && clients[c].waiting && t in clients[c].watched :: t
  }

  // The job belongs in a container of its tube.
  predicate InTube(j: Job) {
    j.state == Ready || j.state == Delayed || j.state == Buried
  }

  function TubesOf(jobs: map<JobId, Job>): set<TubeName> {
    set id | id in jobs && InTube(jobs[id]) :: jobs[id].tube
  }

  // The largest id, or 0.
  ghost function Largest(ids: set<JobId>): (m: JobId)
    ensures m == 0 || m in ids
    ensures forall id :: id in ids ==> id <= m
  {
    if ids == {} then 0
    else
      var id :| id in ids;
      var m := Largest(ids - {id});
      assert forall k :: k in ids ==> k == id || k in ids - {id};
      if id < m then m else id
  }

  // ----- the restored machine ---------------------------------------------

  function Kin(s: State): map<ClientId, Client> {
    map c | c in s.timers && c in s.clients :: s.clients[c]
  }

  // s, restored into a machine that had noted a delay until at: the queues
  // are in order of arrival of the clients, tubes that nobody uses are gone,
  // and so are the clients without a timer.
  ghost function Restored(s: State, at: int): State {
    var clients := Kin(s);
    var roster := Kept(s.roster, s.timers);
    State(Largest(s.jobs.Keys), s.jobs,
          map t | t in TubesOf(s.jobs) + Watched(clients) :: Kept(roster, Wanting(clients, t)),
          clients, roster, s.timers, at)
  }

  // No delayed job becomes ready before at.
  ghost predicate DelaysFrom(s: State, at: int) {
    forall id :: id in s.jobs && s.jobs[id].state == Delayed ==> at <= s.jobs[id].readyAt
  }

  lemma RestoredJob(s: State, at: int, id: JobId)
    requires Inv(s) && id in s.jobs && DelaysFrom(s, at)
    ensures JobInv(Restored(s, at), id, {})
  {
    assert JobInv(s, id, {});
    if s.jobs[id].state != Reserved { assert s.jobs[id].tube in TubesOf(s.jobs); }
  }

  // The queue of tube t holds the clients that wait and watch it.
  lemma RestoredQueue(s: State, at: int, t: TubeName)
    requires Inv(s) && t in Restored(s, at).tubes
    ensures forall c :: c in Restored(s, at).tubes[t] <==> c in Wanting(Kin(s), t)
  {
  }

  lemma RestoredClient(s: State, at: int, c: ClientId)
    requires Inv(s) && c in s.timers && c in s.clients
    ensures ClientInv(Restored(s, at), c, {})
  {
    assert ClientInv(s, c, {});
    var s' := Restored(s, at);
    if s.clients[c].waiting {
      forall t | t in s.clients[c].watched ensures t in s'.tubes && c in s'.tubes[t] {
        assert t in Watched(Kin(s));
        RestoredQueue(s, at, t);
      }
    }
  }

  // The restored machine satisfies the invariant exactly when the receiver had
  // noted a delay early enough for every delayed job.
  lemma RestoredInv(s: State, at: int)
    requires Inv(s) && at <= MAX_TIME
    ensures Inv(Restored(s, at)) <==> DelaysFrom(s, at)
  {
    var s' := Restored(s, at);
    if DelaysFrom(s, at) {
      forall id | id in s'.jobs ensures JobInv(s', id, {}) { RestoredJob(s, at, id); }
      forall c | c in s'.clients ensures ClientInv(s', c, {}) { RestoredClient(s, at, c); }
      KeptNoDup(s.roster, s.timers);
      forall t | t in s'.tubes ensures TubeInv(s', t) {
        KeptNoDup(s'.roster, Wanting(Kin(s), t));
      }
    } else {
      var id :| id in s.jobs && s.jobs[id].state == Delayed && s.jobs[id].readyAt < at;
      assert !JobInv(s', id, {});
    }
  }

  // Every queue keeps its clients; a tube that is gone had none.
  lemma RestoredWaiters(s: State, at: int, t: TubeName, c: ClientId)
    requires Inv(s)
    ensures t in s.tubes && c in s.tubes[t] <==> t in Restored(s, at).tubes && c in Restored(s, at).tubes[t]
    ensures t in Restored(s, at).tubes ==> t in s.tubes
  {
    if t in s.tubes && c in s.tubes[t] {
      assert TubeInv(s, t) && ClientInv(s, c, {});
      assert c in Kin(s) && Kin(s)[c].waiting && t in Kin(s)[c].watched;
      assert t in Watched(Kin(s));
      RestoredQueue(s, at, t);
    }
    if t in Restored(s, at).tubes {
      RestoredQueue(s, at, t);
      if t in TubesOf(s.jobs) {
        var id :| id in s.jobs && s.jobs[id].state != Reserved && s.jobs[id].tube == t;
        assert JobInv(s, id, {});
      } else {
        var d, u :| d in Kin(s) && Kin(s)[d].waiting && u in Kin(s)[d].watched && u == t;
        assert ClientInv(s, d, {});
      }
      if c in Restored(s, at).tubes[t] { assert ClientInv(s, c, {}); }
    }
  }

  // ----- when nothing is lost ---------------------------------------------

  // Every tube has a job or a waiting client.
  ghost predicate NoIdleTube(s: State) {
    forall t :: t in s.tubes ==> s.tubes[t] != [] || t in TubesOf(s.jobs)
  }

  // The queue of every tube is in order of arrival of the clients.
  ghost predicate InArrivalOrder(s: State) {
    forall t :: t in s.tubes ==> s.tubes[t] == Kept(s.roster, Wanting(s.clients, t))
  }

  // A restore gives back the very same machine exactly when the newest job is
  // still there, every client is on the timer heap, no tube is idle, every
  // queue is in order of arrival, and the receiver had noted the same delay.
  lemma RestoredExact(s: State, at: int)
    requires Inv(s)
    ensures Restored(s, at) == s <==>
              && (s.maxJobId == 0 || s.maxJobId in s.jobs)
              && s.clients.Keys == s.timers
              && NoIdleTube(s) && InArrivalOrder(s) && at == s.nextDelay
  {
    var s' := Restored(s, at);
    LargestIs(s);
    if s.clients.Keys == s.timers {
      assert s'.clients == s.clients;
      KeptAll(s.roster, s.timers);
      assert s'.roster == s.roster;
      RestoredTubes(s, at);
    }
  }

  lemma LargestIs(s: State)
    requires Inv(s)
    ensures Largest(s.jobs.Keys) <= s.maxJobId
    ensures Largest(s.jobs.Keys) == s.maxJobId <==> s.maxJobId == 0 || s.maxJobId in s.jobs
  {
    var m := Largest(s.jobs.Keys);
    forall id | id in s.jobs ensures 1 <= id <= s.maxJobId { assert JobInv(s, id, {}); }
  }

  lemma RestoredTubes(s: State, at: int)
    requires Inv(s) && Restored(s, at).clients == s.clients && Restored(s, at).roster == s.roster
    ensures Restored(s, at).tubes == s.tubes <==> NoIdleTube(s) && InArrivalOrder(s)
  {
    var s' := Restored(s, at);
    forall t | t in s'.tubes ensures t in s.tubes { RestoredWaiters(s, at, t, ""); }
    forall t | t in s.tubes ensures t in s'.tubes <==> s.tubes[t] != [] || t in TubesOf(s.jobs) {
      if s.tubes[t] != [] {
        assert s.tubes[t][0] in s.tubes[t];
        RestoredWaiters(s, at, t, s.tubes[t][0]);
      }
      if t in s'.tubes && t !in TubesOf(s.jobs) {
        var c, u :| c in Kin(s) && Kin(s)[c].waiting && u in Kin(s)[c].watched && u == t;
        RestoredQueue(s, at, t);
        RestoredWaiters(s, at, t, c);
      }
    }
  }

  // The id of the next job is the same after a restore exactly when the newest
  // job is still there; otherwise an id that was in use comes back.
  lemma NextIdAgain(s: State, at: int)
    requires Inv(s)
    ensures Largest(s.jobs.Keys) + 1 !in s.jobs
    ensures Restored(s, at).maxJobId + 1 == s.maxJobId + 1 <==> s.maxJobId == 0 || s.maxJobId in s.jobs
    ensures s.maxJobId != 0 && s.maxJobId !in s.jobs ==> 1 <= Restored(s, at).maxJobId + 1 <= s.maxJobId
  {
    LargestIs(s);
  }

  // Two clients in a queue, the later one first: a restore swaps them.
  lemma QueueOrderLost(s: State, at: int, a: ClientId, b: ClientId, t: TubeName)
    requires Inv(s) && s.roster == [a, b] && t in s.tubes && s.tubes[t] == [b, a]
    ensures t in Restored(s, at).tubes && Restored(s, at).tubes[t] == [a, b]
  {
    assert TubeInv(s, t) && a in s.tubes[t] && b in s.tubes[t];
    assert ClientInv(s, a, {}) && ClientInv(s, b, {});
    RestoredWaiters(s, at, t, a);
    assert Kept(s.roster, s.timers) == [a, b] by { KeptAll(s.roster, s.timers); }
    KeptAll([a, b], Wanting(Kin(s), t));
  }

  // ----- what is written to a snapshot ------------------------------------

  // An entry of the client index, with its position on the timer heap.
  datatype Entry = Entry(id: ClientId, client: Client, heapIndex: int)

  // The entries of the clients cs that are on the timer heap, where index has
  // their positions.
  function EntriesOf(cs: seq<ClientId>, clients: map<ClientId, Client>, index: map<ClientId, int>): seq<Entry>
    requires forall c :: c in cs ==> c in clients
  {
    if cs == [] then []
    else
      var c := cs[|cs| - 1];
      EntriesOf(cs[..|cs| - 1], clients, index)
      + if c in index && index[c] >= 0 then [Entry(c, clients[c], index[c])] else []
  }

  function Ids(es: seq<Entry>): seq<ClientId> {
    seq(|es|, i requires 0 <= i < |es| => es[i].id)
  }

  // The jobs of a list, by id.
  function MapOf(js: seq<Job>): map<JobId, Job> {
    if js == [] then map[] else MapOf(js[..|js| - 1])[js[|js| - 1].id := js[|js| - 1]]
  }

  // ----- what a restore makes of it ---------------------------------------

  function ClientsOf(es: seq<Entry>): map<ClientId, Client> {
    if es == [] then map[] else ClientsOf(es[..|es| - 1])[es[|es| - 1].id := es[|es| - 1].client]
  }

  // The clients join the queues one after the other.
  function QueuesOf(es: seq<Entry>): map<TubeName, seq<ClientId>> {
    if es == [] then map[]
    else
      var e := es[|es| - 1];
      var q := QueuesOf(es[..|es| - 1]);
      if e.client.waiting then Enqueue(q, e.client.watched, e.id) else q
  }

  // The clients of es in a machine without jobs.
  function Staged(es: seq<Entry>): State {
    State(0, map[], QueuesOf(es), ClientsOf(es), Ids(es), (set c | c in Ids(es)), MAX_TIME)
  }

  // ... with the given jobs.
  ghost function Filled(s: State, jobs: map<JobId, Job>): State {
    s.(maxJobId := Largest(jobs.Keys), jobs := jobs,
       tubes := map t | t in s.tubes.Keys + TubesOf(jobs) :: if t in s.tubes then s.tubes[t] else [])
  }

  // One more job.
  function AddJob(s: State, j: Job): State {
    var s1 := s.(maxJobId := if j.id > s.maxJobId then j.id else s.maxJobId);
    if InTube(j) then SetTubeJob(s1, j) else SetJob(s1, j)
  }

  lemma LargestUnique(ids: set<JobId>, m: JobId)
    requires (m == 0 || m in ids) && forall id :: id in ids ==> id <= m
    ensures Largest(ids) == m
  {
  }

  lemma TubesOfOneMore(jobs: map<JobId, Job>, j: Job)
    requires j.id !in jobs
    ensures TubesOf(jobs[j.id := j]) == TubesOf(jobs) + if InTube(j) then {j.tube} else {}
  {
    var jobs' := jobs[j.id := j];
    forall t | t in TubesOf(jobs) ensures t in TubesOf(jobs') {
      var id :| id in jobs && InTube(jobs[id]) && jobs[id].tube == t;
      assert jobs'[id] == jobs[id];
    }
    assert jobs'[j.id] == j;
  }

  lemma FilledOneMore(s: State, jobs: map<JobId, Job>, j: Job)
    requires j.id !in jobs
    ensures AddJob(Filled(s, jobs), j) == Filled(s, jobs[j.id := j])
  {
    hide TubesOf;
    TubesOfOneMore(jobs, j);
    var s' := AddJob(Filled(s, jobs), j);
    LargestUnique(jobs[j.id := j].Keys, s'.maxJobId);
    assert s'.tubes == Filled(s, jobs[j.id := j]).tubes;
  }

  lemma {:induction false} KeptSame(cs: seq<ClientId>, xs: set<ClientId>, ys: set<ClientId>)
    requires forall c :: c in cs ==> (c in xs <==> c in ys)
    ensures Kept(cs, xs) == Kept(cs, ys)
  {
    if cs != [] { KeptSame(cs[..|cs| - 1], xs, ys); }
  }

  lemma {:induction false} ClientsOfKeys(es: seq<Entry>)
    ensures forall c :: c in ClientsOf(es) <==> c in Ids(es)
  {
    if es != [] {
      var rest := es[..|es| - 1];
      ClientsOfKeys(rest);
      assert Ids(es) == Ids(rest) + [es[|es| - 1].id];
    }
  }

  // Whoever joined the queue of a tube is there in order of arrival.
  lemma {:induction false} QueuesAre(es: seq<Entry>)
    requires NoDup(Ids(es))
    ensures QueuesOf(es) ==
            map t | t in Watched(ClientsOf(es)) :: Kept(Ids(es), Wanting(ClientsOf(es), t))
  {
    if es != [] {
      var rest := es[..|es| - 1];
      var e := es[|es| - 1];
      assert Ids(es) == Ids(rest) + [e.id];
      assert Ids(es)[|rest|] == e.id && forall i :: 0 <= i < |rest| ==> Ids(rest)[i] == Ids(es)[i];
      assert NoDup(Ids(rest)) && e.id !in Ids(rest);
      QueuesAre(rest);
      ClientsOfKeys(rest);
      forall t ensures JoinsQueue(es, t) { QueueOneMore(es, t); }
      QueuesJoin(es);
    }
  }

  ghost predicate JoinsQueue(es: seq<Entry>, t: TubeName)
    requires es != []
  {
    var rest := es[..|es| - 1];
    var e := es[|es| - 1];
    var joins := e.client.waiting && t in e.client.watched;
    && (t in Watched(ClientsOf(es)) <==> t in Watched(ClientsOf(rest)) || joins)
    && (t !in Watched(ClientsOf(rest)) ==> Kept(Ids(rest), Wanting(ClientsOf(rest), t)) == [])
    && Kept(Ids(es), Wanting(ClientsOf(es), t))
       == Kept(Ids(rest), Wanting(ClientsOf(rest), t)) + if joins then [e.id] else []
  }

  lemma QueueOneMore(es: seq<Entry>, t: TubeName)
    requires es != [] && es[|es| - 1].id !in ClientsOf(es[..|es| - 1])
    requires Ids(es) == Ids(es[..|es| - 1]) + [es[|es| - 1].id] && es[|es| - 1].id !in Ids(es[..|es| - 1])
    ensures JoinsQueue(es, t)
  {
    var rest := es[..|es| - 1];
    var e := es[|es| - 1];
    var was, now := ClientsOf(rest), ClientsOf(es);
    assert now == was[e.id := e.client];
    if t in Watched(now) {
      var c, u :| c in now && now[c].waiting && u in now[c].watched && u == t;
      assert c != e.id ==> c in was && was[c] == now[c];
    }
    if t in Watched(was) {
      var c, u :| c in was && was[c].waiting && u in was[c].watched && u == t;
      assert now[c] == was[c];
    }
    if e.client.waiting && t in e.client.watched { assert e.id in now && now[e.id] == e.client; }
    assert Ids(es)[..|Ids(es)| - 1] == Ids(rest);
    KeptSame(Ids(rest), Wanting(now, t), Wanting(was, t));
    if t !in Watched(was) { KeptNone(Ids(rest), Wanting(was, t)); }
  }

  lemma QueuesJoin(es: seq<Entry>)
    requires es != []
    requires var rest := es[..|es| - 1];
             QueuesOf(rest) == map t | t in Watched(ClientsOf(rest)) :: Kept(Ids(rest), Wanting(ClientsOf(rest), t))
    requires forall t :: JoinsQueue(es, t)
    ensures QueuesOf(es) ==
            map t | t in Watched(ClientsOf(es)) :: Kept(Ids(es), Wanting(ClientsOf(es), t))
  {
    hide Kept, Watched, Wanting, ClientsOf, Ids;
    var q := map t | t in Watched(ClientsOf(es)) :: Kept(Ids(es), Wanting(ClientsOf(es), t));
    forall t ensures t in QueuesOf(es) <==> t in q { assert JoinsQueue(es, t); }
    forall t | t in q ensures QueuesOf(es)[t] == q[t] { assert JoinsQueue(es, t); }
  }

  // index has the positions of exactly the clients in xs.
  ghost predicate Positions(index: map<ClientId, int>, xs: set<ClientId>) {
    forall c :: c in xs <==> c in index && index[c] >= 0
  }

  predicate Copied(e: Entry, clients: map<ClientId, Client>, index: map<ClientId, int>) {
    e.id in clients && e.client == clients[e.id] && e.id in index && e.heapIndex == index[e.id]
  }

  lemma {:induction false} EntriesCopied(cs: seq<ClientId>, clients: map<ClientId, Client>, index: map<ClientId, int>, i: int)
    requires (forall c :: c in cs ==> c in clients) && 0 <= i < |EntriesOf(cs, clients, index)|
    ensures Copied(EntriesOf(cs, clients, index)[i], clients, index)
    decreases |cs|
  {
    if i < |EntriesOf(cs[..|cs| - 1], clients, index)| {
      EntriesCopied(cs[..|cs| - 1], clients, index, i);
    }
  }

  lemma {:induction false} EntriesIds(cs: seq<ClientId>, clients: map<ClientId, Client>, index: map<ClientId, int>, xs: set<ClientId>)
    requires (forall c :: c in cs ==> c in clients) && Positions(index, xs)
    ensures Ids(EntriesOf(cs, clients, index)) == Kept(cs, xs)
    decreases |cs|
  {
    if cs != [] {
      var rest := EntriesOf(cs[..|cs| - 1], clients, index);
      EntriesIds(cs[..|cs| - 1], clients, index, xs);
      var c := cs[|cs| - 1];
      if c in xs {
        assert Ids(rest + [Entry(c, clients[c], index[c])]) == Ids(rest) + [c];
      }
    }
  }

  lemma {:induction false} ClientsAre(es: seq<Entry>, clients: map<ClientId, Client>, index: map<ClientId, int>)
    requires forall i :: 0 <= i < |es| ==> Copied(es[i], clients, index)
    ensures ClientsOf(es).Keys <= clients.Keys && forall c :: c in ClientsOf(es) ==> ClientsOf(es)[c] == clients[c]
    decreases |es|
  {
    if es != [] { ClientsAre(es[..|es| - 1], clients, index); }
  }

  // The entries of a machine carry its clients on the timer heap.
  lemma EntriesFacts(s: State, index: map<ClientId, int>)
    requires (forall c :: c in s.roster <==> c in s.clients) && s.timers <= s.clients.Keys && Positions(index, s.timers)
    ensures var es := EntriesOf(s.roster, s.clients, index);
            && Ids(es) == Kept(s.roster, s.timers) && ClientsOf(es) == Kin(s)
            && forall i :: 0 <= i < |es| ==> Copied(es[i], s.clients, index)
  {
    var es := EntriesOf(s.roster, s.clients, index);
    EntriesIds(s.roster, s.clients, index, s.timers);
    forall i | 0 <= i < |es| ensures Copied(es[i], s.clients, index) { EntriesCopied(s.roster, s.clients, index, i); }
    ClientsAre(es, s.clients, index);
    ClientsOfKeys(es);
    assert forall c :: c in ClientsOf(es) <==> c in Kin(s);
  }

  // Restoring the entries and the jobs of a machine gives Restored.
  lemma StagedIsRestored(s: State, es: seq<Entry>, at: int)
    requires NoDup(s.roster) && (forall c :: c in s.roster <==> c in s.clients) && s.timers <= s.clients.Keys
    requires Ids(es) == Kept(s.roster, s.timers) && ClientsOf(es) == Kin(s)
    ensures Filled(Staged(es), s.jobs).(nextDelay := at) == Restored(s, at)
  {
    hide Watched, Wanting, TubesOf, Ids, ClientsOf, Kin, Kept, QueuesOf;
    KeptNoDup(s.roster, s.timers);
    StagedTimers(s, es);
    var tubes, tubes' := Filled(Staged(es), s.jobs).tubes, Restored(s, at).tubes;
    StagedTubes(s, es);
    forall t | t in tubes ensures tubes[t] == tubes'[t] {
      StagedTube(s, es, t);
    }
    assert tubes == tubes';
  }

  lemma StagedTimers(s: State, es: seq<Entry>)
    requires (forall c :: c in s.roster <==> c in s.clients) && s.timers <= s.clients.Keys
    requires Ids(es) == Kept(s.roster, s.timers)
    ensures (set c | c in Ids(es)) == s.timers
  {
  }

  lemma StagedTubes(s: State, es: seq<Entry>)
    requires NoDup(Ids(es)) && ClientsOf(es) == Kin(s)
    ensures QueuesOf(es).Keys == Watched(Kin(s))
  {
    hide Watched, Wanting, Ids, Kin, Kept, ClientsOf;
    QueuesAre(es);
  }

  lemma StagedTube(s: State, es: seq<Entry>, t: TubeName)
    requires NoDup(Ids(es)) && ClientsOf(es) == Kin(s)
    ensures Kept(Ids(es), Wanting(Kin(s), t)) == if t in QueuesOf(es) then QueuesOf(es)[t] else []
  {
    hide Watched, Wanting, Ids, Kin, ClientsOf;
    QueuesAre(es);
    if t !in Watched(Kin(s)) { NobodyWants(Kin(s), t); KeptNone(Ids(es), Wanting(Kin(s), t)); }
  }

  lemma NobodyWants(clients: map<ClientId, Client>, t: TubeName)
    requires t !in Watched(clients)
    ensures Wanting(clients, t) == {}
  {
    forall c | c in clients && clients[c].waiting ensures t !in clients[c].watched {
      assert t in clients[c].watched ==> t in Watched(clients);
    }
  }
}
