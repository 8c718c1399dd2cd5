/** Saving the machine and filling another one from what was saved. */
module Snapshot {
  import opened Types
  import opened Spec
  import opened Invariant
  import opened Image
  import opened Heap
  import opened Queue
  import opened Machine

  // js lists the jobs, each once.
  ghost predicate Lists(js: seq<Job>, jobs: map<JobId, Job>) {
    DistinctIds(js) && MapOf(js) == jobs
  }

  ghost predicate DistinctIds(js: seq<Job>) {
    forall i, j :: 0 <= i < j < |js| ==> js[i].id != js[j].id
  }

  lemma {:induction false} MapOfKeys(js: seq<Job>)
    ensures forall id :: id in MapOf(js) <==> exists i :: 0 <= i < |js| && js[i].id == id
    decreases |js|
  {
    if js != [] {
      var rest := js[..|js| - 1];
      MapOfKeys(rest);
      forall id | exists i :: 0 <= i < |js| && js[i].id == id ensures id in MapOf(js) {
        var i :| 0 <= i < |js| && js[i].id == id;
        assert i < |rest| ==> rest[i].id == id;
      }
      forall id | id in MapOf(js) ensures exists i :: 0 <= i < |js| && js[i].id == id {
        if id in MapOf(rest) {
          var i :| 0 <= i < |rest| && rest[i].id == id;
          assert js[i].id == id;
        } else {
          assert js[|js| - 1].id == id;
        }
      }
    }
  }

  // ----- saving -----------------------------------------------------------

  // The jobs of the index, in whatever order the map is ranged over.
  method SnapshotJobs(m: LocalJsm) returns (js: seq<Job>)
    requires Keyed(m.jobs)
    ensures Lists(js, m.jobs)
  {
    js := [];
    var todo := m.jobs.Keys;
    while todo != {}
      invariant todo <= m.jobs.Keys
      invariant DistinctIds(js) && MapOf(js) == m.jobs - todo
      decreases todo
    {
      var id :| id in todo;
      MapOfKeys(js);
      assert (js + [m.jobs[id]])[..|js|] == js;
      js := js + [m.jobs[id]];
      todo := todo - {id};
    }
  }

  // The entries of the clients on the timer heap, in order of arrival.
  method SnapshotClients(m: LocalJsm) returns (es: seq<Entry>)
    requires forall c :: c in m.roster.l ==> c in m.clients
    ensures es == EntriesOf(m.roster.l, m.clients, m.clientHeap.index)
  {
    es := [];
    var l := m.roster.l;
    for i := 0 to |l|
      invariant es == EntriesOf(l[..i], m.clients, m.clientHeap.index)
    {
      assert l[..i + 1][..i] == l[..i] && l[i] in l;
      if m.OnTimer(l[i]) {
        es := es + [Entry(l[i], m.clients[l[i]], m.clientHeap.index[l[i]])];
      }
    }
    assert l[..|l|] == l;
  }

  // ----- restoring --------------------------------------------------------

  // A job that is in no container enters the index alone.
  method RestoreJob(l: LocalJsm, j: Job) returns (r: Result<()>)
    requires l.Base({}) && l.NoneIdle()
    modifies l, l.Repr
    ensures l.Base({}) && l.NoneIdle() && fresh(l.Repr - old(l.Repr))
    ensures l.clientHeap == old(l.clientHeap) && unchanged(l.clientHeap)
    ensures r == if j.id in old(l.jobs) then Err(EntryExists) else Ok(())
    ensures l.View() == if r.Ok? then AddJob(old(l.View()), j) else old(l.View())
  {
    hide LocalJsm.Base, LocalJsm.BaseAt, LocalJsm.NoneIdle;
    if j.id in l.jobs {
      return Err(EntryExists);
    }
    l.Apart({});
    NoteId(l, j.id);
    l.NotYet(j.id);
    if j.Place().Nowhere? {
      l.Write(j);
      l.BelongsNowhere(j.id);
    } else if j.state == Reserved {
      l.Write(j);
      var k := l.EnqueueReserved(j.reservedBy, j.id);
      l.StoreEntry(j.id, k);
    } else {
      l.Settle(j);
    }
    r := Ok(());
  }

  method NoteId(l: LocalJsm, id: JobId)
    requires l.Base({}) && l.NoneIdle()
    modifies l`maxJobId
    ensures l.Base({}) && l.NoneIdle()
    ensures l.View() == old(l.View()).(maxJobId := if id > old(l.maxJobId) then id else old(l.maxJobId))
  {
    if id > l.maxJobId {
      l.maxJobId := id;
    }
  }

  // Give the jobs to a machine that has none.
  method RestoreJobs(l: LocalJsm, js: seq<Job>) returns (r: Result<()>)
    requires l.Base({}) && l.NoneIdle() && l.View().jobs == map[] && l.View().maxJobId == 0
    modifies l, l.Repr
    ensures l.Base({}) && l.NoneIdle() && fresh(l.Repr - old(l.Repr))
    ensures l.clientHeap == old(l.clientHeap) && unchanged(l.clientHeap)
    ensures r == if DistinctIds(js) then Ok(()) else Err(EntryExists)
    ensures r.Ok? ==> l.View() == Filled(old(l.View()), MapOf(js))
  {
    hide LocalJsm.Base, LocalJsm.NoneIdle, LocalJsm.View, Filled;
    ghost var s := l.View();
    FilledNone(s);
    for i := 0 to |js|
      invariant l.Base({}) && l.NoneIdle() && fresh(l.Repr - old(l.Repr))
      invariant l.clientHeap == old(l.clientHeap) && unchanged(l.clientHeap)
      invariant DistinctIds(js[..i]) && l.View() == Filled(s, MapOf(js[..i]))
    {
      assert js[..i + 1][..i] == js[..i];
      MapOfKeys(js[..i]);
      l.BaseKeyed();
      FilledJobs(s, MapOf(js[..i]));
      r := RestoreJob(l, js[i]);
      if r.Err? {
        var k :| 0 <= k < i && js[..i][k].id == js[i].id;
        assert js[k].id == js[i].id;
        return;
      }
      FilledOneMore(s, MapOf(js[..i]), js[i]);
    }
    assert js[..|js|] == js;
    r := Ok(());
  }

  lemma FilledJobs(s: State, jobs: map<JobId, Job>)
    ensures Filled(s, jobs).jobs == jobs
  {
  }

  lemma FilledNone(s: State)
    requires s.jobs == map[] && s.maxJobId == 0
    ensures Filled(s, MapOf([])) == s
  {
    assert Filled(s, map[]).tubes == s.tubes;
  }

  // es are the entries of the clients of a timer heap with the given slots.
  ghost predicate Intact(es: seq<Entry>, slots: seq<ClientId>) {
    && NoDup(Ids(es)) && NoDup(slots) && |slots| == |es|
    && (forall i :: 0 <= i < |es| ==>
          && 0 <= es[i].heapIndex < |slots| && slots[es[i].heapIndex] == es[i].id
          && (es[i].client.waiting ==> NoDup(es[i].client.watched)))
    && (forall k :: 0 <= k < |slots| ==> slots[k] in Ids(es))
  }

  // Enter a client into the index.
  method Admit(l: LocalJsm, e: Entry) returns (r: Result<()>)
    requires l.Base({}) && l.NoneIdle() && l.clientHeap.slots == []
    modifies l`clients, l`roster
    ensures l.Base({}) && l.NoneIdle()
    ensures r == if e.id in old(l.roster.l) then Err(EntryExists) else Ok(())
    ensures l.View() == if r.Err? then old(l.View())
                        else old(l.View()).(clients := old(l.clients)[e.id := e.client], roster := old(l.roster.l) + [e.id])
  {
    var q := l.roster.Enqueue(e.id);
    if q.Err? {
      return Err(EntryExists);
    }
    l.roster := q.value;
    l.clients := l.clients[e.id := e.client];
    r := Ok(());
  }

  method RestoreClient(l: LocalJsm, e: Entry) returns (r: Result<()>)
    requires l.Base({}) && l.NoneIdle() && l.clientHeap.slots == []
    requires e.client.waiting ==> NoDup(e.client.watched)
    requires forall t, c :: t in l.Waiters() && c in l.Waiters()[t] ==> c in l.roster.l
    modifies l, l.Repr
    ensures l.Base({}) && l.NoneIdle() && fresh(l.Repr - old(l.Repr)) && old(l.Repr) <= l.Repr
    ensures l.clientHeap == old(l.clientHeap) && l.clientHeap.slots == []
    ensures r == if e.heapIndex < 0 then Err(InvalidIndex)
                 else if e.id in old(l.roster.l) then Err(EntryExists) else Ok(())
    ensures var s := old(l.View());
            l.View() == if r.Err? then s
                        else s.(clients := s.clients[e.id := e.client], roster := s.roster + [e.id],
                                tubes := if e.client.waiting then Enqueue(s.tubes, e.client.watched, e.id) else s.tubes)
  {
    if e.heapIndex < 0 {
      return Err(InvalidIndex);
    }
    r := Admit(l, e);
    if r.Err? {
      return;
    }
    if e.client.waiting {
      l.WaitOn(e.client.watched, e.id);
    }
  }

  // The clients of es, none of them on the timer heap yet.
  function Admitted(es: seq<Entry>): State {
    Staged(es).(timers := {})
  }

  lemma AdmittedNone()
    ensures Admitted([]) == EMPTY
  {
  }

  lemma AdmittedOneMore(es: seq<Entry>, i: int)
    requires 0 <= i < |es| && NoDup(Ids(es))
    ensures es[i].id !in Admitted(es[..i]).roster
    ensures forall t, c :: t in Admitted(es[..i]).tubes && c in Admitted(es[..i]).tubes[t] ==> c in Admitted(es[..i]).roster
    ensures var s := Admitted(es[..i]);
            Admitted(es[..i + 1]) ==
            s.(clients := s.clients[es[i].id := es[i].client], roster := s.roster + [es[i].id],
               tubes := if es[i].client.waiting then Enqueue(s.tubes, es[i].client.watched, es[i].id) else s.tubes)
  {
    assert es[..i + 1][..i] == es[..i];
    assert forall k :: 0 <= k < i ==> Ids(es[..i])[k] == Ids(es)[k];
    assert Ids(es)[i] == es[i].id;
    QueuesAre(es[..i]);
    assert Ids(es[..i + 1]) == Ids(es[..i]) + [es[i].id];
  }

  // Put the clients on the timer heap, in the slots they had.
  method LoadTimers(l: LocalJsm, slots: seq<ClientId>)
    requires l.Base({}) && l.NoneIdle() && NoDup(slots) && forall c :: c in slots ==> c in l.clients
    modifies l.clientHeap
    ensures l.Base({}) && l.NoneIdle() && l.View() == old(l.View()).(timers := set c | c in slots)
    ensures Ordered(slots, ClientLess(l.clients)) ==> l.clientHeap.slots == slots
  {
    l.clientHeap.Load(slots);
    ClientLessTotal(l.clients);
    l.clientHeap.Within(ClientLess(l.clients), l.clients.Keys);
    l.clientHeap.Init(ClientLess(l.clients), l.clients.Keys);
  }

  // The positions are a permutation, so every slot was filled once.
  lemma SlotsFilled(es: seq<Entry>, saved: seq<ClientId>, slots: seq<ClientId>)
    requires Intact(es, saved) && |slots| == |es|
    requires forall k :: 0 <= k < |es| ==> slots[es[k].heapIndex] == es[k].id
    ensures slots == saved
  {
    forall k | 0 <= k < |saved| ensures slots[k] == saved[k] {
      var i :| 0 <= i < |es| && Ids(es)[i] == saved[k];
      assert saved[es[i].heapIndex] == saved[k];
    }
  }

  // Give the clients to an empty machine; every slot of the heap is filled.
  method RestoreClients(l: LocalJsm, es: seq<Entry>, ghost saved: seq<ClientId>)
    requires l.Base({}) && l.NoneIdle() && l.clientHeap.slots == [] && l.View() == EMPTY && Intact(es, saved)
    modifies l, l.Repr
    ensures l.Base({}) && l.NoneIdle() && fresh(l.Repr - old(l.Repr)) && l.View() == Staged(es)
    ensures Ordered(saved, ClientLess(ClientsOf(es))) ==> l.clientHeap.slots == saved
  {
    hide LocalJsm.Base, LocalJsm.NoneIdle, Admitted, QueuesOf, ClientsOf;
    var slots: seq<ClientId> := seq(|es|, _ => "");
    AdmittedNone();
    for i := 0 to |es|
      invariant l.Base({}) && l.NoneIdle() && fresh(l.Repr - old(l.Repr)) && old(l.Repr) <= l.Repr
      invariant l.clientHeap == old(l.clientHeap) && l.clientHeap.slots == []
      invariant l.View() == Admitted(es[..i])
      invariant |slots| == |es| && forall k :: 0 <= k < i ==> slots[es[k].heapIndex] == es[k].id
    {
      AdmittedOneMore(es, i);
      var e := RestoreClient(l, es[i]);
      if e.Err? {
        assert false;
      }
      assert forall k :: 0 <= k < i && es[k].heapIndex == es[i].heapIndex ==> es[k].id == es[i].id;
      slots := slots[es[i].heapIndex := es[i].id];
    }
    assert es[..|es|] == es;
    SlotsFilled(es, saved, slots);
    AllAdmitted(es, saved);
    l.TimersOwned();
    LoadTimers(l, slots);
  }

  lemma AllAdmitted(es: seq<Entry>, saved: seq<ClientId>)
    requires Intact(es, saved)
    ensures Admitted(es).clients == ClientsOf(es) && (forall c :: c in saved ==> c in ClientsOf(es))
    ensures Admitted(es).(timers := set c | c in saved) == Staged(es)
  {
    ClientsOfKeys(es);
    forall c | c in Ids(es) ensures c in saved {
      var i :| 0 <= i < |es| && Ids(es)[i] == c;
      assert saved[es[i].heapIndex] == c;
    }
    assert (set c | c in saved) == set c | c in Ids(es);
  }

  // r has the containers of l.
  ghost predicate SameParts(r: LocalJsm, l: LocalJsm)
    reads r, l
  {
    && r.jobs == l.jobs && r.entry == l.entry && r.owner == l.owner && r.nextToken == l.nextToken && r.tubes == l.tubes && r.reserved == l.reserved
    && r.clientHeap == l.clientHeap && r.clients == l.clients && r.roster == l.roster && r.Repr == l.Repr
  }

  lemma SameWired(r: LocalJsm, l: LocalJsm)
    requires SameParts(r, l) && l.Wired() && r !in l.Repr
    ensures r.Wired()
  {
    forall p | r.Has(p) ensures r.HeapAt(p) in r.Repr && r.HeapAt(p).home == p {
      assert r.HeapAt(p) == l.HeapAt(p);
    }
  }

  lemma SameSorted(r: LocalJsm, l: LocalJsm)
    requires SameParts(r, l) && l.Sorted(l.entry, {})
    ensures r.Sorted(r.entry, {})
  {
    forall p | r.Has(p) ensures r.HeapOk(r.HeapAt(p), p, r.entry, {}) {
      assert r.HeapAt(p) == l.HeapAt(p) && l.HeapOk(l.HeapAt(p), p, l.entry, {});
    }
  }

  lemma SameMachine(r: LocalJsm, l: LocalJsm)
    requires SameParts(r, l) && r !in l.Repr && l.Base({}) && l.NoneIdle()
    ensures r.Base({}) && r.NoneIdle()
    ensures r.View() == l.View().(maxJobId := r.maxJobId, nextDelay := r.nextDelayTickAt)
  {
    hide LocalJsm.Wired, LocalJsm.Sorted;
    SameWired(r, l);
    SameSorted(r, l);
  }

  method TakeParts(r: LocalJsm, l: LocalJsm)
    requires r != l
    modifies r
    ensures SameParts(r, l) && r.maxJobId == l.maxJobId && r.nextDelayTickAt == old(r.nextDelayTickAt)
  {
    r.maxJobId, r.jobs, r.tubes, r.reserved := l.maxJobId, l.jobs, l.tubes, l.reserved;
    r.clientHeap, r.clients, r.roster := l.clientHeap, l.clients, l.roster;
    r.entry, r.owner, r.nextToken, r.left := l.entry, l.owner, l.nextToken, l.left;
    r.Repr := l.Repr;
  }

  // The receiver takes over everything but the time of the next delay.
  method FinalizeRestore(r: LocalJsm, l: LocalJsm)
    requires l.Base({}) && l.NoneIdle() && r !in l.Repr && r != l
    modifies r
    ensures r.Base({}) && r.NoneIdle() && r.Repr == l.Repr && r.clientHeap == l.clientHeap
    ensures r.View() == l.View().(nextDelay := old(r.nextDelayTickAt))
  {
    TakeParts(r, l);
    SameMachine(r, l);
  }

  // Fill receiver r from lists of entries and jobs: clients first, then jobs.
  method Restore(r: LocalJsm, es: seq<Entry>, js: seq<Job>, ghost saved: seq<ClientId>) returns (e: Result<()>)
    requires Intact(es, saved) && DistinctIds(js)
    modifies r
    ensures r.Base({}) && r.NoneIdle() && fresh(r.Repr) && e == Ok(())
    ensures r.View() == Filled(Staged(es), MapOf(js)).(nextDelay := old(r.nextDelayTickAt))
    ensures Ordered(saved, ClientLess(ClientsOf(es))) ==> r.clientHeap.slots == saved
  {
    hide LocalJsm.Base, LocalJsm.NoneIdle, Inv, Filled, ClientsOf, QueuesOf, Ordered, Intact, ClientLess;
    var l := new LocalJsm();
    RestoreClients(l, es, saved);
    ghost var slots := l.clientHeap.slots;
    e := RestoreJobs(l, js);
    FinalizeRestore(r, l);
  }

  // index has the positions in slots.
  ghost predicate Indexes(index: map<ClientId, int>, slots: seq<ClientId>) {
    && (forall i :: 0 <= i < |slots| ==> slots[i] in index && index[slots[i]] == i)
    && (forall c :: c in index && index[c] >= 0 ==> index[c] < |slots| && slots[index[c]] == c)
  }

  lemma SameLength(a: seq<ClientId>, b: seq<ClientId>)
    requires NoDup(a) && NoDup(b) && forall c :: c in a <==> c in b
    ensures |a| == |b|
  {
    Distinct(a);
    Distinct(b);
    assert (set c | c in a) == set c | c in b;
  }

  // The saved positions are a permutation.
  lemma PositionsIntact(s: State, slots: seq<ClientId>, index: map<ClientId, int>)
    requires NoDup(s.roster) && (forall c :: c in s.roster <==> c in s.clients) && s.timers <= s.clients.Keys
    requires Indexes(index, slots) && s.timers == (set c | c in slots)
    requires forall c :: c in s.clients && s.clients[c].waiting ==> NoDup(s.clients[c].watched)
    ensures Positions(index, s.timers) && Intact(EntriesOf(s.roster, s.clients, index), slots)
  {
    hide EntriesOf, Kin;
    IndexPositions(index, slots);
    EntriesFacts(s, index);
    var es := EntriesOf(s.roster, s.clients, index);
    KeptNoDup(s.roster, s.timers);
    SameLength(slots, Ids(es));
    forall i | 0 <= i < |es| ensures es[i].id in slots && Copied(es[i], s.clients, index) {
      assert Ids(es)[i] == es[i].id && es[i].id in Ids(es);
    }
  }

  lemma IndexPositions(index: map<ClientId, int>, slots: seq<ClientId>)
    requires Indexes(index, slots)
    ensures NoDup(slots) && Positions(index, set c | c in slots)
  {
  }

  lemma EntriesIntact(m: LocalJsm)
    requires m.Valid()
    ensures (forall c :: c in m.roster.l <==> c in m.clients) && Positions(m.clientHeap.index, m.View().timers)
    ensures Intact(EntriesOf(m.roster.l, m.clients, m.clientHeap.index), m.clientHeap.slots)
  {
    hide EntriesOf, Intact, Positions;
    var s := m.View();
    forall c | c in s.clients && s.clients[c].waiting ensures NoDup(s.clients[c].watched) {
      assert ClientInv(s, c, {});
    }
    PositionsIntact(s, m.clientHeap.slots, m.clientHeap.index);
  }

  lemma {:induction false} MapOfGet(js: seq<Job>, i: int)
    requires DistinctIds(js) && 0 <= i < |js|
    ensures js[i].id in MapOf(js) && MapOf(js)[js[i].id] == js[i]
    decreases |js|
  {
    if i < |js| - 1 { MapOfGet(js[..|js| - 1], i); }
  }

  // The timer heap is one for the clients that were kept, too.
  lemma SlotsOrdered(m: LocalJsm)
    requires m.Valid()
    ensures Ordered(m.clientHeap.slots, ClientLess(Kin(m.View())))
  {
    assert forall c :: c in m.clientHeap.slots ==> c in m.View().timers;
    SameTimers(m.clientHeap.slots, m.clients, Kin(m.View()));
  }

  // Entries and jobs passed on as they are: the receiver becomes the restored
  // machine, with the very same timer heap.
  method Transfer(m: LocalJsm, r: LocalJsm)
    requires m.Valid() && r != m
    modifies r
    ensures r.Base({}) && r.NoneIdle() && fresh(r.Repr)
    ensures r.View() == Restored(old(m.View()), old(r.nextDelayTickAt)) && r.clientHeap.slots == old(m.clientHeap.slots)
    ensures old(r.nextDelayTickAt) <= MAX_TIME ==> (r.Valid() <==> DelaysFrom(old(m.View()), old(r.nextDelayTickAt)))
  {
    hide LocalJsm.Base, LocalJsm.NoneIdle, InvBut, Intact, Filled, Staged, Restored, Ordered, EntriesOf, Kin, Positions, DelaysFrom, Lists;
    ghost var s, slots, at := m.View(), m.clientHeap.slots, r.nextDelayTickAt;
    InvKeyed(s, {});
    EntriesIntact(m);
    InvFacts(s);
    EntriesFacts(s, m.clientHeap.index);
    SlotsOrdered(m);
    var js := SnapshotJobs(m);
    ListsFacts(js, s.jobs);
    var es := SnapshotClients(m);
    var e := Restore(r, es, js, slots);
    StagedIsRestored(s, es, at);
    if at <= MAX_TIME { RestoredInv(s, at); }
  }

  lemma InvFacts(s: State)
    requires Inv(s)
    ensures NoDup(s.roster) && (forall c :: c in s.roster <==> c in s.clients) && s.timers <= s.clients.Keys
  {
  }

  lemma ListsFacts(js: seq<Job>, jobs: map<JobId, Job>)
    requires Lists(js, jobs)
    ensures DistinctIds(js) && MapOf(js) == jobs
  {
  }
}
