/** Writing the machine to the records of the store, and reading it back. */
module Store {
  import opened Types
  import opened Spec
  import opened Invariant
  import opened Ticks
  import opened Heap
  import opened Machine
  import opened Image
  import opened Snapshot
  import opened Records

  // ----- writing and reading ----------------------------------------------

  function JobProtos(js: seq<Job>): seq<JobProto> {
    seq(|js|, i requires 0 <= i < |js| => JobToJobProto(js[i]))
  }

  function ClientProtos(es: seq<Entry>): seq<ClientProto> {
    seq(|es|, i requires 0 <= i < |es| => ToProto(es[i]))
  }

  // Record the machine: clients first, then jobs.
  method CreateFrom(m: LocalJsm) returns (snap: SnapshotProto, ghost js: seq<Job>)
    requires m.Valid()
    ensures Lists(js, m.jobs) && snap.jobs == JobProtos(js) && (forall c :: c in m.roster.l ==> c in m.clients)
    ensures snap.reservations == ClientProtos(EntriesOf(m.roster.l, m.clients, m.clientHeap.index))
  {
    hide LocalJsm.Base, LocalJsm.NoneIdle, EntriesOf, JobToJobProto, MapOf;
    m.RosterOk();
    InvKeyed(m.View(), {});
    var es := SnapshotClients(m);
    var reservations := [];
    for i := 0 to |es|
      invariant reservations == ClientProtos(es)[..i]
    {
      reservations := reservations + [ToProto(es[i])];
    }
    var saved := SnapshotJobs(m);
    var jobs := [];
    for i := 0 to |saved|
      invariant jobs == JobProtos(saved)[..i]
    {
      jobs := jobs + [JobToJobProto(saved[i])];
    }
    snap, js := SnapshotProto(jobs, reservations), saved;
  }

  // The entries and jobs read back from a snapshot.
  function ReadEntries(ps: seq<ClientProto>): seq<Entry> {
    seq(|ps|, i requires 0 <= i < |ps| => FromProto(ps[i]))
  }

  function ReadJobs(ps: seq<JobProto>): seq<Job> {
    seq(|ps|, i requires 0 <= i < |ps| => NewJobFromJobProto(ps[i]))
  }

  method RestoreTo(snap: SnapshotProto, r: LocalJsm, ghost saved: seq<ClientId>) returns (e: Result<()>)
    requires Intact(ReadEntries(snap.reservations), saved) && DistinctIds(ReadJobs(snap.jobs))
    modifies r
    ensures r.Base({}) && r.NoneIdle() && fresh(r.Repr) && e == Ok(())
    ensures r.View() == Filled(Staged(ReadEntries(snap.reservations)), MapOf(ReadJobs(snap.jobs)))
                        .(nextDelay := old(r.nextDelayTickAt))
    ensures Ordered(saved, ClientLess(ClientsOf(ReadEntries(snap.reservations)))) ==> r.clientHeap.slots == saved
  {
    hide LocalJsm.Base, LocalJsm.NoneIdle, Filled, Staged, Ordered, MapOf, NewJobFromJobProto;
    var es := [];
    for i := 0 to |snap.reservations|
      invariant es == ReadEntries(snap.reservations)[..i]
    {
      es := es + [FromProto(snap.reservations[i])];
    }
    var js := [];
    for i := 0 to |snap.jobs|
      invariant js == ReadJobs(snap.jobs)[..i]
    {
      js := js + [NewJobFromJobProto(snap.jobs[i])];
    }
    assert es == ReadEntries(snap.reservations) && js == ReadJobs(snap.jobs);
    e := Restore(r, es, js, saved);
  }

  // ----- the round trip ---------------------------------------------------

  function EntriesBack(es: seq<Entry>): seq<Entry> {
    ReadEntries(ClientProtos(es))
  }

  function JobsBack(js: seq<Job>): seq<Job> {
    ReadJobs(JobProtos(js))
  }

  lemma {:induction false} ClientsBack(es: seq<Entry>)
    ensures ClientsOf(EntriesBack(es)) == Unwatched(ClientsOf(es))
    decreases |es|
  {
    if es != [] {
      ClientsBack(es[..|es| - 1]);
      assert EntriesBack(es)[..|es| - 1] == EntriesBack(es[..|es| - 1]);
    }
  }

  lemma IntactBack(es: seq<Entry>, slots: seq<ClientId>)
    requires Intact(es, slots) && |slots| <= TWO_31
    ensures Intact(EntriesBack(es), slots) && Ids(EntriesBack(es)) == Ids(es)
  {
    assert Ids(EntriesBack(es)) == Ids(es);
  }

  lemma {:induction false} JobsReadBack(js: seq<Job>)
    requires forall i :: 0 <= i < |js| ==> js[i].id < TWO_64
    ensures MapOf(JobsBack(js)) == WrappedJobs(MapOf(js))
    decreases |js|
  {
    if js != [] {
      JobsReadBack(js[..|js| - 1]);
      assert JobsBack(js)[..|js| - 1] == JobsBack(js[..|js| - 1]);
      WrappedKeeps(js[|js| - 1]);
      assert JobsBack(js)[|js| - 1] == Wrapped(js[|js| - 1]);
    }
  }

  lemma ListBack(s: State, js: seq<Job>)
    requires Inv(s) && Ids64(s) && Lists(js, s.jobs)
    ensures DistinctIds(JobsBack(js)) && MapOf(JobsBack(js)) == Wire(s).jobs
  {
    forall i | 0 <= i < |js|
      ensures js[i].id < TWO_64 && JobsBack(js)[i].id == js[i].id
    {
      MapOfGet(js, i);
      WrappedKeeps(js[i]);
    }
    JobsReadBack(js);
  }

  // The slots are a timer heap for the clients read back.
  lemma SlotsBack(m: LocalJsm)
    requires m.Valid()
    ensures Ordered(m.clientHeap.slots, ClientLess(Kin(Wire(m.View()))))
  {
    assert forall c :: c in m.clientHeap.slots ==> c in m.View().timers;
    SameTimers(m.clientHeap.slots, m.clients, Kin(Wire(m.View())));
  }

  // A snapshot of m, written and read back into r.
  method SaveAndRestore(m: LocalJsm, r: LocalJsm)
    requires m.Valid() && r != m && Ids64(m.View()) && |m.clientHeap.slots| <= TWO_31
    modifies r
    ensures r.Base({}) && r.NoneIdle() && fresh(r.Repr)
    ensures r.View() == Restored(Wire(old(m.View())), old(r.nextDelayTickAt))
    ensures r.clientHeap.slots == old(m.clientHeap.slots)
  {
    hide LocalJsm.Base, LocalJsm.NoneIdle, InvBut, Intact, Filled, Staged, Restored, Ordered, EntriesOf, Kin, Positions, Lists,
      Unwatched, WrappedJobs, ClientsOf, ReadEntries, ReadJobs, ClientProtos, JobProtos, Kept;
    ghost var s, slots := m.View(), m.clientHeap.slots;
    EntriesIntact(m);
    InvFacts(s);
    EntriesFacts(s, m.clientHeap.index);
    SlotsBack(m);
    ghost var es := EntriesOf(s.roster, s.clients, m.clientHeap.index);
    var snap, js := CreateFrom(m);
    ListBack(s, js);
    LengthsBack(js);
    IntactBack(es, slots);
    ClientsBack(es);
    StoreKin(s);
    WireRoster(s);
    StagedIsRestored(Wire(s), EntriesBack(es), r.nextDelayTickAt);
    var e := RestoreTo(snap, r, slots);
  }

  lemma LengthsBack(js: seq<Job>)
    ensures |JobProtos(js)| == |js|
  {
  }

  lemma WireRoster(s: State)
    requires (forall c :: c in s.roster <==> c in s.clients) && s.timers <= s.clients.Keys
    ensures (forall c :: c in s.roster <==> c in Wire(s).clients) && s.timers <= Wire(s).clients.Keys
  {
  }
}
