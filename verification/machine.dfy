/** The job state machine with its containers: an index of jobs, three heaps
    of jobs and a wait queue per tube, a heap of jobs per client, an index of
    clients and a heap of their timers. */
module Machine {
  import opened Types
  import opened Spec
  import opened Invariant
  import opened Ticks
  import opened Matching
  import opened ClientCheck
  import opened Loops
  import opened Heap
  import opened Queue

  // The entry of a job in a heap. Every time a job enters a heap it gets a new
  // one, and the index of jobs has to note it.
  type Token = nat

  type JobHeap = IndexedHeap<Token>
  type ClientHeap = IndexedHeap<ClientId>

  // ----- the orders of the heaps ------------------------------------------

  function JobLess(jobs: map<JobId, Job>, owner: map<Token, JobId>, o: Order): (Token, Token) -> bool {
    (a: Token, b: Token) =>
      a in owner && b in owner && owner[a] in jobs && owner[b] in jobs && jobs[owner[a]].Before(o, jobs[owner[b]])
  }

  // The entries that the index knows.
  function Current(jobs: map<JobId, Job>, owner: map<Token, JobId>, ent: map<JobId, Token>): set<Token> {
    set k | k in owner && owner[k] in jobs && owner[k] in ent && ent[owner[k]] == k
  }

  lemma JobLessTotal(jobs: map<JobId, Job>, owner: map<Token, JobId>, ent: map<JobId, Token>, o: Order)
    requires Keyed(jobs)
    ensures TotalOn(JobLess(jobs, owner, o), Current(jobs, owner, ent))
  {
  }

  function ClientLess(clients: map<ClientId, Client>): (ClientId, ClientId) -> bool {
    (a: ClientId, b: ClientId) => a in clients && b in clients && TimerBefore(clients, a, b)
  }

  lemma ClientLessTotal(clients: map<ClientId, Client>)
    ensures TotalOn(ClientLess(clients), clients.Keys)
  {
    forall a, b, c | a in clients && b in clients && c in clients ensures Orders(ClientLess(clients), a, b, c) {
      StrLessTotal(a, b);
      StrLessTotal(a, a);
      if StrLess(a, b) && StrLess(b, c) { StrLessTransitive(a, b, c); }
    }
  }

  // A heap stays a heap when the jobs and entries outside it change.
  lemma OtherJobs(h: seq<Token>, jobs: map<JobId, Job>, jobs': map<JobId, Job>,
                  owner: map<Token, JobId>, owner': map<Token, JobId>, o: Order)
    requires forall k :: k in h ==> k in owner && k in owner' && owner'[k] == owner[k]
    requires forall k :: k in h ==> owner[k] in jobs && owner[k] in jobs' && jobs'[owner[k]] == jobs[owner[k]]
    requires Ordered(h, JobLess(jobs, owner, o))
    ensures Ordered(h, JobLess(jobs', owner', o))
  {
    forall j | 1 <= j < |h| ensures Below(h, JobLess(jobs', owner', o), j) {
      assert Below(h, JobLess(jobs, owner, o), j);
      assert h[j] in h && h[Heap.Parent(j)] in h;
    }
  }

  // The entries that the index notes for the jobs ids.
  function Tokens(ent: map<JobId, Token>, ids: set<JobId>): set<Token> {
    set id | id in ids && id in ent :: ent[id]
  }

  // The entry noted for a job is one of that job, except for the loose jobs and
  // those that belong in no container.
  ghost predicate Linked(jobs: map<JobId, Job>, owner: map<Token, JobId>, ent: map<JobId, Token>, loose: set<JobId>) {
    forall id :: id in jobs && id !in loose && !jobs[id].Place().Nowhere? ==> id in ent && ent[id] in owner && owner[ent[id]] == id
  }

  // Entries are numbered as they are made.
  ghost predicate Numbered(owner: map<Token, JobId>, next: nat) {
    forall k :: k in owner ==> k < next
  }

  lemma TokensLess(jobs: map<JobId, Job>, owner: map<Token, JobId>, ent: map<JobId, Token>, ids: set<JobId>, id: JobId)
    requires Linked(jobs, owner, ent, {}) && ids <= jobs.Keys && id in ids
    requires forall i :: i in ids ==> !jobs[i].Place().Nowhere?
    ensures ent[id] in Tokens(ent, ids) && Tokens(ent, ids - {id}) == Tokens(ent, ids) - {ent[id]}
  {
    forall k | k in Tokens(ent, ids) && k != ent[id] ensures k in Tokens(ent, ids - {id}) {
      var i :| i in ids && i in ent && ent[i] == k;
      assert i in ids - {id};
    }
    forall k | k in Tokens(ent, ids - {id}) ensures k != ent[id] {
      var i :| i in ids - {id} && i in ent && ent[i] == k;
      assert owner[ent[i]] == i;
    }
  }

  lemma TokensSame(ent: map<JobId, Token>, ent': map<JobId, Token>, ids: set<JobId>)
    requires forall id :: id in ids ==> (id in ent <==> id in ent') && (id in ent ==> ent'[id] == ent[id])
    ensures Tokens(ent', ids) == Tokens(ent, ids)
  {
    forall k | k in Tokens(ent, ids) ensures k in Tokens(ent', ids) {
      var i :| i in ids && i in ent && ent[i] == k;
      assert ent'[i] == k;
    }
    forall k | k in Tokens(ent', ids) ensures k in Tokens(ent, ids) {
      var i :| i in ids && i in ent' && ent'[i] == k;
      assert ent[i] == k;
    }
  }

  lemma {:induction false} TokensCount(owner: map<Token, JobId>, ent: map<JobId, Token>, ids: set<JobId>)
    requires forall id :: id in ids ==> id in ent && ent[id] in owner && owner[ent[id]] == id
    ensures |Tokens(ent, ids)| == |ids|
    decreases ids
  {
    if ids == {} {
      assert Tokens(ent, ids) == {};
    } else {
      var id :| id in ids;
      TokensCount(owner, ent, ids - {id});
      assert Tokens(ent, ids) == Tokens(ent, ids - {id}) + {ent[id]};
      assert ent[id] !in Tokens(ent, ids - {id});
    }
  }

  // The entries of a heap belong to the jobs they are noted for.
  lemma Owners(h: seq<Token>, owner: map<Token, JobId>, ent: map<JobId, Token>, ids: set<JobId>)
    requires (set k | k in h) == Tokens(ent, ids)
    requires forall id :: id in ids ==> id in ent && ent[id] in owner && owner[ent[id]] == id
    ensures forall k :: k in h ==> k in owner && owner[k] in ids && ent[owner[k]] == k
  {
    forall k | k in h ensures k in owner && owner[k] in ids && ent[owner[k]] == k {
      assert k in Tokens(ent, ids);
    }
  }

  // A heap that holds the jobs ids stays one when nothing about them changes.
  lemma HeapStays(h: JobHeap, ids: set<JobId>, jobs: map<JobId, Job>, jobs': map<JobId, Job>, owner: map<Token, JobId>,
                  owner': map<Token, JobId>, ent: map<JobId, Token>, ent': map<JobId, Token>, o: Order)
    requires h.Valid(JobLess(jobs, owner, o)) && h.Elems() == Tokens(ent, ids)
    requires forall id :: id in ids ==> id in jobs && id in jobs' && jobs'[id] == jobs[id]
    requires forall id :: id in ids ==> id in ent && id in ent' && ent'[id] == ent[id]
    requires forall id :: id in ids ==> ent[id] in owner && owner[ent[id]] == id && ent[id] in owner' && owner'[ent[id]] == id
    ensures h.Valid(JobLess(jobs', owner', o)) && h.Elems() == Tokens(ent', ids)
    ensures forall k :: k in h.slots ==> k in owner
  {
    TokensSame(ent, ent', ids);
    Owners(h.slots, owner, ent, ids);
    Owners(h.slots, owner', ent, ids);
    OtherJobs(h.slots, jobs, jobs', owner, owner', o);
  }

  datatype TubeState = TubeState(delayed: JobHeap, ready: JobHeap, waiting: ClientQueue, buried: JobHeap)

  class LocalJsm {
    var maxJobId: nat
    var jobs: map<JobId, Job>
    var entry: map<JobId, Token>
    var owner: map<Token, JobId>
    var nextToken: Token
    var left: map<Token, Job>
    var tubes: map<TubeName, TubeState>
    var clientHeap: ClientHeap
    var clients: map<ClientId, Client>
    var roster: ClientQueue
    var reserved: map<ClientId, JobHeap>
    var nextDelayTickAt: int

    // The heaps of this machine.
    ghost var Repr: set<object>

    ghost predicate Has(p: Place)
      reads this`tubes, this`reserved
    {
      match p
      case InReady(t) => t in tubes
      case InDelayed(t) => t in tubes
      case InBuried(t) => t in tubes
      case HeldBy(c) => c in reserved
      case Nowhere => false
    }

    // The heap that is container p.
    ghost function HeapAt(p: Place): JobHeap
      requires Has(p)
      reads this`tubes, this`reserved
    {
      match p
      case InReady(t) => tubes[t].ready
      case InDelayed(t) => tubes[t].delayed
      case InBuried(t) => tubes[t].buried
      case HeldBy(c) => reserved[c]
    }

    ghost function Heaps(): set<object>
      reads this`tubes, this`reserved
    {
      (set t | t in tubes :: tubes[t].ready) + (set t | t in tubes :: tubes[t].delayed)
      + (set t | t in tubes :: tubes[t].buried) + (set c | c in reserved :: reserved[c])
    }

    // The parts of the machine are all different objects.
    ghost predicate Wired()
      reads this`tubes, this`reserved, this`clientHeap, this`Repr
    {
      && this !in Repr && clientHeap in Repr && clientHeap.home == Nowhere
      && (forall p {:trigger HeapAt(p)} :: Has(p) ==> HeapAt(p) in Repr && HeapAt(p).home == p)
    }

    // Heap h holds exactly the entries noted in ent for the jobs filed under p,
    // except the loose ones, in heap order, and each knows its position.
    ghost predicate HeapOk(h: JobHeap, p: Place, ent: map<JobId, Token>, loose: set<JobId>)
      reads this`jobs, this`owner, h
    {
      h.Valid(JobLess(jobs, owner, OrderOf(p))) && h.Elems() == Tokens(ent, Filed(jobs, p) - loose)
    }

    lemma HeapIn(p: Place)
      requires Has(p)
      ensures HeapAt(p) in Heaps()
    {
    }

    // The jobs are where their records say.
    ghost predicate Sorted(ent: map<JobId, Token>, loose: set<JobId>)
      reads this`jobs, this`owner, this`tubes, this`reserved, Heaps()
    {
      && Keyed(jobs) && Linked(jobs, owner, ent, loose)
      && (forall p {:trigger HeapAt(p)} :: Has(p) ==> (HeapIn(p); HeapOk(HeapAt(p), p, ent, loose)))
      && (forall id :: id in jobs && id !in loose && !jobs[id].Place().Nowhere? ==> Has(jobs[id].Place()))
    }

    // No client has an empty heap of reserved jobs.
    ghost predicate NoneIdle()
      reads this`reserved, set c | c in reserved :: reserved[c]
    {
      forall c :: c in reserved ==> reserved[c].slots != []
    }

    ghost predicate NoneIdleBut(h: JobHeap)
      reads this`reserved, set c | c in reserved :: reserved[c]
    {
      forall c :: c in reserved && reserved[c] != h ==> reserved[c].slots != []
    }

    ghost predicate QueuesOk()
      reads this`tubes, this`clients, this`clientHeap, this`roster, clientHeap
    {
      && clientHeap.Valid(ClientLess(clients)) && clientHeap.Elems() <= clients.Keys
      && roster.Valid()
      && (forall t :: t in tubes ==> tubes[t].waiting.Valid())
    }

    // All containers agree, with ent for the entries that the index notes.
    ghost predicate BaseAt(ent: map<JobId, Token>, loose: set<JobId>)
      reads this`jobs, this`owner, this`nextToken, this`tubes, this`reserved, this`clients, this`clientHeap, this`roster, this`Repr
      reads clientHeap, Heaps()
    {
      Wired() && Sorted(ent, loose) && QueuesOk() && Numbered(owner, nextToken)
    }

    ghost predicate Base(loose: set<JobId>)
      reads this`jobs, this`entry, this`owner, this`nextToken, this`tubes, this`reserved
      reads this`clients, this`clientHeap, this`roster, this`Repr
      reads clientHeap, Heaps()
    {
      BaseAt(entry, loose)
    }

    // The queues of the tubes.
    ghost function Waiters(): map<TubeName, seq<ClientId>>
      reads this`tubes
    {
      map t | t in tubes :: tubes[t].waiting.l
    }

    // The machine as a value.
    ghost function View(): State
      reads this`maxJobId, this`jobs, this`tubes, this`clients, this`roster, this`clientHeap, this`nextDelayTickAt
      reads clientHeap
    {
      State(maxJobId, jobs, Waiters(), clients, roster.l, clientHeap.Elems(), nextDelayTickAt)
    }

    ghost predicate Valid()
      reads this, clientHeap, Heaps()
    {
      Base({}) && NoneIdle() && Inv(View())
    }

    constructor ()
      ensures Valid() && fresh(Repr) && View() == EMPTY && clientHeap.slots == []
    {
      maxJobId, jobs, tubes, clients, reserved, nextDelayTickAt := 0, map[], map[], map[], map[], MAX_TIME;
      entry, owner, nextToken, left := map[], map[], 0, map[];
      var h := new IndexedHeap<ClientId>(Nowhere);
      clientHeap, roster := h, EMPTY_QUEUE;
      Repr := {h};
      new;
      EmptyInv();
    }

    // ----- entries of jobs ------------------------------------------------

    // What the operations of a heap of jobs need to know about it.
    lemma HeapFits(h: JobHeap, p: Place, ent: map<JobId, Token>, loose: set<JobId>)
      requires Keyed(jobs) && Linked(jobs, owner, ent, loose) && HeapOk(h, p, ent, loose) && !p.Nowhere?
      ensures h.Fits(JobLess(jobs, owner, OrderOf(p)), Current(jobs, owner, ent))
    {
      JobLessTotal(jobs, owner, ent, OrderOf(p));
      h.Within(JobLess(jobs, owner, OrderOf(p)), Current(jobs, owner, ent));
    }

    // The other heaps do not have job id.
    lemma ElsewhereOk(q: Place, h: JobHeap, ent: map<JobId, Token>, id: JobId, p: Place)
      requires id in jobs && jobs[id].Place() == p && q != p
      ensures HeapOk(h, q, ent, {}) <==> HeapOk(h, q, ent, {id})
    {
      assert Filed(jobs, q) - {id} == Filed(jobs, q) - {};
    }

    // Take the entry of job id out of its heap.
    method Unfile(h: JobHeap, id: JobId, p: Place) returns (r: Result<Token>)
      requires Base({}) && Has(p) && h == HeapAt(p) && id in jobs && jobs[id].Place() == p
      modifies h
      ensures Base({id}) && r == Ok(entry[id]) && View() == old(View())
    {
      HeapFits(h, p, entry, {});
      TokensLess(jobs, owner, entry, Filed(jobs, p), id);
      assert Filed(jobs, p) - {} == Filed(jobs, p);
      h.Position(entry[id]);
      r := h.RemoveAt(entry[id], JobLess(jobs, owner, OrderOf(p)), Current(jobs, owner, entry));
      forall q | Has(q) ensures HeapOk(HeapAt(q), q, entry, {id}) {
        if q != p {
          assert old(HeapOk(HeapAt(q), q, entry, {}));
          ElsewhereOk(q, HeapAt(q), entry, id, p);
        }
      }
    }

    // The entry that the index notes for a job is in the heap where the job
    // belongs, at the position it knows.
    lemma EntryPlaced(id: JobId)
      requires Base({}) && id in jobs && !jobs[id].Place().Nowhere?
      ensures id in entry && entry[id] in owner && owner[entry[id]] == id && Has(jobs[id].Place())
      ensures var h, k := HeapAt(jobs[id].Place()), entry[id];
              k in h.index && 0 <= h.index[k] < |h.slots| && h.slots[h.index[k]] == k
      ensures forall p :: Has(p) && entry[id] in HeapAt(p).Elems() ==> p == jobs[id].Place()
    {
      var p := jobs[id].Place();
      assert HeapOk(HeapAt(p), p, entry, {}) && id in Filed(jobs, p) - {};
      HeapAt(p).Position(entry[id]);
      forall q | Has(q) && entry[id] in HeapAt(q).Elems() ensures q == p {
        assert HeapOk(HeapAt(q), q, entry, {});
        var i :| i in Filed(jobs, q) - {} && i in entry && entry[i] == entry[id];
        assert owner[entry[i]] == i;
      }
    }

    // A job that belongs in no container is in none.
    lemma BelongsNowhere(id: JobId)
      requires Base({id}) && id in jobs && jobs[id].Place().Nowhere?
      ensures Base({})
    {
      forall q | Has(q) ensures HeapOk(HeapAt(q), q, entry, {}) {
        assert HeapOk(HeapAt(q), q, entry, {id});
        ElsewhereOk(q, HeapAt(q), entry, id, jobs[id].Place());
      }
    }

    // Make an entry for job id, which is in no heap.
    method Mint(id: JobId) returns (k: Token)
      requires Base({id})
      modifies this`owner, this`nextToken
      ensures BaseAt(entry[id := k], {id}) && View() == old(View())
      ensures owner == old(owner)[k := id] && k !in old(owner) && forall p :: Has(p) ==> k !in HeapAt(p).Elems()
    {
      k := nextToken;
      nextToken := nextToken + 1;
      owner := owner[k := id];
      ghost var ent := entry[id := k];
      forall q | Has(q) ensures HeapOk(HeapAt(q), q, ent, {id}) && k !in HeapAt(q).Elems() {
        assert old(HeapOk(HeapAt(q), q, entry, {id}));
        HeapStays(HeapAt(q), Filed(jobs, q) - {id}, jobs, jobs, old(owner), owner, entry, ent, OrderOf(q));
      }
    }

    // Put entry k of job id into heap h, where the job belongs if it is filed under p.
    method PushEntry(h: JobHeap, id: JobId, p: Place, k: Token)
      requires BaseAt(entry[id := k], {id}) && Has(p) && h == HeapAt(p) && id in jobs
      requires k in owner && owner[k] == id && k !in h.Elems() && NoneIdleBut(h)
      modifies h
      ensures NoneIdle() && View() == old(View()) && h.Elems() == old(h.Elems()) + {k}
      ensures jobs[id].Place() == p ==> BaseAt(entry[id := k], {})
    {
      ghost var ent := entry[id := k];
      HeapFits(h, p, ent, {id});
      h.Push(k, JobLess(jobs, owner, OrderOf(p)), Current(jobs, owner, ent));
      assert k in h.Elems();
      if jobs[id].Place() == p {
        assert Tokens(ent, Filed(jobs, p) - {}) == Tokens(ent, Filed(jobs, p) - {id}) + {k};
        forall q | Has(q) ensures HeapOk(HeapAt(q), q, ent, {}) {
          if q != p {
            assert old(HeapOk(HeapAt(q), q, ent, {id}));
            ElsewhereOk(q, HeapAt(q), ent, id, p);
          }
        }
      }
    }

    // Enter job id into heap h, by a new entry that the index does not note yet.
    method File(h: JobHeap, id: JobId, p: Place) returns (k: Token)
      requires Base({id}) && Has(p) && h == HeapAt(p) && id in jobs && NoneIdleBut(h)
      modifies h, this`owner, this`nextToken
      ensures NoneIdle() && View() == old(View()) && h.Elems() == old(h.Elems()) + {k}
      ensures owner == old(owner)[k := id] && k !in old(owner)
      ensures jobs[id].Place() == p ==> BaseAt(entry[id := k], {})
    {
      hide Base, BaseAt, NoneIdle;
      k := Mint(id);
      PushEntry(h, id, p, k);
    }

    // Note the entry of a job in the index.
    method StoreEntry(id: JobId, k: Token)
      requires NoneIdle()
      modifies this`entry
      ensures old(BaseAt(entry[id := k], {})) ==> Base({})
      ensures NoneIdle() && View() == old(View()) && entry == old(entry)[id := k]
    {
      entry := entry[id := k];
    }

    // Write the record of a job that is in no heap.
    method Write(j: Job)
      requires Base({j.id})
      modifies this`jobs
      ensures Base({j.id}) && View() == old(View()).(jobs := old(jobs)[j.id := j])
    {
      jobs := jobs[j.id := j];
      forall q | Has(q) ensures HeapOk(HeapAt(q), q, entry, {j.id}) {
        assert old(HeapOk(HeapAt(q), q, entry, {j.id}));
        assert Filed(jobs, q) - {j.id} == Filed(old(jobs), q) - {j.id};
        HeapStays(HeapAt(q), Filed(jobs, q) - {j.id}, old(jobs), jobs, owner, owner, entry, entry, OrderOf(q));
      }
    }

    // The machine is not one of the objects it works on.
    lemma Apart(loose: set<JobId>)
      requires Base(loose)
      ensures this !in Repr && clientHeap in Repr
    {
    }

    lemma NotYet(id: JobId)
      requires Base({}) && id !in jobs
      ensures Base({id})
    {
    }

    lemma HeapKnown(p: Place, loose: set<JobId>)
      requires Base(loose) && Has(p)
      ensures this !in Repr && HeapAt(p) in Repr && HeapAt(p) != clientHeap as object
    {
    }

    // ----- tubes ----------------------------------------------------------

    // Make tube t, if there is none.
    method EnsureTube(t: TubeName, ghost loose: set<JobId>)
      requires Base(loose)
      modifies this`tubes, this`Repr
      ensures Base(loose) && t in tubes && fresh(Repr - old(Repr)) && old(Repr) <= Repr
      ensures View() == Spec.EnsureTube(old(View()), t)
    {
      if t !in tubes {
        var ts := NewTube(t);
        InsertTube(t, ts, loose);
      }
    }

    method InsertTube(t: TubeName, ts: TubeState, ghost loose: set<JobId>)
      requires Base(loose) && t !in tubes && Unused(t, ts)
      modifies this`tubes, this`Repr
      ensures Base(loose) && tubes == old(tubes)[t := ts] && Repr == old(Repr) + {ts.delayed, ts.ready, ts.buried}
      ensures View() == old(View()).(tubes := old(Waiters())[t := []])
    {
      hide Base, Unused;
      Own({ts.delayed, ts.ready, ts.buried}, loose);
      EnterTube(t, ts, loose);
    }

    ghost method Own(hs: set<JobHeap>, loose: set<JobId>)
      requires Base(loose)
      modifies this`Repr
      ensures Base(loose) && Repr == old(Repr) + hs
    {
      Repr := Repr + hs;
    }

    method EnterTube(t: TubeName, ts: TubeState, ghost loose: set<JobId>)
      requires Base(loose) && t !in tubes && Unused(t, ts) && {ts.delayed, ts.ready, ts.buried} <= Repr
      modifies this`tubes
      ensures Base(loose) && tubes == old(tubes)[t := ts] && View() == old(View()).(tubes := old(Waiters())[t := []])
    {
      hide HeapOk, Linked, Unused;
      UnusedQueue(t, ts);
      tubes := tubes[t := ts];
      forall p | Has(p) ensures HeapAt(p) in Repr && HeapAt(p).home == p && HeapOk(HeapAt(p), p, entry, loose) {
        if old(Has(p)) {
          assert HeapAt(p) == old(HeapAt(p)) && old(HeapOk(HeapAt(p), p, entry, loose));
        } else {
          NewTubeHeap(t, ts, p, loose);
        }
      }
      forall id | id in jobs && id !in loose && !jobs[id].Place().Nowhere? ensures Has(jobs[id].Place()) {
        assert old(Has(jobs[id].Place()));
      }
      assert Waiters() == old(Waiters())[t := []];
    }

    // A container that was not there yet is an empty one of the new tube.
    lemma NewTubeHeap(t: TubeName, ts: TubeState, p: Place, loose: set<JobId>)
      requires Unused(t, ts) && t in tubes && tubes[t] == ts && Filed(jobs, p) <= loose
      requires p == InReady(t) || p == InDelayed(t) || p == InBuried(t)
      ensures HeapAt(p) in {ts.delayed, ts.ready, ts.buried} && HeapAt(p).home == p
      ensures HeapOk(HeapAt(p), p, entry, loose)
    {
      EmptyHeap(HeapAt(p), p, loose);
    }

    // The wait queue of an unused tube is an empty one.
    lemma UnusedQueue(t: TubeName, ts: TubeState)
      requires Unused(t, ts)
      ensures ts.waiting.Valid() && ts.waiting.l == []
    {
    }

    lemma EmptyHeap(h: JobHeap, p: Place, loose: set<JobId>)
      requires h.slots == [] && h.Indexed() && Filed(jobs, p) <= loose
      ensures HeapOk(h, p, entry, loose)
    {
    }

    // The heap of a tube for jobs filed under p.
    function TubeHeap(p: Place): JobHeap
      requires !p.HeldBy? && !p.Nowhere? && p.tube in tubes
      reads this`tubes
    {
      match p
      case InReady(t) => tubes[t].ready
      case InDelayed(t) => tubes[t].delayed
      case InBuried(t) => tubes[t].buried
    }

    // EnqueueReadyJob, EnqueueDelayedJob and EnqueueBuriedJob
    method EnqueueTubeJob(id: JobId) returns (k: Token)
      requires Base({id}) && NoneIdle() && id in jobs && !jobs[id].Place().HeldBy? && !jobs[id].Place().Nowhere?
      modifies this`owner, this`nextToken, this`tubes, this`Repr, Repr
      ensures BaseAt(entry[id := k], {}) && NoneIdle() && fresh(Repr - old(Repr)) && old(Repr) <= Repr
      ensures View() == Spec.EnsureTube(old(View()), jobs[id].tube) && jobs == old(jobs) && unchanged(clientHeap)
    {
      hide Base, BaseAt;
      Apart({id});
      EnsureTube(jobs[id].tube, {id});
      assert TubeHeap(jobs[id].Place()) == HeapAt(jobs[id].Place());
      HeapKnown(jobs[id].Place(), {id});
      k := File(TubeHeap(jobs[id].Place()), id, jobs[id].Place());
    }

    method DropTube(t: TubeName, ghost loose: set<JobId>)
      requires Base(loose) && NoneIdle() && Vacant(View(), t, loose)
      modifies this`tubes
      ensures Base(loose) && NoneIdle() && View() == old(View()).(tubes := old(View()).tubes - {t})
    {
      tubes := tubes - {t};
      forall p | Has(p) ensures HeapAt(p) == old(HeapAt(p)) && HeapOk(HeapAt(p), p, entry, loose) {
        assert old(HeapOk(HeapAt(p), p, entry, loose));
      }
      forall id | id in jobs && id !in loose && !jobs[id].Place().Nowhere? ensures Has(jobs[id].Place()) {
        assert id in Contents(old(View()), jobs[id].Place());
      }
    }

    // Drop tube t if nothing is left in it.
    method Cleanup(t: TubeName, ghost loose: set<JobId>)
      requires Base(loose) && NoneIdle()
      modifies this`tubes
      ensures Base(loose) && NoneIdle()
      ensures View() == old(View()).(tubes := if Vacant(old(View()), t, loose) then old(View()).tubes - {t} else old(View()).tubes)
    {
      if t in tubes {
        HeapEmpty(InReady(t), loose);
        HeapEmpty(InDelayed(t), loose);
        HeapEmpty(InBuried(t), loose);
        tubes[t].waiting.EmptyIff();
        if |tubes[t].ready.slots| == 0 && |tubes[t].delayed.slots| == 0 && |tubes[t].waiting.m| == 0 && |tubes[t].buried.slots| == 0 {
          DropTube(t, loose);
        }
      }
    }

    lemma HeapEmpty(p: Place, loose: set<JobId>)
      requires Base(loose) && Has(p)
      ensures HeapAt(p).slots == [] <==> Filed(jobs, p) <= loose
    {
      assert HeapOk(HeapAt(p), p, entry, loose);
      if HeapAt(p).slots != [] {
        assert HeapAt(p).slots[0] in HeapAt(p).Elems();
      } else {
        assert forall id :: id in Filed(jobs, p) - loose ==> entry[id] in HeapAt(p).Elems();
      }
    }

    // RemoveReadyJob and RemoveBuriedJob
    method RemoveTubeJob(id: JobId) returns (r: Result<Token>)
      requires Base({}) && NoneIdle() && id in jobs && !jobs[id].Place().HeldBy? && !jobs[id].Place().Nowhere?
      modifies Repr
      ensures Base({id}) && NoneIdle() && View() == old(View()) && r == Ok(entry[id])
    {
      var p := jobs[id].Place();
      if jobs[id].tube !in tubes {
        return Err(EntryMissing);
      }
      assert TubeHeap(p) == HeapAt(p);
      assert forall c :: c in reserved ==> reserved[c] == HeapAt(HeldBy(c));
      r := Unfile(TubeHeap(p), id, p);
    }

    method RemoveDelayedJob(id: JobId) returns (r: Result<Token>)
      requires Base({}) && NoneIdle() && id in jobs && jobs[id].state == Delayed
      modifies this`tubes, Repr
      ensures Base({id}) && NoneIdle() && r == Ok(entry[id])
      ensures var s, t := old(View()), jobs[id].tube;
              View() == s.(tubes := if Vacant(s, t, {id}) then s.tubes - {t} else s.tubes)
    {
      r := RemoveTubeJob(id);
      Cleanup(jobs[id].tube, {id});
    }

    // ----- reserved jobs --------------------------------------------------

    // reservedJobsIndex.Remove
    method RemoveReserved(id: JobId) returns (r: Result<Token>)
      requires Base({}) && NoneIdle() && id in jobs && jobs[id].state == Reserved
      modifies this`reserved, Repr
      ensures Base({id}) && NoneIdle() && View() == old(View()) && r == Ok(entry[id])
    {
      var c := jobs[id].reservedBy;
      if c !in reserved {
        return Err(EntryMissing);
      }
      var h := reserved[c];
      assert forall d :: d in reserved ==> reserved[d] == HeapAt(HeldBy(d));
      r := UnfileReserved(h, id, c);
      if |h.slots| == 0 {
        DropHolder(c, {id});
      }
    }

    method DropHolder(c: ClientId, ghost loose: set<JobId>)
      requires Base(loose) && c in reserved && HeapAt(HeldBy(c)).slots == []
      modifies this`reserved
      ensures Base(loose) && View() == old(View()) && reserved == old(reserved) - {c}
    {
      HeapEmpty(HeldBy(c), loose);
      reserved := reserved - {c};
      forall p | Has(p) ensures HeapAt(p) == old(HeapAt(p)) && HeapOk(HeapAt(p), p, entry, loose) {
        assert old(HeapOk(HeapAt(p), p, entry, loose));
      }
      forall id | id in jobs && id !in loose && !jobs[id].Place().Nowhere? ensures Has(jobs[id].Place()) {
        assert id in Filed(jobs, jobs[id].Place());
      }
    }

    // The entry at the top is taken off by Pop, any other by its position.
    method UnfileReserved(h: JobHeap, id: JobId, c: ClientId) returns (r: Result<Token>)
      requires Base({}) && c in reserved && h == HeapAt(HeldBy(c))
      requires id in jobs && jobs[id].Place() == HeldBy(c)
      modifies h
      ensures Base({id}) && r == Ok(entry[id]) && View() == old(View())
    {
      var p := HeldBy(c);
      HeapFits(h, p, entry, {});
      TokensLess(jobs, owner, entry, Filed(jobs, p), id);
      assert Filed(jobs, p) - {} == Filed(jobs, p);
      h.Position(entry[id]);
      if h.index[entry[id]] == 0 {
        var x := h.Pop(JobLess(jobs, owner, OrderOf(p)), Current(jobs, owner, entry));
        r := Ok(x);
      } else {
        r := h.RemoveAt(entry[id], JobLess(jobs, owner, OrderOf(p)), Current(jobs, owner, entry));
      }
      forall q | Has(q) ensures HeapOk(HeapAt(q), q, entry, {id}) {
        if q != p {
          assert old(HeapOk(HeapAt(q), q, entry, {}));
          ElsewhereOk(q, HeapAt(q), entry, id, p);
        }
      }
    }

    // reservedJobsIndex.Enqueue: the job enters the heap of client c, whoever
    // its record says has reserved it.
    method EnqueueReserved(c: ClientId, id: JobId) returns (k: Token)
      requires Base({id}) && NoneIdle() && id in jobs
      modifies this`owner, this`nextToken, this`reserved, this`Repr, Repr
      ensures NoneIdle() && fresh(Repr - old(Repr)) && old(Repr) <= Repr && View() == old(View()) && unchanged(clientHeap)
      ensures c in reserved && k in reserved[c].Elems() && k in owner && owner[k] == id
      ensures QueuesOk() && TopKnown(c) && reserved[c] as object != clientHeap
      ensures jobs[id].Place() == HeldBy(c) ==> BaseAt(entry[id := k], {})
    {
      hide Base, BaseAt;
      Apart({id});
      if c !in reserved {
        NewHolder(c, {id});
      }
      var h := reserved[c];
      assert h == HeapAt(HeldBy(c));
      HeapKnown(HeldBy(c), {id});
      HolderKnown(c, {id});
      k := File(h, id, HeldBy(c));
      assert h.slots != [] ==> h.slots[0] in h.Elems();
    }

    // The entries in the heap of client c belong to jobs of the index.
    lemma HolderKnown(c: ClientId, loose: set<JobId>)
      requires Base(loose) && c in reserved
      ensures QueuesOk() && forall k :: k in reserved[c].Elems() ==> k in owner && owner[k] in jobs
    {
      var p := HeldBy(c);
      assert HeapOk(HeapAt(p), p, entry, loose);
      Owners(reserved[c].slots, owner, entry, Filed(jobs, p) - loose);
    }

    method NewHolder(c: ClientId, ghost loose: set<JobId>)
      requires Base(loose) && c !in reserved
      modifies this`reserved, this`Repr
      ensures Base(loose) && fresh(Repr - old(Repr)) && old(Repr) <= Repr && View() == old(View())
      ensures c in reserved && fresh(reserved[c]) && reserved == old(reserved)[c := reserved[c]]
    {
      var h := new IndexedHeap<Token>(HeldBy(c));
      reserved := reserved[c := h];
      Repr := Repr + {h};
      forall p | Has(p) ensures HeapAt(p) in Repr && HeapAt(p).home == p && HeapOk(HeapAt(p), p, entry, loose) {
        if p == HeldBy(c) {
          assert Filed(jobs, p) - loose == {};
        } else {
          assert HeapAt(p) == old(HeapAt(p)) && old(HeapOk(HeapAt(p), p, entry, loose));
        }
      }
    }

    // ----- transitions ----------------------------------------------------

    // A job that is in no heap gets the record j, enters its tube, and the
    // index notes the new entry.
    method Settle(j: Job)
      requires Base({j.id}) && NoneIdle() && !j.Place().HeldBy? && !j.Place().Nowhere?
      modifies this`jobs, this`entry, this`owner, this`nextToken, this`tubes, this`Repr, Repr
      ensures Base({}) && NoneIdle() && fresh(Repr - old(Repr)) && View() == SetTubeJob(old(View()), j) && unchanged(clientHeap)
    {
      hide Base, BaseAt, NoneIdle;
      Apart({j.id});
      Write(j);
      var k := EnqueueTubeJob(j.id);
      StoreEntry(j.id, k);
    }

    // fromInitialToReady and fromInitialToDelayed
    method FromInitial(j: Job, to: JobState) returns (r: Result<()>)
      requires Base({}) && NoneIdle() && j.state == Initial && (to == Ready || to == Delayed) && j.id !in jobs
      modifies this`jobs, this`entry, this`owner, this`nextToken, this`tubes, this`Repr, Repr
      ensures Base({}) && NoneIdle() && fresh(Repr - old(Repr)) && r == Ok(())
      ensures View() == SetTubeJob(old(View()), j.UpdateState(to))
    {
      if j.id in jobs {
        return Err(EntryExists);
      }
      assert Base({j.id});
      Settle(j.UpdateState(to));
      r := Ok(());
    }

    method NextJobID() returns (id: JobId)
      requires Base({}) && NoneIdle()
      modifies this`maxJobId
      ensures Base({}) && NoneIdle() && id == old(maxJobId) + 1 && View() == old(View()).(maxJobId := id)
    {
      maxJobId := maxJobId + 1;
      id := maxJobId;
    }

    // Note that a job becomes ready at the given time.
    method NoteDelay(at: int)
      requires Base({}) && NoneIdle()
      modifies this`nextDelayTickAt
      ensures Base({}) && NoneIdle() && View() == old(View()).(nextDelay := Min(old(View()).nextDelay, at))
    {
      if at < nextDelayTickAt {
        nextDelayTickAt := at;
      }
    }

    method NewJob(now: int, pri: nat, delay: int, ttr: int, bodySize: int, body: seq<bv8>, tube: TubeName)
      returns (r: Result<JobId>)
      requires Base({}) && NoneIdle() && maxJobId + 1 !in jobs
      modifies this, Repr
      ensures Base({}) && NoneIdle() && fresh(Repr - old(Repr))
      ensures View() == Spec.Put(old(View()), now, pri, delay, ttr, bodySize, body, tube).0
      ensures r == Ok(Spec.Put(old(View()), now, pri, delay, ttr, bodySize, body, tube).1)
    {
      hide Base, BaseAt, NoneIdle, View;
      BaseKeyed();
      var id := NextJobID();
      var j := Job(id, pri, delay, ttr, bodySize, body, tube, now, now + delay, Initial, 0, "", 0, 0, 0, 0, 0, 0);
      if delay > 0 {
        NoteDelay(j.readyAt);
      }
      var e := FromInitial(j, if delay > 0 then Delayed else Ready);
      r := Ok(j.id);
    }

    method Put(now: int, pri: nat, delay: int, ttr: int, bodySize: int, body: seq<bv8>, tube: TubeName)
      returns (r: Result<JobId>)
      requires Valid() && 0 <= ttr <= MAX_U32
      modifies this, Repr
      ensures Valid() && fresh(Repr - old(Repr))
      ensures View() == Spec.Put(old(View()), now, pri, delay, ttr, bodySize, body, tube).0
      ensures r == Ok(Spec.Put(old(View()), now, pri, delay, ttr, bodySize, body, tube).1) && r.value !in old(jobs)
    {
      PutInv(View(), now, pri, delay, ttr, bodySize, body, tube);
      forall id | id in jobs ensures id <= maxJobId { assert JobInv(View(), id, {}); }
      r := NewJob(now, pri, delay, ttr, bodySize, body, tube);
    }

    // The reservation of job id ends: its record becomes j, in the tube.
    method LeaveReserved(id: JobId, j: Job)
      requires Base({}) && NoneIdle() && id in jobs && jobs[id].state == Reserved
      requires j.id == id && !j.Place().HeldBy? && !j.Place().Nowhere?
      modifies this`jobs, this`entry, this`owner, this`nextToken, this`tubes, this`reserved, this`Repr, Repr
      ensures Base({}) && NoneIdle() && fresh(Repr - old(Repr)) && View() == SetTubeJob(old(View()), j)
    {
      hide Base, BaseAt, NoneIdle;
      Apart({});
      var e := RemoveReserved(id);
      Settle(j);
    }

    // fromReservedToReady, on an explicit release or a timeout
    method FromReservedToReady(id: JobId, clientID: ClientId, pri: nat, updatePri: bool) returns (r: Result<()>)
      requires Base({}) && NoneIdle()
      modifies this, Repr
      ensures Base({}) && NoneIdle() && fresh(Repr - old(Repr))
      ensures (View(), r) == if updatePri then Spec.ReleaseWith(old(View()), 0, id, clientID, pri, 0)
                             else Spec.Release(old(View()), id, clientID)
    {
      if id !in jobs {
        return Err(EntryMissing);
      }
      var j := jobs[id];
      if j.state != Reserved {
        return Err(InvalidJobTransition);
      }
      if |clientID| > 0 && j.reservedBy != clientID {
        return Err(UnauthorizedOperation);
      }
      if updatePri {
        j := j.(releases := Inc(j.releases), priority := pri);
      } else {
        j := j.(timeouts := Inc(j.timeouts));
      }
      LeaveReserved(id, j.UpdateState(Ready).(reservedBy := ""));
      r := Ok(());
    }

    method FromReservedToDelayed(now: int, id: JobId, clientID: ClientId, pri: nat, delay: int) returns (r: Result<()>)
      requires Valid() && delay != 0
      modifies this, Repr
      ensures Valid() && fresh(Repr - old(Repr))
      ensures (View(), r) == Spec.ReleaseWith(old(View()), now, id, clientID, pri, delay)
    {
      hide Base, NoneIdle, InvBut;
      ReleaseWithInv(View(), now, id, clientID, pri, delay);
      if id !in jobs {
        return Err(EntryMissing);
      }
      PlaceKnown(id);
      var j := jobs[id];
      if j.state != Reserved {
        return Err(InvalidJobTransition);
      }
      if |clientID| > 0 && j.reservedBy != clientID {
        return Err(UnauthorizedOperation);
      }
      j := j.(priority := pri).UpdateState(Delayed).(delay := delay);
      j := j.(readyAt := now + j.delay, reservedBy := "", releases := Inc(j.releases));
      assert j == ReleasedLater(old(jobs)[id], now, pri, delay);
      LeaveReserved(id, j);
      NoteDelay(j.readyAt);
      assert View() == Spec.ReleaseWith(old(View()), now, id, clientID, pri, delay).0;
      r := Ok(());
    }

    method ReleaseWith(now: int, id: JobId, clientID: ClientId, pri: nat, delay: int) returns (r: Result<()>)
      requires Valid()
      modifies this, Repr
      ensures Valid() && fresh(Repr - old(Repr))
      ensures (View(), r) == Spec.ReleaseWith(old(View()), now, id, clientID, pri, delay)
    {
      if delay == 0 {
        ReleaseWithInv(View(), now, id, clientID, pri, delay);
        r := FromReservedToReady(id, clientID, pri, true);
      } else {
        r := FromReservedToDelayed(now, id, clientID, pri, delay);
      }
    }

    // The release of a job whose reservation timed out
    method Release(id: JobId, clientID: ClientId) returns (r: Result<()>)
      requires Base({}) && NoneIdle()
      modifies this, Repr
      ensures Base({}) && NoneIdle() && fresh(Repr - old(Repr)) && (View(), r) == Spec.Release(old(View()), id, clientID)
    {
      r := FromReservedToReady(id, clientID, 0, false);
    }

    method Bury(now: int, id: JobId, pri: nat, clientID: ClientId) returns (r: Result<()>)
      requires Valid()
      modifies this, Repr
      ensures Valid() && fresh(Repr - old(Repr)) && (View(), r) == Spec.Bury(old(View()), now, id, pri, clientID)
    {
      BuryInv(View(), now, id, pri, clientID);
      if id !in jobs {
        return Err(EntryMissing);
      }
      assert JobInv(View(), id, {});
      var j := jobs[id];
      if j.state != Reserved {
        return Err(InvalidJobTransition);
      }
      if |clientID| > 0 && j.reservedBy != clientID {
        return Err(UnauthorizedOperation);
      }
      j := j.(reservedBy := "", buriedAt := now).UpdateState(Buried).(priority := pri, buries := Inc(j.buries));
      LeaveReserved(id, j);
      r := Ok(());
    }

    method Unbury(id: JobId, j: Job)
      requires Base({}) && NoneIdle() && id in jobs && jobs[id].state == Buried && j.id == id && j.state == Ready
      modifies this`jobs, this`entry, this`owner, this`nextToken, this`tubes, this`Repr, Repr
      ensures Base({}) && NoneIdle() && fresh(Repr - old(Repr)) && View() == SetTubeJob(old(View()), j)
    {
      hide Base, BaseAt, NoneIdle;
      Apart({});
      var e := RemoveTubeJob(id);
      Settle(j);
    }

    // An id that is not in the index is refused in any state.
    method Kick(id: JobId) returns (r: Result<()>)
      requires id in jobs ==> Valid()
      modifies this, Repr
      ensures old(Valid()) ==> Valid()
      ensures fresh(Repr - old(Repr)) && (View(), r) == Spec.Kick(old(View()), id)
      ensures id !in old(jobs) ==> r == Err(EntryMissing) && unchanged(this) && unchanged(Repr)
    {
      if id !in jobs {
        return Err(EntryMissing);
      }
      KickInv(View(), id);
      assert JobInv(View(), id, {});
      if jobs[id].state != Buried {
        return Err(InvalidJobTransition);
      }
      Unbury(id, jobs[id].(buriedAt := 0).UpdateState(Ready).(kicks := Inc(jobs[id].kicks)));
      r := Ok(());
    }

    // The entry on top of a heap is the first job of the container.
    lemma Top(p: Place)
      requires Base({}) && !p.Nowhere?
      ensures Has(p) && HeapAt(p).slots != [] ==> HeapAt(p).slots[0] in owner
      ensures Next(View(), p) == if Has(p) && HeapAt(p).slots != [] then Some(owner[HeapAt(p).slots[0]]) else None
    {
      if Has(p) && HeapAt(p).slots != [] {
        TopFirst(p);
        LeastUnique(jobs, Filed(jobs, p), OrderOf(p), owner[HeapAt(p).slots[0]], Next(View(), p).value);
      } else if Has(p) {
        HeapEmpty(p, {});
      } else {
        assert forall id :: id in jobs ==> jobs[id].Place() != p;
      }
    }

    lemma TopFirst(p: Place)
      requires Base({}) && Has(p) && HeapAt(p).slots != []
      ensures HeapAt(p).slots[0] in owner && owner[HeapAt(p).slots[0]] in Filed(jobs, p)
      ensures IsLeast(jobs, Filed(jobs, p), OrderOf(p), owner[HeapAt(p).slots[0]])
    {
      var h := HeapAt(p);
      assert HeapOk(h, p, entry, {});
      HeapFits(h, p, entry, {});
      TopIsLeast(h.slots, JobLess(jobs, owner, OrderOf(p)), Current(jobs, owner, entry));
      Owners(h.slots, owner, entry, Filed(jobs, p) - {});
      var id := owner[h.slots[0]];
      forall k | k in Filed(jobs, p) && k != id ensures jobs[id].Before(OrderOf(p), jobs[k]) {
        assert entry[k] in h.Elems();
      }
    }

    // The entry of a job is on top just when the job is the first.
    lemma OnTopIff(id: JobId)
      requires Base({}) && id in jobs && !jobs[id].Place().Nowhere?
      ensures id in entry && Has(jobs[id].Place()) && entry[id] in HeapAt(jobs[id].Place()).index
      ensures HeapAt(jobs[id].Place()).index[entry[id]] == 0 <==> Next(View(), jobs[id].Place()) == Some(id)
    {
      var p := jobs[id].Place();
      var h := HeapAt(p);
      EntryPlaced(id);
      Top(p);
      assert HeapOk(h, p, entry, {}) && h.slots[0] in h.Elems();
      var i :| i in Filed(jobs, p) - {} && i in entry && entry[i] == h.slots[0];
      assert owner[entry[i]] == i;
    }

    method Undelay(id: JobId, j: Job)
      requires Base({}) && NoneIdle() && id in jobs && jobs[id].state == Delayed && jobs[id].tube in tubes
      requires j.id == id && j.state == Ready && j.tube == jobs[id].tube
      modifies this`jobs, this`entry, this`owner, this`nextToken, this`tubes, this`Repr, Repr
      ensures Base({}) && NoneIdle() && fresh(Repr - old(Repr)) && View() == SetJob(old(View()), j)
    {
      hide Base, BaseAt, NoneIdle;
      Apart({});
      TubeBack(View(), j);
      var e := RemoveDelayedJob(id);
      Settle(j);
    }

    // fromDelayedToReady: only the first delayed job of a tube may go
    method MakeReady(id: JobId) returns (r: Result<()>)
      requires Base({}) && NoneIdle()
      modifies this`jobs, this`entry, this`owner, this`nextToken, this`tubes, this`Repr, Repr
      ensures Base({}) && NoneIdle() && fresh(Repr - old(Repr))
      ensures r == if id !in old(jobs) then Err(EntryMissing)
                   else if old(jobs)[id].state != Delayed then Err(InvalidJobTransition)
                   else if old(Next(View(), InDelayed(jobs[id].tube))) != Some(id) then Err(InvalidJobTransition)
                   else Ok(())
      ensures View() == if r.Ok? then SetJob(old(View()), Undelayed(old(jobs)[id])) else old(View())
    {
      if id !in jobs {
        return Err(EntryMissing);
      }
      if jobs[id].state != Delayed {
        return Err(InvalidJobTransition);
      }
      OnTopIff(id);
      if tubes[jobs[id].tube].delayed.index[entry[id]] != 0 {
        return Err(InvalidJobTransition);
      }
      Undelay(id, jobs[id].UpdateState(Ready));
      r := Ok(());
    }

    // fromReadyToReserved
    method Reserve(now: int, id: JobId, c: ClientId) returns (r: Result<()>)
      requires Base({}) && NoneIdle()
      modifies this`jobs, this`entry, this`owner, this`nextToken, this`reserved, this`Repr, Repr
      ensures Base({}) && NoneIdle() && fresh(Repr - old(Repr))
      ensures r == if id !in old(jobs) then Err(EntryMissing)
                   else if old(jobs)[id].state != Ready then Err(InvalidJobTransition) else Ok(())
      ensures View() == if r.Ok? then SetJob(old(View()), ReservedJob(old(jobs)[id], now, c)) else old(View())
    {
      hide Base, BaseAt, NoneIdle;
      BaseKeyed();
      Apart({});
      if id !in jobs {
        return Err(EntryMissing);
      }
      if jobs[id].state != Ready {
        return Err(InvalidJobTransition);
      }
      var j := jobs[id].UpdateReservation(now).UpdateState(Reserved);
      j := j.(reservedBy := c, reserves := Inc(j.reserves));
      assert j == ReservedJob(jobs[id], now, c);
      var e := RemoveTubeJob(id);
      Apart({id});
      Write(j);
      var k := EnqueueReserved(c, id);
      StoreEntry(id, k);
      r := Ok(());
    }

    // ----- delete ---------------------------------------------------------

    // Forget a job that is in no heap.
    method Forget(id: JobId)
      requires Base({id}) && NoneIdle()
      modifies this`jobs, this`entry
      ensures Base({}) && NoneIdle() && View() == old(View()).(jobs := old(jobs) - {id})
    {
      hide Base, BaseAt, NoneIdle;
      DropRecord(id);
      DropEntry(id);
    }

    method DropRecord(id: JobId)
      requires Base({id}) && NoneIdle()
      modifies this`jobs
      ensures Base({}) && NoneIdle() && View() == old(View()).(jobs := old(jobs) - {id}) && id !in jobs
    {
      jobs := jobs - {id};
      forall q | Has(q) ensures HeapOk(HeapAt(q), q, entry, {}) {
        assert old(HeapOk(HeapAt(q), q, entry, {id}));
        assert Filed(jobs, q) - {} == Filed(old(jobs), q) - {id};
        HeapStays(HeapAt(q), Filed(jobs, q) - {}, old(jobs), jobs, owner, owner, entry, entry, OrderOf(q));
      }
    }

    method DropEntry(id: JobId)
      requires Base({}) && NoneIdle() && id !in jobs
      modifies this`entry
      ensures Base({}) && NoneIdle() && View() == old(View())
    {
      entry := entry - {id};
      forall q | Has(q) ensures HeapOk(HeapAt(q), q, entry, {}) {
        assert old(HeapOk(HeapAt(q), q, entry, {}));
        TokensSame(old(entry), entry, Filed(jobs, q) - {});
      }
    }

    lemma PlaceKnown(id: JobId)
      requires Inv(View()) && id in jobs
      ensures jobs[id].id == id && !jobs[id].Place().Nowhere?
    {
      assert JobInv(View(), id, {});
    }

    method Unplace(id: JobId)
      requires Base({}) && NoneIdle() && id in jobs && !jobs[id].Place().Nowhere?
      modifies this`reserved, Repr
      ensures Base({id}) && NoneIdle() && View() == old(View()) && Repr == old(Repr)
    {
      if jobs[id].state == Reserved {
        var e := RemoveReserved(id);
      } else {
        var e := RemoveTubeJob(id);
      }
    }

    // The job leaves its container and the index.
    method Discard(id: JobId)
      requires Valid() && id in jobs
      modifies this, Repr
      ensures Base({}) && NoneIdle() && Repr == old(Repr)
      ensures View() == Spec.Delete(old(View()), id, old(jobs)[id].reservedBy).0
    {
      hide Base, NoneIdle, Vacant, Inv;
      PlaceKnown(id);
      ghost var s := View();
      var t := jobs[id].tube;
      var delayed := jobs[id].state == Delayed;
      Unplace(id);
      Forget(id);
      if delayed {
        Cleanup(t, {});
        VacantCleanup(s.(jobs := s.jobs - {id}), t);
      }
    }

    // The buried heap of tube t still has the entry k, which no job of the
    // index has.
    ghost predicate Leftover(t: TubeName, k: Token)
      reads this`jobs, this`owner, this`tubes, if t in tubes then {tubes[t].buried} else {}
    {
      t in tubes && k in tubes[t].buried.slots && k in owner && owner[k] !in jobs
    }

    lemma NoLeftover(t: TubeName, k: Token)
      requires Leftover(t, k)
      ensures !Base({})
    {
      if Base({}) {
        var p := InBuried(t);
        assert HeapOk(HeapAt(p), p, entry, {});
        Owners(HeapAt(p).slots, owner, entry, Filed(jobs, p) - {});
      }
    }

    // What Delete does to a buried job: it leaves the index, and the record is
    // reset, but the entry with that record stays in the heap.
    method Abandon(id: JobId)
      requires Valid() && id in jobs && jobs[id].state == Buried
      modifies this`jobs, this`entry, this`left
      ensures View() == old(View()).(jobs := old(jobs) - {id})
      ensures var k := old(entry)[id];
              Leftover(old(jobs)[id].tube, k) && owner[k] == id &&
              left == old(left)[k := old(jobs)[id].(state := Deleted, buriedAt := 0, reservedBy := "")]
    {
      EntryPlaced(id);
      ghost var p := jobs[id].Place();
      assert entry[id] in HeapAt(p).slots;
      left := left[entry[id] := jobs[id].UpdateState(Deleted).(reservedBy := "")];
      jobs, entry := jobs - {id}, entry - {id};
    }

    // Delete as it is written: nothing takes the entry of a buried job out of
    // the heap of buried jobs.
    method Delete(id: JobId, clientID: ClientId) returns (r: Result<()>)
      requires Valid()
      modifies this, Repr
      ensures r == Spec.Delete(old(View()), id, clientID).1 && Repr == old(Repr)
      ensures View() == Spec.Delete(old(View()), id, clientID).0
      ensures Valid() <==> !(id in old(jobs) && old(jobs)[id].state == Buried)
      ensures id in old(jobs) && old(jobs)[id].state == Buried ==>
                var t := old(jobs)[id].tube;
                && jobs == old(jobs) - {id} && id in old(entry) && Leftover(t, old(entry)[id]) && owner[old(entry)[id]] == id
                && left == old(left)[old(entry)[id] := old(jobs)[id].(state := Deleted, buriedAt := 0, reservedBy := "")]
                && tubes == old(tubes) && tubes[t].buried.slots == old(tubes[t].buried.slots)
    {
      hide Base, NoneIdle, InvBut;
      DeleteInv(View(), id, clientID);
      if id !in jobs {
        return Err(EntryMissing);
      }
      if jobs[id].state == Reserved && jobs[id].reservedBy != clientID {
        return Err(UnauthorizedOperation);
      }
      PlaceKnown(id);
      if jobs[id].state == Buried {
        EntryPlaced(id);
        Abandon(id);
        NoLeftover(old(jobs)[id].tube, old(entry)[id]);
      } else {
        Discard(id);
      }
      r := Ok(());
    }

    // Delete with the missing case.
    method DeleteRepaired(id: JobId, clientID: ClientId) returns (r: Result<()>)
      requires Valid()
      modifies this, Repr
      ensures Valid() && Repr == old(Repr) && (View(), r) == Spec.Delete(old(View()), id, clientID)
    {
      DeleteInv(View(), id, clientID);
      if id !in jobs {
        return Err(EntryMissing);
      }
      if jobs[id].state == Reserved && jobs[id].reservedBy != clientID {
        return Err(UnauthorizedOperation);
      }
      Discard(id);
      r := Ok(());
    }

    // ----- timers of clients ----------------------------------------------

    // On top of the heap of client c there is an entry of a job of the index.
    ghost predicate TopKnown(c: ClientId)
      reads this`jobs, this`owner, this`reserved, if c in reserved then {reserved[c]} else {}
    {
      c in reserved && reserved[c].slots != [] ==> reserved[c].slots[0] in owner && owner[reserved[c].slots[0]] in jobs
    }

    lemma HolderTop(c: ClientId)
      requires Base({})
      ensures TopKnown(c)
      ensures Next(View(), HeldBy(c)) == if c in reserved && reserved[c].slots != [] then Some(owner[reserved[c].slots[0]]) else None
    {
      Top(HeldBy(c));
      assert c in reserved ==> reserved[c] == HeapAt(HeldBy(c));
      if c in reserved && reserved[c].slots != [] { TopFirst(HeldBy(c)); }
    }

    method NextEventOf(c: ClientId) returns (at: int)
      requires TopKnown(c) && c in clients
      ensures old(Base({})) ==> at == old(NextEvent(View(), c))
    {
      if Base({}) { HolderTop(c); }
      at := MAX_TIME;
      if c in reserved && |reserved[c].slots| != 0 {
        var resvDeadlineAt := jobs[owner[reserved[c].slots[0]]].expiresAt;
        if clients[c].waiting {
          resvDeadlineAt := resvDeadlineAt - 1;
        }
        at := Min(at, resvDeadlineAt);
      }
      if clients[c].waiting {
        at := Min(at, clients[c].deadline);
      }
    }

    lemma TimersFit()
      requires QueuesOk()
      ensures clientHeap.Fits(ClientLess(clients), clients.Keys)
    {
      ClientLessTotal(clients);
      clientHeap.Within(ClientLess(clients), clients.Keys);
    }

    lemma TimersOwned()
      requires Base({})
      ensures clientHeap in Repr && clientHeap != this as object
    {
    }

    lemma TimersKnown()
      requires Base({})
      ensures QueuesOk()
    {
    }

    predicate OnTimer(c: ClientId)
      reads this`clientHeap, clientHeap
    {
      c in clientHeap.index && clientHeap.index[c] >= 0
    }

    lemma OnTimerIff(c: ClientId)
      requires QueuesOk()
      ensures OnTimer(c) <==> c in clientHeap.Elems()
    {
      if c in clientHeap.Elems() { clientHeap.Position(c); }
    }

    // Set the time at which c wakes; it is not on the heap.
    method EnterTimer(c: ClientId, at: int)
      requires QueuesOk() && c in clients && c !in clientHeap.Elems()
      modifies this`clients, clientHeap
      ensures QueuesOk()
      ensures View() == old(View()).(clients := old(clients)[c := old(clients)[c].(tickAt := at)],
                                     timers := old(View()).timers + {c})
    {
      SetTickAt(c, at);
      TimersFit();
      clientHeap.Push(c, ClientLess(clients), clients.Keys);
    }

    method SetTickAt(c: ClientId, at: int)
      requires QueuesOk() && c in clients && c !in clientHeap.Elems()
      modifies this`clients
      ensures QueuesOk() && View() == old(View()).(clients := old(clients)[c := old(clients)[c].(tickAt := at)])
    {
      clients := clients[c := clients[c].(tickAt := at)];
      OtherClients(clientHeap.slots, old(clients), clients, c);
    }

    // UpdateTickAt: c is on the heap.
    method MoveTimer(c: ClientId, at: int)
      requires QueuesOk() && c in clients && c in clientHeap.Elems()
      modifies this`clients, clientHeap
      ensures QueuesOk() && View() == old(View()).(clients := old(clients)[c := old(clients)[c].(tickAt := at)])
    {
      TimersFit();
      clientHeap.Position(c);
      ghost var less := ClientLess(clients);
      clients := clients[c := clients[c].(tickAt := at)];
      ClientLessTotal(clients);
      Rekeyed(clientHeap.slots, less, ClientLess(clients), clients.Keys, clientHeap.index[c]);
      clientHeap.Fix(clientHeap.index[c], ClientLess(clients), clients.Keys);
    }

    // c leaves the heap and the index of clients.
    method LeaveTimer(c: ClientId)
      requires QueuesOk() && c in clients && c in clientHeap.Elems()
      modifies this`clients, this`roster, clientHeap
      ensures QueuesOk()
      ensures View() == old(View()).(clients := old(clients) - {c}, roster := Without(old(View()).roster, c),
                                     timers := old(View()).timers - {c})
    {
      TakeOff(c);
      ForgetClient(c);
    }

    // clientHeap.Remove
    method TakeOff(c: ClientId)
      requires QueuesOk() && c in clients && c in clientHeap.Elems()
      modifies clientHeap
      ensures QueuesOk() && View() == old(View()).(timers := old(View()).timers - {c})
    {
      TimersFit();
      clientHeap.Position(c);
      var e := clientHeap.RemoveAt(c, ClientLess(clients), clients.Keys);
    }

    // clients.Remove
    method ForgetClient(c: ClientId)
      requires QueuesOk() && c in clients && c !in clientHeap.Elems()
      modifies this`clients, this`roster
      ensures QueuesOk()
      ensures View() == old(View()).(clients := old(clients) - {c}, roster := Without(old(View()).roster, c))
    {
      clients := clients - {c};
      OtherClients(clientHeap.slots, old(clients), clients, c);
      var q := roster.Remove(c);
      if q.Ok? {
        roster := q.value;
      } else {
        WithoutNone(roster.l, c);
      }
    }

    // Move the timer of client c to its next event, onto or off the heap.
    method SetNextTick(c: ClientId) returns (ghost at: int)
      requires QueuesOk() && TopKnown(c) && c in clients
      modifies this`clients, this`roster, clientHeap
      ensures QueuesOk() && View() == ScheduleAt(old(View()), c, at)
      ensures old(Base({})) ==> at == old(NextEvent(View(), c))
    {
      hide QueuesOk, Base;
      var nextTickAt := NextEventOf(c);
      at := nextTickAt;
      OnTimerIff(c);
      if nextTickAt < MAX_TIME {
        if !OnTimer(c) {
          EnterTimer(c, nextTickAt);
        } else {
          MoveTimer(c, nextTickAt);
          assert old(View()).timers + {c} == old(View()).timers;
        }
      } else if OnTimer(c) {
        LeaveTimer(c);
      } else {
        SetTickAt(c, nextTickAt);
      }
    }

    // Set the time at which client c has to be processed again. If the
    // containers agree, they still do afterwards.
    method UpdateClientTickAt(c: ClientId)
      requires c in clients && (Base({}) || (QueuesOk() && TopKnown(c)))
      modifies this`clients, this`roster, clientHeap
      ensures old(Base({}) && NoneIdle()) ==> Base({}) && NoneIdle() && View() == Schedule(old(View()), c)
    {
      hide HeapOk, Linked, QueuesOk, NextEvent, ScheduleAt;
      if Base({}) { HolderTop(c); }
      ghost var at := SetNextTick(c);
      if old(Base({}) && NoneIdle()) {
        forall p | Has(p) ensures HeapOk(HeapAt(p), p, entry, {}) {
          assert old(HeapOk(HeapAt(p), p, entry, {}));
        }
        forall d | d in reserved ensures reserved[d].slots != [] {
          assert reserved[d] == HeapAt(HeldBy(d));
        }
      }
    }

    // ----- wait queues ----------------------------------------------------

    // Replace the wait queue of tube t.
    method SetQueue(t: TubeName, q: ClientQueue)
      requires Base({}) && NoneIdle() && t in tubes && q.Valid()
      modifies this`tubes
      ensures Base({}) && NoneIdle() && View() == old(View()).(tubes := old(View()).tubes[t := q.l])
    {
      tubes := tubes[t := tubes[t].(waiting := q)];
      forall p | Has(p) ensures HeapAt(p) == old(HeapAt(p)) {}
      assert Waiters() == old(Waiters())[t := q.l];
    }

    method EnqueueToWaitQ(t: TubeName, c: ClientId) returns (r: Result<()>)
      requires Base({}) && NoneIdle()
      modifies this`tubes, this`Repr
      ensures Base({}) && NoneIdle() && fresh(Repr - old(Repr)) && old(Repr) <= Repr
      ensures var tubes0 := Spec.EnsureTube(old(View()), t).tubes;
              && (r.Ok? <==> c !in tubes0[t])
              && View() == old(View()).(tubes := if r.Ok? then tubes0[t := tubes0[t] + [c]] else tubes0)
    {
      EnsureTube(t, {});
      var q := tubes[t].waiting.Enqueue(c);
      if q.Err? {
        return Err(q.error);
      }
      SetQueue(t, q.value);
      r := Ok(());
    }

    method RemoveFromWaitQ(t: TubeName, c: ClientId) returns (r: Result<()>)
      requires Base({}) && NoneIdle() && t in tubes
      modifies this`tubes
      ensures Base({}) && NoneIdle() && (r.Ok? <==> c in old(Waiters())[t])
      ensures View() == old(View()).(tubes := old(Waiters())[t := Without(old(Waiters())[t], c)])
    {
      var q := tubes[t].waiting.Remove(c);
      if q.Err? {
        WithoutNone(tubes[t].waiting.l, c);
        assert Waiters() == Waiters()[t := Without(Waiters()[t], c)];
        return Err(q.error);
      }
      SetQueue(t, q.value);
      r := Ok(());
    }

    // Take c out of the queues of the tubes ts.
    method Unqueue(ts: seq<TubeName>, c: ClientId)
      requires Base({}) && NoneIdle() && NoDup(ts)
      requires forall t :: t in ts ==> t in Waiters() && c in Waiters()[t]
      modifies this`tubes
      ensures Base({}) && NoneIdle() && View() == old(View()).(tubes := Dequeued(old(Waiters()), ts, c))
    {
      ghost var w := Waiters();
      assert Dequeued(w, ts[..0], c) == w;
      for i := 0 to |ts|
        invariant Base({}) && NoneIdle() && View() == old(View()).(tubes := Dequeued(w, ts[..i], c))
      {
        DequeuedOne(w, ts, i, c);
        assert ts[i] in ts && Waiters()[ts[i]] == w[ts[i]];
        var e := RemoveFromWaitQ(ts[i], c);
        if e.Err? {
          assert false;
        }
      }
      assert ts[..|ts|] == ts;
    }

    // Client c no longer waits for a reservation.
    method UnReserve(c: ClientId)
      requires Base({}) && NoneIdle() && c in clients && NoDup(clients[c].watched)
      requires forall t :: t in clients[c].watched ==> t in Waiters() && c in Waiters()[t]
      modifies this`clients, this`tubes
      ensures Base({}) && NoneIdle() && View() == Retire(old(View()), c)
    {
      StopWaiting(c);
      Unqueue(clients[c].watched, c);
    }

    method StopWaiting(c: ClientId)
      requires Base({}) && NoneIdle() && c in clients
      modifies this`clients
      ensures Base({}) && NoneIdle()
      ensures View() == old(View()).(clients := old(clients)[c := old(clients)[c].(waiting := false, deadline := MAX_TIME)])
    {
      clients := clients[c := clients[c].(waiting := false, deadline := MAX_TIME)];
      SameTimers(clientHeap.slots, old(clients), clients);
    }

    // ----- reservations ---------------------------------------------------

    // Give the first ready job of tube t to client c.
    method Give(now: int, t: TubeName, c: ClientId) returns (resv: Reservation)
      requires Base({}) && NoneIdle() && t in tubes && tubes[t].ready.slots != []
      requires c in clients && NoDup(clients[c].watched)
      requires forall u :: u in clients[c].watched ==> u in Waiters() && c in Waiters()[u]
      modifies this, Repr
      ensures Base({}) && NoneIdle() && fresh(Repr - old(Repr))
      ensures old(Next(View(), InReady(t))).Some? && (View(), resv) == Match(old(View()), now, t, c)
    {
      hide Base, BaseAt, NoneIdle, Schedule, Next, ReservedJob, Heaps;
      Top(InReady(t));
      BaseKeyed();
      var id := owner[tubes[t].ready.slots[0]];
      assert id in Contents(View(), InReady(t));
      var job := jobs[id];
      var e := Reserve(now, id, c);
      UnReserve(c);
      TimersOwned();
      resv := Reservation(clients[c].reqId, c, job.id, Matched, job.bodySize, job.body);
      UpdateClientTickAt(c);
    }

    // Match a ready job of tube t with client cli, or with the first client
    // in its queue.
    method TryReserveJob(now: int, t: TubeName, cli: Option<ClientId>, ghost loose: set<ClientId>)
      returns (r: Result<Reservation>)
      requires Base({}) && NoneIdle() && InvBut(View(), loose)
      requires cli.Some? ==> cli.value in View().clients && View().clients[cli.value].waiting
      modifies this, Repr
      ensures Base({}) && NoneIdle() && fresh(Repr - old(Repr))
      ensures r.Ok? <==> old(Busy(View(), t))
      ensures r.Err? ==> View() == old(View()) && Repr == old(Repr)
      ensures r.Err? ==> r.error == if t in old(View()).tubes then NoReservationFound else EntryMissing
      ensures r.Ok? ==> var c := if cli.Some? then cli.value else old(View()).tubes[t][0];
              && c in old(clients) && old(Next(View(), InReady(t))).Some?
              && (View(), r.value) == Match(old(View()), now, t, c)
    {
      if t !in tubes {
        return Err(EntryMissing);
      }
      tubes[t].waiting.EmptyIff();
      assert Waiters()[t] == tubes[t].waiting.l;
      HeapEmpty(InReady(t), {});
      if |tubes[t].waiting.m| == 0 {
        return Err(NoReservationFound);
      }
      if |tubes[t].ready.slots| == 0 {
        return Err(NoReservationFound);
      }
      var c;
      if cli.Some? {
        c := cli.value;
      } else {
        var q := tubes[t].waiting.Dequeue();
        if q.Err? {
          assert false;
        }
        c := q.value;
        assert TubeInv(View(), t) && c in View().tubes[t];
      }
      if !clients[c].waiting {
        assert false;
      }
      assert ClientInv(View(), c, loose);
      var resv := Give(now, t, c);
      r := Ok(resv);
    }

    // Record the request of client c.
    method Register(c: ClientId, reqId: RequestId, ts: seq<TubeName>, deadline: int) returns (r: Result<()>)
      requires Base({}) && NoneIdle() && (forall d :: d in roster.l <==> d in clients)
      modifies this`clients, this`roster
      ensures Base({}) && NoneIdle()
      ensures r == if c in old(clients) && old(clients)[c].waiting then Err(ClientIsWaitingForReservation) else Ok(())
      ensures View() == if r.Err? then old(View())
                        else Enroll(old(View()), c, reqId, ts, deadline).(tubes := old(View()).tubes)
    {
      if c !in clients {
        var q := roster.Enqueue(c);
        if q.Err? {
          return Err(EntryExists);
        }
        roster := q.value;
        clients := clients[c := Client(ts, deadline, true, 0, reqId)];
      } else if clients[c].waiting {
        return Err(ClientIsWaitingForReservation);
      } else {
        clients := clients[c := clients[c].(reqId := reqId, watched := ts, deadline := deadline, waiting := true)];
      }
      assert forall d :: d in clientHeap.slots ==> d in clientHeap.Elems();
      SameTimers(clientHeap.slots, old(clients), clients);
      r := Ok(());
    }

    // Client c starts to wait in the queues of the tubes ts.
    method WaitOn(ts: seq<TubeName>, c: ClientId)
      requires Base({}) && NoneIdle() && NoDup(ts) && forall t :: t in Waiters() ==> c !in Waiters()[t]
      modifies this`tubes, this`Repr
      ensures Base({}) && NoneIdle() && fresh(Repr - old(Repr)) && old(Repr) <= Repr
      ensures View() == old(View()).(tubes := Enqueue(old(Waiters()), ts, c))
    {
      ghost var w := Waiters();
      assert Enqueue(w, ts[..0], c) == w;
      for i := 0 to |ts|
        invariant Base({}) && NoneIdle() && fresh(Repr - old(Repr)) && old(Repr) <= Repr
        invariant View() == old(View()).(tubes := Enqueue(w, ts[..i], c))
      {
        EnqueuedOne(w, ts, i, c);
        var e := EnqueueToWaitQ(ts[i], c);
        if e.Err? {
          assert false;
        }
      }
      assert ts[..|ts|] == ts;
    }

    // Try the tubes ts in turn for a job for client c.
    method TryTubes(now: int, ts: seq<TubeName>, c: ClientId) returns (r: Result<Reservation>)
      requires Base({}) && NoneIdle() && InvBut(View(), {c}) && c in View().clients && View().clients[c].waiting
      requires forall t :: t in ts ==> t in View().tubes && c in View().tubes[t]
      modifies this, Repr
      ensures Base({}) && NoneIdle() && fresh(Repr - old(Repr))
      ensures r.Ok? <==> FirstReady(old(View()), ts).Some?
      ensures r.Err? ==> View() == old(View()) && r.error == NoReservationFound
      ensures r.Ok? ==> var t := FirstReady(old(View()), ts).value;
              && old(Next(View(), InReady(t))).Some? && (View(), r.value) == Match(old(View()), now, t, c)
    {
      hide Base, NoneIdle, InvBut, Match, View;
      for i := 0 to |ts|
        invariant Base({}) && NoneIdle() && View() == old(View()) && Repr == old(Repr)
        invariant FirstReady(View(), ts) == FirstReady(View(), ts[i..])
      {
        assert ts[i] in ts && ts[i..][0] == ts[i] && ts[i..][1..] == ts[i + 1..];
        var e := TryReserveJob(now, ts[i], Some(c), {c});
        if e.Ok? {
          return e;
        } else if e.error != NoReservationFound {
          assert false;
        }
      }
      assert Repr - old(Repr) == {};
      r := Err(NoReservationFound);
    }

    lemma RosterOk()
      requires Inv(View())
      ensures forall d :: d in roster.l <==> d in clients
    {
    }

    // Serve client c at once, or let it wait.
    method ServeOrQueue(now: int, ts: seq<TubeName>, c: ClientId) returns (r: Reservation)
      requires Base({}) && NoneIdle() && InvBut(View(), {c}) && c in View().clients && View().clients[c].waiting
      requires forall t :: t in ts ==> t in View().tubes && c in View().tubes[t]
      modifies this, Repr
      ensures Base({}) && NoneIdle() && fresh(Repr - old(Repr))
      ensures match FirstReady(old(View()), ts)
              case Some(t) => old(Next(View(), InReady(t))).Some? && (View(), r) == Match(old(View()), now, t, c)
              case None => View() == Schedule(old(View()), c) && r == Answer(old(View()), c, Queued)
    {
      hide Base, NoneIdle, InvBut, FirstReady, Match, Schedule;
      var e := TryTubes(now, ts, c);
      if e.Ok? {
        return e.value;
      }
      TimersOwned();
      r := Reservation(clients[c].reqId, c, 0, Queued, 0, []);
      UpdateClientTickAt(c);
    }

    // Record the request of client c and let it wait.
    method Enlist(c: ClientId, reqId: RequestId, ts: seq<TubeName>, deadline: int) returns (r: Result<()>)
      requires Valid() && NoDup(ts)
      modifies this`clients, this`roster, this`tubes, this`Repr
      ensures Base({}) && NoneIdle() && fresh(Repr - old(Repr)) && old(Repr) <= Repr
      ensures r == if c in old(clients) && old(clients)[c].waiting then Err(ClientIsWaitingForReservation) else Ok(())
      ensures View() == if r.Err? then old(View()) else Enroll(old(View()), c, reqId, ts, deadline)
    {
      hide Base, NoneIdle, InvBut;
      RosterOk();
      ghost var s := View();
      r := Register(c, reqId, ts, deadline);
      if r.Err? {
        return;
      }
      NotQueued(s, c);
      WaitOn(ts, c);
    }

    method AppendReservation(c: ClientId, reqId: RequestId, watchedTubes: seq<TubeName>, now: int, deadline: int)
      returns (r: Result<Reservation>)
      requires Valid() && ClockOk(now) && NoDup(watchedTubes)
      modifies this, Repr
      ensures Valid() && fresh(Repr - old(Repr))
      ensures (View(), r) == Spec.AppendReservation(old(View()), c, reqId, watchedTubes, now, deadline)
    {
      hide Base, NoneIdle, InvBut, FirstReady, Match, Schedule;
      ghost var s := View();
      AppendReservationInv(s, c, reqId, watchedTubes, now, deadline);
      if deadline < now || deadline > now + MAX_TIMEOUT_SECS {
        return Err(InvalidResvTimeout);
      }
      var e := Enlist(c, reqId, watchedTubes, deadline);
      if e.Err? {
        return Err(e.error);
      }
      EnrollInv(s, c, reqId, watchedTubes, deadline);
      var resv := ServeOrQueue(now, watchedTubes, c);
      r := Ok(resv);
    }

    // Touch as it is written: in no client's name, it moves a job that a client
    // holds to the heap of the client "".
    method Touch(now: int, id: JobId, clientID: ClientId) returns (r: Result<()>)
      requires Valid() && ClockOk(now)
      modifies this, Repr
      ensures fresh(Repr - old(Repr)) && Keyed(old(jobs))
      ensures Valid() <==> OwnTouch(old(View()), id, clientID)
      ensures OwnTouch(old(View()), id, clientID) || "" !in old(clients) ==>
                (View(), r) == Spec.Touch(old(View()), now, id, clientID)
      ensures !OwnTouch(old(View()), id, clientID) ==>
                && Misfiled(id, "") && r == (if "" in old(clients) then Ok(()) else Err(EntryMissing))
                && jobs == old(jobs)[id := old(jobs)[id].UpdateReservation(now)]
    {
      hide Base, BaseAt, NoneIdle, InvBut, QueuesOk;
      BaseKeyed();
      TouchInv(View(), now, id, clientID);
      if id !in jobs {
        return Err(EntryMissing);
      }
      if jobs[id].state != Reserved {
        return Err(InvalidOperation);
      }
      if |clientID| > 0 && jobs[id].reservedBy != clientID {
        return Err(UnauthorizedOperation);
      }
      Apart({});
      Renew(now, id, clientID);
      if clientID !in clients {
        if Misfiled(id, clientID) { NotMisfiled(id, clientID); }
        return Err(EntryMissing);
      }
      UpdateClientTickAt(clientID);
      if Misfiled(id, clientID) { NotMisfiled(id, clientID); }
      r := Ok(());
    }

    // The entry of job id is in the heap of client c, who does not hold the job.
    ghost predicate Misfiled(id: JobId, c: ClientId)
      reads this`jobs, this`entry, this`reserved, if c in reserved then {reserved[c]} else {}
    {
      && c in reserved && id in jobs && id in entry
      && entry[id] in reserved[c].slots && jobs[id].state == Reserved && jobs[id].reservedBy != c
    }

    lemma NotMisfiled(id: JobId, c: ClientId)
      requires Misfiled(id, c)
      ensures !Base({})
    {
      if Base({}) {
        assert entry[id] in HeapAt(HeldBy(c)).Elems();
        EntryPlaced(id);
      }
    }

    // The reservation of job id starts again, in the name of c.
    method Renew(now: int, id: JobId, c: ClientId)
      requires Base({}) && NoneIdle() && id in jobs && jobs[id].state == Reserved
      modifies this`jobs, this`entry, this`owner, this`nextToken, this`reserved, this`Repr, Repr
      ensures NoneIdle() && fresh(Repr - old(Repr))
      ensures View() == SetJob(old(View()), old(jobs)[id].UpdateReservation(now))
      ensures old(jobs)[id].reservedBy == c ==> Base({})
      ensures old(jobs)[id].reservedBy != c ==> Misfiled(id, c)
      ensures QueuesOk() && TopKnown(c) && c in reserved && reserved[c] as object != clientHeap
    {
      hide Base, BaseAt, NoneIdle;
      BaseKeyed();
      Apart({});
      var e := RemoveReserved(id);
      Apart({id});
      Write(jobs[id].UpdateReservation(now));
      var k := EnqueueReserved(c, id);
      StoreEntry(id, k);
    }

    // On top of the heap for p there is an entry that no job of the index has.
    ghost predicate Stuck(p: Place)
      requires !p.HeldBy? && !p.Nowhere?
      reads this`jobs, this`owner, this`tubes, this`Repr, if p.tube in tubes then {TubeHeap(p)} else {}
    {
      && p.tube in tubes && TubeHeap(p) in Repr
      && TubeHeap(p).slots != [] && TubeHeap(p).slots[0] in owner && owner[TubeHeap(p).slots[0]] !in jobs
    }

    // PeekReadyJob, PeekDelayedJob and PeekBuriedJob
    method PeekTube(p: Place) returns (r: Result<JobId>)
      requires !p.HeldBy? && !p.Nowhere? && (Valid() || Stuck(p))
      ensures Valid() ==> r == match Next(View(), p) case None => Err(EntryMissing) case Some(id) => Ok(id)
      ensures Stuck(p) ==> r.Ok? && r.value !in jobs && r.value == owner[TubeHeap(p).slots[0]]
      ensures Valid() == old(Valid())
    {
      if Valid() { Top(p); }
      if p.tube !in tubes {
        return Err(EntryMissing);
      }
      assert TubeHeap(p) == HeapAt(p);
      if |TubeHeap(p).slots| == 0 {
        return Err(EntryMissing);
      }
      r := Ok(owner[TubeHeap(p).slots[0]]);
    }

    // Kick the first buried job of a tube, if there is one.
    method KickFirst(tube: TubeName) returns (r: Result<bool>)
      requires Valid() || Stuck(InBuried(tube))
      modifies this, Repr
      ensures fresh(Repr - old(Repr))
      ensures old(Valid()) ==> Valid() && View() == KickTop(old(View()), tube)
      ensures old(Valid()) ==> r == Ok(Contents(old(View()), InBuried(tube)) != {})
      ensures old(Stuck(InBuried(tube))) ==> r == Err(EntryMissing) && unchanged(this) && unchanged(Repr)
    {
      hide Base, NoneIdle, InvBut, View;
      ghost var s := View();
      var j := PeekTube(InBuried(tube));
      if j.Err? {
        return Ok(false);
      }
      if Valid() {
        InvKeyed(s, {});
        KickOne(s, tube, j.value);
      }
      var e := Kick(j.value);
      if e.Err? {
        return Err(e.error);
      }
      r := Ok(true);
    }

    // Kick at most n jobs of a tube.
    method KickN(tube: TubeName, n: int) returns (r: Result<int>)
      requires Valid() || Stuck(InBuried(tube))
      modifies this, Repr
      ensures fresh(Repr - old(Repr))
      ensures old(Valid()) ==> Valid() && View() == Spec.KickN(old(View()), tube, n)
      ensures old(Valid()) ==> r == Ok(KickCount(old(View()), tube, n))
      ensures old(Stuck(InBuried(tube))) && n > 0 ==> r == Err(EntryMissing) && unchanged(this) && unchanged(Repr)
    {
      hide Base, NoneIdle, Inv, View, KicksOn, Spec.KickN;
      ghost var s := View();
      if Valid() { KickNStart(s, tube, n); }
      var count := 0;
      while count < n
        invariant fresh(Repr - old(Repr))
        invariant old(Valid()) ==> Valid() && KicksOn(s, tube, n, View(), count)
        invariant old(Stuck(InBuried(tube))) ==> count == 0 && unchanged(this) && unchanged(Repr)
      {
        ghost var s1 := View();
        if old(Valid()) { KickNStep(s, s1, tube, n, count); }
        var kicked := KickFirst(tube);
        if kicked == Ok(false) {
          return Ok(count);
        } else if kicked.Err? {
          return Err(kicked.error);
        }
        count := count + 1;
      }
      if old(Valid()) { KickNDone(s, View(), tube, n, count); }
      r := Ok(count);
    }

    // ----- the clock ------------------------------------------------------

    // Make the delayed jobs of tube t ready whose time has come; at is when
    // the next one is due.
    method TickDelayTube(now: int, t: TubeName) returns (at: int)
      requires Base({}) && NoneIdle()
      modifies this`jobs, this`entry, this`owner, this`nextToken, this`tubes, this`Repr, Repr
      ensures Base({}) && NoneIdle() && fresh(Repr - old(Repr))
      ensures View() == UndelayTube(old(View()), now, t) && NextDue(View(), t, at)
    {
      hide Base, NoneIdle, View, UndelayTube;
      ghost var s := View();
      while true
        invariant Base({}) && NoneIdle() && fresh(Repr - old(Repr))
        invariant UndelayTube(View(), now, t) == UndelayTube(s, now, t)
        decreases |Contents(View(), InDelayed(t))|
      {
        BaseKeyed();
        Top(InDelayed(t));
        ghost var v := View();
        if t !in tubes || |tubes[t].delayed.slots| == 0 {
          NoneDue(v, now, t);
          return MAX_TIME;
        }
        var id := owner[tubes[t].delayed.slots[0]];
        if jobs[id].readyAt >= now {
          NoneDue(v, now, t);
          return Min(MAX_TIME, jobs[id].readyAt);
        }
        UndelayOne(v, now, t, id);
        var e := MakeReady(id);
        if e.Err? {
          assert false;
        }
      }
    }

    method TickDelayJobs(now: int)
      requires Base({}) && NoneIdle()
      modifies this, Repr
      ensures Base({}) && NoneIdle() && fresh(Repr - old(Repr)) && View() == TickDelay(old(View()), now)
    {
      hide Base, NoneIdle, View, DelaysLeft, UndelayTube, NextDue;
      ghost var s := View();
      var next := MAX_TIME;
      var todo := tubes.Keys;
      DelayedTubes();
      DelaysStart(s, now);
      while todo != {}
        invariant Base({}) && NoneIdle() && fresh(Repr - old(Repr))
        invariant DelaysLeft(s, View(), now, todo, next)
        decreases todo
      {
        var t :| t in todo;
        ghost var v := View();
        var at := TickDelayTube(now, t);
        DelaysStep(s, v, now, todo, next, t, at);
        next := Min(next, at);
        todo := todo - {t};
      }
      DelaysDone(s, View(), now, next);
      SetNextDelay(next);
    }

    method SetNextDelay(at: int)
      requires Base({}) && NoneIdle()
      modifies this`nextDelayTickAt
      ensures Base({}) && NoneIdle() && View() == old(View()).(nextDelay := at)
    {
      nextDelayTickAt := at;
    }

    lemma DelayedTubes()
      requires Base({})
      ensures View().tubes.Keys == tubes.Keys
      ensures forall id :: id in View().jobs && View().jobs[id].state == Delayed ==> View().jobs[id].tube in View().tubes
    {
    }

    lemma BaseKeyed()
      requires Base({})
      ensures Keyed(jobs) && View().jobs == jobs && View().clients == clients && View().tubes == Waiters()
      ensures View().maxJobId == maxJobId
    {
    }

    // Serve the wait queue of tube t.
    method TickReadyTube(now: int, t: TubeName) returns (rs: seq<Reservation>)
      requires Valid() && ClockOk(now) && t in View().tubes
      modifies this, Repr
      ensures Valid() && fresh(Repr - old(Repr)) && (View(), rs) == TickTube(old(View()), now, t)
    {
      hide Base, NoneIdle, View, InvBut, TubeSplit, TickTube, Match, Busy;
      ghost var s := View();
      rs := [];
      TubeSplitStart(s, now, t);
      while true
        invariant Valid() && fresh(Repr - old(Repr)) && TubeSplit(s, now, t, View(), rs)
        decreases |Contents(View(), InReady(t))|
      {
        ghost var v := View();
        TubeSplitStep(s, now, t, v, rs);
        var r := TryReserveJob(now, t, None, {});
        if r.Ok? {
          rs := rs + [r.value];
        } else if r.error == NoReservationFound {
          break;
        } else {
          assert false;
        }
      }
    }

    // Serve the tubes, in whatever order the map of tubes is ranged over.
    method TickReadyJobs(now: int) returns (rs: seq<Reservation>, ghost order: seq<TubeName>)
      requires Valid() && ClockOk(now)
      modifies this, Repr
      ensures Valid() && fresh(Repr - old(Repr)) && (View(), rs) == TickReady(old(View()), now, order)
      ensures NoDup(order) && forall t :: t in order <==> t in old(View()).tubes
    {
      hide Base, NoneIdle, View, Inv, TickTube, TickReady;
      ghost var s := View();
      rs, order := [], [];
      var todo := tubes.Keys;
      TubeKeys();
      TickReadyNone(s, now);
      while todo != {}
        invariant Valid() && fresh(Repr - old(Repr)) && (View(), rs) == TickReady(s, now, order)
        invariant View().tubes.Keys == s.tubes.Keys && todo <= s.tubes.Keys
        invariant NoDup(order) && forall t :: t in order <==> t in s.tubes && t !in todo
        decreases todo
      {
        var t :| t in todo;
        TickReadyMore(s, now, order, t);
        var r := TickReadyTube(now, t);
        rs, order, todo := rs + r, order + [t], todo - {t};
      }
    }

    lemma TubeKeys()
      ensures View().tubes.Keys == tubes.Keys
    {
    }

    // The client on top of the timer heap wakes first.
    lemma TopTimer()
      requires Base({})
      ensures View().timers <= View().clients.Keys
      ensures FirstTimer(View()) == if clientHeap.slots == [] then None else Some(clientHeap.slots[0])
    {
      TimersFit();
      if clientHeap.slots != [] {
        var c := clientHeap.slots[0];
        TopIsLeast(clientHeap.slots, ClientLess(clients), clients.Keys);
        assert c in clientHeap.Elems();
        FirstTimerUnique(View(), c, FirstTimer(View()).value);
      }
    }

    // clientHeap.Dequeue
    method PopTimer() returns (c: ClientId)
      requires Base({}) && NoneIdle() && clientHeap.slots != []
      modifies clientHeap
      ensures Base({}) && NoneIdle() && c == old(clientHeap.slots[0]) && c in clients
      ensures View() == old(View()).(timers := old(View()).timers - {c})
    {
      TimersFit();
      c := clientHeap.Pop(ClientLess(clients), clients.Keys);
    }

    // End the reservations of client c that are over, and tell it of one that
    // is about to end if it waits.
    method ReleaseLapsed(now: int, c: ClientId) returns (rs: seq<Reservation>)
      requires Base({}) && NoneIdle() && c in View().clients && Wanted(View(), c)
      modifies this, Repr
      ensures Base({}) && NoneIdle() && fresh(Repr - old(Repr))
      ensures Keyed(old(jobs)) && Expired(Expire(old(View()), now, c), now, c, View(), rs)
    {
      hide Base, NoneIdle, View, Expire, Expiring, Expired, Next;
      BaseKeyed();
      ghost var e := Expire(View(), now, c);
      ExpiringStart(View(), now, c);
      rs := [];
      while true
        invariant Base({}) && NoneIdle() && fresh(Repr - old(Repr)) && Expiring(e, now, c, View(), rs)
        decreases |Contents(View(), HeldBy(c))|, c in View().clients && View().clients[c].waiting
      {
        BaseKeyed();
        Top(HeldBy(c));
        ghost var v := View();
        ExpiringFacts(e, now, c, v, rs);
        if c !in reserved || |reserved[c].slots| == 0 {
          ExpiringDone(e, now, c, v, rs);
          break;
        }
        var id := owner[reserved[c].slots[0]];
        if jobs[id].expiresAt < now {
          ExpiringRelease(e, now, c, v, rs, id);
          var r := Release(id, c);
          if r.Err? {
            assert false;
          }
        } else if jobs[id].expiresAt - 1 < now && clients[c].waiting {
          ExpiringWarn(e, now, c, v, rs, id);
          rs := rs + [Reservation(clients[c].reqId, c, 0, DeadlineSoon, 0, [])];
          assert rs == [Answer(v, c, DeadlineSoon)];
          UnReserve(c);
        } else {
          ExpiringDone(e, now, c, v, rs);
          break;
        }
      }
    }

    // Process the client that wakes first.
    method WakeFirst(now: int) returns (rs: seq<Reservation>, c: ClientId)
      requires Valid() && clientHeap.slots != []
      modifies this, Repr
      ensures Base({}) && NoneIdle() && fresh(Repr - old(Repr))
      ensures c == old(clientHeap.slots[0]) && Keyed(old(View()).jobs) && c in old(View()).clients
      ensures (View(), rs) == Wake(old(View()), now, c)
    {
      hide Base, NoneIdle, InvBut, Expire, Expired, Schedule, Wake;
      ghost var s := View();
      BaseKeyed();
      TimersOwned();
      c := PopTimer();
      WaitingWanted(s, c);
      rs := [];
      if clients[c].waiting && now > clients[c].deadline {
        rs := [Reservation(clients[c].reqId, c, 0, Timeout, 0, [])];
        UnReserve(c);
      }
      var warned := ReleaseLapsed(now, c);
      WakeParts(s, now, c, View(), warned);
      rs := rs + warned;
      BaseKeyed();
      TimersOwned();
      UpdateClientTickAt(c);
    }

    method TickClients(now: int) returns (rs: seq<Reservation>)
      requires Valid() && ClockOk(now)
      modifies this, Repr
      ensures Valid() && fresh(Repr - old(Repr)) && (View(), rs) == Ticks.TickClients(old(View()), now)
    {
      hide Base, NoneIdle, View, InvBut, Wake, Ticks.TickClients, ClientsSplit, Overdue, FirstTimer;
      ghost var s := View();
      rs := [];
      ClientsSplitStart(s, now);
      BaseKeyed();
      TopTimer();
      while |clientHeap.slots| > 0
        invariant Valid() && fresh(Repr - old(Repr)) && ClientsSplit(s, now, View(), rs) && View().clients == clients
        invariant View().timers <= View().clients.Keys
        invariant FirstTimer(View()) == if clientHeap.slots == [] then None else Some(clientHeap.slots[0])
        decreases |Overdue(View(), now)|
      {
        ghost var v := View();
        ClientsSplitStep(s, now, v, rs);
        if now <= clients[clientHeap.slots[0]].tickAt {
          return;
        }
        var r, c := WakeFirst(now);
        rs := rs + r;
        BaseKeyed();
        TopTimer();
      }
      ClientsSplitStep(s, now, View(), rs);
    }

    method Tick(now: int) returns (res: seq<Reservation>, ghost order: seq<TubeName>)
      requires Valid() && ClockOk(now)
      modifies this, Repr
      ensures Valid() && fresh(Repr - old(Repr)) && (View(), res) == Ticks.Tick(old(View()), now, order)
      ensures NoDup(order) && forall t :: t in order <==> t in old(View()).tubes
    {
      hide Base, NoneIdle, InvBut, TickDelay, TickReady, Ticks.TickClients;
      ghost var s := View();
      TickDelayInv(s, now);
      TickDelayKeys(s, now);
      if now > nextDelayTickAt {
        SetNextDelay(MAX_TIME);
        TickDelayAgain(s, now);
        TickDelayJobs(now);
      }
      var ready;
      ready, order := TickReadyJobs(now);
      var woken := TickClients(now);
      res := ready + woken;
    }

    // Which of the clients wait for a reservation, which do not, which are unknown.
    method CheckClientState(ids: seq<ClientId>) returns (r: Split)
      ensures r == Classify(View(), ids)
    {
      r := Split([], [], []);
      for i := 0 to |ids|
        invariant r == Classify(View(), ids[..i])
      {
        assert ids[..i + 1][..i] == ids[..i];
        if ids[i] !in clients {
          r := r.(missing := r.missing + [ids[i]]);
        } else if clients[ids[i]].waiting {
          r := r.(waiting := r.waiting + [ids[i]]);
        } else {
          r := r.(notWaiting := r.notWaiting + [ids[i]]);
        }
      }
      assert ids[..|ids|] == ids;
    }

    // ----- totals ---------------------------------------------------------

    // A heap has as many entries as its container has jobs.
    lemma HeapSize(p: Place)
      requires Base({}) && Has(p)
      ensures |HeapAt(p).slots| == |Filed(jobs, p)|
    {
      assert HeapOk(HeapAt(p), p, entry, {}) && Filed(jobs, p) - {} == Filed(jobs, p);
      HeapAt(p).Size();
      TokensCount(owner, entry, Filed(jobs, p));
    }

    method TotalJobCounts() returns (ready: nat, delayed: nat, buried: nat)
      requires Base({})
      ensures ready == |InState(View(), Ready)| && delayed == |InState(View(), Delayed)| && buried == |InState(View(), Buried)|
    {
      ready, delayed, buried := 0, 0, 0;
      var todo := tubes.Keys;
      BaseKeyed();
      NoneCounted(jobs, todo);
      while todo != {}
        invariant todo <= tubes.Keys
        invariant ready == |Counted(jobs, Ready, todo)|
        invariant delayed == |Counted(jobs, Delayed, todo)|
        invariant buried == |Counted(jobs, Buried, todo)|
        decreases todo
      {
        var t :| t in todo;
        HeapSize(InReady(t));
        HeapSize(InDelayed(t));
        HeapSize(InBuried(t));
        TubeCounted(jobs, todo, t);
        assert tubes[t].ready == HeapAt(InReady(t)) && tubes[t].delayed == HeapAt(InDelayed(t)) && tubes[t].buried == HeapAt(InBuried(t));
        ready := ready + |tubes[t].ready.slots|;
        delayed := delayed + |tubes[t].delayed.slots|;
        buried := buried + |tubes[t].buried.slots|;
        todo := todo - {t};
      }
      AllCounted(View());
    }

    // reservedJobsIndex.TotalJobs
    method TotalReserved() returns (n: nat)
      requires Base({})
      ensures n == |InState(View(), Reserved)|
    {
      n := 0;
      var todo := reserved.Keys;
      assert ReservedBy(jobs, todo) == {};
      while todo != {}
        invariant todo <= reserved.Keys && n == |ReservedBy(jobs, todo)|
        decreases todo
      {
        var c :| c in todo;
        HeapSize(HeldBy(c));
        assert reserved[c] == HeapAt(HeldBy(c));
        HolderCounted(jobs, todo, c);
        n := n + |reserved[c].slots|;
        todo := todo - {c};
      }
      assert ReservedBy(jobs, {}) == InState(View(), Reserved);
    }
  }

  // A timer heap depends on the timers only.
  lemma SameTimers(h: seq<ClientId>, clients: map<ClientId, Client>, clients': map<ClientId, Client>)
    requires Ordered(h, ClientLess(clients))
    requires forall d :: d in h ==> d in clients && d in clients' && clients'[d].tickAt == clients[d].tickAt
    ensures Ordered(h, ClientLess(clients'))
  {
    forall j | 1 <= j < |h| ensures Below(h, ClientLess(clients'), j) {
      assert Below(h, ClientLess(clients), j);
      assert h[j] in h && h[Heap.Parent(j)] in h;
    }
  }

  // A timer heap stays one when a client outside it changes or goes.
  lemma OtherClients(h: seq<ClientId>, clients: map<ClientId, Client>, clients': map<ClientId, Client>, c: ClientId)
    requires Ordered(h, ClientLess(clients)) && c !in h
    requires forall d :: d in h ==> d in clients
    requires forall d :: d in clients && d != c ==> d in clients' && clients'[d] == clients[d]
    ensures Ordered(h, ClientLess(clients'))
  {
    forall j | 1 <= j < |h| ensures Below(h, ClientLess(clients'), j) {
      assert Below(h, ClientLess(clients), j);
      assert h[j] in h && h[Heap.Parent(j)] in h;
    }
  }

  // ts is a tube t with empty containers.
  ghost predicate Unused(t: TubeName, ts: TubeState)
    reads ts.delayed, ts.ready, ts.buried
  {
    && ts.delayed.home == InDelayed(t) && ts.ready.home == InReady(t) && ts.buried.home == InBuried(t)
    && ts.waiting == EMPTY_QUEUE
    && ts.delayed.slots == ts.ready.slots == ts.buried.slots == []
    && ts.delayed.Indexed() && ts.ready.Indexed() && ts.buried.Indexed()
  }

  method NewTube(t: TubeName) returns (ts: TubeState)
    ensures fresh(ts.delayed) && fresh(ts.ready) && fresh(ts.buried) && Unused(t, ts)
  {
    var d := new IndexedHeap<Token>(InDelayed(t));
    var r := new IndexedHeap<Token>(InReady(t));
    var b := new IndexedHeap<Token>(InBuried(t));
    ts := TubeState(d, r, EMPTY_QUEUE, b);
  }
}
