/** The proxy's books about the clients that wait for an answer. */
module Proxy {
  import opened Types
  import opened Spec
  import opened ClientCheck

  const NIL_REQUEST: RequestId := "00000000-0000-0000-0000-000000000000"

  function ErrorFor(c: ClientId): Reservation {
    Reservation(NIL_REQUEST, c, 0, ResvStatus.Error, 0, [])
  }

  function ErrorsFor(cs: seq<ClientId>): seq<Reservation> {
    seq(|cs|, i requires 0 <= i < |cs| => ErrorFor(cs[i]))
  }

  // The clients that rs answers.
  function Answered(rs: seq<Reservation>): seq<ClientId> {
    seq(|rs|, i requires 0 <= i < |rs| => rs[i].clientId)
  }

  // The answers of q that are passed on: the first to each client in w.
  function Delivered(q: seq<Reservation>, w: set<ClientId>): seq<Reservation>
    decreases |q|
  {
    if q == [] then []
    else if q[0].clientId in w then [q[0]] + Delivered(q[1..], w - {q[0].clientId})
    else Delivered(q[1..], w)
  }

  // q[i] is the first answer of q to its client.
  ghost predicate First(q: seq<Reservation>, i: int) {
    0 <= i < |q| && forall k :: 0 <= k < i ==> q[k].clientId != q[i].clientId
  }

  // An answer is passed on exactly if it is the first to a waiting client.
  lemma {:induction false} DeliveredIff(q: seq<Reservation>, w: set<ClientId>, r: Reservation)
    ensures r in Delivered(q, w) <==> r.clientId in w && exists i :: First(q, i) && q[i] == r
    decreases |q|
  {
    if q != [] {
      var w' := if q[0].clientId in w then w - {q[0].clientId} else w;
      DeliveredIff(q[1..], w', r);
      if r.clientId in w' && exists i :: First(q[1..], i) && q[1..][i] == r {
        var i :| First(q[1..], i) && q[1..][i] == r;
        if r.clientId != q[0].clientId { FirstLater(q, i + 1); }
      }
      if r.clientId in w && exists i :: First(q, i) && q[i] == r {
        var i :| First(q, i) && q[i] == r;
        if i == 0 { assert r == q[0]; } else { FirstLater(q, i); assert q[1..][i - 1] == r; }
      }
      if r == q[0] { assert First(q, 0); }
    }
  }

  lemma FirstLater(q: seq<Reservation>, i: int)
    requires 1 <= i < |q|
    ensures First(q, i) <==> First(q[1..], i - 1) && q[0].clientId != q[i].clientId
  {
    assert forall k :: 0 <= k < i - 1 ==> q[1..][k] == q[k + 1];
    if First(q[1..], i - 1) && q[0].clientId != q[i].clientId {
      forall k | 0 <= k < i ensures q[k].clientId != q[i].clientId {
        if k > 0 { assert q[1..][k - 1] == q[k]; }
      }
    }
  }

  lemma {:induction false} DeliveredOnce(q: seq<Reservation>, w: set<ClientId>)
    ensures NoDup(Answered(Delivered(q, w)))
    ensures forall c :: c in Answered(Delivered(q, w)) ==> c in w
    decreases |q|
  {
    if q != [] {
      if q[0].clientId in w {
        var rest := Delivered(q[1..], w - {q[0].clientId});
        DeliveredOnce(q[1..], w - {q[0].clientId});
        assert Answered([q[0]] + rest) == [q[0].clientId] + Answered(rest);
      } else {
        DeliveredOnce(q[1..], w);
      }
    }
  }

  lemma ErrorsIff(cs: seq<ClientId>, r: Reservation)
    ensures r in ErrorsFor(cs) <==>
              && r.clientId in cs && r.status == ResvStatus.Error && r.requestId == "00000000-0000-0000-0000-000000000000"
              && r.jobId == 0 && r.bodySize == 0 && r.body == []
  {
    if r.clientId in cs {
      var i :| 0 <= i < |cs| && cs[i] == r.clientId;
      assert ErrorsFor(cs)[i] == ErrorFor(cs[i]);
    }
  }

  // ----- the books --------------------------------------------------------

  // A call to the server, which may fail.
  type Check = seq<ClientId> -> Option<Split>

  // rq:      the answers that have arrived
  // waiting: the clients that wait for one
  // recover: the stream of answers was interrupted
  datatype Books = Books(rq: seq<Reservation>, waiting: set<ClientId>, recover: bool)

  const NO_BOOKS := Books([], {}, false)

  // What happens to the proxy: the server has queued a request, an answer
  // arrives, the stream of answers breaks, or the clock ticks. A tick may ask
  // the server about the clients ids.
  datatype Event =
    | AddEv(client: ClientId)
    | AnswerEv(answer: Reservation)
    | FailEv
    | TickEv(check: Check, ids: seq<ClientId>)

  // The clients that none of the answers that have arrived is for.
  function Left(p: Books): set<ClientId> {
    p.waiting - set c | c in Answered(Delivered(p.rq, p.waiting))
  }

  // What came back when the server was asked about ids; nothing if the call
  // was not needed or failed.
  function Reported(check: Check, ids: seq<ClientId>): Split {
    if ids == [] || check(ids).None? then Split([], [], []) else check(ids).value
  }

  // The clients a tick gives up on.
  function Gone(p: Books, check: Check, ids: seq<ClientId>): seq<ClientId> {
    if p.recover then Reported(check, ids).notWaiting + Reported(check, ids).missing else []
  }

  function Step(p: Books, ev: Event): (Books, seq<Reservation>) {
    match ev
    case AddEv(c) => (p.(waiting := p.waiting + {c}), [])
    case AnswerEv(r) => (p.(rq := p.rq + [r]), [])
    case FailEv => (p.(recover := true), [])
    case TickEv(check, ids) =>
      (Books([], Left(p) - set c | c in Gone(p, check, ids), false),
       Delivered(p.rq, p.waiting) + ErrorsFor(Gone(p, check, ids)))
  }

  ghost predicate ListOf(ids: seq<ClientId>, cs: set<ClientId>) {
    NoDup(ids) && forall c :: c in ids <==> c in cs
  }

  // A tick that asks the server asks about the clients that are left.
  ghost predicate EventOk(p: Books, ev: Event) {
    ev.TickEv? && p.recover ==> ListOf(ev.ids, Left(p))
  }

  // ----- the proxy --------------------------------------------------------

  // What a tick says to whom: the first answer to each client that waits, as it
  // came; and, if the server was asked, an error without a job or request to
  // each client that it reports as not waiting or unknown.
  lemma TickSays(p: Books, check: Check, ids: seq<ClientId>, r: Reservation)
    ensures r in Step(p, TickEv(check, ids)).1 <==>
              || (r.clientId in p.waiting && exists i :: First(p.rq, i) && p.rq[i] == r)
              || (&& p.recover && ids != [] && check(ids).Some?
                  && (r.clientId in check(ids).value.notWaiting || r.clientId in check(ids).value.missing)
                  && r.status == ResvStatus.Error && r.requestId == "00000000-0000-0000-0000-000000000000"
                  && r.jobId == 0 && r.bodySize == 0 && r.body == [])
  {
    DeliveredIff(p.rq, p.waiting, r);
    ErrorsIff(Gone(p, check, ids), r);
  }

  class Client {
    var rq: seq<Reservation>
    var waiting: set<ClientId>
    var recoverClients: bool

    ghost function View(): Books
      reads this
    {
      Books(rq, waiting, recoverClients)
    }

    constructor ()
      ensures View() == NO_BOOKS
    {
      rq, waiting, recoverClients := [], {}, false;
    }

    // The server has queued the request of client c.
    method Add(c: ClientId) returns (r: Result<()>)
      modifies this
      ensures View() == Step(old(View()), AddEv(c)).0
      ensures r == if c in old(waiting) then Err(EntryExists) else Ok(())
    {
      if c in waiting {
        assert waiting + {c} == waiting;
        return Err(EntryExists);
      }
      waiting := waiting + {c};
      r := Ok(());
    }

    // An answer arrives from the server.
    method Enqueue(r: Reservation)
      modifies this
      ensures View() == Step(old(View()), AnswerEv(r)).0
    {
      rq := rq + [r];
    }

    // The stream of answers was interrupted.
    method StreamFailed()
      modifies this
      ensures View() == Step(old(View()), FailEv).0
    {
      recoverClients := true;
    }

    method Drain() returns (entries: seq<Reservation>)
      modifies this`rq
      ensures entries == old(rq) && rq == []
    {
      entries := rq;
      rq := [];
    }

    method Remove(c: ClientId) returns (r: Result<()>)
      modifies this`waiting
      ensures waiting == old(waiting) - {c} && r == if c in old(waiting) then Ok(()) else Err(EntryMissing)
    {
      if c !in waiting {
        return Err(EntryMissing);
      }
      waiting := waiting - {c};
      r := Ok(());
    }

    // Pass on the answers that have arrived.
    method Deliver() returns (result: seq<Reservation>)
      modifies this`rq, this`waiting
      ensures result == Delivered(old(rq), old(waiting)) && rq == [] && waiting == Left(old(View()))
    {
      hide Delivered;
      var entries := Drain();
      result := [];
      DeliveredStart(entries, waiting);
      for i := 0 to |entries|
        invariant result + Delivered(entries[i..], waiting) == Delivered(entries, old(waiting))
        invariant rq == [] && forall c :: c in waiting <==> c in old(waiting) && c !in Answered(result)
      {
        DeliveredStep(entries, i, waiting, result);
        ghost var w := waiting;
        var e := Remove(entries[i].clientId);
        if e.Ok? {
          assert Answered(result + [entries[i]]) == Answered(result) + [entries[i].clientId];
          result := result + [entries[i]];
        } else {
          assert waiting == w;
        }
      }
      DeliveredDone(entries, waiting, result);
    }

    // Answer the clients cs with an error.
    method Reject(cs: seq<ClientId>, result: seq<Reservation>) returns (result': seq<Reservation>)
      modifies this`waiting
      ensures result' == result + ErrorsFor(cs) && waiting == old(waiting) - set c | c in cs
    {
      result' := result;
      for i := 0 to |cs|
        invariant result' == result + ErrorsFor(cs)[..i]
        invariant forall c :: c in waiting <==> c in old(waiting) && c !in cs[..i]
      {
        assert ErrorsFor(cs)[..i + 1] == ErrorsFor(cs)[..i] + [ErrorFor(cs[i])];
        assert cs[..i + 1] == cs[..i] + [cs[i]];
        result' := result' + [ErrorFor(cs[i])];
        var e := Remove(cs[i]);
      }
      assert ErrorsFor(cs)[..|cs|] == ErrorsFor(cs) && cs[..|cs|] == cs;
    }

    // Pass on the answers; after an interruption, ask the server about the
    // clients that still wait and give up on those it does not list as waiting.
    method Tick(check: Check) returns (result: seq<Reservation>, ghost ids: seq<ClientId>)
      modifies this
      ensures EventOk(old(View()), TickEv(check, ids)) && (View(), result) == Step(old(View()), TickEv(check, ids))
    {
      hide Delivered, NoDup;
      ids := [];
      ghost var p := View();
      result := Deliver();
      NobodyGone(p, check, result);
      if !recoverClients {
        return;
      }
      recoverClients := false;
      var waitingIds := AsSlice();
      ids := waitingIds;
      if |waitingIds| == 0 {
        return;
      }
      var r := check(waitingIds);
      if r.None? {
        return;
      }
      result := Reject(r.value.notWaiting, result);
      result := Reject(r.value.missing, result);
      BothGone(p, check, waitingIds);
    }

    // The waiting clients, in some order.
    method AsSlice() returns (ids: seq<ClientId>)
      ensures ListOf(ids, waiting)
    {
      ids := [];
      var todo := waiting;
      while todo != {}
        invariant todo <= waiting && NoDup(ids) && forall c :: c in ids <==> c in waiting && c !in todo
        decreases todo
      {
        var c :| c in todo;
        ids, todo := ids + [c], todo - {c};
      }
    }
  }

  lemma NobodyGone(p: Books, check: Check, result: seq<Reservation>)
    requires result == Delivered(p.rq, p.waiting)
    ensures forall ids :: Gone(p, check, ids) == [] ==> Step(p, TickEv(check, ids)) == (Books([], Left(p), false), result)
  {
    assert ErrorsFor([]) == [] && result + [] == result;
    forall ids | Gone(p, check, ids) == []
      ensures Step(p, TickEv(check, ids)) == (Books([], Left(p), false), result)
    {
      assert Left(p) - (set c | c in Gone(p, check, ids)) == Left(p);
    }
  }

  lemma BothGone(p: Books, check: Check, ids: seq<ClientId>)
    requires p.recover && ids != [] && check(ids).Some?
    ensures var r := check(ids).value;
            Step(p, TickEv(check, ids)) ==
            (Books([], Left(p) - (set c | c in r.notWaiting) - (set c | c in r.missing), false),
             Delivered(p.rq, p.waiting) + ErrorsFor(r.notWaiting) + ErrorsFor(r.missing))
  {
    var r := check(ids).value;
    var gone := r.notWaiting + r.missing;
    assert ErrorsFor(gone) == ErrorsFor(r.notWaiting) + ErrorsFor(r.missing);
    assert Left(p) - (set c | c in gone) == Left(p) - (set c | c in r.notWaiting) - set c | c in r.missing;
    var d := Delivered(p.rq, p.waiting);
    assert d + ErrorsFor(gone) == d + ErrorsFor(r.notWaiting) + ErrorsFor(r.missing);
  }

  lemma DeliveredStart(q: seq<Reservation>, w: set<ClientId>)
    ensures [] + Delivered(q[0..], w) == Delivered(q, w)
  {
    assert q[0..] == q;
  }

  lemma DeliveredStep(q: seq<Reservation>, i: nat, w: set<ClientId>, result: seq<Reservation>)
    requires i < |q|
    ensures if q[i].clientId in w then
              result + [q[i]] + Delivered(q[i + 1..], w - {q[i].clientId}) == result + Delivered(q[i..], w)
            else Delivered(q[i + 1..], w) == Delivered(q[i..], w)
  {
    assert q[i..][0] == q[i] && q[i..][1..] == q[i + 1..];
  }

  lemma DeliveredDone(q: seq<Reservation>, w: set<ClientId>, result: seq<Reservation>)
    ensures result + Delivered(q[|q|..], w) == result
  {
  }

  // ----- one answer per request -------------------------------------------

  // No client is given up on twice, and each was left.
  ghost predicate Fair(p: Books, check: Check, ids: seq<ClientId>) {
    NoDup(Gone(p, check, ids)) && forall c :: c in Gone(p, check, ids) ==> c in Left(p)
  }

  // A server that splits the clients it is asked about is fair.
  lemma SplitsFair(p: Books, check: Check, ids: seq<ClientId>)
    requires EventOk(p, TickEv(check, ids)) && (check(ids).Some? ==> Splits(ids, check(ids).value))
    ensures Fair(p, check, ids)
  {
    if p.recover && ids != [] && check(ids).Some? {
      var r := check(ids).value;
      var all := r.waiting + r.notWaiting + r.missing;
      var gone := r.notWaiting + r.missing;
      assert forall i :: 0 <= i < |gone| ==> gone[i] == all[|r.waiting| + i];
    }
  }

  // The clients that stop waiting are those that are answered, and each is
  // answered once.
  ghost predicate Balanced(p: Books, p': Books, rs: seq<Reservation>) {
    multiset(p.waiting) == multiset(Answered(rs)) + multiset(p'.waiting)
  }

  lemma MultisetOf(cs: seq<ClientId>, w: set<ClientId>)
    ensures NoDup(cs) && (forall c :: c in cs ==> c in w) <==>
              multiset(w) == multiset(cs) + multiset(w - set c | c in cs)
  {
    if NoDup(cs) && forall c :: c in cs ==> c in w {
      forall c ensures multiset(w)[c] == (multiset(cs) + multiset(w - set d | d in cs))[c] { CountOne(cs, c); }
    } else if NoDup(cs) {
      var c :| c in cs && c !in w;
      assert multiset(cs)[c] > 0 && multiset(w)[c] == 0;
    } else {
      var i, j :| 0 <= i < j < |cs| && cs[i] == cs[j];
      CountTwo(cs, i, j);
      assert multiset(w)[cs[i]] <= 1;
    }
  }

  lemma {:induction false} CountOne(cs: seq<ClientId>, c: ClientId)
    requires NoDup(cs)
    ensures multiset(cs)[c] == if c in cs then 1 else 0
  {
    if cs != [] {
      var rest := cs[..|cs| - 1];
      CountOne(rest, c);
      assert cs == rest + [cs[|cs| - 1]];
      assert cs[|cs| - 1] !in rest;
    }
  }

  lemma CountTwo(cs: seq<ClientId>, i: int, j: int)
    requires 0 <= i < j < |cs| && cs[i] == cs[j]
    ensures multiset(cs)[cs[i]] >= 2
  {
    assert cs == cs[..j] + cs[j..];
    assert cs[i] in cs[..j] && cs[j..][0] == cs[j] && cs[j] in cs[j..];
  }

  // A tick answers just the clients that stop waiting, each once, if and only
  // if the server's answer is fair.
  lemma TickBalanced(p: Books, check: Check, ids: seq<ClientId>)
    ensures var (p', rs) := Step(p, TickEv(check, ids)); Balanced(p, p', rs) <==> Fair(p, check, ids)
  {
    var d, gone := Delivered(p.rq, p.waiting), Gone(p, check, ids);
    DeliveredOnce(p.rq, p.waiting);
    MultisetOf(Answered(d), p.waiting);
    MultisetOf(gone, Left(p));
    assert Answered(d + ErrorsFor(gone)) == Answered(d) + gone;
    Cancel(multiset(Answered(d)), multiset(Left(p)), multiset(gone) + multiset(Left(p) - set c | c in gone));
  }

  lemma Cancel(a: multiset<ClientId>, b: multiset<ClientId>, c: multiset<ClientId>)
    ensures a + b == a + c <==> b == c
  {
    if a + b == a + c {
      forall x ensures b[x] == c[x] { assert (a + b)[x] == (a + c)[x]; }
    }
  }

  // ----- runs -------------------------------------------------------------

  // The books after the events, the answers given and the requests queued.
  function After(p: Books, evs: seq<Event>): Books
    decreases |evs|
  {
    if evs == [] then p else After(Step(p, evs[0]).0, evs[1..])
  }

  function Given(p: Books, evs: seq<Event>): seq<Reservation>
    decreases |evs|
  {
    if evs == [] then [] else Step(p, evs[0]).1 + Given(Step(p, evs[0]).0, evs[1..])
  }

  function Queued(p: Books, evs: seq<Event>): seq<ClientId>
    decreases |evs|
  {
    if evs == [] then []
    else Entered(p, evs[0]) + Queued(Step(p, evs[0]).0, evs[1..])
  }

  ghost predicate RunOk(p: Books, evs: seq<Event>)
    decreases |evs|
  {
    evs == [] || (EventOk(p, evs[0]) && RunOk(Step(p, evs[0]).0, evs[1..]))
  }

  ghost predicate FairRun(p: Books, evs: seq<Event>)
    decreases |evs|
  {
    evs == [] || ((evs[0].TickEv? ==> Fair(p, evs[0].check, evs[0].ids)) && FairRun(Step(p, evs[0]).0, evs[1..]))
  }

  // Over any run the requests queued are the answers given and the clients that
  // still wait: one answer per request, and none without one.
  lemma {:induction false} OnePerRequest(p: Books, evs: seq<Event>)
    requires FairRun(p, evs)
    ensures multiset(Queued(p, evs)) + multiset(p.waiting) ==
            multiset(Answered(Given(p, evs))) + multiset(After(p, evs).waiting)
    decreases |evs|
  {
    hide Step, Fair, Entered;
    if evs != [] {
      var (p1, r1) := Step(p, evs[0]);
      var q1, q2, r2, p2 := Entered(p, evs[0]), Queued(p1, evs[1..]), Given(p1, evs[1..]), After(p1, evs[1..]);
      OnePerRequest(p1, evs[1..]);
      StepBalanced(p, evs[0]);
      assert Answered(r1 + r2) == Answered(r1) + Answered(r2);
      SumUp(multiset(q1), multiset(p.waiting), multiset(Answered(r1)), multiset(p1.waiting),
            multiset(q2), multiset(Answered(r2)), multiset(p2.waiting));
    }
  }

  lemma SumUp(q1: multiset<ClientId>, w: multiset<ClientId>, a1: multiset<ClientId>, w1: multiset<ClientId>,
              q2: multiset<ClientId>, a2: multiset<ClientId>, w2: multiset<ClientId>)
    requires q1 + w == a1 + w1 && q2 + w1 == a2 + w2
    ensures q1 + q2 + w == a1 + a2 + w2
  {
    assert q1 + q2 + w == q1 + w + q2 == a1 + w1 + q2 == a1 + (q2 + w1);
  }

  // The request that the event enters into the books.
  function Entered(p: Books, ev: Event): seq<ClientId> {
    if ev.AddEv? && ev.client !in p.waiting then [ev.client] else []
  }

  lemma StepBalanced(p: Books, ev: Event)
    requires ev.TickEv? ==> Fair(p, ev.check, ev.ids)
    ensures multiset(Entered(p, ev)) + multiset(p.waiting) == multiset(Answered(Step(p, ev).1)) + multiset(Step(p, ev).0.waiting)
  {
    match ev
    case AddEv(c) =>
      var w := p.waiting + {c};
      assert c in p.waiting ==> w == p.waiting;
      assert c !in p.waiting ==> multiset(w) == multiset(p.waiting) + multiset{c};
    case AnswerEv(r) =>
    case FailEv =>
    case TickEv(check, ids) => TickBalanced(p, check, ids);
  }

  // ----- the lost recovery ------------------------------------------------

  // Nobody will ask about client c, and no answer to it has arrived.
  predicate Forgotten(p: Books, c: ClientId) {
    c in p.waiting && !p.recover && forall i :: 0 <= i < |p.rq| ==> p.rq[i].clientId != c
  }

  // The event may bring client c an answer.
  predicate Helps(ev: Event, c: ClientId) {
    ev.FailEv? || (ev.AnswerEv? && ev.answer.clientId == c)
  }

  lemma {:induction false} NotDelivered(q: seq<Reservation>, w: set<ClientId>, c: ClientId)
    requires forall i :: 0 <= i < |q| ==> q[i].clientId != c
    ensures c !in Answered(Delivered(q, w))
    decreases |q|
  {
    if q != [] {
      assert forall i :: 0 <= i < |q| - 1 ==> q[1..][i] == q[i + 1];
      var w' := if q[0].clientId in w then w - {q[0].clientId} else w;
      NotDelivered(q[1..], w', c);
      if q[0].clientId in w {
        assert Answered(Delivered(q, w)) == [q[0].clientId] + Answered(Delivered(q[1..], w'));
      }
    }
  }

  lemma ForgottenStep(p: Books, ev: Event, c: ClientId)
    requires Forgotten(p, c) && !Helps(ev, c)
    ensures Forgotten(Step(p, ev).0, c) && c !in Answered(Step(p, ev).1)
  {
    NotDelivered(p.rq, p.waiting, c);
    if ev.TickEv? {
      assert Delivered(p.rq, p.waiting) + ErrorsFor([]) == Delivered(p.rq, p.waiting);
    }
  }

  // It waits for ever, through any number of ticks whose checks are all good,
  // unless the stream breaks again or an answer to it arrives after all.
  lemma {:induction false} ForgottenRun(p: Books, evs: seq<Event>, c: ClientId)
    requires Forgotten(p, c) && forall i :: 0 <= i < |evs| ==> !Helps(evs[i], c)
    ensures Forgotten(After(p, evs), c) && c !in Answered(Given(p, evs))
    decreases |evs|
  {
    if evs != [] {
      var (p1, r1) := Step(p, evs[0]);
      ForgottenStep(p, evs[0], c);
      assert forall i :: 0 <= i < |evs| - 1 ==> evs[1..][i] == evs[i + 1];
      ForgottenRun(p1, evs[1..], c);
      assert Answered(r1 + Given(p1, evs[1..])) == Answered(r1) + Answered(Given(p1, evs[1..]));
    }
  }

  // A tick that should have recovered the clients, but whose check fails, leaves
  // every client that it does not answer forgotten.
  lemma FailedCheckForgets(p: Books, check: Check, ids: seq<ClientId>, evs: seq<Event>, c: ClientId)
    requires p.recover && check(ids).None? && c in Left(p)
    requires forall i :: 0 <= i < |evs| ==> !Helps(evs[i], c)
    ensures var p' := Step(p, TickEv(check, ids)).0;
            c !in Answered(Step(p, TickEv(check, ids)).1) && c in After(p', evs).waiting && c !in Answered(Given(p', evs))
  {
    var (p', rs) := Step(p, TickEv(check, ids));
    assert rs == Delivered(p.rq, p.waiting);
    ForgottenRun(p', evs, c);
  }

  // Client c waits for a reservation at the server.
  predicate ServerWaits(server: State, c: ClientId) {
    c in server.clients && server.clients[c].waiting
  }

  // After a tick that was to recover the clients, just those that wait at the
  // server wait at the proxy if and only if the check came through or there was
  // nothing to recover.
  lemma RecoveredIff(p: Books, server: State, check: Check, ids: seq<ClientId>)
    requires p.recover && ListOf(ids, Left(p)) && (check(ids).Some? ==> check(ids).value == Classify(server, ids))
    ensures (forall c :: c in Step(p, TickEv(check, ids)).0.waiting <==> c in Left(p) && ServerWaits(server, c))
            <==> check(ids).Some? || forall c :: c in Left(p) ==> ServerWaits(server, c)
  {
    Classified(server, ids);
    var p' := Step(p, TickEv(check, ids)).0;
    if ids == [] {
      assert Left(p) == {};
    } else if check(ids).None? {
      assert p'.waiting == Left(p);
    }
  }

  // A call that fails, and the answer of a server without clients.
  function NoReply(ids: seq<ClientId>): Option<Split> {
    None
  }

  function EmptyServer(ids: seq<ClientId>): Option<Split> {
    Some(Classify(EMPTY, ids))
  }

  lemma RunCons(p: Books, ev: Event, evs: seq<Event>)
    ensures After(p, [ev] + evs) == After(Step(p, ev).0, evs) && Given(p, [ev] + evs) == Step(p, ev).1 + Given(Step(p, ev).0, evs)
    ensures RunOk(p, [ev] + evs) <==> EventOk(p, ev) && RunOk(Step(p, ev).0, evs)
  {
    assert ([ev] + evs)[1..] == evs;
  }

  // A request is queued, the stream breaks, the check of the next tick fails:
  // the tick after it does not ask any more, although the server knows nothing
  // of the client.
  lemma NeverAsked()
    ensures var evs := [AddEv("c"), FailEv, TickEv(NoReply, ["c"]), TickEv(EmptyServer, [])];
            && RunOk(NO_BOOKS, evs) && Given(NO_BOOKS, evs) == [] && After(NO_BOOKS, evs) == Books([], {"c"}, false)
  {
    var w: Books := Books([], {"c"}, false);
    var e1, e2, e3, e4 := AddEv("c"), FailEv, TickEv(NoReply, ["c"]), TickEv(EmptyServer, []);
    assert {} + {"c"} == {"c"};
    NobodyGone(w.(recover := true), NoReply, []);
    NobodyGone(w, EmptyServer, []);
    assert Step(NO_BOOKS, e1) == (w, []);
    assert Step(w, e2) == (w.(recover := true), []) && Left(w.(recover := true)) == {"c"};
    assert Gone(w.(recover := true), NoReply, ["c"]) == [];
    assert Step(w.(recover := true), e3) == (w, []);
    assert Step(w, e4) == (w, []);
    RunCons(NO_BOOKS, e1, [e2, e3, e4]);
    RunCons(w, e2, [e3, e4]);
    RunCons(w.(recover := true), e3, [e4]);
    RunCons(w, e4, []);
    assert [e1] + [e2, e3, e4] == [e1, e2, e3, e4] && [e2] + [e3, e4] == [e2, e3, e4] && [e3] + [e4] == [e3, e4] && [e4] + [] == [e4];
  }

  // The same on the proxy itself.
  method ForgetsClient() returns (answers: seq<Reservation>, left: set<ClientId>)
    ensures answers == [] && left == {"c"}
  {
    var p := new Client();
    var e := p.Add("c");
    p.StreamFailed();
    NobodyGone(p.View(), NoReply, []);
    var r1, ids1 := p.Tick(NoReply);
    assert p.waiting == {"c"};
    NobodyGone(p.View(), EmptyServer, []);
    var r2, ids2 := p.Tick(EmptyServer);
    answers, left := r1 + r2, p.waiting;
  }
}
