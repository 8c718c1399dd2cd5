/** Asking the machine which clients wait for a reservation. */
module ClientCheck {
  import opened Types
  import opened Spec

  datatype Split = Split(waiting: seq<ClientId>, notWaiting: seq<ClientId>, missing: seq<ClientId>)

  // Sort the clients by what the machine knows of them, in the order asked.
  function Classify(s: State, ids: seq<ClientId>): Split {
    if ids == [] then Split([], [], [])
    else
      var rest := Classify(s, ids[..|ids| - 1]);
      var c := ids[|ids| - 1];
      if c !in s.clients then rest.(missing := rest.missing + [c])
      else if s.clients[c].waiting then rest.(waiting := rest.waiting + [c])
      else rest.(notWaiting := rest.notWaiting + [c])
  }

  // The three lists have no client twice and together just the clients ids.
  ghost predicate Splits(ids: seq<ClientId>, r: Split) {
    && NoDup(r.waiting + r.notWaiting + r.missing)
    && (forall c :: c in ids <==> c in r.waiting || c in r.notWaiting || c in r.missing)
  }

  // Each list says what the machine knows.
  lemma {:induction false} Classified(s: State, ids: seq<ClientId>)
    ensures var r := Classify(s, ids);
            forall c ::
              && (c in r.waiting <==> c in ids && c in s.clients && s.clients[c].waiting)
              && (c in r.notWaiting <==> c in ids && c in s.clients && !s.clients[c].waiting)
              && (c in r.missing <==> c in ids && c !in s.clients)
  {
    if ids != [] {
      Classified(s, ids[..|ids| - 1]);
      assert ids == ids[..|ids| - 1] + [ids[|ids| - 1]];
    }
  }

  lemma {:induction false} ClassifiedOnce(s: State, ids: seq<ClientId>)
    requires NoDup(ids)
    ensures var r := Classify(s, ids); NoDup(r.waiting) && NoDup(r.notWaiting) && NoDup(r.missing)
  {
    if ids != [] {
      var rest := ids[..|ids| - 1];
      ClassifiedOnce(s, rest);
      Classified(s, rest);
      assert ids[|ids| - 1] !in rest;
    }
  }

  lemma ClassifySplits(s: State, ids: seq<ClientId>)
    requires NoDup(ids)
    ensures Splits(ids, Classify(s, ids))
  {
    var r := Classify(s, ids);
    Classified(s, ids);
    ClassifiedOnce(s, ids);
    JoinNoDup(r.waiting, r.notWaiting);
    JoinNoDup(r.waiting + r.notWaiting, r.missing);
  }

  lemma JoinNoDup(a: seq<ClientId>, b: seq<ClientId>)
    requires NoDup(a) && NoDup(b) && forall c :: c in a ==> c !in b
    ensures NoDup(a + b)
  {
    forall i, j | 0 <= i < |a| <= j < |a + b| ensures (a + b)[i] != (a + b)[j] {
      assert a[i] in a && b[j - |a|] in b;
    }
  }
}
