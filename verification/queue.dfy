/** A queue of clients that also answers membership by id. */
module Queue {
  import opened Types

  // l is the linked list, in order of arrival; m the index of its elements.
  datatype ClientQueue = ClientQueue(l: seq<ClientId>, m: set<ClientId>)
  {
    // The index and the list agree.
    ghost predicate Valid() {
      NoDup(l) && forall c :: c in m <==> c in l
    }

    lemma EmptyIff()
      requires Valid()
      ensures m == {} <==> l == []
    {
      if l != [] { assert l[0] in m; }
    }

    function Enqueue(c: ClientId): (r: Result<ClientQueue>)
      requires Valid()
      ensures r.Err? <==> c in l
      ensures r.Ok? ==> r.value.Valid() && r.value.l == l + [c]
    {
      if c in m then Err(EntryExists) else Ok(ClientQueue(l + [c], m + {c}))
    }

    function Remove(c: ClientId): (r: Result<ClientQueue>)
      requires Valid()
      ensures r.Err? <==> c !in l
      ensures r.Ok? ==> r.value.Valid() && r.value.l == Without(l, c)
    {
      WithoutMembers(l, c);
      if c !in m then Err(EntryMissing) else Ok(ClientQueue(Without(l, c), m - {c}))
    }

    // The client at the head of the queue, which stays there.
    function Dequeue(): (r: Result<ClientId>)
      requires Valid()
      ensures r == if m == {} then Err(ContainerEmpty) else Ok(l[0])
    {
      assert l != [] ==> l[0] in m;
      if |l| == 0 then Err(ContainerEmpty) else Ok(l[0])
    }
  }

  const EMPTY_QUEUE := ClientQueue([], {})

  lemma {:induction false} WithoutNone(s: seq<ClientId>, c: ClientId)
    requires c !in s
    ensures Without(s, c) == s
  {
    if s != [] {
      WithoutNone(s[1..], c);
      assert s == [s[0]] + s[1..];
    }
  }
}
