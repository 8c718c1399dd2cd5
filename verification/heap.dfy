/** The binary heap of the container/heap package, over entries that know
    their own position. */
module Heap {
  import opened Types

  // ----- order ------------------------------------------------------------

  // less orders the three entries strictly and totally.
  ghost predicate Orders<E>(less: (E, E) -> bool, a: E, b: E, c: E) {
    && (a != b ==> less(a, b) != less(b, a))
    && !less(a, a)
    && (less(a, b) && less(b, c) ==> less(a, c))
  }

  // less is a strict total order on xs.
  ghost predicate TotalOn<E>(less: (E, E) -> bool, xs: set<E>) {
    forall a, b, c {:trigger Orders(less, a, b, c)} :: a in xs && b in xs && c in xs ==> Orders(less, a, b, c)
  }

  // If b does not come before a, nor c before b, then c does not come before a.
  lemma NotBefore<E>(less: (E, E) -> bool, xs: set<E>, a: E, b: E, c: E)
    requires TotalOn(less, xs) && a in xs && b in xs && c in xs
    requires !less(b, a) && !less(c, b)
    ensures !less(c, a)
  {
    assert Orders(less, c, a, b) && Orders(less, a, b, c) && Orders(less, b, c, a);
  }

  function Parent(j: int): int
    requires 1 <= j
  {
    (j - 1) / 2
  }

  // Entry j does not come before its parent.
  ghost predicate Below<E>(s: seq<E>, less: (E, E) -> bool, j: int)
    requires 1 <= j < |s|
  {
    !less(s[j], s[Parent(j)])
  }

  // The first n slots are a heap, as far as the parents at lo and beyond go.
  ghost predicate OrderedFrom<E>(s: seq<E>, less: (E, E) -> bool, lo: int, n: int)
    requires 0 <= lo && n <= |s|
  {
    forall j :: 1 <= j < n && Parent(j) >= lo ==> Below(s, less, j)
  }

  ghost predicate Ordered<E>(s: seq<E>, less: (E, E) -> bool) {
    OrderedFrom(s, less, 0, |s|)
  }

  // ... except that the entry at k may belong further up,
  ghost predicate UpTo<E>(s: seq<E>, less: (E, E) -> bool, lo: int, n: int, k: int)
    requires 0 <= lo <= k < n <= |s|
  {
    && (forall j :: 1 <= j < n && Parent(j) >= lo && j != k ==> Below(s, less, j))
    && Bridged(s, less, lo, n, k)
  }

  // ... or further down,
  ghost predicate DownFrom<E>(s: seq<E>, less: (E, E) -> bool, lo: int, n: int, k: int)
    requires 0 <= lo <= k < n <= |s|
  {
    && (forall j :: 1 <= j < n && Parent(j) >= lo && Parent(j) != k ==> Below(s, less, j))
    && Bridged(s, less, lo, n, k)
  }

  // ... or either.
  ghost predicate Around<E>(s: seq<E>, less: (E, E) -> bool, lo: int, n: int, k: int)
    requires 0 <= lo <= k < n <= |s|
  {
    && (forall j :: 1 <= j < n && Parent(j) >= lo && j != k && Parent(j) != k ==> Below(s, less, j))
    && Bridged(s, less, lo, n, k)
  }

  // The children of k do not come before the parent of k.
  ghost predicate Bridged<E>(s: seq<E>, less: (E, E) -> bool, lo: int, n: int, k: int)
    requires 0 <= lo <= k < n <= |s|
  {
    k > 0 && Parent(k) >= lo ==>
      && (2 * k + 1 < n ==> !less(s[2 * k + 1], s[Parent(k)]))
      && (2 * k + 2 < n ==> !less(s[2 * k + 2], s[Parent(k)]))
  }

  function Swapped<E>(s: seq<E>, i: int, j: int): seq<E>
    requires 0 <= i < |s| && 0 <= j < |s|
  {
    s[i := s[j]][j := s[i]]
  }

  ghost predicate Members<E>(s: seq<E>, xs: set<E>) {
    forall i :: 0 <= i < |s| ==> s[i] in xs
  }

  lemma SwapUp<E>(s: seq<E>, less: (E, E) -> bool, xs: set<E>, lo: int, n: int, k: int)
    requires 0 <= lo <= k < n <= |s| && 1 <= k && Parent(k) >= lo && Members(s, xs) && TotalOn(less, xs)
    requires UpTo(s, less, lo, n, k) && less(s[k], s[Parent(k)])
    ensures UpTo(Swapped(s, Parent(k), k), less, lo, n, Parent(k))
    ensures Swapped(s, Parent(k), k)[n..] == s[n..]
  {
    var i := Parent(k);
    var s' := Swapped(s, i, k);
    assert Orders(less, s[k], s[i], s[k]);
    forall j | 1 <= j < n && Parent(j) >= lo && j != i ensures Below(s', less, j) {
      if j != k {
        assert Below(s, less, j);
        if Parent(j) == i { NotBefore(less, xs, s[k], s[i], s[j]); }
      }
    }
    if i > 0 && Parent(i) >= lo {
      assert Below(s, less, i);
      forall c | (c == 2 * i + 1 || c == 2 * i + 2) && c < n ensures !less(s'[c], s'[Parent(i)]) {
        if c != k {
          assert Below(s, less, c);
          NotBefore(less, xs, s[Parent(i)], s[i], s[c]);
        }
      }
    }
  }

  // j is the first of the children of k.
  ghost predicate FirstChild<E>(s: seq<E>, less: (E, E) -> bool, n: int, k: int, j: int)
    requires 0 <= k < n <= |s| && 0 <= j < n
  {
    && (j == 2 * k + 1 || j == 2 * k + 2)
    && (2 * k + 1 < n ==> !less(s[2 * k + 1], s[j]))
    && (2 * k + 2 < n ==> !less(s[2 * k + 2], s[j]))
  }

  lemma SwapDown<E>(s: seq<E>, less: (E, E) -> bool, xs: set<E>, lo: int, n: int, k: int, j: int)
    requires 0 <= lo <= k < n <= |s| && 0 <= j < n && Members(s, xs) && TotalOn(less, xs)
    requires Around(s, less, lo, n, k) && FirstChild(s, less, n, k, j) && less(s[j], s[k])
    ensures DownFrom(Swapped(s, k, j), less, lo, n, j) && Around(Swapped(s, k, j), less, lo, n, j)
    ensures Swapped(s, k, j)[n..] == s[n..]
  {
    var s' := Swapped(s, k, j);
    assert Orders(less, s[j], s[k], s[j]);
    forall c | 1 <= c < n && Parent(c) >= lo && Parent(c) != j ensures Below(s', less, c) {
      if c != k && Parent(c) != k { assert Below(s, less, c); }
    }
    if 2 * j + 1 < n { assert Below(s, less, 2 * j + 1); }
    if 2 * j + 2 < n { assert Below(s, less, 2 * j + 2); }
  }

  // A heap has its first entry on top.
  lemma {:induction false} TopIsFirst<E>(s: seq<E>, less: (E, E) -> bool, xs: set<E>, j: int)
    requires 0 <= j < |s| && Members(s, xs) && TotalOn(less, xs) && Ordered(s, less)
    ensures !less(s[j], s[0])
    decreases j
  {
    if j == 0 {
      assert Orders(less, s[0], s[0], s[0]);
    } else {
      assert Below(s, less, j);
      TopIsFirst(s, less, xs, Parent(j));
      NotBefore(less, xs, s[0], s[Parent(j)], s[j]);
    }
  }

  // Putting an arbitrary entry in slot k of a heap.
  lemma Replaced<E>(s: seq<E>, s': seq<E>, less: (E, E) -> bool, xs: set<E>, n: int, k: int)
    requires 0 <= k < n <= |s'| && n <= |s| && Members(s, xs) && TotalOn(less, xs) && OrderedFrom(s, less, 0, n)
    requires forall j :: 0 <= j < n && j != k ==> s'[j] == s[j]
    ensures Around(s', less, 0, n, k)
  {
    forall j | 1 <= j < n && j != k && Parent(j) != k ensures Below(s', less, j) {
      assert Below(s, less, j);
    }
    if k > 0 {
      assert Below(s, less, k);
      forall c | (c == 2 * k + 1 || c == 2 * k + 2) && c < n ensures !less(s'[c], s'[Parent(k)]) {
        assert Below(s, less, c);
        NotBefore(less, xs, s[Parent(k)], s[k], s[c]);
      }
    }
  }

  // Giving the entry in slot k another key, which changes its order only.
  lemma Rekeyed<E>(s: seq<E>, less: (E, E) -> bool, less': (E, E) -> bool, xs: set<E>, k: int)
    requires 0 <= k < |s| && Members(s, xs) && TotalOn(less, xs) && Ordered(s, less)
    requires forall i, j :: 0 <= i < |s| && 0 <= j < |s| && i != k && j != k ==> less'(s[i], s[j]) == less(s[i], s[j])
    ensures Around(s, less', 0, |s|, k)
  {
    Replaced(s, s, less, xs, |s|, k);
    forall j | 1 <= j < |s| && j != k && Parent(j) != k ensures Below(s, less', j) {
      assert Below(s, less, j);
    }
  }

  // ----- the heap ---------------------------------------------------------

  class IndexedHeap<E(==)> {
    // Which container this is.
    ghost const home: Place

    var slots: seq<E>

    // The position of each entry; negative for an entry that was taken out.
    var index: map<E, int>

    constructor (ghost home: Place)
      ensures slots == [] && index == map[] && this.home == home
    {
      this.home := home;
      slots, index := [], map[];
    }

    // Every entry knows its position.
    ghost predicate Indexed()
      reads this
    {
      && (forall i :: 0 <= i < |slots| ==> slots[i] in index && index[slots[i]] == i)
      && (forall x :: x in index && index[x] >= 0 ==> index[x] < |slots| && slots[index[x]] == x)
    }

    ghost predicate Valid(less: (E, E) -> bool)
      reads this
    {
      Indexed() && Ordered(slots, less)
    }

    ghost function Elems(): set<E>
      reads this
    {
      set x | x in slots
    }

    // Entries of the heap, as far as the order of xs is concerned.
    ghost predicate Fits(less: (E, E) -> bool, xs: set<E>)
      reads this
    {
      Indexed() && Members(slots, xs) && TotalOn(less, xs)
    }

    // An entry of the heap knows its position.
    lemma Position(x: E)
      requires Indexed() && x in Elems()
      ensures x in index && 0 <= index[x] < |slots| && slots[index[x]] == x
    {
    }

    lemma Within(less: (E, E) -> bool, xs: set<E>)
      requires Indexed() && Elems() <= xs && TotalOn(less, xs)
      ensures Fits(less, xs)
    {
      forall i | 0 <= i < |slots| ensures slots[i] in xs {
        assert slots[i] in Elems();
      }
    }

    lemma Size()
      requires Indexed()
      ensures |slots| == |Elems()|
    {
      Distinct(slots);
    }

    method Swap(i: int, j: int)
      requires Indexed() && 0 <= i < |slots| && 0 <= j < |slots|
      modifies this
      ensures Indexed() && slots == Swapped(old(slots), i, j) && Elems() == old(Elems()) && index.Keys == old(index).Keys
    {
      ghost var was := slots;
      slots := slots[i := slots[j]][j := slots[i]];
      index := index[slots[i] := i];
      index := index[slots[j] := j];
      SameElems(was, i, j);
    }

    // Move the entry at j0 up, within the first n slots, to where it belongs.
    method Up(j0: int, ghost n: int, less: (E, E) -> bool, ghost xs: set<E>)
      requires Fits(less, xs) && 0 <= j0 < n <= |slots| && UpTo(slots, less, 0, n, j0)
      modifies this
      ensures Fits(less, xs) && |slots| == old(|slots|) && slots[n..] == old(slots[n..])
      ensures Elems() == old(Elems()) && index.Keys == old(index).Keys
      ensures OrderedFrom(slots, less, 0, n)
    {
      var j := j0;
      while true
        invariant Fits(less, xs) && 0 <= j < n && |slots| == old(|slots|) && slots[n..] == old(slots[n..])
        invariant Elems() == old(Elems()) && index.Keys == old(index).Keys
        invariant UpTo(slots, less, 0, n, j)
        decreases j
      {
        var i := if j == 0 then 0 else (j - 1) / 2;
        if i == j || !less(slots[j], slots[i]) {
          break;
        }
        SwapUp(slots, less, xs, 0, n, j);
        Swap(i, j);
        j := i;
      }
    }

    // Move the entry at i0 down, within the first n slots, to where it belongs.
    method Down(i0: int, n: int, less: (E, E) -> bool, ghost xs: set<E>, ghost lo: int) returns (moved: bool)
      requires Fits(less, xs) && 0 <= lo <= i0 < n <= |slots| && Around(slots, less, lo, n, i0)
      modifies this
      ensures Fits(less, xs) && |slots| == old(|slots|) && slots[n..] == old(slots[n..])
      ensures Elems() == old(Elems()) && index.Keys == old(index).Keys
      ensures moved <==> !NoneAbove(old(slots), less, n, i0)
      ensures if moved then OrderedFrom(slots, less, lo, n)
              else slots == old(slots) && UpTo(slots, less, lo, n, i0)
    {
      var i := i0;
      while true
        invariant Fits(less, xs) && i0 <= i < n && |slots| == old(|slots|) && slots[n..] == old(slots[n..])
        invariant Elems() == old(Elems()) && index.Keys == old(index).Keys
        invariant Around(slots, less, lo, n, i)
        invariant if i == i0 then slots == old(slots)
                  else DownFrom(slots, less, lo, n, i) && !NoneAbove(old(slots), less, n, i0)
        decreases n - i
      {
        var j := ChildAbove(slots, less, n, i);
        ChildAboveFacts(slots, less, xs, n, i);
        if j < 0 {
          break;
        }
        SwapDown(slots, less, xs, lo, n, i, j);
        Swap(i, j);
        i := j;
      }
      Settle(slots, less, lo, n, i);
      moved := i > i0;
    }

    // Add an entry at the end, without regard to order.
    method Append(x: E)
      requires Indexed() && x !in Elems()
      modifies this
      ensures Indexed() && slots == old(slots) + [x] && Elems() == old(Elems()) + {x}
      ensures index.Keys == old(index).Keys + {x}
    {
      index := index[x := |slots|];
      slots := slots + [x];
    }

    // Take the last entry off.
    method DropLast() returns (x: E)
      requires Indexed() && slots != []
      modifies this
      ensures Indexed() && x == old(slots[|slots| - 1]) && slots == old(slots[..|slots| - 1])
      ensures Elems() == old(Elems()) - {x} && x in old(Elems()) && index == old(index)[x := -1]
    {
      x := slots[|slots| - 1];
      assert slots == slots[..|slots| - 1] + [x];
      index := index[x := -1];
      slots := slots[..|slots| - 1];
    }

    // heap.Push
    method Push(x: E, less: (E, E) -> bool, ghost xs: set<E>)
      requires Fits(less, xs) && Valid(less) && x in xs && x !in Elems()
      modifies this
      ensures Fits(less, xs) && Valid(less) && Elems() == old(Elems()) + {x} && index.Keys == old(index).Keys + {x}
    {
      ghost var was := slots;
      Append(x);
      assert UpTo(slots, less, 0, |slots|, |slots| - 1) by {
        forall j | 1 <= j < |slots| - 1 ensures Below(slots, less, j) { assert Below(was, less, j); }
      }
      Up(|slots| - 1, |slots|, less, xs);
    }

    // heap.Pop
    method Pop(less: (E, E) -> bool, ghost xs: set<E>) returns (x: E)
      requires Fits(less, xs) && Valid(less) && slots != []
      modifies this
      ensures Fits(less, xs) && Valid(less) && Elems() == old(Elems()) - {x} && index.Keys == old(index).Keys
      ensures x == old(slots[0]) && x in old(Elems()) && forall y :: y in old(Elems()) && y != x ==> less(x, y)
    {
      ghost var was := slots;
      var n := |slots| - 1;
      TopIsLeast(slots, less, xs);
      Swap(0, n);
      if n > 0 {
        Replaced(was, slots, less, xs, n, 0);
        var moved := Down(0, n, less, xs, 0);
        Topmost(slots, less, n);
      }
      assert slots[n] == was[0];
      ghost var full := slots;
      x := DropLast();
      Shorter(full, less, n);
    }

    // heap.Remove
    method Remove(i: int, less: (E, E) -> bool, ghost xs: set<E>) returns (x: E)
      requires Fits(less, xs) && Valid(less) && 0 <= i < |slots|
      modifies this
      ensures Fits(less, xs) && Valid(less) && Elems() == old(Elems()) - {x} && index.Keys == old(index).Keys
      ensures x == old(slots[i]) && x in old(Elems())
    {
      hide OrderedFrom, Around, UpTo, DownFrom, TotalOn, NoneAbove;
      ghost var was := slots;
      var n := |slots| - 1;
      Prefix(was, less, n);
      if n != i {
        Swap(i, n);
        Replaced(was, slots, less, xs, n, i);
        var moved := Down(i, n, less, xs, 0);
        if !moved {
          Up(i, n, less, xs);
        }
      }
      assert slots[n] == was[i] by { assert slots[n..][0] == slots[n]; }
      ghost var full := slots;
      x := DropLast();
      Shorter(full, less, n);
    }

    // Take out the entry x, found by the position it knows.
    method RemoveAt(x: E, less: (E, E) -> bool, ghost xs: set<E>) returns (r: Result<E>)
      requires Fits(less, xs) && Valid(less) && x in index && 0 <= index[x]
      modifies this
      ensures r == Ok(x) && x in old(Elems())
      ensures Fits(less, xs) && Valid(less) && Elems() == old(Elems()) - {x} && index.Keys == old(index).Keys
    {
      var i := index[x];
      if i >= |slots| {
        return Err(InvalidIndex);
      }
      if slots[i] != x {
        return Err(MismatchJobEntry);
      }
      var y := Remove(i, less, xs);
      r := Ok(y);
    }

    // heap.Fix, after the entry at i got a new key
    method Fix(i: int, less: (E, E) -> bool, ghost xs: set<E>)
      requires Fits(less, xs) && 0 <= i < |slots| && Around(slots, less, 0, |slots|, i)
      modifies this
      ensures Fits(less, xs) && Valid(less) && Elems() == old(Elems()) && index.Keys == old(index).Keys
    {
      var moved := Down(i, |slots|, less, xs, 0);
      if !moved {
        Up(i, |slots|, less, xs);
      }
    }

    // Fill the slots with entries that carry their positions.
    method Load(saved: seq<E>)
      requires NoDup(saved)
      modifies this
      ensures Indexed() && slots == saved && forall x :: x in index <==> x in saved
    {
      slots := saved;
      index := map i | 0 <= i < |saved| :: saved[i] := i;
    }

    // heap.Init
    method Init(less: (E, E) -> bool, ghost xs: set<E>)
      requires Fits(less, xs)
      modifies this
      ensures Fits(less, xs) && Valid(less) && Elems() == old(Elems()) && index.Keys == old(index).Keys
      ensures old(Ordered(slots, less)) ==> slots == old(slots)
    {
      var n := |slots|;
      var i := n / 2 - 1;
      while i >= 0
        invariant -1 <= i <= n / 2 - 1 && |slots| == n
        invariant Fits(less, xs) && Elems() == old(Elems()) && index.Keys == old(index).Keys
        invariant OrderedFrom(slots, less, i + 1, n)
        invariant old(Ordered(slots, less)) ==> slots == old(slots)
      {
        assert Ordered(slots, less) ==> NoneAbove(slots, less, n, i) by {
          if Ordered(slots, less) { OrderedNoneAbove(slots, less, n, i); }
        }
        var moved := Down(i, n, less, xs, i);
        i := i - 1;
      }
    }
  }

  // No child of k comes before k.
  ghost predicate NoneAbove<E>(s: seq<E>, less: (E, E) -> bool, n: int, k: int)
    requires 0 <= k < n <= |s|
  {
    && (2 * k + 1 < n ==> !less(s[2 * k + 1], s[k]))
    && (2 * k + 2 < n ==> !less(s[2 * k + 2], s[k]))
  }

  // The child of k that k has to swap with, or -1.
  function ChildAbove<E>(s: seq<E>, less: (E, E) -> bool, n: int, k: int): (j: int)
    requires 0 <= k < n <= |s|
    ensures j < n
  {
    var j1 := 2 * k + 1;
    if j1 >= n then -1
    else
      var j := if j1 + 1 < n && less(s[j1 + 1], s[j1]) then j1 + 1 else j1;
      if !less(s[j], s[k]) then -1 else j
  }

  lemma ChildAboveFacts<E>(s: seq<E>, less: (E, E) -> bool, xs: set<E>, n: int, k: int)
    requires 0 <= k < n <= |s| && Members(s, xs) && TotalOn(less, xs)
    ensures var j := ChildAbove(s, less, n, k);
            if j < 0 then NoneAbove(s, less, n, k)
            else k < j && FirstChild(s, less, n, k, j) && less(s[j], s[k]) && !NoneAbove(s, less, n, k)
  {
    if 2 * k + 1 < n {
      var a := s[2 * k + 1];
      assert Orders(less, a, a, a);
      var j := 2 * k + 1;
      if 2 * k + 2 < n {
        var b := s[2 * k + 2];
        assert Orders(less, a, b, a) && Orders(less, b, b, b);
        if less(b, a) { j := 2 * k + 2; }
      }
      assert FirstChild(s, less, n, k, j);
      if !less(s[j], s[k]) { FirstAbove(s, less, xs, n, k, j); }
    }
  }

  lemma FirstAbove<E>(s: seq<E>, less: (E, E) -> bool, xs: set<E>, n: int, k: int, j: int)
    requires 0 <= k < n <= |s| && 0 <= j < n && Members(s, xs) && TotalOn(less, xs)
    requires FirstChild(s, less, n, k, j) && !less(s[j], s[k])
    ensures NoneAbove(s, less, n, k)
  {
    forall c | (c == 2 * k + 1 || c == 2 * k + 2) && c < n ensures !less(s[c], s[k]) {
      NotBefore(less, xs, s[k], s[j], s[c]);
    }
  }

  lemma Settle<E>(s: seq<E>, less: (E, E) -> bool, lo: int, n: int, k: int)
    requires 0 <= lo <= k < n <= |s| && Around(s, less, lo, n, k) && NoneAbove(s, less, n, k)
    ensures UpTo(s, less, lo, n, k)
    ensures DownFrom(s, less, lo, n, k) ==> OrderedFrom(s, less, lo, n)
  {
    forall j | 1 <= j < n && Parent(j) == k ensures Below(s, less, j) {
      assert j == 2 * k + 1 || j == 2 * k + 2;
    }
  }

  lemma OrderedNoneAbove<E>(s: seq<E>, less: (E, E) -> bool, n: int, k: int)
    requires 0 <= k < n <= |s| && OrderedFrom(s, less, 0, n)
    ensures NoneAbove(s, less, n, k)
  {
    if 2 * k + 1 < n { assert Below(s, less, 2 * k + 1); }
    if 2 * k + 2 < n { assert Below(s, less, 2 * k + 2); }
  }

  // With nothing above slot 0 the first n slots are in order.
  lemma Topmost<E>(s: seq<E>, less: (E, E) -> bool, n: int)
    requires 0 < n <= |s|
    ensures UpTo(s, less, 0, n, 0) ==> OrderedFrom(s, less, 0, n)
  {
  }

  lemma Prefix<E>(s: seq<E>, less: (E, E) -> bool, n: int)
    requires 0 <= n <= |s| && Ordered(s, less)
    ensures OrderedFrom(s, less, 0, n)
  {
  }

  lemma Shorter<E>(s: seq<E>, less: (E, E) -> bool, n: int)
    requires 0 <= n <= |s| && OrderedFrom(s, less, 0, n)
    ensures Ordered(s[..n], less)
  {
    forall j | 1 <= j < n ensures Below(s[..n], less, j) {
      assert Below(s, less, j);
    }
  }

  lemma TopIsLeast<E>(s: seq<E>, less: (E, E) -> bool, xs: set<E>)
    requires s != [] && Members(s, xs) && TotalOn(less, xs) && Ordered(s, less)
    ensures forall y :: y in s && y != s[0] ==> less(s[0], y)
  {
    forall y | y in s && y != s[0] ensures less(s[0], y) {
      var j :| 0 <= j < |s| && s[j] == y;
      TopIsFirst(s, less, xs, j);
      assert Orders(less, y, s[0], y);
    }
  }

  lemma SameElems<E>(s: seq<E>, i: int, j: int)
    requires 0 <= i < |s| && 0 <= j < |s|
    ensures (set x | x in s) == (set x | x in Swapped(s, i, j))
  {
    var s' := Swapped(s, i, j);
    forall x | x in s ensures x in s' {
      var k :| 0 <= k < |s| && s[k] == x;
      assert s'[if k == i then j else if k == j then i else k] == x;
    }
  }

  lemma {:induction false} Distinct<E>(s: seq<E>)
    requires NoDup(s)
    ensures |set x | x in s| == |s|
  {
    if s != [] {
      var rest := s[..|s| - 1];
      Distinct(rest);
      assert (set x | x in s) == (set x | x in rest) + {s[|s| - 1]};
    }
  }

  // ----- the order of popping ---------------------------------------------

  ghost predicate IsFirst<E>(less: (E, E) -> bool, elems: set<E>, x: E) {
    x in elems && forall y :: y in elems && y != x ==> less(x, y)
  }

  lemma {:induction false} FirstExists<E>(less: (E, E) -> bool, elems: set<E>)
    requires TotalOn(less, elems) && elems != {}
    ensures exists x :: IsFirst(less, elems, x)
    decreases elems
  {
    var x :| x in elems;
    var rest := elems - {x};
    if rest == {} {
      assert elems == {x};
      assert IsFirst(less, elems, x);
    } else {
      FirstExists(less, rest);
      var y :| IsFirst(less, rest, y);
      assert forall z :: z in elems <==> z == x || z in rest;
      if less(x, y) {
        forall z | z in rest && z != y ensures less(x, z) { assert Orders(less, x, y, z); }
        assert IsFirst(less, elems, x);
      } else {
        assert Orders(less, x, y, x);
        assert IsFirst(less, elems, y);
      }
    }
  }

  lemma FirstUnique<E>(less: (E, E) -> bool, elems: set<E>, x: E, y: E)
    requires TotalOn(less, elems) && IsFirst(less, elems, x) && IsFirst(less, elems, y)
    ensures x == y
  {
    assert Orders(less, x, y, x);
  }

  // The entries from first to last.
  ghost function Sorted<E>(less: (E, E) -> bool, elems: set<E>): seq<E>
    requires TotalOn(less, elems)
  {
    if elems == {} then []
    else
      FirstExists(less, elems);
      var x :| IsFirst(less, elems, x);
      [x] + Sorted(less, elems - {x})
  }

  // Sorted lists every entry once ...
  lemma {:induction false} SortedAll<E>(less: (E, E) -> bool, elems: set<E>)
    requires TotalOn(less, elems)
    ensures |Sorted(less, elems)| == |elems| && forall x :: x in Sorted(less, elems) <==> x in elems
    decreases elems
  {
    if elems != {} {
      var x := Sorted(less, elems)[0];
      SortedAll(less, elems - {x});
    }
  }

  lemma {:induction false} SortedMember<E>(less: (E, E) -> bool, elems: set<E>, i: nat)
    requires TotalOn(less, elems) && i < |Sorted(less, elems)|
    ensures Sorted(less, elems)[i] in elems
    decreases elems
  {
    var x := Sorted(less, elems)[0];
    FirstExists(less, elems);
    assert IsFirst(less, elems, x);
    if i > 0 { SortedMember(less, elems - {x}, i - 1); }
  }

  // ... and each before the later ones.
  lemma {:induction false} SortedOrder<E>(less: (E, E) -> bool, elems: set<E>, i: nat, j: nat)
    requires TotalOn(less, elems) && i < j < |Sorted(less, elems)|
    ensures less(Sorted(less, elems)[i], Sorted(less, elems)[j])
    decreases elems
  {
    var x := Sorted(less, elems)[0];
    var rest := Sorted(less, elems - {x});
    assert Sorted(less, elems)[j] == rest[j - 1];
    FirstExists(less, elems);
    assert IsFirst(less, elems, x);
    if i == 0 {
      SortedMember(less, elems - {x}, j - 1);
    } else {
      SortedOrder(less, elems - {x}, i - 1, j - 1);
      assert Sorted(less, elems)[i] == rest[i - 1];
    }
  }

  lemma SortedNext<E>(less: (E, E) -> bool, elems: set<E>, x: E)
    requires TotalOn(less, elems) && IsFirst(less, elems, x)
    ensures Sorted(less, elems) == [x] + Sorted(less, elems - {x})
  {
    FirstExists(less, elems);
    FirstUnique(less, elems, Sorted(less, elems)[0], x);
  }

  // Popping a heap until it is empty gives its entries in order: the sequence
  // depends on the entries and not on their layout.
  method PopAll<E(==)>(h: IndexedHeap<E>, less: (E, E) -> bool, ghost xs: set<E>) returns (out: seq<E>)
    requires h.Fits(less, xs) && h.Valid(less)
    modifies h
    ensures h.slots == [] && h.Fits(less, xs) && TotalOn(less, old(h.Elems())) && out == Sorted(less, old(h.Elems()))
  {
    hide Ordered, Sorted;
    ghost var elems := h.Elems();
    ElemsTotal(less, xs, h.slots);
    out := [];
    assert out + Sorted(less, h.Elems()) == Sorted(less, elems);
    while |h.slots| > 0
      invariant h.Fits(less, xs) && h.Valid(less) && TotalOn(less, h.Elems())
      invariant out + Sorted(less, h.Elems()) == Sorted(less, elems)
      decreases |h.Elems()|
    {
      ghost var was := h.Elems();
      var x := h.Pop(less, xs);
      SortedNext(less, was, x);
      assert out + Sorted(less, was) == out + [x] + Sorted(less, h.Elems());
      out := out + [x];
    }
    assert h.slots == [] && h.Elems() == {};
    SortedNone(less);
  }

  lemma SortedNone<E>(less: (E, E) -> bool)
    ensures Sorted(less, {}) == []
  {
  }

  lemma ElemsTotal<E>(less: (E, E) -> bool, xs: set<E>, s: seq<E>)
    requires TotalOn(less, xs) && Members(s, xs)
    ensures TotalOn(less, set x | x in s)
  {
  }

  // Two heaps with the same entries give the same sequence.
  method PopBoth<E(==)>(a: IndexedHeap<E>, b: IndexedHeap<E>, less: (E, E) -> bool, ghost xs: set<E>)
    returns (outA: seq<E>, outB: seq<E>)
    requires a != b && a.Fits(less, xs) && a.Valid(less) && b.Fits(less, xs) && b.Valid(less) && a.Elems() == b.Elems()
    modifies a, b
    ensures outA == outB
  {
    outA := PopAll(a, less, xs);
    outB := PopAll(b, less, xs);
  }
}
