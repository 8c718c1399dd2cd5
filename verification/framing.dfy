/** Cutting a stream of bytes into lines, whatever the sizes of the reads. */
module Framing {
  type Byte = bv8

  const CR: Byte := 13
  const LF: Byte := 10
  const CRLF: seq<Byte> := [CR, LF]

  const READ_BUFFER_SIZE := 4096
  const DISCARD_BUFFER_SIZE := 1024

  // ----- the delimiter ----------------------------------------------------

  predicate CrlfAt(s: seq<Byte>, i: int) {
    0 <= i && i + 1 < |s| && s[i] == CR && s[i + 1] == LF
  }

  ghost predicate NoCrlf(s: seq<Byte>) {
    forall i :: !CrlfAt(s, i)
  }

  // The first delimiter of s is at p.
  ghost predicate FirstAt(s: seq<Byte>, p: int) {
    CrlfAt(s, p) && forall i :: i < p ==> !CrlfAt(s, i)
  }

  // The position of the first delimiter at or after i, or -1.
  function Find(s: seq<Byte>, i: nat): (p: int)
    requires forall k :: k < i ==> !CrlfAt(s, k)
    ensures if p < 0 then NoCrlf(s) else FirstAt(s, p)
    decreases |s| - i
  {
    if i + 1 >= |s| then -1 else if CrlfAt(s, i) then i else Find(s, i + 1)
  }

  datatype Parts = Parts(left: seq<Byte>, right: seq<Byte>) | Whole

  function Split(s: seq<Byte>): (r: Parts)
    ensures r.Whole? <==> NoCrlf(s)
    ensures r.Parts? ==> s == r.left + CRLF + r.right && FirstAt(s, |r.left|)
  {
    var p := Find(s, 0);
    if p < 0 then Whole else Parts(s[..p], s[p + 2..])
  }

  // a, which has no delimiter, continued by c.
  predicate Straddles(a: seq<Byte>, c: seq<Byte>) {
    a != [] && c != [] && a[|a| - 1] == CR && c[0] == LF
  }

  lemma FirstOfTwo(a: seq<Byte>, c: seq<Byte>, d: seq<Byte>)
    requires NoCrlf(a)
    ensures Straddles(a, c) ==> FirstAt(a + c + d, |a| - 1)
    ensures !Straddles(a, c) && NoCrlf(c) ==> NoCrlf(a + c)
    ensures !Straddles(a, c) ==> forall p :: FirstAt(c, p) ==> FirstAt(a + c + d, |a| + p)
  {
    var s := a + c + d;
    assert forall i :: i + 1 < |a| ==> (CrlfAt(s, i) <==> CrlfAt(a, i)) && (CrlfAt(a + c, i) <==> CrlfAt(a, i));
    assert forall i :: |a| <= i && i + 1 < |a| + |c| ==> (CrlfAt(s, i) <==> CrlfAt(c, i - |a|)) && (CrlfAt(a + c, i) <==> CrlfAt(c, i - |a|));
    assert CrlfAt(s, |a| - 1) && c != [] ==> Straddles(a, c);
    assert CrlfAt(a + c, |a| - 1) ==> Straddles(a, c);
    if !Straddles(a, c) && NoCrlf(c) {
      forall i ensures !CrlfAt(a + c, i) {
        if i + 1 < |a| { assert !CrlfAt(a, i); } else if |a| <= i { assert !CrlfAt(c, i - |a|); }
      }
    }
    if !Straddles(a, c) {
      forall p | FirstAt(c, p) ensures FirstAt(s, |a| + p) {
        assert CrlfAt(s, |a| + p);
        forall i | i < |a| + p ensures !CrlfAt(s, i) {
          if i + 1 < |a| { assert !CrlfAt(a, i); } else if |a| <= i { assert !CrlfAt(c, i - |a|); }
        }
      }
    }
  }

  lemma FirstUnique(s: seq<Byte>, p: int, q: int)
    requires FirstAt(s, p) && FirstAt(s, q)
    ensures p == q
  {
  }

  // ----- the reader -------------------------------------------------------

  datatype Chunk = Data(bytes: seq<Byte>) | EndOfFile | ReadFailed

  // How a read goes: it gets up to so many bytes, or fails.
  datatype Turn = Upto(size: nat) | Fail

  // What a read gets when all bytes were read: the end of the stream, or an
  // error such as that of a connection that was reset.
  datatype Ending = Closed | Broken

  // The bytes still to come, and how the next reads go, as the network hands
  // the bytes out; after that a read gets as much as it can hold.
  datatype Net = Net(stream: seq<Byte>, turns: seq<Turn>, end: Ending)

  function Least(a: nat, b: nat): nat {
    if a < b then a else b
  }

  function ReadNet(n: Net, max: nat): (Chunk, Net) {
    if n.turns != [] && n.turns[0].Fail? then (ReadFailed, n.(turns := n.turns[1..]))
    else if n.stream == [] then (if n.end == Closed then EndOfFile else ReadFailed, n)
    else
      var k := Least(max, |n.stream|);
      var k' := if n.turns == [] then k else Least(n.turns[0].size, k);
      (Data(n.stream[..k']), Net(n.stream[k'..], if n.turns == [] then [] else n.turns[1..], n.end))
  }

  // No read fails before the end, or returns without a byte.
  ghost predicate Steady(turns: seq<Turn>) {
    forall i :: 0 <= i < |turns| ==> turns[i].Upto? && turns[i].size > 0
  }

  // Every read fails from now on.
  predicate Dead(n: Net) {
    n.stream == [] && n.end == Broken && !(n.turns != [] && n.turns[0].Fail?)
  }

  lemma ReadFacts(n: Net, max: nat)
    requires max > 0
    ensures var (c, n') := ReadNet(n, max);
            && n'.end == n.end && |n'.turns| <= |n.turns| && (Steady(n.turns) ==> Steady(n'.turns))
            && match c
               case Data(bytes) =>
                 && n.stream == bytes + n'.stream && |bytes| <= max
                 && (bytes == [] ==> !Steady(n.turns) && |n'.turns| < |n.turns|)
               case EndOfFile => n.stream == [] && n' == n && n.end == Closed
               case ReadFailed =>
                 && n'.stream == n.stream && (if Dead(n) then n' == n else !Steady(n.turns) && |n'.turns| < |n.turns|)
  {
  }

  lemma DeadRead(n: Net, max: nat)
    ensures Dead(n) ==> ReadNet(n, max) == (ReadFailed, n)
  {
  }

  class Reader {
    var stream: seq<Byte>
    var turns: seq<Turn>
    const end: Ending

    constructor (n: Net)
      ensures View() == n
    {
      stream, turns, end := n.stream, n.turns, n.end;
    }

    ghost function View(): Net
      reads this
    {
      Net(stream, turns, end)
    }

    method Read(max: nat) returns (c: Chunk)
      modifies this
      ensures (c, View()) == ReadNet(old(View()), max)
    {
      if |turns| > 0 && turns[0].Fail? {
        turns := turns[1..];
        return ReadFailed;
      }
      if |stream| == 0 {
        return if end == Closed then EndOfFile else ReadFailed;
      }
      var n := if |stream| < max then |stream| else max;
      if |turns| > 0 {
        n := if turns[0].size < n then turns[0].size else n;
        turns := turns[1..];
      }
      c := Data(stream[..n]);
      stream := stream[n..];
    }
  }

  // What is left of the network after a call that read from it: idle if it
  // ended with a read without a byte, failed if with an error.
  ghost predicate Onward(n: Net, n': Net, idle: bool, failed: bool) {
    && n'.end == n.end && |n'.stream| <= |n.stream| && |n'.turns| <= |n.turns|
    && (idle ==> |n'.turns| < |n.turns|)
    && (failed ==> Dead(n') || |n'.turns| < |n.turns|)
    && (Steady(n.turns) ==> Steady(n'.turns) && !idle && (failed ==> Dead(n')))
  }

  // Of input, all but unread was read and is lost, and no delimiter with it.
  ghost predicate Lost(input: seq<Byte>, unread: seq<Byte>) {
    var k := |input| - |unread|;
    0 <= k && unread == input[k..] && NoCrlf(input[..k])
  }

  lemma LostNone(input: seq<Byte>, unread: seq<Byte>, p: int)
    requires FirstAt(input, p)
    ensures Lost(input, unread) ==> unread != []
  {
    assert input[..|input|] == input;
  }

  // ----- Scan -------------------------------------------------------------

  datatype Scanned =
    | Found(left: seq<Byte>, right: seq<Byte>)
    | Eof
    | NoData(buffer: seq<Byte>)
    | DelimiterMissing
    | ScanFailed

  function BufferSize(limit: nat): nat {
    if READ_BUFFER_SIZE > limit then limit else READ_BUFFER_SIZE
  }

  // Scan, with buf read so far and without a delimiter.
  function ScanFrom(n: Net, buf: seq<Byte>, limit: nat): (Scanned, Net)
    decreases |n.stream|
  {
    if |buf| >= limit then (DelimiterMissing, n)
    else
      var (c, n') := ReadNet(n, BufferSize(limit));
      if c.EndOfFile? then (Eof, n')
      else if c.ReadFailed? then (ScanFailed, n')
      else if c.bytes == [] then (NoData(buf), n')
      else if Straddles(buf, c.bytes) then (Found(buf[..|buf| - 1], c.bytes[1..]), n')
      else
        match Split(c.bytes)
        case Parts(left, right) => (Found(buf + left, right), n')
        case Whole => ScanFrom(n', buf + c.bytes, limit)
  }

  function ScanNet(n: Net, b: seq<Byte>, limit: nat): (Scanned, Net) {
    match Split(b)
    case Parts(left, right) => (Found(left, right), n)
    case Whole => ScanFrom(n, b, limit)
  }

  method Scan(rdr: Reader, b: seq<Byte>, limit: nat) returns (r: Scanned)
    modifies rdr
    ensures (r, rdr.View()) == ScanNet(old(rdr.View()), b, limit)
  {
    hide Split, ReadNet;
    var buf := [];
    if |b| > 0 {
      var parts := Split(b);
      if parts.Parts? {
        return Found(parts.left, parts.right);
      }
      buf := b;
    }
    assert buf == b;
    EmptyWhole();
    var isLastByteCarriageReturn := |buf| > 0 && buf[|buf| - 1] == CR;
    var bufSize := READ_BUFFER_SIZE;
    if bufSize > limit {
      bufSize := limit;
    }
    while |buf| < limit
      invariant ScanFrom(rdr.View(), buf, limit) == ScanNet(old(rdr.View()), b, limit)
      invariant isLastByteCarriageReturn == (|buf| > 0 && buf[|buf| - 1] == CR)
      decreases |rdr.stream|
    {
      ReadFacts(rdr.View(), bufSize);
      var c := rdr.Read(bufSize);
      if c.EndOfFile? {
        return Eof;
      }
      if c.ReadFailed? {
        return ScanFailed;
      }
      if |c.bytes| == 0 {
        return NoData(buf);
      }
      if isLastByteCarriageReturn && c.bytes[0] == LF {
        return Found(buf[..|buf| - 1], c.bytes[1..]);
      }
      var parts := Split(c.bytes);
      if parts.Parts? {
        return Found(buf + parts.left, parts.right);
      }
      buf := buf + c.bytes;
      isLastByteCarriageReturn := c.bytes[|c.bytes| - 1] == CR;
    }
    r := DelimiterMissing;
  }

  lemma EmptyWhole()
    ensures Split([]) == Whole
  {
  }

  // What Scan may answer on input, of which b was already read and unread is
  // left in the stream.
  ghost predicate ScanOk(input: seq<Byte>, b: seq<Byte>, limit: nat, r: Scanned, unread: seq<Byte>) {
    match r
    case Found(left, right) =>
      && FirstAt(input, |left|) && input == left + CRLF + right + unread
      && (|left| + 2 <= |b| || |left| + 2 < limit + BufferSize(limit))
      && (|left| + |right| + 2 <= |b| || |right| < BufferSize(limit))
    case Eof => NoCrlf(input) && |input| < limit && unread == []
    case NoData(buffer) => NoCrlf(buffer) && input == buffer + unread
    case DelimiterMissing => Dropped(input, b, limit, unread)
    case ScanFailed => Lost(input, unread) && |input| < limit + |unread|
  }

  // At least limit bytes were taken from input, and no delimiter among them.
  ghost predicate Dropped(input: seq<Byte>, b: seq<Byte>, limit: nat, unread: seq<Byte>) {
    var k := |input| - |unread|;
    && limit <= k && unread == input[k..] && NoCrlf(input[..k])
    && if limit <= |b| then k == |b| else k < limit + BufferSize(limit)
  }

  lemma FoundBefore(b: seq<Byte>, unread: seq<Byte>, limit: nat)
    requires Split(b).Parts?
    ensures ScanOk(b + unread, b, limit, Found(Split(b).left, Split(b).right), unread)
  {
    var empty: seq<Byte> := [];
    FirstOfTwo(empty, b, unread);
    assert empty + b + unread == b + unread;
  }

  lemma FoundAcross(b: seq<Byte>, limit: nat, buf: seq<Byte>, c: seq<Byte>, unread: seq<Byte>)
    requires NoCrlf(buf) && Straddles(buf, c) && |buf| < limit && |c| <= BufferSize(limit)
    ensures ScanOk(buf + c + unread, b, limit, Found(buf[..|buf| - 1], c[1..]), unread)
  {
    FirstOfTwo(buf, c, unread);
    assert buf == buf[..|buf| - 1] + [CR] && c == [LF] + c[1..];
  }

  lemma FoundInside(b: seq<Byte>, limit: nat, buf: seq<Byte>, c: seq<Byte>, unread: seq<Byte>)
    requires NoCrlf(buf) && !Straddles(buf, c) && |buf| < limit && |c| <= BufferSize(limit) && Split(c).Parts?
    ensures ScanOk(buf + c + unread, b, limit, Found(buf + Split(c).left, Split(c).right), unread)
  {
    FirstOfTwo(buf, c, unread);
  }

  lemma {:induction false} ScanFromOk(n: Net, b: seq<Byte>, buf: seq<Byte>, limit: nat)
    requires NoCrlf(buf) && (if limit <= |b| then |buf| == |b| else |buf| < limit + BufferSize(limit))
    ensures var (r, n') := ScanFrom(n, buf, limit);
            && ScanOk(buf + n.stream, b, limit, r, n'.stream)
            && Onward(n, n', r.NoData?, r.ScanFailed?) && (r.Eof? ==> n.end == Closed)
    decreases |n.stream|
  {
    hide Split, FirstAt, ReadNet;
    var input := buf + n.stream;
    if |buf| >= limit {
      assert input[..|buf|] == buf && input[|buf|..] == n.stream;
    } else {
      ReadFacts(n, BufferSize(limit));
      var (c, n') := ReadNet(n, BufferSize(limit));
      if c.EndOfFile? {
        assert input == buf;
      } else if c.ReadFailed? {
        assert input[..|buf|] == buf && input[|buf|..] == n.stream;
      } else if c.bytes != [] {
        assert input == buf + c.bytes + n'.stream;
        if Straddles(buf, c.bytes) {
          FoundAcross(b, limit, buf, c.bytes, n'.stream);
        } else if Split(c.bytes).Parts? {
          FoundInside(b, limit, buf, c.bytes, n'.stream);
        } else {
          FirstOfTwo(buf, c.bytes, n'.stream);
          ScanFromOk(n', b, buf + c.bytes, limit);
        }
      }
    }
  }

  // For every chunking: on success left is everything before the first
  // delimiter and no byte is lost.
  lemma ScanNetOk(n: Net, b: seq<Byte>, limit: nat)
    ensures var (r, n') := ScanNet(n, b, limit);
            && ScanOk(b + n.stream, b, limit, r, n'.stream)
            && Onward(n, n', r.NoData?, r.ScanFailed?) && (r.Eof? ==> n.end == Closed)
  {
    if Split(b).Parts? { FoundBefore(b, n.stream, limit); } else { ScanFromOk(n, b, b, limit); }
  }

  lemma NotAmong(s: seq<Byte>, k: int, p: int)
    requires 0 <= k <= |s| && NoCrlf(s[..k]) && CrlfAt(s, p)
    ensures k < p + 2
  {
    assert CrlfAt(s[..k], p) <==> p + 2 <= k;
  }

  // A line that ends within the limit is found, however it was chunked.
  lemma ScanFinds(input: seq<Byte>, b: seq<Byte>, limit: nat, r: Scanned, unread: seq<Byte>, p: int)
    requires ScanOk(input, b, limit, r, unread) && !r.NoData? && !r.ScanFailed? && FirstAt(input, p) && p + 2 <= limit
    ensures r.Found? && r.left == input[..p] && r.right + unread == input[p + 2..]
  {
    match r
    case Found(left, right) => FirstUnique(input, |left|, p);
    case Eof =>
    case DelimiterMissing => NotAmong(input, |input| - |unread|, p);
  }

  // The end of the input before the limit is found out, too; and a line that
  // has no end within the limit and one more read is never found.
  lemma ScanFails(input: seq<Byte>, b: seq<Byte>, limit: nat, r: Scanned, unread: seq<Byte>)
    requires ScanOk(input, b, limit, r, unread) && !r.NoData? && !r.ScanFailed?
    ensures NoCrlf(input) ==> r == if |input| < limit then Eof else DelimiterMissing
    ensures forall p :: FirstAt(input, p) && |b| < p + 2 && limit + BufferSize(limit) <= p + 2 ==> r == DelimiterMissing
  {
    if NoCrlf(input) {
      match r
      case Found(left, right) =>
      case Eof =>
      case DelimiterMissing =>
    } else if r.Found? {
      forall p | FirstAt(input, p) ensures p == |r.left| { FirstUnique(input, p, |r.left|); }
    }
  }

  // ----- Discard ----------------------------------------------------------

  datatype Discarded = Rest(right: seq<Byte>) | DiscardEof | DiscardNoData | DiscardFailed

  // A read from left and then from the stream.
  function MultiRead(n: Net, left: seq<Byte>): (Chunk, seq<Byte>, Net) {
    if left != [] then
      var k := Least(DISCARD_BUFFER_SIZE, |left|);
      (Data(left[..k]), left[k..], n)
    else
      var (c, n') := ReadNet(n, DISCARD_BUFFER_SIZE);
      (c, [], n')
  }

  lemma MultiReadFacts(n: Net, left: seq<Byte>)
    ensures var (c, left', n') := MultiRead(n, left);
            && n'.end == n.end && |n'.turns| <= |n.turns| && (Steady(n.turns) ==> Steady(n'.turns))
            && match c
               case Data(bytes) =>
                 && left + n.stream == bytes + left' + n'.stream && |bytes| <= DISCARD_BUFFER_SIZE
                 && |n'.stream| <= |n.stream| && (left == [] ==> left' == [])
                 && (left != [] ==>
                       bytes != [] && left == bytes + left' && (left' != [] ==> |bytes| == DISCARD_BUFFER_SIZE))
                 && (bytes == [] ==> !Steady(n.turns) && |n'.turns| < |n.turns|)
               case EndOfFile => left == left' == [] && n.stream == n'.stream == [] && n.end == Closed
               case ReadFailed =>
                 && left == left' == [] && n'.stream == n.stream
                 && (if Dead(n) then n' == n else !Steady(n.turns) && |n'.turns| < |n.turns|)
  {
    ReadFacts(n, DISCARD_BUFFER_SIZE);
  }

  // Discard, with left not read again yet.
  function DiscardFrom(n: Net, left: seq<Byte>, lastIsCR: bool): (Discarded, Net)
    decreases |left| + |n.stream|
  {
    MultiReadFacts(n, left);
    var (c, left', n') := MultiRead(n, left);
    if c.EndOfFile? then (DiscardEof, n')
    else if c.ReadFailed? then (DiscardFailed, n')
    else if c.bytes == [] then (DiscardNoData, n')
    else if lastIsCR && c.bytes[0] == LF then (Rest(c.bytes[1..]), n')
    else
      match Split(c.bytes)
      case Parts(_, right) => (Rest(right), n')
      case Whole =>
        assert |left| + |n.stream| == |c.bytes| + |left'| + |n'.stream|;
        DiscardFrom(n', left', c.bytes[|c.bytes| - 1] == CR)
  }

  function DiscardNet(n: Net, b: seq<Byte>): (Discarded, Net) {
    DiscardFrom(n, b, false)
  }

  method Discard(rdr: Reader, b: seq<Byte>) returns (r: Discarded)
    modifies rdr
    ensures (r, rdr.View()) == DiscardNet(old(rdr.View()), b)
  {
    hide Split, ReadNet;
    var left := b;
    var isLastByteCarriageReturn := false;
    while true
      invariant DiscardFrom(rdr.View(), left, isLastByteCarriageReturn) == DiscardNet(old(rdr.View()), b)
      decreases |left| + |rdr.stream|
    {
      MultiReadFacts(rdr.View(), left);
      ghost var before := |left| + |rdr.stream|;
      var c;
      if |left| > 0 {
        var k := if |left| < DISCARD_BUFFER_SIZE then |left| else DISCARD_BUFFER_SIZE;
        c := Data(left[..k]);
        left := left[k..];
      } else {
        c := rdr.Read(DISCARD_BUFFER_SIZE);
      }
      if c.EndOfFile? {
        return DiscardEof;
      }
      if c.ReadFailed? {
        return DiscardFailed;
      }
      if |c.bytes| == 0 {
        return DiscardNoData;
      }
      assert before == |c.bytes| + |left| + |rdr.stream|;
      if isLastByteCarriageReturn && c.bytes[0] == LF {
        return Rest(c.bytes[1..]);
      }
      var parts := Split(c.bytes);
      if parts.Parts? {
        return Rest(parts.right);
      }
      isLastByteCarriageReturn := c.bytes[|c.bytes| - 1] == CR;
    }
  }

  // Where the read ends that takes byte e - 1, if the first n bytes are handed
  // out in reads of DISCARD_BUFFER_SIZE.
  function ReadEnd(n: nat, e: nat): nat {
    var end := ((e - 1) / DISCARD_BUFFER_SIZE + 1) * DISCARD_BUFFER_SIZE;
    if e > n || end > n then n else end
  }

  // Of the bytes after the delimiter at p, those of b that were not read again
  // are forgotten.
  ghost predicate DiscardAt(input: seq<Byte>, b: seq<Byte>, right: seq<Byte>, unread: seq<Byte>, p: int) {
    FirstAt(input, p) && input[p + 2..] == right + b[ReadEnd(|b|, p + 2)..] + unread
  }

  // What Discard may answer on b continued by the stream.
  ghost predicate DiscardOk(input: seq<Byte>, b: seq<Byte>, r: Discarded, unread: seq<Byte>) {
    match r
    case Rest(right) => |right| < DISCARD_BUFFER_SIZE && exists p :: DiscardAt(input, b, right, unread, p)
    case DiscardEof => NoCrlf(input) && unread == []
    case DiscardNoData => true
    case DiscardFailed => Lost(input, unread)
  }

  // The bytes of b come in full reads, and only then those of the stream.
  ghost predicate Replay(b: seq<Byte>, done: seq<Byte>, c: seq<Byte>, left: seq<Byte>, k: nat) {
    if left == [] && |b| <= |done| then true
    else
      && b == done + c + left && |done| == DISCARD_BUFFER_SIZE * k && |c| <= DISCARD_BUFFER_SIZE
      && (left != [] ==> |c| == DISCARD_BUFFER_SIZE)
  }

  lemma ReadEndIs(b: seq<Byte>, done: seq<Byte>, c: seq<Byte>, left: seq<Byte>, k: nat, e: nat)
    requires Replay(b, done, c, left, k) && |done| < e <= |done| + |c|
    ensures b[ReadEnd(|b|, e)..] == left
  {
    if !(left == [] && |b| <= |done|) {
      assert (e - 1) / DISCARD_BUFFER_SIZE == k;
      assert b[|done| + |c|..] == left;
    }
  }

  // The delimiter lies between what was looked at and the next read ...
  lemma DiscardAcross(b: seq<Byte>, done: seq<Byte>, c: seq<Byte>, left: seq<Byte>, k: nat, unread: seq<Byte>)
    requires NoCrlf(done) && 0 < |c| <= DISCARD_BUFFER_SIZE && Replay(b, done, c, left, k) && Straddles(done, c)
    ensures DiscardOk(done + c + left + unread, b, Rest(c[1..]), unread)
  {
    hide ReadEnd, Replay;
    var input := done + c + left + unread;
    assert input == done + c + (left + unread);
    FirstOfTwo(done, c, left + unread);
    ReadEndIs(b, done, c, left, k, |done| + 1);
    assert input[|done| + 1..] == c[1..] + left + unread;
    assert DiscardAt(input, b, c[1..], unread, |done| - 1);
  }

  // ... or in the next read.
  lemma DiscardInside(b: seq<Byte>, done: seq<Byte>, c: seq<Byte>, left: seq<Byte>, k: nat, unread: seq<Byte>)
    requires NoCrlf(done) && 0 < |c| <= DISCARD_BUFFER_SIZE && Replay(b, done, c, left, k) && !Straddles(done, c) && Split(c).Parts?
    ensures DiscardOk(done + c + left + unread, b, Rest(Split(c).right), unread)
  {
    hide ReadEnd, Replay;
    var input := done + c + left + unread;
    assert input == done + c + (left + unread);
    FirstOfTwo(done, c, left + unread);
    var p := |done| + |Split(c).left|;
    ReadEndIs(b, done, c, left, k, p + 2);
    assert input[p + 2..] == Split(c).right + left + unread;
    assert DiscardAt(input, b, Split(c).right, unread, p);
  }

  // done was looked at, left is what is left of b.
  ghost predicate Looked(input: seq<Byte>, b: seq<Byte>, done: seq<Byte>, left: seq<Byte>, k: nat, unread: seq<Byte>) {
    && input == done + left + unread && NoCrlf(done)
    && if left == [] then |b| <= |done| else b == done + left && |done| == DISCARD_BUFFER_SIZE * k
  }

  lemma LookStep(input: seq<Byte>, b: seq<Byte>, done: seq<Byte>, left: seq<Byte>, k: nat, unread: seq<Byte>,
                 c: seq<Byte>, left': seq<Byte>, unread': seq<Byte>)
    requires Looked(input, b, done, left, k, unread) && left + unread == c + left' + unread'
    requires left == [] ==> left' == []
    requires left != [] ==> left == c + left' && |c| <= DISCARD_BUFFER_SIZE && (left' != [] ==> |c| == DISCARD_BUFFER_SIZE)
    ensures NoCrlf(done) && input == done + c + left' + unread' && Replay(b, done, c, left', k)
    ensures !Straddles(done, c) && NoCrlf(c) ==> Looked(input, b, done + c, left', k + 1, unread')
  {
    assert input == done + (left + unread);
    assert input == done + c + left' + unread';
    FirstOfTwo(done, c, []);
  }

  lemma {:induction false} DiscardFromOk(n: Net, input: seq<Byte>, b: seq<Byte>, done: seq<Byte>, left: seq<Byte>, k: nat)
    requires Looked(input, b, done, left, k, n.stream)
    ensures var (r, n') := DiscardFrom(n, left, done != [] && done[|done| - 1] == CR);
            && DiscardOk(input, b, r, n'.stream)
            && Onward(n, n', r.DiscardNoData?, r.DiscardFailed?) && (r.DiscardEof? ==> n.end == Closed)
    decreases |left| + |n.stream|
  {
    hide Split, FirstAt, MultiRead, DiscardOk, Looked, Replay;
    MultiReadFacts(n, left);
    DiscardEnds(input, b, done, left, k, n.stream);
    var (c, left', n') := MultiRead(n, left);
    if c.Data? && c.bytes != [] {
      assert |left| + |n.stream| == |c.bytes| + |left'| + |n'.stream|;
      LookStep(input, b, done, left, k, n.stream, c.bytes, left', n'.stream);
      if Straddles(done, c.bytes) {
        DiscardAcross(b, done, c.bytes, left', k, n'.stream);
      } else if Split(c.bytes).Parts? {
        DiscardInside(b, done, c.bytes, left', k, n'.stream);
      } else {
        assert (done + c.bytes)[|done + c.bytes| - 1] == c.bytes[|c.bytes| - 1];
        DiscardFromOk(n', input, b, done + c.bytes, left', k + 1);
      }
    }
  }

  lemma DiscardEnds(input: seq<Byte>, b: seq<Byte>, done: seq<Byte>, left: seq<Byte>, k: nat, unread: seq<Byte>)
    ensures input == b + unread ==> Looked(input, b, [], b, 0, unread)
    ensures Looked(input, b, done, left, k, unread) && left == unread == [] ==> DiscardOk(input, b, DiscardEof, [])
    ensures Looked(input, b, done, left, k, unread) && left == [] ==> DiscardOk(input, b, DiscardFailed, unread)
    ensures forall rest :: DiscardOk(input, b, DiscardNoData, rest)
  {
    var empty: seq<Byte> := [];
    assert empty + b + unread == b + unread && b == empty + b;
    if left == unread == [] && input == done + left + unread { assert input == done; }
    if left == [] && input == done + left + unread { assert input[..|done|] == done && input[|done|..] == unread; }
  }

  // For every chunking: what is returned, left and forgotten.
  lemma DiscardNetOk(n: Net, b: seq<Byte>)
    ensures var (r, n') := DiscardNet(n, b);
            && DiscardOk(b + n.stream, b, r, n'.stream)
            && Onward(n, n', r.DiscardNoData?, r.DiscardFailed?) && (r.DiscardEof? ==> n.end == Closed)
  {
    var done: seq<Byte> := [];
    DiscardEnds(b + n.stream, b, done, b, 0, n.stream);
    DiscardFromOk(n, b + n.stream, b, done, b, 0);
  }

  lemma DiscardTakes(input: seq<Byte>, b: seq<Byte>, right: seq<Byte>, unread: seq<Byte>) returns (p: int)
    requires DiscardOk(input, b, Rest(right), unread)
    ensures CrlfAt(input, p) && p + 2 + |right| + |unread| <= |input|
  {
    p :| DiscardAt(input, b, right, unread, p);
    assert |input[p + 2..]| == |right| + |b[ReadEnd(|b|, p + 2)..]| + |unread|;
  }

  // Nothing after the delimiter is forgotten exactly when it ends in the last
  // read of b or later; so never if b fits one read.
  lemma DiscardKeeps(input: seq<Byte>, b: seq<Byte>, right: seq<Byte>, unread: seq<Byte>, p: int)
    requires DiscardOk(input, b, Rest(right), unread) && FirstAt(input, p)
    ensures input[p + 2..] == right + unread <==> ReadEnd(|b|, p + 2) == |b|
    ensures |b| <= DISCARD_BUFFER_SIZE ==> ReadEnd(|b|, p + 2) == |b|
  {
    var q :| DiscardAt(input, b, right, unread, q);
    FirstUnique(input, p, q);
    var lost := b[ReadEnd(|b|, p + 2)..];
    assert |input[p + 2..]| == |right| + |lost| + |unread|;
    if lost == [] { assert right + lost + unread == right + unread; }
  }

  lemma NoCrlfAfter(s: seq<Byte>, k: int)
    requires NoCrlf(s) && 0 <= k <= |s|
    ensures NoCrlf(s[k..])
  {
    forall i ensures !CrlfAt(s[k..], i) { assert !CrlfAt(s, k + i); }
  }
}
