/** What happens to a line that is too long: Scan gives up on it, and Discard
    skips to its end. */
module Skipping {
  import opened Types
  import opened Framing

  // Scan gave up after k bytes of a line that ends at p + 2.
  lemma ResumeAtLineEnd(input: seq<Byte>, p: int, k: int)
    requires FirstAt(input, p) && 0 <= k <= |input| && NoCrlf(input[..k])
    ensures k <= p + 1 && (k != p + 1 ==> FirstAt(input[k..], p - k)) && (k == p + 1 ==> input[k..] != [] && !CrlfAt(input[k..], 0))
  {
    NotAmong(input, k, p);
    assert forall i :: 0 <= i ==> (CrlfAt(input[k..], i) <==> CrlfAt(input, k + i));
  }

  // Discard, started on n, skips up to just before the bytes rest.
  predicate ResumesAt(n: Net, rest: seq<Byte>) {
    var (d, n') := DiscardNet(n, []);
    d.Rest? && d.right + n'.stream == rest
  }

  lemma DiscardResumes(n: Net, q: int)
    requires Steady(n.turns) && FirstAt(n.stream, q)
    ensures ResumesAt(n, n.stream[q + 2..])
  {
    DiscardNetOk(n, []);
    var (d, n') := DiscardNet(n, []);
    var b: seq<Byte> := [];
    assert b + n.stream == n.stream;
    LostNone(n.stream, n'.stream, q);
    assert d.Rest?;
    DiscardKeeps(n.stream, b, d.right, n'.stream, q);
  }

  // Scan may take the carriage return of a line that it gives up on.
  predicate TakesReturn(b: seq<Byte>, limit: nat, p: int) {
    if limit <= |b| then p + 1 == |b| else limit <= p + 1 < limit + BufferSize(limit)
  }

  lemma ResumesUnlessTaken(n: Net, b: seq<Byte>, limit: nat, p: int)
    requires Steady(n.turns) && FirstAt(b + n.stream, p) && !TakesReturn(b, limit, p)
    requires ScanNet(n, b, limit).0 == DelimiterMissing
    ensures ResumesAt(ScanNet(n, b, limit).1, (b + n.stream)[p + 2..])
  {
    hide ScanNet, ResumesAt;
    var input := b + n.stream;
    ScanNetOk(n, b, limit);
    var n' := ScanNet(n, b, limit).1;
    var k := |input| - |n'.stream|;
    ResumeAtLineEnd(input, p, k);
    DiscardResumes(n', p - k);
    assert input[k..][p - k + 2..] == input[p + 2..];
  }

  // k reads of one byte each.
  function Ones(k: nat): seq<Turn> {
    seq(k, _ => Upto(1))
  }

  // Reading byte by byte what has no delimiter only fills the buffer.
  lemma {:induction false} ByteByByte(stream: seq<Byte>, turns: seq<Turn>, end: Ending, buf: seq<Byte>, k: nat, limit: nat)
    requires k <= |stream| && |buf| + k <= limit && NoCrlf(buf + stream[..k])
    ensures ScanFrom(Net(stream, Ones(k) + turns, end), buf, limit) == ScanFrom(Net(stream[k..], turns, end), buf + stream[..k], limit)
    decreases k
  {
    if k == 0 {
      assert Ones(0) + turns == turns && stream[0..] == stream && buf + stream[..0] == buf;
    } else {
      var c, rest := stream[..1], stream[1..];
      assert (Ones(k) + turns)[0] == Upto(1) && (Ones(k) + turns)[1..] == Ones(k - 1) + turns;
      assert buf + stream[..k] == buf + c + rest[..k - 1];
      NoneInPrefix(buf, c, rest[..k - 1]);
      assert ReadNet(Net(stream, Ones(k) + turns, end), BufferSize(limit)) == (Data(c), Net(rest, Ones(k - 1) + turns, end));
      ByteByByte(rest, turns, end, buf + c, k - 1, limit);
      assert rest[k - 1..] == stream[k..];
    }
  }

  lemma NoneInPrefix(a: seq<Byte>, c: seq<Byte>, d: seq<Byte>)
    requires NoCrlf(a + c + d) && c != []
    ensures NoCrlf(a) && NoCrlf(c) && NoCrlf(a + c) && !Straddles(a, c)
  {
    var s := a + c + d;
    forall i ensures !CrlfAt(a, i) && !CrlfAt(c, i) && !CrlfAt(a + c, i) {
      assert !CrlfAt(s, i) && !CrlfAt(s, |a| + i);
    }
    assert !CrlfAt(s, |a| - 1);
  }

  // ... and then it may take the carriage return, in a last read, and give up.
  lemma TakesTheReturn(b: seq<Byte>, stream: seq<Byte>, end: Ending, limit: nat, p: int) returns (turns: seq<Turn>)
    requires FirstAt(b + stream, p) && TakesReturn(b, limit, p)
    ensures Steady(turns) && |b| <= p + 1
    ensures ScanNet(Net(stream, turns, end), b, limit) == (DelimiterMissing, Net(stream[p + 1 - |b|..], [], end))
  {
    hide FirstAt, NoCrlf;
    var input := b + stream;
    FirstBefore(input, p);
    assert |b| <= p + 1 ==> input[..p + 1] == b + stream[..p + 1 - |b|];
    if limit <= |b| {
      turns := [];
      assert b == input[..p + 1];
      assert stream[0..] == stream;
    } else {
      var k, m := limit - 1 - |b|, p + 2 - limit;
      turns := Ones(k) + [Upto(m)];
      LastRead(stream, end, b, k, m, limit);
      ByteByByte(stream, [Upto(m)], end, b, k, limit);
    }
  }

  // A last read of m bytes without a delimiter, and the limit is reached.
  lemma LastRead(stream: seq<Byte>, end: Ending, b: seq<Byte>, k: nat, m: nat, limit: nat)
    requires |b| + k + 1 == limit && 1 <= m <= BufferSize(limit) && k + m <= |stream| && NoCrlf(b + stream[..k + m])
    ensures ScanFrom(Net(stream[k..], [Upto(m)], end), b + stream[..k], limit) == (DelimiterMissing, Net(stream[k + m..], [], end))
    ensures NoCrlf(b) && NoCrlf(b + stream[..k])
  {
    hide NoCrlf;
    var buf, c, rest := b + stream[..k], stream[k..k + m], stream[k + m..];
    assert b + stream[..k + m] == buf + c + [];
    NoneInPrefix(buf, c, []);
    NoneBefore(b, stream[..k]);
    assert stream[k..] == c + rest;
    assert (c + rest)[..m] == c && (c + rest)[m..] == rest;
    assert ReadNet(Net(stream[k..], [Upto(m)], end), BufferSize(limit)) == (Data(c), Net(rest, [], end));
  }

  lemma NoneBefore(a: seq<Byte>, c: seq<Byte>)
    requires NoCrlf(a + c)
    ensures NoCrlf(a)
  {
    forall i ensures !CrlfAt(a, i) { assert !CrlfAt(a + c, i); }
  }

  lemma FirstBefore(s: seq<Byte>, p: int)
    requires FirstAt(s, p)
    ensures 0 <= p && p + 2 <= |s| && NoCrlf(s[..p + 1])
  {
    var u := s[..p + 1];
    forall i ensures !CrlfAt(u, i) { assert i < p ==> !CrlfAt(s, i); }
  }

  // Whenever Scan gives up on a line, Discard resumes at the end of that line,
  // for every chunking, if and only if Scan cannot take its carriage return.
  lemma SkipsLineIff(b: seq<Byte>, stream: seq<Byte>, end: Ending, limit: nat, p: int)
    requires FirstAt(b + stream, p)
    ensures !TakesReturn(b, limit, p) <==>
              forall turns :: Steady(turns) && ScanNet(Net(stream, turns, end), b, limit).0 == DelimiterMissing ==>
                ResumesAt(ScanNet(Net(stream, turns, end), b, limit).1, (b + stream)[p + 2..])
  {
    hide ScanNet, ResumesAt;
    if TakesReturn(b, limit, p) {
      var turns := TakesTheReturn(b, stream, end, limit, p);
      DoesNotResume(b, stream, end, limit, p, turns);
    } else {
      forall turns | Steady(turns) && ScanNet(Net(stream, turns, end), b, limit).0 == DelimiterMissing
        ensures ResumesAt(ScanNet(Net(stream, turns, end), b, limit).1, (b + stream)[p + 2..])
      {
        ResumesUnlessTaken(Net(stream, turns, end), b, limit, p);
      }
    }
  }

  lemma DoesNotResume(b: seq<Byte>, stream: seq<Byte>, end: Ending, limit: nat, p: int, turns: seq<Turn>)
    requires FirstAt(b + stream, p) && |b| <= p + 1
    requires ScanNet(Net(stream, turns, end), b, limit) == (DelimiterMissing, Net(stream[p + 1 - |b|..], [], end))
    ensures !ResumesAt(ScanNet(Net(stream, turns, end), b, limit).1, (b + stream)[p + 2..])
  {
    hide ScanNet, ResumesAt;
    var n := Net(stream[p + 1 - |b|..], [], end);
    assert n.stream == (b + stream)[p + 1..];
    assert n.stream[0] == LF && n.stream[1..] == (b + stream)[p + 2..];
    SkipsMore(n);
  }

  // A line feed alone is no delimiter, so Discard skips more than that.
  lemma SkipsMore(n: Net)
    requires n.stream != [] && n.stream[0] == LF
    ensures !ResumesAt(n, n.stream[1..])
  {
    hide DiscardNet, DiscardOk;
    var none: seq<Byte> := [];
    assert none + n.stream == n.stream;
    DiscardNetOk(n, none);
    var (d, n') := DiscardNet(n, none);
    if d.Rest? {
      var q := DiscardTakes(n.stream, none, d.right, n'.stream);
    }
  }

  // Then the next line is swallowed: Discard resumes after it.
  lemma SwallowsNextLine(x: seq<Byte>, line: seq<Byte>, rest: seq<Byte>, end: Ending, limit: nat) returns (turns: seq<Turn>)
    requires NoCrlf(x) && NoCrlf(line) && TakesReturn([], limit, |x|)
    ensures Steady(turns)
    ensures var (r, n) := ScanNet(Net(x + CRLF + line + CRLF + rest, turns, end), [], limit);
            r == DelimiterMissing && ResumesAt(n, rest)
  {
    hide ScanNet, ResumesAt, FirstAt, NoCrlf;
    var input := x + CRLF + line + CRLF + rest;
    var none: seq<Byte> := [];
    assert none + input == input;
    FirstLine(x, line + CRLF + rest);
    assert input == x + CRLF + (line + CRLF + rest);
    turns := TakesTheReturn(none, input, end, limit, |x|);
    var n := Net(input[|x| + 1..], [], end);
    assert n.stream == ([LF] + line) + CRLF + rest;
    AfterFeed(line);
    FirstLine([LF] + line, rest);
    DiscardResumes(n, 1 + |line|);
    assert n.stream[1 + |line| + 2..] == rest;
  }

  lemma AfterFeed(line: seq<Byte>)
    requires NoCrlf(line)
    ensures NoCrlf([LF] + line)
  {
    forall i ensures !CrlfAt([LF] + line, i) { assert i > 0 ==> !CrlfAt(line, i - 1); }
  }

  lemma FirstLine(line: seq<Byte>, rest: seq<Byte>)
    requires NoCrlf(line)
    ensures FirstAt(line + CRLF + rest, |line|)
  {
    var s := line + CRLF + rest;
    assert CrlfAt(s, |line|);
    forall i | i < |line| ensures !CrlfAt(s, i) {
      if i + 1 < |line| { assert !CrlfAt(line, i); }
    }
  }

  // ----- one line, however it arrives --------------------------------------

  // What becomes of one line: the line, if it was found, and the input after it.
  datatype LineRead = LineRead(line: Option<seq<Byte>>, rest: seq<Byte>) | NoLine

  // Scan for a line and, if it is given up, skip it.
  function ReadLine(n: Net, b: seq<Byte>, limit: nat): LineRead {
    var (r, n') := ScanNet(n, b, limit);
    match r
    case Found(left, right) => LineRead(Some(left), right + n'.stream)
    case DelimiterMissing =>
      (var (d, n'') := DiscardNet(n', []);
       if d.Rest? then LineRead(None, d.right + n''.stream) else NoLine)
    case _ => NoLine
  }

  // A line is found if it ends within the limit, and skipped otherwise.
  function Meant(s: seq<Byte>, limit: nat, p: nat): LineRead
    requires p + 2 <= |s|
  {
    LineRead(if p + 2 <= limit then Some(s[..p]) else None, s[p + 2..])
  }

  // The line that ends at p is within the limit; or a whole read beyond it,
  // and beyond the first a bytes.
  predicate Fits(a: nat, limit: nat, p: int) {
    p + 2 <= limit || (limit + BufferSize(limit) <= p + 1 && a <= p)
  }

  lemma FitsReads(n: Net, b: seq<Byte>, a: nat, limit: nat, p: nat)
    requires Steady(n.turns) && FirstAt(b + n.stream, p) && |b| <= a && Fits(a, limit, p)
    ensures ReadLine(n, b, limit) == Meant(b + n.stream, limit, p)
  {
    hide ScanNet, DiscardNet, FirstAt;
    var input := b + n.stream;
    ScanNetOk(n, b, limit);
    NotNone(input, p);
    var (r, n') := ScanNet(n, b, limit);
    LostNone(input, n'.stream, p);
    if p + 2 <= limit {
      ScanFinds(input, b, limit, r, n'.stream, p);
    } else {
      if r.Found? { FirstUnique(input, |r.left|, p); }
      ResumesUnlessTaken(n, b, limit, p);
    }
  }

  lemma NotNone(s: seq<Byte>, p: int)
    requires FirstAt(s, p)
    ensures !NoCrlf(s) && 0 <= p && p + 2 <= |s|
  {
  }

  // Whatever part of the first a bytes is in the buffer, and however the others
  // are read, the line is read as it is meant, if and only if it fits.
  lemma LineIff(s: seq<Byte>, end: Ending, a: nat, limit: nat, p: nat)
    requires FirstAt(s, p) && a <= |s|
    ensures Fits(a, limit, p) <==>
              forall k: nat, turns :: k <= a && Steady(turns) ==>
                ReadLine(Net(s[k..], turns, end), s[..k], limit) == Meant(s, limit, p)
  {
    hide ReadLine;
    if Fits(a, limit, p) {
      forall k: nat, turns | k <= a && Steady(turns)
        ensures ReadLine(Net(s[k..], turns, end), s[..k], limit) == Meant(s, limit, p)
      {
        assert s[..k] + s[k..] == s;
        FitsReads(Net(s[k..], turns, end), s[..k], a, limit, p);
      }
    } else {
      var k := if p + 1 < limit + BufferSize(limit) then 0 else p + 1;
      var turns := Misread(s, end, k, limit, p);
      assert ReadLine(Net(s[k..], turns, end), s[..k], limit) != Meant(s, limit, p);
    }
  }

  lemma Misread(s: seq<Byte>, end: Ending, k: nat, limit: nat, p: nat) returns (turns: seq<Turn>)
    requires FirstAt(s, p) && k <= |s| && limit < p + 2 && TakesReturn(s[..k], limit, p)
    ensures Steady(turns) && ReadLine(Net(s[k..], turns, end), s[..k], limit) != Meant(s, limit, p)
  {
    hide ScanNet, DiscardNet;
    assert s[..k] + s[k..] == s;
    turns := TakesTheReturn(s[..k], s[k..], end, limit, p);
    DoesNotResume(s[..k], s[k..], end, limit, p, turns);
  }

  // Run Scan and, if it gives up, Discard: the code of a connection on a line.
  method SkipLine(rdr: Reader, b: seq<Byte>, limit: nat, ghost p: int) returns (r: Scanned, d: Discarded)
    requires FirstAt(b + rdr.stream, p) && Steady(rdr.turns)
    modifies rdr
    ensures !TakesReturn(b, limit, p) ==>
              && (r.Found? || (r == DelimiterMissing && d.Rest?))
              && (if r.Found? then r.right else d.right) + rdr.stream == old(b + rdr.stream)[p + 2..]
  {
    ghost var input := b + rdr.stream;
    ScanNetOk(rdr.View(), b, limit);
    LostNone(input, ScanNet(rdr.View(), b, limit).1.stream, p);
    if !TakesReturn(b, limit, p) && ScanNet(rdr.View(), b, limit).0 == DelimiterMissing { ResumesUnlessTaken(rdr.View(), b, limit, p); }
    r := Scan(rdr, b, limit);
    if r.Found? {
      FirstUnique(input, |r.left|, p);
    }
    d := DiscardEof;
    if r.DelimiterMissing? {
      d := Discard(rdr, []);
    }
  }

  // Discard forgets all of its buffer beyond the first 1024 bytes if these have
  // the end of the line.
  lemma ForgetsBytes(n: Net, after: seq<Byte>)
    requires |after| > DISCARD_BUFFER_SIZE - 2
    ensures DiscardNet(n, CRLF + after) == (Rest(after[..DISCARD_BUFFER_SIZE - 2]), n)
  {
    var b, c := CRLF + after, CRLF + after[..DISCARD_BUFFER_SIZE - 2];
    assert b[..DISCARD_BUFFER_SIZE] == c;
    assert CrlfAt(c, 0) && Find(c, 0) == 0;
    assert c[2..] == after[..DISCARD_BUFFER_SIZE - 2];
  }
}
