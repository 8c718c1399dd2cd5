/** What a stream of bytes means, however it arrives. */
module Meaning {
  import opened Types
  import opened Framing
  import opened Skipping
  import opened Connection
  import opened Hangup

  // Where the first line of s ends, if it does.
  function LineEnd(s: seq<Byte>): (p: Option<nat>)
    ensures p.None? <==> NoCrlf(s)
    ensures p.Some? ==> FirstAt(s, p.value)
  {
    var p := Find(s, 0);
    if p < 0 then None else Some(p)
  }

  // A stream that is closed is handed on as quit; if reading fails for good,
  // nothing more is handed on.
  function Last(end: Ending): seq<Event> {
    if end == Closed then [Dispatched(QUIT, [])] else []
  }

  // The events of a connection that still has the bytes s to come. A line that
  // is too long is answered and skipped.
  function Session(parse: Parser, maxData: nat, m: Mode, s: seq<Byte>, end: Ending): seq<Event>
    decreases |s|
  {
    match m
    case AtCommand =>
      (match LineEnd(s)
       case None => (if |s| < MAX_CMD_SIZE then [] else [Replied(BadFormat)]) + Last(end)
       case Some(p) =>
         if p + 2 > MAX_CMD_SIZE then [Replied(BadFormat)] + Session(parse, maxData, AtCommand, s[p + 2..], end)
         else
           var (m', out) := OnLine(parse, maxData, s[..p]);
           out + Session(parse, maxData, m', s[p + 2..], end))
    case AtData(cmd) =>
      (match LineEnd(s)
       case None => (if |s| < maxData then [] else [Replied(ExpectCrlf)]) + Last(end)
       case Some(p) =>
         [if p + 2 > maxData then Replied(ExpectCrlf) else Dispatched(cmd, s[..p])]
         + Session(parse, maxData, AtCommand, s[p + 2..], end))
    case AtEndLine =>
      (match LineEnd(s)
       case None => Last(end)
       case Some(p) => Session(parse, maxData, AtCommand, s[p + 2..], end))
    case AtEnd => [Dispatched(QUIT, [])]
    case Done => []
  }

  // ----- independence of the reads ----------------------------------------

  // How many bytes may be left in the buffer when a line of e bytes was cut off
  // a buffer of at most a, reading up to max bytes at once.
  function Leftover(a: nat, e: nat, max: nat): nat {
    var read := if max == 0 then 0 else max - 1;
    if a > e && a - e > read then a - e else read
  }

  // How many bytes Discard gives back at most.
  const MAX_SKIP_REST: nat := DISCARD_BUFFER_SIZE - 1

  // The end of the read of Discard that has byte e - 1 of its buffer.
  function BlockEnd(e: nat): int {
    ((e - 1) / DISCARD_BUFFER_SIZE + 1) * DISCARD_BUFFER_SIZE
  }

  // Every line of s fits, with at most a bytes in the buffer; and after a job
  // that is too big none of them lies beyond the read that has the end of the
  // line that is skipped.
  predicate Framed(parse: Parser, maxData: nat, m: Mode, s: seq<Byte>, a: nat)
    decreases |s|
  {
    match LineEnd(s)
    case None => true
    case Some(p) =>
      match m
      case AtCommand =>
        && Fits(a, MAX_CMD_SIZE, p)
        && if p + 2 > MAX_CMD_SIZE then Framed(parse, maxData, AtCommand, s[p + 2..], MAX_SKIP_REST)
           else Framed(parse, maxData, OnLine(parse, maxData, s[..p]).0, s[p + 2..], Leftover(a, p + 2, BufferSize(MAX_CMD_SIZE)))
      case AtData(cmd) =>
        && Fits(a, maxData, p)
        && Framed(parse, maxData, AtCommand, s[p + 2..],
                  if p + 2 > maxData then MAX_SKIP_REST else Leftover(a, p + 2, BufferSize(maxData)))
      case AtEndLine =>
        && Least(a, |s|) <= BlockEnd(p + 2)
        && Framed(parse, maxData, AtCommand, s[p + 2..], MAX_SKIP_REST)
      case AtEnd => true
      case Done => true
  }

  // What is left to do after a scan for a line that fits.
  lemma AfterScan(input: seq<Byte>, b: seq<Byte>, a: nat, limit: nat, r: Scanned, unread: seq<Byte>)
    requires ScanOk(input, b, limit, r, unread) && !r.NoData? && (r.ScanFailed? ==> unread == []) && |b| <= a
    requires LineEnd(input).Some? ==> Fits(a, limit, LineEnd(input).value)
    ensures match r
            case Found(left, right) =>
              && LineEnd(input) == Some(|left|) && left == input[..|left|] && right + unread == input[|left| + 2..]
              && |left| + 2 <= limit
            case Eof => LineEnd(input) == None && |input| < limit && unread == []
            case ScanFailed => LineEnd(input) == None && |input| < limit
            case DelimiterMissing => GivenUp(input, limit, unread)
  {
    match LineEnd(input)
    case Some(p) =>
      LostNone(input, unread, p);
      if p + 2 <= limit {
        ScanFinds(input, b, limit, r, unread, p);
      } else {
        SkippedPart(input, b, a, limit, unread, p);
      }
    case None =>
      assert r.ScanFailed? ==> Lost(input, []);
      if !r.ScanFailed? { ScanFails(input, b, limit, r, unread); }
      if r.DelimiterMissing? { NoCrlfAfter(input, |input| - |unread|); NoLineEnd(unread); }
  }

  // A line that is too long was given up before its end.
  ghost predicate GivenUp(input: seq<Byte>, limit: nat, unread: seq<Byte>) {
    match LineEnd(input)
    case None => limit <= |input| && LineEnd(unread) == None
    case Some(p) =>
      && limit < p + 2 && LineEnd(unread).Some?
      && var q := LineEnd(unread).value; q + 2 <= |unread| && unread[q + 2..] == input[p + 2..]
  }

  lemma NoLineEnd(s: seq<Byte>)
    requires NoCrlf(s)
    ensures LineEnd(s) == None
  {
  }

  lemma SkippedPart(input: seq<Byte>, b: seq<Byte>, a: nat, limit: nat, unread: seq<Byte>, p: nat)
    requires LineEnd(input) == Some(p) && |b| <= a && Fits(a, limit, p) && limit < p + 2
    ensures Dropped(input, b, limit, unread) ==> GivenUp(input, limit, unread)
  {
    if Dropped(input, b, limit, unread) {
      var k := |input| - |unread|;
      ResumeAtLineEnd(input, p, k);
      FirstUnique(unread, p - k, LineEnd(unread).value);
    }
  }

  lemma AfterDiscard(input: seq<Byte>, b: seq<Byte>, r: Discarded, unread: seq<Byte>)
    requires DiscardOk(input, b, r, unread) && (r.DiscardFailed? ==> unread == [])
    requires LineEnd(input).Some? ==> |b| <= BlockEnd(LineEnd(input).value + 2)
    ensures match r
            case Rest(right) =>
              LineEnd(input).Some? && right + unread == input[LineEnd(input).value + 2..] && |right| < DISCARD_BUFFER_SIZE
            case DiscardEof => LineEnd(input) == None && unread == []
            case DiscardNoData => true
            case DiscardFailed => LineEnd(input) == None
  {
    if LineEnd(input).Some? {
      LostNone(input, unread, LineEnd(input).value);
      if r.Rest? { DiscardKeeps(input, b, r.right, unread, LineEnd(input).value); }
    }
  }

  // From v, a step that gives out leads to v', as the bytes mean, and leaves the
  // connection framed.
  ghost predicate Follows(parse: Parser, maxData: nat, v: ConnView, out: seq<Event>, v': ConnView, a': nat) {
    && Steady(v'.net.turns) && |v'.buffer| <= a' && v'.net.end == v.net.end
    && Framed(parse, maxData, v'.mode, v'.Input(), a')
    && out + Session(parse, maxData, v'.mode, v'.Input(), v.net.end) == Session(parse, maxData, v.mode, v.Input(), v.net.end)
  }

  lemma FramedStep(parse: Parser, maxData: nat, v: ConnView, a: nat) returns (a': nat)
    requires Steady(v.net.turns) && |v.buffer| <= a && Framed(parse, maxData, v.mode, v.Input(), a) && v.mode != Done
    ensures if Breaks(maxData, v) then Session(parse, maxData, v.mode, v.Input(), v.net.end) == []
            else Follows(parse, maxData, v, Act(parse, maxData, v).1, Act(parse, maxData, v).0, a')
  {
    match v.mode
    case AtCommand => a' := FramedCommand(parse, maxData, v, a);
    case AtData(cmd) => a' := FramedData(parse, maxData, v, a, cmd);
    case AtEndLine => a' := FramedEndLine(parse, maxData, v, a);
    case AtEnd =>
      a' := |v.buffer|;
      var none: seq<Event> := [];
      assert [Dispatched(QUIT, [])] + none == [Dispatched(QUIT, [])];
  }

  // A scan that fails ends a broken stream.
  lemma FramedCommand(parse: Parser, maxData: nat, v: ConnView, a: nat) returns (a': nat)
    requires Steady(v.net.turns) && |v.buffer| <= a && v.mode == AtCommand && Framed(parse, maxData, AtCommand, v.Input(), a)
    ensures if Breaks(maxData, v) then Session(parse, maxData, AtCommand, v.Input(), v.net.end) == []
            else Follows(parse, maxData, v, Act(parse, maxData, v).1, Act(parse, maxData, v).0, a')
  {
    hide ScanNet, FirstAt, ScanOk;
    var input, end := v.Input(), v.net.end;
    ScanNetOk(v.net, v.buffer, MAX_CMD_SIZE);
    var (r, n) := ScanNet(v.net, v.buffer, MAX_CMD_SIZE);
    FoundLeaves(input, v.buffer, a, MAX_CMD_SIZE, r, n.stream);
    AfterScan(input, v.buffer, a, MAX_CMD_SIZE, r, n.stream);
    match r
    case Found(left, right) =>
      a' := Leftover(a, |left| + 2, BufferSize(MAX_CMD_SIZE));
    case Eof => a' := 0; AtTheEnd(parse, maxData, n.stream, end);
    case ScanFailed => a' := 0;
    case DelimiterMissing => a' := 0; Skipped(parse, maxData, AtCommand, input, n.stream, end, a); NoBuffer(n.stream);
  }

  lemma FramedData(parse: Parser, maxData: nat, v: ConnView, a: nat, cmd: Cmd) returns (a': nat)
    requires Steady(v.net.turns) && |v.buffer| <= a && v.mode == AtData(cmd) && Framed(parse, maxData, AtData(cmd), v.Input(), a)
    ensures if Breaks(maxData, v) then Session(parse, maxData, AtData(cmd), v.Input(), v.net.end) == []
            else Follows(parse, maxData, v, Act(parse, maxData, v).1, Act(parse, maxData, v).0, a')
  {
    hide ScanNet, FirstAt, ScanOk;
    var input, end := v.Input(), v.net.end;
    ScanNetOk(v.net, v.buffer, maxData);
    var (r, n) := ScanNet(v.net, v.buffer, maxData);
    FoundLeaves(input, v.buffer, a, maxData, r, n.stream);
    AfterScan(input, v.buffer, a, maxData, r, n.stream);
    match r
    case Found(left, right) =>
      a' := Leftover(a, |left| + 2, BufferSize(maxData));
    case Eof => a' := 0; AtTheEnd(parse, maxData, n.stream, end);
    case ScanFailed => a' := 0;
    case DelimiterMissing => a' := 0; Skipped(parse, maxData, AtData(cmd), input, n.stream, end, a); NoBuffer(n.stream);
  }

  lemma FoundLeaves(input: seq<Byte>, b: seq<Byte>, a: nat, limit: nat, r: Scanned, unread: seq<Byte>)
    requires ScanOk(input, b, limit, r, unread) && |b| <= a
    ensures r.Found? ==> |r.right| <= Leftover(a, |r.left| + 2, BufferSize(limit))
  {
  }

  lemma FramedEndLine(parse: Parser, maxData: nat, v: ConnView, a: nat) returns (a': nat)
    requires Steady(v.net.turns) && |v.buffer| <= a && v.mode == AtEndLine && Framed(parse, maxData, AtEndLine, v.Input(), a)
    ensures if Breaks(maxData, v) then Session(parse, maxData, AtEndLine, v.Input(), v.net.end) == []
            else Follows(parse, maxData, v, Act(parse, maxData, v).1, Act(parse, maxData, v).0, a')
  {
    hide DiscardNet, FirstAt, DiscardOk;
    var input, end := v.Input(), v.net.end;
    DiscardNetOk(v.net, v.buffer);
    var (d, n) := DiscardNet(v.net, v.buffer);
    AfterDiscard(input, v.buffer, d, n.stream);
    match d
    case Rest(right) => a' := MAX_SKIP_REST; SessionSkip(parse, maxData, input, LineEnd(input).value, end, a);
    case DiscardEof => a' := 0; AtTheEnd(parse, maxData, n.stream, end);
    case DiscardFailed => a' := 0;
  }

  lemma SessionSkip(parse: Parser, maxData: nat, s: seq<Byte>, p: nat, end: Ending, a: nat)
    requires LineEnd(s) == Some(p) && Framed(parse, maxData, AtEndLine, s, a)
    ensures var none: seq<Event> := [];
            Session(parse, maxData, AtEndLine, s, end) == none + Session(parse, maxData, AtCommand, s[p + 2..], end)
    ensures Framed(parse, maxData, AtCommand, s[p + 2..], MAX_SKIP_REST)
  {
  }

  lemma AtTheEnd(parse: Parser, maxData: nat, unread: seq<Byte>, end: Ending)
    ensures var none: seq<Event> := [];
            && none + Session(parse, maxData, AtEnd, [] + unread, end) == [Dispatched(QUIT, [])]
            && none + [Dispatched(QUIT, [])] == [Dispatched(QUIT, [])] && Framed(parse, maxData, AtEnd, [] + unread, 0)
  {
  }

  // The answer to a line that is too long.
  function TooLong(m: Mode): Event {
    Replied(if m == AtCommand then BadFormat else ExpectCrlf)
  }

  lemma Skipped(parse: Parser, maxData: nat, m: Mode, s: seq<Byte>, unread: seq<Byte>, end: Ending, a: nat)
    requires (m == AtCommand || m.AtData?) && GivenUp(s, Limit(maxData, m), unread) && Framed(parse, maxData, m, s, a)
    ensures Framed(parse, maxData, AtEndLine, unread, 0)
    ensures [TooLong(m)] + Session(parse, maxData, AtEndLine, unread, end) == Session(parse, maxData, m, s, end)
  {
    hide Framed, Session, LineEnd, FirstAt, NoCrlf;
    match LineEnd(s)
    case None => SkippedAll(parse, maxData, m, s, unread, end);
    case Some(p) => SkippedLine(parse, maxData, m, s, p, end, a); ThenLine(parse, maxData, unread, LineEnd(unread).value, end);
  }

  lemma NoBuffer(s: seq<Byte>)
    ensures var none: seq<Byte> := []; none + s == s
  {
  }

  lemma SkippedAll(parse: Parser, maxData: nat, m: Mode, s: seq<Byte>, unread: seq<Byte>, end: Ending)
    requires (m == AtCommand || m.AtData?) && LineEnd(s) == LineEnd(unread) == None && Limit(maxData, m) <= |s|
    ensures Framed(parse, maxData, AtEndLine, unread, 0)
    ensures [TooLong(m)] + Session(parse, maxData, AtEndLine, unread, end) == Session(parse, maxData, m, s, end)
  {
  }

  lemma SkippedLine(parse: Parser, maxData: nat, m: Mode, s: seq<Byte>, p: nat, end: Ending, a: nat)
    requires (m == AtCommand || m.AtData?) && LineEnd(s) == Some(p) && Limit(maxData, m) < p + 2 && Framed(parse, maxData, m, s, a)
    ensures Framed(parse, maxData, AtCommand, s[p + 2..], MAX_SKIP_REST)
    ensures Session(parse, maxData, m, s, end) == [TooLong(m)] + Session(parse, maxData, AtCommand, s[p + 2..], end)
  {
  }

  lemma ThenLine(parse: Parser, maxData: nat, s: seq<Byte>, q: nat, end: Ending)
    requires LineEnd(s) == Some(q) && Framed(parse, maxData, AtCommand, s[q + 2..], MAX_SKIP_REST)
    ensures Framed(parse, maxData, AtEndLine, s, 0)
    ensures Session(parse, maxData, AtEndLine, s, end) == Session(parse, maxData, AtCommand, s[q + 2..], end)
  {
  }

  // Whatever the sizes of the reads: what a framed connection does is what its
  // bytes mean.
  lemma {:induction false} FramedEvents(parse: Parser, maxData: nat, v: ConnView, a: nat)
    requires Steady(v.net.turns) && |v.buffer| <= a && Framed(parse, maxData, v.mode, v.Input(), a)
    ensures Events(parse, maxData, v) == Session(parse, maxData, v.mode, v.Input(), v.net.end)
    decreases v.Measure()
  {
    hide Act, Session, Framed, Breaks;
    if v.mode == Done {
      SessionDone(parse, maxData, v.Input(), v.net.end);
    } else {
      var a' := FramedStep(parse, maxData, v, a);
      if !Breaks(maxData, v) {
        ActShrinks(parse, maxData, v);
        FramedEvents(parse, maxData, Act(parse, maxData, v).0, a');
      }
    }
  }

  lemma SessionDone(parse: Parser, maxData: nat, s: seq<Byte>, end: Ending)
    ensures Session(parse, maxData, Done, s, end) == []
  {
  }

  lemma LineOf(line: seq<Byte>, rest: seq<Byte>)
    requires NoCrlf(line)
    ensures var s := line + CRLF + rest; LineEnd(s) == Some(|line|) && s[..|line|] == line && s[|line| + 2..] == rest
  {
    var s := line + CRLF + rest;
    assert CrlfAt(s, |line|);
    forall i | i < |line| ensures !CrlfAt(s, i) {
      if i + 1 < |line| { assert !CrlfAt(line, i); }
    }
    FirstUnique(s, |line|, LineEnd(s).value);
  }

  // ----- serving a client -------------------------------------------------

  // Serve a client whose bytes come from the network n, for so many rounds. In
  // the end the connection is closed if and only if reading does not fail for
  // good or the client quits; else it answers with errors only.
  method Serve(n: Net, parse: Parser, maxData: nat, rounds: nat) returns (out: seq<Event>, ended: bool)
    ensures var v := ConnView(AtCommand, [], n);
            var es := Events(parse, maxData, v);
            && (ended ==> out == es)
            && (v.Measure() <= rounds ==>
                  && (ended <==> n.end == Closed || Quits(es))
                  && (!ended ==> exists k :: rounds - v.Measure() <= k && out == es + Errors(k)))
            && (Steady(n.turns) && Framed(parse, maxData, AtCommand, n.stream, 0) ==>
                  es == Session(parse, maxData, AtCommand, n.stream, n.end))
  {
    hide Act, Steps, Events, Quits, Session, Framed;
    ghost var v := ConnView(AtCommand, [], n);
    var reader := new Reader(n);
    var conn := new Conn(reader, parse, maxData);
    ghost var k := conn.Tick(rounds);
    out, ended := conn.out, conn.state == Stopped;
    assert [] + Steps(parse, maxData, v, k).1 == Steps(parse, maxData, v, k).1;
    if ended {
      ghost var j := FarSteps(parse, maxData, v, k + v.Measure());
      StepsSum(parse, maxData, v, k, v.Measure());
      DoneStays(parse, maxData, conn.View(), v.Measure());
      assert out + [] == out && Events(parse, maxData, v) + [] == Events(parse, maxData, v);
    } else if v.Measure() <= rounds {
      ghost var j := FarSteps(parse, maxData, v, k);
      assert out == Events(parse, maxData, v) + Errors(k - j);
    }
    if Steady(n.turns) && Framed(parse, maxData, AtCommand, n.stream, 0) {
      assert v.Input() == n.stream;
      FramedEvents(parse, maxData, v, 0);
    }
  }
}
