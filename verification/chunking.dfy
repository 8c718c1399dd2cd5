/** Streams on which the reads decide what a connection does. */
module Chunking {
  import opened Types
  import opened Framing
  import opened Skipping
  import opened Connection
  import opened Hangup
  import opened Meaning

  // put 0 0 1 0
  const PUT_LINE: seq<Byte> := [112, 117, 116, 32, 48, 32, 48, 32, 49, 32, 48]
  // put 0 0 1 16385
  const BIG_LINE: seq<Byte> := [112, 117, 116, 32, 48, 32, 48, 32, 49, 32, 49, 54, 51, 56, 53]
  // stats
  const LINE: seq<Byte> := [115, 116, 97, 116, 115]

  // The size of the largest job, unless it is set otherwise.
  const MAX_DATA := 16384

  // The parser knows the protocol: a put needs data, a put of a job that is too
  // big is refused, and stats is a command by itself.
  predicate Knows(parse: Parser) {
    && parse(PUT_LINE, MAX_DATA).Command? && parse(PUT_LINE, MAX_DATA).cmd.needData
    && parse(BIG_LINE, MAX_DATA) == TooBig
    && parse(LINE, MAX_DATA).Command? && !parse(LINE, MAX_DATA).cmd.needData && !parse(LINE, MAX_DATA).cmd.quit
  }

  // k plain commands.
  function Lines(k: nat): seq<Byte> {
    if k == 0 then [] else LINE + CRLF + Lines(k - 1)
  }

  lemma {:induction false} LinesSum(j: nat, k: nat)
    ensures Lines(j + k) == Lines(j) + Lines(k) && |Lines(k)| == 7 * k
    decreases j + k
  {
    if j > 0 {
      LinesSum(j - 1, k);
      assert LINE + CRLF + (Lines(j - 1) + Lines(k)) == LINE + CRLF + Lines(j - 1) + Lines(k);
    } else if k > 0 {
      LinesSum(0, k - 1);
    }
  }

  lemma SplitLine(line: seq<Byte>, rest: seq<Byte>)
    requires NoCrlf(line)
    ensures Split(line + CRLF + rest) == Parts(line, rest)
  {
    LineOf(line, rest);
  }

  lemma LineFirst(k: nat, tail: seq<Byte>)
    requires k > 0
    ensures var s, rest := Lines(k) + tail, Lines(k - 1) + tail;
            LineEnd(s) == Some(5) && s[..5] == LINE && s[7..] == rest
  {
    assert Lines(k) + tail == LINE + CRLF + (Lines(k - 1) + tail);
    LineOf(LINE, Lines(k - 1) + tail);
  }

  lemma {:induction false} LinesFramed(parse: Parser, k: nat, tail: seq<Byte>, a: nat)
    requires Knows(parse) && NoCrlf(tail)
    ensures Framed(parse, MAX_DATA, AtCommand, Lines(k) + tail, a)
    decreases k
  {
    if k == 0 {
      assert Lines(0) + tail == tail;
    } else {
      hide Lines;
      LineFirst(k, tail);
      LinesFramed(parse, k - 1, tail, Leftover(a, 7, BufferSize(MAX_CMD_SIZE)));
    }
  }

  // The commands are handed on one by one, then the end.
  lemma {:induction false} LinesSession(parse: Parser, k: nat, tail: seq<Byte>)
    requires Knows(parse) && NoCrlf(tail) && |tail| < MAX_CMD_SIZE
    ensures |Session(parse, MAX_DATA, AtCommand, Lines(k) + tail, Closed)| == k + 1
    decreases k
  {
    if k == 0 {
      assert Lines(0) + tail == tail;
    } else {
      hide Lines;
      LineFirst(k, tail);
      LinesSession(parse, k - 1, tail);
    }
  }

  // A put with its data, a put that is too big, and five hundred commands.
  function Stream(): seq<Byte> {
    PUT_LINE + CRLF + (CRLF + (BIG_LINE + CRLF + Lines(500)))
  }

  function Start(turns: seq<Turn>): ConnView {
    ConnView(AtCommand, [], Net(Stream(), turns, Closed))
  }

  lemma StreamLength()
    ensures |Lines(500)| == 3500 && |Stream()| == 3532
  {
    LinesSum(0, 500);
  }

  // After the first line: the data is expected.
  function AfterPut(parse: Parser, turns: seq<Turn>): ConnView
    requires Knows(parse)
  {
    ConnView(AtData(parse(PUT_LINE, MAX_DATA).cmd), [], Net(CRLF + (BIG_LINE + CRLF + Lines(500)), turns, Closed))
  }

  // In either case the first read ends with the first line.
  lemma FirstRead(parse: Parser, turns: seq<Turn>)
    requires Knows(parse)
    ensures Act(parse, MAX_DATA, Start([Upto(13)] + turns)) == (AfterPut(parse, turns), [])
  {
    hide Split, Lines;
    StreamLength();
    var n := Net(Stream(), [Upto(13)] + turns, Closed);
    var none: seq<Byte> := [];
    EmptyWhole();
    assert Stream()[..13] == PUT_LINE + CRLF + none && Stream()[13..] == CRLF + (BIG_LINE + CRLF + Lines(500));
    assert ([Upto(13)] + turns)[1..] == turns;
    SplitLine(PUT_LINE, none);
    assert ReadNet(n, BufferSize(MAX_CMD_SIZE)) == (Data(PUT_LINE + CRLF + none), AfterPut(parse, turns).net);
    assert none + PUT_LINE == PUT_LINE;
  }

  // The second read gets all there is.
  lemma LargeRead(parse: Parser)
    requires Knows(parse)
    ensures Act(parse, MAX_DATA, AfterPut(parse, []))
            == (ConnView(AtCommand, BIG_LINE + CRLF + Lines(500), Net([], [], Closed)), [Dispatched(parse(PUT_LINE, MAX_DATA).cmd, [])])
  {
    hide Split, Lines;
    StreamLength();
    var rest := BIG_LINE + CRLF + Lines(500);
    var none: seq<Byte> := [];
    var n := Net(CRLF + rest, [], Closed);
    EmptyWhole();
    assert none + CRLF + rest == CRLF + rest;
    SplitLine(none, rest);
    assert (CRLF + rest)[..|CRLF + rest|] == CRLF + rest && (CRLF + rest)[|CRLF + rest|..] == [];
    assert ReadNet(n, BufferSize(MAX_DATA)) == (Data(CRLF + rest), Net([], [], Closed));
    assert none + none == none;
  }

  // The line of the big job is in the buffer, with all that follows it ...
  lemma BigJob(parse: Parser, n: Net)
    requires Knows(parse)
    ensures Act(parse, MAX_DATA, ConnView(AtCommand, BIG_LINE + CRLF + Lines(500), n))
            == (ConnView(AtEndLine, Lines(500), n), [Replied(JobTooBig)])
  {
    hide Split, Lines;
    SplitLine(BIG_LINE, Lines(500));
  }

  // ... of which Discard gives back 1017 bytes and forgets the others.
  lemma Forgets(parse: Parser)
    ensures Act(parse, MAX_DATA, ConnView(AtEndLine, Lines(500), Net([], [], Closed)))
            == (ConnView(AtCommand, Lines(145) + LINE[..2], Net([], [], Closed)), [])
  {
    hide Split, Lines;
    LinesHead();
    SplitLine(LINE, Lines(145) + LINE[..2]);
  }

  // The first read of Discard has 146 lines and two bytes of the next.
  lemma LinesHead()
    ensures |Lines(500)| == 3500 && |Lines(145)| == 1015
    ensures Lines(500)[..DISCARD_BUFFER_SIZE] == LINE + CRLF + (Lines(145) + LINE[..2])
  {
    hide Lines;
    LinesSum(146, 354);
    LinesSum(0, 146);
    LinesSum(0, 145);
    OneLine(353);
    OneLine(145);
    var rest := LINE[2..] + CRLF + Lines(353);
    assert Lines(354) == LINE[..2] + rest;
    assert Lines(500) == Lines(146) + LINE[..2] + rest;
    assert LINE + CRLF + Lines(145) + LINE[..2] == LINE + CRLF + (Lines(145) + LINE[..2]);
  }

  lemma OneLine(k: nat)
    ensures Lines(k + 1) == LINE + CRLF + Lines(k)
  {
  }

  // The second read gets the two bytes that end the data.
  lemma SmallRead(parse: Parser)
    requires Knows(parse)
    ensures Act(parse, MAX_DATA, AfterPut(parse, [Upto(2)]))
            == (ConnView(AtCommand, [], Net(BIG_LINE + CRLF + Lines(500), [], Closed)), [Dispatched(parse(PUT_LINE, MAX_DATA).cmd, [])])
  {
    hide Split, Lines;
    StreamLength();
    var rest := BIG_LINE + CRLF + Lines(500);
    var none: seq<Byte> := [];
    var n := Net(CRLF + rest, [Upto(2)], Closed);
    EmptyWhole();
    assert none + CRLF + none == CRLF;
    SplitLine(none, none);
    assert (CRLF + rest)[..2] == CRLF && (CRLF + rest)[2..] == rest;
    assert ReadNet(n, BufferSize(MAX_DATA)) == (Data(CRLF), Net(rest, [], Closed));
    assert none + none == none;
  }

  // The next read ends within the commands.
  lemma NextRead(parse: Parser)
    requires Knows(parse)
    ensures |Lines(500)| == 3500
    ensures Act(parse, MAX_DATA, ConnView(AtCommand, [], Net(BIG_LINE + CRLF + Lines(500), [], Closed)))
            == (ConnView(AtEndLine, Lines(500)[..209], Net(Lines(500)[209..], [], Closed)), [Replied(JobTooBig)])
  {
    hide Split, Lines;
    StreamLength();
    var s := BIG_LINE + CRLF + Lines(500);
    var none: seq<Byte> := [];
    EmptyWhole();
    assert s[..226] == BIG_LINE + CRLF + Lines(500)[..209] && s[226..] == Lines(500)[209..];
    SplitLine(BIG_LINE, Lines(500)[..209]);
    assert ReadNet(Net(s, [], Closed), BufferSize(MAX_CMD_SIZE)) == (Data(s[..226]), Net(s[226..], [], Closed));
    assert none + BIG_LINE == BIG_LINE;
  }

  lemma EventsStep(parse: Parser, v: ConnView)
    requires v.mode != Done && v.net.end == Closed
    ensures var (v', out) := Act(parse, MAX_DATA, v);
            |Events(parse, MAX_DATA, v)| == |out| + |Events(parse, MAX_DATA, v')|
  {
    ClosedNeverBreaks(MAX_DATA, v);
    ActShrinks(parse, MAX_DATA, v);
  }

  lemma LinesSkipped(parse: Parser, v: ConnView)
    requires Knows(parse)
    requires v.mode == AtEndLine && v.Input() == Lines(500) && |v.buffer| <= 209 && v.net.turns == [] && v.net.end == Closed
    ensures |Events(parse, MAX_DATA, v)| == 500
  {
    hide Act;
    assert Lines(500) == LINE + CRLF + Lines(499);
    LineOf(LINE, Lines(499));
    var none: seq<Byte> := [];
    assert Lines(499) + none == Lines(499);
    LinesSession(parse, 499, none);
    LinesFramed(parse, 499, none, MAX_SKIP_REST);
    FramedEvents(parse, MAX_DATA, v, 209);
  }

  // With the large read 145 commands are handed on,
  lemma FewCommands(parse: Parser)
    requires Knows(parse)
    ensures |Events(parse, MAX_DATA, Start([Upto(13)]))| == 148
  {
    hide Act, Session, Lines, Framed;
    assert [Upto(13)] + [] == [Upto(13)];
    FirstRead(parse, []);
    LargeRead(parse);
    BigJob(parse, Net([], [], Closed));
    Forgets(parse);
    var tail := LINE[..2];
    var v := ConnView(AtCommand, Lines(145) + tail, Net([], [], Closed));
    assert v.Input() == Lines(145) + tail;
    LinesSession(parse, 145, tail);
    LinesFramed(parse, 145, tail, |v.buffer|);
    FramedEvents(parse, MAX_DATA, v, |v.buffer|);
    EventsStep(parse, Start([Upto(13)]));
    EventsStep(parse, AfterPut(parse, []));
    EventsStep(parse, ConnView(AtCommand, BIG_LINE + CRLF + Lines(500), Net([], [], Closed)));
    EventsStep(parse, ConnView(AtEndLine, Lines(500), Net([], [], Closed)));
  }

  // with the small one all of them but the one that is skipped.
  lemma AllCommands(parse: Parser)
    requires Knows(parse)
    ensures |Events(parse, MAX_DATA, Start([Upto(13), Upto(2)]))| == 502
  {
    hide Act, Session, Lines, Framed;
    assert [Upto(13)] + [Upto(2)] == [Upto(13), Upto(2)];
    FirstRead(parse, [Upto(2)]);
    SmallRead(parse);
    NextRead(parse);
    StreamLength();
    var v := ConnView(AtEndLine, Lines(500)[..209], Net(Lines(500)[209..], [], Closed));
    assert v.Input() == Lines(500);
    LinesSkipped(parse, v);
    EventsStep(parse, Start([Upto(13), Upto(2)]));
    EventsStep(parse, AfterPut(parse, [Upto(2)]));
    EventsStep(parse, ConnView(AtCommand, [], Net(BIG_LINE + CRLF + Lines(500), [], Closed)));
  }

  // The same bytes at the usual size of the largest job: the sizes of the reads
  // decide which commands are handed on.
  lemma ReadsDecide(parse: Parser)
    requires Knows(parse)
    ensures Events(parse, MAX_DATA, Start([Upto(13)])) != Events(parse, MAX_DATA, Start([Upto(13), Upto(2)]))
  {
    FewCommands(parse);
    AllCommands(parse);
  }

  // ----- a line that is too long ------------------------------------------

  // After a line that is too long by the right amount there are reads with
  // which the next line is lost, whatever it is and whatever comes after it.
  lemma LineSwallowed(parse: Parser, maxData: nat, m: Mode, x: seq<Byte>, line: seq<Byte>, rest: seq<Byte>, end: Ending)
    returns (turns: seq<Turn>, v: ConnView)
    requires (m == AtCommand || m.AtData?) && NoCrlf(x) && NoCrlf(line) && TakesReturn([], Limit(maxData, m), |x|)
    ensures Steady(turns) && v.mode == AtCommand && v.Input() == rest && Steady(v.net.turns) && v.net.end == end
    ensures Steps(parse, maxData, ConnView(m, [], Net(x + CRLF + line + CRLF + rest, turns, end)), 2) == (v, [TooLong(m)])
  {
    hide ScanNet, DiscardNet;
    turns := SwallowsNextLine(x, line, rest, end, Limit(maxData, m));
    var v0 := ConnView(m, [], Net(x + CRLF + line + CRLF + rest, turns, end));
    ScanNetOk(v0.net, [], Limit(maxData, m));
    var v1 := Act(parse, maxData, v0).0;
    DiscardNetOk(v1.net, []);
    v := Act(parse, maxData, v1).0;
    OneStep(parse, maxData, v1);
    assert [TooLong(m)] + [] == [TooLong(m)];
  }

  // So a command is never carried out that follows a line of 225 bytes.
  lemma CommandSwallowed(parse: Parser, maxData: nat, line: seq<Byte>) returns (turns: seq<Turn>)
    requires NoCrlf(line)
    ensures Steady(turns)
    ensures Events(parse, maxData, ConnView(AtCommand, [], Net(Long() + CRLF + line + CRLF, turns, Closed)))
            == [Replied(BadFormat), Dispatched(QUIT, [])]
  {
    hide Act, Long;
    LongLine();
    var none: seq<Byte> := [];
    var v;
    turns, v := LineSwallowed(parse, maxData, AtCommand, Long(), line, none, Closed);
    var s := Long() + CRLF + line + CRLF;
    assert s + none == s;
    var v0 := ConnView(AtCommand, [], Net(s, turns, Closed));
    TwoSteps(parse, maxData, v0);
    assert Framed(parse, maxData, AtCommand, none, |v.buffer|);
    FramedEvents(parse, maxData, v, |v.buffer|);
  }

  function Long(): seq<Byte> {
    seq(225, _ => 120)
  }

  lemma LongLine()
    ensures NoCrlf(Long()) && |Long()| == 225
  {
  }

  lemma TwoSteps(parse: Parser, maxData: nat, v: ConnView)
    requires v.net.end == Closed && v.mode != Done && Sound(v) && Steps(parse, maxData, v, 2).0.mode != Done
    ensures var (w, out) := Steps(parse, maxData, v, 2);
            Events(parse, maxData, v) == out + Events(parse, maxData, w)
  {
    hide Act;
    var (v1, out1) := Act(parse, maxData, v);
    ClosedNeverBreaks(maxData, v);
    ActQuits(parse, maxData, v);
    ClosedNeverBreaks(maxData, v1);
    OneStep(parse, maxData, v1);
    if v1.mode == Done { DoneStays(parse, maxData, v1, 1); }
    var (w, out2) := Act(parse, maxData, v1);
    assert out1 + (out2 + Events(parse, maxData, w)) == out1 + out2 + Events(parse, maxData, w);
  }
}
