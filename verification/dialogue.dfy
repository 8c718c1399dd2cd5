/** What a client sends, request by request, and what becomes of it. */
module Dialogue {
  import opened Types
  import opened Framing
  import opened Skipping
  import opened Connection
  import opened Meaning

  // A command line, and the line after it if one belongs to it: the data of the
  // command, or the data of a job that is too big.
  datatype Request = Request(line: seq<Byte>, data: Option<seq<Byte>>)

  // The line fits, and so does the data of a command; the data of a job that is
  // too big may be of any length.
  ghost predicate Good(parse: Parser, maxData: nat, r: Request) {
    && NoCrlf(r.line) && |r.line| + 2 <= MAX_CMD_SIZE && (r.data.Some? ==> NoCrlf(r.data.value))
    && match parse(r.line, maxData)
       case Refused(_) => r.data.None?
       case TooBig => r.data.Some?
       case Command(cmd) => (cmd.needData <==> r.data.Some?) && (r.data.Some? ==> |r.data.value| + 2 <= maxData)
  }

  function Bytes(r: Request): seq<Byte> {
    r.line + CRLF + if r.data.Some? then r.data.value + CRLF else []
  }

  function Sent(rs: seq<Request>): seq<Byte> {
    if rs == [] then [] else Bytes(rs[0]) + Sent(rs[1..])
  }

  // A line that is refused is answered and nothing else happens; a job that is
  // too big is answered and its data skipped; a command is handed on with its
  // data, if it has any.
  function EventOf(parse: Parser, maxData: nat, r: Request): Event {
    match parse(r.line, maxData)
    case Refused(reply) => Replied(reply)
    case TooBig => Replied(JobTooBig)
    case Command(cmd) => Dispatched(cmd, if r.data.Some? then r.data.value else [])
  }

  // Nothing is handed on after a quit.
  predicate IsQuit(parse: Parser, maxData: nat, r: Request) {
    parse(r.line, maxData).Command? && parse(r.line, maxData).cmd.quit && !parse(r.line, maxData).cmd.needData
  }

  // The events of requests, each by itself and in order, up to the end or a quit.
  function Handed(parse: Parser, maxData: nat, rs: seq<Request>, end: Ending): seq<Event> {
    if rs == [] then (if end == Closed then [Dispatched(QUIT, [])] else [])
    else [EventOf(parse, maxData, rs[0])] + if IsQuit(parse, maxData, rs[0]) then [] else Handed(parse, maxData, rs[1..], end)
  }

  // ----- the bytes of requests mean the requests --------------------------

  lemma LineMeans(parse: Parser, maxData: nat, line: seq<Byte>, rest: seq<Byte>, end: Ending)
    requires NoCrlf(line) && |line| + 2 <= MAX_CMD_SIZE
    ensures var (m, out) := OnLine(parse, maxData, line);
            Session(parse, maxData, AtCommand, line + CRLF + rest, end) == out + Session(parse, maxData, m, rest, end)
  {
    LineOf(line, rest);
  }

  lemma DataMeans(parse: Parser, maxData: nat, cmd: Cmd, data: seq<Byte>, rest: seq<Byte>, end: Ending)
    requires NoCrlf(data)
    ensures Session(parse, maxData, AtEndLine, data + CRLF + rest, end) == Session(parse, maxData, AtCommand, rest, end)
    ensures |data| + 2 <= maxData ==>
              Session(parse, maxData, AtData(cmd), data + CRLF + rest, end)
              == [Dispatched(cmd, data)] + Session(parse, maxData, AtCommand, rest, end)
  {
    LineOf(data, rest);
  }

  lemma OverMeans(parse: Parser, maxData: nat, s: seq<Byte>, end: Ending)
    ensures Session(parse, maxData, Done, s, end) == []
  {
  }

  lemma OneHanded(parse: Parser, maxData: nat, r: Request, rest: seq<Byte>, end: Ending)
    requires Good(parse, maxData, r)
    ensures Session(parse, maxData, AtCommand, Bytes(r) + rest, end)
            == [EventOf(parse, maxData, r)]
               + if IsQuit(parse, maxData, r) then [] else Session(parse, maxData, AtCommand, rest, end)
  {
    hide Session, NoCrlf;
    var none: seq<Event> := [];
    OverMeans(parse, maxData, rest, end);
    match r.data
    case None =>
      LineMeans(parse, maxData, r.line, rest, end);
      assert Bytes(r) + rest == r.line + CRLF + rest;
    case Some(data) =>
      var cmd := if parse(r.line, maxData).Command? then parse(r.line, maxData).cmd else QUIT;
      LineMeans(parse, maxData, r.line, data + CRLF + rest, end);
      DataMeans(parse, maxData, cmd, data, rest, end);
      assert Bytes(r) + rest == r.line + CRLF + (data + CRLF + rest);
      var after := [EventOf(parse, maxData, r)] + Session(parse, maxData, AtCommand, rest, end);
      assert none + after == after;
  }

  // Requests come out as they were sent: refused, skipped or handed on.
  lemma {:induction false} SentIsHanded(parse: Parser, maxData: nat, rs: seq<Request>, end: Ending)
    requires forall i :: 0 <= i < |rs| ==> Good(parse, maxData, rs[i])
    ensures Session(parse, maxData, AtCommand, Sent(rs), end) == Handed(parse, maxData, rs, end)
    decreases |rs|
  {
    if rs == [] {
      var none: seq<Event> := [];
      assert none + Last(end) == Last(end);
    } else {
      SentIsHanded(parse, maxData, rs[1..], end);
      OneHanded(parse, maxData, rs[0], Sent(rs[1..]), end);
    }
  }

  // ----- they are framed --------------------------------------------------

  predicate IsBig(parse: Parser, maxData: nat, r: Request) {
    parse(r.line, maxData) == TooBig
  }

  ghost predicate NoneBig(parse: Parser, maxData: nat, rs: seq<Request>) {
    forall i :: 0 <= i < |rs| ==> !IsBig(parse, maxData, rs[i])
  }

  // The data of no command can leave more in the buffer than one read of
  // Discard, or else there is no job that is too big after it.
  ghost predicate Careful(parse: Parser, maxData: nat, rs: seq<Request>) {
    || maxData <= DISCARD_BUFFER_SIZE
    || forall i, j :: 0 <= i < j < |rs| && IsBig(parse, maxData, rs[j]) ==> rs[i].data.None? || IsBig(parse, maxData, rs[i])
  }

  lemma LineFramed(parse: Parser, maxData: nat, line: seq<Byte>, rest: seq<Byte>, a: nat)
    requires NoCrlf(line) && |line| + 2 <= MAX_CMD_SIZE
    requires Framed(parse, maxData, OnLine(parse, maxData, line).0, rest, Leftover(a, |line| + 2, BufferSize(MAX_CMD_SIZE)))
    ensures Framed(parse, maxData, AtCommand, line + CRLF + rest, a)
  {
    LineOf(line, rest);
  }

  lemma DataFramed(parse: Parser, maxData: nat, cmd: Cmd, data: seq<Byte>, rest: seq<Byte>, a: nat)
    requires NoCrlf(data) && |data| + 2 <= maxData
    requires Framed(parse, maxData, AtCommand, rest, Leftover(a, |data| + 2, BufferSize(maxData)))
    ensures Framed(parse, maxData, AtData(cmd), data + CRLF + rest, a)
  {
    LineOf(data, rest);
  }

  lemma SkipFramed(parse: Parser, maxData: nat, data: seq<Byte>, rest: seq<Byte>, a: nat)
    requires NoCrlf(data) && a <= MAX_SKIP_REST && Framed(parse, maxData, AtCommand, rest, MAX_SKIP_REST)
    ensures Framed(parse, maxData, AtEndLine, data + CRLF + rest, a)
  {
    LineOf(data, rest);
  }

  lemma OverFramed(parse: Parser, maxData: nat, s: seq<Byte>, a: nat)
    ensures Framed(parse, maxData, Done, s, a)
  {
  }

  // What may be in the buffer after a request.
  function LeftAfter(parse: Parser, maxData: nat, r: Request, a: nat): nat {
    var a' := Leftover(a, |r.line| + 2, BufferSize(MAX_CMD_SIZE));
    match r.data
    case None => a'
    case Some(data) => if IsBig(parse, maxData, r) then MAX_SKIP_REST else Leftover(a', |data| + 2, BufferSize(maxData))
  }

  lemma OneFramed(parse: Parser, maxData: nat, r: Request, rest: seq<Byte>, a: nat)
    requires Good(parse, maxData, r) && (IsBig(parse, maxData, r) ==> a <= MAX_SKIP_REST)
    requires Framed(parse, maxData, AtCommand, rest, LeftAfter(parse, maxData, r, a))
    ensures Framed(parse, maxData, AtCommand, Bytes(r) + rest, a)
  {
    hide Framed, NoCrlf;
    var a' := Leftover(a, |r.line| + 2, BufferSize(MAX_CMD_SIZE));
    OverFramed(parse, maxData, rest, a');
    match r.data
    case None =>
      LineFramed(parse, maxData, r.line, rest, a);
      assert Bytes(r) + rest == r.line + CRLF + rest;
    case Some(data) =>
      if IsBig(parse, maxData, r) {
        SkipFramed(parse, maxData, data, rest, a');
      } else {
        DataFramed(parse, maxData, parse(r.line, maxData).cmd, data, rest, a');
      }
      LineFramed(parse, maxData, r.line, data + CRLF + rest, a);
      assert Bytes(r) + rest == r.line + CRLF + (data + CRLF + rest);
  }

  lemma {:induction false} SentIsFramed(parse: Parser, maxData: nat, rs: seq<Request>, a: nat)
    requires forall i :: 0 <= i < |rs| ==> Good(parse, maxData, rs[i])
    requires NoneBig(parse, maxData, rs) || (a <= MAX_SKIP_REST && Careful(parse, maxData, rs))
    ensures Framed(parse, maxData, AtCommand, Sent(rs), a)
    decreases |rs|
  {
    if rs != [] {
      hide Framed, NoCrlf;
      CarefulOn(parse, maxData, rs, a);
      SentIsFramed(parse, maxData, rs[1..], LeftAfter(parse, maxData, rs[0], a));
      OneFramed(parse, maxData, rs[0], Sent(rs[1..]), a);
    } else {
      NoLineEnd([]);
    }
  }

  lemma CarefulOn(parse: Parser, maxData: nat, rs: seq<Request>, a: nat)
    requires rs != [] && (NoneBig(parse, maxData, rs) || (a <= MAX_SKIP_REST && Careful(parse, maxData, rs)))
    ensures var a' := LeftAfter(parse, maxData, rs[0], a);
            NoneBig(parse, maxData, rs[1..]) || (a' <= MAX_SKIP_REST && Careful(parse, maxData, rs[1..]))
    ensures IsBig(parse, maxData, rs[0]) ==> a <= MAX_SKIP_REST
  {
    var rest := rs[1..];
    assert forall i :: 0 <= i < |rest| ==> rest[i] == rs[i + 1];
  }

  // Whatever the reads, a connection does with each request what is to be done
  // with it, in order.
  lemma RequestsServed(parse: Parser, maxData: nat, rs: seq<Request>, turns: seq<Turn>, end: Ending)
    requires forall i :: 0 <= i < |rs| ==> Good(parse, maxData, rs[i])
    requires Careful(parse, maxData, rs) && Steady(turns)
    ensures Events(parse, maxData, ConnView(AtCommand, [], Net(Sent(rs), turns, end))) == Handed(parse, maxData, rs, end)
  {
    hide Events, Framed, Session, Handed, Careful;
    var v := ConnView(AtCommand, [], Net(Sent(rs), turns, end));
    assert v.Input() == Sent(rs);
    SentIsFramed(parse, maxData, rs, 0);
    FramedEvents(parse, maxData, v, 0);
    SentIsHanded(parse, maxData, rs, end);
  }
}
