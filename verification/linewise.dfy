/** A connection cuts its stream into the lines it is meant to, whatever the
    reads, if and only if the stream is framed. */
module Linewise {
  import opened Types
  import opened Framing
  import opened Skipping
  import opened Connection
  import opened Meaning

  // What a connection waits for, and the bytes from there on.
  type Mark = (Mode, seq<Byte>)

  function MarkOf(v: ConnView): seq<Mark> {
    if v.mode == AtCommand || v.mode.AtData? then [(v.mode, v.Input())] else []
  }

  // Where the lines of a connection begin, as it goes on.
  function Log(parse: Parser, maxData: nat, v: ConnView): seq<Mark>
    decreases v.Measure()
  {
    if v.mode == Done then []
    else
      MarkOf(v)
      + if Breaks(maxData, v) then [] else (ActShrinks(parse, maxData, v); Log(parse, maxData, Act(parse, maxData, v).0))
  }

  // What is waited for after a line.
  function NextMode(parse: Parser, maxData: nat, m: Mode, s: seq<Byte>, p: nat): Mode
    requires p <= |s|
  {
    if m == AtCommand && p + 2 <= MAX_CMD_SIZE then OnLine(parse, maxData, s[..p]).0 else AtCommand
  }

  // Where the lines of s begin.
  function MeantLog(parse: Parser, maxData: nat, m: Mode, s: seq<Byte>): seq<Mark>
    decreases |s|
  {
    if m == AtEnd || m == Done then []
    else
      (if m == AtEndLine then [] else [(m, s)])
      + match LineEnd(s)
        case None => []
        case Some(p) => MeantLog(parse, maxData, NextMode(parse, maxData, m, s, p), s[p + 2..])
  }

  lemma MeantNone(parse: Parser, maxData: nat, m: Mode, s: seq<Byte>)
    requires LineEnd(s) == None && m != AtEnd && m != Done
    ensures MeantLog(parse, maxData, m, s) == if m == AtEndLine then [] else [(m, s)]
  {
  }

  lemma MeantLine(parse: Parser, maxData: nat, m: Mode, s: seq<Byte>, p: nat)
    requires LineEnd(s) == Some(p) && m != AtEnd && m != Done
    ensures var rest := MeantLog(parse, maxData, NextMode(parse, maxData, m, s, p), s[p + 2..]);
            MeantLog(parse, maxData, m, s) == if m == AtEndLine then rest else [(m, s)] + rest
  {
    hide NextMode, LineEnd;
    var rest := MeantLog(parse, maxData, NextMode(parse, maxData, m, s, p), s[p + 2..]);
    assert [] + rest == rest;
  }

  // ----- framed streams ---------------------------------------------------

  lemma ActScan(parse: Parser, maxData: nat, v: ConnView)
    requires v.mode == AtCommand || v.mode.AtData?
    ensures var (r, n) := ScanNet(v.net, v.buffer, Limit(maxData, v.mode));
            var v' := Act(parse, maxData, v).0;
            && (Breaks(maxData, v) <==> r == ScanFailed && Dead(n))
            && match r
               case Found(left, right) => v' == ConnView(if v.mode == AtCommand then OnLine(parse, maxData, left).0 else AtCommand, right, n)
               case Eof => v' == ConnView(AtEnd, [], n)
               case DelimiterMissing => v' == ConnView(AtEndLine, [], n)
               case _ => true
  {
    hide ScanNet, OnLine;
  }

  lemma LogScan(parse: Parser, maxData: nat, v: ConnView, a: nat)
    requires Steady(v.net.turns) && |v.buffer| <= a && (v.mode == AtCommand || v.mode.AtData?)
    requires Framed(parse, maxData, v.mode, v.Input(), a)
    ensures MeantLog(parse, maxData, v.mode, v.Input()) ==
            MarkOf(v) + if Breaks(maxData, v) then []
                        else var v' := Act(parse, maxData, v).0; MeantLog(parse, maxData, v'.mode, v'.Input())
  {
    hide ScanNet, FirstAt, ScanOk, OnLine, MeantLog, LineEnd, Fits, Act, Breaks, Framed;
    var limit := Limit(maxData, v.mode);
    var s := v.Input();
    AllFits(parse, maxData, v.mode, s, a);
    ScanNetOk(v.net, v.buffer, limit);
    var (r, n) := ScanNet(v.net, v.buffer, limit);
    AfterScan(s, v.buffer, a, limit, r, n.stream);
    ActScan(parse, maxData, v);
    MeantScan(parse, maxData, v.mode, s, r, n.stream);
    NoBuffer(n.stream);
  }

  // What is meant after a scan.
  lemma MeantScan(parse: Parser, maxData: nat, m: Mode, s: seq<Byte>, r: Scanned, unread: seq<Byte>)
    requires m == AtCommand || m.AtData?
    requires match r
             case Found(left, right) =>
               && LineEnd(s) == Some(|left|) && |left| + 2 <= Limit(maxData, m) && |left| + 2 <= |s|
               && left == s[..|left|] && right + unread == s[|left| + 2..]
             case Eof => LineEnd(s) == None
             case ScanFailed => LineEnd(s) == None
             case DelimiterMissing => GivenUp(s, Limit(maxData, m), unread)
             case NoData(_) => true
    ensures match r
            case Found(left, right) =>
              MeantLog(parse, maxData, m, s)
              == [(m, s)] + MeantLog(parse, maxData, if m == AtCommand then OnLine(parse, maxData, left).0 else AtCommand, right + unread)
            case Eof => MeantLog(parse, maxData, m, s) == [(m, s)] + MeantLog(parse, maxData, AtEnd, unread)
            case ScanFailed => MeantLog(parse, maxData, m, s) == [(m, s)] + []
            case DelimiterMissing => MeantLog(parse, maxData, m, s) == [(m, s)] + MeantLog(parse, maxData, AtEndLine, unread)
            case NoData(_) => true
  {
    hide OnLine, MeantLog, LineEnd;
    var none: seq<Mark> := [];
    assert [(m, s)] + none == [(m, s)];
    MeantOver(parse, maxData, unread);
    match LineEnd(s)
    case None =>
      MeantNone(parse, maxData, m, s);
      if r == DelimiterMissing { MeantNone(parse, maxData, AtEndLine, unread); }
    case Some(p) =>
      if r.Found? || r == DelimiterMissing { MeantLine(parse, maxData, m, s, p); }
      if r == DelimiterMissing { MeantLine(parse, maxData, AtEndLine, unread, LineEnd(unread).value); }
  }

  lemma MeantOver(parse: Parser, maxData: nat, s: seq<Byte>)
    ensures MeantLog(parse, maxData, AtEnd, s) == []
  {
  }

  lemma AllFits(parse: Parser, maxData: nat, m: Mode, s: seq<Byte>, a: nat)
    requires (m == AtCommand || m.AtData?) && Framed(parse, maxData, m, s, a)
    ensures LineEnd(s).Some? ==> Fits(a, Limit(maxData, m), LineEnd(s).value)
  {
  }

  lemma LogSkip(parse: Parser, maxData: nat, v: ConnView, a: nat)
    requires Steady(v.net.turns) && |v.buffer| <= a && v.mode == AtEndLine
    requires Framed(parse, maxData, v.mode, v.Input(), a)
    ensures MeantLog(parse, maxData, v.mode, v.Input()) ==
            if Breaks(maxData, v) then []
            else var v' := Act(parse, maxData, v).0; MeantLog(parse, maxData, v'.mode, v'.Input())
  {
    hide DiscardNet, FirstAt, DiscardOk;
    DiscardNetOk(v.net, v.buffer);
    var (d, n) := DiscardNet(v.net, v.buffer);
    AfterDiscard(v.Input(), v.buffer, d, n.stream);
  }

  lemma {:induction false} FramedLog(parse: Parser, maxData: nat, v: ConnView, a: nat)
    requires Steady(v.net.turns) && |v.buffer| <= a && Framed(parse, maxData, v.mode, v.Input(), a)
    ensures Log(parse, maxData, v) == MeantLog(parse, maxData, v.mode, v.Input())
    decreases v.Measure()
  {
    hide Act, Framed, Breaks;
    if v.mode != Done {
      var a' := FramedStep(parse, maxData, v, a);
      if v.mode == AtCommand || v.mode.AtData? { LogScan(parse, maxData, v, a); }
      if v.mode == AtEndLine { LogSkip(parse, maxData, v, a); }
      if v.mode == AtEnd { LogEnd(parse, maxData, v); }
      if !Breaks(maxData, v) {
        ActShrinks(parse, maxData, v);
        FramedLog(parse, maxData, Act(parse, maxData, v).0, a');
      }
    }
  }

  lemma LogEnd(parse: Parser, maxData: nat, v: ConnView)
    requires v.mode == AtEnd
    ensures !Breaks(maxData, v) && MeantLog(parse, maxData, v.mode, v.Input()) == []
    ensures var v' := Act(parse, maxData, v).0; MeantLog(parse, maxData, v'.mode, v'.Input()) == []
  {
  }

  // ----- other streams ----------------------------------------------------

  // The reads with which a line is found and k bytes after it are read as well.
  function LineTurns(p: nat, k: nat, more: seq<Turn>): seq<Turn> {
    Ones(p + 1) + ([Upto(1 + k)] + more)
  }

  lemma LineTurnsSteady(p: nat, k: nat, more: seq<Turn>)
    requires Steady(more)
    ensures Steady(LineTurns(p, k, more))
  {
  }

  // The read that has the line feed of the delimiter at p as its first byte.
  lemma FeedRead(s: seq<Byte>, end: Ending, p: nat, k: nat, more: seq<Turn>, max: nat)
    requires CrlfAt(s, p) && k < max && p + 2 + k <= |s|
    ensures var c := s[p + 1..p + 2 + k];
            && ReadNet(Net(s[p + 1..], [Upto(1 + k)] + more, end), max) == (Data(c), Net(s[p + 2 + k..], more, end))
            && c[0] == LF && c[1..] == s[p + 2..p + 2 + k]
  {
    var u := s[p + 1..];
    assert u[..1 + k] == s[p + 1..p + 2 + k] && u[1 + k..] == s[p + 2 + k..];
    assert ([Upto(1 + k)] + more)[0] == Upto(1 + k) && ([Upto(1 + k)] + more)[1..] == more;
  }

  lemma FindsLine(s: seq<Byte>, end: Ending, p: nat, limit: nat, k: nat, more: seq<Turn>)
    requires FirstAt(s, p) && p + 2 <= limit && k < BufferSize(limit) && p + 2 + k <= |s|
    ensures ScanNet(Net(s, LineTurns(p, k, more), end), [], limit)
            == (Found(s[..p], s[p + 2..p + 2 + k]), Net(s[p + 2 + k..], more, end))
  {
    hide NoCrlf;
    EmptyWhole();
    FirstBefore(s, p);
    var none: seq<Byte> := [];
    assert none + s[..p + 1] == s[..p + 1];
    ByteByByte(s, [Upto(1 + k)] + more, end, none, p + 1, limit);
    FeedRead(s, end, p, k, more, BufferSize(limit));
    assert s[..p + 1][..p] == s[..p];
  }

  lemma GivesUp(s: seq<Byte>, end: Ending, p: nat, limit: nat, more: seq<Turn>)
    requires FirstAt(s, p) && limit <= p + 1
    ensures ScanNet(Net(s, Ones(limit) + more, end), [], limit) == (DelimiterMissing, Net(s[limit..], more, end))
  {
    hide NoCrlf;
    EmptyWhole();
    FirstBefore(s, p);
    var none: seq<Byte> := [];
    assert s[..p + 1] == s[..limit] + s[limit..p + 1] && none + s[..limit] == s[..limit];
    NoneBefore(s[..limit], s[limit..p + 1]);
    ByteByByte(s, more, end, none, limit, limit);
  }

  // Skipping byte by byte what has no delimiter.
  lemma {:induction false} SkipBytes(s: seq<Byte>, end: Ending, k: nat, cr: bool, more: seq<Turn>)
    requires k <= |s| && NoCrlf(s[..k]) && (cr && k > 0 ==> s[0] != LF)
    ensures DiscardFrom(Net(s, Ones(k) + more, end), [], cr)
            == DiscardFrom(Net(s[k..], more, end), [], if k == 0 then cr else s[k - 1] == CR)
    decreases k
  {
    if k == 0 {
      assert Ones(0) + more == more && s[0..] == s;
    } else {
      var c, rest := s[..1], s[1..];
      assert (Ones(k) + more)[0] == Upto(1) && (Ones(k) + more)[1..] == Ones(k - 1) + more;
      assert ReadNet(Net(s, Ones(k) + more, end), DISCARD_BUFFER_SIZE) == (Data(c), Net(rest, Ones(k - 1) + more, end));
      NoneAfter(s, k);
      SkipBytes(rest, end, k - 1, s[0] == CR, more);
      assert rest[k - 1..] == s[k..];
    }
  }

  lemma NoneAfter(s: seq<Byte>, k: nat)
    requires 0 < k <= |s| && NoCrlf(s[..k])
    ensures NoCrlf(s[1..][..k - 1]) && NoCrlf(s[..1]) && (k > 1 && s[0] == CR ==> s[1] != LF)
  {
    var u := s[..k];
    assert !CrlfAt(u, 0);
    var w := s[1..][..k - 1];
    forall i ensures !CrlfAt(w, i) { assert !CrlfAt(u, i + 1); }
  }

  lemma SkipsLine(s: seq<Byte>, end: Ending, p: nat, k: nat, more: seq<Turn>)
    requires FirstAt(s, p) && k < DISCARD_BUFFER_SIZE && p + 2 + k <= |s|
    ensures DiscardNet(Net(s, LineTurns(p, k, more), end), []) == (Rest(s[p + 2..p + 2 + k]), Net(s[p + 2 + k..], more, end))
  {
    hide NoCrlf;
    FirstBefore(s, p);
    SkipBytes(s, end, p + 1, false, [Upto(1 + k)] + more);
    FeedRead(s, end, p, k, more, DISCARD_BUFFER_SIZE);
  }

  // ----- the steps of such reads ------------------------------------------

  lemma FoundLog(parse: Parser, maxData: nat, v: ConnView, left: seq<Byte>, right: seq<Byte>, n: Net)
    requires (v.mode == AtCommand || v.mode.AtData?) && ScanNet(v.net, v.buffer, Limit(maxData, v.mode)) == (Found(left, right), n)
    ensures var m := if v.mode == AtCommand then OnLine(parse, maxData, left).0 else AtCommand;
            Log(parse, maxData, v) == MarkOf(v) + Log(parse, maxData, ConnView(m, right, n))
  {
    hide ScanNet, OnLine;
    ActShrinks(parse, maxData, v);
  }

  lemma SkippedLog(parse: Parser, maxData: nat, b: seq<Byte>, n: Net, right: seq<Byte>, n': Net)
    requires DiscardNet(n, b) == (Rest(right), n')
    ensures Log(parse, maxData, ConnView(AtEndLine, b, n)) == Log(parse, maxData, ConnView(AtCommand, right, n'))
  {
    hide DiscardNet;
    var v := ConnView(AtEndLine, b, n);
    ActShrinks(parse, maxData, v);
    assert MarkOf(v) == [];
  }

  lemma GivenUpLog(parse: Parser, maxData: nat, v: ConnView, n: Net)
    requires (v.mode == AtCommand || v.mode.AtData?) && ScanNet(v.net, v.buffer, Limit(maxData, v.mode)) == (DelimiterMissing, n)
    ensures Log(parse, maxData, v) == MarkOf(v) + Log(parse, maxData, ConnView(AtEndLine, [], n))
  {
    hide ScanNet;
    ActShrinks(parse, maxData, v);
  }

  // The next line begins where it is meant to, if any does.
  lemma LogStart(parse: Parser, maxData: nat, v: ConnView)
    requires v.mode == AtCommand
    ensures Log(parse, maxData, v) != [] && Log(parse, maxData, v)[0] == (AtCommand, v.Input())
    ensures MeantLog(parse, maxData, AtCommand, v.Input())[0] == (AtCommand, v.Input())
  {
  }

  // After a line feed alone the next line is missed.
  lemma MissesLine(parse: Parser, maxData: nat, n: Net)
    requires n.turns == [] && n.stream != [] && n.stream[0] == LF
    ensures var log := Log(parse, maxData, ConnView(AtEndLine, [], n)); log == [] || log[0] != (AtCommand, n.stream[1..])
  {
    hide DiscardNet, DiscardOk, ScanNet;
    var none: seq<Byte> := [];
    assert none + n.stream == n.stream;
    var v := ConnView(AtEndLine, none, n);
    DiscardNetOk(n, none);
    var (d, n') := DiscardNet(n, none);
    match d
    case Rest(right) =>
      var q := DiscardTakes(n.stream, none, right, n'.stream);
      SkippedLog(parse, maxData, none, n, right, n');
      LogStart(parse, maxData, ConnView(AtCommand, right, n'));
      assert |right + n'.stream| < |n.stream[1..]|;
    case DiscardEof => EofLog(parse, maxData, v);
    case DiscardFailed =>
  }

  lemma EofLog(parse: Parser, maxData: nat, v: ConnView)
    requires v.mode == AtEndLine && DiscardNet(v.net, v.buffer).0 == DiscardEof
    ensures Log(parse, maxData, v) == []
  {
    hide DiscardNet;
    ActShrinks(parse, maxData, v);
    EndLog(parse, maxData, Act(parse, maxData, v).0);
    assert MarkOf(v) == [];
  }

  lemma EndLog(parse: Parser, maxData: nat, v: ConnView)
    requires v.mode == AtEnd
    ensures Log(parse, maxData, v) == []
  {
    ActShrinks(parse, maxData, v);
    assert MarkOf(v) == [];
  }

  // The run from buffer and network is not the one that is meant.
  ghost predicate Astray(parse: Parser, maxData: nat, m: Mode, s: seq<Byte>, end: Ending, k: nat, turns: seq<Turn>) {
    && k <= |s| && Steady(turns)
    && Log(parse, maxData, ConnView(m, s[..k], Net(s[k..], turns, end))) != MeantLog(parse, maxData, m, s)
  }

  // A line that does not fit.
  lemma Unfit(parse: Parser, maxData: nat, m: Mode, s: seq<Byte>, end: Ending, a: nat, p: nat) returns (k: nat, turns: seq<Turn>)
    requires (m == AtCommand || m.AtData?) && LineEnd(s) == Some(p) && !Fits(a, Limit(maxData, m), p)
    ensures k <= a && Astray(parse, maxData, m, s, end, k, turns)
  {
    hide ScanNet, Astray, NoCrlf, FirstAt, Fits, TakesReturn;
    var limit := Limit(maxData, m);
    k := if p + 1 < limit + BufferSize(limit) then 0 else p + 1;
    AtFeed(s, p);
    UnfitTakes(a, limit, p, s[..k]);
    assert s[..k] + s[k..] == s;
    turns := TakesTheReturn(s[..k], s[k..], end, limit, p);
    assert s[k..][p + 1 - k..] == s[p + 1..];
    Swallows(parse, maxData, m, s, end, k, turns, p);
  }

  lemma UnfitTakes(a: nat, limit: nat, p: nat, b: seq<Byte>)
    requires !Fits(a, limit, p) && |b| == if p + 1 < limit + BufferSize(limit) then 0 else p + 1
    ensures |b| <= a && TakesReturn(b, limit, p) && limit < p + 2
  {
  }

  lemma Swallows(parse: Parser, maxData: nat, m: Mode, s: seq<Byte>, end: Ending, k: nat, turns: seq<Turn>, p: nat)
    requires (m == AtCommand || m.AtData?) && LineEnd(s) == Some(p) && Limit(maxData, m) < p + 2 && k <= |s| && Steady(turns)
    requires ScanNet(Net(s[k..], turns, end), s[..k], Limit(maxData, m)) == (DelimiterMissing, Net(s[p + 1..], [], end))
    ensures Astray(parse, maxData, m, s, end, k, turns)
  {
    hide ScanNet, Log, MeantLog, FirstAt, NoCrlf, LineEnd;
    AtFeed(s, p);
    var n := Net(s[p + 1..], [], end);
    assert s[..k] + s[k..] == s;
    GivenUpLog(parse, maxData, ConnView(m, s[..k], Net(s[k..], turns, end)), n);
    MissesLine(parse, maxData, n);
    MeantLine(parse, maxData, m, s, p);
    MeantStart(parse, maxData, s[p + 2..]);
    Differ((m, s), Log(parse, maxData, ConnView(AtEndLine, [], n)), MeantLog(parse, maxData, AtCommand, s[p + 2..]));
  }

  lemma AtFeed(s: seq<Byte>, p: nat)
    requires LineEnd(s) == Some(p)
    ensures p + 2 <= |s| && s[p + 1] == LF && s[p + 1..][1..] == s[p + 2..]
  {
  }

  lemma MeantStart(parse: Parser, maxData: nat, s: seq<Byte>)
    ensures MeantLog(parse, maxData, AtCommand, s) != [] && MeantLog(parse, maxData, AtCommand, s)[0] == (AtCommand, s)
  {
  }

  lemma Differ(x: Mark, a: seq<Mark>, b: seq<Mark>)
    requires a != b
    ensures [x] + a != [x] + b
  {
    assert ([x] + a)[1..] == a && ([x] + b)[1..] == b;
  }

  // A line to skip with bytes of the buffer beyond the read that has its end.
  lemma Overfull(parse: Parser, maxData: nat, s: seq<Byte>, end: Ending, k: nat, p: nat)
    requires LineEnd(s) == Some(p) && k <= |s| && BlockEnd(p + 2) < k
    ensures Astray(parse, maxData, AtEndLine, s, end, k, [])
  {
    hide DiscardNet, DiscardOk, Log, MeantLog;
    var n := Net(s[k..], [], end);
    assert s[..k] + s[k..] == s;
    DiscardNetOk(n, s[..k]);
    var (d, n') := DiscardNet(n, s[..k]);
    RestOnly(s, s[..k], d, n'.stream, p);
    DiscardKeeps(s, s[..k], d.right, n'.stream, p);
    SkippedLog(parse, maxData, s[..k], n, d.right, n');
    LogStart(parse, maxData, ConnView(AtCommand, d.right, n'));
    MeantLine(parse, maxData, AtEndLine, s, p);
    MeantStart(parse, maxData, s[p + 2..]);
  }

  lemma RestOnly(s: seq<Byte>, b: seq<Byte>, d: Discarded, unread: seq<Byte>, p: nat)
    requires DiscardOk(s, b, d, unread) && FirstAt(s, p) && !d.DiscardNoData? && (d.DiscardFailed? ==> unread == [])
    ensures d.Rest?
  {
    LostNone(s, unread, p);
  }

  // A line of a mode that goes on astray after it.
  lemma Extend(parse: Parser, maxData: nat, m: Mode, s: seq<Byte>, end: Ending, a: nat, p: nat, k': nat, turns': seq<Turn>)
    returns (k: nat, turns: seq<Turn>)
    requires (m == AtCommand || m.AtData?) && LineEnd(s) == Some(p) && p + 2 <= Limit(maxData, m)
    requires k' <= Leftover(a, p + 2, BufferSize(Limit(maxData, m)))
    requires Astray(parse, maxData, NextMode(parse, maxData, m, s, p), s[p + 2..], end, k', turns')
    ensures k <= a && Astray(parse, maxData, m, s, end, k, turns)
  {
    hide ScanNet, Log, MeantLog, NoCrlf;
    var limit := Limit(maxData, m);
    var right, n := s[p + 2..][..k'], Net(s[p + 2..][k'..], turns', end);
    if k' < BufferSize(limit) {
      k, turns := 0, LineTurns(p, k', turns');
      LineTurnsSteady(p, k', turns');
      FindsLine(s, end, p, limit, k', turns');
      assert s[..0] == [] && s[0..] == s;
    } else {
      k, turns := p + 2 + k', turns';
      InBuffer(s, p, k);
    }
    assert right == s[p + 2..p + 2 + k'] && n.stream == s[p + 2 + k'..];
    var v := ConnView(m, s[..k], Net(s[k..], turns, end));
    assert s[..k] + s[k..] == s;
    FoundLog(parse, maxData, v, s[..p], right, n);
    MeantLine(parse, maxData, m, s, p);
    var v' := ConnView(NextMode(parse, maxData, m, s, p), right, n);
    Differ((m, s), Log(parse, maxData, v'), MeantLog(parse, maxData, v'.mode, s[p + 2..]));
  }

  lemma InBuffer(s: seq<Byte>, p: nat, k: nat)
    requires FirstAt(s, p) && p + 2 <= k <= |s|
    ensures forall n, limit :: ScanNet(n, s[..k], limit) == (Found(s[..p], s[p + 2..k]), n)
  {
    var b := s[..k];
    assert FirstAt(b, p) by {
      assert CrlfAt(b, p);
      forall i | i < p ensures !CrlfAt(b, i) { assert !CrlfAt(s, i); }
    }
    FirstUnique(b, p, |Split(b).left|);
    assert b[..p] == s[..p] && b[p + 2..] == s[p + 2..k];
  }

  // A line to skip.
  lemma ExtendSkip(parse: Parser, maxData: nat, s: seq<Byte>, end: Ending, p: nat, k': nat, turns': seq<Turn>)
    requires LineEnd(s) == Some(p) && k' <= MAX_SKIP_REST && Astray(parse, maxData, AtCommand, s[p + 2..], end, k', turns')
    ensures Astray(parse, maxData, AtEndLine, s, end, 0, LineTurns(p, k', turns'))
  {
    hide DiscardNet, Log, MeantLog;
    var right, n := s[p + 2..][..k'], Net(s[p + 2..][k'..], turns', end);
    LineTurnsSteady(p, k', turns');
    SkipsLine(s, end, p, k', turns');
    assert right == s[p + 2..p + 2 + k'] && n.stream == s[p + 2 + k'..];
    assert s[..0] == [] && s[0..] == s;
    SkippedLog(parse, maxData, [], Net(s, LineTurns(p, k', turns'), end), right, n);
    MeantLine(parse, maxData, AtEndLine, s, p);
  }

  // A line that is too long.
  lemma ExtendLong(parse: Parser, maxData: nat, m: Mode, s: seq<Byte>, end: Ending, p: nat, k': nat, turns': seq<Turn>)
    returns (turns: seq<Turn>)
    requires (m == AtCommand || m.AtData?) && LineEnd(s) == Some(p) && Limit(maxData, m) <= p && k' <= MAX_SKIP_REST
    requires Astray(parse, maxData, AtCommand, s[p + 2..], end, k', turns')
    ensures Astray(parse, maxData, m, s, end, 0, turns)
  {
    hide ScanNet, Astray, NoCrlf;
    var limit := Limit(maxData, m);
    LaterLine(s, p, limit);
    var more := LineTurns(p - limit, k', turns');
    ExtendSkip(parse, maxData, s[limit..], end, p - limit, k', turns');
    turns := Ones(limit) + more;
    GivesUp(s, end, p, limit, more);
    SkipsAstray(parse, maxData, m, s, end, more, p);
  }

  lemma SkipsAstray(parse: Parser, maxData: nat, m: Mode, s: seq<Byte>, end: Ending, more: seq<Turn>, p: nat)
    requires (m == AtCommand || m.AtData?) && LineEnd(s) == Some(p) && Limit(maxData, m) <= p < |s|
    requires var limit := Limit(maxData, m);
             && ScanNet(Net(s, Ones(limit) + more, end), [], limit) == (DelimiterMissing, Net(s[limit..], more, end))
             && Astray(parse, maxData, AtEndLine, s[limit..], end, 0, more)
    ensures Astray(parse, maxData, m, s, end, 0, Ones(Limit(maxData, m)) + more)
  {
    hide ScanNet, Log, MeantLog, FirstAt, NoCrlf, LineEnd;
    var limit := Limit(maxData, m);
    var rest := s[limit..];
    AtFeed(s, p);
    LaterLine(s, p, limit);
    assert s[..0] == [] && s[0..] == s && rest[..0] == [] && rest[0..] == rest;
    var v := ConnView(m, [], Net(s, Ones(limit) + more, end));
    assert v.Input() == s;
    GivenUpLog(parse, maxData, v, Net(rest, more, end));
    MeantLine(parse, maxData, m, s, p);
    MeantLine(parse, maxData, AtEndLine, rest, p - limit);
    Differ((m, s), Log(parse, maxData, ConnView(AtEndLine, [], Net(rest, more, end))), MeantLog(parse, maxData, AtCommand, s[p + 2..]));
  }

  lemma LaterLine(s: seq<Byte>, p: nat, k: nat)
    requires LineEnd(s) == Some(p) && k <= p
    ensures LineEnd(s[k..]) == Some(p - k) && s[k..][p - k + 2..] == s[p + 2..]
  {
    var u := s[k..];
    assert CrlfAt(u, p - k);
    forall i | i < p - k ensures !CrlfAt(u, i) { assert !CrlfAt(s, k + i); }
    FirstUnique(u, p - k, LineEnd(u).value);
  }

  // If a stream is not framed, some part of what may be in the buffer and some
  // reads lead astray.
  lemma {:induction false} Strays(parse: Parser, maxData: nat, m: Mode, s: seq<Byte>, end: Ending, a: nat)
    returns (k: nat, turns: seq<Turn>)
    requires !Framed(parse, maxData, m, s, a)
    ensures k <= a && Astray(parse, maxData, m, s, end, k, turns)
    decreases |s|
  {
    hide Astray, Fits, LineEnd;
    var p := LineEnd(s).value;
    NotNone(s, p);
    var rest := s[p + 2..];
    if m == AtEndLine {
      if Least(a, |s|) > BlockEnd(p + 2) {
        k, turns := Least(a, |s|), [];
        Overfull(parse, maxData, s, end, k, p);
      } else {
        var k', turns' := Strays(parse, maxData, AtCommand, rest, end, MAX_SKIP_REST);
        k, turns := 0, LineTurns(p, k', turns');
        ExtendSkip(parse, maxData, s, end, p, k', turns');
      }
    } else if !Fits(a, Limit(maxData, m), p) {
      k, turns := Unfit(parse, maxData, m, s, end, a, p);
    } else if p + 2 <= Limit(maxData, m) {
      var a' := Leftover(a, p + 2, BufferSize(Limit(maxData, m)));
      var k', turns' := Strays(parse, maxData, NextMode(parse, maxData, m, s, p), rest, end, a');
      k, turns := Extend(parse, maxData, m, s, end, a, p, k', turns');
    } else {
      LongFits(a, Limit(maxData, m), p);
      var k', turns' := Strays(parse, maxData, AtCommand, rest, end, MAX_SKIP_REST);
      k := 0;
      turns := ExtendLong(parse, maxData, m, s, end, p, k', turns');
    }
  }

  lemma LongFits(a: nat, limit: nat, p: nat)
    requires Fits(a, limit, p) && limit < p + 2
    ensures limit <= p
  {
  }

  // A new connection begins every line where it is meant to begin, whatever the
  // reads, if and only if the stream is framed.
  lemma FramedIff(parse: Parser, maxData: nat, s: seq<Byte>, end: Ending)
    ensures Framed(parse, maxData, AtCommand, s, 0) <==>
              forall turns :: Steady(turns) ==>
                Log(parse, maxData, ConnView(AtCommand, [], Net(s, turns, end))) == MeantLog(parse, maxData, AtCommand, s)
  {
    hide Framed, Log, MeantLog;
    if Framed(parse, maxData, AtCommand, s, 0) {
      forall turns | Steady(turns)
        ensures Log(parse, maxData, ConnView(AtCommand, [], Net(s, turns, end))) == MeantLog(parse, maxData, AtCommand, s)
      {
        var v := ConnView(AtCommand, [], Net(s, turns, end));
        assert v.Input() == s;
        FramedLog(parse, maxData, v, 0);
      }
    } else {
      var k, turns := Strays(parse, maxData, AtCommand, s, end, 0);
      assert s[..0] == [] && s[0..] == s;
    }
  }
}
