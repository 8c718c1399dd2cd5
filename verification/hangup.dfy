/** Connections whose reads fail: when a connection ends, and what it does if it
    does not. */
module Hangup {
  import opened Types
  import opened Framing
  import opened Connection

  function Errors(k: nat): seq<Event> {
    seq(k, _ => Replied(InternalError))
  }

  lemma ClosedNeverBreaks(maxData: nat, v: ConnView)
    requires v.net.end == Closed
    ensures !Breaks(maxData, v)
  {
    ScanTakes(v.net, v.buffer, Limit(maxData, v.mode));
    SkipTakes(v.net, v.buffer);
  }

  // The buffer is dropped, and the connection is where it was.
  lemma BreaksAgain(parse: Parser, maxData: nat, v: ConnView)
    requires Breaks(maxData, v)
    ensures var (v', out) := Act(parse, maxData, v);
            v'.mode == v.mode && v'.buffer == [] && out == Errors(1) && Breaks(maxData, v') && v.net.end == Broken
  {
    hide FirstAt;
    EmptyWhole();
    if v.mode.AtEndLine? {
      SkipTakes(v.net, v.buffer);
      DeadRead(DiscardNet(v.net, v.buffer).1, DISCARD_BUFFER_SIZE);
    } else {
      var limit := Limit(maxData, v.mode);
      ScanNetOk(v.net, v.buffer, limit);
      DeadRead(ScanNet(v.net, v.buffer, limit).1, BufferSize(limit));
    }
  }

  // It answers with an error for ever, as often as it tries.
  lemma {:induction false} BreaksForEver(parse: Parser, maxData: nat, v: ConnView, k: nat)
    requires Breaks(maxData, v)
    ensures var (v', out) := Steps(parse, maxData, v, k); v'.mode == v.mode && out == Errors(k)
    decreases k
  {
    hide Act, Breaks;
    if k > 0 {
      BreaksAgain(parse, maxData, v);
      BreaksForEver(parse, maxData, Act(parse, maxData, v).0, k - 1);
      assert Errors(k) == Errors(1) + Errors(k - 1);
    }
  }

  // Every connection comes to its end, or to such an error.
  lemma {:induction false} ComesTo(parse: Parser, maxData: nat, v: ConnView) returns (k: nat, w: ConnView)
    ensures k <= v.Measure() && Steps(parse, maxData, v, k) == (w, Events(parse, maxData, v))
    ensures w.mode == Done || Breaks(maxData, w)
    decreases v.Measure()
  {
    hide Act, Breaks;
    if v.mode == Done || Breaks(maxData, v) {
      k, w := 0, v;
    } else {
      ActShrinks(parse, maxData, v);
      k, w := ComesTo(parse, maxData, Act(parse, maxData, v).0);
      k := k + 1;
    }
  }

  ghost predicate Ends(parse: Parser, maxData: nat, v: ConnView) {
    exists k :: Steps(parse, maxData, v, k).0.mode == Done
  }

  // A quit command was handed on that is not followed by data.
  predicate Quits(es: seq<Event>) {
    exists i :: 0 <= i < |es| && es[i].Dispatched? && es[i].cmd.quit && !es[i].cmd.needData
  }

  // Data is expected only for commands that need it.
  predicate Sound(v: ConnView) {
    v.mode.AtData? ==> v.mode.cmd.needData
  }

  lemma ActQuits(parse: Parser, maxData: nat, v: ConnView)
    requires Sound(v) && v.mode != Done
    ensures var (v', out) := Act(parse, maxData, v);
            Sound(v') && v'.net.end == v.net.end && (v'.mode == Done <==> Quits(out))
  {
    hide ScanNet, DiscardNet;
    ScanTakes(v.net, v.buffer, Limit(maxData, v.mode));
    SkipTakes(v.net, v.buffer);
    var out := Act(parse, maxData, v).1;
    if out != [] { QuitsOne(out[0]); assert out == [out[0]]; }
  }

  lemma QuitsOne(e: Event)
    ensures Quits([e]) <==> e.Dispatched? && e.cmd.quit && !e.cmd.needData
  {
    assert [e][0] == e;
  }

  lemma QuitsSum(a: seq<Event>, b: seq<Event>)
    ensures Quits(a + b) <==> Quits(a) || Quits(b)
  {
    var es := a + b;
    if Quits(a) {
      var i :| 0 <= i < |a| && a[i].Dispatched? && a[i].cmd.quit && !a[i].cmd.needData;
      assert es[i] == a[i];
    }
    if Quits(b) {
      var i :| 0 <= i < |b| && b[i].Dispatched? && b[i].cmd.quit && !b[i].cmd.needData;
      assert es[|a| + i] == b[i];
    }
  }

  lemma {:induction false} LastMode(parse: Parser, maxData: nat, v: ConnView, k: nat)
    requires Sound(v)
    ensures var (w, out) := Steps(parse, maxData, v, k);
            w.net.end == v.net.end && (w.mode == Done <==> v.mode == Done || Quits(out))
    decreases k
  {
    hide Act;
    if v.mode == Done {
      DoneStays(parse, maxData, v, k);
    } else if k > 0 {
      var (v1, out1) := Act(parse, maxData, v);
      ActQuits(parse, maxData, v);
      LastMode(parse, maxData, v1, k - 1);
      QuitsSum(out1, Steps(parse, maxData, v1, k - 1).1);
      if v1.mode == Done { DoneStays(parse, maxData, v1, k - 1); }
    }
  }

  // A connection ends if and only if reading does not fail for good, or the
  // client has quit before.
  lemma EndsIff(parse: Parser, maxData: nat, v: ConnView)
    requires Sound(v) && v.mode != Done
    ensures Ends(parse, maxData, v) <==> v.net.end == Closed || Quits(Events(parse, maxData, v))
  {
    hide Act, Breaks, Quits;
    var k, w := ComesTo(parse, maxData, v);
    LastMode(parse, maxData, v, k);
    if w.mode != Done {
      BreaksAgain(parse, maxData, w);
      forall j ensures Steps(parse, maxData, v, j).0.mode != Done { NotYetDone(parse, maxData, v, k, w, j); }
    }
  }

  lemma NotYetDone(parse: Parser, maxData: nat, v: ConnView, k: nat, w: ConnView, j: nat)
    requires Steps(parse, maxData, v, k).0 == w && w.mode != Done && Breaks(maxData, w)
    ensures Steps(parse, maxData, v, j).0.mode != Done
  {
    hide Act, Breaks, Steps;
    if k <= j {
      StepsSum(parse, maxData, v, k, j - k);
      BreaksForEver(parse, maxData, w, j - k);
    } else {
      StepsSum(parse, maxData, v, j, k - j);
      var u := Steps(parse, maxData, v, j).0;
      if u.mode == Done { DoneStays(parse, maxData, u, k - j); }
    }
  }

  // What there is after sufficiently many steps.
  lemma FarSteps(parse: Parser, maxData: nat, v: ConnView, k: nat) returns (j: nat)
    requires Sound(v) && v.mode != Done && v.Measure() <= k
    ensures var (w, out) := Steps(parse, maxData, v, k);
            && (w.mode == Done <==> v.net.end == Closed || Quits(Events(parse, maxData, v)))
            && j <= v.Measure() && out == Events(parse, maxData, v) + if w.mode == Done then [] else Errors(k - j)
  {
    hide Act, Breaks, Quits, Steps;
    var w;
    j, w := ComesTo(parse, maxData, v);
    LastMode(parse, maxData, v, j);
    StepsSum(parse, maxData, v, j, k - j);
    if w.mode == Done {
      DoneStays(parse, maxData, w, k - j);
    } else {
      BreaksAgain(parse, maxData, w);
      BreaksForEver(parse, maxData, w, k - j);
    }
  }

  // A connection that is reset before the client has sent anything is never
  // closed.
  lemma ResetNeverEnds(parse: Parser, maxData: nat, k: nat)
    ensures var v := ConnView(AtCommand, [], Net([], [], Broken));
            && !Ends(parse, maxData, v)
            && Steps(parse, maxData, v, k).0.mode == AtCommand && Steps(parse, maxData, v, k).1 == Errors(k)
  {
    hide Act, Ends, Steps;
    var v := ConnView(AtCommand, [], Net([], [], Broken));
    EmptyWhole();
    DeadRead(v.net, BufferSize(MAX_CMD_SIZE));
    assert Breaks(maxData, v);
    BreaksForEver(parse, maxData, v, k);
    EndsIff(parse, maxData, v);
  }

  // A read without a byte is answered as an error, too, but nothing is lost.
  lemma IdleKeeps(parse: Parser, maxData: nat, v: ConnView)
    requires (v.mode == AtCommand || v.mode.AtData?) && ScanNet(v.net, v.buffer, Limit(maxData, v.mode)).0.NoData?
    ensures var (v', out) := Act(parse, maxData, v);
            v'.mode == v.mode && v'.Input() == v.Input() && out == [Replied(InternalError)]
  {
    hide ScanNet;
    ScanNetOk(v.net, v.buffer, Limit(maxData, v.mode));
  }

  // While a line is skipped, what was in the buffer is dropped then.
  lemma IdleSkips(parse: Parser, maxData: nat, v: ConnView)
    requires v.mode == AtEndLine && DiscardNet(v.net, v.buffer).0.DiscardNoData?
    ensures var (v', out) := Act(parse, maxData, v);
            v'.mode == AtEndLine && v'.buffer == [] && |v'.net.stream| <= |v.net.stream| && out == [Replied(InternalError)]
  {
    hide DiscardNet;
    DiscardNetOk(v.net, v.buffer);
  }

  // What was read of a line before an error is lost, even if the error passes.
  lemma LosesBytes(parse: Parser, maxData: nat, x: seq<Byte>, rest: seq<Byte>, end: Ending)
    requires NoCrlf(x) && 0 < |x| < MAX_CMD_SIZE
    ensures Act(parse, maxData, ConnView(AtCommand, [], Net(x + rest, [Upto(|x|), Fail], end)))
            == (ConnView(AtCommand, [], Net(rest, [], end)), [Replied(InternalError)])
  {
    hide Split;
    EmptyWhole();
    var none: seq<Byte> := [];
    var n := Net(x + rest, [Upto(|x|), Fail], end);
    assert (x + rest)[..|x|] == x && (x + rest)[|x|..] == rest && [Upto(|x|), Fail][1..] == [Fail];
    assert ReadNet(n, BufferSize(MAX_CMD_SIZE)) == (Data(x), Net(rest, [Fail], end));
    assert none + x == x && [Fail][1..] == [];
    assert ReadNet(Net(rest, [Fail], end), BufferSize(MAX_CMD_SIZE)) == (ReadFailed, Net(rest, [], end));
    assert ScanFrom(Net(rest, [Fail], end), x, MAX_CMD_SIZE) == (ScanFailed, Net(rest, [], end));
    assert ScanFrom(n, none, MAX_CMD_SIZE) == (ScanFailed, Net(rest, [], end));
  }
}
