/** The connection with a client: a stream of bytes becomes commands. */
module Connection {
  import opened Types
  import opened Framing

  const MAX_CMD_SIZE := 226

  datatype Cmd = Cmd(quit: bool, needData: bool, args: seq<Byte>)

  const QUIT := Cmd(true, false, [])

  datatype Reply = BadFormat | JobTooBig | ExpectCrlf | InternalError

  // What the parser makes of a command line.
  datatype Parsed = Command(cmd: Cmd) | Refused(reply: Reply) | TooBig

  type Parser = (seq<Byte>, nat) -> Parsed

  // What a connection does: it hands a command on, or answers by itself.
  datatype Event = Dispatched(cmd: Cmd, data: seq<Byte>) | Replied(reply: Reply)

  datatype ConnState = WantCommand | WantData | WantEndLine | Close | Stopped

  datatype Mode = AtCommand | AtData(cmd: Cmd) | AtEndLine | AtEnd | Done

  // ----- what a connection does -------------------------------------------

  // A connection: what it waits for, what it has read and not used, and what
  // is still to come.
  datatype ConnView = ConnView(mode: Mode, buffer: seq<Byte>, net: Net)
  {
    function Input(): seq<Byte> {
      buffer + net.stream
    }

    function Rank(): nat {
      match mode case Done => 0 case AtEnd => 1 case AtEndLine => 2 case AtCommand => 3 case AtData(_) => 3
    }

    // What becomes less with every step.
    function Measure(): nat {
      4 * (|buffer| + |net.stream|) + |net.turns| + Rank()
    }
  }

  function OnLine(parse: Parser, maxData: nat, line: seq<Byte>): (Mode, seq<Event>) {
    match parse(line, maxData)
    case Refused(reply) => (AtCommand, [Replied(reply)])
    case TooBig => (AtEndLine, [Replied(JobTooBig)])
    case Command(cmd) =>
      if cmd.needData then (AtData(cmd), []) else (if cmd.quit then Done else AtCommand, [Dispatched(cmd, [])])
  }

  // One step of a connection.
  function Act(parse: Parser, maxData: nat, v: ConnView): (ConnView, seq<Event>) {
    match v.mode
    case AtCommand =>
      (var (r, n) := ScanNet(v.net, v.buffer, MAX_CMD_SIZE);
       match r
       case Found(left, right) => var (m, out) := OnLine(parse, maxData, left); (ConnView(m, right, n), out)
       case Eof => (ConnView(AtEnd, [], n), [])
       case NoData(buf) => (ConnView(AtCommand, buf, n), [Replied(InternalError)])
       case DelimiterMissing => (ConnView(AtEndLine, [], n), [Replied(BadFormat)])
       case ScanFailed => (ConnView(AtCommand, [], n), [Replied(InternalError)]))
    case AtData(cmd) =>
      (var (r, n) := ScanNet(v.net, v.buffer, maxData);
       match r
       case Found(left, right) => (ConnView(AtCommand, right, n), [Dispatched(cmd, left)])
       case Eof => (ConnView(AtEnd, [], n), [])
       case NoData(buf) => (ConnView(AtData(cmd), buf, n), [Replied(InternalError)])
       case DelimiterMissing => (ConnView(AtEndLine, [], n), [Replied(ExpectCrlf)])
       case ScanFailed => (ConnView(AtData(cmd), [], n), [Replied(InternalError)]))
    case AtEndLine =>
      (var (d, n) := DiscardNet(v.net, v.buffer);
       match d
       case Rest(right) => (ConnView(AtCommand, right, n), [])
       case DiscardEof => (ConnView(AtEnd, [], n), [])
       case DiscardNoData => (ConnView(AtEndLine, [], n), [Replied(InternalError)])
       case DiscardFailed => (ConnView(AtEndLine, [], n), [Replied(InternalError)]))
    case AtEnd => (v.(mode := Done), [Dispatched(QUIT, [])])
    case Done => (v, [])
  }

  // How much a scan of the mode reads at most.
  function Limit(maxData: nat, m: Mode): nat {
    if m.AtData? then maxData else MAX_CMD_SIZE
  }

  // The step meets an error, and every later read will, too.
  predicate Breaks(maxData: nat, v: ConnView) {
    match v.mode
    case AtEndLine => (var (d, n) := DiscardNet(v.net, v.buffer); d == DiscardFailed && Dead(n))
    case AtEnd => false
    case Done => false
    case _ => var (r, n) := ScanNet(v.net, v.buffer, Limit(maxData, v.mode)); r == ScanFailed && Dead(n)
  }

  // Every other step brings the end nearer.
  lemma ActShrinks(parse: Parser, maxData: nat, v: ConnView)
    requires v.mode != Done && !Breaks(maxData, v)
    ensures Act(parse, maxData, v).0.Measure() < v.Measure()
  {
    hide ScanNet, DiscardNet, OnLine, Dead;
    match v.mode
    case AtCommand => ScanTakes(v.net, v.buffer, MAX_CMD_SIZE);
    case AtData(_) => ScanTakes(v.net, v.buffer, maxData);
    case AtEndLine => SkipTakes(v.net, v.buffer);
    case AtEnd =>
  }

  lemma ScanTakes(n: Net, b: seq<Byte>, limit: nat)
    ensures var (r, n') := ScanNet(n, b, limit);
            && |n'.turns| <= |n.turns| && n'.end == n.end
            && match r
               case Found(_, right) => |right| + |n'.stream| + 2 <= |b| + |n.stream|
               case Eof => n'.stream == []
               case NoData(buf) => |buf| + |n'.stream| == |b| + |n.stream| && |n'.turns| < |n.turns|
               case DelimiterMissing => |n'.stream| <= |b| + |n.stream|
               case ScanFailed => |n'.stream| <= |b| + |n.stream| && (Dead(n') || |n'.turns| < |n.turns|)
  {
    hide ScanNet, FirstAt, NoCrlf;
    ScanNetOk(n, b, limit);
    var (r, n') := ScanNet(n, b, limit);
    assert Onward(n, n', r.NoData?, r.ScanFailed?);
  }

  lemma SkipTakes(n: Net, b: seq<Byte>)
    ensures var (d, n') := DiscardNet(n, b);
            && |n'.turns| <= |n.turns| && n'.end == n.end && |n'.stream| <= |n.stream|
            && match d
               case Rest(right) => |right| + |n'.stream| + 2 <= |b| + |n.stream|
               case DiscardEof => true
               case DiscardNoData => |n'.turns| < |n.turns|
               case DiscardFailed => Dead(n') || |n'.turns| < |n.turns|
  {
    hide DiscardNet, DiscardOk, Dead;
    DiscardNetOk(n, b);
    var (d, n') := DiscardNet(n, b);
    if d.Rest? { var p := DiscardTakes(b + n.stream, b, d.right, n'.stream); }
  }

  // The events of a connection, step by step, to its end or to an error that
  // stays.
  function Events(parse: Parser, maxData: nat, v: ConnView): seq<Event>
    decreases v.Measure()
  {
    if v.mode == Done || Breaks(maxData, v) then []
    else
      ActShrinks(parse, maxData, v);
      var (v', out) := Act(parse, maxData, v);
      out + Events(parse, maxData, v')
  }

  // k steps of a connection.
  function Steps(parse: Parser, maxData: nat, v: ConnView, k: nat): (ConnView, seq<Event>)
    decreases k
  {
    if k == 0 then (v, [])
    else
      var (v1, out1) := Act(parse, maxData, v);
      var (v2, out2) := Steps(parse, maxData, v1, k - 1);
      (v2, out1 + out2)
  }

  lemma {:induction false} StepsSum(parse: Parser, maxData: nat, v: ConnView, j: nat, k: nat)
    ensures var (v1, out1) := Steps(parse, maxData, v, j);
            var (v2, out2) := Steps(parse, maxData, v1, k);
            Steps(parse, maxData, v, j + k) == (v2, out1 + out2)
    decreases j
  {
    hide Act;
    var out := Steps(parse, maxData, v, k).1;
    if j == 0 {
      assert [] + out == out;
    } else {
      var (v0, out0) := Act(parse, maxData, v);
      StepsSum(parse, maxData, v0, j - 1, k);
      var (v1, out1) := Steps(parse, maxData, v0, j - 1);
      var out2 := Steps(parse, maxData, v1, k).1;
      assert out0 + (out1 + out2) == out0 + out1 + out2;
    }
  }

  lemma OneStep(parse: Parser, maxData: nat, v: ConnView)
    ensures Steps(parse, maxData, v, 1) == Act(parse, maxData, v)
  {
    hide Act;
    var (v', out) := Act(parse, maxData, v);
    assert Steps(parse, maxData, v', 0) == (v', []) && out + [] == out;
  }

  lemma {:induction false} DoneStays(parse: Parser, maxData: nat, v: ConnView, k: nat)
    requires v.mode == Done
    ensures Steps(parse, maxData, v, k) == (v, [])
    decreases k
  {
    var none: seq<Event> := [];
    assert none + none == none;
    if k > 0 { DoneStays(parse, maxData, v, k - 1); }
  }

  // ----- the connection ---------------------------------------------------

  class Conn {
    const parse: Parser
    const maxData: nat
    const reader: Reader
    var state: ConnState
    var buffer: seq<Byte>
    var lastCmd: Option<Cmd>
    var out: seq<Event>

    constructor (reader: Reader, parse: Parser, maxData: nat)
      ensures this.reader == reader && this.parse == parse && this.maxData == maxData
      ensures Valid() && View() == ConnView(AtCommand, [], reader.View()) && out == []
    {
      this.reader, this.parse, this.maxData := reader, parse, maxData;
      state, buffer, lastCmd, out := WantCommand, [], None, [];
    }

    ghost predicate Valid()
      reads this
    {
      state == WantData ==> lastCmd.Some? && lastCmd.value.needData
    }

    ghost function View(): ConnView
      requires Valid()
      reads this, reader
    {
      var mode := match state
        case WantCommand => AtCommand
        case WantData => AtData(lastCmd.value)
        case WantEndLine => AtEndLine
        case Close => AtEnd
        case Stopped => Done;
      ConnView(mode, buffer, reader.View())
    }

    method SendReply(reply: Reply)
      modifies this`out
      ensures out == old(out) + [Replied(reply)]
    {
      out := out + [Replied(reply)];
    }

    method DispatchCommand(data: seq<Byte>)
      requires lastCmd.Some?
      modifies this`out, this`state, this`lastCmd
      ensures out == old(out) + [Dispatched(old(lastCmd).value, data)] && lastCmd == None
      ensures state == if old(lastCmd).value.quit then Stopped else old(state)
    {
      out := out + [Dispatched(lastCmd.value, data)];
      if lastCmd.value.quit {
        state := Stopped;
      }
      lastCmd := None;
    }

    method DoClose()
      requires Valid()
      modifies this
      ensures Valid() && Acted(parse, maxData, AtEnd, old(View()), old(out), View(), out)
    {
      if state != Close {
        return;
      }
      lastCmd := Some(QUIT);
      DispatchCommand([]);
    }

    method DoEndLine()
      requires Valid()
      modifies this, reader
      ensures Valid() && Acted(parse, maxData, AtEndLine, old(View()), old(out), View(), out)
    {
      if state != WantEndLine {
        return;
      }
      var r := Discard(reader, buffer);
      match r
      case Rest(right) =>
        buffer := right;
        state := WantCommand;
      case DiscardEof =>
        buffer := [];
        state := Close;
      case DiscardNoData =>
        buffer := [];
        SendReply(InternalError);
      case DiscardFailed =>
        buffer := [];
        SendReply(InternalError);
    }

    method DoData()
      requires Valid()
      modifies this, reader
      ensures Valid()
      ensures if old(state) == WantData then Acted(parse, maxData, old(View()).mode, old(View()), old(out), View(), out)
              else View() == old(View()) && out == old(out)
    {
      if state != WantData {
        return;
      }
      var r := Scan(reader, buffer, maxData);
      match r
      case Found(left, right) =>
        buffer := right;
        DispatchCommand(left);
        state := WantCommand;
      case Eof =>
        buffer := [];
        state := Close;
      case NoData(buf) =>
        buffer := buf;
        SendReply(InternalError);
      case DelimiterMissing =>
        buffer := [];
        SendReply(ExpectCrlf);
        state := WantEndLine;
      case ScanFailed =>
        buffer := [];
        SendReply(InternalError);
    }

    method DoCommand()
      requires Valid()
      modifies this, reader
      ensures Valid() && Acted(parse, maxData, AtCommand, old(View()), old(out), View(), out)
    {
      if state != WantCommand {
        return;
      }
      var r := Scan(reader, buffer, MAX_CMD_SIZE);
      match r
      case Found(left, right) =>
        buffer := right;
        DoLine(left);
      case Eof =>
        buffer := [];
        state := Close;
      case NoData(buf) =>
        buffer := buf;
        SendReply(InternalError);
      case DelimiterMissing =>
        buffer := [];
        SendReply(BadFormat);
        state := WantEndLine;
      case ScanFailed =>
        buffer := [];
        SendReply(InternalError);
    }

    // Act on a command line.
    method DoLine(line: seq<Byte>)
      requires state == WantCommand
      modifies this`state, this`lastCmd, this`out
      ensures Valid()
      ensures (View().mode, out) == (OnLine(parse, maxData, line).0, old(out) + OnLine(parse, maxData, line).1)
    {
      var cmdData := parse(line, maxData);
      match cmdData
      case Refused(reply) =>
        SendReply(reply);
      case TooBig =>
        SendReply(JobTooBig);
        state := WantEndLine;
      case Command(cmd) =>
        lastCmd := Some(cmd);
        if cmd.needData {
          state := WantData;
          assert out == old(out) + [];
        } else {
          DispatchCommand([]);
        }
    }

    // Run the connection to its end, or for so many rounds of its loop if it
    // has none.
    method Tick(rounds: nat) returns (ghost k: nat)
      requires Valid()
      modifies this, reader
      ensures Valid() && (state == Stopped || rounds <= k)
      ensures (View(), out) == StepsOn(parse, maxData, old(View()), k, old(out))
    {
      hide Act, Steps;
      k := 0;
      NoSteps(parse, maxData, View(), out);
      var i := 0;
      while state != Stopped && i < rounds
        invariant Valid() && i <= k && i <= rounds && (View(), out) == StepsOn(parse, maxData, old(View()), k, old(out))
      {
        ghost var v, o, k0 := View(), out, k;
        DoCommand();
        k := Onwards(parse, maxData, AtCommand, old(View()), old(out), k, v, o, View(), out);
        v, o := View(), out;
        DoData();
        if v.mode.AtData? { k := Onwards(parse, maxData, v.mode, old(View()), old(out), k, v, o, View(), out); }
        v, o := View(), out;
        DoEndLine();
        k := Onwards(parse, maxData, AtEndLine, old(View()), old(out), k, v, o, View(), out);
        v, o := View(), out;
        DoClose();
        k := Onwards(parse, maxData, AtEnd, old(View()), old(out), k, v, o, View(), out);
        i := i + 1;
      }
    }
  }

  // The handler of mode m acts if the connection is in that mode.
  ghost predicate Acted(parse: Parser, maxData: nat, m: Mode, v: ConnView, out: seq<Event>, v': ConnView, out': seq<Event>) {
    if v.mode == m then v' == Act(parse, maxData, v).0 && out' == out + Act(parse, maxData, v).1 else v' == v && out' == out
  }

  // The connection and its events after k steps.
  function StepsOn(parse: Parser, maxData: nat, v: ConnView, k: nat, out: seq<Event>): (ConnView, seq<Event>) {
    var (v', out') := Steps(parse, maxData, v, k);
    (v', out + out')
  }

  lemma NoSteps(parse: Parser, maxData: nat, v: ConnView, out: seq<Event>)
    ensures StepsOn(parse, maxData, v, 0, out) == (v, out)
  {
    assert out + [] == out;
  }

  // One step more, if the handler acts.
  lemma Onwards(parse: Parser, maxData: nat, m: Mode, v0: ConnView, out0: seq<Event>, k: nat,
                v: ConnView, out: seq<Event>, v': ConnView, out': seq<Event>) returns (k': nat)
    requires (v, out) == StepsOn(parse, maxData, v0, k, out0) && Acted(parse, maxData, m, v, out, v', out')
    ensures (v', out') == StepsOn(parse, maxData, v0, k', out0) && k' == if v.mode == m then k + 1 else k
  {
    hide Act, Steps;
    k' := if v.mode == m then k + 1 else k;
    StepsSum(parse, maxData, v0, k, 1);
    OneStep(parse, maxData, v);
    var (w, o) := Act(parse, maxData, v);
    assert out0 + (Steps(parse, maxData, v0, k).1 + o) == out0 + Steps(parse, maxData, v0, k).1 + o;
  }
}
