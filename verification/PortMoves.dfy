/** What a tick can do to the link of a port, as a short list of moves with their guards.
    Every run of a port is a sequence of these moves in time order, which is what the
    whole-run properties are proved on. */
module PortMoves {
  import opened Wrappers
  import opened Status
  import opened Octets
  import opened DeviceParameters
  import opened Frames
  import opened Port
  import I = IsduTransport
  import E = EventMemory

  datatype Move =
    | ReceiveBad
    | ReceiveUndecodable
    | ReceiveGood
    | ReceiveAnswer
    | ReceiveAck(octet: byte)
    | ReceiveFault
    | Expire(driven: bool)
    | Establish
    | Serve(kind: Kind, octets: seq<byte>)
    | Command
    | Refuse
    | Cycle(octets: seq<byte>)

  /** Moves caused by octets on the line or a receive fault. */
  predicate FromLine(m: Move)
  {
    m.ReceiveBad? || m.ReceiveUndecodable? || m.ReceiveGood? || m.ReceiveAnswer? || m.ReceiveAck? || m.ReceiveFault?
  }

  predicate Communicating(l: Link) { l.state == Preoperate || l.state == Operate }

  /** A frame may be put on the line. */
  predicate Clear(l: Link, env: Env) { !l.awaiting && !Gated(l, env) }

  predicate Enabled(c: Config, l: Link, m: Move, env: Env)
  {
    match m
    case ReceiveBad => Communicating(l)
    case ReceiveUndecodable => l.state == Startup && l.step == StepAwait
    case ReceiveGood => Communicating(l)
    case ReceiveAnswer => l.state == Startup && l.step == StepAwait
    case ReceiveAck(octet) => l.state == Preoperate && l.step == StepAck && ReplyOk([octet])
    case ReceiveFault => Communicating(l) || (l.state == Startup && l.step == StepAwait)
    case Expire(driven) => l.awaiting && (driven ==> Now(env) >= l.deadline)
    case Establish => l.state == Startup && Clear(l, env)
    case Serve(kind, octets) =>
      Communicating(l) && Clear(l, env) && Suits(kind, octets) && (kind == IsduFrame || kind == EventFrame)
    case Command => l.state == Preoperate && Clear(l, env)
    case Refuse => l.state == Preoperate && Clear(l, env)
    case Cycle(octets) => l.state == Operate && Clear(l, env) && CycleDue(c, l, Now(env)) && Suits(Cyclic, octets)
  }

  function SendCommand(l: Link, env: Env): Link
  {
    var (t, sent) := Transmit(l, env, OperateCommand, OperateOctets());
    if sent then t.(step := StepAck) else t
  }

  function SendCycle(c: Config, l: Link, env: Env, octets: seq<byte>): Link
    requires Framed(octets)
  {
    var (t, sent) := Transmit(l, env, Cyclic, octets);
    if sent then CycleStarted(c, t.(cycles := Bump(t.cycles)), env) else t
  }

  function Apply(c: Config, l: Link, m: Move, env: Env): Link
    requires Enabled(c, l, m, env)
  {
    match m
    case ReceiveBad => ReplyBad(c, l, env)
    case ReceiveUndecodable => Undecodable(l)
    case ReceiveGood => ReplyGood(l, env)
    case ReceiveAnswer => Established(l, env)
    case ReceiveAck(octet) => Acknowledged(l, env, octet)
    case ReceiveFault => Fault(l)
    case Expire(driven) => OnTimeout(c, l.(awaiting := false), env).0
    case Establish => ProcessStartup(c, l, env)
    case Serve(kind, octets) => Transmit(l, env, kind, octets).0
    case Command => SendCommand(l, env)
    case Refuse => Fault(l)
    case Cycle(octets) => SendCycle(c, l, env, octets)
  }

  // ---- sequences of moves -------------------------------------------------

  datatype Happening = Happening(env: Env, move: Move)

  /** Each move is enabled where it happens, and time does not run backwards from `since`. */
  predicate Happens(c: Config, l: Link, hs: seq<Happening>, since: nat)
    decreases |hs|
  {
    hs == []
    || (&& since <= hs[0].env.at
        && Enabled(c, l, hs[0].move, hs[0].env)
        && Happens(c, Apply(c, l, hs[0].move, hs[0].env), hs[1..], hs[0].env.at))
  }

  function Result(c: Config, l: Link, hs: seq<Happening>, since: nat): Link
    requires Happens(c, l, hs, since)
    decreases |hs|
  {
    if hs == [] then l else Result(c, Apply(c, l, hs[0].move, hs[0].env), hs[1..], hs[0].env.at)
  }

  function LastTime(hs: seq<Happening>, since: nat): nat
  {
    if hs == [] then since else hs[|hs| - 1].env.at
  }

  lemma {:induction false} HappensConcat(c: Config, l: Link, a: seq<Happening>, b: seq<Happening>, since: nat)
    requires Happens(c, l, a, since) && Happens(c, Result(c, l, a, since), b, LastTime(a, since))
    ensures Happens(c, l, a + b, since)
    ensures Result(c, l, a + b, since) == Result(c, Result(c, l, a, since), b, LastTime(a, since))
    decreases |a|
  {
    hide Enabled, Apply;
    if a == [] {
      assert a + b == b;
    } else {
      assert (a + b)[1..] == a[1..] + b;
      HappensConcat(c, Apply(c, l, a[0].move, a[0].env), a[1..], b, a[0].env.at);
    }
  }

  // ---- every tick is such a sequence ---------------------------------------

  /** The link went from `l` to `t` within one tick by the moves `hs`. */
  ghost predicate Explains(c: Config, l: Link, t: Link, env: Env, hs: seq<Happening>)
  {
    Happens(c, l, hs, env.at) && Result(c, l, hs, env.at) == t && (forall h :: h in hs ==> h.env == env)
  }

  lemma ExplainedConcat(c: Config, l: Link, m: Link, t: Link, env: Env, a: seq<Happening>, b: seq<Happening>)
    requires Explains(c, l, m, env, a) && Explains(c, m, t, env, b)
    ensures Explains(c, l, t, env, a + b)
  {
    hide Enabled, Apply, Happens, Result;
    assert a != [] ==> a[|a| - 1] in a;
    HappensConcat(c, l, a, b, env.at);
  }

  lemma ExplainedByOne(c: Config, l: Link, m: Move, env: Env)
    requires Enabled(c, l, m, env)
    ensures Explains(c, l, Apply(c, l, m, env), env, [Happening(env, m)])
  {
    hide Enabled, Apply;
    var hs, t := [Happening(env, m)], Apply(c, l, m, env);
    assert hs[1..] == [] && Happens(c, t, [], env.at) && Result(c, t, [], env.at) == t;
  }

  /** The move a received reply amounts to, if it changes the link. */
  function MoveOf(p: Port, data: seq<byte>): Option<Move>
    requires |data| > 0
  {
    if p.link.state == Startup then
      if p.link.step != StepAwait || |data| != 2 then None
      else Some(if ReplyOk(data) then ReceiveAnswer else ReceiveUndecodable)
    else if p.link.state == Preoperate && p.link.step == StepAck then
      if |data| != 1 then None else Some(if ReplyOk(data) then ReceiveAck(data[0]) else ReceiveBad)
    else if p.link.state == Preoperate || (p.link.state == Operate && NoProcessData(p.config)) then
      if |data| != 2 then None else Some(if ReplyOk(data) then ReceiveGood else ReceiveBad)
    else
      var r := DecodeReply(data, p.config.pdInLen, if p.link.odExpected then OdLen(p.config.mseq) else 0);
      if r.None? then None else Some(if r.value.ok then ReceiveGood else ReceiveBad)
  }

  lemma OnRxMoves(p: Port, data: seq<byte>, env: Env)
    requires Wf(p) && |data| > 0 && Receiving(p.link)
    ensures var (t, ret) := OnRx(p, data, env);
            match MoveOf(p, data)
            case None => ret != OK && t.link == p.link
            case Some(m) => Enabled(p.config, p.link, m, env) && t.link == Apply(p.config, p.link, m, env)
                            && (ret == OK ==> Receiving(t.link)) && FromLine(m)
  {
    hide Wf, ReplyOk, DecodeReply, RouteOd;
    if |data| == 1 { assert data == [data[0]]; }
  }

  ghost predicate AllFromLine(hs: seq<Happening>)
  {
    forall h :: h in hs ==> FromLine(h.move)
  }

  lemma LineKeepsDeadline(c: Config, l: Link, m: Move, env: Env)
    requires Enabled(c, l, m, env) && FromLine(m)
    ensures Apply(c, l, m, env).deadline == l.deadline
  {
    hide TDwu, Later, Scan, ReplyOk, Suits, CycleDue, Transmit, ProcessStartup, OnTimeout, SendCommand, SendCycle;
  }

  lemma {:induction false} PollOctetsMoves(p: Port, env: Env, octets: seq<byte>, expected: nat, frames: nat)
    returns (hs: seq<Happening>)
    requires Wf(p) && Receiving(p.link)
    ensures var t := PollOctets(p, env, octets, expected, frames).0;
            Explains(p.config, p.link, t.link, env, hs) && t.link.deadline == p.link.deadline
    ensures AllFromLine(hs) && (octets == [] && !env.rxFault ==> hs == [])
    decreases |octets|
  {
    hide OnRx, Apply, Explains, I.Wf, E.Wf, MoveOf, ReplyOk;
    var c, l := p.config, p.link;
    if octets == [] && !env.rxFault {
      hs := [];
      Still(c, l, env);
    } else if octets == [] || |p.rx| >= FRAME_BUF {
      hs := OneMove(c, l, ReceiveFault, env);
      FaultIsAMove(c, l, env);
    } else {
      var q := p.(rx := p.rx + [octets[0]]);
      if |q.rx| < expected {
        hs := PollOctetsMoves(q, env, octets[1..], expected, frames);
      } else {
        OnRxMoves(q, q.rx, env);
        var (t, ret) := OnRx(q, q.rx, env);
        if MoveOf(q, q.rx).None? {
          hs := [];
          Still(c, l, env);
        } else {
          hs := OneMove(c, l, MoveOf(q, q.rx).value, env);
        }
        if ret == OK {
          var rest := PollOctetsMoves(t.(rx := []), env, octets[1..], expected, frames + 1);
          ExplainedConcat(c, l, t.link, PollOctets(t.(rx := []), env, octets[1..], expected, frames + 1).0.link,
                          env, hs, rest);
          hs := hs + rest;
        }
      }
    }
  }

  lemma FaultIsAMove(c: Config, l: Link, env: Env)
    requires Enabled(c, l, ReceiveFault, env)
    ensures Apply(c, l, ReceiveFault, env) == Fault(l)
  {
  }

  lemma Still(c: Config, l: Link, env: Env)
    ensures Explains(c, l, l, env, [])
  {
  }

  lemma OneMove(c: Config, l: Link, m: Move, env: Env) returns (hs: seq<Happening>)
    requires Enabled(c, l, m, env)
    ensures hs == [Happening(env, m)] && Explains(c, l, Apply(c, l, m, env), env, hs)
    ensures FromLine(m) ==> AllFromLine(hs) && Apply(c, l, m, env).deadline == l.deadline
  {
    hide Enabled, Apply;
    hs := [Happening(env, m)];
    ExplainedByOne(c, l, m, env);
    if FromLine(m) { LineKeepsDeadline(c, l, m, env); }
  }

  // ---- the sending half of a tick -------------------------------------------

  /** What a cycle does to the link, as a move: nothing, a startup step, or one frame. */
  function CycleMove(p: Port, env: Env): (r: Option<Move>)
    requires Wf(p)
    ensures r.Some? ==> !FromLine(r.value) && !r.value.Expire?
  {
    if p.link.awaiting || !CycleDue(p.config, p.link, Now(env)) || Gated(p.link, env) then None
    else match p.link.state
      case Startup => Some(Establish)
      case Preoperate => PreoperateMove(p)
      case Operate =>
        Some(if E.Engaged(p.event) then Serve(EventFrame, EventOctets(p))
             else if NextIsdu(p).Some? then Serve(IsduFrame, NextIsdu(p).value.1)
             else Cycle(CyclicOctets(p)))
      case _ => None
  }

  function PreoperateMove(p: Port): (r: Option<Move>)
    requires Wf(p)
    ensures r.Some? ==> !FromLine(r.value) && !r.value.Expire?
  {
    if E.Engaged(p.event) then Some(Serve(EventFrame, EventOctets(p)))
    else if NextIsdu(p).Some? then Some(Serve(IsduFrame, NextIsdu(p).value.1))
    else if ValidationRequired(p.config) && !p.info.valid then
      var (q, ret) := ReadDeviceInfo(p);
      if ret == PENDING then None else Some(if ret < 0 then Refuse else Commissioning(q))
    else Some(Commissioning(p))
  }

  function Commissioning(p: Port): Move
  {
    if ValidationRequired(p.config) && Validate(p.info, p.config) != OK then Refuse else Command
  }

  lemma SentCycle(p: Port, env: Env)
    requires Wf(p) && p.link.state == Operate && Clear(p.link, env) && CycleDue(p.config, p.link, Now(env))
    ensures var q := SendCyclic(p, env);
            (if q.link.cycles != p.link.cycles then CycleStarted(q.config, q.link, env) else q.link)
            == SendCycle(p.config, p.link, env, CyclicOctets(p))
  {
    hide Wf, CyclicOctets, CycleStarted, CycleDue, Transmit;
  }

  lemma Applied(c: Config, l: Link, env: Env, octets: seq<byte>, kind: Kind)
    requires |octets| >= 2
    ensures Enabled(c, l, Serve(kind, octets), env) ==>
              Apply(c, l, Serve(kind, octets), env) == Transmit(l, env, kind, octets).0
    ensures Enabled(c, l, Cycle(octets), env) ==> Apply(c, l, Cycle(octets), env) == SendCycle(c, l, env, octets)
    ensures Enabled(c, l, Command, env) ==> Apply(c, l, Command, env) == SendCommand(l, env)
    ensures Enabled(c, l, Refuse, env) ==> Apply(c, l, Refuse, env) == Fault(l)
    ensures Enabled(c, l, Establish, env) ==> Apply(c, l, Establish, env) == ProcessStartup(c, l, env)
  {
  }

  lemma OperateMoves(p: Port, env: Env)
    requires Wf(p) && p.link.state == Operate && Clear(p.link, env) && CycleDue(p.config, p.link, Now(env))
    ensures CycleMove(p, env).Some? && Enabled(p.config, p.link, CycleMove(p, env).value, env)
    ensures RunCycle(p, env).link == Apply(p.config, p.link, CycleMove(p, env).value, env)
  {
    hide Wf, NextIsdu, EventOctets, CyclicOctets, E.Engaged, CycleStarted, CycleDue, Transmit, Apply, SendCyclic,
         SendCycle;
    SentCycle(p, env);
    var octets := if E.Engaged(p.event) then EventOctets(p)
                  else if NextIsdu(p).Some? then NextIsdu(p).value.1 else CyclicOctets(p);
    var kind := if E.Engaged(p.event) then EventFrame else IsduFrame;
    Applied(p.config, p.link, env, octets, kind);
  }

  lemma CommissionMoves(p: Port, env: Env)
    requires p.link.state == Preoperate && Clear(p.link, env)
    ensures Enabled(p.config, p.link, Commissioning(p), env)
    ensures Commission(p, env).link == Apply(p.config, p.link, Commissioning(p), env)
    ensures Commission(p, env).link.cycles == p.link.cycles
  {
    hide Validate, Transmit, Apply, OperateOctets;
    Applied(p.config, p.link, env, OperateOctets(), OperateCommand);
  }

  /** With no acyclic service active the port commissions the device. */
  lemma IdlePreoperateMoves(p: Port, env: Env)
    requires Wf(p) && p.link.state == Preoperate && Clear(p.link, env)
    requires !E.Engaged(p.event) && NextIsdu(p).None?
    ensures var t := ProcessPreoperate(p, env).link;
            && t.cycles == p.link.cycles
            && match PreoperateMove(p)
               case None => t == p.link
               case Some(m) => Enabled(p.config, p.link, m, env) && t == Apply(p.config, p.link, m, env)
  {
    hide Wf, NextIsdu, E.Engaged, ReadDeviceInfo, Commission, Commissioning, Apply;
    CommissionMoves(p, env);
    CommissionMoves(ReadDeviceInfo(p).0, env);
    Applied(p.config, p.link, env, OperateOctets(), OperateCommand);
  }

  lemma BusyPreoperateMoves(p: Port, env: Env)
    requires Wf(p) && p.link.state == Preoperate && Clear(p.link, env)
    requires E.Engaged(p.event) || NextIsdu(p).Some?
    ensures var t := ProcessPreoperate(p, env).link;
            && t.cycles == p.link.cycles
            && PreoperateMove(p).Some? && Enabled(p.config, p.link, PreoperateMove(p).value, env)
            && t == Apply(p.config, p.link, PreoperateMove(p).value, env)
  {
    hide Wf, NextIsdu, EventOctets, E.Engaged, ReadDeviceInfo, Commission, Commissioning, Transmit, Apply;
    var octets := if E.Engaged(p.event) then EventOctets(p) else NextIsdu(p).value.1;
    var kind := if E.Engaged(p.event) then EventFrame else IsduFrame;
    Applied(p.config, p.link, env, octets, kind);
  }

  lemma StartupMoves(p: Port, env: Env)
    requires Wf(p) && p.link.state == Startup && Clear(p.link, env)
    ensures Enabled(p.config, p.link, Establish, env)
    ensures RunCycle(p, env).link == Apply(p.config, p.link, Establish, env)
  {
    hide Apply, Wf, ProcessStartup;
    Applied(p.config, p.link, env, TestOctets(), TestMessage);
  }

  lemma CycleMoves(p: Port, env: Env)
    requires Wf(p)
    ensures match CycleMove(p, env)
            case None => RunCycle(p, env).link == p.link
            case Some(m) =>
              Enabled(p.config, p.link, m, env) && RunCycle(p, env).link == Apply(p.config, p.link, m, env)
  {
    hide Wf, PreoperateMove, ProcessPreoperate, Apply, Enabled, ProcessStartup, ProcessOperate, Transmit, NextIsdu,
         CyclicOctets, EventOctets;
    if !p.link.awaiting && CycleDue(p.config, p.link, Now(env)) && !Gated(p.link, env) {
      if p.link.state == Startup {
        StartupMoves(p, env);
      } else if p.link.state == Operate {
        OperateMoves(p, env);
      } else if p.link.state == Preoperate {
        IfPreoperateMoves(p, env);
      }
    }
  }

  lemma IfPreoperateMoves(p: Port, env: Env)
    requires Wf(p) && p.link.state == Preoperate && Clear(p.link, env)
    ensures match PreoperateMove(p)
            case None => RunCycle(p, env).link == p.link
            case Some(m) =>
              Enabled(p.config, p.link, m, env) && RunCycle(p, env).link == Apply(p.config, p.link, m, env)
  {
    hide PreoperateMove, ProcessPreoperate, Apply, Enabled, NextIsdu, E.Engaged, Wf;
    if E.Engaged(p.event) || NextIsdu(p).Some? { BusyPreoperateMoves(p, env); } else { IdlePreoperateMoves(p, env); }
  }

  // ---- ticks and runs -------------------------------------------------------

  /** Ticks may be given by a scheduler that reports timeouts only when they are due. */
  predicate DueWhen(driven: bool, l: Link, event: TickEvent, env: Env)
  {
    driven && event == TickResponseTimeout ==> Now(env) >= l.deadline
  }

  ghost predicate Quiet(hs: seq<Happening>)
  {
    forall h :: h in hs ==> !FromLine(h.move)
  }

  ghost predicate Punctual(hs: seq<Happening>)
  {
    forall h :: h in hs && h.move.Expire? ==> h.move.driven
  }

  lemma TickMoves(p: Port, event: TickEvent, env: Env, driven: bool) returns (hs: seq<Happening>)
    requires Wf(p) && DueWhen(driven, p.link, event, env)
    ensures Explains(p.config, p.link, Tick(p, event, env).0.link, env, hs)
    ensures env.rx == [] && !env.rxFault ==> Quiet(hs)
    ensures driven ==> Punctual(hs)
    ensures forall h :: h in hs && h.move.Command? ==>
              event == TickCycleDue && Poll(p, env).1 >= 0 && CycleMove(Poll(p, env).0, env) == Some(Command)
  {
    hide PollOctets, RunCycle, OnTimeout, Apply, Explains, Wf, ExpectedLen, CycleMove;
    var c, l := p.config, p.link;
    hs := [];
    Still(c, l, env);
    if Receiving(l) {
      hs := PollOctetsMoves(p, env, env.rx, ExpectedLen(p), 0);
    }
    var (q, ret) := Poll(p, env);
    if ret >= 0 {
      var rest := [];
      Still(c, q.link, env);
      if event == TickCycleDue {
        CycleMoves(q, env);
        if CycleMove(q, env).Some? { rest := OneMove(c, q.link, CycleMove(q, env).value, env); }
      } else if event == TickResponseTimeout && q.link.awaiting {
        rest := OneMove(c, q.link, Expire(driven), env);
        ExpireIsTimeout(c, q.link, env, driven);
      }
      ExplainedConcat(c, l, q.link, Tick(p, event, env).0.link, env, hs, rest);
      hs := hs + rest;
    }
  }

  lemma ExpireIsTimeout(c: Config, l: Link, env: Env, driven: bool)
    requires Enabled(c, l, Expire(driven), env)
    ensures Apply(c, l, Expire(driven), env) == OnTimeout(c, l.(awaiting := false), env).0
  {
  }

  /** One round of a run: a tick, a tick given by a controller, or the application acting on the
      services, the output data or the stored device information between ticks. */
  datatype Round =
    | Ticked(event: TickEvent, env: Env)
    | Driven(env: Env)
    | Application(isdu: I.Isdu, events: E.Events, info: DeviceInfo, pdOut: seq<byte>)

  ghost function After(p: Port, r: Round): (q: Port)
    requires Wf(p)
    ensures Wf(q) && q.config == p.config
  {
    match r
    case Ticked(event, env) => Tick(p, event, env).0
    case Driven(env) => Drive(p, env).0
    case Application(isdu, events, info, pdOut) =>
      var q := p.(isdu := isdu, event := events, info := info, pdOut := pdOut);
      if Wf(q) then q else p
  }

  ghost function Run(p: Port, rounds: seq<Round>): (q: Port)
    requires Wf(p)
    ensures Wf(q) && q.config == p.config
    decreases |rounds|
  {
    hide After, Wf;
    if rounds == [] then p else Run(After(p, rounds[0]), rounds[1..])
  }

  /** Time does not run backwards. */
  predicate Timely(rounds: seq<Round>, since: nat)
  {
    rounds == []
    || (if rounds[0].Application? then Timely(rounds[1..], since)
        else since <= rounds[0].env.at && Timely(rounds[1..], rounds[0].env.at))
  }

  predicate SilentRound(r: Round) { r.Application? || (r.env.rx == [] && !r.env.rxFault) }

  lemma {:induction false} SinceEarlier(c: Config, l: Link, hs: seq<Happening>, since: nat, before: nat)
    requires Happens(c, l, hs, since) && before <= since
    ensures Happens(c, l, hs, before) && Result(c, l, hs, before) == Result(c, l, hs, since)
  {
  }

  /** A tick whose PHY does what it is asked. */
  function Willing(at: nat, rx: seq<byte>): Env { Env(at, rx, false, OK, OK, OK, OK, OK, true, OK) }

  /** A tick without input at the end of the clock's range: every gate and deadline has passed. */
  const LAST_TICK := Willing(U32 - 1, [])

  ghost predicate Occurs(rounds: seq<Round>, env: Env)
  {
    exists r :: r in rounds && !r.Application? && r.env == env
  }

  lemma {:induction false} RunMoves(p: Port, rounds: seq<Round>, since: nat) returns (hs: seq<Happening>)
    requires Wf(p) && Timely(rounds, since)
    ensures Happens(p.config, p.link, hs, since) && Result(p.config, p.link, hs, since) == Run(p, rounds).link
    ensures (forall r :: r in rounds ==> SilentRound(r)) ==> Quiet(hs)
    ensures (forall r :: r in rounds ==> !r.Ticked?) ==> Punctual(hs)
    ensures forall h :: h in hs ==> Occurs(rounds, h.env)
    decreases |rounds|
  {
    hide Enabled, Apply, Tick, Happens, Result;
    if rounds == [] {
      hs := [];
      NothingHappens(p.config, p.link, since);
    } else {
      var q := After(p, rounds[0]);
      if rounds[0].Application? {
        hs := RunMoves(q, rounds[1..], since);
        OccursLater(rounds, hs);
      } else {
        var env := rounds[0].env;
        var now := RoundMoves(p, rounds[0]);
        var later := RunMoves(q, rounds[1..], env.at);
        SinceEarlier(p.config, p.link, now, env.at, since);
        assert now != [] ==> now[|now| - 1] in now;
        SinceEarlier(p.config, q.link, later, env.at, LastTime(now, since));
        HappensConcat(p.config, p.link, now, later, since);
        OccursLater(rounds, later);
        assert rounds[0] in rounds;
        hs := now + later;
      }
    }
  }

  lemma OccursLater(rounds: seq<Round>, hs: seq<Happening>)
    requires rounds != [] && forall h :: h in hs ==> Occurs(rounds[1..], h.env)
    ensures forall h :: h in hs ==> Occurs(rounds, h.env)
  {
  }

  lemma NothingHappens(c: Config, l: Link, since: nat)
    ensures Happens(c, l, [], since) && Result(c, l, [], since) == l
  {
  }

  lemma RoundMoves(p: Port, r: Round) returns (hs: seq<Happening>)
    requires Wf(p) && !r.Application?
    ensures Explains(p.config, p.link, After(p, r).link, r.env, hs)
    ensures SilentRound(r) ==> Quiet(hs)
    ensures !r.Ticked? ==> Punctual(hs)
  {
    hide Tick, Explains;
    if r.Ticked? {
      hs := TickMoves(p, r.event, r.env, false);
    } else {
      hs := TickMoves(p, if ResponseDue(p.link, Now(r.env)) then TickResponseTimeout else TickCycleDue, r.env, true);
    }
  }

  // ---- the log ----------------------------------------------------------------

  function Init(log: seq<Act>): seq<Act>
    requires log != []
  {
    log[..|log| - 1]
  }

  function Last(log: seq<Act>): Act
    requires log != []
  {
    log[|log| - 1]
  }

  lemma Noted(log: seq<Act>, act: Act)
    ensures Init(log + [act]) == log && Last(log + [act]) == act
  {
  }

  /** What a sending move puts on the line. */
  function LineAct(c: Config, l: Link, m: Move, env: Env): (act: Option<Act>)
    ensures act.Some? ==> act.value.Wake? || act.value.Sent?
  {
    var ready, ok := env.prepareTx == OK, env.sent && env.prepareRx == OK;
    match m
    case Establish =>
      if l.step == StepSend then (if ready then Some(Sent(env.at, l.phyRate, TestMessage, TestOctets(), ok)) else None)
      else if l.step == StepWake || (l.step == StepInactive && env.mode == OK) then
        (if c.wakeHook then Some(Wake(env.at, env.wake == OK)) else if ready then Some(Wake(env.at, ok)) else None)
      else None
    case Serve(kind, octets) => if ready then Some(Sent(env.at, l.phyRate, kind, octets, ok)) else None
    case Command => if ready then Some(Sent(env.at, l.phyRate, OperateCommand, OperateOctets(), ok)) else None
    case Cycle(octets) => if ready then Some(Sent(env.at, l.phyRate, Cyclic, octets, ok)) else None
    case _ => None
  }

  /** `t` follows `l` by at most this line act; the failure counters and the scan are untouched. */
  ghost predicate LogsOnly(l: Link, t: Link, act: Option<Act>)
  {
    && t.log == l.log + (if act.Some? then [act.value] else [])
    && t.retries == l.retries && t.rateIndex == l.rateIndex && t.attempts == l.attempts && t.phyRate == l.phyRate
    && (t.state == l.state || t.state == Error)
  }

  lemma TransmitLogs(l: Link, env: Env, kind: Kind, octets: seq<byte>)
    requires |octets| > 0
    ensures LogsOnly(l, Transmit(l, env, kind, octets).0,
                     if env.prepareTx != OK then None
                     else Some(Sent(env.at, l.phyRate, kind, octets, env.sent && env.prepareRx == OK)))
  {
  }

  lemma WakeLogs(c: Config, l: Link, env: Env)
    ensures LogsOnly(l, ProcessWake(c, l, env),
                     if c.wakeHook then Some(Wake(env.at, env.wake == OK))
                     else if env.prepareTx != OK then None
                     else Some(Wake(env.at, env.sent && env.prepareRx == OK)))
  {
    hide TDmt, Later, RateOf;
  }

  lemma EstablishLogs(c: Config, l: Link, env: Env)
    requires Enabled(c, l, Establish, env)
    ensures LogsOnly(l, ProcessStartup(c, l, env), LineAct(c, l, Establish, env))
  {
    hide Suits, TestOctets, Transmit, ProcessWake;
    TransmitLogs(l, env, TestMessage, TestOctets());
    WakeLogs(c, l, env);
    WakeLogs(c, l.(phyMode := Sdci, step := StepWake), env);
  }

  /** A sending move logs what it puts on the line and leaves the failure counters alone. */
  lemma SendLogs(c: Config, l: Link, m: Move, env: Env)
    requires Enabled(c, l, m, env) && !FromLine(m) && !m.Expire?
    ensures LogsOnly(l, Apply(c, l, m, env), LineAct(c, l, m, env))
  {
    hide OperateOctets, Transmit, ProcessStartup, ResponseTimeout;
    match m {
      case Establish => EstablishLogs(c, l, env);
      case Serve(kind, octets) => TransmitLogs(l, env, kind, octets);
      case Command => TransmitLogs(l, env, OperateCommand, OperateOctets());
      case Cycle(octets) => TransmitLogs(l, env, Cyclic, octets);
      case Refuse =>
    }
  }
}
