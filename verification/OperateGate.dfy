/** Which state a port is in and how it got there, in every run: the log determines the
    state, and OPERATE is entered only by an acknowledged DeviceOperate command. */
module OperateGate {
  import opened Wrappers
  import opened Status
  import opened Octets
  import opened DeviceParameters
  import opened Frames
  import opened Port
  import opened PortMoves
  import opened DevicePage
  import I = IsduTransport
  import E = EventMemory

  /** The state a log leads to, leaving PHY faults aside. */
  function Where(log: seq<Act>): State
  {
    if log == [] then Startup
    else match Last(log)
      case EnterPreoperate(at) => Preoperate
      case EnterOperate(at, ack) => Operate
      case ComLost(at, timed) => Startup
      case _ => Where(Init(log))
  }

  /** A DeviceOperate command was sent since PREOPERATE was last entered. */
  predicate Commanded(log: seq<Act>)
  {
    if log == [] then false
    else match Last(log)
      case EnterPreoperate(at) => false
      case ComLost(at, timed) => false
      case Sent(at, rate, kind, octets, ok) =>
        (kind == OperateCommand && Suits(kind, octets) && ok) || Commanded(Init(log))
      case _ => Commanded(Init(log))
  }

  /** Each kind of act belongs to its states, and OPERATE is entered only from PREOPERATE, by a
      checksum-valid one-octet acknowledgement of a DeviceOperate command. */
  predicate Permitted(before: seq<Act>, act: Act)
  {
    match act
    case Wake(at, ok) => Where(before) == Startup
    case Sent(at, rate, kind, octets, ok) =>
      (match kind
       case TestMessage => Where(before) == Startup
       case OperateCommand => Where(before) == Preoperate
       case Cyclic => Where(before) == Operate
       case _ => Where(before) == Preoperate || Where(before) == Operate)
    case Expired(at) => Where(before) == Startup
    case Report(at) => Where(before) == Startup
    case Late(at) => Where(before) == Operate
    case Bad(at) => Where(before) == Preoperate || Where(before) == Operate
    case ComLost(at, timed) => Where(before) == Preoperate || Where(before) == Operate
    case EnterPreoperate(at) => Where(before) == Startup
    case EnterOperate(at, ack) => Where(before) == Preoperate && Commanded(before) && ReplyOk([ack])
    case Accepted(at) => true
  }

  predicate AllPermitted(log: seq<Act>)
  {
    log == [] || (AllPermitted(Init(log)) && Permitted(Init(log), Last(log)))
  }

  ghost predicate OnRecord(l: Link)
  {
    && AllPermitted(l.log)
    && l.state != Inactive
    && (l.state != Error ==> l.state == Where(l.log))
    && (l.state == Preoperate && l.step == StepAck ==> Commanded(l.log))
  }

  /** Any further act keeps the record if it is permitted. */
  lemma NotedRecord(log: seq<Act>, act: Act)
    requires AllPermitted(log) && Permitted(log, act)
    ensures AllPermitted(log + [act])
    ensures Where(log + [act]) == match act
                                  case EnterPreoperate(at) => Preoperate
                                  case EnterOperate(at, ack) => Operate
                                  case ComLost(at, timed) => Startup
                                  case _ => Where(log)
    ensures !act.EnterPreoperate? && !act.ComLost? && Commanded(log) ==> Commanded(log + [act])
    ensures act.Sent? && act.kind == OperateCommand && Suits(OperateCommand, act.octets) && act.ok ==>
              Commanded(log + [act])
  {
    hide OperateOctets;
    Noted(log, act);
  }

  lemma RestartRecord(c: Config, l: Link, env: Env, timed: bool)
    requires AllPermitted(l.log) && Communicating(l) && l.state == Where(l.log)
    ensures var t := Restart(c, l, env, timed).0;
            && OnRecord(t) && t.log == l.log + [Act.ComLost(env.at, timed)]
            && (if env.rate == OK || !c.autoRate || l.rateIndex == 0 then t.state == Startup && t.step == StepWake
                else t.state == Error)
  {
    hide AllPermitted, Where, Commanded;
    NotedRecord(l.log, Act.ComLost(env.at, timed));
  }

  lemma BadRecord(c: Config, l: Link, env: Env)
    requires OnRecord(l) && Communicating(l)
    ensures OnRecord(ReplyBad(c, l, env))
  {
    hide AllPermitted, Where, Commanded, Restart;
    NotedRecord(l.log, Bad(env.at));
    var b := CountBad(l, env);
    RestartRecord(c, b, env, false);
  }

  lemma ReceiveKeepsRecord(c: Config, l: Link, m: Move, env: Env)
    requires Enabled(c, l, m, env) && FromLine(m) && OnRecord(l)
    ensures OnRecord(Apply(c, l, m, env))
  {
    hide AllPermitted, Where, Commanded, ReplyBad, ReplyOk;
    NotedRecord(l.log, Accepted(env.at));
    match m {
      case ReceiveBad => BadRecord(c, l, env);
      case ReceiveAnswer => NotedRecord(l.log + [Accepted(env.at)], EnterPreoperate(env.at));
      case ReceiveAck(octet) => NotedRecord(l.log + [Accepted(env.at)], EnterOperate(env.at, octet));
      case _ =>
    }
  }

  lemma SendKeepsRecord(c: Config, l: Link, m: Move, env: Env)
    requires Enabled(c, l, m, env) && !FromLine(m) && !m.Expire? && OnRecord(l)
    ensures OnRecord(Apply(c, l, m, env))
  {
    hide AllPermitted, Where, Commanded, Apply, OperateOctets, TestOctets;
    SendLogs(c, l, m, env);
    assert l.log + [] == l.log;
    FixedFramesSuit();
    if LineAct(c, l, m, env).Some? { NotedRecord(l.log, LineAct(c, l, m, env).value); }
    if l.state == Preoperate { CommandSteps(c, l, m, env); }
  }

  /** Only a sent DeviceOperate command makes the port wait for its acknowledgement. */
  lemma CommandSteps(c: Config, l: Link, m: Move, env: Env)
    requires Enabled(c, l, m, env) && !FromLine(m) && !m.Expire? && l.state == Preoperate
    ensures var t := Apply(c, l, m, env);
            if m.Command? && t.state != Error then
              LineAct(c, l, m, env) == Some(Sent(env.at, l.phyRate, OperateCommand, OperateOctets(), true))
            else t.step == l.step
  {
    hide OperateOctets, TestOctets;
  }

  lemma ExpireKeepsRecord(c: Config, l: Link, driven: bool, env: Env)
    requires Enabled(c, l, Expire(driven), env) && OnRecord(l)
    ensures OnRecord(Apply(c, l, Expire(driven), env))
  {
    hide AllPermitted, Where, Commanded, Restart, AttemptFailed;
    var u := l.(awaiting := false);
    if l.state == Startup {
      AttemptKeepsRecord(c, u, env);
    } else if l.state == Operate {
      NotedRecord(l.log, Late(env.at));
      var m := CountLate(u, env);
      RestartRecord(c, m, env, true);
    }
  }

  lemma AttemptKeepsRecord(c: Config, l: Link, env: Env)
    requires OnRecord(l) && l.state == Startup
    ensures OnRecord(AttemptFailed(c, l, env).0)
  {
    hide AllPermitted, Where, Commanded, AttemptFailed;
    NotedRecord(l.log, Expired(env.at));
    NotedRecord(l.log + [Expired(env.at)], Report(env.at));
  }

  lemma {:induction false} HappeningsKeepRecord(c: Config, l: Link, hs: seq<Happening>, since: nat)
    requires Happens(c, l, hs, since) && OnRecord(l)
    ensures OnRecord(Result(c, l, hs, since))
    decreases |hs|
  {
    hide Enabled, Apply, OnRecord;
    if hs != [] {
      var m, env := hs[0].move, hs[0].env;
      if FromLine(m) {
        ReceiveKeepsRecord(c, l, m, env);
      } else if m.Expire? {
        ExpireKeepsRecord(c, l, m.driven, env);
      } else {
        SendKeepsRecord(c, l, m, env);
      }
      HappeningsKeepRecord(c, Apply(c, l, m, env), hs[1..], env.at);
    }
  }

  /** In every run of an IO-Link port the log only holds permitted acts and determines the state. */
  lemma StateFollowsLog(c: Config, cap: nat, rounds: seq<Round>)
    requires Wf(Initial(c, cap)) && Timely(rounds, 0) && c.portMode == ModeIoLink
    ensures var l := Run(Initial(c, cap), rounds).link;
            AllPermitted(l.log) && (l.state == Error || l.state == Where(l.log))
  {
    hide Wf, Run;
    var hs := RunMoves(Initial(c, cap), rounds, 0);
    HappeningsKeepRecord(c, Initial(c, cap).link, hs, 0);
  }

  lemma ErrorMove(c: Config, l: Link, m: Move, env: Env)
    requires Enabled(c, l, m, env) && l.state == Error
    ensures Apply(c, l, m, env).state == Error && Apply(c, l, m, env).log == l.log
  {
  }

  lemma {:induction false} ErrorHappenings(c: Config, l: Link, hs: seq<Happening>, since: nat)
    requires Happens(c, l, hs, since) && l.state == Error
    ensures Result(c, l, hs, since).state == Error && Result(c, l, hs, since).log == l.log
    decreases |hs|
  {
    hide Enabled, Apply;
    if hs != [] {
      ErrorMove(c, l, hs[0].move, hs[0].env);
      ErrorHappenings(c, Apply(c, l, hs[0].move, hs[0].env), hs[1..], hs[0].env.at);
    }
  }

  /** ERROR is never left by ticking, and nothing happens on the line in it. */
  lemma ErrorIsFinal(p: Port, rounds: seq<Round>, since: nat)
    requires Wf(p) && p.link.state == Error && Timely(rounds, since)
    ensures Run(p, rounds).link.state == Error && Run(p, rounds).link.log == p.link.log
  {
    hide Wf, Run;
    var hs := RunMoves(p, rounds, since);
    ErrorHappenings(p.config, p.link, hs, since);
  }

  // ---- the command is vetted ------------------------------------------------

  /** DeviceOperate commands on the line. */
  function Commands(log: seq<Act>): nat
  {
    if log == [] then 0
    else Commands(Init(log)) + (if Last(log).Sent? && Last(log).kind == OperateCommand then 1 else 0)
  }

  lemma NotedCommands(log: seq<Act>, act: Act)
    ensures !(act.Sent? && act.kind == OperateCommand) ==> Commands(log + [act]) == Commands(log)
  {
    Noted(log, act);
  }

  lemma RestartCommands(c: Config, l: Link, env: Env, timed: bool)
    ensures Commands(Restart(c, l, env, timed).0.log) == Commands(l.log)
  {
    hide Commands;
    NotedCommands(l.log, Act.ComLost(env.at, timed));
  }

  lemma OtherMovesSendNoCommand(c: Config, l: Link, m: Move, env: Env)
    requires Enabled(c, l, m, env) && !m.Command?
    ensures Commands(Apply(c, l, m, env).log) == Commands(l.log)
  {
    hide Commands, Restart, AttemptFailed, ReplyOk;
    NotedCommands(l.log, Bad(env.at));
    NotedCommands(l.log, Late(env.at));
    NotedCommands(l.log, Accepted(env.at));
    NotedCommands(l.log + [Accepted(env.at)], EnterPreoperate(env.at));
    if m.ReceiveAck? { NotedCommands(l.log + [Accepted(env.at)], EnterOperate(env.at, m.octet)); }
    NotedCommands(l.log, Expired(env.at));
    NotedCommands(l.log + [Expired(env.at)], Report(env.at));
    if m.ReceiveBad? {
      RestartCommands(c, CountBad(l, env), env, false);
    } else if m.Expire? {
      RestartCommands(c, CountLate(l.(awaiting := false), env), env, true);
    } else if !FromLine(m) {
      OtherSendsAreNoCommand(c, l, m, env);
    }
  }

  lemma OtherSendsAreNoCommand(c: Config, l: Link, m: Move, env: Env)
    requires Enabled(c, l, m, env) && !FromLine(m) && !m.Expire? && !m.Command?
    ensures Commands(Apply(c, l, m, env).log) == Commands(l.log)
  {
    hide Commands, Apply;
    SendLogs(c, l, m, env);
    assert l.log + [] == l.log;
    if LineAct(c, l, m, env).Some? { NotedCommands(l.log, LineAct(c, l, m, env).value); }
  }

  lemma {:induction false} WithoutCommand(c: Config, l: Link, hs: seq<Happening>, since: nat)
    requires Happens(c, l, hs, since) && forall h :: h in hs ==> !h.move.Command?
    ensures Commands(Result(c, l, hs, since).log) == Commands(l.log)
    decreases |hs|
  {
    hide Enabled, Apply, Commands;
    if hs != [] {
      OtherMovesSendNoCommand(c, l, hs[0].move, hs[0].env);
      WithoutCommand(c, Apply(c, l, hs[0].move, hs[0].env), hs[1..], hs[0].env.at);
    }
  }

  /** When validation is configured, a DeviceOperate command is sent only in a tick that leaves
      device information stored which is valid and passes validation. */
  lemma CommandIsVetted(p: Port, event: TickEvent, env: Env)
    requires Wf(p) && (p.config.validate || p.config.inspection != NoCheck)
    ensures var t := Tick(p, event, env).0;
            Commands(t.link.log) != Commands(p.link.log) ==> t.info.valid && Validate(t.info, t.config) == OK
  {
    hide Wf, Tick, Commands, CycleMove, Poll, Validate;
    var hs := TickMoves(p, event, env, false);
    if forall h :: h in hs ==> !h.move.Command? {
      WithoutCommand(p.config, p.link, hs, env.at);
    } else {
      CommandTick(p, event, env);
    }
  }

  lemma CommandTick(p: Port, event: TickEvent, env: Env)
    requires Wf(p) && ValidationRequired(p.config) && event == TickCycleDue
    requires Poll(p, env).1 >= 0 && CycleMove(Poll(p, env).0, env) == Some(Command)
    ensures var t := Tick(p, event, env).0; t.info.valid && Validate(t.info, t.config) == OK
  {
    hide Wf, Poll, CycleMove, RunCycle, Validate;
    var q := Poll(p, env).0;
    VettedCycle(q, env);
  }

  lemma VettedCycle(p: Port, env: Env)
    requires Wf(p) && ValidationRequired(p.config) && CycleMove(p, env) == Some(Command)
    ensures var t := RunCycle(p, env); t.info.valid && Validate(t.info, t.config) == OK
  {
    hide Wf, NextIsdu, EventOctets, CyclicOctets, Transmit, OperateOctets, CycleStarted, ReadDeviceInfo;
  }

  // ---- the page decides ------------------------------------------------------

  /** Stored device information says what this page says; the answer to a test message may have replaced the cycle
      octet. */
  predicate OfPage(info: DeviceInfo, page: seq<byte>)
  {
    Readable(page) && info == Parse(page, info).1.(minCycleOctet := info.minCycleOctet)
  }

  ghost predicate FromPage(info: DeviceInfo)
  {
    info.valid ==> exists page :: OfPage(info, page)
  }

  /** Replies change no more of the device information than the cycle octet. */
  lemma {:induction false} PollKeepsInfo(p: Port, env: Env, octets: seq<byte>, expected: nat, frames: nat)
    requires Wf(p)
    ensures var t := PollOctets(p, env, octets, expected, frames).0;
            t.info == p.info.(minCycleOctet := t.info.minCycleOctet)
    decreases |octets|
  {
    hide OnRx, I.Wf, E.Wf;
    if octets != [] && |p.rx| < FRAME_BUF {
      var q := p.(rx := p.rx + [octets[0]]);
      if |q.rx| >= expected {
        ReplyKeepsInfo(q, q.rx, env);
        var (t, ret) := OnRx(q, q.rx, env);
        PollKeepsInfo(t.(rx := []), env, octets[1..], expected, frames + 1);
      } else {
        PollKeepsInfo(q, env, octets[1..], expected, frames);
      }
    }
  }

  lemma ReplyKeepsInfo(p: Port, data: seq<byte>, env: Env)
    requires Wf(p) && |data| > 0
    ensures var t := OnRx(p, data, env).0; t.info == p.info.(minCycleOctet := t.info.minCycleOctet)
  {
    hide I.Wf, E.Wf, ReplyBad, ReplyOk, OnShortReply, OnCyclicReply;
    OperateReplyKeepsInfo(p, data, env);
  }

  lemma OperateReplyKeepsInfo(p: Port, data: seq<byte>, env: Env)
    requires Wf(p) && |data| > 0
    ensures OnShortReply(p, data, env).0.info == p.info && OnCyclicReply(p, data, env).0.info == p.info
  {
    hide I.Wf, E.Wf, ReplyBad, ReplyOk, RouteOd, DecodeReply;
    forall q: Port, od: seq<byte> | Wf(q) ensures RouteOd(q, od).info == q.info { RouteKeepsInfo(q, od); }
  }

  lemma RouteKeepsInfo(p: Port, od: seq<byte>)
    requires Wf(p)
    ensures RouteOd(p, od).info == p.info
  {
  }

  lemma ReadKeepsPage(p: Port)
    requires Wf(p) && FromPage(p.info)
    ensures FromPage(ReadDeviceInfo(p).0.info)
  {
    hide Wf, Readable, Parse, Validate, I.Read;
    var (isdu, reply) := I.Read(p.isdu, true, 0, 0, PAGE_LEN);
    ValidatesExactly(reply.data, p.info, p.config);
    if Readable(reply.data) {
      ParsedFromPage(reply.data, p.info);
      assert OfPage(Parse(reply.data, p.info).1, reply.data);
    }
  }

  lemma PreoperateKeepsPage(p: Port, env: Env)
    requires Wf(p) && FromPage(p.info)
    ensures FromPage(ProcessPreoperate(p, env).info)
  {
    hide Wf, NextIsdu, EventOctets, Transmit, OperateOctets, ReadDeviceInfo, FromPage, Validate;
    ReadKeepsPage(p);
  }

  lemma OperateKeepsInfo(p: Port, env: Env)
    requires Wf(p)
    ensures ProcessOperate(p, env).info == p.info
  {
    hide Wf, NextIsdu, EventOctets, CyclicOctets, Transmit;
  }

  lemma CycleKeepsPage(p: Port, env: Env)
    requires Wf(p) && FromPage(p.info)
    ensures FromPage(RunCycle(p, env).info)
  {
    hide Wf, CycleStarted, ProcessStartup, FromPage, ProcessPreoperate, ProcessOperate, Gated, CycleDue;
    PreoperateKeepsPage(p, env);
    OperateKeepsInfo(p, env);
  }

  lemma ParsedFromPage(page: seq<byte>, before: DeviceInfo)
    requires Readable(page)
    ensures OfPage(Parse(page, before).1, page)
  {
  }

  lemma OctetKeepsPage(info: DeviceInfo, octet: byte)
    requires FromPage(info)
    ensures FromPage(info.(minCycleOctet := octet))
  {
    if info.valid {
      var page :| OfPage(info, page);
      assert OfPage(info.(minCycleOctet := octet), page);
    }
  }

  /** Whatever a tick does, device information that stems from a page still does. */
  lemma TickKeepsPage(p: Port, event: TickEvent, env: Env)
    requires Wf(p) && FromPage(p.info)
    ensures FromPage(Tick(p, event, env).0.info)
  {
    hide Wf, PollOctets, RunCycle, OnTimeout, FromPage;
    PollKeepsInfo(p, env, env.rx, ExpectedLen(p), 0);
    var q := Poll(p, env).0;
    OctetKeepsPage(p.info, q.info.minCycleOctet);
    CycleKeepsPage(q, env);
  }

  /** A tick commands the device, with validation configured and any stored information that of a page, only with
      the information of a page stored that the configuration fits octet by octet. */
  lemma CommandFitsDevice(p: Port, event: TickEvent, env: Env)
    requires Wf(p) && (p.config.validate || p.config.inspection != NoCheck) && FromPage(p.info)
    ensures var t := Tick(p, event, env).0;
            Commands(t.link.log) != Commands(p.link.log) ==> exists page :: OfPage(t.info, page) && Fits(t.config, page)
  {
    hide Wf, Tick, Commands, Validate, Parse, Fits, Readable;
    TickKeepsPage(p, event, env);
    CommandIsVetted(p, event, env);
    var t := Tick(p, event, env).0;
    if Commands(t.link.log) != Commands(p.link.log) {
      var page :| OfPage(t.info, page);
      ValidatesExactly(page, t.info, p.config);
      OctetIsNotVetted(Parse(page, t.info).1, t.info.minCycleOctet, p.config);
    }
  }

  lemma OctetIsNotVetted(info: DeviceInfo, octet: byte, c: Config)
    ensures Validate(info.(minCycleOctet := octet), c) == Validate(info, c)
  {
  }

  /** With page information stored and no service active, a cycle in PREOPERATE commands a device that fits or
      need not be checked, and ends in ERROR for any other. */
  lemma StoredPageDecides(p: Port, env: Env, page: seq<byte>)
    requires Wf(p) && p.link.state == Preoperate && Clear(p.link, env) && !E.Engaged(p.event) && NextIsdu(p).None?
    requires OfPage(p.info, page)
    ensures var vetted := p.config.validate || p.config.inspection != NoCheck;
            && CycleMove(p, env) == Some(if vetted && !Fits(p.config, page) then Refuse else Command)
            && (vetted && !Fits(p.config, page) ==> RunCycle(p, env).link.state == Error)
  {
    hide Wf, NextIsdu, Validate, Fits, Readable, E.Engaged, EventOctets, Parse;
    ValidatesExactly(page, p.info, p.config);
    OctetIsNotVetted(Parse(page, p.info).1, p.info.minCycleOctet, p.config);
    ParsedIsValid(page, p.info);
    CycleMoves(p, env);
  }

  lemma ParsedIsValid(page: seq<byte>, before: DeviceInfo)
    requires Readable(page)
    ensures Parse(page, before).1.valid
  {
  }

  /** A page read to its end decides the same way: only 16 octets that are readable and fit bring the command. */
  lemma ReadPageDecides(p: Port, env: Env)
    requires Wf(p) && p.link.state == Preoperate && Clear(p.link, env) && !E.Engaged(p.event) && NextIsdu(p).None?
    requires (p.config.validate || p.config.inspection != NoCheck) && !p.info.valid
    requires p.isdu.op == I.OpRead && p.isdu.done && p.isdu.index == 0 && p.isdu.subindex == 0
    ensures var page := p.isdu.response;
            CycleMove(p, env)
            == Some(if p.isdu.error == I.NO_ERROR && |page| == 16 && Readable(page) && Fits(p.config, page) then Command
                    else Refuse)
  {
    hide Wf, NextIsdu, Validate, Parse, Fits, E.Engaged, EventOctets, I.Clear, I.FinishFailed;
    var page := p.isdu.response;
    ValidatesExactly(page, p.info, p.config);
    if Readable(page) { ParsedIsValid(page, p.info); }
    ValidateIsNotPending(Parse(page, p.info).1, p.config);
  }

  lemma ValidateIsNotPending(info: DeviceInfo, c: Config)
    ensures info.valid ==> Validate(info, c) <= 0
  {
  }
}
