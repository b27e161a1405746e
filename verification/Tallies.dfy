/** The diagnostic counters of a port: what each of them has counted, in every run. */
module Tallies {
  import opened Status
  import opened Octets
  import opened DeviceParameters
  import opened Frames
  import opened Port
  import opened PortMoves
  import I = IsduTransport
  import E = EventMemory

  function Lates(log: seq<Act>): nat
  {
    if log == [] then 0 else Lates(Init(log)) + (if Last(log).Late? then 1 else 0)
  }

  function Reports(log: seq<Act>): nat
  {
    if log == [] then 0 else Reports(Init(log)) + (if Last(log).Report? then 1 else 0)
  }

  lemma NotedTally(log: seq<Act>, act: Act)
    ensures Lates(log + [act]) == Lates(log) + (if act.Late? then 1 else 0)
    ensures Reports(log + [act]) == Reports(log) + (if act.Report? then 1 else 0)
  {
    Noted(log, act);
  }

  /** Missed replies and reported failures are counted, and a refused frame, which ends in ERROR, at most once. */
  ghost predicate Tallied(l: Link)
  {
    && l.diag.timeouts == Lates(l.log) % U32 && l.diag.failures == Reports(l.log) % U32
    && l.diag.sendErrors <= (if l.state == Error then 1 else 0)
  }

  lemma RestartTallies(c: Config, l: Link, env: Env, timed: bool)
    requires Tallied(l) && l.state != Error
    ensures Tallied(Restart(c, l, env, timed).0)
  {
    hide Lates, Reports, TDwu, Later;
    NotedTally(l.log, Act.ComLost(env.at, timed));
  }

  lemma NextRateTallies(c: Config, l: Link, env: Env)
    requires Tallied(l) && l.state != Error
    ensures Tallied(NextRate(c, l, env).0)
  {
    hide Lates, Reports, TDmt, Later, Scan;
  }

  lemma SequenceTallies(c: Config, l: Link, env: Env)
    requires Tallied(l) && l.state != Error
    ensures Tallied(SequenceFailed(c, l, env).0)
  {
    hide Lates, Reports, TSd, Later;
    NotedTally(l.log, Report(env.at));
  }

  lemma NextWakeTallies(c: Config, l: Link, env: Env)
    requires Tallied(l) && l.state != Error
    ensures Tallied(NextWake(c, l, env).0)
  {
    hide Lates, Reports, TDwu, Later, Scan, SequenceFailed, RetryLimit;
    var r := ResetScan(c, l.(attempts := (l.attempts + 1) % 256), env).0;
    if r.state != Error { SequenceTallies(c, r, env); }
  }

  lemma AttemptTallies(c: Config, l: Link, env: Env)
    requires Tallied(l) && l.state != Error
    ensures Tallied(AttemptFailed(c, l, env).0)
  {
    hide Lates, Reports, NextRate, NextWake;
    NotedTally(l.log, Expired(env.at));
    var m := Note(l, Expired(env.at)).(awaiting := false);
    NextRateTallies(c, m, env);
    NextWakeTallies(c, m, env);
  }

  lemma ReceiveTallies(c: Config, l: Link, m: Move, env: Env)
    requires Enabled(c, l, m, env) && FromLine(m) && Tallied(l)
    ensures Tallied(Apply(c, l, m, env))
  {
    hide Lates, Reports, Restart, ReplyOk;
    NotedTally(l.log, Bad(env.at));
    NotedTally(l.log, Accepted(env.at));
    match m {
      case ReceiveBad => RestartTallies(c, CountBad(l, env), env, false);
      case ReceiveAnswer => NotedTally(l.log + [Accepted(env.at)], EnterPreoperate(env.at));
      case ReceiveAck(octet) => NotedTally(l.log + [Accepted(env.at)], EnterOperate(env.at, octet));
      case _ =>
    }
  }

  lemma ExpireTallies(c: Config, l: Link, driven: bool, env: Env)
    requires Enabled(c, l, Expire(driven), env) && Tallied(l)
    ensures Tallied(Apply(c, l, Expire(driven), env))
  {
    hide Lates, Reports, Restart, AttemptFailed;
    var u := l.(awaiting := false);
    NotedTally(u.log, Late(env.at));
    if l.state == Startup {
      AttemptTallies(c, u, env);
    } else if l.state == Operate {
      RestartTallies(c, CountLate(u, env), env, true);
    }
  }

  /** The PHY does not take the frame or wake-up of this move. */
  predicate Refused(c: Config, l: Link, m: Move, env: Env)
  {
    var refused := env.prepareTx != OK || !env.sent || env.prepareRx != OK;
    match m
    case Establish =>
      if l.step == StepSend then refused
      else (l.step == StepWake || (l.step == StepInactive && env.mode == OK))
           && (if c.wakeHook then env.wake != OK else refused)
    case Serve(kind, octets) => refused
    case Command => refused
    case Cycle(octets) => refused
    case _ => false
  }

  /** One more send error and ERROR, or nothing counted. */
  ghost predicate Counts(l: Link, t: Link, refused: bool)
  {
    && t.diag.sendErrors == (if refused then (l.diag.sendErrors + 1) % 0x1_0000_0000 else l.diag.sendErrors)
    && (refused ==> t.state == Error)
    && t.diag.timeouts == l.diag.timeouts && t.diag.failures == l.diag.failures
    && t.diag.checksumErrors == l.diag.checksumErrors
  }

  lemma FrameCounts(l: Link, env: Env, kind: Kind, octets: seq<byte>)
    requires |octets| > 0
    ensures Counts(l, Transmit(l, env, kind, octets).0, env.prepareTx != OK || !env.sent || env.prepareRx != OK)
  {
  }

  lemma WakeCounts(c: Config, l: Link, env: Env)
    ensures Counts(l, ProcessWake(c, l, env),
                   if c.wakeHook then env.wake != OK else env.prepareTx != OK || !env.sent || env.prepareRx != OK)
  {
    hide TDmt, Later, RateOf;
  }

  /** A send error is counted exactly when the PHY does not take a frame or wake-up; the port is then in ERROR. */
  lemma RefusalIsCountedExactly(c: Config, l: Link, m: Move, env: Env)
    requires Enabled(c, l, m, env) && !FromLine(m) && !m.Expire?
    ensures Counts(l, Apply(c, l, m, env), Refused(c, l, m, env))
  {
    hide Suits, CycleDue, Jitter, ResponseTimeout, OperateOctets, TestOctets, RateOf, Transmit, ProcessWake, TestWindow;
    match m {
      case Establish =>
        FrameCounts(l, env, TestMessage, TestOctets());
        WakeCounts(c, l.(phyMode := Sdci, step := StepWake), env);
        WakeCounts(c, l, env);
      case Serve(kind, octets) => FrameCounts(l, env, kind, octets);
      case Command => FrameCounts(l, env, OperateCommand, OperateOctets());
      case Cycle(octets) => FrameCounts(l, env, Cyclic, octets);
      case _ =>
    }
  }

  lemma SendTallies(c: Config, l: Link, m: Move, env: Env)
    requires Enabled(c, l, m, env) && !FromLine(m) && !m.Expire? && Tallied(l)
    ensures Tallied(Apply(c, l, m, env))
  {
    hide Lates, Reports, Apply, Enabled, LineAct, Refused;
    SendLogs(c, l, m, env);
    RefusalIsCountedExactly(c, l, m, env);
    assert l.log + [] == l.log;
    if LineAct(c, l, m, env).Some? { NotedTally(l.log, LineAct(c, l, m, env).value); }
    LiveUnlessError(c, l, m, env);
  }

  lemma LiveUnlessError(c: Config, l: Link, m: Move, env: Env)
    requires Enabled(c, l, m, env) && !FromLine(m) && !m.Expire?
    ensures l.state != Error
  {
  }

  lemma {:induction false} HappeningsTally(c: Config, l: Link, hs: seq<Happening>, since: nat)
    requires Happens(c, l, hs, since) && Tallied(l)
    ensures Tallied(Result(c, l, hs, since))
    decreases |hs|
  {
    hide Enabled, Apply, Tallied;
    if hs != [] {
      var m, env := hs[0].move, hs[0].env;
      if FromLine(m) {
        ReceiveTallies(c, l, m, env);
      } else if m.Expire? {
        ExpireTallies(c, l, m.driven, env);
      } else {
        SendTallies(c, l, m, env);
      }
      HappeningsTally(c, Apply(c, l, m, env), hs[1..], env.at);
    }
  }

  lemma StartsTallied(c: Config, cap: nat)
    ensures Tallied(Initial(c, cap).link)
  {
  }

  /** In every run the timeout counter is the number of missed replies, the failure counter that of reported wake-up
      sequences, and there is at most one send error, none unless the port is in ERROR. */
  lemma EveryLossIsCounted(c: Config, cap: nat, rounds: seq<Round>)
    requires Wf(Initial(c, cap)) && Timely(rounds, 0)
    ensures Tallied(Run(Initial(c, cap), rounds).link)
  {
    hide Wf, Run, Tallied;
    var hs := RunMoves(Initial(c, cap), rounds, 0);
    StartsTallied(c, cap);
    HappeningsTally(c, Initial(c, cap).link, hs, 0);
  }

  /** A checksum error more, or nothing counted. */
  ghost predicate CountsReply(l: Link, t: Link, ret: int)
  {
    var n := if ret == -3 then (l.diag.checksumErrors + 1) % 0x1_0000_0000 else l.diag.checksumErrors;
    t.diag == l.diag.(checksumErrors := n)
  }

  /** A reply is answered ERR_CHECKSUM exactly when it is counted as one, and no reply touches another counter. */
  lemma ChecksumErrorIsCountedExactly(p: Port, data: seq<byte>, env: Env)
    requires Wf(p) && |data| > 0
    ensures var (t, ret) := OnRx(p, data, env); CountsReply(p.link, t.link, ret)
  {
    hide I.Wf, E.Wf, ReplyOk, OnShortReply, OnCyclicReply, ReplyBad;
    BadCounts(p.config, p.link, env);
    ShortReplyCounts(p, data, env);
    CyclicReplyCounts(p, data, env);
  }

  lemma BadCounts(c: Config, l: Link, env: Env)
    ensures CountsReply(l, ReplyBad(c, l, env), -3)
  {
    hide TDwu, Later, Scan;
  }

  lemma ShortReplyCounts(p: Port, data: seq<byte>, env: Env)
    requires Wf(p) && |data| > 0
    ensures var (t, ret) := OnShortReply(p, data, env); CountsReply(p.link, t.link, ret)
  {
    hide I.Wf, E.Wf, ReplyBad, ReplyOk, RouteOd;
    BadCounts(p.config, p.link, env);
  }

  lemma CyclicReplyCounts(p: Port, data: seq<byte>, env: Env)
    requires Wf(p) && |data| > 0
    ensures var (t, ret) := OnCyclicReply(p, data, env); CountsReply(p.link, t.link, ret)
  {
    hide I.Wf, E.Wf, ReplyBad, ReplyOk, RouteOd, DecodeReply;
    BadCounts(p.config, p.link, env);
  }
}
