/** The establish-communication sequence against a silent device (7.3.2.2, Figure 36): the
    exact script of wake-ups, test messages and failure reports, for every timed run. */
module Establish {
  import opened Status
  import opened Octets
  import opened DeviceParameters
  import opened Frames
  import opened Port
  import opened PortMoves

  // ---- the PHY follows the port ----------------------------------------------

  /** Until a PHY fault the PHY runs at the port's rate, and sleeps exactly while the port waits T_SD. */
  ghost predicate InTune(c: Config, l: Link)
  {
    l.state != Error ==>
      && l.phyRate == RateOf(c, l)
      && l.phyMode == (if l.state == Startup && l.step == StepInactive then Sleeping else Sdci)
      && (l.awaiting && l.state == Startup ==> l.step == StepAwait)
  }

  lemma RestartTunes(c: Config, l: Link, env: Env, timed: bool)
    requires l.phyRate == RateOf(c, l) && l.phyMode == Sdci
    ensures InTune(c, Restart(c, l, env, timed).0)
  {
    hide TDwu, Later;
  }

  lemma AttemptTunes(c: Config, l: Link, env: Env)
    requires l.phyRate == RateOf(c, l) && l.phyMode == Sdci && l.state == Startup
    ensures InTune(c, AttemptFailed(c, l, env).0)
  {
    hide NextRate, NextWake, Scan;
    var m := Note(l, Expired(env.at)).(awaiting := false);
    NextRateTunes(c, m, env);
    NextWakeTunes(c, m, env);
  }

  lemma NextRateTunes(c: Config, l: Link, env: Env)
    requires l.phyMode == Sdci && l.state == Startup && !l.awaiting
    ensures c.autoRate ==> InTune(c, NextRate(c, l, env).0)
  {
    hide TDmt, Later, Scan;
  }

  lemma NextWakeTunes(c: Config, l: Link, env: Env)
    requires l.phyRate == RateOf(c, l) && l.phyMode == Sdci && l.state == Startup && !l.awaiting
    ensures InTune(c, NextWake(c, l, env).0)
  {
    hide TDwu, TSd, Later;
  }

  lemma ReceiveTunes(c: Config, l: Link, m: Move, env: Env)
    requires Enabled(c, l, m, env) && (FromLine(m) || m.Expire?) && InTune(c, l)
    ensures InTune(c, Apply(c, l, m, env))
  {
    hide Restart, AttemptFailed, ReplyOk, Scan;
    match m {
      case ReceiveBad =>
        RestartTunes(c, CountBad(l, env), env, false);
      case Expire(driven) =>
        var u := l.(awaiting := false);
        if l.state == Startup { AttemptTunes(c, u, env); }
        if l.state == Operate {
          RestartTunes(c, CountLate(u, env), env, true);
        }
      case _ =>
    }
  }

  lemma SendTunes(c: Config, l: Link, m: Move, env: Env)
    requires Enabled(c, l, m, env) && !FromLine(m) && !m.Expire? && InTune(c, l)
    ensures InTune(c, Apply(c, l, m, env))
  {
    hide ProcessStartup, Transmit, Scan, OperateOctets, ResponseTimeout;
    if m.Establish? { EstablishTunes(c, l, env); }
  }

  lemma EstablishTunes(c: Config, l: Link, env: Env)
    requires l.state == Startup && !l.awaiting && InTune(c, l)
    ensures InTune(c, ProcessStartup(c, l, env))
  {
    hide TDmt, Later, TestWindow, Scan, Transmit, WakeUp;
  }

  lemma {:induction false} HappeningsTune(c: Config, l: Link, hs: seq<Happening>, since: nat)
    requires Happens(c, l, hs, since) && InTune(c, l)
    ensures InTune(c, Result(c, l, hs, since))
    decreases |hs|
  {
    hide Enabled, Apply, InTune;
    if hs != [] {
      if FromLine(hs[0].move) || hs[0].move.Expire? {
        ReceiveTunes(c, l, hs[0].move, hs[0].env);
      } else {
        SendTunes(c, l, hs[0].move, hs[0].env);
      }
      HappeningsTune(c, Apply(c, l, hs[0].move, hs[0].env), hs[1..], hs[0].env.at);
    }
  }

  lemma NothingMovesInactive(c: Config, l: Link, hs: seq<Happening>, since: nat)
    requires Happens(c, l, hs, since) && l.state == Inactive && !l.awaiting
    ensures Result(c, l, hs, since) == l
  {
  }

  /** Until a fault the PHY of an IO-Link port follows the port; a DI, DQ or deactivated port stays as
      initialisation left it, with its PHY in SIO or inactive. */
  lemma PhyFollowsPort(c: Config, cap: nat, rounds: seq<Round>)
    requires Wf(Initial(c, cap)) && Timely(rounds, 0)
    ensures var l := Run(Initial(c, cap), rounds).link;
            if c.portMode == ModeIoLink then InTune(c, l)
            else l == Initial(c, cap).link && l.state == Inactive
                 && l.phyMode == (if c.portMode == ModeDeactivated then Sleeping else Sio)
  {
    hide Wf, Run;
    var hs := RunMoves(Initial(c, cap), rounds, 0);
    if c.portMode == ModeIoLink {
      HappeningsTune(c, Initial(c, cap).link, hs, 0);
    } else {
      NothingMovesInactive(c, Initial(c, cap).link, hs, 0);
    }
  }

  // ---- the script ---------------------------------------------------------------

  /** The acts of the script without their times. */
  datatype Mark = MarkWake | MarkTest(rate: Rate) | MarkExpired | MarkReport

  function MarkOf(act: Act): seq<Mark>
  {
    match act
    case Wake(at, ok) => [MarkWake]
    case Sent(at, rate, kind, octets, ok) => if kind == TestMessage then [MarkTest(rate)] else []
    case Expired(at) => [MarkExpired]
    case Report(at) => [MarkReport]
    case _ => []
  }

  /** The marks since the last restart. */
  function Marks(log: seq<Act>): seq<Mark>
  {
    if log == [] || Last(log).ComLost? then [] else Marks(Init(log)) + MarkOf(Last(log))
  }

  /** Rates tried after each wake-up. */
  function RateCount(c: Config): nat { if c.autoRate then LAST_RATE + 1 else 1 }

  const SCAN_ORDER := [COM3, COM2, COM1]

  function RateAt(c: Config, index: nat): Rate
  {
    if !c.autoRate || index >= |SCAN_ORDER| then c.rate else SCAN_ORDER[index]
  }

  /** The first `n` test messages of a scan, none of them answered. */
  function Tests(c: Config, n: nat): seq<Mark>
  {
    if n == 0 then [] else Tests(c, n - 1) + [MarkTest(RateAt(c, n - 1)), MarkExpired]
  }

  function Attempts(c: Config, n: nat): seq<Mark>
  {
    if n == 0 then [] else Attempts(c, n - 1) + [MarkWake] + Tests(c, RateCount(c))
  }

  /** A failed sequence: n_WU + 1 wake-ups, each with its scan, then the report. */
  function Sequences(c: Config, n: nat): seq<Mark>
  {
    if n == 0 then [] else Sequences(c, n - 1) + Attempts(c, RetryLimit(c) + 1) + [MarkReport]
  }

  /** The part of the current sequence a port in STARTUP has gone through. */
  function Done(c: Config, l: Link): seq<Mark>
  {
    Attempts(c, l.attempts)
    + match l.step
      case StepSend => [MarkWake] + Tests(c, l.rateIndex)
      case StepAwait => [MarkWake] + Tests(c, l.rateIndex) + [MarkTest(RateAt(c, l.rateIndex))]
      case _ => []
  }

  function Reports(log: seq<Act>): nat
  {
    if log == [] then 0 else Reports(Init(log)) + (if Last(log).Report? then 1 else 0)
  }

  /** Reports since the last restart. */
  function Failed(log: seq<Act>): nat
  {
    if log == [] || Last(log).ComLost? then 0 else Failed(Init(log)) + (if Last(log).Report? then 1 else 0)
  }

  lemma {:induction false} FailedAreReported(log: seq<Act>)
    ensures Failed(log) <= Reports(log)
  {
    if log != [] { FailedAreReported(Init(log)); }
  }

  lemma NotedMark(log: seq<Act>, act: Act)
    requires !act.ComLost?
    ensures Marks(log + [act]) == Marks(log) + MarkOf(act)
    ensures Failed(log + [act]) == Failed(log) + (if act.Report? then 1 else 0)
  {
    Noted(log, act);
  }

  lemma NotedReport(log: seq<Act>, act: Act)
    ensures Reports(log + [act]) == Reports(log) + (if act.Report? then 1 else 0)
  {
    Noted(log, act);
  }

  /** The log is the script up to the point the port has reached. */
  ghost predicate OnScript(c: Config, l: Link)
  {
    && l.state == Startup && InTune(c, l)
    && Marks(l.log) == Sequences(c, Failed(l.log)) + Done(c, l)
    && l.attempts <= RetryLimit(c) && l.rateIndex < RateCount(c)
    && l.step != StepAck && (l.awaiting <==> l.step == StepAwait)
    && (l.step == StepWake || l.step == StepInactive ==> l.rateIndex == 0)
    && (l.step == StepInactive ==> l.attempts == 0)
  }

  ghost predicate OnScriptOrFaulty(c: Config, l: Link) { l.state == Error || OnScript(c, l) }

  lemma NothingDone(c: Config)
    ensures Tests(c, 0) == [] && Attempts(c, 0) == [] && Sequences(c, 0) == []
  {
  }

  lemma WakeOnScript(c: Config, l: Link, env: Env)
    requires OnScript(c, l.(phyMode := if l.step == StepInactive then Sleeping else Sdci))
    requires l.step == StepWake || l.step == StepInactive
    ensures OnScriptOrFaulty(c, ProcessWake(c, l.(phyMode := Sdci, step := StepWake), env))
  {
    hide Marks, Attempts, Tests, Sequences, Scan, TDmt, Later, Failed;
    NotedMark(l.log, Wake(env.at, true));
    NothingDone(c);
  }

  /** The rate a port scans at is the one whose turn it is. */
  lemma ScanOrder(c: Config, l: Link)
    requires l.rateIndex < RateCount(c)
    ensures RateOf(c, l) == RateAt(c, l.rateIndex)
  {
  }

  lemma TestOnScript(c: Config, l: Link, env: Env)
    requires OnScript(c, l) && l.step == StepSend
    ensures OnScriptOrFaulty(c, ProcessTest(c, l, env))
  {
    hide Marks, Attempts, Tests, Sequences, Scan, TestWindow, Later, Failed, TestOctets;
    NotedMark(l.log, Sent(env.at, l.phyRate, TestMessage, TestOctets(), true));
    ScanOrder(c, l);
    var before := Sequences(c, Failed(l.log)) + (Attempts(c, l.attempts) + ([MarkWake] + Tests(c, l.rateIndex)));
    assert before + [MarkTest(RateAt(c, l.rateIndex))]
        == Sequences(c, Failed(l.log))
           + (Attempts(c, l.attempts) + ([MarkWake] + Tests(c, l.rateIndex) + [MarkTest(RateAt(c, l.rateIndex))]));
  }

  lemma EstablishOnScript(c: Config, l: Link, env: Env)
    requires OnScript(c, l) && Enabled(c, l, Establish, env)
    ensures OnScriptOrFaulty(c, ProcessStartup(c, l, env))
  {
    hide Marks, Done, Sequences, Scan, ProcessWake, ProcessTest, Failed;
    match l.step {
      case StepSend => TestOnScript(c, l, env);
      case StepWake => WakeOnScript(c, l, env);
      case StepInactive => WakeOnScript(c, l, env);
      case StepAwait =>
    }
  }

  /** An expired test message, seen by the port while it decides what comes next. */
  ghost predicate AtExpiry(c: Config, l: Link)
  {
    && l.state == Startup && l.phyRate == RateOf(c, l) && l.phyMode == Sdci && !l.awaiting
    && Marks(l.log) == Sequences(c, Failed(l.log)) + (Attempts(c, l.attempts) + [MarkWake] + Tests(c, l.rateIndex + 1))
    && l.attempts <= RetryLimit(c) && l.rateIndex < RateCount(c)
  }

  lemma ExpiryOnScript(c: Config, l: Link, env: Env)
    requires OnScript(c, l) && l.step == StepAwait
    ensures AtExpiry(c, Note(l, Expired(env.at)).(awaiting := false))
  {
    hide Marks, Attempts, Sequences, Scan, Failed, RateAt;
    NotedMark(l.log, Expired(env.at));
    var s, a, t := Sequences(c, Failed(l.log)), Attempts(c, l.attempts), Tests(c, l.rateIndex);
    assert Tests(c, l.rateIndex + 1) == t + [MarkTest(RateAt(c, l.rateIndex)), MarkExpired];
    assert s + (a + ([MarkWake] + t + [MarkTest(RateAt(c, l.rateIndex))])) + [MarkExpired]
        == s + (a + [MarkWake] + (t + [MarkTest(RateAt(c, l.rateIndex)), MarkExpired]));
  }

  lemma NextRateOnScript(c: Config, l: Link, env: Env)
    requires AtExpiry(c, l) && c.autoRate && l.rateIndex < LAST_RATE
    ensures OnScriptOrFaulty(c, NextRate(c, l, env).0)
  {
    hide Marks, Attempts, Tests, Sequences, Scan, Failed, TDmt, Later;
    var t := Tests(c, l.rateIndex + 1);
    assert Attempts(c, l.attempts) + [MarkWake] + t == Attempts(c, l.attempts) + ([MarkWake] + t);
  }

  lemma NextWakeOnScript(c: Config, l: Link, env: Env)
    requires AtExpiry(c, l) && l.rateIndex == RateCount(c) - 1 && RetryLimit(c) <= 254
    ensures OnScriptOrFaulty(c, NextWake(c, l, env).0)
  {
    hide Marks, Tests, Scan, Failed, TDwu, Later, SequenceFailed, Sequences;
    var r := ResetScan(c, l.(attempts := (l.attempts + 1) % 256), env).0;
    assert Attempts(c, l.attempts + 1) == Attempts(c, l.attempts) + [MarkWake] + Tests(c, RateCount(c));
    if r.state != Error && r.attempts > RetryLimit(c) {
      SequenceFailedOnScript(c, r, env);
    }
  }

  lemma SequenceFailedOnScript(c: Config, l: Link, env: Env)
    requires l.state == Startup && l.phyRate == RateOf(c, l) && l.phyMode == Sdci && !l.awaiting && l.rateIndex == 0
    requires Marks(l.log) == Sequences(c, Failed(l.log)) + Attempts(c, RetryLimit(c) + 1)
    ensures OnScriptOrFaulty(c, SequenceFailed(c, l, env).0)
  {
    hide Marks, Attempts, Tests, Scan, Failed, TSd, Later;
    NotedMark(l.log, Report(env.at));
    NothingDone(c);
    assert Sequences(c, Failed(l.log) + 1)
        == Sequences(c, Failed(l.log)) + Attempts(c, RetryLimit(c) + 1) + [MarkReport];
  }

  lemma AttemptOnScript(c: Config, l: Link, env: Env)
    requires OnScript(c, l) && l.step == StepAwait && RetryLimit(c) <= 254
    ensures OnScriptOrFaulty(c, AttemptFailed(c, l, env).0)
  {
    hide OnScript, Marks, NextRate, NextWake, Sequences, Attempts, Tests;
    ExpiryOnScript(c, l, env);
    var m := Note(l, Expired(env.at)).(awaiting := false);
    if c.autoRate && m.rateIndex < LAST_RATE { NextRateOnScript(c, m, env); } else { NextWakeOnScript(c, m, env); }
  }

  lemma SilentMoveOnScript(c: Config, l: Link, m: Move, env: Env)
    requires OnScript(c, l) && Enabled(c, l, m, env) && !FromLine(m) && RetryLimit(c) <= 254
    ensures OnScriptOrFaulty(c, Apply(c, l, m, env))
  {
    hide Marks, Sequences, Attempts, Tests, Failed, ProcessStartup, AttemptFailed, Scan, Done;
    if m.Expire? {
      AttemptOnScript(c, l, env);
      UnawaitedAttempt(c, l, env);
    } else {
      EstablishOnScript(c, l, env);
    }
  }

  lemma UnawaitedAttempt(c: Config, l: Link, env: Env)
    ensures AttemptFailed(c, l.(awaiting := false), env) == AttemptFailed(c, l, env)
  {
    hide NextRate, NextWake;
  }

  lemma {:induction false} SilenceKeepsScript(c: Config, l: Link, hs: seq<Happening>, since: nat)
    requires Happens(c, l, hs, since) && Quiet(hs) && OnScriptOrFaulty(c, l) && RetryLimit(c) <= 254
    ensures OnScriptOrFaulty(c, Result(c, l, hs, since))
    decreases |hs|
  {
    hide Enabled, Apply, OnScript;
    if hs != [] {
      assert hs[0] in hs;
      if l.state == Error {
        ErrorStaysError(c, l, hs[0].move, hs[0].env);
      } else {
        SilentMoveOnScript(c, l, hs[0].move, hs[0].env);
      }
      SilenceKeepsScript(c, Apply(c, l, hs[0].move, hs[0].env), hs[1..], hs[0].env.at);
    }
  }

  lemma ErrorStaysError(c: Config, l: Link, m: Move, env: Env)
    requires Enabled(c, l, m, env) && l.state == Error
    ensures Apply(c, l, m, env).state == Error
  {
  }

  lemma StartsOnScript(c: Config, cap: nat)
    requires c.portMode == ModeIoLink
    ensures OnScript(c, Initial(c, cap).link)
  {
    NothingDone(c);
  }

  /** Against a silent device, in every timed run without a PHY fault, the line carries exactly the
      script: each report is preceded by n_WU + 1 wake-ups, and each wake-up is followed by test
      messages at COM3, COM2, COM1 in this order, or one at the fixed rate. */
  lemma SilentDeviceScript(c: Config, cap: nat, rounds: seq<Round>)
    requires Wf(Initial(c, cap)) && Timely(rounds, 0) && c.portMode == ModeIoLink && RetryLimit(c) <= 254
    requires forall r :: r in rounds ==> SilentRound(r)
    ensures var l := Run(Initial(c, cap), rounds).link;
            l.state != Error ==> l.state == Startup && Marks(l.log) == Sequences(c, Failed(l.log)) + Done(c, l)
  {
    hide Wf, Run, Marks, Sequences, Done, Failed;
    var hs := RunMoves(Initial(c, cap), rounds, 0);
    StartsOnScript(c, cap);
    SilenceKeepsScript(c, Initial(c, cap).link, hs, 0);
  }

  // ---- every run -------------------------------------------------------------------

  /** Until a PHY fault, a port in STARTUP is where the script since its last restart says it is. */
  ghost predicate Scripted(c: Config, l: Link)
  {
    l.state != Error ==> InTune(c, l) && l.rateIndex < RateCount(c) && (l.state == Startup ==> OnScript(c, l))
  }

  lemma RestartOnScript(c: Config, l: Link, env: Env, timed: bool)
    requires l.phyRate == RateOf(c, l) && l.phyMode == Sdci && l.rateIndex < RateCount(c)
    ensures OnScriptOrFaulty(c, Restart(c, l, env, timed).0)
  {
    hide TDwu, Later, Scan;
    RestartTunes(c, l, env, timed);
    Noted(l.log, Act.ComLost(env.at, timed));
    NothingDone(c);
  }

  lemma ScriptIsScripted(c: Config, l: Link)
    requires OnScriptOrFaulty(c, l)
    ensures Scripted(c, l)
  {
  }

  lemma ReceiveScripted(c: Config, l: Link, m: Move, env: Env)
    requires Enabled(c, l, m, env) && FromLine(m) && Scripted(c, l)
    ensures Scripted(c, Apply(c, l, m, env))
  {
    hide Restart, ReplyOk, Scan, Marks, Failed, Done, Sequences, Attempts;
    ReceiveTunes(c, l, m, env);
    if m.ReceiveBad? {
      var b := CountBad(l, env);
      RestartOnScript(c, b, env, false);
      ScriptIsScripted(c, Restart(c, b, env, false).0);
    } else if m.ReceiveUndecodable? {
      UndecodableOnScript(c, l);
    }
  }

  lemma UndecodableOnScript(c: Config, l: Link)
    requires OnScript(c, l)
    ensures OnScript(c, Undecodable(l))
  {
    hide Marks, Failed, Sequences, Attempts, Tests, Scan;
  }

  lemma ExpireScripted(c: Config, l: Link, driven: bool, env: Env)
    requires Enabled(c, l, Expire(driven), env) && Scripted(c, l) && RetryLimit(c) <= 254
    ensures Scripted(c, Apply(c, l, Expire(driven), env))
  {
    hide Restart, AttemptFailed, Scan, Marks, Failed, Done, Sequences, Attempts;
    var u := l.(awaiting := false);
    ReceiveTunes(c, l, Expire(driven), env);
    if l.state == Startup {
      AttemptOnScript(c, l, env);
      UnawaitedAttempt(c, l, env);
      ScriptIsScripted(c, AttemptFailed(c, u, env).0);
    } else if l.state == Operate {
      var m := CountLate(u, env);
      RestartOnScript(c, m, env, true);
      ScriptIsScripted(c, Restart(c, m, env, true).0);
    }
  }

  lemma SendScripted(c: Config, l: Link, m: Move, env: Env)
    requires Enabled(c, l, m, env) && !FromLine(m) && !m.Expire? && Scripted(c, l)
    ensures Scripted(c, Apply(c, l, m, env))
  {
    hide Apply, ProcessStartup, Scan, Marks, Failed, Done, Sequences, Attempts, LineAct;
    SendTunes(c, l, m, env);
    SendLogs(c, l, m, env);
    if m.Establish? {
      EstablishOnScript(c, l, env);
      Applied(c, l, env, TestOctets(), TestMessage);
    }
  }

  lemma {:induction false} HappeningsScripted(c: Config, l: Link, hs: seq<Happening>, since: nat)
    requires Happens(c, l, hs, since) && Scripted(c, l) && RetryLimit(c) <= 254
    ensures Scripted(c, Result(c, l, hs, since))
    decreases |hs|
  {
    hide Enabled, Apply, Scripted;
    if hs != [] {
      var m, env := hs[0].move, hs[0].env;
      if FromLine(m) {
        ReceiveScripted(c, l, m, env);
      } else if m.Expire? {
        ExpireScripted(c, l, m.driven, env);
      } else {
        SendScripted(c, l, m, env);
      }
      HappeningsScripted(c, Apply(c, l, m, env), hs[1..], env.at);
    }
  }

  /** In every timed run, whatever the device answers, a port in STARTUP has since its last restart put
      on the line exactly the script: each report is preceded by n_WU + 1 wake-ups, and each wake-up is
      followed by test messages at COM3, COM2, COM1 in this order, or one at the fixed rate. */
  lemma EveryRunFollowsScript(c: Config, cap: nat, rounds: seq<Round>)
    requires Wf(Initial(c, cap)) && Timely(rounds, 0) && c.portMode == ModeIoLink && RetryLimit(c) <= 254
    ensures var l := Run(Initial(c, cap), rounds).link;
            l.state == Startup ==> Marks(l.log) == Sequences(c, Failed(l.log)) + Done(c, l)
  {
    hide Wf, Run, Marks, Sequences, Done, Failed;
    var hs := RunMoves(Initial(c, cap), rounds, 0);
    StartsOnScript(c, cap);
    ScriptIsScripted(c, Initial(c, cap).link);
    HappeningsScripted(c, Initial(c, cap).link, hs, 0);
  }

  // ---- the sequence ends, and when it cannot -----------------------------------

  /** A silent round whose PHY answers are good and whose time has come. */
  predicate Ready(l: Link, env: Env)
  {
    && env.rx == [] && !env.rxFault
    && env.flush == OK && env.mode == OK && env.rate == OK && env.wake == OK
    && env.prepareTx == OK && env.sent && env.prepareRx == OK
    && (if l.awaiting then Now(env) >= l.deadline else !Gated(l, env))
  }

  lemma ReadyEstablish(c: Config, l: Link, env: Env)
    requires OnScript(c, l) && Ready(l, env) && !l.awaiting
    ensures ProcessStartup(c, l, env).state == Startup
    ensures LineAct(c, l, Establish, env).Some? && |MarkOf(LineAct(c, l, Establish, env).value)| == 1
  {
    hide TestOctets, Done, Sequences, Marks, TDmt, Later, TestWindow, Scan;
  }

  lemma ReadyAttempt(c: Config, l: Link, env: Env)
    requires Ready(l, env)
    ensures AttemptFailed(c, l, env).0.state == l.state
  {
    hide TDmt, TDwu, TSd, Later, Scan;
  }

  /** The driven tick of a ready round is one move. */
  lemma ReadyDrive(p: Port, env: Env)
    requires Wf(p) && OnScript(p.config, p.link) && Ready(p.link, env)
    ensures var t := Drive(p, env).0.link;
            if p.link.awaiting then t == AttemptFailed(p.config, p.link, env).0
            else t == ProcessStartup(p.config, p.link, env)
  {
    hide Wf, OnScript, AttemptFailed, RunCycle, ProcessStartup;
    if !p.link.awaiting {
      ScriptClears(p.config, p.link, env);
      StartupMoves(p, env);
      Applied(p.config, p.link, env, TestOctets(), TestMessage);
    } else {
      ScriptAwaits(p.config, p.link);
      UnawaitedAttempt(p.config, p.link, env);
    }
  }

  lemma ScriptClears(c: Config, l: Link, env: Env)
    requires OnScript(c, l) && Ready(l, env) && !l.awaiting
    ensures l.state == Startup && Clear(l, env)
  {
  }

  lemma ScriptAwaits(c: Config, l: Link)
    requires OnScript(c, l) && l.awaiting
    ensures l.state == Startup && l.step == StepAwait
  {
  }

  /** Every ready round takes the script a step further. */
  lemma SilentProgress(p: Port, env: Env)
    requires Wf(p) && OnScript(p.config, p.link) && Ready(p.link, env) && RetryLimit(p.config) <= 254
    ensures var t := Drive(p, env).0.link;
            OnScript(p.config, t) && |Marks(t.log)| > |Marks(p.link.log)|
  {
    hide Wf, Drive, OnScript, AttemptFailed, ProcessStartup, Marks, Ready;
    var c, l := p.config, p.link;
    ReadyDrive(p, env);
    if l.awaiting {
      ScriptAwaits(c, l);
      ReadyAttempt(c, l, env);
      AttemptOnScript(c, l, env);
      NotedMark(l.log, Expired(env.at));
      NotedMark(l.log + [Expired(env.at)], Report(env.at));
    } else {
      ScriptClears(c, l, env);
      ReadyEstablish(c, l, env);
      EstablishOnScript(c, l, env);
      EstablishLogs(c, l, env);
      NotedMark(l.log, LineAct(c, l, Establish, env).value);
    }
  }

  /** Driven rounds, each ready where it happens. */
  ghost predicate AllReady(p: Port, rounds: seq<Round>)
    requires Wf(p)
    decreases |rounds|
  {
    rounds == []
    || (rounds[0].Driven? && Ready(p.link, rounds[0].env) && AllReady(After(p, rounds[0]), rounds[1..]))
  }

  /** Ready rounds exist in any number: a port cannot be kept from them but by its PHY. */
  lemma {:induction false} ReadyRoundsExist(p: Port, n: nat) returns (rounds: seq<Round>)
    requires Wf(p)
    ensures |rounds| == n && AllReady(p, rounds) && Timely(rounds, U32 - 1)
    decreases n
  {
    hide Wf, Drive;
    rounds := [];
    if n > 0 {
      var r := Driven(LAST_TICK);
      var rest := ReadyRoundsExist(After(p, r), n - 1);
      rounds := [r] + rest;
      assert rounds[1..] == rest;
    }
  }

  lemma {:induction false} ReadyRoundsProgress(p: Port, rounds: seq<Round>)
    requires Wf(p) && OnScript(p.config, p.link) && RetryLimit(p.config) <= 254 && AllReady(p, rounds)
    ensures OnScript(p.config, Run(p, rounds).link)
    ensures |Marks(Run(p, rounds).link.log)| >= |Marks(p.link.log)| + |rounds|
    decreases |rounds|
  {
    hide Wf, OnScript, Marks, Drive, Ready;
    if rounds != [] {
      SilentProgress(p, rounds[0].env);
      ReadyRoundsProgress(After(p, rounds[0]), rounds[1..]);
    }
  }

  lemma {:induction false} AttemptsLength(c: Config, n: nat, m: nat)
    requires n <= m
    ensures |Attempts(c, n)| + (m - n) * (1 + |Tests(c, RateCount(c))|) == |Attempts(c, m)|
    decreases m - n
  {
    if n < m {
      AttemptsLength(c, n + 1, m);
      assert (m - n) * (1 + |Tests(c, RateCount(c))|)
          == (m - n - 1) * (1 + |Tests(c, RateCount(c))|) + (1 + |Tests(c, RateCount(c))|);
    }
  }

  lemma {:induction false} TestsLength(c: Config, n: nat)
    ensures |Tests(c, n)| == 2 * n
  {
    if n > 0 { TestsLength(c, n - 1); }
  }

  /** As many ready rounds as a sequence has steps bring a silent device to a failure report. */
  lemma SilenceIsReported(c: Config, cap: nat, rounds: seq<Round>)
    requires Wf(Initial(c, cap)) && c.portMode == ModeIoLink && RetryLimit(c) <= 254
    requires AllReady(Initial(c, cap), rounds) && |rounds| > |Attempts(c, RetryLimit(c) + 1)|
    ensures Reports(Run(Initial(c, cap), rounds).link.log) >= 1
  {
    hide Wf, Run, Attempts, Tests, Marks, Reports, Failed, AllReady;
    StartsOnScript(c, cap);
    ReadyRoundsProgress(Initial(c, cap), rounds);
    var l := Run(Initial(c, cap), rounds).link;
    FailedAreReported(l.log);
    TestsLength(c, l.rateIndex);
    TestsLength(c, RateCount(c));
    AttemptsLength(c, l.attempts, RetryLimit(c) + 1);
    NothingDone(c);
    var k := RetryLimit(c) + 1 - l.attempts;
    assert k >= 1 && k * (1 + 2 * RateCount(c)) >= 1 + 2 * RateCount(c);
  }

  /** With a limit of 255 the eight-bit counter wraps before it passes the limit. */
  lemma NextWakeNeverReports(c: Config, l: Link, env: Env)
    requires RetryLimit(c) == 255
    ensures NextWake(c, l, env).0.log == l.log
  {
    hide TDwu, Later, Scan, SequenceFailed;
  }

  lemma MoveNeverReports(c: Config, l: Link, m: Move, env: Env)
    requires Enabled(c, l, m, env) && RetryLimit(c) == 255
    ensures Reports(Apply(c, l, m, env).log) == Reports(l.log)
  {
    hide Reports, Restart, NextRate, NextWake, ReplyOk, Marks, RetryLimit;
    NotedReport(l.log, Bad(env.at));
    NotedReport(l.log, Late(env.at));
    NotedReport(l.log, Expired(env.at));
    NotedReport(l.log, Accepted(env.at));
    NotedReport(l.log + [Accepted(env.at)], EnterPreoperate(env.at));
    if m.ReceiveAck? { NotedReport(l.log + [Accepted(env.at)], EnterOperate(env.at, m.octet)); }
    if m.ReceiveBad? {
      RestartNeverReports(c, CountBad(l, env), env, false);
    } else if m.Expire? {
      var u := l.(awaiting := false);
      NextWakeNeverReports(c, Note(u, Expired(env.at)).(awaiting := false), env);
      RestartNeverReports(c, CountLate(u, env), env, true);
    } else if !FromLine(m) {
      SendNeverReports(c, l, m, env);
    }
  }

  lemma RestartNeverReports(c: Config, l: Link, env: Env, timed: bool)
    ensures Reports(Restart(c, l, env, timed).0.log) == Reports(l.log)
  {
    hide Reports, TDwu, Later;
    NotedReport(l.log, Act.ComLost(env.at, timed));
  }

  lemma SendNeverReports(c: Config, l: Link, m: Move, env: Env)
    requires Enabled(c, l, m, env) && !FromLine(m) && !m.Expire?
    ensures Reports(Apply(c, l, m, env).log) == Reports(l.log)
  {
    hide Reports, Apply, LineAct;
    SendLogs(c, l, m, env);
    assert l.log + [] == l.log;
    if LineAct(c, l, m, env).Some? { NotedReport(l.log, LineAct(c, l, m, env).value); }
  }

  lemma {:induction false} HappeningsNeverReport(c: Config, l: Link, hs: seq<Happening>, since: nat)
    requires Happens(c, l, hs, since) && RetryLimit(c) == 255
    ensures Reports(Result(c, l, hs, since).log) == Reports(l.log)
    decreases |hs|
  {
    hide Enabled, Apply, Reports, RetryLimit;
    if hs != [] {
      MoveNeverReports(c, l, hs[0].move, hs[0].env);
      HappeningsNeverReport(c, Apply(c, l, hs[0].move, hs[0].env), hs[1..], hs[0].env.at);
    }
  }

  /** A limit of 255 is never reached, so no run reports a failed sequence; every lower limit is met. */
  lemma LimitOf255NeverReports(c: Config, cap: nat, rounds: seq<Round>)
    requires Wf(Initial(c, cap)) && Timely(rounds, 0) && c.wakeRetryLimit == 255
    ensures Reports(Run(Initial(c, cap), rounds).link.log) == 0
  {
    hide Wf, Run;
    var hs := RunMoves(Initial(c, cap), rounds, 0);
    HappeningsNeverReport(c, Initial(c, cap).link, hs, 0);
  }

  /** So silence is reported, after as many ready rounds as a sequence has steps, exactly when the
      configured limit is at most 254. */
  lemma ReportedExactly(c: Config, cap: nat, rounds: seq<Round>)
    requires Wf(Initial(c, cap)) && c.portMode == ModeIoLink && Timely(rounds, 0)
    requires AllReady(Initial(c, cap), rounds) && |rounds| > |Attempts(c, RetryLimit(c) + 1)|
    ensures Reports(Run(Initial(c, cap), rounds).link.log) >= 1 <==> c.wakeRetryLimit <= 254
  {
    hide Wf, Run, Attempts, Reports, AllReady;
    if c.wakeRetryLimit <= 254 { SilenceIsReported(c, cap, rounds); } else { LimitOf255NeverReports(c, cap, rounds); }
  }
}
