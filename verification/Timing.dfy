/** Timing over whole controller-driven runs (Tables 9, 10 and 42): what passes between wake-ups, test
    messages, expiries and reports, and before a cyclic reply is missed, as long as the clock does not wrap. */
module Timing {
  import opened Wrappers
  import opened Status
  import opened Octets
  import opened DeviceParameters
  import opened Frames
  import opened Port
  import opened PortMoves
  import opened Establish

  /** Conversions round up: a delay never ends early, and is at most a tick too long. */
  lemma TicksRoundUp(rate: Rate, tbit: nat)
    ensures Ticks(rate, tbit) * TICK_NS >= TBitNs(rate) * tbit
    ensures Ticks(rate, tbit) * TICK_NS < TBitNs(rate) * tbit + TICK_NS
  {
    var ns := TBitNs(rate) * tbit;
    assert Ticks(rate, tbit) == (ns + TICK_NS - 1) / TICK_NS;
  }

  /** Transmission rate in bit/s (Table 9). */
  function BitsPerSecond(rate: Rate): nat
  {
    match rate case COM1 => 4_800 case COM2 => 38_400 case COM3 => 230_400
  }

  /** The fewest ticks, at least one and at least `floor`, that cover this many bit times. */
  predicate Fewest(ticks: nat, floor: nat, rate: Rate, bits: nat)
  {
    && ticks >= 1 && ticks >= floor && ticks * 100_000 >= bits * TBitNs(rate)
    && (ticks == 1 || ticks == floor || (ticks - 1) * 100_000 < bits * TBitNs(rate))
  }

  /** Bit times are those of the rates to 10 ns, the default delays lie in the ranges of Table 42, and the
      deadlines are no longer than they have to be. */
  lemma ConstantsConform(c: Config, rate: Rate)
    ensures var second := TBitNs(rate) * BitsPerSecond(rate);
            1_000_000_000 - 10 * BitsPerSecond(rate) <= second <= 1_000_000_000
    ensures c.tDwu == 0 ==> 300 <= TDwu(c) <= 500
    ensures c.tSd == 0 ==> 5_000 <= TSd(c) <= 10_000
    ensures c.tDmt == 0 ==> 27 * TBitNs(rate) <= TDmt(c, rate) * TICK_NS
    ensures var bits := if c.tDmt == 0 then 32 else c.tDmt;
            0 <= TDmt(c, rate) * 100_000 - bits * TBitNs(rate) < 100_000
    ensures c.wakeRetryLimit == 0 ==> RetryLimit(c) == 2
    ensures c.tDwu != 0 ==> TDwu(c) == c.tDwu
    ensures c.tSd != 0 ==> TSd(c) == c.tSd
    ensures c.wakeRetryLimit != 0 ==> RetryLimit(c) == c.wakeRetryLimit
    ensures Fewest(TestWindow(c, rate), c.responseTimeout, rate, 58)
    ensures Fewest(ResponseTimeout(c, rate), c.responseTimeout, rate, 21)
  {
    hide Ticks;
    TicksRoundUp(rate, if c.tDmt == 0 then 32 else c.tDmt);
    TicksRoundUp(rate, RESPONSE_TBIT);
    TicksRoundUp(rate, TYPE0_SEQUENCE_TBIT);
  }

  /** The last act that a startup delay is measured from. */
  function Reference(log: seq<Act>): Option<Act>
  {
    if log == [] then None
    else match Last(log)
      case Wake(at, ok) => Some(Last(log))
      case Sent(at, rate, kind, octets, ok) => if kind == TestMessage then Some(Last(log)) else Reference(Init(log))
      case Expired(at) => Some(Last(log))
      case Report(at) => Some(Last(log))
      case ComLost(at, timed) => Some(Last(log))
      case _ => Reference(Init(log))
  }

  /** The last cyclic frame handed to the PHY in full. */
  function LastCyclic(log: seq<Act>): (frame: Option<Act>)
    ensures frame.Some? ==> frame.value.Sent?
  {
    if log == [] then None
    else if Last(log).Sent? && Last(log).kind == Cyclic && Last(log).ok then Some(Last(log))
    else LastCyclic(Init(log))
  }

  /** The delays of Table 42: T_REN and T_DMT before a test message, its answer window before it
      expires, T_DWU before a repeated wake-up, T_SD after a reported failure; and the response timeout
      before the reply to a cyclic frame is missed. */
  predicate InTime(c: Config, before: Option<Act>, cyclic: Option<Act>, act: Act)
  {
    match act
    case Sent(at, rate, kind, octets, ok) =>
      kind == TestMessage ==>
        && before.Some?
        && (match before.value
            case Wake(since, woken) => at >= since + T_REN + TDmt(c, rate)
            case Expired(since) => at >= since + TDmt(c, rate)
            case _ => false)
    case Expired(at) =>
      before.Some? && before.value.Sent? && at >= before.value.at + TestWindow(c, before.value.rate)
    case Report(at) => before.Some? && before.value == Expired(at)
    case Wake(at, ok) =>
      before.Some? ==>
        (match before.value
         case Expired(since) => at >= since + TDwu(c)
         case Report(since) => at >= since + TSd(c)
         case ComLost(since, timed) => timed ==> at >= since + TDwu(c)
         case _ => false)
    case Late(at) =>
      cyclic.Some? && cyclic.value.Sent? && at >= cyclic.value.at + ResponseTimeout(c, cyclic.value.rate)
    case _ => true
  }

  predicate AllInTime(c: Config, log: seq<Act>)
  {
    log == [] || (AllInTime(c, Init(log)) && InTime(c, Reference(Init(log)), LastCyclic(Init(log)), Last(log)))
  }

  /** No delay armed at this time wraps the 32-bit clock. */
  predicate NoWrap(c: Config, env: Env)
  {
    && env.at + TDwu(c) < U32 && env.at + TSd(c) < U32
    && forall rate :: env.at + T_REN + TDmt(c, rate) + TestWindow(c, rate) < U32
                      && env.at + ResponseTimeout(c, rate) < U32
  }

  lemma DelaysDoNotWrap(c: Config, env: Env)
    requires NoWrap(c, env)
    ensures Later(Now(env), TDwu(c)) == env.at + TDwu(c) && Later(Now(env), TSd(c)) == env.at + TSd(c)
    ensures forall rate ::
              && Later(Now(env), TDmt(c, rate)) == env.at + TDmt(c, rate)
              && Later(Now(env), T_REN + TDmt(c, rate)) == env.at + T_REN + TDmt(c, rate)
              && Later(Now(env), TestWindow(c, rate)) == env.at + TestWindow(c, rate)
              && Later(Now(env), ResponseTimeout(c, rate)) == env.at + ResponseTimeout(c, rate)
  {
    hide TDwu, TSd, TDmt, TestWindow, ResponseTimeout;
  }

  /** The gate or deadline of each startup step is the delay that step has to wait for. */
  ghost predicate Gate(c: Config, l: Link)
  {
    var r := Reference(l.log);
    match l.step
    case StepSend =>
      && r.Some? && l.readyValid && !l.awaiting
      && (match r.value
          case Wake(at, ok) => l.readyAt == at + T_REN + TDmt(c, RateOf(c, l))
          case Expired(at) => l.readyAt == at + TDmt(c, RateOf(c, l))
          case _ => false)
    case StepAwait => r.Some? && r.value.Sent? && l.deadline == r.value.at + TestWindow(c, r.value.rate)
    case StepWake =>
      !l.awaiting
      && (r.Some? ==>
            (match r.value
             case Expired(at) => l.readyValid && l.readyAt == at + TDwu(c)
             case ComLost(at, timed) => timed ==> l.readyValid && l.readyAt == at + TDwu(c)
             case _ => false))
    case StepInactive => r.Some? && r.value.Report? && l.readyValid && l.readyAt == r.value.at + TSd(c) && !l.awaiting
    case StepAck => false
  }

  /** The deadline of a cyclic frame is its response timeout. */
  ghost predicate Deadline(c: Config, l: Link)
  {
    var frame := LastCyclic(l.log);
    frame.Some? && l.deadline == frame.value.at + ResponseTimeout(c, frame.value.rate)
  }

  ghost predicate Kept(c: Config, l: Link)
  {
    && AllInTime(c, l.log) && InTune(c, l) && (l.state == Startup ==> Gate(c, l))
    && (l.state == Operate && l.awaiting ==> Deadline(c, l))
  }

  lemma NotedInTime(c: Config, log: seq<Act>, act: Act)
    requires AllInTime(c, log) && InTime(c, Reference(log), LastCyclic(log), act)
    ensures AllInTime(c, log + [act])
    ensures Reference(log + [act])
         == if act.Wake? || act.Expired? || act.Report? || act.ComLost? || (act.Sent? && act.kind == TestMessage)
            then Some(act) else Reference(log)
    ensures LastCyclic(log + [act]) == if act.Sent? && act.kind == Cyclic && act.ok then Some(act) else LastCyclic(log)
  {
    Noted(log, act);
  }

  lemma RestartInTime(c: Config, l: Link, env: Env, timed: bool)
    requires AllInTime(c, l.log) && l.phyRate == RateOf(c, l) && l.phyMode == Sdci && NoWrap(c, env)
    ensures Kept(c, Restart(c, l, env, timed).0)
  {
    hide AllInTime, Reference, TDwu, Scan, NoWrap, Later;
    DelaysDoNotWrap(c, env);
    NotedInTime(c, l.log, Act.ComLost(env.at, timed));
    RestartTunes(c, l, env, timed);
  }

  lemma ReceiveInTime(c: Config, l: Link, m: Move, env: Env)
    requires Enabled(c, l, m, env) && FromLine(m) && Kept(c, l) && NoWrap(c, env)
    ensures Kept(c, Apply(c, l, m, env))
  {
    hide AllInTime, Reference, Restart, ReplyOk, Gate, Scan, NoWrap;
    ReceiveTunes(c, l, m, env);
    NotedInTime(c, l.log, Bad(env.at));
    NotedInTime(c, l.log, Accepted(env.at));
    match m {
      case ReceiveBad =>
        RestartInTime(c, CountBad(l, env), env, false);
      case ReceiveUndecodable => UndecodableKeepsGate(c, l);
      case ReceiveAnswer => NotedInTime(c, l.log + [Accepted(env.at)], EnterPreoperate(env.at));
      case ReceiveAck(octet) => NotedInTime(c, l.log + [Accepted(env.at)], EnterOperate(env.at, octet));
      case _ =>
    }
  }

  lemma UndecodableKeepsGate(c: Config, l: Link)
    requires Gate(c, l)
    ensures Gate(c, Undecodable(l))
  {
    hide Reference, TDwu, TDmt, TSd, TestWindow;
  }

  lemma WakeInTime(c: Config, l: Link, env: Env)
    requires Kept(c, l) && l.state == Startup && (l.step == StepWake || l.step == StepInactive)
    requires !Gated(l, env) && NoWrap(c, env)
    ensures var t := ProcessWake(c, l.(phyMode := Sdci, step := StepWake), env);
            AllInTime(c, t.log) && (t.state != Error ==> t.step == StepSend && Gate(c, t))
  {
    hide AllInTime, Reference, TDwu, TDmt, TSd, TestWindow, Scan, WakeUp, NoWrap, Later;
    DelaysDoNotWrap(c, env);
    WakePermitted(c, l, env);
    NotedInTime(c, l.log, Wake(env.at, true));
    NotedInTime(c, l.log, Wake(env.at, false));
    WakeUpLogs(c, l.(phyMode := Sdci, step := StepWake), env);
  }

  lemma WakePermitted(c: Config, l: Link, env: Env)
    requires Gate(c, l) && (l.step == StepWake || l.step == StepInactive) && !Gated(l, env) && NoWrap(c, env)
    ensures forall ok :: InTime(c, Reference(l.log), LastCyclic(l.log), Wake(env.at, ok))
  {
    hide Reference, TDwu, TDmt, TSd, TestWindow, RateOf;
  }

  lemma WakeUpLogs(c: Config, l: Link, env: Env)
    ensures var (t, ok) := WakeUp(c, l, env);
            (t.log == l.log && !ok) || t.log == l.log + [Wake(env.at, ok)]
  {
  }

  lemma TestInTime(c: Config, l: Link, env: Env)
    requires Kept(c, l) && l.state == Startup && l.step == StepSend && !Gated(l, env) && NoWrap(c, env)
    ensures var t := ProcessTest(c, l, env);
            AllInTime(c, t.log) && (t.state != Error ==> Gate(c, t))
  {
    hide AllInTime, Reference, TDwu, TDmt, TSd, TestWindow, Scan, Suits, TestOctets, NoWrap, Later;
    DelaysDoNotWrap(c, env);
    NotedInTime(c, l.log, Sent(env.at, l.phyRate, TestMessage, TestOctets(), true));
    NotedInTime(c, l.log, Sent(env.at, l.phyRate, TestMessage, TestOctets(), false));
  }

  lemma EstablishInTime(c: Config, l: Link, env: Env)
    requires Enabled(c, l, Establish, env) && Kept(c, l) && NoWrap(c, env)
    ensures Kept(c, ProcessStartup(c, l, env))
  {
    hide AllInTime, Gate, ProcessWake, ProcessTest, NoWrap, Scan;
    EstablishTunes(c, l, env);
    EstablishLogs(c, l, env);
    match l.step {
      case StepSend => TestInTime(c, l, env);
      case StepWake =>
        WakeInTime(c, l, env);
        assert l.phyMode == Sdci && l.(phyMode := Sdci, step := StepWake) == l;
      case StepInactive => WakeInTime(c, l, env);
      case _ =>
    }
  }

  /** A cyclic frame that leaves the port waiting for a reply sets the deadline of that reply. */
  lemma CycleSetsDeadline(c: Config, l: Link, octets: seq<byte>, env: Env)
    requires Enabled(c, l, Cycle(octets), env) && InTune(c, l) && NoWrap(c, env)
    ensures var t := Apply(c, l, Cycle(octets), env);
            t.awaiting ==> t.log == l.log + [Sent(env.at, l.phyRate, Cyclic, octets, true)]
                           && t.deadline == env.at + ResponseTimeout(c, l.phyRate)
  {
    hide ResponseTimeout, NoWrap, CycleDue, Jitter, Scan, Later;
    DelaysDoNotWrap(c, env);
  }

  /** No other sending move starts to wait in OPERATE. */
  lemma OthersDoNotWait(c: Config, l: Link, m: Move, env: Env)
    requires Enabled(c, l, m, env) && !FromLine(m) && !m.Expire? && !m.Cycle?
    ensures var t := Apply(c, l, m, env); t.state == Operate ==> !t.awaiting
  {
    hide ProcessStartup, OperateOctets;
    if m.Establish? { EstablishLogs(c, l, env); }
  }

  lemma SendKeepsLog(c: Config, l: Link, m: Move, env: Env)
    requires Enabled(c, l, m, env) && !FromLine(m) && !m.Expire? && Kept(c, l) && NoWrap(c, env)
    ensures var t := Apply(c, l, m, env); AllInTime(c, t.log) && InTune(c, t) && (t.state == Startup ==> Gate(c, t))
  {
    hide AllInTime, Gate, Apply, ProcessStartup, NoWrap, InTune, Reference, LastCyclic, Deadline;
    SendTunes(c, l, m, env);
    SendLogs(c, l, m, env);
    assert l.log + [] == l.log;
    if m.Establish? {
      EstablishInTime(c, l, env);
      Applied(c, l, env, TestOctets(), TestMessage);
    } else if LineAct(c, l, m, env).Some? {
      NotedInTime(c, l.log, LineAct(c, l, m, env).value);
    }
  }

  lemma SendKeepsDeadline(c: Config, l: Link, m: Move, env: Env)
    requires Enabled(c, l, m, env) && !FromLine(m) && !m.Expire? && Kept(c, l) && NoWrap(c, env)
    ensures var t := Apply(c, l, m, env); t.state == Operate && t.awaiting ==> Deadline(c, t)
  {
    hide AllInTime, Apply, NoWrap, InTune, ResponseTimeout, Gate;
    if m.Cycle? {
      CycleSetsDeadline(c, l, m.octets, env);
      Noted(l.log, Sent(env.at, l.phyRate, Cyclic, m.octets, true));
    } else {
      OthersDoNotWait(c, l, m, env);
    }
  }

  lemma SendInTime(c: Config, l: Link, m: Move, env: Env)
    requires Enabled(c, l, m, env) && !FromLine(m) && !m.Expire? && Kept(c, l) && NoWrap(c, env)
    ensures Kept(c, Apply(c, l, m, env))
  {
    hide AllInTime, Gate, Apply, NoWrap, InTune, Deadline, Enabled;
    SendKeepsLog(c, l, m, env);
    SendKeepsDeadline(c, l, m, env);
  }

  lemma NextRateInTime(c: Config, l: Link, env: Env)
    requires AllInTime(c, l.log) && Reference(l.log) == Some(Expired(env.at)) && NoWrap(c, env)
    requires c.autoRate && l.state == Startup && !l.awaiting
    ensures var t := NextRate(c, l, env).0; AllInTime(c, t.log) && (t.state != Error ==> Gate(c, t))
  {
    hide AllInTime, Reference, TDwu, TDmt, TSd, TestWindow, Scan, NoWrap, Later;
    DelaysDoNotWrap(c, env);
  }

  lemma NextWakeInTime(c: Config, l: Link, env: Env)
    requires AllInTime(c, l.log) && Reference(l.log) == Some(Expired(env.at)) && NoWrap(c, env)
    requires l.state == Startup && !l.awaiting
    ensures var t := NextWake(c, l, env).0; AllInTime(c, t.log) && (t.state != Error ==> Gate(c, t))
  {
    hide AllInTime, Reference, TDwu, TDmt, TSd, TestWindow, Scan, RetryLimit, NoWrap, Later;
    DelaysDoNotWrap(c, env);
    NotedInTime(c, l.log, Report(env.at));
  }

  lemma AttemptInTime(c: Config, l: Link, env: Env)
    requires Kept(c, l) && l.state == Startup && l.step == StepAwait && Now(env) >= l.deadline && NoWrap(c, env)
    ensures Kept(c, AttemptFailed(c, l, env).0)
  {
    hide AllInTime, Reference, TDwu, TDmt, TSd, TestWindow, Scan, NextRate, NextWake;
    AttemptTunes(c, l, env);
    NotedInTime(c, l.log, Expired(env.at));
    var m := Note(l, Expired(env.at)).(awaiting := false);
    if c.autoRate && m.rateIndex < LAST_RATE { NextRateInTime(c, m, env); } else { NextWakeInTime(c, m, env); }
  }

  lemma MissedInTime(c: Config, l: Link, env: Env)
    requires Kept(c, l) && l.state == Operate && l.awaiting && Now(env) >= l.deadline && NoWrap(c, env)
    ensures Kept(c, ReplyMissed(c, l.(awaiting := false), env).0)
  {
    hide AllInTime, Gate, Reference, LastCyclic, Restart, NoWrap, Scan, ResponseTimeout;
    NotedInTime(c, l.log, Late(env.at));
    RestartInTime(c, CountLate(l.(awaiting := false), env), env, true);
  }

  lemma ExpireInTime(c: Config, l: Link, env: Env)
    requires Enabled(c, l, Expire(true), env) && Kept(c, l) && NoWrap(c, env)
    ensures Kept(c, Apply(c, l, Expire(true), env))
  {
    hide AllInTime, Gate, AttemptFailed, ReplyMissed, NoWrap, Scan, Deadline;
    if l.state == Startup {
      AttemptInTime(c, l, env);
      UnawaitedAttempt(c, l, env);
    } else if l.state == Operate {
      MissedInTime(c, l, env);
    }
  }

  lemma {:induction false} HappeningsInTime(c: Config, l: Link, hs: seq<Happening>, since: nat)
    requires Happens(c, l, hs, since) && Kept(c, l) && Punctual(hs) && forall h :: h in hs ==> NoWrap(c, h.env)
    ensures Kept(c, Result(c, l, hs, since))
    decreases |hs|
  {
    hide Enabled, Apply, Kept, NoWrap;
    if hs != [] {
      var m, env := hs[0].move, hs[0].env;
      assert hs[0] in hs;
      if FromLine(m) {
        ReceiveInTime(c, l, m, env);
      } else if m.Expire? {
        ExpireInTime(c, l, env);
      } else {
        SendInTime(c, l, m, env);
      }
      HappeningsInTime(c, Apply(c, l, m, env), hs[1..], env.at);
    }
  }

  lemma StartsInTime(c: Config, cap: nat)
    requires c.portMode == ModeIoLink
    ensures Kept(c, Initial(c, cap).link)
  {
  }

  lemma NothingIsInTime(c: Config)
    ensures AllInTime(c, [])
  {
  }

  /** A controller drives the port, and no delay wraps the clock. */
  ghost predicate DrivenInRange(c: Config, rounds: seq<Round>)
  {
    Timely(rounds, 0) && forall r :: r in rounds ==> !r.Ticked? && (r.Driven? ==> NoWrap(c, r.env))
  }

  /** In every controller-driven run in which the clock does not wrap, every startup act waits for the
      delay its predecessor calls for, and no cyclic reply is missed before its response timeout. */
  lemma EstablishIsInTime(c: Config, cap: nat, rounds: seq<Round>)
    requires Wf(Initial(c, cap)) && DrivenInRange(c, rounds)
    ensures AllInTime(c, Run(Initial(c, cap), rounds).link.log)
    ensures c.portMode == ModeIoLink ==> Kept(c, Run(Initial(c, cap), rounds).link)
  {
    hide Wf, Run, NoWrap, AllInTime, Gate, Deadline, InTune;
    var hs := RunMoves(Initial(c, cap), rounds, 0);
    assert forall h :: h in hs ==> Occurs(rounds, h.env);
    if c.portMode == ModeIoLink {
      StartsInTime(c, cap);
      HappeningsInTime(c, Initial(c, cap).link, hs, 0);
    } else {
      NothingMovesInactive(c, Initial(c, cap).link, hs, 0);
      NothingIsInTime(c);
    }
  }

  // ---- the same in real time -------------------------------------------------------

  /** From `since` to `at` pass at least these ticks and these bit times. */
  predicate Waited(since: nat, at: nat, ticks: nat, rate: Rate, bits: nat)
  {
    since + ticks <= at && bits * TBitNs(rate) <= (at - since) * 100_000
  }

  /** The least delay before an act, as configured or else by Tables 9, 10 and 42: T_REN and T_DMT before a test
      message, 58 bit times for its answer, T_DWU or T_SD before a wake-up, 21 bit times for a cyclic reply. */
  predicate Waits(c: Config, before: Option<Act>, cyclic: Option<Act>, act: Act)
  {
    match act
    case Sent(at, rate, kind, octets, ok) =>
      kind == TestMessage ==>
        && before.Some?
        && (match before.value
            case Wake(since, woken) => Waited(since + 5, at, 0, rate, if c.tDmt == 0 then 32 else c.tDmt)
            case Expired(since) => Waited(since, at, 0, rate, if c.tDmt == 0 then 32 else c.tDmt)
            case _ => false)
    case Expired(at) =>
      before.Some? && before.value.Sent? && Waited(before.value.at, at, c.responseTimeout, before.value.rate, 58)
    case Report(at) => before == Some(Expired(at))
    case Wake(at, ok) =>
      before.Some? ==>
        (match before.value
         case Expired(since) => at >= since + (if c.tDwu == 0 then 400 else c.tDwu)
         case Report(since) => at >= since + (if c.tSd == 0 then 5000 else c.tSd)
         case ComLost(since, timed) => timed ==> at >= since + (if c.tDwu == 0 then 400 else c.tDwu)
         case _ => false)
    case Late(at) =>
      cyclic.Some? && cyclic.value.Sent? && Waited(cyclic.value.at, at, c.responseTimeout, cyclic.value.rate, 21)
    case _ => true
  }

  predicate AllWait(c: Config, log: seq<Act>)
  {
    log == [] || (AllWait(c, Init(log)) && Waits(c, Reference(Init(log)), LastCyclic(Init(log)), Last(log)))
  }

  lemma InTimeWaits(c: Config, before: Option<Act>, cyclic: Option<Act>, act: Act)
    requires InTime(c, before, cyclic, act)
    ensures Waits(c, before, cyclic, act)
  {
    hide Ticks;
    if act.Sent? { TicksRoundUp(act.rate, if c.tDmt == 0 then 32 else c.tDmt); }
    if act.Expired? { ConstantsConform(c, before.value.rate); }
    if act.Late? { ConstantsConform(c, cyclic.value.rate); }
  }

  lemma {:induction false} AllInTimeWait(c: Config, log: seq<Act>)
    requires AllInTime(c, log)
    ensures AllWait(c, log)
  {
    hide InTime, Waits, Reference, LastCyclic;
    if log != [] {
      AllInTimeWait(c, Init(log));
      InTimeWaits(c, Reference(Init(log)), LastCyclic(Init(log)), Last(log));
    }
  }

  /** In every controller-driven run in which the clock does not wrap, every delay of STARTUP passes in real
      time, and a cyclic reply is missed only once 21 bit times and the configured timeout have passed. */
  lemma EveryDelayPasses(c: Config, cap: nat, rounds: seq<Round>)
    requires Wf(Initial(c, cap)) && DrivenInRange(c, rounds)
    ensures AllWait(c, Run(Initial(c, cap), rounds).link.log)
  {
    hide Wf, Run, DrivenInRange, AllInTime, AllWait, Kept;
    EstablishIsInTime(c, cap, rounds);
    AllInTimeWait(c, Run(Initial(c, cap), rounds).link.log);
  }

  /** And no longer: in such a run the port asks for its next tick exactly when the delay it waits for ends. */
  lemma HintIsTheDelay(c: Config, cap: nat, rounds: seq<Round>, now: u32)
    requires Wf(Initial(c, cap)) && DrivenInRange(c, rounds) && c.portMode == ModeIoLink
    ensures var l := Run(Initial(c, cap), rounds).link;
            var hint, frame, r := NextTick(c, l, now), LastCyclic(l.log), Reference(l.log);
            && (l.state == Operate && l.awaiting ==>
                  frame.Some? && hint == Max(now, frame.value.at + ResponseTimeout(c, frame.value.rate)))
            && (l.state == Startup && r.Some? ==>
                  match r.value
                  case Wake(at, ok) => hint == Max(now, at + 5 + TDmt(c, l.phyRate))
                  case Sent(at, rate, kind, octets, ok) => l.awaiting ==> hint == Max(now, at + TestWindow(c, rate))
                  case Expired(at) =>
                    hint == Max(now, at + if l.step == StepSend then TDmt(c, l.phyRate)
                                          else if c.tDwu == 0 then 400 else c.tDwu)
                  case Report(at) => hint == Max(now, at + if c.tSd == 0 then 5000 else c.tSd)
                  case ComLost(at, timed) => timed ==> hint == Max(now, at + if c.tDwu == 0 then 400 else c.tDwu)
                  case _ => false)
  {
    hide Wf, Run, DrivenInRange, AllInTime, Reference, LastCyclic, TDmt, TestWindow, ResponseTimeout, Scan;
    EstablishIsInTime(c, cap, rounds);
  }

  // ---- what that means between frames --------------------------------------------

  /** Time and rate of the last test message since the last wake-up. */
  function LastTest(log: seq<Act>): Option<Act>
  {
    if log == [] then None
    else if Last(log).Sent? && Last(log).kind == TestMessage then Some(Last(log))
    else LastTest(Init(log))
  }

  lemma {:induction false} ExpiryFollowsTest(c: Config, log: seq<Act>)
    requires AllInTime(c, log) && Reference(log).Some?
    ensures Reference(log).value.Sent? ==> LastTest(log) == Reference(log)
    ensures Reference(log).value.Expired? ==>
              LastTest(log).Some? && LastTest(log).value.Sent?
              && Reference(log).value.at >= LastTest(log).value.at + TestWindow(c, LastTest(log).value.rate)
  {
    hide TestWindow, TDmt, TDwu, TSd;
    if Reference(Init(log)).Some? { ExpiryFollowsTest(c, Init(log)); }
  }

  /** The next rate, and a repeated wake-up, start only after the whole answer window of the test
      message before, which covers 58 bit times at its rate, and the delay after it. */
  lemma WindowIsWaitedOut(c: Config, log: seq<Act>)
    requires log != [] && AllInTime(c, log) && Reference(Init(log)).Some? && Reference(Init(log)).value.Expired?
    ensures LastTest(Init(log)).Some? && LastTest(Init(log)).value.Sent?
    ensures var test, act := LastTest(Init(log)).value, Last(log);
            && TestWindow(c, test.rate) * TICK_NS >= TYPE0_SEQUENCE_TBIT * TBitNs(test.rate)
            && (act.Sent? && act.kind == TestMessage ==>
                  act.at >= test.at + TestWindow(c, test.rate) + TDmt(c, act.rate))
            && (act.Wake? ==> act.at >= test.at + TestWindow(c, test.rate) + TDwu(c))
  {
    hide TDmt, TDwu, TSd, Ticks;
    ExpiryFollowsTest(c, Init(log));
    TicksRoundUp(LastTest(Init(log)).value.rate, TYPE0_SEQUENCE_TBIT);
  }

  /** Only a COMLOST by timeout spaces the next wake-up by T_DWU: after one by checksum failures the
      gate is whatever it was before, so the wake-up may follow at once. */
  lemma ChecksumComLostIsNotSpaced(c: Config, l: Link, env: Env, later: Env)
    requires Communicating(l) && l.retries >= RX_RETRY_LIMIT && env.rate == OK
    ensures var t := ReplyBad(c, l, env);
            t.state == Startup && t.step == StepWake && (Gated(t, later) <==> Gated(l, later))
  {
    hide TDwu, Scan, Later;
  }

  lemma TimeoutComLostIsSpaced(c: Config, l: Link, env: Env, later: Env)
    requires Communicating(l) && l.retries >= RX_RETRY_LIMIT && env.rate == OK && NoWrap(c, env)
    ensures var t := ReplyMissed(c, l, env).0;
            t.state == Startup && t.step == StepWake && (Gated(t, later) <==> Now(later) < env.at + TDwu(c))
  {
    hide TDwu, Scan, TSd, TDmt, TestWindow;
  }
}
