/** Cycle pacing in every timed run: one M-sequence at a time, cyclic frames at least the
    minimum cycle time apart in real time although the clock wraps, and slips counted. */
module Pacing {
  import opened Wrappers
  import opened Status
  import opened Octets
  import opened DeviceParameters
  import opened Frames
  import opened Port
  import opened PortMoves

  // ---- one M-sequence at a time ---------------------------------------------

  /** A test message or cyclic frame is on the line, and its reply neither accepted nor given up. */
  predicate Outstanding(log: seq<Act>)
  {
    if log == [] then false
    else match Last(log)
      case Sent(at, rate, kind, octets, ok) =>
        (ok && (kind == TestMessage || kind == Cyclic)) || Outstanding(Init(log))
      case Accepted(at) => false
      case Expired(at) => false
      case Late(at) => false
      case ComLost(at, timed) => false
      case _ => Outstanding(Init(log))
  }

  /** Nothing is put on the line while a reply is outstanding. */
  predicate OneAtATime(log: seq<Act>)
  {
    log == [] || (OneAtATime(Init(log)) && (Last(log).Wake? || Last(log).Sent? ==> !Outstanding(Init(log))))
  }

  ghost predicate InTurn(l: Link)
  {
    && OneAtATime(l.log)
    && (l.state != Error ==> l.awaiting == Outstanding(l.log))
    && (l.awaiting ==> l.state == Operate || l.state == Error || (l.state == Startup && l.step == StepAwait))
  }

  lemma NotedTurn(log: seq<Act>, act: Act)
    requires OneAtATime(log) && (act.Wake? || act.Sent? ==> !Outstanding(log))
    ensures OneAtATime(log + [act])
    ensures Outstanding(log + [act]) == match act
                                        case Sent(at, rate, kind, octets, ok) =>
                                          ok && (kind == TestMessage || kind == Cyclic)
                                        case Accepted(at) => false
                                        case Expired(at) => false
                                        case Late(at) => false
                                        case ComLost(at, timed) => false
                                        case _ => Outstanding(log)
  {
    Noted(log, act);
  }

  lemma RestartTurn(c: Config, l: Link, env: Env, timed: bool)
    requires OneAtATime(l.log)
    ensures InTurn(Restart(c, l, env, timed).0)
  {
    hide OneAtATime, Outstanding;
    NotedTurn(l.log, Act.ComLost(env.at, timed));
  }

  lemma ReceiveKeepsTurn(c: Config, l: Link, m: Move, env: Env)
    requires Enabled(c, l, m, env) && FromLine(m) && InTurn(l)
    ensures InTurn(Apply(c, l, m, env))
  {
    hide OneAtATime, Outstanding, ReplyOk, Restart;
    NotedTurn(l.log, Bad(env.at));
    NotedTurn(l.log, Accepted(env.at));
    match m {
      case ReceiveBad =>
        RestartTurn(c, CountBad(l, env), env, false);
      case ReceiveAnswer => NotedTurn(l.log + [Accepted(env.at)], EnterPreoperate(env.at));
      case ReceiveAck(octet) => NotedTurn(l.log + [Accepted(env.at)], EnterOperate(env.at, octet));
      case _ =>
    }
  }

  lemma ExpireKeepsTurn(c: Config, l: Link, driven: bool, env: Env)
    requires Enabled(c, l, Expire(driven), env) && InTurn(l)
    ensures InTurn(Apply(c, l, Expire(driven), env))
  {
    hide OneAtATime, Outstanding, Restart, AttemptFailed;
    var u := l.(awaiting := false);
    NotedTurn(l.log, Late(env.at));
    NotedTurn(l.log, Expired(env.at));
    NotedTurn(l.log + [Expired(env.at)], Report(env.at));
    RestartTurn(c, CountLate(u, env), env, true);
  }

  predicate Awaited(act: Option<Act>)
  {
    act.Some? && act.value.Sent? && act.value.ok && (act.value.kind == TestMessage || act.value.kind == Cyclic)
  }

  lemma EstablishAwaits(c: Config, l: Link, env: Env)
    requires Enabled(c, l, Establish, env)
    ensures ProcessStartup(c, l, env).awaiting == Awaited(LineAct(c, l, Establish, env))
    ensures ProcessStartup(c, l, env).awaiting ==> ProcessStartup(c, l, env).step == StepAwait
  {
    hide TestOctets, WakeUp;
  }

  /** A sending move waits for a reply exactly if it sent a test message or a cyclic frame. */
  lemma SendAwaits(c: Config, l: Link, m: Move, env: Env)
    requires Enabled(c, l, m, env) && !FromLine(m) && !m.Expire?
    ensures var t := Apply(c, l, m, env);
            && t.awaiting == Awaited(LineAct(c, l, m, env))
            && (t.awaiting ==> (m.Establish? && t.step == StepAwait) || m.Cycle?)
  {
    hide TestOctets, OperateOctets, ProcessStartup;
    if m.Establish? { EstablishAwaits(c, l, env); }
  }

  lemma SendKeepsTurn(c: Config, l: Link, m: Move, env: Env)
    requires Enabled(c, l, m, env) && !FromLine(m) && !m.Expire? && InTurn(l)
    ensures InTurn(Apply(c, l, m, env))
  {
    hide OneAtATime, Outstanding, Apply, TestOctets, OperateOctets, LineAct;
    SendLogs(c, l, m, env);
    SendAwaits(c, l, m, env);
    assert l.log + [] == l.log;
    if LineAct(c, l, m, env).Some? { NotedTurn(l.log, LineAct(c, l, m, env).value); }
  }

  lemma {:induction false} HappeningsKeepTurn(c: Config, l: Link, hs: seq<Happening>, since: nat)
    requires Happens(c, l, hs, since) && InTurn(l)
    ensures InTurn(Result(c, l, hs, since))
    decreases |hs|
  {
    hide Enabled, Apply, InTurn;
    if hs != [] {
      var m, env := hs[0].move, hs[0].env;
      if FromLine(m) {
        ReceiveKeepsTurn(c, l, m, env);
      } else if m.Expire? {
        ExpireKeepsTurn(c, l, m.driven, env);
      } else {
        SendKeepsTurn(c, l, m, env);
      }
      HappeningsKeepTurn(c, Apply(c, l, m, env), hs[1..], env.at);
    }
  }

  /** In every run, after a cyclic frame or a test message nothing else is put on the line until
      a reply is accepted, a timeout is handled or communication is lost. */
  lemma OneSequenceAtATime(c: Config, cap: nat, rounds: seq<Round>)
    requires Wf(Initial(c, cap)) && Timely(rounds, 0)
    ensures OneAtATime(Run(Initial(c, cap), rounds).link.log)
  {
    hide Wf, Run;
    var hs := RunMoves(Initial(c, cap), rounds, 0);
    HappeningsKeepTurn(c, Initial(c, cap).link, hs, 0);
  }

  // ---- spacing of cyclic frames -----------------------------------------------

  predicate IsCycle(act: Act) { act.Sent? && act.kind == Cyclic && act.ok }

  /** Real time of the last cyclic frame. */
  function LastCycle(log: seq<Act>): Option<nat>
  {
    if log == [] then None else if IsCycle(Last(log)) then Some(Last(log).at) else LastCycle(Init(log))
  }

  /** Real time since the previous cyclic frame, for a log that ends in one. */
  function Gap(log: seq<Act>): Option<int>
  {
    if log == [] || !IsCycle(Last(log)) || LastCycle(Init(log)).None? then None
    else Some(Last(log).at - LastCycle(Init(log)).value)
  }

  /** Successive cyclic frames keep the minimum cycle time. */
  predicate Spaced(log: seq<Act>, minCycle: nat)
  {
    log == [] || (Spaced(Init(log), minCycle) && (Gap(log).Some? ==> Gap(log).value >= minCycle))
  }

  /** Ticks by which a cycle was late as a wrapping 32-bit clock sees it. */
  function Lateness(log: seq<Act>, minCycle: nat): (j: nat)
  {
    if Gap(log).None? || minCycle == 0 then 0 else Max(0, Gap(log).value % U32 - minCycle)
  }

  function LateCycles(log: seq<Act>, minCycle: nat): nat
  {
    if log == [] then 0 else LateCycles(Init(log), minCycle) + (if Lateness(log, minCycle) > 0 then 1 else 0)
  }

  function WorstLateness(log: seq<Act>, minCycle: nat): nat
  {
    if log == [] then 0 else Max(WorstLateness(Init(log), minCycle), Lateness(log, minCycle))
  }

  /** Lateness of the last cycle. */
  function LastLateness(log: seq<Act>, minCycle: nat): nat
  {
    if log == [] then 0
    else if IsCycle(Last(log)) then Lateness(log, minCycle)
    else LastLateness(Init(log), minCycle)
  }

  ghost predicate OnTime(c: Config, l: Link, since: nat)
  {
    && Spaced(l.log, c.minCycle)
    && l.diag.jitter == LastLateness(l.log, c.minCycle)
    && l.diag.slips == LateCycles(l.log, c.minCycle) % U32
    && l.diag.maxJitter == WorstLateness(l.log, c.minCycle)
    && l.timerValid == LastCycle(l.log).Some?
    && (l.timerValid ==> LastCycle(l.log).value <= since && l.last == LastCycle(l.log).value % U32)
  }

  /** Wrapped and real elapsed time agree as far as a 32-bit clock can tell. */
  lemma WrappedElapsed(at: nat, since: nat)
    requires since <= at
    ensures Elapsed(at % U32, since % U32) == (at - since) % U32 <= at - since
  {
  }

  lemma NotedOther(log: seq<Act>, act: Act, minCycle: nat)
    requires !IsCycle(act)
    ensures Spaced(log, minCycle) ==> Spaced(log + [act], minCycle)
    ensures LateCycles(log + [act], minCycle) == LateCycles(log, minCycle)
    ensures WorstLateness(log + [act], minCycle) == WorstLateness(log, minCycle)
    ensures LastLateness(log + [act], minCycle) == LastLateness(log, minCycle)
    ensures LastCycle(log + [act]) == LastCycle(log)
  {
    Noted(log, act);
  }

  /** What a move other than a cyclic send leaves alone. */
  ghost predicate SameTiming(c: Config, l: Link, t: Link)
  {
    && SameTimer(l, t)
    && (Spaced(l.log, c.minCycle) ==> Spaced(t.log, c.minCycle))
    && LateCycles(t.log, c.minCycle) == LateCycles(l.log, c.minCycle)
    && WorstLateness(t.log, c.minCycle) == WorstLateness(l.log, c.minCycle)
    && LastLateness(t.log, c.minCycle) == LastLateness(l.log, c.minCycle)
    && LastCycle(t.log) == LastCycle(l.log)
  }

  lemma RestartTiming(c: Config, l: Link, env: Env, timed: bool)
    ensures SameTiming(c, l, Restart(c, l, env, timed).0)
  {
    hide Spaced, LateCycles, WorstLateness, LastLateness, LastCycle, TDwu, Later;
    NotedOther(l.log, Act.ComLost(env.at, timed), c.minCycle);
  }

  lemma BadTiming(c: Config, l: Link, env: Env)
    ensures SameTiming(c, l, ReplyBad(c, l, env))
  {
    hide Spaced, LateCycles, WorstLateness, LastLateness, LastCycle, Restart;
    NotedOther(l.log, Bad(env.at), c.minCycle);
    RestartTiming(c, CountBad(l, env), env, false);
  }

  lemma MissedTiming(c: Config, l: Link, env: Env)
    ensures SameTiming(c, l, ReplyMissed(c, l, env).0)
  {
    hide Spaced, LateCycles, WorstLateness, LastLateness, LastCycle, Restart;
    NotedOther(l.log, Late(env.at), c.minCycle);
    RestartTiming(c, CountLate(l, env), env, true);
  }

  lemma AttemptTiming(c: Config, l: Link, env: Env)
    ensures SameTiming(c, l, AttemptFailed(c, l, env).0)
  {
    hide Spaced, LateCycles, WorstLateness, LastLateness, LastCycle, AttemptFailed;
    NotedOther(l.log, Expired(env.at), c.minCycle);
    NotedOther(l.log + [Expired(env.at)], Report(env.at), c.minCycle);
  }

  lemma ReceiveTiming(c: Config, l: Link, m: Move, env: Env)
    requires Enabled(c, l, m, env) && (FromLine(m) || m.Expire?)
    ensures SameTiming(c, l, Apply(c, l, m, env))
  {
    hide Spaced, LateCycles, WorstLateness, LastLateness, LastCycle, ReplyOk, ReplyBad, ReplyMissed, AttemptFailed;
    BadTiming(c, l, env);
    NotedOther(l.log, Accepted(env.at), c.minCycle);
    match m {
      case ReceiveAnswer => NotedOther(l.log + [Accepted(env.at)], EnterPreoperate(env.at), c.minCycle);
      case ReceiveAck(octet) => NotedOther(l.log + [Accepted(env.at)], EnterOperate(env.at, octet), c.minCycle);
      case Expire(driven) =>
        MissedTiming(c, l.(awaiting := false), env);
        AttemptTiming(c, l.(awaiting := false), env);
      case _ =>
    }
  }

  /** Sending moves touch the cycle timer only when a cycle is started. */
  lemma SendTiming(c: Config, l: Link, m: Move, env: Env)
    requires Enabled(c, l, m, env) && !FromLine(m) && !m.Expire?
    requires LineAct(c, l, m, env).None? || !IsCycle(LineAct(c, l, m, env).value)
    ensures SameTiming(c, l, Apply(c, l, m, env))
  {
    hide Spaced, LateCycles, WorstLateness, LastLateness, LastCycle, Apply;
    SendLogs(c, l, m, env);
    assert l.log + [] == l.log;
    if LineAct(c, l, m, env).Some? { NotedOther(l.log, LineAct(c, l, m, env).value, c.minCycle); }
    TimerUntouched(c, l, m, env);
  }

  lemma TimerUntouched(c: Config, l: Link, m: Move, env: Env)
    requires Enabled(c, l, m, env) && !FromLine(m) && !m.Expire?
    requires LineAct(c, l, m, env).None? || !IsCycle(LineAct(c, l, m, env).value)
    ensures SameTimer(l, Apply(c, l, m, env))
  {
    hide Transmit, ProcessStartup, CycleStarted, OperateOctets;
    if m.Cycle? { UnsentCycle(l, env, m.octets); }
  }

  lemma UnsentCycle(l: Link, env: Env, octets: seq<byte>)
    requires |octets| > 0
    ensures Transmit(l, env, Cyclic, octets).1 == (env.prepareTx == OK && env.sent && env.prepareRx == OK)
  {
  }

  /** What starting a cycle does to the timer and its statistics. */
  lemma CycleAccounts(c: Config, l: Link, octets: seq<byte>, env: Env)
    requires Enabled(c, l, Cycle(octets), env)
    requires LineAct(c, l, Cycle(octets), env).Some? && IsCycle(LineAct(c, l, Cycle(octets), env).value)
    ensures var t, act := Apply(c, l, Cycle(octets), env), LineAct(c, l, Cycle(octets), env).value;
            var late := if l.timerValid && c.minCycle != 0 then Max(0, Elapsed(Now(env), l.last) - c.minCycle) else 0;
            && (l.timerValid && c.minCycle != 0 ==> Elapsed(Now(env), l.last) >= c.minCycle)
            && t.log == l.log + [act] && act.at == env.at
            && t.timerValid && t.last == Now(env)
            && t.diag.slips == (if late > 0 then Bump(l.diag.slips) else l.diag.slips)
            && t.diag.jitter == late && t.diag.maxJitter == Max(l.diag.maxJitter, late)
  {
    hide ResponseTimeout, RateOf, Later;
  }

  /** A cyclic frame is spaced, and accounted for. */
  lemma CycleOnTime(c: Config, l: Link, octets: seq<byte>, env: Env, since: nat)
    requires Enabled(c, l, Cycle(octets), env) && OnTime(c, l, since) && since <= env.at
    requires LineAct(c, l, Cycle(octets), env).Some? && IsCycle(LineAct(c, l, Cycle(octets), env).value)
    ensures OnTime(c, Apply(c, l, Cycle(octets), env), env.at)
  {
    hide Spaced, LateCycles, WorstLateness, LastLateness, LastCycle, Apply, LineAct, Enabled;
    CycleAccounts(c, l, octets, env);
    NotedCycle(l.log, LineAct(c, l, Cycle(octets), env).value, c.minCycle);
    if l.timerValid { WrappedElapsed(env.at, LastCycle(l.log).value); }
  }

  lemma NotedCycle(log: seq<Act>, act: Act, minCycle: nat)
    requires IsCycle(act)
    ensures var gap := if LastCycle(log).None? then None else Some(act.at - LastCycle(log).value);
            var late := if gap.None? || minCycle == 0 then 0 else Max(0, gap.value % U32 - minCycle);
            && Spaced(log + [act], minCycle) == (Spaced(log, minCycle) && (gap.Some? ==> gap.value >= minCycle))
            && LateCycles(log + [act], minCycle) == LateCycles(log, minCycle) + (if late > 0 then 1 else 0)
            && WorstLateness(log + [act], minCycle) == Max(WorstLateness(log, minCycle), late)
            && LastLateness(log + [act], minCycle) == late
            && LastCycle(log + [act]) == Some(act.at)
  {
    Noted(log, act);
  }

  lemma {:induction false} HappeningsOnTime(c: Config, l: Link, hs: seq<Happening>, since: nat)
    requires Happens(c, l, hs, since) && OnTime(c, l, since)
    ensures OnTime(c, Result(c, l, hs, since), LastTime(hs, since))
    decreases |hs|
  {
    hide Enabled, Apply, Spaced, LateCycles, WorstLateness, LastLateness, LastCycle, LineAct;
    if hs != [] {
      var m, env := hs[0].move, hs[0].env;
      if FromLine(m) || m.Expire? {
        ReceiveTiming(c, l, m, env);
      } else if LineAct(c, l, m, env).None? || !IsCycle(LineAct(c, l, m, env).value) {
        SendTiming(c, l, m, env);
      } else {
        OnlyCyclesCycle(c, l, m, env);
        CycleOnTime(c, l, m.octets, env, since);
      }
      HappeningsOnTime(c, Apply(c, l, m, env), hs[1..], env.at);
    }
  }

  lemma OnlyCyclesCycle(c: Config, l: Link, m: Move, env: Env)
    requires Enabled(c, l, m, env) && !FromLine(m) && !m.Expire?
    requires LineAct(c, l, m, env).Some? && IsCycle(LineAct(c, l, m, env).value)
    ensures m.Cycle?
  {
  }

  lemma StartsOnTime(c: Config, cap: nat)
    ensures OnTime(c, Initial(c, cap).link, 0)
  {
  }

  /** In every timed run, even when the clock wraps, successive cyclic frames are at least the minimum
      cycle time apart, slips counts the late ones, the jitter is the lateness of the last and its peak the worst. */
  lemma CyclesAreSpaced(c: Config, cap: nat, rounds: seq<Round>)
    requires Wf(Initial(c, cap)) && Timely(rounds, 0)
    ensures var l := Run(Initial(c, cap), rounds).link;
            && Spaced(l.log, c.minCycle)
            && l.diag.slips == LateCycles(l.log, c.minCycle) % U32
            && l.diag.jitter == LastLateness(l.log, c.minCycle) && l.diag.maxJitter == WorstLateness(l.log, c.minCycle)
  {
    hide Wf, Run, Spaced, LateCycles, WorstLateness, LastLateness, LastCycle;
    var hs := RunMoves(Initial(c, cap), rounds, 0);
    StartsOnTime(c, cap);
    HappeningsOnTime(c, Initial(c, cap).link, hs, 0);
  }
}
