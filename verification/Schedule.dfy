/** The scheduler hint: until the time it names, a controller tick without received octets
    changes nothing, and exactly when that fails. */
module Schedule {
  import opened Wrappers
  import opened Status
  import opened Octets
  import opened DeviceParameters
  import opened Frames
  import opened Port
  import opened PortMoves

  lemma HintIsNotPast(c: Config, l: Link, now: u32)
    ensures NextTick(c, l, now) >= now
  {
  }

  /** No octet is received, and none fails to be. */
  predicate NoInput(env: Env) { env.rx == [] && !env.rxFault }

  /** A paced port asked at a time before its last cycle started, the due time not having wrapped. */
  predicate Behind(c: Config, l: Link, now: u32)
  {
    !l.awaiting && Paced(c, l) && now < l.last && l.last + c.minCycle < U32
  }

  /** Before its hint a paced port is due exactly at times before its last cycle, if the due time has not wrapped. */
  lemma DueBeforeHint(c: Config, l: Link, now: u32, t: u32)
    requires Paced(c, l) && !l.awaiting && now <= t < NextTick(c, l, now)
    ensures CycleDue(c, l, t) <==> t < l.last && l.last + c.minCycle < U32
  {
  }

  /** With no input the poll does nothing. */
  lemma IdlePoll(p: Port, env: Env)
    requires Wf(p) && NoInput(env)
    ensures Poll(p, env) == (p, OK)
  {
    hide Wf;
  }

  /** Until the hinted time a driven tick without input sends nothing and changes nothing. */
  lemma HintIsSound(p: Port, now: u32, env: Env)
    requires Wf(p) && NoInput(env) && now <= Now(env) < NextTick(p.config, p.link, now)
    requires !Behind(p.config, p.link, now)
    ensures Drive(p, env) == (p, OK)
  {
    hide Wf, Poll, Process, CycleDue, CycleStarted;
    IdlePoll(p, env);
    var c, l, t := p.config, p.link, Now(env);
    if !l.awaiting {
      if Paced(c, l) {
        DueBeforeHint(c, l, now, t);
      } else {
        GatedProcess(p, env);
      }
    }
  }

  lemma GatedProcess(p: Port, env: Env)
    requires Wf(p) && Gated(p.link, env)
    ensures Process(p, env) == p
  {
  }

  /** Where the hint is unsound it is so for every port and time of this kind: a tick before the hinted
      time puts a frame on the line exactly if the time precedes the last cycle's own. */
  lemma HintIsUnsoundExactly(p: Port, now: u32, env: Env)
    requires Wf(p) && NoInput(env) && env.prepareTx == OK && !Gated(p.link, env)
    requires Paced(p.config, p.link) && !p.link.awaiting
    requires now <= Now(env) < NextTick(p.config, p.link, now)
    ensures (Drive(p, env) != (p, OK)) <==> (Now(env) < p.link.last && p.link.last + p.config.minCycle < U32)
  {
    hide Wf, Poll, RunCycle, CycleDue, CycleMove, Apply, LineAct, Enabled;
    IdlePoll(p, env);
    DueBeforeHint(p.config, p.link, now, Now(env));
    if CycleDue(p.config, p.link, Now(env)) {
      OperateMoves(p, env);
      CycleMoves(p, env);
      OperateMoveSends(p, env);
      SendLogs(p.config, p.link, CycleMove(p, env).value, env);
      assert RunCycle(p, env).link.log != p.link.log;
    } else {
      NotDue(p, env);
    }
  }

  lemma OperateMoveSends(p: Port, env: Env)
    requires Wf(p) && p.link.state == Operate && Clear(p.link, env) && CycleDue(p.config, p.link, Now(env))
    requires env.prepareTx == OK
    ensures CycleMove(p, env).Some? && LineAct(p.config, p.link, CycleMove(p, env).value, env).Some?
    ensures !FromLine(CycleMove(p, env).value) && !CycleMove(p, env).value.Expire?
  {
    hide NextIsdu, EventOctets, CyclicOctets, Wf;
  }

  lemma NotDue(p: Port, env: Env)
    requires Wf(p) && !CycleDue(p.config, p.link, Now(env))
    ensures RunCycle(p, env) == p
  {
  }

  /** A clock that has wrapped since the last cycle shows the fault: the hint is 110, but the tick at 50 sends. */
  lemma WrappedClockExample(p: Port, env: Env)
    requires Wf(p) && NoInput(env) && env.prepareTx == OK && !Gated(p.link, env) && !p.link.awaiting
    requires p.link.state == Operate && p.link.timerValid && p.link.last == 100 && p.config.minCycle == 10
    requires env.at == U32 + 50
    ensures NextTick(p.config, p.link, 50) == 110 && Drive(p, env) != (p, OK)
  {
    hide Drive, Wf;
    HintIsUnsoundExactly(p, 50, env);
  }

  // ---- the hinted tick ----------------------------------------------------------

  /** What a port waits for: in STARTUP a reply exactly in the step of that name, elsewhere only in OPERATE. */
  predicate Poised(l: Link)
  {
    && (l.state == Startup ==> l.step != StepAck && (l.awaiting <==> l.step == StepAwait))
    && (l.awaiting ==> l.state == Startup || l.state == Operate || l.state == Error)
  }

  lemma RestartIsPoised(c: Config, l: Link, env: Env, timed: bool)
    ensures Poised(Restart(c, l, env, timed).0)
  {
    hide TDwu, Later, Scan;
  }

  lemma AttemptIsPoised(c: Config, l: Link, env: Env)
    requires l.state == Startup
    ensures Poised(AttemptFailed(c, l, env).0)
  {
    hide TDmt, TDwu, TSd, Later, Scan;
  }

  lemma EstablishIsPoised(c: Config, l: Link, env: Env)
    requires Poised(l) && l.state == Startup && !l.awaiting
    ensures Poised(ProcessStartup(c, l, env))
  {
    hide TDmt, TestWindow, Later, Scan, TestOctets;
  }

  lemma MoveKeepsPoised(c: Config, l: Link, m: Move, env: Env)
    requires Enabled(c, l, m, env) && Poised(l)
    ensures Poised(Apply(c, l, m, env))
  {
    hide ReplyOk, OperateOctets, ProcessStartup, Restart, AttemptFailed, Jitter, Suits, CycleDue;
    match m {
      case ReceiveBad => RestartIsPoised(c, CountBad(l, env), env, false);
      case Expire(driven) =>
        if l.state == Startup { AttemptIsPoised(c, l.(awaiting := false), env); }
        RestartIsPoised(c, CountLate(l.(awaiting := false), env), env, true);
      case Establish => EstablishIsPoised(c, l, env);
      case _ =>
    }
  }

  lemma {:induction false} HappeningsKeepPoised(c: Config, l: Link, hs: seq<Happening>, since: nat)
    requires Happens(c, l, hs, since) && Poised(l)
    ensures Poised(Result(c, l, hs, since))
    decreases |hs|
  {
    hide Enabled, Apply, Poised;
    if hs != [] {
      MoveKeepsPoised(c, l, hs[0].move, hs[0].env);
      HappeningsKeepPoised(c, Apply(c, l, hs[0].move, hs[0].env), hs[1..], hs[0].env.at);
    }
  }

  /** A due deadline is acted on. */
  lemma DueDeadlineActs(p: Port, env: Env)
    requires Wf(p) && Poised(p.link) && env == Willing(env.at, []) && ResponseDue(p.link, Now(env))
    requires p.link.state == Startup || p.link.state == Operate
    ensures p.link.log < Drive(p, env).0.link.log
  {
    hide Wf, Poll, AttemptFailed, ResetScan, TDwu, Later;
    IdlePoll(p, env);
  }

  /** An open port in STARTUP takes its next step on the line, one in OPERATE sends a frame. */
  lemma OpenPortSends(p: Port, env: Env)
    requires Wf(p) && Poised(p.link) && env == Willing(env.at, []) && Clear(p.link, env)
    requires p.link.state == Startup || p.link.state == Operate
    requires CycleDue(p.config, p.link, Now(env))
    ensures p.link.log < Drive(p, env).0.link.log
  {
    hide Wf, Poll, RunCycle, CycleDue, CycleMove, Apply, LineAct, Enabled;
    IdlePoll(p, env);
    CycleMoves(p, env);
    if p.link.state == Operate {
      OperateMoves(p, env);
      OperateMoveSends(p, env);
    } else {
      StartupMoveSends(p, env);
    }
    SendLogs(p.config, p.link, CycleMove(p, env).value, env);
  }

  lemma StartupMoveSends(p: Port, env: Env)
    requires Wf(p) && p.link.state == Startup && Poised(p.link) && Clear(p.link, env) && env == Willing(env.at, [])
    ensures CycleMove(p, env) == Some(Establish) && LineAct(p.config, p.link, Establish, env).Some?
  {
    hide Wf, TestOctets;
  }

  /** A port in OPERATE that a wrapping clock holds back: a send gate armed in STARTUP still lies ahead of it, or
      the next cycle is due only after the clock wraps. */
  predicate HeldBack(c: Config, l: Link, now: u32)
  {
    && l.state == Operate && !l.awaiting
    && ((l.readyValid && now < l.readyAt) || (Paced(c, l) && l.last <= now && l.last + c.minCycle >= U32))
  }

  /** The hint is not too early either: after any run, at the time it names, a driven tick of a port in STARTUP or
      OPERATE puts the next frame on the line or acts on the missed reply, exactly unless a wrapping clock holds
      the port back. In PREOPERATE the hint never waits. */
  lemma HintedTickActs(c: Config, cap: nat, rounds: seq<Round>, now: u32, env: Env)
    requires Wf(Initial(c, cap)) && Timely(rounds, 0) && env == Willing(env.at, [])
    requires Now(env) == NextTick(c, Run(Initial(c, cap), rounds).link, now)
    ensures var p := Run(Initial(c, cap), rounds);
            && (p.link.state == Preoperate ==> Now(env) == now)
            && (p.link.state == Startup || p.link.state == Operate ==>
                  if HeldBack(c, p.link, Now(env)) then Drive(p, env) == (p, OK)
                  else p.link.log < Drive(p, env).0.link.log)
  {
    hide Wf, Run, Drive, NextTick, HeldBack, Happens, Result, Poised;
    var hs := RunMoves(Initial(c, cap), rounds, 0);
    StartsPoised(c, cap);
    HappeningsKeepPoised(c, Initial(c, cap).link, hs, 0);
    HintedTick(Run(Initial(c, cap), rounds), now, env);
  }

  lemma StartsPoised(c: Config, cap: nat)
    ensures Poised(Initial(c, cap).link)
  {
  }

  lemma HintedTick(p: Port, now: u32, env: Env)
    requires Wf(p) && Poised(p.link) && env == Willing(env.at, [])
    requires Now(env) == NextTick(p.config, p.link, now)
    ensures p.link.state == Preoperate ==> Now(env) == now
    ensures p.link.state == Startup || p.link.state == Operate ==>
              if HeldBack(p.config, p.link, Now(env)) then Drive(p, env) == (p, OK)
              else p.link.log < Drive(p, env).0.link.log
  {
    hide Wf, Drive;
    if p.link.state == Startup || p.link.state == Operate {
      if p.link.awaiting {
        DueDeadlineActs(p, env);
      } else if Gated(p.link, env) {
        IdleDrive(p, env);
      } else if CycleDue(p.config, p.link, Now(env)) {
        OpenPortSends(p, env);
      } else {
        IdleDrive(p, env);
      }
    }
  }

  lemma IdleDrive(p: Port, env: Env)
    requires Wf(p) && !p.link.awaiting && NoInput(env)
    requires Gated(p.link, env) || !CycleDue(p.config, p.link, Now(env))
    ensures Drive(p, env) == (p, OK)
  {
    hide Wf, Poll, Process;
    IdlePoll(p, env);
    if Gated(p.link, env) { GatedProcess(p, env); } else { NotDue(p, env); }
  }

  // ---- what a due deadline leads to -----------------------------------------------

  /** A cyclic reply missed at its deadline: octets of it are dropped; twice it is tolerated, the third time
      communication is lost and the tick that finds out reports what the PHY says to the first rate. A PHY that
      cannot flush ends in ERROR. */
  lemma MissedReplyTick(p: Port, env: Env)
    requires Wf(p) && p.link.state == Operate && NoInput(env) && ResponseDue(p.link, Now(env))
    ensures var (t, ret) := Drive(p, env);
            && t == p.(link := t.link, rx := []) && !t.link.awaiting
            && (if env.flush != 0 then ret == env.flush && t.link.state == Error && t.link.log == p.link.log
                else if p.link.retries < 2 then
                  ret == 1 && t.link.state == Operate && t.link.retries == p.link.retries + 1
                  && t.link.log == p.link.log + [Late(env.at)]
                else
                  && t.link.log == p.link.log + [Late(env.at), ComLost(env.at, true)]
                  && (if p.config.autoRate && p.link.rateIndex > 0 && env.rate != 0 then
                        ret == env.rate && t.link.state == Error
                      else ret == 1 && t.link.state == Startup && t.link.step == StepWake))
  {
    hide Wf, Poll, TDwu, Later, Scan;
    IdlePoll(p, env);
  }

  /** A test message unanswered at its deadline: the next lower rate if there is one, else another wake-up as long
      as the limit admits it, else a report and the sleep before the next sequence. A PHY that refuses ends in
      ERROR, with its own result. */
  lemma UnansweredTestTick(p: Port, env: Env)
    requires Wf(p) && p.link.state == Startup && p.link.step == StepAwait
    requires NoInput(env) && ResponseDue(p.link, Now(env))
    ensures var (t, ret) := Drive(p, env);
            var tried := (p.link.attempts + 1) % 256;
            && t == p.(link := t.link, rx := []) && !t.link.awaiting
            && (if env.flush != 0 then ret == env.flush && t.link.state == Error && t.link.log == p.link.log
                else if p.config.autoRate && env.rate != 0 then
                  ret == env.rate && t.link.state == Error && t.link.log == p.link.log + [Expired(env.at)]
                else if p.config.autoRate && p.link.rateIndex < 2 then
                  && ret == 1 && t.link.state == Startup && t.link.step == StepSend
                  && t.link.rateIndex == p.link.rateIndex + 1 && t.link.attempts == p.link.attempts
                  && t.link.log == p.link.log + [Expired(env.at)]
                else if tried <= RetryLimit(p.config) then
                  && ret == 1 && t.link.state == Startup && t.link.step == StepWake && t.link.attempts == tried
                  && (p.config.autoRate ==> t.link.rateIndex == 0)
                  && t.link.log == p.link.log + [Expired(env.at)]
                else
                  && t.link.log == p.link.log + [Expired(env.at), Report(env.at)] && t.link.attempts == 0
                  && (if env.mode != 0 then ret == env.mode && t.link.state == Error
                      else ret == -2 && t.link.state == Startup && t.link.step == StepInactive))
  {
    hide Wf, Poll, TDwu, TDmt, TSd, Later, Scan, RetryLimit, AttemptFailed;
    IdlePoll(p, env);
    RateIndexBound(p);
    AttemptOutcome(p.config, p.link.(awaiting := false), env);
  }

  lemma RateIndexBound(p: Port)
    requires Wf(p)
    ensures p.link.rateIndex <= 2
  {
  }

  lemma AttemptOutcome(c: Config, l: Link, env: Env)
    requires l.rateIndex <= 2
    ensures var (t, ret) := AttemptFailed(c, l, env);
            var tried := (l.attempts + 1) % 256;
            if c.autoRate && env.rate != 0 then
              ret == env.rate && t.state == Error && t.log == l.log + [Expired(env.at)]
            else if c.autoRate && l.rateIndex < 2 then
              && ret == 1 && t.state == l.state && t.step == StepSend && t.rateIndex == l.rateIndex + 1
              && t.attempts == l.attempts && t.log == l.log + [Expired(env.at)]
            else if tried <= RetryLimit(c) then
              && ret == 1 && t.state == l.state && t.step == StepWake && t.attempts == tried
              && (c.autoRate ==> t.rateIndex == 0) && t.log == l.log + [Expired(env.at)]
            else
              && t.log == l.log + [Expired(env.at), Report(env.at)] && t.attempts == 0
              && (if env.mode != 0 then ret == env.mode && t.state == Error
                  else ret == -2 && t.state == l.state && t.step == StepInactive)
  {
    hide TDmt, Later, Scan, RetryLimit, NextWake;
    if l.rateIndex == 2 || !c.autoRate { WakeOutcome(c, Note(l, Expired(env.at)).(awaiting := false), env); }
  }

  lemma WakeOutcome(c: Config, l: Link, env: Env)
    requires l.rateIndex == 2 || !c.autoRate
    ensures var (t, ret) := NextWake(c, l, env);
            var tried := (l.attempts + 1) % 256;
            if c.autoRate && env.rate != 0 then ret == env.rate && t.state == Error && t.log == l.log
            else if tried <= RetryLimit(c) then
              && ret == 1 && t.state == l.state && t.step == StepWake && t.attempts == tried
              && (c.autoRate ==> t.rateIndex == 0) && t.log == l.log
            else
              && t.log == l.log + [Report(env.at)] && t.attempts == 0
              && (if env.mode != 0 then ret == env.mode && t.state == Error
                  else ret == -2 && t.state == l.state && t.step == StepInactive)
  {
    hide TDwu, TSd, Later, Scan, RetryLimit;
  }
}
