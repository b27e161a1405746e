/** COMLOST recovery (7.2.2.1, Tables 44 and 46) in every run of a port: the retry counter
    counts failures, and the third in a row ends communication, no other. */
module ComLost {
  import opened DeviceParameters
  import opened Frames
  import opened Port
  import opened PortMoves

  /** Failed replies since the last accepted one or the last restart. */
  function Failures(log: seq<Act>): (n: nat)
    ensures n <= |log|
  {
    if log == [] then 0
    else match Last(log)
      case Bad(at) => Failures(Init(log)) + 1
      case Late(at) => Failures(Init(log)) + 1
      case Accepted(at) => 0
      case ComLost(at, timed) => 0
      case _ => Failures(Init(log))
  }

  /** COMLOST follows a third failure, directly and only. */
  predicate ThirdFailureEnds(log: seq<Act>)
  {
    log == []
    || (ThirdFailureEnds(Init(log)) && (Last(log).ComLost? <==> Failures(Init(log)) == 3))
  }

  ghost predicate Counted(l: Link)
  {
    l.retries == Failures(l.log) <= 2 && ThirdFailureEnds(l.log)
  }

  lemma NotedCount(l: Link, act: Act)
    requires Counted(l) && !act.ComLost?
    ensures ThirdFailureEnds(Note(l, act).log)
    ensures Failures(Note(l, act).log)
         == match act
            case Bad(at) => l.retries + 1
            case Late(at) => l.retries + 1
            case Accepted(at) => 0
            case _ => l.retries
  {
    Noted(l.log, act);
  }

  lemma RestartCount(c: Config, l: Link, env: Env, timed: bool)
    requires Failures(l.log) == RX_RETRY_LIMIT + 1 && ThirdFailureEnds(l.log)
    ensures Counted(Restart(c, l, env, timed).0)
  {
    Noted(l.log, Act.ComLost(env.at, timed));
  }

  lemma ReceiveKeepsCount(c: Config, l: Link, m: Move, env: Env)
    requires Enabled(c, l, m, env) && FromLine(m) && Counted(l)
    ensures Counted(Apply(c, l, m, env))
  {
    hide Failures, ThirdFailureEnds, Restart, ReplyOk;
    NotedCount(l, Bad(env.at));
    NotedCount(l, Accepted(env.at));
    match m {
      case ReceiveBad =>
        if l.retries == RX_RETRY_LIMIT {
          var b := CountBad(l, env);
          RestartCount(c, b, env, false);
        }
      case ReceiveAnswer => NotedCount(ReplyGood(l, env), EnterPreoperate(env.at));
      case ReceiveAck(octet) => NotedCount(ReplyGood(l, env), EnterOperate(env.at, octet));
      case _ =>
    }
  }

  lemma SendKeepsCount(c: Config, l: Link, m: Move, env: Env)
    requires Enabled(c, l, m, env) && !FromLine(m) && !m.Expire? && Counted(l)
    ensures Counted(Apply(c, l, m, env))
  {
    hide Failures, ThirdFailureEnds, Apply;
    SendLogs(c, l, m, env);
    assert l.log + [] == l.log;
    if LineAct(c, l, m, env).Some? { NotedCount(l, LineAct(c, l, m, env).value); }
  }

  lemma AttemptKeepsCount(c: Config, l: Link, env: Env)
    requires Counted(l)
    ensures Counted(AttemptFailed(c, l, env).0)
  {
    hide Failures, ThirdFailureEnds, AttemptFailed;
    NotedCount(l, Expired(env.at));
    NotedCount(Note(l, Expired(env.at)), Report(env.at));
  }

  lemma ExpireKeepsCount(c: Config, l: Link, driven: bool, env: Env)
    requires Enabled(c, l, Expire(driven), env) && Counted(l)
    ensures Counted(Apply(c, l, Expire(driven), env))
  {
    hide Failures, ThirdFailureEnds, Restart, AttemptFailed;
    var u := l.(awaiting := false);
    AttemptKeepsCount(c, u, env);
    NotedCount(u, Late(env.at));
    if l.state == Operate && l.retries == RX_RETRY_LIMIT {
      var m := CountLate(u, env);
      RestartCount(c, m, env, true);
    }
  }

  lemma {:induction false} HappeningsKeepCount(c: Config, l: Link, hs: seq<Happening>, since: nat)
    requires Happens(c, l, hs, since) && Counted(l)
    ensures Counted(Result(c, l, hs, since))
    decreases |hs|
  {
    hide Enabled, Apply, Counted;
    if hs != [] {
      MoveKeepsCount(c, l, hs[0].move, hs[0].env);
      HappeningsKeepCount(c, Apply(c, l, hs[0].move, hs[0].env), hs[1..], hs[0].env.at);
    }
  }

  lemma MoveKeepsCount(c: Config, l: Link, m: Move, env: Env)
    requires Enabled(c, l, m, env) && Counted(l)
    ensures Counted(Apply(c, l, m, env))
  {
    hide Apply, Enabled, Counted;
    if FromLine(m) {
      ReceiveKeepsCount(c, l, m, env);
    } else if m.Expire? {
      ExpireKeepsCount(c, l, m.driven, env);
    } else {
      SendKeepsCount(c, l, m, env);
    }
  }

  /** In every run the retry counter is the number of failures since the last accepted reply or
      restart, at most two, and COMLOST happens exactly at a third failure in a row. */
  lemma ComLostOnThirdFailure(c: Config, cap: nat, rounds: seq<Round>)
    requires Wf(Initial(c, cap)) && Timely(rounds, 0)
    ensures var l := Run(Initial(c, cap), rounds).link;
            l.retries == Failures(l.log) <= 2 && ThirdFailureEnds(l.log)
  {
    hide Wf, Run;
    var hs := RunMoves(Initial(c, cap), rounds, 0);
    HappeningsKeepCount(c, Initial(c, cap).link, hs, 0);
  }
}
