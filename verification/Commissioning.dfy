/** Bringing a port up against a device that answers: from initialisation through the rate scan and
    PREOPERATE to OPERATE; and what a run may do after it loses the device again. */
module Commissioning {
  import opened Status
  import opened Octets
  import opened IsduCodec
  import opened DeviceParameters
  import opened Frames
  import opened Port
  import opened PortMoves
  import opened Establish
  import opened PortServices
  import I = IsduTransport
  import E = EventMemory

  // ---- to the rate the device answers at -------------------------------------------

  /** The port waits for the answer to a test message at the `k`-th rate, and nothing else has happened to it. */
  ghost predicate Testing(c: Config, cap: nat, p: Port, k: nat)
  {
    && Wf(p) && OnScript(c, p.link) && p.link.step == StepAwait && p.link.rateIndex == k
    && !p.link.timerValid && p == Initial(c, cap).(link := p.link) && p.config == c && p.rx == []
  }

  /** The step a ready round takes, and that it touches the link alone. */
  lemma ReadyStep(p: Port, env: Env)
    requires Wf(p) && OnScript(p.config, p.link) && Ready(p.link, env) && p.rx == [] && RetryLimit(p.config) <= 254
    ensures var t := Drive(p, env).0;
            && Wf(t) && OnScript(p.config, t.link) && t == p.(link := t.link) && t.link.timerValid == p.link.timerValid
            && (p.link.step == StepWake ==> t.link.step == StepSend && t.link.rateIndex == p.link.rateIndex)
            && (p.link.step == StepSend ==> t.link.step == StepAwait && t.link.rateIndex == p.link.rateIndex)
            && (p.link.step == StepAwait && p.link.rateIndex + 1 < RateCount(p.config) ==>
                  t.link.step == StepSend && t.link.rateIndex == p.link.rateIndex + 1)
  {
    hide Wf, Drive, OnScript;
    SilentProgress(p, env);
    ReadyDrive(p, env);
    OnlyLinkMoves(p, env);
    ReadyShape(p.config, p.link, env);
  }

  lemma OnlyLinkMoves(p: Port, env: Env)
    requires Wf(p) && OnScript(p.config, p.link) && Ready(p.link, env) && p.rx == []
    ensures var t := Drive(p, env).0; t == p.(link := t.link)
  {
    hide AttemptFailed, ProcessStartup, I.Wf, E.Wf, Marks, Done, Sequences;
  }

  lemma ReadyShape(c: Config, l: Link, env: Env)
    requires OnScript(c, l) && Ready(l, env)
    ensures var t := if l.awaiting then AttemptFailed(c, l, env).0 else ProcessStartup(c, l, env);
            && t.timerValid == l.timerValid
            && (l.step == StepWake ==> t.step == StepSend && t.rateIndex == l.rateIndex)
            && (l.step == StepSend ==> t.step == StepAwait && t.rateIndex == l.rateIndex)
            && (l.step == StepAwait && l.rateIndex + 1 < RateCount(c) ==>
                  t.step == StepSend && t.rateIndex == l.rateIndex + 1)
  {
    hide TDmt, TDwu, TSd, TestWindow, Later, Scan, Marks, Done, Sequences, TestOctets;
  }

  /** Two ready rounds without an answer take the scan to the next rate. */
  lemma {:induction false} ToRate(c: Config, cap: nat, p: Port, j: nat, k: nat, rounds: seq<Round>)
    requires Testing(c, cap, p, j) && j <= k < RateCount(c) && RetryLimit(c) <= 254
    requires AllReady(p, rounds) && |rounds| == 2 * (k - j)
    ensures Testing(c, cap, Run(p, rounds), k)
    decreases k - j
  {
    hide Wf, OnScript, Drive, Ready, Initial;
    if j < k {
      ReadyStep(p, rounds[0].env);
      var p1 := After(p, rounds[0]);
      assert rounds[1..][0] == rounds[1] && AllReady(p1, rounds[1..]);
      ReadyStep(p1, rounds[1].env);
      var p2 := After(p1, rounds[1]);
      assert rounds[1..][1..] == rounds[2..];
      ToRate(c, cap, p2, j + 1, k, rounds[2..]);
    }
  }

  /** From initialisation, a wake-up, a test message at each earlier rate without an answer, and one at the k-th. */
  lemma ReachesRate(c: Config, cap: nat, k: nat, rounds: seq<Round>)
    requires Wf(Initial(c, cap)) && c.portMode == ModeIoLink && RetryLimit(c) <= 254 && k < RateCount(c)
    requires AllReady(Initial(c, cap), rounds) && |rounds| == 2 + 2 * k
    ensures Testing(c, cap, Run(Initial(c, cap), rounds), k)
  {
    hide Wf, OnScript, Drive, Ready;
    var p := Initial(c, cap);
    StartsOnScript(c, cap);
    ReadyStep(p, rounds[0].env);
    var p1 := After(p, rounds[0]);
    assert rounds[1..][0] == rounds[1] && AllReady(p1, rounds[1..]);
    ReadyStep(p1, rounds[1].env);
    var p2 := After(p1, rounds[1]);
    assert rounds[1..][1..] == rounds[2..];
    ToRate(c, cap, p2, 0, k, rounds[2..]);
  }

  // ---- answer and acknowledgement ----------------------------------------------------

  /** The PHY does what it is asked, no gate holds, and no deadline has passed. */
  predicate InTime(l: Link, env: Env)
  {
    env == Willing(env.at, env.rx) && !Gated(l, env) && (l.awaiting ==> Now(env) < l.deadline)
  }

  /** A whole reply in a driven tick before the deadline: it is handled, then a cycle may run. */
  lemma ReplyThenCycle(p: Port, env: Env)
    requires Wf(p) && Receiving(p.link) && p.rx == [] && InTime(p.link, env) && |env.rx| == ExpectedLen(p)
    ensures Wf(p.(rx := env.rx))
    ensures var (q, ret) := OnRx(p.(rx := env.rx), env.rx, env);
            && Wf(q.(rx := []))
            && Drive(p, env) == (if ret == OK then (RunCycle(q.(rx := []), env), 1)
                                 else if ret < 0 then (q.(rx := []), ret) else Drive(p, env))
  {
    hide Wf, OnRx, PollOctets, ExpectedLen, RunCycle;
    assert p.rx + env.rx == env.rx;
    ExpectedFits(p);
    CompletingPoll(p, env, env.rx, ExpectedLen(p));
  }

  /** The answer to a test message takes the port to PREOPERATE. In the same tick it commands the device into
      OPERATE, or, if validation is configured, starts to read Direct Parameter page 1. */
  lemma AnswerTick(c: Config, cap: nat, p: Port, k: nat, env: Env, octet: byte, event: bool, invalid: bool)
    requires Testing(c, cap, p, k) && InTime(p.link, env) && env.rx == Reply([octet], event, invalid)
    ensures var t := Drive(p, env).0;
            && t.link == (if ValidationRequired(c) then Established(p.link, env)
                          else SendCommand(Established(p.link, env), env))
            && t == p.(link := t.link, info := p.info.(minCycleOctet := octet),
                       isdu := if ValidationRequired(c) then I.Start(p.isdu, Request(true, 0, 0, [])) else p.isdu)
  {
    hide I.Wf, E.Wf, OnScript, RunCycle, Reply, ReplyOk, Established, Encode;
    TestingAwaits(c, cap, p, k);
    AnswerAccepted(p, env, octet, event, invalid);
    ReplyThenCycle(p, env);
    var q := p.(link := Established(p.link, env), info := p.info.(minCycleOctet := octet));
    FirstCycle(q, env, cap);
  }

  lemma TestingAwaits(c: Config, cap: nat, p: Port, k: nat)
    requires Testing(c, cap, p, k)
    ensures p.link.state == Startup && p.link.awaiting && p.link.phyRate == RateAt(c, k)
  {
    hide I.Wf, E.Wf, Marks, Done, Sequences;
    ScanOrder(c, p.link);
  }

  lemma AnswerAccepted(p: Port, env: Env, octet: byte, event: bool, invalid: bool)
    requires Wf(p) && p.link.state == Startup && p.link.step == StepAwait && env.rx == Reply([octet], event, invalid)
    ensures |env.rx| == 2 && env.rx[0] == octet
    ensures var q := p.(rx := env.rx);
            Wf(q) && OnRx(q, env.rx, env)
                     == (q.(link := Established(p.link, env), info := p.info.(minCycleOctet := octet)), OK)
    ensures var t := Established(p.link, env);
            t.state == Preoperate && !t.awaiting && t.step == p.link.step && (Gated(t, env) <==> Gated(p.link, env))
  {
    hide I.Wf, E.Wf, Checksum6;
    ReplyRoundTrip([octet], [], event, invalid);
    assert [octet] + [] == [octet];
  }

  /** The first cycle in PREOPERATE, with no service active. */
  lemma FirstCycle(p: Port, env: Env, cap: nat)
    requires Wf(p) && p.link.state == Preoperate && p.link.step != StepAck && Clear(p.link, env)
    requires env == Willing(env.at, env.rx)
    requires p.isdu == I.Fresh(cap) && p.event == E.Quiet() && !p.info.valid
    ensures RunCycle(p, env)
         == (if ValidationRequired(p.config) then p.(isdu := I.Start(p.isdu, Request(true, 0, 0, [])))
             else p.(link := SendCommand(p.link, env)))
  {
    hide I.Wf, E.Wf, Transmit, OperateOctets, Encode, CycleStarted;
    Unchanged(p);
  }

  lemma Unchanged(p: Port)
    ensures p.(isdu := p.isdu) == p
  {
  }

  /** A port that has sent the command and waits for its acknowledgement. */
  ghost predicate Commanding(cap: nat, p: Port)
  {
    && Wf(p) && p.link.state == Preoperate && p.link.step == StepAck && !p.link.awaiting && !p.link.timerValid
    && p.rx == [] && p.isdu == I.Fresh(cap) && p.event == E.Quiet()
  }

  /** The acknowledgement takes the port to OPERATE, and in the same tick the first cyclic frame is sent. */
  lemma AckTick(cap: nat, p: Port, env: Env, event: bool, invalid: bool)
    requires Commanding(cap, p) && InTime(p.link, env) && env.rx == Reply([], event, invalid)
    ensures var t := Drive(p, env).0;
            && t.link.state == Operate && t.link.awaiting && t.link.retries == 0 && t.rx == []
            && t.link.phyRate == p.link.phyRate && (Gated(t.link, env) <==> Gated(p.link, env))
            && t.link.log == p.link.log + [Accepted(env.at)] + [EnterOperate(env.at, env.rx[0])]
                             + [Sent(env.at, p.link.phyRate, Cyclic, CyclicOctets(p), true)]
            && t.link.readyAt == p.link.readyAt && t.link.readyValid == p.link.readyValid
            && t.config == p.config && t.event == p.event
  {
    hide I.Wf, E.Wf, RunCycle, Reply, CyclicOctets;
    AckAccepted(p, env, event, invalid);
    ReplyThenCycle(p, env);
    var q := p.(link := Acknowledged(p.link, env, env.rx[0]), eventPending := env.rx[0] >= 128);
    FirstCyclic(q, env, cap);
    SameCyclic(p, q);
  }

  lemma SameCyclic(p: Port, q: Port)
    requires Wf(p) && Wf(q) && p.config == q.config && p.pdOut == q.pdOut && p.isdu == q.isdu
    ensures CyclicOctets(p) == CyclicOctets(q)
  {
  }

  lemma AckAccepted(p: Port, env: Env, event: bool, invalid: bool)
    requires Wf(p) && p.link.state == Preoperate && p.link.step == StepAck && env.rx == Reply([], event, invalid)
    ensures |env.rx| == 1
    ensures var q := p.(rx := env.rx);
            Wf(q) && OnRx(q, env.rx, env)
                     == (q.(link := Acknowledged(p.link, env, env.rx[0]), eventPending := env.rx[0] >= 128), OK)
  {
    hide I.Wf, E.Wf, Checksum6;
    ReplyRoundTrip([], [], event, invalid);
    var none: seq<byte> := [];
    assert none + none == none;
  }

  lemma FirstCyclic(p: Port, env: Env, cap: nat)
    requires Wf(p) && p.link.state == Operate && Clear(p.link, env) && !p.link.timerValid
    requires env == Willing(env.at, env.rx)
    requires p.isdu == I.Fresh(cap) && p.event == E.Quiet()
    ensures var t := RunCycle(p, env);
            && t.link.state == Operate && t.link.awaiting && t.link.retries == p.link.retries
            && t.link.phyRate == p.link.phyRate
            && t.link.readyAt == p.link.readyAt && t.link.readyValid == p.link.readyValid
            && t.link.log == p.link.log + [Sent(env.at, p.link.phyRate, Cyclic, CyclicOctets(p), true)]
            && t.rx == p.rx && t.config == p.config && t.event == p.event
  {
    hide I.Wf, E.Wf, CyclicOctets, Transmit, CycleStarted;
    FirstCycleShape(p.config, p.link, env, CyclicOctets(p));
  }

  lemma FirstCycleShape(c: Config, l: Link, env: Env, octets: seq<byte>)
    requires env == Willing(env.at, env.rx) && |octets| > 0
    ensures var (t, sent) := Transmit(l, env, Cyclic, octets);
            && sent && t.state == l.state
            && t.retries == l.retries && t.phyRate == l.phyRate
            && t.readyAt == l.readyAt && t.readyValid == l.readyValid
            && t.log == l.log + [Sent(env.at, l.phyRate, Cyclic, octets, true)]
    ensures forall t: Link ::
              var u := CycleStarted(c, t, env);
              && u.state == t.state && u.awaiting && u.retries == t.retries && u.phyRate == t.phyRate
              && u.readyAt == t.readyAt && u.readyValid == t.readyValid && u.log == t.log
  {
    hide ResponseTimeout, Jitter, RateOf;
  }

  /** Commissioning: a port that waits for the answer at the k-th rate and gets it in time, and then the
      acknowledgement of its command, reaches OPERATE at that rate. With validation configured it stays in
      PREOPERATE with the request for page 1 ready, whose frames meet what PortExchange proves of short ports. */
  lemma AnsweringDeviceIsCommissioned(c: Config, cap: nat, p: Port, k: nat, answer: Env, octet: byte, event: bool,
                                      invalid: bool, ack: Env, event2: bool, invalid2: bool)
    requires Testing(c, cap, p, k) && InTime(p.link, answer) && answer.rx == Reply([octet], event, invalid)
    requires InTime(Drive(p, answer).0.link, ack) && ack.rx == Reply([], event2, invalid2)
    ensures var p1 := Drive(p, answer).0;
            && p1.link.state == Preoperate
            && (if ValidationRequired(c) then
                  p1.link.step != StepAck && p1.isdu == I.Start(I.Fresh(cap), Request(true, 0, 0, []))
                else
                  var p2 := Drive(p1, ack).0;
                  && Running(p2) && p2.link.phyRate == RateAt(c, k) && p2.config == c && p2.event == E.Quiet()
                  && p2.link.readyAt == p.link.readyAt && p2.link.readyValid == p.link.readyValid
                  && |p2.link.log| > 1 && Last(Init(p2.link.log)) == EnterOperate(ack.at, ack.rx[0]))
  {
    hide Wf, Drive, OnScript, Established, Reply;
    TestingAwaits(c, cap, p, k);
    AnswerTick(c, cap, p, k, answer, octet, event, invalid);
    EstablishedShape(p.link, answer);
    if !ValidationRequired(c) {
      CommandSent(Established(p.link, answer), answer);
      var p1 := Drive(p, answer).0;
      AckTick(cap, p1, ack, event2, invalid2);
      Noted(p1.link.log + [Accepted(ack.at)], EnterOperate(ack.at, ack.rx[0]));
      Noted(p1.link.log + [Accepted(ack.at)] + [EnterOperate(ack.at, ack.rx[0])],
            Sent(ack.at, p1.link.phyRate, Cyclic, CyclicOctets(p1), true));
    }
  }

  /** A port in OPERATE waiting for the reply to a cyclic frame, with no failure counted. */
  ghost predicate Running(p: Port)
  {
    Wf(p) && p.link.state == Operate && p.link.awaiting && p.link.retries == 0 && p.rx == []
  }

  lemma EstablishedShape(l: Link, env: Env)
    ensures var t := Established(l, env);
            && t.state == Preoperate && !t.awaiting && t.step == l.step && t.timerValid == l.timerValid
            && t.phyRate == l.phyRate && t.rateIndex == l.rateIndex
            && t.readyAt == l.readyAt && t.readyValid == l.readyValid
  {
  }

  lemma CommandSent(l: Link, env: Env)
    requires env == Willing(env.at, env.rx)
    ensures var t := SendCommand(l, env);
            && t.state == l.state && t.step == StepAck && t.awaiting == l.awaiting && t.timerValid == l.timerValid
            && t.phyRate == l.phyRate && t.rateIndex == l.rateIndex
            && t.readyAt == l.readyAt && t.readyValid == l.readyValid
  {
    hide OperateOctets;
  }

  // ---- a run that commissions ----------------------------------------------------------

  /** Room for one test message and what is waited for around it, in ticks. */
  const SLOT := 1_000

  lemma DelaysAreShort(c: Config, rate: Rate)
    ensures TDmt(c, rate) <= 533 && 1 <= TestWindow(c, rate) <= 255
    ensures T_REN + TDmt(c, rate) + TestWindow(c, rate) <= SLOT
  {
    var tbit := if c.tDmt == 0 then 32 else c.tDmt;
    assert TBitNs(rate) * tbit <= 208_330 * 255;
    assert TBitNs(rate) * TYPE0_SEQUENCE_TBIT <= 208_330 * TYPE0_SEQUENCE_TBIT;
  }

  /** A test message was sent at time `at` and its window is open. */
  ghost predicate TestedAt(c: Config, cap: nat, p: Port, k: nat, at: nat)
  {
    && Testing(c, cap, p, k) && p.link.readyAt <= at && p.link.deadline == at + TestWindow(c, RateAt(c, k))
    && at <= (k + 1) * SLOT
  }

  lemma WakeRound(c: Config, l: Link, env: Env)
    requires OnScript(c, l) && l.step == StepWake && !l.readyValid && env == Willing(env.at, []) && env.at + SLOT < U32
    ensures var t := ProcessStartup(c, l, env);
            t.readyValid && t.readyAt == env.at + T_REN + TDmt(c, RateOf(c, l)) && RateOf(c, t) == RateOf(c, l)
  {
    hide Marks, Done, Sequences, Scan, TDmt;
    DelaysAreShort(c, RateOf(c, l));
  }

  lemma TestRound(c: Config, l: Link, env: Env)
    requires OnScript(c, l) && l.step == StepSend && env == Willing(env.at, []) && env.at + SLOT < U32
    ensures var t := ProcessStartup(c, l, env);
            t.readyAt == l.readyAt && t.deadline == env.at + TestWindow(c, RateOf(c, l))
  {
    hide Marks, Done, Sequences, Scan, TestWindow, Suits, TestOctets;
    DelaysAreShort(c, RateOf(c, l));
  }

  lemma NextRound(c: Config, l: Link, env: Env)
    requires OnScript(c, l) && l.step == StepAwait && l.rateIndex + 1 < RateCount(c)
    requires env == Willing(env.at, []) && env.at + SLOT < U32
    ensures var t := AttemptFailed(c, l, env).0;
            t.readyValid && t.readyAt == env.at + TDmt(c, RateOf(c, t)) && t.rateIndex == l.rateIndex + 1
  {
    hide Marks, Done, Sequences, Scan, TDmt;
    DelaysAreShort(c, RateOf(c, l.(rateIndex := l.rateIndex + 1)));
  }

  /** Driven rounds in time order that end by `at`. */
  ghost predicate InOrder(rounds: seq<Round>, at: nat)
  {
    Timely(rounds, 0) && forall r :: r in rounds ==> r.Driven? && r.env.at <= at
  }

  lemma {:induction false} TimelyAppend(rounds: seq<Round>, r: Round, since: nat)
    requires Timely(rounds, since) && r.Driven? && since <= r.env.at
    requires forall q :: q in rounds ==> q.Driven? && q.env.at <= r.env.at
    ensures Timely(rounds + [r], since)
    decreases |rounds|
  {
    if rounds == [] {
      assert [r][1..] == [];
    } else {
      assert rounds[0] in rounds;
      assert (rounds + [r])[1..] == rounds[1..] + [r];
      TimelyAppend(rounds[1..], r, if rounds[0].Application? then since else rounds[0].env.at);
    }
  }

  lemma {:induction false} RunAppend(p: Port, rounds: seq<Round>, r: Round)
    requires Wf(p)
    ensures Run(p, rounds + [r]) == After(Run(p, rounds), r)
    decreases |rounds|
  {
    hide Wf, Drive, Tick;
    if rounds == [] {
      assert [r][1..] == [];
      assert [] + [r] == [r];
    } else {
      assert (rounds + [r])[1..] == rounds[1..] + [r];
      RunAppend(After(p, rounds[0]), rounds[1..], r);
    }
  }

  /** One more driven round at the end of a schedule. */
  lemma Extended(p: Port, rounds: seq<Round>, env: Env) returns (longer: seq<Round>)
    requires Wf(p) && InOrder(rounds, env.at)
    ensures InOrder(longer, env.at) && Run(p, longer) == Drive(Run(p, rounds), env).0
  {
    hide Wf, Drive;
    var r := Driven(env);
    longer := rounds + [r];
    TimelyAppend(rounds, r, 0);
    RunAppend(p, rounds, r);
  }

  lemma StillInOrder(rounds: seq<Round>, at: nat, later: nat)
    requires InOrder(rounds, at) && at <= later
    ensures InOrder(rounds, later)
  {
  }

  lemma QuietStep(c: Config, p: Port, env: Env)
    requires Wf(p) && p.config == c && OnScript(c, p.link) && p.rx == [] && RetryLimit(c) <= 254
    requires env == Willing(env.at, []) && Ready(p.link, env)
    ensures var t := Drive(p, env).0;
            && Wf(t) && OnScript(c, t.link) && t == p.(link := t.link) && t.link.timerValid == p.link.timerValid
            && t.link == if p.link.awaiting then AttemptFailed(c, p.link, env).0 else ProcessStartup(c, p.link, env)
  {
    hide Wf, Drive, OnScript, AttemptFailed, ProcessStartup, Ready;
    ReadyStep(p, env);
    ReadyDrive(p, env);
  }

  /** A run that sends the test message at the k-th rate, every step at the tick it becomes due. */
  lemma {:induction false} TestRun(c: Config, cap: nat, k: nat) returns (rounds: seq<Round>, at: nat)
    requires Wf(Initial(c, cap)) && c.portMode == ModeIoLink && RetryLimit(c) <= 254 && k < RateCount(c)
    ensures InOrder(rounds, at) && TestedAt(c, cap, Run(Initial(c, cap), rounds), k, at)
    decreases k
  {
    hide Wf, Drive, OnScript, AttemptFailed, ProcessStartup, Run;
    var p0 := Initial(c, cap);
    if k == 0 {
      rounds := FirstTest(c, cap);
      at := T_REN + TDmt(c, RateOf(c, p0.link));
    } else {
      var before, since := TestRun(c, cap, k - 1);
      rounds, at := NextTest(c, cap, k, before, since);
    }
  }

  lemma NoRounds(p: Port)
    requires Wf(p)
    ensures Run(p, []) == p && InOrder([], 0)
  {
  }

  lemma FirstTest(c: Config, cap: nat) returns (rounds: seq<Round>)
    requires Wf(Initial(c, cap)) && c.portMode == ModeIoLink && RetryLimit(c) <= 254
    ensures var at := T_REN + TDmt(c, RateOf(c, Initial(c, cap).link));
            InOrder(rounds, at) && TestedAt(c, cap, Run(Initial(c, cap), rounds), 0, at)
  {
    hide Wf, Drive, OnScript, AttemptFailed, ProcessStartup, Run, TDmt, TestWindow;
    var p0 := Initial(c, cap);
    var at := T_REN + TDmt(c, RateOf(c, p0.link));
    StartsOnScript(c, cap);
    NoRounds(p0);
    DelaysAreShort(c, RateOf(c, p0.link));
    QuietStep(c, p0, Willing(0, []));
    WakeRound(c, p0.link, Willing(0, []));
    WakeShape(c, p0.link, Willing(0, []));
    rounds := Extended(p0, [], Willing(0, []));
    var p1 := Run(p0, rounds);
    QuietStep(c, p1, Willing(at, []));
    TestRound(c, p1.link, Willing(at, []));
    ReadyShape(c, p1.link, Willing(at, []));
    ScanOrder(c, p1.link);
    StillInOrder(rounds, 0, at);
    rounds := Extended(p0, rounds, Willing(at, []));
  }

  lemma WakeShape(c: Config, l: Link, env: Env)
    requires OnScript(c, l) && Ready(l, env) && l.step == StepWake
    ensures var t := ProcessStartup(c, l, env);
            && t.state == Startup && t.step == StepSend && !t.awaiting
            && t.rateIndex == l.rateIndex && t.timerValid == l.timerValid
    ensures !l.awaiting
  {
    hide TDmt, Later, Scan, Marks, Done, Sequences;
  }

  lemma NextTest(c: Config, cap: nat, k: nat, before: seq<Round>, since: nat)
    returns (rounds: seq<Round>, at: nat)
    requires Wf(Initial(c, cap)) && c.portMode == ModeIoLink && RetryLimit(c) <= 254 && 0 < k < RateCount(c)
    requires InOrder(before, since) && TestedAt(c, cap, Run(Initial(c, cap), before), k - 1, since)
    ensures InOrder(rounds, at) && TestedAt(c, cap, Run(Initial(c, cap), rounds), k, at)
  {
    hide Wf, Drive, OnScript, AttemptFailed, ProcessStartup, Run, TDmt, TestWindow;
    var p0 := Initial(c, cap);
    var p := Run(p0, before);
    TestingAwaits(c, cap, p, k - 1);
    DelaysAreShort(c, RateAt(c, k - 1));
    DelaysAreShort(c, RateAt(c, k));
    var over := p.link.deadline;
    QuietStep(c, p, Willing(over, []));
    NextRound(c, p.link, Willing(over, []));
    ReadyShape(c, p.link, Willing(over, []));
    StillInOrder(before, since, over);
    rounds := Extended(p0, before, Willing(over, []));
    var p1 := Run(p0, rounds);
    ScanOrder(c, p1.link);
    at := p1.link.readyAt;
    SendStepIdles(c, p1.link);
    QuietStep(c, p1, Willing(at, []));
    TestRound(c, p1.link, Willing(at, []));
    ReadyShape(c, p1.link, Willing(at, []));
    StillInOrder(rounds, over, at);
    rounds := Extended(p0, rounds, Willing(at, []));
  }

  lemma SendStepIdles(c: Config, l: Link)
    requires OnScript(c, l) && l.step == StepSend
    ensures !l.awaiting && l.state == Startup && l.rateIndex < RateCount(c)
  {
  }

  /** The acknowledgement may come in the tick of the answer: the command it answers has no gate and no deadline. */
  lemma AcknowledgedInTime(c: Config, cap: nat, p: Port, k: nat, answer: Env, ack: Env)
    requires Testing(c, cap, p, k) && !ValidationRequired(c) && answer.rx == Reply([0], false, false)
    requires InTime(p.link, answer) && ack == Willing(answer.at, ack.rx)
    ensures InTime(Drive(p, answer).0.link, ack)
  {
    hide Wf, Drive, Reply, Established, SendCommand, I.Wf, E.Wf, Marks, Done, Sequences;
    TestingAwaits(c, cap, p, k);
    AnswerTick(c, cap, p, k, answer, 0, false, false);
    EstablishedShape(p.link, answer);
    CommandSent(Established(p.link, answer), answer);
  }

  lemma TestedInTime(c: Config, cap: nat, p: Port, k: nat, at: nat, env: Env)
    requires TestedAt(c, cap, p, k, at) && k < RateCount(c) && env == Willing(at, env.rx)
    ensures InTime(p.link, env) && p.link.readyAt <= at < U32
  {
    hide Wf, OnScript, TestWindow;
    DelaysAreShort(c, RateAt(c, k));
  }

  /** Every port that need not validate is commissioned at whichever of its rates the device answers: the run
      exists, step by step as each becomes due. */
  lemma CommissioningRun(c: Config, cap: nat, k: nat) returns (rounds: seq<Round>, at: nat)
    requires Wf(Initial(c, cap)) && c.portMode == ModeIoLink && RetryLimit(c) <= 254 && k < RateCount(c)
    requires !ValidationRequired(c)
    ensures InOrder(rounds, at)
    ensures var p := Run(Initial(c, cap), rounds);
            Running(p) && p.config == c && p.event == E.Quiet() && p.link.phyRate == RateAt(c, k)
            && p.link.readyAt <= at < U32
  {
    hide Wf, Drive, Testing, Run, Running, Reply, InTime;
    var p0 := Initial(c, cap);
    rounds, at := TestRun(c, cap, k);
    var p := Run(p0, rounds);
    var answer, ack := Willing(at, Reply([0], false, false)), Willing(at, Reply([], false, false));
    TestedInTime(c, cap, p, k, at, answer);
    AcknowledgedInTime(c, cap, p, k, answer, ack);
    AnsweringDeviceIsCommissioned(c, cap, p, k, answer, 0, false, false, ack, false, false);
    rounds := Extended(p0, rounds, answer);
    rounds := Extended(p0, rounds, ack);
  }

  // ---- losing the device by checksum failures ------------------------------------------

  /** Octets of a given number that no reply check accepts. */
  function Garbled(n: nat): (data: seq<byte>)
    requires n > 0
    ensures |data| == n
  {
    Zeros(n - 1) + [(Checksum6(Zeros(n - 1) + [0]) + 1) % 64]
  }

  lemma GarbledFails(n: nat)
    requires n > 0
    ensures !ReplyOk(Garbled(n))
  {
    hide Checksum6;
    var body := Zeros(n - 1);
    assert Garbled(n)[..n - 1] == body;
  }

  /** A garbled reply in OPERATE counts a failure and nothing else. */
  lemma GarbledTick(p: Port, env: Env)
    requires Wf(p) && p.link.state == Operate && p.rx == [] && env == Willing(env.at, Garbled(ExpectedLen(p)))
    ensures Drive(p, env) == (p.(link := ReplyBad(p.config, p.link, env)), ERR_CHECKSUM)
  {
    hide I.Wf, E.Wf, ReplyBad, PollOctets, ReplyOk, Garbled, OnTimeout, RunCycle;
    var n := ExpectedLen(p);
    GarbledFails(n);
    assert p.rx + env.rx == env.rx;
    ExpectedFits(p);
    CompletingPoll(p, env, env.rx, n);
    GarbledRx(p.(rx := env.rx), env);
  }

  lemma GarbledRx(p: Port, env: Env)
    requires Wf(p) && p.link.state == Operate && |p.rx| == ExpectedLen(p) && !ReplyOk(p.rx)
    ensures OnRx(p, p.rx, env) == (p.(link := ReplyBad(p.config, p.link, env)), ERR_CHECKSUM)
  {
    hide I.Wf, E.Wf, ReplyBad, ReplyOk;
  }

  lemma BadShape(c: Config, l: Link, env: Env)
    requires l.state == Operate && l.retries <= RX_RETRY_LIMIT && env.rate == OK
    ensures var t := ReplyBad(c, l, env);
            && t.readyAt == l.readyAt && t.readyValid == l.readyValid
            && (if l.retries < RX_RETRY_LIMIT then
                  t.state == Operate && t.retries == l.retries + 1 && t.log == l.log + [Bad(env.at)]
                else
                  && t.state == Startup && t.step == StepWake && !t.awaiting
                  && t.log == l.log + [Bad(env.at)] + [Act.ComLost(env.at, false)])
  {
    hide Scan;
  }

  /** A port after COMLOST wakes the device in the next tick no gate forbids. */
  lemma WakeTick(p: Port, env: Env)
    requires Wf(p) && p.link.state == Startup && p.link.step == StepWake && !p.link.awaiting && p.rx == []
    requires env == Willing(env.at, []) && !Gated(p.link, env)
    ensures Drive(p, env).0.link.log == p.link.log + [Wake(env.at, true)]
  {
    hide Wf, RunCycle, PollOctets;
    StartupMoves(p, env);
    SendLogs(p.config, p.link, Establish, env);
  }

  /** There is a driven run in time order, for every port that need not validate, in which a wake-up follows
      COMLOST at once although T_DWU is not zero: three garbled replies in OPERATE, and the next tick wakes. */
  lemma WakeWithoutTDwu(c: Config, cap: nat) returns (rounds: seq<Round>, at: nat)
    requires Wf(Initial(c, cap)) && c.portMode == ModeIoLink && RetryLimit(c) <= 254 && !ValidationRequired(c)
    ensures InOrder(rounds, at) && TDwu(c) > 0
    ensures var log := Run(Initial(c, cap), rounds).link.log;
            && |log| > 1 && Last(log) == Wake(at, true) && Last(Init(log)) == Act.ComLost(at, false)
  {
    hide Wf, Drive, Run, ReplyBad, Garbled, ExpectedLen;
    var p0 := Initial(c, cap);
    rounds, at := CommissioningRun(c, cap, 0);
    var p1 := Run(p0, rounds);
    var bad1 := Willing(at, Garbled(ExpectedLen(p1)));
    GarbledTick(p1, bad1);
    BadShape(c, p1.link, bad1);
    rounds := Extended(p0, rounds, bad1);
    var p2 := Run(p0, rounds);
    var bad2 := Willing(at, Garbled(ExpectedLen(p2)));
    GarbledTick(p2, bad2);
    BadShape(c, p2.link, bad2);
    rounds := Extended(p0, rounds, bad2);
    var p3 := Run(p0, rounds);
    var bad3 := Willing(at, Garbled(ExpectedLen(p3)));
    GarbledTick(p3, bad3);
    BadShape(c, p3.link, bad3);
    rounds := Extended(p0, rounds, bad3);
    var p4 := Run(p0, rounds);
    WakeTick(p4, Willing(at, []));
    rounds := Extended(p0, rounds, Willing(at, []));
    Noted(p3.link.log + [Bad(at)], Act.ComLost(at, false));
    Noted(p4.link.log, Wake(at, true));
  }
}
