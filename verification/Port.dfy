/** One master port: wake-up and rate scan, PREOPERATE, OPERATE, COMLOST recovery and the
    timed tick that drives them (7.3.2.2, Figure 36, Tables 42, 44 and 46). The answers of
    the PHY during a tick are an environment; a log keeps what happened on the line. */
module Port {
  import opened Wrappers
  import opened Status
  import opened Octets
  import opened IsduCodec
  import opened DeviceParameters
  import opened Frames
  import I = IsduTransport
  import E = EventMemory

  const ERR_RETRY_LIMIT := -2
  const ERR_FRAME := -2
  const ERR_CHECKSUM := -3

  const RX_RETRY_LIMIT := 2

  // ---- timing (Table 9, Table 10, Table 42, A.3) -------------------------

  const TICK_NS := 100_000
  const T_REN := 5
  const TYPE0_SEQUENCE_TBIT := 58
  const RESPONSE_TBIT := 21

  function TBitNs(rate: Rate): (ns: nat)
    ensures ns > 0
  {
    match rate case COM1 => 208_330 case COM2 => 26_040 case COM3 => 4_340
  }

  /** Bit times in ticks of 100 us, rounded up. */
  function Ticks(rate: Rate, tbit: nat): nat
  {
    (TBitNs(rate) * tbit + TICK_NS - 1) / TICK_NS
  }

  function TDmt(c: Config, rate: Rate): nat { Ticks(rate, if c.tDmt == 0 then 32 else c.tDmt) }

  function TDwu(c: Config): nat { if c.tDwu == 0 then 400 else c.tDwu }

  function TSd(c: Config): nat { if c.tSd == 0 then 5000 else c.tSd }

  function RetryLimit(c: Config): byte { if c.wakeRetryLimit == 0 then 2 else c.wakeRetryLimit }

  /** Answer window of a test message. */
  function TestWindow(c: Config, rate: Rate): nat
  {
    Max(1, Max(c.responseTimeout, Ticks(rate, TYPE0_SEQUENCE_TBIT)))
  }

  function ResponseTimeout(c: Config, rate: Rate): nat
  {
    Max(1, Max(c.responseTimeout, Ticks(rate, RESPONSE_TBIT)))
  }

  function Later(now: u32, delay: nat): u32 { (now + delay) % U32 }

  function Elapsed(now: u32, since: u32): u32 { (now - since) % U32 }

  function Bump(count: u32): u32 { (count + 1) % U32 }

  // ---- state -----------------------------------------------------------

  datatype State = Inactive | Startup | Preoperate | Operate | Error

  datatype Step = StepWake | StepSend | StepAwait | StepAck | StepInactive

  /** Line modes of the PHY: SDCI, inactive, and the digital modes of SIO. */
  datatype Mode = Sdci | Sleeping | Sio

  datatype Kind = TestMessage | OperateCommand | Cyclic | IsduFrame | EventFrame

  /** What happened on the line, with the real time of the tick; `ok` is the verdict of the PHY. */
  datatype Act =
    | Wake(at: nat, ok: bool)
    | Sent(at: nat, rate: Rate, kind: Kind, octets: seq<byte>, ok: bool)
    | Expired(at: nat)
    | Report(at: nat)
    | Bad(at: nat)
    | Late(at: nat)
    | Accepted(at: nat)
    | ComLost(at: nat, timed: bool)
    | EnterPreoperate(at: nat)
    | EnterOperate(at: nat, ack: byte)

  datatype Diagnostics = Diagnostics(
    checksumErrors: u32,
    sendErrors: u32,
    timeouts: u32,
    slips: u32,
    jitter: u32,
    maxJitter: u32,
    failures: u32)

  /** The link-level part of a port, the PHY's own rate and mode, and the log. */
  datatype Link = Link(
    state: State,
    step: Step,
    rateIndex: nat,
    attempts: byte,
    retries: byte,
    cycles: u32,
    last: u32,
    deadline: u32,
    readyAt: u32,
    readyValid: bool,
    timerValid: bool,
    awaiting: bool,
    odExpected: bool,
    diag: Diagnostics,
    phyRate: Rate,
    phyMode: Mode,
    log: seq<Act>)

  datatype Port = Port(
    config: Config,
    link: Link,
    isdu: I.Isdu,
    event: E.Events,
    info: DeviceInfo,
    rx: seq<byte>,
    pdIn: seq<byte>,
    pdValid: bool,
    pdOut: seq<byte>,
    odStatus: byte,
    eventPending: bool)

  /** The answers of the PHY during one tick at real time `at`. A tick makes each call at most once, except
      that a timeout flushes twice; `flush` is the second answer, the first is ignored. */
  datatype Env = Env(
    at: nat,
    rx: seq<byte>,
    rxFault: bool,
    flush: int,
    mode: int,
    rate: int,
    wake: int,
    prepareTx: int,
    sent: bool,
    prepareRx: int)

  function Now(env: Env): u32 { env.at % U32 }

  /** The scan order of Figure 36. */
  function Scan(index: nat): Rate
  {
    if index == 0 then COM3 else if index == 1 then COM2 else COM1
  }

  const LAST_RATE := 2

  function RateOf(c: Config, l: Link): Rate
  {
    if c.autoRate then Scan(l.rateIndex) else c.rate
  }

  // ---- link-level transitions ---------------------------------------------

  function Note(l: Link, act: Act): Link { l.(log := l.log + [act]) }

  function Fault(l: Link): Link { l.(state := Error) }

  function SendFault(l: Link): Link
  {
    l.(state := Error, diag := l.diag.(sendErrors := Bump(l.diag.sendErrors)))
  }

  function SetRate(c: Config, l: Link, env: Env): (r: (Link, int))
    ensures r.0.awaiting == l.awaiting && r.0.log == l.log && r.0.retries == l.retries && SameTimer(l, r.0)
    ensures r.0.state == l.state || r.0.state == Error
  {
    if env.rate == OK then (l.(phyRate := RateOf(c, l)), OK) else (Fault(l), env.rate)
  }

  /** Back to the first rate, telling the PHY only if the rate changes. */
  function ResetScan(c: Config, l: Link, env: Env): (r: (Link, int))
    ensures r.0.awaiting == l.awaiting && r.0.log == l.log && r.0.retries == l.retries && SameTimer(l, r.0)
    ensures r.0.state == l.state || r.0.state == Error
  {
    if !c.autoRate || l.rateIndex == 0 then (l, OK) else SetRate(c, l.(rateIndex := 0), env)
  }

  function Arm(l: Link, env: Env, delay: nat): Link
  {
    l.(readyAt := Later(Now(env), delay), readyValid := true)
  }

  /** COMLOST: start over from the wake-up (Table 44). Only a timed path spaces the wake-up by T_DWU. */
  function Restart(c: Config, l: Link, env: Env, timed: bool): (Link, int)
  {
    var m := Note(l, ComLost(env.at, timed)).(state := Startup, step := StepWake, attempts := 0, retries := 0,
                                               awaiting := false);
    var (r, ret) := ResetScan(c, m, env);
    if ret != OK then (r, ret) else (if timed then Arm(r, env, TDwu(c)) else r, PENDING)
  }

  /** Try the next lower rate after T_DMT (T16, T17). */
  function NextRate(c: Config, l: Link, env: Env): (r: (Link, int))
    ensures r.0.awaiting == l.awaiting && r.0.log == l.log && r.0.retries == l.retries
    ensures r.0.rateIndex == l.rateIndex + 1 && SameTimer(l, r.0)
    ensures r.0.state == l.state || r.0.state == Error
  {
    hide TDmt, Later;
    var (r, ret) := SetRate(c, l.(rateIndex := l.rateIndex + 1), env);
    if ret != OK then (r, ret) else (Arm(r.(step := StepSend), env, TDmt(c, RateOf(c, r))), PENDING)
  }

  /** Report a failed wake-up sequence and sleep for T_SD (T5, Figure 33). */
  function SequenceFailed(c: Config, l: Link, env: Env): (r: (Link, int))
    ensures r.0.awaiting == l.awaiting && r.0.log == l.log + [Report(env.at)] && r.0.retries == l.retries
    ensures r.0.rateIndex == l.rateIndex && (r.0.state == l.state || r.0.state == Error) && SameTimer(l, r.0)
  {
    hide TSd, Later;
    var f := Note(l, Report(env.at)).(attempts := 0, diag := l.diag.(failures := Bump(l.diag.failures)));
    if env.mode != OK then (Fault(f), env.mode)
    else (Arm(f.(phyMode := Sleeping, step := StepInactive), env, TSd(c)), ERR_RETRY_LIMIT)
  }

  /** No answer at the last rate: another wake-up after T_DWU, or the end of the sequence (T18, T19). */
  function NextWake(c: Config, l: Link, env: Env): (r: (Link, int))
    ensures r.0.awaiting == l.awaiting && r.0.retries == l.retries && (r.0.state == l.state || r.0.state == Error)
    ensures SameTimer(l, r.0)
    ensures r.0.log == l.log || r.0.log == l.log + [Report(env.at)]
    ensures l.rateIndex <= LAST_RATE ==> r.0.rateIndex <= LAST_RATE
  {
    hide TDwu, Later;
    var (r, ret) := ResetScan(c, l.(attempts := (l.attempts + 1) % 256), env);
    if ret != OK then (r, ret)
    else if r.attempts <= RetryLimit(c) then (Arm(r.(step := StepWake), env, TDwu(c)), PENDING)
    else SequenceFailed(c, r, env)
  }

  /** No answer to a test message (Figure 36). */
  function AttemptFailed(c: Config, l: Link, env: Env): (r: (Link, int))
    ensures !r.0.awaiting && r.0.retries == l.retries && (r.0.state == l.state || r.0.state == Error)
    ensures SameTimer(l, r.0)
    ensures r.0.log == l.log + [Expired(env.at)] || r.0.log == l.log + [Expired(env.at)] + [Report(env.at)]
    ensures l.rateIndex <= LAST_RATE ==> r.0.rateIndex <= LAST_RATE
  {
    hide NextRate, NextWake;
    var m := Note(l, Expired(env.at)).(awaiting := false);
    if c.autoRate && m.rateIndex < LAST_RATE then NextRate(c, m, env) else NextWake(c, m, env)
  }

  function CountLate(l: Link, env: Env): Link
  {
    Note(l, Late(env.at)).(diag := l.diag.(timeouts := Bump(l.diag.timeouts)))
  }

  function CountBad(l: Link, env: Env): Link
  {
    Note(l, Bad(env.at)).(diag := l.diag.(checksumErrors := Bump(l.diag.checksumErrors)))
  }

  /** A missing reply in OPERATE: two are tolerated, the third is COMLOST (7.2.2.1). */
  function ReplyMissed(c: Config, l: Link, env: Env): (r: (Link, int))
    ensures l.rateIndex <= LAST_RATE ==> r.0.rateIndex <= LAST_RATE
  {
    var m := CountLate(l, env);
    if m.retries < RX_RETRY_LIMIT then (m.(retries := m.retries + 1), PENDING) else Restart(c, m, env, true)
  }

  function OnTimeout(c: Config, l: Link, env: Env): (r: (Link, int))
    ensures l.rateIndex <= LAST_RATE ==> r.0.rateIndex <= LAST_RATE
  {
    if env.flush != OK then (Fault(l), env.flush)
    else match l.state
      case Operate => ReplyMissed(c, l, env)
      case Startup => if l.step == StepInactive then (l, PENDING) else AttemptFailed(c, l, env)
      case _ => (l, OK)
  }

  /** A checksum failure in PREOPERATE or OPERATE. */
  function ReplyBad(c: Config, l: Link, env: Env): (r: Link)
    ensures l.rateIndex <= LAST_RATE ==> r.rateIndex <= LAST_RATE
  {
    var m := CountBad(l, env);
    if m.retries < RX_RETRY_LIMIT then m.(retries := m.retries + 1) else Restart(c, m, env, false).0
  }

  function Undecodable(l: Link): Link
  {
    l.(diag := l.diag.(checksumErrors := Bump(l.diag.checksumErrors)))
  }

  function ReplyGood(l: Link, env: Env): Link
  {
    Note(l, Accepted(env.at)).(retries := 0, awaiting := false)
  }

  function Established(l: Link, env: Env): Link
  {
    Note(ReplyGood(l, env), EnterPreoperate(env.at)).(attempts := 0, state := Preoperate)
  }

  function Acknowledged(l: Link, env: Env, ack: byte): Link
  {
    Note(ReplyGood(l, env), EnterOperate(env.at, ack)).(state := Operate)
  }

  /** The cycle timer and its statistics are the same. */
  ghost predicate SameTimer(l: Link, t: Link)
  {
    && t.last == l.last && t.timerValid == l.timerValid
    && t.diag.slips == l.diag.slips && t.diag.jitter == l.diag.jitter && t.diag.maxJitter == l.diag.maxJitter
  }

  /** Put one frame on the line; the direction decides whether the reply carries OD octets. */
  function Transmit(l: Link, env: Env, kind: Kind, octets: seq<byte>): (r: (Link, bool))
    requires |octets| > 0
    ensures r.0.cycles == l.cycles && r.0.rateIndex == l.rateIndex && r.0.awaiting == l.awaiting && r.0.step == l.step
    ensures SameTimer(l, r.0) && r.0.phyRate == l.phyRate && r.0.phyMode == l.phyMode
    ensures r.0.state == l.state || r.0.state == Error
    ensures !r.1 ==> r.0.state == Error
  {
    if env.prepareTx != OK then (SendFault(l), false)
    else
      var ok := env.sent && env.prepareRx == OK;
      var m := Note(l, Sent(env.at, l.phyRate, kind, octets, ok));
      if ok then (m.(odExpected := McIsRead(octets[0])), true) else (SendFault(m), false)
  }

  /** The wake-up request, by its hook or as a 0x55 pattern. */
  function WakeUp(c: Config, l: Link, env: Env): (r: (Link, bool))
    ensures r.0.cycles == l.cycles && r.0.rateIndex == l.rateIndex && r.0.awaiting == l.awaiting && r.0.step == l.step
    ensures SameTimer(l, r.0) && r.0.phyRate == l.phyRate && r.0.phyMode == l.phyMode
    ensures r.0.state == l.state || r.0.state == Error
    ensures !r.1 ==> r.0.state == Error
  {
    if c.wakeHook then
      var m := Note(l, Wake(env.at, env.wake == OK));
      if env.wake == OK then (m, true) else (SendFault(m), false)
    else if env.prepareTx != OK then (SendFault(l), false)
    else
      var ok := env.sent && env.prepareRx == OK;
      var m := Note(l, Wake(env.at, ok));
      if ok then (m.(odExpected := false), true) else (SendFault(m), false)
  }

  /** A frame of this kind is what its receiver takes it for: the M-sequence control octet in full where it is
      fixed, else its channel. */
  predicate Suits(kind: Kind, octets: seq<byte>): (suits: bool)
    ensures suits ==> Framed(octets)
  {
    && Framed(octets)
    && match kind
       case TestMessage => octets[0] == 0xA2 && Accept(octets).value == Received(0xA2, 0, [])
       case OperateCommand => octets[0] == 0x20 && Accept(octets).value == Received(0x20, 0, [0x99])
       case Cyclic => octets[0] == 0
       case IsduFrame => octets[0] / 32 % 4 == 3
       case EventFrame => octets[0] / 32 % 4 == 2
  }

  /** The TYPE_0 read of MinCycleTime that serves as the test message (Table 46 T1). */
  function TestOctets(): (m: seq<byte>)
    ensures |m| == 2
  {
    Message(Mc(true, McPage, 2), 0, [])
  }

  /** The DeviceOperate MasterCommand (Table B.2). */
  function OperateOctets(): (m: seq<byte>)
    ensures |m| == 3
  {
    Message(Mc(false, McPage, 0), 0, [0x99])
  }

  lemma FixedFramesSuit()
    ensures Suits(TestMessage, TestOctets()) && Suits(OperateCommand, OperateOctets())
  {
    hide Checksum6;
    MessageIsFramed(0xA2, 0, []);
    MessageRoundTrip(0xA2, 0, []);
    MessageIsFramed(0x20, 0, [0x99]);
    MessageRoundTrip(0x20, 0, [0x99]);
  }

  /** The octets themselves, checksums included, and those of a reply with MinCycleTime 1E. */
  lemma FixedFramesAre()
    ensures TestOctets() == [0xA2, 0x00] && OperateOctets() == [0x20, 0x06, 0x99]
    ensures Reply([0x1E], false, false) == [0x1E, 0x28]
  {
    hide Checksum6;
    LiteralChecksums();
    assert [0xA2, 0] + [] == [0xA2, 0] && [0x20, 0] + [0x99] == [0x20, 0, 0x99] && [0x1E] + [0] == [0x1E, 0];
  }

  function ProcessWake(c: Config, l: Link, env: Env): (r: Link)
    ensures r.cycles == l.cycles && r.rateIndex == l.rateIndex && SameTimer(l, r)
  {
    var (w, ok) := WakeUp(c, l, env);
    if ok then Arm(w.(step := StepSend), env, T_REN + TDmt(c, RateOf(c, w))) else w
  }

  function ProcessTest(c: Config, l: Link, env: Env): (r: Link)
    ensures r.cycles == l.cycles && r.rateIndex == l.rateIndex && SameTimer(l, r)
  {
    var (t, ok) := Transmit(l, env, TestMessage, TestOctets());
    if ok then
      t.(step := StepAwait, deadline := Later(Now(env), TestWindow(c, RateOf(c, t))), awaiting := true)
    else t
  }

  function ProcessStartup(c: Config, l: Link, env: Env): (r: Link)
    ensures r.cycles == l.cycles && r.rateIndex == l.rateIndex && SameTimer(l, r)
  {
    match l.step
    case StepInactive =>
      if env.mode != OK then Fault(l) else ProcessWake(c, l.(phyMode := Sdci, step := StepWake), env)
    case StepWake => ProcessWake(c, l, env)
    case StepSend => ProcessTest(c, l, env)
    case _ => l
  }

  predicate Gated(l: Link, env: Env)
  {
    l.readyValid && Now(env) < l.readyAt
  }

  // ---- received replies --------------------------------------------------

  predicate NoProcessData(c: Config)
  {
    c.mseq == Type0 && c.pdInLen == 0 && c.pdOutLen == 0
  }

  ghost predicate Wf(p: Port)
  {
    && I.Wf(p.isdu) && E.Wf(p.event)
    && Initialisable(p.config)
    && |p.pdOut| == p.config.pdOutLen
    && p.link.rateIndex <= LAST_RATE
  }

  /** OD octets go to the event readout while it is engaged, else to the ISDU transport. */
  function RouteOd(p: Port, od: seq<byte>): (r: Port)
    requires Wf(p)
    ensures Wf(r) && r.link == p.link && r.config == p.config
  {
    if E.Engaged(p.event) then p.(event := E.Route(p.event, od)) else p.(isdu := I.OnOd(p.isdu, od))
  }

  function OnShortReply(p: Port, data: seq<byte>, env: Env): (r: (Port, int))
    requires Wf(p) && |data| > 0
    ensures Wf(r.0) && r.0.config == p.config
  {
    if |data| != 2 then (p, ERR_FRAME)
    else if !ReplyOk(data) then (p.(link := ReplyBad(p.config, p.link, env)), ERR_CHECKSUM)
    else (RouteOd(p.(link := ReplyGood(p.link, env)), data[..1]), OK)
  }

  function OnCyclicReply(p: Port, data: seq<byte>, env: Env): (r: (Port, int))
    requires Wf(p) && |data| > 0
    ensures Wf(r.0) && r.0.config == p.config
  {
    match DecodeReply(data, p.config.pdInLen, if p.link.odExpected then OdLen(p.config.mseq) else 0)
    case None => (p, ERR_FRAME)
    case Some(r) =>
      if !r.ok then (p.(link := ReplyBad(p.config, p.link, env)), ERR_CHECKSUM)
      else
        var q := p.(link := ReplyGood(p.link, env), odStatus := r.status, eventPending := r.event);
        (RouteOd(if r.pdValid then q.(pdIn := r.pd, pdValid := true) else q, r.od), OK)
  }

  function OnRx(p: Port, data: seq<byte>, env: Env): (r: (Port, int))
    requires Wf(p) && |data| > 0
    ensures Wf(r.0) && r.0.config == p.config
  {
    if p.link.state == Startup then
      if p.link.step != StepAwait || |data| != 2 then (p, ERR_FRAME)
      else if !ReplyOk(data) then (p.(link := Undecodable(p.link)), ERR_CHECKSUM)
      else (p.(link := Established(p.link, env), info := p.info.(minCycleOctet := data[0])), OK)
    else if p.link.state == Preoperate && p.link.step == StepAck then
      if |data| != 1 then (p, ERR_FRAME)
      else if !ReplyOk(data) then (p.(link := ReplyBad(p.config, p.link, env)), ERR_CHECKSUM)
      else (p.(link := Acknowledged(p.link, env, data[0]), eventPending := data[0] >= 128), OK)
    else if p.link.state == Preoperate || (p.link.state == Operate && NoProcessData(p.config)) then
      OnShortReply(p, data, env)
    else OnCyclicReply(p, data, env)
  }

  predicate Receiving(l: Link)
  {
    (l.state == Startup && l.step == StepAwait) || l.state == Preoperate || l.state == Operate
  }

  /** Octets of the reply a poll waits for. */
  function ExpectedLen(p: Port): (n: nat)
    ensures 0 < n
  {
    match p.link.state
    case Preoperate => if p.link.step == StepAck then 1 else 2
    case Operate =>
      var od := if NoProcessData(p.config) || p.link.odExpected then OdLen(p.config.mseq) else 0;
      p.config.pdInLen + od + 1
    case _ => 2
  }

  function PollOctets(p: Port, env: Env, octets: seq<byte>, expected: nat, frames: nat): (r: (Port, int))
    requires Wf(p)
    ensures Wf(r.0) && r.0.config == p.config
    decreases |octets|
  {
    if octets == [] then
      if env.rxFault then (p.(link := Fault(p.link), rx := []), ERR_FRAME) else (p, frames)
    else if |p.rx| >= FRAME_BUF then (p.(link := Fault(p.link), rx := []), ERR_CHECKSUM)
    else
      var q := p.(rx := p.rx + [octets[0]]);
      if |q.rx| < expected then PollOctets(q, env, octets[1..], expected, frames)
      else
        var (t, ret) := OnRx(q, q.rx, env);
        if ret != OK then (t.(rx := []), ret) else PollOctets(t.(rx := []), env, octets[1..], expected, frames + 1)
  }

  /** Read what the PHY has received and handle every whole reply. */
  function Poll(p: Port, env: Env): (r: (Port, int))
    requires Wf(p)
    ensures Wf(r.0) && r.0.config == p.config
  {
    if Receiving(p.link) then PollOctets(p, env, env.rx, ExpectedLen(p), 0) else (p, OK)
  }

  // ---- outgoing frames -----------------------------------------------------

  lemma DiagnosisSuits(read: bool, address: byte, mseq: MSequence, pdOut: seq<byte>, od: seq<byte>)
    requires |pdOut| <= PD_MAX && |od| <= OD_MAX
    ensures Suits(EventFrame, Typed(Mc(read, McDiagnosis, address), mseq, pdOut, od))
  {
    hide Message, Framed, Mc, TypeBits;
    ChannelBits(read, McDiagnosis, address);
    MessageIsFramed(Mc(read, McDiagnosis, address), TypeBits(mseq), pdOut + od);
  }

  /** The diagnosis-channel frame of an engaged event service. */
  function EventOctets(p: Port): (m: seq<byte>)
    requires Wf(p)
    ensures Suits(EventFrame, m)
  {
    hide Typed, Suits, Mc, I.Wf;
    var read := p.event.phase == E.EventRead;
    var od := if read then [] else Zeros(OdLen(p.config.mseq));
    DiagnosisSuits(read, p.event.addr, p.config.mseq, p.pdOut, od);
    Typed(Mc(read, McDiagnosis, p.event.addr), p.config.mseq, p.pdOut, od)
  }

  function SendEvent(p: Port, env: Env): (r: (Port, bool))
    requires Wf(p)
    ensures Wf(r.0) && r.0.config == p.config
  {
    if !E.Engaged(p.event) then (p, false)
    else
      var (l, sent) := Transmit(p.link, env, EventFrame, EventOctets(p));
      (p.(link := l, event := E.OnSent(p.event, sent)), true)
  }

  /** An ISDU-channel frame: typed in OPERATE, TYPE_0 layout otherwise. */
  function IsduOctets(p: Port, read: bool, flow: byte, od: seq<byte>): (m: seq<byte>)
    requires Wf(p) && |od| <= OD_MAX
    ensures Suits(IsduFrame, m)
  {
    hide Message, Framed, Mc, TypeBits;
    ChannelBits(read, McIsdu, flow);
    var mc := Mc(read, McIsdu, flow);
    MessageIsFramed(mc, TypeBits(p.config.mseq), p.pdOut + od);
    MessageIsFramed(mc, 0, od);
    if p.link.state == Operate && p.config.mseq != Type0 then Typed(mc, p.config.mseq, p.pdOut, od)
    else Message(mc, 0, od)
  }

  /** The ISDU frame that is due, if any, and the transport after handing it over: ABORT first, then IDLE. */
  function NextIsdu(p: Port): (r: Option<(I.Isdu, seq<byte>)>)
    requires Wf(p)
    ensures r.Some? ==> I.Wf(r.value.0) && Suits(IsduFrame, r.value.1)
  {
    hide Suits;
    if p.isdu.abortPending then Some((I.TakeAbort(p.isdu), IsduOctets(p, true, I.ABORT, [])))
    else if p.isdu.idlePending then Some((I.TakeIdle(p.isdu), IsduOctets(p, true, I.IDLE, [])))
    else match I.ChannelAccess(p.isdu)
      case Quiet => None
      case Access(read, flow) =>
        var w := OdLen(p.config.mseq);
        Some((I.Fill(p.isdu, w), IsduOctets(p, read, flow, if read then [] else I.FillOctets(p.isdu, w))))
  }

  function SendIsdu(p: Port, env: Env): (r: (Port, bool))
    requires Wf(p)
    ensures Wf(r.0) && r.0.config == p.config
  {
    match NextIsdu(p)
    case None => (p, false)
    case Some((isdu, octets)) => (p.(link := Transmit(p.link, env, IsduFrame, octets).0, isdu := isdu), true)
  }

  predicate ValidationRequired(c: Config) { c.validate || c.inspection != NoCheck }

  /** Read Direct Parameter page 1 over ISDU, store it and validate it. */
  function ReadDeviceInfo(p: Port): (r: (Port, int))
    requires Wf(p)
    ensures Wf(r.0) && r.0.link == p.link && r.0.config == p.config
  {
    I.ServicesKeepWf(p.isdu, true, Request(true, 0, 0, []), PAGE_LEN);
    var (isdu, reply) := I.Read(p.isdu, true, 0, 0, PAGE_LEN);
    if reply.ret != OK then (p.(isdu := isdu), reply.ret)
    else
      var (ret, info) := Parse(reply.data, p.info);
      if ret != OK then (p.(isdu := isdu), ret) else (p.(isdu := isdu, info := info), Validate(info, p.config))
  }

  function SendOperate(p: Port, env: Env): (r: Port)
    ensures r == p.(link := r.link) && r.link.rateIndex == p.link.rateIndex
  {
    var (l, sent) := Transmit(p.link, env, OperateCommand, OperateOctets());
    p.(link := if sent then l.(step := StepAck) else l)
  }

  function Commission(p: Port, env: Env): (r: Port)
    ensures r == p.(link := r.link) && r.link.rateIndex == p.link.rateIndex
  {
    if ValidationRequired(p.config) && Validate(p.info, p.config) != OK then p.(link := Fault(p.link))
    else SendOperate(p, env)
  }

  function ProcessPreoperate(p: Port, env: Env): (r: Port)
    requires Wf(p)
    ensures Wf(r) && r.config == p.config
  {
    if E.Engaged(p.event) then SendEvent(p, env).0
    else if NextIsdu(p).Some? then SendIsdu(p, env).0
    else if ValidationRequired(p.config) && !p.info.valid then
      var (q, ret) := ReadDeviceInfo(p);
      if ret == PENDING then q else if ret < 0 then q.(link := Fault(q.link)) else Commission(q, env)
    else Commission(p, env)
  }

  lemma TypedCyclicSuits(mseq: MSequence, pdOut: seq<byte>, od: seq<byte>)
    requires |pdOut| <= PD_MAX && |od| <= OD_MAX
    ensures Suits(Cyclic, Typed(Mc(false, McProcess, 0), mseq, pdOut, od))
  {
    hide Message, Framed, Mc, TypeBits;
    ProcessMc();
    MessageIsFramed(0, TypeBits(mseq), pdOut + od);
  }

  lemma ShortCyclicSuits(octet: byte)
    ensures Framed(Message(octet, 0, [])) && (octet == 0 ==> Suits(Cyclic, Message(octet, 0, [])))
  {
    hide Message, Framed;
    MessageIsFramed(octet, 0, []);
  }

  lemma QuietFillsZeros(p: Port)
    requires Wf(p) && NextIsdu(p).None?
    ensures I.FillOctets(p.isdu, 1)[0] == 0
  {
    hide IsduOctets, I.Fill, E.Wf;
  }

  function CyclicOctets(p: Port): (m: seq<byte>)
    requires Wf(p)
    ensures Framed(m) && (NextIsdu(p).None? ==> Suits(Cyclic, m))
  {
    hide Message, Framed, Typed, NextIsdu, Mc, I.FillOctets;
    var w := OdLen(p.config.mseq);
    var octet := I.FillOctets(p.isdu, 1)[0];
    TypedCyclicSuits(p.config.mseq, p.pdOut, I.FillOctets(p.isdu, w));
    ShortCyclicSuits(octet);
    assert NextIsdu(p).None? ==> octet == 0 by { if NextIsdu(p).None? { QuietFillsZeros(p); } }
    if NoProcessData(p.config) then Message(octet, 0, [])
    else Typed(Mc(false, McProcess, 0), p.config.mseq, p.pdOut, I.FillOctets(p.isdu, w))
  }

  function SendCyclic(p: Port, env: Env): (r: Port)
    requires Wf(p)
    ensures Wf(r) && r.config == p.config
  {
    var (l, sent) := Transmit(p.link, env, Cyclic, CyclicOctets(p));
    p.(isdu := I.Fill(p.isdu, OdLen(p.config.mseq)), link := if sent then l.(cycles := Bump(l.cycles)) else l)
  }

  function ProcessOperate(p: Port, env: Env): (r: Port)
    requires Wf(p)
    ensures Wf(r) && r.config == p.config
  {
    if E.Engaged(p.event) then SendEvent(p, env).0
    else if NextIsdu(p).Some? then SendIsdu(p, env).0
    else SendCyclic(p, env)
  }

  function Process(p: Port, env: Env): (r: Port)
    requires Wf(p)
    ensures Wf(r) && r.config == p.config
  {
    if Gated(p.link, env) then p
    else match p.link.state
      case Startup => p.(link := ProcessStartup(p.config, p.link, env))
      case Preoperate => ProcessPreoperate(p, env)
      case Operate => ProcessOperate(p, env)
      case _ => p
  }

  // ---- the tick ------------------------------------------------------------

  predicate Paced(c: Config, l: Link)
  {
    l.state == Operate && c.minCycle != 0 && l.timerValid
  }

  /** The comparison that decides a cycle is wrap-safe. */
  predicate CycleDue(c: Config, l: Link, now: u32)
  {
    Paced(c, l) ==> Elapsed(now, l.last) >= c.minCycle
  }

  function Jitter(c: Config, l: Link, now: u32): (j: u32)
  {
    if Paced(c, l) && Elapsed(now, l.last) > c.minCycle then Elapsed(now, l.last) - c.minCycle else 0
  }

  /** Account for a cyclic frame just sent. */
  function CycleStarted(c: Config, l: Link, env: Env): Link
  {
    var j := Jitter(c, l, Now(env));
    l.(diag := l.diag.(slips := if j > 0 then Bump(l.diag.slips) else l.diag.slips, jitter := j,
                       maxJitter := Max(l.diag.maxJitter, j)),
       last := Now(env), deadline := Later(Now(env), ResponseTimeout(c, RateOf(c, l))), timerValid := true,
       awaiting := true)
  }

  datatype TickEvent = TickNone | TickCycleDue | TickResponseTimeout

  function RunCycle(p: Port, env: Env): (r: Port)
    requires Wf(p)
    ensures Wf(r) && r.config == p.config
  {
    if p.link.awaiting || !CycleDue(p.config, p.link, Now(env)) then p
    else
      var q := Process(p, env);
      if q.link.cycles != p.link.cycles then q.(link := CycleStarted(q.config, q.link, env)) else q
  }

  function Tick(p: Port, event: TickEvent, env: Env): (r: (Port, int))
    requires Wf(p)
    ensures Wf(r.0) && r.0.config == p.config
  {
    var (q, ret) := Poll(p, env);
    if ret < 0 then (q, ret)
    else match event
      case TickNone => (q, ret)
      case TickResponseTimeout =>
        if !q.link.awaiting then (q, ret)
        else
          var (l, code) := OnTimeout(q.config, q.link.(awaiting := false), env);
          (q.(link := l, rx := []), if code != OK then code else ret)
      case TickCycleDue => (RunCycle(q, env), ret)
  }

  predicate ResponseDue(l: Link, now: u32)
  {
    l.awaiting && now >= l.deadline
  }

  /** The tick a controller gives the port. */
  function Drive(p: Port, env: Env): (r: (Port, int))
    requires Wf(p)
    ensures Wf(r.0) && r.0.config == p.config
  {
    Tick(p, if ResponseDue(p.link, Now(env)) then TickResponseTimeout else TickCycleDue, env)
  }

  /** When the port next wants a tick. */
  function NextTick(c: Config, l: Link, now: u32): u32
  {
    if l.state == Inactive || l.state == Error then now
    else if l.awaiting then (if now >= l.deadline then now else l.deadline)
    else if l.state == Startup && l.readyValid && now < l.readyAt then l.readyAt
    else if !Paced(c, l) then now
    else
      var due := Later(l.last, c.minCycle);
      if now >= due then now else due
  }

  // ---- whole runs --------------------------------------------------------

  /** The line mode initialisation leaves the PHY in. */
  function InitialMode(c: Config): Mode
  {
    match c.portMode case ModeIoLink => Sdci case ModeDeactivated => Sleeping case _ => Sio
  }

  /** The port fields after initialisation, with the PHY at a given rate and mode. */
  function Reset(c: Config, cap: nat, rate: Rate, mode: Mode): Port
  {
    var state := if c.portMode == ModeIoLink then Startup else Inactive;
    var link := Link(state, StepWake, 0, 0, 0, 0, 0, 0, 0, false, false, false, false,
                     Diagnostics(0, 0, 0, 0, 0, 0, 0), rate, mode, []);
    Port(c, link, I.Fresh(cap), E.Quiet(), NoDevice(), [], [], false, Zeros(c.pdOutLen), 0, false)
  }

  function FirstRate(c: Config): Rate { if c.autoRate then COM3 else c.rate }

  /** A port after initialisation. Only an IO-Link port sets the rate; for others this is the port of a
      PHY that was at this rate before. */
  function Initial(c: Config, cap: nat): Port
  {
    Reset(c, cap, FirstRate(c), InitialMode(c))
  }

  lemma InitialIsWf(c: Config, cap: nat, rate: Rate, mode: Mode)
    requires Initialisable(c) && 16 <= cap <= 256
    ensures Wf(Initial(c, cap)) && Wf(Reset(c, cap, rate, mode))
  {
  }

  /** Initialisation: check the arguments, then bring up the PHY for the port mode. What the PHY refuses
      it has not done. */
  function InitPort(before: Port, c: Config, cap: nat, phyInit: int, env: Env): (Port, int)
  {
    var p := Reset(c, cap, before.link.phyRate, before.link.phyMode);
    var tuned := Reset(c, cap, FirstRate(c), before.link.phyMode);
    if !Initialisable(c) then (before, ERR_INVALID_ARG)
    else if phyInit != OK then (Broken(p), phyInit)
    else if c.portMode != ModeIoLink then
      (if env.mode != OK then (Broken(p), env.mode) else (Started(before, c, cap), OK))
    else if env.flush != OK then (Broken(p), env.flush)
    else if env.rate != OK then (Broken(p), env.rate)
    else if env.mode != OK then (Broken(tuned), env.mode)
    else (Started(before, c, cap), OK)
  }

  /** Initialisation refuses exactly the configurations whose process data does not fit a frame or its type, and then
      leaves the port alone; any other becomes the port's. */
  lemma InitRefusesExactly(before: Port, c: Config, cap: nat, phyInit: int, env: Env)
    ensures var fits := c.pdInLen <= 32 && c.pdOutLen <= 32 && (c.mseq == Type0 ==> c.pdInLen == 0 && c.pdOutLen == 0);
            var (p, ret) := InitPort(before, c, cap, phyInit, env);
            if fits then p.config == c && !p.pdValid && !p.link.awaiting && p.link.log == []
            else (p, ret) == (before, -1)
  {
  }

  /** Else it returns what the PHY first refuses, and the port is in ERROR exactly if it refuses anything; what it was
      not asked or refused is as before. */
  lemma InitTellsFirstRefusal(before: Port, c: Config, cap: nat, phyInit: int, env: Env)
    requires c.pdInLen <= 32 && c.pdOutLen <= 32 && (c.mseq == Type0 ==> c.pdInLen == 0 && c.pdOutLen == 0)
    ensures var io := c.portMode == ModeIoLink;
            var (p, ret) := InitPort(before, c, cap, phyInit, env);
            && ret == (if phyInit != 0 then phyInit
                       else if io && env.flush != 0 then env.flush
                       else if io && env.rate != 0 then env.rate
                       else env.mode)
            && (p.link.state == Error <==> ret != 0)
            && (ret == 0 ==> p.link.state == if io then Startup else Inactive)
            && (ret != 0 ==> p.link.phyMode == before.link.phyMode)
            && p.link.phyRate == (if io && phyInit == 0 && env.flush == 0 && env.rate == 0 then FirstRate(c)
                                  else before.link.phyRate)
  {
  }

  /** The port successful initialisation leaves: only an IO-Link port changes the PHY's rate. */
  function Started(before: Port, c: Config, cap: nat): Port
  {
    Reset(c, cap, if c.portMode == ModeIoLink then FirstRate(c) else before.link.phyRate, InitialMode(c))
  }

  function Broken(p: Port): Port { p.(link := Fault(p.link)) }
}
