/** Services carried by a port tick by tick: sending a frame and receiving its reply is one exchange
    of the ISDU transport, or of the event readout, and whole runs of such rounds are theirs. */
module PortExchange {
  import opened Status
  import opened Octets
  import opened IsduCodec
  import opened DeviceParameters
  import opened Frames
  import opened Port
  import opened PortMoves
  import opened PortServices
  import X = IsduExchange
  import I = IsduTransport
  import E = EventMemory

  // ---- ports between two M-sequences ----------------------------------------------

  /** A communicating port at rest: no reply outstanding, nothing half received. In PREOPERATE frames have the
      TYPE_0 layout, whose replies carry one OD octet. */
  predicate Between(p: Port)
  {
    && Communicating(p.link) && !p.link.awaiting && p.rx == []
    && (p.link.state == Preoperate ==> p.link.step != StepAck && OdLen(p.config.mseq) == 1)
  }

  /** Ports that frame every reply as one OD octet and CKS, whatever the direction of the request: any port in
      PREOPERATE, and a port without process data in OPERATE. */
  predicate Short(p: Port) { p.link.state == Preoperate || NoProcessData(p.config) }

  /** Process data octets of a reply. */
  function PdLen(p: Port): nat { if Short(p) then 0 else p.config.pdInLen }

  /** OD octets of the reply a port waits for. */
  function OdDue(p: Port): nat
  {
    if Short(p) then 1 else if p.link.odExpected then OdLen(p.config.mseq) else 0
  }

  /** A tick at this time may start an M-sequence, and the PHY sends it. */
  predicate CanSend(p: Port, env: Env)
  {
    && Clear(p.link, env) && CycleDue(p.config, p.link, Now(env)) && env.rx == [] && !env.rxFault
    && env.prepareTx == OK && env.sent && env.prepareRx == OK
  }

  /** A whole reply arrives in one tick. */
  lemma WholeReplyTick(p: Port, env: Env)
    requires Wf(p) && Receiving(p.link) && p.rx == [] && !env.rxFault && |env.rx| == ExpectedLen(p)
    ensures Wf(p.(rx := env.rx))
    ensures var (t, ret) := OnRx(p.(rx := env.rx), env.rx, env);
            Tick(p, TickNone, env) == (t.(rx := []), if ret == OK then 1 else ret)
  {
    hide Wf, OnRx, PollOctets, ExpectedLen;
    assert p.rx + env.rx == env.rx;
    ExpectedFits(p);
    CompletingPoll(p, env, env.rx, ExpectedLen(p));
  }

  lemma WideReply(p: Port, env: Env, od: seq<byte>, pd: seq<byte>, event: bool, invalid: bool)
    requires Wf(p) && p.link.state == Operate && !NoProcessData(p.config)
    requires |pd| == PdLen(p) && |od| == OdDue(p)
    ensures var data := Reply(od + pd, event, invalid);
            var q := p.(link := ReplyGood(p.link, env), odStatus := data[|data| - 1], eventPending := event,
                        pdIn := if invalid then p.pdIn else pd, pdValid := p.pdValid || !invalid);
            Wf(q) && OnRx(p, data, env) == (RouteOd(q, od), OK)
  {
    hide I.Wf, E.Wf, Reply, DecodeReply, RouteOd, ReplyBad;
    ReplyRoundTrip(od, pd, event, invalid);
    ReplyStatus(od, pd, event, invalid);
    var data := Reply(od + pd, event, invalid);
    var r := DecodeReply(data, |pd|, |od|).value;
    assert r.status == data[|data| - 1];
  }

  lemma ReplyStatus(od: seq<byte>, pd: seq<byte>, event: bool, invalid: bool)
    ensures var data := Reply(od + pd, event, invalid);
            var r := DecodeReply(data, |pd|, |od|); r.Some? && r.value.status == data[|data| - 1]
  {
    hide Checksum6, ReplyOk;
  }

  lemma ShortReply(p: Port, env: Env, od: seq<byte>, event: bool, invalid: bool)
    requires Wf(p) && Between(p.(rx := [])) && Short(p) && |od| == 1
    ensures var q := p.(link := ReplyGood(p.link, env));
            Wf(q) && OnRx(p, Reply(od, event, invalid), env) == (RouteOd(q, od), OK)
  {
    hide I.Wf, E.Wf, RouteOd, ReplyBad, Checksum6;
    var data := Reply(od, event, invalid);
    ReplyRoundTrip(od, [], event, invalid);
    assert od + [] == od;
    assert data[..1] == od;
  }

  /** A conformant reply is accepted, and its OD octets are routed. */
  lemma ReplyIsRouted(p: Port, env: Env, od: seq<byte>, pd: seq<byte>, event: bool, invalid: bool)
    requires Wf(p) && Between(p) && |pd| == PdLen(p) && |od| == OdDue(p)
    requires env.rx == Reply(od + pd, event, invalid) && !env.rxFault
    ensures var (t, ret) := Tick(p, TickNone, env);
            && Wf(t) && Between(t) && ret == 1
            && t.config == p.config && t.pdOut == p.pdOut && t.link.state == p.link.state
            && t.isdu == (if E.Engaged(p.event) then p.isdu else I.OnOd(p.isdu, od))
            && t.event == (if E.Engaged(p.event) then E.Route(p.event, od) else p.event)
            && t.pdIn == (if Short(p) || invalid then p.pdIn else pd)
            && t.link.retries == 0 && SameTimer(p.link, t.link)
  {
    hide I.Wf, E.Wf, OnRx, Reply, I.OnOd, E.Route;
    var q := p.(rx := env.rx);
    WholeReplyTick(p, env);
    if Short(p) {
      assert od + pd == od;
      ShortReply(q, env, od, event, invalid);
    } else {
      WideReply(q, env, od, pd, event, invalid);
    }
  }

  // ---- a round is one exchange of the transport -------------------------------------

  /** A tick that may send puts the due ISDU frame on the line. */
  lemma IsduTick(p: Port, env: Env)
    requires Wf(p) && Between(p) && CanSend(p, env) && !E.Engaged(p.event) && NextIsdu(p).Some?
    ensures var t, (isdu, m) := Tick(p, TickCycleDue, env).0, NextIsdu(p).value;
            && t == p.(isdu := isdu, link := t.link)
            && t.link.state == p.link.state && t.link.step == p.link.step
            && !t.link.awaiting && t.link.odExpected == McIsRead(m[0])
            && t.link.log == p.link.log + [Sent(env.at, p.link.phyRate, IsduFrame, m, true)]
            && t.link.retries == p.link.retries && SameTimer(p.link, t.link)
  {
    hide Wf, NextIsdu, CycleStarted, CycleDue, PollOctets;
    IdleTick(p, env);
  }

  lemma IdleTick(p: Port, env: Env)
    requires Wf(p) && env.rx == [] && !env.rxFault
    ensures Poll(p, env) == (p, OK)
  {
    hide Wf;
  }

  /** The transport wants the channel: to signal an error of a service that is over, to conclude a service, or to
      carry on with one. */
  predicate Active(s: I.Isdu)
  {
    if s.abortPending then s.done || s.op == I.OpNone else s.idlePending || I.ChannelAccess(s).Access?
  }

  /** The M-sequence an active transport asks for. */
  function Wanted(s: I.Isdu): I.Access
    requires Active(s)
  {
    if s.abortPending then I.Access(true, I.ABORT)
    else if s.idlePending then I.Access(true, I.IDLE)
    else I.ChannelAccess(s)
  }

  /** The message a device makes of the ISDU frame the port sends. */
  function Heard(p: Port): Received
    requires Wf(p) && NextIsdu(p).Some?
  {
    Accept(NextIsdu(p).value.1).value
  }

  /** The OD octets after the process data the device expects. */
  function HeardOd(p: Port): seq<byte>
    requires Wf(p) && NextIsdu(p).Some?
  {
    var body, n := Heard(p).body, if IsTyped(p) then p.config.pdOutLen else 0;
    if n <= |body| then body[n..] else []
  }

  predicate HeardRead(p: Port)
    requires Wf(p) && NextIsdu(p).Some?
  {
    McIsRead(Heard(p).mc)
  }

  /** What a device does with the frame, by the direction, FlowCTRL and OD it heard, and the OD octets of its reply. */
  function DeviceTurn(p: Port, d: X.Device): (X.Device, seq<byte>)
    requires Wf(p) && NextIsdu(p).Some?
  {
    var flow := McAddress(Heard(p).mc);
    if HeardRead(p) then X.OnRead(d, flow, OdLen(p.config.mseq)) else (X.OnWrite(d, flow, HeardOd(p)), [])
  }

  /** What goes out is what the transport asks for. */
  lemma WantedIsHeard(p: Port)
    requires Wf(p) && Active(p.isdu)
    ensures NextIsdu(p).Some? && McIsRead(NextIsdu(p).value.1[0]) == HeardRead(p) == Wanted(p.isdu).read
    ensures McAddress(Heard(p).mc) == Wanted(p.isdu).flow
    ensures HeardOd(p) == if HeardRead(p) then [] else I.FillOctets(p.isdu, OdLen(p.config.mseq))
    ensures NextIsdu(p).value.0
         == if p.isdu.abortPending then I.TakeAbort(p.isdu)
            else if p.isdu.idlePending then I.TakeIdle(p.isdu) else I.Fill(p.isdu, OdLen(p.config.mseq))
  {
    hide I.Fill, I.FillOctets, E.Wf, I.Assembling, NextIsdu, Suits, Message, CarriesIsdu, Heard, HeardOd, HeardRead,
         McAddress, Accept;
    IsduFrameCarriesRequest(p);
    var wanted := Wanted(p.isdu);
    var od := if wanted.read then [] else I.FillOctets(p.isdu, OdLen(p.config.mseq));
    HeardAs(p, wanted.read, wanted.flow, od);
  }

  lemma HeardAs(p: Port, read: bool, flow: byte, od: seq<byte>)
    requires Wf(p) && NextIsdu(p).Some? && CarriesIsdu(p, NextIsdu(p).value.1, read, flow, od) && flow < 32
    ensures McIsRead(NextIsdu(p).value.1[0]) == HeardRead(p) == read
    ensures McAddress(Heard(p).mc) == flow && HeardOd(p) == od
  {
    hide I.Wf, E.Wf, NextIsdu, Suits, Accept;
    FrameStart(NextIsdu(p).value.1);
  }

  lemma FrameStart(octets: seq<byte>)
    requires Framed(octets)
    ensures Accept(octets).value.mc == octets[0]
  {
  }

  /** A lock-step round: when the port sends and when the reply comes, its process data and flags, and the OD
      octets it carries if the frame was a write. */
  datatype Exchanged = Exchanged(send: Env, receive: Env, filler: seq<byte>, pd: seq<byte>, event: bool, invalid: bool)

  /** OD octets of the reply: the device's answer to a read, the filler after a write. */
  function ReplyOd(p: Port, d: X.Device, r: Exchanged): seq<byte>
    requires Wf(p) && NextIsdu(p).Some?
  {
    if HeardRead(p) then DeviceTurn(p, d).1 else r.filler
  }

  /** What the reply to a write must carry for the port to take it: nothing, or on a short port one OD octet,
      which must be an idle one if the request is complete. */
  predicate Settled(p: Port, filler: seq<byte>)
    requires Wf(p)
  {
    if !Short(p) then filler == []
    else |filler| == 1 && (filler[0] <= 1 || I.Fill(p.isdu, OdLen(p.config.mseq)).phase != I.PhaseWait)
  }

  /** The port can send, and the reply of the round arrives. */
  predicate Brings(p: Port, d: X.Device, r: Exchanged)
    requires Wf(p)
  {
    && Active(p.isdu) && NextIsdu(p).Some? && CanSend(p, r.send) && |r.pd| == PdLen(p)
    && r.receive.rx == Reply(ReplyOd(p, d, r) + r.pd, r.event, r.invalid) && !r.receive.rxFault
    && (HeardRead(p) ==> |ReplyOd(p, d, r)| == OdLen(p.config.mseq))
  }

  /** The reply is one the port takes. */
  predicate Takes(p: Port, r: Exchanged)
    requires Wf(p) && NextIsdu(p).Some?
  {
    HeardRead(p) || Settled(p, r.filler)
  }

  function AfterRound(p: Port, r: Exchanged): (t: Port)
    requires Wf(p)
    ensures Wf(t)
  {
    Tick(Tick(p, TickCycleDue, r.send).0, TickNone, r.receive).0
  }

  /** Sending a frame and receiving its reply, as two ticks of a port, is one exchange of the transport, the device
      going by the octets that were on the line. */
  lemma TicksAreExchange(p: Port, d: X.Device, r: Exchanged)
    requires Wf(p) && Between(p) && !E.Engaged(p.event) && Brings(p, d, r) && Takes(p, r)
    ensures var t := AfterRound(p, r);
            && Between(t) && t.config == p.config && t.event == p.event && SameTimer(p.link, t.link)
            && t.link.state == p.link.state
            && (t.isdu, DeviceTurn(p, d).0) == X.Exchange(p.isdu, d, OdLen(p.config.mseq))
    ensures Tick(p, TickCycleDue, r.send).0.link.log
         == p.link.log + [Sent(r.send.at, p.link.phyRate, IsduFrame, NextIsdu(p).value.1, true)]
  {
    hide I.Wf, E.Wf, Tick, NextIsdu, I.OnOd, I.Fill, X.OnRead, X.OnWrite, CycleDue, Reply, Heard, Suits;
    WantedIsHeard(p);
    IsduTick(p, r.send);
    ReplyIsRouted(Tick(p, TickCycleDue, r.send).0, r.receive, ReplyOd(p, d, r), r.pd, r.event, r.invalid);
    if !HeardRead(p) { FillerIsIgnored(p, r.filler); }
    if p.isdu.abortPending { AbortExchange(p, d, DeviceTurn(p, d).1); }
  }

  /** An ABORT read silences the device, and its reply finds no service listening. */
  lemma AbortExchange(p: Port, d: X.Device, od: seq<byte>)
    requires Wf(p) && Active(p.isdu) && p.isdu.abortPending
    ensures X.OnRead(d, I.ABORT, OdLen(p.config.mseq)).0 == d.(link := X.Silent)
    ensures I.OnOd(I.TakeAbort(p.isdu), od) == I.TakeAbort(p.isdu)
  {
    hide E.Wf, I.Assembling;
    I.DeafToOctets(I.TakeAbort(p.isdu), od);
  }

  lemma FillerIsIgnored(p: Port, filler: seq<byte>)
    requires Wf(p) && Settled(p, filler) && p.isdu.phase == I.PhaseRequest && !p.isdu.done
    ensures var s := I.Fill(p.isdu, OdLen(p.config.mseq)); I.OnOd(s, filler) == s
  {
    hide E.Wf, I.Assembling;
    if |filler| == 1 { assert filler[..0] == []; }
  }

  // ---- exactly when a short port completes a round -----------------------------------

  /** On a short port a round is one exchange, the port at rest after it, exactly when its frame is a read or the
      reply to the write carries one OD octet that the transport does not take for a response. A device that
      answers a write with CKS alone (Figure A.5) leaves the port one octet behind. */
  lemma ShortRoundIsExchangeExactly(p: Port, d: X.Device, r: Exchanged)
    requires Wf(p) && Between(p) && Short(p) && !E.Engaged(p.event) && Brings(p, d, r) && |r.filler| <= 1
    ensures var t := AfterRound(p, r);
            (Between(t) && t.isdu == X.Exchange(p.isdu, d, OdLen(p.config.mseq)).0) <==> Takes(p, r)
    ensures !HeardRead(p) && r.filler == [] ==> AfterRound(p, r).rx == Reply([], r.event, r.invalid)
  {
    hide I.Wf, E.Wf, Tick, NextIsdu, I.OnOd, I.Fill, X.OnRead, X.OnWrite, CycleDue, Reply;
    if Takes(p, r) {
      TicksAreExchange(p, d, r);
    } else {
      WantedIsHeard(p);
      IsduTick(p, r.send);
      var q := Tick(p, TickCycleDue, r.send).0;
      assert r.filler + r.pd == r.filler;
      if r.filler == [] {
        CksAloneIsKept(q, r.receive, r.event, r.invalid);
      } else {
        ReplyIsRouted(q, r.receive, r.filler, r.pd, r.event, r.invalid);
        FillerBeginsResponse(p, r.filler);
        WriteExchange(p, d);
      }
    }
  }

  lemma WriteExchange(p: Port, d: X.Device)
    requires Wf(p) && Active(p.isdu) && !Wanted(p.isdu).read
    ensures X.Exchange(p.isdu, d, OdLen(p.config.mseq)).0 == I.Fill(p.isdu, OdLen(p.config.mseq))
  {
  }

  lemma FillerBeginsResponse(p: Port, filler: seq<byte>)
    requires Wf(p) && |filler| == 1 && filler[0] > 1 && p.isdu.op != I.OpNone && !p.isdu.done
    requires I.Fill(p.isdu, OdLen(p.config.mseq)).phase == I.PhaseWait
    ensures var s := I.Fill(p.isdu, OdLen(p.config.mseq)); I.OnOd(s, filler) != s
  {
    hide E.Wf, I.Assembling, XorAll;
    assert filler[..0] == [];
  }

  /** A CKS alone stays in the receive buffer of a short port. */
  lemma CksAloneIsKept(p: Port, env: Env, event: bool, invalid: bool)
    requires Wf(p) && Between(p) && Short(p) && env.rx == Reply([], event, invalid) && !env.rxFault
    ensures Tick(p, TickNone, env) == (p.(rx := env.rx), 0)
  {
    hide Wf, OnRx, Reply, PollOctets;
    assert p.rx + env.rx == env.rx;
    ExpectedFits(p);
    PartialPoll(p, env, env.rx, ExpectedLen(p));
  }

  /** A second CKS alone is read together with the first as one reply, and always fails its check. */
  lemma SecondCksFails(p: Port, env: Env, event: bool, invalid: bool, event2: bool, invalid2: bool)
    requires Wf(p) && Between(p.(rx := [])) && Short(p) && p.rx == Reply([], event, invalid)
    requires env.rx == Reply([], event2, invalid2) && !env.rxFault
    ensures var (t, ret) := Tick(p, TickNone, env);
            ret == ERR_CHECKSUM && t == p.(rx := [], link := ReplyBad(p.config, p.link, env))
  {
    hide Wf, Reply, PollOctets, ReplyOk, ReplyBad;
    TwoCksNeverCheck(event, invalid, event2, invalid2);
    CompletingPoll(p, env, env.rx, ExpectedLen(p));
  }

  /** After a request frame answered by CKS alone the port is as before, but for the octet it kept. */
  lemma FirstRequestFrame(p: Port, d: X.Device, r: Exchanged)
    requires Wf(p) && Between(p) && Short(p) && !E.Engaged(p.event) && p.isdu.op != I.OpNone && !p.isdu.abortPending
    requires p.isdu.phase == I.PhaseRequest && !p.isdu.done && |p.isdu.request| - p.isdu.pos >= 2
    requires r.filler == [] && Brings(p, d, r)
    ensures var t := AfterRound(p, r);
            && Between(t.(rx := [])) && Short(t) && !E.Engaged(t.event) && Active(t.isdu) && !Wanted(t.isdu).read
            && t.rx == Reply([], r.event, r.invalid) && t.link.retries == p.link.retries && t.config == p.config
  {
    hide I.Wf, E.Wf, Tick, NextIsdu, X.OnRead, CycleDue, Reply;
    assert r.filler + r.pd == [];
    RequestWantsWrite(p.isdu);
    WantedIsHeard(p);
    IsduTick(p, r.send);
    CksAloneIsKept(Tick(p, TickCycleDue, r.send).0, r.receive, r.event, r.invalid);
    ShortWidth(p);
    NextIsStillWrite(p);
  }

  lemma ShortWidth(p: Port)
    requires Between(p) && Short(p)
    ensures OdLen(p.config.mseq) == 1
  {
  }

  /** So against a device that answers writes with CKS alone, any two request frames in a row cost a short port
      a checksum failure, whatever the request: every ISDU service on a port without process data, and the
      reading of page 1 in PREOPERATE, meets this with its second frame. */
  lemma TwoRequestFramesFail(p: Port, d: X.Device, first: Exchanged, second: Exchanged)
    requires Wf(p) && Between(p) && Short(p) && !E.Engaged(p.event) && p.isdu.op != I.OpNone && !p.isdu.abortPending
    requires p.isdu.phase == I.PhaseRequest && !p.isdu.done && |p.isdu.request| - p.isdu.pos >= 2
    requires first.filler == [] && Brings(p, d, first)
    requires CanSend(AfterRound(p, first), second.send)
    requires second.receive.rx == Reply([], second.event, second.invalid) && !second.receive.rxFault
    ensures var q := Tick(AfterRound(p, first), TickCycleDue, second.send).0;
            var (t, ret) := Tick(q, TickNone, second.receive);
            && ret == ERR_CHECKSUM && q.link.retries == p.link.retries
            && t.link == ReplyBad(q.config, q.link, second.receive)
  {
    hide I.Wf, E.Wf, Tick, AfterRound, Brings, CanSend, Reply, ReplyBad;
    FirstRequestFrame(p, d, first);
    var p2 := AfterRound(p, first);
    SendWithRest(p2, second.send);
    var q := Tick(p2, TickCycleDue, second.send).0;
    SecondCksFails(q, second.receive, first.event, first.invalid, second.event, second.invalid);
  }

  /** Every request takes at least three frames of one OD octet. */
  lemma RequestsAreLonger(r: Request, cap: nat)
    requires 16 <= cap && Acceptable(r, cap)
    ensures PlainTotal(r) <= 237 && |Encode(r)| >= 3
  {
    AcceptableFits(r, cap);
    Layout(r);
  }

  lemma RequestWantsWrite(s: I.Isdu)
    requires I.Wf(s) && s.op != I.OpNone && !s.abortPending && s.phase == I.PhaseRequest && !s.done
    ensures Active(s) && !Wanted(s).read && !s.idlePending
  {
  }

  lemma NextIsStillWrite(p: Port)
    requires Wf(p) && OdLen(p.config.mseq) == 1 && p.isdu.op != I.OpNone && !p.isdu.abortPending
    requires p.isdu.phase == I.PhaseRequest && !p.isdu.done && |p.isdu.request| - p.isdu.pos >= 2
    ensures var s := I.Fill(p.isdu, 1); Active(s) && !Wanted(s).read && s.phase == I.PhaseRequest && !s.idlePending
  {
  }

  /** Sending does not look at what is half received. */
  lemma SendWithRest(p: Port, env: Env)
    requires Wf(p) && Between(p.(rx := [])) && CanSend(p, env) && !E.Engaged(p.event)
    requires Active(p.isdu) && !Wanted(p.isdu).read
    ensures var t := Tick(p, TickCycleDue, env).0;
            && Wf(t) && t == p.(isdu := t.isdu, link := t.link)
            && t.link.state == p.link.state && t.link.step == p.link.step && !t.link.awaiting
            && t.link.retries == p.link.retries
  {
    hide I.Wf, E.Wf, NextIsdu, CycleStarted, CycleDue, PollOctets;
    WantedIsHeard(p.(rx := []));
    NextIgnoresRest(p);
    IdleTick(p, env);
  }

  lemma NextIgnoresRest(p: Port)
    requires Wf(p) && Wf(p.(rx := []))
    ensures NextIsdu(p) == NextIsdu(p.(rx := []))
  {
    hide I.Wf, E.Wf, Message;
  }

  // ---- whole runs of rounds ----------------------------------------------------------

  function AfterRounds(p: Port, rounds: seq<Exchanged>): (t: Port)
    requires Wf(p)
    ensures Wf(t)
    decreases |rounds|
  {
    if rounds == [] then p else AfterRounds(AfterRound(p, rounds[0]), rounds[1..])
  }

  /** Every round finds the transport active and the port free to send, and brings a reply the port takes. */
  ghost predicate LockStep(p: Port, d: X.Device, rounds: seq<Exchanged>)
    requires Wf(p)
    decreases |rounds|
  {
    rounds == []
    || (&& Brings(p, d, rounds[0]) && Takes(p, rounds[0])
        && LockStep(AfterRound(p, rounds[0]), DeviceTurn(p, d).0, rounds[1..]))
  }

  /** The device after the frames it heard. */
  ghost function DeviceAfter(p: Port, d: X.Device, rounds: seq<Exchanged>): X.Device
    requires Wf(p) && LockStep(p, d, rounds)
    decreases |rounds|
  {
    if rounds == [] then d else DeviceAfter(AfterRound(p, rounds[0]), DeviceTurn(p, d).0, rounds[1..])
  }

  /** A port in lock-step with a device runs the transport exactly as the exchanges of IsduExchange do, so
      what is proved of those, up to reading back what was written, holds on the port. */
  lemma {:induction false} LockStepIsExchangeRun(p: Port, d: X.Device, rounds: seq<Exchanged>)
    requires Wf(p) && Between(p) && !E.Engaged(p.event) && LockStep(p, d, rounds)
    ensures var t := AfterRounds(p, rounds);
            && (t.isdu, DeviceAfter(p, d, rounds)) == X.Run(p.isdu, d, OdLen(p.config.mseq), |rounds|)
            && Between(t) && t.config == p.config && t.event == p.event
    decreases |rounds|
  {
    hide I.Wf, E.Wf, Tick, X.Exchange, Settled, Heard, NextIsdu, CanSend, Active, DeviceTurn, HeardRead;
    if rounds != [] {
      TicksAreExchange(p, d, rounds[0]);
      LockStepIsExchangeRun(AfterRound(p, rounds[0]), DeviceTurn(p, d).0, rounds[1..]);
    }
  }

  /** A device whose idle replies fill the OD field. */
  ghost predicate Fills(d: X.Device, w: nat)
  {
    && (d.link.Preparing? ==> forall i :: 0 <= i < |d.link.polls| ==> |d.link.polls[i]| == w)
    && forall i :: 0 <= i < |d.busy| ==> forall j :: 0 <= j < |d.busy[i]| ==> |d.busy[i][j]| == w
  }

  lemma ExchangeFills(m: I.Isdu, d: X.Device, w: nat)
    requires I.Wf(m) && Active(m) && Fills(d, w)
    ensures Fills(X.Exchange(m, d, w).1, w)
    ensures Wanted(m).read ==> |X.OnRead(d, Wanted(m).flow, w).1| == w
  {
    hide I.OnOd, I.Fill, I.FillOctets, X.Answer, I.Assembling, DeclaredLength;
  }

  /** A service in progress. */
  predicate Open(m: I.Isdu) { m.op != I.OpNone && !m.done && !m.abortPending }

  lemma {:induction false} OctetsKeepOpen(m: I.Isdu, od: seq<byte>)
    requires I.Wf(m) && m.op != I.OpNone && (m.done || !m.abortPending)
    ensures var t := I.OnOd(m, od); t.op == m.op && (t.done || !t.abortPending)
  {
    hide XorAll, Encode;
    if od != [] { OctetsKeepOpen(m, od[..|od| - 1]); }
  }

  lemma ExchangeKeepsOpen(m: I.Isdu, d: X.Device, w: nat)
    requires I.Wf(m) && Open(m)
    ensures Active(m)
    ensures var t := X.Exchange(m, d, w).0; !t.done ==> Open(t)
  {
    hide I.OnOd, X.OnRead, X.OnWrite, I.Assembling;
    if !m.idlePending && I.ChannelAccess(m).Access? && I.ChannelAccess(m).read {
      OctetsKeepOpen(I.Fill(m, w), X.OnRead(d, I.ChannelAccess(m).flow, w).1);
    }
  }

  /** A round at the end of the clock's range; a short port gets an idle octet after a write. */
  function RoundWith(p: Port, d: X.Device): Exchanged
    requires Wf(p) && NextIsdu(p).Some?
  {
    var filler, pd := if Short(p) then [0] else [], Zeros(PdLen(p));
    var r := Exchanged(LAST_TICK, LAST_TICK, filler, pd, false, false);
    r.(receive := LAST_TICK.(rx := Reply(ReplyOd(p, d, r) + pd, false, false)))
  }

  lemma WantedIsOpen(p: Port)
    requires Wf(p) && Open(p.isdu)
    ensures Active(p.isdu)
    ensures !Wanted(p.isdu).read ==> p.isdu.phase == I.PhaseRequest
  {
  }

  lemma RoundWithBrings(p: Port, d: X.Device)
    requires Wf(p) && Between(p) && Open(p.isdu) && Fills(d, OdLen(p.config.mseq))
    requires p.link.last + p.config.minCycle < U32
    ensures Active(p.isdu) && NextIsdu(p).Some?
    ensures Brings(p, d, RoundWith(p, d)) && Takes(p, RoundWith(p, d))
  {
    hide I.Wf, E.Wf, Reply, NextIsdu, Heard, HeardRead, Suits, DeviceTurn, Fills, Open, Active, Between;
    WantedIsOpen(p);
    WantedIsHeard(p);
    AtRestSends(p);
    TurnFills(p, d);
  }

  lemma AtRestSends(p: Port)
    requires Between(p) && p.link.last + p.config.minCycle < U32
    ensures CanSend(p, LAST_TICK)
  {
  }

  lemma TurnFills(p: Port, d: X.Device)
    requires Wf(p) && Active(p.isdu) && NextIsdu(p).Some? && Fills(d, OdLen(p.config.mseq))
    ensures HeardRead(p) ==> |DeviceTurn(p, d).1| == OdLen(p.config.mseq)
  {
    hide I.Assembling, E.Wf, Heard, NextIsdu, Suits, Fills;
    WantedIsHeard(p);
    ExchangeFills(p.isdu, d, OdLen(p.config.mseq));
  }

  /** Any service that completes in n exchanges can be carried in lock-step by a port whose cycle timer
      leaves room before the clock wraps. */
  lemma {:induction false} LockStepIsPossible(p: Port, d: X.Device, n: nat) returns (rounds: seq<Exchanged>)
    requires Wf(p) && Between(p) && !E.Engaged(p.event) && Fills(d, OdLen(p.config.mseq))
    requires p.link.last + p.config.minCycle < U32
    requires p.isdu.done || Open(p.isdu)
    requires X.Takes(p.isdu, d, OdLen(p.config.mseq), n)
    ensures |rounds| == n && LockStep(p, d, rounds)
    decreases n
  {
    hide I.Wf, E.Wf, Tick, X.Exchange, Brings, Takes, Active, Fills, RoundWith, DeviceTurn;
    rounds := [];
    if n > 0 {
      var w := OdLen(p.config.mseq);
      ExchangeKeepsOpen(p.isdu, d, w);
      ExchangeFills(p.isdu, d, w);
      RoundWithBrings(p, d);
      var r := RoundWith(p, d);
      TicksAreExchange(p, d, r);
      var rest := LockStepIsPossible(AfterRound(p, r), X.Exchange(p.isdu, d, w).1, n - 1);
      rounds := [r] + rest;
      assert rounds[1..] == rest;
    }
  }

  /** End to end on the port, in PREOPERATE or OPERATE: a write called, exchanged and collected, then a read
      called and exchanged, returns the data written, with cyclic process data in every typed frame. */
  lemma PortWriteThenRead(p: Port, d: X.Device, r: Request, room: byte, first: seq<Exchanged>, second: seq<Exchanged>)
    requires Wf(p) && Between(p) && !E.Engaged(p.event) && X.AtRest(p.isdu)
    requires !r.read && WriteAccepted(r, p.isdu.cap) && |r.data| <= room
    requires X.ConformantPolls(X.NextPolls(d.busy), OdLen(p.config.mseq))
    requires X.ConformantPolls(X.NextPolls(X.LaterPolls(d.busy)), OdLen(p.config.mseq))
    requires PlainTotal(r) <= 237
    requires |first| == X.Exchanges(Encode(r), X.NextPolls(d.busy), WRITE_RESPONSE, OdLen(p.config.mseq))
    requires Wf(p.(isdu := I.Write(p.isdu, true, r).0))
    requires LockStep(p.(isdu := I.Write(p.isdu, true, r).0), d, first)
    ensures var w, p1 := OdLen(p.config.mseq), p.(isdu := I.Write(p.isdu, true, r).0);
            var p2, d2 := AfterRounds(p1, first), X.Run(p1.isdu, d, w, |first|).1;
            var (m, written) := I.Write(p2.isdu, true, r);
            && written == OK && I.Wf(m)
            && var p3 := p2.(isdu := I.Read(m, true, r.index, r.subindex, room).0);
               && Wf(p3)
               && (|second| == X.Exchanges(Encode(Request(true, r.index, r.subindex, [])), X.NextPolls(d2.busy),
                                           ReadResponse(r.data), w)
                   && LockStep(p3, d2, second) ==>
                     I.Read(AfterRounds(p3, second).isdu, true, r.index, r.subindex, room).1
                     == I.Reply(OK, |r.data|, r.data))
  {
    hide E.Wf, I.Assembling, X.Exchange, Tick, AfterRounds, LockStep, Encode, X.Run, ReadResponse,
         X.ConformantPolls, X.NextPolls;
    X.WriteThenReadReturnsData(p.isdu, d, OdLen(p.config.mseq), r, room, false);
    var p1 := p.(isdu := I.Write(p.isdu, true, r).0);
    LockStepIsExchangeRun(p1, d, first);
    var p2, d2 := AfterRounds(p1, first), X.Run(p1.isdu, d, OdLen(p.config.mseq), |first|).1;
    var m := I.Write(p2.isdu, true, r).0;
    var p3 := p2.(isdu := I.Read(m, true, r.index, r.subindex, room).0);
    if LockStep(p3, d2, second) {
      LockStepIsExchangeRun(p3, d2, second);
    }
  }

  // ---- the event readout on a port ------------------------------------------------------

  lemma EventTick(p: Port, env: Env)
    requires Wf(p) && Between(p) && CanSend(p, env) && E.Engaged(p.event)
    ensures var t := Tick(p, TickCycleDue, env).0;
            && t == p.(event := E.OnSent(p.event, true), link := t.link)
            && t.link.state == p.link.state && t.link.step == p.link.step
            && !t.link.awaiting && t.link.odExpected == McIsRead(EventOctets(p)[0])
            && t.link.log == p.link.log + [Sent(env.at, p.link.phyRate, EventFrame, EventOctets(p), true)]
            && SameTimer(p.link, t.link)
  {
    hide Wf, EventOctets, CycleStarted, CycleDue, PollOctets;
    IdleTick(p, env);
  }

  /** The message a device makes of the diagnosis frame the port sends. */
  function HeardAccess(p: Port): E.Access
    requires Wf(p)
  {
    var mc := Accept(EventOctets(p)).value.mc;
    E.Access(McIsRead(mc), McAddress(mc))
  }

  /** The access heard is the one the readout asks for. */
  lemma AccessIsHeard(p: Port)
    requires Wf(p)
    ensures HeardAccess(p) == E.Access(p.event.phase.EventRead?, p.event.addr)
    ensures McIsRead(EventOctets(p)[0]) == p.event.phase.EventRead?
  {
    hide I.Wf, EventOctets, Accept;
    EventFrameNamesAccess(p);
  }

  /** OD octets of the reply to a readout access: the memory from the address heard, the filler after the
      confirmation. */
  function MemoryOd(p: Port, space: seq<byte>, r: Exchanged): seq<byte>
    requires Wf(p) && HeardAccess(p).addr + OdLen(p.config.mseq) <= |space|
  {
    var access := HeardAccess(p);
    if access.read then space[access.addr..access.addr + OdLen(p.config.mseq)] else r.filler
  }

  /** What the reply to a confirmation may carry: nothing, or on a short port one octet that no ISDU service in
      progress takes for its response. */
  predicate Unnoticed(p: Port, filler: seq<byte>)
  {
    if !Short(p) then filler == []
    else |filler| == 1 && (!I.Listening(p.isdu) || (p.isdu.phase == I.PhaseWait && filler[0] <= 1))
  }

  /** The port can send its access, and the reply of a device with a frozen memory arrives. */
  predicate BringsMemory(p: Port, space: seq<byte>, r: Exchanged)
    requires Wf(p)
  {
    && E.Engaged(p.event) && CanSend(p, r.send) && |r.pd| == PdLen(p)
    && p.event.addr + OdLen(p.config.mseq) <= |space| && HeardAccess(p).addr + OdLen(p.config.mseq) <= |space|
    && r.receive.rx == Reply(MemoryOd(p, space, r) + r.pd, r.event, r.invalid) && !r.receive.rxFault
    && (HeardAccess(p).read || Unnoticed(p, r.filler))
  }

  /** Two ticks are one exchange of the readout with a device whose event memory is frozen. */
  lemma TicksAreEventExchange(p: Port, space: seq<byte>, r: Exchanged)
    requires Wf(p) && Between(p) && BringsMemory(p, space, r)
    ensures var t := AfterRound(p, r);
            && Between(t) && t.config == p.config && t.isdu == p.isdu && t.link.state == p.link.state
            && SameTimer(p.link, t.link)
            && t.event == E.Exchange(p.event, space, OdLen(p.config.mseq))
  {
    hide I.Wf, Tick, EventOctets, I.OnOd, CycleDue, Reply, HeardAccess;
    AccessIsHeard(p);
    EventTick(p, r.send);
    var q := Tick(p, TickCycleDue, r.send).0;
    ReplyIsRouted(q, r.receive, MemoryOd(p, space, r), r.pd, r.event, r.invalid);
    if !p.event.phase.EventRead? { UnnoticedOctets(p, r.filler); }
  }

  lemma UnnoticedOctets(p: Port, filler: seq<byte>)
    requires Wf(p) && Unnoticed(p, filler)
    ensures I.OnOd(p.isdu, filler) == p.isdu
  {
    hide E.Wf, I.Assembling;
    if |filler| == 1 { assert filler[..0] == []; }
  }

  ghost predicate EventLockStep(p: Port, space: seq<byte>, rounds: seq<Exchanged>)
    requires Wf(p)
    decreases |rounds|
  {
    rounds == []
    || (BringsMemory(p, space, rounds[0]) && EventLockStep(AfterRound(p, rounds[0]), space, rounds[1..]))
  }

  /** A port in lock-step with such a device runs the readout exactly as EventMemory's exchanges do. */
  lemma {:induction false} EventLockStepIsReadout(p: Port, space: seq<byte>, rounds: seq<Exchanged>)
    requires Wf(p) && Between(p) && EventLockStep(p, space, rounds) && |space| >= 256 + OdLen(p.config.mseq)
    ensures AfterRounds(p, rounds).event == E.Accesses(p.event, space, OdLen(p.config.mseq), |rounds|).1
    ensures AfterRounds(p, rounds).isdu == p.isdu
    decreases |rounds|
  {
    hide I.Wf, Tick, CanSend, Reply, E.Exchange, Between, Unnoticed, HeardAccess;
    if rounds != [] {
      TicksAreEventExchange(p, space, rounds[0]);
      EventLockStepIsReadout(AfterRound(p, rounds[0]), space, rounds[1..]);
    }
  }

  /** The whole readout on a port: started, exchanged one round longer than its reads, it has ended well,
      left the ISDU transport alone, and delivers the active events of the device's memory. */
  lemma PortReadoutDelivers(p: Port, request: E.EventRequest, space: seq<byte>, rounds: seq<Exchanged>, room: nat)
    requires Wf(p.(event := E.Start(request))) && Between(p) && request != E.ReqNone
    requires |space| >= 256 + OdLen(p.config.mseq)
    requires |rounds| == X.Chunks(E.Needed(space[0]), OdLen(p.config.mseq)) + (if request == E.ReqAck then 1 else 0)
    requires EventLockStep(p.(event := E.Start(request)), space, rounds)
    ensures var t := AfterRounds(p.(event := E.Start(request)), rounds);
            && t.isdu == p.isdu && t.event.phase == E.EventNone && t.event.result == OK
            && E.Details(t.event.memory, room) == E.Details(space[..E.MEMORY_LEN], room)
            && E.FirstCode(t.event.memory) == E.FirstCode(space[..E.MEMORY_LEN])
  {
    hide I.Wf, E.Wf, AfterRounds, EventLockStep, E.Details, E.FirstCode, E.Needed;
    var w := OdLen(p.config.mseq);
    EventLockStepIsReadout(p.(event := E.Start(request)), space, rounds);
    E.ReadoutDelivers(request, space, w, |rounds| + 1, room);
    NothingAfterReadout(E.Start(request), space, w, |rounds|);
  }

  /** A readout that ended within so many accesses has ended by then. */
  lemma {:induction false} NothingAfterReadout(e: E.Events, space: seq<byte>, w: nat, n: nat)
    requires E.Wf(e) && 256 + w <= |space| && |E.Accesses(e, space, w, n + 1).0| <= n
    ensures E.Accesses(e, space, w, n).1 == E.Accesses(e, space, w, n + 1).1
    decreases n
  {
    hide E.Exchange, E.Wf;
    if n > 0 && E.Engaged(e) { NothingAfterReadout(E.Exchange(e, space, w), space, w, n - 1); }
  }

  /** A round of a readout at the end of the clock's range. */
  function MemoryRound(p: Port, space: seq<byte>): Exchanged
    requires Wf(p) && HeardAccess(p).addr + OdLen(p.config.mseq) <= |space|
  {
    var filler, pd := if Short(p) then [0] else [], Zeros(PdLen(p));
    var r := Exchanged(LAST_TICK, LAST_TICK, filler, pd, false, false);
    r.(receive := LAST_TICK.(rx := Reply(MemoryOd(p, space, r) + pd, false, false)))
  }

  lemma MemoryRoundBrings(p: Port, space: seq<byte>)
    requires Wf(p) && Between(p) && E.Engaged(p.event) && |space| >= 256 + OdLen(p.config.mseq)
    requires p.link.last + p.config.minCycle < U32 && p.isdu.phase != I.PhaseResponse
    ensures HeardAccess(p).addr + OdLen(p.config.mseq) <= |space| && BringsMemory(p, space, MemoryRound(p, space))
  {
    hide I.Wf, E.Wf, Reply, HeardAccess, EventOctets;
    AccessIsHeard(p);
    AtRestSends(p);
  }

  /** Any readout can be carried in lock-step, while no ISDU response is being received. */
  lemma {:induction false} EventLockStepIsPossible(p: Port, space: seq<byte>, n: nat) returns (rounds: seq<Exchanged>)
    requires Wf(p) && Between(p) && |space| >= 256 + OdLen(p.config.mseq)
    requires p.link.last + p.config.minCycle < U32 && p.isdu.phase != I.PhaseResponse
    requires n <= |E.Accesses(p.event, space, OdLen(p.config.mseq), n).0|
    ensures |rounds| == n && EventLockStep(p, space, rounds)
    decreases n
  {
    hide I.Wf, E.Wf, Tick, Reply, E.Exchange, HeardAccess, MemoryRound, BringsMemory, Between;
    rounds := [];
    if n > 0 {
      AccessIsHeard(p);
      MemoryRoundBrings(p, space);
      var r := MemoryRound(p, space);
      TicksAreEventExchange(p, space, r);
      var rest := EventLockStepIsPossible(AfterRound(p, r), space, n - 1);
      rounds := [r] + rest;
      assert rounds[1..] == rest;
    }
  }
}
