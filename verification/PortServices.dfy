/** The acyclic services as a port carries them: frames that fit and check out in every run,
    replies assembled from any split, and port ticks that are exactly the exchanges of the
    ISDU transport and of the event readout. */
module PortServices {
  import opened Wrappers
  import opened Status
  import opened Octets
  import opened DeviceParameters
  import opened Frames
  import opened Port
  import opened PortMoves
  import I = IsduTransport
  import E = EventMemory

  // ---- every frame on the line -------------------------------------------------

  predicate AllFramed(log: seq<Act>)
  {
    log == [] || (AllFramed(Init(log)) && (Last(log).Sent? ==> Suits(Last(log).kind, Last(log).octets)))
  }

  lemma NotedFramed(log: seq<Act>, act: Act)
    requires AllFramed(log) && (act.Sent? ==> Suits(act.kind, act.octets))
    ensures AllFramed(log + [act])
  {
    Noted(log, act);
  }

  lemma RestartFrames(c: Config, l: Link, env: Env, timed: bool)
    requires AllFramed(l.log)
    ensures AllFramed(Restart(c, l, env, timed).0.log)
  {
    hide AllFramed, TDwu, Later;
    NotedFramed(l.log, Act.ComLost(env.at, timed));
  }

  lemma ReceiveFrames(c: Config, l: Link, m: Move, env: Env)
    requires Enabled(c, l, m, env) && (FromLine(m) || m.Expire?) && AllFramed(l.log)
    ensures AllFramed(Apply(c, l, m, env).log)
  {
    hide AllFramed, Suits, ReplyOk, Restart, AttemptFailed;
    NotedFramed(l.log, Accepted(env.at));
    match m {
      case ReceiveBad =>
        NotedFramed(l.log, Bad(env.at));
        RestartFrames(c, CountBad(l, env), env, false);
      case ReceiveAnswer => NotedFramed(l.log + [Accepted(env.at)], EnterPreoperate(env.at));
      case ReceiveAck(octet) => NotedFramed(l.log + [Accepted(env.at)], EnterOperate(env.at, octet));
      case Expire(driven) =>
        var u := l.(awaiting := false);
        NotedFramed(l.log, Expired(env.at));
        NotedFramed(l.log + [Expired(env.at)], Report(env.at));
        NotedFramed(l.log, Late(env.at));
        RestartFrames(c, CountLate(u, env), env, true);
      case _ =>
    }
  }

  lemma SendFrames(c: Config, l: Link, m: Move, env: Env)
    requires Enabled(c, l, m, env) && !FromLine(m) && !m.Expire? && AllFramed(l.log)
    ensures AllFramed(Apply(c, l, m, env).log)
  {
    hide AllFramed, Suits, Apply, TestOctets, OperateOctets;
    SendLogs(c, l, m, env);
    FixedFramesSuit();
    assert l.log + [] == l.log;
    if LineAct(c, l, m, env).Some? { NotedFramed(l.log, LineAct(c, l, m, env).value); }
  }

  lemma {:induction false} HappeningsFrame(c: Config, l: Link, hs: seq<Happening>, since: nat)
    requires Happens(c, l, hs, since) && AllFramed(l.log)
    ensures AllFramed(Result(c, l, hs, since).log)
    decreases |hs|
  {
    hide Enabled, Apply, AllFramed;
    if hs != [] {
      if FromLine(hs[0].move) || hs[0].move.Expire? {
        ReceiveFrames(c, l, hs[0].move, hs[0].env);
      } else {
        SendFrames(c, l, hs[0].move, hs[0].env);
      }
      HappeningsFrame(c, Apply(c, l, hs[0].move, hs[0].env), hs[1..], hs[0].env.at);
    }
  }

  /** In every run every frame fits the 64-octet buffer, passes the receiver's checksum, and is to its receiver what
      the port sent it as: test messages read MinCycleTime, the command writes 99 to page address 0, and cyclic, ISDU
      and event frames are on their channels. */
  lemma EveryFrameChecks(c: Config, cap: nat, rounds: seq<Round>)
    requires Wf(Initial(c, cap)) && Timely(rounds, 0)
    ensures AllFramed(Run(Initial(c, cap), rounds).link.log)
  {
    hide Wf, Run;
    var hs := RunMoves(Initial(c, cap), rounds, 0);
    HappeningsFrame(c, Initial(c, cap).link, hs, 0);
  }

  // ---- replies in pieces ----------------------------------------------------------

  /** Polls in a row, with what the last one returned. */
  function Polls(p: Port, envs: seq<Env>): (r: (Port, int))
    requires Wf(p)
    ensures Wf(r.0)
    decreases |envs|
  {
    if envs == [] then (p, OK)
    else
      var (q, ret) := Poll(p, envs[0]);
      if |envs| == 1 then (q, ret) else Polls(q, envs[1..])
  }

  function Arrived(envs: seq<Env>): seq<byte>
  {
    if envs == [] then [] else envs[0].rx + Arrived(envs[1..])
  }

  lemma {:induction false} PartialPoll(p: Port, env: Env, octets: seq<byte>, expected: nat)
    requires Wf(p) && !env.rxFault && expected <= FRAME_BUF && |p.rx| + |octets| < expected
    ensures PollOctets(p, env, octets, expected, 0) == (p.(rx := p.rx + octets), 0)
    decreases |octets|
  {
    hide Wf, OnRx;
    if octets == [] {
      assert p.rx + octets == p.rx;
    } else {
      var q := p.(rx := p.rx + [octets[0]]);
      StillWf(p, p.rx + [octets[0]]);
      PartialPoll(q, env, octets[1..], expected);
      assert q.rx + octets[1..] == p.rx + octets;
    }
  }

  lemma StillWf(p: Port, rx: seq<byte>)
    requires Wf(p)
    ensures Wf(p.(rx := rx))
  {
    hide I.Wf, E.Wf;
  }

  lemma {:induction false} CompletingPoll(p: Port, env: Env, octets: seq<byte>, expected: nat)
    requires Wf(p) && !env.rxFault && expected <= FRAME_BUF && octets != [] && |p.rx| + |octets| == expected
    ensures Wf(p.(rx := p.rx + octets))
    ensures var (t, ret) := OnRx(p.(rx := p.rx + octets), p.rx + octets, env);
            PollOctets(p, env, octets, expected, 0) == (t.(rx := []), if ret == OK then 1 else ret)
    decreases |octets|
  {
    hide Wf, OnRx;
    StillWf(p, p.rx + octets);
    var q := p.(rx := p.rx + [octets[0]]);
    StillWf(p, p.rx + [octets[0]]);
    if |octets| == 1 {
      assert octets == [octets[0]] && octets[1..] == [];
      var (t, ret) := OnRx(q, q.rx, env);
      StillWf(t, []);
    } else {
      CompletingPoll(q, env, octets[1..], expected);
      assert q.rx + octets[1..] == p.rx + octets;
    }
  }

  lemma ExpectedFits(p: Port)
    requires Wf(p)
    ensures ExpectedLen(p) <= FRAME_BUF
  {
    hide I.Wf, E.Wf;
  }

  /** However the octets of an awaited reply are spread over polls, the port handles exactly that reply,
      once, with the poll that brings its last octet. */
  lemma {:induction false} SplitReplyIsHandledOnce(p: Port, envs: seq<Env>)
    requires Wf(p) && Receiving(p.link) && envs != [] && envs[|envs| - 1].rx != []
    requires forall env :: env in envs ==> !env.rxFault
    requires |p.rx| + |Arrived(envs)| == ExpectedLen(p)
    ensures Wf(p.(rx := p.rx + Arrived(envs)))
    ensures var reply := p.rx + Arrived(envs);
            var (t, ret) := OnRx(p.(rx := reply), reply, envs[|envs| - 1]);
            Polls(p, envs) == (t.(rx := []), if ret == OK then 1 else ret)
    decreases |envs|
  {
    hide Wf, OnRx, PollOctets;
    ExpectedFits(p);
    StillWf(p, p.rx + Arrived(envs));
    assert envs[0] in envs;
    if |envs| == 1 {
      assert Arrived(envs) == envs[0].rx + [] == envs[0].rx;
      CompletingPoll(p, envs[0], envs[0].rx, ExpectedLen(p));
    } else {
      ArrivedLast(envs[1..]);
      PartialPoll(p, envs[0], envs[0].rx, ExpectedLen(p));
      var q := p.(rx := p.rx + envs[0].rx);
      StillWf(p, p.rx + envs[0].rx);
      assert ExpectedLen(q) == ExpectedLen(p);
      SplitReplyIsHandledOnce(q, envs[1..]);
      assert q.rx + Arrived(envs[1..]) == p.rx + Arrived(envs);
    }
  }

  lemma {:induction false} ArrivedLast(envs: seq<Env>)
    requires envs != [] && envs[|envs| - 1].rx != []
    ensures Arrived(envs) != []
  {
    if |envs| > 1 { ArrivedLast(envs[1..]); }
  }

  // ---- process data from the device -----------------------------------------------

  predicate InputIsWhole(p: Port) { p.pdValid ==> |p.pdIn| == p.config.pdInLen }

  lemma ReplyKeepsInput(p: Port, data: seq<byte>, env: Env)
    requires Wf(p) && |data| > 0 && InputIsWhole(p)
    ensures InputIsWhole(OnRx(p, data, env).0)
  {
    hide I.Wf, E.Wf, ReplyOk, ReplyBad, OnCyclicReply;
    CyclicReplyKeepsInput(p, data, env);
  }

  lemma CyclicReplyKeepsInput(p: Port, data: seq<byte>, env: Env)
    requires Wf(p) && |data| > 0 && InputIsWhole(p)
    ensures InputIsWhole(OnCyclicReply(p, data, env).0)
  {
    hide I.Wf, E.Wf, ReplyOk, ReplyBad;
  }

  lemma {:induction false} PollKeepsInput(p: Port, env: Env, octets: seq<byte>, expected: nat, frames: nat)
    requires Wf(p) && InputIsWhole(p)
    ensures InputIsWhole(PollOctets(p, env, octets, expected, frames).0)
    decreases |octets|
  {
    hide OnRx, I.Wf, E.Wf;
    if octets != [] && |p.rx| < FRAME_BUF {
      var q := p.(rx := p.rx + [octets[0]]);
      if |q.rx| < expected {
        PollKeepsInput(q, env, octets[1..], expected, frames);
      } else {
        ReplyKeepsInput(q, q.rx, env);
        PollKeepsInput(OnRx(q, q.rx, env).0.(rx := []), env, octets[1..], expected, frames + 1);
      }
    }
  }

  lemma PreoperateKeepsInput(p: Port, env: Env)
    requires Wf(p)
    ensures var t := ProcessPreoperate(p, env); t.pdIn == p.pdIn && t.pdValid == p.pdValid
  {
    hide Wf, NextIsdu, EventOctets, Transmit, OperateOctets, Parse, Validate, I.Read;
  }

  lemma OperateKeepsInput(p: Port, env: Env)
    requires Wf(p)
    ensures var t := ProcessOperate(p, env); t.pdIn == p.pdIn && t.pdValid == p.pdValid
  {
    hide Wf, NextIsdu, EventOctets, CyclicOctets, Transmit;
  }

  lemma CycleKeepsInput(p: Port, env: Env)
    requires Wf(p)
    ensures var t := RunCycle(p, env); t.pdIn == p.pdIn && t.pdValid == p.pdValid
  {
    hide Wf, CycleStarted, ProcessStartup, Gated, CycleDue, ProcessPreoperate, ProcessOperate;
    PreoperateKeepsInput(p, env);
    OperateKeepsInput(p, env);
  }

  lemma TickKeepsInput(p: Port, event: TickEvent, env: Env)
    requires Wf(p) && InputIsWhole(p)
    ensures InputIsWhole(Tick(p, event, env).0)
  {
    hide Wf, PollOctets, RunCycle, OnTimeout;
    PollKeepsInput(p, env, env.rx, ExpectedLen(p), 0);
    CycleKeepsInput(Poll(p, env).0, env);
  }

  lemma {:induction false} RunKeepsInput(p: Port, rounds: seq<Round>)
    requires Wf(p) && InputIsWhole(p)
    ensures InputIsWhole(Run(p, rounds))
    decreases |rounds|
  {
    hide Wf, Tick;
    if rounds != [] {
      match rounds[0] {
        case Ticked(event, env) => TickKeepsInput(p, event, env);
        case Driven(env) =>
          TickKeepsInput(p, if ResponseDue(p.link, Now(env)) then TickResponseTimeout else TickCycleDue, env);
        case _ =>
      }
      RunKeepsInput(After(p, rounds[0]), rounds[1..]);
    }
  }

  /** In every run process data from the device is called valid only once all its octets have arrived. */
  lemma ValidInputIsWhole(c: Config, cap: nat, rounds: seq<Round>)
    requires Wf(Initial(c, cap))
    ensures var p := Run(Initial(c, cap), rounds); p.pdValid ==> |p.pdIn| == c.pdInLen
    ensures !Initial(c, cap).pdValid
  {
    hide Wf, Run;
    RunKeepsInput(Initial(c, cap), rounds);
  }

  // ---- only ISDU frames take request octets --------------------------------------

  /** Event frames, in PREOPERATE and OPERATE, and cyclic frames leave the ISDU transport entirely alone. */
  lemma OtherFramesLeaveTransport(p: Port, env: Env)
    requires Wf(p) && Communicating(p.link)
    requires E.Engaged(p.event) || (p.link.state == Operate && NextIsdu(p).None?)
    ensures RunCycle(p, env).isdu == p.isdu
  {
    hide Wf, NextIsdu, SendEvent, SendCyclic, CycleStarted, CycleDue;
    if E.Engaged(p.event) {
      EventLeavesTransport(p, env);
    } else {
      CyclicLeavesTransport(p, env);
    }
  }

  lemma EventLeavesTransport(p: Port, env: Env)
    requires Wf(p)
    ensures SendEvent(p, env).0.isdu == p.isdu
  {
    hide Wf, EventOctets, Transmit;
  }

  lemma CyclicLeavesTransport(p: Port, env: Env)
    requires Wf(p) && NextIsdu(p).None?
    ensures SendCyclic(p, env).isdu == p.isdu
  {
    hide CyclicOctets, IsduOctets, Transmit;
    QuietFill(p.isdu, OdLen(p.config.mseq));
  }

  lemma QuietFill(s: I.Isdu, w: nat)
    requires I.Wf(s) && !s.idlePending && I.ChannelAccess(s).Quiet?
    ensures I.Fill(s, w) == s
  {
  }

  /** Whether ISDU frames are typed and carry process data, or have the TYPE_0 layout. */
  predicate IsTyped(p: Port) { p.link.state == Operate && p.config.mseq != Type0 }

  /** The number of an M-sequence type in bits 6 and 7 of CKT (A.1.3). */
  function TypeNumber(mseq: MSequence): nat
  {
    match mseq
    case Type0 => 0
    case Type1_1 => 1
    case Type1_2 => 1
    case Type1_V => 1
    case _ => 2
  }

  /** OD octets of a frame (Table A.10): two for TYPE_1_2 and TYPE_2_V, eight for TYPE_1_V, else one. */
  function OdWidth(mseq: MSequence): nat
  {
    match mseq
    case Type1_2 => 2
    case Type2_V => 2
    case Type1_V => 8
    case _ => 1
  }

  /** An ISDU frame as its receiver takes it apart: direction and FlowCTRL in MC, in OPERATE the type bits and the
      process data, then the OD octets. */
  predicate CarriesIsdu(p: Port, octets: seq<byte>, read: bool, flow: byte, od: seq<byte>)
  {
    Accept(octets) == Some(Received((if read then 0x80 else 0) + 0x60 + flow % 32,
                                    if IsTyped(p) then 64 * TypeNumber(p.config.mseq) else 0,
                                    (if IsTyped(p) then p.pdOut else []) + od))
  }

  /** The ISDU frame a port sends. A latched transport error goes first, as a read with FlowCTRL ABORT (1F), then a
      concluded service, as one with IDLE (11); each clears its own latch alone. Otherwise the service in progress
      has its direction and FlowCTRL, and as OD exactly the next request octets; the transport advances past them
      and no others. */
  lemma IsduFrameCarriesRequest(p: Port)
    requires Wf(p)
    ensures p.isdu.abortPending ==>
              && NextIsdu(p).Some? && CarriesIsdu(p, NextIsdu(p).value.1, true, 0x1F, [])
              && NextIsdu(p).value.0 == p.isdu.(abortPending := false)
    ensures !p.isdu.abortPending && p.isdu.idlePending ==>
              && NextIsdu(p).Some? && CarriesIsdu(p, NextIsdu(p).value.1, true, 0x11, [])
              && NextIsdu(p).value.0 == p.isdu.(idlePending := false)
    ensures !p.isdu.abortPending && !p.isdu.idlePending ==>
              match I.ChannelAccess(p.isdu)
              case Quiet => NextIsdu(p).None?
              case Access(read, flow) =>
                var w := OdWidth(p.config.mseq);
                && NextIsdu(p).Some? && NextIsdu(p).value.0 == I.Fill(p.isdu, w)
                && CarriesIsdu(p, NextIsdu(p).value.1, read, flow, if read then [] else I.FillOctets(p.isdu, w))
  {
    hide Message, Accept, I.Fill, I.FillOctets, I.Assembling, E.Wf, CarriesIsdu, Suits, IsduOctets;
    IsduLayout(p, true, 0x1F, []);
    IsduLayout(p, true, 0x11, []);
    var w := OdLen(p.config.mseq);
    match I.ChannelAccess(p.isdu) {
      case Quiet =>
      case Access(read, flow) => IsduLayout(p, read, flow, if read then [] else I.FillOctets(p.isdu, w));
    }
  }

  lemma IsduLayout(p: Port, read: bool, flow: byte, od: seq<byte>)
    requires Wf(p) && |od| <= OD_MAX
    ensures CarriesIsdu(p, IsduOctets(p, read, flow, od), read, flow, od)
  {
    hide Message, Accept, I.Wf, E.Wf;
    assert [] + od == od;
    MessageRoundTrip(Mc(read, McIsdu, flow), TypeBits(p.config.mseq), p.pdOut + od);
    MessageRoundTrip(Mc(read, McIsdu, flow), 0, od);
  }

  // ---- the other frames ------------------------------------------------------------

  /** A diagnosis frame names the access the readout asks for and carries the process data; a confirmation
      adds an OD field of zeros. */
  lemma EventFrameNamesAccess(p: Port)
    requires Wf(p)
    ensures Accept(EventOctets(p)).Some?
    ensures var r := Accept(EventOctets(p)).value;
            && r.mc == (if p.event.phase.EventRead? then 0x80 else 0) + 0x40 + p.event.addr
            && r.bits == 64 * TypeNumber(p.config.mseq)
            && r.body == p.pdOut + (if p.event.phase.EventRead? then [] else Zeros(OdWidth(p.config.mseq)))
    ensures McIsRead(EventOctets(p)[0]) == p.event.phase.EventRead?
  {
    hide Message, Accept, I.Wf;
    var read := p.event.phase.EventRead?;
    var od := if read then [] else Zeros(OdLen(p.config.mseq));
    McRoundTrip(read, McDiagnosis, p.event.addr, 0);
    MessageRoundTrip(Mc(read, McDiagnosis, p.event.addr), TypeBits(p.config.mseq), p.pdOut + od);
  }

  /** A cyclic frame is a write on the process channel that carries the process data and, with no ISDU frame
      due, an OD field of zeros; on a port without process data it is MC 0 alone. */
  lemma CyclicFrameCarriesProcessData(p: Port)
    requires Wf(p) && NextIsdu(p).None?
    ensures Accept(CyclicOctets(p)).Some?
    ensures var r := Accept(CyclicOctets(p)).value;
            && r.mc == 0 && r.bits == 64 * TypeNumber(p.config.mseq)
            && r.body == (if NoProcessData(p.config) then [] else p.pdOut + Zeros(OdWidth(p.config.mseq)))
  {
    hide Message, Accept, IsduOctets, Suits, Mc, McIsRead, McChannel, McAddress, I.FillOctets, I.Fill, I.Wf, E.Wf;
    var w := OdLen(p.config.mseq);
    NoneIsQuiet(p);
    NothingToSend(p.isdu, w);
    NothingToSend(p.isdu, 1);
    ProcessMc();
    MessageRoundTrip(0, 0, []);
    MessageRoundTrip(0, TypeBits(p.config.mseq), p.pdOut + Zeros(w));
  }

  lemma NoneIsQuiet(p: Port)
    requires Wf(p) && NextIsdu(p).None?
    ensures !p.isdu.idlePending && I.ChannelAccess(p.isdu).Quiet?
  {
  }

  lemma NothingToSend(s: I.Isdu, w: nat)
    requires I.Wf(s) && !s.idlePending && I.ChannelAccess(s).Quiet?
    ensures I.FillOctets(s, w) == Zeros(w)
  {
    assert [] + Zeros(w) == Zeros(w);
  }

  /** A readout whose first access is not sent yet. */
  predicate Unarmed(e: E.Events) { E.Engaged(e) && !e.odExpected }

  /** Whatever octets arrive before a readout has sent its first access, in any number of replies, reach neither
      the event memory nor the ISDU transport. */
  lemma {:induction false} StrayRepliesAreDropped(p: Port, env: Env, octets: seq<byte>, expected: nat, frames: nat)
    requires Wf(p) && Unarmed(p.event)
    ensures var t := PollOctets(p, env, octets, expected, frames).0; t.event == p.event && t.isdu == p.isdu
    decreases |octets|
  {
    hide Wf, OnRx;
    if octets != [] && |p.rx| < FRAME_BUF {
      var q := p.(rx := p.rx + [octets[0]]);
      StillWf(p, q.rx);
      if |q.rx| < expected {
        StrayRepliesAreDropped(q, env, octets[1..], expected, frames);
      } else {
        StrayReplyIsDropped(q, q.rx, env);
        var (t, ret) := OnRx(q, q.rx, env);
        StillWf(t, []);
        if ret == OK { StrayRepliesAreDropped(t.(rx := []), env, octets[1..], expected, frames + 1); }
      }
    }
  }

  lemma StrayReplyIsDropped(p: Port, data: seq<byte>, env: Env)
    requires Wf(p) && Unarmed(p.event) && |data| > 0
    ensures var t := OnRx(p, data, env).0; t.event == p.event && t.isdu == p.isdu
  {
    hide I.Wf, E.Wf, ReplyOk, DecodeReply, ReplyBad, ReplyGood, I.OnOd;
  }
}
