/** A master port as the program keeps it: link fields, frame buffers, and the ISDU and event
    handlers, all updated in place. Every method computes the transition of the same name in
    Port, on which the properties of ticks and runs are proved. */
module MasterPort {
  import opened Status
  import opened Octets
  import opened DeviceParameters
  import opened Frames
  import P = Port
  import opened Port
  import C = IsduChannel
  import R = EventReader
  import I = IsduTransport
  import E = EventMemory

  datatype Registers = Registers(
    info: DeviceInfo,
    rxLen: nat,
    pdIn: seq<byte>,
    pdValid: bool,
    pdOut: seq<byte>,
    odStatus: byte,
    eventPending: bool)

  class MasterPort {
    const config: Config
    const rx: array<byte>
    const tx: array<byte>
    const channel: C.Channel
    const reader: R.Reader
    var link: Link
    var regs: Registers

    ghost predicate Shape()
      reads this, rx, tx, channel, channel.request, channel.response, reader, reader.memory
    {
      && rx.Length == FRAME_BUF == tx.Length && rx != tx
      && {rx, tx} !! {channel.request, channel.response, reader.memory}
      && reader.memory != channel.request && reader.memory != channel.response
      && regs.rxLen <= FRAME_BUF
      && channel.Valid() && reader.Valid()
    }

    ghost function State(): Port
      reads this, rx, tx, channel, channel.request, channel.response, reader, reader.memory
      requires Shape()
    {
      Port(config, link, channel.State(), reader.State(), regs.info, rx[..regs.rxLen], regs.pdIn, regs.pdValid,
           regs.pdOut, regs.odStatus, regs.eventPending)
    }

    ghost predicate Valid()
      reads this, rx, tx, channel, channel.request, channel.response, reader, reader.memory
    {
      Shape() && Wf(State())
    }

    constructor (c: Config, capacity: nat)
      requires Initialisable(c) && 16 <= capacity <= 256
      ensures Valid() && State() == Initial(c, capacity)
      ensures fresh(rx) && fresh(tx) && fresh(channel) && fresh(reader)
    {
      config := c;
      rx := new byte[FRAME_BUF](_ => 0);
      tx := new byte[FRAME_BUF](_ => 0);
      channel := new C.Channel(capacity);
      reader := new R.Reader();
      link := Initial(c, capacity).link;
      regs := Registers(NoDevice(), 0, [], false, Zeros(c.pdOutLen), 0, false);
    }

    // ---- the link --------------------------------------------------------

    method Log(act: Act)
      modifies this`link
      ensures link == Note(old(link), act)
    {
      link := link.(log := link.log + [act]);
    }

    method SetRate(env: Env) returns (ret: int)
      modifies this`link
      ensures (link, ret) == P.SetRate(config, old(link), env)
    {
      if env.rate != OK {
        link := link.(state := Error);
        return env.rate;
      }
      link := link.(phyRate := RateOf(config, link));
      return OK;
    }

    method ResetRateScan(env: Env) returns (ret: int)
      modifies this`link
      ensures (link, ret) == ResetScan(config, old(link), env)
    {
      if !config.autoRate || link.rateIndex == 0 {
        return OK;
      }
      link := link.(rateIndex := 0);
      ret := SetRate(env);
    }

    method ArmSendGate(env: Env, delay: nat)
      modifies this`link
      ensures link == Arm(old(link), env, delay)
    {
      link := link.(readyAt := Later(Now(env), delay), readyValid := true);
    }

    method RestartEstablish(env: Env, timed: bool) returns (ret: int)
      modifies this`link
      ensures (link, ret) == Restart(config, old(link), env, timed)
    {
      hide TDwu, Later;
      Log(Act.ComLost(env.at, timed));
      link := link.(state := Startup);
      link := link.(step := StepWake);
      link := link.(attempts := 0);
      link := link.(retries := 0);
      link := link.(awaiting := false);
      ret := ResetRateScan(env);
      if ret != OK {
        return;
      }
      if timed {
        ArmSendGate(env, TDwu(config));
      }
      ret := PENDING;
    }

    method TryNextRate(env: Env) returns (ret: int)
      modifies this`link
      ensures (link, ret) == NextRate(config, old(link), env)
    {
      hide TDmt, Later;
      link := link.(rateIndex := link.rateIndex + 1);
      ret := SetRate(env);
      if ret != OK {
        return;
      }
      link := link.(step := StepSend);
      ArmSendGate(env, TDmt(config, RateOf(config, link)));
      ret := PENDING;
    }

    method EstablishAttemptFailed(env: Env) returns (ret: int)
      modifies this`link
      ensures (link, ret) == AttemptFailed(config, old(link), env)
    {
      hide TDwu, TSd, Later, ResetScan, NextRate, RetryLimit;
      Log(Expired(env.at));
      link := link.(awaiting := false);
      if config.autoRate && link.rateIndex < LAST_RATE {
        ret := TryNextRate(env);
        return;
      }
      link := link.(attempts := (link.attempts + 1) % 256);
      ret := ResetRateScan(env);
      if ret != OK {
        return;
      }
      if link.attempts <= RetryLimit(config) {
        link := link.(step := StepWake);
        ArmSendGate(env, TDwu(config));
        return PENDING;
      }
      Log(Report(env.at));
      link := link.(attempts := 0);
      link := link.(diag := link.diag.(failures := Bump(link.diag.failures)));
      if env.mode != OK {
        link := link.(state := Error);
        return env.mode;
      }
      link := link.(phyMode := Sleeping);
      link := link.(step := StepInactive);
      ArmSendGate(env, TSd(config));
      return ERR_RETRY_LIMIT;
    }

    method OnTimeoutAt(env: Env) returns (ret: int)
      modifies this`link, this`regs
      ensures (link, ret) == OnTimeout(config, old(link), env)
      ensures regs == old(regs).(rxLen := 0)
    {
      hide Restart, AttemptFailed;
      regs := regs.(rxLen := 0);
      if env.flush != OK {
        link := link.(state := Error);
        return env.flush;
      }
      if link.state != Startup {
        if link.state == Operate {
          Log(Late(env.at));
          link := link.(diag := link.diag.(timeouts := Bump(link.diag.timeouts)));
          if link.retries < RX_RETRY_LIMIT {
            link := link.(retries := link.retries + 1);
            return PENDING;
          }
          ret := RestartEstablish(env, true);
          return;
        }
        return OK;
      }
      if link.step == StepInactive {
        return PENDING;
      }
      ret := EstablishAttemptFailed(env);
    }

    method CountBadReply(env: Env)
      modifies this`link
      ensures link == ReplyBad(config, old(link), env)
    {
      hide Restart;
      Log(Bad(env.at));
      link := link.(diag := link.diag.(checksumErrors := Bump(link.diag.checksumErrors)));
      if link.retries < RX_RETRY_LIMIT {
        link := link.(retries := link.retries + 1);
      } else {
        var _ := RestartEstablish(env, false);
      }
    }

    method AcceptReply(env: Env)
      modifies this`link
      ensures link == ReplyGood(old(link), env)
    {
      link := link.(retries := 0);
      link := link.(awaiting := false);
      Log(Accepted(env.at));
    }

    method FailSend()
      modifies this`link
      ensures link == SendFault(old(link))
    {
      link := link.(diag := link.diag.(sendErrors := Bump(link.diag.sendErrors)));
      link := link.(state := Error);
    }

    // ---- sending ------------------------------------------------------------

    /** Put the first `len` octets of the transmit buffer on the line. */
    method SendFull(env: Env, kind: Kind, len: nat) returns (ok: bool)
      requires 0 < len <= tx.Length
      modifies this`link
      ensures (link, ok) == Transmit(old(link), env, kind, tx[..len])
    {
      if env.prepareTx != OK {
        FailSend();
        return false;
      }
      Log(Sent(env.at, link.phyRate, kind, tx[..len], env.sent && env.prepareRx == OK));
      if env.prepareRx != OK || !env.sent {
        FailSend();
        return false;
      }
      link := link.(odExpected := McIsRead(tx[0]));
      return true;
    }

    /** The wake-up request, by its hook or as one 0x55 octet. */
    method WakeUp(env: Env) returns (ok: bool)
      requires tx.Length == FRAME_BUF
      modifies this`link, tx
      ensures (link, ok) == P.WakeUp(config, old(link), env)
    {
      if config.wakeHook {
        Log(Wake(env.at, env.wake == OK));
        if env.wake != OK {
          FailSend();
        }
        return env.wake == OK;
      }
      tx[0] := 0x55;
      if env.prepareTx != OK {
        FailSend();
        return false;
      }
      Log(Wake(env.at, env.sent && env.prepareRx == OK));
      if env.prepareRx != OK || !env.sent {
        FailSend();
        return false;
      }
      link := link.(odExpected := McIsRead(tx[0]));
      return true;
    }

    /** Write MC and CKT around the body already in place: type bits first, then the checksum over the whole message. */
    method Seal(mc: byte, bits: byte, len: nat)
      requires 2 <= len <= tx.Length && bits % 64 == 0
      modifies tx
      ensures tx[..len] == Message(mc, bits, old(tx[2..len]))
    {
      hide XorAll, Xor, Compress;
      tx[0] := mc;
      tx[1] := bits;
      assert tx[..len] == [mc, bits] + old(tx[2..len]);
      var chk := C.Chkpdu(tx, len);
      tx[1] := bits + Compress(Xor(CHECKSUM_SEED, chk));
      assert tx[..len] == [mc, tx[1]] + old(tx[2..len]);
    }

    /** Build a message: header, process data, OD. */
    method BuildFrame(mc: byte, bits: byte, pd: seq<byte>, od: seq<byte>) returns (len: nat)
      requires tx.Length == FRAME_BUF && |pd| <= PD_MAX && |od| <= OD_MAX && bits % 64 == 0
      modifies tx
      ensures 2 <= len <= FRAME_BUF && tx[..len] == Message(mc, bits, pd + od)
    {
      hide Message, Checksum6;
      len := 2 + |pd| + |od|;
      C.Put(tx, 2, pd);
      ghost var once := tx[..];
      assert once[2..2 + |pd|] == pd;
      C.Put(tx, 2 + |pd|, od);
      assert tx[2..len] == pd + od by {
        assert tx[..] == once[..2 + |pd|] + od + once[len..];
        assert tx[2..2 + |pd|] == once[2..2 + |pd|];
      }
      Seal(mc, bits, len);
    }

    method SendTest(env: Env)
      requires tx.Length == FRAME_BUF
      modifies this`link, tx
      ensures link == ProcessTest(config, old(link), env)
    {
      hide Message, Checksum6, Later, TestWindow;
      var len := BuildFrame(Mc(true, McPage, 2), 0, [], []);
      assert tx[..len] == TestOctets();
      var ok := SendFull(env, TestMessage, len);
      if ok {
        link := link.(step := StepAwait);
        link := link.(deadline := Later(Now(env), TestWindow(config, RateOf(config, link))));
        link := link.(awaiting := true);
      }
    }

    method SendWake(env: Env)
      requires tx.Length == FRAME_BUF
      modifies this`link, tx
      ensures link == ProcessWake(config, old(link), env)
    {
      hide TDmt, Later;
      var ok := WakeUp(env);
      if ok {
        link := link.(step := StepSend);
        ArmSendGate(env, T_REN + TDmt(config, RateOf(config, link)));
      }
    }

    method ProcessStartup(env: Env)
      requires tx.Length == FRAME_BUF
      modifies this`link, tx
      ensures link == P.ProcessStartup(config, old(link), env)
    {
      hide ProcessWake, ProcessTest;
      if link.step == StepInactive {
        if env.mode != OK {
          link := link.(state := Error);
          return;
        }
        link := link.(phyMode := Sdci);
        link := link.(step := StepWake);
      }
      if link.step == StepWake {
        SendWake(env);
      } else if link.step == StepSend {
        SendTest(env);
      }
    }

    /** Build an ISDU frame: typed with process data in OPERATE, TYPE_0 layout otherwise. */
    method BuildIsduFrame(read: bool, flow: byte, od: seq<byte>) returns (len: nat)
      requires Valid() && |od| <= OD_MAX
      modifies tx
      ensures Valid() && State() == old(State())
      ensures 2 <= len <= FRAME_BUF && tx[..len] == IsduOctets(State(), read, flow, od)
    {
      hide Message, I.Wf, E.Wf, C.Channel.Valid, R.Reader.Valid;
      var mc := Mc(read, McIsdu, flow);
      if link.state == Operate && config.mseq != Type0 {
        len := BuildFrame(mc, TypeBits(config.mseq), regs.pdOut, od);
      } else {
        len := BuildFrame(mc, 0, [], od);
        assert [] + od == od;
      }
    }

    /** The frame an active transport asks for, in the transmit buffer. */
    method BuildNextIsdu() returns (due: bool, len: nat)
      requires Valid() && !channel.isdu.abortPending && !channel.isdu.idlePending
      modifies tx, channel
      ensures Valid()
      ensures match NextIsdu(old(State()))
              case None => !due && State() == old(State())
              case Some(next) =>
                due && State() == old(State()).(isdu := next.0) && 2 <= len <= FRAME_BUF && tx[..len] == next.1
    {
      hide IsduOctets, I.Assembling, E.Wf, I.FillOctets, I.Fill, Framed, R.Reader.Valid;
      ghost var p := State();
      var active, read, flow := channel.ChannelAccess();
      if !active {
        return false, 0;
      }
      var w := OdLen(config.mseq);
      var od := new byte[OD_MAX](_ => 0);
      channel.FillOd(od, 0, w);
      var octets := if read then [] else od[..w];
      assert octets == if read then [] else I.FillOctets(p.isdu, w);
      len := BuildIsduFrame(read, flow, octets);
      OctetsIgnoreTransport(p, channel.State(), read, flow, octets);
      return true, len;
    }

    /** The ISDU frame that is due, if any, in the transmit buffer: ABORT, then IDLE, then the transport's own. */
    method BuildDueIsdu() returns (due: bool, len: nat)
      requires Valid()
      modifies tx, channel
      ensures Valid()
      ensures match NextIsdu(old(State()))
              case None => !due && State() == old(State())
              case Some(next) =>
                due && State() == old(State()).(isdu := next.0) && 2 <= len <= FRAME_BUF && tx[..len] == next.1
    {
      hide IsduOctets, I.Wf, E.Wf, Framed, C.Channel.Valid, R.Reader.Valid, I.ChannelAccess;
      ghost var p := State();
      due := true;
      var aborting := channel.TakeAbort();
      if aborting {
        len := BuildIsduFrame(true, I.ABORT, []);
        OctetsIgnoreTransport(p, channel.State(), true, I.ABORT, []);
        return;
      }
      var idling := channel.TakeIdle();
      if idling {
        len := BuildIsduFrame(true, I.IDLE, []);
        OctetsIgnoreTransport(p, channel.State(), true, I.IDLE, []);
        return;
      }
      NothingTaken(p.isdu);
      due, len := BuildNextIsdu();
    }

    /** Send one M-sequence on the ISDU channel if one is due. */
    method SendIsdu(env: Env) returns (due: bool)
      requires Valid()
      modifies this`link, tx, channel
      ensures Valid() && (State(), due) == P.SendIsdu(old(State()), env)
    {
      hide Transmit, NextIsdu, I.Wf, E.Wf, Framed, C.Channel.Valid, R.Reader.Valid;
      var len;
      due, len := BuildDueIsdu();
      if due {
        var _ := SendFull(env, IsduFrame, len);
      }
    }

    /** Build the diagnosis frame of an engaged event service. */
    method BuildEventFrame() returns (len: nat)
      requires Valid()
      modifies tx
      ensures Valid() && State() == old(State())
      ensures 2 <= len <= FRAME_BUF && tx[..len] == EventOctets(State())
    {
      hide Message, I.Wf, C.Channel.Valid, R.Reader.Valid;
      var read := reader.event.phase == E.EventRead;
      var mc := Mc(read, McDiagnosis, reader.event.addr);
      if config.mseq == Type0 {
        len := BuildFrame(mc, 0, [], if read then [] else [0]);
        assert regs.pdOut == [] && Zeros(1) == [0];
      } else {
        len := BuildFrame(mc, TypeBits(config.mseq), regs.pdOut, if read then [] else Zeros(OdLen(config.mseq)));
      }
    }

    /** Send one M-sequence on the diagnosis channel if an event service is engaged. */
    method SendEvent(env: Env) returns (due: bool)
      requires Valid()
      modifies this`link, tx, reader`event
      ensures Valid() && (State(), due) == P.SendEvent(old(State()), env)
    {
      hide Transmit, I.Wf, Framed, C.Channel.Valid, EventOctets;
      if reader.event.phase == E.EventNone {
        return false;
      }
      var read := reader.event.phase == E.EventRead;
      var len := BuildEventFrame();
      var sent := SendFull(env, EventFrame, len);
      if sent && read {
        reader.event := reader.event.(odExpected := true);
      }
      if !read {
        reader.OnWritten();
      }
      return true;
    }

    /** Build the cyclic frame: MC 0, CKT, process data, and whatever OD the transport fills in. */
    method BuildCyclicFrame() returns (len: nat)
      requires Valid()
      modifies tx, channel
      ensures Valid() && State() == old(State()).(isdu := I.Fill(old(State()).isdu, OdLen(config.mseq)))
      ensures 2 <= len <= FRAME_BUF && tx[..len] == CyclicOctets(old(State()))
    {
      hide Message, I.Wf, E.Wf, I.Fill, R.Reader.Valid;
      ghost var p := State();
      var w := OdLen(config.mseq);
      if NoProcessData(config) {
        var od := new byte[1](_ => 0);
        channel.FillOd(od, 0, 1);
        len := BuildFrame(od[0], 0, [], []);
        return;
      }
      len := BuildTypedCyclic();
    }

    method BuildTypedCyclic() returns (len: nat)
      requires Valid() && !NoProcessData(config)
      modifies tx, channel
      ensures Valid() && State() == old(State()).(isdu := I.Fill(old(State()).isdu, OdLen(config.mseq)))
      ensures 2 <= len <= FRAME_BUF && tx[..len] == CyclicOctets(old(State()))
    {
      hide Message, I.Assembling, E.Wf, I.Fill, I.FillOctets, R.Reader.Valid, Framed;
      ghost var p := State();
      var w, n := OdLen(config.mseq), |regs.pdOut|;
      len := 2 + n + w;
      C.Put(tx, 2, regs.pdOut);
      assert tx[2..2 + n] == regs.pdOut;
      ghost var front := tx[..2 + n];
      channel.FillOd(tx, 2 + n, w);
      assert tx[2..len] == front[2..] + I.FillOctets(p.isdu, w);
      Seal(Mc(false, McProcess, 0), TypeBits(config.mseq), len);
    }

    method SendCyclic(env: Env)
      requires Valid()
      modifies this`link, tx, channel
      ensures Valid() && State() == P.SendCyclic(old(State()), env)
    {
      hide Transmit, I.Wf, E.Wf, I.Fill, Framed, C.Channel.Valid, R.Reader.Valid, CyclicOctets;
      var len := BuildCyclicFrame();
      var sent := SendFull(env, Cyclic, len);
      if sent {
        link := link.(cycles := Bump(link.cycles));
      }
    }

    /** Read Direct Parameter page 1 over ISDU, store and validate it. */
    method ReadDeviceInfo() returns (ret: int)
      requires Valid()
      modifies this`regs, channel, channel.request
      ensures Valid() && (State(), ret) == P.ReadDeviceInfo(old(State()))
    {
      hide I.Wf, E.Wf, I.Read, R.Reader.Valid, C.Channel.Valid, Parse, Validate;
      var page := new byte[PAGE_LEN](_ => 0);
      var len;
      ghost var p := State();
      OkReadIsWhole(p.isdu, PAGE_LEN);
      ret, len := channel.Read(true, 0, 0, page, PAGE_LEN);
      if ret != OK {
        assert (State(), ret) == P.ReadDeviceInfo(p);
        return;
      }
      var (code, info) := Parse(page[..len], regs.info);
      ret := code;
      if ret != OK {
        assert (State(), ret) == P.ReadDeviceInfo(p);
        return;
      }
      regs := regs.(info := info);
      ret := Validate(info, config);
      assert (State(), ret) == P.ReadDeviceInfo(p);
    }

    /** Send the DeviceOperate command once the device is known to fit, or fail. */
    method Commission(env: Env)
      requires Valid()
      modifies this`link, tx
      ensures Valid() && State() == P.Commission(old(State()), env)
    {
      hide Message, Transmit, I.Wf, E.Wf, C.Channel.Valid, R.Reader.Valid, Validate;
      if ValidationRequired(config) && Validate(regs.info, config) != OK {
        link := link.(state := Error);
        return;
      }
      var len := BuildFrame(Mc(false, McPage, 0), 0, [], [0x99]);
      assert [] + [0x99] == [0x99] && tx[..len] == OperateOctets();
      var sent := SendFull(env, OperateCommand, len);
      if sent {
        link := link.(step := StepAck);
      }
    }

    method ProcessPreoperate(env: Env)
      requires Valid()
      modifies this, tx, channel, channel.request, reader`event
      ensures Valid() && State() == P.ProcessPreoperate(old(State()), env)
    {
      hide I.Wf, E.Wf, C.Channel.Valid, R.Reader.Valid, P.SendEvent, P.SendIsdu, P.ReadDeviceInfo, P.Commission,
           NextIsdu;
      ghost var p := State();
      var due := SendEvent(env);
      EventSent(p, env);
      if due {
        return;
      }
      due := SendIsdu(env);
      IsduSent(p, env);
      if due {
        return;
      }
      if ValidationRequired(config) && !regs.info.valid {
        var ret := ReadDeviceInfo();
        if ret == PENDING {
          return;
        }
        if ret < 0 {
          link := link.(state := Error);
          return;
        }
      }
      Commission(env);
    }

    method ProcessOperate(env: Env)
      requires Valid()
      modifies this, tx, channel, reader`event
      ensures Valid() && State() == P.ProcessOperate(old(State()), env)
    {
      hide I.Wf, E.Wf, C.Channel.Valid, R.Reader.Valid, P.SendEvent, P.SendIsdu, P.SendCyclic, NextIsdu;
      ghost var p := State();
      var due := SendEvent(env);
      EventSent(p, env);
      if due {
        return;
      }
      due := SendIsdu(env);
      IsduSent(p, env);
      if due {
        return;
      }
      SendCyclic(env);
    }

    method ProcessAt(env: Env)
      requires Valid()
      modifies this, tx, channel, channel.request, reader`event
      ensures Valid() && State() == Process(old(State()), env)
    {
      hide I.Wf, E.Wf, C.Channel.Valid, R.Reader.Valid, P.ProcessStartup, P.ProcessPreoperate, P.ProcessOperate;
      if link.readyValid && Now(env) < link.readyAt {
        return;
      }
      if link.state == Startup {
        ProcessStartup(env);
      } else if link.state == Preoperate {
        ProcessPreoperate(env);
      } else if link.state == Operate {
        ProcessOperate(env);
      }
    }

    // ---- receiving ----------------------------------------------------------

    /** OD octets go to the event readout while it is engaged, else to the ISDU transport. */
    method RouteOd(od: seq<byte>)
      requires Valid()
      modifies channel, channel.response, reader`event, reader.memory
      ensures Valid() && State() == P.RouteOd(old(State()), od)
    {
      hide I.Wf, C.Channel.Valid, I.OnOd, E.OnOd;
      if reader.event.phase != E.EventNone {
        if reader.event.phase == E.EventRead && reader.event.odExpected {
          reader.event := reader.event.(odExpected := false);
          reader.OnOd(od);
        }
        return;
      }
      channel.OnOd(od);
    }

    /** A two-octet reply: one OD octet and CKS. */
    method OnShortReply(data: seq<byte>, env: Env) returns (ret: int)
      requires Valid() && |data| > 0
      modifies this`link, channel, channel.response, reader`event, reader.memory
      ensures Valid() && (State(), ret) == P.OnShortReply(old(State()), data, env)
    {
      hide I.Wf, E.Wf, C.Channel.Valid, R.Reader.Valid, ReplyOk, ReplyBad, ReplyGood, P.RouteOd;
      if |data| != 2 {
        return ERR_FRAME;
      }
      ghost var p := State();
      if !ReplyOk(data) {
        CountBadReply(env);
        assert (State(), ERR_CHECKSUM) == P.OnShortReply(p, data, env);
        return ERR_CHECKSUM;
      }
      AcceptReply(env);
      GoodKeepsWf(p, env);
      RouteOd(data[..1]);
      return OK;
    }

    /** An OPERATE reply with process data. */
    method OnCyclicReply(data: seq<byte>, env: Env) returns (ret: int)
      requires Valid() && |data| > 0
      modifies this, channel, channel.response, reader`event, reader.memory
      ensures Valid() && (State(), ret) == P.OnCyclicReply(old(State()), data, env)
    {
      hide I.Wf, E.Wf, C.Channel.Valid, R.Reader.Valid, DecodeReply, ReplyBad, ReplyGood, P.RouteOd;
      ghost var p := State();
      var decoded := DecodeReply(data, config.pdInLen, if link.odExpected then OdLen(config.mseq) else 0);
      if decoded.None? {
        return ERR_FRAME;
      }
      var reply := decoded.value;
      if !reply.ok {
        CountBadReply(env);
        assert (State(), ERR_CHECKSUM) == P.OnCyclicReply(p, data, env);
        return ERR_CHECKSUM;
      }
      AcceptReply(env);
      GoodKeepsWf(p, env);
      StoreReply(reply);
      RouteOd(reply.od);
      return OK;
    }

    /** Status, event flag and, if valid, process data of an accepted reply. */
    method StoreReply(reply: Decoded)
      modifies this`regs
      ensures regs == old(regs).(odStatus := reply.status, eventPending := reply.event,
                                 pdIn := if reply.pdValid then reply.pd else old(regs.pdIn),
                                 pdValid := reply.pdValid || old(regs.pdValid))
    {
      regs := regs.(odStatus := reply.status);
      regs := regs.(eventPending := reply.event);
      if reply.pdValid {
        regs := regs.(pdIn := reply.pd);
        regs := regs.(pdValid := true);
      }
    }

    /** Handle one whole reply. */
    method OnRx(data: seq<byte>, env: Env) returns (ret: int)
      requires Valid() && |data| > 0
      modifies this, channel, channel.response, reader`event, reader.memory
      ensures Valid() && (State(), ret) == P.OnRx(old(State()), data, env)
    {
      hide I.Wf, E.Wf, C.Channel.Valid, R.Reader.Valid, ReplyOk, ReplyBad, Established, Acknowledged,
           P.OnShortReply, P.OnCyclicReply;
      ghost var p := State();
      if link.state == Startup {
        if link.step != StepAwait || |data| != 2 {
          return ERR_FRAME;
        }
        if !ReplyOk(data) {
          link := link.(diag := link.diag.(checksumErrors := Bump(link.diag.checksumErrors)));
          assert (State(), ERR_CHECKSUM) == P.OnRx(p, data, env);
          return ERR_CHECKSUM;
        }
        Establish(env);
        regs := regs.(info := regs.info.(minCycleOctet := data[0]));
        assert (State(), OK) == P.OnRx(p, data, env);
        return OK;
      }
      if link.state == Preoperate && link.step == StepAck {
        if |data| != 1 {
          return ERR_FRAME;
        }
        if !ReplyOk(data) {
          CountBadReply(env);
          assert (State(), ERR_CHECKSUM) == P.OnRx(p, data, env);
          return ERR_CHECKSUM;
        }
        EnterOperateState(env, data[0]);
        regs := regs.(eventPending := data[0] >= 128);
        assert (State(), OK) == P.OnRx(p, data, env);
        return OK;
      }
      if link.state == Preoperate || (link.state == Operate && NoProcessData(config)) {
        ret := OnShortReply(data, env);
        return;
      }
      ret := OnCyclicReply(data, env);
    }

    /** A test message was answered: communication is established. */
    method Establish(env: Env)
      modifies this`link
      ensures link == Established(old(link), env)
    {
      AcceptReply(env);
      Log(EnterPreoperate(env.at));
      link := link.(attempts := 0);
      link := link.(state := Preoperate);
    }

    /** The DeviceOperate command was acknowledged. */
    method EnterOperateState(env: Env, ack: byte)
      modifies this`link
      ensures link == Acknowledged(old(link), env, ack)
    {
      AcceptReply(env);
      Log(EnterOperate(env.at, ack));
      link := link.(state := Operate);
    }

    /** One received octet: buffer it, and handle the reply it completes. */
    method OnOctet(octet: byte, expected: nat, env: Env) returns (done: bool, ret: int)
      requires Valid() && regs.rxLen < FRAME_BUF
      modifies this, rx, channel, channel.response, reader`event, reader.memory
      ensures Valid()
      ensures var q := old(State()).(rx := old(State()).rx + [octet]);
              if |q.rx| < expected then !done && ret == OK && State() == q
              else Wf(q) && var (t, code) := P.OnRx(q, q.rx, env); done && ret == code && State() == t.(rx := [])
    {
      hide I.Wf, E.Wf, C.Channel.Valid, R.Reader.Valid, P.OnRx;
      ghost var p := State();
      rx[regs.rxLen] := octet;
      regs := regs.(rxLen := regs.rxLen + 1);
      assert State() == p.(rx := p.rx + [octet]);
      if regs.rxLen < expected {
        return false, OK;
      }
      ret := OnRx(rx[..regs.rxLen], env);
      regs := regs.(rxLen := 0);
      return true, ret;
    }

    /** Read what the PHY has received and handle every whole reply. */
    method PollRx(env: Env) returns (ret: int)
      requires Valid()
      modifies this, rx, channel, channel.response, reader`event, reader.memory
      ensures Valid() && (State(), ret) == Poll(old(State()), env)
    {
      hide I.Wf, E.Wf, C.Channel.Valid, R.Reader.Valid, P.OnRx;
      ghost var p := State();
      if !Receiving(link) {
        return OK;
      }
      var expected := ExpectedLenOf();
      var frames := 0;
      assert env.rx[0..] == env.rx;
      for i := 0 to |env.rx|
        invariant Valid() && frames >= 0
        invariant PollOctets(p, env, env.rx, expected, 0) == PollOctets(State(), env, env.rx[i..], expected, frames)
      {
        assert env.rx[i..][0] == env.rx[i] && env.rx[i..][1..] == env.rx[i + 1..];
        if regs.rxLen >= FRAME_BUF {
          link := link.(state := Error);
          regs := regs.(rxLen := 0);
          return ERR_CHECKSUM;
        }
        var done, code := OnOctet(env.rx[i], expected, env);
        if done {
          if code != OK {
            return code;
          }
          frames := frames + 1;
        }
      }
      assert env.rx[|env.rx|..] == [];
      if env.rxFault {
        link := link.(state := Error);
        regs := regs.(rxLen := 0);
        return ERR_FRAME;
      }
      return frames;
    }

    method ExpectedLenOf() returns (n: nat)
      requires Valid()
      ensures n == ExpectedLen(State())
    {
      if link.state == Startup {
        return 2;
      }
      if link.state == Preoperate {
        return if link.step == StepAck then 1 else 2;
      }
      if link.state == Operate {
        var od := if NoProcessData(config) || link.odExpected then OdLen(config.mseq) else 0;
        return config.pdInLen + od + 1;
      }
      return 2;
    }

    // ---- the tick ------------------------------------------------------------

    /** Run a cycle if nothing is outstanding and the cycle is due, and account for a cyclic frame. */
    method RunCycle(env: Env)
      requires Valid()
      modifies this, tx, channel, channel.request, reader`event
      ensures Valid() && State() == P.RunCycle(old(State()), env)
    {
      hide I.Wf, E.Wf, C.Channel.Valid, R.Reader.Valid, Process, CycleDue, CycleStarted;
      if link.awaiting {
        return;
      }
      if !CycleDue(config, link, Now(env)) {
        return;
      }
      ghost var p := State();
      var before := link.cycles;
      ProcessAt(env);
      if link.cycles != before {
        AccountCycle(env);
      }
      assert State() == P.RunCycle(p, env);
    }

    /** Slips, jitter and the timer of a cycle just started. */
    method AccountCycle(env: Env)
      modifies this`link
      ensures link == CycleStarted(config, old(link), env)
    {
      hide Elapsed, Later, ResponseTimeout;
      var jitter := Jitter(config, link, Now(env));
      if jitter > 0 {
        link := link.(diag := link.diag.(slips := Bump(link.diag.slips)));
      }
      link := link.(diag := link.diag.(jitter := jitter));
      if jitter > link.diag.maxJitter {
        link := link.(diag := link.diag.(maxJitter := jitter));
      }
      link := link.(last := Now(env));
      link := link.(deadline := Later(Now(env), ResponseTimeout(config, RateOf(config, link))));
      link := link.(timerValid := true);
      link := link.(awaiting := true);
    }

    method TickAt(event: TickEvent, env: Env) returns (ret: int)
      requires Valid()
      modifies this, rx, tx, channel, channel.request, channel.response, reader`event, reader.memory
      ensures Valid() && (State(), ret) == Tick(old(State()), event, env)
    {
      hide I.Wf, E.Wf, C.Channel.Valid, R.Reader.Valid, Poll, P.RunCycle, OnTimeout;
      ret := PollRx(env);
      if ret < 0 {
        return;
      }
      if event == TickResponseTimeout {
        if !link.awaiting {
          return;
        }
        regs := regs.(rxLen := 0);
        link := link.(awaiting := false);
        var code := OnTimeoutAt(env);
        if code != OK {
          ret := code;
        }
        return;
      }
      if event == TickCycleDue {
        RunCycle(env);
      }
    }

    /** When the port next wants a tick. */
    method GetNextTickTime(now: u32) returns (next: u32)
      requires Valid()
      ensures next == NextTick(config, link, now)
    {
      if link.state == Inactive || link.state == Error {
        return now;
      }
      if link.awaiting {
        return if now >= link.deadline then now else link.deadline;
      }
      if link.state == Startup && link.readyValid && now < link.readyAt {
        return link.readyAt;
      }
      if link.state != Operate || config.minCycle == 0 || !link.timerValid {
        return now;
      }
      var due := (link.last + config.minCycle) % U32;
      return if now >= due then now else due;
    }
  }

  lemma GoodKeepsWf(p: Port, env: Env)
    requires Wf(p)
    ensures Wf(p.(link := ReplyGood(p.link, env)))
  {
    hide I.Wf, E.Wf;
  }

  lemma EventSent(p: Port, env: Env)
    requires Wf(p)
    ensures P.SendEvent(p, env).1 == E.Engaged(p.event)
    ensures !E.Engaged(p.event) ==> P.SendEvent(p, env).0 == p
  {
  }

  lemma IsduSent(p: Port, env: Env)
    requires Wf(p)
    ensures P.SendIsdu(p, env).1 == NextIsdu(p).Some?
    ensures NextIsdu(p).None? ==> P.SendIsdu(p, env).0 == p
  {
  }

  lemma OkReadIsWhole(s: I.Isdu, room: byte)
    ensures var reply := I.Read(s, true, 0, 0, room).1; reply.ret == OK ==> reply.len == |reply.data|
  {
  }

  lemma NothingTaken(s: I.Isdu)
    ensures !s.abortPending ==> I.TakeAbort(s) == s
    ensures !s.idlePending ==> I.TakeIdle(s) == s
  {
  }

  lemma OctetsIgnoreTransport(p: Port, s: I.Isdu, read: bool, flow: byte, od: seq<byte>)
    requires Wf(p) && I.Wf(s) && |od| <= OD_MAX
    ensures Wf(p.(isdu := s))
    ensures IsduOctets(p.(isdu := s), read, flow, od) == IsduOctets(p, read, flow, od)
  {
    hide I.Wf, E.Wf, Message;
  }
}
