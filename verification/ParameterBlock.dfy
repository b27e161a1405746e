/** The four-step parameter-block write on top of the ISDU services: download start, data,
    download end, verifying readback. */
module ParameterBlock {
  import opened Wrappers
  import opened Status
  import opened Octets
  import opened IsduCodec
  import opened IsduTransport
  import opened IsduExchange
  import DataStorage

  const SYSTEM_COMMAND: u16 := 2
  const DATA_STORAGE: u16 := 3
  const DOWNLOAD_START: byte := 3
  const DOWNLOAD_END: byte := 4

  datatype Step = StepNone | StepBegin | StepWrite | StepEnd | StepVerify

  datatype Block = Block(step: Step, index: u16, subindex: byte, data: seq<byte>)

  const NO_BLOCK := Block(StepNone, 0, 0, [])

  /** A service that ended well, with the request octets that were sent for it. */
  datatype Service = Wrote(request: seq<byte>) | ReadBack(request: seq<byte>, data: seq<byte>)

  /** The transport, the block transfer on top of it, and the services completed since the transfer began. */
  datatype Server = Server(isdu: Isdu, block: Block, history: seq<Service>)

  // ---- requests of a transfer -------------------------------------------

  function Command(command: byte): (r: Request)
    ensures PlainTotal(r) <= 15
  {
    Request(false, SYSTEM_COMMAND, 0, [command])
  }

  function Payload(b: Block): Request { Request(false, b.index, b.subindex, b.data) }

  function Readback(b: Block): (r: Request)
    ensures PlainTotal(r) <= 15
  {
    Request(true, b.index, b.subindex, [])
  }

  /** The verdict on a readback: record containment for the Data Storage object, equality otherwise. */
  predicate Verified(b: Block, data: seq<byte>)
  {
    if b.index == DATA_STORAGE && b.subindex == 0 then DataStorage.Verifies(data, b.data) else data == b.data
  }

  // ---- the steps -------------------------------------------------------

  /** A readback and its verdict. */
  function Verify(s: Isdu, communicating: bool, b: Block): (Isdu, int)
  {
    var (t, reply) := Read(s, communicating, b.index, b.subindex, 255);
    if reply.ret != OK then (t, reply.ret)
    else
      var ret := if Verified(b, reply.data) then OK else ERR_VERIFY_FAILED;
      (t.(lastResult := ret), ret)
  }

  function FromVerify(s: Server, communicating: bool): (Server, int)
  {
    var (t, ret) := Verify(s.isdu, communicating, s.block);
    var u := if ret == PENDING then t else t.(lastResult := ret);
    if ret == OK then (Server(u, NO_BLOCK, s.history + [ReadBack(s.isdu.request, s.isdu.response)]), ret)
    else (Server(u, if ret < 0 then NO_BLOCK else s.block, s.history), ret)
  }

  /** A write step: on success go on to `next`. */
  function Wrote1(s: Server, communicating: bool, r: Request, next: Step): (Server, int)
    requires !r.read
  {
    var (t, ret) := Write(s.isdu, communicating, r);
    if ret != OK then (s.(isdu := t), ret)
    else (Server(t, s.block.(step := next), s.history + [Wrote(s.isdu.request)]), OK)
  }

  function FromEnd(s: Server, communicating: bool): (Server, int)
  {
    var (t, ret) := Wrote1(s, communicating, Command(DOWNLOAD_END), StepVerify);
    if ret != OK then (t, ret) else FromVerify(t, communicating)
  }

  function FromWrite(s: Server, communicating: bool): (Server, int)
  {
    var (t, ret) := Wrote1(s, communicating, Payload(s.block), StepEnd);
    if ret != OK then (t, ret) else FromEnd(t, communicating)
  }

  function FromBegin(s: Server, communicating: bool): (Server, int)
  {
    var (t, ret) := Wrote1(s, communicating, Command(DOWNLOAD_START), StepWrite);
    if ret != OK then (t, ret) else FromWrite(t, communicating)
  }

  function Resume(s: Server, communicating: bool): (Server, int)
  {
    match s.block.step
    case StepWrite => FromWrite(s, communicating)
    case StepEnd => FromEnd(s, communicating)
    case StepVerify => FromVerify(s, communicating)
    case _ => FromBegin(s, communicating)
  }

  function WriteBlock(s: Server, communicating: bool, index: u16, subindex: byte, data: seq<byte>): (Server, int)
  {
    if |data| > s.isdu.cap - WRITE_HEADER_MAX then (s, ERR_BUFFER_TOO_SMALL)
    else if s.block.step == StepNone then
      Resume(Server(s.isdu, Block(StepBegin, index, subindex, data), []), communicating)
    else if s.block != Block(s.block.step, index, subindex, data) then
      (s.(isdu := s.isdu.(lastResult := ERR_BUSY)), ERR_BUSY)
    else Resume(s, communicating)
  }

  // ---- every run of a transfer -------------------------------------------

  /** What the transport may do between calls: anything that keeps the service and its request. */
  ghost predicate SameService(s: Isdu, t: Isdu)
  {
    Wf(t) && t.cap == s.cap && t.op == s.op && t.request == s.request
  }

  function Awaited(b: Block): Request
  {
    match b.step
    case StepWrite => Payload(b)
    case StepEnd => Command(DOWNLOAD_END)
    case StepVerify => Readback(b)
    case _ => Command(DOWNLOAD_START)
  }

  /** The transport holds exactly this request. */
  ghost predicate Ours(s: Isdu, r: Request)
  {
    && s.op == (if r.read then OpRead else OpWrite)
    && (r.read || WriteAccepted(r, s.cap)) && PlainTotal(r) <= 237 && s.request == Encode(r)
  }

  ghost predicate Sendable(b: Block, cap: nat)
  {
    WriteAccepted(Payload(b), cap) && PlainTotal(Payload(b)) <= 237
  }

  /** The services that end well before each step of a transfer, in order. */
  ghost function Before(b: Block): seq<Service>
    requires PlainTotal(Payload(b)) <= 237 || b.step.StepBegin? || b.step.StepWrite?
  {
    var start, end := Wrote(Encode(Command(DOWNLOAD_START))), Wrote(Encode(Command(DOWNLOAD_END)));
    match b.step
    case StepWrite => [start]
    case StepEnd => [start, Wrote(Encode(Payload(b)))]
    case StepVerify => [start, Wrote(Encode(Payload(b))), end]
    case _ => []
  }

  /** A whole transfer: start, the data, end, and a readback that verifies. */
  ghost predicate Whole(history: seq<Service>, b: Block, cap: nat)
  {
    && Sendable(b, cap)
    && |history| == 4
    && history[0] == Wrote(Encode(Command(DOWNLOAD_START)))
    && history[1] == Wrote(Encode(Payload(b)))
    && history[2] == Wrote(Encode(Command(DOWNLOAD_END)))
    && history[3].ReadBack? && history[3].request == Encode(Readback(b)) && Verified(b, history[3].data)
  }

  /** The completed services match the step, and the transport is free or carries the step's own
      request; an abandoned verification may have left its read behind. */
  ghost predicate OnTrack(s: Server)
  {
    && Wf(s.isdu)
    && match s.block.step
       case StepNone => s.isdu.op != OpWrite
       case StepBegin => s.history == [] && (s.isdu.op != OpWrite || Ours(s.isdu, Awaited(s.block)))
       case _ =>
         && (Sendable(s.block, s.isdu.cap) || s.block.step.StepWrite?)
         && s.history == Before(s.block) && (s.isdu.op == OpNone || Ours(s.isdu, Awaited(s.block)))
  }

  lemma WriteStep(s: Isdu, communicating: bool, r: Request)
    requires Wf(s) && !r.read && (s.op != OpWrite || Ours(s, r))
    ensures var (t, ret) := Write(s, communicating, r);
            && Wf(t) && t.cap == s.cap
            && (if ret == OK then t.op == OpNone && Ours(s, r)
                else (t.op == OpNone || t.op == s.op || Ours(t, r)) && (t.op != OpWrite || Ours(t, r)))
  {
    hide Encode, Wf, XorAll;
    ServicesKeepWf(s, communicating, r, 0);
    if Acceptable(r, s.cap) { AcceptableFits(r, s.cap); }
  }

  lemma VerifyStep(s: Isdu, communicating: bool, b: Block)
    requires Wf(s) && (s.op == OpNone || Ours(s, Readback(b)))
    ensures var (t, ret) := Verify(s, communicating, b);
            && Wf(t) && Wf(t.(lastResult := ret)) && t.cap == s.cap
            && (t.op == OpNone || Ours(t, Readback(b)))
            && (ret == OK ==> t.op == OpNone && s.request == Encode(Readback(b)) && Verified(b, s.response))
  {
    hide Encode, XorAll, Verified, Assembling;
    ServicesKeepWf(s, communicating, Readback(b), 255);
  }

  lemma VerifyKeepsTrack(s: Server, communicating: bool)
    requires OnTrack(s) && s.block.step == StepVerify
    ensures var (t, ret) := FromVerify(s, communicating);
            && OnTrack(t) && t.isdu.cap == s.isdu.cap
            && (t.block == NO_BLOCK || t.block == s.block)
            && (ret == OK ==> t.block == NO_BLOCK && Whole(t.history, s.block, s.isdu.cap))
  {
    hide Encode, Verified, Verify, Wf;
    VerifyStep(s.isdu, communicating, s.block);
  }

  lemma WroteKeepsTrack(s: Server, communicating: bool, r: Request, next: Step)
    requires OnTrack(s) && !s.block.step.StepNone? && !s.block.step.StepVerify? && r == Awaited(s.block)
    requires next == match s.block.step case StepBegin => StepWrite case StepWrite => StepEnd case _ => StepVerify
    ensures var (t, ret) := Wrote1(s, communicating, r, next);
            && OnTrack(t) && t.isdu.cap == s.isdu.cap
            && t.block == s.block.(step := if ret == OK then next else s.block.step)
  {
    hide Encode, Wf, Write, ParseRequest;
    WriteStep(s.isdu, communicating, r);
  }

  function Rank(step: Step): nat
  {
    match step case StepNone => 0 case StepBegin => 1 case StepWrite => 2 case StepEnd => 3 case StepVerify => 4
  }

  lemma EndKeepsTrack(s: Server, communicating: bool)
    requires OnTrack(s) && s.block.step == StepEnd
    ensures var (t, ret) := FromEnd(s, communicating); Progress(s, t, ret)
  {
    hide Wrote1, FromVerify;
    WroteKeepsTrack(s, communicating, Command(DOWNLOAD_END), StepVerify);
    var (t, ret) := Wrote1(s, communicating, Command(DOWNLOAD_END), StepVerify);
    if ret == OK { VerifyKeepsTrack(t, communicating); }
  }

  /** From one call to the next the step stays or advances, or the block is cleared; OK is
      returned only with a whole transfer behind it. */
  ghost predicate Progress(s: Server, t: Server, ret: int)
  {
    && OnTrack(t) && t.isdu.cap == s.isdu.cap
    && (t.block == NO_BLOCK
        || (t.block == s.block.(step := t.block.step) && Rank(t.block.step) >= Rank(s.block.step)))
    && (ret == OK ==> t.block == NO_BLOCK && Whole(t.history, s.block, s.isdu.cap))
  }

  lemma WriteKeepsTrack(s: Server, communicating: bool)
    requires OnTrack(s) && s.block.step == StepWrite
    ensures var (t, ret) := FromWrite(s, communicating); Progress(s, t, ret)
  {
    hide Wrote1, FromEnd, OnTrack;
    WroteKeepsTrack(s, communicating, Payload(s.block), StepEnd);
    var (t, ret) := Wrote1(s, communicating, Payload(s.block), StepEnd);
    if ret == OK { EndKeepsTrack(t, communicating); }
  }

  lemma ResumeKeepsTrack(s: Server, communicating: bool)
    requires OnTrack(s) && !s.block.step.StepNone?
    ensures var (t, ret) := Resume(s, communicating); Progress(s, t, ret)
  {
    hide Wrote1, FromVerify, FromEnd, FromWrite, OnTrack;
    match s.block.step {
      case StepWrite => WriteKeepsTrack(s, communicating);
      case StepEnd => EndKeepsTrack(s, communicating);
      case StepVerify => VerifyKeepsTrack(s, communicating);
      case StepNone =>
      case StepBegin =>
        WroteKeepsTrack(s, communicating, Command(DOWNLOAD_START), StepWrite);
        var (t, ret) := Wrote1(s, communicating, Command(DOWNLOAD_START), StepWrite);
        if ret == OK { WriteKeepsTrack(t, communicating); }
    }
  }

  /** Arguments of a transfer that is started or resumed. */
  predicate Resumes(s: Server, index: u16, subindex: byte, data: seq<byte>)
  {
    s.block.step == StepNone || s.block == Block(s.block.step, index, subindex, data)
  }

  lemma CallKeepsTrack(s: Server, communicating: bool, index: u16, subindex: byte, data: seq<byte>)
    requires OnTrack(s) && Resumes(s, index, subindex, data)
    ensures var (t, ret) := WriteBlock(s, communicating, index, subindex, data);
            && OnTrack(t) && t.isdu.cap == s.isdu.cap
            && Resumes(t, index, subindex, data)
            && (t.block.step != StepNone ==> Rank(t.block.step) >= Rank(s.block.step))
            && (ret == OK ==>
                  t.block == NO_BLOCK && Whole(t.history, Block(StepNone, index, subindex, data), s.isdu.cap))
  {
    hide Resume, Encode, Before, DataStorage.Verifies;
    if |data| <= s.isdu.cap - WRITE_HEADER_MAX {
      var u := if s.block.step == StepNone then Server(s.isdu, Block(StepBegin, index, subindex, data), []) else s;
      ResumeKeepsTrack(u, communicating);
    }
  }

  /** A call with other arguments leaves the transfer as it is; unless its data could not be sent at all, its refusal is
      the last result. */
  lemma OtherArgumentsAreRefused(s: Server, communicating: bool, index: u16, subindex: byte, data: seq<byte>)
    requires !Resumes(s, index, subindex, data)
    ensures var (t, ret) := WriteBlock(s, communicating, index, subindex, data);
            if |data| > s.isdu.cap - 7 then ret == -2 && t == s
            else ret == -3 && t == s.(isdu := s.isdu.(lastResult := -3))
  {
  }

  /** Whatever ends the verification, an error before the readback included, is the last result. */
  lemma VerificationIsRecorded(s: Server, communicating: bool)
    requires s.block.step == StepVerify && |s.block.data| <= s.isdu.cap - 7
    ensures var (t, ret) := WriteBlock(s, communicating, s.block.index, s.block.subindex, s.block.data);
            && (ret != PENDING ==> t.isdu.lastResult == ret)
            && (t.block == if ret <= 0 then NO_BLOCK else s.block)
  {
    hide Verified, Encode;
  }

  datatype Event =
    | Transport(after: Isdu)
    | Call(communicating: bool, index: u16, subindex: byte, data: seq<byte>)

  ghost function Happen(p: Server, e: Event): Server
  {
    match e
    case Transport(t) => if SameService(p.isdu, t) then p.(isdu := t) else p
    case Call(communicating, index, subindex, data) => WriteBlock(p, communicating, index, subindex, data).0
  }

  /** Any interleaving of transport progress and calls. */
  ghost function After(s: Server, events: seq<Event>): Server
  {
    if events == [] then s else Happen(After(s, events[..|events| - 1]), events[|events| - 1])
  }

  /** Every call has these arguments. */
  predicate SameArguments(events: seq<Event>, index: u16, subindex: byte, data: seq<byte>)
  {
    forall e :: e in events && e.Call? ==> e.index == index && e.subindex == subindex && e.data == data
  }

  lemma {:induction false} RunKeepsTrack(s: Server, index: u16, subindex: byte, data: seq<byte>, events: seq<Event>)
    requires Wf(s.isdu) && s.isdu.op == OpNone && s.block == NO_BLOCK && SameArguments(events, index, subindex, data)
    ensures var t := After(s, events);
            OnTrack(t) && Resumes(t, index, subindex, data) && t.isdu.cap == s.isdu.cap
  {
    hide WriteBlock, Encode, Before;
    if events != [] {
      var last := events[|events| - 1];
      RunKeepsTrack(s, index, subindex, data, events[..|events| - 1]);
      assert last in events;
      if last.Call? {
        CallKeepsTrack(After(s, events[..|events| - 1]), last.communicating, index, subindex, data);
      }
    }
  }

  /** The data read back is the data written; for the Data Storage object, holds its records. */
  ghost predicate Agrees(index: u16, subindex: byte, data: seq<byte>, readback: seq<byte>)
  {
    if (index, subindex) == (3, 0) then DataStorage.Agrees(readback, data) else readback == data
  }

  lemma VerdictIsAgreement(b: Block, readback: seq<byte>)
    ensures Verified(b, readback) <==> Agrees(b.index, b.subindex, b.data, readback)
  {
    hide DataStorage.Verifies, DataStorage.Agrees;
    DataStorage.VerifiesExactly(readback, b.data);
  }

  /** A whole transfer, read off the octets that were sent: a write of 3 to object 2, the data to its object, a
      write of 4 to object 2, and a read of the object that agreed. */
  ghost predicate Transferred(history: seq<Service>, index: u16, subindex: byte, data: seq<byte>)
  {
    && |history| == 4
    && history[0].Wrote? && ParseRequest(history[0].request) == Some(Request(false, 2, 0, [3]))
    && history[1].Wrote? && ParseRequest(history[1].request) == Some(Request(false, index, subindex, data))
    && history[2].Wrote? && ParseRequest(history[2].request) == Some(Request(false, 2, 0, [4]))
    && history[3].ReadBack? && ParseRequest(history[3].request) == Some(Request(true, index, subindex, []))
    && Agrees(index, subindex, data, history[3].data)
  }

  lemma WholeIsTransferred(history: seq<Service>, b: Block, cap: nat)
    requires 16 <= cap && Whole(history, b, cap)
    ensures Transferred(history, b.index, b.subindex, b.data)
  {
    hide Encode, ParseRequest, Verified, Agrees;
    RequestRoundTrip(Command(DOWNLOAD_START), cap);
    RequestRoundTrip(Payload(b), cap);
    RequestRoundTrip(Command(DOWNLOAD_END), cap);
    RequestRoundTrip(Readback(b), cap);
    VerdictIsAgreement(b, history[3].data);
  }

  /** In every run from an idle transport, a call returns OK only after exactly download start, the data,
      download end and a readback that agrees have completed, in this order. */
  lemma OkMeansWholeTransfer(s: Server, index: u16, subindex: byte, data: seq<byte>, events: seq<Event>,
                             communicating: bool)
    requires Wf(s.isdu) && s.isdu.op == OpNone && s.block == NO_BLOCK && SameArguments(events, index, subindex, data)
    ensures var (t, ret) := WriteBlock(After(s, events), communicating, index, subindex, data);
            ret == OK ==> Transferred(t.history, index, subindex, data) && t.block == NO_BLOCK
  {
    hide WriteBlock, OnTrack, Whole, Transferred;
    RunKeepsTrack(s, index, subindex, data, events);
    CallKeepsTrack(After(s, events), communicating, index, subindex, data);
    var (t, ret) := WriteBlock(After(s, events), communicating, index, subindex, data);
    if ret == OK { WholeIsTransferred(t.history, Block(StepNone, index, subindex, data), s.isdu.cap); }
  }

  /** The call that collects the readback ends the transfer: OK if it agrees, a failed verification if not, and a
      device error is passed on. */
  lemma ReadbackDecides(s: Server, index: u16, subindex: byte, data: seq<byte>)
    requires Wf(s.isdu) && s.block == Block(StepVerify, index, subindex, data)
    requires |data| + WRITE_HEADER_MAX <= s.isdu.cap
    requires s.isdu.op == OpRead && s.isdu.done && s.isdu.index == index && s.isdu.subindex == subindex
    ensures var (t, ret) := WriteBlock(s, true, index, subindex, data);
            && t.block == NO_BLOCK && t.isdu.lastResult == ret
            && ret == (if s.isdu.error != NO_ERROR then ERR_DEVICE
                       else if |s.isdu.response| > 255 then ERR_BUFFER_TOO_SMALL
                       else if Agrees(index, subindex, data, s.isdu.response) then OK else ERR_VERIFY_FAILED)
  {
    hide Verified, Agrees, Assembling;
    VerdictIsAgreement(s.block, s.isdu.response);
  }

  // ---- when a started transfer can end ------------------------------------

  /** A transfer between download start and the data, its transport free. */
  ghost predicate Started(s: Server)
  {
    && Wf(s.isdu) && s.isdu.op == OpNone
    && s.block.step == StepWrite && |s.block.data| + WRITE_HEADER_MAX <= s.isdu.cap
  }

  lemma RefusedCall(s: Server, communicating: bool, index: u16, subindex: byte, data: seq<byte>)
    requires Started(s) && !WriteAccepted(Payload(s.block), s.isdu.cap)
    ensures var (t, ret) := WriteBlock(s, communicating, index, subindex, data);
            ret < 0 && Started(t) && t.block == s.block && t.isdu.cap == s.isdu.cap
  {
    hide Encode, XorAll, Assembling;
  }

  /** Data the block's guard admits but the encoder refuses is latched for good: every later call, with
      whatever arguments, is an error. */
  lemma {:induction false} RefusedBlockIsLatched(s: Server, events: seq<Event>)
    requires Started(s) && !WriteAccepted(Payload(s.block), s.isdu.cap)
    ensures var t := After(s, events);
            && Started(t) && t.block == s.block && t.isdu.cap == s.isdu.cap
            && forall communicating, index, subindex, data :: WriteBlock(t, communicating, index, subindex, data).1 < 0
  {
    hide WriteBlock, Assembling;
    if events != [] {
      var p, last := After(s, events[..|events| - 1]), events[|events| - 1];
      RefusedBlockIsLatched(s, events[..|events| - 1]);
      if last.Call? { RefusedCall(p, last.communicating, last.index, last.subindex, last.data); }
    }
    var t := After(s, events);
    forall communicating, index, subindex, data
      ensures WriteBlock(t, communicating, index, subindex, data).1 < 0
    {
      RefusedCall(t, communicating, index, subindex, data);
    }
  }

  /** A service answered well, as one step of transport progress. */
  function Answered(s: Isdu, response: seq<byte>): Isdu
  {
    s.(phase := PhaseNone, done := true, idlePending := true, response := response)
  }

  /** One answer and the call after it take a transfer from a step to the start of the next. */
  lemma AnsweredWrite(s: Server, r: Request, next: Step)
    requires Wf(s.isdu) && Ours(s.isdu, r) && !r.read && !s.isdu.done && r == Awaited(s.block)
    requires s.block.step == StepWrite || s.block.step == StepEnd
    requires next == if s.block.step == StepWrite then StepEnd else StepVerify
    requires s.isdu.index == r.index && s.isdu.subindex == r.subindex && |s.block.data| + WRITE_HEADER_MAX <= s.isdu.cap
    ensures SameService(s.isdu, Answered(s.isdu, []))
    ensures var b, r2 := s.block.(step := next), Awaited(s.block.(step := next));
            var t := WriteBlock(s.(isdu := Answered(s.isdu, [])), true, b.index, b.subindex, b.data).0;
            && t.block == b && Wf(t.isdu) && Ours(t.isdu, r2) && !t.isdu.done && t.isdu.cap == s.isdu.cap
            && t.isdu.index == r2.index && t.isdu.subindex == r2.subindex
  {
    hide Encode, XorAll, Assembling, DataStorage.Verifies;
    AcceptableFits(Awaited(s.block.(step := next)), s.isdu.cap);
  }

  lemma AnsweredRead(s: Server)
    requires Wf(s.isdu) && Ours(s.isdu, Readback(s.block)) && !s.isdu.done && s.block.step == StepVerify
    requires s.isdu.index == s.block.index && s.isdu.subindex == s.block.subindex
    requires |s.block.data| + WRITE_HEADER_MAX <= s.isdu.cap
    ensures SameService(s.isdu, Answered(s.isdu, s.block.data))
    ensures var b := s.block;
            WriteBlock(s.(isdu := Answered(s.isdu, b.data)), true, b.index, b.subindex, b.data).0.block == NO_BLOCK
  {
    hide Encode, XorAll, Assembling, DataStorage.Verifies;
    DataStorage.ExactReadbackVerifies(s.block.data);
  }

  /** Data the encoder accepts can be carried to the end. */
  lemma AcceptedBlockCanEnd(s: Server) returns (events: seq<Event>)
    requires Started(s) && WriteAccepted(Payload(s.block), s.isdu.cap)
    ensures SameArguments(events, s.block.index, s.block.subindex, s.block.data)
    ensures After(s, events).block == NO_BLOCK
  {
    hide WriteBlock, Encode, Assembling, Ours;
    var b := s.block;
    var call := Call(true, b.index, b.subindex, b.data);
    StartedCall(s);
    var s1 := WriteBlock(s, true, b.index, b.subindex, b.data).0;
    AnsweredWrite(s1, Payload(b), StepEnd);
    var t1 := Transport(Answered(s1.isdu, []));
    var s2 := WriteBlock(s1.(isdu := t1.after), true, b.index, b.subindex, b.data).0;
    AnsweredWrite(s2, Command(DOWNLOAD_END), StepVerify);
    var t2 := Transport(Answered(s2.isdu, []));
    var s3 := WriteBlock(s2.(isdu := t2.after), true, b.index, b.subindex, b.data).0;
    AnsweredRead(s3);
    var t3 := Transport(Answered(s3.isdu, b.data));
    events := [];
    events := Extended(s, events, call);
    events := Extended(s, events, t1);
    events := Extended(s, events, call);
    events := Extended(s, events, t2);
    events := Extended(s, events, call);
    events := Extended(s, events, t3);
    events := Extended(s, events, call);
  }

  lemma Extended(s: Server, events: seq<Event>, e: Event) returns (longer: seq<Event>)
    ensures longer == events + [e] && After(s, longer) == Happen(After(s, events), e)
  {
    longer := events + [e];
    assert longer[..|events|] == events;
  }

  /** The call that starts the data write. */
  lemma StartedCall(s: Server)
    requires Started(s) && WriteAccepted(Payload(s.block), s.isdu.cap)
    ensures var b := s.block;
            var t := WriteBlock(s, true, b.index, b.subindex, b.data).0;
            && t.block == b && Wf(t.isdu) && Ours(t.isdu, Payload(b)) && !t.isdu.done && t.isdu.cap == s.isdu.cap
            && t.isdu.index == b.index && t.isdu.subindex == b.subindex
  {
    hide Encode, XorAll, Assembling;
    AcceptableFits(Payload(s.block), s.isdu.cap);
  }

  /** Past download start, a transfer is ever cleared exactly when the encoder accepts its data. */
  lemma StartedTransferCanEndExactly(s: Server)
    requires Started(s)
    ensures (exists events :: After(s, events).block == NO_BLOCK) <==> WriteAccepted(Payload(s.block), s.isdu.cap)
  {
    hide WriteBlock, Encode, Assembling;
    if WriteAccepted(Payload(s.block), s.isdu.cap) {
      var events := AcceptedBlockCanEnd(s);
    } else {
      forall events ensures After(s, events).block == s.block { RefusedBlockIsLatched(s, events); }
    }
  }

  /** From idle, data the guard admits and the encoder refuses gets a download start out and then wedges. */
  lemma RefusedDataWedges(s: Server, index: u16, subindex: byte, data: seq<byte>)
    requires Wf(s.isdu) && s.isdu.op == OpNone && s.block == NO_BLOCK && |data| + WRITE_HEADER_MAX <= s.isdu.cap
    requires !WriteAccepted(Request(false, index, subindex, data), s.isdu.cap)
    ensures var (s1, r1) := WriteBlock(s, true, index, subindex, data);
            && r1 == PENDING && s1.isdu.request == Encode(Command(DOWNLOAD_START))
            && SameService(s1.isdu, Answered(s1.isdu, []))
            && var (s2, r2) := WriteBlock(s1.(isdu := Answered(s1.isdu, [])), true, index, subindex, data);
               r2 == ERR_BUFFER_TOO_SMALL && Started(s2) && s2.block == Block(StepWrite, index, subindex, data)
  {
    hide Encode, XorAll, Assembling;
    AcceptableFits(Command(DOWNLOAD_START), s.isdu.cap);
  }

  // ---- a transfer to a conformant device ---------------------------------

  /** Exchange until the device has answered the service in progress, then call again. */
  function Stage(s: Server, d: Device, w: nat, index: u16, subindex: byte, data: seq<byte>): (Server, Device, int)
    requires Wf(s.isdu) && w > 0
  {
    var n := Exchanges(s.isdu.request, NextPolls(d.busy), Answer(d.objects, s.isdu.request).1, w);
    var (m, d') := Run(s.isdu, d, w, n);
    var (t, ret) := WriteBlock(s.(isdu := m), true, index, subindex, data);
    (t, d', ret)
  }

  ghost predicate Conformant(d: Device, w: nat)
  {
    ConformantPolls([], w) && forall i :: 0 <= i < |d.busy| ==> ConformantPolls(d.busy[i], w)
  }

  /** The transfer waits for the service of its step, started from the resting transport `m`. */
  ghost predicate Waiting(s: Server, m: Isdu, step: Step, index: u16, subindex: byte, data: seq<byte>)
  {
    && AtRest(m) && s.block == Block(step, index, subindex, data)
    && !step.StepNone? && Sendable(s.block, m.cap) && PlainTotal(Awaited(s.block)) <= 237
    && Wf(s.isdu) && s.isdu == Start(m, Awaited(s.block))
  }

  function Rested(m: Isdu): Isdu { Clear(m).(lastResult := OK) }

  /** The call after a write step has been answered starts the service of the next step. */
  lemma WriteStage(s: Server, m: Isdu, d: Device, w: nat, step: Step, next: Step, index: u16, subindex: byte,
                   data: seq<byte>)
    requires Waiting(s, m, step, index, subindex, data) && Conformant(d, w) && w > 0
    requires next == match step case StepBegin => StepWrite case StepWrite => StepEnd case _ => StepVerify
    requires step != StepVerify
    ensures var (t, d', ret) := Stage(s, d, w, index, subindex, data);
            && ret == PENDING && Conformant(d', w) && Waiting(t, Rested(m), next, index, subindex, data)
            && var r := Awaited(s.block); d'.objects == d.objects[(r.index, r.subindex) := r.data]
  {
    hide Answer, Encode, Exchange, Run, Takes, Exchanges, Assembling, DataStorage.Verifies, ParseRequest,
         ConformantPolls;
    var r := Awaited(s.block);
    AnswerToWrite(d.objects, r, m.cap);
    WriteCompletes(m, d, w, r);
    var r2 := Awaited(s.block.(step := next));
    StartsAtRest(Rested(m), r2);
  }

  lemma StartsAtRest(m: Isdu, r: Request)
    requires AtRest(m) && Acceptable(r, m.cap)
    ensures PlainTotal(r) <= 237 && Wf(Start(m, r))
    ensures !r.read ==> Write(m, true, r) == (Start(m, r), PENDING)
    ensures r.read ==>
              forall room: byte :: Read(m, true, r.index, r.subindex, room) == (Start(m, r), Reply(PENDING, room, []))
  {
    hide Encode;
    AcceptableFits(r, m.cap);
  }

  /** The call after the readback has been answered ends the transfer with the verdict on what the device holds. */
  lemma VerifyStage(s: Server, m: Isdu, d: Device, w: nat, index: u16, subindex: byte, data: seq<byte>)
    requires Waiting(s, m, StepVerify, index, subindex, data) && Conformant(d, w) && w > 0
    requires (index, subindex) in d.objects
    requires |d.objects[(index, subindex)]| <= OBJECT_MAX && |d.objects[(index, subindex)]| + 3 <= m.cap
    ensures var (t, d', ret) := Stage(s, d, w, index, subindex, data);
            && ret == (if Verified(s.block, d.objects[(index, subindex)]) then OK else ERR_VERIFY_FAILED)
            && t.block == NO_BLOCK && AtRest(t.isdu) && d'.objects == d.objects
  {
    hide Answer, Encode, Exchange, Run, Takes, Exchanges, Assembling, DataStorage.Verifies, ParseRequest,
         ConformantPolls, Verified;
    AnswerToRead(d.objects, Readback(s.block));
    ReadCompletes(m, d, w, index, subindex, 255);
  }

  /** What a device holds after a transfer: the download commands go to an object of their own. */
  function HeldAfter(index: u16, subindex: byte, data: seq<byte>): seq<byte>
  {
    if (index, subindex) == (SYSTEM_COMMAND, 0) then [DOWNLOAD_END] else data
  }

  /** Against a conformant device, every block the encoder accepts is transferred in four services, and the
      device ends up holding the data. Only a block addressed to the object of the download commands itself
      fails its verification, unless its data is the last of them. */
  lemma TransferCompletes(s: Server, d: Device, w: nat, index: u16, subindex: byte, data: seq<byte>)
    requires AtRest(s.isdu) && s.block == NO_BLOCK && Conformant(d, w) && w > 0
    requires WriteAccepted(Request(false, index, subindex, data), s.isdu.cap)
    ensures var (s1, r1) := WriteBlock(s, true, index, subindex, data);
            && r1 == PENDING && Wf(s1.isdu)
            && var (s2, d2, r2) := Stage(s1, d, w, index, subindex, data);
            && r2 == PENDING && Wf(s2.isdu)
            && var (s3, d3, r3) := Stage(s2, d2, w, index, subindex, data);
            && r3 == PENDING && Wf(s3.isdu)
            && var (s4, d4, r4) := Stage(s3, d3, w, index, subindex, data);
            && r4 == PENDING && Wf(s4.isdu)
            && var (s5, d5, r5) := Stage(s4, d4, w, index, subindex, data);
            && s5.block == NO_BLOCK && AtRest(s5.isdu)
            && (index, subindex) in d5.objects && d5.objects[(index, subindex)] == HeldAfter(index, subindex, data)
            && (r5 == OK <==> (index, subindex) != (SYSTEM_COMMAND, 0) || data == [DOWNLOAD_END])
            && (r5 == OK || r5 == ERR_VERIFY_FAILED)
  {
    hide Stage, Encode, Assembling, Conformant, DataStorage.Verifies;
    var m := s.isdu;
    StartsAtRest(m, Command(DOWNLOAD_START));
    var s1 := WriteBlock(s, true, index, subindex, data).0;
    assert Waiting(s1, m, StepBegin, index, subindex, data);
    WriteStage(s1, m, d, w, StepBegin, StepWrite, index, subindex, data);
    var (s2, d2, r2) := Stage(s1, d, w, index, subindex, data);
    WriteStage(s2, Rested(m), d2, w, StepWrite, StepEnd, index, subindex, data);
    var (s3, d3, r3) := Stage(s2, d2, w, index, subindex, data);
    WriteStage(s3, Rested(Rested(m)), d3, w, StepEnd, StepVerify, index, subindex, data);
    var (s4, d4, r4) := Stage(s3, d3, w, index, subindex, data);
    assert d4.objects[(index, subindex)] == HeldAfter(index, subindex, data);
    DataStorage.ExactReadbackVerifies(data);
    VerifyStage(s4, Rested(Rested(Rested(m))), d4, w, index, subindex, data);
  }
}
