/** The ISDU transport of one port as a value, with the transitions of the master
    handler (7.3.6.3): request segmentation, response reassembly and the read and
    write services on top of them. */
module IsduTransport {
  import opened Status
  import opened Octets
  import opened IsduCodec

  datatype Op = OpNone | OpRead | OpWrite

  datatype Phase = PhaseNone | PhaseRequest | PhaseWait | PhaseResponse

  // FlowCTRL values of Table 52; 0..15 are COUNT.
  const START: byte := 0x10
  const IDLE: byte := 0x11
  const ABORT: byte := 0x1F

  // Service results.
  const ERR_BUFFER_TOO_SMALL := -2
  const ERR_BUSY := -3
  const ERR_DEVICE := -4
  const ERR_INVALID_STATE := -5
  const ERR_VERIFY_FAILED := -6

  const NO_ERROR: u16 := 0
  const SEGMENTATION: u16 := 0x81

  /** `request` and `response` are the used parts of two buffers of `cap` octets. */
  datatype Isdu = Isdu(
    cap: nat,
    op: Op,
    phase: Phase,
    index: u16,
    subindex: byte,
    request: seq<byte>,
    pos: nat,
    flow: byte,
    expected: nat,
    response: seq<byte>,
    done: bool,
    idlePending: bool,
    abortPending: bool,
    error: u16,
    lastResult: int,
    lastError: u16)

  function Fresh(cap: nat): Isdu
  {
    Isdu(cap, OpNone, PhaseNone, 0, 0, [], 0, IDLE, 0, [], false, false, false, NO_ERROR, OK, NO_ERROR)
  }

  // ---- well-formed states ----------------------------------------------

  /** What the response buffer can hold while a response is being received. */
  ghost predicate Assembling(cap: nat, response: seq<byte>, expected: nat)
  {
    && 0 < |response| <= cap
    && response[0] != 0 && response[0] != 1 && response[0] % 16 != 0
    && (response[0] % 16 >= 2 ==> expected == response[0] % 16)
    && (response[0] % 16 == 1 && |response| == 1 ==> expected == 0)
    && (response[0] % 16 == 1 && |response| >= 2 ==> expected == response[1])
  }

  ghost predicate Wf(s: Isdu)
  {
    && 16 <= s.cap <= 256
    && |s.request| <= s.cap && s.pos <= |s.request|
    && |s.response| <= s.cap
    && s.flow < 32
    && (s.op == OpNone ==> s.phase == PhaseNone && !s.done && !s.idlePending)
    && (s.op != OpNone ==> (s.phase == PhaseNone <==> s.done))
    && (s.idlePending ==> s.done)
    && (!s.done ==> s.error == NO_ERROR)
    && (s.phase == PhaseRequest ==> s.pos < |s.request| && (s.flow <= 15 || s.flow == START))
    && (s.phase == PhaseWait ==> s.flow == START)
    && (s.phase == PhaseResponse ==> s.flow <= 15)
    && (s.phase == PhaseResponse ==>
          Assembling(s.cap, s.response, s.expected)
          && (|s.response| < s.expected || (s.expected == 0 && |s.response| == 1)))
  }

  // ---- outgoing octets -------------------------------------------------

  /** COUNT runs 1..15 and wraps to 0 (Table 52). */
  function NextFlow(flow: byte): (n: byte)
    ensures n <= 15
  {
    if flow == START || flow == IDLE then 1 else (flow + 1) % 16
  }

  /** Request octets the next M-sequence takes. */
  function Taken(s: Isdu, n: nat): (k: nat)
    requires s.pos <= |s.request|
    ensures s.pos + k <= |s.request|
  {
    if s.op != OpNone && s.phase == PhaseRequest then Min(|s.request| - s.pos, n) else 0
  }

  function FillOctets(s: Isdu, n: nat): (od: seq<byte>)
    requires s.pos <= |s.request|
    ensures |od| == n
  {
    var k := Taken(s, n);
    s.request[s.pos..s.pos + k] + Zeros(n - k)
  }

  function Fill(s: Isdu, n: nat): (t: Isdu)
    requires Wf(s)
    ensures Wf(t)
  {
    if s.op == OpNone then s
    else match s.phase
      case PhaseRequest =>
        var pos := s.pos + Taken(s, n);
        if pos >= |s.request| then s.(pos := pos, phase := PhaseWait, flow := START)
        else s.(pos := pos, flow := NextFlow(s.flow))
      case PhaseWait => s.(flow := START)
      case PhaseResponse => s.(flow := NextFlow(s.flow))
      case PhaseNone => s
  }

  /** The M-sequence the ISDU channel asks for, if any. */
  datatype Access = Quiet | Access(read: bool, flow: byte)

  function ChannelAccess(s: Isdu): Access
  {
    if s.op == OpNone || (s.done && !s.idlePending) then Quiet
    else if s.done then Access(true, IDLE)
    else Access(s.phase != PhaseRequest, s.flow)
  }

  // ---- incoming octets -------------------------------------------------

  function Fail(s: Isdu, error: u16): Isdu
  {
    s.(error := error, done := true, phase := PhaseNone)
  }

  /** Whole responses as the decoder receives them: these lengths keep its subtraction from wrapping. */
  ghost predicate Complete(cap: nat, response: seq<byte>)
  {
    && 2 <= |response| <= cap && response[0] != 1
    && (response[0] % 16 >= 2 ==> |response| >= response[0] % 16)
    && (response[0] % 16 == 1 ==> |response| >= response[1])
  }

  /** Even for ExtLength 0, 1 and 2 the payload length cannot go below zero. */
  lemma PayloadNeverUnderflows(cap: nat, response: seq<byte>)
    requires Complete(cap, response) && XorAll(response) == 0
    ensures |response| >= HeaderLen(response) + CHKPDU_LEN
  {
    if Extended(response) && |response| == 2 {
      assert response == [response[0], response[1]];
      XorAllPair(response[0], response[1]);
      assert false;
    }
  }

  function Decode(s: Isdu): (t: Isdu)
    requires Complete(s.cap, s.response)
    ensures t.done && t.phase == PhaseNone && |t.response| <= |s.response|
    ensures t.flow == s.flow && t.op == s.op
  {
    if XorAll(s.response) != 0 then Fail(s, SEGMENTATION).(abortPending := true)
    else if Negative(s.response) then
      var error := if |s.response| >= 4 then Word(s.response[1], s.response[2]) else SEGMENTATION;
      Fail(s, error).(idlePending := true)
    else
      PayloadNeverUnderflows(s.cap, s.response);
      s.(response := Payload(s.response), done := true, idlePending := true, phase := PhaseNone)
  }

  /** Decode once the declared length has arrived. */
  function Settle(s: Isdu): (t: Isdu)
    requires s.phase == PhaseResponse && Wf(s.(phase := PhaseWait, flow := START)) && s.op != OpNone && s.flow <= 15
    requires Assembling(s.cap, s.response, s.expected)
    requires s.response[0] % 16 == 1 ==> |s.response| >= 2
    ensures Wf(t) && t.flow == s.flow && t.op == s.op
  {
    if |s.response| >= s.expected then Decode(s) else s
  }

  predicate Listening(s: Isdu)
  {
    s.op != OpNone && !s.done && (s.phase == PhaseWait || s.phase == PhaseResponse)
  }

  /** The first octet of a response starts an empty buffer; the next read carries COUNT 1 (Table 52). */
  function Begin(s: Isdu): Isdu
  {
    if s.phase == PhaseWait then s.(phase := PhaseResponse, response := [], expected := 0, flow := 1) else s
  }

  /** A response with at least one octet, before its length is known or checked. */
  ghost predicate Stored(q: Isdu)
  {
    && q.op != OpNone && q.phase == PhaseResponse && q.flow <= 15
    && Wf(q.(phase := PhaseWait, flow := START))
    && 0 < |q.response| && q.response[0] > 1
    && (q.expected != 0 ==> Assembling(q.cap, q.response, q.expected))
    && (q.expected == 0 && |q.response| > 1 ==> q.response[0] % 16 == 1 && |q.response| == 2)
  }

  /** Learn the declared length when it is complete (A.5.3), and decode once it has arrived. */
  function Measure(q: Isdu): (t: Isdu)
    requires Stored(q)
    ensures Wf(t) && t.flow == q.flow && t.op == q.op
  {
    var nibble := q.response[0] % 16;
    if q.expected != 0 then Settle(q)
    else if nibble >= 2 then Settle(q.(expected := nibble))
    else if nibble == 0 then Fail(q, SEGMENTATION)
    else if |q.response| < 2 then q
    else Settle(q.(expected := q.response[1]))
  }

  /** One received octet. */
  function OnOctet(s: Isdu, b: byte): (t: Isdu)
    requires Wf(s)
    ensures Wf(t) && t.op == s.op && (s.phase != PhaseWait ==> t.flow == s.flow)
  {
    if !Listening(s) || (s.phase == PhaseWait && b <= 1) then s
    else
      var r := Begin(s);
      if |r.response| >= r.cap then Fail(r, SEGMENTATION) else Measure(r.(response := r.response + [b]))
  }

  function OnOd(s: Isdu, od: seq<byte>): (t: Isdu)
    requires Wf(s)
    ensures Wf(t)
  {
    if od == [] then s else OnOctet(OnOd(s, od[..|od| - 1]), od[|od| - 1])
  }

  lemma {:induction false} OnOdConcat(s: Isdu, a: seq<byte>, b: seq<byte>)
    requires Wf(s)
    ensures OnOd(OnOd(s, a), b) == OnOd(s, a + b)
  {
    if b == [] {
      assert a + b == a;
    } else {
      var p := b[..|b| - 1];
      OnOdConcat(s, a, p);
      assert (a + b)[..|a + b| - 1] == a + p;
    }
  }

  /** Outside WAIT and RESPONSE, and once done, received octets change nothing. */
  lemma {:induction false} DeafToOctets(s: Isdu, od: seq<byte>)
    requires Wf(s) && !Listening(s)
    ensures OnOd(s, od) == s
  {
    if od != [] { DeafToOctets(s, od[..|od| - 1]); }
  }

  lemma StillListening(s: Isdu, b: byte)
    requires Wf(s) && Listening(s) && !OnOctet(s, b).done
    ensures Listening(OnOctet(s, b))
  {
  }

  // ---- latches ---------------------------------------------------------

  function TakeIdle(s: Isdu): Isdu { s.(idlePending := false) }

  function TakeAbort(s: Isdu): Isdu { s.(abortPending := false) }

  // ---- read and write services -----------------------------------------

  predicate Busy(s: Isdu) { s.op != OpNone && !s.done }

  predicate Matches(s: Isdu, op: Op, index: u16, subindex: byte)
  {
    s.op == op && s.index == index && s.subindex == subindex
  }

  function Clear(s: Isdu): Isdu
  {
    Isdu(s.cap, OpNone, PhaseNone, 0, 0, [], 0, IDLE, 0, [], false, false, false, NO_ERROR, s.lastResult, s.lastError)
  }

  function Start(s: Isdu, r: Request): Isdu
    requires PlainTotal(r) <= 237
  {
    Isdu(s.cap, if r.read then OpRead else OpWrite, PhaseRequest, r.index, r.subindex, Encode(r), 0, START,
         0, [], false, false, false, NO_ERROR, s.lastResult, s.lastError)
  }

  /** A device error is latched, and the pending ABORT outlives the cleared service. */
  function FinishFailed(s: Isdu): Isdu
  {
    Clear(s).(abortPending := s.abortPending, lastError := s.error, lastResult := ERR_DEVICE)
  }

  /** What a read call gives back: a result, and the data and length when it completes. */
  datatype Reply = Reply(ret: int, len: nat, data: seq<byte>)

  function FinishRead(s: Isdu, room: byte): (Isdu, Reply)
  {
    if s.error != NO_ERROR then (FinishFailed(s), Reply(ERR_DEVICE, room, []))
    else if room < |s.response| then
      (s.(lastResult := ERR_BUFFER_TOO_SMALL), Reply(ERR_BUFFER_TOO_SMALL, Min(|s.response|, 255), []))
    else (Clear(s).(lastResult := OK), Reply(OK, |s.response|, s.response))
  }

  function Read(s: Isdu, communicating: bool, index: u16, subindex: byte, room: byte): (Isdu, Reply)
  {
    var r := Request(true, index, subindex, []);
    if !communicating then (s, Reply(ERR_INVALID_STATE, room, []))
    else if Busy(s) then
      (s, Reply(if Matches(s, OpRead, index, subindex) then PENDING else ERR_BUSY, room, []))
    else if s.done then
      if Matches(s, OpRead, index, subindex) then FinishRead(s, room) else (s, Reply(ERR_BUSY, room, []))
    else (Start(s, r), Reply(PENDING, room, []))
  }

  function FinishWrite(s: Isdu): (Isdu, int)
  {
    if s.error != NO_ERROR then (FinishFailed(s), ERR_DEVICE) else (Clear(s).(lastResult := OK), OK)
  }

  function Write(s: Isdu, communicating: bool, r: Request): (Isdu, int)
    requires !r.read
  {
    if !communicating then (s, ERR_INVALID_STATE)
    else if Busy(s) then (s, if Matches(s, OpWrite, r.index, r.subindex) then PENDING else ERR_BUSY)
    else if s.done then
      if Matches(s, OpWrite, r.index, r.subindex) then FinishWrite(s) else (s, ERR_BUSY)
    else if !WriteAccepted(r, s.cap) then (s, ERR_BUFFER_TOO_SMALL)
    else (Start(s, r), PENDING)
  }

  lemma ServicesKeepWf(s: Isdu, communicating: bool, r: Request, room: byte)
    requires Wf(s)
    ensures r.read && r.data == [] ==> Wf(Read(s, communicating, r.index, r.subindex, room).0)
    ensures !r.read ==> Wf(Write(s, communicating, r).0)
  {
    if Acceptable(r, s.cap) {
      AcceptableFits(r, s.cap);
    }
  }

  // ---- calls during a service ------------------------------------------

  /** While a service is in progress or its result not collected, a call for anything else, in direction, index
      or subindex, is refused and touches nothing; so is any call of a port that does not communicate. */
  lemma OtherCallsAreRefused(s: Isdu, communicating: bool, r: Request, room: byte)
    requires s.op != OpNone || !communicating
    requires (s.op == (if r.read then OpRead else OpWrite) && s.index == r.index && s.subindex == r.subindex) ==>
               !communicating
    ensures var refusal := if communicating then -3 else -5;
            if r.read then Read(s, communicating, r.index, r.subindex, room) == (s, Reply(refusal, room, []))
            else Write(s, communicating, r) == (s, refusal)
  {
  }

  /** The call that began a service is answered PENDING, and changes nothing, exactly until it is done. */
  lemma OwnCallsPoll(s: Isdu, r: Request, room: byte)
    requires Wf(s) && s.op == (if r.read then OpRead else OpWrite) && s.index == r.index && s.subindex == r.subindex
    ensures r.read ==>
              var (t, reply) := Read(s, true, r.index, r.subindex, room);
              (reply.ret == PENDING <==> !s.done) && (!s.done ==> t == s)
    ensures !r.read ==>
              var (t, ret) := Write(s, true, r); (ret == PENDING <==> !s.done) && (!s.done ==> t == s)
  {
  }

  /** A read refused for lack of room names the room it needs and keeps the data: a later call with that much
      returns it, and only then is the service over. */
  lemma RefusedForRoomKeepsData(s: Isdu, room: byte, more: byte)
    requires Wf(s) && s.op == OpRead && s.done && s.error == 0 && room < |s.response| <= more
    ensures var (t, reply) := Read(s, true, s.index, s.subindex, room);
            && reply == Reply(-2, |s.response|, []) && t == s.(lastResult := -2)
            && var (u, second) := Read(t, true, s.index, s.subindex, more);
               second == Reply(OK, |s.response|, s.response) && u.op == OpNone && u.lastResult == OK
  {
    hide Wf;
  }

  /** A latched error is told once: the call that collects it returns a device error, records the ErrorType, and
      leaves the transport free but for an ABORT not yet sent; the same call again starts a new service. */
  lemma ErrorIsCollectedOnce(s: Isdu, r: Request, room: byte)
    requires Wf(s) && s.op == (if r.read then OpRead else OpWrite) && s.index == r.index && s.subindex == r.subindex
    requires s.done && s.error != 0 && Acceptable(r, s.cap)
    ensures var (t, ret) := if r.read then var (t, reply) := Read(s, true, r.index, r.subindex, room); (t, reply.ret)
                            else Write(s, true, r);
            && ret == -4 && t.lastResult == -4 && t.lastError == s.error
            && t.op == OpNone && !t.done && !t.idlePending && t.abortPending == s.abortPending && t.error == 0
            && var (u, again) := if r.read then
                                   var (u, reply) := Read(t, true, r.index, r.subindex, room); (u, reply.ret)
                                 else Write(t, true, r);
               again == PENDING && u.op == s.op && u.phase == PhaseRequest && !u.abortPending
  {
    hide Encode, Assembling;
    AcceptableFits(r, s.cap);
  }
}
