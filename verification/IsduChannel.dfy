/** The ISDU handler of a port as the program keeps it: two fixed buffers and the
    transport fields, updated in place. Every method computes the transition of the
    same name in IsduTransport. */
module IsduChannel {
  import opened Status
  import opened Octets
  import opened IsduCodec
  import T = IsduTransport
  import opened IsduTransport

  /** XOR checksum over the first `len` octets of a buffer (A.5.6). */
  method Chkpdu(data: array<byte>, len: nat) returns (chk: byte)
    requires len <= data.Length
    ensures chk == XorAll(data[..len])
  {
    hide XorNat;
    chk := 0;
    for i := 0 to len
      invariant chk == XorAll(data[..i])
    {
      assert data[..i + 1][..i] == data[..i];
      chk := Xor(chk, data[i]);
    }
  }

  /** Zero `n` octets from position `at`. */
  method Wipe(data: array<byte>, at: nat, n: nat)
    requires at + n <= data.Length
    modifies data
    ensures data[..] == old(data[..at]) + Zeros(n) + old(data[at + n..])
  {
    for i := 0 to n
      invariant data[..] == old(data[..at]) + Zeros(i) + old(data[at + i..])
    {
      data[at + i] := 0;
    }
  }

  /** Copy octets into a buffer from position `at`. */
  method Put(data: array<byte>, at: nat, octets: seq<byte>)
    requires at + |octets| <= data.Length
    modifies data
    ensures data[..] == old(data[..at]) + octets + old(data[at + |octets|..])
  {
    for i := 0 to |octets|
      invariant data[..] == old(data[..at]) + octets[..i] + old(data[at + i..])
    {
      data[at + i] := octets[i];
    }
  }

  /** Copy `len` octets from `start` to the front of the same buffer; the regions may overlap. */
  method MoveDown(data: array<byte>, start: nat, len: nat)
    requires start + len <= data.Length
    modifies data
    ensures data[..len] == old(data[start..start + len])
  {
    for i := 0 to len
      invariant data[..i] == old(data[start..start + i])
      invariant forall j :: start + i <= j < data.Length ==> data[j] == old(data[j])
    {
      data[i] := data[start + i];
      assert data[..i + 1] == data[..i] + [data[i]];
    }
  }

  lemma Overlay(before: seq<byte>, at: nat, n: nat, octets: seq<byte>)
    requires at + n <= |before| && |octets| <= n
    ensures var wiped := before[..at] + Zeros(n) + before[at + n..];
            wiped[..at] + octets + wiped[at + |octets|..]
            == before[..at] + (octets + Zeros(n - |octets|)) + before[at + n..]
  {
  }

  lemma NothingToFill(s: Isdu, n: nat)
    requires s.pos <= |s.request|
    ensures s.op == OpNone || s.phase != PhaseRequest ==> FillOctets(s, n) == Zeros(n)
  {
    assert [] + Zeros(n) == Zeros(n);
  }

  lemma FilledOctets(s: Isdu, n: nat, octets: seq<byte>)
    requires s.pos <= |s.request| && s.op != OpNone && s.phase == PhaseRequest
    requires octets == s.request[s.pos..s.pos + Min(|s.request| - s.pos, n)]
    ensures FillOctets(s, n) == octets + Zeros(n - |octets|)
  {
  }

  /** The scalar fields of the handler; `requestLen` and `responseLen` bound the used part of each buffer. */
  datatype Registers = Registers(
    op: Op,
    phase: Phase,
    index: u16,
    subindex: byte,
    requestLen: nat,
    pos: nat,
    flow: byte,
    expected: nat,
    responseLen: nat,
    done: bool,
    idlePending: bool,
    abortPending: bool,
    error: u16,
    lastResult: int,
    lastError: u16)

  class Channel {
    const request: array<byte>
    const response: array<byte>
    var isdu: Registers

    ghost predicate Shape()
      reads this, request, response
    {
      && request != response
      && 16 <= request.Length == response.Length <= 256
      && isdu.requestLen <= request.Length && isdu.responseLen <= response.Length
    }

    ghost function State(): Isdu
      reads this, request, response
      requires Shape()
    {
      Isdu(request.Length, isdu.op, isdu.phase, isdu.index, isdu.subindex, request[..isdu.requestLen], isdu.pos,
           isdu.flow, isdu.expected, response[..isdu.responseLen], isdu.done, isdu.idlePending, isdu.abortPending,
           isdu.error, isdu.lastResult, isdu.lastError)
    }

    ghost predicate Valid()
      reads this, request, response
    {
      Shape() && Wf(State())
    }

    constructor (cap: nat)
      requires 16 <= cap <= 256
      ensures Valid() && fresh(request) && fresh(response)
      ensures State() == Fresh(cap)
    {
      request := new byte[cap](_ => 0);
      response := new byte[cap](_ => 0);
      isdu := Registers(OpNone, PhaseNone, 0, 0, 0, 0, IDLE, 0, 0, false, false, false, NO_ERROR, OK, NO_ERROR);
    }

    method Clear()
      requires Shape()
      modifies this
      ensures Shape() && State() == T.Clear(old(State()))
    {
      isdu := Registers(OpNone, PhaseNone, 0, 0, 0, 0, IDLE, 0, 0, false, false, false, NO_ERROR,
                        isdu.lastResult, isdu.lastError);
    }

    // ---- transport -----------------------------------------------------

    /** The next request octets, zero padded, written to `n` OD octets of an outgoing frame. */
    method WriteOctets(od: array<byte>, at: nat, n: nat)
      requires Valid() && at + n <= od.Length && od != request && od != response
      modifies od
      ensures od[..] == old(od[..at]) + FillOctets(State(), n) + old(od[at + n..])
    {
      hide XorNat, Encode, Assembling, FillOctets;
      ghost var before := od[..];
      Wipe(od, at, n);
      NothingToFill(State(), n);
      if isdu.op != OpNone && isdu.phase == PhaseRequest {
        var octets := request[isdu.pos..isdu.pos + Min(isdu.requestLen - isdu.pos, n)];
        assert octets == State().request[isdu.pos..isdu.pos + |octets|];
        FilledOctets(State(), n, octets);
        Put(od, at, octets);
        Overlay(before, at, n, octets);
      }
    }

    /** Advance past `n` OD octets: request position, phase and FlowCTRL. */
    method Advance(n: nat)
      requires Valid()
      modifies this
      ensures Valid() && State() == Fill(old(State()), n)
    {
      hide Encode, Assembling;
      if isdu.op == OpNone {
        return;
      }
      if isdu.phase == PhaseRequest {
        isdu := isdu.(pos := isdu.pos + Min(isdu.requestLen - isdu.pos, n));
        if isdu.pos >= isdu.requestLen {
          isdu := isdu.(phase := PhaseWait, flow := START);
        } else if isdu.flow == START {
          isdu := isdu.(flow := 1);
        } else {
          isdu := isdu.(flow := (isdu.flow + 1) % 16);
        }
      } else if isdu.phase == PhaseWait {
        isdu := isdu.(flow := START);
      } else if isdu.phase == PhaseResponse {
        isdu := isdu.(flow := NextFlow(isdu.flow));
      }
    }

    /** Fill `n` OD octets of an outgoing frame from position `at` and advance the transport. */
    method FillOd(od: array<byte>, at: nat, n: nat)
      requires Valid() && at + n <= od.Length && od != request && od != response
      modifies this, od
      ensures Valid() && State() == Fill(old(State()), n)
      ensures od[..] == old(od[..at]) + FillOctets(old(State()), n) + old(od[at + n..])
    {
      hide Fill, FillOctets, Wf;
      WriteOctets(od, at, n);
      Advance(n);
    }

    /** The M-sequence the ISDU channel asks for: active, direction and FlowCTRL. */
    method ChannelAccess() returns (active: bool, read: bool, flowctrl: byte)
      requires Valid()
      ensures match T.ChannelAccess(State())
              case Quiet => !active
              case Access(r, f) => active && read == r && flowctrl == f
    {
      active, read, flowctrl := false, false, IDLE;
      if isdu.op == OpNone || (isdu.done && !isdu.idlePending) {
        return;
      }
      active := true;
      if isdu.done {
        read := true;
        return;
      }
      read := isdu.phase != PhaseRequest;
      flowctrl := isdu.flow;
    }

    /** Check and decode a whole response; a positive one is compacted to its Data octets in place. */
    method DecodeResponse()
      requires Shape() && Complete(response.Length, response[..isdu.responseLen])
      modifies this, response
      ensures Shape() && State() == Decode(old(State()))
    {
      hide XorAll, Encode;
      ghost var whole := response[..isdu.responseLen];
      var chk := Chkpdu(response, isdu.responseLen);
      if chk != 0 {
        isdu := isdu.(error := SEGMENTATION, done := true, abortPending := true, phase := PhaseNone);
        return;
      }
      var service := response[0] / 16;
      if service == 0x4 || service == 0xC {
        var error := if isdu.responseLen >= 4 then Word(response[1], response[2]) else SEGMENTATION;
        isdu := isdu.(error := error, done := true, idlePending := true, phase := PhaseNone);
        return;
      }
      PayloadNeverUnderflows(response.Length, whole);
      var start := if response[0] % 16 == 1 then 2 else 1;
      var payloadLen := isdu.responseLen - start - CHKPDU_LEN;
      assert whole[0] == response[0];
      ghost var payload := response[start..start + payloadLen];
      assert payload == whole[start..start + payloadLen] == Payload(whole);
      MoveDown(response, start, payloadLen);
      isdu := isdu.(responseLen := payloadLen, done := true, idlePending := true, phase := PhaseNone);
      assert response[..payloadLen] == payload;
    }

    /** One received octet while a response is awaited or being received. */
    method OnOctet(b: byte)
      requires Valid() && Listening(State())
      modifies this, response
      ensures Valid() && State() == T.OnOctet(old(State()), b)
    {
      hide Decode, XorAll, Encode;
      ghost var s := State();
      if isdu.phase == PhaseWait {
        if b == 0x00 || b == 0x01 {
          return;
        }
        isdu := isdu.(phase := PhaseResponse, responseLen := 0, expected := 0, flow := 1);
      }
      assert State() == Begin(s);
      if isdu.responseLen >= response.Length {
        isdu := isdu.(error := SEGMENTATION, done := true, phase := PhaseNone);
        return;
      }
      response[isdu.responseLen] := b;
      isdu := isdu.(responseLen := isdu.responseLen + 1);
      ghost var q := Begin(s).(response := Begin(s).response + [b]);
      assert State() == q && Stored(q) && T.OnOctet(s, b) == Measure(q);
      if isdu.expected == 0 {
        var nibble := response[0] % 16;
        if nibble >= 2 {
          isdu := isdu.(expected := nibble);
        } else if nibble == 1 {
          if isdu.responseLen < 2 {
            return;
          }
          isdu := isdu.(expected := response[1]);
        } else {
          isdu := isdu.(error := SEGMENTATION, done := true, phase := PhaseNone);
          return;
        }
      }
      if isdu.responseLen >= isdu.expected {
        DecodeResponse();
      }
    }

    /** The OD octets of a received frame. */
    method OnOd(od: seq<byte>)
      requires Valid()
      modifies this, response
      ensures Valid() && State() == T.OnOd(old(State()), od)
    {
      ghost var s := State();
      if isdu.op == OpNone || isdu.done || isdu.phase == PhaseRequest || isdu.phase == PhaseNone {
        DeafToOctets(s, od);
        return;
      }
      hide T.OnOctet;
      for i := 0 to |od|
        invariant Valid() && Listening(State()) && State() == T.OnOd(s, od[..i])
      {
        OnOctet(od[i]);
        assert od[..i + 1][..i] == od[..i];
        if isdu.done {
          OnOdConcat(s, od[..i + 1], od[i + 1..]);
          assert od == od[..i + 1] + od[i + 1..];
          DeafToOctets(State(), od[i + 1..]);
          return;
        }
        StillListening(T.OnOd(s, od[..i]), od[i]);
      }
      assert od[..|od|] == od;
    }

    method TakeIdle() returns (taken: bool)
      requires Valid()
      modifies this
      ensures Valid() && State() == T.TakeIdle(old(State())) && taken == old(State()).idlePending
    {
      taken := isdu.idlePending;
      isdu := isdu.(idlePending := false);
    }

    method TakeAbort() returns (taken: bool)
      requires Valid()
      modifies this
      ensures Valid() && State() == T.TakeAbort(old(State())) && taken == old(State()).abortPending
    {
      taken := isdu.abortPending;
      isdu := isdu.(abortPending := false);
    }

    // ---- services ------------------------------------------------------

    /** Latch a device error and return to idle; a pending ABORT is kept. */
    method FinishFailed()
      requires Shape()
      modifies this
      ensures Shape() && State() == T.FinishFailed(old(State()))
    {
      var aborted, error := isdu.abortPending, isdu.error;
      Clear();
      isdu := isdu.(abortPending := aborted, lastError := error, lastResult := ERR_DEVICE);
    }

    /** Hand a completed read to the caller, or say how much room it needs. */
    method FinishRead(data: array<byte>, room: byte) returns (ret: int, len: nat)
      requires Shape() && (room <= data.Length || response.Length <= data.Length) && data != request && data != response
      modifies this, data
      ensures Shape()
      ensures var (s, reply) := T.FinishRead(old(State()), room);
              && State() == s && ret == reply.ret && len == reply.len && |reply.data| <= data.Length
              && data[..] == reply.data + old(data[|reply.data|..])
    {
      hide Encode;
      ghost var s, before := State(), data[..];
      if isdu.error != NO_ERROR {
        FinishFailed();
        return ERR_DEVICE, room;
      }
      var n := isdu.responseLen;
      if room < n {
        isdu := isdu.(lastResult := ERR_BUFFER_TOO_SMALL);
        return ERR_BUFFER_TOO_SMALL, Min(n, 255);
      }
      Put(data, 0, response[..n]);
      Clear();
      isdu := isdu.(lastResult := OK);
      return OK, n;
    }

    /** Begin, poll or collect a read service. */
    method Read(communicating: bool, index: u16, subindex: byte, data: array<byte>, room: byte)
      returns (ret: int, len: nat)
      requires Valid() && (room <= data.Length || response.Length <= data.Length) && data != request && data != response
      modifies this, request, data
      ensures Valid()
      ensures var (s, reply) := T.Read(old(State()), communicating, index, subindex, room);
              && State() == s && ret == reply.ret && len == reply.len && |reply.data| <= data.Length
              && data[..] == reply.data + old(data[|reply.data|..])
    {
      hide Encode, Wf, T.FinishRead, XorAll;
      ghost var s := State();
      var r := Request(true, index, subindex, []);
      ServicesKeepWf(s, communicating, r, room);
      if !communicating {
        return ERR_INVALID_STATE, room;
      }
      if isdu.op != OpNone && !isdu.done {
        if isdu.op == OpRead && isdu.index == index && isdu.subindex == subindex {
          return PENDING, room;
        }
        return ERR_BUSY, room;
      }
      if isdu.done {
        if isdu.op == OpRead && isdu.index == index && isdu.subindex == subindex {
          ret, len := FinishRead(data, room);
          return;
        }
        return ERR_BUSY, room;
      }
      EncodeInto(r);
      isdu := isdu.(op := OpRead, phase := PhaseRequest, index := index, subindex := subindex, pos := 0,
                    flow := START, expected := 0, responseLen := 0, done := false, idlePending := false,
                    abortPending := false, error := NO_ERROR);
      return PENDING, room;
    }

    /** Begin, poll or collect a write service. */
    method Write(communicating: bool, index: u16, subindex: byte, data: seq<byte>) returns (ret: int)
      requires Valid()
      modifies this, request
      ensures Valid()
      ensures (State(), ret) == T.Write(old(State()), communicating, Request(false, index, subindex, data))
    {
      hide Encode, Wf, XorAll;
      ghost var s := State();
      var r := Request(false, index, subindex, data);
      ServicesKeepWf(s, communicating, r, 0);
      if !communicating {
        return ERR_INVALID_STATE;
      }
      if isdu.op != OpNone && !isdu.done {
        if isdu.op == OpWrite && isdu.index == index && isdu.subindex == subindex {
          return PENDING;
        }
        return ERR_BUSY;
      }
      if isdu.done {
        if isdu.op == OpWrite && isdu.index == index && isdu.subindex == subindex {
          if isdu.error != NO_ERROR {
            FinishFailed();
            return ERR_DEVICE;
          }
          Clear();
          isdu := isdu.(lastResult := OK);
          return OK;
        }
        return ERR_BUSY;
      }
      var total := 1 + IndexLen(index, subindex) + |data| + CHKPDU_LEN;
      if |data| > request.Length - WRITE_HEADER_MAX
         || (if total > 15 then total + 1 else total) > EXT_MAX || total == 16 {
        return ERR_BUFFER_TOO_SMALL;
      }
      AcceptableFits(r, request.Length);
      EncodeInto(r);
      isdu := isdu.(op := OpWrite, phase := PhaseRequest, index := index, subindex := subindex, pos := 0,
                    flow := START, expected := 0, responseLen := 0, done := false, idlePending := false,
                    abortPending := false, error := NO_ERROR);
      return PENDING;
    }

    /** I-Service octet and, for long requests, the ExtLength octet. */
    method PutHeader(r: Request) returns (pos: nat)
      requires Shape() && PlainTotal(r) <= 237
      modifies request
      ensures pos == |Header(r)| && request[..pos] == Header(r)
    {
      var indexLen := IndexLen(r.index, r.subindex);
      var service := if r.read then 8 + indexLen else indexLen;
      var total := 1 + indexLen + |r.data| + CHKPDU_LEN;
      if total <= 15 {
        request[0] := 16 * service + total;
        pos := 1;
      } else {
        request[0] := 16 * service + 1;
        request[1] := total + 1;
        pos := 2;
      }
    }

    /** Index and subindex octets in the format their values need. */
    method PutIndex(at: nat, index: u16, subindex: byte) returns (pos: nat)
      requires Shape() && at + 3 <= request.Length
      modifies request
      ensures pos == at + IndexLen(index, subindex) && request[..at] == old(request[..at])
      ensures request[at..pos] == IndexOctets(index, subindex)
    {
      var indexLen := IndexLen(index, subindex);
      if indexLen == 3 {
        request[at] := index / 256;
        request[at + 1] := index % 256;
        request[at + 2] := subindex;
      } else if indexLen == 2 {
        request[at] := index;
        request[at + 1] := subindex;
      } else {
        request[at] := index;
      }
      pos := at + indexLen;
    }

    /** Assemble a request in the request buffer and seal it with its CHKPDU. */
    method EncodeInto(r: Request)
      requires Shape() && PlainTotal(r) <= 237 && |Encode(r)| <= request.Length
      modifies this, request
      ensures Shape() && isdu == old(isdu).(requestLen := |Encode(r)|)
      ensures request[..isdu.requestLen] == Encode(r)
    {
      hide XorAll, Header, IndexOctets;
      var at := PutHeader(r);
      assert at <= 2;
      var pos := PutIndex(at, r.index, r.subindex);
      assert request[..pos] == request[..at] + request[at..pos];
      ghost var front := request[..pos];
      Put(request, pos, r.data);
      pos := pos + |r.data|;
      assert request[..pos] == front + r.data;
      var chk := Chkpdu(request, pos);
      request[pos] := chk;
      assert request[..pos + 1] == request[..pos] + [chk];
      isdu := isdu.(requestLen := pos + CHKPDU_LEN);
    }
  }
}
