/** Response reassembly against a reference that sees the whole octet stream at once.
    The state the octet-by-octet handler reaches is the reference state for every
    stream, valid or not, however the stream is cut into chunks. */
module IsduReassembly {
  import opened Wrappers
  import opened Status
  import opened Octets
  import opened IsduCodec
  import opened IsduTransport

  function Flatten(chunks: seq<seq<byte>>): seq<byte>
  {
    if chunks == [] then [] else Flatten(chunks[..|chunks| - 1]) + chunks[|chunks| - 1]
  }

  /** The stream without its leading "no service" (0x00) and "busy" (0x01) octets. */
  function Strip(o: seq<byte>): (r: seq<byte>)
    ensures r != [] ==> r[0] > 1
  {
    if o != [] && o[0] <= 1 then Strip(o[1..]) else o
  }

  /** Octets a response occupies, once its length field is complete. */
  function Extent(r: seq<byte>): Option<nat>
    requires r != []
  {
    if r[0] % 16 == 0 then None
    else if r[0] % 16 >= 2 then Some(r[0] % 16)
    else if |r| < 2 then None
    else Some(Max(r[1], 2))
  }

  predicate Awaiting(s: Isdu)
  {
    s.op != OpNone && !s.done && s.phase == PhaseWait
  }

  /** The service after the response octets `r`, read in one piece. */
  function Outcome(s: Isdu, r: seq<byte>): Isdu
    requires Wf(s) && Awaiting(s) && r != [] && r[0] > 1
  {
    var t := s.(phase := PhaseResponse, flow := 1, response := r, expected := 0);
    if r[0] % 16 == 0 then Fail(t.(response := r[..1]), SEGMENTATION)
    else if Extent(r).None? then t
    else
      var n := Extent(r).value;
      var u := t.(expected := if r[0] % 16 == 1 then r[1] else n);
      if n <= |r| && n <= s.cap then Decode(u.(response := r[..n]))
      else if |r| > s.cap then Fail(u.(response := r[..s.cap]), SEGMENTATION)
      else u
  }

  /** One-shot reading of everything the device sent since the request was complete. */
  function Reference(s: Isdu, o: seq<byte>): Isdu
    requires Wf(s) && Awaiting(s)
  {
    if Strip(o) == [] then s else Outcome(s, Strip(o))
  }

  lemma {:induction false} StripAppend(o: seq<byte>, b: byte)
    ensures Strip(o + [b]) == if Strip(o) != [] then Strip(o) + [b] else if b <= 1 then [] else [b]
  {
    if o == [] {
      assert o + [b] == [b] && [b][1..] == [];
    } else if o[0] <= 1 {
      StripAppend(o[1..], b);
      assert (o + [b])[1..] == o[1..] + [b];
    }
  }

  lemma OutcomeFirst(s: Isdu, b: byte)
    requires Wf(s) && Awaiting(s) && b > 1
    ensures OnOctet(s, b) == Outcome(s, [b])
  {
    assert [] + [b] == [b] && [b][..1] == [b];
  }

  /** A decided outcome ignores what follows. */
  lemma OutcomeDecided(s: Isdu, r: seq<byte>, b: byte)
    requires Wf(s) && Awaiting(s) && r != [] && r[0] > 1
    requires Outcome(s, r).done
    ensures Outcome(s, r + [b]) == Outcome(s, r)
  {
    var q := r + [b];
    assert q[0] == r[0] && (|r| >= 2 ==> q[1] == r[1]);
    assert q[..1] == r[..1];
    if |r| >= s.cap { assert q[..s.cap] == r[..s.cap]; }
    if r[0] % 16 != 0 {
      var n := Extent(r).value;
      if n <= |r| { assert q[..n] == r[..n]; }
    }
  }

  /** The undecided outcomes: one octet of an extended header, or a part of a response of known length. */
  lemma OutcomeOpen(s: Isdu, r: seq<byte>)
    requires Wf(s) && Awaiting(s) && r != [] && r[0] > 1
    requires !Outcome(s, r).done
    ensures r[0] % 16 != 0 && |r| <= s.cap && Wf(Outcome(s, r))
    ensures Outcome(s, r) == s.(phase := PhaseResponse, flow := 1, response := r,
                                expected := if r[0] % 16 >= 2 then r[0] % 16 else if |r| >= 2 then r[1] else 0)
    ensures Extent(r).Some? ==> |r| < Extent(r).value
    ensures Extent(r).None? ==> |r| == 1
  {
  }

  lemma OutcomeGrows(s: Isdu, r: seq<byte>, b: byte)
    requires Wf(s) && Awaiting(s) && r != [] && r[0] > 1
    requires !Outcome(s, r).done
    ensures Wf(Outcome(s, r))
    ensures Outcome(s, r + [b]) == OnOctet(Outcome(s, r), b)
  {
    hide Decode, XorAll;
    OutcomeOpen(s, r);
    var q, u := r + [b], Outcome(s, r);
    assert q[0] == r[0] && (|r| >= 2 ==> q[1] == r[1]) && q[..|q|] == q;
    if |r| == s.cap {
      assert q[..s.cap] == r;
    } else if Extent(r).None? {
      assert OnOctet(u, b) == Settle(u.(response := q, expected := b));
    } else {
      assert u.(response := q).expected == u.expected;
      assert OnOctet(u, b) == Settle(u.(response := q));
    }
  }

  /** One more octet moves the reference exactly as the handler moves. */
  lemma ReferenceStep(s: Isdu, o: seq<byte>, b: byte)
    requires Wf(s) && Awaiting(s)
    requires Wf(Reference(s, o))
    ensures Reference(s, o + [b]) == OnOctet(Reference(s, o), b)
  {
    StripAppend(o, b);
    var r := Strip(o);
    if r == [] {
      if b > 1 { OutcomeFirst(s, b); }
    } else if Outcome(s, r).done {
      OutcomeDecided(s, r, b);
    } else {
      OutcomeGrows(s, r, b);
    }
  }

  /** Main result: the streaming handler computes the reference on every octet stream. */
  lemma {:induction false} ReassemblyIsReference(s: Isdu, o: seq<byte>)
    requires Wf(s) && Awaiting(s)
    ensures OnOd(s, o) == Reference(s, o)
  {
    if o == [] {
    } else {
      var p, b := o[..|o| - 1], o[|o| - 1];
      ReassemblyIsReference(s, p);
      ReferenceStep(s, p, b);
      assert o == p + [b];
    }
  }

  // ---- chunks ----------------------------------------------------------

  /** Successive replies: each read M-sequence first advances FlowCTRL, then delivers its octets. */
  function Polls(s: Isdu, chunks: seq<seq<byte>>): (t: Isdu)
    requires Wf(s)
    ensures Wf(t)
  {
    if chunks == [] then s
    else
      var last := chunks[|chunks| - 1];
      OnOd(Fill(Polls(s, chunks[..|chunks| - 1]), |last|), last)
  }

  predicate SameButFlow(s: Isdu, t: Isdu)
  {
    s == t.(flow := s.flow)
  }

  lemma FlowInDecode(q: Isdu, u: Isdu)
    requires Complete(q.cap, q.response) && SameButFlow(q, u)
    ensures SameButFlow(Decode(q), Decode(u))
  {
  }

  lemma FlowInMeasure(q: Isdu, u: Isdu)
    requires Stored(q) && Stored(u) && SameButFlow(q, u)
    ensures SameButFlow(Measure(q), Measure(u))
  {
    var nibble := q.response[0] % 16;
    var expected := if q.expected != 0 then q.expected else if nibble >= 2 then nibble
                    else if |q.response| >= 2 then q.response[1] else 0;
    if nibble != 0 && (nibble >= 2 || |q.response| >= 2) && |q.response| >= expected {
      FlowInDecode(q.(expected := expected), u.(expected := expected));
    }
  }

  lemma FlowIsCarriedAlongOctet(s: Isdu, t: Isdu, b: byte)
    requires Wf(s) && Wf(t) && SameButFlow(s, t)
    ensures SameButFlow(OnOctet(s, b), OnOctet(t, b))
  {
    if Listening(s) && !(s.phase == PhaseWait && b <= 1) && |Begin(s).response| < s.cap {
      FlowInMeasure(Begin(s).(response := Begin(s).response + [b]), Begin(t).(response := Begin(t).response + [b]));
    }
  }

  lemma {:induction false} FlowIsCarriedAlong(s: Isdu, t: Isdu, o: seq<byte>)
    requires Wf(s) && Wf(t) && SameButFlow(s, t)
    ensures SameButFlow(OnOd(s, o), OnOd(t, o))
  {
    if o != [] {
      var p, b := o[..|o| - 1], o[|o| - 1];
      FlowIsCarriedAlong(s, t, p);
      FlowIsCarriedAlongOctet(OnOd(s, p), OnOd(t, p), b);
    }
  }

  /** Reading leaves everything but FlowCTRL to the incoming octets. */
  lemma FillOutsideRequest(s: Isdu, n: nat)
    requires Wf(s) && s.phase != PhaseRequest
    ensures SameButFlow(Fill(s, n), s)
    ensures FillOctets(s, n) == Zeros(n)
  {
  }

  lemma {:induction false} OnOdLeavesRequestPhase(s: Isdu, o: seq<byte>)
    requires Wf(s) && s.phase != PhaseRequest
    ensures OnOd(s, o).phase != PhaseRequest
  {
    if o != [] { OnOdLeavesRequestPhase(s, o[..|o| - 1]); }
  }

  lemma {:induction false} PollsAreOneStream(s: Isdu, chunks: seq<seq<byte>>)
    requires Wf(s) && s.phase != PhaseRequest
    ensures Polls(s, chunks).phase != PhaseRequest
    ensures SameButFlow(Polls(s, chunks), OnOd(s, Flatten(chunks)))
  {
    if chunks != [] {
      var front, last := chunks[..|chunks| - 1], chunks[|chunks| - 1];
      PollsAreOneStream(s, front);
      var p := Polls(s, front);
      FillOutsideRequest(p, |last|);
      OnOdLeavesRequestPhase(Fill(p, |last|), last);
      FlowIsCarriedAlong(Fill(p, |last|), OnOd(s, Flatten(front)), last);
      OnOdConcat(s, Flatten(front), last);
    }
  }

  /** Segmentation does not matter: any cutting of any stream ends in the reference state. */
  lemma SegmentationIndependent(s: Isdu, chunks: seq<seq<byte>>)
    requires Wf(s) && Awaiting(s)
    ensures SameButFlow(Polls(s, chunks), Reference(s, Flatten(chunks)))
  {
    PollsAreOneStream(s, chunks);
    ReassemblyIsReference(s, Flatten(chunks));
  }

  // ---- what the reference promises --------------------------------------

  predicate AllIdle(o: seq<byte>)
  {
    forall i :: 0 <= i < |o| ==> o[i] <= 1
  }

  /** A response whose own length field matches its size and which fits the buffer. */
  predicate WellFormed(cap: nat, r: seq<byte>)
  {
    r != [] && r[0] > 1 && Extent(r) == Some(|r|) && |r| <= cap
  }

  lemma {:induction false} StripLeading(noise: seq<byte>, rest: seq<byte>)
    requires AllIdle(noise) && rest != [] && rest[0] > 1
    ensures Strip(noise + rest) == rest
  {
    if noise == [] {
      assert noise + rest == rest;
    } else {
      StripLeading(noise[1..], rest);
      assert (noise + rest)[1..] == noise[1..] + rest;
    }
  }

  /** Idle octets, a well-formed response and any padding, cut anyhow, end in the decoded response. */
  lemma ResponseIsDecoded(s: Isdu, chunks: seq<seq<byte>>, noise: seq<byte>, r: seq<byte>, pad: seq<byte>)
    requires Wf(s) && Awaiting(s)
    requires AllIdle(noise) && WellFormed(s.cap, r) && Flatten(chunks) == noise + r + pad
    ensures Complete(s.cap, r)
    ensures var whole := s.(phase := PhaseResponse, flow := 1, response := r,
                            expected := if r[0] % 16 == 1 then r[1] else |r|);
            SameButFlow(Polls(s, chunks), Decode(whole))
  {
    SegmentationIndependent(s, chunks);
    StripLeading(noise, r + pad);
    assert noise + r + pad == noise + (r + pad);
    assert (r + pad)[..|r|] == r;
    assert Extent(r + pad) == Extent(r);
  }

  /** For every stream: the buffer bound holds; a completed service without an error carries the
      payload of the response found after the idle octets, and that response cancels its CHKPDU;
      a response that does not cancel latches an error and the ABORT. */
  lemma EveryStreamIsSafe(s: Isdu, chunks: seq<seq<byte>>)
    requires Wf(s) && Awaiting(s)
    ensures var t, r := Polls(s, chunks), Strip(Flatten(chunks));
            && Wf(t) && |t.response| <= s.cap
            && (t.done ==> r != [])
            && (t.done && t.error == NO_ERROR ==>
                  && Extent(r).Some? && Extent(r).value <= Min(|r|, s.cap)
                  && var whole := r[..Extent(r).value];
                     && XorAll(whole) == 0 && t.idlePending
                     && (!Negative(whole) ==>
                           |whole| >= HeaderLen(whole) + CHKPDU_LEN && t.response == Payload(whole)))
            && (r != [] && Extent(r).Some? && Extent(r).value <= Min(|r|, s.cap)
                && XorAll(r[..Extent(r).value]) != 0 ==>
                  t.done && t.error == 0x81 && t.abortPending)
  {
    SegmentationIndependent(s, chunks);
    var r := Strip(Flatten(chunks));
    if r != [] && r[0] % 16 != 0 && Extent(r).Some? && Extent(r).value <= Min(|r|, s.cap) {
      var whole := r[..Extent(r).value];
      assert whole[0] == r[0] && (|whole| >= 2 ==> whole[1] == r[1]);
      if XorAll(whole) == 0 { PayloadNeverUnderflows(s.cap, whole); }
    }
  }

  /** The ErrorType a negative response names, if it is long enough to hold one. */
  function ErrorType(r: seq<byte>): u16
  {
    if |r| >= 4 then 256 * (r[1] as int) + r[2] else 0x81
  }

  /** A negative response is reported as a device error, to a read and to a write, exactly when its
      ErrorType is not zero. With ErrorType 0 a refused write is reported as done, and a read hands
      its caller the raw response as data. */
  lemma NegativeResponseIsReported(s: Isdu, chunks: seq<seq<byte>>, noise: seq<byte>, r: seq<byte>, pad: seq<byte>,
                                   room: byte, data: seq<byte>)
    requires Wf(s) && Awaiting(s)
    requires AllIdle(noise) && WellFormed(s.cap, r) && XorAll(r) == 0 && Negative(r)
    requires Flatten(chunks) == noise + r + pad
    ensures var t := Polls(s, chunks);
            && t.done && t.error == ErrorType(r)
            && (s.op == OpRead ==>
                  var reply := Read(t, true, s.index, s.subindex, room).1;
                  && (reply.ret == ERR_DEVICE <==> ErrorType(r) != 0)
                  && (ErrorType(r) == 0 && |r| <= room ==> reply == Reply(OK, |r|, r)))
            && (s.op == OpWrite ==>
                  Write(t, true, Request(false, s.index, s.subindex, data)).1
                  == if ErrorType(r) != 0 then ERR_DEVICE else OK)
  {
    hide XorAll, Polls, Reference, Assembling, Negative;
    ResponseIsDecoded(s, chunks, noise, r, pad);
  }

  /** A refused write reported as done: the four octets 44 00 00 44. */
  lemma RefusedWriteReportedDone(s: Isdu, data: seq<byte>)
    requires Wf(s) && Awaiting(s) && s.op == OpWrite
    ensures Write(Polls(s, [Sealed([0x44, 0, 0])]), true, Request(false, s.index, s.subindex, data)).1 == OK
  {
    hide XorAll;
    var r := Sealed([0x44, 0, 0]);
    SealedCancels([0x44, 0, 0]);
    assert r[0] == 0x44 && r[1] == 0 && r[2] == 0;
    assert Flatten([r]) == [] + r + [];
    NegativeResponseIsReported(s, [r], [], r, [], 0, data);
  }

  /** Any corruption of one octet of a response that keeps its declared length ends the service with an
      error to the caller and an ABORT to the device. */
  lemma CorruptionIsNoticed(s: Isdu, chunks: seq<seq<byte>>, noise: seq<byte>, r: seq<byte>, i: nat, x: byte,
                            pad: seq<byte>, room: byte, data: seq<byte>)
    requires Wf(s) && Awaiting(s) && i < |r| && x != r[i]
    requires AllIdle(noise) && WellFormed(s.cap, r) && XorAll(r) == 0 && WellFormed(s.cap, r[i := x])
    requires Flatten(chunks) == noise + r[i := x] + pad
    ensures var t := Polls(s, chunks);
            && t.done && t.abortPending
            && (s.op == OpRead ==> Read(t, true, s.index, s.subindex, room).1.ret == ERR_DEVICE)
            && (s.op == OpWrite ==> Write(t, true, Request(false, s.index, s.subindex, data)).1 == ERR_DEVICE)
  {
    hide XorAll, Polls, Reference, Assembling;
    OneOctetErrorIsVisible(r, i, x);
    ResponseIsDecoded(s, chunks, noise, r[i := x], pad);
  }

  /** Failures that conclude the service without telling the device: neither IDLE nor ABORT is latched
      exactly when the response starts with the reserved length 0 or overruns the buffer; the error is 81. */
  lemma SilentFailureExactly(s: Isdu, chunks: seq<seq<byte>>)
    requires Wf(s) && Awaiting(s) && !s.abortPending
    ensures var t, r := Polls(s, chunks), Strip(Flatten(chunks));
            t.done && !t.idlePending && !t.abortPending <==>
            r != [] && (r[0] % 16 == 0 || (Extent(r).Some? && Extent(r).value > s.cap && |r| > s.cap))
    ensures var t := Polls(s, chunks); t.done && !t.idlePending && !t.abortPending ==> t.error == 0x81
  {
    SegmentationIndependent(s, chunks);
  }

  // ---- what the caller is told ---------------------------------------------

  datatype Verdict = Incomplete | Failed | Delivered(data: seq<byte>)

  /** What a device's octets amount to: nothing whole yet, a failure, or the data of a response. */
  function VerdictOf(cap: nat, r: seq<byte>): Verdict
    requires r != [] ==> r[0] > 1
  {
    if r == [] then Incomplete
    else if r[0] % 16 == 0 then Failed
    else if Extent(r).None? then Incomplete
    else
      var n := Extent(r).value;
      if n > |r| || n > cap then (if |r| > cap then Failed else Incomplete)
      else if XorAll(r[..n]) != 0 then Failed
      else if Negative(r[..n]) then (if ErrorType(r[..n]) != 0 then Failed else Delivered(r[..n]))
      else if n < HeaderLen(r[..n]) + CHKPDU_LEN then Failed
      else Delivered(Payload(r[..n]))
  }

  /** For every stream, cut anyhow: a read is pending, reports a device error, or returns data exactly as the
      octets after the idle ones say; a write likewise, without the data. */
  lemma CallerIsTold(s: Isdu, chunks: seq<seq<byte>>, room: byte, data: seq<byte>)
    requires Wf(s) && Awaiting(s)
    ensures var t, verdict := Polls(s, chunks), VerdictOf(s.cap, Strip(Flatten(chunks)));
            && (s.op == OpRead ==>
                  var reply := Read(t, true, s.index, s.subindex, room).1;
                  match verdict
                  case Incomplete => reply.ret == PENDING
                  case Failed => reply.ret == -4
                  case Delivered(d) =>
                    if |d| <= room then reply == Reply(OK, |d|, d) else reply.ret == -2)
            && (s.op == OpWrite ==>
                  Write(t, true, Request(false, s.index, s.subindex, data)).1
                  == match verdict case Incomplete => PENDING case Failed => -4 case Delivered(d) => OK)
  {
    hide XorAll, Polls, Assembling;
    SegmentationIndependent(s, chunks);
    var r := Strip(Flatten(chunks));
    if r != [] && r[0] % 16 != 0 && Extent(r).Some? && Extent(r).value <= Min(|r|, s.cap) {
      var whole := r[..Extent(r).value];
      assert whole[0] == r[0] && whole[1] == r[1];
      if XorAll(whole) == 0 { PayloadNeverUnderflows(s.cap, whole); }
    }
  }
}
