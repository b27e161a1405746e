/** Request streaming, and the ISDU transport composed in lock-step with a conformant
    device (7.3.6, Annex A.5): a write followed by a read returns the data written. */
module IsduExchange {
  import opened Wrappers
  import opened Status
  import opened Octets
  import opened IsduCodec
  import opened IsduTransport
  import opened IsduReassembly

  // ---- request streaming -----------------------------------------------

  /** FlowCTRL of the k-th M-sequence of a stream (Table 52). */
  function FlowAt(k: nat): (f: byte)
    ensures f <= 0x10
  {
    if k == 0 then 0x10 else k % 16
  }

  lemma FlowAdvances(k: nat)
    ensures NextFlow(FlowAt(k)) == FlowAt(k + 1)
  {
  }

  datatype Frame = Frame(flow: byte, od: seq<byte>)

  /** The write M-sequences that carry the rest of the request. */
  function RequestFrames(s: Isdu, w: nat): seq<Frame>
    requires Wf(s) && w > 0
    decreases |s.request| - s.pos
  {
    if s.phase != PhaseRequest then []
    else [Frame(s.flow, FillOctets(s, w))] + RequestFrames(Fill(s, w), w)
  }

  function Carried(frames: seq<Frame>): seq<byte>
  {
    if frames == [] then [] else frames[0].od + Carried(frames[1..])
  }

  /** Frames needed for `len` octets: the quotient rounded up. */
  function Chunks(len: nat, w: nat): nat
    requires w > 0
  {
    if len == 0 then 0 else if len <= w then 1 else 1 + Chunks(len - w, w)
  }

  lemma {:induction false} ChunksRoundsUp(len: nat, w: nat)
    requires w == 1 || w == 2 || w == 8
    ensures Chunks(len, w) == (len + w - 1) / w
  {
    if len > w { ChunksRoundsUp(len - w, w); }
  }

  lemma RequestFramesStep(s: Isdu, w: nat)
    requires Wf(s) && w > 0 && s.phase == PhaseRequest
    ensures var t, left := Fill(s, w), |s.request| - s.pos;
            && RequestFrames(s, w) == [Frame(s.flow, FillOctets(s, w))] + RequestFrames(t, w)
            && Carried(RequestFrames(s, w)) == FillOctets(s, w) + Carried(RequestFrames(t, w))
            && (left <= w ==> RequestFrames(t, w) == [] && Carried(RequestFrames(t, w)) == [])
            && (left > w ==> t == s.(pos := s.pos + w, flow := NextFlow(s.flow)))
  {
    assert RequestFrames(s, w)[1..] == RequestFrames(Fill(s, w), w);
  }

  /** As few frames as the width allows, each carrying a full OD field and FlowCTRL counting them. */
  lemma {:induction false} RequestIsCounted(s: Isdu, w: nat, k: nat)
    requires Wf(s) && w > 0 && s.phase == PhaseRequest && s.flow == FlowAt(k)
    ensures var frames := RequestFrames(s, w);
            && |frames| == Chunks(|s.request| - s.pos, w)
            && (forall j :: 0 <= j < |frames| ==> frames[j].flow == FlowAt(k + j) && |frames[j].od| == w)
    decreases |s.request| - s.pos
  {
    RequestFramesStep(s, w);
    if |s.request| - s.pos > w {
      FlowAdvances(k);
      RequestIsCounted(Fill(s, w), w, k + 1);
      var frames, rest := RequestFrames(s, w), RequestFrames(Fill(s, w), w);
      forall j | 0 <= j < |frames| ensures frames[j].flow == FlowAt(k + j) && |frames[j].od| == w {
        if j > 0 { assert frames[j] == rest[j - 1] && rest[j - 1].flow == FlowAt(k + 1 + (j - 1)); }
      }
    }
  }

  /** The OD octets of successive write frames are the rest of the request, then zero padding. */
  lemma {:induction false} RequestIsConserved(s: Isdu, w: nat)
    requires Wf(s) && w > 0 && s.phase == PhaseRequest
    ensures var sent, left := Carried(RequestFrames(s, w)), |s.request| - s.pos;
            left <= |sent| < left + w && sent == s.request[s.pos..] + Zeros(|sent| - left)
    decreases |s.request| - s.pos
  {
    hide RequestFrames, Carried;
    RequestFramesStep(s, w);
    var rest := Carried(RequestFrames(Fill(s, w), w));
    if |s.request| - s.pos > w {
      RequestIsConserved(Fill(s, w), w);
      assert FillOctets(s, w) == s.request[s.pos..s.pos + w];
      assert s.request[s.pos..] == s.request[s.pos..s.pos + w] + s.request[s.pos + w..];
    } else {
      assert FillOctets(s, w) + rest == FillOctets(s, w);
    }
  }

  // ---- a conformant device ---------------------------------------------

  datatype Link =
    | Silent
    | Receiving(buf: seq<byte>, next: byte)
    | Preparing(polls: seq<seq<byte>>, answer: seq<byte>)
    | Answering(whole: seq<byte>, sent: nat, count: byte)

  /** `busy` scripts, service by service, the idle replies given before the answer starts. */
  datatype Device = Device(objects: Objects, link: Link, busy: seq<seq<seq<byte>>>)

  const SERVICE_NOT_AVAILABLE: byte := 0x11

  /** Largest object a response can carry (A.5.3). */
  const OBJECT_MAX := 235

  type Objects = map<(u16, byte), seq<byte>>

  /** The object dictionary after a service and the response stream it produces. */
  function Answer(objects: Objects, pdu: seq<byte>): (Objects, seq<byte>)
  {
    match ParseRequest(pdu)
    case None => (objects, NegativeResponse(0x80, SERVICE_NOT_AVAILABLE))
    case Some(r) =>
      var key := (r.index, r.subindex);
      if !r.read then (objects[key := r.data], WRITE_RESPONSE)
      else if key in objects && |objects[key]| <= OBJECT_MAX then (objects, ReadResponse(objects[key]))
      else (objects, NegativeResponse(0x80, SERVICE_NOT_AVAILABLE))
  }

  /** The idle replies the device will give before its next answer, and those left for later services. */
  function NextPolls(busy: seq<seq<seq<byte>>>): seq<seq<byte>>
  {
    if busy == [] then [] else busy[0]
  }

  function LaterPolls(busy: seq<seq<seq<byte>>>): seq<seq<seq<byte>>>
  {
    if busy == [] then [] else busy[1..]
  }

  function Serve(d: Device, pdu: seq<byte>): Device
  {
    var (objects, answer) := Answer(d.objects, pdu);
    Device(objects, Preparing(NextPolls(d.busy), answer), LaterPolls(d.busy))
  }

  /** A write M-sequence: START begins a request, the expected COUNT continues it. */
  function OnWrite(d: Device, flow: byte, od: seq<byte>): Device
  {
    if flow != START && !(d.link.Receiving? && flow == d.link.next) then d.(link := Silent)
    else
      var buf := (if flow == START then [] else d.link.buf) + od;
      var declared := DeclaredLength(buf);
      if declared.Some? && |buf| >= declared.value then Serve(d, buf[..declared.value])
      else d.(link := Receiving(buf, NextFlow(flow)))
  }

  function Segment(answer: seq<byte>, from: nat, w: nat): (od: seq<byte>)
    requires from <= |answer|
    ensures |od| == w
  {
    var k := Min(|answer| - from, w);
    answer[from..from + k] + Zeros(w - k)
  }

  /** A read M-sequence: START (re)starts the answer, the expected COUNT continues it, anything else ends it. */
  function OnRead(d: Device, flow: byte, w: nat): (Device, seq<byte>)
  {
    if flow == ABORT then (d.(link := Silent), Zeros(w))
    else match d.link
    case Preparing(polls, answer) =>
      if flow != START then (d.(link := Silent), Zeros(w))
      else if polls != [] then (d.(link := Preparing(polls[1..], answer)), polls[0])
      else (d.(link := Answering(answer, Min(w, |answer|), 1)), Segment(answer, 0, w))
    case Answering(whole, sent, count) =>
      if flow == START then (d.(link := Answering(whole, Min(w, |whole|), 1)), Segment(whole, 0, w))
      else if flow == count && sent < |whole| then
        (d.(link := Answering(whole, Min(sent + w, |whole|), NextFlow(count))), Segment(whole, sent, w))
      else (d.(link := Silent), Zeros(w))
    case _ => (d.(link := Silent), Zeros(w))
  }

  // ---- lock-step exchanges ---------------------------------------------

  /** One M-sequence on the ISDU channel and its reply: ABORT first, then IDLE, then the transport. */
  function Exchange(m: Isdu, d: Device, w: nat): (r: (Isdu, Device))
    requires Wf(m)
    ensures Wf(r.0)
  {
    if m.abortPending then (TakeAbort(m), d.(link := Silent))
    else if m.idlePending then
      var (d', od) := OnRead(d, IDLE, w);
      (OnOd(TakeIdle(m), od), d')
    else match ChannelAccess(m)
      case Quiet => (m, d)
      case Access(read, flow) =>
        if read then
          var (d', od) := OnRead(d, flow, w);
          (OnOd(Fill(m, w), od), d')
        else (Fill(m, w), OnWrite(d, flow, FillOctets(m, w)))
  }

  function Run(m: Isdu, d: Device, w: nat, n: nat): (r: (Isdu, Device))
    requires Wf(m)
    ensures Wf(r.0)
    decreases n
  {
    if n == 0 then (m, d)
    else
      var (m', d') := Exchange(m, d, w);
      Run(m', d', w, n - 1)
  }

  /** The service completes with the n-th exchange and not before. */
  predicate Takes(m: Isdu, d: Device, w: nat, n: nat)
    requires Wf(m)
    decreases n
  {
    if n == 0 then m.done
    else
      var (m', d') := Exchange(m, d, w);
      !m.done && Takes(m', d', w, n - 1)
  }

  // ---- the request reaches the device ----------------------------------

  predicate Sending(m: Isdu)
  {
    && m.op != OpNone && !m.done && m.phase == PhaseRequest && !m.abortPending
    && m.pos < |m.request| && IsPdu(m.request)
  }

  /** The device holds exactly the octets sent so far. */
  predicate InStep(m: Isdu, d: Device, k: nat)
  {
    && m.pos <= |m.request| && m.flow == FlowAt(k) && (k == 0 <==> m.pos == 0)
    && (k > 0 ==> d.link == Receiving(m.request[..m.pos], m.flow))
  }

  lemma DeclaredByPrefix(request: seq<byte>, buf: seq<byte>)
    requires IsPdu(request) && buf != []
    requires buf[0] == request[0] && (|buf| >= 2 && |request| >= 2 ==> buf[1] == request[1])
    ensures DeclaredLength(buf) == Some(|request|) || (DeclaredLength(buf) == None && |buf| < |request|)
  {
  }

  lemma RequestStep(m: Isdu, d: Device, w: nat, k: nat)
    requires Wf(m) && Sending(m) && InStep(m, d, k) && w > 0
    ensures var (m', d') := Exchange(m, d, w);
            if |m.request| - m.pos > w then
              Sending(m') && InStep(m', d', k + 1) && m' == m.(pos := m.pos + w, flow := m'.flow)
              && d' == d.(link := d'.link)
            else
              m' == m.(pos := |m.request|, phase := PhaseWait, flow := START) && d' == Serve(d, m.request)
  {
    hide XorAll, Assembling, Serve;
    var od := FillOctets(m, w);
    var buf := m.request[..m.pos] + od;
    assert (if m.flow == START then [] else d.link.buf) + od == buf;
    FlowAdvances(k);
    if |m.request| - m.pos > w {
      assert buf == m.request[..m.pos + w];
      DeclaredByPrefix(m.request, buf);
    } else {
      assert buf[..|m.request|] == m.request;
      DeclaredByPrefix(m.request, buf);
    }
  }

  // ---- the answer reaches the master -----------------------------------

  predicate ConformantPolls(polls: seq<seq<byte>>, w: nat)
  {
    forall i :: 0 <= i < |polls| ==> |polls[i]| == w && AllIdle(polls[i])
  }

  lemma {:induction false} IdleOctetsAreSkipped(m: Isdu, od: seq<byte>)
    requires Wf(m) && Awaiting(m) && AllIdle(od)
    ensures OnOd(m, od) == m
  {
    if od != [] { IdleOctetsAreSkipped(m, od[..|od| - 1]); }
  }

  /** The service once its whole response is in. */
  function Answered(m: Isdu, answer: seq<byte>): Isdu
    requires Wf(m) && Awaiting(m) && WellFormed(m.cap, answer) && IsPdu(answer)
  {
    Decode(m.(phase := PhaseResponse, flow := 1, response := answer,
              expected := if answer[0] % 16 == 1 then answer[1] else |answer|))
  }

  lemma StripOfResponse(r: seq<byte>)
    requires r != [] && r[0] > 1
    ensures Strip(r) == r
  {
  }

  /** A proper prefix of an answer leaves the service waiting for the rest. */
  lemma PrefixStaysOpen(m: Isdu, answer: seq<byte>, n: nat)
    requires Wf(m) && Awaiting(m) && WellFormed(m.cap, answer) && 0 < n < |answer|
    ensures var t := OnOd(m, answer[..n]);
            !t.done && t.phase == PhaseResponse && t.flow == 1 && t.op == m.op
            && t.abortPending == m.abortPending && t.idlePending == m.idlePending
  {
    ReassemblyIsReference(m, answer[..n]);
    StripOfResponse(answer[..n]);
  }

  lemma WholeAnswer(m: Isdu, answer: seq<byte>, pad: seq<byte>)
    requires Wf(m) && Awaiting(m) && WellFormed(m.cap, answer) && IsPdu(answer)
    ensures OnOd(m, answer + pad) == Answered(m, answer)
  {
    ReassemblyIsReference(m, answer + pad);
    StripOfResponse(answer + pad);
    assert (answer + pad)[..|answer|] == answer;
    assert Extent(answer + pad) == Extent(answer);
  }

  /** Receiving further response octets does not touch FlowCTRL. */
  lemma {:induction false} OpenKeepsFlow(m: Isdu, od: seq<byte>)
    requires Wf(m) && m.op != OpNone && (m.phase == PhaseResponse || m.done)
    ensures OnOd(m, od).flow == m.flow && OnOd(m, od).op == m.op
    ensures OnOd(m, od).phase == PhaseResponse || OnOd(m, od).done
  {
    if od != [] { OpenKeepsFlow(m, od[..|od| - 1]); }
  }

  lemma {:induction false} FirstOctetsSetFlow(m: Isdu, od: seq<byte>)
    requires Wf(m) && m.op != OpNone && m.phase == PhaseWait
    ensures var t := OnOd(m, od);
            && t.op == m.op
            && (t.phase == PhaseWait || t.phase == PhaseResponse || t.done)
            && (t.phase == PhaseWait ==> t.flow == START)
            && (t.phase == PhaseResponse ==> t.flow == 1)
  {
    if od != [] { FirstOctetsSetFlow(m, od[..|od| - 1]); }
  }

  /** Replies since the response began, the first one included. */
  function RepliesBegun(s: Isdu, chunks: seq<seq<byte>>): nat
    requires Wf(s)
  {
    if chunks == [] || Polls(s, chunks).phase != PhaseResponse then 0
    else RepliesBegun(s, chunks[..|chunks| - 1]) + 1
  }

  /** Read M-sequences carry START until the response begins, then COUNT 1, 2, .. 15, 0, .. */
  lemma {:induction false} ReadsCarryFlow(s: Isdu, chunks: seq<seq<byte>>)
    requires Wf(s) && s.op != OpNone && s.phase == PhaseWait
    ensures var t := Polls(s, chunks);
            && t.op == s.op && t.phase != PhaseRequest
            && (!t.done ==> ChannelAccess(t) == Access(true, FlowAt(RepliesBegun(s, chunks))))
  {
    hide OnOctet, Assembling;
    if chunks != [] {
      var front, last := chunks[..|chunks| - 1], chunks[|chunks| - 1];
      ReadsCarryFlow(s, front);
      var p := Polls(s, front);
      if p.done {
        DeafToOctets(Fill(p, |last|), last);
      } else if p.phase == PhaseWait {
        FirstOctetsSetFlow(Fill(p, |last|), last);
      } else {
        FlowAdvances(RepliesBegun(s, front));
        OpenKeepsFlow(Fill(p, |last|), last);
      }
    }
  }

  lemma NoMore(m: Isdu, d: Device, w: nat)
    requires Wf(m)
    ensures Run(m, d, w, 0) == (m, d) && Takes(m, d, w, 0) == m.done
  {
  }

  lemma OneMore(m: Isdu, d: Device, w: nat, n: nat)
    requires Wf(m) && !m.done
    requires Takes(Exchange(m, d, w).0, Exchange(m, d, w).1, w, n)
    ensures Takes(m, d, w, n + 1)
    ensures Run(m, d, w, n + 1) == Run(Exchange(m, d, w).0, Exchange(m, d, w).1, w, n)
  {
  }

  /** In the middle of an answer: `base` is the state in which it started. */
  ghost predicate Midway(base: Isdu, m: Isdu, d: Device, answer: seq<byte>, sent: nat, k: nat)
  {
    && Wf(base) && Awaiting(base) && !base.abortPending && WellFormed(base.cap, answer) && IsPdu(answer)
    && 0 < sent < |answer| && k > 0
    && Wf(m) && SameButFlow(m, OnOd(base, answer[..sent])) && m.flow == k % 16
    && d.link == Answering(answer, sent, k % 16)
  }

  lemma AnswerStep(base: Isdu, m: Isdu, d: Device, w: nat, answer: seq<byte>, sent: nat, k: nat)
    requires Midway(base, m, d, answer, sent, k) && w > 0
    ensures Wf(m) && Wf(base) && Awaiting(base) && WellFormed(base.cap, answer) && IsPdu(answer)
    ensures !m.done && sent < |answer|
    ensures var (m', d') := Exchange(m, d, w);
            && d'.objects == d.objects && d'.busy == d.busy
            && (|answer| - sent > w ==> Midway(base, m', d', answer, sent + w, k + 1))
            && (|answer| - sent <= w ==> m'.done && SameButFlow(m', Answered(base, answer)))
  {
    hide OnOd, Decode, XorAll;
    PrefixStaysOpen(base, answer, sent);
    var od := Segment(answer, sent, w);
    var f := Fill(m, w);
    assert OnRead(d, k % 16, w).1 == od;
    assert Exchange(m, d, w).0 == OnOd(f, od);
    FlowAdvances(k);
    FlowIsCarriedAlong(f, OnOd(base, answer[..sent]), od);
    OnOdConcat(base, answer[..sent], od);
    OpenKeepsFlow(f, od);
    if |answer| - sent > w {
      assert answer[..sent] + od == answer[..sent + w];
    } else {
      var pad := Zeros(w - (|answer| - sent));
      assert answer[..sent] + od == answer + pad;
      WholeAnswer(base, answer, pad);
    }
  }

  lemma {:induction false} AnswerRun(base: Isdu, m: Isdu, d: Device, w: nat, answer: seq<byte>, sent: nat, k: nat)
    requires Midway(base, m, d, answer, sent, k) && w > 0
    ensures Wf(m) && Wf(base) && Awaiting(base) && WellFormed(base.cap, answer) && IsPdu(answer) && sent < |answer|
    ensures var n := Chunks(|answer| - sent, w);
            && Takes(m, d, w, n)
            && SameButFlow(Run(m, d, w, n).0, Answered(base, answer))
            && Run(m, d, w, n).1.objects == d.objects && Run(m, d, w, n).1.busy == d.busy
    decreases |answer| - sent
  {
    hide Answered, Decode, Exchange, Midway, OnOd, SameButFlow, XorAll;
    AnswerStep(base, m, d, w, answer, sent, k);
    var (m', d') := Exchange(m, d, w);
    if |answer| - sent > w {
      AnswerRun(base, m', d', w, answer, sent + w, k + 1);
      OneMore(m, d, w, Chunks(|answer| - sent - w, w));
    } else {
      NoMore(m', d', w);
      OneMore(m, d, w, 0);
    }
  }

  /** The first segment, fetched by START. */
  lemma FirstSegment(m: Isdu, d: Device, w: nat, answer: seq<byte>)
    requires Wf(m) && Awaiting(m) && !m.abortPending && WellFormed(m.cap, answer) && IsPdu(answer) && w > 0
    requires d.link == Preparing([], answer)
    ensures var (m', d') := Exchange(m, d, w);
            && d'.objects == d.objects && d'.busy == d.busy
            && (|answer| > w ==> Midway(m, m', d', answer, w, 1))
            && (|answer| <= w ==> m' == Answered(m, answer))
  {
    var od := Segment(answer, 0, w);
    assert Exchange(m, d, w).0 == OnOd(m, od);
    if |answer| > w {
      assert od == answer[..w];
      PrefixStaysOpen(m, answer, w);
    } else {
      assert od == answer + Zeros(w - |answer|);
      WholeAnswer(m, answer, Zeros(w - |answer|));
    }
  }

  /** From the completed request through any conformant busy phase to the decoded answer. */
  lemma {:induction false} PollRun(m: Isdu, d: Device, w: nat, polls: seq<seq<byte>>, answer: seq<byte>)
    requires Wf(m) && Awaiting(m) && !m.abortPending && WellFormed(m.cap, answer) && IsPdu(answer) && w > 0
    requires ConformantPolls(polls, w) && d.link == Preparing(polls, answer)
    ensures var n := |polls| + Chunks(|answer|, w);
            && Takes(m, d, w, n)
            && SameButFlow(Run(m, d, w, n).0, Answered(m, answer))
            && Run(m, d, w, n).1.objects == d.objects && Run(m, d, w, n).1.busy == d.busy
    decreases |polls|
  {
    hide OnOd, Decode, XorAll, Run, Takes;
    var (m', d') := Exchange(m, d, w);
    if polls != [] {
      IdleOctetsAreSkipped(m, polls[0]);
      assert m' == m;
      PollRun(m, d', w, polls[1..], answer);
      OneMore(m, d, w, |polls| - 1 + Chunks(|answer|, w));
    } else {
      FirstSegment(m, d, w, answer);
      if |answer| > w {
        AnswerRun(m, m', d', w, answer, w, 1);
        OneMore(m, d, w, Chunks(|answer| - w, w));
      } else {
        NoMore(m', d', w);
        OneMore(m, d, w, 0);
      }
    }
  }

  // ---- whole services --------------------------------------------------

  /** What the master waits in once its request is out. */
  function Asked(m: Isdu): Isdu
  {
    m.(pos := |m.request|, phase := PhaseWait, flow := START)
  }

  /** From anywhere in the request to the decoded answer of the device. */
  lemma {:induction false} ServiceRun(m: Isdu, d: Device, w: nat, k: nat)
    requires Wf(m) && Sending(m) && InStep(m, d, k) && w > 0
    requires ConformantPolls(NextPolls(d.busy), w)
    requires var answer := Answer(d.objects, m.request).1; WellFormed(m.cap, answer) && IsPdu(answer)
    ensures Wf(Asked(m))
    ensures var (objects, answer) := Answer(d.objects, m.request);
            var n := Chunks(|m.request| - m.pos, w) + (|NextPolls(d.busy)| + Chunks(|answer|, w));
            var (m', d') := Run(m, d, w, n);
            && Takes(m, d, w, n)
            && SameButFlow(m', Answered(Asked(m), answer))
            && d'.objects == objects && d'.busy == LaterPolls(d.busy)
    decreases |m.request| - m.pos
  {
    hide Answer, Answered, ConformantPolls, Decode, DeclaredLength, Exchange, InStep, IsPdu, OnOd, Run, SameButFlow,
         Takes, WellFormed, XorAll;
    RequestStep(m, d, w, k);
    var (m', d') := Exchange(m, d, w);
    var answer, polls := Answer(d.objects, m.request).1, NextPolls(d.busy);
    if |m.request| - m.pos > w {
      ServiceRun(m', d', w, k + 1);
      OneMore(m, d, w, Chunks(|m.request| - m.pos - w, w) + (|polls| + Chunks(|answer|, w)));
    } else {
      PollRun(m', d', w, polls, answer);
      OneMore(m, d, w, |polls| + Chunks(|answer|, w));
    }
  }

  /** A port with no service in progress and no transport error to signal. */
  ghost predicate AtRest(m: Isdu)
  {
    Wf(m) && m.op == OpNone && !m.abortPending
  }

  /** Exchanges of one service: request frames, idle replies, answer segments. */
  function Exchanges(request: seq<byte>, polls: seq<seq<byte>>, answer: seq<byte>, w: nat): nat
    requires w > 0
  {
    Chunks(|request|, w) + (|polls| + Chunks(|answer|, w))
  }

  lemma StartIsSending(m: Isdu, d: Device, r: Request)
    requires AtRest(m) && Acceptable(r, m.cap)
    ensures PlainTotal(r) <= 237 && Wf(Start(m, r)) && Sending(Start(m, r)) && InStep(Start(m, r), d, 0)
    ensures ParseRequest(Start(m, r).request) == Some(r)
  {
    AcceptableFits(r, m.cap);
    RequestRoundTrip(r, m.cap);
  }

  /** A completed service without an error, holding `data`. */
  predicate CompletedWith(t: Isdu, m: Isdu, data: seq<byte>)
  {
    && t.op == m.op && t.index == m.index && t.subindex == m.subindex && t.cap == m.cap
    && t.done && t.idlePending && !t.abortPending && t.error == NO_ERROR && t.response == data
    && t.lastResult == m.lastResult && t.lastError == m.lastError
  }

  lemma AnsweredPositive(m: Isdu, answer: seq<byte>, t: Isdu)
    requires Wf(m) && Awaiting(m) && !m.abortPending && WellFormed(m.cap, answer) && IsPdu(answer)
    requires !Negative(answer) && |answer| >= HeaderLen(answer) + CHKPDU_LEN
    requires SameButFlow(t, Answered(m, answer))
    ensures CompletedWith(t, m, Payload(answer))
  {
  }

  /** Any accepted request with a positive answer completes with the payload of that answer. */
  lemma PositiveService(m: Isdu, d: Device, w: nat, r: Request, answer: seq<byte>)
    requires AtRest(m) && Acceptable(r, m.cap) && w > 0 && ConformantPolls(NextPolls(d.busy), w)
    requires PlainTotal(r) <= 237 && answer == Answer(d.objects, Encode(r)).1
    requires WellFormed(m.cap, answer) && IsPdu(answer)
    requires !Negative(answer) && |answer| >= HeaderLen(answer) + CHKPDU_LEN
    ensures Wf(Start(m, r))
    ensures var n := Exchanges(Encode(r), NextPolls(d.busy), answer, w);
            var (m', d') := Run(Start(m, r), d, w, n);
            && Takes(Start(m, r), d, w, n)
            && CompletedWith(m', Start(m, r), Payload(answer))
            && d'.objects == Answer(d.objects, Encode(r)).0 && d'.busy == LaterPolls(d.busy)
  {
    hide Answer, Answered, Decode, Encode, Exchange, InStep, OnOd, ParseRequest, Run, Sending, Takes, XorAll,
         DeclaredLength, IsPdu, Negative, Payload, ReadResponse, WellFormed, SameButFlow, CompletedWith;
    StartIsSending(m, d, r);
    var s := Start(m, r);
    ServiceRun(s, d, w, 0);
    var n := Exchanges(Encode(r), NextPolls(d.busy), answer, w);
    AnsweredPositive(Asked(s), answer, Run(s, d, w, n).0);
    SameService(Run(s, d, w, n).0, s, Payload(answer));
  }

  lemma SameService(t: Isdu, s: Isdu, data: seq<byte>)
    requires CompletedWith(t, Asked(s), data)
    ensures CompletedWith(t, s, data)
  {
  }

  lemma AnswerToWrite(objects: Objects, r: Request, cap: nat)
    requires 16 <= cap && !r.read && WriteAccepted(r, cap)
    ensures PlainTotal(r) <= 237
    ensures Answer(objects, Encode(r)) == (objects[(r.index, r.subindex) := r.data], WRITE_RESPONSE)
  {
    RequestRoundTrip(r, cap);
  }

  lemma AnswerToRead(objects: Objects, r: Request)
    requires r.read && r.data == [] && (r.index, r.subindex) in objects
    requires |objects[(r.index, r.subindex)]| <= OBJECT_MAX
    ensures Answer(objects, Encode(r)) == (objects, ReadResponse(objects[(r.index, r.subindex)]))
  {
    EncodedParses(r);
  }

  lemma ResponseFits(data: seq<byte>, cap: nat)
    requires |data| <= OBJECT_MAX && |data| + 3 <= cap
    ensures var answer := ReadResponse(data);
            && WellFormed(cap, answer) && IsPdu(answer) && !Negative(answer)
            && |answer| >= HeaderLen(answer) + CHKPDU_LEN && Payload(answer) == data
  {
    ReadResponseRoundTrip(data);
    var answer := ReadResponse(data);
    assert answer[0] == 0xD1 || answer[0] == 0xD0 + |data| + 2;
  }

  lemma WriteResponseFits(cap: nat)
    requires 16 <= cap
    ensures WellFormed(cap, WRITE_RESPONSE) && IsPdu(WRITE_RESPONSE) && !Negative(WRITE_RESPONSE)
    ensures Payload(WRITE_RESPONSE) == []
  {
    WriteResponseIsEmpty();
  }

  /** A write the master accepts runs to OK against a conformant device, whatever the device was doing
      before, in exactly the exchanges its octets need, and leaves the data in the device. */
  lemma WriteCompletes(m: Isdu, d: Device, w: nat, r: Request)
    requires AtRest(m) && !r.read && WriteAccepted(r, m.cap) && w > 0
    requires ConformantPolls(NextPolls(d.busy), w)
    ensures PlainTotal(r) <= 237
    ensures Write(m, true, r) == (Start(m, r), PENDING) && Wf(Start(m, r))
    ensures var n := Exchanges(Encode(r), NextPolls(d.busy), WRITE_RESPONSE, w);
            var (m', d') := Run(Start(m, r), d, w, n);
            && Takes(Start(m, r), d, w, n)
            && Write(m', true, r) == (Clear(m).(lastResult := OK), OK)
            && m'.idlePending && !m'.abortPending
            && d'.objects == d.objects[(r.index, r.subindex) := r.data] && d'.busy == LaterPolls(d.busy)
  {
    hide Answer, Encode, Exchange, Run, Takes, ParseRequest, IsPdu, WellFormed, XorAll;
    AnswerToWrite(d.objects, r, m.cap);
    WriteResponseFits(m.cap);
    PositiveService(m, d, w, r, WRITE_RESPONSE);
  }

  /** A read of an object the device holds runs to OK and returns that object. */
  lemma ReadCompletes(m: Isdu, d: Device, w: nat, index: u16, subindex: byte, room: byte)
    requires AtRest(m) && w > 0 && ConformantPolls(NextPolls(d.busy), w)
    requires (index, subindex) in d.objects
    requires |d.objects[(index, subindex)]| <= OBJECT_MAX && |d.objects[(index, subindex)]| <= room
    requires |d.objects[(index, subindex)]| + 3 <= m.cap
    ensures var r := Request(true, index, subindex, []);
            var data := d.objects[(index, subindex)];
            var n := Exchanges(Encode(r), NextPolls(d.busy), ReadResponse(data), w);
            && Read(m, true, index, subindex, room) == (Start(m, r), Reply(PENDING, room, []))
            && Wf(Start(m, r))
            && Takes(Start(m, r), d, w, n)
            && Read(Run(Start(m, r), d, w, n).0, true, index, subindex, room)
               == (Clear(m).(lastResult := OK), Reply(OK, |data|, data))
            && Run(Start(m, r), d, w, n).1.objects == d.objects
  {
    var r := Request(true, index, subindex, []);
    var data := d.objects[(index, subindex)];
    hide Answer, Encode, Exchange, Run, Takes, ParseRequest, IsPdu, WellFormed, XorAll, ReadResponse;
    AnswerToRead(d.objects, r);
    ResponseFits(data, m.cap);
    PositiveService(m, d, w, r, ReadResponse(data));
  }

  /** The IDLE read that concludes a service changes nothing but the latch. */
  lemma IdleConcludes(m: Isdu, d: Device, w: nat)
    requires Wf(m) && m.idlePending && !m.abortPending
    ensures Exchange(m, d, w).0 == m.(idlePending := false)
    ensures Exchange(m, d, w).1.objects == d.objects && Exchange(m, d, w).1.busy == d.busy
  {
    DeafToOctets(TakeIdle(m), OnRead(d, IDLE, w).1);
  }

  /** End to end: write data, collect OK, read it back, and the read returns exactly that data. The
      result of the write may be collected before or after the concluding IDLE frame. */
  lemma WriteThenReadReturnsData(m: Isdu, d: Device, w: nat, r: Request, room: byte, idleSent: bool)
    requires AtRest(m) && w > 0 && !r.read && WriteAccepted(r, m.cap) && |r.data| <= room
    requires ConformantPolls(NextPolls(d.busy), w) && ConformantPolls(NextPolls(LaterPolls(d.busy)), w)
    ensures Write(m, true, r).1 == PENDING && Wf(Write(m, true, r).0)
    ensures var n1 := Exchanges(Encode(r), NextPolls(d.busy), WRITE_RESPONSE, w);
            var (m1, d1) := Run(Write(m, true, r).0, d, w, n1);
            var (m2, d2) := if idleSent then Exchange(m1, d1, w) else (m1, d1);
            var (m3, written) := Write(m2, true, r);
            && written == OK && Wf(m3)
            && var (m4, asked) := Read(m3, true, r.index, r.subindex, room);
               && asked.ret == PENDING && Wf(m4)
               && var n2 := Exchanges(Encode(Request(true, r.index, r.subindex, [])), NextPolls(d2.busy),
                                      ReadResponse(r.data), w);
                  Read(Run(m4, d2, w, n2).0, true, r.index, r.subindex, room).1 == Reply(OK, |r.data|, r.data)
  {
    WriteCompletes(m, d, w, r);
    var n1 := Exchanges(Encode(r), NextPolls(d.busy), WRITE_RESPONSE, w);
    var (m1, d1) := Run(Start(m, r), d, w, n1);
    IdleConcludes(m1, d1, w);
    var (m2, d2) := if idleSent then Exchange(m1, d1, w) else (m1, d1);
    var m3 := Write(m2, true, r).0;
    assert m3 == Clear(m).(lastResult := OK);
    ReadCompletes(m3, d2, w, r.index, r.subindex, room);
  }
}
