/** The event-memory service of a port (7.3.8): readout of the Table 58 memory over the
    diagnosis channel, confirmation, and delivery of the events it holds. */
module EventMemory {
  import opened Status
  import opened Octets
  import opened IsduCodec
  import opened IsduExchange

  const MEMORY_LEN := 19
  const SLOTS := 6
  const ENTRY_LEN := 3

  datatype EventPhase = EventNone | EventRead | EventWrite

  datatype EventRequest = ReqNone | ReqCode | ReqDetails | ReqAck

  datatype Events = Events(
    phase: EventPhase,
    request: EventRequest,
    addr: byte,
    needed: byte,
    memory: seq<byte>,
    len: byte,
    lastSlot: byte,
    statusSeen: bool,
    odExpected: bool,
    result: int)

  function Quiet(): Events
  {
    Events(EventNone, ReqNone, 0, 0, Zeros(MEMORY_LEN), 0, 0, false, false, OK)
  }

  predicate Wf(e: Events)
  {
    && |e.memory| == MEMORY_LEN && e.addr <= MEMORY_LEN
    && (e.phase == EventRead ==> e.request != ReqNone)
    && (e.phase == EventWrite ==> e.addr == 0 && e.request == ReqAck)
  }

  // ---- Table 58 --------------------------------------------------------

  /** Weight of the StatusCode bit of a slot. */
  function SlotBit(slot: nat): (w: nat)
    ensures w > 0
  {
    match slot case 0 => 1 case 1 => 2 case 2 => 4 case 3 => 8 case 4 => 16 case _ => 32
  }

  predicate Active(status: byte, slot: nat): (active: bool)
    ensures active ==> slot < SLOTS
  {
    slot < SLOTS && Odd(status / SlotBit(slot))
  }

  /** One more than the highest active slot below `n`, or 0. */
  function LastSlot(status: byte, n: nat): (last: byte)
    requires n <= SLOTS
    ensures last <= n
    ensures last > 0 ==> Active(status, last - 1)
    ensures forall k :: last <= k < n ==> !Active(status, k)
  {
    if n == 0 then 0 else if Active(status, n - 1) then n else LastSlot(status, n - 1)
  }

  /** Octets of memory worth reading: the StatusCode and every entry up to the last active one. */
  function Needed(status: byte): (n: byte)
    ensures 1 <= n <= MEMORY_LEN
    ensures forall k :: Active(status, k) ==> ENTRY_LEN * k + ENTRY_LEN < n
  {
    ENTRY_LEN * LastSlot(status, SLOTS) + 1
  }

  // ---- transitions -----------------------------------------------------

  function Start(request: EventRequest): Events
  {
    Events(EventRead, request, 0, 1, Zeros(MEMORY_LEN), 0, 0, false, false, PENDING)
  }

  function Store(e: Events, b: byte): Events
    requires Wf(e)
  {
    if e.addr < MEMORY_LEN && e.len < MEMORY_LEN then
      e.(memory := e.memory[e.addr := b], addr := e.addr + 1, len := e.len + 1)
    else e
  }

  function Learn(e: Events): Events
    requires Wf(e)
  {
    if !e.statusSeen && e.len >= 1 then
      e.(statusSeen := true, lastSlot := LastSlot(e.memory[0], SLOTS), needed := Needed(e.memory[0]))
    else e
  }

  function Capture(e: Events, od: seq<byte>): (r: Events)
    requires Wf(e) && e.phase == EventRead
    ensures Wf(r) && r.phase == EventRead && r.request == e.request && r.odExpected == e.odExpected
  {
    if od == [] then e else Learn(Store(Capture(e, od[..|od| - 1]), od[|od| - 1]))
  }

  function Finish(e: Events): Events
  {
    e.(result := OK, phase := EventNone, odExpected := false)
  }

  /** Conclude a complete readout: confirm it, or hand it over. */
  function Conclude(e: Events): Events
  {
    if e.statusSeen && e.len >= e.needed && e.len >= 1 then
      if e.request == ReqAck then e.(phase := EventWrite, addr := 0) else Finish(e)
    else e
  }

  function OnOd(e: Events, od: seq<byte>): (r: Events)
    requires Wf(e)
    ensures Wf(r)
  {
    if e.phase != EventRead then e else Conclude(Capture(e, od))
  }

  function OnWritten(e: Events): Events
  {
    if e.phase == EventWrite then Finish(e) else e
  }

  predicate Engaged(e: Events) { e.phase != EventNone }

  /** What a sent M-sequence leaves behind: an armed read, or the end of a confirmed readout. */
  function OnSent(e: Events, sent: bool): Events
  {
    if e.phase == EventRead then (if sent then e.(odExpected := true) else e) else OnWritten(e)
  }

  /** A reply's OD octets while the service is engaged: only an armed read takes them. */
  function Route(e: Events, od: seq<byte>): (r: Events)
    requires Wf(e)
    ensures Wf(r)
  {
    if e.phase == EventRead && e.odExpected then OnOd(e.(odExpected := false), od) else e
  }

  // ---- readout of a frozen memory ---------------------------------------

  // `space` is the address space of the diagnosis channel; it begins with the device's event memory.

  /** The StatusCode is known and what it calls for is recorded. */
  ghost predicate Collected(e: Events, space: seq<byte>)
    requires |space| > 0
  {
    e.statusSeen && e.needed == Needed(space[0]) && e.lastSlot == LastSlot(space[0], SLOTS)
  }

  /** The state after `n` octets of the readout have been stored. */
  ghost predicate Holds(e: Events, request: EventRequest, space: seq<byte>, n: nat)
    requires |space| >= MEMORY_LEN
  {
    && Wf(e) && e.phase == EventRead && e.request == request && request != ReqNone && !e.odExpected
    && e.addr == e.len == Min(n, MEMORY_LEN)
    && (forall i :: 0 <= i < e.len ==> e.memory[i] == space[i])
    && (if n == 0 then !e.statusSeen && e.needed == 1 else Collected(e, space))
  }

  lemma HoldsStep(e: Events, request: EventRequest, space: seq<byte>, n: nat)
    requires MEMORY_LEN <= |space| && n < |space| && Holds(e, request, space, n)
    ensures Holds(Learn(Store(e, space[n])), request, space, n + 1)
  {
    hide LastSlot, Needed;
  }

  /** `addr == len <= 19`, and the collected prefix is the device's. */
  lemma {:induction false} CaptureIsPrefix(e: Events, request: EventRequest, space: seq<byte>, at: nat, n: nat)
    requires MEMORY_LEN <= |space| && at + n <= |space| && Holds(e, request, space, at)
    ensures Holds(Capture(e, space[at..at + n]), request, space, at + n)
  {
    hide LastSlot, Needed, Store, Learn;
    if n > 0 {
      var od := space[at..at + n];
      CaptureIsPrefix(e, request, space, at, n - 1);
      assert od[..|od| - 1] == space[at..at + n - 1];
      HoldsStep(Capture(e, od[..|od| - 1]), request, space, at + n - 1);
    }
  }

  datatype Access = Access(read: bool, addr: byte)

  /** One exchange on the diagnosis channel. A device with the memory frozen answers a
      read with `w` octets from the address given. */
  function Exchange(e: Events, space: seq<byte>, w: nat): (r: Events)
    requires Wf(e) && Engaged(e) && e.addr + w <= |space|
    ensures Wf(r)
  {
    Route(OnSent(e, true), space[e.addr..e.addr + w])
  }

  /** The accesses of up to `n` exchanges, and the state they lead to. */
  function Accesses(e: Events, space: seq<byte>, w: nat, n: nat): (r: (seq<Access>, Events))
    requires Wf(e) && 256 + w <= |space|
    ensures Wf(r.1)
    decreases n
  {
    if n == 0 || !Engaged(e) then ([], e)
    else
      var (rest, last) := Accesses(Exchange(e, space, w), space, w, n - 1);
      ([Access(e.phase == EventRead, e.addr)] + rest, last)
  }

  /** Reads of `w` octets each from `at` up to `needed`. */
  function Reads(at: nat, needed: nat, w: nat): (s: seq<Access>)
    requires w > 0 && needed <= MEMORY_LEN
    decreases needed - at
  {
    if at >= needed then [] else [Access(true, at)] + Reads(at + w, needed, w)
  }

  lemma {:induction false} ReadsAreCounted(at: nat, needed: nat, w: nat)
    requires w > 0 && at <= needed <= MEMORY_LEN
    ensures |Reads(at, needed, w)| == Chunks(needed - at, w)
    decreases needed - at
  {
    if at + w < needed { ReadsAreCounted(at + w, needed, w); }
  }

  /** A finished readout: every octet the StatusCode calls for is the device's. */
  ghost predicate Complete(e: Events, request: EventRequest, space: seq<byte>)
    requires |space| >= MEMORY_LEN
  {
    && Wf(e) && Collected(e, space) && e.request == request
    && e.needed <= e.len <= MEMORY_LEN
    && (forall i :: 0 <= i < e.len ==> e.memory[i] == space[i])
  }

  lemma ExchangeReads(e: Events, request: EventRequest, space: seq<byte>, w: nat, at: nat)
    requires w > 0 && 256 + w <= |space| && Holds(e, request, space, at)
    requires at == 0 || at < Needed(space[0])
    ensures var r := Exchange(e, space, w);
            && (at + w < Needed(space[0]) ==> Holds(r, request, space, at + w))
            && (at + w >= Needed(space[0]) ==>
                  && Complete(r, request, space)
                  && (if request == ReqAck then r.phase == EventWrite && r.addr == 0
                      else r.phase == EventNone && r.result == OK))
  {
    hide LastSlot, Capture;
    CaptureIsPrefix(e.(odExpected := true).(odExpected := false), request, space, at, w);
    assert Exchange(e, space, w) == Conclude(Capture(e, space[at..at + w]));
  }

  /** The confirmation is one write to address 0, and it ends the service. */
  lemma ConfirmationIsLast(e: Events, space: seq<byte>, w: nat, n: nat)
    requires Wf(e) && e.phase == EventWrite && 256 + w <= |space| && n > 0
    ensures Accesses(e, space, w, n) == ([Access(false, 0)], Finish(e))
  {
    var r := Exchange(e, space, w);
    assert r == Finish(e);
    assert Accesses(r, space, w, n - 1) == ([], r);
    assert Accesses(e, space, w, n) == ([Access(e.phase == EventRead, e.addr)] + [], r);
    assert [Access(e.phase == EventRead, e.addr)] + [] == [Access(false, 0)];
  }

  /** In a lock-step readout of a frozen memory the reads cover exactly the octets needed;
      a confirming service then writes address 0, once, and nothing follows. */
  lemma {:induction false} ReadoutIsExact(e: Events, request: EventRequest, space: seq<byte>, w: nat, at: nat, n: nat)
    requires w > 0 && 256 + w <= |space| && Holds(e, request, space, at)
    requires at == 0 || at < Needed(space[0])
    requires n > |Reads(at, Needed(space[0]), w)|
    ensures var (accesses, last) := Accesses(e, space, w, n);
            && accesses == Reads(at, Needed(space[0]), w) + (if request == ReqAck then [Access(false, 0)] else [])
            && Complete(last, request, space) && last.phase == EventNone && last.result == OK
    decreases Needed(space[0]) - at
  {
    hide LastSlot, Needed, Capture;
    ExchangeReads(e, request, space, w, at);
    var r := Exchange(e, space, w);
    var needed := Needed(space[0]);
    assert Reads(at, needed, w) == [Access(true, at)] + Reads(at + w, needed, w);
    if at + w < needed {
      ReadoutIsExact(r, request, space, w, at + w, n - 1);
    } else {
      assert Reads(at + w, needed, w) == [];
      if request == ReqAck {
        ConfirmationIsLast(r, space, w, n - 1);
      }
    }
  }

  // ---- delivery --------------------------------------------------------

  datatype EventType = Unknown | Notification | Warning | ErrorEvent

  datatype Event = Event(qualifier: byte, kind: EventType, code: u16)

  /** The mode bits 4 and 5 of a qualifier. */
  function KindOf(qualifier: byte): EventType
  {
    match qualifier / 16 % 4
    case 1 => Notification
    case 2 => Warning
    case 3 => ErrorEvent
    case _ => Unknown
  }

  /** The entry of a slot: qualifier, then the code with its high octet first (Table 58). */
  function Entry(memory: seq<byte>, slot: nat): Event
    requires |memory| == MEMORY_LEN && slot < SLOTS
  {
    var base := 1 + ENTRY_LEN * slot;
    Event(memory[base], KindOf(memory[base]), Word(memory[base + 1], memory[base + 2]))
  }

  /** Active slots from `slot` on, in ascending order. */
  function ActiveSlots(status: byte, slot: nat): (s: seq<nat>)
    requires slot <= SLOTS
    ensures forall i :: 0 <= i < |s| ==> slot <= s[i] < SLOTS
    decreases SLOTS - slot
  {
    if slot == SLOTS then []
    else if Active(status, slot) then [slot] + ActiveSlots(status, slot + 1)
    else ActiveSlots(status, slot + 1)
  }

  lemma {:induction false} ActiveSlotsExactly(status: byte, slot: nat)
    requires slot <= SLOTS
    ensures forall k :: k in ActiveSlots(status, slot) <==> slot <= k && Active(status, k)
    decreases SLOTS - slot
  {
    hide SlotBit, Odd;
    if slot < SLOTS {
      ActiveSlotsExactly(status, slot + 1);
      var rest := ActiveSlots(status, slot + 1);
      assert forall k :: k in [slot] + rest <==> k == slot || k in rest;
    }
  }

  predicate Ascending(s: seq<nat>)
  {
    forall i, j :: 0 <= i < j < |s| ==> s[i] < s[j]
  }

  lemma AscendingCons(slot: nat, rest: seq<nat>)
    requires Ascending(rest) && forall i :: 0 <= i < |rest| ==> slot < rest[i]
    ensures Ascending([slot] + rest)
  {
  }

  lemma {:induction false} ActiveSlotsAscend(status: byte, slot: nat)
    requires slot <= SLOTS
    ensures Ascending(ActiveSlots(status, slot))
    decreases SLOTS - slot
  {
    hide Active, Ascending;
    if slot < SLOTS {
      ActiveSlotsAscend(status, slot + 1);
      AscendingCons(slot, ActiveSlots(status, slot + 1));
    } else {
      NoneAscend();
    }
  }

  lemma NoneAscend()
    ensures Ascending([])
  {
  }

  function Entries(memory: seq<byte>, slots: seq<nat>): (s: seq<Event>)
    requires |memory| == MEMORY_LEN && forall i :: 0 <= i < |slots| ==> slots[i] < SLOTS
    ensures |s| == |slots| && forall i :: 0 <= i < |s| ==> s[i] == Entry(memory, slots[i])
  {
    seq(|slots|, i requires 0 <= i < |slots| => Entry(memory, slots[i]))
  }

  /** How many of `active` events are delivered to a caller with room for `room`; the
      first is stored before the room is compared. */
  function Delivered(active: nat, room: nat): (n: nat)
    ensures n <= active
  {
    if active == 0 then 0 else Min(active, Max(1, room))
  }

  /** The delivered events: the active slots of the memory, ascending, cut to the room given. */
  function Details(memory: seq<byte>, room: nat): seq<Event>
    requires |memory| == MEMORY_LEN
  {
    var slots := ActiveSlots(memory[0], 0);
    Entries(memory, slots[..Delivered(|slots|, room)])
  }

  /** The caller's room is respected, unless it has none and an event is active. */
  lemma OverrunsExactly(memory: seq<byte>, room: nat)
    requires |memory| == MEMORY_LEN
    ensures |Details(memory, room)| > room <==> room == 0 && exists k :: Active(memory[0], k)
  {
    var slots := ActiveSlots(memory[0], 0);
    ActiveSlotsExactly(memory[0], 0);
    if slots != [] {
      assert slots[0] in slots;
    }
  }

  lemma OverrunExists()
    ensures |Details([1] + Zeros(MEMORY_LEN - 1), 0)| == 1
  {
    assert Active(1, 0);
    OverrunsExactly([1] + Zeros(MEMORY_LEN - 1), 0);
  }

  /** The code of the lowest active slot, or 0. */
  function FirstCode(memory: seq<byte>): u16
    requires |memory| == MEMORY_LEN
  {
    var slots := ActiveSlots(memory[0], 0);
    if slots == [] then 0 else Entry(memory, slots[0]).code
  }

  /** What a completed readout delivers is what the device's frozen memory holds. */
  lemma DeliveryIsTheDevices(e: Events, request: EventRequest, space: seq<byte>, room: nat)
    requires |space| >= MEMORY_LEN && Complete(e, request, space)
    ensures Details(e.memory, room) == Details(space[..MEMORY_LEN], room)
    ensures FirstCode(e.memory) == FirstCode(space[..MEMORY_LEN])
  {
    hide Needed, Active;
    var m := space[..MEMORY_LEN];
    assert Needed(space[0]) >= 1 && e.memory[0] == m[0];
    var slots := ActiveSlots(m[0], 0);
    ActiveSlotsExactly(m[0], 0);
    forall i | 0 <= i < |slots| ensures Entry(e.memory, slots[i]) == Entry(m, slots[i]) {
      assert slots[i] in slots;
      EntryIsRead(e, request, space, slots[i]);
    }
  }

  lemma EntryIsRead(e: Events, request: EventRequest, space: seq<byte>, slot: nat)
    requires |space| >= MEMORY_LEN && Complete(e, request, space) && Active(space[0], slot)
    ensures Entry(e.memory, slot) == Entry(space[..MEMORY_LEN], slot)
  {
  }

  /** A readout in lock-step reads ceil(needed / w) times, confirms exactly when asked to,
      and delivers the active slots of the device's memory. */
  lemma ReadoutDelivers(request: EventRequest, space: seq<byte>, w: nat, n: nat, room: nat)
    requires request != ReqNone && w > 0 && 256 + w <= |space|
    requires n > Chunks(Needed(space[0]), w)
    ensures var (accesses, last) := Accesses(Start(request), space, w, n);
            && accesses == Reads(0, Needed(space[0]), w) + (if request == ReqAck then [Access(false, 0)] else [])
            && |accesses| == Chunks(Needed(space[0]), w) + (if request == ReqAck then 1 else 0)
            && Wf(last) && last.phase == EventNone && last.result == OK
            && Details(last.memory, room) == Details(space[..MEMORY_LEN], room)
            && FirstCode(last.memory) == FirstCode(space[..MEMORY_LEN])
  {
    hide Needed, LastSlot, Details, FirstCode, Active;
    ReadsAreCounted(0, Needed(space[0]), w);
    ReadoutIsExact(Start(request), request, space, w, 0, n);
    DeliveryIsTheDevices(Accesses(Start(request), space, w, n).1, request, space, room);
  }

  function Routed(e: Events, replies: seq<seq<byte>>): (r: Events)
    requires Wf(e)
    decreases |replies|
  {
    if replies == [] then e else Routed(Route(e, replies[0]), replies[1..])
  }

  /** Replies that land before the first diagnosis read is sent are never captured. */
  lemma {:induction false} StrayRepliesAreIgnored(request: EventRequest, replies: seq<seq<byte>>)
    requires request != ReqNone
    ensures Routed(Start(request), replies) == Start(request)
    decreases |replies|
  {
    if replies != [] { StrayRepliesAreIgnored(request, replies[1..]); }
  }

  // ---- the code and acknowledge services -----------------------------------

  const ERR_INVALID_STATE := -5

  /** Begin, poll or collect a readout that reports one code: the state after the call, its result and code.
      Whatever service began a finished readout, the next call collects it. */
  function Report(e: Events, communicating: bool, confirm: bool): (Events, int, u16)
    requires Wf(e)
  {
    if !communicating then (e, ERR_INVALID_STATE, 0)
    else if Engaged(e) then (e, PENDING, 0)
    else if e.request == ReqNone then (Start(if confirm then ReqAck else ReqCode), PENDING, 0)
    else (e.(request := ReqNone), OK, FirstCode(e.memory))
  }

  /** One call begins a readout, which an acknowledge ends with a confirmation; calls during it are pending and change
      nothing; the first call after it returns the code of the device's first event, and the next begins anew. */
  lemma ReportRuns(e: Events, confirm: bool, space: seq<byte>, w: nat, n: nat)
    requires Wf(e) && !Engaged(e) && e.request == ReqNone && w > 0 && 256 + w <= |space|
    requires n > Chunks(Needed(space[0]), w)
    ensures Report(e, false, confirm) == (e, -5, 0)
    ensures var (begun, ret, code) := Report(e, true, confirm);
            && ret == 1 && code == 0 && Wf(begun) && Engaged(begun)
            && var (accesses, last) := Accesses(begun, space, w, n);
               && accesses == Reads(0, Needed(space[0]), w) + (if confirm then [Access(false, 0)] else [])
               && Wf(last) && !Engaged(last)
               && var (collected, done, first) := Report(last, true, confirm);
                  && done == 0 && first == FirstCode(space[..MEMORY_LEN])
                  && Wf(collected) && !Engaged(collected) && Report(collected, true, confirm) == (begun, 1, 0)
  {
    hide Needed, LastSlot, Active, FirstCode, Details;
    var request := if confirm then ReqAck else ReqCode;
    ReadoutDelivers(request, space, w, n, 0);
    ReadsAreCounted(0, Needed(space[0]), w);
    ReadoutIsExact(Start(request), request, space, w, 0, n);
  }

  lemma ReportWaits(e: Events, communicating: bool, confirm: bool)
    requires Wf(e) && Engaged(e)
    ensures Report(e, communicating, confirm) == (e, if communicating then 1 else -5, 0)
  {
  }

  /** An acknowledge call that collects a lock-step readout returns OK and the device's code, whatever service
      began it; the device's memory was confirmed exactly if that was an acknowledge. */
  lemma AcknowledgeConfirmsExactly(begun: EventRequest, space: seq<byte>, w: nat, n: nat)
    requires begun != ReqNone && w > 0 && 256 + w <= |space| && n > Chunks(Needed(space[0]), w)
    ensures var (accesses, last) := Accesses(Start(begun), space, w, n);
            && Wf(last) && Report(last, true, true).1 == OK
            && Report(last, true, true).2 == FirstCode(space[..MEMORY_LEN])
            && ((exists a :: a in accesses && !a.read) <==> begun == ReqAck)
  {
    hide Needed, LastSlot, Active, FirstCode, Details;
    ReadoutDelivers(begun, space, w, n, 0);
    ReadoutIsExact(Start(begun), begun, space, w, 0, n);
    ReadsOnlyRead(0, Needed(space[0]), w);
    if begun == ReqAck {
      var accesses := Accesses(Start(begun), space, w, n).0;
      assert accesses[|accesses| - 1] == Access(false, 0) && accesses[|accesses| - 1] in accesses;
    }
  }

  lemma {:induction false} ReadsOnlyRead(at: nat, needed: nat, w: nat)
    requires w > 0 && needed <= MEMORY_LEN
    ensures forall a :: a in Reads(at, needed, w) ==> a.read
    decreases needed - at
  {
    if at < needed { ReadsOnlyRead(at + w, needed, w); }
  }
}
