/** The event service of a port as the program keeps it: the memory image in one buffer,
    updated in place. The methods compute the transitions of EventMemory. */
module EventReader {
  import opened Status
  import opened Octets
  import opened IsduCodec
  import E = EventMemory
  import opened EventMemory

  datatype Registers = Registers(
    phase: EventPhase,
    request: EventRequest,
    addr: byte,
    needed: byte,
    len: byte,
    lastSlot: byte,
    statusSeen: bool,
    odExpected: bool,
    result: int)

  lemma SlotsStep(status: byte, slot: nat)
    requires slot < SLOTS
    ensures ActiveSlots(status, slot)
         == (if Active(status, slot) then [slot] else []) + ActiveSlots(status, slot + 1)
  {
  }

  lemma EntriesStep(memory: seq<byte>, slots: seq<nat>, n: nat)
    requires |memory| == MEMORY_LEN && 0 < n <= |slots| && forall i :: 0 <= i < |slots| ==> slots[i] < SLOTS
    ensures Entries(memory, slots[..n]) == Entries(memory, slots[..n - 1]) + [Entry(memory, slots[n - 1])]
  {
  }

  class Reader {
    const memory: array<byte>
    var event: Registers
    var lastCode: u16
    var lastCount: byte

    ghost predicate Valid()
      reads this, memory
    {
      memory.Length == MEMORY_LEN && Wf(State())
    }

    ghost function State(): Events
      reads this, memory
    {
      Events(event.phase, event.request, event.addr, event.needed, memory[..], event.len, event.lastSlot,
             event.statusSeen, event.odExpected, event.result)
    }

    constructor ()
      ensures Valid() && fresh(memory) && State() == E.Quiet()
    {
      memory := new byte[MEMORY_LEN](_ => 0);
      event := Registers(EventNone, ReqNone, 0, 0, 0, 0, false, false, OK);
      lastCode, lastCount := 0, 0;
    }

    method Start(request: EventRequest)
      requires Valid() && request != ReqNone
      modifies this`event, memory
      ensures Valid() && State() == E.Start(request)
    {
      for i := 0 to MEMORY_LEN
        invariant forall j :: 0 <= j < i ==> memory[j] == 0
      {
        memory[i] := 0;
      }
      event := Registers(EventRead, request, 0, 1, 0, 0, false, false, PENDING);
    }

    /** Decode the StatusCode once it is there: the highest active slot bounds the readout. */
    method Learn()
      requires Valid()
      modifies this`event
      ensures Valid() && State() == E.Learn(old(State()))
    {
      if event.statusSeen || event.len < 1 {
        return;
      }
      var status, lastSlot := memory[0], 0;
      for slot := 0 to SLOTS
        invariant lastSlot == LastSlot(status, slot)
      {
        if status / SlotBit(slot) % 2 != 0 {
          lastSlot := slot + 1;
        }
      }
      event := event.(statusSeen := true, lastSlot := lastSlot,
                      needed := if lastSlot == 0 then 1 else ENTRY_LEN * lastSlot + 1);
    }

    method OnOd(od: seq<byte>)
      requires Valid()
      modifies this`event, memory
      ensures Valid() && State() == E.OnOd(old(State()), od)
    {
      hide LastSlot, Needed, Active;
      ghost var e := State();
      if event.phase != EventRead {
        return;
      }
      for i := 0 to |od|
        invariant Valid() && State() == Capture(e, od[..i])
      {
        assert od[..i + 1][..i] == od[..i];
        if event.addr < MEMORY_LEN && event.len < MEMORY_LEN {
          memory[event.addr] := od[i];
          event := event.(addr := event.addr + 1, len := event.len + 1);
        }
        Learn();
      }
      assert od[..|od|] == od;
      if event.statusSeen && event.len >= event.needed && event.len >= 1 {
        if event.request == ReqAck {
          event := event.(phase := EventWrite, addr := 0);
        } else {
          event := event.(result := OK, phase := EventNone, odExpected := false);
        }
      }
    }

    method OnWritten()
      requires Valid()
      modifies this`event
      ensures Valid() && State() == E.OnWritten(old(State()))
    {
      if event.phase == EventWrite {
        event := event.(result := OK, phase := EventNone, odExpected := false);
      }
    }

    /** The code of the lowest active slot, or 0. */
    method FirstCodeOf() returns (code: u16)
      requires Valid()
      ensures code == FirstCode(memory[..])
    {
      for slot := 0 to SLOTS
        invariant ActiveSlots(memory[0], 0) == ActiveSlots(memory[0], slot)
      {
        if memory[0] / SlotBit(slot) % 2 != 0 {
          var base := 1 + ENTRY_LEN * slot;
          return Word(memory[base + 1], memory[base + 2]);
        }
      }
      return 0;
    }

    /** Begin, poll or collect a readout that reports one code, confirming it or not. */
    method Report(communicating: bool, confirm: bool) returns (ret: int, code: u16)
      requires Valid()
      modifies this, memory
      ensures Valid() && (State(), ret, code) == E.Report(old(State()), communicating, confirm)
      ensures lastCode == if ret == OK then code else old(lastCode)
      ensures lastCount == if ret == OK && !confirm && old(event.lastSlot) >= 1 then 1 else old(lastCount)
    {
      hide FirstCode;
      code := 0;
      if !communicating {
        return ERR_INVALID_STATE, code;
      }
      if event.phase != EventNone {
        return PENDING, code;
      }
      if event.request == ReqNone {
        Start(if confirm then ReqAck else ReqCode);
        return PENDING, code;
      }
      code := FirstCodeOf();
      lastCode := code;
      if !confirm && event.lastSlot >= 1 {
        lastCount := 1;
      }
      event := event.(request := ReqNone);
      return OK, code;
    }

    method IsActive(slot: nat) returns (active: bool)
      requires Valid() && slot < SLOTS
      ensures active == Active(memory[0], slot)
    {
      return memory[0] / SlotBit(slot) % 2 != 0;
    }

    /** The entry of one slot. */
    method ReadEntry(slot: nat) returns (event: Event)
      requires Valid() && slot < SLOTS
      ensures event == Entry(memory[..], slot)
    {
      var base := 1 + ENTRY_LEN * slot;
      return Event(memory[base], KindOf(memory[base]), Word(memory[base + 1], memory[base + 2]));
    }

    /** Store the active events in ascending order into a caller's array with room for `room`. */
    method Deliver(events: array<Event>, room: nat) returns (count: nat)
      requires Valid() && events.Length >= Max(1, room)
      modifies events
      ensures count == |Details(memory[..], room)| <= events.Length && count <= SLOTS
      ensures events[..count] == Details(memory[..], room)
    {
      hide ActiveSlots, Entry, Active, Wf;
      ghost var image := memory[..];
      ghost var slots := ActiveSlots(image[0], 0);
      var slot := 0;
      count := 0;
      while slot < SLOTS
        invariant Valid() && memory[..] == image
        invariant count <= slot <= SLOTS && count <= events.Length && count <= |slots| && (count == 0 || count < room)
        invariant slots[count..] == ActiveSlots(image[0], slot)
        invariant events[..count] == Entries(image, slots[..count])
      {
        var active := IsActive(slot);
        SlotsStep(image[0], slot);
        if active {
          assert slots[count] == slots[count..][0] == slot;
          events[count] := ReadEntry(slot);
          count := count + 1;
          EntriesStep(image, slots, count);
          if count >= room {
            break;
          }
          assert slots[count..] == slots[count - 1..][1..];
        }
        slot := slot + 1;
      }
      assert slot == SLOTS ==> slots[count..] == [];
    }

    method ReadEventDetails(communicating: bool, events: array<Event>, room: nat) returns (ret: int, count: nat)
      requires Valid() && events.Length >= Max(1, room)
      modifies this, memory, events
      ensures Valid()
      ensures var e := old(State());
              if !communicating then ret == ERR_INVALID_STATE && State() == e
              else if Engaged(e) then ret == PENDING && State() == e
              else if e.request == ReqNone then ret == PENDING && State() == E.Start(ReqDetails)
              else && ret == OK && State() == e.(request := ReqNone)
                   && count <= events.Length && events[..count] == Details(e.memory, room)
                   && lastCount == count && lastCode == (if count > 0 then events[count - 1].code else 0)
      ensures ret != OK ==> count == 0 && events[..] == old(events[..])
    {
      hide Details, Entry, Active, Needed, LastSlot;
      if !communicating {
        return ERR_INVALID_STATE, 0;
      }
      if event.phase != EventNone {
        return PENDING, 0;
      }
      if event.request == ReqNone {
        Start(ReqDetails);
        return PENDING, 0;
      }
      count := Deliver(events, room);
      lastCount := count;
      lastCode := if count > 0 then events[count - 1].code else 0;
      event := event.(request := ReqNone);
      return OK, count;
    }
  }
}
