/** The event memory of a device laid out independently of how the master reads it (Table 58), and what a
    readout of such a memory delivers. */
module EventImage {
  import opened Status
  import opened Octets
  import opened IsduExchange
  import opened EventMemory

  /** A slot of the memory: the fields of an event, or three octets that mean nothing. */
  datatype Slot =
    | Vacant(junk: (byte, byte, byte))
    | Occupied(instance: nat, kind: EventType, mode: nat, high: byte, low: byte)

  type Slots = s: seq<Slot> |
      |s| == 6 && forall i :: 0 <= i < 6 && s[i].Occupied? ==> s[i].instance < 16 && s[i].mode < 4
    witness seq(6, i => Vacant((0, 0, 0)))

  /** Bits 4 and 5 of an event qualifier. */
  function TypeCode(kind: EventType): (n: nat)
    ensures n < 4
  {
    match kind case Unknown => 0 case Notification => 1 case Warning => 2 case ErrorEvent => 3
  }

  /** Bits 0 to 3 instance and source, 4 and 5 type, 6 and 7 mode. */
  function Qualifier(s: Slot): byte
    requires s.Occupied? && s.instance < 16 && s.mode < 4
  {
    s.instance + 16 * TypeCode(s.kind) + 64 * s.mode
  }

  function SlotOctets(s: Slot): (o: seq<byte>)
    requires s.Occupied? ==> s.instance < 16 && s.mode < 4
    ensures |o| == 3
  {
    match s
    case Vacant(junk) => [junk.0, junk.1, junk.2]
    case Occupied(instance, kind, mode, high, low) => [Qualifier(s), high, low]
  }

  function Flag(s: Slot): nat { if s.Occupied? then 1 else 0 }

  /** Bit n - 1 says that slot n is occupied; bits 6 and 7 are not about slots. */
  function StatusCode(s: Slots, upper: nat): byte
    requires upper < 4
  {
    Flag(s[0]) + 2 * Flag(s[1]) + 4 * Flag(s[2]) + 8 * Flag(s[3]) + 16 * Flag(s[4]) + 32 * Flag(s[5]) + 64 * upper
  }

  /** Address 0 holds the StatusCode, addresses 3n - 2 to 3n slot n. */
  function Image(s: Slots, upper: nat): (m: seq<byte>)
    requires upper < 4
    ensures |m| == 19
  {
    [StatusCode(s, upper)] + SlotOctets(s[0]) + SlotOctets(s[1]) + SlotOctets(s[2]) + SlotOctets(s[3])
    + SlotOctets(s[4]) + SlotOctets(s[5])
  }

  /** The events of a memory, in slot order. */
  function Occurring(s: seq<Slot>): (e: seq<Event>)
    requires forall i :: 0 <= i < |s| && s[i].Occupied? ==> s[i].instance < 16 && s[i].mode < 4
  {
    if s == [] then []
    else if s[0].Vacant? then Occurring(s[1..])
    else [Event(Qualifier(s[0]), s[0].kind, 256 * (s[0].high as int) + s[0].low)] + Occurring(s[1..])
  }

  /** Octets up to the end of the last occupied slot. */
  function Used(s: seq<Slot>): nat
  {
    if s == [] then 1 else if s[|s| - 1].Occupied? then 1 + 3 * |s| else Used(s[..|s| - 1])
  }

  lemma ActiveIsOccupied(s: Slots, upper: nat, k: nat)
    requires upper < 4
    ensures Active(Image(s, upper)[0], k) <==> k < 6 && s[k].Occupied?
  {
    var code := StatusCode(s, upper);
    assert Image(s, upper)[0] == code;
    FlagsAreBits(Flag(s[0]), Flag(s[1]), Flag(s[2]), Flag(s[3]), Flag(s[4]), Flag(s[5]), upper);
    hide StatusCode, Image;
  }

  lemma LowBit(b: nat, n: nat)
    requires b < 2
    ensures Odd(b + 2 * n) == (b == 1) && (b + 2 * n) / 2 == n
  {
  }

  lemma FlagsAreBits(b0: nat, b1: nat, b2: nat, b3: nat, b4: nat, b5: nat, upper: nat)
    requires b0 < 2 && b1 < 2 && b2 < 2 && b3 < 2 && b4 < 2 && b5 < 2
    ensures var n := b0 + 2 * b1 + 4 * b2 + 8 * b3 + 16 * b4 + 32 * b5 + 64 * upper;
            && Odd(n) == (b0 == 1) && Odd(n / 2) == (b1 == 1) && Odd(n / 4) == (b2 == 1)
            && Odd(n / 8) == (b3 == 1) && Odd(n / 16) == (b4 == 1) && Odd(n / 32) == (b5 == 1)
  {
    hide Odd;
    var n5 := b5 + 2 * upper;
    var n4 := b4 + 2 * n5;
    var n3 := b3 + 2 * n4;
    var n2 := b2 + 2 * n3;
    var n1 := b1 + 2 * n2;
    var n0 := b0 + 2 * n1;
    LowBit(b0, n1);
    LowBit(b1, n2);
    LowBit(b2, n3);
    LowBit(b3, n4);
    LowBit(b4, n5);
    LowBit(b5, upper);
    assert n0 / 4 == n0 / 2 / 2 && n0 / 8 == n0 / 4 / 2 && n0 / 16 == n0 / 8 / 2 && n0 / 32 == n0 / 16 / 2;
  }

  lemma SlotIsAt(s: Slots, upper: nat, k: nat)
    requires upper < 4 && k < 6
    ensures Image(s, upper)[1 + 3 * k..4 + 3 * k] == SlotOctets(s[k])
  {
    hide SlotOctets, StatusCode;
  }

  lemma EntryIsTheSlots(s: Slots, upper: nat, k: nat)
    requires upper < 4 && k < 6 && s[k].Occupied?
    ensures Entry(Image(s, upper), k) == Event(Qualifier(s[k]), s[k].kind, 256 * (s[k].high as int) + s[k].low)
  {
    hide Image, Qualifier, KindOf;
    var m := Image(s, upper);
    SlotIsAt(s, upper, k);
    var o := m[1 + 3 * k..4 + 3 * k];
    assert o[0] == m[1 + 3 * k] && o[1] == m[2 + 3 * k] && o[2] == m[3 + 3 * k];
    TypeIsRead(s[k]);
  }

  lemma TypeIsRead(s: Slot)
    requires s.Occupied? && s.instance < 16 && s.mode < 4
    ensures KindOf(Qualifier(s)) == s.kind
  {
  }

  /** Entries from slot k on are the events of the slots from k on. */
  lemma {:induction false} EntriesAreEvents(s: Slots, upper: nat, k: nat)
    requires upper < 4 && k <= 6
    ensures var m := Image(s, upper); Entries(m, ActiveSlots(m[0], k)) == Occurring(s[k..])
    decreases 6 - k
  {
    hide Image, Active, Entry, Qualifier;
    var m := Image(s, upper);
    if k < 6 {
      EntriesAreEvents(s, upper, k + 1);
      ActiveIsOccupied(s, upper, k);
      assert s[k..][1..] == s[k + 1..];
      if s[k].Occupied? {
        EntryIsTheSlots(s, upper, k);
        var rest := ActiveSlots(m[0], k + 1);
        assert Entries(m, [k] + rest) == [Entry(m, k)] + Entries(m, rest);
      }
    }
  }

  /** The highest occupied slot bounds what has to be read. */
  lemma NeededIsUsed(s: Slots, upper: nat)
    requires upper < 4
    ensures Needed(Image(s, upper)[0]) == Used(s)
  {
    hide Image, StatusCode;
    LastIsLast(s, upper, 6);
    assert s[..6] == s;
  }

  lemma {:induction false} LastIsLast(s: Slots, upper: nat, n: nat)
    requires upper < 4 && n <= 6
    ensures 1 + 3 * LastSlot(Image(s, upper)[0], n) == Used(s[..n])
  {
    hide Image, StatusCode, Active;
    if n > 0 {
      ActiveIsOccupied(s, upper, n - 1);
      assert s[..n][..n - 1] == s[..n - 1];
      LastIsLast(s, upper, n - 1);
    }
  }

  /** What a caller with room for `room` events is handed: as many as fit, and one where none fits. */
  function Fitting(events: seq<Event>, room: nat): seq<Event>
  {
    if |events| <= room then events else if room == 0 then events[..1] else events[..room]
  }

  lemma DetailsAreEvents(s: Slots, upper: nat, room: nat)
    requires upper < 4
    ensures Details(Image(s, upper), room) == Fitting(Occurring(s), room)
    ensures FirstCode(Image(s, upper)) == if Occurring(s) == [] then 0 else Occurring(s)[0].code
  {
    hide Image, Active, Entry, Qualifier;
    EntriesAreEvents(s, upper, 0);
    assert s[0..] == s;
    var m := Image(s, upper);
    var slots := ActiveSlots(m[0], 0);
    var n := Delivered(|slots|, room);
    assert Entries(m, slots[..n]) == Entries(m, slots)[..n];
  }

  /** A lock-step readout of a device's memory reads up to its last occupied slot and no further, and delivers
      exactly its events in slot order, all of them if there is room; the code reported is that of the first. */
  lemma ReadoutDeliversEvents(request: EventRequest, s: Slots, upper: nat, rest: seq<byte>, w: nat, n: nat, room: nat)
    requires request != ReqNone && w > 0 && upper < 4 && 256 + w <= |Image(s, upper) + rest|
    requires n > Chunks(Used(s), w)
    ensures var (accesses, last) := Accesses(Start(request), Image(s, upper) + rest, w, n);
            && |accesses| == Chunks(Used(s), w) + (if request == ReqAck then 1 else 0)
            && Wf(last) && last.phase == EventNone && last.result == OK
            && Details(last.memory, room) == Fitting(Occurring(s), room)
            && FirstCode(last.memory) == (if Occurring(s) == [] then 0 else Occurring(s)[0].code)
  {
    hide Image, Details, FirstCode, Needed, Used, Occurring, Fitting;
    var space := Image(s, upper) + rest;
    assert space[0] == Image(s, upper)[0] && space[..MEMORY_LEN] == Image(s, upper);
    NeededIsUsed(s, upper);
    DetailsAreEvents(s, upper, room);
    ReadoutDelivers(request, space, w, n, room);
  }

  /** The StatusCode 1 with slot 1 holding 54 40 10 is the notification 4010. */
  lemma SlotExample()
    ensures var s: Slots := [Occupied(4, Notification, 1, 0x40, 0x10)] + seq(5, i => Vacant((0, 0, 0)));
            && Image(s, 0)[..4] == [1, 0x54, 0x40, 0x10]
            && FirstCode(Image(s, 0)) == 0x4010
  {
    var s: Slots := [Occupied(4, Notification, 1, 0x40, 0x10)] + seq(5, i => Vacant((0, 0, 0)));
    DetailsAreEvents(s, 0, 1);
    SlotIsAt(s, 0, 0);
    assert StatusCode(s, 0) == 1 && SlotOctets(s[0]) == [0x54, 0x40, 0x10];
    assert Image(s, 0)[..4] == [Image(s, 0)[0]] + Image(s, 0)[1..4];
    assert Occurring(s)[0].code == 0x4010;
  }
}
