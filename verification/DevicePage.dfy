/** Direct Parameter page 1 as a device lays it out (Annex B.1), read off its octets independently of the
    parser: what the page says, and when a port configuration fits the device. */
module DevicePage {
  import opened Status
  import opened Octets
  import opened IsduCodec
  import opened DeviceParameters

  // ---- layout --------------------------------------------------------------

  /** A process data length: up to 16 bits, or 3 to 32 octets (Table B.6). */
  datatype PdSize = InBits(n: nat) | InOctets(n: nat)

  predicate LegalSize(s: PdSize) { if s.InBits? then s.n <= 16 else 3 <= s.n <= 32 }

  /** Bit 7 gives the unit, bits 0 to 4 the length; bits 5 and 6 are not about the length. */
  function SizeOctet(s: PdSize, sio: nat): byte
    requires LegalSize(s) && sio < 4
  {
    match s
    case InBits(n) => n + 32 * sio
    case InOctets(n) => n - 1 + 32 * sio + 128
  }

  /** Whole octets a length takes. */
  function SizeInOctets(s: PdSize): nat
  {
    match s
    case InBits(n) => if n == 0 then 0 else if n <= 8 then 1 else 2
    case InOctets(n) => n
  }

  /** What a device says of itself. */
  datatype Device = Device(
    cycle: byte,
    isdu: bool,
    operate: nat,
    preoperate: nat,
    revision: byte,
    pdIn: PdSize,
    pdOut: PdSize,
    vendor: (byte, byte),
    device: (byte, byte, byte))

  predicate Legal(d: Device) { d.operate < 8 && d.preoperate < 4 && LegalSize(d.pdIn) && LegalSize(d.pdOut) }

  /** The page of a device; `command`, `master` and the tail are the octets that are not about the device, and
      `reserved`, `sioIn` and `sioOut` the bits that are not read. */
  function Page(d: Device, command: byte, master: byte, reserved: nat, sioIn: nat, sioOut: nat, tail: seq<byte>)
    : (p: seq<byte>)
    requires Legal(d) && reserved < 4 && sioIn < 4 && sioOut < 4 && |tail| >= 4
    ensures |p| >= 16
  {
    [command, master, d.cycle, (if d.isdu then 1 else 0) + 2 * d.operate + 16 * d.preoperate + 64 * reserved,
     d.revision, SizeOctet(d.pdIn, sioIn), SizeOctet(d.pdOut, sioOut), d.vendor.0, d.vendor.1,
     d.device.0, d.device.1, d.device.2] + tail
  }

  /** A page laid out from a device's values parses back to them. */
  lemma PageParsesBack(d: Device, command: byte, master: byte, reserved: nat, sioIn: nat, sioOut: nat, tail: seq<byte>,
                       before: DeviceInfo)
    requires Legal(d) && reserved < 4 && sioIn < 4 && sioOut < 4 && |tail| >= 4
    ensures var (ret, info) := Parse(Page(d, command, master, reserved, sioIn, sioOut, tail), before);
            && ret == OK && info.valid
            && info.minCycleOctet == d.cycle && info.isdu == d.isdu
            && info.operateCode == d.operate && info.preoperateCode == d.preoperate && info.revision == d.revision
            && info.pdInLen == SizeInOctets(d.pdIn) && info.pdOutLen == SizeInOctets(d.pdOut)
            && info.vendor == 256 * (d.vendor.0 as int) + d.vendor.1
            && info.device == 65536 * (d.device.0 as int) + 256 * (d.device.1 as int) + d.device.2
  {
    var page := Page(d, command, master, reserved, sioIn, sioOut, tail);
    SizeParsesBack(d.pdIn, sioIn);
    SizeParsesBack(d.pdOut, sioOut);
    CapabilityParsesBack(d.isdu, d.operate, d.preoperate, reserved);
    assert page[5] == SizeOctet(d.pdIn, sioIn) && page[6] == SizeOctet(d.pdOut, sioOut);
    hide SizeOctet, PdLength, PdReserved, Field, Odd, MinCycleTicks;
  }

  lemma SizeParsesBack(s: PdSize, sio: nat)
    requires LegalSize(s) && sio < 4
    ensures !PdReserved(SizeOctet(s, sio)) && PdLength(SizeOctet(s, sio)) == SizeInOctets(s)
  {
    var low := if s.InBits? then s.n else s.n - 1;
    var octet := SizeOctet(s, sio);
    assert octet == low + 32 * (sio + if s.InBits? then 0 else 4) && octet % 32 == low;
  }

  lemma CapabilityParsesBack(isdu: bool, operate: nat, preoperate: nat, reserved: nat)
    requires operate < 8 && preoperate < 4 && reserved < 4
    ensures var c := (if isdu then 1 else 0) + 2 * operate + 16 * preoperate + 64 * reserved;
            Odd(c) == isdu && Field(c, 2, 8) == operate && Field(c, 16, 4) == preoperate
  {
    var b := if isdu then 1 else 0;
    var c := b + 2 * operate + 16 * preoperate + 64 * reserved;
    assert c / 2 == operate + 8 * (preoperate + 4 * reserved);
    assert c / 16 == preoperate + 4 * reserved;
  }

  // ---- fitting a configuration -----------------------------------------------

  /** The cycle time of an octet in microseconds (Table B.3). */
  function Microseconds(octet: byte): nat
  {
    if octet < 64 then 100 * (octet as int)
    else if octet < 128 then 6_400 + 400 * (octet - 64)
    else if octet < 192 then 32_000 + 1_600 * (octet - 128)
    else 100 * (octet as int)
  }

  /** A configured length holds what a descriptor octet names, and no octet more. */
  predicate SizeFits(len: nat, descriptor: byte)
  {
    var n := descriptor % 32;
    if descriptor >= 128 then len == n + 1 else n <= 8 * len < n + 8
  }

  /** OPERATE codes a type serves (Table A.10). */
  function Codes(mseq: MSequence): set<nat>
  {
    match mseq
    case Type0 => {0}
    case Type1_1 => {0, 1}
    case Type1_2 => {0, 1}
    case Type1_V => {6, 7}
    case Type2_1 => {0}
    case Type2_2 => {0}
    case Type2_V => {4, 5, 6, 7}
  }

  /** A page says of a port configuration that it serves the device: the octets themselves. */
  predicate Fits(c: Config, page: seq<byte>)
    requires |page| >= 16
  {
    && (page[4] == 0x10 || page[4] == 0x11)
    && 100 * (c.minCycle as int) >= Microseconds(page[2])
    && SizeFits(c.pdInLen, page[5]) && SizeFits(c.pdOutLen, page[6])
    && page[3] / 2 % 8 in Codes(c.mseq)
    && (c.inspection != NoCheck ==>
          && c.vendor / 256 == page[7] && c.vendor % 256 == page[8]
          && c.device / 65536 == page[9] && c.device / 256 % 256 == page[10] && c.device % 256 == page[11])
  }

  /** Legal descriptors, and all 16 octets. */
  predicate Readable(page: seq<byte>)
  {
    |page| >= 16 && LegalDescriptor(page[5]) && LegalDescriptor(page[6])
  }

  predicate LegalDescriptor(descriptor: byte)
  {
    if descriptor >= 128 then descriptor % 32 >= 2 else descriptor % 32 <= 16
  }

  /** A page is parsed exactly if it is readable, and a configuration validates against it exactly if it fits. */
  lemma ValidatesExactly(page: seq<byte>, before: DeviceInfo, c: Config)
    ensures Parse(page, before).0 == OK <==> Readable(page)
    ensures Readable(page) ==> (Validate(Parse(page, before).1, c) == OK <==> Fits(c, page))
    ensures Parse(page, before).0 == (if |page| < 16 then -2 else if Readable(page) then 0 else -8)
    ensures !Readable(page) ==> Parse(page, before).1 == before
  {
    if Readable(page) {
      SizesDecide(c.pdInLen, page[5]);
      SizesDecide(c.pdOutLen, page[6]);
      TimesDecide(c.minCycle, page[2]);
      CodesDecide(c.mseq, Field(page[3], 2, 8));
      NumbersDecide(c.vendor, c.device, page[7], page[8], page[9], page[10], page[11]);
      hide PdLength, SizeFits, MinCycleTicks, Microseconds, Compatible, Codes, Word;
    }
  }

  lemma SizesDecide(len: nat, descriptor: byte)
    ensures len == PdLength(descriptor) <==> SizeFits(len, descriptor)
  {
  }

  lemma TimesDecide(minCycle: byte, octet: byte)
    ensures minCycle >= MinCycleTicks(octet) <==> 100 * (minCycle as int) >= Microseconds(octet)
  {
  }

  lemma CodesDecide(mseq: MSequence, code: byte)
    requires code < 8
    ensures Compatible(mseq, code) <==> code in Codes(mseq)
  {
  }

  lemma NumbersDecide(vendor: u16, device: u32, v1: byte, v0: byte, d2: byte, d1: byte, d0: byte)
    ensures vendor == Word(v1, v0) <==> vendor / 256 == v1 && vendor % 256 == v0
    ensures device == (d2 as int) * U16 + Word(d1, d0)
       <==> device / 65536 == d2 && device / 256 % 256 == d1 && device % 256 == d0
  {
  }

  /** A refusal names the first requirement of the page that fails. */
  lemma RefusalNamesFirst(page: seq<byte>, before: DeviceInfo, c: Config)
    requires Readable(page)
    ensures Validate(Parse(page, before).1, c) ==
            if page[4] != 0x10 && page[4] != 0x11 then -2
            else if 100 * (c.minCycle as int) < Microseconds(page[2]) then -3
            else if !SizeFits(c.pdInLen, page[5]) || !SizeFits(c.pdOutLen, page[6]) then -4
            else if page[3] / 2 % 8 !in Codes(c.mseq) then -5
            else if c.inspection != NoCheck && !(c.vendor / 256 == page[7] && c.vendor % 256 == page[8]) then -6
            else if Fits(c, page) then 0 else -7
  {
    ValidatesExactly(page, before, c);
    SizesDecide(c.pdInLen, page[5]);
    SizesDecide(c.pdOutLen, page[6]);
    TimesDecide(c.minCycle, page[2]);
    CodesDecide(c.mseq, Field(page[3], 2, 8));
    NumbersDecide(c.vendor, c.device, page[7], page[8], page[9], page[10], page[11]);
    hide PdLength, SizeFits, MinCycleTicks, Microseconds, Compatible, Codes, Word;
  }

  /** What selection adopts: the page's process data, its cycle time as far as the field holds it, and the type of
      its code. Unselectable codes change nothing. */
  lemma SelectionAdoptsPage(page: seq<byte>, before: DeviceInfo, c: Config)
    requires Readable(page)
    ensures var (ret, t) := Select(Parse(page, before).1, c);
            var code, isdu := page[3] / 2 % 8, page[3] % 2 == 1;
            && (code == 2 || code == 3 ==> ret == -5 && t == c)
            && (code != 2 && code != 3 ==>
                  && ret == 0
                  && t == c.(mseq := t.mseq, minCycle := t.minCycle, pdInLen := t.pdInLen, pdOutLen := t.pdOutLen)
                  && SizeFits(t.pdInLen, page[5]) && SizeFits(t.pdOutLen, page[6])
                  && 100 * (t.minCycle as int) == Min(Microseconds(page[2]), 25_500)
                  && t.mseq == (if code >= 4 then Type2_V
                                else if code == 1 then (if isdu then Type1_2 else Type1_1)
                                else if t.pdInLen == 0 && t.pdOutLen == 0 then Type0
                                else if isdu then Type2_2 else Type2_1))
  {
    var info := Parse(page, before).1;
    SizesDecide(info.pdInLen, page[5]);
    SizesDecide(info.pdOutLen, page[6]);
  }
}
