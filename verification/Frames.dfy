/** The message layer: M-sequence control octets, master messages and device replies
    with their checksums (A.1.2 to A.1.6, A.2). */
module Frames {
  import opened Wrappers
  import opened Octets
  import opened DeviceParameters

  const FRAME_BUF := 64
  const OD_MAX := 8

  datatype Channel = McProcess | McPage | McDiagnosis | McIsdu

  // ---- M-sequence control ----------------------------------------------

  function ChannelCode(channel: Channel): (c: nat)
    ensures c < 4
  {
    match channel case McProcess => 0 case McPage => 1 case McDiagnosis => 2 case McIsdu => 3
  }

  /** Bit 7 is the direction, bits 5 and 6 the channel, bits 0 to 4 the address or FlowCTRL. */
  function Mc(read: bool, channel: Channel, address: byte): (mc: byte)
  {
    Bit(read) * 128 + ChannelCode(channel) * 32 + address % 32
  }

  predicate McIsRead(mc: byte) { mc >= 128 }

  function McChannel(mc: byte): Channel
  {
    match mc / 32 % 4 case 0 => McProcess case 1 => McPage case 2 => McDiagnosis case _ => McIsdu
  }

  function McAddress(mc: byte): byte { mc % 32 }

  /** Direction, channel and address are recovered, and an octet is determined by them. */
  lemma McRoundTrip(read: bool, channel: Channel, address: byte, mc: byte)
    ensures McIsRead(Mc(read, channel, address)) == read
    ensures McChannel(Mc(read, channel, address)) == channel
    ensures McAddress(Mc(read, channel, address)) == address % 32
    ensures Mc(McIsRead(mc), McChannel(mc), McAddress(mc)) == mc
  {
  }

  lemma ChannelBits(read: bool, channel: Channel, address: byte)
    ensures Mc(read, channel, address) / 32 % 4 == ChannelCode(channel)
  {
  }

  lemma ProcessMc()
    ensures Mc(false, McProcess, 0) == 0 && !McIsRead(0) && McChannel(0) == McProcess && McAddress(0) == 0
  {
  }

  // ---- master messages -------------------------------------------------

  /** M-sequence type bits 6 and 7 of CKT (A.1.3). */
  function TypeBits(mseq: MSequence): (b: byte)
    ensures b % 64 == 0 && b < 192
  {
    match mseq
    case Type0 => 0
    case Type1_1 => 0x40
    case Type1_2 => 0x40
    case Type1_V => 0x40
    case _ => 0x80
  }

  /** MC, CKT and the octets that follow; the checksum is taken with its own bits zero. */
  function Message(mc: byte, bits: byte, body: seq<byte>): (m: seq<byte>)
    requires bits % 64 == 0
    ensures |m| == 2 + |body| && m[0] == mc && m[2..] == body
  {
    [mc, bits + Checksum6([mc, bits] + body)] + body
  }

  /** Bits 6 and 7 of an octet. */
  function High(b: byte): (h: byte)
    ensures h % 64 == 0 && b == h + b % 64
  {
    b / 64 * 64
  }

  datatype Received = Received(mc: byte, bits: byte, body: seq<byte>)

  /** What a device makes of a message: its parts, if the checksum holds (A.1.6). */
  function Accept(m: seq<byte>): (r: Option<Received>)
    ensures r.Some? ==> r.value.bits % 64 == 0
  {
    if |m| < 2 then None
    else
      hide Checksum6;
      var bits := High(m[1]);
      if Checksum6([m[0], bits] + m[2..]) == m[1] % 64 then Some(Received(m[0], bits, m[2..])) else None
  }

  /** Every message is accepted and read back. */
  lemma MessageRoundTrip(mc: byte, bits: byte, body: seq<byte>)
    requires bits % 64 == 0
    ensures Accept(Message(mc, bits, body)) == Some(Received(mc, bits, body))
  {
    hide Checksum6;
    var w := Message(mc, bits, body);
    assert High(w[1]) == bits && w[1] % 64 == Checksum6([mc, bits] + body);
  }

  /** Only messages built this way are accepted. */
  lemma AcceptedIsBuilt(m: seq<byte>)
    requires Accept(m).Some?
    ensures var r := Accept(m).value; Message(r.mc, r.bits, r.body) == m
  {
    hide Checksum6;
    assert m == [m[0], m[1]] + m[2..];
  }

  /** A message that fits the frame buffer and passes the receiver's check (A.1.6). */
  predicate Framed(octets: seq<byte>): (framed: bool)
    ensures framed ==> 2 <= |octets| <= FRAME_BUF
  {
    2 <= |octets| <= FRAME_BUF && Accept(octets).Some?
  }

  lemma MessageIsFramed(mc: byte, bits: byte, body: seq<byte>)
    requires bits % 64 == 0 && |body| <= PD_MAX + OD_MAX
    ensures Framed(Message(mc, bits, body))
  {
    hide Message, Accept;
    MessageRoundTrip(mc, bits, body);
  }

  /** A message for the device: the M-sequence type of CKT, process data, then OD octets. */
  function Typed(mc: byte, mseq: MSequence, pdOut: seq<byte>, od: seq<byte>): seq<byte>
  {
    Message(mc, TypeBits(mseq), pdOut + od)
  }

  /** A typed message fits the frame buffer, and a device that knows the process data length
      recovers direction, channel, address, process data and OD. */
  lemma TypedRoundTrip(read: bool, channel: Channel, address: byte, mseq: MSequence, pdOut: seq<byte>, od: seq<byte>)
    requires address < 32 && |pdOut| <= PD_MAX && |od| <= OD_MAX
    ensures var m := Typed(Mc(read, channel, address), mseq, pdOut, od);
            && |m| <= FRAME_BUF
            && Accept(m).Some?
            && var r := Accept(m).value;
               && McIsRead(r.mc) == read && McChannel(r.mc) == channel && McAddress(r.mc) == address
               && r.bits == TypeBits(mseq)
               && r.body[..|pdOut|] == pdOut && r.body[|pdOut|..] == od
  {
    hide Checksum6;
    McRoundTrip(read, channel, address, 0);
    MessageRoundTrip(Mc(read, channel, address), TypeBits(mseq), pdOut + od);
  }

  // ---- device replies --------------------------------------------------

  /** The octets before CKS, then CKS with flag bits 6 and 7 (A.1.5). */
  function Reply(body: seq<byte>, event: bool, invalid: bool): (r: seq<byte>)
    ensures |r| == |body| + 1
  {
    var flags := Bit(event) * 128 + Bit(invalid) * 64;
    body + [flags + Checksum6(body + [flags])]
  }

  predicate ReplyOk(data: seq<byte>)
    requires |data| > 0
  {
    var cks := data[|data| - 1];
    Checksum6(data[..|data| - 1] + [High(cks)]) == cks % 64
  }

  datatype Decoded = Decoded(od: seq<byte>, pd: seq<byte>, event: bool, pdValid: bool, ok: bool, status: byte)

  /** An OPERATE reply: OD octets, process data, CKS. A wrong length is no frame. */
  function DecodeReply(data: seq<byte>, pdLen: nat, odLen: nat): Option<Decoded>
  {
    if |data| != odLen + pdLen + 1 then None
    else
      var cks := data[|data| - 1];
      Some(Decoded(data[..odLen], data[odLen..odLen + pdLen], cks >= 128, cks / 64 % 2 == 0, ReplyOk(data), cks))
  }

  /** A conformant reply is decoded to what the device sent. */
  lemma ReplyRoundTrip(od: seq<byte>, pd: seq<byte>, event: bool, invalid: bool)
    ensures var r := DecodeReply(Reply(od + pd, event, invalid), |pd|, |od|);
            && r.Some? && r.value.od == od && r.value.pd == pd && r.value.ok
            && r.value.event == event && r.value.pdValid == !invalid
  {
    hide Checksum6;
    var flags := Bit(event) * 128 + Bit(invalid) * 64;
    var data := Reply(od + pd, event, invalid);
    assert data[..|od + pd|] == od + pd && High(data[|od + pd|]) == flags;
    assert data[|od + pd|] % 64 == Checksum6(od + pd + [flags]);
  }

  /** A reply checks out only if it is the conformant one for its octets and flags. */
  lemma ReplyOkExactly(body: seq<byte>, cks: byte)
    ensures ReplyOk(body + [cks]) <==> body + [cks] == Reply(body, cks >= 128, cks / 64 % 2 == 1)
  {
    hide Checksum6;
    var data := body + [cks];
    assert data[..|body|] == body;
    var f := Bit(cks >= 128) * 128 + Bit(cks / 64 % 2 == 1) * 64;
    assert High(cks) == f;
    assert Reply(body, cks >= 128, cks / 64 % 2 == 1)[|body|] == f + Checksum6(body + [f]);
  }

  // ---- replies without OD -------------------------------------------------

  /** Two replies of CKS alone, taken for one reply of an OD octet and CKS, never pass its check. */
  lemma TwoCksNeverCheck(event: bool, invalid: bool, event2: bool, invalid2: bool)
    ensures |Reply([], event, invalid) + Reply([], event2, invalid2)| == 2
    ensures !ReplyOk(Reply([], event, invalid) + Reply([], event2, invalid2))
  {
    hide XorNat, Xor, XorAll, Compress;
    var f1, f2 := Bit(event) * 128 + Bit(invalid) * 64, Bit(event2) * 128 + Bit(invalid2) * 64;
    FlagsChecksum(f1);
    FlagsChecksum(f2);
    assert [] + [f1] == [f1] && [] + [f2] == [f2];
    var c1, c2 := f1 + Checksum6([f1]), f2 + Checksum6([f2]);
    assert Reply([], event, invalid) + Reply([], event2, invalid2) == [c1, c2];
    assert [c1, c2][..1] + [High(c2)] == [c1, f2];
    PairChecksum(c1, f2);
  }
}
