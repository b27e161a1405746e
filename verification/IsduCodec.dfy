/** The ISDU octet streams of Annex A.5: how requests and responses are laid out
    and an independent reader for each, after Tables A.12 to A.15. */
module IsduCodec {
  import opened Wrappers
  import opened Octets

  const CHKPDU_LEN := 1
  const WRITE_HEADER_MAX := 7
  const EXT_MIN := 17
  const EXT_MAX := 238

  /** One acyclic service as the application asks for it. */
  datatype Request = Request(read: bool, index: u16, subindex: byte, data: seq<byte>)

  // ---- request encoder -------------------------------------------------

  /** Octets of the index format of Table A.15: 1, 2 or 3. */
  function IndexLen(index: u16, subindex: byte): (n: nat)
    ensures 1 <= n <= 3
  {
    if index <= 0xFF then (if subindex == 0 then 1 else 2) else 3
  }

  function IndexOctets(index: u16, subindex: byte): (s: seq<byte>)
    ensures |s| == IndexLen(index, subindex)
  {
    if index > 0xFF then [index / 256, index % 256, subindex]
    else if subindex != 0 then [index, subindex]
    else [index]
  }

  /** I-Service nibble of Table A.12. */
  function Service(read: bool, indexLen: nat): nat
  {
    if read then 8 + indexLen else indexLen
  }

  /** Stream length before an ExtLength octet is added. */
  function PlainTotal(r: Request): nat
  {
    1 + IndexLen(r.index, r.subindex) + |r.data| + CHKPDU_LEN
  }

  /** The length guard of a write, for a request buffer of `cap` octets. */
  predicate WriteAccepted(r: Request, cap: nat)
  {
    && |r.data| + WRITE_HEADER_MAX <= cap
    && (if PlainTotal(r) > 15 then PlainTotal(r) + 1 else PlainTotal(r)) <= EXT_MAX
    && PlainTotal(r) != 16
  }

  predicate Acceptable(r: Request, cap: nat)
  {
    if r.read then r.data == [] else WriteAccepted(r, cap)
  }

  function Header(r: Request): (h: seq<byte>)
    requires PlainTotal(r) <= 237
    ensures |h| == if PlainTotal(r) <= 15 then 1 else 2
  {
    var service := Service(r.read, IndexLen(r.index, r.subindex));
    if PlainTotal(r) <= 15 then [16 * service + PlainTotal(r)]
    else [16 * service + 1, PlainTotal(r) + 1]
  }

  function Body(r: Request): seq<byte>
    requires PlainTotal(r) <= 237
  {
    Header(r) + IndexOctets(r.index, r.subindex) + r.data
  }

  function Sealed(body: seq<byte>): (s: seq<byte>)
    ensures |s| == |body| + 1 && s[..|body|] == body
  {
    body + [XorAll(body)]
  }

  function Encode(r: Request): (s: seq<byte>)
    requires PlainTotal(r) <= 237
  {
    Sealed(Body(r))
  }

  // ---- reading streams back --------------------------------------------

  /** Length nibble 1 announces an ExtLength octet (A.5.3). */
  predicate Extended(s: seq<byte>)
    requires s != []
  {
    s[0] % 16 == 1
  }

  /** Length a stream declares for itself (A.5.3); None where the field is reserved or missing. */
  function DeclaredLength(s: seq<byte>): Option<nat>
  {
    if s == [] || s[0] % 16 == 0 then None
    else if !Extended(s) then Some(s[0] % 16)
    else if |s| < 2 || s[1] < EXT_MIN || s[1] > EXT_MAX then None
    else Some(s[1])
  }

  predicate IsPdu(s: seq<byte>)
  {
    DeclaredLength(s) == Some(|s|) && XorAll(s) == 0
  }

  function HeaderLen(s: seq<byte>): nat
    requires s != []
  {
    if Extended(s) then 2 else 1
  }

  function Word(high: byte, low: byte): (w: u16)
  {
    var h: int := high;
    256 * h + low
  }

  /** The reader a conformant device applies to a request stream. */
  function ParseRequest(s: seq<byte>): Option<Request>
  {
    if !IsPdu(s) then None
    else
      var h, service := HeaderLen(s), s[0] / 16;
      var n := if service >= 8 then service - 8 else service;
      if n < 1 || n > 3 || |s| < h + n + 1 then None
      else
        var data := s[h + n..|s| - 1];
        if service >= 8 && data != [] then None
        else if n == 1 then Some(Request(service >= 8, s[h], 0, data))
        else if n == 2 then Some(Request(service >= 8, s[h], s[h + 1], data))
        else Some(Request(service >= 8, Word(s[h], s[h + 1]), s[h + 2], data))
  }

  /** Streams in the shortest index format with the shortest length field. */
  predicate Canonical(s: seq<byte>)
    requires ParseRequest(s).Some?
  {
    var r := ParseRequest(s).value;
    && s[0] / 16 == Service(r.read, IndexLen(r.index, r.subindex))
    && (Extended(s) ==> PlainTotal(r) > 15)
  }

  // ---- round trips -----------------------------------------------------

  lemma SealedCancels(body: seq<byte>)
    ensures XorAll(Sealed(body)) == 0
  {
    XorAllAppend(body, XorAll(body));
  }

  /** An acceptable request leaves room for its ExtLength octet and never needs the reserved length 16. */
  lemma AcceptableFits(r: Request, cap: nat)
    requires 16 <= cap && Acceptable(r, cap)
    ensures PlainTotal(r) <= 237
    ensures |Encode(r)| <= cap
    ensures DeclaredLength(Encode(r)) == Some(|Encode(r)|)
  {
  }

  /** Where the fields of an encoded request lie. */
  lemma Layout(r: Request)
    requires PlainTotal(r) <= 237
    ensures var s, h, n := Encode(r), |Header(r)|, IndexLen(r.index, r.subindex);
            && |s| == h + n + |r.data| + 1
            && s[0] == Header(r)[0] && (h == 2 ==> s[1] == Header(r)[1])
            && s[h..h + n] == IndexOctets(r.index, r.subindex)
            && s[h] == IndexOctets(r.index, r.subindex)[0]
            && (n >= 2 ==> s[h + 1] == IndexOctets(r.index, r.subindex)[1])
            && (n >= 3 ==> s[h + 2] == IndexOctets(r.index, r.subindex)[2])
            && s[h + n..|s| - 1] == r.data
  {
  }

  lemma EncodedParses(r: Request)
    requires PlainTotal(r) <= 237 && (r.read ==> r.data == [])
    ensures IsPdu(Encode(r)) && ParseRequest(Encode(r)) == Some(r)
  {
    hide XorAll;
    Layout(r);
    SealedCancels(Body(r));
  }

  /** What the device reads is what the application asked for, and the stream checks out. */
  lemma RequestRoundTrip(r: Request, cap: nat)
    requires 16 <= cap && Acceptable(r, cap)
    ensures PlainTotal(r) <= 237
    ensures XorAll(Encode(r)) == 0
    ensures ParseRequest(Encode(r)) == Some(r)
    ensures Canonical(Encode(r))
  {
    Layout(r);
    EncodedParses(r);
  }

  /** The encoder is the only canonical stream for a request: the round trip in the other direction. */
  lemma CanonicalIsEncoded(s: seq<byte>)
    requires ParseRequest(s).Some? && Canonical(s)
    ensures PlainTotal(ParseRequest(s).value) <= 237
    ensures s == Encode(ParseRequest(s).value)
  {
    var r := ParseRequest(s).value;
    var h, n, m := HeaderLen(s), IndexLen(r.index, r.subindex), |s| - 1;
    assert |s| == h + n + |r.data| + 1;
    assert s[h..h + n] == IndexOctets(r.index, r.subindex);
    assert s[..h] == Header(r);
    assert s[..m] == s[..h] + s[h..h + n] + s[h + n..m];
    assert s == s[..m] + [s[m]];
    XorAllAppend(s[..m], s[m]);
  }

  /** Two acceptable requests never share a stream. */
  lemma EncodeInjective(a: Request, b: Request, cap: nat)
    requires 16 <= cap && Acceptable(a, cap) && Acceptable(b, cap)
    requires PlainTotal(a) <= 237 && PlainTotal(b) <= 237
    requires Encode(a) == Encode(b)
    ensures a == b
  {
    RequestRoundTrip(a, cap);
    RequestRoundTrip(b, cap);
  }

  /** Exactly the writes the length rules admit: the buffer guard and 2..15 or 17..237 plain octets. */
  lemma WriteAcceptedExactly(r: Request, cap: nat)
    requires !r.read && 16 <= cap <= 256
    ensures WriteAccepted(r, cap) <==>
            |r.data| <= cap - WRITE_HEADER_MAX
            && (2 <= PlainTotal(r) <= 15 || 17 <= PlainTotal(r) <= 237)
  {
  }

  /** Plain length 16 is refused although its ExtLength form would be the legal 17. */
  lemma SixteenIsRefusedButEncodable(r: Request, cap: nat)
    requires !r.read && PlainTotal(r) == 16
    ensures !WriteAccepted(r, cap)
    ensures IsPdu(Encode(r)) && ParseRequest(Encode(r)) == Some(r)
  {
    EncodedParses(r);
  }

  // ---- responses -------------------------------------------------------

  /** The positive read response a device builds for `data` (Table A.13). */
  function ReadResponse(data: seq<byte>): (s: seq<byte>)
    requires |data| <= 235
  {
    if |data| + 2 <= 15 then Sealed([0xD0 + |data| + 2] + data)
    else Sealed([0xD1, |data| + 3] + data)
  }

  const WRITE_RESPONSE: seq<byte> := [0x52, 0x52]

  function NegativeResponse(code: byte, additional: byte): seq<byte>
  {
    Sealed([0xC4, code, additional])
  }

  predicate Negative(s: seq<byte>)
    requires s != []
  {
    s[0] / 16 == 0x4 || s[0] / 16 == 0xC
  }

  /** The Data octets of a positive response. */
  function Payload(s: seq<byte>): seq<byte>
    requires s != [] && |s| >= HeaderLen(s) + CHKPDU_LEN
  {
    s[HeaderLen(s)..|s| - CHKPDU_LEN]
  }

  lemma ReadResponseRoundTrip(data: seq<byte>)
    requires |data| <= 235
    ensures var s := ReadResponse(data);
            IsPdu(s) && !Negative(s) && |s| >= HeaderLen(s) + CHKPDU_LEN && Payload(s) == data
  {
    var header := if |data| + 2 <= 15 then [0xD0 + |data| + 2] else [0xD1, |data| + 3];
    var s, h := ReadResponse(data), |header|;
    assert s == Sealed(header + data);
    SealedCancels(header + data);
    assert s[0] == header[0] && (h == 2 ==> s[1] == header[1]);
    assert s[h..|s| - 1] == data;
  }

  lemma WriteResponseIsEmpty()
    ensures IsPdu(WRITE_RESPONSE) && !Negative(WRITE_RESPONSE) && Payload(WRITE_RESPONSE) == []
  {
    XorAllPair(0x52, 0x52);
  }
}
