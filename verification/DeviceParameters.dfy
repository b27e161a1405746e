/** Direct Parameter page 1: decoding, capability selection and validation of a port
    configuration against the connected device (Annex B.1, Table A.10). */
module DeviceParameters {
  import opened Wrappers
  import opened Status
  import opened Octets
  import opened IsduCodec

  datatype MSequence = Type0 | Type1_1 | Type1_2 | Type1_V | Type2_1 | Type2_2 | Type2_V

  datatype Rate = COM1 | COM2 | COM3

  datatype PortMode = ModeIoLink | ModeDi | ModeDq | ModeDeactivated

  datatype Inspection = NoCheck | TypeComp | Identical

  datatype Config = Config(
    portMode: PortMode,
    mseq: MSequence,
    rate: Rate,
    minCycle: byte,
    pdInLen: byte,
    pdOutLen: byte,
    autoRate: bool,
    validate: bool,
    inspection: Inspection,
    vendor: u16,
    device: u32,
    responseTimeout: byte,
    tDmt: byte,
    tDwu: u32,
    wakeRetryLimit: byte,
    tSd: u32,
    wakeHook: bool)

  datatype DeviceInfo = DeviceInfo(
    valid: bool,
    minCycleOctet: byte,
    minCycle: u16,
    capability: byte,
    isdu: bool,
    operateCode: byte,
    preoperateCode: byte,
    revision: byte,
    pdInDescriptor: byte,
    pdOutDescriptor: byte,
    pdInLen: byte,
    pdOutLen: byte,
    vendor: u16,
    device: u32)

  const PAGE_LEN := 16
  const PD_MAX := 32

  // Results.
  const ERR_TOO_SHORT := -2
  const ERR_REVISION := -2
  const ERR_CYCLE_TIME := -3
  const ERR_PD_SIZE := -4
  const ERR_M_SEQUENCE := -5
  const ERR_VENDOR_ID := -6
  const ERR_DEVICE_ID := -7
  const ERR_PD_DESCRIPTOR := -8

  function NoDevice(): DeviceInfo
  {
    DeviceInfo(false, 0, 0, 0, false, 0, 0, 0, 0, 0, 0, 0, 0, 0)
  }

  // ---- octet decoders --------------------------------------------------

  /** MinCycleTime in ticks of 100 us (Table B.3); the reserved base keeps the raw octet. */
  function MinCycleTicks(octet: byte): (t: u16)
  {
    var n := octet % 64;
    match octet / 64
    case 0 => n
    case 1 => 64 + n * 4
    case 2 => 320 + n * 16
    case _ => octet
  }

  /** Whole octets of process data (Table B.6): n + 1 octets, or n bits rounded up. */
  function PdLength(descriptor: byte): (n: byte)
  {
    if descriptor >= 128 then descriptor % 32 + 1 else (descriptor % 32 + 7) / 8
  }

  predicate PdReserved(descriptor: byte)
  {
    if descriptor >= 128 then descriptor % 32 < 2 else descriptor % 32 >= 17
  }

  /** Every legal descriptor names at most 32 octets, and each length up to 32 has one. */
  lemma PdLengthIsLegal(descriptor: byte)
    requires !PdReserved(descriptor)
    ensures PdLength(descriptor) <= PD_MAX
    ensures descriptor < 128 ==> PdLength(descriptor) * 8 >= descriptor % 32 > (PdLength(descriptor) - 1) * 8
  {
  }

  /** Within the three defined bases the encoding is strictly increasing, so a decoded
      time determines its octet. */
  lemma MinCycleIsMonotonic(a: byte, b: byte)
    requires a < b < 192
    ensures MinCycleTicks(a) < MinCycleTicks(b) <= 1328
  {
  }

  // ---- page 1 ----------------------------------------------------------

  function Field(octet: byte, weight: nat, size: nat): (field: byte)
    requires 0 < weight && 0 < size <= 256
    ensures field < size
  {
    octet / weight % size
  }

  function Parse(page: seq<byte>, before: DeviceInfo): (r: (int, DeviceInfo))
  {
    if |page| < PAGE_LEN then (ERR_TOO_SHORT, before)
    else if PdReserved(page[5]) || PdReserved(page[6]) then (ERR_PD_DESCRIPTOR, before)
    else
      (OK, DeviceInfo(true, page[2], MinCycleTicks(page[2]), page[3], Odd(page[3]), Field(page[3], 2, 8),
                      Field(page[3], 16, 4), page[4], page[5], page[6], PdLength(page[5]), PdLength(page[6]),
                      Word(page[7], page[8]), (page[9] as int) * U16 + Word(page[10], page[11])))
  }

  // ---- selection -------------------------------------------------------

  /** The M-sequence type a capability code selects (Table A.10). */
  function TypeOf(info: DeviceInfo): Option<MSequence>
  {
    match info.operateCode
    case 0 =>
      Some(if info.pdInLen == 0 && info.pdOutLen == 0 then Type0 else if info.isdu then Type2_2 else Type2_1)
    case 1 => Some(if info.isdu then Type1_2 else Type1_1)
    case 4 => Some(Type2_V)
    case 5 => Some(Type2_V)
    case 6 => Some(Type2_V)
    case 7 => Some(Type2_V)
    case _ => None
  }

  predicate Compatible(mseq: MSequence, code: byte)
  {
    match mseq
    case Type1_1 => code == 0 || code == 1
    case Type1_2 => code == 0 || code == 1
    case Type0 => code == 0
    case Type2_1 => code == 0
    case Type2_2 => code == 0
    case Type1_V => code == 6 || code == 7
    case Type2_V => 4 <= code <= 7
  }

  function Select(info: DeviceInfo, config: Config): (r: (int, Config))
  {
    if !info.valid then (PENDING, config)
    else match TypeOf(info)
      case None => (ERR_M_SEQUENCE, config)
      case Some(mseq) =>
        (OK, config.(mseq := mseq, minCycle := if info.minCycle > 255 then 255 else info.minCycle,
                     pdInLen := info.pdInLen, pdOutLen := info.pdOutLen))
  }

  // ---- validation ------------------------------------------------------

  function Validate(info: DeviceInfo, config: Config): int
  {
    if !info.valid then PENDING
    else if info.revision != 0x10 && info.revision != 0x11 then ERR_REVISION
    else if config.minCycle < info.minCycle then ERR_CYCLE_TIME
    else if config.pdInLen != info.pdInLen || config.pdOutLen != info.pdOutLen then ERR_PD_SIZE
    else if !Compatible(config.mseq, info.operateCode) then ERR_M_SEQUENCE
    else if config.inspection != NoCheck && info.vendor != config.vendor then ERR_VENDOR_ID
    else if config.inspection != NoCheck && info.device != config.device then ERR_DEVICE_ID
    else OK
  }

  /** The argument check of port initialisation. */
  predicate Initialisable(config: Config)
  {
    && config.pdInLen <= PD_MAX && config.pdOutLen <= PD_MAX
    && (config.mseq == Type0 ==> config.pdInLen == 0 && config.pdOutLen == 0)
  }

  predicate IdentityPasses(info: DeviceInfo, config: Config)
  {
    config.inspection != NoCheck ==> info.vendor == config.vendor && info.device == config.device
  }

  /** A configuration selected from a page is accepted by initialisation, and validates against
      the same page exactly when revision, cycle time and identity allow. */
  lemma SelectionIsCoherent(page: seq<byte>, before: DeviceInfo, config: Config)
    requires Parse(page, before).0 == OK
    ensures var info := Parse(page, before).1;
            var (ret, selected) := Select(info, config);
            && (ret == OK <==> info.operateCode !in {2, 3})
            && (ret != OK ==> ret == ERR_M_SEQUENCE && selected == config)
            && (ret == OK ==> Initialisable(selected))
            && (ret == OK ==>
                  (Validate(info, selected) == OK <==>
                     page[4] in {0x10, 0x11} && MinCycleTicks(page[2]) <= 255 && IdentityPasses(info, config)))
  {
    PdLengthIsLegal(page[5]);
    PdLengthIsLegal(page[6]);
  }

  // ---- OD width --------------------------------------------------------

  /** OD octets a port carries for an M-sequence type. */
  function OdLen(mseq: MSequence): (n: nat)
    ensures 1 <= n <= 8
  {
    match mseq
    case Type1_2 => 2
    case Type1_V => 8
    case Type2_V => 2
    case _ => 1
  }

  /** The OPERATE code of a type and OD width (Table A.10). */
  function CapabilityCode(mseq: MSequence, odLen: nat): byte
  {
    match mseq
    case Type1_2 => 1
    case Type1_V => if odLen == 32 then 7 else 6
    case Type2_V => (match odLen case 1 => 4 case 2 => 5 case 8 => 6 case 32 => 7 case _ => 0)
    case _ => 0
  }

  /** Whatever type is configured, the code driven is one the type serves, and among the codes 4 to 7 of variable types
      it is the one of the OD octets the port carries (Table A.10). */
  lemma DrivenCodeHasItsWidth(mseq: MSequence)
    ensures Compatible(mseq, CapabilityCode(mseq, OdLen(mseq)))
    ensures mseq == Type1_V || mseq == Type2_V ==>
              var code := CapabilityCode(mseq, OdLen(mseq)); 4 <= code <= 7 && [1, 2, 8, 32][code - 4] == OdLen(mseq)
    ensures OdLen(Type1_V) == 8
  {
  }

  /** The port drives the very OPERATE code the device advertised for codes 0 and 5 and, with
      ISDU, 1. The other selectable codes pass validation with a different OD width or type. */
  lemma DrivenCodeIsAdvertisedExactly(page: seq<byte>, before: DeviceInfo, config: Config)
    requires Parse(page, before).0 == OK && Select(Parse(page, before).1, config).0 == OK
    ensures var info := Parse(page, before).1;
            var mseq := Select(info, config).1.mseq;
            && Compatible(mseq, info.operateCode)
            && (CapabilityCode(mseq, OdLen(mseq)) == info.operateCode <==>
                  info.operateCode == 0 || info.operateCode == 5 || (info.operateCode == 1 && info.isdu))
  {
  }
}
