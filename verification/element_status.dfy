/** print_over_elem_status: the decoding of one 4-byte element status
    record, common prefix plus the fields of its element type.  Printing is
    replaced by a structured value; every group of flags the source prints
    on one line (and suppresses together under --filter) is one group here. */
module ElementStatus {

  import opened Bytes
  import opened Catalog

  /** A named one-bit flag at a byte of the record. */
  datatype FlagSpec = FlagSpec(name: string, ix: ByteIx, mask: Byte)

  /** One printed line of flags.  Under --filter it is shown only when the
      record has a set bit under `guard`: the source's test
      `(statp[i] & m) || (statp[j] & n) ...` is a non-zero AND with the
      4-byte mask holding `m` at byte i and `n` at byte j. */
  datatype GroupSpec = GroupSpec(guard: Rec4, flags: seq<FlagSpec>)

  /** A decoded flag. */
  datatype Flag = Flag(name: string, on: bool)

  datatype InvopReason =
    | PageNotSupported(notSupported: Byte)          // invop type 0
    | ByteOffset(offset: nat, bitNumber: Byte)      // invop type 1
    | LastBytes(c1: Byte, c2: Byte, c3: Byte)       // invop types 2 and 3

  datatype BatteryStatus =
    | DischargedOrUnknown        // byte 1 is 0
    | AtLeast255Minutes          // byte 1 is 255
    | MinutesRemaining(n: Byte)

  /** The fields of an element type that are not plain flag groups; all of
      them are printed whatever the filter says. */
  datatype Detail =
    | NoDetail
    | RawStatus(raw: Rec4)                                   // type 0: status in hex
    | SlotAddress(slot: Byte)                                // type 1
    | FanSpeed(rpm: nat, speedCode: Byte, speedDesc: string) // type 3
    | Temperature(celsius: Option<int>)                      // type 4; None is "<reserved>"
    | NvCache(ident: bool, multiplier: Byte, size: nat, unit: string)   // type 9
    | InvalidOperation(invopType: Byte, typeDesc: string, reason: InvopReason) // type 0xa
    | Battery(battery: BatteryStatus)                        // type 0xb
    | Language(ident: bool, code: seq<Byte>)                 // type 0x10
    | Voltage(hundredthsVolt: int)                           // type 0x12
    | Current(hundredthsAmp: int)                            // type 0x13
    | SimpleSubenclosure(ident: bool, shortStatus: Byte)     // type 0x16
    | UnknownType(raw: Rec4)                                 // any type above 0x17

  /** A decoded element status record. */
  datatype ElemStatus = ElemStatus(
    predictedFailure: bool,
    swap: bool,
    statusCode: Byte,
    statusDesc: string,
    groups: seq<Option<seq<Flag>>>,
    detail: Detail)

  function G(guard: Rec4, flags: seq<FlagSpec>): GroupSpec {
    GroupSpec(guard, flags)
  }

  function F(name: string, ix: ByteIx, mask: Byte): FlagSpec {
    FlagSpec(name, ix, mask)
  }

  /** Device element. */
  const DeviceLines: seq<GroupSpec> := [
    G(Rec4(0, 0, 0xe0, 0), [F("App client bypassed A", 2, 0x80), F("Do not remove", 2, 0x40), F("Enc bypassed A", 2, 0x20)]),
    G(Rec4(0, 0, 0x1c, 0), [F("Enc bypassed B", 2, 0x10), F("Ready to insert", 2, 0x08), F("RMV", 2, 0x04), F("Ident", 2, 0x02)]),
    G(Rec4(0, 0, 0x01, 0xe0), [F("Report", 2, 0x01), F("App client bypassed B", 3, 0x80), F("Fault sensed", 3, 0x40), F("Fault requested", 3, 0x20)]),
    G(Rec4(0, 0, 0, 0x1e), [F("Device off", 3, 0x10), F("Bypassed A", 3, 0x08), F("Bypassed B", 3, 0x04), F("Device bypassed A", 3, 0x02)]),
    G(Rec4(0, 0, 0, 0x01), [F("Device bypassed B", 3, 0x01)])]

  /** Power supply element. */
  const PowerSupplyLines: seq<GroupSpec> := [
    G(Rec4(0, 0x80, 0x0e, 0), [F("Ident", 1, 0x80), F("DC overvoltage", 2, 0x08), F("DC undervoltage", 2, 0x04), F("DC overcurrent", 2, 0x02)]),
    G(Rec4(0, 0, 0, 0x78), [F("Fail", 3, 0x40), F("Requested on", 3, 0x20), F("Off", 3, 0x10), F("Overtemperature fail", 3, 0x08)]),
    G(Rec4(0, 0, 0, 0x07), [F("Temperature warn", 3, 0x04), F("AC fail", 3, 0x02), F("DC fail", 3, 0x01)])]

  /** Cooling element. */
  const CoolingLines: seq<GroupSpec> := [
    G(Rec4(0, 0x80, 0, 0x70), [F("Ident", 1, 0x80), F("Fail", 3, 0x40), F("Requested on", 3, 0x20), F("Off", 3, 0x10)])]

  /** Temperature sensor element. */
  const TemperatureLines: seq<GroupSpec> := [
    G(Rec4(0, 0x80, 0, 0x0f), [F("Ident", 1, 0x80), F("OT Failure", 3, 0x08), F("OT warning", 3, 0x04), F("UT failure", 3, 0x02), F("UT warning", 3, 0x01)])]

  /** Door lock element. */
  const DoorLockLines: seq<GroupSpec> := [
    G(Rec4(0, 0x80, 0, 0x01), [F("Ident", 1, 0x80), F("Unlock", 3, 0x01)])]

  /** Audible alarm element. */
  const AlarmLines: seq<GroupSpec> := [
    G(Rec4(0, 0x80, 0, 0xd0), [F("Ident", 1, 0x80), F("Request mute", 3, 0x80), F("Mute", 3, 0x40), F("Remind", 3, 0x10)]),
    G(Rec4(0, 0, 0, 0x0f), [F("Tone indicator: Info", 3, 0x08), F("Non-crit", 3, 0x04), F("Crit", 3, 0x02), F("Unrecov", 3, 0x01)])]

  /** Enclosure services controller electronics element. */
  const EscElectronicsLines: seq<GroupSpec> := [
    G(Rec4(0, 0x80, 0x01, 0), [F("Ident", 1, 0x80), F("Report", 2, 0x01)])]

  /** SCC controller electronics element. */
  const SccElectronicsLines: seq<GroupSpec> := [
    G(Rec4(0, 0x80, 0x01, 0), [F("Ident", 1, 0x80), F("Report", 2, 0x01)])]

  /** Uninterruptible power supply element. */
  const UpsLines: seq<GroupSpec> := [
    G(Rec4(0, 0, 0xf8, 0), [F("AC low", 2, 0x80), F("AC high", 2, 0x40), F("AC qual", 2, 0x20), F("AC fail", 2, 0x10), F("DC fail", 2, 0x08)]),
    G(Rec4(0, 0, 0x07, 0x83), [F("UPS fail", 2, 0x04), F("Warn", 2, 0x02), F("Intf fail", 2, 0x01), F("Ident", 3, 0x80), F("Batt fail", 3, 0x02), F("BPF", 3, 0x01)])]

  /** Display element. */
  const DisplayLines: seq<GroupSpec> := [
    G(Rec4(0, 0x80, 0, 0), [F("Ident", 1, 0x80)])]

  /** Key pad entry element. */
  const KeyPadLines: seq<GroupSpec> := [
    G(Rec4(0, 0x80, 0, 0), [F("Ident", 1, 0x80)])]

  /** Enclosure element. */
  const EnclosureLines: seq<GroupSpec> := [
    G(Rec4(0, 0x80, 0x03, 0), [F("Ident", 1, 0x80), F("Failure indication", 2, 0x02), F("Warning indication", 2, 0x01)]),
    G(Rec4(0, 0, 0, 0x03), [F("Failure requested", 3, 0x02), F("Warning requested", 3, 0x01)])]

  /** SCSI port/transceiver element. */
  const ScsiPortLines: seq<GroupSpec> := [
    G(Rec4(0, 0x80, 0x01, 0x13), [F("Ident", 1, 0x80), F("Report", 2, 0x01), F("disabled", 3, 0x10), F("loss of link", 3, 0x02), F("Xmit fail", 3, 0x01)])]

  /** Communication port element. */
  const CommPortLines: seq<GroupSpec> := [
    G(Rec4(0, 0x80, 0, 0x01), [F("Ident", 1, 0x80), F("Disabled", 3, 0x01)])]

  /** Voltage sensor element. */
  const VoltageLines: seq<GroupSpec> := [
    G(Rec4(0, 0x8f, 0, 0), [F("Ident", 1, 0x80), F("Warn Over", 1, 0x08), F("Warn Under", 1, 0x04), F("Crit Over", 1, 0x02), F("Crit Under", 1, 0x01)])]

  /** Current sensor element. */
  const CurrentLines: seq<GroupSpec> := [
    G(Rec4(0, 0x8a, 0, 0), [F("Ident", 1, 0x80), F("Warn Over", 1, 0x08), F("Crit Over", 1, 0x02)])]

  /** SCSI target port element. */
  const TargetPortLines: seq<GroupSpec> := [
    G(Rec4(0, 0x80, 0x01, 0x01), [F("Ident", 1, 0x80), F("Report", 2, 0x01), F("Enabled", 3, 0x01)])]

  /** SCSI initiator port element. */
  const InitiatorPortLines: seq<GroupSpec> := [
    G(Rec4(0, 0x80, 0x01, 0x01), [F("Ident", 1, 0x80), F("Report", 2, 0x01), F("Enabled", 3, 0x01)])]

  /** Array device element. */
  const ArrayDeviceLines: seq<GroupSpec> := [
    G(Rec4(0, 0xf0, 0, 0), [F("OK", 1, 0x80), F("Reserved device", 1, 0x40), F("Hot spare", 1, 0x20), F("Cons check", 1, 0x10)]),
    G(Rec4(0, 0x0f, 0, 0), [F("In crit array", 1, 0x08), F("In failed array", 1, 0x04), F("Rebuild/remap", 1, 0x02), F("R/R abort", 1, 0x01)]),
    G(Rec4(0, 0, 0xf0, 0), [F("App client bypass A", 2, 0x80), F("Don't remove", 2, 0x40), F("Enc bypass A", 2, 0x20), F("Enc bypass B", 2, 0x10)]),
    G(Rec4(0, 0, 0x0f, 0), [F("Ready to insert", 2, 0x08), F("RMV", 2, 0x04), F("Ident", 2, 0x02), F("Report", 2, 0x01)]),
    G(Rec4(0, 0, 0, 0xf0), [F("App client bypass B", 3, 0x80), F("Fault sensed", 3, 0x40), F("Fault reqstd", 3, 0x20), F("Device off", 3, 0x10)]),
    G(Rec4(0, 0, 0, 0x0f), [F("Bypassed A", 3, 0x08), F("Bypassed B", 3, 0x04), F("Dev bypassed A", 3, 0x02), F("Dev bypassed B", 3, 0x01)])]

  /** The flag lines of each element type, in the order they are printed. */
  function FlagGroups(etype: Byte): seq<GroupSpec> {
    match etype as nat
    case 0x1 => DeviceLines
    case 0x2 => PowerSupplyLines
    case 0x3 => CoolingLines
    case 0x4 => TemperatureLines
    case 0x5 => DoorLockLines
    case 0x6 => AlarmLines
    case 0x7 => EscElectronicsLines
    case 0x8 => SccElectronicsLines
    case 0xb => UpsLines
    case 0xc => DisplayLines
    case 0xd => KeyPadLines
    case 0xe => EnclosureLines
    case 0xf => ScsiPortLines
    case 0x11 => CommPortLines
    case 0x12 => VoltageLines
    case 0x13 => CurrentLines
    case 0x14 => TargetPortLines
    case 0x15 => InitiatorPortLines
    case 0x17 => ArrayDeviceLines
    case _ => []
  }

  /** The record has a set bit under the guard. */
  predicate AnyHit(guard: Rec4, rec: Rec4) {
    And4(rec, guard) != Zero4
  }

  function FlagValues(fs: seq<FlagSpec>, rec: Rec4): (vs: seq<Flag>)
    ensures |vs| == |fs|
    ensures forall i :: 0 <= i < |fs| ==> vs[i] == Flag(fs[i].name, Bit(rec.Get(fs[i].ix), fs[i].mask))
  {
    seq(|fs|, i requires 0 <= i < |fs| => Flag(fs[i].name, Bit(rec.Get(fs[i].ix), fs[i].mask)))
  }

  /** The filter rule: a line of flags is printed iff filtering is off or
      one of the bits its guard tests is set. */
  function ShowGroup(g: GroupSpec, rec: Rec4, filter: bool): (r: Option<seq<Flag>>)
    ensures r.Some? <==> !filter || AnyHit(g.guard, rec)
    ensures r.Some? ==> r.value == FlagValues(g.flags, rec)
  {
    if !filter || AnyHit(g.guard, rec) then Some(FlagValues(g.flags, rec)) else None
  }

  function ShowGroups(gs: seq<GroupSpec>, rec: Rec4, filter: bool): (r: seq<Option<seq<Flag>>>)
    ensures |r| == |gs|
    ensures forall i :: 0 <= i < |gs| ==> r[i] == ShowGroup(gs[i], rec, filter)
  {
    seq(|gs|, i requires 0 <= i < |gs| => ShowGroup(gs[i], rec, filter))
  }

  /** `(int)(short)` of a 16-bit value: two's complement. */
  function Signed16(v: nat): (r: int)
    requires v < 0x1_0000
    ensures -0x8000 <= r < 0x8000
    ensures (if r < 0 then r + 0x1_0000 else r) == v
  {
    if v >= 0x8000 then v - 0x1_0000 else v
  }

  /** The two characters printed by `%.2s`: printing stops at a zero byte. */
  function LanguageCode(c1: Byte, c2: Byte): (r: seq<Byte>)
    ensures |r| <= 2 && 0 !in r
  {
    if c1 == 0 then [] else if c2 == 0 then [c1] else [c1, c2]
  }

  function InvopDetail(statp: Rec4): Detail {
    var res := (statp.b1 >> 6) & 3;
    InvalidOperation(res, InvopTypeDesc[res as nat],
      if res == 0 then PageNotSupported(statp.b1 & 1)
      else if res == 1 then ByteOffset(BE16(statp.b2, statp.b3), statp.b1 & 7)
      else LastBytes(statp.b1, statp.b2, statp.b3))
  }

  function BatteryOf(b: Byte): BatteryStatus {
    if b == 0 then DischargedOrUnknown
    else if b == 255 then AtLeast255Minutes
    else MinutesRemaining(b)
  }

  /** The non-flag fields of each element type. */
  function FanSpeedOf(statp: Rec4): Detail {
    var code := statp.b3 & 7;
    FanSpeed(BE16(statp.b1 & 3, statp.b2) * 10, code, ActualSpeedDesc[code as nat])
  }

  function TemperatureOf(statp: Rec4): Detail {
    Temperature(if statp.b2 != 0 then Some(statp.b2 as int - 20) else None)
  }

  function NvCacheOf(statp: Rec4): Detail {
    var mult := statp.b1 & 3;
    NvCache(Bit(statp.b1, 0x80), mult, BE16(statp.b2, statp.b3), NvCacheUnit[mult as nat])
  }

  /** The non-flag fields of each element type. */
  function DetailOf(statp: Rec4, etype: Byte): Detail {
    match etype as nat
    case 0x0 => RawStatus(statp)
    case 0x1 => SlotAddress(statp.b1)
    case 0x3 => FanSpeedOf(statp)
    case 0x4 => TemperatureOf(statp)
    case 0x9 => NvCacheOf(statp)
    case 0xa => InvopDetail(statp)
    case 0xb => Battery(BatteryOf(statp.b1))
    case 0x10 => Language(Bit(statp.b1, 0x80), LanguageCode(statp.b2, statp.b3))
    case 0x12 => Voltage(Signed16(BE16(statp.b2, statp.b3)))
    case 0x13 => Current(Signed16(BE16(statp.b2, statp.b3)))
    case 0x16 => SimpleSubenclosure(Bit(statp.b1, 0x80), statp.b3)
    case _ => if etype as nat > 0x17 then UnknownType(statp) else NoDetail
  }

  /** print_over_elem_status: the common status prefix, the flag lines of
      the element type (subject to the filter) and its other fields. */
  function OverElemStatus(statp: Rec4, etype: Byte, filter: bool): (r: ElemStatus)
    ensures r.statusCode == statp.b0 & 0xf && (r.statusCode as nat) < |StatusDesc|
    ensures r.statusDesc == StatusDesc[r.statusCode as nat]
    ensures r.predictedFailure == Bit(statp.b0, 0x40) && r.swap == Bit(statp.b0, 0x10)
    ensures |r.groups| == |FlagGroups(etype)|
    ensures forall i :: 0 <= i < |r.groups| ==>
      (r.groups[i].Some? <==> !filter || AnyHit(FlagGroups(etype)[i].guard, statp))
    ensures forall i :: 0 <= i < |r.groups| && r.groups[i].Some? ==>
      r.groups[i].value == FlagValues(FlagGroups(etype)[i].flags, statp)
  {
    var code := statp.b0 & 0xf;
    ElemStatus(Bit(statp.b0, 0x40), Bit(statp.b0, 0x10), code, StatusDesc[code as nat],
      ShowGroups(FlagGroups(etype), statp, filter), DetailOf(statp, etype))
  }

  // ---------------------------------------------------------------------
  // Encoding back: which bits of the record each decoded field accounts for

  /** The bits of a record that the decoded value reports. */
  predicate SingleBit(m: Byte) {
    m == 0x01 || m == 0x02 || m == 0x04 || m == 0x08 ||
    m == 0x10 || m == 0x20 || m == 0x40 || m == 0x80
  }

  /** Every flag of every element type names exactly one bit. */
  predicate FlagsAreBits(fs: seq<FlagSpec>) {
    forall j :: 0 <= j < |fs| ==> SingleBit(fs[j].mask)
  }

  function FlagMask(fs: seq<FlagSpec>): Rec4 {
    if fs == [] then Zero4 else Or4(Single(fs[0].ix, fs[0].mask), FlagMask(fs[1..]))
  }

  function GroupsMask(gs: seq<GroupSpec>): Rec4 {
    if gs == [] then Zero4 else Or4(FlagMask(gs[0].flags), GroupsMask(gs[1..]))
  }

  /** The record bits set by a sequence of decoded flags. */
  function EncodeFlags(fs: seq<FlagSpec>, vs: seq<Flag>): Rec4
    requires |vs| == |fs|
  {
    if fs == [] then Zero4
    else Or4(if vs[0].on then Single(fs[0].ix, fs[0].mask) else Zero4, EncodeFlags(fs[1..], vs[1..]))
  }

  function EncodeGroups(gs: seq<GroupSpec>, shown: seq<Option<seq<Flag>>>): Rec4
    requires |shown| == |gs|
  {
    if gs == [] then Zero4
    else Or4(if shown[0].Some? && |shown[0].value| == |gs[0].flags| then EncodeFlags(gs[0].flags, shown[0].value) else Zero4,
             EncodeGroups(gs[1..], shown[1..]))
  }

  const CommonOwned: Rec4 := Rec4(0x5f, 0, 0, 0)

  function EncodeCommon(s: ElemStatus): Rec4 {
    Rec4((if s.predictedFailure then 0x40 else 0) | (if s.swap then 0x10 else 0) | (s.statusCode & 0xf), 0, 0, 0)
  }

  function HighByte(v: int): Byte {
    LowByte(v / 256)
  }

  function IdentBit(ident: bool): Byte {
    if ident then 0x80 else 0
  }

  lemma IdentBitMask(b: Byte)
    ensures IdentBit(Bit(b, 0x80)) == b & 0x80
  {
  }

  function Unsigned16(v: int): int {
    if v < 0 then v + 0x1_0000 else v
  }

  function EncodeDetail(d: Detail): Rec4 {
    match d
    case NoDetail => Zero4
    case RawStatus(raw) => raw
    case SlotAddress(slot) => Rec4(0, slot, 0, 0)
    case FanSpeed(rpm, code, _) => Rec4(0, HighByte(rpm / 10) & 3, LowByte(rpm / 10), code & 7)
    case Temperature(t) => Rec4(0, 0, if t.Some? then LowByte(t.value + 20) else 0, 0)
    case NvCache(ident, mult, size, _) => Rec4(0, IdentBit(ident) | (mult & 3), HighByte(size), LowByte(size))
    case InvalidOperation(t, _, reason) =>
      (match reason
       case PageNotSupported(n) => Rec4(0, ((t & 3) << 6) | (n & 1), 0, 0)
       case ByteOffset(off, bit) => Rec4(0, ((t & 3) << 6) | (bit & 7), HighByte(off), LowByte(off))
       case LastBytes(c1, c2, c3) => Rec4(0, c1, c2, c3))
    case Battery(b) =>
      Rec4(0, match b case DischargedOrUnknown => 0 case AtLeast255Minutes => 255 case MinutesRemaining(n) => n, 0, 0)
    case Language(ident, code) =>
      Rec4(0, IdentBit(ident), if |code| > 0 then code[0] else 0, if |code| > 1 then code[1] else 0)
    case Voltage(v) => Rec4(0, 0, HighByte(Unsigned16(v)), LowByte(Unsigned16(v)))
    case Current(v) => Rec4(0, 0, HighByte(Unsigned16(v)), LowByte(Unsigned16(v)))
    case SimpleSubenclosure(ident, st) => Rec4(0, IdentBit(ident), 0, st)
    case UnknownType(raw) => raw
  }

  /** The record bits a decoded detail determines. */
  function DetailOwned(d: Detail): Rec4 {
    match d
    case NoDetail => Zero4
    case RawStatus(_) => Rec4(0xff, 0xff, 0xff, 0xff)
    case SlotAddress(_) => Rec4(0, 0xff, 0, 0)
    case FanSpeed(_, _, _) => Rec4(0, 0x03, 0xff, 0x07)
    case Temperature(_) => Rec4(0, 0, 0xff, 0)
    case NvCache(_, _, _, _) => Rec4(0, 0x83, 0xff, 0xff)
    case InvalidOperation(_, _, reason) =>
      (match reason
       case PageNotSupported(_) => Rec4(0, 0xc1, 0, 0)
       case ByteOffset(_, _) => Rec4(0, 0xc7, 0xff, 0xff)
       case LastBytes(_, _, _) => Rec4(0, 0xff, 0xff, 0xff))
    case Battery(_) => Rec4(0, 0xff, 0, 0)
    case Language(_, code) => Rec4(0, 0x80, 0xff, if |code| > 0 then 0xff else 0)
    case Voltage(_) => Rec4(0, 0, 0xff, 0xff)
    case Current(_) => Rec4(0, 0, 0xff, 0xff)
    case SimpleSubenclosure(_, _) => Rec4(0, 0x80, 0, 0xff)
    case UnknownType(_) => Rec4(0xff, 0xff, 0xff, 0xff)
  }

  /** The bits of a record of this element type that decoding reports. */
  function Owned(etype: Byte, d: Detail): Rec4 {
    Or4(Or4(CommonOwned, GroupsMask(FlagGroups(etype))), DetailOwned(d))
  }

  function Encode(s: ElemStatus, etype: Byte): Rec4
    requires |s.groups| == |FlagGroups(etype)|
  {
    Or4(Or4(EncodeCommon(s), EncodeGroups(FlagGroups(etype), s.groups)), EncodeDetail(s.detail))
  }

  lemma FlagBit(rec: Rec4, ix: ByteIx, m: Byte)
    requires SingleBit(m)
    ensures (if Bit(rec.Get(ix), m) then Single(ix, m) else Zero4) == And4(rec, Single(ix, m))
  {
    FlagSingle(rec.Get(ix), ix, m);
    AndSingle(rec, ix, m);
  }

  lemma FlagSingle(b: Byte, ix: ByteIx, m: Byte)
    requires SingleBit(m)
    ensures (if Bit(b, m) then Single(ix, m) else Zero4) == Single(ix, b & m)
  {
    ByteBit(b, m);
    if !Bit(b, m) {
      assert Single(ix, 0) == Zero4;
    }
  }

  /** A one-bit mask: the byte under it is either the mask or zero. */
  lemma ByteBit(b: Byte, m: Byte)
    requires SingleBit(m)
    ensures (if Bit(b, m) then m else 0) == b & m
  {
  }

  /** Decoding a line of one-bit flags and encoding it again gives back
      exactly the record's bits under the line's mask. */
  lemma {:induction false} EncodeFlagValues(fs: seq<FlagSpec>, rec: Rec4)
    requires FlagsAreBits(fs)
    ensures EncodeFlags(fs, FlagValues(fs, rec)) == And4(rec, FlagMask(fs))
  {
    if fs != [] {
      assert FlagValues(fs, rec)[1..] == FlagValues(fs[1..], rec);
      EncodeFlagValues(fs[1..], rec);
      FlagBit(rec, fs[0].ix, fs[0].mask);
      OrOfMasks(rec, Single(fs[0].ix, fs[0].mask), FlagMask(fs[1..]));
    }
  }

  lemma {:induction false} EncodeShownGroups(gs: seq<GroupSpec>, rec: Rec4)
    requires forall i :: 0 <= i < |gs| ==> FlagsAreBits(gs[i].flags)
    ensures EncodeGroups(gs, ShowGroups(gs, rec, false)) == And4(rec, GroupsMask(gs))
  {
    if gs != [] {
      assert ShowGroups(gs, rec, false)[1..] == ShowGroups(gs[1..], rec, false);
      EncodeShownGroups(gs[1..], rec);
      EncodeFlagValues(gs[0].flags, rec);
      OrOfMasks(rec, FlagMask(gs[0].flags), GroupsMask(gs[1..]));
    }
  }

  predicate LinesAreBits(gs: seq<GroupSpec>) {
    forall i :: 0 <= i < |gs| ==> FlagsAreBits(gs[i].flags)
  }

  lemma DeviceLinesAreBits()
    ensures LinesAreBits(DeviceLines)
  {
  }

  lemma PowerSupplyLinesAreBits()
    ensures LinesAreBits(PowerSupplyLines)
  {
  }

  lemma CoolingLinesAreBits()
    ensures LinesAreBits(CoolingLines)
  {
  }

  lemma TemperatureLinesAreBits()
    ensures LinesAreBits(TemperatureLines)
  {
  }

  lemma DoorLockLinesAreBits()
    ensures LinesAreBits(DoorLockLines)
  {
  }

  lemma AlarmLinesAreBits()
    ensures LinesAreBits(AlarmLines)
  {
  }

  lemma EscElectronicsLinesAreBits()
    ensures LinesAreBits(EscElectronicsLines)
  {
  }

  lemma SccElectronicsLinesAreBits()
    ensures LinesAreBits(SccElectronicsLines)
  {
  }

  lemma UpsLinesAreBits()
    ensures LinesAreBits(UpsLines)
  {
  }

  lemma DisplayLinesAreBits()
    ensures LinesAreBits(DisplayLines)
  {
  }

  lemma KeyPadLinesAreBits()
    ensures LinesAreBits(KeyPadLines)
  {
  }

  lemma EnclosureLinesAreBits()
    ensures LinesAreBits(EnclosureLines)
  {
  }

  lemma ScsiPortLinesAreBits()
    ensures LinesAreBits(ScsiPortLines)
  {
  }

  lemma CommPortLinesAreBits()
    ensures LinesAreBits(CommPortLines)
  {
  }

  lemma VoltageLinesAreBits()
    ensures LinesAreBits(VoltageLines)
  {
  }

  lemma CurrentLinesAreBits()
    ensures LinesAreBits(CurrentLines)
  {
  }

  lemma TargetPortLinesAreBits()
    ensures LinesAreBits(TargetPortLines)
  {
  }

  lemma InitiatorPortLinesAreBits()
    ensures LinesAreBits(InitiatorPortLines)
  {
  }

  lemma ArrayDeviceLinesAreBits()
    ensures LinesAreBits(ArrayDeviceLines)
  {
  }

  /** Every flag the decoder reports is a single bit. */
  lemma TableFlagsAreBits(etype: Byte)
    ensures LinesAreBits(FlagGroups(etype))
  {
    match etype as nat
    case 0x1 => DeviceLinesAreBits();
    case 0x2 => PowerSupplyLinesAreBits();
    case 0x3 => CoolingLinesAreBits();
    case 0x4 => TemperatureLinesAreBits();
    case 0x5 => DoorLockLinesAreBits();
    case 0x6 => AlarmLinesAreBits();
    case 0x7 => EscElectronicsLinesAreBits();
    case 0x8 => SccElectronicsLinesAreBits();
    case 0xb => UpsLinesAreBits();
    case 0xc => DisplayLinesAreBits();
    case 0xd => KeyPadLinesAreBits();
    case 0xe => EnclosureLinesAreBits();
    case 0xf => ScsiPortLinesAreBits();
    case 0x11 => CommPortLinesAreBits();
    case 0x12 => VoltageLinesAreBits();
    case 0x13 => CurrentLinesAreBits();
    case 0x14 => TargetPortLinesAreBits();
    case 0x15 => InitiatorPortLinesAreBits();
    case 0x17 => ArrayDeviceLinesAreBits();
    case _ =>
  }

  lemma CommonRoundTrip(rec: Rec4, etype: Byte, filter: bool)
    ensures EncodeCommon(OverElemStatus(rec, etype, filter)) == And4(rec, CommonOwned)
  {
  }

  lemma SplitBack(hi: Byte, lo: Byte)
    ensures HighByte(BE16(hi, lo)) == hi && LowByte(BE16(hi, lo)) == lo
  {
    ByteBack(hi);
    ByteBack(lo);
  }

  lemma FanSpeedRoundTrip(rec: Rec4)
    ensures EncodeDetail(FanSpeedOf(rec)) == And4(rec, DetailOwned(FanSpeedOf(rec)))
  {
    var v := BE16(rec.b1 & 3, rec.b2);
    assert (v * 10) / 10 == v;
    SplitBack(rec.b1 & 3, rec.b2);
  }

  lemma TemperatureRoundTrip(rec: Rec4)
    ensures EncodeDetail(TemperatureOf(rec)) == And4(rec, DetailOwned(TemperatureOf(rec)))
  {
    ByteBack(rec.b2);
  }

  lemma NvCacheRoundTrip(rec: Rec4)
    ensures EncodeDetail(NvCacheOf(rec)) == And4(rec, DetailOwned(NvCacheOf(rec)))
  {
    SplitBack(rec.b2, rec.b3);
  }

  lemma InvopTypeBits(b: Byte)
    ensures ((b >> 6) & 3) << 6 == b & 0xc0
  {
  }

  lemma InvopPageCodeRoundTrip(rec: Rec4)
    requires (rec.b1 >> 6) & 3 == 0
    ensures EncodeDetail(InvopDetail(rec)) == And4(rec, DetailOwned(InvopDetail(rec)))
  {
    InvopTypeBits(rec.b1);
    assert InvopDetail(rec).reason == PageNotSupported(rec.b1 & 1);
    assert EncodeDetail(InvopDetail(rec)) == Rec4(0, 0 | (rec.b1 & 1), 0, 0);
  }

  lemma InvopFormatRoundTrip(rec: Rec4)
    requires (rec.b1 >> 6) & 3 == 1
    ensures EncodeDetail(InvopDetail(rec)) == And4(rec, DetailOwned(InvopDetail(rec)))
  {
    InvopTypeBits(rec.b1);
    SplitBack(rec.b2, rec.b3);
    assert InvopDetail(rec).reason == ByteOffset(BE16(rec.b2, rec.b3), rec.b1 & 7);
  }

  lemma InvopOtherRoundTrip(rec: Rec4)
    requires (rec.b1 >> 6) & 3 >= 2
    ensures EncodeDetail(InvopDetail(rec)) == And4(rec, DetailOwned(InvopDetail(rec)))
  {
    InvopOtherReason(rec);
    LastBytesMask(rec);
  }

  lemma InvopOtherReason(rec: Rec4)
    requires (rec.b1 >> 6) & 3 >= 2
    ensures InvopDetail(rec).reason == LastBytes(rec.b1, rec.b2, rec.b3)
  {
  }

  lemma LastBytesMask(rec: Rec4)
    ensures And4(rec, Rec4(0, 0xff, 0xff, 0xff)) == Rec4(0, rec.b1, rec.b2, rec.b3)
  {
  }

  lemma InvopRoundTrip(rec: Rec4)
    ensures EncodeDetail(InvopDetail(rec)) == And4(rec, DetailOwned(InvopDetail(rec)))
  {
    var t := (rec.b1 >> 6) & 3;
    if t == 0 {
      InvopPageCodeRoundTrip(rec);
    } else if t == 1 {
      InvopFormatRoundTrip(rec);
    } else {
      InvopOtherRoundTrip(rec);
    }
  }

  lemma SensorRoundTrip(rec: Rec4)
    ensures EncodeDetail(Voltage(Signed16(BE16(rec.b2, rec.b3)))) == And4(rec, Rec4(0, 0, 0xff, 0xff))
    ensures EncodeDetail(Current(Signed16(BE16(rec.b2, rec.b3)))) == And4(rec, Rec4(0, 0, 0xff, 0xff))
  {
    var v := BE16(rec.b2, rec.b3);
    assert Unsigned16(Signed16(v)) == v;
    SplitBack(rec.b2, rec.b3);
  }

  /** The printed language code gives back its bytes, the second only
      when the first is printed. */
  lemma LanguageCodeBack(c1: Byte, c2: Byte)
    ensures var code := LanguageCode(c1, c2);
      (|code| > 0 <==> c1 != 0) &&
      (if |code| > 0 then code[0] else 0) == c1 &&
      (if |code| > 1 then code[1] else 0) == (if c1 == 0 then 0 else c2)
  {
  }

  lemma LanguageRoundTrip(rec: Rec4)
    ensures var d := Language(Bit(rec.b1, 0x80), LanguageCode(rec.b2, rec.b3));
      EncodeDetail(d) == And4(rec, DetailOwned(d))
  {
    var ident := Bit(rec.b1, 0x80);
    var d := Language(ident, LanguageCode(rec.b2, rec.b3));
    IdentBitMask(rec.b1);
    AndFullOrEmpty(rec);
    LanguageCodeBack(rec.b2, rec.b3);
    var third: Byte := if rec.b2 == 0 then 0 else rec.b3;
    assert EncodeDetail(d) == Rec4(0, IdentBit(ident), rec.b2, third);
    assert DetailOwned(d) == Rec4(0, 0x80, 0xff, if rec.b2 == 0 then 0 else 0xff);
  }

  /** Every non-flag field encodes back to the record bits it was read from. */
  lemma DetailRoundTrip(rec: Rec4, etype: Byte)
    ensures EncodeDetail(DetailOf(rec, etype)) == And4(rec, DetailOwned(DetailOf(rec, etype)))
  {
    var d := DetailOf(rec, etype);
    match etype as nat
    case 0x3 => FanSpeedRoundTrip(rec);
    case 0x4 => TemperatureRoundTrip(rec);
    case 0x9 => NvCacheRoundTrip(rec);
    case 0xa => InvopRoundTrip(rec);
    case 0x10 => LanguageRoundTrip(rec);
    case 0x12 => SensorRoundTrip(rec);
    case 0x13 => SensorRoundTrip(rec);
    case 0x0 => assert d == RawStatus(rec);
    case 0x1 => assert d == SlotAddress(rec.b1);
    case 0xb => assert d == Battery(BatteryOf(rec.b1));
    case 0x16 => assert d == SimpleSubenclosure(Bit(rec.b1, 0x80), rec.b3);
    case _ => assert d == NoDetail || d == UnknownType(rec);
  }

  /** The round trip of the whole decoder: with filtering off, encoding the
      decoded status reproduces every bit the element type defines and
      nothing else. */
  lemma RoundTrip(rec: Rec4, etype: Byte)
    ensures Encode(OverElemStatus(rec, etype, false), etype) == And4(rec, Owned(etype, DetailOf(rec, etype)))
  {
    var s := OverElemStatus(rec, etype, false);
    CommonRoundTrip(rec, etype, false);
    TableFlagsAreBits(etype);
    EncodeShownGroups(FlagGroups(etype), rec);
    DetailRoundTrip(rec, etype);
    OrOfMasks(rec, CommonOwned, GroupsMask(FlagGroups(etype)));
    OrOfMasks(rec, Or4(CommonOwned, GroupsMask(FlagGroups(etype))), DetailOwned(DetailOf(rec, etype)));
  }

  // ---------------------------------------------------------------------
  // The --filter rule

  /** Some flag of the line is set. */
  predicate AnyOn(vs: seq<Flag>) {
    exists j :: 0 <= j < |vs| && vs[j].on
  }

  lemma SingleHit(rec: Rec4, ix: ByteIx, m: Byte)
    ensures And4(rec, Single(ix, m)) != Zero4 <==> Bit(rec.Get(ix), m)
  {
  }

  lemma OrNonZero(a: Rec4, b: Rec4)
    ensures Or4(a, b) != Zero4 <==> a != Zero4 || b != Zero4
  {
  }

  lemma {:induction false} AnyOnMask(fs: seq<FlagSpec>, rec: Rec4)
    ensures AnyOn(FlagValues(fs, rec)) <==> And4(rec, FlagMask(fs)) != Zero4
  {
    if fs != [] {
      var vs := FlagValues(fs, rec);
      assert vs[1..] == FlagValues(fs[1..], rec);
      AnyOnMask(fs[1..], rec);
      SingleHit(rec, fs[0].ix, fs[0].mask);
      OrOfMasks(rec, Single(fs[0].ix, fs[0].mask), FlagMask(fs[1..]));
      OrNonZero(And4(rec, Single(fs[0].ix, fs[0].mask)), And4(rec, FlagMask(fs[1..])));
      if AnyOn(vs[1..]) {
        var j :| 0 <= j < |vs[1..]| && vs[1..][j].on;
        assert vs[j + 1] == vs[1..][j];
      }
      if AnyOn(vs) {
        var j :| 0 <= j < |vs| && vs[j].on;
        if j > 0 {
          assert vs[1..][j - 1] == vs[j];
        }
      }
    }
  }

  /** A line's guard tests exactly the bits its flags report. */
  predicate GuardIsFlags(g: GroupSpec) {
    g.guard == FlagMask(g.flags)
  }

  /** Every line but the one at `odd` has a guard equal to its flags. */
  predicate GuardsCover(gs: seq<GroupSpec>, odd: int) {
    forall i :: 0 <= i < |gs| ==> (i == odd <==> !GuardIsFlags(gs[i]))
  }

  lemma DeviceLinesGuards()
    ensures GuardsCover(DeviceLines, 1)
  {
    assert GuardIsFlags(DeviceLines[0]);
    assert !GuardIsFlags(DeviceLines[1]);
    assert GuardIsFlags(DeviceLines[2]);
    assert GuardIsFlags(DeviceLines[3]);
    assert GuardIsFlags(DeviceLines[4]);
  }

  lemma PowerSupplyLinesGuards()
    ensures GuardsCover(PowerSupplyLines, -1)
  {
    assert GuardIsFlags(PowerSupplyLines[0]);
    assert GuardIsFlags(PowerSupplyLines[1]);
    assert GuardIsFlags(PowerSupplyLines[2]);
  }

  lemma CoolingLinesGuards()
    ensures GuardsCover(CoolingLines, -1)
  {
    assert GuardIsFlags(CoolingLines[0]);
  }

  lemma TemperatureLinesGuards()
    ensures GuardsCover(TemperatureLines, -1)
  {
    assert GuardIsFlags(TemperatureLines[0]);
  }

  lemma DoorLockLinesGuards()
    ensures GuardsCover(DoorLockLines, -1)
  {
    assert GuardIsFlags(DoorLockLines[0]);
  }

  lemma AlarmLinesGuards()
    ensures GuardsCover(AlarmLines, -1)
  {
    assert GuardIsFlags(AlarmLines[0]);
    assert GuardIsFlags(AlarmLines[1]);
  }

  lemma EscElectronicsLinesGuards()
    ensures GuardsCover(EscElectronicsLines, -1)
  {
    assert GuardIsFlags(EscElectronicsLines[0]);
  }

  lemma SccElectronicsLinesGuards()
    ensures GuardsCover(SccElectronicsLines, -1)
  {
    assert GuardIsFlags(SccElectronicsLines[0]);
  }

  lemma UpsLinesGuards()
    ensures GuardsCover(UpsLines, -1)
  {
    assert GuardIsFlags(UpsLines[0]);
    assert GuardIsFlags(UpsLines[1]);
  }

  lemma DisplayLinesGuards()
    ensures GuardsCover(DisplayLines, -1)
  {
    assert GuardIsFlags(DisplayLines[0]);
  }

  lemma KeyPadLinesGuards()
    ensures GuardsCover(KeyPadLines, -1)
  {
    assert GuardIsFlags(KeyPadLines[0]);
  }

  lemma EnclosureLinesGuards()
    ensures GuardsCover(EnclosureLines, -1)
  {
    assert GuardIsFlags(EnclosureLines[0]);
    assert GuardIsFlags(EnclosureLines[1]);
  }

  lemma ScsiPortLinesGuards()
    ensures GuardsCover(ScsiPortLines, -1)
  {
    assert GuardIsFlags(ScsiPortLines[0]);
  }

  lemma CommPortLinesGuards()
    ensures GuardsCover(CommPortLines, -1)
  {
    assert GuardIsFlags(CommPortLines[0]);
  }

  lemma VoltageLinesGuards()
    ensures GuardsCover(VoltageLines, -1)
  {
    assert GuardIsFlags(VoltageLines[0]);
  }

  lemma CurrentLinesGuards()
    ensures GuardsCover(CurrentLines, -1)
  {
    assert GuardIsFlags(CurrentLines[0]);
  }

  lemma TargetPortLinesGuards()
    ensures GuardsCover(TargetPortLines, -1)
  {
    assert GuardIsFlags(TargetPortLines[0]);
  }

  lemma InitiatorPortLinesGuards()
    ensures GuardsCover(InitiatorPortLines, -1)
  {
    assert GuardIsFlags(InitiatorPortLines[0]);
  }

  lemma ArrayDeviceLinesGuards()
    ensures GuardsCover(ArrayDeviceLines, -1)
  {
    ArrayDeviceFirstGuards();
    ArrayDeviceLastGuards();
    forall i | 0 <= i < |ArrayDeviceLines|
      ensures GuardIsFlags(ArrayDeviceLines[i])
    {
      assert i == 0 || i == 1 || i == 2 || i == 3 || i == 4 || i == 5;
    }
  }

  lemma ArrayDeviceFirstGuards()
    ensures |ArrayDeviceLines| == 6
    ensures GuardIsFlags(ArrayDeviceLines[0]) && GuardIsFlags(ArrayDeviceLines[1]) && GuardIsFlags(ArrayDeviceLines[2])
  {
    assert GuardIsFlags(ArrayDeviceLines[0]);
    assert GuardIsFlags(ArrayDeviceLines[1]);
    assert GuardIsFlags(ArrayDeviceLines[2]);
  }

  lemma ArrayDeviceLastGuards()
    ensures |ArrayDeviceLines| == 6
    ensures GuardIsFlags(ArrayDeviceLines[3]) && GuardIsFlags(ArrayDeviceLines[4]) && GuardIsFlags(ArrayDeviceLines[5])
  {
    assert GuardIsFlags(ArrayDeviceLines[3]);
    assert GuardIsFlags(ArrayDeviceLines[4]);
    assert GuardIsFlags(ArrayDeviceLines[5]);
  }

  /** The line of each element type that a filter hides is one whose flags
      are all clear, except the device element's second line: its guard
      (0x1c of byte 2) leaves out its Ident flag (0x02 of byte 2). */
  lemma GuardsMatchFlags(etype: Byte)
    ensures GuardsCover(FlagGroups(etype), if etype == 1 then 1 else -1)
  {
    match etype as nat
    case 0x1 => DeviceLinesGuards();
    case 0x2 => PowerSupplyLinesGuards();
    case 0x3 => CoolingLinesGuards();
    case 0x4 => TemperatureLinesGuards();
    case 0x5 => DoorLockLinesGuards();
    case 0x6 => AlarmLinesGuards();
    case 0x7 => EscElectronicsLinesGuards();
    case 0x8 => SccElectronicsLinesGuards();
    case 0xb => UpsLinesGuards();
    case 0xc => DisplayLinesGuards();
    case 0xd => KeyPadLinesGuards();
    case 0xe => EnclosureLinesGuards();
    case 0xf => ScsiPortLinesGuards();
    case 0x11 => CommPortLinesGuards();
    case 0x12 => VoltageLinesGuards();
    case 0x13 => CurrentLinesGuards();
    case 0x14 => TargetPortLinesGuards();
    case 0x15 => InitiatorPortLinesGuards();
    case 0x17 => ArrayDeviceLinesGuards();
    case _ =>
  }

  /** Under --filter a line of flags is suppressed exactly when all its
      flags are clear, for every line but the device element's second. */
  lemma FilterHidesQuietLines(rec: Rec4, etype: Byte, i: nat)
    requires i < |FlagGroups(etype)|
    requires !(etype == 1 && i == 1)
    ensures OverElemStatus(rec, etype, true).groups[i].None? <==>
      !AnyOn(FlagValues(FlagGroups(etype)[i].flags, rec))
  {
    GuardsMatchFlags(etype);
    AnyOnMask(FlagGroups(etype)[i].flags, rec);
  }

  /** The exception: a device element whose only set bit in that line is
      Ident has the line suppressed by --filter. */
  lemma FilterHidesDeviceIdent()
    ensures var rec := Rec4(0, 0, 0x02, 0);
      OverElemStatus(rec, 1, true).groups[1].None? &&
      FlagValues(DeviceLines[1].flags, rec)[3] == Flag("Ident", true)
  {
    var rec := Rec4(0, 0, 0x02, 0);
    assert And4(rec, DeviceLines[1].guard) == Zero4;
  }

  /** Cooling element speed: a multiple of 10 up to 10230 rpm, read from
      the 10 bits of byte 1 bits 1..0 and byte 2. */
  lemma FanSpeedRange(rec: Rec4)
    ensures FanSpeedOf(rec).rpm % 10 == 0 && FanSpeedOf(rec).rpm <= 10230
    ensures FanSpeedOf(rec).rpm / 10 / 256 == (rec.b1 & 3) as nat
    ensures FanSpeedOf(rec).rpm / 10 % 256 == rec.b2 as nat
  {
    var v := BE16(rec.b1 & 3, rec.b2);
    assert (rec.b1 & 3) as nat <= 3;
    assert (v * 10) / 10 == v;
  }

  lemma FanSpeedExample()
    ensures FanSpeedOf(Rec4(0, 0x01, 0x2c, 0x07)) == FanSpeed(3000, 7, "at highest speed")
  {
  }

  /** Temperature: byte 2 of zero is reserved; otherwise byte 2 less 20
      degrees, so between -19 and 235. */
  lemma TemperatureRange(rec: Rec4)
    ensures TemperatureOf(rec).celsius.None? <==> rec.b2 == 0
    ensures TemperatureOf(rec).celsius.Some? ==>
      -19 <= TemperatureOf(rec).celsius.value <= 235 &&
      TemperatureOf(rec).celsius.value + 20 == rec.b2 as int
  {
  }
}
