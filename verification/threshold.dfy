/** reserved_or_num and ses_threshold_helper: the decoding of one 4-byte
    threshold record of the Threshold In page.  Percentages are kept in the
    page's own unit (half percent) rather than printed as floating point. */
module Threshold {

  import opened Bytes

  /** A number, or the reserved marker `<res>`. */
  datatype ResOrNum = Res | Num(n: int)

  /** reserved_or_num: `num` itself, unless it is the reserved value. */
  function ReservedOrNum(num: int, reserveNum: int): (r: ResOrNum)
    ensures r.Res? <==> num == reserveNum
    ensures r.Num? ==> r.n == num
  {
    if num == reserveNum then Res else Num(num)
  }

  /** Which record a threshold line describes: the overall threshold of an
      element type, or its element with the given 1-based number. */
  datatype ThresholdLabel = OverallThreshold | ElementThreshold(number: nat)

  /** The limits a threshold record encodes, by element type. */
  datatype Limits =
    | ThresholdHex(raw: Rec4)                          // --inner-hex
    | TemperatureLimits(highCritical: ResOrNum, highWarning: ResOrNum,
                        lowWarning: ResOrNum, lowCritical: ResOrNum)   // degrees Celsius
    | UpsLimits(lowWarningMinutes: Option<nat>, lowCriticalMinutes: Option<nat>) // None is "<vendor>"
    | VoltageLimits(highCriticalHalfPct: nat, highWarningHalfPct: nat,
                    lowWarningHalfPct: nat, lowCriticalHalfPct: nat)   // from nominal voltage
    | CurrentLimits(highCriticalHalfPct: nat, highWarningHalfPct: nat) // above nominal current
    | NoLimits  // other element types: nothing is printed, not even the line's label

  /** One record's output.  With `NoLimits` the helper prints nothing at
      all: `which` is then the label it computed but never printed. */
  datatype ThresholdLine = ThresholdLine(which: ThresholdLabel, limits: Limits)

  /** A temperature limit: the byte less 20, with the byte 0 reserved. */
  function TemperatureLimit(b: Byte): (r: ResOrNum)
    ensures r.Res? <==> b == 0
    ensures r.Num? ==> -19 <= r.n <= 235 && r.n + 20 == b as int
  {
    ReservedOrNum(b as int - 20, -20)
  }

  /** An uninterruptible power supply limit in minutes; 0 is vendor specific. */
  function UpsLimit(b: Byte): (r: Option<nat>)
    ensures r.None? <==> b == 0
    ensures r.Some? ==> 1 <= r.value <= 255 && r.value == b as nat
  {
    if b == 0 then None else Some(b as nat)
  }

  function LimitsOf(tp: Rec4, etype: Byte): Limits {
    if etype == 0x4 then
      TemperatureLimits(TemperatureLimit(tp.b0), TemperatureLimit(tp.b1),
                        TemperatureLimit(tp.b2), TemperatureLimit(tp.b3))
    else if etype == 0xb then
      UpsLimits(UpsLimit(tp.b2), UpsLimit(tp.b3))
    else if etype == 0x12 then
      VoltageLimits(tp.b0 as nat, tp.b1 as nat, tp.b2 as nat, tp.b3 as nat)
    else if etype == 0x13 then
      CurrentLimits(tp.b0 as nat, tp.b1 as nat)
    else
      NoLimits
  }

  /** ses_threshold_helper: a negative element number labels the overall
      threshold; --inner-hex shows the raw record for any element type. */
  function ThresholdHelper(tp: Rec4, etype: Byte, pNum: int, innerHex: bool): (r: ThresholdLine)
    ensures r.which.OverallThreshold? <==> pNum < 0
    ensures r.which.ElementThreshold? ==> r.which.number == pNum + 1
    ensures innerHex ==> r.limits == ThresholdHex(tp)
    ensures !innerHex ==> r.limits == LimitsOf(tp, etype)
  {
    ThresholdLine(if pNum < 0 then OverallThreshold else ElementThreshold(pNum + 1),
                  if innerHex then ThresholdHex(tp) else LimitsOf(tp, etype))
  }

  // ---------------------------------------------------------------------
  // Encoding back

  function TemperatureByte(r: ResOrNum): Byte {
    match r
    case Res => 0
    case Num(n) => LowByte(n + 20)
  }

  function UpsByte(r: Option<nat>): Byte {
    match r
    case None => 0
    case Some(n) => LowByte(n)
  }

  function EncodeLimits(l: Limits): Rec4 {
    match l
    case ThresholdHex(raw) => raw
    case TemperatureLimits(hc, hw, lw, lc) =>
      Rec4(TemperatureByte(hc), TemperatureByte(hw), TemperatureByte(lw), TemperatureByte(lc))
    case UpsLimits(lw, lc) => Rec4(0, 0, UpsByte(lw), UpsByte(lc))
    case VoltageLimits(hc, hw, lw, lc) =>
      Rec4(LowByte(hc), LowByte(hw), LowByte(lw), LowByte(lc))
    case CurrentLimits(hc, hw) => Rec4(LowByte(hc), LowByte(hw), 0, 0)
    case NoLimits => Zero4
  }

  /** The bytes of a threshold record that each element type reports. */
  function ThresholdOwned(etype: Byte): Rec4 {
    if etype == 0x4 || etype == 0x12 then Rec4(0xff, 0xff, 0xff, 0xff)
    else if etype == 0xb then Rec4(0, 0, 0xff, 0xff)
    else if etype == 0x13 then Rec4(0xff, 0xff, 0, 0)
    else Zero4
  }

  lemma TemperatureByteBack(b: Byte)
    ensures TemperatureByte(TemperatureLimit(b)) == b
  {
    if b != 0 {
      assert b as int - 20 + 20 == b as int;
      ByteBack(b);
    }
  }

  lemma TemperatureRoundTrip(tp: Rec4, etype: Byte)
    requires etype == 0x4
    ensures EncodeLimits(LimitsOf(tp, etype)) == And4(tp, ThresholdOwned(etype))
  {
    TemperatureByteBack(tp.b0);
    TemperatureByteBack(tp.b1);
    TemperatureByteBack(tp.b2);
    TemperatureByteBack(tp.b3);
    assert And4(tp, ThresholdOwned(etype)) == tp;
  }

  lemma UpsRoundTrip(tp: Rec4, etype: Byte)
    requires etype == 0xb
    ensures EncodeLimits(LimitsOf(tp, etype)) == And4(tp, ThresholdOwned(etype))
  {
    UpsByteBack(tp.b2);
    UpsByteBack(tp.b3);
    AndFullOrEmpty(tp);
    assert And4(tp, ThresholdOwned(etype)) == Rec4(0, 0, tp.b2, tp.b3);
  }

  lemma UpsByteBack(b: Byte)
    ensures UpsByte(UpsLimit(b)) == b
  {
    ByteBack(b);
  }

  lemma VoltageRoundTrip(tp: Rec4, etype: Byte)
    requires etype == 0x12
    ensures EncodeLimits(LimitsOf(tp, etype)) == And4(tp, ThresholdOwned(etype))
  {
    ByteBack(tp.b0);
    ByteBack(tp.b1);
    ByteBack(tp.b2);
    ByteBack(tp.b3);
    assert And4(tp, ThresholdOwned(etype)) == tp;
  }

  lemma CurrentRoundTrip(tp: Rec4, etype: Byte)
    requires etype == 0x13
    ensures EncodeLimits(LimitsOf(tp, etype)) == And4(tp, ThresholdOwned(etype))
  {
    ByteBack(tp.b0);
    ByteBack(tp.b1);
    AndFullOrEmpty(tp);
    assert And4(tp, ThresholdOwned(etype)) == Rec4(tp.b0, tp.b1, 0, 0);
  }

  /** Decoding a threshold record of any element type and encoding it
      again gives back the bytes that element type defines. */
  lemma LimitsRoundTrip(tp: Rec4, etype: Byte)
    ensures EncodeLimits(LimitsOf(tp, etype)) == And4(tp, ThresholdOwned(etype))
  {
    if etype == 0x4 {
      TemperatureRoundTrip(tp, etype);
    } else if etype == 0xb {
      UpsRoundTrip(tp, etype);
    } else if etype == 0x12 {
      VoltageRoundTrip(tp, etype);
    } else if etype == 0x13 {
      CurrentRoundTrip(tp, etype);
    }
  }

  /** The round trip of ses_threshold_helper: the bytes the element type
      defines, and with --inner-hex the whole record. */
  lemma ThresholdRoundTrip(tp: Rec4, etype: Byte, pNum: int, innerHex: bool)
    ensures EncodeLimits(ThresholdHelper(tp, etype, pNum, innerHex).limits) ==
      if innerHex then tp else And4(tp, ThresholdOwned(etype))
  {
    LimitsRoundTrip(tp, etype);
  }
}
