/** The framing every received diagnostic page goes through before it is
    decoded: the effective response length and the page code check. */
module Framing {

  import opened Bytes

  /** The response length: the page length field plus the 4-byte header,
      cut down to the buffer size when the device announces more. */
  function EffectiveLen(resp: seq<Byte>): (len: nat)
    requires IsRespBuffer(resp)
    ensures 4 <= len <= MX_ALLOC_LEN
    ensures BE16(resp[2], resp[3]) + 4 <= MX_ALLOC_LEN ==> len == BE16(resp[2], resp[3]) + 4
    ensures BE16(resp[2], resp[3]) + 4 > MX_ALLOC_LEN ==> len == MX_ALLOC_LEN
  {
    var declared := BE16(resp[2], resp[3]) + 4;
    if declared > MX_ALLOC_LEN then MX_ALLOC_LEN else declared
  }

  /** How a response whose code is checked against the requested page is
      classified. */
  datatype PageCheck =
    | Wanted                         // the page that was asked for
    | EnclosureBusy                  // code 9 with the busy bit set
    | ShortStatusOnly(status: Byte)  // code 8: only short enclosure status
    | InvalidResponse(got: Byte)     // any other code

  function CheckPageCode(wanted: Byte, resp: seq<Byte>): (c: PageCheck)
    requires |resp| >= 2
    ensures c == Wanted <==> resp[0] == wanted
    ensures c == EnclosureBusy <==> resp[0] != wanted && resp[0] == 9 && Bit(resp[1], 1)
    ensures c.ShortStatusOnly? <==> resp[0] != wanted && resp[0] == 8
    ensures c.ShortStatusOnly? ==> c.status == resp[1]
    ensures c.InvalidResponse? <==> resp[0] != wanted && !(resp[0] == 9 && Bit(resp[1], 1)) && resp[0] != 8
    ensures c.InvalidResponse? ==> c.got == resp[0]
  {
    if resp[0] == wanted then Wanted
    else if resp[0] == 9 && Bit(resp[1], 1) then EnclosureBusy
    else if resp[0] == 8 then ShortStatusOnly(resp[1])
    else InvalidResponse(resp[0])
  }
}
