/** The Device element status page (ses_device_elem_sdg) and the decoding
    of one of its records (ses_transport_proto).  Only device (type 1) and
    array device (type 0x17) elements have records on this page; other
    element types are skipped without moving the cursor.  A record is
    `byte 1 + 2` bytes long, and it is decoded by its transport protocol:
    Fibre Channel records list 16-byte ports after a 12-byte head, SAS
    records 28-byte phys after a 4-byte head. */
module DeviceElement {

  import opened Bytes
  import opened Config
  import opened StatusPages
  import Catalog

  // ---------------------------------------------------------------------
  // One record (ses_transport_proto)

  datatype FcpPort = FcpPort(loopPosition: Byte, hardAddress: Byte, nPortId: Range, nPortName: Range)

  /** Which of SSP, STP and SMP a SAS phy's port serves. */
  datatype PortRoles = PortRoles(ssp: bool, stp: bool, smp: bool)

  /** A SAS phy descriptor.  `heading` is the number the source prints in
      front of it, and `deviceType` the index into its table of SAS device
      types (Catalog.SasDeviceType). */
  datatype SasPhy = SasPhy(heading: nat, deviceType: nat, initiatorFor: PortRoles, targetFor: PortRoles,
                           attachedSasAddress: Range, sasAddress: Range, phyId: Byte)

  datatype Transport =
    | Fcp(nodeName: Range, ports: seq<FcpPort>)
    | Sas(notAllPhys: bool, phys: seq<SasPhy>)
    | NotDecoded(proto: nat, hex: Range)       // any other protocol: its name and a hex dump

  /** A decoded record, numbered from 1 within its element type. */
  datatype DeviceElem = DeviceElem(number: nat, transport: Transport)

  const FCP_PROTO: Byte := 0
  const SAS_PROTO: Byte := 6

  function Proto(resp: seq<Byte>, off: int): Byte {
    ByteAt(resp, off) & 0xf
  }

  /** The length the page gives the record at `off`. */
  function DevRecLen(resp: seq<Byte>, off: int): nat {
    At(resp, off + 1) + 2
  }

  /** How many bytes from `off` the page decoder reads for the record
      there, up to and including the last byte it reads: the 12-byte head
      and 16 bytes per port for Fibre Channel; for SAS the 4-byte head, or
      up to the phy identifier (byte 24) of the last 28-byte phy; for any
      other protocol the record itself when the hex dump has bytes to
      show, and otherwise only the two bytes the walk reads for the
      length.  It can exceed the record's own length. */
  function Extent(resp: seq<Byte>, off: int): (n: nat)
    ensures n >= 2
  {
    var proto := Proto(resp, off);
    var count := At(resp, off + 2);
    if proto == FCP_PROTO then 12 + 16 * count
    else if proto == SAS_PROTO then (if count == 0 then 4 else 1 + 28 * count)
    else if DevRecLen(resp, off) <= 4 then 2
    else DevRecLen(resp, off)
  }

  function FcpPortAt(resp: seq<Byte>, p: int): FcpPort {
    FcpPort(ByteAt(resp, p), ByteAt(resp, p + 4), Range(p + 5, 3), Range(p + 8, 8))
  }

  function RolesOf(b: Byte): PortRoles {
    PortRoles(Bit(b, 8), Bit(b, 4), Bit(b, 2))
  }

  /** The phy descriptor at `p`.  Every phy is labelled with the number of
      phys plus one (`phys + 1`), not with its own position. */
  function SasPhyAt(resp: seq<Byte>, p: int, phys: nat): SasPhy {
    SasPhy(phys + 1, ((ByteAt(resp, p + 4) & 0x70) >> 4) as nat,
           RolesOf(ByteAt(resp, p + 6)), RolesOf(ByteAt(resp, p + 7)),
           Range(p + 8, 8), Range(p + 16, 8), ByteAt(resp, p + 24))
  }

  /** The decoding of the record at `off` with page length `len`, as
      element `elemNum` (from 0) of its type. */
  function TransportOf(resp: seq<Byte>, off: int, len: int, elemNum: nat): DeviceElem {
    var proto := Proto(resp, off);
    var count := At(resp, off + 2);
    DeviceElem(elemNum + 1,
      if proto == FCP_PROTO then
        Fcp(Range(off + 4, 8), seq(count, j => FcpPortAt(resp, off + 12 + 16 * j)))
      else if proto == SAS_PROTO then
        Sas(Bit(ByteAt(resp, off + 3), 1), seq(count, j => SasPhyAt(resp, off + 4 + 28 * j, count)))
      else
        NotDecoded(proto as nat, Range(off + 4, len - 4)))
  }

  method TransportProto(resp: seq<Byte>, off: nat, len: int, elemNum: nat) returns (d: DeviceElem)
    requires off + Extent(resp, off) <= |resp|
    ensures d == TransportOf(resp, off, len, elemNum)
  {
    var proto := resp[off] & 0xf;
    if proto == FCP_PROTO {
      var ports := FcpPorts(resp, off);
      d := DeviceElem(elemNum + 1, Fcp(Range(off + 4, 8), ports));
    } else if proto == SAS_PROTO {
      var phys := SasPhys(resp, off);
      d := DeviceElem(elemNum + 1, Sas(Bit(resp[off + 3], 1), phys));
    } else {
      d := DeviceElem(elemNum + 1, NotDecoded(proto as nat, Range(off + 4, len - 4)));
    }
  }

  /** The port loop of a Fibre Channel record. */
  method FcpPorts(resp: seq<Byte>, off: nat) returns (list: seq<FcpPort>)
    requires Proto(resp, off) == FCP_PROTO && off + Extent(resp, off) <= |resp|
    ensures list == seq(At(resp, off + 2), j => FcpPortAt(resp, off + 12 + 16 * j))
  {
    var ports := resp[off + 2] as nat;
    list := [];
    var per := off + 12;
    var j := 0;
    while j < ports
      invariant j <= ports && per == off + 12 + 16 * j
      invariant list == seq(j, i => FcpPortAt(resp, off + 12 + 16 * i))
    {
      list := list + [FcpPort(resp[per], resp[per + 4], Range(per + 5, 3), Range(per + 8, 8))];
      j := j + 1;
      per := per + 16;
    }
  }

  /** The phy loop of a SAS record. */
  method SasPhys(resp: seq<Byte>, off: nat) returns (list: seq<SasPhy>)
    requires Proto(resp, off) == SAS_PROTO && off + Extent(resp, off) <= |resp|
    ensures list == seq(At(resp, off + 2), j => SasPhyAt(resp, off + 4 + 28 * j, At(resp, off + 2)))
  {
    var phys := resp[off + 2] as nat;
    list := [];
    var per := off + 4;
    var j := 0;
    while j < phys
      invariant j <= phys && per == off + 4 + 28 * j
      invariant list == seq(j, i => SasPhyAt(resp, off + 4 + 28 * i, phys))
    {
      var b4 := resp[per + 4];
      list := list + [SasPhy(phys + 1, ((b4 & 0x70) >> 4) as nat,
                             RolesOf(resp[per + 6]), RolesOf(resp[per + 7]),
                             Range(per + 8, 8), Range(per + 16, 8), resp[per + 24])];
      j := j + 1;
      per := per + 28;
    }
  }

  /** The device type field (bits 4..6 of phy byte 4) always indexes the
      8-entry table, and the protocol (low nibble of byte 0) the 16-entry
      one. */
  lemma TableIndices(resp: seq<Byte>, off: int, p: int, phys: nat)
    ensures SasPhyAt(resp, p, phys).deviceType < |Catalog.SasDeviceType|
    ensures Proto(resp, off) as nat < |Catalog.TransportProtoDesc|
  {
    var b := ByteAt(resp, p + 4);
    assert (b & 0x70) >> 4 <= 7;
    assert ByteAt(resp, off) & 0xf <= 15;
  }

  /** Fibre Channel port j lies in the 16 bytes at off + 12 + 16 j, inside
      the bytes the page decoder reads for the record; the last port's
      name ends the extent, and without ports the node name does. */
  lemma FcpPortInside(resp: seq<Byte>, off: int, len: int, elemNum: nat, j: nat)
    requires Proto(resp, off) == FCP_PROTO && j < At(resp, off + 2)
    ensures var d := TransportOf(resp, off, len, elemNum);
      var p := off + 12 + 16 * j;
      d.transport.Fcp? && j < |d.transport.ports| &&
      d.transport.ports[j] == FcpPortAt(resp, p) &&
      off + 12 <= p && p + 16 <= off + Extent(resp, off) &&
      d.transport.ports[j].nPortName.start + d.transport.ports[j].nPortName.len == p + 16 &&
      (j + 1 == At(resp, off + 2) ==> p + 16 == off + Extent(resp, off))
  {
  }

  /** A Fibre Channel record without ports is read up to the end of its
      node name. */
  lemma FcpNoPorts(resp: seq<Byte>, off: int, len: int, elemNum: nat)
    requires Proto(resp, off) == FCP_PROTO && At(resp, off + 2) == 0
    ensures var d := TransportOf(resp, off, len, elemNum);
      d.transport == Fcp(Range(off + 4, 8), []) &&
      d.transport.nodeName.start + d.transport.nodeName.len == off + Extent(resp, off)
  {
  }

  /** SAS phy j starts at off + 4 + 28 j and carries the label phys + 1;
      the 25 bytes the decoder reads of it, up to its phy identifier, lie
      inside the extent, and the last phy's identifier is the extent's
      last byte. */
  lemma SasPhyInside(resp: seq<Byte>, off: int, len: int, elemNum: nat, j: nat)
    requires Proto(resp, off) == SAS_PROTO && j < At(resp, off + 2)
    ensures var d := TransportOf(resp, off, len, elemNum);
      var p := off + 4 + 28 * j;
      d.transport.Sas? && |d.transport.phys| == At(resp, off + 2) &&
      d.transport.phys[j] == SasPhyAt(resp, p, At(resp, off + 2)) &&
      d.transport.phys[j].heading == |d.transport.phys| + 1 &&
      off + 4 <= p && p + 25 <= off + Extent(resp, off) &&
      d.transport.phys[j].sasAddress.start + d.transport.phys[j].sasAddress.len == p + 24 &&
      (j + 1 == At(resp, off + 2) ==> p + 25 == off + Extent(resp, off))
  {
  }

  /** A SAS record without phys is read up to its `not all phys` byte. */
  lemma SasNoPhys(resp: seq<Byte>, off: int, len: int, elemNum: nat)
    requires Proto(resp, off) == SAS_PROTO && At(resp, off + 2) == 0
    ensures var d := TransportOf(resp, off, len, elemNum);
      d.transport == Sas(Bit(ByteAt(resp, off + 3), 1), []) && Extent(resp, off) == 4
  {
  }

  /** Any other protocol is dumped from byte 4 to the end of the record;
      when that leaves bytes to show, the record is exactly the extent the
      page decoder reads, and otherwise only the two bytes of the record
      head are read. */
  lemma NotDecodedInside(resp: seq<Byte>, off: int, elemNum: nat)
    requires Proto(resp, off) != FCP_PROTO && Proto(resp, off) != SAS_PROTO
    ensures var d := TransportOf(resp, off, DevRecLen(resp, off), elemNum);
      d.transport.NotDecoded? && d.transport.proto < 16 &&
      d.transport.hex.start == off + 4 &&
      (d.transport.hex.len > 0 ==> d.transport.hex.start + d.transport.hex.len == off + Extent(resp, off)) &&
      (d.transport.hex.len <= 0 ==> Extent(resp, off) == 2)
  {
    TableIndices(resp, off, off, 0);
  }

  // ---------------------------------------------------------------------
  // The page walk

  /** Only device and array device elements have records on this page. */
  predicate Shown(etype: Byte) {
    etype == 1 || etype == 0x17
  }

  /** The number of shown element types among the first k headers. */
  function ShownBefore(hdrs: seq<ElementHdr>, k: nat): nat
    requires k <= |hdrs|
  {
    if k == 0 then 0 else ShownBefore(hdrs, k - 1) + (if Shown(hdrs[k - 1].etype) then 1 else 0)
  }

  /** The number of records that come before element type k's records. */
  function ShownCount(hdrs: seq<ElementHdr>, k: nat): nat
    requires k <= |hdrs|
  {
    if k == 0 then 0
    else ShownCount(hdrs, k - 1) + (if Shown(hdrs[k - 1].etype) then hdrs[k - 1].numElements as nat else 0)
  }

  /** The offset of the r-th record of the page. */
  function DevOffset(resp: seq<Byte>, r: nat): nat {
    if r == 0 then 8
    else
      var p := DevOffset(resp, r - 1);
      p + DevRecLen(resp, p)
  }

  datatype DevType<V> = DevType(etype: Byte, seId: Byte, elements: seq<V>)

  datatype DevRun = DevRun(types: seq<DevType<nat>>, end: PageEnd)

  /** The records j..n-1 of one element type from `off`: no bounds test,
      so the walk only stops where a record would be read beyond the
      buffer. */
  function DevElements(resp: seq<Byte>, off: nat, j: nat, n: nat, acc: seq<nat>): ElemRun
    decreases n - j
  {
    if j >= n then ElemRun(acc, off, true)
    else if off + Extent(resp, off) > |resp| then ElemRun(acc, off, false)
    else DevElements(resp, off + DevRecLen(resp, off), j + 1, n, acc + [off])
  }

  /** The outer loop over element types k..: the 2-byte bounds test comes
      before the type test, and a skipped type leaves the cursor alone. */
  function DeviceWalk(resp: seq<Byte>, len: int, hdrs: seq<ElementHdr>, k: nat, off: nat,
                      acc: seq<DevType<nat>>): DevRun
    decreases |hdrs| - k
  {
    if k >= |hdrs| then DevRun(acc, Complete)
    else if Past(off, 2, len) then DevRun(acc, Truncated)
    else if !Shown(hdrs[k].etype) then DeviceWalk(resp, len, hdrs, k + 1, off, acc)
    else
      var e := DevElements(resp, off, 0, hdrs[k].numElements as nat, []);
      var t := DevType(hdrs[k].etype, hdrs[k].seId, e.offs);
      if e.ok then DeviceWalk(resp, len, hdrs, k + 1, e.next, acc + [t])
      else DevRun(acc + [t], PastBuffer)
  }

  datatype DevicePage<V> =
    | DevTooShort
    | DevGenerationChanged(generation: nat)
    | DevDecoded(generation: nat, types: seq<DevType<V>>, end: PageEnd)

  /** Where the page's records lie.  The generation code is read from bytes
      4..7 for any page of 4 bytes or more. */
  function DeviceRecords(hdrs: seq<ElementHdr>, refGen: nat, resp: seq<Byte>, len: int): DevicePage<nat>
    requires IsRespBuffer(resp)
  {
    if len < 4 then DevTooShort
    else
      var gen := BE32(resp, 4);
      if refGen != gen then DevGenerationChanged(gen)
      else
        var run := DeviceWalk(resp, len, hdrs, 0, 8, []);
        DevDecoded(gen, run.types, run.end)
  }

  /** Each record decoded with its own length, numbered by position. */
  function ShowElems(resp: seq<Byte>, offs: seq<nat>): seq<DeviceElem> {
    seq(|offs|, e requires 0 <= e < |offs| => TransportOf(resp, offs[e], DevRecLen(resp, offs[e]), e))
  }

  function ShowType(resp: seq<Byte>, t: DevType<nat>): DevType<DeviceElem> {
    DevType(t.etype, t.seId, ShowElems(resp, t.elements))
  }

  function ShowTypes(resp: seq<Byte>, ts: seq<DevType<nat>>): seq<DevType<DeviceElem>> {
    seq(|ts|, i requires 0 <= i < |ts| => ShowType(resp, ts[i]))
  }

  /** The page with every record decoded. */
  function ShowDevice(resp: seq<Byte>, p: DevicePage<nat>): DevicePage<DeviceElem> {
    match p
    case DevTooShort => DevTooShort
    case DevGenerationChanged(g) => DevGenerationChanged(g)
    case DevDecoded(g, ts, end) => DevDecoded(g, ShowTypes(resp, ts), end)
  }

  method DeviceElemSdg(hdrs: seq<ElementHdr>, refGen: nat, resp: seq<Byte>, len: int)
    returns (page: DevicePage<DeviceElem>)
    requires IsRespBuffer(resp)
    ensures page == ShowDevice(resp, DeviceRecords(hdrs, refGen, resp, len))
  {
    if len < 4 {
      return DevTooShort;
    }
    var gen := BE32(resp, 4);
    if refGen != gen {
      return DevGenerationChanged(gen);
    }
    var slots: seq<DevType<nat>> := [];
    var shown: seq<DevType<DeviceElem>> := [];
    var off: nat := 8;
    var k := 0;
    while k < |hdrs|
      invariant k <= |hdrs|
      invariant DeviceWalk(resp, len, hdrs, k, off, slots) == DeviceWalk(resp, len, hdrs, 0, 8, [])
      invariant shown == ShowTypes(resp, slots)
    {
      if Past(off, 2, len) {
        return DevDecoded(gen, shown, Truncated);
      }
      if !Shown(hdrs[k].etype) {
        k := k + 1;
        continue;
      }
      var w, elems := DeviceElems(resp, off, hdrs[k].numElements as nat);
      var t := DevType(hdrs[k].etype, hdrs[k].seId, w.offs);
      assert ShowTypes(resp, slots + [t]) == shown + [ShowType(resp, t)];
      if !w.ok {
        return DevDecoded(gen, shown + [DevType(hdrs[k].etype, hdrs[k].seId, elems)], PastBuffer);
      }
      slots := slots + [t];
      shown := shown + [DevType(hdrs[k].etype, hdrs[k].seId, elems)];
      off := w.next;
      k := k + 1;
    }
    return DevDecoded(gen, shown, Complete);
  }

  /** The inner loop over the n records of one element type. */
  method DeviceElems(resp: seq<Byte>, start: nat, n: nat) returns (w: ElemRun, elems: seq<DeviceElem>)
    ensures w == DevElements(resp, start, 0, n, [])
    ensures elems == ShowElems(resp, w.offs)
  {
    var off: nat := start;
    var offs: seq<nat> := [];
    elems := [];
    var j := 0;
    while j < n
      invariant j <= n && |offs| == j
      invariant DevElements(resp, off, j, n, offs) == DevElements(resp, start, 0, n, [])
      invariant elems == ShowElems(resp, offs)
    {
      if off + Extent(resp, off) > |resp| {
        return ElemRun(offs, off, false), elems;
      }
      var descLen := resp[off + 1] as nat + 2;
      var d := TransportProto(resp, off, descLen, j);
      ShowElemsAppend(resp, offs, off);
      elems := elems + [d];
      offs := offs + [off];
      off := off + descLen;
      j := j + 1;
    }
    w := ElemRun(offs, off, true);
  }

  /** Decoding one more record appends its decoding. */
  lemma ShowElemsAppend(resp: seq<Byte>, offs: seq<nat>, off: nat)
    ensures ShowElems(resp, offs) + [TransportOf(resp, off, DevRecLen(resp, off), |offs|)] ==
      ShowElems(resp, offs + [off])
  {
  }

  // ---------------------------------------------------------------------
  // Properties of the walk

  lemma DevOffsetStep(resp: seq<Byte>, r: nat, off: nat)
    requires off == DevOffset(resp, r)
    ensures DevOffset(resp, r + 1) == off + DevRecLen(resp, off)
  {
  }

  /** How far the records of one element type get: all n of them, ending
      at record base + n, or up to a record whose decoding would read
      beyond the buffer. */
  lemma {:induction false} DevElementsCount(resp: seq<Byte>, base: nat, off: nat, j: nat, n: nat, acc: seq<nat>)
    requires j <= n && off == DevOffset(resp, base + j)
    ensures var w := DevElements(resp, off, j, n, acc);
      var m := j + |w.offs| - |acc|;
      |acc| <= |w.offs| && m <= n &&
      (w.ok ==> m == n && w.next == DevOffset(resp, base + n)) &&
      (!w.ok ==> m < n && DevOffset(resp, base + m) + Extent(resp, DevOffset(resp, base + m)) > |resp|)
    decreases n - j
  {
    if j < n && off + Extent(resp, off) <= |resp| {
      var next := off + DevRecLen(resp, off);
      DevOffsetStep(resp, base + j, off);
      assert DevElements(resp, off, j, n, acc) == DevElements(resp, next, j + 1, n, acc + [off]);
      DevElementsCount(resp, base, next, j + 1, n, acc + [off]);
    }
  }

  lemma {:induction false} DevElementsPrefix(resp: seq<Byte>, off: nat, j: nat, n: nat, acc: seq<nat>)
    ensures var w := DevElements(resp, off, j, n, acc);
      |acc| <= |w.offs| && w.offs[..|acc|] == acc
    decreases n - j
  {
    if j < n && off + Extent(resp, off) <= |resp| {
      var next := off + DevRecLen(resp, off);
      DevElementsPrefix(resp, next, j + 1, n, acc + [off]);
      var w := DevElements(resp, next, j + 1, n, acc + [off]);
      assert w.offs[..|acc|] == (w.offs[..|acc| + 1])[..|acc|];
    }
  }

  /** Record e of the type is the page's record base + e, and its whole
      decoding lies inside the buffer. */
  lemma {:induction false} DevElementsAt(resp: seq<Byte>, base: nat, off: nat, j: nat, n: nat, acc: seq<nat>, e: nat)
    requires j <= n && off == DevOffset(resp, base + j)
    requires j <= e < j + |DevElements(resp, off, j, n, acc).offs| - |acc|
    ensures var w := DevElements(resp, off, j, n, acc);
      var o := DevOffset(resp, base + e);
      w.offs[|acc| + (e - j)] == o && o + Extent(resp, o) <= |resp|
    decreases n - j
  {
    var next := off + DevRecLen(resp, off);
    DevOffsetStep(resp, base + j, off);
    assert DevElements(resp, off, j, n, acc) == DevElements(resp, next, j + 1, n, acc + [off]);
    if e == j {
      DevElementsPrefix(resp, next, j + 1, n, acc + [off]);
      var w := DevElements(resp, next, j + 1, n, acc + [off]);
      assert w.offs[|acc|] == (w.offs[..|acc| + 1])[|acc|];
    } else {
      DevElementsAt(resp, base, next, j + 1, n, acc + [off], e);
    }
  }

  lemma {:induction false} ShownBeforeMono(hdrs: seq<ElementHdr>, k: nat, j: nat)
    requires k <= j <= |hdrs|
    ensures ShownBefore(hdrs, k) <= ShownBefore(hdrs, j)
    decreases j - k
  {
    if k < j {
      ShownBeforeMono(hdrs, k, j - 1);
    }
  }

  /** One step of the outer loop over a shown type. */
  lemma DeviceWalkStep(resp: seq<Byte>, len: int, hdrs: seq<ElementHdr>, k: nat, off: nat, acc: seq<DevType<nat>>)
    requires k < |hdrs| && !Past(off, 2, len) && Shown(hdrs[k].etype)
    ensures var e := DevElements(resp, off, 0, hdrs[k].numElements as nat, []);
      var t := DevType(hdrs[k].etype, hdrs[k].seId, e.offs);
      DeviceWalk(resp, len, hdrs, k, off, acc) ==
        if e.ok then DeviceWalk(resp, len, hdrs, k + 1, e.next, acc + [t]) else DevRun(acc + [t], PastBuffer)
  {
  }

  /** A type without records on this page is passed over without moving
      the cursor. */
  lemma DeviceWalkSkip(resp: seq<Byte>, len: int, hdrs: seq<ElementHdr>, k: nat, off: nat, acc: seq<DevType<nat>>)
    requires k < |hdrs| && !Past(off, 2, len) && !Shown(hdrs[k].etype)
    ensures DeviceWalk(resp, len, hdrs, k, off, acc) == DeviceWalk(resp, len, hdrs, k + 1, off, acc)
    ensures ShownBefore(hdrs, k + 1) == ShownBefore(hdrs, k) && ShownCount(hdrs, k + 1) == ShownCount(hdrs, k)
  {
  }

  /** A shown type whose records all lie in the buffer leaves the cursor
      at the first record of the next shown type. */
  lemma DeviceAdvance(resp: seq<Byte>, hdrs: seq<ElementHdr>, k: nat, off: nat)
    requires k < |hdrs| && Shown(hdrs[k].etype) && off == DevOffset(resp, ShownCount(hdrs, k))
    ensures var w := DevElements(resp, off, 0, hdrs[k].numElements as nat, []);
      w.ok ==> w.next == DevOffset(resp, ShownCount(hdrs, k + 1))
  {
    var b := ShownCount(hdrs, k);
    var n := hdrs[k].numElements as nat;
    DevElementsCount(resp, b, off, 0, n, []);
    assert ShownCount(hdrs, k + 1) == b + n;
  }

  lemma {:induction false} DeviceWalkPrefix(resp: seq<Byte>, len: int, hdrs: seq<ElementHdr>, k: nat, off: nat,
                                            acc: seq<DevType<nat>>)
    ensures var r := DeviceWalk(resp, len, hdrs, k, off, acc);
      |acc| <= |r.types| && r.types[..|acc|] == acc
    decreases |hdrs| - k
  {
    if k < |hdrs| && !Past(off, 2, len) {
      if !Shown(hdrs[k].etype) {
        DeviceWalkPrefix(resp, len, hdrs, k + 1, off, acc);
      } else {
        DeviceWalkStep(resp, len, hdrs, k, off, acc);
        var e := DevElements(resp, off, 0, hdrs[k].numElements as nat, []);
        var t := DevType(hdrs[k].etype, hdrs[k].seId, e.offs);
        if e.ok {
          DeviceWalkPrefix(resp, len, hdrs, k + 1, e.next, acc + [t]);
          var r := DeviceWalk(resp, len, hdrs, k + 1, e.next, acc + [t]);
          assert r.types[..|acc|] == (r.types[..|acc| + 1])[..|acc|];
        }
      }
    }
  }

  /** Every entry of the walk is a device or array device element type. */
  lemma {:induction false} DeviceWalkShown(resp: seq<Byte>, len: int, hdrs: seq<ElementHdr>, k: nat, off: nat,
                                           acc: seq<DevType<nat>>, i: nat)
    requires forall a :: 0 <= a < |acc| ==> Shown(acc[a].etype)
    requires i < |DeviceWalk(resp, len, hdrs, k, off, acc).types|
    ensures Shown(DeviceWalk(resp, len, hdrs, k, off, acc).types[i].etype)
    decreases |hdrs| - k
  {
    if k < |hdrs| && !Past(off, 2, len) {
      if !Shown(hdrs[k].etype) {
        DeviceWalkShown(resp, len, hdrs, k + 1, off, acc, i);
      } else {
        var e := DevElements(resp, off, 0, hdrs[k].numElements as nat, []);
        var t := DevType(hdrs[k].etype, hdrs[k].seId, e.offs);
        DeviceWalkStep(resp, len, hdrs, k, off, acc);
        if e.ok {
          DeviceWalkShown(resp, len, hdrs, k + 1, e.next, acc + [t], i);
        }
      }
    }
  }

  /** How far the outer loop gets: it returns the header index m where the
      walk stopped.  It completes every type, or fails the 2-byte bounds
      test at type m, or stops inside shown type m at a record that would
      be read beyond the buffer.  The entries are the shown types before
      m, plus m itself in the last case. */
  lemma {:induction false} DeviceWalkStop(resp: seq<Byte>, len: int, hdrs: seq<ElementHdr>, k: nat, off: nat,
                                          acc: seq<DevType<nat>>)
    returns (m: nat)
    requires k <= |hdrs| && |acc| == ShownBefore(hdrs, k) && off == DevOffset(resp, ShownCount(hdrs, k))
    ensures var r := DeviceWalk(resp, len, hdrs, k, off, acc);
      k <= m <= |hdrs| &&
      (r.end == Complete ==> m == |hdrs| && |r.types| == ShownBefore(hdrs, m)) &&
      (r.end == Truncated ==> m < |hdrs| && |r.types| == ShownBefore(hdrs, m) &&
                              Past(DevOffset(resp, ShownCount(hdrs, m)), 2, len)) &&
      (r.end == PastBuffer ==> m < |hdrs| && Shown(hdrs[m].etype) && |r.types| == ShownBefore(hdrs, m) + 1)
    decreases |hdrs| - k
  {
    m := k;
    if k < |hdrs| && !Past(off, 2, len) {
      if !Shown(hdrs[k].etype) {
        m := DeviceWalkStop(resp, len, hdrs, k + 1, off, acc);
      } else {
        DeviceWalkStep(resp, len, hdrs, k, off, acc);
        var e := DevElements(resp, off, 0, hdrs[k].numElements as nat, []);
        var t := DevType(hdrs[k].etype, hdrs[k].seId, e.offs);
        if e.ok {
          DeviceAdvance(resp, hdrs, k, off);
          m := DeviceWalkStop(resp, len, hdrs, k + 1, e.next, acc + [t]);
        }
      }
    }
  }

  /** The entry the outer loop adds for shown type k. */
  lemma DeviceWalkHead(resp: seq<Byte>, len: int, hdrs: seq<ElementHdr>, k: nat, off: nat, acc: seq<DevType<nat>>)
    requires k < |hdrs| && !Past(off, 2, len) && Shown(hdrs[k].etype)
    ensures var r := DeviceWalk(resp, len, hdrs, k, off, acc);
      |acc| < |r.types| &&
      r.types[|acc|] == DevType(hdrs[k].etype, hdrs[k].seId, DevElements(resp, off, 0, hdrs[k].numElements as nat, []).offs)
  {
    DeviceWalkStep(resp, len, hdrs, k, off, acc);
    var e := DevElements(resp, off, 0, hdrs[k].numElements as nat, []);
    var t := DevType(hdrs[k].etype, hdrs[k].seId, e.offs);
    if e.ok {
      DeviceWalkPrefix(resp, len, hdrs, k + 1, e.next, acc + [t]);
      var r := DeviceWalk(resp, len, hdrs, k + 1, e.next, acc + [t]);
      assert r.types[|acc|] == (r.types[..|acc| + 1])[|acc|];
    }
  }

  /** The walk adds an entry only after the cursor passed the bounds test. */
  lemma DeviceWalkGrows(resp: seq<Byte>, len: int, hdrs: seq<ElementHdr>, k: nat, off: nat, acc: seq<DevType<nat>>)
    ensures |acc| < |DeviceWalk(resp, len, hdrs, k, off, acc).types| ==> k < |hdrs| && !Past(off, 2, len)
  {
  }

  /** The entry for shown type j is entry number ShownBefore(j): its
      records start at record ShownCount(j), whose offset passed the
      bounds test. */
  lemma {:induction false} DeviceWalkTypeAt(resp: seq<Byte>, len: int, hdrs: seq<ElementHdr>, k: nat, off: nat,
                                            acc: seq<DevType<nat>>, j: nat)
    requires k <= j < |hdrs| && Shown(hdrs[j].etype)
    requires |acc| == ShownBefore(hdrs, k) && off == DevOffset(resp, ShownCount(hdrs, k))
    requires ShownBefore(hdrs, j) < |DeviceWalk(resp, len, hdrs, k, off, acc).types|
    ensures var r := DeviceWalk(resp, len, hdrs, k, off, acc);
      var o := DevOffset(resp, ShownCount(hdrs, j));
      !Past(o, 2, len) &&
      r.types[ShownBefore(hdrs, j)] ==
        DevType(hdrs[j].etype, hdrs[j].seId, DevElements(resp, o, 0, hdrs[j].numElements as nat, []).offs)
    decreases |hdrs| - k
  {
    ShownBeforeMono(hdrs, k, j);
    DeviceWalkGrows(resp, len, hdrs, k, off, acc);
    if !Shown(hdrs[k].etype) {
      DeviceWalkSkip(resp, len, hdrs, k, off, acc);
      DeviceWalkTypeAt(resp, len, hdrs, k + 1, off, acc, j);
    } else if j == k {
      DeviceWalkHead(resp, len, hdrs, k, off, acc);
    } else {
      ShownBeforeMono(hdrs, k + 1, j);
      DeviceWalkStep(resp, len, hdrs, k, off, acc);
      var e := DevElements(resp, off, 0, hdrs[k].numElements as nat, []);
      var t := DevType(hdrs[k].etype, hdrs[k].seId, e.offs);
      if e.ok {
        DeviceAdvance(resp, hdrs, k, off);
        DeviceWalkTypeAt(resp, len, hdrs, k + 1, e.next, acc + [t], j);
      }
    }
  }

  // ---------------------------------------------------------------------
  // The page

  /** The page is too short only below 4 bytes; otherwise the generation
      code decides between a changed enclosure and a decoded page. */
  lemma DeviceGeneration(hdrs: seq<ElementHdr>, refGen: nat, resp: seq<Byte>, len: int)
    requires IsRespBuffer(resp)
    ensures var p := DeviceRecords(hdrs, refGen, resp, len);
      (p.DevTooShort? <==> len < 4) &&
      (p.DevGenerationChanged? <==> 4 <= len && BE32(resp, 4) != refGen) &&
      (!p.DevTooShort? ==> p.generation == BE32(resp, 4)) &&
      (p.DevDecoded? ==> p.generation == refGen)
  {
  }

  /** Unlike the other status pages, a page of 4 to 7 bytes is not refused:
      the generation code is read from bytes 4..7, and when it matches,
      the first type fails the bounds test (up to 10 bytes). */
  lemma DeviceShortPage(hdrs: seq<ElementHdr>, refGen: nat, resp: seq<Byte>, len: int)
    requires IsRespBuffer(resp) && 4 <= len <= 10 && |hdrs| > 0 && BE32(resp, 4) == refGen
    ensures DeviceRecords(hdrs, refGen, resp, len) == DevDecoded(refGen, [], Truncated)
  {
  }

  /** Why a decoded page ends, with m the header index where it stopped. */
  lemma DeviceEnd(hdrs: seq<ElementHdr>, refGen: nat, resp: seq<Byte>, len: int) returns (m: nat)
    requires IsRespBuffer(resp) && DeviceRecords(hdrs, refGen, resp, len).DevDecoded?
    ensures var p := DeviceRecords(hdrs, refGen, resp, len);
      m <= |hdrs| &&
      (p.end == Complete ==> m == |hdrs| && |p.types| == ShownBefore(hdrs, m)) &&
      (p.end == Truncated ==> m < |hdrs| && |p.types| == ShownBefore(hdrs, m) &&
                              Past(DevOffset(resp, ShownCount(hdrs, m)), 2, len)) &&
      (p.end == PastBuffer ==> m < |hdrs| && Shown(hdrs[m].etype) && |p.types| == ShownBefore(hdrs, m) + 1)
  {
    m := DeviceWalkStop(resp, len, hdrs, 0, 8, []);
  }

  /** Only device and array device element types appear on the page. */
  lemma DeviceTypesShown(hdrs: seq<ElementHdr>, refGen: nat, resp: seq<Byte>, len: int, i: nat)
    requires IsRespBuffer(resp) && DeviceRecords(hdrs, refGen, resp, len).DevDecoded?
    requires i < |DeviceRecords(hdrs, refGen, resp, len).types|
    ensures Shown(DeviceRecords(hdrs, refGen, resp, len).types[i].etype)
  {
    DeviceWalkShown(resp, len, hdrs, 0, 8, [], i);
  }

  /** Shown type j's entry, and its records: record e of it is the page's
      record ShownCount(j) + e, decoded in full inside the buffer, and all
      numElements records are there unless the page ends past the buffer
      at this type. */
  lemma DeviceTypeAt(hdrs: seq<ElementHdr>, refGen: nat, resp: seq<Byte>, len: int, j: nat)
    requires IsRespBuffer(resp) && DeviceRecords(hdrs, refGen, resp, len).DevDecoded?
    requires j < |hdrs| && Shown(hdrs[j].etype)
    requires ShownBefore(hdrs, j) < |DeviceRecords(hdrs, refGen, resp, len).types|
    ensures var p := DeviceRecords(hdrs, refGen, resp, len);
      var t := p.types[ShownBefore(hdrs, j)];
      t.etype == hdrs[j].etype && t.seId == hdrs[j].seId &&
      !Past(DevOffset(resp, ShownCount(hdrs, j)), 2, len) &&
      |t.elements| <= hdrs[j].numElements as nat &&
      (|t.elements| < hdrs[j].numElements as nat ==> p.end == PastBuffer && |p.types| == ShownBefore(hdrs, j) + 1)
  {
    var o := DevOffset(resp, ShownCount(hdrs, j));
    var n := hdrs[j].numElements as nat;
    DeviceWalkTypeAt(resp, len, hdrs, 0, 8, [], j);
    DevElementsCount(resp, ShownCount(hdrs, j), o, 0, n, []);
    var w := DevElements(resp, o, 0, n, []);
    if !w.ok {
      DeviceStopsAt(hdrs, refGen, resp, len, j);
    }
  }

  /** A shown type whose records run past the buffer is the last entry. */
  lemma DeviceStopsAt(hdrs: seq<ElementHdr>, refGen: nat, resp: seq<Byte>, len: int, j: nat)
    requires IsRespBuffer(resp) && DeviceRecords(hdrs, refGen, resp, len).DevDecoded?
    requires j < |hdrs| && Shown(hdrs[j].etype)
    requires ShownBefore(hdrs, j) < |DeviceRecords(hdrs, refGen, resp, len).types|
    requires !DevElements(resp, DevOffset(resp, ShownCount(hdrs, j)), 0, hdrs[j].numElements as nat, []).ok
    ensures var p := DeviceRecords(hdrs, refGen, resp, len);
      p.end == PastBuffer && |p.types| == ShownBefore(hdrs, j) + 1
  {
    DeviceWalkStopsAt(resp, len, hdrs, 0, 8, [], j);
  }

  lemma {:induction false} DeviceWalkStopsAt(resp: seq<Byte>, len: int, hdrs: seq<ElementHdr>, k: nat, off: nat,
                                             acc: seq<DevType<nat>>, j: nat)
    requires k <= j < |hdrs| && Shown(hdrs[j].etype)
    requires |acc| == ShownBefore(hdrs, k) && off == DevOffset(resp, ShownCount(hdrs, k))
    requires ShownBefore(hdrs, j) < |DeviceWalk(resp, len, hdrs, k, off, acc).types|
    requires !DevElements(resp, DevOffset(resp, ShownCount(hdrs, j)), 0, hdrs[j].numElements as nat, []).ok
    ensures var r := DeviceWalk(resp, len, hdrs, k, off, acc);
      r.end == PastBuffer && |r.types| == ShownBefore(hdrs, j) + 1
    decreases |hdrs| - k
  {
    ShownBeforeMono(hdrs, k, j);
    DeviceWalkGrows(resp, len, hdrs, k, off, acc);
    if !Shown(hdrs[k].etype) {
      DeviceWalkSkip(resp, len, hdrs, k, off, acc);
      DeviceWalkStopsAt(resp, len, hdrs, k + 1, off, acc, j);
    } else if j == k {
      DeviceWalkStep(resp, len, hdrs, k, off, acc);
    } else {
      ShownBeforeMono(hdrs, k + 1, j);
      DeviceWalkStep(resp, len, hdrs, k, off, acc);
      var e := DevElements(resp, off, 0, hdrs[k].numElements as nat, []);
      var t := DevType(hdrs[k].etype, hdrs[k].seId, e.offs);
      if e.ok {
        DeviceAdvance(resp, hdrs, k, off);
        DeviceWalkStopsAt(resp, len, hdrs, k + 1, e.next, acc + [t], j);
      }
    }
  }

  /** Record e of shown type j is the page's record ShownCount(j) + e, and
      its whole decoding lies inside the buffer. */
  lemma DeviceRecordAt(hdrs: seq<ElementHdr>, refGen: nat, resp: seq<Byte>, len: int, j: nat, e: nat)
    requires IsRespBuffer(resp) && DeviceRecords(hdrs, refGen, resp, len).DevDecoded?
    requires j < |hdrs| && Shown(hdrs[j].etype)
    requires ShownBefore(hdrs, j) < |DeviceRecords(hdrs, refGen, resp, len).types|
    requires e < |DeviceRecords(hdrs, refGen, resp, len).types[ShownBefore(hdrs, j)].elements|
    ensures var p := DeviceRecords(hdrs, refGen, resp, len);
      var o := DevOffset(resp, ShownCount(hdrs, j) + e);
      p.types[ShownBefore(hdrs, j)].elements[e] == o && o + Extent(resp, o) <= |resp|
  {
    var b := ShownCount(hdrs, j);
    var o := DevOffset(resp, b);
    DeviceWalkTypeAt(resp, len, hdrs, 0, 8, [], j);
    DevElementsAt(resp, b, o, 0, hdrs[j].numElements as nat, [], e);
  }

  /** Record e of shown type j as the page prints it: element number e + 1,
      decoded by TransportOf from the page's record ShownCount(j) + e with
      its own length, every byte of that decoding inside the buffer. */
  lemma DeviceElementAt(hdrs: seq<ElementHdr>, refGen: nat, resp: seq<Byte>, len: int, j: nat, e: nat)
    requires IsRespBuffer(resp) && DeviceRecords(hdrs, refGen, resp, len).DevDecoded?
    requires j < |hdrs| && Shown(hdrs[j].etype)
    requires ShownBefore(hdrs, j) < |DeviceRecords(hdrs, refGen, resp, len).types|
    requires e < |DeviceRecords(hdrs, refGen, resp, len).types[ShownBefore(hdrs, j)].elements|
    ensures var p := ShowDevice(resp, DeviceRecords(hdrs, refGen, resp, len));
      var o := DevOffset(resp, ShownCount(hdrs, j) + e);
      p.DevDecoded? && ShownBefore(hdrs, j) < |p.types| &&
      e < |p.types[ShownBefore(hdrs, j)].elements| &&
      p.types[ShownBefore(hdrs, j)].elements[e] == TransportOf(resp, o, DevRecLen(resp, o), e) &&
      p.types[ShownBefore(hdrs, j)].elements[e].number == e + 1 &&
      o + Extent(resp, o) <= |resp|
  {
    DeviceRecordAt(hdrs, refGen, resp, len, j, e);
    ShowDeviceAt(resp, DeviceRecords(hdrs, refGen, resp, len), ShownBefore(hdrs, j), e);
  }

  /** Decoding keeps the shape of the page and decodes each record with
      its own length. */
  lemma ShowDeviceAt(resp: seq<Byte>, p: DevicePage<nat>, i: nat, e: nat)
    requires p.DevDecoded? && i < |p.types| && e < |p.types[i].elements|
    ensures var q := ShowDevice(resp, p);
      var o := p.types[i].elements[e];
      q.DevDecoded? && q.generation == p.generation && q.end == p.end && |q.types| == |p.types| &&
      q.types[i].etype == p.types[i].etype && q.types[i].seId == p.types[i].seId &&
      |q.types[i].elements| == |p.types[i].elements| &&
      q.types[i].elements[e] == TransportOf(resp, o, DevRecLen(resp, o), e)
  {
  }
}
