/** The static catalogs of sg_ses: diagnostic page names, element type
    names and the small description tables indexed by decoded fields. */
module Catalog {

  import opened Bytes

  datatype Entry = Entry(code: nat, desc: string)

  /** Diagnostic page codes and their names, sorted by code. */
  const PageCodeTable: seq<Entry> := [
    Entry(0x0, "Supported diagnostic pages"),
    Entry(0x1, "Configuration (SES)"),
    Entry(0x2, "Enclosure status/control (SES)"),
    Entry(0x3, "Help text (SES)"),
    Entry(0x4, "String In/Out (SES)"),
    Entry(0x5, "Threshold In/Out (SES)"),
    Entry(0x6, "Array Status/Control (SES, obsolete)"),
    Entry(0x7, "Element descriptor (SES)"),
    Entry(0x8, "Short enclosure status (SES)"),
    Entry(0x9, "Enclosure busy (SES-2)"),
    Entry(0xa, "Device element status (SES-2)"),
    Entry(0xb, "Subenclosure help text (SES-2)"),
    Entry(0xc, "Subenclosure string In/Out (SES-2)"),
    Entry(0xd, "Supported SES diagnostic pages (SES-2)"),
    Entry(0x3f, "Protocol specific SAS (SAS-1)"),
    Entry(0x40, "Translate address (SBC)"),
    Entry(0x41, "Device status (SBC)")
  ]

  /** Element type codes and their names, sorted by code. */
  const ElementTable: seq<Entry> := [
    Entry(0x0, "Unspecified"),
    Entry(0x1, "Device"),
    Entry(0x2, "Power supply"),
    Entry(0x3, "Cooling"),
    Entry(0x4, "Temperature sense"),
    Entry(0x5, "Door lock"),
    Entry(0x6, "Audible alarm"),
    Entry(0x7, "Enclosure service controller electronics"),
    Entry(0x8, "SCC controller electronics"),
    Entry(0x9, "Nonvolatile cache"),
    Entry(0xa, "Invalid operation reason"),
    Entry(0xb, "Uninterruptible power supply"),
    Entry(0xc, "Display"),
    Entry(0xd, "Key pad entry"),
    Entry(0xe, "Enclosure"),
    Entry(0xf, "SCSI port/transceiver"),
    Entry(0x10, "Language"),
    Entry(0x11, "Communication port"),
    Entry(0x12, "Voltage sensor"),
    Entry(0x13, "Current sensor"),
    Entry(0x14, "SCSI target port"),
    Entry(0x15, "SCSI initiator port"),
    Entry(0x16, "Simple subenclosure"),
    Entry(0x17, "Array device")
  ]

  /** Element status code names, indexed by the low nibble of byte 0. */
  const StatusDesc: seq<string> := [
    "Unsupported", "OK", "Critical", "Non-critical",
    "Unrecoverable", "Not installed", "Unknown", "Not available",
    "reserved [8]", "reserved [9]", "reserved [10]", "reserved [11]",
    "reserved [12]", "reserved [13]", "reserved [14]", "reserved [15]"
  ]

  /** Cooling element actual speed descriptions, indexed by byte 3 bits 2..0. */
  const ActualSpeedDesc: seq<string> := [
    "stopped", "at lowest speed", "at second lowest speed",
    "at third lowest speed", "at intermediate speed",
    "at third highest speed", "at second highest speed", "at highest speed"
  ]

  /** Non-volatile cache size units, indexed by byte 1 bits 1..0. */
  const NvCacheUnit: seq<string> := ["Bytes", "KiB", "MiB", "GiB"]

  /** Invalid operation reason types, indexed by byte 1 bits 7..6. */
  const InvopTypeDesc: seq<string> := [
    "SEND DIAGNOSTIC page code error", "SEND DIAGNOSTIC page format error",
    "Reserved", "Vendor specific error"
  ]

  /** Transport protocol names, indexed by the protocol identifier nibble. */
  const TransportProtoDesc: seq<string> := [
    "Fibre Channel (FCP-2)",
    "Parallel SCSI (SPI-5)",
    "SSA (SSA-S3P)",
    "IEEE 1394 (SBP-3)",
    "Remote Direct Memory Access (RDMA)",
    "Internet SCSI (iSCSI)",
    "Serial Attached SCSI (SAS)",
    "Automation/Drive Interface Transport Protocol (ADT)",
    "ATA Packet Interface (ATA/ATAPI-7)",
    "Ox9", "Oxa", "Oxb", "Oxc", "Oxd", "Oxe",
    "No specific protocol"
  ]

  /** SAS attached device types, indexed by bits 6..4 of a phy descriptor's byte 4. */
  const SasDeviceType: seq<string> := [
    "no device attached",
    "end device",
    "edge expander device",
    "fanout expander device",
    "reserved [4]", "reserved [5]", "reserved [6]", "reserved [7]"
  ]

  /** Codes strictly increase along the table. */
  ghost predicate StrictlySorted(t: seq<Entry>) {
    forall i, j :: 0 <= i < j < |t| ==> t[i].code < t[j].code
  }

  /** The catalog search: walk the table in order, answer on an exact
      match, give up as soon as an entry's code exceeds the one wanted. */
  function Lookup(t: seq<Entry>, code: nat): Option<string> {
    if t == [] then None
    else if code == t[0].code then Some(t[0].desc)
    else if code < t[0].code then None
    else Lookup(t[1..], code)
  }

  /** On a sorted table the early exit loses nothing: the search finds a
      description exactly when the table has an entry with that code, and
      the description it finds is that entry's. */
  lemma {:induction false} LookupSorted(t: seq<Entry>, code: nat)
    requires StrictlySorted(t)
    ensures Lookup(t, code).Some? <==> exists i :: 0 <= i < |t| && t[i].code == code
    ensures forall i :: 0 <= i < |t| && t[i].code == code ==> Lookup(t, code) == Some(t[i].desc)
  {
    if t != [] {
      assert StrictlySorted(t[1..]) by {
        forall i, j | 0 <= i < j < |t[1..]| ensures t[1..][i].code < t[1..][j].code {
          assert t[1..][i] == t[i + 1] && t[1..][j] == t[j + 1];
        }
      }
      LookupSorted(t[1..], code);
      if code == t[0].code {
      } else if code < t[0].code {
        forall i | 0 <= i < |t| ensures t[i].code != code {
          if i > 0 { assert t[0].code < t[i].code; }
        }
      } else {
        forall i | 0 <= i < |t| && t[i].code == code ensures i > 0 && t[1..][i - 1] == t[i] {
        }
        forall i | 0 <= i < |t[1..]| && t[1..][i].code == code ensures 0 <= i + 1 < |t| && t[i + 1].code == code {
        }
      }
    }
  }

  lemma PageCodeTableSorted()
    ensures StrictlySorted(PageCodeTable)
  {
  }

  /** Element type codes are their own positions in the table. */
  lemma ElementTableIndexed()
    ensures |ElementTable| == 0x18
    ensures forall i :: 0 <= i < |ElementTable| ==> ElementTable[i].code == i
  {
  }

  lemma ElementTableSorted()
    ensures StrictlySorted(ElementTable)
  {
    ElementTableIndexed();
  }

  /** find_page_code_desc / find_element_desc: the table walk with its early exit. */
  method FindDesc(t: seq<Entry>, code: nat) returns (r: Option<string>)
    ensures r == Lookup(t, code)
  {
    var k := 0;
    while k < |t|
      invariant 0 <= k <= |t|
      invariant Lookup(t[k..], code) == Lookup(t, code)
    {
      assert t[k..][1..] == t[k + 1..];
      if code == t[k].code {
        return Some(t[k].desc);
      } else if code < t[k].code {
        return None;
      }
      k := k + 1;
    }
    r := None;
  }

  method FindPageCodeDesc(pageNum: nat) returns (r: Option<string>)
    ensures r.Some? <==> exists i :: 0 <= i < |PageCodeTable| && PageCodeTable[i].code == pageNum
    ensures forall i :: 0 <= i < |PageCodeTable| && PageCodeTable[i].code == pageNum ==> r == Some(PageCodeTable[i].desc)
  {
    r := FindDesc(PageCodeTable, pageNum);
    PageCodeTableSorted();
    LookupSorted(PageCodeTable, pageNum);
  }

  /** The description of an element type code: the table entry at that
      position, for the codes the table covers. */
  function ElementName(code: nat): Option<string> {
    if code < |ElementTable| then Some(ElementTable[code].desc) else None
  }

  /** ElementName is what the table search finds. */
  lemma ElementNameIsLookup(code: nat)
    ensures ElementName(code) == Lookup(ElementTable, code)
  {
    ElementTableSorted();
    LookupSorted(ElementTable, code);
    ElementTableIndexed();
    if code < 0x18 {
      assert ElementTable[code].code == code;
    } else {
      assert forall i :: 0 <= i < |ElementTable| ==> ElementTable[i].code != code;
    }
  }

  method FindElementDesc(typeCode: nat) returns (r: Option<string>)
    ensures r.Some? <==> typeCode < 0x18
    ensures r == ElementName(typeCode)
  {
    r := FindDesc(ElementTable, typeCode);
    ElementNameIsLookup(typeCode);
    ElementTableIndexed();
  }
}
