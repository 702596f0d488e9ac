# sg_ses: SES diagnostic page decoding and control page encoding

A Dafny model of the core of `sg_ses`. This utility reads and writes the
diagnostic pages of a SCSI Enclosure Services (SES, SES-2) device. Each
received page is a 4096-byte response buffer (`MX_ALLOC_LEN`). The model
takes that buffer as a `seq<Byte>` and returns structured values where the
utility prints.

Modules, one per file:

- `Bytes` (bytes.dfy): the byte vocabulary shared by the decoders. It has
  - big-endian 16- and 32-bit fields;
  - the cursor bounds test `ucp + w > last_ucp` shared by every walker, which
    is one byte stricter than "fits in the page";
  - 4-byte records with byte masks;
  - the `Range` a length field gives to the text that `%.*s` or `dStrHex`
    shows; it is not clipped at a zero byte or at the buffer's end.
- `Framing` (framing.dfy): the effective response length and the page code
  check, which gives busy, short-status-only or invalid.
- `Catalog` (catalog.dfy): the page code and element type tables, their
  sorted-table search with its early exit, and the small description tables.
- `Config` (config.dfy):
  - `populate_element_hdr_arr`, which fills a caller-passed 512-slot array
    of type headers in place;
  - `ses_configuration_sdg`, which moves two cursors, one over the
    descriptors and one over the description texts.
- `ElementStatus` (element_status.dfy): `print_over_elem_status`, the
  decoding of one 4-byte element status record for the 24 element types,
  with the `--filter` rule for each printed line of flags.
- `Threshold` (threshold.dfy): `reserved_or_num` and `ses_threshold_helper`.
- `StatusPages` (status_pages.dfy): the enclosure status, threshold and
  element descriptor pages. All three use one cursor loop, checked only at
  each type's overall record, and all three check the generation code.
- `DeviceElement` (device_element.dfy): the device element status page and
  `ses_transport_proto`, which handles Fibre Channel ports, SAS phys and
  other protocols.
- `SubencPages` (subenc_pages.dfy): the subenclosure help text and string
  pages, and the supported diagnostic pages list.
- `Control` (control.dfy):
  - the command-line branch of `read_hex`, which writes the data array in
    place;
  - the control page `main` assembles and sends for pages 2, 4, 5, 6
    and 0xc.

Each loop of the source is a `method` with a `while` loop. It is proved
equal to a recursive reference function, which takes an accumulator. The
lemmas about that reference function state what the loop computes: the
offsets, the counts, why it stops and the round trips. The per-record
decoders of the source are pure, and so are their models. Those decoders
are paired with encoders. Round-trip lemmas show that decoding keeps every
bit the element type defines and nothing else.

Some behaviour of the source is modelled as written:

- The bounds test is off by one.
- Element records inside a type are read without any test against the page
  length. The record walkers of the status pages and of the device element
  page stop with `PastBuffer` only where the C code would read a record
  field beyond the 4096-byte buffer. Their text ranges are an exception, and
  so is the configuration page, which has no `PastBuffer` at all; both are
  listed under "Left out".
- The device element page reads its generation code without a `resp_len < 8`
  check.
- The subenclosure pages read the generation code but never compare it.
- Every SAS phy is labelled `phys + 1`.
- `read_hex` reports a length of 1025 when a comma follows the 1024th token.
- The `--filter` guard of the device element's second line does not test
  its Ident bit.

## Model

| member | source | states |
|---|---|---|
| Bytes.BE16 | sg_ses.c:422-427 | a two-byte big-endian field is below 65536, with the high byte as its quotient by 256 and the low byte as its remainder |
| Bytes.BE32 | sg_ses.c:772-773 | the generation code is below 2^32 and splits into the big-endian fields of bytes 4..5 and 6..7 |
| Bytes.RecAt | sg_ses.c:511-513 | the 4-byte record at an offset holds exactly the buffer's bytes there |
| Bytes.AndSingle | sg_ses.c:521-539 | masking a record with a one-byte mask keeps that byte under the mask and clears the other three |
| Bytes.OrOfMasks | sg_ses.c:521-539 | OR-ing two masked copies of a record equals masking it with the OR of the masks, as the OR-ed byte tests of a filter guard do |
| Framing.EffectiveLen | sg_ses.c:422-427 | the response length is the page length field plus 4, cut to 4096 when larger, so it always lies in 4..4096 |
| Framing.CheckPageCode | sg_ses.c:428-437 | a page is wanted iff its code matches; otherwise it is busy iff code 9 with bit 0 of byte 1 set, short status iff code 8 (carrying byte 1), and invalid in every other case (carrying the code) |
| Catalog.LookupSorted | sg_ses.c:271-284 | on a strictly sorted table the search with its early exit finds a description iff an entry has the code, and it is that entry's |
| Catalog.PageCodeTableSorted | sg_ses.c:251-269 | the page code table is strictly sorted |
| Catalog.ElementTableIndexed | sg_ses.c:290-315 | the element type table has 24 entries, each at the position of its own code |
| Catalog.ElementTableSorted | sg_ses.c:290-315 | the element type table is strictly sorted |
| Catalog.FindDesc | sg_ses.c:271-284 | the table walk returns what the search function gives |
| Catalog.FindPageCodeDesc | sg_ses.c:271-284 | find_page_code_desc finds a name iff the table lists the page code, and it is that entry's name |
| Catalog.ElementNameIsLookup | sg_ses.c:317-330 | an element type's name is what the sorted-table search finds |
| Catalog.FindElementDesc | sg_ses.c:317-330 | find_element_desc finds a name iff the code is below 0x18, and it is the table entry at that position |
| Config.FitCount | sg_ses.c:460-463 | a 4-byte record k from a start passes the bounds test iff k is below the count |
| Config.HdrWalk | sg_ses.c:460-471 | the header copy loop never stores more than 512 headers |
| Config.PopulateSpec | sg_ses.c:411-480 | populate never writes more than 512 slots |
| Config.SkipSubencs | sg_ses.c:449-459 | the first loop of populate agrees with the descriptor walk on whether every descriptor fits, where it ends and the type count it sums |
| Config.CopyHeaders | sg_ses.c:460-471 | the second loop stores header k from bytes 0..2 of the k-th type header with unused 0, leaves every later slot untouched and fails as the reference walk does |
| Config.PopulateElementHdrArr | sg_ses.c:411-480 | populate_element_hdr_arr returns the count or the reason for -1, plus the generation code; every slot below the count of written headers holds its header and every later slot is untouched |
| Config.LayoutStep | sg_ses.c:449-459 | each enclosure descriptor is 4 + byte 3 long and adds its byte 2 to the type count |
| Config.SubencWalkLayout | sg_ses.c:449-459 | a descriptor walk in which every descriptor fits ends where the type headers start, having summed byte 2 of each |
| Config.SubencWalkCount | sg_ses.c:362-384 | the descriptor walk decodes all descriptors or stops at the first that fails the bounds test |
| Config.SubencWalkPrefix | sg_ses.c:362-384 | the descriptor walk keeps the descriptors already decoded |
| Config.SubencWalkDescAt | sg_ses.c:362-384 | descriptor j of the walk is the one at its layout offset, and it passed the bounds test |
| Config.PageWalkFits | sg_ses.c:449-459 | the walk succeeds iff every descriptor passes the bounds test, and then ends at the type headers with the sum of the descriptors' byte 2 |
| Config.HdrWalkResult | sg_ses.c:460-471 | the copy loop stores min(total, records that fit, 512) headers; it succeeds iff all fit and there are at most 512, fails short iff the page ends first, and fails for too many iff slot 512 is reached first |
| Config.PopulateSucceeds | sg_ses.c:428-472 | populate succeeds iff the page is page 1, every descriptor and type header fits and there are at most 512 types; the count is then the sum of byte 2 over the resp[1]+1 descriptors, with that many headers written |
| Config.PopulateFails | sg_ses.c:428-466 | populate returns -1 as not-the-config-page iff resp[0] != 1, as too short iff a descriptor or a type header fails the bounds test first, and as too many iff a 513th header would be written |
| Config.PopulateGeneration | sg_ses.c:444-447 | the generation code is reported iff the page is page 1, and it is bytes 4..7; any other page writes no slot |
| Config.TypeWalkCount | sg_ses.c:386-404 | the type walk adds at most one descriptor per header, and all of them when it completes |
| Config.TypeWalkTruncation | sg_ses.c:386-404 | a truncated type walk stops at a header that fails the bounds test, or right after a header with text whose text cursor fails it |
| Config.TypeWalkPrefix | sg_ses.c:386-404 | the type walk keeps the descriptors already decoded |
| Config.TypeWalkEntryAt | sg_ses.c:386-404 | type descriptor j is its header at start + 4j, with its text at the text cursor when it has any, and it passed the bounds test |
| Config.ConfigSubencs | sg_ses.c:341-384 | the configuration page reports byte 1 and the generation code, then the enclosure descriptors at their layout offsets, in order; it reports all of them iff all fit, and otherwise no type descriptor and a truncated end |
| Config.TypeWalkFromStartCount | sg_ses.c:386-404 | from the first header, the type walk reports at most total descriptors, and all of them when it completes |
| Config.TypeWalkFromStartTruncation | sg_ses.c:386-404 | from the first header, a truncated walk stops at a header that fails the test or after a text cursor that does |
| Config.TypeWalkFromStartEntries | sg_ses.c:386-404 | every type descriptor reported is the one at its index, and it passed the bounds test |
| Config.ConfigTypes | sg_ses.c:386-404 | when the enclosure descriptors fit, the type descriptors are those of the walk over TypeTotal headers from TypesStart |
| Config.DecodeSubencs | sg_ses.c:362-384 | the first loop of ses_configuration_sdg decodes the descriptors of the reference walk, with its end and its sum |
| Config.DecodeTypes | sg_ses.c:386-404 | the second loop decodes the type descriptors and texts of the reference walk |
| Config.ConfigurationSdg | sg_ses.c:341-409 | ses_configuration_sdg decodes the page as the reference definition does |
| ElementStatus.FlagValues | sg_ses.c:519-540 | each decoded flag is named after its table entry and is set iff its bit is set in the record |
| ElementStatus.ShowGroup | sg_ses.c:521-553 | a line of flags is shown iff the filter is off or a bit under its guard is set, and then it holds the record's flags |
| ElementStatus.ShowGroups | sg_ses.c:519-744 | every line of flags of an element type is shown by the filter rule |
| ElementStatus.Signed16 | sg_ses.c:680-696 | a 16-bit sensor value read as two's complement lies in -32768..32767 and gives the unsigned value back |
| ElementStatus.LanguageCode | sg_ses.c:671-674 | the printed language code has at most two characters and stops at a zero byte |
| ElementStatus.OverElemStatus | sg_ses.c:505-750 | the status code is b0 & 0xf, below 16, and names its StatusDesc entry; predicted failure is b0 & 0x40 and swap is b0 & 0x10; each line of flags of the element type is shown iff the filter rule allows, with the record's flags |
| ElementStatus.EncodeFlagValues | sg_ses.c:519-744 | encoding a decoded line of one-bit flags gives back exactly the record's bits under the line's mask |
| ElementStatus.EncodeShownGroups | sg_ses.c:519-744 | with the filter off, encoding all decoded lines gives back the record's bits under the masks of all lines |
| ElementStatus.TableFlagsAreBits | sg_ses.c:519-744 | every flag of every element type names exactly one bit |
| ElementStatus.CommonRoundTrip | sg_ses.c:511-513 | the common prefix encodes back to bits 0x5f of byte 0 |
| ElementStatus.FanSpeedRoundTrip | sg_ses.c:555-565 | the cooling element's speed fields encode back to the bits they were read from |
| ElementStatus.TemperatureRoundTrip | sg_ses.c:570-573 | the temperature field encodes back to byte 2 |
| ElementStatus.NvCacheRoundTrip | sg_ses.c:600-607 | the non-volatile cache size and unit encode back to the bits they were read from |
| ElementStatus.InvopRoundTrip | sg_ses.c:608-627 | each kind of invalid operation reason encodes back to the bits it was read from |
| ElementStatus.InvopOtherReason | sg_ses.c:620-626 | invalid operation types 2 and 3 report bytes 1..3 as they are |
| ElementStatus.SensorRoundTrip | sg_ses.c:680-696 | voltage and current values encode back to bytes 2..3 |
| ElementStatus.LanguageCodeBack | sg_ses.c:671-674 | the printed language code is empty iff byte 2 is zero, and it gives back byte 2 and, when that is printed, byte 3 |
| ElementStatus.LanguageRoundTrip | sg_ses.c:671-674 | the language element's fields encode back to the bits they were read from |
| ElementStatus.DetailRoundTrip | sg_ses.c:505-750 | the non-flag fields of every element type encode back to the record bits they were read from |
| ElementStatus.RoundTrip | sg_ses.c:505-750 | with the filter off, encoding the decoded status reproduces every bit the element type defines and nothing else |
| ElementStatus.AnyOnMask | sg_ses.c:521-553 | some flag of a line is set iff the record has a bit under the line's mask |
| ElementStatus.GuardsMatchFlags | sg_ses.c:519-744 | the guard of every line of flags tests exactly the bits the line reports, except the device element's second line |
| ElementStatus.FilterHidesQuietLines | sg_ses.c:521-553 | under --filter a line is hidden iff all its flags are clear, for every line except the device element's second |
| ElementStatus.FilterHidesDeviceIdent | sg_ses.c:527-532 | a device element whose only set bit in its second line is Ident has that line hidden by --filter |
| ElementStatus.FanSpeedRange | sg_ses.c:560-562 | the fan speed is a multiple of 10, at most 10230, read from byte 1 bits 1..0 and byte 2 |
| ElementStatus.FanSpeedExample | sg_ses.c:560-563 | the bytes 01 2c with speed code 7 decode as 3000 rpm "at highest speed" |
| ElementStatus.TemperatureRange | sg_ses.c:570-573 | the temperature is reserved iff byte 2 is 0, and otherwise is byte 2 less 20, between -19 and 235 |
| Threshold.ReservedOrNum | sg_ses.c:814-824 | the value is the reserved marker iff it equals the reserved number, and otherwise is the number itself |
| Threshold.TemperatureLimit | sg_ses.c:843-850 | a temperature threshold byte shows as reserved iff it is 0, and otherwise as the byte less 20 |
| Threshold.UpsLimit | sg_ses.c:851-862 | a UPS threshold byte shows as vendor specific iff it is 0, and otherwise as its value in minutes |
| Threshold.ThresholdHelper | sg_ses.c:826-877 | a negative element number labels the overall threshold and any other labels element number + 1; with inner hex only the raw record is produced, and otherwise the limits of the element type |
| Threshold.TemperatureByteBack | sg_ses.c:843-850 | a temperature limit encodes back to its byte |
| Threshold.UpsByteBack | sg_ses.c:851-862 | a UPS limit encodes back to its byte |
| Threshold.TemperatureRoundTrip | sg_ses.c:843-850 | the four temperature limits encode back to the whole record |
| Threshold.UpsRoundTrip | sg_ses.c:851-862 | the two UPS limits encode back to bytes 2..3 |
| Threshold.VoltageRoundTrip | sg_ses.c:863-868 | the four voltage limits, in half percent, encode back to the whole record |
| Threshold.CurrentRoundTrip | sg_ses.c:869-873 | the two current limits encode back to bytes 0..1 |
| Threshold.LimitsRoundTrip | sg_ses.c:842-876 | the limits of any element type encode back to exactly the bytes that type defines |
| Threshold.ThresholdRoundTrip | sg_ses.c:826-877 | the helper's output encodes back to the whole record with inner hex, and otherwise to the bytes the element type defines |
| StatusPages.WalkSlots | sg_ses.c:780-807 | the cursor loops shared by the three status-type decoders compute the reference walk |
| StatusPages.SlotOffsetStep | sg_ses.c:951-974 | each record starts where the previous one ends |
| StatusPages.ElementSlotsCount | sg_ses.c:798-806 | the inner loop reads all n element records, or stops at a record that would leave the buffer |
| StatusPages.ElementSlotsPrefix | sg_ses.c:798-806 | the inner loop keeps the offsets already read |
| StatusPages.ElementSlotsAt | sg_ses.c:798-806 | element record e is the page's record base + e and lies inside the buffer |
| StatusPages.ElementSlotsHead | sg_ses.c:798-806 | the inner loop's first record is the one at its cursor |
| StatusPages.InnerWalkCount | sg_ses.c:798-806 | a completed inner walk reads n records and leaves the cursor n + 1 records after the overall record |
| StatusPages.InnerWalkStops | sg_ses.c:798-806 | an inner walk that stops early stops at a record that would leave the buffer |
| StatusPages.InnerWalkAt | sg_ses.c:798-806 | element e of a type is the record e + 1 after its overall record |
| StatusPages.AdvanceType | sg_ses.c:781-807 | a completed inner walk leaves the cursor at the next type's overall record |
| StatusPages.SlotWalkStep | sg_ses.c:781-807 | one step of the outer loop adds a type and goes on, or ends past the buffer |
| StatusPages.SlotWalkPrefix | sg_ses.c:781-807 | the outer loop keeps the types already decoded |
| StatusPages.SlotWalkCount | sg_ses.c:781-807 | the outer loop completes every type, or stops at an overall record that fails the bounds test, or ends past the buffer after at least one type |
| StatusPages.SlotWalkGrows | sg_ses.c:781-783 | a type is added only when its overall record passes the bounds test |
| StatusPages.SlotWalkHead | sg_ses.c:781-807 | the entry added for type k has its header fields, its overall record at the cursor and the offsets of the inner walk |
| StatusPages.SlotWalkHeadOk | sg_ses.c:781-807 | type k's inner walk completed iff the walk went past it or did not end past the buffer |
| StatusPages.SlotWalkTypeAt | sg_ses.c:781-807 | type j's overall record is record SlotCount(j), which passed the bounds test, followed by its inner walk |
| StatusPages.SlotWalkTypeOk | sg_ses.c:781-807 | type j's inner walk completed iff the walk went past it or did not end past the buffer |
| StatusPages.WalkEnd | sg_ses.c:780-807 | the walk from byte 8 completes all types, or is truncated at an overall record that fails the bounds test, or ends past the buffer |
| StatusPages.WalkPastBuffer | sg_ses.c:798-806 | a walk ending past the buffer ends at an element record, never tested against the page length, that would be read beyond the buffer |
| StatusPages.WalkTypeAt | sg_ses.c:781-797 | each type reported carries its header fields, its overall record at record SlotCount(j) and a bounds test passed there |
| StatusPages.WalkTypeElements | sg_ses.c:798-806 | a type shows all its element records iff the walk went past it or did not end past the buffer |
| StatusPages.WalkElementAt | sg_ses.c:798-806 | element e of type j is record SlotCount(j) + 1 + e, inside the buffer |
| StatusPages.FixedSlotOffset | sg_ses.c:780-807 | on the status and threshold pages record r starts at 8 + 4r |
| StatusPages.InnerRecordsUnchecked | sg_ses.c:798-806 | a 13-byte page with one type of three elements is decoded in full, with records read at 12, 16 and 20 |
| StatusPages.Records | sg_ses.c:772-779 | records are decoded iff the generation code in bytes 4..7 equals the reference, and the page otherwise reports the changed generation code |
| StatusPages.RecordsEnd | sg_ses.c:780-807 | a decoded page ends as its walk does |
| StatusPages.MapPageShape | sg_ses.c:791-805 | showing the records keeps the outcome, the header, the generation code, the number of types and the end |
| StatusPages.MapPageAt | sg_ses.c:791-797 | showing the records shows each overall record in place as element -1 |
| StatusPages.MapPageElementAt | sg_ses.c:798-806 | showing the records shows element e in place as element e |
| StatusPages.Rec4AtInside | sg_ses.c:791-805 | inside the buffer the record read is the buffer's four bytes |
| StatusPages.EnclosureFlagsRoundTrip | sg_ses.c:766-768 | the five enclosure status flags are exactly the low five bits of byte 1 |
| StatusPages.FixedPageGeneration | sg_ses.c:764-779 | the enclosure status and threshold pages show nothing below 4 bytes and only the header flags below 8; at 8 bytes or more they report a changed generation code iff it differs from the reference, before reading any record |
| StatusPages.FixedPageOverallAt | sg_ses.c:780-807 | type j's overall record is the 4 bytes at 8 + 4·SlotCount(j), which pass the bounds test, and the type shows all its elements unless the page ends past the buffer there |
| StatusPages.FixedPageElementAt | sg_ses.c:798-806 | element e of type j is the 4 bytes at 8 + 4·(SlotCount(j) + 1 + e), inside the buffer |
| StatusPages.EnclosureSdg | sg_ses.c:752-812 | ses_enclosure_sdg shows each record the walk finds, as raw hex or as print_over_elem_status decodes it |
| StatusPages.ThresholdSdg | sg_ses.c:879-925 | ses_threshold_sdg shows each record the walk finds as ses_threshold_helper does |
| StatusPages.ThresholdLabels | sg_ses.c:905-920 | threshold line e of a type is labelled element e + 1, and its overall line is the overall threshold |
| StatusPages.ElementDescSdg | sg_ses.c:927-980 | ses_element_desc_sdg shows each descriptor the walk finds as its text, or empty |
| StatusPages.ElementDescGeneration | sg_ses.c:937-950 | the element descriptor page shows nothing below 8 bytes, never a header alone, and reports a changed generation code iff it differs from the reference |
| StatusPages.DescriptorAdvance | sg_ses.c:951-974 | a descriptor is empty iff its length field is zero, its text runs from after its 4-byte header, and the next descriptor starts after BE16(bytes 2..3) + 4 bytes |
| StatusPages.ElementDescOverallAt | sg_ses.c:951-974 | type j's overall descriptor is record SlotCount(j) and passed the bounds test |
| StatusPages.ElementDescElementAt | sg_ses.c:965-973 | element e's descriptor is record SlotCount(j) + 1 + e, with its header inside the buffer |
| DeviceElement.Extent | sg_ses.c:1004-1063 | the bytes read for a record include at least the 2-byte head the walk reads for its length |
| DeviceElement.TransportProto | sg_ses.c:1004-1063 | ses_transport_proto decodes the record as the reference decoding does |
| DeviceElement.FcpPorts | sg_ses.c:1011-1030 | the Fibre Channel loop reads byte 2 ports of 16 bytes each, starting 12 bytes into the record |
| DeviceElement.SasPhys | sg_ses.c:1031-1056 | the SAS loop reads byte 2 phys of 28 bytes each, starting 4 bytes into the record, all labelled phys + 1 |
| DeviceElement.TableIndices | sg_ses.c:1004-1056 | the SAS device type field always indexes the 8-entry table, and the protocol nibble the 16-entry one |
| DeviceElement.FcpPortInside | sg_ses.c:1011-1030 | Fibre Channel port j is the 16 bytes at 12 + 16j, inside the extent the decoder reads, and the last port's name ends it |
| DeviceElement.FcpNoPorts | sg_ses.c:1011-1018 | a Fibre Channel record without ports shows only its node name, which ends the extent read |
| DeviceElement.SasPhyInside | sg_ses.c:1031-1056 | SAS phy j starts at 4 + 28j and is labelled phys + 1; its bytes up to the phy identifier at +24 lie inside the extent read, and the last phy's identifier is the extent's last byte |
| DeviceElement.SasNoPhys | sg_ses.c:1031-1036 | a SAS record without phys shows only its not-all-phys bit and is read for 4 bytes |
| DeviceElement.NotDecodedInside | sg_ses.c:1057-1061 | any other protocol is dumped from byte 4 to the end of the record, which is exactly the extent read when the dump has bytes; otherwise only the 2-byte head is read |
| DeviceElement.DeviceElemSdg | sg_ses.c:1065-1110 | ses_device_elem_sdg decodes each record of the reference walk with its own length |
| DeviceElement.DeviceElems | sg_ses.c:1101-1104 | the inner loop visits the records of the reference walk and decodes each one |
| DeviceElement.ShowElemsAppend | sg_ses.c:1101-1104 | decoding one more record appends its decoding, numbered by its position |
| DeviceElement.DevOffsetStep | sg_ses.c:1101-1102 | each record is byte 1 + 2 long |
| DeviceElement.DevElementsCount | sg_ses.c:1101-1104 | a type's inner loop reads all its records, or stops at a record whose decoding would read beyond the buffer |
| DeviceElement.DevElementsPrefix | sg_ses.c:1101-1104 | the inner loop keeps the offsets already read |
| DeviceElement.DevElementsAt | sg_ses.c:1101-1104 | record e of a type is the page's record base + e, and its whole decoding lies inside the buffer |
| DeviceElement.ShownBeforeMono | sg_ses.c:1088-1105 | the number of shown types never decreases along the headers |
| DeviceElement.DeviceWalkStep | sg_ses.c:1088-1105 | one step of the outer loop over a device or array device type |
| DeviceElement.DeviceWalkSkip | sg_ses.c:1091-1093 | a type other than device or array device is skipped without moving the cursor |
| DeviceElement.DeviceAdvance | sg_ses.c:1088-1105 | a shown type whose records fit leaves the cursor at the next shown type's first record |
| DeviceElement.DeviceWalkPrefix | sg_ses.c:1088-1105 | the outer loop keeps the types already decoded |
| DeviceElement.DeviceWalkShown | sg_ses.c:1091-1093 | every entry of the walk is a device or array device type |
| DeviceElement.DeviceWalkStop | sg_ses.c:1088-1105 | the outer loop completes, or fails the 2-byte bounds test at type m, or stops inside shown type m past the buffer; the entries are the shown types before m, plus m in the last case |
| DeviceElement.DeviceWalkHead | sg_ses.c:1088-1105 | the entry added for a shown type has its header fields and the offsets of its records |
| DeviceElement.DeviceWalkGrows | sg_ses.c:1089-1090 | an entry is added only after the cursor passed the bounds test |
| DeviceElement.DeviceWalkTypeAt | sg_ses.c:1088-1105 | shown type j is entry ShownBefore(j), and its records start at record ShownCount(j), which passed the bounds test |
| DeviceElement.DeviceGeneration | sg_ses.c:1075-1086 | the page is too short only below 4 bytes; otherwise it reports a changed generation code iff bytes 4..7 differ from the reference, before reading any record |
| DeviceElement.DeviceShortPage | sg_ses.c:1075-1090 | a page of 4 to 10 bytes with the reference generation code is decoded as truncated at the first type, with no check for 8 bytes |
| DeviceElement.DeviceEnd | sg_ses.c:1088-1105 | a decoded page ends complete, at a type failing the bounds test or past the buffer inside a shown type, with the entries the shown types before it |
| DeviceElement.DeviceTypesShown | sg_ses.c:1091-1093 | only device and array device types appear on the page |
| DeviceElement.DeviceTypeAt | sg_ses.c:1088-1105 | shown type j's entry carries its header fields, passed the bounds test, and holds all its records unless the page ends past the buffer there |
| DeviceElement.DeviceStopsAt | sg_ses.c:1101-1104 | a shown type whose records run past the buffer is the last entry |
| DeviceElement.DeviceWalkStopsAt | sg_ses.c:1101-1104 | within the walk, a shown type whose records run past the buffer is the last entry |
| DeviceElement.DeviceRecordAt | sg_ses.c:1101-1104 | record e of shown type j is record ShownCount(j) + e, and its whole decoding lies inside the buffer |
| DeviceElement.DeviceElementAt | sg_ses.c:1101-1104 | record e of shown type j is printed as element e + 1, decoded from record ShownCount(j) + e with its own length |
| DeviceElement.ShowDeviceAt | sg_ses.c:1101-1104 | decoding keeps the page's shape and decodes each record with its own length |
| SubencPages.EntryLen | sg_ses.c:1131-1138 | an entry is at least its 4-byte header |
| SubencPages.SubencSdg | sg_ses.c:1112-1178 | the shared loop of the two subenclosure pages computes the reference page |
| SubencPages.ReadEntry | sg_ses.c:1131-1138 | one entry header gives its length and its identifier and text |
| SubencPages.SubencHelpSdg | sg_ses.c:1112-1144 | ses_subenc_help_sdg decodes the help text page as the reference does |
| SubencPages.SubencStringSdg | sg_ses.c:1146-1178 | ses_subenc_string_sdg decodes the string page as the reference does |
| SubencPages.EntryInside | sg_ses.c:1131-1138 | an entry's length is its length field plus 4, and its text follows its header when that length is over 4 |
| SubencPages.EntryOffsetStep | sg_ses.c:1130-1139 | each entry starts where the previous one ends |
| SubencPages.EntryWalkCount | sg_ses.c:1130-1139 | the entry loop lists all entries iff it completes, and otherwise stops at an entry header that fails the bounds test |
| SubencPages.EntryWalkPrefix | sg_ses.c:1130-1139 | the entry loop keeps the entries already listed |
| SubencPages.EntryWalkAt | sg_ses.c:1130-1139 | entry i is the one at its layout offset, whose header passed the bounds test |
| SubencPages.SubencNoGenerationCheck | sg_ses.c:1119-1129 | any page of 4 bytes or more is decoded, whatever its generation code |
| SubencPages.SubencPageEnd | sg_ses.c:1122-1139 | the page lists resp[1] + 1 entries unless an entry header fails the bounds test |
| SubencPages.SubencEntry | sg_ses.c:1131-1138 | entry i shows byte 1 of its header as the identifier, and its text, absent iff the length field is zero, runs up to the next entry |
| SubencPages.EntryShape | sg_ses.c:1131-1138 | an entry's identifier and text, read at its layout offset |
| SubencPages.LengthFieldZero | sg_ses.c:1133-1138 | a length field is zero iff both its bytes are zero |
| SubencPages.SupportedPagesSdg | sg_ses.c:1180-1194 | ses_supported_pages_sdg lists the reference codes, each with the name the page code table gives it |
| SubencPages.SupportedWalkPrefix | sg_ses.c:1187-1193 | the supported pages loop keeps the codes already listed |
| SubencPages.SupportedWalkBytes | sg_ses.c:1187-1193 | the listed codes are the page's bytes from 4 on, in order |
| SubencPages.SupportedWalkSorted | sg_ses.c:1187-1193 | each listed code is at least the one before it |
| SubencPages.SupportedWalkStop | sg_ses.c:1187-1193 | the list stops before the page end only in front of a code smaller than the last one listed |
| SubencPages.SupportedCodesShape | sg_ses.c:1180-1194 | the listed codes are bytes 4, 5, ... of the page, non-decreasing, at most len - 4 of them, and fewer only in front of a smaller code |
| Control.HexDigitValue | sg_ses.c:1271 | a hex digit's value is below 16 |
| Control.Span | sg_ses.c:1264 | strspn from i stays within the string |
| Control.SpanStops | sg_ses.c:1264-1268 | strspn stops at the first character outside [0-9a-fA-F,], or at the end |
| Control.HexEnd | sg_ses.c:1271 | the digits a `%x` conversion consumes stay within the string |
| Control.HexEndStops | sg_ses.c:1271 | the digits consumed end at the first non-digit |
| Control.CommaFrom | sg_ses.c:1278 | strchr for a comma finds a comma at or after its start |
| Control.ToByteValue | sg_ses.c:1277 | the byte stored for a value below 256 has that value |
| Control.TokenStep | sg_ses.c:1271-1286 | a token that is stored moves to a comma at or after it; a rejected token fails at its own position, never as a bad character |
| Control.ReadHex | sg_ses.c:1203-1289 | read_hex recognises the stdin form and otherwise, in its command-line branch, computes the reference parse; it reports as length the bytes written (or 1025 after 1024 tokens), writes them from arr[base] and leaves the rest of the array as it was |
| Control.ReadHexBad | sg_ses.c:1263-1268 | outside the stdin form, a character outside the allowed set fails the parse at its position before any token is read |
| Control.ReadHexScan | sg_ses.c:1270-1288 | a string of allowed characters is parsed by the scan loop |
| Control.ScanTokens | sg_ses.c:1270-1288 | the scan loop computes the reference scan, writing its bytes in place and nothing else |
| Control.ParseStop | sg_ses.c:1272-1286 | a token the loop rejects ends the scan with its error |
| Control.ParseLast | sg_ses.c:1278-1280 | a token with no comma after it is the last one, and the length is the token count |
| Control.ParseMore | sg_ses.c:1277-1281 | otherwise the byte is stored and the scan goes on after the comma |
| Control.ParseLimit | sg_ses.c:1270-1288 | after 1024 tokens the loop ends and reports k + 1 |
| Control.ScanStep | sg_ses.c:1271-1286 | one pass of the loop body reads token k and stores its byte at arr[base + k], changing nothing else |
| Control.ReadToken | sg_ses.c:1271-1286 | reading one token gives the reference step |
| Control.StoreByte | sg_ses.c:1277 | storing a byte appends it after the bytes written so far and changes nothing else |
| Control.CommaSkip | sg_ses.c:1278-1281 | skipping to just past the next comma drops exactly one comma |
| Control.ParseFromWritten | sg_ses.c:1270-1288 | the scan keeps the bytes stored so far, adds at most one per token and never more than fit |
| Control.ParseFromOk | sg_ses.c:1270-1288 | a successful scan stores one byte per comma-separated token and reports their number, or 1025 when the 1024-token limit cuts it short |
| Control.ReadHexResult | sg_ses.c:1203-1289 | read_hex takes the stdin branch iff the argument starts with '-'; otherwise it fails as a bad character iff some character is outside [0-9a-fA-F,], at the first such one; on success every character is allowed and one byte is stored per comma-separated token, the reported length being their number (or 1025 past the limit) |
| Control.ParseFromNotBadChar | sg_ses.c:1270-1288 | the scan loop never reports a bad character nor the stdin branch |
| Control.SplitShape | sg_ses.c:1270-1281 | an argument has one comma-separated token more than it has commas, and with only allowed characters every token is hex digits |
| Control.CommaFromFirst | sg_ses.c:1278 | strchr stops at the first comma |
| Control.GoodPrefixStops | sg_ses.c:1270-1288 | the stored prefix of tokens ends at the first token that is empty, above 0xff or out of room |
| Control.TokenStartTail | sg_ses.c:1279-1280 | each token starts one past the comma ending the one before |
| Control.HexValueNum | sg_ses.c:1271 | the `%x` value of a run of digits is the value of that text |
| Control.HexEndComma | sg_ses.c:1271-1278 | in allowed text the digits `%x` reads run up to the next comma or the end |
| Control.HeadToken | sg_ses.c:1271-1280 | the first token's digits, value and the comma after it |
| Control.TokenStepHead | sg_ses.c:1271-1281 | one pass of the loop stores the token's value when it has digits, is at most 0xff and has room, and otherwise fails for that reason at the token's position |
| Control.ParseFromList | sg_ses.c:1270-1288 | the scan loop over the text gives the same result as the scan over its comma-separated tokens |
| Control.ListBad | sg_ses.c:1271-1286 | a bad token ends both scans with the same error and nothing more stored |
| Control.ListLast | sg_ses.c:1277-1288 | a good token with no comma after it is stored and ends both scans alike |
| Control.ListMore | sg_ses.c:1277-1281 | a good token followed by a comma is stored by both scans, which go on with the next token |
| Control.ScanListOk | sg_ses.c:1270-1288 | the token scan succeeds iff the good tokens at its start cover every token within the 1024-token limit; it never reports the stdin branch |
| Control.ScanListWritten | sg_ses.c:1277 | the token scan keeps the bytes already stored and appends the value of each good token up to the first bad one or the limit |
| Control.ScanListLength | sg_ses.c:1279-1288 | a successful token scan reports k plus the token count, or 1025 when the limit cuts it short |
| Control.ScanListError | sg_ses.c:1271-1286 | a failed token scan reports the reason of the first bad token, at that token's position |
| Control.ScanAccepts | sg_ses.c:1270-1289 | the scan of a token list from the start succeeds iff every token within the limit is good; then byte t is the value of token t, at most 0xff, and the length is the token count (1025 past the limit) |
| Control.ScanRejects | sg_ses.c:1270-1289 | a failed scan of a token list stops at the first bad token within the limit, with the tokens before it good and stored, and reports that token's reason and position |
| Control.ReadHexList | sg_ses.c:1263-1289 | for a command-line argument of allowed characters, read_hex's result is the scan of its comma-separated tokens |
| Control.ReadHexAccepts | sg_ses.c:1263-1289 | for a command-line argument of allowed characters, read_hex succeeds iff every token within the 1024-token limit has digits, a value of at most 0xff and room; then byte t is the value of token t and the reported length is the token count (1025 past the limit) |
| Control.ReadHexRejects | sg_ses.c:1263-1289 | for such an argument read_hex either succeeds or fails at the first token that has no digits, is above 0xff or has no room, with its reason and position, the tokens before it stored |
| Control.SplitTail | sg_ses.c:1278-1280 | after a comma the tokens are those of the text past it |
| Control.MoreStep | sg_ses.c:1277-1281 | the scan step over a good token and its comma |
| Control.StoredShift | sg_ses.c:1277 | the byte stored for the first token followed by those of the rest are the values of the whole list |
| Control.HexChar | sg_ses.c:1264 | the digit written for a value below 16 is a hex digit with that value |
| Control.HexList | sg_ses.c:1263-1289 | a list of bytes written as two-digit tokens separated by commas has length 3n - 1 |
| Control.HexListToken | sg_ses.c:1270-1281 | token t of the list is b[t] in two digits at 3t, followed by a comma unless it is the last |
| Control.HexListAllowed | sg_ses.c:1264-1268 | such a list holds only allowed characters |
| Control.TokenScan | sg_ses.c:1271 | reading a two-digit token consumes both digits and gives the byte |
| Control.TokenComma | sg_ses.c:1278 | the next comma is right after the token, if anything follows it |
| Control.HexListTokens | sg_ses.c:1270-1281 | every token of the list holds its byte |
| Control.TokenStored | sg_ses.c:1271-1281 | such a token is stored and the scan moves to the comma after it |
| Control.ParseTokens | sg_ses.c:1270-1288 | scanning a list of such tokens stores exactly its bytes and reports their number |
| Control.ReadHexRoundTrip | sg_ses.c:1263-1289 | read_hex reads back exactly the bytes of a list of 1 to 1024 of them that fits the array |
| Control.ControlHeader | sg_ses.c:1592-1595 | the header starts with the page code and byte 1 |
| Control.HeaderLength | sg_ses.c:1594-1595 | the header's length field reads back as the data length |
| Control.BuildControlPage | sg_ses.c:1592-1643 | data_arr[0..3] receive the header and the rest is unchanged; the first arr_len + 4 bytes are sent iff the page has a control form |
| Control.ControlRequest | sg_ses.c:1464-1471 | a control request is refused without --data, is left to the stdin branch for data starting with '-', and otherwise zeroes data_arr, parses the data into it from byte 4, writes the header and sends or refuses the page, as the reference defines |
| Control.ControlWithData | sg_ses.c:1464-1471 | the data is parsed into data_arr[4..] and the page built from it |
| Control.SendControl | sg_ses.c:1591-1643 | after the data is parsed, the page is refused, rejected or sent as the reference defines |
| Control.ReadHexLength | sg_ses.c:1270-1288 | with room for fewer than 1024 bytes the length reported is the number of bytes stored |
| Control.PageLayout | sg_ses.c:1592-1600 | a buffer holding the header and then the data is their concatenation |
| Control.ControlRoundTrip | sg_ses.c:1591-1643 | a request whose data lists bytes b, for a page with a control form, sends the header for b's length followed by b itself |
| Control.ControlPageShape | sg_ses.c:1591-1643 | every page sent is for a page code with a control form, fits data_arr, starts with the page code and byte 1, and its length field counts exactly the bytes after the header |
| Control.ControlOutcomes | sg_ses.c:1549-1643 | a request is refused for want of data iff --data is absent, left to the stdin branch iff the data starts with '-', refused with read_hex's error iff the command-line data does not parse, and as unsupported iff it parses but the page has no control form; otherwise it is sent |

## Left out

- Transport I/O is left out. This covers `do_rcvdiag`, `do_senddiag`, SG_IO, sense data and the CDB logging in sg_ses.c:118-222. The received buffer is an input, and "send" is a returned value.
- sg_cmds.h is not part of this model. It declares prototypes for a library whose bodies are not available.
- The part of `main` that handles options, opens the device and prints INQUIRY output is left out. This is command-line plumbing. So is the `--control`/`--status` exclusion, and so is `ses_process_status` beyond the framing it shares with populate. The control-mode rule that `--data` is required is kept.
- Only the last `--data` argument is modelled. Repeated `--data` options re-parse into the same array.
- `read_hex`'s stdin branch (sg_ses.c:1211-1262) is left out. It reads lines with `fgets`. An argument starting with '-' is recognised and gives `FromStdin` (and a control request `StdinData`); what it would read and send is not modelled.
- Control.ReadHex: a token's value is an unbounded number. The 32-bit `unsigned int` that `sscanf("%x")` fills is not modelled, so a token too large for it is rejected as larger than 0xff.
- Control.ReadHex: a token stored past the end of `data_arr` is reported as `Overflow`. The C code has no room check there, and writing past the array is undefined behaviour.
- Floating point is left out:
  - voltage and current are kept as signed hundredths, not `/100.0`;
  - threshold percentages are kept as raw bytes in half-percent units, not `0.5 *`.
- Printed text is left out. `printf` formatting and `dStrHex` dumps become the byte `Range`s their length fields give. The catalog entries are kept as strings. The padding argument `pad`/`leadin` is not modelled.
- `reserved_or_num` can truncate the string it writes into its buffer. That is not modelled, because the model returns the number, not its text.
- ElementStatus.OverElemStatus: the printed name of each element type is derived from the type code with Catalog.ElementName, not stored in the decoded value.
- Control.HexDigitValue: the function is total and gives 0 for a non-digit. The scans only apply it to digits.
- The walkers of the status pages and of the device element page stop with `PastBuffer` where the C code would read a record field beyond the 4096-byte buffer, which is undefined behaviour there. The model does not say what such a read would print.
- Config.SubencDescAt: only the descriptor's 4-byte header is read from the buffer. The logical identifier, vendor, product, revision and vendor-specific ranges are taken from the layout, not clipped at byte 4096, and give no `PastBuffer`, although the C code would read beyond the buffer for a descriptor near its end.
- Config.TypeWalk: the type description text `Range(textOff, tl)` that `%.*s` prints is not clipped at byte 4096 and gives no `PastBuffer`; it is not cut at a zero byte either.
- StatusPages.DescriptorAt: the text range is the descriptor's length field, not clipped. A length reaching past byte 4096 is returned as an ordinary range, without `PastBuffer`, although `%.*s` would read beyond the buffer there. `%.*s` also stops at the first zero byte, which the range does not.
- SubencPages.EntryAt: the same holds for the help text (`%.*s`) and string (`dStrHex`) entries. Their ranges come from the length field, are not clipped at the buffer's end, and the help text's range is not cut at a zero byte.
- DeviceElement.Extent: for a protocol that is not decoded, a record of 4 bytes or fewer is taken to be read for its 2-byte head only. This assumes `dStrHex` reads nothing for a length of 0 or less, and its body is not part of this model.
