/** The Configuration diagnostic page (page 1): populate_element_hdr_arr,
    which extracts the type descriptor headers every other page decoder
    depends on, and ses_configuration_sdg, which decodes the whole page.

    Layout: an 8-byte header (byte 1 is the number of subenclosures besides
    the primary one, bytes 4..7 the generation code), one enclosure
    descriptor per subenclosure (`4 + byte 3` bytes each, byte 2 the number
    of element types it supports), then one 4-byte type descriptor header
    per element type, then the type description texts. */
module Config {

  import opened Bytes
  import opened Framing
  import opened Catalog

  /** struct element_hdr: one type descriptor header as populate stores it. */
  datatype ElementHdr = ElementHdr(etype: Byte, numElements: Byte, seId: Byte, unused: Byte)

  // ---------------------------------------------------------------------
  // Reference layout

  /** Offset of enclosure descriptor `i`: each one is `4 + byte 3` long. */
  function DescOffset(resp: seq<Byte>, i: nat): nat {
    if i == 0 then 8 else DescOffset(resp, i - 1) + At(resp, DescOffset(resp, i - 1) + 3) + 4
  }

  /** The number of element types the first `i` enclosure descriptors
      announce (their byte 2). */
  function TypeCountSum(resp: seq<Byte>, i: nat): nat {
    if i == 0 then 0 else TypeCountSum(resp, i - 1) + At(resp, DescOffset(resp, i - 1) + 2)
  }

  /** Enclosure descriptors `lo` up to `hi` all pass the cursor test. */
  predicate DescsFit(resp: seq<Byte>, len: int, lo: nat, hi: nat) {
    forall i :: lo <= i < hi ==> !Past(DescOffset(resp, i), 4, len)
  }

  /** The number of subenclosures: byte 1 plus the primary one. */
  function NumSubencs(resp: seq<Byte>): nat
    requires |resp| >= 2
  {
    resp[1] as nat + 1
  }

  /** Where the type descriptor headers start. */
  function TypesStart(resp: seq<Byte>): nat
    requires |resp| >= 2
  {
    DescOffset(resp, NumSubencs(resp))
  }

  /** The total number of element types. */
  function TypeTotal(resp: seq<Byte>): nat
    requires |resp| >= 2
  {
    TypeCountSum(resp, NumSubencs(resp))
  }

  /** How many consecutive 4-byte records from `start` pass the cursor test. */
  function FitCount(start: int, len: int): (n: nat)
    ensures forall k: nat :: !Past(start + 4 * k, 4, len) <==> k < n
  {
    if start + 4 > len - 1 then 0 else (len - 5 - start) / 4 + 1
  }

  /** Header `k` as populate copies it: bytes 0, 1 and 2 of the k-th type
      descriptor header, `unused` cleared. */
  function TypeHeader(resp: seq<Byte>, k: nat): ElementHdr
    requires |resp| >= 2
  {
    var off := TypesStart(resp) + 4 * k;
    ElementHdr(ByteAt(resp, off), ByteAt(resp, off + 1), ByteAt(resp, off + 2), 0)
  }

  // ---------------------------------------------------------------------
  // populate_element_hdr_arr

  datatype PopulateError =
    | NotConfigPage(check: PageCheck)   // busy, short status only, or another page
    | ConfigTooShort                    // a record fails the cursor test
    | TooManyElements                   // a 513th header would be stored

  datatype HdrCount = Count(n: nat) | Failed(err: PopulateError)

  /** The descriptors themselves, as ses_configuration_sdg decodes them. */
  datatype SubencBody =
    | ShortDescriptor(descLen: nat)     // under 40 bytes: only its length is reported
    | FullDescriptor(logicalId: Range, vendor: Range, product: Range, revision: Range,
                     vendorSpecific: Option<Range>)

  datatype SubencDescriptor = SubencDescriptor(
    subencId: Byte, relEsProcessId: Byte, numEsProcesses: Byte, numElemTypes: Byte,
    body: SubencBody)

  /** The enclosure descriptor at `off`: `4 + byte 3` bytes long, the
      identifiers in its first bytes, and its text fields when it is at
      least 40 bytes long. */
  function SubencDescAt(resp: seq<Byte>, off: nat): SubencDescriptor
    requires off + 4 <= |resp|
  {
    var el := resp[off + 3] as nat + 4;
    SubencDescriptor(resp[off + 1], (resp[off] & 0x70) >> 4, resp[off] & 0x7, resp[off + 2],
      if el < 40 then ShortDescriptor(el)
      else FullDescriptor(Range(off + 4, 8), Range(off + 12, 8), Range(off + 20, 16), Range(off + 36, 4),
                          if el > 40 then Some(Range(off + 40, el - 40)) else None))
  }

  /** The walk over the enclosure descriptors that both populate and
      ses_configuration_sdg make: the descriptors decoded, whether all of
      them passed the cursor test, and the cursor and element type count
      after the last one.  A descriptor shorter than 40 bytes is still
      skipped and counted. */
  datatype SubencRun = SubencRun(descs: seq<SubencDescriptor>, fits: bool, end: nat, sum: nat)

  /** The walk from descriptor `k` on at cursor `off` with count `sum`,
      after the descriptors `acc` already decoded. */
  function SubencWalk(resp: seq<Byte>, len: int, k: nat, n: nat, off: nat, sum: nat,
                      acc: seq<SubencDescriptor>): (w: SubencRun)
    requires IsRespBuffer(resp) && len <= |resp|
    decreases n - k
  {
    if k >= n then SubencRun(acc, true, off, sum)
    else if Past(off, 4, len) then SubencRun(acc, false, off, sum)
    else SubencWalk(resp, len, k + 1, n, off + resp[off + 3] as nat + 4, sum + resp[off + 2] as nat,
                    acc + [SubencDescAt(resp, off)])
  }

  /** The walk from the first descriptor of the page. */
  function PageWalk(resp: seq<Byte>, len: int): SubencRun
    requires IsRespBuffer(resp) && len <= |resp|
  {
    SubencWalk(resp, len, 0, NumSubencs(resp), 8, 0, [])
  }

  /** The second loop: how many headers it stores and why it stops. */
  datatype HdrRun = HdrRun(written: nat, failure: Option<PopulateError>)

  function HdrWalk(len: int, k: nat, total: nat, off: int): (r: HdrRun)
    requires k <= MX_ELEM_HDR
    ensures r.written <= MX_ELEM_HDR
    decreases total - k
  {
    if k >= total then HdrRun(k, None)
    else if Past(off, 4, len) then HdrRun(k, Some(ConfigTooShort))
    else if k >= MX_ELEM_HDR then HdrRun(k, Some(TooManyElements))
    else HdrWalk(len, k + 1, total, off + 4)
  }

  /** What populate returns, the generation code it reports, and how many
      slots of the header array it overwrites. */
  datatype Populated = Populated(result: HdrCount, generation: Option<nat>, written: nat)

  function PopulateSpec(resp: seq<Byte>): (p: Populated)
    requires IsRespBuffer(resp)
    ensures p.written <= MX_ELEM_HDR
  {
    var len := EffectiveLen(resp);
    var c := CheckPageCode(1, resp);
    if c != Wanted then Populated(Failed(NotConfigPage(c)), None, 0)
    else
      var gen := Some(BE32(resp, 4));
      var w := PageWalk(resp, len);
      if !w.fits then Populated(Failed(ConfigTooShort), gen, 0)
      else
        var run := HdrWalk(len, 0, w.sum, w.end);
        Populated(if run.failure.None? then Count(w.sum) else Failed(run.failure.value), gen, run.written)
  }

  /** The first loop of populate: skips the enclosure descriptors, summing
      their element type counts. */
  method SkipSubencs(resp: seq<Byte>, len: int) returns (fits: bool, off: nat, sum: nat)
    requires IsRespBuffer(resp) && len <= |resp|
    ensures fits == PageWalk(resp, len).fits
    ensures fits ==> off == PageWalk(resp, len).end && sum == PageWalk(resp, len).sum
  {
    var numSubs := NumSubencs(resp);
    sum := 0;
    off := 8;
    var k := 0;
    ghost var skipped := [];
    while k < numSubs
      invariant SubencWalk(resp, len, k, numSubs, off, sum, skipped) == PageWalk(resp, len)
    {
      if Past(off, 4, len) {
        return false, off, sum;
      }
      skipped := skipped + [SubencDescAt(resp, off)];
      var el := resp[off + 3] as nat + 4;
      sum := sum + resp[off + 2] as nat;
      off := off + el;
      k := k + 1;
    }
    fits := true;
  }

  /** The second loop of populate: copies `total` type headers from
      `start` into `ehp`. */
  method CopyHeaders(resp: seq<Byte>, len: int, start: nat, total: nat, ehp: array<ElementHdr>)
    returns (failure: Option<PopulateError>)
    requires IsRespBuffer(resp) && len <= |resp|
    requires ehp.Length == MX_ELEM_HDR && start == TypesStart(resp)
    modifies ehp
    ensures failure == HdrWalk(len, 0, total, start).failure
    ensures forall k :: 0 <= k < HdrWalk(len, 0, total, start).written ==> ehp[k] == TypeHeader(resp, k)
    ensures forall k :: HdrWalk(len, 0, total, start).written <= k < ehp.Length ==> ehp[k] == old(ehp[k])
  {
    var off := start;
    var k := 0;
    while k < total
      invariant k <= MX_ELEM_HDR
      invariant HdrWalk(len, k, total, off) == HdrWalk(len, 0, total, start)
      invariant off == start + 4 * k
      invariant forall j :: 0 <= j < k ==> ehp[j] == TypeHeader(resp, j)
      invariant forall j :: k <= j < ehp.Length ==> ehp[j] == old(ehp[j])
    {
      if Past(off, 4, len) {
        return Some(ConfigTooShort);
      }
      if k >= MX_ELEM_HDR {
        return Some(TooManyElements);
      }
      ehp[k] := ElementHdr(resp[off], resp[off + 1], resp[off + 2], 0);
      k := k + 1;
      off := off + 4;
    }
    failure := None;
  }

  /** populate_element_hdr_arr on a received buffer: fills `ehp` in place
      and returns the number of element types, or the reason for -1. */
  method PopulateElementHdrArr(resp: seq<Byte>, ehp: array<ElementHdr>) returns (r: HdrCount, generation: Option<nat>)
    requires IsRespBuffer(resp)
    requires ehp.Length == MX_ELEM_HDR
    modifies ehp
    ensures r == PopulateSpec(resp).result
    ensures generation == PopulateSpec(resp).generation
    ensures forall k :: 0 <= k < PopulateSpec(resp).written ==> ehp[k] == TypeHeader(resp, k)
    ensures forall k :: PopulateSpec(resp).written <= k < ehp.Length ==> ehp[k] == old(ehp[k])
  {
    var len := EffectiveLen(resp);
    var c := CheckPageCode(1, resp);
    if c != Wanted {
      return Failed(NotConfigPage(c)), None;
    }
    generation := Some(BE32(resp, 4));
    var fits, start, total := SkipSubencs(resp, len);
    if !fits {
      return Failed(ConfigTooShort), generation;
    }
    PageWalkFits(resp, len);
    var failure := CopyHeaders(resp, len, start, total, ehp);
    r := if failure.None? then Count(total) else Failed(failure.value);
  }

  // ---------------------------------------------------------------------
  // Properties of populate

  /** DescOffset and TypeCountSum advance the way the walk does. */
  lemma LayoutStep(resp: seq<Byte>, k: nat)
    requires DescOffset(resp, k) + 4 <= |resp|
    ensures DescOffset(resp, k + 1) == DescOffset(resp, k) + resp[DescOffset(resp, k) + 3] as nat + 4
    ensures TypeCountSum(resp, k + 1) == TypeCountSum(resp, k) + resp[DescOffset(resp, k) + 2] as nat
  {
  }

  /** When every descriptor passes the cursor test, the descriptor walk
      ends where the type descriptor headers start, having summed the
      descriptors' byte 2. */
  lemma {:induction false} SubencWalkLayout(resp: seq<Byte>, len: int, k: nat, n: nat, off: nat, sum: nat, acc: seq<SubencDescriptor>)
    requires IsRespBuffer(resp) && len <= |resp| && k <= n
    requires off == DescOffset(resp, k) && sum == TypeCountSum(resp, k)
    ensures var w := SubencWalk(resp, len, k, n, off, sum, acc);
      w.fits ==> w.end == DescOffset(resp, n) && w.sum == TypeCountSum(resp, n)
    decreases n - k
  {
    if k < n && !Past(off, 4, len) {
      LayoutStep(resp, k);
      var acc' := acc + [SubencDescAt(resp, off)];
      var off', sum' := off + resp[off + 3] as nat + 4, sum + resp[off + 2] as nat;
      SubencWalkLayout(resp, len, k + 1, n, off', sum', acc');
      assert SubencWalk(resp, len, k, n, off, sum, acc) == SubencWalk(resp, len, k + 1, n, off', sum', acc');
    }
  }

  /** The walk decodes every descriptor when none fails the cursor test,
      and otherwise stops at the first that fails it. */
  lemma {:induction false} SubencWalkCount(resp: seq<Byte>, len: int, k: nat, n: nat, off: nat, sum: nat,
                                            acc: seq<SubencDescriptor>)
    requires IsRespBuffer(resp) && len <= |resp| && k <= n
    requires off == DescOffset(resp, k) && sum == TypeCountSum(resp, k)
    ensures var w := SubencWalk(resp, len, k, n, off, sum, acc);
      var m := k + |w.descs| - |acc|;
      |acc| <= |w.descs| &&
      (w.fits ==> m == n) &&
      (!w.fits ==> m < n && Past(DescOffset(resp, m), 4, len))
    decreases n - k
  {
    if k < n && !Past(off, 4, len) {
      LayoutStep(resp, k);
      var acc' := acc + [SubencDescAt(resp, off)];
      var off', sum' := off + resp[off + 3] as nat + 4, sum + resp[off + 2] as nat;
      SubencWalkCount(resp, len, k + 1, n, off', sum', acc');
      var w := SubencWalk(resp, len, k + 1, n, off', sum', acc');
      assert SubencWalk(resp, len, k, n, off, sum, acc) == w;
      assert k + |w.descs| - |acc| == (k + 1) + |w.descs| - |acc'|;
    }
  }

  /** The walk keeps the descriptors already decoded. */
  lemma {:induction false} SubencWalkPrefix(resp: seq<Byte>, len: int, k: nat, n: nat, off: nat, sum: nat,
                                             acc: seq<SubencDescriptor>)
    requires IsRespBuffer(resp) && len <= |resp| && k <= n
    ensures var w := SubencWalk(resp, len, k, n, off, sum, acc);
      |acc| <= |w.descs| && w.descs[..|acc|] == acc
    decreases n - k
  {
    if k < n && !Past(off, 4, len) {
      var acc' := acc + [SubencDescAt(resp, off)];
      var off', sum' := off + resp[off + 3] as nat + 4, sum + resp[off + 2] as nat;
      SubencWalkPrefix(resp, len, k + 1, n, off', sum', acc');
      var w := SubencWalk(resp, len, k + 1, n, off', sum', acc');
      assert SubencWalk(resp, len, k, n, off, sum, acc) == w;
      assert w.descs[..|acc|] == w.descs[..|acc'|][..|acc|];
    }
  }

  /** The descriptor the walk appends for descriptor `j` is the one at
      DescOffset(j), and it passed the cursor test. */
  lemma {:induction false} SubencWalkDescAt(resp: seq<Byte>, len: int, k: nat, n: nat, off: nat, sum: nat,
                                             acc: seq<SubencDescriptor>, j: nat)
    requires IsRespBuffer(resp) && len <= |resp| && k <= n
    requires off == DescOffset(resp, k) && sum == TypeCountSum(resp, k)
    requires var w := SubencWalk(resp, len, k, n, off, sum, acc);
      |acc| <= |w.descs| && k <= j < k + |w.descs| - |acc|
    ensures !Past(DescOffset(resp, j), 4, len)
    ensures SubencWalk(resp, len, k, n, off, sum, acc).descs[|acc| + (j - k)] == SubencDescAt(resp, DescOffset(resp, j))
    decreases n - k
  {
    SubencWalkPrefix(resp, len, k, n, off, sum, acc);
    if k < n && !Past(off, 4, len) {
      LayoutStep(resp, k);
      var acc' := acc + [SubencDescAt(resp, off)];
      var off', sum' := off + resp[off + 3] as nat + 4, sum + resp[off + 2] as nat;
      SubencWalkPrefix(resp, len, k + 1, n, off', sum', acc');
      var w := SubencWalk(resp, len, k + 1, n, off', sum', acc');
      assert SubencWalk(resp, len, k, n, off, sum, acc) == w;
      if j > k {
        SubencWalkDescAt(resp, len, k + 1, n, off', sum', acc', j);
        assert |acc| + (j - k) == |acc'| + (j - (k + 1));
      } else {
        assert w.descs[|acc|] == w.descs[..|acc'|][|acc|] == acc'[|acc|];
      }
    }
  }

  /** The walk over the page's descriptors succeeds exactly when every
      descriptor passes the cursor test; it then ends at TypesStart with
      the count TypeTotal. */
  lemma PageWalkFits(resp: seq<Byte>, len: int)
    requires IsRespBuffer(resp) && len <= |resp|
    ensures PageWalk(resp, len).fits <==> DescsFit(resp, len, 0, NumSubencs(resp))
    ensures PageWalk(resp, len).fits ==>
      PageWalk(resp, len).end == TypesStart(resp) && PageWalk(resp, len).sum == TypeTotal(resp)
  {
    var n := NumSubencs(resp);
    SubencWalkCount(resp, len, 0, n, 8, 0, []);
    SubencWalkLayout(resp, len, 0, n, 8, 0, []);
    var w := PageWalk(resp, len);
    if w.fits {
      forall i | 0 <= i < n
        ensures !Past(DescOffset(resp, i), 4, len)
      {
        SubencWalkDescAt(resp, len, 0, n, 8, 0, [], i);
      }
    } else {
      assert !DescsFit(resp, len, 0, n) by {
        assert Past(DescOffset(resp, |w.descs|), 4, len);
      }
    }
  }

  function Min(a: nat, b: nat): nat {
    if a <= b then a else b
  }

  /** The second loop stores min(total, fit, 512) headers; it stops short
      with ConfigTooShort when the page ends first, and with TooManyElements
      when slot 512 is reached first. */
  lemma {:induction false} HdrWalkResult(len: int, k: nat, total: nat, start: int)
    requires k <= total && k <= MX_ELEM_HDR && k <= FitCount(start, len)
    ensures var r := HdrWalk(len, k, total, start + 4 * k);
      var fit := FitCount(start, len);
      r.written == Min(total, Min(fit, MX_ELEM_HDR)) &&
      (r.failure.None? <==> total <= fit && total <= MX_ELEM_HDR) &&
      (r.failure == Some(ConfigTooShort) <==> fit < total && fit <= MX_ELEM_HDR) &&
      (r.failure == Some(TooManyElements) <==> MX_ELEM_HDR < total && MX_ELEM_HDR < fit)
    decreases total - k
  {
    var fit := FitCount(start, len);
    if k < total && k < fit && k < MX_ELEM_HDR {
      assert start + 4 * k + 4 == start + 4 * (k + 1);
      HdrWalkResult(len, k + 1, total, start);
    } else if k < total && k == fit {
      assert Past(start + 4 * k, 4, len);
    } else if k < total {
      assert !Past(start + 4 * k, 4, len);
    }
  }

  /** populate succeeds exactly when the page is the configuration page,
      every enclosure descriptor and every type header passes the cursor
      test, and there are at most 512 element types; the count is then
      the sum of the descriptors' byte 2, and every slot below it holds
      its header. */
  lemma PopulateSucceeds(resp: seq<Byte>)
    requires IsRespBuffer(resp)
    ensures var p := PopulateSpec(resp);
      p.result.Count? <==>
        resp[0] == 1 && DescsFit(resp, EffectiveLen(resp), 0, NumSubencs(resp)) &&
        TypeTotal(resp) <= MX_ELEM_HDR && TypeTotal(resp) <= FitCount(TypesStart(resp), EffectiveLen(resp))
    ensures var p := PopulateSpec(resp);
      p.result.Count? ==> p.result.n == TypeTotal(resp) && p.written == TypeTotal(resp)
  {
    var len := EffectiveLen(resp);
    PageWalkFits(resp, len);
    HdrWalkResult(len, 0, TypeTotal(resp), TypesStart(resp));
  }

  /** The three reasons populate returns -1. */
  lemma PopulateFails(resp: seq<Byte>)
    requires IsRespBuffer(resp)
    ensures var p := PopulateSpec(resp);
      p.result.Failed? && p.result.err.NotConfigPage? <==> resp[0] != 1
    ensures var p := PopulateSpec(resp); var len := EffectiveLen(resp);
      p.result == Failed(ConfigTooShort) <==>
        resp[0] == 1 &&
        (!DescsFit(resp, len, 0, NumSubencs(resp)) ||
         (FitCount(TypesStart(resp), len) < TypeTotal(resp) && FitCount(TypesStart(resp), len) <= MX_ELEM_HDR))
    ensures var p := PopulateSpec(resp); var len := EffectiveLen(resp);
      p.result == Failed(TooManyElements) <==>
        resp[0] == 1 && DescsFit(resp, len, 0, NumSubencs(resp)) &&
        MX_ELEM_HDR < TypeTotal(resp) && MX_ELEM_HDR < FitCount(TypesStart(resp), len)
  {
    var len := EffectiveLen(resp);
    PageWalkFits(resp, len);
    HdrWalkResult(len, 0, TypeTotal(resp), TypesStart(resp));
  }

  /** The generation code is reported exactly when the page is the
      configuration page, and it is bytes 4..7. */
  lemma PopulateGeneration(resp: seq<Byte>)
    requires IsRespBuffer(resp)
    ensures PopulateSpec(resp).generation.Some? <==> resp[0] == 1
    ensures PopulateSpec(resp).generation.Some? ==> PopulateSpec(resp).generation.value == BE32(resp, 4)
    ensures resp[0] != 1 ==> PopulateSpec(resp).written == 0
  {
  }

  // ---------------------------------------------------------------------
  // ses_configuration_sdg

  /** A type descriptor header with its description text, if it has one. */
  datatype TypeDescriptor = TypeDescriptor(
    etype: Byte, possibleElements: Byte, seId: Byte, text: Option<Range>)

  /** The name printed for a type descriptor's element type; None is
      printed as the code in hex. */
  function TypeName(d: TypeDescriptor): Option<string> {
    ElementName(d.etype as nat)
  }

  datatype ConfigEnd = ConfigComplete | ConfigTruncated

  datatype ConfigPage =
    | NoConfigHeader        // resp_len < 4
    | ConfigPage(otherSubencs: Byte, generation: nat, subencs: seq<SubencDescriptor>,
                 types: seq<TypeDescriptor>, end: ConfigEnd)

  /** The type descriptor header at `off`, its text not yet attached. */
  function TypeDescAt(resp: seq<Byte>, off: nat): TypeDescriptor
    requires off + 4 <= |resp|
  {
    TypeDescriptor(resp[off], resp[off + 1], resp[off + 2], None)
  }

  /** The second loop: type headers from `k` on at cursor `off`, with the
      text cursor at `textOff`, appended to those already decoded.  A header
      with text (byte 3 > 0) whose text cursor already fails the test is
      reported without it and ends the page. */
  function TypeWalk(resp: seq<Byte>, len: int, k: nat, total: nat, off: nat, textOff: nat,
                    acc: seq<TypeDescriptor>): (seq<TypeDescriptor>, ConfigEnd)
    requires IsRespBuffer(resp) && len <= |resp|
    decreases total - k
  {
    if k >= total then (acc, ConfigComplete)
    else if Past(off, 4, len) then (acc, ConfigTruncated)
    else
      var tl := resp[off + 3] as nat;
      var d := TypeDescAt(resp, off);
      if tl > 0 && textOff > len - 1 then (acc + [d], ConfigTruncated)
      else TypeWalk(resp, len, k + 1, total, off + 4, textOff + tl,
                    acc + [if tl > 0 then d.(text := Some(Range(textOff, tl))) else d])
  }

  /** Where the text of type descriptor `j` starts: after all the headers
      and the texts of the headers before it (their byte 3). */
  function TextOffset(resp: seq<Byte>, start: nat, total: nat, j: nat): nat {
    if j == 0 then start + 4 * total
    else TextOffset(resp, start, total, j - 1) + At(resp, start + 4 * (j - 1) + 3)
  }

  /** Type descriptor `j` as the walker reports it: its header, with its
      text when it has one and the text cursor still passes the test. */
  function TypeEntry(resp: seq<Byte>, len: int, start: nat, total: nat, j: nat): TypeDescriptor
    requires start + 4 * j + 4 <= |resp|
  {
    var off := start + 4 * j;
    var tl := resp[off + 3] as nat;
    var t := TextOffset(resp, start, total, j);
    TypeDescAt(resp, off).(text := if tl > 0 && t <= len - 1 then Some(Range(t, tl)) else None)
  }

  /** The walk adds at most one descriptor per header, and all of them
      when it completes. */
  lemma {:induction false} TypeWalkCount(resp: seq<Byte>, len: int, start: nat, k: nat, total: nat,
                                         off: nat, textOff: nat, acc: seq<TypeDescriptor>)
    requires IsRespBuffer(resp) && len <= |resp| && k <= total
    requires off == start + 4 * k && textOff == TextOffset(resp, start, total, k)
    ensures var r := TypeWalk(resp, len, k, total, off, textOff, acc);
      |acc| <= |r.0| <= |acc| + (total - k) &&
      (r.1 == ConfigComplete ==> |r.0| == |acc| + (total - k))
    decreases total - k
  {
    if k < total && !Past(off, 4, len) && !(resp[off + 3] > 0 && textOff > len - 1) {
      var tl := resp[off + 3] as nat;
      var d := TypeDescAt(resp, off);
      var acc' := acc + [if tl > 0 then d.(text := Some(Range(textOff, tl))) else d];
      TypeWalkCount(resp, len, start, k + 1, total, off + 4, textOff + tl, acc');
      assert TypeWalk(resp, len, k, total, off, textOff, acc) ==
        TypeWalk(resp, len, k + 1, total, off + 4, textOff + tl, acc');
    }
  }

  /** When the walk stops early, it is at a header that fails the cursor
      test, or just after one with text whose text cursor fails it. */
  lemma {:induction false} TypeWalkTruncation(resp: seq<Byte>, len: int, start: nat, k: nat, total: nat,
                                              off: nat, textOff: nat, acc: seq<TypeDescriptor>)
    requires IsRespBuffer(resp) && len <= |resp| && k <= total
    requires off == start + 4 * k && textOff == TextOffset(resp, start, total, k)
    ensures var r := TypeWalk(resp, len, k, total, off, textOff, acc);
      var m := k + |r.0| - |acc|;
      r.1 == ConfigTruncated ==>
        (m < total && Past(start + 4 * m, 4, len)) ||
        (k < m && At(resp, start + 4 * (m - 1) + 3) > 0 && TextOffset(resp, start, total, m - 1) > len - 1)
    decreases total - k
  {
    if k < total && !Past(off, 4, len) && !(resp[off + 3] > 0 && textOff > len - 1) {
      var tl := resp[off + 3] as nat;
      var d := TypeDescAt(resp, off);
      var acc' := acc + [if tl > 0 then d.(text := Some(Range(textOff, tl))) else d];
      TypeWalkTruncation(resp, len, start, k + 1, total, off + 4, textOff + tl, acc');
      TypeWalkCount(resp, len, start, k + 1, total, off + 4, textOff + tl, acc');
      var r := TypeWalk(resp, len, k + 1, total, off + 4, textOff + tl, acc');
      assert TypeWalk(resp, len, k, total, off, textOff, acc) == r;
      assert k + |r.0| - |acc| == (k + 1) + |r.0| - |acc'|;
    }
  }

  /** The walk keeps the descriptors already decoded. */
  lemma {:induction false} TypeWalkPrefix(resp: seq<Byte>, len: int, k: nat, total: nat,
                                          off: nat, textOff: nat, acc: seq<TypeDescriptor>)
    requires IsRespBuffer(resp) && len <= |resp| && k <= total
    ensures var r := TypeWalk(resp, len, k, total, off, textOff, acc);
      |acc| <= |r.0| && r.0[..|acc|] == acc
    decreases total - k
  {
    if k < total && !Past(off, 4, len) && !(resp[off + 3] > 0 && textOff > len - 1) {
      var tl := resp[off + 3] as nat;
      var d := TypeDescAt(resp, off);
      var acc' := acc + [if tl > 0 then d.(text := Some(Range(textOff, tl))) else d];
      TypeWalkPrefix(resp, len, k + 1, total, off + 4, textOff + tl, acc');
      var r := TypeWalk(resp, len, k, total, off, textOff, acc);
      assert r.0[..|acc|] == r.0[..|acc'|][..|acc|];
    }
  }

  /** The descriptor the walk appends for header `j` is TypeEntry(j), and
      that header passed the cursor test. */
  lemma {:induction false} TypeWalkEntryAt(resp: seq<Byte>, len: int, start: nat, k: nat, total: nat,
                                           off: nat, textOff: nat, acc: seq<TypeDescriptor>, j: nat)
    requires IsRespBuffer(resp) && len <= |resp| && k <= total
    requires off == start + 4 * k && textOff == TextOffset(resp, start, total, k)
    requires var r := TypeWalk(resp, len, k, total, off, textOff, acc);
      |acc| <= |r.0| && k <= j < k + |r.0| - |acc|
    ensures !Past(start + 4 * j, 4, len)
    ensures TypeWalk(resp, len, k, total, off, textOff, acc).0[|acc| + (j - k)] == TypeEntry(resp, len, start, total, j)
    decreases total - k
  {
    TypeWalkPrefix(resp, len, k, total, off, textOff, acc);
    if k < total && !Past(off, 4, len) {
      var tl := resp[off + 3] as nat;
      var d := TypeDescAt(resp, off);
      if tl > 0 && textOff > len - 1 {
        assert TypeWalk(resp, len, k, total, off, textOff, acc).0 == acc + [d];
        assert j == k;
      } else {
        var acc' := acc + [if tl > 0 then d.(text := Some(Range(textOff, tl))) else d];
        TypeWalkPrefix(resp, len, k + 1, total, off + 4, textOff + tl, acc');
        var r := TypeWalk(resp, len, k + 1, total, off + 4, textOff + tl, acc');
        assert TypeWalk(resp, len, k, total, off, textOff, acc) == r;
        if j > k {
          TypeWalkEntryAt(resp, len, start, k + 1, total, off + 4, textOff + tl, acc', j);
          assert |acc| + (j - k) == |acc'| + (j - (k + 1));
        } else {
          assert r.0[|acc|] == r.0[..|acc'|][|acc|] == acc'[|acc|];
        }
      }
    }
  }

  function ConfigSpec(resp: seq<Byte>, len: int): ConfigPage
    requires IsRespBuffer(resp) && len <= |resp|
  {
    if len < 4 then NoConfigHeader
    else
      var w := PageWalk(resp, len);
      if !w.fits then ConfigPage(resp[1], BE32(resp, 4), w.descs, [], ConfigTruncated)
      else
        var types := TypeWalk(resp, len, 0, w.sum, w.end, w.end + 4 * w.sum, []);
        ConfigPage(resp[1], BE32(resp, 4), w.descs, types.0, types.1)
  }

  /** The enclosure descriptors ses_configuration_sdg reports are those at
      DescOffset, in order; all of them unless one fails the cursor test,
      in which case no type descriptor is reported. */
  lemma ConfigSubencs(resp: seq<Byte>, len: int)
    requires IsRespBuffer(resp) && 4 <= len <= |resp|
    ensures var p := ConfigSpec(resp, len);
      p.ConfigPage? && p.otherSubencs == resp[1] && p.generation == BE32(resp, 4) &&
      |p.subencs| <= NumSubencs(resp) &&
      (forall i :: 0 <= i < |p.subencs| ==>
        !Past(DescOffset(resp, i), 4, len) && p.subencs[i] == SubencDescAt(resp, DescOffset(resp, i))) &&
      (|p.subencs| < NumSubencs(resp) <==> !DescsFit(resp, len, 0, NumSubencs(resp))) &&
      (!DescsFit(resp, len, 0, NumSubencs(resp)) ==> p.types == [] && p.end == ConfigTruncated)
  {
    var n := NumSubencs(resp);
    SubencWalkCount(resp, len, 0, n, 8, 0, []);
    PageWalkFits(resp, len);
    var w := PageWalk(resp, len);
    forall i | 0 <= i < |w.descs|
      ensures !Past(DescOffset(resp, i), 4, len) && w.descs[i] == SubencDescAt(resp, DescOffset(resp, i))
    {
      SubencWalkDescAt(resp, len, 0, n, 8, 0, [], i);
    }
  }

  /** The walk over the type descriptor headers from `start` reports at
      most `total` of them, and all `total` exactly when it completes. */
  lemma TypeWalkFromStartCount(resp: seq<Byte>, len: int, start: nat, total: nat)
    requires IsRespBuffer(resp) && len <= |resp|
    ensures var r := TypeWalk(resp, len, 0, total, start, start + 4 * total, []);
      |r.0| <= total && (r.1 == ConfigComplete ==> |r.0| == total)
  {
    TypeWalkCount(resp, len, start, 0, total, start, start + 4 * total, []);
  }

  /** When it stops early, it is at a header that fails the cursor test,
      or just after one with text whose text cursor fails it. */
  lemma TypeWalkFromStartTruncation(resp: seq<Byte>, len: int, start: nat, total: nat)
    requires IsRespBuffer(resp) && len <= |resp|
    ensures var r := TypeWalk(resp, len, 0, total, start, start + 4 * total, []);
      r.1 == ConfigTruncated ==>
        (|r.0| < total && Past(start + 4 * |r.0|, 4, len)) ||
        (0 < |r.0| && At(resp, start + 4 * (|r.0| - 1) + 3) > 0 &&
         TextOffset(resp, start, total, |r.0| - 1) > len - 1)
  {
    TypeWalkTruncation(resp, len, start, 0, total, start, start + 4 * total, []);
  }

  /** Each type descriptor it reports is TypeEntry at its index. */
  lemma TypeWalkFromStartEntries(resp: seq<Byte>, len: int, start: nat, total: nat)
    requires IsRespBuffer(resp) && len <= |resp|
    ensures var r := TypeWalk(resp, len, 0, total, start, start + 4 * total, []);
      forall j :: 0 <= j < |r.0| ==>
        !Past(start + 4 * j, 4, len) && r.0[j] == TypeEntry(resp, len, start, total, j)
  {
    var r := TypeWalk(resp, len, 0, total, start, start + 4 * total, []);
    forall j | 0 <= j < |r.0|
      ensures !Past(start + 4 * j, 4, len) && r.0[j] == TypeEntry(resp, len, start, total, j)
    {
      TypeWalkEntryAt(resp, len, start, 0, total, start, start + 4 * total, [], j);
    }
  }

  /** When the enclosure descriptors fit, the type descriptors are those of
      the walk from TypesStart over TypeTotal headers. */
  lemma ConfigTypes(resp: seq<Byte>, len: int)
    requires IsRespBuffer(resp) && 4 <= len <= |resp|
    requires DescsFit(resp, len, 0, NumSubencs(resp))
    ensures var p := ConfigSpec(resp, len);
      var start, total := TypesStart(resp), TypeTotal(resp);
      var r := TypeWalk(resp, len, 0, total, start, start + 4 * total, []);
      p.ConfigPage? && p.types == r.0 && p.end == r.1
  {
    PageWalkFits(resp, len);
  }

  /** The first loop of ses_configuration_sdg: decodes the enclosure
      descriptors. */
  method DecodeSubencs(resp: seq<Byte>, len: int) returns (subs: seq<SubencDescriptor>, fits: bool, off: nat, sum: nat)
    requires IsRespBuffer(resp) && len <= |resp|
    ensures subs == PageWalk(resp, len).descs && fits == PageWalk(resp, len).fits
    ensures fits ==> off == PageWalk(resp, len).end && sum == PageWalk(resp, len).sum
  {
    var numSubs := NumSubencs(resp);
    off := 8;
    sum := 0;
    var k := 0;
    subs := [];
    while k < numSubs
      invariant SubencWalk(resp, len, k, numSubs, off, sum, subs) == PageWalk(resp, len)
    {
      if Past(off, 4, len) {
        return subs, false, off, sum;
      }
      var el := resp[off + 3] as nat + 4;
      sum := sum + resp[off + 2] as nat;
      subs := subs + [SubencDescAt(resp, off)];
      off := off + el;
      k := k + 1;
    }
    fits := true;
  }

  /** The second loop of ses_configuration_sdg: decodes the type descriptor
      headers and attaches their texts. */
  method DecodeTypes(resp: seq<Byte>, len: int, start: nat, total: nat) returns (types: seq<TypeDescriptor>, end: ConfigEnd)
    requires IsRespBuffer(resp) && len <= |resp|
    ensures (types, end) == TypeWalk(resp, len, 0, total, start, start + 4 * total, [])
  {
    var off := start;
    var textOff: nat := start + 4 * total;
    types := [];
    var k := 0;
    while k < total
      invariant TypeWalk(resp, len, k, total, off, textOff, types) == TypeWalk(resp, len, 0, total, start, start + 4 * total, [])
    {
      if Past(off, 4, len) {
        return types, ConfigTruncated;
      }
      var d := TypeDescAt(resp, off);
      var tl := resp[off + 3] as nat;
      if tl > 0 {
        if textOff > len - 1 {
          return types + [d], ConfigTruncated;
        }
        d := d.(text := Some(Range(textOff, tl)));
        textOff := textOff + tl;
      }
      types := types + [d];
      k := k + 1;
      off := off + 4;
    }
    end := ConfigComplete;
  }

  /** ses_configuration_sdg: decodes the configuration page with one cursor
      over the descriptors and a second over the description texts. */
  method ConfigurationSdg(resp: seq<Byte>, len: int) returns (page: ConfigPage)
    requires IsRespBuffer(resp) && len <= |resp|
    ensures page == ConfigSpec(resp, len)
  {
    if len < 4 {
      return NoConfigHeader;
    }
    var gen := BE32(resp, 4);
    var subs, fits, start, total := DecodeSubencs(resp, len);
    if !fits {
      return ConfigPage(resp[1], gen, subs, [], ConfigTruncated);
    }
    var types, end := DecodeTypes(resp, len, start, total);
    page := ConfigPage(resp[1], gen, subs, types, end);
  }
}
