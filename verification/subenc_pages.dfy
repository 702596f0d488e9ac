/** The Subenclosure help text and Subenclosure string in pages
    (ses_subenc_help_sdg, ses_subenc_string_sdg), which list one
    variable-length text per subenclosure, and the Supported diagnostic
    pages list (ses_supported_pages_sdg). */
module SubencPages {

  import opened Bytes
  import Catalog

  // ---------------------------------------------------------------------
  // Subenclosure help text and string in

  /** The two pages share their layout; the help text is printed as text,
      the string in as a hex dump. */
  datatype SubencKind = HelpText | StringIn

  /** One subenclosure's entry: its identifier and the bytes of its text,
      or None when the entry has no text (printed as `<empty>`). */
  datatype SubencText = SubencText(subencId: Byte, text: Option<Range>)

  datatype SubencEnd = SubencComplete | SubencTruncated

  /** `others` is the number of subenclosures other than the primary. */
  datatype SubencPage =
    | SubencTooShort
    | SubencTexts(kind: SubencKind, others: nat, generation: nat, entries: seq<SubencText>, end: SubencEnd)

  /** The length of the entry at `off`: its big-endian length field plus
      the 4-byte entry header. */
  function EntryLen(resp: seq<Byte>, off: int): (n: nat)
    ensures n >= 4
  {
    BE16(ByteAt(resp, off + 2), ByteAt(resp, off + 3)) + 4
  }

  /** Where entry k starts. */
  function EntryOffset(resp: seq<Byte>, k: nat): nat {
    if k == 0 then 8
    else
      var p := EntryOffset(resp, k - 1);
      p + EntryLen(resp, p)
  }

  function EntryAt(resp: seq<Byte>, off: int): SubencText {
    var el := EntryLen(resp, off);
    SubencText(ByteAt(resp, off + 1), if el > 4 then Some(Range(off + 4, el - 4)) else None)
  }

  datatype EntryRun = EntryRun(entries: seq<SubencText>, end: SubencEnd)

  /** The loop over entries k..n-1 from `off`: each entry header must pass
      the bounds test. */
  function EntryWalk(resp: seq<Byte>, len: int, k: nat, n: nat, off: nat, acc: seq<SubencText>): EntryRun
    decreases n - k
  {
    if k >= n then EntryRun(acc, SubencComplete)
    else if Past(off, 4, len) then EntryRun(acc, SubencTruncated)
    else EntryWalk(resp, len, k + 1, n, off + EntryLen(resp, off), acc + [EntryAt(resp, off)])
  }

  /** The page: too short below 4 bytes, otherwise one entry per
      subenclosure (the primary included).  The generation code is read
      from bytes 4..7 but there is nothing it is compared with. */
  function SubencRecords(kind: SubencKind, resp: seq<Byte>, len: int): SubencPage
    requires IsRespBuffer(resp)
  {
    if len < 4 then SubencTooShort
    else
      var run := EntryWalk(resp, len, 0, resp[1] as nat + 1, 8, []);
      SubencTexts(kind, resp[1] as nat, BE32(resp, 4), run.entries, run.end)
  }

  method SubencSdg(kind: SubencKind, resp: seq<Byte>, len: int) returns (page: SubencPage)
    requires IsRespBuffer(resp) && len <= |resp|
    ensures page == SubencRecords(kind, resp, len)
  {
    if len < 4 {
      return SubencTooShort;
    }
    var numSubs := resp[1] as nat + 1;
    var gen := BE32(resp, 4);
    var entries: seq<SubencText> := [];
    var off: nat := 8;
    var k := 0;
    while k < numSubs
      invariant k <= numSubs
      invariant EntryWalk(resp, len, k, numSubs, off, entries) == EntryWalk(resp, len, 0, numSubs, 8, [])
    {
      if Past(off, 4, len) {
        return SubencTexts(kind, numSubs - 1, gen, entries, SubencTruncated);
      }
      var el, entry := ReadEntry(resp, off);
      entries := entries + [entry];
      off := off + el;
      k := k + 1;
    }
    return SubencTexts(kind, numSubs - 1, gen, entries, SubencComplete);
  }

  /** One entry header: its length and what is printed for it. */
  method ReadEntry(resp: seq<Byte>, off: nat) returns (el: nat, entry: SubencText)
    requires off + 4 <= |resp|
    ensures el == EntryLen(resp, off) && entry == EntryAt(resp, off)
  {
    el := BE16(resp[off + 2], resp[off + 3]) + 4;
    var text := if el > 4 then Some(Range(off + 4, el - 4)) else None;
    EntryInside(resp, off);
    entry := SubencText(resp[off + 1], text);
  }

  method SubencHelpSdg(resp: seq<Byte>, len: int) returns (page: SubencPage)
    requires IsRespBuffer(resp) && len <= |resp|
    ensures page == SubencRecords(HelpText, resp, len)
  {
    page := SubencSdg(HelpText, resp, len);
  }

  method SubencStringSdg(resp: seq<Byte>, len: int) returns (page: SubencPage)
    requires IsRespBuffer(resp) && len <= |resp|
    ensures page == SubencRecords(StringIn, resp, len)
  {
    page := SubencSdg(StringIn, resp, len);
  }

  /** The entry header read directly from the buffer. */
  lemma EntryInside(resp: seq<Byte>, off: nat)
    requires off + 4 <= |resp|
    ensures var el := BE16(resp[off + 2], resp[off + 3]) + 4;
      EntryLen(resp, off) == el &&
      EntryAt(resp, off) == SubencText(resp[off + 1], if el > 4 then Some(Range(off + 4, el - 4)) else None)
  {
  }

  lemma EntryOffsetStep(resp: seq<Byte>, k: nat, off: nat)
    requires off == EntryOffset(resp, k)
    ensures EntryOffset(resp, k + 1) == off + EntryLen(resp, off)
  {
  }

  /** How far the entry loop gets: all n entries, or up to the first entry
      whose header fails the bounds test. */
  lemma {:induction false} EntryWalkCount(resp: seq<Byte>, len: int, k: nat, n: nat, off: nat, acc: seq<SubencText>)
    requires k <= n && |acc| == k && off == EntryOffset(resp, k)
    ensures var r := EntryWalk(resp, len, k, n, off, acc);
      k <= |r.entries| <= n &&
      (r.end == SubencComplete <==> |r.entries| == n) &&
      (r.end == SubencTruncated ==> Past(EntryOffset(resp, |r.entries|), 4, len))
    decreases n - k
  {
    if k < n && !Past(off, 4, len) {
      EntryOffsetStep(resp, k, off);
      EntryWalkCount(resp, len, k + 1, n, off + EntryLen(resp, off), acc + [EntryAt(resp, off)]);
    }
  }

  lemma {:induction false} EntryWalkPrefix(resp: seq<Byte>, len: int, k: nat, n: nat, off: nat, acc: seq<SubencText>)
    ensures var r := EntryWalk(resp, len, k, n, off, acc);
      |acc| <= |r.entries| && r.entries[..|acc|] == acc
    decreases n - k
  {
    if k < n && !Past(off, 4, len) {
      var acc' := acc + [EntryAt(resp, off)];
      EntryWalkPrefix(resp, len, k + 1, n, off + EntryLen(resp, off), acc');
      var r := EntryWalk(resp, len, k + 1, n, off + EntryLen(resp, off), acc');
      assert r.entries[..|acc|] == (r.entries[..|acc'|])[..|acc|];
    }
  }

  /** Entry i is the one at EntryOffset(i), whose header passed the bounds
      test (so lies inside the page). */
  lemma {:induction false} EntryWalkAt(resp: seq<Byte>, len: int, k: nat, n: nat, off: nat, acc: seq<SubencText>, i: nat)
    requires k <= n && |acc| == k && off == EntryOffset(resp, k)
    requires k <= i < |EntryWalk(resp, len, k, n, off, acc).entries|
    ensures var r := EntryWalk(resp, len, k, n, off, acc);
      r.entries[i] == EntryAt(resp, EntryOffset(resp, i)) && !Past(EntryOffset(resp, i), 4, len)
    decreases n - k
  {
    var acc' := acc + [EntryAt(resp, off)];
    var next := off + EntryLen(resp, off);
    EntryOffsetStep(resp, k, off);
    if i == k {
      EntryWalkPrefix(resp, len, k + 1, n, next, acc');
      var r := EntryWalk(resp, len, k + 1, n, next, acc');
      assert r.entries[i] == (r.entries[..|acc'|])[i];
    } else {
      EntryWalkAt(resp, len, k + 1, n, next, acc', i);
    }
  }

  /** Any page of 4 bytes or more is decoded, whatever its generation code:
      there is no stale-page check on these pages. */
  lemma SubencNoGenerationCheck(kind: SubencKind, resp: seq<Byte>, len: int)
    requires IsRespBuffer(resp)
    ensures var p := SubencRecords(kind, resp, len);
      (p.SubencTooShort? <==> len < 4) &&
      (p.SubencTexts? ==> p.kind == kind && p.others == resp[1] as nat && p.generation == BE32(resp, 4))
  {
  }

  /** The page lists resp[1] + 1 entries unless an entry header fails the
      bounds test, at the offset where the next entry would start. */
  lemma SubencPageEnd(kind: SubencKind, resp: seq<Byte>, len: int)
    requires IsRespBuffer(resp) && 4 <= len
    ensures var p := SubencRecords(kind, resp, len);
      p.SubencTexts? && |p.entries| <= p.others + 1 &&
      (p.end == SubencComplete <==> |p.entries| == p.others + 1) &&
      (p.end == SubencTruncated ==> Past(EntryOffset(resp, |p.entries|), 4, len))
  {
    EntryWalkCount(resp, len, 0, resp[1] as nat + 1, 8, []);
  }

  /** Entry i: the subenclosure identifier is byte 1 of its header, and
      its text is the bytes after the header up to the next entry, or
      absent exactly when the length field is zero. */
  lemma SubencEntry(kind: SubencKind, resp: seq<Byte>, len: int, i: nat)
    requires IsRespBuffer(resp) && 4 <= len <= |resp|
    requires i < |SubencRecords(kind, resp, len).entries|
    ensures var p := SubencRecords(kind, resp, len);
      var o := EntryOffset(resp, i);
      !Past(o, 4, len) && o + 4 < len &&
      p.entries[i].subencId == resp[o + 1] &&
      (p.entries[i].text.None? <==> resp[o + 2] == 0 && resp[o + 3] == 0) &&
      (p.entries[i].text.Some? ==>
         p.entries[i].text.value.start == o + 4 &&
         p.entries[i].text.value.start + p.entries[i].text.value.len == EntryOffset(resp, i + 1))
  {
    EntryWalkAt(resp, len, 0, resp[1] as nat + 1, 8, [], i);
    EntryShape(resp, i, EntryOffset(resp, i));
  }

  lemma EntryShape(resp: seq<Byte>, i: nat, o: nat)
    requires o == EntryOffset(resp, i) && o + 4 <= |resp|
    ensures var t := EntryAt(resp, o);
      t.subencId == resp[o + 1] &&
      (t.text.None? <==> resp[o + 2] == 0 && resp[o + 3] == 0) &&
      (t.text.Some? ==> t.text.value.start == o + 4 && t.text.value.start + t.text.value.len == EntryOffset(resp, i + 1))
  {
    EntryInside(resp, o);
    EntryOffsetStep(resp, i, o);
    LengthFieldZero(resp[o + 2], resp[o + 3]);
  }

  lemma LengthFieldZero(hi: Byte, lo: Byte)
    ensures BE16(hi, lo) == 0 <==> hi == 0 && lo == 0
  {
  }

  // ---------------------------------------------------------------------
  // Supported diagnostic pages

  /** The page codes listed from byte 4 + k on, after code `prev`: the list
      ends at the page end or at the first code smaller than the one
      before it (taken to be padding). */
  function SupportedWalk(resp: seq<Byte>, len: int, k: nat, prev: Byte, acc: seq<Byte>): seq<Byte>
    decreases len - k
  {
    if k >= len - 4 then acc
    else
      var code := ByteAt(resp, k + 4);
      if code < prev then acc else SupportedWalk(resp, len, k + 1, code, acc + [code])
  }

  function SupportedCodes(resp: seq<Byte>, len: int): seq<Byte> {
    SupportedWalk(resp, len, 0, 0, [])
  }

  method SupportedPagesSdg(resp: seq<Byte>, len: int) returns (codes: seq<Byte>, names: seq<Option<string>>)
    requires len <= |resp|
    ensures codes == SupportedCodes(resp, len)
    ensures |names| == |codes|
    ensures forall i :: 0 <= i < |codes| ==> names[i] == Catalog.Lookup(Catalog.PageCodeTable, codes[i] as nat)
  {
    codes := [];
    names := [];
    var prev: Byte := 0;
    var k := 0;
    while k < len - 4
      invariant |codes| == k && |names| == k
      invariant SupportedWalk(resp, len, k, prev, codes) == SupportedCodes(resp, len)
      invariant forall i :: 0 <= i < k ==> names[i] == Catalog.Lookup(Catalog.PageCodeTable, codes[i] as nat)
      decreases len - k
    {
      var code := resp[k + 4];
      if code < prev {
        return;
      }
      var cp := Catalog.FindDesc(Catalog.PageCodeTable, code as nat);
      codes := codes + [code];
      names := names + [cp];
      prev := code;
      k := k + 1;
    }
  }

  lemma {:induction false} SupportedWalkPrefix(resp: seq<Byte>, len: int, k: nat, prev: Byte, acc: seq<Byte>)
    ensures var r := SupportedWalk(resp, len, k, prev, acc);
      |acc| <= |r| && r[..|acc|] == acc
    decreases len - k
  {
    if k < len - 4 && ByteAt(resp, k + 4) >= prev {
      var acc' := acc + [ByteAt(resp, k + 4)];
      SupportedWalkPrefix(resp, len, k + 1, ByteAt(resp, k + 4), acc');
      var r := SupportedWalk(resp, len, k + 1, ByteAt(resp, k + 4), acc');
      assert r[..|acc|] == (r[..|acc'|])[..|acc|];
    }
  }

  /** The codes listed from position k on are the page's bytes from 4 + k
      on, in order. */
  lemma {:induction false} SupportedWalkBytes(resp: seq<Byte>, len: int, k: nat, prev: Byte, acc: seq<Byte>)
    requires |acc| == k && forall i :: 0 <= i < k ==> acc[i] == ByteAt(resp, i + 4)
    ensures var r := SupportedWalk(resp, len, k, prev, acc);
      k <= |r| && (r == acc || |r| <= len - 4) && forall i :: 0 <= i < |r| ==> r[i] == ByteAt(resp, i + 4)
    decreases len - k
  {
    if k < len - 4 {
      var code := ByteAt(resp, k + 4);
      if code >= prev {
        SupportedWalkBytes(resp, len, k + 1, code, acc + [code]);
      }
    }
  }

  /** Each listed code is at least the one before it. */
  lemma {:induction false} SupportedWalkSorted(resp: seq<Byte>, len: int, k: nat, prev: Byte, acc: seq<Byte>)
    requires |acc| > 0 ==> acc[|acc| - 1] == prev
    requires forall i :: 0 <= i < |acc| - 1 ==> acc[i] <= acc[i + 1]
    ensures forall i :: 0 <= i < |SupportedWalk(resp, len, k, prev, acc)| - 1 ==>
      SupportedWalk(resp, len, k, prev, acc)[i] <= SupportedWalk(resp, len, k, prev, acc)[i + 1]
    decreases len - k
  {
    if k < len - 4 {
      var code := ByteAt(resp, k + 4);
      if code >= prev {
        var acc' := acc + [code];
        assert forall i :: 0 <= i < |acc'| - 1 ==> acc'[i] <= acc'[i + 1] by {
          forall i | 0 <= i < |acc'| - 1 ensures acc'[i] <= acc'[i + 1] {
            if i + 1 < |acc| {
              assert acc'[i] == acc[i] && acc'[i + 1] == acc[i + 1];
            }
          }
        }
        SupportedWalkSorted(resp, len, k + 1, code, acc');
      }
    }
  }

  /** The list stops before the page end only in front of a code smaller
      than the last one listed (a code is never smaller than the initial
      0, so the first one is always listed). */
  lemma {:induction false} SupportedWalkStop(resp: seq<Byte>, len: int, k: nat, prev: Byte, acc: seq<Byte>)
    requires |acc| == k && (k > 0 ==> acc[k - 1] == prev) && (k == 0 ==> prev == 0)
    ensures var r := SupportedWalk(resp, len, k, prev, acc);
      |r| < len - 4 ==> |r| > 0 && ByteAt(resp, |r| + 4) < r[|r| - 1]
    decreases len - k
  {
    if k < len - 4 {
      var code := ByteAt(resp, k + 4);
      if code >= prev {
        SupportedWalkStop(resp, len, k + 1, code, acc + [code]);
      }
    }
  }

  /** The listed codes are bytes 4, 5, ... of the page, never decreasing;
      there are at most len - 4 of them, and fewer only when the next byte
      is smaller than the last code listed.  In particular the list is the
      longest non-decreasing run from byte 4 within the page. */
  lemma SupportedCodesShape(resp: seq<Byte>, len: int)
    ensures var r := SupportedCodes(resp, len);
      (forall i :: 0 <= i < |r| ==> r[i] == ByteAt(resp, i + 4)) &&
      (forall i :: 0 <= i < |r| - 1 ==> r[i] <= r[i + 1]) &&
      (len <= 4 ==> r == []) &&
      (len > 4 ==> |r| <= len - 4) &&
      (|r| < len - 4 ==> |r| > 0 && ByteAt(resp, |r| + 4) < r[|r| - 1])
  {
    SupportedWalkBytes(resp, len, 0, 0, []);
    SupportedWalkSorted(resp, len, 0, 0, []);
    SupportedWalkStop(resp, len, 0, 0, []);
  }
}
