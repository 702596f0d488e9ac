/** The three status-type pages that are decoded against the element type
    headers of the configuration page: Enclosure status (ses_enclosure_sdg),
    Threshold In (ses_threshold_sdg) and Element descriptor
    (ses_element_desc_sdg).  All three move one cursor over the page: per
    element type an overall record, bounds checked, then `numElements`
    element records, not bounds checked.  Status and threshold records are
    4 bytes long; an element descriptor is `BE16(bytes 2..3) + 4` bytes. */
module StatusPages {

  import opened Bytes
  import opened Config
  import opened ElementStatus
  import opened Threshold

  /** How a record's length is found. */
  datatype RecordKind =
    | FixedRecords        // status and threshold records: 4 bytes
    | DescriptorRecords   // element descriptors: descriptor length + 4

  /** How a walk over the records ended. */
  datatype PageEnd =
    | Complete            // every element type was decoded
    | Truncated           // an overall record failed the bounds test ("response too short")
    | PastBuffer          // an unchecked element record would be read beyond the buffer

  /** The length of the record at `off` (the byte reads lie inside the
      buffer wherever the walk applies it). */
  function RecordLen(resp: seq<Byte>, kind: RecordKind, off: int): nat {
    if kind == FixedRecords then 4 else DescLen(resp, off)
  }

  /** An element descriptor's length: its big-endian length field (bytes
      2 and 3) plus the 4-byte descriptor header. */
  function DescLen(resp: seq<Byte>, off: int): nat {
    At(resp, off + 2) * 256 + At(resp, off + 3) + 4
  }

  // ---------------------------------------------------------------------
  // Reference layout

  /** The number of records that come before element type k's overall
      record: one overall record and `numElements` element records per
      earlier type. */
  function SlotCount(hdrs: seq<ElementHdr>, k: nat): nat
    requires k <= |hdrs|
  {
    if k == 0 then 0 else SlotCount(hdrs, k - 1) + 1 + hdrs[k - 1].numElements as nat
  }

  /** The offset of the r-th record of the page: records follow the 8-byte
      page header back to back. */
  function SlotOffset(resp: seq<Byte>, kind: RecordKind, r: nat): nat {
    if r == 0 then 8
    else
      var p := SlotOffset(resp, kind, r - 1);
      p + RecordLen(resp, kind, p)
  }

  // ---------------------------------------------------------------------
  // The cursor walk

  /** What a decoder reports about the records of one element type: the
      type's header fields, its overall record and its element records. */
  datatype TypeView<V> = TypeView(etype: Byte, seId: Byte, overall: V, elements: seq<V>)

  /** Where the records of one element type were found. */
  type TypeSlots = TypeView<nat>

  datatype SlotRun = SlotRun(types: seq<TypeSlots>, end: PageEnd)

  datatype ElemRun = ElemRun(offs: seq<nat>, next: nat, ok: bool)

  /** The inner loop over element records j..n-1 from `off`: no test
      against the page length, so it only stops when a record would leave
      the buffer. */
  function ElementSlots(resp: seq<Byte>, kind: RecordKind, off: nat, j: nat, n: nat,
                        acc: seq<nat>): ElemRun
    decreases n - j
  {
    if j >= n then ElemRun(acc, off, true)
    else if off + 4 > |resp| then ElemRun(acc, off, false)
    else ElementSlots(resp, kind, off + RecordLen(resp, kind, off), j + 1, n, acc + [off])
  }

  /** The element records of the type whose overall record is at `off`. */
  function InnerWalk(resp: seq<Byte>, kind: RecordKind, off: nat, n: nat): ElemRun {
    ElementSlots(resp, kind, off + RecordLen(resp, kind, off), 0, n, [])
  }

  /** The outer loop over element types k.. from `off`: each overall record
      must pass the bounds test. */
  function SlotWalk(resp: seq<Byte>, len: int, kind: RecordKind, hdrs: seq<ElementHdr>,
                    k: nat, off: nat, acc: seq<TypeSlots>): SlotRun
    decreases |hdrs| - k
  {
    if k >= |hdrs| then SlotRun(acc, Complete)
    else if Past(off, 4, len) then SlotRun(acc, Truncated)
    else
      var e := InnerWalk(resp, kind, off, hdrs[k].numElements as nat);
      var t := TypeView(hdrs[k].etype, hdrs[k].seId, off, e.offs);
      if e.ok then SlotWalk(resp, len, kind, hdrs, k + 1, e.next, acc + [t])
      else SlotRun(acc + [t], PastBuffer)
  }

  function Walk(resp: seq<Byte>, len: int, kind: RecordKind, hdrs: seq<ElementHdr>): SlotRun {
    SlotWalk(resp, len, kind, hdrs, 0, 8, [])
  }

  /** The cursor loops shared by the three decoders. */
  method WalkSlots(resp: seq<Byte>, len: int, kind: RecordKind, hdrs: seq<ElementHdr>)
    returns (run: SlotRun)
    ensures run == Walk(resp, len, kind, hdrs)
  {
    var types: seq<TypeSlots> := [];
    var off: nat := 8;
    var k := 0;
    while k < |hdrs|
      invariant k <= |hdrs|
      invariant SlotWalk(resp, len, kind, hdrs, k, off, types) == Walk(resp, len, kind, hdrs)
    {
      if Past(off, 4, len) {
        return SlotRun(types, Truncated);
      }
      var n := hdrs[k].numElements as nat;
      var overall := off;
      var first := off + RecordLen(resp, kind, off);
      off := first;
      var els: seq<nat> := [];
      var j := 0;
      while j < n
        invariant j <= n
        invariant ElementSlots(resp, kind, off, j, n, els) == InnerWalk(resp, kind, overall, n)
      {
        if off + 4 > |resp| {
          return SlotRun(types + [TypeView(hdrs[k].etype, hdrs[k].seId, overall, els)], PastBuffer);
        }
        els := els + [off];
        off := off + RecordLen(resp, kind, off);
        j := j + 1;
      }
      types := types + [TypeView(hdrs[k].etype, hdrs[k].seId, overall, els)];
      k := k + 1;
    }
    return SlotRun(types, Complete);
  }

  // ---------------------------------------------------------------------
  // Layout of the walk

  lemma SlotOffsetStep(resp: seq<Byte>, kind: RecordKind, r: nat, off: nat)
    requires off == SlotOffset(resp, kind, r)
    ensures SlotOffset(resp, kind, r + 1) == off + RecordLen(resp, kind, off)
  {
  }

  lemma {:induction false} ElementSlotsCount(resp: seq<Byte>, kind: RecordKind, base: nat,
                                             off: nat, j: nat, n: nat, acc: seq<nat>)
    requires j <= n && off == SlotOffset(resp, kind, base + j)
    ensures var w := ElementSlots(resp, kind, off, j, n, acc);
      var m := j + |w.offs| - |acc|;
      |acc| <= |w.offs| && m <= n &&
      (w.ok ==> m == n && w.next == SlotOffset(resp, kind, base + n)) &&
      (!w.ok ==> m < n && SlotOffset(resp, kind, base + m) + 4 > |resp|)
    decreases n - j
  {
    if j < n && off + 4 <= |resp| {
      var next := off + RecordLen(resp, kind, off);
      SlotOffsetStep(resp, kind, base + j, off);
      assert ElementSlots(resp, kind, off, j, n, acc) ==
        ElementSlots(resp, kind, next, j + 1, n, acc + [off]);
      ElementSlotsCount(resp, kind, base, next, j + 1, n, acc + [off]);
    }
  }

  lemma {:induction false} ElementSlotsPrefix(resp: seq<Byte>, kind: RecordKind,
                                              off: nat, j: nat, n: nat, acc: seq<nat>)
    ensures var w := ElementSlots(resp, kind, off, j, n, acc);
      |acc| <= |w.offs| && w.offs[..|acc|] == acc
    decreases n - j
  {
    if j < n && off + 4 <= |resp| {
      var next := off + RecordLen(resp, kind, off);
      ElementSlotsPrefix(resp, kind, next, j + 1, n, acc + [off]);
      var w := ElementSlots(resp, kind, next, j + 1, n, acc + [off]);
      assert w.offs[..|acc|] == (w.offs[..|acc| + 1])[..|acc|];
    }
  }

  /** Element record e is read at record offset `base + e`, inside the buffer. */
  lemma {:induction false} ElementSlotsAt(resp: seq<Byte>, kind: RecordKind, base: nat,
                                          off: nat, j: nat, n: nat, acc: seq<nat>, e: nat)
    requires j <= n && off == SlotOffset(resp, kind, base + j)
    requires j <= e < j + |ElementSlots(resp, kind, off, j, n, acc).offs| - |acc|
    ensures var w := ElementSlots(resp, kind, off, j, n, acc);
      w.offs[|acc| + (e - j)] == SlotOffset(resp, kind, base + e) &&
      SlotOffset(resp, kind, base + e) + 4 <= |resp|
    decreases n - j
  {
    assert j < n && off + 4 <= |resp|;
    var next := off + RecordLen(resp, kind, off);
    SlotOffsetStep(resp, kind, base + j, off);
    if e == j {
      ElementSlotsHead(resp, kind, off, j, n, acc);
    } else {
      assert ElementSlots(resp, kind, off, j, n, acc) ==
        ElementSlots(resp, kind, next, j + 1, n, acc + [off]);
      ElementSlotsAt(resp, kind, base, next, j + 1, n, acc + [off], e);
    }
  }

  /** The first record the inner walk takes is the one at its cursor. */
  lemma ElementSlotsHead(resp: seq<Byte>, kind: RecordKind, off: nat, j: nat, n: nat, acc: seq<nat>)
    requires j < n && off + 4 <= |resp|
    ensures |acc| < |ElementSlots(resp, kind, off, j, n, acc).offs|
    ensures ElementSlots(resp, kind, off, j, n, acc).offs[|acc|] == off
  {
    var next := off + RecordLen(resp, kind, off);
    ElementSlotsPrefix(resp, kind, next, j + 1, n, acc + [off]);
    var w := ElementSlots(resp, kind, next, j + 1, n, acc + [off]);
    assert w.offs[|acc|] == (w.offs[..|acc| + 1])[|acc|];
  }

  /** The element records of the type whose overall record is record b:
      they are the records that follow it, and when all lie inside the
      buffer the cursor ends at record b + 1 + n. */
  lemma InnerWalkCount(resp: seq<Byte>, kind: RecordKind, b: nat, o: nat, n: nat)
    requires o == SlotOffset(resp, kind, b)
    ensures var w := InnerWalk(resp, kind, o, n);
      |w.offs| <= n && (w.ok ==> |w.offs| == n && w.next == SlotOffset(resp, kind, b + 1 + n))
  {
    var first := o + RecordLen(resp, kind, o);
    SlotOffsetStep(resp, kind, b, o);
    ElementSlotsCount(resp, kind, b + 1, first, 0, n, []);
  }

  /** An inner walk that stops early stops at a record that would leave
      the buffer. */
  lemma InnerWalkStops(resp: seq<Byte>, kind: RecordKind, b: nat, o: nat, n: nat)
    requires o == SlotOffset(resp, kind, b)
    ensures var w := InnerWalk(resp, kind, o, n);
      !w.ok ==> |w.offs| < n && SlotOffset(resp, kind, b + 1 + |w.offs|) + 4 > |resp|
  {
    var first := o + RecordLen(resp, kind, o);
    SlotOffsetStep(resp, kind, b, o);
    ElementSlotsCount(resp, kind, b + 1, first, 0, n, []);
  }

  lemma InnerWalkAt(resp: seq<Byte>, kind: RecordKind, b: nat, o: nat, n: nat, e: nat)
    requires o == SlotOffset(resp, kind, b)
    requires e < |InnerWalk(resp, kind, o, n).offs|
    ensures var r := SlotOffset(resp, kind, b + 1 + e);
      InnerWalk(resp, kind, o, n).offs[e] == r && r + 4 <= |resp|
  {
    var first := o + RecordLen(resp, kind, o);
    SlotOffsetStep(resp, kind, b, o);
    ElementSlotsAt(resp, kind, b + 1, first, 0, n, [], e);
  }

  /** A completed inner walk leaves the cursor at the next type's overall
      record. */
  lemma AdvanceType(resp: seq<Byte>, kind: RecordKind, hdrs: seq<ElementHdr>, k: nat, o: nat)
    requires k < |hdrs| && o == SlotOffset(resp, kind, SlotCount(hdrs, k))
    ensures var w := InnerWalk(resp, kind, o, hdrs[k].numElements as nat);
      w.ok ==> w.next == SlotOffset(resp, kind, SlotCount(hdrs, k + 1))
  {
    var b := SlotCount(hdrs, k);
    var n := hdrs[k].numElements as nat;
    InnerWalkCount(resp, kind, b, o, n);
    assert SlotCount(hdrs, k + 1) == b + 1 + n;
  }

  /** One step of the outer loop. */
  lemma SlotWalkStep(resp: seq<Byte>, len: int, kind: RecordKind, hdrs: seq<ElementHdr>,
                     k: nat, off: nat, acc: seq<TypeSlots>)
    requires k < |hdrs| && !Past(off, 4, len)
    ensures var e := InnerWalk(resp, kind, off, hdrs[k].numElements as nat);
      var t := TypeView(hdrs[k].etype, hdrs[k].seId, off, e.offs);
      SlotWalk(resp, len, kind, hdrs, k, off, acc) ==
        if e.ok then SlotWalk(resp, len, kind, hdrs, k + 1, e.next, acc + [t]) else SlotRun(acc + [t], PastBuffer)
  {
  }

  lemma {:induction false} SlotWalkPrefix(resp: seq<Byte>, len: int, kind: RecordKind,
                                          hdrs: seq<ElementHdr>, k: nat, off: nat, acc: seq<TypeSlots>)
    ensures var r := SlotWalk(resp, len, kind, hdrs, k, off, acc);
      |acc| <= |r.types| && r.types[..|acc|] == acc
    decreases |hdrs| - k
  {
    if k < |hdrs| && !Past(off, 4, len) {
      SlotWalkStep(resp, len, kind, hdrs, k, off, acc);
      var e := InnerWalk(resp, kind, off, hdrs[k].numElements as nat);
      var t := TypeView(hdrs[k].etype, hdrs[k].seId, off, e.offs);
      if e.ok {
        SlotWalkPrefix(resp, len, kind, hdrs, k + 1, e.next, acc + [t]);
        var r := SlotWalk(resp, len, kind, hdrs, k + 1, e.next, acc + [t]);
        assert r.types[..|acc|] == (r.types[..|acc| + 1])[..|acc|];
      }
    }
  }

  /** How far the outer loop gets and why it stops. */
  lemma {:induction false} SlotWalkCount(resp: seq<Byte>, len: int, kind: RecordKind,
                                         hdrs: seq<ElementHdr>, k: nat, off: nat, acc: seq<TypeSlots>)
    requires k <= |hdrs| && off == SlotOffset(resp, kind, SlotCount(hdrs, k))
    ensures var r := SlotWalk(resp, len, kind, hdrs, k, off, acc);
      var m := k + |r.types| - |acc|;
      |acc| <= |r.types| && m <= |hdrs| &&
      (r.end == Complete ==> m == |hdrs|) &&
      (r.end == Truncated ==> m < |hdrs| && Past(SlotOffset(resp, kind, SlotCount(hdrs, m)), 4, len)) &&
      (r.end == PastBuffer ==> k < m)
    decreases |hdrs| - k
  {
    if k < |hdrs| && !Past(off, 4, len) {
      SlotWalkStep(resp, len, kind, hdrs, k, off, acc);
      var e := InnerWalk(resp, kind, off, hdrs[k].numElements as nat);
      if e.ok {
        AdvanceType(resp, kind, hdrs, k, off);
        var t := TypeView(hdrs[k].etype, hdrs[k].seId, off, e.offs);
        SlotWalkCount(resp, len, kind, hdrs, k + 1, e.next, acc + [t]);
      }
    }
  }

  /** The outer loop adds an entry only for a type whose overall record
      passes the bounds test. */
  lemma SlotWalkGrows(resp: seq<Byte>, len: int, kind: RecordKind, hdrs: seq<ElementHdr>,
                      k: nat, off: nat, acc: seq<TypeSlots>)
    ensures |acc| < |SlotWalk(resp, len, kind, hdrs, k, off, acc).types| ==> k < |hdrs| && !Past(off, 4, len)
  {
  }

  /** The entry the outer loop adds for type k. */
  lemma SlotWalkHead(resp: seq<Byte>, len: int, kind: RecordKind, hdrs: seq<ElementHdr>,
                     k: nat, off: nat, acc: seq<TypeSlots>)
    requires k < |hdrs| && !Past(off, 4, len)
    ensures var r := SlotWalk(resp, len, kind, hdrs, k, off, acc);
      |acc| < |r.types| &&
      r.types[|acc|] == TypeView(hdrs[k].etype, hdrs[k].seId, off, InnerWalk(resp, kind, off, hdrs[k].numElements as nat).offs)
  {
    SlotWalkStep(resp, len, kind, hdrs, k, off, acc);
    var e := InnerWalk(resp, kind, off, hdrs[k].numElements as nat);
    var t := TypeView(hdrs[k].etype, hdrs[k].seId, off, e.offs);
    if e.ok {
      SlotWalkPrefix(resp, len, kind, hdrs, k + 1, e.next, acc + [t]);
      var r := SlotWalk(resp, len, kind, hdrs, k + 1, e.next, acc + [t]);
      assert r.types[|acc|] == (r.types[..|acc| + 1])[|acc|];
    }
  }

  /** Type k's inner walk completed exactly when the walk went on past it
      or did not end past the buffer. */
  lemma SlotWalkHeadOk(resp: seq<Byte>, len: int, kind: RecordKind, hdrs: seq<ElementHdr>,
                       k: nat, off: nat, acc: seq<TypeSlots>)
    requires k < |hdrs| && !Past(off, 4, len) && off == SlotOffset(resp, kind, SlotCount(hdrs, k))
    ensures var r := SlotWalk(resp, len, kind, hdrs, k, off, acc);
      InnerWalk(resp, kind, off, hdrs[k].numElements as nat).ok <==>
        |acc| + 1 < |r.types| || r.end != PastBuffer
  {
    SlotWalkStep(resp, len, kind, hdrs, k, off, acc);
    var e := InnerWalk(resp, kind, off, hdrs[k].numElements as nat);
    var t := TypeView(hdrs[k].etype, hdrs[k].seId, off, e.offs);
    if e.ok {
      AdvanceType(resp, kind, hdrs, k, off);
      SlotWalkCount(resp, len, kind, hdrs, k + 1, e.next, acc + [t]);
    }
  }

  /** Element type j's entry: its overall record at record index
      SlotCount(j), passing the bounds test, then the element records of
      the inner walk from it. */
  lemma {:induction false} SlotWalkTypeAt(resp: seq<Byte>, len: int, kind: RecordKind,
                                          hdrs: seq<ElementHdr>, k: nat, off: nat,
                                          acc: seq<TypeSlots>, j: nat)
    requires k <= |hdrs| && off == SlotOffset(resp, kind, SlotCount(hdrs, k))
    requires k <= j < k + |SlotWalk(resp, len, kind, hdrs, k, off, acc).types| - |acc|
    ensures j < |hdrs|
    ensures var r := SlotWalk(resp, len, kind, hdrs, k, off, acc);
      var o := SlotOffset(resp, kind, SlotCount(hdrs, j));
      !Past(o, 4, len) &&
      r.types[|acc| + (j - k)] == TypeView(hdrs[j].etype, hdrs[j].seId, o, InnerWalk(resp, kind, o, hdrs[j].numElements as nat).offs)
    decreases |hdrs| - k
  {
    SlotWalkGrows(resp, len, kind, hdrs, k, off, acc);
    if j == k {
      SlotWalkHead(resp, len, kind, hdrs, k, off, acc);
    } else {
      SlotWalkStep(resp, len, kind, hdrs, k, off, acc);
      var e := InnerWalk(resp, kind, off, hdrs[k].numElements as nat);
      var t := TypeView(hdrs[k].etype, hdrs[k].seId, off, e.offs);
      if e.ok {
        AdvanceType(resp, kind, hdrs, k, off);
        SlotWalkTypeAt(resp, len, kind, hdrs, k + 1, e.next, acc + [t], j);
      }
    }
  }

  /** The inner walk of element type j completed exactly when the page
      did not end past the buffer at that type. */
  lemma {:induction false} SlotWalkTypeOk(resp: seq<Byte>, len: int, kind: RecordKind,
                                          hdrs: seq<ElementHdr>, k: nat, off: nat,
                                          acc: seq<TypeSlots>, j: nat)
    requires k <= |hdrs| && off == SlotOffset(resp, kind, SlotCount(hdrs, k))
    requires k <= j < k + |SlotWalk(resp, len, kind, hdrs, k, off, acc).types| - |acc|
    ensures j < |hdrs|
    ensures var r := SlotWalk(resp, len, kind, hdrs, k, off, acc);
      var o := SlotOffset(resp, kind, SlotCount(hdrs, j));
      InnerWalk(resp, kind, o, hdrs[j].numElements as nat).ok <==>
        j + 1 < k + |r.types| - |acc| || r.end != PastBuffer
    decreases |hdrs| - k
  {
    SlotWalkGrows(resp, len, kind, hdrs, k, off, acc);
    if j == k {
      SlotWalkHeadOk(resp, len, kind, hdrs, k, off, acc);
    } else {
      SlotWalkStep(resp, len, kind, hdrs, k, off, acc);
      var e := InnerWalk(resp, kind, off, hdrs[k].numElements as nat);
      var t := TypeView(hdrs[k].etype, hdrs[k].seId, off, e.offs);
      if e.ok {
        AdvanceType(resp, kind, hdrs, k, off);
        SlotWalkTypeOk(resp, len, kind, hdrs, k + 1, e.next, acc + [t], j);
      }
    }
  }

  // ---------------------------------------------------------------------
  // The walk from the first record

  /** Why the walk from the page header stops: it completes all element
      types, or an overall record fails the bounds test, or it ends past
      the buffer after reaching at least one type. */
  lemma WalkEnd(resp: seq<Byte>, len: int, kind: RecordKind, hdrs: seq<ElementHdr>)
    ensures var r := Walk(resp, len, kind, hdrs);
      |r.types| <= |hdrs| &&
      (r.end == Complete ==> |r.types| == |hdrs|) &&
      (r.end == Truncated ==> (|r.types| < |hdrs| &&
         Past(SlotOffset(resp, kind, SlotCount(hdrs, |r.types|)), 4, len))) &&
      (r.end == PastBuffer ==> 0 < |r.types|)
  {
    SlotWalkCount(resp, len, kind, hdrs, 0, 8, []);
  }

  /** A walk that ends past the buffer ends at an element record of the
      last type reached that would be read (partly) beyond the buffer:
      element records are never tested against the page length. */
  lemma WalkPastBuffer(resp: seq<Byte>, len: int, kind: RecordKind, hdrs: seq<ElementHdr>)
    requires Walk(resp, len, kind, hdrs).end == PastBuffer
    ensures var r := Walk(resp, len, kind, hdrs);
      0 < |r.types| <= |hdrs| &&
      var m := |r.types| - 1;
      var got := |r.types[m].elements|;
      got < hdrs[m].numElements as nat &&
      SlotOffset(resp, kind, SlotCount(hdrs, m) + 1 + got) + 4 > |resp|
  {
    var r := Walk(resp, len, kind, hdrs);
    SlotWalkCount(resp, len, kind, hdrs, 0, 8, []);
    var m := |r.types| - 1;
    SlotWalkTypeAt(resp, len, kind, hdrs, 0, 8, [], m);
    SlotWalkTypeOk(resp, len, kind, hdrs, 0, 8, [], m);
    var o := SlotOffset(resp, kind, SlotCount(hdrs, m));
    InnerWalkStops(resp, kind, SlotCount(hdrs, m), o, hdrs[m].numElements as nat);
  }

  /** Element type j's overall record is record SlotCount(j) of the page and
      passed the bounds test. */
  lemma WalkTypeAt(resp: seq<Byte>, len: int, kind: RecordKind, hdrs: seq<ElementHdr>, j: nat)
    requires j < |Walk(resp, len, kind, hdrs).types|
    ensures j < |hdrs|
    ensures var r := Walk(resp, len, kind, hdrs);
      r.types[j].etype == hdrs[j].etype && r.types[j].seId == hdrs[j].seId &&
      r.types[j].overall == SlotOffset(resp, kind, SlotCount(hdrs, j)) &&
      !Past(r.types[j].overall, 4, len)
  {
    SlotWalkTypeAt(resp, len, kind, hdrs, 0, 8, [], j);
  }

  /** A type the walk finished shows all its element records; the last
      type of a walk that ended past the buffer shows fewer. */
  lemma WalkTypeElements(resp: seq<Byte>, len: int, kind: RecordKind, hdrs: seq<ElementHdr>, j: nat)
    requires j < |Walk(resp, len, kind, hdrs).types|
    ensures j < |hdrs|
    ensures var r := Walk(resp, len, kind, hdrs);
      |r.types[j].elements| <= hdrs[j].numElements as nat &&
      (|r.types[j].elements| == hdrs[j].numElements as nat <==> j + 1 < |r.types| || r.end != PastBuffer)
  {
    SlotWalkTypeAt(resp, len, kind, hdrs, 0, 8, [], j);
    SlotWalkTypeOk(resp, len, kind, hdrs, 0, 8, [], j);
    var o := SlotOffset(resp, kind, SlotCount(hdrs, j));
    InnerWalkCount(resp, kind, SlotCount(hdrs, j), o, hdrs[j].numElements as nat);
    InnerWalkStops(resp, kind, SlotCount(hdrs, j), o, hdrs[j].numElements as nat);
  }

  /** Element record e of element type j is record SlotCount(j) + 1 + e of
      the page, and it lies inside the buffer. */
  lemma WalkElementAt(resp: seq<Byte>, len: int, kind: RecordKind, hdrs: seq<ElementHdr>, j: nat, e: nat)
    requires j < |Walk(resp, len, kind, hdrs).types|
    requires e < |Walk(resp, len, kind, hdrs).types[j].elements|
    ensures j < |hdrs|
    ensures var o := SlotOffset(resp, kind, SlotCount(hdrs, j) + 1 + e);
      Walk(resp, len, kind, hdrs).types[j].elements[e] == o && o + 4 <= |resp|
  {
    SlotWalkTypeAt(resp, len, kind, hdrs, 0, 8, [], j);
    var o := SlotOffset(resp, kind, SlotCount(hdrs, j));
    InnerWalkAt(resp, kind, SlotCount(hdrs, j), o, hdrs[j].numElements as nat, e);
  }

  /** On the status and threshold pages record r starts at 8 + 4r, so
      element type k's overall record is at 8 + 4 * sum over i < k of
      (1 + numElements_i). */
  lemma {:induction false} FixedSlotOffset(resp: seq<Byte>, r: nat)
    ensures SlotOffset(resp, FixedRecords, r) == 8 + 4 * r
  {
    if r > 0 {
      FixedSlotOffset(resp, r - 1);
    }
  }

  /** The element records are not checked against the page length: a page
      of 13 bytes with one element type of three elements is decoded in
      full, with records read at 12, 16 and 20. */
  lemma InnerRecordsUnchecked(resp: seq<Byte>, h: ElementHdr)
    requires IsRespBuffer(resp) && h.numElements == 3
    ensures Walk(resp, 13, FixedRecords, [h]) == SlotRun([TypeView(h.etype, h.seId, 8, [12, 16, 20])], Complete)
  {
    assert ElementSlots(resp, FixedRecords, 12, 0, 3, []) == ElementSlots(resp, FixedRecords, 16, 1, 3, [12]);
    assert ElementSlots(resp, FixedRecords, 16, 1, 3, [12]) == ElementSlots(resp, FixedRecords, 20, 2, 3, [12, 16]);
    assert ElementSlots(resp, FixedRecords, 20, 2, 3, [12, 16]) == ElemRun([12, 16, 20], 24, true);
    var t := TypeView(h.etype, h.seId, 8, [12, 16, 20]);
    assert [h][0].numElements as nat == 3 && 8 + RecordLen(resp, FixedRecords, 8) == 12;
    assert [] + [t] == [t];
    assert Walk(resp, 13, FixedRecords, [h]) == SlotWalk(resp, 13, FixedRecords, [h], 1, 24, [t]);
  }

  // ---------------------------------------------------------------------
  // Pages

  /** The outcome of decoding a status-type page with header fields H. */
  datatype DiagPage<H, V> =
    | PageTooShort                                   // "response too short" before any field
    | HeaderOnly(header: H)                          // header fields shown, then too short for the generation code
    | GenerationChanged(header: H, generation: nat)  // "state of enclosure changed": no record is read
    | Decoded(header: H, generation: nat, types: seq<TypeView<V>>, end: PageEnd)

  /** The part of a page after the 8-byte header, each record given by the
      offset it is read from: records are decoded only when the page's
      generation code equals the one the configuration page reported. */
  function Records<H>(resp: seq<Byte>, len: int, refGen: nat, kind: RecordKind,
                      hdrs: seq<ElementHdr>, header: H): (p: DiagPage<H, nat>)
    requires 8 <= |resp|
    ensures p.GenerationChanged? || p.Decoded?
    ensures p.header == header && p.generation == BE32(resp, 4)
    ensures p.Decoded? <==> BE32(resp, 4) == refGen
  {
    var gen := BE32(resp, 4);
    if refGen != gen then GenerationChanged(header, gen)
    else
      var run := Walk(resp, len, kind, hdrs);
      Decoded(header, gen, run.types, run.end)
  }

  /** The page ends as its walk does: completed, truncated at an overall
      record that fails the bounds test, or past the buffer. */
  lemma RecordsEnd<H>(resp: seq<Byte>, len: int, refGen: nat, kind: RecordKind,
                      hdrs: seq<ElementHdr>, header: H)
    requires 8 <= |resp|
    ensures var p := Records(resp, len, refGen, kind, hdrs, header);
      p.Decoded? ==>
        |p.types| <= |hdrs| &&
        (p.end == Complete ==> |p.types| == |hdrs|) &&
        (p.end == Truncated ==> (|p.types| < |hdrs| &&
           Past(SlotOffset(resp, kind, SlotCount(hdrs, |p.types|)), 4, len))) &&
        (p.end == PastBuffer ==> 0 < |p.types|)
  {
    WalkEnd(resp, len, kind, hdrs);
  }

  /** A page with every record replaced by what `show` makes of it, given
      the element type, the element number (-1 for the overall record)
      and the record. */
  function MapPage<H, U, V>(p: DiagPage<H, U>, show: (Byte, int, U) -> V): DiagPage<H, V> {
    match p
    case PageTooShort => PageTooShort
    case HeaderOnly(h) => HeaderOnly(h)
    case GenerationChanged(h, g) => GenerationChanged(h, g)
    case Decoded(h, g, ts, end) =>
      Decoded(h, g, seq(|ts|, i requires 0 <= i < |ts| => MapType(ts[i], show)), end)
  }

  function MapType<U, V>(t: TypeView<U>, show: (Byte, int, U) -> V): TypeView<V> {
    TypeView(t.etype, t.seId, show(t.etype, -1, t.overall),
             seq(|t.elements|, e requires 0 <= e < |t.elements| => show(t.etype, e, t.elements[e])))
  }

  /** Showing the records changes neither the outcome nor the number of
      records, and shows each record in place. */
  lemma MapPageShape<H, U, V>(p: DiagPage<H, U>, show: (Byte, int, U) -> V)
    ensures var q := MapPage(p, show);
      (q.PageTooShort? <==> p.PageTooShort?) && (q.HeaderOnly? <==> p.HeaderOnly?) &&
      (q.GenerationChanged? <==> p.GenerationChanged?) && (q.Decoded? <==> p.Decoded?) &&
      (!q.PageTooShort? ==> q.header == p.header) &&
      (q.GenerationChanged? || q.Decoded? ==> q.generation == p.generation) &&
      (q.Decoded? ==> |q.types| == |p.types| && q.end == p.end)
  {
  }

  lemma MapPageAt<H, U, V>(p: DiagPage<H, U>, show: (Byte, int, U) -> V, j: nat)
    requires p.Decoded? && j < |p.types|
    ensures var q := MapPage(p, show);
      q.Decoded? && j < |q.types| &&
      q.types[j].etype == p.types[j].etype && q.types[j].seId == p.types[j].seId &&
      q.types[j].overall == show(p.types[j].etype, -1, p.types[j].overall) &&
      |q.types[j].elements| == |p.types[j].elements|
  {
  }

  lemma MapPageElementAt<H, U, V>(p: DiagPage<H, U>, show: (Byte, int, U) -> V, j: nat, e: nat)
    requires p.Decoded? && j < |p.types| && e < |p.types[j].elements|
    ensures var q := MapPage(p, show);
      q.Decoded? && j < |q.types| && e < |q.types[j].elements| &&
      q.types[j].elements[e] == show(p.types[j].etype, e, p.types[j].elements[e])
  {
  }

  /** The record at `off` as four bytes (zeros beyond the sequence, which
      the walk never reaches). */
  function Rec4At(resp: seq<Byte>, off: int): Rec4 {
    Rec4(ByteAt(resp, off), ByteAt(resp, off + 1), ByteAt(resp, off + 2), ByteAt(resp, off + 3))
  }

  lemma Rec4AtInside(resp: seq<Byte>, off: nat)
    requires off + 4 <= |resp|
    ensures Rec4At(resp, off) == RecAt(resp, off)
  {
  }

  // ---------------------------------------------------------------------
  // Enclosure status page (ses_enclosure_sdg)

  datatype EnclosureFlags = EnclosureFlags(invop: bool, info: bool, nonCrit: bool, crit: bool, unrecov: bool)

  /** Byte 1 of the enclosure status page. */
  function EnclosureFlagsOf(b: Byte): EnclosureFlags {
    EnclosureFlags(Bit(b, 0x10), Bit(b, 0x8), Bit(b, 0x4), Bit(b, 0x2), Bit(b, 0x1))
  }

  function EnclosureFlagsByte(f: EnclosureFlags): Byte {
    (if f.invop then 0x10 else 0) | (if f.info then 0x8 else 0) | (if f.nonCrit then 0x4 else 0) |
    (if f.crit then 0x2 else 0) | (if f.unrecov then 0x1 else 0)
  }

  /** The five flags are exactly the low five bits of byte 1. */
  lemma EnclosureFlagsRoundTrip(b: Byte)
    ensures EnclosureFlagsByte(EnclosureFlagsOf(b)) == b & 0x1f
  {
  }

  /** Where the records of a page of 4-byte records lie (the enclosure
      status and threshold pages): under 4 bytes nothing is shown, under 8
      only the header byte's flags, and then the records are walked. */
  function FixedPage<H>(hdrs: seq<ElementHdr>, refGen: nat, resp: seq<Byte>, len: int, header: H): DiagPage<H, nat>
    requires IsRespBuffer(resp)
  {
    if len < 4 then PageTooShort
    else if len < 8 then HeaderOnly(header)
    else Records(resp, len, refGen, FixedRecords, hdrs, header)
  }

  /** A generation code other than the reference stops the decoder before
      any record; below 8 bytes no generation code is read. */
  lemma FixedPageGeneration<H>(hdrs: seq<ElementHdr>, refGen: nat, resp: seq<Byte>, len: int, header: H)
    requires IsRespBuffer(resp)
    ensures var p := FixedPage(hdrs, refGen, resp, len, header);
      (p.PageTooShort? <==> len < 4) &&
      (p.HeaderOnly? <==> 4 <= len < 8) &&
      (!p.PageTooShort? ==> p.header == header) &&
      (p.GenerationChanged? <==> 8 <= len && BE32(resp, 4) != refGen) &&
      (p.GenerationChanged? ==> p.generation == BE32(resp, 4)) &&
      (p.Decoded? ==> p.generation == refGen)
  {
  }

  /** Element type j's overall record is the 4 bytes at 8 + 4 * SlotCount(j),
      which pass the bounds test; a type shows all its elements unless the
      page ended past the buffer within it. */
  lemma FixedPageOverallAt<H>(hdrs: seq<ElementHdr>, refGen: nat, resp: seq<Byte>, len: int, header: H, j: nat)
    requires IsRespBuffer(resp)
    requires FixedPage(hdrs, refGen, resp, len, header).Decoded?
    requires j < |FixedPage(hdrs, refGen, resp, len, header).types|
    ensures j < |hdrs|
    ensures var p := FixedPage(hdrs, refGen, resp, len, header);
      p.types[j].etype == hdrs[j].etype && p.types[j].seId == hdrs[j].seId &&
      p.types[j].overall == 8 + 4 * SlotCount(hdrs, j) && !Past(p.types[j].overall, 4, len) &&
      |p.types[j].elements| <= hdrs[j].numElements as nat &&
      (|p.types[j].elements| == hdrs[j].numElements as nat <==> j + 1 < |p.types| || p.end != PastBuffer)
  {
    WalkTypeAt(resp, len, FixedRecords, hdrs, j);
    WalkTypeElements(resp, len, FixedRecords, hdrs, j);
    FixedSlotOffset(resp, SlotCount(hdrs, j));
  }

  /** Element e of element type j is the 4 bytes at
      8 + 4 * (SlotCount(j) + 1 + e), inside the buffer. */
  lemma FixedPageElementAt<H>(hdrs: seq<ElementHdr>, refGen: nat, resp: seq<Byte>, len: int, header: H,
                              j: nat, e: nat)
    requires IsRespBuffer(resp)
    requires FixedPage(hdrs, refGen, resp, len, header).Decoded?
    requires j < |FixedPage(hdrs, refGen, resp, len, header).types|
    requires e < |FixedPage(hdrs, refGen, resp, len, header).types[j].elements|
    ensures j < |hdrs|
    ensures var p := FixedPage(hdrs, refGen, resp, len, header);
      var o := 8 + 4 * (SlotCount(hdrs, j) + 1 + e);
      p.types[j].elements[e] == o && o + 4 <= |resp|
  {
    WalkElementAt(resp, len, FixedRecords, hdrs, j, e);
    FixedSlotOffset(resp, SlotCount(hdrs, j) + 1 + e);
  }

  /** Where the enclosure status page's records lie. */
  function EnclosureRecords(hdrs: seq<ElementHdr>, refGen: nat, resp: seq<Byte>, len: int): DiagPage<EnclosureFlags, nat>
    requires IsRespBuffer(resp)
  {
    FixedPage(hdrs, refGen, resp, len, EnclosureFlagsOf(resp[1]))
  }

  datatype StatusView = StatusHex(raw: Rec4) | StatusShown(status: ElemStatus)

  /** A status record as --inner-hex shows it, or as print_over_elem_status
      decodes it. */
  function StatusAt(resp: seq<Byte>, off: int, etype: Byte, innerHex: bool, filter: bool): StatusView {
    var rec := Rec4At(resp, off);
    if innerHex then StatusHex(rec) else StatusShown(OverElemStatus(rec, etype, filter))
  }

  function ShowStatus(resp: seq<Byte>, innerHex: bool, filter: bool): (Byte, int, nat) -> StatusView {
    (etype: Byte, n: int, off: nat) => StatusAt(resp, off, etype, innerHex, filter)
  }

  type EnclosurePage = DiagPage<EnclosureFlags, StatusView>

  method EnclosureSdg(hdrs: seq<ElementHdr>, refGen: nat, resp: seq<Byte>, len: int,
                      innerHex: bool, filter: bool) returns (page: EnclosurePage)
    requires IsRespBuffer(resp)
    ensures page == MapPage(EnclosureRecords(hdrs, refGen, resp, len), ShowStatus(resp, innerHex, filter))
  {
    if len < 4 {
      return PageTooShort;
    }
    var flags := EnclosureFlagsOf(resp[1]);
    if len < 8 {
      return HeaderOnly(flags);
    }
    var gen := BE32(resp, 4);
    if refGen != gen {
      return GenerationChanged(flags, gen);
    }
    var run := WalkSlots(resp, len, FixedRecords, hdrs);
    page := MapPage(Decoded(flags, gen, run.types, run.end), ShowStatus(resp, innerHex, filter));
  }

  // ---------------------------------------------------------------------
  // Threshold In page (ses_threshold_sdg)

  /** Where the threshold page's records lie; its header is the INVOP bit. */
  function ThresholdRecords(hdrs: seq<ElementHdr>, refGen: nat, resp: seq<Byte>, len: int): DiagPage<bool, nat>
    requires IsRespBuffer(resp)
  {
    FixedPage(hdrs, refGen, resp, len, Bit(resp[1], 0x10))
  }

  /** Each threshold record as ses_threshold_helper shows it: -1 marks the
      overall threshold. */
  function ShowThreshold(resp: seq<Byte>, innerHex: bool): (Byte, int, nat) -> ThresholdLine {
    (etype: Byte, n: int, off: nat) => ThresholdHelper(Rec4At(resp, off), etype, n, innerHex)
  }

  type ThresholdPage = DiagPage<bool, ThresholdLine>

  method ThresholdSdg(hdrs: seq<ElementHdr>, refGen: nat, resp: seq<Byte>, len: int,
                      innerHex: bool) returns (page: ThresholdPage)
    requires IsRespBuffer(resp)
    ensures page == MapPage(ThresholdRecords(hdrs, refGen, resp, len), ShowThreshold(resp, innerHex))
  {
    if len < 4 {
      return PageTooShort;
    }
    var invop := Bit(resp[1], 0x10);
    if len < 8 {
      return HeaderOnly(invop);
    }
    var gen := BE32(resp, 4);
    if refGen != gen {
      return GenerationChanged(invop, gen);
    }
    var run := WalkSlots(resp, len, FixedRecords, hdrs);
    page := MapPage(Decoded(invop, gen, run.types, run.end), ShowThreshold(resp, innerHex));
  }

  /** The threshold line of element e of type j is labelled with element
      number e + 1, and the overall line as the overall threshold. */
  lemma ThresholdLabels(hdrs: seq<ElementHdr>, refGen: nat, resp: seq<Byte>, len: int, innerHex: bool,
                        j: nat, e: nat)
    requires IsRespBuffer(resp)
    requires ThresholdRecords(hdrs, refGen, resp, len).Decoded?
    requires j < |ThresholdRecords(hdrs, refGen, resp, len).types|
    requires e < |ThresholdRecords(hdrs, refGen, resp, len).types[j].elements|
    ensures var q := MapPage(ThresholdRecords(hdrs, refGen, resp, len), ShowThreshold(resp, innerHex));
      q.Decoded? && j < |q.types| && e < |q.types[j].elements| &&
      q.types[j].overall.which == OverallThreshold &&
      q.types[j].elements[e].which == ElementThreshold(e + 1)
  {
    var p := ThresholdRecords(hdrs, refGen, resp, len);
    var show := ShowThreshold(resp, innerHex);
    MapPageAt(p, show, j);
    MapPageElementAt(p, show, j, e);
  }

  // ---------------------------------------------------------------------
  // Element Descriptor In page (ses_element_desc_sdg)

  /** Where the element descriptor page's records lie: it has no header
      flags, and under 8 bytes nothing is shown. */
  function ElementDescRecords(hdrs: seq<ElementHdr>, refGen: nat, resp: seq<Byte>, len: int): DiagPage<(), nat>
    requires IsRespBuffer(resp)
  {
    if len < 8 then PageTooShort
    else Records(resp, len, refGen, DescriptorRecords, hdrs, ())
  }

  /** The descriptor text of the record at `off`, or None for "<empty>". */
  function DescriptorAt(resp: seq<Byte>, off: int): Option<Range> {
    var d := DescLen(resp, off);
    if d > 4 then Some(Range(off + 4, d - 4)) else None
  }

  function ShowDescriptor(resp: seq<Byte>): (Byte, int, nat) -> Option<Range> {
    (etype: Byte, n: int, off: nat) => DescriptorAt(resp, off)
  }

  type ElementDescPage = DiagPage<(), Option<Range>>

  method ElementDescSdg(hdrs: seq<ElementHdr>, refGen: nat, resp: seq<Byte>, len: int)
    returns (page: ElementDescPage)
    requires IsRespBuffer(resp)
    ensures page == MapPage(ElementDescRecords(hdrs, refGen, resp, len), ShowDescriptor(resp))
  {
    if len < 4 {
      return PageTooShort;
    }
    if len < 8 {
      return PageTooShort;
    }
    var gen := BE32(resp, 4);
    if refGen != gen {
      return GenerationChanged((), gen);
    }
    var run := WalkSlots(resp, len, DescriptorRecords, hdrs);
    page := MapPage(Decoded((), gen, run.types, run.end), ShowDescriptor(resp));
  }

  /** The element descriptor page never shows a header alone, and decodes
      records only under the reference generation code. */
  lemma ElementDescGeneration(hdrs: seq<ElementHdr>, refGen: nat, resp: seq<Byte>, len: int)
    requires IsRespBuffer(resp)
    ensures var p := ElementDescRecords(hdrs, refGen, resp, len);
      !p.HeaderOnly? &&
      (p.PageTooShort? <==> len < 8) &&
      (p.GenerationChanged? <==> 8 <= len && BE32(resp, 4) != refGen) &&
      (p.GenerationChanged? ==> p.generation == BE32(resp, 4)) &&
      (p.Decoded? ==> p.generation == refGen)
  {
  }

  /** A descriptor is empty exactly when its length field (bytes 2..3) is
      zero, and its text runs from the end of its 4-byte header to the
      next record. */
  lemma DescriptorAdvance(resp: seq<Byte>, r: nat, o: nat)
    requires o == SlotOffset(resp, DescriptorRecords, r)
    ensures DescriptorAt(resp, o).None? <==> ByteAt(resp, o + 2) == 0 && ByteAt(resp, o + 3) == 0
    ensures SlotOffset(resp, DescriptorRecords, r + 1) ==
      match DescriptorAt(resp, o)
      case Some(t) => t.start + t.len
      case None => o + 4
  {
    SlotOffsetStep(resp, DescriptorRecords, r, o);
  }

  /** Element type j's overall descriptor is record SlotCount(j) of the
      page and passed the bounds test; element e's descriptor is record
      SlotCount(j) + 1 + e and its header lies inside the buffer. */
  lemma ElementDescOverallAt(hdrs: seq<ElementHdr>, refGen: nat, resp: seq<Byte>, len: int, j: nat)
    requires IsRespBuffer(resp)
    requires ElementDescRecords(hdrs, refGen, resp, len).Decoded?
    requires j < |ElementDescRecords(hdrs, refGen, resp, len).types|
    ensures j < |hdrs|
    ensures var p := ElementDescRecords(hdrs, refGen, resp, len);
      p.types[j].etype == hdrs[j].etype && p.types[j].seId == hdrs[j].seId &&
      p.types[j].overall == SlotOffset(resp, DescriptorRecords, SlotCount(hdrs, j)) &&
      !Past(p.types[j].overall, 4, len) &&
      |p.types[j].elements| <= hdrs[j].numElements as nat &&
      (|p.types[j].elements| == hdrs[j].numElements as nat <==> j + 1 < |p.types| || p.end != PastBuffer)
  {
    WalkTypeAt(resp, len, DescriptorRecords, hdrs, j);
    WalkTypeElements(resp, len, DescriptorRecords, hdrs, j);
  }

  lemma ElementDescElementAt(hdrs: seq<ElementHdr>, refGen: nat, resp: seq<Byte>, len: int, j: nat, e: nat)
    requires IsRespBuffer(resp)
    requires ElementDescRecords(hdrs, refGen, resp, len).Decoded?
    requires j < |ElementDescRecords(hdrs, refGen, resp, len).types|
    requires e < |ElementDescRecords(hdrs, refGen, resp, len).types[j].elements|
    ensures j < |hdrs|
    ensures var p := ElementDescRecords(hdrs, refGen, resp, len);
      var o := SlotOffset(resp, DescriptorRecords, SlotCount(hdrs, j) + 1 + e);
      p.types[j].elements[e] == o && o + 4 <= |resp|
  {
    WalkElementAt(resp, len, DescriptorRecords, hdrs, j, e);
  }
}
