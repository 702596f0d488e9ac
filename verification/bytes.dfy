/** Byte-level vocabulary shared by every SES page decoder: the byte type,
    the buffer capacities of sg_ses, big-endian fields, the source's cursor
    bounds test and the byte ranges that printf/dStrHex would render. */
module Bytes {

  type Byte = bv8

  datatype Option<T> = None | Some(value: T)

  /** Size of every response buffer handed to RECEIVE DIAGNOSTIC RESULTS. */
  const MX_ALLOC_LEN: nat := 4096

  /** Capacity of the element type header array. */
  const MX_ELEM_HDR: nat := 512

  /** A received response buffer: always the full allocation. */
  predicate IsRespBuffer(resp: seq<Byte>) {
    |resp| == MX_ALLOC_LEN
  }

  /** Index of a byte inside a 4-byte record. */
  type ByteIx = i: nat | i < 4

  /** A 4-byte status, threshold or element type record. */
  datatype Rec4 = Rec4(b0: Byte, b1: Byte, b2: Byte, b3: Byte) {
    function Get(i: ByteIx): Byte {
      if i == 0 then b0 else if i == 1 then b1 else if i == 2 then b2 else b3
    }
  }

  const Zero4: Rec4 := Rec4(0, 0, 0, 0)

  function RecAt(resp: seq<Byte>, off: nat): (r: Rec4)
    requires off + 4 <= |resp|
    ensures r.b0 == resp[off] && r.b1 == resp[off + 1] && r.b2 == resp[off + 2] && r.b3 == resp[off + 3]
  {
    Rec4(resp[off], resp[off + 1], resp[off + 2], resp[off + 3])
  }

  /** Byte-wise AND and OR of two records. */
  function And4(a: Rec4, m: Rec4): Rec4 {
    Rec4(a.b0 & m.b0, a.b1 & m.b1, a.b2 & m.b2, a.b3 & m.b3)
  }

  function Or4(a: Rec4, b: Rec4): Rec4 {
    Rec4(a.b0 | b.b0, a.b1 | b.b1, a.b2 | b.b2, a.b3 | b.b3)
  }

  /** A record holding `m` at byte `i` and zeros elsewhere. */
  function Single(i: ByteIx, m: Byte): (r: Rec4)
    ensures r.Get(i) == m
  {
    if i == 0 then Rec4(m, 0, 0, 0) else if i == 1 then Rec4(0, m, 0, 0)
    else if i == 2 then Rec4(0, 0, m, 0) else Rec4(0, 0, 0, m)
  }

  /** Masking a record with a one-byte mask keeps that byte under the mask
      and clears the other three. */
  lemma AndSingle(r: Rec4, ix: ByteIx, m: Byte)
    ensures And4(r, Single(ix, m)) == Single(ix, r.Get(ix) & m)
  {
    if ix == 0 {
      AndSingleAt0(r, ix, m);
    } else if ix == 1 {
      AndSingleAt1(r, ix, m);
    } else if ix == 2 {
      AndSingleAt2(r, ix, m);
    } else {
      AndSingleAt3(r, ix, m);
    }
  }

  // AndSingle at each byte index in turn.  Each case is immediate on its
  // own; one proof obligation holding all four makes the solver bit-blast
  // far more than the four together.
  lemma AndSingleAt0(r: Rec4, ix: ByteIx, m: Byte)
    requires ix == 0
    ensures And4(r, Single(ix, m)) == Single(ix, r.Get(ix) & m)
  {
  }

  lemma AndSingleAt1(r: Rec4, ix: ByteIx, m: Byte)
    requires ix == 1
    ensures And4(r, Single(ix, m)) == Single(ix, r.Get(ix) & m)
  {
  }

  lemma AndSingleAt2(r: Rec4, ix: ByteIx, m: Byte)
    requires ix == 2
    ensures And4(r, Single(ix, m)) == Single(ix, r.Get(ix) & m)
  {
  }

  lemma AndSingleAt3(r: Rec4, ix: ByteIx, m: Byte)
    requires ix == 3
    ensures And4(r, Single(ix, m)) == Single(ix, r.Get(ix) & m)
  {
  }

  lemma OrOfMasks(r: Rec4, a: Rec4, b: Rec4)
    ensures Or4(And4(r, a), And4(r, b)) == And4(r, Or4(a, b))
  {
  }

  /** Masking a record with all-ones and all-zeros bytes keeps and clears them. */
  lemma AndFullOrEmpty(r: Rec4)
    ensures r.b0 & 0xff == r.b0 && r.b1 & 0xff == r.b1 && r.b2 & 0xff == r.b2 && r.b3 & 0xff == r.b3
    ensures r.b0 & 0 == 0 && r.b1 & 0 == 0 && r.b2 & 0 == 0 && r.b3 & 0 == 0
  {
  }

  /** Two bytes read as a big-endian unsigned 16-bit number. */
  function BE16(hi: Byte, lo: Byte): (r: nat)
    ensures r < 0x1_0000
    ensures r / 256 == hi as nat && r % 256 == lo as nat
  {
    hi as nat * 256 + lo as nat
  }

  /** Four bytes at `off` read as a big-endian unsigned 32-bit number
      (the generation code). */
  function BE32(s: seq<Byte>, off: nat): (r: nat)
    requires off + 4 <= |s|
    ensures r < 0x1_0000_0000
    ensures r / 0x1_0000 == BE16(s[off], s[off + 1]) && r % 0x1_0000 == BE16(s[off + 2], s[off + 3])
  {
    BE16(s[off], s[off + 1]) * 0x1_0000 + BE16(s[off + 2], s[off + 3])
  }

  /** The low eight bits of an integer, the source's `v & 0xff`. */
  function LowByte(v: int): Byte {
    (v % 256) as bv8
  }

  lemma ByteBack(b: Byte)
    ensures LowByte(b as int) == b
  {
    assert (b as int) % 256 == b as int;
  }

  /** The byte at `i`, or 0 outside the sequence (used only by reference
      definitions, where the callers have already shown `i` is in range). */
  function ByteAt(s: seq<Byte>, i: int): Byte {
    if 0 <= i < |s| then s[i] else 0
  }

  function At(s: seq<Byte>, i: int): nat {
    ByteAt(s, i) as nat
  }

  /** The bounds test every page walker of sg_ses applies to its cursor:
      `ucp + width > last_ucp` with `last_ucp = resp + resp_len - 1`.  It
      is one byte stricter than "the record fits in the page": a record
      ending exactly at `resp_len` is already refused. */
  predicate Past(off: int, width: int, respLen: int) {
    off + width > respLen - 1
  }

  /** The bytes a `%.*s` or dStrHex call would render: `len` bytes from
      `start` (a non-positive length renders nothing). */
  datatype Range = Range(start: int, len: int)

  /** Bit test `(b & mask) != 0`, the source's `!!(b & mask)`. */
  predicate Bit(b: Byte, mask: Byte) {
    b & mask != 0
  }

}
