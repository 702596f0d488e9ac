/** The control side of sg_ses: the `--data` argument parsed by read_hex
    (its command-line branch: comma-separated hex bytes), and the control
    page main assembles from it, a 4-byte header in front of the data,
    sent only for the pages that have a control form. */
module Control {

  import opened Bytes

  // ---------------------------------------------------------------------
  // Characters and the C library scans read_hex relies on

  predicate IsHexDigit(c: char) {
    ('0' <= c <= '9') || ('a' <= c <= 'f') || ('A' <= c <= 'F')
  }

  /** The value of a hex digit (0 for any other character: the scans
      below only ask it of digits). */
  function HexDigitValue(c: char): (v: nat)
    ensures v < 16
  {
    if '0' <= c <= '9' then c as nat - '0' as nat
    else if 'a' <= c <= 'f' then c as nat - 'a' as nat + 10
    else if 'A' <= c <= 'F' then c as nat - 'A' as nat + 10
    else 0
  }

  /** The characters the command-line form may contain. */
  predicate Allowed(c: char) {
    IsHexDigit(c) || c == ','
  }

  /** strspn from i over the allowed characters. */
  function Span(s: string, i: nat): (j: nat)
    requires i <= |s|
    ensures i <= j <= |s|
    decreases |s| - i
  {
    if i == |s| || !Allowed(s[i]) then i else Span(s, i + 1)
  }

  /** Span stops at the first character outside the set, or at the end. */
  lemma {:induction false} SpanStops(s: string, i: nat)
    requires i <= |s|
    ensures Span(s, i) < |s| ==> !Allowed(s[Span(s, i)])
    ensures forall m :: i <= m < Span(s, i) ==> Allowed(s[m])
    decreases |s| - i
  {
    if i < |s| && Allowed(s[i]) {
      SpanStops(s, i + 1);
    }
  }

  /** Where the run of hex digits from i ends: the part of the string a
      `%x` conversion consumes (the allowed characters hold no sign, space
      or `x`, so nothing else can be consumed). */
  function HexEnd(s: string, i: nat): (j: nat)
    requires i <= |s|
    ensures i <= j <= |s|
    decreases |s| - i
  {
    if i == |s| || !IsHexDigit(s[i]) then i else HexEnd(s, i + 1)
  }

  /** HexEnd stops at the first character that is not a hex digit. */
  lemma {:induction false} HexEndStops(s: string, i: nat)
    requires i <= |s|
    ensures HexEnd(s, i) < |s| ==> !IsHexDigit(s[HexEnd(s, i)])
    ensures forall m :: i <= m < HexEnd(s, i) ==> IsHexDigit(s[m])
    decreases |s| - i
  {
    if i < |s| && IsHexDigit(s[i]) {
      HexEndStops(s, i + 1);
    }
  }

  /** The value of the hex digits s[i..j]. */
  function HexValue(s: string, i: nat, j: nat): nat
    requires i <= j <= |s|
    decreases j - i
  {
    if j == i then 0 else HexValue(s, i, j - 1) * 16 + HexDigitValue(s[j - 1])
  }

  /** strchr from i for a comma. */
  function CommaFrom(s: string, i: nat): (r: Option<nat>)
    requires i <= |s|
    ensures r.Some? ==> i <= r.value < |s| && s[r.value] == ','
    decreases |s| - i
  {
    if i == |s| then None else if s[i] == ',' then Some(i) else CommaFrom(s, i + 1)
  }

  // ---------------------------------------------------------------------
  // read_hex, command-line branch

  /** Each failure and the 0-based position it is reported at (the source
      prints position + 1). */
  datatype HexError =
    | BadChar(at: nat)       // a character outside [0-9a-fA-F,]
    | NoNumber(at: nat)      // an empty token: no hex digit where one is due
    | TooLarge(at: nat)      // a token whose value exceeds 0xff
    | Overflow(at: nat)      // a token that would be stored past the array's end

  /** `FromStdin` is the stdin branch, taken when the argument starts with
      '-': its lines are read with fgets, which is not part of this model. */
  datatype HexResult = HexOk(arrLen: nat) | HexFailed(err: HexError) | FromStdin

  /** The outcome and the bytes stored from the start of the array. */
  datatype Parse = Parse(result: HexResult, written: seq<Byte>)

  /** What one token of the scan loop does: the token's `%x` value, the
      range check, the room check, then the search for the next comma. */
  datatype Step = Stop(err: HexError) | Stored(b: Byte, next: Option<nat>)

  /** The byte whose value is v, counted up from zero. */
  function ToByte(v: nat): (b: Byte)
    requires v < 256
    decreases v
  {
    if v == 0 then 0 else ToByte(v - 1) + 1
  }

  lemma {:induction false} ToByteValue(v: nat)
    requires v < 256
    ensures ToByte(v) as nat == v
    decreases v
  {
    if v > 0 {
      ToByteValue(v - 1);
      var b := ToByte(v - 1);
      assert b as nat < 255;
      assert (b + 1) as nat == b as nat + 1;
    }
  }

  lemma ToByteOf(b: Byte)
    ensures ToByte(b as nat) == b
  {
    ToByteValue(b as nat);
  }

  function TokenStep(s: string, lcp: nat, k: nat, cap: nat): (r: Step)
    requires lcp <= |s|
    ensures r.Stored? && r.next.Some? ==> lcp <= r.next.value < |s| && s[r.next.value] == ','
    ensures r.Stop? ==> r.err.at == lcp && !r.err.BadChar?
  {
    var e := HexEnd(s, lcp);
    if e == lcp then Stop(NoNumber(lcp))
    else
      var h := HexValue(s, lcp, e);
      if h > 0xff then Stop(TooLarge(lcp))
      else if k >= cap then Stop(Overflow(lcp))
      else Stored(ToByte(h), CommaFrom(s, lcp))
  }

  /** The scan loop from token k, with the current token at `lcp` and
      room for `cap` bytes.  At most 1024 tokens are read; when the loop
      runs out with a comma still after the 1024th token, the length
      reported is 1025. */
  function ParseFrom(s: string, lcp: nat, k: nat, cap: nat, acc: seq<Byte>): Parse
    requires lcp <= |s|
    decreases 1024 - k
  {
    if k >= 1024 then Parse(HexOk(k + 1), acc)
    else match TokenStep(s, lcp, k, cap)
      case Stop(err) => Parse(HexFailed(err), acc)
      case Stored(x, next) =>
        if next.None? then Parse(HexOk(k + 1), acc + [x])
        else ParseFrom(s, next.value + 1, k + 1, cap, acc + [x])
  }

  /** An argument starting with '-' asks read_hex to read standard input. */
  predicate StdinForm(s: string) {
    |s| > 0 && s[0] == '-'
  }

  function ReadHexSpec(s: string, cap: nat): Parse {
    if StdinForm(s) then Parse(FromStdin, [])
    else
      var k := Span(s, 0);
      if k != |s| then Parse(HexFailed(BadChar(k)), [])
      else ParseFrom(s, 0, 0, cap, [])
  }

  /** arr holds the bytes w from arr[base] on. */
  ghost predicate StoredAt(arr: array<Byte>, base: nat, w: seq<Byte>)
    reads arr
  {
    base + |w| <= arr.Length && forall i :: base <= i < base + |w| ==> arr[i] == w[i - base]
  }

  /** read_hex on a command-line argument, storing from arr[base]; the
      rest of the array is left as it was.  An argument for the stdin
      branch is only recognised, and nothing is stored. */
  method ReadHex(inp: string, arr: array<Byte>, base: nat) returns (r: HexResult, ghost written: seq<Byte>)
    requires base <= arr.Length
    modifies arr
    ensures Parse(r, written) == ReadHexSpec(inp, arr.Length - base)
    ensures r.HexOk? ==> r.arrLen == |written| || (r.arrLen == 1025 && |written| == 1024)
    ensures StoredAt(arr, base, written)
    ensures forall i :: 0 <= i < arr.Length && !(base <= i < base + |written|) ==> arr[i] == old(arr[i])
  {
    if |inp| > 0 && inp[0] == '-' {
      return FromStdin, [];
    }
    var k := Span(inp, 0);
    if k != |inp| {
      ReadHexBad(inp, arr.Length - base);
      return HexFailed(BadChar(k)), [];
    }
    r, written := ScanTokens(inp, arr, base);
    ReadHexScan(inp, arr.Length - base);
  }

  lemma ReadHexBad(s: string, cap: nat)
    requires !StdinForm(s) && Span(s, 0) != |s|
    ensures ReadHexSpec(s, cap) == Parse(HexFailed(BadChar(Span(s, 0))), [])
  {
  }

  lemma ReadHexScan(s: string, cap: nat)
    requires !StdinForm(s) && Span(s, 0) == |s|
    ensures ReadHexSpec(s, cap) == ParseFrom(s, 0, 0, cap, [])
  {
  }

  /** The scan loop of read_hex: up to 1024 tokens, each stored in turn. */
  method ScanTokens(inp: string, arr: array<Byte>, base: nat) returns (r: HexResult, ghost written: seq<Byte>)
    requires base <= arr.Length
    modifies arr
    ensures Parse(r, written) == ParseFrom(inp, 0, 0, arr.Length - base, [])
    ensures r.HexOk? ==> r.arrLen == |written| || (r.arrLen == 1025 && |written| == 1024)
    ensures base + |written| <= arr.Length
    ensures forall i :: base <= i < base + |written| ==> arr[i] == written[i - base]
    ensures forall i :: 0 <= i < arr.Length && !(base <= i < base + |written|) ==> arr[i] == old(arr[i])
  {
    var cap := arr.Length - base;
    ghost var spec := ParseFrom(inp, 0, 0, cap, []);
    var lcp: nat := 0;
    var k: nat := 0;
    written := [];
    var done := false;
    r := HexOk(0);
    while !done && k < 1024
      invariant lcp <= |inp| && k <= 1024 && k <= cap && base + |written| <= arr.Length
      invariant !done ==> |written| == k && ParseFrom(inp, lcp, k, cap, written) == spec
      invariant done ==> spec == Parse(r, written)
      invariant forall i :: base <= i < base + |written| ==> arr[i] == written[i - base]
      invariant forall i :: 0 <= i < arr.Length && !(base <= i < base + |written|) ==> arr[i] == old(arr[i])
      decreases 1024 - k, if done then 0 else 1
    {
      var t := ScanStep(inp, arr, base, lcp, k, written);
      if t.Stop? {
        ParseStop(inp, lcp, k, cap, written);
        r := HexFailed(t.err);
        done := true;
      } else if t.next.None? {
        ParseLast(inp, lcp, k, cap, written);
        written := written + [t.b];
        r := HexOk(k + 1);
        done := true;
      } else {
        ParseMore(inp, lcp, k, cap, written);
        written := written + [t.b];
        lcp := t.next.value + 1;
        k := k + 1;
      }
    }
    if !done {
      ParseLimit(inp, lcp, k, cap, written);
      r := HexOk(k + 1);
    }
    ParseFromOk(inp, 0, 0, cap, []);
  }

  /** A token the loop rejects ends the scan with that error. */
  lemma ParseStop(s: string, lcp: nat, k: nat, cap: nat, acc: seq<Byte>)
    requires lcp <= |s| && k < 1024 && TokenStep(s, lcp, k, cap).Stop?
    ensures ParseFrom(s, lcp, k, cap, acc) == Parse(HexFailed(TokenStep(s, lcp, k, cap).err), acc)
  {
  }

  /** A token with no comma after it is the last one stored. */
  lemma ParseLast(s: string, lcp: nat, k: nat, cap: nat, acc: seq<Byte>)
    requires lcp <= |s| && k < 1024
    requires TokenStep(s, lcp, k, cap).Stored? && TokenStep(s, lcp, k, cap).next.None?
    ensures ParseFrom(s, lcp, k, cap, acc) == Parse(HexOk(k + 1), acc + [TokenStep(s, lcp, k, cap).b])
  {
  }

  /** Otherwise the scan stores the byte and goes on after the comma. */
  lemma ParseMore(s: string, lcp: nat, k: nat, cap: nat, acc: seq<Byte>)
    requires lcp <= |s| && k < 1024
    requires TokenStep(s, lcp, k, cap).Stored? && TokenStep(s, lcp, k, cap).next.Some?
    ensures ParseFrom(s, lcp, k, cap, acc) ==
      ParseFrom(s, TokenStep(s, lcp, k, cap).next.value + 1, k + 1, cap, acc + [TokenStep(s, lcp, k, cap).b])
  {
  }

  /** The scan stops after 1024 tokens. */
  lemma ParseLimit(s: string, lcp: nat, k: nat, cap: nat, acc: seq<Byte>)
    requires lcp <= |s| && k >= 1024
    ensures ParseFrom(s, lcp, k, cap, acc) == Parse(HexOk(k + 1), acc)
  {
  }

  /** The loop body: read token k and store its byte at arr[base + k]. */
  method ScanStep(inp: string, arr: array<Byte>, base: nat, lcp: nat, k: nat, ghost written: seq<Byte>)
    returns (t: Step)
    requires lcp <= |inp| && base <= arr.Length && |written| == k && base + k <= arr.Length
    requires forall i :: base <= i < base + k ==> arr[i] == written[i - base]
    modifies arr
    ensures t == TokenStep(inp, lcp, k, arr.Length - base)
    ensures t.Stored? ==> base + k < arr.Length
    ensures t.Stored? ==> forall i :: base <= i < base + k + 1 ==> arr[i] == (written + [t.b])[i - base]
    ensures forall i :: 0 <= i < arr.Length && !(t.Stored? && i == base + k) ==> arr[i] == old(arr[i])
  {
    t := ReadToken(inp, lcp, k, arr.Length - base);
    if t.Stored? {
      StoreByte(arr, base, k, t.b, written);
    }
  }

  /** One pass of the scan loop's body: `%x` at lcp, the range check, the
      room check, then strchr for the next comma. */
  method ReadToken(inp: string, lcp: nat, k: nat, cap: nat) returns (t: Step)
    requires lcp <= |inp|
    ensures t == TokenStep(inp, lcp, k, cap)
  {
    var e := HexEnd(inp, lcp);
    if e == lcp {
      return Stop(NoNumber(lcp));
    }
    var h := HexValue(inp, lcp, e);
    if h > 0xff {
      return Stop(TooLarge(lcp));
    }
    if k >= cap {
      return Stop(Overflow(lcp));
    }
    var cp := CommaFrom(inp, lcp);
    return Stored(ToByte(h), cp);
  }

  /** arr[base + k] := b, after the k bytes written so far. */
  method StoreByte(arr: array<Byte>, base: nat, k: nat, b: Byte, ghost written: seq<Byte>)
    requires |written| == k && base + k < arr.Length
    requires forall i :: base <= i < base + |written| ==> arr[i] == written[i - base]
    modifies arr
    ensures forall i :: base <= i < base + |written| + 1 ==> arr[i] == (written + [b])[i - base]
    ensures forall i :: 0 <= i < arr.Length && i != base + |written| ==> arr[i] == old(arr[i])
  {
    arr[base + k] := b;
  }

  // ---------------------------------------------------------------------
  // What read_hex accepts

  /** The number of commas in s[i..]. */
  function CommasFrom(s: string, i: nat): nat
    requires i <= |s|
    decreases |s| - i
  {
    if i == |s| then 0 else CommasFrom(s, i + 1) + (if s[i] == ',' then 1 else 0)
  }

  /** Skipping to just past the next comma drops exactly one comma. */
  lemma {:induction false} CommaSkip(s: string, i: nat)
    requires i <= |s|
    ensures CommaFrom(s, i).Some? ==> CommasFrom(s, i) == 1 + CommasFrom(s, CommaFrom(s, i).value + 1)
    ensures CommaFrom(s, i).None? ==> CommasFrom(s, i) == 0
    decreases |s| - i
  {
    if i < |s| {
      CommaSkip(s, i + 1);
    }
  }

  /** The scan from token k keeps the bytes stored so far, adds at most
      one per token and never more than there is room for. */
  lemma {:induction false} ParseFromWritten(s: string, lcp: nat, k: nat, cap: nat, acc: seq<Byte>)
    requires lcp <= |s| && |acc| == k && k <= 1024 && k <= cap
    ensures k <= |ParseFrom(s, lcp, k, cap, acc).written| <= 1024
    ensures |ParseFrom(s, lcp, k, cap, acc).written| <= cap
    ensures ParseFrom(s, lcp, k, cap, acc).written[..k] == acc
    decreases 1024 - k
  {
    if k < 1024 {
      var t := TokenStep(s, lcp, k, cap);
      if t.Stored? && t.next.Some? {
        var acc' := acc + [t.b];
        ParseFromWritten(s, t.next.value + 1, k + 1, cap, acc');
        var w := ParseFrom(s, t.next.value + 1, k + 1, cap, acc').written;
        assert ParseFrom(s, lcp, k, cap, acc).written == w;
        assert w[..k] == (w[..k + 1])[..k];
      }
    }
  }

  /** A successful scan from token k: as many tokens as commas plus one
      (or 1025 reported when the 1024-token limit cuts the list short),
      one byte stored per token. */
  lemma {:induction false} ParseFromOk(s: string, lcp: nat, k: nat, cap: nat, acc: seq<Byte>)
    requires lcp <= |s| && |acc| == k && k <= 1024 && k <= cap
    ensures ParseFrom(s, lcp, k, cap, acc).result.HexOk? ==>
      (ParseFrom(s, lcp, k, cap, acc).result.arrLen == |ParseFrom(s, lcp, k, cap, acc).written| &&
       k + CommasFrom(s, lcp) == |ParseFrom(s, lcp, k, cap, acc).written| - 1) ||
      (ParseFrom(s, lcp, k, cap, acc).result.arrLen == 1025 && |ParseFrom(s, lcp, k, cap, acc).written| == 1024)
    decreases 1024 - k
  {
    if k < 1024 {
      var t := TokenStep(s, lcp, k, cap);
      if t.Stored? {
        CommaSkip(s, lcp);
        assert t.next == CommaFrom(s, lcp);
        if t.next.Some? {
          ParseFromOk(s, t.next.value + 1, k + 1, cap, acc + [t.b]);
        }
      }
    }
  }

  /** read_hex takes its stdin branch exactly for an argument starting
      with '-'.  Otherwise it fails on a character outside [0-9a-fA-F,] at
      the first such position, and on nothing else before the scan; on
      success every character is allowed, one byte is stored per
      comma-separated token, and the length it reports is the number of
      tokens (or 1025 past the 1024-token limit). */
  lemma ReadHexResult(s: string, cap: nat)
    ensures var p := ReadHexSpec(s, cap);
      |p.written| <= cap && |p.written| <= 1024 &&
      (p.result.FromStdin? <==> StdinForm(s)) &&
      ((p.result.HexFailed? && p.result.err.BadChar?) <==>
         !StdinForm(s) && exists m :: 0 <= m < |s| && !Allowed(s[m])) &&
      (p.result.HexFailed? && p.result.err.BadChar? ==>
         p.result.err.at < |s| && !Allowed(s[p.result.err.at]) &&
         forall m :: 0 <= m < p.result.err.at ==> Allowed(s[m])) &&
      (p.result.HexOk? ==>
         (forall m :: 0 <= m < |s| ==> Allowed(s[m])) &&
         ((p.result.arrLen == |p.written| && CommasFrom(s, 0) == |p.written| - 1) ||
          (p.result.arrLen == 1025 && |p.written| == 1024)))
  {
    SpanStops(s, 0);
    var k := Span(s, 0);
    if !StdinForm(s) && k == |s| {
      ParseFromWritten(s, 0, 0, cap, []);
      ParseFromOk(s, 0, 0, cap, []);
      ParseFromNotBadChar(s, 0, 0, cap, []);
    }
  }

  /** The scan loop never reports a bad character, nor the stdin branch. */
  lemma {:induction false} ParseFromNotBadChar(s: string, lcp: nat, k: nat, cap: nat, acc: seq<Byte>)
    requires lcp <= |s|
    ensures var p := ParseFrom(s, lcp, k, cap, acc);
      !(p.result.HexFailed? && p.result.err.BadChar?) && !p.result.FromStdin?
    decreases 1024 - k
  {
    if k < 1024 {
      var t := TokenStep(s, lcp, k, cap);
      if t.Stored? && t.next.Some? {
        ParseFromNotBadChar(s, t.next.value + 1, k + 1, cap, acc + [t.b]);
      }
    }
  }

  // ---------------------------------------------------------------------
  // What read_hex stores, token by token

  /** The comma-separated tokens of s[i..]: the text before each comma,
      then the text after the last one. */
  function SplitFrom(s: string, i: nat): (t: seq<string>)
    requires i <= |s|
    ensures |t| >= 1
    decreases |s| - i
  {
    match CommaFrom(s, i)
    case None => [s[i..]]
    case Some(c) => [s[i..c]] + SplitFrom(s, c + 1)
  }

  function Tokens(s: string): seq<string> {
    SplitFrom(s, 0)
  }

  /** The value of a token read as hex digits. */
  function HexNum(t: string): nat {
    if |t| == 0 then 0 else HexNum(t[..|t| - 1]) * 16 + HexDigitValue(t[|t| - 1])
  }

  /** Where token t starts, counting the comma after each earlier token. */
  function TokenStart(toks: seq<string>, t: nat): nat
    requires t <= |toks|
  {
    if t == 0 then 0 else TokenStart(toks, t - 1) + |toks[t - 1]| + 1
  }

  /** A token read as the idx-th byte is stored: it has digits, its value
      is at most 0xff and there is room for it. */
  predicate GoodToken(tok: string, idx: nat, cap: nat) {
    |tok| > 0 && HexNum(tok) <= 0xff && idx < cap
  }

  /** Why a token that is not stored is rejected, at its position. */
  function TokenError(tok: string, at: nat): HexError {
    if |tok| == 0 then NoNumber(at)
    else if HexNum(tok) > 0xff then TooLarge(at)
    else Overflow(at)
  }

  /** How many tokens from the front are stored, the first of them being
      read as byte idx. */
  function GoodPrefix(toks: seq<string>, idx: nat, cap: nat): (n: nat)
    ensures n <= |toks|
  {
    if |toks| == 0 || !GoodToken(toks[0], idx, cap) then 0
    else 1 + GoodPrefix(toks[1..], idx + 1, cap)
  }

  function Min(a: int, b: int): int {
    if a <= b then a else b
  }

  /** GoodPrefix counts the tokens up to the first one that is not stored. */
  lemma {:induction false} GoodPrefixStops(toks: seq<string>, idx: nat, cap: nat)
    ensures forall t :: 0 <= t < GoodPrefix(toks, idx, cap) ==> GoodToken(toks[t], idx + t, cap)
    ensures GoodPrefix(toks, idx, cap) < |toks| ==>
      !GoodToken(toks[GoodPrefix(toks, idx, cap)], idx + GoodPrefix(toks, idx, cap), cap)
    decreases |toks|
  {
    if |toks| > 0 && GoodToken(toks[0], idx, cap) {
      GoodPrefixStops(toks[1..], idx + 1, cap);
      forall t | 0 <= t < GoodPrefix(toks, idx, cap)
        ensures GoodToken(toks[t], idx + t, cap)
      {
        if t > 0 {
          assert toks[t] == toks[1..][t - 1];
        }
      }
    }
  }

  /** There is one token more than there are commas, and in a string of
      allowed characters every token is made of hex digits. */
  lemma {:induction false} SplitShape(s: string, i: nat)
    requires i <= |s|
    ensures |SplitFrom(s, i)| == CommasFrom(s, i) + 1
    ensures (forall m :: i <= m < |s| ==> Allowed(s[m])) ==>
      forall t, m :: 0 <= t < |SplitFrom(s, i)| && 0 <= m < |SplitFrom(s, i)[t]| ==> IsHexDigit(SplitFrom(s, i)[t][m])
    decreases |s| - i
  {
    CommaSkip(s, i);
    var c := CommaFrom(s, i);
    var toks := SplitFrom(s, i);
    CommaFromFirst(s, i);
    if c.Some? {
      SplitShape(s, c.value + 1);
      if forall m :: i <= m < |s| ==> Allowed(s[m]) {
        forall t, m | 0 <= t < |toks| && 0 <= m < |toks[t]| ensures IsHexDigit(toks[t][m]) {
          if t == 0 {
            assert toks[0][m] == s[i + m];
          } else {
            assert toks[t] == SplitFrom(s, c.value + 1)[t - 1];
          }
        }
      }
    } else if forall m :: i <= m < |s| ==> Allowed(s[m]) {
      forall t, m | 0 <= t < |toks| && 0 <= m < |toks[t]| ensures IsHexDigit(toks[t][m]) {
        assert toks[0][m] == s[i + m];
      }
    }
  }

  /** strchr finds the first comma: there is none before it. */
  lemma {:induction false} CommaFromFirst(s: string, i: nat)
    requires i <= |s|
    ensures forall m :: i <= m < (match CommaFrom(s, i) case None => |s| case Some(c) => c) ==> s[m] != ','
    decreases |s| - i
  {
    if i < |s| && s[i] != ',' {
      CommaFromFirst(s, i + 1);
    }
  }

  /** Positions in the tail of a token list are one token further on. */
  lemma {:induction false} TokenStartTail(toks: seq<string>, t: nat)
    requires 0 < t <= |toks|
    ensures TokenStart(toks, t) == |toks[0]| + 1 + TokenStart(toks[1..], t - 1)
    decreases t
  {
    if t > 1 {
      TokenStartTail(toks, t - 1);
      assert toks[t - 1] == toks[1..][t - 2];
    }
  }

  /** HexValue over a range is HexNum of that slice. */
  lemma {:induction false} HexValueNum(s: string, i: nat, j: nat)
    requires i <= j <= |s|
    ensures HexValue(s, i, j) == HexNum(s[i..j])
    decreases j - i
  {
    if j > i {
      HexValueNum(s, i, j - 1);
      assert s[i..j][..j - i - 1] == s[i..j - 1];
    }
  }

  /** In a string of allowed characters the `%x` digits run up to the next
      comma, or to the end. */
  lemma {:induction false} HexEndComma(s: string, i: nat)
    requires i <= |s| && forall m :: i <= m < |s| ==> Allowed(s[m])
    ensures HexEnd(s, i) == match CommaFrom(s, i) case None => |s| case Some(c) => c
    decreases |s| - i
  {
    if i < |s| && s[i] != ',' {
      HexEndComma(s, i + 1);
    }
  }

  /** The first token of s[lcp..]: where its digits end, its value and
      what follows it. */
  lemma {:induction false} HeadToken(s: string, lcp: nat)
    requires lcp <= |s| && forall m :: lcp <= m < |s| ==> Allowed(s[m])
    ensures var toks := SplitFrom(s, lcp);
      HexEnd(s, lcp) == lcp + |toks[0]| &&
      HexValue(s, lcp, HexEnd(s, lcp)) == HexNum(toks[0]) &&
      (CommaFrom(s, lcp).None? <==> |toks| == 1) &&
      (CommaFrom(s, lcp).Some? ==>
         CommaFrom(s, lcp).value == lcp + |toks[0]| && toks[1..] == SplitFrom(s, CommaFrom(s, lcp).value + 1))
  {
    HexEndComma(s, lcp);
    HexValueNum(s, lcp, HexEnd(s, lcp));
    assert SplitFrom(s, lcp)[0] == s[lcp..HexEnd(s, lcp)];
  }

  /** One pass of the scan loop in terms of the first token: it is stored
      when good, and otherwise rejected for its own reason. */
  lemma {:induction false} TokenStepHead(s: string, lcp: nat, k: nat, cap: nat)
    requires lcp <= |s| && forall m :: lcp <= m < |s| ==> Allowed(s[m])
    ensures var tok := SplitFrom(s, lcp)[0];
      TokenStep(s, lcp, k, cap) ==
        if GoodToken(tok, k, cap) then Stored(ToByte(HexNum(tok)), CommaFrom(s, lcp))
        else Stop(TokenError(tok, lcp))
  {
    HeadToken(s, lcp);
  }

  /** The scan loop stated over the tokens rather than the characters:
      token k (starting at `at`) is stored when good and rejected
      otherwise, the scan ending after the last token or at the 1024-token
      limit. */
  function ScanList(toks: seq<string>, at: nat, k: nat, cap: nat, acc: seq<Byte>): Parse
    requires |toks| >= 1
    decreases |toks|
  {
    if k >= 1024 then Parse(HexOk(k + 1), acc)
    else if !GoodToken(toks[0], k, cap) then Parse(HexFailed(TokenError(toks[0], at)), acc)
    else if |toks| == 1 then Parse(HexOk(k + 1), acc + [ToByte(HexNum(toks[0]))])
    else ScanList(toks[1..], at + |toks[0]| + 1, k + 1, cap, acc + [ToByte(HexNum(toks[0]))])
  }

  /** On a string of allowed characters the character scan is the token
      scan of its tokens. */
  lemma {:induction false} ParseFromList(s: string, lcp: nat, k: nat, cap: nat, acc: seq<Byte>)
    requires lcp <= |s| && forall m :: lcp <= m < |s| ==> Allowed(s[m])
    ensures ParseFrom(s, lcp, k, cap, acc) == ScanList(SplitFrom(s, lcp), lcp, k, cap, acc)
    decreases 1024 - k, 1
  {
    if k < 1024 {
      if !GoodToken(SplitFrom(s, lcp)[0], k, cap) {
        ListBad(s, lcp, k, cap, acc);
      } else if CommaFrom(s, lcp).None? {
        ListLast(s, lcp, k, cap, acc);
      } else {
        ListMore(s, lcp, k, cap, acc);
      }
    }
  }

  /** A bad token ends both scans with the same error. */
  lemma {:induction false} ListBad(s: string, lcp: nat, k: nat, cap: nat, acc: seq<Byte>)
    requires lcp <= |s| && forall m :: lcp <= m < |s| ==> Allowed(s[m])
    requires k < 1024 && !GoodToken(SplitFrom(s, lcp)[0], k, cap)
    ensures ParseFrom(s, lcp, k, cap, acc) == ScanList(SplitFrom(s, lcp), lcp, k, cap, acc)
  {
    TokenStepHead(s, lcp, k, cap);
    ParseStop(s, lcp, k, cap, acc);
  }

  /** A good last token ends both scans with the same byte stored. */
  lemma {:induction false} ListLast(s: string, lcp: nat, k: nat, cap: nat, acc: seq<Byte>)
    requires lcp <= |s| && forall m :: lcp <= m < |s| ==> Allowed(s[m])
    requires k < 1024 && GoodToken(SplitFrom(s, lcp)[0], k, cap) && CommaFrom(s, lcp).None?
    ensures ParseFrom(s, lcp, k, cap, acc) == ScanList(SplitFrom(s, lcp), lcp, k, cap, acc)
  {
    TokenStepHead(s, lcp, k, cap);
    HeadToken(s, lcp);
    ParseLast(s, lcp, k, cap, acc);
  }

  /** A good token followed by a comma: both scans store its byte and go
      on with the next token. */
  lemma {:induction false} ListMore(s: string, lcp: nat, k: nat, cap: nat, acc: seq<Byte>)
    requires lcp <= |s| && forall m :: lcp <= m < |s| ==> Allowed(s[m])
    requires k < 1024 && GoodToken(SplitFrom(s, lcp)[0], k, cap) && CommaFrom(s, lcp).Some?
    ensures ParseFrom(s, lcp, k, cap, acc) == ScanList(SplitFrom(s, lcp), lcp, k, cap, acc)
    decreases 1024 - k, 0
  {
    var x := ToByte(HexNum(SplitFrom(s, lcp)[0]));
    ToByteValue(HexNum(SplitFrom(s, lcp)[0]));
    ParseFromList(s, CommaFrom(s, lcp).value + 1, k + 1, cap, acc + [x]);
    SplitTail(s, lcp);
    MoreStep(s, lcp, k, cap, acc, x);
    ToByteOf(x);
  }

  /** After a comma the tokens are those of the text past it. */
  lemma {:induction false} SplitTail(s: string, lcp: nat)
    requires lcp <= |s| && CommaFrom(s, lcp).Some?
    ensures var toks := SplitFrom(s, lcp);
      |toks| > 1 && CommaFrom(s, lcp).value == lcp + |toks[0]| &&
      toks[1..] == SplitFrom(s, CommaFrom(s, lcp).value + 1)
  {
  }

  /** The scan's step over a good token followed by a comma. */
  lemma {:induction false} MoreStep(s: string, lcp: nat, k: nat, cap: nat, acc: seq<Byte>, x: Byte)
    requires lcp <= |s| && forall m :: lcp <= m < |s| ==> Allowed(s[m])
    requires k < 1024 && GoodToken(SplitFrom(s, lcp)[0], k, cap) && CommaFrom(s, lcp).Some?
    requires x as nat == HexNum(SplitFrom(s, lcp)[0])
    ensures ParseFrom(s, lcp, k, cap, acc) == ParseFrom(s, CommaFrom(s, lcp).value + 1, k + 1, cap, acc + [x])
  {
    TokenStepHead(s, lcp, k, cap);
    ToByteOf(x);
    ParseMore(s, lcp, k, cap, acc);
  }

  /** The token scan succeeds iff no token within the 1024-token limit is
      bad, and it never reports the stdin branch. */
  lemma {:induction false} ScanListOk(toks: seq<string>, at: nat, k: nat, cap: nat, acc: seq<Byte>)
    requires |toks| >= 1 && k <= 1024
    ensures ScanList(toks, at, k, cap, acc).result.HexOk? <==>
      Min(|toks|, 1024 - k) <= GoodPrefix(toks, k, cap)
    ensures !ScanList(toks, at, k, cap, acc).result.FromStdin?
    decreases |toks|
  {
    if k < 1024 && GoodToken(toks[0], k, cap) && |toks| > 1 {
      ScanListOk(toks[1..], at + |toks[0]| + 1, k + 1, cap, acc + [ToByte(HexNum(toks[0]))]);
    }
  }

  /** The token scan stores the values of the tokens in order, up to the
      first bad one or the limit, after the bytes it started with. */
  lemma {:induction false} ScanListWritten(toks: seq<string>, at: nat, k: nat, cap: nat, acc: seq<Byte>)
    requires |toks| >= 1 && |acc| == k <= 1024
    ensures var w := ScanList(toks, at, k, cap, acc).written;
      var n := Min(GoodPrefix(toks, k, cap), Min(|toks|, 1024 - k));
      |w| == k + n && w[..k] == acc &&
      forall u :: 0 <= u < n ==> w[k + u] as nat == HexNum(toks[u])
    decreases |toks|
  {
    if k < 1024 && GoodToken(toks[0], k, cap) {
      var x := ToByte(HexNum(toks[0]));
      ToByteValue(HexNum(toks[0]));
      if |toks| == 1 {
        assert (acc + [x])[..k] == acc;
      } else {
        var rest := toks[1..];
        ScanListWritten(rest, at + |toks[0]| + 1, k + 1, cap, acc + [x]);
        var w := ScanList(rest, at + |toks[0]| + 1, k + 1, cap, acc + [x]).written;
        var n' := Min(GoodPrefix(rest, k + 1, cap), Min(|rest|, 1024 - k - 1));
        assert GoodPrefix(toks, k, cap) == 1 + GoodPrefix(rest, k + 1, cap);
        StoredShift(w, acc, x, toks, n');
      }
    }
  }

  /** On success the token scan reports the number of tokens, or 1025 when
      the limit cuts the list short. */
  lemma {:induction false} ScanListLength(toks: seq<string>, at: nat, k: nat, cap: nat, acc: seq<Byte>)
    requires |toks| >= 1 && k <= 1024
    ensures ScanList(toks, at, k, cap, acc).result.HexOk? ==>
      ScanList(toks, at, k, cap, acc).result.arrLen == if |toks| <= 1024 - k then k + |toks| else 1025
    decreases |toks|
  {
    if k < 1024 && GoodToken(toks[0], k, cap) && |toks| > 1 {
      ScanListLength(toks[1..], at + |toks[0]| + 1, k + 1, cap, acc + [ToByte(HexNum(toks[0]))]);
    }
  }

  /** On failure the token scan reports the first bad token's reason at
      that token's position. */
  lemma {:induction false} ScanListError(toks: seq<string>, at: nat, k: nat, cap: nat, acc: seq<Byte>)
    requires |toks| >= 1 && k <= 1024
    ensures var p := ScanList(toks, at, k, cap, acc);
      var f := GoodPrefix(toks, k, cap);
      p.result.HexFailed? ==> f < |toks| && p.result.err == TokenError(toks[f], at + TokenStart(toks, f))
    decreases |toks|
  {
    if k < 1024 && GoodToken(toks[0], k, cap) && |toks| > 1 {
      var rest := toks[1..];
      var next := at + |toks[0]| + 1;
      ScanListError(rest, next, k + 1, cap, acc + [ToByte(HexNum(toks[0]))]);
      var f' := GoodPrefix(rest, k + 1, cap);
      assert GoodPrefix(toks, k, cap) == 1 + f';
      if ScanList(rest, next, k + 1, cap, acc + [ToByte(HexNum(toks[0]))]).result.HexFailed? {
        TokenStartTail(toks, 1 + f');
        assert toks[1 + f'] == rest[f'];
      }
    }
  }

  /** Bytes stored for the first token and then for the rest of the list
      are the values of the whole list. */
  lemma {:induction false} StoredShift(w: seq<Byte>, acc: seq<Byte>, x: Byte, toks: seq<string>, n: nat)
    requires 0 < |toks| && n < |toks| && |w| == |acc| + 1 + n && w[..|acc| + 1] == acc + [x]
    requires x as nat == HexNum(toks[0])
    requires forall u :: 0 <= u < n ==> w[|acc| + 1 + u] as nat == HexNum(toks[1..][u])
    ensures w[..|acc|] == acc
    ensures forall u :: 0 <= u < 1 + n ==> w[|acc| + u] as nat == HexNum(toks[u])
  {
    var k := |acc|;
    assert w[..k] == (w[..k + 1])[..k];
    assert w[k] == (w[..k + 1])[k];
    forall u | 0 <= u < 1 + n
      ensures w[k + u] as nat == HexNum(toks[u])
    {
      if u > 0 {
        assert toks[u] == toks[1..][u - 1];
        assert w[k + 1 + (u - 1)] as nat == HexNum(toks[1..][u - 1]);
      }
    }
  }

  /** On a command-line argument of allowed characters read_hex is the
      token scan of the argument's tokens. */
  lemma ReadHexList(s: string, cap: nat)
    requires !StdinForm(s) && forall m :: 0 <= m < |s| ==> Allowed(s[m])
    ensures ReadHexSpec(s, cap) == ScanList(Tokens(s), 0, 0, cap, [])
  {
    SpanStops(s, 0);
    ReadHexScan(s, cap);
    ParseFromList(s, 0, 0, cap, []);
  }

  /** read_hex on a command-line argument of allowed characters succeeds
      iff every token within the 1024-token limit has digits, a value of
      at most 0xff and room in the array; it then stores byte t as the
      value of token t and reports the number of tokens (1025 past the
      limit). */
  lemma ReadHexAccepts(s: string, cap: nat)
    requires !StdinForm(s) && forall m :: 0 <= m < |s| ==> Allowed(s[m])
    ensures var p := ReadHexSpec(s, cap);
      var toks := Tokens(s);
      var lim := Min(|toks|, 1024);
      (p.result.HexOk? <==> forall t :: 0 <= t < lim ==> GoodToken(toks[t], t, cap)) &&
      (p.result.HexOk? ==>
         |p.written| == lim &&
         p.result.arrLen == (if |toks| <= 1024 then |toks| else 1025) &&
         forall t :: 0 <= t < lim ==> p.written[t] as nat == HexNum(toks[t]) <= 0xff)
  {
    ReadHexList(s, cap);
    ScanAccepts(Tokens(s), cap);
  }

  lemma ScanAccepts(toks: seq<string>, cap: nat)
    requires |toks| >= 1
    ensures var p := ScanList(toks, 0, 0, cap, []);
      var lim := Min(|toks|, 1024);
      (p.result.HexOk? <==> forall t :: 0 <= t < lim ==> GoodToken(toks[t], t, cap)) &&
      (p.result.HexOk? ==>
         |p.written| == lim &&
         p.result.arrLen == (if |toks| <= 1024 then |toks| else 1025) &&
         forall t :: 0 <= t < lim ==> p.written[t] as nat == HexNum(toks[t]) <= 0xff)
  {
    ScanListOk(toks, 0, 0, cap, []);
    ScanListWritten(toks, 0, 0, cap, []);
    ScanListLength(toks, 0, 0, cap, []);
    GoodPrefixStops(toks, 0, cap);
  }

  /** Otherwise read_hex fails at the first token that is empty, above
      0xff or out of room, with that token's reason and position, the
      tokens before it having been stored. */
  lemma ReadHexRejects(s: string, cap: nat)
    requires !StdinForm(s) && forall m :: 0 <= m < |s| ==> Allowed(s[m])
    ensures var p := ReadHexSpec(s, cap);
      var toks := Tokens(s);
      var f := GoodPrefix(toks, 0, cap);
      (p.result.HexOk? || p.result.HexFailed?) &&
      (p.result.HexFailed? ==>
         f < Min(|toks|, 1024) && |p.written| == f &&
         (forall t :: 0 <= t < f ==> GoodToken(toks[t], t, cap) && p.written[t] as nat == HexNum(toks[t])) &&
         !GoodToken(toks[f], f, cap) &&
         p.result.err == TokenError(toks[f], TokenStart(toks, f)))
  {
    ReadHexList(s, cap);
    ScanRejects(Tokens(s), cap);
  }

  lemma ScanRejects(toks: seq<string>, cap: nat)
    requires |toks| >= 1
    ensures var p := ScanList(toks, 0, 0, cap, []);
      var f := GoodPrefix(toks, 0, cap);
      (p.result.HexOk? || p.result.HexFailed?) &&
      (p.result.HexFailed? ==>
         f < Min(|toks|, 1024) && |p.written| == f &&
         (forall t :: 0 <= t < f ==> GoodToken(toks[t], t, cap) && p.written[t] as nat == HexNum(toks[t])) &&
         !GoodToken(toks[f], f, cap) &&
         p.result.err == TokenError(toks[f], TokenStart(toks, f)))
  {
    ScanListOk(toks, 0, 0, cap, []);
    ScanListWritten(toks, 0, 0, cap, []);
    ScanListError(toks, 0, 0, cap, []);
    GoodPrefixStops(toks, 0, cap);
  }

  // ---------------------------------------------------------------------
  // The canonical form of a byte list, and the round trip through read_hex

  /** The lower-case hex digit for d < 16. */
  function HexChar(d: nat): (c: char)
    requires d < 16
    ensures IsHexDigit(c) && HexDigitValue(c) == d
  {
    if d < 10 then ('0' as int + d) as char else ('a' as int + d - 10) as char
  }

  /** The bytes written as two hex digits each, separated by commas (the
      form `--data=01,2c,ff`). */
  function HexList(b: seq<Byte>): (s: string)
    requires |b| > 0
    ensures |s| == 3 * |b| - 1
  {
    seq(3 * |b| - 1, i requires 0 <= i < 3 * |b| - 1 =>
      if i % 3 == 2 then ',' else if i % 3 == 0 then HexChar(b[i / 3] as nat / 16) else HexChar(b[i / 3] as nat % 16))
  }

  /** Token t of the list: b[t] in two digits at 3t, then a comma unless
      it is the last. */
  lemma HexListToken(b: seq<Byte>, t: nat)
    requires t < |b|
    ensures TokenAt(HexList(b), 3 * t, b[t])
    ensures 3 * t + 2 == |HexList(b)| <==> t + 1 == |b|
  {
  }

  lemma HexListAllowed(b: seq<Byte>)
    requires |b| > 0
    ensures Span(HexList(b), 0) == |HexList(b)|
  {
    var s := HexList(b);
    forall m | 0 <= m < |s| ensures Allowed(s[m]) {
    }
    SpanStops(s, 0);
  }

  /** Two digits of x at p, followed by a comma or the end of the string. */
  predicate TokenAt(s: string, p: nat, x: Byte) {
    p + 2 <= |s| && s[p] == HexChar(x as nat / 16) && s[p + 1] == HexChar(x as nat % 16) &&
    (p + 2 < |s| ==> s[p + 2] == ',')
  }

  /** Reading such a token: the digits end at p + 2 and their value is x. */
  lemma TokenScan(s: string, p: nat, x: Byte)
    requires TokenAt(s, p, x)
    ensures HexEnd(s, p) == p + 2 && HexValue(s, p, p + 2) == x as nat
  {
    assert HexEnd(s, p + 2) == p + 2;
    assert HexEnd(s, p + 1) == p + 2;
    assert HexValue(s, p, p + 1) == x as nat / 16;
  }

  /** The next comma is right after the token, if anything follows it. */
  lemma TokenComma(s: string, p: nat, x: Byte)
    requires TokenAt(s, p, x)
    ensures p + 2 < |s| ==> CommaFrom(s, p) == Some(p + 2)
    ensures p + 2 == |s| ==> CommaFrom(s, p) == None
  {
    assert s[p] != ',' && s[p + 1] != ',';
    assert CommaFrom(s, p) == CommaFrom(s, p + 1);
    assert CommaFrom(s, p + 1) == CommaFrom(s, p + 2);
  }

  /** Tokens t onwards of s hold the bytes b[t..]. */
  predicate TokensFrom(s: string, b: seq<Byte>, t: nat)
    decreases |b| - t
  {
    t < |b| ==> TokenAt(s, 3 * t, b[t]) && TokensFrom(s, b, t + 1)
  }

  lemma {:induction false} HexListTokens(b: seq<Byte>, t: nat)
    requires 0 < |b|
    ensures TokensFrom(HexList(b), b, t)
    decreases |b| - t
  {
    if t < |b| {
      HexListToken(b, t);
      HexListTokens(b, t + 1);
    }
  }

  /** The scan loop stores such a token's byte and moves to the comma
      after it, if there is one. */
  lemma TokenStored(s: string, p: nat, k: nat, cap: nat, x: Byte)
    requires TokenAt(s, p, x) && k < cap
    ensures TokenStep(s, p, k, cap) == Stored(x, if p + 2 < |s| then Some(p + 2) else None)
  {
    TokenScan(s, p, x);
    TokenComma(s, p, x);
    ToByteOf(x);
  }

  /** Scanning a string of such tokens, from token t on, stores the
      remaining bytes. */
  lemma {:induction false} ParseTokens(s: string, b: seq<Byte>, t: nat, cap: nat)
    requires t < |b| <= 1024 && |b| <= cap && |s| == 3 * |b| - 1
    requires TokensFrom(s, b, t)
    ensures ParseFrom(s, 3 * t, t, cap, b[..t]) == Parse(HexOk(|b|), b)
    decreases |b| - t
  {
    var p := 3 * t;
    TokenStored(s, p, t, cap, b[t]);
    assert b[..t] + [b[t]] == b[..t + 1];
    if t + 1 < |b| {
      ParseTokens(s, b, t + 1, cap);
    } else {
      assert b[..t + 1] == b;
    }
  }

  /** read_hex reads back exactly the bytes of a list of 1 to 1024 of them
      that fits the array. */
  lemma ReadHexRoundTrip(b: seq<Byte>, cap: nat)
    requires 0 < |b| <= 1024 && |b| <= cap
    ensures ReadHexSpec(HexList(b), cap) == Parse(HexOk(|b|), b)
  {
    HexListAllowed(b);
    assert IsHexDigit(HexList(b)[0]);
    HexListTokens(b, 0);
    ParseTokens(HexList(b), b, 0, cap);
  }

  // ---------------------------------------------------------------------
  // The control page main sends

  /** The size of main's data_arr; read_hex stores from data_arr[4]. */
  const DATA_ARR_LEN: nat := 1024

  /** The pages main has a control form for: Enclosure control (0x2),
      String Out (0x4), Threshold Out (0x5), Array control (0x6) and
      Subenclosure String Out (0xc). */
  predicate Sendable(pageCode: Byte) {
    pageCode == 0x2 || pageCode == 0x4 || pageCode == 0x5 || pageCode == 0x6 || pageCode == 0xc
  }

  /** Page code, byte 1, then the data length big-endian in two bytes. */
  function ControlHeader(pageCode: Byte, byte1: Byte, arrLen: nat): (h: seq<Byte>)
    ensures |h| == 4 && h[0] == pageCode && h[1] == byte1
  {
    [pageCode, byte1, ToByte(arrLen / 256 % 256), ToByte(arrLen % 256)]
  }

  /** The length field reads back as the data length, for any length the
      two bytes can hold. */
  lemma HeaderLength(pageCode: Byte, byte1: Byte, arrLen: nat)
    requires arrLen < 0x1_0000
    ensures BE16(ControlHeader(pageCode, byte1, arrLen)[2], ControlHeader(pageCode, byte1, arrLen)[3]) == arrLen
  {
    ToByteValue(arrLen / 256 % 256);
    ToByteValue(arrLen % 256);
  }

  /** What main does with a control request: the data argument is parsed
      into data_arr[4..], then the page is sent or refused. */
  datatype ControlOutcome =
    | NeedData                         // control mode without `--data`: main exits
    | BadData(err: HexError)           // read_hex failed: main exits
    | StdinData                        // the data is read from standard input
    | NotSupported(pageCode: Byte)     // no control form for this page
    | Send(page: seq<Byte>)            // the bytes handed to SEND DIAGNOSTIC

  /** The `--data` argument parsed into data_arr from byte 4 on. */
  function DataParse(s: string): Parse {
    ReadHexSpec(s, DATA_ARR_LEN - 4)
  }

  function ControlSpec(pageCode: Byte, byte1: Byte, data: Option<string>): ControlOutcome {
    if data.None? then NeedData else Outcome(pageCode, byte1, DataParse(data.value))
  }

  /** What main does once the data is parsed. */
  function Outcome(pageCode: Byte, byte1: Byte, p: Parse): ControlOutcome {
    if p.result.FromStdin? then StdinData
    else if p.result.HexFailed? then BadData(p.result.err)
    else if !Sendable(pageCode) then NotSupported(pageCode)
    else Send(ControlHeader(pageCode, byte1, p.result.arrLen) + p.written)
  }

  /** data_arr[0..3] := the header; the page sent is the header and the
      arr_len bytes after it, for the pages that have a control form. */
  method BuildControlPage(dataArr: array<Byte>, pageCode: Byte, byte1: Byte, arrLen: nat)
    returns (sent: Option<seq<Byte>>)
    requires arrLen + 4 <= dataArr.Length
    modifies dataArr
    ensures forall i :: 0 <= i < 4 ==> dataArr[i] == ControlHeader(pageCode, byte1, arrLen)[i]
    ensures forall i :: 4 <= i < dataArr.Length ==> dataArr[i] == old(dataArr[i])
    ensures sent == if Sendable(pageCode) then Some(dataArr[..arrLen + 4]) else None
  {
    dataArr[0] := pageCode;
    dataArr[1] := byte1;
    dataArr[2] := ToByte(arrLen / 256 % 256);
    dataArr[3] := ToByte(arrLen % 256);
    if Sendable(pageCode) {
      sent := Some(dataArr[..arrLen + 4]);
    } else {
      sent := None;
    }
  }

  /** A control request from start to end: refused without `--data`;
      otherwise data_arr zeroed, the data parsed into it, the header
      written in front, the page sent. */
  method ControlRequest(pageCode: Byte, byte1: Byte, data: Option<string>) returns (r: ControlOutcome)
    ensures r == ControlSpec(pageCode, byte1, data)
  {
    if data.None? {
      return NeedData;
    }
    var dataArr := new Byte[DATA_ARR_LEN];
    r := ControlWithData(dataArr, pageCode, byte1, data.value);
  }

  /** The `--data` string parsed into data_arr[4..], then the page built. */
  method ControlWithData(dataArr: array<Byte>, pageCode: Byte, byte1: Byte, s: string) returns (r: ControlOutcome)
    requires dataArr.Length == DATA_ARR_LEN
    modifies dataArr
    ensures r == Outcome(pageCode, byte1, DataParse(s))
  {
    var res, written := ReadHex(s, dataArr, 4);
    r := SendControl(dataArr, pageCode, byte1, res, DataParse(s));
  }

  /** The control page built in data_arr after the data: refused, or sent. */
  method SendControl(dataArr: array<Byte>, pageCode: Byte, byte1: Byte, res: HexResult, ghost p: Parse)
    returns (r: ControlOutcome)
    requires p.result == res && dataArr.Length < 1028 && StoredAt(dataArr, 4, p.written)
    requires res.HexOk? ==> res.arrLen == |p.written| || (res.arrLen == 1025 && |p.written| == 1024)
    modifies dataArr
    ensures r == Outcome(pageCode, byte1, p)
  {
    if res.FromStdin? {
      return StdinData;
    }
    if res.HexFailed? {
      return BadData(res.err);
    }
    var sent := BuildControlPage(dataArr, pageCode, byte1, res.arrLen);
    if sent.None? {
      return NotSupported(pageCode);
    }
    PageLayout(sent.value, ControlHeader(pageCode, byte1, res.arrLen), p.written);
    return Send(sent.value);
  }

  /** With room for fewer than 1024 bytes the length read_hex reports is
      the number of bytes it stored. */
  lemma ReadHexLength(s: string, cap: nat)
    requires cap < 1024
    ensures ReadHexSpec(s, cap).result.HexOk? ==>
      ReadHexSpec(s, cap).result.arrLen == |ReadHexSpec(s, cap).written| <= cap
  {
    if Span(s, 0) == |s| {
      ParseFromWritten(s, 0, 0, cap, []);
      ParseFromOk(s, 0, 0, cap, []);
    }
  }

  /** A buffer holding h then w, byte by byte, is h + w. */
  lemma PageLayout(a: seq<Byte>, h: seq<Byte>, w: seq<Byte>)
    requires |h| == 4 && |a| == 4 + |w|
    requires forall i :: 0 <= i < 4 ==> a[i] == h[i]
    requires forall i :: 4 <= i < |a| ==> a[i] == w[i - 4]
    ensures a == h + w
  {
  }

  /** A control request whose data lists the bytes b sends the header
      for b's length followed by b itself, when the page has a control
      form and b fits data_arr after the header. */
  lemma ControlRoundTrip(pageCode: Byte, byte1: Byte, b: seq<Byte>)
    requires Sendable(pageCode) && 0 < |b| <= DATA_ARR_LEN - 4
    ensures ControlSpec(pageCode, byte1, Some(HexList(b))) == Send(ControlHeader(pageCode, byte1, |b|) + b)
  {
    ReadHexRoundTrip(b, DATA_ARR_LEN - 4);
  }

  /** Every page sent starts with the page code and byte 1, and its length
      field counts exactly the bytes after the 4-byte header. */
  lemma ControlPageShape(pageCode: Byte, byte1: Byte, data: Option<string>)
    requires ControlSpec(pageCode, byte1, data).Send?
    ensures Sendable(pageCode)
    ensures |ControlSpec(pageCode, byte1, data).page| <= DATA_ARR_LEN
    ensures ControlSpec(pageCode, byte1, data).page[..2] == [pageCode, byte1]
    ensures BE16(ControlSpec(pageCode, byte1, data).page[2], ControlSpec(pageCode, byte1, data).page[3]) + 4 ==
      |ControlSpec(pageCode, byte1, data).page|
  {
    var p := DataParse(data.value);
    ReadHexLength(data.value, DATA_ARR_LEN - 4);
    assert p.result.arrLen == |p.written| <= DATA_ARR_LEN - 4;
    HeaderLength(pageCode, byte1, p.result.arrLen);
  }

  /** The request is refused for want of data exactly when `--data` is
      absent, left to the stdin branch exactly when the data starts with
      '-', refused with read_hex's error exactly when the command-line
      data does not parse, and as unsupported exactly when it parses but
      the page has no control form; otherwise it is sent. */
  lemma ControlOutcomes(pageCode: Byte, byte1: Byte, data: Option<string>)
    ensures ControlSpec(pageCode, byte1, data).NeedData? <==> data.None?
    ensures ControlSpec(pageCode, byte1, data).StdinData? <==> data.Some? && StdinForm(data.value)
    ensures ControlSpec(pageCode, byte1, data).BadData? ==> !StdinForm(data.value)
    ensures ControlSpec(pageCode, byte1, data).BadData? <==> data.Some? && DataParse(data.value).result.HexFailed?
    ensures ControlSpec(pageCode, byte1, data).NotSupported? <==>
      data.Some? && DataParse(data.value).result.HexOk? && !Sendable(pageCode)
    ensures ControlSpec(pageCode, byte1, data).Send? <==>
      data.Some? && DataParse(data.value).result.HexOk? && Sendable(pageCode)
  {
    if data.Some? {
      ReadHexResult(data.value, DATA_ARR_LEN - 4);
    }
  }
}
