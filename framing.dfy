/** Pure byte-string helpers of the dongle driver: the awk-style whitespace
    split, hexadecimal parsing in the manner of `String#to_i(16)`, the hex
    rendering used for logging (`unpack`), and the variable-length framing rule
    of the samples reply. */
module Framing {

  type byte = x: int | 0 <= x < 0x100

  datatype Option<T> = None | Some(value: T)

  // ---------------------------------------------------------------------------
  // Whitespace splitting

  /** The ASCII whitespace that `split(' ')` separates on: space, \t, \n, \v, \f, \r. */
  predicate IsSpace(b: byte) {
    b == 0x20 || 0x09 <= b <= 0x0D
  }

  /** A token produced by the split: non-empty and free of whitespace. */
  predicate IsToken(t: seq<byte>) {
    |t| > 0 && forall i :: 0 <= i < |t| ==> !IsSpace(t[i])
  }

  /** Length of the maximal run of non-whitespace bytes at the front of `s`. */
  function TokenLength(s: seq<byte>): (n: nat)
    ensures n <= |s|
    ensures forall i :: 0 <= i < n ==> !IsSpace(s[i])
    ensures n < |s| ==> IsSpace(s[n])
  {
    if s == [] || IsSpace(s[0]) then 0 else 1 + TokenLength(s[1..])
  }

  /** Ruby's `str.split(' ')`: leading whitespace is skipped, runs of whitespace
      separate tokens, and no empty token is produced. */
  function Split(s: seq<byte>): (tokens: seq<seq<byte>>)
    ensures forall k :: 0 <= k < |tokens| ==> IsToken(tokens[k])
    decreases |s|
  {
    if s == [] then []
    else if IsSpace(s[0]) then Split(s[1..])
    else
      var n := TokenLength(s);
      [s[..n]] + Split(s[n..])
  }

  /** Reference inverse of the split: tokens separated by a single space. */
  function Join(tokens: seq<seq<byte>>): seq<byte>
  {
    if tokens == [] then []
    else if |tokens| == 1 then tokens[0]
    else tokens[0] + [0x20] + Join(tokens[1..])
  }

  lemma TokenLengthOfRun(t: seq<byte>, rest: seq<byte>)
    requires forall i :: 0 <= i < |t| ==> !IsSpace(t[i])
    requires rest == [] || IsSpace(rest[0])
    ensures TokenLength(t + rest) == |t|
  {
    var s := t + rest;
    assert forall i :: 0 <= i < |t| ==> s[i] == t[i];
    assert |t| < |s| ==> s[|t|] == rest[0];
  }

  /** Leading whitespace, of any length and kind, contributes no token. */
  lemma {:induction false} SplitSkipsSpace(ws: seq<byte>, s: seq<byte>)
    requires forall i :: 0 <= i < |ws| ==> IsSpace(ws[i])
    ensures Split(ws + s) == Split(s)
    decreases |ws|
  {
    if ws != [] {
      assert (ws + s)[0] == ws[0];
      assert (ws + s)[1..] == ws[1..] + s;
      SplitSkipsSpace(ws[1..], s);
    } else {
      assert ws + s == s;
    }
  }

  /** A token followed by a non-empty run of whitespace is split off whole, and
      the run is a single separator, however long it is. */
  lemma SplitTokenThenSpace(t: seq<byte>, ws: seq<byte>, s: seq<byte>)
    requires IsToken(t)
    requires |ws| > 0 && forall i :: 0 <= i < |ws| ==> IsSpace(ws[i])
    ensures Split(t + ws + s) == [t] + Split(s)
  {
    var u := t + ws + s;
    assert u == t + (ws + s);
    assert (ws + s)[0] == ws[0];
    TokenLengthOfRun(t, ws + s);
    assert u[0] == t[0];
    assert u[..|t|] == t;
    assert u[|t|..] == ws + s;
    SplitSkipsSpace(ws, s);
  }

  /** Splitting the single-space join of well-formed tokens gives the tokens back. */
  lemma {:induction false} SplitJoin(tokens: seq<seq<byte>>)
    requires forall k :: 0 <= k < |tokens| ==> IsToken(tokens[k])
    ensures Split(Join(tokens)) == tokens
  {
    if tokens != [] {
      var t := tokens[0];
      var rest: seq<byte> := if |tokens| == 1 then [] else [0x20] + Join(tokens[1..]);
      var s := t + rest;
      assert Join(tokens) == s;
      TokenLengthOfRun(t, rest);
      assert s[..|t|] == t;
      assert s[|t|..] == rest;
      assert Split(s) == [t] + Split(rest);
      if |tokens| > 1 {
        assert rest[1..] == Join(tokens[1..]);
        SplitJoin(tokens[1..]);
      }
    }
  }

  /** Every token needs one byte and every gap one more: a string of length
      `m` splits into at most (m + 1) / 2 tokens. */
  lemma {:induction false} SplitBound(s: seq<byte>)
    ensures 2 * |Split(s)| <= |s| + 1
    decreases |s|
  {
    if s == [] {
    } else if IsSpace(s[0]) {
      SplitBound(s[1..]);
    } else {
      var n := TokenLength(s);
      assert n >= 1;
      if n < |s| {
        assert s[n..][1..] == s[n + 1..];
        assert Split(s[n..]) == Split(s[n + 1..]);
        SplitBound(s[n + 1..]);
      } else {
        assert s[n..] == [];
      }
    }
  }

  // ---------------------------------------------------------------------------
  // Hexadecimal

  predicate IsHexDigit(b: byte) {
    0x30 <= b <= 0x39 || 0x41 <= b <= 0x46 || 0x61 <= b <= 0x66
  }

  function DigitValue(b: byte): (v: nat)
    requires IsHexDigit(b)
    ensures v < 16
  {
    if b <= 0x39 then b - 0x30
    else if b <= 0x46 then b - 0x41 + 10
    else b - 0x61 + 10
  }

  /** Length of the maximal run of hex digits at the front of `s`. */
  function HexDigitsLength(s: seq<byte>): (n: nat)
    ensures n <= |s|
    ensures forall i :: 0 <= i < n ==> IsHexDigit(s[i])
    ensures n < |s| ==> !IsHexDigit(s[n])
  {
    if s == [] || !IsHexDigit(s[0]) then 0 else 1 + HexDigitsLength(s[1..])
  }

  /** Big-endian value of a string of hex digits. */
  function DigitsValue(d: seq<byte>): nat
    requires forall i :: 0 <= i < |d| ==> IsHexDigit(d[i])
  {
    if d == [] then 0 else 16 * DigitsValue(d[..|d| - 1]) + DigitValue(d[|d| - 1])
  }

  /** `String#to_i(16)` on a whitespace-free token: the value of its leading hex
      digits, and 0 (not an error) when it has none. */
  function HexToInt(s: seq<byte>): (v: nat)
    ensures (s == [] || !IsHexDigit(s[0])) ==> v == 0
  {
    DigitsValue(s[..HexDigitsLength(s)])
  }

  /** Parsing stops at the first byte that is not a hex digit. */
  lemma HexToIntOfDigits(d: seq<byte>, rest: seq<byte>)
    requires forall i :: 0 <= i < |d| ==> IsHexDigit(d[i])
    requires rest == [] || !IsHexDigit(rest[0])
    ensures HexToInt(d + rest) == DigitsValue(d)
  {
    var s := d + rest;
    assert forall i :: 0 <= i < |d| ==> s[i] == d[i];
    assert |d| < |s| ==> s[|d|] == rest[0];
    assert HexDigitsLength(s) == |d|;
    assert s[..|d|] == d;
  }

  // ---------------------------------------------------------------------------
  // Hex rendering for the log (`message.unpack('H2' * message.size)`)

  /** Lower-case hex digit for a nibble; it parses back to the nibble. */
  function HexChar(v: nat): (c: byte)
    requires v < 16
    ensures IsHexDigit(c) && DigitValue(c) == v
  {
    if v < 10 then 0x30 + v else 0x61 + (v - 10)
  }

  /** One two-character string per byte, high nibble first. */
  function Unpack(message: seq<byte>): (pairs: seq<seq<byte>>)
    ensures |pairs| == |message|
    ensures forall i :: 0 <= i < |pairs| ==>
      |pairs[i]| == 2 && IsHexDigit(pairs[i][0]) && IsHexDigit(pairs[i][1])
  {
    seq(|message|, i requires 0 <= i < |message| =>
      [HexChar(message[i] / 16), HexChar(message[i] % 16)])
  }

  /** Each rendered pair parses back, with `to_i(16)`, to the byte it renders. */
  lemma UnpackRoundTrip(message: seq<byte>, i: nat)
    requires i < |message|
    ensures HexToInt(Unpack(message)[i]) == message[i]
  {
    var hi, lo := message[i] / 16, message[i] % 16;
    var p := Unpack(message)[i];
    assert p == [HexChar(hi), HexChar(lo)];
    HexToIntOfDigits(p, []);
    assert p + [] == p;
    assert p[..1] == [HexChar(hi)];
    assert [HexChar(hi)][..0] == [];
    assert DigitsValue(p[..1]) == hi;
  }

  // ---------------------------------------------------------------------------
  // Framing of the samples reply

  /** Bytes still to read after the header: token 3 of the split header,
      parsed with `to_i(16)`, plus one. None when the header has no token 3
      (`nil.to_i(16)` raises). */
  function RemainingBytes(header: seq<byte>): (k: Option<nat>)
    ensures k.Some? ==> k.value >= 1
  {
    var tokens := Split(header);
    if |tokens| < 4 then None else Some(HexToInt(tokens[3]) + 1)
  }

  /** A header made of space-separated tokens frames by its fourth token. */
  lemma RemainingBytesOfTokens(tokens: seq<seq<byte>>)
    requires forall k :: 0 <= k < |tokens| ==> IsToken(tokens[k])
    ensures RemainingBytes(Join(tokens)) ==
      if |tokens| < 4 then None else Some(HexToInt(tokens[3]) + 1)
  {
    SplitJoin(tokens);
  }

  /** A four-byte header holds at most two tokens, so it never has a token 3. */
  lemma FourByteHeaderHasNoLengthToken(header: seq<byte>)
    requires |header| == 4
    ensures |Split(header)| <= 2
    ensures RemainingBytes(header) == None
  {
    SplitBound(header);
  }

  /** A fourth token without leading hex digits is not rejected: one byte is read. */
  lemma NonHexLengthTokenReadsOneByte(header: seq<byte>)
    requires |Split(header)| >= 4
    requires !IsHexDigit(Split(header)[3][0])
    ensures RemainingBytes(header) == Some(1)
  {
  }

  /** The header text "00 00 00 0A" declares 0x0A, so 0x0A + 1 bytes follow. */
  lemma DeclaredLengthExample()
    ensures RemainingBytes(ExampleHeader()) == Some(11)
  {
    var zero: seq<byte> := [0x30, 0x30];
    var len: seq<byte> := [0x30, 0x41];
    var tokens := [zero, zero, zero, len];
    ExampleHeaderTokens(zero, len);
    RemainingBytesOfTokens(tokens);
    ExampleLength(len);
  }

  lemma ExampleHeaderTokens(zero: seq<byte>, len: seq<byte>)
    requires zero == [0x30, 0x30] && len == [0x30, 0x41]
    ensures Join([zero, zero, zero, len]) == ExampleHeader()
  {
    var tokens := [zero, zero, zero, len];
    assert Join(tokens[3..]) == len;
    assert Join(tokens[2..]) == zero + [0x20] + len;
    assert Join(tokens[1..]) == zero + [0x20] + (zero + [0x20] + len);
  }

  lemma ExampleLength(len: seq<byte>)
    requires len == [0x30, 0x41]
    ensures HexToInt(len) == 10
  {
    HexToIntOfDigits(len, []);
    assert len + [] == len;
    assert len[..1] == [0x30];
    assert [0x30][..0] == [];
  }

  /** The ASCII text "00 00 00 0A". */
  function ExampleHeader(): seq<byte>
  {
    [0x30, 0x30, 0x20, 0x30, 0x30, 0x20, 0x30, 0x30, 0x20, 0x30, 0x41]
  }
}
