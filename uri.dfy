/**
 * `encodeURIComponent` and `decodeURIComponent` (sections 19.2.6.4 and
 * 19.2.6.2 of ECMA-262): every character outside the unreserved set is
 * written as the percent-escaped bytes of its UTF-8 encoding (section 2.1 of
 * RFC 3986, section 3 of RFC 3629); decoding undoes every escape and throws
 * a `URIError` on a malformed one.
 */
module Uri {
  import opened Wrappers

  /** The characters `encodeURIComponent` leaves as they are. */
  predicate IsUnreserved(c: char) {
    'A' <= c <= 'Z' || 'a' <= c <= 'z' || '0' <= c <= '9'
    || c == '-' || c == '_' || c == '.' || c == '!' || c == '~' || c == '*' || c == '\'' || c == '(' || c == ')'
  }

  /** Upper-case hexadecimal digit, as the encoder writes it. */
  function HexDigit(v: nat): (c: char)
    requires v < 16
    ensures IsUnreserved(c)
  {
    if v < 10 then ('0' as int + v) as char else ('A' as int + (v - 10)) as char
  }

  /** Value of a hexadecimal digit of either case. */
  function HexValue(c: char): Option<nat> {
    if '0' <= c <= '9' then Some(c as int - '0' as int)
    else if 'A' <= c <= 'F' then Some(c as int - 'A' as int + 10)
    else if 'a' <= c <= 'f' then Some(c as int - 'a' as int + 10)
    else None
  }

  lemma HexRoundTrip(v: nat)
    requires v < 16
    ensures HexValue(HexDigit(v)) == Some(v)
  {
  }

  /** UTF-8 bytes of one code point. */
  function Utf8(c: char): (bytes: seq<nat>)
    ensures 1 <= |bytes| <= 4
    ensures forall i | 0 <= i < |bytes| :: bytes[i] < 256
  {
    var n := c as int;
    if n < 0x80 then [n]
    else if n < 0x800 then [0xC0 + n / 64, 0x80 + n % 64]
    else if n < 0x1_0000 then [0xE0 + n / 4096, 0x80 + (n / 64) % 64, 0x80 + n % 64]
    else [0xF0 + n / 262144, 0x80 + (n / 4096) % 64, 0x80 + (n / 64) % 64, 0x80 + n % 64]
  }

  function PercentByte(b: nat): (r: string)
    requires b < 256
    ensures |r| == 3 && r[0] == '%'
  {
    ['%', HexDigit(b / 16), HexDigit(b % 16)]
  }

  function PercentBytes(bytes: seq<nat>): string
    requires forall i | 0 <= i < |bytes| :: bytes[i] < 256
  {
    if bytes == [] then [] else PercentByte(bytes[0]) + PercentBytes(bytes[1..])
  }

  function EncodeChar(c: char): string {
    if IsUnreserved(c) then [c] else PercentBytes(Utf8(c))
  }

  /** `encodeURIComponent(s)`. */
  function EncodeURIComponent(s: string): string {
    if s == [] then [] else EncodeChar(s[0]) + EncodeURIComponent(s[1..])
  }

  /** Text made only of unreserved characters and `%`. */
  predicate IsEncoded(r: string) {
    forall i | 0 <= i < |r| :: IsUnreserved(r[i]) || r[i] == '%'
  }

  lemma IsEncodedAppend(a: string, b: string)
    requires IsEncoded(a) && IsEncoded(b)
    ensures IsEncoded(a + b)
  {
    assert forall i | 0 <= i < |a + b| :: (a + b)[i] == if i < |a| then a[i] else b[i - |a|];
  }

  lemma {:induction false} PercentBytesEncoded(bytes: seq<nat>)
    requires forall i | 0 <= i < |bytes| :: bytes[i] < 256
    ensures IsEncoded(PercentBytes(bytes))
    decreases |bytes|
  {
    if bytes != [] {
      PercentBytesEncoded(bytes[1..]);
      IsEncodedAppend(PercentByte(bytes[0]), PercentBytes(bytes[1..]));
    }
  }

  /**
   * The encoded text consists of unreserved characters and `%` only, so it
   * has no `&`, `=`, `?`, `#` or `/` that could start a new query
   * parameter, fragment or path segment.
   */
  lemma {:induction false} EncodeIsEncoded(s: string)
    ensures IsEncoded(EncodeURIComponent(s))
    ensures forall i | 0 <= i < |EncodeURIComponent(s)| ::
      EncodeURIComponent(s)[i] !in {'&', '=', '?', '#', '/', ' '}
    decreases |s|
  {
    if s != [] {
      EncodeIsEncoded(s[1..]);
      if !IsUnreserved(s[0]) {
        PercentBytesEncoded(Utf8(s[0]));
      }
      IsEncodedAppend(EncodeChar(s[0]), EncodeURIComponent(s[1..]));
    }
  }

  // ---------------------------------------------------------------------
  // Decoding

  /** Reads `%XY` at the front of `s`. */
  function ReadByte(s: string): (r: Option<(nat, string)>)
    ensures r.Some? ==> r.value.0 < 256 && |r.value.1| == |s| - 3
  {
    if |s| < 3 || s[0] != '%' then None
    else match (HexValue(s[1]), HexValue(s[2]))
      case (Some(h), Some(l)) => if h < 16 && l < 16 then Some((h * 16 + l, s[3..])) else None
      case _ => None
  }

  /** Reads `k` escaped continuation bytes (`10xxxxxx`) and adds their payload bits to `acc`. */
  function ReadContinuation(s: string, k: nat, acc: nat): (r: Option<(nat, string)>)
    ensures r.Some? ==> |r.value.1| < |s| || (k == 0 && r.value.1 == s)
    decreases k
  {
    if k == 0 then Some((acc, s))
    else match ReadByte(s)
      case None => None
      case Some((b, rest)) =>
        if 0x80 <= b < 0xC0 then ReadContinuation(rest, k - 1, acc * 64 + (b - 0x80)) else None
  }

  /** Accepts a decoded code point when it is at least `least` (no overlong form), a scalar value, and within Unicode. */
  function CodePoint(read: Option<(nat, string)>, least: nat, s: string): (r: Option<(char, string)>)
    requires read.Some? ==> |read.value.1| < |s|
    ensures r.Some? ==> |r.value.1| < |s|
  {
    match read
    case None => None
    case Some((cp, rest)) =>
      if cp < least || cp > 0x10_FFFF || (0xD800 <= cp < 0xE000) then None
      else Some((cp as char, rest))
  }

  /** The code point of a UTF-8 sequence whose lead byte is `b`, or `None` when it is not the lead of a shortest well-formed sequence. */
  function DecodeMultiByte(b: nat, s: string): (r: Option<(char, string)>)
    requires 0x80 <= b < 256
    ensures r.Some? ==> |r.value.1| < |s|
  {
    if 0xC0 <= b < 0xE0 then CodePoint(ReadContinuation(s, 1, b - 0xC0), 0x80, s)
    else if 0xE0 <= b < 0xF0 then CodePoint(ReadContinuation(s, 2, b - 0xE0), 0x800, s)
    else if 0xF0 <= b < 0xF8 then CodePoint(ReadContinuation(s, 3, b - 0xF0), 0x1_0000, s)
    else None
  }

  /** `decodeURIComponent(s)`: `None` stands for the `URIError` thrown on a malformed escape. */
  function DecodeURIComponent(s: string): Option<string>
    decreases |s|
  {
    if s == [] then Some([])
    else if s[0] != '%' then
      match DecodeURIComponent(s[1..])
      case None => None
      case Some(t) => Some([s[0]] + t)
    else match ReadByte(s)
      case None => None
      case Some((b, rest)) =>
        if b < 0x80 then
          match DecodeURIComponent(rest)
          case None => None
          case Some(t) => Some([b as char] + t)
        else match DecodeMultiByte(b, rest)
          case None => None
          case Some((c, rest2)) =>
            match DecodeURIComponent(rest2)
            case None => None
            case Some(t) => Some([c] + t)
  }

  // ---------------------------------------------------------------------
  // Properties

  /** Text without `%` decodes to itself. */
  lemma {:induction false} DecodePlain(s: string)
    requires '%' !in s
    ensures DecodeURIComponent(s) == Some(s)
    decreases |s|
  {
    if s != [] {
      DecodePlain(s[1..]);
      assert [s[0]] + s[1..] == s;
    }
  }

  /** A `%` not followed by two hexadecimal digits makes decoding fail. */
  lemma MalformedEscape(rest: string)
    requires |rest| < 2 || HexValue(rest[0]).None? || HexValue(rest[1]).None?
    ensures DecodeURIComponent("%" + rest) == None
  {
    assert ("%" + rest)[0] == '%';
    assert ReadByte("%" + rest) == None;
  }

  /** A lone continuation byte (`%80`) is malformed. */
  lemma StrayContinuation()
    ensures DecodeURIComponent("%80") == None
  {
    assert ReadByte("%80") == Some((0x80, ""));
    assert DecodeMultiByte(0x80, "") == None;
  }

  lemma EscapedByte(b: nat, rest: string)
    requires b < 256
    ensures ReadByte(PercentByte(b) + rest) == Some((b, rest))
  {
    var s := PercentByte(b) + rest;
    HexRoundTrip(b / 16);
    HexRoundTrip(b % 16);
    assert s[0] == '%' && s[1] == HexDigit(b / 16) && s[2] == HexDigit(b % 16);
    assert s[3..] == rest;
  }

  lemma SplitPercent(bytes: seq<nat>, rest: string)
    requires |bytes| >= 1 && forall i | 0 <= i < |bytes| :: bytes[i] < 256
    ensures PercentBytes(bytes) + rest == PercentByte(bytes[0]) + (PercentBytes(bytes[1..]) + rest)
  {
  }

  /** Bytes of the form `10xxxxxx`. */
  predicate AllContinuation(bytes: seq<nat>) {
    forall i | 0 <= i < |bytes| :: 0x80 <= bytes[i] < 0xC0
  }

  /** The code point `acc` extended by the payload bits of each continuation byte. */
  function Fold(acc: nat, bytes: seq<nat>): nat
    requires AllContinuation(bytes)
    decreases |bytes|
  {
    if bytes == [] then acc else Fold(acc * 64 + (bytes[0] - 0x80), bytes[1..])
  }

  /** Reading the escapes of `k` continuation bytes accumulates exactly their payload bits. */
  lemma {:induction false} ReadContinuations(bytes: seq<nat>, rest: string, acc: nat)
    requires AllContinuation(bytes)
    ensures ReadContinuation(PercentBytes(bytes) + rest, |bytes|, acc) == Some((Fold(acc, bytes), rest))
    decreases |bytes|
  {
    if bytes == [] {
      assert PercentBytes(bytes) + rest == rest;
    } else {
      var s := PercentBytes(bytes) + rest;
      var tail := PercentBytes(bytes[1..]) + rest;
      FirstEscape(bytes, rest);
      ContinuationOf(s, |bytes|, acc, bytes[0], tail);
      ReadContinuations(bytes[1..], rest, acc * 64 + (bytes[0] - 0x80));
    }
  }

  /** The first escape of a run of escaped bytes reads back as the first byte. */
  lemma FirstEscape(bytes: seq<nat>, rest: string)
    requires bytes != [] && AllContinuation(bytes)
    ensures ReadByte(PercentBytes(bytes) + rest) == Some((bytes[0], PercentBytes(bytes[1..]) + rest))
  {
    SplitPercent(bytes, rest);
    EscapedByte(bytes[0], PercentBytes(bytes[1..]) + rest);
  }

  /** Reading a continuation byte from text whose next escape is known. */
  lemma ContinuationOf(s: string, k: nat, acc: nat, b: nat, rest: string)
    requires k >= 1 && ReadByte(s) == Some((b, rest)) && 0x80 <= b < 0xC0
    ensures ReadContinuation(s, k, acc) == ReadContinuation(rest, k - 1, acc * 64 + (b - 0x80))
  {
  }

  lemma DivSplit(n: nat)
    ensures n == (n / 64) * 64 + n % 64
    ensures n / 4096 == (n / 64) / 64 && n / 262144 == (n / 4096) / 64
    ensures n / 64 == (n / 4096) * 64 + (n / 64) % 64
    ensures n / 4096 == (n / 262144) * 64 + (n / 4096) % 64
  {
  }

  lemma Fold2(n: nat)
    ensures AllContinuation([0x80 + n % 64])
    ensures Fold(n / 64, [0x80 + n % 64]) == n
  {
    var t := [0x80 + n % 64];
    assert t[1..] == [];
    DivSplit(n);
  }

  lemma Fold3(n: nat)
    ensures AllContinuation([0x80 + (n / 64) % 64, 0x80 + n % 64])
    ensures Fold(n / 4096, [0x80 + (n / 64) % 64, 0x80 + n % 64]) == n
  {
    var t := [0x80 + (n / 64) % 64, 0x80 + n % 64];
    assert t[1..] == [0x80 + n % 64];
    Fold2(n);
    DivSplit(n);
  }

  lemma Fold4(n: nat)
    ensures AllContinuation([0x80 + (n / 4096) % 64, 0x80 + (n / 64) % 64, 0x80 + n % 64])
    ensures Fold(n / 262144, [0x80 + (n / 4096) % 64, 0x80 + (n / 64) % 64, 0x80 + n % 64]) == n
  {
    var t := [0x80 + (n / 4096) % 64, 0x80 + (n / 64) % 64, 0x80 + n % 64];
    assert t[1..] == [0x80 + (n / 64) % 64, 0x80 + n % 64];
    Fold3(n);
    DivSplit(n);
  }

  lemma MultiByte2(n: nat, rest: string)
    requires 0x80 <= n < 0x800
    ensures DecodeMultiByte(0xC0 + n / 64, PercentBytes([0x80 + n % 64]) + rest) == Some((n as char, rest))
  {
    var t := [0x80 + n % 64];
    Fold2(n);
    ReadContinuations(t, rest, n / 64);
  }

  lemma MultiByte3(n: nat, rest: string)
    requires 0x800 <= n < 0x1_0000 && !(0xD800 <= n < 0xE000)
    ensures DecodeMultiByte(0xE0 + n / 4096, PercentBytes([0x80 + (n / 64) % 64, 0x80 + n % 64]) + rest) == Some((n as char, rest))
  {
    var t := [0x80 + (n / 64) % 64, 0x80 + n % 64];
    Fold3(n);
    ReadContinuations(t, rest, n / 4096);
  }

  lemma MultiByte4(n: nat, rest: string)
    requires 0x1_0000 <= n <= 0x10_FFFF
    ensures DecodeMultiByte(0xF0 + n / 262144,
      PercentBytes([0x80 + (n / 4096) % 64, 0x80 + (n / 64) % 64, 0x80 + n % 64]) + rest) == Some((n as char, rest))
  {
    var t := [0x80 + (n / 4096) % 64, 0x80 + (n / 64) % 64, 0x80 + n % 64];
    Fold4(n);
    ReadContinuations(t, rest, n / 262144);
  }

  /** An escaped lead byte followed by the rest of its sequence decodes to the character and then the rest. */
  lemma DecodeLead(b0: nat, t: string, c: char, rest: string)
    requires 0x80 <= b0 < 256 && DecodeMultiByte(b0, t) == Some((c, rest))
    ensures DecodeURIComponent(PercentByte(b0) + t) ==
      (match DecodeURIComponent(rest) case None => None case Some(u) => Some([c] + u))
  {
    EscapedByte(b0, t);
  }

  lemma DecodeTwo(c: char, rest: string)
    requires 0x80 <= c as int < 0x800
    ensures DecodeURIComponent(PercentBytes(Utf8(c)) + rest) ==
      (match DecodeURIComponent(rest) case None => None case Some(u) => Some([c] + u))
  {
    var n := c as int;
    var tail := [0x80 + n % 64];
    assert Utf8(c) == [0xC0 + n / 64] + tail;
    SplitPercent(Utf8(c), rest);
    assert Utf8(c)[1..] == tail;
    MultiByte2(n, rest);
    DecodeLead(0xC0 + n / 64, PercentBytes(tail) + rest, c, rest);
  }

  lemma DecodeThree(c: char, rest: string)
    requires 0x800 <= c as int < 0x1_0000
    ensures DecodeURIComponent(PercentBytes(Utf8(c)) + rest) ==
      (match DecodeURIComponent(rest) case None => None case Some(u) => Some([c] + u))
  {
    var n := c as int;
    var tail := [0x80 + (n / 64) % 64, 0x80 + n % 64];
    assert Utf8(c) == [0xE0 + n / 4096] + tail;
    SplitPercent(Utf8(c), rest);
    assert Utf8(c)[1..] == tail;
    MultiByte3(n, rest);
    DecodeLead(0xE0 + n / 4096, PercentBytes(tail) + rest, c, rest);
  }

  lemma DecodeFour(c: char, rest: string)
    requires 0x1_0000 <= c as int
    ensures DecodeURIComponent(PercentBytes(Utf8(c)) + rest) ==
      (match DecodeURIComponent(rest) case None => None case Some(u) => Some([c] + u))
  {
    var n := c as int;
    var tail := [0x80 + (n / 4096) % 64, 0x80 + (n / 64) % 64, 0x80 + n % 64];
    assert Utf8(c) == [0xF0 + n / 262144] + tail;
    SplitPercent(Utf8(c), rest);
    assert Utf8(c)[1..] == tail;
    MultiByte4(n, rest);
    DecodeLead(0xF0 + n / 262144, PercentBytes(tail) + rest, c, rest);
  }

  /** Decoding the escapes of one encoded character gives back the character. */
  lemma DecodeEncodedChar(c: char, rest: string)
    ensures DecodeURIComponent(EncodeChar(c) + rest) ==
      (match DecodeURIComponent(rest) case None => None case Some(t) => Some([c] + t))
  {
    var n := c as int;
    if IsUnreserved(c) {
      assert (EncodeChar(c) + rest)[1..] == rest;
    } else if n < 0x80 {
      assert Utf8(c) == [n];
      assert PercentBytes([n]) == PercentByte(n);
      EscapedByte(n, rest);
    } else if n < 0x800 {
      DecodeTwo(c, rest);
    } else if n < 0x1_0000 {
      DecodeThree(c, rest);
    } else {
      DecodeFour(c, rest);
    }
  }

  /** Round trip: `decodeURIComponent(encodeURIComponent(s)) == s` for every string. */
  lemma {:induction false} DecodeEncode(s: string)
    ensures DecodeURIComponent(EncodeURIComponent(s)) == Some(s)
    decreases |s|
  {
    if s != [] {
      DecodeEncode(s[1..]);
      DecodeEncodedChar(s[0], EncodeURIComponent(s[1..]));
      assert [s[0]] + s[1..] == s;
    }
  }
}
