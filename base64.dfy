/**
 * The browser's `btoa` and `atob`: base64 (section 4 of RFC 4648) over
 * "binary strings", strings whose characters are all below U+0100 and stand
 * for one byte each. `btoa` throws on any other character; `atob` is the
 * WHATWG "forgiving-base64 decode", which skips ASCII whitespace, accepts a
 * missing padding and fails on anything else outside the alphabet.
 */
module Base64 {
  import opened Wrappers
  import opened Text

  /** The 64 characters of the base64 alphabet. */
  predicate IsAlphabet(c: char) {
    'A' <= c <= 'Z' || 'a' <= c <= 'z' || '0' <= c <= '9' || c == '+' || c == '/'
  }

  /** Every character is in the alphabet. */
  predicate AllAlphabet(t: string) {
    forall i | 0 <= i < |t| :: IsAlphabet(t[i])
  }

  lemma AllAlphabetAppend(t: string, u: string)
    requires AllAlphabet(t) && AllAlphabet(u)
    ensures AllAlphabet(t + u)
  {
    assert forall i | 0 <= i < |t + u| :: (t + u)[i] == if i < |t| then t[i] else u[i - |t|];
  }

  /** The alphabet character for a 6-bit value. */
  function Digit(v: nat): (c: char)
    requires v < 64
    ensures IsAlphabet(c)
  {
    if v < 26 then ('A' as int + v) as char
    else if v < 52 then ('a' as int + (v - 26)) as char
    else if v < 62 then ('0' as int + (v - 52)) as char
    else if v == 62 then '+'
    else '/'
  }

  /** The 6-bit value of an alphabet character (`Atob` checks the alphabet before decoding, so other characters never reach it). */
  function Value(c: char): (v: nat)
    ensures v < 64
  {
    if 'A' <= c <= 'Z' then c as int - 'A' as int
    else if 'a' <= c <= 'z' then c as int - 'a' as int + 26
    else if '0' <= c <= '9' then c as int - '0' as int + 52
    else if c == '+' then 62
    else 63
  }

  lemma ValueOfDigit(v: nat)
    requires v < 64
    ensures Value(Digit(v)) == v
  {
  }

  function Byte(c: char): nat
    requires c as int < 256
  {
    c as int
  }

  /** Three bytes become four characters. */
  function EncodeGroup(a: nat, b: nat, c: nat): (r: string)
    requires a < 256 && b < 256 && c < 256
    ensures |r| == 4
  {
    [Digit(a / 4), Digit((a % 4) * 16 + b / 16), Digit((b % 16) * 4 + c / 64), Digit(c % 64)]
  }

  /** The characters a trailing partial group of `k` bytes takes: none, or one more than its bytes. */
  function TailLength(k: nat): nat {
    if k == 0 then 0 else k + 1
  }

  /** A trailing partial group: one byte gives two characters, two bytes three. */
  function Tail(s: string): (r: string)
    requires IsLatin1(s) && |s| < 3
    ensures |r| == TailLength(|s|)
  {
    if |s| == 2 then
      var a, b := Byte(s[0]), Byte(s[1]);
      [Digit(a / 4), Digit((a % 4) * 16 + b / 16), Digit((b % 16) * 4)]
    else if |s| == 1 then
      var a := Byte(s[0]);
      [Digit(a / 4), Digit((a % 4) * 16)]
    else []
  }

  /** The base64 characters of `s`, before padding. */
  function Unpadded(s: string): string
    requires IsLatin1(s)
    decreases |s|
  {
    if |s| >= 3 then EncodeGroup(Byte(s[0]), Byte(s[1]), Byte(s[2])) + Unpadded(s[3..])
    else Tail(s)
  }

  /** The characters before padding are all in the alphabet. */
  lemma {:induction false} UnpaddedAlphabet(s: string)
    requires IsLatin1(s)
    ensures AllAlphabet(Unpadded(s))
    decreases |s|
  {
    if |s| >= 3 {
      assert IsLatin1(s[3..]);
      UnpaddedAlphabet(s[3..]);
      var g := EncodeGroup(Byte(s[0]), Byte(s[1]), Byte(s[2]));
      assert AllAlphabet(g);
      AllAlphabetAppend(g, Unpadded(s[3..]));
    }
  }

  /** `=` signs that bring the length to a multiple of four. */
  function Padding(n: nat): string {
    if n % 3 == 1 then "==" else if n % 3 == 2 then "=" else ""
  }

  /** Base64 encoding of a binary string. */
  function Encode(s: string): string
    requires IsLatin1(s)
  {
    Unpadded(s) + Padding(|s|)
  }

  /** `btoa(s)`: `None` stands for the exception thrown on a character above U+00FF. */
  function Btoa(s: string): Option<string> {
    if IsLatin1(s) then Some(Encode(s)) else None
  }

  /** ASCII whitespace as the forgiving decoder skips it. */
  predicate IsAsciiWhitespace(c: char) {
    c == ' ' || c == '\t' || c == '\n' || c == '\r' || c as int == 0x0C
  }

  function RemoveWhitespace(s: string): (r: string)
    ensures |r| <= |s|
  {
    if s == [] then []
    else if IsAsciiWhitespace(s[0]) then RemoveWhitespace(s[1..])
    else [s[0]] + RemoveWhitespace(s[1..])
  }

  /** Four 6-bit values become three bytes. */
  function DecodeQuad(v0: nat, v1: nat, v2: nat, v3: nat): (r: string)
    requires v0 < 64 && v1 < 64 && v2 < 64 && v3 < 64
    ensures |r| == 3 && IsLatin1(r)
  {
    [(v0 * 4 + v1 / 16) as char, ((v1 % 16) * 16 + v2 / 4) as char, ((v2 % 4) * 64 + v3) as char]
  }

  /** Decodes alphabet characters; a final group of two or three characters yields one or two bytes and drops the leftover bits (a lone final character, which `Atob` rejects first, yields nothing). */
  function DecodeDigits(t: string): (r: string)
    ensures IsLatin1(r)
    decreases |t|
  {
    if |t| >= 4 then
      DecodeQuad(Value(t[0]), Value(t[1]), Value(t[2]), Value(t[3])) + DecodeDigits(t[4..])
    else if |t| == 3 then
      var v0, v1, v2 := Value(t[0]), Value(t[1]), Value(t[2]);
      [(v0 * 4 + v1 / 16) as char, ((v1 % 16) * 16 + v2 / 4) as char]
    else if |t| == 2 then
      var v0, v1 := Value(t[0]), Value(t[1]);
      [(v0 * 4 + v1 / 16) as char]
    else []
  }

  /** Removes one or two trailing `=` when the length is a multiple of four. */
  function StripPadding(t: string): string {
    if |t| % 4 == 0 && |t| >= 2 && t[|t| - 2..] == "==" then t[..|t| - 2]
    else if |t| % 4 == 0 && |t| >= 1 && t[|t| - 1] == '=' then t[..|t| - 1]
    else t
  }

  /** `atob(t)`: `None` stands for the exception thrown on malformed input. */
  function Atob(t: string): (r: Option<string>)
    ensures r.Some? ==> IsLatin1(r.value)
  {
    var u := StripPadding(RemoveWhitespace(t));
    if |u| % 4 == 1 then None
    else if !AllAlphabet(u) then None
    else Some(DecodeDigits(u))
  }

  // ---------------------------------------------------------------------
  // Properties

  /** Encoded text uses only the alphabet and `=`; in particular it has no `.`. */
  lemma EncodeAlphabet(s: string)
    requires IsLatin1(s)
    ensures forall i | 0 <= i < |Encode(s)| :: IsAlphabet(Encode(s)[i]) || Encode(s)[i] == '='
    ensures '.' !in Encode(s)
  {
    var e := Encode(s);
    UnpaddedAlphabet(s);
    assert forall i | 0 <= i < |e| :: IsAlphabet(e[i]) || e[i] == '=';
  }

  /** Encoded text is itself a binary string without `.` or `%`: it can be encoded again, joined by dots and read back by `decodeURIComponent` unchanged. */
  lemma EncodeText(s: string)
    requires IsLatin1(s)
    ensures IsLatin1(Encode(s)) && '.' !in Encode(s) && '%' !in Encode(s)
  {
    EncodeAlphabet(s);
  }

  lemma Mod4(n: nat, q: nat, t: nat)
    requires n == 4 * q + t && t < 4
    ensures n % 4 == t
  {
  }

  /** Dropping three from a length takes one off its quotient by three and keeps its remainder. */
  lemma DropThree(n: nat, m: nat)
    requires n >= 3 && m == n - 3
    ensures m / 3 == n / 3 - 1 && m % 3 == n % 3
  {
  }

  /** A positive multiple of three is at least three. */
  lemma WholeGroup(n: nat)
    requires n % 3 == 0 && n > 0
    ensures n >= 3
  {
  }

  /** Four characters per full group of three bytes, and two or three for a trailing group of one or two bytes. */
  lemma {:induction false} UnpaddedSize(s: string)
    requires IsLatin1(s)
    ensures |Unpadded(s)| == 4 * (|s| / 3) + TailLength(|s| % 3)
    decreases |s|
  {
    if |s| >= 3 {
      var rest := s[3..];
      assert IsLatin1(rest);
      UnpaddedSize(rest);
      DropThree(|s|, |rest|);
      assert |Unpadded(s)| == 4 + |Unpadded(rest)|;
    }
  }

  /** The unpadded encoding ends with a partial group of two or three characters exactly when the input ends with one or two bytes. */
  lemma UnpaddedLength(s: string)
    requires IsLatin1(s)
    ensures |Unpadded(s)| % 4 == TailLength(|s| % 3)
  {
    UnpaddedSize(s);
    Mod4(|Unpadded(s)|, |s| / 3, TailLength(|s| % 3));
  }

  /** The length of an encoding is a multiple of four. */
  lemma EncodeLength(s: string)
    requires IsLatin1(s)
    ensures |Encode(s)| % 4 == 0
  {
    UnpaddedSize(s);
    var q := |s| / 3;
    assert |Padding(|s|)| + TailLength(|s| % 3) == if |s| % 3 == 0 then 0 else 4;
    if |s| % 3 == 0 {
      Mod4(|Encode(s)|, q, 0);
    } else {
      Mod4(|Encode(s)|, q + 1, 0);
    }
  }

  lemma GroupArith(a: nat, b: nat, c: nat)
    requires a < 256 && b < 256 && c < 256
    ensures var v0, v1, v2, v3 := a / 4, (a % 4) * 16 + b / 16, (b % 16) * 4 + c / 64, c % 64;
      v0 * 4 + v1 / 16 == a && (v1 % 16) * 16 + v2 / 4 == b && (v2 % 4) * 64 + v3 == c
  {
  }

  /** Decoding the four characters of a group gives back its three bytes. */
  lemma GroupRoundTrip(a: nat, b: nat, c: nat)
    requires a < 256 && b < 256 && c < 256
    ensures var g := EncodeGroup(a, b, c);
      DecodeQuad(Value(g[0]), Value(g[1]), Value(g[2]), Value(g[3])) == [a as char, b as char, c as char]
  {
    var v0, v1, v2, v3 := a / 4, (a % 4) * 16 + b / 16, (b % 16) * 4 + c / 64, c % 64;
    ValueOfDigit(v0);
    ValueOfDigit(v1);
    ValueOfDigit(v2);
    ValueOfDigit(v3);
    GroupArith(a, b, c);
    assert DecodeQuad(v0, v1, v2, v3) == [a as char, b as char, c as char];
  }

  lemma DecodeGroup(a: nat, b: nat, c: nat, rest: string)
    requires a < 256 && b < 256 && c < 256
    ensures DecodeDigits(EncodeGroup(a, b, c) + rest) == [a as char, b as char, c as char] + DecodeDigits(rest)
  {
    var g := EncodeGroup(a, b, c);
    var t := g + rest;
    GroupRoundTrip(a, b, c);
    assert t[..4] == g && t[4..] == rest;
  }

  lemma TailArith(a: nat, b: nat)
    requires a < 256 && b < 256
    ensures (a / 4) * 4 + ((a % 4) * 16 + b / 16) / 16 == a
    ensures (((a % 4) * 16 + b / 16) % 16) * 16 + ((b % 16) * 4) / 4 == b
  {
  }

  /** A trailing pair of bytes survives its three characters. */
  lemma PairRoundTrip(a: nat, b: nat)
    requires a < 256 && b < 256
    ensures DecodeDigits([Digit(a / 4), Digit((a % 4) * 16 + b / 16), Digit((b % 16) * 4)]) == [a as char, b as char]
  {
    var t := [Digit(a / 4), Digit((a % 4) * 16 + b / 16), Digit((b % 16) * 4)];
    ValueOfDigit(a / 4);
    ValueOfDigit((a % 4) * 16 + b / 16);
    ValueOfDigit((b % 16) * 4);
    TailArith(a, b);
  }

  /** A trailing byte survives its two characters. */
  lemma SingleRoundTrip(a: nat)
    requires a < 256
    ensures DecodeDigits([Digit(a / 4), Digit((a % 4) * 16)]) == [a as char]
  {
    ValueOfDigit(a / 4);
    ValueOfDigit((a % 4) * 16);
    TailArith(a, 0);
  }

  /** One full group in front of an encoding that already round-trips. */
  lemma UnpaddedStep(s: string)
    requires IsLatin1(s) && |s| >= 3
    requires IsLatin1(s[3..]) && DecodeDigits(Unpadded(s[3..])) == s[3..]
    ensures DecodeDigits(Unpadded(s)) == s
  {
    var rest := s[3..];
    var a, b, c := Byte(s[0]), Byte(s[1]), Byte(s[2]);
    var u := Unpadded(rest);
    assert Unpadded(s) == EncodeGroup(a, b, c) + u;
    assert DecodeDigits(EncodeGroup(a, b, c) + u) == [a as char, b as char, c as char] + rest by {
      DecodeGroup(a, b, c, u);
    }
    SplitThree(s);
  }

  lemma SplitThree(s: string)
    requires IsLatin1(s) && |s| >= 3
    ensures [Byte(s[0]) as char, Byte(s[1]) as char, Byte(s[2]) as char] + s[3..] == s
  {
    assert [Byte(s[0]) as char, Byte(s[1]) as char, Byte(s[2]) as char] == s[..3];
  }

  /** Decoding the unpadded encoding gives back the input. */
  lemma {:induction false} DecodeUnpadded(s: string)
    requires IsLatin1(s)
    ensures DecodeDigits(Unpadded(s)) == s
    decreases |s|
  {
    if |s| >= 3 {
      assert IsLatin1(s[3..]);
      DecodeUnpadded(s[3..]);
      UnpaddedStep(s);
    } else {
      ShortRoundTrip(s);
    }
  }

  /** Input shorter than a group decodes back from its two or three characters. */
  lemma ShortRoundTrip(s: string)
    requires IsLatin1(s) && |s| < 3
    ensures DecodeDigits(Unpadded(s)) == s
  {
    TailRoundTrip(s);
  }

  lemma TailRoundTrip(s: string)
    requires IsLatin1(s) && |s| < 3
    ensures DecodeDigits(Tail(s)) == s
  {
    if |s| == 2 {
      var a, b := Byte(s[0]), Byte(s[1]);
      PairRoundTrip(a, b);
      assert [a as char, b as char] == s;
    } else if |s| == 1 {
      var a := Byte(s[0]);
      SingleRoundTrip(a);
      assert [a as char] == s;
    }
  }

  lemma {:induction false} RemoveWhitespaceNone(t: string)
    requires forall i | 0 <= i < |t| :: !IsAsciiWhitespace(t[i])
    ensures RemoveWhitespace(t) == t
  {
    if t != [] {
      assert !IsAsciiWhitespace(t[0]);
      RemoveWhitespaceNone(t[1..]);
    }
  }

  /** Encoded text has no whitespace for the decoder to skip. */
  lemma RemoveWhitespaceEncode(s: string)
    requires IsLatin1(s)
    ensures RemoveWhitespace(Encode(s)) == Encode(s)
  {
    EncodeAlphabet(s);
    RemoveWhitespaceNone(Encode(s));
  }

  /** Padding removal on alphabet text followed by the padding the encoder adds for its length. */
  lemma StripPaddingOf(u: string, p: string)
    requires AllAlphabet(u) && |u| % 4 != 1
    requires p == (if |u| % 4 == 2 then "==" else if |u| % 4 == 3 then "=" else "")
    ensures StripPadding(u + p) == u
  {
    var e := u + p;
    if |u| % 4 == 2 {
      assert e[|e| - 2..] == "==";
      assert e[..|e| - 2] == u;
    } else if |u| % 4 == 3 {
      assert e[|e| - 2] == u[|u| - 1];
      assert e[|e| - 1] == '=';
      assert e[..|e| - 1] == u;
    } else {
      assert e == u;
      if |u| >= 1 {
        assert IsAlphabet(u[|u| - 1]);
      }
    }
  }

  /** The decoder's padding removal takes off exactly the padding the encoder added. */
  lemma StripPaddingEncode(s: string)
    requires IsLatin1(s)
    ensures StripPadding(Encode(s)) == Unpadded(s)
  {
    UnpaddedLength(s);
    UnpaddedAlphabet(s);
    StripPaddingOf(Unpadded(s), Padding(|s|));
  }

  /** Round trip: `atob(btoa(s)) == s` for every binary string. */
  lemma AtobEncode(s: string)
    requires IsLatin1(s)
    ensures Atob(Encode(s)) == Some(s)
  {
    var u := Unpadded(s);
    assert StripPadding(RemoveWhitespace(Encode(s))) == u by {
      RemoveWhitespaceEncode(s);
      StripPaddingEncode(s);
    }
    UnpaddedLength(s);
    UnpaddedAlphabet(s);
    DecodeUnpadded(s);
  }

  /** `btoa` is injective on the strings it accepts. */
  lemma BtoaInjective(s: string, t: string)
    requires Btoa(s).Some? && Btoa(s) == Btoa(t)
    ensures s == t
  {
    AtobEncode(s);
    AtobEncode(t);
  }

  /** The alphabet includes `/`: one byte 0xFF already encodes as `/w==`. */
  lemma EncodeCanProduceSlash()
    ensures Btoa([0xFF as char]) == Some("/w==")
  {
    var s := [0xFF as char];
    assert IsLatin1(s);
    assert Byte(s[0]) == 255;
    assert Digit(63) == '/' && Digit(48) == 'w';
    assert Unpadded(s) == [Digit(63), Digit(48)];
    assert Encode(s) == "/w" + "==";
    assert "/w" + "==" == "/w==";
    assert Btoa(s) == Some(Encode(s));
  }

  /** Encoding works three bytes at a time: a prefix whose length is a multiple of three encodes on its own. */
  lemma {:induction false} UnpaddedAppend(a: string, b: string)
    requires IsLatin1(a) && IsLatin1(b) && |a| % 3 == 0
    ensures IsLatin1(a + b) && Unpadded(a + b) == Unpadded(a) + Unpadded(b)
    decreases |a|
  {
    Latin1Append(a, b);
    if a != [] {
      WholeGroup(|a|);
      DropThree(|a|, |a[3..]|);
      var ab := a + b;
      assert ab[3..] == a[3..] + b;
      assert ab[0] == a[0] && ab[1] == a[1] && ab[2] == a[2];
      assert IsLatin1(a[3..]) by {
        Latin1Append(a[..3], a[3..]);
        assert a[..3] + a[3..] == a;
      }
      UnpaddedAppend(a[3..], b);
    } else {
      assert [] + b == b;
    }
  }

  /** A group of three bytes ending in `?` encodes to four characters ending in `/`: the low six bits of `?` are all ones. */
  lemma SlashGroup(b: string)
    requires IsLatin1(b) && |b| == 3 && b[2] == '?'
    ensures |Unpadded(b)| == 4 && Unpadded(b)[3] == '/'
  {
    assert b[3..] == [];
    assert Unpadded(b) == EncodeGroup(Byte(b[0]), Byte(b[1]), Byte(b[2])) + Unpadded([]);
    assert Byte(b[2]) % 64 == 63;
  }

  /**
   * A `?` that ends a three-byte group becomes `/`: its low six bits are all
   * ones. So ordinary ASCII text can encode to base64 holding a `/`.
   */
  lemma SlashAtGroupEnd(s: string)
    requires IsLatin1(s) && |s| % 3 == 0 && |s| > 0 && s[|s| - 1] == '?'
    ensures '/' in Encode(s)
  {
    WholeGroup(|s|);
    var n := |s| - 3;
    var a, b := s[..n], s[n..];
    assert a + b == s;
    Latin1Append(a, b);
    DropThree(|s|, |a|);
    UnpaddedAppend(a, b);
    SlashGroup(b);
    var ua, ub := Unpadded(a), Unpadded(b);
    assert Encode(s) == ua + ub;
    assert (ua + ub)[|ua| + 3] == '/';
  }
}
