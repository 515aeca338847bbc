/**
 * String primitives of the JavaScript runtime that the site's code relies on:
 * the `\s` character class and `trim`, `toLowerCase` (ASCII letters only),
 * `includes`, `substring(0, n)`, `split` on one character, `join`, the
 * tag-stripping `replace(/<[^>]*>/g, '')` and decimal rendering of integers.
 */
module Text {

  /** What JavaScript's `\s` matches and `trim` removes: WhiteSpace and LineTerminator code points. */
  predicate IsSpace(c: char) {
    var n := c as int;
    n == 0x09 || n == 0x0A || n == 0x0B || n == 0x0C || n == 0x0D || n == 0x20
    || n == 0xA0 || n == 0x1680 || (0x2000 <= n <= 0x200A) || n == 0x2028 || n == 0x2029
    || n == 0x202F || n == 0x205F || n == 0x3000 || n == 0xFEFF
  }

  predicate IsUpper(c: char) { 'A' <= c <= 'Z' }
  predicate IsLowerAlpha(c: char) { 'a' <= c <= 'z' }
  predicate IsDigit(c: char) { '0' <= c <= '9' }

  /** `toLowerCase` on one character, for the ASCII letters. */
  function LowerChar(c: char): (r: char)
    ensures !IsUpper(r)
    ensures IsUpper(c) ==> IsLowerAlpha(r) && r as int == c as int + 32
    ensures !IsUpper(c) ==> r == c
  {
    if IsUpper(c) then (c as int + 32) as char else c
  }

  function Lower(s: string): (r: string)
    ensures |r| == |s|
    ensures forall i | 0 <= i < |s| :: r[i] == LowerChar(s[i])
  {
    if s == [] then [] else [LowerChar(s[0])] + Lower(s[1..])
  }

  lemma LowerIdempotent(s: string)
    ensures Lower(Lower(s)) == Lower(s)
  {
  }

  lemma LowerAppend(a: string, b: string)
    ensures Lower(a + b) == Lower(a) + Lower(b)
  {
  }

  /** `hay.includes(needle)`. */
  function Includes(hay: string, needle: string): bool
    decreases |hay|
  {
    if needle <= hay then true
    else if hay == [] then false
    else Includes(hay[1..], needle)
  }

  /** `needle` occurs in `hay` starting at position `i`. */
  predicate OccursAt(hay: string, i: nat, needle: string) {
    i + |needle| <= |hay| && hay[i..i + |needle|] == needle
  }

  /** An occurrence makes `includes` true. */
  lemma {:induction false} IncludesWitness(hay: string, i: nat, needle: string)
    requires OccursAt(hay, i, needle)
    ensures Includes(hay, needle)
    decreases i
  {
    if i == 0 {
      assert hay[0..|needle|] == hay[..|needle|];
    } else {
      assert hay[i..i + |needle|] == hay[1..][i - 1..i - 1 + |needle|];
      IncludesWitness(hay[1..], i - 1, needle);
    }
  }

  /** When `includes` is true there is an occurrence. */
  lemma {:induction false} IncludesSound(hay: string, needle: string) returns (i: nat)
    requires Includes(hay, needle)
    ensures OccursAt(hay, i, needle)
    decreases |hay|
  {
    if needle <= hay {
      i := 0;
    } else {
      var k := IncludesSound(hay[1..], needle);
      assert hay[k + 1..k + 1 + |needle|] == hay[1..][k..k + |needle|];
      i := k + 1;
    }
  }

  /** A piece of a text occurs in any text that it is written into. */
  lemma IncludesWithin(a: string, x: string, b: string, needle: string)
    requires Includes(x, needle)
    ensures Includes(a + x + b, needle)
  {
    var i := IncludesSound(x, needle);
    assert (a + x + b)[|a| + i..|a| + i + |needle|] == x[i..i + |needle|];
    IncludesWitness(a + x + b, |a| + i, needle);
  }

  /** `Includes` is exactly the substring relation. */
  lemma IncludesIsSubstring(hay: string, needle: string)
    ensures Includes(hay, needle) <==> exists i: nat :: OccursAt(hay, i, needle)
  {
    if Includes(hay, needle) {
      var i := IncludesSound(hay, needle);
    }
    if exists i: nat :: OccursAt(hay, i, needle) {
      var i: nat :| OccursAt(hay, i, needle);
      IncludesWitness(hay, i, needle);
    }
  }

  lemma IncludesEmpty(hay: string)
    ensures Includes(hay, [])
  {
  }

  function TrimStart(s: string): (r: string)
    ensures |r| <= |s|
  {
    if s != [] && IsSpace(s[0]) then TrimStart(s[1..]) else s
  }

  function TrimEnd(s: string): (r: string)
    ensures |r| <= |s|
  {
    if s != [] && IsSpace(s[|s| - 1]) then TrimEnd(s[..|s| - 1]) else s
  }

  /** `TrimStart` drops exactly the leading whitespace: a suffix that starts with a non-space. */
  lemma {:induction false} TrimStartShape(s: string)
    ensures var r := TrimStart(s);
            r == s[|s| - |r|..] && (r != [] ==> !IsSpace(r[0])) &&
            forall i | 0 <= i < |s| - |r| :: IsSpace(s[i])
  {
    if s != [] && IsSpace(s[0]) {
      TrimStartShape(s[1..]);
    }
  }

  /** `TrimEnd` drops exactly the trailing whitespace: a prefix that ends with a non-space. */
  lemma {:induction false} TrimEndShape(s: string)
    ensures var r := TrimEnd(s);
            r == s[..|r|] && (r != [] ==> !IsSpace(r[|r| - 1])) &&
            forall i | |r| <= i < |s| :: IsSpace(s[i])
  {
    if s != [] && IsSpace(s[|s| - 1]) {
      TrimEndShape(s[..|s| - 1]);
    }
  }

  /** `s.trim()`. */
  function Trim(s: string): string {
    TrimEnd(TrimStart(s))
  }

  /** `!s.trim()`: the text is empty once surrounding whitespace is removed. */
  predicate IsBlank(s: string) {
    Trim(s) == []
  }

  lemma {:induction false} TrimStartAllSpace(s: string)
    requires forall i | 0 <= i < |s| :: IsSpace(s[i])
    ensures TrimStart(s) == []
  {
    if s != [] {
      assert IsSpace(s[0]);
      TrimStartAllSpace(s[1..]);
    }
  }

  /** Blank text is text made only of whitespace. */
  lemma BlankIffAllSpace(s: string)
    ensures IsBlank(s) <==> forall i | 0 <= i < |s| :: IsSpace(s[i])
  {
    var t := TrimStart(s);
    TrimStartShape(s);
    TrimEndShape(t);
    if forall i | 0 <= i < |s| :: IsSpace(s[i]) {
      TrimStartAllSpace(s);
    }
  }

  lemma {:induction false} TrimOfNoSpace(s: string)
    requires forall i | 0 <= i < |s| :: !IsSpace(s[i])
    ensures Trim(s) == s
  {
  }

  /** `s.substring(0, n)`: the first `n` characters, or all of them. */
  function Take(s: string, n: nat): (r: string)
    ensures |r| == if |s| < n then |s| else n
    ensures r <= s
  {
    if |s| <= n then s else s[..n]
  }

  /** Position just after the first `>` of `s`, if there is one. */
  function CloseTag(s: string): (k: nat)
    ensures k <= |s|
    ensures k > 0 ==> s[k - 1] == '>' && '>' !in s[..k - 1]
    ensures k == 0 ==> '>' !in s
  {
    if s == [] then 0
    else if s[0] == '>' then 1
    else
      var k := CloseTag(s[1..]);
      if k == 0 then 0 else k + 1
  }

  /** `s.replace(/<[^>]*>/g, '')`: every `<` that a later `>` closes is removed with everything up to that `>`. */
  function StripTags(s: string): (r: string)
    ensures |r| <= |s|
  {
    if s == [] then []
    else if s[0] == '<' && CloseTag(s[1..]) > 0 then StripTags(s[1 + CloseTag(s[1..])..])
    else [s[0]] + StripTags(s[1..])
  }

  /** Text without `<` is left as it is. */
  lemma {:induction false} StripTagsNoAngle(s: string)
    requires '<' !in s
    ensures StripTags(s) == s
  {
    if s != [] {
      StripTagsNoAngle(s[1..]);
    }
  }

  /** No `<` in `r` is followed anywhere by a `>`: `r` holds no tag. */
  predicate NoTag(r: string) {
    forall i, j | 0 <= i < j < |r| && r[i] == '<' :: r[j] != '>'
  }

  lemma ConsNoTag(c: char, rest: string)
    requires NoTag(rest)
    requires c == '<' ==> '>' !in rest
    ensures NoTag([c] + rest)
  {
    var r := [c] + rest;
    forall i, j | 0 <= i < j < |r| && r[i] == '<'
      ensures r[j] != '>'
    {
      assert r[j] == rest[j - 1];
      if i > 0 {
        assert r[i] == rest[i - 1];
      } else {
        assert rest[j - 1] in rest;
      }
    }
  }

  /** No tag survives stripping. */
  lemma {:induction false} StripTagsLeavesNoTag(s: string)
    ensures NoTag(StripTags(s))
  {
    if s == [] {
    } else if s[0] == '<' && CloseTag(s[1..]) > 0 {
      StripTagsLeavesNoTag(s[1 + CloseTag(s[1..])..]);
    } else {
      StripTagsLeavesNoTag(s[1..]);
      if s[0] == '<' {
        StripTagsKeepsOnlyFrom(s[1..]);
      }
      ConsNoTag(s[0], StripTags(s[1..]));
    }
  }

  /** What stripping keeps is drawn from its input, so text without `>` stays without `>`. */
  lemma {:induction false} StripTagsKeepsOnlyFrom(s: string)
    requires '>' !in s
    ensures '>' !in StripTags(s)
  {
    if s != [] {
      if s[0] == '<' && CloseTag(s[1..]) > 0 {
        assert false;
      } else {
        StripTagsKeepsOnlyFrom(s[1..]);
      }
    }
  }

  /** `s.split(sep)` for a one-character separator. */
  function Split(s: string, sep: char): (parts: seq<string>)
    ensures |parts| >= 1
  {
    if s == [] then [[]]
    else
      var rest := Split(s[1..], sep);
      if s[0] == sep then [[]] + rest
      else [[s[0]] + rest[0]] + rest[1..]
  }

  /** `parts.join(sep)`. */
  function Join(parts: seq<string>, sep: string): string {
    if parts == [] then []
    else if |parts| == 1 then parts[0]
    else parts[0] + sep + Join(parts[1..], sep)
  }

  /** A character found neither in the pieces nor in the separator is not in their join. */
  lemma {:induction false} JoinExcludes(parts: seq<string>, sep: string, c: char)
    requires c !in sep
    requires forall i | 0 <= i < |parts| :: c !in parts[i]
    ensures c !in Join(parts, sep)
    decreases |parts|
  {
    if |parts| > 1 {
      JoinExcludes(parts[1..], sep, c);
    }
  }

  function Count(s: string, c: char): nat {
    if s == [] then 0 else (if s[0] == c then 1 else 0) + Count(s[1..], c)
  }

  /** A character that occurs in `s` is counted at least once. */
  lemma {:induction false} CountMember(s: string, c: char)
    requires c in s
    ensures Count(s, c) >= 1
    decreases |s|
  {
    if s[0] != c {
      assert c in s[1..] by {
        var i :| 0 <= i < |s| && s[i] == c;
        assert s[1..][i - 1] == c;
      }
      CountMember(s[1..], c);
    }
  }

  /** Splitting gives one more piece than there are separators, no piece holds a separator, and joining undoes it. */
  lemma {:induction false} SplitJoin(s: string, sep: char)
    ensures |Split(s, sep)| == Count(s, sep) + 1
    ensures forall i | 0 <= i < |Split(s, sep)| :: sep !in Split(s, sep)[i]
    ensures Join(Split(s, sep), [sep]) == s
  {
    if s != [] {
      SplitJoin(s[1..], sep);
      var rest := Split(s[1..], sep);
      if s[0] == sep {
        assert Split(s, sep) == [[]] + rest;
        assert Join([[]] + rest, [sep]) == [] + [sep] + Join(rest, [sep]);
      } else {
        var parts := Split(s, sep);
        assert parts[0] == [s[0]] + rest[0];
        if |rest| == 1 {
          assert parts == [[s[0]] + rest[0]];
        } else {
          assert parts[1..] == rest[1..];
          assert Join(parts, [sep]) == parts[0] + [sep] + Join(rest[1..], [sep]);
          assert Join(rest, [sep]) == rest[0] + [sep] + Join(rest[1..], [sep]);
        }
      }
    }
  }

  lemma {:induction false} SplitNoSep(a: string, sep: char, rest: string)
    requires sep !in a
    ensures Split(a + [sep] + rest, sep) == [a] + Split(rest, sep)
    ensures Split(a, sep) == [a]
    decreases |a|
  {
    if a != [] {
      SplitNoSep(a[1..], sep, rest);
      assert (a + [sep] + rest)[1..] == a[1..] + [sep] + rest;
      assert [a[0]] + a[1..] == a;
    } else {
      assert [] + [sep] + rest == [sep] + rest;
      assert ([sep] + rest)[1..] == rest;
    }
  }

  lemma SplitCons(c: char, rest: string, sep: char)
    ensures Split([c] + rest, sep) == if c == sep then [[]] + Split(rest, sep) else [[c] + Split(rest, sep)[0]] + Split(rest, sep)[1..]
  {
    assert ([c] + rest)[1..] == rest;
  }

  lemma SplitAppendStep(c: char, t: string, sep: char, v: string)
    requires Split(t + [sep] + v, sep) == Split(t, sep) + Split(v, sep)
    ensures Split([c] + t + [sep] + v, sep) == Split([c] + t, sep) + Split(v, sep)
  {
    var w := t + [sep] + v;
    assert [c] + t + [sep] + v == [c] + w;
    SplitCons(c, w, sep);
    SplitCons(c, t, sep);
    ConsStep(c, sep, Split(t, sep), Split(v, sep));
  }

  /** The cons step of `Split` distributes over a concatenation of pieces. */
  lemma ConsStep(c: char, sep: char, a: seq<string>, b: seq<string>)
    requires a != []
    ensures (if c == sep then [[]] + (a + b) else [[c] + (a + b)[0]] + (a + b)[1..])
         == (if c == sep then [[]] + a else [[c] + a[0]] + a[1..]) + b
  {
    if c != sep {
      ConsFirst([c], a, b);
    }
  }

  lemma ConsFirst<T>(c: seq<T>, a: seq<seq<T>>, b: seq<seq<T>>)
    requires a != []
    ensures [c + (a + b)[0]] + (a + b)[1..] == ([c + a[0]] + a[1..]) + b
  {
    assert (a + b)[0] == a[0] && (a + b)[1..] == a[1..] + b;
  }

  /** Splitting at one separator splits each side independently. */
  lemma {:induction false} SplitAppend(u: string, sep: char, v: string)
    ensures Split(u + [sep] + v, sep) == Split(u, sep) + Split(v, sep)
    decreases |u|
  {
    if u == [] {
      assert u + [sep] + v == [sep] + v;
      SplitCons(sep, v, sep);
    } else {
      SplitAppend(u[1..], sep, v);
      SplitAppendStep(u[0], u[1..], sep, v);
      assert [u[0]] + u[1..] == u;
    }
  }

  /** Joining pieces that hold no separator and splitting again gives the pieces back. */
  lemma {:induction false} JoinSplit(parts: seq<string>, sep: char)
    requires |parts| >= 1
    requires forall i | 0 <= i < |parts| :: sep !in parts[i]
    ensures Split(Join(parts, [sep]), sep) == parts
    decreases |parts|
  {
    if |parts| == 1 {
      SplitNoSep(parts[0], sep, []);
    } else {
      JoinSplit(parts[1..], sep);
      SplitNoSep(parts[0], sep, Join(parts[1..], [sep]));
      assert [parts[0]] + parts[1..] == parts;
    }
  }

  /** Every character stands for one byte (Latin-1), as `btoa` requires. */
  predicate IsLatin1(s: string) {
    forall i | 0 <= i < |s| :: s[i] as int < 256
  }

  lemma Latin1Append(a: string, b: string)
    ensures IsLatin1(a + b) <==> IsLatin1(a) && IsLatin1(b)
  {
    var ab := a + b;
    assert forall i | 0 <= i < |ab| :: ab[i] == if i < |a| then a[i] else b[i - |a|];
    assert forall i | 0 <= i < |b| :: b[i] == ab[i + |a|];
  }

  function DigitChar(d: nat): (c: char)
    requires d < 10
    ensures IsDigit(c) && c as int - '0' as int == d
  {
    ('0' as int + d) as char
  }

  /** `String(n)` for a natural number: its decimal digits, most significant first. */
  function Decimal(n: nat): (r: string)
    ensures r != []
    ensures forall i | 0 <= i < |r| :: IsDigit(r[i])
    decreases n
  {
    if n < 10 then [DigitChar(n)] else Decimal(n / 10) + [DigitChar(n % 10)]
  }

  /** The value of a string of decimal digits. */
  function DigitsValue(s: string): nat
    requires forall i | 0 <= i < |s| :: IsDigit(s[i])
  {
    if s == [] then 0
    else
      assert IsDigit(s[|s| - 1]);
      10 * DigitsValue(s[..|s| - 1]) + (s[|s| - 1] as int - '0' as int)
  }

  /** Rendering a number in decimal loses nothing: reading the digits back gives the number. */
  lemma {:induction false} DecimalRoundTrip(n: nat)
    ensures DigitsValue(Decimal(n)) == n
    decreases n
  {
    if n >= 10 {
      DecimalRoundTrip(n / 10);
      var r := Decimal(n);
      assert r[..|r| - 1] == Decimal(n / 10);
    }
  }

  /** The decimal rendering has no leading zero, as JavaScript writes numbers. */
  lemma {:induction false} DecimalNoLeadingZero(n: nat)
    ensures Decimal(n)[0] == '0' ==> n == 0
    decreases n
  {
    if n >= 10 {
      DecimalNoLeadingZero(n / 10);
      assert Decimal(n)[0] == Decimal(n / 10)[0];
    }
  }
}
