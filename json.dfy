/**
 * The part of `JSON.stringify` and `JSON.parse` (section 25.5 of ECMA-262,
 * RFC 8259) that the unsubscribe token uses: a flat object whose members are
 * strings, integers, booleans or null, and a top-level scalar. JavaScript
 * values are modelled by `Value`; `Undefined` is what a missing property
 * reads as.
 */
module Json {
  import opened Wrappers
  import Text

  /** A JavaScript scalar value. */
  datatype Value = Undefined | Null | Bool(b: bool) | Num(n: int) | Str(s: string)

  /** The result of `JSON.parse`: an object (members in text order) or a scalar. */
  datatype Json = Object(fields: seq<(string, Value)>) | Scalar(v: Value)

  // ---------------------------------------------------------------------
  // Serialisation

  /** Lower-case hexadecimal digit, as `JSON.stringify` writes `\u00XX`. */
  function HexLower(v: nat): (c: char)
    requires v < 16
  {
    if v < 10 then ('0' as int + v) as char else ('a' as int + (v - 10)) as char
  }

  /** How `JSON.stringify` writes one character of a string. */
  function EscapeChar(c: char): (r: string)
    ensures r != [] && r[0] != '"'
    ensures c as int < 256 ==> forall i | 0 <= i < |r| :: r[i] as int < 256
  {
    if c == '"' then "\\\""
    else if c == '\\' then "\\\\"
    else if c as int == 0x08 then "\\b"
    else if c as int == 0x0C then "\\f"
    else if c == '\n' then "\\n"
    else if c == '\r' then "\\r"
    else if c == '\t' then "\\t"
    else if c as int < 0x20 then "\\u00" + [HexLower(c as int / 16), HexLower(c as int % 16)]
    else [c]
  }

  function Escape(s: string): string {
    if s == [] then [] else EscapeChar(s[0]) + Escape(s[1..])
  }

  /** A string literal. */
  function Quote(s: string): string {
    "\"" + Escape(s) + "\""
  }

  /** `String(n)` for an integer. */
  function NumberText(n: int): string {
    if n < 0 then "-" + Text.Decimal(-n) else Text.Decimal(n)
  }

  /** A member value; `Undefined` members are left out of objects by `Defined`. */
  function ValueText(v: Value): string {
    match v
    case Undefined => "null"
    case Null => "null"
    case Bool(b) => if b then "true" else "false"
    case Num(n) => NumberText(n)
    case Str(s) => Quote(s)
  }

  /** The members `JSON.stringify` writes: those whose value is not `undefined`. */
  function Defined(fields: seq<(string, Value)>): (r: seq<(string, Value)>)
    ensures forall i | 0 <= i < |r| :: r[i].1 != Undefined
  {
    if fields == [] then []
    else if fields[0].1 == Undefined then Defined(fields[1..])
    else [fields[0]] + Defined(fields[1..])
  }

  function Member(f: (string, Value)): string {
    Quote(f.0) + ":" + ValueText(f.1)
  }

  function Members(fields: seq<(string, Value)>): string {
    if fields == [] then []
    else if |fields| == 1 then Member(fields[0])
    else Member(fields[0]) + "," + Members(fields[1..])
  }

  /** `JSON.stringify` of an object literal, members in the order written. */
  function Stringify(fields: seq<(string, Value)>): string {
    "{" + Members(Defined(fields)) + "}"
  }

  // ---------------------------------------------------------------------
  // Parsing

  predicate IsJsonSpace(c: char) {
    c == ' ' || c == '\t' || c == '\n' || c == '\r'
  }

  function SkipSpace(s: string): (r: string)
    ensures |r| <= |s|
    ensures r != [] ==> !IsJsonSpace(r[0])
  {
    if s != [] && IsJsonSpace(s[0]) then SkipSpace(s[1..]) else s
  }

  function HexValue(c: char): Option<nat> {
    if '0' <= c <= '9' then Some(c as int - '0' as int)
    else if 'A' <= c <= 'F' then Some(c as int - 'A' as int + 10)
    else if 'a' <= c <= 'f' then Some(c as int - 'a' as int + 10)
    else None
  }

  /** Four hexadecimal digits of a `\u` escape. */
  function Hex4(s: string): Option<nat>
    requires |s| == 4
  {
    match (HexValue(s[0]), HexValue(s[1]), HexValue(s[2]), HexValue(s[3]))
    case (Some(a), Some(b), Some(c), Some(d)) => Some(4096 * a + 256 * b + 16 * c + d)
    case _ => None
  }

  /** The character an escape letter stands for. */
  function Unescape(e: char): Option<char> {
    if e == '"' then Some('"')
    else if e == '\\' then Some('\\')
    else if e == '/' then Some('/')
    else if e == 'b' then Some(0x08 as char)
    else if e == 'f' then Some(0x0C as char)
    else if e == 'n' then Some('\n')
    else if e == 'r' then Some('\r')
    else if e == 't' then Some('\t')
    else None
  }

  function Prepend(c: char, r: Option<(string, string)>): Option<(string, string)> {
    match r
    case None => None
    case Some((x, rest)) => Some(([c] + x, rest))
  }

  /** The characters of a string literal after its opening quote, and the text after its closing quote. */
  function StringBody(s: string): (r: Option<(string, string)>)
    ensures r.Some? ==> |r.value.1| < |s|
    decreases |s|
  {
    if s == [] then None
    else if s[0] == '"' then Some(([], s[1..]))
    else if s[0] == '\\' then
      if |s| < 2 then None
      else if s[1] == 'u' then
        if |s| < 6 then None
        else match Hex4(s[2..6])
          case None => None
          case Some(v) =>
            if 0xD800 <= v < 0xE000 then None
            else Prepend(v as char, StringBody(s[6..]))
      else match Unescape(s[1])
        case None => None
        case Some(c) => Prepend(c, StringBody(s[2..]))
    else if s[0] as int < 0x20 then None
    else Prepend(s[0], StringBody(s[1..]))
  }

  /** The longest run of decimal digits at the front of `s`. */
  function DigitRun(s: string): (r: string)
    ensures |r| <= |s| && forall i | 0 <= i < |r| :: Text.IsDigit(r[i])
  {
    if s != [] && Text.IsDigit(s[0]) then [s[0]] + DigitRun(s[1..]) else []
  }

  /** An integer without leading zeros; a fraction or exponent is not part of this model. */
  function Natural(s: string): (r: Option<(nat, string)>)
    ensures r.Some? ==> |r.value.1| < |s|
  {
    if s == [] || !Text.IsDigit(s[0]) then None
    else if s[0] == '0' then Some((0, s[1..]))
    else
      var d := DigitRun(s);
      Some((Text.DigitsValue(d), s[|d|..]))
  }

  function Number(s: string): (r: Option<(int, string)>)
    ensures r.Some? ==> |r.value.1| < |s|
  {
    if s != [] && s[0] == '-' then
      match Natural(s[1..])
      case None => None
      case Some((n, rest)) => Some((0 - n as int, rest))
    else
      match Natural(s)
      case None => None
      case Some((n, rest)) => Some((n as int, rest))
  }

  function ParseScalar(s: string): (r: Option<(Value, string)>)
    ensures r.Some? ==> |r.value.1| < |s|
  {
    if s == [] then None
    else if s[0] == '"' then
      match StringBody(s[1..])
      case None => None
      case Some((x, rest)) => Some((Str(x), rest))
    else if "true" <= s then Some((Bool(true), s[4..]))
    else if "false" <= s then Some((Bool(false), s[5..]))
    else if "null" <= s then Some((Null, s[4..]))
    else match Number(s)
      case None => None
      case Some((n, rest)) => Some((Num(n), rest))
  }

  /** `"key" : value`, with optional whitespace around the tokens. */
  function ParseMember(s: string): (r: Option<((string, Value), string)>)
    ensures r.Some? ==> |r.value.1| < |s|
  {
    var t := SkipSpace(s);
    if t == [] || t[0] != '"' then None
    else match StringBody(t[1..])
      case None => None
      case Some((k, r1)) =>
        var t2 := SkipSpace(r1);
        if t2 == [] || t2[0] != ':' then None
        else match ParseScalar(SkipSpace(t2[1..]))
          case None => None
          case Some((v, r2)) => Some(((k, v), r2))
  }

  /** Members separated by `,` up to and including the closing `}`. */
  function ParseMembers(s: string): (r: Option<(seq<(string, Value)>, string)>)
    ensures r.Some? ==> |r.value.1| < |s|
    decreases |s|
  {
    match ParseMember(s)
    case None => None
    case Some((f, rest)) =>
      var t := SkipSpace(rest);
      if t == [] then None
      else if t[0] == ',' then
        match ParseMembers(t[1..])
        case None => None
        case Some((fs, r)) => Some(([f] + fs, r))
      else if t[0] == '}' then Some(([f], t[1..]))
      else None
  }

  /** An object after its opening `{`. */
  function ParseObject(s: string): Option<(seq<(string, Value)>, string)> {
    var t := SkipSpace(s);
    if t != [] && t[0] == '}' then Some(([], t[1..])) else ParseMembers(t)
  }

  /** `JSON.parse(text)`; `None` stands for the `SyntaxError` it throws. */
  function Parse(text: string): Option<Json> {
    var t := SkipSpace(text);
    if t != [] && t[0] == '{' then
      match ParseObject(t[1..])
      case None => None
      case Some((fs, rest)) => if SkipSpace(rest) == [] then Some(Object(fs)) else None
    else
      match ParseScalar(t)
      case None => None
      case Some((v, rest)) => if SkipSpace(rest) == [] then Some(Scalar(v)) else None
  }

  /** The value bound to `key` by the last member that names it, `Undefined` when none does. */
  function Lookup(fields: seq<(string, Value)>, key: string): Value {
    if fields == [] then Undefined
    else if fields[|fields| - 1].0 == key then fields[|fields| - 1].1
    else Lookup(fields[..|fields| - 1], key)
  }

  /** Reading property `key` of a parsed value; `None` stands for the `TypeError` thrown when the value is `null`. */
  function Get(j: Json, key: string): Option<Value> {
    match j
    case Object(fs) => Some(Lookup(fs, key))
    case Scalar(Null) => None
    case Scalar(_) => Some(Undefined)
  }

  /** `String(v)`, as a template literal or a query filter renders a value. */
  function ToText(v: Value): string {
    match v
    case Undefined => "undefined"
    case Null => "null"
    case Bool(b) => if b then "true" else "false"
    case Num(n) => NumberText(n)
    case Str(s) => s
  }

  /** JavaScript truthiness: `undefined`, `null`, `false`, `0` and `""` are falsy. */
  predicate Truthy(v: Value) {
    match v
    case Undefined => false
    case Null => false
    case Bool(b) => b
    case Num(n) => n != 0
    case Str(s) => s != []
  }

  // ---------------------------------------------------------------------
  // Round trip

  lemma HexLowerValue(v: nat)
    requires v < 16
    ensures HexValue(HexLower(v)) == Some(v)
  {
  }

  lemma {:induction false} SkipNonSpace(s: string)
    requires s == [] || !IsJsonSpace(s[0])
    ensures SkipSpace(s) == s
  {
  }

  lemma Recompose16(n: nat, hi: nat, lo: nat)
    requires hi == n / 16 && lo == n % 16
    ensures 16 * hi + lo == n
  {
  }

  /** One escaped character is read back as itself. */
  lemma EscapeCharRoundTrip(c: char, rest: string)
    ensures StringBody(EscapeChar(c) + rest) == Prepend(c, StringBody(rest))
  {
    var s := EscapeChar(c) + rest;
    if c == '"' || c == '\\' || c as int == 0x08 || c as int == 0x0C || c == '\n' || c == '\r' || c == '\t' {
      assert s[2..] == rest;
    } else if c as int < 0x20 {
      var n := c as int;
      var hi, lo := n / 16, n % 16;
      HexLowerValue(hi);
      HexLowerValue(lo);
      var digits := ['0', '0', HexLower(hi), HexLower(lo)];
      assert s[2..6] == digits;
      Recompose16(n, hi, lo);
      assert Hex4(digits) == Some(n);
      assert s[6..] == rest;
    } else {
      assert s[1..] == rest;
    }
  }

  /** A string literal is read back as the string, leaving the text after it. */
  lemma {:induction false} StringRoundTrip(x: string, rest: string)
    ensures StringBody(Escape(x) + "\"" + rest) == Some((x, rest))
    decreases |x|
  {
    if x == [] {
      assert (Escape(x) + "\"" + rest)[1..] == rest;
    } else {
      StringRoundTrip(x[1..], rest);
      assert Escape(x) + "\"" + rest == EscapeChar(x[0]) + (Escape(x[1..]) + "\"" + rest);
      EscapeCharRoundTrip(x[0], Escape(x[1..]) + "\"" + rest);
      assert [x[0]] + x[1..] == x;
    }
  }

  lemma {:induction false} DigitRunOf(d: string, rest: string)
    requires forall i | 0 <= i < |d| :: Text.IsDigit(d[i])
    requires rest == [] || !Text.IsDigit(rest[0])
    ensures DigitRun(d + rest) == d
    decreases |d|
  {
    if d != [] {
      DigitRunOf(d[1..], rest);
      assert (d + rest)[0] == d[0];
      assert (d + rest)[1..] == d[1..] + rest;
      assert [d[0]] + d[1..] == d;
    } else {
      assert d + rest == rest;
    }
  }

  lemma NaturalRoundTrip(n: nat, rest: string)
    requires rest == [] || !Text.IsDigit(rest[0])
    ensures Natural(Text.Decimal(n) + rest) == Some((n, rest))
  {
    var d := Text.Decimal(n);
    var s := d + rest;
    Text.DecimalNoLeadingZero(n);
    Text.DecimalRoundTrip(n);
    if n == 0 {
      assert d == "0";
      assert s[1..] == rest;
    } else {
      DigitRunOf(d, rest);
      assert s[|d|..] == rest;
    }
  }

  lemma NegativeRoundTrip(m: nat, rest: string)
    requires m > 0
    requires rest == [] || !Text.IsDigit(rest[0])
    ensures Number("-" + Text.Decimal(m) + rest) == Some((-(m as int), rest))
  {
    var s := "-" + Text.Decimal(m) + rest;
    assert s[1..] == Text.Decimal(m) + rest;
    NaturalRoundTrip(m, rest);
  }

  lemma NonNegativeRoundTrip(n: nat, rest: string)
    requires rest == [] || !Text.IsDigit(rest[0])
    ensures Number(Text.Decimal(n) + rest) == Some((n, rest))
  {
    var d := Text.Decimal(n);
    assert (d + rest)[0] == d[0];
    assert Text.IsDigit(d[0]);
    NaturalRoundTrip(n, rest);
  }

  lemma NumberRoundTrip(n: int, rest: string)
    requires rest == [] || !Text.IsDigit(rest[0])
    ensures Number(NumberText(n) + rest) == Some((n, rest))
  {
    if n < 0 {
      NegativeRoundTrip(-n, rest);
    } else {
      NonNegativeRoundTrip(n, rest);
    }
  }

  lemma NumScalarRoundTrip(n: int, rest: string)
    requires rest == [] || !Text.IsDigit(rest[0])
    ensures ParseScalar(NumberText(n) + rest) == Some((Num(n), rest))
  {
    var s := NumberText(n) + rest;
    NumberRoundTrip(n, rest);
    var m: nat := if n < 0 then -n else n;
    assert Text.IsDigit(Text.Decimal(m)[0]);
    assert s[0] == '-' || Text.IsDigit(s[0]);
    assert s[0] != '"' && s[0] != 't' && s[0] != 'f' && s[0] != 'n';
  }

  lemma StrScalarRoundTrip(x: string, rest: string)
    ensures ParseScalar(Quote(x) + rest) == Some((Str(x), rest))
  {
    var s := Quote(x) + rest;
    assert s[0] == '"';
    assert s[1..] == Escape(x) + "\"" + rest;
    StringRoundTrip(x, rest);
  }

  lemma ScalarRoundTrip(v: Value, rest: string)
    requires v != Undefined
    requires rest == [] || !Text.IsDigit(rest[0])
    ensures ParseScalar(ValueText(v) + rest) == Some((v, rest))
  {
    var s := ValueText(v) + rest;
    match v
    case Null =>
      assert s[..4] == "null" && s[4..] == rest;
    case Bool(b) =>
      if b {
        assert s[..4] == "true" && s[4..] == rest;
      } else {
        assert s[..5] == "false" && s[5..] == rest;
      }
    case Str(x) =>
      StrScalarRoundTrip(x, rest);
    case Num(n) =>
      NumScalarRoundTrip(n, rest);
  }

  /** No value's text starts with whitespace. */
  lemma ValueTextStart(v: Value)
    ensures ValueText(v) != [] && !IsJsonSpace(ValueText(v)[0])
  {
    match v
    case Num(n) =>
      var m: nat := if n < 0 then -n else n;
      assert Text.IsDigit(Text.Decimal(m)[0]);
    case _ =>
  }

  lemma ParseMemberSteps(s: string, k: string, r1: string, v: Value, r2: string)
    requires s != [] && s[0] == '"' && StringBody(s[1..]) == Some((k, r1))
    requires r1 != [] && r1[0] == ':'
    requires r1[1..] == [] || !IsJsonSpace(r1[1])
    requires ParseScalar(r1[1..]) == Some((v, r2))
    ensures ParseMember(s) == Some(((k, v), r2))
  {
    SkipNonSpace(s);
    SkipNonSpace(r1);
    SkipNonSpace(r1[1..]);
  }

  /** The text of a member followed by more text, cut after its opening quote and after the colon. */
  lemma MemberPieces(e: string, v: string, rest: string)
    ensures var s := "\"" + e + "\"" + ":" + v + rest;
            s[0] == '"' && s[1..] == e + "\"" + (":" + (v + rest))
  {
    var s := "\"" + e + "\"" + ":" + v + rest;
    assert s == "\"" + (e + "\"" + (":" + (v + rest)));
  }

  lemma MemberRoundTrip(f: (string, Value), rest: string)
    requires f.1 != Undefined
    requires rest == [] || !Text.IsDigit(rest[0])
    ensures ParseMember(Member(f) + rest) == Some((f, rest))
  {
    var s := Member(f) + rest;
    var vt := ValueText(f.1) + rest;
    var afterKey := ":" + vt;
    MemberPieces(Escape(f.0), ValueText(f.1), rest);
    StringRoundTrip(f.0, afterKey);
    assert afterKey[1..] == vt;
    ScalarRoundTrip(f.1, rest);
    ValueTextStart(f.1);
    assert vt[0] == ValueText(f.1)[0];
    ParseMemberSteps(s, f.0, afterKey, f.1, rest);
  }

  lemma ParseMembersLast(s: string, f: (string, Value), r: string)
    requires ParseMember(s) == Some((f, r)) && r != [] && r[0] == '}'
    ensures ParseMembers(s) == Some(([f], r[1..]))
  {
    SkipNonSpace(r);
  }

  lemma ParseMembersMore(s: string, f: (string, Value), r: string, fs: seq<(string, Value)>, r2: string)
    requires ParseMember(s) == Some((f, r)) && r != [] && r[0] == ','
    requires ParseMembers(r[1..]) == Some((fs, r2))
    ensures ParseMembers(s) == Some(([f] + fs, r2))
  {
    SkipNonSpace(r);
  }

  /** The members of a non-empty object followed by its closing brace. */
  function MembersClosed(fields: seq<(string, Value)>): string
    requires fields != []
  {
    if |fields| == 1 then Member(fields[0]) + "}"
    else Member(fields[0]) + "," + MembersClosed(fields[1..])
  }

  lemma {:induction false} MembersClosedIs(fields: seq<(string, Value)>)
    requires fields != []
    ensures MembersClosed(fields) == Members(fields) + "}"
    decreases |fields|
  {
    if |fields| > 1 {
      MembersClosedIs(fields[1..]);
    }
  }

  lemma ClosedCons(fields: seq<(string, Value)>, rest: string)
    requires |fields| >= 2
    ensures MembersClosed(fields) + rest == Member(fields[0]) + ("," + (MembersClosed(fields[1..]) + rest))
  {
  }

  lemma ClosedOne(fields: seq<(string, Value)>, rest: string)
    requires |fields| == 1
    ensures MembersClosed(fields) + rest == Member(fields[0]) + ("}" + rest)
  {
  }

  /** The first member of several is read back, leaving the comma. */
  lemma FirstOfMany(fields: seq<(string, Value)>, rest: string)
    requires |fields| >= 2 && fields[0].1 != Undefined
    ensures ParseMember(MembersClosed(fields) + rest) == Some((fields[0], "," + (MembersClosed(fields[1..]) + rest)))
  {
    ClosedCons(fields, rest);
    MemberRoundTrip(fields[0], "," + (MembersClosed(fields[1..]) + rest));
  }

  /** The only member is read back, leaving the closing brace. */
  lemma OnlyMember(fields: seq<(string, Value)>, rest: string)
    requires |fields| == 1 && fields[0].1 != Undefined
    ensures ParseMember(MembersClosed(fields) + rest) == Some((fields[0], "}" + rest))
  {
    ClosedOne(fields, rest);
    MemberRoundTrip(fields[0], "}" + rest);
  }

  /** The members of an object are read back in order, up to its closing brace. */
  lemma {:induction false} MembersRoundTrip(fields: seq<(string, Value)>, rest: string)
    requires fields != []
    requires forall i | 0 <= i < |fields| :: fields[i].1 != Undefined
    ensures ParseMembers(MembersClosed(fields) + rest) == Some((fields, rest))
    decreases |fields|
  {
    if |fields| == 1 {
      LastMemberRead(fields, rest);
    } else {
      MembersRoundTrip(fields[1..], rest);
      FirstOfMany(fields, rest);
      NextMemberRead(fields[0], fields[1..], MembersClosed(fields) + rest, MembersClosed(fields[1..]) + rest, rest);
      assert [fields[0]] + fields[1..] == fields;
    }
  }

  lemma LastMemberRead(fields: seq<(string, Value)>, rest: string)
    requires |fields| == 1 && fields[0].1 != Undefined
    ensures ParseMembers(MembersClosed(fields) + rest) == Some((fields, rest))
  {
    OnlyMember(fields, rest);
    assert ("}" + rest)[1..] == rest;
    ParseMembersLast(MembersClosed(fields) + rest, fields[0], "}" + rest);
    assert [fields[0]] == fields;
  }

  lemma NextMemberRead(f: (string, Value), fs: seq<(string, Value)>, s: string, tail: string, rest: string)
    requires ParseMember(s) == Some((f, "," + tail))
    requires ParseMembers(tail) == Some((fs, rest))
    ensures ParseMembers(s) == Some(([f] + fs, rest))
  {
    assert ("," + tail)[1..] == tail;
    ParseMembersMore(s, f, "," + tail, fs, rest);
  }

  lemma {:induction false} DefinedAll(fields: seq<(string, Value)>)
    requires forall i | 0 <= i < |fields| :: fields[i].1 != Undefined
    ensures Defined(fields) == fields
    decreases |fields|
  {
    if fields != [] {
      DefinedAll(fields[1..]);
      assert [fields[0]] + fields[1..] == fields;
    }
  }

  /** An object's text cut after its opening brace. */
  lemma BracePieces(body: string)
    ensures var s := "{" + body + "}";
            s[0] == '{' && s[1..] == body + "}" + []
  {
    var s := "{" + body + "}";
    assert s == "{" + (body + "}" + []);
  }

  /** The members of a non-empty object start with the quote of the first key. */
  lemma MembersStart(fields: seq<(string, Value)>)
    requires fields != []
    ensures Members(fields) != [] && Members(fields)[0] == '"'
  {
    var m := Member(fields[0]);
    assert m == "\"" + (Escape(fields[0].0) + "\"" + ":" + ValueText(fields[0].1));
  }

  /** An object text whose members parse up to the end of the text. */
  lemma ParseObjectText(s: string, fs: seq<(string, Value)>)
    requires s != [] && s[0] == '{' && s[1..] != [] && s[1] == '"'
    requires ParseMembers(s[1..]) == Some((fs, []))
    ensures Parse(s) == Some(Object(fs))
  {
    SkipNonSpace(s);
    SkipNonSpace(s[1..]);
  }

  /** `JSON.parse(JSON.stringify(o))` gives back every member of an object with no `undefined` member. */
  lemma ParseStringify(fields: seq<(string, Value)>)
    requires forall i | 0 <= i < |fields| :: fields[i].1 != Undefined
    ensures Parse(Stringify(fields)) == Some(Object(fields))
  {
    DefinedAll(fields);
    var s := Stringify(fields);
    BracePieces(Members(fields));
    if fields == [] {
      assert s == "{}";
    } else {
      MembersClosedIs(fields);
      MembersRoundTrip(fields, []);
      MembersStart(fields);
      ParseObjectText(s, fields);
    }
  }

  // ---------------------------------------------------------------------
  // Latin-1

  /** A string's literal stays within Latin-1 exactly when the string does. */
  lemma {:induction false} EscapeLatin1(s: string)
    ensures Text.IsLatin1(Escape(s)) <==> Text.IsLatin1(s)
    decreases |s|
  {
    if s != [] {
      EscapeLatin1(s[1..]);
      Text.Latin1Append(EscapeChar(s[0]), Escape(s[1..]));
      Text.Latin1Append([s[0]], s[1..]);
      assert [s[0]] + s[1..] == s;
      if s[0] as int >= 256 {
        assert EscapeChar(s[0]) == [s[0]];
      }
    }
  }

  predicate ValueLatin1(v: Value) {
    v.Str? ==> Text.IsLatin1(v.s)
  }

  predicate FieldLatin1(f: (string, Value)) {
    Text.IsLatin1(f.0) && ValueLatin1(f.1)
  }

  predicate FieldsLatin1(fields: seq<(string, Value)>) {
    forall i | 0 <= i < |fields| :: FieldLatin1(fields[i])
  }

  lemma QuoteLatin1(s: string)
    ensures Text.IsLatin1(Quote(s)) <==> Text.IsLatin1(s)
  {
    EscapeLatin1(s);
    Text.Latin1Append("\"", Escape(s));
    Text.Latin1Append("\"" + Escape(s), "\"");
  }

  lemma ValueTextLatin1(v: Value)
    ensures Text.IsLatin1(ValueText(v)) <==> ValueLatin1(v)
  {
    match v
    case Str(x) => QuoteLatin1(x);
    case Num(n) =>
      var m: nat := if n < 0 then -n else n;
      var d := Text.Decimal(m);
      assert Text.IsLatin1(d);
      Text.Latin1Append("-", d);
    case _ =>
  }

  lemma MemberLatin1(f: (string, Value))
    ensures Text.IsLatin1(Member(f)) <==> FieldLatin1(f)
  {
    QuoteLatin1(f.0);
    ValueTextLatin1(f.1);
    Text.Latin1Append(Quote(f.0), ":");
    Text.Latin1Append(Quote(f.0) + ":", ValueText(f.1));
  }

  lemma {:induction false} MembersLatin1(fields: seq<(string, Value)>)
    ensures Text.IsLatin1(Members(fields)) <==> FieldsLatin1(fields)
    decreases |fields|
  {
    if fields != [] {
      MemberLatin1(fields[0]);
      if |fields| > 1 {
        MembersLatin1(fields[1..]);
        Text.Latin1Append(Member(fields[0]), ",");
        Text.Latin1Append(Member(fields[0]) + ",", Members(fields[1..]));
        assert forall i | 1 <= i < |fields| :: fields[i] == fields[1..][i - 1];
      }
    }
  }

  /** `JSON.stringify` of an object is a binary string exactly when every member it writes has Latin-1 keys and strings. */
  lemma StringifyLatin1(fields: seq<(string, Value)>)
    ensures Text.IsLatin1(Stringify(fields)) <==> FieldsLatin1(Defined(fields))
  {
    MembersLatin1(Defined(fields));
    Text.Latin1Append("{", Members(Defined(fields)));
    Text.Latin1Append("{" + Members(Defined(fields)), "}");
  }
}
