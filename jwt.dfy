/**
 * The unsubscribe token of the newsletter (src/lib/jwt.ts): three base64
 * segments joined by dots. The first is the header
 * `{"alg":"HS256","typ":"JWT"}`, the second the claims (subscriber id, email,
 * purpose `unsubscribe`, expiry thirty days ahead in Unix seconds), and the
 * third is `btoa(header + "." + payload + "." + secret)`. The secret is the
 * site's admin password. Verification recomputes the third segment, decodes
 * the claims and applies JavaScript's comparison rules to `exp` and
 * `purpose`; every exception it can throw ends in `null`, modelled as `None`.
 * The clock reading `Date.now()` and the secret are parameters.
 */
module Jwt {
  import opened Wrappers
  import Text
  import Base64
  import opened Json

  /** Thirty days, in seconds. */
  const Lifetime: nat := 30 * 24 * 60 * 60

  /** The one purpose a token is accepted for. */
  const Purpose: string := "unsubscribe"

  const HeaderFields: seq<(string, Value)> := [("alg", Str("HS256")), ("typ", Str("JWT"))]

  /** `Math.floor(Date.now() / 1000)`: Unix seconds of a millisecond clock reading. */
  function Seconds(nowMs: nat): nat {
    nowMs / 1000
  }

  /** The claims object written into a new token, in the order the source writes it. */
  function PayloadFields(id: string, email: string, nowMs: nat): seq<(string, Value)> {
    [("sub", Str(id)), ("email", Str(email)), ("purpose", Str(Purpose)), ("exp", Num(Seconds(nowMs) + Lifetime))]
  }

  /** The signature segment for a header and a payload segment. */
  function Sign(header: string, payload: string, secret: string): Option<string> {
    Base64.Btoa(header + "." + payload + "." + secret)
  }

  /** `createUnsubscribeToken`; `None` stands for the exception `btoa` throws on a character above U+00FF. */
  function CreateUnsubscribeToken(id: string, email: string, nowMs: nat, secret: string): Option<string> {
    match (Base64.Btoa(Stringify(HeaderFields)), Base64.Btoa(Stringify(PayloadFields(id, email, nowMs))))
    case (Some(h), Some(p)) =>
      (match Sign(h, p, secret)
       case Some(sig) => Some(h + "." + p + "." + sig)
       case None => None)
    case _ => None
  }

  // ---------------------------------------------------------------------
  // JavaScript's `<` between a claim and a number

  /** `Number(s)` for a string holding an optionally signed run of decimal digits; `None` for anything else. */
  function IntegerText(t: string): Option<int> {
    if t != [] && (t[0] == '-' || t[0] == '+') then
      var d := t[1..];
      if d != [] && forall i | 0 <= i < |d| :: Text.IsDigit(d[i]) then
        Some(if t[0] == '-' then 0 - Text.DigitsValue(d) else Text.DigitsValue(d))
      else None
    else if t != [] && forall i | 0 <= i < |t| :: Text.IsDigit(t[i]) then Some(Text.DigitsValue(t))
    else None
  }

  /** The number a relational comparison converts a value to; `None` is `NaN`. */
  function ToNumber(v: Value): (r: Option<int>)
    ensures v == Undefined ==> r == None
    ensures v.Num? ==> r == Some(v.n)
  {
    match v
    case Undefined => None
    case Null => Some(0)
    case Bool(b) => Some(if b then 1 else 0)
    case Num(n) => Some(n)
    case Str(s) =>
      var t := Text.Trim(s);
      if t == [] then Some(0) else IntegerText(t)
  }

  /** `exp < nowSec`: false whenever `exp` converts to `NaN`. */
  predicate Expired(exp: Value, nowSec: int) {
    match ToNumber(exp)
    case None => false
    case Some(n) => n < nowSec
  }

  // ---------------------------------------------------------------------
  // Verification

  /** What a valid token yields: the `sub` and `email` claims, whatever their type. */
  datatype Claims = Claims(subscriberId: Value, email: Value)

  /** The checks made on the decoded claims object. */
  function CheckClaims(j: Json, nowSec: int): Option<Claims> {
    match Get(j, "exp")
    case None => None
    case Some(exp) =>
      if Expired(exp, nowSec) then None
      else if Get(j, "purpose") != Some(Str(Purpose)) then None
      else Some(Claims(Get(j, "sub").GetOr(Undefined), Get(j, "email").GetOr(Undefined)))
  }

  /**
   * `verifyUnsubscribeToken`. With fewer than three segments the destructured
   * signature is `undefined`, which is never equal to the expected string;
   * segments after the third are ignored.
   */
  function VerifyUnsubscribeToken(token: string, nowMs: nat, secret: string): Option<Claims> {
    var parts := Text.Split(token, '.');
    if |parts| < 3 then None
    else match Sign(parts[0], parts[1], secret)
      case None => None
      case Some(expected) =>
        if parts[2] != expected then None
        else match Base64.Atob(parts[1])
          case None => None
          case Some(text) =>
            match Parse(text)
            case None => None
            case Some(j) => CheckClaims(j, Seconds(nowMs))
  }

  // ---------------------------------------------------------------------
  // Properties

  lemma SignLatin1(header: string, payload: string, secret: string)
    requires Text.IsLatin1(header) && Text.IsLatin1(payload)
    ensures Sign(header, payload, secret).Some? <==> Text.IsLatin1(secret)
  {
    Text.Latin1Append(header, ".");
    Text.Latin1Append(header + ".", payload);
    Text.Latin1Append(header + "." + payload, ".");
    Text.Latin1Append(header + "." + payload + ".", secret);
  }

  lemma HeaderLatin1()
    ensures Text.IsLatin1(Stringify(HeaderFields))
  {
    assert Defined(HeaderFields) == HeaderFields;
    assert FieldLatin1(HeaderFields[0]) && FieldLatin1(HeaderFields[1]);
    StringifyLatin1(HeaderFields);
  }

  lemma PayloadAllDefined(id: string, email: string, nowMs: nat)
    ensures var fs := PayloadFields(id, email, nowMs); forall i | 0 <= i < |fs| :: fs[i].1 != Undefined
  {
  }

  lemma PayloadDefined(id: string, email: string, nowMs: nat)
    ensures Defined(PayloadFields(id, email, nowMs)) == PayloadFields(id, email, nowMs)
  {
    PayloadAllDefined(id, email, nowMs);
    DefinedAll(PayloadFields(id, email, nowMs));
  }

  lemma PayloadFieldsLatin1(id: string, email: string, nowMs: nat)
    ensures FieldsLatin1(PayloadFields(id, email, nowMs)) <==> Text.IsLatin1(id) && Text.IsLatin1(email)
  {
    var fs := PayloadFields(id, email, nowMs);
    assert Text.IsLatin1(Purpose) && Text.IsLatin1("sub") && Text.IsLatin1("email");
    assert Text.IsLatin1("purpose") && Text.IsLatin1("exp");
    assert FieldLatin1(fs[0]) <==> Text.IsLatin1(id);
    assert FieldLatin1(fs[1]) <==> Text.IsLatin1(email);
    assert FieldLatin1(fs[2]) && FieldLatin1(fs[3]);
  }

  lemma PayloadLatin1(id: string, email: string, nowMs: nat)
    ensures Text.IsLatin1(Stringify(PayloadFields(id, email, nowMs))) <==> Text.IsLatin1(id) && Text.IsLatin1(email)
  {
    PayloadDefined(id, email, nowMs);
    PayloadFieldsLatin1(id, email, nowMs);
    StringifyLatin1(PayloadFields(id, email, nowMs));
  }

  /** A token can be created exactly when the id, the email and the secret are binary strings. */
  lemma CreateDefined(id: string, email: string, nowMs: nat, secret: string)
    ensures CreateUnsubscribeToken(id, email, nowMs, secret).Some? <==>
              Text.IsLatin1(id) && Text.IsLatin1(email) && Text.IsLatin1(secret)
  {
    HeaderLatin1();
    PayloadLatin1(id, email, nowMs);
    var header := Stringify(HeaderFields);
    var payload := Stringify(PayloadFields(id, email, nowMs));
    Base64.EncodeText(header);
    if Text.IsLatin1(payload) {
      Base64.EncodeText(payload);
      SignLatin1(Base64.Encode(header), Base64.Encode(payload), secret);
    }
  }

  /** Three segments joined by dots split back into those segments when none holds a dot. */
  lemma ThreeSegments(h: string, p: string, s: string)
    requires '.' !in h && '.' !in p && '.' !in s
    ensures Text.Split(h + "." + p + "." + s, '.') == [h, p, s]
  {
    var parts := [h, p, s];
    assert Text.Join(parts, ".") == h + "." + p + "." + s by {
      assert Text.Join(parts[1..], ".") == p + "." + s by {
        assert parts[1..][1..] == [s];
      }
    }
    Text.JoinSplit(parts, '.');
  }

  /**
   * A created token is three dot-free segments: the encoded header, the
   * encoded claims and the signature over both.
   */
  lemma TokenShape(id: string, email: string, nowMs: nat, secret: string)
    requires CreateUnsubscribeToken(id, email, nowMs, secret).Some?
    ensures var h := Base64.Encode(Stringify(HeaderFields));
            var p := Base64.Encode(Stringify(PayloadFields(id, email, nowMs)));
            Text.Split(CreateUnsubscribeToken(id, email, nowMs, secret).value, '.') == [h, p, Base64.Encode(h + "." + p + "." + secret)]
  {
    CreateDefined(id, email, nowMs, secret);
    HeaderLatin1();
    PayloadLatin1(id, email, nowMs);
    var h := Base64.Encode(Stringify(HeaderFields));
    var p := Base64.Encode(Stringify(PayloadFields(id, email, nowMs)));
    Base64.EncodeText(Stringify(HeaderFields));
    Base64.EncodeText(Stringify(PayloadFields(id, email, nowMs)));
    SignLatin1(h, p, secret);
    Base64.EncodeText(h + "." + p + "." + secret);
    ThreeSegments(h, p, Base64.Encode(h + "." + p + "." + secret));
  }

  /** A created token has no `%`, so `decodeURIComponent` leaves it as it is. */
  lemma TokenPlain(id: string, email: string, nowMs: nat, secret: string)
    requires CreateUnsubscribeToken(id, email, nowMs, secret).Some?
    ensures '%' !in CreateUnsubscribeToken(id, email, nowMs, secret).value
  {
    CreatedToken(id, email, nowMs, secret);
    var h := Base64.Encode(Stringify(HeaderFields));
    var p := Base64.Encode(Stringify(PayloadFields(id, email, nowMs)));
    Base64.EncodeText(Stringify(HeaderFields));
    Base64.EncodeText(Stringify(PayloadFields(id, email, nowMs)));
    Base64.EncodeText(h + "." + p + "." + secret);
  }

  /** Reading a parsed object's claims. */
  lemma CheckObject(fields: seq<(string, Value)>, nowSec: int)
    ensures CheckClaims(Object(fields), nowSec) ==
              if Expired(Lookup(fields, "exp"), nowSec) || Lookup(fields, "purpose") != Str(Purpose) then None
              else Some(Claims(Lookup(fields, "sub"), Lookup(fields, "email")))
  {
  }

  /**
   * Any token whose third segment is the signature over its first two, and
   * whose second encodes a claims object, is judged on that object alone:
   * the header segment is not inspected, and the claims decide through `exp`
   * and `purpose`.
   */
  lemma VerifySigned(h: string, fields: seq<(string, Value)>, secret: string, nowMs: nat)
    requires Text.IsLatin1(h) && '.' !in h && Text.IsLatin1(secret)
    requires FieldsLatin1(fields) && forall i | 0 <= i < |fields| :: fields[i].1 != Undefined
    ensures var text := Stringify(fields);
            Text.IsLatin1(text) &&
            var p := Base64.Encode(text);
            Text.IsLatin1(h + "." + p + "." + secret) &&
            VerifyUnsubscribeToken(h + "." + p + "." + Base64.Encode(h + "." + p + "." + secret), nowMs, secret) ==
              CheckClaims(Object(fields), Seconds(nowMs))
  {
    var text := Stringify(fields);
    DefinedAll(fields);
    StringifyLatin1(fields);
    var p := Base64.Encode(text);
    Base64.EncodeText(text);
    SignLatin1(h, p, secret);
    var signed := h + "." + p + "." + secret;
    Base64.EncodeText(signed);
    ThreeSegments(h, p, Base64.Encode(signed));
    Base64.AtobEncode(text);
    ParseStringify(fields);
  }

  lemma PayloadLookups(id: string, email: string, nowMs: nat)
    ensures var fs := PayloadFields(id, email, nowMs);
            Lookup(fs, "exp") == Num(Seconds(nowMs) + Lifetime) && Lookup(fs, "purpose") == Str(Purpose) &&
            Lookup(fs, "sub") == Str(id) && Lookup(fs, "email") == Str(email)
  {
    var fs := PayloadFields(id, email, nowMs);
    var f3, f2, f1 := fs[..3], fs[..2], fs[..1];
    assert f3 == [("sub", Str(id)), ("email", Str(email)), ("purpose", Str(Purpose))];
    assert f3[..2] == f2 == [("sub", Str(id)), ("email", Str(email))];
    assert f2[..1] == f1 == [("sub", Str(id))];
    assert "exp" != "sub" && "exp" != "email" && "purpose" != "sub" && "purpose" != "email" && "email" != "sub" by {
      assert "exp"[0] == 'e' && "sub"[0] == 's' && "email"[0] == 'e' && "purpose"[0] == 'p';
      assert |"exp"| != |"email"|;
    }
    assert Lookup(fs, "email") == Lookup(f3, "email") == Lookup(f2, "email");
    assert Lookup(fs, "sub") == Lookup(f3, "sub") == Lookup(f2, "sub") == Lookup(f1, "sub");
  }

  /** The claims a created token carries, judged at `laterSec`. */
  lemma CheckPayload(id: string, email: string, nowMs: nat, laterSec: int)
    ensures CheckClaims(Object(PayloadFields(id, email, nowMs)), laterSec) ==
              if laterSec > Seconds(nowMs) + Lifetime then None else Some(Claims(Str(id), Str(email)))
  {
    CheckObject(PayloadFields(id, email, nowMs), laterSec);
    PayloadLookups(id, email, nowMs);
  }

  /** A created token is the encoded header and claims followed by their signature. */
  lemma CreatedToken(id: string, email: string, nowMs: nat, secret: string)
    requires CreateUnsubscribeToken(id, email, nowMs, secret).Some?
    ensures Text.IsLatin1(Stringify(HeaderFields)) && Text.IsLatin1(Stringify(PayloadFields(id, email, nowMs)))
    ensures var h := Base64.Encode(Stringify(HeaderFields));
            var p := Base64.Encode(Stringify(PayloadFields(id, email, nowMs)));
            Text.IsLatin1(h) && '.' !in h && Text.IsLatin1(h + "." + p + "." + secret) &&
            CreateUnsubscribeToken(id, email, nowMs, secret).value == h + "." + p + "." + Base64.Encode(h + "." + p + "." + secret)
  {
    CreateDefined(id, email, nowMs, secret);
    HeaderLatin1();
    PayloadLatin1(id, email, nowMs);
    var h := Base64.Encode(Stringify(HeaderFields));
    var p := Base64.Encode(Stringify(PayloadFields(id, email, nowMs)));
    Base64.EncodeText(Stringify(HeaderFields));
    Base64.EncodeText(Stringify(PayloadFields(id, email, nowMs)));
    SignLatin1(h, p, secret);
  }

  /** A created token is never empty: it holds the two dots between its segments. */
  lemma TokenNonEmpty(id: string, email: string, nowMs: nat, secret: string)
    requires CreateUnsubscribeToken(id, email, nowMs, secret).Some?
    ensures |CreateUnsubscribeToken(id, email, nowMs, secret).value| >= 2
  {
    CreatedToken(id, email, nowMs, secret);
  }

  /** The token judged at `laterMs` against the secret it was created with. */
  lemma VerifyCreated(id: string, email: string, nowMs: nat, secret: string, laterMs: nat)
    requires CreateUnsubscribeToken(id, email, nowMs, secret).Some?
    ensures VerifyUnsubscribeToken(CreateUnsubscribeToken(id, email, nowMs, secret).value, laterMs, secret) ==
              if Seconds(laterMs) > Seconds(nowMs) + Lifetime then None else Some(Claims(Str(id), Str(email)))
  {
    CreatedToken(id, email, nowMs, secret);
    var fs := PayloadFields(id, email, nowMs);
    var h := Base64.Encode(Stringify(HeaderFields));
    var t := CreateUnsubscribeToken(id, email, nowMs, secret).value;
    assert VerifyUnsubscribeToken(t, laterMs, secret) == CheckClaims(Object(fs), Seconds(laterMs)) by {
      CreateDefined(id, email, nowMs, secret);
      PayloadFieldsLatin1(id, email, nowMs);
      PayloadAllDefined(id, email, nowMs);
      VerifySigned(h, fs, secret, laterMs);
    }
    CheckPayload(id, email, nowMs, Seconds(laterMs));
  }

  /** Round trip: until thirty days after issue, inclusive of the last second, a token yields the subscriber it was made for. */
  lemma CreateThenVerify(id: string, email: string, nowMs: nat, secret: string, laterMs: nat)
    requires Text.IsLatin1(id) && Text.IsLatin1(email) && Text.IsLatin1(secret)
    requires Seconds(laterMs) <= Seconds(nowMs) + Lifetime
    ensures CreateUnsubscribeToken(id, email, nowMs, secret).Some?
    ensures VerifyUnsubscribeToken(CreateUnsubscribeToken(id, email, nowMs, secret).value, laterMs, secret) ==
              Some(Claims(Str(id), Str(email)))
  {
    CreateDefined(id, email, nowMs, secret);
    VerifyCreated(id, email, nowMs, secret, laterMs);
  }

  /** From the second after the thirtieth day a token is rejected. */
  lemma ExpiredRejected(id: string, email: string, nowMs: nat, secret: string, laterMs: nat)
    requires CreateUnsubscribeToken(id, email, nowMs, secret).Some?
    requires Seconds(laterMs) > Seconds(nowMs) + Lifetime
    ensures VerifyUnsubscribeToken(CreateUnsubscribeToken(id, email, nowMs, secret).value, laterMs, secret) == None
  {
    VerifyCreated(id, email, nowMs, secret, laterMs);
  }

  /**
   * Changing the header or the payload segment of a signed token, or checking
   * it against another secret, is detected.
   */
  lemma TamperedRejected(h: string, p: string, sig: string, secret: string, nowMs: nat, h2: string, p2: string, secret2: string)
    requires '.' !in h && '.' !in p && '.' !in sig && '.' !in h2 && '.' !in p2
    requires Sign(h, p, secret) == Some(sig)
    requires h2 != h || p2 != p || secret2 != secret
    ensures VerifyUnsubscribeToken(h2 + "." + p2 + "." + sig, nowMs, secret2) == None
  {
    ThreeSegments(h2, p2, sig);
    SignatureBinds(h, p, secret, h2, p2, secret2);
    BadSignature(h2 + "." + p2 + "." + sig, nowMs, secret2);
  }

  /** Two signatures agree only over the same header, payload and secret. */
  lemma SignatureBinds(h: string, p: string, secret: string, h2: string, p2: string, secret2: string)
    requires '.' !in h && '.' !in p && '.' !in h2 && '.' !in p2
    requires Sign(h, p, secret).Some?
    requires h2 != h || p2 != p || secret2 != secret
    ensures Sign(h2, p2, secret2) != Sign(h, p, secret)
  {
    if Sign(h2, p2, secret2) == Sign(h, p, secret) {
      var a, b := h + "." + p + "." + secret, h2 + "." + p2 + "." + secret2;
      Base64.BtoaInjective(a, b);
      assert a == h + "." + (p + "." + secret);
      assert b == h2 + "." + (p2 + "." + secret2);
      DotSplit(h, p + "." + secret, h2, p2 + "." + secret2);
      DotSplit(p, secret, p2, secret2);
    }
  }

  /** A token whose third segment is not the signature over its first two is rejected. */
  lemma BadSignature(token: string, nowMs: nat, secret: string)
    requires var parts := Text.Split(token, '.');
             |parts| >= 3 && Sign(parts[0], parts[1], secret) != Some(parts[2])
    ensures VerifyUnsubscribeToken(token, nowMs, secret) == None
  {
  }

  lemma DotSplit(p: string, s: string, p2: string, s2: string)
    requires '.' !in p && '.' !in p2
    requires p + "." + s == p2 + "." + s2
    ensures p == p2 && s == s2
  {
    Text.SplitNoSep(p, '.', s);
    Text.SplitNoSep(p2, '.', s2);
    assert p == ([p] + Text.Split(s, '.'))[0] == ([p2] + Text.Split(s2, '.'))[0] == p2;
    assert s == (p + "." + s)[|p| + 1..];
    assert s2 == (p2 + "." + s2)[|p2| + 1..];
  }

  /** A token with fewer than two dots has no signature segment and is rejected. */
  lemma TooFewSegments(token: string, nowMs: nat, secret: string)
    requires Text.Count(token, '.') < 2
    ensures VerifyUnsubscribeToken(token, nowMs, secret) == None
  {
    Text.SplitJoin(token, '.');
  }

  /** Anything after a third dot is ignored. */
  lemma ExtraSegmentsIgnored(token: string, extra: string, nowMs: nat, secret: string)
    requires Text.Count(token, '.') == 2
    ensures VerifyUnsubscribeToken(token + "." + extra, nowMs, secret) == VerifyUnsubscribeToken(token, nowMs, secret)
  {
    Text.SplitJoin(token, '.');
    Text.SplitAppend(token, '.', extra);
  }

  /** The signature gives the secret away: decoding it yields the two other segments and then the secret. */
  lemma SecretRecoverable(id: string, email: string, nowMs: nat, secret: string)
    requires CreateUnsubscribeToken(id, email, nowMs, secret).Some?
    ensures var parts := Text.Split(CreateUnsubscribeToken(id, email, nowMs, secret).value, '.');
            |parts| == 3 && Base64.Atob(parts[2]) == Some(parts[0] + "." + parts[1] + "." + secret)
  {
    TokenShape(id, email, nowMs, secret);
    CreatedToken(id, email, nowMs, secret);
    var h := Base64.Encode(Stringify(HeaderFields));
    var p := Base64.Encode(Stringify(PayloadFields(id, email, nowMs)));
    Base64.AtobEncode(h + "." + p + "." + secret);
  }

  /** A secret ending in `?` that makes the signature over `h` and `p` hold a `/`. */
  lemma SlashSecret(h: string, p: string) returns (secret: string)
    requires Text.IsLatin1(h) && Text.IsLatin1(p)
    ensures 0 < |secret| <= 3 && secret[|secret| - 1] == '?' && Text.IsLatin1(secret)
    ensures Text.IsLatin1(h + "." + p + "." + secret) && '/' in Base64.Encode(h + "." + p + "." + secret)
  {
    var prefix := h + "." + p + ".";
    var k := (3 - (|prefix| + 1) % 3) % 3;
    secret := seq(k, _ => 'a') + "?";
    assert Text.IsLatin1(secret);
    SignLatin1(h, p, secret);
    var signed := h + "." + p + "." + secret;
    assert |signed| == |prefix| + k + 1 && signed[|signed| - 1] == '?';
    FillGroup(|prefix|, k, |signed|);
    Base64.SlashAtGroupEnd(signed);
  }

  /** `k` filler characters and one more after `m` characters end a three-byte group. */
  lemma FillGroup(m: nat, k: nat, n: nat)
    requires k == (3 - (m + 1) % 3) % 3 && n == m + k + 1
    ensures n % 3 == 0 && n > 0 && k <= 2
  {
  }

  /**
   * A created token can hold a `/`: for every subscriber, a secret of at most
   * three ASCII characters ending in `?` puts that `?` at the end of a
   * three-byte group of the signed text, and it encodes as `/`.
   */
  lemma SlashInToken(id: string, email: string, nowMs: nat) returns (secret: string)
    requires Text.IsLatin1(id) && Text.IsLatin1(email)
    ensures 0 < |secret| <= 3 && secret[|secret| - 1] == '?' && Text.IsLatin1(secret)
    ensures CreateUnsubscribeToken(id, email, nowMs, secret).Some?
    ensures '/' in CreateUnsubscribeToken(id, email, nowMs, secret).value
  {
    HeaderLatin1();
    PayloadLatin1(id, email, nowMs);
    Base64.EncodeText(Stringify(HeaderFields));
    Base64.EncodeText(Stringify(PayloadFields(id, email, nowMs)));
    var h := Base64.Encode(Stringify(HeaderFields));
    var p := Base64.Encode(Stringify(PayloadFields(id, email, nowMs)));
    secret := SlashSecret(h, p);
    var sig := Base64.Encode(h + "." + p + "." + secret);
    assert CreateUnsubscribeToken(id, email, nowMs, secret) == Some(h + "." + p + "." + sig) by {
      CreateDefined(id, email, nowMs, secret);
      CreatedToken(id, email, nowMs, secret);
    }
    SlashInLast(h, p, sig);
  }

  lemma SlashInLast(h: string, p: string, sig: string)
    requires '/' in sig
    ensures '/' in h + "." + p + "." + sig
  {
    var j :| 0 <= j < |sig| && sig[j] == '/';
    var t := h + "." + p + "." + sig;
    assert t[|h| + |p| + 2 + j] == '/';
  }

  /** A claims object without `exp` never expires, and one whose purpose is not exactly `"unsubscribe"` is refused. */
  lemma ClaimRules(fields: seq<(string, Value)>, nowSec: int)
    ensures Lookup(fields, "exp") == Undefined && Lookup(fields, "purpose") == Str(Purpose) ==>
              CheckClaims(Object(fields), nowSec) == Some(Claims(Lookup(fields, "sub"), Lookup(fields, "email")))
    ensures Lookup(fields, "purpose") != Str(Purpose) ==> CheckClaims(Object(fields), nowSec) == None
    ensures (Lookup(fields, "exp").Num? && Lookup(fields, "exp").n < nowSec) ==> CheckClaims(Object(fields), nowSec) == None
  {
    CheckObject(fields, nowSec);
  }

  /** A payload that decodes to `null` makes reading `exp` throw, so the token is rejected. */
  lemma NullPayloadRejected(nowSec: int)
    ensures CheckClaims(Scalar(Null), nowSec) == None
  {
  }
}
