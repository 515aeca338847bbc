/**
 * The unsubscribe page (src/pages/UnsubscribePage.tsx): on mount it URL-decodes
 * the route's token, verifies it, and anonymises the subscriber row that
 * matches both the token's id and its email. Whether a database client is
 * configured, how the update ends (a `Reply`), the clock and the secret are
 * parameters.
 */
module UnsubscribePage {
  import opened Wrappers
  import Text
  import Uri
  import Json
  import Jwt
  import opened Subscribers

  datatype Status = Loading | Success | Error | Invalid

  const AnonymousName: string := "Unsubscribed User"

  /** `unsubscribed_${Date.now()}@deleted.local`. */
  function AnonymousEmail(nowMs: nat): string {
    "unsubscribed_" + Text.Decimal(nowMs) + "@deleted.local"
  }

  function AnonymisePatch(nowMs: nat): Patch {
    Patch(Some(false), Some(AnonymousEmail(nowMs)), Some(AnonymousName))
  }

  /** The `.eq('id', …).eq('email', …)` filters built from verified claims. */
  function ClaimFilters(c: Jwt.Claims): seq<Filter> {
    [(Id, Json.ToText(c.subscriberId)), (Email, Json.ToText(c.email))]
  }

  /**
   * The claims the page acts on: none for a missing token, a malformed
   * percent-escape, a token that fails verification, or a falsy email.
   */
  function Accepted(token: Option<string>, nowMs: nat, secret: string): Option<Jwt.Claims> {
    if token.None? || token.value == [] then None
    else match Uri.DecodeURIComponent(token.value)
      case None => None
      case Some(decoded) =>
        match Jwt.VerifyUnsubscribeToken(decoded, nowMs, secret)
        case None => None
        case Some(c) => if Json.Truthy(c.email) then Some(c) else None
  }

  /**
   * The status the effect ends in: an answered `error` is reported as an
   * error, but a rejected update lands in the same `catch` as a bad token.
   */
  function Outcome(accepted: Option<Jwt.Claims>, hasClient: bool, update: Reply): (s: Status)
    ensures s != Loading
    ensures s == Success <==> accepted.Some? && hasClient && update == Answered
    ensures s == Invalid <==> accepted.None? || (hasClient && update == Rejected)
  {
    if accepted.None? then Invalid
    else if !hasClient then Error
    else match update
      case Answered => Success
      case Errored => Error
      case Rejected => Invalid
  }

  class Page {
    var status: Status
    /** The email shown on success: the token's `email` claim. */
    var email: Json.Value

    constructor ()
      ensures status == Loading && email == Json.Str("")
    {
      status := Loading;
      email := Json.Str("");
    }

    /** The `handleUnsubscribe` effect. */
    method HandleUnsubscribe(token: Option<string>, nowMs: nat, secret: string, hasClient: bool, update: Reply, db: Table)
      modifies this, db
      ensures var c := Accepted(token, nowMs, secret);
              status == Outcome(c, hasClient, update) &&
              email == (if c.Some? then c.value.email else old(email)) &&
              db.rows == (if status == Success then Update(old(db.rows), AnonymisePatch(nowMs), ClaimFilters(c.value)) else old(db.rows))
    {
      if token.None? || token.value == [] {
        status := Invalid;
        return;
      }
      var decodedToken := Uri.DecodeURIComponent(token.value);
      if decodedToken.None? {
        status := Invalid;
        return;
      }
      var decoded := Jwt.VerifyUnsubscribeToken(decodedToken.value, nowMs, secret);
      if decoded.None? || !Json.Truthy(decoded.value.email) {
        status := Invalid;
        return;
      }
      email := decoded.value.email;
      if !hasClient {
        status := Error;
      } else if update == Rejected {
        status := Invalid;
      } else if update == Errored {
        status := Error;
      } else {
        db.UpdateWhere(AnonymisePatch(nowMs), ClaimFilters(decoded.value));
        status := Success;
      }
    }
  }

  // ---------------------------------------------------------------------
  // Properties

  /** A link holding a freshly created token, followed within thirty days, names the subscriber it was made for. */
  lemma CreatedLinkAccepted(id: string, email: string, nowMs: nat, secret: string, laterMs: nat)
    requires Text.IsLatin1(id) && Text.IsLatin1(email) && Text.IsLatin1(secret) && email != []
    requires Jwt.Seconds(laterMs) <= Jwt.Seconds(nowMs) + Jwt.Lifetime
    ensures Jwt.CreateUnsubscribeToken(id, email, nowMs, secret).Some?
    ensures Accepted(Some(Jwt.CreateUnsubscribeToken(id, email, nowMs, secret).value), laterMs, secret) ==
              Some(Jwt.Claims(Json.Str(id), Json.Str(email)))
  {
    Jwt.CreateDefined(id, email, nowMs, secret);
    var t := Jwt.CreateUnsubscribeToken(id, email, nowMs, secret).value;
    assert t != [] by {
      Jwt.TokenNonEmpty(id, email, nowMs, secret);
    }
    assert Uri.DecodeURIComponent(t) == Some(t) by {
      Jwt.TokenPlain(id, email, nowMs, secret);
      Uri.DecodePlain(t);
    }
    Jwt.CreateThenVerify(id, email, nowMs, secret, laterMs);
  }

  /** A link segment that decodes to a token is judged by that token's verification and its email. */
  lemma AcceptedDecoded(raw: string, token: string, nowMs: nat, secret: string, c: Jwt.Claims)
    requires raw != [] && Uri.DecodeURIComponent(raw) == Some(token)
    requires Jwt.VerifyUnsubscribeToken(token, nowMs, secret) == Some(c) && Json.Truthy(c.email)
    ensures Accepted(Some(raw), nowMs, secret) == Some(c)
  {
  }

  /** A malformed percent-escape in the link is reported as an invalid link and the table is left alone. */
  lemma MalformedLinkInvalid(rest: string, nowMs: nat, secret: string, hasClient: bool, update: Reply)
    requires |rest| < 2 || Uri.HexValue(rest[0]).None? || Uri.HexValue(rest[1]).None?
    ensures Accepted(Some("%" + rest), nowMs, secret) == None
    ensures Outcome(Accepted(Some("%" + rest), nowMs, secret), hasClient, update) == Invalid
  {
    Uri.MalformedEscape(rest);
  }

  /**
   * The anonymising update changes exactly the rows carrying both the claimed
   * id and the claimed email: they become inactive, with the placeholder email
   * and name; every other row is unchanged.
   */
  lemma AnonymiseOnlyMatching(rows: seq<Subscriber>, c: Jwt.Claims, nowMs: nat, i: nat)
    requires i < |rows|
    ensures var r := Update(rows, AnonymisePatch(nowMs), ClaimFilters(c))[i];
            if rows[i].id == Json.ToText(c.subscriberId) && rows[i].email == Json.ToText(c.email)
            then r == Subscriber(rows[i].id, AnonymousEmail(nowMs), AnonymousName, false)
            else r == rows[i]
  {
    var f := ClaimFilters(c);
    assert Matches(rows[i], f) <==> rows[i].id == f[0].1 && rows[i].email == f[1].1 by {
      assert f[0].0 == Id && f[1].0 == Email && |f| == 2;
    }
  }

  /**
   * Following the same link again later changes nothing: the row no longer
   * carries the token's email, unless that email is itself the placeholder
   * written the first time.
   */
  lemma AnonymiseTwice(rows: seq<Subscriber>, c: Jwt.Claims, t1: nat, t2: nat)
    requires Json.ToText(c.email) != AnonymousEmail(t1)
    ensures var once := Update(rows, AnonymisePatch(t1), ClaimFilters(c));
            Update(once, AnonymisePatch(t2), ClaimFilters(c)) == once
  {
    var once := Update(rows, AnonymisePatch(t1), ClaimFilters(c));
    forall i | 0 <= i < |rows|
      ensures Update(once, AnonymisePatch(t2), ClaimFilters(c))[i] == once[i]
    {
      AnonymiseOnlyMatching(rows, c, t1, i);
      AnonymiseOnlyMatching(once, c, t2, i);
    }
  }

  /** Every placeholder email ends in `@deleted.local`, which the subscriber list hides. */
  lemma AnonymousEmailHidden(nowMs: nat)
    ensures Text.Includes(AnonymousEmail(nowMs), "@deleted.local")
  {
    var e := AnonymousEmail(nowMs);
    var k := |e| - |"@deleted.local"|;
    assert e[k..k + |"@deleted.local"|] == "@deleted.local";
    Text.IncludesWitness(e, k, "@deleted.local");
  }
}
