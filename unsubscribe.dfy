/**
 * The two-step unsubscribe view (src/components/Unsubscribe.tsx): on mount it
 * verifies the route's token as it is (no URL-decoding) and looks up the row
 * with the token's id and email; confirming then sets `active` to false on
 * that row by id. Whether a client is configured, whether a query rejects or
 * reports an error, the clock and the secret are parameters.
 */
module Unsubscribe {
  import opened Wrappers
  import Json
  import Jwt
  import opened Subscribers

  const InvalidLink: string := "Invalid unsubscribe link"
  const Unavailable: string := "Service unavailable"
  const InvalidToken: string := "Invalid or expired unsubscribe link"
  const NotFound: string := "Subscriber not found"
  const VerifyFailed: string := "Failed to verify unsubscribe link"
  const UpdateFailed: string := "Failed to unsubscribe. Please try again."

  /** The row `.select('*').eq('id', …).eq('email', …).single()` returns for verified claims. */
  function Lookup(rows: seq<Subscriber>, c: Jwt.Claims): Option<Subscriber> {
    Single(Select(rows, [(Id, Json.ToText(c.subscriberId)), (Email, Json.ToText(c.email))]))
  }

  /** The error message and loaded row after mount. */
  function Verified(token: Option<string>, hasClient: bool, nowMs: nat, secret: string, rows: seq<Subscriber>, lookup: Reply): (string, Option<Subscriber>) {
    if token.None? || token.value == [] then (InvalidLink, None)
    else if !hasClient then (Unavailable, None)
    else match Jwt.VerifyUnsubscribeToken(token.value, nowMs, secret)
      case None => (InvalidToken, None)
      case Some(c) =>
        if lookup == Rejected then (VerifyFailed, None)
        else if lookup == Errored then (NotFound, None)
        else match Lookup(rows, c)
          case None => (NotFound, None)
          case Some(r) => ("", Some(r))
  }

  class View {
    var loading: bool
    var subscriber: Option<Subscriber>
    var unsubscribed: bool
    var error: string

    constructor ()
      ensures loading && subscriber.None? && !unsubscribed && error == ""
    {
      loading := true;
      subscriber := None;
      unsubscribed := false;
      error := "";
    }

    /** The mount effect and `verifyToken`. */
    method Mount(token: Option<string>, hasClient: bool, nowMs: nat, secret: string, db: Table, lookup: Reply)
      requires subscriber.None? && error == ""
      modifies this
      ensures var (msg, row) := Verified(token, hasClient, nowMs, secret, db.rows, lookup);
              error == msg && subscriber == row && !loading && unsubscribed == old(unsubscribed)
    {
      if token.None? || token.value == [] {
        error := InvalidLink;
        loading := false;
        return;
      }
      if !hasClient {
        error := Unavailable;
        loading := false;
        return;
      }
      var tokenData := Jwt.VerifyUnsubscribeToken(token.value, nowMs, secret);
      if tokenData.None? {
        error := InvalidToken;
        loading := false;
        return;
      }
      if lookup == Rejected {
        error := VerifyFailed;
      } else if lookup == Errored {
        error := NotFound;
      } else {
        var data := Lookup(db.rows, tokenData.value);
        if data.None? {
          error := NotFound;
        } else {
          subscriber := data;
        }
      }
      loading := false;
    }

    /** `handleUnsubscribe`: deactivates the loaded row by id; a no-op without a client or a loaded row. */
    method HandleUnsubscribe(hasClient: bool, update: Reply, db: Table)
      modifies this, db
      ensures !hasClient || subscriber.None? ==>
                db.rows == old(db.rows) && loading == old(loading) && error == old(error) && unsubscribed == old(unsubscribed)
      ensures hasClient && subscriber.Some? ==>
                !loading &&
                db.rows == (if update == Answered then Update(old(db.rows), Patch(Some(false), None, None), [(Id, subscriber.value.id)]) else old(db.rows)) &&
                unsubscribed == (update == Answered || old(unsubscribed)) &&
                error == (if update == Answered then old(error) else UpdateFailed)
      ensures subscriber == old(subscriber)
    {
      if !hasClient || subscriber.None? {
        return;
      }
      loading := true;
      if update == Answered {
        db.UpdateWhere(Patch(Some(false), None, None), [(Id, subscriber.value.id)]);
        unsubscribed := true;
      } else {
        error := UpdateFailed;
      }
      loading := false;
    }
  }

  // ---------------------------------------------------------------------
  // Properties

  /** A loaded subscriber is a row of the table carrying the token's id and email. */
  lemma LoadedRowMatches(token: Option<string>, hasClient: bool, nowMs: nat, secret: string, rows: seq<Subscriber>, lookup: Reply)
    requires Verified(token, hasClient, nowMs, secret, rows, lookup).1.Some?
    ensures var r := Verified(token, hasClient, nowMs, secret, rows, lookup).1.value;
            var c := Jwt.VerifyUnsubscribeToken(token.value, nowMs, secret);
            token.Some? && hasClient && lookup == Answered && c.Some? && r in rows &&
            r.id == Json.ToText(c.value.subscriberId) && r.email == Json.ToText(c.value.email)
  {
    var c := Jwt.VerifyUnsubscribeToken(token.value, nowMs, secret).value;
    var f := [(Id, Json.ToText(c.subscriberId)), (Email, Json.ToText(c.email))];
    SingleMatches(rows, f);
    var r := Single(Select(rows, f)).value;
    assert Matches(r, f);
    assert f[0] == (Id, Json.ToText(c.subscriberId)) && f[1] == (Email, Json.ToText(c.email));
  }

  /** Deactivating keeps the row's id, email and name and touches no other row; doing it again changes nothing. */
  lemma DeactivateOnlyThatRow(rows: seq<Subscriber>, id: string)
    ensures var after := Update(rows, Patch(Some(false), None, None), [(Id, id)]);
            |after| == |rows| &&
            (forall i | 0 <= i < |rows| ::
               after[i] == if rows[i].id == id then rows[i].(active := false) else rows[i]) &&
            Update(after, Patch(Some(false), None, None), [(Id, id)]) == after
  {
    var p := Patch(Some(false), None, None);
    var after := Update(rows, p, [(Id, id)]);
    forall i | 0 <= i < |rows|
      ensures after[i] == if rows[i].id == id then rows[i].(active := false) else rows[i]
    {
      var f: seq<Filter> := [(Id, id)];
      assert Matches(rows[i], f) <==> rows[i].id == id by {
        assert |f| == 1 && f[0] == (Id, id);
      }
    }
    UpdateByIdIdempotent(rows, p, id);
  }

  /** The six failure messages are distinct from each other. */
  lemma MessagesDistinct()
    ensures |{InvalidLink, Unavailable, InvalidToken, NotFound, VerifyFailed, UpdateFailed}| == 6
  {
    assert InvalidLink[0] == 'I' && InvalidToken[0] == 'I' && |InvalidLink| != |InvalidToken|;
    assert Unavailable[0] == 'S' && NotFound[0] == 'S' && |Unavailable| != |NotFound|;
    assert VerifyFailed[0] == 'F' && UpdateFailed[0] == 'F' && |VerifyFailed| != |UpdateFailed|;
  }
}
