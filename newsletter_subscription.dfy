/**
 * The inline newsletter form (src/components/NewsletterSubscription.tsx): the
 * same subscribe step as the popup, after which the form clears its fields.
 */
module NewsletterSubscription {
  import opened Wrappers
  import opened Text
  import opened Subscribers
  import opened SubscribeFlow
  import opened Toasts

  /** The toast each outcome of the subscribe step shows. */
  function Message(o: Outcome): (t: Toast)
    ensures t.kind == Error <==> o == Failed
    ensures t.kind == Info <==> o == AlreadySubscribed
  {
    match o
    case AlreadySubscribed => Toast(Info, "You are already subscribed!")
    case Reactivated => Toast(Success, "Welcome back! Subscription reactivated.")
    case Inserted => Toast(Success, "Successfully subscribed to newsletter!")
    case Failed => Toast(Error, "Failed to subscribe. Please try again.")
  }

  class Form {
    var email: string
    var name: string
    var loading: bool
    var toasts: seq<Toast>

    constructor ()
      ensures email == "" && name == "" && !loading && toasts == []
    {
      email := "";
      name := "";
      loading := false;
      toasts := [];
    }

    /** `handleSubscribe`; `freshId` is the id the database would give an inserted row. */
    method HandleSubscribe(hasClient: bool, lookup: Reply, write: Reply, freshId: string, db: Table)
      requires !HasId(db.rows, freshId)
      modifies this, db
      ensures var r := Rejection(old(email), old(name), hasClient);
              r.Some? ==>
                toasts == old(toasts) + [r.value] && db.rows == old(db.rows) && loading == old(loading) &&
                email == old(email) && name == old(name)
      ensures Rejection(old(email), old(name), hasClient).None? ==>
                var s := Step(old(db.rows), old(Trim(email)), old(Trim(name)), lookup, write, freshId);
                db.rows == s.1 && toasts == old(toasts) + [Message(s.0)] && !loading &&
                (if s.0 == Failed then email == old(email) && name == old(name) else email == "" && name == "")
    {
      var rejected := Rejection(email, name, hasClient);
      if rejected.Some? {
        toasts := toasts + [rejected.value];
        return;
      }
      loading := true;
      var e, n := Trim(email), Trim(name);
      var outcome := Run(db, e, n, lookup, write, freshId);
      toasts := toasts + [Message(outcome)];
      if outcome != Failed {
        email := "";
        name := "";
      }
      loading := false;
    }
  }
}
