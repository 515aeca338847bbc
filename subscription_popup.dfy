/**
 * The subscription popup (src/components/SubscriptionPopup.tsx): a name and
 * email form that runs the shared subscribe step, then records in
 * `localStorage` that the visitor subscribed and asks its parent to close it;
 * the close button records a dismissal in `sessionStorage` instead. The
 * parent's `onClose` callback is counted, not modelled.
 */
module SubscriptionPopup {
  import opened Wrappers
  import opened Text
  import opened Subscribers
  import opened SubscribeFlow
  import opened Toasts
  import Browser

  const SubscribedKey: string := "newsletter_subscribed"
  const DismissedKey: string := "popup_dismissed"

  /** The toast each outcome of the subscribe step shows. */
  function Message(o: Outcome): (t: Toast)
    ensures t.kind == Error <==> o == Failed
    ensures t.kind == Info <==> o == AlreadySubscribed
  {
    match o
    case AlreadySubscribed => Toast(Info, "You are already subscribed!")
    case Reactivated => Toast(Success, "Welcome back! Subscription reactivated.")
    case Inserted => Toast(Success, "Successfully subscribed!")
    case Failed => Toast(Error, "Failed to subscribe. Please try again.")
  }

  class Popup {
    var email: string
    var name: string
    var loading: bool
    var toasts: seq<Toast>
    /** How many times `onClose` was called. */
    var closeRequests: nat

    constructor ()
      ensures email == "" && name == "" && !loading && toasts == [] && closeRequests == 0
    {
      email := "";
      name := "";
      loading := false;
      toasts := [];
      closeRequests := 0;
    }

    /** `handleSubscribe`; `freshId` is the id the database would give an inserted row. */
    method HandleSubscribe(hasClient: bool, lookup: Reply, write: Reply, freshId: string, db: Table, local: Browser.Storage)
      requires !HasId(db.rows, freshId)
      modifies this, db, local
      ensures email == old(email) && name == old(name)
      ensures var r := Rejection(email, name, hasClient);
              r.Some? ==>
                toasts == old(toasts) + [r.value] && db.rows == old(db.rows) && local.items == old(local.items) &&
                loading == old(loading) && closeRequests == old(closeRequests)
      ensures Rejection(email, name, hasClient).None? ==>
                var s := Step(old(db.rows), Trim(email), Trim(name), lookup, write, freshId);
                db.rows == s.1 && toasts == old(toasts) + [Message(s.0)] && !loading &&
                local.items == (if s.0 == Failed then old(local.items) else old(local.items)[SubscribedKey := "true"]) &&
                closeRequests == old(closeRequests) + (if s.0 == Failed then 0 else 1)
    {
      var rejected := Rejection(email, name, hasClient);
      if rejected.Some? {
        toasts := toasts + [rejected.value];
        return;
      }
      loading := true;
      var e, n := Trim(email), Trim(name);
      var outcome := Run(db, e, n, lookup, write, freshId);
      toasts := toasts + [Message(outcome)];
      if outcome != Failed {
        local.SetItem(SubscribedKey, "true");
        closeRequests := closeRequests + 1;
      }
      loading := false;
    }

    /** `handleClose`: remembers the dismissal for this session and closes. */
    method HandleClose(session: Browser.Storage)
      modifies this, session
      ensures session.items == old(session.items)[DismissedKey := "true"]
      ensures closeRequests == old(closeRequests) + 1
      ensures email == old(email) && name == old(name) && loading == old(loading) && toasts == old(toasts)
    {
      session.SetItem(DismissedKey, "true");
      closeRequests := closeRequests + 1;
    }
  }
}
