/**
 * The database steps both subscribe forms take (src/components/SubscriptionPopup.tsx
 * and src/components/NewsletterSubscription.tsx run the same sequence): look
 * up the trimmed email with `.single()`; an active row means "already
 * subscribed"; an inactive one is reactivated by id with the new name, and
 * the update's own error is not looked at; otherwise a new active row is
 * inserted, and an insert error fails the whole step.
 */
module SubscribeFlow {
  import opened Wrappers
  import opened Text
  import opened Subscribers
  import opened Toasts

  datatype Outcome = AlreadySubscribed | Reactivated | Inserted | Failed

  const FillAll: Toast := Toast(Error, "Please fill in all fields")
  const Unavailable: Toast := Toast(Error, "Service unavailable")

  /** The error toast that stops a submission before any query: a blank field, or no database client. */
  function Rejection(email: string, name: string, hasClient: bool): (t: Option<Toast>)
    ensures t.None? <==> !IsBlank(email) && !IsBlank(name) && hasClient
    ensures t.Some? ==> t.value == if IsBlank(email) || IsBlank(name) then FillAll else Unavailable
  {
    if IsBlank(email) || IsBlank(name) then Some(FillAll)
    else if !hasClient then Some(Unavailable)
    else None
  }

  /** `.select('id, active').eq('email', email).single()`. */
  function Found(rows: seq<Subscriber>, email: string): Option<Subscriber> {
    Single(Select(rows, [(Email, email)]))
  }

  /**
   * The `data` the lookup hands back: its error is never looked at, so an
   * answered error reads as `null`, just like no matching row.
   */
  function Existing(rows: seq<Subscriber>, email: string, lookup: Reply): (r: Option<Subscriber>)
    ensures lookup != Answered ==> r.None?
    ensures lookup == Answered ==> r == Found(rows, email)
  {
    if lookup == Answered then Found(rows, email) else None
  }

  function ReactivatePatch(name: string): Patch {
    Patch(Some(true), None, Some(name))
  }

  /**
   * The outcome and the table afterwards, for an already trimmed email and
   * name. `lookup` is how the lookup ended (a rejection fails the step, an
   * answered error is taken for "no row"); `write` is how the update or the
   * insert ended; `freshId` is the id the database gives an inserted row.
   */
  function Step(rows: seq<Subscriber>, email: string, name: string, lookup: Reply, write: Reply, freshId: string): (Outcome, seq<Subscriber>) {
    if lookup == Rejected then (Failed, rows)
    else match Existing(rows, email, lookup)
      case Some(r) =>
        if r.active then (AlreadySubscribed, rows)
        else if write == Rejected then (Failed, rows)
        else (Reactivated, if write == Answered then Update(rows, ReactivatePatch(name), [(Id, r.id)]) else rows)
      case None =>
        if write == Answered then (Inserted, rows + [Subscriber(freshId, email, name, true)])
        else (Failed, rows)
  }

  /** Runs the step against the table: the lookup, then the update or the insert. */
  method Run(db: Table, email: string, name: string, lookup: Reply, write: Reply, freshId: string) returns (outcome: Outcome)
    requires !HasId(db.rows, freshId)
    modifies db
    ensures outcome == Step(old(db.rows), email, name, lookup, write, freshId).0
    ensures db.rows == Step(old(db.rows), email, name, lookup, write, freshId).1
  {
    if lookup == Rejected {
      return Failed;
    }
    var existing := Existing(db.rows, email, lookup);
    if existing.Some? {
      if existing.value.active {
        outcome := AlreadySubscribed;
      } else if write == Rejected {
        outcome := Failed;
      } else {
        if write == Answered {
          db.UpdateWhere(ReactivatePatch(name), [(Id, existing.value.id)]);
        }
        outcome := Reactivated;
      }
    } else if write == Answered {
      db.Insert(freshId, email, name, true);
      outcome := Inserted;
    } else {
      outcome := Failed;
    }
  }

  // ---------------------------------------------------------------------
  // Properties

  /** With unique ids and a fresh id for inserts, ids stay unique. */
  lemma StepKeepsUniqueIds(rows: seq<Subscriber>, email: string, name: string, lookup: Reply, write: Reply, freshId: string)
    requires UniqueIds(rows) && !HasId(rows, freshId)
    ensures UniqueIds(Step(rows, email, name, lookup, write, freshId).1)
  {
    var (o, after) := Step(rows, email, name, lookup, write, freshId);
    if o == Reactivated && write == Answered {
      UpdateKeepsUniqueIds(rows, ReactivatePatch(name), [(Id, Found(rows, email).value.id)]);
    } else if o == Inserted {
      InsertKeepsUniqueIds(rows, Subscriber(freshId, email, name, true));
    }
  }

  /**
   * What each outcome means for the table: a failure or "already subscribed"
   * leaves it alone; a reactivation keeps the length and, when the update
   * answered, leaves every row with another email unchanged; an insert
   * appends one active row with the email and name.
   */
  lemma StepEffect(rows: seq<Subscriber>, email: string, name: string, lookup: Reply, write: Reply, freshId: string)
    requires UniqueIds(rows)
    ensures var (o, after) := Step(rows, email, name, lookup, write, freshId);
            (o == Failed || o == AlreadySubscribed ==> after == rows) &&
            (o == Reactivated ==>
               |after| == |rows| && (forall i | 0 <= i < |rows| && rows[i].email != email :: after[i] == rows[i])) &&
            (o == Inserted ==> after == rows + [Subscriber(freshId, email, name, true)]) &&
            (o == Failed <==> lookup == Rejected ||
                              (Existing(rows, email, lookup).Some? && !Existing(rows, email, lookup).value.active && write == Rejected) ||
                              (Existing(rows, email, lookup).None? && write != Answered))
  {
    var (o, after) := Step(rows, email, name, lookup, write, freshId);
    if o == Reactivated && write == Answered {
      var f: seq<Filter> := [(Email, email)];
      var k := SingleAt(rows, f);
      var id := rows[k].id;
      forall i | 0 <= i < |rows| && rows[i].email != email
        ensures after[i] == rows[i]
      {
        assert i != k by {
          assert |f| == 1 && f[0] == (Email, email);
        }
        var g: seq<Filter> := [(Id, id)];
        assert !Matches(rows[i], g) by {
          assert |g| == 1 && g[0] == (Id, id);
        }
      }
    }
  }

  /**
   * Subscribing succeeds into an active row: after "already subscribed", an
   * answered reactivation or an insert, the email's lookup finds exactly one
   * row, and it is active.
   */
  lemma StepSubscribes(rows: seq<Subscriber>, email: string, name: string, write: Reply, freshId: string)
    requires UniqueIds(rows) && !HasId(rows, freshId)
    requires write == Answered
    requires Found(rows, email).Some? || forall i | 0 <= i < |rows| :: rows[i].email != email
    ensures var (o, after) := Step(rows, email, name, Answered, write, freshId);
            o != Failed && Found(after, email).Some? && Found(after, email).value.active &&
            Found(after, email).value.email == email
  {
    var (o, after) := Step(rows, email, name, Answered, write, freshId);
    var f: seq<Filter> := [(Email, email)];
    assert |f| == 1 && f[0] == (Email, email);
    match Found(rows, email)
    case Some(r) =>
      var k := SingleAt(rows, f);
      if !r.active {
        var g: seq<Filter> := [(Id, r.id)];
        assert |g| == 1 && g[0] == (Id, r.id);
        forall i | 0 <= i < |rows|
          ensures Matches(after[i], f) <==> Matches(rows[i], f)
        {
          UpdateOnlyMatching(rows, ReactivatePatch(name), g, i);
        }
        assert after[k] == Apply(rows[k], ReactivatePatch(name));
        SelectOneAt(after, f, k);
      }
    case None =>
      var n := |rows|;
      forall i | 0 <= i < |after| && i != n
        ensures !Matches(after[i], f)
      {
        assert after[i] == rows[i];
      }
      SelectOneAt(after, f, n);
  }

  /**
   * Submitting the same email again after a successful subscribe reports
   * "already subscribed" and changes nothing, whatever the second name.
   */
  lemma SubscribeTwice(rows: seq<Subscriber>, email: string, name: string, freshId: string, name2: string, write2: Reply, freshId2: string)
    requires UniqueIds(rows) && !HasId(rows, freshId)
    requires Found(rows, email).Some? || forall i | 0 <= i < |rows| :: rows[i].email != email
    ensures var after := Step(rows, email, name, Answered, Answered, freshId).1;
            Step(after, email, name2, Answered, write2, freshId2) == (AlreadySubscribed, after)
  {
    StepSubscribes(rows, email, name, Answered, freshId);
  }

  /**
   * A reactivation whose update answers with an error still reports
   * "reactivated", though the row stays inactive.
   */
  lemma ReactivationErrorIgnored(rows: seq<Subscriber>, email: string, name: string, freshId: string)
    requires Found(rows, email).Some? && !Found(rows, email).value.active
    ensures Step(rows, email, name, Answered, Errored, freshId) == (Reactivated, rows)
    ensures !Found(Step(rows, email, name, Answered, Errored, freshId).1, email).value.active
  {
  }

  /**
   * A lookup that answers with an error is taken for "no row": the step
   * inserts even when the email is already subscribed, and the table then
   * holds two rows for it, so a later `.single()` lookup finds none.
   */
  lemma ErroredLookupInserts(rows: seq<Subscriber>, email: string, name: string, freshId: string)
    ensures Step(rows, email, name, Errored, Answered, freshId) == (Inserted, rows + [Subscriber(freshId, email, name, true)])
    ensures Found(rows, email).Some? ==> Found(Step(rows, email, name, Errored, Answered, freshId).1, email).None?
  {
    var row := Subscriber(freshId, email, name, true);
    var f: seq<Filter> := [(Email, email)];
    SelectAppendRow(rows, row, f);
    assert Matches(row, f) by {
      assert |f| == 1 && f[0] == (Email, email);
    }
  }
}
