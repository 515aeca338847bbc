/**
 * The admin's subscriber list (src/components/SubscribersManager.tsx): a
 * search and status filter that also hides anonymised rows, the selection
 * checkboxes, the CSV export, the status toggle, deletion and the bulk-email
 * form. The subscriber list is the component's prop; `onRefresh` is counted.
 */
module SubscribersManager {
  import opened Wrappers
  import opened Text
  import opened Subscribers
  import opened Toasts
  import Lists
  import UnsubscribePage

  datatype Status = All | ActiveOnly | InactiveOnly

  /** The domain `UnsubscribePage` gives anonymised rows. */
  const DeletedDomain: string := "@deleted.local"

  /** Case-insensitive substring search on name or email. */
  predicate MatchesSearch(s: Subscriber, query: string) {
    Includes(Lower(s.name), Lower(query)) || Includes(Lower(s.email), Lower(query))
  }

  predicate MatchesStatus(s: Subscriber, status: Status) {
    status == All || (status == ActiveOnly && s.active) || (status == InactiveOnly && !s.active)
  }

  /** The filter callback of `filteredSubscribers`. */
  predicate Listed(s: Subscriber, query: string, status: Status) {
    if Includes(s.email, DeletedDomain) then false
    else MatchesSearch(s, query) && MatchesStatus(s, status)
  }

  /** `filteredSubscribers`. */
  function Visible(subscribers: seq<Subscriber>, query: string, status: Status): seq<Subscriber> {
    Lists.Filter((s: Subscriber) => Listed(s, query, status), subscribers)
  }

  function Ids(rows: seq<Subscriber>): (ids: seq<string>)
    ensures |ids| == |rows| && forall i | 0 <= i < |rows| :: ids[i] == rows[i].id
  {
    seq(|rows|, i requires 0 <= i < |rows| => rows[i].id)
  }

  predicate IsActive(s: Subscriber) {
    s.active
  }

  predicate IsInactive(s: Subscriber) {
    !s.active
  }

  /** The "Active" and "Inactive" cards count over all subscribers, not the filtered list. */
  function ActiveCount(subscribers: seq<Subscriber>): nat {
    |Lists.Filter(IsActive, subscribers)|
  }

  function InactiveCount(subscribers: seq<Subscriber>): nat {
    |Lists.Filter(IsInactive, subscribers)|
  }

  // ---------------------------------------------------------------------
  // CSV export

  const Header: seq<string> := ["Name", "Email", "Status", "Subscribed Date"]

  /** One exported row; `date` is `toLocaleDateString` of the subscription date. */
  function Fields(s: Subscriber, date: string): seq<string> {
    [s.name, s.email, if s.active then "Active" else "Inactive", date]
  }

  /** Fields joined by `,`, rows by a newline, nothing quoted. */
  function Csv(rows: seq<Subscriber>, date: Subscriber -> string): string {
    Join([Join(Header, ",")] + seq(|rows|, i requires 0 <= i < |rows| => Join(Fields(rows[i], date(rows[i])), ",")), "\n")
  }

  /** No field of the row holds the CSV's separators. */
  predicate Plain(s: Subscriber, date: string) {
    ',' !in s.name && ',' !in s.email && ',' !in date && '\n' !in s.name && '\n' !in s.email && '\n' !in date
  }

  class Manager {
    var query: string
    var status: Status
    var selected: seq<string>
    var showEmailModal: bool
    var emailSubject: string
    var emailContent: string
    var sending: bool
    var toasts: seq<Toast>
    var refreshes: nat

    constructor ()
      ensures query == "" && status == All && selected == [] && !showEmailModal
      ensures emailSubject == "" && emailContent == "" && !sending && toasts == [] && refreshes == 0
    {
      query := "";
      status := All;
      selected := [];
      showEmailModal := false;
      emailSubject := "";
      emailContent := "";
      sending := false;
      toasts := [];
      refreshes := 0;
    }

    /** `selectAll`: clears a selection as long as the list, otherwise selects every listed id. */
    method SelectAll(subscribers: seq<Subscriber>)
      modifies this
      ensures var shown := Visible(subscribers, old(query), old(status));
              selected == if |old(selected)| == |shown| then [] else Ids(shown)
      ensures query == old(query) && status == old(status) && toasts == old(toasts)
    {
      var shown := Visible(subscribers, query, status);
      if |selected| == |shown| {
        selected := [];
      } else {
        selected := Ids(shown);
      }
    }

    /** A row's checkbox: checking appends the id, unchecking removes every copy of it. */
    method SetChecked(id: string, checked: bool)
      modifies this
      ensures checked ==> selected == old(selected) + [id]
      ensures !checked ==> id !in selected && selected == Lists.Filter((x: string) => x != id, old(selected))
      ensures query == old(query) && status == old(status) && toasts == old(toasts)
    {
      if checked {
        selected := selected + [id];
      } else {
        selected := Lists.Filter((x: string) => x != id, selected);
        Lists.FilterSpec((x: string) => x != id, old(selected));
      }
    }

    /** `toggleSubscriberStatus`: flips `active` on the row with that id. */
    method ToggleSubscriberStatus(id: string, currentStatus: bool, hasClient: bool, reply: Reply, db: Table)
      modifies this, db
      ensures !hasClient ==> db.rows == old(db.rows) && toasts == old(toasts) && refreshes == old(refreshes)
      ensures hasClient && reply == Answered ==>
                db.rows == Update(old(db.rows), Patch(Some(!currentStatus), None, None), [(Id, id)]) &&
                toasts == old(toasts) + [Toast(Success, if currentStatus then "Subscriber deactivated" else "Subscriber activated")] &&
                refreshes == old(refreshes) + 1
      ensures hasClient && reply != Answered ==>
                db.rows == old(db.rows) && toasts == old(toasts) + [Toast(Error, "Failed to update subscriber")] &&
                refreshes == old(refreshes)
      ensures selected == old(selected) && query == old(query) && status == old(status)
    {
      if !hasClient {
        return;
      }
      if reply == Answered {
        db.UpdateWhere(Patch(Some(!currentStatus), None, None), [(Id, id)]);
        toasts := toasts + [Toast(Success, if currentStatus then "Subscriber deactivated" else "Subscriber activated")];
        refreshes := refreshes + 1;
      } else {
        toasts := toasts + [Toast(Error, "Failed to update subscriber")];
      }
    }

    /** `deleteSubscriber`, after the confirmation dialog. */
    method DeleteSubscriber(id: string, hasClient: bool, confirmed: bool, reply: Reply, db: Table)
      modifies this, db
      ensures !hasClient || !confirmed ==> db.rows == old(db.rows) && toasts == old(toasts) && refreshes == old(refreshes)
      ensures hasClient && confirmed && reply == Answered ==>
                db.rows == Delete(old(db.rows), [(Id, id)]) &&
                toasts == old(toasts) + [Toast(Success, "Subscriber deleted")] && refreshes == old(refreshes) + 1
      ensures hasClient && confirmed && reply != Answered ==>
                db.rows == old(db.rows) && toasts == old(toasts) + [Toast(Error, "Failed to delete subscriber")] &&
                refreshes == old(refreshes)
      ensures selected == old(selected) && query == old(query) && status == old(status)
    {
      if !hasClient || !confirmed {
        return;
      }
      if reply == Answered {
        db.DeleteWhere([(Id, id)]);
        toasts := toasts + [Toast(Success, "Subscriber deleted")];
        refreshes := refreshes + 1;
      } else {
        toasts := toasts + [Toast(Error, "Failed to delete subscriber")];
      }
    }

    /** `exportSubscribers`: the CSV of the listed rows; the download itself is left out. */
    method ExportSubscribers(subscribers: seq<Subscriber>, date: Subscriber -> string) returns (csv: string)
      modifies this
      ensures csv == Csv(Visible(subscribers, query, status), date)
      ensures toasts == old(toasts) + [Toast(Success, "Subscribers exported successfully")]
      ensures query == old(query) && status == old(status) && selected == old(selected)
    {
      csv := Csv(Visible(subscribers, query, status), date);
      toasts := toasts + [Toast(Success, "Subscribers exported successfully")];
    }

    /** `sendBulkEmail`: only a two-second wait stands in for sending. */
    method SendBulkEmail()
      modifies this
      ensures IsBlank(old(emailSubject)) || IsBlank(old(emailContent)) ==>
                toasts == old(toasts) + [Toast(Error, "Please fill in subject and content")] &&
                emailSubject == old(emailSubject) && emailContent == old(emailContent) &&
                selected == old(selected) && showEmailModal == old(showEmailModal)
      ensures !IsBlank(old(emailSubject)) && !IsBlank(old(emailContent)) ==>
                toasts == old(toasts) + [Toast(Success, "Email sent to " + Decimal(|old(selected)|) + " subscribers")] &&
                emailSubject == "" && emailContent == "" && selected == [] && !showEmailModal
      ensures sending == old(sending) && query == old(query) && status == old(status)
    {
      if IsBlank(emailSubject) || IsBlank(emailContent) {
        toasts := toasts + [Toast(Error, "Please fill in subject and content")];
        return;
      }
      toasts := toasts + [Toast(Success, "Email sent to " + Decimal(|selected|) + " subscribers")];
      showEmailModal := false;
      emailSubject := "";
      emailContent := "";
      selected := [];
    }
  }

  // ---------------------------------------------------------------------
  // Properties

  /**
   * The list is an order-preserving sublist of the subscribers, holding
   * exactly the rows that are not anonymised and match the search and the
   * status filter.
   */
  lemma VisibleSpec(subscribers: seq<Subscriber>, query: string, status: Status)
    ensures Lists.IsSublist(Visible(subscribers, query, status), subscribers)
    ensures forall s | s in Visible(subscribers, query, status) ::
              s in subscribers && !Includes(s.email, DeletedDomain) && MatchesSearch(s, query) && MatchesStatus(s, status)
    ensures forall s | s in subscribers && !Includes(s.email, DeletedDomain) && MatchesSearch(s, query) && MatchesStatus(s, status) ::
              s in Visible(subscribers, query, status)
  {
    Lists.FilterSpec((s: Subscriber) => Listed(s, query, status), subscribers);
  }

  /** What each status keeps: `active` only active rows, `inactive` only inactive ones, `all` both. */
  lemma StatusFilter(subscribers: seq<Subscriber>, query: string, status: Status)
    ensures status == ActiveOnly ==> forall s | s in Visible(subscribers, query, status) :: s.active
    ensures status == InactiveOnly ==> forall s | s in Visible(subscribers, query, status) :: !s.active
    ensures status == All ==> forall s | s in subscribers && !Includes(s.email, DeletedDomain) && MatchesSearch(s, query) ::
                                s in Visible(subscribers, query, status)
  {
    VisibleSpec(subscribers, query, status);
  }

  /** Under `all`, the list splits into its active and its inactive rows. */
  lemma {:induction false} VisibleCounts(subscribers: seq<Subscriber>, query: string)
    ensures |Visible(subscribers, query, All)| ==
            |Visible(subscribers, query, ActiveOnly)| + |Visible(subscribers, query, InactiveOnly)|
    decreases |subscribers|
  {
    if subscribers != [] {
      VisibleCounts(subscribers[1..], query);
    }
  }

  /** An empty search matches every row, and the search ignores the case of ASCII letters. */
  lemma SearchCaseInsensitive(s: Subscriber, query: string)
    ensures MatchesSearch(s, "")
    ensures MatchesSearch(s, query) == MatchesSearch(s, Lower(query))
    ensures MatchesSearch(s, query) == MatchesSearch(s.(name := Lower(s.name), email := Lower(s.email)), query)
  {
    IncludesEmpty(Lower(s.name));
    LowerIdempotent(query);
    LowerIdempotent(s.name);
    LowerIdempotent(s.email);
  }

  /** Rows anonymised by the unsubscribe page never appear, whatever the search and status. */
  lemma AnonymisedHidden(subscribers: seq<Subscriber>, query: string, status: Status, s: Subscriber, nowMs: nat)
    requires s.email == UnsubscribePage.AnonymousEmail(nowMs)
    ensures s !in Visible(subscribers, query, status)
  {
    UnsubscribePage.AnonymousEmailHidden(nowMs);
    VisibleSpec(subscribers, query, status);
  }

  /** The two status cards add up to the total count. */
  lemma CountsAddUp(subscribers: seq<Subscriber>)
    ensures ActiveCount(subscribers) + InactiveCount(subscribers) == |subscribers|
  {
    Lists.FilterSpec(IsActive, subscribers);
    Lists.FilterSpec(IsInactive, subscribers);
    Lists.CountSplit(IsActive, IsInactive, subscribers);
  }

  /** Pressing "select all" twice from a partial selection selects everything, then nothing. */
  lemma SelectAllTwice(shown: seq<Subscriber>, selected: seq<string>)
    requires |selected| != |shown|
    ensures var once := if |selected| == |shown| then [] else Ids(shown);
            once == Ids(shown) && (if |once| == |shown| then [] else Ids(shown)) == []
  {
  }

  /** Checking a box and unchecking it again restores a selection that did not hold the id. */
  lemma {:induction false} CheckUncheck(selected: seq<string>, id: string)
    requires id !in selected
    ensures Lists.Filter((x: string) => x != id, selected + [id]) == selected
    decreases |selected|
  {
    if selected == [] {
      assert [] + [id] == [id];
      assert [id][1..] == [];
    } else {
      CheckUncheck(selected[1..], id);
      assert (selected + [id])[1..] == selected[1..] + [id];
      assert [selected[0]] + selected[1..] == selected;
    }
  }

  /**
   * When no field holds a comma or a newline, the CSV reads back: one line for
   * the header and one per listed row, each splitting into its four fields.
   */
  lemma CsvReadsBack(rows: seq<Subscriber>, date: Subscriber -> string)
    requires forall i | 0 <= i < |rows| :: Plain(rows[i], date(rows[i]))
    ensures var lines := Split(Csv(rows, date), '\n');
            |lines| == |rows| + 1 && Split(lines[0], ',') == Header &&
            forall i | 0 <= i < |rows| :: Split(lines[i + 1], ',') == Fields(rows[i], date(rows[i]))
  {
    var lines := [Join(Header, ",")] + seq(|rows|, i requires 0 <= i < |rows| => Join(Fields(rows[i], date(rows[i])), ","));
    HeaderPlain();
    JoinSplit(Header, ',');
    JoinExcludes(Header, ",", '\n');
    forall i | 0 <= i < |rows|
      ensures '\n' !in lines[i + 1] && Split(lines[i + 1], ',') == Fields(rows[i], date(rows[i]))
    {
      var f := Fields(rows[i], date(rows[i]));
      FieldsPlain(rows[i], date(rows[i]));
      JoinExcludes(f, ",", '\n');
      JoinSplit(f, ',');
    }
    assert forall i | 0 <= i < |lines| :: '\n' !in lines[i] by {
      forall i | 0 <= i < |lines|
        ensures '\n' !in lines[i]
      {
        if i > 0 {
          assert '\n' !in lines[(i - 1) + 1];
        }
      }
    }
    JoinSplit(lines, '\n');
  }

  lemma HeaderPlain()
    ensures forall i | 0 <= i < |Header| :: ',' !in Header[i] && '\n' !in Header[i]
  {
  }

  lemma FieldsPlain(s: Subscriber, date: string)
    requires Plain(s, date)
    ensures forall i | 0 <= i < 4 :: ',' !in Fields(s, date)[i] && '\n' !in Fields(s, date)[i]
  {
  }
}
