/**
 * The admin's comment moderation list (src/components/CommentsManager.tsx):
 * a search and status filter over the comments prop, the pending and
 * approved counters, and approve, reject and delete, each a one-row write
 * followed by a toast and, on success, a refresh (counted).
 */
module CommentsManager {
  import opened Blog
  import opened Text
  import opened Toasts
  import opened Subscribers
  import Lists

  datatype Status = All | ApprovedOnly | PendingOnly

  predicate MatchesStatus(c: Comment, status: Status) {
    status == All || (status == ApprovedOnly && c.approved) || (status == PendingOnly && !c.approved)
  }

  predicate Listed(c: Comment, query: string, status: Status) {
    CommentMatches(c, query) && MatchesStatus(c, status)
  }

  /** `filteredComments`. */
  function Visible(comments: seq<Comment>, query: string, status: Status): seq<Comment> {
    Lists.Filter((c: Comment) => Listed(c, query, status), comments)
  }

  predicate IsApproved(c: Comment) {
    c.approved
  }

  predicate IsPending(c: Comment) {
    !c.approved
  }

  /** `pendingCount`, over every comment. */
  function PendingCount(comments: seq<Comment>): nat {
    |Lists.Filter(IsPending, comments)|
  }

  function ApprovedCount(comments: seq<Comment>): nat {
    |Lists.Filter(IsApproved, comments)|
  }

  /** The buttons a row shows: approve for a pending comment, reject for an approved one, delete always. */
  datatype Actions = Actions(approve: bool, reject: bool, delete: bool)

  function Offered(c: Comment): (r: Actions)
    ensures r.approve != r.reject && r.delete
    ensures r.approve <==> !c.approved
  {
    Actions(!c.approved, c.approved, true)
  }

  class Manager {
    var query: string
    var status: Status
    var toasts: seq<Toast>
    var refreshes: nat

    constructor ()
      ensures query == "" && status == All && toasts == [] && refreshes == 0
    {
      query := "";
      status := All;
      toasts := [];
      refreshes := 0;
    }

    /**
     * `approveComment` (`approved := true`) and `rejectComment`
     * (`approved := false`) share their shape; `approve` picks which.
     */
    method Moderate(id: string, approve: bool, hasClient: bool, reply: Reply, db: Database)
      modifies this, db
      ensures !hasClient ==>
                db.comments == old(db.comments) && toasts == old(toasts) && refreshes == old(refreshes)
      ensures hasClient && reply == Answered ==>
                db.comments == SetApproved(old(db.comments), id, approve) &&
                toasts == old(toasts) + [Toast(Success, if approve then "Comment approved" else "Comment rejected")] &&
                refreshes == old(refreshes) + 1
      ensures hasClient && reply != Answered ==>
                db.comments == old(db.comments) &&
                toasts == old(toasts) + [Toast(Error, if approve then "Failed to approve comment" else "Failed to reject comment")] &&
                refreshes == old(refreshes)
      ensures db.posts == old(db.posts) && db.categories == old(db.categories) && db.links == old(db.links)
      ensures query == old(query) && status == old(status)
    {
      if !hasClient {
        return;
      }
      if reply == Answered {
        db.SetCommentApproved(id, approve);
        toasts := toasts + [Toast(Success, if approve then "Comment approved" else "Comment rejected")];
        refreshes := refreshes + 1;
      } else {
        toasts := toasts + [Toast(Error, if approve then "Failed to approve comment" else "Failed to reject comment")];
      }
    }

    /** `deleteComment`, after the confirmation dialog. */
    method DeleteComment(id: string, hasClient: bool, confirmed: bool, reply: Reply, db: Database)
      modifies this, db
      ensures !hasClient || !confirmed ==>
                db.comments == old(db.comments) && toasts == old(toasts) && refreshes == old(refreshes)
      ensures hasClient && confirmed && reply == Answered ==>
                db.comments == RemoveComment(old(db.comments), id) &&
                toasts == old(toasts) + [Toast(Success, "Comment deleted")] && refreshes == old(refreshes) + 1
      ensures hasClient && confirmed && reply != Answered ==>
                db.comments == old(db.comments) && toasts == old(toasts) + [Toast(Error, "Failed to delete comment")] &&
                refreshes == old(refreshes)
      ensures db.posts == old(db.posts) && db.categories == old(db.categories) && db.links == old(db.links)
      ensures query == old(query) && status == old(status)
    {
      if !hasClient || !confirmed {
        return;
      }
      if reply == Answered {
        db.DeleteComment(id);
        toasts := toasts + [Toast(Success, "Comment deleted")];
        refreshes := refreshes + 1;
      } else {
        toasts := toasts + [Toast(Error, "Failed to delete comment")];
      }
    }
  }

  // ---------------------------------------------------------------------
  // Properties

  /**
   * The list is an order-preserving sublist of the comments holding exactly
   * those that match the search on name, email or content and the status.
   */
  lemma VisibleSpec(comments: seq<Comment>, query: string, status: Status)
    ensures Lists.IsSublist(Visible(comments, query, status), comments)
    ensures forall c | c in Visible(comments, query, status) :: c in comments && CommentMatches(c, query) && MatchesStatus(c, status)
    ensures forall c | c in comments && CommentMatches(c, query) && MatchesStatus(c, status) :: c in Visible(comments, query, status)
  {
    Lists.FilterSpec((c: Comment) => Listed(c, query, status), comments);
  }

  /** `approved` keeps approved comments only, `pending` unapproved ones only, and an empty `all` search keeps everything. */
  lemma StatusFilter(comments: seq<Comment>, query: string, status: Status)
    ensures status == ApprovedOnly ==> forall c | c in Visible(comments, query, status) :: c.approved
    ensures status == PendingOnly ==> forall c | c in Visible(comments, query, status) :: !c.approved
    ensures Visible(comments, "", All) == comments
  {
    VisibleSpec(comments, query, status);
    forall i | 0 <= i < |comments|
      ensures Listed(comments[i], "", All)
    {
      IncludesEmpty(Lower(comments[i].authorName));
    }
    Lists.FilterAll((c: Comment) => Listed(c, "", All), comments);
  }

  /** The pending and approved counters add up to the total. */
  lemma CountsAddUp(comments: seq<Comment>)
    ensures PendingCount(comments) + ApprovedCount(comments) == |comments|
  {
    Lists.FilterSpec(IsPending, comments);
    Lists.FilterSpec(IsApproved, comments);
    Lists.CountSplit(IsApproved, IsPending, comments);
  }

  /**
   * Approving or rejecting changes only the `approved` flag of the rows with
   * that id; doing it twice is the same as doing it once, and the comment
   * then shows the opposite action.
   */
  lemma ModerateSpec(comments: seq<Comment>, id: string, approve: bool)
    ensures |SetApproved(comments, id, approve)| == |comments|
    ensures forall i | 0 <= i < |comments| && comments[i].id != id :: SetApproved(comments, id, approve)[i] == comments[i]
    ensures forall i | 0 <= i < |comments| && comments[i].id == id ::
              SetApproved(comments, id, approve)[i] == comments[i].(approved := approve) &&
              Offered(SetApproved(comments, id, approve)[i]).reject == approve
    ensures SetApproved(SetApproved(comments, id, approve), id, approve) == SetApproved(comments, id, approve)
  {
    SetFlagsSpec([], comments, id, approve);
  }
}
