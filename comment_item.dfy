/**
 * One comment of a post page with its replies (src/components/CommentItem.tsx):
 * the like and dislike buttons, which ask for an email first when none has
 * been given, and the recursive rendering of replies one level deeper.
 * Each `onLike` call is recorded in `calls`.
 */
module CommentItem {
  import opened Wrappers
  import opened Blog

  /** A comment with the replies the post page nests under it. */
  datatype Node = Node(comment: Comment, replies: seq<Node>)

  /** What one rendered comment shows. */
  datatype Row = Row(id: string, level: nat, indented: bool, likeLit: bool, dislikeLit: bool, likes: nat, dislikes: nat)

  /** One `onLike(commentId, isLike, userEmail)` call. */
  datatype LikeCall = LikeCall(commentId: string, isLike: bool, email: string)

  /**
   * A comment's own row: indented below the top level, thumbs-up lit when the
   * reader's recorded vote is `true`, thumbs-down when it is `false`, and a
   * missing count shown as 0.
   */
  function RowOf(c: Comment, level: nat, userLikes: map<string, bool>): (r: Row)
    ensures r.id == c.id && r.level == level && (r.indented <==> level > 0)
    ensures r.likeLit <==> c.id in userLikes && userLikes[c.id]
    ensures r.dislikeLit <==> c.id in userLikes && !userLikes[c.id]
    ensures !(r.likeLit && r.dislikeLit)
    ensures r.likes == (if c.likesCount.Some? then c.likesCount.value else 0)
    ensures r.dislikes == (if c.dislikesCount.Some? then c.dislikesCount.value else 0)
  {
    Row(c.id, level, level > 0,
        c.id in userLikes && userLikes[c.id] == true,
        c.id in userLikes && userLikes[c.id] == false,
        c.likesCount.GetOr(0), c.dislikesCount.GetOr(0))
  }

  /** The rows a comment renders, in page order: its own, then each reply's at the next level. */
  function Render(n: Node, level: nat, userLikes: map<string, bool>): seq<Row>
    decreases n
  {
    [RowOf(n.comment, level, userLikes)] + RenderAll(n.replies, level + 1, userLikes)
  }

  function RenderAll(ns: seq<Node>, level: nat, userLikes: map<string, bool>): seq<Row>
    decreases ns
  {
    if ns == [] then [] else Render(ns[0], level, userLikes) + RenderAll(ns[1..], level, userLikes)
  }

  /** How many comments a thread holds. */
  function Size(n: Node): nat
    decreases n
  {
    1 + SizeAll(n.replies)
  }

  function SizeAll(ns: seq<Node>): nat
    decreases ns
  {
    if ns == [] then 0 else Size(ns[0]) + SizeAll(ns[1..])
  }

  class Item {
    const comment: Comment
    var userEmail: string
    var showEmailInput: bool
    var pending: Option<bool>
    var calls: seq<LikeCall>

    constructor (comment: Comment)
      ensures this.comment == comment && userEmail == "" && !showEmailInput && pending == None && calls == []
    {
      this.comment := comment;
      userEmail := "";
      showEmailInput := false;
      pending := None;
      calls := [];
    }

    /** `handleLikeAction`: without an email, remember the vote and ask; with one, vote at once. */
    method HandleLikeAction(isLike: bool)
      modifies this
      ensures old(userEmail) == "" ==>
                pending == Some(isLike) && showEmailInput && calls == old(calls)
      ensures old(userEmail) != "" ==>
                calls == old(calls) + [LikeCall(comment.id, isLike, old(userEmail))] &&
                pending == old(pending) && showEmailInput == old(showEmailInput)
      ensures userEmail == old(userEmail)
    {
      if userEmail == "" {
        pending := Some(isLike);
        showEmailInput := true;
        return;
      }
      calls := calls + [LikeCall(comment.id, isLike, userEmail)];
    }

    method TypeEmail(e: string)
      modifies this
      ensures userEmail == e && pending == old(pending) && showEmailInput == old(showEmailInput) && calls == old(calls)
    {
      userEmail := e;
    }

    /** `submitEmailAndAction`: casts the remembered vote once, then closes the prompt; the email stays. */
    method SubmitEmailAndAction()
      modifies this
      ensures old(pending).Some? && old(userEmail) != "" ==>
                calls == old(calls) + [LikeCall(comment.id, old(pending).value, old(userEmail))] &&
                pending == None && !showEmailInput
      ensures !(old(pending).Some? && old(userEmail) != "") ==>
                calls == old(calls) && pending == old(pending) && showEmailInput == old(showEmailInput)
      ensures userEmail == old(userEmail)
    {
      if pending.Some? && userEmail != "" {
        calls := calls + [LikeCall(comment.id, pending.value, userEmail)];
        showEmailInput := false;
        pending := None;
      }
    }

    /** The prompt's Cancel: forgets the vote and the email. */
    method Cancel()
      modifies this
      ensures !showEmailInput && pending == None && userEmail == "" && calls == old(calls)
    {
      showEmailInput := false;
      pending := None;
      userEmail := "";
    }
  }

  // ---------------------------------------------------------------------
  // Properties

  /**
   * A thread renders one row per comment; its first row is the comment
   * itself at the given level and every other row sits deeper, indented.
   */
  lemma {:induction false} RenderSpec(n: Node, level: nat, userLikes: map<string, bool>)
    ensures |Render(n, level, userLikes)| == Size(n)
    ensures Render(n, level, userLikes)[0] == RowOf(n.comment, level, userLikes)
    ensures forall i | 1 <= i < |Render(n, level, userLikes)| ::
              Render(n, level, userLikes)[i].level > level && Render(n, level, userLikes)[i].indented
    decreases n, 1
  {
    RenderAllSpec(n.replies, level + 1, userLikes);
  }

  lemma {:induction false} RenderAllSpec(ns: seq<Node>, level: nat, userLikes: map<string, bool>)
    ensures |RenderAll(ns, level, userLikes)| == SizeAll(ns)
    ensures forall i | 0 <= i < |RenderAll(ns, level, userLikes)| ::
              RenderAll(ns, level, userLikes)[i].level >= level &&
              (RenderAll(ns, level, userLikes)[i].indented <==> RenderAll(ns, level, userLikes)[i].level > 0)
    decreases ns, 0
  {
    if ns != [] {
      RenderSpec(ns[0], level, userLikes);
      RenderAllSpec(ns[1..], level, userLikes);
      var a := Render(ns[0], level, userLikes);
      var b := RenderAll(ns[1..], level, userLikes);
      assert RenderAll(ns, level, userLikes) == a + b;
      assert forall i | 0 <= i < |a| :: a[i].level >= level && (a[i].indented <==> a[i].level > 0);
    }
  }
}
