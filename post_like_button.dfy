/**
 * The heart button under a post (src/components/PostLikeButton.tsx): the
 * reader is identified by an IP address fetched on mount, and a like is a
 * `post_likes` row for the post and that address. The IP lookup's answer is
 * a parameter; `None` stands for a failed lookup.
 */
module PostLikeButton {
  import opened Wrappers
  import opened Subscribers
  import Lists

  datatype LikeRow = LikeRow(postId: string, userIp: string)

  /** The `post_likes` table. */
  class LikeTable {
    var rows: seq<LikeRow>

    constructor (rows: seq<LikeRow>)
      ensures this.rows == rows
    {
      this.rows := rows;
    }

    method Insert(r: LikeRow)
      modifies this
      ensures rows == old(rows) + [r]
    {
      rows := rows + [r];
    }

    /** `delete().eq('post_id', p).eq('user_ip', ip)`. */
    method DeleteWhere(postId: string, userIp: string)
      modifies this
      ensures rows == Unliked(old(rows), postId, userIp)
    {
      rows := Unliked(rows, postId, userIp);
    }
  }

  function Unliked(rows: seq<LikeRow>, postId: string, userIp: string): seq<LikeRow> {
    Lists.Filter((r: LikeRow) => !(r.postId == postId && r.userIp == userIp), rows)
  }

  /** The counter and the flag after a click that got through. */
  function Toggled(likes: int, isLiked: bool): (r: (int, bool))
    ensures r.1 == !isLiked
    ensures r.0 == if isLiked then likes - 1 else likes + 1
  {
    if isLiked then (likes - 1, false) else (likes + 1, true)
  }

  class Button {
    const postId: string
    var likes: int
    var isLiked: bool
    var userIp: string

    constructor (postId: string, initialLikes: int)
      ensures this.postId == postId && likes == initialLikes && !isLiked && userIp == ""
    {
      this.postId := postId;
      likes := initialLikes;
      isLiked := false;
      userIp := "";
    }

    /** The IP lookup settles: its address, or `'unknown'` when it failed. */
    method SetUserIp(answer: Option<string>)
      modifies this
      ensures userIp == answer.GetOr("unknown") && likes == old(likes) && isLiked == old(isLiked)
    {
      userIp := answer.GetOr("unknown");
    }

    /**
     * `checkUserLike`: nothing while the address is unknown; otherwise the
     * flag says whether a row was found, and a thrown lookup clears it.
     */
    method CheckUserLike(hasClient: bool, found: bool, thrown: bool)
      modifies this
      ensures !hasClient || old(userIp) == "" ==> isLiked == old(isLiked)
      ensures hasClient && old(userIp) != "" ==> isLiked == (found && !thrown)
      ensures likes == old(likes) && userIp == old(userIp)
    {
      if !hasClient || userIp == "" {
        return;
      }
      isLiked := found && !thrown;
    }

    /** `fetchLikes`: the counted rows, 0 for a missing count; a thrown call changes nothing. */
    method FetchLikes(hasClient: bool, count: Option<nat>, thrown: bool)
      modifies this
      ensures hasClient && !thrown ==> likes == count.GetOr(0)
      ensures !hasClient || thrown ==> likes == old(likes)
      ensures isLiked == old(isLiked) && userIp == old(userIp)
    {
      if hasClient && !thrown {
        likes := count.GetOr(0);
      }
    }

    /**
     * The mount effect: the like check runs before any address has arrived,
     * so it does nothing; the count is fetched.
     */
    method Mount(hasClient: bool, found: bool, count: Option<nat>, thrown: bool)
      requires userIp == ""
      modifies this
      ensures isLiked == old(isLiked) && userIp == ""
      ensures hasClient && !thrown ==> likes == count.GetOr(0)
      ensures !hasClient || thrown ==> likes == old(likes)
    {
      CheckUserLike(hasClient, found, thrown);
      FetchLikes(hasClient, count, thrown);
    }

    /**
     * `handleLike`: nothing without a client or an address. Otherwise the
     * row is deleted or inserted and the counter and flag flip; an answered
     * error is not checked, so they flip even though the table did not
     * change, while a rejected call changes nothing.
     */
    method HandleLike(hasClient: bool, reply: Reply, db: LikeTable)
      modifies this, db
      ensures !hasClient || old(userIp) == "" || reply == Rejected ==>
                likes == old(likes) && isLiked == old(isLiked) && db.rows == old(db.rows)
      ensures hasClient && old(userIp) != "" && reply != Rejected ==>
                (likes, isLiked) == Toggled(old(likes), old(isLiked))
      ensures hasClient && old(userIp) != "" && reply == Answered ==>
                db.rows == if old(isLiked) then Unliked(old(db.rows), postId, userIp)
                           else old(db.rows) + [LikeRow(postId, userIp)]
      ensures reply == Errored ==> db.rows == old(db.rows)
      ensures userIp == old(userIp)
    {
      if !hasClient || userIp == "" || reply == Rejected {
        return;
      }
      if reply == Answered {
        if isLiked {
          db.DeleteWhere(postId, userIp);
        } else {
          db.Insert(LikeRow(postId, userIp));
        }
      }
      var next := Toggled(likes, isLiked);
      likes := next.0;
      isLiked := next.1;
    }
  }

  // ---------------------------------------------------------------------
  // Properties

  /** Liking and unliking restores the counter and the flag. */
  lemma ToggleTwice(likes: int, isLiked: bool)
    ensures Toggled(Toggled(likes, isLiked).0, Toggled(likes, isLiked).1) == (likes, isLiked)
  {
  }

  /**
   * Liking and unliking with the same address restores the table when the
   * address had not liked the post before.
   */
  lemma LikeUnlikeRestoresTable(rows: seq<LikeRow>, postId: string, userIp: string)
    requires LikeRow(postId, userIp) !in rows
    ensures Unliked(rows + [LikeRow(postId, userIp)], postId, userIp) == rows
  {
    var keep := (r: LikeRow) => !(r.postId == postId && r.userIp == userIp);
    Lists.FilterConcat(keep, rows, [LikeRow(postId, userIp)]);
    assert forall i | 0 <= i < |rows| :: keep(rows[i]) by {
      forall i | 0 <= i < |rows|
        ensures keep(rows[i])
      {
        assert rows[i] in rows;
      }
    }
    Lists.FilterAll(keep, rows);
  }

  /** Unliking removes every row of the post and address and keeps the others in order. */
  lemma UnlikedSpec(rows: seq<LikeRow>, postId: string, userIp: string)
    ensures Lists.IsSublist(Unliked(rows, postId, userIp), rows)
    ensures LikeRow(postId, userIp) !in Unliked(rows, postId, userIp)
    ensures forall r | r in rows && r != LikeRow(postId, userIp) :: r in Unliked(rows, postId, userIp)
  {
    Lists.FilterSpec((r: LikeRow) => !(r.postId == postId && r.userIp == userIp), rows);
  }
}
