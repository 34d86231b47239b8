/** The `followers` association table and the follow operations of `User`,
    stated over the set of directed edges (follower, followed). The table's
    primary key is the pair, so the edges form a set. */
module SocialGraph {
  import opened Base

  /** (follower_id, followed_id). */
  type Edge = (UserId, UserId)

  /** `User.is_following`: an unsaved user (no id yet) is never followed. */
  predicate IsFollowing(edges: set<Edge>, follower: UserId, target: Option<UserId>)
  {
    match target
    case None => false
    case Some(t) => (follower, t) in edges
  }

  /** `User.follow`: add the edge unless it is already there. */
  function Follow(edges: set<Edge>, follower: UserId, target: UserId): (r: set<Edge>)
    ensures r == edges + {(follower, target)}
  {
    if IsFollowing(edges, follower, Some(target)) then edges else edges + {(follower, target)}
  }

  /** `User.unfollow`: remove the edge if it is there. */
  function Unfollow(edges: set<Edge>, follower: UserId, target: UserId): (r: set<Edge>)
    ensures r == edges - {(follower, target)}
  {
    if IsFollowing(edges, follower, Some(target)) then edges - {(follower, target)} else edges
  }

  /** The users `u` follows (`u.followed`). */
  function Followees(edges: set<Edge>, u: UserId): (r: set<UserId>)
    ensures forall v :: v in r <==> IsFollowing(edges, u, Some(v))
  {
    set e | e in edges && e.0 == u :: e.1
  }

  /** The author ids `followed_topics_query` selects from: the followees of
      `u` with `u` itself appended. */
  function FeedAuthors(edges: set<Edge>, u: UserId): (r: set<UserId>)
    ensures u in r
    ensures forall v :: v in r <==> v == u || IsFollowing(edges, u, Some(v))
  {
    Followees(edges, u) + {u}
  }

  lemma FollowEstablishesEdge(edges: set<Edge>, a: UserId, b: UserId)
    ensures IsFollowing(Follow(edges, a, b), a, Some(b))
  {
  }

  /** Following twice leaves the same single edge as following once. */
  lemma FollowIsIdempotent(edges: set<Edge>, a: UserId, b: UserId)
    ensures Follow(Follow(edges, a, b), a, b) == Follow(edges, a, b)
  {
  }

  /** Every edge other than (a, b) is present after `Follow` exactly when it was before. */
  lemma FollowChangesOnlyItsEdge(edges: set<Edge>, a: UserId, b: UserId, e: Edge)
    requires e != (a, b)
    ensures e in Follow(edges, a, b) <==> e in edges
  {
  }

  /** Following is directed: adding (a, b) does not add (b, a). */
  lemma FollowIsDirected(edges: set<Edge>, a: UserId, b: UserId)
    requires a != b
    ensures IsFollowing(Follow(edges, a, b), b, Some(a)) <==> IsFollowing(edges, b, Some(a))
  {
  }

  lemma UnfollowRemovesEdge(edges: set<Edge>, a: UserId, b: UserId)
    ensures !IsFollowing(Unfollow(edges, a, b), a, Some(b))
  {
  }

  /** Unfollowing someone not followed changes nothing. */
  lemma UnfollowWithoutEdgeIsNoop(edges: set<Edge>, a: UserId, b: UserId)
    requires !IsFollowing(edges, a, Some(b))
    ensures Unfollow(edges, a, b) == edges
  {
  }

  lemma UnfollowChangesOnlyItsEdge(edges: set<Edge>, a: UserId, b: UserId, e: Edge)
    requires e != (a, b)
    ensures e in Unfollow(edges, a, b) <==> e in edges
  {
  }

  /** Unfollow undoes a Follow that added a new edge. */
  lemma UnfollowUndoesFollow(edges: set<Edge>, a: UserId, b: UserId)
    requires !IsFollowing(edges, a, Some(b))
    ensures Unfollow(Follow(edges, a, b), a, b) == edges
  {
  }

  lemma UnsavedUserIsNotFollowed(edges: set<Edge>, a: UserId)
    ensures !IsFollowing(edges, a, None)
  {
  }
}
