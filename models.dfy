/** The behaviour the ORM objects add to the schema: the user loader of the
    login manager, the followed-topics query and the `Database` object
    whose methods add, update and delete rows in one transaction each. */
module Models {
  import opened Base
  import opened Seqs
  import opened Schema
  import SocialGraph

  /** `load_user`: the session's user id becomes a user only when it names a
      stored user who is not banned. */
  function LoadUser(users: seq<User>, id: Option<int>): (r: Option<User>)
    requires UniqueUsers(users)
    ensures r.Some? ==> id.Some? && r.value in users && r.value.id == id.value && !r.value.isBanned
  {
    if id.Some? then
      match UserById(users, id.value)
      case Some(u) => if !u.isBanned then Some(u) else None
      case None => None
    else None
  }

  lemma LoadUserRefusesBanned(users: seq<User>, id: Option<int>)
    requires UniqueUsers(users)
    ensures LoadUser(users, id).Some? <==>
              id.Some? && exists u | u in users :: u.id == id.value && !u.isBanned
    ensures LoadUser(users, id).Some? ==>
              var u := LoadUser(users, id).value; u in users && u.id == id.value && !u.isBanned
  {
    if id.Some? && UserById(users, id.value).Some? {
      var u := UserById(users, id.value).value;
      if u.isBanned {
        forall v | v in users && v.id == id.value ensures v.isBanned {
          assert v == u;
        }
      }
    }
  }

  /** `User.followed_topics_query`: the topics written by `u` or by someone
      `u` follows. */
  function FollowedTopics(topics: seq<Topic>, follows: set<Edge>, u: UserId): (r: seq<Topic>)
    ensures forall t | t in r :: t in topics && t.userId in SocialGraph.FeedAuthors(follows, u)
  {
    var authors := SocialGraph.FeedAuthors(follows, u);
    Filter(topics, (t: Topic) => t.userId in authors)
  }

  /** The feed holds each topic by `u` or a followee of `u`, as often as the
      table does, and nothing else; in particular `u`'s own topics are in it
      whether or not `u` follows anyone. */
  lemma FollowedTopicsAreFeedAuthors(topics: seq<Topic>, follows: set<Edge>, u: UserId, t: Topic)
    ensures t in FollowedTopics(topics, follows, u) <==>
              t in topics && (t.userId == u || SocialGraph.IsFollowing(follows, u, Some(t.userId)))
    ensures multiset(FollowedTopics(topics, follows, u))[t] ==
              if t.userId == u || SocialGraph.IsFollowing(follows, u, Some(t.userId))
              then multiset(topics)[t] else 0
  {
  }
  /** The tables of the site. Each method is one committed transaction: it
      changes the rows it names and keeps every key unique and every foreign
      key pointing at an existing row. */
  class Database {
    /** Whether the backend refuses a string longer than its column's
        declared width (PostgreSQL does, SQLite does not). */
    const enforcesWidths: bool

    var users: seq<User>
    var follows: set<Edge>
    var reviews: seq<Review>
    var topics: seq<Topic>
    var comments: seq<Comment>
    var nextUserId: nat
    var nextTopicId: nat

    ghost predicate Valid()
      reads this
    {
      Tables(users, follows, reviews, topics, comments, nextUserId, nextTopicId)
    }

    constructor (enforcesWidths: bool)
      ensures Valid() && this.enforcesWidths == enforcesWidths
      ensures users == [] && follows == {} && reviews == [] && topics == [] && comments == []
    {
      this.enforcesWidths := enforcesWidths;
      users, follows, reviews, topics, comments := [], {}, [], [], [];
      nextUserId, nextTopicId := 1, 1;
    }

    /** Whether a commit writing these rows succeeds on this backend. */
    predicate Stores(u: User) { !enforcesWidths || UserFits(u) }
    predicate StoresReview(r: Review) { !enforcesWidths || ReviewFits(r) }
    predicate StoresTopic(t: Topic) { !enforcesWidths || TopicFits(t) }
    predicate StoresComment(c: Comment) { !enforcesWidths || CommentFits(c) }

    /** `User.follow` followed by a commit. */
    method Follow(follower: UserId, target: UserId)
      requires Valid() && HasUser(users, follower) && HasUser(users, target)
      modifies this`follows
      ensures Valid()
      ensures follows == SocialGraph.Follow(old(follows), follower, target)
    {
      if !SocialGraph.IsFollowing(follows, follower, Some(target)) {
        follows := follows + {(follower, target)};
      }
    }

    /** `User.unfollow` followed by a commit. */
    method Unfollow(follower: UserId, target: UserId)
      requires Valid()
      modifies this`follows
      ensures Valid()
      ensures follows == SocialGraph.Unfollow(old(follows), follower, target)
    {
      if SocialGraph.IsFollowing(follows, follower, Some(target)) {
        follows := follows - {(follower, target)};
      }
    }

    /** Adds a user row under a fresh primary key. */
    method InsertUser(u: User) returns (id: UserId)
      requires Valid() && !UsernameTaken(users, u.username) && !EmailTaken(users, u.email)
      modifies this`users, this`nextUserId
      ensures Valid()
      ensures id == old(nextUserId) && !HasUser(old(users), id)
      ensures users == old(users) + [u.(id := id)]
    {
      id := nextUserId;
      users := users + [u.(id := id)];
      nextUserId := nextUserId + 1;
    }

    /** Writes a changed user row back under the same primary key. */
    method UpdateUser(u: User)
      requires Valid() && HasUser(users, u.id)
      requires forall v | v in users && v.id != u.id :: v.username != u.username && v.email != u.email
      modifies this`users
      ensures Valid()
      ensures users == ReplaceUser(old(users), u)
    {
      ReplaceUserKeepsKeys(users, u);
      users := ReplaceUser(users, u);
    }

    method InsertReview(r: Review)
      requires Valid() && HasUser(users, r.userId)
      modifies this`reviews
      ensures Valid()
      ensures reviews == old(reviews) + [r]
    {
      reviews := reviews + [r];
    }

    /** Adds a topic row under a fresh primary key. */
    method InsertTopic(t: Topic) returns (id: TopicId)
      requires Valid() && HasUser(users, t.userId)
      modifies this`topics, this`nextTopicId
      ensures Valid()
      ensures id == old(nextTopicId) && !HasTopic(old(topics), id)
      ensures topics == old(topics) + [t.(id := id)]
    {
      id := nextTopicId;
      topics := topics + [t.(id := id)];
      nextTopicId := nextTopicId + 1;
    }

    method InsertComment(c: Comment)
      requires Valid() && HasUser(users, c.userId) && HasTopic(topics, c.topicId)
      modifies this`comments
      ensures Valid()
      ensures comments == old(comments) + [c]
    {
      comments := comments + [c];
    }

    /** Deleting a user as the mapping declares it. The `followed`
        collection is write-only and has no `passive_deletes`, so before it
        deletes the row the flush asks the collection for every association
        row, and a write-only collection refuses to be loaded: the flush
        raises for every user, followed or not, the transaction is rolled
        back and no table changes. */
    method DeleteUserAsDeclared(id: UserId) returns (ok: bool)
      requires Valid()
      ensures !ok
    {
      ok := false;
    }

    /** Deletes a user once the follow edges cascade like the other
        dependent rows: the `followers` foreign keys declared with
        `ondelete='CASCADE'` and `followed` with `passive_deletes=True`. The
        database then removes the user's reviews, topics, comments, the
        comments on the user's topics and the user's follow edges. */
    method DeleteUser(id: UserId)
      requires Valid()
      modifies this`users, this`follows, this`reviews, this`topics, this`comments
      ensures Valid() && !HasUser(users, id)
      ensures users == UsersWithout(old(users), id) && follows == EdgesWithout(old(follows), id)
      ensures reviews == ReviewsWithout(old(reviews), id) && topics == TopicsWithout(old(topics), id)
      ensures comments == CommentsWithout(old(comments), old(topics), id)
    {
      var u', f', r', t', c' := UsersWithout(users, id), EdgesWithout(follows, id), ReviewsWithout(reviews, id),
        TopicsWithout(topics, id), CommentsWithout(comments, topics, id);
      assert Tables(u', f', r', t', c', nextUserId, nextTopicId) && !HasUser(u', id) by {
        DeleteUserKeepsTables(users, follows, reviews, topics, comments, nextUserId, nextTopicId, id);
      }
      users, follows, reviews, topics, comments := u', f', r', t', c';
    }

    /** Deletes a topic; the foreign key cascades to its comments. */
    method DeleteTopic(id: TopicId)
      requires Valid()
      modifies this`topics, this`comments
      ensures Valid()
      ensures topics == TopicsWithoutId(old(topics), id)
      ensures comments == CommentsWithoutTopic(old(comments), id)
    {
      var t', c' := TopicsWithoutId(topics, id), CommentsWithoutTopic(comments, id);
      assert Tables(users, follows, reviews, t', c', nextUserId, nextTopicId) by {
        DeleteTopicKeepsTables(users, follows, reviews, topics, comments, nextUserId, nextTopicId, id);
      }
      topics, comments := t', c';
    }
  }
}
