/** The relational schema of the site: the rows of the user, follow-edge,
    review, topic and comment tables, the declared column widths, the unique
    and foreign keys, and the cascades that run when a user or a topic is
    deleted. */
module Schema {
  import opened Base
  import opened Seqs
  import SocialGraph

  type Edge = SocialGraph.Edge

  /** A row of `user`. `aboutMe` and `lastSeen` are nullable columns;
      `avatar` is the raw image blob. */
  datatype User = User(
    id: UserId,
    username: string,
    email: string,
    passwordHash: PasswordHash,
    avatar: Option<seq<byte>>,
    aboutMe: Option<string>,
    lastSeen: Option<Timestamp>,
    isAdmin: bool,
    isBanned: bool)

  /** A row of `reviews_message`; `displayName` is the name typed into the
      form, captured when the review is written. */
  datatype Review = Review(userId: UserId, body: string, timestamp: Timestamp, displayName: string)

  /** A row of `forum_topic`. */
  datatype Topic = Topic(id: TopicId, userId: UserId, title: string, body: string, timestamp: Timestamp)

  /** A row of `comment_topic`. */
  datatype Comment = Comment(userId: UserId, topicId: TopicId, body: string, timestamp: Timestamp)

  // Declared widths of the string columns.
  const UsernameWidth := 64
  const EmailWidth := 120
  const AboutMeWidth := 140
  const ReviewBodyWidth := 140
  const DisplayNameWidth := 140
  const TitleWidth := 128
  const TopicBodyWidth := 8000
  const CommentBodyWidth := 3000

  predicate UserFits(u: User)
  {
    |u.username| <= UsernameWidth && |u.email| <= EmailWidth
    && (u.aboutMe.Some? ==> |u.aboutMe.value| <= AboutMeWidth)
  }

  predicate ReviewFits(r: Review)
  {
    |r.body| <= ReviewBodyWidth && |r.displayName| <= DisplayNameWidth
  }

  predicate TopicFits(t: Topic)
  {
    |t.title| <= TitleWidth && |t.body| <= TopicBodyWidth
  }

  predicate CommentFits(c: Comment)
  {
    |c.body| <= CommentBodyWidth
  }

  predicate HasUser(users: seq<User>, id: UserId)
  {
    exists u | u in users :: u.id == id
  }

  predicate HasTopic(topics: seq<Topic>, id: TopicId)
  {
    exists t | t in topics :: t.id == id
  }

  predicate UsernameTaken(users: seq<User>, name: string)
  {
    exists u | u in users :: u.username == name
  }

  predicate EmailTaken(users: seq<User>, email: string)
  {
    exists u | u in users :: u.email == email
  }

  /** The primary key and the two unique columns of `user`. */
  predicate UniqueUsers(users: seq<User>)
  {
    forall i, j | 0 <= i < j < |users| ::
      users[i].id != users[j].id
      && users[i].username != users[j].username
      && users[i].email != users[j].email
  }

  predicate UniqueTopicIds(topics: seq<Topic>)
  {
    forall i, j | 0 <= i < j < |topics| :: topics[i].id != topics[j].id
  }

  /** Every foreign key refers to an existing row. */
  predicate NoOrphans(users: seq<User>, follows: set<Edge>, reviews: seq<Review>,
                      topics: seq<Topic>, comments: seq<Comment>)
  {
    && (forall e | e in follows :: HasUser(users, e.0) && HasUser(users, e.1))
    && (forall r | r in reviews :: HasUser(users, r.userId))
    && (forall t | t in topics :: HasUser(users, t.userId))
    && (forall c | c in comments :: HasUser(users, c.userId) && HasTopic(topics, c.topicId))
  }

  predicate Consistent(users: seq<User>, follows: set<Edge>, reviews: seq<Review>,
                       topics: seq<Topic>, comments: seq<Comment>)
  {
    UniqueUsers(users) && UniqueTopicIds(topics) && NoOrphans(users, follows, reviews, topics, comments)
  }

  /** `db.session.get(User, id)`. */
  function UserById(users: seq<User>, id: int): (r: Option<User>)
    requires UniqueUsers(users)
    ensures r.Some? <==> exists u | u in users :: u.id == id
    ensures r.Some? ==> r.value in users && r.value.id == id
    ensures r.Some? ==> forall u | u in users && u.id == id :: u == r.value
  {
    match FindFirst(users, (u: User) => u.id == id)
    case None => None
    case Some(i) => Some(users[i])
  }

  /** `select(User).where(User.username == name)`, first row. */
  function UserByName(users: seq<User>, name: string): (r: Option<User>)
    requires UniqueUsers(users)
    ensures r.Some? <==> UsernameTaken(users, name)
    ensures r.Some? ==> r.value in users && r.value.username == name
    ensures r.Some? ==> forall u | u in users && u.username == name :: u == r.value
  {
    match FindFirst(users, (u: User) => u.username == name)
    case None => None
    case Some(i) => Some(users[i])
  }


  // The cascades of a user deletion, one table at a time.

  function UsersWithout(users: seq<User>, id: UserId): (r: seq<User>)
  {
    Filter(users, (u: User) => u.id != id)
  }

  function EdgesWithout(follows: set<Edge>, id: UserId): (r: set<Edge>)
  {
    set e | e in follows && e.0 != id && e.1 != id
  }

  function ReviewsWithout(reviews: seq<Review>, id: UserId): (r: seq<Review>)
  {
    Filter(reviews, (rv: Review) => rv.userId != id)
  }

  function TopicsWithout(topics: seq<Topic>, id: UserId): (r: seq<Topic>)
  {
    Filter(topics, (t: Topic) => t.userId != id)
  }

  /** The ids of the topics `id` wrote. */
  function TopicIdsBy(topics: seq<Topic>, id: UserId): (r: set<TopicId>)
  {
    set t | t in topics && t.userId == id :: t.id
  }

  /** Comments by `id`, and comments on topics by `id`, go. */
  function CommentsWithout(comments: seq<Comment>, topics: seq<Topic>, id: UserId): (r: seq<Comment>)
  {
    var gone := TopicIdsBy(topics, id);
    Filter(comments, (c: Comment) => c.userId != id && c.topicId !in gone)
  }

  /** Deleting a user leaves consistent tables in which no row refers to the
      user, and keeps every row that depends neither on the user nor on a
      topic of the user. */
  lemma {:induction false} DeleteUserLeavesNoOrphans(users: seq<User>, follows: set<Edge>, reviews: seq<Review>,
                                                     topics: seq<Topic>, comments: seq<Comment>, id: UserId)
    requires Consistent(users, follows, reviews, topics, comments)
    ensures Consistent(UsersWithout(users, id), EdgesWithout(follows, id), ReviewsWithout(reviews, id),
                       TopicsWithout(topics, id), CommentsWithout(comments, topics, id))
    ensures !HasUser(UsersWithout(users, id), id)
    ensures forall e | e in EdgesWithout(follows, id) :: e.0 != id && e.1 != id
    ensures forall r | r in ReviewsWithout(reviews, id) :: r.userId != id
    ensures forall t | t in TopicsWithout(topics, id) :: t.userId != id
    ensures forall c | c in CommentsWithout(comments, topics, id) :: c.userId != id && !(c.topicId in TopicIdsBy(topics, id))
    ensures forall u | u in users && u.id != id :: u in UsersWithout(users, id)
    ensures forall c | c in comments && c.userId != id && c.topicId !in TopicIdsBy(topics, id) ::
              c in CommentsWithout(comments, topics, id)
  {
    var users', topics' := UsersWithout(users, id), TopicsWithout(topics, id);
    var follows', reviews' := EdgesWithout(follows, id), ReviewsWithout(reviews, id);
    var comments' := CommentsWithout(comments, topics, id);
    var gone := TopicIdsBy(topics, id);
    UniqueUsersKept(users, users');
    UniqueTopicIdsKept(topics, topics');
    forall x: UserId | HasUser(users, x) && x != id ensures HasUser(users', x) {
      var u :| u in users && u.id == x;
      assert u in users';
    }
    forall c | c in comments' ensures HasTopic(topics', c.topicId) {
      var t :| t in topics && t.id == c.topicId;
      assert t.userId == id ==> t.id in gone;
      assert t in topics';
    }
  }

  // The cascade of a topic deletion.

  function TopicsWithoutId(topics: seq<Topic>, id: TopicId): (r: seq<Topic>)
  {
    Filter(topics, (t: Topic) => t.id != id)
  }

  function CommentsWithoutTopic(comments: seq<Comment>, id: TopicId): (r: seq<Comment>)
  {
    Filter(comments, (c: Comment) => c.topicId != id)
  }

  /** Deleting a topic removes it and its comments, keeps every other comment
      and leaves consistent tables. */
  lemma {:induction false} DeleteTopicLeavesNoOrphans(users: seq<User>, follows: set<Edge>, reviews: seq<Review>,
                                                      topics: seq<Topic>, comments: seq<Comment>, id: TopicId)
    requires Consistent(users, follows, reviews, topics, comments)
    ensures Consistent(users, follows, reviews, TopicsWithoutId(topics, id), CommentsWithoutTopic(comments, id))
    ensures !HasTopic(TopicsWithoutId(topics, id), id)
    ensures forall c | c in CommentsWithoutTopic(comments, id) :: c.topicId != id
    ensures forall c | c in comments && c.topicId != id :: c in CommentsWithoutTopic(comments, id)
  {
    var topics' := TopicsWithoutId(topics, id);
    UniqueTopicIdsKept(topics, topics');
    forall c | c in CommentsWithoutTopic(comments, id) ensures HasTopic(topics', c.topicId) {
      var t :| t in topics && t.id == c.topicId;
      assert t in topics';
    }
  }

  lemma UniqueUsersKept(users: seq<User>, kept: seq<User>)
    requires UniqueUsers(users)
    requires forall x :: multiset(kept)[x] <= multiset(users)[x]
    ensures UniqueUsers(kept)
  {
    forall i, j | 0 <= i < j < |kept|
      ensures kept[i].id != kept[j].id && kept[i].username != kept[j].username && kept[i].email != kept[j].email
    {
      if kept[i] == kept[j] {
        MultisetTwoIndices(kept, i, j);
        MultisetAtMostOnce(users, kept[i]);
        assert false;
      } else {
        var i' :| 0 <= i' < |users| && users[i'] == kept[i];
        var j' :| 0 <= j' < |users| && users[j'] == kept[j];
        assert i' != j';
      }
    }
  }

  lemma UniqueTopicIdsKept(topics: seq<Topic>, kept: seq<Topic>)
    requires UniqueTopicIds(topics)
    requires forall x :: multiset(kept)[x] <= multiset(topics)[x]
    ensures UniqueTopicIds(kept)
  {
    forall i, j | 0 <= i < j < |kept| ensures kept[i].id != kept[j].id {
      if kept[i] == kept[j] {
        MultisetTwoIndices(kept, i, j);
        MultisetAtMostOnce(topics, kept[i]);
        assert false;
      } else {
        var i' :| 0 <= i' < |topics| && topics[i'] == kept[i];
        var j' :| 0 <= j' < |topics| && topics[j'] == kept[j];
        assert i' != j';
      }
    }
  }

  /** Consistent tables whose ids all lie below the next ids to hand out. */
  predicate Tables(users: seq<User>, follows: set<Edge>, reviews: seq<Review>, topics: seq<Topic>,
                   comments: seq<Comment>, nextUser: nat, nextTopic: nat)
  {
    && Consistent(users, follows, reviews, topics, comments)
    && (forall u | u in users :: u.id < nextUser)
    && (forall t | t in topics :: t.id < nextTopic)
  }

  lemma DeleteUserKeepsTables(users: seq<User>, follows: set<Edge>, reviews: seq<Review>, topics: seq<Topic>,
                              comments: seq<Comment>, nextUser: nat, nextTopic: nat, id: UserId)
    requires Tables(users, follows, reviews, topics, comments, nextUser, nextTopic)
    ensures Tables(UsersWithout(users, id), EdgesWithout(follows, id), ReviewsWithout(reviews, id),
                   TopicsWithout(topics, id), CommentsWithout(comments, topics, id), nextUser, nextTopic)
  {
    DeleteUserLeavesNoOrphans(users, follows, reviews, topics, comments, id);
    assert forall u | u in UsersWithout(users, id) :: u in users;
    assert forall t | t in TopicsWithout(topics, id) :: t in topics;
  }

  lemma DeleteTopicKeepsTables(users: seq<User>, follows: set<Edge>, reviews: seq<Review>, topics: seq<Topic>,
                               comments: seq<Comment>, nextUser: nat, nextTopic: nat, id: TopicId)
    requires Tables(users, follows, reviews, topics, comments, nextUser, nextTopic)
    ensures Tables(users, follows, reviews, TopicsWithoutId(topics, id), CommentsWithoutTopic(comments, id),
                   nextUser, nextTopic)
  {
    DeleteTopicLeavesNoOrphans(users, follows, reviews, topics, comments, id);
    assert forall t | t in TopicsWithoutId(topics, id) :: t in topics;
  }

  /** `users` with the row whose id is `u.id` replaced by `u`. */
  function ReplaceUser(users: seq<User>, u: User): (r: seq<User>)
    ensures |r| == |users|
    ensures forall i | 0 <= i < |users| :: r[i] == if users[i].id == u.id then u else users[i]
  {
    seq(|users|, i requires 0 <= i < |users| => if users[i].id == u.id then u else users[i])
  }

  /** Replacing a stored user by a row with the same id keeps every key
      unique as long as the new username and email belong to no other user,
      and keeps the set of user ids. */
  lemma ReplaceUserKeepsKeys(users: seq<User>, u: User)
    requires UniqueUsers(users) && HasUser(users, u.id)
    requires forall v | v in users && v.id != u.id :: v.username != u.username && v.email != u.email
    ensures UniqueUsers(ReplaceUser(users, u))
    ensures forall x: UserId :: HasUser(ReplaceUser(users, u), x) <==> HasUser(users, x)
    ensures u in ReplaceUser(users, u)
  {
    var r := ReplaceUser(users, u);
    forall i, j | 0 <= i < j < |r|
      ensures r[i].id != r[j].id && r[i].username != r[j].username && r[i].email != r[j].email
    {
      assert users[i].id != users[j].id;
      if users[i].id == u.id {
        assert users[j] in users;
      } else if users[j].id == u.id {
        assert users[i] in users;
      }
    }
    ReplaceUserKeepsIds(users, u);
    var v :| v in users && v.id == u.id;
    var k :| 0 <= k < |users| && users[k] == v;
    assert r[k] == u;
  }

  lemma ReplaceUserKeepsIds(users: seq<User>, u: User)
    ensures forall x: UserId :: HasUser(ReplaceUser(users, u), x) <==> HasUser(users, x)
  {
    var r := ReplaceUser(users, u);
    forall x: UserId ensures HasUser(r, x) <==> HasUser(users, x) {
      if HasUser(users, x) {
        var v :| v in users && v.id == x;
        var i :| 0 <= i < |users| && users[i] == v;
        assert r[i].id == x;
      }
      if HasUser(r, x) {
        var v :| v in r && v.id == x;
        var i :| 0 <= i < |r| && r[i] == v;
        assert users[i].id == x;
      }
    }
  }


}
