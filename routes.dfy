/** The views of the site. A view that only reads is a function from the
    tables to what the page shows; a view that writes is a method on the
    `Database` whose contract says, for every path through the view, what
    it answers and what the tables hold afterwards. The logged-in user
    (`current_user`) is passed as the id the session names, already
    checked by `load_user`; the clock is passed as `now`. */
module Routes {
  import opened Base
  import opened Seqs
  import opened Schema
  import opened Models
  import opened Forms
  import Urls
  import Search
  import SocialGraph

  /** Where a redirect leads. */
  datatype Page =
    | IndexPage
    | LoginPage
    | LoginFor(next: string)   // the login page with `next` set
    | NextPage(url: string)
    | ProfilePage(username: string)
    | ReviewsPage
    | ForumPage
    | TopicPage(id: TopicId, atComments: bool)

  /** What a writing view answers. */
  datatype Response =
    | Redirect(to: Page)
    | Render       // the page is shown again, with the form and any flashed message
    | NotFound     // `first_or_404` found no row
    | ServerError  // an exception escaped the view

  // ---------------------------------------------------------------- login

  /** What the login view does with one request. */
  datatype LoginOutcome =
    | AlreadyIn                          // redirect to the index page
    | ShowForm                           // no valid submission: the form again
    | Blocked                            // the named user is banned: back to the login page
    | BadCredentials                     // unknown name or wrong password: back to the login page
    | Crash                              // an exception escaped the view
    | LoggedIn(user: UserId, to: Page)   // session established, then redirect

  /** Where a successful login leads: the `next` url when it is safe, the
      index page otherwise. */
  function Landing(next: Option<string>): (p: Page)
    ensures Urls.SafeNext(next).None? ==> p == IndexPage
    ensures Urls.SafeNext(next).Some? ==> p == NextPage(next.value)
  {
    match Urls.SafeNext(next)
    case None => IndexPage
    case Some(url) => NextPage(url)
  }

  /** The login view as written: the ban flag of the looked-up user is read
      before the code asks whether there is a user at all, so an unknown
      username raises instead of being refused. */
  function LoginAsWritten(users: seq<User>, authenticated: bool, form: Option<LoginForm>, next: Option<string>): (r: LoginOutcome)
    requires UniqueUsers(users)
    ensures r == Crash <==>
              !authenticated && form.Some? && LoginValid(form.value) && !UsernameTaken(users, form.value.username)
  {
    if authenticated then AlreadyIn
    else if form.None? || !LoginValid(form.value) then ShowForm
    else match UserByName(users, form.value.username)
      case None => Crash
      case Some(u) =>
        if u.isBanned then Blocked
        else if !CheckHash(u.passwordHash, form.value.password) then BadCredentials
        else LoggedIn(u.id, Landing(next))
  }

  /** The login view with the missing-user test made before the ban test. */
  function Login(users: seq<User>, authenticated: bool, form: Option<LoginForm>, next: Option<string>): (r: LoginOutcome)
    requires UniqueUsers(users)
    ensures r != Crash
    ensures r.LoggedIn? ==> r.to == Landing(next) && !authenticated && form.Some? && LoginValid(form.value)
  {
    if authenticated then AlreadyIn
    else if form.None? || !LoginValid(form.value) then ShowForm
    else match UserByName(users, form.value.username)
      case None => BadCredentials
      case Some(u) =>
        if u.isBanned then Blocked
        else if !CheckHash(u.passwordHash, form.value.password) then BadCredentials
        else LoggedIn(u.id, Landing(next))
  }

  /** A valid login form naming nobody makes the view as written raise. */
  lemma LoginAsWrittenCrashesOnUnknownName(users: seq<User>, f: LoginForm, next: Option<string>)
    requires UniqueUsers(users) && LoginValid(f) && !UsernameTaken(users, f.username)
    ensures LoginAsWritten(users, false, Some(f), next) == Crash
  {
  }

  /** The smallest instance: an empty user table and any login attempt. */
  lemma LoginAsWrittenCrashExample()
    ensures LoginAsWritten([], false, Some(LoginForm("nobody", "secret")), None) == Crash
  {
    assert LoginValid(LoginForm("nobody", "secret")) by {
      assert !IsSpace("nobody"[0]) && !IsSpace("secret"[0]);
    }
  }

  /** The corrected view never raises, and it differs from the view as
      written only on names that are not in the table. */
  lemma LoginNeverCrashes(users: seq<User>, authenticated: bool, form: Option<LoginForm>, next: Option<string>)
    requires UniqueUsers(users)
    ensures Login(users, authenticated, form, next) != Crash
    ensures form.Some? && UsernameTaken(users, form.value.username) ==>
              Login(users, authenticated, form, next) == LoginAsWritten(users, authenticated, form, next)
  {
  }

  /** A session is established exactly for a valid form naming a stored,
      unbanned user whose digest accepts the password; it belongs to that
      user, and the redirect goes to the safe `next` page. */
  lemma LoginSucceedsOnlyForActiveUsers(users: seq<User>, authenticated: bool, form: Option<LoginForm>, next: Option<string>)
    requires UniqueUsers(users)
    ensures Login(users, authenticated, form, next).LoggedIn? <==>
              && !authenticated && form.Some? && LoginValid(form.value)
              && exists u | u in users :: u.username == form.value.username && !u.isBanned
                                            && CheckHash(u.passwordHash, form.value.password)
    ensures Login(users, authenticated, form, next).LoggedIn? ==>
              var o := Login(users, authenticated, form, next);
              && o.to == Landing(next)
              && exists u | u in users :: u.id == o.user && u.username == form.value.username && !u.isBanned
  {
    if !authenticated && form.Some? && LoginValid(form.value) {
      var f := form.value;
      match UserByName(users, f.username)
      case None =>
      case Some(u) =>
        forall v | v in users && v.username == f.username ensures v == u {
        }
    }
  }

  /** A banned user is turned away whatever password is given. */
  lemma BannedUserIsBlocked(users: seq<User>, f: LoginForm, u: User, next: Option<string>)
    requires UniqueUsers(users) && LoginValid(f)
    requires u in users && u.username == f.username && u.isBanned
    ensures Login(users, false, Some(f), next) == Blocked
    ensures LoginAsWritten(users, false, Some(f), next) == Blocked
  {
  }

  // ---------------------------------------------------------- registration

  /** The row the registration view adds (its id is assigned on insert). */
  function NewUser(f: RegistrationForm, now: Timestamp): User
  {
    User(0, f.username, f.email, GenerateHash(f.password), None, None, Some(now), f.username == "admin", false)
  }

  /** Only the name "admin" is registered as an administrator, nobody is
      registered banned, and the stored digest accepts the registered
      password and no other. */
  lemma NewUserFlagsAndPassword(f: RegistrationForm, now: Timestamp, password: string)
    ensures NewUser(f, now).isAdmin <==> f.username == "admin"
    ensures !NewUser(f, now).isBanned
    ensures CheckHash(NewUser(f, now).passwordHash, password) <==> password == f.password
  {
    HashChecksOnlyItsPassword(f.password, password);
  }

  /** A registered user can log in with the password chosen at registration,
      and with no other. */
  lemma RegisteredUserCanLogIn(users: seq<User>, f: RegistrationForm, now: Timestamp, id: UserId, password: string)
    requires UniqueUsers(users) && RegistrationValid(users, f) && !HasUser(users, id)
    ensures UniqueUsers(users + [NewUser(f, now).(id := id)])
    ensures var l := Login(users + [NewUser(f, now).(id := id)], false, Some(LoginForm(f.username, password)), None);
            LoginValid(LoginForm(f.username, password)) ==>
              (l.LoggedIn? <==> password == f.password) && (l.LoggedIn? ==> l.user == id)
  {
    var u := NewUser(f, now).(id := id);
    var all := users + [u];
    forall i, j | 0 <= i < j < |all|
      ensures all[i].id != all[j].id && all[i].username != all[j].username && all[i].email != all[j].email
    {
      if j == |users| {
        assert all[i] in users;
      }
    }
    assert u in all;
    HashChecksOnlyItsPassword(f.password, password);
    LoginSucceedsOnlyForActiveUsers(all, false, Some(LoginForm(f.username, password)), None);
    forall v | v in all && v.username == f.username ensures v == u {
      assert v in users || v == u;
    }
  }

  /** `register`: a valid form adds one user row and leads to the login
      page. The commit is not guarded, so a row the backend refuses ends
      the request with an error and writes nothing. */
  method Register(db: Database, authenticated: bool, form: Option<RegistrationForm>, now: Timestamp) returns (r: Response)
    requires db.Valid()
    modifies db
    ensures db.Valid()
    ensures authenticated ==> r == Redirect(IndexPage) && unchanged(db)
    ensures !authenticated && (form.None? || !RegistrationValid(old(db.users), form.value)) ==>
              r == Render && unchanged(db)
    ensures !authenticated && form.Some? && RegistrationValid(old(db.users), form.value) ==>
              var u := NewUser(form.value, now);
              if db.Stores(u) then
                && r == Redirect(LoginPage)
                && db.users == old(db.users) + [u.(id := old(db.nextUserId))]
                && unchanged(db`follows, db`reviews, db`topics, db`comments)
              else r == ServerError && unchanged(db)
  {
    if authenticated {
      return Redirect(IndexPage);
    }
    if form.None? || !RegistrationValid(db.users, form.value) {
      return Render;
    }
    var u := NewUser(form.value, now);
    if !db.Stores(u) {
      return ServerError;
    }
    var id := db.InsertUser(u);
    r := Redirect(LoginPage);
  }

  // --------------------------------------------------------------- reviews

  /** The name the review form shows on a GET. */
  function ReviewDefaultName(actor: Option<User>): (name: string)
    ensures actor.Some? ==> name == actor.value.username
    ensures actor.None? ==> name == "Анонимус"
  {
    if actor.None? then "Анонимус" else actor.value.username
  }

  /** `reviews` on a POST. Reading the id of an anonymous visitor raises
      inside the guarded block, as does a commit the backend refuses; both
      roll back and show the page again. */
  method PostReview(db: Database, actor: Option<UserId>, form: Option<ReviewForm>, now: Timestamp) returns (r: Response)
    requires db.Valid() && (actor.Some? ==> HasUser(db.users, actor.value))
    modifies db
    ensures db.Valid()
    ensures form.None? || !ReviewValid(form.value) || actor.None? ==> r == Render && unchanged(db)
    ensures form.Some? && ReviewValid(form.value) && actor.Some? ==>
              var rv := Review(actor.value, form.value.text, now, form.value.username);
              if db.StoresReview(rv) then
                && r == Redirect(ReviewsPage)
                && db.reviews == old(db.reviews) + [rv]
                && unchanged(db`users, db`follows, db`topics, db`comments, db`nextUserId, db`nextTopicId)
              else r == Render && unchanged(db)
  {
    if form.None? || !ReviewValid(form.value) || actor.None? {
      return Render;
    }
    var rv := Review(actor.value, form.value.text, now, form.value.username);
    if !db.StoresReview(rv) {
      return Render;
    }
    db.InsertReview(rv);
    r := Redirect(ReviewsPage);
  }

  // ------------------------------------------------------ activity, profile

  /** Seconds after the last request during which a user shows as online. */
  const OnlineThreshold := 120

  predicate IsOnline(lastSeen: Option<Timestamp>, now: Timestamp)
  {
    lastSeen.Some? && now - lastSeen.value < OnlineThreshold
  }

  /** The user row as `before_request` leaves it. */
  function Touched(u: User, now: Timestamp): (r: User)
    ensures r.lastSeen == Some(now)
    ensures r.(lastSeen := u.lastSeen) == u
  {
    u.(lastSeen := Some(now))
  }

  /** A user whose request was just seen shows as online for the next
      `OnlineThreshold` seconds and not after. */
  lemma TouchedUserIsOnline(u: User, now: Timestamp, later: Timestamp)
    requires now <= later
    ensures IsOnline(Touched(u, now).lastSeen, later) <==> later < now + OnlineThreshold
  {
  }

  /** `before_request`: a logged-in user's `last_seen` becomes now; nothing
      else changes. */
  method BeforeRequest(db: Database, actor: Option<UserId>, now: Timestamp)
    requires db.Valid() && (actor.Some? ==> HasUser(db.users, actor.value))
    modifies db
    ensures db.Valid()
    ensures actor.None? ==> unchanged(db)
    ensures actor.Some? ==>
              && db.users == ReplaceUser(old(db.users), Touched(UserById(old(db.users), actor.value).value, now))
              && unchanged(db`follows, db`reviews, db`topics, db`comments, db`nextUserId, db`nextTopicId)
  {
    if actor.Some? {
      var u := UserById(db.users, actor.value).value;
      db.UpdateUser(Touched(u, now));
    }
  }

  /** What the profile page shows about `user` to the logged-in `viewer`. */
  datatype ProfileView = ProfileView(user: User, isOwn: bool, showFollowButton: bool, isFollowing: bool, isOnline: bool)

  /** `profile` as a reader sees it; `None` is the 404 for an unknown name. */
  function ViewProfile(users: seq<User>, follows: set<Edge>, viewer: UserId, username: string, now: Timestamp): (r: Option<ProfileView>)
    requires UniqueUsers(users)
    ensures r.None? <==> !UsernameTaken(users, username)
    ensures r.Some? ==> r.value.user in users && r.value.user.username == username
    ensures r.Some? ==> (r.value.isOwn <==> r.value.user.id == viewer)
    ensures r.Some? ==> (r.value.showFollowButton <==> !r.value.isOwn)
    ensures r.Some? ==> (r.value.isFollowing <==> !r.value.isOwn && SocialGraph.IsFollowing(follows, viewer, Some(r.value.user.id)))
    ensures r.Some? ==> (r.value.isOnline <==> IsOnline(r.value.user.lastSeen, now))
  {
    match UserByName(users, username)
    case None => None
    case Some(u) =>
      var own := u.id == viewer;
      Some(ProfileView(u, own, !own, !own && SocialGraph.IsFollowing(follows, viewer, Some(u.id)), IsOnline(u.lastSeen, now)))
  }

  /** The user row after an accepted profile edit. */
  function EditedUser(u: User, f: EditProfileForm): (r: User)
    ensures r.username == f.username && r.aboutMe == Some(f.aboutMe)
    ensures r.avatar == if HasFile(f.avatar) then Some(f.avatar.value.data) else u.avatar
    ensures r.id == u.id && r.email == u.email && r.passwordHash == u.passwordHash && r.lastSeen == u.lastSeen
    ensures r.isAdmin == u.isAdmin && r.isBanned == u.isBanned
  {
    u.(username := f.username, aboutMe := Some(f.aboutMe),
       avatar := if HasFile(f.avatar) then Some(f.avatar.value.data) else u.avatar)
  }

  /** `profile` on a POST by the logged-in user `actor`. Only one's own
      profile can be edited; a commit the backend refuses rolls back and the
      redirect then goes to the unchanged name. */
  method EditProfile(db: Database, actor: UserId, username: string, form: Option<EditProfileForm>) returns (r: Response)
    requires db.Valid() && HasUser(db.users, actor)
    modifies db
    ensures db.Valid()
    ensures !UsernameTaken(old(db.users), username) ==> r == NotFound && unchanged(db)
    ensures UsernameTaken(old(db.users), username) ==>
              var me := UserById(old(db.users), actor).value;
              if UserByName(old(db.users), username).value.id != actor
                 || form.None? || !EditProfileValid(old(db.users), me.username, form.value) then
                r == Render && unchanged(db)
              else if db.Stores(EditedUser(me, form.value)) then
                && r == Redirect(ProfilePage(form.value.username))
                && db.users == ReplaceUser(old(db.users), EditedUser(me, form.value))
                && unchanged(db`follows, db`reviews, db`topics, db`comments, db`nextUserId, db`nextTopicId)
              else
                r == Redirect(ProfilePage(me.username)) && unchanged(db)
  {
    var page := UserByName(db.users, username);
    if page.None? {
      return NotFound;
    }
    var me := UserById(db.users, actor).value;
    if page.value.id != actor || form.None? || !EditProfileValid(db.users, me.username, form.value) {
      return Render;
    }
    var edited := EditedUser(me, form.value);
    if !db.Stores(edited) {
      return Redirect(ProfilePage(me.username));
    }
    EditProfileKeepsUsernamesUnique(db.users, me, form.value);
    db.UpdateUser(edited);
    r := Redirect(ProfilePage(form.value.username));
  }

  // ----------------------------------------------------------------- forum

  function Recency(t: Topic): int
  {
    -t.timestamp
  }

  /** `ORDER BY timestamp DESC` on topics. */
  function NewestFirst(ts: seq<Topic>): (r: seq<Topic>)
    ensures multiset(r) == multiset(ts)
    ensures forall i, j | 0 <= i < j < |r| :: r[i].timestamp >= r[j].timestamp
  {
    var r := SortBy(ts, Recency);
    assert forall i, j | 0 <= i < j < |r| :: Recency(r[i]) <= Recency(r[j]);
    r
  }

  /** What the forum page lists. */
  datatype ForumView = ForumView(topics: seq<Topic>, subscribedOnly: bool, subscribedUsers: set<UserId>)

  /** `forum` for the logged-in `viewer`. */
  function Forum(topics: seq<Topic>, follows: set<Edge>, viewer: UserId, filter: Option<string>): (r: ForumView)
    ensures r.subscribedOnly <==> filter == Some("subscribed")
    ensures r.subscribedOnly ==> multiset(r.topics) == multiset(FollowedTopics(topics, follows, viewer))
    ensures !r.subscribedOnly ==> multiset(r.topics) == multiset(topics)
    ensures forall i, j | 0 <= i < j < |r.topics| :: r.topics[i].timestamp >= r.topics[j].timestamp
    ensures r.subscribedUsers == SocialGraph.Followees(follows, viewer)
  {
    var subscribed := filter == Some("subscribed");
    var listed := if subscribed then FollowedTopics(topics, follows, viewer) else topics;
    ForumView(NewestFirst(listed), subscribed, SocialGraph.Followees(follows, viewer))
  }

  /** With the subscription filter the forum lists exactly the topics of
      the viewer and of the users the viewer follows, each as often as it is
      stored. */
  lemma {:induction false} SubscribedForumIsTheFeed(topics: seq<Topic>, follows: set<Edge>, viewer: UserId, t: Topic)
    ensures var listed := Forum(topics, follows, viewer, Some("subscribed")).topics;
            && (t in listed <==> t in topics && (t.userId == viewer || SocialGraph.IsFollowing(follows, viewer, Some(t.userId))))
            && multiset(listed)[t] == if t.userId == viewer || SocialGraph.IsFollowing(follows, viewer, Some(t.userId))
                                      then multiset(topics)[t] else 0
  {
    var listed := Forum(topics, follows, viewer, Some("subscribed")).topics;
    FollowedTopicsAreFeedAuthors(topics, follows, viewer, t);
    assert t in listed <==> t in multiset(listed);
    assert t in FollowedTopics(topics, follows, viewer) <==> t in multiset(FollowedTopics(topics, follows, viewer));
  }

  // ---------------------------------------------------------------- search

  /** The topics whose title or body matches the query. */
  function Matching(topics: seq<Topic>, q: string): (r: seq<Topic>)
    ensures forall t :: t in r <==> t in topics && Search.TopicMatches(t.title, t.body, q)
  {
    Filter(topics, (t: Topic) => Search.TopicMatches(t.title, t.body, q))
  }

  /** `search_topics`; `None` is the redirect to the forum for an empty
      query. */
  function SearchTopics(topics: seq<Topic>, follows: set<Edge>, viewer: UserId, q: Option<string>): (r: Option<ForumView>)
    ensures r.None? <==> q.None? || q.value == ""
    ensures r.Some? ==> forall t :: t in r.value.topics <==> t in topics && Search.TopicMatches(t.title, t.body, q.value)
    ensures r.Some? ==> forall i, j | 0 <= i < j < |r.value.topics| :: r.value.topics[i].timestamp >= r.value.topics[j].timestamp
    ensures r.Some? ==> !r.value.subscribedOnly && r.value.subscribedUsers == SocialGraph.Followees(follows, viewer)
  {
    if q.None? || q.value == "" then None
    else
      var found := NewestFirst(Matching(topics, q.value));
      assert forall t :: t in found <==> t in multiset(found);
      Some(ForumView(found, false, SocialGraph.Followees(follows, viewer)))
  }

  /** For a query without `%` or `_` the search finds exactly the topics
      whose case-folded title or body contains the case-folded query. */
  lemma PlainSearchFindsSubstrings(topics: seq<Topic>, follows: set<Edge>, viewer: UserId, q: string, t: Topic)
    requires q != "" && Search.Plain(q)
    ensures t in SearchTopics(topics, follows, viewer, Some(q)).value.topics <==>
              t in topics && (Search.Contains(Fold(t.title), Fold(q)) || Search.Contains(Fold(t.body), Fold(q)))
  {
    Search.PlainQueryIsSubstringSearch(t.title, t.body, q);
  }

  // ---------------------------------------------------------------- topics

  /** `create_topic`: a valid form adds one topic by `actor` and leads to
      its page. Every valid form fits the columns, so the guarded commit
      never fails. */
  method CreateTopic(db: Database, actor: UserId, form: Option<TopicForm>, now: Timestamp) returns (r: Response)
    requires db.Valid() && HasUser(db.users, actor)
    modifies db
    ensures db.Valid()
    ensures form.None? || !TopicValid(form.value) ==> r == Render && unchanged(db)
    ensures form.Some? && TopicValid(form.value) ==>
              && r == Redirect(TopicPage(old(db.nextTopicId), false))
              && db.topics == old(db.topics) + [Topic(old(db.nextTopicId), actor, form.value.title, form.value.body, now)]
              && unchanged(db`users, db`follows, db`reviews, db`comments, db`nextUserId)
  {
    if form.None? || !TopicValid(form.value) {
      return Render;
    }
    TopicFormFitsColumns(form.value, 0, actor, now);
    var id := db.InsertTopic(Topic(0, actor, form.value.title, form.value.body, now));
    r := Redirect(TopicPage(id, false));
  }

  function TopicById(topics: seq<Topic>, id: TopicId): (r: Option<Topic>)
    ensures r.Some? <==> HasTopic(topics, id)
    ensures r.Some? ==> r.value in topics && r.value.id == id
  {
    match FindFirst(topics, (t: Topic) => t.id == id)
    case None => None
    case Some(i) => Some(topics[i])
  }

  function Age(c: Comment): int
  {
    c.timestamp
  }

  function CommentsOn(comments: seq<Comment>, id: TopicId): (r: seq<Comment>)
    ensures forall c :: multiset(r)[c] == if c.topicId == id then multiset(comments)[c] else 0
  {
    Filter(comments, (c: Comment) => c.topicId == id)
  }

  /** The comments `view_topic` lists: those on topic `id`, oldest first. */
  function TopicComments(comments: seq<Comment>, id: TopicId): (r: seq<Comment>)
    ensures forall c :: multiset(r)[c] == if c.topicId == id then multiset(comments)[c] else 0
    ensures forall c :: c in r <==> c in comments && c.topicId == id
    ensures forall i, j | 0 <= i < j < |r| :: r[i].timestamp <= r[j].timestamp
  {
    var r := SortBy(CommentsOn(comments, id), Age);
    assert forall c :: c in r <==> c in multiset(r);
    assert forall c :: c in comments <==> c in multiset(comments);
    assert forall i, j | 0 <= i < j < |r| :: Age(r[i]) <= Age(r[j]);
    r
  }

  datatype TopicView = TopicView(topic: Topic, comments: seq<Comment>)

  /** `view_topic` as a reader sees it; `None` is the 404. */
  function ViewTopic(topics: seq<Topic>, comments: seq<Comment>, id: TopicId): (r: Option<TopicView>)
    ensures r.None? <==> !HasTopic(topics, id)
    ensures r.Some? ==> r.value.topic in topics && r.value.topic.id == id
    ensures r.Some? ==> forall c :: c in r.value.comments <==> c in comments && c.topicId == id
    ensures r.Some? ==> forall i, j | 0 <= i < j < |r.value.comments| ::
                          r.value.comments[i].timestamp <= r.value.comments[j].timestamp
  {
    match TopicById(topics, id)
    case None => None
    case Some(t) => Some(TopicView(t, TopicComments(comments, id)))
  }

  /** `view_topic` on a POST by the logged-in `actor`: a valid comment is
      added and the page reloads at the comments; a commit the backend
      refuses rolls back and shows the page again. */
  method PostComment(db: Database, actor: UserId, topicId: TopicId, form: Option<CommentForm>, now: Timestamp) returns (r: Response)
    requires db.Valid() && HasUser(db.users, actor)
    modifies db
    ensures db.Valid()
    ensures !HasTopic(old(db.topics), topicId) ==> r == NotFound && unchanged(db)
    ensures HasTopic(old(db.topics), topicId) && (form.None? || !CommentValid(form.value)) ==> r == Render && unchanged(db)
    ensures HasTopic(old(db.topics), topicId) && form.Some? && CommentValid(form.value) ==>
              var c := Comment(actor, topicId, form.value.body, now);
              if db.StoresComment(c) then
                && r == Redirect(TopicPage(topicId, true))
                && db.comments == old(db.comments) + [c]
                && unchanged(db`users, db`follows, db`reviews, db`topics, db`nextUserId, db`nextTopicId)
              else r == Render && unchanged(db)
  {
    if TopicById(db.topics, topicId).None? {
      return NotFound;
    }
    if form.None? || !CommentValid(form.value) {
      return Render;
    }
    var c := Comment(actor, topicId, form.value.body, now);
    if !db.StoresComment(c) {
      return Render;
    }
    db.InsertComment(c);
    r := Redirect(TopicPage(topicId, true));
  }

  // ------------------------------------------------------ follow, unfollow

  /** `follow`: `csrfOk` is the verdict of the toggle form's token check. */
  method FollowRoute(db: Database, actor: UserId, csrfOk: bool, username: string) returns (r: Response)
    requires db.Valid() && HasUser(db.users, actor)
    modifies db
    ensures db.Valid()
    ensures !csrfOk ==> r == Redirect(ProfilePage(username)) && unchanged(db)
    ensures csrfOk && !UsernameTaken(old(db.users), username) ==> r == Redirect(IndexPage) && unchanged(db)
    ensures csrfOk && UsernameTaken(old(db.users), username) ==>
              var target := UserByName(old(db.users), username).value.id;
              && r == Redirect(ProfilePage(username))
              && db.follows == (if target == actor then old(db.follows) else SocialGraph.Follow(old(db.follows), actor, target))
              && unchanged(db`users, db`reviews, db`topics, db`comments, db`nextUserId, db`nextTopicId)
  {
    if !csrfOk {
      return Redirect(ProfilePage(username));
    }
    var target := UserByName(db.users, username);
    if target.None? {
      return Redirect(IndexPage);
    }
    if target.value.id != actor {
      db.Follow(actor, target.value.id);
    }
    r := Redirect(ProfilePage(username));
  }

  /** `unfollow`, the mirror image of `follow`. */
  method UnfollowRoute(db: Database, actor: UserId, csrfOk: bool, username: string) returns (r: Response)
    requires db.Valid() && HasUser(db.users, actor)
    modifies db
    ensures db.Valid()
    ensures !csrfOk ==> r == Redirect(ProfilePage(username)) && unchanged(db)
    ensures csrfOk && !UsernameTaken(old(db.users), username) ==> r == Redirect(IndexPage) && unchanged(db)
    ensures csrfOk && UsernameTaken(old(db.users), username) ==>
              var target := UserByName(old(db.users), username).value.id;
              && r == Redirect(ProfilePage(username))
              && db.follows == (if target == actor then old(db.follows) else SocialGraph.Unfollow(old(db.follows), actor, target))
              && unchanged(db`users, db`reviews, db`topics, db`comments, db`nextUserId, db`nextTopicId)
  {
    if !csrfOk {
      return Redirect(ProfilePage(username));
    }
    var target := UserByName(db.users, username);
    if target.None? {
      return Redirect(IndexPage);
    }
    if target.value.id != actor {
      db.Unfollow(actor, target.value.id);
    }
    r := Redirect(ProfilePage(username));
  }
}
