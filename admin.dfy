/** The administration interface. Every model view it registers admits the
    same visitors, sends everybody else to the login page with the
    requested url as `next`, and the user view edits nothing but the two
    flag columns. */
module Admin {
  import opened Base
  import opened Schema
  import opened Models
  import Routes

  /** The views registered with the admin: users, topics, comments,
      reviews and projects. */
  datatype View = UserView | TopicView | CommentView | ReviewView | ProjectView

  /** `is_accessible`: `actor` is `current_user`, `None` for an anonymous
      visitor. */
  predicate IsAccessible(actor: Option<User>)
  {
    actor.Some? && actor.value.isAdmin
  }

  datatype Decision = Granted | Denied(to: Routes.Page)

  /** The gate in front of every admin request for `url` on `view`:
      `is_accessible`, and `inaccessible_callback` when it fails. */
  function Gate(view: View, actor: Option<User>, url: string): (d: Decision)
    ensures d == Granted <==> IsAccessible(actor)
    ensures d.Denied? ==> d.to == Routes.LoginFor(url)
  {
    if IsAccessible(actor) then Granted else Denied(Routes.LoginFor(url))
  }

  /** All five views decide alike. */
  lemma SameGateForEveryView(v: View, w: View, actor: Option<User>, url: string)
    ensures Gate(v, actor, url) == Gate(w, actor, url)
  {
  }

  /** Through the session's user loader the gate admits exactly a session
      naming a stored administrator who is not banned: a banned
      administrator is refused like anybody else. */
  lemma GateAdmitsActiveAdmins(users: seq<User>, session: Option<int>, view: View, url: string)
    requires UniqueUsers(users)
    ensures Gate(view, LoadUser(users, session), url) == Granted <==>
              session.Some? && exists u | u in users :: u.id == session.value && u.isAdmin && !u.isBanned
  {
    LoadUserRefusesBanned(users, session);
    if session.Some? {
      var found := UserById(users, session.value);
      if found.Some? {
        forall u | u in users && u.id == session.value ensures u == found.value {
        }
      }
    }
  }

  /** The user row after the admin form is saved: only `is_admin` and
      `is_banned` are on the form. */
  function WithFlags(u: User, isAdmin: bool, isBanned: bool): (r: User)
    ensures r.isAdmin == isAdmin && r.isBanned == isBanned
    ensures r.(isAdmin := u.isAdmin, isBanned := u.isBanned) == u
  {
    u.(isAdmin := isAdmin, isBanned := isBanned)
  }

  /** Banning a user takes effect on that user's next request: the user
      loader no longer yields the user. */
  lemma BanEndsSession(users: seq<User>, id: UserId, isAdmin: bool)
    requires UniqueUsers(users) && HasUser(users, id)
    ensures UniqueUsers(ReplaceUser(users, WithFlags(UserById(users, id).value, isAdmin, true)))
    ensures LoadUser(ReplaceUser(users, WithFlags(UserById(users, id).value, isAdmin, true)), Some(id)).None?
  {
    var u := UserById(users, id).value;
    var w := WithFlags(u, isAdmin, true);
    assert HasUser(users, w.id);
    forall v | v in users && v.id != w.id ensures v.username != w.username && v.email != w.email {
      var i :| 0 <= i < |users| && users[i] == v;
      var j :| 0 <= j < |users| && users[j] == u;
      assert i != j;
    }
    ReplaceUserKeepsKeys(users, w);
    LoadUserRefusesBanned(ReplaceUser(users, w), Some(id));
  }

  /** Saving the admin user form for `target`. A denied request changes
      nothing; a target that no longer exists changes nothing either. */
  method EditUserFlags(db: Database, actor: Option<User>, url: string, target: UserId, isAdmin: bool, isBanned: bool)
    returns (d: Decision)
    requires db.Valid()
    modifies db
    ensures db.Valid()
    ensures d == Gate(UserView, actor, url)
    ensures !IsAccessible(actor) || !HasUser(old(db.users), target) ==> unchanged(db)
    ensures IsAccessible(actor) && HasUser(old(db.users), target) ==>
              && db.users == ReplaceUser(old(db.users), WithFlags(UserById(old(db.users), target).value, isAdmin, isBanned))
              && unchanged(db`follows, db`reviews, db`topics, db`comments, db`nextUserId, db`nextTopicId)
  {
    d := Gate(UserView, actor, url);
    if d.Denied? {
      return;
    }
    var found := UserById(db.users, target);
    if found.None? {
      return;
    }
    var u := found.value;
    var w := WithFlags(u, isAdmin, isBanned);
    forall v | v in db.users && v.id != w.id ensures v.username != w.username && v.email != w.email {
      var i :| 0 <= i < |db.users| && db.users[i] == v;
      var j :| 0 <= j < |db.users| && db.users[j] == u;
      assert i != j;
    }
    db.UpdateUser(w);
  }

  /** Deleting a user from the user view, with the follow edges cascading
      as `Database.DeleteUser` assumes; as declared, the delete is refused
      (`Database.DeleteUserAsDeclared`). */
  method DeleteUser(db: Database, actor: Option<User>, url: string, target: UserId) returns (d: Decision)
    requires db.Valid()
    modifies db
    ensures db.Valid()
    ensures d == Gate(UserView, actor, url)
    ensures !IsAccessible(actor) ==> unchanged(db)
    ensures IsAccessible(actor) ==> !HasUser(db.users, target)
    ensures IsAccessible(actor) ==>
              && db.users == UsersWithout(old(db.users), target)
              && db.follows == EdgesWithout(old(db.follows), target)
              && db.reviews == ReviewsWithout(old(db.reviews), target)
              && db.topics == TopicsWithout(old(db.topics), target)
              && db.comments == CommentsWithout(old(db.comments), old(db.topics), target)
  {
    d := Gate(UserView, actor, url);
    if d.Granted? {
      db.DeleteUser(target);
    }
  }

  /** Deleting a topic from the topic view; its comments go with it. */
  method DeleteTopic(db: Database, actor: Option<User>, url: string, target: TopicId) returns (d: Decision)
    requires db.Valid()
    modifies db
    ensures db.Valid()
    ensures d == Gate(TopicView, actor, url)
    ensures !IsAccessible(actor) ==> unchanged(db)
    ensures IsAccessible(actor) ==>
              && db.topics == TopicsWithoutId(old(db.topics), target)
              && db.comments == CommentsWithoutTopic(old(db.comments), target)
              && unchanged(db`users, db`follows, db`reviews)
  {
    d := Gate(TopicView, actor, url);
    if d.Granted? {
      db.DeleteTopic(target);
    }
  }
}
