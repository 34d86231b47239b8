# Community site model

A Dafny model of a small Flask and SQLAlchemy community site. The site has:

- registration and login with salted password digests;
- profile pages that show an "online" badge;
- a directed follow graph;
- a forum of topics and comments, with a feed of followed authors and a text search;
- a guest book of reviews;
- an admin back office limited to administrators.

The model covers the data behind the ORM and the decisions the application code makes around it:

- **Tables.** The tables are fields of one `Database` class: users, follow edges, reviews, topics and comments. Every method of the class is one committed transaction. Each method keeps its invariant `Valid()`:
  - user ids, usernames, emails and topic ids are unique;
  - every foreign key names an existing row;
  - the primary-key counters stay above every used id.
- **Backends.** Deleting a topic cascades to its comments, as the foreign key declares. Deleting a user, as declared, is refused: the flush raises (see Findings). The corrected delete cascades to everything that depends on the user. Whether the backend refuses strings wider than a column is a parameter of the database (`enforcesWidths`): PostgreSQL refuses them and SQLite stores them.
- **Read-only views.** Views that only read are functions from the tables to what the page shows: the profile, the forum, the search and a topic with its comments.
- **Writing views.** Views that write are methods on the `Database`. Their contract covers every path through the view: what it answers (redirect, page, 404, server error) and what the tables hold afterwards.
- **Inputs.** The session's user, the clock, the CSRF verdict and uploaded files are parameters.

Modules:

- `Base`: identifiers, timestamps, symbolic password digests, and the whitespace and ASCII case-folding helpers.
- `Seqs`: the query shapes — the first match, `WHERE` as `Filter`, and `ORDER BY` as a sort that is a permutation.
- `SocialGraph`: the follow edges.
- `Schema`: rows, column widths, keys, foreign keys and cascades.
- `Models`: `load_user`, the followed-topics query and the `Database` class.
- `Forms`: the form validators.
- `Urls`: the `urlsplit` netloc check that guards `next`.
- `Search`: SQL `LIKE`.
- `Routes`: the views.
- `Admin`: the admin gate and the admin user form.

## Model

| member | source | states |
|---|---|---|
| Base.GenerateHash | app/models.py:50-51 | the stored digest accepts the password it was made from |
| Base.HashChecksOnlyItsPassword | app/models.py:50-54 | a digest accepts its own password and no other one |
| Base.Fold | app/routes.py:224-225 | case folding keeps the length and lower-cases each ASCII capital |
| Seqs.FindFirst | app/routes.py:27-28 | `scalar` yields the first matching row; no earlier row matches; none exists iff no row matches |
| Seqs.Filter | app/models.py:84 | `WHERE` keeps each matching row as often as it is stored, and nothing else |
| Seqs.Insert | app/routes.py:198 | inserting into an ordered list keeps it ordered and adds exactly one element |
| Seqs.SortBy | app/routes.py:198 | `ORDER BY` yields a permutation of the rows in non-decreasing key order |
| SocialGraph.IsFollowing | app/models.py:73-77 | the query on `followed`: true iff the target has an id and the edge (follower, target) is stored |
| SocialGraph.Follow | app/models.py:65-67 | the guarded add leaves exactly the old edges plus (follower, target) |
| SocialGraph.Unfollow | app/models.py:69-71 | the guarded remove leaves exactly the old edges minus (follower, target) |
| SocialGraph.Followees | app/models.py:33-38 | `followed` holds exactly the users the edge set says u follows |
| SocialGraph.FeedAuthors | app/models.py:80-82 | the followees with u appended: u itself, plus everyone u follows |
| SocialGraph.FollowEstablishesEdge | app/models.py:65-67 | after `follow`, `is_following` holds |
| SocialGraph.FollowIsIdempotent | app/models.py:14-19 | following twice leaves the same single edge as following once |
| SocialGraph.FollowChangesOnlyItsEdge | app/models.py:65-67 | every other edge is present after `follow` iff it was before |
| SocialGraph.FollowIsDirected | app/models.py:33-37 | adding (a, b) does not add (b, a) |
| SocialGraph.UnfollowRemovesEdge | app/models.py:69-71 | after `unfollow`, `is_following` is false |
| SocialGraph.UnfollowWithoutEdgeIsNoop | app/models.py:69-71 | unfollowing someone not followed changes nothing |
| SocialGraph.UnfollowChangesOnlyItsEdge | app/models.py:69-71 | every other edge is present after `unfollow` iff it was before |
| SocialGraph.UnfollowUndoesFollow | app/models.py:65-71 | unfollow undoes a follow that added an edge |
| SocialGraph.UnsavedUserIsNotFollowed | app/models.py:73-75 | a user without an id is never followed |
| Schema.UserById | app/models.py:113 | `session.get` finds the one user with that primary key iff it exists |
| Schema.UserByName | app/routes.py:313 | the lookup by the unique username finds the one user with that name iff it is taken |
| Schema.DeleteUserLeavesNoOrphans | app/models.py:14-42 | the corrected user delete, whose follow edges cascade like the user's reviews, topics and comments, removes exactly those rows and the comments on the user's topics, keeps every other user and comment, and leaves consistent tables that no row refers to the user from |
| Schema.UsersWithout | app/models.py:14-42 | the user table without the deleted user |
| Schema.EdgesWithout | app/models.py:14-18 | the corrected edge cascade: every edge touching the deleted user goes |
| Schema.ReviewsWithout | app/models.py:120-127 | `ondelete='CASCADE'` on the review's author |
| Schema.TopicsWithout | app/models.py:138 | `ondelete='CASCADE'` on the topic's author |
| Schema.CommentsWithout | app/models.py:151-152 | comments by the user and comments on the user's topics go |
| Schema.TopicsWithoutId | app/models.py:133-141 | the topic table without the deleted topic |
| Schema.CommentsWithoutTopic | app/models.py:152 | `ondelete='CASCADE'` on the comment's topic |
| Schema.DeleteTopicLeavesNoOrphans | app/models.py:141 | deleting a topic removes it and its comments, keeps every other comment and leaves consistent tables |
| Schema.UniqueUsersKept | app/models.py:24-25 | a sub-multiset of a table with unique keys has unique keys |
| Schema.ReplaceUser | app/routes.py:151-154 | writing a user row back replaces exactly the row with that id |
| Schema.ReplaceUserKeepsKeys | app/models.py:23-25 | an update that takes no other user's username or email keeps all keys unique and the id set unchanged |
| Models.LoadUser | app/models.py:110-117 | a loaded user is a stored, unbanned user with the session's id |
| Models.LoadUserRefusesBanned | app/models.py:110-117 | `load_user` yields a user iff the id is given and names a stored user who is not banned, and then yields that user |
| Models.FollowedTopics | app/models.py:79-84 | every topic of the feed is a stored topic by u or by someone u follows |
| Models.FollowedTopicsAreFeedAuthors | app/models.py:79-84 | the feed holds exactly the topics by u or by someone u follows, each as often as stored, so u's own topics are in it even with no follows |
| Models.Database.constructor | app/models.py:14-31 | empty tables satisfy the invariant |
| Models.Database.Follow | app/models.py:65-67 | `follow` plus commit: the edge set becomes `SocialGraph.Follow` of the old one; the invariant is kept |
| Models.Database.Unfollow | app/models.py:69-71 | `unfollow` plus commit: the edge set becomes `SocialGraph.Unfollow` of the old one |
| Models.Database.InsertUser | app/models.py:23-25 | a user with a free username and email is appended under a fresh id; keys stay unique |
| Models.Database.UpdateUser | app/models.py:24-25 | a changed user row replaces the old one; keys stay unique |
| Models.Database.InsertReview | app/models.py:120-127 | a review by a stored user is appended |
| Models.Database.InsertTopic | app/models.py:133-140 | a topic by a stored user is appended under a fresh id |
| Models.Database.InsertComment | app/models.py:147-155 | a comment by a stored user on a stored topic is appended |
| Models.Database.DeleteUserAsDeclared | app/models.py:33-38 | as declared, a user delete is refused whatever the user: the flush raises and no table changes |
| Models.Database.DeleteUser | app/models.py:14-42 | the corrected delete: the user is gone, the tables become exactly the cascade of the user's deletion, and the invariant is kept |
| Models.Database.DeleteTopic | app/models.py:141 | the topics and comments become exactly the cascade of the topic's deletion |
| Forms.LoginValid | app/forms.py:10-14 | both fields present |
| Forms.RegistrationValid | app/forms.py:36-51 | all fields present, the email well formed, the passwords equal, the username and email not stored |
| Forms.EditProfileValid | app/forms.py:17-33 | a name present and free unless it is one's own, about_me at most 140 characters, no file or a jpg, png or jpeg file |
| Forms.ReviewValid | app/forms.py:58-61 | a name present, the text at most 2000 characters |
| Forms.TopicValid | app/forms.py:64-67 | a title of 1 to 128 and a body of 1 to 5000 characters, neither blank |
| Forms.CommentValid | app/forms.py:70-72 | a body of 1 to 5000 characters, not blank |
| Forms.RegistrationRejectsTakenNames | app/forms.py:43-51 | registration is refused when the username or the email is already stored |
| Forms.RegistrationRejectsPasswordMismatch | app/forms.py:40 | registration is refused when the two passwords differ |
| Forms.EditProfileKeepsUsernamesUnique | app/forms.py:28-33 | an accepted edit keeps one's own name or takes a free one, so no other user holds the new name |
| Forms.TopicFormFitsColumns | app/forms.py:65-66 | every accepted topic fits the 128 and 8000 character columns |
| Forms.CommentFormExceedsColumn | app/forms.py:71 | a 3001-character comment passes the form (at most 5000) but not the 3000 column |
| Forms.ReviewFormExceedsColumn | app/forms.py:60 | a 141-character review passes the form (at most 2000) but not the 140 column |
| Urls.StripLeading | app/routes.py:41 | removes exactly the leading C0 controls and spaces |
| Urls.RemoveUnsafe | app/routes.py:41 | the result has no tab, CR or LF, is no longer than the input, and clean text is left as it is |
| Urls.RemoveUnsafeIsFilter | app/routes.py:41 | deleting the unsafe characters keeps every other character, in order and as often as it occurs |
| Urls.AfterScheme | app/routes.py:41 | the url loses its first colon and everything before it exactly when that prefix is a scheme; otherwise it is kept whole |
| Urls.Authority | app/routes.py:41 | after a leading `//`, the longest run of characters that holds no `/`, `?` or `#`; empty without a leading `//` |
| Urls.Netloc | app/routes.py:41 | once leading controls, tabs, CR, LF and a scheme are removed, a non-empty netloc is the run right after `//` up to a `/`, `?`, `#` or the end; `//` followed by any other character gives a non-empty netloc |
| Urls.SafeNext | app/routes.py:39-42 | a followed `next` is the given url itself, non-empty, with an empty netloc |
| Urls.SafeNextFollowsOnlyLocalUrls | app/routes.py:39-42 | `next` is followed iff it is given, non-empty and has an empty netloc |
| Urls.SchemeRelativeUrlRefused | app/routes.py:41-42 | `//host...` leads to the index page |
| Urls.AbsoluteUrlRefused | app/routes.py:41-42 | `scheme://host...` leads to the index page, for any scheme |
| Urls.LocalPathFollowed | app/routes.py:39-44 | a site path `/...` without a second leading slash is followed unchanged |
| Urls.UnsafeBetweenSlashesRefused | app/routes.py:41-42 | `/`, then a tab, CR or LF, then `/host` is still refused |
| Search.Like | app/routes.py:224-225 | SQL `LIKE` without an escape character: `%` matches any run, `_` any one character, anything else itself |
| Search.ILike | app/routes.py:224-225 | `ILIKE`: `LIKE` after ASCII case folding of both sides |
| Search.TopicMatches | app/routes.py:220-227 | the search condition: the title or the body is `ILIKE '%q%'` |
| Search.LikeIsSubstring | app/routes.py:224-225 | for a query without wildcards, `LIKE '%q%'` holds iff q is a substring |
| Search.PlainQueryIsSubstringSearch | app/routes.py:223-226 | a topic matches a wildcard-free query iff the case-folded query occurs in its case-folded title or body |
| Search.UnderscoreIsAWildcard | app/routes.py:224 | the unescaped query `a_c` matches `abc` although `abc` does not contain `a_c` |
| Routes.Landing | app/routes.py:39-44 | the redirect after login goes to `next` whenever `next` passes the check, and to the index page otherwise |
| Routes.LoginAsWritten | app/routes.py:19-46 | the view as written raises exactly when a valid form names a username that is not stored |
| Routes.Login | app/routes.py:19-46 | the corrected view never raises, and a session is only established for a valid form, leading to `Landing(next)` |
| Routes.LoginAsWrittenCrashesOnUnknownName | app/routes.py:30-34 | as written, a valid form naming no user raises |
| Routes.LoginAsWrittenCrashExample | app/routes.py:30 | on an empty user table, logging in as "nobody" raises |
| Routes.LoginNeverCrashes | app/routes.py:30-36 | the corrected view never raises and agrees with the original on every stored username |
| Routes.LoginSucceedsOnlyForActiveUsers | app/routes.py:26-44 | a session is established iff not yet logged in, the form is valid and the name belongs to an unbanned user whose digest accepts the password; it is that user's session and the redirect is the safe `next` |
| Routes.BannedUserIsBlocked | app/routes.py:30-32 | a banned user is turned away whatever the password, in both versions |
| Routes.NewUser | app/routes.py:63-68 | the row registration builds: the form's name, email and password digest, `last_seen` now, admin only for "admin", not banned |
| Routes.NewUserFlagsAndPassword | app/routes.py:63-68 | only the name "admin" is registered as administrator, nobody is registered banned, and the digest accepts exactly the chosen password |
| Routes.RegisteredUserCanLogIn | app/routes.py:62-70 | after registration, the keys stay unique and login with the chosen password succeeds as the new user, with any other password fails |
| Routes.Register | app/routes.py:55-74 | redirect when logged in; the page again for an invalid form; otherwise one appended user and a redirect to login, or a server error with nothing written when the backend refuses the row |
| Routes.ReviewDefaultName | app/routes.py:111-115 | the review form is pre-filled with the visitor's username, or "Анонимус" for an anonymous visitor |
| Routes.PostReview | app/routes.py:88-110 | a valid review by a logged-in user is appended with that user's id and the typed display name; an anonymous post or a refused commit rolls back |
| Routes.Touched | app/routes.py:128 | `last_seen` becomes now and nothing else changes |
| Routes.IsOnline | app/routes.py:169-173 | the online badge: a `last_seen` less than 120 seconds before now |
| Routes.TouchedUserIsOnline | app/routes.py:169-173 | a user seen at `now` shows as online exactly for the next 120 seconds |
| Routes.BeforeRequest | app/routes.py:125-129 | a logged-in user's row gets `last_seen = now`; everything else is unchanged |
| Routes.ViewProfile | app/routes.py:132-173 | 404 iff the name is unknown; otherwise that user, whether it is the viewer's own profile, the follow button exactly on other profiles, `is_following` from the edge set, and the online badge |
| Routes.EditedUser | app/routes.py:148-152 | an edit sets username and about_me, sets the avatar only when a file was chosen, and keeps every other column |
| Routes.EditProfile | app/routes.py:144-159 | 404 for an unknown name; no change unless it is one's own profile with a valid form; then the row is replaced by the edited one and the redirect uses the new name, or on a refused commit nothing changes and the redirect uses the old name |
| Routes.NewestFirst | app/routes.py:198 | topics ordered by non-increasing timestamp, a permutation of the input |
| Routes.Forum | app/routes.py:186-210 | the listing is newest first and holds the feed with `filter=subscribed`, or all topics otherwise; the subscribed users are the followees |
| Routes.SubscribedForumIsTheFeed | app/routes.py:192-198 | the subscribed listing holds exactly the viewer's and the followees' topics, each as often as stored |
| Routes.Matching | app/routes.py:220-227 | the search keeps exactly the topics whose title or body matches |
| Routes.SearchTopics | app/routes.py:212-241 | an empty or missing query redirects to the forum; otherwise exactly the matching topics, newest first, with the followees |
| Routes.PlainSearchFindsSubstrings | app/routes.py:220-229 | a wildcard-free query finds exactly the topics containing it, ignoring ASCII case |
| Routes.CreateTopic | app/routes.py:243-264 | a valid form always appends one topic by the actor under a fresh id and redirects to it; otherwise nothing changes |
| Routes.TopicById | app/routes.py:269 | `first_or_404` finds the topic with that id iff it exists |
| Routes.CommentsOn | app/routes.py:296 | the comments on the topic, each as often as stored |
| Routes.TopicComments | app/routes.py:294-298 | exactly the comments on the topic, oldest first |
| Routes.ViewTopic | app/routes.py:266-306 | 404 iff the topic is unknown; otherwise the topic and its comments oldest first |
| Routes.PostComment | app/routes.py:269-289 | 404 for an unknown topic; a valid comment is appended and the page reloads at `#comments`; a refused commit rolls back |
| Routes.FollowRoute | app/routes.py:308-329 | a failed token check, an unknown name or oneself leaves the edges unchanged, with the redirect the view gives; otherwise the edge set becomes `Follow` of the old one |
| Routes.UnfollowRoute | app/routes.py:332-352 | the same for `unfollow` |
| Admin.IsAccessible | app/__init__.py:47-48 | `is_accessible`: a logged-in administrator |
| Admin.Gate | app/__init__.py:47-51 | access iff the visitor is logged in and an administrator; otherwise a redirect to login with the requested url as `next` |
| Admin.SameGateForEveryView | app/__init__.py:70-85 | the user, topic, comment, review and project views decide alike |
| Admin.GateAdmitsActiveAdmins | app/__init__.py:47-48 | through `load_user`, the gate admits exactly a session naming a stored, unbanned administrator |
| Admin.WithFlags | app/__init__.py:64-67 | the admin user form sets `is_admin` and `is_banned` and no other column |
| Admin.BanEndsSession | app/__init__.py:64-67 | after an admin bans a user, `load_user` no longer yields that user |
| Admin.EditUserFlags | app/__init__.py:46-67 | a denied request changes nothing; an accepted one replaces only the target's flags |
| Admin.DeleteUser | app/__init__.py:87 | with the corrected mapping, an accepted delete removes the user and is the user cascade; a denied one changes nothing |
| Admin.DeleteTopic | app/__init__.py:88 | an accepted delete is the topic cascade, a denied one changes nothing |

## Behaviour of the views worth knowing

- **Login, banned users.** The login view turns a banned user away with its own "account blocked" message, so `Routes.Login` has a separate `Blocked` outcome besides `BadCredentials`.
- **Anonymous reviews.** An anonymous visitor's review raises inside the guarded block, because the anonymous user object has no `id`. The post is rolled back, so an anonymous review is never stored (`Routes.PostReview`).

## Left out

- Avatar rendering (`avatar`, `defult_avatar`): image decoding, resizing and base64 encoding are library code. Only the stored bytes are modelled.
- Password hashing internals: the digest is symbolic. It records its password only so that checking is decidable.
- Framework machinery: the Flask request cycle, templates, `flash` texts, `url_for`, Flask-Login's cookies and `remember_me`, and `logout`.
- CSRF checks: the token check is folded into "the form is valid", except in the follow and unfollow views, where it is the `csrfOk` parameter.
- Static pages: `index`, `about`, `price` and the `MyProjects` listing only render templates.
- `main.js`: browser code.
- Logging setup.
- The Flask-Admin screens other than the gate, the user form's two flags and deletions. Generic create and edit of topics, comments, reviews and projects by an administrator is not modelled.
- Clocks: they are the `now` parameter. Time zones and the mix of `datetime.now(timezone.utc)` and `datetime.utcnow()` are not modelled.
- Urls.Netloc: does not model the `ValueError` that `urlsplit` raises for unbalanced IPv6 brackets, nor its NFKC check of non-ASCII host names.
- Search.Like: takes every character other than `%` and `_` literally and folds ASCII case only, as SQLite does. PostgreSQL reads `\` in a pattern as an escape character and folds case beyond ASCII, so on PostgreSQL `Search.PlainQueryIsSubstringSearch` holds only for queries without `\` and with ASCII letters only.
- Forms.LooksLikeEmail: reduces the `Email` validator to an `@` with text on both sides.
- Models.Database.DeleteTopic: relies on the database to run `ondelete='CASCADE'` for the comments, as `passive_deletes=True` leaves them to it. SQLite runs cascades only with foreign keys switched on, which the application does not do; the backend is chosen in `config.py`, which is not part of this model. Without them the comments would stay behind with a dangling topic id.
- Models.Database.DeleteUser: models the delete with the follow edges cascading, which the mapping does not declare (see Findings). It relies on the database cascades in the same way as `DeleteTopic`.
- Seqs.SortBy: fixes one order for rows with equal keys. The database promises none.
- Primary keys come from counters that never reuse an id. Concurrent requests are not modelled.
- Rows created outside the views are not modelled: the constructor starts empty, and users come in only through registration.
- Routes.PostComment: the branch for an anonymous visitor (app/routes.py:290-292) is not modelled, because `login_required` keeps anonymous visitors out of the view.
- Routes.PostReview: the branch for an empty display name (app/routes.py:98-100) is not modelled, because the form's `DataRequired` has already refused such a form.

## Findings

| source | as written | input that shows it | evidently intended | confidence | as-written member | corrected member |
|---|---|---|---|---|---|---|
| app/routes.py:30-34 | `user.is_banned` is read before the `user is None` test | a valid login form naming a username that is not stored, e.g. "nobody" on an empty table: the view raises and answers with a server error | an unknown username is refused like a wrong password | high (not executed) | Routes.LoginAsWrittenCrashExample | Routes.LoginSucceedsOnlyForActiveUsers |
| app/models.py:33-38 | the write-only `followed` collection has no `passive_deletes`, and the `followers` foreign keys (app/models.py:17-18) have no `ondelete` | an administrator deletes any stored user, even one with no follow edges: the flush asks the write-only collection for its rows, which it refuses, so the delete raises, is rolled back and the user stays | deleting a user removes the user's follow edges along with the user's reviews, topics and comments, as app/models.py:40-42 does for those | medium (not executed; rests on SQLAlchemy refusing to load a write-only collection during a delete flush) | Models.Database.DeleteUserAsDeclared | Models.Database.DeleteUser |
