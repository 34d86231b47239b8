/** The web forms of the site and their validators: which submissions are
    accepted before any view touches the tables. `DataRequired` refuses a
    blank field, `Length` bounds the number of characters, and the inline
    validators look the submitted username and email up in the user table. */
module Forms {
  import opened Base
  import opened Schema

  const AboutMeMax := 140
  const ReviewTextMax := 2000
  const TitleMax := 128
  const TopicBodyMax := 5000
  const CommentBodyMax := 5000

  /** The extensions the avatar field accepts (`FileAllowed`). */
  const AvatarExtensions: seq<string> := ["jpg", "png", "jpeg"]

  datatype LoginForm = LoginForm(username: string, password: string)
  datatype RegistrationForm = RegistrationForm(username: string, email: string, password: string, password2: string)
  /** An uploaded file; a file with an empty name counts as no file. */
  datatype Upload = Upload(filename: string, data: seq<byte>)
  datatype EditProfileForm = EditProfileForm(username: string, aboutMe: string, avatar: Option<Upload>)
  datatype ReviewForm = ReviewForm(username: string, text: string)
  datatype TopicForm = TopicForm(title: string, body: string)
  datatype CommentForm = CommentForm(body: string)

  /** `DataRequired`. */
  predicate Required(s: string)
  {
    !Blank(s)
  }

  /** The `Email` validator, reduced to a non-empty local part and domain
      around an `@`. */
  predicate LooksLikeEmail(e: string)
  {
    exists i | 0 < i < |e| - 1 :: e[i] == '@'
  }

  predicate LoginValid(f: LoginForm)
  {
    Required(f.username) && Required(f.password)
  }

  /** `RegistrationForm`: every field present, the email well formed, the
      two passwords equal, and neither the username nor the email in use. */
  predicate RegistrationValid(users: seq<User>, f: RegistrationForm)
  {
    && Required(f.username) && !UsernameTaken(users, f.username)
    && Required(f.email) && LooksLikeEmail(f.email) && !EmailTaken(users, f.email)
    && Required(f.password)
    && Required(f.password2) && f.password2 == f.password
  }

  lemma RegistrationRejectsTakenNames(users: seq<User>, f: RegistrationForm, u: User)
    requires u in users && (u.username == f.username || u.email == f.email)
    ensures !RegistrationValid(users, f)
  {
  }

  lemma RegistrationRejectsPasswordMismatch(users: seq<User>, f: RegistrationForm)
    requires f.password2 != f.password
    ensures !RegistrationValid(users, f)
  {
  }

  /** A file was chosen (a `FileStorage` with an empty name is falsy). */
  predicate HasFile(a: Option<Upload>)
  {
    a.Some? && a.value.filename != ""
  }

  /** `FileAllowed`: no file, or a file whose lower-cased name ends in one
      of the allowed extensions. */
  predicate AvatarAllowed(a: Option<Upload>)
  {
    !HasFile(a) || exists x | x in AvatarExtensions :: EndsWith(Fold(a.value.filename), "." + x)
  }

  /** `EditProfileForm.validate_username`: keeping one's own name is fine,
      any other name must be free. */
  predicate EditUsernameAllowed(users: seq<User>, original: string, name: string)
  {
    name == original || !UsernameTaken(users, name)
  }

  predicate EditProfileValid(users: seq<User>, original: string, f: EditProfileForm)
  {
    && Required(f.username) && EditUsernameAllowed(users, original, f.username)
    && |f.aboutMe| <= AboutMeMax
    && AvatarAllowed(f.avatar)
  }

  /** An accepted profile edit by a stored user never takes a username some
      other user holds, so usernames stay unique. */
  lemma {:induction false} EditProfileKeepsUsernamesUnique(users: seq<User>, me: User, f: EditProfileForm)
    requires UniqueUsers(users) && me in users
    requires EditProfileValid(users, me.username, f)
    ensures forall v | v in users && v.id != me.id :: v.username != f.username && v.email != me.email
  {
    forall v | v in users && v.id != me.id ensures v.username != f.username && v.email != me.email {
      var i :| 0 <= i < |users| && users[i] == v;
      var j :| 0 <= j < |users| && users[j] == me;
      assert i != j;
      if i < j {
        assert users[i].username != users[j].username;
      } else {
        assert users[j].username != users[i].username;
      }
    }
  }

  predicate ReviewValid(f: ReviewForm)
  {
    Required(f.username) && |f.text| <= ReviewTextMax
  }

  predicate TopicValid(f: TopicForm)
  {
    && Required(f.title) && 1 <= |f.title| <= TitleMax
    && Required(f.body) && 1 <= |f.body| <= TopicBodyMax
  }

  predicate CommentValid(f: CommentForm)
  {
    Required(f.body) && 1 <= |f.body| <= CommentBodyMax
  }

  /** Every accepted topic fits the title and body columns. */
  lemma TopicFormFitsColumns(f: TopicForm, id: TopicId, author: UserId, now: Timestamp)
    requires TopicValid(f)
    ensures TopicFits(Topic(id, author, f.title, f.body, now))
  {
  }

  /** The comment form accepts up to 5000 characters but the column holds
      3000: a 3001-character comment passes the form and does not fit. */
  lemma CommentFormExceedsColumn(author: UserId, topic: TopicId, now: Timestamp)
    ensures var f := CommentForm(seq(CommentBodyWidth + 1, _ => 'a'));
            CommentValid(f) && !CommentFits(Comment(author, topic, f.body, now))
  {
    var f := CommentForm(seq(CommentBodyWidth + 1, _ => 'a'));
    assert !IsSpace(f.body[0]);
  }

  /** The review form accepts up to 2000 characters but the column holds
      140: a 141-character review passes the form and does not fit. */
  lemma ReviewFormExceedsColumn(author: UserId, now: Timestamp)
    ensures var f := ReviewForm("guest", seq(ReviewBodyWidth + 1, _ => 'a'));
            ReviewValid(f) && !ReviewFits(Review(author, f.text, now, f.username))
  {
    var f := ReviewForm("guest", seq(ReviewBodyWidth + 1, _ => 'a'));
    assert !IsSpace(f.username[0]);
  }
}
