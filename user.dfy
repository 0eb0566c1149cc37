/** The account handlers: token issue, registration, login, logout, token
    refresh, password change and profile update. Signing and verifying tokens
    and hashing passwords are abstract: a token is the value it carries, and
    a password matches when it equals the stored credential. */
module UserController {
  import opened Common
  import opened Order
  import opened Store
  import opened Cloudinary

  /** The pair of tokens a successful login or refresh hands out. */
  datatype Tokens = Tokens(accessToken: Jwt, refreshToken: Jwt)

  /** `generateAccessAndRefreshToken(userId)`: both tokens are issued for the
      user at `stamp`, and the refresh token is stored on the user; a missing
      user makes the helper fail with 500. */
  method GenerateAccessAndRefreshToken(db: Db, userId: Id, stamp: nat) returns (r: Outcome<Tokens>)
    requires db.Valid()
    modifies db`users
    ensures db.Valid()
    ensures r.Err? <==> userId !in old(db.users)
    ensures r.Err? ==> r.status == ServerError && unchanged(db)
    ensures r.Ok? ==>
      && r.value == Tokens(Jwt(AccessToken, userId, stamp), Jwt(RefreshToken, userId, stamp))
      && db.users == old(db.users)[userId := old(db.users)[userId].(refreshToken := Some(r.value.refreshToken))]
  {
    if userId !in db.users {
      return Err(ServerError);
    }
    var tokens := Tokens(Jwt(AccessToken, userId, stamp), Jwt(RefreshToken, userId, stamp));
    db.users := db.users[userId := db.users[userId].(refreshToken := Some(tokens.refreshToken))];
    return Ok(tokens);
  }

  /** No two accounts share a username or an email. */
  predicate UniqueAccounts(users: map<Id, User>) {
    forall j, k :: j in users && k in users && j != k ==>
      users[j].username != users[k].username && users[j].email != users[k].email
  }

  /** Storing an account whose username and email are both new keeps the
      accounts unique. */
  lemma InsertKeepsUnique(users: map<Id, User>, id: Id, u: User)
    requires UniqueAccounts(users) && id !in users
    requires !IndexClash(users, u.username, u.email)
    ensures UniqueAccounts(users[id := u])
  {
  }

  /** `findOne({$or: [{username}, {email}]})` finds something. */
  predicate AccountExists(users: map<Id, User>, username: string, email: string) {
    exists k :: k in users && (users[k].username == username || users[k].email == email)
  }

  /** The unique indexes on username and email refuse a document that
      repeats either of them. */
  predicate IndexClash(users: map<Id, User>, username: string, email: string) {
    AccountExists(users, username, email)
  }

  /** The uploaded files of the registration form, by field. */
  datatype UserFiles = UserFiles(avatar: Option<string>, coverImage: Option<string>)

  /** `req.files?.<field>[0].path`: `None` when there are no files at all
      (undefined), `Some(None)` when the field is missing (the index throws),
      and the path otherwise. */
  function FilePath(files: Option<UserFiles>, avatarField: bool): Option<Option<string>>
  {
    if files.None? then Some(None)
    else
      var field := if avatarField then files.value.avatar else files.value.coverImage;
      if field.None? then None else Some(field)
  }

  /** Every field of the registration form is present and not blank. */
  predicate FieldsFilled(fullName: string, username: string, email: string, password: string) {
    Trim(email) != "" && Trim(username) != "" && Trim(fullName) != "" && Trim(password) != ""
  }

  /** The account a successful registration stores. */
  function NewAccount(fullName: string, username: string, email: string, password: string,
                      avatar: Upload, cover: Option<Upload>): (u: User)
    ensures u.username == ToLower(username) && u.email == email && u.fullName == fullName
    ensures u.avatar == avatar.url && u.password == password
    ensures cover.None? ==> u.coverImage == ""
    ensures cover.Some? ==> u.coverImage == cover.value.url
    ensures u.watchHistory == [] && u.refreshToken.None?
  {
    User(ToLower(username), email, fullName, avatar.url, if cover.Some? then cover.value.url else "",
         password, [], None)
  }

  /** The steps of `registerUser` up to the insert: 400 for a blank field,
      409 when an account with `lookupName` or the email exists, 404 without
      an avatar path, 500 when a file field is missing or the avatar upload
      fails; otherwise the account to store. */
  function Registration(users: map<Id, User>, fullName: string, username: string, email: string, password: string,
                        files: Option<UserFiles>, avatarReply: Option<Upload>, coverReply: Option<Upload>,
                        lookupName: string): (r: Outcome<User>)
    ensures !FieldsFilled(fullName, username, email, password) ==> r == Err(BadRequest)
    ensures FieldsFilled(fullName, username, email, password) && AccountExists(users, lookupName, email)
            ==> r == Err(Conflict)
    ensures (FieldsFilled(fullName, username, email, password) && !AccountExists(users, lookupName, email)
             && (files.None? || files.value.avatar == Some(""))) ==> r == Err(NotFound)
    ensures (FieldsFilled(fullName, username, email, password) && !AccountExists(users, lookupName, email)
             && files.Some? && files.value.avatar.None?) ==> r == Err(ServerError)
    ensures (FieldsFilled(fullName, username, email, password) && !AccountExists(users, lookupName, email)
             && files.Some? && Truthy(files.value.avatar) && files.value.coverImage.None?) ==> r == Err(ServerError)
    ensures (FieldsFilled(fullName, username, email, password) && !AccountExists(users, lookupName, email)
             && files.Some? && Truthy(files.value.avatar) && files.value.coverImage.Some? && avatarReply.None?)
            ==> r == Err(ServerError)
    ensures r.Ok? <==>
      && FieldsFilled(fullName, username, email, password) && !AccountExists(users, lookupName, email)
      && files.Some? && Truthy(files.value.avatar) && files.value.coverImage.Some? && avatarReply.Some?
    ensures r.Ok? ==>
      r.value == NewAccount(fullName, username, email, password, avatarReply.value,
                            UploadOnCloudinary(files.value.coverImage, coverReply))
  {
    if !FieldsFilled(fullName, username, email, password) then Err(BadRequest)
    else if AccountExists(users, lookupName, email) then Err(Conflict)
    else
      var avatarPath := FilePath(files, true);
      if avatarPath.None? then Err(ServerError)
      else if !Truthy(avatarPath.value) then Err(NotFound)
      else
        var avatar := UploadOnCloudinary(avatarPath.value, avatarReply);
        var coverPath := FilePath(files, false);
        if coverPath.None? then Err(ServerError)
        else
          var cover := UploadOnCloudinary(coverPath.value, coverReply);
          // `avatar.url` on null throws.
          if avatar.None? then Err(ServerError)
          else Ok(NewAccount(fullName, username, email, password, avatar.value, cover))
  }

  /** Stores a prepared account unless the unique indexes refuse it (500). */
  method Insert(db: Db, account: User) returns (r: Outcome<Id>)
    requires db.Valid()
    modifies db`users, db`nextId
    ensures db.Valid()
    ensures r.Err? <==> IndexClash(old(db.users), account.username, account.email)
    ensures r.Err? ==> r.status == ServerError && unchanged(db)
    ensures r.Ok? ==>
      && r.value == old(db.nextId) && db.nextId == r.value + 1
      && db.users == old(db.users)[r.value := account]
    ensures UniqueAccounts(old(db.users)) ==> UniqueAccounts(db.users)
  {
    if IndexClash(db.users, account.username, account.email) {
      return Err(ServerError);
    }
    var id := db.NewId();
    if UniqueAccounts(db.users) {
      InsertKeepsUnique(db.users, id, account);
    }
    db.users := db.users[id := account];
    return Ok(id);
  }

  /** `registerUser` as written. The duplicate check looks for the name as
      given, but the name is stored in lower case, so a name that differs
      from a stored one only in case passes the check and is then refused by
      the unique index (500). `avatarReply` and `coverReply` are the media
      host's answers to the two uploads. */
  method RegisterUser(db: Db, fullName: string, username: string, email: string, password: string,
                      files: Option<UserFiles>, avatarReply: Option<Upload>, coverReply: Option<Upload>)
    returns (r: Outcome<Id>)
    requires db.Valid()
    modifies db`users, db`nextId
    ensures db.Valid()
    ensures var prepared := old(Registration(db.users, fullName, username, email, password, files, avatarReply,
                                             coverReply, username));
            && (prepared.Err? ==> r == Err(prepared.status))
            && (prepared.Ok? && IndexClash(old(db.users), ToLower(username), email) ==> r == Err(ServerError))
            && (prepared.Ok? && !IndexClash(old(db.users), ToLower(username), email) ==>
                  r == Ok(old(db.nextId)) && db.users == old(db.users)[r.value := prepared.value])
    ensures r.Err? ==> unchanged(db)
    ensures UniqueAccounts(old(db.users)) ==> UniqueAccounts(db.users)
  {
    var prepared := Registration(db.users, fullName, username, email, password, files, avatarReply,
                                 coverReply, username);
    if prepared.Err? {
      return Err(prepared.status);
    }
    r := Insert(db, prepared.value);
  }

  /** A name that differs from a stored one only in case passes the
      duplicate check of `registerUser` and yet collides with the stored
      lower-case name. */
  lemma CaseVariantPassesDuplicateCheck()
    ensures var users := map[0 := User("alice", "alice@example.com", "Alice", "a.png", "", "pw", [], None)];
            && !AccountExists(users, "Alice", "other@example.com")
            && IndexClash(users, ToLower("Alice"), "other@example.com")
  {
    var users := map[0 := User("alice", "alice@example.com", "Alice", "a.png", "", "pw", [], None)];
    assert ToLower("Alice") == "alice" by {
      assert ToLower("Alice") == [LowerChar('A')] + ToLower("lice");
    }
    assert users[0].username == ToLower("Alice");
  }

  /** `registerUser` with the duplicate check made on the name as it will be
      stored: every collision is reported as 409 and the unique index never
      refuses an account. */
  method RegisterUserChecked(db: Db, fullName: string, username: string, email: string, password: string,
                             files: Option<UserFiles>, avatarReply: Option<Upload>, coverReply: Option<Upload>)
    returns (r: Outcome<Id>)
    requires db.Valid()
    modifies db`users, db`nextId
    ensures db.Valid()
    ensures var prepared := old(Registration(db.users, fullName, username, email, password, files, avatarReply,
                                             coverReply, ToLower(username)));
            && (prepared.Err? ==> r == Err(prepared.status))
            && (prepared.Ok? ==> r == Ok(old(db.nextId)) && db.users == old(db.users)[r.value := prepared.value])
    ensures FieldsFilled(fullName, username, email, password) && IndexClash(old(db.users), ToLower(username), email)
            ==> r == Err(Conflict)
    ensures r.Err? ==> unchanged(db)
    ensures UniqueAccounts(old(db.users)) ==> UniqueAccounts(db.users)
  {
    var prepared := Registration(db.users, fullName, username, email, password, files, avatarReply,
                                 coverReply, ToLower(username));
    if prepared.Err? {
      return Err(prepared.status);
    }
    r := Insert(db, prepared.value);
  }

  /** `{username}` / `{email}` with the field absent from the body matches
      no account. */
  predicate Matches(u: User, username: Option<string>, email: Option<string>) {
    (username.Some? && u.username == username.value) || (email.Some? && u.email == email.value)
  }

  function MatchingAccounts(users: map<Id, User>, username: Option<string>, email: Option<string>): set<Id> {
    set k | k in users && Matches(users[k], username, email)
  }

  /** What a successful login answers. */
  datatype Login = Login(user: Id, tokens: Tokens)

  /** `loginUser`: 400 without a username and an email, 400 without a
      password, 404 when no account matches, 400 when the password is wrong;
      otherwise the first matching account gets a fresh pair of tokens and
      keeps the refresh token. */
  method LoginUser(db: Db, username: Option<string>, email: Option<string>, password: Option<string>, stamp: nat)
    returns (r: Outcome<Login>)
    requires db.Valid()
    modifies db`users
    ensures db.Valid()
    ensures !Truthy(username) && !Truthy(email) ==> r == Err(BadRequest)
    ensures (Truthy(username) || Truthy(email)) && !Truthy(password) ==> r == Err(BadRequest)
    ensures ((Truthy(username) || Truthy(email)) && Truthy(password)
             && MatchingAccounts(old(db.users), username, email) == {}) ==> r == Err(NotFound)
    ensures r.Err? ==> unchanged(db)
    ensures r.Ok? ==>
      var u := r.value.user;
      && u in MatchingAccounts(old(db.users), username, email)
      && (forall k :: k in MatchingAccounts(old(db.users), username, email) ==> u <= k)
      && Truthy(password) && old(db.users)[u].password == password.value
      && r.value.tokens == Tokens(Jwt(AccessToken, u, stamp), Jwt(RefreshToken, u, stamp))
      && db.users == old(db.users)[u := old(db.users)[u].(refreshToken := Some(r.value.tokens.refreshToken))]
    ensures (Truthy(username) || Truthy(email)) && Truthy(password) ==>
      forall u :: u in MatchingAccounts(old(db.users), username, email)
                  && (forall k :: k in MatchingAccounts(old(db.users), username, email) ==> u <= k) ==>
        && (r.Ok? <==> old(db.users)[u].password == password.value)
        && (old(db.users)[u].password != password.value ==> r == Err(BadRequest))
    ensures r.Ok? ==> db.users[r.value.user].refreshToken == Some(r.value.tokens.refreshToken)
  {
    if !Truthy(username) && !Truthy(email) {
      return Err(BadRequest);
    }
    if !Truthy(password) {
      return Err(BadRequest);
    }
    var matching := MatchingAccounts(db.users, username, email);
    FirstOfBounded(matching, db.nextId);
    var user := First(matching, db.nextId);
    if user.None? {
      return Err(NotFound);
    }
    if db.users[user.value].password != password.value {
      return Err(BadRequest);
    }
    var tokens := GenerateAccessAndRefreshToken(db, user.value, stamp);
    return Ok(Login(user.value, tokens.value));
  }

  /** `logoutUser`: the requester's stored refresh token is removed; nothing
      happens to an account that does not exist. */
  method LogoutUser(db: Db, me: Id) returns (r: Outcome<()>)
    requires db.Valid()
    modifies db`users
    ensures db.Valid() && r.Ok?
    ensures me in old(db.users) ==> db.users == old(db.users)[me := old(db.users)[me].(refreshToken := None)]
    ensures me !in old(db.users) ==> db.users == old(db.users)
  {
    if me in db.users {
      db.users := db.users[me := db.users[me].(refreshToken := None)];
    }
    return Ok(());
  }

  /** A refresh token as it arrives in a cookie or in the body: a token the
      server signed, or a string that is not one. */
  datatype TokenParam = Signed(token: Jwt) | Garbled(raw: string)

  predicate TokenTruthy(t: Option<TokenParam>) {
    t.Some? && t.value != Garbled("")
  }

  /** `req.cookies.refreshToken || req.body.refreshToken`. */
  function Incoming(cookie: Option<TokenParam>, body: Option<TokenParam>): Option<TokenParam> {
    if TokenTruthy(cookie) then cookie else body
  }

  /** The checks of `refreshAccessToken` before the rotation: the token must
      be there, verify as a refresh token, name a stored user, and be the one
      that user holds. Answers the user or the status (always 401). */
  function RefreshCheck(users: map<Id, User>, incoming: Option<TokenParam>): (r: Outcome<Id>)
    ensures r.Err? ==> r.status == Unauthorized
    ensures r.Ok? <==>
      && incoming.Some? && incoming.value.Signed? && incoming.value.token.kind == RefreshToken
      && incoming.value.token.subject in users
      && users[incoming.value.token.subject].refreshToken == Some(incoming.value.token)
    ensures r.Ok? ==> r.value == incoming.value.token.subject
  {
    if !TokenTruthy(incoming) then Err(Unauthorized)
    else if incoming.value.Garbled? || incoming.value.token.kind != RefreshToken then Err(Unauthorized)
    else
      var subject := incoming.value.token.subject;
      if subject !in users then Err(Unauthorized)
      else if users[subject].refreshToken != Some(incoming.value.token) then Err(Unauthorized)
      else Ok(subject)
  }

  /** Only the refresh token a user currently holds is accepted: a token that
      has been replaced, or any token of a user who logged out, is refused. */
  lemma OnlyCurrentTokenAccepted(users: map<Id, User>, t: Jwt)
    requires t.subject in users && users[t.subject].refreshToken != Some(t)
    ensures RefreshCheck(users, Some(Signed(t))).Err?
  {
  }

  /** After logout no refresh token of that user is accepted. */
  lemma {:induction false} LoggedOutRejected(users: map<Id, User>, me: Id, t: Jwt)
    requires me in users && t.subject == me
    ensures RefreshCheck(users[me := users[me].(refreshToken := None)], Some(Signed(t))).Err?
  {
    OnlyCurrentTokenAccepted(users[me := users[me].(refreshToken := None)], t);
  }

  /** `refreshAccessToken`: the checks above, then a fresh pair of tokens for
      that user, whose new refresh token replaces the old one. */
  method RefreshAccessToken(db: Db, cookie: Option<TokenParam>, body: Option<TokenParam>, stamp: nat)
    returns (r: Outcome<Tokens>)
    requires db.Valid()
    modifies db`users
    ensures db.Valid()
    ensures r.Err? <==> old(RefreshCheck(db.users, Incoming(cookie, body))).Err?
    ensures r.Err? ==> r.status == Unauthorized && unchanged(db)
    ensures r.Ok? ==>
      var u := old(RefreshCheck(db.users, Incoming(cookie, body))).value;
      && r.value == Tokens(Jwt(AccessToken, u, stamp), Jwt(RefreshToken, u, stamp))
      && db.users == old(db.users)[u := old(db.users)[u].(refreshToken := Some(r.value.refreshToken))]
      && db.users[u].refreshToken == Some(r.value.refreshToken)
  {
    var check := RefreshCheck(db.users, Incoming(cookie, body));
    if check.Err? {
      return Err(Unauthorized);
    }
    r := GenerateAccessAndRefreshToken(db, check.value, stamp);
  }

  /** Presenting the same refresh token twice: once the first refresh has
      rotated it (at a different time than the token was issued), the
      second is refused and changes nothing. */
  method RefreshTwice(db: Db, token: Jwt, stamp: nat) returns (first: Outcome<Tokens>, second: Outcome<Tokens>)
    requires db.Valid()
    requires stamp != token.issuedAt
    modifies db`users
    ensures db.Valid()
    ensures second == Err(Unauthorized)
    ensures first.Ok? ==> token.subject in db.users && db.users[token.subject].refreshToken == Some(first.value.refreshToken)
  {
    first := RefreshAccessToken(db, Some(Signed(token)), None, stamp);
    if first.Ok? {
      OnlyCurrentTokenAccepted(db.users, token);
    }
    second := RefreshAccessToken(db, Some(Signed(token)), None, stamp);
  }

  /** `changeCurrentPassword`: a missing requester makes `user.isPasswordCorrect`
      throw (500); a wrong old password is 400 and keeps the password;
      otherwise only the password changes. */
  method ChangeCurrentPassword(db: Db, me: Id, oldPassword: string, newPassword: string) returns (r: Outcome<()>)
    requires db.Valid()
    modifies db`users
    ensures db.Valid()
    ensures me !in old(db.users) ==> r == Err(ServerError)
    ensures me in old(db.users) && old(db.users)[me].password != oldPassword ==> r == Err(BadRequest)
    ensures r.Err? ==> unchanged(db)
    ensures r.Ok? <==> me in old(db.users) && old(db.users)[me].password == oldPassword
    ensures r.Ok? ==> db.users == old(db.users)[me := old(db.users)[me].(password := newPassword)]
  {
    if me !in db.users {
      return Err(ServerError);
    }
    if db.users[me].password != oldPassword {
      return Err(BadRequest);
    }
    db.users := db.users[me := db.users[me].(password := newPassword)];
    return Ok(());
  }

  /** `updateAccountDetails`: 400 unless both fields are truthy; a missing
      requester is answered with no user; an email another account holds is
      refused by the unique index (500); otherwise only the display name and
      the email change. */
  method UpdateAccountDetails(db: Db, me: Id, fullName: Option<string>, email: Option<string>)
    returns (r: Outcome<Option<User>>)
    requires db.Valid()
    modifies db`users
    ensures db.Valid()
    ensures !Truthy(fullName) || !Truthy(email) ==> r == Err(BadRequest)
    ensures (Truthy(fullName) && Truthy(email) && me !in old(db.users)) ==> r == Ok(None)
    ensures (Truthy(fullName) && Truthy(email) && me in old(db.users)
             && !EmailTakenByOther(old(db.users), me, email.value)) ==> r.Ok? && r.value.Some?
    ensures (Truthy(fullName) && Truthy(email) && me in old(db.users)
             && EmailTakenByOther(old(db.users), me, email.value)) ==> r == Err(ServerError)
    ensures r.Err? || r.value.None? ==> unchanged(db)
    ensures r.Ok? && r.value.Some? ==>
      && me in old(db.users) && !EmailTakenByOther(old(db.users), me, email.value)
      && r.value.value == old(db.users)[me].(fullName := fullName.value, email := email.value)
      && db.users == old(db.users)[me := r.value.value]
    ensures UniqueAccounts(old(db.users)) ==> UniqueAccounts(db.users)
  {
    if !Truthy(fullName) || !Truthy(email) {
      return Err(BadRequest);
    }
    if me !in db.users {
      return Ok(None);
    }
    if EmailTakenByOther(db.users, me, email.value) {
      return Err(ServerError);
    }
    var updated := db.users[me].(fullName := fullName.value, email := email.value);
    db.users := db.users[me := updated];
    return Ok(Some(updated));
  }

  predicate EmailTakenByOther(users: map<Id, User>, me: Id, email: string) {
    exists k :: k in users && k != me && users[k].email == email
  }
}
