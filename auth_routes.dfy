/**
 * The session handlers `/register`, `/login`, `/logout` and `/refresh` over the
 * user collection. Each handler is one atomic step; password checking and
 * identifier syntax belong to the unseen user model and arrive as functions.
 */
module AuthRoutes {
  import opened Wrappers
  import opened Text
  import opened Records
  import opened Tokens
  import opened Http

  /**
   * The response of a successful register or login: the access token and the user's projection in
   * the body, the refresh token only in an http-only cookie whose lifetime is the refresh lifetime.
   */
  function SessionReply(k: Codec, status: int, m: Message, id: Id, u: User, now: int): (r: Response)
    ensures r.status == status && r.message == Some(m)
    ensures r.payload == Session(Issue(k, id, AccessTtl, now), View(id, u))
    ensures r.cookie == Some(SetRefreshCookie(Issue(k, id, RefreshTtl, now), true, RefreshTtl * 1000))
  {
    Response(status, Some(m),
      Some(SetRefreshCookie(Issue(k, id, RefreshTtl, now), true, RefreshCookieMaxAgeMs)),
      Session(Issue(k, id, AccessTtl, now), View(id, u)))
  }

  /** `POST /logout`: always 200, clears the refresh cookie, touches no stored state. */
  method Logout() returns (r: Response)
    ensures r.status == 200 && r.message == Some(LoggedOut)
    ensures r.cookie == Some(ClearRefreshCookie(true)) && r.payload.NoPayload?
  {
    r := Response(200, Some(LoggedOut), Some(ClearRefreshCookie(true)), NoPayload);
  }

  /** The access token in a session body is never the refresh token of the same session. */
  lemma RefreshTokenNotInBody(k: Codec, status: int, m: Message, id: Id, u: User, now: int)
    requires Sound(k)
    ensures var r := SessionReply(k, status, m, id, u, now);
      r.payload.accessToken != r.cookie.value.token
  {
    var a := Claims(id, now, now + AccessTtl);
    var b := Claims(id, now, now + RefreshTtl);
    assert k.open(k.sign(a)) == Ok(a) && k.open(k.sign(b)) == Ok(b);
  }

  /**
   * Tokens handed out by a session are bound to the user's id: the access token verifies to it for
   * one minute, the refresh token for thirty days, and neither verifies afterwards.
   */
  lemma {:induction false} SessionTokensBoundToUser(k: Codec, status: int, m: Message, id: Id, u: User, now: int, t: int)
    requires Sound(k)
    ensures var r := SessionReply(k, status, m, id, u, now);
      && Verify(k, r.payload.accessToken, t) == (if t < now + 60 then Ok(id) else Err(Expired))
      && Verify(k, r.cookie.value.token, t) == (if t < now + 2592000 then Ok(id) else Err(Expired))
  {
    VerifyIssued(k, id, AccessTtl, now, t);
    VerifyIssued(k, id, RefreshTtl, now, t);
  }

  /** No two users share an email. */
  ghost predicate UniqueEmails(users: map<Id, User>)
  {
    forall a, b :: a in users && b in users && users[a].email == users[b].email ==> a == b
  }

  /** Adding a user under a fresh id with an email nobody has keeps emails unique. */
  lemma AddKeepsEmailsUnique(users: map<Id, User>, newId: Id, u: User)
    requires UniqueEmails(users) && newId !in users
    requires forall id :: id in users ==> users[id].email != u.email
    ensures UniqueEmails(users[newId := u])
  {
  }

  /** The user collection. */
  class UserTable {
    var users: map<Id, User>
    /** The token signer and verifier for the process-wide secret. */
    const codec: Codec
    /** `mongoose.Types.ObjectId.isValid`. */
    const isValidId: Id -> bool
    /** `user.matchPassword(candidate)`. */
    const matchPassword: (User, string) -> bool

    /** Emails are unique (register refuses duplicates) and every stored id is well formed. */
    ghost predicate Valid()
      reads this
    {
      && UniqueEmails(users)
      && (forall id :: id in users ==> isValidId(id))
    }

    constructor (codec: Codec, isValidId: Id -> bool, matchPassword: (User, string) -> bool)
      ensures Valid() && users == map[]
      ensures this.codec == codec && this.isValidId == isValidId && this.matchPassword == matchPassword
    {
      this.codec := codec;
      this.isValidId := isValidId;
      this.matchPassword := matchPassword;
      users := map[];
    }

    /** `User.findOne({ email })` finds a document. */
    function EmailTaken(email: string): (b: bool)
      reads this
      ensures b <==> exists u :: u in users.Values && u.email == email
    {
      exists id :: id in users && users[id].email == email
    }

    /**
     * `POST /register`. `newId` is the fresh, well-formed id the store assigns on create.
     */
    method Register(name: Option<string>, email: Option<string>, password: Option<string>, newId: Id, now: int)
      returns (r: Response)
      requires Valid()
      requires newId !in users && isValidId(newId)
      modifies this`users
      ensures Valid()
      ensures Blank(name) || Blank(email) || Blank(password) ==>
        r == Reply(400, NameEmailPasswordRequired) && users == old(users)
      ensures !Blank(name) && !Blank(email) && !Blank(password) && old(EmailTaken(email.value)) ==>
        r == Reply(400, UserAlreadyExists) && users == old(users)
      ensures !Blank(name) && !Blank(email) && !Blank(password) && !old(EmailTaken(email.value)) ==>
        && users == old(users)[newId := User(name.value, email.value, password.value)]
        && r == SessionReply(codec, 201, UserRegistered, newId, users[newId], now)
    {
      if Blank(name) || Blank(email) || Blank(password) {
        r := Reply(400, NameEmailPasswordRequired);
        return;
      }
      if EmailTaken(email.value) {
        r := Reply(400, UserAlreadyExists);
        return;
      }
      var u := User(name.value, email.value, password.value);
      AddKeepsEmailsUnique(users, newId, u);
      users := users[newId := u];
      r := SessionReply(codec, 201, UserRegistered, newId, u, now);
    }

    /**
     * `POST /login`. An unknown email and a wrong password give the very same reply.
     */
    method Login(email: Option<string>, password: Option<string>, now: int) returns (r: Response)
      requires Valid()
      ensures Blank(email) || Blank(password) ==> r == Reply(400, EmailPasswordRequired)
      ensures !Blank(email) && !Blank(password) && !EmailTaken(email.value) ==> r == Reply(401, InvalidCredentials)
      ensures !Blank(email) && !Blank(password) ==>
        forall id :: id in users && users[id].email == email.value ==>
          r == if matchPassword(users[id], password.value)
               then SessionReply(codec, 200, LoginSuccessful, id, users[id], now)
               else Reply(401, InvalidCredentials)
    {
      if Blank(email) || Blank(password) {
        r := Reply(400, EmailPasswordRequired);
        return;
      }
      if !EmailTaken(email.value) {
        r := Reply(401, InvalidCredentials);
        return;
      }
      var id :| id in users && users[id].email == email.value;
      if !matchPassword(users[id], password.value) {
        r := Reply(401, InvalidCredentials);
        return;
      }
      r := SessionReply(codec, 200, LoginSuccessful, id, users[id], now);
    }

    /**
     * `POST /refresh`. Every failure (no cookie, a token that does not verify, a subject that is not
     * a well-formed id or no longer a user) is the one reply 401 "Invalid refresh token"; success issues
     * a new access token only and sets no cookie.
     */
    method Refresh(cookie: Option<string>, now: int) returns (r: Response)
      requires Valid()
      ensures r.status == 200 || r == Reply(401, InvalidRefreshToken)
      ensures r.status == 200 <==>
        && cookie.Some? && cookie.value != ""
        && Verify(codec, cookie.value, now).Ok?
        && Verify(codec, cookie.value, now).value in users
      ensures r.status == 200 ==>
        var id := Verify(codec, cookie.value, now).value;
        r == Response(200, Some(NewAccessTokenGenerated), None, Session(Issue(codec, id, AccessTtl, now), View(id, users[id])))
    {
      if cookie.None? || cookie.value == "" {
        r := Reply(401, InvalidRefreshToken);
        return;
      }
      var verified := Verify(codec, cookie.value, now);
      if verified.Err? || !isValidId(verified.value) || verified.value !in users {
        r := Reply(401, InvalidRefreshToken);
        return;
      }
      var id := verified.value;
      r := Response(200, Some(NewAccessTokenGenerated), None, Session(Issue(codec, id, AccessTtl, now), View(id, users[id])));
    }
  }
}
