/**
 * The `protect` gate in front of the idea handlers that change data: it reads a
 * bearer token from the `Authorization` header, verifies it, looks its subject up
 * in the user table and either rejects with 401 or attaches the user's projection
 * to the request and hands on to the next handler.
 */
module AuthMiddleware {
  import opened Wrappers
  import opened Text
  import opened Records
  import opened Tokens
  import opened Http

  /** The scheme prefix, matched case-sensitively. */
  const BearerPrefix: string := "Bearer "

  datatype Decision = Reject(message: Message) | Pass(user: UserView)

  /** `authHeader.split(" ")[1]`: the second space-separated field of the header. */
  function BearerToken(header: string): (token: string)
    requires StartsWith(header, BearerPrefix)
    ensures ' ' !in token
  {
    var rest := header[|BearerPrefix|..];
    assert header == "Bearer" + [' '] + rest;
    SplitAfterPiece("Bearer", ' ', rest);
    Split(header, ' ')[1]
  }

  /** The gate's decision, in the order the source makes it. */
  function Protect(header: Option<string>, users: map<Id, User>, k: Codec, isValidId: Id -> bool, now: int): (d: Decision)
    ensures d.Pass? <==>
      && header.Some? && StartsWith(header.value, BearerPrefix)
      && Verify(k, BearerToken(header.value), now).Ok?
      && isValidId(Verify(k, BearerToken(header.value), now).value)
      && Verify(k, BearerToken(header.value), now).value in users
    ensures d.Pass? ==>
      && d.user.id == Verify(k, BearerToken(header.value), now).value
      && d.user == View(d.user.id, users[d.user.id])
    ensures header.None? || !StartsWith(header.value, BearerPrefix) ==> d == Reject(NotAuthorizedNoToken)
    ensures header.Some? && StartsWith(header.value, BearerPrefix) ==>
      var v := Verify(k, BearerToken(header.value), now);
      && (v.Err? || !isValidId(v.value) ==> d == Reject(NotAuthorizedTokenFailed))
      && (v.Ok? && isValidId(v.value) && v.value !in users ==> d == Reject(UserNotFound))
  {
    if header.None? || !StartsWith(header.value, BearerPrefix) then Reject(NotAuthorizedNoToken)
    else
      match Verify(k, BearerToken(header.value), now)
      case Err(_) => Reject(NotAuthorizedTokenFailed)
      case Ok(sub) =>
        // `findById` throws a cast error for a malformed id, which the catch turns into "token failed"
        if !isValidId(sub) then Reject(NotAuthorizedTokenFailed)
        else if sub !in users then Reject(UserNotFound)
        else Pass(View(sub, users[sub]))
  }

  /** The 401 reply sent for a rejection. */
  function Rejection(d: Decision): (r: Response)
    requires d.Reject?
    ensures r.status == 401 && r.message == Some(d.message) && r.cookie.None? && r.payload.NoPayload?
  {
    Reply(401, d.message)
  }

  /** The token is the header's text after "Bearer " up to the next space, so "Bearer " and "Bearer  x" give "". */
  lemma {:induction false} BearerTokenIsSecondField(rest: string)
    ensures var token := BearerToken(BearerPrefix + rest);
      token <= rest && ' ' !in token && (|token| == |rest| || rest[|token|] == ' ')
    ensures BearerToken(BearerPrefix) == "" && BearerToken(BearerPrefix + " x") == ""
  {
    assert BearerPrefix + rest == "Bearer" + [' '] + rest;
    SplitAfterPiece("Bearer", ' ', rest);
    FirstField(rest, ' ');
    assert BearerPrefix == "Bearer" + [' '] + "";
    SplitAfterPiece("Bearer", ' ', "");
    assert BearerPrefix + " x" == "Bearer" + [' '] + " x";
    SplitAfterPiece("Bearer", ' ', " x");
    assert " x" == "" + [' '] + "x";
    SplitAfterPiece("", ' ', "x");
  }

  /** A compact token sent as "Bearer <token>" reaches verification intact. */
  lemma {:induction false} BearerTokenOfCompact(token: string)
    requires CompactText(token)
    ensures BearerToken(BearerPrefix + token) == token
  {
    assert BearerPrefix + token == "Bearer" + [' '] + token;
    SplitAfterPiece("Bearer", ' ', token);
    SplitPiece(token, ' ');
  }

  /** Without a header that begins with exactly "Bearer ", the answer is "no token", whatever the tables, secret or clock. */
  lemma NoBearerConsultsNothing(header: Option<string>, users: map<Id, User>, users': map<Id, User>,
                                k: Codec, k': Codec, isValidId: Id -> bool, isValidId': Id -> bool, now: int, now': int)
    requires header.None? || !StartsWith(header.value, BearerPrefix)
    ensures Protect(header, users, k, isValidId, now) == Reject(NotAuthorizedNoToken)
    ensures Protect(header, users, k, isValidId, now) == Protect(header, users', k', isValidId', now')
  {
  }

  /** The header "Bearer " carries the empty token, which never verifies. */
  lemma EmptyBearerFails(users: map<Id, User>, k: Codec, isValidId: Id -> bool, now: int)
    requires Sound(k)
    ensures Protect(Some(BearerPrefix), users, k, isValidId, now) == Reject(NotAuthorizedTokenFailed)
  {
    BearerTokenIsSecondField("");
    assert BearerPrefix + "" == BearerPrefix;
    EmptyNeverVerifies(k, now);
  }

  /**
   * An access token issued for a stored user opens the gate until it expires, and the request then
   * carries that user's projection; afterwards the gate answers "token failed".
   */
  lemma {:induction false} IssuedAccessTokenPasses(users: map<Id, User>, k: Codec, isValidId: Id -> bool, id: Id, issuedAt: int, now: int)
    requires Sound(k) && id in users && isValidId(id)
    ensures var d := Protect(Some(BearerPrefix + Issue(k, id, AccessTtl, issuedAt)), users, k, isValidId, now);
      d == if now < issuedAt + AccessTtl then Pass(View(id, users[id])) else Reject(NotAuthorizedTokenFailed)
  {
    var token := Issue(k, id, AccessTtl, issuedAt);
    assert CompactText(token);
    BearerTokenOfCompact(token);
    VerifyIssued(k, id, AccessTtl, issuedAt, now);
  }

  /** A live token whose user has since been deleted is refused with "user not found". */
  lemma {:induction false} DeletedUserIsNotFound(users: map<Id, User>, k: Codec, isValidId: Id -> bool, id: Id, ttl: int, issuedAt: int, now: int)
    requires Sound(k) && id !in users && isValidId(id) && now < issuedAt + ttl
    ensures Protect(Some(BearerPrefix + Issue(k, id, ttl, issuedAt)), users, k, isValidId, now) == Reject(UserNotFound)
  {
    var token := Issue(k, id, ttl, issuedAt);
    assert CompactText(token);
    BearerTokenOfCompact(token);
    VerifyIssued(k, id, ttl, issuedAt, now);
  }

  /** Whoever passes the gate presented a live token that was signed for exactly that user. */
  lemma PassMeansIssued(header: Option<string>, users: map<Id, User>, k: Codec, isValidId: Id -> bool, now: int)
    requires Sound(k)
    requires Protect(header, users, k, isValidId, now).Pass?
    ensures var u := Protect(header, users, k, isValidId, now).user;
      exists c :: BearerToken(header.value) == k.sign(c) && c.id == u.id && now < c.exp && u.id in users
  {
    VerifiedWasIssued(k, BearerToken(header.value), now);
  }

  /** A request under `protect`: the only things the gate changes are `req.user` and whether `next` ran. */
  class Request {
    const authorization: Option<string>
    var user: Option<UserView>
    var nextCalls: nat

    constructor (authorization: Option<string>)
      ensures this.authorization == authorization && user.None? && nextCalls == 0
    {
      this.authorization := authorization;
      user := None;
      nextCalls := 0;
    }

    /** Runs the gate once: on a pass sets `req.user` and calls `next` once, otherwise replies 401. */
    method Run(users: map<Id, User>, k: Codec, isValidId: Id -> bool, now: int) returns (reply: Option<Response>)
      modifies this`user, this`nextCalls
      ensures var d := Protect(authorization, users, k, isValidId, now);
        && (d.Pass? ==> user == Some(d.user) && nextCalls == old(nextCalls) + 1 && reply.None?)
        && (d.Reject? ==> user == old(user) && nextCalls == old(nextCalls) && reply == Some(Rejection(d)))
    {
      var d := Protect(authorization, users, k, isValidId, now);
      if d.Pass? {
        user := Some(d.user);
        nextCalls := nextCalls + 1;
        reply := None;
      } else {
        reply := Some(Rejection(d));
      }
    }
  }
}
