# Idea-drop backend: session tokens, the authorization gate and the idea handlers

A Dafny model of the request-handling core of a small Express backend. Users register
and log in. They receive a short-lived access token in the response body and a
long-lived refresh token in an http-only cookie. They create, update and delete
"ideas" behind a bearer-token gate. Everyone can list and read ideas.

Each handler is one atomic step over the collections:

- the user collection is a `map<Id, User>` held by the class `AuthRoutes.UserTable`;
- the idea collection is a `seq<Idea>` held by `IdeaRoutes.IdeaTable`, kept in natural
  (insertion) order so that the list endpoint has something to sort.

Collaborators the handlers call but that are not part of this model become values or
parameters:

- **Token service** (`Tokens`). A JSON Web Token (RFC 7519) signed with HS256 (section 3.2
  of RFC 7518) is seen only through `Codec`: a `sign` function from claims
  `{id, iat, exp}` to text and an `open` function that parses text and checks its
  signature. `Sound(k)` states what an honest signer and verifier guarantee:
  - opening a signed token returns its claims;
  - only signed tokens open;
  - opening never reports expiry;
  - signed text is nonempty and has no spaces (the compact serialisation).

  `Issue` is `generateToken` and `Verify` is `jwtVerify`: the subject while `now < exp`,
  otherwise `Expired`. Times are seconds, as in the `iat`/`exp` claims.
- **Clock**: a `now` parameter.
- **Fresh ids**: the store assigns a fresh, well-formed id on create. This is a `newId`
  parameter, and the precondition says it is unused and well formed.
- **`ObjectId.isValid` and `user.matchPassword`**: function-valued constants of the
  table classes. `Protect` takes the id check as a parameter.
- **Whitespace**: `trim` uses the ECMAScript WhiteSpace and LineTerminator set, written
  out in `Text.IsWhitespace`.

Responses are `Http.Response(status, message, cookie, payload)`. `message` is the JSON
body's `message` or, for the 400 paths that `throw`, the thrown Error's message.

The tag rule is written once, as `NormalizeTags`. Create and update both call it, as the
two copies in the source do.

The gate is `AuthMiddleware.Protect`, a pure decision `Reject(message) | Pass(projection)`.
`AuthMiddleware.Request.Run` adds its two effects: setting `req.user` and calling `next`.
`IdeaTable.Guarded` routes create, update and delete through the gate.

## Model

| member | source | states |
|---|---|---|
| `Text.IsWhitespace` | routes/ideaRoutes.js:69 | the characters `trim` removes; among ASCII characters exactly space, tab, line feed, vertical tab, form feed and carriage return |
| `Text.Blank` | routes/authRoutes.js:18 | `!field?.trim()` holds exactly when the field is absent or consists only of whitespace (also the test at routes/authRoutes.js:85 and routes/ideaRoutes.js:56) |
| `Text.StartsWith` | middleware/authMiddleware.js:11 | `startsWith` holds exactly when the prefix is no longer than the string and equals its first characters |
| `Text.Trim` | routes/ideaRoutes.js:69 | the result has no whitespace at either end |
| `Text.LeadingSpace` | routes/authRoutes.js:18 | counts the whitespace that starts the string: every counted character is whitespace and the next one is not |
| `Text.TrailingSpace` | routes/authRoutes.js:18 | counts the whitespace that ends the string: every counted character is whitespace and the one before is not |
| `Text.TrimIsInfix` | routes/ideaRoutes.js:69 | what `trim` keeps is an infix of the input, and everything it drops on either side is whitespace |
| `Text.TrimOfTrimmed` | routes/ideaRoutes.js:72 | a string with no whitespace at either end is its own trim |
| `Text.TrimIdempotent` | routes/ideaRoutes.js:72 | trimming twice equals trimming once |
| `Text.TrimEmptyIffAllWhitespace` | routes/authRoutes.js:18 | `trim` gives "" exactly when every character is whitespace, so a field is blank exactly when it is all whitespace |
| `Text.Split` | routes/ideaRoutes.js:68 | `split` with a one-character separator: at least one piece, no piece holds the separator, and joining the pieces with the separator gives back the input |
| `Text.SplitJoin` | routes/ideaRoutes.js:68 | splitting undoes joining when no piece holds the separator, so split and join are inverse |
| `Text.SplitPiece` | middleware/authMiddleware.js:14 | a separator-free string splits into itself alone |
| `Text.SplitAfterPiece` | middleware/authMiddleware.js:14 | a separator-free piece followed by the separator becomes the first field, and the rest splits on its own |
| `Text.FirstField` | middleware/authMiddleware.js:14 | the first field of a split is the longest separator-free prefix, ended by the separator or by the end of the input |
| `Records.View` | middleware/authMiddleware.js:16 | the `{_id, name, email}` projection copies id, name and email and nothing else |
| `Tokens.Issue` | utils/generateToken.js:10-16 | an issued token opens to the claims {id, iat = now, exp = now + ttl} and is compact text |
| `Tokens.Verify` | middleware/authMiddleware.js:15 | success only for a token that opens, with its subject, while `now < exp`; a token that opens after its `exp` fails as `Expired` |
| `Tokens.VerifyIssued` | utils/generateToken.js:10-16 | a token issued for `id` with lifetime `ttl` at `now` verifies to `id` exactly while `t < now + ttl`, and as `Expired` afterwards |
| `Tokens.VerifiedWasIssued` | routes/authRoutes.js:146 | whatever verifies is the signing of live claims for the returned subject (no forgery) |
| `Tokens.ExpiredIsExpired` | routes/authRoutes.js:146 | a failed verification is classified `Expired` exactly when the token opens and its `exp` has passed |
| `Tokens.EmptyNeverVerifies` | middleware/authMiddleware.js:15 | the empty string never verifies |
| `Tokens.CookieLifetimeMatchesRefreshTtl` | routes/authRoutes.js:48 | the cookie `maxAge` 30*24*60*60*1000 ms is the 30-day refresh lifetime of 2592000 s; the access lifetime is 60 s |
| `AuthMiddleware.BearerToken` | middleware/authMiddleware.js:14 | the token taken from the header holds no space |
| `AuthMiddleware.Protect` | middleware/authMiddleware.js:8-26 | passes exactly when the header starts with "Bearer ", the token verifies, the subject is a well-formed id and a stored user, and then carries that user's projection; a missing or non-"Bearer " header is rejected with "no token", a token that fails verification or names a malformed id with "token failed", and a live token for a well-formed id with no user with "User not found" |
| `AuthMiddleware.Rejection` | middleware/authMiddleware.js:12 | every rejection is a 401 reply with the decision's message, no cookie and no other fields |
| `AuthMiddleware.BearerTokenIsSecondField` | middleware/authMiddleware.js:14 | the token is the text after "Bearer " up to the next space; "Bearer " and "Bearer  x" give "" |
| `AuthMiddleware.BearerTokenOfCompact` | middleware/authMiddleware.js:14 | a compact token sent as "Bearer token" reaches verification unchanged |
| `AuthMiddleware.NoBearerConsultsNothing` | middleware/authMiddleware.js:10-13 | a header that is missing or does not start with exactly "Bearer " yields "Not authorized, no token" whatever the user table, verifier and clock |
| `AuthMiddleware.EmptyBearerFails` | middleware/authMiddleware.js:14-15 | the header "Bearer " yields "Not authorized, token failed" |
| `AuthMiddleware.IssuedAccessTokenPasses` | middleware/authMiddleware.js:15-21 | an access token issued for a stored user passes the gate with that user's projection until 60 s after issue, and gets "token failed" from then on |
| `AuthMiddleware.DeletedUserIsNotFound` | middleware/authMiddleware.js:16-19 | a live token whose user has been deleted gets "User not found" |
| `AuthMiddleware.PassMeansIssued` | middleware/authMiddleware.js:15-21 | whoever passes presented a live token that was signed for exactly the attached user, who is stored |
| `AuthMiddleware.Request.Run` | middleware/authMiddleware.js:20-21 | on a pass, sets `req.user` to the projection, calls `next` once and sends nothing; on a rejection, sends the 401 and changes neither `req.user` nor the `next` count |
| `AuthRoutes.SessionReply` | routes/authRoutes.js:38-59 | the body carries the access token (subject = user id, lifetime 60 s) and the user's projection; the refresh token (lifetime 30 days) travels only in an http-only cookie whose `maxAge` is the refresh lifetime in ms |
| `AuthRoutes.RefreshTokenNotInBody` | routes/authRoutes.js:44-59 | the access token in the body is never the session's refresh token |
| `AuthRoutes.SessionTokensBoundToUser` | routes/authRoutes.js:38-40 | both session tokens verify to the user's id: the access token for 60 s, the refresh token for 2592000 s, and neither does afterwards |
| `AuthRoutes.Logout` | routes/authRoutes.js:69-76 | always 200 "Logged out successfully", clears the http-only refresh cookie, sends no token; it reads and writes no stored state |
| `AuthRoutes.UserTable.EmailTaken` | routes/authRoutes.js:23 | `User.findOne({ email })` finds a document exactly when some stored user has that email (the same lookup as routes/authRoutes.js:91) |
| `AuthRoutes.UserTable.Register` | routes/authRoutes.js:15-64 | a blank name, email or password gives 400 and a taken email gives 400 "User already exists", both with the table unchanged; otherwise exactly one user is added under the new id and the reply is 201 with the session; emails stay unique |
| `AuthRoutes.UserTable.Login` | routes/authRoutes.js:81-131 | a blank email or password gives 400; an unknown email and a wrong password give the identical 401 "Invalid credentials"; the right password gives 200 with the session of that user |
| `AuthRoutes.UserTable.Refresh` | routes/authRoutes.js:137-171 | the reply is 200 exactly when the cookie is present and nonempty, verifies, and names a stored user; then only a new access token for that user is issued and no cookie is set; every failure is the single 401 "Invalid refresh token" |
| `IdeaRoutes.CleanTags` | routes/ideaRoutes.js:72 | every tag is nonempty with no whitespace at either end, and there are no more tags than items |
| `IdeaRoutes.CleanTagsAvoid` | routes/ideaRoutes.js:67-69 | a character that no item holds is held by no tag, so tags split from a string never hold "," |
| `IdeaRoutes.NormalizeTags` | routes/ideaRoutes.js:65-73 | every tag is nonempty and trimmed; a tag that comes from a string holds no ","; an input that is neither string nor array yields [] |
| `IdeaRoutes.CleanTagsAppend` | routes/ideaRoutes.js:72 | cleaning distributes over concatenation, so the relative order of kept items is preserved |
| `IdeaRoutes.CleanTagsSingle` | routes/ideaRoutes.js:72 | a single item is kept, trimmed, exactly when it is not blank |
| `IdeaRoutes.CleanTagsKeeps` | routes/ideaRoutes.js:72 | every item that is not blank appears, trimmed, among the tags |
| `IdeaRoutes.CleanTagsOfTags` | routes/ideaRoutes.js:72 | a list that already consists of tags is unchanged |
| `IdeaRoutes.NormalizeTagsIdempotent` | routes/ideaRoutes.js:146-154 | normalising the normalised tags, sent back as an array, returns the same list |
| `IdeaRoutes.NormalizeJoinedTags` | routes/ideaRoutes.js:65-68 | tags joined with "," and sent as a string normalise back to the same list |
| `IdeaRoutes.Insert` | routes/ideaRoutes.js:18 | inserting into a newest-first list keeps it newest first and adds exactly that idea |
| `IdeaRoutes.NewestFirst` | routes/ideaRoutes.js:18 | the sorted list is newest first by `createdAt` and is a permutation of all ideas |
| `IdeaRoutes.PrefixHoldsNewest` | routes/ideaRoutes.js:19-20 | in a newest-first list, an idea a prefix leaves out is no newer than any idea it keeps |
| `IdeaRoutes.Find` | routes/ideaRoutes.js:39 | finds the position of the idea with the id, or reports that no idea has it |
| `IdeaRoutes.AppendOwn` | routes/ideaRoutes.js:77 | adding one's own idea under a fresh id keeps ids unique and touches no one else's idea |
| `IdeaRoutes.RemoveOwn` | routes/ideaRoutes.js:109 | removing one's own idea keeps ids unique, removes exactly the ideas with that id and touches no one else's idea |
| `IdeaRoutes.ReplaceOwn` | routes/ideaRoutes.js:143-156 | overwriting one's own idea in place, with its id and owner kept, keeps ids unique and touches no one else's idea |
| `IdeaRoutes.IdeaTable.HasId` | routes/ideaRoutes.js:39 | `Idea.findById(id)` finds a document exactly when `Find` locates an idea with that id (the same lookup as routes/ideaRoutes.js:97 and 131) |
| `IdeaRoutes.IdeaTable.List` | routes/ideaRoutes.js:15-28 | 200 with ideas newest first; cut to `limit` only when the parsed `_limit` is a number above 0 and below the count, otherwise all ideas; nothing left out is newer than anything returned |
| `IdeaRoutes.IdeaTable.Get` | routes/ideaRoutes.js:33-48 | 400 for a malformed id, 404 for a well-formed absent id, otherwise 200 with the stored idea of that id; the collection is not changed |
| `IdeaRoutes.IdeaTable.Create` | routes/ideaRoutes.js:53-85 | a blank title, summary or description gives 400 and stores nothing; otherwise exactly one idea is appended, owned by the authenticated user, with normalised tags, and the reply is 201 with it |
| `IdeaRoutes.IdeaTable.Delete` | routes/ideaRoutes.js:90-116 | a malformed id and an absent id both give 404; another user's idea gives 403 with no change; the owner's request removes exactly that idea and keeps all others in order |
| `IdeaRoutes.IdeaTable.Update` | routes/ideaRoutes.js:122-167 | a malformed or absent id gives 404; another user's idea gives 403 with no change; the owner's request overwrites title, summary, description and normalised tags with no blank check, and keeps id, owner and creation time |
| `IdeaRoutes.IdeaTable.Guarded` | routes/ideaRoutes.js:53 | create, update and delete run only after `protect`: a rejected request gets its 401 and leaves the collection unchanged; a request that passes changes only ideas of the authenticated user |

## Left out

- Cryptography and token encoding: HS256 signing, base64url compact serialisation (section 7.1 of RFC 7519) and the parsing of "1m"/"30d" happen inside the jose library. The model keeps only the abstract `Codec`, with the lifetimes as the constants 60 s and 2592000 s. `generateToken`'s default lifetime "15m" is never used, because every caller passes one.
- Tokens.Verify: the `Malformed` and `BadSignature` failures are whatever the abstract `open` reports. A one-byte change to a signature is covered only in the sense that an altered text that still opens must be the signing of its claims.
- Secret loading (utils/getJwtSecret.js): the fail-fast check at start-up is outside the request path. The one process-wide secret is implicit in the single `Codec`.
- Password hashing and `matchPassword`: these live in the user model, which is not part of this model. `matchPassword` is an arbitrary function, and the stored `password` field is whatever that model keeps.
- Mongoose internals, because the schemas and models are not part of this model:
  - `ObjectId.isValid` is an arbitrary predicate;
  - `findOne` matches the email exactly, with no lower-casing or trimming;
  - the id a create assigns is the `newId` parameter;
  - schema validation, defaults and `updatedAt` are not modelled.
- IdeaRoutes.Find, IdeaRoutes.IdeaTable.HasId, IdeaRoutes.IdeaTable.Get, IdeaRoutes.IdeaTable.Delete, IdeaRoutes.IdeaTable.Update: ids are compared as strings. `findById` casts the path id to an ObjectId first, so every spelling that casts to the same ObjectId matches, for example upper-case hex. For such a spelling the source finds the idea, while the model answers 404 and changes nothing.
- The middleware looks users up with `findById(payload.id)`. When the subject is not a well-formed id, `findById` throws, and the model answers "token failed" as the catch does. A token without an `id` claim cannot arise from this codec.
- The order of ideas with equal `createdAt`: the database leaves it open, and `NewestFirst` fixes one order.
- IdeaRoutes.IdeaTable.Update: the body's title, summary and description are assumed to be present strings. What the unseen schema does when one is absent (unset, or a validation error) is not modelled.
- The `if (!updatedIdea)` 404 after `save` is not modelled. `save` returns the document, so that branch cannot be taken.
- Update changes the loaded document in place and then saves it. The model performs this as a single replacement of that idea in the collection, with no aliasing between the loaded document and the stored one.
- Express plumbing:
  - the unseen `next(err)` error handler that turns a thrown Error into a body (the model keeps the status set before the throw and the Error's message);
  - the refresh handler's `next(err)` call after it has already replied;
  - `express.json`, `console.error`, and async/await.
- Cookie `secure` and `sameSite` depend on `NODE_ENV` and are not modelled; only `httpOnly` and `maxAge` are. Logout clears the cookie with `sameSite: "none"`, while the cookie is set with "lax" outside production (routes/authRoutes.js:47 vs 72).
- Lookup failures inside `protect` (a store that is down) are folded into "token failed" by the source's catch. The model has no store failures: each handler is one atomic step, and concurrency between requests is not modelled.
- JavaScript runtime details:
  - `parseInt` is reduced to an optional integer `_limit`;
  - request fields are strings or absent, so the TypeErrors that non-string values would raise are not modelled;
  - `tags` arrays are assumed to hold strings.
