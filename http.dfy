/**
 * What a handler sends back: a status, the `message` of its JSON body (or of the
 * Error it throws to the error handler), the refresh cookie it sets or clears,
 * and the remaining body fields.
 */
module Http {
  import opened Wrappers
  import opened Records

  datatype Message =
    // authorization gate
    | NotAuthorizedNoToken | NotAuthorizedTokenFailed | UserNotFound
    // session handlers
    | NameEmailPasswordRequired | UserAlreadyExists | UserRegistered
    | LoggedOut
    | EmailPasswordRequired | InvalidCredentials | LoginSuccessful
    | InvalidRefreshToken | NewAccessTokenGenerated
    // idea handlers
    | InvalidIdeaId | IdeaNotFound | TitleSummaryDescriptionRequired | IdeaCreated
    | NotAuthorizedToDelete | IdeaDeleted | NotAuthorizedToUpdate | IdeaUpdated

  /** `res.cookie("refreshToken", …)` and `res.clearCookie("refreshToken", …)`. */
  datatype CookieOp =
    | SetRefreshCookie(token: string, httpOnly: bool, maxAgeMs: int)
    | ClearRefreshCookie(httpOnly: bool)

  /** Body fields besides `message`. */
  datatype Payload =
    | NoPayload
    | Session(accessToken: string, user: UserView)
    | OneIdea(idea: Idea)
    | IdeaList(ideas: seq<Idea>)

  datatype Response = Response(status: int, message: Option<Message>, cookie: Option<CookieOp>, payload: Payload)

  /** A reply that carries only a status and a message. */
  function Reply(status: int, m: Message): (r: Response)
    ensures r.status == status && r.message == Some(m) && r.cookie.None? && r.payload.NoPayload?
  {
    Response(status, Some(m), None, NoPayload)
  }
}
