/**
 * The stored documents the handlers read and write. The Mongoose schemas that
 * define them are not part of this model; only the fields the handlers use appear.
 */
module Records {

  /** A database identifier in its string form (`_id.toString()`). */
  type Id = string

  /** A user document. `password` is whatever the unseen model stores for `matchPassword`. */
  datatype User = User(name: string, email: string, password: string)

  /** The public projection `{_id, name, email}` / `{id, name, email}` of a user. */
  datatype UserView = UserView(id: Id, name: string, email: string)

  /** An idea document; `user` is the owner's id and `createdAt` the creation time in seconds. */
  datatype Idea = Idea(
    id: Id,
    title: string,
    summary: string,
    description: string,
    tags: seq<string>,
    user: Id,
    createdAt: int)

  /** The projection the middleware selects and the auth handlers return. */
  function View(id: Id, u: User): (v: UserView)
    ensures v.id == id && v.name == u.name && v.email == u.email
  {
    UserView(id, u.name, u.email)
  }
}
