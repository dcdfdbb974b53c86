/**
 * The pydantic models for users (backend/models/user.py): field constraints,
 * the stored form of a user, and the password-free view read back from it.
 */
module UserModels {
  import opened Outcomes
  import opened ObjectIds

  const MinUsernameLength: nat := 3
  const MinEmailLength: nat := 5
  const MinPasswordLength: nat := 8
  const MaxNameLength: nat := 100

  /** User: the registration body; `id` is required but never stored. */
  datatype User = User(
    id: int,
    username: string,
    email: string,
    password: string,
    name: string,
    surename: string,
    isAdmin: bool)

  /** The bounds User and UserGet share on the fields other than the password. */
  predicate ValidProfile(username: string, email: string, name: string, surename: string)
  {
    |username| >= MinUsernameLength && |email| >= MinEmailLength
    && 1 <= |name| <= MaxNameLength && 1 <= |surename| <= MaxNameLength
  }

  predicate ValidUser(u: User)
  {
    ValidProfile(u.username, u.email, u.name, u.surename) && |u.password| >= MinPasswordLength
  }

  /** A User given only its required fields: `is_admin` defaults to False. */
  function NewUser(id: int, username: string, email: string, password: string, name: string,
                   surename: string): (u: User)
    ensures !u.isAdmin
    ensures (u.id, u.username, u.email, u.password, u.name, u.surename)
            == (id, username, email, password, name, surename)
  {
    User(id, username, email, password, name, surename, false)
  }

  /**
   * UserGet: User's fields without the password. Its `id` is declared `int`
   * with no alias, so it would never pick up a stored `_id`; the model gives
   * it the stored ObjectId, which is what the routers use it as.
   */
  datatype UserGet = UserGet(
    id: ObjectId,
    username: string,
    email: string,
    name: string,
    surename: string,
    isAdmin: bool)

  predicate ValidUserGet(g: UserGet)
  {
    ValidProfile(g.username, g.email, g.name, g.surename)
  }

  /** UserUpdate: every field optional, None meaning "not supplied". No bounds are repeated. */
  datatype UserUpdate = UserUpdate(
    username: Option<string>,
    email: Option<string>,
    password: Option<string>,
    name: Option<string>,
    surename: Option<string>,
    isAdmin: Option<bool>)

  /**
   * UserLogin is imported from backend/models/user.py by the auth modules but
   * not defined there; the fields they read are `email` and `password`.
   */
  datatype UserLogin = UserLogin(email: string, password: string)

  /** A user as the `users` collection stores it: User without `id`, `password` holding a hash. */
  datatype UserDoc = UserDoc(
    username: string,
    email: string,
    password: string,
    name: string,
    surename: string,
    isAdmin: bool)

  /**
   * `UserGet.model_validate(doc)`: None where pydantic raises a ValidationError;
   * otherwise every stored field but the password, under the stored id.
   */
  function ValidateUserGet(id: ObjectId, d: UserDoc): (r: Option<UserGet>)
    ensures r.Some? <==> ValidProfile(d.username, d.email, d.name, d.surename)
    ensures r.Some? ==> ValidUserGet(r.value) && r.value.id == id && r.value.email == d.email
    ensures r.Some? ==> r.value.username == d.username && r.value.name == d.name
                        && r.value.surename == d.surename && r.value.isAdmin == d.isAdmin
  {
    if ValidProfile(d.username, d.email, d.name, d.surename) then
      Some(UserGet(id, d.username, d.email, d.name, d.surename, d.isAdmin))
    else None
  }

  /** Whatever is stored as the password, a valid User's document reads back as its password-free view. */
  lemma StoredUserValidates(id: ObjectId, u: User, hash: string)
    requires ValidUser(u)
    ensures ValidateUserGet(id, UserDoc(u.username, u.email, hash, u.name, u.surename, u.isAdmin))
            == Some(UserGet(id, u.username, u.email, u.name, u.surename, u.isAdmin))
  {
  }
}
