/**
 * backend/crud/user.py: create, look up, list, update and delete users in
 * the `users` collection, given here as a Table the callers pass in.
 */
module UserCrud {
  import opened Outcomes
  import opened ObjectIds
  import opened Tables
  import opened UserModels
  import opened Primitives

  /** `user.model_dump(by_alias=True, exclude=["id"])` with `password` holding `password`. */
  function DumpUser(u: User, password: string): UserDoc
  {
    UserDoc(u.username, u.email, password, u.name, u.surename, u.isAdmin)
  }

  function ByUsername(username: string): UserDoc -> bool
  {
    (d: UserDoc) => d.username == username
  }

  function ByEmail(email: string): UserDoc -> bool
  {
    (d: UserDoc) => d.email == email
  }

  function AllUsers(): UserDoc -> bool
  {
    (d: UserDoc) => true
  }

  /** Every stored password is the hash of some password under some salt. */
  ghost predicate AllHashed(users: Table<UserDoc>, hasher: Hasher)
    reads users
  {
    forall id :: id in users.docs ==> exists p, s :: users.docs[id].password == hasher.hash(p, s)
  }

  /** `find_one({"_id": id})` then `UserGet.model_validate`. */
  function ReadUser(users: Table<UserDoc>, id: ObjectId): (r: Result<Option<UserGet>>)
    reads users
    ensures r == Ok(None) <==> id !in users.docs
    ensures r.Ok? && r.value.Some? ==> id in users.docs && ValidateUserGet(id, users.docs[id]) == r.value
    ensures r.Err? ==> r.error == ValidationError && id in users.docs && ValidateUserGet(id, users.docs[id]).None?
  {
    match users.Get(id)
    case None => Ok(None)
    case Some(d) =>
      match ValidateUserGet(id, d)
      case None => Err(ValidationError)
      case Some(u) => Ok(Some(u))
  }

  /**
   * `find_one(filter)` then `UserGet.model_validate`, the filter testing each
   * document with `p`: the first match in natural order, which raises when it
   * fails validation.
   */
  function ReadFirst(users: Table<UserDoc>, p: UserDoc -> bool): (r: Result<Option<UserGet>>)
    reads users
    requires users.Valid()
    ensures r == Ok(None) <==> forall id :: id in users.docs ==> !p(users.docs[id])
    ensures r.Ok? && r.value.Some? ==>
              r.value.value.id in users.docs && p(users.docs[r.value.value.id])
              && ValidateUserGet(r.value.value.id, users.docs[r.value.value.id]) == r.value
    ensures r.Ok? && r.value.Some? ==>
              exists k :: 0 <= k < |users.order| && users.order[k] == r.value.value.id
                          && forall j :: 0 <= j < k ==> !p(users.docs[users.order[j]])
    ensures r.Err? ==> r.error == ValidationError
                       && exists id :: id in users.docs && p(users.docs[id]) && ValidateUserGet(id, users.docs[id]).None?
    ensures r.Err? ==>
              exists k :: 0 <= k < |users.order| && p(users.docs[users.order[k]])
                          && ValidateUserGet(users.order[k], users.docs[users.order[k]]).None?
                          && forall j :: 0 <= j < k ==> !p(users.docs[users.order[j]])
  {
    if users.FindOne(p).Some? then users.FindOneIsFirst(p); ReadFirstRow(users, p)
    else ReadFirstRow(users, p)
  }

  /** The body of ReadFirst: validate the row find_one returns. */
  function ReadFirstRow(users: Table<UserDoc>, p: UserDoc -> bool): Result<Option<UserGet>>
    reads users
    requires users.Valid()
  {
    match users.FindOne(p)
    case None => Ok(None)
    case Some(row) =>
      match ValidateUserGet(row.id, row.doc)
      case None => Err(ValidationError)
      case Some(u) => Ok(Some(u))
  }

  /**
   * create_user: store the user without its `id`, the password replaced by
   * its hash under the freshly drawn `salt`, under a new id, and return the
   * stored user read back as UserGet.
   */
  method CreateUser(users: Table<UserDoc>, hasher: Hasher, salt: Salt, user: User, newId: ObjectId) returns (created: UserGet)
    requires users.Valid() && ValidUser(user) && newId !in users.docs
    modifies users
    ensures users.Valid()
    ensures users.docs == old(users.docs)[newId := DumpUser(user, hasher.hash(user.password, salt))]
    ensures users.order == old(users.order) + [newId]
    ensures ReadUser(users, newId) == Ok(Some(created))
    ensures created == UserGet(newId, user.username, user.email, user.name, user.surename, user.isAdmin)
    ensures old(AllHashed(users, hasher)) ==> AllHashed(users, hasher)
  {
    var doc := DumpUser(user, user.password);
    doc := doc.(password := hasher.hash(doc.password, salt));
    users.InsertOne(newId, doc);
    var stored := users.Get(newId);
    StoredUserValidates(newId, user, doc.password);
    created := ValidateUserGet(newId, stored.value).value;
  }

  /** get_user: None for a malformed or unknown id, otherwise the stored user validated. */
  function GetUser(users: Table<UserDoc>, id: string): (r: Result<Option<UserGet>>)
    reads users
    ensures !IsValid(id) ==> r == Ok(None)
    ensures IsValid(id) ==> r == ReadUser(users, Parse(id).value)
  {
    match Parse(id)
    case None => Ok(None)
    case Some(oid) => ReadUser(users, oid)
  }

  /** get_user_by_username: None exactly when no stored user has that username, otherwise the first one. */
  function GetUserByUsername(users: Table<UserDoc>, username: string): (r: Result<Option<UserGet>>)
    reads users
    requires users.Valid()
    ensures r == Ok(None) <==> forall id :: id in users.docs ==> users.docs[id].username != username
    ensures r.Ok? && r.value.Some? ==>
              var u := r.value.value;
              && u.username == username && u.id in users.docs && users.docs[u.id].username == username
              && ValidateUserGet(u.id, users.docs[u.id]) == Some(u)
    ensures r.Ok? && r.value.Some? ==>
              exists k :: 0 <= k < |users.order| && users.order[k] == r.value.value.id
                          && forall j :: 0 <= j < k ==> users.docs[users.order[j]].username != username
    ensures r.Err? ==> r.error == ValidationError
                       && exists id :: id in users.docs && users.docs[id].username == username
                                       && ValidateUserGet(id, users.docs[id]).None?
  {
    ReadFirst(users, ByUsername(username))
  }

  /** get_user_by_email: None exactly when no stored user has that email, otherwise the first one. */
  function GetUserByEmail(users: Table<UserDoc>, email: string): (r: Result<Option<UserGet>>)
    reads users
    requires users.Valid()
    ensures r == Ok(None) <==> forall id :: id in users.docs ==> users.docs[id].email != email
    ensures r.Ok? && r.value.Some? ==>
              var u := r.value.value;
              && u.email == email && u.id in users.docs && users.docs[u.id].email == email
              && ValidateUserGet(u.id, users.docs[u.id]) == Some(u)
    ensures r.Ok? && r.value.Some? ==>
              exists k :: 0 <= k < |users.order| && users.order[k] == r.value.value.id
                          && forall j :: 0 <= j < k ==> users.docs[users.order[j]].email != email
    ensures r.Err? ==> r.error == ValidationError
                       && exists id :: id in users.docs && users.docs[id].email == email
                                       && ValidateUserGet(id, users.docs[id]).None?
  {
    ReadFirst(users, ByEmail(email))
  }

  /** get_all_users: every stored user in natural order as UserGet; one that fails validation makes the call raise. */
  method GetAllUsers(users: Table<UserDoc>) returns (r: Result<seq<UserGet>>)
    requires users.Valid()
    ensures var cursor := users.Find(AllUsers());
            && (r.Err? <==> exists i :: 0 <= i < |cursor| && ValidateUserGet(cursor[i].id, cursor[i].doc).None?)
            && (r.Err? ==> r.error == ValidationError)
            && (r.Ok? ==> |r.value| == |cursor|
                          && forall i :: 0 <= i < |cursor| ==> ValidateUserGet(cursor[i].id, cursor[i].doc) == Some(r.value[i]))
  {
    var cursor := users.Find(AllUsers());
    var all: seq<UserGet> := [];
    var i := 0;
    while i < |cursor|
      invariant 0 <= i <= |cursor| && |all| == i
      invariant forall j :: 0 <= j < i ==> ValidateUserGet(cursor[j].id, cursor[j].doc) == Some(all[j])
    {
      var validated := ValidateUserGet(cursor[i].id, cursor[i].doc);
      if validated.None? {
        return Err(ValidationError);
      }
      all := all + [validated.value];
      i := i + 1;
    }
    r := Ok(all);
  }

  /** The `$set` data of update_user: the supplied fields, a supplied password replaced by its hash under `salt`. */
  function HashPassword(u: UserUpdate, hasher: Hasher, salt: Salt): (r: UserUpdate)
    ensures r.password.Some? <==> u.password.Some?
    ensures u.password.Some? ==> r.password.value == hasher.hash(u.password.value, salt)
    ensures r == u.(password := r.password)
  {
    if u.password.Some? then u.(password := Some(hasher.hash(u.password.value, salt))) else u
  }

  /** `{"$set": data}` on a stored user. */
  function ApplyUserSet(d: UserDoc, u: UserUpdate): UserDoc
  {
    UserDoc(
      u.username.GetOr(d.username),
      u.email.GetOr(d.email),
      u.password.GetOr(d.password),
      u.name.GetOr(d.name),
      u.surename.GetOr(d.surename),
      u.isAdmin.GetOr(d.isAdmin))
  }

  /** update_user's `$set` writes the supplied fields, hashing the password, and keeps every other field. */
  lemma UserSetSetsSuppliedFields(d: UserDoc, u: UserUpdate, hasher: Hasher, salt: Salt)
    ensures var r := ApplyUserSet(d, HashPassword(u, hasher, salt));
            && (u.password.Some? ==> r.password == hasher.hash(u.password.value, salt))
            && (u.password.None? ==> r.password == d.password)
            && (u.username.Some? ==> r.username == u.username.value)
            && (u.username.None? ==> r.username == d.username)
            && (u.email.Some? ==> r.email == u.email.value)
            && (u.email.None? ==> r.email == d.email)
            && (u.name.Some? ==> r.name == u.name.value)
            && (u.name.None? ==> r.name == d.name)
            && (u.surename.Some? ==> r.surename == u.surename.value)
            && (u.surename.None? ==> r.surename == d.surename)
            && (u.isAdmin.Some? ==> r.isAdmin == u.isAdmin.value)
            && (u.isAdmin.None? ==> r.isAdmin == d.isAdmin)
            && (u == UserUpdate(None, None, None, None, None, None) ==> r == d)
  {
  }

  /**
   * A supplied password hashed under a salt other than the one the stored
   * hash carries always changes the stored document, even when it is the
   * password that hash was made from.
   */
  lemma FreshSaltChangesDocument(d: UserDoc, u: UserUpdate, hasher: Hasher, salt: Salt)
    requires hasher.EmbedsSalt() && u.password.Some? && salt != hasher.saltOf(d.password)
    ensures ApplyUserSet(d, HashPassword(u, hasher, salt)).password != d.password
    ensures ApplyUserSet(d, HashPassword(u, hasher, salt)) != d
  {
    assert hasher.saltOf(hasher.hash(u.password.value, salt)) == salt;
  }

  /**
   * update_user: None for a malformed or unknown id; otherwise `$set` on the
   * supplied fields, a supplied password hashed under the freshly drawn
   * `salt`, and the updated user only when the document changed
   * (modified_count == 1), None when it was left as it was. Since a fresh
   * salt is not the one the stored hash carries, supplying a password, even
   * the current one, always changes the document.
   */
  method UpdateUser(users: Table<UserDoc>, hasher: Hasher, salt: Salt, id: string, user: UserUpdate)
    returns (r: Result<Option<UserGet>>)
    requires users.Valid()
    modifies users
    ensures users.Valid() && users.order == old(users.order)
    ensures !IsValid(id) ==> r == Ok(None) && users.docs == old(users.docs)
    ensures IsValid(id) ==>
              var oid := Parse(id).value;
              if oid in old(users.docs) then
                var updated := ApplyUserSet(old(users.docs)[oid], HashPassword(user, hasher, salt));
                && users.docs == old(users.docs)[oid := updated]
                && r == (if updated == old(users.docs)[oid] then Ok(None) else ReadUser(users, oid))
              else users.docs == old(users.docs) && r == Ok(None)
    ensures IsValid(id) && Parse(id).value in old(users.docs) && user.password.Some? && hasher.EmbedsSalt()
            && salt != hasher.saltOf(old(users.docs)[Parse(id).value].password) ==>
              r == ReadUser(users, Parse(id).value)
    ensures old(AllHashed(users, hasher)) ==> AllHashed(users, hasher)
  {
    var parsed := Parse(id);
    if parsed.None? {
      return Ok(None);
    }
    var oid := parsed.value;
    var data := user;
    if data.password.Some? {
      data := data.(password := Some(hasher.hash(data.password.value, salt)));
    }
    ghost var before := users.docs;
    if oid in before && user.password.Some? && hasher.EmbedsSalt() && salt != hasher.saltOf(before[oid].password) {
      FreshSaltChangesDocument(before[oid], user, hasher, salt);
    }
    var matched, modified := users.UpdateOne(oid, (d: UserDoc) => ApplyUserSet(d, data));
    forall k | k in users.docs && old(AllHashed(users, hasher))
      ensures exists p, s :: users.docs[k].password == hasher.hash(p, s)
    {
      if k == oid && data.password.Some? {
        assert users.docs[k].password == hasher.hash(user.password.value, salt);
      } else {
        assert users.docs[k].password == before[k].password;
      }
    }
    if modified == 1 {
      r := ReadUser(users, oid);
    } else {
      r := Ok(None);
    }
  }

  /** delete_user: False for a malformed id; otherwise True exactly when the user existed, which is then gone. */
  method DeleteUser(users: Table<UserDoc>, id: string) returns (deleted: bool)
    requires users.Valid()
    modifies users
    ensures users.Valid()
    ensures !IsValid(id) ==> !deleted && users.docs == old(users.docs) && users.order == old(users.order)
    ensures IsValid(id) ==>
              var oid := Parse(id).value;
              && deleted == (oid in old(users.docs))
              && users.docs == old(users.docs) - {oid}
              && users.order == (if deleted then Without(old(users.order), oid) else old(users.order))
              && GetUser(users, id) == Ok(None)
  {
    var parsed := Parse(id);
    if parsed.None? {
      return false;
    }
    var count := users.DeleteOne(parsed.value, (d: UserDoc) => true);
    deleted := count == 1;
  }
}
