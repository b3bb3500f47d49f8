/** The user service over the relational store. Uniqueness of e-mails is
    the store's constraint: a save that would duplicate an e-mail is
    refused and reported as Conflict, and the transaction leaves the table
    as it was. */
module UserService {
  import opened Common
  import opened Entities
  import opened Database

  /** Some user other than `id` holds `email`. */
  predicate EmailHeldByOther(users: map<Id, User>, id: Id, email: string) {
    exists k :: k in users && k != id && users[k].email == email
  }

  /** The stored user, or NotFound. */
  function FindUserById(db: Db, id: Id): (r: Result<User>)
    reads db
    ensures r.Ok? <==> id in db.users
    ensures r.Ok? ==> r.value == db.users[id]
    ensures r.Err? ==> r.error == NotFound
  {
    if id in db.users then Ok(db.users[id]) else Err(NotFound)
  }

  /** Saves a new user under the next identity, or fails with Conflict when
      the e-mail is already stored. */
  method CreateUser(db: Db, dto: UserDto) returns (r: Result<User>)
    requires db.Valid()
    modifies db`users, db`lastUserId
    ensures db.Valid()
    ensures EmailTaken(old(db.users), dto.email) ==>
              r == Err(Conflict) && db.users == old(db.users) && db.lastUserId == old(db.lastUserId)
    ensures !EmailTaken(old(db.users), dto.email) ==>
              && db.lastUserId == old(db.lastUserId) + 1
              && r == Ok(User(db.lastUserId, dto.name, dto.email))
              && r.value.id !in old(db.users)
              && db.users == old(db.users)[r.value.id := r.value]
    ensures r.Ok? ==> FindUserById(db, r.value.id) == r
  {
    if EmailTaken(db.users, dto.email) {
      return Err(Conflict);
    }
    var user := db.InsertUser(dto.name, dto.email);
    r := Ok(user);
  }

  /** The stored user with every field the patch gives replaced. */
  function Merged(user: User, patch: UserPatch): (r: User)
    ensures r.id == user.id
    ensures r.name == (if patch.name.Some? then patch.name.value else user.name)
    ensures r.email == (if patch.email.Some? then patch.email.value else user.email)
  {
    User(user.id, patch.name.GetOr(user.name), patch.email.GetOr(user.email))
  }

  /** NotFound for an unknown id; Conflict, with nothing saved, when another
      user holds the resulting e-mail; otherwise the merged user replaces
      the stored one. Keeping one's own e-mail is never a conflict. */
  method UpdateUser(db: Db, id: Id, patch: UserPatch) returns (r: Result<User>)
    requires db.Valid()
    modifies db`users
    ensures db.Valid()
    ensures id !in old(db.users) ==> r == Err(NotFound) && db.users == old(db.users)
    ensures id in old(db.users) ==>
              var merged := Merged(old(db.users)[id], patch);
              if EmailHeldByOther(old(db.users), id, merged.email) then
                r == Err(Conflict) && db.users == old(db.users)
              else
                r == Ok(merged) && db.users == old(db.users)[id := merged]
    ensures id in old(db.users) && (patch.email.None? || patch.email == Some(old(db.users)[id].email)) ==> r.Ok?
  {
    var found := FindUserById(db, id);
    if found.Err? {
      return Err(found.error);
    }
    var merged := Merged(found.value, patch);
    if EmailHeldByOther(db.users, id, merged.email) {
      return Err(Conflict);
    }
    db.UpdateUserRow(merged);
    r := Ok(merged);
  }

  /** Removes the user, or fails with NotFound. */
  method DeleteUserById(db: Db, id: Id) returns (r: Outcome)
    requires db.Valid()
    modifies db`users
    ensures db.Valid()
    ensures r.Fail? <==> id !in old(db.users)
    ensures r.Fail? ==> r.error == NotFound
    ensures db.users == old(db.users) - {id}
    ensures FindUserById(db, id) == Err(NotFound)
  {
    var found := FindUserById(db, id);
    if found.Err? {
      return Fail(found.error);
    }
    db.DeleteUserRow(id);
    r := Pass;
  }
}
