/** The in-memory user repository: a map from id to user and an id
    counter. Users are stored by reference, so `UpdateUser` changes the
    stored record field by field, and a failure half-way leaves the fields
    already written in place. */
module InMemoryUserStorage {
  import opened Common
  import opened Entities

  class UserStorage {
    var users: map<Id, User>
    var countId: int

    /** Ids are positive, never above the counter, and match their key;
        e-mails are pairwise distinct. */
    ghost predicate Valid()
      reads this
    {
      && countId >= 0
      && (forall k :: k in users ==> 0 < k <= countId && users[k].id == k)
      && EmailsDistinct(users)
    }

    constructor ()
      ensures Valid()
      ensures users == map[] && countId == 0
    {
      users := map[];
      countId := 0;
    }

    /** Scans the stored users and fails with Conflict as soon as one of
        them has `email`; the user being edited is part of the scan. */
    method ValidateUserEmail(email: string) returns (r: Outcome)
      ensures r.Fail? <==> EmailTaken(users, email)
      ensures r.Fail? ==> r.error == Conflict
    {
      var toVisit := users.Keys;
      while toVisit != {}
        invariant toVisit <= users.Keys
        invariant forall k :: k in users && k !in toVisit ==> users[k].email != email
        decreases toVisit
      {
        if forall e :: e !in toVisit {
          assert false;
        }
        var k :| k in toVisit;
        if users[k].email == email {
          return Fail(Conflict);
        }
        toVisit := toVisit - {k};
      }
      return Pass;
    }

    /** Stores `user` under the next counter value, unless its e-mail is
        already taken. */
    method AddUser(user: User) returns (r: Result<User>)
      requires Valid()
      modifies this
      ensures Valid()
      ensures EmailTaken(old(users), user.email) ==>
                r == Err(Conflict) && users == old(users) && countId == old(countId)
      ensures !EmailTaken(old(users), user.email) ==>
                && countId == old(countId) + 1
                && r == Ok(user.(id := countId))
                && countId !in old(users)
                && users == old(users)[countId := r.value]
      ensures r.Ok? ==> GetUser(r.value.id) == r
    {
      var valid := ValidateUserEmail(user.email);
      if valid.Fail? {
        return Err(valid.error);
      }
      countId := countId + 1;
      var stored := user.(id := countId);
      PutKeepsEmailsDistinct(users, countId, stored);
      users := users[countId := stored];
      r := Ok(stored);
    }

    /** The stored user, or NotFound. */
    function GetUser(id: Id): (r: Result<User>)
      reads this
      ensures r.Ok? <==> id in users
      ensures r.Ok? ==> r.value == users[id]
      ensures r.Err? ==> r.error == NotFound
    {
      if id in users then Ok(users[id]) else Err(NotFound)
    }

    /** Removes the user with this id, or fails with NotFound. */
    method DeleteUser(id: Id) returns (r: Outcome)
      requires Valid()
      modifies this`users
      ensures Valid()
      ensures r.Fail? <==> id !in old(users)
      ensures r.Fail? ==> r.error == NotFound && users == old(users)
      ensures users == old(users) - {id}
      ensures GetUser(id) == Err(NotFound)
    {
      var found := GetUser(id);
      if found.Err? {
        return Fail(found.error);
      }
      users := users - {id};
      r := Pass;
    }

    /** Writes the new name into the stored user, then, if an e-mail is
        given, checks it against every stored user (this one included) and
        writes it. A Conflict leaves the new name written. */
    method UpdateUser(id: Id, patch: UserPatch) returns (r: Result<User>)
      requires Valid()
      modifies this`users
      ensures Valid()
      ensures id !in old(users) ==> r == Err(NotFound) && users == old(users)
      ensures id in old(users) ==>
                var renamed := if patch.name.Some? then old(users)[id].(name := patch.name.value) else old(users)[id];
                if patch.email.Some? && EmailTaken(old(users), patch.email.value) then
                  r == Err(Conflict) && users == old(users)[id := renamed]
                else
                  var updated := if patch.email.Some? then renamed.(email := patch.email.value) else renamed;
                  r == Ok(updated) && users == old(users)[id := updated]
      ensures id in old(users) && patch.email == Some(old(users)[id].email) ==> r == Err(Conflict)
    {
      var found := GetUser(id);
      if found.Err? {
        return Err(found.error);
      }
      var user := found.value;
      if patch.name.Some? {
        user := user.(name := patch.name.value);
        PutKeepsEmailsDistinct(users, id, user);
        users := users[id := user];
      }
      if patch.email.Some? {
        assert EmailTaken(users, patch.email.value) == EmailTaken(old(users), patch.email.value) by {
          assert forall k :: k in users ==> k in old(users) && users[k].email == old(users)[k].email;
          assert forall k :: k in old(users) ==> k in users;
        }
        var valid := ValidateUserEmail(patch.email.value);
        if valid.Fail? {
          return Err(valid.error);
        }
        user := user.(email := patch.email.value);
      }
      PutKeepsEmailsDistinct(users, id, user);
      users := users[id := user];
      r := Ok(user);
    }
  }
}
