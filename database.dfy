/** The relational store behind the services: one table per entity, each
    keyed by an identity column whose next value comes from a per-table
    counter. A saved row is a value; saving it again under its key replaces
    it. */
module Database {
  import opened Common
  import opened Entities

  class Db {
    var users: map<Id, User>
    var items: map<Id, Item>
    var bookings: map<Id, Booking>
    var requests: map<Id, Request>
    var comments: map<Id, Comment>
    var lastUserId: int
    var lastItemId: int
    var lastBookingId: int
    var lastRequestId: int
    var lastCommentId: int

    /** The constraints of the schema as the services rely on them:
        identities are positive, never above their counter, and match the
        row's own id; e-mails are unique; a booking's period is non-empty
        and a booking or comment refers to a stored item. */
    ghost predicate Valid()
      reads this
    {
      && lastUserId >= 0 && lastItemId >= 0 && lastBookingId >= 0
      && lastRequestId >= 0 && lastCommentId >= 0
      && (forall k :: k in users ==> 0 < k <= lastUserId && users[k].id == k)
      && (forall k :: k in items ==> 0 < k <= lastItemId && items[k].id == k)
      && (forall k :: k in bookings ==> 0 < k <= lastBookingId && bookings[k].id == k)
      && (forall k :: k in requests ==> 0 < k <= lastRequestId && requests[k].id == k)
      && (forall k :: k in comments ==> 0 < k <= lastCommentId && comments[k].id == k)
      && EmailsDistinct(users)
      && (forall k :: k in bookings ==> bookings[k].start < bookings[k].end)
      && (forall k :: k in bookings ==> bookings[k].itemId in items)
      && (forall k :: k in comments ==> comments[k].itemId in items)
    }

    /** An empty store. */
    constructor ()
      ensures Valid()
      ensures users == map[] && items == map[] && bookings == map[]
      ensures requests == map[] && comments == map[]
    {
      users, items, bookings, requests, comments := map[], map[], map[], map[], map[];
      lastUserId, lastItemId, lastBookingId, lastRequestId, lastCommentId := 0, 0, 0, 0, 0;
    }

    // -------------------------------------------------------------------
    // Saving rows. A new row takes the next identity of its table; saving
    // a row whose id is stored replaces the stored row.
    // -------------------------------------------------------------------

    /** Inserts a user; the schema refuses a duplicate e-mail. */
    method InsertUser(name: string, email: string) returns (u: User)
      requires Valid()
      requires !EmailTaken(users, email)
      modifies this`users, this`lastUserId
      ensures Valid()
      ensures lastUserId == old(lastUserId) + 1
      ensures u == User(lastUserId, name, email)
      ensures u.id !in old(users)
      ensures users == old(users)[u.id := u]
    {
      lastUserId := lastUserId + 1;
      u := User(lastUserId, name, email);
      PutKeepsEmailsDistinct(users, u.id, u);
      users := users[u.id := u];
    }

    /** Replaces a stored user; no other user may hold its e-mail. */
    method UpdateUserRow(u: User)
      requires Valid()
      requires u.id in users
      requires forall k :: k in users && k != u.id ==> users[k].email != u.email
      modifies this`users
      ensures Valid()
      ensures users == old(users)[u.id := u]
    {
      PutKeepsEmailsDistinct(users, u.id, u);
      users := users[u.id := u];
    }

    /** Deletes a user row. */
    method DeleteUserRow(id: Id)
      requires Valid()
      modifies this`users
      ensures Valid()
      ensures users == old(users) - {id}
    {
      users := users - {id};
    }

    /** Inserts an item. */
    method InsertItem(name: string, description: string, available: bool, ownerId: Id, requestId: Option<Id>)
      returns (it: Item)
      requires Valid()
      modifies this`items, this`lastItemId
      ensures Valid()
      ensures lastItemId == old(lastItemId) + 1
      ensures it == Item(lastItemId, name, description, available, ownerId, requestId)
      ensures it.id !in old(items)
      ensures items == old(items)[it.id := it]
    {
      lastItemId := lastItemId + 1;
      it := Item(lastItemId, name, description, available, ownerId, requestId);
      items := items[it.id := it];
    }

    /** Replaces a stored item. */
    method UpdateItemRow(it: Item)
      requires Valid()
      requires it.id in items
      modifies this`items
      ensures Valid()
      ensures items == old(items)[it.id := it]
    {
      items := items[it.id := it];
    }

    /** Inserts a booking of a stored item over a non-empty period. */
    method InsertBooking(start: Instant, end: Instant, itemId: Id, bookerId: Id, status: Status) returns (b: Booking)
      requires Valid()
      requires start < end && itemId in items
      modifies this`bookings, this`lastBookingId
      ensures Valid()
      ensures lastBookingId == old(lastBookingId) + 1
      ensures b == Booking(lastBookingId, start, end, itemId, bookerId, status)
      ensures b.id !in old(bookings)
      ensures bookings == old(bookings)[b.id := b]
    {
      lastBookingId := lastBookingId + 1;
      b := Booking(lastBookingId, start, end, itemId, bookerId, status);
      bookings := bookings[b.id := b];
    }

    /** Replaces a stored booking with one of the same period and item. */
    method UpdateBookingRow(b: Booking)
      requires Valid()
      requires b.id in bookings
      requires b.start < b.end && b.itemId in items
      modifies this`bookings
      ensures Valid()
      ensures bookings == old(bookings)[b.id := b]
    {
      bookings := bookings[b.id := b];
    }

    /** Inserts a request. */
    method InsertRequest(description: string, requesterId: Id, created: Instant) returns (q: Request)
      requires Valid()
      modifies this`requests, this`lastRequestId
      ensures Valid()
      ensures lastRequestId == old(lastRequestId) + 1
      ensures q == Request(lastRequestId, description, requesterId, created)
      ensures q.id !in old(requests)
      ensures requests == old(requests)[q.id := q]
    {
      lastRequestId := lastRequestId + 1;
      q := Request(lastRequestId, description, requesterId, created);
      requests := requests[q.id := q];
    }

    /** Inserts a comment on a stored item. */
    method InsertComment(text: string, itemId: Id, authorId: Id, created: Instant) returns (c: Comment)
      requires Valid()
      requires itemId in items
      modifies this`comments, this`lastCommentId
      ensures Valid()
      ensures lastCommentId == old(lastCommentId) + 1
      ensures c == Comment(lastCommentId, text, itemId, authorId, created)
      ensures c.id !in old(comments)
      ensures comments == old(comments)[c.id := c]
    {
      lastCommentId := lastCommentId + 1;
      c := Comment(lastCommentId, text, itemId, authorId, created);
      comments := comments[c.id := c];
    }
  }

  /** Every stored booking has a non-empty period. */
  lemma StoredPeriodsNonEmpty(db: Db)
    requires db.Valid()
    ensures forall b :: b in db.bookings.Values ==> b.start < b.end
  {
    var m := db.bookings;
    forall b | b in m.Values ensures b.start < b.end {
      if forall k :: k in m ==> m[k] != b {
        assert false;
      }
    }
  }

  /** Every stored request is stored under its own id. */
  lemma StoredRequestsKeyed(db: Db)
    requires db.Valid()
    ensures forall q :: q in db.requests.Values ==> q.id in db.requests && db.requests[q.id] == q
  {
    var m := db.requests;
    forall q | q in m.Values ensures q.id in m && m[q.id] == q {
      if forall k :: k in m ==> m[k] != q {
        assert false;
      }
    }
  }
}
