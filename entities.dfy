/** The records the services store and exchange. Cross-entity references
    (an item's owner, a booking's item and booker, a request's requester)
    are identifiers, resolved through the stores when needed. */
module Entities {
  import opened Common

  datatype User = User(id: Id, name: string, email: string)

  datatype Item = Item(
    id: Id,
    name: string,
    description: string,
    available: bool,
    ownerId: Id,
    requestId: Option<Id>)

  /** Booking status. `CANCELED` is never produced by any operation and
      is not represented. */
  datatype Status = WAITING | APPROVED | REJECTED

  datatype Booking = Booking(
    id: Id,
    start: Instant,
    end: Instant,
    itemId: Id,
    bookerId: Id,
    status: Status)

  datatype Request = Request(id: Id, description: string, requesterId: Id, created: Instant)

  datatype Comment = Comment(id: Id, text: string, itemId: Id, authorId: Id, created: Instant)

  // ---------------------------------------------------------------------
  // Incoming data (the DTOs a caller hands in). `None` stands for a
  // JSON field that was absent, i.e. a Java `null`.
  // ---------------------------------------------------------------------

  /** A new user: the name and e-mail to store. */
  datatype UserDto = UserDto(name: string, email: string)

  /** A partial user update. */
  datatype UserPatch = UserPatch(name: Option<string>, email: Option<string>)

  /** A new item. Name, description and availability are mandatory on
      creation; `id` is whatever id field the caller sent. */
  datatype ItemDto = ItemDto(
    id: Option<Id>,
    name: string,
    description: string,
    available: bool,
    requestId: Option<Id>)

  /** A partial item update. */
  datatype ItemPatch = ItemPatch(name: Option<string>, description: Option<string>, available: Option<bool>)

  datatype BookingRequest = BookingRequest(start: Instant, end: Instant, itemId: Id)

  /** The `state` filter of a booking listing. */
  datatype RequestState = All | Current | Past | Future | Waiting | Rejected

  /** Whose bookings a listing is about: those the user booked, or those of
      the items the user owns. A `null` role is `None` where it is passed. */
  datatype Role = USER | OWNER

  // ---------------------------------------------------------------------
  // Shared facts about stored users
  // ---------------------------------------------------------------------

  /** Some stored user has this e-mail. */
  predicate EmailTaken(users: map<Id, User>, email: string) {
    exists k :: k in users && users[k].email == email
  }

  /** No two stored users share an e-mail. */
  predicate EmailsDistinct(users: map<Id, User>) {
    forall a, b :: a in users && b in users && a != b ==> users[a].email != users[b].email
  }

  /** Writing a user whose e-mail nobody else holds keeps e-mails distinct. */
  lemma PutKeepsEmailsDistinct(users: map<Id, User>, id: Id, u: User)
    requires EmailsDistinct(users)
    requires forall k :: k in users && k != id ==> users[k].email != u.email
    ensures EmailsDistinct(users[id := u])
  {
    var m := users[id := u];
    forall a, b | a in m && b in m && a != b
      ensures m[a].email != m[b].email
    {
      if a == id {
        assert m[b] == users[b];
      } else if b == id {
        assert m[a] == users[a];
      } else {
        assert m[a] == users[a] && m[b] == users[b];
      }
    }
  }
}
