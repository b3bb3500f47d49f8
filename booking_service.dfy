/** The booking service: creating a booking request, the owner's approval,
    looking a booking up on behalf of its owner or booker, and the listings
    of a user's bookings by state. */
module BookingService {
  import opened Common
  import opened Entities
  import opened Database
  import opened BookingDbStorage

  /** Books an item for the user from `req.start` to `req.end`. The user
      and the item must exist (NotFound), the item must be available and
      the period non-empty (BadRequest). The new booking waits for the
      owner's approval. Overlapping bookings and booking one's own item
      are not refused. */
  method CreateBooking(db: Db, userId: Id, req: BookingRequest) returns (r: Result<Booking>)
    requires db.Valid()
    modifies db`bookings, db`lastBookingId
    ensures db.Valid()
    ensures old(userId !in db.users || req.itemId !in db.items) ==> r == Err(NotFound)
    ensures old(userId in db.users && req.itemId in db.items && !db.items[req.itemId].available) ==> r == Err(BadRequest)
    ensures old(userId in db.users && req.itemId in db.items) && !(req.start < req.end) ==> r == Err(BadRequest)
    ensures r.Err? ==> db.bookings == old(db.bookings) && db.lastBookingId == old(db.lastBookingId)
    ensures old(userId in db.users && req.itemId in db.items && db.items[req.itemId].available) && req.start < req.end ==>
              && db.lastBookingId == old(db.lastBookingId) + 1
              && r == Ok(Booking(db.lastBookingId, req.start, req.end, req.itemId, userId, WAITING))
              && r.value.id !in old(db.bookings)
              && db.bookings == old(db.bookings)[r.value.id := r.value]
  {
    if userId !in db.users {
      return Err(NotFound);
    }
    if req.itemId !in db.items {
      return Err(NotFound);
    }
    var item := db.items[req.itemId];
    if !item.available {
      return Err(BadRequest);
    }
    if req.start == req.end {
      return Err(BadRequest);
    }
    if req.end < req.start {
      return Err(BadRequest);
    }
    var booking := db.InsertBooking(req.start, req.end, req.itemId, userId, WAITING);
    r := Ok(booking);
  }

  /** The stored booking, or NotFound. */
  function GetBooking(db: Db, id: Id): (r: Result<Booking>)
    reads db
    ensures r.Ok? <==> id in db.bookings
    ensures r.Ok? ==> r.value == db.bookings[id]
    ensures r.Err? ==> r.error == NotFound
  {
    if id in db.bookings then Ok(db.bookings[id]) else Err(NotFound)
  }

  /** The owner of the booked item. */
  function OwnerOf(db: Db, b: Booking): Id
    reads db
    requires b.itemId in db.items
  {
    db.items[b.itemId].ownerId
  }

  /** The item's owner approves or rejects a booking. An unknown user is
      reported as BadRequest, an unknown booking as NotFound, and anybody
      but the owner gets BadRequest. Only the status changes, and it is set
      whatever it was before. */
  method UpdateBookingApprove(db: Db, userId: Id, bookingId: Id, approve: bool) returns (r: Result<Booking>)
    requires db.Valid()
    modifies db`bookings
    ensures db.Valid()
    ensures old(userId !in db.users) ==> r == Err(BadRequest)
    ensures old(userId in db.users && bookingId !in db.bookings) ==> r == Err(NotFound)
    ensures old(userId in db.users && bookingId in db.bookings && OwnerOf(db, db.bookings[bookingId]) != userId) ==>
              r == Err(BadRequest)
    ensures r.Err? ==> db.bookings == old(db.bookings)
    ensures old(userId in db.users && bookingId in db.bookings && OwnerOf(db, db.bookings[bookingId]) == userId) ==>
              && r == Ok(old(db.bookings[bookingId]).(status := if approve then APPROVED else REJECTED))
              && db.bookings == old(db.bookings)[bookingId := r.value]
  {
    if userId !in db.users {
      return Err(BadRequest);
    }
    var found := GetBooking(db, bookingId);
    if found.Err? {
      return Err(found.error);
    }
    var booking := found.value;
    if OwnerOf(db, booking) != userId {
      return Err(BadRequest);
    }
    var status := if approve then APPROVED else REJECTED;
    var updated := booking.(status := status);
    db.UpdateBookingRow(updated);
    r := Ok(updated);
  }

  /** A booking as seen by a user: NotFound for an unknown user or
      booking, BadRequest unless the user owns the item or made the
      booking. */
  function GetBookingDtoById(db: Db, userId: Id, bookingId: Id): (r: Result<Booking>)
    reads db
    requires db.Valid()
    ensures userId !in db.users || bookingId !in db.bookings ==> r == Err(NotFound)
    ensures r.Ok? <==>
              && userId in db.users
              && bookingId in db.bookings
              && (OwnerOf(db, db.bookings[bookingId]) == userId || db.bookings[bookingId].bookerId == userId)
    ensures r.Ok? ==> r.value == db.bookings[bookingId]
    ensures r.Err? && userId in db.users && bookingId in db.bookings ==> r.error == BadRequest
  {
    if userId !in db.users then Err(NotFound)
    else
      match GetBooking(db, bookingId)
      case Err(e) => Err(e)
      case Ok(b) =>
        if OwnerOf(db, b) != userId && b.bookerId != userId then Err(BadRequest)
        else Ok(b)
  }

  // ---------------------------------------------------------------------
  // Listings by state
  // ---------------------------------------------------------------------

  /** Whether a booking belongs in the listing of `state` at `now`. */
  predicate InState(b: Booking, state: RequestState, now: Instant) {
    match state
    case All => true
    case Current => b.start < now <= b.end
    case Past => b.end < now
    case Future => now <= b.start
    case Waiting => b.status == WAITING
    case Rejected => b.status == REJECTED
  }

  /** Whether a booking concerns the user in the given role: the user made
      it, or the user owns the booked item. */
  predicate Concerns(items: map<Id, Item>, b: Booking, role: Role, userId: Id) {
    match role
    case USER => b.bookerId == userId
    case OWNER => b.itemId in items && items[b.itemId].ownerId == userId
  }

  /** The repository query behind each role. */
  function SelectorOf(role: Role, userId: Id): Selector {
    match role
    case USER => OfBooker(userId)
    case OWNER => OfOwner(userId)
  }

  /** The repository condition behind each state. */
  function ConditionOf(state: RequestState, now: Instant): Condition {
    match state
    case All => AnyTime
    case Current => CurrentAt(now)
    case Past => PastAt(now)
    case Future => FutureAt(now)
    case Waiting => HasStatus(WAITING)
    case Rejected => HasStatus(REJECTED)
  }

  /** The time-window queries order by start, then end; the others by
      start alone. */
  function OrderOf(state: RequestState): Order {
    match state
    case Current => ByStartThenEnd
    case Past => ByStartThenEnd
    case Future => ByStartThenEnd
    case _ => ByStart
  }

  /** The bookings of a user, as booker or as owner, in the given state at
      `now`, in the order of the state's query. NotFound for an unknown
      user; Conflict when no role is given. */
  function GetAllBookingsFromUser(db: Db, userId: Id, state: RequestState, role: Option<Role>, now: Instant)
    : (r: Result<seq<Booking>>)
    reads db
    ensures userId !in db.users ==> r == Err(NotFound)
    ensures userId in db.users && role.None? ==> r == Err(Conflict)
    ensures r.Ok? <==> userId in db.users && role.Some?
    ensures r.Ok? ==> forall b :: b in r.value <==>
              b in db.bookings.Values && Concerns(db.items, b, role.value, userId) && InState(b, state, now)
    ensures r.Ok? ==> Sorted(r.value, OrderOf(state))
  {
    if userId !in db.users then Err(NotFound)
    else if role.None? then Err(Conflict)
    else
      ListingMatches(db.items, role.value, userId, state, now);
      Ok(Query(db.bookings, db.items, SelectorOf(role.value, userId), ConditionOf(state, now), OrderOf(state)))
  }

  /** The repository query of a role and a state selects exactly the
      bookings that concern the user in that role and are in that state. */
  lemma ListingMatches(items: map<Id, Item>, role: Role, userId: Id, state: RequestState, now: Instant)
    ensures forall b :: Matches(items, b, SelectorOf(role, userId), ConditionOf(state, now))
                    <==> Concerns(items, b, role, userId) && InState(b, state, now)
  {
  }

  /** With a role given, a known user's listing is the repository query
      of that role and state. */
  lemma ListingIsQuery(db: Db, userId: Id, state: RequestState, role: Role, now: Instant)
    requires userId in db.users
    ensures GetAllBookingsFromUser(db, userId, state, Some(role), now)
         == Ok(Query(db.bookings, db.items, SelectorOf(role, userId), ConditionOf(state, now), OrderOf(state)))
  {
  }

  /** A known user's listing for a role and a state holds each stored
      booking that concerns the user in that role and is in that state
      exactly once. */
  lemma ListingCount(db: Db, userId: Id, state: RequestState, role: Role, now: Instant, b: Booking)
    requires db.Valid()
    requires userId in db.users
    ensures multiset(GetAllBookingsFromUser(db, userId, state, Some(role), now).value)[b]
         == if b in db.bookings.Values && Concerns(db.items, b, role, userId) && InState(b, state, now) then 1 else 0
  {
    ListingIsQuery(db, userId, state, role, now);
    ListingMatches(db.items, role, userId, state, now);
    QueryCount(db.bookings, db.items, SelectorOf(role, userId), ConditionOf(state, now), OrderOf(state), b);
  }

  /** For either role, the CURRENT, PAST and FUTURE listings together hold
      the ALL listing, each booking exactly once. */
  lemma StatesPartition(db: Db, userId: Id, role: Role, now: Instant)
    requires db.Valid()
    requires userId in db.users
    ensures var current := GetAllBookingsFromUser(db, userId, Current, Some(role), now).value;
            var past := GetAllBookingsFromUser(db, userId, Past, Some(role), now).value;
            var future := GetAllBookingsFromUser(db, userId, Future, Some(role), now).value;
            var all := GetAllBookingsFromUser(db, userId, All, Some(role), now).value;
            multiset(current) + multiset(past) + multiset(future) == multiset(all)
  {
    var sel := SelectorOf(role, userId);
    var current := GetAllBookingsFromUser(db, userId, Current, Some(role), now).value;
    var past := GetAllBookingsFromUser(db, userId, Past, Some(role), now).value;
    var future := GetAllBookingsFromUser(db, userId, Future, Some(role), now).value;
    var all := GetAllBookingsFromUser(db, userId, All, Some(role), now).value;
    assert ConditionOf(Current, now) == CurrentAt(now) && OrderOf(Current) == ByStartThenEnd;
    assert ConditionOf(Past, now) == PastAt(now) && OrderOf(Past) == ByStartThenEnd;
    assert ConditionOf(Future, now) == FutureAt(now) && OrderOf(Future) == ByStartThenEnd;
    assert ConditionOf(All, now) == AnyTime && OrderOf(All) == ByStart;
    ListingIsQuery(db, userId, Current, role, now);
    ListingIsQuery(db, userId, Past, role, now);
    ListingIsQuery(db, userId, Future, role, now);
    ListingIsQuery(db, userId, All, role, now);
    StoredPeriodsNonEmpty(db);
    TemporalPartition(db.bookings, db.items, sel, now);
    SameSums(current, past, future, all,
             Query(db.bookings, db.items, sel, CurrentAt(now), ByStartThenEnd),
             Query(db.bookings, db.items, sel, PastAt(now), ByStartThenEnd),
             Query(db.bookings, db.items, sel, FutureAt(now), ByStartThenEnd),
             Query(db.bookings, db.items, sel, AnyTime, ByStart));
  }

  /** Three sequences that hold the same elements as three others add up
      to what the others add up to. */
  lemma SameSums<T>(a: seq<T>, b: seq<T>, c: seq<T>, d: seq<T>, a': seq<T>, b': seq<T>, c': seq<T>, d': seq<T>)
    requires multiset(a) == multiset(a') && multiset(b) == multiset(b')
    requires multiset(c) == multiset(c') && multiset(d) == multiset(d')
    requires multiset(a') + multiset(b') + multiset(c') == multiset(d')
    ensures multiset(a) + multiset(b) + multiset(c) == multiset(d)
  {
  }
}
