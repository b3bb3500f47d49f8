/** The item service over the relational store: creating and editing
    items, looking them up with their nearest bookings and their comments,
    the rental search, and commenting on a finished rental. */
module ItemService {
  import opened Common
  import opened Entities
  import opened Database
  import opened ItemCatalog
  import opened BookingDbStorage

  /** An item with a booking of it that started more than thirty seconds
      ago, a booking of it that starts after now, and its comments. */
  datatype ItemDtoTime = ItemDtoTime(
    item: Item,
    lastBooking: Option<Booking>,
    nextBooking: Option<Booking>,
    comments: seq<Comment>)

  /** How far before the current instant a booking must have started to
      count as the item's last one. */
  const LastBookingMargin: int := 30 * Second

  /** The stored item, or NotFound. */
  function FindItemById(db: Db, id: Id): (r: Result<Item>)
    reads db
    ensures r.Ok? <==> id in db.items
    ensures r.Ok? ==> r.value == db.items[id]
    ensures r.Err? ==> r.error == NotFound
  {
    if id in db.items then Ok(db.items[id]) else Err(NotFound)
  }

  /** Saves a new item owned by the caller under the next identity. The
      caller must be a stored user, and a request the item answers must be
      stored. */
  method CreateItem(db: Db, userId: Id, dto: ItemDto) returns (r: Result<Item>)
    requires db.Valid()
    modifies db`items, db`lastItemId
    ensures db.Valid()
    ensures r.Err? ==> r.error == NotFound && db.items == old(db.items) && db.lastItemId == old(db.lastItemId)
    ensures r.Err? <==> userId !in db.users || (dto.requestId.Some? && dto.requestId.value !in db.requests)
    ensures r.Ok? ==>
              && db.lastItemId == old(db.lastItemId) + 1
              && r.value == Item(db.lastItemId, dto.name, dto.description, dto.available, userId, dto.requestId)
              && r.value.id !in old(db.items)
              && db.items == old(db.items)[r.value.id := r.value]
    ensures r.Ok? ==> FindItemById(db, r.value.id) == r
  {
    if userId !in db.users {
      return Err(NotFound);
    }
    if dto.requestId.Some? && dto.requestId.value !in db.requests {
      return Err(NotFound);
    }
    var item := db.InsertItem(dto.name, dto.description, dto.available, userId, dto.requestId);
    r := Ok(item);
  }

  /** The comments on an item, in scan order. */
  function FilterComments(rows: seq<Comment>, itemId: Id): (r: seq<Comment>)
    ensures forall c :: c in r <==> c in rows && c.itemId == itemId
  {
    if rows == [] then []
    else (if rows[0].itemId == itemId then [rows[0]] else []) + FilterComments(rows[1..], itemId)
  }

  /** Filtering keeps each comment on the item as often as the rows hold
      it and drops every other comment. */
  lemma {:induction false} FilterCommentsCount(rows: seq<Comment>, itemId: Id, c: Comment)
    ensures multiset(FilterComments(rows, itemId))[c] == if c.itemId == itemId then multiset(rows)[c] else 0
  {
    if rows != [] {
      assert rows == [rows[0]] + rows[1..];
      FilterCommentsCount(rows[1..], itemId, c);
    }
  }

  /** `findByItemId` on the comment table. */
  function CommentsOfItem(comments: map<Id, Comment>, itemId: Id): (r: seq<Comment>)
    ensures forall c :: c in r <==> c in comments.Values && c.itemId == itemId
  {
    FilterComments(Rows(comments), itemId)
  }

  /** In a table whose rows carry their own key as id, each comment on the
      item is listed exactly once. */
  lemma CommentsOfItemCount(comments: map<Id, Comment>, itemId: Id, c: Comment)
    requires forall k :: k in comments ==> comments[k].id == k
    ensures multiset(CommentsOfItem(comments, itemId))[c] == if c in comments.Values && c.itemId == itemId then 1 else 0
  {
    RowsCount(comments, c);
    FilterCommentsCount(Rows(comments), itemId, c);
  }

  /** The item with its last and next booking and its comments, at the
      instant `now`. The last booking is one of the item's bookings that
      started more than thirty seconds before `now`, the next one is one
      that starts after `now`; each is absent exactly when no booking
      qualifies. */
  method FindItemDtoTimeById(db: Db, id: Id, now: Instant) returns (r: Result<ItemDtoTime>)
    ensures r.Err? <==> id !in db.items
    ensures r.Err? ==> r.error == NotFound
    ensures r.Ok? ==> r.value.item == db.items[id]
    ensures r.Ok? ==> (r.value.lastBooking.None? <==> !AnyMatch(db.bookings, db.items, OfItem(id), StartsBefore(now - LastBookingMargin)))
    ensures r.Ok? && r.value.lastBooking.Some? ==>
              var b := r.value.lastBooking.value;
              b in db.bookings.Values && b.itemId == id && b.start < now - LastBookingMargin
    ensures r.Ok? ==> (r.value.nextBooking.None? <==> !AnyMatch(db.bookings, db.items, OfItem(id), StartsAfter(now)))
    ensures r.Ok? && r.value.nextBooking.Some? ==>
              var b := r.value.nextBooking.value;
              b in db.bookings.Values && b.itemId == id && b.start > now
    ensures r.Ok? ==> forall c :: c in r.value.comments <==> c in db.comments.Values && c.itemId == id
    ensures r.Ok? ==> r.value.comments == CommentsOfItem(db.comments, id)
    ensures r.Ok? && db.Valid() ==>
              forall c :: multiset(r.value.comments)[c] == if c in db.comments.Values && c.itemId == id then 1 else 0
  {
    var found := FindItemById(db, id);
    if found.Err? {
      return Err(found.error);
    }
    var last := FindOne(db.bookings, db.items, OfItem(id), StartsBefore(now - LastBookingMargin));
    var next := FindOne(db.bookings, db.items, OfItem(id), StartsAfter(now));
    var comments := CommentsOfItem(db.comments, id);
    if db.Valid() {
      StoredCommentsOnce(db, id);
    }
    r := Ok(ItemDtoTime(found.value, last, next, comments));
  }

  /** In a valid store, each stored comment on the item is listed exactly
      once. */
  lemma StoredCommentsOnce(db: Db, id: Id)
    requires db.Valid()
    ensures forall c :: multiset(CommentsOfItem(db.comments, id))[c] == if c in db.comments.Values && c.itemId == id then 1 else 0
  {
    forall c {
      CommentsOfItemCount(db.comments, id, c);
    }
  }

  /** The last booking of an item started strictly before its next one,
      so the two are never the same booking. */
  lemma LastBeforeNext(now: Instant, last: Booking, next: Booking)
    requires Holds(last, StartsBefore(now - LastBookingMargin))
    requires Holds(next, StartsAfter(now))
    ensures last.start < next.start && last != next
  {
  }

  /** A booking that starts within the thirty seconds up to `now`, or at
      `now`, is neither the last nor the next booking. */
  lemma MarginIsNeither(now: Instant, b: Booking)
    requires now - LastBookingMargin <= b.start <= now
    ensures !Holds(b, StartsBefore(now - LastBookingMargin)) && !Holds(b, StartsAfter(now))
  {
  }

  /** The stored items that answer the request. */
  function FindItemByRequestId(db: Db, requestId: Id): (r: seq<Item>)
    reads db
    ensures forall it :: it in r <==> it in db.items.Values && it.requestId == Some(requestId)
  {
    SelectItems(db.items, ForRequest(requestId))
  }

  /** Each stored item answering the request is listed exactly once. */
  lemma ItemsByRequestCount(db: Db, requestId: Id, it: Item)
    requires db.Valid()
    ensures multiset(FindItemByRequestId(db, requestId))[it]
         == if it in db.items.Values && it.requestId == Some(requestId) then 1 else 0
  {
    SelectItemsCount(db.items, ForRequest(requestId), it);
  }

  /** NotFound for an unknown caller or item, Conflict when the caller does
      not own the item; otherwise the item is saved with every field the
      patch gives replaced. The saved row is built afresh from the patch,
      so it no longer refers to a request. */
  method UpdateItem(db: Db, userId: Id, id: Id, patch: ItemPatch) returns (r: Result<Item>)
    requires db.Valid()
    modifies db`items
    ensures db.Valid()
    ensures userId !in db.users ==> r == Err(NotFound)
    ensures userId in db.users && id !in old(db.items) ==> r == Err(NotFound)
    ensures userId in db.users && id in old(db.items) && old(db.items)[id].ownerId != userId ==> r == Err(Conflict)
    ensures r.Err? ==> db.items == old(db.items)
    ensures userId in db.users && id in old(db.items) && old(db.items)[id].ownerId == userId ==>
              && r == Ok(Patched(old(db.items)[id], patch).(requestId := None))
              && db.items == old(db.items)[id := r.value]
  {
    if userId !in db.users {
      return Err(NotFound);
    }
    var found := FindItemById(db, id);
    if found.Err? {
      return Err(found.error);
    }
    var item := found.value;
    if item.ownerId != userId {
      return Err(Conflict);
    }
    var updated := Item(id,
                        patch.name.GetOr(item.name),
                        patch.description.GetOr(item.description),
                        patch.available.GetOr(item.available),
                        item.ownerId,
                        None);
    db.UpdateItemRow(updated);
    r := Ok(updated);
  }

  /** The items the user owns, after checking that the user exists. */
  function GetAllItemsOfUser(db: Db, userId: Id): (r: Result<seq<Item>>)
    reads db
    ensures r.Err? <==> userId !in db.users
    ensures r.Err? ==> r.error == NotFound
    ensures r.Ok? ==> forall it :: it in r.value <==> it in db.items.Values && it.ownerId == userId
  {
    if userId !in db.users then Err(NotFound)
    else Ok(SelectItems(db.items, OwnedBy(userId)))
  }

  /** For a known user, each stored item the user owns is listed exactly
      once. */
  lemma ItemsOfUserCount(db: Db, userId: Id, it: Item)
    requires db.Valid()
    requires userId in db.users
    ensures multiset(GetAllItemsOfUser(db, userId).value)[it]
         == if it in db.items.Values && it.ownerId == userId then 1 else 0
  {
    SelectItemsCount(db.items, OwnedBy(userId), it);
  }

  /** The rental search as the derived query spells it: for a non-empty
      text, the items that are available and have the text in their name,
      together with every item that has the text in its description. */
  function SearchItemsForRentalAsWritten(db: Db, text: Option<string>): (r: seq<Item>)
    reads db
    ensures text.None? || text == Some("") ==> r == []
    ensures text.Some? && text.value != "" ==>
              forall it :: it in r <==> (it in db.items.Values &&
                ((it.available && ContainsIgnoreCase(it.name, text.value)) || ContainsIgnoreCase(it.description, text.value)))
  {
    if text.None? || text.value == "" then []
    else SelectItems(db.items, ForRentalAsDerived(text.value))
  }

  /** The rental search: nothing for an absent or empty text, otherwise
      the available items whose name or description contains the text,
      ignoring case. */
  function SearchItemsForRental(db: Db, text: Option<string>): (r: seq<Item>)
    reads db
    ensures text.None? || text == Some("") ==> r == []
    ensures text.Some? && text.value != "" ==>
              forall it :: it in r <==> it in db.items.Values && it.available && MentionsText(it, text.value)
    ensures forall it :: it in r ==> it.available
  {
    if text.None? || text.value == "" then []
    else SelectItems(db.items, ForRental(text.value))
  }

  /** For a non-empty text, each stored item the search finds is listed
      exactly once. */
  lemma SearchCount(db: Db, text: string, it: Item)
    requires db.Valid()
    requires text != ""
    ensures multiset(SearchItemsForRental(db, Some(text)))[it]
         == if it in db.items.Values && it.available && MentionsText(it, text) then 1 else 0
  {
    SelectItemsCount(db.items, ForRental(text), it);
  }

  /** Some booking of the item by the user ended before `time`, whatever
      its status. */
  predicate HasFinishedBooking(bookings: map<Id, Booking>, itemId: Id, userId: Id, time: Instant) {
    exists b :: b in bookings.Values && b.itemId == itemId && b.bookerId == userId && b.end < time
  }

  /** The ended-bookings query finds something exactly when the user has
      a finished booking of the item. */
  lemma FinishedBookingFound(bookings: map<Id, Booking>, itemId: Id, userId: Id, time: Instant)
    ensures FindEnded(bookings, itemId, userId, time) != [] <==> HasFinishedBooking(bookings, itemId, userId, time)
  {
    var ended := FindEnded(bookings, itemId, userId, time);
    if ended != [] {
      assert ended[0] in ended;
    }
    if HasFinishedBooking(bookings, itemId, userId, time) {
      var b :| b in bookings.Values && b.itemId == itemId && b.bookerId == userId && b.end < time;
      assert b in ended;
    }
  }

  /** Saves a comment by the user on the item, dated `now`, provided both
      exist and the user has a booking of the item that ended before `now`;
      otherwise NotFound or BadRequest and nothing is saved. */
  method AddComment(db: Db, userId: Id, itemId: Id, text: string, now: Instant) returns (r: Result<Comment>)
    requires db.Valid()
    modifies db`comments, db`lastCommentId
    ensures db.Valid()
    ensures old(userId !in db.users || itemId !in db.items) ==> r == Err(NotFound)
    ensures old(userId in db.users && itemId in db.items && !HasFinishedBooking(db.bookings, itemId, userId, now)) ==>
              r == Err(BadRequest)
    ensures r.Err? ==> db.comments == old(db.comments) && db.lastCommentId == old(db.lastCommentId)
    ensures old(userId in db.users && itemId in db.items && HasFinishedBooking(db.bookings, itemId, userId, now)) ==>
              && db.lastCommentId == old(db.lastCommentId) + 1
              && r == Ok(Comment(db.lastCommentId, text, itemId, userId, now))
              && r.value.id !in old(db.comments)
              && db.comments == old(db.comments)[r.value.id := r.value]
  {
    if userId !in db.users {
      return Err(NotFound);
    }
    var found := FindItemById(db, itemId);
    if found.Err? {
      return Err(found.error);
    }
    var ended := FindEnded(db.bookings, itemId, userId, now);
    FinishedBookingFound(db.bookings, itemId, userId, now);
    if ended == [] {
      return Err(BadRequest);
    }
    var comment := db.InsertComment(text, itemId, userId, now);
    r := Ok(comment);
  }
}
