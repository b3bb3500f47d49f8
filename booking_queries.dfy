/** The booking repository's queries: which bookings each one selects and
    in which order it returns them. Every query is a filter over the
    booking table (scanned in id order) followed by a stable sort. */
module BookingDbStorage {
  import opened Common
  import opened Entities

  /** Whose bookings a query looks at. The owner's bookings are found by
      joining each booking's item and comparing the item's owner. */
  datatype Selector =
    | OfBooker(bookerId: Id)
    | OfOwner(ownerId: Id)
    | OfItem(itemId: Id)
    | OfItemAndBooker(itemId: Id, bookerId: Id)

  predicate Selected(items: map<Id, Item>, b: Booking, sel: Selector) {
    match sel
    case OfBooker(u) => b.bookerId == u
    case OfOwner(u) => b.itemId in items && items[b.itemId].ownerId == u
    case OfItem(i) => b.itemId == i
    case OfItemAndBooker(i, u) => b.itemId == i && b.bookerId == u
  }

  /** `start < time and end >= time`. */
  predicate IsCurrent(b: Booking, time: Instant) {
    b.start < time && b.end >= time
  }

  /** `end < time`. */
  predicate IsPast(b: Booking, time: Instant) {
    b.end < time
  }

  /** `start >= time`. */
  predicate IsFuture(b: Booking, time: Instant) {
    b.start >= time
  }

  /** The condition a query puts on a booking besides whose it is. */
  datatype Condition =
    | AnyTime
    | HasStatus(status: Status)
    | CurrentAt(time: Instant)
    | PastAt(time: Instant)
    | FutureAt(time: Instant)
    | StartsBefore(time: Instant)
    | StartsAfter(time: Instant)

  predicate Holds(b: Booking, cond: Condition) {
    match cond
    case AnyTime => true
    case HasStatus(s) => b.status == s
    case CurrentAt(t) => IsCurrent(b, t)
    case PastAt(t) => IsPast(b, t)
    case FutureAt(t) => IsFuture(b, t)
    case StartsBefore(t) => b.start < t
    case StartsAfter(t) => b.start > t
  }

  predicate Matches(items: map<Id, Item>, b: Booking, sel: Selector, cond: Condition) {
    Selected(items, b, sel) && Holds(b, cond)
  }

  /** The rows that match, in scan order. */
  function FilterBookings(rows: seq<Booking>, items: map<Id, Item>, sel: Selector, cond: Condition): (r: seq<Booking>)
    ensures |r| <= |rows|
    ensures forall b :: b in r <==> b in rows && Matches(items, b, sel, cond)
  {
    if rows == [] then []
    else (if Matches(items, rows[0], sel, cond) then [rows[0]] else []) + FilterBookings(rows[1..], items, sel, cond)
  }

  // ---------------------------------------------------------------------
  // ORDER BY
  // ---------------------------------------------------------------------

  /** `order by start` or `order by start, end`. */
  datatype Order = ByStart | ByStartThenEnd

  predicate InOrder(a: Booking, b: Booking, order: Order) {
    match order
    case ByStart => a.start <= b.start
    case ByStartThenEnd => a.start < b.start || (a.start == b.start && a.end <= b.end)
  }

  predicate Sorted(s: seq<Booking>, order: Order) {
    forall i, j :: 0 <= i < j < |s| ==> InOrder(s[i], s[j], order)
  }

  lemma InOrderTransitive(a: Booking, b: Booking, c: Booking, order: Order)
    requires InOrder(a, b, order) && InOrder(b, c, order)
    ensures InOrder(a, c, order)
  {
  }

  /** A sorted sequence stays sorted under a head that precedes all of it. */
  lemma SortedCons(h: Booking, s: seq<Booking>, order: Order)
    requires Sorted(s, order)
    requires forall e :: e in s ==> InOrder(h, e, order)
    ensures Sorted([h] + s, order)
  {
    var r := [h] + s;
    forall i, j | 0 <= i < j < |r| ensures InOrder(r[i], r[j], order) {
      assert r[j] == s[j - 1];
      if i > 0 {
        assert r[i] == s[i - 1];
      }
    }
  }

  /** Inserts `x` before the first element it may precede. */
  function Insert(x: Booking, s: seq<Booking>, order: Order): (r: seq<Booking>)
    requires Sorted(s, order)
    ensures |r| == |s| + 1
    ensures forall b :: b in r <==> b == x || b in s
    ensures Sorted(r, order)
  {
    if s == [] || InOrder(x, s[0], order) then
      assert forall e :: e in s ==> InOrder(x, e, order) by {
        forall e | e in s ensures InOrder(x, e, order) {
          var j :| 0 <= j < |s| && s[j] == e;
          if j > 0 {
            InOrderTransitive(x, s[0], e, order);
          }
        }
      }
      SortedCons(x, s, order);
      [x] + s
    else
      var rest := Insert(x, s[1..], order);
      assert forall e :: e in s[1..] ==> InOrder(s[0], e, order);
      SortedCons(s[0], rest, order);
      [s[0]] + rest
  }

  lemma {:induction false} InsertPermutes(x: Booking, s: seq<Booking>, order: Order)
    requires Sorted(s, order)
    ensures multiset(Insert(x, s, order)) == multiset(s) + multiset{x}
  {
    if s != [] && !InOrder(x, s[0], order) {
      InsertPermutes(x, s[1..], order);
      assert s == [s[0]] + s[1..];
    }
  }

  /** A stable insertion sort: the rows reordered by `order`. */
  function SortBookings(s: seq<Booking>, order: Order): (r: seq<Booking>)
    ensures |r| == |s|
    ensures forall b :: b in r <==> b in s
    ensures Sorted(r, order)
  {
    if s == [] then []
    else Insert(s[0], SortBookings(s[1..], order), order)
  }

  /** Sorting neither adds, drops nor duplicates a row. */
  lemma {:induction false} SortPermutes(s: seq<Booking>, order: Order)
    ensures multiset(SortBookings(s, order)) == multiset(s)
  {
    if s != [] {
      SortPermutes(s[1..], order);
      InsertPermutes(s[0], SortBookings(s[1..], order), order);
      assert s == [s[0]] + s[1..];
    }
  }

  /** A query: the stored bookings that match, sorted. */
  function Query(bookings: map<Id, Booking>, items: map<Id, Item>, sel: Selector, cond: Condition, order: Order): (r: seq<Booking>)
    ensures forall b :: b in r <==> b in bookings.Values && Matches(items, b, sel, cond)
    ensures Sorted(r, order)
  {
    SortBookings(FilterBookings(Rows(bookings), items, sel, cond), order)
  }

  /** A query returns each matching row of the table scan once. */
  lemma QueryPermutes(bookings: map<Id, Booking>, items: map<Id, Item>, sel: Selector, cond: Condition, order: Order)
    ensures multiset(Query(bookings, items, sel, cond, order)) == multiset(FilterBookings(Rows(bookings), items, sel, cond))
  {
    SortPermutes(FilterBookings(Rows(bookings), items, sel, cond), order);
  }

  /** In a table whose rows carry their own key as id, a query returns
      every stored booking that matches exactly once. */
  lemma QueryCount(bookings: map<Id, Booking>, items: map<Id, Item>, sel: Selector, cond: Condition, order: Order, b: Booking)
    requires forall k :: k in bookings ==> bookings[k].id == k
    ensures multiset(Query(bookings, items, sel, cond, order))[b]
         == if b in bookings.Values && Matches(items, b, sel, cond) then 1 else 0
  {
    QueryPermutes(bookings, items, sel, cond, order);
    FilterCount(Rows(bookings), items, sel, cond, b);
    RowsCount(bookings, b);
  }

  /** Some stored booking satisfies the query's condition. */
  predicate AnyMatch(bookings: map<Id, Booking>, items: map<Id, Item>, sel: Selector, cond: Condition) {
    exists b :: b in bookings.Values && Matches(items, b, sel, cond)
  }

  /** A query whose return type is a single booking: one of the matching
      bookings, or none when nothing matches. The contract leaves open
      which matching row comes back; this body takes the first in start
      order. */
  method FindOne(bookings: map<Id, Booking>, items: map<Id, Item>, sel: Selector, cond: Condition) returns (r: Option<Booking>)
    ensures r.None? <==> !AnyMatch(bookings, items, sel, cond)
    ensures r.Some? ==> r.value in bookings.Values && Matches(items, r.value, sel, cond)
  {
    var found := Query(bookings, items, sel, cond, ByStart);
    if found == [] {
      return None;
    }
    assert found[0] in found;
    r := Some(found[0]);
  }

  /** `findByItemIdAndBookerIdAndEndBefore`: the bookings of that item by
      that booker that ended before `time`, in scan order. */
  function FindEnded(bookings: map<Id, Booking>, itemId: Id, bookerId: Id, time: Instant): (r: seq<Booking>)
    ensures forall b :: b in r <==> b in bookings.Values && b.itemId == itemId && b.bookerId == bookerId && b.end < time
  {
    var rows := Rows(bookings);
    var r := FilterBookings(rows, map[], OfItemAndBooker(itemId, bookerId), PastAt(time));
    assert forall b :: b in r <==> b in rows && b.itemId == itemId && b.bookerId == bookerId && b.end < time;
    r
  }

  // ---------------------------------------------------------------------
  // CURRENT, PAST and FUTURE partition a user's bookings
  // ---------------------------------------------------------------------

  /** A booking with `start < end` is in exactly one of the three windows. */
  lemma OneWindow(b: Booking, time: Instant)
    requires b.start < b.end
    ensures IsCurrent(b, time) || IsPast(b, time) || IsFuture(b, time)
    ensures !(IsCurrent(b, time) && IsPast(b, time))
    ensures !(IsCurrent(b, time) && IsFuture(b, time))
    ensures !(IsPast(b, time) && IsFuture(b, time))
  {
  }

  /** A row occurs in the filtered rows as often as in the rows when it
      matches, and not at all otherwise. */
  lemma {:induction false} FilterCount(rows: seq<Booking>, items: map<Id, Item>, sel: Selector, cond: Condition, x: Booking)
    ensures multiset(FilterBookings(rows, items, sel, cond))[x]
         == if Matches(items, x, sel, cond) then multiset(rows)[x] else 0
  {
    if rows != [] {
      assert rows == [rows[0]] + rows[1..];
      FilterCount(rows[1..], items, sel, cond, x);
    }
  }

  /** One row's count in the three window filters adds up to its count in
      the unrestricted filter. */
  lemma WindowCounts(rows: seq<Booking>, items: map<Id, Item>, sel: Selector, time: Instant, x: Booking)
    requires x in rows ==> x.start < x.end
    ensures multiset(FilterBookings(rows, items, sel, CurrentAt(time)))[x]
          + multiset(FilterBookings(rows, items, sel, PastAt(time)))[x]
          + multiset(FilterBookings(rows, items, sel, FutureAt(time)))[x]
         == multiset(FilterBookings(rows, items, sel, AnyTime))[x]
  {
    FilterCount(rows, items, sel, CurrentAt(time), x);
    FilterCount(rows, items, sel, PastAt(time), x);
    FilterCount(rows, items, sel, FutureAt(time), x);
    FilterCount(rows, items, sel, AnyTime, x);
    var s := Selected(items, x, sel);
    assert Matches(items, x, sel, CurrentAt(time)) == (s && IsCurrent(x, time));
    assert Matches(items, x, sel, PastAt(time)) == (s && IsPast(x, time));
    assert Matches(items, x, sel, FutureAt(time)) == (s && IsFuture(x, time));
    assert Matches(items, x, sel, AnyTime) == s;
    if multiset(rows)[x] > 0 {
      OneWindow(x, time);
    }
  }

  lemma FilterPartition(rows: seq<Booking>, items: map<Id, Item>, sel: Selector, time: Instant)
    requires forall b :: b in rows ==> b.start < b.end
    ensures multiset(FilterBookings(rows, items, sel, CurrentAt(time)))
          + multiset(FilterBookings(rows, items, sel, PastAt(time)))
          + multiset(FilterBookings(rows, items, sel, FutureAt(time)))
         == multiset(FilterBookings(rows, items, sel, AnyTime))
  {
    var c := multiset(FilterBookings(rows, items, sel, CurrentAt(time)));
    var p := multiset(FilterBookings(rows, items, sel, PastAt(time)));
    var f := multiset(FilterBookings(rows, items, sel, FutureAt(time)));
    var a := multiset(FilterBookings(rows, items, sel, AnyTime));
    forall x ensures (c + p + f)[x] == a[x] {
      assert x in rows ==> x.start < x.end;
      WindowCounts(rows, items, sel, time, x);
    }
    assert c + p + f == a;
  }

  /** Given `start < end` for every stored booking, the CURRENT, PAST and
      FUTURE queries of one booker or owner return, between them, exactly
      the bookings the unrestricted query returns, each once. */
  lemma TemporalPartition(bookings: map<Id, Booking>, items: map<Id, Item>, sel: Selector, time: Instant)
    requires forall b :: b in bookings.Values ==> b.start < b.end
    ensures multiset(Query(bookings, items, sel, CurrentAt(time), ByStartThenEnd))
          + multiset(Query(bookings, items, sel, PastAt(time), ByStartThenEnd))
          + multiset(Query(bookings, items, sel, FutureAt(time), ByStartThenEnd))
         == multiset(Query(bookings, items, sel, AnyTime, ByStart))
  {
    var rows := Rows(bookings);
    assert forall b :: b in rows ==> b.start < b.end;
    FilterPartition(rows, items, sel, time);
    QueryPermutes(bookings, items, sel, CurrentAt(time), ByStartThenEnd);
    QueryPermutes(bookings, items, sel, PastAt(time), ByStartThenEnd);
    QueryPermutes(bookings, items, sel, FutureAt(time), ByStartThenEnd);
    QueryPermutes(bookings, items, sel, AnyTime, ByStart);
  }

  /** Each booking with `start < end` that the unrestricted query returns
      is in exactly one of the CURRENT, PAST and FUTURE answers. */
  lemma ExactlyOneWindow(bookings: map<Id, Booking>, items: map<Id, Item>, sel: Selector, time: Instant, b: Booking)
    requires b.start < b.end
    requires b in Query(bookings, items, sel, AnyTime, ByStart)
    ensures var current := b in Query(bookings, items, sel, CurrentAt(time), ByStartThenEnd);
            var past := b in Query(bookings, items, sel, PastAt(time), ByStartThenEnd);
            var future := b in Query(bookings, items, sel, FutureAt(time), ByStartThenEnd);
            (current || past || future) && !(current && past) && !(current && future) && !(past && future)
  {
    assert b in bookings.Values && Selected(items, b, sel);
    assert b in Query(bookings, items, sel, CurrentAt(time), ByStartThenEnd) <==> IsCurrent(b, time);
    assert b in Query(bookings, items, sel, PastAt(time), ByStartThenEnd) <==> IsPast(b, time);
    assert b in Query(bookings, items, sel, FutureAt(time), ByStartThenEnd) <==> IsFuture(b, time);
    OneWindow(b, time);
  }
}
