/** The item-request service: a user asks for an item nobody offers yet,
    and looks the requests up together with the items offered in answer.
    The request repository's two derived queries are modelled here as a
    filter over the request table (scanned in id order), the first one
    followed by a stable sort on the creation instant, newest first. */
module RequestService {
  import opened Common
  import opened Entities
  import opened Database
  import opened UserService
  import opened ItemService

  /** A request with the items that answer it. */
  datatype RequestWithItems = RequestWithItems(request: Request, items: seq<Item>)

  /** The requests of a list of expanded requests, in the same order. */
  function RequestsOf(ws: seq<RequestWithItems>): (r: seq<Request>)
    ensures |r| == |ws|
    ensures forall i :: 0 <= i < |ws| ==> r[i] == ws[i].request
  {
    if ws == [] then [] else [ws[0].request] + RequestsOf(ws[1..])
  }

  // ---------------------------------------------------------------------
  // The repository's derived queries
  // ---------------------------------------------------------------------

  /** `findAllByRequesterId…` and `findAllByRequesterIdNot`. */
  datatype RequestFilter = ByRequester(userId: Id) | NotByRequester(userId: Id)

  predicate Keeps(f: RequestFilter, q: Request) {
    match f
    case ByRequester(u) => q.requesterId == u
    case NotByRequester(u) => q.requesterId != u
  }

  /** The rows the filter keeps, in scan order. */
  function FilterRequests(rows: seq<Request>, f: RequestFilter): (r: seq<Request>)
    ensures |r| <= |rows|
    ensures forall q :: q in r <==> q in rows && Keeps(f, q)
  {
    if rows == [] then []
    else (if Keeps(f, rows[0]) then [rows[0]] else []) + FilterRequests(rows[1..], f)
  }

  /** A user's requests and everybody else's split the scan: each row is in
      exactly one of the two answers. */
  lemma {:induction false} FilterSplit(rows: seq<Request>, userId: Id)
    ensures multiset(FilterRequests(rows, ByRequester(userId))) + multiset(FilterRequests(rows, NotByRequester(userId)))
         == multiset(rows)
  {
    if rows != [] {
      var h, t := rows[0], rows[1..];
      FilterSplit(t, userId);
      assert rows == [h] + t;
      var own, others := FilterRequests(t, ByRequester(userId)), FilterRequests(t, NotByRequester(userId));
      if h.requesterId == userId {
        assert FilterRequests(rows, ByRequester(userId)) == [h] + own;
        assert FilterRequests(rows, NotByRequester(userId)) == others;
      } else {
        assert FilterRequests(rows, ByRequester(userId)) == own;
        assert FilterRequests(rows, NotByRequester(userId)) == [h] + others;
      }
    }
  }

  /** `order by created desc`: no request is older than one after it. */
  predicate NewestFirst(s: seq<Request>) {
    forall i, j :: 0 <= i < j < |s| ==> s[i].created >= s[j].created
  }

  /** Inserts `x` before the first request that is not newer than it. */
  function InsertByCreated(x: Request, s: seq<Request>): (r: seq<Request>)
    requires NewestFirst(s)
    ensures |r| == |s| + 1
    ensures forall q :: q in r <==> q == x || q in s
    ensures NewestFirst(r)
  {
    if s == [] || x.created >= s[0].created then
      NewestFirstCons(x, s);
      [x] + s
    else
      var rest := InsertByCreated(x, s[1..]);
      NewestFirstCons(s[0], rest);
      [s[0]] + rest
  }

  /** A newest-first list stays so under a head no older than its first. */
  lemma NewestFirstCons(h: Request, s: seq<Request>)
    requires NewestFirst(s)
    requires s != [] ==> h.created >= s[0].created
    ensures NewestFirst([h] + s)
  {
    var r := [h] + s;
    forall i, j | 0 <= i < j < |r| ensures r[i].created >= r[j].created {
      if i > 0 {
        assert r[i] == s[i - 1] && r[j] == s[j - 1];
      } else if j > 1 {
        assert s[0].created >= s[j - 1].created;
      }
    }
  }

  lemma {:induction false} InsertByCreatedPermutes(x: Request, s: seq<Request>)
    requires NewestFirst(s)
    ensures multiset(InsertByCreated(x, s)) == multiset(s) + multiset{x}
  {
    if s != [] && x.created < s[0].created {
      InsertByCreatedPermutes(x, s[1..]);
      assert s == [s[0]] + s[1..];
    }
  }

  /** A stable insertion sort, newest request first. */
  function SortNewestFirst(s: seq<Request>): (r: seq<Request>)
    ensures |r| == |s|
    ensures forall q :: q in r <==> q in s
    ensures NewestFirst(r)
  {
    if s == [] then []
    else InsertByCreated(s[0], SortNewestFirst(s[1..]))
  }

  /** Sorting neither adds, drops nor duplicates a request. */
  lemma {:induction false} SortNewestFirstPermutes(s: seq<Request>)
    ensures multiset(SortNewestFirst(s)) == multiset(s)
  {
    if s != [] {
      SortNewestFirstPermutes(s[1..]);
      InsertByCreatedPermutes(s[0], SortNewestFirst(s[1..]));
      assert s == [s[0]] + s[1..];
    }
  }

  /** `findAllByRequesterIdOrderByCreatedDesc`. */
  function RequestsByRequester(requests: map<Id, Request>, userId: Id): (r: seq<Request>)
    ensures forall q :: q in r <==> q in requests.Values && q.requesterId == userId
    ensures NewestFirst(r)
  {
    SortNewestFirst(FilterRequests(Rows(requests), ByRequester(userId)))
  }

  /** `findAllByRequesterIdNot`. */
  function RequestsNotByRequester(requests: map<Id, Request>, userId: Id): (r: seq<Request>)
    ensures forall q :: q in r <==> q in requests.Values && q.requesterId != userId
  {
    FilterRequests(Rows(requests), NotByRequester(userId))
  }

  /** The two queries together return the table scan: every stored request
      once, in one answer or the other. */
  lemma QueriesSplitTable(requests: map<Id, Request>, userId: Id)
    ensures multiset(RequestsByRequester(requests, userId)) + multiset(RequestsNotByRequester(requests, userId))
         == multiset(Rows(requests))
  {
    var rows := Rows(requests);
    SortNewestFirstPermutes(FilterRequests(rows, ByRequester(userId)));
    FilterSplit(rows, userId);
  }

  // ---------------------------------------------------------------------
  // The service
  // ---------------------------------------------------------------------

  /** Saves a request of a stored user, dated `now`; NotFound otherwise. */
  method CreateRequest(db: Db, userId: Id, description: string, now: Instant) returns (r: Result<Request>)
    requires db.Valid()
    modifies db`requests, db`lastRequestId
    ensures db.Valid()
    ensures old(userId !in db.users) ==>
              r == Err(NotFound) && db.requests == old(db.requests) && db.lastRequestId == old(db.lastRequestId)
    ensures old(userId in db.users) ==>
              && db.lastRequestId == old(db.lastRequestId) + 1
              && r == Ok(Request(db.lastRequestId, description, userId, now))
              && r.value.id !in old(db.requests)
              && db.requests == old(db.requests)[r.value.id := r.value]
  {
    var user := FindUserById(db, userId);
    if user.Err? {
      return Err(user.error);
    }
    var request := db.InsertRequest(description, userId, now);
    r := Ok(request);
  }

  /** The stored request, or NotFound. */
  function GetRequestById(db: Db, requestId: Id): (r: Result<Request>)
    reads db
    ensures r.Ok? <==> requestId in db.requests
    ensures r.Ok? ==> r.value == db.requests[requestId]
    ensures r.Err? ==> r.error == NotFound
  {
    if requestId in db.requests then Ok(db.requests[requestId]) else Err(NotFound)
  }

  /** A request with the items offered in answer to it. The caller must be
      a stored user, but need not be the one who made the request. */
  function GetRequestDtoWithItem(db: Db, userId: Id, requestId: Id): (r: Result<RequestWithItems>)
    reads db
    ensures r.Err? <==> userId !in db.users || requestId !in db.requests
    ensures r.Err? ==> r.error == NotFound
    ensures r.Ok? ==> r.value.request == db.requests[requestId]
    ensures r.Ok? ==> forall it :: it in r.value.items <==> it in db.items.Values && it.requestId == Some(requestId)
  {
    match FindUserById(db, userId)
    case Err(e) => Err(e)
    case Ok(_) =>
      match GetRequestById(db, requestId)
      case Err(e) => Err(e)
      case Ok(request) => Ok(RequestWithItems(request, FindItemByRequestId(db, requestId)))
  }

  /** Each stored request of the list, looked up again by its id together
      with its items. */
  function ExpandRequests(db: Db, userId: Id, rs: seq<Request>): (r: seq<RequestWithItems>)
    reads db
    requires userId in db.users
    requires forall q :: q in rs ==> q.id in db.requests && db.requests[q.id] == q
    ensures |r| == |rs|
    ensures forall i :: 0 <= i < |rs| ==> r[i] == RequestWithItems(rs[i], FindItemByRequestId(db, rs[i].id))
  {
    if rs == [] then []
    else
      var head := GetRequestDtoWithItem(db, userId, rs[0].id).value;
      assert head == RequestWithItems(rs[0], FindItemByRequestId(db, rs[0].id));
      [head] + ExpandRequests(db, userId, rs[1..])
  }

  /** The caller's own requests, newest first, each with the items that
      answer it; NotFound for an unknown caller. */
  function GetRequestsByUserId(db: Db, userId: Id): (r: Result<seq<RequestWithItems>>)
    reads db
    requires db.Valid()
    ensures r.Err? <==> userId !in db.users
    ensures r.Err? ==> r.error == NotFound
    ensures r.Ok? ==> forall q :: q in RequestsOf(r.value) <==> q in db.requests.Values && q.requesterId == userId
    ensures r.Ok? ==> NewestFirst(RequestsOf(r.value))
    ensures r.Ok? ==> forall w :: w in r.value ==>
              forall it :: it in w.items <==> it in db.items.Values && it.requestId == Some(w.request.id)
  {
    match FindUserById(db, userId)
    case Err(e) => Err(e)
    case Ok(_) =>
      var own := RequestsByRequester(db.requests, userId);
      StoredRequestsKeyed(db);
      ExpandedRequests(db, userId, own);
      Ok(ExpandRequests(db, userId, own))
  }

  /** The expanded list holds the same requests in the same order, each
      with exactly the items that answer it. */
  lemma ExpandedRequests(db: Db, userId: Id, rs: seq<Request>)
    requires userId in db.users
    requires forall q :: q in rs ==> q.id in db.requests && db.requests[q.id] == q
    ensures RequestsOf(ExpandRequests(db, userId, rs)) == rs
    ensures forall w :: w in ExpandRequests(db, userId, rs) ==>
              forall it :: it in w.items <==> it in db.items.Values && it.requestId == Some(w.request.id)
  {
    var e := ExpandRequests(db, userId, rs);
    forall w | w in e
      ensures forall it :: it in w.items <==> it in db.items.Values && it.requestId == Some(w.request.id)
    {
      var i :| 0 <= i < |e| && e[i] == w;
      assert w == RequestWithItems(rs[i], FindItemByRequestId(db, rs[i].id));
    }
  }

  /** The requests of everybody but the caller, in scan order; NotFound for
      an unknown caller. */
  function GetAllRequests(db: Db, userId: Id): (r: Result<seq<Request>>)
    reads db
    ensures r.Err? <==> userId !in db.users
    ensures r.Err? ==> r.error == NotFound
    ensures r.Ok? ==> forall q :: q in r.value <==> q in db.requests.Values && q.requesterId != userId
  {
    match FindUserById(db, userId)
    case Err(e) => Err(e)
    case Ok(_) => Ok(RequestsNotByRequester(db.requests, userId))
  }

  /** A stored user's own requests and everybody else's requests together
      are the request table, each request listed once. */
  lemma OwnAndOthersRequests(db: Db, userId: Id)
    requires db.Valid()
    requires userId in db.users
    ensures multiset(RequestsOf(GetRequestsByUserId(db, userId).value)) + multiset(GetAllRequests(db, userId).value)
         == multiset(Rows(db.requests))
  {
    assert RequestsOf(GetRequestsByUserId(db, userId).value) == RequestsByRequester(db.requests, userId);
    assert GetAllRequests(db, userId).value == RequestsNotByRequester(db.requests, userId);
    QueriesSplitTable(db.requests, userId);
  }

  /** A known user's own requests list each stored request of the user
      exactly once, everybody else's requests list each other stored
      request exactly once, and no request appears in both. */
  lemma RequestListingsCount(db: Db, userId: Id, q: Request)
    requires db.Valid()
    requires userId in db.users
    ensures multiset(RequestsOf(GetRequestsByUserId(db, userId).value))[q]
         == if q in db.requests.Values && q.requesterId == userId then 1 else 0
    ensures multiset(GetAllRequests(db, userId).value)[q]
         == if q in db.requests.Values && q.requesterId != userId then 1 else 0
  {
    OwnAndOthersRequests(db, userId);
    RowsCount(db.requests, q);
  }
}
