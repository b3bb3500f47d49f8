/** Rules about items shared by the in-memory item repository and the item
    service: the partial-update merge, and the filters behind "items of an
    owner", "items answering a request" and the rental search. */
module ItemCatalog {
  import opened Common
  import opened Entities

  /** The item after a partial update: a field given in the patch
      overwrites, an absent one keeps the stored value. */
  function Patched(it: Item, patch: ItemPatch): (r: Item)
    ensures r.id == it.id && r.ownerId == it.ownerId && r.requestId == it.requestId
    ensures r.name == (if patch.name.Some? then patch.name.value else it.name)
    ensures r.description == (if patch.description.Some? then patch.description.value else it.description)
    ensures r.available == (if patch.available.Some? then patch.available.value else it.available)
  {
    it.(name := patch.name.GetOr(it.name),
        description := patch.description.GetOr(it.description),
        available := patch.available.GetOr(it.available))
  }

  /** The text occurs, ignoring case, in the item's name or description. */
  predicate MentionsText(it: Item, text: string) {
    ContainsIgnoreCase(it.name, text) || ContainsIgnoreCase(it.description, text)
  }

  datatype ItemFilter =
    | OwnedBy(ownerId: Id)
    | ForRequest(requestId: Id)
      /** An available item that mentions the text. */
    | ForRental(text: string)
      /** What the derived query
          `findItemByAvailableIsTrueAndNameContainsIgnoreCaseOrDescriptionContainsIgnoreCase`
          selects: its `Or` binds looser than its `And`. */
    | ForRentalAsDerived(text: string)

  predicate ItemMatches(it: Item, f: ItemFilter) {
    match f
    case OwnedBy(u) => it.ownerId == u
    case ForRequest(q) => it.requestId == Some(q)
    case ForRental(t) => it.available && MentionsText(it, t)
    case ForRentalAsDerived(t) =>
      (it.available && ContainsIgnoreCase(it.name, t)) || ContainsIgnoreCase(it.description, t)
  }

  /** The rows that pass the filter, in scan order. */
  function FilterItems(rows: seq<Item>, f: ItemFilter): (r: seq<Item>)
    ensures |r| <= |rows|
    ensures forall it :: it in r <==> it in rows && ItemMatches(it, f)
  {
    if rows == [] then []
    else (if ItemMatches(rows[0], f) then [rows[0]] else []) + FilterItems(rows[1..], f)
  }

  /** The stored items that pass the filter, in ascending id order. */
  function SelectItems(items: map<Id, Item>, f: ItemFilter): (r: seq<Item>)
    ensures forall it :: it in r <==> it in items.Values && ItemMatches(it, f)
  {
    FilterItems(Rows(items), f)
  }

  /** Filtering keeps each passing row as often as the rows hold it and
      drops every other row. */
  lemma {:induction false} FilterItemsCount(rows: seq<Item>, f: ItemFilter, x: Item)
    ensures multiset(FilterItems(rows, f))[x] == if ItemMatches(x, f) then multiset(rows)[x] else 0
  {
    if rows != [] {
      assert rows == [rows[0]] + rows[1..];
      FilterItemsCount(rows[1..], f, x);
    }
  }

  /** In a table whose rows carry their own key as id, a selection lists
      every stored item that passes the filter exactly once. */
  lemma SelectItemsCount(items: map<Id, Item>, f: ItemFilter, x: Item)
    requires forall k :: k in items ==> items[k].id == k
    ensures multiset(SelectItems(items, f))[x] == if x in items.Values && ItemMatches(x, f) then 1 else 0
  {
    RowsCount(items, x);
    FilterItemsCount(Rows(items), f, x);
  }

  /** The rental search does not depend on the case of the search text. */
  lemma {:induction false} RentalSearchIgnoresCase(rows: seq<Item>, text: string)
    ensures FilterItems(rows, ForRental(Lower(text))) == FilterItems(rows, ForRental(text))
  {
    if rows != [] {
      ContainsIgnoreCaseOfLower(rows[0].name, text);
      ContainsIgnoreCaseOfLower(rows[0].description, text);
      RentalSearchIgnoresCase(rows[1..], text);
    }
  }

  /** The derived query returns an unavailable item whose description
      mentions the text, which the rental search excludes. */
  lemma DerivedQueryReturnsUnavailable()
    ensures var rake := Item(1, "rake", "saw", false, 1, None);
            && SelectItems(map[1 := rake], ForRentalAsDerived("saw")) == [rake]
            && SelectItems(map[1 := rake], ForRental("saw")) == []
  {
    var rake := Item(1, "rake", "saw", false, 1, None);
    assert Lower("saw") == "saw";
    assert OccursAt(Lower("saw"), Lower("saw"), 0);
    assert Rows(map[1 := rake]) == [rake];
  }
}
