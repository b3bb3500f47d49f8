/** The in-memory item repository: a map from id to item and an id counter.
    Items are stored by reference and updated field by field. */
module InMemoryItemStorage {
  import opened Common
  import opened Entities
  import opened ItemCatalog

  class ItemStorage {
    var items: map<Id, Item>
    var countId: int

    /** Ids are positive, never above the counter, and match their key. */
    ghost predicate Valid()
      reads this
    {
      && countId >= 0
      && (forall k :: k in items ==> 0 < k <= countId && items[k].id == k)
    }

    constructor ()
      ensures Valid()
      ensures items == map[] && countId == 0
    {
      items := map[];
      countId := 0;
    }

    /** Stores a new item under the next counter value, owned by `ownerId`.
        The request link is taken from the incoming id field. */
    method AddItem(ownerId: Id, dto: ItemDto) returns (r: Item)
      requires Valid()
      modifies this
      ensures Valid()
      ensures countId == old(countId) + 1
      ensures r == Item(countId, dto.name, dto.description, dto.available, ownerId, dto.id)
      ensures r.id !in old(items) && forall k :: k in old(items) ==> k < r.id
      ensures items == old(items)[r.id := r]
      ensures GetItem(r.id) == Ok(r)
    {
      countId := countId + 1;
      r := Item(countId, dto.name, dto.description, dto.available, ownerId, dto.id);
      items := items[countId := r];
    }

    /** The stored item, or NotFound. */
    function GetItem(id: Id): (r: Result<Item>)
      reads this
      ensures r.Ok? <==> id in items
      ensures r.Ok? ==> r.value == items[id]
      ensures r.Err? ==> r.error == NotFound
    {
      if id in items then Ok(items[id]) else Err(NotFound)
    }

    /** The owner's update overwrites the fields the patch gives; anybody
        else's update leaves the item as it was and still succeeds. An
        absent id is dereferenced and fails with NullPointer. */
    method UpdateItem(userId: Id, id: Id, patch: ItemPatch) returns (r: Result<Item>)
      requires Valid()
      modifies this`items
      ensures Valid()
      ensures id !in old(items) ==> r == Err(NullPointer) && items == old(items)
      ensures id in old(items) && old(items)[id].ownerId == userId ==>
                r == Ok(Patched(old(items)[id], patch)) && items == old(items)[id := r.value]
      ensures id in old(items) && old(items)[id].ownerId != userId ==>
                r == Ok(old(items)[id]) && items == old(items)
    {
      if id !in items {
        return Err(NullPointer);
      }
      var item := items[id];
      if item.ownerId == userId {
        if patch.name.Some? {
          item := item.(name := patch.name.value);
        }
        if patch.description.Some? {
          item := item.(description := patch.description.value);
        }
        if patch.available.Some? {
          item := item.(available := patch.available.value);
        }
      }
      items := items[id := item];
      r := Ok(item);
    }

    /** Every stored item whose owner is `userId`. */
    function GetAllItemsOfUser(userId: Id): (r: seq<Item>)
      reads this
      ensures forall it :: it in r <==> it in items.Values && it.ownerId == userId
    {
      SelectItems(items, OwnedBy(userId))
    }

    /** Nothing for an absent or empty text; otherwise every available item
        whose name or description contains the text, ignoring case. */
    function SearchItemsForRental(text: Option<string>): (r: seq<Item>)
      reads this
      ensures text.None? || text == Some("") ==> r == []
      ensures text.Some? && text.value != "" ==>
                forall it :: it in r <==> it in items.Values && it.available && MentionsText(it, text.value)
    {
      if text.None? || text.value == "" then []
      else SelectItems(items, ForRental(text.value))
    }

    /** Each stored item of the owner is listed exactly once. */
    lemma ItemsOfUserCount(userId: Id, it: Item)
      requires Valid()
      ensures multiset(GetAllItemsOfUser(userId))[it] == if it in items.Values && it.ownerId == userId then 1 else 0
    {
      SelectItemsCount(items, OwnedBy(userId), it);
    }

    /** For a non-empty text, each stored item the search finds is listed
        exactly once. */
    lemma SearchCount(text: string, it: Item)
      requires Valid()
      requires text != ""
      ensures multiset(SearchItemsForRental(Some(text)))[it]
           == if it in items.Values && it.available && MentionsText(it, text) then 1 else 0
    {
      SelectItemsCount(items, ForRental(text), it);
    }
  }
}
