/** ItemStorageInMemory
    (src/main/java/ru/practicum/shareit/item/storage/ItemStorageInMemory.java):
    items in a hash map under ids counted from 1. */
module ItemStorage {
  import opened Outcomes
  import opened Text
  import opened Items

  class ItemStorageInMemory {
    var itemCount: int
    var items: map<int, Item>

    ghost predicate Valid()
      reads this
    {
      1 <= itemCount && forall k :: k in items ==> items[k].id == k && 1 <= k < itemCount
    }

    constructor ()
      ensures Valid()
      ensures items == map[] && itemCount == 1
    {
      itemCount := 1;
      items := map[];
    }

    /** createItem: the item under the next id. */
    method CreateItem(item: Item) returns (created: Item)
      requires Valid()
      modifies this
      ensures Valid()
      ensures created == item.(id := old(itemCount))
      ensures items == old(items)[created.id := created] && itemCount == old(itemCount) + 1
    {
      created := item.(id := itemCount);
      itemCount := itemCount + 1;
      items := items[created.id := created];
    }

    /** updateItem: the stored item with the given item's id takes its name,
        description and availability; owner and request stay. The item must
        be stored (otherwise the source dereferences null). */
    method UpdateItem(updated: Item) returns (item: Item)
      requires Valid()
      requires updated.id in items
      modifies this
      ensures Valid()
      ensures item == old(items)[updated.id].(name := updated.name, description := updated.description,
                                               available := updated.available)
      ensures items == old(items)[updated.id := item] && itemCount == old(itemCount)
    {
      item := items[updated.id];
      item := item.(name := updated.name, description := updated.description, available := updated.available);
      items := items[item.id := item];
    }

    /** getItemById: the stored item, or None for null. */
    function GetItemById(itemId: int): (r: Option<Item>)
      reads this
      requires Valid()
      ensures r.Some? <==> itemId in items
      ensures r.Some? ==> r.value.id == itemId && r.value == items[itemId]
    {
      if itemId in items then Some(items[itemId]) else None
    }

    /** getUserItems: exactly the stored items of the owner. */
    function GetUserItems(ownerId: int): (r: set<Item>)
      reads this
      requires Valid()
      ensures forall it :: it in r <==> it.id in items && items[it.id] == it && it.ownerId == ownerId
    {
      set k | k in items && items[k].ownerId == ownerId :: items[k]
    }

    /** getSearchItems: exactly the stored items the text matches. */
    function GetSearchItems(text: string): (r: set<Item>)
      reads this
      requires Valid()
      ensures forall it :: it in r <==> it.id in items && items[it.id] == it && Matches(it, text)
    {
      set k | k in items && Matches(items[k], text) :: items[k]
    }

    method DeleteItemById(itemId: int)
      requires Valid()
      modifies this
      ensures Valid()
      ensures items == old(items) - {itemId} && itemCount == old(itemCount)
    {
      items := items - {itemId};
    }

    /** A shorter search text finds at least what a longer one containing it
        finds. */
    lemma SearchNarrowing(text: string, part: string)
      requires Valid()
      requires Contains(text, part)
      ensures GetSearchItems(text) <= GetSearchItems(part)
    {
      forall it | it in GetSearchItems(text) ensures it in GetSearchItems(part) {
        MatchesNarrowing(it, text, part);
      }
    }

    /** Searching the storage for the empty text finds every available item
        (the services answer a blank text before reaching the storage). */
    lemma SearchEmptyTextFindsAvailable()
      requires Valid()
      ensures forall it :: it in GetSearchItems("") <==> it.id in items && items[it.id] == it && it.available
    {
      forall it ensures Matches(it, "") <==> it.available {
        MatchesEmptyText(it);
      }
    }
  }
}
