/** The in-memory ItemServiceImpl
    (src/main/java/ru/practicum/shareit/item/service/ItemServiceImpl.java):
    the item operations over ItemStorageInMemory and UserStorageInMemory.
    An item's owner is the stored user object itself, so the source's
    reference comparison of owners is a comparison of user ids here. */
module InMemoryItemService {
  import opened Outcomes
  import opened Text
  import opened Users
  import opened Items
  import opened ItemStorage
  import opened UserStorage

  class ItemServiceImpl {
    const itemStorage: ItemStorageInMemory
    const userStorage: UserStorageInMemory

    constructor (items: ItemStorageInMemory, users: UserStorageInMemory)
      ensures itemStorage == items && userStorage == users
    {
      itemStorage := items;
      userStorage := users;
    }

    ghost predicate Valid()
      reads this, itemStorage, userStorage
    {
      itemStorage.Valid() && userStorage.Valid()
    }

    /** createItem: NotFound for an unknown owner; otherwise the item from
        the request, owned by the caller, under the next id. The item request
        id of the request is not kept. */
    method CreateItem(c: ItemCreateDto, ownerId: int) returns (r: Result<ItemDto>)
      requires Valid()
      modifies itemStorage
      ensures Valid()
      ensures ownerId !in userStorage.users ==> r == Err(NotFound) && unchanged(itemStorage)
      ensures ownerId in userStorage.users ==>
                var it := Item(old(itemStorage.itemCount), c.name, c.description, c.available, ownerId, None);
                r == Ok(MapToItemDto(it)) &&
                itemStorage.items == old(itemStorage.items)[it.id := it] &&
                itemStorage.itemCount == old(itemStorage.itemCount) + 1
    {
      if userStorage.GetUserById(ownerId).None? {
        return Err(NotFound);
      }
      var item := itemStorage.CreateItem(MapToItem(c, ownerId));
      return Ok(MapToItemDto(item));
    }

    /** updateItem: NotFound for an unknown user, an unknown item, or an item
        the user does not own, checked in that order; otherwise the item
        with the provided fields applied. */
    method UpdateItem(d: ItemUpdateDto, itemId: int, ownerId: int) returns (r: Result<ItemDto>)
      requires Valid()
      modifies itemStorage
      ensures Valid()
      ensures ownerId !in userStorage.users || itemId !in old(itemStorage.items) ||
              old(itemStorage.items)[itemId].ownerId != ownerId ==>
                r == Err(NotFound) && unchanged(itemStorage)
      ensures ownerId in userStorage.users && itemId in old(itemStorage.items) &&
              old(itemStorage.items)[itemId].ownerId == ownerId ==>
                var it := UpdateItemFields(old(itemStorage.items)[itemId], d);
                r == Ok(MapToItemDto(it)) &&
                itemStorage.items == old(itemStorage.items)[itemId := it] &&
                itemStorage.itemCount == old(itemStorage.itemCount)
    {
      var found := itemStorage.GetItemById(itemId);
      if userStorage.GetUserById(ownerId).None? {
        return Err(NotFound);
      }
      if found.None? {
        return Err(NotFound);
      }
      var item := found.value;
      if item.ownerId != ownerId {
        return Err(NotFound);
      }
      var updated := UpdateItemFields(item, d);
      item := itemStorage.UpdateItem(updated);
      return Ok(MapToItemDto(item));
    }

    /** getItemById: the item's view, or NotFound. */
    function GetItemById(itemId: int): (r: Result<ItemDto>)
      reads this, itemStorage
      requires itemStorage.Valid()
      ensures r.Err? <==> itemId !in itemStorage.items
      ensures r.Err? ==> r.error == NotFound
      ensures r.Ok? ==> r.value.id == itemId && r.value == MapToItemDto(itemStorage.items[itemId])
    {
      match itemStorage.GetItemById(itemId)
      case None => Err(NotFound)
      case Some(item) => Ok(MapToItemDto(item))
    }

    /** getUserItems: NotFound for an unknown user, otherwise the views of
        exactly the items the user owns. */
    function GetUserItems(ownerId: int): (r: Result<set<ItemDto>>)
      reads this, itemStorage, userStorage
      requires Valid()
      ensures r.Err? <==> ownerId !in userStorage.users
      ensures r.Err? ==> r.error == NotFound
      ensures r.Ok? ==> forall d :: d in r.value <==>
                          d.id in itemStorage.items && d.ownerId == ownerId &&
                          d == MapToItemDto(itemStorage.items[d.id])
    {
      if userStorage.GetUserById(ownerId).None? then Err(NotFound)
      else Ok(set it | it in itemStorage.GetUserItems(ownerId) :: MapToItemDto(it))
    }

    /** getSearchItems: nothing for a blank text, otherwise the views of the
        available items whose name or description contains the text,
        ignoring case. */
    function GetSearchItems(text: string): (r: set<ItemDto>)
      reads this, itemStorage
      requires itemStorage.Valid()
      ensures IsBlank(text) ==> r == {}
      ensures !IsBlank(text) ==> forall d :: d in r <==>
                d.id in itemStorage.items && Matches(itemStorage.items[d.id], text) &&
                d == MapToItemDto(itemStorage.items[d.id])
      ensures forall d :: d in r ==> d.available
    {
      if IsBlank(text) then {}
      else set it | it in itemStorage.GetSearchItems(text) :: MapToItemDto(it)
    }

    /** deleteItemById: NotFound for an unknown user, an unknown item, or an
        item the user does not own, checked in that order; otherwise the item
        is removed. */
    method DeleteItemById(itemId: int, ownerId: int) returns (r: Result<()>)
      requires Valid()
      modifies itemStorage
      ensures Valid()
      ensures ownerId !in userStorage.users || itemId !in old(itemStorage.items) ||
              old(itemStorage.items)[itemId].ownerId != ownerId ==>
                r == Err(NotFound) && unchanged(itemStorage)
      ensures ownerId in userStorage.users && itemId in old(itemStorage.items) &&
              old(itemStorage.items)[itemId].ownerId == ownerId ==>
                r == Ok(()) && itemStorage.items == old(itemStorage.items) - {itemId} &&
                itemStorage.itemCount == old(itemStorage.itemCount)
    {
      var found := itemStorage.GetItemById(itemId);
      if userStorage.GetUserById(ownerId).None? {
        return Err(NotFound);
      }
      if found.None? {
        return Err(NotFound);
      }
      if found.value.ownerId != ownerId {
        return Err(NotFound);
      }
      itemStorage.DeleteItemById(itemId);
      return Ok(());
    }
  }
}
