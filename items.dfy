/** The item entity, its transfer objects, ItemUpdateDto's presence tests
    (gateway/src/main/java/ru/practicum/shareit/item/dto/ItemUpdateDto.java),
    ItemMapper (src/main/java/ru/practicum/shareit/item/model/mapper/ItemMapper.java)
    and the search rule of the item storage. */
module Items {
  import opened Outcomes
  import opened Text

  /** A stored item. The owner is kept by id; requestId is the item request
      the item answers, if any. Id 0 stands for "not yet assigned". */
  datatype Item = Item(id: int, name: string, description: string, available: bool,
                       ownerId: int, requestId: Option<int>)

  datatype ItemDto = ItemDto(id: int, name: string, description: string, available: bool, ownerId: int)

  /** A creation request, validated before the service sees it (name and
      description non-blank, available non-null). */
  datatype ItemCreateDto = ItemCreateDto(name: string, description: string, available: bool,
                                         requestId: Option<int>)

  /** A partial update: a null field is None. */
  datatype ItemUpdateDto = ItemUpdateDto(name: Option<string>, description: Option<string>,
                                         available: Option<bool>)

  /** A comment on an item by a user, stamped with its creation time. */
  datatype Comment = Comment(id: int, text: string, authorId: int, itemId: int, created: int)

  datatype CommentCreateDto = CommentCreateDto(text: string)

  /** ItemUpdateDto.hasName: present and not blank. */
  predicate HasName(d: ItemUpdateDto): (r: bool)
    ensures r <==> d.name.Some? && exists i :: 0 <= i < |d.name.value| && !IsWhitespace(d.name.value[i])
  {
    !(d.name.None? || IsBlank(d.name.value))
  }

  /** ItemUpdateDto.hasDescription: present and not blank. */
  predicate HasDescription(d: ItemUpdateDto): (r: bool)
    ensures r <==> d.description.Some? &&
                   exists i :: 0 <= i < |d.description.value| && !IsWhitespace(d.description.value[i])
  {
    !(d.description.None? || IsBlank(d.description.value))
  }

  /** ItemUpdateDto.hasAvailable: present; an explicit false counts. */
  predicate HasAvailable(d: ItemUpdateDto): (r: bool)
    ensures r <==> d.available == Some(true) || d.available == Some(false)
  {
    match d.available
    case None => false
    case Some(_) => true
  }

  /** ItemMapper.mapToItemDto. */
  function MapToItemDto(it: Item): (d: ItemDto)
    ensures d.id == it.id && d.ownerId == it.ownerId
    ensures d.name == it.name && d.description == it.description && d.available == it.available
  {
    ItemDto(it.id, it.name, it.description, it.available, it.ownerId)
  }

  /** ItemMapper.mapToItem: the fields of the request, owned by the given
      user, with id 0 and no item request. */
  function MapToItem(c: ItemCreateDto, ownerId: int): (it: Item)
    ensures it.id == 0 && it.ownerId == ownerId && it.requestId.None?
    ensures it.name == c.name && it.description == c.description && it.available == c.available
  {
    Item(0, c.name, c.description, c.available, ownerId, None)
  }

  /** ItemMapper.updateItemFields: name, description and available, each
      only when the update provides it. */
  function UpdateItemFields(it: Item, d: ItemUpdateDto): (r: Item)
    ensures r.id == it.id && r.ownerId == it.ownerId && r.requestId == it.requestId
  {
    var withName := if HasName(d) then it.(name := d.name.value) else it;
    var withDescription := if HasDescription(d) then withName.(description := d.description.value) else withName;
    if HasAvailable(d) then withDescription.(available := d.available.value) else withDescription
  }

  /** The item storage's search rule: an available item whose lower-cased
      name or description contains the lower-cased text. */
  predicate Matches(it: Item, text: string) {
    (Contains(ToLower(it.name), ToLower(text)) || Contains(ToLower(it.description), ToLower(text)))
    && it.available
  }

  /** Each field changes only when the update provides it, and then to the
      provided value; id, owner and request never change. */
  lemma UpdateItemFieldsChangesOnlyProvided(it: Item, d: ItemUpdateDto)
    ensures var r := UpdateItemFields(it, d);
      r.id == it.id && r.ownerId == it.ownerId && r.requestId == it.requestId &&
      r.name == (if HasName(d) then d.name.value else it.name) &&
      r.description == (if HasDescription(d) then d.description.value else it.description) &&
      r.available == (if HasAvailable(d) then d.available.value else it.available)
  {
  }

  /** An update that provides nothing leaves the item as it was. */
  lemma UpdateItemFieldsEmpty(it: Item)
    ensures UpdateItemFields(it, ItemUpdateDto(None, None, None)) == it
  {
  }

  /** Whitespace-only strings count as absent; an explicit false is applied. */
  lemma UpdateItemFieldsBlankAndFalse(it: Item, name: string, description: string)
    requires IsBlank(name) && IsBlank(description)
    ensures UpdateItemFields(it, ItemUpdateDto(Some(name), Some(description), Some(false)))
         == it.(available := false)
  {
  }

  /** Applying the same update twice changes nothing more. */
  lemma UpdateItemFieldsIdempotent(it: Item, d: ItemUpdateDto)
    ensures UpdateItemFields(UpdateItemFields(it, d), d) == UpdateItemFields(it, d)
  {
  }

  /** An item found by a text is found by every substring of that text. */
  lemma MatchesNarrowing(it: Item, text: string, part: string)
    requires Matches(it, text) && Contains(text, part)
    ensures Matches(it, part)
  {
    if Contains(ToLower(it.name), ToLower(text)) {
      LowerContainsNarrowing(it.name, text, part);
    } else {
      LowerContainsNarrowing(it.description, text, part);
    }
  }

  /** The empty text matches exactly the available items. */
  lemma MatchesEmptyText(it: Item)
    ensures Matches(it, "") <==> it.available
  {
    assert ToLower("") == "";
    assert Contains(ToLower(it.name), ToLower(""));
  }
}
