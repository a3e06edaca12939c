/** The server's conversions between the item entity and its payload. */
module ItemMapper {
  import opened Common
  import opened Model

  /** The payload of an item: its own columns, the owner's id and the
      request's id, with no comments and no last or next booking yet. */
  function ToDto(item: Item): (d: ItemDto)
    ensures d.id == item.id && d.name == item.name && d.description == item.description
    ensures d.available == item.available && d.owner == Some(item.ownerId)
    ensures d.requestId.None? <==> item.request.None?
    ensures item.request.Some? ==> d.requestId == Some(item.request.value.id)
    ensures d.comments == [] && d.lastBooking.None? && d.nextBooking.None?
  {
    ItemDto(
      item.id, item.name, item.description, item.available, Some(item.ownerId),
      match item.request case Some(q) => Some(q.id) case None => None,
      None, None, [])
  }

  /** The entity built from a payload, the owning user and the request: the
      payload's id, name, description and availability, and the given owner
      and request. The payload's owner and request ids are not consulted. */
  function ToObject(d: ItemDto, ownerId: Id, request: Option<ItemRequest>): (item: Item)
    ensures item.id == d.id && item.name == d.name && item.description == d.description
    ensures item.available == d.available
    ensures item.ownerId == ownerId && item.request == request
  {
    Item(d.id, d.name, d.description, d.available, ownerId, request)
  }

  /** Mapping an item to its payload and back, with the item's own owner and
      request, gives the item again. */
  lemma RoundTrip(item: Item)
    ensures ToObject(ToDto(item), item.ownerId, item.request) == item
  {
  }

  /** Mapping an entity built from a payload back to a payload restores every
      field the entity keeps. */
  lemma RoundTripDto(d: ItemDto, ownerId: Id, request: Option<ItemRequest>)
    ensures ToDto(ToObject(d, ownerId, request)).(owner := d.owner, requestId := d.requestId,
              lastBooking := d.lastBooking, nextBooking := d.nextBooking, comments := d.comments) == d
  {
  }

  /** Without a request the entity's request stays unset. */
  lemma NoRequestLeavesRequestUnset(d: ItemDto, ownerId: Id)
    ensures ToObject(d, ownerId, None).request.None?
    ensures ToDto(ToObject(d, ownerId, None)).requestId.None?
  {
  }

  /** The payloads of a list of items, one per item and in the same order. */
  method ToDtos(items: seq<Item>) returns (dtos: seq<ItemDto>)
    ensures |dtos| == |items|
    ensures forall i :: 0 <= i < |items| ==> dtos[i] == ToDto(items[i])
  {
    dtos := [];
    for i := 0 to |items|
      invariant |dtos| == i
      invariant forall k :: 0 <= k < i ==> dtos[k] == ToDto(items[k])
    {
      dtos := dtos + [ToDto(items[i])];
    }
  }
}
