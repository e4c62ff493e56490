/** The Spring `ItemService`: validated create, owner listings, lookup, owner-checked patch and delete. */
module ItemService {
  import opened Common
  import opened ServiceErrors
  import opened ItemModel
  import opened UserModel
  import opened Repositories

  /**
   * The checks `addItem` runs before saving, in their order: the caller must exist, then
   * a non-empty name, a price, a non-empty category and a quantity must be given.
   */
  function AddItemError(userExists: bool, name: Option<string>, price: Option<real>,
                        category: Option<string>, quantity: Option<int>): (e: Option<ServiceError>)
    ensures e.None? <==> (userExists && name.Some? && name.value != "" && price.Some?
                          && category.Some? && category.value != "" && quantity.Some?)
    ensures !userExists ==> e == Some(UserDoesNotExist)
    ensures userExists && (name.None? || name.value == "") ==> e == Some(NameRequired)
    ensures userExists && name.Some? && name.value != "" && price.None? ==> e == Some(PriceRequired)
    ensures (userExists && name.Some? && name.value != "" && price.Some?
             && (category.None? || category.value == "")) ==> e == Some(CategoryRequired)
    ensures (userExists && name.Some? && name.value != "" && price.Some?
             && category.Some? && category.value != "" && quantity.None?) ==> e == Some(QuantityRequired)
  {
    if !userExists then Some(UserDoesNotExist)
    else if name.None? || name.value == "" then Some(NameRequired)
    else if price.None? then Some(PriceRequired)
    else if category.None? || category.value == "" then Some(CategoryRequired)
    else if quantity.None? then Some(QuantityRequired)
    else None
  }

  /**
   * `addItem`: when the checks pass, one item owned by the caller is stored under a
   * fresh id, built by the Item constructor with a missing description read as "";
   * otherwise nothing is stored.
   */
  method AddItem(users: UserRepository, items: ItemRepository, userId: Id,
                 name: Option<string>, description: Option<string>, quantity: Option<int>,
                 price: Option<real>, sold: Option<int>, category: Option<string>, now: Time)
    returns (r: Result<Item, ServiceError>)
    requires items.Valid()
    modifies items
    ensures items.Valid()
    ensures var e := AddItemError(userId in users.users, name, price, category, quantity);
      if e.Some? then
        r == Failure(e.value) && items.items == old(items.items) && items.nextId == old(items.nextId)
      else
        && r.Success?
        && r.value == NewItem(userId, name.value, if description.Some? then description.value else "",
                              quantity.value, price.value, sold, category.value, now)
                        .(id := Some(old(items.nextId)))
        && old(items.nextId) !in old(items.items)
        && items.items == old(items.items)[old(items.nextId) := r.value]
  {
    if userId !in users.users {
      return Failure(UserDoesNotExist);
    }
    if name.None? || name.value == "" {
      return Failure(NameRequired);
    }
    if price.None? {
      return Failure(PriceRequired);
    }
    if category.None? || category.value == "" {
      return Failure(CategoryRequired);
    }
    if quantity.None? {
      return Failure(QuantityRequired);
    }
    var item := NewItem(userId, name.value, if description.Some? then description.value else "",
                        quantity.value, price.value, sold, category.value, now);
    var saved := items.Insert(item);
    r := Success(saved);
  }

  /** `getItemsByUser`: "No such user", else exactly the caller's items. */
  function GetItemsByUser(users: map<Id, User>, items: map<Id, Item>, userId: Id)
    : (r: Result<map<Id, Item>, ServiceError>)
    ensures userId !in users <==> r == Failure(NoSuchUser)
    ensures userId in users ==> r.Success?
    ensures r.Success? ==> forall id :: id in r.value <==> id in items && items[id].userId == userId
    ensures r.Success? ==> forall id :: id in r.value ==> r.value[id] == items[id]
  {
    if userId !in users then Failure(NoSuchUser) else Success(ItemsOfUser(items, userId))
  }

  /** `getItemsByUserCategory`: "No such user", else the caller's items in that category. */
  function GetItemsByUserCategory(users: map<Id, User>, items: map<Id, Item>, userId: Id, category: string)
    : (r: Result<map<Id, Item>, ServiceError>)
    ensures userId !in users <==> r == Failure(NoSuchUser)
    ensures userId in users ==> r.Success?
    ensures r.Success? ==> forall id :: id in r.value <==>
      id in items && items[id].userId == userId && items[id].category == category
    ensures r.Success? ==> forall id :: id in r.value ==> r.value[id] == items[id]
  {
    if userId !in users then Failure(NoSuchUser) else Success(ItemsOfUserInCategory(items, userId, category))
  }

  /**
   * `getItem`: "No such user", then "Item does not exist", else the stored item,
   * whoever owns it.
   */
  function GetItem(users: map<Id, User>, items: map<Id, Item>, userId: Id, itemId: Id)
    : (r: Result<Item, ServiceError>)
    ensures userId !in users ==> r == Failure(NoSuchUser)
    ensures userId in users && itemId !in items ==> r == Failure(ItemDoesNotExist)
    ensures userId in users && itemId in items ==> r == Success(items[itemId])
  {
    if userId !in users then Failure(NoSuchUser)
    else if itemId !in items then Failure(ItemDoesNotExist)
    else Success(items[itemId])
  }

  /** An existing caller can read an item that another user owns. */
  lemma GetItemIgnoresOwner(users: map<Id, User>, items: map<Id, Item>, userId: Id, itemId: Id)
    requires userId in users && itemId in items && items[itemId].userId != userId
    ensures GetItem(users, items, userId, itemId).Success?
  {
  }

  /**
   * The Spring patch: every field given in the request (even 0 or "") is written;
   * the others keep their value.
   */
  function ApplyPatch(item: Item, p: ItemPatch): (r: Item)
    ensures r.name == (if p.name.Some? then p.name.value else item.name)
    ensures r.description == (if p.description.Some? then p.description.value else item.description)
    ensures r.quantity == (if p.quantity.Some? then p.quantity.value else item.quantity)
    ensures r.price == (if p.price.Some? then p.price.value else item.price)
    ensures r.sold == (if p.sold.Some? then p.sold.value else item.sold)
    ensures r.category == (if p.category.Some? then p.category.value else item.category)
    ensures r.id == item.id && r.userId == item.userId && r.soldPrice == item.soldPrice && r.date == item.date
  {
    item.(name := if p.name.Some? then p.name.value else item.name,
          description := if p.description.Some? then p.description.value else item.description,
          quantity := if p.quantity.Some? then p.quantity.value else item.quantity,
          price := if p.price.Some? then p.price.value else item.price,
          sold := if p.sold.Some? then p.sold.value else item.sold,
          category := if p.category.Some? then p.category.value else item.category)
  }

  /**
   * The patch does not reprice: writing a different `sold` into an item whose revenue
   * field was current, at a non-zero price, leaves that field stale.
   */
  lemma PatchLeavesSoldPriceStale(item: Item, p: ItemPatch)
    requires SoldPriceCurrent(item) && item.price != 0.0
    requires p.price.None? && p.sold.Some? && p.sold.value != item.sold
    ensures !SoldPriceCurrent(ApplyPatch(item, p))
  {
  }

  /**
   * `updateItem`: "No such user", then "Item not found or does not belong to the user"
   * for a missing item or one owned by someone else, with no change; otherwise the
   * stored item becomes `ApplyPatch(item, p)` and is returned.
   */
  method UpdateItem(users: UserRepository, items: ItemRepository, userId: Id, itemId: Id, p: ItemPatch)
    returns (r: Result<Item, ServiceError>)
    requires items.Valid()
    modifies items
    ensures items.Valid() && items.nextId == old(items.nextId)
    ensures if userId !in users.users then
        r == Failure(NoSuchUser) && items.items == old(items.items)
      else if itemId !in old(items.items) || old(items.items)[itemId].userId != userId then
        r == Failure(ItemNotOwned) && items.items == old(items.items)
      else
        && r == Success(ApplyPatch(old(items.items)[itemId], p))
        && items.items == old(items.items)[itemId := r.value]
  {
    if userId !in users.users {
      return Failure(NoSuchUser);
    }
    if itemId !in items.items || items.items[itemId].userId != userId {
      return Failure(ItemNotOwned);
    }
    var item := items.items[itemId];
    if p.name.Some? { item := item.(name := p.name.value); }
    if p.description.Some? { item := item.(description := p.description.value); }
    if p.quantity.Some? { item := item.(quantity := p.quantity.value); }
    if p.price.Some? { item := item.(price := p.price.value); }
    if p.sold.Some? { item := item.(sold := p.sold.value); }
    if p.category.Some? { item := item.(category := p.category.value); }
    items.Update(item);
    r := Success(item);
  }

  /**
   * `deleteItem`: the same two checks as `updateItem`, with no change on failure; on
   * success exactly the target item is removed. The log store is not in its frame.
   */
  method DeleteItem(users: UserRepository, items: ItemRepository, userId: Id, itemId: Id)
    returns (r: Result<(), ServiceError>)
    requires items.Valid()
    modifies items
    ensures items.Valid() && items.nextId == old(items.nextId)
    ensures if userId !in users.users then
        r == Failure(NoSuchUser) && items.items == old(items.items)
      else if itemId !in old(items.items) || old(items.items)[itemId].userId != userId then
        r == Failure(ItemNotOwned) && items.items == old(items.items)
      else
        r == Success(()) && items.items == old(items.items) - {itemId}
  {
    if userId !in users.users {
      return Failure(NoSuchUser);
    }
    if itemId !in items.items || items.items[itemId].userId != userId {
      return Failure(ItemNotOwned);
    }
    items.Delete(itemId);
    r := Success(());
  }
}
