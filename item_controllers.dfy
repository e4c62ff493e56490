/**
 * The Express `itemControllers`: owner listings, lookup and log retrieval, and the
 * owner-checked update and delete. The update overwrites a field only with a truthy
 * request value.
 */
module ItemControllers {
  import opened Common
  import opened HttpErrors
  import opened ItemModel
  import opened LogModel
  import opened UserModel
  import opened Repositories
  import ItemService
  import Seqs

  const NoSuchUser: HttpError := HttpError(404, "No such user")
  const ItemMissing: HttpError := HttpError(404, "Item does not exist")
  const ItemNotOwned: HttpError := HttpError(404, "Item not found or does not belong to the user")

  /**
   * `getItemsByUser`: the Spring listing, with its one failure answered as a 404. A
   * missing caller is the 404, and an existing one gets exactly the caller's items.
   */
  function GetItemsByUser(users: map<Id, User>, items: map<Id, Item>, userId: Id)
    : (r: Result<map<Id, Item>, HttpError>)
    ensures userId !in users <==> r == Failure(NoSuchUser)
    ensures r.Success? <==> ItemService.GetItemsByUser(users, items, userId).Success?
    ensures r.Success? ==> r.value == ItemService.GetItemsByUser(users, items, userId).value
  {
    match ItemService.GetItemsByUser(users, items, userId)
    case Success(listing) => Success(listing)
    case Failure(_) => Failure(NoSuchUser)
  }

  /** `getItemsByUserCategory`: the Spring category listing, with its failure answered as a 404. */
  function GetItemsByUserCategory(users: map<Id, User>, items: map<Id, Item>, userId: Id, category: string)
    : (r: Result<map<Id, Item>, HttpError>)
    ensures userId !in users <==> r == Failure(NoSuchUser)
    ensures r.Success? <==> ItemService.GetItemsByUserCategory(users, items, userId, category).Success?
    ensures r.Success? ==> r.value == ItemService.GetItemsByUserCategory(users, items, userId, category).value
  {
    match ItemService.GetItemsByUserCategory(users, items, userId, category)
    case Success(listing) => Success(listing)
    case Failure(_) => Failure(NoSuchUser)
  }

  /** `getItem`: 404 for a missing caller, then for a missing item, else the item whoever owns it. */
  function GetItem(users: map<Id, User>, items: map<Id, Item>, userId: Id, itemId: Id)
    : (r: Result<Item, HttpError>)
    ensures userId !in users ==> r == Failure(NoSuchUser)
    ensures userId in users && itemId !in items ==> r == Failure(ItemMissing)
    ensures userId in users && itemId in items ==> r == Success(items[itemId])
  {
    if userId !in users then Failure(NoSuchUser)
    else if itemId !in items then Failure(ItemMissing)
    else Success(items[itemId])
  }

  /**
   * `getLogs`: 404 for a missing caller, then for a missing item, else exactly the
   * entries for that item written by the caller, in insertion order.
   */
  function GetLogs(users: map<Id, User>, items: map<Id, Item>, logs: seq<Log>, userId: Id, itemId: Id)
    : (r: Result<seq<Log>, HttpError>)
    ensures userId !in users ==> r == Failure(NoSuchUser)
    ensures userId in users && itemId !in items ==> r == Failure(ItemMissing)
    ensures userId in users && itemId in items ==>
      && r.Success?
      && Seqs.IsSubsequence(r.value, logs)
      && (forall i :: 0 <= i < |r.value| ==> LogOf(r.value[i], itemId, userId))
      && (forall i :: 0 <= i < |logs| && LogOf(logs[i], itemId, userId) ==> logs[i] in r.value)
      && (forall l :: multiset(r.value)[l] == if LogOf(l, itemId, userId) then multiset(logs)[l] else 0)
  {
    if userId !in users then Failure(NoSuchUser)
    else if itemId !in items then Failure(ItemMissing)
    else Success(LogsOfItemAndUser(logs, itemId, userId))
  }

  /** JavaScript truthiness of the request values: absent, "", 0 and 0.0 are falsy. */
  predicate TruthyString(v: Option<string>) { v.Some? && v.value != "" }
  predicate TruthyInt(v: Option<int>) { v.Some? && v.value != 0 }
  predicate TruthyReal(v: Option<real>) { v.Some? && v.value != 0.0 }

  /** `field = req.body.field || field`: every field keeps its value unless the request value is truthy. */
  function ApplyTruthyPatch(item: Item, p: ItemPatch): Item {
    item.(name := if TruthyString(p.name) then p.name.value else item.name,
          description := if TruthyString(p.description) then p.description.value else item.description,
          quantity := if TruthyInt(p.quantity) then p.quantity.value else item.quantity,
          price := if TruthyReal(p.price) then p.price.value else item.price,
          sold := if TruthyInt(p.sold) then p.sold.value else item.sold,
          category := if TruthyString(p.category) then p.category.value else item.category)
  }

  /** The request with every falsy value removed. */
  function TruthyFields(p: ItemPatch): (t: ItemPatch)
    ensures (t.name.Some? <==> TruthyString(p.name)) && (t.name.Some? ==> t.name == p.name)
    ensures (t.description.Some? <==> TruthyString(p.description)) && (t.description.Some? ==> t.description == p.description)
    ensures (t.quantity.Some? <==> TruthyInt(p.quantity)) && (t.quantity.Some? ==> t.quantity == p.quantity)
    ensures (t.price.Some? <==> TruthyReal(p.price)) && (t.price.Some? ==> t.price == p.price)
    ensures (t.sold.Some? <==> TruthyInt(p.sold)) && (t.sold.Some? ==> t.sold == p.sold)
    ensures (t.category.Some? <==> TruthyString(p.category)) && (t.category.Some? ==> t.category == p.category)
  {
    ItemPatch(if TruthyString(p.name) then p.name else None,
              if TruthyString(p.description) then p.description else None,
              if TruthyInt(p.quantity) then p.quantity else None,
              if TruthyReal(p.price) then p.price else None,
              if TruthyInt(p.sold) then p.sold else None,
              if TruthyString(p.category) then p.category else None)
  }

  /**
   * The Express patch is the Spring patch applied to the request's truthy fields only;
   * so it too leaves the id, owner, revenue field and date alone.
   */
  lemma TruthyPatchIsSpringPatchOfTruthyFields(item: Item, p: ItemPatch)
    ensures ApplyTruthyPatch(item, p) == ItemService.ApplyPatch(item, TruthyFields(p))
    ensures var r := ApplyTruthyPatch(item, p);
      r.id == item.id && r.userId == item.userId && r.soldPrice == item.soldPrice && r.date == item.date
  {
  }

  /**
   * No request can set the stock, `sold`, the price or a text field to zero or "" unless it
   * already was: a zero or empty value in the request keeps the old value.
   */
  lemma TruthyPatchCannotClear(item: Item, p: ItemPatch)
    ensures ApplyTruthyPatch(item, p).quantity == 0 ==> item.quantity == 0
    ensures ApplyTruthyPatch(item, p).sold == 0 ==> item.sold == 0
    ensures ApplyTruthyPatch(item, p).price == 0.0 ==> item.price == 0.0
    ensures ApplyTruthyPatch(item, p).name == "" ==> item.name == ""
    ensures ApplyTruthyPatch(item, p).category == "" ==> item.category == ""
  {
  }

  /** Where the two backends part: an explicit 0 is written by the Spring patch and ignored here. */
  lemma ZeroQuantityPatchDiffers(item: Item)
    requires item.quantity != 0
    ensures var p := ItemPatch(None, None, Some(0), None, None, None);
      ItemService.ApplyPatch(item, p).quantity == 0 && ApplyTruthyPatch(item, p).quantity == item.quantity
  {
  }

  /**
   * `updateItem`: 404 for a missing caller, then 404 for a missing item or one owned by
   * someone else, with no change; otherwise the item becomes `ApplyTruthyPatch(item, p)`.
   */
  method UpdateItem(users: UserRepository, items: ItemRepository, userId: Id, itemId: Id, p: ItemPatch)
    returns (r: Result<(), HttpError>)
    requires items.Valid()
    modifies items
    ensures items.Valid() && items.nextId == old(items.nextId)
    ensures if userId !in users.users then
        r == Failure(NoSuchUser) && items.items == old(items.items)
      else if itemId !in old(items.items) || old(items.items)[itemId].userId != userId then
        r == Failure(ItemNotOwned) && items.items == old(items.items)
      else
        && r == Success(())
        && items.items == old(items.items)[itemId := ApplyTruthyPatch(old(items.items)[itemId], p)]
  {
    if userId !in users.users {
      return Failure(NoSuchUser);
    }
    if itemId !in items.items || items.items[itemId].userId != userId {
      return Failure(ItemNotOwned);
    }
    var item := items.items[itemId];
    item := item.(name := if TruthyString(p.name) then p.name.value else item.name);
    item := item.(description := if TruthyString(p.description) then p.description.value else item.description);
    item := item.(quantity := if TruthyInt(p.quantity) then p.quantity.value else item.quantity);
    item := item.(price := if TruthyReal(p.price) then p.price.value else item.price);
    item := item.(sold := if TruthyInt(p.sold) then p.sold.value else item.sold);
    item := item.(category := if TruthyString(p.category) then p.category.value else item.category);
    items.Update(item);
    r := Success(());
  }

  /**
   * `deleteItem`: the same two 404s with no change; otherwise exactly the target item
   * is removed. The log store is not in its frame, so its entries outlive the item.
   */
  method DeleteItem(users: UserRepository, items: ItemRepository, userId: Id, itemId: Id)
    returns (r: Result<(), HttpError>)
    requires items.Valid()
    modifies items
    ensures items.Valid() && items.nextId == old(items.nextId)
    ensures if userId !in users.users then
        r == Failure(NoSuchUser) && items.items == old(items.items)
      else if itemId !in old(items.items) || old(items.items)[itemId].userId != userId then
        r == Failure(ItemNotOwned) && items.items == old(items.items)
      else
        r == Success(()) && items.items == old(items.items) - {itemId}
  {
    if userId !in users.users {
      return Failure(NoSuchUser);
    }
    if itemId !in items.items || items.items[itemId].userId != userId {
      return Failure(ItemNotOwned);
    }
    items.Delete(itemId);
    r := Success(());
  }
}
