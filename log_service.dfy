/** The Spring `LogService`: quantity increase and decrease with their audit entry, and log retrieval. */
module LogService {
  import opened Common
  import opened ServiceErrors
  import opened ItemModel
  import opened LogModel
  import opened UserModel
  import opened Repositories
  import opened Mutation
  import Seqs

  /**
   * The checks both mutations run before any write, in their order: the caller must
   * exist, the amount must be present and positive, the description present and
   * non-empty, and only then is the item looked up.
   */
  function MutationRequestError(userExists: bool, quantity: Option<int>,
                                description: Option<string>, itemExists: bool): (e: Option<ServiceError>)
    ensures e.None? <==> (userExists && quantity.Some? && quantity.value > 0
                          && description.Some? && description.value != "" && itemExists)
    ensures !userExists ==> e == Some(UserDoesNotExist)
    ensures userExists && (quantity.None? || quantity.value <= 0) ==> e == Some(InvalidNumber)
    ensures (userExists && quantity.Some? && quantity.value > 0
             && (description.None? || description.value == "")) ==> e == Some(DescriptionNotString)
    ensures (userExists && quantity.Some? && quantity.value > 0
             && description.Some? && description.value != "" && !itemExists) ==> e == Some(ItemDoesNotExist)
  {
    if !userExists then Some(UserDoesNotExist)
    else if quantity.None? || quantity.value <= 0 then Some(InvalidNumber)
    else if description.None? || description.value == "" then Some(DescriptionNotString)
    else if !itemExists then Some(ItemDoesNotExist)
    else None
  }

  /**
   * `increaseQuantity`: on success the item's stock grows by the request and one
   * "Increase Quantity" entry with the caller, the item, the amount and the description
   * is appended; on failure nothing is written. The item's owner is never compared with
   * the caller.
   */
  method IncreaseQuantity(users: UserRepository, items: ItemRepository, logs: LogRepository,
                          userId: Id, itemId: Id, quantity: Option<int>, description: Option<string>,
                          now: Time)
    returns (r: Result<Log, ServiceError>)
    requires items.Valid() && logs.Valid()
    modifies items, logs
    ensures items.Valid() && logs.Valid() && items.nextId == old(items.nextId)
    ensures KnownActions(old(logs.logs)) ==> KnownActions(logs.logs)
    ensures var e := MutationRequestError(userId in users.users, quantity, description, itemId in old(items.items));
      if e.Some? then
        r == Failure(e.value) && items.items == old(items.items) && logs.logs == old(logs.logs)
      else
        && r.Success?
        && items.items == old(items.items)[itemId := Increased(old(items.items)[itemId], quantity.value)]
        && r.value == NewLog(userId, itemId, IncreaseAction, quantity.value, description.value, now)
                        .(id := Some(|old(logs.logs)|))
        && logs.logs == old(logs.logs) + [r.value]
  {
    if userId !in users.users {
      return Failure(UserDoesNotExist);
    }
    if quantity.None? || quantity.value <= 0 {
      return Failure(InvalidNumber);
    }
    if description.None? || description.value == "" {
      return Failure(DescriptionNotString);
    }
    if itemId !in items.items {
      return Failure(ItemDoesNotExist);
    }
    var item := items.items[itemId];
    item := item.(quantity := item.quantity + quantity.value);
    items.Update(item);
    var log := logs.Append(NewLog(userId, itemId, IncreaseAction, quantity.value, description.value, now));
    r := Success(log);
  }

  /**
   * `decreaseQuantity`: on success the item becomes `Decreased(item, q)` (the stock
   * loses `min(q, stock)`, `sold` gains it, `soldPrice` is repriced) and one
   * "Decrease Quantity" entry carrying the requested, uncapped `q` is appended; on
   * failure nothing is written. The item's owner is never compared with the caller.
   */
  method DecreaseQuantity(users: UserRepository, items: ItemRepository, logs: LogRepository,
                          userId: Id, itemId: Id, quantity: Option<int>, description: Option<string>,
                          now: Time)
    returns (r: Result<Log, ServiceError>)
    requires items.Valid() && logs.Valid()
    modifies items, logs
    ensures items.Valid() && logs.Valid() && items.nextId == old(items.nextId)
    ensures KnownActions(old(logs.logs)) ==> KnownActions(logs.logs)
    ensures var e := MutationRequestError(userId in users.users, quantity, description, itemId in old(items.items));
      if e.Some? then
        r == Failure(e.value) && items.items == old(items.items) && logs.logs == old(logs.logs)
      else
        && r.Success?
        && items.items == old(items.items)[itemId := Decreased(old(items.items)[itemId], quantity.value)]
        && r.value == NewLog(userId, itemId, DecreaseAction, quantity.value, description.value, now)
                        .(id := Some(|old(logs.logs)|))
        && logs.logs == old(logs.logs) + [r.value]
  {
    if userId !in users.users {
      return Failure(UserDoesNotExist);
    }
    if quantity.None? || quantity.value <= 0 {
      return Failure(InvalidNumber);
    }
    if description.None? || description.value == "" {
      return Failure(DescriptionNotString);
    }
    if itemId !in items.items {
      return Failure(ItemDoesNotExist);
    }
    var item := items.items[itemId];
    ghost var loaded := item;
    var quantityToDecrease := Min(quantity.value, item.quantity);
    item := item.(sold := item.sold + quantityToDecrease);
    item := item.(soldPrice := item.sold as real * item.price);
    item := item.(quantity := item.quantity - quantityToDecrease);
    assert item == Decreased(loaded, quantity.value);
    items.Update(item);
    var log := logs.Append(NewLog(userId, itemId, DecreaseAction, quantity.value, description.value, now));
    r := Success(log);
  }

  /**
   * `getLogs`: "No such user", then "Item does not exist", else exactly the entries
   * for that item written by that user, in the order they were appended.
   */
  function GetLogs(users: map<Id, User>, items: map<Id, Item>, logs: seq<Log>,
                   userId: Id, itemId: Id): (r: Result<seq<Log>, ServiceError>)
    ensures userId !in users ==> r == Failure(NoSuchUser)
    ensures userId in users && itemId !in items ==> r == Failure(ItemDoesNotExist)
    ensures userId in users && itemId in items ==>
      && r.Success?
      && Seqs.IsSubsequence(r.value, logs)
      && (forall i :: 0 <= i < |r.value| ==> LogOf(r.value[i], itemId, userId))
      && (forall i :: 0 <= i < |logs| && LogOf(logs[i], itemId, userId) ==> logs[i] in r.value)
      && (forall l :: multiset(r.value)[l] == if LogOf(l, itemId, userId) then multiset(logs)[l] else 0)
  {
    if userId !in users then Failure(NoSuchUser)
    else if itemId !in items then Failure(ItemDoesNotExist)
    else Success(LogsOfItemAndUser(logs, itemId, userId))
  }
}
