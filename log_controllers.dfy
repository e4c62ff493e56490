/**
 * The Express `logControllers`: the same increase and decrease as the Spring service
 * but with no positivity check on the amount and no description check beyond the
 * validator, whose verdict is the parameter `validationFailed`. The body's `quantity`
 * is taken to be a JSON number.
 */
module LogControllers {
  import opened Common
  import opened HttpErrors
  import opened ItemModel
  import opened LogModel
  import opened Repositories
  import opened Mutation

  /** The failures both handlers send before any write, in their order. */
  function MutationRequestError(validationFailed: bool, userExists: bool, itemExists: bool)
    : (e: Option<HttpError>)
    ensures e.None? <==> (!validationFailed && userExists && itemExists)
    ensures validationFailed ==> e == Some(ValidationRejected)
    ensures !validationFailed && !userExists ==> e == Some(HttpError(404, "User Does not exist"))
    ensures !validationFailed && userExists && !itemExists ==> e == Some(HttpError(404, "Item does not exist"))
  {
    if validationFailed then Some(ValidationRejected)
    else if !userExists then Some(HttpError(404, "User Does not exist"))
    else if !itemExists then Some(HttpError(404, "Item does not exist"))
    else None
  }

  /**
   * `increaseQuantity`: on success the stock changes by the requested amount, whatever
   * its sign, and one "Increase Quantity" entry with that amount is created; a 404 or
   * the validator's 403 writes nothing. The item's owner is never compared with the caller.
   */
  method IncreaseQuantity(users: UserRepository, items: ItemRepository, logs: LogRepository,
                          validationFailed: bool, userId: Id, itemId: Id,
                          quantity: int, description: string, now: Time)
    returns (r: Result<Log, HttpError>)
    requires items.Valid() && logs.Valid()
    modifies items, logs
    ensures items.Valid() && logs.Valid() && items.nextId == old(items.nextId)
    ensures KnownActions(old(logs.logs)) ==> KnownActions(logs.logs)
    ensures var e := MutationRequestError(validationFailed, userId in users.users, itemId in old(items.items));
      if e.Some? then
        r == Failure(e.value) && items.items == old(items.items) && logs.logs == old(logs.logs)
      else
        && r.Success?
        && items.items == old(items.items)[itemId := Increased(old(items.items)[itemId], quantity)]
        && r.value == NewLog(userId, itemId, IncreaseAction, quantity, description, now)
                        .(id := Some(|old(logs.logs)|))
        && logs.logs == old(logs.logs) + [r.value]
  {
    if validationFailed {
      return Failure(ValidationRejected);
    }
    if userId !in users.users {
      return Failure(HttpError(404, "User Does not exist"));
    }
    if itemId !in items.items {
      return Failure(HttpError(404, "Item does not exist"));
    }
    var item := items.items[itemId];
    item := item.(quantity := item.quantity + quantity);
    items.Update(item);
    var log := logs.Append(NewLog(userId, itemId, IncreaseAction, quantity, description, now));
    r := Success(log);
  }

  /**
   * `decreaseQuantity`: `sold` gains `min(q, stock)` before the stock changes,
   * `soldPrice` becomes the new `sold` times the price, and the stock becomes `stock - q`
   * when that is not negative and 0 otherwise. The assertion in the body establishes that
   * this is the same item change as the Spring service's, `Decreased(item, q)`, for every
   * `q`; the entry records the requested `q`. Failures write nothing.
   */
  method DecreaseQuantity(users: UserRepository, items: ItemRepository, logs: LogRepository,
                          validationFailed: bool, userId: Id, itemId: Id,
                          quantity: int, description: string, now: Time)
    returns (r: Result<Log, HttpError>)
    requires items.Valid() && logs.Valid()
    modifies items, logs
    ensures items.Valid() && logs.Valid() && items.nextId == old(items.nextId)
    ensures KnownActions(old(logs.logs)) ==> KnownActions(logs.logs)
    ensures var e := MutationRequestError(validationFailed, userId in users.users, itemId in old(items.items));
      if e.Some? then
        r == Failure(e.value) && items.items == old(items.items) && logs.logs == old(logs.logs)
      else
        && r.Success?
        && items.items == old(items.items)[itemId := Decreased(old(items.items)[itemId], quantity)]
        && r.value == NewLog(userId, itemId, DecreaseAction, quantity, description, now)
                        .(id := Some(|old(logs.logs)|))
        && logs.logs == old(logs.logs) + [r.value]
  {
    if validationFailed {
      return Failure(ValidationRejected);
    }
    if userId !in users.users {
      return Failure(HttpError(404, "User Does not exist"));
    }
    if itemId !in items.items {
      return Failure(HttpError(404, "Item does not exist"));
    }
    var item := items.items[itemId];
    ghost var loaded := item;
    item := item.(sold := item.sold + Min(quantity, item.quantity));
    item := item.(soldPrice := item.sold as real * item.price);
    if item.quantity >= quantity {
      item := item.(quantity := item.quantity - quantity);
    } else {
      item := item.(quantity := 0);
    }
    assert item == Decreased(loaded, quantity);
    items.Update(item);
    var log := logs.Append(NewLog(userId, itemId, DecreaseAction, quantity, description, now));
    r := Success(log);
  }

  /** With no positivity check, a negative amount sent to the increase handler lowers the stock. */
  lemma NegativeIncreaseLowersStock(item: Item, q: int)
    requires q < 0
    ensures Increased(item, q).quantity < item.quantity
  {
  }
}
