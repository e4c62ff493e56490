/**
 * The quantity rules of the inventory-mutation engine, shared by the Spring
 * `LogService` and the Express `logControllers`: what an increase and a decrease do
 * to one item. The service methods are proved to apply exactly these functions.
 */
module Mutation {
  import opened ItemModel
  import opened LogModel

  function Min(a: int, b: int): int {
    if a <= b then a else b
  }

  /** Increase: the requested amount is added to the stock. */
  function Increased(item: Item, q: int): Item {
    item.(quantity := item.quantity + q)
  }

  /** The amount a decrease actually removes: the request, capped at the stock. */
  function Applied(item: Item, q: int): int {
    Min(q, item.quantity)
  }

  /**
   * Decrease, in the order the Spring service runs it: `sold` grows by the applied
   * amount, `soldPrice` is recomputed from the new `sold`, then the stock shrinks by
   * the applied amount.
   */
  function Decreased(item: Item, q: int): Item {
    var applied := Applied(item, q);
    var afterSold := item.(sold := item.sold + applied);
    var afterPrice := afterSold.(soldPrice := afterSold.sold as real * afterSold.price);
    afterPrice.(quantity := afterPrice.quantity - applied)
  }

  /** An increase changes the stock by exactly the request and touches no other field. */
  lemma IncreaseIsExact(item: Item, q: int)
    ensures Increased(item, q).quantity == item.quantity + q
    ensures Increased(item, q).(quantity := item.quantity) == item
  {
  }

  /**
   * A decrease leaves `Stock - min(q, stock)` and that is never negative, whatever the
   * request and whatever the starting stock; asking for at least the whole stock
   * empties it, asking for less removes exactly the request.
   */
  lemma DecreaseStock(item: Item, q: int)
    ensures Decreased(item, q).quantity == item.quantity - Min(q, item.quantity)
    ensures Decreased(item, q).quantity >= 0
    ensures q >= item.quantity ==> Decreased(item, q).quantity == 0
    ensures q < item.quantity ==> Decreased(item, q).quantity == item.quantity - q
  {
  }

  /** `sold` grows by the applied amount, so stock plus sold units is conserved. */
  lemma DecreaseConserves(item: Item, q: int)
    ensures Decreased(item, q).sold == item.sold + Applied(item, q)
    ensures Decreased(item, q).quantity + Decreased(item, q).sold == item.quantity + item.sold
  {
  }

  /**
   * `sold` never goes down exactly when neither the request nor the stock is negative;
   * a negative stock (reachable through an update or a negative JavaScript increase)
   * makes a decrease lower `sold`.
   */
  lemma DecreaseSoldMonotone(item: Item, q: int)
    ensures Decreased(item, q).sold >= item.sold <==> (q >= 0 && item.quantity >= 0)
  {
  }

  /** After a decrease the revenue field is the new `sold` times the current price. */
  lemma DecreaseRepricesSold(item: Item, q: int)
    ensures SoldPriceCurrent(Decreased(item, q))
    ensures Decreased(item, q).soldPrice == (item.sold + Applied(item, q)) as real * item.price
  {
  }

  /** A decrease writes only `quantity`, `sold` and `soldPrice`. */
  lemma DecreaseFrame(item: Item, q: int)
    ensures var r := Decreased(item, q);
      r.id == item.id && r.userId == item.userId && r.name == item.name
      && r.description == item.description && r.price == item.price
      && r.category == item.category && r.date == item.date
  {
  }

  /** Replaying the entry an increase writes gives the new stock. */
  lemma IncreaseMatchesLog(item: Item, q: int, l: Log)
    requires l.action == IncreaseAction && l.quantity == q
    ensures item.quantity + LoggedDelta(l) == Increased(item, q).quantity
  {
  }

  /**
   * The log records the requested amount, so when a decrease is capped the logged
   * delta overstates what left the stock: replaying the entry no longer yields the stock.
   */
  lemma CappedDecreaseLogOvershoots(item: Item, q: int, l: Log)
    requires 0 <= item.quantity < q
    requires l.action == DecreaseAction && l.quantity == q
    ensures Decreased(item, q).quantity == 0
    ensures item.quantity + LoggedDelta(l) < Decreased(item, q).quantity
  {
  }

  /** Without capping, the requested amount is what was removed, and a replay agrees. */
  lemma UncappedDecreaseMatchesLog(item: Item, q: int, l: Log)
    requires 0 < q <= item.quantity
    requires l.action == DecreaseAction && l.quantity == q
    ensures Decreased(item, q).quantity == item.quantity + LoggedDelta(l)
  {
  }
}
