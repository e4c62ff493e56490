/** The item record and its seven-argument constructor (models/Item.java). */
module ItemModel {
  import opened Common

  /**
   * An inventory item. `price` and `soldPrice` are exact decimals (BigDecimal in the
   * Spring service, Decimal128 in the Express one), modelled as reals. `id` stays
   * unset until the item repository assigns one.
   */
  datatype Item = Item(
    id: Option<Id>,
    userId: Id,
    name: string,
    description: string,
    quantity: int,
    price: real,
    sold: int,
    category: string,
    soldPrice: real,
    date: Time)

  /** `new Item(userId, name, description, quantity, price, sold, category)` at time `now`. */
  function NewItem(userId: Id, name: string, description: string, quantity: int,
                   price: real, sold: Option<int>, category: string, now: Time): (it: Item)
    ensures it.id == None
    ensures it.userId == userId && it.name == name && it.description == description
    ensures it.quantity == quantity && it.price == price && it.category == category
    ensures sold.None? ==> it.sold == 0
    ensures sold.Some? ==> it.sold == sold.value
    ensures it.soldPrice == 0.0 && it.date == now
  {
    Item(None, userId, name, description, quantity, price,
         if sold.Some? then sold.value else 0, category, 0.0, now)
  }

  /** The revenue field equals the units sold at the current unit price. */
  predicate SoldPriceCurrent(it: Item) {
    it.soldPrice == it.sold as real * it.price
  }

  /**
   * A new item's revenue field is consistent exactly when it was created with no
   * units sold or at price zero: an initial `sold` is not priced.
   */
  lemma NewItemSoldPrice(userId: Id, name: string, description: string, quantity: int,
                         price: real, sold: Option<int>, category: string, now: Time)
    ensures SoldPriceCurrent(NewItem(userId, name, description, quantity, price, sold, category, now))
            <==> (sold.None? || sold.value == 0 || price == 0.0)
  {
  }

  /**
   * The fields of an update request. `None` stands for a field the request left out
   * (Java `null`, JavaScript `undefined` or `null`).
   */
  datatype ItemPatch = ItemPatch(
    name: Option<string>,
    description: Option<string>,
    quantity: Option<int>,
    price: Option<real>,
    sold: Option<int>,
    category: Option<string>)
}
