/**
 * The dashboard totals of the React item context (Context/ItemState.jsx): `setValues`
 * walks the item list once with three running sums, and `getItems` stores the fetched
 * list reversed before computing them.
 */
module ItemStateContext {
  import opened ItemModel
  import Seqs
  import Mutation

  datatype Totals = Totals(totalProducts: nat, totalPrice: real, totalItems: real, totalSales: real)

  /** The sum of `f` over `s`, added from the first element to the last. */
  function Sum(s: seq<Item>, f: Item -> real): real {
    if s == [] then 0.0 else Sum(s[..|s| - 1], f) + f(s[|s| - 1])
  }

  /** The per-item terms of the three sums: stock value, stock, and sales at the current price. */
  function StockValue(it: Item): real { it.price * it.quantity as real }
  function Stock(it: Item): real { it.quantity as real }
  function SalesValue(it: Item): real { it.price * it.sold as real }

  /** What the dashboard shows for a list of items. */
  function TotalsOf(items: seq<Item>): Totals {
    Totals(|items|, Sum(items, StockValue), Sum(items, Stock), Sum(items, SalesValue))
  }

  /** `setValues`: the item count and the three running sums over the whole list. */
  method SetValues(items: seq<Item>) returns (t: Totals)
    ensures t == TotalsOf(items)
    ensures items == [] ==> t == Totals(0, 0.0, 0.0, 0.0)
  {
    var totalProducts := |items|;
    var sum1, sum2, sum3 := 0.0, 0.0, 0.0;
    for i := 0 to |items|
      invariant sum1 == Sum(items[..i], StockValue)
      invariant sum2 == Sum(items[..i], Stock)
      invariant sum3 == Sum(items[..i], SalesValue)
    {
      var cur := items[i];
      assert items[..i + 1][..i] == items[..i];
      sum1 := sum1 + cur.price * cur.quantity as real;
      sum2 := sum2 + cur.quantity as real;
      sum3 := sum3 + cur.price * cur.sold as real;
    }
    assert items[..|items|] == items;
    t := Totals(totalProducts, sum1, sum2, sum3);
  }

  lemma {:induction false} SumAppend(a: seq<Item>, b: seq<Item>, f: Item -> real)
    ensures Sum(a + b, f) == Sum(a, f) + Sum(b, f)
  {
    if b != [] {
      assert (a + b)[..|a + b| - 1] == a + b[..|b| - 1];
      SumAppend(a, b[..|b| - 1], f);
    } else {
      assert a + b == a;
    }
  }

  /** The sums do not depend on the order of the list: reversing it changes none of them. */
  lemma {:induction false} SumReverse(s: seq<Item>, f: Item -> real)
    ensures Sum(Seqs.Reverse(s), f) == Sum(s, f)
  {
    if s != [] {
      var init := s[..|s| - 1];
      SumReverse(init, f);
      SumAppend([s[|s| - 1]], Seqs.Reverse(init), f);
      assert [s[|s| - 1]][..0] == [];
    }
  }

  /** The totals of the reversed list are those of the list as fetched. */
  lemma TotalsIgnoreReversal(items: seq<Item>)
    ensures TotalsOf(Seqs.Reverse(items)) == TotalsOf(items)
  {
    SumReverse(items, StockValue);
    SumReverse(items, Stock);
    SumReverse(items, SalesValue);
  }

  /** With no negative stock the stock total is not negative. */
  lemma {:induction false} StockTotalNonNegative(items: seq<Item>)
    requires forall i :: 0 <= i < |items| ==> items[i].quantity >= 0
    ensures Sum(items, Stock) >= 0.0
  {
    if items != [] {
      StockTotalNonNegative(items[..|items| - 1]);
    }
  }

  /** The revenue field of an item. */
  function SoldPriceOf(it: Item): real { it.soldPrice }

  /**
   * When every item's revenue field is current, the sales total equals the sum of the
   * stored revenue fields.
   */
  lemma {:induction false} SalesTotalMatchesStoredRevenue(items: seq<Item>)
    requires forall i :: 0 <= i < |items| ==> SoldPriceCurrent(items[i])
    ensures Sum(items, SalesValue) == Sum(items, SoldPriceOf)
  {
    if items != [] {
      SalesTotalMatchesStoredRevenue(items[..|items| - 1]);
    }
  }

  lemma {:induction false} SumUpdate(s: seq<Item>, k: nat, x: Item, f: Item -> real)
    requires k < |s|
    ensures Sum(s[k := x], f) == Sum(s, f) - f(s[k]) + f(x)
  {
    if k < |s| - 1 {
      assert s[k := x][..|s| - 1] == s[..|s| - 1][k := x];
      SumUpdate(s[..|s| - 1], k, x, f);
    } else {
      assert s[k := x][..|s| - 1] == s[..|s| - 1];
    }
  }

  /** Units sold, as a real. */
  function SoldUnits(it: Item): real { it.sold as real }

  /**
   * A decrease of one listed item leaves the stock total plus the total of units sold
   * unchanged: what leaves the stock shows up as sold.
   */
  lemma DecreaseKeepsStockPlusSold(items: seq<Item>, k: nat, q: int)
    requires k < |items|
    ensures var after := items[k := Mutation.Decreased(items[k], q)];
      Sum(after, Stock) + Sum(after, SoldUnits) == Sum(items, Stock) + Sum(items, SoldUnits)
  {
    var x := Mutation.Decreased(items[k], q);
    Mutation.DecreaseConserves(items[k], q);
    SumUpdate(items, k, x, Stock);
    SumUpdate(items, k, x, SoldUnits);
  }

  /** The item list and the four totals of the context. */
  class ItemState {
    var items: seq<Item>
    var totalProducts: nat
    var totalItems: real
    var totalPrice: real
    var totalSales: real

    constructor ()
      ensures items == [] && totalProducts == 0
      ensures totalItems == 0.0 && totalPrice == 0.0 && totalSales == 0.0
    {
      items := [];
      totalProducts := 0;
      totalItems, totalPrice, totalSales := 0.0, 0.0, 0.0;
    }

    /**
     * The state step of `getItems` for a response: on success the list is stored
     * reversed and the totals are those of the fetched list (the same as of the stored
     * one); any other response changes nothing.
     */
    method ReceiveItems(success: bool, received: seq<Item>)
      modifies this
      ensures success ==> items == Seqs.Reverse(received)
      ensures success ==> |items| == |received|
                          && forall k :: 0 <= k < |items| ==> items[k] == received[|received| - 1 - k]
      ensures success ==> multiset(items) == multiset(received)
      ensures success ==> Totals(totalProducts, totalPrice, totalItems, totalSales) == TotalsOf(received)
      ensures success ==> Totals(totalProducts, totalPrice, totalItems, totalSales) == TotalsOf(items)
      ensures !success ==> items == old(items) && totalProducts == old(totalProducts)
                           && totalItems == old(totalItems) && totalPrice == old(totalPrice)
                           && totalSales == old(totalSales)
    {
      if success {
        var reversed := Seqs.Reverse(received);
        items := reversed;
        var t := SetValues(reversed);
        TotalsIgnoreReversal(received);
        Seqs.ReverseIsPermutation(received);
        forall k | 0 <= k < |reversed|
          ensures reversed[k] == received[|received| - 1 - k]
        {
          Seqs.ReverseAt(received, k);
        }
        totalProducts, totalPrice, totalItems, totalSales := t.totalProducts, t.totalPrice, t.totalItems, t.totalSales;
      }
    }
  }
}
