/** Orders and their items (order/models.py): the line total of an item, the
    shipping tiers, the order-level discount, and the recomputation of the
    three derived price fields.

    `OrderDb` is the order app's part of the database. The orders table is a
    sequence whose index is the order id; ids grow with creation time, so
    "newest first" is "highest index first". Items are kept in one table and
    point to their order by id. */
module OrderModels {
  import opened Wrappers
  import opened Discounts
  import opened Catalog

  datatype Status = Pending | Processing | Shipped | Delivered | Canceled

  /** An `Order` row. `discountCode` holds the code of the referenced
      `DiscountCode` row. Address, time stamps and the soft-delete flag are
      left out. */
  datatype Order = Order(
    user: string, totalPrice: real, discountCode: Option<string>,
    discountAmount: real, shippingCost: real, finalPrice: real,
    isPaid: bool, status: Status)

  /** An `OrderItem` row; `price` is the unit price captured when it was added. */
  datatype OrderItem = OrderItem(
    id: nat, order: nat, product: int, quantity: int, price: real, totalPrice: real,
    colour: string, features: seq<(string, string)>)

  /** An unpaid order of `user` with every other field at its default. */
  function NewCart(user: string): Order
  {
    Order(user, 0.0, None, 0.0, 0.0, 0.0, false, Pending)
  }

  // ---------------------------------------------------------------------------
  // Shipping

  /** `Order.calculate_shipping_cost`, given the total weight. */
  function ShippingCost(weight: real): (r: real)
    ensures r == 0.0 <==> weight == 0.0
    ensures 0.0 < weight ==> 5.0 <= r
    ensures 0.0 <= weight <= 10.0 ==> r <= 10.0
    ensures 10.0 < weight ==> 15.0 < r
  {
    if weight == 0.0 then 0.0
    else if weight <= 5.0 then 5.0
    else if weight <= 10.0 then 10.0
    else weight * 1.5
  }

  /** For weights that can occur the cost is never negative, and a heavier
      order never ships for less. */
  lemma ShippingMonotone(w1: real, w2: real)
    requires 0.0 <= w1 <= w2
    ensures 0.0 <= ShippingCost(w1) <= ShippingCost(w2)
  {
  }

  /** The tier boundaries: 5 ships for 5 and 10 for 10, the next step up costs more. */
  lemma ShippingBoundaries()
    ensures ShippingCost(0.0) == 0.0 && ShippingCost(5.0) == 5.0 && ShippingCost(5.01) == 10.0
    ensures ShippingCost(10.0) == 10.0 && ShippingCost(10.01) == 15.015
  {
  }

  // ---------------------------------------------------------------------------
  // Sums over an order's items

  predicate ItemsReferTo(items: seq<OrderItem>, products: map<int, Product>)
  {
    forall i :: 0 <= i < |items| ==> items[i].product in products
  }

  /** `OrderItem.get_total_weight`: the product's current weight times the quantity. */
  function ItemWeight(item: OrderItem, products: map<int, Product>): real
    requires item.product in products
  {
    item.quantity as real * products[item.product].weight
  }

  /** The total weight of order `oid`: the sum of its items' weights. */
  function OrderWeight(items: seq<OrderItem>, oid: nat, products: map<int, Product>): real
    requires ItemsReferTo(items, products)
  {
    if items == [] then 0.0
    else
      var last := items[|items| - 1];
      assert ItemsReferTo(items[..|items| - 1], products);
      OrderWeight(items[..|items| - 1], oid, products) + (if last.order == oid then ItemWeight(last, products) else 0.0)
  }

  /** An order whose items have non-negative quantities and weights weighs
      at least 0, and an order without items weighs exactly 0, so it ships
      for free. */
  lemma {:induction false} OrderWeightNonNegative(items: seq<OrderItem>, oid: nat, products: map<int, Product>)
    requires ItemsReferTo(items, products)
    ensures (forall i :: 0 <= i < |items| && items[i].order == oid ==>
               0 <= items[i].quantity && 0.0 <= products[items[i].product].weight) ==> 0.0 <= OrderWeight(items, oid, products)
    ensures (forall i :: 0 <= i < |items| ==> items[i].order != oid) ==>
      OrderWeight(items, oid, products) == 0.0 && ShippingCost(OrderWeight(items, oid, products)) == 0.0
  {
    if items != [] {
      var n := |items| - 1;
      assert ItemsReferTo(items[..n], products);
      OrderWeightNonNegative(items[..n], oid, products);
      var last := items[n];
      if last.order == oid && 0 <= last.quantity && 0.0 <= products[last.product].weight {
        ProductNonNegative(last.quantity as real, products[last.product].weight);
      }
    }
  }

  /** The sum of the line totals of order `oid`'s items. */
  function ItemsTotal(items: seq<OrderItem>, oid: nat): real
  {
    if items == [] then 0.0
    else
      var last := items[|items| - 1];
      ItemsTotal(items[..|items| - 1], oid) + (if last.order == oid then last.totalPrice else 0.0)
  }

  /** What one item adds to the total of order `oid`. */
  function Share(item: OrderItem, oid: nat): real
  {
    if item.order == oid then item.totalPrice else 0.0
  }

  lemma {:induction false} ItemsTotalConcat(a: seq<OrderItem>, b: seq<OrderItem>, oid: nat)
    ensures ItemsTotal(a + b, oid) == ItemsTotal(a, oid) + ItemsTotal(b, oid)
    decreases |b|
  {
    if b == [] {
      assert a + b == a;
    } else {
      var n := |b| - 1;
      assert (a + b)[..|a + b| - 1] == a + b[..n];
      ItemsTotalConcat(a, b[..n], oid);
    }
  }

  /** Appending an item adds its line total to its own order's sum and nothing to the others. */
  lemma ItemsTotalAppend(items: seq<OrderItem>, item: OrderItem, oid: nat)
    ensures ItemsTotal(items + [item], oid) == ItemsTotal(items, oid) + Share(item, oid)
  {
    assert (items + [item])[..|items|] == items;
  }

  /** Removing the item at `k` takes its line total off its own order's sum and nothing off the others. */
  lemma ItemsTotalRemove(items: seq<OrderItem>, k: nat, oid: nat)
    requires k < |items|
    ensures ItemsTotal(items[..k] + items[k + 1..], oid) == ItemsTotal(items, oid) - Share(items[k], oid)
  {
    assert items == items[..k] + ([items[k]] + items[k + 1..]);
    ItemsTotalConcat(items[..k], [items[k]] + items[k + 1..], oid);
    ItemsTotalConcat([items[k]], items[k + 1..], oid);
    ItemsTotalConcat(items[..k], items[k + 1..], oid);
    assert ItemsTotal([items[k]], oid) == Share(items[k], oid) by {
      assert [items[k]][..0] == [];
    }
  }

  // ---------------------------------------------------------------------------
  // Derived price fields

  /** `Order.apply_discount`, as written: with a valid code attached, the field
      receives the code's `apply_discount` of the total, which is the
      discounted price and not the amount taken off; otherwise 0. */
  function DiscountAmount(o: Order, codes: map<string, DiscountCode>, now: Time): (r: real)
    ensures o.discountCode.None? || o.discountCode.value !in codes || !CodeIsValid(codes[o.discountCode.value], now) ==> r == 0.0
    ensures o.discountCode.Some? && o.discountCode.value in codes && CodeIsValid(codes[o.discountCode.value], now) ==>
      r == Reduce(codes[o.discountCode.value].kind, codes[o.discountCode.value].value, o.totalPrice)
  {
    if o.discountCode.Some? && o.discountCode.value in codes && CodeIsValid(codes[o.discountCode.value], now)
    then ApplyCode(codes[o.discountCode.value], o.totalPrice, now)
    else 0.0
  }

  /** `final_price` agrees with the other three price fields. */
  predicate PricesConsistent(o: Order)
  {
    o.finalPrice == Max0(o.totalPrice - o.discountAmount + o.shippingCost)
  }

  /** The two orders agree on every field but the three derived ones. */
  predicate SameButDerived(a: Order, b: Order)
  {
    a.(discountAmount := 0.0, shippingCost := 0.0, finalPrice := 0.0) ==
    b.(discountAmount := 0.0, shippingCost := 0.0, finalPrice := 0.0)
  }

  /** The row `Order.update_final_price` leaves behind for order `oid`. */
  function Recomputed(o: Order, oid: nat, items: seq<OrderItem>, products: map<int, Product>,
                      codes: map<string, DiscountCode>, now: Time): (r: Order)
    requires ItemsReferTo(items, products)
    ensures PricesConsistent(r) && r.finalPrice >= 0.0
    ensures SameButDerived(r, o)
    ensures r.discountAmount == DiscountAmount(o, codes, now)
    ensures r.shippingCost == ShippingCost(OrderWeight(items, oid, products))
  {
    var discount := DiscountAmount(o, codes, now);
    var shipping := ShippingCost(OrderWeight(items, oid, products));
    o.(discountAmount := discount, shippingCost := shipping, finalPrice := Max0(o.totalPrice - discount + shipping))
  }

  /** Recomputing reads only the total, the code and the items, and writes only
      the derived fields, so doing it twice is doing it once. */
  lemma RecomputeIdempotent(o: Order, oid: nat, items: seq<OrderItem>, products: map<int, Product>,
                            codes: map<string, DiscountCode>, now: Time)
    requires ItemsReferTo(items, products)
    ensures Recomputed(Recomputed(o, oid, items, products, codes, now), oid, items, products, codes, now)
         == Recomputed(o, oid, items, products, codes, now)
  {
  }

  /** As written, a valid percentage code of `v` makes the stored
      `discount_amount` the price after the discount, so the customer is
      charged `v` percent of the total plus shipping. */
  lemma PercentCodeChargesThePercentage(o: Order, oid: nat, items: seq<OrderItem>, products: map<int, Product>,
                                        codes: map<string, DiscountCode>, now: Time)
    requires ItemsReferTo(items, products)
    requires o.discountCode.Some? && o.discountCode.value in codes
    requires CodeIsValid(codes[o.discountCode.value], now) && codes[o.discountCode.value].kind == Percent
    requires 0.0 <= codes[o.discountCode.value].value && 0.0 <= o.totalPrice
    requires 0.0 <= OrderWeight(items, oid, products)
    ensures Recomputed(o, oid, items, products, codes, now).discountAmount
         == o.totalPrice - o.totalPrice * (codes[o.discountCode.value].value / 100.0)
    ensures Recomputed(o, oid, items, products, codes, now).finalPrice
         == o.totalPrice * (codes[o.discountCode.value].value / 100.0) + ShippingCost(OrderWeight(items, oid, products))
  {
    var cut := codes[o.discountCode.value].value / 100.0;
    assert o.totalPrice * (1.0 - cut) == o.totalPrice - o.totalPrice * cut;
    ProductNonNegative(o.totalPrice, cut);
    ShippingMonotone(0.0, OrderWeight(items, oid, products));
  }

  /** The order test's case: 10% off a total of 100 stores 90, not the 10 taken off. */
  lemma TenPercentOfHundredStoresNinety(o: Order, codes: map<string, DiscountCode>, now: Time)
    requires o.totalPrice == 100.0 && o.discountCode.Some? && o.discountCode.value in codes
    requires CodeIsValid(codes[o.discountCode.value], now)
    requires codes[o.discountCode.value].kind == Percent && codes[o.discountCode.value].value == 10.0
    ensures DiscountAmount(o, codes, now) == 90.0
  {
  }

  /** Worked example: a product of price 100 and weight 2, two of them in the
      cart and no code: total 200, weight 4, shipping 5, final price 205. */
  lemma TwoOfAHundredCostTwoHundredFive(p: Product, codes: map<string, DiscountCode>, now: Time)
    requires p.price == 100.0 && p.weight == 2.0
    ensures var items := [OrderItem(0, 0, 7, 2, p.price, 2.0 * p.price, "", [])];
            var r := Recomputed(Order("u", 200.0, None, 0.0, 0.0, 0.0, false, Pending), 0, items, map[7 := p], codes, now);
            OrderWeight(items, 0, map[7 := p]) == 4.0 && r.shippingCost == 5.0 && r.finalPrice == 205.0
  {
    var items := [OrderItem(0, 0, 7, 2, p.price, 2.0 * p.price, "", [])];
    assert items[..0] == [];
  }

  // ---------------------------------------------------------------------------
  // The order app's tables

  /** What every stored item satisfies: it belongs to a stored order, its id
      was handed out, its quantity is at least 1, and its line total is the
      quantity times the unit price. */
  predicate ItemWellFormed(item: OrderItem, orderCount: nat, nextItemId: nat)
  {
    && item.order < orderCount
    && item.id < nextItemId
    && item.quantity >= 1
    && item.totalPrice == item.quantity as real * item.price
  }

  predicate ItemIdsUnique(items: seq<OrderItem>)
  {
    forall i, j :: 0 <= i < |items| && 0 <= j < |items| && i != j ==> items[i].id != items[j].id
  }

  /** At most one unpaid order (cart) per user. */
  predicate OneCartPerUser(orders: seq<Order>)
  {
    forall i, j :: 0 <= i < |orders| && 0 <= j < |orders| && i != j && orders[i].user == orders[j].user ==>
      orders[i].isPaid || orders[j].isPaid
  }

  /** The invariant the cart views keep: well-formed items with distinct ids,
      every order's `total_price` equal to the sum of its items' line totals,
      and one cart per user. */
  predicate Consistent(orders: seq<Order>, items: seq<OrderItem>, nextItemId: nat)
  {
    && (forall i :: 0 <= i < |items| ==> ItemWellFormed(items[i], |orders|, nextItemId))
    && ItemIdsUnique(items)
    && (forall k :: 0 <= k < |orders| ==> orders[k].totalPrice == ItemsTotal(items, k))
    && OneCartPerUser(orders)
  }

  class OrderDb {
    var orders: seq<Order>
    var items: seq<OrderItem>
    var nextItemId: nat

    ghost predicate Valid()
      reads this
    {
      Consistent(orders, items, nextItemId)
    }

    constructor ()
      ensures Valid() && orders == [] && items == [] && nextItemId == 0
    {
      orders, items, nextItemId := [], [], 0;
    }

    /** `Order.save` on a new order: the row is stored as given and the
        derived fields are not recomputed. */
    method Insert(o: Order) returns (oid: nat)
      modifies this`orders
      ensures oid == |old(orders)| && orders == old(orders) + [o]
    {
      oid := |orders|;
      orders := orders + [o];
    }

    /** `Order.apply_discount`. */
    method ApplyDiscount(oid: nat, codes: map<string, DiscountCode>, now: Time)
      requires oid < |orders|
      modifies this`orders
      ensures orders == old(orders)[oid := old(orders[oid]).(discountAmount := DiscountAmount(old(orders[oid]), codes, now))]
    {
      var o := orders[oid];
      if o.discountCode.Some? && o.discountCode.value in codes && CodeIsValid(codes[o.discountCode.value], now) {
        orders := orders[oid := o.(discountAmount := ApplyCode(codes[o.discountCode.value], o.totalPrice, now))];
      } else {
        orders := orders[oid := o.(discountAmount := 0.0)];
      }
    }

    /** `Order.update_final_price`: discount, then shipping, then the final price. */
    method UpdateFinalPrice(oid: nat, products: map<int, Product>, codes: map<string, DiscountCode>, now: Time)
      requires oid < |orders| && ItemsReferTo(items, products)
      modifies this`orders
      ensures orders == old(orders)[oid := Recomputed(old(orders[oid]), oid, items, products, codes, now)]
    {
      ApplyDiscount(oid, codes, now);
      var o := orders[oid];
      var shipping := ShippingCost(OrderWeight(items, oid, products));
      orders := orders[oid := o.(shippingCost := shipping, finalPrice := Max0(o.totalPrice - o.discountAmount + shipping))];
    }

    /** `Order.save` on an existing order: the row is written, then the derived
        fields are recomputed and written. */
    method Save(oid: nat, o: Order, products: map<int, Product>, codes: map<string, DiscountCode>, now: Time)
      requires oid < |orders| && ItemsReferTo(items, products)
      modifies this`orders
      ensures orders == old(orders)[oid := Recomputed(o, oid, items, products, codes, now)]
    {
      orders := orders[oid := o];
      UpdateFinalPrice(oid, products, codes, now);
    }

    /** `OrderItem.save` on a new item: the line total is set to quantity times
        unit price and the row is stored under a fresh id. */
    method InsertItem(oid: nat, product: int, quantity: int, price: real,
                      colour: string, features: seq<(string, string)>) returns (item: OrderItem)
      modifies this`items, this`nextItemId
      ensures item == OrderItem(old(nextItemId), oid, product, quantity, price, quantity as real * price, colour, features)
      ensures items == old(items) + [item] && nextItemId == old(nextItemId) + 1
    {
      item := OrderItem(nextItemId, oid, product, quantity, price, quantity as real * price, colour, features);
      items := items + [item];
      nextItemId := nextItemId + 1;
    }

    /** `OrderItem.delete`. */
    method DeleteItem(k: nat)
      requires k < |items|
      modifies this`items
      ensures items == old(items[..k] + items[k + 1..])
    {
      items := items[..k] + items[k + 1..];
    }
  }
}
